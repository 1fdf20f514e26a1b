/** Every acknowledgement on the wire was, at some point of the run, what its sender expected next. */
module TcpAcks {
  import opened Words
  import opened TcpTypes
  import opened TcpSpec
  import opened TcpSender
  import opened TcpRun
  import opened TcpNet
  import opened TcpStream

  /** A reset of a closed endpoint acknowledges the segment that it answers. */
  predicate ResetFor(h: Tcb, e: Event, q: Packet) {
    e.Segment? && h.state == Closed && !e.p.flag.ack && !e.p.flag.rst && q.ack == Wrap32(e.p.sn + SegLen(e.p))
  }

  /** What a step transmits acknowledges what is expected after the step. */
  predicate Announces(h: Tcb, e: Event, t: Tcb) {
    forall q :: q in t.snd.out ==> q in h.snd.out || !q.flag.ack || q.ack == t.rcv.nxt || ResetFor(h, e, q)
  }

  lemma TextAndFinAnnounces(h: Tcb, e: Event, s: Tcb, p: Packet, now: int, ok: bool)
    requires s.snd.out == h.snd.out
    ensures Announces(h, e, TextAndFin(s, p, now, ok))
  {
  }

  lemma AckFieldAnnounces(h: Tcb, e: Event, p: Packet, now: int, ok: bool)
    ensures Announces(h, e, AckField(h, p, now, ok))
  {
    var h1 := if h.state == SynReceived then h.(state := Established) else h;
    var s := AckedState(Advance(h1, p, now), p, now);
    assert s.snd.out == h.snd.out;
    TextAndFinAnnounces(h, e, s, p, now, ok);
  }

  lemma OpeningAnnounces(h: Tcb, p: Packet, isn: U32, now: int, ok: bool)
    requires h.state == Closed || h.state == Listen || h.state == SynSent
    ensures Announces(h, Segment(p, isn, ok), Arrive(h, p, isn, now, ok))
  {
  }

  lemma SynchronizedAnnounces(h: Tcb, e: Event, p: Packet, now: int, ok: bool)
    ensures Announces(h, e, ArriveSynchronized(h, p, now, ok))
  {
    AckFieldAnnounces(h, e, p, now, ok);
  }

  lemma ArriveAnnounces(h: Tcb, p: Packet, isn: U32, now: int, ok: bool)
    ensures Announces(h, Segment(p, isn, ok), Arrive(h, p, isn, now, ok))
  {
    match h.state
    case Closed | Listen | SynSent => OpeningAnnounces(h, p, isn, now, ok);
    case _ => SynchronizedAnnounces(h, Segment(p, isn, ok), p, now, ok);
  }

  lemma {:induction false} TimerLoopAnnounces(
      h: Tcb, e: Event, s: Tcb, q: seq<Entry>, i: nat, now: int, txs: seq<bool>, del: seq<nat>)
    requires i <= |q| && Indices(del, i) && Announces(h, e, s)
    ensures Announces(h, e, TimerLoop(s, q, i, del, now, txs).0)
    decreases |q| - i
  {
    if i < |q| && !UserExpired(s, q[i], now) {
      if !RetxDue(s, q[i], now) {
        TimerLoopAnnounces(h, e, s, q, i + 1, now, txs, del);
      } else if q[i].retxCount + 1 >= MAX_RETX {
        TimerLoopAnnounces(h, e, s.(log := s.log + ChanNote(q[i].ch, Fail(OVERLIMIT))), q, i + 1, now, txs, del + [i]);
      } else {
        TimerLoopAnnounces(h, e, Retransmit(s, q[i], Accepts(txs, i)), q, i + 1, now, txs, del);
      }
    }
  }

  lemma CallAnnounces(h: Tcb, e: Event, now: int)
    requires !e.Segment? && !e.TimerTick? && Step(h, e, now).Some?
    ensures Announces(h, e, Step(h, e, now).value)
  {
  }

  lemma StepAnnounces(h: Tcb, e: Event, now: int)
    requires Step(h, e, now).Some?
    ensures Announces(h, e, Step(h, e, now).value)
  {
    match e
    case Segment(p, isn, ok) => ArriveAnnounces(h, p, isn, now, ok);
    case TimerTick(txs) =>
      var s1 := QueueAck(h, now);
      TimerLoopAnnounces(h, e, s1, s1.snd.retx, 0, now, txs, []);
    case _ => CallAnnounces(h, e, now);
  }

  // ---------------------------------------------------------------- in two-endpoint runs

  lemma SynExpectsNext(h: Tcb, p: Packet, isn: U32, now: int, ok: bool)
    requires h.state == Closed || h.state == Listen || h.state == SynSent
    requires h.rcv.nxt == 0 && (p.flag.syn ==> p.data == [] && p.sn + 1 < 0x1_0000_0000)
    ensures
      var r := Arrive(h, p, isn, now, ok).rcv;
      r.nxt == 0 || r.nxt == r.irs + 1
  {
    if h.state == Closed {
      assert Arrive(h, p, isn, now, ok).rcv == h.rcv;
    } else {
      OpeningShape(h, p, isn, now, ok);
    }
  }

  lemma SynFacts(h: Tcb, k: Tcb, active: bool, p: Packet)
    requires Pair(h, k, active) && p in k.snd.out && p.dst == h.local && p.flag.syn
    ensures p.data == [] && p.sn + 1 < 0x1_0000_0000
  {
    PeerSegment(h, k, active, p);
    assert Carried(k.snd, p);
  }

  /** The first thing expected of the peer is what follows its SYN. */
  lemma ExpectsAfterSyn(h: Tcb, k: Tcb, active: bool, e: Event, now: int)
    requires Pair(h, k, active) && Legal(if active then Net(h, k) else Net(k, h), Move(active, e, now))
    requires !Synchronized(h) && Step(h, e, now).Some?
    ensures
      var r := Step(h, e, now).value.rcv;
      r.nxt == 0 || r.nxt == r.irs + 1
  {
    match e
    case Segment(p, isn, ok) =>
      if p.flag.syn {
        SynFacts(h, k, active, p);
      }
      SynExpectsNext(h, p, isn, now, ok);
    case ReceiveCall(ch, cap) => ReceiveReceives(h, ch, cap);
    case _ => OtherStepsUntouched(h, e, now);
  }

  /** A reset that answers a segment of the peer answers its SYN. */
  lemma ResetAcksSyn(h: Tcb, t: Tcb, k: Tcb, active: bool, e: Event, q: Packet)
    requires Pair(h, k, active) && Link(k, t) && t.rcv == h.rcv && ResetFor(h, e, q) && e.p in k.snd.out
    requires e.p.dst == h.local
    requires q in t.snd.out && q.dst == k.local && q.flag.ack
    ensures Synchronized(h) && q.ack == h.rcv.irs + 1
  {
    PeerSegment(h, k, active, e.p);
    assert Honest(k, t, q);
    assert e.p.flag == SYN && Carried(k.snd, e.p);
  }

  /** What is acknowledged to the peer after a step. */
  lemma NewAck(h: Tcb, k: Tcb, active: bool, e: Event, now: int, q: Packet)
    requires Pair(h, k, active) && Legal(if active then Net(h, k) else Net(k, h), Move(active, e, now))
    requires Step(h, e, now).Some?
    requires q in Step(h, e, now).value.snd.out && q !in h.snd.out && q.dst == k.local && q.flag.ack
    ensures
      var t := Step(h, e, now).value;
      q.ack == t.rcv.nxt || (Synchronized(h) && q.ack == h.rcv.irs + 1)
  {
    var t := Step(h, e, now).value;
    StepAnnounces(h, e, now);
    if q.ack != t.rcv.nxt {
      HostStepKeeps(h, k, active, e, now);
      assert t.rcv == h.rcv;
      ResetAcksSyn(h, t, k, active, e, q);
    }
  }

  /** RCV.NXT of one side has been `v` at some point of the run. */
  predicate Reached(n: Net, ms: seq<Move>, atA: bool, v: int) {
    exists k | 0 <= k <= |ms| :: HasNext(NetRun(n, ms[..k]), atA, v)
  }

  predicate HasNext(n: Option<Net>, atA: bool, v: int) {
    n.Some? && At(n.value, atA).rcv.nxt == v
  }

  lemma ReachedLater(n: Net, ms: seq<Move>, atA: bool, v: int)
    requires ms != [] && Reached(n, ms[..|ms| - 1], atA, v)
    ensures Reached(n, ms, atA, v)
  {
    var before := ms[..|ms| - 1];
    var k :| 0 <= k <= |before| && HasNext(NetRun(n, before[..k]), atA, v);
    assert before[..k] == ms[..k];
  }

  lemma ReachedNow(n: Net, ms: seq<Move>, atA: bool, v: int)
    requires HasNext(NetRun(n, ms), atA, v)
    ensures Reached(n, ms, atA, v)
  {
    assert ms[..|ms|] == ms;
  }

  /** Of the side at `atA`, every acknowledgement to the peer and the number after the peer's SYN were reached. */
  ghost predicate AllReached(s: Net, ms: seq<Move>, n: Net, atA: bool) {
    var y := At(n, atA);
    && (Synchronized(y) ==> Reached(s, ms, atA, y.rcv.irs + 1))
    && forall q :: q in y.snd.out && q.dst == At(n, !atA).local && q.flag.ack ==> Reached(s, ms, atA, q.ack)
  }

  lemma StepReached(s: Net, ms: seq<Move>, n: Net, n': Net, atA: bool)
    requires ms != [] && NetRun(s, ms[..|ms| - 1]) == Some(n) && NetRun(s, ms) == Some(n') && Consistent(n)
    requires Legal(n, ms[|ms| - 1]) && AllReached(s, ms[..|ms| - 1], n, atA)
    ensures AllReached(s, ms, n', atA)
  {
    var y := At(n', atA);
    IrsReached(s, ms, n, n', atA);
    forall q | q in y.snd.out && q.dst == At(n', !atA).local && q.flag.ack
      ensures Reached(s, ms, atA, q.ack)
    {
      AckReached(s, ms, n, n', atA, q);
    }
  }

  lemma SameIrs(h: Tcb, t: Tcb, k: Tcb)
    requires Link(k, h) && Link(k, t) && Synchronized(h) && Synchronized(t)
    ensures t.rcv.irs == h.rcv.irs
  {
  }

  lemma IrsReached(s: Net, ms: seq<Move>, n: Net, n': Net, atA: bool)
    requires ms != [] && NetRun(s, ms[..|ms| - 1]) == Some(n) && NetRun(s, ms) == Some(n') && Consistent(n)
    requires Legal(n, ms[|ms| - 1]) && AllReached(s, ms[..|ms| - 1], n, atA)
    ensures Synchronized(At(n', atA)) ==> Reached(s, ms, atA, At(n', atA).rcv.irs + 1)
    ensures At(n', !atA).local == At(n, !atA).local
  {
    var m, h, k := ms[|ms| - 1], At(n, atA), At(n, !atA);
    if m.atA == atA {
      StepIrs(h, k, atA, m.e, m.now);
    } else {
      StepIrs(k, h, !atA, m.e, m.now);
    }
    if Synchronized(h) {
      ReachedLater(s, ms, atA, h.rcv.irs + 1);
    } else if Synchronized(At(n', atA)) {
      ReachedNow(s, ms, atA, At(n', atA).rcv.nxt);
    }
  }

  lemma StepIrs(h: Tcb, k: Tcb, active: bool, e: Event, now: int)
    requires Pair(h, k, active) && Legal(if active then Net(h, k) else Net(k, h), Move(active, e, now))
    ensures Step(h, e, now).Some?
    ensures
      var t := Step(h, e, now).value;
      && t.local == h.local
      && if Synchronized(h) then Synchronized(t)
      && t.rcv.irs == h.rcv.irs else t.rcv.nxt == 0 || t.rcv.nxt == t.rcv.irs + 1
  {
    HostStepKeeps(h, k, active, e, now);
    if Synchronized(h) {
      SameIrs(h, Step(h, e, now).value, k);
    } else {
      ExpectsAfterSyn(h, k, active, e, now);
    }
  }

  lemma AckReached(s: Net, ms: seq<Move>, n: Net, n': Net, atA: bool, q: Packet)
    requires ms != [] && NetRun(s, ms[..|ms| - 1]) == Some(n) && NetRun(s, ms) == Some(n') && Consistent(n)
    requires Legal(n, ms[|ms| - 1]) && AllReached(s, ms[..|ms| - 1], n, atA)
    requires q in At(n', atA).snd.out && q.dst == At(n, !atA).local && q.flag.ack
    ensures Reached(s, ms, atA, q.ack)
  {
    var m, h, k := ms[|ms| - 1], At(n, atA), At(n, !atA);
    if q in h.snd.out {
      ReachedLater(s, ms, atA, q.ack);
    } else {
      NewAck(h, k, atA, m.e, m.now, q);
      if q.ack == At(n', atA).rcv.nxt {
        ReachedNow(s, ms, atA, q.ack);
      } else {
        ReachedLater(s, ms, atA, h.rcv.irs + 1);
      }
    }
  }

  /** In every run, each value acknowledged to the peer was RCV.NXT after some prefix of the run. */
  lemma {:induction false} AcknowledgedWasReached(la: Endpoint, lb: Endpoint, window: U16, ms: seq<Move>, atA: bool)
    requires Distinct(la, lb) && LegalRun(Start2(la, lb, window), ms)
    ensures NetRun(Start2(la, lb, window), ms).Some?
    ensures AllReached(Start2(la, lb, window), ms, NetRun(Start2(la, lb, window), ms).value, atA)
    decreases |ms|
  {
    RunConsistent(la, lb, window, ms);
    if ms != [] {
      var before := ms[..|ms| - 1];
      AcknowledgedWasReached(la, lb, window, before, atA);
      RunConsistent(la, lb, window, before);
      var s := Start2(la, lb, window);
      StepReached(s, ms, NetRun(s, before).value, NetRun(s, ms).value, atA);
    }
  }
}
