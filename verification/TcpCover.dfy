/** In the two-endpoint runs the retransmission queue covers exactly what is not acknowledged. */
module TcpCover {
  import opened Words
  import opened TcpTypes
  import opened TcpSpec
  import opened TcpQueue
  import opened TcpSender
  import opened TcpRun
  import opened TcpNet

  /** Where the queue begins. */
  function Head(d: Snd): int {
    if d.retx == [] then d.nxt else d.retx[0].sn
  }

  /** The queue begins at SND.UNA; only a SYN that was never transmitted may be missing from it. */
  predicate Covering(st: State, d: Snd) {
    st == Closed || Head(d) == d.una || (d.una == d.iss && Head(d) == d.iss + 1)
  }

  /** An acknowledgement of a segment boundary leaves a queue that begins there. */
  lemma AckCovers(st: State, d: Snd, ack: U32)
    requires Sender(st, d) && st != Closed && Covering(st, d) && d.una < ack <= d.nxt && ack in d.cuts
    ensures Head(d.(una := ack, retx := Keep(d.retx, ack))) == ack
  {
    var k := KeepIsSuffix(d.retx, d.nxt, ack);
    assert forall i :: 0 <= i < |d.retx| ==> d.retx[i] in d.retx;
    if k > 0 {
      assert Linked(d.retx, d.nxt, k - 1) && Queued(d, d.retx[k - 1]);
    } else if d.retx != [] {
      assert Queued(d, d.retx[0]) && d.una == d.iss;
    }
  }

  lemma AdvanceCovers(s: Tcb, p: Packet, now: int)
    requires Sender(s.state, s.snd) && Covering(s.state, s.snd)
    requires TakesAcks(s.state)
    requires p.ack in s.snd.cuts
    ensures
      var t := AckedState(Advance(s, p, now), p, now);
      Covering(t.state, t.snd) && t.state != Closed
  {
    var d := s.snd;
    var t := AckedState(Advance(s, p, now), p, now);
    if d.una < p.ack <= d.nxt {
      AckCovers(s.state, d, p.ack);
      AckQueue(s.state, d, p.ack);
      assert Head(t.snd) == p.ack == t.snd.una;
    } else {
      assert t.snd == d;
    }
  }

  lemma TextAndFinShape(s: Tcb, p: Packet, now: int, ok: bool)
    ensures
      var t := TextAndFin(s, p, now, ok);
      t.snd == s.snd.(out := t.snd.out) && (t.state == s.state || s.state != Closed)
  {
  }

  lemma TextAndFinCovers(s: Tcb, p: Packet, now: int, ok: bool)
    requires Covering(s.state, s.snd) && s.state != Closed
    ensures
      var t := TextAndFin(s, p, now, ok);
      Covering(t.state, t.snd)
  {
    TextAndFinShape(s, p, now, ok);
  }

  lemma AckFieldCovers(s: Tcb, p: Packet, now: int, ok: bool)
    requires Sender(s.state, s.snd) && Covering(s.state, s.snd) && p.ack in s.snd.cuts
    requires s.state != Closed && s.state != Listen && s.state != SynSent
    ensures
      var t := AckField(s, p, now, ok);
      Covering(t.state, t.snd)
  {
    var s1 := if s.state == SynReceived then s.(state := Established) else s;
    if s.state != LastAck && s.state != TimeWait {
      AdvanceCovers(s1, p, now);
      var s2 := AckedState(Advance(s1, p, now), p, now);
      TextAndFinCovers(s2, p, now, ok);
    }
  }

  lemma UnsynchronizedCovers(h: Tcb, p: Packet, isn: U32, now: int, ok: bool)
    requires Sender(h.state, h.snd) && Covering(h.state, h.snd) && NoWrap(Start(h.snd, isn))
    requires h.state == Closed || h.state == Listen
    ensures
      var t := Arrive(h, p, isn, now, ok);
      Covering(t.state, t.snd)
  {
  }

  lemma SynSentCovers(h: Tcb, p: Packet, now: int, ok: bool)
    requires Sender(SynSent, h.snd) && h.state == SynSent && Covering(h.state, h.snd)
    ensures
      var t := ArriveSynSent(h, p, now, ok);
      Covering(t.state, t.snd)
  {
    if p.flag.ack && h.snd.una <= p.ack <= h.snd.nxt {
      AckQueue(h.state, h.snd, p.ack);
    }
  }

  lemma SynchronizedCovers(h: Tcb, p: Packet, now: int, ok: bool)
    requires Sender(h.state, h.snd) && Covering(h.state, h.snd) && (p.flag.ack ==> p.ack in h.snd.cuts)
    requires h.state != Closed && h.state != Listen && h.state != SynSent
    ensures
      var t := ArriveSynchronized(h, p, now, ok);
      Covering(t.state, t.snd)
  {
    if p.flag.ack {
      AckFieldCovers(h, p, now, ok);
    }
  }

  lemma ArriveCovers(h: Tcb, k: Tcb, active: bool, p: Packet, isn: U32, now: int, ok: bool)
    requires Pair(h, k, active) && p in k.snd.out && p.dst == h.local && Covering(h.state, h.snd)
    requires NoWrap(Start(h.snd, isn))
    ensures
      var t := Arrive(h, p, isn, now, ok);
      Covering(t.state, t.snd)
  {
    PeerSegment(h, k, active, p);
    match h.state
    case Closed | Listen => UnsynchronizedCovers(h, p, isn, now, ok);
    case SynSent => SynSentCovers(h, p, now, ok);
    case _ => SynchronizedCovers(h, p, now, ok);
  }

  lemma {:induction false} TimerLoopCovers(s: Tcb, q: seq<Entry>, i: nat, now: int, txs: seq<bool>)
    requires i <= |q| && Covering(s.state, s.snd) && (forall e :: e in q ==> e.retxCount == 0)
    ensures
      var (t, del) := TimerLoop(s, q, i, [], now, txs);
      Covering(t.state, t.snd) && del == []
    decreases |q| - i
  {
    if i < |q| && !UserExpired(s, q[i], now) {
      assert q[i] in q;
      TimerLoopCovers(if RetxDue(s, q[i], now) then Retransmit(s, q[i], Accepts(txs, i)) else s, q, i + 1, now, txs);
    }
  }

  lemma SendCovers(h: Tcb, ch: Chan, data: seq<Byte>, txs: seq<bool>, now: int)
    requires Sender(h.state, h.snd) && Covering(h.state, h.snd) && NoWrap(h.snd.(sent := h.snd.sent + data))
    ensures Covering(Send(h, ch, data, txs, now).state, Send(h, ch, data, txs, now).snd)
  {
    var t := Send(h, ch, data, txs, now);
    assert Head(t.snd) == Head(h.snd) && t.snd.una == h.snd.una && t.snd.iss == h.snd.iss;
  }

  lemma CloseCovers(h: Tcb, ch: Chan, txs: seq<bool>, now: int)
    requires Sender(h.state, h.snd) && Covering(h.state, h.snd) && NoWrap(h.snd)
    ensures Covering(Close(h, ch, txs, now).state, Close(h, ch, txs, now).snd)
  {
    var t := Close(h, ch, txs, now);
    assert t.state == Closed || (Head(t.snd) == Head(h.snd) && t.snd.una == h.snd.una && t.snd.iss == h.snd.iss);
  }

  lemma OpenCovers(h: Tcb, ch: Chan, foreign: Endpoint, active: bool, timeout: int, isn: U32, txs: seq<bool>, now: int)
    requires Sender(h.state, h.snd) && Covering(h.state, h.snd)
    requires (h.state == Closed ==> !Opened(h.snd)) && (h.state == Listen ==> !active) && NoWrap(Start(h.snd, isn))
    ensures
      var t := Open(h, ch, foreign, active, timeout, isn, txs, now);
      Covering(t.state, t.snd)
  {
  }

  lemma TimerCovers(h: Tcb, now: int, txs: seq<bool>)
    requires Sender(h.state, h.snd) && Covering(h.state, h.snd)
    ensures
      var t := TimerPass(h, now, txs);
      t.Some? ==> Covering(t.value.state, t.value.snd)
  {
    assert forall x :: x in h.snd.retx ==> Queued(h.snd, x);
    KeepAll(h.snd.retx, h.snd.una);
    TimerLoopCovers(QueueAck(h, now), h.snd.retx, 0, now, txs);
  }

  lemma HostStepCovers(h: Tcb, k: Tcb, active: bool, e: Event, now: int)
    requires Pair(h, k, active) && Legal(if active then Net(h, k) else Net(k, h), Move(active, e, now))
    requires Covering(h.state, h.snd) && Step(h, e, now).Some?
    ensures Covering(Step(h, e, now).value.state, Step(h, e, now).value.snd)
  {
    match e
    case OpenCall(ch, foreign, act, timeout, isn, txs) => OpenCovers(h, ch, foreign, act, timeout, isn, txs, now);
    case SendCall(ch, data, txs) => SendCovers(h, ch, data, txs, now);
    case ReceiveCall(ch, cap) => assert Receive(h, ch, cap).snd == h.snd && Receive(h, ch, cap).state == h.state;
    case CloseCall(ch, txs) => CloseCovers(h, ch, txs, now);
    case AbortCall(ok) => assert Abort(h, ok).state == Closed;
    case Segment(p, isn, ok) => ArriveCovers(h, k, active, p, isn, now, ok);
    case TimerTick(txs) => TimerCovers(h, now, txs);
  }

  lemma {:induction false} RunCovers(la: Endpoint, lb: Endpoint, window: U16, ms: seq<Move>)
    requires Distinct(la, lb) && LegalRun(Start2(la, lb, window), ms)
    ensures NetRun(Start2(la, lb, window), ms).Some?
    ensures
      var n := NetRun(Start2(la, lb, window), ms).value;
      Consistent(n) && Covering(n.a.state, n.a.snd) && Covering(n.b.state, n.b.snd)
    decreases |ms|
  {
    RunConsistent(la, lb, window, ms);
    if ms != [] {
      var m := ms[|ms| - 1];
      RunCovers(la, lb, window, ms[..|ms| - 1]);
      var n := NetRun(Start2(la, lb, window), ms[..|ms| - 1]).value;
      HostStepCovers(At(n, m.atA), At(n, !m.atA), m.atA, m.e, m.now);
    }
  }

  /**
   * Until the connection is closed, once our SYN is acknowledged the queue is contiguous from
   * SND.UNA to SND.NXT: it is empty exactly when everything is acknowledged.
   */
  lemma QueueCoversUnacknowledged(la: Endpoint, lb: Endpoint, window: U16, ms: seq<Move>, atA: bool)
    requires Distinct(la, lb) && LegalRun(Start2(la, lb, window), ms)
    ensures NetRun(Start2(la, lb, window), ms).Some?
    ensures
      var h := At(NetRun(Start2(la, lb, window), ms).value, atA);
      h.state != Closed && h.snd.una > h.snd.iss ==>
        && Tiles(h.snd.retx, h.snd.nxt)
        && (h.snd.retx == [] <==> h.snd.una == h.snd.nxt)
        && (h.snd.retx != [] ==> h.snd.retx[0].sn == h.snd.una)
  {
    RunCovers(la, lb, window, ms);
    var h := At(NetRun(Start2(la, lb, window), ms).value, atA);
    if h.snd.retx != [] {
      assert Queued(h.snd, h.snd.retx[0]);
    }
  }

  /**
   * An acknowledgement of the peer takes an entry off the queue, and answers its call, exactly if it covers the
   * whole entry; the entry then ends at or below RCV.NXT of the peer.
   */
  lemma AnsweredIsBelowNext(h: Tcb, k: Tcb, active: bool, p: Packet, e: Entry)
    requires Pair(h, k, active) && p in k.snd.out && p.dst == h.local && p.flag.ack && e in h.snd.retx
    ensures e.sn < p.ack <==> e.sn + EntryLen(e) <= p.ack
    ensures e.sn < p.ack ==> e.sn + EntryLen(e) <= k.rcv.nxt
  {
    PeerSegment(h, k, active, p);
    assert Queued(h.snd, e);
  }
}
