/** The timer pass and the retransmission timeout over whole histories. */
module TcpTimer {
  import opened Words
  import opened TcpTypes
  import opened TcpSpec
  import opened TcpRun
  import opened TcpNotify

  // ---------------------------------------------------------------- retransmission timeout

  predicate SamplesWithin(h: RttHistory, lo: nat, hi: nat) {
    match h
    case Unmeasured => lo <= INITIAL.srtt <= hi
    case Measured(before, sample) => lo <= sample <= hi && SamplesWithin(before, lo, hi)
  }

  predicate Int64(x: int) {
    -0x8000_0000_0000_0000 <= x < 0x8000_0000_0000_0000
  }

  /**
   * Whatever is measured, the timeout is between 1 s and 60 s; and the two truncating divisions
   * of each update never let the smoothed time drift more than 6 ns below its samples. With
   * samples below 2^58 ns no product overflows.
   */
  lemma {:induction false} RtoWithinBounds(h: RttHistory, lo: nat, hi: nat)
    requires SamplesWithin(h, lo, hi)
    ensures SECOND <= RttOf(h).rto <= 60 * SECOND
    ensures lo - 6 <= RttOf(h).srtt <= hi && 0 <= RttOf(h).srtt
    ensures hi < 0x400_0000_0000_0000 && h.Measured? ==>
      Int64(7 * RttOf(h.before).srtt) && Int64(3 * h.sample) && Int64(17 * RttOf(h).srtt)
  {
    if h.Measured? {
      RtoWithinBounds(h.before, lo, hi);
    }
  }

  // ---------------------------------------------------------------- order of the queue

  /** Entries are in the order in which they were first transmitted, none in the future. */
  predicate Ordered(q: seq<Entry>, now: int) {
    && (forall i, j :: 0 <= i < j < |q| ==> q[i].first <= q[j].first)
    && (forall x :: x in q ==> x.first <= now)
  }

  lemma OrderedConcat(a: seq<Entry>, b: seq<Entry>, now: int)
    requires Ordered(a, now) && Ordered(b, now) && forall x, y :: x in a && y in b ==> x.first <= y.first
    ensures Ordered(a + b, now)
  {
  }

  lemma OrderedSplit(q: seq<Entry>, k: nat, now: int)
    requires Ordered(q, now) && k <= |q|
    ensures Ordered(q[..k], now) && Ordered(q[k..], now)
    ensures forall x, y :: x in q[..k] && y in q[k..] ==> x.first <= y.first
  {
  }

  lemma OrderedTail(q: seq<Entry>, r: seq<Entry>, now: int)
    requires q != [] && Ordered(q, now) && Ordered(r, now) && (forall x :: x in r ==> x in q[1..])
    ensures Ordered([q[0]] + r, now)
  {
    OrderedSplit(q, 1, now);
    assert q[0] in q[..1];
    OrderedConcat([q[0]], r, now);
  }

  lemma {:induction false} KeepOrdered(q: seq<Entry>, una: U32, now: int)
    requires Ordered(q, now)
    ensures Ordered(Keep(q, una), now) && forall x :: x in Keep(q, una) ==> x in q
  {
    if q != [] {
      KeepOrdered(q[1..], una, now);
      OrderedTail(q, Keep(q[1..], una), now);
    }
  }

  lemma {:induction false} WithoutOrdered(q: seq<Entry>, t: Trigger, now: int)
    requires Ordered(q, now)
    ensures Ordered(WithoutTrigger(q, t), now) && forall x :: x in WithoutTrigger(q, t) ==> x in q
  {
    if q != [] {
      WithoutOrdered(q[1..], t, now);
      OrderedTail(q, WithoutTrigger(q[1..], t), now);
    }
  }

  lemma ArriveOrdered(s: Tcb, p: Packet, isn: U32, now: int, ok: bool)
    requires Ordered(s.snd.retx, now)
    ensures Ordered(Arrive(s, p, isn, now, ok).snd.retx, now)
  {
    KeepOrdered(s.snd.retx, p.ack, now);
    match s.state
    case Closed | Listen =>
    case SynSent => SynSentOrdered(s, p, now, ok);
    case _ => SynchronizedQueue(s, p, now, ok);
  }

  lemma SynSentOrdered(s: Tcb, p: Packet, now: int, ok: bool)
    requires Ordered(s.snd.retx, now)
    ensures Ordered(ArriveSynSent(s, p, now, ok).snd.retx, now)
  {
    KeepOrdered(s.snd.retx, p.ack, now);
    WithoutOrdered(Keep(s.snd.retx, p.ack), OpenTrigger, now);
    WithoutOrdered(s.snd.retx, OpenTrigger, now);
  }

  /** Without an expired entry the loop shuts nothing and leaves the queue as it is. */
  lemma {:induction false} TimerLoopQueue(s: Tcb, q: seq<Entry>, i: nat, del: seq<nat>, now: int, txs: seq<bool>)
    requires i <= |q| && Indices(del, i) && forall j :: i <= j < |q| ==> !UserExpired(s, q[j], now)
    ensures
      var t := TimerLoop(s, q, i, del, now, txs).0;
      t.snd.retx == s.snd.retx && t.state == s.state
    decreases |q| - i
  {
    if i < |q| {
      if !RetxDue(s, q[i], now) {
        TimerLoopQueue(s, q, i + 1, del, now, txs);
      } else if q[i].retxCount + 1 >= MAX_RETX {
        TimerLoopQueue(s.(log := s.log + ChanNote(q[i].ch, Fail(OVERLIMIT))), q, i + 1, del + [i], now, txs);
      } else {
        TimerLoopQueue(Retransmit(s, q[i], Accepts(txs, i)), q, i + 1, del, now, txs);
      }
    }
  }

  lemma {:induction false} RemoveOrdered(q: seq<Entry>, idx: seq<nat>, now: int)
    requires Ordered(q, now) && Indices(idx, |q|)
    ensures Ordered(RemoveAt(q, idx), now) && forall x :: x in RemoveAt(q, idx) ==> x in q
    decreases |idx|
  {
    if idx != [] {
      var k := idx[|idx| - 1];
      OrderedSplit(q, k, now);
      OrderedSplit(q[k..], 1, now);
      assert q[k..][1..] == q[k + 1..];
      RemoveOrdered(q[..k], idx[..|idx| - 1], now);
      OrderedConcat(RemoveAt(q[..k], idx[..|idx| - 1]), q[k + 1..], now);
    }
  }

  /**
   * On an ordered queue, whatever counts the entries carry: only the head can cause the user
   * timeout, so the queue is never emptied behind collected indices and the pass does not panic.
   */
  lemma PassSafe(s: Tcb, now: int, txs: seq<bool>)
    requires Ordered(s.snd.retx, now)
    ensures TimerPass(s, now, txs).Some? && Ordered(TimerPass(s, now, txs).value.snd.retx, now)
    ensures
      var q := Keep(s.snd.retx, s.snd.una);
      s.state != Closed && s.state != TimeWait ==>
        (TimerPass(s, now, txs).value.state == Closed <==> q != [] && UserExpired(s, q[0], now))
  {
    KeepOrdered(s.snd.retx, s.snd.una, now);
    var s1 := QueueAck(s, now);
    var q := s1.snd.retx;
    if q != [] && UserExpired(s1, q[0], now) {
      assert TimerLoop(s1, q, 0, [], now, txs) == (Shut(s1, EXPIRED), []);
    } else {
      TimerLoopQueue(s1, q, 0, [], now, txs);
      RemoveOrdered(q, TimerLoop(s1, q, 0, [], now, txs).1, now);
    }
  }

  // ---------------------------------------------------------------- runs

  lemma {:induction false} TimerLoopOrdered(s: Tcb, q: seq<Entry>, i: nat, now: int, txs: seq<bool>)
    requires i <= |q| && NoCounts(q) && Ordered(s.snd.retx, now)
    ensures
      var (t, del) := TimerLoop(s, q, i, [], now, txs);
      Ordered(t.snd.retx, now) && del == []
    decreases |q| - i
  {
    if i < |q| && !UserExpired(s, q[i], now) {
      assert q[i] in q;
      TimerLoopOrdered(if RetxDue(s, q[i], now) then Retransmit(s, q[i], Accepts(txs, i)) else s, q, i + 1, now, txs);
    }
  }

  lemma AppendOrdered(q: seq<Entry>, e: Entry, now: int)
    requires Ordered(q, now) && e.first == now
    ensures Ordered(q + [e], now)
  {
  }

  lemma StepOrdered(s: Tcb, e: Event, now: int)
    requires Ordered(s.snd.retx, now) && NoCounts(s.snd.retx)
    ensures Step(s, e, now).Some? && Ordered(Step(s, e, now).value.snd.retx, now)
  {
    StepNoCounts(s, e, now);
    match e
    case OpenCall(ch, foreign, active, timeout, isn, txs) =>
      AppendOrdered(s.snd.retx, Entry([], isn, SYN, now, now, 0, Some(ch), OpenTrigger), now);
    case SendCall(ch, data, txs) =>
      AppendOrdered(s.snd.retx, Entry(data, s.snd.nxt, ACK, now, now, 0, Some(ch), SendTrigger), now);
    case CloseCall(ch, txs) =>
      AppendOrdered(s.snd.retx, Entry([], s.snd.nxt, FINACK, now, now, 0, Some(ch), CloseTrigger), now);
    case Segment(p, isn, ok) => ArriveOrdered(s, p, isn, now, ok);
    case TimerTick(txs) =>
      KeepNoCounts(s.snd.retx, s.snd.una);
      KeepOrdered(s.snd.retx, s.snd.una, now);
      var s1 := QueueAck(s, now);
      TimerLoopOrdered(s1, s1.snd.retx, 0, now, txs);
    case _ =>
  }

  /** The clock never goes back. */
  predicate Chronological(es: seq<Timed>) {
    forall i, j :: 0 <= i < j < |es| ==> es[i].now <= es[j].now
  }

  lemma {:induction false} RunOrdered(local: Endpoint, window: U16, es: seq<Timed>)
    requires Chronological(es)
    ensures Run(Fresh(local, window), es).Some?
    ensures
      var q := Run(Fresh(local, window), es).value.snd.retx;
      NoCounts(q) && (if es == [] then q == [] else Ordered(q, es[|es| - 1].now))
    decreases |es|
  {
    if es != [] {
      var n := |es| - 1;
      RunOrdered(local, window, es[..n]);
      var s := Run(Fresh(local, window), es[..n]).value;
      assert Ordered(s.snd.retx, es[n].now);
      StepNoCounts(s, es[n].e, es[n].now);
      StepOrdered(s, es[n].e, es[n].now);
    }
  }

  // ---------------------------------------------------------------- what a pass transmits

  /** When a pass runs, and which of its transmissions the lower layers accept. */
  datatype Pass = Pass(now: int, txs: seq<bool>)

  function PacketOf(s: Tcb, e: Entry): Packet {
    Packet(s.local, s.foreign, e.sn, s.rcv.nxt, e.flag, s.snd.wnd, e.data)
  }

  /** Entry `i` is due, and its transmission is accepted. */
  predicate Goes(s: Tcb, q: seq<Entry>, i: nat, p: Pass)
    requires i < |q|
  {
    RetxDue(s, q[i], p.now) && Accepts(p.txs, i)
  }

  /** What a pass transmits from entry `i` on, in the order of the queue. */
  function Resent(s: Tcb, q: seq<Entry>, i: nat, p: Pass): seq<Packet>
    requires i <= |q|
    decreases |q| - i
  {
    if i == |q| then []
    else (if Goes(s, q, i, p) then [PacketOf(s, q[i])] else []) + Resent(s, q, i + 1, p)
  }

  /** Nothing is acknowledged, nothing has expired, no count is stored. */
  predicate Resting(s: Tcb, now: int) {
    && s.state != TimeWait && NoCounts(s.snd.retx)
    && forall e :: e in s.snd.retx ==> e.sn >= s.snd.una && !UserExpired(s, e, now)
  }

  function Out(s: Tcb, more: seq<Packet>): Tcb {
    s.(snd := s.snd.(out := s.snd.out + more))
  }

  lemma {:induction false} QueueAckRests(q: seq<Entry>, una: U32, now: int, h: RttHistory)
    requires forall e :: e in q ==> e.sn >= una
    ensures Keep(q, una) == q && AckNotes(q, una) == [] && Measure(q, una, now, h) == h
  {
    if q != [] {
      assert q[0] in q;
      QueueAckRests(q[1..], una, now, h);
    }
  }

  lemma {:induction false} TimerLoopResends(h: Tcb, s: Tcb, q: seq<Entry>, i: nat, p: Pass)
    requires i <= |q| && NoCounts(q) && s == h.(snd := h.snd.(out := s.snd.out))
    requires forall e :: e in q ==> !UserExpired(h, e, p.now)
    ensures TimerLoop(s, q, i, [], p.now, p.txs) == (Out(s, Resent(h, q, i, p)), [])
    decreases |q| - i
  {
    var rest := Resent(h, q, i, p);
    if i == |q| {
      assert s.snd.out + [] == s.snd.out;
    } else {
      assert q[i] in q;
      var after := Resent(h, q, i + 1, p);
      if RetxDue(s, q[i], p.now) {
        var s1 := Retransmit(s, q[i], Accepts(p.txs, i));
        TimerLoopResends(h, s1, q, i + 1, p);
        assert s.snd.out + ([PacketOf(h, q[i])] + after) == (s.snd.out + [PacketOf(h, q[i])]) + after;
        assert [] + after == after;
      } else {
        TimerLoopResends(h, s, q, i + 1, p);
        assert [] + after == after;
      }
    }
  }

  /** A pass transmits each entry that is due once, in order, and changes nothing else. */
  lemma PassResends(s: Tcb, p: Pass)
    requires Resting(s, p.now)
    ensures TimerPass(s, p.now, p.txs) == Some(Out(s, Resent(s, s.snd.retx, 0, p)))
  {
    QueueAckRests(s.snd.retx, s.snd.una, p.now, s.rtts);
    assert s.log + [] == s.log;
    assert QueueAck(s, p.now) == s;
    TimerLoopResends(s, s, s.snd.retx, 0, p);
  }

  function PassesAt(s: Tcb, ps: seq<Pass>): Option<Tcb>
    decreases |ps|
  {
    if ps == [] then Some(s)
    else
      match PassesAt(s, ps[..|ps| - 1])
      case None => None
      case Some(t) => TimerPass(t, ps[|ps| - 1].now, ps[|ps| - 1].txs)
  }

  function ResentAll(s: Tcb, ps: seq<Pass>): seq<Packet>
    decreases |ps|
  {
    if ps == [] then [] else ResentAll(s, ps[..|ps| - 1]) + Resent(s, s.snd.retx, 0, ps[|ps| - 1])
  }

  /** In how many passes entry `i` is due and its transmission accepted. */
  function DuePasses(s: Tcb, i: nat, ps: seq<Pass>): nat
    requires i < |s.snd.retx|
    decreases |ps|
  {
    if ps == [] then 0 else DuePasses(s, i, ps[..|ps| - 1]) + if Goes(s, s.snd.retx, i, ps[|ps| - 1]) then 1 else 0
  }

  function Copies(out: seq<Packet>, p: Packet): nat {
    if out == [] then 0 else (if out[0] == p then 1 else 0) + Copies(out[1..], p)
  }

  lemma {:induction false} CopiesConcat(a: seq<Packet>, b: seq<Packet>, p: Packet)
    ensures Copies(a + b, p) == Copies(a, p) + Copies(b, p)
  {
    if a == [] {
      assert a + b == b;
    } else {
      assert (a + b)[1..] == a[1..] + b;
      CopiesConcat(a[1..], b, p);
    }
  }

  predicate Apart(q: seq<Entry>) {
    forall i, j :: 0 <= i < j < |q| ==> q[i].sn != q[j].sn
  }

  lemma {:induction false} OneCopy(s: Tcb, q: seq<Entry>, i: nat, j: nat, p: Pass)
    requires i <= |q| && j < |q| && Apart(q)
    ensures Copies(Resent(s, q, i, p), PacketOf(s, q[j])) == if i <= j && Goes(s, q, j, p) then 1 else 0
    decreases |q| - i
  {
    if i < |q| {
      OneCopy(s, q, i + 1, j, p);
      var first := if Goes(s, q, i, p) then [PacketOf(s, q[i])] else [];
      CopiesConcat(first, Resent(s, q, i + 1, p), PacketOf(s, q[j]));
      assert first != [] ==> first[1..] == [];
    }
  }

  lemma {:induction false} CopiesOverPasses(s: Tcb, ps: seq<Pass>, i: nat)
    requires i < |s.snd.retx| && Apart(s.snd.retx)
    ensures Copies(ResentAll(s, ps), PacketOf(s, s.snd.retx[i])) == DuePasses(s, i, ps)
    decreases |ps|
  {
    if ps != [] {
      var before, p := ps[..|ps| - 1], ps[|ps| - 1];
      CopiesOverPasses(s, before, i);
      CopiesConcat(ResentAll(s, before), Resent(s, s.snd.retx, 0, p), PacketOf(s, s.snd.retx[i]));
      OneCopy(s, s.snd.retx, 0, i, p);
    }
  }

  lemma OutRests(s: Tcb, a: seq<Packet>, now: int)
    requires Resting(s, now)
    ensures Resting(Out(s, a), now)
  {
    assert forall e :: UserExpired(Out(s, a), e, now) <==> UserExpired(s, e, now);
  }

  lemma OutTwice(s: Tcb, a: seq<Packet>, b: seq<Packet>)
    ensures Out(Out(s, a), b) == Out(s, a + b)
  {
    assert (s.snd.out + a) + b == s.snd.out + (a + b);
  }

  /** One more pass, after passes that have transmitted `a`. */
  lemma NextPass(s: Tcb, a: seq<Packet>, p: Pass)
    requires Resting(s, p.now)
    ensures TimerPass(Out(s, a), p.now, p.txs) == Some(Out(s, a + Resent(s, s.snd.retx, 0, p)))
  {
    var t, b := Out(s, a), Resent(s, s.snd.retx, 0, p);
    OutRests(s, a, p.now);
    PassResends(t, p);
    SameResent(s, t, s.snd.retx, 0, p);
    OutTwice(s, a, b);
  }

  lemma {:induction false} PassesResend(s: Tcb, ps: seq<Pass>)
    requires forall p :: p in ps ==> Resting(s, p.now)
    ensures PassesAt(s, ps) == Some(Out(s, ResentAll(s, ps)))
    decreases |ps|
  {
    if ps == [] {
      assert s.snd.out + [] == s.snd.out;
    } else {
      var before, p := ps[..|ps| - 1], ps[|ps| - 1];
      assert p in ps;
      PassesResend(s, before);
      NextPass(s, ResentAll(s, before), p);
    }
  }

  /**
   * The limit of three transmissions never takes effect: counts and times are not stored. Over passes at any times
   * the queue stays as it is, and entry `i` is transmitted once for every pass in which it is due: at most twice
   * exactly if it is due in at most two.
   */
  lemma RetransmittedWheneverDue(s: Tcb, ps: seq<Pass>, i: nat)
    requires i < |s.snd.retx| && Apart(s.snd.retx) && forall p :: p in ps ==> Resting(s, p.now)
    ensures PassesAt(s, ps) == Some(Out(s, ResentAll(s, ps)))
    ensures Copies(ResentAll(s, ps), PacketOf(s, s.snd.retx[i])) == DuePasses(s, i, ps)
  {
    PassesResend(s, ps);
    CopiesOverPasses(s, ps, i);
  }

  lemma {:induction false} SameResent(s: Tcb, t: Tcb, q: seq<Entry>, i: nat, p: Pass)
    requires i <= |q| && t == s.(snd := s.snd.(out := t.snd.out))
    ensures Resent(t, q, i, p) == Resent(s, q, i, p)
    decreases |q| - i
  {
    if i < |q| {
      SameResent(s, t, q, i + 1, p);
    }
  }
}
