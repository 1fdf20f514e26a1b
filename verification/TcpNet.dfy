/**
 * An active and a passive opener joined by a network that may lose, duplicate and reorder:
 * whatever one side has ever transmitted may arrive at the other, at any time, any number of
 * times, or never.
 */
module TcpNet {
  import opened Words
  import opened TcpTypes
  import opened TcpSpec
  import opened TcpQueue
  import opened TcpSender
  import opened TcpRun

  predicate Synchronized(h: Tcb) {
    h.rcv.nxt > 0
  }

  /** States that only the peer's FIN leads to. */
  predicate ConsumedFin(st: State) {
    st == CloseWait || st == LastAck || st == Closing || st == TimeWait
  }

  /** What an opener ever transmits; only the passive one acknowledges in its SYN. */
  predicate Role(active: bool, flag: Flags) {
    flag == (if active then SYN else SYNACK) || flag == ACK || flag == FINACK || flag == RST || flag == RSTACK
  }

  predicate RoleStates(h: Tcb, active: bool) {
    && (h.state == SynSent || h.state == Listen ==> !Synchronized(h))
    && (h.state != Closed && h.state != SynSent && h.state != Listen ==> Synchronized(h))
    && (Synchronized(h) ==> Opened(h.snd))
    && if active then
         h.state != Listen && h.state != SynReceived && (Synchronized(h) ==> h.snd.una > h.snd.iss)
       else
         && h.state != SynSent && (Opened(h.snd) ==> Synchronized(h))
         && (h.state == Established || h.state == CloseWait || h.state == LastAck ==> h.snd.una > h.snd.iss)
  }

  predicate EntryRole(h: Tcb, active: bool, e: Entry) {
    Role(active, e.flag) && (e.flag.ack ==> Synchronized(h))
  }

  ghost predicate Host(h: Tcb, active: bool, me: Endpoint, peer: Endpoint) {
    && h.local == me
    && h.foreign == (if Opened(h.snd) then peer else NOWHERE)
    && Sender(h.state, h.snd) && NoWrap(h.snd)
    && RoleStates(h, active)
    && (forall p :: p in h.snd.out ==> p.src == me && Role(active, p.flag))
    && (forall e :: e in h.snd.retx ==> EntryRole(h, active, e))
  }

  /** An acknowledgement from `y` to `x` names a point that `y` reached and where a segment of `x` ends. */
  predicate Honest(x: Tcb, y: Tcb, p: Packet) {
    p.dst == x.local && p.flag.ack ==>
      Synchronized(y) && y.rcv.irs + 1 <= p.ack <= y.rcv.nxt && p.ack in x.snd.cuts
  }

  /** What `y` has received of `x`. */
  ghost predicate Link(x: Tcb, y: Tcb) {
    && (Synchronized(y) ==>
          && Opened(x.snd) && y.rcv.irs == x.snd.iss
          && x.snd.iss < y.rcv.nxt <= x.snd.nxt && y.rcv.nxt in x.snd.cuts)
    && (x.snd.una > x.snd.iss ==> Synchronized(y) && x.snd.una <= y.rcv.nxt && x.snd.una in x.snd.cuts)
    && (forall p :: p in y.snd.out ==> Honest(x, y, p))
    && (ConsumedFin(y.state) ==> FinSent(x.snd) && y.rcv.nxt == x.snd.nxt)
    && (FinSent(x.snd) && y.rcv.nxt == x.snd.nxt ==> ConsumedFin(y.state) || y.state == Closed)
  }

  // ---------------------------------------------------------------- how a link survives a step

  /** A step of the sender that leaves SND.UNA alone or moves it to where the peer is. */
  lemma LinkSender(x: Tcb, x': Tcb, y: Tcb)
    requires Link(x, y) && x'.local == x.local
    requires Sender(x.state, x.snd) && Sender(x'.state, x'.snd) && Extends(x.snd, x'.snd)
    requires Opened(x.snd) || !Synchronized(y)
    requires x'.snd.una > x'.snd.iss ==>
      Synchronized(y) && x'.snd.una <= y.rcv.nxt && x'.snd.una in x'.snd.cuts
    ensures Link(x', y)
  {
    assert forall p :: p in y.snd.out ==> Honest(x, y, p) ==> Honest(x', y, p);
  }

  /** A segment that reports where its sender is, or nothing. */
  predicate Reports(h: Tcb, p: Packet) {
    p.src == h.local && (p.flag.ack ==> Synchronized(h) && p.ack == h.rcv.nxt)
  }

  predicate StateMove(st: State, st': State) {
    || st' == st || st' == Closed
    || ((st == SynReceived || st == Established) && st' == FinWait1)
    || (st == CloseWait && st' == LastAck)
    || (st == SynReceived && st' == Established) || (st == FinWait1 && st' == FinWait2)
    || (st == Closing && st' == TimeWait)
  }

  /** A step that receives nothing. */
  ghost predicate Quiet(h: Tcb, t: Tcb, active: bool) {
    && t.local == h.local && t.foreign == h.foreign
    && t.rcv.nxt == h.rcv.nxt && t.rcv.irs == h.rcv.irs
    && t.snd.iss == h.snd.iss && t.snd.una >= h.snd.una && (Opened(t.snd) <==> Opened(h.snd))
    && StateMove(h.state, t.state)
    && (forall p :: p in t.snd.out ==> p in h.snd.out || (Reports(h, p) && Role(active, p.flag)))
    && (forall e :: e in t.snd.retx ==> e in h.snd.retx || EntryRole(h, active, e))
  }

  lemma QuietKeeps(h: Tcb, t: Tcb, k: Tcb, active: bool)
    requires Host(h, active, h.local, k.local) && Link(h, k) && Link(k, h) && Quiet(h, t, active)
    requires Sender(t.state, t.snd) && Extends(h.snd, t.snd) && NoWrap(t.snd)
    requires t.snd.una == h.snd.una ||
      (Synchronized(k) && t.snd.iss < t.snd.una <= k.rcv.nxt && t.snd.una in t.snd.cuts)
    requires t.state == Established && h.state == SynReceived ==> t.snd.una > t.snd.iss
    ensures Host(t, active, h.local, k.local) && Link(t, k) && Link(k, t)
  {
    LinkSender(h, t, k);
    forall p | p in t.snd.out
      ensures Honest(k, t, p)
    {
      if p in h.snd.out {
        assert Honest(k, h, p);
      }
    }
    assert forall e :: EntryRole(h, active, e) ==> EntryRole(t, active, e);
  }

  // ---------------------------------------------------------------- steps that receive nothing

  lemma SendTextQuiet(h: Tcb, active: bool, peer: Endpoint, ch: Chan, data: seq<Byte>, txs: seq<bool>, now: int)
    requires Host(h, active, h.local, peer) && NoWrap(h.snd.(sent := h.snd.sent + data))
    requires h.state == Established || h.state == CloseWait
    ensures Quiet(h, SendText(h, ch, data, txs, now), active) && NoWrap(SendText(h, ch, data, txs, now).snd)
    ensures SendText(h, ch, data, txs, now).snd.una == h.snd.una
  {
    var t := SendText(h, ch, data, txs, now);
    if true in txs {
      var e := Entry(data, h.snd.nxt, ACK, now, now, 0, Some(ch), SendTrigger);
      var p := Packet(h.local, h.foreign, h.snd.nxt, h.rcv.nxt, ACK, h.rcv.wnd, data);
      assert t.snd == Appended(h.snd, e, p) && EntryRole(h, active, e) && Reports(h, p);
    }
  }

  /** What was logged before a step does not matter to the peer. */
  lemma QuietFrom(h: Tcb, h1: Tcb, t: Tcb, active: bool)
    requires Quiet(h1, t, active) && h1 == h.(log := h1.log)
    ensures Quiet(h, t, active)
  {
    assert forall p :: Reports(h1, p) <==> Reports(h, p);
    assert forall e :: EntryRole(h1, active, e) <==> EntryRole(h, active, e);
  }

  lemma HostLog(h: Tcb, h1: Tcb, active: bool, peer: Endpoint)
    requires Host(h, active, h.local, peer) && h1 == h.(log := h1.log)
    ensures Host(h1, active, h.local, peer)
  {
    assert forall e :: EntryRole(h1, active, e) <==> EntryRole(h, active, e);
  }

  lemma SendQuiet(h: Tcb, active: bool, peer: Endpoint, ch: Chan, data: seq<Byte>, txs: seq<bool>, now: int)
    requires Host(h, active, h.local, peer) && NoWrap(h.snd.(sent := h.snd.sent + data))
    ensures Quiet(h, Send(h, ch, data, txs, now), active) && NoWrap(Send(h, ch, data, txs, now).snd)
    ensures Send(h, ch, data, txs, now).snd.una == h.snd.una
  {
    if h.state == Established || h.state == CloseWait {
      var h1 := if |data| > h.snd.wnd then Answer(h, ch, Fail(RESOURCES)) else h;
      HostLog(h, h1, active, peer);
      SendTextQuiet(h1, active, peer, ch, data, txs, now);
      QuietFrom(h, h1, SendText(h1, ch, data, txs, now), active);
    } else {
      assert Send(h, ch, data, txs, now).snd == h.snd;
    }
  }

  lemma CloseQuiet(h: Tcb, active: bool, peer: Endpoint, ch: Chan, txs: seq<bool>, now: int)
    requires Host(h, active, h.local, peer)
    ensures Quiet(h, Close(h, ch, txs, now), active) && NoWrap(Close(h, ch, txs, now).snd)
  {
    var t := Close(h, ch, txs, now);
    if (h.state == SynReceived || h.state == Established || h.state == CloseWait) && true in txs {
      var e := Entry([], h.snd.nxt, FINACK, now, now, 0, Some(ch), CloseTrigger);
      var p := Packet(h.local, h.foreign, h.snd.nxt, h.rcv.nxt, FINACK, h.rcv.wnd, []);
      assert h.snd.sent + [] == h.snd.sent;
      assert t.snd == Appended(h.snd, e, p) && EntryRole(h, active, e) && Reports(h, p);
    } else {
      assert t.snd == h.snd || t.snd == h.snd.(retx := []);
    }
  }

  lemma AbortQuiet(h: Tcb, active: bool, ok: bool)
    requires NoWrap(h.snd)
    ensures Quiet(h, Abort(h, ok), active) && NoWrap(Abort(h, ok).snd)
  {
  }

  lemma {:induction false} TimerLoopQuiet(h: Tcb, s: Tcb, q: seq<Entry>, i: nat, active: bool, now: int, txs: seq<bool>)
    requires i <= |q| && Quiet(h, s, active) && NoWrap(s.snd)
    requires forall e :: e in q ==> EntryRole(h, active, e) && e.retxCount == 0
    ensures
      var (t, del) := TimerLoop(s, q, i, [], now, txs);
      && Quiet(h, t, active) && NoWrap(t.snd) && t.snd.una == s.snd.una
      && (t.state == s.state || t.state == Closed) && del == []
    decreases |q| - i
  {
    if i < |q| {
      assert q[i] in q;
      if UserExpired(s, q[i], now) {
      } else if RetxDue(s, q[i], now) {
        var s1 := Retransmit(s, q[i], Accepts(txs, i));
        assert Reports(h, Packet(s.local, s.foreign, q[i].sn, s.rcv.nxt, q[i].flag, s.snd.wnd, q[i].data));
        TimerLoopQuiet(h, s1, q, i + 1, active, now, txs);
      } else {
        TimerLoopQuiet(h, s, q, i + 1, active, now, txs);
      }
    }
  }

  lemma TimerQuiet(h: Tcb, active: bool, peer: Endpoint, now: int, txs: seq<bool>)
    requires Host(h, active, h.local, peer)
    ensures TimerPass(h, now, txs).Some?
    ensures
      var t := TimerPass(h, now, txs).value;
      Quiet(h, t, active) && NoWrap(t.snd) && t.snd.una == h.snd.una && (t.state == h.state || t.state == Closed)
  {
    QueueAckIdle(h.state, h, now);
    var s1 := QueueAck(h, now);
    assert s1 == h.(rtts := s1.rtts, log := s1.log);
    assert Quiet(h, s1, active);
    TimerLoopQuiet(h, s1, h.snd.retx, 0, active, now, txs);
    TimerPassIs(h, s1, now, txs);
  }

  /** A pass whose loop marks nothing. */
  lemma TimerPassIs(h: Tcb, s1: Tcb, now: int, txs: seq<bool>)
    requires s1 == QueueAck(h, now) && s1.snd == h.snd && TimerLoop(s1, h.snd.retx, 0, [], now, txs).1 == []
    ensures TimerPass(h, now, txs)
         == Some(if h.state == TimeWait && h.lastTx + MSL < now then Shut(h, EXPIRED)
                 else TimerLoop(s1, h.snd.retx, 0, [], now, txs).0)
  {
  }

  // ---------------------------------------------------------------- segments from the peer

  /** Everything known about a connection before a step of `h`. */
  ghost predicate Pair(h: Tcb, k: Tcb, active: bool) {
    && Host(h, active, h.local, k.local) && Host(k, !active, k.local, h.local)
    && Link(h, k) && Link(k, h)
    && h.local != k.local && h.local.addr != 0 && k.local.addr != 0
  }

  /** What every step of `h` keeps: the invariant, and RCV.NXT never goes back. */
  ghost predicate Kept(h: Tcb, t: Tcb, k: Tcb, active: bool) {
    Host(t, active, h.local, k.local) && Link(t, k) && Link(k, t) && h.rcv.nxt <= t.rcv.nxt
  }

  /** What the peer's segments can say. */
  lemma PeerSegment(h: Tcb, k: Tcb, active: bool, p: Packet)
    requires Pair(h, k, active) && p in k.snd.out && p.dst == h.local
    ensures Role(!active, p.flag) && p.src == k.local && Carried(k.snd, p) && Honest(h, k, p)
    ensures p.flag.ack ==>
      Opened(h.snd) && Synchronized(k) && h.snd.iss < p.ack <= k.rcv.nxt <= h.snd.nxt && p.ack in h.snd.cuts
    ensures p.flag.syn && Synchronized(h) ==> p.sn < h.rcv.nxt && SegLen(p) == 1
    ensures SegLen(p) > 0 ==> Opened(k.snd) && k.snd.iss <= p.sn && p.sn + SegLen(p) <= k.snd.nxt
  {
  }

  /** One more segment, and nothing else. */
  lemma TransmitKeeps(h: Tcb, t: Tcb, k: Tcb, active: bool, q: Packet)
    requires Pair(h, k, active) && t == h.(snd := h.snd.(out := h.snd.out + [q]))
    requires q.src == h.local && Role(active, q.flag) && Honest(k, h, q) && Sender(h.state, t.snd)
    ensures Kept(h, t, k, active)
  {
    LinkSender(h, t, k);
    forall r | r in t.snd.out
      ensures Honest(k, t, r)
    {
      assert r == q || r in h.snd.out;
      assert Honest(k, h, r);
    }
    assert forall e :: EntryRole(h, active, e) ==> EntryRole(t, active, e);
  }

  /** A closed endpoint may still acknowledge the peer's SYN, in a reset. */
  lemma ClosedSynHonest(h: Tcb, k: Tcb, active: bool, p: Packet, q: Packet)
    requires Pair(h, k, active) && p in k.snd.out && p.dst == h.local && h.state == Closed && p.flag == SYN
    requires q.dst == h.foreign && q.ack == Wrap32(p.sn + SegLen(p))
    ensures Honest(k, h, q)
  {
    PeerSegment(h, k, active, p);
    assert q.ack == k.snd.iss + 1;
  }

  lemma ClosedSynKeeps(h: Tcb, k: Tcb, active: bool, p: Packet)
    requires Pair(h, k, active) && p in k.snd.out && p.dst == h.local && h.state == Closed && p.flag == SYN
    ensures
      var t := ArriveClosed(h, p, true);
      Kept(h, t, k, active)
  {
    var ack := Wrap32(p.sn + SegLen(p));
    var q := Packet(h.local, h.foreign, 0, ack, RSTACK, 0, []);
    ClosedSynHonest(h, k, active, p, q);
    BareKeeps(Closed, h, 0, ack, RSTACK, 0, true);
    TransmitKeeps(h, ArriveClosed(h, p, true), k, active, q);
  }

  lemma ClosedNetKeeps(h: Tcb, k: Tcb, active: bool, p: Packet, ok: bool)
    requires Pair(h, k, active) && p in k.snd.out && p.dst == h.local && h.state == Closed
    ensures
      var t := ArriveClosed(h, p, ok);
      Kept(h, t, k, active)
  {
    PeerSegment(h, k, active, p);
    if ok && p.flag == SYN {
      ClosedSynKeeps(h, k, active, p);
    } else if p.flag.ack && !p.flag.rst {
      BareNetKeeps(h, k, active, p.ack, 0, RST, 0, ok);
    } else {
      assert ArriveClosed(h, p, ok) == h;
    }
  }

  /** A SYN that comes again is answered with an acknowledgement and changes nothing else. */
  lemma ReplayedSyn(h: Tcb, k: Tcb, active: bool, p: Packet, isn: U32, now: int, ok: bool)
    requires Pair(h, k, active) && p in k.snd.out && p.dst == h.local && p.flag.syn
    requires h.state != Closed && h.state != Listen && h.state != SynSent
    ensures Arrive(h, p, isn, now, ok) == Reply(h, ACK, now, ok)
    ensures Arrive(h, p, isn, now, ok).(snd := h.snd) == h
  {
    SynBelow(h, k, active, p);
    BelowIsUnacceptable(h.rcv.nxt, h.rcv.wnd, p.sn);
  }

  lemma SynBelow(h: Tcb, k: Tcb, active: bool, p: Packet)
    requires Pair(h, k, active) && p in k.snd.out && p.dst == h.local && p.flag.syn
    requires h.state != Closed && h.state != Listen && h.state != SynSent
    ensures p.sn < h.rcv.nxt && SegLen(p) == 1 && !p.flag.rst
  {
    PeerSegment(h, k, active, p);
  }

  lemma BelowIsUnacceptable(nxt: U32, wnd: U16, sn: U32)
    requires sn < nxt
    ensures !Acceptable(nxt, wnd, sn, 1)
  {
  }

  /** The parts of the invariant of one endpoint that are not about its sequence variables. */
  lemma HostAfter(h: Tcb, t: Tcb, active: bool, peer: Endpoint)
    requires Host(h, active, h.local, peer) && (Synchronized(h) ==> Synchronized(t))
    requires t.local == h.local && t.foreign == (if Opened(t.snd) then peer else NOWHERE)
    requires Sender(t.state, t.snd) && NoWrap(t.snd) && RoleStates(t, active)
    requires forall p :: p in t.snd.out ==> p in h.snd.out || (p.src == h.local && Role(active, p.flag))
    requires forall e :: e in t.snd.retx ==> e in h.snd.retx || EntryRole(t, active, e)
    ensures Host(t, active, h.local, peer)
  {
    assert forall e :: EntryRole(h, active, e) ==> EntryRole(t, active, e);
  }

  /** A step that takes the peer's SYN. */
  lemma SynchronizeKeeps(h: Tcb, t: Tcb, k: Tcb, active: bool)
    requires Pair(h, k, active) && !Synchronized(h) && Host(t, active, h.local, k.local) && Extends(h.snd, t.snd)
    requires Opened(k.snd) && t.rcv.irs == k.snd.iss && t.rcv.nxt == k.snd.iss + 1 && t.rcv.nxt in k.snd.cuts
    requires t.snd.una > t.snd.iss ==>
      Synchronized(k) && t.snd.una <= k.rcv.nxt && t.snd.una in t.snd.cuts
    requires !ConsumedFin(t.state) && (Opened(h.snd) || !Synchronized(k))
    requires forall q :: q in t.snd.out ==> q in h.snd.out || Reports(t, q)
    ensures Kept(h, t, k, active)
  {
    LinkSender(h, t, k);
    forall q | q in t.snd.out
      ensures Honest(k, t, q)
    {
      if q in h.snd.out {
        assert Honest(k, h, q);
      }
    }
  }

  lemma ListenSynHost(h: Tcb, k: Tcb, p: Packet, isn: U32, now: int, ok: bool)
    requires Pair(h, k, false) && p in k.snd.out && p.dst == h.local && h.state == Listen && NoWrap(Start(h.snd, isn))
    requires p.flag == SYN
    ensures
      var t := ArriveListen(h, p, isn, now, ok);
      && Host(t, false, h.local, k.local) && Extends(h.snd, t.snd) && t.state == SynReceived
      && t.snd.una == t.snd.iss && t.rcv.irs == p.sn == k.snd.iss && t.rcv.nxt == p.sn + 1
      && forall q :: q in t.snd.out ==> q in h.snd.out || Reports(t, q)
  {
    ListenHears(h, k, p);
    ListenKeeps(h, p, isn, now, ok);
  }

  lemma ListenNetKeeps(h: Tcb, k: Tcb, p: Packet, isn: U32, now: int, ok: bool)
    requires Pair(h, k, false) && p in k.snd.out && p.dst == h.local && h.state == Listen && NoWrap(Start(h.snd, isn))
    ensures
      var t := ArriveListen(h, p, isn, now, ok);
      Kept(h, t, k, false)
  {
    ListenHears(h, k, p);
    if p.flag == SYN {
      ListenSynHost(h, k, p, isn, now, ok);
      SynchronizeKeeps(h, ArriveListen(h, p, isn, now, ok), k, false);
    } else {
      assert ArriveListen(h, p, isn, now, ok) == h;
      UntouchedKeeps(h, h, k, false);
    }
  }

  /** Before the peer is synchronized it has only its SYN to say. */
  lemma ListenHears(h: Tcb, k: Tcb, p: Packet)
    requires Pair(h, k, false) && p in k.snd.out && p.dst == h.local && h.state == Listen
    ensures p.flag == SYN || p.flag.rst
    ensures p.flag == SYN ==>
      p.sn == k.snd.iss && p.data == [] && Opened(k.snd) && p.sn + 1 in k.snd.cuts && k.snd.nxt < 0x1_0000_0000
    ensures !Synchronized(k)
  {
    PeerSegment(h, k, false, p);
    assert Carried(k.snd, p);
  }

  /** What is left of the sending half when its SYN has been acknowledged. */
  function Answered(d: Snd, p: Packet): Snd {
    d.(una := p.ack, retx := [], wnd := p.wnd, wl1 := p.sn, wl2 := p.ack)
  }

  /** The SYN and acknowledgement that completes an active open. */
  lemma SynAckShape(h: Tcb, p: Packet, now: int, ok: bool)
    requires h.state == SynSent && p.flag == SYNACK && h.snd.iss < p.ack == h.snd.nxt && h.snd.una <= p.ack
    requires Keep(h.snd.retx, p.ack) == []
    ensures
      var t := ArriveSynSent(h, p, now, ok);
      && t.state == Established && t.local == h.local && t.foreign == h.foreign && t.rcv == Synchronize(h.rcv, p)
      && t.snd == Transmit(h.(snd := Answered(h.snd, p)), h.snd.nxt, t.rcv.nxt, ACK, t.rcv.wnd, [], ok).snd
  {
  }

  /** What `ArriveSynSent` does with it, in terms of the peer. */
  lemma SynAckFacts(h: Tcb, k: Tcb, p: Packet, now: int, ok: bool)
    requires Pair(h, k, true) && p in k.snd.out && p.dst == h.local && h.state == SynSent && p.flag == SYNACK
    ensures h.snd.iss < p.ack == h.snd.nxt && h.snd.una <= p.ack && Keep(h.snd.retx, p.ack) == []
    ensures p.sn == k.snd.iss && Opened(k.snd) && Synchronized(k) && p.ack <= k.rcv.nxt && p.ack in h.snd.cuts
    ensures !Synchronized(h) && Opened(h.snd) && k.snd.iss + 1 in k.snd.cuts && k.snd.iss + 1 < 0x1_0000_0000
  {
    PeerSegment(h, k, true, p);
    assert Carried(k.snd, p);
    AckQueue(h.state, h.snd, p.ack);
  }

  lemma SynAckHost(h: Tcb, k: Tcb, p: Packet, now: int, ok: bool)
    requires Pair(h, k, true) && p in k.snd.out && p.dst == h.local && h.state == SynSent && p.flag == SYNACK
    ensures
      var t := ArriveSynSent(h, p, now, ok);
      && Host(t, true, h.local, k.local) && Extends(h.snd, t.snd) && !ConsumedFin(t.state)
      && t.snd.una == p.ack && t.rcv.irs == p.sn && t.rcv.nxt == p.sn + 1
      && forall q :: q in t.snd.out ==> q in h.snd.out || Reports(t, q)
  {
    var t := ArriveSynSent(h, p, now, ok);
    SynAckFacts(h, k, p, now, ok);
    SynAckShape(h, p, now, ok);
    SynSentKeeps(h, p, now, ok);
    HostAfter(h, t, true, k.local);
  }

  lemma SynAckNetKeeps(h: Tcb, k: Tcb, p: Packet, now: int, ok: bool)
    requires Pair(h, k, true) && p in k.snd.out && p.dst == h.local && h.state == SynSent && p.flag == SYNACK
    ensures
      var t := ArriveSynSent(h, p, now, ok);
      Kept(h, t, k, true)
  {
    SynAckFacts(h, k, p, now, ok);
    SynAckHost(h, k, p, now, ok);
    SynAckTaken(h, ArriveSynSent(h, p, now, ok), k, p);
  }

  lemma SynAckTaken(h: Tcb, t: Tcb, k: Tcb, p: Packet)
    requires Pair(h, k, true) && !Synchronized(h) && Opened(h.snd)
    requires p.sn == k.snd.iss && Opened(k.snd) && Synchronized(k) && p.ack <= k.rcv.nxt && p.ack in h.snd.cuts
    requires k.snd.iss + 1 in k.snd.cuts && Host(t, true, h.local, k.local) && Extends(h.snd, t.snd)
    requires !ConsumedFin(t.state)
    requires t.snd.una == p.ack && t.rcv.irs == p.sn && t.rcv.nxt == p.sn + 1
    requires forall q :: q in t.snd.out ==> q in h.snd.out || Reports(t, q)
    ensures Kept(h, t, k, true)
  {
    SynchronizeKeeps(h, t, k, true);
  }

  lemma SynSentNetKeeps(h: Tcb, k: Tcb, p: Packet, now: int, ok: bool)
    requires Pair(h, k, true) && p in k.snd.out && p.dst == h.local && h.state == SynSent
    ensures
      var t := ArriveSynSent(h, p, now, ok);
      Kept(h, t, k, true)
  {
    PeerSegment(h, k, true, p);
    if p.flag == SYNACK {
      SynAckNetKeeps(h, k, p, now, ok);
    } else {
      SynSentKeeps(h, p, now, ok);
      QuietKeeps(h, ArriveSynSent(h, p, now, ok), k, true);
    }
  }

  // ---------------------------------------------------------------- segments in the synchronized states

  /** What the acknowledgement field changes. */
  lemma AdvanceShape(h: Tcb, p: Packet, now: int)
    requires TakesAcks(h.state)
    ensures
      var t := AckedState(Advance(h, p, now), p, now);
      && t.local == h.local && t.foreign == h.foreign && t.rcv == h.rcv && StateMove(h.state, t.state)
      && (t.state == h.state || h.state == FinWait1 || h.state == Closing)
      && t.snd == h.snd.(una := t.snd.una, retx := t.snd.retx, wnd := t.snd.wnd, wl1 := t.snd.wl1, wl2 := t.snd.wl2)
      && t.snd.una == (if h.snd.una < p.ack <= h.snd.nxt then p.ack else h.snd.una)
      && (t.snd.retx == h.snd.retx || t.snd.retx == Keep(h.snd.retx, p.ack))
  {
  }

  lemma AdvanceQuiet(h: Tcb, active: bool, p: Packet, now: int)
    requires Sender(h.state, h.snd) && NoWrap(h.snd)
    requires TakesAcks(h.state)
    ensures
      var t := AckedState(Advance(h, p, now), p, now);
      && Quiet(h, t, active) && NoWrap(t.snd) && t.rcv == h.rcv
      && (t.state == h.state || h.state == FinWait1 || h.state == Closing)
      && t.snd.una == if h.snd.una < p.ack <= h.snd.nxt then p.ack else h.snd.una
  {
    AdvanceShape(h, p, now);
    KeepStays(h.snd.retx, p.ack);
  }

  /** The same connection after the acknowledgement field. */
  lemma AdvanceNetKeeps(h: Tcb, k: Tcb, active: bool, p: Packet, now: int)
    requires Pair(h, k, active) && p in k.snd.out && p.dst == h.local && p.flag.ack
    requires TakesAcks(h.state) || h.state == SynReceived
    ensures
      var h1 := if h.state == SynReceived then h.(state := Established) else h;
      var t := AckedState(Advance(h1, p, now), p, now);
      && Kept(h, t, k, active) && TextReady(t, p)
      && t.rcv == h.rcv && Extends(h.snd, t.snd)
  {
    PeerSegment(h, k, active, p);
    var h1 := if h.state == SynReceived then h.(state := Established) else h;
    var t := AckedState(Advance(h1, p, now), p, now);
    AdvanceKeeps(h1, p, now);
    AdvanceQuiet(h1, active, p, now);
    QuietKeeps(h, t, k, active);
  }

  /** A step that moves RCV.NXT to the end of a segment of the peer. */
  lemma ReceivedKeeps(h: Tcb, t: Tcb, k: Tcb, active: bool)
    requires Pair(h, k, active) && Synchronized(h)
    requires t.local == h.local && t.foreign == h.foreign && t.rcv.irs == h.rcv.irs
    requires Sender(t.state, t.snd) && Extends(h.snd, t.snd) && t.snd.retx == h.snd.retx && t.snd.una == h.snd.una
    requires NoWrap(t.snd) && RoleStates(t, active)
    requires h.rcv.nxt <= t.rcv.nxt <= k.snd.nxt && t.rcv.nxt in k.snd.cuts
    requires forall q :: q in t.snd.out ==> q in h.snd.out || (q.flag == ACK && Reports(t, q) && q.src == h.local)
    requires ConsumedFin(t.state) ==> FinSent(k.snd) && t.rcv.nxt == k.snd.nxt
    requires FinSent(k.snd) && t.rcv.nxt == k.snd.nxt ==> ConsumedFin(t.state)
    ensures Kept(h, t, k, active)
  {
    LinkSender(h, t, k);
    forall q | q in t.snd.out
      ensures Honest(k, t, q)
    {
      if q in h.snd.out {
        assert Honest(k, h, q);
      }
    }
    assert forall e :: EntryRole(h, active, e) ==> EntryRole(t, active, e);
  }

  lemma AcceptedEndsAbove(nxt: U32, wnd: U16, sn: U32, len: nat)
    requires Acceptable(nxt, wnd, sn, len) && len > 0 && nxt + wnd < 0x1_0000_0000 && sn + len <= 0x1_0000_0000
    ensures nxt < sn + len
  {
  }

  /** What taking the text of `p` does to the parts that matter to the peer. */
  ghost predicate TookText(h: Tcb, t: Tcb, p: Packet) {
    && t.state == h.state && t.local == h.local && t.foreign == h.foreign
    && t.rcv.nxt == Wrap32(p.sn + SegLen(p)) && t.rcv.irs == h.rcv.irs
    && t.snd == h.snd.(out := t.snd.out)
    && forall q :: q in t.snd.out ==> q in h.snd.out || (q.flag == ACK && q.src == h.local && q.ack == t.rcv.nxt)
  }

  lemma TextShape(h: Tcb, p: Packet, now: int, ok: bool)
    requires TakesText(h.state) && |p.data| > 0
    ensures TookText(h, TextAndFin(h, p, now, ok), p)
  {
  }

  lemma TookTextKeeps(h: Tcb, t: Tcb, k: Tcb, active: bool, p: Packet)
    requires Pair(h, k, active) && p in k.snd.out && p.dst == h.local && TakesText(h.state) && |p.data| > 0
    requires Acceptable(h.rcv.nxt, h.rcv.wnd, p.sn, SegLen(p)) && TookText(h, t, p)
    requires Sender(t.state, t.snd) && Extends(h.snd, t.snd)
    ensures Kept(h, t, k, active)
  {
    TextFacts(h, k, active, p);
    ReceivedKeeps(h, t, k, active);
  }

  /** Where the text of an accepted segment ends in the peer's stream. */
  lemma TextFacts(h: Tcb, k: Tcb, active: bool, p: Packet)
    requires Pair(h, k, active) && p in k.snd.out && p.dst == h.local && |p.data| > 0
    requires Acceptable(h.rcv.nxt, h.rcv.wnd, p.sn, SegLen(p)) && Synchronized(h)
    ensures h.rcv.nxt < p.sn + SegLen(p) <= k.snd.nxt && p.sn + SegLen(p) in k.snd.cuts
    ensures !(FinSent(k.snd) && p.sn + SegLen(p) == k.snd.nxt) && k.snd.nxt < 0x1_0000_0000
  {
    PeerSegment(h, k, active, p);
    assert Carried(k.snd, p);
    AcceptedEndsAbove(h.rcv.nxt, h.rcv.wnd, p.sn, SegLen(p));
  }

  /** Text and FIN of a segment that passed the first check. */
  lemma TextNetKeeps(h: Tcb, k: Tcb, active: bool, p: Packet, now: int, ok: bool)
    requires Pair(h, k, active) && p in k.snd.out && p.dst == h.local && TextReady(h, p)
    requires TakesText(h.state) && |p.data| > 0
    requires Acceptable(h.rcv.nxt, h.rcv.wnd, p.sn, SegLen(p))
    ensures
      var t := TextAndFin(h, p, now, ok);
      Kept(h, t, k, active)
  {
    var t := TextAndFin(h, p, now, ok);
    TextShape(h, p, now, ok);
    TextAndFinKeeps(h, p, now, ok);
    TookTextKeeps(h, t, k, active, p);
  }

  /** What taking the FIN of `p` does to the parts that matter to the peer. */
  ghost predicate TookFin(h: Tcb, t: Tcb, p: Packet) {
    && (ConsumedFin(t.state) || t.state == h.state) && t.local == h.local && t.foreign == h.foreign
    && (t.state != h.state ==> h.state != CloseWait)
    && t.rcv.nxt == Wrap32(p.sn + 1) && t.rcv.irs == h.rcv.irs
    && t.snd == h.snd.(out := t.snd.out)
    && forall q :: q in t.snd.out ==> q in h.snd.out || (q.flag == ACK && q.src == h.local && q.ack == t.rcv.nxt)
  }

  lemma FinMoves(h: Tcb, p: Packet, now: int)
    ensures
      var t := AfterFin(h, p, now);
      && t.snd == h.snd && t.rcv == h.rcv && t.local == h.local && t.foreign == h.foreign
      && (ConsumedFin(t.state) || t.state == h.state)
      && (t.state != h.state ==> h.state != CloseWait && t.state != LastAck)
      && (TakesText(h.state) ==> ConsumedFin(t.state) && t.state != LastAck)
  {
  }

  lemma FinShape(h: Tcb, p: Packet, now: int, ok: bool)
    requires !(TakesText(h.state) && |p.data| > 0) && p.flag.fin
    ensures TookFin(h, TextAndFin(h, p, now, ok), p)
    ensures h.state == Established || h.state == FinWait1 || h.state == FinWait2 ==>
      ConsumedFin(TextAndFin(h, p, now, ok).state) && TextAndFin(h, p, now, ok).state != LastAck
  {
    var s := SignalReceive(h);
    var s1 := s.(rcv := s.rcv.(nxt := Wrap32(p.sn + 1)));
    assert s1.snd == h.snd && s1.state == h.state && s1.rcv.irs == h.rcv.irs;
    FinMoves(s1, p, now);
    assert TextAndFin(h, p, now, ok) == Reply(AfterFin(s1, p, now), ACK, now, ok);
  }

  /** The peer's FIN is the end of its stream, and this endpoint has not taken it yet. */
  lemma FinFacts(h: Tcb, k: Tcb, active: bool, p: Packet)
    requires Pair(h, k, active) && p in k.snd.out && p.dst == h.local && p.flag.fin && Synchronized(h)
    requires h.state != Closed && h.state != Listen && h.state != SynSent
    requires Acceptable(h.rcv.nxt, h.rcv.wnd, p.sn, SegLen(p))
    ensures h.rcv.nxt < p.sn + 1 == k.snd.nxt && FinSent(k.snd) && k.snd.nxt in k.snd.cuts && !ConsumedFin(h.state)
    ensures k.snd.nxt < 0x1_0000_0000 && p.data == []
  {
    PeerSegment(h, k, active, p);
    assert Carried(k.snd, p);
    AcceptedEndsAbove(h.rcv.nxt, h.rcv.wnd, p.sn, SegLen(p));
  }

  lemma TookFinKeeps(h: Tcb, t: Tcb, k: Tcb, active: bool, p: Packet)
    requires Pair(h, k, active) && p in k.snd.out && p.dst == h.local && p.flag.fin && Synchronized(h)
    requires h.state == Established || h.state == FinWait1 || h.state == FinWait2
    requires Acceptable(h.rcv.nxt, h.rcv.wnd, p.sn, SegLen(p)) && TookFin(h, t, p) && ConsumedFin(t.state)
    requires t.state != LastAck
    requires Sender(t.state, t.snd) && Extends(h.snd, t.snd)
    ensures Kept(h, t, k, active)
  {
    FinFacts(h, k, active, p);
    ReceivedKeeps(h, t, k, active);
  }

  lemma FinNetKeeps(h: Tcb, k: Tcb, active: bool, p: Packet, now: int, ok: bool)
    requires Pair(h, k, active) && p in k.snd.out && p.dst == h.local && TextReady(h, p) && p.flag.fin
    requires h.state != Closed && h.state != Listen && h.state != SynSent
    requires Acceptable(h.rcv.nxt, h.rcv.wnd, p.sn, SegLen(p))
    ensures
      var t := TextAndFin(h, p, now, ok);
      Kept(h, t, k, active)
  {
    FinFacts(h, k, active, p);
    FinShape(h, p, now, ok);
    TextAndFinKeeps(h, p, now, ok);
    TookFinKeeps(h, TextAndFin(h, p, now, ok), k, active, p);
  }

  lemma TextAndFinNetKeeps(h: Tcb, k: Tcb, active: bool, p: Packet, now: int, ok: bool)
    requires Pair(h, k, active) && p in k.snd.out && p.dst == h.local && TextReady(h, p)
    requires h.state != Closed && h.state != Listen && h.state != SynSent
    requires Acceptable(h.rcv.nxt, h.rcv.wnd, p.sn, SegLen(p))
    ensures
      var t := TextAndFin(h, p, now, ok);
      Kept(h, t, k, active)
  {
    if TakesText(h.state) && |p.data| > 0 {
      TextNetKeeps(h, k, active, p, now, ok);
    } else if p.flag.fin {
      FinNetKeeps(h, k, active, p, now, ok);
    }
  }

  lemma BareNetKeeps(h: Tcb, k: Tcb, active: bool, sn: U32, ack: U32, flag: Flags, wnd: U16, ok: bool)
    requires Pair(h, k, active)
    requires flag == RST || (flag == ACK && Synchronized(h) && ack == h.rcv.nxt)
    ensures
      var t := Transmit(h, sn, ack, flag, wnd, [], ok);
      Kept(h, t, k, active)
  {
    BareKeeps(h.state, h, sn, ack, flag, wnd, ok);
    QuietKeeps(h, Transmit(h, sn, ack, flag, wnd, [], ok), k, active);
  }

  lemma ShutNetKeeps(h: Tcb, k: Tcb, active: bool, msg: string)
    requires Pair(h, k, active)
    ensures Kept(h, Shut(h, msg), k, active)
  {
    FlushKeeps(h.state, h.snd);
    QuietKeeps(h, Shut(h, msg), k, active);
  }

  lemma KeptIsPair(h: Tcb, s: Tcb, k: Tcb, active: bool)
    requires Pair(h, k, active) && Kept(h, s, k, active)
    ensures Pair(s, k, active) && s.local == h.local
  {
  }

  /** An acknowledgement field that leads on to the text. */
  lemma AdvanceTextNetKeeps(h: Tcb, k: Tcb, active: bool, p: Packet, now: int, ok: bool)
    requires Pair(h, k, active) && p in k.snd.out && p.dst == h.local && p.flag.ack
    requires TakesAcks(h.state) || h.state == SynReceived
    requires Acceptable(h.rcv.nxt, h.rcv.wnd, p.sn, SegLen(p))
    ensures
      var h1 := if h.state == SynReceived then h.(state := Established) else h;
      Kept(h, TextAndFin(AckedState(Advance(h1, p, now), p, now), p, now, ok), k, active)
  {
    var h1 := if h.state == SynReceived then h.(state := Established) else h;
    var s := AckedState(Advance(h1, p, now), p, now);
    AdvanceNetKeeps(h, k, active, p, now);
    KeptIsPair(h, s, k, active);
    assert s.state != Closed && s.state != Listen && s.state != SynSent;
    TextAndFinNetKeeps(s, k, active, p, now, ok);
  }

  lemma AckFieldNetKeeps(h: Tcb, k: Tcb, active: bool, p: Packet, now: int, ok: bool)
    requires Pair(h, k, active) && p in k.snd.out && p.dst == h.local && p.flag.ack
    requires h.state != Closed && h.state != Listen && h.state != SynSent
    requires Acceptable(h.rcv.nxt, h.rcv.wnd, p.sn, SegLen(p))
    ensures
      var t := AckField(h, p, now, ok);
      Kept(h, t, k, active)
  {
    PeerSegment(h, k, active, p);
    if h.state == LastAck {
      ShutNetKeeps(h, k, active, ENDED);
      UntouchedKeeps(h, h, k, active);
    } else if h.state == TimeWait {
      UntouchedKeeps(h, AckField(h, p, now, ok), k, active);
    } else {
      AdvanceTextNetKeeps(h, k, active, p, now, ok);
    }
  }

  lemma SynchronizedNetKeeps(h: Tcb, k: Tcb, active: bool, p: Packet, now: int, ok: bool)
    requires Pair(h, k, active) && p in k.snd.out && p.dst == h.local
    requires h.state != Closed && h.state != Listen && h.state != SynSent
    ensures
      var t := ArriveSynchronized(h, p, now, ok);
      Kept(h, t, k, active)
  {
    if !Acceptable(h.rcv.nxt, h.rcv.wnd, p.sn, SegLen(p)) {
      BareNetKeeps(h, k, active, h.snd.nxt, h.rcv.nxt, ACK, h.rcv.wnd, ok);
    } else if p.flag.rst {
      ShutNetKeeps(h, k, active, REFUSED);
      ShutNetKeeps(h, k, active, RESET);
    } else if p.flag.syn {
      ReplayedSyn(h, k, active, p, 0, now, ok);
    } else if p.flag.ack {
      AckFieldNetKeeps(h, k, active, p, now, ok);
    }
  }

  lemma ArriveNetKeeps(h: Tcb, k: Tcb, active: bool, p: Packet, isn: U32, now: int, ok: bool)
    requires Pair(h, k, active) && p in k.snd.out && p.dst == h.local && NoWrap(Start(h.snd, isn))
    ensures
      var t := Arrive(h, p, isn, now, ok);
      Kept(h, t, k, active)
  {
    match h.state
    case Closed => ClosedNetKeeps(h, k, active, p, ok);
    case Listen => ListenNetKeeps(h, k, p, isn, now, ok);
    case SynSent => SynSentNetKeeps(h, k, p, now, ok);
    case _ => SynchronizedNetKeeps(h, k, active, p, now, ok);
  }

  // ---------------------------------------------------------------- the two endpoints

  datatype Net = Net(a: Tcb, b: Tcb)

  function At(n: Net, atA: bool): Tcb {
    if atA then n.a else n.b
  }

  /** One step of the endpoint at `A` or at `B`. */
  datatype Move = Move(atA: bool, e: Event, now: int)

  function NetStep(n: Net, m: Move): Option<Net> {
    match Step(At(n, m.atA), m.e, m.now)
    case None => None
    case Some(t) => Some(if m.atA then n.(a := t) else n.(b := t))
  }

  /**
   * `A` opens actively to `B`, `B` passively, for one connection; a segment comes from the other
   * side's transmissions; the streams never wrap.
   */
  predicate Legal(n: Net, m: Move) {
    var h, k := At(n, m.atA), At(n, !m.atA);
    match m.e
    case OpenCall(_, foreign, active, _, isn, _) =>
      && active == m.atA && (active ==> foreign == k.local)
      && (h.state == Closed ==> !Opened(h.snd)) && NoWrap(Start(h.snd, isn))
    case SendCall(_, data, _) => NoWrap(h.snd.(sent := h.snd.sent + data))
    case Segment(p, isn, _) => p in k.snd.out && p.dst == h.local && NoWrap(Start(h.snd, isn))
    case _ => true
  }

  ghost predicate Consistent(n: Net) {
    Pair(n.a, n.b, true)
  }

  lemma ActiveOpenHost(h: Tcb, k: Tcb, ch: Chan, timeout: int, isn: U32, txs: seq<bool>, now: int)
    requires Pair(h, k, true) && h.state == Closed && !Opened(h.snd) && NoWrap(Start(h.snd, isn))
    ensures
      var t := Open(h, ch, k.local, true, timeout, isn, txs, now);
      && Host(t, true, h.local, k.local) && Extends(h.snd, t.snd)
      && t.rcv == h.rcv && (t.state == SynSent || t.state == Closed) && t.snd.una == t.snd.iss
      && forall q :: q in t.snd.out ==> q in h.snd.out || Reports(t, q)
  {
    var t := Open(h, ch, k.local, true, timeout, isn, txs, now);
    OpenKeeps(h, ch, k.local, true, timeout, isn, txs, now);
    if true in txs {
      var e := Entry([], isn, SYN, now, now, 0, Some(ch), OpenTrigger);
      var q := Packet(h.local, k.local, isn, h.rcv.nxt, SYN, h.rcv.wnd, []);
      assert t.snd == Start(h.snd, isn).(out := h.snd.out + [q], retx := [e]);
    } else {
      assert t.snd == Start(h.snd, isn);
    }
  }

  lemma ActiveOpenKeeps(h: Tcb, k: Tcb, ch: Chan, timeout: int, isn: U32, txs: seq<bool>, now: int)
    requires Pair(h, k, true) && h.state == Closed && !Opened(h.snd) && NoWrap(Start(h.snd, isn))
    ensures
      var t := Open(h, ch, k.local, true, timeout, isn, txs, now);
      Kept(h, t, k, true)
  {
    var t := Open(h, ch, k.local, true, timeout, isn, txs, now);
    ActiveOpenHost(h, k, ch, timeout, isn, txs, now);
    LinkSender(h, t, k);
    forall q | q in t.snd.out
      ensures Honest(k, t, q)
    {
      if q in h.snd.out {
        assert Honest(k, h, q);
      }
    }
  }

  lemma OpenNetKeeps(h: Tcb, k: Tcb, active: bool, ch: Chan, timeout: int, isn: U32, txs: seq<bool>, now: int)
    requires Pair(h, k, active) && (h.state == Closed ==> !Opened(h.snd)) && NoWrap(Start(h.snd, isn))
    ensures
      var t := Open(h, ch, k.local, active, timeout, isn, txs, now);
      Kept(h, t, k, active)
  {
    var t := Open(h, ch, k.local, active, timeout, isn, txs, now);
    if h.state == Closed && active {
      ActiveOpenKeeps(h, k, ch, timeout, isn, txs, now);
    } else {
      assert t.snd == h.snd && t.rcv == h.rcv;
      OpenKeeps(h, ch, k.local, active, timeout, isn, txs, now);
      UntouchedKeeps(h, t, k, active);
    }
  }

  /** A change that leaves the sequence variables alone; an unopened endpoint may also start to listen. */
  lemma UntouchedKeeps(h: Tcb, t: Tcb, k: Tcb, active: bool)
    requires Pair(h, k, active) && t.snd == h.snd && t.local == h.local && t.foreign == h.foreign
    requires t.rcv.nxt == h.rcv.nxt && t.rcv.irs == h.rcv.irs
    requires t.state == h.state || (!active && !Opened(h.snd) && t.state == Listen && h.state == Closed)
    ensures Kept(h, t, k, active)
  {
    assert forall q :: Honest(k, h, q) <==> Honest(k, t, q);
    assert forall q :: Honest(h, k, q) <==> Honest(t, k, q);
    assert forall e :: EntryRole(h, active, e) <==> EntryRole(t, active, e);
  }

  lemma SendNetKeeps(h: Tcb, k: Tcb, active: bool, ch: Chan, data: seq<Byte>, txs: seq<bool>, now: int)
    requires Pair(h, k, active) && NoWrap(h.snd.(sent := h.snd.sent + data))
    ensures
      var t := Send(h, ch, data, txs, now);
      Kept(h, t, k, active)
  {
    SendKeeps(h, ch, data, txs, now);
    SendQuiet(h, active, k.local, ch, data, txs, now);
    QuietKeeps(h, Send(h, ch, data, txs, now), k, active);
  }

  lemma CloseNetKeeps(h: Tcb, k: Tcb, active: bool, ch: Chan, txs: seq<bool>, now: int)
    requires Pair(h, k, active)
    ensures
      var t := Close(h, ch, txs, now);
      Kept(h, t, k, active)
  {
    CloseKeeps(h, ch, txs, now);
    CloseQuiet(h, active, k.local, ch, txs, now);
    QuietKeeps(h, Close(h, ch, txs, now), k, active);
  }

  lemma AbortNetKeeps(h: Tcb, k: Tcb, active: bool, ok: bool)
    requires Pair(h, k, active)
    ensures
      var t := Abort(h, ok);
      Kept(h, t, k, active)
  {
    AbortKeeps(h, ok);
    AbortQuiet(h, active, ok);
    QuietKeeps(h, Abort(h, ok), k, active);
  }

  lemma ReceiveNetKeeps(h: Tcb, k: Tcb, active: bool, ch: Chan, cap: nat)
    requires Pair(h, k, active)
    ensures
      var t := Receive(h, ch, cap);
      Kept(h, t, k, active)
  {
    var t := Receive(h, ch, cap);
    assert t.snd == h.snd && t.state == h.state && t.rcv.nxt == h.rcv.nxt && t.rcv.irs == h.rcv.irs;
    UntouchedKeeps(h, t, k, active);
  }

  lemma TimerNetKeeps(h: Tcb, k: Tcb, active: bool, now: int, txs: seq<bool>)
    requires Pair(h, k, active)
    ensures TimerPass(h, now, txs).Some?
    ensures
      var t := TimerPass(h, now, txs).value;
      Kept(h, t, k, active)
  {
    TimerKeeps(h, now, txs);
    TimerQuiet(h, active, k.local, now, txs);
    QuietKeeps(h, TimerPass(h, now, txs).value, k, active);
  }

  lemma HostStepKeeps(h: Tcb, k: Tcb, active: bool, e: Event, now: int)
    requires Pair(h, k, active) && Legal(if active then Net(h, k) else Net(k, h), Move(active, e, now))
    ensures Step(h, e, now).Some?
    ensures
      var t := Step(h, e, now).value;
      Kept(h, t, k, active)
  {
    match e
    case OpenCall(ch, foreign, act, timeout, isn, txs) =>
      OpenNetKeeps(h, k, active, ch, timeout, isn, txs, now);
      assert Step(h, e, now).value == Open(h, ch, k.local, act, timeout, isn, txs, now);
    case SendCall(ch, data, txs) => SendNetKeeps(h, k, active, ch, data, txs, now);
    case ReceiveCall(ch, cap) => ReceiveNetKeeps(h, k, active, ch, cap);
    case CloseCall(ch, txs) => CloseNetKeeps(h, k, active, ch, txs, now);
    case AbortCall(ok) => AbortNetKeeps(h, k, active, ok);
    case Segment(p, isn, ok) => ArriveNetKeeps(h, k, active, p, isn, now, ok);
    case TimerTick(txs) => TimerNetKeeps(h, k, active, now, txs);
  }

  lemma NetStepKeeps(n: Net, m: Move)
    requires Consistent(n) && Legal(n, m)
    ensures NetStep(n, m).Some? && Consistent(NetStep(n, m).value)
  {
    HostStepKeeps(At(n, m.atA), At(n, !m.atA), m.atA, m.e, m.now);
  }

  // ---------------------------------------------------------------- runs

  function NetRun(n: Net, ms: seq<Move>): Option<Net>
    decreases |ms|
  {
    if ms == [] then Some(n)
    else
      match NetRun(n, ms[..|ms| - 1])
      case None => None
      case Some(n') => NetStep(n', ms[|ms| - 1])
  }

  predicate LegalRun(n: Net, ms: seq<Move>)
    decreases |ms|
  {
    ms != [] ==>
      && LegalRun(n, ms[..|ms| - 1])
      && (NetRun(n, ms[..|ms| - 1]).Some? ==> Legal(NetRun(n, ms[..|ms| - 1]).value, ms[|ms| - 1]))
  }

  /** Two fresh control blocks; the initial receive window is a parameter. */
  function Start2(la: Endpoint, lb: Endpoint, window: U16): Net {
    Net(Fresh(la, window), Fresh(lb, window))
  }

  predicate Distinct(la: Endpoint, lb: Endpoint) {
    la != lb && la.addr != 0 && lb.addr != 0
  }

  lemma {:induction false} RunConsistent(la: Endpoint, lb: Endpoint, window: U16, ms: seq<Move>)
    requires Distinct(la, lb) && LegalRun(Start2(la, lb, window), ms)
    ensures NetRun(Start2(la, lb, window), ms).Some? && Consistent(NetRun(Start2(la, lb, window), ms).value)
    decreases |ms|
  {
    if ms != [] {
      RunConsistent(la, lb, window, ms[..|ms| - 1]);
      NetStepKeeps(NetRun(Start2(la, lb, window), ms[..|ms| - 1]).value, ms[|ms| - 1]);
    }
  }

  /** ESTABLISHED on either side: both sides agree on both initial sequence numbers. */
  lemma HandshakeAgreement(la: Endpoint, lb: Endpoint, window: U16, ms: seq<Move>)
    requires Distinct(la, lb) && LegalRun(Start2(la, lb, window), ms)
    ensures NetRun(Start2(la, lb, window), ms).Some?
    ensures
      var n := NetRun(Start2(la, lb, window), ms).value;
      n.a.state == Established || n.b.state == Established ==>
        n.a.rcv.irs == n.b.snd.iss && n.b.rcv.irs == n.a.snd.iss
  {
    RunConsistent(la, lb, window, ms);
  }

  /**
   * Once `y` is synchronized, what `x` believes acknowledged, what `y` expects next and what `x` will send next are
   * in this order, and no acknowledgement on the wire is beyond what `y` expects.
   */
  lemma AcknowledgementSandwich(la: Endpoint, lb: Endpoint, window: U16, ms: seq<Move>, xIsA: bool)
    requires Distinct(la, lb) && LegalRun(Start2(la, lb, window), ms)
    ensures NetRun(Start2(la, lb, window), ms).Some?
    ensures
      var n := NetRun(Start2(la, lb, window), ms).value;
      var x, y := At(n, xIsA), At(n, !xIsA);
      && (Synchronized(y) ==> x.snd.iss <= x.snd.una <= y.rcv.nxt <= x.snd.nxt)
      && (!Synchronized(y) ==> x.snd.una == x.snd.iss)
      && forall p :: p in y.snd.out && p.dst == x.local && p.flag.ack ==> x.snd.iss < p.ack <= y.rcv.nxt
  {
    RunConsistent(la, lb, window, ms);
    var n := NetRun(Start2(la, lb, window), ms).value;
    var x, y := At(n, xIsA), At(n, !xIsA);
    forall p | p in y.snd.out && p.dst == x.local && p.flag.ack
      ensures x.snd.iss < p.ack <= y.rcv.nxt
    {
      assert Honest(x, y, p);
    }
  }

  /** RCV.NXT never decreases. */
  lemma ReceiveNextMonotone(n: Net, m: Move)
    requires Consistent(n) && Legal(n, m)
    ensures NetStep(n, m).Some?
    ensures n.a.rcv.nxt <= NetStep(n, m).value.a.rcv.nxt && n.b.rcv.nxt <= NetStep(n, m).value.b.rcv.nxt
  {
    HostStepKeeps(At(n, m.atA), At(n, !m.atA), m.atA, m.e, m.now);
  }

  /**
   * FIN-WAIT-2 or TIME-WAIT on one side: the other has taken the FIN, expects nothing more, and is in a state that
   * says so. Conversely such a state is reached by the peer's FIN only.
   */
  lemma FinAgreement(la: Endpoint, lb: Endpoint, window: U16, ms: seq<Move>, xIsA: bool)
    requires Distinct(la, lb) && LegalRun(Start2(la, lb, window), ms)
    ensures NetRun(Start2(la, lb, window), ms).Some?
    ensures
      var n := NetRun(Start2(la, lb, window), ms).value;
      var x, y := At(n, xIsA), At(n, !xIsA);
      && (x.state == FinWait2 || x.state == TimeWait ==>
            FinSent(x.snd) && y.rcv.nxt == x.snd.nxt == x.snd.una && (ConsumedFin(y.state) || y.state == Closed))
      && (ConsumedFin(y.state) ==> FinSent(x.snd) && y.rcv.nxt == x.snd.nxt)
  {
    RunConsistent(la, lb, window, ms);
  }
}
