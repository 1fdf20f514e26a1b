/**
 * Integrity of the byte stream, in both directions: the exact condition under which a step keeps it,
 * and what follows in the runs all of whose steps meet it. Besides, what buffer and window add up to.
 */
module TcpStream {
  import opened Words
  import opened TcpTypes
  import opened TcpSpec
  import opened TcpSender
  import opened TcpRun
  import opened TcpNet
  import opened TcpCover

  /**
   * With `rxLen` bytes buffered and room for `cap` the shift keeps the right bytes: a full drain,
   * half of the buffer, or nothing out of a completely full one.
   */
  predicate CleanDrain(rxLen: nat, cap: nat) {
    rxLen <= cap || rxLen == 2 * cap || (cap == 0 && rxLen == BUFFER_SIZE)
  }

  /** Received bytes that are still in the buffer. */
  function Buffered(r: Rcv): seq<Byte> {
    r.rx[..r.rxLen]
  }

  /** How much of the stream of `x` lies below RCV.NXT of `y`. */
  function Progress(x: Snd, r: Rcv): int {
    if r.nxt == 0 then 0 else Min(r.nxt - r.irs - 1, |x.sent|)
  }

  /** Nothing lost, duplicated, reordered or invented; the buffer never overflows. */
  predicate Matches(x: Snd, r: Rcv) {
    && 0 <= Progress(x, r) <= |x.sent|
    && r.got + Buffered(r) == x.sent[..Progress(x, r)]
    && r.rxLen + r.wnd <= BUFFER_SIZE
    && (r.nxt == 0 ==> r.rxLen == 0)
  }

  /** Nobody waits for bytes that are there. */
  predicate WaitsForMore(r: Rcv) {
    r.cmd.Some? ==> r.rxLen == 0
  }

  predicate Intact(x: Snd, r: Rcv) {
    Matches(x, r) && WaitsForMore(r)
  }

  /** The whole buffer is either filled or offered as window. */
  predicate Full(r: Rcv) {
    r.rxLen + r.wnd == BUFFER_SIZE
  }

  // ---------------------------------------------------------------- the receive buffer

  lemma ShiftRight(r: Rcv)
    requires r.cmd.Some? && r.cmd.value.cap < r.rxLen && CleanDrain(r.rxLen, r.cmd.value.cap)
    ensures Buffered(Drain(r)) == r.rx[r.cmd.value.cap..r.rxLen]
  {
    var cap := r.cmd.value.cap;
    if cap > 0 {
      assert Drain(r).rx[..cap] == r.rx[cap..r.rxLen];
    } else {
      assert Drain(r).rx == r.rx;
    }
  }

  lemma DrainBytes(r: Rcv)
    requires r.cmd.Some? && CleanDrain(r.rxLen, r.cmd.value.cap)
    ensures Drain(r).got + Buffered(Drain(r)) == r.got + Buffered(r)
  {
    if r.rxLen > 0 {
      var d := Min(r.cmd.value.cap, r.rxLen);
      assert Buffered(r) == r.rx[..d] + r.rx[d..r.rxLen];
      if d < r.rxLen {
        ShiftRight(r);
      }
    }
  }

  /** The buffer with byte 1 at `i` and 0 elsewhere. */
  function Marked(i: nat): (b: RxBuffer)
    requires i < BUFFER_SIZE
    ensures b[i] == 1 && forall j :: 0 <= j < BUFFER_SIZE && j != i ==> b[j] == 0
  {
    seq(BUFFER_SIZE, j => if j == i then 1 else 0)
  }

  /** Otherwise the first remaining byte is taken from the wrong place. */
  lemma ShiftWrong(r: Rcv, cap: nat)
    requires r.cmd.Some? && r.cmd.value.cap == cap && !CleanDrain(r.rxLen, cap)
    ensures
      var s := r.(rx := Marked(cap));
      Drain(s).got + Buffered(Drain(s)) != s.got + Buffered(s)
  {
    var s := r.(rx := Marked(cap));
    var t := Drain(s);
    var i := |s.got| + cap;
    assert Buffered(s)[cap] == 1;
    assert t.rx[0] == s.rx[r.rxLen - cap];
    assert Buffered(t)[0] == 0;
    assert (t.got + Buffered(t))[i] == Buffered(t)[0] && (s.got + Buffered(s))[i] == Buffered(s)[cap];
  }

  /** For given lengths, every content survives a partial or full drain exactly if the drain is clean. */
  lemma ShiftCorrectIffClean(r: Rcv)
    requires r.cmd.Some? && 0 < r.rxLen
    ensures
      CleanDrain(r.rxLen, r.cmd.value.cap) <==>
      forall b: RxBuffer ::
        var s := r.(rx := b);
        Drain(s).got + Buffered(Drain(s)) == s.got + Buffered(s)
  {
    var cap := r.cmd.value.cap;
    if CleanDrain(r.rxLen, cap) {
      forall b: RxBuffer
        ensures
          var s := r.(rx := b);
          Drain(s).got + Buffered(Drain(s)) == s.got + Buffered(s)
      {
        DrainBytes(r.(rx := b));
      }
    } else {
      ShiftWrong(r, cap);
    }
  }

  lemma StoreAppends(r: Rcv, data: seq<Byte>)
    requires r.rxLen + |data| <= BUFFER_SIZE
    ensures Buffered(Store(r, data)) == Buffered(r) + data && Store(r, data).rxLen == r.rxLen + |data|
  {
  }

  /** The byte that the shift brings to place `i` when `rest` bytes are left is the one that belongs there. */
  predicate ComesRight(rx: RxBuffer, d: nat, rest: nat, i: nat)
    requires d + rest <= BUFFER_SIZE && i < rest
  {
    rx[d + i] == rx[if i < BUFFER_SIZE - rest then rest + i else i]
  }

  predicate AllComeRight(rx: RxBuffer, d: nat, rest: nat)
    requires d + rest <= BUFFER_SIZE
  {
    forall i | 0 <= i < rest :: ComesRight(rx, d, rest, i)
  }

  /** For these contents the shift leaves the bytes behind those that are handed over. */
  predicate ShiftHarmless(r: Rcv) {
    r.cmd.Some? ==>
      var d := Min(r.cmd.value.cap, r.rxLen);
      AllComeRight(r.rx, d, r.rxLen - d)
  }

  lemma Shifted(rx: RxBuffer, d: nat, rest: nat)
    requires d + rest <= BUFFER_SIZE
    ensures
      CopyAt(rx, 0, rx[rest..])[..rest] == rx[d..d + rest] <==> AllComeRight(rx, d, rest)
  {
    var left, stays := CopyAt(rx, 0, rx[rest..])[..rest], rx[d..d + rest];
    forall i | 0 <= i < rest
      ensures stays[i] == left[i] <==> ComesRight(rx, d, rest, i)
    {
    }
    if AllComeRight(rx, d, rest) {
      assert left == stays;
    } else {
      var i :| 0 <= i < rest && !ComesRight(rx, d, rest, i);
      assert stays[i] != left[i];
    }
  }

  lemma DrainLength(r: Rcv)
    ensures |Drain(r).got| + Drain(r).rxLen == |r.got| + r.rxLen
  {
  }

  lemma DrainedTo(r: Rcv, d: nat, rest: nat)
    requires r.cmd.Some? && d == r.cmd.value.cap < r.rxLen && rest == r.rxLen - d
    ensures Drain(r).got == r.got + r.rx[..d]
    ensures Buffered(Drain(r)) == CopyAt(r.rx, 0, r.rx[rest..])[..rest]
  {
  }

  lemma BufferedSplit(r: Rcv, d: nat, rest: nat)
    requires d + rest == r.rxLen
    ensures Buffered(r) == r.rx[..d] + r.rx[d..d + rest]
  {
  }

  lemma ShiftedTo(r: Rcv, d: nat, rest: nat)
    requires r.cmd.Some? && d == r.cmd.value.cap < r.rxLen && rest == r.rxLen - d
    ensures Drain(r).got == r.got + r.rx[..d] && Buffered(r) == r.rx[..d] + r.rx[d..d + rest]
    ensures Buffered(Drain(r)) == r.rx[d..d + rest] <==> AllComeRight(r.rx, d, rest)
  {
    DrainedTo(r, d, rest);
    BufferedSplit(r, d, rest);
    Shifted(r.rx, d, rest);
  }

  lemma Reassembled<T>(got: seq<T>, all: seq<T>, gone: seq<T>, stays: seq<T>, left: seq<T>)
    requires all == gone + stays
    ensures got + gone + left == got + all <==> left == stays
  {
    assert got + all == got + gone + stays;
    SameTail(got + gone, stays, left);
  }

  lemma PartialDrain(r: Rcv, d: nat, rest: nat)
    requires r.cmd.Some? && d == r.cmd.value.cap < r.rxLen && rest == r.rxLen - d
    ensures Drain(r).got + Buffered(Drain(r)) == r.got + Buffered(r) <==> AllComeRight(r.rx, d, rest)
  {
    ShiftedTo(r, d, rest);
    Reassembled(r.got, Buffered(r), r.rx[..d], r.rx[d..d + rest], Buffered(Drain(r)));
  }

  /** A drain keeps all bytes, in order, exactly if the shift does no harm to these contents. */
  lemma DrainIffHarmless(r: Rcv)
    ensures Drain(r).got + Buffered(Drain(r)) == r.got + Buffered(r) <==> ShiftHarmless(r)
  {
    if r.cmd.Some? && r.rxLen > 0 {
      if r.cmd.value.cap < r.rxLen {
        PartialDrain(r, r.cmd.value.cap, r.rxLen - r.cmd.value.cap);
      } else {
        assert Drain(r).got + Buffered(Drain(r)) == r.got + Buffered(r);
      }
    }
  }

  lemma SameTail<T>(a: seq<T>, b: seq<T>, c: seq<T>)
    ensures a + c == a + b <==> b == c
  {
    assert (a + b)[|a|..] == b && (a + c)[|a|..] == c;
  }

  // ---------------------------------------------------------------- what a step does to the receiving half

  predicate Untouched(r: Rcv, r': Rcv) {
    r' == r || r' == r.(cmd := None)
  }

  /** The segment passes all checks that come before the one of its text. */
  predicate ReachesText(h: Tcb, p: Packet) {
    && h.state != Closed && h.state != Listen && h.state != SynSent && h.state != LastAck && h.state != TimeWait
    && Acceptable(h.rcv.nxt, h.rcv.wnd, p.sn, SegLen(p)) && !p.flag.rst && !p.flag.syn && p.flag.ack
    && (h.state == SynReceived ==> h.snd.una <= p.ack)
    && (h.snd.una <= p.ack ==> p.ack <= h.snd.nxt)
  }

  predicate TextTaken(h: Tcb, p: Packet) {
    ReachesText(h, p) && |p.data| > 0 && (TakesText(h.state) || h.state == SynReceived)
  }

  predicate FinTaken(h: Tcb, p: Packet) {
    ReachesText(h, p) && p.flag.fin && !TextTaken(h, p)
  }

  lemma TextAndFinReceives(s: Tcb, p: Packet, now: int, ok: bool)
    ensures
      TextAndFin(s, p, now, ok).rcv ==
      if TakesText(s.state) && |p.data| > 0 then Drain(Accept(s.rcv, p))
      else if p.flag.fin then Drain(s.rcv).(nxt := Wrap32(p.sn + 1))
      else s.rcv
  {
  }

  lemma AckFieldReceives(h: Tcb, p: Packet, now: int, ok: bool)
    requires h.state != Closed && h.state != Listen && h.state != SynSent && h.state != LastAck && h.state != TimeWait
    requires (h.state == SynReceived ==> h.snd.una <= p.ack) && (h.snd.una <= p.ack ==> p.ack <= h.snd.nxt)
    ensures
      AckField(h, p, now, ok).rcv ==
      if (TakesText(h.state) || h.state == SynReceived) && |p.data| > 0 then Drain(Accept(h.rcv, p))
      else if p.flag.fin then Drain(h.rcv).(nxt := Wrap32(p.sn + 1))
      else h.rcv
  {
    var s := if h.state == SynReceived then h.(state := Established) else h;
    var s1 := AckedState(Advance(s, p, now), p, now);
    assert s1.rcv == h.rcv && (TakesText(s1.state) <==> TakesText(s.state));
    TextAndFinReceives(s1, p, now, ok);
  }

  /** What a segment does to the receiving half of a synchronized connection. */
  predicate AfterSegment(h: Tcb, p: Packet, r: Rcv) {
    if TextTaken(h, p) then r == Drain(Accept(h.rcv, p))
    else if FinTaken(h, p) then r == Drain(h.rcv).(nxt := Wrap32(p.sn + 1))
    else Untouched(h.rcv, r)
  }

  lemma ArrivalReceives(h: Tcb, p: Packet, now: int, ok: bool)
    requires h.state != Closed && h.state != Listen && h.state != SynSent
    ensures AfterSegment(h, p, ArriveSynchronized(h, p, now, ok).rcv)
  {
    if ReachesText(h, p) {
      AckFieldReceives(h, p, now, ok);
    } else if Acceptable(h.rcv.nxt, h.rcv.wnd, p.sn, SegLen(p)) && !p.flag.rst && !p.flag.syn && p.flag.ack {
      assert Untouched(h.rcv, AckField(h, p, now, ok).rcv);
    }
  }

  /** A RECEIVE that is not refused. */
  predicate StartsReceive(h: Tcb) {
    (TakesText(h.state) || h.state == CloseWait) && h.rcv.cmd.None?
  }

  lemma ReceiveReceives(h: Tcb, ch: Chan, cap: nat)
    ensures
      var r := Receive(h, ch, cap).rcv;
      if StartsReceive(h) then Untouched(Drain(h.rcv.(cmd := Some(RcvCmd(cap, ch)))), r) else r == h.rcv
  {
  }

  lemma {:induction false} TimerLoopUntouched(
      h: Tcb, s: Tcb, q: seq<Entry>, i: nat, now: int, txs: seq<bool>, del: seq<nat>)
    requires i <= |q| && Indices(del, i) && Untouched(h.rcv, s.rcv)
    ensures Untouched(h.rcv, TimerLoop(s, q, i, del, now, txs).0.rcv)
    decreases |q| - i
  {
    if i < |q| && !UserExpired(s, q[i], now) {
      if !RetxDue(s, q[i], now) {
        TimerLoopUntouched(h, s, q, i + 1, now, txs, del);
      } else if q[i].retxCount + 1 >= MAX_RETX {
        TimerLoopUntouched(h, s.(log := s.log + ChanNote(q[i].ch, Fail(OVERLIMIT))), q, i + 1, now, txs, del + [i]);
      } else {
        TimerLoopUntouched(h, Retransmit(s, q[i], Accepts(txs, i)), q, i + 1, now, txs, del);
      }
    }
  }

  lemma OtherStepsUntouched(h: Tcb, e: Event, now: int)
    requires !e.Segment? && !e.ReceiveCall? && Step(h, e, now).Some?
    ensures Untouched(h.rcv, Step(h, e, now).value.rcv)
  {
    match e
    case TimerTick(txs) =>
      var s1 := QueueAck(h, now);
      TimerLoopUntouched(h, s1, s1.snd.retx, 0, now, txs, []);
    case _ =>
  }

  // ---------------------------------------------------------------- exactly when a step keeps the stream intact

  /**
   * The text begins at RCV.NXT, goes into the buffer, what stays there fits the window, and if a
   * RECEIVE is waiting the shift does no harm.
   */
  predicate TextFits(r: Rcv, p: Packet) {
    var d := if r.cmd.Some? then Min(r.cmd.value.cap, |p.data|) else 0;
    && p.sn == r.nxt && r.rxLen + |p.data| <= BUFFER_SIZE && |p.data| - d <= r.wnd
    && ShiftHarmless(Accept(r, p))
  }

  lemma AcceptBytes(x: Snd, r: Rcv, p: Packet)
    requires Matches(x, r) && Carried(x, p) && p.data != [] && r.rxLen + |p.data| <= BUFFER_SIZE
    requires 0 < r.nxt == p.sn && r.irs == x.iss && x.nxt < 0x1_0000_0000
    ensures
      var r1 := Accept(r, p);
      r1.got + Buffered(r1) == x.sent[..Progress(x, r1)] && r1.rxLen == r.rxLen + |p.data|
  {
    var n := Progress(x, r);
    StoreAppends(r, p.data);
    AcceptedNext(x, r, p);
    CarriedText(x, p, n);
    assert r.got + (Buffered(r) + p.data) == r.got + Buffered(r) + p.data;
  }

  lemma CarriedText(x: Snd, p: Packet, n: nat)
    requires Carried(x, p) && p.data != [] && n == p.sn - x.iss - 1
    ensures n + |p.data| <= |x.sent| && x.sent[..n] + p.data == x.sent[..n + |p.data|]
  {
    assert x.sent[..n] + x.sent[n..][..|p.data|] == x.sent[..n + |p.data|];
  }

  lemma StoredLength(r: Rcv, data: seq<Byte>)
    ensures Store(r, data).rxLen <= r.rxLen + |data|
    ensures r.rxLen + |data| > BUFFER_SIZE ==> Store(r, data).rxLen < r.rxLen + |data|
  {
  }

  lemma AcceptedNext(x: Snd, r: Rcv, p: Packet)
    requires Carried(x, p) && p.data != [] && x.nxt < 0x1_0000_0000
    requires r.irs == x.iss
    ensures Accept(r, p).nxt == p.sn + |p.data| > 0
    ensures 0 <= Progress(x, Accept(r, p)) == p.sn + |p.data| - r.irs - 1 <= |x.sent|
  {
  }

  lemma ProgressAfter(x: Snd, r: Rcv, p: Packet)
    requires Carried(x, p) && p.data != [] && r.irs == x.iss && x.nxt < 0x1_0000_0000
    ensures Progress(x, Drain(Accept(r, p))) == Progress(x, Accept(r, p)) == p.sn + |p.data| - r.irs - 1
  {
    AcceptedNext(x, r, p);
    SameProgress(x, Accept(r, p));
  }

  lemma SameProgress(x: Snd, r: Rcv)
    ensures Progress(x, Drain(r)) == Progress(x, r)
  {
  }

  /** Bytes that are right before they are handed over stay right exactly if the shift and the window are. */
  lemma DrainedIntact(x: Snd, r: Rcv)
    requires 0 <= Progress(x, r) <= |x.sent| && 0 < r.nxt && r.got + Buffered(r) == x.sent[..Progress(x, r)]
    ensures Intact(x, Drain(r)) <==> ShiftHarmless(r) && Drain(r).rxLen + Drain(r).wnd <= BUFFER_SIZE
  {
    DrainIffHarmless(r);
    DrainWaits(r);
    assert Progress(x, Drain(r)) == Progress(x, r) && Drain(r).nxt == r.nxt;
  }

  lemma DrainWaits(r: Rcv)
    ensures WaitsForMore(Drain(r))
  {
  }

  /** Text that is ahead, or does not go into the buffer, leaves fewer bytes than it counts. */
  lemma TextLost(x: Snd, r: Rcv, p: Packet)
    requires Matches(x, r) && Carried(x, p) && p.data != [] && !(p.sn == r.nxt && r.rxLen + |p.data| <= BUFFER_SIZE)
    requires 0 < r.nxt <= p.sn && r.irs == x.iss && x.nxt < 0x1_0000_0000
    ensures !Matches(x, Drain(Accept(r, p)))
  {
    var r1 := Accept(r, p);
    var t := Drain(r1);
    DrainLength(r1);
    StoredLength(r, p.data);
    ProgressAfter(x, r, p);
    assert |r.got + Buffered(r)| == Progress(x, r) == r.nxt - r.irs - 1;
    assert |t.got + Buffered(t)| == |r.got| + r1.rxLen;
  }

  /** What is offered as window when the text has been stored and handed over. */
  lemma DrainedWindow(r: Rcv, p: Packet)
    requires r.rxLen + r.wnd <= BUFFER_SIZE && r.rxLen + |p.data| <= BUFFER_SIZE && p.data != []
    requires r.cmd.Some? ==> r.rxLen == 0
    ensures
      var t := Drain(Accept(r, p));
      var d := if r.cmd.Some? then Min(r.cmd.value.cap, |p.data|) else 0;
      t.rxLen + t.wnd <= BUFFER_SIZE <==> |p.data| - d <= r.wnd
  {
    var n, r1 := |p.data|, Accept(r, p);
    assert r1.rxLen == r.rxLen + n && r1.wnd == Wrap16(r.wnd - n) && r1.cmd == r.cmd;
    if r.cmd.None? {
      WrapTwice(r.wnd, n, 0);
    } else if r.cmd.value.cap < n {
      WrapTwice(r.wnd, n, r.cmd.value.cap);
      assert Drain(r1).rxLen == n - r.cmd.value.cap;
    } else {
      assert Drain(r1).rxLen == 0 && Drain(r1).wnd == BUFFER_SIZE;
    }
  }

  lemma WrapTwice(w: U16, n: nat, d: nat)
    requires d <= n <= BUFFER_SIZE
    ensures Wrap16(Wrap16(w - n) + d) == if n - d <= w then w - (n - d) else w - (n - d) + 0x1_0000
    ensures Wrap16(w - n) == if n <= w then w - n else w - n + 0x1_0000
  {
  }

  /** Text at or ahead of RCV.NXT keeps the stream intact exactly if it fits. */
  lemma TextIntactIff(x: Snd, r: Rcv, p: Packet)
    requires Intact(x, r) && Carried(x, p) && p.data != []
    requires 0 < r.nxt <= p.sn && r.irs == x.iss && x.nxt < 0x1_0000_0000
    ensures Intact(x, Drain(Accept(r, p))) <==> TextFits(r, p)
  {
    if p.sn == r.nxt && r.rxLen + |p.data| <= BUFFER_SIZE {
      AcceptBytes(x, r, p);
      DrainedWindow(r, p);
      AcceptedNext(x, r, p);
      DrainedIntact(x, Accept(r, p));
    } else {
      TextLost(x, r, p);
    }
  }

  /** Segments are neither trimmed nor held, nor is their end looked at: while nobody waits, only these two matter. */
  lemma OvertakingBreaksStream(x: Snd, r: Rcv, p: Packet)
    requires Matches(x, r) && Carried(x, p) && p.data != []
    requires 0 < r.nxt <= p.sn && r.irs == x.iss && x.nxt < 0x1_0000_0000
    ensures Matches(x, Accept(r, p)) <==> p.sn == r.nxt && |p.data| <= r.wnd
  {
    NobodyWaits(x, r);
    NobodyWaits(x, Accept(r, p));
    TextIntactIff(x, r.(cmd := None), p);
    AcceptUnasked(r, p);
    UnaskedFits(r.(cmd := None), p);
  }

  lemma AcceptUnasked(r: Rcv, p: Packet)
    ensures Accept(r, p).(cmd := None) == Drain(Accept(r.(cmd := None), p))
  {
  }

  lemma UnaskedFits(r: Rcv, p: Packet)
    requires r.cmd.None?
    ensures TextFits(r, p) <==> p.sn == r.nxt && r.rxLen + |p.data| <= BUFFER_SIZE && |p.data| <= r.wnd
  {
  }

  lemma NobodyWaits(x: Snd, r: Rcv)
    ensures Matches(x, r) <==> Intact(x, r.(cmd := None))
  {
    assert Progress(x, r.(cmd := None)) == Progress(x, r) && Buffered(r.(cmd := None)) == Buffered(r);
  }

  /** A FIN at or ahead of RCV.NXT keeps the stream intact exactly if nothing before it is missing. */
  lemma FinIntactIff(x: Snd, r: Rcv, p: Packet)
    requires Intact(x, r) && Carried(x, p) && p.flag.fin
    requires 0 < r.nxt <= p.sn && r.irs == x.iss && x.nxt < 0x1_0000_0000
    ensures Intact(x, Drain(r).(nxt := Wrap32(p.sn + 1))) <==> p.sn == r.nxt
  {
    var t := r.(nxt := Wrap32(p.sn + 1));
    assert Drain(r) == r;
    assert |r.got + Buffered(r)| == Progress(x, r) == r.nxt - r.irs - 1;
    assert Progress(x, t) == |x.sent|;
    assert Buffered(t) == Buffered(r) && t.got == r.got;
  }

  /** A RECEIVE keeps the stream intact exactly if the shift does no harm. */
  lemma ReceiveIntactIff(x: Snd, h: Tcb, ch: Chan, cap: nat)
    requires Intact(x, h.rcv)
    ensures
      Intact(x, Receive(h, ch, cap).rcv) <==>
      (StartsReceive(h) ==> ShiftHarmless(h.rcv.(cmd := Some(RcvCmd(cap, ch)))))
  {
    ReceiveReceives(h, ch, cap);
    if StartsReceive(h) {
      var r := h.rcv.(cmd := Some(RcvCmd(cap, ch)));
      var t := Receive(h, ch, cap).rcv;
      DrainIffHarmless(r);
      assert Buffered(r) == Buffered(h.rcv) && Progress(x, r) == Progress(x, h.rcv);
      assert Buffered(t) == Buffered(Drain(r)) && Progress(x, t) == Progress(x, h.rcv);
      assert t.cmd.Some? ==> t.rxLen == 0;
    }
  }

  /** What a step must not do, for the stream to stay intact: each clause is checked before the step. */
  predicate Sound(n: Net, m: Move) {
    var h := At(n, m.atA);
    match m.e
    case Segment(p, _, _) =>
      (TextTaken(h, p) ==> TextFits(h.rcv, p)) && (FinTaken(h, p) ==> p.sn == h.rcv.nxt)
    case ReceiveCall(ch, cap) => StartsReceive(h) ==> ShiftHarmless(h.rcv.(cmd := Some(RcvCmd(cap, ch))))
    case _ => true
  }

  /** What is taken of the peer's stream is not below RCV.NXT. */
  lemma TakenAtOrAhead(h: Tcb, k: Tcb, active: bool, p: Packet)
    requires Pair(h, k, active) && p in k.snd.out && p.dst == h.local && ReachesText(h, p) && SegLen(p) > 0
    ensures 0 < h.rcv.nxt <= p.sn && Carried(k.snd, p) && h.rcv.irs == k.snd.iss && k.snd.nxt < 0x1_0000_0000
  {
    PeerSegment(h, k, active, p);
    AcceptedEndsAbove(h.rcv.nxt, h.rcv.wnd, p.sn, SegLen(p));
  }

  /** Before the SYN of the peer the buffer is empty; with it the stream starts. */
  lemma OpeningShape(h: Tcb, p: Packet, isn: U32, now: int, ok: bool)
    requires h.state == Listen || h.state == SynSent
    requires p.flag.syn ==> p.data == []
    requires h.rcv.nxt == 0
    ensures
      var r, t := h.rcv, Arrive(h, p, isn, now, ok);
      || Untouched(r, t.rcv)
      || (p.flag.syn && (t.rcv == Synchronize(r, p) || t.rcv == Synchronize(r, p).(wnd := BUFFER_SIZE))
          && (h.state == Listen ==> t.rcv.wnd == BUFFER_SIZE))
  {
    if p.flag.syn {
      assert Store(Synchronize(h.rcv, p), []).rx == h.rcv.rx;
    }
  }

  /** The peer's SYN starts the stream at its beginning. */
  lemma OpenedStream(h: Tcb, k: Tcb, active: bool, p: Packet, r: Rcv)
    requires Pair(h, k, active) && p in k.snd.out && p.dst == h.local && Intact(k.snd, h.rcv)
    requires !Synchronized(h) && p.flag.syn
    requires r == Synchronize(h.rcv, p) || r == Synchronize(h.rcv, p).(wnd := BUFFER_SIZE)
    ensures Intact(k.snd, r)
  {
    PeerSegment(h, k, active, p);
    assert Carried(k.snd, p);
    assert h.rcv.got + Buffered(h.rcv) == [] == r.got + Buffered(r);
    assert Progress(k.snd, r) == 0;
  }

  lemma OpeningIntact(h: Tcb, k: Tcb, active: bool, p: Packet, isn: U32, now: int, ok: bool)
    requires Pair(h, k, active) && p in k.snd.out && p.dst == h.local && Intact(k.snd, h.rcv)
    requires h.state == Listen || h.state == SynSent
    ensures Intact(k.snd, Arrive(h, p, isn, now, ok).rcv)
  {
    var r := Arrive(h, p, isn, now, ok).rcv;
    OpeningFacts(h, k, active, p);
    OpeningShape(h, p, isn, now, ok);
    if Untouched(h.rcv, r) {
      UntouchedIntact(k.snd, h.rcv, r);
    } else {
      OpenedStream(h, k, active, p, r);
    }
  }

  lemma ReceivedIntactIff(h: Tcb, k: Tcb, active: bool, p: Packet, r: Rcv)
    requires Pair(h, k, active) && p in k.snd.out && p.dst == h.local && Intact(k.snd, h.rcv)
    requires h.state != Closed && h.state != Listen && h.state != SynSent && AfterSegment(h, p, r)
    ensures
      Intact(k.snd, r) <==>
      (TextTaken(h, p) ==> TextFits(h.rcv, p)) && (FinTaken(h, p) ==> p.sn == h.rcv.nxt)
  {
    if TextTaken(h, p) {
      TakenAtOrAhead(h, k, active, p);
      TextIntactIff(k.snd, h.rcv, p);
    } else if FinTaken(h, p) {
      TakenAtOrAhead(h, k, active, p);
      FinIntactIff(k.snd, h.rcv, p);
    }
  }

  lemma SynchronizedIntactIff(h: Tcb, k: Tcb, active: bool, p: Packet, now: int, ok: bool)
    requires Pair(h, k, active) && p in k.snd.out && p.dst == h.local && Intact(k.snd, h.rcv)
    requires h.state != Closed && h.state != Listen && h.state != SynSent
    ensures
      Intact(k.snd, ArriveSynchronized(h, p, now, ok).rcv) <==>
      (TextTaken(h, p) ==> TextFits(h.rcv, p)) && (FinTaken(h, p) ==> p.sn == h.rcv.nxt)
  {
    ArrivalReceives(h, p, now, ok);
    ReceivedIntactIff(h, k, active, p, ArriveSynchronized(h, p, now, ok).rcv);
  }

  /** The receiving half of `h` after a segment. */
  lemma SegmentIntactIff(h: Tcb, k: Tcb, active: bool, p: Packet, isn: U32, now: int, ok: bool)
    requires Pair(h, k, active) && p in k.snd.out && p.dst == h.local && Intact(k.snd, h.rcv)
    ensures
      Intact(k.snd, Arrive(h, p, isn, now, ok).rcv) <==>
      (TextTaken(h, p) ==> TextFits(h.rcv, p)) && (FinTaken(h, p) ==> p.sn == h.rcv.nxt)
  {
    if h.state == Closed {
      assert Arrive(h, p, isn, now, ok).rcv == h.rcv;
    } else if h.state == Listen || h.state == SynSent {
      OpeningIntact(h, k, active, p, isn, now, ok);
    } else {
      SynchronizedIntactIff(h, k, active, p, now, ok);
    }
  }

  // ---------------------------------------------------------------- runs

  /** The peer's stream only grows at its end. */
  lemma IntactExtends(x: Snd, x': Snd, r: Rcv)
    requires Intact(x, r) && Extends(x, x') && (r.nxt > 0 ==> r.nxt <= x.nxt && r.irs == x.iss) && Numbers(x)
    ensures Intact(x', r)
  {
    assert Progress(x', r) == Progress(x, r);
    assert x'.sent[..Progress(x, r)] == x.sent[..Progress(x, r)];
  }

  ghost predicate Faithful(n: Net) {
    && Consistent(n)
    && Intact(n.a.snd, n.b.rcv) && Intact(n.b.snd, n.a.rcv)
  }

  lemma ReceiverIntactIff(h: Tcb, k: Tcb, active: bool, e: Event, now: int)
    requires Pair(h, k, active) && Intact(k.snd, h.rcv)
    requires Legal(if active then Net(h, k) else Net(k, h), Move(active, e, now))
    requires Step(h, e, now).Some?
    ensures
      Intact(k.snd, Step(h, e, now).value.rcv) <==>
      Sound(if active then Net(h, k) else Net(k, h), Move(active, e, now))
  {
    match e
    case Segment(p, isn, ok) => SegmentIntactIff(h, k, active, p, isn, now, ok);
    case ReceiveCall(ch, cap) => ReceiveIntactIff(k.snd, h, ch, cap);
    case _ =>
      OtherStepsUntouched(h, e, now);
      UntouchedIntact(k.snd, h.rcv, Step(h, e, now).value.rcv);
  }

  lemma UntouchedIntact(x: Snd, r: Rcv, r': Rcv)
    requires Intact(x, r) && Untouched(r, r')
    ensures Intact(x, r')
  {
  }

  /** A legal step keeps both streams intact exactly if it is sound. */
  lemma StepFaithfulIff(n: Net, m: Move)
    requires Faithful(n) && Legal(n, m)
    ensures NetStep(n, m).Some?
    ensures Faithful(NetStep(n, m).value) <==> Sound(n, m)
  {
    var h, k := At(n, m.atA), At(n, !m.atA);
    NetStepKeeps(n, m);
    HostStepExtends(h, k, m.atA, m.e, m.now);
    ReceiverIntactIff(h, k, m.atA, m.e, m.now);
    IntactExtends(h.snd, Step(h, m.e, m.now).value.snd, k.rcv);
  }

  /** A legal step is a step of one incarnation without simultaneous open. */
  lemma HostStepExtends(h: Tcb, k: Tcb, active: bool, e: Event, now: int)
    requires Pair(h, k, active) && Legal(if active then Net(h, k) else Net(k, h), Move(active, e, now))
    ensures Step(h, e, now).Some? && Extends(h.snd, Step(h, e, now).value.snd)
  {
    if e.Segment? {
      PeerSegment(h, k, active, e.p);
    }
    if !Opened(h.snd) {
      UnopenedIsUnused(h.snd);
    }
    StepKeepsSender(h, e, now);
    assert h.state == Listen ==> !Opened(h.snd);
  }

  predicate SoundRun(n: Net, ms: seq<Move>)
    decreases |ms|
  {
    ms != [] ==>
      && SoundRun(n, ms[..|ms| - 1])
      && (NetRun(n, ms[..|ms| - 1]).Some? ==> Sound(NetRun(n, ms[..|ms| - 1]).value, ms[|ms| - 1]))
  }

  /** Both streams are intact after every prefix of the run. */
  ghost predicate FaithfulRun(n: Net, ms: seq<Move>)
    decreases |ms|
  {
    && NetRun(n, ms).Some? && Faithful(NetRun(n, ms).value)
    && (ms != [] ==> FaithfulRun(n, ms[..|ms| - 1]))
  }

  /** In a legal run the streams are intact all the way exactly if every step is sound. */
  lemma {:induction false} RunFaithfulIff(la: Endpoint, lb: Endpoint, window: U16, ms: seq<Move>)
    requires Distinct(la, lb) && LegalRun(Start2(la, lb, window), ms)
    ensures FaithfulRun(Start2(la, lb, window), ms) <==> SoundRun(Start2(la, lb, window), ms)
    decreases |ms|
  {
    RunConsistent(la, lb, window, ms);
    if ms != [] {
      var before := ms[..|ms| - 1];
      RunFaithfulIff(la, lb, window, before);
      RunConsistent(la, lb, window, before);
      if SoundRun(Start2(la, lb, window), before) {
        StepFaithfulIff(NetRun(Start2(la, lb, window), before).value, ms[|ms| - 1]);
      }
    }
  }

  lemma ReceivedPrefix(y: Tcb, x: Tcb, active: bool)
    requires Pair(y, x, active) && Matches(x.snd, y.rcv)
    ensures y.rcv.got + Buffered(y.rcv) <= x.snd.sent
    ensures Synchronized(y) && !ConsumedFin(y.state) && y.state != Closed ==>
      |y.rcv.got| + y.rcv.rxLen == y.rcv.nxt - y.rcv.irs - 1
    ensures ConsumedFin(y.state) ==> y.rcv.got + Buffered(y.rcv) == x.snd.sent
  {
    assert |y.rcv.got + Buffered(y.rcv)| == Progress(x.snd, y.rcv);
    assert x.snd.sent[..|x.snd.sent|] == x.snd.sent;
  }

  /**
   * In each direction, what RECEIVE has got followed by what is buffered is the prefix of what
   * was SENT that lies below RCV.NXT, and all of it once the FIN has been consumed.
   */
  lemma StreamIntegrity(la: Endpoint, lb: Endpoint, window: U16, ms: seq<Move>, xIsA: bool)
    requires Distinct(la, lb) && LegalRun(Start2(la, lb, window), ms) && SoundRun(Start2(la, lb, window), ms)
    ensures NetRun(Start2(la, lb, window), ms).Some?
    ensures
      var n := NetRun(Start2(la, lb, window), ms).value;
      var x, y := At(n, xIsA), At(n, !xIsA);
      && y.rcv.got + Buffered(y.rcv) <= x.snd.sent
      && (Synchronized(y) && !ConsumedFin(y.state) && y.state != Closed ==>
            |y.rcv.got| + y.rcv.rxLen == y.rcv.nxt - y.rcv.irs - 1)
      && (ConsumedFin(y.state) ==> y.rcv.got + Buffered(y.rcv) == x.snd.sent)
  {
    RunFaithfulIff(la, lb, window, ms);
    var n := NetRun(Start2(la, lb, window), ms).value;
    ReceivedPrefix(At(n, !xIsA), At(n, xIsA), !xIsA);
  }

  lemma FinTakenLast(x: Tcb, y: Tcb, active: bool)
    requires Pair(y, x, active) && Matches(x.snd, y.rcv) && FinSent(x.snd) && y.rcv.nxt == x.snd.nxt
    ensures y.rcv.got + Buffered(y.rcv) == x.snd.sent
  {
    assert Progress(x.snd, y.rcv) == |x.snd.sent|;
    assert x.snd.sent[..|x.snd.sent|] == x.snd.sent;
  }

  /** FIN-WAIT-2 or TIME-WAIT: everything SENT is at the peer, in order. */
  lemma ClosedAfterDelivery(la: Endpoint, lb: Endpoint, window: U16, ms: seq<Move>, xIsA: bool)
    requires Distinct(la, lb) && LegalRun(Start2(la, lb, window), ms) && SoundRun(Start2(la, lb, window), ms)
    ensures NetRun(Start2(la, lb, window), ms).Some?
    ensures
      var n := NetRun(Start2(la, lb, window), ms).value;
      var x, y := At(n, xIsA), At(n, !xIsA);
      x.state == FinWait2 || x.state == TimeWait ==> y.rcv.got + Buffered(y.rcv) == x.snd.sent
  {
    RunFaithfulIff(la, lb, window, ms);
    FinAgreement(la, lb, window, ms, xIsA);
    var n := NetRun(Start2(la, lb, window), ms).value;
    var x, y := At(n, xIsA), At(n, !xIsA);
    if x.state == FinWait2 || x.state == TimeWait {
      FinTakenLast(x, y, !xIsA);
    }
  }

  /**
   * A call that a segment of the peer answers had its text received: the bytes of its entry are among those
   * handed to the peer's RECEIVE or buffered there, at their place in the stream.
   */
  lemma AnsweredBytesDelivered(
      la: Endpoint, lb: Endpoint, window: U16, ms: seq<Move>, n: Net, xIsA: bool, p: Packet, e: Entry)
    requires Distinct(la, lb) && LegalRun(Start2(la, lb, window), ms) && SoundRun(Start2(la, lb, window), ms)
    requires NetRun(Start2(la, lb, window), ms) == Some(n)
    requires p in At(n, !xIsA).snd.out && p.dst == At(n, xIsA).local && p.flag.ack
    requires e in At(n, xIsA).snd.retx && e.sn < p.ack && e.data != []
    ensures DeliveredAt(At(n, !xIsA).rcv, e.sn - At(n, xIsA).snd.iss - 1, e.data)
  {
    RunFaithfulIff(la, lb, window, ms);
    AnsweredInStream(At(n, xIsA), At(n, !xIsA), xIsA, p, e);
  }

  /** The bytes are found from `at` on among what was handed to RECEIVE or is buffered. */
  predicate DeliveredAt(r: Rcv, at: int, data: seq<Byte>) {
    0 <= at && at + |data| <= |r.got + Buffered(r)| && (r.got + Buffered(r))[at..at + |data|] == data
  }

  lemma SliceOfPrefix<T>(s: seq<T>, m: nat, at: nat, n: nat)
    requires at + n <= m <= |s|
    ensures s[..m][at..at + n] == s[at..][..n]
  {
  }

  lemma AnsweredInStream(x: Tcb, y: Tcb, active: bool, p: Packet, e: Entry)
    requires Pair(x, y, active) && Matches(x.snd, y.rcv) && p in y.snd.out && p.dst == x.local && p.flag.ack
    requires e in x.snd.retx && e.sn < p.ack && e.data != []
    ensures DeliveredAt(y.rcv, e.sn - x.snd.iss - 1, e.data)
  {
    AnsweredIsBelowNext(x, y, active, p, e);
    assert Queued(x.snd, e);
    var at, m := e.sn - x.snd.iss - 1, Progress(x.snd, y.rcv);
    assert |y.rcv.got + Buffered(y.rcv)| == m && at + |e.data| <= m;
    SliceOfPrefix(x.snd.sent, m, at, |e.data|);
  }

  // ---------------------------------------------------------------- buffer and window

  /** Stored text and the window it takes, in 16 bits, even when both wrap. */
  lemma AcceptFull(r: Rcv, p: Packet)
    requires Full(r)
    ensures Full(Accept(r, p))
  {
    WrapComplement(r.rxLen + |p.data|);
    assert r.wnd - |p.data| == BUFFER_SIZE - (r.rxLen + |p.data|);
  }

  lemma WrapComplement(z: nat)
    ensures Wrap16(z) + Wrap16(BUFFER_SIZE - z) == BUFFER_SIZE
  {
    var q, a := z / 0x1_0000, z % 0x1_0000;
    assert BUFFER_SIZE - z == 0x1_0000 * (-q) + (0xffff - a);
  }

  lemma DrainFull(r: Rcv)
    requires Full(r)
    ensures Full(Drain(r))
  {
  }

  /** Nothing wraps, and all text goes into the buffer, exactly if it fits the window. */
  lemma NoWrapIffFits(r: Rcv, p: Packet)
    requires Full(r)
    ensures |p.data| <= r.wnd <==> Accept(r, p).rxLen == r.rxLen + |p.data| && Accept(r, p).wnd == r.wnd - |p.data|
    ensures |p.data| <= r.wnd <==> Buffered(Accept(r, p)) == Buffered(r) + p.data
  {
    if |p.data| <= r.wnd {
      StoreAppends(r, p.data);
    } else {
      assert |Buffered(Accept(r, p))| < |Buffered(r) + p.data|;
    }
  }

  /** Before the peer's SYN nothing is buffered, from then on buffer and window add up. */
  predicate Conserved(r: Rcv) {
    if r.nxt == 0 then r.rxLen == 0 else Full(r)
  }

  lemma SegmentKeepsSum(h: Tcb, k: Tcb, p: Packet, isn: U32, now: int, ok: bool)
    requires Pair(h, k, false) && p in k.snd.out && p.dst == h.local && Conserved(h.rcv)
    requires h.rcv.nxt <= Arrive(h, p, isn, now, ok).rcv.nxt
    ensures Conserved(Arrive(h, p, isn, now, ok).rcv)
  {
    PeerSegment(h, k, false, p);
    assert Carried(k.snd, p);
    if h.state == Closed {
      assert Arrive(h, p, isn, now, ok).rcv == h.rcv;
    } else if h.state == Listen {
      OpeningShape(h, p, isn, now, ok);
    } else {
      ArrivalReceives(h, p, now, ok);
      AcceptFull(h.rcv, p);
      DrainFull(h.rcv);
      DrainFull(Accept(h.rcv, p));
    }
  }

  lemma ReceiveKeepsSum(h: Tcb, ch: Chan, cap: nat)
    requires Conserved(h.rcv)
    ensures Conserved(Receive(h, ch, cap).rcv)
  {
    ReceiveReceives(h, ch, cap);
    var r := h.rcv.(cmd := Some(RcvCmd(cap, ch)));
    if h.rcv.nxt > 0 {
      DrainFull(r);
    }
  }

  lemma StepKeepsSum(h: Tcb, k: Tcb, e: Event, now: int)
    requires Pair(h, k, false) && Legal(Net(k, h), Move(false, e, now)) && Conserved(h.rcv)
    ensures Step(h, e, now).Some? && Conserved(Step(h, e, now).value.rcv)
  {
    HostStepKeeps(h, k, false, e, now);
    match e
    case Segment(p, isn, ok) => SegmentKeepsSum(h, k, p, isn, now, ok);
    case ReceiveCall(ch, cap) => ReceiveKeepsSum(h, ch, cap);
    case _ => OtherStepsUntouched(h, e, now);
  }

  /**
   * The passive opener's buffered bytes and window add up to the buffer in every legal run, partial drains,
   * overtaking text and 16-bit wrap included.
   */
  lemma {:induction false} BufferConservation(la: Endpoint, lb: Endpoint, window: U16, ms: seq<Move>)
    requires Distinct(la, lb) && LegalRun(Start2(la, lb, window), ms)
    ensures NetRun(Start2(la, lb, window), ms).Some?
    ensures
      var b := NetRun(Start2(la, lb, window), ms).value.b;
      if Synchronized(b) then b.rcv.rxLen + b.rcv.wnd == BUFFER_SIZE else b.rcv.rxLen == 0
    decreases |ms|
  {
    RunConsistent(la, lb, window, ms);
    if ms != [] {
      var s, before, m := Start2(la, lb, window), ms[..|ms| - 1], ms[|ms| - 1];
      BufferConservation(la, lb, window, before);
      RunConsistent(la, lb, window, before);
      NetStepKeepsSum(NetRun(s, before).value, m);
      assert NetRun(s, ms) == NetStep(NetRun(s, before).value, m);
    }
  }

  lemma NetStepKeepsSum(n: Net, m: Move)
    requires Consistent(n) && Legal(n, m) && Conserved(n.b.rcv)
    ensures NetStep(n, m).Some? && Conserved(NetStep(n, m).value.b.rcv)
  {
    NetStepKeeps(n, m);
    if !m.atA {
      StepKeepsSum(n.b, n.a, m.e, m.now);
    }
  }

  /** The active opener takes text only as far as its window goes. */
  predicate Fits(n: Net, m: Move) {
    m.atA && m.e.Segment? && TextTaken(n.a, m.e.p) ==> |m.e.p.data| <= n.a.rcv.wnd
  }

  predicate FittingRun(n: Net, ms: seq<Move>)
    decreases |ms|
  {
    ms != [] ==>
      && FittingRun(n, ms[..|ms| - 1])
      && (NetRun(n, ms[..|ms| - 1]).Some? ==> Fits(NetRun(n, ms[..|ms| - 1]).value, ms[|ms| - 1]))
  }

  predicate Bounded(r: Rcv) {
    r.rxLen + r.wnd <= BUFFER_SIZE
  }

  lemma AcceptBounded(r: Rcv, p: Packet)
    requires Bounded(r) && |p.data| <= r.wnd
    ensures Bounded(Accept(r, p))
  {
  }

  lemma DrainBounded(r: Rcv)
    requires Bounded(r)
    ensures Bounded(Drain(r))
  {
  }

  /** What is known when the peer's SYN is still awaited. */
  lemma OpeningFacts(h: Tcb, k: Tcb, active: bool, p: Packet)
    requires Pair(h, k, active) && p in k.snd.out && p.dst == h.local && (h.state == Listen || h.state == SynSent)
    ensures h.rcv.nxt == 0 && (p.flag.syn ==> p.data == []) && (active <==> h.state == SynSent)
  {
    assert Carried(k.snd, p);
  }

  lemma OpeningBounded(h: Tcb, p: Packet, isn: U32, now: int, ok: bool)
    requires h.state == SynSent && Bounded(h.rcv) && h.rcv.nxt == 0 && (p.flag.syn ==> p.data == [])
    ensures Bounded(Arrive(h, p, isn, now, ok).rcv)
  {
    OpeningShape(h, p, isn, now, ok);
    if p.flag.syn {
      assert Arrive(h, p, isn, now, ok).rcv.wnd == h.rcv.wnd;
    }
  }

  lemma SegmentBounded(h: Tcb, k: Tcb, p: Packet, isn: U32, now: int, ok: bool)
    requires Pair(h, k, true) && p in k.snd.out && p.dst == h.local && Bounded(h.rcv)
    requires TextTaken(h, p) ==> |p.data| <= h.rcv.wnd
    ensures Bounded(Arrive(h, p, isn, now, ok).rcv)
  {
    if h.state == Closed {
      assert Arrive(h, p, isn, now, ok).rcv == h.rcv;
    } else if h.state == SynSent {
      OpeningFacts(h, k, true, p);
      OpeningBounded(h, p, isn, now, ok);
    } else {
      ArrivalReceives(h, p, now, ok);
      DrainBounded(h.rcv);
      if TextTaken(h, p) {
        AcceptBounded(h.rcv, p);
        DrainBounded(Accept(h.rcv, p));
      }
    }
  }

  lemma StepBounded(h: Tcb, k: Tcb, e: Event, now: int)
    requires Pair(h, k, true) && Legal(Net(h, k), Move(true, e, now)) && Bounded(h.rcv)
    requires e.Segment? && TextTaken(h, e.p) ==> |e.p.data| <= h.rcv.wnd
    requires Step(h, e, now).Some?
    ensures Bounded(Step(h, e, now).value.rcv)
  {
    match e
    case Segment(p, isn, ok) => SegmentBounded(h, k, p, isn, now, ok);
    case ReceiveCall(ch, cap) =>
      ReceiveReceives(h, ch, cap);
      DrainBounded(h.rcv.(cmd := Some(RcvCmd(cap, ch))));
    case _ => OtherStepsUntouched(h, e, now);
  }

  /**
   * Neither side ever offers more window than it has buffer left: the passive opener in every legal run, the active
   * one if the text that it takes fits its window.
   */
  lemma WindowNeverOverstated(la: Endpoint, lb: Endpoint, window: U16, ms: seq<Move>)
    requires Distinct(la, lb) && LegalRun(Start2(la, lb, window), ms)
    ensures NetRun(Start2(la, lb, window), ms).Some?
    ensures
      var n := NetRun(Start2(la, lb, window), ms).value;
      && Bounded(n.b.rcv)
      && (FittingRun(Start2(la, lb, window), ms) ==> Bounded(n.a.rcv))
  {
    BufferConservation(la, lb, window, ms);
    if FittingRun(Start2(la, lb, window), ms) {
      ActiveBounded(la, lb, window, ms);
    }
  }

  lemma {:induction false} ActiveBounded(la: Endpoint, lb: Endpoint, window: U16, ms: seq<Move>)
    requires Distinct(la, lb) && LegalRun(Start2(la, lb, window), ms) && FittingRun(Start2(la, lb, window), ms)
    ensures NetRun(Start2(la, lb, window), ms).Some? && Bounded(NetRun(Start2(la, lb, window), ms).value.a.rcv)
    decreases |ms|
  {
    RunConsistent(la, lb, window, ms);
    if ms != [] {
      var s, before, m := Start2(la, lb, window), ms[..|ms| - 1], ms[|ms| - 1];
      ActiveBounded(la, lb, window, before);
      RunConsistent(la, lb, window, before);
      var n := NetRun(s, before).value;
      assert NetRun(s, ms) == NetStep(n, m);
      if m.atA {
        StepBounded(n.a, n.b, m.e, m.now);
      }
    }
  }

  // ---------------------------------------------------------------- a FIN and a pending RECEIVE

  lemma StepWaits(h: Tcb, k: Tcb, active: bool, e: Event, now: int)
    requires Pair(h, k, active) && Legal(if active then Net(h, k) else Net(k, h), Move(active, e, now))
    requires WaitsForMore(h.rcv) && Step(h, e, now).Some?
    ensures WaitsForMore(Step(h, e, now).value.rcv)
  {
    match e
    case Segment(p, isn, ok) => SegmentWaits(h, k, active, p, isn, now, ok);
    case ReceiveCall(ch, cap) =>
      ReceiveReceives(h, ch, cap);
      DrainWaits(h.rcv.(cmd := Some(RcvCmd(cap, ch))));
    case _ => OtherStepsUntouched(h, e, now);
  }

  lemma OpeningWaits(h: Tcb, k: Tcb, active: bool, p: Packet, isn: U32, now: int, ok: bool)
    requires Pair(h, k, active) && p in k.snd.out && p.dst == h.local && WaitsForMore(h.rcv)
    requires h.state == Listen || h.state == SynSent
    ensures WaitsForMore(Arrive(h, p, isn, now, ok).rcv)
  {
    OpeningFacts(h, k, active, p);
    OpeningShape(h, p, isn, now, ok);
  }

  lemma SegmentWaits(h: Tcb, k: Tcb, active: bool, p: Packet, isn: U32, now: int, ok: bool)
    requires Pair(h, k, active) && p in k.snd.out && p.dst == h.local && WaitsForMore(h.rcv)
    ensures WaitsForMore(Arrive(h, p, isn, now, ok).rcv)
  {
    if h.state == Closed {
      assert Arrive(h, p, isn, now, ok).rcv == h.rcv;
    } else if h.state == Listen || h.state == SynSent {
      OpeningWaits(h, k, active, p, isn, now, ok);
    } else {
      ArrivalReceives(h, p, now, ok);
      DrainWaits(h.rcv);
      DrainWaits(Accept(h.rcv, p));
    }
  }

  lemma {:induction false} RunWaits(la: Endpoint, lb: Endpoint, window: U16, ms: seq<Move>)
    requires Distinct(la, lb) && LegalRun(Start2(la, lb, window), ms)
    ensures NetRun(Start2(la, lb, window), ms).Some?
    ensures
      var n := NetRun(Start2(la, lb, window), ms).value;
      WaitsForMore(n.a.rcv) && WaitsForMore(n.b.rcv)
    decreases |ms|
  {
    RunConsistent(la, lb, window, ms);
    if ms != [] {
      var s, before, m := Start2(la, lb, window), ms[..|ms| - 1], ms[|ms| - 1];
      RunWaits(la, lb, window, before);
      RunConsistent(la, lb, window, before);
      var n := NetRun(s, before).value;
      assert NetRun(s, ms) == NetStep(n, m);
      StepWaits(At(n, m.atA), At(n, !m.atA), m.atA, m.e, m.now);
    }
  }

  /**
   * In every legal run, a FIN that is taken answers no pending RECEIVE: it moves RCV.NXT and nothing else of the
   * receiving half, so that a RECEIVE which waits goes on waiting.
   */
  lemma FinAnswersNoReceive(
      la: Endpoint, lb: Endpoint, window: U16, ms: seq<Move>, n: Net, atA: bool, p: Packet, isn: U32, now: int,
      ok: bool)
    requires Distinct(la, lb) && LegalRun(Start2(la, lb, window), ms) && NetRun(Start2(la, lb, window), ms) == Some(n)
    requires FinTaken(At(n, atA), p)
    ensures Arrive(At(n, atA), p, isn, now, ok).rcv == At(n, atA).rcv.(nxt := Wrap32(p.sn + 1))
  {
    RunWaits(la, lb, window, ms);
    ArrivalReceives(At(n, atA), p, now, ok);
  }
}
