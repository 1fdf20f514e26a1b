/**
 * What one endpoint keeps true of the sending half of its control block, whatever segments
 * arrive: within one incarnation, without a simultaneous open and without sequence wrap.
 */
module TcpSender {
  import opened Words
  import opened TcpTypes
  import opened TcpSpec
  import opened TcpQueue

  /** The stream, its SYN and FIN, and a full window above them stay below 2^32. */
  predicate NoWrap(d: Snd) {
    d.iss + |d.sent| + 2 + BUFFER_SIZE < 0x1_0000_0000
  }

  /** An initial sequence number has been chosen. */
  predicate Opened(d: Snd) {
    d.nxt > d.iss
  }

  /** Nothing that occupies sequence space has been transmitted or is queued: an OPEN that failed leaves it so. */
  predicate Unused(d: Snd) {
    d.sent == [] && d.retx == [] && forall p :: p in d.out ==> SegLen(p) == 0
  }

  predicate FinSent(d: Snd) {
    d.nxt == d.iss + 2 + |d.sent|
  }

  /** A segment of this endpoint says what the stream of this endpoint says at its place. */
  predicate Carries(d: Snd, sn: U32, flag: Flags, data: seq<Byte>) {
    && (flag.syn ==> sn == d.iss && data == [] && !flag.fin && !flag.rst)
    && (flag.fin ==> data == [] && FinSent(d) && sn == d.nxt - 1 && flag == FINACK)
    && (data != [] ==>
          && flag == ACK
          && d.iss < sn
          && sn + |data| <= d.iss + 1 + |d.sent|
          && data == d.sent[sn - d.iss - 1..][..|data|])
    && (Occupies(data, flag) > 0 ==>
          && Opened(d)
          && sn + Occupies(data, flag) <= d.nxt
          && sn in d.cuts && sn + Occupies(data, flag) in d.cuts
          && forall c :: c in d.cuts ==> !(sn < c < sn + Occupies(data, flag)))
  }

  predicate Carried(d: Snd, p: Packet) {
    Carries(d, p.sn, p.flag, p.data)
  }

  predicate Queued(d: Snd, e: Entry) {
    Carries(d, e.sn, e.flag, e.data) && EntryLen(e) > 0 && e.sn >= d.una && e.retxCount == 0
  }

  /** Our FIN is the last entry of the queue. */
  predicate FinQueued(q: seq<Entry>) {
    |q| > 0 && q[|q| - 1].flag == FINACK
  }

  predicate StateTable(st: State, d: Snd) {
    match st
    case Listen => Unused(d)
    case SynSent | SynReceived => d.nxt == d.iss + 1 && d.sent == [] && d.una == d.iss
    case Established | CloseWait => d.nxt == d.iss + 1 + |d.sent|
    case FinWait1 | Closing | LastAck => FinSent(d) && d.una < d.nxt && FinQueued(d.retx)
    case FinWait2 | TimeWait => FinSent(d) && d.una == d.nxt && d.retx == []
    case Closed => true
  }

  /** Sequence variables, and where segments may begin and end. */
  ghost predicate Numbers(d: Snd) {
    && (d.nxt == d.iss || d.nxt == d.iss + 1 + |d.sent| || FinSent(d))
    && (!Opened(d) ==> d.nxt == 0 && d.sent == [] && d.retx == [] && d.cuts == {})
    && d.iss <= d.una <= d.nxt
    && (forall c :: c in d.cuts ==> c <= d.nxt)
    && (Opened(d) ==> d.nxt in d.cuts)
  }

  ghost predicate Contents(d: Snd) {
    && (forall e :: e in d.retx ==> Queued(d, e))
    && (forall p :: p in d.out ==> Carried(d, p))
  }

  ghost predicate Sender(st: State, d: Snd) {
    StateTable(st, d) && Numbers(d) && Tiles(d.retx, d.nxt) && Contents(d)
  }

  /** How the sending half may change in one incarnation. */
  predicate Extends(d: Snd, d': Snd) {
    && (Opened(d) ==> d'.iss == d.iss)
    && d.sent <= d'.sent && d.nxt <= d'.nxt
    && (FinSent(d) ==> d'.nxt == d.nxt && d'.sent == d.sent)
    && d.cuts <= d'.cuts
    && (forall c :: c in d'.cuts && c !in d.cuts ==> c >= d.nxt)
    && d.una <= d'.una
    && d.out <= d'.out
  }

  lemma CarriesExtends(d: Snd, d': Snd, sn: U32, flag: Flags, data: seq<Byte>)
    requires Extends(d, d') && Opened(d) && Carries(d, sn, flag, data)
    ensures Carries(d', sn, flag, data)
  {
    if data != [] {
      assert d'.sent[sn - d'.iss - 1..][..|data|] == d.sent[sn - d.iss - 1..][..|data|];
    }
  }

  /** Everything already queued or transmitted stays right; only what is new needs a look. */
  lemma ContentsExtend(d: Snd, d': Snd)
    requires Contents(d) && Numbers(d) && Extends(d, d')
    requires forall e :: e in d'.retx ==> (e in d.retx && e.sn >= d'.una) || Queued(d', e)
    requires forall p :: p in d'.out ==> p in d.out || Carried(d', p)
    ensures Contents(d')
  {
    forall p | p in d'.out && p in d.out
      ensures Carried(d', p)
    {
      assert Carried(d, p);
      if Opened(d) {
        CarriesExtends(d, d', p.sn, p.flag, p.data);
      }
    }
    forall e | e in d'.retx && e in d.retx && e.sn >= d'.una
      ensures Queued(d', e)
    {
      CarriesExtends(d, d', e.sn, e.flag, e.data);
    }
  }

  // ---------------------------------------------------------------- steps of the sending half

  /** A segment without text, SYN and FIN changes only the history of transmissions. */
  lemma BareKeeps(st: State, s: Tcb, sn: U32, ack: U32, flag: Flags, wnd: U16, ok: bool)
    requires Sender(st, s.snd) && !flag.syn && !flag.fin
    ensures Sender(st, Transmit(s, sn, ack, flag, wnd, [], ok).snd)
    ensures Extends(s.snd, Transmit(s, sn, ack, flag, wnd, [], ok).snd)
  {
    ContentsExtend(s.snd, Transmit(s, sn, ack, flag, wnd, [], ok).snd);
  }

  lemma FlushKeeps(st: State, d: Snd)
    requires Sender(st, d)
    ensures Sender(Closed, d.(retx := [])) && Extends(d, d.(retx := []))
  {
    ContentsExtend(d, d.(retx := []));
  }

  /** An OPEN, or a SYN in LISTEN, starts the only incarnation. */
  lemma StartKeeps(st: State, s: Tcb, isn: U32, flag: Flags, t: Trigger, ch: Option<Chan>, now: int, ok: bool)
    requires Sender(st, s.snd) && Unused(s.snd) && flag.syn && !flag.fin && !flag.rst
    requires NoWrap(Start(s.snd, isn))
    ensures
      var d := TxHelper(s.(snd := Start(s.snd, isn)), flag, [], t, ch, now, ok).snd;
      && Sender(SynSent, d) && Sender(SynReceived, d) && Sender(Closed, d) && (!ok ==> Sender(Listen, d))
      && (Opened(s.snd) || Extends(s.snd, d))
  {
    var d := TxHelper(s.(snd := Start(s.snd, isn)), flag, [], t, ch, now, ok).snd;
    forall p | p in d.out
      ensures Carried(d, p)
    {
      if p in s.snd.out {
        assert SegLen(p) == 0;
      }
    }
  }

  lemma UnopenedIsUnused(d: Snd)
    requires Numbers(d) && Contents(d) && !Opened(d)
    ensures Unused(d)
  {
    assert forall p :: p in d.out ==> Carried(d, p);
  }

  /** The sending half after a segment at SND.NXT has been queued, transmitted and counted. */
  function Appended(d: Snd, e: Entry, p: Packet): Snd {
    Push(d.(out := d.out + [p], retx := if EntryLen(e) > 0 then d.retx + [e] else d.retx), e.data, EntryLen(e))
  }

  lemma AppendCarries(d: Snd, e: Entry, p: Packet)
    requires Numbers(d) && Opened(d) && d.nxt == d.iss + 1 + |d.sent| && NoWrap(d.(sent := d.sent + e.data))
    requires e.sn == p.sn == d.nxt && e.flag == p.flag && e.data == p.data && e.retxCount == 0
    requires e.flag == ACK || (e.flag == FINACK && e.data == [])
    ensures Carried(Appended(d, e, p), p) && (EntryLen(e) > 0 ==> Queued(Appended(d, e, p), e))
    ensures Numbers(Appended(d, e, p)) && Extends(d, Appended(d, e, p))
  {
    var d' := Appended(d, e, p);
    if e.data != [] {
      assert d'.sent[d.nxt - d.iss - 1..][..|e.data|] == e.data;
    }
  }

  /** SEND and CLOSE append a segment at SND.NXT and move SND.NXT past it. */
  lemma AppendKeeps(st: State, st': State, d: Snd, e: Entry, p: Packet)
    requires Sender(st, d) && (st == SynReceived || st == Established || st == CloseWait)
    requires e.sn == p.sn == d.nxt && e.flag == p.flag && e.data == p.data && e.retxCount == 0
    requires (e.flag == ACK && st' == st != SynReceived) ||
      (e.flag == FINACK && e.data == [] && (st' == FinWait1 || st' == LastAck))
    requires NoWrap(d.(sent := d.sent + e.data))
    ensures Sender(st', Appended(d, e, p)) && Extends(d, Appended(d, e, p))
  {
    var d' := Appended(d, e, p);
    AppendCarries(d, e, p);
    if EntryLen(e) > 0 {
      TilesAppend(d.retx, e);
    }
    assert Contents(d') by {
      ContentsExtend(d, d');
    }
    assert StateTable(st', d');
  }

  /** Acknowledging all that was sent empties the queue; acknowledging less leaves our FIN queued. */
  lemma AckQueue(st: State, d: Snd, ack: U32)
    requires Sender(st, d) && d.una <= ack <= d.nxt
    ensures Numbers(d.(una := ack, retx := Keep(d.retx, ack)))
    ensures Tiles(Keep(d.retx, ack), d.nxt)
    ensures Contents(d.(una := ack, retx := Keep(d.retx, ack)))
    ensures Extends(d, d.(una := ack, retx := Keep(d.retx, ack)))
    ensures forall e :: e in Keep(d.retx, ack) ==> e in d.retx
    ensures ack == d.nxt ==> Keep(d.retx, ack) == []
    ensures ack < d.nxt && FinQueued(d.retx) ==> FinQueued(Keep(d.retx, ack))
  {
    var _ := KeepIsSuffix(d.retx, d.nxt, ack);
    AckContents(d, ack);
    KeepStays(d.retx, ack);
    if ack == d.nxt {
      assert forall e :: e in d.retx ==> Queued(d, e);
      KeepNone(d.retx, ack);
    } else if FinQueued(d.retx) {
      assert Queued(d, d.retx[|d.retx| - 1]);
      FinStays(d.retx, d.nxt, ack);
    }
  }

  lemma AckContents(d: Snd, ack: U32)
    requires Numbers(d) && Contents(d) && d.una <= ack <= d.nxt
    ensures
      var d' := d.(una := ack, retx := Keep(d.retx, ack));
      Numbers(d') && Contents(d') && Extends(d, d')
  {
    KeepStays(d.retx, ack);
    ContentsExtend(d, d.(una := ack, retx := Keep(d.retx, ack)));
  }

  /** What does not reach the FIN leaves it in the queue. */
  lemma FinStays(q: seq<Entry>, end: int, ack: U32)
    requires Tiles(q, end) && FinQueued(q) && EntryLen(q[|q| - 1]) == 1 && ack < end
    ensures FinQueued(Keep(q, ack))
  {
    var k := KeepIsSuffix(q, end, ack);
    var last := |q| - 1;
    assert Linked(q, end, last);
    assert q[last].sn >= ack;
    assert q[k..][last - k] == q[last];
  }

  lemma WindowKeeps(d: Snd, wnd: U16, wl1: U32, wl2: U32)
    ensures Numbers(d) ==> Numbers(d.(wnd := wnd, wl1 := wl1, wl2 := wl2))
    ensures Contents(d) ==> Contents(d.(wnd := wnd, wl1 := wl1, wl2 := wl2))
  {
    var d' := d.(wnd := wnd, wl1 := wl1, wl2 := wl2);
    assert forall sn, flag, data :: Carries(d, sn, flag, data) <==> Carries(d', sn, flag, data);
    assert forall e :: Queued(d, e) <==> Queued(d', e);
    assert forall p :: Carried(d, p) <==> Carried(d', p);
  }

  // ---------------------------------------------------------------- user calls

  lemma OpenKeeps(s: Tcb, ch: Chan, foreign: Endpoint, active: bool, timeout: int, isn: U32, txs: seq<bool>, now: int)
    requires Sender(s.state, s.snd) && (s.state == Closed ==> Unused(s.snd)) && NoWrap(Start(s.snd, isn))
    ensures
      var t := Open(s, ch, foreign, active, timeout, isn, txs, now);
      && Sender(t.state, t.snd)
      && (((s.state == Closed || s.state == Listen) && Opened(s.snd)) || Extends(s.snd, t.snd))
  {
    var t := Open(s, ch, foreign, active, timeout, isn, txs, now);
    if (s.state == Closed || s.state == Listen) && active && foreign.addr != 0 {
      var s1 := s.(timeout := timeout, foreign := foreign);
      StartKeeps(s.state, s1, isn, SYN, OpenTrigger, Some(ch), now, true in txs);
    } else {
      assert t.snd == s.snd;
    }
  }

  lemma SendTextKeeps(s: Tcb, ch: Chan, data: seq<Byte>, txs: seq<bool>, now: int)
    requires Sender(s.state, s.snd) && NoWrap(s.snd.(sent := s.snd.sent + data))
    requires s.state == Established || s.state == CloseWait
    ensures
      var t := SendText(s, ch, data, txs, now);
      Sender(s.state, t.snd) && Extends(s.snd, t.snd) && t.state == s.state
  {
    if true in txs {
      var e := Entry(data, s.snd.nxt, ACK, now, now, 0, Some(ch), SendTrigger);
      var p := Packet(s.local, s.foreign, s.snd.nxt, s.rcv.nxt, ACK, s.rcv.wnd, data);
      assert SendText(s, ch, data, txs, now).snd == Appended(s.snd, e, p);
      AppendKeeps(s.state, s.state, s.snd, e, p);
    }
  }

  lemma SendKeeps(s: Tcb, ch: Chan, data: seq<Byte>, txs: seq<bool>, now: int)
    requires Sender(s.state, s.snd) && NoWrap(s.snd.(sent := s.snd.sent + data))
    ensures
      var t := Send(s, ch, data, txs, now);
      Sender(t.state, t.snd) && Extends(s.snd, t.snd)
  {
    if s.state == Established || s.state == CloseWait {
      var s1 := if |data| > s.snd.wnd then Answer(s, ch, Fail(RESOURCES)) else s;
      SendTextKeeps(s1, ch, data, txs, now);
    } else {
      assert Send(s, ch, data, txs, now).snd == s.snd;
    }
  }

  lemma CloseKeeps(s: Tcb, ch: Chan, txs: seq<bool>, now: int)
    requires Sender(s.state, s.snd) && NoWrap(s.snd)
    ensures
      var t := Close(s, ch, txs, now);
      Sender(t.state, t.snd) && Extends(s.snd, t.snd)
  {
    match s.state
    case SynReceived | Established => SendFinKeeps(s, ch, FinWait1, txs, now);
    case CloseWait => SendFinKeeps(s, ch, LastAck, txs, now);
    case Listen | SynSent => FlushKeeps(s.state, s.snd);
    case _ => assert Close(s, ch, txs, now).snd == s.snd;
  }

  lemma SendFinKeeps(s: Tcb, ch: Chan, next: State, txs: seq<bool>, now: int)
    requires Sender(s.state, s.snd) && NoWrap(s.snd)
    requires ((s.state == SynReceived || s.state == Established) && next == FinWait1) ||
      (s.state == CloseWait && next == LastAck)
    ensures
      var t := SendFin(s, ch, next, txs, now);
      Sender(t.state, t.snd) && Extends(s.snd, t.snd)
  {
    if true in txs {
      var e := Entry([], s.snd.nxt, FINACK, now, now, 0, Some(ch), CloseTrigger);
      var p := Packet(s.local, s.foreign, s.snd.nxt, s.rcv.nxt, FINACK, s.rcv.wnd, []);
      assert s.snd.sent + [] == s.snd.sent;
      assert SendFin(s, ch, next, txs, now).snd == Appended(s.snd, e, p);
      AppendKeeps(s.state, next, s.snd, e, p);
    }
  }

  lemma AbortKeeps(s: Tcb, ok: bool)
    requires Sender(s.state, s.snd)
    ensures
      var t := Abort(s, ok);
      Sender(t.state, t.snd) && Extends(s.snd, t.snd)
  {
    FlushKeeps(s.state, s.snd);
    BareKeeps(Closed, Shut(s, RESET), s.snd.nxt, 0, RST, 0, ok);
  }

  // ---------------------------------------------------------------- SEGMENT ARRIVES

  /** The only way to a simultaneous open: a SYN that does not acknowledge ours. */
  predicate Simultaneous(s: Tcb, p: Packet) {
    s.state == SynSent && p.flag.syn && !p.flag.ack
  }

  lemma AckedSends(s: Tcb, p: Packet, now: int, d1: Snd)
    requires s.snd.una < p.ack <= s.snd.nxt && d1 == s.snd.(una := p.ack, retx := Keep(s.snd.retx, p.ack))
    ensures
      var d := AckedState(Advance(s, p, now), p, now).snd;
      d == d1 || d == d1.(wnd := p.wnd, wl1 := p.sn, wl2 := p.ack)
  {
  }

  lemma AckedTable(s: Tcb, p: Packet, now: int, d1: Snd)
    requires s.snd.una < p.ack <= s.snd.nxt && TakesAcks(s.state) && StateTable(s.state, s.snd)
    requires d1 == s.snd.(una := p.ack, retx := Keep(s.snd.retx, p.ack))
    requires p.ack == s.snd.nxt ==> d1.retx == []
    requires p.ack < s.snd.nxt && FinQueued(s.snd.retx) ==> FinQueued(d1.retx)
    ensures
      var t := AckedState(Advance(s, p, now), p, now);
      StateTable(t.state, d1) && TextReady(t, p)
  {
  }

  lemma AdvanceKeeps(s: Tcb, p: Packet, now: int)
    requires Sender(s.state, s.snd)
    requires TakesAcks(s.state)
    ensures
      var t := AckedState(Advance(s, p, now), p, now);
      Sender(t.state, t.snd) && Extends(s.snd, t.snd) && TextReady(t, p)
  {
    var d := s.snd;
    var t := AckedState(Advance(s, p, now), p, now);
    if d.una < p.ack <= d.nxt {
      var d1 := d.(una := p.ack, retx := Keep(d.retx, p.ack));
      AckQueue(s.state, d, p.ack);
      WindowKeeps(d1, p.wnd, p.sn, p.ack);
      AckedSends(s, p, now, d1);
      AckedTable(s, p, now, d1);
    } else {
      assert t.snd == s.snd && t.state == s.state;
    }
  }

  /** Behind the acknowledgement: in FIN-WAIT-1 the segment does not acknowledge our FIN. */
  predicate TextReady(s: Tcb, p: Packet) {
    s.state != LastAck && s.state != SynReceived && (s.state == FinWait1 ==> p.ack != s.snd.nxt)
  }

  /** Text and FIN are acknowledged; the rest of the sending half stays as it is. */
  lemma TextAndFinSends(s: Tcb, p: Packet, now: int, ok: bool)
    ensures
      var t := TextAndFin(s, p, now, ok);
      t.snd == s.snd || t.snd == Transmit(s, s.snd.nxt, t.rcv.nxt, ACK, t.rcv.wnd, [], ok).snd
  {
  }

  lemma TextAndFinStates(s: Tcb, p: Packet, now: int, ok: bool)
    requires StateTable(s.state, s.snd) && TextReady(s, p)
    ensures
      var t := TextAndFin(s, p, now, ok);
      StateTable(t.state, s.snd)
  {
  }

  lemma TextAndFinKeeps(s: Tcb, p: Packet, now: int, ok: bool)
    requires Sender(s.state, s.snd) && TextReady(s, p)
    ensures
      var t := TextAndFin(s, p, now, ok);
      Sender(t.state, t.snd) && Extends(s.snd, t.snd)
  {
    var t := TextAndFin(s, p, now, ok);
    TextAndFinStates(s, p, now, ok);
    TextAndFinSends(s, p, now, ok);
    BareKeeps(t.state, s, s.snd.nxt, t.rcv.nxt, ACK, t.rcv.wnd, ok);
  }

  /**
   * The test whether a FIN in FIN-WAIT-1 acknowledges ours has nothing to do: such an acknowledgement has led to
   * FIN-WAIT-2 before, so that a FIN in FIN-WAIT-1 always leads to CLOSING.
   */
  lemma FinTestIdle(s: Tcb, p: Packet, now: int)
    requires Sender(s.state, s.snd) && TakesAcks(s.state)
    ensures
      var t := AckedState(Advance(s, p, now), p, now);
      t.state == FinWait1 ==> p.ack != t.snd.nxt && AfterFin(t, p, now) == t.(state := Closing)
  {
    AdvanceKeeps(s, p, now);
  }

  /** The signal to CLOSE in FIN-WAIT-2 has nothing to do: the queue, and with it the CLOSE, is done with before. */
  lemma CloseSignalIdle(s: Tcb, p: Packet, now: int)
    requires Sender(s.state, s.snd) && s.state == FinWait2
    ensures s.snd.retx == [] && SignalCmd(s, CloseTrigger) == s && AckedState(s, p, now) == s
  {
    assert s.log + [] == s.log;
  }

  lemma SynSentKeeps(s: Tcb, p: Packet, now: int, ok: bool)
    requires Sender(s.state, s.snd) && s.state == SynSent && !Simultaneous(s, p)
    ensures
      var t := ArriveSynSent(s, p, now, ok);
      Sender(t.state, t.snd) && Extends(s.snd, t.snd)
  {
    var d := s.snd;
    var t := ArriveSynSent(s, p, now, ok);
    if p.flag.ack && (p.ack <= d.iss || p.ack > d.nxt) {
      BareKeeps(s.state, s, p.ack, 0, RST, 0, ok);
    } else if p.flag.rst {
      FlushKeeps(s.state, d);
    } else if p.flag.syn {
      var d1 := d.(una := p.ack, retx := Keep(d.retx, p.ack));
      AckQueue(s.state, d, p.ack);
      WindowKeeps(d1, p.wnd, p.sn, p.ack);
      var s1 := s.(snd := d1.(wnd := p.wnd, wl1 := p.sn, wl2 := p.ack));
      BareKeeps(Established, s1, d.nxt, t.rcv.nxt, ACK, t.rcv.wnd, ok);
    }
  }

  lemma TakenAckKeeps(s: Tcb, p: Packet, now: int, ok: bool)
    requires Sender(s.state, s.snd) && TakesAcks(s.state)
    ensures
      var t := TextAndFin(AckedState(Advance(s, p, now), p, now), p, now, ok);
      Sender(t.state, t.snd) && Extends(s.snd, t.snd)
  {
    var s1 := AckedState(Advance(s, p, now), p, now);
    AdvanceKeeps(s, p, now);
    TextAndFinKeeps(s1, p, now, ok);
    ExtendsTransitive(s.snd, s1.snd, TextAndFin(s1, p, now, ok).snd);
  }

  lemma AckFieldKeeps(s: Tcb, p: Packet, now: int, ok: bool)
    requires Sender(s.state, s.snd) && s.state != Closed && s.state != Listen && s.state != SynSent
    ensures
      var t := AckField(s, p, now, ok);
      Sender(t.state, t.snd) && Extends(s.snd, t.snd)
  {
    var s1 := if s.state == SynReceived then s.(state := Established) else s;
    if s.state == SynReceived && !(s.snd.una <= p.ack <= s.snd.nxt) {
      BareKeeps(s.state, s, p.ack, 0, RST, 0, ok);
    } else if s.state == LastAck {
      FlushKeeps(s.state, s.snd);
    } else if s.state == TimeWait {
    } else if s1.snd.una <= p.ack && s1.snd.nxt < p.ack {
      BareKeeps(s1.state, s1, s.snd.nxt, s.rcv.nxt, ACK, s.rcv.wnd, ok);
    } else {
      TakenAckKeeps(s1, p, now, ok);
    }
  }

  lemma ExtendsTransitive(d: Snd, d1: Snd, d2: Snd)
    requires Extends(d, d1) && Extends(d1, d2)
    requires Numbers(d1)
    ensures Extends(d, d2)
  {
  }

  lemma SynchronizedKeeps(s: Tcb, p: Packet, now: int, ok: bool)
    requires Sender(s.state, s.snd) && s.state != Closed && s.state != Listen && s.state != SynSent
    ensures
      var t := ArriveSynchronized(s, p, now, ok);
      Sender(t.state, t.snd) && Extends(s.snd, t.snd)
  {
    if !Acceptable(s.rcv.nxt, s.rcv.wnd, p.sn, SegLen(p)) {
      BareKeeps(s.state, s, s.snd.nxt, s.rcv.nxt, ACK, s.rcv.wnd, ok);
    } else if p.flag.rst {
      FlushKeeps(s.state, s.snd);
    } else if p.flag.syn {
      FlushKeeps(s.state, s.snd);
      BareKeeps(Closed, Shut(s, RESET), s.snd.nxt, s.rcv.nxt, RST, s.rcv.wnd, ok);
    } else if p.flag.ack {
      AckFieldKeeps(s, p, now, ok);
    }
  }

  lemma ClosedKeeps(s: Tcb, p: Packet, ok: bool)
    requires Sender(s.state, s.snd) && s.state == Closed
    ensures
      var t := ArriveClosed(s, p, ok);
      Sender(t.state, t.snd) && Extends(s.snd, t.snd)
  {
    var ack := Wrap32(p.sn + SegLen(p));
    if p.flag.rst {
      assert ArriveClosed(s, p, ok) == s;
    } else if p.flag.ack {
      assert ArriveClosed(s, p, ok) == Transmit(s, p.ack, 0, RST, 0, [], ok);
      BareKeeps(Closed, s, p.ack, 0, RST, 0, ok);
    } else {
      assert ArriveClosed(s, p, ok) == Transmit(s, 0, ack, RSTACK, 0, [], ok);
      BareKeeps(Closed, s, 0, ack, RSTACK, 0, ok);
    }
  }

  lemma ListenKeeps(s: Tcb, p: Packet, isn: U32, now: int, ok: bool)
    requires Sender(s.state, s.snd) && NoWrap(Start(s.snd, isn)) && s.state == Listen
    ensures
      var t := ArriveListen(s, p, isn, now, ok);
      Sender(t.state, t.snd) && (Opened(s.snd) || Extends(s.snd, t.snd))
  {
    if p.flag.rst {
    } else if p.flag.ack {
      BareKeeps(s.state, s, p.ack, 0, RST, 0, ok);
    } else if p.flag.syn {
      var r := Store(Synchronize(s.rcv, p), p.data).(wnd := BUFFER_SIZE);
      StartKeeps(Listen, s.(state := SynReceived, foreign := p.src, rcv := r), isn, SYNACK, NoTrigger, None, now, ok);
    }
  }

  lemma UnsynchronizedKeeps(s: Tcb, p: Packet, isn: U32, now: int, ok: bool)
    requires Sender(s.state, s.snd) && NoWrap(Start(s.snd, isn)) && (s.state == Closed || s.state == Listen)
    ensures
      var t := Arrive(s, p, isn, now, ok);
      Sender(t.state, t.snd) && ((s.state == Listen && Opened(s.snd)) || Extends(s.snd, t.snd))
  {
    if s.state == Closed {
      ClosedKeeps(s, p, ok);
    } else {
      ListenKeeps(s, p, isn, now, ok);
    }
  }

  lemma ArriveKeeps(s: Tcb, p: Packet, isn: U32, now: int, ok: bool)
    requires Sender(s.state, s.snd) && !Simultaneous(s, p) && NoWrap(Start(s.snd, isn))
    ensures
      var t := Arrive(s, p, isn, now, ok);
      Sender(t.state, t.snd) && ((s.state == Listen && Opened(s.snd)) || Extends(s.snd, t.snd))
  {
    match s.state
    case Closed | Listen => UnsynchronizedKeeps(s, p, isn, now, ok);
    case SynSent => SynSentKeeps(s, p, now, ok);
    case _ => SynchronizedKeeps(s, p, now, ok);
  }

  // ---------------------------------------------------------------- timer

  lemma RetransmitKeeps(s: Tcb, q: seq<Entry>, i: nat, ok: bool)
    requires Sender(s.state, s.snd) && s.state != Listen && i < |q| && (forall e :: e in q ==> Queued(s.snd, e))
    ensures Sender(s.state, Retransmit(s, q[i], ok).snd) && Extends(s.snd, Retransmit(s, q[i], ok).snd)
    ensures forall e :: e in q ==> Queued(Retransmit(s, q[i], ok).snd, e)
  {
    var d := Retransmit(s, q[i], ok).snd;
    forall e | e in q
      ensures Queued(d, e)
    {
      assert Queued(s.snd, e);
      CarriesExtends(s.snd, d, e.sn, e.flag, e.data);
    }
    assert q[i] in q;
    ContentsExtend(s.snd, d);
  }

  /** Retransmitting what is queued, and at most one user timeout. */
  lemma ExpiryKeeps(s: Tcb, q: seq<Entry>, i: nat, now: int, txs: seq<bool>)
    requires Sender(s.state, s.snd) && i < |q| && UserExpired(s, q[i], now)
    ensures
      var (t, del) := TimerLoop(s, q, i, [], now, txs);
      Sender(t.state, t.snd) && Extends(s.snd, t.snd) && del == []
  {
    FlushKeeps(s.state, s.snd);
  }

  lemma {:induction false} TimerLoopKeeps(s: Tcb, q: seq<Entry>, i: nat, now: int, txs: seq<bool>)
    requires Sender(s.state, s.snd) && i <= |q| && (forall e :: e in q ==> Queued(s.snd, e))
    requires s.state == Listen ==> q == []
    ensures
      var (t, del) := TimerLoop(s, q, i, [], now, txs);
      Sender(t.state, t.snd) && Extends(s.snd, t.snd) && del == []
    decreases |q| - i
  {
    if i < |q| {
      if UserExpired(s, q[i], now) {
        ExpiryKeeps(s, q, i, now, txs);
      } else if RetxDue(s, q[i], now) {
        assert Queued(s.snd, q[i]);
        var s1 := Retransmit(s, q[i], Accepts(txs, i));
        RetransmitKeeps(s, q, i, Accepts(txs, i));
        assert s1.state == s.state && TimerLoop(s, q, i, [], now, txs) == TimerLoop(s1, q, i + 1, [], now, txs);
        TimerLoopKeeps(s1, q, i + 1, now, txs);
        ExtendsTransitive(s.snd, s1.snd, TimerLoop(s1, q, i + 1, [], now, txs).0.snd);
      } else {
        TimerLoopKeeps(s, q, i + 1, now, txs);
      }
    }
  }

  /** Nothing in the queue is below SND.UNA: the timer's `queueAck` finds nothing to do. */
  lemma QueueAckIdle(st: State, s: Tcb, now: int)
    requires Sender(st, s.snd)
    ensures QueueAck(s, now).snd == s.snd && QueueAck(s, now).log == s.log
    ensures forall e :: e in s.snd.retx ==> Queued(s.snd, e)
  {
    assert forall e :: e in s.snd.retx ==> Queued(s.snd, e);
    KeepAll(s.snd.retx, s.snd.una);
  }

  /** A timer pass never panics, and its deletion list stays empty because counts are not stored. */
  lemma TimerKeeps(s: Tcb, now: int, txs: seq<bool>)
    requires Sender(s.state, s.snd)
    ensures
      var t := TimerPass(s, now, txs);
      t.Some? && Sender(t.value.state, t.value.snd) && Extends(s.snd, t.value.snd)
  {
    if s.state == TimeWait && s.lastTx + MSL < now {
      FlushKeeps(s.state, s.snd);
    } else {
      QueueAckIdle(s.state, s, now);
      var s1 := QueueAck(s, now);
      TimerLoopKeeps(s1, s.snd.retx, 0, now, txs);
    }
  }
}
