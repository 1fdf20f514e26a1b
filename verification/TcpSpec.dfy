/**
 * Event processing of one TCP endpoint, as functions from control block to control block.
 * Each call below runs under one mutex in the Go program, hence is one atomic step. `ok` and
 * `txs` say which attempts to transmit the lower layers accept; `now` is the clock.
 */
module TcpSpec {
  import opened Words
  import opened TcpTypes

  // ---------------------------------------------------------------- round-trip time

  /** Bounds 1 s and 60 s around 1.7 times the smoothed round-trip time. */
  function CalculateRto(r: Rtt, sample: int): Rtt {
    var srtt := Quot(7 * r.srtt, 10) + Quot(3 * sample, 10);
    var scaled := Quot(17 * srtt, 10);
    Rtt(srtt, if SECOND > scaled then SECOND else if 60 * SECOND < scaled then 60 * SECOND else scaled)
  }

  /** The program's initial values are 10 s. */
  const INITIAL := Rtt(10 * SECOND, 10 * SECOND)

  function RttOf(h: RttHistory): Rtt {
    match h
    case Unmeasured => INITIAL
    case Measured(before, sample) => CalculateRto(RttOf(before), sample)
  }

  // ---------------------------------------------------------------- retransmission queue

  function QueueAdd(s: Tcb, e: Entry): Tcb {
    s.(snd := s.snd.(retx := s.snd.retx + [e]))
  }

  /** The entries that an acknowledgement up to `una` leaves in the queue. */
  function Keep(q: seq<Entry>, una: U32): seq<Entry> {
    if q == [] then []
    else if q[0].sn < una then Keep(q[1..], una)
    else [q[0]] + Keep(q[1..], una)
  }

  function ChanNote(ch: Option<Chan>, outcome: Outcome): seq<Note> {
    if ch.Some? then [Note(ch.value, outcome)] else []
  }

  function AckNotes(q: seq<Entry>, una: U32): seq<Note> {
    if q == [] then []
    else (if q[0].sn < una then ChanNote(q[0].ch, Done) else []) + AckNotes(q[1..], una)
  }

  function Measure(q: seq<Entry>, una: U32, now: int, h: RttHistory): RttHistory {
    if q == [] then h
    else Measure(q[1..], una, now, if q[0].sn < una then Measured(h, now - q[0].last) else h)
  }

  function QueueAck(s: Tcb, now: int): Tcb {
    s.(snd := s.snd.(retx := Keep(s.snd.retx, s.snd.una)),
       rtts := Measure(s.snd.retx, s.snd.una, now, s.rtts),
       log := s.log + AckNotes(s.snd.retx, s.snd.una))
  }

  function FlushNotes(q: seq<Entry>, msg: string): seq<Note> {
    if q == [] then [] else ChanNote(q[0].ch, Fail(msg)) + FlushNotes(q[1..], msg)
  }

  function CmdNote(c: Option<RcvCmd>, outcome: Outcome): seq<Note> {
    if c.Some? then [Note(c.value.ch, outcome)] else []
  }

  function SignalErr(s: Tcb, msg: string): Tcb {
    s.(snd := s.snd.(retx := []), rcv := s.rcv.(cmd := None),
       log := s.log + FlushNotes(s.snd.retx, msg) + CmdNote(s.rcv.cmd, Fail(msg)))
  }

  /** What ends a connection. */
  function Shut(s: Tcb, msg: string): Tcb {
    SignalErr(s, msg).(state := Closed)
  }

  function WithoutTrigger(q: seq<Entry>, t: Trigger): seq<Entry> {
    if q == [] then []
    else if q[0].trigger == t then WithoutTrigger(q[1..], t)
    else [q[0]] + WithoutTrigger(q[1..], t)
  }

  function TriggerNotes(q: seq<Entry>, t: Trigger): seq<Note> {
    if q == [] then []
    else (if q[0].trigger == t then ChanNote(q[0].ch, Done) else []) + TriggerNotes(q[1..], t)
  }

  // ---------------------------------------------------------------- receive buffer

  /** Go's `copy(buf[off:], data)`. */
  function CopyAt(buf: seq<Byte>, off: nat, data: seq<Byte>): (r: seq<Byte>)
    requires off <= |buf|
    ensures |r| == |buf|
    ensures forall i :: 0 <= i < |buf| ==>
      r[i] == if off <= i < off + |data| then data[i - off] else buf[i]
  {
    var n := Min(|buf| - off, |data|);
    buf[..off] + data[..n] + buf[off + n..]
  }

  /** What a pending RECEIVE takes from the buffer. */
  function Handed(r: Rcv): seq<Byte> {
    if r.cmd.None? || r.rxLen == 0 then [] else r.rx[..Min(r.cmd.value.cap, r.rxLen)]
  }

  /** Hands buffered bytes to the pending RECEIVE. The partial case shifts from `rxLen - dlen`. */
  function Drain(r: Rcv): Rcv {
    if r.cmd.None? || r.rxLen == 0 then r
    else
      var dlen := Min(r.cmd.value.cap, r.rxLen);
      var r1 := r.(got := r.got + Handed(r), cmd := None);
      if dlen == r.rxLen then r1.(rxLen := 0, wnd := BUFFER_SIZE)
      else r1.(rx := CopyAt(r.rx, 0, r.rx[r.rxLen - dlen..]), rxLen := r.rxLen - dlen, wnd := Wrap16(r.wnd + dlen))
  }

  function SignalReceive(s: Tcb): Tcb {
    s.(rcv := Drain(s.rcv),
       log := s.log + if s.rcv.rxLen == 0 then [] else CmdNote(s.rcv.cmd, Got(Handed(s.rcv))))
  }

  function SignalCmd(s: Tcb, t: Trigger): Tcb {
    match t
    case OpenTrigger | CloseTrigger =>
      s.(snd := s.snd.(retx := WithoutTrigger(s.snd.retx, t)), log := s.log + TriggerNotes(s.snd.retx, t))
    case ReceiveTrigger => SignalReceive(s)
    case _ => s
  }

  // ---------------------------------------------------------------- transmission

  function Transmit(s: Tcb, sn: U32, ack: U32, flag: Flags, wnd: U16, data: seq<Byte>, ok: bool): Tcb {
    if ok then s.(snd := s.snd.(out := s.snd.out + [Packet(s.local, s.foreign, sn, ack, flag, wnd, data)])) else s
  }

  function SeqFor(s: Tcb, flag: Flags): U32 {
    if flag.syn then s.snd.iss else s.snd.nxt
  }

  function TxHelper(s: Tcb, flag: Flags, data: seq<Byte>, t: Trigger, ch: Option<Chan>, now: int, ok: bool): Tcb {
    var s1 := Transmit(s, SeqFor(s, flag), s.rcv.nxt, flag, s.rcv.wnd, data, ok);
    if ok && Occupies(data, flag) > 0
    then QueueAdd(s1, Entry(data, SeqFor(s, flag), flag, now, now, 0, ch, t))
    else s1
  }

  function Reply(s: Tcb, flag: Flags, now: int, ok: bool): Tcb {
    TxHelper(s, flag, [], NoTrigger, None, now, ok)
  }

  // ---------------------------------------------------------------- user calls

  function Answer(s: Tcb, ch: Chan, outcome: Outcome): Tcb {
    s.(log := s.log + [Note(ch, outcome)])
  }

  const EXISTS := "connection already exists"
  const UNSPECIFIED := "foreign socket unspecified"
  const RESOURCES := "insufficient resources"
  const PENDING := "RECEIVE was already called and data haven't come yet"
  const DRAINED := "no remaning data"
  const SHUTTING := "closing"
  const ENDED := "connection closed"
  const CLOSING := "connection closing"
  const ABSENT := "connection does not exist"
  const RESET := "connection reset"
  const REFUSED := "connection refused"
  const TXFAILED := "transmission failed"
  const EXPIRED := "connection aborted due to user timeout"
  const OVERLIMIT := "retransmission time is over than limit,network may be not connected"

  /** The choice of an initial sequence number. */
  function Start(d: Snd, isn: U32): Snd {
    d.(iss := isn, una := isn, nxt := Wrap32(isn + 1), cuts := {isn, isn + 1})
  }

  function Open(
      s: Tcb, ch: Chan, foreign: Endpoint, active: bool, timeout: int, isn: U32, txs: seq<bool>, now: int): Tcb {
    if s.state != Closed && s.state != Listen then Answer(s, ch, Fail(EXISTS))
    else if !active then Answer(s.(timeout := timeout, state := Listen), ch, Done)
    else if foreign.addr == 0 then Answer(s, ch, Fail(UNSPECIFIED))
    else
      var s1 := s.(timeout := timeout, foreign := foreign, snd := Start(s.snd, isn));
      if true in txs
      then TxHelper(s1, SYN, [], OpenTrigger, Some(ch), now, true).(state := SynSent)
      else Answer(s1, ch, Fail(TXFAILED))
  }

  /** SND.NXT moves past `n` octets of sequence space. */
  function Push(d: Snd, data: seq<Byte>, n: nat): Snd {
    d.(nxt := Wrap32(d.nxt + n), sent := d.sent + data, cuts := d.cuts + {d.nxt + n})
  }

  function SendText(s: Tcb, ch: Chan, data: seq<Byte>, txs: seq<bool>, now: int): Tcb {
    if true in txs
    then
      var s1 := TxHelper(s, ACK, data, SendTrigger, Some(ch), now, true);
      s1.(snd := Push(s1.snd, data, |data|))
    else Answer(s, ch, Fail(TXFAILED))
  }

  /** Too long a buffer is reported but, as in the code, still transmitted. */
  function Send(s: Tcb, ch: Chan, data: seq<Byte>, txs: seq<bool>, now: int): Tcb {
    match s.state
    case Closed | Listen | SynSent | SynReceived => Answer(s, ch, Fail(ABSENT))
    case Established | CloseWait =>
      SendText(if |data| > s.snd.wnd then Answer(s, ch, Fail(RESOURCES)) else s, ch, data, txs, now)
    case _ => Answer(s, ch, Fail(CLOSING))
  }

  function Receive(s: Tcb, ch: Chan, cap: nat): Tcb {
    match s.state
    case Closed | Listen | SynSent | SynReceived => Answer(s, ch, Fail(ABSENT))
    case Established | FinWait1 | FinWait2 | CloseWait =>
      if s.rcv.cmd.Some? then Answer(s, ch, Fail(PENDING))
      else
        var s1 := SignalReceive(s.(rcv := s.rcv.(cmd := Some(RcvCmd(cap, ch)))));
        if s.state == CloseWait && s1.rcv.cmd.Some?
        then Answer(s1.(rcv := s1.rcv.(cmd := None)), ch, Fail(DRAINED))
        else s1
    case _ => Answer(s, ch, Fail(CLOSING))
  }

  function SendFin(s: Tcb, ch: Chan, next: State, txs: seq<bool>, now: int): Tcb {
    if true in txs
    then
      var s1 := TxHelper(s, FINACK, [], CloseTrigger, Some(ch), now, true);
      s1.(state := next, snd := Push(s1.snd, [], 1))
    else Answer(s, ch, Fail(TXFAILED))
  }

  function Close(s: Tcb, ch: Chan, txs: seq<bool>, now: int): Tcb {
    match s.state
    case Closed => Answer(s, ch, Fail(ABSENT))
    case Listen | SynSent => Answer(Shut(s, SHUTTING), ch, Done)
    case SynReceived | Established => SendFin(s, ch, FinWait1, txs, now)
    case CloseWait => SendFin(s, ch, LastAck, txs, now)
    case _ => Answer(s, ch, Fail(CLOSING))
  }

  function Abort(s: Tcb, ok: bool): Tcb {
    match s.state
    case Closed => s
    case Listen | SynSent => Shut(s, RESET)
    case SynReceived | Established | FinWait1 | FinWait2 | CloseWait =>
      Transmit(Shut(s, RESET), s.snd.nxt, 0, RST, 0, [], ok)
    case _ => s.(state := Closed)
  }

  // ---------------------------------------------------------------- SEGMENT ARRIVES

  function Arrive(s: Tcb, p: Packet, isn: U32, now: int, ok: bool): Tcb {
    match s.state
    case Closed => ArriveClosed(s, p, ok)
    case Listen => ArriveListen(s, p, isn, now, ok)
    case SynSent => ArriveSynSent(s, p, now, ok)
    case _ => ArriveSynchronized(s, p, now, ok)
  }

  function ArriveClosed(s: Tcb, p: Packet, ok: bool): Tcb {
    if p.flag.rst then s
    else if !p.flag.ack then Transmit(s, 0, Wrap32(p.sn + SegLen(p)), RSTACK, 0, [], ok)
    else Transmit(s, p.ack, 0, RST, 0, [], ok)
  }

  /** RCV.NXT and IRS from the peer's SYN. */
  function Synchronize(r: Rcv, p: Packet): Rcv {
    r.(nxt := Wrap32(p.sn + 1), irs := p.sn)
  }

  /** Text goes behind what is buffered. */
  function Store(r: Rcv, data: seq<Byte>): Rcv {
    r.(rx := CopyAt(r.rx, r.rxLen, data), rxLen := Wrap16(r.rxLen + |data|))
  }

  function ArriveListen(s: Tcb, p: Packet, isn: U32, now: int, ok: bool): Tcb {
    if p.flag.rst then s
    else if p.flag.ack then Transmit(s, p.ack, 0, RST, 0, [], ok)
    else if p.flag.syn then
      Reply(s.(state := SynReceived, foreign := p.src, snd := Start(s.snd, isn),
               rcv := Store(Synchronize(s.rcv, p), p.data).(wnd := BUFFER_SIZE)), SYNACK, now, ok)
    else s
  }

  /** An acknowledgement that moves SND.UNA takes what it covers off the queue. */
  function Acknowledge(s: Tcb, ack: U32, now: int): Tcb {
    QueueAck(s.(snd := s.snd.(una := ack)), now)
  }

  function SetWindow(s: Tcb, p: Packet): Tcb {
    s.(snd := s.snd.(wnd := p.wnd, wl1 := p.sn, wl2 := p.ack))
  }

  function ArriveSynSent(s: Tcb, p: Packet, now: int, ok: bool): Tcb {
    if p.flag.ack && (p.ack <= s.snd.iss || p.ack > s.snd.nxt) then Transmit(s, p.ack, 0, RST, 0, [], ok)
    else
      var acceptable := p.flag.ack && s.snd.una <= p.ack <= s.snd.nxt;
      if p.flag.rst then
        if acceptable then Shut(s, RESET) else s
      else if !p.flag.syn then s
      else
        var s1 := s.(rcv := Synchronize(s.rcv, p));
        var s2 := if acceptable then Acknowledge(s1, p.ack, now) else s1;
        if s2.snd.una > s2.snd.iss then
          Reply(SignalCmd(SetWindow(s2, p).(state := Established), OpenTrigger), ACK, now, ok)
        else Reply(s2.(state := SynReceived), SYNACK, now, ok)
  }

  /** First check of the synchronized states. `&&` binds tighter than `||` in the non-empty case. */
  predicate Acceptable(nxt: U32, wnd: U16, sn: U32, len: nat) {
    var right := Wrap32(nxt + wnd);
    var last := Wrap32(sn + len - 1);
    if wnd == 0 then len == 0 && sn == nxt
    else
      || (len == 0 && nxt <= sn < right)
      || (len > 0 && nxt <= sn < right)
      || nxt <= last < right
  }

  function ArriveSynchronized(s: Tcb, p: Packet, now: int, ok: bool): Tcb {
    if !Acceptable(s.rcv.nxt, s.rcv.wnd, p.sn, SegLen(p)) then
      if p.flag.rst then s else Reply(s, ACK, now, ok)
    else if p.flag.rst then Shut(s, if s.state == SynReceived then REFUSED else RESET)
    else if p.flag.syn then Reply(Shut(s, RESET), RST, now, ok)
    else if !p.flag.ack then s
    else AckField(s, p, now, ok)
  }

  /** Fifth check, up to the states that stop there. */
  function AckField(s: Tcb, p: Packet, now: int, ok: bool): Tcb {
    if s.state == SynReceived && !(s.snd.una <= p.ack <= s.snd.nxt) then Transmit(s, p.ack, 0, RST, 0, [], ok)
    else if s.state == LastAck then
      if p.ack == s.snd.nxt then Shut(s, ENDED) else s
    else if s.state == TimeWait then
      if p.flag.fin then s.(lastTx := now) else s
    else
      var s1 := if s.state == SynReceived then s.(state := Established) else s;
      if s1.snd.una <= p.ack && s1.snd.nxt < p.ack then Reply(s1, ACK, now, ok)
      else TextAndFin(AckedState(Advance(s1, p, now), p, now), p, now, ok)
  }

  /** The states in which an acknowledgement moves SND.UNA. */
  predicate TakesAcks(s: State) {
    s == Established || s == FinWait1 || s == FinWait2 || s == CloseWait || s == Closing
  }

  /** `SND.UNA` and the send window. */
  function Advance(s: Tcb, p: Packet, now: int): Tcb {
    if s.snd.una < p.ack <= s.snd.nxt then
      var s1 := Acknowledge(s, p.ack, now);
      if s.snd.wl1 < p.sn || (s.snd.wl1 == p.sn && s.snd.wl2 <= p.ack) then SetWindow(s1, p) else s1
    else s
  }

  /** What the acknowledgement does to the closing states. */
  function AckedState(s: Tcb, p: Packet, now: int): Tcb {
    match s.state
    case FinWait1 => if p.ack == s.snd.nxt then s.(state := FinWait2) else s
    case FinWait2 => if s.snd.retx == [] then SignalCmd(s, CloseTrigger) else s
    case Closing => if p.ack == s.snd.nxt then s.(state := TimeWait, lastTx := now) else s
    case _ => s
  }

  predicate TakesText(s: State) {
    s == Established || s == FinWait1 || s == FinWait2
  }

  /** The receiving half when the text of a segment is taken. */
  function Accept(r: Rcv, p: Packet): Rcv {
    Store(r, p.data).(nxt := Wrap32(p.sn + SegLen(p)), wnd := Wrap16(r.wnd - |p.data|))
  }

  /** Seventh and eighth check; text is acknowledged before the FIN beside it is looked at. */
  function TextAndFin(s: Tcb, p: Packet, now: int, ok: bool): Tcb {
    if TakesText(s.state) && |p.data| > 0 then
      Reply(SignalReceive(s.(rcv := Accept(s.rcv, p))), ACK, now, ok)
    else if p.flag.fin then
      var s1 := SignalReceive(s);
      Reply(AfterFin(s1.(rcv := s1.rcv.(nxt := Wrap32(p.sn + 1))), p, now), ACK, now, ok)
    else s
  }

  function AfterFin(s: Tcb, p: Packet, now: int): Tcb {
    match s.state
    case SynReceived | Established => s.(state := CloseWait)
    case FinWait1 => if p.ack == s.snd.nxt then s.(state := TimeWait, lastTx := now) else s.(state := Closing)
    case FinWait2 | TimeWait => s.(state := TimeWait, lastTx := now)
    case _ => s
  }

  // ---------------------------------------------------------------- timer

  /** Strictly increasing and below `n`. */
  predicate Indices(idx: seq<nat>, n: nat) {
    && (forall i, j :: 0 <= i < j < |idx| ==> idx[i] < idx[j])
    && (forall i :: 0 <= i < |idx| ==> idx[i] < n)
  }

  /** The slice without the elements at the listed indices. */
  function RemoveAt(q: seq<Entry>, idx: seq<nat>): seq<Entry>
    requires Indices(idx, |q|)
    decreases |idx|
  {
    if idx == [] then q
    else
      var k := idx[|idx| - 1];
      RemoveAt(q[..k], idx[..|idx| - 1]) + q[k + 1..]
  }

  predicate UserExpired(s: Tcb, e: Entry, now: int) {
    e.first + s.timeout < now
  }

  function Power2(n: nat): nat {
    if n == 0 then 1 else 2 * Power2(n - 1)
  }

  predicate RetxDue(s: Tcb, e: Entry, now: int) {
    e.last + RttOf(s.rtts).rto * Power2(e.retxCount) < now
  }

  function Retransmit(s: Tcb, e: Entry, ok: bool): Tcb {
    Transmit(s, e.sn, s.rcv.nxt, e.flag, s.snd.wnd, e.data, ok)
  }

  /** Whether the lower layers accept the `i`-th transmission of a pass. */
  predicate Accepts(txs: seq<bool>, i: nat) {
    i < |txs| && txs[i]
  }

  /**
   * The loop over a snapshot `q` of the queue, from entry `i`; `del` are the indices marked
   * so far. Counters live in the loop's copy of the entry, so they are never stored.
   */
  function TimerLoop(s: Tcb, q: seq<Entry>, i: nat, del: seq<nat>, now: int, txs: seq<bool>): (r: (Tcb, seq<nat>))
    requires i <= |q| && Indices(del, i)
    ensures Indices(r.1, |q|)
    decreases |q| - i
  {
    if i == |q| then (s, del)
    else if UserExpired(s, q[i], now) then (Shut(s, EXPIRED), del)
    else if !RetxDue(s, q[i], now) then TimerLoop(s, q, i + 1, del, now, txs)
    else if q[i].retxCount + 1 >= MAX_RETX then
      TimerLoop(s.(log := s.log + ChanNote(q[i].ch, Fail(OVERLIMIT))), q, i + 1, del + [i], now, txs)
    else TimerLoop(Retransmit(s, q[i], Accepts(txs, i)), q, i + 1, del, now, txs)
  }

  /** One pass of the timer; `None` is Go's slice-bounds panic in the final removal. */
  function TimerPass(s: Tcb, now: int, txs: seq<bool>): Option<Tcb> {
    if s.state == TimeWait && s.lastTx + MSL < now then Some(Shut(s, EXPIRED))
    else
      var s1 := QueueAck(s, now);
      var (s2, del) := TimerLoop(s1, s1.snd.retx, 0, [], now, txs);
      if Indices(del, |s2.snd.retx|) then Some(s2.(snd := s2.snd.(retx := RemoveAt(s2.snd.retx, del)))) else None
  }
}
