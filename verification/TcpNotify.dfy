/**
 * Answers to user calls. A channel is owed an answer while it waits in the retransmission queue
 * or as the pending RECEIVE; an answer moves it to the log. No step loses or invents a debt.
 */
module TcpNotify {
  import opened Words
  import opened TcpTypes
  import opened TcpSpec
  import opened TcpSender
  import opened TcpRun

  function One(x: Option<Chan>, c: Chan): nat {
    if x == Some(c) then 1 else 0
  }

  /** How often `c` has been answered. */
  function Logged(log: seq<Note>, c: Chan): nat {
    if log == [] then 0 else One(Some(log[0].ch), c) + Logged(log[1..], c)
  }

  /** How many queued segments will answer `c`. */
  function Waiting(q: seq<Entry>, c: Chan): nat {
    if q == [] then 0 else One(q[0].ch, c) + Waiting(q[1..], c)
  }

  function CmdWaiting(cmd: Option<RcvCmd>, c: Chan): nat {
    if cmd.Some? && cmd.value.ch == c then 1 else 0
  }

  /** Answers to `c` given and outstanding. */
  function Owed(s: Tcb, c: Chan): nat {
    Logged(s.log, c) + Waiting(s.snd.retx, c) + CmdWaiting(s.rcv.cmd, c)
  }

  lemma LoggedConcat(a: seq<Note>, b: seq<Note>, c: Chan)
    ensures Logged(a + b, c) == Logged(a, c) + Logged(b, c)
  {
    if a == [] {
      assert a + b == b;
    } else {
      assert (a + b)[1..] == a[1..] + b;
      LoggedConcat(a[1..], b, c);
    }
  }

  lemma WaitingConcat(a: seq<Entry>, b: seq<Entry>, c: Chan)
    ensures Waiting(a + b, c) == Waiting(a, c) + Waiting(b, c)
  {
    if a == [] {
      assert a + b == b;
    } else {
      assert (a + b)[1..] == a[1..] + b;
      WaitingConcat(a[1..], b, c);
    }
  }

  // ---------------------------------------------------------------- answers given by the queue

  lemma {:induction false} AckConserves(q: seq<Entry>, una: U32, c: Chan)
    ensures Logged(AckNotes(q, una), c) + Waiting(Keep(q, una), c) == Waiting(q, c)
  {
    if q != [] {
      AckConserves(q[1..], una, c);
      LoggedConcat(if q[0].sn < una then ChanNote(q[0].ch, Done) else [], AckNotes(q[1..], una), c);
      WaitingConcat([q[0]], Keep(q[1..], una), c);
    }
  }

  lemma {:induction false} FlushConserves(q: seq<Entry>, msg: string, c: Chan)
    ensures Logged(FlushNotes(q, msg), c) == Waiting(q, c)
  {
    if q != [] {
      FlushConserves(q[1..], msg, c);
      LoggedConcat(ChanNote(q[0].ch, Fail(msg)), FlushNotes(q[1..], msg), c);
    }
  }

  lemma {:induction false} TriggerConserves(q: seq<Entry>, t: Trigger, c: Chan)
    ensures Logged(TriggerNotes(q, t), c) + Waiting(WithoutTrigger(q, t), c) == Waiting(q, c)
  {
    if q != [] {
      TriggerConserves(q[1..], t, c);
      LoggedConcat(if q[0].trigger == t then ChanNote(q[0].ch, Done) else [], TriggerNotes(q[1..], t), c);
      WaitingConcat([q[0]], WithoutTrigger(q[1..], t), c);
    }
  }

  // ---------------------------------------------------------------- building blocks of the steps

  lemma QueueAckConserves(s: Tcb, now: int, c: Chan)
    ensures Owed(QueueAck(s, now), c) == Owed(s, c)
  {
    AckConserves(s.snd.retx, s.snd.una, c);
    LoggedConcat(s.log, AckNotes(s.snd.retx, s.snd.una), c);
  }

  lemma ErrConserves(s: Tcb, msg: string, c: Chan)
    ensures Owed(SignalErr(s, msg), c) == Owed(s, c)
  {
    FlushConserves(s.snd.retx, msg, c);
    LoggedConcat(s.log, FlushNotes(s.snd.retx, msg), c);
    LoggedConcat(s.log + FlushNotes(s.snd.retx, msg), CmdNote(s.rcv.cmd, Fail(msg)), c);
  }

  lemma ReceiveConserves(s: Tcb, c: Chan)
    ensures Owed(SignalReceive(s), c) == Owed(s, c)
  {
    if s.rcv.cmd.Some? && s.rcv.rxLen > 0 {
      LoggedConcat(s.log, CmdNote(s.rcv.cmd, Got(Handed(s.rcv))), c);
    } else {
      assert SignalReceive(s).log == s.log;
    }
  }

  lemma RemoveConserves(s: Tcb, t: Trigger, c: Chan)
    requires t == OpenTrigger || t == CloseTrigger
    ensures Owed(SignalCmd(s, t), c) == Owed(s, c)
  {
    TriggerConserves(s.snd.retx, t, c);
    LoggedConcat(s.log, TriggerNotes(s.snd.retx, t), c);
  }

  lemma TxConserves(s: Tcb, flag: Flags, data: seq<Byte>, t: Trigger, ch: Option<Chan>, now: int, ok: bool, c: Chan)
    ensures
      Owed(TxHelper(s, flag, data, t, ch, now, ok), c) ==
      Owed(s, c) + if ok && Occupies(data, flag) > 0 then One(ch, c) else 0
  {
    WaitingConcat(s.snd.retx, [Entry(data, SeqFor(s, flag), flag, now, now, 0, ch, t)], c);
  }

  lemma AnswerAccrues(s: Tcb, ch: Chan, o: Outcome, c: Chan)
    ensures Owed(Answer(s, ch, o), c) == Owed(s, c) + One(Some(ch), c)
  {
    LoggedConcat(s.log, [Note(ch, o)], c);
  }

  // ---------------------------------------------------------------- steps

  /**
   * The answers a call creates. SEND creates two when the text is longer than the send window,
   * and none for an empty text that could be transmitted.
   */
  function Accrues(s: Tcb, e: Event, c: Chan): nat {
    match e
    case OpenCall(ch, _, _, _, _, _) => One(Some(ch), c)
    case SendCall(ch, data, txs) =>
      if s.state != Established && s.state != CloseWait then One(Some(ch), c)
      else if |data| > s.snd.wnd then 2 * One(Some(ch), c)
      else if data == [] && true in txs then 0
      else One(Some(ch), c)
    case ReceiveCall(ch, _) => One(Some(ch), c)
    case CloseCall(ch, _) => One(Some(ch), c)
    case _ => 0
  }

  lemma OpenAccrues(
      s: Tcb, ch: Chan, foreign: Endpoint, active: bool, timeout: int, isn: U32, txs: seq<bool>, now: int,
      c: Chan)
    ensures Owed(Open(s, ch, foreign, active, timeout, isn, txs, now), c) == Owed(s, c) + One(Some(ch), c)
  {
    if s.state != Closed && s.state != Listen {
      AnswerAccrues(s, ch, Fail(EXISTS), c);
    } else if !active {
      AnswerAccrues(s.(timeout := timeout, state := Listen), ch, Done, c);
    } else if foreign.addr == 0 {
      AnswerAccrues(s, ch, Fail(UNSPECIFIED), c);
    } else {
      var s1 := s.(timeout := timeout, foreign := foreign, snd := Start(s.snd, isn));
      TxConserves(s1, SYN, [], OpenTrigger, Some(ch), now, true, c);
      AnswerAccrues(s1, ch, Fail(TXFAILED), c);
    }
  }

  lemma SendAccrues(s: Tcb, ch: Chan, data: seq<Byte>, txs: seq<bool>, now: int, c: Chan)
    ensures Owed(Send(s, ch, data, txs, now), c) == Owed(s, c) + Accrues(s, SendCall(ch, data, txs), c)
  {
    if s.state == Established || s.state == CloseWait {
      var s1 := if |data| > s.snd.wnd then Answer(s, ch, Fail(RESOURCES)) else s;
      assert Send(s, ch, data, txs, now) == SendText(s1, ch, data, txs, now);
      AnswerAccrues(s, ch, Fail(RESOURCES), c);
      SendTextAccrues(s1, ch, data, txs, now, c);
    } else {
      AnswerAccrues(s, ch, Fail(ABSENT), c);
      AnswerAccrues(s, ch, Fail(CLOSING), c);
    }
  }

  lemma SendTextAccrues(s: Tcb, ch: Chan, data: seq<Byte>, txs: seq<bool>, now: int, c: Chan)
    ensures
      Owed(SendText(s, ch, data, txs, now), c) == Owed(s, c) + if data == [] && true in txs then 0 else One(Some(ch), c)
  {
    AnswerAccrues(s, ch, Fail(TXFAILED), c);
    TxConserves(s, ACK, data, SendTrigger, Some(ch), now, true, c);
  }

  lemma ReceiveAccrues(s: Tcb, ch: Chan, cap: nat, c: Chan)
    ensures Owed(Receive(s, ch, cap), c) == Owed(s, c) + One(Some(ch), c)
  {
    if !TakesText(s.state) && s.state != CloseWait {
      AnswerAccrues(s, ch, Fail(ABSENT), c);
      AnswerAccrues(s, ch, Fail(CLOSING), c);
    } else if s.rcv.cmd.Some? {
      AnswerAccrues(s, ch, Fail(PENDING), c);
    } else {
      var s1 := s.(rcv := s.rcv.(cmd := Some(RcvCmd(cap, ch))));
      ReceiveConserves(s1, c);
      var s2 := SignalReceive(s1);
      AnswerAccrues(s2.(rcv := s2.rcv.(cmd := None)), ch, Fail(DRAINED), c);
    }
  }

  lemma SendFinAccrues(s: Tcb, ch: Chan, next: State, txs: seq<bool>, now: int, c: Chan)
    ensures Owed(SendFin(s, ch, next, txs, now), c) == Owed(s, c) + One(Some(ch), c)
  {
    TxConserves(s, FINACK, [], CloseTrigger, Some(ch), now, true, c);
    AnswerAccrues(s, ch, Fail(TXFAILED), c);
  }

  lemma CloseAccrues(s: Tcb, ch: Chan, txs: seq<bool>, now: int, c: Chan)
    ensures Owed(Close(s, ch, txs, now), c) == Owed(s, c) + One(Some(ch), c)
  {
    match s.state
    case Listen | SynSent =>
      ErrConserves(s, SHUTTING, c);
      AnswerAccrues(Shut(s, SHUTTING), ch, Done, c);
    case SynReceived | Established => SendFinAccrues(s, ch, FinWait1, txs, now, c);
    case CloseWait => SendFinAccrues(s, ch, LastAck, txs, now, c);
    case _ =>
      AnswerAccrues(s, ch, Fail(ABSENT), c);
      AnswerAccrues(s, ch, Fail(CLOSING), c);
  }

  lemma FinConserves(s: Tcb, p: Packet, now: int, ok: bool, c: Chan)
    ensures
      var s1 := SignalReceive(s);
      Owed(Reply(AfterFin(s1.(rcv := s1.rcv.(nxt := Wrap32(p.sn + 1))), p, now), ACK, now, ok), c) == Owed(s, c)
  {
    ReceiveConserves(s, c);
    var s1 := SignalReceive(s);
    var s2 := AfterFin(s1.(rcv := s1.rcv.(nxt := Wrap32(p.sn + 1))), p, now);
    assert s2.log == s1.log && s2.snd == s1.snd && s2.rcv.cmd == s1.rcv.cmd;
    TxConserves(s2, ACK, [], NoTrigger, None, now, ok, c);
  }

  lemma TextConserves(s: Tcb, p: Packet, now: int, ok: bool, c: Chan)
    ensures Owed(Reply(SignalReceive(s.(rcv := Accept(s.rcv, p))), ACK, now, ok), c) == Owed(s, c)
  {
    var s1 := s.(rcv := Accept(s.rcv, p));
    assert Owed(s1, c) == Owed(s, c);
    ReceiveConserves(s1, c);
    TxConserves(SignalReceive(s1), ACK, [], NoTrigger, None, now, ok, c);
  }

  lemma TextAndFinConserves(s: Tcb, p: Packet, now: int, ok: bool, c: Chan)
    ensures Owed(TextAndFin(s, p, now, ok), c) == Owed(s, c)
  {
    var t := TextAndFin(s, p, now, ok);
    if TakesText(s.state) && |p.data| > 0 {
      assert t == Reply(SignalReceive(s.(rcv := Accept(s.rcv, p))), ACK, now, ok);
      TextConserves(s, p, now, ok, c);
    } else if p.flag.fin {
      var s1 := SignalReceive(s);
      assert t == Reply(AfterFin(s1.(rcv := s1.rcv.(nxt := Wrap32(p.sn + 1))), p, now), ACK, now, ok);
      FinConserves(s, p, now, ok, c);
    } else {
      assert t == s;
    }
  }

  lemma AdvanceConserves(s: Tcb, p: Packet, now: int, c: Chan)
    ensures Owed(Advance(s, p, now), c) == Owed(s, c)
  {
    if s.snd.una < p.ack <= s.snd.nxt {
      QueueAckConserves(s.(snd := s.snd.(una := p.ack)), now, c);
    }
  }

  lemma AckedStateConserves(s: Tcb, p: Packet, now: int, c: Chan)
    ensures Owed(AckedState(s, p, now), c) == Owed(s, c)
  {
    if s.state == FinWait2 {
      RemoveConserves(s, CloseTrigger, c);
    } else {
      var t := AckedState(s, p, now);
      assert t.log == s.log && t.snd == s.snd && t.rcv == s.rcv;
    }
  }

  lemma SynAcceptedConserves(s: Tcb, p: Packet, now: int, ok: bool, c: Chan)
    ensures Owed(Reply(SignalCmd(SetWindow(s, p).(state := Established), OpenTrigger), ACK, now, ok), c) == Owed(s, c)
    ensures Owed(Reply(s.(state := SynReceived), SYNACK, now, ok), c) == Owed(s, c)
  {
    RemoveConserves(SetWindow(s, p).(state := Established), OpenTrigger, c);
    TxConserves(s.(state := SynReceived), SYNACK, [], NoTrigger, None, now, ok, c);
  }

  lemma SynSentConserves(s: Tcb, p: Packet, now: int, ok: bool, c: Chan)
    ensures Owed(ArriveSynSent(s, p, now, ok), c) == Owed(s, c)
  {
    if p.flag.ack && (p.ack <= s.snd.iss || p.ack > s.snd.nxt) {
    } else if p.flag.rst {
      ErrConserves(s, RESET, c);
    } else if p.flag.syn {
      var s1 := s.(rcv := Synchronize(s.rcv, p));
      QueueAckConserves(s1.(snd := s1.snd.(una := p.ack)), now, c);
      var s2 := if p.flag.ack && s.snd.una <= p.ack <= s.snd.nxt then Acknowledge(s1, p.ack, now) else s1;
      assert Owed(s2, c) == Owed(s, c);
      SynAcceptedConserves(s2, p, now, ok, c);
    }
  }

  lemma AckFieldConserves(s: Tcb, p: Packet, now: int, ok: bool, c: Chan)
    ensures Owed(AckField(s, p, now, ok), c) == Owed(s, c)
  {
    var s1 := if s.state == SynReceived then s.(state := Established) else s;
    if s.state == SynReceived && !(s.snd.una <= p.ack <= s.snd.nxt) {
    } else if s.state == LastAck {
      ErrConserves(s, ENDED, c);
    } else if s.state == TimeWait || (s1.snd.una <= p.ack && s1.snd.nxt < p.ack) {
    } else {
      AdvanceConserves(s1, p, now, c);
      AckedStateConserves(Advance(s1, p, now), p, now, c);
      TextAndFinConserves(AckedState(Advance(s1, p, now), p, now), p, now, ok, c);
    }
  }

  lemma SynchronizedConserves(s: Tcb, p: Packet, now: int, ok: bool, c: Chan)
    ensures Owed(ArriveSynchronized(s, p, now, ok), c) == Owed(s, c)
  {
    ErrConserves(s, RESET, c);
    ErrConserves(s, REFUSED, c);
    if Acceptable(s.rcv.nxt, s.rcv.wnd, p.sn, SegLen(p)) && !p.flag.rst && !p.flag.syn && p.flag.ack {
      AckFieldConserves(s, p, now, ok, c);
    }
  }

  lemma ArriveConserves(s: Tcb, p: Packet, isn: U32, now: int, ok: bool, c: Chan)
    ensures Owed(Arrive(s, p, isn, now, ok), c) == Owed(s, c)
  {
    match s.state
    case Closed =>
    case Listen =>
      var r := Store(Synchronize(s.rcv, p), p.data).(wnd := BUFFER_SIZE);
      var s1 := s.(state := SynReceived, foreign := p.src, snd := Start(s.snd, isn), rcv := r);
      TxConserves(s1, SYNACK, [], NoTrigger, None, now, ok, c);
    case SynSent => SynSentConserves(s, p, now, ok, c);
    case _ => SynchronizedConserves(s, p, now, ok, c);
  }

  // ---------------------------------------------------------------- timer

  /** No entry carries a retransmission count: the timer never stores one. */
  predicate NoCounts(q: seq<Entry>) {
    forall e :: e in q ==> e.retxCount == 0
  }

  lemma {:induction false} TimerLoopConserves(s: Tcb, q: seq<Entry>, i: nat, now: int, txs: seq<bool>, c: Chan)
    requires i <= |q| && NoCounts(q)
    ensures
      var (t, del) := TimerLoop(s, q, i, [], now, txs);
      Owed(t, c) == Owed(s, c) && del == []
    decreases |q| - i
  {
    if i < |q| {
      assert q[i] in q;
      if UserExpired(s, q[i], now) {
        ErrConserves(s, EXPIRED, c);
      } else if RetxDue(s, q[i], now) {
        TimerLoopConserves(Retransmit(s, q[i], Accepts(txs, i)), q, i + 1, now, txs, c);
      } else {
        TimerLoopConserves(s, q, i + 1, now, txs, c);
      }
    }
  }

  lemma KeepNoCounts(q: seq<Entry>, una: U32)
    requires NoCounts(q)
    ensures NoCounts(Keep(q, una))
  {
    if q != [] {
      assert q[0] in q;
      KeepNoCounts(q[1..], una);
    }
  }

  lemma TimerConserves(s: Tcb, now: int, txs: seq<bool>, c: Chan)
    requires NoCounts(s.snd.retx)
    ensures TimerPass(s, now, txs).Some? && Owed(TimerPass(s, now, txs).value, c) == Owed(s, c)
  {
    if s.state == TimeWait && s.lastTx + MSL < now {
      ErrConserves(s, EXPIRED, c);
      assert TimerPass(s, now, txs) == Some(Shut(s, EXPIRED));
    } else {
      QueueAckConserves(s, now, c);
      KeepNoCounts(s.snd.retx, s.snd.una);
      var s1 := QueueAck(s, now);
      TimerLoopConserves(s1, s1.snd.retx, 0, now, txs, c);
      var t := TimerLoop(s1, s1.snd.retx, 0, [], now, txs).0;
      assert t.(snd := t.snd.(retx := t.snd.retx)) == t;
      assert TimerPass(s, now, txs) == Some(t);
    }
  }

  /** The law of conservation of answers. */
  lemma StepAccrues(s: Tcb, e: Event, now: int, c: Chan)
    requires NoCounts(s.snd.retx)
    ensures Step(s, e, now).Some? && Owed(Step(s, e, now).value, c) == Owed(s, c) + Accrues(s, e, c)
  {
    match e
    case OpenCall(ch, foreign, active, timeout, isn, txs) =>
      OpenAccrues(s, ch, foreign, active, timeout, isn, txs, now, c);
    case SendCall(ch, data, txs) => SendAccrues(s, ch, data, txs, now, c);
    case ReceiveCall(ch, cap) => ReceiveAccrues(s, ch, cap, c);
    case CloseCall(ch, txs) => CloseAccrues(s, ch, txs, now, c);
    case AbortCall(ok) => ErrConserves(s, RESET, c);
    case Segment(p, isn, ok) => ArriveConserves(s, p, isn, now, ok, c);
    case TimerTick(txs) => TimerConserves(s, now, txs, c);
  }

  // ---------------------------------------------------------------- runs

  lemma WithoutNoCounts(q: seq<Entry>, t: Trigger)
    requires NoCounts(q)
    ensures NoCounts(WithoutTrigger(q, t))
  {
    if q != [] {
      assert q[0] in q;
      WithoutNoCounts(q[1..], t);
    }
  }

  /** Nobody waits. */
  predicate Settled(s: Tcb) {
    s.snd.retx == [] && s.rcv.cmd == None
  }

  /** What a segment does to the queue of a synchronized connection. */
  predicate QueueShape(s: Tcb, t: Tcb, p: Packet) {
    if t.state == Closed then Settled(t)
    else t.snd.retx == s.snd.retx || t.snd.retx == Keep(s.snd.retx, p.ack)
  }

  lemma TextAndFinQueue(s: Tcb, p: Packet, now: int, ok: bool)
    ensures TextAndFin(s, p, now, ok).snd.retx == s.snd.retx
    ensures s.state != Closed ==> TextAndFin(s, p, now, ok).state != Closed
  {
  }

  lemma AckFieldQueue(s: Tcb, p: Packet, now: int, ok: bool)
    requires s.state != Closed && s.state != Listen && s.state != SynSent
    ensures QueueShape(s, AckField(s, p, now, ok), p)
  {
    var s1 := if s.state == SynReceived then s.(state := Established) else s;
    var s2 := AckedState(Advance(s1, p, now), p, now);
    assert s2.state != Closed && (s2.snd.retx == s.snd.retx || s2.snd.retx == Keep(s.snd.retx, p.ack));
    TextAndFinQueue(s2, p, now, ok);
  }

  lemma SynchronizedQueue(s: Tcb, p: Packet, now: int, ok: bool)
    requires s.state != Closed && s.state != Listen && s.state != SynSent
    ensures QueueShape(s, ArriveSynchronized(s, p, now, ok), p)
  {
    AckFieldQueue(s, p, now, ok);
  }

  lemma ArriveNoCounts(s: Tcb, p: Packet, isn: U32, now: int, ok: bool)
    requires NoCounts(s.snd.retx)
    ensures NoCounts(Arrive(s, p, isn, now, ok).snd.retx)
  {
    KeepNoCounts(s.snd.retx, p.ack);
    match s.state
    case Closed | Listen =>
    case SynSent =>
      WithoutNoCounts(Keep(s.snd.retx, p.ack), OpenTrigger);
      WithoutNoCounts(s.snd.retx, OpenTrigger);
    case _ => SynchronizedQueue(s, p, now, ok);
  }

  lemma {:induction false} TimerLoopNoCounts(s: Tcb, q: seq<Entry>, i: nat, now: int, txs: seq<bool>)
    requires i <= |q| && NoCounts(q) && NoCounts(s.snd.retx)
    ensures NoCounts(TimerLoop(s, q, i, [], now, txs).0.snd.retx)
    decreases |q| - i
  {
    if i < |q| && !UserExpired(s, q[i], now) {
      assert q[i] in q;
      var s1 := if RetxDue(s, q[i], now) then Retransmit(s, q[i], Accepts(txs, i)) else s;
      assert s1.snd.retx == s.snd.retx;
      TimerLoopNoCounts(s1, q, i + 1, now, txs);
    }
  }

  lemma TimerNoCounts(s: Tcb, now: int, txs: seq<bool>)
    requires NoCounts(s.snd.retx)
    ensures TimerPass(s, now, txs).Some? && NoCounts(TimerPass(s, now, txs).value.snd.retx)
  {
    KeepNoCounts(s.snd.retx, s.snd.una);
    var s1 := QueueAck(s, now);
    TimerLoopNoCounts(s1, s1.snd.retx, 0, now, txs);
    TimerLoopConserves(s1, s1.snd.retx, 0, now, txs, 0);
  }

  lemma CallNoCounts(s: Tcb, e: Event, now: int)
    requires NoCounts(s.snd.retx) && !e.Segment? && !e.TimerTick?
    ensures Step(s, e, now).Some? && NoCounts(Step(s, e, now).value.snd.retx)
  {
  }

  lemma StepNoCounts(s: Tcb, e: Event, now: int)
    requires NoCounts(s.snd.retx)
    ensures Step(s, e, now).Some? && NoCounts(Step(s, e, now).value.snd.retx)
  {
    match e
    case Segment(p, isn, ok) => ArriveNoCounts(s, p, isn, now, ok);
    case TimerTick(txs) => TimerNoCounts(s, now, txs);
    case _ => CallNoCounts(s, e, now);
  }

  /** How many answers the calls of a run create for channel `c`. */
  function Created(s: Tcb, es: seq<Timed>, c: Chan): nat
    decreases |es|
  {
    if es == [] then 0
    else
      Created(s, es[..|es| - 1], c) +
      match Run(s, es[..|es| - 1])
      case None => 0
      case Some(t) => Accrues(t, es[|es| - 1].e, c)
  }

  /** In every run, answers given and outstanding are exactly those that its calls have created. */
  lemma {:induction false} AnswersAreCreated(local: Endpoint, window: U16, es: seq<Timed>, c: Chan)
    ensures Run(Fresh(local, window), es).Some?
    ensures
      var t := Run(Fresh(local, window), es).value;
      NoCounts(t.snd.retx) && Owed(t, c) == Created(Fresh(local, window), es, c)
    decreases |es|
  {
    if es != [] {
      AnswersAreCreated(local, window, es[..|es| - 1], c);
      var s := Run(Fresh(local, window), es[..|es| - 1]).value;
      StepNoCounts(s, es[|es| - 1].e, es[|es| - 1].now);
      StepAccrues(s, es[|es| - 1].e, es[|es| - 1].now, c);
    }
  }

  /** How many calls of a run use channel `c`. */
  function Uses(es: seq<Timed>, c: Chan): nat
    decreases |es|
  {
    if es == [] then 0
    else
      Uses(es[..|es| - 1], c) +
      match es[|es| - 1].e
      case OpenCall(ch, _, _, _, _, _) => One(Some(ch), c)
      case SendCall(ch, _, _) => One(Some(ch), c)
      case ReceiveCall(ch, _) => One(Some(ch), c)
      case CloseCall(ch, _) => One(Some(ch), c)
      case _ => 0
  }

  /** A text longer than the send window, in a state that transmits text. */
  predicate Oversize(s: Tcb, e: Event) {
    e.SendCall? && (s.state == Established || s.state == CloseWait) && |e.data| > s.snd.wnd
  }

  predicate ModestRun(s: Tcb, es: seq<Timed>)
    decreases |es|
  {
    es != [] ==>
      && ModestRun(s, es[..|es| - 1])
      && (Run(s, es[..|es| - 1]).Some? ==> !Oversize(Run(s, es[..|es| - 1]).value, es[|es| - 1].e))
  }

  /**
   * In any run from a fresh control block, whatever the segments and however often it is
   * reopened: nothing panics, and a channel that one call uses gets at most one answer, and
   * none while the call is still waiting.
   */
  lemma AtMostOneAnswer(local: Endpoint, window: U16, es: seq<Timed>, c: Chan)
    requires ModestRun(Fresh(local, window), es)
    ensures Run(Fresh(local, window), es).Some?
    ensures
      var t := Run(Fresh(local, window), es).value;
      NoCounts(t.snd.retx) && Owed(t, c) <= Uses(es, c)
  {
    AnswersAreCreated(local, window, es, c);
    CreatedPerUse(local, window, es, c);
  }

  /** Unless a text exceeds the send window, no call creates more than one answer. */
  lemma {:induction false} CreatedPerUse(local: Endpoint, window: U16, es: seq<Timed>, c: Chan)
    requires ModestRun(Fresh(local, window), es)
    ensures Created(Fresh(local, window), es, c) <= Uses(es, c)
    decreases |es|
  {
    if es != [] {
      CreatedPerUse(local, window, es[..|es| - 1], c);
    }
  }

  /** The window check of SEND falls through: such a call is answered twice, in every such state. */
  lemma OversizeAnsweredTwice(s: Tcb, ch: Chan, data: seq<Byte>, txs: seq<bool>, now: int)
    requires s.state == Established || s.state == CloseWait
    ensures Owed(Send(s, ch, data, txs, now), ch) == Owed(s, ch) + 2 <==> |data| > s.snd.wnd
  {
    SendAccrues(s, ch, data, txs, now, ch);
  }

  /** The one way to CLOSED that forgets to answer. */
  predicate SilentAbort(s: Tcb, e: Event) {
    e.AbortCall? && (s.state == Closing || s.state == LastAck || s.state == TimeWait)
  }

  /**
   * After any run, ABORT leaves nobody waiting exactly if it finds nobody whom it forgets: not in CLOSING and
   * LAST-ACK, where a CLOSE waits, and in TIME-WAIT only if no RECEIVE is pending. There it only closes.
   */
  lemma AbortSettlesIff(local: Endpoint, window: U16, es: seq<Timed>, ok: bool)
    requires SingleRun(Fresh(local, window), es)
    ensures Run(Fresh(local, window), es).Some?
    ensures
      var s := Run(Fresh(local, window), es).value;
      && (SilentAbort(s, AbortCall(ok)) ==> Abort(s, ok) == s.(state := Closed))
      && (s.state != Closed ==>
            (Settled(Abort(s, ok)) <==>
             s.state != Closing && s.state != LastAck && (s.state == TimeWait ==> s.rcv.cmd == None)))
  {
    EndpointSafe(local, window, es);
  }

  /** In FIN-WAIT-2 and TIME-WAIT every call but a pending RECEIVE has been answered, the CLOSE among them. */
  lemma ClosedIsAnswered(local: Endpoint, window: U16, es: seq<Timed>, c: Chan)
    requires SingleRun(Fresh(local, window), es)
    ensures Run(Fresh(local, window), es).Some?
    ensures
      var t := Run(Fresh(local, window), es).value;
      t.state == FinWait2 || t.state == TimeWait ==>
        Logged(t.log, c) + CmdWaiting(t.rcv.cmd, c) == Created(Fresh(local, window), es, c)
  {
    EndpointSafe(local, window, es);
    AnswersAreCreated(local, window, es, c);
  }

  lemma {:induction false} TimerLoopSettles(s: Tcb, q: seq<Entry>, i: nat, now: int, txs: seq<bool>)
    requires i <= |q| && NoCounts(q) && s.state != Closed
    ensures
      var (t, del) := TimerLoop(s, q, i, [], now, txs);
      t.state == Closed ==> Settled(t)
    decreases |q| - i
  {
    if i < |q| && !UserExpired(s, q[i], now) {
      assert q[i] in q;
      TimerLoopSettles(if RetxDue(s, q[i], now) then Retransmit(s, q[i], Accepts(txs, i)) else s, q, i + 1, now, txs);
    }
  }

  lemma ArriveSettles(s: Tcb, p: Packet, isn: U32, now: int, ok: bool)
    requires s.state != Closed
    ensures Arrive(s, p, isn, now, ok).state == Closed ==> Settled(Arrive(s, p, isn, now, ok))
  {
    if s.state != Listen && s.state != SynSent {
      SynchronizedQueue(s, p, now, ok);
    }
  }

  /** Every way into CLOSED answers everybody, except ABORT in CLOSING, LAST-ACK and TIME-WAIT, which answers nobody. */
  lemma ClosingAnswersAll(s: Tcb, e: Event, now: int)
    requires NoCounts(s.snd.retx) && s.state != Closed
    ensures Step(s, e, now).Some?
    ensures
      var t := Step(s, e, now).value;
      t.state == Closed ==>
        if SilentAbort(s, e) then t == s.(state := Closed) else Settled(t)
  {
    match e
    case Segment(p, isn, ok) => ArriveSettles(s, p, isn, now, ok);
    case TimerTick(txs) => TimerSettles(s, now, txs);
    case _ => CallSettles(s, e, now);
  }

  lemma TimerSettles(s: Tcb, now: int, txs: seq<bool>)
    requires NoCounts(s.snd.retx) && s.state != Closed
    ensures TimerPass(s, now, txs).Some?
    ensures TimerPass(s, now, txs).value.state == Closed ==> Settled(TimerPass(s, now, txs).value)
  {
    KeepNoCounts(s.snd.retx, s.snd.una);
    var s1 := QueueAck(s, now);
    TimerLoopSettles(s1, s1.snd.retx, 0, now, txs);
    TimerLoopConserves(s1, s1.snd.retx, 0, now, txs, 0);
  }

  lemma CallSettles(s: Tcb, e: Event, now: int)
    requires s.state != Closed && !e.Segment? && !e.TimerTick?
    ensures Step(s, e, now).Some?
    ensures
      var t := Step(s, e, now).value;
      t.state == Closed ==>
        if SilentAbort(s, e) then t == s.(state := Closed) else Settled(t)
  {
  }
}
