/** Runs of one endpoint: user calls, arbitrary segments and timer passes in any order. */
module TcpRun {
  import opened Words
  import opened TcpTypes
  import opened TcpSpec
  import opened TcpQueue
  import opened TcpSender

  datatype Event =
    | OpenCall(ch: Chan, foreign: Endpoint, active: bool, timeout: int, isn: U32, txs: seq<bool>)
    | SendCall(ch: Chan, data: seq<Byte>, txs: seq<bool>)
    | ReceiveCall(ch: Chan, cap: nat)
    | CloseCall(ch: Chan, txs: seq<bool>)
    | AbortCall(ok: bool)
    | Segment(p: Packet, isn: U32, ok: bool)
    | TimerTick(txs: seq<bool>)

  /** `None` when the step panics. */
  function Step(s: Tcb, e: Event, now: int): Option<Tcb> {
    match e
    case OpenCall(ch, foreign, active, timeout, isn, txs) => Some(Open(s, ch, foreign, active, timeout, isn, txs, now))
    case SendCall(ch, data, txs) => Some(Send(s, ch, data, txs, now))
    case ReceiveCall(ch, cap) => Some(Receive(s, ch, cap))
    case CloseCall(ch, txs) => Some(Close(s, ch, txs, now))
    case AbortCall(ok) => Some(Abort(s, ok))
    case Segment(p, isn, ok) => Some(Arrive(s, p, isn, now, ok))
    case TimerTick(txs) => TimerPass(s, now, txs)
  }

  /** What `Newpcb` makes; the initial receive window is a parameter. */
  function Fresh(local: Endpoint, window: U16): Tcb {
    Tcb(Closed, local, NOWHERE, Snd(0, 0, 0, 0, 0, 0, [], [], [], {}),
        Rcv(0, 0, window, seq(BUFFER_SIZE, i => 0), 0, None, []), 0, 0, Unmeasured, [])
  }

  /**
   * One incarnation, no simultaneous open, no sequence wrap: a closed endpoint opens only if it has transmitted
   * nothing that occupies sequence space. A listening one may open actively, and a failed OPEN may be repeated.
   */
  predicate Single(s: Tcb, e: Event) {
    match e
    case OpenCall(_, _, _, _, isn, _) => (s.state == Closed ==> Unused(s.snd)) && NoWrap(Start(s.snd, isn))
    case SendCall(_, data, _) => NoWrap(s.snd.(sent := s.snd.sent + data))
    case Segment(p, isn, _) => !Simultaneous(s, p) && NoWrap(Start(s.snd, isn))
    case _ => NoWrap(s.snd)
  }

  /** A new initial sequence number replaces one that was never used. */
  predicate Renews(s: Tcb, e: Event) {
    Opened(s.snd) && Unused(s.snd) && (s.state == Listen || (s.state == Closed && e.OpenCall?))
  }

  lemma StepKeepsSender(s: Tcb, e: Event, now: int)
    requires Sender(s.state, s.snd) && Single(s, e)
    ensures Step(s, e, now).Some?
    ensures
      var t := Step(s, e, now).value;
      Sender(t.state, t.snd) && (Renews(s, e) || Extends(s.snd, t.snd))
  {
    match e
    case OpenCall(ch, foreign, active, timeout, isn, txs) => OpenKeeps(s, ch, foreign, active, timeout, isn, txs, now);
    case SendCall(ch, data, txs) => SendKeeps(s, ch, data, txs, now);
    case ReceiveCall(ch, cap) => assert Receive(s, ch, cap).snd == s.snd && Receive(s, ch, cap).state == s.state;
    case CloseCall(ch, txs) => CloseKeeps(s, ch, txs, now);
    case AbortCall(ok) => AbortKeeps(s, ok);
    case Segment(p, isn, ok) => ArriveKeeps(s, p, isn, now, ok);
    case TimerTick(txs) => TimerKeeps(s, now, txs);
  }

  datatype Timed = Timed(e: Event, now: int)

  /** The state after a run. */
  function Run(s: Tcb, es: seq<Timed>): Option<Tcb>
    decreases |es|
  {
    if es == [] then Some(s)
    else
      match Run(s, es[..|es| - 1])
      case None => None
      case Some(t) => Step(t, es[|es| - 1].e, es[|es| - 1].now)
  }

  ghost predicate SingleRun(s: Tcb, es: seq<Timed>)
    decreases |es|
  {
    es != [] ==>
      && SingleRun(s, es[..|es| - 1])
      && (Run(s, es[..|es| - 1]).Some? ==> Single(Run(s, es[..|es| - 1]).value, es[|es| - 1].e))
  }

  /**
   * Whatever segments arrive, no step panics, queue and wire agree with the stream, the queue
   * is contiguous up to SND.NXT, and the closing states know where our FIN is.
   */
  lemma {:induction false} EndpointSafe(local: Endpoint, window: U16, es: seq<Timed>)
    requires SingleRun(Fresh(local, window), es)
    ensures Run(Fresh(local, window), es).Some?
    ensures
      var t := Run(Fresh(local, window), es).value;
      && Sender(t.state, t.snd)
      && (t.state in {FinWait1, Closing, LastAck} ==>
            t.snd.una <= t.snd.nxt - 1 && t.snd.retx[|t.snd.retx| - 1].flag == FINACK
            && t.snd.retx[|t.snd.retx| - 1].sn == t.snd.nxt - 1)
      && (t.state in {FinWait2, TimeWait} ==> t.snd.una == t.snd.nxt && t.snd.retx == [])
    decreases |es|
  {
    if es != [] {
      EndpointSafe(local, window, es[..|es| - 1]);
      var s := Run(Fresh(local, window), es[..|es| - 1]).value;
      StepKeepsSender(s, es[|es| - 1].e, es[|es| - 1].now);
    }
    var t := Run(Fresh(local, window), es).value;
    if t.state in {FinWait1, Closing, LastAck} {
      var last := |t.snd.retx| - 1;
      assert Linked(t.snd.retx, t.snd.nxt, last) && Queued(t.snd, t.snd.retx[last]);
    }
  }
}
