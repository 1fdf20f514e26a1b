/**
 * The protocol control block as the program has it: an object whose methods update its fields.
 * Every method is proved to do to the fields what the function of the same name in `TcpSpec`
 * does to their abstraction.
 */
module PcbClass {
  import opened Words
  import opened TcpTypes
  import Spec = TcpSpec
  import Run = TcpRun

  // ---------------------------------------------------------------- lists by index

  lemma RemoveAtSnoc(q: seq<Entry>, e: Entry, idx: seq<nat>)
    requires Spec.Indices(idx, |q|)
    ensures Spec.Indices(idx, |q| + 1) && Spec.RemoveAt(q + [e], idx) == Spec.RemoveAt(q, idx) + [e]
  {
    var r := q + [e];
    if idx != [] {
      var k := idx[|idx| - 1];
      assert r[..k] == q[..k] && r[k + 1..] == q[k + 1..] + [e];
    }
  }

  lemma RemoveAtLast(q: seq<Entry>, e: Entry, idx: seq<nat>, n: nat)
    requires Spec.Indices(idx, n) && n == |q|
    ensures Spec.Indices(idx + [n], n + 1) && Spec.RemoveAt(q + [e], idx + [n]) == Spec.RemoveAt(q, idx)
  {
    var r, jdx := q + [e], idx + [n];
    assert jdx[..|idx|] == idx && jdx[|jdx| - 1] == n;
    assert r[..n] == q && r[n + 1..] == [];
  }

  lemma KeepSnoc(q: seq<Entry>, e: Entry, una: U32)
    ensures Spec.Keep(q + [e], una) == Spec.Keep(q, una) + if e.sn < una then [] else [e]
  {
    if q == [] {
      assert q + [e] == [e];
    } else {
      assert (q + [e])[1..] == q[1..] + [e];
      KeepSnoc(q[1..], e, una);
    }
  }

  lemma WithoutSnoc(q: seq<Entry>, e: Entry, t: Trigger)
    ensures Spec.WithoutTrigger(q + [e], t) == Spec.WithoutTrigger(q, t) + if e.trigger == t then [] else [e]
  {
    if q == [] {
      assert q + [e] == [e];
    } else {
      assert (q + [e])[1..] == q[1..] + [e];
      WithoutSnoc(q[1..], e, t);
    }
  }

  /** What is still to be logged, regrouped. */
  lemma Regroup<T>(log: seq<T>, note: seq<T>, rest: seq<T>)
    ensures log + (note + rest) == (log + note) + rest
    ensures log + ([] + rest) == log + rest
  {
    assert [] + rest == rest;
  }

  lemma Tail<T>(q: seq<T>, i: nat)
    requires i < |q|
    ensures q[i..][1..] == q[i + 1..] && q[i..][0] == q[i] && q[..i + 1] == q[..i] + [q[i]]
  {
  }

  /** One step of a loop that collects the indices of `q` to be removed. */
  lemma ScanStep(q: seq<Entry>, i: nat, idx: seq<nat>)
    requires i < |q| && Spec.Indices(idx, i)
    ensures q[i..][1..] == q[i + 1..] && q[i..][0] == q[i] && q[..i + 1] == q[..i] + [q[i]]
    ensures Spec.Indices(idx, i + 1) && Spec.RemoveAt(q[..i + 1], idx) == Spec.RemoveAt(q[..i], idx) + [q[i]]
    ensures Spec.Indices(idx + [i], i + 1) && Spec.RemoveAt(q[..i + 1], idx + [i]) == Spec.RemoveAt(q[..i], idx)
  {
    var b, c := q[..i], q[..i + 1];
    assert c == b + [q[i]];
    RemoveAtSnoc(b, q[i], idx);
    RemoveAtLast(b, q[i], idx, i);
    Tail(q, i);
  }

  // One step of the loop of `queueAck`: indices, answers, samples.

  /** Removing the collected indices leaves what `una` does not cover. */
  ghost predicate Collected(q: seq<Entry>, i: nat, idx: seq<nat>, una: U32)
    requires i <= |q|
  {
    Spec.Indices(idx, i) && Spec.RemoveAt(q[..i], idx) == Spec.Keep(q[..i], una)
  }

  lemma AckIndices(q: seq<Entry>, i: nat, idx: seq<nat>, una: U32)
    requires i < |q| && Collected(q, i, idx, una)
    ensures q[i].sn < una ==> Collected(q, i + 1, idx + [i], una)
    ensures q[i].sn >= una ==> Collected(q, i + 1, idx, una)
  {
    ScanStep(q, i, idx);
    KeepSnoc(q[..i], q[i], una);
  }

  /** What is logged and measured so far leads to `logged` and `measured` in the end. */
  ghost predicate Leads(
      q: seq<Entry>, i: nat, una: U32, now: int, log: seq<Note>, h: RttHistory, logged: seq<Note>,
      measured: RttHistory)
    requires i <= |q|
  {
    log + Spec.AckNotes(q[i..], una) == logged && Spec.Measure(q[i..], una, now, h) == measured
  }

  lemma LeadsOn(
      q: seq<Entry>, i: nat, una: U32, now: int, log: seq<Note>, h: RttHistory, logged: seq<Note>,
      measured: RttHistory)
    requires i < |q| && Leads(q, i, una, now, log, h, logged, measured)
    ensures q[i].sn < una ==>
      Leads(q, i + 1, una, now, log + Spec.ChanNote(q[i].ch, Done), Measured(h, now - q[i].last), logged, measured)
    ensures q[i].sn >= una ==> Leads(q, i + 1, una, now, log, h, logged, measured)
  {
    Tail(q, i);
    Regroup(log, Spec.ChanNote(q[i].ch, Done), Spec.AckNotes(q[i + 1..], una));
  }

  lemma LeadsThere(
      q: seq<Entry>, una: U32, now: int, log: seq<Note>, h: RttHistory, logged: seq<Note>,
      measured: RttHistory)
    requires Leads(q, |q|, una, now, log, h, logged, measured)
    ensures log == logged && h == measured
  {
    assert log + [] == log;
  }

  /** `removeRetx`: the pieces between the listed indices, appended one after the other. */
  method RemoveRetx(data: seq<Entry>, indexs: seq<nat>) returns (ret: seq<Entry>)
    requires Spec.Indices(indexs, |data|)
    ensures ret == Spec.RemoveAt(data, indexs)
  {
    if |indexs| == 0 {
      return data;
    }
    ret := data[..indexs[0]];
    assert indexs[..1][..0] == [];
    for i := 1 to |indexs|
      invariant ret == Spec.RemoveAt(data[..indexs[i - 1]], indexs[..i - 1])
    {
      ret := ret + data[indexs[i - 1] + 1..indexs[i]];
      assert indexs[..i][..i - 1] == indexs[..i - 1];
      assert data[..indexs[i]][..indexs[i - 1]] == data[..indexs[i - 1]];
      assert data[..indexs[i]][indexs[i - 1] + 1..] == data[indexs[i - 1] + 1..indexs[i]];
    }
    ret := ret + data[indexs[|indexs| - 1] + 1..];
  }

  /** The globals `srtt` and `rto`. */
  class Estimator {
    var srtt: int
    var rto: int
    ghost var rtts: RttHistory

    ghost predicate Valid()
      reads this
    {
      Rtt(srtt, rto) == Spec.RttOf(rtts)
    }

    constructor ()
      ensures Valid() && rtts == Unmeasured
    {
      srtt, rto, rtts := 10 * SECOND, 10 * SECOND, Unmeasured;
    }

    method CalculateRto(rtt: int)
      requires Valid()
      modifies this
      ensures Valid() && rtts == Measured(old(rtts), rtt)
    {
      srtt := Quot(7 * srtt, 10) + Quot(3 * rtt, 10);
      if SECOND > Quot(17 * srtt, 10) {
        rto := SECOND;
      } else if 60 * SECOND < Quot(17 * srtt, 10) {
        rto := 60 * SECOND;
      } else {
        rto := Quot(17 * srtt, 10);
      }
      rtts := Measured(rtts, rtt);
    }
  }

  class Pcb {
    var state: State
    const local: Endpoint
    var foreign: Endpoint
    var iss: U32
    var una: U32
    var sndNxt: U32
    var sndWnd: U16
    var wl1: U32
    var wl2: U32
    var irs: U32
    var rcvNxt: U32
    var rcvWnd: U16
    const rxQueue: array<Byte>
    var rxLen: U16
    var retxQueue: seq<Entry>
    var rcvCmd: Option<RcvCmd>
    var timeout: int
    var lastTxTime: int
    const clock: Estimator
    // History.
    ghost var out: seq<Packet>
    ghost var sent: seq<Byte>
    ghost var cuts: set<int>
    ghost var got: seq<Byte>
    ghost var log: seq<Note>

    ghost predicate Valid() {
      rxQueue.Length == BUFFER_SIZE
    }

    ghost function Abs(): Tcb
      reads this, rxQueue, clock
      requires Valid()
    {
      Tcb(state, local, foreign,
          Snd(iss, una, sndNxt, sndWnd, wl1, wl2, retxQueue, out, sent, cuts),
          Rcv(irs, rcvNxt, rcvWnd, rxQueue[..], rxLen, rcvCmd, got),
          timeout, lastTxTime, clock.rtts, log)
    }

    constructor (at: Endpoint, window: U16)
      ensures Valid() && clock.Valid() && fresh(rxQueue) && fresh(clock) && Abs() == Run.Fresh(at, window)
    {
      state, local, foreign := Closed, at, NOWHERE;
      iss, una, sndNxt, sndWnd, wl1, wl2 := 0, 0, 0, 0, 0, 0;
      irs, rcvNxt, rcvWnd, rxLen := 0, 0, window, 0;
      rxQueue := new Byte[BUFFER_SIZE](i => 0);
      retxQueue, rcvCmd, timeout, lastTxTime := [], None, 0, 0;
      clock := new Estimator();
      out, sent, cuts, got, log := [], [], {}, [], [];
    }

    // -------------------------------------------------------------- queue

    ghost method Notify(ch: Option<Chan>, o: Outcome)
      modifies this`log
      ensures log == old(log) + Spec.ChanNote(ch, o)
    {
      log := log + Spec.ChanNote(ch, o);
    }

    /** One turn of the loop of `queueAck`. */
    method AckEntry(
        q: seq<Entry>, i: nat, now: int, deleteIndex: seq<nat>, ghost logged: seq<Note>,
        ghost measured: RttHistory)
      returns (indexes: seq<nat>)
      requires clock.Valid() && i < |q| && Collected(q, i, deleteIndex, una)
      requires Leads(q, i, una, now, log, clock.rtts, logged, measured)
      modifies this`log, clock
      ensures clock.Valid() && Collected(q, i + 1, indexes, una)
      ensures Leads(q, i + 1, una, now, log, clock.rtts, logged, measured)
    {
      LeadsOn(q, i, una, now, log, clock.rtts, logged, measured);
      AckIndices(q, i, deleteIndex, una);
      indexes := deleteIndex;
      if q[i].sn < una {
        indexes := indexes + [i];
        Notify(q[i].ch, Done);
        clock.CalculateRto(now - q[i].last);
      }
    }

    /** Answers what `una` covers and collects its indices. */
    method CollectAcked(now: int) returns (deleteIndex: seq<nat>)
      requires clock.Valid()
      modifies this`log, clock
      ensures clock.Valid()
      ensures log == old(log) + Spec.AckNotes(retxQueue, una)
      ensures clock.rtts == Spec.Measure(retxQueue, una, now, old(clock.rtts))
      ensures Spec.Indices(deleteIndex, |retxQueue|)
      ensures Spec.RemoveAt(retxQueue, deleteIndex) == Spec.Keep(retxQueue, una)
    {
      var q := retxQueue;
      deleteIndex := [];
      ghost var logged := log + Spec.AckNotes(q, una);
      ghost var measured := Spec.Measure(q, una, now, clock.rtts);
      assert q[0..] == q && q[..|q|] == q;
      for i := 0 to |q|
        invariant clock.Valid()
        invariant Leads(q, i, una, now, log, clock.rtts, logged, measured)
        invariant Collected(q, i, deleteIndex, una)
      {
        deleteIndex := AckEntry(q, i, now, deleteIndex, logged, measured);
      }
      LeadsThere(q, una, now, log, clock.rtts, logged, measured);
    }

    method QueueAck(now: int)
      requires Valid() && clock.Valid()
      modifies this, clock
      ensures clock.Valid() && Abs() == Spec.QueueAck(old(Abs()), now)
    {
      var deleteIndex := CollectAcked(now);
      retxQueue := RemoveRetx(retxQueue, deleteIndex);
    }

    /** Answers every entry of the queue with the error. */
    method FlushQueue(msg: string)
      requires Valid()
      modifies this`log
      ensures log == old(log) + Spec.FlushNotes(retxQueue, msg)
    {
      var q := retxQueue;
      assert q[0..] == q;
      for i := 0 to |q|
        invariant log + Spec.FlushNotes(q[i..], msg) == old(log) + Spec.FlushNotes(q, msg)
      {
        Tail(q, i);
        Regroup(log, Spec.ChanNote(q[i].ch, Fail(msg)), Spec.FlushNotes(q[i + 1..], msg));
        Notify(q[i].ch, Fail(msg));
      }
    }

    method SignalErr(msg: string)
      requires Valid()
      modifies this
      ensures Abs() == Spec.SignalErr(old(Abs()), msg)
    {
      FlushQueue(msg);
      retxQueue := [];
      if rcvCmd.Some? {
        Notify(Some(rcvCmd.value.ch), Fail(msg));
      }
      rcvCmd := None;
    }

    /** Answers what waits for `t` and collects its indices. */
    method CollectTriggered(t: Trigger) returns (deleteIndex: seq<nat>)
      requires Valid()
      modifies this`log
      ensures log == old(log) + Spec.TriggerNotes(retxQueue, t)
      ensures Spec.Indices(deleteIndex, |retxQueue|)
      ensures Spec.RemoveAt(retxQueue, deleteIndex) == Spec.WithoutTrigger(retxQueue, t)
    {
      var q := retxQueue;
      deleteIndex := [];
      for i := 0 to |q|
        invariant log + Spec.TriggerNotes(q[i..], t) == old(log) + Spec.TriggerNotes(q, t)
        invariant Spec.Indices(deleteIndex, i) && Spec.RemoveAt(q[..i], deleteIndex) == Spec.WithoutTrigger(q[..i], t)
      {
        ScanStep(q, i, deleteIndex);
        WithoutSnoc(q[..i], q[i], t);
        Regroup(log, Spec.ChanNote(q[i].ch, Done), Spec.TriggerNotes(q[i + 1..], t));
        if q[i].trigger == t {
          Notify(q[i].ch, Done);
          deleteIndex := deleteIndex + [i];
        }
      }
      assert q[..|q|] == q;
    }

    /** `signalCmd` for OPEN and CLOSE. */
    method Remove(t: Trigger)
      requires Valid() && (t == OpenTrigger || t == CloseTrigger)
      modifies this
      ensures Abs() == Spec.SignalCmd(old(Abs()), t)
    {
      var deleteIndex := CollectTriggered(t);
      retxQueue := RemoveRetx(retxQueue, deleteIndex);
    }

    /** Go's `copy(rxQueue[off:], data)`; source and target may overlap. */
    method Copy(off: nat, data: seq<Byte>)
      requires Valid() && off <= BUFFER_SIZE
      modifies rxQueue
      ensures rxQueue[..] == Spec.CopyAt(old(rxQueue[..]), off, data)
    {
      var n := Min(rxQueue.Length - off, |data|);
      forall i | off <= i < off + n {
        rxQueue[i] := data[i - off];
      }
    }

    method SignalReceive()
      requires Valid()
      modifies this, rxQueue
      ensures Abs() == Spec.SignalReceive(old(Abs()))
    {
      if rcvCmd.Some? && rxLen > 0 {
        var dlen := Min(rcvCmd.value.cap, rxLen);
        Notify(Some(rcvCmd.value.ch), Got(rxQueue[..dlen]));
        HandOver(dlen);
      }
    }

    /** `dlen` bytes leave the buffer; what is left is shifted from `rxLen - dlen`. */
    method HandOver(dlen: nat)
      requires Valid() && rcvCmd.Some? && rxLen > 0 && dlen == Min(rcvCmd.value.cap, rxLen)
      modifies this`got, this`rxLen, this`rcvWnd, this`rcvCmd, rxQueue
      ensures Abs() == old(Abs()).(rcv := Spec.Drain(old(Abs()).rcv))
    {
      assert rxQueue[..dlen] == rxQueue[..][..dlen];
      got := got + rxQueue[..dlen];
      rcvCmd := None;
      if dlen == rxLen {
        rxLen := 0;
        rcvWnd := BUFFER_SIZE;
      } else {
        Shift(dlen);
      }
    }

    method Shift(dlen: nat)
      requires Valid() && dlen < rxLen
      modifies this`rxLen, this`rcvWnd, rxQueue
      ensures
        var r := old(Abs()).rcv;
        Abs() == old(Abs()).(rcv := r.(rx := Spec.CopyAt(r.rx, 0, r.rx[r.rxLen - dlen..]), rxLen := r.rxLen - dlen,
                                       wnd := Wrap16(r.wnd + dlen)))
    {
      var rest := rxQueue[rxLen - dlen..];
      assert rest == rxQueue[..][rxLen - dlen..];
      Copy(0, rest);
      rxLen := rxLen - dlen;
      rcvWnd := Wrap16(rcvWnd + dlen);
    }

    // -------------------------------------------------------------- transmission

    /** `ok` is the answer of the layers below. */
    method TxHandler(sn: U32, ack: U32, flag: Flags, wnd: U16, data: seq<Byte>, ok: bool)
      requires Valid()
      modifies this
      ensures Abs() == Spec.Transmit(old(Abs()), sn, ack, flag, wnd, data, ok)
    {
      if ok {
        out := out + [Packet(local, foreign, sn, ack, flag, wnd, data)];
      }
    }

    method QueueAdd(sn: U32, flag: Flags, data: seq<Byte>, trigger: Trigger, ch: Option<Chan>, now: int)
      requires Valid()
      modifies this
      ensures Abs() == Spec.QueueAdd(old(Abs()), Entry(data, sn, flag, now, now, 0, ch, trigger))
    {
      retxQueue := retxQueue + [Entry(data, sn, flag, now, now, 0, ch, trigger)];
    }

    method TxHelper(flag: Flags, data: seq<Byte>, trigger: Trigger, ch: Option<Chan>, now: int, ok: bool)
      requires Valid()
      modifies this
      ensures Abs() == Spec.TxHelper(old(Abs()), flag, data, trigger, ch, now, ok)
    {
      var sn := sndNxt;
      if flag.syn {
        sn := iss;
      }
      TxHandler(sn, rcvNxt, flag, rcvWnd, data, ok);
      if !ok {
        return;
      }
      if flag.syn || flag.fin || |data| > 0 {
        QueueAdd(sn, flag, data, trigger, ch, now);
      }
    }

    // -------------------------------------------------------------- user calls

    method Open(ch: Chan, remote: Endpoint, active: bool, limit: int, isn: U32, txs: seq<bool>, now: int)
      requires Valid() && |txs| == 3
      modifies this
      ensures Abs() == Spec.Open(old(Abs()), ch, remote, active, limit, isn, txs, now)
    {
      if state != Closed && state != Listen {
        Notify(Some(ch), Fail(Spec.EXISTS));
        return;
      }
      if !active {
        timeout := limit;
        state := Listen;
        Notify(Some(ch), Done);
        return;
      }
      if remote.addr == 0 {
        Notify(Some(ch), Fail(Spec.UNSPECIFIED));
        return;
      }
      timeout := limit;
      foreign := remote;
      assert Abs() == old(Abs()).(timeout := limit, foreign := remote);
      ChooseIss(isn);
      SendSyn(ch, txs, now);
    }

    method ChooseIss(isn: U32)
      requires Valid()
      modifies this
      ensures Abs() == old(Abs()).(snd := Spec.Start(old(Abs()).snd, isn))
    {
      iss, una, sndNxt := isn, isn, Wrap32(isn + 1);
      cuts := {isn, isn + 1};
    }

    /** Up to three attempts to transmit the SYN of an active OPEN. */
    method SendSyn(ch: Chan, txs: seq<bool>, now: int)
      requires Valid() && |txs| == 3
      modifies this
      ensures
        var s := old(Abs());
        Abs() == if true in txs then Spec.TxHelper(s, SYN, [], OpenTrigger, Some(ch), now, true).(state := SynSent)
                 else Spec.Answer(s, ch, Fail(Spec.TXFAILED))
    {
      for i := 0 to 3
        invariant Abs() == old(Abs()) && true !in txs[..i]
      {
        TxHelper(SYN, [], OpenTrigger, Some(ch), now, txs[i]);
        if txs[i] {
          state := SynSent;
          return;
        }
      }
      assert txs[..3] == txs;
      Notify(Some(ch), Fail(Spec.TXFAILED));
    }

    /** SND.NXT moves past what was transmitted. */
    method PushNxt(ghost data: seq<Byte>, n: nat)
      requires Valid()
      modifies this
      ensures Abs() == old(Abs()).(snd := Spec.Push(old(Abs()).snd, data, n))
    {
      cuts := cuts + {sndNxt + n};
      sndNxt := Wrap32(sndNxt + n);
      sent := sent + data;
    }

    /** Up to three attempts to transmit text. */
    method SendText(ch: Chan, data: seq<Byte>, txs: seq<bool>, now: int)
      requires Valid() && |txs| == 3
      modifies this
      ensures Abs() == Spec.SendText(old(Abs()), ch, data, txs, now)
    {
      for i := 0 to 3
        invariant Abs() == old(Abs()) && true !in txs[..i]
      {
        TxHelper(ACK, data, SendTrigger, Some(ch), now, txs[i]);
        if txs[i] {
          PushNxt(data, |data|);
          return;
        }
      }
      assert txs[..3] == txs;
      Notify(Some(ch), Fail(Spec.TXFAILED));
    }

    method Send(ch: Chan, data: seq<Byte>, txs: seq<bool>, now: int)
      requires Valid() && |txs| == 3
      modifies this
      ensures Abs() == Spec.Send(old(Abs()), ch, data, txs, now)
    {
      match state {
        case Closed | Listen | SynSent | SynReceived =>
          Notify(Some(ch), Fail(Spec.ABSENT));
        case Established | CloseWait =>
          if |data| > sndWnd {
            Notify(Some(ch), Fail(Spec.RESOURCES));
          }
          SendText(ch, data, txs, now);
        case _ =>
          Notify(Some(ch), Fail(Spec.CLOSING));
      }
    }

    method Receive(ch: Chan, cap: nat)
      requires Valid()
      modifies this, rxQueue
      ensures Abs() == Spec.Receive(old(Abs()), ch, cap)
    {
      match state {
        case Closed | Listen | SynSent | SynReceived =>
          Notify(Some(ch), Fail(Spec.ABSENT));
        case Established | FinWait1 | FinWait2 =>
          if rcvCmd.Some? {
            Notify(Some(ch), Fail(Spec.PENDING));
            return;
          }
          rcvCmd := Some(RcvCmd(cap, ch));
          SignalReceive();
        case CloseWait =>
          if rcvCmd.Some? {
            Notify(Some(ch), Fail(Spec.PENDING));
            return;
          }
          rcvCmd := Some(RcvCmd(cap, ch));
          SignalReceive();
          if rcvCmd.Some? {
            rcvCmd := None;
            Notify(Some(ch), Fail(Spec.DRAINED));
          }
        case _ =>
          Notify(Some(ch), Fail(Spec.CLOSING));
      }
    }

    method SendFin(ch: Chan, next: State, txs: seq<bool>, now: int)
      requires Valid() && |txs| == 3
      modifies this
      ensures Abs() == Spec.SendFin(old(Abs()), ch, next, txs, now)
    {
      for i := 0 to 3
        invariant Abs() == old(Abs()) && true !in txs[..i]
      {
        TxHelper(FINACK, [], CloseTrigger, Some(ch), now, txs[i]);
        if txs[i] {
          state := next;
          PushNxt([], 1);
          return;
        }
      }
      assert txs[..3] == txs;
      Notify(Some(ch), Fail(Spec.TXFAILED));
    }

    method Close(ch: Chan, txs: seq<bool>, now: int)
      requires Valid() && |txs| == 3
      modifies this
      ensures Abs() == Spec.Close(old(Abs()), ch, txs, now)
    {
      match state {
        case Closed =>
          Notify(Some(ch), Fail(Spec.ABSENT));
        case Listen | SynSent =>
          SignalErr(Spec.SHUTTING);
          state := Closed;
          Notify(Some(ch), Done);
        case SynReceived | Established =>
          SendFin(ch, FinWait1, txs, now);
        case CloseWait =>
          SendFin(ch, LastAck, txs, now);
        case _ =>
          Notify(Some(ch), Fail(Spec.CLOSING));
      }
    }

    method Abort(ok: bool)
      requires Valid()
      modifies this
      ensures Abs() == Spec.Abort(old(Abs()), ok)
    {
      match state {
        case Closed =>
        case Listen | SynSent =>
          SignalErr(Spec.RESET);
          state := Closed;
        case SynReceived | Established | FinWait1 | FinWait2 | CloseWait =>
          SignalErr(Spec.RESET);
          state := Closed;
          TxHandler(sndNxt, 0, RST, 0, [], ok);
        case _ =>
          state := Closed;
      }
    }

    // -------------------------------------------------------------- SEGMENT ARRIVES

    method SegmentArrives(p: Packet, isn: U32, now: int, ok: bool)
      requires Valid() && clock.Valid()
      modifies this, rxQueue, clock
      ensures clock.Valid() && Abs() == Spec.Arrive(old(Abs()), p, isn, now, ok)
    {
      match state {
        case Closed =>
          if p.flag.rst {
            return;
          }
          if !p.flag.ack {
            TxHandler(0, Wrap32(p.sn + SegLen(p)), RSTACK, 0, [], ok);
            return;
          }
          TxHandler(p.ack, 0, RST, 0, [], ok);
        case Listen =>
          ArriveListen(p, isn, now, ok);
        case SynSent =>
          ArriveSynSent(p, now, ok);
        case _ =>
          ArriveSynchronized(p, now, ok);
      }
    }

    /** Text goes behind what is buffered. */
    method Store(data: seq<Byte>)
      requires Valid()
      modifies this`rxLen, rxQueue
      ensures Abs() == old(Abs()).(rcv := Spec.Store(old(Abs()).rcv, data))
    {
      Copy(rxLen, data);
      rxLen := Wrap16(rxLen + |data|);
    }

    method ArriveListen(p: Packet, isn: U32, now: int, ok: bool)
      requires Valid()
      modifies this, rxQueue
      ensures Abs() == Spec.ArriveListen(old(Abs()), p, isn, now, ok)
    {
      if p.flag.rst {
        return;
      }
      if p.flag.ack {
        TxHandler(p.ack, 0, RST, 0, [], ok);
        return;
      }
      if p.flag.syn {
        AcceptSyn(p, isn);
        TxHelper(SYNACK, [], NoTrigger, None, now, ok);
      }
    }

    method AcceptSyn(p: Packet, isn: U32)
      requires Valid()
      modifies this, rxQueue
      ensures
        var s := old(Abs());
        Abs() == s.(state := SynReceived, foreign := p.src, snd := Spec.Start(s.snd, isn),
                    rcv := Spec.Store(Spec.Synchronize(s.rcv, p), p.data).(wnd := BUFFER_SIZE))
    {
      TakeFirst(p);
      foreign := p.src;
      ChooseIss(isn);
      state := SynReceived;
    }

    /** The receiving half after the SYN that a passive OPEN waits for. */
    method TakeFirst(p: Packet)
      requires Valid()
      modifies this`rxLen, this`rcvNxt, this`rcvWnd, this`irs, rxQueue
      ensures
        var s := old(Abs());
        Abs() == s.(rcv := Spec.Store(Spec.Synchronize(s.rcv, p), p.data).(wnd := BUFFER_SIZE))
    {
      Store(p.data);
      rcvWnd := BUFFER_SIZE;
      rcvNxt := Wrap32(p.sn + 1);
      irs := p.sn;
    }

    method ArriveSynSent(p: Packet, now: int, ok: bool)
      requires Valid() && clock.Valid()
      modifies this, rxQueue, clock
      ensures clock.Valid() && Abs() == Spec.ArriveSynSent(old(Abs()), p, now, ok)
    {
      var acceptable := false;
      if p.flag.ack {
        if p.ack <= iss || p.ack > sndNxt {
          TxHandler(p.ack, 0, RST, 0, [], ok);
          return;
        }
        if una <= p.ack && p.ack <= sndNxt {
          acceptable := true;
        }
      }
      if p.flag.rst {
        if acceptable {
          SignalErr(Spec.RESET);
          state := Closed;
        }
        return;
      }
      if p.flag.syn {
        TakeSyn(p, acceptable, now);
        SynTaken(p, now, ok);
      }
    }

    method TakeSyn(p: Packet, acceptable: bool, now: int)
      requires Valid() && clock.Valid()
      modifies this, clock
      ensures clock.Valid()
      ensures
        var s1 := old(Abs()).(rcv := Spec.Synchronize(old(Abs()).rcv, p));
        Abs() == if acceptable then Spec.Acknowledge(s1, p.ack, now) else s1
    {
      rcvNxt := Wrap32(p.sn + 1);
      irs := p.sn;
      if acceptable {
        una := p.ack;
        QueueAck(now);
      }
    }

    /** ESTABLISHED if our SYN has been acknowledged, else SYN-RECEIVED. */
    method SynTaken(p: Packet, now: int, ok: bool)
      requires Valid()
      modifies this
      ensures
        var s := old(Abs());
        Abs() == if s.snd.una > s.snd.iss
                 then Spec.Reply(Spec.SignalCmd(Spec.SetWindow(s, p).(state := Established), OpenTrigger), ACK, now, ok)
                 else Spec.Reply(s.(state := SynReceived), SYNACK, now, ok)
    {
      if una > iss {
        state := Established;
        sndWnd, wl1, wl2 := p.wnd, p.sn, p.ack;
        assert Abs() == Spec.SetWindow(old(Abs()), p).(state := Established);
        Opened(now, ok);
      } else {
        state := SynReceived;
        TxHelper(SYNACK, [], NoTrigger, None, now, ok);
      }
    }

    /** Answers OPEN and acknowledges the peer's SYN. */
    method Opened(now: int, ok: bool)
      requires Valid()
      modifies this
      ensures Abs() == Spec.Reply(Spec.SignalCmd(old(Abs()), OpenTrigger), ACK, now, ok)
    {
      Remove(OpenTrigger);
      TxHelper(ACK, [], NoTrigger, None, now, ok);
    }

    /** First check: the sequence number. */
    method IsAcceptable(p: Packet) returns (acceptable: bool)
      ensures acceptable == Spec.Acceptable(rcvNxt, rcvWnd, p.sn, SegLen(p))
    {
      var len := SegLen(p);
      acceptable := false;
      if rcvWnd == 0 {
        if len == 0 && p.sn == rcvNxt {
          acceptable := true;
        }
      } else {
        if len == 0 && rcvNxt <= p.sn < Wrap32(rcvNxt + rcvWnd) {
          acceptable := true;
        }
        if (len > 0 && rcvNxt <= p.sn < Wrap32(rcvNxt + rcvWnd))
           || rcvNxt <= Wrap32(p.sn + len - 1) < Wrap32(rcvNxt + rcvWnd) {
          acceptable := true;
        }
      }
    }

    method ArriveSynchronized(p: Packet, now: int, ok: bool)
      requires Valid() && clock.Valid()
      modifies this, rxQueue, clock
      ensures clock.Valid() && Abs() == Spec.ArriveSynchronized(old(Abs()), p, now, ok)
    {
      var acceptable := IsAcceptable(p);
      if !acceptable {
        if !p.flag.rst {
          TxHelper(ACK, [], NoTrigger, None, now, ok);
        }
        return;
      }
      if p.flag.rst {
        SignalErr(if state == SynReceived then Spec.REFUSED else Spec.RESET);
        state := Closed;
        return;
      }
      if p.flag.syn {
        SignalErr(Spec.RESET);
        state := Closed;
        TxHelper(RST, [], NoTrigger, None, now, ok);
        return;
      }
      if p.flag.ack {
        AckField(p, now, ok);
      }
    }

    method AckField(p: Packet, now: int, ok: bool)
      requires Valid() && clock.Valid()
      modifies this, rxQueue, clock
      ensures clock.Valid() && Abs() == Spec.AckField(old(Abs()), p, now, ok)
    {
      if state == LastAck {
        if p.ack == sndNxt {
          SignalErr(Spec.ENDED);
          state := Closed;
        }
        return;
      }
      if state == TimeWait {
        if p.flag.fin {
          lastTxTime := now;
        }
        return;
      }
      if state == SynReceived {
        if una <= p.ack <= sndNxt {
          state := Established;
        } else {
          TxHandler(p.ack, 0, RST, 0, [], ok);
          return;
        }
      }
      AckedText(p, now, ok);
    }

    /** The acknowledgement, and what follows it. */
    method AckedText(p: Packet, now: int, ok: bool)
      requires Valid() && clock.Valid()
      modifies this, rxQueue, clock
      ensures clock.Valid()
      ensures
        var s := old(Abs());
        Abs() == if s.snd.una <= p.ack && s.snd.nxt < p.ack then Spec.Reply(s, ACK, now, ok)
                 else Spec.TextAndFin(Spec.AckedState(Spec.Advance(s, p, now), p, now), p, now, ok)
    {
      if p.ack >= una && p.ack > sndNxt {
        TxHelper(ACK, [], NoTrigger, None, now, ok);
        return;
      }
      Advance(p, now);
      AckedState(p, now);
      TextAndFin(p, now, ok);
    }

    method Advance(p: Packet, now: int)
      requires Valid() && clock.Valid()
      modifies this, clock
      ensures clock.Valid() && Abs() == Spec.Advance(old(Abs()), p, now)
    {
      if una < p.ack && p.ack <= sndNxt {
        ghost var w := Spec.Acknowledge(Abs(), p.ack, now);
        una := p.ack;
        QueueAck(now);
        assert Abs() == w;
        if wl1 < p.sn || (wl1 == p.sn && wl2 <= p.ack) {
          sndWnd, wl1, wl2 := p.wnd, p.sn, p.ack;
          assert Abs() == Spec.SetWindow(w, p);
        }
      }
    }

    method AckedState(p: Packet, now: int)
      requires Valid()
      modifies this
      ensures Abs() == Spec.AckedState(old(Abs()), p, now)
    {
      match state {
        case FinWait1 =>
          if p.ack == sndNxt {
            state := FinWait2;
          }
        case FinWait2 =>
          if |retxQueue| == 0 {
            Remove(CloseTrigger);
          }
        case Closing =>
          if p.ack == sndNxt {
            state := TimeWait;
            lastTxTime := now;
          }
        case _ =>
      }
    }

    method TextAndFin(p: Packet, now: int, ok: bool)
      requires Valid()
      modifies this, rxQueue
      ensures Abs() == Spec.TextAndFin(old(Abs()), p, now, ok)
    {
      if Spec.TakesText(state) && |p.data| > 0 {
        TakeText(p, now, ok);
        return;
      }
      if p.flag.fin {
        TakeFin(p, now, ok);
      }
    }

    method TakeText(p: Packet, now: int, ok: bool)
      requires Valid()
      modifies this, rxQueue
      ensures
        var s := old(Abs());
        Abs() == Spec.Reply(Spec.SignalReceive(s.(rcv := Spec.Accept(s.rcv, p))), ACK, now, ok)
    {
      Accept(p);
      SignalReceive();
      TxHelper(ACK, [], NoTrigger, None, now, ok);
    }

    method TakeFin(p: Packet, now: int, ok: bool)
      requires Valid()
      modifies this, rxQueue
      ensures
        var s := Spec.SignalReceive(old(Abs()));
        Abs() == Spec.Reply(Spec.AfterFin(s.(rcv := s.rcv.(nxt := Wrap32(p.sn + 1))), p, now), ACK, now, ok)
    {
      SignalReceive();
      rcvNxt := Wrap32(p.sn + 1);
      AfterFin(p, now);
      TxHelper(ACK, [], NoTrigger, None, now, ok);
    }

    method Accept(p: Packet)
      requires Valid()
      modifies this`rxLen, this`rcvNxt, this`rcvWnd, rxQueue
      ensures Abs() == old(Abs()).(rcv := Spec.Accept(old(Abs()).rcv, p))
    {
      Store(p.data);
      rcvNxt := Wrap32(p.sn + SegLen(p));
      rcvWnd := Wrap16(rcvWnd - |p.data|);
    }

    method AfterFin(p: Packet, now: int)
      requires Valid()
      modifies this`state, this`lastTxTime
      ensures Abs() == Spec.AfterFin(old(Abs()), p, now)
    {
      match state {
        case SynReceived | Established =>
          state := CloseWait;
        case FinWait1 =>
          if p.ack == sndNxt {
            state := TimeWait;
            lastTxTime := now;
          } else {
            state := Closing;
          }
        case FinWait2 | TimeWait =>
          state := TimeWait;
          lastTxTime := now;
        case _ =>
      }
    }

    // -------------------------------------------------------------- timer

    /** One pass over this control block; the removal at its end must not panic. */
    method TimerPass(now: int, txs: seq<bool>)
      requires Valid() && clock.Valid() && Spec.TimerPass(Abs(), now, txs).Some?
      modifies this, clock
      ensures clock.Valid() && Some(Abs()) == Spec.TimerPass(old(Abs()), now, txs)
    {
      if state == TimeWait && lastTxTime + MSL < now {
        SignalErr(Spec.EXPIRED);
        state := Closed;
        return;
      }
      QueueAck(now);
      var deleteIndex := TimerScan(now, txs);
      retxQueue := RemoveRetx(retxQueue, deleteIndex);
    }

    method TimerScan(now: int, txs: seq<bool>) returns (deleteIndex: seq<nat>)
      requires Valid() && clock.Valid()
      modifies this
      ensures (Abs(), deleteIndex) == Spec.TimerLoop(old(Abs()), old(retxQueue), 0, [], now, txs)
    {
      var q := retxQueue;
      deleteIndex := [];
      ghost var result := Spec.TimerLoop(Abs(), q, 0, [], now, txs);
      for i := 0 to |q|
        invariant Spec.Indices(deleteIndex, i) && Spec.TimerLoop(Abs(), q, i, deleteIndex, now, txs) == result
        invariant timeout == old(timeout)
      {
        var e := q[i];
        if e.first + timeout < now {
          SignalErr(Spec.EXPIRED);
          state := Closed;
          return;
        }
        var rtoNow := clock.rto * Spec.Power2(e.retxCount);
        assert Spec.RttOf(Abs().rtts).rto == clock.rto;
        if e.last + rtoNow < now {
          if e.retxCount + 1 >= MAX_RETX {
            Notify(e.ch, Fail(Spec.OVERLIMIT));
            deleteIndex := deleteIndex + [i];
          } else {
            TxHandler(e.sn, rcvNxt, e.flag, sndWnd, e.data, Spec.Accepts(txs, i));
          }
        }
      }
    }
  }
}
