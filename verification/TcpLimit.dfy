/**
 * The limit of retransmissions over whole runs, with user calls, segments and acknowledgements between the timer's
 * passes: with counts and times stored, the timer attempts each entry at most twice.
 */
module TcpLimit {
  import opened Words
  import opened TcpTypes
  import opened TcpSpec
  import opened TcpQueue
  import opened TcpSender
  import opened TcpRun
  import opened TcpNotify
  import opened TcpTimer
  import opened TcpStored

  /** A step with counts and times stored, and the attempts made so far. */
  function StoredStep(s: Tcb, tries: seq<Try>, e: Event, now: int): Option<(Tcb, seq<Try>)> {
    match e
    case TimerTick(txs) => StoredPass(s, tries, Pass(now, txs))
    case _ =>
      match Step(s, e, now)
      case None => None
      case Some(t) => Some((t, tries))
  }

  function StoredRun(s: Tcb, es: seq<Timed>): Option<(Tcb, seq<Try>)>
    decreases |es|
  {
    if es == [] then Some((s, []))
    else
      match StoredRun(s, es[..|es| - 1])
      case None => None
      case Some((t, tries)) => StoredStep(t, tries, es[|es| - 1].e, es[|es| - 1].now)
  }

  /** No simultaneous open, no sequence wrap, and no new incarnation while entries or attempts are there. */
  predicate OneLife(s: Tcb, tries: seq<Try>, e: Event) {
    match e
    case OpenCall(_, _, _, _, isn, _) =>
      (s.state == Closed ==> s.snd.retx == [] && tries == []) && isn + 1 < 0x1_0000_0000
    case SendCall(_, data, _) => s.snd.nxt + |data| < 0x1_0000_0000
    case CloseCall(_, _) => s.snd.nxt + 1 < 0x1_0000_0000
    case Segment(p, isn, _) => !Simultaneous(s, p) && isn + 1 < 0x1_0000_0000
    case _ => true
  }

  predicate OneLifeRun(s: Tcb, es: seq<Timed>)
    decreases |es|
  {
    es != [] ==>
      var before := es[..|es| - 1];
      && OneLifeRun(s, before)
      && (StoredRun(s, before).Some? ==>
            OneLife(StoredRun(s, before).value.0, StoredRun(s, before).value.1, es[|es| - 1].e))
  }

  // ---------------------------------------------------------------- the invariant

  /** What the queue knows of the attempts for an entry: how many, and when the last one was. */
  predicate Counted(e: Entry, times: seq<int>) {
    e.retxCount == |times| < MAX_RETX && e.last == LastOf(times, e.first) && Spaced(e.first, times, SECOND)
  }

  /** At most two attempts, the second more than 2 s after the first. */
  predicate Limited(times: seq<int>) {
    |times| < MAX_RETX && (|times| == 2 ==> times[1] > times[0] + 2 * SECOND)
  }

  ghost predicate Kept(s: Tcb, tries: seq<Try>, now: int) {
    && InOrder(s.snd.retx)
    && (forall e :: e in s.snd.retx ==> e.sn < s.snd.nxt && e.first <= now && Counted(e, TriesOf(tries, e.sn)))
    && (forall t :: t in tries ==> t.sn < s.snd.nxt)
    && (forall sn: U32 :: Limited(TriesOf(tries, sn)))
    && (s.state == Listen ==> s.snd.retx == [] && tries == [])
    && (s.state == SynSent ==> s.snd.una == s.snd.iss)
  }

  // ---------------------------------------------------------------- what other steps do to the queue

  /** `q` is part of `p`, in the same order. */
  predicate Thinned(p: seq<Entry>, q: seq<Entry>) {
    (InOrder(p) ==> InOrder(q)) && forall e :: e in q ==> e in p
  }

  lemma ThinnedHead(p: seq<Entry>, q: seq<Entry>)
    requires p != [] && Thinned(p[1..], q)
    ensures Thinned(p, q) && Thinned(p, [p[0]] + q)
  {
    if InOrder(p) {
      forall e | e in q
        ensures p[0].sn < e.sn && p[0].first <= e.first
      {
        var j :| 0 <= j < |p[1..]| && p[1..][j] == e;
        assert p[j + 1] == e;
      }
      assert InOrder(p[1..]);
    }
  }

  lemma {:induction false} KeepThins(p: seq<Entry>, una: U32)
    ensures Thinned(p, Keep(p, una))
  {
    if p != [] {
      KeepThins(p[1..], una);
      ThinnedHead(p, Keep(p[1..], una));
    }
  }

  lemma {:induction false} WithoutThins(p: seq<Entry>, t: Trigger)
    ensures Thinned(p, WithoutTrigger(p, t))
  {
    if p != [] {
      WithoutThins(p[1..], t);
      ThinnedHead(p, WithoutTrigger(p[1..], t));
    }
  }

  /** A step that at most takes entries away, and leaves SND.NXT alone. */
  predicate Shrinks(s: Tcb, t: Tcb) {
    && t.snd.nxt == s.snd.nxt && Thinned(s.snd.retx, t.snd.retx)
    && (t.state == s.state || (t.state != Listen && t.state != SynSent))
    && (t.state == SynSent ==> t.snd.una == s.snd.una && t.snd.iss == s.snd.iss)
  }

  /** A step that appends an entry at `sn`, below the new SND.NXT. */
  predicate Grows(s: Tcb, t: Tcb, sn: int, now: int) {
    && s.snd.nxt <= t.snd.nxt && (t.snd.retx == s.snd.retx || Adds(s.snd.retx, t.snd.retx, sn, t.snd.nxt, now))
    && t.state != Listen && (t.state == SynSent ==> t.snd.una == t.snd.iss)
  }

  predicate Adds(p: seq<Entry>, q: seq<Entry>, sn: int, nxt: int, now: int) {
    && |q| == |p| + 1 && q[..|p|] == p
    && var f := q[|p|]; f.sn == sn < nxt && f.first == f.last == now && f.retxCount == 0
  }

  lemma ShrinksKeeps(s: Tcb, t: Tcb, tries: seq<Try>, was: int, now: int)
    requires Kept(s, tries, was) && was <= now && Shrinks(s, t)
    ensures Kept(t, tries, now)
  {
    assert t.snd.retx != [] ==> t.snd.retx[0] in s.snd.retx;
  }

  lemma NoTries(tries: seq<Try>, sn: U32)
    requires forall t :: t in tries ==> t.sn != sn
    ensures TriesOf(tries, sn) == []
  {
    if tries != [] {
      assert tries[|tries| - 1] in tries;
      NoTries(tries[..|tries| - 1], sn);
    }
  }

  lemma GrowsKeeps(s: Tcb, t: Tcb, tries: seq<Try>, was: int, now: int)
    requires Kept(s, tries, was) && was <= now && Grows(s, t, s.snd.nxt, now)
    ensures Kept(t, tries, now)
  {
    var p, q := s.snd.retx, t.snd.retx;
    if q != p {
      NoTries(tries, s.snd.nxt);
      assert q == p + [q[|p|]];
    }
  }

  /** The first entry, or none, of a connection without a past. */
  lemma StartsKeep(s: Tcb, t: Tcb, now: int)
    requires s.snd.retx == [] && |t.snd.retx| <= 1
    requires (t.state == Listen ==> t.snd.retx == []) && (t.state == SynSent ==> t.snd.una == t.snd.iss)
    requires t.snd.retx != [] ==> var f := t.snd.retx[0];
      f.sn < t.snd.nxt && f.first == f.last == now && f.retxCount == 0
    ensures Kept(t, [], now)
  {
  }

  lemma OpenKept(s: Tcb, tries: seq<Try>, e: Event, was: int, now: int)
    requires Kept(s, tries, was) && was <= now && e.OpenCall? && OneLife(s, tries, e)
    ensures Step(s, e, now).Some? && Kept(Step(s, e, now).value, tries, now)
  {
    var t := Step(s, e, now).value;
    if s.state == Closed || s.state == Listen {
      StartsKeep(s, t, now);
    } else {
      assert t.snd == s.snd && t.state == s.state;
      ShrinksKeeps(s, t, tries, was, now);
    }
  }

  lemma SendTextGrows(s: Tcb, ch: Chan, data: seq<Byte>, txs: seq<bool>, now: int)
    requires (s.state == Established || s.state == CloseWait) && s.snd.nxt + |data| < 0x1_0000_0000
    ensures Grows(s, SendText(s, ch, data, txs, now), s.snd.nxt, now)
  {
  }

  lemma SendFinGrows(s: Tcb, ch: Chan, next: State, txs: seq<bool>, now: int)
    requires s.state == SynReceived || s.state == Established || s.state == CloseWait
    requires (next == FinWait1 || next == LastAck) && s.snd.nxt + 1 < 0x1_0000_0000
    ensures Grows(s, SendFin(s, ch, next, txs, now), s.snd.nxt, now)
  {
  }

  lemma LoggedKept(s: Tcb, t: Tcb, tries: seq<Try>, now: int)
    requires Kept(s, tries, now) && t == s.(log := t.log)
    ensures Kept(t, tries, now)
  {
  }

  lemma SendKept(s: Tcb, tries: seq<Try>, ch: Chan, data: seq<Byte>, txs: seq<bool>, was: int, now: int)
    requires Kept(s, tries, was) && was <= now && s.snd.nxt + |data| < 0x1_0000_0000
    ensures Kept(Send(s, ch, data, txs, now), tries, now)
  {
    var t := Send(s, ch, data, txs, now);
    if s.state == Established || s.state == CloseWait {
      var s1 := if |data| > s.snd.wnd then Answer(s, ch, Fail(RESOURCES)) else s;
      assert t == SendText(s1, ch, data, txs, now);
      LoggedKept(s, s1, tries, was);
      SendTextGrows(s1, ch, data, txs, now);
      GrowsKeeps(s1, t, tries, was, now);
    } else {
      assert t.snd == s.snd && t.state == s.state;
      ShrinksKeeps(s, t, tries, was, now);
    }
  }

  lemma CloseKept(s: Tcb, tries: seq<Try>, ch: Chan, txs: seq<bool>, was: int, now: int)
    requires Kept(s, tries, was) && was <= now && s.snd.nxt + 1 < 0x1_0000_0000
    ensures Kept(Close(s, ch, txs, now), tries, now)
  {
    var t := Close(s, ch, txs, now);
    match s.state
    case SynReceived | Established =>
      SendFinGrows(s, ch, FinWait1, txs, now);
      GrowsKeeps(s, t, tries, was, now);
    case CloseWait =>
      SendFinGrows(s, ch, LastAck, txs, now);
      GrowsKeeps(s, t, tries, was, now);
    case _ =>
      assert t.snd == s.snd || t.snd == s.snd.(retx := []);
      ShrinksKeeps(s, t, tries, was, now);
  }

  // ---------------------------------------------------------------- segments

  lemma ListenKept(s: Tcb, tries: seq<Try>, p: Packet, isn: U32, ok: bool, was: int, now: int)
    requires Kept(s, tries, was) && was <= now && s.state == Listen && isn + 1 < 0x1_0000_0000
    ensures Kept(ArriveListen(s, p, isn, now, ok), tries, now)
  {
    StartsKeep(s, ArriveListen(s, p, isn, now, ok), now);
  }

  lemma SynSentShrinks(s: Tcb, p: Packet, now: int, ok: bool)
    requires s.state == SynSent && !Simultaneous(s, p) && s.snd.una == s.snd.iss
    ensures Shrinks(s, ArriveSynSent(s, p, now, ok))
  {
    var q := Keep(s.snd.retx, p.ack);
    KeepThins(s.snd.retx, p.ack);
    WithoutThins(q, OpenTrigger);
  }

  lemma TextAndFinStateMoves(s: Tcb, p: Packet, now: int, ok: bool)
    requires s.state != Listen && s.state != SynSent
    ensures TextAndFin(s, p, now, ok).state != Listen && TextAndFin(s, p, now, ok).state != SynSent
  {
  }

  lemma SynchronizedShrinks(s: Tcb, p: Packet, now: int, ok: bool)
    requires s.state != Closed && s.state != Listen && s.state != SynSent
    ensures Shrinks(s, ArriveSynchronized(s, p, now, ok))
  {
    KeepThins(s.snd.retx, p.ack);
    SynchronizedQueue(s, p, now, ok);
    SynchronizedNumbers(s, p, now, ok);
  }

  lemma AckFieldNumbers(s: Tcb, p: Packet, now: int, ok: bool)
    requires s.state != Closed && s.state != Listen && s.state != SynSent
    ensures
      var t := AckField(s, p, now, ok);
      t.snd.nxt == s.snd.nxt && t.state != Listen && t.state != SynSent
  {
    var s1 := if s.state == SynReceived then s.(state := Established) else s;
    var s2 := AckedState(Advance(s1, p, now), p, now);
    assert s2.snd.nxt == s.snd.nxt && s2.state != Listen && s2.state != SynSent;
    TextAndFinSends(s2, p, now, ok);
    TextAndFinStateMoves(s2, p, now, ok);
  }

  lemma SynchronizedNumbers(s: Tcb, p: Packet, now: int, ok: bool)
    requires s.state != Closed && s.state != Listen && s.state != SynSent
    ensures
      var t := ArriveSynchronized(s, p, now, ok);
      t.snd.nxt == s.snd.nxt && t.state != Listen && t.state != SynSent
  {
    AckFieldNumbers(s, p, now, ok);
  }

  lemma SegmentKept(s: Tcb, tries: seq<Try>, p: Packet, isn: U32, ok: bool, was: int, now: int)
    requires Kept(s, tries, was) && was <= now && !Simultaneous(s, p) && isn + 1 < 0x1_0000_0000
    ensures Kept(Arrive(s, p, isn, now, ok), tries, now)
  {
    match s.state
    case Closed => ShrinksKeeps(s, ArriveClosed(s, p, ok), tries, was, now);
    case Listen => ListenKept(s, tries, p, isn, ok, was, now);
    case SynSent =>
      SynSentShrinks(s, p, now, ok);
      ShrinksKeeps(s, ArriveSynSent(s, p, now, ok), tries, was, now);
    case _ =>
      SynchronizedShrinks(s, p, now, ok);
      ShrinksKeeps(s, ArriveSynchronized(s, p, now, ok), tries, was, now);
  }

  // ---------------------------------------------------------------- the timer

  /** Attempts are made for entries of the queue. */
  lemma {:induction false} LoopTries(s: Tcb, i: nat, del: seq<nat>, tries: seq<Try>, now: int, txs: seq<bool>, t: Try)
    requires i <= |s.snd.retx| && Indices(del, i)
    requires t in StoredLoop(s, i, del, tries, now, txs).2
    ensures t in tries || exists e :: e in s.snd.retx && e.sn == t.sn
    decreases |s.snd.retx| - i
  {
    if i < |s.snd.retx| && !UserExpired(s, s.snd.retx[i], now) {
      var (s1, del1, tries1) := Turn(s, i, del, tries, now, txs);
      LoopTries(s1, i + 1, del1, tries1, now, txs, t);
      assert s.snd.retx[i] in s.snd.retx;
      if t !in tries && t in tries1 {
        assert t.sn == s.snd.retx[i].sn;
      } else if t !in tries {
        var f :| f in s1.snd.retx && f.sn == t.sn;
        var j :| 0 <= j < |s1.snd.retx| && s1.snd.retx[j] == f;
        TurnSame(s, i, del, tries, now, txs);
        assert s.snd.retx[j] in s.snd.retx;
      }
    }
  }

  lemma RtoAtLeast(h: RttHistory)
    ensures RttOf(h).rto >= SECOND
  {
  }

  lemma {:induction false} Scaled(a: int, b: int, n: nat)
    requires a <= b
    ensures a * Power2(n) <= b * Power2(n)
  {
    if n > 0 {
      Scaled(a, b, n - 1);
      assert a * Power2(n) == 2 * (a * Power2(n - 1)) && b * Power2(n) == 2 * (b * Power2(n - 1));
    }
  }

  /** An entry that is looked at stays counted until it is marked. */
  lemma LookedCounted(s: Tcb, e: Entry, times: seq<int>, now: int)
    requires Counted(e, times)
    ensures
      var (f, after, marked) := Looked(s, e, times, now);
      |after| < MAX_RETX && Spaced(e.first, after, SECOND) && (!marked ==> Counted(f, after))
  {
    if RetxDue(s, e, now) {
      RtoAtLeast(s.rtts);
      Scaled(SECOND, RttOf(s.rtts).rto, |times|);
      SpacedMore(e.first, times, SECOND, now);
    }
  }

  lemma SpacedIsLimited(first: int, times: seq<int>)
    requires |times| < MAX_RETX && Spaced(first, times, SECOND)
    ensures Limited(times)
  {
    assert Power2(1) == 2;
    if |times| == 2 {
      assert times[..1][0] == times[0];
    }
  }

  /** A pass in which nothing expires, after what is acknowledged has been removed. */
  lemma PassKept(s: Tcb, tries: seq<Try>, p: Pass)
    requires Kept(s, tries, p.now) && Standing(s) && s.snd.retx != []
    requires forall j :: 0 <= j < |s.snd.retx| ==> !UserExpired(s, s.snd.retx[j], p.now)
    ensures
      var (t, del, ts) := StoredLoop(s, 0, [], tries, p.now, p.txs);
      Indices(del, |t.snd.retx|) && Kept(t.(snd := t.snd.(retx := RemoveAt(t.snd.retx, del))), ts, p.now)
  {
    LoopLooks(s, 0, [], tries, p.now, p.txs, 0);
    var (t, del, ts) := StoredLoop(s, 0, [], tries, p.now, p.txs);
    RemovedStanding(s, t, del);
    forall e | e in RemoveAt(t.snd.retx, del)
      ensures e.sn < t.snd.nxt && e.first <= p.now && Counted(e, TriesOf(ts, e.sn))
    {
      var j :| 0 <= j < |t.snd.retx| && j !in del && t.snd.retx[j] == e;
      KeptAt(s, tries, p, j);
    }
    forall sn: U32
      ensures Limited(TriesOf(ts, sn))
    {
      LimitedAfter(s, tries, p, sn);
    }
    forall x | x in ts
      ensures x.sn < t.snd.nxt
    {
      LoopTries(s, 0, [], tries, p.now, p.txs, x);
    }
  }

  lemma KeptAt(s: Tcb, tries: seq<Try>, p: Pass, j: nat)
    requires Kept(s, tries, p.now) && j < |s.snd.retx|
    requires forall k :: 0 <= k < |s.snd.retx| ==> !UserExpired(s, s.snd.retx[k], p.now)
    ensures
      var (t, del, ts) := StoredLoop(s, 0, [], tries, p.now, p.txs);
      var e := s.snd.retx[j];
      && SameBut(s, t) && e.sn < s.snd.nxt && e.first <= p.now && Limited(TriesOf(ts, e.sn))
      && (j !in del ==> Counted(t.snd.retx[j], TriesOf(ts, e.sn)))
  {
    var e := s.snd.retx[j];
    assert e in s.snd.retx;
    LoopLooks(s, 0, [], tries, p.now, p.txs, j);
    LookedCounted(s, e, TriesOf(tries, e.sn), p.now);
    SpacedIsLimited(e.first, TriesOf(StoredLoop(s, 0, [], tries, p.now, p.txs).2, e.sn));
  }

  lemma LimitedAfter(s: Tcb, tries: seq<Try>, p: Pass, sn: U32)
    requires Kept(s, tries, p.now)
    requires forall k :: 0 <= k < |s.snd.retx| ==> !UserExpired(s, s.snd.retx[k], p.now)
    ensures Limited(TriesOf(StoredLoop(s, 0, [], tries, p.now, p.txs).2, sn))
  {
    if j :| 0 <= j < |s.snd.retx| && s.snd.retx[j].sn == sn {
      KeptAt(s, tries, p, j);
    } else {
      LoopOthers(s, 0, [], tries, p.now, p.txs, sn);
    }
  }

  /** The timer's `queueAck` is as good as an acknowledgement. */
  lemma AckedKept(s: Tcb, tries: seq<Try>, was: int, now: int)
    requires Kept(s, tries, was) && was <= now
    ensures Kept(QueueAck(s, now), tries, now) && Standing(QueueAck(s, now))
  {
    KeepThins(s.snd.retx, s.snd.una);
    KeepStays(s.snd.retx, s.snd.una);
    ShrinksKeeps(s, QueueAck(s, now), tries, was, now);
  }

  lemma ShutKept(s: Tcb, tries: seq<Try>, was: int, now: int)
    requires Kept(s, tries, was) && was <= now
    ensures Kept(Shut(s, EXPIRED), tries, now)
  {
    ShrinksKeeps(s, Shut(s, EXPIRED), tries, was, now);
  }

  lemma TimerKept(s: Tcb, tries: seq<Try>, p: Pass, was: int)
    requires Kept(s, tries, was) && was <= p.now
    ensures StoredPass(s, tries, p).Some?
    ensures
      var (t, ts) := StoredPass(s, tries, p).value;
      Kept(t, ts, p.now)
  {
    if s.state == TimeWait && s.lastTx + MSL < p.now {
      ShutKept(s, tries, was, p.now);
    } else {
      var s1 := QueueAck(s, p.now);
      AckedKept(s, tries, was, p.now);
      if s1.snd.retx == [] {
        assert s1.(snd := s1.snd.(retx := [])) == s1;
      } else if UserExpired(s1, s1.snd.retx[0], p.now) {
        ShutKept(s1, tries, p.now, p.now);
        assert Shut(s1, EXPIRED).(snd := Shut(s1, EXPIRED).snd.(retx := [])) == Shut(s1, EXPIRED);
      } else {
        NoneExpired(s1, p.now);
        PassKept(s1, tries, p);
      }
    }
  }

  // ---------------------------------------------------------------- runs

  lemma StepKept(s: Tcb, tries: seq<Try>, e: Event, was: int, now: int)
    requires Kept(s, tries, was) && was <= now && OneLife(s, tries, e)
    ensures StoredStep(s, tries, e, now).Some?
    ensures
      var (t, ts) := StoredStep(s, tries, e, now).value;
      Kept(t, ts, now)
  {
    match e
    case OpenCall(_, _, _, _, _, _) => OpenKept(s, tries, e, was, now);
    case SendCall(ch, data, txs) => SendKept(s, tries, ch, data, txs, was, now);
    case ReceiveCall(ch, cap) =>
      var t := Receive(s, ch, cap);
      assert t.snd == s.snd && t.state == s.state;
      ShrinksKeeps(s, t, tries, was, now);
    case CloseCall(ch, txs) => CloseKept(s, tries, ch, txs, was, now);
    case AbortCall(ok) => ShrinksKeeps(s, Abort(s, ok), tries, was, now);
    case Segment(p, isn, ok) => SegmentKept(s, tries, p, isn, ok, was, now);
    case TimerTick(txs) => TimerKept(s, tries, Pass(now, txs), was);
  }

  lemma {:induction false} RunKept(local: Endpoint, window: U16, es: seq<Timed>)
    requires OneLifeRun(Fresh(local, window), es) && Chronological(es)
    ensures StoredRun(Fresh(local, window), es).Some?
    ensures
      var (t, tries) := StoredRun(Fresh(local, window), es).value;
      if es == [] then t == Fresh(local, window) && tries == [] else Kept(t, tries, es[|es| - 1].now)
    decreases |es|
  {
    if es != [] {
      var n := |es| - 1;
      RunKept(local, window, es[..n]);
      var (s, tries) := StoredRun(Fresh(local, window), es[..n]).value;
      var was := if n == 0 then es[n].now else es[n - 1].now;
      assert Kept(s, tries, was);
      StepKept(s, tries, es[n].e, was, es[n].now);
    }
  }

  /**
   * With counts and times stored, in every run, whatever the calls, segments and acknowledgements: no step panics,
   * and for each sequence number the timer makes at most two attempts, the second more than 2 s after the first.
   */
  lemma AtMostTwoAttempts(local: Endpoint, window: U16, es: seq<Timed>, sn: U32)
    requires OneLifeRun(Fresh(local, window), es) && Chronological(es)
    ensures StoredRun(Fresh(local, window), es).Some?
    ensures
      var times := TriesOf(StoredRun(Fresh(local, window), es).value.1, sn);
      |times| <= 2 && (|times| == 2 ==> times[1] > times[0] + 2 * SECOND)
  {
    RunKept(local, window, es);
  }
}
