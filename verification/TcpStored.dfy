/** The timer with counts and times stored, as the limit of retransmissions intends. */
module TcpStored {
  import opened Words
  import opened TcpTypes
  import opened TcpSpec
  import opened TcpQueue
  import opened TcpSender
  import opened TcpRun
  import opened TcpRemove
  import opened TcpNotify
  import opened TcpTimer

  /** An attempt of the timer to transmit the entry at `sn`. */
  datatype Try = Try(sn: U32, at: int)

  function Put(s: Tcb, i: nat, e: Entry): Tcb
    requires i < |s.snd.retx|
  {
    s.(snd := s.snd.(retx := s.snd.retx[i := e]))
  }

  /** One turn of the loop of the timer: what it does to the entry stays in the queue. */
  function Turn(
      s: Tcb, i: nat, del: seq<nat>, tries: seq<Try>, now: int, txs: seq<bool>): (r: (Tcb, seq<nat>, seq<Try>))
    requires i < |s.snd.retx| && Indices(del, i)
    ensures |r.0.snd.retx| == |s.snd.retx| && Indices(r.1, i + 1)
  {
    var e := s.snd.retx[i];
    var counted := e.(retxCount := e.retxCount + 1);
    if !RetxDue(s, e, now) then (s, del, tries)
    else if counted.retxCount >= MAX_RETX then
      var s1 := Put(s, i, counted);
      (s1.(log := s1.log + ChanNote(e.ch, Fail(OVERLIMIT))), del + [i], tries)
    else
      (Retransmit(Put(s, i, counted.(last := now)), e, Accepts(txs, i)), del, tries + [Try(e.sn, now)])
  }

  /** The loop over the queue itself, from entry `i`; `del` are the indices marked so far. */
  function StoredLoop(
      s: Tcb, i: nat, del: seq<nat>, tries: seq<Try>, now: int, txs: seq<bool>): (r: (Tcb, seq<nat>, seq<Try>))
    requires i <= |s.snd.retx| && Indices(del, i)
    decreases |s.snd.retx| - i
  {
    if i == |s.snd.retx| then (s, del, tries)
    else if UserExpired(s, s.snd.retx[i], now) then (Shut(s, EXPIRED), del, tries)
    else
      var (s1, del1, tries1) := Turn(s, i, del, tries, now, txs);
      StoredLoop(s1, i + 1, del1, tries1, now, txs)
  }

  function StoredPass(s: Tcb, tries: seq<Try>, p: Pass): Option<(Tcb, seq<Try>)> {
    if s.state == TimeWait && s.lastTx + MSL < p.now then Some((Shut(s, EXPIRED), tries))
    else
      var (t, del, ts) := StoredLoop(QueueAck(s, p.now), 0, [], tries, p.now, p.txs);
      if Indices(del, |t.snd.retx|) then Some((t.(snd := t.snd.(retx := RemoveAt(t.snd.retx, del))), ts)) else None
  }

  function StoredPasses(s: Tcb, ps: seq<Pass>): Option<(Tcb, seq<Try>)>
    decreases |ps|
  {
    if ps == [] then Some((s, []))
    else
      match StoredPasses(s, ps[..|ps| - 1])
      case None => None
      case Some((t, tries)) => StoredPass(t, tries, ps[|ps| - 1])
  }

  // ---------------------------------------------------------------- order

  /** Entries are in the order of their sequence numbers and of their first transmission. */
  predicate InOrder(q: seq<Entry>) {
    forall i, j :: 0 <= i < j < |q| ==> q[i].sn < q[j].sn && q[i].first <= q[j].first
  }

  lemma {:induction false} UnlistedIff(q: seq<Entry>, idx: seq<nat>, k: nat, e: Entry)
    requires k <= |q|
    ensures e in Unlisted(q, idx, k) <==> exists j :: 0 <= j < k && j !in idx && q[j] == e
  {
    if k > 0 {
      UnlistedIff(q, idx, k - 1, e);
    }
  }

  lemma {:induction false} UnlistedInOrder(q: seq<Entry>, idx: seq<nat>, k: nat)
    requires k <= |q| && InOrder(q)
    ensures InOrder(Unlisted(q, idx, k))
  {
    if k > 0 {
      var r := Unlisted(q, idx, k - 1);
      UnlistedInOrder(q, idx, k - 1);
      forall i | 0 <= i < |r|
        ensures r[i].sn < q[k - 1].sn && r[i].first <= q[k - 1].first
      {
        UnlistedIff(q, idx, k - 1, r[i]);
      }
    }
  }

  // ---------------------------------------------------------------- one pass

  /** Where the loop has no effect on the rest of the control block. */
  predicate SameBut(s: Tcb, t: Tcb) {
    && t.state == s.state && t.timeout == s.timeout && t.rtts == s.rtts
    && t.snd.una == s.snd.una && t.snd.nxt == s.snd.nxt && t.snd.iss == s.snd.iss
    && |t.snd.retx| == |s.snd.retx|
    && forall j :: 0 <= j < |s.snd.retx| ==>
         t.snd.retx[j].sn == s.snd.retx[j].sn && t.snd.retx[j].first == s.snd.retx[j].first
  }

  function TriesOf(tries: seq<Try>, sn: U32): seq<int> {
    if tries == [] then []
    else
      var last := tries[|tries| - 1];
      TriesOf(tries[..|tries| - 1], sn) + if last.sn == sn then [last.at] else []
  }

  lemma OneMoreTry(tries: seq<Try>, t: Try, sn: U32)
    ensures TriesOf(tries + [t], sn) == TriesOf(tries, sn) + if t.sn == sn then [t.at] else []
  {
    assert (tries + [t])[..|tries|] == tries;
  }

  /** What becomes of an entry that is looked at: it, the times of its attempts, and whether it is marked. */
  function Looked(s: Tcb, e: Entry, times: seq<int>, now: int): (Entry, seq<int>, bool) {
    if !RetxDue(s, e, now) then (e, times, false)
    else if e.retxCount + 1 >= MAX_RETX then (e.(retxCount := e.retxCount + 1), times, true)
    else (e.(retxCount := e.retxCount + 1, last := now), times + [now], false)
  }

  lemma PutKeeps(s: Tcb, t: Tcb, i: nat, now: int)
    requires i < |s.snd.retx| && InOrder(s.snd.retx) && SameBut(s, t)
    requires forall j :: i <= j < |s.snd.retx| ==> !UserExpired(s, s.snd.retx[j], now)
    ensures InOrder(t.snd.retx) && forall j :: i + 1 <= j < |t.snd.retx| ==> !UserExpired(t, t.snd.retx[j], now)
  {
  }

  lemma SameButTransitive(s: Tcb, t: Tcb, u: Tcb)
    requires SameBut(s, t) && SameBut(t, u)
    ensures SameBut(s, u)
  {
  }

  lemma TurnSame(s: Tcb, i: nat, del: seq<nat>, tries: seq<Try>, now: int, txs: seq<bool>)
    requires i < |s.snd.retx| && Indices(del, i)
    ensures SameBut(s, Turn(s, i, del, tries, now, txs).0)
    ensures forall k :: 0 <= k < |s.snd.retx| && k != i ==>
      Turn(s, i, del, tries, now, txs).0.snd.retx[k] == s.snd.retx[k]
  {
  }

  lemma TurnAt(s: Tcb, i: nat, del: seq<nat>, tries: seq<Try>, now: int, txs: seq<bool>)
    requires i < |s.snd.retx| && Indices(del, i)
    ensures
      var (t, marked, ts) := Turn(s, i, del, tries, now, txs);
      var e := s.snd.retx[i];
      (t.snd.retx[i], TriesOf(ts, e.sn), i in marked) == Looked(s, e, TriesOf(tries, e.sn), now)
  {
    var e := s.snd.retx[i];
    NotMarked(del, i, i);
    OneMoreTry(tries, Try(e.sn, now), e.sn);
  }

  lemma TurnElsewhere(s: Tcb, i: nat, del: seq<nat>, tries: seq<Try>, now: int, txs: seq<bool>, k: nat, sn: U32)
    requires i < |s.snd.retx| && Indices(del, i) && k != i && sn != s.snd.retx[i].sn
    ensures
      var (t, marked, ts) := Turn(s, i, del, tries, now, txs);
      TriesOf(ts, sn) == TriesOf(tries, sn) && (k in marked <==> k in del)
  {
    var e := s.snd.retx[i];
    NotMarked(del, i, k);
    OneMoreTry(tries, Try(e.sn, now), sn);
    assert TriesOf(tries, sn) + [] == TriesOf(tries, sn);
  }

  lemma TurnLooks(s: Tcb, i: nat, del: seq<nat>, tries: seq<Try>, now: int, txs: seq<bool>, k: nat)
    requires i < |s.snd.retx| && Indices(del, i) && k < |s.snd.retx| && InOrder(s.snd.retx)
    ensures
      var (t, marked, ts) := Turn(s, i, del, tries, now, txs);
      var e := s.snd.retx[k];
      && SameBut(s, t)
      && (t.snd.retx[k], TriesOf(ts, e.sn), k in marked)
         == if k == i then Looked(s, e, TriesOf(tries, e.sn), now) else (e, TriesOf(tries, e.sn), k in del)
  {
    TurnSame(s, i, del, tries, now, txs);
    if k == i {
      TurnAt(s, i, del, tries, now, txs);
    } else {
      TurnElsewhere(s, i, del, tries, now, txs, k, s.snd.retx[k].sn);
    }
  }

  lemma NotMarked(del: seq<nat>, i: nat, k: nat)
    requires Indices(del, i)
    ensures i !in del && (k in del + [i] <==> k in del || k == i)
  {
  }

  /** The loop looks once at each entry from `i` on and leaves the others alone. */
  lemma {:induction false} LoopLooks(s: Tcb, i: nat, del: seq<nat>, tries: seq<Try>, now: int, txs: seq<bool>, k: nat)
    requires i <= |s.snd.retx| && Indices(del, i) && k < |s.snd.retx| && InOrder(s.snd.retx)
    requires forall j :: i <= j < |s.snd.retx| ==> !UserExpired(s, s.snd.retx[j], now)
    ensures
      var (t, marked, ts) := StoredLoop(s, i, del, tries, now, txs);
      var e := s.snd.retx[k];
      && SameBut(s, t) && Indices(marked, |s.snd.retx|)
      && (t.snd.retx[k], TriesOf(ts, e.sn), k in marked)
         == if k < i then (e, TriesOf(tries, e.sn), k in del) else Looked(s, e, TriesOf(tries, e.sn), now)
    decreases |s.snd.retx| - i
  {
    if i < |s.snd.retx| {
      var (s1, del1, tries1) := Turn(s, i, del, tries, now, txs);
      TurnLooks(s, i, del, tries, now, txs, k);
      PutKeeps(s, s1, i, now);
      LoopLooks(s1, i + 1, del1, tries1, now, txs, k);
      SameButTransitive(s, s1, StoredLoop(s1, i + 1, del1, tries1, now, txs).0);
      LookedAlike(s, s1, s.snd.retx[k], TriesOf(tries, s.snd.retx[k].sn), now);
    }
  }

  lemma LookedAlike(s: Tcb, t: Tcb, e: Entry, times: seq<int>, now: int)
    requires SameBut(s, t)
    ensures Looked(t, e, times, now) == Looked(s, e, times, now)
  {
  }

  /** Attempts are made for entries of the queue only. */
  lemma {:induction false} LoopOthers(s: Tcb, i: nat, del: seq<nat>, tries: seq<Try>, now: int, txs: seq<bool>, sn: U32)
    requires i <= |s.snd.retx| && Indices(del, i) && forall e :: e in s.snd.retx ==> e.sn != sn
    ensures TriesOf(StoredLoop(s, i, del, tries, now, txs).2, sn) == TriesOf(tries, sn)
    decreases |s.snd.retx| - i
  {
    if i < |s.snd.retx| && !UserExpired(s, s.snd.retx[i], now) {
      var e := s.snd.retx[i];
      var (s1, del1, tries1) := Turn(s, i, del, tries, now, txs);
      assert e in s.snd.retx;
      OneMoreTry(tries, Try(e.sn, now), sn);
      assert TriesOf(tries, sn) + [] == TriesOf(tries, sn);
      forall f | f in s1.snd.retx
        ensures f.sn != sn
      {
        var j :| 0 <= j < |s1.snd.retx| && s1.snd.retx[j] == f;
        assert s.snd.retx[j] in s.snd.retx;
      }
      LoopOthers(s1, i + 1, del1, tries1, now, txs, sn);
    }
  }

  // ---------------------------------------------------------------- the limit

  function LastOf(times: seq<int>, last: int): int {
    if times == [] then last else times[|times| - 1]
  }

  /** Each attempt comes later than the timeout, doubled for each attempt before it, after the one before. */
  predicate Spaced(last: int, times: seq<int>, rto: int)
    decreases |times|
  {
    times != [] ==>
      var n := |times| - 1;
      times[n] > LastOf(times[..n], last) + rto * Power2(n) && Spaced(last, times[..n], rto)
  }

  /**
   * The entry has been attempted at most twice, with doubling waits; what is in the queue of it says so, and it has
   * left the queue only after two attempts, unless the connection has been closed.
   */
  ghost predicate Fair(e0: Entry, t: Tcb, tries: seq<Try>) {
    var times := TriesOf(tries, e0.sn);
    && |times| < MAX_RETX && Spaced(e0.last, times, RttOf(t.rtts).rto)
    && (forall e :: e in t.snd.retx && e.sn == e0.sn ==> e.retxCount == |times| && e.last == LastOf(times, e0.last))
    && (t.state == Closed || |times| == MAX_RETX - 1 || exists e :: e in t.snd.retx && e.sn == e0.sn)
  }

  /** The queue of a sender between acknowledgements. */
  predicate Standing(t: Tcb) {
    InOrder(t.snd.retx) && forall e :: e in t.snd.retx ==> e.sn >= t.snd.una
  }

  lemma SpacedMore(last: int, times: seq<int>, rto: int, now: int)
    requires Spaced(last, times, rto) && now > LastOf(times, last) + rto * Power2(|times|)
    ensures Spaced(last, times + [now], rto) && LastOf(times + [now], last) == now
  {
    assert (times + [now])[..|times|] == times;
  }

  lemma LookedFair(s: Tcb, e0: Entry, e: Entry, times: seq<int>, now: int)
    requires |times| < MAX_RETX && Spaced(e0.last, times, RttOf(s.rtts).rto)
    requires e.retxCount == |times| && e.last == LastOf(times, e0.last)
    ensures
      var (f, after, marked) := Looked(s, e, times, now);
      && |after| < MAX_RETX && Spaced(e0.last, after, RttOf(s.rtts).rto)
      && (marked ==> |after| == MAX_RETX - 1)
      && (!marked ==> f.retxCount == |after| && f.last == LastOf(after, e0.last))
  {
    var rto := RttOf(s.rtts).rto;
    if RetxDue(s, e, now) {
      assert e.last + rto * Power2(e.retxCount) < now;
      SpacedMore(e0.last, times, rto, now);
    }
  }

  lemma NoneExpired(s: Tcb, now: int)
    requires InOrder(s.snd.retx) && (s.snd.retx != [] ==> !UserExpired(s, s.snd.retx[0], now))
    ensures forall j :: 0 <= j < |s.snd.retx| ==> !UserExpired(s, s.snd.retx[j], now)
  {
  }

  /** What a pass without user timeout leaves of the queue. */
  lemma RemovedStanding(s: Tcb, t: Tcb, del: seq<nat>)
    requires Standing(s) && SameBut(s, t) && Indices(del, |t.snd.retx|)
    ensures
      var q := RemoveAt(t.snd.retx, del);
      && InOrder(q) && (forall e :: e in q ==> e.sn >= t.snd.una)
      && forall e :: e in q <==> exists j :: 0 <= j < |t.snd.retx| && j !in del && t.snd.retx[j] == e
  {
    var q := t.snd.retx;
    RemoveAtKeepsUnlisted(q, del);
    UnlistedInOrder(q, del, |q|);
    forall e
      ensures e in RemoveAt(q, del) <==> exists j :: 0 <= j < |q| && j !in del && q[j] == e
    {
      UnlistedIff(q, del, |q|, e);
    }
    assert forall j :: 0 <= j < |q| ==> s.snd.retx[j] in s.snd.retx;
  }

  /** The entry at `k` after a pass in which nothing expires. */
  lemma PassFairAt(s: Tcb, tries: seq<Try>, p: Pass, e0: Entry, k: nat)
    requires Standing(s) && Fair(e0, s, tries) && k < |s.snd.retx| && s.snd.retx[k].sn == e0.sn
    requires forall j :: 0 <= j < |s.snd.retx| ==> !UserExpired(s, s.snd.retx[j], p.now)
    ensures
      var (t, del, ts) := StoredLoop(s, 0, [], tries, p.now, p.txs);
      Indices(del, |t.snd.retx|) && Fair(e0, t.(snd := t.snd.(retx := RemoveAt(t.snd.retx, del))), ts)
  {
    LoopLooks(s, 0, [], tries, p.now, p.txs, k);
    var (t, del, ts) := StoredLoop(s, 0, [], tries, p.now, p.txs);
    var e := s.snd.retx[k];
    assert e in s.snd.retx;
    LookedFair(s, e0, e, TriesOf(tries, e0.sn), p.now);
    RemovedStanding(s, t, del);
    var q := RemoveAt(t.snd.retx, del);
    forall f | f in q && f.sn == e0.sn
      ensures f == t.snd.retx[k] && k !in del
    {
      var j :| 0 <= j < |t.snd.retx| && j !in del && t.snd.retx[j] == f;
      assert s.snd.retx[j].sn == e0.sn;
      assert j == k;
    }
    if k !in del {
      assert t.snd.retx[k] in q;
    }
  }

  /** An entry that is no longer in the queue. */
  lemma PassFairGone(s: Tcb, tries: seq<Try>, p: Pass, e0: Entry)
    requires Standing(s) && Fair(e0, s, tries) && forall e :: e in s.snd.retx ==> e.sn != e0.sn
    requires forall j :: 0 <= j < |s.snd.retx| ==> !UserExpired(s, s.snd.retx[j], p.now)
    requires s.snd.retx != []
    ensures
      var (t, del, ts) := StoredLoop(s, 0, [], tries, p.now, p.txs);
      Indices(del, |t.snd.retx|) && Fair(e0, t.(snd := t.snd.(retx := RemoveAt(t.snd.retx, del))), ts)
  {
    LoopLooks(s, 0, [], tries, p.now, p.txs, 0);
    LoopOthers(s, 0, [], tries, p.now, p.txs, e0.sn);
    var (t, del, ts) := StoredLoop(s, 0, [], tries, p.now, p.txs);
    RemovedStanding(s, t, del);
    forall f | f in RemoveAt(t.snd.retx, del)
      ensures f.sn != e0.sn
    {
      var j :| 0 <= j < |t.snd.retx| && j !in del && t.snd.retx[j] == f;
      assert s.snd.retx[j] in s.snd.retx;
    }
  }

  /** No pass panics; every entry stays fairly treated. */
  lemma StoredPassFair(s: Tcb, tries: seq<Try>, p: Pass, e0: Entry)
    requires Standing(s) && Fair(e0, s, tries)
    ensures StoredPass(s, tries, p).Some?
    ensures
      var (t, ts) := StoredPass(s, tries, p).value;
      Standing(t) && t.rtts == s.rtts && Fair(e0, t, ts)
  {
    QueueAckRests(s.snd.retx, s.snd.una, p.now, s.rtts);
    assert s.log + [] == s.log;
    assert QueueAck(s, p.now) == s;
    if s.state == TimeWait && s.lastTx + MSL < p.now {
    } else if s.snd.retx == [] || UserExpired(s, s.snd.retx[0], p.now) {
    } else {
      NoneExpired(s, p.now);
      LoopLooks(s, 0, [], tries, p.now, p.txs, 0);
      var (t, del, ts) := StoredLoop(s, 0, [], tries, p.now, p.txs);
      RemovedStanding(s, t, del);
      if k :| 0 <= k < |s.snd.retx| && s.snd.retx[k].sn == e0.sn {
        PassFairAt(s, tries, p, e0, k);
      } else {
        PassFairGone(s, tries, p, e0);
      }
    }
  }

  /** Every queue that a run leads to is standing. */
  lemma SenderStands(s: Tcb, now: int)
    requires Sender(s.state, s.snd) && Ordered(s.snd.retx, now)
    ensures Standing(s) && NoCounts(s.snd.retx)
  {
    var q := s.snd.retx;
    assert forall e :: e in q ==> Queued(s.snd, e);
    forall i, j | 0 <= i < j < |q|
      ensures q[i].sn < q[j].sn && q[i].first <= q[j].first
    {
      TilesIncreasing(q, s.snd.nxt, i, j);
    }
  }

  /**
   * With counts and times stored, over passes at any times, whatever transmissions are accepted: no pass panics,
   * and each entry of a fresh queue is attempted at most twice by the timer, with doubling waits, before it is
   * dropped; only the user timeout or the end of TIME-WAIT takes it away earlier.
   */
  lemma {:induction false} StoredCountsLimit(s: Tcb, ps: seq<Pass>, e0: Entry)
    requires Standing(s) && NoCounts(s.snd.retx) && e0 in s.snd.retx
    ensures StoredPasses(s, ps).Some?
    ensures
      var (t, tries) := StoredPasses(s, ps).value;
      Standing(t) && t.rtts == s.rtts && Fair(e0, t, tries)
    decreases |ps|
  {
    if ps == [] {
      assert forall i, j :: 0 <= i < j < |s.snd.retx| ==> s.snd.retx[i].sn < s.snd.retx[j].sn;
      assert forall e :: e in s.snd.retx && e.sn == e0.sn ==> e == e0;
    } else {
      StoredCountsLimit(s, ps[..|ps| - 1], e0);
      var (t, tries) := StoredPasses(s, ps[..|ps| - 1]).value;
      StoredPassFair(t, tries, ps[|ps| - 1], e0);
    }
  }

  // ---------------------------------------------------------------- the queues that runs lead to

  /** After a run of one incarnation the queue is as the results about passes assume it. */
  lemma ReachedQueue(local: Endpoint, window: U16, es: seq<Timed>, s: Tcb)
    requires SingleRun(Fresh(local, window), es) && Chronological(es) && Run(Fresh(local, window), es) == Some(s)
    ensures Standing(s) && Apart(s.snd.retx) && NoCounts(s.snd.retx) && (s.state == TimeWait ==> s.snd.retx == [])
  {
    EndpointSafe(local, window, es);
    RunOrdered(local, window, es);
    SenderStands(s, if es == [] then 0 else es[|es| - 1].now);
  }

  /** The limit, with counts and times stored, for every entry of every queue that a run leads to. */
  lemma StoredLimitAfterRun(local: Endpoint, window: U16, es: seq<Timed>, s: Tcb, ps: seq<Pass>, e0: Entry)
    requires SingleRun(Fresh(local, window), es) && Chronological(es) && Run(Fresh(local, window), es) == Some(s)
    requires e0 in s.snd.retx
    ensures StoredPasses(s, ps).Some?
    ensures
      var (t, tries) := StoredPasses(s, ps).value;
      Fair(e0, t, tries)
  {
    ReachedQueue(local, window, es, s);
    StoredCountsLimit(s, ps, e0);
  }

  /** And what the program does instead, as long as the user timeout lets it. */
  lemma ResentAfterRun(local: Endpoint, window: U16, es: seq<Timed>, s: Tcb, ps: seq<Pass>, i: nat)
    requires SingleRun(Fresh(local, window), es) && Chronological(es) && Run(Fresh(local, window), es) == Some(s)
    requires i < |s.snd.retx| && forall p :: p in ps ==> Unexpired(s, p.now)
    ensures PassesAt(s, ps) == Some(Out(s, ResentAll(s, ps)))
    ensures Copies(ResentAll(s, ps), PacketOf(s, s.snd.retx[i])) == DuePasses(s, i, ps)
  {
    ReachedQueue(local, window, es, s);
    assert forall p :: p in ps ==> Resting(s, p.now);
    RetransmittedWheneverDue(s, ps, i);
  }

  predicate Unexpired(s: Tcb, now: int) {
    forall e :: e in s.snd.retx ==> !UserExpired(s, e, now)
  }
}
