/** The ARP cache as a table of slots: what each operation does to it, and the map it stands for. */
module ArpSpec {
  import opened Words

  type PAddr = U32
  type HAddr = nat

  /** Nanoseconds since the zero time of the clock's type. */
  type Time = int

  const CacheSize: nat := 32
  const Timeout: nat := 30_000_000_000

  datatype CacheState = Free | Incomplete | Resolved | Static

  datatype Entry = Entry(state: CacheState, pa: PAddr, ha: HAddr, timeval: Time)

  const FreeEntry := Entry(Free, 0, 0, 0)

  function Frees(n: nat): (s: seq<Entry>)
    ensures |s| == n && forall i | 0 <= i < n :: s[i] == FreeEntry
  {
    if n == 0 then [] else [FreeEntry] + Frees(n - 1)
  }

  type Table = t: seq<Entry> | |t| == CacheSize witness Frees(CacheSize)

  predicate Live(e: Entry) {
    e.state != Free
  }

  predicate Holds(e: Entry, pa: PAddr) {
    Live(e) && e.pa == pa
  }

  // ---------------------------------------------------------------- operations

  /** The first slot that satisfies what is sought, or the size of the table. */
  function FirstFree(t: seq<Entry>): (i: nat)
    ensures i <= |t| && (i < |t| ==> !Live(t[i])) && forall j | 0 <= j < i :: Live(t[j])
  {
    if t == [] || !Live(t[0]) then 0 else 1 + FirstFree(t[1..])
  }

  function Find(t: seq<Entry>, pa: PAddr): (i: nat)
    ensures i <= |t| && (i < |t| ==> Holds(t[i], pa)) && forall j | 0 <= j < i :: !Holds(t[j], pa)
  {
    if t == [] || Holds(t[0], pa) then 0 else 1 + Find(t[1..], pa)
  }

  predicate Present(t: seq<Entry>, pa: PAddr) {
    Find(t, pa) < |t|
  }

  /** The search for the oldest of the first `n` entries, which starts from slot 0 and the zero time. */
  function Scan(t: Table, n: nat): (found: (nat, Time))
    requires n <= CacheSize
    ensures found.0 < CacheSize
  {
    if n == 0 then (0, 0)
    else
      var (id, oldest) := Scan(t, n - 1);
      if oldest > t[n - 1].timeval then (n - 1, t[n - 1].timeval) else (id, oldest)
  }

  function Alloc(t: Table): (i: nat)
    ensures i < CacheSize
  {
    if FirstFree(t) < CacheSize then FirstFree(t) else Scan(t, CacheSize).0
  }

  function Insert(t: Table, pa: PAddr, ha: HAddr, now: Time): Table {
    t[Alloc(t) := Entry(Resolved, pa, ha, now)]
  }

  /** The table, and whether the address was there. */
  function Update(t: Table, pa: PAddr, ha: HAddr, now: Time): (Table, bool) {
    if Present(t, pa) then (t[Find(t, pa) := Entry(Resolved, pa, ha, now)], true) else (t, false)
  }

  function Delete(t: Table, id: int): Option<Table> {
    if 0 <= id < CacheSize then Some(t[id := FreeEntry]) else None
  }

  /** An arriving message is merged into the table, and inserted if it is addressed to this host. */
  function Receive(t: Table, spa: PAddr, sha: HAddr, forUs: bool, now: Time): Table {
    var (merged, there) := Update(t, spa, sha, now);
    if there || !forUs then merged else Insert(merged, spa, sha, now)
  }

  datatype Answer = NotFound | NotYet | Found(ha: HAddr)

  /** The table and the answer; both failures also transmit a request. */
  function Resolve(t: Table, pa: PAddr, now: Time): (Table, Answer) {
    if !Present(t, pa) then (t[Alloc(t) := Entry(Incomplete, pa, 0, now)], NotFound)
    else
      var e := t[Find(t, pa)];
      (t, if e.state == Incomplete then NotYet else Found(e.ha))
  }

  predicate Expired(e: Entry, now: Time) {
    Live(e) && e.timeval + Timeout < now
  }

  function ExpireEntry(e: Entry, now: Time): Entry {
    if Expired(e, now) then FreeEntry else e
  }

  function Expire(t: Table, now: Time): Table {
    seq(CacheSize, i requires 0 <= i < CacheSize => ExpireEntry(t[i], now))
  }

  // ---------------------------------------------------------------- runs

  datatype Event =
    | Heard(spa: PAddr, sha: HAddr, forUs: bool)
    | Asked(pa: PAddr)
    | Ticked

  datatype Stamped = At(event: Event, now: Time)

  function Step(t: Table, s: Stamped): Table {
    match s.event
    case Heard(spa, sha, forUs) => Receive(t, spa, sha, forUs, s.now)
    case Asked(pa) => Resolve(t, pa, s.now).0
    case Ticked => Expire(t, s.now)
  }

  function Run(run: seq<Stamped>): Table {
    if run == [] then Frees(CacheSize) else Step(Run(run[..|run| - 1]), run[|run| - 1])
  }

  // ---------------------------------------------------------------- one entry per address

  ghost predicate Unique(t: seq<Entry>) {
    forall i, j | 0 <= i < |t| && 0 <= j < |t| && Live(t[i]) && Live(t[j]) && t[i].pa == t[j].pa :: i == j
  }

  /** Putting an entry into a slot keeps addresses apart exactly if no other slot holds its address. */
  lemma PutUniqueIff(t: Table, k: nat, e: Entry)
    requires Unique(t) && k < CacheSize && Live(e)
    ensures Unique(t[k := e]) <==> forall i | 0 <= i < CacheSize && i != k :: !Holds(t[i], e.pa)
  {
    var u := t[k := e];
    if Unique(u) {
      forall i | 0 <= i < CacheSize && i != k
        ensures !Holds(t[i], e.pa)
      {
        assert u[i] == t[i] && u[k] == e;
        assert u[i].pa == u[k].pa && Live(u[i]) ==> i == k;
      }
    }
  }

  lemma StepUnique(t: Table, s: Stamped)
    requires Unique(t)
    ensures Unique(Step(t, s))
  {
    match s.event
    case Heard(spa, sha, forUs) =>
      var e := Entry(Resolved, spa, sha, s.now);
      if Present(t, spa) {
        PutUniqueIff(t, Find(t, spa), e);
      } else {
        PutUniqueIff(t, Alloc(t), e);
      }
    case Asked(pa) =>
      if !Present(t, pa) {
        PutUniqueIff(t, Alloc(t), Entry(Incomplete, pa, 0, s.now));
      }
    case Ticked =>
  }

  lemma {:induction false} RunUnique(run: seq<Stamped>)
    ensures Unique(Run(run))
  {
    if run != [] {
      RunUnique(run[..|run| - 1]);
      StepUnique(Run(run[..|run| - 1]), run[|run| - 1]);
    }
  }

  /**
   * The lock is released between merging a message and inserting it. With a request for an address in between, the
   * insertion keeps addresses apart exactly if the address is another one or both take the same slot.
   */
  lemma InterleavedInsertUniqueIff(t: Table, spa: PAddr, sha: HAddr, pa: PAddr, asked: Time, now: Time)
    requires Unique(t) && !Present(t, spa)
    ensures var between := Resolve(t, pa, asked).0;
      Unique(Insert(between, spa, sha, now)) <==> pa != spa || Alloc(between) == Alloc(t)
  {
    var between := Resolve(t, pa, asked).0;
    StepUnique(t, At(Asked(pa), asked));
    assert Step(t, At(Asked(pa), asked)) == between;
    var k := Alloc(between);
    PutUniqueIff(between, k, Entry(Resolved, spa, sha, now));
    if pa == spa && k != Alloc(t) {
      assert Holds(between[Alloc(t)], spa);
    }
  }

  /** From the empty table: a request for the sender's own address between merge and insertion leaves two entries. */
  lemma InterleavedInsertTwice(pa: PAddr, ha: HAddr, asked: Time, now: Time)
    ensures
      var t := Run([]);
      var (merged, there) := Update(t, pa, ha, now);
      var u := Insert(Resolve(merged, pa, asked).0, pa, ha, now);
      !there && Holds(u[0], pa) && Holds(u[1], pa) && !Unique(u)
  {
    var t := Frees(CacheSize);
    assert Find(t, pa) == CacheSize && FirstFree(t) == 0;
    var between := Resolve(t, pa, asked).0;
    assert between[1..] == Frees(CacheSize)[1..] && !Live(between[1]);
    assert FirstFree(between) == 1;
  }

  // ---------------------------------------------------------------- refinement of a map

  datatype Binding = Pending(since: Time) | Known(ha: HAddr, since: Time)

  function BindingOf(e: Entry): Binding {
    if e.state == Incomplete then Pending(e.timeval) else Known(e.ha, e.timeval)
  }

  function Addresses(t: seq<Entry>): set<PAddr> {
    set i | 0 <= i < |t| && Live(t[i]) :: t[i].pa
  }

  function Bindings(t: seq<Entry>): map<PAddr, Binding> {
    map pa | pa in Addresses(t) :: BindingOf(FirstHolding(t, pa))
  }

  function FirstHolding(t: seq<Entry>, pa: PAddr): Entry {
    if Present(t, pa) then t[Find(t, pa)] else FreeEntry
  }

  lemma PresentIff(t: seq<Entry>, pa: PAddr)
    ensures Present(t, pa) <==> pa in Bindings(t)
  {
    if Present(t, pa) {
      assert t[Find(t, pa)].pa == pa;
    }
  }

  lemma BindingAt(t: seq<Entry>, i: nat)
    requires Unique(t) && i < |t| && Live(t[i])
    ensures t[i].pa in Bindings(t) && Bindings(t)[t[i].pa] == BindingOf(t[i])
  {
    var pa := t[i].pa;
    assert Holds(t[i], pa);
    var k := Find(t, pa);
    assert t[k].pa == t[i].pa;
  }

  /** A new binding enters the map; something is forgotten for it only if the map is full. */
  ghost predicate Enters(m: map<PAddr, Binding>, pa: PAddr, b: Binding, n: map<PAddr, Binding>) {
    if |m| < CacheSize then n == m[pa := b] else exists victim :: victim in m && n == (m - {victim})[pa := b]
  }

  function Younger(m: map<PAddr, Binding>, now: Time): map<PAddr, Binding> {
    map pa | pa in m && m[pa].since + Timeout >= now :: m[pa]
  }

  /** One step of a cache that is a map from protocol addresses to bindings. */
  ghost predicate MapStep(m: map<PAddr, Binding>, s: Stamped, n: map<PAddr, Binding>) {
    match s.event
    case Heard(spa, sha, forUs) =>
      if spa in m then n == m[spa := Known(sha, s.now)]
      else if forUs then Enters(m, spa, Known(sha, s.now), n)
      else n == m
    case Asked(pa) => if pa in m then n == m else Enters(m, pa, Pending(s.now), n)
    case Ticked => n == Younger(m, s.now)
  }

  /** A map that says of each live slot what it holds, and nothing else, is the map of the table. */
  lemma BindingsExact(t: seq<Entry>, m: map<PAddr, Binding>)
    requires Unique(t)
    requires forall i | 0 <= i < |t| && Live(t[i]) :: t[i].pa in m && m[t[i].pa] == BindingOf(t[i])
    requires forall pa | pa in m :: Present(t, pa)
    ensures Bindings(t) == m
  {
    forall pa | pa in m
      ensures pa in Bindings(t) && Bindings(t)[pa] == m[pa]
    {
      BindingAt(t, Find(t, pa));
    }
    forall pa | pa in Bindings(t)
      ensures pa in m
    {
      PresentIff(t, pa);
    }
  }

  lemma PresentAt(t: seq<Entry>, i: nat, pa: PAddr)
    requires i < |t| && Holds(t[i], pa)
    ensures Present(t, pa)
  {
  }

  /** What a written slot changes: the address it held goes, the address written comes. */
  lemma PutBinding(t: Table, k: nat, e: Entry)
    requires Unique(t) && k < CacheSize && Live(e)
    requires forall i | 0 <= i < CacheSize && i != k :: !Holds(t[i], e.pa)
    ensures Bindings(t[k := e])
         == (if Live(t[k]) then Bindings(t) - {t[k].pa} else Bindings(t))[e.pa := BindingOf(e)]
  {
    var u := t[k := e];
    var m := (if Live(t[k]) then Bindings(t) - {t[k].pa} else Bindings(t))[e.pa := BindingOf(e)];
    PutUniqueIff(t, k, e);
    forall i | 0 <= i < |u| && Live(u[i])
      ensures u[i].pa in m && m[u[i].pa] == BindingOf(u[i])
    {
      if i != k {
        BindingAt(t, i);
      }
    }
    forall pa | pa in m
      ensures Present(u, pa)
    {
      if pa == e.pa {
        PresentAt(u, k, pa);
      } else {
        PresentIff(t, pa);
        PresentAt(u, Find(t, pa), pa);
      }
    }
    BindingsExact(u, m);
  }

  lemma BindingsSize(t: seq<Entry>)
    ensures |Bindings(t)| == |Addresses(t)|
  {
    assert Bindings(t).Keys == Addresses(t);
  }

  /** As many addresses as live slots: there are as many as slots exactly if the table is full. */
  lemma {:induction false} AddressCount(t: seq<Entry>)
    requires Unique(t)
    ensures |Addresses(t)| <= |t|
    ensures |Addresses(t)| == |t| <==> FirstFree(t) == |t|
  {
    if t != [] {
      var rest := t[1..];
      assert forall i | 0 <= i < |rest| :: rest[i] == t[i + 1];
      AddressCount(rest);
      AddressesSplit(t);
      if Live(t[0]) {
        assert t[0].pa !in Addresses(rest);
      }
    }
  }

  lemma AddressesSplit(t: seq<Entry>)
    requires t != []
    ensures Addresses(t) == Addresses(t[1..]) + if Live(t[0]) then {t[0].pa} else {}
  {
    var rest := t[1..];
    forall pa | pa in Addresses(rest)
      ensures pa in Addresses(t)
    {
      var i :| 0 <= i < |rest| && Live(rest[i]) && rest[i].pa == pa;
      assert t[i + 1] == rest[i];
    }
    forall pa | pa in Addresses(t)
      ensures pa in Addresses(rest) || (Live(t[0]) && pa == t[0].pa)
    {
      var i :| 0 <= i < |t| && Live(t[i]) && t[i].pa == pa;
      if i > 0 {
        assert rest[i - 1] == t[i];
      }
    }
  }

  lemma AllocEnters(t: Table, e: Entry)
    requires Unique(t) && Live(e) && !Present(t, e.pa)
    ensures Enters(Bindings(t), e.pa, BindingOf(e), Bindings(t[Alloc(t) := e]))
  {
    PutBinding(t, Alloc(t), e);
    AddressCount(t);
    BindingsSize(t);
    if FirstFree(t) == CacheSize {
      BindingAt(t, Alloc(t));
    }
  }

  lemma SurvivorBound(t: Table, now: Time, i: nat)
    requires Unique(t) && i < CacheSize && Live(t[i]) && !Expired(t[i], now)
    ensures var m := Younger(Bindings(t), now); t[i].pa in m && m[t[i].pa] == BindingOf(t[i])
  {
    BindingAt(t, i);
  }

  lemma BoundSurvives(t: Table, u: Table, now: Time, pa: PAddr)
    requires Unique(t) && u == Expire(t, now) && pa in Younger(Bindings(t), now)
    ensures Present(u, pa)
  {
    PresentIff(t, pa);
    var i := Find(t, pa);
    BindingAt(t, i);
    assert u[i] == t[i];
    PresentAt(u, i, pa);
  }

  lemma ExpireBindings(t: Table, now: Time)
    requires Unique(t)
    ensures Bindings(Expire(t, now)) == Younger(Bindings(t), now)
  {
    var u, m := Expire(t, now), Younger(Bindings(t), now);
    forall i | 0 <= i < |u| && Live(u[i])
      ensures u[i].pa in m && m[u[i].pa] == BindingOf(u[i])
    {
      SurvivorBound(t, now, i);
    }
    forall pa | pa in m
      ensures Present(u, pa)
    {
      BoundSurvives(t, u, now, pa);
    }
    StepUnique(t, At(Ticked, now));
    BindingsExact(u, m);
  }

  lemma UpdateBinding(t: Table, e: Entry)
    requires Unique(t) && Live(e) && Present(t, e.pa)
    ensures Bindings(t[Find(t, e.pa) := e]) == Bindings(t)[e.pa := BindingOf(e)]
  {
    var k := Find(t, e.pa);
    PutBinding(t, k, e);
    assert (Bindings(t) - {e.pa})[e.pa := BindingOf(e)] == Bindings(t)[e.pa := BindingOf(e)];
  }

  /** The table does what a map does. */
  lemma StepRefinesMap(t: Table, s: Stamped)
    requires Unique(t)
    ensures MapStep(Bindings(t), s, Bindings(Step(t, s)))
  {
    match s.event
    case Heard(spa, sha, forUs) =>
      var e := Entry(Resolved, spa, sha, s.now);
      PresentIff(t, spa);
      if Present(t, spa) {
        UpdateBinding(t, e);
      } else if forUs {
        AllocEnters(t, e);
      }
    case Asked(pa) =>
      PresentIff(t, pa);
      if !Present(t, pa) {
        AllocEnters(t, Entry(Incomplete, pa, 0, s.now));
      }
    case Ticked =>
      ExpireBindings(t, s.now);
  }

  /** What a request is answered from is the map's binding. */
  lemma ResolveFromMap(t: Table, pa: PAddr, now: Time)
    requires Unique(t)
    ensures var m := Bindings(t);
      Resolve(t, pa, now).1 == if pa !in m then NotFound else if m[pa].Pending? then NotYet else Found(m[pa].ha)
  {
    PresentIff(t, pa);
  }

  // ---------------------------------------------------------------- what answers rest on

  /** The last message heard from `pa`: its hardware address and when. */
  function LastHeard(run: seq<Stamped>, pa: PAddr): Option<(HAddr, Time)> {
    if run == [] then None
    else
      var last := run[|run| - 1];
      if last.event.Heard? && last.event.spa == pa then Some((last.event.sha, last.now))
      else LastHeard(run[..|run| - 1], pa)
  }

  /** Each complete entry is the last message heard from its address. */
  ghost predicate Remembers(t: Table, run: seq<Stamped>) {
    forall i | 0 <= i < CacheSize && Live(t[i]) && t[i].state != Incomplete ::
      LastHeard(run, t[i].pa) == Some((t[i].ha, t[i].timeval))
  }

  lemma {:induction false} RunRemembers(run: seq<Stamped>)
    ensures Remembers(Run(run), run)
  {
    if run != [] {
      var n := |run| - 1;
      var t := Run(run[..n]);
      RunRemembers(run[..n]);
      RunUnique(run[..n]);
      StepRemembers(t, run[..n], run[n]);
      assert run == run[..n] + [run[n]];
    }
  }

  lemma StepRemembers(t: Table, run: seq<Stamped>, s: Stamped)
    requires Unique(t) && Remembers(t, run)
    ensures Remembers(Step(t, s), run + [s])
  {
    var u, more := Step(t, s), run + [s];
    assert more[..|run|] == run;
    forall i | 0 <= i < CacheSize && Live(u[i]) && u[i].state != Incomplete
      ensures LastHeard(more, u[i].pa) == Some((u[i].ha, u[i].timeval))
    {
      if s.event.Heard? && u[i].pa == s.event.spa && u[i] == t[i] {
        assert Holds(t[i], s.event.spa);
        assert i == Find(t, s.event.spa);
      }
    }
  }

  /** Over any run, a found address is the one most recently heard from there, complete or no answer at all. */
  lemma ResolveIsLastHeard(run: seq<Stamped>, pa: PAddr, now: Time)
    requires Resolve(Run(run), pa, now).1.Found?
    ensures LastHeard(run, pa).Some? && LastHeard(run, pa).value.0 == Resolve(Run(run), pa, now).1.ha
  {
    RunRemembers(run);
  }

  ghost predicate Chronological(run: seq<Stamped>) {
    forall i, j | 0 <= i < j < |run| :: run[i].now <= run[j].now
  }

  ghost predicate Recent(t: Table, now: Time) {
    forall i | 0 <= i < CacheSize && Live(t[i]) :: t[i].timeval + Timeout >= now
  }

  lemma {:induction false} RunRecent(run: seq<Stamped>, k: nat)
    requires Chronological(run) && k < |run| && run[k].event.Ticked?
    ensures Recent(Run(run), run[k].now)
  {
    var n := |run| - 1;
    if k < n {
      RunRecent(run[..n], k);
    }
  }

  /** After an expiry pass no answer rests on a message heard more than 30 seconds before it. */
  lemma AnswersAreRecent(run: seq<Stamped>, k: nat, pa: PAddr, now: Time)
    requires Chronological(run) && k < |run| && run[k].event.Ticked?
    requires Resolve(Run(run), pa, now).1.Found?
    ensures LastHeard(run, pa).Some? && LastHeard(run, pa).value.1 + Timeout >= run[k].now
  {
    RunRemembers(run);
    RunRecent(run, k);
  }

  // ---------------------------------------------------------------- expiry without the lock

  /** The timer looks at a copy and deletes, without the lock, from the table as it is by then. */
  function ExpireLate(copy: Table, t: Table, now: Time): Table {
    seq(CacheSize, i requires 0 <= i < CacheSize => if Expired(copy[i], now) then FreeEntry else t[i])
  }

  /** Deleting late is an expiry pass exactly if no slot has expired, or stopped to be expired, in between. */
  lemma LateExpiryIff(copy: Table, t: Table, now: Time)
    ensures ExpireLate(copy, t, now) == Expire(t, now) <==>
      forall i | 0 <= i < CacheSize :: ExpireSame(copy[i], t[i], now)
  {
    var late, pass := ExpireLate(copy, t, now), Expire(t, now);
    assert forall i | 0 <= i < CacheSize :: late[i] == pass[i] <==> ExpireSame(copy[i], t[i], now);
    if late == pass {
      assert forall i | 0 <= i < CacheSize :: late[i] == pass[i];
    }
  }

  predicate ExpireSame(was: Entry, e: Entry, now: Time) {
    if Expired(was, now) then Expired(e, now) || e == FreeEntry else !Expired(e, now)
  }

  /** A message heard between copy and deletion is kept exactly if the entry that it renews had not expired. */
  lemma RenewedKeptIff(t: Table, pa: PAddr, ha: HAddr, heard: Time, now: Time)
    requires Unique(t) && Present(t, pa)
    ensures Present(ExpireLate(t, Update(t, pa, ha, heard).0, now), pa) <==> !Expired(t[Find(t, pa)], now)
  {
    var k := Find(t, pa);
    var u := ExpireLate(t, Update(t, pa, ha, heard).0, now);
    if Expired(t[k], now) {
      assert forall i | 0 <= i < CacheSize && i != k :: !Holds(t[i], pa);
      assert forall i | 0 <= i < CacheSize :: !Holds(u[i], pa);
    } else {
      PresentAt(u, k, pa);
    }
  }

  // ---------------------------------------------------------------- a full table

  lemma {:induction false} ScanIs(t: Table, n: nat)
    requires n <= CacheSize
    ensures var (id, oldest) := Scan(t, n);
      && oldest <= 0
      && (forall i | 0 <= i < n :: oldest <= t[i].timeval)
      && (oldest < 0 ==> t[id].timeval == oldest)
      && (oldest == 0 ==> id == 0)
  {
    if n > 0 {
      ScanIs(t, n - 1);
    }
  }

  ghost predicate IsOldest(t: Table, k: nat)
    requires k < CacheSize
  {
    forall i | 0 <= i < CacheSize :: t[k].timeval <= t[i].timeval
  }

  /** A full table gives up its oldest entry exactly if something precedes the zero time or slot 0 is the oldest. */
  lemma AllocIsOldestIff(t: Table)
    requires FirstFree(t) == CacheSize
    ensures IsOldest(t, Alloc(t)) <==> (exists i | 0 <= i < CacheSize :: t[i].timeval < 0) || IsOldest(t, 0)
  {
    ScanIs(t, CacheSize);
  }

  /** When the table is full, each new address drives out the one that came before it, and nothing else. */
  lemma FullTableForgetsTheNewest(t: Table, a: PAddr, ha: HAddr, b: PAddr, earlier: Time, now: Time)
    requires Unique(t) && FirstFree(t) == CacheSize && !Present(t, a) && !Present(t, b) && a != b
    requires earlier >= 0 && forall i | 0 <= i < CacheSize :: t[i].timeval >= 0
    ensures var u := Resolve(Insert(t, a, ha, earlier), b, now).0;
      !Present(u, a) && Present(u, b) && u[1..] == t[1..]
  {
    ScanIs(t, CacheSize);
    var s := Insert(t, a, ha, earlier);
    ScanIs(s, CacheSize);
    assert forall i | 0 <= i < CacheSize :: Live(s[i]);
    assert FirstFree(s) == CacheSize;
    assert !Present(s, b);
    var u := Resolve(s, b, now).0;
    assert Holds(u[0], b);
    assert forall i | 0 < i < CacheSize :: u[i] == t[i] && !Holds(t[i], a);
  }
}
