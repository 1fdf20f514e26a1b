/** The ARP cache as the program keeps it: a fixed array overwritten by index. */
module Arp {
  import opened Words
  import opened ArpSpec

  class Cache {
    const caches: array<Entry>

    ghost predicate Valid()
      reads this
    {
      caches.Length == CacheSize
    }

    ghost function Contents(): Table
      reads this, caches
      requires Valid()
    {
      caches[..]
    }

    constructor ()
      ensures Valid() && fresh(caches) && Contents() == Run([])
    {
      caches := new Entry[CacheSize](_ => FreeEntry);
      new;
      assert caches[..] == Frees(CacheSize);
    }

    method CacheAlloc() returns (id: nat)
      requires Valid()
      ensures id == Alloc(Contents())
    {
      id := 0;
      var oldest := FreeEntry;
      var i := 0;
      while i < CacheSize
        invariant 0 <= i <= CacheSize && (id, oldest.timeval) == Scan(Contents(), i)
        invariant forall j | 0 <= j < i :: Live(caches[j])
      {
        var cache := caches[i];
        if cache.state == Free {
          return i;
        }
        if oldest.timeval > cache.timeval {
          id := i;
          oldest := cache;
        }
        i := i + 1;
      }
    }

    method CacheInsert(pa: PAddr, ha: HAddr, now: Time)
      requires Valid()
      modifies caches
      ensures Contents() == Insert(old(Contents()), pa, ha, now)
    {
      var id := CacheAlloc();
      caches[id] := Entry(Resolved, pa, ha, now);
    }

    method CacheSelect(pa: PAddr) returns (r: Option<nat>)
      requires Valid()
      ensures r == if Present(Contents(), pa) then Some(Find(Contents(), pa)) else None
    {
      var i := 0;
      while i < CacheSize
        invariant 0 <= i <= CacheSize
        invariant forall j | 0 <= j < i :: !Holds(caches[j], pa)
      {
        var cache := caches[i];
        if cache.state != Free && cache.pa == pa {
          return Some(i);
        }
        i := i + 1;
      }
      r := None;
    }

    method CacheUpdate(pa: PAddr, ha: HAddr, now: Time) returns (ok: bool)
      requires Valid()
      modifies caches
      ensures (Contents(), ok) == Update(old(Contents()), pa, ha, now)
    {
      var id := CacheSelect(pa);
      if id.None? {
        return false;
      }
      caches[id.value] := Entry(Resolved, pa, ha, now);
      ok := true;
    }

    method CacheDelete(id: int) returns (ok: bool)
      requires Valid()
      modifies caches
      ensures ok <==> Delete(old(Contents()), id).Some?
      ensures Contents() == if ok then Delete(old(Contents()), id).value else old(Contents())
    {
      if id < 0 || id >= CacheSize {
        return false;
      }
      caches[id] := FreeEntry;
      ok := true;
    }

    /** The part of the receive handler that touches the cache. */
    method RxHandler(spa: PAddr, sha: HAddr, forUs: bool, now: Time)
      requires Valid()
      modifies caches
      ensures Contents() == Step(old(Contents()), At(Heard(spa, sha, forUs), now))
    {
      var merge := CacheUpdate(spa, sha, now);
      if !forUs {
        return;
      }
      if !merge {
        CacheInsert(spa, sha, now);
      }
    }

    method ResolveAddress(pa: PAddr, now: Time) returns (r: Answer, requested: bool)
      requires Valid()
      modifies caches
      ensures (Contents(), r) == Resolve(old(Contents()), pa, now)
      ensures Contents() == Step(old(Contents()), At(Asked(pa), now))
      ensures requested <==> !r.Found?
    {
      var index := CacheSelect(pa);
      if index.None? {
        var id := CacheAlloc();
        caches[id] := Entry(Incomplete, pa, 0, now);
        return NotFound, true;
      }
      if caches[index.value].state == Incomplete {
        return NotYet, true;
      }
      r, requested := Found(caches[index.value].ha), false;
    }

    /** One pass of the timer, over a copy of the array taken when the loop starts. */
    method TimerPass(now: Time)
      requires Valid()
      modifies caches
      ensures Contents() == Step(old(Contents()), At(Ticked, now))
    {
      var copy := caches[..];
      var i := 0;
      while i < CacheSize
        invariant 0 <= i <= CacheSize && copy == old(caches[..])
        invariant forall j | 0 <= j < i :: caches[j] == ExpireEntry(copy[j], now)
        invariant forall j | i <= j < CacheSize :: caches[j] == copy[j]
      {
        var cache := copy[i];
        if cache.state != Free && cache.timeval + Timeout < now {
          var _ := CacheDelete(i);
        }
        i := i + 1;
      }
    }
  }
}
