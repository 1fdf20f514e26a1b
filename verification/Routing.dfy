/** The routing table: what the lookup is meant to return, and what its loop returns. */
module Routing {
  import opened Words

  type Word32 = bv32

  /** `iface` stands for the interface the route points to. */
  datatype Route = Route(network: Word32, netmask: Word32, nexthop: Word32, iface: nat)

  predicate Matches(r: Route, dst: Word32) {
    dst & r.netmask == r.network
  }

  /** The bytes of `v` in the opposite order. */
  function Ntoh32(v: Word32): Word32 {
    ((v & 0xff) << 24) | ((v & 0xff00) << 8) | ((v & 0xff_0000) >> 8) | (v >> 24)
  }

  // ---------------------------------------------------------------- byte-swapped masks

  /** The netmask of a prefix of `n` bits. */
  function Mask(n: bv6): Word32
    requires n <= 32
  {
    if n == 0 then 0 else 0xffff_ffff << (32 - n)
  }

  /** The lookup's comparison orders netmasks exactly by prefix length. */
  lemma ComparisonIsByPrefix(m: bv6, n: bv6)
    requires m <= 32 && n <= 32
    ensures Ntoh32(Mask(m)) < Ntoh32(Mask(n)) <==> m as int < n as int
  {
    assert Ntoh32(Mask(m)) < Ntoh32(Mask(n)) <==> m < n;
  }

  // ---------------------------------------------------------------- longest prefix

  /** The lookup prefers `s` to `r`. */
  predicate Longer(s: Route, r: Route) {
    Ntoh32(r.netmask) < Ntoh32(s.netmask)
  }

  ghost predicate HasPrefix(r: Route, n: bv6) {
    n <= 32 && r.netmask == Mask(n)
  }

  /** Every netmask is contiguous, with a prefix of `bits[i]` bits. */
  ghost predicate Measured(routes: seq<Route>, bits: seq<bv6>) {
    |bits| == |routes| && forall i | 0 <= i < |routes| :: HasPrefix(routes[i], bits[i])
  }

  function Lengths(bits: seq<bv6>): (lens: seq<nat>)
    ensures |lens| == |bits| && forall i | 0 <= i < |bits| :: lens[i] == bits[i] as int
  {
    seq(|bits|, i requires 0 <= i < |bits| => bits[i] as int)
  }

  /** The preference is by these lengths. */
  ghost predicate Ordered(routes: seq<Route>, lens: seq<nat>) {
    && |lens| == |routes|
    && forall i, j | 0 <= i < |routes| && 0 <= j < |routes| :: Longer(routes[j], routes[i]) <==> lens[i] < lens[j]
  }

  lemma LongerIsByPrefix(r: Route, s: Route, m: bv6, n: bv6)
    requires HasPrefix(r, m) && HasPrefix(s, n)
    ensures Longer(s, r) <==> m as int < n as int
  {
    ComparisonIsByPrefix(m, n);
  }

  lemma MeasuredIsOrdered(routes: seq<Route>, bits: seq<bv6>)
    requires Measured(routes, bits)
    ensures Ordered(routes, Lengths(bits))
  {
    forall i, j | 0 <= i < |routes| && 0 <= j < |routes|
      ensures Longer(routes[j], routes[i]) <==> Lengths(bits)[i] < Lengths(bits)[j]
    {
      LongerIsByPrefix(routes[i], routes[j], bits[i], bits[j]);
    }
  }

  /** Which routes match. */
  function Hits(routes: seq<Route>, dst: Word32): (hits: seq<bool>)
    ensures |hits| == |routes| && forall i | 0 <= i < |routes| :: hits[i] == Matches(routes[i], dst)
  {
    seq(|routes|, i requires 0 <= i < |routes| => Matches(routes[i], dst))
  }

  /** Route `i` matches, no matching route is longer, and none as long was added before it. */
  ghost predicate IsLongest(hits: seq<bool>, lens: seq<nat>, i: nat)
    requires |lens| == |hits|
  {
    && i < |hits|
    && hits[i]
    && forall j | 0 <= j < |hits| && hits[j] :: lens[j] < lens[i] || (lens[j] == lens[i] && i <= j)
  }

  predicate AnyMatch(routes: seq<Route>, dst: Word32) {
    exists i | 0 <= i < |routes| :: Matches(routes[i], dst)
  }

  /** The lookup with the candidate held by value. */
  function ByValue(routes: seq<Route>, dst: Word32): Option<Route> {
    if routes == [] then None
    else
      var last := routes[|routes| - 1];
      var before := ByValue(routes[..|routes| - 1], dst);
      if !Matches(last, dst) || (before.Some? && !Longer(last, before.value)) then before
      else Some(last)
  }

  lemma {:induction false} ByValueIsLongest(routes: seq<Route>, lens: seq<nat>, dst: Word32) returns (k: nat)
    requires Ordered(routes, lens)
    ensures ByValue(routes, dst).None? <==> !AnyMatch(routes, dst)
    ensures ByValue(routes, dst).Some?
        ==> IsLongest(Hits(routes, dst), lens, k) && ByValue(routes, dst) == Some(routes[k])
  {
    k := 0;
    if routes != [] {
      var n := |routes| - 1;
      var shorter := routes[..n];
      assert forall i | 0 <= i < n :: shorter[i] == routes[i];
      k := ByValueIsLongest(shorter, lens[..n], dst);
      if Matches(routes[n], dst) && (ByValue(shorter, dst).None? || lens[k] < lens[n]) {
        k := n;
      }
    }
  }

  /** By value the lookup returns the first of the longest matching routes, and fails exactly if none matches. */
  lemma LongestPrefixMatch(routes: seq<Route>, bits: seq<bv6>, dst: Word32) returns (k: nat)
    requires Measured(routes, bits)
    ensures ByValue(routes, dst).None? <==> !AnyMatch(routes, dst)
    ensures ByValue(routes, dst).Some?
        ==> IsLongest(Hits(routes, dst), Lengths(bits), k) && ByValue(routes, dst) == Some(routes[k])
  {
    MeasuredIsOrdered(routes, bits);
    k := ByValueIsLongest(routes, Lengths(bits), dst);
  }

  // ---------------------------------------------------------------- what the loop returns

  /** The candidate points to the loop variable, and so to whatever route came last. */
  function Returned(routes: seq<Route>, dst: Word32): Option<Route> {
    if AnyMatch(routes, dst) then Some(routes[|routes| - 1]) else None
  }

  /**
   * The last route matches, no match is longer than it, and each match as long comes after a copy of it, or is it.
   */
  ghost predicate LastIsLongest<T>(routes: seq<T>, hits: seq<bool>, lens: seq<nat>)
    requires |lens| == |hits| == |routes| > 0
  {
    var n := |routes| - 1;
    && hits[n]
    && forall i | 0 <= i <= n && hits[i] ::
         lens[i] < lens[n] || (lens[i] == lens[n] && exists j | 0 <= j <= i :: routes[j] == routes[n])
  }

  /** Equal routes match alike and have equal lengths. */
  ghost predicate Determined<T>(routes: seq<T>, hits: seq<bool>, lens: seq<nat>) {
    && |lens| == |hits| == |routes|
    && forall i, j | 0 <= i < |routes| && 0 <= j < |routes| && routes[i] == routes[j] ::
         lens[i] == lens[j] && hits[i] == hits[j]
  }

  lemma OrderedIsDetermined(routes: seq<Route>, lens: seq<nat>, dst: Word32)
    requires Ordered(routes, lens)
    ensures Determined(routes, Hits(routes, dst), lens)
  {
    forall i, j | 0 <= i < |routes| && 0 <= j < |routes| && routes[i] == routes[j]
      ensures lens[i] == lens[j]
    {
      assert !Longer(routes[i], routes[j]) && !Longer(routes[j], routes[i]);
    }
  }

  lemma LastIsReturned<T>(routes: seq<T>, hits: seq<bool>, lens: seq<nat>, k: nat)
    requires Determined(routes, hits, lens) && IsLongest(hits, lens, k)
    ensures routes[k] == routes[|routes| - 1] <==> LastIsLongest(routes, hits, lens)
  {
    var n := |routes| - 1;
    if LastIsLongest(routes, hits, lens) {
      var j :| 0 <= j <= k && routes[j] == routes[n];
      assert hits[j] && lens[j] == lens[n];
    }
  }

  /** The loop returns the longest match exactly if nothing matches or the route added last is the longest match. */
  lemma LookupCorrectIff(routes: seq<Route>, bits: seq<bv6>, dst: Word32)
    requires Measured(routes, bits)
    ensures Returned(routes, dst) == ByValue(routes, dst)
       <==> !AnyMatch(routes, dst) || LastIsLongest(routes, Hits(routes, dst), Lengths(bits))
  {
    var lens := Lengths(bits);
    MeasuredIsOrdered(routes, bits);
    var k := ByValueIsLongest(routes, lens, dst);
    if AnyMatch(routes, dst) {
      OrderedIsDetermined(routes, lens, dst);
      LastIsReturned(routes, Hits(routes, dst), lens, k);
    }
  }

  /**
   * What one more route changes: it should take over exactly where it matches and is longer than what was found, and
   * does take over wherever it or any other route matches. So the lookup is right afterwards exactly if nothing
   * matches, or the new route should take over, or is the same as the one found.
   */
  lemma LookupAfterAdd(routes: seq<Route>, r: Route, dst: Word32)
    ensures Returned(routes + [r], dst) == if Matches(r, dst) || AnyMatch(routes, dst) then Some(r) else None
    ensures ByValue(routes + [r], dst) == if TakesOver(routes, r, dst) then Some(r) else ByValue(routes, dst)
    ensures Returned(routes + [r], dst) == ByValue(routes + [r], dst) <==>
      (!Matches(r, dst) && !AnyMatch(routes, dst)) || TakesOver(routes, r, dst) || ByValue(routes, dst) == Some(r)
  {
    var all, n := routes + [r], |routes|;
    assert all[..n] == routes && all[n] == r;
    assert forall i | 0 <= i < n :: all[i] == routes[i];
    SomeIffAnyMatch(routes, dst);
  }

  predicate TakesOver(routes: seq<Route>, r: Route, dst: Word32) {
    Matches(r, dst) && (ByValue(routes, dst).None? || Longer(r, ByValue(routes, dst).value))
  }

  lemma {:induction false} SomeIffAnyMatch(routes: seq<Route>, dst: Word32)
    ensures ByValue(routes, dst).Some? <==> AnyMatch(routes, dst)
  {
    if routes != [] {
      var n := |routes| - 1;
      var shorter := routes[..n];
      assert forall i | 0 <= i < n :: shorter[i] == routes[i];
      SomeIffAnyMatch(shorter, dst);
    }
  }

  /** The route that `SetDefaultGateway` adds. */
  function DefaultRoute(gateway: Word32, iface: nat): Route {
    Route(0, 0, gateway, iface)
  }

  /** A sole default route added last takes every destination: rightly exactly if no other route matches. */
  lemma DefaultRouteTakesAll(routes: seq<Route>, bits: seq<bv6>, gateway: Word32, iface: nat, dst: Word32)
    requires Measured(routes, bits) && forall i | 0 <= i < |bits| :: bits[i] != 0
    ensures var all := routes + [DefaultRoute(gateway, iface)];
      && Returned(all, dst) == Some(DefaultRoute(gateway, iface))
      && (Returned(all, dst) == ByValue(all, dst) <==> !AnyMatch(routes, dst))
  {
    var all, n := routes + [DefaultRoute(gateway, iface)], |routes|;
    assert Matches(all[n], dst);
    assert all[..n] == routes;
    var k := LongestPrefixMatch(routes, bits, dst);
    if AnyMatch(routes, dst) {
      NotDefault(routes[k], bits[k]);
    }
  }

  lemma NotDefault(r: Route, n: bv6)
    requires HasPrefix(r, n) && n != 0
    ensures r.netmask != 0 && forall gateway, iface :: !Longer(DefaultRoute(gateway, iface), r)
  {
  }

  // ---------------------------------------------------------------- the program's table

  /** The single variable that the loop assigns on each turn. */
  class LoopVariable {
    var route: Route

    constructor (r: Route)
      ensures route == r
    {
      route := r;
    }
  }

  class Table {
    var routes: seq<Route>

    constructor ()
      ensures routes == []
    {
      routes := [];
    }

    method RouteAdd(network: Word32, netmask: Word32, nexthop: Word32, iface: nat)
      modifies this
      ensures routes == old(routes) + [Route(network, netmask, nexthop, iface)]
    {
      routes := routes + [Route(network, netmask, nexthop, iface)];
    }

    method SetDefaultGateway(gateway: Word32, iface: nat)
      modifies this
      ensures routes == old(routes) + [DefaultRoute(gateway, iface)]
    {
      RouteAdd(0, 0, gateway, iface);
    }

    method LookupTable(dst: Word32) returns (r: Option<Route>)
      ensures r == Returned(routes, dst)
    {
      var variable := new LoopVariable(Route(0, 0, 0, 0));
      var candidate: LoopVariable? := null;
      var i := 0;
      while i < |routes|
        invariant 0 <= i <= |routes|
        invariant i > 0 ==> variable.route == routes[i - 1]
        invariant candidate == null || candidate == variable
        invariant candidate != null <==> AnyMatch(routes[..i], dst)
      {
        variable.route := routes[i];
        assert routes[..i + 1] == routes[..i] + [routes[i]];
        assert forall j | 0 <= j < i :: routes[..i + 1][j] == routes[..i][j];
        if Matches(variable.route, dst) {
          assert routes[..i + 1][i] == routes[i];
          if candidate == null || Ntoh32(candidate.route.netmask) < Ntoh32(variable.route.netmask) {
            candidate := variable;
          }
        }
        i := i + 1;
      }
      assert routes[..i] == routes;
      if candidate == null {
        return None;
      }
      r := Some(candidate.route);
    }
  }
}
