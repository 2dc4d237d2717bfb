// Which pairs a host wants (src/topology.rs, `autodetect`).
//
// Greedy over the interfaces by name. Of the ports of one card at most one may answer for a
// segment, a segment being a bridge and what is stacked on it.

module Autodetect {
  import opened Basics
  import opened Interfaces

  datatype Found = Found(dev: Index, bridge: Index)

  /** One segment: equal bridges, or one of them built on the other. */
  ghost predicate Related(t: Topology, a: Index, b: Index) {
    a == b || b in t.ReachOf(a).stackedBridges || a in t.ReachOf(b).stackedBridges
  }

  ghost predicate CouldBeUplink(t: Topology, i: Index) {
    && i in t.links
    && (t.links[i].numvfs > 0 || t.links[i].pfNetdevs != [] ||
        (t.links[i].filterBelow.Some? && t.FunctionsBehind(i) != {}))
  }

  ghost predicate IsCandidate(t: Topology, f: Found) {
    CouldBeUplink(t, f.dev) && exists port :: t.BridgeAboveOf(f.dev) == Some((f.bridge, port))
  }

  /** Another physical function of the same card already carries the segment. */
  ghost predicate AnotherFunctionCarries(t: Topology, f: Found) {
    exists pf, b, port ::
      pf in t.FunctionsBehind(f.dev) && pf != f.dev &&
      t.BridgeAboveOf(pf) == Some((b, port)) && Related(t, b, f.bridge)
  }

  /** Two uplinks of one function on one segment. */
  ghost predicate Clash(t: Topology, f: Found, g: Found) {
    Related(t, f.bridge, g.bridge) && t.FunctionsBehind(f.dev) * t.FunctionsBehind(g.dev) != {}
  }

  method RelatedBridges(t: Topology, a: Index, b: Index) returns (r: bool)
    ensures r <==> Related(t, a, b)
  {
    var fromA := t.ReachFrom(a);
    var fromB := t.ReachFrom(b);
    r := a == b || b in fromA.stackedBridges || a in fromB.stackedBridges;
  }

  method Behind(t: Topology, dev: Index) returns (functions: set<Index>)
    ensures functions == t.FunctionsBehind(dev)
  {
    var card := t.FilterCarrier(dev);
    functions := t.PhysicalFunctions(card);
  }

  method CarriedElsewhere(t: Topology, f: Found) returns (r: bool)
    ensures r <==> AnotherFunctionCarries(t, f)
  {
    hide Related, Topology.BridgeAboveOf, Topology.FunctionsBehind;
    var functions := Behind(t, f.dev);
    var todo := functions;
    while todo != {}
      invariant todo <= functions
      invariant forall pf, b, port ::
                  (pf in functions && pf !in todo && pf != f.dev && t.BridgeAboveOf(pf) == Some((b, port))) ==>
                    !Related(t, b, f.bridge)
      decreases todo
    {
      var pf :| pf in todo;
      todo := todo - {pf};
      var above := t.BridgeAbove(pf);
      if pf != f.dev && above.Some? {
        var related := RelatedBridges(t, above.value.0, f.bridge);
        if related {
          return true;
        }
      }
    }
    return false;
  }

  method Clashes(t: Topology, f: Found, g: Found) returns (r: bool)
    ensures r <==> Clash(t, f, g)
  {
    var related := RelatedBridges(t, f.bridge, g.bridge);
    var ours := Behind(t, f.dev);
    var theirs := Behind(t, g.dev);
    r := related && ours * theirs != {};
  }

  method ClashesWithTaken(t: Topology, taken: seq<Found>, f: Found) returns (r: bool)
    ensures r <==> exists k :: 0 <= k < |taken| && Clash(t, taken[k], f)
  {
    hide *;
    for k := 0 to |taken|
      invariant forall j :: 0 <= j < k ==> !Clash(t, taken[j], f)
    {
      r := Clashes(t, taken[k], f);
      if r {
        return;
      }
    }
    r := false;
  }

  /** What is settled about a candidate that came up after the interfaces of `earlier`. */
  ghost predicate Settled(t: Topology, taken: seq<Found>, f: Found, earlier: seq<Index>) {
    || f in taken
    || AnotherFunctionCarries(t, f)
    || exists k :: 0 <= k < |taken| && taken[k].dev in earlier && Clash(t, taken[k], f)
  }

  ghost predicate Sound(t: Topology, taken: seq<Found>) {
    && (forall f :: f in taken ==> IsCandidate(t, f) && !AnotherFunctionCarries(t, f))
    && (forall j, k :: 0 <= j < k < |taken| ==> !Clash(t, taken[j], taken[k]))
  }

  /**
   * The pairs of a host, for any order in which the interfaces come up. Sound: no two pairs
   * clash and none sits where another function of its card already carries the segment.
   * Maximal, first come first served: a candidate is left out only because of such a
   * function, or for a clash with a pair taken before it.
   */
  method Detect(t: Topology, order: seq<Index>) returns (taken: seq<Found>)
    ensures Sound(t, taken)
    ensures forall f :: f in taken ==> f.dev in order
    ensures forall n, f :: 0 <= n < |order| && IsCandidate(t, f) && f.dev == order[n] ==>
              Settled(t, taken, f, order[..n])
  {
    hide Settled, IsCandidate;
    taken := [];
    for n := 0 to |order|
      invariant Sound(t, taken)
      invariant forall f :: f in taken ==> f.dev in order[..n]
      invariant forall m, f :: 0 <= m < n && IsCandidate(t, f) && f.dev == order[m] ==>
                  Settled(t, taken, f, order[..m])
    {
      ghost var before := taken;
      assert order[..n + 1] == order[..n] + [order[n]];
      taken := Consider(t, taken, order[n], order[..n]);
      forall m, f | 0 <= m < n && IsCandidate(t, f) && f.dev == order[m]
        ensures Settled(t, taken, f, order[..m])
      {
        SettledStays(t, before, taken, f, order[..m]);
      }
    }
    assert order[..|order|] == order;
  }

  lemma SettledStays(t: Topology, before: seq<Found>, after: seq<Found>, f: Found, earlier: seq<Index>)
    requires Settled(t, before, f, earlier) && before <= after
    ensures Settled(t, after, f, earlier)
  {
    if k :| 0 <= k < |before| && before[k].dev in earlier && Clash(t, before[k], f) {
      assert after[k] == before[k];
    }
  }

  method Consider(t: Topology, taken: seq<Found>, i: Index, ghost earlier: seq<Index>) returns (after: seq<Found>)
    requires Sound(t, taken)
    requires forall f :: f in taken ==> f.dev in earlier
    ensures Sound(t, after) && taken <= after
    ensures forall f :: f in after ==> f in taken || f.dev == i
    ensures forall f :: IsCandidate(t, f) && f.dev == i ==> Settled(t, after, f, earlier)
  {
    after := taken;
    var could := CanBeUplink(t, i);
    if !could {
      return;
    }
    var above := t.BridgeAbove(i);
    if above.None? {
      return;
    }
    var f := Found(i, above.value.0);
    assert forall g :: IsCandidate(t, g) && g.dev == i ==> g == f;
    var elsewhere := CarriedElsewhere(t, f);
    if elsewhere {
      return;
    }
    var clashes := ClashesWithTaken(t, taken, f);
    if clashes {
      return;
    }
    after := taken + [f];
    assert IsCandidate(t, f) by {
      assert t.BridgeAboveOf(f.dev) == Some((f.bridge, above.value.1));
    }
  }

  method CanBeUplink(t: Topology, i: Index) returns (r: bool)
    ensures r <==> CouldBeUplink(t, i)
  {
    if i !in t.links {
      return false;
    }
    if t.links[i].numvfs > 0 || t.links[i].pfNetdevs != [] {
      return true;
    }
    var functions := Behind(t, i);
    r := t.links[i].filterBelow.Some? && functions != {};
  }

  // ----- the order the interfaces come up in

  /** Code point by code point, a beginning before what goes on. */
  predicate NotAfter(a: string, b: string) {
    if a == "" then true
    else if b == "" then false
    else if a[0] != b[0] then a[0] < b[0]
    else NotAfter(a[1..], b[1..])
  }

  lemma {:induction false} NotAfterIsTotal(a: string, b: string)
    ensures NotAfter(a, b) || NotAfter(b, a)
  {
    if a != "" && b != "" && a[0] == b[0] {
      NotAfterIsTotal(a[1..], b[1..]);
    }
  }

  lemma {:induction false} NotAfterIsTransitive(a: string, b: string, c: string)
    requires NotAfter(a, b) && NotAfter(b, c)
    ensures NotAfter(a, c)
  {
    if a != "" && b != "" && c != "" && a[0] == b[0] == c[0] {
      NotAfterIsTransitive(a[1..], b[1..], c[1..]);
    }
  }

  function NameAt(t: Topology, i: Index): string {
    if i in t.links then t.links[i].name else ""
  }

  predicate IsFirstByName(t: Topology, todo: set<Index>, i: Index) {
    i in todo && forall j :: j in todo ==> NotAfter(NameAt(t, i), NameAt(t, j))
  }

  method FirstByName(t: Topology, pool: set<Index>) returns (i: Index)
    requires pool != {}
    ensures IsFirstByName(t, pool, i)
  {
    hide NotAfter;
    i :| i in pool;
    NotAfterIsTotal(NameAt(t, i), NameAt(t, i));
    var todo := pool - {i};
    while todo != {}
      invariant todo <= pool && IsFirstByName(t, pool - todo, i)
      decreases todo
    {
      var j :| j in todo;
      ghost var done := pool - todo;
      todo := todo - {j};
      assert pool - todo == done + {j};
      NotAfterIsTotal(NameAt(t, i), NameAt(t, j));
      NotAfterIsTotal(NameAt(t, j), NameAt(t, j));
      if !NotAfter(NameAt(t, i), NameAt(t, j)) {
        forall k | k in done
          ensures NotAfter(NameAt(t, j), NameAt(t, k))
        {
          NotAfterIsTransitive(NameAt(t, j), NameAt(t, i), NameAt(t, k));
        }
        i := j;
      }
    }
    assert pool - todo == pool;
  }

  /** Every interface once, in order of name. */
  ghost predicate InNameOrder(t: Topology, order: seq<Index>) {
    && (forall i :: i in order <==> i in t.links)
    && (forall j, k :: 0 <= j < k < |order| ==> order[j] != order[k] && NotAfter(NameAt(t, order[j]), NameAt(t, order[k])))
  }

  method ByName(t: Topology) returns (order: seq<Index>)
    ensures InNameOrder(t, order)
  {
    hide NotAfter;
    order := [];
    var todo := t.links.Keys;
    while todo != {}
      invariant todo <= t.links.Keys
      invariant forall i :: i in order <==> i in t.links && i !in todo
      invariant forall j, k :: 0 <= j < k < |order| ==>
                  order[j] != order[k] && NotAfter(NameAt(t, order[j]), NameAt(t, order[k]))
      invariant forall i, j :: i in order && j in todo ==> NotAfter(NameAt(t, i), NameAt(t, j))
      decreases todo
    {
      var i := FirstByName(t, todo);
      order, todo := order + [i], todo - {i};
    }
  }

  /**
   * The pairs of a host. First in name order wins: a candidate is declined only where another
   * function of its card carries the segment, or for a clash with a pair whose interface comes
   * before it by name.
   */
  method Autodetect(t: Topology) returns (taken: seq<Found>)
    ensures Sound(t, taken)
    ensures forall f :: IsCandidate(t, f) ==>
              || f in taken
              || AnotherFunctionCarries(t, f)
              || exists g :: g in taken && g.dev != f.dev && NotAfter(NameAt(t, g.dev), NameAt(t, f.dev)) && Clash(t, g, f)
  {
    hide NotAfter, Clash, AnotherFunctionCarries, Sound;
    var order := ByName(t);
    taken := Detect(t, order);
    forall f | IsCandidate(t, f) && f !in taken && !AnotherFunctionCarries(t, f)
      ensures exists g :: g in taken && g.dev != f.dev && NotAfter(NameAt(t, g.dev), NameAt(t, f.dev)) && Clash(t, g, f)
    {
      assert f.dev in order;
      var n :| 0 <= n < |order| && order[n] == f.dev;
      assert Settled(t, taken, f, order[..n]);
      var k :| 0 <= k < |taken| && taken[k].dev in order[..n] && Clash(t, taken[k], f);
      var j :| 0 <= j < n && order[j] == taken[k].dev;
      assert taken[k] in taken;
    }
  }
}
