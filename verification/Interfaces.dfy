// The interface graph: which interface leads where (src/topology.rs).
//
// The graph may be cyclic and may name interfaces that are not in it, so every walk keeps a
// set of what it has seen. Each walk is proved against `Reaches`, plain path existence.

module Interfaces {
  import opened Basics

  type Index = nat

  /** An interface of the reading. */
  datatype Link = Link(
    name: string,
    index: Index,
    mac: Option<Mac>,
    master: Option<Index>,       // the bridge or bond over it
    lowers: seq<Index>,          // its members and what it is stacked on
    filterBelow: Option<Index>,  // whose unicast filter a VLAN interface writes into
    isBridge: bool,
    ageing: Option<nat>,         // a bridge's ageing time in milliseconds
    numvfs: nat,
    pfNetdevs: seq<Index>,       // for a VF, the interfaces of its PF
    vfNetdevs: seq<Index>,       // netdevs of this interface's VFs bound on the host
    uppers: seq<Index>,          // the inverse of `lowers`
    slaves: seq<Index>)          // the inverse of `master`

  function OneOrNone(i: Option<Index>): seq<Index> {
    if i.Some? then [i.value] else []
  }

  /** The five relations the walks follow. */
  datatype Relation = Lowers | Uppers | Masters | Carriers | Descent

  /** The three verdicts on a learn. */
  datatype Learn = Wire | Behind | NotOurs

  /** A bridge's own view of the graph: see `Topology.ReachOf`. */
  datatype Reach = Reach(bridge: Index, uplinkWard: set<Index>, stackedBridges: set<Index>) {

    function Classify(ifindex: Index, master: Index, port: Index): Learn {
      if master == bridge then
        if ifindex == port then Wire else Behind
      else if master in stackedBridges && ifindex !in uplinkWard then
        Behind
      else
        NotOurs
    }

    predicate Covers(b: Index) {
      b == bridge || b in stackedBridges
    }
  }

  /** The parts of a pair. Functions and siblings are kept as sets. */
  datatype Anatomy = Anatomy(
    dev: Index, bridge: Index, port: Index, card: Index, functions: set<Index>, siblings: set<Index>)

  datatype Topology = Topology(links: map<Index, Link>, byName: map<string, Index>) {

    predicate IsBridge(i: Index) {
      i in links && links[i].isBridge
    }

    function MasterOf(i: Index): Option<Index> {
      if i in links then links[i].master else None
    }

    function MacOf(i: Index): Option<Mac> {
      if i in links then links[i].mac else None
    }

    /** What `assemble` leaves behind: entries filed under their index, edges inverted. */
    ghost predicate Assembled() {
      && (forall i :: i in links ==> links[i].index == i)
      && (forall i, u :: i in links ==>
            (u in links[i].uppers <==> u in links && i in links[u].lowers))
      && (forall i, s :: i in links ==>
            (s in links[i].slaves <==> s in links && links[s].master == Some(i)))
    }

    // ----- paths

    function Successors(rel: Relation, i: Index): seq<Index> {
      if i !in links then
        []
      else
        var l := links[i];
        match rel
        case Lowers => l.lowers
        case Uppers => l.uppers
        case Masters => OneOrNone(l.master)
        case Carriers => OneOrNone(l.filterBelow)
        case Descent =>
          // a bridge is not looked through, and a card ends the descent
          if l.pfNetdevs != [] || l.numvfs > 0 || l.isBridge then []
          else l.slaves + OneOrNone(l.filterBelow)
    }

    ghost predicate IsPath(rel: Relation, p: seq<Index>) {
      && |p| > 0
      && forall k :: 0 <= k < |p| - 1 ==> p[k + 1] in Successors(rel, p[k])
    }

    ghost predicate Reaches(rel: Relation, a: Index, b: Index) {
      exists p :: IsPath(rel, p) && p[0] == a && p[|p| - 1] == b
    }

    lemma ReachesItself(rel: Relation, a: Index)
      ensures Reaches(rel, a, a)
    {
      assert IsPath(rel, [a]);
    }

    lemma ReachesOneMore(rel: Relation, a: Index, b: Index, c: Index)
      requires Reaches(rel, a, b) && c in Successors(rel, b)
      ensures Reaches(rel, a, c)
    {
      var p :| IsPath(rel, p) && p[0] == a && p[|p| - 1] == b;
      var q := p + [c];
      assert IsPath(rel, q) && q[0] == a && q[|q| - 1] == c;
    }

    lemma ReachesOneBefore(rel: Relation, a: Index, b: Index, c: Index)
      requires b in Successors(rel, a) && Reaches(rel, b, c)
      ensures Reaches(rel, a, c)
    {
      var p :| IsPath(rel, p) && p[0] == b && p[|p| - 1] == c;
      var q := [a] + p;
      assert forall k :: 0 <= k < |q| - 1 ==> q[k + 1] in Successors(rel, q[k]) by {
        forall k | 0 <= k < |q| - 1
          ensures q[k + 1] in Successors(rel, q[k])
        {
          if k > 0 {
            assert q[k] == p[k - 1] && q[k + 1] == p[k - 1 + 1];
          }
        }
      }
      assert IsPath(rel, q) && q[0] == a && q[|q| - 1] == c;
    }

    ghost predicate IsClosed(rel: Relation, s: set<Index>) {
      forall x, y :: x in s && y in Successors(rel, x) ==> y in s
    }

    lemma {:induction false} ClosedHoldsPath(rel: Relation, s: set<Index>, p: seq<Index>)
      requires IsClosed(rel, s) && IsPath(rel, p) && p[0] in s
      ensures p[|p| - 1] in s
      decreases |p|
    {
      if |p| > 1 {
        assert p[1] in Successors(rel, p[0]) by { assert p[0 + 1] in Successors(rel, p[0]); }
        assert IsPath(rel, p[1..]) by {
          forall k | 0 <= k < |p[1..]| - 1
            ensures p[1..][k + 1] in Successors(rel, p[1..][k])
          {
            assert p[(k + 1) + 1] in Successors(rel, p[k + 1]);
          }
        }
        ClosedHoldsPath(rel, s, p[1..]);
      }
    }

    lemma ClosedHoldsReachable(rel: Relation, s: set<Index>, a: Index, b: Index)
      requires IsClosed(rel, s) && a in s && Reaches(rel, a, b)
      ensures b in s
    {
      var p :| IsPath(rel, p) && p[0] == a && p[|p| - 1] == b;
      ClosedHoldsPath(rel, s, p);
    }

    /** Everything some edge of the relation leads to: with the roots, all a walk can meet. */
    ghost function Heads(rel: Relation): set<Index> {
      set i, k | i in links && 0 <= k < |Successors(rel, i)| :: Successors(rel, i)[k]
    }

    lemma SuccessorsAreHeads(rel: Relation, i: Index, y: Index)
      requires y in Successors(rel, i)
      ensures y in Heads(rel)
    {
      var k :| 0 <= k < |Successors(rel, i)| && Successors(rel, i)[k] == y;
    }

    ghost function ReachSet(rel: Relation, root: Index): (r: set<Index>)
      ensures forall x :: x in r <==> Reaches(rel, root, x)
    {
      var r := set x | x in Heads(rel) + {root} && Reaches(rel, root, x);
      assert forall x :: x in r <==> Reaches(rel, root, x) by {
        forall x | Reaches(rel, root, x)
          ensures x in Heads(rel) + {root}
        {
          assert IsClosed(rel, Heads(rel) + {root}) by {
            forall i, y | y in Successors(rel, i)
              ensures y in Heads(rel)
            {
              SuccessorsAreHeads(rel, i, y);
            }
          }
          ClosedHoldsReachable(rel, Heads(rel) + {root}, root, x);
        }
      }
      r
    }

    // ----- the walks

    /** What every walk keeps: what was seen is reachable, and what is left to see is stacked. */
    ghost predicate Walking(rel: Relation, root: Index, seen: set<Index>, stack: seq<Index>) {
      && seen <= Heads(rel) + {root}
      && (forall x :: x in seen || x in stack ==> Reaches(rel, root, x))
      && (forall x, y :: x in seen && y in Successors(rel, x) ==> y in seen || y in stack)
      && (root in seen || root in stack)
    }

    lemma WalkBegins(rel: Relation, root: Index)
      ensures Walking(rel, root, {}, [root])
    {
      ReachesItself(rel, root);
    }

    lemma WalkSkips(rel: Relation, root: Index, seen: set<Index>, stack: seq<Index>)
      requires Walking(rel, root, seen, stack) && stack != [] && stack[|stack| - 1] in seen
      ensures Walking(rel, root, seen, stack[..|stack| - 1])
    {
      assert stack == stack[..|stack| - 1] + [stack[|stack| - 1]];
    }

    lemma WalkAdvances(rel: Relation, root: Index, seen: set<Index>, stack: seq<Index>)
      requires Walking(rel, root, seen, stack) && stack != []
      ensures var cur := stack[|stack| - 1];
              Walking(rel, root, seen + {cur}, stack[..|stack| - 1] + Successors(rel, cur))
    {
      var cur, rest := stack[|stack| - 1], stack[..|stack| - 1];
      var next := Successors(rel, cur);
      assert forall y :: y in stack <==> y == cur || y in rest by {
        assert stack == rest + [cur];
      }
      assert forall y :: y in rest + next <==> y in rest || y in next;
      assert cur in ReachSet(rel, root);
      forall y | y in next
        ensures Reaches(rel, root, y)
      {
        ReachesOneMore(rel, root, cur, y);
      }
      forall x, y | x in seen + {cur} && y in Successors(rel, x)
        ensures y in seen + {cur} || y in rest + next
      {
        if x != cur {
          assert y in seen || y in stack;
        }
      }
    }

    lemma WalkEnds(rel: Relation, root: Index, seen: set<Index>)
      requires Walking(rel, root, seen, [])
      ensures seen == ReachSet(rel, root)
    {
      forall x | Reaches(rel, root, x)
        ensures x in seen
      {
        ClosedHoldsReachable(rel, seen, root, x);
      }
    }

    /** Everything one relation reaches from the root, itself included; cycles end at what was seen. */
    method Flood(rel: Relation, root: Index) returns (seen: set<Index>)
      ensures seen == ReachSet(rel, root)
    {
      seen := {};
      var stack := [root];
      WalkBegins(rel, root);
      while stack != []
        invariant Walking(rel, root, seen, stack)
        decreases Heads(rel) + {root} - seen, |stack|
      {
        var cur := stack[|stack| - 1];
        if cur in seen {
          WalkSkips(rel, root, seen, stack);
          stack := stack[..|stack| - 1];
        } else {
          WalkAdvances(rel, root, seen, stack);
          seen, stack := seen + {cur}, stack[..|stack| - 1] + Successors(rel, cur);
        }
      }
      WalkEnds(rel, root, seen);
    }

    /** Whether a path of lowers ends at the target. */
    method LeadsTo(dev: Index, target: Index) returns (r: bool)
      ensures r <==> Reaches(Lowers, dev, target)
    {
      if dev == target {
        ReachesItself(Lowers, dev);
        return true;
      }
      var seen: set<Index> := {};
      var stack := [dev];
      WalkBegins(Lowers, dev);
      while stack != []
        invariant Walking(Lowers, dev, seen, stack)
        invariant target !in seen && target !in stack
        decreases Heads(Lowers) + {dev} - seen, |stack|
      {
        var cur := stack[|stack| - 1];
        if cur in seen {
          WalkSkips(Lowers, dev, seen, stack);
          stack := stack[..|stack| - 1];
        } else {
          WalkAdvances(Lowers, dev, seen, stack);
          var next := Successors(Lowers, cur);
          seen, stack := seen + {cur}, stack[..|stack| - 1];
          ghost var held := stack;
          for i := 0 to |next|
            invariant stack == held + next[..i]
            invariant target !in stack
          {
            if next[i] == target {
              assert target in held + next;
              return true;
            }
            stack := stack + [next[i]];
          }
          assert stack == held + next;
        }
      }
      WalkEnds(Lowers, dev, seen);
      return false;
    }

    /** The end of an interface's VLAN stack. */
    method FilterCarrier(dev: Index) returns (cur: Index)
      ensures cur == CarrierOf(dev, {})
    {
      var seen := {};
      cur := dev;
      while cur !in seen
        invariant CarrierOf(dev, {}) == CarrierOf(cur, seen)
        decreases links.Keys - seen
      {
        if cur !in links || links[cur].filterBelow.None? {
          return;
        }
        seen, cur := seen + {cur}, links[cur].filterBelow.value;
      }
    }

    function CarrierOf(cur: Index, seen: set<Index>): Index
      decreases links.Keys - seen
    {
      if cur in seen || cur !in links || links[cur].filterBelow.None? then
        cur
      else
        CarrierOf(links[cur].filterBelow.value, seen + {cur})
    }

    /** Where the stack ends, or where its cycle closes. */
    lemma {:induction false} CarrierHoldsOrCycles(cur: Index, seen: set<Index>)
      requires forall x :: x in seen ==> x in links && links[x].filterBelow.Some?
      ensures var c := CarrierOf(cur, seen);
              && Reaches(Carriers, cur, c)
              && (c in seen || Successors(Carriers, c) == [] ||
                  exists d :: d in Successors(Carriers, c) && Reaches(Carriers, d, c))
      decreases links.Keys - seen
    {
      ReachesItself(Carriers, cur);
      if cur !in seen && cur in links && links[cur].filterBelow.Some? {
        var below := links[cur].filterBelow.value;
        CarrierHoldsOrCycles(below, seen + {cur});
        var c := CarrierOf(below, seen + {cur});
        assert below in Successors(Carriers, cur);
        ReachesOneBefore(Carriers, cur, below, c);
      }
    }

    lemma FilterCarrierHoldsTheList(dev: Index)
      ensures var c := CarrierOf(dev, {});
              && Reaches(Carriers, dev, c)
              && (Successors(Carriers, c) == [] ||
                  exists d :: d in Successors(Carriers, c) && Reaches(Carriers, d, c))
    {
      CarrierHoldsOrCycles(dev, {});
    }

    /** What one interface met on the descent adds to the physical functions. */
    function OwnFunctions(i: Index): seq<Index> {
      if i !in links then []
      else if links[i].pfNetdevs != [] then links[i].pfNetdevs
      else if links[i].numvfs > 0 then [i]
      else []
    }

    /** Named by anything the descent meets. */
    ghost function FunctionsOf(dev: Index): (r: set<Index>)
      ensures forall f :: f in r <==> exists x :: Reaches(Descent, dev, x) && f in OwnFunctions(x)
    {
      var r := FunctionsAmong(ReachSet(Descent, dev));
      assert forall f :: f in r <==> exists x :: x in ReachSet(Descent, dev) && f in OwnFunctions(x);
      r
    }

    /** The functions of the card whose filter an interface writes into. */
    ghost function FunctionsBehind(dev: Index): set<Index> {
      FunctionsOf(CarrierOf(dev, {}))
    }

    ghost function FunctionsAmong(seen: set<Index>): (r: set<Index>)
      ensures forall f :: f in r <==> exists x :: x in seen && f in OwnFunctions(x)
    {
      set x, k | x in seen && 0 <= k < |OwnFunctions(x)| :: OwnFunctions(x)[k]
    }

    lemma FunctionsAmongOneMore(seen: set<Index>, cur: Index)
      ensures FunctionsAmong(seen + {cur}) == FunctionsAmong(seen) + (set f | f in OwnFunctions(cur))
    {
      forall f | f in FunctionsAmong(seen)
        ensures f in FunctionsAmong(seen + {cur})
      {
        var x :| x in seen && f in OwnFunctions(x);
        assert x in seen + {cur};
      }
    }

    method PhysicalFunctions(dev: Index) returns (out: set<Index>)
      ensures out == FunctionsOf(dev)
    {
      out := {};
      var seen: set<Index> := {};
      var stack := [dev];
      WalkBegins(Descent, dev);
      while stack != []
        invariant Walking(Descent, dev, seen, stack)
        invariant out == FunctionsAmong(seen)
        decreases Heads(Descent) + {dev} - seen, |stack|
      {
        var cur := stack[|stack| - 1];
        if cur in seen {
          WalkSkips(Descent, dev, seen, stack);
          stack := stack[..|stack| - 1];
        } else {
          WalkAdvances(Descent, dev, seen, stack);
          FunctionsAmongOneMore(seen, cur);
          out := out + (set f | f in OwnFunctions(cur));
          seen, stack := seen + {cur}, stack[..|stack| - 1] + Successors(Descent, cur);
        }
      }
      WalkEnds(Descent, dev, seen);
    }

    // ----- the bridge above

    /** `port` is the first interface on the master chain of `dev` whose master is a bridge. */
    ghost predicate EntersBridge(dev: Index, br: Index, port: Index) {
      MasterOf(port) == Some(br) && IsBridge(br) &&
      exists p :: IsPath(Masters, p) && p[0] == dev && p[|p| - 1] == port && NoBridgeAfterFirst(p)
    }

    ghost predicate NoBridgeAfterFirst(p: seq<Index>) {
      forall k :: 0 < k < |p| ==> !IsBridge(p[k])
    }

    lemma {:induction false} MasterChainsAgree(p: seq<Index>, q: seq<Index>, k: nat)
      requires IsPath(Masters, p) && IsPath(Masters, q) && p[0] == q[0]
      requires k < |p| && k < |q|
      ensures p[k] == q[k]
    {
      if k > 0 {
        MasterChainsAgree(p, q, k - 1);
        assert p[(k - 1) + 1] in Successors(Masters, p[k - 1]);
        assert q[(k - 1) + 1] in Successors(Masters, q[k - 1]);
      }
    }

    lemma BridgeAboveIsUnique(dev: Index, b: Index, port: Index, b': Index, port': Index)
      requires EntersBridge(dev, b, port) && EntersBridge(dev, b', port')
      ensures b == b' && port == port'
    {
      var p :| IsPath(Masters, p) && p[0] == dev && p[|p| - 1] == port && NoBridgeAfterFirst(p);
      var q :| IsPath(Masters, q) && q[0] == dev && q[|q| - 1] == port' && NoBridgeAfterFirst(q);
      if |p| < |q| {
        LongerChainMeetsBridge(p, q);
      } else if |q| < |p| {
        LongerChainMeetsBridge(q, p);
      } else {
        MasterChainsAgree(p, q, |p| - 1);
      }
    }

    lemma LongerChainMeetsBridge(p: seq<Index>, q: seq<Index>)
      requires IsPath(Masters, p) && IsPath(Masters, q) && p[0] == q[0] && |p| < |q|
      requires MasterOf(p[|p| - 1]).Some? && IsBridge(MasterOf(p[|p| - 1]).value)
      ensures !NoBridgeAfterFirst(q)
    {
      MasterChainsAgree(p, q, |p| - 1);
      assert q[(|p| - 1) + 1] in Successors(Masters, q[|p| - 1]);
    }

    ghost function BridgeAboveOf(dev: Index): (r: Option<(Index, Index)>)
      ensures r.Some? ==> EntersBridge(dev, r.value.0, r.value.1)
      ensures forall b: Index, port: Index :: EntersBridge(dev, b, port) ==> r == Some((b, port))
    {
      if b: Index, port: Index :| EntersBridge(dev, b, port) then
        assert forall b': Index, port': Index :: EntersBridge(dev, b', port') ==> b' == b && port' == port by {
          forall b': Index, port': Index | EntersBridge(dev, b', port')
            ensures b' == b && port' == port
          {
            BridgeAboveIsUnique(dev, b, port, b', port');
          }
        }
        Some((b, port))
      else
        None
    }

    /** Follow the master chain upwards until a bridge is reached; a cycle ends in `None`. */
    method BridgeAbove(dev: Index) returns (r: Option<(Index, Index)>)
      ensures r == BridgeAboveOf(dev)
    {
      var seen := {};
      var cur := dev;
      ghost var p := [dev];
      while true
        invariant IsPath(Masters, p) && p[0] == dev && p[|p| - 1] == cur && NoBridgeAfterFirst(p)
        invariant dev in seen || dev == cur
        invariant seen <= links.Keys
        invariant forall x :: x in seen ==>
                    && links[x].master.Some?
                    && !IsBridge(links[x].master.value)
                    && (links[x].master.value in seen || links[x].master.value == cur)
        decreases links.Keys - seen
      {
        if cur in seen || cur !in links || links[cur].master.None? {
          NoBridgeInside(dev, seen + {cur});
          return None;
        }
        seen := seen + {cur};
        var master := links[cur].master.value;
        if IsBridge(master) {
          assert EntersBridge(dev, master, cur);
          return Some((master, cur));
        }
        p := p + [master];
        cur := master;
      }
    }

    lemma NoBridgeInside(dev: Index, s: set<Index>)
      requires dev in s && IsClosed(Masters, s)
      requires forall x :: x in s && MasterOf(x).Some? ==> !IsBridge(MasterOf(x).value)
      ensures BridgeAboveOf(dev) == None
    {
      if r :| BridgeAboveOf(dev) == Some(r) {
        var p :| IsPath(Masters, p) && p[0] == dev && p[|p| - 1] == r.1;
        ClosedHoldsPath(Masters, s, p);
      }
    }

    /** The bridge's port over the device; none while it is detached. */
    ghost function UplinkPortOf(dev: Index, bridge: Index): Option<Index> {
      match BridgeAboveOf(dev)
      case Some((b, port)) => if b == bridge then Some(port) else None
      case None => None
    }

    // ----- what a bridge reaches

    /** The bridges other than `bridge` one of whose lowers sits in the flood above it. */
    ghost function ReachOf(bridge: Index): Reach {
      Reach(bridge, ReachSet(Uppers, bridge), StackedBridgesOf(bridge))
    }

    ghost function StackedBridgesOf(bridge: Index): set<Index> {
      set b | b in links && links[b].isBridge && b != bridge &&
              exists low :: low in links[b].lowers && low in ReachSet(Uppers, bridge)
    }

    method ReachFrom(bridge: Index) returns (r: Reach)
      ensures r == ReachOf(bridge)
    {
      var above := Flood(Uppers, bridge);
      var stacked := {};
      var todo := links.Keys;
      while todo != {}
        invariant todo <= links.Keys
        invariant stacked == (set b | b in StackedBridgesOf(bridge) && b !in todo)
        decreases todo
      {
        var b :| b in todo;
        todo := todo - {b};
        if links[b].isBridge && b != bridge && exists low :: low in links[b].lowers && low in above {
          stacked := stacked + {b};
        }
      }
      r := Reach(bridge, above, stacked);
    }

    ghost predicate IsSiblingOf(i: Index, dev: Index, bridge: Index, port: Index, functions: set<Index>) {
      && i in links && i != port && i != dev
      && links[i].master.Some?
      && (links[i].master.value == bridge || links[i].master.value in ReachOf(bridge).stackedBridges)
      && FunctionsBehind(i) * functions != {}
    }

    ghost function AnatomyOf(dev: Index, bridge: Index): Option<Anatomy> {
      match UplinkPortOf(dev, bridge)
      case None => None
      case Some(port) =>
        var card := CarrierOf(dev, {});
        var functions := FunctionsOf(card);
        Some(Anatomy(dev, bridge, port, card, functions,
                     SiblingsOf(dev, bridge, port, functions)))
    }

    ghost function SiblingsOf(dev: Index, bridge: Index, port: Index, functions: set<Index>): set<Index> {
      set i | i in links && IsSiblingOf(i, dev, bridge, port, functions)
    }

    /** The parts of a pair, while its device is under its bridge. */
    method AnatomyFor(dev: Index, bridge: Index) returns (r: Option<Anatomy>)
      ensures r == AnatomyOf(dev, bridge)
    {
      var above := BridgeAbove(dev);
      if above.None? || above.value.0 != bridge {
        return None;
      }
      var port := above.value.1;
      var card := FilterCarrier(dev);
      var functions := PhysicalFunctions(card);
      var siblings := Siblings(dev, bridge, port, functions);
      r := Some(Anatomy(dev, bridge, port, card, functions, siblings));
    }

    /** The remaining ports of the segment whose functions meet the pair's. */
    method Siblings(dev: Index, bridge: Index, port: Index, functions: set<Index>) returns (siblings: set<Index>)
      ensures siblings == SiblingsOf(dev, bridge, port, functions)
    {
      var reach := ReachFrom(bridge);
      siblings := {};
      var todo := links.Keys;
      while todo != {}
        invariant todo <= links.Keys
        invariant forall i :: i in siblings <==> i !in todo && i in SiblingsOf(dev, bridge, port, functions)
        decreases todo
      {
        var i :| i in todo;
        todo := todo - {i};
        var facing := FacesSameCard(i, functions);
        if i != port && i != dev && links[i].master.Some? &&
           (links[i].master.value == bridge || links[i].master.value in reach.stackedBridges) && facing {
          siblings := siblings + {i};
        }
      }
    }

    method FacesSameCard(i: Index, functions: set<Index>) returns (r: bool)
      ensures r <==> FunctionsBehind(i) * functions != {}
    {
      var below := FilterCarrier(i);
      var theirs := PhysicalFunctions(below);
      r := theirs * functions != {};
    }
  }
}
