// How a reading becomes a graph, and why the walks over it answer alike (src/topology.rs).

module GraphLaws {
  import opened Basics
  import opened Interfaces

  // ----- assembling

  /** The last link filed under each index; a later link replaces an earlier one. */
  function Filed(ls: seq<Link>): map<Index, Link> {
    if ls == [] then map[]
    else Filed(ls[..|ls| - 1])[ls[|ls| - 1].index := ls[|ls| - 1]]
  }

  /** One inverse edge: `other` becomes an upper, or a slave, of `of`. */
  datatype Edge = Edge(of: Index, other: Index, isUpper: bool)

  ghost predicate HasEdge(ls: seq<Link>, e: Edge) {
    exists l :: l in ls && l.index == e.other &&
                if e.isUpper then e.of in l.lowers else l.master == Some(e.of)
  }

  predicate SameButInverses(l: Link, m: Link) {
    l.(uppers := m.uppers, slaves := m.slaves) == m
  }

  /** The inverse relations gathered from every link of the list. */
  ghost predicate Inverted(ls: seq<Link>, t: Topology) {
    && t.links.Keys == Filed(ls).Keys
    && forall i :: i in t.links ==>
         && SameButInverses(Filed(ls)[i], t.links[i])
         && (forall u :: u in t.links[i].uppers <==>
               u in Filed(ls)[i].uppers || HasEdge(ls, Edge(i, u, true)))
         && (forall s :: s in t.links[i].slaves <==>
               s in Filed(ls)[i].slaves || HasEdge(ls, Edge(i, s, false)))
  }

  method Assemble(ls: seq<Link>, byName: map<string, Index>) returns (t: Topology)
    ensures t.byName == byName
    ensures Inverted(ls, t)
  {
    var edges := EdgesOf(ls);
    var filed := map[];
    for k := 0 to |ls|
      invariant filed == Filed(ls[..k])
    {
      assert ls[..k + 1][..k] == ls[..k];
      filed := filed[ls[k].index := ls[k]];
    }
    assert ls[..|ls|] == ls;
    var links := filed;
    for k := 0 to |edges|
      invariant links.Keys == filed.Keys
      invariant forall i :: i in links ==> Extended(i, filed[i], links[i], edges[..k])
    {
      var e := edges[k];
      assert edges[..k + 1] == edges[..k] + [e];
      if e.of in links {
        var l := links[e.of];
        links := links[e.of := if e.isUpper then l.(uppers := l.uppers + [e.other])
                               else l.(slaves := l.slaves + [e.other])];
      }
    }
    assert edges[..|edges|] == edges;
    t := Topology(links, byName);
  }

  /** A link with the edges of a list added to its inverses. */
  ghost predicate Extended(i: Index, l: Link, m: Link, edges: seq<Edge>) {
    && SameButInverses(l, m)
    && (forall u :: u in m.uppers <==> u in l.uppers || Edge(i, u, true) in edges)
    && (forall s :: s in m.slaves <==> s in l.slaves || Edge(i, s, false) in edges)
  }

  method EdgesOf(ls: seq<Link>) returns (edges: seq<Edge>)
    ensures forall e :: e in edges <==> HasEdge(ls, e)
  {
    edges := [];
    for k := 0 to |ls|
      invariant forall e :: e in edges <==> HasEdge(ls[..k], e)
    {
      var l := ls[k];
      ghost var before := edges;
      for j := 0 to |l.lowers|
        invariant forall e :: e in edges <==> e in before || exists i :: 0 <= i < j && e == Edge(l.lowers[i], l.index, true)
      {
        edges := edges + [Edge(l.lowers[j], l.index, true)];
      }
      if l.master.Some? {
        edges := edges + [Edge(l.master.value, l.index, false)];
      }
      assert ls[..k + 1] == ls[..k] + [l];
      forall e
        ensures e in edges <==> HasEdge(ls[..k + 1], e)
      {
        HasEdgeOneMore(ls[..k], l, e);
      }
    }
    assert ls[..|ls|] == ls;
  }

  lemma HasEdgeOneMore(ls: seq<Link>, l: Link, e: Edge)
    ensures HasEdge(ls + [l], e) <==>
            HasEdge(ls, e) || (l.index == e.other && if e.isUpper then e.of in l.lowers else l.master == Some(e.of))
  {
    if HasEdge(ls, e) {
      var m :| m in ls && m.index == e.other && if e.isUpper then e.of in m.lowers else m.master == Some(e.of);
      assert m in ls + [l];
    }
    if l.index == e.other {
      assert l in ls + [l];
    }
  }

  ghost predicate DistinctIndices(ls: seq<Link>) {
    forall j, k :: 0 <= j < k < |ls| ==> ls[j].index != ls[k].index
  }

  /** Links as a reading delivers them: one per interface, inverses still empty. */
  ghost predicate AsRead(ls: seq<Link>) {
    DistinctIndices(ls) && forall l :: l in ls ==> l.uppers == [] && l.slaves == []
  }

  lemma {:induction false} FiledHoldsEach(ls: seq<Link>)
    requires DistinctIndices(ls)
    ensures forall i :: i in Filed(ls) ==> Filed(ls)[i] in ls && Filed(ls)[i].index == i
    ensures forall l :: l in ls ==> l.index in Filed(ls) && Filed(ls)[l.index] == l
  {
    if ls != [] {
      var init, l := ls[..|ls| - 1], ls[|ls| - 1];
      FiledHoldsEach(init);
      assert ls == init + [l];
      forall m | m in init
        ensures m.index != l.index
      {
        var k :| 0 <= k < |init| && init[k] == m;
        assert ls[k] == m;
      }
    }
  }

  /** A reading of distinct interfaces assembles into a graph whose inverses are exact. */
  lemma AssembledFromReading(ls: seq<Link>, t: Topology)
    requires AsRead(ls) && Inverted(ls, t)
    ensures t.Assembled()
    ensures forall l :: l in ls ==> l.index in t.links && SameButInverses(l, t.links[l.index])
  {
    FiledHoldsEach(ls);
    forall i, u: Index | i in t.links
      ensures u in t.links[i].uppers <==> u in t.links && i in t.links[u].lowers
    {
      if HasEdge(ls, Edge(i, u, true)) {
        var l :| l in ls && l.index == u && i in l.lowers;
        assert SameButInverses(l, t.links[u]);
      }
    }
    forall i, s: Index | i in t.links
      ensures s in t.links[i].slaves <==> s in t.links && t.links[s].master == Some(i)
    {
      if HasEdge(ls, Edge(i, s, false)) {
        var l :| l in ls && l.index == s && l.master == Some(i);
        assert SameButInverses(l, t.links[s]);
      }
    }
  }

  // ----- the walks agree

  lemma {:induction false} UpPathComesDown(t: Topology, p: seq<Index>)
    requires t.Assembled() && t.IsPath(Uppers, p)
    ensures t.Reaches(Lowers, p[|p| - 1], p[0])
    decreases |p|
  {
    if |p| == 1 {
      t.ReachesItself(Lowers, p[0]);
    } else {
      var init := p[..|p| - 1];
      assert t.IsPath(Uppers, init);
      UpPathComesDown(t, init);
      var a, b := p[|p| - 2], p[|p| - 1];
      assert p[(|p| - 2) + 1] in t.Successors(Uppers, a);
      t.ReachesOneBefore(Lowers, b, a, p[0]);
    }
  }

  lemma {:induction false} DownPathGoesUp(t: Topology, p: seq<Index>)
    requires t.Assembled() && t.IsPath(Lowers, p) && p[|p| - 1] in t.links
    ensures t.Reaches(Uppers, p[|p| - 1], p[0])
    decreases |p|
  {
    if |p| == 1 {
      t.ReachesItself(Uppers, p[0]);
    } else {
      assert p[0 + 1] in t.Successors(Lowers, p[0]);
      assert t.IsPath(Lowers, p[1..]) by {
        forall k | 0 <= k < |p[1..]| - 1
          ensures p[1..][k + 1] in t.Successors(Lowers, p[1..][k])
        {
          assert p[(k + 1) + 1] in t.Successors(Lowers, p[k + 1]);
        }
      }
      DownPathGoesUp(t, p[1..]);
      if |p| > 2 {
        assert p[1 + 1] in t.Successors(Lowers, p[1]);
      }
      t.ReachesOneMore(Uppers, p[|p| - 1], p[1], p[0]);
    }
  }

  /** `stacked_above` and `leads_to` are one relation read from its two ends. */
  lemma AboveIffLeadsTo(t: Topology, root: Index, i: Index)
    requires t.Assembled() && root in t.links
    ensures i in t.ReachSet(Uppers, root) <==> t.Reaches(Lowers, i, root)
  {
    if t.Reaches(Uppers, root, i) {
      var p :| t.IsPath(Uppers, p) && p[0] == root && p[|p| - 1] == i;
      UpPathComesDown(t, p);
    }
    if t.Reaches(Lowers, i, root) {
      var p :| t.IsPath(Lowers, p) && p[0] == i && p[|p| - 1] == root;
      DownPathGoesUp(t, p);
    }
  }

  ghost predicate WalksAgree(t: Topology, root: Index) {
    forall i :: i in t.ReachSet(Uppers, root) <==> t.Reaches(Lowers, i, root)
  }

  /** Without the root in the reading they agree exactly when nothing names it as a lower. */
  lemma WalksAgreeExactly(t: Topology, root: Index)
    requires t.Assembled()
    ensures WalksAgree(t, root) <==>
            root in t.links || forall u :: u in t.links ==> root !in t.links[u].lowers
  {
    if root in t.links {
      forall i: Index
        ensures i in t.ReachSet(Uppers, root) <==> t.Reaches(Lowers, i, root)
      {
        AboveIffLeadsTo(t, root, i);
      }
    } else {
      assert t.IsClosed(Uppers, {root});
      forall i: Index
        ensures i in t.ReachSet(Uppers, root) <==> i == root
      {
        t.ReachesItself(Uppers, root);
        if t.Reaches(Uppers, root, i) {
          t.ClosedHoldsReachable(Uppers, {root}, root, i);
        }
      }
      if u :| u in t.links && root in t.links[u].lowers {
        t.ReachesItself(Lowers, root);
        t.ReachesOneBefore(Lowers, u, root, root);
        assert u in t.ReachSet(Uppers, root) <==> u == root;
      } else {
        forall i: Index
          ensures t.Reaches(Lowers, i, root) <==> i == root
        {
          t.ReachesItself(Lowers, root);
          if t.Reaches(Lowers, i, root) && i != root {
            LastStepNamesTheEnd(t, root, i);
          }
        }
      }
    }
  }

  /** An interface that names a lower the reading does not hold: down it leads there, up nothing is above. */
  lemma WalksDisagree()
    ensures var t := Topology(map[1 := Link("br", 1, None, None, [2], None, true, None, 0, [], [], [], [])], map["br" := 1]);
            t.Assembled() && t.Reaches(Lowers, 1, 2) && 1 !in t.ReachSet(Uppers, 2)
  {
    var t := Topology(map[1 := Link("br", 1, None, None, [2], None, true, None, 0, [], [], [], [])], map["br" := 1]);
    t.ReachesItself(Lowers, 1);
    assert 2 in t.Successors(Lowers, 1);
    t.ReachesOneMore(Lowers, 1, 1, 2);
    assert t.IsClosed(Uppers, {2});
    if t.Reaches(Uppers, 2, 1) {
      t.ClosedHoldsReachable(Uppers, {2}, 2, 1);
    }
  }

  lemma LastStepNamesTheEnd(t: Topology, root: Index, i: Index)
    requires t.Reaches(Lowers, i, root) && i != root
    ensures exists u :: u in t.links && root in t.links[u].lowers
  {
    var p :| t.IsPath(Lowers, p) && p[0] == i && p[|p| - 1] == root;
    assert p[(|p| - 2) + 1] in t.Successors(Lowers, p[|p| - 2]);
  }

  /** The stacked bridges are the other bridges that lead to this one. */
  lemma StackedBridgesLeadToRoot(t: Topology, bridge: Index, b: Index)
    requires t.Assembled() && bridge in t.links
    ensures b in t.ReachOf(bridge).stackedBridges <==>
            t.IsBridge(b) && b != bridge && t.Reaches(Lowers, b, bridge)
  {
    if b in t.StackedBridgesOf(bridge) {
      var low :| low in t.links[b].lowers && low in t.ReachSet(Uppers, bridge);
      AboveIffLeadsTo(t, bridge, low);
      t.ReachesOneBefore(Lowers, b, low, bridge);
    }
    if t.IsBridge(b) && b != bridge && t.Reaches(Lowers, b, bridge) {
      var p :| t.IsPath(Lowers, p) && p[0] == b && p[|p| - 1] == bridge;
      var low := p[0 + 1];
      assert t.IsPath(Lowers, p[1..]) by {
        forall k | 0 <= k < |p[1..]| - 1
          ensures p[1..][k + 1] in t.Successors(Lowers, p[1..][k])
        {
          assert p[(k + 1) + 1] in t.Successors(Lowers, p[k + 1]);
        }
      }
      assert t.Reaches(Lowers, low, bridge) by {
        assert p[1..][0] == low && p[1..][|p[1..]| - 1] == bridge;
      }
      AboveIffLeadsTo(t, bridge, low);
    }
  }

  /**
   * The three askers answer alike: passes and batches through `Classify`, the quiet
   * keep through `Covers`, the dating of a silence through `leads_to`. Over a bridge of the
   * reading all three are the one question whether it leads to the pair's bridge.
   */
  lemma AskersAgree(t: Topology, bridge: Index, b: Index)
    requires t.Assembled() && t.IsBridge(bridge) && t.IsBridge(b)
    ensures t.ReachOf(bridge).Covers(b) <==> t.Reaches(Lowers, b, bridge)
    ensures forall i, port ::
              t.ReachOf(bridge).Classify(i, b, port) == Behind <==>
              && t.Reaches(Lowers, b, bridge)
              && (if b == bridge then i != port else !t.Reaches(Lowers, i, bridge))
  {
    StackedBridgesLeadToRoot(t, bridge, b);
    t.ReachesItself(Lowers, bridge);
    var reach := t.ReachOf(bridge);
    forall i: Index, port: Index
      ensures reach.Classify(i, b, port) == Behind <==>
              t.Reaches(Lowers, b, bridge) &&
              (if b == bridge then i != port else !t.Reaches(Lowers, i, bridge))
    {
      AboveIffLeadsTo(t, bridge, i);
    }
  }
}
