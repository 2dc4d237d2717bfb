// The event path (src/sync/mod.rs, `fast_apply` and `fast_add`): what a batch of notifications
// means to one uplink, and how that agrees with the pass.

module Batch {
  import opened Basics
  import opened Interfaces
  import opened Fdb
  import opened Desire
  import opened Valve
  import opened Pass

  datatype Phase = Decide | Commit

  /** What one entry is to one uplink: worth a pass, and to be registered. */
  datatype Verdict = Verdict(ours: bool, candidate: bool)

  /** One pair as the event path needs it. */
  datatype FastPair = FastPair(
    name: string, a: Anatomy, reach: Reach,
    skip: set<Mac>,       // the uplink's exclusions
    reflected: set<Mac>,  // its reflections, see `ReflectedBy`
    vfOwn: set<Mac>)      // the share of `skip` that a carried driver answer accounts for

  type Learnt = (Mac, Index)

  /** An entry that could be registered for somebody. */
  predicate Eligible(t: Topology, e: FdbEntry) {
    e.IsLearned() && IsRegisterable(e.mac) && e.master.Some? && e.ifindex in t.links
  }

  function Judge(t: Topology, fp: FastPair, wire: set<Mac>, e: FdbEntry, phase: Phase): Verdict {
    if !Eligible(t, e) || e.ifindex in fp.a.siblings then
      Verdict(false, false)
    else if e.mac in fp.skip then
      Verdict(false, phase == Decide && e.mac in fp.vfOwn)
    else if e.mac in wire then
      Verdict(true, false)
    else if fp.reach.Classify(e.ifindex, e.master.value, fp.a.port) != Behind then
      Verdict(false, false)
    else if e.mac in fp.reflected then
      Verdict(true, false)
    else
      Verdict(true, true)
  }

  /** The learns a list of entries would register for one uplink, in order. */
  function Candidates(t: Topology, fp: FastPair, wire: set<Mac>, news: seq<FdbEntry>, phase: Phase): (r: seq<Learnt>)
    ensures forall l :: l in r <==>
              exists e :: e in news && Judge(t, fp, wire, e, phase).candidate && l == (e.mac, e.ifindex)
  {
    if news == [] then []
    else
      var e := news[|news| - 1];
      Candidates(t, fp, wire, news[..|news| - 1], phase) +
      if Judge(t, fp, wire, e, phase).candidate then [(e.mac, e.ifindex)] else []
  }

  function MacsIn(learns: seq<Learnt>): (r: set<Mac>)
    ensures forall m :: m in r <==> exists l :: l in learns && l.0 == m
  {
    set l | l in learns :: l.0
  }

  /** Where each address was learnt; the last learn of a batch wins. */
  function LearntOn(learns: seq<Learnt>): (r: map<Mac, Index>)
    ensures r.Keys == MacsIn(learns)
  {
    if learns == [] then map[]
    else
      var l := learns[|learns| - 1];
      assert learns == learns[..|learns| - 1] + [l];
      LearntOn(learns[..|learns| - 1])[l.0 := l.1]
  }

  // ----- what is committed was decided

  /**
   * Every candidate of the commit phase was one of the decide phase, whatever the driver's
   * fresh answer: only the answer's share of the exclusions can have changed, and a hit owed
   * to the old one alone had been a candidate all the same.
   */
  lemma CommitWithinDecide(
    cfg: Config, t: Topology, fp: FastPair, carriedVf: VfAnswer, freshVf: VfAnswer, wire: set<Mac>, news: seq<FdbEntry>)
    requires fp.skip == Exclusions(cfg, t, fp.a, carriedVf) && fp.vfOwn == VfReported(fp.a.functions, carriedVf)
    ensures var asked := fp.(skip := Exclusions(cfg, t, fp.a, freshVf));
            MacsIn(Candidates(t, asked, wire, news, Commit)) <= MacsIn(Candidates(t, fp, wire, news, Decide))
  {
    hide Judge, Exclusions, VfReported;
    var asked := fp.(skip := Exclusions(cfg, t, fp.a, freshVf));
    forall m | m in MacsIn(Candidates(t, asked, wire, news, Commit))
      ensures m in MacsIn(Candidates(t, fp, wire, news, Decide))
    {
      var l :| l in Candidates(t, asked, wire, news, Commit) && l.0 == m;
      var e :| e in news && Judge(t, asked, wire, e, Commit).candidate && l == (e.mac, e.ifindex);
      OneCommitWithinDecide(cfg, t, fp, carriedVf, freshVf, wire, e);
      assert (e.mac, e.ifindex) in Candidates(t, fp, wire, news, Decide);
    }
  }

  lemma OneCommitWithinDecide(
    cfg: Config, t: Topology, fp: FastPair, carriedVf: VfAnswer, freshVf: VfAnswer, wire: set<Mac>, e: FdbEntry)
    requires fp.skip == Exclusions(cfg, t, fp.a, carriedVf) && fp.vfOwn == VfReported(fp.a.functions, carriedVf)
    ensures Judge(t, fp.(skip := Exclusions(cfg, t, fp.a, freshVf)), wire, e, Commit).candidate ==>
              Judge(t, fp, wire, e, Decide).candidate
  {
    hide Eligible, StaticExclusions, VfReported;
  }

  // ----- the event path refines the pass

  /** What the pass would say of an entry, as the event path's own verdict. */
  lemma VerdictMeans(t: Topology, fp: FastPair, wire: set<Mac>, e: FdbEntry)
    requires fp.reach == t.ReachOf(fp.a.bridge)
    ensures Judge(t, fp, wire, e, Commit).candidate <==>
              && IsInnerLearn(t, fp.a, e) && IsRegisterable(e.mac) && e.ifindex in t.links
              && e.mac !in fp.skip && e.mac !in wire && e.mac !in fp.reflected
    ensures Judge(t, fp, wire, e, Commit).ours ==> e.mac !in fp.skip && Eligible(t, e)
    ensures IsInnerLearn(t, fp.a, e) && IsRegisterable(e.mac) && e.ifindex in t.links && e.mac !in fp.skip ==>
              Judge(t, fp, wire, e, Commit).ours
  {
    hide Topology.ReachOf;
  }

  /**
   * Whatever a batch commits the pass wants too: it is desired under any dump that holds the
   * one learn and no learn of the address on the wire side. And it lies outside the exclusions,
   * the carried wire set and the batch's own reflections.
   */
  lemma CommittedIsDesired(
    cfg: Config, t: Topology, fp: FastPair, vf: VfAnswer, wire: set<Mac>, news: seq<FdbEntry>, l: Learnt, dump: seq<FdbEntry>)
    requires fp.reach == t.ReachOf(fp.a.bridge) && fp.skip == Exclusions(cfg, t, fp.a, vf)
    requires exists e :: e in dump && e in news && Judge(t, fp, wire, e, Commit).candidate && l == (e.mac, e.ifindex)
    requires l.0 !in WireOf(t, fp.a, dump)
    ensures l in Candidates(t, fp, wire, news, Commit)
    ensures l.0 in Desired(cfg, t, fp.a, Exclusions(cfg, t, fp.a, vf), dump)
    ensures l.0 !in Exclusions(cfg, t, fp.a, vf) && l.0 !in wire && l.0 !in fp.reflected
  {
    hide Topology.ReachOf, Exclusions, IsRegisterable;
    var e :| e in dump && e in news && Judge(t, fp, wire, e, Commit).candidate && l == (e.mac, e.ifindex);
    VerdictMeans(t, fp, wire, e);
    assert IsInnerLearn(t, fp.a, e);
  }

  // ----- a batch that is nobody's is invisible

  /** What the batch learnt on the wire side: at the port, or at a sibling of the card. */
  function ReflectedBy(a: Anatomy, news: seq<FdbEntry>): (r: set<Mac>)
    ensures forall m :: m in r <==>
              exists e :: e in news && e.IsLearned() && IsUnicast(e.mac) &&
                          (e.ifindex == a.port || e.ifindex in a.siblings) && e.mac == m
  {
    set e | e in news && e.IsLearned() && IsUnicast(e.mac) && (e.ifindex == a.port || e.ifindex in a.siblings) :: e.mac
  }

  /** Nothing in it concerns this uplink: no entry is ours, and no reflection is on the note. */
  predicate IsNobodys(t: Topology, fp: FastPair, wire: set<Mac>, news: seq<FdbEntry>, note: set<Mac>) {
    && (forall e :: e in news ==> !Judge(t, fp, wire, e, Commit).ours)
    && ReflectedBy(fp.a, news) !! note
  }

  predicate PortsKnown(t: Topology, news: seq<FdbEntry>) {
    forall e :: e in news ==> e.ifindex in t.links
  }

  lemma NobodysAddsOnlyForeignWire(cfg: Config, t: Topology, fp: FastPair, vf: VfAnswer, wire: set<Mac>,
                                   news: seq<FdbEntry>, note: set<Mac>, dump: seq<FdbEntry>)
    requires fp.reach == t.ReachOf(fp.a.bridge) && fp.skip == Exclusions(cfg, t, fp.a, vf)
    requires IsNobodys(t, fp, wire, news, note) && PortsKnown(t, news)
    ensures var skip := Exclusions(cfg, t, fp.a, vf);
            var added := WireOf(t, fp.a, dump + news) - WireOf(t, fp.a, dump);
            && added !! note
            && WireOf(t, fp.a, dump) <= WireOf(t, fp.a, dump + news)
            && Desired(cfg, t, fp.a, skip, dump + news) == Desired(cfg, t, fp.a, skip, dump) - added
  {
    hide Topology.ReachOf, Exclusions, IsRegisterable, Wards, Judge, IsInnerLearn, IsWireLearn, ReflectedBy;
    var skip := Exclusions(cfg, t, fp.a, vf);
    assert forall e :: e in dump + news <==> e in dump || e in news;
    forall e | e in news && IsWireLearn(t, fp.a, e)
      ensures e.mac in ReflectedBy(fp.a, news)
    {
      WireLearnIsReflected(t, fp.a, news, e);
    }
    forall e | e in news && IsInnerLearn(t, fp.a, e)
      ensures e.mac in skip || !IsRegisterable(e.mac)
    {
      VerdictMeans(t, fp, wire, e);
    }
    var a, b := Desired(cfg, t, fp.a, skip, dump + news), Desired(cfg, t, fp.a, skip, dump);
    forall m
      ensures m in a <==> m in b && m !in WireOf(t, fp.a, dump + news)
    {
      if m in a {
        assert m in InnerOf(t, fp.a, dump + news) ==> m in InnerOf(t, fp.a, dump);
      }
      if m in b {
        assert m in InnerOf(t, fp.a, dump) ==> m in InnerOf(t, fp.a, dump + news);
      }
    }
  }

  lemma WireLearnIsReflected(t: Topology, a: Anatomy, news: seq<FdbEntry>, e: FdbEntry)
    requires e in news && IsWireLearn(t, a, e)
    ensures e.mac in ReflectedBy(a, news)
  {
    hide Topology.ReachOf;
  }

  /** The same pass with the batch's entries in its dump as well. */
  ghost predicate DumpGrows(g: Given, h: Given, news: seq<FdbEntry>) {
    && h == g.(fdb := g.fdb + news)
    && Present(h) == Present(g) && OnCard(h) == OnCard(g)
  }

  /** The keeps are the same, and only foreign wire addresses leave the wanted set. */
  lemma NobodysKeepsTheKeeps(u: Uplink, g: Given, h: Given, fp: FastPair, vf: VfAnswer, wire: set<Mac>, news: seq<FdbEntry>)
    requires fp.a == g.a && fp.reach == g.t.ReachOf(g.a.bridge) && fp.skip == Exclusions(g.cfg, g.t, g.a, vf)
    requires IsNobodys(g.t, fp, wire, news, u.note) && PortsKnown(g.t, news) && DumpGrows(g, h, news)
    ensures var v, w := WantedWith(u, h, vf), WantedWith(u, g, vf);
            && v.kept == w.kept && v.want <= w.want && (w.want - v.want) !! u.note
  {
    hide Topology.ReachOf, Exclusions, IsNobodys, PortLives, IsRegisterable, WireOf, InnerOf, LearntAt, Wards, SelfList;
    NobodysAddsOnlyForeignWire(g.cfg, g.t, fp, vf, wire, news, u.note, g.fdb);
    var skip := Exclusions(g.cfg, g.t, g.a, vf);
    var d, d' := Desired(g.cfg, g.t, g.a, skip, g.fdb), Desired(g.cfg, g.t, g.a, skip, h.fdb);
    var added := WireOf(g.t, g.a, h.fdb) - WireOf(g.t, g.a, g.fdb);
    forall m | m in u.note
      ensures (m in d' <==> m in d) && (m in WireOf(g.t, g.a, h.fdb) <==> m in WireOf(g.t, g.a, g.fdb))
    {
      assert m !in added;
    }
    var v, w := WantedWith(u, h, vf), WantedWith(u, g, vf);
    assert v.kept == w.kept;
  }

  lemma OccupiedShrinks(u: Uplink, g: Given, h: Given, w: Wanted, v: Wanted)
    requires OnCard(h) == OnCard(g) && OwnedBefore(u, h) == OwnedBefore(u, g)
    requires v.want <= w.want && (w.want - v.want) !! OwnedBefore(u, g)
    ensures Occupied(u, h, v) <= Occupied(u, g, w)
  {
    hide SelfList;
    var lost := w.want - v.want;
    var before, after := OnCard(g) - w.want - OwnedBefore(u, g), OnCard(g) - v.want - OwnedBefore(u, g);
    assert after == before + lost * OnCard(g);
    assert w.want == v.want + lost;
    SubsetSize(lost * OnCard(g), lost);
  }

  /**
   * A batch answered as nobody's changes nothing a pass would write: with its entries in the
   * dump the pass registers nothing new and takes nothing more out. Given that no write had
   * failed, so what is noted is in the card.
   */
  lemma NobodysBatchIsInvisible(
    u: Uplink, g: Given, h: Given, fp: FastPair, vf: VfAnswer, wire: set<Mac>, news: seq<FdbEntry>)
    requires fp.a == g.a && fp.reach == g.t.ReachOf(g.a.bridge) && fp.skip == Exclusions(g.cfg, g.t, g.a, vf)
    requires IsNobodys(g.t, fp, wire, news, u.note) && PortsKnown(g.t, news) && DumpGrows(g, h, news)
    requires u.note <= Present(g)
    ensures var v, w := Pressed(u, h, WantedWith(u, h, vf)), Pressed(u, g, WantedWith(u, g, vf));
            && ToAdd(h, v) <= ToAdd(g, w)
            && Stale(u, h, v) <= Stale(u, g, w)
  {
    hide Topology.ReachOf, Exclusions, IsNobodys, WantedWith, SelfList, Released, Occupied, Excess, Headroom, PortsKnown;
    var v0, w0 := WantedWith(u, h, vf), WantedWith(u, g, vf);
    NobodysKeepsTheKeeps(u, g, h, fp, vf, wire, news);
    WantedIsSplit(u, g, vf);
    OccupiedShrinks(u, g, h, w0, v0);
    LessExcess(g.limit, Occupied(u, h, v0), Occupied(u, g, w0));
    MorePressure(u.ports, w0.kept, Excess(g.limit, Occupied(u, h, v0)), Excess(g.limit, Occupied(u, g, w0)));
    assert Shed(u, h, v0) <= Shed(u, g, w0) <= w0.kept <= u.note <= Present(g);
  }

  lemma LessExcess(limit: nat, a: nat, b: nat)
    requires a <= b
    ensures Excess(limit, a) <= Excess(limit, b)
  {
  }
}
