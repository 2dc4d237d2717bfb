// Wanted, excluded and kept addresses of one uplink (src/sync/mod.rs: `exclusions`, `desired`,
// `quiet_survivors`, `self_list`).

module Desire {
  import opened Basics
  import opened Interfaces
  import opened Fdb

  type Stamp = nat

  /** The port of the last learn, and the time of the last sign of it. */
  datatype Sighting = Sighting(port: Index, at: Stamp)

  type Memory = map<Mac, Sighting>

  /** What the driver says: for each physical function, the addresses of its virtual ones. */
  type VfAnswer = set<(Index, Mac)>

  /** The operator's say. */
  datatype Config = Config(exclude: set<Mac>, extra: set<Mac>)

  // ----- what must stay out

  function VfReported(functions: set<Index>, vf: VfAnswer): (r: set<Mac>)
    ensures forall m :: m in r <==> exists pf :: pf in functions && (pf, m) in vf
  {
    set p | p in vf && p.0 in functions :: p.1
  }

  ghost function MacsOf(t: Topology, s: set<Index>): (r: set<Mac>)
    ensures forall m :: m in r <==> exists i :: i in s && t.MacOf(i) == Some(m)
  {
    set i | i in s && t.MacOf(i).Some? :: t.MacOf(i).value
  }

  function VfNetdevs(t: Topology, pf: Index): set<Index> {
    if pf in t.links then set i | i in t.links[pf].vfNetdevs else {}
  }

  /** The interfaces of the wire side and of the card: their own addresses stay out. */
  ghost function ForbiddenInterfaces(t: Topology, a: Anatomy): (r: set<Index>)
    ensures forall i :: i in r <==>
              i in t.ReachSet(Lowers, a.port) || i == a.dev || i in a.functions ||
              exists pf :: pf in a.functions && i in VfNetdevs(t, pf)
  {
    t.ReachSet(Lowers, a.port) + {a.dev} + a.functions +
    set pf, i | pf in a.functions && i in VfNetdevs(t, pf) :: i
  }

  /** The share of the exclusions that does not depend on the driver's answer. */
  ghost function StaticExclusions(cfg: Config, t: Topology, a: Anatomy): set<Mac> {
    cfg.exclude + MacsOf(t, ForbiddenInterfaces(t, a))
  }

  ghost function Exclusions(cfg: Config, t: Topology, a: Anatomy, vf: VfAnswer): set<Mac> {
    StaticExclusions(cfg, t, a) + VfReported(a.functions, vf)
  }

  method ExclusionsOf(cfg: Config, t: Topology, a: Anatomy, vf: VfAnswer) returns (skip: set<Mac>)
    ensures skip == Exclusions(cfg, t, a, vf)
  {
    hide Topology.Reaches, VfNetdevs;
    var below := t.Flood(Lowers, a.port);
    var interfaces := below + {a.dev};
    var todo := a.functions;
    while todo != {}
      invariant todo <= a.functions
      invariant forall i :: i in interfaces <==>
                  i in below || i == a.dev || i in a.functions - todo ||
                  exists pf :: pf in a.functions - todo && i in VfNetdevs(t, pf)
      decreases todo
    {
      var pf :| pf in todo;
      ghost var was := a.functions - todo;
      todo := todo - {pf};
      assert a.functions - todo == was + {pf};
      interfaces := interfaces + {pf} + VfNetdevs(t, pf);
    }
    assert interfaces == ForbiddenInterfaces(t, a);
    var macs := AddressesOf(t, interfaces);
    skip := cfg.exclude + macs + VfReported(a.functions, vf);
  }

  method AddressesOf(t: Topology, s: set<Index>) returns (macs: set<Mac>)
    ensures macs == MacsOf(t, s)
  {
    macs := {};
    var todo := s;
    while todo != {}
      invariant todo <= s
      invariant macs == MacsOf(t, s - todo)
      decreases todo
    {
      var i :| i in todo;
      ghost var was := s - todo;
      todo := todo - {i};
      assert s - todo == was + {i};
      if t.MacOf(i).Some? {
        macs := macs + {t.MacOf(i).value};
      }
    }
    assert s - todo == s;
  }

  // ----- what is wanted

  predicate IsRelevant(e: FdbEntry) {
    e.IsLearned() && IsUnicast(e.mac) && e.master.Some?
  }

  /** A learn from the wire side: at the pair's port, or at a sibling of its card. */
  ghost predicate IsWireLearn(t: Topology, a: Anatomy, e: FdbEntry) {
    IsRelevant(e) &&
    (e.ifindex in a.siblings || t.ReachOf(a.bridge).Classify(e.ifindex, e.master.value, a.port) == Wire)
  }

  /** Learnt behind the bridge, or behind one stacked on it. */
  ghost predicate IsInnerLearn(t: Topology, a: Anatomy, e: FdbEntry) {
    IsRelevant(e) &&
    e.ifindex !in a.siblings && t.ReachOf(a.bridge).Classify(e.ifindex, e.master.value, a.port) == Behind
  }

  ghost function WireOf(t: Topology, a: Anatomy, fdb: seq<FdbEntry>): (r: set<Mac>)
    ensures forall m :: m in r <==> exists e :: e in fdb && IsWireLearn(t, a, e) && e.mac == m
  {
    set e | e in fdb && IsWireLearn(t, a, e) :: e.mac
  }

  ghost function InnerOf(t: Topology, a: Anatomy, fdb: seq<FdbEntry>): (r: set<Mac>)
    ensures forall m :: m in r <==> exists e :: e in fdb && IsInnerLearn(t, a, e) && e.mac == m
  {
    set e | e in fdb && IsInnerLearn(t, a, e) :: e.mac
  }

  /** Where each inner address was seen; the last sighting in the dump stands. */
  ghost function LearntAt(t: Topology, a: Anatomy, fdb: seq<FdbEntry>): (r: map<Mac, Index>)
    ensures forall m :: m in r <==> m in InnerOf(t, a, fdb)
  {
    if fdb == [] then
      assert InnerOf(t, a, []) == {};
      map[]
    else
      var e := fdb[|fdb| - 1];
      var r := LearntAt(t, a, fdb[..|fdb| - 1]);
      InnerOneMore(t, a, fdb[..|fdb| - 1], e);
      assert fdb == fdb[..|fdb| - 1] + [e];
      if IsInnerLearn(t, a, e) then r[e.mac := e.ifindex] else r
  }

  lemma InnerOneMore(t: Topology, a: Anatomy, fdb: seq<FdbEntry>, e: FdbEntry)
    ensures InnerOf(t, a, fdb + [e]) == InnerOf(t, a, fdb) + if IsInnerLearn(t, a, e) then {e.mac} else {}
    ensures WireOf(t, a, fdb + [e]) == WireOf(t, a, fdb) + if IsWireLearn(t, a, e) then {e.mac} else {}
  {
    hide IsInnerLearn, IsWireLearn;
    assert forall x :: x in fdb + [e] <==> x in fdb || x == e;
  }

  /** Addresses of the host itself, from the bridge upwards. */
  ghost function Wards(t: Topology, a: Anatomy): set<Mac> {
    MacsOf(t, t.ReachSet(Uppers, a.bridge))
  }

  ghost function Desired(cfg: Config, t: Topology, a: Anatomy, skip: set<Mac>, fdb: seq<FdbEntry>): (r: set<Mac>)
    ensures forall m :: m in r <==>
              && (m in InnerOf(t, a, fdb) || m in Wards(t, a) || m in cfg.extra)
              && m !in skip && m !in WireOf(t, a, fdb) && IsRegisterable(m)
  {
    set m | m in InnerOf(t, a, fdb) + Wards(t, a) + cfg.extra &&
            m !in skip && m !in WireOf(t, a, fdb) && IsRegisterable(m)
  }

  method DesiredOf(cfg: Config, t: Topology, a: Anatomy, reach: Reach, skip: set<Mac>, fdb: seq<FdbEntry>)
    returns (want: set<Mac>, wire: set<Mac>, learntAt: map<Mac, Index>)
    requires a.bridge in t.links && reach == t.ReachOf(a.bridge)
    ensures want == Desired(cfg, t, a, skip, fdb)
    ensures wire == WireOf(t, a, fdb) && learntAt == LearntAt(t, a, fdb)
  {
    hide Topology.Reaches, Topology.ReachOf;
    var inner: set<Mac> := {};
    wire, learntAt := {}, map[];
    for k := 0 to |fdb|
      invariant inner == InnerOf(t, a, fdb[..k]) && wire == WireOf(t, a, fdb[..k])
      invariant learntAt == LearntAt(t, a, fdb[..k])
    {
      var e := fdb[k];
      assert fdb[..k + 1] == fdb[..k] + [e] && fdb[..k + 1][..k] == fdb[..k];
      InnerOneMore(t, a, fdb[..k], e);
      if !e.IsLearned() || !IsUnicast(e.mac) || e.master.None? {
        continue;
      }
      if e.ifindex in a.siblings {
        wire := wire + {e.mac};
        continue;
      }
      match reach.Classify(e.ifindex, e.master.value, a.port) {
        case Wire =>
          wire := wire + {e.mac};
        case Behind =>
          inner := inner + {e.mac};
          learntAt := learntAt[e.mac := e.ifindex];
        case NotOurs =>
      }
    }
    assert fdb[..|fdb|] == fdb;
    var above := t.Flood(Uppers, a.bridge);
    var wards := AddressesOf(t, above);
    var all := inner + wards + cfg.extra;
    want := set m | m in all && m !in skip && m !in wire && IsRegisterable(m);
  }

  // ----- what is kept through its silence

  /** The port is still enslaved somewhere the pair's bridge covers, on the inner side. */
  ghost predicate PortLives(t: Topology, a: Anatomy, p: Index) {
    && p !in t.ReachSet(Lowers, a.port) && p !in a.siblings
    && t.BridgeAboveOf(p).Some?
    && t.ReachOf(a.bridge).Covers(t.BridgeAboveOf(p).value.0)
  }

  ghost function QuietSurvivors(t: Topology, a: Anatomy, skip: set<Mac>, want: set<Mac>, wire: set<Mac>,
                                owned: set<Mac>, ports: Memory): (r: set<Mac>)
    ensures forall m :: m in r <==>
              && m in owned && m !in want && m !in wire && m !in skip && IsRegisterable(m)
              && m in ports && PortLives(t, a, ports[m].port)
  {
    set m | m in owned && m !in want && m !in wire && m !in skip && IsRegisterable(m) &&
            m in ports && PortLives(t, a, ports[m].port)
  }

  method QuietSurvivorsOf(t: Topology, a: Anatomy, reach: Reach, skip: set<Mac>, want: set<Mac>, wire: set<Mac>,
                          owned: set<Mac>, ports: Memory) returns (kept: set<Mac>)
    requires reach == t.ReachOf(a.bridge)
    ensures kept == QuietSurvivors(t, a, skip, want, wire, owned, ports)
  {
    hide Topology.Reaches, Topology.ReachOf, Topology.BridgeAboveOf;
    var wireward := t.Flood(Lowers, a.port);
    wireward := wireward + a.siblings;
    kept := {};
    var todo := owned;
    while todo != {}
      invariant todo <= owned
      invariant forall m :: m in kept <==> m !in todo && m in QuietSurvivors(t, a, skip, want, wire, owned, ports)
      decreases todo
    {
      var m :| m in todo;
      todo := todo - {m};
      if m in want || m in wire || m in skip || !IsRegisterable(m) || m !in ports {
        continue;
      }
      var p := ports[m].port;
      if p in wireward {
        continue;
      }
      var above := t.BridgeAbove(p);
      if above.Some? && reach.Covers(above.value.0) {
        kept := kept + {m};
      }
    }
  }

  // ----- the card's own list

  function SelfList(fdb: seq<FdbEntry>, ifindex: Index): set<Mac> {
    set e | e in fdb && e.IsSelf() && e.ifindex == ifindex && IsUnicast(e.mac) :: e.mac
  }
}
