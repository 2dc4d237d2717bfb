// The syncer over its uplinks (src/sync/mod.rs: `reconcile`, `fast_apply` and what they share).

module Sync {
  import opened Basics
  import opened Interfaces
  import opened Fdb
  import opened Desire
  import opened Valve
  import opened CardWrites
  import P = Pass
  import opened BatchWrites

  datatype Pair = Pair(dev: string, bridge: string)

  /** What the driver would answer about each physical function, or that it fails. */
  type Driver = Index -> Option<set<Mac>>

  /**
   * Whom the note found under the uplink's name is about: this interface; one that is gone or was
   * followed to its new name; or one whose note could not follow yet.
   */
  datatype Worn = Same | Anew | Waits

  /** The circumstances of one uplink's writes, as the world has them. */
  datatype Host = Host(
    readable: bool, answer: Kernel, refuses: bool,
    unnoteFails: bool, settleFails: bool, mergeFails: bool,
    cardList: set<Mac>, listed: bool, worn: Worn, lines: seq<Line>)  // the card's list, and whether it can be read back

  function DumpOr(dump: Option<seq<FdbEntry>>): seq<FdbEntry> {
    if dump.Some? then dump.value else []
  }

  predicate CanAnswer(says: Driver, pfs: set<Index>) {
    forall pf :: pf in pfs ==> says(pf).Some?
  }

  function Answers(says: Driver, pfs: set<Index>): (r: VfAnswer)
    requires CanAnswer(says, pfs)
    ensures forall pf, m :: (pf, m) in r <==> pf in pfs && m in says(pf).value
  {
    set pf, m | pf in pfs && m in says(pf).value :: (pf, m)
  }

  /** The physical functions behind the uplinks that are in this reading. */
  ghost function LivePfs(t: Topology, devs: seq<string>): set<Index> {
    if devs == [] then {}
    else
      var dev := devs[|devs| - 1];
      LivePfs(t, devs[..|devs| - 1]) + if dev in t.byName then t.FunctionsBehind(t.byName[dev]) else {}
  }

  lemma {:induction false} LivePfsHolds(t: Topology, devs: seq<string>, dev: string)
    requires dev in devs && dev in t.byName
    ensures t.FunctionsBehind(t.byName[dev]) <= LivePfs(t, devs)
  {
    var init, last := devs[..|devs| - 1], devs[|devs| - 1];
    assert devs == init + [last];
    if dev != last {
      LivePfsHolds(t, init, dev);
    }
  }

  method LivePfsOf(t: Topology, devs: seq<string>) returns (pfs: set<Index>)
    ensures pfs == LivePfs(t, devs)
  {
    pfs := {};
    for k := 0 to |devs|
      invariant pfs == LivePfs(t, devs[..k])
    {
      assert devs[..k + 1][..k] == devs[..k];
      if devs[k] in t.byName {
        var card := t.FilterCarrier(t.byName[devs[k]]);
        var some := t.PhysicalFunctions(card);
        pfs := pfs + some;
      }
    }
    assert devs[..|devs|] == devs;
  }

  /** What a pair is in a reading: nothing while its device or bridge is away or detached. */
  ghost function Resolved(t: Topology, p: Pair): Option<Anatomy> {
    if p.dev in t.byName && p.bridge in t.byName then t.AnatomyOf(t.byName[p.dev], t.byName[p.bridge]) else None
  }

  lemma ResolvedMeans(t: Topology, p: Pair)
    requires Resolved(t, p).Some?
    ensures var a := Resolved(t, p).value;
            && a.bridge in t.links && p.dev in t.byName && a.dev == t.byName[p.dev]
            && a.functions == t.FunctionsBehind(a.dev)
  {
    hide Topology.Reaches, Topology.ReachOf, Topology.SiblingsOf;
  }

  method Resolve(t: Topology, p: Pair) returns (a: Option<Anatomy>)
    ensures a == Resolved(t, p)
  {
    if p.dev in t.byName && p.bridge in t.byName {
      a := t.AnatomyFor(t.byName[p.dev], t.byName[p.bridge]);
    } else {
      a := None;
    }
  }

  /** What a batch of registrations leaves of an uplink; a note that refuses it leaves all as it was. */
  function Registered(u: P.Uplink, macs: set<Mac>, takes: bool, unnoteFails: bool, answer: Kernel): P.Uplink {
    u.(note := NoteBehind(u.note, macs, takes, unnoteFails, answer), list := u.list + PutBy(macs, takes, answer))
  }

  class Syncer {
    const pairs: seq<Pair>
    const cfg: Config
    const limits: map<Index, nat>  // the driver table's number for a card
    const maxMacs: nat             // the number for a card it does not know
    var uplinks: map<string, P.Uplink>
    var carriedVf: Option<(set<Index>, VfAnswer)>
    var vfStale: bool
    var lastPassAt: Stamp

    constructor (pairs: seq<Pair>, cfg: Config, limits: map<Index, nat>, maxMacs: nat, lists: map<string, set<Mac>>)
      requires forall j, k :: 0 <= j < k < |pairs| ==> pairs[j].dev != pairs[k].dev
      requires forall p :: p in pairs ==> p.dev in lists
      ensures Valid() && vfStale && lastPassAt == 0
    {
      this.pairs, this.cfg, this.limits, this.maxMacs := pairs, cfg, limits, maxMacs;
      uplinks := map dev | dev in lists :: P.Uplink({}, lists[dev], map[], false, None);
      carriedVf, vfStale, lastPassAt := None, true, 0;
    }

    ghost predicate Valid()
      reads this
    {
      && (forall j, k :: 0 <= j < k < |pairs| ==> pairs[j].dev != pairs[k].dev)
      && (forall p :: p in pairs ==> p.dev in uplinks)
    }

    function LimitOf(card: Index): nat {
      if card in limits then limits[card] else maxMacs
    }

    /** The answer carried over, while it is fresh and for exactly these functions. */
    function CarriedVfFor(pfs: set<Index>): Option<VfAnswer>
      reads this
    {
      if carriedVf.Some? && !vfStale && carriedVf.value.0 == pfs then Some(carriedVf.value.1) else None
    }

    method RememberVf(pfs: set<Index>, vf: VfAnswer)
      modifies this
      ensures carriedVf == Some((pfs, vf)) && !vfStale
      ensures uplinks == old(uplinks) && lastPassAt == old(lastPassAt)
    {
      carriedVf := Some((pfs, vf));
      vfStale := false;
    }

    // ----- the writes both paths share

    /** Note first, then the card, then the fresh intents of somebody else's entries back out. */
    method RegisterBatch(dev: string, macs: set<Mac>, takes: bool, unnoteFails: bool, answer: Kernel)
      returns (put: set<Mac>)
      requires dev in uplinks
      modifies this
      ensures put == PutBy(macs, takes, answer)
      ensures uplinks == old(uplinks)[dev := Registered(old(uplinks)[dev], macs, takes, unnoteFails, answer)]
      ensures carriedVf == old(carriedVf) && vfStale == old(vfStale) && lastPassAt == old(lastPassAt)
    {
      var u := uplinks[dev];
      put := {};
      if !takes {
        assert u.(list := u.list + {}) == u;
        assert uplinks[dev := u] == uplinks;
        return;
      }
      var unclaim := {};
      var noted := u.(note := u.note + macs);
      uplinks := uplinks[dev := noted];
      assert noted.(list := u.list + {}) == noted;
      var todo := macs;
      while todo != {}
        invariant todo <= macs
        invariant put == Accepted(macs - todo, answer)
        invariant unclaim == SomebodyElses(u.note, macs - todo, answer)
        invariant uplinks == old(uplinks)[dev := noted.(list := u.list + put)]
        invariant carriedVf == old(carriedVf) && vfStale == old(vfStale) && lastPassAt == old(lastPassAt)
        decreases todo
      {
        var m :| m in todo;
        todo := todo - {m};
        match answer(m, true) {
          case Ok =>
            put := put + {m};
            uplinks := uplinks[dev := uplinks[dev].(list := uplinks[dev].list + {m})];
            assert u.list + put == u.list + (put - {m}) + {m};
          case Exists =>
            if m !in u.note {
              unclaim := unclaim + {m};
            }
          case _ =>
        }
      }
      assert macs - {} == macs;
      if unclaim != {} && !unnoteFails {
        uplinks := uplinks[dev := uplinks[dev].(note := uplinks[dev].note - unclaim)];
      } else {
        assert u.note + macs - {} == u.note + macs;
      }
    }

    /** The removals one by one, then the note without those that are out. */
    method Retire(dev: string, macs: set<Mac>, settles: bool, answer: Kernel)
      returns (removed: set<Mac>, dropped: set<Mac>)
      requires dev in uplinks
      modifies this
      ensures removed == TakenBy(macs, answer) && dropped == LetGoBy(macs, answer)
      ensures var u := old(uplinks)[dev];
              uplinks == old(uplinks)[dev := u.(note := if settles then u.note - dropped else u.note,
                                                list := u.list - removed)]
      ensures carriedVf == old(carriedVf) && vfStale == old(vfStale) && lastPassAt == old(lastPassAt)
    {
      var u := uplinks[dev];
      removed, dropped := {}, {};
      var todo := macs;
      assert uplinks == uplinks[dev := u.(list := u.list - {})] by { assert u.list - {} == u.list; }
      while todo != {}
        invariant todo <= macs
        invariant removed == TakenBy(macs - todo, answer) && dropped == LetGoBy(macs - todo, answer)
        invariant uplinks == old(uplinks)[dev := u.(list := u.list - removed)]
        invariant carriedVf == old(carriedVf) && vfStale == old(vfStale) && lastPassAt == old(lastPassAt)
        decreases todo
      {
        var m :| m in todo;
        todo := todo - {m};
        match answer(m, false) {
          case Ok =>
            removed, dropped := removed + {m}, dropped + {m};
            uplinks := uplinks[dev := uplinks[dev].(list := uplinks[dev].list - {m})];
            assert u.list - removed == u.list - (removed - {m}) - {m};
          case Absent =>
            dropped := dropped + {m};
          case _ =>
        }
      }
      assert macs - {} == macs;
      if settles {
        uplinks := uplinks[dev := uplinks[dev].(note := uplinks[dev].note - dropped)];
      }
    }

    // ----- the pass

    /** Desired and kept together, under one driver answer. */
    method WantedWithKeeps(u: P.Uplink, g: P.Given, vf: VfAnswer) returns (w: P.Wanted)
      requires g.a.bridge in g.t.links
      ensures w == P.WantedWith(u, g, vf)
    {
      hide Topology.Reaches, Topology.ReachOf, Exclusions, Desired, QuietSurvivors, WireOf, LearntAt;
      var skip := ExclusionsOf(g.cfg, g.t, g.a, vf);
      var reach := g.t.ReachFrom(g.a.bridge);
      var want, wire, learntAt := DesiredOf(g.cfg, g.t, g.a, reach, skip, g.fdb);
      var kept := QuietSurvivorsOf(g.t, g.a, reach, skip, want, wire, P.OwnedBefore(u, g), u.ports);
      w := P.Wanted(want + kept, wire, learntAt, kept);
    }

    /** Something is kept for the first time, or wanted and not in the list. */
    predicate Grows(u: P.Uplink, g: P.Given, w: P.Wanted) {
      || !(w.kept <= if u.carried.Some? then u.carried.value.quiet else {})
      || !(w.want <= P.Present(g))
    }

    /**
     * One uplink's share of a pass. A carried driver answer decides nothing that grows: where
     * it would, the driver is asked once more and everything is decided again.
     */
    method ReconcilePair(dev: string, g: P.Given, says: Driver, pfs: set<Index>, vf: VfAnswer, carried: bool)
      returns (ok: bool, vf': VfAnswer, carried': bool)
      requires dev in uplinks && g.a.bridge in g.t.links
      modifies this
      ensures lastPassAt == old(lastPassAt)
      ensures ok ==> uplinks == old(uplinks)[dev := P.After(old(uplinks)[dev], g, P.WantedWith(old(uplinks)[dev], g, vf'))]
      ensures ok ==>
                || (vf' == vf && carried' == carried && carriedVf == old(carriedVf) && vfStale == old(vfStale))
                || (carried && !carried' && CanAnswer(says, pfs) && vf' == Answers(says, pfs) &&
                    carriedVf == Some((pfs, vf')) && !vfStale)
      ensures ok && carried' ==>
                P.ToAdd(g, P.Pressed(old(uplinks)[dev], g, P.WantedWith(old(uplinks)[dev], g, vf'))) == {}
      ensures !ok ==> uplinks == old(uplinks) && vfStale && carriedVf == old(carriedVf)
    {
      hide P.WantedWith, P.After, Released, SelfList;
      var u := uplinks[dev];
      vf', carried', ok := vf, carried, true;
      var w := WantedWithKeeps(u, g, vf);
      if carried && Grows(u, g, w) {
        // distrusted from here on, whatever becomes of the question
        vfStale := true;
        if !CanAnswer(says, pfs) {
          ok := false;
          return;
        }
        vf', carried' := Answers(says, pfs), false;
        RememberVf(pfs, vf');
        w := WantedWithKeeps(u, g, vf');
      }
      P.WantedIsSplit(u, g, vf');
      ApplyWanted(dev, g, w);
      if carried' {
        P.PressedIsLess(u, g, w);
        assert P.ToAdd(g, w) == {};
      }
    }

    /** What is wanted, pressed to the limit, written down and into the card, and remembered. */
    method ApplyWanted(dev: string, g: P.Given, w0: P.Wanted)
      requires dev in uplinks && w0.kept <= w0.want
      modifies this
      ensures uplinks == old(uplinks)[dev := P.After(old(uplinks)[dev], g, w0)]
      ensures carriedVf == old(carriedVf) && vfStale == old(vfStale) && lastPassAt == old(lastPassAt)
    {
      hide Released, SelfList, P.MemoryAfter, P.NoteMerged, P.Occupied, P.Shed, Excess;
      var u := uplinks[dev];
      var before := P.OwnedBefore(u, g);
      var w, occupied := Press(u, g, w0);
      var put := RegisterBatch(dev, P.ToAdd(g, w), P.Registers(g), g.unnoteFails, g.answer);
      assert put == P.Put(g, w);
      assert uplinks[dev].note == P.NoteRegistered(u, g, w) && uplinks[dev].list == u.list + put;
      var stale := before + put - w.want;
      var removed, dropped := Retire(dev, stale, g.readable && !g.settleFails, g.answer);
      assert removed == P.Removed(u, g, w) && dropped == P.Dropped(u, g, w);
      assert uplinks[dev].note == P.NoteRetired(u, g, w) && uplinks[dev].list == P.ListAfter(u, g, w);
      var note := Merge(uplinks[dev].note, before, before + put - dropped, !g.mergeFails && g.readable);
      MergedNote(u, g, w);
      var ports := Remember(u, g, w, before + put - dropped, stale - dropped);
      var passedAt := if g.readable then g.passAt else if u.carried.Some? then u.carried.value.passedAt else 0;
      uplinks := uplinks[dev := P.Uplink(note, uplinks[dev].list, ports, u.loaded,
                                         Some(P.Carried(occupied, w.kept, w.wire, passedAt)))];
    }

    /** The pass's arm of the valve, over what the pass would leave on the card. */
    method Press(u: P.Uplink, g: P.Given, w0: P.Wanted) returns (w: P.Wanted, occupied: nat)
      requires w0.kept <= w0.want
      ensures w == P.Pressed(u, g, w0) && occupied == P.Occupied(u, g, w0) - |P.Shed(u, g, w0)|
    {
      hide Released, SelfList;
      var foreign := P.OnCard(g) - w0.want - P.OwnedBefore(u, g);
      occupied := |w0.want| + |foreign|;
      P.ShedIsKept(u, g, w0);
      var want, kept, shed := PressAtPass(g.limit, occupied, w0.want, w0.kept, u.ports);
      w := w0.(want := want, kept := kept);
      occupied := occupied - shed;
    }

    /** The difference this pass made, against the note as it is by then. */
    function Merge(note: set<Mac>, before: set<Mac>, after: set<Mac>, written: bool): set<Mac> {
      if before != after && written then note + (after - before) - (before - after) else note
    }

    lemma MergedNote(u: P.Uplink, g: P.Given, w: P.Wanted)
      ensures P.NoteMerged(u, g, w) ==
              Merge(P.NoteRetired(u, g, w), P.OwnedBefore(u, g), P.Owned(u, g, w), !g.mergeFails && g.readable)
    {
    }

    /** A removal that failed evicts its memory; the rest follows what is owned. */
    method Remember(u: P.Uplink, g: P.Given, w: P.Wanted, owned: set<Mac>, failed: set<Mac>) returns (ports: Memory)
      requires owned == P.Owned(u, g, w) && failed == P.Stale(u, g, w) - P.Dropped(u, g, w)
      ensures ports == P.MemoryAfter(u, g, w)
    {
      hide SelfList, P.Stale, P.Dropped, P.Owned;
      ports := Minus(u.ports, failed);
      if g.readable {
        var seen := P.SeenAll(ports, w.learntAt, g.passAt);
        ports := map m | m in seen && m in owned :: seen[m];
      }
    }

    /** What a pass is given for one pair. */
    function GivenFor(t: Topology, a: Anatomy, fdb: seq<FdbEntry>, passAt: Stamp, h: Host): P.Given {
      P.Given(cfg, t, a, LimitOf(a.card), passAt, fdb,
              h.readable, h.answer, h.refuses, h.unnoteFails, h.settleFails, h.mergeFails)
    }

    /**
     * How a pass may leave a pair: as one pass over it, judged by an answer the driver gave in
     * this very call, or by the carried one and then with nothing added to the card.
     */
    ghost predicate PassedOver(u: P.Uplink, u': P.Uplink, g: P.Given, says: Driver, pfs: set<Index>, carried: Option<VfAnswer>) {
      exists vf ::
        && u' == P.After(u, g, P.WantedWith(u, g, vf))
        && ((CanAnswer(says, pfs) && vf == Answers(says, pfs)) ||
            (carried == Some(vf) && P.ToAdd(g, P.Pressed(u, g, P.WantedWith(u, g, vf))) == {}))
    }

    /** A new interface wearing the name starts with nothing but its own list. */
    function Begun(u: P.Uplink, h: Host): P.Uplink {
      if h.worn == Anew then P.Uplink({}, u.list, map[], false, None) else u
    }

    /** What a whole pass does to one pair: nothing at all while it is away. */
    ghost predicate PairPassed(p: Pair, u: P.Uplink, u': P.Uplink, t: Topology, fdb: seq<FdbEntry>, clock: Stamp,
                               passAt: Stamp, says: Driver, pfs: set<Index>, carried: Option<VfAnswer>, h: Host) {
      match Resolved(t, p)
      case None => u' == u
      case Some(a) =>
        if h.worn == Waits then u' == TakenOver(u, t, h.lines, clock)
        else PassedOver(TakenOver(Begun(u, h), t, h.lines, clock), u', GivenFor(t, a, fdb, passAt, h), says, pfs, carried)
    }

    /** What a pass that could not ask leaves of a pair it did not get through: at most the memory taken over. */
    ghost predicate PairLeft(p: Pair, u: P.Uplink, u': P.Uplink, t: Topology, clock: Stamp, h: Host) {
      u' == u || u' == TakenOver(Begun(u, h), t, h.lines, clock)
    }

    function Devices(): seq<string> {
      seq(|pairs|, k requires 0 <= k < |pairs| => pairs[k].dev)
    }

    /** A full reconciliation against one dump. A pass that could not ask changes no filter. */
    method Reconcile(t: Topology, dump: Option<seq<FdbEntry>>, clock: Stamp, says: Driver, hosts: string -> Host)
      returns (ok: bool)
      requires Valid()
      modifies this
      ensures Valid() && uplinks.Keys == old(uplinks).Keys
      ensures lastPassAt == old(lastPassAt) || lastPassAt == P.NextPassAt(old(lastPassAt), clock)
      ensures ok && pairs != [] ==> dump.Some? && lastPassAt == P.NextPassAt(old(lastPassAt), clock)
      ensures ok ==> forall p :: p in pairs ==>
                PairPassed(p, old(uplinks)[p.dev], uplinks[p.dev], t, DumpOr(dump), clock, lastPassAt, says,
                           LivePfs(t, Devices()), old(CarriedVfFor(LivePfs(t, Devices()))), hosts(p.dev))
      ensures !ok ==> forall p :: p in pairs ==>
                || PairLeft(p, old(uplinks)[p.dev], uplinks[p.dev], t, clock, hosts(p.dev))
                || PairPassed(p, old(uplinks)[p.dev], uplinks[p.dev], t, DumpOr(dump), clock, lastPassAt, says,
                              LivePfs(t, Devices()), old(CarriedVfFor(LivePfs(t, Devices()))), hosts(p.dev))
      ensures ok && pairs != [] ==>
                var pfs := LivePfs(t, Devices());
                || (CanAnswer(says, pfs) && CarriedVfFor(pfs) == Some(Answers(says, pfs)))
                || (old(CarriedVfFor(pfs)).Some? && CarriedVfFor(pfs) == old(CarriedVfFor(pfs)))
      ensures !ok ==> if dump.None? then uplinks == old(uplinks) else CarriedVfFor(LivePfs(t, Devices())) == None
      ensures forall dev :: dev in uplinks && (forall p :: p in pairs ==> p.dev != dev) ==> uplinks[dev] == old(uplinks)[dev]
    {
      hide PairPassed, LivePfs, CanAnswer, Answers;
      if pairs == [] {
        return true;
      }
      if dump.None? {
        return false;
      }
      var pfs := LivePfsOf(t, Devices());
      var kept := CarriedVfFor(pfs);
      var vf, carried := {}, kept.Some?;
      if carried {
        vf := kept.value;
      } else {
        if !CanAnswer(says, pfs) {
          return false;
        }
        vf := Answers(says, pfs);
        RememberVf(pfs, vf);
      }
      lastPassAt := P.NextPassAt(lastPassAt, clock);
      ok := PassOverPairs(t, dump.value, clock, says, hosts, pfs, vf, carried, kept);
    }

    method PassOverPairs(t: Topology, fdb: seq<FdbEntry>, clock: Stamp, says: Driver, hosts: string -> Host,
                         pfs: set<Index>, vf0: VfAnswer, carried0: bool, ghost kept: Option<VfAnswer>) returns (ok: bool)
      requires Valid()
      requires if carried0 then kept == Some(vf0) else CanAnswer(says, pfs) && vf0 == Answers(says, pfs)
      requires CarriedVfFor(pfs) == Some(vf0)
      modifies this
      ensures ok ==>
                && CarriedVfFor(pfs).Some?
                && (CarriedVfFor(pfs) == kept || (CanAnswer(says, pfs) && CarriedVfFor(pfs) == Some(Answers(says, pfs))))
      ensures Valid() && uplinks.Keys == old(uplinks).Keys && lastPassAt == old(lastPassAt)
      ensures ok ==> forall k :: 0 <= k < |pairs| ==>
                PairPassed(pairs[k], old(uplinks)[pairs[k].dev], uplinks[pairs[k].dev], t, fdb, clock, lastPassAt, says,
                           pfs, kept, hosts(pairs[k].dev))
      ensures !ok ==> forall k :: 0 <= k < |pairs| ==>
                || PairLeft(pairs[k], old(uplinks)[pairs[k].dev], uplinks[pairs[k].dev], t, clock, hosts(pairs[k].dev))
                || PairPassed(pairs[k], old(uplinks)[pairs[k].dev], uplinks[pairs[k].dev], t, fdb, clock, lastPassAt, says,
                              pfs, kept, hosts(pairs[k].dev))
      ensures !ok ==> CarriedVfFor(pfs) == None
      ensures forall dev :: dev in uplinks && (forall p :: p in pairs ==> p.dev != dev) ==> uplinks[dev] == old(uplinks)[dev]
    {
      hide PairPassed, CanAnswer, Answers;
      var vf, carried := vf0, carried0;
      for k := 0 to |pairs|
        invariant Valid() && uplinks.Keys == old(uplinks).Keys && lastPassAt == old(lastPassAt)
        invariant CarriedVfFor(pfs) == Some(vf)
        invariant if carried then kept == Some(vf) else CanAnswer(says, pfs) && vf == Answers(says, pfs)
        invariant forall j :: 0 <= j < k ==>
                    PairPassed(pairs[j], old(uplinks)[pairs[j].dev], uplinks[pairs[j].dev], t, fdb, clock, lastPassAt,
                               says, pfs, kept, hosts(pairs[j].dev))
        invariant forall j :: k <= j < |pairs| ==> uplinks[pairs[j].dev] == old(uplinks)[pairs[j].dev]
        invariant forall dev :: dev in uplinks && (forall p :: p in pairs ==> p.dev != dev) ==> uplinks[dev] == old(uplinks)[dev]
      {
        ok, vf, carried := PassOverPair(pairs[k], t, fdb, clock, says, hosts(pairs[k].dev), pfs, vf, carried, kept);
        if !ok {
          return;
        }
      }
      ok := true;
    }

    method PassOverPair(p: Pair, t: Topology, fdb: seq<FdbEntry>, clock: Stamp, says: Driver, h: Host,
                        pfs: set<Index>, vf: VfAnswer, carried: bool, ghost kept: Option<VfAnswer>)
      returns (ok: bool, vf': VfAnswer, carried': bool)
      requires p.dev in uplinks
      requires if carried then kept == Some(vf) else CanAnswer(says, pfs) && vf == Answers(says, pfs)
      requires CarriedVfFor(pfs) == Some(vf)
      modifies this
      ensures ok ==> CarriedVfFor(pfs) == Some(vf')
      ensures p.dev in uplinks && uplinks == old(uplinks)[p.dev := uplinks[p.dev]]
      ensures lastPassAt == old(lastPassAt)
      ensures ok ==> if carried' then kept == Some(vf') else CanAnswer(says, pfs) && vf' == Answers(says, pfs)
      ensures ok ==>
                PairPassed(p, old(uplinks)[p.dev], uplinks[p.dev], t, fdb, clock, lastPassAt, says, pfs, kept, h)
      ensures !ok ==> PairLeft(p, old(uplinks)[p.dev], uplinks[p.dev], t, clock, h) && CarriedVfFor(pfs) == None
    {
      hide P.After, P.WantedWith, P.Pressed, P.ToAdd, Resolved, TakenOver, Answers, CanAnswer;
      var a := Resolve(t, p);
      if a.None? {
        return true, vf, carried;
      }
      ResolvedMeans(t, p);
      if h.worn == Waits {
        LoadMemory(p.dev, t, h.lines, clock);
        return true, vf, carried;
      }
      uplinks := uplinks[p.dev := Begun(uplinks[p.dev], h)];
      LoadMemory(p.dev, t, h.lines, clock);
      var g := GivenFor(t, a.value, fdb, lastPassAt, h);
      ok, vf', carried' := ReconcilePair(p.dev, g, says, pfs, vf, carried);
    }

    /** The written-down memory, once per run. */
    method LoadMemory(dev: string, t: Topology, lines: seq<Line>, now: Stamp)
      requires dev in uplinks
      modifies this
      ensures uplinks == old(uplinks)[dev := TakenOver(old(uplinks)[dev], t, lines, now)]
      ensures carriedVf == old(carriedVf) && vfStale == old(vfStale) && lastPassAt == old(lastPassAt)
    {
      var u := uplinks[dev];
      if u.loaded || u.ports != map[] {
        uplinks := uplinks[dev := u.(loaded := true)];
      } else {
        var ports := LoadPorts(t, lines, now);
        uplinks := uplinks[dev := u.(loaded := true, ports := ports)];
      }
    }
  }
  /** On a fresh answer: every function of every pair was asked about. */
  lemma VettedWhenFresh(s: Syncer, t: Topology, p: Pair)
    requires p in s.pairs && Resolved(t, p).Some?
    ensures Resolved(t, p).value.functions <= LivePfs(t, s.Devices())
  {
    hide Resolved, LivePfs;
    ResolvedMeans(t, p);
    var k :| 0 <= k < |s.pairs| && s.pairs[k] == p;
    assert s.Devices()[k] == p.dev;
    LivePfsHolds(t, s.Devices(), p.dev);
  }

  /**
   * Whatever a pass brings newly into a pair's card was judged by what the driver said in that
   * very call about every function behind the uplink: it is no virtual function's address by
   * that answer, and nothing else keeps it out.
   */
  lemma PassGrowthIsVetted(s: Syncer, p: Pair, u: P.Uplink, u': P.Uplink, t: Topology, fdb: seq<FdbEntry>, clock: Stamp,
                           passAt: Stamp, says: Driver, carried: Option<VfAnswer>, h: Host, m: Mac)
    requires p in s.pairs && Resolved(t, p).Some?
    requires s.PairPassed(p, u, u', t, fdb, clock, passAt, says, LivePfs(t, s.Devices()), carried, h)
    requires m in u'.list && m !in u.list
    ensures var a := Resolved(t, p).value;
            && CanAnswer(says, a.functions)
            && m !in StaticExclusions(s.cfg, t, a) && m !in WireOf(t, a, fdb)
            && forall pf :: pf in a.functions ==> m !in says(pf).value
  {
    hide Resolved, LivePfs, TakenOver, StaticExclusions, WireOf, Syncer.PassedOver;
    var a := Resolved(t, p).value;
    VettedWhenFresh(s, t, p);
    LoadingKeepsTheList(u, t, h.lines, clock);
    LoadingKeepsTheList(s.Begun(u, h), t, h.lines, clock);
    GrowthIsJudged(s, TakenOver(s.Begun(u, h), t, h.lines, clock), u', s.GivenFor(t, a, fdb, passAt, h), says,
                   LivePfs(t, s.Devices()), carried, m);
    AnswersForFewer(says, LivePfs(t, s.Devices()), a.functions);
  }

  lemma LoadingKeepsTheList(u: P.Uplink, t: Topology, lines: seq<Line>, now: Stamp)
    ensures TakenOver(u, t, lines, now).list == u.list
  {
  }

  lemma AnswersForFewer(says: Driver, pfs: set<Index>, fewer: set<Index>)
    requires CanAnswer(says, pfs) && fewer <= pfs
    ensures CanAnswer(says, fewer)
  {
  }

  lemma GrowthIsJudged(s: Syncer, u: P.Uplink, u': P.Uplink, g: P.Given, says: Driver, pfs: set<Index>,
                       carried: Option<VfAnswer>, m: Mac)
    requires s.PassedOver(u, u', g, says, pfs, carried)
    requires m in u'.list && m !in u.list
    ensures CanAnswer(says, pfs) && m !in StaticExclusions(g.cfg, g.t, g.a) && m !in WireOf(g.t, g.a, g.fdb)
    ensures forall pf :: pf in g.a.functions * pfs ==> m !in says(pf).value
  {
    hide StaticExclusions, InnerOf, Wards, WireOf, PortLives, IsRegisterable, Released, P.Removed, P.Shed, P.NoteMerged,
         P.MemoryAfter, P.Occupied, SelfList;
    var vf :|
      && u' == P.After(u, g, P.WantedWith(u, g, vf))
      && ((CanAnswer(says, pfs) && vf == Answers(says, pfs)) ||
          (carried == Some(vf) && P.ToAdd(g, P.Pressed(u, g, P.WantedWith(u, g, vf))) == {}));
    var w := P.Pressed(u, g, P.WantedWith(u, g, vf));
    assert m in P.Put(g, w);
    assert m in P.ToAdd(g, w);
    assert m in P.WantedWith(u, g, vf).want;
  }
}
