// Answering a batch of notifications without a dump (src/sync/mod.rs, `fast_apply`).

module EventPath {
  import opened Basics
  import opened Interfaces
  import opened Fdb
  import opened Desire
  import opened Valve
  import O = Ownership
  import opened CardWrites
  import P = Pass
  import opened Batch
  import opened BatchWrites
  import opened Sync

  /** A notification: an entry that appeared, or one that went. */
  datatype Notice = New(entry: FdbEntry) | Del(entry: FdbEntry)

  function NewOnes(events: seq<Notice>): (r: seq<FdbEntry>)
    ensures forall e :: e in r <==> New(e) in events
  {
    if events == [] then []
    else
      assert events == events[..|events| - 1] + [events[|events| - 1]];
      NewOnes(events[..|events| - 1]) +
      if events[|events| - 1].New? then [events[|events| - 1].entry] else []
  }

  function DelOnes(events: seq<Notice>): (r: seq<FdbEntry>)
    ensures forall e :: e in r <==> Del(e) in events
  {
    if events == [] then []
    else
      assert events == events[..|events| - 1] + [events[|events| - 1]];
      DelOnes(events[..|events| - 1]) +
      if events[|events| - 1].Del? then [events[|events| - 1].entry] else []
  }

  // ----- dating the silence

  /** The deletion comes from a bridge with an ageing time that serves this pair's bridge. */
  ghost predicate Dates(t: Topology, p: Pair, e: FdbEntry) {
    && p.bridge in t.byName
    && e.master.Some? && e.master.value in t.links && t.links[e.master.value].ageing.Some?
    && t.Reaches(Lowers, e.master.value, t.byName[p.bridge])
  }

  function Spoke(t: Topology, e: FdbEntry, now: Stamp): Stamp
    requires e.master.Some? && e.master.value in t.links && t.links[e.master.value].ageing.Some?
  {
    Less(now, t.links[e.master.value].ageing.value)
  }

  ghost function Dated(u: P.Uplink, t: Topology, p: Pair, dels: seq<FdbEntry>, now: Stamp): P.Uplink {
    if dels == [] then u
    else
      var e := dels[|dels| - 1];
      var before := Dated(u, t, p, dels[..|dels| - 1], now);
      if Dates(t, p, e) then AfterDating(before, e.mac, Spoke(t, e, now)) else before
  }

  /** What changed is these pairs' uplinks and nothing else. */
  twostate predicate OnlyUplinks(s: Syncer)
    reads s
  {
    && s.carriedVf == old(s.carriedVf) && s.vfStale == old(s.vfStale) && s.lastPassAt == old(s.lastPassAt)
    && s.uplinks.Keys == old(s.uplinks).Keys
    && forall dev :: dev in s.uplinks && (forall p :: p in s.pairs ==> p.dev != dev) ==> s.uplinks[dev] == old(s.uplinks)[dev]
  }

  method DateSilence(s: Syncer, t: Topology, events: seq<Notice>, now: Stamp)
    requires s.Valid()
    modifies s
    ensures s.Valid() && OnlyUplinks(s)
    ensures forall p :: p in s.pairs ==> s.uplinks[p.dev] == Dated(old(s.uplinks)[p.dev], t, p, DelOnes(events), now)
  {
    hide Dates, AfterDating;
    for k := 0 to |events|
      invariant s.Valid() && OnlyUplinks(s)
      invariant forall p :: p in s.pairs ==>
                  s.uplinks[p.dev] == Dated(old(s.uplinks)[p.dev], t, p, DelOnes(events[..k]), now)
    {
      assert events[..k + 1][..k] == events[..k];
      ghost var dels := DelOnes(events[..k]);
      if events[k].Del? {
        var e := events[k].entry;
        assert DelOnes(events[..k + 1]) == dels + [e] && (dels + [e])[..|dels|] == dels;
        DateOne(s, t, e, now);
      } else {
        assert DelOnes(events[..k + 1]) == dels + [] == dels;
      }
    }
    assert events[..|events|] == events;
  }

  method DateOne(s: Syncer, t: Topology, e: FdbEntry, now: Stamp)
    requires s.Valid()
    modifies s
    ensures s.Valid() && OnlyUplinks(s)
    ensures forall p :: p in s.pairs ==>
              s.uplinks[p.dev] ==
              if Dates(t, p, e) then AfterDating(old(s.uplinks)[p.dev], e.mac, Spoke(t, e, now)) else old(s.uplinks)[p.dev]
  {
    hide AfterDating, Topology.Reaches;
    if e.master.None? || e.master.value !in t.links || t.links[e.master.value].ageing.None? {
      return;
    }
    var spoke := Spoke(t, e, now);
    for k := 0 to |s.pairs|
      invariant s.Valid() && OnlyUplinks(s)
      invariant forall j :: 0 <= j < k ==>
                  s.uplinks[s.pairs[j].dev] ==
                  if Dates(t, s.pairs[j], e) then AfterDating(old(s.uplinks)[s.pairs[j].dev], e.mac, spoke)
                  else old(s.uplinks)[s.pairs[j].dev]
      invariant forall j :: k <= j < |s.pairs| ==> s.uplinks[s.pairs[j].dev] == old(s.uplinks)[s.pairs[j].dev]
    {
      var p := s.pairs[k];
      if p.bridge in t.byName {
        var serves := t.LeadsTo(e.master.value, t.byName[p.bridge]);
        if serves {
          s.uplinks := s.uplinks[p.dev := AfterDating(s.uplinks[p.dev], e.mac, spoke)];
        }
      }
    }
  }

  // ----- the pairs as a batch sees them

  /** One pair for this batch, judged by some driver answer. */
  ghost function FastOf(s: Syncer, t: Topology, p: Pair, vf: VfAnswer, carried: bool, news: seq<FdbEntry>): FastPair
    requires Resolved(t, p).Some?
  {
    var a := Resolved(t, p).value;
    FastPair(p.dev, a, t.ReachOf(a.bridge), Exclusions(s.cfg, t, a, vf), ReflectedBy(a, news),
             if carried then VfReported(a.functions, vf) else {})
  }

  /** The list has exactly the pairs that resolve, each once, in order. */
  ghost predicate AreFast(s: Syncer, t: Topology, fps: seq<FastPair>, of: seq<Pair>, vf: VfAnswer, carried: bool, news: seq<FdbEntry>) {
    && |of| == |fps|
    && (forall k :: 0 <= k < |of| ==>
          of[k] in s.pairs && Resolved(t, of[k]).Some? && fps[k] == FastOf(s, t, of[k], vf, carried, news))
    && (forall j, k :: 0 <= j < k < |of| ==> of[j].dev != of[k].dev)
    && (forall p :: p in s.pairs && Resolved(t, p).Some? ==> p in of)
  }

  method BuildFast(s: Syncer, t: Topology, vf: VfAnswer, carried: bool, news: seq<FdbEntry>)
    returns (fps: seq<FastPair>, of: seq<Pair>)
    requires s.Valid()
    ensures AreFast(s, t, fps, of, vf, carried, news)
  {
    hide Resolved, Exclusions, ReflectedBy, Topology.ReachOf, VfReported;
    fps, of := [], [];
    for k := 0 to |s.pairs|
      invariant |of| == |fps|
      invariant forall j :: 0 <= j < |of| ==>
                  of[j] in s.pairs[..k] && Resolved(t, of[j]).Some? && fps[j] == FastOf(s, t, of[j], vf, carried, news)
      invariant forall i, j :: 0 <= i < j < |of| ==> of[i].dev != of[j].dev
      invariant forall p :: p in s.pairs[..k] && Resolved(t, p).Some? ==> p in of
    {
      var p := s.pairs[k];
      assert s.pairs[..k + 1] == s.pairs[..k] + [p];
      assert forall q :: q in s.pairs[..k] ==> q.dev != p.dev;
      var a := Resolve(t, p);
      if a.Some? {
        ResolvedMeans(t, p);
        var skip := ExclusionsOf(s.cfg, t, a.value, vf);
        var reach := t.ReachFrom(a.value.bridge);
        var fp := FastPair(p.dev, a.value, reach, skip, ReflectedBy(a.value, news),
                           if carried then VfReported(a.value.functions, vf) else {});
        fps, of := fps + [fp], of + [p];
      }
    }
    assert s.pairs[..|s.pairs|] == s.pairs;
  }

  function MomentFor(s: Syncer, a: Anatomy, now: Stamp, h: Host): Moment {
    Moment(a, s.LimitOf(a.card), now, h.readable, h.answer, h.refuses, h.unnoteFails, h.settleFails, h.cardList)
  }

  // ----- reflection

  function OwnedOf(u: P.Uplink, h: Host): set<Mac> {
    if h.readable then u.note else {}
  }

  /** Nothing of ours was out on the wire but what the card did not hold any more. */
  predicate AllAbsent(u: P.Uplink, b: Moment, reflected: set<Mac>) {
    forall m :: m in Ours(u, b, reflected) ==> b.answer(m, false) == O.Absent
  }

  /** Takes what moved out onto the wire back out; says whether the card was asked in earnest. */
  method ReflectPair(s: Syncer, fp: FastPair, b: Moment) returns (urgent: bool)
    requires fp.name in s.uplinks && b.a == fp.a
    modifies s
    ensures s.uplinks == old(s.uplinks)[fp.name := AfterReflection(old(s.uplinks)[fp.name], b, fp.reflected)]
    ensures s.carriedVf == old(s.carriedVf) && s.vfStale == old(s.vfStale) && s.lastPassAt == old(s.lastPassAt)
    ensures !urgent <==> AllAbsent(old(s.uplinks)[fp.name], b, fp.reflected)
  {
    hide TakenBy, LetGoBy, Minus, CarriedBehind, Ours;
    var u := s.uplinks[fp.name];
    var ours := Ours(u, b, fp.reflected);
    if ours == {} {
      assert s.uplinks[fp.name := u] == s.uplinks;
      return false;
    }
    var removed, dropped := s.Retire(fp.name, ours, !b.settleFails, b.answer);
    urgent := removed != {} || dropped != ours;
    var now := s.uplinks[fp.name];
    s.uplinks := s.uplinks[fp.name := now.(ports := Minus(now.ports, ours), carried := CarriedBehind(now.carried, ours, removed))];
    NoneTaken(ours, b.answer);
  }

  lemma NoneTaken(macs: set<Mac>, answer: Kernel)
    ensures TakenBy(macs, answer) == {} && LetGoBy(macs, answer) == macs <==>
            forall m :: m in macs ==> answer(m, false) == O.Absent
  {
    if TakenBy(macs, answer) == {} && LetGoBy(macs, answer) == macs {
      forall m | m in macs
        ensures answer(m, false) == O.Absent
      {
        assert m in LetGoBy(macs, answer) && m !in TakenBy(macs, answer);
      }
    }
  }

  // ----- deciding and committing

  function WireHeld(u: P.Uplink): set<Mac> {
    if u.carried.Some? then u.carried.value.wire else {}
  }

  /** One uplink's candidates, entry by entry; whether any entry was ours. */
  method FastAdd(t: Topology, fp: FastPair, wire: set<Mac>, news: seq<FdbEntry>, phase: Phase)
    returns (learns: seq<Learnt>, ours: bool)
    ensures learns == Candidates(t, fp, wire, news, phase)
    ensures ours <==> exists e :: e in news && Judge(t, fp, wire, e, phase).ours
  {
    hide Judge;
    learns, ours := [], false;
    for k := 0 to |news|
      invariant learns == Candidates(t, fp, wire, news[..k], phase)
      invariant ours <==> exists j :: 0 <= j < k && Judge(t, fp, wire, news[j], phase).ours
    {
      assert news[..k + 1][..k] == news[..k];
      var verdict := Judge(t, fp, wire, news[k], phase);
      ours := ours || verdict.ours;
      if verdict.candidate {
        learns := learns + [(news[k].mac, news[k].ifindex)];
      }
    }
    assert news[..|news|] == news;
  }

  /** Registers one uplink's learns, making room first. */
  method CommitPair(s: Syncer, fp: FastPair, b: Moment, learns: seq<Learnt>)
    requires fp.name in s.uplinks && b.a == fp.a
    modifies s
    ensures s.uplinks == old(s.uplinks)[fp.name := AfterCommit(old(s.uplinks)[fp.name], b, learns)]
    ensures s.carriedVf == old(s.carriedVf) && s.vfStale == old(s.vfStale) && s.lastPassAt == old(s.lastPassAt)
  {
    hide Victims, Stamped, OnCardNow, LetGoBy, AfterShedding, AfterRegistering;
    var u := s.uplinks[fp.name];
    var macs := MacsIn(learns);
    if macs == {} {
      assert s.uplinks[fp.name := u] == s.uplinks;
      return;
    }
    var onCard := OnCardNow(u, b);
    var freed := MakeRoom(s, fp.name, b, learns);
    RegisterLearns(s, fp.name, b, macs, Less(|onCard|, freed));
  }

  /** Surrenders keeps where the batch would not fit; how many slots that really freed. */
  method MakeRoom(s: Syncer, dev: string, b: Moment, learns: seq<Learnt>) returns (freed: nat)
    requires dev in s.uplinks
    modifies s
    ensures var u := old(s.uplinks)[dev];
            var victims := Victims(u, b, learns);
            && s.uplinks == old(s.uplinks)[dev := AfterShedding(u, b, victims, Stamped(u, b, learns))]
            && freed == |LetGoBy(victims, b.answer) * OnCardNow(u, b)|
    ensures s.carriedVf == old(s.carriedVf) && s.vfStale == old(s.vfStale) && s.lastPassAt == old(s.lastPassAt)
  {
    hide Victims, Stamped, OnCardNow, LetGoBy, TakenBy;
    var u := s.uplinks[dev];
    var victims := ChooseVictims(u, b, learns);
    var removed, dropped := s.Retire(dev, victims, !b.settleFails, b.answer);
    var now := s.uplinks[dev];
    var carried := if u.carried.None? then None
                   else Some(u.carried.value.(quiet := u.carried.value.quiet - dropped));
    s.uplinks := s.uplinks[dev := now.(ports := Minus(Stamped(u, b, learns), dropped), carried := carried)];
    freed := |dropped * OnCardNow(u, b)|;
  }

  method RegisterLearns(s: Syncer, dev: string, b: Moment, macs: set<Mac>, left: nat)
    requires dev in s.uplinks
    modifies s
    ensures s.uplinks == old(s.uplinks)[dev := AfterRegistering(old(s.uplinks)[dev], b, macs, left)]
    ensures s.carriedVf == old(s.carriedVf) && s.vfStale == old(s.vfStale) && s.lastPassAt == old(s.lastPassAt)
  {
    hide NoteBehind, PutBy;
    var u := s.uplinks[dev];
    var put := s.RegisterBatch(dev, macs, Takes(b), b.unnoteFails, b.answer);
    var now := s.uplinks[dev];
    var c := if now.carried.Some? then now.carried.value else P.Carried(0, {}, {}, 0);
    s.uplinks := s.uplinks[dev := now.(carried := Some(c.(occupancy := left + |put|)))];
  }

  /** The batch's arm of the valve; without a readable note it picks nobody. */
  method ChooseVictims(u: P.Uplink, b: Moment, learns: seq<Learnt>) returns (victims: set<Mac>)
    ensures victims == Victims(u, b, learns)
  {
    hide Released, LearntOn;
    if !b.readable || u.carried.None? {
      victims := {};
      assert Pool(u, b, learns) == {};
      return;
    }
    var c := u.carried.value;
    var some := LongestQuiet(c.quiet, Stamped(u, b, learns), c.passedAt, Over(u, b, MacsIn(learns)));
    victims := set m | m in some;
  }

  // ----- all pairs of a batch

  ghost predicate NamesFit(s: Syncer, fps: seq<FastPair>)
    reads s
  {
    && (forall k :: 0 <= k < |fps| ==> fps[k].name in s.uplinks)
    && (forall j, k :: 0 <= j < k < |fps| ==> fps[j].name != fps[k].name)
  }

  /** Every uplink that no pair of the batch names is as it was. */
  twostate predicate OthersStand(s: Syncer, fps: seq<FastPair>)
    reads s
  {
    && s.lastPassAt == old(s.lastPassAt) && s.uplinks.Keys == old(s.uplinks).Keys
    && forall dev :: dev in s.uplinks && (forall k :: 0 <= k < |fps| ==> fps[k].name != dev) ==>
         s.uplinks[dev] == old(s.uplinks)[dev]
  }

  method ReflectAll(s: Syncer, fps: seq<FastPair>, now: Stamp, hosts: string -> Host) returns (urgent: bool)
    requires NamesFit(s, fps)
    modifies s
    ensures NamesFit(s, fps) && OthersStand(s, fps)
    ensures s.carriedVf == old(s.carriedVf) && s.vfStale == old(s.vfStale)
    ensures forall k :: 0 <= k < |fps| ==>
              var fp, u := fps[k], old(s.uplinks)[fps[k].name];
              var b := MomentFor(s, fp.a, now, hosts(fp.name));
              s.uplinks[fp.name] == AfterReflection(u, b, fp.reflected)
    ensures !urgent <==> forall k :: 0 <= k < |fps| ==>
              AllAbsent(old(s.uplinks)[fps[k].name], MomentFor(s, fps[k].a, now, hosts(fps[k].name)), fps[k].reflected)
  {
    hide AfterReflection, AllAbsent;
    urgent := false;
    for k := 0 to |fps|
      invariant NamesFit(s, fps) && OthersStand(s, fps)
      invariant s.carriedVf == old(s.carriedVf) && s.vfStale == old(s.vfStale)
      invariant forall j :: k <= j < |fps| ==> s.uplinks[fps[j].name] == old(s.uplinks)[fps[j].name]
      invariant forall j :: 0 <= j < k ==>
                  var fp, u := fps[j], old(s.uplinks)[fps[j].name];
                  var b := MomentFor(s, fp.a, now, hosts(fp.name));
                  s.uplinks[fp.name] == AfterReflection(u, b, fp.reflected)
      invariant !urgent <==> forall j :: 0 <= j < k ==>
                  AllAbsent(old(s.uplinks)[fps[j].name], MomentFor(s, fps[j].a, now, hosts(fps[j].name)), fps[j].reflected)
    {
      assert forall j :: 0 <= j < |fps| && j != k ==> fps[j].name != fps[k].name;
      var one := ReflectPair(s, fps[k], MomentFor(s, fps[k].a, now, hosts(fps[k].name)));
      urgent := urgent || one;
    }
  }

  /** What a carried answer would let in that is not there already: a candidate to vet. */
  ghost predicate WouldGrow(t: Topology, fp: FastPair, u: P.Uplink, h: Host, news: seq<FdbEntry>) {
    exists m :: m in MacsIn(Candidates(t, fp, WireHeld(u), news, Decide)) && !(m in OwnedOf(u, h) && m in u.list)
  }

  /** The function is behind an uplink that would grow. */
  ghost predicate AskedForGrowth(s: Syncer, t: Topology, fps: seq<FastPair>, news: seq<FdbEntry>, hosts: string -> Host, pf: Index)
    reads s
    requires NamesFit(s, fps)
  {
    exists k :: 0 <= k < |fps| && pf in fps[k].a.functions &&
                WouldGrow(t, fps[k], s.uplinks[fps[k].name], hosts(fps[k].name), news)
  }

  /** A list that had to be read back and could not. */
  predicate Unlisted(fps: seq<FastPair>, hosts: string -> Host) {
    exists k :: 0 <= k < |fps| && !hosts(fps[k].name).listed
  }

  /** Whether one uplink would grow; for a candidate its list has to be read back. */
  method DecideOne(s: Syncer, t: Topology, fp: FastPair, news: seq<FdbEntry>, h: Host) returns (ok: bool, grows: bool)
    requires fp.name in s.uplinks
    ensures !ok ==> !h.listed
    ensures ok ==> (grows <==> WouldGrow(t, fp, s.uplinks[fp.name], h, news))
  {
    hide Candidates;
    var u := s.uplinks[fp.name];
    var learns, _ := FastAdd(t, fp, WireHeld(u), news, Decide);
    ok := learns == [] || h.listed;
    grows := exists m :: m in MacsIn(learns) && !(m in OwnedOf(u, h) && m in u.list);
  }

  /**
   * Decides with the carried answer: whether anything would grow, and whose functions to ask. A
   * list that cannot be read back where there is a candidate ends it.
   */
  method DecideAll(s: Syncer, t: Topology, fps: seq<FastPair>, news: seq<FdbEntry>, hosts: string -> Host)
    returns (ok: bool, any: bool, ask: set<Index>)
    requires NamesFit(s, fps)
    ensures !ok ==> Unlisted(fps, hosts)
    ensures ok ==>
              forall k :: 0 <= k < |fps| && WouldGrow(t, fps[k], s.uplinks[fps[k].name], hosts(fps[k].name), news) ==>
                any && fps[k].a.functions <= ask
    ensures any ==> exists k :: 0 <= k < |fps| && WouldGrow(t, fps[k], s.uplinks[fps[k].name], hosts(fps[k].name), news)
    ensures forall pf :: pf in ask ==> AskedForGrowth(s, t, fps, news, hosts, pf)
  {
    hide WouldGrow;
    any, ask := false, {};
    for k := 0 to |fps|
      invariant forall j :: 0 <= j < k && WouldGrow(t, fps[j], s.uplinks[fps[j].name], hosts(fps[j].name), news) ==>
                  any && fps[j].a.functions <= ask
      invariant any ==>
                  exists j :: 0 <= j < k && WouldGrow(t, fps[j], s.uplinks[fps[j].name], hosts(fps[j].name), news)
      invariant forall pf :: pf in ask ==> AskedForGrowth(s, t, fps, news, hosts, pf)
    {
      var grows;
      ok, grows := DecideOne(s, t, fps[k], news, hosts(fps[k].name));
      if !ok {
        return;
      }
      if grows {
        any, ask := true, ask + fps[k].a.functions;
      }
    }
    ok := true;
  }

  /** The exclusions built again from a fresh answer. */
  method Refresh(s: Syncer, t: Topology, fps: seq<FastPair>, vf: VfAnswer) returns (again: seq<FastPair>)
    ensures |again| == |fps|
    ensures forall k :: 0 <= k < |fps| ==> again[k] == fps[k].(skip := Exclusions(s.cfg, t, fps[k].a, vf))
  {
    hide Exclusions;
    again := [];
    for k := 0 to |fps|
      invariant |again| == k
      invariant forall j :: 0 <= j < k ==> again[j] == fps[j].(skip := Exclusions(s.cfg, t, fps[j].a, vf))
    {
      var skip := ExclusionsOf(s.cfg, t, fps[k].a, vf);
      again := again + [fps[k].(skip := skip)];
    }
  }

  /** What one uplink commits. */
  ghost function Commits(t: Topology, fp: FastPair, u: P.Uplink, news: seq<FdbEntry>): seq<Learnt> {
    Candidates(t, fp, WireHeld(u), news, Commit)
  }

  predicate NoneOurs(t: Topology, fp: FastPair, u: P.Uplink, news: seq<FdbEntry>) {
    forall e :: e in news ==> !Judge(t, fp, WireHeld(u), e, Commit).ours
  }

  /** An uplink once its share of the batch is in. */
  ghost function Committed(s: Syncer, t: Topology, fp: FastPair, u: P.Uplink, news: seq<FdbEntry>, now: Stamp, h: Host): P.Uplink {
    AfterCommit(u, MomentFor(s, fp.a, now, h), Commits(t, fp, u, news))
  }

  /** An uplink the batch has committed, not come to, or stopped at. */
  ghost predicate CommitState(s: Syncer, t: Topology, fp: FastPair, u: P.Uplink, u': P.Uplink, news: seq<FdbEntry>,
                              now: Stamp, h: Host) {
    var b, learns := MomentFor(s, fp.a, now, h), Commits(t, fp, u, news);
    u' == u || u' == AfterStamping(u, b, learns) || u' == Committed(s, t, fp, u, news, now, h)
  }

  /** One uplink of the batch: its learns, if there are any, on the list read back. */
  method CommitOne(s: Syncer, t: Topology, fp: FastPair, news: seq<FdbEntry>, now: Stamp, h: Host) returns (ok: bool, ours: bool)
    requires fp.name in s.uplinks
    modifies s
    ensures var u, b := old(s.uplinks)[fp.name], MomentFor(s, fp.a, now, h);
            var learns := Commits(t, fp, u, news);
            s.uplinks ==
            old(s.uplinks)[fp.name := if ok then Committed(s, t, fp, u, news, now, h) else AfterStamping(u, b, learns)]
    ensures s.carriedVf == old(s.carriedVf) && s.vfStale == old(s.vfStale) && s.lastPassAt == old(s.lastPassAt)
    ensures !ok ==> !h.listed
    ensures !ours <==> NoneOurs(t, fp, old(s.uplinks)[fp.name], news)
  {
    hide AfterCommit, Candidates, Judge, Stamped;
    var learns;
    learns, ours := FastAdd(t, fp, WireHeld(s.uplinks[fp.name]), news, Commit);
    var b := MomentFor(s, fp.a, now, h);
    ok := learns == [] || h.listed;
    if ok {
      CommitPair(s, fp, b, learns);
    } else {
      s.uplinks := s.uplinks[fp.name := AfterStamping(s.uplinks[fp.name], b, learns)];
    }
  }

  method CommitAll(s: Syncer, t: Topology, fps: seq<FastPair>, news: seq<FdbEntry>, now: Stamp, hosts: string -> Host)
    returns (ok: bool, ours: bool)
    requires NamesFit(s, fps)
    modifies s
    ensures NamesFit(s, fps) && OthersStand(s, fps)
    ensures s.carriedVf == old(s.carriedVf) && s.vfStale == old(s.vfStale)
    ensures !ok ==> Unlisted(fps, hosts)
    ensures forall k :: 0 <= k < |fps| ==>
              CommitState(s, t, fps[k], old(s.uplinks)[fps[k].name], s.uplinks[fps[k].name], news, now, hosts(fps[k].name))
    ensures ok ==> forall k :: 0 <= k < |fps| ==>
              s.uplinks[fps[k].name] ==
              Committed(s, t, fps[k], old(s.uplinks)[fps[k].name], news, now, hosts(fps[k].name))
    ensures ok ==> (!ours <==> forall k :: 0 <= k < |fps| ==> NoneOurs(t, fps[k], old(s.uplinks)[fps[k].name], news))
  {
    hide Committed, AfterStamping, Commits, NoneOurs, MomentFor;
    ours := false;
    for k := 0 to |fps|
      invariant NamesFit(s, fps) && OthersStand(s, fps)
      invariant s.carriedVf == old(s.carriedVf) && s.vfStale == old(s.vfStale)
      invariant forall j :: k <= j < |fps| ==> s.uplinks[fps[j].name] == old(s.uplinks)[fps[j].name]
      invariant forall j :: 0 <= j < k ==>
                  s.uplinks[fps[j].name] ==
                  Committed(s, t, fps[j], old(s.uplinks)[fps[j].name], news, now, hosts(fps[j].name))
      invariant !ours <==> forall j :: 0 <= j < k ==> NoneOurs(t, fps[j], old(s.uplinks)[fps[j].name], news)
    {
      assert forall j :: 0 <= j < |fps| && j != k ==> fps[j].name != fps[k].name;
      var some;
      ok, some := CommitOne(s, t, fps[k], news, now, hosts(fps[k].name));
      if !ok {
        return;
      }
      ours := ours || some;
    }
    ok := true;
  }

  // ----- the whole answer

  /** The answer the batch ended with agrees with what the driver said about those asked for. */
  predicate AgreesWith(vf: VfAnswer, says: Driver, asked: set<Index>) {
    && CanAnswer(says, asked)
    && forall p :: p in vf && p.0 in asked ==> p.1 in says(p.0).value
  }

  ghost predicate SaysAll(vf: VfAnswer, says: Driver, asked: set<Index>) {
    AgreesWith(vf, says, asked) && forall pf, m :: pf in asked && m in says(pf).value ==> (pf, m) in vf
  }

  /** The pair as a batch judges it by this answer. */
  ghost predicate IsFast(s: Syncer, p: Pair, fp: FastPair, t: Topology, news: seq<FdbEntry>, vf: VfAnswer) {
    && fp.name == p.dev && Resolved(t, p) == Some(fp.a) && fp.reach == t.ReachOf(fp.a.bridge)
    && fp.skip == Exclusions(s.cfg, t, fp.a, vf) && fp.reflected == ReflectedBy(fp.a, news)
  }

  /** How a batch answers one pair. */
  ghost predicate PairAnswered(s: Syncer, p: Pair, fp: FastPair, u: P.Uplink, u': P.Uplink, t: Topology,
                               events: seq<Notice>, now: Stamp, h: Host, vf: VfAnswer, asked: set<Index>) {
    var news := NewOnes(events);
    var b := MomentFor(s, fp.a, now, h);
    var u1 := AfterReflection(Dated(u, t, p, DelOnes(events), now), b, fp.reflected);
    && IsFast(s, p, fp, t, news, vf)
    && u' == AfterCommit(u1, b, Commits(t, fp, u1, news))
       // what was not there already is judged by an answer of this very call
    && (forall m :: m in MacsIn(Commits(t, fp, u1, news)) && !(m in OwnedOf(u1, h) && m in u1.list) ==>
          fp.a.functions <= asked)
  }

  /** The batch has been answered for every pair that is up in this reading. */
  ghost predicate AllAnswered(s: Syncer, was: map<string, P.Uplink>, t: Topology, fps: seq<FastPair>, of: seq<Pair>,
                              events: seq<Notice>, now: Stamp, hosts: string -> Host, vf: VfAnswer, asked: set<Index>)
    reads s
  {
    && |of| == |fps| && (forall p :: p in s.pairs && Resolved(t, p).Some? ==> p in of)
    && forall k :: 0 <= k < |of| ==>
         && of[k] in s.pairs && of[k].dev in was && of[k].dev in s.uplinks
         && PairAnswered(s, of[k], fps[k], was[of[k].dev], s.uplinks[of[k].dev], t, events, now, hosts(of[k].dev), vf, asked)
  }

  /** The driver's answer for this batch: carried where it fits, else asked for now. */
  method Consult(s: Syncer, t: Topology, says: Driver) returns (ok: bool, carried: bool, vf: VfAnswer, ghost asked: set<Index>)
    modifies s
    ensures s.uplinks == old(s.uplinks) && s.lastPassAt == old(s.lastPassAt)
    ensures ok ==> SaysAll(vf, says, asked) && s.carriedVf == Some((LivePfs(t, s.Devices()), vf)) && !s.vfStale
    ensures !ok ==> s.CarriedVfFor(LivePfs(t, s.Devices())) == None
    ensures carried ==> asked == {}
    ensures ok && !carried ==> asked == LivePfs(t, s.Devices())
  {
    hide LivePfs, CanAnswer, Answers, SaysAll;
    var pfs := LivePfsOf(t, s.Devices());
    var kept := s.CarriedVfFor(pfs);
    if kept.Some? {
      NothingAsked(kept.value, says);
      return true, true, kept.value, {};
    }
    if !CanAnswer(says, pfs) {
      return false, false, {}, {};
    }
    FreshAnswer(says, pfs);
    s.RememberVf(pfs, Answers(says, pfs));
    return true, false, Answers(says, pfs), pfs;
  }

  /** Where the carried answer would let something in, the driver is asked again, for those pairs alone. */
  method Vet(s: Syncer, t: Topology, fps: seq<FastPair>, news: seq<FdbEntry>, carriedVf: VfAnswer, says: Driver,
             hosts: string -> Host)
    returns (ok: bool, vf: VfAnswer, ghost asked: set<Index>)
    requires NamesFit(s, fps)
    requires s.carriedVf == Some((LivePfs(t, s.Devices()), carriedVf)) && !s.vfStale
    modifies s
    ensures s.uplinks == old(s.uplinks) && s.lastPassAt == old(s.lastPassAt)
    ensures !ok ==> vf == {} && asked == {} && (s.vfStale || Unlisted(fps, hosts))
    ensures ok ==> SaysAll(vf, says, asked) && s.carriedVf == Some((LivePfs(t, s.Devices()), vf)) && !s.vfStale
    ensures ok ==> forall p :: p in carriedVf && p.0 !in asked ==> p in vf
    ensures ok ==> forall k :: 0 <= k < |fps| && WouldGrow(t, fps[k], s.uplinks[fps[k].name], hosts(fps[k].name), news) ==>
              fps[k].a.functions <= asked
    ensures ok ==> forall pf :: pf in asked ==> AskedForGrowth(s, t, fps, news, hosts, pf)
    ensures s.vfStale ==> exists k ::
              0 <= k < |fps| && WouldGrow(t, fps[k], s.uplinks[fps[k].name], hosts(fps[k].name), news)
  {
    hide LivePfs, CanAnswer, Answers, SaysAll, WouldGrow;
    NothingAsked(carriedVf, says);
    var decided, any, ask := DecideAll(s, t, fps, news, hosts);
    if !decided {
      return false, {}, {};
    }
    if !any {
      return true, carriedVf, {};
    }
    s.vfStale := true;
    if !CanAnswer(says, ask) {
      return false, {}, {};
    }
    var pfs := LivePfsOf(t, s.Devices());
    var rest := set p | p in carriedVf && p.0 !in ask;
    MergedAnswer(carriedVf, says, ask);
    s.RememberVf(pfs, rest + Answers(says, ask));
    return true, rest + Answers(says, ask), ask;
  }

  /** The three things a pair goes through in a batch, one after the other. */
  ghost predicate Steps(s: Syncer, fp: FastPair, again: FastPair, dated: P.Uplink, reflected: P.Uplink, end: P.Uplink,
                        t: Topology, news: seq<FdbEntry>, now: Stamp, h: Host) {
    var b := MomentFor(s, fp.a, now, h);
    && reflected == AfterReflection(dated, b, fp.reflected)
    && end == AfterCommit(reflected, b, Commits(t, again, reflected, news))
  }

  /** A pair of a batch that was cut short: reflected, stamped, or answered in full by the answer it had. */
  ghost predicate Halfway(s: Syncer, fp: FastPair, again: FastPair, dated: P.Uplink, reflected: P.Uplink, end: P.Uplink,
                          t: Topology, news: seq<FdbEntry>, now: Stamp, h: Host, carried: bool, vf: VfAnswer, asked: set<Index>) {
    var b := MomentFor(s, fp.a, now, h);
    && reflected == AfterReflection(dated, b, fp.reflected)
    && (|| end == reflected
        || (&& end == AfterStamping(reflected, b, Commits(t, again, reflected, news))
            && again == fp.(skip := Exclusions(s.cfg, t, fp.a, vf)))
        || (&& Steps(s, fp, again, dated, reflected, end, t, news, now, h)
            && again == fp.(skip := Exclusions(s.cfg, t, fp.a, vf))
            && (carried && WouldGrow(t, fp, reflected, h, news) ==> fp.a.functions <= asked)))
  }

  /** Nothing of ours went out and no entry of the batch was ours. */
  ghost predicate Quiet(s: Syncer, fp: FastPair, again: FastPair, dated: P.Uplink, reflected: P.Uplink,
                        t: Topology, news: seq<FdbEntry>, now: Stamp, h: Host) {
    AllAbsent(dated, MomentFor(s, fp.a, now, h), fp.reflected) && NoneOurs(t, again, reflected, news)
  }

  ghost predicate AllQuiet(s: Syncer, fps: seq<FastPair>, again: seq<FastPair>, dated: map<string, P.Uplink>,
                           reflected: map<string, P.Uplink>, t: Topology, news: seq<FdbEntry>, now: Stamp, hosts: string -> Host)
    requires |again| == |fps| && forall k :: 0 <= k < |fps| ==> fps[k].name in dated && fps[k].name in reflected
  {
    forall k :: 0 <= k < |fps| ==>
      Quiet(s, fps[k], again[k], dated[fps[k].name], reflected[fps[k].name], t, news, now, hosts(fps[k].name))
  }

  /** The answer of every uplink of the batch, from the state the silence was dated in. */
  method Apply(s: Syncer, t: Topology, fps: seq<FastPair>, news: seq<FdbEntry>, now: Stamp, carried: bool, answer: VfAnswer,
               ghost before: set<Index>, says: Driver, hosts: string -> Host)
    returns (ok: bool, urgency: bool, again: seq<FastPair>, vf: VfAnswer, ghost asked: set<Index>,
             ghost reflected: map<string, P.Uplink>)
    requires NamesFit(s, fps)
    requires s.carriedVf == Some((LivePfs(t, s.Devices()), answer)) && !s.vfStale && SaysAll(answer, says, before)
    modifies s
    ensures NamesFit(s, fps) && OthersStand(s, fps)
    ensures forall k :: 0 <= k < |fps| ==> fps[k].name in reflected
    ensures ok ==> SaysAll(vf, says, asked) && s.carriedVf == Some((LivePfs(t, s.Devices()), vf)) && !s.vfStale
    ensures ok ==> |again| == |fps| && (forall k :: 0 <= k < |fps| ==> again[k] == fps[k].(skip := Exclusions(s.cfg, t, fps[k].a, vf)))
    ensures ok ==> forall k :: 0 <= k < |fps| ==>
              Steps(s, fps[k], again[k], old(s.uplinks)[fps[k].name], reflected[fps[k].name], s.uplinks[fps[k].name],
                    t, news, now, hosts(fps[k].name))
    ensures ok ==> |again| == |fps| && (!urgency <==> AllQuiet(s, fps, again, old(s.uplinks), reflected, t, news, now, hosts))
    ensures !carried ==> vf == answer && asked == before
    ensures !ok ==> SaysAll(vf, says, asked) && (s.vfStale || Unlisted(fps, hosts))
    ensures !ok ==> |again| == |fps| && forall k :: 0 <= k < |fps| ==>
              Halfway(s, fps[k], again[k], old(s.uplinks)[fps[k].name], reflected[fps[k].name], s.uplinks[fps[k].name],
                      t, news, now, hosts(fps[k].name), carried, vf, asked)
    ensures ok && carried ==>
              forall k :: 0 <= k < |fps| && WouldGrow(t, fps[k], reflected[fps[k].name], hosts(fps[k].name), news) ==>
                fps[k].a.functions <= asked
  {
    hide LivePfs, SaysAll, WouldGrow, Exclusions, AllAbsent, NoneOurs, AfterReflection, AfterCommit, Commits, MomentFor,
         AfterStamping, Halfway, Steps, Quiet, AllQuiet, Committed, CommitState, Unlisted;
    ok, urgency, again, vf, asked := true, false, fps, answer, before;
    var urgent := ReflectAll(s, fps, now, hosts);
    reflected := s.uplinks;
    if carried {
      ok, vf, asked := Vet(s, t, fps, news, answer, says, hosts);
      if !ok {
        NothingAsked({}, says);
        NotBegun(s, fps, old(s.uplinks), reflected, t, news, now, hosts, carried, vf, asked);
        return;
      }
    }
    ok, urgency, again := Finish(s, t, fps, news, now, carried, vf, hosts, urgent, old(s.uplinks), asked);
  }

  /** The second half of it, on the answer that stands: exclusions, commits, and what they come to. */
  method Finish(s: Syncer, t: Topology, fps: seq<FastPair>, news: seq<FdbEntry>, now: Stamp, carried: bool, vf: VfAnswer,
                hosts: string -> Host, urgent: bool, ghost dated: map<string, P.Uplink>, ghost asked: set<Index>)
    returns (ok: bool, urgency: bool, again: seq<FastPair>)
    requires NamesFit(s, fps) && AllReflected(s, fps, dated, s.uplinks, now, hosts)
    requires !urgent <==> forall k :: 0 <= k < |fps| ==>
               AllAbsent(dated[fps[k].name], MomentFor(s, fps[k].a, now, hosts(fps[k].name)), fps[k].reflected)
    requires carried ==>
               forall k :: 0 <= k < |fps| && WouldGrow(t, fps[k], s.uplinks[fps[k].name], hosts(fps[k].name), news) ==>
                 fps[k].a.functions <= asked
    modifies s
    ensures NamesFit(s, fps) && OthersStand(s, fps)
    ensures s.carriedVf == old(s.carriedVf) && s.vfStale == old(s.vfStale)
    ensures |again| == |fps| && (!ok ==> Unlisted(fps, hosts))
    ensures forall k :: 0 <= k < |fps| ==> again[k] == fps[k].(skip := Exclusions(s.cfg, t, fps[k].a, vf))
    ensures ok ==> forall k :: 0 <= k < |fps| ==>
              Steps(s, fps[k], again[k], dated[fps[k].name], old(s.uplinks)[fps[k].name], s.uplinks[fps[k].name],
                    t, news, now, hosts(fps[k].name))
    ensures ok ==> (!urgency <==> AllQuiet(s, fps, again, dated, old(s.uplinks), t, news, now, hosts))
    ensures !ok ==> forall k :: 0 <= k < |fps| ==>
              Halfway(s, fps[k], again[k], dated[fps[k].name], old(s.uplinks)[fps[k].name], s.uplinks[fps[k].name],
                      t, news, now, hosts(fps[k].name), carried, vf, asked)
  {
    hide WouldGrow, Exclusions, AllAbsent, NoneOurs, MomentFor, Halfway, Steps, Quiet, AllQuiet, Committed, CommitState,
         Unlisted, AllReflected;
    ghost var reflected := s.uplinks;
    again := Refresh(s, t, fps, vf);
    RefreshedNames(s, fps, again, hosts);
    var ours;
    ok, ours := CommitAll(s, t, again, news, now, hosts);
    urgency := urgent || ours;
    if ok {
      StepsTogether(s, fps, again, dated, reflected, t, news, now, hosts);
      QuietMeans(s, fps, again, dated, reflected, t, news, now, hosts);
    } else {
      HalfwayTogether(s, fps, again, dated, reflected, t, news, now, hosts, carried, vf, asked);
    }
  }

  /** A refreshed pair keeps everything but its exclusions. */
  ghost predicate Refreshed(fps: seq<FastPair>, again: seq<FastPair>) {
    |again| == |fps| && forall k :: 0 <= k < |fps| ==> again[k] == fps[k].(skip := again[k].skip)
  }

  lemma RefreshedNames(s: Syncer, fps: seq<FastPair>, again: seq<FastPair>, hosts: string -> Host)
    requires NamesFit(s, fps) && Refreshed(fps, again)
    ensures NamesFit(s, again)
    ensures Unlisted(again, hosts) <==> Unlisted(fps, hosts)
    ensures forall k :: 0 <= k < |fps| ==> again[k].name == fps[k].name && again[k].a == fps[k].a
  {
    if Unlisted(again, hosts) {
      var k :| 0 <= k < |again| && !hosts(again[k].name).listed;
      assert !hosts(fps[k].name).listed;
    }
    if Unlisted(fps, hosts) {
      var k :| 0 <= k < |fps| && !hosts(fps[k].name).listed;
      assert !hosts(again[k].name).listed;
    }
  }

  ghost predicate AllReflected(s: Syncer, fps: seq<FastPair>, dated: map<string, P.Uplink>, reflected: map<string, P.Uplink>,
                               now: Stamp, hosts: string -> Host) {
    forall k :: 0 <= k < |fps| ==>
      && fps[k].name in dated && fps[k].name in reflected
      && reflected[fps[k].name] ==
         AfterReflection(dated[fps[k].name], MomentFor(s, fps[k].a, now, hosts(fps[k].name)), fps[k].reflected)
  }

  lemma NotBegun(s: Syncer, fps: seq<FastPair>, dated: map<string, P.Uplink>, reflected: map<string, P.Uplink>,
                 t: Topology, news: seq<FdbEntry>, now: Stamp, hosts: string -> Host, carried: bool, vf: VfAnswer,
                 asked: set<Index>)
    requires AllReflected(s, fps, dated, reflected, now, hosts) && reflected == s.uplinks
    ensures forall k :: 0 <= k < |fps| ==>
              Halfway(s, fps[k], fps[k], dated[fps[k].name], reflected[fps[k].name], s.uplinks[fps[k].name],
                      t, news, now, hosts(fps[k].name), carried, vf, asked)
  {
    hide AfterReflection, MomentFor, AfterStamping, Steps;
  }

  lemma StepsTogether(s: Syncer, fps: seq<FastPair>, again: seq<FastPair>, dated: map<string, P.Uplink>,
                      reflected: map<string, P.Uplink>, t: Topology, news: seq<FdbEntry>, now: Stamp, hosts: string -> Host)
    requires AllReflected(s, fps, dated, reflected, now, hosts) && Refreshed(fps, again)
    requires forall k :: 0 <= k < |again| ==> again[k].name in s.uplinks && again[k].name in reflected
    requires forall k :: 0 <= k < |again| ==>
               s.uplinks[again[k].name] ==
               Committed(s, t, again[k], reflected[again[k].name], news, now, hosts(again[k].name))
    ensures forall k :: 0 <= k < |fps| ==> fps[k].name in s.uplinks
    ensures forall k :: 0 <= k < |fps| ==>
              Steps(s, fps[k], again[k], dated[fps[k].name], reflected[fps[k].name], s.uplinks[fps[k].name],
                    t, news, now, hosts(fps[k].name))
  {
    hide AfterReflection, MomentFor, AfterCommit, Commits;
    forall k | 0 <= k < |fps|
      ensures again[k].name == fps[k].name && again[k].a == fps[k].a
    {
    }
  }

  lemma QuietMeans(s: Syncer, fps: seq<FastPair>, again: seq<FastPair>, dated: map<string, P.Uplink>,
                   reflected: map<string, P.Uplink>, t: Topology, news: seq<FdbEntry>, now: Stamp, hosts: string -> Host)
    requires AllReflected(s, fps, dated, reflected, now, hosts) && Refreshed(fps, again)
    ensures AllQuiet(s, fps, again, dated, reflected, t, news, now, hosts) <==>
            && (forall k :: 0 <= k < |fps| ==>
                  AllAbsent(dated[fps[k].name], MomentFor(s, fps[k].a, now, hosts(fps[k].name)), fps[k].reflected))
            && (forall k :: 0 <= k < |again| ==>
                  again[k].name in reflected && NoneOurs(t, again[k], reflected[again[k].name], news))
  {
    hide AllAbsent, NoneOurs, MomentFor, AfterReflection;
    forall k | 0 <= k < |fps|
      ensures again[k].name == fps[k].name
    {
    }
    if AllQuiet(s, fps, again, dated, reflected, t, news, now, hosts) {
      forall k | 0 <= k < |again|
        ensures again[k].name in reflected && NoneOurs(t, again[k], reflected[again[k].name], news)
      {
        assert Quiet(s, fps[k], again[k], dated[fps[k].name], reflected[fps[k].name], t, news, now, hosts(fps[k].name));
      }
    }
  }

  lemma HalfwayTogether(s: Syncer, fps: seq<FastPair>, again: seq<FastPair>, dated: map<string, P.Uplink>,
                        reflected: map<string, P.Uplink>, t: Topology, news: seq<FdbEntry>, now: Stamp,
                        hosts: string -> Host, carried: bool, vf: VfAnswer, asked: set<Index>)
    requires AllReflected(s, fps, dated, reflected, now, hosts) && |again| == |fps|
    requires forall k :: 0 <= k < |fps| ==> again[k] == fps[k].(skip := Exclusions(s.cfg, t, fps[k].a, vf))
    requires forall k :: 0 <= k < |again| ==> again[k].name in s.uplinks && again[k].name in reflected
    requires forall k :: 0 <= k < |again| ==>
               CommitState(s, t, again[k], reflected[again[k].name], s.uplinks[again[k].name], news, now, hosts(again[k].name))
    requires carried ==>
               forall k :: 0 <= k < |fps| && WouldGrow(t, fps[k], reflected[fps[k].name], hosts(fps[k].name), news) ==>
                 fps[k].a.functions <= asked
    ensures forall k :: 0 <= k < |fps| ==> fps[k].name in s.uplinks
    ensures forall k :: 0 <= k < |fps| ==>
              Halfway(s, fps[k], again[k], dated[fps[k].name], reflected[fps[k].name], s.uplinks[fps[k].name],
                      t, news, now, hosts(fps[k].name), carried, vf, asked)
  {
    hide AfterReflection, MomentFor, AfterCommit, Commits, AfterStamping, Exclusions, WouldGrow;
    forall k | 0 <= k < |fps|
      ensures again[k].name == fps[k].name && again[k].a == fps[k].a
    {
    }
  }

  /**
   * A batch answered before the pass that follows. Decided on a carried driver answer where
   * there is one, and then, before anything grows, on a fresh one. Answered as nothing, it held
   * no deletion and concerned no pair.
   */
  method FastApply(s: Syncer, t: Topology, events: seq<Notice>, now: Stamp, says: Driver, hosts: string -> Host)
    returns (ok: bool, urgency: Urgency, ghost fps: seq<FastPair>, ghost of: seq<Pair>, ghost vf: VfAnswer, ghost asked: set<Index>)
    requires s.Valid()
    modifies s
    ensures s.Valid() && s.lastPassAt == old(s.lastPassAt)
    ensures ok && NewOnes(events) != [] ==>
              && SaysAll(vf, says, asked)
              && AllAnswered(s, old(s.uplinks), t, fps, of, events, now, hosts, vf, asked)
              && s.carriedVf == Some((LivePfs(t, s.Devices()), vf)) && !s.vfStale
              && urgency == (if !NobodyConcerned(s, old(s.uplinks), t, fps, of, events, now, hosts) then Now
                             else if DelOnes(events) == [] then Nothing else WhenConvenient)
    ensures ok && NewOnes(events) != [] ==>
              forall p :: p in s.pairs && Resolved(t, p).None? ==>
                s.uplinks[p.dev] == Dated(old(s.uplinks)[p.dev], t, p, DelOnes(events), now)
    ensures s.uplinks.Keys == old(s.uplinks).Keys
    ensures forall dev :: dev in s.uplinks && (forall p :: p in s.pairs ==> p.dev != dev) ==>
              s.uplinks[dev] == old(s.uplinks)[dev]
    ensures !ok ==>
              || s.CarriedVfFor(LivePfs(t, s.Devices())) == None
              || exists p :: p in s.pairs && !hosts(p.dev).listed
    ensures !ok ==> SaysAll(vf, says, asked)
    ensures !ok ==> forall p :: p in s.pairs ==>
              PairHalted(s, p, old(s.uplinks)[p.dev], s.uplinks[p.dev], t, events, now, hosts(p.dev), vf, asked)
    ensures ok && NewOnes(events) == [] ==>
              && OnlyUplinks(s) && urgency == (if events == [] then Nothing else WhenConvenient)
              && forall p :: p in s.pairs ==> s.uplinks[p.dev] == Dated(old(s.uplinks)[p.dev], t, p, DelOnes(events), now)
    ensures ok && urgency == Nothing ==> DelOnes(events) == [] && AllNobodys(s, t, fps, NewOnes(events), hosts)
  {
    hide LivePfs, SaysAll, AllAnswered, AllNobodys, NobodyConcerned, Dated, Steps, AllQuiet, WouldGrow, Exclusions,
         AreFast, Resolved, AfterReflection, MomentFor, PairHalted, Halfway;
    fps, of, vf, asked, ok, urgency := [], [], {}, {}, true, Nothing;
    NothingAsked({}, says);
    NoticesAreNewOrDel(events);
    if events == [] {
      NothingDated(s, t, now);
      NobodysAtAll(s, t, hosts);
      return;
    }
    var news := NewOnes(events);
    DateSilence(s, t, events, now);
    if exists e :: e in events && e.Del? {
      urgency := WhenConvenient;
    }
    if news == [] {
      return;
    }
    var carried, answer;
    ok, carried, answer, asked := Consult(s, t, says);
    if !ok {
      asked := {};
      OnlyDated(s, old(s.uplinks), t, events, now, hosts, vf, asked);
      return;
    }
    ghost var dated, before := s.uplinks, asked;
    var some, whose := BuildFast(s, t, answer, carried, news);
    FastFits(s, t, some, whose, answer, carried, news);
    var urgent, again, newest;
    ghost var reflected;
    ok, urgent, again, newest, asked, reflected := Apply(s, t, some, news, now, carried, answer, before, says, hosts);
    if urgent {
      urgency := Now;
    }
    Bystanders(s, dated, t, some, whose, answer, carried, news);
    if !ok {
      vf := newest;
      HaltedTogether(s, old(s.uplinks), dated, reflected, t, some, again, whose, answer, carried, events, now, hosts, vf, asked);
      return;
    }
    fps, of, vf := again, whose, newest;
    Together(s, old(s.uplinks), dated, reflected, t, some, fps, of, events, now, hosts, carried, answer, vf, asked);
    QuietTogether(s, old(s.uplinks), dated, reflected, t, some, fps, of, answer, carried, events, now, hosts, vf);
    if !urgent {
      NobodysTogether(s, dated, reflected, t, some, fps, of, answer, carried, news, now, hosts, vf);
    }
  }

  /** Nothing of the batch is any pair's business: what the pass would see differ, it does not act on. */
  ghost predicate AllNobodys(s: Syncer, t: Topology, fps: seq<FastPair>, news: seq<FdbEntry>, hosts: string -> Host)
    reads s
  {
    forall k :: 0 <= k < |fps| && hosts(fps[k].name).readable && !hosts(fps[k].name).settleFails ==>
      && fps[k].name in s.uplinks
      && IsNobodys(t, fps[k], WireHeld(s.uplinks[fps[k].name]), news, s.uplinks[fps[k].name].note)
  }

  /**
   * Cut short by a driver that did not answer or a list that could not be read back: dated, what
   * was out on the wire taken out, stamped at most, or else answered in full, vetted like any.
   */
  ghost predicate PairHalted(s: Syncer, p: Pair, u: P.Uplink, u': P.Uplink, t: Topology, events: seq<Notice>, now: Stamp,
                             h: Host, vf: VfAnswer, asked: set<Index>) {
    var dated := Dated(u, t, p, DelOnes(events), now);
    || u' == dated
    || (Resolved(t, p).Some? && ReflectedAtMost(s, p, Resolved(t, p).value, dated, u', t, events, now, h, vf))
    || exists fp :: PairAnswered(s, p, fp, u, u', t, events, now, h, vf, asked)
  }

  ghost predicate ReflectedAtMost(s: Syncer, p: Pair, a: Anatomy, dated: P.Uplink, u': P.Uplink, t: Topology,
                                  events: seq<Notice>, now: Stamp, h: Host, vf: VfAnswer) {
    var b, news := MomentFor(s, a, now, h), NewOnes(events);
    var reflected := AfterReflection(dated, b, ReflectedBy(a, news));
    || u' == reflected
    || exists fp :: IsFast(s, p, fp, t, news, vf) && u' == AfterStamping(reflected, b, Commits(t, fp, reflected, news))
  }

  /** A pair that is away in this reading stands as it was dated. */
  lemma Bystanders(s: Syncer, dated: map<string, P.Uplink>, t: Topology, some: seq<FastPair>, of: seq<Pair>,
                   answer: VfAnswer, carried: bool, news: seq<FdbEntry>)
    requires s.Valid() && AreFast(s, t, some, of, answer, carried, news) && s.uplinks.Keys == dated.Keys
    requires forall dev :: dev in s.uplinks && (forall k :: 0 <= k < |some| ==> some[k].name != dev) ==>
               s.uplinks[dev] == dated[dev]
    ensures forall p :: p in s.pairs && Resolved(t, p).None? ==> s.uplinks[p.dev] == dated[p.dev]
    ensures forall dev :: dev in s.uplinks && (forall p :: p in s.pairs ==> p.dev != dev) ==> s.uplinks[dev] == dated[dev]
  {
    hide Resolved, FastOf;
    forall k | 0 <= k < |some|
      ensures some[k].name == of[k].dev
    {
      FastMeans(s, t, of[k], answer, carried, news);
    }
    forall p | p in s.pairs && Resolved(t, p).None?
      ensures s.uplinks[p.dev] == dated[p.dev]
    {
      forall k | 0 <= k < |some|
        ensures some[k].name != p.dev
      {
        assert of[k] != p;
      }
    }
  }

  lemma HaltedTogether(s: Syncer, was: map<string, P.Uplink>, dated: map<string, P.Uplink>, reflected: map<string, P.Uplink>,
                       t: Topology, some: seq<FastPair>, again: seq<FastPair>, of: seq<Pair>, answer: VfAnswer, carried: bool,
                       events: seq<Notice>, now: Stamp, hosts: string -> Host, vf: VfAnswer, asked: set<Index>)
    requires s.Valid() && AreFast(s, t, some, of, answer, carried, NewOnes(events)) && |again| == |some|
    requires forall p :: p in s.pairs ==>
               p.dev in was && p.dev in dated && dated[p.dev] == Dated(was[p.dev], t, p, DelOnes(events), now)
    requires forall p :: p in s.pairs && Resolved(t, p).None? ==> s.uplinks[p.dev] == dated[p.dev]
    requires forall k :: 0 <= k < |some| ==> some[k].name in s.uplinks && some[k].name in dated && some[k].name in reflected
    requires forall k :: 0 <= k < |some| ==>
               Halfway(s, some[k], again[k], dated[some[k].name], reflected[some[k].name], s.uplinks[some[k].name],
                       t, NewOnes(events), now, hosts(some[k].name), carried, vf, asked)
    requires !carried ==> vf == answer && asked == LivePfs(t, s.Devices())
    ensures forall p :: p in s.pairs ==>
              PairHalted(s, p, was[p.dev], s.uplinks[p.dev], t, events, now, hosts(p.dev), vf, asked)
    ensures Unlisted(some, hosts) ==> exists p :: p in s.pairs && !hosts(p.dev).listed
  {
    hide Resolved, FastOf, Dated, Halfway, LivePfs;
    forall p | p in s.pairs
      ensures PairHalted(s, p, was[p.dev], s.uplinks[p.dev], t, events, now, hosts(p.dev), vf, asked)
    {
      if Resolved(t, p).Some? {
        var k :| 0 <= k < |of| && of[k] == p;
        FastMeans(s, t, p, answer, carried, NewOnes(events));
        assert some[k].name == p.dev;
        if !carried {
          VettedWhenFresh(s, t, p);
        }
        OneHalted(s, p, some[k], again[k], was[p.dev], dated[p.dev], reflected[p.dev], s.uplinks[p.dev], t, events, now,
                  hosts(p.dev), carried, answer, vf, asked);
      }
    }
    if k :| 0 <= k < |some| && !hosts(some[k].name).listed {
      FastMeans(s, t, of[k], answer, carried, NewOnes(events));
      assert of[k] in s.pairs && of[k].dev == some[k].name;
    }
  }

  lemma OnlyDated(s: Syncer, was: map<string, P.Uplink>, t: Topology, events: seq<Notice>, now: Stamp, hosts: string -> Host,
                  vf: VfAnswer, asked: set<Index>)
    requires s.Valid() && was.Keys == s.uplinks.Keys
    requires forall p :: p in s.pairs ==> s.uplinks[p.dev] == Dated(was[p.dev], t, p, DelOnes(events), now)
    ensures forall p :: p in s.pairs ==>
              PairHalted(s, p, was[p.dev], s.uplinks[p.dev], t, events, now, hosts(p.dev), vf, asked)
  {
    hide Dated;
  }

  lemma OneHalted(s: Syncer, p: Pair, fp: FastPair, again: FastPair, was: P.Uplink, dated: P.Uplink, reflected: P.Uplink,
                  end: P.Uplink, t: Topology, events: seq<Notice>, now: Stamp, h: Host, carried: bool, answer: VfAnswer,
                  vf: VfAnswer, asked: set<Index>)
    requires Resolved(t, p).Some? && fp == FastOf(s, t, p, answer, carried, NewOnes(events))
    requires dated == Dated(was, t, p, DelOnes(events), now)
    requires Halfway(s, fp, again, dated, reflected, end, t, NewOnes(events), now, h, carried, vf, asked)
    requires !carried ==> fp.a.functions <= asked
    ensures PairHalted(s, p, was, end, t, events, now, h, vf, asked)
  {
    hide Dated, WouldGrow, Exclusions, FastOf, Resolved, AfterReflection, AfterCommit, AfterStamping, Commits, MomentFor,
         ReflectedBy, PairAnswered, Steps;
    FastMeans(s, t, p, answer, carried, NewOnes(events));
    var b := MomentFor(s, fp.a, now, h);
    if end == reflected {
    } else if end == AfterStamping(reflected, b, Commits(t, again, reflected, NewOnes(events))) {
      assert IsFast(s, p, again, t, NewOnes(events), vf);
    } else {
      OneAnswered(s, p, fp, again, was, dated, reflected, end, t, events, now, h, carried, answer, vf, asked);
    }
  }

  lemma NobodysAtAll(s: Syncer, t: Topology, hosts: string -> Host)
    ensures AllNobodys(s, t, [], [], hosts)
  {
  }

  lemma Together(s: Syncer, was: map<string, P.Uplink>, dated: map<string, P.Uplink>, reflected: map<string, P.Uplink>,
                 t: Topology, some: seq<FastPair>, fps: seq<FastPair>, of: seq<Pair>, events: seq<Notice>, now: Stamp,
                 hosts: string -> Host, carried: bool, answer: VfAnswer, vf: VfAnswer, asked: set<Index>)
    requires s.Valid() && AreFast(s, t, some, of, answer, carried, NewOnes(events)) && |fps| == |some|
    requires forall p :: p in s.pairs ==>
               p.dev in was && p.dev in dated && dated[p.dev] == Dated(was[p.dev], t, p, DelOnes(events), now)
    requires forall k :: 0 <= k < |some| ==> some[k].name in reflected
    requires forall k :: 0 <= k < |some| ==> fps[k] == some[k].(skip := Exclusions(s.cfg, t, some[k].a, vf))
    requires forall k :: 0 <= k < |some| ==> some[k].name in s.uplinks && some[k].name in dated
    requires forall k :: 0 <= k < |some| ==>
               Steps(s, some[k], fps[k], dated[some[k].name], reflected[some[k].name], s.uplinks[some[k].name],
                     t, NewOnes(events), now, hosts(some[k].name))
    requires !carried ==> vf == answer && asked == LivePfs(t, s.Devices())
    requires forall k :: 0 <= k < |some| && carried &&
                         WouldGrow(t, some[k], reflected[some[k].name], hosts(some[k].name), NewOnes(events)) ==>
               some[k].a.functions <= asked
    ensures AllAnswered(s, was, t, fps, of, events, now, hosts, vf, asked)
  {
    hide Dated, Steps, WouldGrow, Exclusions, FastOf, Resolved, LivePfs, PairAnswered;
    forall k | 0 <= k < |of|
      ensures PairAnswered(s, of[k], fps[k], was[of[k].dev], s.uplinks[of[k].dev], t, events, now, hosts(of[k].dev), vf, asked)
    {
      var p, dev := of[k], of[k].dev;
      FastMeans(s, t, p, answer, carried, NewOnes(events));
      assert some[k].name == dev;
      if !carried {
        VettedWhenFresh(s, t, p);
      }
      OneAnswered(s, p, some[k], fps[k], was[dev], dated[dev], reflected[dev], s.uplinks[dev], t, events, now,
                  hosts(dev), carried, answer, vf, asked);
    }
  }

  lemma OneAnswered(s: Syncer, p: Pair, fp: FastPair, again: FastPair, was: P.Uplink, dated: P.Uplink, reflected: P.Uplink,
                    end: P.Uplink, t: Topology, events: seq<Notice>, now: Stamp, h: Host, carried: bool, answer: VfAnswer,
                    vf: VfAnswer, asked: set<Index>)
    requires Resolved(t, p).Some? && fp == FastOf(s, t, p, answer, carried, NewOnes(events))
    requires again == fp.(skip := Exclusions(s.cfg, t, fp.a, vf))
    requires dated == Dated(was, t, p, DelOnes(events), now)
    requires Steps(s, fp, again, dated, reflected, end, t, NewOnes(events), now, h)
    requires carried && WouldGrow(t, fp, reflected, h, NewOnes(events)) ==> fp.a.functions <= asked
    requires !carried ==> fp.a.functions <= asked
    ensures PairAnswered(s, p, again, was, end, t, events, now, h, vf, asked)
  {
    hide Dated, WouldGrow, Exclusions, FastOf, Resolved, AfterReflection, AfterCommit, Commits, MomentFor, MacsIn, OwnedOf;
    FastMeans(s, t, p, answer, carried, NewOnes(events));
    if carried {
      VettedWhenCarried(s.cfg, t, fp, answer, vf, reflected, h, NewOnes(events), asked);
    }
  }

  /** No learn of the batch is this pair's, and nothing of its own was out on the wire. */
  ghost predicate PairQuiet(s: Syncer, p: Pair, fp: FastPair, u: P.Uplink, t: Topology, events: seq<Notice>, now: Stamp, h: Host) {
    var dated, b := Dated(u, t, p, DelOnes(events), now), MomentFor(s, fp.a, now, h);
    AllAbsent(dated, b, fp.reflected) && NoneOurs(t, fp, AfterReflection(dated, b, fp.reflected), NewOnes(events))
  }

  ghost predicate NobodyConcerned(s: Syncer, was: map<string, P.Uplink>, t: Topology, fps: seq<FastPair>, of: seq<Pair>,
                                  events: seq<Notice>, now: Stamp, hosts: string -> Host) {
    |of| == |fps| && forall k :: 0 <= k < |of| ==>
      of[k].dev in was && PairQuiet(s, of[k], fps[k], was[of[k].dev], t, events, now, hosts(of[k].dev))
  }

  lemma QuietTogether(s: Syncer, was: map<string, P.Uplink>, dated: map<string, P.Uplink>, reflected: map<string, P.Uplink>,
                      t: Topology, some: seq<FastPair>, fps: seq<FastPair>, of: seq<Pair>, answer: VfAnswer, carried: bool,
                      events: seq<Notice>, now: Stamp, hosts: string -> Host, vf: VfAnswer)
    requires AreFast(s, t, some, of, answer, carried, NewOnes(events)) && |fps| == |some|
    requires forall p :: p in s.pairs ==>
               p.dev in was && p.dev in dated && dated[p.dev] == Dated(was[p.dev], t, p, DelOnes(events), now)
    requires forall k :: 0 <= k < |some| ==> some[k].name in reflected && some[k].name in s.uplinks && some[k].name in dated
    requires forall k :: 0 <= k < |some| ==> fps[k] == some[k].(skip := Exclusions(s.cfg, t, some[k].a, vf))
    requires forall k :: 0 <= k < |some| ==>
               Steps(s, some[k], fps[k], dated[some[k].name], reflected[some[k].name], s.uplinks[some[k].name],
                     t, NewOnes(events), now, hosts(some[k].name))
    ensures AllQuiet(s, some, fps, dated, reflected, t, NewOnes(events), now, hosts) <==>
            NobodyConcerned(s, was, t, fps, of, events, now, hosts)
  {
    hide Dated, Exclusions, FastOf, Resolved, AfterReflection, AfterCommit, Commits, NoneOurs, AllAbsent, MomentFor;
    forall k | 0 <= k < |of|
      ensures some[k].name == of[k].dev
      ensures Quiet(s, some[k], fps[k], dated[some[k].name], reflected[some[k].name], t, NewOnes(events), now, hosts(some[k].name))
              <==> PairQuiet(s, of[k], fps[k], was[of[k].dev], t, events, now, hosts(of[k].dev))
    {
      FastMeans(s, t, of[k], answer, carried, NewOnes(events));
    }
  }

  lemma NobodysTogether(s: Syncer, dated: map<string, P.Uplink>, reflected: map<string, P.Uplink>, t: Topology,
                        some: seq<FastPair>, fps: seq<FastPair>, of: seq<Pair>, answer: VfAnswer, carried: bool,
                        news: seq<FdbEntry>, now: Stamp, hosts: string -> Host, vf: VfAnswer)
    requires AreFast(s, t, some, of, answer, carried, news) && |fps| == |some|
    requires forall k :: 0 <= k < |some| ==> some[k].name in reflected && some[k].name in s.uplinks && some[k].name in dated
    requires forall k :: 0 <= k < |some| ==> fps[k] == some[k].(skip := Exclusions(s.cfg, t, some[k].a, vf))
    requires forall k :: 0 <= k < |some| ==>
               Steps(s, some[k], fps[k], dated[some[k].name], reflected[some[k].name], s.uplinks[some[k].name],
                     t, news, now, hosts(some[k].name))
    requires AllQuiet(s, some, fps, dated, reflected, t, news, now, hosts)
    ensures AllNobodys(s, t, fps, news, hosts)
  {
    hide Exclusions, FastOf, Resolved, AfterReflection, AfterCommit, Commits, Judge, Ours, IsNobodys;
    forall k | 0 <= k < |fps| && hosts(fps[k].name).readable && !hosts(fps[k].name).settleFails
      ensures IsNobodys(t, fps[k], WireHeld(s.uplinks[fps[k].name]), news, s.uplinks[fps[k].name].note)
    {
      var name := fps[k].name;
      FastMeans(s, t, of[k], answer, carried, news);
      NothingMeansNobodys(t, fps[k], MomentFor(s, fps[k].a, now, hosts(name)), dated[name], reflected[name],
                          s.uplinks[name], news);
    }
  }

  /**
   * Whatever a batch brings newly into a card was judged by what the driver said in that very
   * call about every function behind the uplink: it is no virtual function's address by that
   * answer, and nothing the configuration or the topology keeps out.
   */
  lemma GrowthIsVetted(s: Syncer, p: Pair, fp: FastPair, u: P.Uplink, u': P.Uplink, t: Topology, events: seq<Notice>,
                       now: Stamp, h: Host, vf: VfAnswer, asked: set<Index>, says: Driver, m: Mac)
    requires PairAnswered(s, p, fp, u, u', t, events, now, h, vf, asked) && SaysAll(vf, says, asked)
    requires m in u'.list && m !in u.list
    ensures fp.a.functions <= asked && CanAnswer(says, fp.a.functions)
    ensures m !in StaticExclusions(s.cfg, t, fp.a)
    ensures forall pf :: pf in fp.a.functions ==> m !in says(pf).value
  {
    hide Dated, StaticExclusions, Resolved, Candidates, Judge, MacsIn, Victims, Stamped, OnCardNow, MomentFor;
    var news := NewOnes(events);
    var b := MomentFor(s, fp.a, now, h);
    var dated := Dated(u, t, p, DelOnes(events), now);
    var u1 := AfterReflection(dated, b, fp.reflected);
    DatingKeepsTheList(u, t, p, DelOnes(events), now);
    var commits := Commits(t, fp, u1, news);
    assert m in MacsIn(commits) && m !in u1.list by {
      ListGrowsByCommits(dated, u1, b, fp.reflected, commits, m);
    }
    CommitsAreAdmissible(t, fp, u1, news, m);
  }

  /**
   * What a batch writes into a card that held it before was its own victim: shed for room and put
   * back. So it had just been learnt while the last pass's stamp was still ahead of the clock.
   */
  lemma PutBackWasVictim(s: Syncer, p: Pair, fp: FastPair, u: P.Uplink, u': P.Uplink, t: Topology, events: seq<Notice>,
                         now: Stamp, h: Host, vf: VfAnswer, asked: set<Index>, m: Mac)
    requires PairAnswered(s, p, fp, u, u', t, events, now, h, vf, asked)
    requires var b := MomentFor(s, fp.a, now, h);
             var u1 := AfterReflection(Dated(u, t, p, DelOnes(events), now), b, fp.reflected);
             var commits := Commits(t, fp, u1, NewOnes(events));
             && m in MacsIn(commits) && m in u.list
                // the card took it, as it takes what it does not hold
             && m !in u1.list - TakenBy(Victims(u1, b, commits), b.answer)
    ensures var b := MomentFor(s, fp.a, now, h);
            var u1 := AfterReflection(Dated(u, t, p, DelOnes(events), now), b, fp.reflected);
            var commits := Commits(t, fp, u1, NewOnes(events));
            && m in Victims(u1, b, commits)
            && (u1.loaded ==> u1.carried.Some? && b.now < u1.carried.value.passedAt)
  {
    hide Dated, Resolved, Candidates, Judge, MacsIn, Stamped, OnCardNow, MomentFor, Victims, Pool, IsFast;
    var b := MomentFor(s, fp.a, now, h);
    var dated := Dated(u, t, p, DelOnes(events), now);
    var u1 := AfterReflection(dated, b, fp.reflected);
    DatingKeepsTheList(u, t, p, DelOnes(events), now);
    CommitsAreAdmissible(t, fp, u1, NewOnes(events), m);
    ReflectionTakesOnlyItsOwn(dated, b, fp.reflected, m);
    if u1.loaded {
      JustLearntExactly(u1, b, Commits(t, fp, u1, NewOnes(events)), m);
    }
  }

  lemma ReflectionTakesOnlyItsOwn(u: P.Uplink, b: Moment, reflected: set<Mac>, m: Mac)
    ensures m in u.list && m !in reflected ==> m in AfterReflection(u, b, reflected).list
  {
    hide LetGoBy;
  }

  lemma ListGrowsByCommits(u: P.Uplink, u1: P.Uplink, b: Moment, reflected: set<Mac>, learns: seq<Learnt>, m: Mac)
    requires u1 == AfterReflection(u, b, reflected) && m in AfterCommit(u1, b, learns).list && m !in u.list
    ensures m in MacsIn(learns) && m !in u1.list
  {
    hide Victims, Stamped, OnCardNow, MacsIn, LetGoBy, TakenBy;
  }

  lemma CommitsAreAdmissible(t: Topology, fp: FastPair, u: P.Uplink, news: seq<FdbEntry>, m: Mac)
    requires m in MacsIn(Commits(t, fp, u, news))
    ensures m !in fp.skip && m !in WireHeld(u) && m !in fp.reflected && IsRegisterable(m)
  {
    hide IsRegisterable;
    var l :| l in Commits(t, fp, u, news) && l.0 == m;
    var e :| e in news && Judge(t, fp, WireHeld(u), e, Commit).candidate && l == (e.mac, e.ifindex);
  }

  lemma {:induction false} DatingKeepsTheList(u: P.Uplink, t: Topology, p: Pair, dels: seq<FdbEntry>, now: Stamp)
    ensures Dated(u, t, p, dels, now).list == u.list && Dated(u, t, p, dels, now).note == u.note
  {
    hide Dates;
    if dels != [] {
      DatingKeepsTheList(u, t, p, dels[..|dels| - 1], now);
    }
  }

  lemma FastMeans(s: Syncer, t: Topology, p: Pair, vf: VfAnswer, carried: bool, news: seq<FdbEntry>)
    requires Resolved(t, p).Some?
    ensures var fp := FastOf(s, t, p, vf, carried, news);
            && fp.name == p.dev && Resolved(t, p) == Some(fp.a) && fp.reach == t.ReachOf(fp.a.bridge)
            && fp.skip == Exclusions(s.cfg, t, fp.a, vf) && fp.reflected == ReflectedBy(fp.a, news)
            && (carried ==> fp.vfOwn == VfReported(fp.a.functions, vf))
  {
  }

  /** On a carried answer: what the commit lets in was a candidate when it was decided. */
  lemma VettedWhenCarried(cfg: Config, t: Topology, fp: FastPair, carriedVf: VfAnswer, vf: VfAnswer, u: P.Uplink, h: Host,
                          news: seq<FdbEntry>, asked: set<Index>)
    requires fp.skip == Exclusions(cfg, t, fp.a, carriedVf) && fp.vfOwn == VfReported(fp.a.functions, carriedVf)
    requires WouldGrow(t, fp, u, h, news) ==> fp.a.functions <= asked
    ensures var again := fp.(skip := Exclusions(cfg, t, fp.a, vf));
            forall m :: m in MacsIn(Commits(t, again, u, news)) && !(m in OwnedOf(u, h) && m in u.list) ==>
              fp.a.functions <= asked
  {
    hide Exclusions, Candidates, MacsIn;
    CommitWithinDecide(cfg, t, fp, carriedVf, vf, WireHeld(u), news);
  }

  /** No entry ours and nothing taken out: then nothing was registered, and no reflection is noted. */
  lemma NothingMeansNobodys(t: Topology, fp: FastPair, b: Moment, dated: P.Uplink, reflected: P.Uplink, end: P.Uplink,
                            news: seq<FdbEntry>)
    requires reflected == AfterReflection(dated, b, fp.reflected) && fp.reflected == ReflectedBy(fp.a, news)
    requires end == AfterCommit(reflected, b, Commits(t, fp, reflected, news))
    requires AllAbsent(dated, b, fp.reflected) && NoneOurs(t, fp, reflected, news)
    ensures b.readable && !b.settleFails ==> IsNobodys(t, fp, WireHeld(end), news, end.note)
  {
    hide Judge, ReflectedBy, AfterShedding, AfterRegistering, Victims;
    assert MacsIn(Commits(t, fp, reflected, news)) == {} by {
      forall e | e in news
        ensures !Judge(t, fp, WireHeld(reflected), e, Commit).candidate
      {
        CandidateIsOurs(t, fp, WireHeld(reflected), e);
      }
    }
    assert end == reflected;
    if b.readable && !b.settleFails {
      var ours := Ours(dated, b, fp.reflected);
      assert LetGoBy(ours, b.answer) == ours;
      assert end.note == dated.note - ours;
    }
  }

  lemma CandidateIsOurs(t: Topology, fp: FastPair, wire: set<Mac>, e: FdbEntry)
    ensures Judge(t, fp, wire, e, Commit).candidate ==> Judge(t, fp, wire, e, Commit).ours
  {
  }

  lemma NothingDated(s: Syncer, t: Topology, now: Stamp)
    requires s.Valid()
    ensures forall p :: p in s.pairs ==> Dated(s.uplinks[p.dev], t, p, [], now) == s.uplinks[p.dev]
  {
  }

  lemma {:induction false} NoticesAreNewOrDel(events: seq<Notice>)
    ensures NewOnes(events) == [] <==> forall e :: e in events ==> e.Del?
    ensures DelOnes(events) == [] <==> forall e :: e in events ==> e.New?
  {
    if events != [] {
      var init, last := events[..|events| - 1], events[|events| - 1];
      assert events == init + [last];
      NoticesAreNewOrDel(init);
    }
  }

  lemma NothingAsked(vf: VfAnswer, says: Driver)
    ensures SaysAll(vf, says, {})
  {
  }

  lemma FreshAnswer(says: Driver, pfs: set<Index>)
    requires CanAnswer(says, pfs)
    ensures SaysAll(Answers(says, pfs), says, pfs)
  {
  }

  lemma MergedAnswer(vf: VfAnswer, says: Driver, ask: set<Index>)
    requires CanAnswer(says, ask)
    ensures SaysAll((set p | p in vf && p.0 !in ask) + Answers(says, ask), says, ask)
  {
  }

  lemma FastFits(s: Syncer, t: Topology, fps: seq<FastPair>, of: seq<Pair>, vf: VfAnswer, carried: bool, news: seq<FdbEntry>)
    requires s.Valid() && AreFast(s, t, fps, of, vf, carried, news)
    ensures NamesFit(s, fps)
  {
    hide Resolved, Exclusions, ReflectedBy, VfReported;
  }
}
