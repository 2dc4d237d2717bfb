// One pass over one uplink (src/sync/mod.rs, `reconcile`): what it decides, what it writes,
// and what it leaves behind.

module Pass {
  import opened Basics
  import opened Interfaces
  import opened Fdb
  import opened Desire
  import opened Valve
  import opened CardWrites
  import O = Ownership

  /** The leavings of the last pass over an uplink. */
  datatype Carried = Carried(occupancy: nat, quiet: set<Mac>, wire: set<Mac>, passedAt: Stamp)

  /**
   * All that is held about one uplink: the note on disk, the list in the card, the memory of
   * sightings (and whether the written-down one was taken over), and the last pass's leavings.
   */
  datatype Uplink = Uplink(note: set<Mac>, list: set<Mac>, ports: Memory, loaded: bool, carried: Option<Carried>)

  /** What a pass is given besides: the reading, and how every write of it will be answered. */
  datatype Given = Given(
    cfg: Config, t: Topology, a: Anatomy, limit: nat, passAt: Stamp, fdb: seq<FdbEntry>,
    readable: bool,                    // whether the note can be read
    answer: Kernel,
    refuses: bool,                     // the note will not take the intents
    unnoteFails: bool, settleFails: bool, mergeFails: bool)

  /** A pass's decision about one uplink. */
  datatype Wanted = Wanted(want: set<Mac>, wire: set<Mac>, learntAt: map<Mac, Index>, kept: set<Mac>)

  function OwnedBefore(u: Uplink, g: Given): set<Mac> {
    if g.readable then u.note else {}
  }

  ghost function WantedWith(u: Uplink, g: Given, vf: VfAnswer): Wanted {
    var skip := Exclusions(g.cfg, g.t, g.a, vf);
    var desired, wire := Desired(g.cfg, g.t, g.a, skip, g.fdb), WireOf(g.t, g.a, g.fdb);
    var kept := QuietSurvivors(g.t, g.a, skip, desired, wire, OwnedBefore(u, g), u.ports);
    Wanted(desired + kept, wire, LearntAt(g.t, g.a, g.fdb), kept)
  }

  // ----- what it decides, once the wanted set stands

  function Present(g: Given): set<Mac> {
    SelfList(g.fdb, g.a.dev)
  }

  function OnCard(g: Given): set<Mac> {
    SelfList(g.fdb, g.a.card)
  }

  /** The slots the pass would leave occupied, before the valve. */
  function Occupied(u: Uplink, g: Given, w: Wanted): nat {
    |w.want| + |OnCard(g) - w.want - OwnedBefore(u, g)|
  }

  ghost function Shed(u: Uplink, g: Given, w: Wanted): set<Mac> {
    Released(u.ports, w.kept, Excess(g.limit, Occupied(u, g, w)))
  }

  ghost function Pressed(u: Uplink, g: Given, w: Wanted): Wanted {
    w.(want := w.want - Shed(u, g, w), kept := w.kept - Shed(u, g, w))
  }

  // ----- what it writes

  function ToAdd(g: Given, w: Wanted): set<Mac> {
    w.want - Present(g)
  }

  predicate Registers(g: Given) {
    g.readable && !g.refuses
  }

  function Put(g: Given, w: Wanted): set<Mac> {
    PutBy(ToAdd(g, w), Registers(g), g.answer)
  }

  function NoteRegistered(u: Uplink, g: Given, w: Wanted): set<Mac> {
    NoteBehind(u.note, ToAdd(g, w), Registers(g), g.unnoteFails, g.answer)
  }

  function Stale(u: Uplink, g: Given, w: Wanted): set<Mac> {
    OwnedBefore(u, g) + Put(g, w) - w.want
  }

  function Removed(u: Uplink, g: Given, w: Wanted): set<Mac> {
    TakenBy(Stale(u, g, w), g.answer)
  }

  function Dropped(u: Uplink, g: Given, w: Wanted): set<Mac> {
    LetGoBy(Stale(u, g, w), g.answer)
  }

  /** What this process holds itself to own afterwards. */
  function Owned(u: Uplink, g: Given, w: Wanted): set<Mac> {
    OwnedBefore(u, g) + Put(g, w) - Dropped(u, g, w)
  }

  function NoteRetired(u: Uplink, g: Given, w: Wanted): set<Mac> {
    if g.settleFails || !g.readable then NoteRegistered(u, g, w)
    else NoteRegistered(u, g, w) - Dropped(u, g, w)
  }

  /** The difference this pass made, against the note as it is by then. */
  function NoteMerged(u: Uplink, g: Given, w: Wanted): set<Mac> {
    var before, after := OwnedBefore(u, g), Owned(u, g, w);
    if before == after || g.mergeFails || !g.readable then NoteRetired(u, g, w)
    else NoteRetired(u, g, w) + (after - before) - (before - after)
  }

  function ListAfter(u: Uplink, g: Given, w: Wanted): set<Mac> {
    u.list + Put(g, w) - Removed(u, g, w)
  }

  // ----- what it remembers

  /** One reading a pass, strictly after the last one's. */
  function NextPassAt(last: Stamp, clock: Stamp): (r: Stamp)
    ensures r > last && r >= clock && (r == clock || r == last + 1)
  {
    if clock < last + 1 then last + 1 else clock
  }

  /** A sighting moves its stamp forward or not at all. */
  function NoteSeen(ports: Memory, m: Mac, port: Option<Index>, at: Stamp): Memory {
    if m in ports then
      var s := ports[m];
      ports[m := Sighting(if port.Some? then port.value else s.port, if s.at < at then at else s.at)]
    else if port.Some? then
      ports[m := Sighting(port.value, at)]
    else
      ports
  }

  /** One sighting for each learn of the dump. */
  function SeenAll(ports: Memory, learntAt: map<Mac, Index>, at: Stamp): Memory {
    map m | m in ports.Keys + learntAt.Keys ::
      if m in learntAt then
        Sighting(learntAt[m], if m in ports && at < ports[m].at then ports[m].at else at)
      else
        ports[m]
  }

  function MemoryAfter(u: Uplink, g: Given, w: Wanted): Memory {
    var failed := Stale(u, g, w) - Dropped(u, g, w);
    var rest := map m | m in u.ports && m !in failed :: u.ports[m];
    if g.readable then
      var seen := SeenAll(rest, w.learntAt, g.passAt);
      map m | m in seen && m in Owned(u, g, w) :: seen[m]
    else
      rest
  }

  /** The whole of it, for a wanted set judged against some driver answer. */
  ghost function After(u: Uplink, g: Given, w0: Wanted): Uplink {
    var w := Pressed(u, g, w0);
    Uplink(
      NoteMerged(u, g, w), ListAfter(u, g, w), MemoryAfter(u, g, w), u.loaded,
      Some(Carried(
        Occupied(u, g, w0) - |Shed(u, g, w0)|, w.kept, w.wire,
        if g.readable then g.passAt else if u.carried.Some? then u.carried.value.passedAt else 0)))
  }

  lemma ShedIsKept(u: Uplink, g: Given, w: Wanted)
    requires w.kept <= w.want
    ensures Shed(u, g, w) <= w.kept && |Shed(u, g, w)| <= |w.want| <= Occupied(u, g, w)
  {
    SubsetSize(w.kept, w.want);
    SubsetSize(Shed(u, g, w), w.kept);
  }

  // ----- a pass without failures

  /** The kernel and the note take everything, and the dump shows the card as it is. */
  ghost predicate Failurefree(u: Uplink, g: Given, w: Wanted) {
    && g.readable && !g.refuses && !g.unnoteFails && !g.settleFails && !g.mergeFails
    && (forall m :: m in ToAdd(g, w) ==> g.answer(m, true) == O.Ok)
    && (forall m :: m in Stale(u, g, w) ==> g.answer(m, false) == O.Ok)
    && Present(g) == u.list && g.a.card == g.a.dev
  }

  /**
   * The post-state of a pass: the card holds what is wanted and what was never ours, the note
   * what is wanted and ours, and the recorded occupancy is the card's real size. The limit
   * holds with its headroom, or there is no keep left to give.
   */
  lemma PassPostState(u: Uplink, g: Given, w0: Wanted)
    requires w0.kept <= w0.want && w0.kept <= u.note
    requires Failurefree(u, g, Pressed(u, g, w0))
    ensures var w, u' := Pressed(u, g, w0), After(u, g, w0);
            && u'.list == w.want + (u.list - u.note)
            && u'.note == (u.note + ToAdd(g, w)) * w.want
            && u'.list - u'.note == u.list - u.note
            && u'.carried.Some? && u'.carried.value.occupancy == |u'.list|
            && (|u'.list| + Headroom(g.limit) <= g.limit || w.kept == {})
  {
    hide Released, Stale, Put, Removed, Dropped, Owned, NoteMerged, ListAfter, Occupied, MemoryAfter, Excess, SelfList;
    var w := Pressed(u, g, w0);
    WritesWithoutFailure(u, g, w);
    ForeignConserved(w.want, u.list, u.note);
    OccupancyIsExact(u, g, w0);
    PressedEnough(g.limit, Occupied(u, g, w0), w0.kept, u.ports);
    ShedIsKept(u, g, w0);
  }

  /** What is there and not ours before is there and not ours after. */
  lemma ForeignConserved(want: set<Mac>, list: set<Mac>, note: set<Mac>)
    ensures want + (list - note) - (note + (want - list)) * want == list - note
  {
  }

  lemma WritesWithoutFailure(u: Uplink, g: Given, w: Wanted)
    requires Failurefree(u, g, w)
    ensures ListAfter(u, g, w) == w.want + (u.list - u.note)
    ensures NoteMerged(u, g, w) == Owned(u, g, w) == (u.note + ToAdd(g, w)) * w.want
    ensures Dropped(u, g, w) == Stale(u, g, w)
  {
    assert Put(g, w) == ToAdd(g, w);
    assert Removed(u, g, w) == Stale(u, g, w);
    assert Dropped(u, g, w) == Stale(u, g, w);
    assert Owned(u, g, w) == (u.note + ToAdd(g, w)) * w.want;
    assert NoteRetired(u, g, w) == Owned(u, g, w);
  }

  lemma OccupancyIsExact(u: Uplink, g: Given, w0: Wanted)
    requires w0.kept <= w0.want && w0.kept <= u.note
    requires Failurefree(u, g, Pressed(u, g, w0))
    ensures Occupied(u, g, w0) - |Shed(u, g, w0)| == |Pressed(u, g, w0).want + (u.list - u.note)|
  {
    hide Shed, SelfList, ToAdd, Stale;
    ShedIsKept(u, g, w0);
    CountedApart(w0.want, Shed(u, g, w0), u.list, u.note);
  }

  lemma CountedApart(want: set<Mac>, shed: set<Mac>, list: set<Mac>, note: set<Mac>)
    requires shed <= want && shed <= note
    ensures |want| + |list - want - note| - |shed| == |want - shed + (list - note)|
  {
    var left, foreign := want - shed, list - note;
    assert want == left + shed;
    assert list - want - note == foreign - left;
    assert left + foreign == left + (foreign - left);
  }

  // ----- the fixpoint

  /** A second pass over the same picture, with the card and the note the first left. */
  ghost predicate SamePicture(g: Given, h: Given) {
    && g.cfg == h.cfg && g.t == h.t && g.a == h.a && g.limit == h.limit && g.passAt < h.passAt
    && (forall m :: m in InnerOf(g.t, g.a, g.fdb) <==> m in InnerOf(h.t, h.a, h.fdb))
    && (forall m :: m in WireOf(g.t, g.a, g.fdb) <==> m in WireOf(h.t, h.a, h.fdb))
  }

  /**
   * The pass is a fixpoint: asked again about the same picture and the same driver answer, it
   * keeps the same keeps, adds nothing, takes nothing out and sheds nothing.
   */
  lemma PassIsFixpoint(u: Uplink, g: Given, h: Given, vf: VfAnswer)
    requires Failurefree(u, g, Pressed(u, g, WantedWith(u, g, vf)))
    requires SamePicture(g, h) && h.readable
    requires Present(h) == After(u, g, WantedWith(u, g, vf)).list
    ensures var w := Pressed(u, g, WantedWith(u, g, vf));
            var u' := After(u, g, WantedWith(u, g, vf));
            var v := WantedWith(u', h, vf);
            && v.want == w.want && v.kept == w.kept
            && Shed(u', h, v) == {}
            && ToAdd(h, Pressed(u', h, v)) == {}
            && Stale(u', h, Pressed(u', h, v)) == {}
            && Occupied(u', h, v) == u'.carried.value.occupancy
  {
    hide WantedWith, Pressed, After, Failurefree, SamePicture, Occupied, ToAdd, Stale, Shed, Excess, SelfList;
    var w0 := WantedWith(u, g, vf);
    var w, u' := Pressed(u, g, w0), After(u, g, w0);
    var v := WantedWith(u', h, vf);
    WantedIsSplit(u, g, vf);
    SamePictureMeans(u, g, h, w);
    PassPostState(u, g, w0);
    KeepsStay(u, g, h, vf);
    assert v.want <= u'.list && u'.note <= v.want;
    SettledOccupancy(u', h, v);
    NothingToShed(u', h, v);
    SettledWritesNothing(u', h, v);
  }

  lemma SamePictureMeans(u: Uplink, g: Given, h: Given, w: Wanted)
    requires Failurefree(u, g, w) && SamePicture(g, h)
    ensures g.readable && h.a.card == h.a.dev && h.limit == g.limit
  {
  }

  lemma WantedIsSplit(u: Uplink, g: Given, vf: VfAnswer)
    ensures var w := WantedWith(u, g, vf);
            && w.kept <= w.want && w.kept <= OwnedBefore(u, g)
            && w.want - w.kept == Desired(g.cfg, g.t, g.a, Exclusions(g.cfg, g.t, g.a, vf), g.fdb)
            && w.learntAt.Keys == InnerOf(g.t, g.a, g.fdb)
  {
    hide Exclusions, InnerOf, WireOf, IsRegisterable;
  }

  lemma SettledOccupancy(u: Uplink, h: Given, v: Wanted)
    requires h.readable && Present(h) == u.list && h.a.card == h.a.dev && u.note <= v.want <= u.list
    ensures Occupied(u, h, v) == |u.list|
  {
    assert u.list - v.want - u.note == u.list - v.want;
    assert u.list == v.want + (u.list - v.want);
  }

  lemma SettledWritesNothing(u: Uplink, h: Given, v: Wanted)
    requires h.readable && Present(h) == u.list && v.want <= u.list && u.note <= v.want
    ensures ToAdd(h, v) == {} && Stale(u, h, v) == {}
  {
  }

  lemma NothingToShed(u: Uplink, h: Given, v: Wanted)
    requires Occupied(u, h, v) + Headroom(h.limit) <= h.limit || v.kept == {}
    ensures Shed(u, h, v) == {} && Pressed(u, h, v) == v
  {
    hide Occupied, Headroom, IsLongestSilent;
    var gone := Shed(u, h, v);
    assert Excess(h.limit, Occupied(u, h, v)) == 0 || |v.kept| == 0;
    assert |gone| == 0;
    assert gone == {};
    assert v.want - {} == v.want && v.kept - {} == v.kept;
  }

  /** The keeps of the first pass are the keeps of the second. */
  lemma KeepsStay(u: Uplink, g: Given, h: Given, vf: VfAnswer)
    requires Failurefree(u, g, Pressed(u, g, WantedWith(u, g, vf)))
    requires SamePicture(g, h) && h.readable
    ensures var w := Pressed(u, g, WantedWith(u, g, vf));
            var v := WantedWith(After(u, g, WantedWith(u, g, vf)), h, vf);
            v.want == w.want && v.kept == w.kept
  {
    hide Released, WantedWith, After, Pressed, Failurefree, SamePicture;
    var w0 := WantedWith(u, g, vf);
    var w, u' := Pressed(u, g, w0), After(u, g, w0);
    var v := WantedWith(u', h, vf);
    WantedIsSplit(u, g, vf);
    WantedIsSplit(u', h, vf);
    SameDesired(g, h, vf);
    PressedIsLess(u, g, w0);
    forall m | m in w.kept
      ensures m in v.kept
    {
      KeptStays(u, g, h, vf, m);
    }
    forall m | m in v.kept
      ensures m in w.kept
    {
      NothingJoins(u, g, h, vf, m);
    }
    assert w.kept == v.kept;
    assert w.want == (w0.want - w0.kept) + w.kept;
    assert v.want == (v.want - v.kept) + v.kept;
  }

  lemma PressedIsLess(u: Uplink, g: Given, w0: Wanted)
    requires w0.kept <= w0.want
    ensures var w := Pressed(u, g, w0);
            && w.kept <= w0.kept && w.want == (w0.want - w0.kept) + w.kept
            && w.wire == w0.wire && w.learntAt == w0.learntAt
  {
    hide Released, Occupied, Excess;
    ShedIsKept(u, g, w0);
  }

  /** What is wanted apart from the keeps depends on the picture alone. */
  lemma SameDesired(g: Given, h: Given, vf: VfAnswer)
    requires SamePicture(g, h)
    ensures var skip := Exclusions(g.cfg, g.t, g.a, vf);
            && Exclusions(h.cfg, h.t, h.a, vf) == skip
            && Desired(h.cfg, h.t, h.a, skip, h.fdb) == Desired(g.cfg, g.t, g.a, skip, g.fdb)
            && WireOf(h.t, h.a, h.fdb) == WireOf(g.t, g.a, g.fdb)
  {
    hide Exclusions, InnerOf, IsRegisterable, Wards;
    assert WireOf(h.t, h.a, h.fdb) == WireOf(g.t, g.a, g.fdb);
  }

  lemma KeptStays(u: Uplink, g: Given, h: Given, vf: VfAnswer, m: Mac)
    requires Failurefree(u, g, Pressed(u, g, WantedWith(u, g, vf)))
    requires SamePicture(g, h) && h.readable
    requires m in Pressed(u, g, WantedWith(u, g, vf)).kept
    ensures m in WantedWith(After(u, g, WantedWith(u, g, vf)), h, vf).kept
  {
    hide Released, Pressed, After, Failurefree, SamePicture, Exclusions, PortLives, IsRegisterable;
    var w0 := WantedWith(u, g, vf);
    WantedIsSplit(u, g, vf);
    SameDesired(g, h, vf);
    PressedIsLess(u, g, w0);
    SamePictureMeans(u, g, h, Pressed(u, g, w0));
    SameHost(g, h);
    KeptIsRemembered(u, g, w0, w0.want - w0.kept, m);
  }

  lemma SameHost(g: Given, h: Given)
    requires SamePicture(g, h)
    ensures g.cfg == h.cfg && g.t == h.t && g.a == h.a
  {
  }

  lemma NothingJoins(u: Uplink, g: Given, h: Given, vf: VfAnswer, m: Mac)
    requires Failurefree(u, g, Pressed(u, g, WantedWith(u, g, vf)))
    requires SamePicture(g, h) && h.readable
    requires m in WantedWith(After(u, g, WantedWith(u, g, vf)), h, vf).kept
    ensures m in Pressed(u, g, WantedWith(u, g, vf)).kept
  {
    hide Released, WantedWith, Pressed, Failurefree, SamePicture, NoteMerged, ListAfter, MemoryAfter;
    var w0 := WantedWith(u, g, vf);
    var w := Pressed(u, g, w0);
    var u' := After(u, g, w0);
    WantedIsSplit(u, g, vf);
    WantedIsSplit(u', h, vf);
    SameDesired(g, h, vf);
    PressedIsLess(u, g, w0);
    NoteIsWanted(u, g, w);
  }

  lemma NoteIsWanted(u: Uplink, g: Given, w: Wanted)
    requires Failurefree(u, g, w)
    ensures NoteMerged(u, g, w) <= w.want
  {
    hide ToAdd, Stale;
    WritesWithoutFailure(u, g, w);
  }

  /** What is kept was not learnt, so its sighting stands as it was. */
  lemma KeptIsRemembered(u: Uplink, g: Given, w0: Wanted, desired: set<Mac>, m: Mac)
    requires w0.kept <= u.note && w0.want == desired + w0.kept
    requires w0.learntAt.Keys == InnerOf(g.t, g.a, g.fdb)
    requires Failurefree(u, g, Pressed(u, g, w0))
    requires m in Pressed(u, g, w0).kept && m in u.ports
    requires m !in w0.learntAt
    ensures m in After(u, g, w0).note
    ensures m in After(u, g, w0).ports && After(u, g, w0).ports[m] == u.ports[m]
  {
    hide Released;
    var w := Pressed(u, g, w0);
    WritesWithoutFailure(u, g, w);
    assert m in w.want && m !in Stale(u, g, w);
  }
}
