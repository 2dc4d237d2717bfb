// What a batch writes (src/sync/mod.rs: the reflection and the registration of `fast_apply`,
// `shed_keeps`, `date_the_silence`, `load_ports`), and what runs of passes and batches keep.

module BatchWrites {
  import opened Basics
  import opened Interfaces
  import opened Desire
  import opened Valve
  import opened CardWrites
  import O = Ownership
  import P = Pass
  import opened Batch

  /** What a batch is given besides its entries. */
  datatype Moment = Moment(
    a: Anatomy, limit: nat, now: Stamp,
    readable: bool, answer: Kernel, refuses: bool, unnoteFails: bool, settleFails: bool,
    cardList: set<Mac>)  // the card's list, where the uplink writes into another interface's

  function Minus(ports: Memory, gone: set<Mac>): Memory {
    map m | m in ports && m !in gone :: ports[m]
  }

  function Less(n: nat, k: nat): nat {
    if k <= n then n - k else 0
  }

  // ----- reflection

  function Ours(u: P.Uplink, b: Moment, reflected: set<Mac>): set<Mac> {
    if b.readable then reflected * u.note else {}
  }

  /** A keep no longer, a slot less for each that came out, and a wire address from now on. */
  function CarriedBehind(carried: Option<P.Carried>, ours: set<Mac>, removed: set<Mac>): Option<P.Carried> {
    match carried
    case Some(c) => Some(P.Carried(Less(c.occupancy, |removed|), c.quiet - ours, c.wire + removed, c.passedAt))
    case None => if removed == {} then None else Some(P.Carried(0, {}, removed, 0))
  }

  /** Addresses of ours seen out on the wire come out at once, memory and keep included. */
  function AfterReflection(u: P.Uplink, b: Moment, reflected: set<Mac>): P.Uplink {
    var ours := Ours(u, b, reflected);
    if ours == {} then
      u
    else
      var removed, dropped := TakenBy(ours, b.answer), LetGoBy(ours, b.answer);
      u.(note := if b.settleFails then u.note else u.note - dropped,
         list := u.list - removed,
         ports := Minus(u.ports, ours),
         carried := CarriedBehind(u.carried, ours, removed))
  }

  // ----- registration

  function OnCardNow(u: P.Uplink, b: Moment): set<Mac> {
    if b.a.card == b.a.dev then u.list else b.cardList
  }

  /** The learns of the batch are stamped before the valve looks at any stamp. */
  function Stamped(u: P.Uplink, b: Moment, learns: seq<Learnt>): Memory {
    if u.loaded then P.SeenAll(u.ports, LearntOn(learns), b.now) else u.ports
  }

  /** How many slots the batch would take past what the limit leaves. */
  function Over(u: P.Uplink, b: Moment, macs: set<Mac>): nat {
    Less(|OnCardNow(u, b)| + |macs - OnCardNow(u, b)|, Less(b.limit, Headroom(b.limit)))
  }

  function Pool(u: P.Uplink, b: Moment, learns: seq<Learnt>): set<Mac> {
    if b.readable && u.carried.Some? then
      StillQuiet(u.carried.value.quiet, Stamped(u, b, learns), u.carried.value.passedAt)
    else
      {}
  }

  ghost function Victims(u: P.Uplink, b: Moment, learns: seq<Learnt>): set<Mac> {
    Released(Stamped(u, b, learns), Pool(u, b, learns), Over(u, b, MacsIn(learns)))
  }

  /** The uplink once the victims are out. */
  function AfterShedding(u: P.Uplink, b: Moment, victims: set<Mac>, ports: Memory): P.Uplink {
    var gone := LetGoBy(victims, b.answer);
    u.(note := if b.settleFails then u.note else u.note - gone,
       list := u.list - TakenBy(victims, b.answer),
       ports := Minus(ports, gone),
       carried := if u.carried.None? then None
                  else Some(u.carried.value.(quiet := u.carried.value.quiet - gone)))
  }

  predicate Takes(b: Moment) {
    b.readable && !b.refuses
  }

  function AfterRegistering(u: P.Uplink, b: Moment, macs: set<Mac>, occupancy: nat): P.Uplink {
    var c := if u.carried.Some? then u.carried.value else P.Carried(0, {}, {}, 0);
    var put := PutBy(macs, Takes(b), b.answer);
    u.(note := NoteBehind(u.note, macs, Takes(b), b.unnoteFails, b.answer),
       list := u.list + put,
       carried := Some(c.(occupancy := occupancy + |put|)))
  }

  /** The learns of a batch, registered; room is made first where there is none. */
  ghost function AfterCommit(u: P.Uplink, b: Moment, learns: seq<Learnt>): P.Uplink {
    var macs := MacsIn(learns);
    if macs == {} then
      u
    else
      var victims := Victims(u, b, learns);
      var freed := |LetGoBy(victims, b.answer) * OnCardNow(u, b)|;
      AfterRegistering(AfterShedding(u, b, victims, Stamped(u, b, learns)), b, macs, Less(|OnCardNow(u, b)|, freed))
  }

  /** Stamped, and no further: the card's list could not be read back. */
  function AfterStamping(u: P.Uplink, b: Moment, learns: seq<Learnt>): P.Uplink {
    u.(ports := Stamped(u, b, learns))
  }

  // ----- dating and taking over

  /** A deletion dates the silence and nothing else. */
  function AfterDating(u: P.Uplink, m: Mac, spoke: Stamp): P.Uplink {
    u.(ports := P.NoteSeen(u.ports, m, None, spoke))
  }

  /** One line of the written-down memory. */
  datatype Line = Line(mac: Mac, name: string, sighting: Sighting)

  function Newest(lines: seq<Line>): Stamp {
    if lines == [] then 0
    else
      var at, rest := lines[|lines| - 1].sighting.at, Newest(lines[..|lines| - 1]);
      if rest < at then at else rest
  }

  /** Shifted as one, so that no stamp lies ahead of the clock. */
  function ShiftedMemory(lines: seq<Line>, ahead: nat): Memory {
    if lines == [] then map[]
    else
      var l := lines[|lines| - 1];
      ShiftedMemory(lines[..|lines| - 1], ahead)[l.mac := Sighting(l.sighting.port, Less(l.sighting.at, ahead))]
  }

  /** A line is believed while its port's name still carries its index. */
  function Believed(t: Topology, lines: seq<Line>): seq<Line> {
    if lines == [] then []
    else
      var l := lines[|lines| - 1];
      Believed(t, lines[..|lines| - 1]) +
      if l.name in t.byName && t.byName[l.name] == l.sighting.port then [l] else []
  }

  /** Once per run, and never over a memory that is already carried. */
  function TakenOver(u: P.Uplink, t: Topology, lines: seq<Line>, now: Stamp): P.Uplink {
    if u.loaded || u.ports != map[] then
      u.(loaded := true)
    else
      var believed := Believed(t, lines);
      u.(loaded := true, ports := ShiftedMemory(believed, Less(Newest(believed), now)))
  }

  method LoadPorts(t: Topology, lines: seq<Line>, now: Stamp) returns (ports: Memory)
    ensures ports == ShiftedMemory(Believed(t, lines), Less(Newest(Believed(t, lines)), now))
  {
    var read := [];
    var newest := 0;
    for k := 0 to |lines|
      invariant read == Believed(t, lines[..k]) && newest == Newest(read)
    {
      var l := lines[k];
      assert lines[..k + 1][..k] == lines[..k];
      if l.name in t.byName && t.byName[l.name] == l.sighting.port {
        assert (read + [l])[..|read|] == read;
        read := read + [l];
        newest := if newest < l.sighting.at then l.sighting.at else newest;
      }
    }
    assert lines[..|lines|] == lines;
    var ahead := Less(newest, now);
    ports := map[];
    for k := 0 to |read|
      invariant ports == ShiftedMemory(read[..k], ahead)
    {
      assert read[..k + 1][..k] == read[..k];
      ports := ports[read[k].mac := Sighting(read[k].sighting.port, Less(read[k].sighting.at, ahead))];
    }
    assert read[..|read|] == read;
  }

  lemma {:induction false} NewestIsNewest(lines: seq<Line>)
    ensures forall l :: l in lines ==> l.sighting.at <= Newest(lines)
  {
    if lines != [] {
      NewestIsNewest(lines[..|lines| - 1]);
      assert lines == lines[..|lines| - 1] + [lines[|lines| - 1]];
    }
  }

  lemma {:induction false} ShiftedFrom(lines: seq<Line>, ahead: nat, m: Mac)
    requires m in ShiftedMemory(lines, ahead)
    ensures exists l :: l in lines && l.mac == m &&
                        ShiftedMemory(lines, ahead)[m] == Sighting(l.sighting.port, Less(l.sighting.at, ahead))
  {
    if lines != [] {
      var init, last := lines[..|lines| - 1], lines[|lines| - 1];
      assert lines == init + [last];
      if m != last.mac {
        ShiftedFrom(init, ahead, m);
      }
    }
  }

  /** No stamp taken over lies ahead of the clock. */
  lemma TakenOverIsPast(lines: seq<Line>, now: Stamp)
    ensures forall m :: m in ShiftedMemory(lines, Less(Newest(lines), now)) ==>
              ShiftedMemory(lines, Less(Newest(lines), now))[m].at <= now
  {
    var ahead := Less(Newest(lines), now);
    NewestIsNewest(lines);
    forall m | m in ShiftedMemory(lines, ahead)
      ensures ShiftedMemory(lines, ahead)[m].at <= now
    {
      ShiftedFrom(lines, ahead, m);
    }
  }

  lemma {:induction false} ShiftedBy(lines: seq<Line>, ahead: nat)
    ensures var read, taken := ShiftedMemory(lines, 0), ShiftedMemory(lines, ahead);
            && taken.Keys == read.Keys
            && forall m :: m in read ==> taken[m] == Sighting(read[m].port, Less(read[m].at, ahead))
  {
    if lines != [] {
      ShiftedBy(lines[..|lines| - 1], ahead);
    }
  }

  /**
   * Of any two addresses in the file the shift never turns the order around, and it keeps a
   * strict one exactly where the later stamp lies above the shift.
   */
  lemma ShiftKeepsOrder(lines: seq<Line>, ahead: nat, m: Mac, n: Mac)
    requires m in ShiftedMemory(lines, 0) && n in ShiftedMemory(lines, 0)
    ensures var read, taken := ShiftedMemory(lines, 0), ShiftedMemory(lines, ahead);
            && m in taken && n in taken
            && (read[m].at <= read[n].at ==> taken[m].at <= taken[n].at)
            && (taken[m].at < taken[n].at <==> read[m].at < read[n].at && ahead < read[n].at)
  {
    ShiftedBy(lines, ahead);
  }

  /** Two addresses, and a third stamped far ahead of the clock: the shift takes both down to zero. */
  lemma ShiftLosesOrder(m: Mac, n: Mac, o: Mac)
    requires m != n && n != o && m != o
    ensures var lines := [Line(m, "a", Sighting(1, 1)), Line(n, "b", Sighting(2, 2)), Line(o, "c", Sighting(3, 9))];
            var read, taken := ShiftedMemory(lines, 0), ShiftedMemory(lines, Less(Newest(lines), 4));
            && m in read && n in read && m in taken && n in taken
            && read[m].at < read[n].at && taken[m].at == taken[n].at
  {
    var a, b, c := Line(m, "a", Sighting(1, 1)), Line(n, "b", Sighting(2, 2)), Line(o, "c", Sighting(3, 9));
    assert Newest([a, b, c]) == 9 by {
      assert [a, b, c][..2] == [a, b] && [a, b][..1] == [a] && [a][..0] == [];
      assert Newest([a]) == 1 && Newest([a, b]) == 2;
    }
    ShiftedThree(a, b, c, 0);
    ShiftedThree(a, b, c, 5);
  }

  lemma ShiftedThree(a: Line, b: Line, c: Line, ahead: nat)
    ensures ShiftedMemory([a, b, c], ahead) ==
            map[][a.mac := Sighting(a.sighting.port, Less(a.sighting.at, ahead))]
                 [b.mac := Sighting(b.sighting.port, Less(b.sighting.at, ahead))]
                 [c.mac := Sighting(c.sighting.port, Less(c.sighting.at, ahead))]
  {
    assert [a, b, c][..2] == [a, b] && [a, b][..1] == [a] && [a][..0] == [];
    assert ShiftedMemory([a], ahead) == map[][a.mac := Sighting(a.sighting.port, Less(a.sighting.at, ahead))];
    assert ShiftedMemory([a, b], ahead) ==
           ShiftedMemory([a], ahead)[b.mac := Sighting(b.sighting.port, Less(b.sighting.at, ahead))];
  }

  // ----- what a commit leaves

  /** The kernel takes out what it is asked to, takes in what it does not hold, and says so where it does. */
  predicate AllGoesWell(u: P.Uplink, b: Moment, victims: set<Mac>, macs: set<Mac>) {
    && b.readable && !b.refuses && !b.unnoteFails && !b.settleFails && b.a.card == b.a.dev
    && (forall m :: m in victims ==> b.answer(m, false) == O.Ok)
    && (forall m :: m in macs ==> b.answer(m, true) == if m in u.list - victims then O.Exists else O.Ok)
  }

  /**
   * The post-state of a commit: the card holds what it held less the victims, and the learns; the
   * note what is ours of it; what was never ours is conserved; the recorded occupancy is the
   * card's real size. The limit holds with its headroom but for learns that had to be put back,
   * or every keep that could be given was.
   */
  lemma CommitPostState(u: P.Uplink, b: Moment, learns: seq<Learnt>)
    requires MacsIn(learns) != {} && AllGoesWell(u, b, Victims(u, b, learns), MacsIn(learns))
    requires Pool(u, b, learns) <= u.note * u.list
    ensures var macs, victims, u' := MacsIn(learns), Victims(u, b, learns), AfterCommit(u, b, learns);
            && u'.list == u.list - victims + macs
            && u'.note <= u.note + macs && u'.list - u'.note == u.list - u.note
            && u'.carried.Some? && u'.carried.value.occupancy == |u'.list|
            && (|u'.list| <= Less(b.limit, Headroom(b.limit)) + |macs * victims| || Pool(u, b, learns) == victims)
            && (Pool(u, b, learns) !! macs ==>
                  |u'.list| <= Less(b.limit, Headroom(b.limit)) || Pool(u, b, learns) !! u'.list)
  {
    hide Pool, Stamped, Headroom, Victims, AfterCommit, Less, MacsIn;
    var macs, victims := MacsIn(learns), Victims(u, b, learns);
    ShedEnough(u, b, learns);
    CommitWrites(u, b, learns);
    CountedAfterCommit(u.list, victims, macs);
    ForeignAfterCommit(u.list, u.note, victims, macs);
    RoomAfterCommit(u, b, learns);
  }

  /** The three sets and the count, written out. */
  lemma CommitWrites(u: P.Uplink, b: Moment, learns: seq<Learnt>)
    requires MacsIn(learns) != {} && AllGoesWell(u, b, Victims(u, b, learns), MacsIn(learns))
    requires Victims(u, b, learns) <= u.list
    ensures var macs, victims, u' := MacsIn(learns), Victims(u, b, learns), AfterCommit(u, b, learns);
            && u'.list == u.list - victims + macs
            && u'.note == NoteAfterCommit(u.list, u.note, victims, macs)
            && u'.carried.Some?
            && |victims| <= |u.list|
            && u'.carried.value.occupancy == |u.list| - |victims| + |macs - (u.list - victims)|
  {
    hide Victims, Stamped, MacsIn;
    var macs, victims := MacsIn(learns), Victims(u, b, learns);
    CountedAfterCommit(u.list, victims, macs);
    assert LetGoBy(victims, b.answer) == TakenBy(victims, b.answer) == victims;
    assert Accepted(macs, b.answer) == macs - (u.list - victims);
    assert victims * u.list == victims;
    var note := u.note - victims;
    assert SomebodyElses(note, macs, b.answer) == (macs - note) * (u.list - victims);
    assert u.list - victims + (macs - (u.list - victims)) == u.list - victims + macs;
  }

  function NoteAfterCommit(list: set<Mac>, note: set<Mac>, victims: set<Mac>, macs: set<Mac>): set<Mac> {
    var left := note - victims;
    left + macs - (macs - left) * (list - victims)
  }

  lemma ForeignAfterCommit(list: set<Mac>, note: set<Mac>, victims: set<Mac>, macs: set<Mac>)
    requires victims <= note
    ensures var note' := NoteAfterCommit(list, note, victims, macs);
            note' <= note + macs && list - victims + macs - note' == list - note
  {
  }

  lemma RoomAfterCommit(u: P.Uplink, b: Moment, learns: seq<Learnt>)
    requires b.a.card == b.a.dev && Pool(u, b, learns) <= u.list
    ensures var macs, victims, pool := MacsIn(learns), Victims(u, b, learns), Pool(u, b, learns);
            var left := u.list - victims + macs;
            && (|left| <= Less(b.limit, Headroom(b.limit)) + |macs * victims| || pool == victims)
            && (pool !! macs ==> |left| <= Less(b.limit, Headroom(b.limit)) || pool !! left)
  {
    hide Pool, Headroom, MacsIn, Victims;
    var macs, victims := MacsIn(learns), Victims(u, b, learns);
    ShedEnough(u, b, learns);
    CountedAfterCommit(u.list, victims, macs);
    if Pool(u, b, learns) !! macs {
      assert macs * victims == {};
    }
  }

  lemma CountedAfterCommit(list: set<Mac>, victims: set<Mac>, macs: set<Mac>)
    requires victims <= list
    ensures |victims| <= |list|
    ensures |list - victims + macs| == |list| - |victims| + |macs - (list - victims)|
    ensures |macs - (list - victims)| == |macs - list| + |macs * victims|
  {
    assert list == victims + (list - victims);
    assert list - victims + macs == (list - victims) + (macs - (list - victims));
    assert macs - (list - victims) == (macs - list) + macs * victims;
  }

  lemma ShedEnough(u: P.Uplink, b: Moment, learns: seq<Learnt>)
    ensures var pool, victims, over := Pool(u, b, learns), Victims(u, b, learns), Over(u, b, MacsIn(learns));
            victims <= pool && |victims| <= over && (|victims| == over || victims == pool)
  {
    hide Pool, Over, Stamped;
    var pool, victims := Pool(u, b, learns), Victims(u, b, learns);
    if |victims| == |pool| {
      assert pool == victims + (pool - victims);
    }
  }

  // ----- whether a learn can be its own batch's victim

  /**
   * A learn of the batch is in the pool exactly when the last pass kept it, stamped itself ahead
   * of this moment's clock, and the address was not stamped since.
   */
  lemma JustLearntExactly(u: P.Uplink, b: Moment, learns: seq<Learnt>, m: Mac)
    requires u.loaded && m in MacsIn(learns)
    ensures m in Pool(u, b, learns) <==>
            && b.readable && u.carried.Some? && m in u.carried.value.quiet
            && b.now < u.carried.value.passedAt
            && (m in u.ports ==> u.ports[m].at < u.carried.value.passedAt)
    ensures Victims(u, b, learns) <= Pool(u, b, learns)
  {
  }

  /** An address the batch itself has just learnt is not its victim, once the clock has caught up. */
  lemma JustLearntIsNoVictim(u: P.Uplink, b: Moment, learns: seq<Learnt>, m: Mac)
    requires u.loaded && m in MacsIn(learns)
    requires u.carried.Some? ==> u.carried.value.passedAt <= b.now
    ensures m !in Victims(u, b, learns)
  {
    JustLearntExactly(u, b, learns, m);
  }

  /**
   * And it is a victim exactly when fewer of the pool were silent for longer than the batch has
   * slots to free.
   */
  lemma JustLearntIsVictimExactly(u: P.Uplink, b: Moment, learns: seq<Learnt>, m: Mac)
    requires u.loaded && m in MacsIn(learns)
    ensures m in Victims(u, b, learns) <==>
            && b.readable && u.carried.Some? && m in u.carried.value.quiet
            && b.now < u.carried.value.passedAt
            && (m in u.ports ==> u.ports[m].at < u.carried.value.passedAt)
            && |Ahead(Stamped(u, b, learns), Pool(u, b, learns), m)| < Over(u, b, MacsIn(learns))
  {
    hide Pool, Stamped, Over, MacsIn;
    JustLearntExactly(u, b, learns, m);
    ReleasedExactly(Stamped(u, b, learns), Pool(u, b, learns), Over(u, b, MacsIn(learns)), m);
  }

  /** A full card whose only keep speaks while the last pass's stamp is still ahead of the clock. */
  lemma JustLearntCanBeVictim(m: Mac, x: Mac, b: Moment)
    requires m != x && b.readable && b.now == 1 && b.limit == 5 && b.a.card == b.a.dev
    ensures var u := P.Uplink({m}, {m, x}, map[m := Sighting(2, 0)], true, Some(P.Carried(2, {m}, {}, 3)));
            m in Victims(u, b, [(m, 2)])
  {
    var u := P.Uplink({m}, {m, x}, map[m := Sighting(2, 0)], true, Some(P.Carried(2, {m}, {}, 3)));
    var learns := [(m, 2 as Index)];
    assert (m, 2 as Index) in learns;
    assert MacsIn(learns) == {m};
    JustLearntExactly(u, b, learns, m);
    assert Pool(u, b, learns) == {m};
    assert {m} - u.list == {};
    assert Over(u, b, {m}) == 1;
    ShedEnough(u, b, learns);
  }
}
