// Runs of passes and batches over one uplink (src/sync/mod.rs): what they keep, what neither arm
// of the valve can take, and how stamps move. At the end, how the syncer's own steps are such runs.

module Runs {
  import opened Basics
  import opened Interfaces
  import opened Fdb
  import opened Desire
  import opened Valve
  import O = Ownership
  import opened CardWrites
  import P = Pass
  import opened Batch
  import opened BatchWrites
  import opened Sync
  import opened EventPath

  /** One step of a single process over one uplink, under any answers. */
  datatype UplinkMove =
    | PassMove(g: P.Given, vf: VfAnswer)
    | ReflectMove(b: Moment, reflected: set<Mac>)
    | CommitMove(b: Moment, learns: seq<Learnt>)
    | StampMove(b: Moment, learns: seq<Learnt>)  // a commit whose list could not be read back
    | DateMove(mac: Mac, spoke: Stamp)
    | LoadMove(t: Topology, lines: seq<Line>, now: Stamp)

  ghost function Moved(u: P.Uplink, move: UplinkMove): P.Uplink {
    match move
    case PassMove(g, vf) => P.After(u, g, P.WantedWith(u, g, vf))
    case ReflectMove(b, reflected) => AfterReflection(u, b, reflected)
    case CommitMove(b, learns) => AfterCommit(u, b, learns)
    case StampMove(b, learns) => AfterStamping(u, b, learns)
    case DateMove(mac, spoke) => AfterDating(u, mac, spoke)
    case LoadMove(t, lines, now) => TakenOver(u, t, lines, now)
  }

  ghost function MovedBy(u: P.Uplink, moves: seq<UplinkMove>): P.Uplink {
    if moves == [] then u else Moved(MovedBy(u, moves[..|moves| - 1]), moves[|moves| - 1])
  }

  lemma {:induction false} MovedByBoth(u: P.Uplink, a: seq<UplinkMove>, b: seq<UplinkMove>)
    ensures MovedBy(u, a + b) == MovedBy(MovedBy(u, a), b)
  {
    hide Moved;
    if b == [] {
      assert a + b == a;
    } else {
      assert (a + b)[..|a + b| - 1] == a + b[..|b| - 1];
      MovedByBoth(u, a, b[..|b| - 1]);
    }
  }

  lemma OneMoreMove(u: P.Uplink, moves: seq<UplinkMove>, k: nat)
    requires k < |moves|
    ensures MovedBy(u, moves[..k + 1]) == Moved(MovedBy(u, moves[..k]), moves[k])
  {
    hide Moved;
    assert moves[..k + 1][..k] == moves[..k];
  }

  // ----- the keeps

  function KeepsOf(u: P.Uplink): set<Mac> {
    if u.carried.Some? then u.carried.value.quiet else {}
  }

  function PassedAt(u: P.Uplink): Stamp {
    if u.carried.Some? then u.carried.value.passedAt else 0
  }

  /** The keeps are on the note and none is pinned. */
  predicate QuietIsOurs(u: P.Uplink, extra: set<Mac>) {
    KeepsOf(u) <= u.note && KeepsOf(u) !! extra
  }

  predicate UnderConfig(moves: seq<UplinkMove>, cfg: Config) {
    forall k :: 0 <= k < |moves| && moves[k].PassMove? ==> moves[k].g.cfg == cfg
  }

  /** What a pass keeps is on the note, is not pinned, and nothing it wants for a reason or saw learnt. */
  lemma PassKeepsOurs(u: P.Uplink, g: P.Given, vf: VfAnswer)
    ensures var u' := P.After(u, g, P.WantedWith(u, g, vf));
            && u'.carried.Some?
            && KeepsOf(u') <= u'.note
            && KeepsOf(u') !! g.cfg.extra
            && KeepsOf(u') !! Desired(g.cfg, g.t, g.a, Exclusions(g.cfg, g.t, g.a, vf), g.fdb)
            && KeepsOf(u') !! WireOf(g.t, g.a, g.fdb)
            && KeepsOf(u') !! InnerOf(g.t, g.a, g.fdb)
  {
    hide Released, Exclusions, InnerOf, WireOf, PortLives, IsRegisterable, SelfList, P.MemoryAfter, P.ListAfter, P.Occupied;
    var w0 := P.WantedWith(u, g, vf);
    var w := P.Pressed(u, g, w0);
    P.WantedIsSplit(u, g, vf);
    P.PressedIsLess(u, g, w0);
    forall m | m in w.kept
      ensures m in P.NoteMerged(u, g, w)
      ensures m !in g.cfg.extra && m !in WireOf(g.t, g.a, g.fdb) && m !in InnerOf(g.t, g.a, g.fdb)
    {
      NotedKeepStays(u, g, w, m);
    }
  }

  lemma NotedKeepStays(u: P.Uplink, g: P.Given, w: P.Wanted, m: Mac)
    requires m in P.OwnedBefore(u, g) && m in w.want
    ensures m in P.NoteMerged(u, g, w)
  {
    hide SelfList;
    assert m !in P.Stale(u, g, w);
  }

  lemma StepKeepsOurs(u: P.Uplink, move: UplinkMove, cfg: Config)
    requires QuietIsOurs(u, cfg.extra) && (move.PassMove? ==> move.g.cfg == cfg)
    ensures QuietIsOurs(Moved(u, move), cfg.extra)
  {
    hide Released, P.After, P.SeenAll, P.WantedWith, AfterCommit, TakenBy, LetGoBy;
    match move
    case PassMove(g, vf) =>
      PassKeepsOurs(u, g, vf);
    case ReflectMove(b, reflected) =>
      LetGoIsPart(Ours(u, b, reflected), b.answer);
    case CommitMove(b, learns) =>
      CommitKeepsOurs(u, b, learns, cfg.extra);
    case StampMove(b, learns) =>
    case DateMove(mac, spoke) =>
    case LoadMove(t, lines, now) =>
  }

  lemma LetGoIsPart(macs: set<Mac>, answer: Kernel)
    ensures LetGoBy(macs, answer) <= macs
  {
  }

  lemma CommitKeepsOurs(u: P.Uplink, b: Moment, learns: seq<Learnt>, extra: set<Mac>)
    requires QuietIsOurs(u, extra)
    ensures QuietIsOurs(AfterCommit(u, b, learns), extra)
  {
    hide Victims, LetGoBy, TakenBy, Stamped, OnCardNow;
    var victims := Victims(u, b, learns);
    var shed := AfterShedding(u, b, victims, Stamped(u, b, learns));
    assert QuietIsOurs(shed, extra);
  }

  /** Over every run the keeps stay on the note and clear of what is pinned. */
  lemma {:induction false} RunKeepsOurs(u: P.Uplink, moves: seq<UplinkMove>, cfg: Config)
    requires QuietIsOurs(u, cfg.extra) && UnderConfig(moves, cfg)
    ensures QuietIsOurs(MovedBy(u, moves), cfg.extra)
  {
    hide QuietIsOurs, Moved;
    if moves != [] {
      RunKeepsOurs(u, moves[..|moves| - 1], cfg);
      StepKeepsOurs(MovedBy(u, moves[..|moves| - 1]), moves[|moves| - 1], cfg);
    }
  }

  // ----- between two passes

  predicate NoPass(moves: seq<UplinkMove>) {
    forall k :: 0 <= k < |moves| ==> !moves[k].PassMove?
  }

  predicate IsLastPass(moves: seq<UplinkMove>, k: nat) {
    k < |moves| && moves[k].PassMove? && NoPass(moves[k + 1..])
  }

  /** Only a pass keeps anything anew, and only a pass moves its own stamp. */
  lemma KeepsOnlyShrink(u: P.Uplink, move: UplinkMove)
    requires !move.PassMove?
    ensures KeepsOf(Moved(u, move)) <= KeepsOf(u) && PassedAt(Moved(u, move)) == PassedAt(u)
    ensures u.loaded ==> Moved(u, move).loaded
  {
    hide Victims, LetGoBy, TakenBy, Stamped, OnCardNow, P.SeenAll, NoteBehind, PutBy;
  }

  lemma {:induction false} KeepsShrinkOver(u: P.Uplink, moves: seq<UplinkMove>)
    requires NoPass(moves)
    ensures KeepsOf(MovedBy(u, moves)) <= KeepsOf(u) && PassedAt(MovedBy(u, moves)) == PassedAt(u)
    ensures u.loaded ==> MovedBy(u, moves).loaded
  {
    hide KeepsOf, Moved, PassedAt;
    if moves != [] {
      KeepsShrinkOver(u, moves[..|moves| - 1]);
      KeepsOnlyShrink(MovedBy(u, moves[..|moves| - 1]), moves[|moves| - 1]);
    }
  }

  lemma VictimsAreKeeps(u: P.Uplink, b: Moment, learns: seq<Learnt>)
    ensures Victims(u, b, learns) <= KeepsOf(u)
  {
  }

  /** What a pass wanted for a reason, saw learnt behind the bridge, or out on the wire. */
  ghost function AccountedFor(g: P.Given, vf: VfAnswer): set<Mac> {
    Desired(g.cfg, g.t, g.a, Exclusions(g.cfg, g.t, g.a, vf), g.fdb) +
    InnerOf(g.t, g.a, g.fdb) + WireOf(g.t, g.a, g.fdb)
  }

  /**
   * Whatever happened before, and whatever batches, deletions and loads came since: an address
   * the last pass wanted for a reason or saw learnt is no keep, so no batch can shed it until a
   * later pass misses it.
   */
  lemma SeenIsNoVictim(u: P.Uplink, moves: seq<UplinkMove>, k: nat, b: Moment, learns: seq<Learnt>)
    requires IsLastPass(moves, k)
    ensures KeepsOf(MovedBy(u, moves)) !! AccountedFor(moves[k].g, moves[k].vf)
    ensures Victims(MovedBy(u, moves), b, learns) !! AccountedFor(moves[k].g, moves[k].vf)
  {
    hide AccountedFor, Victims, KeepsOf, MovedBy, Moved;
    var since := moves[k + 1..];
    var passed := MovedBy(u, moves[..k + 1]);
    assert moves == moves[..k + 1] + since;
    OneMoreMove(u, moves, k);
    MovedByBoth(u, moves[..k + 1], since);
    PassClears(MovedBy(u, moves[..k]), moves[k].g, moves[k].vf);
    KeepsShrinkOver(passed, since);
    VictimsAreKeeps(MovedBy(u, moves), b, learns);
  }

  lemma PassClears(u: P.Uplink, g: P.Given, vf: VfAnswer)
    ensures KeepsOf(Moved(u, PassMove(g, vf))) !! AccountedFor(g, vf)
  {
    hide KeepsOf, Desired, InnerOf, WireOf, Exclusions, P.After, P.WantedWith;
    PassKeepsOurs(u, g, vf);
  }

  /** Before the first pass of a process there is nothing to take. */
  lemma NothingKeptYet(u: P.Uplink, moves: seq<UplinkMove>, b: Moment, learns: seq<Learnt>)
    requires u.carried.None? && NoPass(moves)
    ensures Victims(MovedBy(u, moves), b, learns) == {}
  {
    hide Victims, MovedBy;
    KeepsShrinkOver(u, moves);
    VictimsAreKeeps(MovedBy(u, moves), b, learns);
  }

  /** Nor by a pass that sees it learnt. */
  lemma SeenIsNotShed(u: P.Uplink, g: P.Given, vf: VfAnswer)
    ensures P.Shed(u, g, P.WantedWith(u, g, vf)) !! AccountedFor(g, vf)
    ensures P.Shed(u, g, P.WantedWith(u, g, vf)) <= u.note
    ensures P.Shed(u, g, P.WantedWith(u, g, vf)) !! g.cfg.extra
  {
    hide InnerOf, Exclusions, P.Occupied, Excess, WireOf, IsRegisterable, Released, PortLives;
    var w0 := P.WantedWith(u, g, vf);
    P.WantedIsSplit(u, g, vf);
    P.ShedIsKept(u, g, w0);
  }

  // ----- who spoke since the last pass

  function LearnsOf(move: UplinkMove): seq<Learnt> {
    match move
    case CommitMove(_, learns) => learns
    case StampMove(_, learns) => learns
    case _ => []
  }

  /** Every address a batch learnt, whether or not it got as far as the card. */
  function SpokenIn(moves: seq<UplinkMove>): set<Mac> {
    if moves == [] then {}
    else
      SpokenIn(moves[..|moves| - 1]) +
      MacsIn(LearnsOf(moves[|moves| - 1]))
  }

  predicate CommitsFrom(moves: seq<UplinkMove>, at: Stamp) {
    forall k :: 0 <= k < |moves| && (moves[k].CommitMove? || moves[k].StampMove?) ==> moves[k].b.now >= at
  }

  /** No keep of the last pass, or stamped since. */
  predicate Awake(u: P.Uplink, m: Mac) {
    m in KeepsOf(u) && m in u.ports ==> u.ports[m].at >= PassedAt(u)
  }

  lemma StaysAwake(u: P.Uplink, move: UplinkMove, m: Mac)
    requires !move.PassMove? && u.loaded && (move.CommitMove? || move.StampMove? ==> move.b.now >= PassedAt(u))
    requires Awake(u, m) || m in MacsIn(LearnsOf(move))
    ensures Awake(Moved(u, move), m)
  {
    hide Victims, LetGoBy, TakenBy, OnCardNow, NoteBehind, PutBy, LearntOn;
    KeepsOnlyShrink(u, move);
  }

  lemma {:induction false} SpokenStaysAwake(u: P.Uplink, moves: seq<UplinkMove>, m: Mac)
    requires NoPass(moves) && u.loaded && CommitsFrom(moves, PassedAt(u)) && m in SpokenIn(moves)
    ensures Awake(MovedBy(u, moves), m)
  {
    hide Awake, Moved, PassedAt;
    var init, last := moves[..|moves| - 1], moves[|moves| - 1];
    if m in SpokenIn(init) {
      SpokenStaysAwake(u, init, m);
    }
    KeepsShrinkOver(u, init);
    StaysAwake(MovedBy(u, init), last, m);
  }

  lemma AwakeIsNoVictim(u: P.Uplink, b: Moment, learns: seq<Learnt>, m: Mac)
    requires Awake(u, m) && PassedAt(u) <= b.now
    ensures m !in Victims(u, b, learns)
  {
    hide Over, LearntOn;
  }

  /**
   * Over every run neither arm of the valve takes a pinned address, one the note does not name,
   * one the last pass wanted for a reason or saw learnt, or - once the clock has caught up with
   * that pass's stamp - one that spoke since, in this batch or an earlier one.
   */
  lemma ValvesTakeOnlyKeeps(u: P.Uplink, moves: seq<UplinkMove>, k: nat, cfg: Config, b: Moment, learns: seq<Learnt>)
    requires QuietIsOurs(u, cfg.extra) && UnderConfig(moves, cfg) && IsLastPass(moves, k)
    ensures var now, passed, since := MovedBy(u, moves), MovedBy(u, moves[..k + 1]), moves[k + 1..];
            var victims := Victims(now, b, learns);
            && victims <= now.note && victims !! cfg.extra
            && victims !! AccountedFor(moves[k].g, moves[k].vf)
            && (passed.loaded && CommitsFrom(since + [CommitMove(b, learns)], PassedAt(passed)) ==>
                  victims !! SpokenIn(since) + MacsIn(learns))
  {
    hide AccountedFor, Victims, Moved, KeepsOf, PassedAt, Awake;
    var now, passed, since := MovedBy(u, moves), MovedBy(u, moves[..k + 1]), moves[k + 1..];
    RunKeepsOurs(u, moves, cfg);
    SeenIsNoVictim(u, moves, k, b, learns);
    VictimsAreKeeps(now, b, learns);
    assert moves == moves[..k + 1] + since;
    MovedByBoth(u, moves[..k + 1], since);
    KeepsShrinkOver(passed, since);
    var all := since + [CommitMove(b, learns)];
    if passed.loaded && CommitsFrom(all, PassedAt(passed)) {
      assert all[|since|].b.now >= PassedAt(passed);
      assert forall j :: 0 <= j < |since| ==> since[j] == all[j];
      forall m | m in SpokenIn(since) + MacsIn(learns)
        ensures m !in Victims(now, b, learns)
      {
        if m in SpokenIn(since) {
          SpokenStaysAwake(passed, since, m);
          AwakeIsNoVictim(now, b, learns, m);
        } else {
          SpeakerIsNoVictim(now, b, learns, m);
        }
      }
    }
  }

  lemma SpeakerIsNoVictim(u: P.Uplink, b: Moment, learns: seq<Learnt>, m: Mac)
    requires u.loaded && m in MacsIn(learns) && PassedAt(u) <= b.now
    ensures m !in Victims(u, b, learns)
  {
    JustLearntIsNoVictim(u, b, learns, m);
  }

  // ----- stamps

  /**
   * A step turns a stamp back exactly where a pass could not take the address out, forgot it for
   * that, saw it learnt all the same, and carries a stamp below the forgotten one.
   */
  lemma TurnsBackExactly(u: P.Uplink, move: UplinkMove, m: Mac)
    requires m in u.ports && m in Moved(u, move).ports
    ensures Moved(u, move).ports[m].at < u.ports[m].at <==>
            && move.PassMove? && move.g.passAt < u.ports[m].at
            && var w := P.Pressed(u, move.g, P.WantedWith(u, move.g, move.vf));
               m in P.Stale(u, move.g, w) - P.Dropped(u, move.g, w)
  {
    hide Released, P.After, AfterCommit, P.WantedWith, P.Pressed, P.Stale, P.Dropped;
    match move
    case PassMove(g, vf) =>
      PassTurnsBackExactly(u, g, P.WantedWith(u, g, vf), m);
    case ReflectMove(b, reflected) =>
    case CommitMove(b, learns) =>
      CommitStampsForward(u, b, learns, m);
    case StampMove(b, learns) =>
    case DateMove(mac, spoke) =>
    case LoadMove(t, lines, now) =>
  }

  lemma PassTurnsBackExactly(u: P.Uplink, g: P.Given, w0: P.Wanted, m: Mac)
    requires m in u.ports && m in P.After(u, g, w0).ports
    ensures var w := P.Pressed(u, g, w0);
            P.After(u, g, w0).ports[m].at < u.ports[m].at <==>
            m in P.Stale(u, g, w) - P.Dropped(u, g, w) && g.passAt < u.ports[m].at
  {
    hide Released, P.ListAfter, P.NoteMerged, P.Owned, P.Stale, P.Dropped, P.Occupied, P.Shed;
    var w := P.Pressed(u, g, w0);
    var failed := P.Stale(u, g, w) - P.Dropped(u, g, w);
    var rest: Memory := map x | x in u.ports && x !in failed :: u.ports[x];
    assert P.After(u, g, w0).ports == P.MemoryAfter(u, g, w);
    assert m in rest <==> m !in failed;
    if g.readable {
      assert P.MemoryAfter(u, g, w)[m] == P.SeenAll(rest, w.learntAt, g.passAt)[m];
    }
  }

  lemma CommitStampsForward(u: P.Uplink, b: Moment, learns: seq<Learnt>, m: Mac)
    requires m in u.ports && m in AfterCommit(u, b, learns).ports
    ensures u.ports[m].at <= AfterCommit(u, b, learns).ports[m].at
  {
    hide Victims, LearntOn, MacsIn, OnCardNow;
  }

  /** An excluded address of ours, learnt behind the bridge; the card will not let it go. */
  /** A bridge over a guest's port and over a card's function. */
  function StuckReading(): Topology {
    var bridge := Link("br", 1, None, None, [2, 3], None, true, None, 0, [], [], [], [2, 3]);
    var guest := Link("tap", 2, None, Some(1), [], None, false, None, 0, [], [], [1], []);
    var card := Link("nic", 3, None, Some(1), [], None, false, None, 4, [], [], [1], []);
    Topology(map[1 := bridge, 2 := guest, 3 := card], map["br" := 1, "tap" := 2, "nic" := 3])
  }

  ghost function StuckGiven(m: Mac): P.Given {
    P.Given(Config({m}, {}), StuckReading(), Anatomy(3, 1, 3, 3, {3}, {}), 128, 5,
            [FdbEntry(2, Some(1), m, 0, 0)], true, (x, add) => O.Refused, false, false, false, false)
  }

  /** The pair of that reading is what the pass is given. */
  lemma StuckResolves(m: Mac)
    ensures Resolved(StuckReading(), Pair("nic", "br")) == Some(StuckGiven(m).a)
  {
    hide Topology.BridgeAboveOf, Topology.FunctionsOf, Topology.IsSiblingOf, Topology.FunctionsBehind;
    var t := StuckReading();
    StuckPort();
    StuckFunctions();
    assert t.SiblingsOf(3, 1, 3, {3}) == {} by {
      StuckSiblings();
    }
  }

  lemma StuckPort()
    ensures StuckReading().BridgeAboveOf(3) == Some((1, 3))
  {
    var t := StuckReading();
    assert t.IsPath(Masters, [3]) && t.NoBridgeAfterFirst([3]);
    assert t.EntersBridge(3, 1, 3);
  }

  lemma StuckFunctions()
    ensures StuckReading().CarrierOf(3, {}) == 3 && StuckReading().FunctionsOf(3) == {3}
    ensures StuckReading().CarrierOf(2, {}) == 2 && StuckReading().FunctionsOf(2) == {}
  {
    hide Topology.Reaches;
    var t := StuckReading();
    OnlyItself(t, 3);
    OnlyItself(t, 2);
    assert t.Successors(Descent, 3) == [] && t.Successors(Descent, 2) == [];
    t.ReachesItself(Descent, 3);
    assert t.OwnFunctions(3) == [3] && t.OwnFunctions(2) == [];
    assert 3 in t.FunctionsOf(3);
    assert t.FunctionsOf(3) == {3} && t.FunctionsOf(2) == {};
  }

  lemma StuckSiblings()
    ensures forall i :: !StuckReading().IsSiblingOf(i, 3, 1, 3, {3})
  {
    hide Topology.ReachOf, Topology.FunctionsOf;
    StuckFunctions();
  }

  /** Where the descent ends at once, it has met nothing else. */
  lemma OnlyItself(t: Topology, i: Index)
    ensures t.Successors(Descent, i) == [] ==> forall x :: t.Reaches(Descent, i, x) <==> x == i
  {
    t.ReachesItself(Descent, i);
    if t.Successors(Descent, i) == [] {
      assert t.IsClosed(Descent, {i});
      forall x | t.Reaches(Descent, i, x)
        ensures x == i
      {
        t.ClosedHoldsReachable(Descent, {i}, i, x);
      }
    }
  }

  /** An excluded address of ours, learnt behind the bridge; the card will not let it go. */
  lemma FailedRemovalTurnsBack(m: Mac)
    requires IsUnicast(m)
    ensures Resolved(StuckGiven(m).t, Pair("nic", "br")) == Some(StuckGiven(m).a)
    ensures var u := P.Uplink({m}, {m}, map[m := Sighting(2, 10)], true, None);
            var u' := Moved(u, PassMove(StuckGiven(m), {}));
            m in u'.ports && u'.ports[m].at == 5
  {
    hide Released, P.Occupied, P.Shed, SelfList, PortLives, Wards, MacsOf, ForbiddenInterfaces, Topology.Reaches, Resolved,
         Topology.Assembled;
    StuckResolves(m);
    var u := P.Uplink({m}, {m}, map[m := Sighting(2, 10)], true, None);
    var g := StuckGiven(m);
    var e := FdbEntry(2, Some(1), m, 0, 0);
    assert IsInnerLearn(g.t, g.a, e) && e in g.fdb;
    assert m in Exclusions(g.cfg, g.t, g.a, {});
    var w0 := P.WantedWith(u, g, {});
    P.WantedIsSplit(u, g, {});
    assert m !in w0.want && m in w0.learntAt;
    var w := P.Pressed(u, g, w0);
    assert m in P.Stale(u, g, w) - P.Dropped(u, g, w);
    StuckIsSeenAnew(u, g, w, m);
  }

  lemma StuckIsSeenAnew(u: P.Uplink, g: P.Given, w: P.Wanted, m: Mac)
    requires g.readable && m in P.Stale(u, g, w) - P.Dropped(u, g, w) && m in w.learntAt
    ensures m in P.MemoryAfter(u, g, w) && P.MemoryAfter(u, g, w)[m].at == g.passAt
  {
    hide P.Stale, P.Dropped, P.Put;
    assert m in P.Stale(u, g, w) ==> m in P.OwnedBefore(u, g) + P.Put(g, w) by {
      StaleIsOwned(u, g, w);
    }
  }

  lemma StaleIsOwned(u: P.Uplink, g: P.Given, w: P.Wanted)
    ensures P.Stale(u, g, w) <= P.OwnedBefore(u, g) + P.Put(g, w)
  {
    hide P.Put, P.OwnedBefore;
  }

  // ----- stamps under one clock

  /** What the machine's clock reads, and the stamp of the last pass. */
  datatype Clock = Clock(now: Stamp, last: Stamp)

  function Horizon(c: Clock): Stamp {
    if c.now < c.last then c.last else c.now
  }

  /** How a step reads the clock: passes stamp themselves strictly after the one before. */
  predicate Reads(c: Clock, move: UplinkMove, d: Clock) {
    && c.now <= d.now
    && match move
       case PassMove(g, _) => g.passAt == P.NextPassAt(c.last, d.now) && d.last == g.passAt
       case ReflectMove(b, _) => b.now == d.now && d.last == c.last
       case CommitMove(b, _) => b.now == d.now && d.last == c.last
       case StampMove(b, _) => b.now == d.now && d.last == c.last
       case DateMove(_, spoke) => spoke <= d.now && d.last == c.last
       case LoadMove(_, _, now) => now == d.now && d.last == c.last
  }

  predicate IsClocked(moves: seq<UplinkMove>, clocks: seq<Clock>) {
    |clocks| == |moves| + 1 && forall k :: 0 <= k < |moves| ==> Reads(clocks[k], moves[k], clocks[k + 1])
  }

  /** No stamp lies ahead of both the clock and the last pass. */
  predicate Bounded(u: P.Uplink, c: Clock) {
    forall m :: m in u.ports ==> u.ports[m].at <= Horizon(c)
  }

  lemma StaysBounded(u: P.Uplink, move: UplinkMove, c: Clock, d: Clock)
    requires Bounded(u, c) && Reads(c, move, d)
    ensures Bounded(Moved(u, move), d)
  {
    hide Released, P.After, P.WantedWith, AfterCommit, AfterReflection;
    match move
    case PassMove(g, vf) =>
      PassStaysBounded(u, g, P.WantedWith(u, g, vf), c, d);
    case ReflectMove(b, reflected) =>
      ReflectionForgets(u, b, reflected);
    case CommitMove(b, learns) =>
      CommitStaysBounded(u, b, learns, Horizon(d));
    case StampMove(b, learns) =>
    case DateMove(mac, spoke) =>
    case LoadMove(t, lines, now) =>
      TakenOverIsPast(Believed(t, lines), now);
  }

  lemma ReflectionForgets(u: P.Uplink, b: Moment, reflected: set<Mac>)
    ensures forall m :: m in AfterReflection(u, b, reflected).ports ==>
              m in u.ports && AfterReflection(u, b, reflected).ports[m] == u.ports[m]
  {
    hide TakenBy, LetGoBy;
  }

  lemma CommitStaysBounded(u: P.Uplink, b: Moment, learns: seq<Learnt>, horizon: Stamp)
    requires b.now <= horizon && forall m :: m in u.ports ==> u.ports[m].at <= horizon
    ensures forall m :: m in AfterCommit(u, b, learns).ports ==> AfterCommit(u, b, learns).ports[m].at <= horizon
  {
    hide Victims, LetGoBy, TakenBy, OnCardNow, NoteBehind, PutBy, LearntOn;
  }

  lemma PassStaysBounded(u: P.Uplink, g: P.Given, w0: P.Wanted, c: Clock, d: Clock)
    requires Bounded(u, c) && c.now <= d.now && g.passAt == P.NextPassAt(c.last, d.now) && d.last == g.passAt
    ensures Bounded(P.After(u, g, w0), d)
  {
    hide Released, P.ListAfter, P.NoteMerged, P.Owned, P.Stale, P.Dropped, P.Occupied, P.Shed;
    var w := P.Pressed(u, g, w0);
    assert P.After(u, g, w0).ports == P.MemoryAfter(u, g, w);
  }

  lemma {:induction false} RunStaysBounded(u: P.Uplink, moves: seq<UplinkMove>, clocks: seq<Clock>)
    requires IsClocked(moves, clocks) && Bounded(u, clocks[0])
    ensures Bounded(MovedBy(u, moves), clocks[|moves|])
  {
    hide Bounded, Reads, Moved;
    if moves != [] {
      var init := moves[..|moves| - 1];
      RunStaysBounded(u, init, clocks[..|moves|]);
      StaysBounded(MovedBy(u, init), moves[|moves| - 1], clocks[|moves| - 1], clocks[|moves|]);
    }
  }

  /** Remembered at every moment from one to another. */
  ghost predicate RememberedThrough(u: P.Uplink, moves: seq<UplinkMove>, i: nat, j: nat, m: Mac) {
    forall k :: i <= k <= j <= |moves| ==> m in MovedBy(u, moves[..k]).ports
  }

  /**
   * Under one clock no run turns a stamp back while its address stays remembered: every stamp
   * is at most the clock's or the last pass's, and the next pass's is above both.
   */
  lemma {:induction false} StampsMoveForward(
    u: P.Uplink, moves: seq<UplinkMove>, clocks: seq<Clock>, i: nat, j: nat, m: Mac)
    requires IsClocked(moves, clocks) && Bounded(u, clocks[0])
    requires i <= j <= |moves| && RememberedThrough(u, moves, i, j, m)
    ensures m in MovedBy(u, moves[..i]).ports && m in MovedBy(u, moves[..j]).ports
    ensures MovedBy(u, moves[..i]).ports[m].at <= MovedBy(u, moves[..j]).ports[m].at
    decreases j
  {
    hide Moved, Bounded;
    if i < j {
      StampsMoveForward(u, moves, clocks, i, j - 1, m);
      var before, move := MovedBy(u, moves[..j - 1]), moves[j - 1];
      assert moves[..j][..j - 1] == moves[..j - 1];
      RunStaysBounded(u, moves[..j - 1], clocks[..j]);
      TurnsBackExactly(before, move, m);
      BoundedMeans(before, clocks[j - 1], m);
      assert Reads(clocks[j - 1], move, clocks[j - 1 + 1]);
    }
  }

  lemma BoundedMeans(u: P.Uplink, c: Clock, m: Mac)
    requires Bounded(u, c) && m in u.ports
    ensures u.ports[m].at <= Horizon(c)
  {
  }

  // ----- the syncer's steps are such runs

  /** What a pass does to a pair that is up: the memory taken over once, and the pass. */
  lemma PassIsARun(s: Syncer, p: Pair, u: P.Uplink, u': P.Uplink, t: Topology, fdb: seq<FdbEntry>, clock: Stamp,
                   passAt: Stamp, says: Driver, pfs: set<Index>, carried: Option<VfAnswer>, h: Host)
    requires Resolved(t, p).Some? && s.PairPassed(p, u, u', t, fdb, clock, passAt, says, pfs, carried, h)
    requires h.worn != Waits
    ensures exists vf ::
              u' == MovedBy(s.Begun(u, h), [LoadMove(t, h.lines, clock),
                                PassMove(s.GivenFor(t, Resolved(t, p).value, fdb, passAt, h), vf)])
  {
    hide Resolved, TakenOver, P.After, P.WantedWith, P.ToAdd, P.Pressed;
    var g := s.GivenFor(t, Resolved(t, p).value, fdb, passAt, h);
    var loaded := TakenOver(s.Begun(u, h), t, h.lines, clock);
    var vf :| u' == P.After(loaded, g, P.WantedWith(loaded, g, vf));
    TwoMoves(s.Begun(u, h), LoadMove(t, h.lines, clock), PassMove(g, vf));
  }

  lemma TwoMoves(u: P.Uplink, a: UplinkMove, b: UplinkMove)
    ensures MovedBy(u, [a, b]) == Moved(Moved(u, a), b)
    ensures MovedBy(u, [a]) == Moved(u, a)
  {
    hide Moved;
    assert [a, b][..1] == [a] && [a][..0] == [];
    assert MovedBy(u, []) == u;
  }

  ghost function DatesOf(t: Topology, p: Pair, dels: seq<FdbEntry>, now: Stamp): seq<UplinkMove> {
    if dels == [] then []
    else
      var e := dels[|dels| - 1];
      DatesOf(t, p, dels[..|dels| - 1], now) +
      if Dates(t, p, e) then [DateMove(e.mac, Spoke(t, e, now))] else []
  }

  lemma {:induction false} DatedIsARun(u: P.Uplink, t: Topology, p: Pair, dels: seq<FdbEntry>, now: Stamp)
    ensures Dated(u, t, p, dels, now) == MovedBy(u, DatesOf(t, p, dels, now)) && NoPass(DatesOf(t, p, dels, now))
  {
    hide Topology.Reaches, AfterDating;
    if dels != [] {
      var init, e := dels[..|dels| - 1], dels[|dels| - 1];
      DatedIsARun(u, t, p, init, now);
      if Dates(t, p, e) {
        MovedByBoth(u, DatesOf(t, p, init, now), [DateMove(e.mac, Spoke(t, e, now))]);
        TwoMoves(MovedBy(u, DatesOf(t, p, init, now)), DateMove(e.mac, Spoke(t, e, now)), DateMove(e.mac, 0));
      } else {
        assert DatesOf(t, p, dels, now) == DatesOf(t, p, init, now) + [] == DatesOf(t, p, init, now);
      }
    }
  }

  /** What a batch does to a pair: deletions date, reflections go, learns are committed; no pass among it. */
  lemma BatchIsARun(s: Syncer, p: Pair, fp: FastPair, u: P.Uplink, u': P.Uplink, t: Topology, events: seq<Notice>,
                    now: Stamp, h: Host, vf: VfAnswer, asked: set<Index>)
    requires PairAnswered(s, p, fp, u, u', t, events, now, h, vf, asked)
    ensures exists learns ::
              var b := MomentFor(s, fp.a, now, h);
              var moves := DatesOf(t, p, DelOnes(events), now) + [ReflectMove(b, fp.reflected), CommitMove(b, learns)];
              u' == MovedBy(u, moves) && NoPass(moves)
  {
    hide Resolved, Dated, AfterReflection, AfterCommit, Commits, MomentFor, ReflectedBy, Exclusions, MacsIn, DatesOf;
    var b := MomentFor(s, fp.a, now, h);
    var dels := DelOnes(events);
    var u1 := AfterReflection(Dated(u, t, p, dels, now), b, fp.reflected);
    var learns := Commits(t, fp, u1, NewOnes(events));
    var tail := [ReflectMove(b, fp.reflected), CommitMove(b, learns)];
    DatedIsARun(u, t, p, dels, now);
    MovedByBoth(u, DatesOf(t, p, dels, now), tail);
    TwoMoves(Dated(u, t, p, dels, now), tail[0], tail[1]);
    assert u' == MovedBy(u, DatesOf(t, p, dels, now) + tail);
  }

  /** And what a batch that was cut short does to one: dated, reflected and stamped at most, or all of it. */
  lemma HaltedIsARun(s: Syncer, p: Pair, u: P.Uplink, u': P.Uplink, t: Topology, events: seq<Notice>, now: Stamp,
                     h: Host, vf: VfAnswer, asked: set<Index>)
    requires PairHalted(s, p, u, u', t, events, now, h, vf, asked)
    ensures exists moves :: u' == MovedBy(u, moves) && NoPass(moves)
  {
    hide Resolved, Dated, PairAnswered, ReflectedAtMost, DatesOf;
    var dates := DatesOf(t, p, DelOnes(events), now);
    var dated := Dated(u, t, p, DelOnes(events), now);
    DatedIsARun(u, t, p, DelOnes(events), now);
    if u' == dated {
      assert u' == MovedBy(u, dates) && NoPass(dates);
    } else if Resolved(t, p).Some? && ReflectedAtMost(s, p, Resolved(t, p).value, dated, u', t, events, now, h, vf) {
      ReflectedIsARun(s, p, Resolved(t, p).value, u, dated, u', dates, t, events, now, h, vf);
    } else {
      var fp :| PairAnswered(s, p, fp, u, u', t, events, now, h, vf, asked);
      BatchIsARun(s, p, fp, u, u', t, events, now, h, vf, asked);
    }
  }

  lemma ReflectedIsARun(s: Syncer, p: Pair, a: Anatomy, u: P.Uplink, dated: P.Uplink, u': P.Uplink, dates: seq<UplinkMove>,
                        t: Topology, events: seq<Notice>, now: Stamp, h: Host, vf: VfAnswer)
    requires dated == MovedBy(u, dates) && NoPass(dates)
    requires ReflectedAtMost(s, p, a, dated, u', t, events, now, h, vf)
    ensures exists moves :: u' == MovedBy(u, moves) && NoPass(moves)
  {
    hide AfterReflection, AfterStamping, Commits, MomentFor, ReflectedBy, IsFast, MovedBy;
    var b, reflect := MomentFor(s, a, now, h), ReflectMove(MomentFor(s, a, now, h), ReflectedBy(a, NewOnes(events)));
    var reflected := AfterReflection(dated, b, ReflectedBy(a, NewOnes(events)));
    MovedByBoth(u, dates, [reflect]);
    TwoMoves(dated, reflect, reflect);
    if u' == reflected {
      assert u' == MovedBy(u, dates + [reflect]) && NoPass(dates + [reflect]);
    } else {
      var fp :| IsFast(s, p, fp, t, NewOnes(events), vf) && u' == AfterStamping(reflected, b, Commits(t, fp, reflected, NewOnes(events)));
      var stamp := StampMove(b, Commits(t, fp, reflected, NewOnes(events)));
      MovedByBoth(u, dates, [reflect, stamp]);
      TwoMoves(dated, reflect, stamp);
      assert u' == MovedBy(u, dates + [reflect, stamp]) && NoPass(dates + [reflect, stamp]);
    }
  }
}
