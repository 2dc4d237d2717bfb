// Which interface a section reaches (src/sync/mod.rs: `noted_link`, `renamed_target`, `flush`,
// `drop_orphans` and the pairs of passes and batches; src/sync/notes.rs: the index record). A
// note goes by a name, but the entries it lists hang on one interface. Names move; the index
// recorded beside a note tells, where it could be written.

module Identity {
  import opened Basics
  import opened Ownership

  /** The interface the notes' entries are in, or some other. */
  datatype Who = Own | Another

  /**
   * The world of one interface: the name it wears, none once it is gone; the names others wear;
   * and whose index is recorded beside each note.
   */
  datatype Host = Host(w: World, name: Option<Name>, others: set<Name>, records: map<Name, Who>)

  /** No two wear one name, and a gone interface took its list along. */
  predicate Fits(h: Host) {
    (h.name.Some? ==> h.name.value !in h.others) && (h.name.None? ==> h.w.card == {})
  }

  function Wearer(h: Host, dev: Name): Option<Who> {
    if h.name == Some(dev) then Some(Own) else if dev in h.others then Some(Another) else None
  }

  // ----- where the sections aim

  /** This interface, another one, or none: taken for gone. */
  datatype Aim = Here | Astray | Nowhere

  datatype Kind = ByPass | ByBatch | ByFlush | BySweep

  function AimAt(who: Who): Aim {
    if who == Own then Here else Astray
  }

  /** The note is taken to be about who wears its name, unless a record says otherwise. */
  predicate NameStands(h: Host, dev: Name) {
    Wearer(h, dev).Some? && (dev in h.records ==> h.records[dev] == Wearer(h, dev).value)
  }

  /** A flush goes by the name, then by the recorded index, and else takes the interface for gone. */
  predicate FlushMayAim(h: Host, dev: Name, aim: Aim) {
    if NameStands(h, dev) then
      aim == AimAt(Wearer(h, dev).value) || (dev in h.records && aim == Nowhere && h.records[dev] == Another)
    else if dev in h.records then
      if h.records[dev] == Own then aim == (if h.name.Some? then Here else Nowhere) else aim != Here
    else
      aim == Nowhere
  }

  /** So does the sweep, but without a record it takes nothing for gone while the note has names. */
  predicate SweepMayAim(h: Host, dev: Name, aim: Aim) {
    FlushMayAim(h, dev, aim) && (aim == Nowhere ==> dev in h.records || h.w.NoteOf(dev).Names() == {})
  }

  /** A pass goes by the name, and leaves a note alone whose record names another. */
  predicate PassMayAim(h: Host, dev: Name, aim: Aim) {
    NameStands(h, dev) && aim == AimAt(Wearer(h, dev).value)
  }

  /** A batch goes by the name. */
  predicate BatchMayAim(h: Host, dev: Name, aim: Aim) {
    Wearer(h, dev).Some? && aim == AimAt(Wearer(h, dev).value)
  }

  predicate MayAim(h: Host, dev: Name, kind: Kind, aim: Aim) {
    match kind
    case ByPass => PassMayAim(h, dev, aim)
    case ByBatch => BatchMayAim(h, dev, aim)
    case ByFlush => FlushMayAim(h, dev, aim)
    case BySweep => SweepMayAim(h, dev, aim)
  }

  // ----- when they aim right

  /** It reaches the interface the entries are in, or that one is gone and they with it. */
  predicate AimsRight(h: Host, aim: Aim) {
    aim == Here || h.name.None?
  }

  /** What there is to look at before the section: the names worn, and the record. */
  predicate Right(h: Host, dev: Name, kind: Kind) {
    || h.name.None?
    || match kind
       case ByBatch => dev !in h.others
       case ByPass => dev in h.others ==> dev in h.records && h.records[dev] == Own
       case ByFlush => if dev in h.records then h.records[dev] == Own else h.name == Some(dev)
       case BySweep =>
         if dev in h.records then h.records[dev] == Own
         else dev !in h.others && (h.name == Some(dev) || h.w.NoteOf(dev).Names() != {})
  }

  /**
   * A section aims right exactly then: a flush while the record is the interface's own, or there
   * is none and the name is; a sweep, without a record, also while nobody wears the name; a pass
   * unless another wears the name and no record tells; a batch unless another wears it.
   */
  lemma AimsRightExactly(h: Host, dev: Name, kind: Kind)
    requires Fits(h)
    ensures (forall aim :: MayAim(h, dev, kind, aim) ==> AimsRight(h, aim)) <==> Right(h, dev, kind)
  {
    if !Right(h, dev, kind) {
      assert MayAim(h, dev, kind, Astray) || MayAim(h, dev, kind, Nowhere);
    }
  }

  // ----- runs

  datatype HostMove =
    | Section(move: Move, kind: Kind)
    | Stamp(dev: Name)           // the index of who wears the name is recorded; it may never be
    | Forget(dev: Name)          // the record goes
    | Rename(to: Name)
    | Others(names: set<Name>)   // other interfaces come, go and change names
    | Depart

  function AimOf(move: Move): Option<Aim> {
    match move
    case Register(_, _, _, _, _) => Some(Here)
    case Retire(_, _, _, _, _) => Some(Here)
    case RetireAndMerge(_, _, _, _, _, _, _, _) => Some(Here)
    case Flush(_, _, _, _, gone, _) => Some(if gone then Nowhere else Here)
    case RegisterAstray(_, _, _, _, _) => Some(Astray)
    case RetireAstray(_, _, _, _, _) => Some(Astray)
    case FlushAstray(_, _, _, _, _) => Some(Astray)
    case _ => None
  }

  function NoteBehind(move: Move): Name
    requires AimOf(move).Some?
  {
    move.dev
  }

  predicate IsFlush(move: Move) {
    move.Flush? || move.FlushAstray?
  }

  predicate MayHappen(h: Host, m: HostMove) {
    match m
    case Section(move, kind) =>
      && Shaped(h.w, move) && !move.InterfaceGone? && (move.SomebodyPuts? ==> h.name.Some?)
      && (AimOf(move).Some? ==>
            MayAim(h, NoteBehind(move), kind, AimOf(move).value) && (IsFlush(move) <==> kind == ByFlush || kind == BySweep))
    case Stamp(dev) => Wearer(h, dev).Some?
    case Rename(to) => h.name.Some? && to !in h.others
    case Others(names) => h.name.Some? ==> h.name.value !in names
    case _ => true
  }

  function HostStep(h: Host, m: HostMove): Host
    requires MayHappen(h, m)
  {
    match m
    case Section(move, _) => h.(w := Step(h.w, move))
    case Stamp(dev) => h.(records := h.records[dev := Wearer(h, dev).value])
    case Forget(dev) => h.(records := h.records - {dev})
    case Rename(to) => h.(name := Some(to))
    case Others(names) => h.(others := names)
    case Depart => h.(w := Step(h.w, InterfaceGone), name := None)
  }

  /** The four conditions, said of what there is to look at before a step. */
  predicate HostSound(h: Host, m: HostMove) {
    m.Section? ==>
      match m.move
      case Register(_, batch, _, _, _) => NoRepeats(batch)
      case TornAppend(_, _, tail) => tail.None?
      case Merge(_, _, _, _) => false
      case RegisterAstray(_, _, _, _, _) => true
      case _ => AimOf(m.move).Some? ==> Right(h, NoteBehind(m.move), m.kind)
  }

  ghost predicate HostRunSound(h: Host, moves: seq<HostMove>)
    decreases |moves|
  {
    moves == [] ||
    (MayHappen(h, moves[0]) && HostSound(h, moves[0]) && HostRunSound(HostStep(h, moves[0]), moves[1..]))
  }

  function HostRun(h: Host, moves: seq<HostMove>): Host
    requires HostRunSound(h, moves)
    decreases |moves|
  {
    if moves == [] then h else HostRun(HostStep(h, moves[0]), moves[1..])
  }

  lemma HostStepKeeps(h: Host, m: HostMove)
    requires Inv(h.w) && Fits(h) && MayHappen(h, m) && HostSound(h, m)
    ensures Inv(HostStep(h, m).w) && Fits(HostStep(h, m))
  {
    hide Inv, Step, Shaped, Right, MayAim;
    match m
    case Section(move, kind) =>
      if AimOf(move).Some? && !move.Register? && !move.RegisterAstray? {
        AimsRightExactly(h, NoteBehind(move), kind);
        assert AimsRight(h, AimOf(move).value);
      }
      assert Sound(h.w, move);
      StepKeeps(h.w, move);
      if h.name.None? {
        NothingIsPut(h, move, kind);
      }
    case Depart =>
      GoneIsEmpty(h.w);
      StepKeeps(h.w, InterfaceGone);
    case _ =>
  }

  lemma GoneIsEmpty(w: World)
    ensures Shaped(w, InterfaceGone) && Step(w, InterfaceGone).card == {}
  {
  }

  /** Nobody registers into a gone interface's list; what aims here needs a name to aim by. */
  lemma NothingIsPut(h: Host, move: Move, kind: Kind)
    requires Fits(h) && h.name.None? && MayHappen(h, Section(move, kind))
    ensures Step(h.w, move).card == {}
  {
    hide Perform, RegisterWrites, RetireWrites, MergeWrites, FlushWrites, MigrateWrites, AstrayRegisterWrites,
         AstrayRetireWrites, AstrayFlushWrites;
    var w := h.w;
    match move
    case Merge(dev, before, after, fails) =>
      NotesPutNothing(w, dev, before, after, fails);
      CardShrinks(w, MergeWrites(w, dev, before, after, fails));
    case Flush(dev, order, answers, fails, gone, stop) =>
      FlushWritesPutNothing(w, dev, order, answers, fails, gone);
      CardShrinks(w, Upto(FlushWrites(w, dev, order, answers, fails, gone), stop));
    case RegisterAstray(dev, batch, answers, unnoteFails, stop) =>
      AstrayWritesPutNothing(w, dev, batch, answers, unnoteFails);
      CardShrinks(w, Upto(AstrayRegisterWrites(w, dev, batch, answers, unnoteFails), stop));
    case RetireAstray(dev, macs, answers, settleFails, stop) =>
      AstrayWritesPutNothing(w, dev, macs, answers, settleFails);
      CardShrinks(w, Upto(AstrayRetireWrites(w, dev, macs, answers, settleFails), stop));
    case FlushAstray(dev, order, answers, fails, stop) =>
      AstrayWritesPutNothing(w, dev, order, answers, fails);
      CardShrinks(w, Upto(AstrayFlushWrites(w, dev, order, answers, fails), stop));
    case Migrate(was, now, order, stop) =>
      MigrateWritesPutNothing(w, was, now, order);
      CardShrinks(w, Upto(MigrateWrites(w, was, now, order), stop));
    case _ =>
  }

  predicate PutsNothing(writes: seq<Write>) {
    forall k :: 0 <= k < |writes| ==> !writes[k].Put?
  }

  lemma {:induction false} CardShrinks(w: World, writes: seq<Write>)
    requires PutsNothing(writes)
    ensures Perform(w, writes).card <= w.card
    decreases |writes|
  {
    if writes != [] {
      CardShrinks(Effect(w, writes[0]), writes[1..]);
    }
  }

  lemma NotesPutNothing(w: World, dev: Name, before: set<Mac>, after: set<Mac>, fails: bool)
    ensures PutsNothing(MergeWrites(w, dev, before, after, fails))
  {
  }

  lemma FlushWritesPutNothing(w: World, dev: Name, order: seq<Mac>, answers: seq<Answer>, fails: bool, gone: bool)
    requires |order| == |answers|
    ensures PutsNothing(FlushWrites(w, dev, order, answers, fails, gone))
  {
  }

  lemma MigrateWritesPutNothing(w: World, was: Name, now: Name, order: seq<Mac>)
    ensures PutsNothing(MigrateWrites(w, was, now, order))
  {
  }

  lemma AstrayWritesPutNothing(w: World, dev: Name, macs: seq<Mac>, answers: seq<Answer>, fails: bool)
    requires |macs| == |answers|
    ensures PutsNothing(AstrayRegisterWrites(w, dev, macs, answers, fails))
    ensures PutsNothing(AstrayRetireWrites(w, dev, macs, answers, fails))
    ensures PutsNothing(AstrayFlushWrites(w, dev, macs, answers, fails))
  {
  }

  /** Whatever names do meanwhile, no run under the four conditions leaves an entry of ours unnamed. */
  lemma {:induction false} NoHostRunOrphans(h: Host, moves: seq<HostMove>)
    requires Inv(h.w) && Fits(h) && HostRunSound(h, moves)
    ensures Inv(HostRun(h, moves).w) && Fits(HostRun(h, moves))
    decreases |moves|
  {
    hide Inv, Fits, MayHappen, HostSound, HostStep;
    if moves != [] {
      HostStepKeeps(h, moves[0]);
      NoHostRunOrphans(HostStep(h, moves[0]), moves[1..]);
    }
  }

  // ----- where they do not

  /** Registered under a record that could not be written, renamed, and flushed as gone. */
  lemma UnrecordedRenameOrphans(dev: Name, to: Name, a: Mac)
    requires dev != to
    ensures var h0 := Host(World(map[dev := Note({}, None)], {}, {}), Some(dev), {}, map[]);
            var register := Section(Register(dev, [a], [Ok], false, 9), ByPass);
            var flush := Section(Flush(dev, [a], [Ok], false, true, 9), ByFlush);
            && Fits(h0) && Inv(h0.w) && MayHappen(h0, register)
            && var h1 := HostStep(h0, register);
               var h2 := HostStep(h1, Rename(to));
               && MayHappen(h2, flush)
               && var h3 := HostStep(h2, flush);
                  a in h3.w.card && a in h3.w.ours && !Named(h3.w, a)
  {
    hide RegisterWrites;
    var w0 := World(map[dev := Note({}, None)], {}, {});
    RegisterOne(w0, dev, a);
    var w1 := World(map[dev := Note({a}, None)], {a}, {a});
    assert Elements([a]) == w1.NoteOf(dev).Names();
    OneWrite(w1, Unlink(dev));
    assert Upto([Unlink(dev)], 9) == [Unlink(dev)];
  }

  /** Registered and recorded, renamed, the name taken by another; a batch asks that one, and believes it. */
  lemma ReusedNameOrphans(dev: Name, to: Name, a: Mac)
    requires dev != to
    ensures var h0 := Host(World(map[dev := Note({a}, None)], {a}, {a}), Some(dev), {}, map[]);
            var retire := Section(RetireAstray(dev, [a], [Absent], false, 9), ByBatch);
            && Fits(h0) && Inv(h0.w)
            && var h3 := HostStep(HostStep(HostStep(h0, Stamp(dev)), Rename(to)), Others({dev}));
               && MayHappen(h3, retire)
               && var h4 := HostStep(h3, retire);
                  a in h4.w.card && a in h4.w.ours && !Named(h4.w, a)
  {
    hide AstrayRetireWrites;
    var w := World(map[dev := Note({a}, None)], {a}, {a});
    assert a in w.notes[dev].Names();
    StruckOff(w, dev, a);
    OneWrite(w, Rewrite(dev, {}));
    assert Upto([Rewrite(dev, {})], 9) == [Rewrite(dev, {})];
  }

  lemma StruckOff(w: World, dev: Name, a: Mac)
    requires w.NoteOf(dev) == Note({a}, None)
    ensures AstrayRetireWrites(w, dev, [a], [Absent], false) == [Rewrite(dev, {})]
  {
    OneAnswered(a, Absent);
    hide Answered;
    assert Elements(Dropped([a], [Absent])) == {a};
  }
}
