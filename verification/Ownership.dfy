// Who put what into the card (src/sync/notes.rs, and `register_batch_locked`, `retire`, `flush`
// and the rename in src/sync/mod.rs).
//
// One interface's list, and the notes under the names the interface has worn. A locked section
// is a list of writes; a crash performs a prefix of it. Note first on an addition, card first
// on a removal, and no run of such sections leaves an entry of ours that no note names.

module Ownership {
  import opened Basics

  type Name = string

  /** A note as it reads: its finished lines, and a torn last line that is a whole address. */
  datatype Note = Note(lines: set<Mac>, tail: Option<Mac>) {
    function Names(): set<Mac> {
      lines + if tail.Some? then {tail.value} else {}
    }
  }

  const EMPTY := Note({}, None)

  /** `ours` is history, not state: what this program put into the list and is still there. */
  datatype World = World(notes: map<Name, Note>, card: set<Mac>, ours: set<Mac>) {
    function NoteOf(dev: Name): Note {
      if dev in notes then notes[dev] else EMPTY
    }
  }

  /** The kernel's answer to one write into the list. */
  datatype Answer = Ok | Exists | Absent | Refused

  datatype Write =
    | Append(dev: Name, missing: seq<Mac>)  // cuts a torn tail, adds finished lines
    | Rewrite(dev: Name, macs: set<Mac>)    // a whole new file, renamed into place
    | Unlink(dev: Name)
    | Put(mac: Mac)
    | Gone(mac: Mac)                        // taken out, or found to be absent

  function Elements(ms: seq<Mac>): set<Mac> {
    set m | m in ms
  }

  function Effect(w: World, write: Write): World {
    match write
    case Append(dev, missing) =>
      w.(notes := w.notes[dev := Note(w.NoteOf(dev).lines + Elements(missing), None)])
    case Rewrite(dev, macs) =>
      w.(notes := w.notes[dev := Note(macs, None)])
    case Unlink(dev) =>
      w.(notes := w.notes - {dev})
    case Put(mac) =>
      w.(card := w.card + {mac}, ours := w.ours + {mac})
    case Gone(mac) =>
      w.(card := w.card - {mac}, ours := w.ours - {mac})
  }

  function Perform(w: World, writes: seq<Write>): World
    decreases |writes|
  {
    if writes == [] then w else Perform(Effect(w, writes[0]), writes[1..])
  }

  lemma {:induction false} PerformBoth(w: World, a: seq<Write>, b: seq<Write>)
    ensures Perform(w, a + b) == Perform(Perform(w, a), b)
    decreases |a|
  {
    if a == [] {
      assert a + b == b;
    } else {
      assert (a + b)[1..] == a[1..] + b;
      PerformBoth(Effect(w, a[0]), a[1..], b);
    }
  }

  // ----- the sections

  function Missing(note: Note, batch: seq<Mac>): (r: seq<Mac>)
    ensures forall m :: m in r <==> m in batch && m !in note.Names()
  {
    if batch == [] then []
    else
      Missing(note, batch[..|batch| - 1]) +
      if batch[|batch| - 1] in note.Names() then [] else [batch[|batch| - 1]]
  }

  /** The addresses of a list whose answer is one of those asked for, in order. */
  function Answered(ms: seq<Mac>, answers: seq<Answer>, which: set<Answer>): (r: seq<Mac>)
    requires |ms| == |answers|
    ensures forall m :: m in r <==> exists k :: 0 <= k < |ms| && ms[k] == m && answers[k] in which
  {
    if ms == [] then []
    else
      var n := |ms| - 1;
      Answered(ms[..n], answers[..n], which) + if answers[n] in which then [ms[n]] else []
  }

  function Puts(ms: seq<Mac>): (r: seq<Write>)
    ensures |r| == |ms| && forall k :: 0 <= k < |ms| ==> r[k] == Put(ms[k])
  {
    seq(|ms|, k requires 0 <= k < |ms| => Put(ms[k]))
  }

  function Gones(ms: seq<Mac>): (r: seq<Write>)
    ensures |r| == |ms| && forall k :: 0 <= k < |ms| ==> r[k] == Gone(ms[k])
  {
    seq(|ms|, k requires 0 <= k < |ms| => Gone(ms[k]))
  }

  function AppendIfAny(dev: Name, missing: seq<Mac>): seq<Write> {
    if missing == [] then [] else [Append(dev, missing)]
  }

  /** A rewrite that would change nothing is not made, and one may fail. */
  function RewriteIfNew(dev: Name, now: set<Mac>, macs: set<Mac>, fails: bool): seq<Write> {
    if fails || now == macs then [] else [Rewrite(dev, macs)]
  }

  /** The note after the intents of a batch are down. */
  function Intended(note: Note, batch: seq<Mac>): Note {
    if Missing(note, batch) == [] then note else Note(note.lines + Elements(Missing(note, batch)), None)
  }

  /** Fresh intents the card refused as somebody else's entries. */
  function Unclaimed(note: Note, batch: seq<Mac>, answers: seq<Answer>): set<Mac>
    requires |batch| == |answers|
  {
    Elements(Answered(batch, answers, {Exists})) * Elements(Missing(note, batch))
  }

  /** The intents, the entries, and the refused intents withdrawn, in that order. */
  function RegisterWrites(w: World, dev: Name, batch: seq<Mac>, answers: seq<Answer>, unnoteFails: bool): seq<Write>
    requires |batch| == |answers|
  {
    var note := w.NoteOf(dev);
    var intended := Intended(note, batch).Names();
    AppendIfAny(dev, Missing(note, batch)) +
    Puts(Answered(batch, answers, {Ok})) +
    RewriteIfNew(dev, intended, intended - Unclaimed(note, batch, answers), unnoteFails)
  }

  function Dropped(macs: seq<Mac>, answers: seq<Answer>): seq<Mac>
    requires |macs| == |answers|
  {
    Answered(macs, answers, {Ok, Absent})
  }

  /** The removals, and only then the note without those that are out. */
  function RetireWrites(w: World, dev: Name, macs: seq<Mac>, answers: seq<Answer>, settleFails: bool): seq<Write>
    requires |macs| == |answers|
  {
    var names := w.NoteOf(dev).Names();
    var dropped := Dropped(macs, answers);
    Gones(dropped) + RewriteIfNew(dev, names, names - Elements(dropped), settleFails)
  }

  /** The difference a pass made, against whatever the note says by now. */
  function MergeWrites(w: World, dev: Name, before: set<Mac>, after: set<Mac>, fails: bool): seq<Write> {
    var names := w.NoteOf(dev).Names();
    RewriteIfNew(dev, names, names + (after - before) - (before - after), fails)
  }

  /** Everything the note names comes out; what would not stays on record. A gone interface took its list along. */
  function FlushWrites(w: World, dev: Name, order: seq<Mac>, answers: seq<Answer>, fails: bool, gone: bool): seq<Write>
    requires |order| == |answers|
  {
    if gone then [Unlink(dev)]
    else
      var names := w.NoteOf(dev).Names();
      var kept := names - Elements(Dropped(order, answers));
      Gones(Dropped(order, answers)) + if kept == {} then [Unlink(dev)] else RewriteIfNew(dev, names, kept, fails)
  }

  /**
   * The same three sections when the name is worn by another interface by now: what they ask for
   * goes into that one's list, and only what they make of the note is left of them here.
   */
  function AstrayRegisterWrites(w: World, dev: Name, batch: seq<Mac>, answers: seq<Answer>, unnoteFails: bool): seq<Write>
    requires |batch| == |answers|
  {
    var note := w.NoteOf(dev);
    var intended := Intended(note, batch).Names();
    AppendIfAny(dev, Missing(note, batch)) +
    RewriteIfNew(dev, intended, intended - Unclaimed(note, batch, answers), unnoteFails)
  }

  function AstrayRetireWrites(w: World, dev: Name, macs: seq<Mac>, answers: seq<Answer>, settleFails: bool): seq<Write>
    requires |macs| == |answers|
  {
    var names := w.NoteOf(dev).Names();
    RewriteIfNew(dev, names, names - Elements(Dropped(macs, answers)), settleFails)
  }

  function AstrayFlushWrites(w: World, dev: Name, order: seq<Mac>, answers: seq<Answer>, fails: bool): seq<Write>
    requires |order| == |answers|
  {
    var names := w.NoteOf(dev).Names();
    var kept := names - Elements(Dropped(order, answers));
    if kept == {} then [Unlink(dev)] else RewriteIfNew(dev, names, kept, fails)
  }

  /** The note of a renamed interface: appended under the new name before the old is unlinked. */
  function MigrateWrites(w: World, was: Name, now: Name, order: seq<Mac>): seq<Write> {
    if was == now then []
    else AppendIfAny(now, Missing(w.NoteOf(now), order)) + [Unlink(was)]
  }

  // ----- runs

  /** One step of the world; `stop` is how many writes were made before a crash, if one came. */
  datatype Move =
    | Register(dev: Name, batch: seq<Mac>, answers: seq<Answer>, unnoteFails: bool, stop: nat)
    | TornAppend(dev: Name, written: seq<Mac>, tail: Option<Mac>)
    | Retire(dev: Name, macs: seq<Mac>, answers: seq<Answer>, settleFails: bool, stop: nat)
    // a pass: retire what is stale, and in a second section merge the difference it made
    | RetireAndMerge(dev: Name, macs: seq<Mac>, answers: seq<Answer>, settleFails: bool,
                     before: set<Mac>, put: set<Mac>, mergeFails: bool, stop: nat)
    | Merge(dev: Name, before: set<Mac>, after: set<Mac>, fails: bool)
    | Flush(dev: Name, order: seq<Mac>, answers: seq<Answer>, fails: bool, gone: bool, stop: nat)
    | RegisterAstray(dev: Name, batch: seq<Mac>, answers: seq<Answer>, unnoteFails: bool, stop: nat)
    | RetireAstray(dev: Name, macs: seq<Mac>, answers: seq<Answer>, settleFails: bool, stop: nat)
    | FlushAstray(dev: Name, order: seq<Mac>, answers: seq<Answer>, fails: bool, stop: nat)
    | Migrate(was: Name, now: Name, order: seq<Mac>, stop: nat)
    | SomebodyPuts(mac: Mac)
    | SomebodyTakes(mac: Mac)
    | InterfaceGone

  function Upto(writes: seq<Write>, stop: nat): seq<Write> {
    if stop < |writes| then writes[..stop] else writes
  }

  function MergedAfter(before: set<Mac>, put: set<Mac>, dropped: seq<Mac>): set<Mac> {
    before + put - Elements(dropped)
  }

  /** What the move asks of its arguments, as the code supplies them. */
  predicate Shaped(w: World, move: Move) {
    match move
    case Register(_, batch, answers, _, _) => |batch| == |answers|
    case Retire(_, macs, answers, _, _) => |macs| == |answers|
    case RetireAndMerge(_, macs, answers, _, _, _, _, _) => |macs| == |answers|
    case Flush(dev, order, answers, _, _, _) => |order| == |answers| && Elements(order) == w.NoteOf(dev).Names()
    case RegisterAstray(_, batch, answers, _, _) => |batch| == |answers|
    case RetireAstray(_, macs, answers, _, _) => |macs| == |answers|
    case FlushAstray(dev, order, answers, _, _) => |order| == |answers| && Elements(order) == w.NoteOf(dev).Names()
    case Migrate(was, _, order, _) => Elements(order) == w.NoteOf(was).Names()
    case _ => true
  }

  function PassWrites(w: World, move: Move): seq<Write>
    requires move.RetireAndMerge? && |move.macs| == |move.answers|
  {
    var retire := RetireWrites(w, move.dev, move.macs, move.answers, move.settleFails);
    retire +
    MergeWrites(Perform(w, retire), move.dev, move.before,
                MergedAfter(move.before, move.put, Dropped(move.macs, move.answers)), move.mergeFails)
  }

  function Step(w: World, move: Move): World
    requires Shaped(w, move)
  {
    match move
    case Register(dev, batch, answers, unnoteFails, stop) =>
      Perform(w, Upto(RegisterWrites(w, dev, batch, answers, unnoteFails), stop))
    case TornAppend(dev, written, tail) =>
      w.(notes := w.notes[dev := Note(w.NoteOf(dev).lines + Elements(written), tail)])
    case Retire(dev, macs, answers, settleFails, stop) =>
      Perform(w, Upto(RetireWrites(w, dev, macs, answers, settleFails), stop))
    case RetireAndMerge(_, _, _, _, _, _, _, stop) =>
      Perform(w, Upto(PassWrites(w, move), stop))
    case Merge(dev, before, after, fails) =>
      Perform(w, MergeWrites(w, dev, before, after, fails))
    case Flush(dev, order, answers, fails, gone, stop) =>
      Perform(w, Upto(FlushWrites(w, dev, order, answers, fails, gone), stop))
    case RegisterAstray(dev, batch, answers, unnoteFails, stop) =>
      Perform(w, Upto(AstrayRegisterWrites(w, dev, batch, answers, unnoteFails), stop))
    case RetireAstray(dev, macs, answers, settleFails, stop) =>
      Perform(w, Upto(AstrayRetireWrites(w, dev, macs, answers, settleFails), stop))
    case FlushAstray(dev, order, answers, fails, stop) =>
      Perform(w, Upto(AstrayFlushWrites(w, dev, order, answers, fails), stop))
    case Migrate(was, now, order, stop) =>
      Perform(w, Upto(MigrateWrites(w, was, now, order), stop))
    case SomebodyPuts(mac) =>
      w.(card := w.card + {mac})
    case SomebodyTakes(mac) =>
      w.(card := w.card - {mac}, ours := w.ours - {mac})
    case InterfaceGone =>
      w.(card := {}, ours := {})
  }

  // ----- the invariant

  ghost predicate Named(w: World, mac: Mac) {
    exists dev :: dev in w.notes && mac in w.notes[dev].Names()
  }

  /** Every entry this program put in and that is still there is named by a note. */
  ghost predicate NoOrphan(w: World) {
    w.ours <= w.card && forall m :: m in w.ours ==> Named(w, m)
  }

  predicate NoTail(w: World) {
    forall dev :: dev in w.notes ==> w.notes[dev].tail.None?
  }

  ghost predicate Inv(w: World) {
    NoOrphan(w) && NoTail(w)
  }

  /** Each address comes once. */
  predicate NoRepeats(ms: seq<Mac>) {
    forall j, k :: 0 <= j < k < |ms| ==> ms[j] != ms[k]
  }

  /**
   * The four conditions the protocol leans on: a batch without repeats, a torn write that is no
   * whole address, a merge with nobody between it and its own retirement, and a removal that
   * reaches the interface the note is about, or comes when that one took its list along.
   */
  predicate Sound(w: World, move: Move) {
    match move
    case Register(_, batch, _, _, _) => NoRepeats(batch)
    case TornAppend(_, _, tail) => tail.None?
    case Merge(_, _, _, _) => false
    case Flush(_, _, _, _, gone, _) => gone ==> w.card == {}
    case RetireAstray(_, _, _, _, _) => w.card == {}
    case FlushAstray(_, _, _, _, _) => w.card == {}
    case _ => true
  }

  /** A write that keeps every entry of ours on record. */
  ghost predicate Safe(w: World, write: Write) {
    match write
    case Put(mac) => Named(w, mac)
    case Gone(_) => true
    case Append(_, _) => true
    case Rewrite(dev, macs) =>
      forall m :: m in w.ours && m in w.NoteOf(dev).Names() && m !in macs ==> Named(Effect(w, write), m)
    case Unlink(dev) =>
      forall m :: m in w.ours && m in w.NoteOf(dev).Names() ==> Named(Effect(w, write), m)
  }

  lemma SafeWriteKeeps(w: World, write: Write)
    requires Inv(w) && Safe(w, write)
    ensures Inv(Effect(w, write))
  {
    var w' := Effect(w, write);
    forall m | m in w'.ours
      ensures Named(w', m)
    {
      if !write.Put? || m != write.mac {
        assert m in w.ours;
      }
      var dev :| dev in w.notes && m in w.notes[dev].Names();
      if write.Append? || write.Rewrite? || write.Unlink? {
        if dev != write.dev {
          assert dev in w'.notes && w'.notes[dev] == w.notes[dev];
        } else if write.Append? {
          assert m in w'.notes[dev].Names();
        } else if write.Rewrite? && m in write.macs {
          assert m in w'.notes[dev].Names();
        }
      } else {
        assert dev in w'.notes;
      }
    }
  }

  /** Safe all the way: every write is safe where it is made. */
  ghost predicate AllSafe(w: World, writes: seq<Write>)
    decreases |writes|
  {
    writes == [] || (Safe(w, writes[0]) && AllSafe(Effect(w, writes[0]), writes[1..]))
  }

  /** Then wherever a crash cuts them off, nothing is lost. */
  lemma {:induction false} EveryPrefixKeeps(w: World, writes: seq<Write>, stop: nat)
    requires Inv(w) && AllSafe(w, writes)
    ensures Inv(Perform(w, Upto(writes, stop)))
    decreases |writes|
  {
    if writes != [] && stop != 0 {
      SafeWriteKeeps(w, writes[0]);
      EveryPrefixKeeps(Effect(w, writes[0]), writes[1..], stop - 1);
      assert Upto(writes, stop)[1..] == Upto(writes[1..], stop - 1);
    }
  }

  lemma {:induction false} AllSafeBoth(w: World, a: seq<Write>, b: seq<Write>)
    requires AllSafe(w, a) && AllSafe(Perform(w, a), b)
    ensures AllSafe(w, a + b)
    decreases |a|
  {
    if a == [] {
      assert a + b == b;
    } else {
      assert (a + b)[1..] == a[1..] + b;
      AllSafeBoth(Effect(w, a[0]), a[1..], b);
    }
  }

  // ----- the sections are safe

  lemma {:induction false} PutsAreSafe(w: World, ms: seq<Mac>)
    requires forall m :: m in ms ==> Named(w, m)
    ensures AllSafe(w, Puts(ms))
    ensures Perform(w, Puts(ms)) == w.(card := w.card + Elements(ms), ours := w.ours + Elements(ms))
    decreases |ms|
  {
    if ms == [] {
    } else {
      var w' := Effect(w, Put(ms[0]));
      forall m | m in ms[1..]
        ensures Named(w', m)
      {
        assert m in ms;
        var dev :| dev in w.notes && m in w.notes[dev].Names();
        assert dev in w'.notes;
      }
      PutsAreSafe(w', ms[1..]);
      assert Puts(ms)[1..] == Puts(ms[1..]);
      assert Elements(ms) == {ms[0]} + Elements(ms[1..]);
    }
  }

  lemma {:induction false} GonesAreSafe(w: World, ms: seq<Mac>)
    ensures AllSafe(w, Gones(ms))
    ensures Perform(w, Gones(ms)) == w.(card := w.card - Elements(ms), ours := w.ours - Elements(ms))
    decreases |ms|
  {
    if ms == [] {
    } else {
      GonesAreSafe(Effect(w, Gone(ms[0])), ms[1..]);
      assert Gones(ms)[1..] == Gones(ms[1..]);
      assert Elements(ms) == {ms[0]} + Elements(ms[1..]);
    }
  }

  lemma AppendLeaves(w: World, dev: Name, batch: seq<Mac>)
    requires Inv(w)
    ensures var writes := AppendIfAny(dev, Missing(w.NoteOf(dev), batch));
            var w' := Perform(w, writes);
            && AllSafe(w, writes) && Inv(w')
            && w'.card == w.card && w'.ours == w.ours
            && w'.NoteOf(dev) == Intended(w.NoteOf(dev), batch)
            && (forall m :: m in batch ==> m in w'.NoteOf(dev).Names())
            && (forall d :: d != dev ==> (d in w'.notes <==> d in w.notes) && w'.NoteOf(d) == w.NoteOf(d))
  {
    var missing := Missing(w.NoteOf(dev), batch);
    var writes := AppendIfAny(dev, missing);
    if missing != [] {
      SafeWriteKeeps(w, Append(dev, missing));
      assert writes[1..] == [];
      assert Perform(w, writes) == Effect(w, Append(dev, missing));
      assert w.NoteOf(dev).tail.None?;
    }
  }

  lemma OneWrite(w: World, write: Write)
    ensures Perform(w, [write]) == Effect(w, write)
    ensures AllSafe(w, [write]) <==> Safe(w, write)
  {
    assert [write][1..] == [];
  }

  /** An intent taken back although the same batch got it in is lost, unless named elsewhere. */
  ghost predicate NothingClaimedTwice(w: World, dev: Name, batch: seq<Mac>, answers: seq<Answer>)
    requires |batch| == |answers|
  {
    forall m :: m in Answered(batch, answers, {Ok}) && m in Unclaimed(w.NoteOf(dev), batch, answers) ==> Named(w, m)
  }

  lemma RegisterIsSafe(w: World, dev: Name, batch: seq<Mac>, answers: seq<Answer>, unnoteFails: bool)
    requires Inv(w) && |batch| == |answers| && NothingClaimedTwice(w, dev, batch, answers)
    ensures AllSafe(w, RegisterWrites(w, dev, batch, answers, unnoteFails))
  {
    var note := w.NoteOf(dev);
    var accepted := Answered(batch, answers, {Ok});
    var a, b := AppendIfAny(dev, Missing(note, batch)), Puts(accepted);
    var intended, unclaimed := Intended(note, batch).Names(), Unclaimed(note, batch, answers);
    var c := RewriteIfNew(dev, intended, intended - unclaimed, unnoteFails);
    AppendLeaves(w, dev, batch);
    var w1 := Perform(w, a);
    forall m | m in accepted
      ensures Named(w1, m)
    {
      NamedByNote(w1, dev, m);
    }
    PutsAreSafe(w1, accepted);
    var w2 := Perform(w1, b);
    forall m | m in w2.ours && m in unclaimed
      ensures exists d :: d != dev && d in w2.notes && m in w2.notes[d].Names()
    {
      assert Named(w, m);
      var d :| d in w.notes && m in w.notes[d].Names();
      assert d != dev;
      assert w2.NoteOf(d) == w.NoteOf(d);
    }
    if c != [] {
      OneWrite(w2, Rewrite(dev, intended - unclaimed));
      RewriteIsSafe(w2, dev, intended - unclaimed);
    }
    AllSafeBoth(w1, b, c);
    AllSafeBoth(w, a, b + c);
    assert a + b + c == a + (b + c);
  }

  lemma NoRepeatsClaimOnce(w: World, dev: Name, batch: seq<Mac>, answers: seq<Answer>)
    requires |batch| == |answers| && NoRepeats(batch)
    ensures NothingClaimedTwice(w, dev, batch, answers)
  {
  }

  lemma NamedByNote(w: World, dev: Name, m: Mac)
    requires m in w.NoteOf(dev).Names()
    ensures Named(w, m)
  {
  }

  /** A rewrite is safe when each entry of ours it drops is on another note. */
  lemma RewriteIsSafe(w: World, dev: Name, macs: set<Mac>)
    requires forall m :: m in w.ours && m in w.NoteOf(dev).Names() && m !in macs ==>
               exists d :: d != dev && d in w.notes && m in w.notes[d].Names()
    ensures Safe(w, Rewrite(dev, macs))
  {
    var w' := Effect(w, Rewrite(dev, macs));
    forall m | m in w.ours && m in w.NoteOf(dev).Names() && m !in macs
      ensures Named(w', m)
    {
      var d :| d != dev && d in w.notes && m in w.notes[d].Names();
      assert d in w'.notes && m in w'.notes[d].Names();
    }
  }

  lemma RewriteAllSafe(w: World, dev: Name, now: set<Mac>, macs: set<Mac>, fails: bool)
    requires now == w.NoteOf(dev).Names() && forall m :: m in w.ours && m in now ==> m in macs
    ensures AllSafe(w, RewriteIfNew(dev, now, macs, fails))
  {
    OneWrite(w, Rewrite(dev, macs));
    RewriteIsSafe(w, dev, macs);
  }

  lemma RetireIsSafe(w: World, dev: Name, macs: seq<Mac>, answers: seq<Answer>, settleFails: bool)
    requires Inv(w) && |macs| == |answers|
    ensures var writes := RetireWrites(w, dev, macs, answers, settleFails);
            && AllSafe(w, writes)
            && Perform(w, writes).ours == w.ours - Elements(Dropped(macs, answers))
  {
    var names, dropped := w.NoteOf(dev).Names(), Dropped(macs, answers);
    GonesAreSafe(w, dropped);
    var w1 := Perform(w, Gones(dropped));
    var c := RewriteIfNew(dev, names, names - Elements(dropped), settleFails);
    RewriteAllSafe(w1, dev, names, names - Elements(dropped), settleFails);
    AllSafeBoth(w, Gones(dropped), c);
    PerformBoth(w, Gones(dropped), c);
    OneWrite(w1, Rewrite(dev, names - Elements(dropped)));
  }

  lemma PassIsSafe(w: World, move: Move)
    requires Inv(w) && move.RetireAndMerge? && Shaped(w, move)
    ensures AllSafe(w, PassWrites(w, move))
  {
    var dropped := Dropped(move.macs, move.answers);
    var retire := RetireWrites(w, move.dev, move.macs, move.answers, move.settleFails);
    RetireIsSafe(w, move.dev, move.macs, move.answers, move.settleFails);
    var w1 := Perform(w, retire);
    var names := w1.NoteOf(move.dev).Names();
    var after := MergedAfter(move.before, move.put, dropped);
    RewriteAllSafe(w1, move.dev, names, names + (after - move.before) - (move.before - after), move.mergeFails);
    AllSafeBoth(w, retire, MergeWrites(w1, move.dev, move.before, after, move.mergeFails));
  }

  /** Every entry of ours among these is on another note as well. */
  ghost predicate Elsewhere(w: World, dev: Name, macs: set<Mac>) {
    forall m :: m in w.ours && m in macs ==> NamedElsewhere(w, dev, m)
  }

  ghost predicate NamedElsewhere(w: World, dev: Name, m: Mac) {
    exists d :: d != dev && d in w.notes && m in w.notes[d].Names()
  }

  /** Striking names off a note is safe exactly when what is ours of them stands elsewhere. */
  lemma StrikingIsSafeExactly(w: World, dev: Name, macs: set<Mac>)
    ensures Safe(w, Rewrite(dev, macs)) <==> Elsewhere(w, dev, w.NoteOf(dev).Names() - macs)
    ensures Safe(w, Unlink(dev)) <==> Elsewhere(w, dev, w.NoteOf(dev).Names())
  {
    var rewritten, unlinked := Effect(w, Rewrite(dev, macs)), Effect(w, Unlink(dev));
    forall m
      ensures m !in macs ==> (Named(rewritten, m) <==> NamedElsewhere(w, dev, m))
      ensures Named(unlinked, m) <==> NamedElsewhere(w, dev, m)
    {
      if d :| d != dev && d in w.notes && m in w.notes[d].Names() {
        NamedByNote(rewritten, d, m);
        NamedByNote(unlinked, d, m);
      }
    }
  }

  /** A flush is safe exactly when it does not take for gone what keeps an entry of ours. */
  lemma FlushIsSafe(w: World, dev: Name, order: seq<Mac>, answers: seq<Answer>, fails: bool, gone: bool)
    requires Inv(w) && |order| == |answers|
    ensures AllSafe(w, FlushWrites(w, dev, order, answers, fails, gone)) <==>
            gone ==> Elsewhere(w, dev, w.NoteOf(dev).Names())
  {
    if gone {
      OneWrite(w, Unlink(dev));
      StrikingIsSafeExactly(w, dev, {});
      return;
    }
    var names, dropped := w.NoteOf(dev).Names(), Dropped(order, answers);
    var kept := names - Elements(dropped);
    GonesAreSafe(w, dropped);
    var w1 := Perform(w, Gones(dropped));
    if kept == {} {
      OneWrite(w1, Unlink(dev));
      assert forall m :: m in w1.ours && m in names ==> m in kept;
      AllSafeBoth(w, Gones(dropped), [Unlink(dev)]);
    } else {
      RewriteAllSafe(w1, dev, names, kept, fails);
      AllSafeBoth(w, Gones(dropped), RewriteIfNew(dev, names, kept, fails));
    }
  }

  lemma MigrateIsSafe(w: World, was: Name, now: Name, order: seq<Mac>)
    requires Inv(w) && Elements(order) == w.NoteOf(was).Names()
    ensures AllSafe(w, MigrateWrites(w, was, now, order))
  {
    if was != now {
      AppendLeaves(w, now, order);
      var a := AppendIfAny(now, Missing(w.NoteOf(now), order));
      var w1 := Perform(w, a);
      OneWrite(w1, Unlink(was));
      forall m | m in w1.ours && m in w1.NoteOf(was).Names()
        ensures Named(Effect(w1, Unlink(was)), m)
      {
        assert m in Elements(order);
        NamedByNote(Effect(w1, Unlink(was)), now, m);
      }
      AllSafeBoth(w, a, [Unlink(was)]);
    }
  }

  // ----- every run

  /** A removal that went astray is safe exactly when what it strikes off stands elsewhere. */
  lemma RetireAstrayIsSafe(w: World, dev: Name, macs: seq<Mac>, answers: seq<Answer>, settleFails: bool)
    requires |macs| == |answers|
    ensures AllSafe(w, AstrayRetireWrites(w, dev, macs, answers, settleFails)) <==>
            settleFails || Elsewhere(w, dev, w.NoteOf(dev).Names() * Elements(Dropped(macs, answers)))
  {
    var names, dropped := w.NoteOf(dev).Names(), Elements(Dropped(macs, answers));
    assert names - (names - dropped) == names * dropped;
    OneWrite(w, Rewrite(dev, names - dropped));
    StrikingIsSafeExactly(w, dev, names - dropped);
    if names - dropped == names {
      assert names * dropped == {};
    }
  }

  lemma FlushAstrayIsSafe(w: World, dev: Name, order: seq<Mac>, answers: seq<Answer>, fails: bool)
    requires |order| == |answers|
    ensures var names, dropped := w.NoteOf(dev).Names(), Elements(Dropped(order, answers));
            AllSafe(w, AstrayFlushWrites(w, dev, order, answers, fails)) <==>
            (fails && !(names <= dropped)) || Elsewhere(w, dev, names * dropped)
  {
    var names, dropped := w.NoteOf(dev).Names(), Elements(Dropped(order, answers));
    assert names - dropped == {} <==> names <= dropped;
    if names <= dropped {
      assert names * dropped == names;
      OneWrite(w, Unlink(dev));
      StrikingIsSafeExactly(w, dev, {});
    } else {
      RetireAstrayIsSafe(w, dev, order, answers, fails);
    }
  }

  /** Registering into another interface's list loses nothing of this one's. */
  lemma RegisterAstrayIsSafe(w: World, dev: Name, batch: seq<Mac>, answers: seq<Answer>, unnoteFails: bool)
    requires Inv(w) && |batch| == |answers|
    ensures AllSafe(w, AstrayRegisterWrites(w, dev, batch, answers, unnoteFails))
  {
    hide Answered, Missing;
    var note := w.NoteOf(dev);
    var a := AppendIfAny(dev, Missing(note, batch));
    var intended, unclaimed := Intended(note, batch).Names(), Unclaimed(note, batch, answers);
    AppendLeaves(w, dev, batch);
    var w1 := Perform(w, a);
    forall m | m in w1.ours && m in intended && m !in intended - unclaimed
      ensures NamedElsewhere(w1, dev, m)
    {
      assert Named(w, m);
      var d :| d in w.notes && m in w.notes[d].Names();
      assert d != dev;
      assert w1.NoteOf(d) == w.NoteOf(d);
    }
    StrikingIsSafeExactly(w1, dev, intended - unclaimed);
    OneWrite(w1, Rewrite(dev, intended - unclaimed));
    AllSafeBoth(w, a, RewriteIfNew(dev, intended, intended - unclaimed, unnoteFails));
  }

  /** A whole list of writes keeps the invariant exactly when each of them is safe, if one write is all it makes. */
  lemma OneWriteKeepsExactly(w: World, write: Write)
    requires Inv(w) && (write.Rewrite? || write.Unlink?)
    ensures Inv(Effect(w, write)) <==> Safe(w, write)
  {
    if Safe(w, write) {
      SafeWriteKeeps(w, write);
    }
  }

  /** Taken for gone while it lives, an interface loses its entries' record exactly where no other note has them. */
  lemma GoneFlushKeepsExactly(w: World, dev: Name, order: seq<Mac>, answers: seq<Answer>, fails: bool)
    requires Inv(w) && |order| == |answers|
    ensures Inv(Perform(w, FlushWrites(w, dev, order, answers, fails, true))) <==>
            Elsewhere(w, dev, w.NoteOf(dev).Names())
  {
    OneWrite(w, Unlink(dev));
    OneWriteKeepsExactly(w, Unlink(dev));
    StrikingIsSafeExactly(w, dev, {});
  }

  /** And so does one whose name another wears, where that other's answers strike them off. */
  lemma AstrayKeepsExactly(w: World, dev: Name, macs: seq<Mac>, answers: seq<Answer>)
    requires Inv(w) && |macs| == |answers|
    ensures var struck := w.NoteOf(dev).Names() * Elements(Dropped(macs, answers));
            && (Inv(Perform(w, AstrayRetireWrites(w, dev, macs, answers, false))) <==> Elsewhere(w, dev, struck))
            && (Inv(Perform(w, AstrayFlushWrites(w, dev, macs, answers, false))) <==> Elsewhere(w, dev, struck))
  {
    hide Inv, Safe, Elsewhere, Effect, Dropped;
    var names, dropped := w.NoteOf(dev).Names(), Elements(Dropped(macs, answers));
    RetireAstrayIsSafe(w, dev, macs, answers, false);
    FlushAstrayIsSafe(w, dev, macs, answers, false);
    OneWrite(w, Unlink(dev));
    OneWrite(w, Rewrite(dev, names - dropped));
    OneWriteKeepsExactly(w, Unlink(dev));
    OneWriteKeepsExactly(w, Rewrite(dev, names - dropped));
  }

  lemma StepKeeps(w: World, move: Move)
    requires Inv(w) && Shaped(w, move) && Sound(w, move)
    ensures Inv(Step(w, move))
  {
    hide AstrayRegisterWrites, AstrayRetireWrites, AstrayFlushWrites, FlushWrites, RegisterWrites, RetireWrites, PassWrites,
         MigrateWrites;
    match move
    case Register(dev, batch, answers, unnoteFails, stop) =>
      NoRepeatsClaimOnce(w, dev, batch, answers);
      RegisterIsSafe(w, dev, batch, answers, unnoteFails);
      EveryPrefixKeeps(w, RegisterWrites(w, dev, batch, answers, unnoteFails), stop);
    case TornAppend(dev, written, tail) =>
      SafeWriteKeeps(w, Append(dev, written));
    case Retire(dev, macs, answers, settleFails, stop) =>
      RetireIsSafe(w, dev, macs, answers, settleFails);
      EveryPrefixKeeps(w, RetireWrites(w, dev, macs, answers, settleFails), stop);
    case RetireAndMerge(_, _, _, _, _, _, _, stop) =>
      PassIsSafe(w, move);
      EveryPrefixKeeps(w, PassWrites(w, move), stop);
    case Flush(dev, order, answers, fails, gone, stop) =>
      FlushIsSafe(w, dev, order, answers, fails, gone);
      EveryPrefixKeeps(w, FlushWrites(w, dev, order, answers, fails, gone), stop);
    case RegisterAstray(dev, batch, answers, unnoteFails, stop) =>
      RegisterAstrayIsSafe(w, dev, batch, answers, unnoteFails);
      EveryPrefixKeeps(w, AstrayRegisterWrites(w, dev, batch, answers, unnoteFails), stop);
    case RetireAstray(dev, macs, answers, settleFails, stop) =>
      RetireAstrayIsSafe(w, dev, macs, answers, settleFails);
      EveryPrefixKeeps(w, AstrayRetireWrites(w, dev, macs, answers, settleFails), stop);
    case FlushAstray(dev, order, answers, fails, stop) =>
      FlushAstrayIsSafe(w, dev, order, answers, fails);
      EveryPrefixKeeps(w, AstrayFlushWrites(w, dev, order, answers, fails), stop);
    case Migrate(was, now, order, stop) =>
      MigrateIsSafe(w, was, now, order);
      EveryPrefixKeeps(w, MigrateWrites(w, was, now, order), stop);
    case SomebodyPuts(mac) =>
      assert forall m :: Named(w, m) ==> Named(Step(w, move), m);
    case SomebodyTakes(mac) =>
      SafeWriteKeeps(w, Gone(mac));
    case InterfaceGone =>
  }

  /** A run: any moves, by any processes, each cut short wherever a crash came. */
  ghost predicate SoundRun(w: World, moves: seq<Move>)
    decreases |moves|
  {
    moves == [] ||
    (Shaped(w, moves[0]) && Sound(w, moves[0]) && SoundRun(Step(w, moves[0]), moves[1..]))
  }

  function Run(w: World, moves: seq<Move>): World
    requires SoundRun(w, moves)
    decreases |moves|
  {
    if moves == [] then w else Run(Step(w, moves[0]), moves[1..])
  }

  /** No run under the four conditions leaves an entry of ours that no note names. */
  lemma {:induction false} NoRunOrphans(w: World, moves: seq<Move>)
    requires Inv(w) && SoundRun(w, moves)
    ensures Inv(Run(w, moves))
    decreases |moves|
  {
    if moves != [] {
      StepKeeps(w, moves[0]);
      NoRunOrphans(Step(w, moves[0]), moves[1..]);
    }
  }

  // ----- the conditions, exactly

  /** The kernel does not lie: it takes what is not there and refuses what is. */
  ghost predicate Truthful(card: set<Mac>, batch: seq<Mac>, answers: seq<Answer>)
    requires |batch| == |answers|
  {
    forall k :: 0 <= k < |batch| ==>
      && (answers[k] == Ok ==> batch[k] !in card && !TakenBefore(batch, answers, k))
      && (answers[k] == Exists ==> batch[k] in card || TakenBefore(batch, answers, k))
  }

  ghost predicate TakenBefore(batch: seq<Mac>, answers: seq<Answer>, k: nat)
    requires |batch| == |answers| && k < |batch|
  {
    exists j :: 0 <= j < k && batch[j] == batch[k] && answers[j] == Ok
  }

  /** Whatever the kernel answers and wherever a crash comes, nothing of ours is lost. */
  ghost predicate AlwaysKeeps(w: World, dev: Name, batch: seq<Mac>) {
    forall answers, unnoteFails, stop: nat ::
      |answers| == |batch| && Truthful(w.card, batch, answers) ==>
        Inv(Perform(w, Upto(RegisterWrites(w, dev, batch, answers, unnoteFails), stop)))
  }

  /** Only what a note names or the card already holds may come twice. */
  ghost predicate RepeatsAreKnown(w: World, batch: seq<Mac>) {
    forall j, k :: 0 <= j < k < |batch| && batch[j] == batch[k] ==> Named(w, batch[j]) || batch[j] in w.card
  }

  /** A batch is safe exactly when it repeats nothing new. */
  lemma RegisterKeepsExactly(w: World, dev: Name, batch: seq<Mac>)
    requires Inv(w)
    ensures AlwaysKeeps(w, dev, batch) <==> RepeatsAreKnown(w, batch)
  {
    hide AllSafe, Perform, Upto, RegisterWrites;
    if RepeatsAreKnown(w, batch) {
      forall answers, unnoteFails, stop: nat | |answers| == |batch| && Truthful(w.card, batch, answers)
        ensures Inv(Perform(w, Upto(RegisterWrites(w, dev, batch, answers, unnoteFails), stop)))
      {
        KnownRepeatsClaimOnce(w, dev, batch, answers);
        RegisterIsSafe(w, dev, batch, answers, unnoteFails);
        EveryPrefixKeeps(w, RegisterWrites(w, dev, batch, answers, unnoteFails), stop);
      }
    } else {
      var j, k :| 0 <= j < k < |batch| && batch[j] == batch[k] && !Named(w, batch[j]) && batch[j] !in w.card;
      RepeatOrphans(w, dev, batch, j, k);
    }
  }

  lemma KnownRepeatsClaimOnce(w: World, dev: Name, batch: seq<Mac>, answers: seq<Answer>)
    requires |batch| == |answers| && Truthful(w.card, batch, answers) && RepeatsAreKnown(w, batch)
    ensures NothingClaimedTwice(w, dev, batch, answers)
  {
    forall m | m in Answered(batch, answers, {Ok}) && m in Unclaimed(w.NoteOf(dev), batch, answers)
      ensures Named(w, m)
    {
      var j :| 0 <= j < |batch| && batch[j] == m && answers[j] in {Ok};
      var k :| 0 <= k < |batch| && batch[k] == m && answers[k] in {Exists};
      if j < k {
        assert batch[j] == batch[k];
      } else {
        assert batch[k] == batch[j];
      }
    }
  }

  /** What a batch comes to when nothing cuts it short, whether or not the note can be put right. */
  lemma RegisterEnds(w: World, dev: Name, batch: seq<Mac>, answers: seq<Answer>, unnoteFails: bool)
    requires Inv(w) && |batch| == |answers|
    ensures var w' := Perform(w, RegisterWrites(w, dev, batch, answers, unnoteFails));
            var accepted := Elements(Answered(batch, answers, {Ok}));
            && w'.ours == w.ours + accepted && w'.card == w.card + accepted
            && w'.NoteOf(dev).Names() ==
               w.NoteOf(dev).Names() + Elements(batch) -
               (if unnoteFails then {} else Unclaimed(w.NoteOf(dev), batch, answers))
            && (forall d :: d != dev ==> (d in w'.notes <==> d in w.notes) && w'.NoteOf(d) == w.NoteOf(d))
  {
    hide AllSafe, Inv, Missing, Answered, Intended, Unclaimed, AppendIfAny, RewriteIfNew, Named, Note.Names;
    var note := w.NoteOf(dev);
    var accepted := Answered(batch, answers, {Ok});
    var a, b := AppendIfAny(dev, Missing(note, batch)), Puts(accepted);
    var intended, unclaimed := Intended(note, batch).Names(), Unclaimed(note, batch, answers);
    var c := RewriteIfNew(dev, intended, intended - unclaimed, unnoteFails);
    AppendLeaves(w, dev, batch);
    IntendedNames(w, dev, batch);
    var w1 := Perform(w, a);
    forall x | x in accepted
      ensures Named(w1, x)
    {
      NamedByNote(w1, dev, x);
    }
    PutsAreSafe(w1, accepted);
    PerformBoth(w, a, b);
    PerformBoth(w, a + b, c);
    RewriteLeaves(Perform(w1, b), dev, intended, intended - unclaimed, unnoteFails);
  }

  lemma RewriteLeaves(w: World, dev: Name, now: set<Mac>, macs: set<Mac>, fails: bool)
    requires w.NoteOf(dev).Names() == now
    ensures var w' := Perform(w, RewriteIfNew(dev, now, macs, fails));
            && w'.ours == w.ours && w'.card == w.card && w'.NoteOf(dev).Names() == (if fails then now else macs)
            && (forall d :: d != dev ==> (d in w'.notes <==> d in w.notes) && w'.NoteOf(d) == w.NoteOf(d))
  {
    OneWrite(w, Rewrite(dev, macs));
  }

  /** What a removal comes to when nothing cuts it short. */
  lemma RetireEnds(w: World, dev: Name, macs: seq<Mac>, answers: seq<Answer>, settleFails: bool)
    requires |macs| == |answers|
    ensures var w' := Perform(w, RetireWrites(w, dev, macs, answers, settleFails));
            var dropped := Elements(Dropped(macs, answers));
            && w'.ours == w.ours - dropped && w'.card == w.card - dropped
            && w'.NoteOf(dev).Names() == w.NoteOf(dev).Names() - (if settleFails then {} else dropped)
            && (forall d :: d != dev ==> (d in w'.notes <==> d in w.notes) && w'.NoteOf(d) == w.NoteOf(d))
  {
    hide Dropped, Note.Names, RewriteIfNew;
    var names, dropped := w.NoteOf(dev).Names(), Dropped(macs, answers);
    GonesAreSafe(w, dropped);
    PerformBoth(w, Gones(dropped), RewriteIfNew(dev, names, names - Elements(dropped), settleFails));
    RewriteLeaves(Perform(w, Gones(dropped)), dev, names, names - Elements(dropped), settleFails);
  }

  /** What a merge comes to. */
  lemma MergeEnds(w: World, dev: Name, before: set<Mac>, after: set<Mac>, fails: bool)
    ensures var w' := Perform(w, MergeWrites(w, dev, before, after, fails));
            var names := w.NoteOf(dev).Names();
            && w'.ours == w.ours && w'.card == w.card
            && w'.NoteOf(dev).Names() == if fails then names else names + (after - before) - (before - after)
  {
    var names := w.NoteOf(dev).Names();
    RewriteLeaves(w, dev, names, names + (after - before) - (before - after), fails);
  }

  lemma IntendedNames(w: World, dev: Name, batch: seq<Mac>)
    requires Inv(w)
    ensures Intended(w.NoteOf(dev), batch).Names() == w.NoteOf(dev).Names() + Elements(batch)
  {
    var note := w.NoteOf(dev);
    assert note.tail.None?;
    assert forall m :: m in batch ==> m in note.Names() || m in Missing(note, batch);
  }

  /** Taken the first time and refused the second, a new address loses its line. */
  lemma RepeatOrphans(w: World, dev: Name, batch: seq<Mac>, j: nat, k: nat)
    requires Inv(w) && j < k < |batch| && batch[j] == batch[k] && !Named(w, batch[j]) && batch[j] !in w.card
    ensures !AlwaysKeeps(w, dev, batch)
  {
    hide AllSafe, Perform, RegisterWrites, Answered, Missing, Upto;
    var m, note := batch[j], w.NoteOf(dev);
    var answers := TakenThenRefused(|batch|, j, k);
    TakenThenRefusedIsTruthful(w.card, batch, j, k);
    RegisterEnds(w, dev, batch, answers, false);
    var writes := RegisterWrites(w, dev, batch, answers, false);
    var end := Perform(w, writes);
    assert m in w.NoteOf(dev).Names() <==> false by {
      if m in w.NoteOf(dev).Names() {
        NamedByNote(w, dev, m);
      }
    }
    assert m in Answered(batch, answers, {Ok}) && m in Unclaimed(note, batch, answers);
    assert m in end.ours;
    NotNamed(w, end, dev, m);
    WholeList(writes);
    assert !Inv(Perform(w, Upto(writes, |writes|)));
  }

  lemma WholeList(writes: seq<Write>)
    ensures Upto(writes, |writes|) == writes
  {
  }

  lemma NotNamed(w: World, end: World, dev: Name, m: Mac)
    requires !Named(w, m) && m !in end.NoteOf(dev).Names()
    requires forall d :: d != dev ==> (d in end.notes <==> d in w.notes) && end.NoteOf(d) == w.NoteOf(d)
    ensures !Named(end, m)
  {
    if d :| d in end.notes && m in end.notes[d].Names() {
      assert end.NoteOf(d) == end.notes[d];
      NamedByNote(w, d, m);
    }
  }

  function TakenThenRefused(n: nat, j: nat, k: nat): (r: seq<Answer>)
    requires j < k < n
    ensures |r| == n && r[j] == Ok && r[k] == Exists
    ensures forall i :: 0 <= i < n && i != j && i != k ==> r[i] == Refused
  {
    seq(n, i => if i == j then Ok else if i == k then Exists else Refused)
  }

  lemma TakenThenRefusedIsTruthful(card: set<Mac>, batch: seq<Mac>, j: nat, k: nat)
    requires j < k < |batch| && batch[j] == batch[k] && batch[j] !in card
    ensures Truthful(card, batch, TakenThenRefused(|batch|, j, k))
  {
    hide TakenThenRefused;
    assert TakenBefore(batch, TakenThenRefused(|batch|, j, k), k);
  }

  /** An append keeps everything on record exactly when no torn tail alone names one of ours. */
  lemma AppendKeepsExactly(w: World, dev: Name, missing: seq<Mac>)
    requires NoOrphan(w) && forall m :: m in missing ==> m !in w.NoteOf(dev).Names()
    ensures var tail := w.NoteOf(dev).tail;
            NoOrphan(Effect(w, Append(dev, missing))) <==>
            tail.None? || tail.value !in w.ours || tail.value in w.NoteOf(dev).lines ||
            exists d :: d != dev && d in w.notes && tail.value in w.notes[d].Names()
  {
    var w', note := Effect(w, Append(dev, missing)), w.NoteOf(dev);
    assert forall d :: d != dev ==> (d in w'.notes <==> d in w.notes) && w'.NoteOf(d) == w.NoteOf(d);
    assert w'.NoteOf(dev).Names() == note.lines + Elements(missing);
    forall m | m in w.ours && (note.tail.None? || m != note.tail.value || m in note.lines)
      ensures Named(w', m)
    {
      var d :| d in w.notes && m in w.notes[d].Names();
      assert m in w'.NoteOf(d).Names() && d in w'.notes;
    }
    if note.tail.Some? {
      var t := note.tail.value;
      if d :| d != dev && d in w.notes && t in w.notes[d].Names() {
        assert t in w'.notes[d].Names();
      }
    }
  }

  /** A torn whole address counts as noted, so nothing is appended for it; then it is cut. */
  lemma TornAddressOrphans(dev: Name, a: Mac, b: Mac)
    requires a != b
    ensures var w0 := World(map[], {}, {});
            var w1 := Step(w0, TornAppend(dev, [], Some(a)));
            var w2 := Step(w1, Register(dev, [a], [Ok], false, 9));
            var w3 := Step(w2, Register(dev, [b], [Refused], false, 9));
            NoOrphan(w2) && a in w3.ours && !Named(w3, a)
  {
    hide RegisterWrites;
    var w0 := World(map[], {}, {});
    var w1 := World(map[dev := Note({}, Some(a))], {}, {});
    assert Step(w0, TornAppend(dev, [], Some(a))) == w1 by {
      assert w0.NoteOf(dev).lines + Elements([]) == {};
    }
    RegisterNoted(w1, dev, a);
    var w2 := World(map[dev := Note({}, Some(a))], {a}, {a});
    assert w2 == w1.(card := w1.card + {a}, ours := w1.ours + {a});
    assert NoOrphan(w2) by {
      NamedByNote(w2, dev, a);
    }
    RegisterRefused(w2, dev, b);
    assert Effect(w2, Append(dev, [b])) == World(map[dev := Note({b}, None)], {a}, {a}) by {
      assert {} + Elements([b]) == {b};
    }
  }

  /** An address the note already reads costs no append. */
  lemma RegisterNoted(w: World, dev: Name, a: Mac)
    requires a in w.NoteOf(dev).Names()
    ensures Step(w, Register(dev, [a], [Ok], false, 9)) == w.(card := w.card + {a}, ours := w.ours + {a})
  {
    OneMissing(w.NoteOf(dev), a);
    OneAnswered(a, Ok);
    hide Missing, Answered;
    assert RegisterWrites(w, dev, [a], [Ok], false) == [Put(a)];
    OneWrite(w, Put(a));
  }

  lemma RegisterRefused(w: World, dev: Name, b: Mac)
    requires b !in w.NoteOf(dev).Names()
    ensures Step(w, Register(dev, [b], [Refused], false, 9)) == Effect(w, Append(dev, [b]))
  {
    OneMissing(w.NoteOf(dev), b);
    OneAnswered(b, Refused);
    hide Missing, Answered;
    assert RegisterWrites(w, dev, [b], [Refused], false) == [Append(dev, [b])];
    OneWrite(w, Append(dev, [b]));
  }

  /** A merge keeps everything exactly when what it strikes out is not ours, or named elsewhere. */
  lemma MergeKeepsExactly(w: World, dev: Name, before: set<Mac>, after: set<Mac>)
    requires Inv(w)
    ensures Inv(Step(w, Merge(dev, before, after, false))) <==>
            forall m :: m in w.ours && m in before && m !in after ==>
              exists d :: d != dev && d in w.notes && m in w.notes[d].Names()
  {
    var names := w.NoteOf(dev).Names();
    var merged := names + (after - before) - (before - after);
    var w' := Step(w, Merge(dev, before, after, false));
    OneWrite(w, Rewrite(dev, merged));
    assert forall d :: d != dev ==> (d in w'.notes <==> d in w.notes) && w'.NoteOf(d) == w.NoteOf(d);
    assert w'.NoteOf(dev).Names() == merged;
    assert w'.ours == w.ours && w'.card == w.card;
    forall m | m in w.ours && !(m in before && m !in after)
      ensures Named(w', m)
    {
      var d :| d in w.notes && m in w.notes[d].Names();
      assert d == dev ==> m in merged;
      assert m in w'.NoteOf(d).Names() && d in w'.notes;
    }
    forall m | m in w.ours && m in before && m !in after
      ensures Named(w', m) <==> exists d :: d != dev && d in w.notes && m in w.notes[d].Names()
    {
      if d :| d != dev && d in w.notes && m in w.notes[d].Names() {
        assert m in w'.notes[d].Names();
      }
      if d :| d in w'.notes && m in w'.notes[d].Names() {
        assert m in w.NoteOf(d).Names();
      }
    }
  }

  lemma RetireOne(w: World, dev: Name, a: Mac)
    requires w == World(map[dev := Note({a}, None)], {a}, {a})
    ensures Step(w, Retire(dev, [a], [Ok], false, 9)) == World(map[dev := Note({}, None)], {}, {})
  {
    assert [a][..0] == [] && [Ok][..0] == [];
    assert Ok in {Ok, Absent};
    assert Answered([a], [Ok], {Ok, Absent}) == Answered([], [], {Ok, Absent}) + [a];
    assert Dropped([a], [Ok]) == [a] && Elements([a]) == {a};
    assert RetireWrites(w, dev, [a], [Ok], false) == [Gone(a)] + [Rewrite(dev, {})];
    PerformBoth(w, [Gone(a)], [Rewrite(dev, {})]);
    OneWrite(w, Gone(a));
    OneWrite(Effect(w, Gone(a)), Rewrite(dev, {}));
  }

  lemma RegisterOne(w: World, dev: Name, a: Mac)
    requires w == World(map[dev := Note({}, None)], {}, {})
    ensures Step(w, Register(dev, [a], [Ok], false, 9)) == World(map[dev := Note({a}, None)], {a}, {a})
  {
    hide RegisterWrites;
    RegisterOneWrites(w, dev, a);
    var w1 := World(map[dev := Note({a}, None)], {}, {});
    assert Effect(w, Append(dev, [a])) == w1 by {
      assert w.NoteOf(dev).lines + Elements([a]) == {a};
    }
    assert Effect(w1, Put(a)) == World(map[dev := Note({a}, None)], {a}, {a});
    PerformBoth(w, [Append(dev, [a])], [Put(a)]);
    OneWrite(w, Append(dev, [a]));
    OneWrite(w1, Put(a));
  }

  lemma RegisterOneWrites(w: World, dev: Name, a: Mac)
    requires w == World(map[dev := Note({}, None)], {}, {})
    ensures RegisterWrites(w, dev, [a], [Ok], false) == [Append(dev, [a])] + [Put(a)]
  {
    OneMissing(w.NoteOf(dev), a);
    OneAnswered(a, Ok);
    hide Missing, Answered;
    assert Elements([a]) == {a};
  }

  lemma OneMissing(note: Note, a: Mac)
    ensures Missing(note, [a]) == if a in note.Names() then [] else [a]
  {
    assert [a][..0] == [];
  }

  lemma OneAnswered(a: Mac, answer: Answer)
    ensures forall which :: Answered([a], [answer], which) == if answer in which then [a] else []
  {
    assert [a][..0] == [] && [answer][..0] == [];
  }

  /** Retired here, registered again there, and struck out by the late merge. */
  lemma LateMergeOrphans(dev: Name, a: Mac)
    ensures var w0 := World(map[dev := Note({a}, None)], {a}, {a});
            var w1 := Step(w0, Retire(dev, [a], [Ok], false, 9));
            var w2 := Step(w1, Register(dev, [a], [Ok], false, 9));
            var w3 := Step(w2, Merge(dev, {a}, {}, false));
            Inv(w0) && Inv(w2) && a in w3.ours && !Named(w3, a)
  {
    hide RegisterWrites, RetireWrites;
    var w0 := World(map[dev := Note({a}, None)], {a}, {a});
    assert a in w0.notes[dev].Names();
    RetireOne(w0, dev, a);
    RegisterOne(World(map[dev := Note({}, None)], {}, {}), dev, a);
    var writes := MergeWrites(w0, dev, {a}, {}, false);
    assert writes == [Rewrite(dev, {})] by {
      assert w0.NoteOf(dev).Names() == {a} && {a} + ({} - {a}) - ({a} - {}) == {};
    }
    OneWrite(w0, Rewrite(dev, {}));
  }
}
