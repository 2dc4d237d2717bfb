// The ownership protocol and the syncer write the same: what the locked sections come to, write
// by write, is what the pass and the batch are proved about.

module Agreement {
  import opened Basics
  import opened Ownership
  import opened CardWrites
  import P = Pass
  import opened Batch
  import opened BatchWrites

  /** The protocol's world seen from one uplink: its note, and the list it writes into. */
  predicate Shows(w: World, dev: Name, note: set<Mac>, list: set<Mac>) {
    w.NoteOf(dev).Names() == note && w.card == list
  }

  /** The answers the section got are the kernel's to these addresses. */
  predicate Asked(macs: seq<Mac>, answers: seq<Answer>, add: bool, answer: Kernel) {
    |macs| == |answers| && forall k :: 0 <= k < |macs| ==> answers[k] == answer(macs[k], add)
  }

  lemma AnsweredByKernel(macs: seq<Mac>, answers: seq<Answer>, add: bool, answer: Kernel, which: set<Answer>)
    requires Asked(macs, answers, add, answer)
    ensures forall m :: m in Answered(macs, answers, which) <==> m in macs && answer(m, add) in which
  {
    forall m | m in macs && answer(m, add) in which
      ensures m in Answered(macs, answers, which)
    {
      var k :| 0 <= k < |macs| && macs[k] == m;
      assert answers[k] in which;
    }
  }

  /** A registration: note and list as both paths register them. */
  lemma RegisterAgrees(w: World, dev: Name, note: set<Mac>, list: set<Mac>, batch: seq<Mac>, answers: seq<Answer>,
                       unnoteFails: bool, answer: Kernel)
    requires Inv(w) && Shows(w, dev, note, list) && Asked(batch, answers, true, answer)
    ensures Shows(Perform(w, RegisterWrites(w, dev, batch, answers, unnoteFails)), dev,
                  NoteBehind(note, Elements(batch), true, unnoteFails, answer),
                  list + PutBy(Elements(batch), true, answer))
  {
    hide Inv, RegisterWrites, Perform, Answered, Missing, Note.Names;
    RegisterEnds(w, dev, batch, answers, unnoteFails);
    AnsweredByKernel(batch, answers, true, answer, {Ok});
    AnsweredByKernel(batch, answers, true, answer, {Exists});
    assert Elements(Answered(batch, answers, {Ok})) == Accepted(Elements(batch), answer);
    assert Unclaimed(w.NoteOf(dev), batch, answers) == SomebodyElses(note, Elements(batch), answer);
  }

  /** The kernel calls absent only what the list does not hold. */
  predicate AbsentIsAbsent(macs: set<Mac>, list: set<Mac>, answer: Kernel) {
    forall m :: m in macs && answer(m, false) == Absent ==> m !in list
  }

  /** A removal: note and list as both paths retire them. */
  lemma RetireAgrees(w: World, dev: Name, note: set<Mac>, list: set<Mac>, macs: seq<Mac>, answers: seq<Answer>,
                     settleFails: bool, answer: Kernel)
    requires Shows(w, dev, note, list) && Asked(macs, answers, false, answer)
    requires AbsentIsAbsent(Elements(macs), list, answer)
    ensures Elements(Dropped(macs, answers)) == LetGoBy(Elements(macs), answer)
    ensures Shows(Perform(w, RetireWrites(w, dev, macs, answers, settleFails)), dev,
                  if settleFails then note else note - LetGoBy(Elements(macs), answer),
                  list - TakenBy(Elements(macs), answer))
  {
    hide RetireWrites, Perform, Answered, Note.Names;
    RetireEnds(w, dev, macs, answers, settleFails);
    AnsweredByKernel(macs, answers, false, answer, {Ok, Absent});
    assert Elements(Dropped(macs, answers)) == LetGoBy(Elements(macs), answer);
    assert list - LetGoBy(Elements(macs), answer) == list - TakenBy(Elements(macs), answer);
  }

  /** How the sections of one pass ran: what was asked for, in which order, and the kernel's answers. */
  datatype SectionRun = SectionRun(adds: seq<Mac>, added: seq<Answer>, stale: seq<Mac>, taken: seq<Answer>)

  ghost predicate SectionsOf(s: SectionRun, u: P.Uplink, g: P.Given, want: P.Wanted) {
    && Elements(s.adds) == P.ToAdd(g, want) && NoRepeats(s.adds) && Asked(s.adds, s.added, true, g.answer)
    && Elements(s.stale) == P.Stale(u, g, want) && Asked(s.stale, s.taken, false, g.answer)
    && AbsentIsAbsent(P.Stale(u, g, want), u.list + P.Put(g, want), g.answer)
  }

  function RegisterOf(w: World, dev: Name, s: SectionRun, g: P.Given): seq<Write>
    requires |s.adds| == |s.added|
  {
    if g.refuses then [] else RegisterWrites(w, dev, s.adds, s.added, g.unnoteFails)
  }

  ghost function RetireOf(dev: Name, s: SectionRun, u: P.Uplink, g: P.Given, want: P.Wanted): Move {
    RetireAndMerge(dev, s.stale, s.taken, g.settleFails, u.note, P.Put(g, want), g.mergeFails, 0)
  }

  /**
   * A pass with a readable note: its three locked sections leave exactly the note and the list
   * the pass is proved to leave, and keep every entry of ours on record on the way.
   */
  lemma PassAgrees(w: World, dev: Name, s: SectionRun, u: P.Uplink, g: P.Given, want: P.Wanted)
    requires Inv(w) && Shows(w, dev, u.note, u.list) && g.readable && SectionsOf(s, u, g, want)
    ensures var w1 := Perform(w, RegisterOf(w, dev, s, g));
            var w2 := Perform(w1, PassWrites(w1, RetireOf(dev, s, u, g, want)));
            && Inv(w1) && Inv(w2)
            && Shows(w2, dev, P.NoteMerged(u, g, want), P.ListAfter(u, g, want))
  {
    hide Inv, RegisterWrites, RetireWrites, MergeWrites, Perform, P.Stale, P.ToAdd, Elements, Dropped, AllSafe;
    var writes := RegisterOf(w, dev, s, g);
    var w1 := Perform(w, writes);
    RegisteredShows(w, dev, s, u, g, want);
    var retire := RetireWrites(w1, dev, s.stale, s.taken, g.settleFails);
    var note1, list1 := P.NoteRegistered(u, g, want), u.list + P.Put(g, want);
    RetireAgrees(w1, dev, note1, list1, s.stale, s.taken, g.settleFails, g.answer);
    var before, after := u.note, MergedAfter(u.note, P.Put(g, want), Dropped(s.stale, s.taken));
    var w15 := Perform(w1, retire);
    MergeEnds(w15, dev, before, after, g.mergeFails);
    PerformBoth(w1, retire, MergeWrites(w15, dev, before, after, g.mergeFails));
    PassIsSafe(w1, RetireOf(dev, s, u, g, want));
    WholeSectionKeeps(w1, PassWrites(w1, RetireOf(dev, s, u, g, want)));
    assert after == P.Owned(u, g, want);
  }

  lemma RegisteredShows(w: World, dev: Name, s: SectionRun, u: P.Uplink, g: P.Given, want: P.Wanted)
    requires Inv(w) && Shows(w, dev, u.note, u.list) && g.readable && SectionsOf(s, u, g, want)
    ensures var w1 := Perform(w, RegisterOf(w, dev, s, g));
            Inv(w1) && Shows(w1, dev, P.NoteRegistered(u, g, want), u.list + P.Put(g, want))
  {
    hide Inv, RegisterWrites, P.Stale, P.ToAdd, Elements, AllSafe;
    if g.refuses {
      assert u.list + {} == u.list;
    } else {
      RegisterAgrees(w, dev, u.note, u.list, s.adds, s.added, g.unnoteFails, g.answer);
      NoRepeatsClaimOnce(w, dev, s.adds, s.added);
      RegisterIsSafe(w, dev, s.adds, s.added, g.unnoteFails);
      WholeSectionKeeps(w, RegisterWrites(w, dev, s.adds, s.added, g.unnoteFails));
    }
  }

  lemma WholeSectionKeeps(w: World, writes: seq<Write>)
    requires Inv(w) && AllSafe(w, writes)
    ensures Inv(Perform(w, writes))
  {
    hide Inv, AllSafe, Perform;
    EveryPrefixKeeps(w, writes, |writes|);
    WholeList(writes);
  }

  /** A commit: the victims retired and the learns registered leave what the batch is proved to leave. */
  lemma CommitAgrees(w: World, dev: Name, u: P.Uplink, b: Moment, learns: seq<Learnt>, victims: seq<Mac>,
                     taken: seq<Answer>, macs: seq<Mac>, added: seq<Answer>)
    requires Inv(w) && Shows(w, dev, u.note, u.list) && b.readable && !b.refuses && MacsIn(learns) != {}
    requires Elements(victims) == Victims(u, b, learns) && Asked(victims, taken, false, b.answer)
    requires AbsentIsAbsent(Victims(u, b, learns), u.list, b.answer)
    requires Elements(macs) == MacsIn(learns) && NoRepeats(macs) && Asked(macs, added, true, b.answer)
    ensures var w1 := Perform(w, RetireWrites(w, dev, victims, taken, b.settleFails));
            var w2 := Perform(w1, RegisterWrites(w1, dev, macs, added, b.unnoteFails));
            && Inv(w1) && Inv(w2)
            && Shows(w2, dev, AfterCommit(u, b, learns).note, AfterCommit(u, b, learns).list)
  {
    hide Inv, RegisterWrites, RetireWrites, Perform, Victims, Stamped, OnCardNow, MacsIn, Elements, AllSafe, NoteBehind,
         PutBy, LetGoBy, TakenBy;
    var w1 := Perform(w, RetireWrites(w, dev, victims, taken, b.settleFails));
    var shed := AfterShedding(u, b, Victims(u, b, learns), Stamped(u, b, learns));
    RetireAgrees(w, dev, u.note, u.list, victims, taken, b.settleFails, b.answer);
    RetireIsSafe(w, dev, victims, taken, b.settleFails);
    WholeSectionKeeps(w, RetireWrites(w, dev, victims, taken, b.settleFails));
    RegisterAgrees(w1, dev, shed.note, shed.list, macs, added, b.unnoteFails, b.answer);
    NoRepeatsClaimOnce(w1, dev, macs, added);
    RegisterIsSafe(w1, dev, macs, added, b.unnoteFails);
    WholeSectionKeeps(w1, RegisterWrites(w1, dev, macs, added, b.unnoteFails));
  }

  /** A reflection: what is ours of it, retired, leaves what the batch is proved to leave. */
  lemma ReflectionAgrees(w: World, dev: Name, u: P.Uplink, b: Moment, reflected: set<Mac>, macs: seq<Mac>, taken: seq<Answer>)
    requires Inv(w) && Shows(w, dev, u.note, u.list) && Ours(u, b, reflected) != {}
    requires Elements(macs) == Ours(u, b, reflected) && Asked(macs, taken, false, b.answer)
    requires AbsentIsAbsent(Ours(u, b, reflected), u.list, b.answer)
    ensures var w1 := Perform(w, RetireWrites(w, dev, macs, taken, b.settleFails));
            && Inv(w1)
            && Shows(w1, dev, AfterReflection(u, b, reflected).note, AfterReflection(u, b, reflected).list)
  {
    hide Inv, RetireWrites, Perform, Elements, AllSafe, LetGoBy, TakenBy;
    RetireAgrees(w, dev, u.note, u.list, macs, taken, b.settleFails, b.answer);
    RetireIsSafe(w, dev, macs, taken, b.settleFails);
    WholeSectionKeeps(w, RetireWrites(w, dev, macs, taken, b.settleFails));
  }
}
