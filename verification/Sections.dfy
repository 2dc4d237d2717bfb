// The locked sections as they run: one write after another, until a crash (src/sync/mod.rs,
// `register_batch_locked`, `retire`, `flush`; src/sync/notes.rs, `migrate_note`).

module Sections {
  import opened Basics
  import opened Ownership

  class LockedUplink {
    var notes: map<Name, Note>
    var card: set<Mac>
    ghost var ours: set<Mac>
    var left: nat  // how many writes are made before the crash

    constructor (left: nat)
      ensures Now() == World(map[], {}, {}) && this.left == left
    {
      notes, card, ours, this.left := map[], {}, {}, left;
    }

    ghost function Now(): World
      reads this
    {
      World(notes, card, ours)
    }

    function NoteOf(dev: Name): (n: Note)
      reads this
      ensures n == Now().NoteOf(dev)
    {
      if dev in notes then notes[dev] else EMPTY
    }

    /** The crash comes instead of the write that is one too many. */
    method Make(write: Write) returns (alive: bool)
      modifies this
      ensures alive <==> old(left) > 0
      ensures alive ==> left == old(left) - 1 && Now() == Effect(old(Now()), write)
      ensures !alive ==> left == 0 && Now() == old(Now())
    {
      if left == 0 {
        return false;
      }
      left := left - 1;
      match write {
        case Append(dev, missing) =>
          notes := notes[dev := Note(NoteOf(dev).lines + Elements(missing), None)];
        case Rewrite(dev, macs) =>
          notes := notes[dev := Note(macs, None)];
        case Unlink(dev) =>
          notes := notes - {dev};
        case Put(mac) =>
          card, ours := card + {mac}, ours + {mac};
        case Gone(mac) =>
          card, ours := card - {mac}, ours - {mac};
      }
      return true;
    }

    /** So far these writes of the section have been made, and no other. */
    ghost predicate Made(before: World, budget: nat, done: seq<Write>)
      reads this
    {
      Now() == Perform(before, done) && left + |done| == budget
    }

    /** The section ended as its list of writes says, cut short by the crash if one came. */
    ghost predicate Ended(before: World, budget: nat, total: seq<Write>)
      reads this
    {
      Now() == Perform(before, Upto(total, budget)) && left == if |total| < budget then budget - |total| else 0
    }

    method MakeNext(write: Write, ghost before: World, ghost budget: nat, ghost done: seq<Write>, ghost total: seq<Write>)
      returns (alive: bool)
      requires Made(before, budget, done) && done + [write] <= total
      modifies this
      ensures alive ==> Made(before, budget, done + [write])
      ensures !alive ==> Ended(before, budget, total)
    {
      PerformBoth(before, done, [write]);
      OneWrite(Perform(before, done), write);
      alive := Make(write);
      if !alive {
        assert Upto(total, budget) == done;
      }
    }

    lemma MadeAll(before: World, budget: nat, total: seq<Write>)
      requires Made(before, budget, total)
      ensures Ended(before, budget, total)
    {
      assert Upto(total, budget) == total;
    }

    /**
     * Note first: the intents go down before the card is touched, and those the card refused
     * as somebody else's come back out. A note that refuses them keeps the card untouched.
     */
    method RegisterBatchLocked(dev: Name, batch: seq<Mac>, answers: seq<Answer>, noteRefuses: bool, unnoteFails: bool)
      returns (put: seq<Mac>, alive: bool)
      requires |batch| == |answers|
      modifies this
      ensures noteRefuses ==> Now() == old(Now()) && put == []
      ensures !noteRefuses ==>
                Ended(old(Now()), old(left), RegisterWrites(old(Now()), dev, batch, answers, unnoteFails))
      ensures !noteRefuses && alive ==> put == Answered(batch, answers, {Ok})
    {
      hide Perform, Upto, Answered, Missing;
      if noteRefuses {
        return [], true;
      }
      ghost var before, budget := Now(), left;
      ghost var total := RegisterWrites(before, dev, batch, answers, unnoteFails);
      var note := NoteOf(dev);
      var missing := Missing(note, batch);
      var intended := Intended(note, batch).Names();
      put := [];
      NothingMade(before, budget);
      ghost var first := AppendIfAny(dev, missing);
      if missing != [] {
        assert [] + [Append(dev, missing)] == first;
        alive := MakeNext(Append(dev, missing), before, budget, [], total);
        if !alive {
          return;
        }
      }
      var unclaim;
      put, unclaim, alive := PutAll(batch, answers, missing, before, budget, first, total);
      if !alive {
        return;
      }
      ghost var done := first + Puts(put);
      if unclaim != {} && !unnoteFails {
        assert intended - unclaim != intended by {
          var m :| m in unclaim;
          assert m in intended;
        }
        assert done + [Rewrite(dev, intended - unclaim)] == total;
        alive := MakeNext(Rewrite(dev, intended - unclaim), before, budget, done, total);
        if !alive {
          return;
        }
      } else {
        assert done == total by {
          assert unclaim == {} ==> intended - unclaim == intended;
        }
      }
      MadeAll(before, budget, total);
    }

    /** The card's turn, address by address; what it refuses as somebody else's is collected. */
    method PutAll(batch: seq<Mac>, answers: seq<Answer>, missing: seq<Mac>,
                  ghost before: World, ghost budget: nat, ghost first: seq<Write>, ghost total: seq<Write>)
      returns (put: seq<Mac>, unclaim: set<Mac>, alive: bool)
      requires |batch| == |answers| && Made(before, budget, first)
      requires first + Puts(Answered(batch, answers, {Ok})) <= total
      modifies this
      ensures alive ==>
                && put == Answered(batch, answers, {Ok})
                && unclaim == Elements(Answered(batch, answers, {Exists})) * Elements(missing)
                && Made(before, budget, first + Puts(put))
      ensures !alive ==> Ended(before, budget, total)
    {
      hide Perform, Upto;
      put, unclaim := [], {};
      assert first + Puts(put) == first;
      for k := 0 to |batch|
        invariant put == Answered(batch[..k], answers[..k], {Ok})
        invariant unclaim == Elements(Answered(batch[..k], answers[..k], {Exists})) * Elements(missing)
        invariant Made(before, budget, first + Puts(put))
      {
        AnsweredOneMore(batch, answers, k, {Ok});
        AnsweredOneMore(batch, answers, k, {Exists});
        if answers[k] == Ok {
          PutsOneMore(put, batch[k]);
          PrefixOfPuts(first, batch, answers, k, total);
          assert first + Puts(put + [batch[k]]) == first + Puts(put) + [Put(batch[k])];
          alive := MakeNext(Put(batch[k]), before, budget, first + Puts(put), total);
          if !alive {
            return;
          }
          put := put + [batch[k]];
        } else if answers[k] == Exists && batch[k] in missing {
          unclaim := unclaim + {batch[k]};
        }
      }
      assert batch[..|batch|] == batch && answers[..|batch|] == answers;
      alive := true;
    }

    /** The removals one by one, then the note without those that are out. */
    method Retire(dev: Name, macs: seq<Mac>, answers: seq<Answer>, settleFails: bool)
      returns (dropped: seq<Mac>, alive: bool)
      requires |macs| == |answers|
      modifies this
      ensures Ended(old(Now()), old(left), RetireWrites(old(Now()), dev, macs, answers, settleFails))
      ensures alive ==> dropped == Dropped(macs, answers)
    {
      hide Perform, Upto;
      ghost var before, budget := Now(), left;
      ghost var total := RetireWrites(before, dev, macs, answers, settleFails);
      ghost var names := NoteOf(dev).Names();
      dropped, alive := TakeOut(macs, answers, before, budget, total);
      if !alive {
        return;
      }
      GonesKeepNotes(before, dropped);
      var now := NoteOf(dev).Names();
      if dropped != [] && !settleFails && now - Elements(dropped) != now {
        assert total == Gones(dropped) + [Rewrite(dev, now - Elements(dropped))];
        alive := MakeNext(Rewrite(dev, now - Elements(dropped)), before, budget, Gones(dropped), total);
        if !alive {
          return;
        }
      } else {
        assert dropped == [] ==> Elements(dropped) == {};
        assert total == Gones(dropped);
      }
      MadeAll(before, budget, total);
    }

    method TakeOut(macs: seq<Mac>, answers: seq<Answer>, ghost before: World, ghost budget: nat, ghost total: seq<Write>)
      returns (dropped: seq<Mac>, alive: bool)
      requires |macs| == |answers| && Now() == before && left == budget
      requires Gones(Dropped(macs, answers)) <= total
      modifies this
      ensures alive ==> dropped == Dropped(macs, answers) && Made(before, budget, Gones(dropped))
      ensures !alive ==> Ended(before, budget, total)
    {
      hide Perform, Upto;
      dropped := [];
      NothingMade(before, budget);
      for k := 0 to |macs|
        invariant dropped == Dropped(macs[..k], answers[..k])
        invariant Made(before, budget, Gones(dropped))
      {
        AnsweredOneMore(macs, answers, k, {Ok, Absent});
        if answers[k] == Ok || answers[k] == Absent {
          AnsweredPrefix(macs, answers, k + 1, {Ok, Absent});
          assert Gones(dropped + [macs[k]]) == Gones(dropped) + [Gone(macs[k])];
          alive := MakeNext(Gone(macs[k]), before, budget, Gones(dropped), total);
          if !alive {
            return;
          }
          dropped := dropped + [macs[k]];
        }
      }
      assert macs[..|macs|] == macs && answers[..|macs|] == answers;
      alive := true;
    }

    /**
     * Everything on record comes out; only a note with nothing left to say is unlinked. Of a gone
     * interface only the note is left; an illegible note stays with all it names.
     */
    method Flush(dev: Name, order: seq<Mac>, answers: seq<Answer>, legible: bool, gone: bool, fails: bool)
      returns (settled: bool, alive: bool)
      requires |order| == |answers| && Elements(order) == NoteOf(dev).Names()
      modifies this
      ensures !legible ==> Now() == old(Now()) && !settled && alive
      ensures legible ==> Ended(old(Now()), old(left), FlushWrites(old(Now()), dev, order, answers, fails, gone))
      ensures alive && settled ==> dev !in notes
    {
      hide Perform, Upto;
      if !legible {
        return false, true;
      }
      ghost var before, budget := Now(), left;
      ghost var total := FlushWrites(before, dev, order, answers, fails, gone);
      if gone {
        NothingMade(before, budget);
        assert [] + [Unlink(dev)] == total;
        alive := MakeNext(Unlink(dev), before, budget, [], total);
        settled := alive;
        if alive {
          OneWrite(before, Unlink(dev));
          MadeAll(before, budget, total);
        }
        return;
      }
      var names := NoteOf(dev).Names();
      var dropped;
      dropped, alive := TakeOut(order, answers, before, budget, total);
      settled := false;
      if !alive {
        return;
      }
      var kept := names - Elements(dropped);
      if kept == {} {
        assert total == Gones(dropped) + [Unlink(dev)];
        alive := MakeNext(Unlink(dev), before, budget, Gones(dropped), total);
        if !alive {
          return;
        }
        settled := true;
        PerformBoth(before, Gones(dropped), [Unlink(dev)]);
        OneWrite(Perform(before, Gones(dropped)), Unlink(dev));
      } else if fails || names == kept {
        assert total == Gones(dropped);
      } else {
        assert total == Gones(dropped) + [Rewrite(dev, kept)];
        alive := MakeNext(Rewrite(dev, kept), before, budget, Gones(dropped), total);
        if !alive {
          return;
        }
      }
      MadeAll(before, budget, total);
    }

    /**
     * Appended under the new name, then unlinked under the old: named twice, never nowhere. An old
     * note that cannot be read, or a new one that will not take its addresses, leaves both.
     */
    method MigrateNote(was: Name, now: Name, order: seq<Mac>, legible: bool, refuses: bool)
      returns (moved: bool, alive: bool)
      requires Elements(order) == NoteOf(was).Names()
      modifies this
      ensures !legible || (refuses && order != []) ==>
                Now() == old(Now()) && left == old(left) && alive && (moved <==> was == now)
      ensures legible && (refuses ==> order == []) ==>
                Ended(old(Now()), old(left), MigrateWrites(old(Now()), was, now, order)) && (moved <==> alive)
    {
      hide Perform, Upto;
      ghost var before, budget := Now(), left;
      ghost var total := MigrateWrites(before, was, now, order);
      NothingMade(before, budget);
      if was == now {
        MadeAll(before, budget, total);
        return true, true;
      }
      if !legible || (refuses && order != []) {
        return false, true;
      }
      var missing := Missing(NoteOf(now), order);
      ghost var done := [];
      if missing != [] {
        alive := MakeNext(Append(now, missing), before, budget, done, total);
        if !alive {
          return false, false;
        }
        done := done + [Append(now, missing)];
      }
      assert done + [Unlink(was)] == total;
      alive := MakeNext(Unlink(was), before, budget, done, total);
      moved := alive;
      if alive {
        MadeAll(before, budget, total);
      }
    }

    lemma NothingMade(before: World, budget: nat)
      requires Now() == before && left == budget
      ensures Made(before, budget, [])
    {
    }
  }

  lemma AnsweredOneMore(ms: seq<Mac>, answers: seq<Answer>, k: nat, which: set<Answer>)
    requires |ms| == |answers| && k < |ms|
    ensures Answered(ms[..k + 1], answers[..k + 1], which) ==
            Answered(ms[..k], answers[..k], which) + if answers[k] in which then [ms[k]] else []
  {
    assert ms[..k + 1][..k] == ms[..k] && answers[..k + 1][..k] == answers[..k];
  }

  lemma {:induction false} AnsweredPrefix(ms: seq<Mac>, answers: seq<Answer>, k: nat, which: set<Answer>)
    requires |ms| == |answers| && k <= |ms|
    ensures Answered(ms[..k], answers[..k], which) <= Answered(ms, answers, which)
    decreases |ms| - k
  {
    if k == |ms| {
      assert ms[..k] == ms && answers[..k] == answers;
    } else {
      AnsweredOneMore(ms, answers, k, which);
      AnsweredPrefix(ms, answers, k + 1, which);
    }
  }

  lemma PutsOneMore(ms: seq<Mac>, m: Mac)
    ensures Puts(ms + [m]) == Puts(ms) + [Put(m)]
  {
  }

  lemma PrefixOfPuts(first: seq<Write>, batch: seq<Mac>, answers: seq<Answer>, k: nat, total: seq<Write>)
    requires |batch| == |answers| && k < |batch| && answers[k] == Ok
    requires first + Puts(Answered(batch, answers, {Ok})) <= total
    ensures first + Puts(Answered(batch[..k], answers[..k], {Ok})) + [Put(batch[k])] <= total
  {
    AnsweredOneMore(batch, answers, k, {Ok});
    AnsweredPrefix(batch, answers, k + 1, {Ok});
    var some := Answered(batch[..k], answers[..k], {Ok});
    assert Puts(some + [batch[k]]) == Puts(some) + [Put(batch[k])];
    assert Puts(some + [batch[k]]) <= Puts(Answered(batch, answers, {Ok}));
  }

  lemma GonesKeepNotes(w: World, ms: seq<Mac>)
    ensures Perform(w, Gones(ms)).notes == w.notes
  {
    GonesAreSafe(w, ms);
  }
}
