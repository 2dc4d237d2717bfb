// The remembered copy of a note, checked by a stat (src/sync/notes.rs).
//
// The file may be rewritten by other processes at any moment. The copy is believed only while
// inode, length and timestamp are those it was read under, and the timestamp is older than the
// read. Timestamps come from a coarse clock and prove nothing here: what the proof rests on is
// that an append lengthens the file and a replacement takes a new inode.

module NoteCache {
  import opened Basics
  import opened NoteText

  datatype File = File(ino: nat, text: string, mtime: int)

  /** The note's place on disk. Inode numbers are handed out from a counter. */
  datatype Disk = Disk(file: Option<File>, nextIno: nat)

  function NamedOn(d: Disk): set<Mac> {
    if d.file.Some? then Named(d.file.value.text) else {}
  }

  // ----- what other writers may do

  /** An append in place: the torn tail cut, shorter than one line, then whole lines added. */
  ghost predicate AppendsInPlace(d: Disk, e: Disk) {
    && d.file.Some? && e.file.Some? && e.nextIno == d.nextIno
    && e.file.value.ino == d.file.value.ino
    && |Tail(d.file.value.text)| < 18
    && exists ms :: ms != [] && e.file.value.text == Finished(d.file.value.text) + LinesOf(ms)
  }

  /** A new file in its place: a rename over it, or the first append to a note. */
  predicate Replaces(d: Disk, e: Disk) {
    e.file.Some? && e.file.value.ino == d.nextIno && e.nextIno == d.nextIno + 1
  }

  predicate Removes(d: Disk, e: Disk) {
    e.file.None? && e.nextIno == d.nextIno
  }

  ghost predicate CompletedWrite(d: Disk, e: Disk) {
    AppendsInPlace(d, e) || Replaces(d, e) || Removes(d, e)
  }

  ghost predicate IsHistory(h: seq<Disk>) {
    |h| > 0 && forall k :: 0 <= k < |h| - 1 ==> CompletedWrite(h[k], h[k + 1])
  }

  /** Any number of completed writes, in any order, by anybody. */
  ghost predicate Leads(d: Disk, e: Disk) {
    exists h :: IsHistory(h) && h[0] == d && h[|h| - 1] == e
  }

  predicate Allocated(d: Disk) {
    d.file.Some? ==> d.file.value.ino < d.nextIno
  }

  /** What every later moment keeps about a file once seen. */
  predicate Outgrown(f: File, d: Disk) {
    && f.ino < d.nextIno
    && (d.file.Some? && d.file.value.ino == f.ino ==>
          d.file.value.text == f.text || |d.file.value.text| > |f.text|)
  }

  lemma AppendLengthens(d: Disk, e: Disk)
    requires AppendsInPlace(d, e)
    ensures |e.file.value.text| > |d.file.value.text|
  {
    FinishedParts(d.file.value.text);
  }

  lemma OutgrownStays(f: File, d: Disk, e: Disk)
    requires Outgrown(f, d) && CompletedWrite(d, e)
    ensures Outgrown(f, e)
  {
    if AppendsInPlace(d, e) {
      AppendLengthens(d, e);
    }
  }

  lemma {:induction false} OutgrownThrough(f: File, h: seq<Disk>)
    requires IsHistory(h) && Outgrown(f, h[0])
    ensures Outgrown(f, h[|h| - 1]) && (Allocated(h[0]) ==> Allocated(h[|h| - 1]))
    decreases |h|
  {
    hide Outgrown, CompletedWrite;
    if |h| > 1 {
      var init := h[..|h| - 1];
      assert IsHistory(init);
      OutgrownThrough(f, init);
      OutgrownStays(f, h[|h| - 2], h[|h| - 2 + 1]);
      AllocatedStays(h[|h| - 2], h[|h| - 2 + 1]);
    }
  }

  lemma AllocatedStays(d: Disk, e: Disk)
    requires CompletedWrite(d, e)
    ensures Allocated(d) ==> Allocated(e)
  {
  }

  /** The same inode at the same length, however many writes later, is the same content. */
  lemma SameStatSameText(d: Disk, e: Disk)
    requires Leads(d, e) && Allocated(d) && d.file.Some? && e.file.Some?
    requires d.file.value.ino == e.file.value.ino && |d.file.value.text| == |e.file.value.text|
    ensures d.file.value.text == e.file.value.text
  {
    var h :| IsHistory(h) && h[0] == d && h[|h| - 1] == e;
    OutgrownThrough(d.file.value, h);
  }

  /** And so was everything in between. */
  lemma SteadyMeansUntouched(d: Disk, mid: Disk, e: Disk)
    requires Leads(d, mid) && Leads(mid, e) && Allocated(d) && d.file.Some? && e.file.Some?
    requires d.file.value.ino == e.file.value.ino && |d.file.value.text| == |e.file.value.text|
    ensures mid.file.Some? && mid.file.value.text == d.file.value.text == e.file.value.text
  {
    var f := d.file.value;
    var h :| IsHistory(h) && h[0] == d && h[|h| - 1] == mid;
    var g :| IsHistory(g) && g[0] == mid && g[|g| - 1] == e;
    OutgrownThrough(f, h);
    OutgrownThrough(f, g);
    if mid.file.None? || mid.file.value.ino != f.ino {
      NeverReturns(f.ino, g);
    } else if |mid.file.value.text| > |f.text| {
      OutgrownThrough(mid.file.value, g);
    }
  }

  lemma {:induction false} NeverReturns(ino: nat, h: seq<Disk>)
    requires IsHistory(h) && ino < h[0].nextIno
    requires h[0].file.Some? ==> h[0].file.value.ino != ino
    ensures h[|h| - 1].file.Some? ==> h[|h| - 1].file.value.ino != ino
    ensures ino < h[|h| - 1].nextIno
    decreases |h|
  {
    if |h| > 1 {
      var init := h[..|h| - 1];
      assert IsHistory(init);
      NeverReturns(ino, init);
      assert CompletedWrite(h[|h| - 2], h[|h| - 2 + 1]);
    }
  }

  lemma LeadsOn(d: Disk, e: Disk, f: Disk)
    requires Leads(d, e) && Leads(e, f)
    ensures Leads(d, f)
  {
    var h :| IsHistory(h) && h[0] == d && h[|h| - 1] == e;
    var g :| IsHistory(g) && g[0] == e && g[|g| - 1] == f;
    var both := h + g[1..];
    forall k | 0 <= k < |both| - 1
      ensures CompletedWrite(both[k], both[k + 1])
    {
      if k >= |h| - 1 {
        var j := k - (|h| - 1);
        assert CompletedWrite(g[j], g[j + 1]);
        assert both[k] == g[j] && both[k + 1] == g[j + 1];
      } else {
        assert CompletedWrite(h[k], h[k + 1]);
      }
    }
    assert IsHistory(both) && both[0] == d && both[|both| - 1] == f;
  }

  lemma LeadsNowhere(d: Disk)
    ensures Leads(d, d)
  {
    assert IsHistory([d]);
  }

  lemma LeadsOnce(d: Disk, e: Disk)
    requires CompletedWrite(d, e)
    ensures Leads(d, e)
  {
    assert IsHistory([d, e]);
  }

  // ----- the copy

  /** What was read, and the stat it was read under. */
  datatype Copy = Copy(macs: set<Mac>, ino: nat, len: nat, mtime: int, readAt: int) {

    predicate IsStill(f: File) {
      ino == f.ino && len == |f.text| && mtime == f.mtime && mtime < readAt
    }
  }

  class Cache {
    var note: Option<Copy>
    var unreadable: bool  // the last read failed; a device to leave alone
    ghost var seen: Disk  // the disk the copy was read from

    constructor (d: Disk)
      requires Allocated(d)
      ensures Valid(d) && note.None? && !unreadable
    {
      note, unreadable, seen := None, false, d;
      new;
      LeadsNowhere(d);
    }

    /** The copy is what the file said when it was taken, and the disk has moved on from there. */
    ghost predicate Valid(now: Disk)
      reads this
    {
      && Allocated(now)
      && (note.Some? ==>
            && Allocated(seen) && seen.file.Some? && Leads(seen, now)
            && note.value.ino == seen.file.value.ino
            && note.value.len == |seen.file.value.text|
            && note.value.macs == Named(seen.file.value.text))
    }

    /** Whatever other processes complete, the copy stays honest. */
    lemma ValidStays(d: Disk, e: Disk)
      requires Valid(d) && Leads(d, e)
      ensures Valid(e)
    {
      hide Named, CompletedWrite;
      var h :| IsHistory(h) && h[0] == d && h[|h| - 1] == e;
      AllocatedThrough(h);
      if note.Some? {
        LeadsOn(seen, d, e);
      }
    }

    /** A copy that is still the file is the file. */
    lemma StillMeansSame(now: Disk)
      requires Valid(now) && note.Some? && now.file.Some? && note.value.IsStill(now.file.value)
      ensures note.value.macs == Named(now.file.value.text)
    {
      hide Named;
      SameStatSameText(seen, now);
    }

    method Remember(macs: set<Mac>, d: Disk, clock: int)
      requires Allocated(d) && d.file.Some? && macs == Named(d.file.value.text)
      modifies this
      ensures Valid(d) && note.Some? && note.value.macs == macs && note.value.len == |d.file.value.text|
      ensures unreadable == old(unreadable)
    {
      hide Named;
      var f := d.file.value;
      note := Some(Copy(macs, f.ino, |f.text|, f.mtime, clock));
      seen := d;
      LeadsNowhere(d);
    }

    /**
     * The note as it stands, while anybody writes it: `looked` is the disk at the first stat,
     * `before`, `during` and `after` at the stat, the read and the stat that follow. The
     * answer is what the file said at one of those moments, or nothing where the read failed;
     * then no copy is kept and the device is marked.
     */
    method WithOwned(looked: Disk, before: Disk, during: Disk, after: Disk, legible: bool, clock: int)
      returns (macs: set<Mac>)
      requires Valid(looked) && Leads(looked, before) && Leads(before, during) && Leads(during, after)
      modifies this
      ensures Valid(after)
      ensures macs == NamedOn(looked) || macs == NamedOn(during) ||
              (!legible && during.file.Some? && unreadable && macs == {} && note.None?)
      ensures unreadable ==> old(unreadable) || (!legible && during.file.Some?)
      ensures looked == before == during == after && (legible || !unreadable || during.file.None?) ==>
                && macs == NamedOn(after)
                && (after.file.Some? ==> note.Some? && note.value.len == |after.file.value.text|)
                && (after.file.None? ==> note.None?)
    {
      hide Named, CompletedWrite;
      if looked.file.Some? && note.Some? && note.value.IsStill(looked.file.value) {
        StillMeansSame(looked);
        macs := note.value.macs;
        ValidStays(looked, before);
        ValidStays(before, during);
        ValidStays(during, after);
        return;
      }
      ValidStays(looked, before);
      ValidStays(before, during);
      ValidStays(during, after);
      unreadable := !legible && during.file.Some?;
      if unreadable {
        note := None;
        return {};
      }
      if during.file.Some? {
        macs := ReadOwned(during.file.value.text);
      } else {
        macs := {};
      }
      var steady := before.file.Some? && after.file.Some? &&
        before.file.value.ino == after.file.value.ino &&
        |before.file.value.text| == |after.file.value.text| &&
        before.file.value.mtime == after.file.value.mtime;
      if steady {
        SteadyMeansUntouched(before, during, after);
        Remember(macs, after, clock);
      } else {
        note := None;
      }
    }

    /**
     * Add to the note under its lock, so nobody writes meanwhile. The set remembered is the old
     * copy and the fresh addresses; where a torn tail was cut the old copy may name what the
     * file no longer does, and the length gives it away. An illegible note takes nothing,
     * and after a write that failed, wherever it stopped, no copy is kept.
     */
    method AppendOwnedLocked(d: Disk, added: seq<Mac>, legible: bool, outcome: Outcome, mtime: int, clock: int)
      returns (e: Disk, taken: Option<seq<Mac>>)
      requires Valid(d) && (d.file.Some? ==> |Tail(d.file.value.text)| < 18)
      modifies this
      ensures Valid(e)
      ensures taken.Some? ==>
                && Leads(d, e) && taken == Some(FreshOf(TextOn(d), added))
                && if taken == Some([]) then e == d
                   else e.file.Some? && e.file.value.text == Appended(TextOn(d), added)
      ensures taken.None? ==>
                && (note.None? || unreadable)
                && (e == d || (outcome.Stopped? && e == StoppedOn(d, added, outcome.n, mtime)))
      ensures legible && !old(unreadable) && outcome.Finishes? ==> taken.Some?
    {
      hide Named, Finished, Tail, FormatMac, FinishedLength, Leads, CompletedWrite, FreshOf;
      LeadsNowhere(d);
      var macs := WithOwned(d, d, d, d, legible, clock);
      if unreadable {
        return d, None;
      }
      var text := TextOn(d);
      BlankNamesNothing();
      var missing, whole := AppendOwned(text, added);
      if missing == [] {
        return d, Some([]);
      }
      FinishedParts(text);
      match outcome {
        case Finishes =>
          e := Disk(Some(File(InodeOn(d), whole, mtime)), NextOn(d));
          AppendCompletes(d, e, text, added);
          Settle(d, e, text, macs, added, clock);
          return e, Some(missing);
        case NotOpened =>
          note := None;
          return d, None;
        case Stopped(n) =>
          note := None;
          return StoppedOn(d, added, n, mtime), None;
      }
    }

    method Settle(d: Disk, e: Disk, text: string, macs: set<Mac>, added: seq<Mac>, clock: int)
      requires Allocated(e) && e.file.Some? && FreshOf(text, added) != []
      requires e.file.value.text == Appended(text, added) && macs == Named(text)
      requires note.Some? ==> note.value.len == |text|
      requires note.None? ==> text == ""
      modifies this
      ensures Valid(e) && unreadable == old(unreadable)
    {
      hide Named, Finished, Tail, FormatMac, FinishedLength, Leads;
      var missing := FreshOf(text, added);
      var was := if note.Some? then Some(note.value.len) else None;
      AppendedNames(text, added);
      CutShows(text, missing);
      FinishedParts(text);
      if was.Some? && |e.file.value.text| != was.value + 18 * |missing| {
        note := None;
      } else {
        Remember(macs + (set m | m in missing), e, clock);
      }
    }

    /**
     * Replace the note under its lock, unless it already says just this. A marked device keeps
     * its note; a replacement that fails leaves the file as it was and no copy.
     */
    method WriteOwned(d: Disk, macs: set<Mac>, order: seq<Mac>, legible: bool, fails: bool, mtime: int, clock: int)
      returns (e: Disk, recorded: bool)
      requires Valid(d) && forall m :: m in order <==> m in macs
      modifies this
      ensures Valid(e) && Leads(d, e)
      ensures !recorded ==> e == d && (old(unreadable) || note.None?)
      ensures recorded ==> !old(unreadable) && (NamedOn(e) == macs || (!legible && unreadable && macs == {} && e == d))
      ensures !old(unreadable) && !fails ==> recorded
    {
      hide Named, Tail;
      LeadsNowhere(d);
      if unreadable {
        return d, false;
      }
      var now := WithOwned(d, d, d, d, legible, clock);
      if now == macs {
        return d, true;
      }
      if fails {
        note := None;
        return d, false;
      }
      e := Disk(Some(File(d.nextIno, LinesOf(order), mtime)), d.nextIno + 1);
      assert CompletedWrite(d, e);
      LeadsOnce(d, e);
      WrittenReadsBack(order, macs);
      Remember(macs, e, clock);
      recorded := true;
    }
  }

  // ----- an append that stops

  /** How an append ends: whole, before the file was touched, or after some characters. */
  datatype Outcome = Finishes | NotOpened | Stopped(n: nat)

  function TextOn(d: Disk): string {
    if d.file.Some? then d.file.value.text else ""
  }

  function InodeOn(d: Disk): nat {
    if d.file.Some? then d.file.value.ino else d.nextIno
  }

  function NextOn(d: Disk): nat {
    if d.file.Some? then d.nextIno else d.nextIno + 1
  }

  function Upto(s: string, n: nat): string {
    if n < |s| then s[..n] else s
  }

  /** The torn tail is cut, and the first so many characters of the fresh lines are there. */
  function StoppedOn(d: Disk, added: seq<Mac>, n: nat, mtime: int): Disk {
    Disk(Some(File(InodeOn(d), Finished(TextOn(d)) + Upto(LinesOf(FreshOf(TextOn(d), added)), n), mtime)), NextOn(d))
  }

  lemma {:induction false} AllocatedThrough(h: seq<Disk>)
    requires IsHistory(h) && Allocated(h[0])
    ensures Allocated(h[|h| - 1])
    decreases |h|
  {
    if |h| > 1 {
      var init := h[..|h| - 1];
      assert IsHistory(init);
      AllocatedThrough(init);
      AllocatedStays(h[|h| - 2], h[|h| - 2 + 1]);
    }
  }

  /** Unless something was cut, the old copy and the fresh ones are what the file names now. */
  lemma CutShows(text: string, missing: seq<Mac>)
    ensures |Finished(text) + LinesOf(missing)| == |text| + 18 * |missing| ==> Named(Finished(text)) == Named(text)
  {
    hide Named;
    FinishedParts(text);
    if |Tail(text)| == 0 {
      assert Finished(text) == text;
    }
  }

  lemma AppendCompletes(d: Disk, e: Disk, text: string, added: seq<Mac>)
    requires Allocated(d) && text == (if d.file.Some? then d.file.value.text else "")
    requires |Tail(text)| < 18 && FreshOf(text, added) != []
    requires e.file.Some? && e.file.value.text == Appended(text, added)
    requires if d.file.Some? then e.file.value.ino == d.file.value.ino && e.nextIno == d.nextIno
             else e.file.value.ino == d.nextIno && e.nextIno == d.nextIno + 1
    ensures Leads(d, e) && Allocated(e)
  {
    hide Finished, Tail, FormatMac;
    assert CompletedWrite(d, e);
    LeadsOnce(d, e);
  }

  // ----- what the claim does not cover

  /**
   * An append by somebody else that stops restores inode and length exactly when it stops as
   * many characters in as the tail it cut was long. Within one tick of the coarse clock the stat
   * then cannot tell; and the names differ exactly when both tails lack but their newline.
   */
  lemma StatIsFooledExactly(f: File, nextIno: nat, added: seq<Mac>, n: nat, mtime: int, readAt: int)
    requires |Tail(f.text)| < 18 && FreshOf(f.text, added) != []
    ensures var g := StoppedOn(Disk(Some(f), nextIno), added, n, mtime).file.value;
            var copy := Copy(Named(f.text), f.ino, |f.text|, f.mtime, readAt);
            && (copy.IsStill(g) <==> n == |Tail(f.text)| && mtime == f.mtime < readAt)
            && (copy.IsStill(g) && Named(g.text) != copy.macs <==>
                  n == |Tail(f.text)| == 17 && mtime == f.mtime < readAt)
  {
    hide Named, Finished, Tail, LineNames, LinesOf, FreshOf;
    var missing := FreshOf(f.text, added);
    FinishedParts(f.text);
    if n == |Tail(f.text)| {
      TornAppend(Finished(f.text), missing, n);
      var text := Finished(f.text) + LinesOf(missing)[..n];
      TailNames(text);
      TailNames(f.text);
      ShortNamesNothing(Tail(f.text));
      assert n < 18 && missing[..0] == [];
      assert n == 17 ==> missing[0] in missing;
    }
  }

  lemma ShortNamesNothing(line: string)
    ensures |line| < 17 ==> LineNames(line).None?
  {
    hide ParseMac;
    TrimShortens(line);
    if LineNames(line).Some? {
      ParsedIsWhole(TrimEnd(TrimStart(line)));
    }
  }

  /**
   * A write that does not finish can restore inode and length: one torn address cut, another
   * torn at the same place. Within one tick of the coarse clock the stat cannot tell.
   */
  lemma TornWriteFoolsTheStat(a: Mac, b: Mac, ino: nat, mtime: int)
    requires a != b
    ensures var f := File(ino, FormatMac(a), mtime);
            var g := File(ino, Finished(f.text) + LinesOf([b])[..17], mtime);
            Copy(Named(f.text), f.ino, |f.text|, f.mtime, mtime + 1).IsStill(g) && Named(g.text) != Named(f.text)
  {
    hide Named, FormatMac, Finished;
    LineButItsNewline(b);
    assert "" + FormatMac(b) == FormatMac(b);
    BareAddress(a);
    BareAddress(b);
  }

  lemma LineButItsNewline(m: Mac)
    ensures LinesOf([m])[..17] == FormatMac(m)
    ensures '\n' !in FormatMac(m)
  {
    hide FormatMac;
    MacRoundTrip(m);
    assert [m][..0] == [];
    assert LinesOf([m]) == LinesOf([]) + (FormatMac(m) + ['\n']);
  }

  lemma BareAddress(m: Mac)
    ensures Named(FormatMac(m)) == {m} && Finished(FormatMac(m)) == ""
  {
    hide Named, FormatMac, LineNames;
    LineButItsNewline(m);
    FinishedOf("", FormatMac(m));
    assert "" + FormatMac(m) == FormatMac(m);
    TailNames(FormatMac(m));
    BlankNamesNothing();
    LineOfMac(m);
  }
}
