// When a pass runs (src/daemon.rs). Time is in nanoseconds of a clock that never runs back;
// everything the world says - clock readings, waits, notifications, outcomes - is an input.

module Scheduler {
  import opened Basics

  const MILLISECOND := 1_000_000
  const FLOOR := 200 * MILLISECOND
  const RETRY_AFTER := 5000 * MILLISECOND
  const AGEING_SETTLE := 5000 * MILLISECOND
  const LONGEST_POLL := 0x7FFF_FFFF

  datatype Trigger = Start | Operator | Recovery | LostEvents | InterfaceChange | ForwardingChange

  function Max(a: int, b: int): int {
    if a < b then b else a
  }

  // ----- the schedule

  class Schedule {
    var due: Option<int>   // none while no pass is owed
    var lastPass: int      // when the last attempt ended
    var trigger: Trigger   // why the due pass runs

    constructor (now: int)
      ensures due == Some(now) && lastPass == now && trigger == Start
    {
      due, lastPass, trigger := Some(now), now, Start;
    }

    predicate PassDue(now: int)
      reads this
    {
      due.Some? && now >= due.value
    }

    /** The refused pass is tried again, its trigger unchanged. */
    method RetrySoon(now: int)
      modifies this
      ensures due == Some(now + RETRY_AFTER) && lastPass == now && trigger == old(trigger)
    {
      due := Some(now + RETRY_AFTER);
      lastPass := now;
    }

    method Completed(now: int)
      modifies this
      ensures due == None && lastPass == now && trigger == old(trigger)
    {
      lastPass := now;
      due := None;
    }

    /** The deadline only comes nearer; the trigger is the latest. */
    method BringForward(at: int, why: Trigger)
      modifies this
      ensures due.Some? && due.value <= at && (due.value == at || old(due) == due)
      ensures old(due).Some? ==> due.value <= old(due).value
      ensures lastPass == old(lastPass) && trigger == why
    {
      due := Some(if due.Some? && due.value < at then due.value else at);
      trigger := why;
    }

    method AtOnce(now: int, why: Trigger)
      modifies this
      ensures due == Some(now) && lastPass == old(lastPass) && trigger == why
    {
      due := Some(now);
      trigger := why;
    }

    /** How long to wait, in whole milliseconds rounded up; -1 is for ever. */
    method WaitMillis(now: int) returns (millis: int)
      ensures due.None? ==> millis == -1
      ensures due.Some? ==> millis == RoundedWait(Max(due.value - now, 0))
    {
      if due.None? {
        return -1;
      }
      var left := if due.value > now then due.value - now else 0;
      var up := (left + MILLISECOND - 1) / MILLISECOND;
      millis := if up < LONGEST_POLL then up else LONGEST_POLL;
    }
  }

  function RoundedWait(left: nat): nat {
    var up := (left + MILLISECOND - 1) / MILLISECOND;
    if up < LONGEST_POLL then up else LONGEST_POLL
  }

  /**
   * The wait reaches the deadline exactly up to the longest poll, and then oversleeps it by
   * less than a millisecond; beyond that it comes round early and is asked again.
   */
  lemma WaitReachesDeadline(left: nat)
    ensures RoundedWait(left) * MILLISECOND >= left <==> left <= LONGEST_POLL * MILLISECOND
    ensures left <= LONGEST_POLL * MILLISECOND ==> RoundedWait(left) * MILLISECOND < left + MILLISECOND
  {
    var up := (left + MILLISECOND - 1) / MILLISECOND;
    assert left <= up * MILLISECOND < left + MILLISECOND;
    if up >= LONGEST_POLL {
      assert left <= LONGEST_POLL * MILLISECOND <==> up == LONGEST_POLL;
    }
  }

  // ----- one batch

  /** What a batch held, and what answering it came to. */
  datatype Batch = Batch(hasFdb: bool, linksChanged: bool, answer: Urgency, filling: bool)

  function UrgencyOf(b: Batch): Urgency {
    if b.linksChanged then Now else b.answer
  }

  predicate Claims(b: Batch) {
    (b.hasFdb || b.linksChanged) && UrgencyOf(b) != Nothing
  }

  /** How long after the last attempt the pass of a batch may come. */
  function Within(b: Batch): int {
    if UrgencyOf(b) == Now || b.filling then FLOOR else AGEING_SETTLE
  }

  /** Whether a batch buys a pass, for when, and under what name. */
  method HandleBatch(b: Batch, lastPass: int, now: int) returns (r: Option<(int, Trigger)>)
    ensures r.Some? <==> Claims(b)
    ensures r.Some? ==>
              && r.value.0 == Max(now, lastPass + Within(b))
              && (r.value.1 == ForwardingChange <==> b.hasFdb)
              && (r.value.1 == InterfaceChange <==> !b.hasFdb)
  {
    if !b.hasFdb && !b.linksChanged {
      return None;
    }
    var trigger := if b.hasFdb then ForwardingChange else InterfaceChange;
    var urgency := if b.linksChanged then Now else b.answer;
    if urgency == Nothing {
      return None;
    }
    var wait := if urgency == Now || b.filling then FLOOR else AGEING_SETTLE;
    r := Some((Max(lastPass + wait, now), trigger));
  }

  // ----- the loop

  datatype Wait = WaitFailed | NothingArrived | Arrived(batch: Option<Batch>)  // no batch: events were lost

  /** What the world answers in one turn of the loop, with the clock as each step reads it. */
  datatype Turn = Turn(
    operator: bool, knocked: int, looked: int, refused: bool, ran: int, waited: int, wait: Wait, heard: int)

  predicate ClockRuns(turns: seq<Turn>, start: int) {
    && (forall k :: 0 <= k < |turns| ==> Ordered(turns[k]) && start <= turns[k].knocked)
    && (forall j, k :: 0 <= j < k < |turns| ==> turns[j].heard <= turns[k].knocked)
  }

  predicate Ordered(t: Turn) {
    t.knocked <= t.looked <= t.ran <= t.waited <= t.heard
  }

  /** What happened, in order. */
  datatype Entry =
    | Looked(at: int)                                     // the top of the loop, nothing due
    | Attempt(at: int, due: int, ended: int, done: bool)  // a pass, or one that was refused
    | Claim(at: int, lastPass: int, within: int)          // a batch that bought a pass
    | Forced(at: int)                                     // operator, lost events, failed wait

  type Log = seq<Entry>

  /** Two attempts with none between them. */
  ghost predicate Consecutive(log: Log, i: nat, j: nat) {
    && i < j < |log| && log[i].Attempt? && log[j].Attempt?
    && forall k :: i < k < j ==> !log[k].Attempt?
  }

  ghost predicate HasForced(log: Log, i: int, j: int) {
    exists k :: 0 <= k < |log| && i < k < j && log[k].Forced?
  }

  ghost predicate HasReason(log: Log, i: int, j: int) {
    exists k :: 0 <= k < |log| && i < k < j && (log[k].Forced? || log[k].Claim?)
  }

  /** No attempt starts within 200 ms of the end of the one before, unless forced. */
  ghost predicate RateBounded(log: Log) {
    forall i: nat, j: nat :: Consecutive(log, i, j) && !HasForced(log, i, j) ==> log[j].at >= log[i].ended + FLOOR
  }

  /** After a pass that ran, the next has a reason. */
  ghost predicate NoneUnbought(log: Log) {
    forall i: nat, j: nat :: Consecutive(log, i, j) && log[i].done ==> HasReason(log, i, j)
  }

  /** What leaves a pass owed: a batch that bought one, a refused pass, a forced one. */
  predicate Owes(e: Entry) {
    e.Claim? || e.Forced? || (e.Attempt? && !e.done)
  }

  /** By when it is owed. */
  function Promise(e: Entry): int
    requires Owes(e)
  {
    match e
    case Claim(at, lastPass, within) => Max(at, lastPass + within)
    case Forced(at) => at
    case Attempt(_, _, ended, _) => ended + RETRY_AFTER
  }

  /**
   * While a pass is owed and none was attempted, the loop never finds the promise passed; and
   * the attempt that answers was due by then, unless it was forced.
   */
  ghost predicate Answered(log: Log) {
    && (forall j :: 0 <= j < |log| && log[j].Looked? ==> !NoAttempt(log, -1, j))  // the start owes one at once
    && (forall i, j :: 0 <= i < j < |log| && Owes(log[i]) && log[j].Looked? && NoAttempt(log, i, j) ==>
          log[j].at < Promise(log[i]))
    && (forall i, j :: 0 <= i < j < |log| && Owes(log[i]) && log[j].Attempt? && NoAttempt(log, i, j) ==>
          log[j].due <= log[j].at && (log[j].due <= Promise(log[i]) || HasForced(log, i, j)))
  }

  ghost predicate NoAttempt(log: Log, i: int, j: int) {
    forall k :: 0 <= k < |log| && i < k < j ==> !log[k].Attempt?
  }

  function Knock(t: Turn): Log {
    if t.operator then [Forced(t.knocked)] else []
  }

  /** What one turn may tell of itself: everything but whether a pass was due. */
  predicate Tells(t: Turn, told: Log) {
    var knock := Knock(t);
    knock <= told && |told| > |knock| &&
    match told[|knock|]
    case Looked(at) => at == t.looked && EndsAs(t, told[|knock| + 1..])
    case Attempt(at, _, ended, done) =>
      && at == t.looked && ended == t.ran && (done <==> !t.refused)
      && if done then EndsAs(t, told[|knock| + 1..]) else told[|knock| + 1..] == []
    case _ => false
  }

  predicate EndsAs(t: Turn, rest: Log) {
    match t.wait
    case NothingArrived => rest == []
    case WaitFailed => rest == [Forced(t.heard)]
    case Arrived(None) => rest == [Forced(t.heard)]
    case Arrived(Some(b)) =>
      if Claims(b) then |rest| == 1 && rest[0].Claim? && rest[0].at == t.heard && rest[0].within == Within(b)
      else rest == []
  }

  /** The k-th turn tells the log from its mark to the next. */
  predicate TellsFrom(t: Turn, log: Log, marks: seq<nat>, k: nat)
    requires k + 1 < |marks|
  {
    marks[k] <= marks[k + 1] <= |log| && Tells(t, log[marks[k]..marks[k + 1]])
  }

  /** The log is what the turns tell, one after the other; `marks` says where each begins. */
  predicate TellsAll(turns: seq<Turn>, log: Log, marks: seq<nat>) {
    && |marks| == |turns| + 1 && marks[0] == 0 && marks[|turns|] == |log|
    && forall k :: 0 <= k < |turns| ==> TellsFrom(turns[k], log, marks, k)
  }

  // ----- what the log says of itself

  /** When the latest attempt ended; the daemon's start counts as one. */
  function LastEnd(log: Log, start: int): int {
    if log == [] then start
    else
      var e := log[|log| - 1];
      if e.Attempt? then e.ended else LastEnd(log[..|log| - 1], start)
  }

  /** The deadline that stands behind the log. */
  function DueAfter(log: Log, start: int): Option<int> {
    if log == [] then Some(start)
    else
      var e, before := log[|log| - 1], DueAfter(log[..|log| - 1], start);
      match e
      case Looked(_) => before
      case Attempt(_, _, ended, done) => if done then None else Some(ended + RETRY_AFTER)
      case Forced(at) => Some(at)
      case Claim(_, _, _) => Some(if before.Some? && before.value < Promise(e) then before.value else Promise(e))
  }

  /** The entry fits what stands before it. */
  predicate FitsBehind(log: Log, e: Entry, start: int) {
    match e
    case Looked(at) => DueAfter(log, start).Some? ==> at < DueAfter(log, start).value
    case Attempt(at, due, _, _) => DueAfter(log, start) == Some(due) && due <= at
    case Forced(_) => true
    case Claim(_, lastPass, within) => lastPass == LastEnd(log, start) && FLOOR <= within <= AGEING_SETTLE
  }

  /**
   * Every claim counts from the end of the latest attempt before it, every attempt comes when
   * it is due by what stands before it, and a look that attempts nothing finds nothing due.
   */
  predicate Accounted(log: Log, start: int) {
    forall k :: 0 <= k < |log| ==> FitsBehind(log[..k], log[k], start)
  }

  lemma AccountedOneMore(log: Log, e: Entry, start: int)
    requires Accounted(log, start) && FitsBehind(log, e, start)
    ensures Accounted(log + [e], start)
    ensures LastEnd(log + [e], start) == if e.Attempt? then e.ended else LastEnd(log, start)
    ensures DueAfter(log + [e], start) ==
            match e
            case Looked(_) => DueAfter(log, start)
            case Attempt(_, _, ended, done) => if done then None else Some(ended + RETRY_AFTER)
            case Forced(at) => Some(at)
            case Claim(_, _, _) =>
              var before := DueAfter(log, start);
              Some(if before.Some? && before.value < Promise(e) then before.value else Promise(e))
  {
    hide FitsBehind, Promise;
    var more := log + [e];
    assert more[..|log|] == log;
    forall k | 0 <= k < |more|
      ensures FitsBehind(more[..k], more[k], start)
    {
      assert k < |log| ==> more[..k] == log[..k];
    }
  }

  /** The schedule holds what the log says. */
  predicate Holds(log: Log, start: int, due: Option<int>, lastPass: int) {
    Accounted(log, start) && due == DueAfter(log, start) && lastPass == LastEnd(log, start)
  }

  // ----- how long it waits

  /** The wait asked for behind a log: rounded up, or endless. */
  function WaitFor(log: Log, start: int, now: int): int {
    var due := DueAfter(log, start);
    if due.None? then -1 else RoundedWait(Max(due.value - now, 0))
  }

  /** A turn that began here waits by what stands at the end of its top half; a refused pass does not wait. */
  predicate WaitFits(t: Turn, log: Log, from: nat, start: int, wait: Option<int>) {
    var top := from + |Knock(t)| + 1;
    && top <= |log|
    && wait == if log[top - 1].Attempt? && t.refused then None else Some(WaitFor(log[..top], start, t.waited))
  }

  predicate WaitsFit(turns: seq<Turn>, log: Log, marks: seq<nat>, start: int, waits: seq<Option<int>>) {
    && |waits| == |turns| <= |marks|
    && forall k :: 0 <= k < |turns| ==> WaitFits(turns[k], log, marks[k], start, waits[k])
  }

  lemma WaitStays(t: Turn, log: Log, more: Log, from: nat, start: int, wait: Option<int>)
    requires WaitFits(t, log, from, start, wait) && log <= more
    ensures WaitFits(t, more, from, start, wait)
  {
    var top := from + |Knock(t)| + 1;
    assert more[..top] == log[..top];
  }

  lemma TurnStays(log: Log, more: Log, a: nat, b: nat)
    requires a <= b <= |log| && log <= more
    ensures more[a..b] == log[a..b]
  {
  }

  // ----- what every step keeps

  /** The schedule agrees with the log: `last` is the latest attempt, or -1. */
  ghost predicate Agrees(log: Log, last: int, due: Option<int>, lastPass: int, clock: int) {
    && -1 <= last < |log|
    && NoAttempt(log, last, |log|)
    && (last == -1 ==> due.Some? && due.value <= clock)
    && (last >= 0 ==> log[last].Attempt? && lastPass == log[last].ended)
    && (last >= 0 && due.Some? && !HasForced(log, last, |log|) ==> due.value >= lastPass + FLOOR)
    && (last >= 0 && log[last].done && !HasReason(log, last, |log|) ==> due.None?)
    && (HasForced(log, last, |log|) ==> due.Some? && due.value <= clock)
    && (forall k :: 0 <= k < |log| && last <= k && Owes(log[k]) ==>
          due.Some? && (due.value <= Promise(log[k]) || HasForced(log, k, |log|)))
  }

  ghost predicate Kept(log: Log) {
    RateBounded(log) && NoneUnbought(log) && Answered(log)
  }

  /** A new entry changes nothing about the stretches that were there. */
  lemma OldStretches(log: Log, e: Entry)
    ensures forall i, j :: j <= |log| ==> (HasForced(log + [e], i, j) <==> HasForced(log, i, j))
    ensures forall i, j :: j <= |log| ==> (HasReason(log + [e], i, j) <==> HasReason(log, i, j))
    ensures forall i, j :: j <= |log| ==> (NoAttempt(log + [e], i, j) <==> NoAttempt(log, i, j))
    ensures forall i: nat, j: nat :: j < |log| ==> (Consecutive(log + [e], i, j) <==> Consecutive(log, i, j))
    ensures forall i :: i < |log| ==>
              (HasForced(log + [e], i, |log + [e]|) <==> HasForced(log, i, |log|) || e.Forced?)
    ensures forall i :: i < |log| ==>
              (HasReason(log + [e], i, |log + [e]|) <==> HasReason(log, i, |log|) || e.Forced? || e.Claim?)
    ensures forall i :: i < |log| ==>
              (NoAttempt(log + [e], i, |log + [e]|) <==> NoAttempt(log, i, |log|) && !e.Attempt?)
  {
    forall i, j | j <= |log|
      ensures HasForced(log + [e], i, j) <==> HasForced(log, i, j)
      ensures HasReason(log + [e], i, j) <==> HasReason(log, i, j)
      ensures NoAttempt(log + [e], i, j) <==> NoAttempt(log, i, j)
    {
      OldStretch(log, e, i, j);
    }
    forall i | i < |log|
      ensures HasForced(log + [e], i, |log + [e]|) <==> HasForced(log, i, |log|) || e.Forced?
      ensures HasReason(log + [e], i, |log + [e]|) <==> HasReason(log, i, |log|) || e.Forced? || e.Claim?
      ensures NoAttempt(log + [e], i, |log + [e]|) <==> NoAttempt(log, i, |log|) && !e.Attempt?
    {
      LastStretch(log, e, i);
    }
    forall i: nat, j: nat | j < |log|
      ensures Consecutive(log + [e], i, j) <==> Consecutive(log, i, j)
    {
      SameEntries(log, e);
    }
  }

  lemma SameEntries(log: Log, e: Entry)
    ensures (log + [e])[|log|] == e
    ensures forall k :: 0 <= k < |log| ==> log[k] == (log + [e])[k]
  {
  }

  lemma OldStretch(log: Log, e: Entry, i: int, j: int)
    requires j <= |log|
    ensures HasForced(log + [e], i, j) <==> HasForced(log, i, j)
    ensures HasReason(log + [e], i, j) <==> HasReason(log, i, j)
    ensures NoAttempt(log + [e], i, j) <==> NoAttempt(log, i, j)
  {
    SameEntries(log, e);
  }

  lemma LastStretch(log: Log, e: Entry, i: int)
    requires i < |log|
    ensures HasForced(log + [e], i, |log + [e]|) <==> HasForced(log, i, |log|) || e.Forced?
    ensures HasReason(log + [e], i, |log + [e]|) <==> HasReason(log, i, |log|) || e.Forced? || e.Claim?
    ensures NoAttempt(log + [e], i, |log + [e]|) <==> NoAttempt(log, i, |log|) && !e.Attempt?
  {
    SameEntries(log, e);
  }

  lemma AddLooked(log: Log, last: int, due: Option<int>, lastPass: int, clock: int, t: int)
    requires Kept(log) && Agrees(log, last, due, lastPass, clock)
    requires clock <= t && (due.Some? ==> t < due.value)
    ensures Kept(log + [Looked(t)]) && Agrees(log + [Looked(t)], last, due, lastPass, t)
  {
    hide HasForced, HasReason, NoAttempt, Consecutive;
    var more := log + [Looked(t)];
    OldStretches(log, Looked(t));
    ConsecutiveEnds(more);
    assert !NoAttempt(log, -1, |log|) by {
      AttemptSeen(log, last);
    }
    forall i | 0 <= i < |log| && Owes(log[i]) && NoAttempt(log, i, |log|)
      ensures t < Promise(log[i])
    {
      PendingIsRecent(log, last, i);
      ForcedReaches(log, last, i);
    }
  }

  lemma AddForced(log: Log, last: int, due: Option<int>, lastPass: int, clock: int, t: int)
    requires Kept(log) && Agrees(log, last, due, lastPass, clock) && clock <= t
    ensures Kept(log + [Forced(t)]) && Agrees(log + [Forced(t)], last, Some(t), lastPass, t)
  {
    hide HasForced, HasReason, NoAttempt, Consecutive;
    OldStretches(log, Forced(t));
    ConsecutiveEnds(log + [Forced(t)]);
  }

  lemma AddClaim(log: Log, last: int, due: Option<int>, lastPass: int, clock: int, t: int, within: int, now: int)
    requires Kept(log) && Agrees(log, last, due, lastPass, clock) && clock <= t && within >= FLOOR
    requires var bought := Max(t, lastPass + within);
             now == if due.Some? && due.value < bought then due.value else bought
    ensures var more := log + [Claim(t, lastPass, within)];
            Kept(more) && Agrees(more, last, Some(now), lastPass, t)
  {
    hide HasForced, HasReason, NoAttempt, Consecutive;
    OldStretches(log, Claim(t, lastPass, within));
    ConsecutiveEnds(log + [Claim(t, lastPass, within)]);
  }

  lemma AddAttempt(log: Log, last: int, due: Option<int>, lastPass: int, clock: int, t: int, ended: int, done: bool)
    requires Kept(log) && Agrees(log, last, due, lastPass, clock)
    requires clock <= t <= ended && due.Some? && due.value <= t
    ensures var more := log + [Attempt(t, due.value, ended, done)];
            && Kept(more)
            && Agrees(more, |log|, if done then None else Some(ended + RETRY_AFTER), ended, ended)
  {
    hide HasForced, HasReason, NoAttempt, Consecutive;
    var e := Attempt(t, due.value, ended, done);
    var more := log + [e];
    OldStretches(log, e);
    ConsecutiveEnds(more);
    forall i: nat | Consecutive(more, i, |log|)
      ensures i == last
    {
      ConsecutiveIsLast(log, e, last, i);
    }
    forall i | 0 <= i < |log| && Owes(log[i]) && NoAttempt(log, i, |log|)
      ensures due.value <= Promise(log[i]) || HasForced(log, i, |log|)
    {
      PendingIsRecent(log, last, i);
    }
    NothingBehindTheEnd(more);
  }

  lemma ConsecutiveEnds(log: Log)
    ensures forall i: nat, j: nat :: Consecutive(log, i, j) ==> j < |log| && log[j].Attempt? && i < j
  {
  }

  lemma ConsecutiveIsLast(log: Log, e: Entry, last: int, i: nat)
    requires e.Attempt? && -1 <= last < |log| && NoAttempt(log, last, |log|)
    requires last >= 0 ==> log[last].Attempt?
    requires Consecutive(log + [e], i, |log|)
    ensures i == last
  {
    SameEntries(log, e);
  }

  lemma AttemptSeen(log: Log, last: int)
    requires 0 <= last < |log| && log[last].Attempt?
    ensures !NoAttempt(log, -1, |log|)
  {
  }

  lemma PendingIsRecent(log: Log, last: int, i: int)
    requires -1 <= last < |log| && 0 <= i < |log| && NoAttempt(log, i, |log|)
    requires last >= 0 ==> log[last].Attempt?
    ensures i >= last
  {
  }

  lemma ForcedReaches(log: Log, last: int, i: int)
    requires last <= i
    ensures HasForced(log, i, |log|) ==> HasForced(log, last, |log|)
  {
  }

  lemma NothingBehindTheEnd(log: Log)
    ensures forall i :: i >= |log| - 1 ==> NoAttempt(log, i, |log|) && !HasForced(log, i, |log|) && !HasReason(log, i, |log|)
  {
  }

  // ----- every run

  /**
   * The daemon over any world: the pass rate is bounded, nothing runs a pass that nothing
   * bought, and no claim outlives its promise, which counts from the latest attempt before it.
   */
  method DaemonLoop(turns: seq<Turn>, start: int) returns (log: Log, waits: seq<Option<int>>, ghost marks: seq<nat>)
    requires ClockRuns(turns, start)
    ensures TellsAll(turns, log, marks) && Accounted(log, start)
    ensures WaitsFit(turns, log, marks, start, waits)
    ensures RateBounded(log) && NoneUnbought(log) && Answered(log)
  {
    hide Agrees, Kept, Max, Tells, Accounted, WaitFits, Holds;
    var schedule := new Schedule(start);
    log, waits, marks := [], [], [0];
    ghost var last, clock := -1, start;
    NothingHappened(start);
    for k := 0 to |turns|
      invariant fresh(schedule)
      invariant Kept(log) && Agrees(log, last, schedule.due, schedule.lastPass, clock)
      invariant Holds(log, start, schedule.due, schedule.lastPass)
      invariant TellsAll(turns[..k], log, marks) && WaitsFit(turns[..k], log, marks, start, waits)
      invariant k < |turns| ==> clock <= turns[k].knocked
    {
      var wait;
      ghost var before := log;
      log, wait, last := OneTurn(schedule, log, turns[k], last, clock, start);
      clock := if wait.None? then turns[k].ran else turns[k].heard;
      OneTurnMore(turns, k, before, log, marks, start, waits, wait);
      waits, marks := waits + [wait], marks + [|log|];
    }
    assert turns[..|turns|] == turns;
    KeptMeans(log);
    HoldsMeans(log, start, schedule.due, schedule.lastPass);
  }

  lemma HoldsMeans(log: Log, start: int, due: Option<int>, lastPass: int)
    requires Holds(log, start, due, lastPass)
    ensures Accounted(log, start)
  {
  }

  lemma OneTurnMore(turns: seq<Turn>, k: nat, log: Log, more: Log, marks: seq<nat>, start: int, waits: seq<Option<int>>,
                    wait: Option<int>)
    requires k < |turns| && TellsAll(turns[..k], log, marks) && WaitsFit(turns[..k], log, marks, start, waits)
    requires log <= more && Tells(turns[k], more[|log|..]) && WaitFits(turns[k], more, |log|, start, wait)
    ensures TellsAll(turns[..k + 1], more, marks + [|more|])
    ensures WaitsFit(turns[..k + 1], more, marks + [|more|], start, waits + [wait])
  {
    hide Tells, WaitFits;
    var marks', waits' := marks + [|more|], waits + [wait];
    assert marks'[k] == |log| && more[|log|..|more|] == more[|log|..];
    forall j | 0 <= j < k + 1
      ensures TellsFrom(turns[..k + 1][j], more, marks', j)
      ensures WaitFits(turns[..k + 1][j], more, marks'[j], start, waits'[j])
    {
      if j < k {
        assert turns[..k][j] == turns[j] && TellsFrom(turns[..k][j], log, marks, j);
        TurnStays(log, more, marks[j], marks[j + 1]);
        WaitStays(turns[j], log, more, marks[j], start, waits[j]);
      }
    }
  }

  /** One turn: the top of the loop, and unless a pass was refused, the wait and what arrived. */
  method OneTurn(schedule: Schedule, log: Log, t: Turn, ghost last: int, ghost clock: int, ghost start: int)
    returns (more: Log, wait: Option<int>, ghost latest: int)
    requires Kept(log) && Agrees(log, last, schedule.due, schedule.lastPass, clock)
    requires Ordered(t) && clock <= t.knocked && Holds(log, start, schedule.due, schedule.lastPass)
    modifies schedule
    ensures Kept(more)
    ensures Agrees(more, latest, schedule.due, schedule.lastPass, if wait.None? then t.ran else t.heard)
    ensures Holds(more, start, schedule.due, schedule.lastPass)
    ensures log <= more && Tells(t, more[|log|..]) && WaitFits(t, more, |log|, start, wait)
  {
    hide Agrees, Kept, Max, Tells, Accounted, DueAfter, LastEnd, EndsAs;
    var again;
    more, again, latest := Top(schedule, log, t, last, clock, start);
    ghost var top := more;
    assert top[..|log|] == log && top[|log| + |Knock(t)|] == top[|log|..][|Knock(t)|];
    if again {
      wait := None;
      TurnTells(t, top[|log|..], []);
      assert top[|log|..] + [] == top[|log|..];
    } else {
      var millis;
      more, millis := Bottom(schedule, more, t, latest, start);
      wait := Some(millis);
      TurnTells(t, top[|log|..], more[|top|..]);
      assert more[|log|..] == top[|log|..] + more[|top|..];
      assert more[..|top|] == top;
    }
  }

  /** The top of the loop: a knock of the operator, and the pass that is due. */
  method Top(schedule: Schedule, log: Log, t: Turn, ghost last: int, ghost clock: int, ghost start: int)
    returns (more: Log, again: bool, ghost latest: int)
    requires Kept(log) && Agrees(log, last, schedule.due, schedule.lastPass, clock)
    requires Ordered(t) && clock <= t.knocked && Holds(log, start, schedule.due, schedule.lastPass)
    modifies schedule
    ensures Holds(more, start, schedule.due, schedule.lastPass)
    ensures Kept(more) && Agrees(more, latest, schedule.due, schedule.lastPass, t.ran)
    ensures log <= more && TellsTop(t, more[|log|..], again)
  {
    hide Agrees, Kept, Accounted, DueAfter, LastEnd, Promise;
    more, again, latest := log, false, last;
    if t.operator {
      AddForced(more, last, schedule.due, schedule.lastPass, clock, t.knocked);
      AccountedOneMore(more, Forced(t.knocked), start);
      schedule.AtOnce(t.knocked, Operator);
      more := more + [Forced(t.knocked)];
    } else {
      ClockMoves(more, last, schedule.due, schedule.lastPass, clock, t.knocked);
    }
    if schedule.PassDue(t.looked) {
      AddAttempt(more, last, schedule.due, schedule.lastPass, t.knocked, t.looked, t.ran, !t.refused);
      AccountedOneMore(more, Attempt(t.looked, schedule.due.value, t.ran, !t.refused), start);
      latest := |more|;
      more := more + [Attempt(t.looked, schedule.due.value, t.ran, !t.refused)];
      if t.refused {
        schedule.RetrySoon(t.ran);
        again := true;
      } else {
        schedule.Completed(t.ran);
      }
    } else {
      AddLooked(more, last, schedule.due, schedule.lastPass, t.knocked, t.looked);
      AccountedOneMore(more, Looked(t.looked), start);
      more := more + [Looked(t.looked)];
      ClockMoves(more, last, schedule.due, schedule.lastPass, t.looked, t.ran);
    }
  }

  /** The rest of a turn: wait, and answer what arrived. */
  method Bottom(schedule: Schedule, log: Log, t: Turn, ghost last: int, ghost start: int)
    returns (more: Log, millis: int)
    requires Kept(log) && Agrees(log, last, schedule.due, schedule.lastPass, t.ran) && Ordered(t)
    requires Holds(log, start, schedule.due, schedule.lastPass)
    modifies schedule
    ensures Holds(more, start, schedule.due, schedule.lastPass)
    ensures Kept(more) && Agrees(more, last, schedule.due, schedule.lastPass, t.heard)
    ensures log <= more && EndsAs(t, more[|log|..])
    ensures millis == WaitFor(log, start, t.waited)
  {
    hide Agrees, Kept, Accounted, DueAfter, LastEnd;
    more := log;
    millis := schedule.WaitMillis(t.waited);
    match t.wait {
      case WaitFailed =>
        AddForced(more, last, schedule.due, schedule.lastPass, t.ran, t.heard);
        AccountedOneMore(more, Forced(t.heard), start);
        schedule.AtOnce(t.heard, Recovery);
        more := more + [Forced(t.heard)];
      case NothingArrived =>
        ClockMoves(more, last, schedule.due, schedule.lastPass, t.ran, t.heard);
      case Arrived(None) =>
        AddForced(more, last, schedule.due, schedule.lastPass, t.ran, t.heard);
        AccountedOneMore(more, Forced(t.heard), start);
        schedule.AtOnce(t.heard, LostEvents);
        more := more + [Forced(t.heard)];
      case Arrived(Some(batch)) =>
        var bought := HandleBatch(batch, schedule.lastPass, t.heard);
        if bought.Some? {
          var at := bought.value.0;
          var now := if schedule.due.Some? && schedule.due.value < at then schedule.due.value else at;
          AddClaim(more, last, schedule.due, schedule.lastPass, t.ran, t.heard, Within(batch), now);
          AccountedOneMore(more, Claim(t.heard, schedule.lastPass, Within(batch)), start);
          schedule.BringForward(at, bought.value.1);
          more := more + [Claim(t.heard, schedule.lastPass, Within(batch))];
        } else {
          ClockMoves(more, last, schedule.due, schedule.lastPass, t.ran, t.heard);
        }
    }
  }

  /** The first half of what a turn tells; a refused pass goes back to the top. */
  predicate TellsTop(t: Turn, told: Log, again: bool) {
    var knock := Knock(t);
    && |told| == |knock| + 1 && knock <= told
    && var e := told[|knock|];
       || (e == Looked(t.looked) && !again)
       || (e.Attempt? && e.at == t.looked && e.ended == t.ran && (e.done <==> !t.refused) && (again <==> t.refused))
  }

  lemma TurnTells(t: Turn, top: Log, rest: Log)
    requires (TellsTop(t, top, true) && rest == []) || (TellsTop(t, top, false) && EndsAs(t, rest))
    ensures Tells(t, top + rest)
  {
    assert (top + rest)[|top|..] == rest;
  }

  lemma ClockMoves(log: Log, last: int, due: Option<int>, lastPass: int, clock: int, later: int)
    requires Agrees(log, last, due, lastPass, clock) && clock <= later
    ensures Agrees(log, last, due, lastPass, later)
  {
  }

  lemma NothingHappened(start: int)
    ensures Kept([]) && Agrees([], -1, Some(start), start, start) && Holds([], start, Some(start), start)
  {
  }

  lemma KeptMeans(log: Log)
    requires Kept(log)
    ensures RateBounded(log) && NoneUnbought(log) && Answered(log)
  {
  }

  /**
   * In such a log no look finds a claim unanswered at its arrival or five seconds after the end
   * of the latest attempt before it, whichever is later; and what answers it was due by then.
   */
  lemma ClaimsAreTimely(log: Log, start: int, i: nat, j: nat)
    requires Accounted(log, start) && Answered(log)
    requires i < j < |log| && log[i].Claim? && NoAttempt(log, i, j)
    ensures var latest := Max(log[i].at, LastEnd(log[..i], start) + AGEING_SETTLE);
            && (log[j].Looked? ==> log[j].at < latest)
            && (log[j].Attempt? ==> log[j].due <= log[j].at && (log[j].due <= latest || HasForced(log, i, j)))
  {
    assert FitsBehind(log[..i], log[i], start);
    assert Owes(log[i]);
  }

  // ----- how prompt it is

  /** A world that comes back from a wait no later than it was told to. */
  predicate ReturnsInTime(t: Turn, wait: int) {
    wait >= 0 ==> t.heard <= t.waited + wait * MILLISECOND
  }

  /**
   * In such a world no attempt is late: it starts within a millisecond of the time it was due, or
   * of the wait where that began behind it, and the few steps of the loop in between.
   */
  lemma AttemptsArePrompt(turns: seq<Turn>, log: Log, marks: seq<nat>, start: int, waits: seq<Option<int>>, k: nat)
    requires ClockRuns(turns, start) && TellsAll(turns, log, marks) && Accounted(log, start)
    requires WaitsFit(turns, log, marks, start, waits) && k + 1 < |turns|
    requires waits[k].Some? && ReturnsInTime(turns[k], waits[k].value)
    ensures var at := marks[k + 1] + |Knock(turns[k + 1])|;
            && at < |log|
            && (log[at].Attempt? ==>
                  log[at].at < Max(log[at].due, turns[k].waited) + MILLISECOND + (turns[k + 1].looked - turns[k].heard))
  {
    hide Tells, WaitFits, ClockRuns, Accounted;
    var t, next := turns[k], turns[k + 1];
    assert TellsFrom(next, log, marks, k + 1) && TellsFrom(t, log, marks, k);
    assert WaitFits(t, log, marks[k], start, waits[k]) && WaitFits(next, log, marks[k + 1], start, waits[k + 1]);
    TheClockRuns(turns, start, k);
    NextIsPrompt(t, next, log, marks[k], marks[k + 1], marks[k + 1 + 1], start, waits[k].value);
  }

  lemma NextIsPrompt(t: Turn, next: Turn, log: Log, from: nat, mark: nat, end: nat, start: int, wait: int)
    requires from <= mark <= end <= |log| && Accounted(log, start)
    requires Tells(t, log[from..mark]) && Tells(next, log[mark..end])
    requires WaitFits(t, log, from, start, Some(wait)) && ReturnsInTime(t, wait)
    requires Ordered(t) && Ordered(next) && t.heard <= next.knocked
    ensures var at := mark + |Knock(next)|;
            && at < |log|
            && (log[at].Attempt? ==>
                  log[at].at < Max(log[at].due, t.waited) + MILLISECOND + (next.looked - t.heard))
  {
    hide EndsAs, WaitFor, DueAfter, Accounted;
    var top, at := from + |Knock(t)| + 1, mark + |Knock(next)|;
    TopIsLook(next, log, mark, end);
    if log[at].Attempt? {
      EntryFits(log, start, at);
      EndOfTurn(t, log, from, mark);
      NothingEarlier(t, log, top, mark, start);
      KnockIsNow(next, log, mark, at, end, start);
      InTime(log[..top], start, t, wait, log[at].due);
    }
  }

  lemma TopIsLook(t: Turn, log: Log, from: nat, mark: nat)
    requires from <= mark <= |log| && Tells(t, log[from..mark])
    ensures var at := from + |Knock(t)|;
            at < mark && (log[at].Attempt? ==> log[at].at == t.looked)
  {
    hide EndsAs;
    assert log[from..mark][|Knock(t)|] == log[from + |Knock(t)|];
  }

  lemma EntryFits(log: Log, start: int, k: nat)
    requires Accounted(log, start) && k < |log|
    ensures FitsBehind(log[..k], log[k], start)
  {
  }

  lemma TheClockRuns(turns: seq<Turn>, start: int, k: nat)
    requires ClockRuns(turns, start) && k + 1 < |turns|
    ensures Ordered(turns[k]) && Ordered(turns[k + 1]) && turns[k].heard <= turns[k + 1].knocked
  {
  }

  /** The bottom half of a turn that waited is what it ends with. */
  lemma EndOfTurn(t: Turn, log: Log, from: nat, mark: nat)
    requires from <= mark <= |log| && Tells(t, log[from..mark])
    requires var top := from + |Knock(t)| + 1; top <= |log| && !(log[top - 1].Attempt? && t.refused)
    ensures var top := from + |Knock(t)| + 1; top <= mark && EndsAs(t, log[top..mark])
  {
    hide EndsAs;
    var top := from + |Knock(t)| + 1;
    assert log[from..mark][|Knock(t)|] == log[top - 1];
    assert log[from..mark][|Knock(t)| + 1..] == log[top..mark];
  }

  /** What arrives buys no pass for a time before it arrived. */
  lemma NothingEarlier(t: Turn, log: Log, top: nat, mark: nat, start: int)
    requires top <= mark <= |log| && EndsAs(t, log[top..mark])
    ensures var due := DueAfter(log[..mark], start);
            due == DueAfter(log[..top], start) || (due.Some? && due.value >= t.heard)
  {
    if top == mark {
      assert log[..mark] == log[..top];
    } else {
      assert log[top..mark][0] == log[top];
      assert mark == top + 1 && log[..mark][..mark - 1] == log[..top];
    }
  }

  lemma KnockIsNow(next: Turn, log: Log, mark: nat, at: nat, end: nat, start: int)
    requires mark <= end <= |log| && Tells(next, log[mark..end]) && at == mark + |Knock(next)|
    ensures at <= |log|
    ensures DueAfter(log[..at], start) == if next.operator then Some(next.knocked) else DueAfter(log[..mark], start)
  {
    hide EndsAs;
    if next.operator {
      assert log[mark..end][0] == log[mark] == Forced(next.knocked);
      assert log[..at][..at - 1] == log[..mark];
    } else {
      assert log[..at] == log[..mark];
    }
  }

  /** A deadline that stood when the wait began has been reached at its end, and by less than a millisecond. */
  lemma InTime(top: Log, start: int, t: Turn, wait: int, due: int)
    requires wait == WaitFor(top, start, t.waited) && ReturnsInTime(t, wait)
    ensures DueAfter(top, start) == Some(due) ==> t.heard < Max(due, t.waited) + MILLISECOND
  {
    hide DueAfter;
    if DueAfter(top, start) == Some(due) {
      WaitReachesDeadline(Max(due - t.waited, 0));
    }
  }
}
