// Grow-and-retry dumps against a kernel that may answer anything (src/netlink.rs, `run_dump`
// and `dump_into`). What is received in one attempt is an arbitrary list of replies, old
// leftovers included; running out of replies is the deadline passing.

module Dump {
  import opened Basics
  import opened Netlink

  const CEILING := 0x400_0000
  const ATTEMPTS := 8
  const SEQUENCE_NUMBERS := 0x1_0000_0000

  datatype Reply = Datagram(bytes: Bytes) | ReceiveError(code: int)

  datatype Failure =
    | TimedOut
    | Sending(code: int)
    | Receiving(code: int)
    | Kernel(errno: int)
    | MalformedError
    | BeyondCeiling(need: nat)
    | NeverWhole

  datatype End = Done | Interrupted | TooBig(need: nat) | Failed(why: Failure)

  predicate IsInterrupted(m: Message) {
    m.flags / 0x10 % 2 == 1
  }

  /** The leading status word: zero or missing is success, anything else an errno. */
  function NlmsgError(payload: Bytes): Option<int> {
    if |payload| < 4 || I32(payload, 0) == 0 then None
    else
      var code := I32(payload, 0);
      Some(if code == -0x8000_0000 then 0x7FFF_FFFF else if code < 0 then -code else code)
  }

  // ----- one attempt, message by message

  /** How a message ends the attempt, if it does. */
  function EndOf(m: Message, seqno: nat): Option<End> {
    if m.seqno != seqno then None
    else if IsInterrupted(m) then Some(Interrupted)
    else if m.kind == NLMSG_DONE then
      match NlmsgError(m.payload)
      case Some(e) => Some(Failed(Kernel(e)))
      case None => Some(Done)
    else if m.kind == NLMSG_ERROR then
      match NlmsgError(m.payload)
      case Some(e) => Some(Failed(Kernel(e)))
      case None => Some(Failed(MalformedError))
    else None
  }

  predicate IsWanted(m: Message, want: nat, seqno: nat) {
    m.seqno == seqno && !IsInterrupted(m) && m.kind == want &&
    m.kind != NLMSG_DONE && m.kind != NLMSG_ERROR && m.kind != NLMSG_NOOP
  }

  /** The bodies a list of messages hands to the parser. */
  function Bodies(ms: seq<Message>, want: nat, seqno: nat): seq<Bytes> {
    if ms == [] then []
    else
      Bodies(ms[..|ms| - 1], want, seqno) +
      if IsWanted(ms[|ms| - 1], want, seqno) then [ms[|ms| - 1].payload] else []
  }

  /** Every message of the first datagrams, in order. */
  function Heard(replies: seq<Reply>): seq<Message> {
    if replies == [] then []
    else
      Heard(replies[..|replies| - 1]) +
      match replies[|replies| - 1]
      case Datagram(bytes) => MessagesOf(bytes)
      case ReceiveError(_) => []
  }

  predicate Fits(r: Reply, room: nat) {
    r.Datagram? && |r.bytes| <= room
  }

  predicate Quiet(ms: seq<Message>, seqno: nat) {
    forall k :: 0 <= k < |ms| ==> EndOf(ms[k], seqno) == None
  }

  /** Nothing has ended the attempt yet, and these are the wanted bodies so far. */
  ghost predicate Collected(ms: seq<Message>, want: nat, seqno: nat, out: seq<Bytes>) {
    Quiet(ms, seqno) && out == Bodies(ms, want, seqno)
  }

  /**
   * What a clean attempt is, said without running it: the replies up to some datagram all
   * fit, the first message that ends anything is a done without an error, and the result is
   * the wanted bodies before it.
   */
  ghost predicate CleanAttempt(room: nat, want: nat, seqno: nat, replies: seq<Reply>, out: seq<Bytes>) {
    exists r: nat, j: nat :: CleanUpTo(room, want, seqno, replies, out, r, j)
  }

  ghost predicate CleanUpTo(
    room: nat, want: nat, seqno: nat, replies: seq<Reply>, out: seq<Bytes>, r: nat, j: nat)
  {
    && r < |replies| && j < |Heard(replies[..r + 1])|
    && |Heard(replies[..r])| <= j
    && (forall k :: 0 <= k <= r ==> Fits(replies[k], room))
    && Collected(Heard(replies[..r + 1])[..j], want, seqno, out)
    && EndOf(Heard(replies[..r + 1])[j], seqno) == Some(Done)
  }

  /** How the first message to end anything ends it. */
  function FirstEnd(ms: seq<Message>, seqno: nat): Option<End> {
    if ms == [] then None
    else
      var before := FirstEnd(ms[..|ms| - 1], seqno);
      if before.Some? then before else EndOf(ms[|ms| - 1], seqno)
  }

  /** How the first reply to end anything ends it. */
  function StopOf(replies: seq<Reply>, room: nat, seqno: nat): Option<End> {
    if replies == [] then None
    else
      var before := StopOf(replies[..|replies| - 1], room, seqno);
      if before.Some? then before
      else
        match replies[|replies| - 1]
        case ReceiveError(code) => Some(Failed(Receiving(code)))
        case Datagram(bytes) => if |bytes| > room then Some(TooBig(|bytes|)) else FirstEnd(MessagesOf(bytes), seqno)
  }

  /** Nothing more to come is the deadline passing. */
  function EndOfAttempt(replies: seq<Reply>, room: nat, seqno: nat): End {
    var stop := StopOf(replies, room, seqno);
    if stop.Some? then stop.value else Failed(TimedOut)
  }

  lemma {:induction false} FirstEndStays(ms: seq<Message>, seqno: nat, k: nat)
    requires k < |ms| && FirstEnd(ms[..k], seqno).None? && EndOf(ms[k], seqno).Some?
    ensures FirstEnd(ms, seqno) == EndOf(ms[k], seqno)
  {
    hide EndOf;
    var init := ms[..|ms| - 1];
    if k < |ms| - 1 {
      assert init[..k] == ms[..k];
      FirstEndStays(init, seqno, k);
    } else {
      assert ms[..k] == init;
    }
  }

  lemma {:induction false} StopStays(replies: seq<Reply>, room: nat, seqno: nat, r: nat)
    requires r <= |replies| && StopOf(replies[..r], room, seqno).Some?
    ensures StopOf(replies, room, seqno) == StopOf(replies[..r], room, seqno)
  {
    hide FirstEnd, MessagesOf;
    if r < |replies| {
      var init := replies[..|replies| - 1];
      assert init[..r] == replies[..r];
      StopStays(init, room, seqno, r);
    } else {
      assert replies[..r] == replies;
    }
  }

  /** One datagram. The bodies go to `sink`; `None` when it did not end the dump. */
  method ReadDatagram(bytes: Bytes, want: nat, seqno: nat, sink: seq<Bytes>, ghost before: seq<Message>)
    returns (end: Option<End>, out: seq<Bytes>, ghost upTo: nat)
    requires Collected(before, want, seqno, sink)
    ensures upTo <= |MessagesOf(bytes)|
    ensures Collected(before + MessagesOf(bytes)[..upTo], want, seqno, out)
    ensures end.None? ==> upTo == |MessagesOf(bytes)|
    ensures end.Some? ==> upTo < |MessagesOf(bytes)| && end == EndOf(MessagesOf(bytes)[upTo], seqno)
    ensures end.Some? ==> !end.value.TooBig?
    ensures end == FirstEnd(MessagesOf(bytes), seqno) && end != Some(Failed(NeverWhole))
  {
    hide MessagesFrom, IsInterrupted, NlmsgError;
    out, upTo := sink, 0;
    var walk := new Messages(bytes);
    ghost var all := MessagesOf(bytes);
    assert before + all[..0] == before;
    while true
      invariant upTo <= |all| && walk.Left() == all[upTo..]
      invariant Collected(before + all[..upTo], want, seqno, out)
      invariant FirstEnd(all[..upTo], seqno) == None
      decreases walk.Rank()
    {
      var next := walk.Next();
      if next.None? {
        assert all[..upTo] == all;
        return None, out, upTo;
      }
      var m := next.value;
      assert m == all[upTo] && walk.Left() == all[upTo + 1..];
      assert all[..upTo + 1][..upTo] == all[..upTo];
      if EndOf(m, seqno).Some? {
        FirstEndStays(all, seqno, upTo);
      }
      if m.seqno == seqno {
        if IsInterrupted(m) {
          return Some(Interrupted), out, upTo;
        }
        if m.kind == NLMSG_DONE {
          var e := NlmsgError(m.payload);
          return Some(if e.Some? then Failed(Kernel(e.value)) else Done), out, upTo;
        }
        if m.kind == NLMSG_ERROR {
          var e := NlmsgError(m.payload);
          return Some(Failed(if e.Some? then Kernel(e.value) else MalformedError)), out, upTo;
        }
        if m.kind != NLMSG_NOOP && m.kind == want {
          out := out + [m.payload];
        }
      }
      HeardOneMore(before + all[..upTo], m, want, seqno);
      assert before + all[..upTo + 1] == before + all[..upTo] + [m];
      upTo := upTo + 1;
    }
  }

  lemma HeardOneMore(ms: seq<Message>, m: Message, want: nat, seqno: nat)
    requires Quiet(ms, seqno) && EndOf(m, seqno) == None
    ensures Quiet(ms + [m], seqno)
    ensures Bodies(ms + [m], want, seqno) ==
            Bodies(ms, want, seqno) + if IsWanted(m, want, seqno) then [m.payload] else []
  {
    assert (ms + [m])[..|ms|] == ms;
  }

  /** One attempt: ends in `Done` exactly when the attempt was clean. */
  method RunDump(room: nat, want: nat, seqno: nat, replies: seq<Reply>) returns (end: End, out: seq<Bytes>)
    ensures end == Done ==> CleanAttempt(room, want, seqno, replies, out)
    ensures end != Done ==> forall got :: !CleanAttempt(room, want, seqno, replies, got)
    ensures end == EndOfAttempt(replies, room, seqno) && end != Failed(NeverWhole)
    ensures end.TooBig? ==> end.need > room
  {
    hide EndOf, MessagesFrom, Collected, FirstEnd;
    out := [];
    assert Heard(replies[..0]) == [];
    NothingCollected(want, seqno);
    for r := 0 to |replies|
      invariant forall k :: 0 <= k < r ==> Fits(replies[k], room)
      invariant Collected(Heard(replies[..r]), want, seqno, out)
      invariant StopOf(replies[..r], room, seqno) == None
    {
      ghost var before := Heard(replies[..r]);
      assert replies[..r + 1][..r] == replies[..r];
      if StopOf(replies[..r + 1], room, seqno).Some? {
        StopStays(replies, room, seqno, r + 1);
      }
      if replies[r].ReceiveError? {
        EndedUnclean(room, want, seqno, replies, out, r, out, 0);
        return Failed(Receiving(replies[r].code)), out;
      }
      var bytes := replies[r].bytes;
      if |bytes| > room {
        EndedUnclean(room, want, seqno, replies, out, r, out, 0);
        return TooBig(|bytes|), out;
      }
      var stopped, got, upTo := ReadDatagram(bytes, want, seqno, out, before);
      HeardSoFar(replies, r, upTo);
      if stopped.Some? {
        if stopped.value == Done {
          assert CleanUpTo(room, want, seqno, replies, got, r, |before| + upTo);
        } else {
          EndedUnclean(room, want, seqno, replies, out, r, got, upTo);
        }
        return stopped.value, got;
      }
      out := got;
    }
    assert replies[..|replies|] == replies;
    RanOutUnclean(room, want, seqno, replies, out);
    return Failed(TimedOut), out;
  }

  lemma NothingCollected(want: nat, seqno: nat)
    ensures Collected([], want, seqno, [])
  {
  }

  lemma RanOutUnclean(room: nat, want: nat, seqno: nat, replies: seq<Reply>, out: seq<Bytes>)
    requires Collected(Heard(replies), want, seqno, out)
    ensures forall got :: !CleanAttempt(room, want, seqno, replies, got)
  {
    hide EndOf, MessagesOf, Bodies, Heard;
    forall got | CleanAttempt(room, want, seqno, replies, got)
      ensures false
    {
      var r: nat, j: nat :| CleanUpTo(room, want, seqno, replies, got, r, j);
      assert replies[..|replies|] == replies;
      HeardGrows(replies, r + 1, |replies|);
    }
  }

  lemma HeardSoFar(replies: seq<Reply>, r: nat, upTo: nat)
    requires r < |replies| && replies[r].Datagram? && upTo <= |MessagesOf(replies[r].bytes)|
    ensures var before, ms := Heard(replies[..r]), MessagesOf(replies[r].bytes);
            && Heard(replies[..r + 1]) == before + ms
            && Heard(replies[..r + 1])[..|before| + upTo] == before + ms[..upTo]
            && (upTo < |ms| ==> Heard(replies[..r + 1])[|before| + upTo] == ms[upTo])
            && (upTo == |ms| ==> Heard(replies[..r + 1]) == before + ms[..upTo])
  {
    assert replies[..r + 1][..r] == replies[..r];
  }

  lemma {:induction false} HeardGrows(replies: seq<Reply>, r: nat, s: nat)
    requires r <= s <= |replies|
    ensures Heard(replies[..r]) <= Heard(replies[..s])
  {
    if r < s {
      HeardGrows(replies, r, s - 1);
      assert replies[..s][..s - 1] == replies[..s - 1];
    }
  }

  /** Once something other than a good done has ended it, no reading of the replies is clean. */
  lemma EndedUnclean(
    room: nat, want: nat, seqno: nat, replies: seq<Reply>, sink: seq<Bytes>, r: nat, out: seq<Bytes>, upTo: nat)
    requires r < |replies|
    requires Collected(Heard(replies[..r]), want, seqno, sink)
    requires Fits(replies[r], room) ==>
               && upTo < |MessagesOf(replies[r].bytes)|
               && Collected(Heard(replies[..r]) + MessagesOf(replies[r].bytes)[..upTo], want, seqno, out)
               && EndOf(MessagesOf(replies[r].bytes)[upTo], seqno).Some?
               && EndOf(MessagesOf(replies[r].bytes)[upTo], seqno) != Some(Done)
    ensures forall got :: !CleanAttempt(room, want, seqno, replies, got)
  {
    hide EndOf, MessagesOf, Bodies, Heard;
    forall got | CleanAttempt(room, want, seqno, replies, got)
      ensures false
    {
      var r': nat, j: nat :| CleanUpTo(room, want, seqno, replies, got, r', j);
      if r' < r {
        HeardGrows(replies, r' + 1, r);
      } else {
        var at := |Heard(replies[..r])| + upTo;
        HeardSoFar(replies, r, upTo);
        HeardGrows(replies, r + 1, r' + 1);
        LongerStartsAlike(Heard(replies[..r + 1]), Heard(replies[..r' + 1]), at);
        FirstEndIsOne(Heard(replies[..r' + 1]), seqno, at, j);
      }
    }
  }

  lemma FirstEndIsOne(ms: seq<Message>, seqno: nat, j: nat, k: nat)
    requires j < |ms| && k < |ms| && Quiet(ms[..j], seqno) && Quiet(ms[..k], seqno)
    requires EndOf(ms[j], seqno).Some? && EndOf(ms[k], seqno).Some?
    ensures j == k
  {
    hide EndOf;
    QuietBefore(ms, seqno, j, k);
    QuietBefore(ms, seqno, k, j);
  }

  lemma QuietBefore(ms: seq<Message>, seqno: nat, j: nat, k: nat)
    requires j < |ms| && k < |ms| && Quiet(ms[..k], seqno)
    ensures j < k ==> EndOf(ms[j], seqno) == None
  {
    hide EndOf;
    if j < k {
      assert EndOf(ms[..k][j], seqno) == None;
    }
  }

  lemma LongerStartsAlike<T>(a: seq<T>, b: seq<T>, n: nat)
    requires a <= b && n < |a|
    ensures b[..n] == a[..n] && b[n] == a[n]
  {
  }

  // ----- retrying

  /** The smallest power of two not below `n`, reached by doubling from `p`. */
  function RoundedUp(n: nat, p: nat): (r: nat)
    requires 1 <= p
    ensures n <= r && p <= r && (p < n ==> r < 2 * n)
    decreases n - p
  {
    if p >= n then p else RoundedUp(n, 2 * p)
  }

  datatype Answer = Whole(out: seq<Bytes>) | Failure(why: Failure)

  /** A request: its number, and the room there was for one datagram. */
  datatype Request = Request(seqno: nat, room: nat)

  /** What comes of one request: it does not go out, or these replies come in. */
  datatype Exchange = Unsent(code: int) | Sent(replies: seq<Reply>)

  function EndOfExchange(x: Exchange, room: nat, seqno: nat): End {
    match x
    case Unsent(code) => Failed(Sending(code))
    case Sent(replies) => EndOfAttempt(replies, room, seqno)
  }

  /** An attempt worth another one. */
  predicate Retried(end: End) {
    end.Interrupted? || (end.TooBig? && end.need <= CEILING)
  }

  class Socket {
    var seqno: nat
    var room: nat
    var asked: seq<Request>

    /** What every dump keeps, and a socket starts with. */
    predicate Valid()
      reads this
    {
      seqno < SEQUENCE_NUMBERS && room <= CEILING
    }

    constructor (seqno: nat, room: nat)
      requires seqno < SEQUENCE_NUMBERS && room <= CEILING
      ensures Valid() && this.seqno == seqno && this.room == room && asked == []
    {
      this.seqno, this.room, this.asked := seqno, room, [];
    }

    /**
     * A dump that returns success is exactly one clean attempt, the last; every attempt before
     * it was cut short or did not fit, and leaves nothing behind. The buffer only grows, to hold
     * what did not fit, and never past the ceiling; the kernel is asked at most eight times,
     * each time under a number of its own; and a failure is the last attempt's own, be it that the
     * request did not go out, a datagram beyond the ceiling, or eight attempts spent.
     */
    method DumpInto(want: nat, attempts: seq<Exchange>) returns (r: Answer, ghost mine: seq<Request>)
      requires Valid()
      modifies this
      ensures Valid() && old(room) <= room
      ensures asked == old(asked) + mine && 0 < |mine| <= ATTEMPTS
      ensures forall j, k :: 0 <= j < k < |mine| ==> mine[j].seqno != mine[k].seqno
      ensures mine[0].room == old(room) && (forall k :: 0 <= k < |mine| ==> mine[k].room <= CEILING)
      ensures Chained(mine, attempts)
      ensures r == Settled(EndAt(mine, |mine| - 1, attempts), r)
      ensures r == Failure(NeverWhole) ==> |mine| == ATTEMPTS
      ensures r.Whole? ==>
                var last := mine[|mine| - 1];
                && Attempt(attempts, |mine| - 1).Sent?
                && CleanAttempt(last.room, want, last.seqno, Attempt(attempts, |mine| - 1).replies, r.out)
    {
      hide CleanAttempt, Numbered, EndOfAttempt, Attempt, Chained, EndAt, Follows;
      NumbersDiffer(old(seqno));
      mine := [];
      NothingChained(attempts);
      for i := 0 to ATTEMPTS
        invariant seqno == Numbered(old(seqno), i) && seqno < SEQUENCE_NUMBERS
        invariant old(room) <= room <= CEILING
        invariant asked == old(asked) + mine && |mine| == i
        invariant forall k :: 0 <= k < i ==> mine[k].seqno == Numbered(old(seqno), k + 1) && mine[k].room <= CEILING
        invariant if i == 0 then room == old(room) else mine[0].room == old(room)
        invariant Chained(mine, attempts) && (i > 0 ==> MakesRoom(mine, i - 1, attempts, room))
      {
        NextNumber(old(seqno), i);
        seqno := (seqno + 1) % SEQUENCE_NUMBERS;
        var request := Request(seqno, room);
        asked := asked + [request];
        assert asked == old(asked) + (mine + [request]);
        ChainGrows(mine, request, attempts);
        mine := mine + [request];
        var exchange := Attempt(attempts, i);
        LastEnds(mine, attempts);
        if exchange.Unsent? {
          return Failure(Sending(exchange.code)), mine;
        }
        var end, out := RunDump(room, want, seqno, exchange.replies);
        match end {
          case Done =>
            return Whole(out), mine;
          case Interrupted =>
          case TooBig(need) =>
            if need > CEILING {
              return Failure(BeyondCeiling(need)), mine;
            }
            var size := RoundedUp(need, 1);
            room := if size < CEILING then size else CEILING;
          case Failed(why) =>
            return Failure(why), mine;
        }
      }
      return Failure(NeverWhole), mine;
    }
  }

  ghost function EndAt(asked: seq<Request>, k: nat, attempts: seq<Exchange>): End
    requires k < |asked|
  {
    EndOfExchange(Attempt(attempts, k), asked[k].room, asked[k].seqno)
  }

  /** What a dump makes of the way its last attempt ended. */
  function Settled(end: End, r: Answer): Answer {
    match end
    case Done => Whole(if r.Whole? then r.out else [])
    case Failed(why) => Failure(why)
    case TooBig(need) => Failure(if need > CEILING then BeyondCeiling(need) else NeverWhole)
    case Interrupted => Failure(NeverWhole)
  }

  /** The attempt was worth another, and there is room now for what did not fit. */
  ghost predicate MakesRoom(asked: seq<Request>, k: nat, attempts: seq<Exchange>, room: nat)
    requires k < |asked|
  {
    var end := EndAt(asked, k, attempts);
    Retried(end) && asked[k].room <= room && (end.TooBig? ==> end.need <= room)
  }

  ghost predicate Follows(asked: seq<Request>, k: nat, attempts: seq<Exchange>) {
    k + 1 < |asked| ==> MakesRoom(asked, k, attempts, asked[k + 1].room)
  }

  /** Each attempt but the last made room for the next. */
  ghost predicate Chained(asked: seq<Request>, attempts: seq<Exchange>) {
    forall k: nat :: Follows(asked, k, attempts)
  }

  lemma NothingChained(attempts: seq<Exchange>)
    ensures Chained([], attempts)
  {
  }

  lemma ChainGrows(asked: seq<Request>, next: Request, attempts: seq<Exchange>)
    requires Chained(asked, attempts) && (|asked| > 0 ==> MakesRoom(asked, |asked| - 1, attempts, next.room))
    ensures Chained(asked + [next], attempts)
  {
    hide EndOfExchange, Attempt, Retried;
    var more := asked + [next];
    forall k: nat
      ensures Follows(more, k, attempts)
    {
      assert Follows(asked, k, attempts);
      if k + 1 < |more| {
        assert EndAt(more, k, attempts) == EndAt(asked, k, attempts);
      }
    }
  }

  lemma LastEnds(asked: seq<Request>, attempts: seq<Exchange>)
    requires asked != []
    ensures EndAt(asked, |asked| - 1, attempts) ==
            EndOfExchange(Attempt(attempts, |asked| - 1), asked[|asked| - 1].room, asked[|asked| - 1].seqno)
  {
  }

  /** The sequence number of the i-th request after `base`; the counter wraps. */
  function Numbered(base: nat, i: int): int {
    (base + i) % SEQUENCE_NUMBERS
  }

  lemma NextNumber(base: nat, i: nat)
    requires base < SEQUENCE_NUMBERS
    ensures Numbered(base, 0) == base
    ensures (Numbered(base, i) + 1) % SEQUENCE_NUMBERS == Numbered(base, i + 1)
    ensures 0 <= Numbered(base, i + 1) < SEQUENCE_NUMBERS
  {
  }

  lemma NumbersDiffer(base: nat)
    requires base < SEQUENCE_NUMBERS
    ensures Numbered(base, 0) == base
    ensures forall j, k :: 0 <= j < k <= ATTEMPTS ==> Numbered(base, j) != Numbered(base, k)
  {
  }

  function Attempt(attempts: seq<Exchange>, i: int): Exchange {
    if 0 <= i < |attempts| then attempts[i] else Sent([])
  }
}
