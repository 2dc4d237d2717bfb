// The ownership note as text: one address a line (src/sync/notes.rs, src/netlink.rs).
//
// A note may end in a torn line, whatever a write that did not finish left there. This module
// says what such a file reads as, and what an append or a rewrite makes of it.

module NoteText {
  import opened Basics

  // ----- addresses as text

  const DIGITS := "0123456789abcdef"

  function FormatOctet(o: Octet): (r: string)
    ensures |r| == 2
  {
    [DIGITS[o / 16], DIGITS[o % 16]]
  }

  /** Seventeen characters, lower case. */
  function FormatMac(m: Mac): (r: string)
    ensures |r| == 17
  {
    FormatOctet(m.o0) + [':'] + (FormatOctet(m.o1) + [':'] + (FormatOctet(m.o2) + [':'] +
    (FormatOctet(m.o3) + [':'] + (FormatOctet(m.o4) + [':'] + FormatOctet(m.o5)))))
  }

  /** A hexadecimal digit of either case. */
  function HexValue(c: char): (r: Option<nat>)
    ensures r.Some? ==> r.value < 16
  {
    if '0' <= c <= '9' then Some((c as int) - ('0' as int))
    else if 'a' <= c <= 'f' then Some((c as int) - ('a' as int) + 10)
    else if 'A' <= c <= 'F' then Some((c as int) - ('A' as int) + 10)
    else None
  }

  /** Exactly two hexadecimal digits; a sign is not one. */
  function ParseOctet(s: string): Option<Octet> {
    if |s| == 2 && HexValue(s[0]).Some? && HexValue(s[1]).Some? then
      Some(HexValue(s[0]).value * 16 + HexValue(s[1]).value)
    else
      None
  }

  function Split(s: string, c: char): (r: seq<string>)
    ensures |r| >= 1
  {
    if s == "" then [""]
    else if s[0] == c then [""] + Split(s[1..], c)
    else
      var r := Split(s[1..], c);
      [[s[0]] + r[0]] + r[1..]
  }

  function ParseMac(s: string): Option<Mac> {
    var p := Split(s, ':');
    if |p| == 6 && forall k :: 0 <= k < 6 ==> ParseOctet(p[k]).Some? then
      Some(Mac(ParseOctet(p[0]).value, ParseOctet(p[1]).value, ParseOctet(p[2]).value,
               ParseOctet(p[3]).value, ParseOctet(p[4]).value, ParseOctet(p[5]).value))
    else
      None
  }

  lemma {:induction false} SplitConcat(a: string, c: char, b: string)
    ensures Split(a + [c] + b, c) == Split(a, c) + Split(b, c)
  {
    if a == "" {
      assert a + [c] + b == [c] + b;
      assert ([c] + b)[1..] == b;
    } else {
      assert a + [c] + b == [a[0]] + (a[1..] + [c] + b);
      SplitConcat(a[1..], c, b);
    }
  }

  lemma {:induction false} SplitWhole(a: string, c: char)
    requires c !in a
    ensures Split(a, c) == [a]
  {
    if a != "" {
      SplitWhole(a[1..], c);
      assert [a[0]] + a[1..] == a;
    }
  }

  lemma OctetRoundTrip(o: Octet)
    ensures ParseOctet(FormatOctet(o)) == Some(o)
    ensures ':' !in FormatOctet(o) && '\n' !in FormatOctet(o)
    ensures !IsSpace(FormatOctet(o)[0]) && !IsSpace(FormatOctet(o)[1])
  {
    DigitRoundTrip(o / 16);
    DigitRoundTrip(o % 16);
  }

  lemma DigitRoundTrip(d: nat)
    requires d < 16
    ensures HexValue(DIGITS[d]) == Some(d)
    ensures DIGITS[d] != ':' && DIGITS[d] != '\n' && !IsSpace(DIGITS[d])
  {
  }

  /** Every address reads back from what it was written as. */
  lemma MacRoundTrip(m: Mac)
    ensures ParseMac(FormatMac(m)) == Some(m)
    ensures '\n' !in FormatMac(m)
    ensures !IsSpace(FormatMac(m)[0]) && !IsSpace(FormatMac(m)[16])
  {
    hide FormatOctet, ParseOctet, IsSpace, Split;
    var s5 := FormatOctet(m.o5);
    var s4 := FormatOctet(m.o4) + [':'] + s5;
    var s3 := FormatOctet(m.o3) + [':'] + s4;
    var s2 := FormatOctet(m.o2) + [':'] + s3;
    var s1 := FormatOctet(m.o1) + [':'] + s2;
    OctetRoundTrip(m.o0);
    OctetRoundTrip(m.o1);
    OctetRoundTrip(m.o2);
    OctetRoundTrip(m.o3);
    OctetRoundTrip(m.o4);
    OctetRoundTrip(m.o5);
    SplitWhole(s5, ':');
    SplitFirst(FormatOctet(m.o4), ':', s5);
    SplitFirst(FormatOctet(m.o3), ':', s4);
    SplitFirst(FormatOctet(m.o2), ':', s3);
    SplitFirst(FormatOctet(m.o1), ':', s2);
    SplitFirst(FormatOctet(m.o0), ':', s1);
  }

  lemma SplitFirst(a: string, c: char, b: string)
    requires c !in a
    ensures Split(a + [c] + b, c) == [a] + Split(b, c)
  {
    SplitConcat(a, c, b);
    SplitWhole(a, c);
  }

  function TotalLength(p: seq<string>): nat {
    if p == [] then 0 else |p[0]| + TotalLength(p[1..])
  }

  lemma {:induction false} SplitKeepsLength(s: string, c: char)
    ensures |s| == TotalLength(Split(s, c)) + |Split(s, c)| - 1
  {
    if s != "" {
      SplitKeepsLength(s[1..], c);
      assert Split(s, c)[1..] == if s[0] == c then Split(s[1..], c) else Split(s[1..], c)[1..];
    }
  }

  /** Only seventeen characters can be an address, so no part of one ever is. */
  lemma ParsedIsWhole(s: string)
    requires ParseMac(s).Some?
    ensures |s| == 17
  {
    var p := Split(s, ':');
    SplitKeepsLength(s, ':');
    assert p == [p[0], p[1], p[2], p[3], p[4], p[5]];
    assert forall k :: 0 <= k < 6 ==> |p[k]| == 2;
    assert TotalLength(p) == 2 + TotalLength(p[1..]);
    assert TotalLength(p[1..]) == 2 + TotalLength(p[2..]) by { assert p[1..][1..] == p[2..]; }
    assert TotalLength(p[2..]) == 2 + TotalLength(p[3..]) by { assert p[2..][1..] == p[3..]; }
    assert TotalLength(p[3..]) == 2 + TotalLength(p[4..]) by { assert p[3..][1..] == p[4..]; }
    assert TotalLength(p[4..]) == 2 + TotalLength(p[5..]) by { assert p[4..][1..] == p[5..]; }
    assert TotalLength(p[5..]) == 2 by { assert p[5..][1..] == []; }
  }

  method ReadMac(s: string) returns (r: Option<Mac>)
    ensures r == ParseMac(s)
  {
    var parts := Split(s, ':');
    var out: seq<Octet> := [];
    for k := 0 to |parts|
      invariant |out| == k <= 6
      invariant forall j :: 0 <= j < k ==> ParseOctet(parts[j]) == Some(out[j])
    {
      if |out| == 6 || ParseOctet(parts[k]).None? {
        return None;
      }
      out := out + [ParseOctet(parts[k]).value];
    }
    r := if |out| == 6 then Some(Mac(out[0], out[1], out[2], out[3], out[4], out[5])) else None;
  }

  // ----- lines

  /** The characters `trim` takes off: Unicode white space. */
  predicate IsSpace(c: char) {
    var u := c as int;
    || 0x09 <= u <= 0x0D || u == 0x20 || u == 0x85 || u == 0xA0 || u == 0x1680
    || 0x2000 <= u <= 0x200A || u == 0x2028 || u == 0x2029 || u == 0x202F || u == 0x205F || u == 0x3000
  }

  function TrimStart(s: string): string {
    if s != "" && IsSpace(s[0]) then TrimStart(s[1..]) else s
  }

  function TrimEnd(s: string): string {
    if s != "" && IsSpace(s[|s| - 1]) then TrimEnd(s[..|s| - 1]) else s
  }

  /** What one line names. A line nobody can read names nothing. */
  function LineNames(line: string): Option<Mac> {
    ParseMac(TrimEnd(TrimStart(line)))
  }

  /** The addresses a note names, an unfinished last line included. */
  function Named(text: string): set<Mac> {
    NamedBy(Split(text, '\n'))
  }

  function NamedBy(lines: seq<string>): (r: set<Mac>)
    ensures forall m :: m in r <==> exists l :: l in lines && LineNames(l) == Some(m)
  {
    set l | l in lines && LineNames(l).Some? :: LineNames(l).value
  }

  method ReadOwned(text: string) returns (macs: set<Mac>)
    ensures macs == Named(text)
  {
    hide LineNames, Split;
    macs := {};
    var lines := Split(text, '\n');
    for k := 0 to |lines|
      invariant macs == NamedBy(lines[..k])
    {
      var line := lines[k];
      var mac := ReadMac(TrimEnd(TrimStart(line)));
      NamedByBoth(lines[..k], [line]);
      assert lines[..k + 1] == lines[..k] + [line];
      NamedByOne(line);
      if mac.Some? {
        macs := macs + {mac.value};
      }
    }
    assert lines[..|lines|] == lines;
  }

  lemma NamedByBoth(a: seq<string>, b: seq<string>)
    ensures NamedBy(a + b) == NamedBy(a) + NamedBy(b)
  {
    hide LineNames;
    assert forall l :: l in a + b <==> l in a || l in b;
    forall m
      ensures m in NamedBy(a + b) <==> m in NamedBy(a) || m in NamedBy(b)
    {
      if m in NamedBy(a) {
        var l :| l in a && LineNames(l) == Some(m);
        assert l in a + b;
      }
      if m in NamedBy(b) {
        var l :| l in b && LineNames(l) == Some(m);
        assert l in a + b;
      }
    }
  }

  lemma NamedByOne(line: string)
    ensures LineNames(line) == ParseMac(TrimEnd(TrimStart(line)))
    ensures NamedBy([line]) == if LineNames(line).Some? then {LineNames(line).value} else {}
  {
    hide ParseMac;
    assert line in [line];
  }

  lemma BlankNamesNothing()
    ensures NamedBy([""]) == {} && Named("") == {}
  {
    assert Split("", ':') == [""];
    NamedByOne("");
  }

  // ----- finished lines

  /** Where the last finished line ends: behind the last newline, or at the start. */
  function FinishedLength(text: string): (n: nat)
    ensures n <= |text|
  {
    if text == "" || text[|text| - 1] == '\n' then |text| else FinishedLength(text[..|text| - 1])
  }

  function Finished(text: string): string {
    text[..FinishedLength(text)]
  }

  function Tail(text: string): string {
    text[FinishedLength(text)..]
  }

  predicate IsFinished(text: string) {
    text == "" || text[|text| - 1] == '\n'
  }

  lemma {:induction false} FinishedParts(text: string)
    ensures text == Finished(text) + Tail(text)
    ensures IsFinished(Finished(text)) && '\n' !in Tail(text)
    ensures IsFinished(text) ==> Finished(text) == text && Tail(text) == ""
  {
    if !IsFinished(text) {
      var init := text[..|text| - 1];
      FinishedParts(init);
      assert Finished(text) == Finished(init);
      assert Tail(text) == Tail(init) + [text[|text| - 1]];
    }
  }

  /** Finished lines followed by a newline-free rest are taken apart just so. */
  lemma {:induction false} FinishedOf(done: string, rest: string)
    requires IsFinished(done) && '\n' !in rest
    ensures Finished(done + rest) == done && Tail(done + rest) == rest
  {
    if rest == "" {
      assert done + rest == done;
    } else {
      var text := done + rest;
      assert text[..|text| - 1] == done + rest[..|rest| - 1];
      FinishedOf(done, rest[..|rest| - 1]);
    }
  }

  method FinishTheLastLine(text: string) returns (kept: string)
    ensures kept == Finished(text)
  {
    if text == "" || text[|text| - 1] == '\n' {
      return text;
    }
    var keep := |text|;
    assert text[..keep] == text;
    while keep > 0 && text[keep - 1] != '\n'
      invariant 0 <= keep <= |text|
      invariant FinishedLength(text) == FinishedLength(text[..keep])
    {
      assert text[..keep][..keep - 1] == text[..keep - 1];
      keep := keep - 1;
    }
    assert FinishedLength(text[..keep]) == keep;
    kept := text[..keep];
  }

  /** Behind finished lines, what follows is read on its own. */
  lemma NamedBehind(done: string, rest: string)
    requires IsFinished(done)
    ensures Named(done + rest) == Named(done) + Named(rest)
  {
    hide LineNames;
    BlankNamesNothing();
    if done == "" {
      assert done + rest == rest;
    } else {
      var init := done[..|done| - 1];
      assert done == init + ['\n'] + "";
      assert done + rest == init + ['\n'] + rest;
      SplitConcat(init, '\n', "");
      SplitConcat(init, '\n', rest);
      assert Split("", '\n') == [""];
      NamedByBoth(Split(init, '\n'), [""]);
      NamedByBoth(Split(init, '\n'), Split(rest, '\n'));
    }
  }

  lemma TailNames(text: string)
    ensures Named(text) == Named(Finished(text)) +
                           if LineNames(Tail(text)).Some? then {LineNames(Tail(text)).value} else {}
  {
    hide LineNames;
    FinishedParts(text);
    NamedBehind(Finished(text), Tail(text));
    SplitWhole(Tail(text), '\n');
    NamedByOne(Tail(text));
  }

  // ----- writing

  /** One line per address, each eighteen characters. */
  function LinesOf(ms: seq<Mac>): (r: string)
    ensures |r| == 18 * |ms|
  {
    if ms == [] then "" else LinesOf(ms[..|ms| - 1]) + (FormatMac(ms[|ms| - 1]) + ['\n'])
  }

  lemma LineOfMac(m: Mac)
    ensures LineNames(FormatMac(m)) == Some(m)
    ensures Named(FormatMac(m) + ['\n']) == {m}
  {
    hide ParseMac, FormatMac, IsSpace;
    MacRoundTrip(m);
    var s := FormatMac(m);
    assert TrimStart(s) == s && TrimEnd(s) == s;
    SplitFirst(s, '\n', "");
    assert s + ['\n'] == s + ['\n'] + "";
    assert Split("", '\n') == [""];
    BlankNamesNothing();
    NamedByBoth([s], [""]);
    NamedByOne(s);
  }

  lemma {:induction false} LinesNameThem(ms: seq<Mac>)
    ensures Named(LinesOf(ms)) == (set m | m in ms) && IsFinished(LinesOf(ms))
  {
    hide Named, FormatMac;
    BlankNamesNothing();
    if ms != [] {
      var init, m := ms[..|ms| - 1], ms[|ms| - 1];
      LinesNameThem(init);
      LineOfMac(m);
      NamedBehind(LinesOf(init), FormatMac(m) + ['\n']);
      assert ms == init + [m];
    }
  }

  /** What a rewrite puts down, for any order of the set: the set itself, and no torn line. */
  lemma WrittenReadsBack(ms: seq<Mac>, macs: set<Mac>)
    requires forall m :: m in ms <==> m in macs
    ensures Named(LinesOf(ms)) == macs && Tail(LinesOf(ms)) == ""
  {
    LinesNameThem(ms);
    FinishedParts(LinesOf(ms));
  }

  // ----- appending

  /** Those of a list that the text lacks, in their order. */
  function FreshOf(text: string, added: seq<Mac>): (r: seq<Mac>)
    ensures forall m :: m in r <==> m in added && m !in Named(text)
  {
    if added == [] then []
    else
      FreshOf(text, added[..|added| - 1]) +
      if added[|added| - 1] in Named(text) then [] else [added[|added| - 1]]
  }

  function Appended(text: string, added: seq<Mac>): string {
    var missing := FreshOf(text, added);
    if missing == [] then text else Finished(text) + LinesOf(missing)
  }

  method AppendOwned(text: string, added: seq<Mac>) returns (missing: seq<Mac>, after: string)
    ensures missing == FreshOf(text, added) && after == Appended(text, added)
  {
    hide Named, FormatMac;
    var macs := ReadOwned(text);
    missing := [];
    for k := 0 to |added|
      invariant missing == FreshOf(text, added[..k])
    {
      assert added[..k + 1][..k] == added[..k];
      if added[k] !in macs {
        missing := missing + [added[k]];
      }
    }
    assert added[..|added|] == added;
    if missing == [] {
      return missing, text;
    }
    var lines := "";
    for k := 0 to |missing|
      invariant lines == LinesOf(missing[..k])
    {
      assert missing[..k + 1][..k] == missing[..k];
      lines := lines + (FormatMac(missing[k]) + ['\n']);
    }
    assert missing[..|missing|] == missing;
    var kept := FinishTheLastLine(text);
    after := kept + lines;
  }

  /** An append behind any torn tail names the finished lines and the fresh ones, no more. */
  lemma AppendedNames(text: string, added: seq<Mac>)
    ensures FreshOf(text, added) != [] ==>
              && Named(Appended(text, added)) == Named(Finished(text)) + (set m | m in FreshOf(text, added))
              && IsFinished(Appended(text, added))
  {
    hide Named, FormatMac;
    var missing := FreshOf(text, added);
    if missing != [] {
      FinishedParts(text);
      LinesNameThem(missing);
      NamedBehind(Finished(text), LinesOf(missing));
    }
  }

  /** The tail is an address of its own: read as noted, yet cut by the next append. */
  predicate TailIsAddress(text: string) {
    LineNames(Tail(text)).Some? && LineNames(Tail(text)).value !in Named(Finished(text))
  }

  /**
   * Appending keeps what the note named and adds what was asked for, exactly unless a torn
   * tail is a whole address that no finished line names and something new is written.
   */
  lemma AppendKeepsExactly(text: string, added: seq<Mac>)
    ensures Named(Appended(text, added)) == Named(text) + (set m | m in added) <==>
            FreshOf(text, added) == [] || !TailIsAddress(text)
  {
    hide Named, LineNames, FormatMac;
    var missing := FreshOf(text, added);
    TailNames(text);
    if missing == [] {
      assert forall m :: m in added ==> m in Named(text);
    } else {
      AppendedNames(text, added);
      if LineNames(Tail(text)).Some? {
        var m := LineNames(Tail(text)).value;
        assert m in Named(text) && m !in missing;
      }
      assert forall m :: m in added ==> m in Named(text) || m in missing;
    }
  }

  // ----- torn appends

  /**
   * A write that stopped after n characters: whole lines for every eighteen, and a tail that
   * reads as an address exactly when only its newline is missing.
   */
  lemma TornAppend(done: string, missing: seq<Mac>, n: nat)
    requires IsFinished(done) && n < 18 * |missing|
    ensures var text := done + LinesOf(missing)[..n];
            && Finished(text) == done + LinesOf(missing[..n / 18])
            && Named(Finished(text)) == Named(done) + (set m | m in missing[..n / 18])
            && LineNames(Tail(text)) == if n % 18 == 17 then Some(missing[n / 18]) else None
  {
    hide Named, LineNames, LinesOf, Finished, Tail;
    TornAppendAt(done, missing, n / 18, n % 18);
  }

  lemma TornAppendAt(done: string, missing: seq<Mac>, k: nat, r: nat)
    requires IsFinished(done) && k < |missing| && r < 18
    ensures var text := done + LinesOf(missing)[..18 * k + r];
            && Finished(text) == done + LinesOf(missing[..k])
            && Named(Finished(text)) == Named(done) + (set m | m in missing[..k])
            && LineNames(Tail(text)) == if r == 17 then Some(missing[k]) else None
  {
    hide Named, LineNames, FormatMac, LinesOf, Finished, Tail, IsFinished;
    LinesSplit(missing, k, r);
    LinesNameThem(missing[..k]);
    PartOfAddress(missing[k], r);
    TornBehind(done, LinesOf(missing[..k]), FormatMac(missing[k])[..r]);
  }

  lemma TornBehind(done: string, lines: string, tail: string)
    requires IsFinished(done) && IsFinished(lines) && '\n' !in tail
    ensures var text := done + (lines + tail);
            Finished(text) == done + lines && Tail(text) == tail && Named(done + lines) == Named(done) + Named(lines)
  {
    hide Named, Finished, Tail;
    var whole := done + lines;
    assert done + (lines + tail) == whole + tail;
    assert IsFinished(whole);
    FinishedOf(whole, tail);
    NamedBehind(done, lines);
  }

  lemma {:induction false} LinesSplit(ms: seq<Mac>, k: nat, r: nat)
    requires k < |ms| && r < 18
    ensures LinesOf(ms)[..18 * k + r] == LinesOf(ms[..k]) + FormatMac(ms[k])[..r]
  {
    hide FormatMac;
    var init, last := ms[..|ms| - 1], FormatMac(ms[|ms| - 1]) + ['\n'];
    if k == |ms| - 1 {
      assert LinesOf(ms)[..18 * k + r] == LinesOf(init) + last[..r];
    } else {
      LinesSplit(init, k, r);
      assert init[..k] == ms[..k];
    }
  }

  lemma PartOfAddress(m: Mac, r: nat)
    requires r < 18
    ensures LineNames(FormatMac(m)[..r]) == if r == 17 then Some(m) else None
    ensures '\n' !in FormatMac(m)[..r]
  {
    hide ParseMac, FormatMac, IsSpace;
    var part := FormatMac(m)[..r];
    MacRoundTrip(m);
    if r == 17 {
      assert part == FormatMac(m);
      LineOfMac(m);
    } else {
      TrimShortens(part);
      if LineNames(part).Some? {
        ParsedIsWhole(TrimEnd(TrimStart(part)));
      }
    }
  }

  lemma TrimShortens(s: string)
    ensures |TrimEnd(TrimStart(s))| <= |s|
  {
    StartShortens(s);
    EndShortens(TrimStart(s));
  }

  lemma {:induction false} StartShortens(s: string)
    ensures |TrimStart(s)| <= |s|
  {
    if s != "" && IsSpace(s[0]) {
      StartShortens(s[1..]);
    }
  }

  lemma {:induction false} EndShortens(s: string)
    ensures |TrimEnd(s)| <= |s|
  {
    if s != "" && IsSpace(s[|s| - 1]) {
      EndShortens(s[..|s| - 1]);
    }
  }
}
