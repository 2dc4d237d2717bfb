// Netlink messages and attributes (src/netlink.rs).
//
// The message header is the one of section 2.3.2 of RFC 3549, in the byte order of a
// little-endian host. Both walkers mutate an offset over a fixed buffer; each is proved
// against the list of what is left to walk.

module Netlink {
  import opened Basics

  type Bytes = seq<Octet>

  const NLMSG_HDR := 16
  const RTATTR_HDR := 4
  const NDMSG_LEN := 12
  const IFINFOMSG_LEN := 16

  const NLMSG_NOOP := 1
  const NLMSG_ERROR := 2
  const NLMSG_DONE := 3
  const RTM_NEWLINK := 16
  const RTM_DELLINK := 17
  const RTM_NEWNEIGH := 28
  const RTM_DELNEIGH := 29
  const AF_BRIDGE := 7

  const NDA_LLADDR := 2
  const NDA_MASTER := 9
  const NTF_SELF := 0x02
  const NUD_PERMANENT := 0x80

  const IFLA_VFINFO_LIST := 22
  const IFLA_VF_INFO := 1
  const IFLA_VF_MAC := 1
  const IFLA_VF_TRUST := 9

  // ----- numbers

  function Word(low: nat, base: nat, high: nat): nat {
    low + base * high
  }

  function U16(b: Bytes, at: nat): (r: nat)
    requires at + 2 <= |b|
    ensures r < 0x1_0000
  {
    Word(b[at], 0x100, b[at + 1])
  }

  function U32(b: Bytes, at: nat): (r: nat)
    requires at + 4 <= |b|
    ensures r < 0x1_0000_0000
  {
    Word(U16(b, at), 0x1_0000, U16(b, at + 2))
  }

  function I32(b: Bytes, at: nat): int
    requires at + 4 <= |b|
  {
    var u := U32(b, at);
    if u < 0x8000_0000 then u else u - 0x1_0000_0000
  }

  function PutU16(v: nat): (r: Bytes)
    requires v < 0x1_0000
    ensures |r| == 2 && U16(r, 0) == v
  {
    [v % 256, v / 256]
  }

  function PutU32(v: nat): (r: Bytes)
    requires v < 0x1_0000_0000
    ensures |r| == 4 && U32(r, 0) == v
  {
    PutU16(v % 0x1_0000) + PutU16(v / 0x1_0000)
  }

  function Align4(n: nat): (r: nat)
    ensures n <= r < n + 4 && r % 4 == 0
  {
    (n + 3) / 4 * 4
  }

  function Zeros(n: nat): (r: Bytes)
    ensures |r| == n
  {
    seq(n, _ => 0)
  }

  function MacBytes(m: Mac): (r: Bytes)
    ensures |r| == 6
  {
    [m.o0, m.o1, m.o2, m.o3, m.o4, m.o5]
  }

  function MacAt(b: Bytes, at: nat): Mac
    requires at + 6 <= |b|
  {
    Mac(b[at], b[at + 1], b[at + 2], b[at + 3], b[at + 4], b[at + 5])
  }

  // ----- messages

  datatype Message = Message(kind: nat, flags: nat, seqno: nat, payload: Bytes)

  /** A whole message starts at the offset: its header fits, and so does what it claims. */
  predicate MessageAt(buf: Bytes, off: nat) {
    off + NLMSG_HDR <= |buf| && NLMSG_HDR <= U32(buf, off) && off + U32(buf, off) <= |buf|
  }

  function ReadMessage(buf: Bytes, off: nat): Message
    requires MessageAt(buf, off)
  {
    Message(U16(buf, off + 4), U16(buf, off + 6), U32(buf, off + 8),
            buf[off + NLMSG_HDR..off + U32(buf, off)])
  }

  /** The messages from an offset on; a trailing fragment is dropped. */
  function MessagesFrom(buf: Bytes, off: nat): seq<Message>
    decreases |buf| - off
  {
    if !MessageAt(buf, off) then []
    else [ReadMessage(buf, off)] + MessagesFrom(buf, off + Align4(U32(buf, off)))
  }

  function MessagesOf(buf: Bytes): seq<Message> {
    MessagesFrom(buf, 0)
  }

  class Messages {
    const buf: Bytes
    var off: nat

    constructor (buf: Bytes)
      ensures this.buf == buf && Left() == MessagesOf(buf)
    {
      this.buf := buf;
      this.off := 0;
    }

    ghost function Left(): seq<Message>
      reads this
    {
      MessagesFrom(buf, off)
    }

    ghost function Rank(): nat
      reads this
    {
      if off < |buf| then |buf| - off else 0
    }

    method Next() returns (m: Option<Message>)
      modifies this
      ensures m.None? ==> old(Left()) == [] && Left() == []
      ensures m.Some? ==> old(Left()) == [m.value] + Left() && Rank() < old(Rank())
    {
      if off + NLMSG_HDR > |buf| {
        return None;
      }
      var len := U32(buf, off);
      var end := off + len;
      if len < NLMSG_HDR || end > |buf| {
        return None;
      }
      var kind, flags, seqno := U16(buf, off + 4), U16(buf, off + 6), U32(buf, off + 8);
      var payload := buf[off + NLMSG_HDR..end];
      off := off + Align4(len);
      m := Some(Message(kind, flags, seqno, payload));
    }
  }

  /** Every number of it fits its field. */
  predicate Sendable(m: Message) {
    && m.kind < 0x1_0000 && m.flags < 0x1_0000 && m.seqno < 0x1_0000_0000
    && NLMSG_HDR + |m.payload| < 0x1_0000_0000
  }

  /** The field of the header no reader looks at: who sent it, or on whose behalf. */
  type Port = p: int | 0 <= p < 0x1_0000_0000

  function EncodeMessage(m: Message, port: Port): Bytes
    requires Sendable(m)
  {
    PutU32(NLMSG_HDR + |m.payload|) + PutU16(m.kind) + PutU16(m.flags) + PutU32(m.seqno) + PutU32(port) +
    m.payload + Zeros(Align4(|m.payload|) - |m.payload|)
  }

  /** One encoded message is read back, whatever follows it. */
  lemma MessageRoundTrip(m: Message, port: Port, rest: Bytes)
    requires Sendable(m)
    ensures MessagesOf(EncodeMessage(m, port) + rest) ==
            [m] + MessagesFrom(EncodeMessage(m, port) + rest, |EncodeMessage(m, port)|)
  {
    hide Align4, U32, U16, PutU32, PutU16, Zeros;
    var b := EncodeMessage(m, port) + rest;
    var n := NLMSG_HDR + |m.payload|;
    var tail := m.payload + Zeros(Align4(|m.payload|) - |m.payload|) + rest;
    var len, kind, flags, seqno, pid :=
      PutU32(n), PutU16(m.kind), PutU16(m.flags), PutU32(m.seqno), PutU32(port);
    assert b == len + kind + flags + seqno + pid + tail;
    U32Inside([], n, kind + flags + seqno + pid + tail);
    assert b == [] + len + (kind + flags + seqno + pid + tail);
    U16Inside(len, m.kind, flags + seqno + pid + tail);
    assert b == len + kind + (flags + seqno + pid + tail);
    U16Inside(len + kind, m.flags, seqno + pid + tail);
    assert b == (len + kind) + flags + (seqno + pid + tail);
    U32Inside(len + kind + flags, m.seqno, pid + tail);
    assert b == (len + kind + flags) + seqno + (pid + tail);
    assert b[NLMSG_HDR..n] == m.payload;
    PaddingShifts(|m.payload|);
  }

  /** What stands behind a message reads as it would on its own. */
  lemma {:induction false} MessagesShift(pre: Bytes, rest: Bytes, off: nat)
    ensures MessagesFrom(pre + rest, |pre| + off) == MessagesFrom(rest, off)
    decreases |rest| - off
  {
    hide Align4, U32, U16;
    if off + NLMSG_HDR <= |rest| {
      NumbersShift(pre, rest, off);
      NumbersShift(pre, rest, off + 4);
      NumbersShift(pre, rest, off + 8);
      if MessageAt(rest, off) {
        var len := U32(rest, off);
        assert (pre + rest)[|pre| + off + NLMSG_HDR..|pre| + off + len] == rest[off + NLMSG_HDR..off + len];
        assert |pre| + off + Align4(len) == |pre| + (off + Align4(len));
        MessagesShift(pre, rest, off + Align4(len));
      }
    }
  }

  lemma NumbersShift(pre: Bytes, rest: Bytes, off: nat)
    requires off + 4 <= |rest|
    ensures U32(pre + rest, |pre| + off) == U32(rest, off)
    ensures U16(pre + rest, |pre| + off) == U16(rest, off) && U16(pre + rest, |pre| + off + 2) == U16(rest, off + 2)
  {
    var b := pre + rest;
    assert b[|pre| + off] == rest[off] && b[|pre| + off + 1] == rest[off + 1];
    assert b[|pre| + off + 2] == rest[off + 2] && b[|pre| + off + 3] == rest[off + 3];
  }

  function EncodeMessages(ms: seq<Message>, ports: seq<Port>): Bytes
    requires |ports| == |ms| && forall m :: m in ms ==> Sendable(m)
  {
    if ms == [] then []
    else
      assert Sendable(ms[0]);
      EncodeMessage(ms[0], ports[0]) + EncodeMessages(ms[1..], ports[1..])
  }

  /** A datagram of any messages reads back as them, whatever follows as it reads alone. */
  lemma {:induction false} MessagesRoundTrip(ms: seq<Message>, ports: seq<Port>, rest: Bytes)
    requires |ports| == |ms| && forall m :: m in ms ==> Sendable(m)
    ensures MessagesOf(EncodeMessages(ms, ports) + rest) == ms + MessagesOf(rest)
    decreases |ms|
  {
    hide EncodeMessage, MessagesFrom;
    if ms == [] {
      assert EncodeMessages(ms, ports) + rest == rest;
    } else {
      assert Sendable(ms[0]);
      var head, tail := EncodeMessage(ms[0], ports[0]), EncodeMessages(ms[1..], ports[1..]) + rest;
      assert EncodeMessages(ms, ports) + rest == head + tail;
      MessageRoundTrip(ms[0], ports[0], tail);
      MessagesShift(head, tail, 0);
      MessagesRoundTrip(ms[1..], ports[1..], rest);
      assert ms == [ms[0]] + ms[1..];
    }
  }

  lemma PaddingShifts(n: nat)
    ensures Align4(NLMSG_HDR + n) == NLMSG_HDR + Align4(n)
  {
  }

  lemma U16Inside(pre: Bytes, v: nat, rest: Bytes)
    requires v < 0x1_0000
    ensures U16(pre + PutU16(v) + rest, |pre|) == v
  {
  }

  lemma U32Inside(pre: Bytes, v: nat, rest: Bytes)
    requires v < 0x1_0000_0000
    ensures U32(pre + PutU32(v) + rest, |pre|) == v
  {
    var b := pre + PutU32(v) + rest;
    assert b[|pre|] == PutU32(v)[0] && b[|pre| + 1] == PutU32(v)[1];
    assert b[|pre| + 2] == PutU32(v)[2] && b[|pre| + 3] == PutU32(v)[3];
  }

  // ----- attributes

  datatype Attr = Attr(kind: nat, value: Bytes)

  predicate AttrAt(buf: Bytes, off: nat) {
    off + RTATTR_HDR <= |buf| && RTATTR_HDR <= U16(buf, off) && off + U16(buf, off) <= |buf|
  }

  /** The top two bits of the type are flags (nested, byte order) and are masked off. */
  function ReadAttr(buf: Bytes, off: nat): Attr
    requires AttrAt(buf, off)
  {
    Attr(U16(buf, off + 2) % 0x4000, buf[off + RTATTR_HDR..off + U16(buf, off)])
  }

  function AttrsFrom(buf: Bytes, off: nat): seq<Attr>
    decreases |buf| - off
  {
    if !AttrAt(buf, off) then []
    else [ReadAttr(buf, off)] + AttrsFrom(buf, off + Align4(U16(buf, off)))
  }

  function AttrsOf(buf: Bytes): seq<Attr> {
    AttrsFrom(buf, 0)
  }

  class Attrs {
    const buf: Bytes
    var off: nat

    constructor (buf: Bytes)
      ensures this.buf == buf && Left() == AttrsOf(buf)
    {
      this.buf := buf;
      this.off := 0;
    }

    ghost function Left(): seq<Attr>
      reads this
    {
      AttrsFrom(buf, off)
    }

    ghost function Rank(): nat
      reads this
    {
      if off < |buf| then |buf| - off else 0
    }

    method Next() returns (a: Option<Attr>)
      modifies this
      ensures a.None? ==> old(Left()) == [] && Left() == []
      ensures a.Some? ==> old(Left()) == [a.value] + Left() && Rank() < old(Rank())
    {
      hide U16, Align4;
      if off + RTATTR_HDR > |buf| {
        return None;
      }
      var len, kind := U16(buf, off), U16(buf, off + 2);
      if len < RTATTR_HDR || off + len > |buf| {
        return None;
      }
      var value := buf[off + RTATTR_HDR..off + len];
      off := off + Align4(len);
      a := Some(Attr(kind % 0x4000, value));
    }
  }

  /** An attribute that can state its own length. */
  predicate Encodable(a: Attr) {
    a.kind < 0x1_0000 && RTATTR_HDR + |a.value| < 0x1_0000
  }

  function EncodeAttr(a: Attr): (r: Bytes)
    requires Encodable(a)
    ensures |r| == Align4(RTATTR_HDR + |a.value|)
  {
    PutU16(RTATTR_HDR + |a.value|) + PutU16(a.kind) + a.value +
    Zeros(Align4(RTATTR_HDR + |a.value|) - RTATTR_HDR - |a.value|)
  }

  function EncodeAttrs(xs: seq<Attr>): Bytes
    requires forall x :: x in xs ==> Encodable(x)
  {
    if xs == [] then [] else EncodeAttr(xs[0]) + EncodeAttrs(xs[1..])
  }

  /** The attributes as a reader sees them: the flag bits gone. */
  function Masked(xs: seq<Attr>): (r: seq<Attr>)
    ensures |r| == |xs| && forall k :: 0 <= k < |xs| ==> r[k] == Attr(xs[k].kind % 0x4000, xs[k].value)
  {
    seq(|xs|, k requires 0 <= k < |xs| => Attr(xs[k].kind % 0x4000, xs[k].value))
  }

  class Buffer {
    var data: Bytes

    constructor ()
      ensures data == []
    {
      data := [];
    }

    /** Append one attribute, padded to a multiple of four. */
    method PutAttr(kind: nat, value: Bytes)
      requires Encodable(Attr(kind, value))
      modifies this
      ensures data == old(data) + EncodeAttr(Attr(kind, value))
    {
      var len := RTATTR_HDR + |value|;
      data := data + PutU16(len);
      data := data + PutU16(kind);
      data := data + value;
      data := data + Zeros(Align4(len) - len);
    }
  }

  lemma AttrReadsBack(pre: Bytes, a: Attr, rest: Bytes)
    requires Encodable(a)
    ensures var b := pre + EncodeAttr(a) + rest;
            && AttrAt(b, |pre|)
            && U16(b, |pre|) == RTATTR_HDR + |a.value|
            && ReadAttr(b, |pre|) == Attr(a.kind % 0x4000, a.value)
  {
    var b := pre + EncodeAttr(a) + rest;
    var n := RTATTR_HDR + |a.value|;
    assert b[|pre|..|pre| + 2] == PutU16(n) && b[|pre| + 2..|pre| + 4] == PutU16(a.kind);
    assert U16(b, |pre|) == U16(b[|pre|..|pre| + 2], 0);
    assert U16(b, |pre| + 2) == U16(b[|pre| + 2..|pre| + 4], 0);
    assert b[|pre| + RTATTR_HDR..|pre| + n] == a.value;
  }

  lemma {:induction false} AttrsReadBack(pre: Bytes, xs: seq<Attr>, rest: Bytes)
    requires forall x :: x in xs ==> Encodable(x)
    ensures AttrsFrom(pre + EncodeAttrs(xs) + rest, |pre|) ==
            Masked(xs) + AttrsFrom(pre + EncodeAttrs(xs) + rest, |pre| + |EncodeAttrs(xs)|)
    decreases |xs|
  {
    hide EncodeAttr, ReadAttr, AttrAt, U16, Align4;
    var b := pre + EncodeAttrs(xs) + rest;
    if xs == [] {
      assert Masked(xs) == [];
    } else {
      var first, more := EncodeAttr(xs[0]), EncodeAttrs(xs[1..]);
      assert b == pre + first + (more + rest);
      AttrReadsBack(pre, xs[0], more + rest);
      assert b == (pre + first) + more + rest;
      AttrsReadBack(pre + first, xs[1..], rest);
      assert |pre + first| + |more| == |pre| + |EncodeAttrs(xs)|;
      assert Masked(xs) == [Attr(xs[0].kind % 0x4000, xs[0].value)] + Masked(xs[1..]);
    }
  }

  /** Whatever flag bits the kernel stamps on, the attributes written are the ones read. */
  lemma AttrsRoundTrip(xs: seq<Attr>)
    requires forall x :: x in xs ==> Encodable(x)
    ensures AttrsOf(EncodeAttrs(xs)) == Masked(xs)
    ensures (forall x :: x in xs ==> x.kind < 0x4000) ==> AttrsOf(EncodeAttrs(xs)) == xs
  {
    hide EncodeAttrs, ReadAttr, U16, Align4;
    var b := EncodeAttrs(xs);
    AttrsReadBack([], xs, []);
    assert [] + b + [] == b;
    assert AttrsFrom(b, |b|) == [];
    assert AttrsOf(b) == Masked(xs);
    if forall x :: x in xs ==> x.kind < 0x4000 {
      assert Masked(xs) == xs;
    }
  }
}
