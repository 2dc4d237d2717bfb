// The virtual functions of a link message (src/netlink.rs, `collect_vf_info`): attributes nested
// three deep, read back exactly as they were written.

module VfList {
  import opened Basics
  import opened Netlink

  datatype VfInfo = VfInfo(pf: nat, vf: nat, mac: Mac, trusted: Option<bool>)

  // ----- reading

  /** `struct ifla_vf_mac`: the function's number, then the address. */
  predicate IsVfMac(x: Attr) {
    x.kind == IFLA_VF_MAC && |x.value| >= 10
  }

  /** `struct ifla_vf_trust`: the function's number, then the setting. */
  predicate IsVfTrust(x: Attr) {
    x.kind == IFLA_VF_TRUST && |x.value| >= 8
  }

  /** One nest, attribute by attribute: the last address and the last setting stand. */
  function ReadNest(pf: nat, xs: seq<Attr>): (Option<VfInfo>, Option<bool>) {
    if xs == [] then
      (None, None)
    else
      var (found, trusted) := ReadNest(pf, xs[..|xs| - 1]);
      var x := xs[|xs| - 1];
      if IsVfMac(x) then (Some(VfInfo(pf, U32(x.value, 0), MacAt(x.value, 4), None)), trusted)
      else if IsVfTrust(x) then (found, Some(U32(x.value, 4) != 0))
      else (found, trusted)
  }

  /** Only a nest that holds an address counts. */
  function NestInfo(pf: nat, nest: Bytes): seq<VfInfo> {
    var (found, trusted) := ReadNest(pf, AttrsOf(nest));
    if found.Some? then [found.value.(trusted := trusted)] else []
  }

  function ListInfo(pf: nat, xs: seq<Attr>): seq<VfInfo> {
    if xs == [] then []
    else (if xs[0].kind == IFLA_VF_INFO then NestInfo(pf, xs[0].value) else []) + ListInfo(pf, xs[1..])
  }

  function TopInfo(pf: nat, xs: seq<Attr>): seq<VfInfo> {
    if xs == [] then []
    else (if xs[0].kind == IFLA_VFINFO_LIST then ListInfo(pf, AttrsOf(xs[0].value)) else []) + TopInfo(pf, xs[1..])
  }

  function InfoOf(payload: Bytes): seq<VfInfo> {
    if |payload| < IFINFOMSG_LEN || I32(payload, 4) <= 0 then []
    else TopInfo(I32(payload, 4), AttrsOf(payload[IFINFOMSG_LEN..]))
  }

  method CollectNest(pf: nat, nest: Bytes) returns (out: seq<VfInfo>)
    ensures out == NestInfo(pf, nest)
  {
    hide AttrsFrom, U32;
    var found: Option<VfInfo>, trusted: Option<bool> := None, None;
    var walk := new Attrs(nest);
    ghost var done: seq<Attr> := [];
    while true
      invariant AttrsOf(nest) == done + walk.Left()
      invariant (found, trusted) == ReadNest(pf, done)
      decreases walk.Rank()
    {
      var next := walk.Next();
      if next.None? {
        break;
      }
      var x := next.value;
      assert (done + [x])[..|done|] == done;
      done := done + [x];
      if x.kind == IFLA_VF_MAC && |x.value| >= 10 {
        found := Some(VfInfo(pf, U32(x.value, 0), MacAt(x.value, 4), None));
      }
      if x.kind == IFLA_VF_TRUST && |x.value| >= 8 {
        trusted := Some(U32(x.value, 4) != 0);
      }
    }
    assert done + [] == done;
    out := if found.Some? then [found.value.(trusted := trusted)] else [];
  }

  method CollectList(pf: nat, list: Bytes) returns (out: seq<VfInfo>)
    ensures out == ListInfo(pf, AttrsOf(list))
  {
    hide AttrsFrom, NestInfo;
    out := [];
    var walk := new Attrs(list);
    while true
      invariant ListInfo(pf, AttrsOf(list)) == out + ListInfo(pf, walk.Left())
      decreases walk.Rank()
    {
      ghost var left := walk.Left();
      var next := walk.Next();
      if next.None? {
        break;
      }
      assert left[1..] == walk.Left();
      if next.value.kind == IFLA_VF_INFO {
        var one := CollectNest(pf, next.value.value);
        out := out + one;
      }
    }
  }

  method CollectVfInfo(payload: Bytes) returns (out: seq<VfInfo>)
    ensures out == InfoOf(payload)
  {
    hide AttrsFrom, ListInfo, U32;
    if |payload| < IFINFOMSG_LEN {
      return [];
    }
    var index := I32(payload, 4);
    if index <= 0 {
      return [];
    }
    out := [];
    var walk := new Attrs(payload[IFINFOMSG_LEN..]);
    while true
      invariant TopInfo(index, AttrsOf(payload[IFINFOMSG_LEN..])) == out + TopInfo(index, walk.Left())
      decreases walk.Rank()
    {
      ghost var left := walk.Left();
      var next := walk.Next();
      if next.None? {
        break;
      }
      assert left[1..] == walk.Left();
      if next.value.kind == IFLA_VFINFO_LIST {
        var some := CollectList(index, next.value.value);
        out := out + some;
      }
    }
  }

  // ----- writing, as the kernel does

  /** The flag bits of a type: nested, and network byte order. */
  type Flags = f: int | f == 0 || f == 0x4000 || f == 0x8000 || f == 0xC000

  /** One function as written: what it says, and the flag bits on its nest and on each attribute in it. */
  datatype Written = Written(info: VfInfo, onNest: Flags, onMac: Flags, onTrust: Flags)

  function Flagged(a: Attr, flags: Flags): (b: Attr)
    requires a.kind < 0x4000
    ensures b.value == a.value && b.kind % 0x4000 == a.kind && (Encodable(a) ==> Encodable(b))
  {
    Attr(a.kind + flags, a.value)
  }

  function MacAttr(v: VfInfo): (a: Attr)
    requires v.vf < 0x1_0000_0000
    ensures Encodable(a) && a.kind == IFLA_VF_MAC && |a.value| == 36
  {
    Attr(IFLA_VF_MAC, PutU32(v.vf) + MacBytes(v.mac) + Zeros(26))
  }

  function TrustAttr(v: VfInfo): (a: Attr)
    requires v.vf < 0x1_0000_0000 && v.trusted.Some?
    ensures Encodable(a) && a.kind == IFLA_VF_TRUST && |a.value| == 8
  {
    Attr(IFLA_VF_TRUST, PutU32(v.vf) + PutU32(if v.trusted.value then 1 else 0))
  }

  /** What a reader gets to see of a nest. */
  function PlainNest(v: VfInfo): (xs: seq<Attr>)
    requires v.vf < 0x1_0000_0000
  {
    if v.trusted.Some? then [MacAttr(v), TrustAttr(v)] else [MacAttr(v)]
  }

  function NestAttrs(w: Written): (xs: seq<Attr>)
    requires w.info.vf < 0x1_0000_0000
    ensures forall x :: x in xs ==> Encodable(x)
  {
    hide MacAttr, TrustAttr, Encodable, Flagged;
    if w.info.trusted.Some? then [Flagged(MacAttr(w.info), w.onMac), Flagged(TrustAttr(w.info), w.onTrust)]
    else [Flagged(MacAttr(w.info), w.onMac)]
  }

  lemma NestReadsPlain(w: Written)
    requires w.info.vf < 0x1_0000_0000
    ensures Masked(NestAttrs(w)) == PlainNest(w.info)
  {
    hide MacAttr, TrustAttr, Encodable, Flagged;
    var xs, plain := NestAttrs(w), PlainNest(w.info);
    assert xs[0].value == plain[0].value && xs[0].kind % 0x4000 == plain[0].kind;
    assert |xs| > 1 ==> xs[1].value == plain[1].value && xs[1].kind % 0x4000 == plain[1].kind;
  }

  function NestBytes(w: Written): (r: Bytes)
    requires w.info.vf < 0x1_0000_0000
    ensures |r| <= 52
  {
    NestLength(w);
    EncodeAttrs(NestAttrs(w))
  }

  lemma NestLength(w: Written)
    requires w.info.vf < 0x1_0000_0000
    ensures |EncodeAttrs(NestAttrs(w))| <= 52
  {
    hide MacAttr, TrustAttr, EncodeAttr, EncodeAttrs, Flagged;
    OneAttrLength(Flagged(MacAttr(w.info), w.onMac));
    if w.info.trusted.Some? {
      TwoAttrsLength(Flagged(MacAttr(w.info), w.onMac), Flagged(TrustAttr(w.info), w.onTrust));
    }
  }

  lemma OneAttrLength(a: Attr)
    requires Encodable(a)
    ensures |EncodeAttrs([a])| == Align4(4 + |a.value|)
  {
    hide EncodeAttr, Align4;
    assert [a][1..] == [];
    assert EncodeAttrs([a]) == EncodeAttr(a) + EncodeAttrs([]);
  }

  lemma TwoAttrsLength(a: Attr, b: Attr)
    requires Encodable(a) && Encodable(b)
    ensures |EncodeAttrs([a, b])| == Align4(4 + |a.value|) + Align4(4 + |b.value|)
  {
    hide EncodeAttr, Align4;
    assert [a, b][1..] == [b];
    assert EncodeAttrs([a, b]) == EncodeAttr(a) + EncodeAttrs([b]);
    OneAttrLength(b);
  }

  function NestAttr(w: Written): (a: Attr)
    requires w.info.vf < 0x1_0000_0000
    ensures Encodable(a) && Attr(a.kind % 0x4000, a.value) == Attr(IFLA_VF_INFO, NestBytes(w))
  {
    Flagged(Attr(IFLA_VF_INFO, NestBytes(w)), w.onNest)
  }

  predicate NumbersFit(ws: seq<Written>) {
    forall w :: w in ws ==> w.info.vf < 0x1_0000_0000
  }

  function NestsOf(ws: seq<Written>): (xs: seq<Attr>)
    requires NumbersFit(ws)
    ensures |xs| == |ws| && forall x :: x in xs ==> Encodable(x)
  {
    if ws == [] then [] else [NestAttr(ws[0])] + NestsOf(ws[1..])
  }

  function InfosOf(ws: seq<Written>): seq<VfInfo> {
    if ws == [] then [] else [ws[0].info] + InfosOf(ws[1..])
  }

  // ----- the round trip, from the inside out

  lemma MacAttrReadsBack(v: VfInfo)
    requires v.vf < 0x1_0000_0000
    ensures U32(MacAttr(v).value, 0) == v.vf && MacAt(MacAttr(v).value, 4) == v.mac
  {
    hide PutU32, U32, Zeros;
    var value := MacAttr(v).value;
    U32Inside([], v.vf, MacBytes(v.mac) + Zeros(26));
    assert value == [] + PutU32(v.vf) + (MacBytes(v.mac) + Zeros(26));
    assert value[4..10] == MacBytes(v.mac);
    assert MacAt(value, 4) == MacAt(value[4..10], 0);
  }

  lemma TrustAttrReadsBack(v: VfInfo)
    requires v.vf < 0x1_0000_0000 && v.trusted.Some?
    ensures U32(TrustAttr(v).value, 4) == if v.trusted.value then 1 else 0
  {
    hide PutU32, U32;
    var setting := if v.trusted.value then 1 else 0;
    U32Inside(PutU32(v.vf), setting, []);
    assert TrustAttr(v).value == PutU32(v.vf) + PutU32(setting) + [];
  }

  lemma NestReadsBack(w: Written)
    requires w.info.vf < 0x1_0000_0000
    ensures NestInfo(w.info.pf, NestBytes(w)) == [w.info]
  {
    hide AttrsFrom, EncodeAttrs, MacAttr, TrustAttr, U32, MacAt, NestAttrs, Masked;
    var v := w.info;
    var xs := PlainNest(v);
    AttrsRoundTrip(NestAttrs(w));
    NestReadsPlain(w);
    var m := MacAttr(v);
    MacAttrReadsBack(v);
    var found := VfInfo(v.pf, v.vf, v.mac, None);
    assert [m][..0] == [];
    assert ReadNest(v.pf, [m]) == (Some(found), None);
    if v.trusted.Some? {
      TrustAttrReadsBack(v);
      assert xs[..1] == [m];
      assert ReadNest(v.pf, xs) == (Some(found), v.trusted);
    }
  }

  lemma {:induction false} ListReadsBack(pf: nat, ws: seq<Written>)
    requires NumbersFit(ws) && forall w :: w in ws ==> w.info.pf == pf
    ensures ListInfo(pf, Masked(NestsOf(ws))) == InfosOf(ws)
  {
    hide NestInfo, NestBytes;
    if ws != [] {
      NestReadsBack(ws[0]);
      ListReadsBack(pf, ws[1..]);
      assert Masked(NestsOf(ws))[0] == Attr(IFLA_VF_INFO, NestBytes(ws[0]));
      assert Masked(NestsOf(ws))[1..] == Masked(NestsOf(ws[1..]));
    }
  }

  lemma {:induction false} OtherAttributesAreSkipped(pf: nat, before: seq<Attr>, xs: seq<Attr>)
    requires forall x :: x in before ==> x.kind != IFLA_VFINFO_LIST
    ensures TopInfo(pf, before + xs) == TopInfo(pf, xs)
  {
    if before == [] {
      assert before + xs == xs;
    } else {
      assert (before + xs)[1..] == before[1..] + xs;
      OtherAttributesAreSkipped(pf, before[1..], xs);
    }
  }

  /** Among other attributes, with any flag bits on it, the list is found and read once. */
  lemma ListIsFound(pf: nat, before: seq<Attr>, list: Attr, after: seq<Attr>)
    requires list.kind % 0x4000 == IFLA_VFINFO_LIST
    requires forall x :: x in before + after ==> x.kind % 0x4000 != IFLA_VFINFO_LIST
    ensures TopInfo(pf, Masked(before + [list] + after)) == ListInfo(pf, AttrsOf(list.value))
  {
    hide ListInfo, AttrsFrom;
    var read := Attr(IFLA_VFINFO_LIST, list.value);
    assert forall x :: x in before || x in after ==> x in before + after;
    assert Masked(before + [list] + after) == Masked(before) + ([read] + Masked(after));
    OtherAttributesAreSkipped(pf, Masked(before), [read] + Masked(after));
    assert ([read] + Masked(after))[1..] == Masked(after);
    assert Masked(after) == Masked(after) + [];
    OtherAttributesAreSkipped(pf, Masked(after), []);
  }

  /** The list of virtual functions as one attribute, with the flag bits a kernel may add. */
  function ListAttr(ws: seq<Written>, flags: Flags): (a: Attr)
    requires NumbersFit(ws)
    ensures a.value == EncodeAttrs(NestsOf(ws)) && a.kind % 0x4000 == IFLA_VFINFO_LIST
  {
    hide EncodeAttrs, NestsOf, Flagged, Encodable;
    Flagged(Attr(IFLA_VFINFO_LIST, EncodeAttrs(NestsOf(ws))), flags)
  }

  /**
   * A link message written with one VF list, among any other attributes and with any flag bits
   * on the list, on each nest and on each attribute in a nest, reads back as exactly that list.
   */
  lemma VfListRoundTrip(head: Bytes, before: seq<Attr>, flags: Flags, ws: seq<Written>, after: seq<Attr>)
    requires |head| == IFINFOMSG_LEN && I32(head, 4) > 0
    requires NumbersFit(ws) && forall w :: w in ws ==> w.info.pf == I32(head, 4)
    requires forall x :: x in before + [ListAttr(ws, flags)] + after ==> Encodable(x)
    requires forall x :: x in before + after ==> x.kind % 0x4000 != IFLA_VFINFO_LIST
    ensures InfoOf(head + EncodeAttrs(before + [ListAttr(ws, flags)] + after)) == InfosOf(ws)
  {
    hide AttrsFrom, EncodeAttrs, ListInfo, NestInfo, I32, Encodable, TopInfo, NestsOf, ListAttr, InfosOf;
    var pf := I32(head, 4);
    var list := ListAttr(ws, flags);
    var xs := before + [list] + after;
    AttrsRoundTrip(xs);
    assert (head + EncodeAttrs(xs))[IFINFOMSG_LEN..] == EncodeAttrs(xs);
    IndexKeepsItsPlace(head, EncodeAttrs(xs));
    ListIsFound(pf, before, list, after);
    AttrsRoundTrip(NestsOf(ws));
    ListReadsBack(pf, ws);
  }

  lemma IndexKeepsItsPlace(head: Bytes, rest: Bytes)
    requires |head| == IFINFOMSG_LEN
    ensures I32(head + rest, 4) == I32(head, 4)
  {
    var b := head + rest;
    assert b[4] == head[4] && b[5] == head[5] && b[6] == head[6] && b[7] == head[7];
  }
}
