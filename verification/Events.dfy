// Forwarding entries and notifications, read out of netlink datagrams (src/netlink.rs).

module Fdb {
  import opened Basics

  /** A line of a forwarding table. */
  datatype FdbEntry = FdbEntry(ifindex: nat, master: Option<nat>, mac: Mac, state: nat, flags: Octet) {

    predicate IsSelf() {
      flags / 0x02 % 2 == 1
    }

    /** Picked up from traffic, or planted by a controller; not configured. */
    predicate IsLearned() {
      if IsSelf() || state / 0x80 % 2 == 1 then false
      else flags / 0x10 % 2 == 1 || state / 0x40 % 2 == 0
    }
  }
}

module Events {
  import opened Basics
  import opened Fdb
  import opened Netlink

  // ----- one entry

  /** The last well-formed attribute of a kind wins. */
  function LastMac(xs: seq<Attr>): Option<Mac> {
    if xs == [] then None
    else
      var x := xs[|xs| - 1];
      if x.kind == NDA_LLADDR && |x.value| == 6 then Some(MacAt(x.value, 0))
      else LastMac(xs[..|xs| - 1])
  }

  function LastMaster(xs: seq<Attr>): Option<nat> {
    if xs == [] then None
    else
      var x := xs[|xs| - 1];
      if x.kind == NDA_MASTER && |x.value| == 4 then Some(U32(x.value, 0))
      else LastMaster(xs[..|xs| - 1])
  }

  function EntryOf(payload: Bytes): Option<FdbEntry> {
    if |payload| < NDMSG_LEN || I32(payload, 4) <= 0 then
      None
    else
      var xs := AttrsOf(payload[NDMSG_LEN..]);
      match LastMac(xs)
      case None => None
      case Some(mac) =>
        Some(FdbEntry(I32(payload, 4), LastMaster(xs), mac, U16(payload, 8), payload[10]))
  }

  method ParseFdb(payload: Bytes) returns (r: Option<FdbEntry>)
    ensures r == EntryOf(payload)
  {
    hide AttrsFrom, I32, U32, U16, MacAt;
    if |payload| < NDMSG_LEN {
      return None;
    }
    var index := I32(payload, 4);
    if index <= 0 {
      return None;
    }
    var state, flags := U16(payload, 8), payload[10];
    var mac: Option<Mac> := None;
    var master: Option<nat> := None;
    var walk := new Attrs(payload[NDMSG_LEN..]);
    ghost var done: seq<Attr> := [];
    while true
      invariant AttrsOf(payload[NDMSG_LEN..]) == done + walk.Left()
      invariant mac == LastMac(done) && master == LastMaster(done)
      decreases walk.Rank()
    {
      var a := walk.Next();
      if a.None? {
        break;
      }
      var x := a.value;
      assert (done + [x])[..|done|] == done;
      done := done + [x];
      if x.kind == NDA_LLADDR && |x.value| == 6 {
        mac := Some(MacAt(x.value, 0));
      } else if x.kind == NDA_MASTER && |x.value| == 4 {
        master := Some(U32(x.value, 0));
      }
    }
    assert done + [] == done;
    r := match mac case None => None case Some(m) => Some(FdbEntry(index, master, m, state, flags));
  }

  // ----- a batch

  /** What one message adds to a batch. */
  datatype News = News(fdb: seq<(nat, FdbEntry)>, linksChanged: bool, changedLinks: seq<nat>)

  const NO_NEWS := News([], false, [])

  function Joined(a: News, b: News): News {
    News(a.fdb + b.fdb, a.linksChanged || b.linksChanged, a.changedLinks + b.changedLinks)
  }

  function NewsOf(m: Message): News {
    if m.kind == RTM_NEWLINK || m.kind == RTM_DELLINK then
      News([], true,
           if |m.payload| >= IFINFOMSG_LEN && I32(m.payload, 4) > 0 then [I32(m.payload, 4)] else [])
    else if m.kind != RTM_NEWNEIGH && m.kind != RTM_DELNEIGH then
      NO_NEWS
    else if m.payload == [] || m.payload[0] != AF_BRIDGE then
      NO_NEWS
    else
      match EntryOf(m.payload)
      case None => NO_NEWS
      case Some(e) => News([(m.kind, e)], false, [])
  }

  function AllNews(ms: seq<Message>): News {
    if ms == [] then NO_NEWS else Joined(NewsOf(ms[0]), AllNews(ms[1..]))
  }

  /** A batch of notifications, as the datagrams of one wake-up leave it. */
  class Batch {
    var fdb: seq<(nat, FdbEntry)>
    var linksChanged: bool
    var changedLinks: seq<nat>

    constructor ()
      ensures Read() == NO_NEWS
    {
      fdb, linksChanged, changedLinks := [], false, [];
    }

    function Read(): News
      reads this
    {
      News(fdb, linksChanged, changedLinks)
    }

    /** Adds one datagram, whatever bytes it holds. */
    method CollectEvents(datagram: Bytes)
      modifies this
      ensures Read() == Joined(old(Read()), AllNews(MessagesOf(datagram)))
    {
      var walk := new Messages(datagram);
      ghost var left := walk.Left();
      while true
        invariant fresh(walk) && left == walk.Left()
        invariant Joined(Read(), AllNews(left)) == Joined(old(Read()), AllNews(MessagesOf(datagram)))
        decreases walk.Rank()
      {
        ghost var before := Read();
        var next := walk.Next();
        if next.None? {
          break;
        }
        var m := next.value;
        if m.kind == RTM_NEWLINK || m.kind == RTM_DELLINK {
          linksChanged := true;
          if |m.payload| >= IFINFOMSG_LEN && I32(m.payload, 4) > 0 {
            changedLinks := changedLinks + [I32(m.payload, 4)];
          }
        } else if m.kind == RTM_NEWNEIGH || m.kind == RTM_DELNEIGH {
          if m.payload != [] && m.payload[0] == AF_BRIDGE {
            var e := ParseFdb(m.payload);
            if e.Some? {
              fdb := fdb + [(m.kind, e.value)];
            }
          }
        }
        assert Read() == Joined(before, NewsOf(m));
        JoinedAssociates(before, NewsOf(m), AllNews(walk.Left()));
        assert left[1..] == walk.Left();
        left := walk.Left();
      }
      assert Joined(Read(), NO_NEWS) == Read();
    }
  }

  lemma JoinedAssociates(a: News, b: News, c: News)
    ensures Joined(Joined(a, b), c) == Joined(a, Joined(b, c))
  {
    assert (a.fdb + b.fdb) + c.fdb == a.fdb + (b.fdb + c.fdb);
    assert (a.changedLinks + b.changedLinks) + c.changedLinks == a.changedLinks + (b.changedLinks + c.changedLinks);
  }

  // ----- the request to write an entry

  const REQUEST_FLAGS := 0x001 + 0x004  // request, acknowledge
  const EXCLUSIVE_CREATE := 0x400 + 0x200

  function SelfEntryAddress(mac: Mac): (a: Attr)
    ensures Encodable(a)
  {
    Attr(NDA_LLADDR, MacBytes(mac))
  }

  function SelfEntryHead(ifindex: nat): (r: Bytes)
    requires 0 < ifindex < 0x8000_0000
    ensures |r| == NDMSG_LEN && I32(r, 4) == ifindex && U16(r, 8) == NUD_PERMANENT && r[10] == NTF_SELF
  {
    hide Word;
    var head := [AF_BRIDGE, 0, 0, 0];
    var r := head + PutU32(ifindex) + PutU16(NUD_PERMANENT) + [NTF_SELF, 0];
    assert r == head + PutU32(ifindex) + (PutU16(NUD_PERMANENT) + [NTF_SELF, 0]);
    U32Inside(head, ifindex, PutU16(NUD_PERMANENT) + [NTF_SELF, 0]);
    assert r == (head + PutU32(ifindex)) + PutU16(NUD_PERMANENT) + [NTF_SELF, 0];
    U16Inside(head + PutU32(ifindex), NUD_PERMANENT, [NTF_SELF, 0]);
    r
  }

  /** The message that puts an address into an interface's own list, or takes it out. */
  function SelfEntryRequest(ifindex: nat, mac: Mac, add: bool, seqno: nat): Message
    requires 0 < ifindex < 0x8000_0000
  {
    Message(if add then RTM_NEWNEIGH else RTM_DELNEIGH,
            if add then REQUEST_FLAGS + EXCLUSIVE_CREATE else REQUEST_FLAGS,
            seqno,
            SelfEntryHead(ifindex) + EncodeAttrs([SelfEntryAddress(mac)]))
  }

  lemma NumbersKeepTheirPlace(head: Bytes, rest: Bytes, at: nat)
    requires at + 4 <= |head|
    ensures U32(head + rest, at) == U32(head, at) && U16(head + rest, at) == U16(head, at)
  {
    hide Word;
    assert (head + rest)[at] == head[at] && (head + rest)[at + 1] == head[at + 1];
    assert (head + rest)[at + 2] == head[at + 2] && (head + rest)[at + 3] == head[at + 3];
  }

  /** What is asked for reads back as exactly that entry of that list, and never as a learn. */
  lemma SelfEntryReadsBack(ifindex: nat, mac: Mac, add: bool, seqno: nat)
    requires 0 < ifindex < 0x8000_0000
    ensures EntryOf(SelfEntryRequest(ifindex, mac, add, seqno).payload) ==
            Some(FdbEntry(ifindex, None, mac, NUD_PERMANENT, NTF_SELF))
    ensures var e := FdbEntry(ifindex, None, mac, NUD_PERMANENT, NTF_SELF); e.IsSelf() && !e.IsLearned()
  {
    hide EncodeAttrs, AttrsFrom, SelfEntryHead, U32, U16;
    var xs := [SelfEntryAddress(mac)];
    var head := SelfEntryHead(ifindex);
    var p := SelfEntryRequest(ifindex, mac, add, seqno).payload;
    assert p == head + EncodeAttrs(xs);
    NumbersKeepTheirPlace(head, EncodeAttrs(xs), 4);
    NumbersKeepTheirPlace(head, EncodeAttrs(xs), 8);
    assert p[10] == head[10];
    assert p[NDMSG_LEN..] == EncodeAttrs(xs);
    AttrsRoundTrip(xs);
    assert xs[..0] == [];
    assert LastMac(xs) == Some(MacAt(MacBytes(mac), 0));
    assert LastMaster(xs) == LastMaster(xs[..0]);
  }

  /** A datagram of one message holds that message and its news. */
  lemma LoneMessage(m: Message, port: Port)
    requires Sendable(m)
    ensures MessagesOf(EncodeMessage(m, port)) == [m] && AllNews([m]) == NewsOf(m)
  {
    hide EncodeMessage, MessagesFrom, NewsOf;
    assert EncodeMessages([m], [port]) + [] == EncodeMessage(m, port);
    MessagesRoundTrip([m], [port], []);
    NothingInNothing();
    assert [m][1..] == [];
    JoinedWithNothing(NewsOf(m));
  }

  lemma JoinedWithNothing(n: News)
    ensures Joined(n, NO_NEWS) == n
  {
  }

  /** The request can be sent, and whoever collects it sees one entry added to, or taken from, that list. */
  lemma SelfEntryIsNews(ifindex: nat, mac: Mac, add: bool, seqno: nat)
    requires 0 < ifindex < 0x8000_0000 && seqno < 0x1_0000_0000
    ensures var r := SelfEntryRequest(ifindex, mac, add, seqno);
            && Sendable(r) && r.seqno == seqno
            && NewsOf(r).fdb ==
               [(if add then RTM_NEWNEIGH else RTM_DELNEIGH, FdbEntry(ifindex, None, mac, NUD_PERMANENT, NTF_SELF))]
  {
    hide SelfEntryHead, EncodeAttr, EncodeAttrs, EntryOf;
    SelfEntryReadsBack(ifindex, mac, add, seqno);
    SelfEntryFits(ifindex, mac, add, seqno);
  }

  lemma NothingInNothing()
    ensures MessagesOf([]) == []
  {
  }

  lemma SelfEntryFits(ifindex: nat, mac: Mac, add: bool, seqno: nat)
    requires 0 < ifindex < 0x8000_0000
    ensures var p := SelfEntryRequest(ifindex, mac, add, seqno).payload; |p| == 24 && p[0] == AF_BRIDGE
  {
    hide EncodeAttr;
    var xs := [SelfEntryAddress(mac)];
    assert xs[1..] == [];
    assert EncodeAttrs(xs) == EncodeAttr(xs[0]) + EncodeAttrs([]);
  }
}
