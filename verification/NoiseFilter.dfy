// The kernel-side noise filter (src/netlink.rs, `attach_noise_filter`): a classic BPF program,
// run here by a small interpreter and held against what the daemon would have read.

module ClassicBpf {
  import opened Basics

  const LD_B_ABS := 0x30
  const LD_W_LEN := 0x80
  const JEQ_K := 0x15
  const JGE_K := 0x35
  const LSH_K := 0x64
  const OR_X := 0x4c
  const ADD_K := 0x04
  const AND_K := 0x54
  const SUB_X := 0x1c
  const TAX := 0x07
  const RET_K := 0x06

  const WORD := 0x1_0000_0000

  /** `struct sock_filter`. */
  datatype Instr = Instr(code: nat, jt: nat, jf: nat, k: nat)

  function Stmt(code: nat, k: nat): Instr {
    Instr(code, 0, 0, k)
  }

  function Jump(code: nat, k: nat, jt: nat, jf: nat): Instr {
    Instr(code, jt, jf, k)
  }

  // ----- bits

  function BitAnd(x: nat, y: nat): nat {
    if x == 0 || y == 0 then 0
    else (if x % 2 == 1 && y % 2 == 1 then 1 else 0) + 2 * BitAnd(x / 2, y / 2)
  }

  function BitOr(x: nat, y: nat): nat {
    if x == 0 && y == 0 then 0
    else (if x % 2 == 1 || y % 2 == 1 then 1 else 0) + 2 * BitOr(x / 2, y / 2)
  }

  function Pow2(n: nat): (r: nat)
    ensures r >= 1
  {
    if n == 0 then 1 else 2 * Pow2(n - 1)
  }

  lemma {:induction false} AndOnes(x: nat, n: nat)
    requires x < Pow2(n)
    ensures BitAnd(x, Pow2(n) - 1) == x
  {
    if x != 0 {
      assert (Pow2(n) - 1) / 2 == Pow2(n - 1) - 1;
      AndOnes(x / 2, n - 1);
    }
  }

  /** Masking with all ones but the low two rounds down to a multiple of four. */
  lemma AndNotThree(x: nat)
    requires x < WORD
    ensures BitAnd(x, 0xFFFF_FFFC) == x / 4 * 4
  {
    ThirtyOnes();
    AndOnes(x / 4, 30);
    AndEven(x, 0x7FFF_FFFE);
    AndEven(x / 2, 0x3FFF_FFFF);
    hide BitAnd, Pow2;
    assert x / 2 / 2 == x / 4;
  }

  lemma ThirtyOnes()
    ensures Pow2(30) == 0x4000_0000
  {
    assert Pow2(8) == 0x100 && Pow2(16) == 0x1_0000 && Pow2(24) == 0x100_0000;
  }

  lemma AndEven(x: nat, y: nat)
    ensures BitAnd(x, 2 * y) == 2 * BitAnd(x / 2, y)
  {
  }

  lemma {:induction false} OrDisjoint(low: nat, high: nat, n: nat)
    requires low < Pow2(n)
    ensures BitOr(low, high * Pow2(n)) == low + high * Pow2(n)
  {
    if n == 0 {
      OrZero(high);
    } else {
      assert high * Pow2(n) == 2 * (high * Pow2(n - 1));
      OrDisjoint(low / 2, high, n - 1);
    }
  }

  lemma {:induction false} OrZero(x: nat)
    ensures BitOr(0, x) == x
  {
    if x != 0 {
      OrZero(x / 2);
    }
  }

  lemma OrBytes(low: Octet, high: Octet)
    ensures BitOr(low, high * 256) == low + high * 256
  {
    assert Pow2(8) == 256;
    OrDisjoint(low, high, 8);
  }

  // ----- the machine

  datatype Outcome = Next(pc: nat, a: nat, x: nat) | Return(value: nat)

  /** One instruction. A load past the end of the packet ends the program with 0. */
  function Execute(i: Instr, pc: nat, a: nat, x: nat, packet: seq<Octet>): Outcome {
    if i.code == LD_B_ABS then
      if i.k < |packet| then Next(pc + 1, packet[i.k], x) else Return(0)
    else if i.code == LD_W_LEN then Next(pc + 1, |packet| % WORD, x)
    else if i.code == JEQ_K then Next(pc + 1 + if a == i.k then i.jt else i.jf, a, x)
    else if i.code == JGE_K then Next(pc + 1 + if a >= i.k then i.jt else i.jf, a, x)
    else if i.code == LSH_K then Next(pc + 1, a * Pow2(i.k) % WORD, x)
    else if i.code == OR_X then Next(pc + 1, BitOr(a, x), x)
    else if i.code == ADD_K then Next(pc + 1, (a + i.k) % WORD, x)
    else if i.code == AND_K then Next(pc + 1, BitAnd(a, i.k), x)
    else if i.code == SUB_X then Next(pc + 1, (a - x) % WORD, x)
    else if i.code == TAX then Next(pc + 1, a, a)
    else if i.code == RET_K then Return(i.k)
    else Return(0)
  }

  function Interpret(program: seq<Instr>, pc: nat, a: nat, x: nat, packet: seq<Octet>): nat
    decreases |program| - pc
  {
    if pc >= |program| then
      0
    else
      match Execute(program[pc], pc, a, x, packet)
      case Return(v) => v
      case Next(pc', a', x') => Interpret(program, pc', a', x', packet)
  }
}

module NoiseFilter {
  import opened Basics
  import opened ClassicBpf
  import opened Netlink
  import opened Events

  const ACCEPT := 0xFFFF_FFFF

  const PROGRAM: seq<Instr> := [
    Stmt(LD_B_ABS, 2),               //  0: nlmsg_len, third byte
    Jump(JEQ_K, 0, 0, 18),           //  1: 64 KiB or more, accept
    Stmt(LD_B_ABS, 3),               //  2: fourth byte
    Jump(JEQ_K, 0, 0, 16),           //  3
    Stmt(LD_B_ABS, 1),               //  4
    Stmt(LSH_K, 8),                  //  5
    Stmt(TAX, 0),                    //  6
    Stmt(LD_B_ABS, 0),               //  7
    Stmt(OR_X, 0),                   //  8: the length
    Stmt(ADD_K, 3),                  //  9
    Stmt(AND_K, 0xFFFF_FFFC),        // 10: the length, aligned
    Stmt(TAX, 0),                    // 11
    Stmt(LD_W_LEN, 0),               // 12
    Stmt(SUB_X, 0),                  // 13: the room behind the first message
    Jump(JGE_K, 16, 5, 0),           // 14: a second header fits, accept
    Stmt(LD_B_ABS, 5),               // 15: nlmsg_type, high byte
    Jump(JEQ_K, 0, 0, 3),            // 16
    Stmt(LD_B_ABS, 4),               // 17: low byte
    Jump(JEQ_K, RTM_NEWNEIGH, 2, 0), // 18
    Jump(JEQ_K, RTM_DELNEIGH, 1, 0), // 19
    Stmt(RET_K, ACCEPT),             // 20: not proven a single neighbour message
    Stmt(LD_B_ABS, 16),              // 21: ndm_family
    Jump(JEQ_K, AF_BRIDGE, 0, 1),    // 22
    Stmt(RET_K, ACCEPT),             // 23
    Stmt(RET_K, 0)]                  // 24: drop

  function Verdict(d: Bytes): nat {
    Interpret(PROGRAM, 0, 0, 0, d)
  }

  // ----- what it decides, read off the datagram

  /** The family byte is missing or is not the bridge's. */
  predicate FamilyDrops(d: Bytes) {
    |d| <= 16 || d[16] != AF_BRIDGE
  }

  predicate TypeDrops(d: Bytes) {
    |d| <= 5 || (d[5] == 0 && (d[4] == RTM_NEWNEIGH || d[4] == RTM_DELNEIGH) && FamilyDrops(d))
  }

  /** The message ends inside the datagram and leaves no room for a second header. */
  predicate NothingBehind(d: Bytes)
    requires |d| >= 4
  {
    0 <= |d| - Align4(U16(d, 0)) < NLMSG_HDR
  }

  predicate Drops(d: Bytes) {
    || |d| <= 2
    || (d[2] == 0 && (|d| == 3 || (d[3] == 0 && NothingBehind(d) && TypeDrops(d))))
  }

  // ----- the program, in four stretches

  lemma RunFamily(d: Bytes, a: nat, x: nat)
    ensures Interpret(PROGRAM, 21, a, x, d) == if FamilyDrops(d) then 0 else ACCEPT
  {
    assert PROGRAM[21] == Stmt(LD_B_ABS, 16) && PROGRAM[22] == Jump(JEQ_K, AF_BRIDGE, 0, 1);
    assert PROGRAM[23] == Stmt(RET_K, ACCEPT) && PROGRAM[24] == Stmt(RET_K, 0);
    if |d| > 16 {
      assert Interpret(PROGRAM, 21, a, x, d) == Interpret(PROGRAM, 22, d[16], x, d);
      assert Interpret(PROGRAM, 23, d[16], x, d) == ACCEPT && Interpret(PROGRAM, 24, d[16], x, d) == 0;
    }
  }

  lemma RunAccept(d: Bytes, a: nat, x: nat)
    ensures Interpret(PROGRAM, 20, a, x, d) == ACCEPT
  {
    assert PROGRAM[20] == Stmt(RET_K, ACCEPT);
  }

  lemma RunType(d: Bytes, a: nat, x: nat)
    ensures Interpret(PROGRAM, 15, a, x, d) == if TypeDrops(d) then 0 else ACCEPT
  {
    hide FamilyDrops;
    assert PROGRAM[15] == Stmt(LD_B_ABS, 5) && PROGRAM[16] == Jump(JEQ_K, 0, 0, 3);
    assert PROGRAM[17] == Stmt(LD_B_ABS, 4);
    assert PROGRAM[18] == Jump(JEQ_K, RTM_NEWNEIGH, 2, 0) && PROGRAM[19] == Jump(JEQ_K, RTM_DELNEIGH, 1, 0);
    if |d| > 5 {
      assert Interpret(PROGRAM, 15, a, x, d) == Interpret(PROGRAM, 16, d[5], x, d);
      RunAccept(d, d[5], x);
      if d[5] == 0 {
        assert Interpret(PROGRAM, 16, d[5], x, d) == Interpret(PROGRAM, 17, d[5], x, d) == Interpret(PROGRAM, 18, d[4], x, d);
        RunFamily(d, d[4], x);
        RunAccept(d, d[4], x);
        assert d[4] != RTM_NEWNEIGH ==> Interpret(PROGRAM, 18, d[4], x, d) == Interpret(PROGRAM, 19, d[4], x, d);
      }
    }
  }

  /** From the length on: alignment, then the subtraction that wraps when the message is cut. */
  lemma RunRoom(d: Bytes, x: nat)
    requires 4 <= |d| < WORD && d[2] == 0 && d[3] == 0
    ensures Interpret(PROGRAM, 9, U16(d, 0), x, d) == if NothingBehind(d) && TypeDrops(d) then 0 else ACCEPT
  {
    hide TypeDrops, U16, BitAnd, Align4;
    var n := U16(d, 0);
    var end := Align4(n);
    AndNotThree(n + 3);
    AlignedByMask(n);
    assert PROGRAM[9] == Stmt(ADD_K, 3) && PROGRAM[10] == Stmt(AND_K, 0xFFFF_FFFC) && PROGRAM[11] == Stmt(TAX, 0);
    assert Interpret(PROGRAM, 9, n, x, d) == Interpret(PROGRAM, 10, n + 3, x, d);
    assert Interpret(PROGRAM, 10, n + 3, x, d) == Interpret(PROGRAM, 11, end, x, d) == Interpret(PROGRAM, 12, end, end, d);
    RunSubtract(d, end);
  }

  lemma AlignedByMask(n: nat)
    ensures Align4(n) == (n + 3) / 4 * 4
  {
  }

  lemma RunSubtract(d: Bytes, end: nat)
    requires |d| < WORD && end <= 0x1_0004
    ensures Interpret(PROGRAM, 12, end, end, d) == if 0 <= |d| - end < NLMSG_HDR && TypeDrops(d) then 0 else ACCEPT
  {
    hide TypeDrops;
    assert PROGRAM[12] == Stmt(LD_W_LEN, 0) && PROGRAM[13] == Stmt(SUB_X, 0) && PROGRAM[14] == Jump(JGE_K, 16, 5, 0);
    var room := (|d| - end) % WORD;
    assert Interpret(PROGRAM, 12, end, end, d) == Interpret(PROGRAM, 13, |d|, end, d) == Interpret(PROGRAM, 14, room, end, d);
    RunAccept(d, room, end);
    RunType(d, room, end);
    WrappedRoom(|d|, end);
  }

  /** Cut short, the message leaves a negative room, which wraps to a huge one. */
  lemma WrappedRoom(len: nat, end: nat)
    requires len < WORD && end <= 0x1_0004
    ensures (len - end) % WORD >= NLMSG_HDR <==> !(0 <= len - end < NLMSG_HDR)
  {
  }

  /** The verdict on every datagram, exactly. */
  lemma VerdictIsExact(d: Bytes)
    requires |d| < WORD
    ensures Verdict(d) == if Drops(d) then 0 else ACCEPT
  {
    hide TypeDrops, NothingBehind;
    assert PROGRAM[0] == Stmt(LD_B_ABS, 2) && PROGRAM[1] == Jump(JEQ_K, 0, 0, 18);
    assert PROGRAM[2] == Stmt(LD_B_ABS, 3) && PROGRAM[3] == Jump(JEQ_K, 0, 0, 16);
    if |d| > 2 {
      assert Verdict(d) == Interpret(PROGRAM, 1, d[2], 0, d);
      RunAccept(d, d[2], 0);
      if d[2] == 0 {
        assert Interpret(PROGRAM, 1, d[2], 0, d) == Interpret(PROGRAM, 2, 0, 0, d);
        if |d| > 3 {
          assert Interpret(PROGRAM, 2, 0, 0, d) == Interpret(PROGRAM, 3, d[3], 0, d);
          RunAccept(d, d[3], 0);
          if d[3] == 0 {
            RunLength(d);
          }
        }
      }
    }
  }

  lemma RunLength(d: Bytes)
    requires 4 <= |d| < WORD && d[2] == 0 && d[3] == 0
    ensures Interpret(PROGRAM, 3, 0, 0, d) == if NothingBehind(d) && TypeDrops(d) then 0 else ACCEPT
  {
    hide TypeDrops, NothingBehind, BitOr, U16, Pow2;
    assert PROGRAM[3] == Jump(JEQ_K, 0, 0, 16) && PROGRAM[4] == Stmt(LD_B_ABS, 1);
    assert PROGRAM[5] == Stmt(LSH_K, 8) && PROGRAM[6] == Stmt(TAX, 0);
    assert Interpret(PROGRAM, 3, 0, 0, d) == Interpret(PROGRAM, 4, 0, 0, d) == Interpret(PROGRAM, 5, d[1], 0, d);
    ShiftedByte(d[1]);
    var high: nat := 256 * (d[1] as nat);
    assert Interpret(PROGRAM, 5, d[1], 0, d) == Interpret(PROGRAM, 6, high, 0, d) == Interpret(PROGRAM, 7, high, high, d);
    RunOr(d, high);
    RunRoom(d, high);
  }

  lemma ShiftedByte(b: Octet)
    ensures (b as nat) * Pow2(8) % WORD == 256 * (b as nat)
  {
    assert Pow2(8) == 256;
  }

  lemma RunOr(d: Bytes, high: nat)
    requires |d| >= 2 && high == 256 * (d[1] as nat)
    ensures Interpret(PROGRAM, 7, high, high, d) == Interpret(PROGRAM, 9, U16(d, 0), high, d)
  {
    hide BitOr, Pow2;
    assert PROGRAM[7] == Stmt(LD_B_ABS, 0) && PROGRAM[8] == Stmt(OR_X, 0);
    OrBytes(d[0], d[1]);
    assert Interpret(PROGRAM, 7, high, high, d) == Interpret(PROGRAM, 8, d[0], high, d);
  }

  // ----- and what that means

  /** It fails open: whatever the kernel drops, the daemon would have read nothing from. */
  lemma DroppedDatagramsCarryNothing(d: Bytes)
    requires |d| < WORD && Verdict(d) == 0
    ensures AllNews(MessagesOf(d)) == NO_NEWS
  {
    VerdictIsExact(d);
    if MessageAt(d, 0) {
      var n := U32(d, 0);
      assert n == U16(d, 0);
      var m := ReadMessage(d, 0);
      assert MessagesFrom(d, Align4(n)) == [];
      assert MessagesOf(d) == [m] + [];
      assert m.kind == U16(d, 4) == d[4];
      assert m.payload != [] ==> m.payload[0] == d[16];
      assert NewsOf(m) == NO_NEWS;
      assert [m][1..] == [];
    }
  }

  /** And it is no idle filter: a lone neighbour message of another family goes no further. */
  lemma LoneForeignNeighbourIsDropped(m: Message, port: Port)
    requires m.kind == RTM_NEWNEIGH || m.kind == RTM_DELNEIGH
    requires m.flags < 0x1_0000 && m.seqno < 0x1_0000_0000
    requires NLMSG_HDR + |m.payload| < 0x1_0000
    requires m.payload != [] ==> m.payload[0] != AF_BRIDGE
    ensures Verdict(EncodeMessage(m, port)) == 0
  {
    hide EncodeMessage, Align4, TypeDrops;
    var d := EncodeMessage(m, port);
    EncodedHead(m, port);
    PaddingShifts(|m.payload|);
    assert TypeDrops(d) by {
      TypeByteDecides(d);
    }
    VerdictIsExact(d);
  }

  lemma TypeByteDecides(d: Bytes)
    requires |d| > 5 && d[5] == 0 && (d[4] == RTM_NEWNEIGH || d[4] == RTM_DELNEIGH)
    ensures TypeDrops(d) == FamilyDrops(d)
  {
  }

  lemma EncodedHead(m: Message, port: Port)
    requires m.kind < 256 && m.flags < 0x1_0000 && m.seqno < 0x1_0000_0000
    requires NLMSG_HDR + |m.payload| < 0x1_0000
    ensures var d := EncodeMessage(m, port);
            && |d| == NLMSG_HDR + Align4(|m.payload|)
            && U16(d, 0) == NLMSG_HDR + |m.payload| && d[2] == 0 && d[3] == 0
            && d[4] == m.kind && d[5] == 0
            && (m.payload != [] ==> d[16] == m.payload[0])
            && (m.payload == [] ==> |d| == 16)
  {
    hide Zeros, Word, U32;
    var d := EncodeMessage(m, port);
    var n := NLMSG_HDR + |m.payload|;
    assert n % 0x1_0000 == n && n / 0x1_0000 == 0;
    assert PutU32(n) == PutU16(n) + [0, 0];
    assert PutU16(m.kind) == [m.kind, 0];
    var behind := PutU16(m.flags) + PutU32(m.seqno) + PutU32(port);
    assert d == PutU16(n) + [0, 0, m.kind, 0] + behind + (m.payload + Zeros(Align4(|m.payload|) - |m.payload|));
    U16Inside([], n, [0, 0, m.kind, 0] + behind + (m.payload + Zeros(Align4(|m.payload|) - |m.payload|)));
    assert d == [] + PutU16(n) + ([0, 0, m.kind, 0] + behind + (m.payload + Zeros(Align4(|m.payload|) - |m.payload|)));
  }
}
