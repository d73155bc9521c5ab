/**
 The hand-encoded stubs of setjmp, longjmp and the chain unwinder: builders that append encodings and patch
 branch distances in place, and the instruction listings their bytes decode to. The builders are methods, as
 in the source; the listings are functions from byte offsets to decoded instructions.
 */
module JumpStubs {
  import opened Wrappers
  import opened Words
  import opened Machine
  import opened Codec

  const JB_RBP := 0x00
  const JB_RBX := 0x08
  const JB_RDI := 0x10
  const JB_RSI := 0x18
  const JB_RSP := 0x20
  const JB_RIP := 0x28
  const JB_SEH := 0x30
  const JB_TRYLEVEL := 0x38

  /**
   The stubs. `shared` is the displacement of the shared save area in the lea that the shim builder patches;
   while a stub is being built its branch distances, too, may still be those given.
   */
  datatype Stub =
    | Setjmp(nv: bool, shared: int)
    | Longjmp(nv: bool, shared: int, trap: int, keep: int)
    | Unwind(found: int, ended: int, back: int)

  function Entry(i: Instr, len: nat): Option<Decoded> { Some(Decoded(i, len)) }

  function SetjmpHead(off: nat): Option<Decoded> {
    match off
    case 0 => Entry(Mov(Qword, M(RCX, JB_RBP), R(RBP)), 3)
    case 3 => Entry(Mov(Qword, M(RCX, JB_RBX), R(RBX)), 4)
    case 7 => Entry(Mov(Qword, M(RCX, JB_RDI), R(RDI)), 4)
    case 11 => Entry(Mov(Qword, M(RCX, JB_RSI), R(RSI)), 4)
    case 15 => Entry(Lea(Qword, RAX, M(RSP, 8)), 5)
    case 20 => Entry(Mov(Qword, M(RCX, JB_RSP), R(RAX)), 4)
    case 24 => Entry(Mov(Qword, R(RAX), M(RSP, 0)), 4)
    case 28 => Entry(Mov(Qword, M(RCX, JB_RIP), R(RAX)), 4)
    case 32 => Entry(Mov(Qword, R(RAX), Gs(0)), 9)
    case 41 => Entry(Mov(Qword, M(RCX, JB_SEH), R(RAX)), 4)
    case _ => None
  }

  function SetjmpNvTail(shared: int, off: nat): Option<Decoded> {
    match off
    case 45 => Entry(Mov(Qword, M(RCX, JB_TRYLEVEL), R(R13)), 4)
    case 49 => Entry(Lea(Qword, RAX, Rip(shared)), 7)
    case 56 => Entry(Mov(Qword, M(RAX, 0), R(R12)), 4)
    case 60 => Entry(Mov(Qword, M(RAX, 8), R(R14)), 4)
    case 64 => Entry(Mov(Qword, M(RAX, 16), R(R15)), 4)
    case 68 => Entry(Alu(Xor, Dword, R(RAX), R(RAX)), 2)
    case 70 => Entry(Ret, 1)
    case _ => None
  }

  function SetjmpPlainTail(off: nat): Option<Decoded> {
    match off
    case 45 => Entry(Mov(Dword, M(RCX, JB_TRYLEVEL), I(0)), 7)
    case 52 => Entry(Alu(Xor, Dword, R(RAX), R(RAX)), 2)
    case 54 => Entry(Ret, 1)
    case _ => None
  }

  /** _setjmp3, with the spill of the call-alignment registers or without. */
  function SetjmpListing(nv: bool, shared: int, off: nat): Option<Decoded> {
    if off < 45 then SetjmpHead(off) else if nv then SetjmpNvTail(shared, off) else SetjmpPlainTail(off)
  }

  function LongjmpHead(off: nat): Option<Decoded> {
    match off
    case 0 => Entry(Push(RDX), 1)
    case 1 => Entry(Mov(Qword, R(RBP), M(RCX, JB_RBP)), 3)
    case 4 => Entry(Mov(Qword, R(RBX), M(RCX, JB_RBX)), 4)
    case 8 => Entry(Mov(Qword, R(RDI), M(RCX, JB_RDI)), 4)
    case 12 => Entry(Mov(Qword, R(RSI), M(RCX, JB_RSI)), 4)
    case _ => None
  }

  function LongjmpSpilled(shared: int, off: nat): Option<Decoded> {
    match off
    case 16 => Entry(Mov(Qword, R(R13), M(RCX, JB_TRYLEVEL)), 4)
    case 20 => Entry(Lea(Qword, RAX, Rip(shared)), 7)
    case 27 => Entry(Mov(Qword, R(R12), M(RAX, 0)), 4)
    case 31 => Entry(Mov(Qword, R(R14), M(RAX, 8)), 4)
    case 35 => Entry(Mov(Qword, R(R15), M(RAX, 16)), 4)
    case _ => None
  }

  function LongjmpChain(trap: int, at: nat): Option<Decoded> {
    match at
    case 0 => Entry(Mov(Qword, R(R10), M(RCX, JB_RIP)), 4)
    case 4 => Entry(Mov(Qword, R(RAX), M(RCX, JB_SEH)), 4)
    case 8 => Entry(Mov(Qword, Gs(0), R(RAX)), 9)
    case 17 => Entry(Alu(Test, Qword, R(R10), R(R10)), 3)
    case 20 => Entry(Jcc(NE, trap), 2)
    case 22 => Entry(Int3, 1)
    case _ => None
  }

  function LongjmpLanding(keep: int, at: nat): Option<Decoded> {
    match at
    // .Lrip_ok:
    case 23 => Entry(Pop(RAX), 1)
    case 24 => Entry(Alu(Test, Dword, R(RAX), R(RAX)), 2)
    case 26 => Entry(Jcc(NE, keep), 2)
    case 28 => Entry(Mov(Dword, R(RAX), I(1)), 5)
    // skip:
    case 33 => Entry(Movsxd(RAX, R(RAX)), 3)
    case 36 => Entry(Mov(Qword, R(RSP), M(RCX, JB_RSP)), 4)
    case 40 => Entry(Push(R10), 2)
    case 42 => Entry(Ret, 1)
    case _ => None
  }

  /** What both variants end with, by distance from its start. */
  function LongjmpTail(trap: int, keep: int, at: nat): Option<Decoded> {
    if at < 23 then LongjmpChain(trap, at) else LongjmpLanding(keep, at)
  }

  /** longjmp. The two branches skip the trap when there is a place to go, and the 1 when the value is not 0. */
  function LongjmpListing(nv: bool, shared: int, trap: int, keep: int, off: nat): Option<Decoded> {
    if off < 16 then LongjmpHead(off)
    else if !nv then LongjmpTail(trap, keep, off - 16)
    else if off < 39 then LongjmpSpilled(shared, off)
    else LongjmpTail(trap, keep, off - 39)
  }

  /** The unwinder. */
  function UnwindListing(found: int, ended: int, back: int, off: nat): Option<Decoded> {
    match off
    case 0 => Entry(Mov(Qword, R(RAX), M(RCX, JB_SEH)), 4)
    case 4 => Entry(Mov(Qword, R(R8), Gs(0)), 9)
    // loop:
    case 13 => Entry(Alu(Cmp, Qword, R(R8), R(RAX)), 3)
    case 16 => Entry(Jcc(E, found), 2)
    case 18 => Entry(Alu(Cmp, Qword, R(R8), I(-1)), 4)
    case 22 => Entry(Jcc(E, ended), 2)
    case 24 => Entry(Mov(Qword, R(R8), M(R8, 0)), 3)
    case 27 => Entry(Mov(Qword, Gs(0), R(R8)), 9)
    case 36 => Entry(Jmp(back), 2)
    // done:
    case 38 => Entry(Ret, 1)
    case _ => None
  }

  /** What should be at each offset of a stub; None inside instructions and past the end. */
  function At(f: Stub, off: nat): Option<Decoded> {
    match f
    case Setjmp(nv, shared) => SetjmpListing(nv, shared, off)
    case Longjmp(nv, shared, trap, keep) => LongjmpListing(nv, shared, trap, keep, off)
    case Unwind(found, ended, back) => UnwindListing(found, ended, back, off)
  }

  /** Wherever the listing has an instruction within the code, the bytes there decode to it. */
  ghost predicate Listed(code: seq<byte>, f: Stub) {
    forall off: nat :: off < |code| && At(f, off).Some? ==> Decode(code[off..]) == At(f, off)
  }

  /** No listed instruction starts inside another. */
  ghost predicate Tiled(f: Stub) {
    forall a: nat, b: nat :: At(f, a).Some? && At(f, b).Some? && a < b ==> a + At(f, a).value.len <= b
  }

  /** Appending the encoding of the next listed instruction. */
  lemma Extend(code: seq<byte>, enc: seq<byte>, f: Stub)
    requires Listed(code, f) && Tiled(f) && At(f, |code|).Some?
    requires Decode(enc) == At(f, |code|) && At(f, |code|).value.len == |enc|
    ensures Listed(code + enc, f)
  {
    forall off: nat | off < |code + enc| && At(f, off).Some?
      ensures Decode((code + enc)[off..]) == At(f, off)
    {
      if off < |code| {
        DecodeLocal(code[off..], (code + enc)[off..]);
      } else {
        assert At(f, |code|).Some?;
        assert off == |code| && (code + enc)[off..] == enc;
      }
    }
  }

  /** The opcode of a two-byte branch stands at its offset. */
  lemma BranchByte(bs: seq<byte>, i: Instr)
    requires Decode(bs) == Entry(i, 2) && (i.Jcc? || i.Jmp?)
    ensures |bs| >= 2
    ensures bs[0] == if i.Jmp? then 0xEB else if i.cond == E then 0x74 else 0x75
  {
    DecodeLocal(bs, bs);
    hide ReadModRm;
  }

  lemma BranchBytes(v: byte)
    ensures Decode([0x74, v]) == Entry(Jcc(E, Signed8(v)), 2) && Decode([0x75, v]) == Entry(Jcc(NE, Signed8(v)), 2)
    ensures Decode([0xEB, v]) == Entry(Jmp(Signed8(v)), 2)
  { }

  /** Overwriting the distance of the two-byte branch at offset `at` turns listing f into g. */
  lemma Patch(code: seq<byte>, at: nat, v: byte, f: Stub, g: Stub)
    requires Listed(code, f) && Tiled(g) && at + 1 < |code|
    requires forall off: nat :: off != at ==> At(f, off) == At(g, off)
    requires At(f, at).Some? && At(f, at).value.len == 2
    requires match At(f, at).value.instr
             case Jcc(c, _) => (c == E || c == NE) && At(g, at) == Entry(Jcc(c, Signed8(v)), 2)
             case Jmp(_) => At(g, at) == Entry(Jmp(Signed8(v)), 2)
             case _ => false
    ensures Listed(code[at + 1 := v], g)
  {
    hide Decode, At;
    var patched := code[at + 1 := v];
    BranchByte(code[at..], At(f, at).value.instr);
    BranchBytes(v);
    forall off: nat | off < |patched| && At(g, off).Some? ensures Decode(patched[off..]) == At(g, off) {
      if off == at {
        DecodeLocal([code[at], v], patched[off..]);
      } else {
        assert At(g, at).Some?;
        DecodeLocal(code[off..], patched[off..]);
      }
    }
  }

  /** At offset at, a `lea rax, [rip + disp]` opcode. */
  predicate LeaAt(code: seq<byte>, at: nat) {
    at + 3 <= |code| && code[at] == 0x48 && code[at + 1] == 0x8D && code[at + 2] == 0x05
  }

  /** The first such opcode is at m. */
  ghost predicate FirstLea(code: seq<byte>, m: nat) {
    LeaAt(code, m) && forall i: nat :: i < m ==> !LeaAt(code, i)
  }

  /** Overwriting the distance in a branch, and overwriting a byte in front of what was appended last. */
  lemma DistanceWritten(code: seq<byte>, op: byte, v: byte)
    ensures (code + [op, 0x00])[|code| + 1 := v] == code + [op, v]
  { }

  lemma WrittenBefore(code: seq<byte>, enc: seq<byte>, at: nat, v: byte)
    requires at < |code|
    ensures (code + enc)[at := v] == code[at := v] + enc
  { }

  /** Writing a branch distance, as the builders do once the target's offset is known. */
  method Link(code: seq<byte>, at: nat, v: byte, ghost f: Stub, ghost g: Stub) returns (linked: seq<byte>)
    requires Listed(code, f) && Tiled(g) && at + 1 < |code|
    requires forall off: nat :: off != at ==> At(f, off) == At(g, off)
    requires At(f, at).Some? && At(f, at).value.len == 2
    requires match At(f, at).value.instr
             case Jcc(c, _) => (c == E || c == NE) && At(g, at) == Entry(Jcc(c, Signed8(v)), 2)
             case Jmp(_) => At(g, at) == Entry(Jmp(Signed8(v)), 2)
             case _ => false
    ensures linked == code[at + 1 := v] && |linked| == |code| && Listed(linked, g)
    ensures forall m: nat :: FirstLea(code, m) && m + 3 <= at ==> FirstLea(linked, m)
  {
    linked := code[at + 1 := v];
    Patch(code, at, v, f, g);
    forall m: nat | FirstLea(code, m) && m + 3 <= at ensures FirstLea(linked, m) {
      forall i: nat | i < m ensures !LeaAt(linked, i) { assert !LeaAt(code, i); }
    }
  }

  /** No such opcode anywhere, aligned or not. */
  ghost predicate NoLea(code: seq<byte>) { forall i: nat :: !LeaAt(code, i) }

  /** Encodings that do not contain the opcode and cannot complete one begun before them. */
  predicate Plain(enc: seq<byte>) {
    && |enc| > 0 && enc[0] != 0x8D && enc[0] != 0x05
    && forall i: nat :: i < |enc| ==> !LeaAt(enc, i)
  }

  lemma PlainAfter(code: seq<byte>, enc: seq<byte>)
    requires NoLea(code) && Plain(enc)
    ensures NoLea(code + enc)
  {
    var all := code + enc;
    forall i: nat ensures !LeaAt(all, i) {
      if LeaAt(all, i) {
        if i + 3 <= |code| {
          assert LeaAt(code, i);
        } else if i >= |code| {
          assert LeaAt(enc, i - |code|);
        }
      }
    }
  }

  lemma LeaAfter(code: seq<byte>, enc: seq<byte>)
    requires NoLea(code) && LeaAt(enc, 0)
    ensures FirstLea(code + enc, |code|)
  {
    forall i: nat | i < |code| ensures !LeaAt(code + enc, i) {
      assert !LeaAt(code, i);
    }
  }

  const SETJMP_LEA := 49
  const LONGJMP_LEA := 20

  // The fixed encodings.

  /** An opcode with a ModRM pair, from its prefixes and operands. */
  lemma PairDecodes(bs: seq<byte>, p: Prefix, m: ModRm, i: Instr)
    requires ReadPrefix(bs) == p && p.at < |bs| && IsPair(bs[p.at])
    requires ReadModRm(p, bs, p.at + 1) == Some(m) && m.reg < 16
    requires PairInstr(bs[p.at], if p.wide then Qword else Dword, Register(m.reg), m.rm) == Some(i)
    ensures Decode(bs) == Entry(i, p.at + 1 + m.len)
  {
    hide ReadPrefix, ReadModRm, PairInstr, Register, IsGroup;
  }

  lemma LeaStackBytes()
    ensures Decode([0x48, 0x8D, 0x44, 0x24, 0x08]) == Entry(Lea(Qword, RAX, M(RSP, 8)), 5)
  {
    var bs: seq<byte> := [0x48, 0x8D, 0x44, 0x24, 0x08];
    var p := Prefix(false, true, 0, 0, 0, 1);
    assert ReadPrefix(bs) == p;
    assert ReadModRm(p, bs, 2) == Some(ModRm(0, M(RSP, 8), 3));
    PairDecodes(bs, p, ModRm(0, M(RSP, 8), 3), Lea(Qword, RAX, M(RSP, 8)));
    hide Decode;
  }

  lemma LoadStackBytes()
    ensures Decode([0x48, 0x8B, 0x04, 0x24]) == Entry(Mov(Qword, R(RAX), M(RSP, 0)), 4)
  {
    var bs: seq<byte> := [0x48, 0x8B, 0x04, 0x24];
    var p := Prefix(false, true, 0, 0, 0, 1);
    assert ReadPrefix(bs) == p;
    hide ReadPrefix, Unpack32, Signed32, Decode, PairInstr;
    assert ReadModRm(p, bs, 2) == Some(ModRm(0, M(RSP, 0), 2));
    PairDecodes(bs, p, ModRm(0, M(RSP, 0), 2), Mov(Qword, R(RAX), M(RSP, 0)));
    hide Decode;
  }

  /** Moves between a register and gs:[0]: REX.W, opcode, ModRM with a SIB byte, no base, no index, disp32 0. */
  function GsBytes(op: byte, r: Reg): seq<byte> {
    [0x65, 0x48 + 4 * (Number(r) / 8), op, 0x04 + 8 * (Number(r) % 8), 0x25, 0x00, 0x00, 0x00, 0x00]
  }

  lemma GsModRm(op: byte, r: Reg)
    ensures var p := Prefix(true, true, Number(r) / 8, 0, 0, 2);
            ReadPrefix(GsBytes(op, r)) == p && ReadModRm(p, GsBytes(op, r), 3) == Some(ModRm(Number(r), Gs(0), 6))
  {
    hide Number, Register;
    assert Unpack32(GsBytes(op, r), 5) == 0;
  }

  lemma GsLoadBytes(r: Reg)
    ensures Decode(GsBytes(LOAD, r)) == Entry(Mov(Qword, R(r), Gs(0)), 9)
    ensures Decode(GsBytes(STORE, r)) == Entry(Mov(Qword, Gs(0), R(r)), 9)
  {
    RegisterNumber(r);
    GsModRm(LOAD, r);
    GsModRm(STORE, r);
    hide ReadModRm, ReadPrefix, Number, Register;
  }

  lemma GsRaxBytes()
    ensures Decode([0x65, 0x48, 0x8B, 0x04, 0x25, 0x00, 0x00, 0x00, 0x00]) == Entry(Mov(Qword, R(RAX), Gs(0)), 9)
    ensures Decode([0x65, 0x48, 0x89, 0x04, 0x25, 0x00, 0x00, 0x00, 0x00]) == Entry(Mov(Qword, Gs(0), R(RAX)), 9)
  {
    GsLoadBytes(RAX);
    hide Decode;
    assert GsBytes(LOAD, RAX) == [0x65, 0x48, 0x8B, 0x04, 0x25, 0x00, 0x00, 0x00, 0x00];
    assert GsBytes(STORE, RAX) == [0x65, 0x48, 0x89, 0x04, 0x25, 0x00, 0x00, 0x00, 0x00];
  }

  lemma ShortBytes()
    ensures Decode([0xC3]) == Entry(Ret, 1) && Decode([0xCC]) == Entry(Int3, 1)
    ensures Decode([0x52]) == Entry(Push(RDX), 1) && Decode([0x58]) == Entry(Pop(RAX), 1)
    ensures Decode([0x41, 0x52]) == Entry(Push(R10), 2)
  { }

  lemma ClearBytes()
    ensures Decode([0x31, 0xC0]) == Entry(Alu(Xor, Dword, R(RAX), R(RAX)), 2)
  { }

  lemma ClearSlotBytes()
    ensures Decode([0xC7, 0x41, 0x38, 0x00, 0x00, 0x00, 0x00]) == Entry(Mov(Dword, M(RCX, JB_TRYLEVEL), I(0)), 7)
  {
    var bs: seq<byte> := [0xC7, 0x41, 0x38, 0x00, 0x00, 0x00, 0x00];
    var p := Prefix(false, false, 0, 0, 0, 0);
    assert ReadPrefix(bs) == p;
    assert ReadModRm(p, bs, 1) == Some(ModRm(0, M(RCX, JB_TRYLEVEL), 2));
    assert Unpack32(bs, 3) == 0;
    hide ReadPrefix, ReadModRm, Unpack32, DecodePair, DecodeShort;
  }

  lemma LeaRipModRm(d: s32)
    ensures var bs := [0x48, 0x8D, 0x05] + Pack32(d % 0x1_0000_0000);
            var p := Prefix(false, true, 0, 0, 0, 1);
            ReadPrefix(bs) == p && ReadModRm(p, bs, 2) == Some(ModRm(0, Rip(d), 5))
  {
    hide Pack32, Unpack32, Register, Displacement, Based, ReadSib, Signed32;
    var four := Pack32(d % 0x1_0000_0000);
    var bs := [0x48, 0x8D, 0x05] + four;
    SignedPack(d);
    UnpackAt(bs, 3, four);
    assert bs[0] == 0x48 && bs[2] == 0x05 && |bs| == 7;
  }

  lemma LeaRipBytes(d: s32)
    ensures Decode([0x48, 0x8D, 0x05] + Pack32(d % 0x1_0000_0000)) == Entry(Lea(Qword, RAX, Rip(d)), 7)
  {
    hide Pack32, ReadPrefix, ReadModRm, Decode;
    var bs: seq<byte> := [0x48, 0x8D, 0x05] + Pack32(d % 0x1_0000_0000);
    LeaRipModRm(d);
    PairDecodes(bs, Prefix(false, true, 0, 0, 0, 1), ModRm(0, Rip(d), 5), Lea(Qword, RAX, Rip(d)));
  }

  lemma LeaZeroBytes()
    ensures Decode([0x48, 0x8D, 0x05, 0x00, 0x00, 0x00, 0x00]) == Entry(Lea(Qword, RAX, Rip(0)), 7)
  {
    hide Decode;
    LeaRipBytes(0);
    assert [0x48, 0x8D, 0x05] + Pack32(0) == [0x48, 0x8D, 0x05, 0x00, 0x00, 0x00, 0x00];
  }

  /** Accesses to the shared save area through rax, with an 8-bit displacement. */
  lemma SharedBytes(op: byte, r: Reg, d: byte)
    requires d < 0x80 && Number(r) >= 8 && (op == STORE || op == LOAD)
    ensures var i := if op == STORE then Mov(Qword, M(RAX, d), R(r)) else Mov(Qword, R(r), M(RAX, d));
            Decode([0x4C, op, 0x40 + 8 * (Number(r) - 8), d]) == Entry(i, 4)
  {
    var bs: seq<byte> := [0x4C, op, 0x40 + 8 * (Number(r) - 8), d];
    RegisterNumber(r);
    hide Number;
    assert ReadPrefix(bs) == Prefix(false, true, 1, 0, 0, 1);
    assert Register(0) == RAX;
    assert ReadModRm(Prefix(false, true, 1, 0, 0, 1), bs, 2) == Some(ModRm(Number(r), M(RAX, d), 2));
    hide ReadPrefix, ReadModRm, Register;
  }

  lemma GsR8Bytes()
    ensures Decode([0x65, 0x4C, 0x8B, 0x04, 0x25, 0x00, 0x00, 0x00, 0x00]) == Entry(Mov(Qword, R(R8), Gs(0)), 9)
    ensures Decode([0x65, 0x4C, 0x89, 0x04, 0x25, 0x00, 0x00, 0x00, 0x00]) == Entry(Mov(Qword, Gs(0), R(R8)), 9)
  {
    GsLoadBytes(R8);
    hide Decode;
    assert GsBytes(LOAD, R8) == [0x65, 0x4C, 0x8B, 0x04, 0x25, 0x00, 0x00, 0x00, 0x00];
    assert GsBytes(STORE, R8) == [0x65, 0x4C, 0x89, 0x04, 0x25, 0x00, 0x00, 0x00, 0x00];
  }

  lemma TestTargetBytes()
    ensures Decode([0x4D, 0x85, 0xD2]) == Entry(Alu(Test, Qword, R(R10), R(R10)), 3)
  {
    var bs: seq<byte> := [0x4D, 0x85, 0xD2];
    var p := Prefix(false, true, 1, 0, 1, 1);
    assert ReadPrefix(bs) == p;
    assert ReadModRm(p, bs, 2) == Some(ModRm(10, R(R10), 1));
    PairDecodes(bs, p, ModRm(10, R(R10), 1), Alu(Test, Qword, R(R10), R(R10)));
    hide Decode;
  }

  lemma TestValueBytes()
    ensures Decode([0x85, 0xC0]) == Entry(Alu(Test, Dword, R(RAX), R(RAX)), 2)
  {
    var bs: seq<byte> := [0x85, 0xC0];
    var p := Prefix(false, false, 0, 0, 0, 0);
    assert ReadPrefix(bs) == p;
    assert ReadModRm(p, bs, 1) == Some(ModRm(0, R(RAX), 1));
    PairDecodes(bs, p, ModRm(0, R(RAX), 1), Alu(Test, Dword, R(RAX), R(RAX)));
    hide Decode;
  }

  lemma TestBytes()
    ensures Decode([0x4D, 0x85, 0xD2]) == Entry(Alu(Test, Qword, R(R10), R(R10)), 3)
    ensures Decode([0x85, 0xC0]) == Entry(Alu(Test, Dword, R(RAX), R(RAX)), 2)
  {
    TestTargetBytes();
    TestValueBytes();
    hide Decode;
  }

  lemma OneBytes()
    ensures Decode([0xB8, 0x01, 0x00, 0x00, 0x00]) == Entry(Mov(Dword, R(RAX), I(1)), 5)
  { }

  lemma ExtendBytes()
    ensures Decode([0x48, 0x63, 0xC0]) == Entry(Movsxd(RAX, R(RAX)), 3)
  { }

  lemma CompareBytes()
    ensures Decode([0x49, 0x39, 0xC0]) == Entry(Alu(Cmp, Qword, R(R8), R(RAX)), 3)
  {
    var bs: seq<byte> := [0x49, 0x39, 0xC0];
    var p := Prefix(false, true, 0, 0, 1, 1);
    assert ReadPrefix(bs) == p;
    assert ReadModRm(p, bs, 2) == Some(ModRm(0, R(R8), 1));
    PairDecodes(bs, p, ModRm(0, R(R8), 1), Alu(Cmp, Qword, R(R8), R(RAX)));
    hide Decode;
  }

  lemma CompareOnesBytes()
    ensures Decode([0x49, 0x83, 0xF8, 0xFF]) == Entry(Alu(Cmp, Qword, R(R8), I(-1)), 4)
  {
    var bs: seq<byte> := [0x49, 0x83, 0xF8, 0xFF];
    var p := Prefix(false, true, 0, 0, 1, 1);
    assert ReadPrefix(bs) == p;
    assert ReadModRm(p, bs, 2) == Some(ModRm(7, R(R8), 1));
    hide ReadPrefix, ReadModRm, DecodePair, DecodeShort;
  }

  lemma ChainBytes()
    ensures Decode([0x49, 0x39, 0xC0]) == Entry(Alu(Cmp, Qword, R(R8), R(RAX)), 3)
    ensures Decode([0x49, 0x83, 0xF8, 0xFF]) == Entry(Alu(Cmp, Qword, R(R8), I(-1)), 4)
  {
    CompareBytes();
    CompareOnesBytes();
    hide Decode;
  }

  lemma FollowBytes()
    ensures Decode([0x4D, 0x8B, 0x00]) == Entry(Mov(Qword, R(R8), M(R8, 0)), 3)
  {
    var bs: seq<byte> := [0x4D, 0x8B, 0x00];
    var p := Prefix(false, true, 1, 0, 1, 1);
    assert ReadPrefix(bs) == p;
    hide ReadPrefix, Unpack32, Signed32, Decode, PairInstr;
    assert ReadModRm(p, bs, 2) == Some(ModRm(8, M(R8, 0), 1));
    PairDecodes(bs, p, ModRm(8, M(R8, 0), 1), Mov(Qword, R(R8), M(R8, 0)));
    hide Decode;
  }

  lemma SpillBytes()
    ensures Decode([0x4C, 0x89, 0x60, 0x00]) == Entry(Mov(Qword, M(RAX, 0), R(R12)), 4)
    ensures Decode([0x4C, 0x89, 0x70, 0x08]) == Entry(Mov(Qword, M(RAX, 8), R(R14)), 4)
    ensures Decode([0x4C, 0x89, 0x78, 0x10]) == Entry(Mov(Qword, M(RAX, 16), R(R15)), 4)
  {
    hide Decode;
    SharedBytes(STORE, R12, 0x00);
    SharedBytes(STORE, R14, 0x08);
    SharedBytes(STORE, R15, 0x10);
  }

  lemma FillBytes()
    ensures Decode([0x4C, 0x8B, 0x60, 0x00]) == Entry(Mov(Qword, R(R12), M(RAX, 0)), 4)
    ensures Decode([0x4C, 0x8B, 0x70, 0x08]) == Entry(Mov(Qword, R(R14), M(RAX, 8)), 4)
    ensures Decode([0x4C, 0x8B, 0x78, 0x10]) == Entry(Mov(Qword, R(R15), M(RAX, 16)), 4)
  {
    hide Decode;
    SharedBytes(LOAD, R12, 0x00);
    SharedBytes(LOAD, R14, 0x08);
    SharedBytes(LOAD, R15, 0x10);
  }

  /** mov [rcx+0x38], r13 and its inverse, as spelled out by hand. */
  lemma AlignBytes()
    ensures Decode([0x4C, 0x89, 0x69, 0x38]) == Entry(Mov(Qword, M(RCX, JB_TRYLEVEL), R(R13)), 4)
    ensures Decode([0x4C, 0x8B, 0x69, 0x38]) == Entry(Mov(Qword, R(R13), M(RCX, JB_TRYLEVEL)), 4)
  {
    hide Decode;
    AccessRoundTrip(R13, JB_TRYLEVEL, []);
    var s, l := EncodeStore(R13, JB_TRYLEVEL).value, EncodeLoad(R13, JB_TRYLEVEL).value;
    assert s + [] == [0x4C, 0x89, 0x69, 0x38] && l + [] == [0x4C, 0x8B, 0x69, 0x38];
  }

  lemma AccessPlain(op: byte, r: Reg, disp: int)
    requires 0 <= disp <= 0x7F && (op == STORE || op == LOAD)
    ensures EncodeAccess(op, r, disp).Some? && Plain(EncodeAccess(op, r, disp).value)
  {
    hide Number;
  }

  lemma NothingListed(f: Stub)
    ensures Listed([], f) && NoLea([])
  { }

  method Emit(code: seq<byte>, ghost at: nat, enc: seq<byte>, ghost f: Stub) returns (longer: seq<byte>)
    requires |code| == at && Listed(code, f) && Tiled(f)
    requires At(f, at).Some? && Decode(enc) == At(f, at) && At(f, at).value.len == |enc|
    ensures longer == code + enc && |longer| == at + |enc| && Listed(longer, f)
    ensures NoLea(code) && Plain(enc) ==> NoLea(longer)
    ensures NoLea(code) && LeaAt(enc, 0) ==> FirstLea(longer, at)
    ensures forall m: nat :: FirstLea(code, m) ==> FirstLea(longer, m)
  {
    longer := code + enc;
    Extend(code, enc, f);
    if NoLea(code) && Plain(enc) { PlainAfter(code, enc); }
    if NoLea(code) && LeaAt(enc, 0) { LeaAfter(code, enc); }
    forall m: nat | FirstLea(code, m) ensures FirstLea(longer, m) {
      forall i: nat | i < m ensures !LeaAt(longer, i) { assert !LeaAt(code, i); }
    }
  }

  method Access(code: seq<byte>, ghost at: nat, op: byte, r: Reg, disp: int, ghost f: Stub) returns (longer: seq<byte>)
    requires 0 <= disp <= 0x7F && (op == STORE || op == LOAD)
    requires var i := if op == STORE then Mov(Qword, M(RCX, disp), R(r)) else Mov(Qword, R(r), M(RCX, disp));
             At(f, at) == Entry(i, if disp == 0 then 3 else 4)
    requires |code| == at && Listed(code, f) && Tiled(f)
    ensures EncodeAccess(op, r, disp).Some? && longer == code + EncodeAccess(op, r, disp).value
    ensures |longer| == at + (if disp == 0 then 3 else 4) && Listed(longer, f)
    ensures NoLea(code) ==> NoLea(longer)
    ensures forall m: nat :: FirstLea(code, m) ==> FirstLea(longer, m)
  {
    AccessRoundTrip(r, disp, []);
    var enc := EncodeAccess(op, r, disp).value;
    assert enc + [] == enc;
    AccessPlain(op, r, disp);
    longer := Emit(code, at, enc, f);
  }

  /** The accesses of the stubs, byte by byte. */
  lemma StoreBytes()
    ensures EncodeAccess(STORE, RBP, JB_RBP) == Some([0x48, 0x89, 0x29])
    ensures EncodeAccess(STORE, RBX, JB_RBX) == Some([0x48, 0x89, 0x59, 0x08])
    ensures EncodeAccess(STORE, RDI, JB_RDI) == Some([0x48, 0x89, 0x79, 0x10])
    ensures EncodeAccess(STORE, RSI, JB_RSI) == Some([0x48, 0x89, 0x71, 0x18])
    ensures EncodeAccess(STORE, RAX, JB_RSP) == Some([0x48, 0x89, 0x41, 0x20])
    ensures EncodeAccess(STORE, RAX, JB_RIP) == Some([0x48, 0x89, 0x41, 0x28])
    ensures EncodeAccess(STORE, RAX, JB_SEH) == Some([0x48, 0x89, 0x41, 0x30])
  { }

  lemma LoadBytes()
    ensures EncodeAccess(LOAD, RBP, JB_RBP) == Some([0x48, 0x8B, 0x29])
    ensures EncodeAccess(LOAD, RBX, JB_RBX) == Some([0x48, 0x8B, 0x59, 0x08])
    ensures EncodeAccess(LOAD, RDI, JB_RDI) == Some([0x48, 0x8B, 0x79, 0x10])
    ensures EncodeAccess(LOAD, RSI, JB_RSI) == Some([0x48, 0x8B, 0x71, 0x18])
    ensures EncodeAccess(LOAD, R10, JB_RIP) == Some([0x4C, 0x8B, 0x51, 0x28])
    ensures EncodeAccess(LOAD, RAX, JB_SEH) == Some([0x48, 0x8B, 0x41, 0x30])
    ensures EncodeAccess(LOAD, RSP, JB_RSP) == Some([0x48, 0x8B, 0x61, 0x20])
  { }

  lemma SetjmpTiled(nv: bool, shared: int)
    ensures Tiled(Setjmp(nv, shared))
  {
    forall a: nat, b: nat | At(Setjmp(nv, shared), a).Some? && At(Setjmp(nv, shared), b).Some? && a < b
      ensures a + At(Setjmp(nv, shared), a).value.len <= b
    {
      if a < 20 {
      } else if a < 45 {
      } else {
      }
    }
  }

  method SetjmpRegisters(nv: bool) returns (code: seq<byte>)
    ensures |code| == 20 && Listed(code, Setjmp(nv, 0)) && NoLea(code)
    ensures code == [0x48, 0x89, 0x29] + [0x48, 0x89, 0x59, 0x08] + [0x48, 0x89, 0x79, 0x10] +
                    [0x48, 0x89, 0x71, 0x18] + [0x48, 0x8D, 0x44, 0x24, 0x08]
  {
    hide Decode, Listed, Tiled, EncodeAccess, NoLea, FirstLea;
    StoreBytes();
    ghost var f := Setjmp(nv, 0);
    SetjmpTiled(nv, 0);
    LeaStackBytes();
    code := [];
    NothingListed(f);
    code := Access(code, 0, STORE, RBP, JB_RBP, f);
    code := Access(code, 3, STORE, RBX, JB_RBX, f);
    code := Access(code, 7, STORE, RDI, JB_RDI, f);
    code := Access(code, 11, STORE, RSI, JB_RSI, f);
    code := Emit(code, 15, [0x48, 0x8D, 0x44, 0x24, 0x08], f);
  }

  method SetjmpContext(head: seq<byte>, nv: bool) returns (code: seq<byte>)
    requires |head| == 20 && Listed(head, Setjmp(nv, 0)) && NoLea(head)
    ensures |code| == 45 && Listed(code, Setjmp(nv, 0)) && NoLea(code)
    ensures code == head +
                    [0x48, 0x89, 0x41, 0x20] + [0x48, 0x8B, 0x04, 0x24] + [0x48, 0x89, 0x41, 0x28] +
                    [0x65, 0x48, 0x8B, 0x04, 0x25, 0x00, 0x00, 0x00, 0x00] + [0x48, 0x89, 0x41, 0x30]
  {
    hide Decode, Listed, Tiled, EncodeAccess, NoLea, FirstLea;
    StoreBytes();
    ghost var f := Setjmp(nv, 0);
    SetjmpTiled(nv, 0);
    LoadStackBytes();
    GsRaxBytes();
    code := Access(head, 20, STORE, RAX, JB_RSP, f);
    code := Emit(code, 24, [0x48, 0x8B, 0x04, 0x24], f);
    code := Access(code, 28, STORE, RAX, JB_RIP, f);
    code := Emit(code, 32, [0x65, 0x48, 0x8B, 0x04, 0x25, 0x00, 0x00, 0x00, 0x00], f);
    code := Access(code, 41, STORE, RAX, JB_SEH, f);
  }

  method SetjmpSpill(head: seq<byte>) returns (code: seq<byte>)
    requires |head| == 45 && Listed(head, Setjmp(true, 0)) && NoLea(head)
    ensures |code| == 68 && Listed(code, Setjmp(true, 0)) && FirstLea(code, SETJMP_LEA)
    ensures code == head +
                    [0x4C, 0x89, 0x69, 0x38] + [0x48, 0x8D, 0x05, 0x00, 0x00, 0x00, 0x00] +
                    [0x4C, 0x89, 0x60, 0x00] + [0x4C, 0x89, 0x70, 0x08] + [0x4C, 0x89, 0x78, 0x10]
  {
    hide Pack32, Unpack32, Decode, Listed, Tiled, EncodeAccess, NoLea, FirstLea;
    ghost var f := Setjmp(true, 0);
    SetjmpTiled(true, 0);
    AlignBytes();
    LeaZeroBytes();
    SpillBytes();
    code := Emit(head, 45, [0x4C, 0x89, 0x69, 0x38], f);
    code := Emit(code, 49, [0x48, 0x8D, 0x05, 0x00, 0x00, 0x00, 0x00], f);
    code := Emit(code, 56, [0x4C, 0x89, 0x60, 0x00], f);
    code := Emit(code, 60, [0x4C, 0x89, 0x70, 0x08], f);
    code := Emit(code, 64, [0x4C, 0x89, 0x78, 0x10], f);
  }

  /** `_setjmp3`: the bytes built decode, offset by offset, to the listing. */
  method BuildSetjmp3(nv: bool) returns (code: seq<byte>)
    ensures |code| == if nv then 71 else 55
    ensures nv ==>
              code == [0x48, 0x89, 0x29] + [0x48, 0x89, 0x59, 0x08] + [0x48, 0x89, 0x79, 0x10] +
                      [0x48, 0x89, 0x71, 0x18] + [0x48, 0x8D, 0x44, 0x24, 0x08] +
                      [0x48, 0x89, 0x41, 0x20] + [0x48, 0x8B, 0x04, 0x24] + [0x48, 0x89, 0x41, 0x28] +
                      [0x65, 0x48, 0x8B, 0x04, 0x25, 0x00, 0x00, 0x00, 0x00] + [0x48, 0x89, 0x41, 0x30] +
                      [0x4C, 0x89, 0x69, 0x38] + [0x48, 0x8D, 0x05, 0x00, 0x00, 0x00, 0x00] +
                      [0x4C, 0x89, 0x60, 0x00] + [0x4C, 0x89, 0x70, 0x08] + [0x4C, 0x89, 0x78, 0x10] +
                      [0x31, 0xC0] + [0xC3]
    ensures !nv ==>
              code == [0x48, 0x89, 0x29] + [0x48, 0x89, 0x59, 0x08] + [0x48, 0x89, 0x79, 0x10] +
                      [0x48, 0x89, 0x71, 0x18] + [0x48, 0x8D, 0x44, 0x24, 0x08] +
                      [0x48, 0x89, 0x41, 0x20] + [0x48, 0x8B, 0x04, 0x24] + [0x48, 0x89, 0x41, 0x28] +
                      [0x65, 0x48, 0x8B, 0x04, 0x25, 0x00, 0x00, 0x00, 0x00] + [0x48, 0x89, 0x41, 0x30] +
                      [0xC7, 0x41, 0x38, 0x00, 0x00, 0x00, 0x00] + [0x31, 0xC0] + [0xC3]
    ensures Listed(code, Setjmp(nv, 0))
    ensures if nv then FirstLea(code, SETJMP_LEA) else NoLea(code)
  {
    hide Decode, Listed, Tiled, NoLea, FirstLea;
    SetjmpTiled(nv, 0);
    ClearSlotBytes();
    ClearBytes();
    ShortBytes();
    code := SetjmpRegisters(nv);
    code := SetjmpContext(code, nv);
    if nv {
      code := SetjmpSpill(code);
    } else {
      code := Emit(code, 45, [0xC7, 0x41, 0x38, 0x00, 0x00, 0x00, 0x00], Setjmp(nv, 0));
    }
    code := Emit(code, |code|, [0x31, 0xC0], Setjmp(nv, 0));
    code := Emit(code, |code|, [0xC3], Setjmp(nv, 0));
  }

  lemma LongjmpTiled(nv: bool, shared: int, trap: int, keep: int)
    ensures Tiled(Longjmp(nv, shared, trap, keep))
  {
    forall a: nat, b: nat | At(Longjmp(nv, shared, trap, keep), a).Some?
        && At(Longjmp(nv, shared, trap, keep), b).Some? && a < b
      ensures a + At(Longjmp(nv, shared, trap, keep), a).value.len <= b
    {
      if a < 12 {
      } else if a < 39 {
      } else {
      }
    }
  }

  method LongjmpRegisters(nv: bool) returns (code: seq<byte>)
    ensures |code| == 16 && Listed(code, Longjmp(nv, 0, 0, 0)) && NoLea(code)
    ensures code == [0x52] + [0x48, 0x8B, 0x29] + [0x48, 0x8B, 0x59, 0x08] + [0x48, 0x8B, 0x79, 0x10] +
                    [0x48, 0x8B, 0x71, 0x18]
  {
    hide Decode, Listed, Tiled, EncodeAccess, NoLea, FirstLea;
    LoadBytes();
    ghost var f := Longjmp(nv, 0, 0, 0);
    LongjmpTiled(nv, 0, 0, 0);
    ShortBytes();
    NothingListed(f);
    code := [];
    code := Emit(code, 0, [0x52], f);
    code := Access(code, 1, LOAD, RBP, JB_RBP, f);
    code := Access(code, 4, LOAD, RBX, JB_RBX, f);
    code := Access(code, 8, LOAD, RDI, JB_RDI, f);
    code := Access(code, 12, LOAD, RSI, JB_RSI, f);
  }

  method LongjmpFill(head: seq<byte>) returns (code: seq<byte>)
    requires |head| == 16 && Listed(head, Longjmp(true, 0, 0, 0)) && NoLea(head)
    ensures |code| == 39 && Listed(code, Longjmp(true, 0, 0, 0)) && FirstLea(code, LONGJMP_LEA)
    ensures code == head +
                    [0x4C, 0x8B, 0x69, 0x38] + [0x48, 0x8D, 0x05, 0x00, 0x00, 0x00, 0x00] +
                    [0x4C, 0x8B, 0x60, 0x00] + [0x4C, 0x8B, 0x70, 0x08] + [0x4C, 0x8B, 0x78, 0x10]
  {
    hide Pack32, Unpack32, Decode, Listed, Tiled, NoLea, FirstLea;
    ghost var f := Longjmp(true, 0, 0, 0);
    LongjmpTiled(true, 0, 0, 0);
    AlignBytes();
    LeaZeroBytes();
    FillBytes();
    code := Emit(head, 16, [0x4C, 0x8B, 0x69, 0x38], f);
    code := Emit(code, 20, [0x48, 0x8D, 0x05, 0x00, 0x00, 0x00, 0x00], f);
    code := Emit(code, 27, [0x4C, 0x8B, 0x60, 0x00], f);
    code := Emit(code, 31, [0x4C, 0x8B, 0x70, 0x08], f);
    code := Emit(code, 35, [0x4C, 0x8B, 0x78, 0x10], f);
  }

  /** The return address and the chain head. */
  method LongjmpHeads(head: seq<byte>, nv: bool) returns (code: seq<byte>)
    requires |head| == (if nv then 39 else 16) && Listed(head, Longjmp(nv, 0, 0, 0))
    ensures |code| == |head| + 17 && Listed(code, Longjmp(nv, 0, 0, 0))
    ensures code == head +
                    [0x4C, 0x8B, 0x51, 0x28] + [0x48, 0x8B, 0x41, 0x30] +
                    [0x65, 0x48, 0x89, 0x04, 0x25, 0x00, 0x00, 0x00, 0x00]
    ensures FirstLea(head, LONGJMP_LEA) ==> FirstLea(code, LONGJMP_LEA)
  {
    hide Decode, Listed, Tiled, EncodeAccess, NoLea, FirstLea;
    LoadBytes();
    ghost var f, base := Longjmp(nv, 0, 0, 0), |head|;
    LongjmpTiled(nv, 0, 0, 0);
    GsRaxBytes();
    code := Access(head, base, LOAD, R10, JB_RIP, f);
    code := Access(code, base + 4, LOAD, RAX, JB_SEH, f);
    code := Emit(code, base + 8, [0x65, 0x48, 0x89, 0x04, 0x25, 0x00, 0x00, 0x00, 0x00], f);
  }

  /** Up to the trap for an uninitialised buffer, with the branch around it linked. */
  method LongjmpGuard(head: seq<byte>, nv: bool) returns (code: seq<byte>)
    requires |head| == (if nv then 39 else 16) && Listed(head, Longjmp(nv, 0, 0, 0))
    ensures |code| == |head| + 23 && Listed(code, Longjmp(nv, 0, 1, 0))
    ensures code == head +
                    [0x4C, 0x8B, 0x51, 0x28] + [0x48, 0x8B, 0x41, 0x30] +
                    [0x65, 0x48, 0x89, 0x04, 0x25, 0x00, 0x00, 0x00, 0x00] + [0x4D, 0x85, 0xD2] +
                    [0x75, 0x01] + [0xCC]
    ensures FirstLea(head, LONGJMP_LEA) ==> FirstLea(code, LONGJMP_LEA)
  {
    hide Decode, Listed, Tiled, NoLea, FirstLea;
    ghost var f, base := Longjmp(nv, 0, 0, 0), |head|;
    LongjmpTiled(nv, 0, 0, 0);
    LongjmpTiled(nv, 0, 1, 0);
    TestBytes();
    BranchBytes(0);
    ShortBytes();
    code := LongjmpHeads(head, nv);
    code := Emit(code, base + 17, [0x4D, 0x85, 0xD2], f);
    ghost var before := code;
    var jnz := |code|;
    code := Emit(code, base + 20, [0x75, 0x00], f);
    code := Emit(code, base + 22, [0xCC], f);
    var target := |code|;
    code := Link(code, jnz, target - (jnz + 2), f, Longjmp(nv, 0, 1, 0));
    DistanceWritten(before, 0x75, 0x01);
    WrittenBefore(before + [0x75, 0x00], [0xCC], jnz + 1, 0x01);
  }

  /** The value setjmp is to return, 1 in place of 0. */
  method LongjmpValue(head: seq<byte>, nv: bool) returns (code: seq<byte>)
    requires |head| == (if nv then 62 else 39) && Listed(head, Longjmp(nv, 0, 1, 0))
    ensures |code| == |head| + 10 && Listed(code, Longjmp(nv, 0, 1, 5))
    ensures code == head +
                    [0x58] + [0x85, 0xC0] + [0x75, 0x05] + [0xB8, 0x01, 0x00, 0x00, 0x00]
    ensures FirstLea(head, LONGJMP_LEA) ==> FirstLea(code, LONGJMP_LEA)
  {
    hide Decode, Listed, Tiled, NoLea, FirstLea;
    ghost var f, base := Longjmp(nv, 0, 1, 0), |head|;
    LongjmpTiled(nv, 0, 1, 0);
    LongjmpTiled(nv, 0, 1, 5);
    TestBytes();
    OneBytes();
    BranchBytes(0);
    ShortBytes();
    code := Emit(head, base, [0x58], f);
    code := Emit(code, base + 1, [0x85, 0xC0], f);
    ghost var before := code;
    var jnz := |code|;
    code := Emit(code, base + 3, [0x75, 0x00], f);
    code := Emit(code, base + 5, [0xB8, 0x01, 0x00, 0x00, 0x00], f);
    var target := |code|;
    code := Link(code, jnz, target - (jnz + 2), f, Longjmp(nv, 0, 1, 5));
    DistanceWritten(before, 0x75, 0x05);
    WrittenBefore(before + [0x75, 0x00], [0xB8, 0x01, 0x00, 0x00, 0x00], jnz + 1, 0x05);
  }

  method LongjmpLeave(head: seq<byte>, nv: bool) returns (code: seq<byte>)
    requires |head| == (if nv then 72 else 49) && Listed(head, Longjmp(nv, 0, 1, 5))
    ensures |code| == |head| + 10 && Listed(code, Longjmp(nv, 0, 1, 5))
    ensures code == head +
                    [0x48, 0x63, 0xC0] + [0x48, 0x8B, 0x61, 0x20] + [0x41, 0x52] + [0xC3]
    ensures FirstLea(head, LONGJMP_LEA) ==> FirstLea(code, LONGJMP_LEA)
  {
    hide Decode, Listed, Tiled, EncodeAccess, NoLea, FirstLea;
    LoadBytes();
    ghost var f, base := Longjmp(nv, 0, 1, 5), |head|;
    LongjmpTiled(nv, 0, 1, 5);
    ExtendBytes();
    ShortBytes();
    code := Emit(head, base, [0x48, 0x63, 0xC0], f);
    code := Access(code, base + 3, LOAD, RSP, JB_RSP, f);
    code := Emit(code, base + 7, [0x41, 0x52], f);
    code := Emit(code, base + 9, [0xC3], f);
  }

  /** `longjmp`: both forward branches are emitted with distance 0 and linked once their target is known. */
  method BuildLongjmp(nv: bool) returns (code: seq<byte>)
    ensures |code| == if nv then 82 else 59
    ensures nv ==>
              code == [0x52] + [0x48, 0x8B, 0x29] + [0x48, 0x8B, 0x59, 0x08] + [0x48, 0x8B, 0x79, 0x10] +
                      [0x48, 0x8B, 0x71, 0x18] + [0x4C, 0x8B, 0x69, 0x38] +
                      [0x48, 0x8D, 0x05, 0x00, 0x00, 0x00, 0x00] + [0x4C, 0x8B, 0x60, 0x00] +
                      [0x4C, 0x8B, 0x70, 0x08] + [0x4C, 0x8B, 0x78, 0x10] + [0x4C, 0x8B, 0x51, 0x28] +
                      [0x48, 0x8B, 0x41, 0x30] + [0x65, 0x48, 0x89, 0x04, 0x25, 0x00, 0x00, 0x00, 0x00] +
                      [0x4D, 0x85, 0xD2] + [0x75, 0x01] + [0xCC] + [0x58] + [0x85, 0xC0] + [0x75, 0x05] +
                      [0xB8, 0x01, 0x00, 0x00, 0x00] + [0x48, 0x63, 0xC0] + [0x48, 0x8B, 0x61, 0x20] +
                      [0x41, 0x52] + [0xC3]
    ensures !nv ==>
              code == [0x52] + [0x48, 0x8B, 0x29] + [0x48, 0x8B, 0x59, 0x08] + [0x48, 0x8B, 0x79, 0x10] +
                      [0x48, 0x8B, 0x71, 0x18] + [0x4C, 0x8B, 0x51, 0x28] + [0x48, 0x8B, 0x41, 0x30] +
                      [0x65, 0x48, 0x89, 0x04, 0x25, 0x00, 0x00, 0x00, 0x00] + [0x4D, 0x85, 0xD2] +
                      [0x75, 0x01] + [0xCC] + [0x58] + [0x85, 0xC0] + [0x75, 0x05] +
                      [0xB8, 0x01, 0x00, 0x00, 0x00] + [0x48, 0x63, 0xC0] + [0x48, 0x8B, 0x61, 0x20] +
                      [0x41, 0x52] + [0xC3]
    ensures Listed(code, Longjmp(nv, 0, 1, 5))
    ensures nv ==> FirstLea(code, LONGJMP_LEA)
  {
    hide Decode, Listed, Tiled, NoLea, FirstLea;
    code := LongjmpRegisters(nv);
    if nv {
      code := LongjmpFill(code);
    }
    code := LongjmpGuard(code, nv);
    code := LongjmpValue(code, nv);
    code := LongjmpLeave(code, nv);
  }

  lemma UnwindTiled(found: int, ended: int, back: int)
    ensures Tiled(Unwind(found, ended, back))
  {
    forall a: nat, b: nat | At(Unwind(found, ended, back), a).Some? && At(Unwind(found, ended, back), b).Some? && a < b
      ensures a + At(Unwind(found, ended, back), a).value.len <= b
    {
      if a < 18 {
      } else {
      }
    }
  }

  method UnwindHead() returns (code: seq<byte>, top: nat, je: nat, je2: nat)
    ensures |code| == 24 && top == 13 && je == 16 && je2 == 22 && Listed(code, Unwind(0, 0, 0))
    ensures code == [0x48, 0x8B, 0x41, 0x30] + [0x65, 0x4C, 0x8B, 0x04, 0x25, 0x00, 0x00, 0x00, 0x00] +
                    [0x49, 0x39, 0xC0] + [0x74, 0x00] + [0x49, 0x83, 0xF8, 0xFF] + [0x74, 0x00]
  {
    hide Decode, Listed, Tiled, EncodeAccess, NoLea, FirstLea;
    LoadBytes();
    ghost var f := Unwind(0, 0, 0);
    UnwindTiled(0, 0, 0);
    NothingListed(f);
    GsR8Bytes();
    ChainBytes();
    BranchBytes(0);
    code := [];
    code := Access(code, 0, LOAD, RAX, JB_SEH, f);
    code := Emit(code, 4, [0x65, 0x4C, 0x8B, 0x04, 0x25, 0x00, 0x00, 0x00, 0x00], f);
    top := |code|;
    code := Emit(code, 13, [0x49, 0x39, 0xC0], f);
    je := |code|;
    code := Emit(code, 16, [0x74, 0x00], f);
    code := Emit(code, 18, [0x49, 0x83, 0xF8, 0xFF], f);
    je2 := |code|;
    code := Emit(code, 22, [0x74, 0x00], f);
  }

  method UnwindBack(head: seq<byte>, top: nat) returns (code: seq<byte>)
    requires |head| == 24 && top == 13 && Listed(head, Unwind(0, 0, 0))
    ensures |code| == 38 && Listed(code, Unwind(0, 0, -25))
    ensures code == head +
                    [0x4D, 0x8B, 0x00] + [0x65, 0x4C, 0x89, 0x04, 0x25, 0x00, 0x00, 0x00, 0x00] +
                    [0xEB, 0xE7]
  {
    hide Decode, Listed, Tiled;
    ghost var f := Unwind(0, 0, 0);
    UnwindTiled(0, 0, 0);
    UnwindTiled(0, 0, -25);
    GsR8Bytes();
    FollowBytes();
    BranchBytes(0);
    code := Emit(head, 24, [0x4D, 0x8B, 0x00], f);
    code := Emit(code, 27, [0x65, 0x4C, 0x89, 0x04, 0x25, 0x00, 0x00, 0x00, 0x00], f);
    ghost var before := code;
    var jmp := |code|;
    code := Emit(code, 36, [0xEB, 0x00], f);
    code := Link(code, jmp, (top - (jmp + 2)) % 0x100, f, Unwind(0, 0, -25));
    DistanceWritten(before, 0xEB, 0xE7);
  }

  /** The two forward distances of the unwinder. */
  lemma ForwardsWritten(a: seq<byte>, b: seq<byte>, c: seq<byte>, d: seq<byte>, e: seq<byte>)
    requires |a| == 16 && |b| == 4
    ensures var blank := a + [0x74, 0x00] + b + [0x74, 0x00] + c + d + e;
            blank[17 := 0x14][23 := 0x0E] == a + [0x74, 0x14] + b + [0x74, 0x0E] + c + d + e
  {
    DistanceWritten(a, 0x74, 0x14);
    var near := a + [0x74, 0x00] + b;
    WrittenBefore(a + [0x74, 0x00], b, 17, 0x14);
    WrittenBefore(near, [0x74, 0x00], 17, 0x14);
    DistanceWritten(near[17 := 0x14], 0x74, 0x0E);
    WrittenBefore(near + [0x74, 0x00], c, 17, 0x14);
    WrittenBefore((near + [0x74, 0x00])[17 := 0x14], c, 23, 0x0E);
    WrittenBefore(near + [0x74, 0x00] + c, d, 17, 0x14);
    WrittenBefore((near + [0x74, 0x00] + c)[17 := 0x14], d, 23, 0x0E);
    WrittenBefore(near + [0x74, 0x00] + c + d, e, 17, 0x14);
    WrittenBefore((near + [0x74, 0x00] + c + d)[17 := 0x14], e, 23, 0x0E);
  }

  /** The chain unwinder: the backward branch is linked modulo 256, the two forward ones at the end. */
  method BuildUnwind() returns (code: seq<byte>)
    ensures |code| == 39 && Listed(code, Unwind(20, 14, -25))
    ensures code == [0x48, 0x8B, 0x41, 0x30] + [0x65, 0x4C, 0x8B, 0x04, 0x25, 0x00, 0x00, 0x00, 0x00] +
                    [0x49, 0x39, 0xC0] + [0x74, 0x14] + [0x49, 0x83, 0xF8, 0xFF] + [0x74, 0x0E] +
                    [0x4D, 0x8B, 0x00] + [0x65, 0x4C, 0x89, 0x04, 0x25, 0x00, 0x00, 0x00, 0x00] +
                    [0xEB, 0xE7] + [0xC3]
  {
    hide Decode, Listed, Tiled;
    var top, je, je2;
    code, top, je, je2 := UnwindHead();
    code := UnwindBack(code, top);
    var done := |code|;
    UnwindTiled(20, 0, -25);
    UnwindTiled(20, 14, -25);
    ShortBytes();
    code := Link(code, je, done - (je + 2), Unwind(0, 0, -25), Unwind(20, 0, -25));
    code := Link(code, je2, done - (je2 + 2), Unwind(20, 0, -25), Unwind(20, 14, -25));
    ForwardsWritten([0x48, 0x8B, 0x41, 0x30] + [0x65, 0x4C, 0x8B, 0x04, 0x25, 0x00, 0x00, 0x00, 0x00] +
                    [0x49, 0x39, 0xC0],
                    [0x49, 0x83, 0xF8, 0xFF], [0x4D, 0x8B, 0x00],
                    [0x65, 0x4C, 0x89, 0x04, 0x25, 0x00, 0x00, 0x00, 0x00], [0xEB, 0xE7]);
    code := Emit(code, 38, [0xC3], Unwind(20, 14, -25));
  }

  datatype PatchResult = Patched | NotFound | DoesNotFit

  /** Distance from the end of the lea at offset i of a function to the shared save area. */
  function SharedDistance(i: nat, fnOff: int, nvRva: int, textRva: int): int { nvRva - (textRva + fnOff + i + 7) }

  /**
   Patching the first lea of a stub, if it lies within reach: only its four displacement bytes change, and
   they make it address the save area from wherever the function is placed.
   */
  method PatchNvSaveLea(blob: array<byte>, fnOff: int, nvRva: int, textRva: int) returns (r: PatchResult)
    modifies blob
    ensures r == NotFound <==>
              forall i: nat :: i < 120 && i + 7 < blob.Length ==> !LeaAt(old(blob[..]), i)
    ensures r == NotFound ==> blob[..] == old(blob[..])
    ensures r != NotFound ==>
      exists i: nat :: FirstLea(old(blob[..]), i) && i < 120 && i + 7 < blob.Length
        && var d := SharedDistance(i, fnOff, nvRva, textRva);
           if -0x8000_0000 <= d < 0x8000_0000 then
             r == Patched && blob[..] == old(blob[..i + 3]) + Pack32(d % 0x1_0000_0000) + old(blob[i + 7..])
           else r == DoesNotFit && blob[..] == old(blob[..])
  {
    var reach := if blob.Length - 7 < 120 then blob.Length - 7 else 120;
    var i := 0;
    while i < reach
      invariant 0 <= i && forall j: nat :: j < i ==> !LeaAt(blob[..], j)
      invariant blob[..] == old(blob[..])
    {
      if blob[i] == 0x48 && blob[i + 1] == 0x8D && blob[i + 2] == 0x05 {
        var d := SharedDistance(i, fnOff, nvRva, textRva);
        assert FirstLea(blob[..], i);
        if !(-0x8000_0000 <= d < 0x8000_0000) {
          return DoesNotFit;
        }
        var four := Pack32(d % 0x1_0000_0000);
        blob[i + 3], blob[i + 4], blob[i + 5], blob[i + 6] := four[0], four[1], four[2], four[3];
        return Patched;
      }
      i := i + 1;
    }
    r := NotFound;
  }

  lemma SameElsewhere(code: seq<byte>, at: nat, four: seq<byte>, off: nat, n: nat)
    requires |four| == 4 && at + 7 <= |code| && off <= |code| && (off + n <= at || at + 7 <= off)
    ensures off + n <= |code| ==> Front(code[off..], (code[..at + 3] + four + code[at + 7..])[off..], n)
  { }

  /** Overwriting the displacement of the lea at offset `at` turns listing f into g. */
  lemma Relink(code: seq<byte>, at: nat, d: s32, f: Stub, g: Stub)
    requires Listed(code, f) && Tiled(g) && LeaAt(code, at) && at + 7 <= |code|
    requires forall off: nat :: off != at ==> At(f, off) == At(g, off)
    requires At(g, at) == Entry(Lea(Qword, RAX, Rip(d)), 7)
    ensures Listed(code[..at + 3] + Pack32(d % 0x1_0000_0000) + code[at + 7..], g)
  {
    hide Decode, Pack32, At;
    var four := Pack32(d % 0x1_0000_0000);
    var linked := code[..at + 3] + four + code[at + 7..];
    LeaRipBytes(d);
    forall off: nat | off < |linked| && At(g, off).Some? ensures Decode(linked[off..]) == At(g, off) {
      if off == at {
        assert linked[off..][..7] == [0x48, 0x8D, 0x05] + four;
        DecodeLocal([0x48, 0x8D, 0x05] + four, linked[off..]);
      } else {
        assert At(g, at).Some? && Decode(code[off..]) == At(g, off);
        assert if off < at then off + At(g, off).value.len <= at else at + 7 <= off;
        hide Listed, Tiled;
        SameElsewhere(code, at, four, off, At(g, off).value.len);
        DecodeLocal(code[off..], linked[off..]);
      }
    }
  }

  /** What patching makes of the two stubs, for any distance that fits. */
  lemma PatchedStubs(setjmp: seq<byte>, longjmp: seq<byte>, d: s32, e: s32)
    requires Listed(setjmp, Setjmp(true, 0)) && FirstLea(setjmp, SETJMP_LEA) && |setjmp| >= 71
    requires Listed(longjmp, Longjmp(true, 0, 1, 5)) && FirstLea(longjmp, LONGJMP_LEA) && |longjmp| >= 82
    ensures Listed(setjmp[..SETJMP_LEA + 3] + Pack32(d % 0x1_0000_0000) + setjmp[SETJMP_LEA + 7..], Setjmp(true, d))
    ensures Listed(longjmp[..LONGJMP_LEA + 3] + Pack32(e % 0x1_0000_0000) + longjmp[LONGJMP_LEA + 7..],
                   Longjmp(true, e, 1, 5))
  {
    hide Decode, Listed, Tiled, Pack32;
    SetjmpTiled(true, d);
    LongjmpTiled(true, e, 1, 5);
    Relink(setjmp, SETJMP_LEA, d, Setjmp(true, 0), Setjmp(true, d));
    Relink(longjmp, LONGJMP_LEA, e, Longjmp(true, 0, 1, 5), Longjmp(true, e, 1, 5));
  }

  /** Every branch of a finished stub lands on one of its instructions. */
  lemma BranchesLand(f: Stub, off: nat)
    requires f == Unwind(20, 14, -25) || (f.Longjmp? && f.trap == 1 && f.keep == 5)
    requires At(f, off).Some? && (At(f, off).value.instr.Jcc? || At(f, off).value.instr.Jmp?)
    ensures var target := off + At(f, off).value.len + At(f, off).value.instr.rel;
            target >= 0 && At(f, target).Some?
  {
    if f.Longjmp? && f.nv { assert off in {59, 65}; }
  }

  /** The processor fetches what the bytes decode to; bytes that decode to nothing trap. */
  function Program(text: seq<byte>): Code {
    (pc: int) =>
      if 0 <= pc <= |text| && Decode(text[pc..]).Some? then
        Fetch(Decode(text[pc..]).value.instr, pc + Decode(text[pc..]).value.len)
      else Fetch(Int3, pc + 1)
  }

  ghost predicate Runs(code: Code, f: Stub, size: nat) {
    forall off: nat :: off < size && At(f, off).Some? ==>
      code(off) == Fetch(At(f, off).value.instr, off + At(f, off).value.len)
  }

  lemma ListedRuns(text: seq<byte>, f: Stub)
    requires Listed(text, f)
    ensures Runs(Program(text), f, |text|)
  {
    hide Decode, At;
  }

  /** Whatever follows a stub in the text, such as padding, does not change what it is. */
  lemma Padded(code: seq<byte>, rest: seq<byte>, f: Stub, m: nat)
    requires Listed(code, f) && forall off: nat :: off >= |code| ==> At(f, off) == None
    ensures Listed(code + rest, f) && (FirstLea(code, m) ==> FirstLea(code + rest, m))
  {
    hide Decode, At;
    forall off: nat | off < |code + rest| && At(f, off).Some? ensures Decode((code + rest)[off..]) == At(f, off) {
      DecodeLocal(code[off..], (code + rest)[off..]);
    }
    if FirstLea(code, m) {
      forall i: nat | i < m ensures !LeaAt(code + rest, i) { assert !LeaAt(code, i); }
    }
  }
}
