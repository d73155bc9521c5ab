/**
 The encodings of the stubs' instructions, after sections 2.1.3, 2.1.5 and 2.2.1 of the Intel SDM Vol. 2A: a
 decoder for them, and the two encoders the stubs are built with.
 */
module Codec {
  import opened Wrappers
  import opened Words
  import opened Bytes
  import opened Machine

  datatype Decoded = Decoded(instr: Instr, len: nat)

  function Number(r: Reg): (n: nat)
    ensures n < 16
  {
    match r
    case RAX => 0 case RCX => 1 case RDX => 2 case RBX => 3
    case RSP => 4 case RBP => 5 case RSI => 6 case RDI => 7
    case R8 => 8 case R9 => 9 case R10 => 10 case R11 => 11
    case R12 => 12 case R13 => 13 case R14 => 14 case R15 => 15
  }

  function Register(n: nat): Reg
    requires n < 16
  {
    match n
    case 0 => RAX case 1 => RCX case 2 => RDX case 3 => RBX
    case 4 => RSP case 5 => RBP case 6 => RSI case 7 => RDI
    case 8 => R8 case 9 => R9 case 10 => R10 case 11 => R11
    case 12 => R12 case 13 => R13 case 14 => R14 case _ => R15
  }

  // Little-endian immediates.

  function Signed8(b: byte): int { if b < 0x80 then b else b - 0x100 }

  function Pack32(v: u32): (bs: seq<byte>)
    ensures |bs| == 4
  {
    Pack(v, 4)
  }

  function Unpack32(bs: seq<byte>, at: nat): (v: u32)
    requires at + 4 <= |bs|
    ensures v == bs[at] as int + 0x100 * (bs[at + 1] as int) + 0x1_0000 * (bs[at + 2] as int) +
            0x100_0000 * (bs[at + 3] as int)
  {
    FourBytes(bs[at..at + 4]);
    Unpack(bs[at..at + 4])
  }

  // Decoding.

  /** The prefixes in front of an opcode, and where the opcode is. */
  datatype Prefix = Prefix(gs: bool, wide: bool, r: nat, x: nat, b: nat, at: nat)

  function ReadPrefix(bs: seq<byte>): (p: Prefix)
    ensures p.r < 2 && p.x < 2 && p.b < 2 && p.at <= 2
  {
    var gs := |bs| > 0 && bs[0] == 0x65;
    var at := if gs then 1 else 0;
    if at < |bs| && 0x40 <= bs[at] < 0x50 then
      var rex := bs[at];
      Prefix(gs, rex / 8 % 2 == 1, rex / 4 % 2, rex / 2 % 2, rex % 2, at + 1)
    else
      Prefix(gs, false, 0, 0, 0, at)
  }

  /** A ModRM operand pair: the register field, the other operand, and the bytes used. */
  datatype ModRm = ModRm(reg: nat, rm: Operand, len: nat)

  /** A displacement and the bytes it takes. */
  datatype Disp = Disp(value: int, size: nat)

  function Displacement(bs: seq<byte>, at: nat, mod: nat): Option<Disp> {
    if mod == 0 then Some(Disp(0, 0))
    else if mod == 1 then if at < |bs| then Some(Disp(Signed8(bs[at]), 1)) else None
    else if at + 4 <= |bs| then Some(Disp(Signed32(Unpack32(bs, at)), 4)) else None
  }

  function Based(p: Prefix, bs: seq<byte>, at: nat, mod: nat, reg: nat, base: nat, used: nat): Option<ModRm>
    requires base < 16
  {
    match Displacement(bs, at, mod)
    case None => None
    case Some(d) => if p.gs then None else Some(ModRm(reg, M(Register(base), d.value), used + d.size))
  }

  /** The form with a SIB byte. An absolute address only occurs under the gs prefix here. */
  function ReadSib(p: Prefix, bs: seq<byte>, at: nat, mod: nat, reg: nat): Option<ModRm>
    requires p.x < 2 && p.b < 2
  {
    if at + 1 >= |bs| then None else
    var sib := bs[at + 1];
    var index, base := sib / 8 % 8 + 8 * p.x, sib % 8;
    if base == 5 && mod == 0 then
      if at + 6 > |bs| || !p.gs || sib >= 64 then None
      else if index == 4 then Some(ModRm(reg, Gs(Signed32(Unpack32(bs, at + 2))), 6))
      else Some(ModRm(reg, GsIndex(Register(index), Signed32(Unpack32(bs, at + 2))), 6))
    else if index == 4 then Based(p, bs, at + 2, mod, reg, base + 8 * p.b, 2)
    else None
  }

  function ReadModRm(p: Prefix, bs: seq<byte>, at: nat): Option<ModRm>
    requires p.r < 2 && p.x < 2 && p.b < 2
  {
    if at >= |bs| then None else
    var mod, reg, rm := bs[at] / 64, bs[at] / 8 % 8 + 8 * p.r, bs[at] % 8;
    if mod == 3 then Some(ModRm(reg, R(Register(rm + 8 * p.b)), 1))
    else if rm == 4 then ReadSib(p, bs, at, mod, reg)
    else if rm == 5 && mod == 0 then
      if at + 5 > |bs| then None
      else
        var d := Signed32(Unpack32(bs, at + 1));
        Some(ModRm(reg, if p.gs then GsRip(d) else Rip(d), 5))
    else Based(p, bs, at + 1, mod, reg, rm + 8 * p.b, 1)
  }

  /** Opcodes with a ModRM operand pair and nothing after it. */
  function PairInstr(op: byte, w: Width, reg: Reg, rm: Operand): Option<Instr> {
    match op
    case 0x89 => Some(Mov(w, rm, R(reg)))
    case 0x8B => Some(Mov(w, R(reg), rm))
    case 0x8D => Some(Lea(w, reg, rm))
    case 0x85 => Some(Alu(Test, w, rm, R(reg)))
    case 0x31 => Some(Alu(Xor, w, rm, R(reg)))
    case 0x39 => Some(Alu(Cmp, w, rm, R(reg)))
    case 0x63 => Some(Movsxd(reg, rm))
    case _ => None
  }

  function DecodePair(p: Prefix, bs: seq<byte>, op: byte): Option<Decoded>
    requires p.r < 2 && p.x < 2 && p.b < 2
  {
    match ReadModRm(p, bs, p.at + 1)
    case None => None
    case Some(m) =>
      if m.reg >= 16 then None else
      match PairInstr(op, if p.wide then Qword else Dword, Register(m.reg), m.rm)
      case None => None
      case Some(i) => Some(Decoded(i, p.at + 1 + m.len))
  }

  /** Opcodes with a ModRM operand followed by an immediate. */
  function DecodeGroup(p: Prefix, bs: seq<byte>, op: byte): Option<Decoded>
    requires p.r < 2 && p.x < 2 && p.b < 2
  {
    var w := if p.wide then Qword else Dword;
    match ReadModRm(p, bs, p.at + 1)
    case None => None
    case Some(m) =>
      var at := p.at + 1 + m.len;
      if op == 0x83 then
        if at < |bs| && m.reg % 8 == 7 then Some(Decoded(Alu(Cmp, w, m.rm, I(Signed8(bs[at]))), at + 1)) else None
      else
        if at + 4 <= |bs| && m.reg % 8 == 0 then Some(Decoded(Mov(w, m.rm, I(Signed32(Unpack32(bs, at)))), at + 4))
            else None
  }

  /** One-byte opcodes, register opcodes and short branches. */
  function DecodeShort(p: Prefix, bs: seq<byte>, op: byte): Option<Decoded>
    requires p.b < 2
  {
    var at := p.at + 1;
    if 0x50 <= op < 0x58 then Some(Decoded(Push(Register(op - 0x50 + 8 * p.b)), at))
    else if 0x58 <= op < 0x60 then Some(Decoded(Pop(Register(op - 0x58 + 8 * p.b)), at))
    else if 0xB8 <= op < 0xC0 then
      if at + 4 <= |bs| && !p.wide then
        Some(Decoded(Mov(Dword, R(Register(op - 0xB8 + 8 * p.b)), I(Unpack32(bs, at))), at + 4))
      else None
    else if op == 0xC3 then Some(Decoded(Ret, at))
    else if op == 0xCC then Some(Decoded(Int3, at))
    else if at < |bs| && op == 0x74 then Some(Decoded(Jcc(E, Signed8(bs[at])), at + 1))
    else if at < |bs| && op == 0x75 then Some(Decoded(Jcc(NE, Signed8(bs[at])), at + 1))
    else if at < |bs| && op == 0xEB then Some(Decoded(Jmp(Signed8(bs[at])), at + 1))
    else None
  }

  predicate IsPair(op: byte) { op in {0x89, 0x8B, 0x8D, 0x85, 0x31, 0x39, 0x63} }

  predicate IsGroup(op: byte) { op in {0x83, 0xC7} }

  /** The instruction at the front of the bytes. */
  function Decode(bs: seq<byte>): Option<Decoded> {
    var p := ReadPrefix(bs);
    if p.at >= |bs| then None
    else if IsPair(bs[p.at]) then DecodePair(p, bs, bs[p.at])
    else if IsGroup(bs[p.at]) then DecodeGroup(p, bs, bs[p.at])
    else DecodeShort(p, bs, bs[p.at])
  }

  // The decoder looks at no more bytes than it uses: what follows them does not matter.

  ghost predicate Front(bs: seq<byte>, cs: seq<byte>, n: nat) {
    n <= |bs| && n <= |cs| && forall k :: 0 <= k < n ==> bs[k] == cs[k]
  }

  lemma BasedLocal(p: Prefix, bs: seq<byte>, cs: seq<byte>, at: nat, mod: nat, reg: nat, base: nat, used: nat)
    requires base < 16 && used <= at && Based(p, bs, at, mod, reg, base, used).Some?
    ensures var m := Based(p, bs, at, mod, reg, base, used).value;
            && m.reg == reg && m.len >= used && (mod == 0 ==> m.len == used)
            && (mod != 0 ==> at + m.len - used <= |bs|)
            && (Front(bs, cs, at + m.len - used) ==> Based(p, cs, at, mod, reg, base, used) == Some(m))
  { }

  lemma ModRmLocal(p: Prefix, bs: seq<byte>, cs: seq<byte>, at: nat)
    requires p.r < 2 && p.x < 2 && p.b < 2 && ReadModRm(p, bs, at).Some?
    ensures var m := ReadModRm(p, bs, at).value;
            && m.len > 0 && at + m.len <= |bs| && m.reg < 16
            && (Front(bs, cs, at + m.len) ==> ReadModRm(p, cs, at) == Some(m))
  {
    hide Based, Signed32, Register;
    var mod, reg, rm := bs[at] / 64, bs[at] / 8 % 8 + 8 * p.r, bs[at] % 8;
    if mod != 3 && rm != 4 && !(rm == 5 && mod == 0) {
      BasedLocal(p, bs, cs, at + 1, mod, reg, rm + 8 * p.b, 1);
    } else if mod != 3 && rm == 4 {
      var base := bs[at + 1] % 8;
      if !(base == 5 && mod == 0) { BasedLocal(p, bs, cs, at + 2, mod, reg, base + 8 * p.b, 2); }
    }
  }

  lemma PairLocal(p: Prefix, bs: seq<byte>, cs: seq<byte>, op: byte)
    requires p.r < 2 && p.x < 2 && p.b < 2 && DecodePair(p, bs, op).Some?
    ensures var n := DecodePair(p, bs, op).value.len;
            p.at < n <= |bs| && (Front(bs, cs, n) ==> DecodePair(p, cs, op) == DecodePair(p, bs, op))
  {
    hide ReadModRm, Register, PairInstr;
    ModRmLocal(p, bs, cs, p.at + 1);
  }

  lemma GroupLocal(p: Prefix, bs: seq<byte>, cs: seq<byte>, op: byte)
    requires p.r < 2 && p.x < 2 && p.b < 2 && DecodeGroup(p, bs, op).Some?
    ensures var n := DecodeGroup(p, bs, op).value.len;
            p.at < n <= |bs| && (Front(bs, cs, n) ==> DecodeGroup(p, cs, op) == DecodeGroup(p, bs, op))
  {
    hide ReadModRm, Register;
    ModRmLocal(p, bs, cs, p.at + 1);
  }

  lemma ShortLocal(p: Prefix, bs: seq<byte>, cs: seq<byte>, op: byte)
    requires p.b < 2 && p.at < |bs| && DecodeShort(p, bs, op).Some?
    ensures var n := DecodeShort(p, bs, op).value.len;
            p.at < n <= |bs| && (Front(bs, cs, n) ==> DecodeShort(p, cs, op) == DecodeShort(p, bs, op))
  {
    hide Register;
  }

  lemma PrefixLocal(bs: seq<byte>, cs: seq<byte>)
    requires ReadPrefix(bs).at < |bs| && Front(bs, cs, ReadPrefix(bs).at + 1)
    ensures ReadPrefix(cs) == ReadPrefix(bs)
  { }

  /** An instruction takes at least one byte and no more than there are, and only its own bytes matter. */
  lemma DecodeLocal(bs: seq<byte>, cs: seq<byte>)
    requires Decode(bs).Some?
    ensures var n := Decode(bs).value.len;
            0 < n <= |bs| && (Front(bs, cs, n) ==> Decode(cs) == Decode(bs))
  {
    hide ReadPrefix, DecodePair, DecodeGroup, DecodeShort;
    var p := ReadPrefix(bs);
    var op := bs[p.at];
    if IsPair(op) { PairLocal(p, bs, cs, op); }
    else if IsGroup(op) { GroupLocal(p, bs, cs, op); }
    else { ShortLocal(p, bs, cs, op); }
    if Front(bs, cs, Decode(bs).value.len) { PrefixLocal(bs, cs); }
  }

  // Encoding.

  const STORE: byte := 0x89
  const LOAD: byte := 0x8B

  /** `mov [rcx + disp], reg` or `mov reg, [rcx + disp]`; there is no encoding when disp does not fit 32 bits. */
  function EncodeAccess(op: byte, r: Reg, disp: int): Option<seq<byte>> {
    var rex: byte, id := 0x48 + 4 * (Number(r) / 8), Number(r) % 8;
    if disp == 0 then Some([rex, op, 0x01 + 8 * id])
    else if -0x80 <= disp <= 0x7F then Some([rex, op, 0x41 + 8 * id, disp % 0x100])
    else if -0x8000_0000 <= disp < 0x8000_0000 then Some([rex, op, 0x81 + 8 * id] + Pack32(disp % 0x1_0000_0000))
    else None
  }

  function EncodeStore(r: Reg, disp: int): Option<seq<byte>> { EncodeAccess(STORE, r, disp) }

  function EncodeLoad(r: Reg, disp: int): Option<seq<byte>> { EncodeAccess(LOAD, r, disp) }

  lemma RegisterNumber(r: Reg)
    ensures Register(Number(r)) == r
  { }

  lemma SignedPack(d: s32)
    ensures Signed32(Unpack32(Pack32(d % 0x1_0000_0000), 0)) == d
  {
    var v := d % 0x1_0000_0000;
    Powers();
    UnpackPack(v, 4);
    assert Pack32(v)[0..4] == Pack(v, 4);
  }

  lemma UnpackAt(bs: seq<byte>, at: nat, four: seq<byte>)
    requires |four| == 4 && at + 4 <= |bs| && bs[at..at + 4] == four
    ensures Unpack32(bs, at) == Unpack32(four, 0)
  {
    var here := bs[at..at + 4];
    assert here[0] == bs[at] && here[1] == bs[at + 1] && here[2] == bs[at + 2] && here[3] == bs[at + 3];
  }

  lemma WideModRm(op: byte, r: Reg, disp: s32, tail: seq<byte>)
    requires disp < -0x80 || 0x7F < disp
    ensures EncodeAccess(op, r, disp).Some?
    ensures var code := EncodeAccess(op, r, disp).value;
            var p := Prefix(false, true, Number(r) / 8, 0, 0, 1);
            && |code| >= 3 && ReadPrefix(code + tail) == p && code[1] == op
            && ReadModRm(p, code + tail, 2) == Some(ModRm(Number(r), M(RCX, disp), |code| - 2))
  {
    hide Number, Pack32, Unpack32;
    var bs := EncodeAccess(op, r, disp).value + tail;
    assert Register(1) == RCX && bs[2] == 0x81 + 8 * (Number(r) % 8);
    SignedPack(disp);
    UnpackAt(bs, 3, Pack32(disp % 0x1_0000_0000));
  }

  /** The ModRM part of an access through rcx reads back as the register and the displacement. */
  lemma AccessModRm(op: byte, r: Reg, disp: s32, tail: seq<byte>)
    ensures EncodeAccess(op, r, disp).Some?
    ensures var code := EncodeAccess(op, r, disp).value;
            var p := Prefix(false, true, Number(r) / 8, 0, 0, 1);
            && |code| >= 3 && ReadPrefix(code + tail) == p && code[1] == op
            && ReadModRm(p, code + tail, 2) == Some(ModRm(Number(r), M(RCX, disp), |code| - 2))
  {
    hide Number, Pack32, Unpack32;
    var code, bs := EncodeAccess(op, r, disp).value, EncodeAccess(op, r, disp).value + tail;
    var id := Number(r) % 8;
    assert Register(1) == RCX;
    if disp == 0 {
      assert bs[2] == 0x01 + 8 * id;
    } else if -0x80 <= disp <= 0x7F {
      assert bs[2] == 0x41 + 8 * id && bs[3] == disp % 0x100;
    } else {
      WideModRm(op, r, disp, tail);
    }
  }

  /**
   Decoding inverts both encoders for every register and every 32-bit displacement, whatever follows;
   and outside that range there is no encoding.
   */
  lemma AccessRoundTrip(r: Reg, disp: int, tail: seq<byte>)
    ensures EncodeStore(r, disp).Some? <==> -0x8000_0000 <= disp < 0x8000_0000
    ensures EncodeLoad(r, disp).Some? <==> -0x8000_0000 <= disp < 0x8000_0000
    ensures EncodeStore(r, disp).Some? ==>
              var code := EncodeStore(r, disp).value;
              Decode(code + tail) == Some(Decoded(Mov(Qword, M(RCX, disp), R(r)), |code|))
    ensures EncodeLoad(r, disp).Some? ==>
              var code := EncodeLoad(r, disp).value;
              Decode(code + tail) == Some(Decoded(Mov(Qword, R(r), M(RCX, disp)), |code|))
  {
    if -0x8000_0000 <= disp < 0x8000_0000 {
      AccessModRm(STORE, r, disp, tail);
      AccessModRm(LOAD, r, disp, tail);
      RegisterNumber(r);
      hide Number, Register, ReadModRm, ReadPrefix;
      var s, l := EncodeStore(r, disp).value, EncodeLoad(r, disp).value;
      assert (s + tail)[1] == STORE && (l + tail)[1] == LOAD;
    }
  }
}
