/**
 One lemma per instruction shape, so that a proof about a stub reads like its listing.
 A `Trace` is a run that began in some state; the lemmas lead from one state the run comes to to the next, and
 say what of the processor has changed. At the end stand the sequences of two or three instructions that the
 listings repeat.
 */
module Stepping {
  import opened Words
  import opened Memory
  import opened Machine

  /** A run of `code` that began in `from`. */
  datatype Trace = Trace(w: World, code: Code, from: Cpu) {
    ghost predicate At(s: Cpu) {
      s.status == Running && Reaches(w, code, from, s)
    }

    /** The run stands at pc, where the instruction is i. */
    ghost predicate Next(s: Cpu, pc: int, i: Instr) {
      At(s) && s.pc == pc && code(pc).instr == i
    }

    function After(pc: int): int { code(pc).next }

    function Ea(s: Cpu, pc: int, o: Operand): u64
      requires Addressable(o)
    {
      Address(w, s.regs, After(pc), o)
    }

    lemma Begin()
      requires from.status == Running
      ensures At(from)
    {
      ReachSelf(w, code, from);
    }

    lemma Advance(s: Cpu, pc: int) returns (t: Cpu)
      requires At(s) && s.pc == pc
      ensures t == Exec(w, code(pc).instr, After(pc), s) && t == Step(w, code, s)
      ensures Reaches(w, code, from, t)
    {
      hide Exec;
      t := Step(w, code, s);
      ReachStep(w, code, from, s);
    }

    lemma DoPush(s: Cpu, pc: int, r: Reg) returns (t: Cpu)
      requires Next(s, pc, Push(r))
      ensures t == Step(w, code, s)
      ensures At(t)
      ensures var sp := Wrap(s.regs.rsp - 8);
              t == s.(mem := Wr64(s.mem, sp, s.regs.Get(r)), regs := s.regs.(rsp := sp), pc := After(pc))
    {
      hide Reaches, Wr64;
      t := Advance(s, pc);
    }

    lemma DoPop(s: Cpu, pc: int, r: Reg) returns (t: Cpu)
      requires Next(s, pc, Pop(r))
      ensures t == Step(w, code, s)
      ensures At(t)
      ensures t == s.(regs := s.regs.(rsp := Wrap(s.regs.rsp + 8)).Set(r, Rd64(s.mem, s.regs.rsp)),
                      pc := After(pc))
    {
      hide Reaches, Rd64;
      t := Advance(s, pc);
    }

    lemma DoMove(s: Cpu, pc: int, d: Reg, r: Reg) returns (t: Cpu)
      requires Next(s, pc, Mov(Qword, R(d), R(r)))
      ensures t == Step(w, code, s)
      ensures At(t)
      ensures t == s.(regs := s.regs.Set(d, s.regs.Get(r)), pc := After(pc))
    {
      hide Reaches;
      t := Advance(s, pc);
    }

    lemma DoImmediate(s: Cpu, pc: int, wd: Width, d: Reg, v: int) returns (t: Cpu)
      requires Next(s, pc, Mov(wd, R(d), I(v)))
      ensures t == Step(w, code, s)
      ensures At(t)
      ensures t == s.(regs := s.regs.Set(d, Trunc(wd, v)), pc := After(pc))
    {
      hide Reaches;
      t := Advance(s, pc);
    }

    lemma DoLoad(s: Cpu, pc: int, d: Reg, o: Operand) returns (t: Cpu)
      requires Addressable(o) && Next(s, pc, Mov(Qword, R(d), o))
      ensures t == Step(w, code, s)
      ensures At(t)
      ensures t == s.(regs := s.regs.Set(d, Rd64(s.mem, Ea(s, pc, o))), pc := After(pc))
    {
      hide Reaches, Rd64;
      t := Advance(s, pc);
    }

    lemma DoLoad32(s: Cpu, pc: int, d: Reg, o: Operand) returns (t: Cpu)
      requires Addressable(o) && Next(s, pc, Mov(Dword, R(d), o))
      ensures t == Step(w, code, s)
      ensures At(t)
      ensures t == s.(regs := s.regs.Set(d, Rd32(s.mem, Ea(s, pc, o))), pc := After(pc))
    {
      hide Reaches, Rd32;
      t := Advance(s, pc);
    }

    lemma DoStore(s: Cpu, pc: int, o: Operand, r: Reg) returns (t: Cpu)
      requires Addressable(o) && Next(s, pc, Mov(Qword, o, R(r)))
      ensures t == Step(w, code, s)
      ensures At(t)
      ensures t == s.(mem := Wr64(s.mem, Ea(s, pc, o), s.regs.Get(r)), pc := After(pc))
    {
      hide Reaches, Wr64;
      t := Advance(s, pc);
    }

    lemma DoStore32(s: Cpu, pc: int, o: Operand, r: Reg) returns (t: Cpu)
      requires Addressable(o) && Next(s, pc, Mov(Dword, o, R(r)))
      ensures t == Step(w, code, s)
      ensures At(t)
      ensures t == s.(mem := Wr32(s.mem, Ea(s, pc, o), Low32(s.regs.Get(r))), pc := After(pc))
    {
      hide Reaches, Wr32;
      t := Advance(s, pc);
    }

    lemma DoStoreImmediate(s: Cpu, pc: int, o: Operand, v: int) returns (t: Cpu)
      requires Addressable(o) && Next(s, pc, Mov(Qword, o, I(v)))
      ensures t == Step(w, code, s)
      ensures At(t)
      ensures t == s.(mem := Wr64(s.mem, Ea(s, pc, o), Wrap(v)), pc := After(pc))
    {
      hide Reaches, Wr64;
      t := Advance(s, pc);
    }

    lemma DoReadTeb(s: Cpu, pc: int, d: Reg, off: int) returns (t: Cpu)
      requires Next(s, pc, Mov(Qword, R(d), Gs(off)))
      ensures t == Step(w, code, s)
      ensures At(t)
      ensures t == s.(regs := s.regs.Set(d, s.teb.Get(off)), pc := After(pc))
    {
      hide Reaches;
      t := Advance(s, pc);
    }

    lemma DoWriteTeb(s: Cpu, pc: int, off: int, r: Reg) returns (t: Cpu)
      requires Next(s, pc, Mov(Qword, Gs(off), R(r)))
      ensures t == Step(w, code, s)
      ensures At(t)
      ensures t == s.(teb := s.teb.Set(off, s.regs.Get(r)), pc := After(pc))
    {
      hide Reaches;
      t := Advance(s, pc);
    }

    lemma DoSignLoad(s: Cpu, pc: int, d: Reg, o: Operand) returns (t: Cpu)
      requires Addressable(o) && Next(s, pc, Movsxd(d, o))
      ensures t == Step(w, code, s)
      ensures At(t)
      ensures t == s.(regs := s.regs.Set(d, Wrap(Signed32(Rd32(s.mem, Ea(s, pc, o))))), pc := After(pc))
    {
      hide Reaches, Rd32;
      t := Advance(s, pc);
    }

    lemma DoSignExtend(s: Cpu, pc: int, d: Reg, r: Reg) returns (t: Cpu)
      requires Next(s, pc, Movsxd(d, R(r)))
      ensures t == Step(w, code, s)
      ensures At(t)
      ensures t == s.(regs := s.regs.Set(d, Wrap(Signed32(Low32(s.regs.Get(r))))), pc := After(pc))
    {
      hide Reaches;
      t := Advance(s, pc);
    }

    lemma DoLea(s: Cpu, pc: int, wd: Width, d: Reg, o: Operand) returns (t: Cpu)
      requires Addressable(o) && Next(s, pc, Lea(wd, d, o))
      ensures t == Step(w, code, s)
      ensures At(t)
      ensures t == s.(regs := s.regs.Set(d, Trunc(wd, Ea(s, pc, o))), pc := After(pc))
    {
      hide Reaches;
      t := Advance(s, pc);
    }

    lemma DoCompare(s: Cpu, pc: int, a: Reg, b: Reg) returns (t: Cpu)
      requires Next(s, pc, Alu(Cmp, Qword, R(a), R(b)))
      ensures t == Step(w, code, s)
      ensures At(t) && t == s.(flags := t.flags, pc := After(pc))
      ensures t.flags.z <==> s.regs.Get(a) == s.regs.Get(b)
      ensures t.flags.c <==> s.regs.Get(a) < s.regs.Get(b)
    {
      hide Reaches;
      t := Advance(s, pc);
    }

    lemma DoCompareImmediate(s: Cpu, pc: int, wd: Width, a: Reg, v: int) returns (t: Cpu)
      requires wd != Byte && Next(s, pc, Alu(Cmp, wd, R(a), I(v)))
      ensures t == Step(w, code, s)
      ensures At(t) && t == s.(flags := t.flags, pc := After(pc))
      ensures t.flags.z <==> Trunc(wd, s.regs.Get(a)) == Trunc(wd, v)
      ensures t.flags.c <==> Trunc(wd, s.regs.Get(a)) < Trunc(wd, v)
    {
      hide Reaches;
      t := Advance(s, pc);
    }

    lemma DoCompareDword(s: Cpu, pc: int, o: Operand, v: int) returns (t: Cpu)
      requires Addressable(o) && Next(s, pc, Alu(Cmp, Dword, o, I(v)))
      ensures t == Step(w, code, s)
      ensures At(t) && t == s.(flags := t.flags, pc := After(pc))
      ensures t.flags.z <==> Rd32(s.mem, Ea(s, pc, o)) == Low32(v)
    {
      hide Reaches, Rd32;
      t := Advance(s, pc);
    }

    lemma DoCompareWord(s: Cpu, pc: int, o: Operand, r: Reg) returns (t: Cpu)
      requires Addressable(o) && Next(s, pc, Alu(Cmp, Qword, o, R(r)))
      ensures t == Step(w, code, s)
      ensures At(t) && t == s.(flags := t.flags, pc := After(pc))
      ensures t.flags.z <==> Rd64(s.mem, Ea(s, pc, o)) == s.regs.Get(r)
    {
      hide Reaches, Rd64;
      t := Advance(s, pc);
    }

    lemma DoCompareWordImmediate(s: Cpu, pc: int, o: Operand, v: int) returns (t: Cpu)
      requires Addressable(o) && Next(s, pc, Alu(Cmp, Qword, o, I(v)))
      ensures t == Step(w, code, s)
      ensures At(t) && t == s.(flags := t.flags, pc := After(pc))
      ensures t.flags.z <==> Rd64(s.mem, Ea(s, pc, o)) == Wrap(v)
    {
      hide Reaches, Rd64;
      t := Advance(s, pc);
    }

    lemma DoTestSelf(s: Cpu, pc: int, wd: Width, r: Reg) returns (t: Cpu)
      requires wd != Byte && Next(s, pc, Alu(Test, wd, R(r), R(r)))
      ensures t == Step(w, code, s)
      ensures At(t) && t == s.(flags := t.flags, pc := After(pc))
      ensures t.flags.z <==> Trunc(wd, s.regs.Get(r)) == 0
      ensures t.flags.s <==> Negative(wd, Trunc(wd, s.regs.Get(r)))
    {
      hide Reaches;
      AndSelf(Trunc(wd, s.regs.Get(r)));
      t := Advance(s, pc);
    }

    /** `test r8, 7`: is the register eight-aligned? */
    lemma DoTestAligned(s: Cpu, pc: int, r: Reg) returns (t: Cpu)
      requires Next(s, pc, Alu(Test, Byte, R(r), I(7)))
      ensures t == Step(w, code, s)
      ensures At(t) && t == s.(flags := t.flags, pc := After(pc))
      ensures t.flags.z <==> s.regs.Get(r) % 8 == 0
    {
      hide Reaches, BitAnd;
      LowBits(s.regs.Get(r));
      t := Advance(s, pc);
    }

    /** `xor r, r`. */
    lemma DoZero(s: Cpu, pc: int, r: Reg) returns (t: Cpu)
      requires Next(s, pc, Alu(Xor, Dword, R(r), R(r)))
      ensures t == Step(w, code, s)
      ensures At(t) && t == s.(regs := s.regs.Set(r, 0), flags := t.flags, pc := After(pc))
    {
      hide Reaches;
      XorSelf(Low32(s.regs.Get(r)));
      t := Advance(s, pc);
    }

    /** `or r, -1`. */
    lemma DoAllOnes(s: Cpu, pc: int, r: Reg) returns (t: Cpu)
      requires Next(s, pc, Alu(Or, Qword, R(r), I(-1)))
      ensures t == Step(w, code, s)
      ensures At(t) && t == s.(regs := s.regs.Set(r, ALL_ONES), flags := t.flags, pc := After(pc))
    {
      hide Reaches;
      OrAllOnes(s.regs.Get(r));
      t := Advance(s, pc);
    }

    lemma DoAdd(s: Cpu, pc: int, d: Reg, r: Reg) returns (t: Cpu)
      requires Next(s, pc, Alu(Add, Qword, R(d), R(r)))
      ensures t == Step(w, code, s)
      ensures At(t)
      ensures t == s.(regs := s.regs.Set(d, Wrap(s.regs.Get(d) + s.regs.Get(r))), flags := t.flags, pc := After(pc))
    {
      hide Reaches;
      t := Advance(s, pc);
    }

    lemma DoAddImmediate(s: Cpu, pc: int, d: Reg, v: u32) returns (t: Cpu)
      requires Next(s, pc, Alu(Add, Qword, R(d), I(v)))
      ensures t == Step(w, code, s)
      ensures At(t)
      ensures t == s.(regs := s.regs.Set(d, Wrap(s.regs.Get(d) + v)), flags := t.flags, pc := After(pc))
    {
      hide Reaches;
      t := Advance(s, pc);
    }

    lemma DoSubImmediate(s: Cpu, pc: int, d: Reg, v: u32) returns (t: Cpu)
      requires Next(s, pc, Alu(Sub, Qword, R(d), I(v)))
      ensures t == Step(w, code, s)
      ensures At(t)
      ensures t == s.(regs := s.regs.Set(d, Wrap(s.regs.Get(d) - v)), flags := t.flags, pc := After(pc))
    {
      hide Reaches;
      t := Advance(s, pc);
    }

    lemma DoInc(s: Cpu, pc: int, r: Reg) returns (t: Cpu)
      requires Next(s, pc, Inc(r))
      ensures t == Step(w, code, s)
      ensures At(t)
      ensures t == s.(regs := s.regs.Set(r, Low32(Low32(s.regs.Get(r)) + 1)), flags := t.flags, pc := After(pc))
    {
      hide Reaches;
      t := Advance(s, pc);
    }

    lemma DoDec(s: Cpu, pc: int, r: Reg) returns (t: Cpu)
      requires Next(s, pc, Dec(r))
      ensures t == Step(w, code, s)
      ensures At(t)
      ensures var v := Low32(Low32(s.regs.Get(r)) - 1);
              t == s.(regs := s.regs.Set(r, v), flags := t.flags, pc := After(pc)) && (t.flags.z <==> v == 0)
    {
      hide Reaches;
      t := Advance(s, pc);
    }

    lemma DoShl4(s: Cpu, pc: int, r: Reg) returns (t: Cpu)
      requires Next(s, pc, Shl4(r))
      ensures t == Step(w, code, s)
      ensures At(t)
      ensures t == s.(regs := s.regs.Set(r, Wrap(s.regs.Get(r) * 16)), pc := After(pc))
    {
      hide Reaches;
      t := Advance(s, pc);
    }

    lemma DoBranch(s: Cpu, pc: int, c: Cond, rel: int) returns (t: Cpu)
      requires Next(s, pc, Jcc(c, rel))
      ensures t == Step(w, code, s)
      ensures At(t)
      ensures t == s.(pc := if Holds(c, s.flags) then After(pc) + rel else After(pc))
    {
      hide Reaches;
      t := Advance(s, pc);
    }

    lemma DoJump(s: Cpu, pc: int, rel: int) returns (t: Cpu)
      requires Next(s, pc, Jmp(rel))
      ensures t == Step(w, code, s)
      ensures At(t) && t == s.(pc := After(pc) + rel)
    {
      hide Reaches;
      t := Advance(s, pc);
    }

    lemma DoCall(s: Cpu, pc: int, r: Reg) returns (t: Cpu)
      requires Next(s, pc, Call(r))
      ensures t == Step(w, code, s)
      ensures At(t)
      ensures var sp := Wrap(s.regs.rsp - 8);
              t == s.(mem := Wr64(s.mem, sp, Wrap(w.text + After(pc))), regs := s.regs.(rsp := sp),
                      pc := s.regs.Get(r) - w.text)
    {
      hide Reaches, Wr64;
      t := Advance(s, pc);
    }

    lemma DoFilter(s: Cpu, pc: int, r: Reg) returns (t: Cpu)
      requires Next(s, pc, CallFilter(r))
      ensures t == Step(w, code, s)
      ensures At(t)
      ensures var o := w.filter(s.regs.Get(r), s.regs.r10);
              t == s.(mem := Wr64(s.mem, Wrap(s.regs.rsp - 8), Wrap(w.text + After(pc))), flags := o.flags,
                      regs := Clobber(s.regs, o.(r8 := s.regs.r8, r10 := s.regs.r10)), pc := After(pc))
    {
      hide Reaches, Wr64;
      t := Advance(s, pc);
    }

    lemma DoCallHost(s: Cpu, pc: int, r: Reg) returns (t: Cpu)
      requires Next(s, pc, CallHost(r))
      ensures t == Step(w, code, s)
      ensures At(t)
      ensures var c := PushWord(s, Wrap(w.text + After(pc)));
              var h := w.host(Rd64(s.mem, s.regs.Get(r)), c);
              t == s.(mem := h.0, flags := h.1.flags, regs := Clobber(s.regs, h.1), pc := After(pc))
    {
      hide Reaches, Wr64, Rd64;
      t := Advance(s, pc);
    }

    lemma DoJmpHost(s: Cpu, pc: int, r: Reg) returns (t: Cpu)
      requires Next(s, pc, JmpHost(r))
      ensures t == Step(w, code, s)
      ensures At(t) && t == s.(pc := Rd64(s.mem, s.regs.Get(r)) - w.text)
    {
      hide Reaches, Rd64;
      t := Advance(s, pc);
    }

    /** Whatever the kernel answers, memory, the stack and the frame pointer stay. */
    lemma DoSyscall(s: Cpu, pc: int) returns (t: Cpu)
      requires Next(s, pc, Syscall)
      ensures t == Step(w, code, s)
      ensures At(t) && t.pc == After(pc) && t.mem == s.mem && t.teb == s.teb
      ensures t.regs.rsp == s.regs.rsp && t.regs.rbp == s.regs.rbp
    {
      hide Reaches;
      t := Advance(s, pc);
    }

    lemma DoRet(s: Cpu, pc: int) returns (t: Cpu)
      requires Next(s, pc, Ret)
      ensures t == Step(w, code, s)
      ensures At(t)
      ensures t == s.(regs := s.regs.(rsp := Wrap(s.regs.rsp + 8)), pc := Rd64(s.mem, s.regs.rsp) - w.text)
    {
      hide Reaches, Rd64;
      t := Advance(s, pc);
    }

    lemma DoTrap(s: Cpu, pc: int) returns (t: Cpu)
      requires Next(s, pc, Int3)
      ensures t == Step(w, code, s)
      ensures Reaches(w, code, from, t) && t == s.(status := Trapped, pc := After(pc))
    {
      hide Reaches;
      t := Advance(s, pc);
    }

    // Common sequences, in listings whose instructions follow one another one address apart.

    ghost predicate Line(pc: int, i: Instr) { code(pc) == Fetch(i, pc + 1) }

    /** `mov r11, v; cmp x, r11; jcc target`. */
    lemma IfConstant(s: Cpu, pc: int, x: Reg, v: u64, c: Cond, target: int) returns (t: Cpu)
      requires At(s) && s.pc == pc && x != R11 && (c == B || c == AE || c == NE)
      requires Line(pc, Mov(Qword, R(R11), I(v))) && Line(pc + 1, Alu(Cmp, Qword, R(x), R(R11)))
      requires Line(pc + 2, Jcc(c, target - (pc + 3)))
      ensures At(t)
      ensures var taken := if c == NE then s.regs.Get(x) != v else (c == B) == (s.regs.Get(x) < v);
              t == s.(regs := s.regs.(r11 := v), flags := t.flags, pc := if taken then target else pc + 3)
    {
      hide Reaches, Exec;
      t := DoImmediate(s, pc, Qword, R11, v);
      t := DoCompare(t, pc + 1, x, R11);
      t := DoBranch(t, pc + 2, c, target - (pc + 3));
    }

    /** `test r, r; jcc target`. */
    lemma IfTest(s: Cpu, pc: int, wd: Width, r: Reg, c: Cond, target: int) returns (t: Cpu)
      requires At(s) && s.pc == pc && wd != Byte && (c == E || c == NE || c == S || c == NS)
      requires Line(pc, Alu(Test, wd, R(r), R(r))) && Line(pc + 1, Jcc(c, target - (pc + 2)))
      ensures At(t)
      ensures var v := Trunc(wd, s.regs.Get(r));
              var taken := if c == E || c == NE then (c == E) == (v == 0) else (c == S) == Negative(wd, v);
              t == s.(flags := t.flags, pc := if taken then target else pc + 2)
    {
      hide Reaches, Exec;
      t := DoTestSelf(s, pc, wd, r);
      t := DoBranch(t, pc + 1, c, target - (pc + 2));
    }

    /** `cmp a, b; jcc target`. */
    lemma IfCompare(s: Cpu, pc: int, a: Reg, b: Reg, c: Cond, target: int) returns (t: Cpu)
      requires At(s) && s.pc == pc && (c == B || c == AE || c == E)
      requires Line(pc, Alu(Cmp, Qword, R(a), R(b))) && Line(pc + 1, Jcc(c, target - (pc + 2)))
      ensures At(t)
      ensures var x, y := s.regs.Get(a), s.regs.Get(b);
              var taken := if c == E then x == y else (c == B) == (x < y);
              t == s.(flags := t.flags, pc := if taken then target else pc + 2)
    {
      hide Reaches, Exec;
      t := DoCompare(s, pc, a, b);
      t := DoBranch(t, pc + 1, c, target - (pc + 2));
    }

    /** `cmp a, v; jcc target`. */
    lemma IfImmediate(s: Cpu, pc: int, wd: Width, a: Reg, v: int, c: Cond, target: int) returns (t: Cpu)
      requires At(s) && s.pc == pc && wd != Byte && (c == B || c == E || c == Above)
      requires Line(pc, Alu(Cmp, wd, R(a), I(v))) && Line(pc + 1, Jcc(c, target - (pc + 2)))
      ensures At(t)
      ensures var x, y := Trunc(wd, s.regs.Get(a)), Trunc(wd, v);
              var taken := if c == E then x == y else if c == B then x < y else x > y;
              t == s.(flags := t.flags, pc := if taken then target else pc + 2)
    {
      hide Reaches, Exec;
      t := DoCompareImmediate(s, pc, wd, a, v);
      t := DoBranch(t, pc + 1, c, target - (pc + 2));
    }

    /** `test r8, 7; jnz target`. */
    lemma UnlessAligned(s: Cpu, pc: int, r: Reg, target: int) returns (t: Cpu)
      requires At(s) && s.pc == pc
      requires Line(pc, Alu(Test, Byte, R(r), I(7))) && Line(pc + 1, Jcc(NE, target - (pc + 2)))
      ensures At(t)
      ensures t == s.(flags := t.flags, pc := if s.regs.Get(r) % 8 == 0 then pc + 2 else target)
    {
      hide Reaches, Exec;
      t := DoTestAligned(s, pc, r);
      t := DoBranch(t, pc + 1, NE, target - (pc + 2));
    }

    /** `cmp dword ptr [r], -1; jne target`. */
    lemma UnlessOnes(s: Cpu, pc: int, r: Reg, target: int) returns (t: Cpu)
      requires At(s) && s.pc == pc
      requires Line(pc, Alu(Cmp, Dword, M(r, 0), I(-1))) && Line(pc + 1, Jcc(NE, target - (pc + 2)))
      ensures At(t)
      ensures t == s.(flags := t.flags,
                      pc := if Rd32(s.mem, s.regs.Get(r)) == 0xFFFF_FFFF then pc + 2 else target)
    {
      hide Reaches, Exec, Rd32;
      t := DoCompareDword(s, pc, M(r, 0), -1);
      t := DoBranch(t, pc + 1, NE, target - (pc + 2));
    }
  }
}
