/**
 The part of an x86-64 processor that the runtime stubs use: sixteen general registers, the flags the
 stubs branch on, byte memory, the three GS-relative slots of the thread block, and calls that leave
 the stubs, whose results a `World` supplies.

 Code addresses are offsets from the start of the text the stubs live in, so that address k is the
 virtual address `World.text + k`.
 */
module Machine {
  import opened Words
  import opened Memory

  datatype Reg =
    | RAX | RCX | RDX | RBX | RSP | RBP | RSI | RDI
    | R8 | R9 | R10 | R11 | R12 | R13 | R14 | R15

  datatype Regs = Regs(
    rax: u64, rcx: u64, rdx: u64, rbx: u64, rsp: u64, rbp: u64, rsi: u64, rdi: u64,
    r8: u64, r9: u64, r10: u64, r11: u64, r12: u64, r13: u64, r14: u64, r15: u64)
  {
    function Get(r: Reg): u64 {
      match r
      case RAX => rax case RCX => rcx case RDX => rdx case RBX => rbx
      case RSP => rsp case RBP => rbp case RSI => rsi case RDI => rdi
      case R8 => r8 case R9 => r9 case R10 => r10 case R11 => r11
      case R12 => r12 case R13 => r13 case R14 => r14 case R15 => r15
    }

    function Set(r: Reg, v: u64): Regs {
      match r
      case RAX => this.(rax := v) case RCX => this.(rcx := v)
      case RDX => this.(rdx := v) case RBX => this.(rbx := v)
      case RSP => this.(rsp := v) case RBP => this.(rbp := v)
      case RSI => this.(rsi := v) case RDI => this.(rdi := v)
      case R8 => this.(r8 := v) case R9 => this.(r9 := v)
      case R10 => this.(r10 := v) case R11 => this.(r11 := v)
      case R12 => this.(r12 := v) case R13 => this.(r13 := v)
      case R14 => this.(r14 := v) case R15 => this.(r15 := v)
    }
  }

  /** Zero, carry and sign; no stub looks at another flag. */
  datatype Flags = Flags(z: bool, c: bool, s: bool)

  /** gs:[0], gs:[8] and gs:[0x10]. */
  datatype Teb = Teb(exceptionList: u64, stackBase: u64, stackLimit: u64)
  {
    function Get(off: int): u64 {
      if off == 0 then exceptionList else if off == 8 then stackBase else stackLimit
    }

    function Set(off: int, v: u64): Teb {
      if off == 0 then this.(exceptionList := v)
      else if off == 8 then this.(stackBase := v) else this.(stackLimit := v)
    }
  }

  datatype Width = Byte | Dword | Qword

  /** A register, an immediate, or one of the memory forms. `Rip` is relative to the next instruction. */
  datatype Operand =
    | R(reg: Reg)
    | I(imm: int)
    | M(base: Reg, disp: int)
    | MX(base: Reg, index: Reg, disp: int)
    | Rip(disp: int)
    | Gs(disp: int)
    | GsRip(disp: int)
    | GsIndex(index: Reg, disp: int)

  datatype AluOp = Add | Sub | Cmp | Test | Xor | Or

  datatype Cond = E | NE | B | AE | Above | S | NS

  datatype Instr =
    | Push(reg: Reg)
    | Pop(reg: Reg)
    | Mov(w: Width, dst: Operand, src: Operand)
    | Movsxd(to: Reg, src: Operand)
    | Lea(w: Width, to: Reg, ea: Operand)
    | Alu(op: AluOp, w: Width, dst: Operand, src: Operand)
    | Inc(reg: Reg)                  // 32-bit
    | Dec(reg: Reg)                  // 32-bit
    | Shl4(reg: Reg)                 // 64-bit, by four
    | Jcc(cond: Cond, rel: int)      // relative to the next instruction
    | Jmp(rel: int)
    | Call(reg: Reg)                 // to another stub
    | CallFilter(reg: Reg)           // to a scope's filter
    | CallHost(slot: Reg)            // through an import slot
    | JmpHost(slot: Reg)
    | Syscall
    | Ret
    | Int3

  datatype Fetch = Fetch(instr: Instr, next: int)

  type Code = int -> Fetch

  // Branches by target, in listings whose instructions follow one another one address apart.

  function To(c: Cond, pc: int, target: int): Instr { Jcc(c, target - (pc + 1)) }

  function Goto(pc: int, target: int): Instr { Jmp(target - (pc + 1)) }

  datatype Status = Running | Trapped

  datatype Cpu = Cpu(regs: Regs, flags: Flags, mem: Mem, teb: Teb, pc: int, status: Status)

  /** What a call out of the stubs leaves in the registers a callee may change. */
  datatype Scratch =
    Scratch(rax: u64, rcx: u64, rdx: u64, r8: u64, r9: u64, r10: u64, r11: u64, flags: Flags)

  /**
   The outside: where the text is loaded, what a filter at a given address answers for a given frame,
   what a host function does to memory and to the volatile registers, and what the kernel answers.
   */
  datatype World = World(
    text: u64,
    filter: (u64, u64) -> Scratch,
    host: (u64, Cpu) -> (Mem, Scratch),
    kernel: Cpu -> Scratch)

  predicate Addressable(o: Operand) { o.M? || o.MX? || o.Rip? }

  function Address(w: World, rs: Regs, next: int, o: Operand): u64
    requires Addressable(o)
  {
    match o
    case M(b, d) => Wrap(rs.Get(b) + d)
    case MX(b, x, d) => Wrap(rs.Get(b) + rs.Get(x) + d)
    case Rip(d) => Wrap(w.text + next + d)
  }

  function Trunc(w: Width, x: int): u64 {
    match w
    case Byte => x % 0x100
    case Dword => Low32(x)
    case Qword => Wrap(x)
  }

  function Read(w: World, s: Cpu, next: int, wd: Width, o: Operand): u64 {
    if Addressable(o) then
      var a := Address(w, s.regs, next, o);
      match wd
      case Byte => Peek(s.mem, a)
      case Dword => Rd32(s.mem, a)
      case Qword => Rd64(s.mem, a)
    else match o
      case R(r) => Trunc(wd, s.regs.Get(r))
      case I(v) => Trunc(wd, v)
      case Gs(off) => Trunc(wd, s.teb.Get(off))
      case _ => 0
  }

  function Write(w: World, s: Cpu, next: int, wd: Width, o: Operand, v: u64): Cpu {
    if Addressable(o) then
      var a := Address(w, s.regs, next, o);
      if wd == Qword then s.(mem := Wr64(s.mem, a, v)) else s.(mem := Wr32(s.mem, a, Low32(v)))
    else match o
      case R(r) => s.(regs := s.regs.Set(r, v))
      case Gs(off) => s.(teb := s.teb.Set(off, v))
      case _ => s.(status := Trapped)
  }

  function Negative(w: Width, v: u64): bool {
    match w
    case Byte => v >= 0x80
    case Dword => v >= 0x8000_0000
    case Qword => v >= 0x8000_0000_0000_0000
  }

  function Result(op: AluOp, w: Width, a: u64, b: u64): u64 {
    match op
    case Add => Trunc(w, a + b)
    case Sub => Trunc(w, a - b)
    case Cmp => Trunc(w, a - b)
    case Test => Trunc(w, BitAnd(a, b))
    case Xor => Trunc(w, BitXor(a, b))
    case Or => Trunc(w, BitOr(a, b))
  }

  function FlagsOf(op: AluOp, w: Width, a: u64, b: u64): Flags {
    var r := Result(op, w, a, b);
    Flags(r == 0, ((op == Sub || op == Cmp) && a < b) || (op == Add && r < a), Negative(w, r))
  }

  predicate Holds(c: Cond, f: Flags) {
    match c
    case E => f.z
    case NE => !f.z
    case B => f.c
    case AE => !f.c
    case Above => !f.c && !f.z
    case S => f.s
    case NS => !f.s
  }

  function Clobber(rs: Regs, o: Scratch): Regs {
    rs.(rax := o.rax, rcx := o.rcx, rdx := o.rdx, r8 := o.r8, r9 := o.r9, r10 := o.r10, r11 := o.r11)
  }

  /** A 32-bit increment or decrement; the carry flag stays. */
  function Count(s: Cpu, next: int, r: Reg, delta: int): Cpu {
    var v := Low32(Low32(s.regs.Get(r)) + delta);
    s.(regs := s.regs.Set(r, v), flags := s.flags.(z := v == 0, s := Negative(Dword, v)), pc := next)
  }

  function PushWord(s: Cpu, v: u64): Cpu {
    var sp := Wrap(s.regs.rsp - 8);
    s.(mem := Wr64(s.mem, sp, v), regs := s.regs.(rsp := sp))
  }

  /** What executing `i` does when `next` is the address after it. */
  function Exec(w: World, i: Instr, next: int, s: Cpu): Cpu {
    var t := s.(pc := next);
    match i
    case Push(r) => PushWord(t, s.regs.Get(r))
    case Pop(r) =>
      t.(regs := s.regs.(rsp := Wrap(s.regs.rsp + 8)).Set(r, Rd64(s.mem, s.regs.rsp)))
    case Mov(wd, d, o) => Write(w, t, next, wd, d, Read(w, s, next, wd, o))
    case Movsxd(d, o) => t.(regs := s.regs.Set(d, Wrap(Signed32(Low32(Read(w, s, next, Dword, o))))))
    case Lea(wd, d, o) =>
      if Addressable(o) then t.(regs := s.regs.Set(d, Trunc(wd, Address(w, s.regs, next, o))))
      else t.(status := Trapped)
    case Alu(op, wd, d, o) =>
      var a, b := Read(w, s, next, wd, d), Read(w, s, next, wd, o);
      var u := t.(flags := FlagsOf(op, wd, a, b));
      if op == Cmp || op == Test then u else Write(w, u, next, wd, d, Result(op, wd, a, b))
    case Inc(r) => Count(s, next, r, 1)
    case Dec(r) => Count(s, next, r, -1)
    case Shl4(r) => t.(regs := s.regs.Set(r, Wrap(s.regs.Get(r) * 16)))
    case Jcc(c, rel) => if Holds(c, s.flags) then s.(pc := next + rel) else t
    case Jmp(rel) => s.(pc := next + rel)
    case Call(r) => PushWord(s, Wrap(w.text + next)).(pc := s.regs.Get(r) - w.text)
    case CallFilter(r) =>
      var o := w.filter(s.regs.Get(r), s.regs.r10);
      var c := PushWord(s, Wrap(w.text + next));
      t.(mem := c.mem, flags := o.flags,
         regs := Clobber(s.regs, o.(r8 := s.regs.r8, r10 := s.regs.r10)))
    case CallHost(r) =>
      var c := PushWord(s, Wrap(w.text + next));
      var (m, o) := w.host(Rd64(s.mem, s.regs.Get(r)), c);
      t.(mem := m, flags := o.flags, regs := Clobber(s.regs, o))
    case JmpHost(r) => s.(pc := Rd64(s.mem, s.regs.Get(r)) - w.text)
    case Syscall =>
      var o := w.kernel(s);
      t.(flags := o.flags, regs := Clobber(s.regs, o.(r8 := s.regs.r8, r9 := s.regs.r9, r10 := s.regs.r10)))
    case Ret => s.(regs := s.regs.(rsp := Wrap(s.regs.rsp + 8)), pc := Rd64(s.mem, s.regs.rsp) - w.text)
    case Int3 => t.(status := Trapped)
  }

  function Step(w: World, code: Code, s: Cpu): Cpu {
    if s.status == Trapped then s else Exec(w, code(s.pc).instr, code(s.pc).next, s)
  }

  function Run(w: World, code: Code, s: Cpu, n: nat): Cpu
    decreases n
  {
    if n == 0 then s else Run(w, code, Step(w, code, s), n - 1)
  }

  lemma {:induction false} RunAdd(w: World, code: Code, s: Cpu, m: nat, n: nat)
    ensures Run(w, code, s, m + n) == Run(w, code, Run(w, code, s, m), n)
    decreases m
  {
    hide Step;
    if m == 0 {
    } else {
      RunAdd(w, code, Step(w, code, s), m - 1, n);
      assert m + n - 1 == m - 1 + n;
    }
  }

  /** Some number of steps leads from s to t. */
  ghost predicate Reaches(w: World, code: Code, s: Cpu, t: Cpu) {
    exists n: nat :: Run(w, code, s, n) == t
  }

  lemma ReachSelf(w: World, code: Code, s: Cpu)
    ensures Reaches(w, code, s, s)
  {
    assert Run(w, code, s, 0) == s;
  }

  lemma ReachOn(w: World, code: Code, s: Cpu, t: Cpu, u: Cpu)
    requires Reaches(w, code, s, t) && Reaches(w, code, t, u)
    ensures Reaches(w, code, s, u)
  {
    var m: nat :| Run(w, code, s, m) == t;
    var n: nat :| Run(w, code, t, n) == u;
    RunAdd(w, code, s, m, n);
  }

  lemma ReachStep(w: World, code: Code, s: Cpu, t: Cpu)
    requires Reaches(w, code, s, t)
    ensures Reaches(w, code, s, Step(w, code, t))
  {
    var n: nat :| Run(w, code, s, n) == t;
    RunAdd(w, code, s, n, 1);
    assert Run(w, code, t, 1) == Run(w, code, Step(w, code, t), 0);
  }
}
