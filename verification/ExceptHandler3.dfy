/** The listing of _except_handler3, at text offset 0, and what a run of it does. */
module ExceptHandler3 {
  import opened Words
  import opened Memory
  import opened Machine
  import opened Stepping
  import opened Frames
  import opened ScopeTables

  const HAVE_TRYLEVEL := 25
  const SCOPE_LOOP := 26
  const CALL_FILTER := 46
  const EXECUTE_HANDLER := 52
  const USE_END_AS_HANDLER := 62
  const SET_HANDLER_RIP := 63
  const RIP_OK := 67
  const NEXT_SCOPE := 75
  const SEARCH_DONE := 77
  const EPILOG := 78

  /** Saves five registers. */
  function SaveCode(ib: u64, pc: int): Instr {
    match pc
    case 0 => Push(RBX)
    case 1 => Push(RSI)
    case 2 => Push(RDI)
    case 3 => Push(R12)
    case 4 => Push(R13)
    case 5 => Mov(Qword, R(R10), R(RDX))
    case _ => Int3
  }

  /** Checks that the frame carries a scope table. */
  function TableCode(ib: u64, pc: int): Instr {
    match pc
    case 6 => Mov(Qword, R(R11), I(0x10000))
    case 7 => Alu(Cmp, Qword, R(R10), R(R11))
    case 8 => To(B, pc, SEARCH_DONE)
    case 9 => Mov(Qword, R(RBX), M(R10, 0x10))
    case 10 => Alu(Test, Qword, R(RBX), R(RBX))
    case 11 => To(E, pc, SEARCH_DONE)
    case 12 => Mov(Qword, R(R11), I(ib))
    case 13 => Alu(Cmp, Qword, R(RBX), R(R11))
    case 14 => To(B, pc, SEARCH_DONE)
    case 15 => Mov(Qword, R(R11), I(ib + IMAGE_SPAN))
    case 16 => Alu(Cmp, Qword, R(RBX), R(R11))
    case 17 => To(AE, pc, SEARCH_DONE)
    case 18 => Alu(Cmp, Dword, M(RBX, 0), I(-1))
    case 19 => To(NE, pc, SEARCH_DONE)
    case _ => Int3
  }

  /** The scope to start from and the address of the exception. */
  function TopCode(ib: u64, pc: int): Instr {
    match pc
    case 20 => Lea(Qword, R11, M(R10, 0x20))
    case 21 => Movsxd(R12, M(R11, -8))
    case 22 => Alu(Test, Dword, R(R12), R(R12))
    case 23 => To(NS, pc, HAVE_TRYLEVEL)
    case 24 => Alu(Xor, Dword, R(R12), R(R12))
    // have_trylevel:
    case 25 => Mov(Qword, R(RSI), M(RCX, EXC_ADDRESS))
    case _ => Int3
  }

  /** Does the scope cover the address? */
  function ScopeCode(ib: u64, pc: int): Instr {
    match pc
    // scope_loop:
    case 26 => Alu(Test, Dword, R(R12), R(R12))
    case 27 => To(S, pc, SEARCH_DONE)
    case 28 => Mov(Qword, R(RAX), R(R12))
    case 29 => Shl4(RAX)
    case 30 => Lea(Qword, RDI, MX(RBX, RAX, 4))
    case 31 => Mov(Dword, R(RAX), M(RDI, 0))
    case 32 => Alu(Cmp, Qword, R(RSI), R(RAX))
    case 33 => To(B, pc, NEXT_SCOPE)
    case 34 => Mov(Dword, R(RAX), M(RDI, 4))
    case 35 => Alu(Cmp, Qword, R(RSI), R(RAX))
    case 36 => To(AE, pc, NEXT_SCOPE)
    case _ => Int3
  }

  /** Does its filter accept? */
  function FilterCode(ib: u64, pc: int): Instr {
    match pc
    case 37 => Mov(Dword, R(RAX), M(RDI, 8))
    case 38 => Alu(Test, Dword, R(RAX), R(RAX))
    case 39 => To(E, pc, EXECUTE_HANDLER)
    case 40 => Alu(Cmp, Dword, R(RAX), I(0x10000))
    case 41 => To(B, pc, EXECUTE_HANDLER)
    case 42 => Mov(Qword, R(R11), I(ib))
    case 43 => Alu(Cmp, Qword, R(RAX), R(R11))
    case 44 => To(AE, pc, CALL_FILTER)
    case 45 => Alu(Add, Qword, R(RAX), R(R11))
    // call_filter:
    case 46 => Alu(Sub, Qword, R(RSP), I(0x28))
    case 47 => CallFilter(RAX)
    case 48 => Alu(Add, Qword, R(RSP), I(0x28))
    case 49 => Alu(Cmp, Dword, R(RAX), I(1))
    case 50 => To(E, pc, EXECUTE_HANDLER)
    case 51 => Goto(pc, NEXT_SCOPE)
    case _ => Int3
  }

  /** Lowers the try level, pops the frame and picks the address to resume at. */
  function HandlerCode(ib: u64, pc: int): Instr {
    match pc
    // execute_handler:
    case 52 => Lea(Dword, RAX, M(R12, -1))
    case 53 => Mov(Dword, M(R10, 0x18), R(RAX))
    case 54 => Mov(Qword, R(RAX), M(R10, 0))
    case 55 => Mov(Qword, Gs(0), R(RAX))
    case 56 => Mov(Dword, R(RAX), M(RDI, 12))
    case 57 => Alu(Test, Dword, R(RAX), R(RAX))
    case 58 => To(E, pc, USE_END_AS_HANDLER)
    case 59 => Alu(Cmp, Dword, R(RAX), I(0x10000))
    case 60 => To(B, pc, USE_END_AS_HANDLER)
    case 61 => Goto(pc, SET_HANDLER_RIP)
    // use_end_as_handler:
    case 62 => Mov(Dword, R(RAX), M(RDI, 4))
    // set_handler_rip:
    case 63 => Mov(Qword, R(R11), I(ib))
    case 64 => Alu(Cmp, Qword, R(RAX), R(R11))
    case 65 => To(AE, pc, RIP_OK)
    case 66 => Alu(Add, Qword, R(RAX), R(R11))
    case _ => Int3
  }

  /** Fills in the context. */
  function ResumeCode(ib: u64, pc: int): Instr {
    match pc
    // rip_ok:
    case 67 => Mov(Qword, M(R8, CTX_RIP), R(RAX))
    case 68 => Mov(Qword, R(R11), M(R8, CTX_RBP))
    case 69 => Mov(Qword, R(R11), M(R11, -0x18))
    case 70 => Mov(Qword, M(R8, CTX_RSP), R(R11))
    case 71 => Lea(Qword, R11, M(R10, 0x20))
    case 72 => Mov(Qword, M(R8, CTX_RBP), R(R11))
    case 73 => Alu(Xor, Dword, R(RAX), R(RAX))
    case 74 => Goto(pc, EPILOG)
    case _ => Int3
  }

  /** The next scope, or the answer and the way out. */
  function ExitCode(ib: u64, pc: int): Instr {
    match pc
    // next_scope:
    case 75 => Dec(R12)
    case 76 => Goto(pc, SCOPE_LOOP)
    // search_done:
    case 77 => Mov(Dword, R(RAX), I(1))
    // epilog:
    case 78 => Pop(R13)
    case 79 => Pop(R12)
    case 80 => Pop(RDI)
    case 81 => Pop(RSI)
    case 82 => Pop(RBX)
    case 83 => Ret
    case _ => Int3
  }

  function Listing(ib: u64, pc: int): Instr {
    if pc < 6 then SaveCode(ib, pc)
    else if pc < 20 then TableCode(ib, pc)
    else if pc < 26 then TopCode(ib, pc)
    else if pc < 37 then ScopeCode(ib, pc)
    else if pc < 52 then FilterCode(ib, pc)
    else if pc < 67 then HandlerCode(ib, pc)
    else if pc < 75 then ResumeCode(ib, pc)
    else ExitCode(ib, pc)
  }

  /** How much stack below its caller's a call uses: five saved registers, a filter's home space and return address. */
  const STACK := 88

  /** The stub is being entered with a return address on the stack. */
  ghost predicate Entry(ib: u64, s: Cpu) {
    && s.status == Running && s.pc == 0
    && ib + IMAGE_SPAN < 0x1_0000_0000_0000_0000
    && STACK <= s.regs.rsp && s.regs.rsp + 8 <= 0x1_0000_0000_0000_0000
  }

  /** The address of the exception, from the exception record in rcx. */
  function Fault(s: Cpu): u64 { Rd64(s.mem, Wrap(s.regs.rcx + EXC_ADDRESS)) }

  /** Nothing the stub reads or changes for its caller overlaps the stack it uses itself. */
  ghost predicate Separate(w: World, ib: u64, s: Cpu) {
    var lo, hi := s.regs.rsp - STACK, s.regs.rsp + 8;
    && FrameClear(ib, s.mem, s.regs.rdx, lo, hi)
    && Clear(Wrap(s.regs.rcx + EXC_ADDRESS), 8, lo, hi)
    && ContextClear(s.regs.r8, lo, hi)
    && forall k :: HasTable(ib, s.mem, s.regs.rdx) && Selects(w, ib, s.mem, s.regs.rdx, Fault(s), k) ==>
         ResumeClear(ib, s.mem, s.regs.rdx, s.regs.r8, k, lo, hi)
  }

  function Saved(s: Cpu): (vs: seq<u64>)
    ensures |vs| == 5
  {
    [s.regs.rbx, s.regs.rsi, s.regs.rdi, s.regs.r12, s.regs.r13]
  }

  /** Registers the stub never changes between its prologue and its epilogue. */
  ghost predicate Kept(s: Cpu, t: Cpu) {
    && t.regs.rsp == s.regs.rsp - 40
    && t.regs.rbp == s.regs.rbp && t.regs.r8 == s.regs.r8
    && t.regs.r13 == s.regs.r13 && t.regs.r14 == s.regs.r14 && t.regs.r15 == s.regs.r15
  }

  /** Inside the stub, nothing but the stack below the caller's has changed. */
  ghost predicate Inside(s: Cpu, t: Cpu) {
    && Kept(s, t)
    && t.regs.r10 == s.regs.rdx
    && t.teb == s.teb
    && Stacked(t.mem, s.regs.rsp, Saved(s), 5)
    && Agree(s.mem, t.mem, s.regs.rsp - STACK, s.regs.rsp)
  }

  /** The code of the run starts with this stub. */
  ghost predicate Loaded(tr: Trace, ib: u64) {
    forall pc: int :: 0 <= pc <= 83 ==> tr.code(pc) == Fetch(Listing(ib, pc), pc + 1)
  }

  /** What every lemma about the inside of a run assumes of the run. */
  ghost predicate Assumed(tr: Trace, ib: u64) {
    Loaded(tr, ib) && Entry(ib, tr.from) && Separate(tr.w, ib, tr.from)
  }

  /** The first n registers are saved. */
  ghost predicate Saving(s: Cpu, t: Cpu, n: nat) {
    && 8 * n <= s.regs.rsp
    && t == s.(regs := s.regs.(rsp := s.regs.rsp - 8 * n), mem := t.mem, pc := n)
    && Stacked(t.mem, s.regs.rsp, Saved(s), n)
    && Agree(s.mem, t.mem, s.regs.rsp - STACK, s.regs.rsp)
  }

  lemma SavingNone(s: Cpu)
    requires s.pc == 0
    ensures Saving(s, s, 0)
  { }

  lemma SaveOne(tr: Trace, s: Cpu, n: nat, r: Reg) returns (t: Cpu)
    requires n < 5 && tr.At(s) && Saving(tr.from, s, n) && STACK <= tr.from.regs.rsp
    requires tr.Line(n, Push(r)) && r != RSP && tr.from.regs.Get(r) == Saved(tr.from)[n]
    ensures tr.At(t) && Saving(tr.from, t, n + 1)
  {
    hide Reaches, Run, Step, Exec, Rd64, Wr64, Saved, Stacked;
    t := tr.DoPush(s, n, r);
    StackedPush(s.mem, tr.from.regs.rsp, Saved(tr.from), n);
  }

  lemma Prologue(tr: Trace, ib: u64) returns (t: Cpu)
    requires Loaded(tr, ib) && Entry(ib, tr.from)
    ensures tr.At(t) && t.pc == 6 && Inside(tr.from, t) && t.regs.rcx == tr.from.regs.rcx
  {
    hide Reaches, Run, Step, Exec, Rd64, Wr64, Stacked, Agree;
    tr.Begin();
    SavingNone(tr.from);
    t := SaveOne(tr, tr.from, 0, RBX);
    t := SaveOne(tr, t, 1, RSI);
    t := SaveOne(tr, t, 2, RDI);
    t := SaveOne(tr, t, 3, R12);
    t := SaveOne(tr, t, 4, R13);
    t := tr.DoMove(t, 5, R10, RDX);
  }

  /** A read of guest data inside the stub gives what it gave on entry. */
  lemma SameRead(s: Cpu, t: Cpu, a: int)
    requires Inside(s, t)
    ensures Clear(a, 8, s.regs.rsp - STACK, s.regs.rsp) ==> Rd64(t.mem, a) == Rd64(s.mem, a)
    ensures Clear(a, 4, s.regs.rsp - STACK, s.regs.rsp) ==> Rd32(t.mem, a) == Rd32(s.mem, a)
  {
    hide Rd64, Rd32, Stacked;
    ReadAgree(s.mem, t.mem, s.regs.rsp - STACK, s.regs.rsp, a);
  }

  lemma GateRange(tr: Trace, ib: u64, s: Cpu) returns (t: Cpu)
    requires Assumed(tr, ib)
    requires tr.At(s) && s.pc == 12 && Inside(tr.from, s)
    requires var f := tr.from.regs.rdx; f >= LOWEST_ADDRESS && s.regs.rbx == Table(tr.from.mem, f) != 0
    ensures tr.At(t) && Inside(tr.from, t) && t.regs.rcx == s.regs.rcx && t.regs.rbx == s.regs.rbx
    ensures t.pc == if HasTable(ib, tr.from.mem, tr.from.regs.rdx) then 20 else SEARCH_DONE
  {
    hide Reaches, Run, Step, Exec, Rd64, Wr64, Rd32, Wr32, Selects, ResumeClear, Stacked, Agree, Field;
    t := tr.IfConstant(s, 12, RBX, ib, B, SEARCH_DONE);
    if ib <= s.regs.rbx {
      t := tr.IfConstant(t, 15, RBX, ib + IMAGE_SPAN, AE, SEARCH_DONE);
      if s.regs.rbx < ib + IMAGE_SPAN {
        SameRead(tr.from, s, s.regs.rbx);
        t := tr.UnlessOnes(t, 18, RBX, SEARCH_DONE);
      }
    }
  }

  lemma GateTable(tr: Trace, ib: u64, s: Cpu) returns (t: Cpu)
    requires Assumed(tr, ib) && tr.from.regs.rdx >= LOWEST_ADDRESS
    requires tr.At(s) && s.pc == 9 && Inside(tr.from, s)
    ensures tr.At(t) && Inside(tr.from, t) && t.regs.rcx == s.regs.rcx
    ensures var f := tr.from.regs.rdx;
            if HasTable(ib, tr.from.mem, f) then t.pc == 20 && t.regs.rbx == Table(tr.from.mem, f)
            else t.pc == SEARCH_DONE
  {
    hide Reaches, Run, Step, Exec, Rd64, Wr64, Rd32, Wr32, Selects, ResumeClear, Stacked, Agree, Field;
    SameRead(tr.from, s, tr.from.regs.rdx + FRAME_SCOPE);
    t := tr.DoLoad(s, 9, RBX, M(R10, 0x10));
    t := tr.IfTest(t, 10, Qword, RBX, E, SEARCH_DONE);
    if t.pc == 12 {
      t := GateRange(tr, ib, t);
    }
  }

  lemma Gate(tr: Trace, ib: u64, s: Cpu) returns (t: Cpu)
    requires Assumed(tr, ib)
    requires tr.At(s) && s.pc == 6 && Inside(tr.from, s)
    ensures tr.At(t) && Inside(tr.from, t) && t.regs.rcx == s.regs.rcx
    ensures var f := tr.from.regs.rdx;
            if HasTable(ib, tr.from.mem, f) then t.pc == 20 && t.regs.rbx == Table(tr.from.mem, f)
            else t.pc == SEARCH_DONE
  {
    hide Reaches, Run, Step, Exec, Rd64, Wr64, Rd32, Wr32, Selects, ResumeClear, Stacked, Agree, Field;
    t := tr.IfConstant(s, 6, R10, 0x10000, B, SEARCH_DONE);
    if t.pc == 9 {
      t := GateTable(tr, ib, t);
    }
  }

  /** At the head of the scope loop, about to look at scope k (or done, when k is -1). */
  ghost predicate Searching(ib: u64, s: Cpu, t: Cpu, k: int) {
    && HasTable(ib, s.mem, s.regs.rdx) && -1 <= k <= Top(s.mem, s.regs.rdx)
    && Inside(s, t)
    && t.regs.rbx == Table(s.mem, s.regs.rdx)
    && t.regs.rsi == Fault(s)
    && t.regs.r12 == Low32(k)
  }

  /** Looking at scope k. */
  ghost predicate Looking(ib: u64, s: Cpu, t: Cpu, k: int) {
    k >= 0 && Searching(ib, s, t, k) && t.regs.rdi == Scope(t.regs.rbx, k)
  }

  /** A negative try level counts as 0. */
  lemma ClampLevel(tr: Trace, ib: u64, s: Cpu) returns (t: Cpu)
    requires Loaded(tr, ib) && tr.At(s) && s.pc == 22
    ensures tr.At(t)
    ensures var low := Low32(s.regs.r12);
            t == s.(regs := s.regs.(r12 := if low < 0x8000_0000 then s.regs.r12 else 0), flags := t.flags,
                    pc := HAVE_TRYLEVEL)
  {
    hide Reaches, Run, Step, Exec;
    t := tr.IfTest(s, 22, Dword, R12, NS, HAVE_TRYLEVEL);
    if t.pc == 24 {
      t := tr.DoZero(t, 24, R12);
    }
  }

  lemma TopScope(tr: Trace, ib: u64, s: Cpu) returns (t: Cpu)
    requires Assumed(tr, ib) && tr.from.regs.rdx >= LOWEST_ADDRESS
    requires tr.At(s) && s.pc == 20 && Inside(tr.from, s)
    ensures tr.At(t) && t.pc == HAVE_TRYLEVEL && Inside(tr.from, t)
    ensures t.regs.rcx == s.regs.rcx && t.regs.rbx == s.regs.rbx
    ensures t.regs.r12 == Top(tr.from.mem, tr.from.regs.rdx)
  {
    hide Reaches, Run, Step, Exec, Rd64, Wr64, Rd32, Wr32, Selects, ResumeClear, Stacked, Agree, HasTable, Table;
    SameRead(tr.from, s, tr.from.regs.rdx + FRAME_TRYLEVEL);
    t := tr.DoLea(s, 20, Qword, R11, M(R10, 0x20));
    t := tr.DoSignLoad(t, 21, R12, M(R11, -8));
    t := ClampLevel(tr, ib, t);
  }

  lemma StartSearch(tr: Trace, ib: u64, s: Cpu) returns (t: Cpu)
    requires Assumed(tr, ib) && HasTable(ib, tr.from.mem, tr.from.regs.rdx)
    requires tr.At(s) && s.pc == 20 && Inside(tr.from, s) && s.regs.rcx == tr.from.regs.rcx
    requires s.regs.rbx == Table(tr.from.mem, tr.from.regs.rdx)
    ensures tr.At(t) && t.pc == SCOPE_LOOP
    ensures Searching(ib, tr.from, t, Top(tr.from.mem, tr.from.regs.rdx))
  {
    hide Reaches, Run, Step, Exec, Rd64, Wr64, Rd32, Wr32, Selects, ResumeClear, Stacked, Agree, FrameClear;
    t := TopScope(tr, ib, s);
    SameRead(tr.from, t, Wrap(t.regs.rcx + EXC_ADDRESS));
    t := tr.DoLoad(t, HAVE_TRYLEVEL, RSI, M(RCX, EXC_ADDRESS));
  }

  /** Reading a field of scope k inside the stub gives what it gave on entry. */
  lemma SameField(tr: Trace, ib: u64, t: Cpu, k: nat, offset: nat)
    requires Assumed(tr, ib) && Inside(tr.from, t) && HasTable(ib, tr.from.mem, tr.from.regs.rdx)
    requires k <= Top(tr.from.mem, tr.from.regs.rdx) && offset <= 12
    ensures var table := Table(tr.from.mem, tr.from.regs.rdx);
            Field(t.mem, table, k, offset) == Field(tr.from.mem, table, k, offset)
  {
    hide Rd64, Rd32, Loaded, Scope, Selects, ResumeClear, Stacked;
    var table := Table(tr.from.mem, tr.from.regs.rdx);
    assert Clear(FieldAt(table, k, offset), 4, tr.from.regs.rsp - STACK, tr.from.regs.rsp + 8);
    SameRead(tr.from, t, FieldAt(table, k, offset));
  }

  lemma FindScope(tr: Trace, ib: u64, s: Cpu, k: nat) returns (t: Cpu)
    requires Loaded(tr, ib) && tr.At(s) && s.pc == 28 && s.regs.r12 == k
    ensures tr.At(t)
    ensures t == s.(regs := s.regs.(rax := t.regs.rax, rdi := Scope(s.regs.rbx, k)), pc := 31)
  {
    hide Reaches, Run, Step, Exec;
    t := tr.DoMove(s, 28, RAX, R12);
    t := tr.DoShl4(t, 29, RAX);
    assert t == s.(regs := s.regs.(rax := Wrap(16 * k)), pc := 30);
    t := tr.DoLea(t, 30, Qword, RDI, MX(RBX, RAX, 4));
  }

  /** Is there a scope k to look at? */
  lemma NextLook(tr: Trace, ib: u64, s: Cpu, k: int) returns (t: Cpu)
    requires Assumed(tr, ib) && tr.At(s) && s.pc == SCOPE_LOOP && Searching(ib, tr.from, s, k)
    ensures tr.At(t) && Searching(ib, tr.from, t, k)
    ensures if k < 0 then t.pc == SEARCH_DONE else t.pc == 31 && Looking(ib, tr.from, t, k)
  {
    hide Reaches, Run, Step, Exec, Rd64, Wr64, Rd32, Wr32, Separate, Stacked, Agree, HasTable, Table, Fault;
    t := tr.IfTest(s, SCOPE_LOOP, Dword, R12, S, SEARCH_DONE);
    if k >= 0 {
      t := FindScope(tr, ib, t, k);
    }
  }

  /** `mov eax, [rdi + offset]` loads a field of the scope being looked at. */
  lemma LoadField(tr: Trace, ib: u64, s: Cpu, pc: int, k: nat, offset: nat) returns (t: Cpu)
    requires Assumed(tr, ib) && tr.At(s) && s.pc == pc && Looking(ib, tr.from, s, k)
    requires offset <= 12 && tr.Line(pc, Mov(Dword, R(RAX), M(RDI, offset)))
    ensures tr.At(t)
    ensures t == s.(regs := s.regs.(rax := Field(tr.from.mem, s.regs.rbx, k, offset)), pc := pc + 1)
  {
    hide Reaches, Run, Step, Exec, Rd64, Rd32, Assumed, Stacked, Agree, HasTable, Table, Fault, Scope;
    SameField(tr, ib, s, k, offset);
    t := tr.DoLoad32(s, pc, RAX, M(RDI, offset));
  }

  lemma RangeTest(tr: Trace, ib: u64, s: Cpu, k: nat) returns (t: Cpu)
    requires Assumed(tr, ib) && tr.At(s) && s.pc == 31 && Looking(ib, tr.from, s, k)
    ensures tr.At(t) && Looking(ib, tr.from, t, k)
    ensures var m, table := tr.from.mem, s.regs.rbx;
            t.pc == if Begin(m, table, k) <= Fault(tr.from) < End(m, table, k) then 37 else NEXT_SCOPE
  {
    hide Reaches, Run, Step, Exec, Separate, Stacked, Agree, HasTable, Table, Fault, Scope, Field;
    t := LoadField(tr, ib, s, 31, k, 0);
    t := tr.IfCompare(t, 32, RSI, RAX, B, NEXT_SCOPE);
    if t.pc == 34 {
      t := LoadField(tr, ib, t, 34, k, 4);
      t := tr.IfCompare(t, 35, RSI, RAX, AE, NEXT_SCOPE);
    }
  }

  lemma FilterTest(tr: Trace, ib: u64, s: Cpu, k: nat) returns (t: Cpu)
    requires Assumed(tr, ib) && tr.At(s) && s.pc == 37 && Looking(ib, tr.from, s, k)
    ensures tr.At(t) && Looking(ib, tr.from, t, k)
    ensures var f := Filter(tr.from.mem, s.regs.rbx, k);
            if f < LOWEST_ADDRESS then t.pc == EXECUTE_HANDLER else t.pc == 42 && t.regs.rax == f
  {
    hide Reaches, Run, Step, Exec, Separate, Stacked, Agree, HasTable, Table, Fault, Scope, Field;
    t := LoadField(tr, ib, s, 37, k, 8);
    t := tr.IfTest(t, 38, Dword, RAX, E, EXECUTE_HANDLER);
    if t.pc == 40 {
      t := tr.IfImmediate(t, 40, Dword, RAX, 0x10000, B, EXECUTE_HANDLER);
    }
  }

  lemma NormalizeFilter(tr: Trace, ib: u64, s: Cpu, k: nat) returns (t: Cpu)
    requires Assumed(tr, ib) && tr.At(s) && s.pc == 42 && Looking(ib, tr.from, s, k)
    requires s.regs.rax < 0x1_0000_0000
    ensures tr.At(t) && Looking(ib, tr.from, t, k) && t.pc == CALL_FILTER && t.regs.rax == Normal(ib, s.regs.rax)
  {
    hide Reaches, Run, Step, Exec, Rd64, Wr64, Rd32, Wr32, Separate, Stacked, Agree, HasTable, Table, Fault, Scope;
    t := tr.IfConstant(s, 42, RAX, ib, AE, CALL_FILTER);
    if t.pc == 45 {
      t := tr.DoAdd(t, 45, RAX, R11);
    }
  }

  lemma CallTheFilter(tr: Trace, ib: u64, s: Cpu, k: nat) returns (t: Cpu)
    requires Assumed(tr, ib) && tr.At(s) && s.pc == CALL_FILTER && Looking(ib, tr.from, s, k)
    ensures tr.At(t) && Looking(ib, tr.from, t, k) && t.pc == 49
    ensures t.regs.rax == tr.w.filter(s.regs.rax, tr.from.regs.rdx).rax
  {
    hide Reaches, Run, Step, Exec, Rd64, Wr64, Rd32, Wr32, Separate, Stacked, HasTable, Table, Fault, Scope;
    var top := tr.from.regs.rsp;
    t := tr.DoSubImmediate(s, CALL_FILTER, RSP, 0x28);
    var m := t.mem;
    t := tr.DoFilter(t, 47, RAX);
    WriteAgree64(m, top - STACK, Wrap(tr.w.text + 48));
    StackedAgree(m, t.mem, top - STACK, top - STACK + 8, top, Saved(tr.from));
    t := tr.DoAddImmediate(t, 48, RSP, 0x28);
  }

  /** Ask the filter of scope k, unless it has none. */
  lemma AskFilter(tr: Trace, ib: u64, s: Cpu, k: nat) returns (t: Cpu)
    requires Assumed(tr, ib) && tr.At(s) && s.pc == 37 && Looking(ib, tr.from, s, k)
    ensures tr.At(t) && Looking(ib, tr.from, t, k)
    ensures var f := Filter(tr.from.mem, s.regs.rbx, k);
            var yes := f < LOWEST_ADDRESS || Low32(tr.w.filter(Normal(ib, f), tr.from.regs.rdx).rax) == 1;
            t.pc == if yes then EXECUTE_HANDLER else NEXT_SCOPE
  {
    hide Reaches, Run, Step, Exec, Separate, Stacked, Agree, HasTable, Table, Fault, Scope, Field;
    t := FilterTest(tr, ib, s, k);
    if t.pc == 42 {
      t := NormalizeFilter(tr, ib, t, k);
      t := CallTheFilter(tr, ib, t, k);
      t := tr.IfImmediate(t, 49, Dword, RAX, 1, E, EXECUTE_HANDLER);
      if t.pc == 51 {
        t := tr.DoJump(t, 51, NEXT_SCOPE - 52);
      }
    }
  }

  /** One turn of the scope loop: scope k takes the exception, or the search goes on below it. */
  lemma Look(tr: Trace, ib: u64, s: Cpu, k: nat) returns (t: Cpu)
    requires Assumed(tr, ib) && tr.At(s) && s.pc == SCOPE_LOOP && Searching(ib, tr.from, s, k)
    ensures tr.At(t)
    ensures if Accepts(tr.w, ib, tr.from.mem, tr.from.regs.rdx, Fault(tr.from), k)
            then t.pc == EXECUTE_HANDLER && Looking(ib, tr.from, t, k)
            else t.pc == SCOPE_LOOP && Searching(ib, tr.from, t, k - 1)
  {
    hide Reaches, Run, Step, Exec, Separate, Stacked, Agree, HasTable, Table, Fault, Scope, Field, Normal;
    t := NextLook(tr, ib, s, k);
    t := RangeTest(tr, ib, t, k);
    if t.pc == 37 {
      t := AskFilter(tr, ib, t, k);
    }
    if t.pc == NEXT_SCOPE {
      t := tr.DoDec(t, NEXT_SCOPE, R12);
      t := tr.DoJump(t, 76, SCOPE_LOOP - 77);
    }
  }

  /** The scope loop stops at the greatest accepting scope from k down, or when there is none. */
  lemma {:induction false} Search(tr: Trace, ib: u64, s: Cpu, k: int) returns (t: Cpu, found: int)
    requires Assumed(tr, ib) && tr.At(s) && s.pc == SCOPE_LOOP && Searching(ib, tr.from, s, k)
    ensures tr.At(t) && -1 <= found <= k
    ensures if found < 0 then t.pc == SEARCH_DONE && Inside(tr.from, t)
            else t.pc == EXECUTE_HANDLER && Looking(ib, tr.from, t, found)
                 && Accepts(tr.w, ib, tr.from.mem, tr.from.regs.rdx, Fault(tr.from), found)
    ensures forall j: nat :: found < j <= k ==>
              !Accepts(tr.w, ib, tr.from.mem, tr.from.regs.rdx, Fault(tr.from), j)
    decreases k
  {
    hide Reaches, Run, Step, Exec, Assumed, Accepts, Inside, HasTable, Table, Fault, Scope;
    if k < 0 {
      t := NextLook(tr, ib, s, k);
      found := -1;
    } else {
      t := Look(tr, ib, s, k);
      found := k;
      if t.pc == SCOPE_LOOP {
        t, found := Search(tr, ib, t, k - 1);
      }
    }
  }

  /** Scope k is taking the exception: m is the guest's memory so far, up to the stub's own stack. */
  ghost predicate Taking(ib: u64, s: Cpu, t: Cpu, k: nat, m: Mem) {
    && HasTable(ib, s.mem, s.regs.rdx) && k <= Top(s.mem, s.regs.rdx)
    && Kept(s, t)
    && t.regs.r10 == s.regs.rdx
    && t.regs.rdi == Scope(Table(s.mem, s.regs.rdx), k)
    && t.teb == s.teb.(exceptionList := Next(s.mem, s.regs.rdx))
    && Stacked(t.mem, s.regs.rsp, Saved(s), 5)
    && Agree(m, t.mem, s.regs.rsp - STACK, s.regs.rsp)
  }

  function Lowered(s: Cpu, k: nat): Mem { Wr32(s.mem, s.regs.rdx + FRAME_TRYLEVEL, Low32(k - 1)) }

  /** What the guest and the stub's own stack see of the lowered try level. */
  lemma LowerTryLevel(tr: Trace, ib: u64, s: Cpu, k: nat)
    requires Assumed(tr, ib) && Looking(ib, tr.from, s, k)
    ensures var f, top := tr.from.regs.rdx, tr.from.regs.rsp;
            var n := Wr32(s.mem, f + FRAME_TRYLEVEL, Low32(k - 1));
            && Agree(Lowered(tr.from, k), n, top - STACK, top)
            && Stacked(n, top, Saved(tr.from), 5)
            && Rd64(n, f) == Next(tr.from.mem, f)
  {
    hide Rd64, Rd32, Wr32, Table, Fault, Scope, Selects, ResumeClear, Loaded;
    var f, top := tr.from.regs.rdx, tr.from.regs.rsp;
    var level := Low32(k - 1);
    WriteBoth32(tr.from.mem, s.mem, top - STACK, top, f + FRAME_TRYLEVEL, level);
    WriteAgree32(s.mem, f + FRAME_TRYLEVEL, level);
    StackedAgree(s.mem, Wr32(s.mem, f + FRAME_TRYLEVEL, level), f + FRAME_TRYLEVEL, f + FRAME_TRYLEVEL + 4, top,
                 Saved(tr.from));
    ReadOther32(s.mem, f + FRAME_TRYLEVEL, level, f);
    SameRead(tr.from, s, f);
  }

  lemma FrameInSpace(tr: Trace, ib: u64)
    requires Assumed(tr, ib) && HasTable(ib, tr.from.mem, tr.from.regs.rdx)
    ensures tr.from.regs.rdx + FRAME_SIZE <= 0x1_0000_0000_0000_0000
  { }

  lemma TakeFrame(tr: Trace, ib: u64, s: Cpu, k: nat) returns (t: Cpu)
    requires Assumed(tr, ib) && tr.At(s) && s.pc == EXECUTE_HANDLER && Looking(ib, tr.from, s, k)
    ensures tr.At(t) && t.pc == 56 && Taking(ib, tr.from, t, k, Lowered(tr.from, k))
  {
    hide Reaches, Run, Step, Exec, Rd64, Rd32, Wr32, Table, Fault, Scope, Stacked, Saved, Agree, HasTable, Separate,
         Lowered;
    FrameInSpace(tr, ib);
    LowerTryLevel(tr, ib, s, k);
    t := tr.DoLea(s, EXECUTE_HANDLER, Dword, RAX, M(R12, -1));
    t := tr.DoStore32(t, 53, M(R10, 0x18), RAX);
    t := tr.DoLoad(t, 54, RAX, M(R10, 0));
    t := tr.DoWriteTeb(t, 55, 0, RAX);
  }

  /** The fields of a scope read the same in memories that differ only in the stub's own stack. */
  lemma FieldAgree(tr: Trace, ib: u64, m: Mem, n: Mem, k: nat, offset: nat)
    requires Assumed(tr, ib) && HasTable(ib, tr.from.mem, tr.from.regs.rdx)
    requires k <= Top(tr.from.mem, tr.from.regs.rdx) && offset <= 12
    requires Agree(m, n, tr.from.regs.rsp - STACK, tr.from.regs.rsp)
    ensures var table := Table(tr.from.mem, tr.from.regs.rdx);
            Field(m, table, k, offset) == Field(n, table, k, offset)
  {
    hide Rd64, Rd32, Loaded, Scope, Selects, ResumeClear;
    var a := FieldAt(Table(tr.from.mem, tr.from.regs.rdx), k, offset);
    assert Clear(a, 4, tr.from.regs.rsp - STACK, tr.from.regs.rsp + 8);
    ReadAgree(m, n, tr.from.regs.rsp - STACK, tr.from.regs.rsp, a);
  }

  lemma LoadTakenField(tr: Trace, ib: u64, s: Cpu, pc: int, k: nat, m: Mem, offset: nat) returns (t: Cpu)
    requires Assumed(tr, ib) && tr.At(s) && s.pc == pc && Taking(ib, tr.from, s, k, m)
    requires offset <= 12 && tr.Line(pc, Mov(Dword, R(RAX), M(RDI, offset)))
    ensures tr.At(t)
    ensures t == s.(regs := s.regs.(rax := Field(m, Table(tr.from.mem, tr.from.regs.rdx), k, offset)), pc := pc + 1)
  {
    hide Reaches, Run, Step, Exec, Rd64, Rd32, Assumed, Stacked, Agree, HasTable, Table, Scope;
    FieldAgree(tr, ib, m, s.mem, k, offset);
    t := tr.DoLoad32(s, pc, RAX, M(RDI, offset));
  }

  lemma ChooseHandler(tr: Trace, ib: u64, s: Cpu, k: nat, m: Mem) returns (t: Cpu)
    requires Assumed(tr, ib) && tr.At(s) && s.pc == 56 && Taking(ib, tr.from, s, k, m)
    ensures tr.At(t) && t.pc == SET_HANDLER_RIP && Taking(ib, tr.from, t, k, m)
    ensures var table := Table(tr.from.mem, tr.from.regs.rdx);
            t.regs.rax == if Handler(m, table, k) < LOWEST_ADDRESS then End(m, table, k) else Handler(m, table, k)
  {
    hide Reaches, Run, Step, Exec, Separate, Stacked, Agree, HasTable, Table, Scope, Field;
    t := LoadTakenField(tr, ib, s, 56, k, m, 12);
    t := tr.IfTest(t, 57, Dword, RAX, E, USE_END_AS_HANDLER);
    if t.pc == 59 {
      t := tr.IfImmediate(t, 59, Dword, RAX, 0x10000, B, USE_END_AS_HANDLER);
      if t.pc == 61 {
        t := tr.DoJump(t, 61, SET_HANDLER_RIP - 62);
      }
    }
    if t.pc == USE_END_AS_HANDLER {
      t := LoadTakenField(tr, ib, t, USE_END_AS_HANDLER, k, m, 4);
    }
  }

  lemma NormalizeHandler(tr: Trace, ib: u64, s: Cpu, k: nat, m: Mem) returns (t: Cpu)
    requires Assumed(tr, ib) && tr.At(s) && s.pc == SET_HANDLER_RIP && Taking(ib, tr.from, s, k, m)
    requires s.regs.rax < 0x1_0000_0000
    ensures tr.At(t) && t.pc == RIP_OK && Taking(ib, tr.from, t, k, m) && t.regs.rax == Normal(ib, s.regs.rax)
  {
    hide Reaches, Run, Step, Exec, Separate, Stacked, Agree, HasTable, Table, Scope;
    t := tr.IfConstant(s, SET_HANDLER_RIP, RAX, ib, AE, RIP_OK);
    if t.pc == 66 {
      t := tr.DoAdd(t, 66, RAX, R11);
    }
  }

  /** A 64-bit store into the thread context, seen by the guest and by the stub's own stack. */
  lemma StoreContext(tr: Trace, ib: u64, s: Cpu, pc: int, k: nat, m: Mem, offset: int, r: Reg) returns (t: Cpu)
    requires Assumed(tr, ib) && tr.At(s) && s.pc == pc && Taking(ib, tr.from, s, k, m)
    requires 0 <= offset <= CTX_RIP && tr.Line(pc, Mov(Qword, M(R8, offset), R(r)))
    ensures tr.At(t) && Taking(ib, tr.from, t, k, Wr64(m, tr.from.regs.r8 + offset, s.regs.Get(r)))
    ensures t.regs == s.regs && t.pc == pc + 1
  {
    hide Reaches, Run, Step, Exec, Rd64, Rd32, Wr64, HasTable, Table, Scope, FrameClear, Selects, ResumeClear, Loaded;
    var a, v, top := tr.from.regs.r8 + offset, s.regs.Get(r), tr.from.regs.rsp;
    WriteBoth64(m, s.mem, top - STACK, top, a, v);
    WriteAgree64(s.mem, a, v);
    StackedAgree(s.mem, Wr64(s.mem, a, v), a, a + 8, top, Saved(tr.from));
    hide Stacked, Agree;
    t := tr.DoStore(s, pc, M(R8, offset), r);
  }

  lemma LoadThroughFrame(tr: Trace, ib: u64, s: Cpu) returns (t: Cpu)
    requires Loaded(tr, ib) && tr.At(s) && s.pc == 68 && s.regs.r8 + CTX_SIZE <= 0x1_0000_0000_0000_0000
    ensures tr.At(t) && t == s.(regs := s.regs.(r11 := ResumeStack(s.mem, s.regs.r8)), pc := 70)
  {
    hide Reaches, Run, Step, Exec, Rd64;
    t := tr.DoLoad(s, 68, R11, M(R8, CTX_RBP));
    t := tr.DoLoad(t, 69, R11, M(R11, -0x18));
  }

  lemma LoadResumeStack(tr: Trace, ib: u64, s: Cpu, k: nat, m: Mem) returns (t: Cpu)
    requires Assumed(tr, ib) && tr.At(s) && s.pc == 68 && Taking(ib, tr.from, s, k, m)
    requires Clear(Wrap(Rd64(m, tr.from.regs.r8 + CTX_RBP) - 0x18), 8, tr.from.regs.rsp - STACK, tr.from.regs.rsp)
    ensures tr.At(t) && t.pc == 70 && Taking(ib, tr.from, t, k, m)
    ensures t.regs.r11 == ResumeStack(m, tr.from.regs.r8)
  {
    hide Reaches, Run, Step, Exec, Rd64, HasTable, Table, Scope, FrameClear, Selects, ResumeClear, Stacked;
    var lo, hi := tr.from.regs.rsp - STACK, tr.from.regs.rsp;
    ReadAgree(m, s.mem, lo, hi, tr.from.regs.r8 + CTX_RBP);
    ReadAgree(m, s.mem, lo, hi, Wrap(Rd64(m, tr.from.regs.r8 + CTX_RBP) - 0x18));
    hide Agree, Wrap;
    t := LoadThroughFrame(tr, ib, s);
  }

  lemma AssumedLoaded(tr: Trace, ib: u64)
    requires Assumed(tr, ib)
    ensures Loaded(tr, ib)
  { }

  /** The frame and the resume address. */
  lemma TakeResume(tr: Trace, ib: u64, s: Cpu, k: nat) returns (t: Cpu)
    requires Assumed(tr, ib) && tr.At(s) && s.pc == EXECUTE_HANDLER && Looking(ib, tr.from, s, k)
    ensures tr.At(t) && t.pc == 68
    ensures var m1 := Lowered(tr.from, k);
            var rip := ResumeAt(ib, m1, Table(tr.from.mem, tr.from.regs.rdx), k);
            Taking(ib, tr.from, t, k, Wr64(m1, tr.from.regs.r8 + CTX_RIP, rip))
  {
    hide Reaches, Run, Step, Exec, Wr64, Assumed, HasTable, Table, Field, Looking, Taking, Lowered;
    assert Loaded(tr, ib) by { AssumedLoaded(tr, ib); }
    var m1 := Lowered(tr.from, k);
    t := TakeFrame(tr, ib, s, k);
    t := ChooseHandler(tr, ib, t, k, m1);
    t := NormalizeHandler(tr, ib, t, k, m1);
    t := StoreContext(tr, ib, t, RIP_OK, k, m1, CTX_RIP, RAX);
  }

  /** The resume stack pointer. */
  lemma TakeStack(tr: Trace, ib: u64, s: Cpu, k: nat, m: Mem) returns (t: Cpu)
    requires Assumed(tr, ib) && tr.At(s) && s.pc == 68 && Taking(ib, tr.from, s, k, m)
    requires Clear(Wrap(Rd64(m, tr.from.regs.r8 + CTX_RBP) - 0x18), 8, tr.from.regs.rsp - STACK, tr.from.regs.rsp)
    ensures tr.At(t) && t.pc == 71
    ensures Taking(ib, tr.from, t, k, Wr64(m, tr.from.regs.r8 + CTX_RSP, ResumeStack(m, tr.from.regs.r8)))
  {
    hide Reaches, Run, Step, Exec, Rd64, Wr64, Assumed, Taking, ResumeStack;
    AssumedLoaded(tr, ib);
    t := LoadResumeStack(tr, ib, s, k, m);
    t := StoreContext(tr, ib, t, 70, k, m, CTX_RSP, R11);
  }

  lemma AnswerZero(tr: Trace, ib: u64, s: Cpu, k: nat, m: Mem) returns (t: Cpu)
    requires Assumed(tr, ib) && tr.At(s) && s.pc == 73 && Taking(ib, tr.from, s, k, m)
    ensures tr.At(t) && t.pc == EPILOG && t.regs.rax == 0 && Taking(ib, tr.from, t, k, m)
  {
    hide Reaches, Run, Step, Exec, Rd64, Wr64, Separate, Stacked, Agree, HasTable, Table, Scope;
    t := tr.DoZero(s, 73, RAX);
    t := tr.DoJump(t, 74, EPILOG - 75);
  }

  /** The resume frame pointer, and the answer 0. */
  lemma TakeFramePointer(tr: Trace, ib: u64, s: Cpu, k: nat, m: Mem) returns (t: Cpu)
    requires Assumed(tr, ib) && tr.At(s) && s.pc == 71 && Taking(ib, tr.from, s, k, m)
    ensures tr.At(t) && t.pc == EPILOG && t.regs.rax == 0
    ensures Taking(ib, tr.from, t, k, Wr64(m, tr.from.regs.r8 + CTX_RBP, Wrap(tr.from.regs.rdx + FRAME_SIZE)))
  {
    hide Reaches, Run, Step, Exec, Rd64, Wr64, Separate, Stacked, Agree, HasTable, Table, Scope;
    t := tr.DoLea(s, 71, Qword, R11, M(R10, 0x20));
    t := StoreContext(tr, ib, t, 72, k, m, CTX_RBP, R11);
    t := AnswerZero(tr, ib, t, k, Wr64(m, tr.from.regs.r8 + CTX_RBP, Wrap(tr.from.regs.rdx + FRAME_SIZE)));
  }

  lemma ResumeSlotClear(tr: Trace, ib: u64, s: Cpu, k: nat)
    requires Assumed(tr, ib) && Looking(ib, tr.from, s, k)
    requires Selects(tr.w, ib, tr.from.mem, tr.from.regs.rdx, Fault(tr.from), k)
    ensures ResumeClear(ib, tr.from.mem, tr.from.regs.rdx, tr.from.regs.r8, k,
                        tr.from.regs.rsp - STACK, tr.from.regs.rsp + 8)
  {
    hide ResumeClear, Selects, HasTable, FrameClear, Loaded;
  }

  /** Everything that taking scope k writes, up to the common epilogue. */
  lemma Take(tr: Trace, ib: u64, s: Cpu, k: nat) returns (t: Cpu)
    requires Assumed(tr, ib) && tr.At(s) && s.pc == EXECUTE_HANDLER && Looking(ib, tr.from, s, k)
    requires Selects(tr.w, ib, tr.from.mem, tr.from.regs.rdx, Fault(tr.from), k)
    ensures tr.At(t) && t.pc == EPILOG && t.regs.rax == 0
    ensures var f := tr.from.regs.rdx;
            Taking(ib, tr.from, t, k, Taken(ib, tr.from.mem, f, tr.from.regs.r8, Table(tr.from.mem, f), k))
  {
    var f, ctx := tr.from.regs.rdx, tr.from.regs.r8;
    hide Reaches, Rd64, Wr64, Wr32, Assumed, HasTable, Table, Fault, Looking, Taking, ResumeAt, Selects;
    ResumeSlotClear(tr, ib, s, k);
    var m1 := Lowered(tr.from, k);
    var m2 := Wr64(m1, ctx + CTX_RIP, ResumeAt(ib, m1, Table(tr.from.mem, f), k));
    t := TakeResume(tr, ib, s, k);
    t := TakeStack(tr, ib, t, k, m2);
    t := TakeFramePointer(tr, ib, t, k, Wr64(m2, ctx + CTX_RSP, ResumeStack(m2, ctx)));
  }

  /** Back in the caller with its registers as they were. */
  ghost predicate Returned(w: World, s: Cpu, t: Cpu) {
    && t.status == Machine.Running
    && t.pc == Rd64(s.mem, s.regs.rsp) - w.text
    && t.regs.rsp == Wrap(s.regs.rsp + 8)
    && t.regs.rbx == s.regs.rbx && t.regs.rsi == s.regs.rsi && t.regs.rdi == s.regs.rdi
    && t.regs.rbp == s.regs.rbp && t.regs.r12 == s.regs.r12 && t.regs.r13 == s.regs.r13
    && t.regs.r14 == s.regs.r14 && t.regs.r15 == s.regs.r15
  }

  lemma SavedWords(s: Cpu, m: Mem)
    requires Stacked(m, s.regs.rsp, Saved(s), 5)
    ensures var top, r := s.regs.rsp, s.regs;
            && Rd64(m, top - 40) == r.r13 && Rd64(m, top - 32) == r.r12 && Rd64(m, top - 24) == r.rdi
            && Rd64(m, top - 16) == r.rsi && Rd64(m, top - 8) == r.rbx
  {
    hide Rd64;
    var vs := Saved(s);
    assert vs[4] == s.regs.r13 && vs[3] == s.regs.r12 && vs[2] == s.regs.rdi && vs[1] == s.regs.rsi
        && vs[0] == s.regs.rbx;
  }

  lemma PopThree(tr: Trace, ib: u64, s: Cpu) returns (t: Cpu)
    requires Loaded(tr, ib) && Entry(ib, tr.from)
    requires tr.At(s) && s.pc == EPILOG && Kept(tr.from, s)
    requires Stacked(s.mem, tr.from.regs.rsp, Saved(tr.from), 5)
    ensures var r := tr.from.regs;
            tr.At(t) && t.pc == 81 && t ==
                s.(regs := s.regs.(rsp := r.rsp - 16, r13 := r.r13, r12 := r.r12, rdi := r.rdi), pc := 81)
  {
    hide Reaches, Run, Step, Exec, Rd64, Stacked;
    SavedWords(tr.from, s.mem);
    t := tr.DoPop(s, 78, R13);
    t := tr.DoPop(t, 79, R12);
    t := tr.DoPop(t, 80, RDI);
  }

  lemma Epilogue(tr: Trace, ib: u64, s: Cpu) returns (t: Cpu)
    requires Loaded(tr, ib) && Entry(ib, tr.from)
    requires tr.At(s) && s.pc == EPILOG && Kept(tr.from, s)
    requires Stacked(s.mem, tr.from.regs.rsp, Saved(tr.from), 5)
    requires Rd64(s.mem, tr.from.regs.rsp) == Rd64(tr.from.mem, tr.from.regs.rsp)
    ensures tr.At(t) && Returned(tr.w, tr.from, t)
    ensures t.mem == s.mem && t.teb == s.teb && t.regs.rax == s.regs.rax
  {
    hide Reaches, Run, Step, Exec, Rd64, Stacked;
    SavedWords(tr.from, s.mem);
    t := PopThree(tr, ib, s);
    t := tr.DoPop(t, 81, RSI);
    t := tr.DoPop(t, 82, RBX);
    t := tr.DoRet(t, 83);
  }

  /**
   What a call may change. It answers 0 exactly when the frame serves the exception, and then memory is
   as `Taken` says for the selected scope and the chain head is the next frame; otherwise it answers 1.
   Nothing else changes but the stack below the caller's.
   */
  ghost predicate Outcome(w: World, ib: u64, s: Cpu, t: Cpu) {
    var f, lo, hi := s.regs.rdx, s.regs.rsp - STACK, s.regs.rsp;
    if Serves(w, ib, s.mem, f, Fault(s)) then
      && t.regs.rax == 0
      && t.teb == s.teb.(exceptionList := Next(s.mem, f))
      && exists k :: Selects(w, ib, s.mem, f, Fault(s), k)
           && Agree(Taken(ib, s.mem, f, s.regs.r8, Table(s.mem, f), k), t.mem, lo, hi)
    else t.regs.rax == 1 && t.teb == s.teb && Agree(s.mem, t.mem, lo, hi)
  }

  lemma Declined(tr: Trace, ib: u64, s: Cpu) returns (t: Cpu)
    requires Assumed(tr, ib) && tr.At(s) && s.pc == SEARCH_DONE && Inside(tr.from, s)
    ensures tr.At(t) && Returned(tr.w, tr.from, t)
    ensures t.regs.rax == 1 && t.teb == tr.from.teb
    ensures Agree(tr.from.mem, t.mem, tr.from.regs.rsp - STACK, tr.from.regs.rsp)
  {
    hide Reaches, Run, Step, Exec, Rd64, Separate, Stacked, Agree;
    SameRead(tr.from, s, tr.from.regs.rsp);
    t := tr.DoImmediate(s, SEARCH_DONE, Dword, RAX, 1);
    t := Epilogue(tr, ib, t);
  }

  lemma Accepted(tr: Trace, ib: u64, s: Cpu, k: nat) returns (t: Cpu)
    requires Assumed(tr, ib) && tr.At(s) && s.pc == EXECUTE_HANDLER && Looking(ib, tr.from, s, k)
    requires Selects(tr.w, ib, tr.from.mem, tr.from.regs.rdx, Fault(tr.from), k)
    ensures tr.At(t) && Returned(tr.w, tr.from, t)
    ensures t.regs.rax == 0 && t.teb == tr.from.teb.(exceptionList := Next(tr.from.mem, tr.from.regs.rdx))
    ensures var f := tr.from.regs.rdx;
            Agree(Taken(ib, tr.from.mem, f, tr.from.regs.r8, Table(tr.from.mem, f), k), t.mem,
                  tr.from.regs.rsp - STACK, tr.from.regs.rsp)
  {
    var f, ctx, top := tr.from.regs.rdx, tr.from.regs.r8, tr.from.regs.rsp;
    var n := Taken(ib, tr.from.mem, f, ctx, Table(tr.from.mem, f), k);
    TakenApart(ib, tr.from.mem, f, ctx, Table(tr.from.mem, f), k, top);
    hide Reaches, Run, Step, Exec, Rd64, Separate, Stacked, Taken, Selects, Table, HasTable;
    t := Take(tr, ib, s, k);
    ReadAgree(n, t.mem, top - STACK, top, top);
    t := Epilogue(tr, ib, t);
  }

  /** Every run of the stub returns to its caller with that outcome. */
  lemma ExceptHandlerRun(tr: Trace, ib: u64) returns (t: Cpu)
    requires Assumed(tr, ib)
    ensures tr.At(t) && Returned(tr.w, tr.from, t) && Outcome(tr.w, ib, tr.from, t)
  {
    hide Reaches, Loaded, Entry, Separate, Inside, Accepts, HasTable, Taken, Rd64, Agree, Returned;
    var f := tr.from.regs.rdx;
    t := Prologue(tr, ib);
    t := Gate(tr, ib, t);
    var found := -1;
    if HasTable(ib, tr.from.mem, f) {
      t := StartSearch(tr, ib, t);
      t, found := Search(tr, ib, t, Top(tr.from.mem, f));
    }
    if found >= 0 {
      t := Accepted(tr, ib, t, found);
    } else {
      t := Declined(tr, ib, t);
    }
  }
}
