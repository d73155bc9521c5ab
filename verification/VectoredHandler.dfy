/** The listing of the vectored exception handler, at text offset 100, and what a run of it does. */
module VectoredHandler {
  import opened Wrappers
  import opened Words
  import opened Memory
  import opened Machine
  import opened Stepping
  import opened Frames
  import opened ScopeTables
  import opened Chains
  import Eh3 = ExceptHandler3

  const CHAIN_LOOP := 111
  const CHECK_SHIM_HANDLER := 148
  const HANDLER_OK := 151
  const CHECK_SEARCH := 162
  const NEXT_FRAME := 165
  const CONTINUE_SEARCH := 170
  const DONE := 178

  /** Saves seven registers and takes the head of the chain. */
  function EntryCode(c: Config, pc: int): Instr {
    match pc
    case 100 => Push(RBX)
    case 101 => Push(RSI)
    case 102 => Push(RDI)
    case 103 => Push(R12)
    case 104 => Push(R13)
    case 105 => Push(R14)
    case 106 => Push(R15)
    case 107 => Mov(Qword, R(RBX), R(RCX))
    case 108 => Mov(Qword, R(R15), I(c.handler))
    case 109 => Mov(Qword, R(R14), Gs(0))
    case 110 => Alu(Xor, Dword, R(R13), R(R13))
    case _ => Int3
  }

  /** Is there a link left, and is it an aligned address on the stack? */
  function LinkCode(c: Config, pc: int): Instr {
    match pc
    // chain_loop:
    case 111 => Inc(R13)
    case 112 => Alu(Cmp, Dword, R(R13), I(64))
    case 113 => To(Above, pc, CONTINUE_SEARCH)
    case 114 => Alu(Test, Qword, R(R14), R(R14))
    case 115 => To(E, pc, CONTINUE_SEARCH)
    case 116 => Alu(Cmp, Qword, R(R14), I(-1))
    case 117 => To(E, pc, CONTINUE_SEARCH)
    case 118 => Alu(Cmp, Qword, R(R14), I(0x10000))
    case 119 => To(B, pc, CONTINUE_SEARCH)
    case 120 => Alu(Test, Byte, R(R14), I(7))
    case 121 => To(NE, pc, NEXT_FRAME)
    case 122 => Mov(Qword, R(RAX), Gs(8))
    case 123 => Alu(Cmp, Qword, R(R14), R(RAX))
    case 124 => To(AE, pc, NEXT_FRAME)
    case 125 => Mov(Qword, R(RAX), Gs(0x10))
    case 126 => Alu(Cmp, Qword, R(R14), R(RAX))
    case 127 => To(B, pc, NEXT_FRAME)
    case _ => Int3
  }

  /** Does the frame carry a trusted scope table? */
  function TableCode(c: Config, pc: int): Instr {
    match pc
    case 128 => Mov(Qword, R(RAX), M(R14, 0x10))
    case 129 => Alu(Test, Qword, R(RAX), R(RAX))
    case 130 => To(E, pc, NEXT_FRAME)
    case 131 => Mov(Qword, R(R11), I(c.scopeLo))
    case 132 => Alu(Cmp, Qword, R(RAX), R(R11))
    case 133 => To(B, pc, NEXT_FRAME)
    case 134 => Mov(Qword, R(R11), I(c.scopeHi))
    case 135 => Alu(Cmp, Qword, R(RAX), R(R11))
    case 136 => To(AE, pc, NEXT_FRAME)
    case 137 => Alu(Cmp, Dword, M(RAX, 0), I(-1))
    case 138 => To(NE, pc, NEXT_FRAME)
    case _ => Int3
  }

  /** Does it carry a trusted handler? */
  function HandlerCode(c: Config, pc: int): Instr {
    match pc
    case 139 => Mov(Qword, R(RAX), M(R14, 8))
    case 140 => Alu(Test, Qword, R(RAX), R(RAX))
    case 141 => To(E, pc, NEXT_FRAME)
    case 142 => Mov(Qword, R(R11), I(c.scopeLo))
    case 143 => Alu(Cmp, Qword, R(RAX), R(R11))
    case 144 => To(B, pc, CHECK_SHIM_HANDLER)
    case 145 => Mov(Qword, R(R11), I(c.scopeHi))
    case 146 => Alu(Cmp, Qword, R(RAX), R(R11))
    case 147 => To(B, pc, HANDLER_OK)
    // check_shim_handler:
    case 148 => Mov(Qword, R(R11), I(c.handler))
    case 149 => Alu(Cmp, Qword, R(RAX), R(R11))
    case 150 => To(NE, pc, NEXT_FRAME)
    case _ => Int3
  }

  /** Calls _except_handler3 and looks at its answer. */
  function OfferCode(c: Config, pc: int): Instr {
    match pc
    // handler_ok:
    case 151 => Mov(Qword, R(RCX), M(RBX, 0))
    case 152 => Mov(Qword, R(RDX), R(R14))
    case 153 => Mov(Qword, R(R8), M(RBX, 8))
    case 154 => Alu(Xor, Dword, R(R9), R(R9))
    case 155 => Alu(Sub, Qword, R(RSP), I(0x20))
    case 156 => Call(R15)
    case 157 => Alu(Add, Qword, R(RSP), I(0x20))
    case 158 => Alu(Test, Dword, R(RAX), R(RAX))
    case 159 => To(NE, pc, CHECK_SEARCH)
    case 160 => Mov(Dword, R(RAX), I(-1))
    case 161 => Goto(pc, DONE)
    // check_search:
    case 162 => Alu(Cmp, Dword, R(RAX), I(1))
    case 163 => To(E, pc, NEXT_FRAME)
    case 164 => Goto(pc, CONTINUE_SEARCH)
    case _ => Int3
  }

  /** The next link, or the end of the search. */
  function NextCode(c: Config, pc: int): Instr {
    match pc
    // next_frame:
    case 165 => Mov(Qword, R(RAX), M(R14, 0))
    case 166 => Alu(Cmp, Qword, R(RAX), R(R14))
    case 167 => To(E, pc, CONTINUE_SEARCH)
    case 168 => Mov(Qword, R(R14), R(RAX))
    case 169 => Goto(pc, CHAIN_LOOP)
    // continue_search:
    case 170 => Alu(Or, Qword, R(R10), I(-1))
    case 171 => Mov(Qword, R(RAX), M(RBX, 0))
    case 172 => Mov(Dword, R(RDX), M(RAX, 0))
    case 173 => Mov(Dword, R(RAX), I(0x2C))
    case 174 => Syscall
    case 175 => Alu(Test, Dword, R(RAX), R(RAX))
    case 176 => To(E, pc, DONE)
    case 177 => Alu(Xor, Dword, R(RAX), R(RAX))
    case _ => Int3
  }

  /** Restores the registers. */
  function ExitCode(c: Config, pc: int): Instr {
    match pc
    // done:
    case 178 => Pop(R15)
    case 179 => Pop(R14)
    case 180 => Pop(R13)
    case 181 => Pop(R12)
    case 182 => Pop(RDI)
    case 183 => Pop(RSI)
    case 184 => Pop(RBX)
    case 185 => Ret
    case _ => Int3
  }

  function Listing(c: Config, pc: int): Instr {
    if pc < 111 then EntryCode(c, pc)
    else if pc < 128 then LinkCode(c, pc)
    else if pc < 139 then TableCode(c, pc)
    else if pc < 151 then HandlerCode(c, pc)
    else if pc < 165 then OfferCode(c, pc)
    else if pc < 178 then NextCode(c, pc)
    else ExitCode(c, pc)
  }

  ghost predicate Loaded(tr: Trace, c: Config) {
    && Eh3.Loaded(tr, c.ib)
    && forall pc: int :: 100 <= pc <= 185 ==> tr.code(pc) == Fetch(Listing(c, pc), pc + 1)
  }

  /** Seven saved registers, a callee's home space and return address, and what _except_handler3 uses. */
  const DEPTH := 184

  /** Entry from the system's exception dispatcher with the record and the context of the exception behind rcx. */
  ghost predicate Entry(w: World, c: Config, s: Cpu) {
    && s.status == Running && s.pc == 100
    && c.ib + IMAGE_SPAN < 0x1_0000_0000_0000_0000
    && c.handler == w.text && w.text + 200 <= 0x1_0000_0000_0000_0000
    && DEPTH <= s.regs.rsp && s.regs.rsp + 8 <= 0x1_0000_0000_0000_0000
    && s.regs.rcx + 16 <= 0x1_0000_0000_0000_0000
  }

  function Record(s: Cpu): u64 { Rd64(s.mem, s.regs.rcx) }

  function Context(s: Cpu): u64 { Rd64(s.mem, s.regs.rcx + 8) }

  function FaultAddress(s: Cpu): u64 { Rd64(s.mem, Wrap(Record(s) + EXC_ADDRESS)) }

  /** Nothing the handler looks at or changes for the thread overlaps the stack it uses itself. */
  ghost predicate Separate(w: World, c: Config, s: Cpu) {
    var lo, hi := s.regs.rsp - DEPTH, s.regs.rsp + 8;
    && Clear(s.regs.rcx, 16, lo, hi)
    && Clear(Wrap(Record(s) + EXC_ADDRESS), 8, lo, hi)
    && ChainClear(w, c, s.teb, s.mem, s.teb.exceptionList, FaultAddress(s), Context(s), MAX_LINKS, lo, hi)
  }

  ghost predicate Assumed(tr: Trace, c: Config) {
    Loaded(tr, c) && Entry(tr.w, c, tr.from) && Separate(tr.w, c, tr.from)
  }

  function Saved(s: Cpu): (vs: seq<u64>)
    ensures |vs| == 7
  {
    [s.regs.rbx, s.regs.rsi, s.regs.rdi, s.regs.r12, s.regs.r13, s.regs.r14, s.regs.r15]
  }

  /** Between prologue and epilogue. */
  ghost predicate Kept(s: Cpu, t: Cpu) {
    && t.regs.rsp == s.regs.rsp - 56
    && t.regs.rbp == s.regs.rbp
    && Stacked(t.mem, s.regs.rsp, Saved(s), 7)
    && Rd64(t.mem, s.regs.rsp) == Rd64(s.mem, s.regs.rsp)
  }

  /** Walking: nothing but the stack below the dispatcher's has changed. */
  ghost predicate Walking(s: Cpu, t: Cpu) {
    && Kept(s, t)
    && t.regs.rbx == s.regs.rcx
    && t.teb == s.teb
    && Agree(s.mem, t.mem, s.regs.rsp - DEPTH, s.regs.rsp)
  }

  /** The first n registers are saved. */
  ghost predicate Saving(s: Cpu, t: Cpu, n: nat) {
    && 8 * n <= s.regs.rsp
    && t == s.(regs := s.regs.(rsp := s.regs.rsp - 8 * n), mem := t.mem, pc := 100 + n)
    && Stacked(t.mem, s.regs.rsp, Saved(s), n)
    && Agree(s.mem, t.mem, s.regs.rsp - DEPTH, s.regs.rsp)
  }

  lemma SavingNone(s: Cpu)
    requires s.pc == 100
    ensures Saving(s, s, 0)
  { }

  lemma SaveOne(tr: Trace, s: Cpu, n: nat, r: Reg) returns (t: Cpu)
    requires n < 7 && tr.At(s) && Saving(tr.from, s, n) && DEPTH <= tr.from.regs.rsp
    requires tr.Line(100 + n, Push(r)) && r != RSP && tr.from.regs.Get(r) == Saved(tr.from)[n]
    ensures tr.At(t) && Saving(tr.from, t, n + 1)
  {
    hide Reaches, Run, Step, Exec, Rd64, Wr64, Saved, Stacked;
    var top := tr.from.regs.rsp;
    t := tr.DoPush(s, 100 + n, r);
    StackedPush(s.mem, top, Saved(tr.from), n);
  }

  lemma Prologue(tr: Trace, c: Config) returns (t: Cpu)
    requires Loaded(tr, c) && Entry(tr.w, c, tr.from)
    ensures tr.At(t) && t.pc == 107
    ensures t == tr.from.(regs := tr.from.regs.(rsp := tr.from.regs.rsp - 56), mem := t.mem, pc := 107)
    ensures Stacked(t.mem, tr.from.regs.rsp, Saved(tr.from), 7)
    ensures Agree(tr.from.mem, t.mem, tr.from.regs.rsp - DEPTH, tr.from.regs.rsp)
  {
    hide Reaches, Run, Step, Exec, Rd64, Wr64, Eh3.Loaded, Stacked, Agree;
    tr.Begin();
    assert Saving(tr.from, tr.from, 0) by { SavingNone(tr.from); }
    t := SaveOne(tr, tr.from, 0, RBX);
    t := SaveOne(tr, t, 1, RSI);
    t := SaveOne(tr, t, 2, RDI);
    t := SaveOne(tr, t, 3, R12);
    t := SaveOne(tr, t, 4, R13);
    t := SaveOne(tr, t, 5, R14);
    t := SaveOne(tr, t, 6, R15);
  }

  /** At the head of the chain loop with n looks left. */
  ghost predicate AtLink(c: Config, s: Cpu, t: Cpu, n: nat) {
    n <= MAX_LINKS && t.pc == CHAIN_LOOP && Walking(s, t) && t.regs.r15 == c.handler && t.regs.r13 == MAX_LINKS - n
  }

  lemma StartWalk(tr: Trace, c: Config) returns (t: Cpu)
    requires Loaded(tr, c) && Entry(tr.w, c, tr.from)
    ensures tr.At(t) && AtLink(c, tr.from, t, MAX_LINKS) && t.regs.r14 == tr.from.teb.exceptionList
  {
    hide Reaches, Run, Step, Exec, Rd64, Wr64, Stacked, Agree, Eh3.Loaded, Saved;
    t := Prologue(tr, c);
    ReadAgree(tr.from.mem, t.mem, tr.from.regs.rsp - DEPTH, tr.from.regs.rsp, tr.from.regs.rsp);
    t := tr.DoMove(t, 107, RBX, RCX);
    t := tr.DoImmediate(t, 108, Qword, R15, c.handler);
    t := tr.DoReadTeb(t, 109, R14, 0);
    t := tr.DoZero(t, 110, R13);
  }

  lemma SameRead(c: Config, s: Cpu, t: Cpu, a: int)
    requires Walking(s, t)
    ensures Clear(a, 8, s.regs.rsp - DEPTH, s.regs.rsp) ==> Rd64(t.mem, a) == Rd64(s.mem, a)
    ensures Clear(a, 4, s.regs.rsp - DEPTH, s.regs.rsp) ==> Rd32(t.mem, a) == Rd32(s.mem, a)
  {
    hide Rd64, Rd32, Stacked;
    ReadAgree(s.mem, t.mem, s.regs.rsp - DEPTH, s.regs.rsp, a);
  }

  lemma LookAtValue(tr: Trace, c: Config, s: Cpu) returns (t: Cpu)
    requires Loaded(tr, c) && tr.At(s) && s.pc == 116
    ensures tr.At(t) && t == s.(flags := t.flags, pc := if Live(s.regs.r14) then 120 else CONTINUE_SEARCH)
  {
    hide Reaches, Run, Step, Exec, Rd64, Wr64, Eh3.Loaded;
    t := tr.IfImmediate(s, 116, Qword, R14, -1, E, CONTINUE_SEARCH);
    if t.pc == 118 {
      t := tr.IfImmediate(t, 118, Qword, R14, 0x10000, B, CONTINUE_SEARCH);
    }
  }

  lemma CountLink(tr: Trace, c: Config, s: Cpu, n: nat) returns (t: Cpu)
    requires Loaded(tr, c) && tr.At(s) && s.pc == CHAIN_LOOP && n <= MAX_LINKS && s.regs.r13 == MAX_LINKS - n
    ensures tr.At(t)
    ensures t == s.(regs := s.regs.(r13 := MAX_LINKS - n + 1), flags := t.flags,
                    pc := if n == 0 then CONTINUE_SEARCH else 114)
  {
    hide Reaches, Run, Step, Exec, Rd64, Wr64, Eh3.Loaded;
    t := tr.DoInc(s, CHAIN_LOOP, R13);
    t := tr.IfImmediate(t, 112, Dword, R13, 64, Above, CONTINUE_SEARCH);
  }

  /** Is there a link left to look at? */
  lemma LookAtLink(tr: Trace, c: Config, s: Cpu, n: nat) returns (t: Cpu)
    requires Loaded(tr, c) && tr.At(s) && AtLink(c, tr.from, s, n)
    ensures tr.At(t) && Walking(tr.from, t) && t.regs.r14 == s.regs.r14
    ensures t.regs.r15 == c.handler
    ensures if n == 0 || !Live(s.regs.r14) then t.pc == CONTINUE_SEARCH
            else t.pc == 120 && t.regs.r13 == MAX_LINKS - (n - 1)
  {
    hide Reaches, Run, Step, Exec, Rd64, Wr64, Stacked, Agree, Eh3.Loaded, Saved;
    t := CountLink(tr, c, s, n);
    if t.pc == 114 {
      t := tr.IfTest(t, 114, Qword, R14, E, CONTINUE_SEARCH);
      if t.pc == 116 {
        t := LookAtValue(tr, c, t);
      }
    }
  }

  /** Only scratch registers differ. */
  ghost predicate Glanced(s: Cpu, t: Cpu) {
    t == s.(regs := s.regs.(rax := t.regs.rax, r11 := t.regs.r11), flags := t.flags, pc := t.pc)
  }

  lemma CheckStack(tr: Trace, c: Config, s: Cpu) returns (t: Cpu)
    requires Loaded(tr, c) && tr.At(s) && s.pc == 120
    ensures tr.At(t) && Glanced(s, t)
    ensures var f := s.regs.r14;
            t.pc == if f % 8 == 0 && s.teb.stackLimit <= f < s.teb.stackBase then 128 else NEXT_FRAME
  {
    hide Reaches, Run, Step, Exec, Rd64, Wr64, Eh3.Loaded;
    t := tr.UnlessAligned(s, 120, R14, NEXT_FRAME);
    if t.pc == 122 {
      t := tr.DoReadTeb(t, 122, RAX, 8);
      t := tr.IfCompare(t, 123, R14, RAX, AE, NEXT_FRAME);
      if t.pc == 125 {
        t := tr.DoReadTeb(t, 125, RAX, 0x10);
        t := tr.IfCompare(t, 126, R14, RAX, B, NEXT_FRAME);
      }
    }
  }

  lemma CheckTableValue(tr: Trace, c: Config, s: Cpu) returns (t: Cpu)
    requires Loaded(tr, c) && tr.At(s) && s.pc == 131
    ensures tr.At(t) && Glanced(s, t)
    ensures var table := s.regs.rax;
            t.pc == if Trusted(c, table) && Rd32(s.mem, table) == 0xFFFF_FFFF then 139 else NEXT_FRAME
  {
    hide Reaches, Run, Step, Exec, Rd64, Rd32, Eh3.Loaded;
    t := tr.IfConstant(s, 131, RAX, c.scopeLo, B, NEXT_FRAME);
    if t.pc == 134 {
      t := tr.IfConstant(t, 134, RAX, c.scopeHi, AE, NEXT_FRAME);
      if t.pc == 137 {
        t := tr.UnlessOnes(t, 137, RAX, NEXT_FRAME);
      }
    }
  }

  lemma CheckTable(tr: Trace, c: Config, s: Cpu) returns (t: Cpu)
    requires Loaded(tr, c) && tr.At(s) && s.pc == 128
    ensures tr.At(t) && Glanced(s, t)
    ensures var table := Table(s.mem, s.regs.r14);
            t.pc == if table != 0 && Trusted(c, table) && Rd32(s.mem, table) == 0xFFFF_FFFF then 139 else NEXT_FRAME
  {
    hide Reaches, Run, Step, Exec, Rd64, Rd32, Eh3.Loaded, Trusted;
    t := tr.DoLoad(s, 128, RAX, M(R14, 0x10));
    t := tr.IfTest(t, 129, Qword, RAX, E, NEXT_FRAME);
    if t.pc == 131 {
      t := CheckTableValue(tr, c, t);
    }
  }

  lemma CheckHandlerValue(tr: Trace, c: Config, s: Cpu) returns (t: Cpu)
    requires Loaded(tr, c) && tr.At(s) && s.pc == 142
    ensures tr.At(t) && Glanced(s, t)
    ensures var h := s.regs.rax; t.pc == if Trusted(c, h) || h == c.handler then HANDLER_OK else NEXT_FRAME
  {
    hide Reaches, Run, Step, Exec, Rd64, Eh3.Loaded;
    t := tr.IfConstant(s, 142, RAX, c.scopeLo, B, CHECK_SHIM_HANDLER);
    if t.pc == 145 {
      t := tr.IfConstant(t, 145, RAX, c.scopeHi, B, HANDLER_OK);
    }
    if t.pc == CHECK_SHIM_HANDLER {
      t := tr.IfConstant(t, CHECK_SHIM_HANDLER, RAX, c.handler, NE, NEXT_FRAME);
    }
  }

  lemma CheckHandler(tr: Trace, c: Config, s: Cpu) returns (t: Cpu)
    requires Loaded(tr, c) && tr.At(s) && s.pc == 139
    ensures tr.At(t) && Glanced(s, t)
    ensures var h := Rd64(s.mem, Wrap(s.regs.r14 + FRAME_HANDLER));
            t.pc == if h != 0 && (Trusted(c, h) || h == c.handler) then HANDLER_OK else NEXT_FRAME
  {
    hide Reaches, Run, Step, Exec, Rd64, Eh3.Loaded, Trusted;
    t := tr.DoLoad(s, 139, RAX, M(R14, 8));
    t := tr.IfTest(t, 140, Qword, RAX, E, NEXT_FRAME);
    if t.pc == 142 {
      t := CheckHandlerValue(tr, c, t);
    }
  }

  lemma CheckFrame(tr: Trace, c: Config, s: Cpu) returns (t: Cpu)
    requires Loaded(tr, c) && tr.At(s) && s.pc == 120
    ensures tr.At(t) && Glanced(s, t)
    ensures t.pc == if Eligible(c, s.teb, s.mem, s.regs.r14) then HANDLER_OK else NEXT_FRAME
  {
    hide Reaches, Rd64, Rd32, Loaded;
    t := CheckStack(tr, c, s);
    if t.pc == 128 {
      t := CheckTable(tr, c, t);
      if t.pc == 139 {
        t := CheckHandler(tr, c, t);
      }
    }
  }

  /** Record, frame and context as arguments. */
  lemma OfferArguments(tr: Trace, c: Config, s: Cpu) returns (t: Cpu)
    requires Loaded(tr, c) && tr.At(s) && s.pc == HANDLER_OK && s.regs.rbx + 16 <= 0x1_0000_0000_0000_0000
    ensures tr.At(t)
    ensures t == s.(regs := s.regs.(rcx := Rd64(s.mem, s.regs.rbx), rdx := s.regs.r14,
                                    r8 := Rd64(s.mem, s.regs.rbx + 8)),
                    pc := 154)
  {
    hide Reaches, Run, Step, Exec, Rd64, Wr64, Eh3.Loaded;
    t := tr.DoLoad(s, HANDLER_OK, RCX, M(RBX, 0));
    assert t == s.(regs := s.regs.(rcx := Rd64(s.mem, s.regs.rbx)), pc := 152);
    t := tr.DoMove(t, 152, RDX, R14);
    assert t == s.(regs := s.regs.(rcx := Rd64(s.mem, s.regs.rbx), rdx := s.regs.r14), pc := 153);
    t := tr.DoLoad(t, 153, R8, M(RBX, 8));
  }

  lemma OfferHome(tr: Trace, c: Config, s: Cpu) returns (t: Cpu)
    requires Loaded(tr, c) && tr.At(s) && s.pc == 154 && 32 <= s.regs.rsp
    ensures tr.At(t) && t == s.(regs := s.regs.(r9 := 0, rsp := s.regs.rsp - 32), flags := t.flags, pc := 156)
  {
    hide Reaches, Run, Step, Exec, Rd64, Wr64, Eh3.Loaded;
    t := tr.DoZero(s, 154, R9);
    t := tr.DoSubImmediate(t, 155, RSP, 0x20);
  }

  lemma OfferCall(tr: Trace, c: Config, s: Cpu) returns (t: Cpu)
    requires Loaded(tr, c) && tr.At(s) && s.pc == 156 && 8 <= s.regs.rsp
    requires tr.w.text + 200 <= 0x1_0000_0000_0000_0000 && s.regs.r15 == tr.w.text
    ensures tr.At(t)
    ensures t == s.(regs := s.regs.(rsp := s.regs.rsp - 8), mem := Wr64(s.mem, s.regs.rsp - 8, tr.w.text + 157),
                    pc := 0)
  {
    hide Reaches, Run, Step, Exec, Rd64, Wr64, Eh3.Loaded;
    t := tr.DoCall(s, 156, R15);
  }

  /** Calling _except_handler3 for frame r14. */
  lemma Offer(tr: Trace, c: Config, s: Cpu) returns (t: Cpu)
    requires Loaded(tr, c) && Entry(tr.w, c, tr.from) && tr.At(s) && s.pc == HANDLER_OK
    requires s.regs.rsp == tr.from.regs.rsp - 56 && s.regs.rbx == tr.from.regs.rcx && s.regs.r15 == c.handler
    ensures tr.At(t) && t.pc == 0
    ensures t.regs == s.regs.(rcx := Rd64(s.mem, s.regs.rbx), rdx := s.regs.r14, r8 := Rd64(s.mem, s.regs.rbx + 8),
                              r9 := 0, rsp := tr.from.regs.rsp - 96)
    ensures t.mem == Wr64(s.mem, tr.from.regs.rsp - 96, tr.w.text + 157) && t.teb == s.teb
  {
    hide Reaches, Rd64, Wr64, Loaded;
    t := OfferArguments(tr, c, s);
    t := OfferHome(tr, c, t);
    t := OfferCall(tr, c, t);
  }

  /** What the walk still relies on at link f with n looks left. */
  ghost predicate Ahead(tr: Trace, c: Config, f: u64, n: nat) {
    ChainClear(tr.w, c, tr.from.teb, tr.from.mem, f, FaultAddress(tr.from), Context(tr.from), n,
               tr.from.regs.rsp - DEPTH, tr.from.regs.rsp + 8)
  }

  /** The entry state of _except_handler3 for frame f. */
  ghost predicate Called(tr: Trace, f: u64, e: Cpu) {
    && e.regs.rcx == Record(tr.from) && e.regs.rdx == f && e.regs.r8 == Context(tr.from)
    && e.regs.rsp == tr.from.regs.rsp - 96
    && Agree(tr.from.mem, e.mem, tr.from.regs.rsp - DEPTH, tr.from.regs.rsp)
  }

  /** The premises of _except_handler3 hold when the walker calls it for a live link. */
  lemma CalleeSeparate(tr: Trace, c: Config, f: u64, n: nat, e: Cpu)
    requires Assumed(tr, c) && Called(tr, f, e)
    requires n > 0 && Live(f) && Ahead(tr, c, f, n) && Eligible(c, tr.from.teb, tr.from.mem, f)
    ensures Eh3.Fault(e) == FaultAddress(tr.from)
    ensures Eh3.Separate(tr.w, c.ib, e)
  {
    hide Rd64, Rd32, Loaded, Agree;
    var lo: int, hi: int := tr.from.regs.rsp - DEPTH, tr.from.regs.rsp;
    SameFrame(c.ib, tr.from.mem, e.mem, f, lo, hi);
    ReadAgree(tr.from.mem, e.mem, lo, hi, Wrap(Record(tr.from) + EXC_ADDRESS));
    forall k | HasTable(c.ib, e.mem, f) && Selects(tr.w, c.ib, e.mem, f, Eh3.Fault(e), k)
      ensures ResumeClear(c.ib, e.mem, f, e.regs.r8, k, e.regs.rsp - Eh3.STACK, e.regs.rsp + 8)
    {
      SameSelection(tr.w, c.ib, tr.from.mem, e.mem, f, Eh3.Fault(e), k, lo, hi);
      assert ResumeClear(c.ib, tr.from.mem, f, e.regs.r8, k, lo, hi + 8);
      SameTaking(c.ib, tr.from.mem, e.mem, f, e.regs.r8, k, lo, hi);
    }
  }

  /** What the walk knows of frame f's answer: m is the guest's memory now, up to the walker's own stack. */
  ghost predicate Answered(tr: Trace, c: Config, f: u64, t: Cpu) {
    var s := tr.from;
    var lo: int, hi: int := s.regs.rsp - DEPTH, s.regs.rsp;
    if Serves(tr.w, c.ib, s.mem, f, FaultAddress(s)) then
      && t.teb == s.teb.(exceptionList := Next(s.mem, f))
      && exists k :: Selects(tr.w, c.ib, s.mem, f, FaultAddress(s), k)
           && Agree(Taken(c.ib, s.mem, f, Context(s), Table(s.mem, f), k), t.mem, lo, hi)
    else t.teb == s.teb && Agree(s.mem, t.mem, lo, hi)
  }

  /** The seven saved registers survive what taking a scope writes. */
  lemma StackSurvives(tr: Trace, c: Config, f: u64, m: Mem, k: nat)
    requires Stacked(m, tr.from.regs.rsp, Saved(tr.from), 7)
    requires Clear(f, FRAME_SIZE, tr.from.regs.rsp - DEPTH, tr.from.regs.rsp)
    requires Clear(Context(tr.from), CTX_SIZE, tr.from.regs.rsp - DEPTH, tr.from.regs.rsp)
    ensures Stacked(Taken(c.ib, m, f, Context(tr.from), Table(m, f), k), tr.from.regs.rsp, Saved(tr.from), 7)
  {
    hide Rd64, Taken, Saved;
    var top: int, vs, ctx := tr.from.regs.rsp, Saved(tr.from), Context(tr.from);
    forall i | 0 <= i < 7
      ensures Rd64(Taken(c.ib, m, f, ctx, Table(m, f), k), top - 8 * (i + 1)) == vs[i]
    {
      TakenApart(c.ib, m, f, ctx, Table(m, f), k, top - 8 * (i + 1));
    }
  }

  lemma SelectedTop(w: World, ib: u64, m: Mem, f: u64, addr: u64, k: nat)
    requires Selects(w, ib, m, f, addr, k)
    ensures k <= Top(m, f)
  { }

  lemma ClearWithin(ib: u64, m: Mem, f: u64, ctx: u64, k: nat, lo: int, hi: int)
    requires ResumeClear(ib, m, f, ctx, k, lo, hi + 8)
    ensures ResumeClear(ib, m, f, ctx, k, lo, hi)
  {
    hide Rd64, Wr64, Wr32, ResumeAt;
  }

  /** What _except_handler3 did for frame f, seen from the walker. */
  lemma ConsultEffects(tr: Trace, c: Config, f: u64, n: nat, e: Cpu, t: Cpu)
    requires Assumed(tr, c) && n > 0 && Live(f) && Ahead(tr, c, f, n) && Eligible(c, tr.from.teb, tr.from.mem, f)
    requires Called(tr, f, e) && e.teb == tr.from.teb && Stacked(e.mem, tr.from.regs.rsp, Saved(tr.from), 7)
    requires Eh3.Fault(e) == FaultAddress(tr.from) && Eh3.Outcome(tr.w, c.ib, e, t)
    ensures Stacked(t.mem, tr.from.regs.rsp, Saved(tr.from), 7)
    ensures Rd64(t.mem, tr.from.regs.rsp) == Rd64(tr.from.mem, tr.from.regs.rsp)
    ensures t.regs.rax == if Serves(tr.w, c.ib, tr.from.mem, f, FaultAddress(tr.from)) then 0 else 1
    ensures Answered(tr, c, f, t)
  {
    hide Rd64, Rd32, Agree, Loaded, Taken, Stacked, Selects, ResumeClear;
    var m, top: int, addr := tr.from.mem, tr.from.regs.rsp, FaultAddress(tr.from);
    var lo: int := top - DEPTH;
    SameFrame(c.ib, m, e.mem, f, lo, top);
    SameService(tr.w, c.ib, m, e.mem, f, addr, lo, top);
    if Serves(tr.w, c.ib, m, f, addr) {
      var ctx := Context(tr.from);
      var k :| Selects(tr.w, c.ib, e.mem, f, addr, k)
        && Agree(Taken(c.ib, e.mem, f, ctx, Table(e.mem, f), k), t.mem, lo, top - 96);
      SameSelection(tr.w, c.ib, m, e.mem, f, addr, k, lo, top);
      SelectedTop(tr.w, c.ib, m, f, addr, k);
      assert ResumeClear(c.ib, m, f, ctx, k, lo, top + 8);
      ClearWithin(c.ib, m, f, ctx, k, lo, top);
      SameTaking(c.ib, m, e.mem, f, ctx, k, lo, top);
      AgreeChain(Taken(c.ib, m, f, ctx, Table(m, f), k), Taken(c.ib, e.mem, f, ctx, Table(e.mem, f), k), t.mem,
                 lo, top, lo, top - 96);
      TakenApart(c.ib, m, f, ctx, Table(m, f), k, top);
      ReadAgree(Taken(c.ib, m, f, ctx, Table(m, f), k), t.mem, lo, top, top);
      StackSurvives(tr, c, f, e.mem, k);
      StackedAgree(Taken(c.ib, e.mem, f, ctx, Table(e.mem, f), k), t.mem, lo, top - 96, top, Saved(tr.from));
    } else {
      AgreeChain(m, e.mem, t.mem, lo, top, lo, top - 96);
      ReadAgree(m, t.mem, lo, top, top);
      StackedAgree(e.mem, t.mem, lo, top - 96, top, Saved(tr.from));
    }
  }

  /** `Offer`, seen from the walker. */
  lemma OfferFrame(tr: Trace, c: Config, s: Cpu) returns (e: Cpu)
    requires Assumed(tr, c) && tr.At(s) && s.pc == HANDLER_OK && Walking(tr.from, s) && s.regs.r15 == c.handler
    ensures tr.At(e) && e.pc == 0 && Called(tr, s.regs.r14, e) && e.teb == tr.from.teb
    ensures e.regs == s.regs.(rcx := e.regs.rcx, rdx := s.regs.r14, r8 := e.regs.r8, r9 := 0, rsp := e.regs.rsp)
    ensures Stacked(e.mem, tr.from.regs.rsp, Saved(tr.from), 7)
    ensures Rd64(e.mem, e.regs.rsp) == tr.w.text + 157
  {
    hide Reaches, Rd64, Wr64, Loaded, ChainClear, Eh3.Loaded;
    SameRead(c, tr.from, s, tr.from.regs.rcx);
    SameRead(c, tr.from, s, tr.from.regs.rcx + 8);
    e := Offer(tr, c, s);
    var top: int := tr.from.regs.rsp;
    WriteAgree64(s.mem, top - 96, tr.w.text + 157);
    ReadBack64(s.mem, top - 96, tr.w.text + 157);
    AgreeChain(tr.from.mem, s.mem, e.mem, top - DEPTH, top, top - 96, top - 88);
    StackedAgree(s.mem, e.mem, top - 96, top - 88, top, Saved(tr.from));
  }

  /** The call of _except_handler3 for frame f, seen from the walker. */
  lemma Consult(tr: Trace, c: Config, s: Cpu, n: nat) returns (t: Cpu)
    requires Assumed(tr, c) && tr.At(s) && s.pc == HANDLER_OK && Walking(tr.from, s) && s.regs.r15 == c.handler
    requires n > 0 && Live(s.regs.r14) && Ahead(tr, c, s.regs.r14, n)
    requires Eligible(c, tr.from.teb, tr.from.mem, s.regs.r14)
    ensures tr.At(t) && t.pc == 157
    ensures t.regs.rsp == tr.from.regs.rsp - 88 && t.regs.rbp == tr.from.regs.rbp && t.regs.rbx == s.regs.rbx
    ensures t.regs.r13 == s.regs.r13 && t.regs.r14 == s.regs.r14 && t.regs.r15 == s.regs.r15
    ensures Stacked(t.mem, tr.from.regs.rsp, Saved(tr.from), 7)
    ensures Rd64(t.mem, tr.from.regs.rsp) == Rd64(tr.from.mem, tr.from.regs.rsp)
    ensures t.regs.rax == if Serves(tr.w, c.ib, tr.from.mem, s.regs.r14, FaultAddress(tr.from)) then 0 else 1
    ensures Answered(tr, c, s.regs.r14, t)
  {
    hide Reaches, Run, Step, Exec, Rd64, Wr64, Agree, Stacked, Serves, Selects, Taken, FrameClear, Eh3.Separate,
         Answered;
    var f := s.regs.r14;
    var e := OfferFrame(tr, c, s);
    CalleeSeparate(tr, c, f, n, e);
    var callee := Trace(tr.w, tr.code, e);
    t := Eh3.ExceptHandlerRun(callee, c.ib);
    ReachOn(tr.w, tr.code, tr.from, e, t);
    ConsultEffects(tr, c, f, n, e, t);
  }

  /** After the call: done, or on to the next frame. */
  lemma Decide(tr: Trace, c: Config, s: Cpu) returns (t: Cpu)
    requires Loaded(tr, c) && Entry(tr.w, c, tr.from) && tr.At(s) && s.pc == 157
    requires s.regs.rsp == tr.from.regs.rsp - 88 && s.regs.rax <= 1
    ensures tr.At(t)
    ensures t == s.(regs := s.regs.(rsp := tr.from.regs.rsp - 56, rax := t.regs.rax), flags := t.flags, pc := t.pc)
    ensures if s.regs.rax == 0 then t.pc == DONE && t.regs.rax == 0xFFFF_FFFF else t.pc == NEXT_FRAME
  {
    hide Reaches, Run, Step, Exec, Rd64, Wr64, Eh3.Loaded;
    t := tr.DoAddImmediate(s, 157, RSP, 0x20);
    t := tr.IfTest(t, 158, Dword, RAX, NE, CHECK_SEARCH);
    if t.pc == 160 {
      t := tr.DoImmediate(t, 160, Dword, RAX, -1);
      t := tr.DoJump(t, 161, DONE - 162);
    } else {
      t := tr.IfImmediate(t, CHECK_SEARCH, Dword, RAX, 1, E, NEXT_FRAME);
    }
  }

  /** On to the next link, unless this one links to itself. */
  lemma FollowLink(tr: Trace, c: Config, s: Cpu) returns (t: Cpu)
    requires Loaded(tr, c) && tr.At(s) && s.pc == NEXT_FRAME
    ensures tr.At(t)
    ensures var next := Rd64(s.mem, s.regs.r14);
            && t == s.(regs := s.regs.(rax := next, r14 := t.regs.r14), flags := t.flags, pc := t.pc)
            && t.regs.r14 == next
            && t.pc == if next == s.regs.r14 then CONTINUE_SEARCH else CHAIN_LOOP
  {
    hide Reaches, Run, Step, Exec, Rd64, Wr64, Eh3.Loaded;
    t := tr.DoLoad(s, NEXT_FRAME, RAX, M(R14, 0));
    t := tr.IfCompare(t, 166, RAX, R14, E, CONTINUE_SEARCH);
    if t.pc == 168 {
      t := tr.DoMove(t, 168, R14, RAX);
      t := tr.DoJump(t, 169, CHAIN_LOOP - 170);
    }
  }

  lemma GiveUpAnswer(tr: Trace, c: Config, s: Cpu) returns (t: Cpu)
    requires Loaded(tr, c) && tr.At(s) && s.pc == 174
    ensures tr.At(t) && t.pc == DONE && Low32(t.regs.rax) == 0
    ensures t.mem == s.mem && t.teb == s.teb
    ensures t.regs.rsp == s.regs.rsp && t.regs.rbp == s.regs.rbp
  {
    hide Reaches, Run, Step, Exec, Rd64, Wr64, Rd32, Eh3.Loaded;
    t := tr.DoSyscall(s, 174);
    t := tr.IfTest(t, 175, Dword, RAX, E, DONE);
    if t.pc == 177 {
      t := tr.DoZero(t, 177, RAX);
    }
  }

  lemma GiveUpRecord(tr: Trace, c: Config, s: Cpu) returns (u: Cpu)
    requires Loaded(tr, c) && tr.At(s) && s.pc == CONTINUE_SEARCH
    ensures tr.At(u)
    ensures u == s.(regs := s.regs.(rax := Rd64(s.mem, s.regs.rbx), r10 := ALL_ONES), flags := u.flags, pc := 172)
  {
    hide Reaches, Run, Step, Exec, Rd64, Wr64, Rd32, Eh3.Loaded;
    u := tr.DoAllOnes(s, CONTINUE_SEARCH, R10);
    u := tr.DoLoad(u, 171, RAX, M(RBX, 0));
  }

  /** The request: raise the exception of the record behind rbx, by number 0x2C, and with r10 all ones. */
  lemma GiveUpRequest(tr: Trace, c: Config, s: Cpu) returns (u: Cpu)
    requires Loaded(tr, c) && tr.At(s) && s.pc == CONTINUE_SEARCH
    ensures tr.At(u) && tr.code(174).instr == Syscall
    ensures u == s.(regs := s.regs.(rax := 0x2C, rdx := Rd32(s.mem, Rd64(s.mem, s.regs.rbx)), r10 := ALL_ONES),
                    flags := u.flags, pc := 174)
  {
    hide Reaches, Run, Step, Exec, Rd64, Wr64, Rd32, Eh3.Loaded;
    u := GiveUpRecord(tr, c, s);
    u := tr.DoLoad32(u, 172, RDX, M(RAX, 0));
    u := tr.DoImmediate(u, 173, Dword, RAX, 0x2C);
  }

  /** The processor is about to call the kernel, to have the exception raised with the code in its record. */
  ghost predicate AsksKernel(tr: Trace, u: Cpu) {
    var s := tr.from;
    && tr.code(u.pc).instr == Syscall
    && u.regs.rax == 0x2C && u.regs.r10 == 0xFFFF_FFFF_FFFF_FFFF
    && (Clear(Record(s), 4, s.regs.rsp - DEPTH, s.regs.rsp) ==> u.regs.rdx == Rd32(s.mem, Record(s)))
  }

  /** The run comes to such a call. */
  ghost predicate Asked(tr: Trace) { exists u :: tr.At(u) && AsksKernel(tr, u) }

  /** The tail of a failed search: the kernel is asked, and whatever it answers, the result is 0. */
  lemma GiveUp(tr: Trace, c: Config, s: Cpu) returns (t: Cpu)
    requires Loaded(tr, c) && tr.At(s) && s.pc == CONTINUE_SEARCH && Walking(tr.from, s)
    requires Clear(tr.from.regs.rcx, 16, tr.from.regs.rsp - DEPTH, tr.from.regs.rsp + 8)
    ensures tr.At(t) && t.pc == DONE && Low32(t.regs.rax) == 0 && Asked(tr)
    ensures t.mem == s.mem && t.teb == s.teb
    ensures t.regs.rsp == s.regs.rsp && t.regs.rbp == s.regs.rbp
  {
    hide Reaches, Rd64, Rd32, Loaded, Agree, Stacked;
    SameRead(c, tr.from, s, tr.from.regs.rcx);
    SameRead(c, tr.from, s, Record(tr.from));
    var u := GiveUpRequest(tr, c, s);
    assert AsksKernel(tr, u);
    t := GiveUpAnswer(tr, c, u);
  }

  lemma SavedWords(s: Cpu, m: Mem)
    requires Stacked(m, s.regs.rsp, Saved(s), 7)
    ensures var top, r := s.regs.rsp, s.regs;
            && Rd64(m, top - 56) == r.r15 && Rd64(m, top - 48) == r.r14 && Rd64(m, top - 40) == r.r13
            && Rd64(m, top - 32) == r.r12 && Rd64(m, top - 24) == r.rdi && Rd64(m, top - 16) == r.rsi
            && Rd64(m, top - 8) == r.rbx
  {
    hide Rd64;
    var vs, r := Saved(s), s.regs;
    assert vs[6] == r.r15 && vs[5] == r.r14 && vs[4] == r.r13 && vs[3] == r.r12;
    assert vs[2] == r.rdi && vs[1] == r.rsi && vs[0] == r.rbx;
  }

  lemma PopFour(tr: Trace, c: Config, s: Cpu) returns (t: Cpu)
    requires Loaded(tr, c) && Entry(tr.w, c, tr.from)
    requires tr.At(s) && s.pc == DONE && Kept(tr.from, s)
    ensures var r := tr.from.regs;
            && tr.At(t)
            && t == s.(regs := s.regs.(rsp := r.rsp - 24, r15 := r.r15, r14 := r.r14, r13 := r.r13, r12 := r.r12),
                       pc := 182)
  {
    hide Reaches, Run, Step, Exec, Rd64, Stacked, Saved, Eh3.Loaded;
    SavedWords(tr.from, s.mem);
    t := tr.DoPop(s, DONE, R15);
    t := tr.DoPop(t, 179, R14);
    t := tr.DoPop(t, 180, R13);
    t := tr.DoPop(t, 181, R12);
  }

  lemma Epilogue(tr: Trace, c: Config, s: Cpu) returns (t: Cpu)
    requires Loaded(tr, c) && Entry(tr.w, c, tr.from)
    requires tr.At(s) && s.pc == DONE && Kept(tr.from, s)
    requires Rd64(s.mem, tr.from.regs.rsp) == Rd64(tr.from.mem, tr.from.regs.rsp)
    ensures tr.At(t) && Eh3.Returned(tr.w, tr.from, t)
    ensures t.mem == s.mem && t.teb == s.teb && t.regs.rax == s.regs.rax
  {
    hide Reaches, Run, Step, Exec, Rd64, Stacked, Saved, Eh3.Loaded;
    SavedWords(tr.from, s.mem);
    t := PopFour(tr, c, s);
    t := tr.DoPop(t, 182, RDI);
    t := tr.DoPop(t, 183, RSI);
    t := tr.DoPop(t, 184, RBX);
    t := tr.DoRet(t, 185);
  }

  /**
   The outcome of a dispatch in which `taker` took the exception, or nobody did. The answer is -1 or 0;
   without a taker the guest's memory and the chain head are untouched.
   */
  ghost predicate Dispatched(w: World, c: Config, s: Cpu, t: Cpu, taker: Option<u64>) {
    var lo: int, hi: int := s.regs.rsp - DEPTH, s.regs.rsp;
    match taker
    case Some(f) =>
      && Low32(t.regs.rax) == 0xFFFF_FFFF
      && t.teb == s.teb.(exceptionList := Next(s.mem, f))
      && exists k :: Selects(w, c.ib, s.mem, f, FaultAddress(s), k)
           && Agree(Taken(c.ib, s.mem, f, Context(s), Table(s.mem, f), k), t.mem, lo, hi)
    case None =>
      Low32(t.regs.rax) == 0 && t.teb == s.teb && Agree(s.mem, t.mem, lo, hi)
  }

  lemma SameEligibility(tr: Trace, c: Config, s: Cpu, f: u64, n: nat)
    requires Walking(tr.from, s) && n > 0 && Live(f) && Ahead(tr, c, f, n)
    ensures Eligible(c, s.teb, s.mem, f) == Eligible(c, tr.from.teb, tr.from.mem, f)
    ensures Next(s.mem, f) == Next(tr.from.mem, f)
  {
    hide Rd64, Rd32, Agree, Stacked, Takes, FrameClear;
    var lo: int, hi: int := tr.from.regs.rsp - DEPTH, tr.from.regs.rsp;
    ReadAgree(tr.from.mem, s.mem, lo, hi, f);
    ReadAgree(tr.from.mem, s.mem, lo, hi, Wrap(f + FRAME_SCOPE));
    ReadAgree(tr.from.mem, s.mem, lo, hi, Table(tr.from.mem, f));
    ReadAgree(tr.from.mem, s.mem, lo, hi, Wrap(f + FRAME_HANDLER));
  }

  /** One turn of the chain loop that looks at a live link. */
  lemma LookAtFrame(tr: Trace, c: Config, s: Cpu, n: nat) returns (t: Cpu)
    requires Assumed(tr, c) && tr.At(s) && s.pc == 120 && Walking(tr.from, s) && s.regs.r15 == c.handler
    requires n > 0 && Live(s.regs.r14) && Ahead(tr, c, s.regs.r14, n)
    ensures tr.At(t)
    ensures if Takes(tr.w, c, tr.from.teb, tr.from.mem, s.regs.r14, FaultAddress(tr.from)) then
              t.pc == DONE && Kept(tr.from, t) && Dispatched(tr.w, c, tr.from, t, Some(s.regs.r14))
            else
              && t.pc == NEXT_FRAME && Walking(tr.from, t)
              && t.regs.r13 == s.regs.r13 && t.regs.r14 == s.regs.r14 && t.regs.r15 == s.regs.r15
  {
    SameEligibility(tr, c, s, s.regs.r14, n);
    hide Reaches, Rd64, Rd32, Agree, Stacked, Serves, Selects, Eligible, Taken, Loaded, Separate, ChainClear;
    assert Loaded(tr, c);
    t := CheckFrame(tr, c, s);
    if t.pc == HANDLER_OK {
      t := Consult(tr, c, t, n);
      t := Decide(tr, c, t);
    }
  }

  /** From link r14 with n looks left, the loop ends as the walk over the guest's memory says. */
  lemma {:induction false} WalkRun(tr: Trace, c: Config, s: Cpu, n: nat) returns (t: Cpu)
    requires Assumed(tr, c) && tr.At(s) && AtLink(c, tr.from, s, n) && Ahead(tr, c, s.regs.r14, n)
    ensures tr.At(t) && t.pc == DONE && Kept(tr.from, t)
    ensures var r := Walk(tr.w, c, tr.from.teb, tr.from.mem, s.regs.r14, FaultAddress(tr.from), n);
            Dispatched(tr.w, c, tr.from, t, r) && (r == None ==> Asked(tr))
    decreases n
  {
    assert Loaded(tr, c) && Clear(tr.from.regs.rcx, 16, tr.from.regs.rsp - DEPTH, tr.from.regs.rsp + 8);
    hide Reaches, Rd64, Rd32, Agree, Stacked, Takes, Selects, Taken, Loaded, Separate, FrameClear, Asked;
    var f := s.regs.r14;
    t := LookAtLink(tr, c, s, n);
    if t.pc == 120 {
      t := LookAtFrame(tr, c, t, n);
      if t.pc == NEXT_FRAME {
        SameEligibility(tr, c, t, f, n);
        t := FollowLink(tr, c, t);
        if t.pc == CHAIN_LOOP {
          t := WalkRun(tr, c, t, n - 1);
        }
      }
    }
    if t.pc == CONTINUE_SEARCH {
      t := GiveUp(tr, c, t);
    }
  }

  /**
   Every run of the handler returns to the dispatcher. It answers -1 exactly when one of the first 64 links
   takes the exception, with the effects of the first such link, and 0 with nothing changed otherwise.
   */
  lemma VectoredRun(tr: Trace, c: Config) returns (t: Cpu)
    requires Assumed(tr, c)
    ensures tr.At(t) && Eh3.Returned(tr.w, tr.from, t)
    ensures var s := tr.from;
            var taker := Walk(tr.w, c, s.teb, s.mem, s.teb.exceptionList, FaultAddress(s), MAX_LINKS);
            Dispatched(tr.w, c, s, t, taker) && (taker == None ==> Asked(tr))
  {
    hide Reaches, Rd64, Agree, Stacked, Walk, Selects, Taken, ChainClear, Loaded, AtLink, Asked;
    assert Loaded(tr, c);
    t := StartWalk(tr, c);
    t := WalkRun(tr, c, t, MAX_LINKS);
    t := Epilogue(tr, c, t);
  }

  /** The answer is -1 exactly when one of the first 64 links takes the exception, and the earliest one has it. */
  lemma VectoredAnswer(tr: Trace, c: Config) returns (t: Cpu)
    requires Assumed(tr, c)
    ensures tr.At(t) && Eh3.Returned(tr.w, tr.from, t)
    ensures var s := tr.from;
            var m, head, addr := s.mem, s.teb.exceptionList, FaultAddress(s);
            && (Low32(t.regs.rax) == 0xFFFF_FFFF <==> SomeTaker(tr.w, c, s.teb, m, head, addr, MAX_LINKS))
            && (Low32(t.regs.rax) != 0xFFFF_FFFF ==>
                  && Low32(t.regs.rax) == 0 && t.teb == s.teb && Agree(m, t.mem, s.regs.rsp - DEPTH, s.regs.rsp)
                  && Asked(tr))
            && forall f :: FirstTaker(tr.w, c, s.teb, m, head, addr, MAX_LINKS, f) ==>
                 Dispatched(tr.w, c, s, t, Some(f))
  {
    hide Reaches, Rd64, Agree, Walk, Selects, Taken, Assumed, FirstTaker, SomeTaker, Asked;
    t := VectoredRun(tr, c);
    var s := tr.from;
    var m, head, addr := s.mem, s.teb.exceptionList, FaultAddress(s);
    WalkFailsIffNoTaker(tr.w, c, s.teb, m, head, addr, MAX_LINKS);
    forall f | FirstTaker(tr.w, c, s.teb, m, head, addr, MAX_LINKS, f)
      ensures Dispatched(tr.w, c, s, t, Some(f))
    {
      WalkIsFirstMatch(tr.w, c, s.teb, m, head, addr, MAX_LINKS, f);
    }
  }
}
