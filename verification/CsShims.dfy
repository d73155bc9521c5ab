/**
 The listings of the critical-section shims (Enter and Leave share one), and what whole runs of them do to the slot
 table in memory and which host object they pass on. A run of Init or Delete scans the table, calls the host
 function and returns; a run of Enter or Leave scans the table and leaves for the host function, or returns when
 the guest is not in the table.
 */
module CsShims {
  import opened Words
  import opened Memory
  import opened Machine
  import opened Stepping
  import opened Frames
  import opened SlotTable

  const SLOT_SIZE := 0x30
  const HOST_SIZE := 0x28

  /** Build parameters: the table, the import slot of the host function, and the number of slots. */
  datatype Site = Site(table: u64, iat: u64, slots: nat)

  function InitEntryCode(p: Site, pc: int): Instr {
    match pc
    case 0 => Push(RBX)
    case 1 => Push(RSI)
    case 2 => Alu(Sub, Qword, R(RSP), I(0x28))
    case 3 => Mov(Qword, R(RBX), R(RCX))
    case 4 => Mov(Qword, R(RSI), I(p.table))
    case 5 => Mov(Dword, R(RCX), I(p.slots))
    case _ => Int3
  }

  function InitScanCode(p: Site, pc: int): Instr {
    match pc
    // cs_init_scan:
    case 6 => Alu(Cmp, Qword, M(RSI, 0), R(RBX))
    case 7 => To(E, pc, 16)
    case 8 => Alu(Cmp, Qword, M(RSI, 0), I(0))
    case 9 => To(E, pc, 15)
    case 10 => Alu(Add, Qword, R(RSI), I(SLOT_SIZE))
    case 11 => Dec(RCX)
    case 12 => To(NE, pc, 6)
    case 13 => Alu(Xor, Dword, R(RAX), R(RAX))
    case 14 => Goto(pc, 19)
    case _ => Int3
  }

  function InitFoundCode(p: Site, pc: int): Instr {
    match pc
    // cs_init_empty:
    case 15 => Mov(Qword, M(RSI, 0), R(RBX))
    // cs_init_found:
    case 16 => Lea(Qword, RCX, M(RSI, 8))
    case 17 => Mov(Qword, R(RAX), I(p.iat))
    case 18 => CallHost(RAX)
    case _ => Int3
  }

  function InitDoneCode(p: Site, pc: int): Instr {
    match pc
    // cs_init_done:
    case 19 => Alu(Add, Qword, R(RSP), I(0x28))
    case 20 => Pop(RSI)
    case 21 => Pop(RBX)
    case 22 => Ret
    case _ => Int3
  }

  function InitListing(p: Site, pc: int): Instr {
    if pc < 6 then InitEntryCode(p, pc)
    else if pc < 15 then InitScanCode(p, pc)
    else if pc < 19 then InitFoundCode(p, pc)
    else InitDoneCode(p, pc)
  }

  /** Enter and Leave differ only in the import slot they go through. */
  function EnterEntryCode(p: Site, pc: int): Instr {
    match pc
    case 0 => Push(RSI)
    case 1 => Alu(Sub, Qword, R(RSP), I(0x20))
    case 2 => Mov(Qword, R(RSI), I(p.table))
    case 3 => Mov(Dword, R(RDX), I(p.slots))
    case _ => Int3
  }

  function EnterScanCode(p: Site, pc: int): Instr {
    match pc
    // cs_enter_scan:
    case 4 => Alu(Cmp, Qword, M(RSI, 0), R(RCX))
    case 5 => To(E, pc, 12)
    case 6 => Alu(Add, Qword, R(RSI), I(SLOT_SIZE))
    case 7 => Dec(RDX)
    case 8 => To(NE, pc, 4)
    case 9 => Alu(Add, Qword, R(RSP), I(0x20))
    case 10 => Pop(RSI)
    case 11 => Ret
    case _ => Int3
  }

  function EnterFoundCode(p: Site, pc: int): Instr {
    match pc
    // cs_enter_found:
    case 12 => Lea(Qword, RCX, M(RSI, 8))
    case 13 => Mov(Qword, R(RAX), I(p.iat))
    case 14 => Alu(Add, Qword, R(RSP), I(0x20))
    case 15 => Pop(RSI)
    case 16 => JmpHost(RAX)
    case _ => Int3
  }

  function EnterListing(p: Site, pc: int): Instr {
    if pc < 4 then EnterEntryCode(p, pc)
    else if pc < 12 then EnterScanCode(p, pc)
    else EnterFoundCode(p, pc)
  }

  function DeleteEntryCode(p: Site, pc: int): Instr {
    match pc
    case 0 => Push(RBX)
    case 1 => Push(RSI)
    case 2 => Alu(Sub, Qword, R(RSP), I(0x28))
    case 3 => Mov(Qword, R(RBX), R(RCX))
    case 4 => Mov(Qword, R(RSI), I(p.table))
    case 5 => Mov(Dword, R(RCX), I(p.slots))
    case _ => Int3
  }

  function DeleteScanCode(p: Site, pc: int): Instr {
    match pc
    // cs_del_scan:
    case 6 => Alu(Cmp, Qword, M(RSI, 0), R(RBX))
    case 7 => To(E, pc, 13)
    case 8 => Alu(Add, Qword, R(RSI), I(SLOT_SIZE))
    case 9 => Dec(RCX)
    case 10 => To(NE, pc, 6)
    case 11 => Alu(Xor, Dword, R(RAX), R(RAX))
    case 12 => Goto(pc, 17)
    case _ => Int3
  }

  function DeleteFoundCode(p: Site, pc: int): Instr {
    match pc
    // cs_del_found:
    case 13 => Lea(Qword, RCX, M(RSI, 8))
    case 14 => Mov(Qword, R(RAX), I(p.iat))
    case 15 => CallHost(RAX)
    case 16 => Mov(Qword, M(RSI, 0), I(0))
    case _ => Int3
  }

  function DeleteDoneCode(p: Site, pc: int): Instr {
    match pc
    // cs_del_done:
    case 17 => Alu(Add, Qword, R(RSP), I(0x28))
    case 18 => Pop(RSI)
    case 19 => Pop(RBX)
    case 20 => Ret
    case _ => Int3
  }

  function DeleteListing(p: Site, pc: int): Instr {
    if pc < 6 then DeleteEntryCode(p, pc)
    else if pc < 13 then DeleteScanCode(p, pc)
    else if pc < 17 then DeleteFoundCode(p, pc)
    else DeleteDoneCode(p, pc)
  }

  ghost predicate InitLoaded(code: Code, p: Site) {
    forall pc: int :: 0 <= pc <= 22 ==> code(pc) == Fetch(InitListing(p, pc), pc + 1)
  }

  ghost predicate EnterLoaded(code: Code, p: Site) {
    forall pc: int :: 0 <= pc <= 16 ==> code(pc) == Fetch(EnterListing(p, pc), pc + 1)
  }

  ghost predicate DeleteLoaded(code: Code, p: Site) {
    forall pc: int :: 0 <= pc <= 20 ==> code(pc) == Fetch(DeleteListing(p, pc), pc + 1)
  }

  function SlotAt(p: Site, i: int): int { p.table + SLOT_SIZE * i }

  function HostObject(p: Site, i: int): int { SlotAt(p, i) + 8 }

  function Keys(p: Site, m: Mem): (keys: seq<u64>)
    ensures |keys| == p.slots && forall i :: 0 <= i < p.slots ==> keys[i] == Rd64(m, SlotAt(p, i))
  {
    seq(p.slots, i => Rd64(m, SlotAt(p, i)))
  }

  /** Host functions change nothing but the critical section they are given and the stack below them. */
  ghost predicate Confined(w: World) {
    forall target: u64, c: Cpu, a: int {:trigger Peek(w.host(target, c).0, a)} ::
      (a < c.regs.rcx || c.regs.rcx + HOST_SIZE <= a) && (a < c.teb.stackLimit || c.regs.rsp <= a) ==>
        Peek(w.host(target, c).0, a) == Peek(c.mem, a)
  }

  /** A shim is being entered; the table, the import slot and the thread's free stack lie apart. */
  ghost predicate Entry(p: Site, s: Cpu) {
    var lo: int, hi: int := s.teb.stackLimit, s.regs.rsp + 8;
    && s.status == Running && s.pc == 0
    && 0 < p.slots < 0x1_0000_0000 && SlotAt(p, p.slots) <= 0x1_0000_0000_0000_0000
    && s.teb.stackLimit + 64 <= s.regs.rsp && s.regs.rsp + 8 <= 0x1_0000_0000_0000_0000
    && Clear(p.table, SLOT_SIZE * p.slots, lo, hi)
    && Clear(p.iat, 8, lo, hi) && Clear(p.iat, 8, p.table, SlotAt(p, p.slots))
  }

  lemma SameKeys(p: Site, m: Mem, n: Mem, lo: int, hi: int)
    requires Agree(m, n, lo, hi) && Clear(p.table, SLOT_SIZE * p.slots, lo, hi)
    ensures Keys(p, m) == Keys(p, n)
  {
    hide Rd64;
    forall i | 0 <= i < p.slots ensures Rd64(m, SlotAt(p, i)) == Rd64(n, SlotAt(p, i)) {
      ReadAgree(m, n, lo, hi, SlotAt(p, i));
    }
  }

  lemma KeyWritten(p: Site, m: Mem, i: nat, g: u64)
    requires i < p.slots
    ensures Keys(p, Wr64(m, SlotAt(p, i), g)) == Keys(p, m)[i := g]
  {
    hide Rd64, Wr64;
    ReadBack64(m, SlotAt(p, i), g);
    forall j | 0 <= j < p.slots && j != i
      ensures Rd64(Wr64(m, SlotAt(p, i), g), SlotAt(p, j)) == Rd64(m, SlotAt(p, j))
    {
      ReadOther64(m, SlotAt(p, i), g, SlotAt(p, j));
    }
  }

  predicate InSpace(p: Site) {
    0 < p.slots < 0x1_0000_0000 && SlotAt(p, p.slots) <= 0x1_0000_0000_0000_0000
  }

  /** All shims pass the slot's host object the same way. */
  lemma PassObject(tr: Trace, p: Site, s: Cpu, pc: int, i: nat) returns (t: Cpu)
    requires InSpace(p) && i < p.slots && tr.At(s) && s.pc == pc && s.regs.rsi == SlotAt(p, i)
    requires tr.Line(pc, Lea(Qword, RCX, M(RSI, 8))) && tr.Line(pc + 1, Mov(Qword, R(RAX), I(p.iat)))
    ensures tr.At(t) && t == s.(regs := s.regs.(rcx := HostObject(p, i), rax := p.iat), pc := pc + 2)
  {
    hide Reaches, Run, Step, Exec;
    t := tr.DoLea(s, pc, Qword, RCX, M(RSI, 8));
    t := tr.DoImmediate(t, pc + 1, Qword, RAX, p.iat);
  }

  // Enter and Leave.

  lemma EnterNext(tr: Trace, p: Site, s: Cpu, i: nat) returns (t: Cpu)
    requires EnterLoaded(tr.code, p) && InSpace(p) && i < p.slots
    requires tr.At(s) && s.pc == 6 && s.regs.rsi == SlotAt(p, i) && s.regs.rdx == p.slots - i
    ensures tr.At(t)
    ensures t == s.(regs := s.regs.(rsi := Wrap(SlotAt(p, i + 1)), rdx := p.slots - i - 1), flags := t.flags,
                    pc := if i + 1 < p.slots then 4 else 9)
  {
    hide Reaches, Run, Step, Exec, Rd64;
    t := tr.DoAddImmediate(s, 6, RSI, SLOT_SIZE);
    t := tr.DoDec(t, 7, RDX);
    t := tr.DoBranch(t, 8, NE, 4 - 9);
  }

  /** One turn of the scan: slot i holds the guest, or the scan goes on to the next slot or past the last. */
  lemma EnterTurn(tr: Trace, p: Site, s: Cpu, i: nat) returns (t: Cpu)
    requires EnterLoaded(tr.code, p) && InSpace(p) && i < p.slots
    requires tr.At(s) && s.pc == 4 && s.regs.rsi == SlotAt(p, i) && s.regs.rdx == p.slots - i
    ensures tr.At(t)
    ensures if Keys(p, s.mem)[i] == s.regs.rcx then t == s.(flags := t.flags, pc := 12)
            else t == s.(regs := s.regs.(rsi := Wrap(SlotAt(p, i + 1)), rdx := p.slots - i - 1), flags := t.flags,
                         pc := if i + 1 < p.slots then 4 else 9)
  {
    hide Reaches, Run, Step, Exec, Rd64;
    t := tr.DoCompareWord(s, 4, M(RSI, 0), RCX);
    t := tr.DoBranch(t, 5, E, 12 - 6);
    if t.pc == 6 {
      t := EnterNext(tr, p, t, i);
    }
  }

  /** The scan stops at the first slot that holds the guest, or falls off the table when none does. */
  lemma {:induction false} EnterScan(tr: Trace, p: Site, s: Cpu, i: nat) returns (t: Cpu, found: int)
    requires EnterLoaded(tr.code, p) && InSpace(p) && i < p.slots
    requires tr.At(s) && s.pc == 4 && s.regs.rsi == SlotAt(p, i) && s.regs.rdx == p.slots - i
    requires s.regs.rcx !in Keys(p, s.mem)[..i]
    ensures tr.At(t)
    ensures t == s.(regs := s.regs.(rsi := t.regs.rsi, rdx := t.regs.rdx), flags := t.flags,
                    pc := if found >= 0 then 12 else 9)
    ensures if found >= 0 then FirstHolding(Keys(p, s.mem), s.regs.rcx, found) && t.regs.rsi == SlotAt(p, found)
            else found == NO_SLOT && s.regs.rcx !in Keys(p, s.mem)
    decreases p.slots - i
  {
    hide Reaches, EnterLoaded, Rd64;
    var keys := Keys(p, s.mem);
    t := EnterTurn(tr, p, s, i);
    if t.pc == 12 {
      found := i;
    } else {
      assert keys[..i + 1] == keys[..i] + [keys[i]];
      if t.pc == 4 {
        t, found := EnterScan(tr, p, t, i + 1);
      } else {
        assert keys[..i + 1] == keys;
        found := -1;
      }
    }
  }

  lemma EnterPrologue(tr: Trace, p: Site) returns (t: Cpu)
    requires EnterLoaded(tr.code, p) && Entry(p, tr.from)
    ensures tr.At(t)
    ensures var r := tr.from.regs;
            t == tr.from.(regs := r.(rsp := r.rsp - 40, rsi := p.table, rdx := p.slots), mem := t.mem,
                          flags := t.flags, pc := 4)
    ensures Rd64(t.mem, tr.from.regs.rsp - 8) == tr.from.regs.rsi
    ensures Agree(tr.from.mem, t.mem, tr.from.regs.rsp - 8, tr.from.regs.rsp)
  {
    hide Reaches, Run, Step, Exec, Rd64, Wr64, Agree;
    var s := tr.from;
    tr.Begin();
    ReadBack64(s.mem, s.regs.rsp - 8, s.regs.rsi);
    WriteAgree64(s.mem, s.regs.rsp - 8, s.regs.rsi);
    t := tr.DoPush(s, 0, RSI);
    t := tr.DoSubImmediate(t, 1, RSP, 0x20);
    t := tr.DoImmediate(t, 2, Qword, RSI, p.table);
    t := tr.DoImmediate(t, 3, Dword, RDX, p.slots);
  }

  ghost predicate Restored(s: Cpu, t: Cpu) {
    && t.regs.rbx == s.regs.rbx && t.regs.rsi == s.regs.rsi && t.regs.rdi == s.regs.rdi && t.regs.rbp == s.regs.rbp
    && t.regs.r12 == s.regs.r12 && t.regs.r13 == s.regs.r13 && t.regs.r14 == s.regs.r14 && t.regs.r15 == s.regs.r15
  }

  /** Back in the caller with the registers it relies on. */
  ghost predicate Returned(w: World, s: Cpu, t: Cpu) {
    && t.status == Running
    && t.pc == Rd64(s.mem, s.regs.rsp) - w.text
    && t.regs.rsp == Wrap(s.regs.rsp + 8)
    && Restored(s, t)
  }

  lemma EnterFound(tr: Trace, p: Site, s: Cpu, i: nat) returns (t: Cpu)
    requires EnterLoaded(tr.code, p) && Entry(p, tr.from) && i < p.slots
    requires tr.At(s) && s.pc == 12 && s.regs.rsi == SlotAt(p, i) && s.regs.rsp == tr.from.regs.rsp - 40
    ensures tr.At(t) && t.pc == Rd64(s.mem, p.iat) - tr.w.text
    ensures t == s.(regs := s.regs.(rcx := HostObject(p, i), rax := p.iat, rsp := tr.from.regs.rsp,
                                    rsi := Rd64(s.mem, tr.from.regs.rsp - 8)), flags := t.flags, pc := t.pc)
  {
    hide Reaches, Run, Step, Exec, Rd64;
    t := PassObject(tr, p, s, 12, i);
    t := tr.DoAddImmediate(t, 14, RSP, 0x20);
    t := tr.DoPop(t, 15, RSI);
    t := tr.DoJmpHost(t, 16, RAX);
  }

  lemma EnterMissed(tr: Trace, p: Site, s: Cpu) returns (t: Cpu)
    requires EnterLoaded(tr.code, p) && Entry(p, tr.from)
    requires tr.At(s) && s.pc == 9 && s.regs.rsp == tr.from.regs.rsp - 40
    ensures tr.At(t)
    ensures var top := tr.from.regs.rsp;
            t == s.(regs := s.regs.(rsp := Wrap(top + 8), rsi := Rd64(s.mem, top - 8)), flags := t.flags,
                    pc := Rd64(s.mem, top) - tr.w.text)
  {
    hide Reaches, Run, Step, Exec, Rd64;
    t := tr.DoAddImmediate(s, 9, RSP, 0x20);
    t := tr.DoPop(t, 10, RSI);
    t := tr.DoRet(t, 11);
  }

  /**
   Enter (or Leave) of a mapped guest jumps to the host function with that slot's host object, and with
   the stack as the caller left it; for any other guest it returns. The table does not change.
   */
  lemma EnterRun(tr: Trace, p: Site, op: Op) returns (t: Cpu, r: Reply)
    requires EnterLoaded(tr.code, p) && Entry(p, tr.from) && (op.Enter? || op.Leave?) && op.g == tr.from.regs.rcx
    ensures tr.At(t) && Does(Keys(p, tr.from.mem), op, r) && Keys(p, t.mem) == r.keys
    ensures Agree(tr.from.mem, t.mem, tr.from.regs.rsp - 8, tr.from.regs.rsp)
    ensures if r.slot >= 0 then
              && t.pc == Rd64(tr.from.mem, p.iat) - tr.w.text
              && t.regs.rcx == HostObject(p, r.slot)
              && t.regs.rsp == tr.from.regs.rsp && Restored(tr.from, t)
            else Returned(tr.w, tr.from, t)
  {
    hide Reaches, Rd64, Wr64, EnterLoaded, Agree;
    var s, top: int := tr.from, tr.from.regs.rsp;
    t := EnterPrologue(tr, p);
    SameKeys(p, s.mem, t.mem, top - 8, top);
    ReadAgree(s.mem, t.mem, top - 8, top, p.iat);
    ReadAgree(s.mem, t.mem, top - 8, top, top);
    var keys, found := Keys(p, s.mem), -1;
    t, found := EnterScan(tr, p, t, 0);
    r := Reply(keys, found);
    ScanAnswers(keys, op, found);
    if found >= 0 {
      t := EnterFound(tr, p, t, found);
    } else {
      t := EnterMissed(tr, p, t);
    }
  }

  // Delete.

  lemma DeleteNext(tr: Trace, p: Site, s: Cpu, i: nat) returns (t: Cpu)
    requires DeleteLoaded(tr.code, p) && InSpace(p) && i < p.slots
    requires tr.At(s) && s.pc == 8 && s.regs.rsi == SlotAt(p, i) && s.regs.rcx == p.slots - i
    ensures tr.At(t)
    ensures t == s.(regs := s.regs.(rsi := Wrap(SlotAt(p, i + 1)), rcx := p.slots - i - 1), flags := t.flags,
                    pc := if i + 1 < p.slots then 6 else 11)
  {
    hide Reaches, Run, Step, Exec, Rd64;
    t := tr.DoAddImmediate(s, 8, RSI, SLOT_SIZE);
    t := tr.DoDec(t, 9, RCX);
    t := tr.DoBranch(t, 10, NE, 6 - 11);
  }

  lemma DeleteTurn(tr: Trace, p: Site, s: Cpu, i: nat) returns (t: Cpu)
    requires DeleteLoaded(tr.code, p) && InSpace(p) && i < p.slots
    requires tr.At(s) && s.pc == 6 && s.regs.rsi == SlotAt(p, i) && s.regs.rcx == p.slots - i
    ensures tr.At(t)
    ensures if Keys(p, s.mem)[i] == s.regs.rbx then t == s.(flags := t.flags, pc := 13)
            else t == s.(regs := s.regs.(rsi := Wrap(SlotAt(p, i + 1)), rcx := p.slots - i - 1), flags := t.flags,
                         pc := if i + 1 < p.slots then 6 else 11)
  {
    hide Reaches, Run, Step, Exec, Rd64;
    t := tr.DoCompareWord(s, 6, M(RSI, 0), RBX);
    t := tr.DoBranch(t, 7, E, 13 - 8);
    if t.pc == 8 {
      t := DeleteNext(tr, p, t, i);
    }
  }

  lemma {:induction false} DeleteScan(tr: Trace, p: Site, s: Cpu, i: nat) returns (t: Cpu, found: int)
    requires DeleteLoaded(tr.code, p) && InSpace(p) && i < p.slots
    requires tr.At(s) && s.pc == 6 && s.regs.rsi == SlotAt(p, i) && s.regs.rcx == p.slots - i
    requires s.regs.rbx !in Keys(p, s.mem)[..i]
    ensures tr.At(t)
    ensures t == s.(regs := s.regs.(rsi := t.regs.rsi, rcx := t.regs.rcx), flags := t.flags,
                    pc := if found >= 0 then 13 else 11)
    ensures if found >= 0 then FirstHolding(Keys(p, s.mem), s.regs.rbx, found) && t.regs.rsi == SlotAt(p, found)
            else found == NO_SLOT && s.regs.rbx !in Keys(p, s.mem)
    decreases p.slots - i
  {
    hide Reaches, DeleteLoaded, Rd64;
    var keys := Keys(p, s.mem);
    t := DeleteTurn(tr, p, s, i);
    if t.pc == 13 {
      found := i;
    } else {
      assert keys[..i + 1] == keys[..i] + [keys[i]];
      if t.pc == 6 {
        t, found := DeleteScan(tr, p, t, i + 1);
      } else {
        assert keys[..i + 1] == keys;
        found := -1;
      }
    }
  }

  function SavedPair(s: Cpu): seq<u64> { [s.regs.rbx, s.regs.rsi] }

  /** The common prologue of Init and Delete: the guest moves to rbx and the scan starts at the first slot. */
  ghost predicate ScanStarted(p: Site, s: Cpu, t: Cpu) {
    && t == s.(regs := s.regs.(rsp := Wrap(s.regs.rsp - 56), rbx := s.regs.rcx, rsi := p.table, rcx := Low32(p.slots)),
               mem := t.mem, flags := t.flags, pc := 6)
    && Stacked(t.mem, s.regs.rsp, SavedPair(s), 2)
    && Agree(s.mem, t.mem, s.regs.rsp - 16, s.regs.rsp)
  }

  lemma DeletePrologue(tr: Trace, p: Site) returns (t: Cpu)
    requires DeleteLoaded(tr.code, p) && Entry(p, tr.from)
    ensures tr.At(t) && ScanStarted(p, tr.from, t)
  {
    hide Reaches, Run, Step, Exec, Rd64, Wr64;
    var s, vs := tr.from, SavedPair(tr.from);
    tr.Begin();
    t := tr.DoPush(s, 0, RBX);
    StackedPush(s.mem, s.regs.rsp, vs, 0);
    var m := t.mem;
    t := tr.DoPush(t, 1, RSI);
    StackedPush(m, s.regs.rsp, vs, 1);
    hide Stacked, Agree;
    t := tr.DoSubImmediate(t, 2, RSP, 0x28);
    t := tr.DoMove(t, 3, RBX, RCX);
    t := tr.DoImmediate(t, 4, Qword, RSI, p.table);
    t := tr.DoImmediate(t, 5, Dword, RCX, p.slots);
  }

  /** A read clear of the host object and of the free stack is the same before and after a host call. */
  lemma HostRead(w: World, target: u64, c: Cpu, a: int)
    requires Confined(w)
    requires Clear(a, 8, c.regs.rcx, c.regs.rcx + HOST_SIZE) && Clear(a, 8, c.teb.stackLimit, c.regs.rsp)
    ensures Rd64(w.host(target, c).0, a) == Rd64(c.mem, a)
  {
    LoadSame(w.host(target, c).0, c.mem, a, a + 8);
  }

  /** No host call touches a key. */
  lemma HostKeepsKeys(w: World, p: Site, target: u64, c: Cpu, i: nat)
    requires Confined(w) && i < p.slots && c.regs.rcx == HostObject(p, i)
    requires Clear(p.table, SLOT_SIZE * p.slots, c.teb.stackLimit, c.regs.rsp)
    ensures Keys(p, w.host(target, c).0) == Keys(p, c.mem)
  {
    hide Rd64;
    var m := w.host(target, c).0;
    forall j | 0 <= j < p.slots ensures Rd64(m, SlotAt(p, j)) == Rd64(c.mem, SlotAt(p, j)) {
      HostRead(w, target, c, SlotAt(p, j));
    }
  }

  /** The host function was called with slot i's object, from a shim entered in s. */
  ghost predicate HostCalled(p: Site, s: Cpu, c: Cpu, i: nat) {
    && c.regs.rcx == HostObject(p, i)
    && c.regs.rsp == s.regs.rsp - 64 && c.teb == s.teb
    && Stacked(c.mem, s.regs.rsp, SavedPair(s), 2)
    && Rd64(c.mem, s.regs.rsp) == Rd64(s.mem, s.regs.rsp)
  }

  /** The caller's stack survives a host call. */
  lemma HostKeepsStack(w: World, p: Site, s: Cpu, target: u64, c: Cpu, i: nat)
    requires Confined(w) && Entry(p, s) && i < p.slots && HostCalled(p, s, c, i)
    ensures Stacked(w.host(target, c).0, s.regs.rsp, SavedPair(s), 2)
    ensures Rd64(w.host(target, c).0, s.regs.rsp) == Rd64(s.mem, s.regs.rsp)
  {
    hide Rd64, Confined;
    var top: int := s.regs.rsp;
    assert SlotAt(p, i) + SLOT_SIZE <= SlotAt(p, p.slots);
    forall j | 0 <= j < 2 ensures Rd64(w.host(target, c).0, top - 8 * (j + 1)) == SavedPair(s)[j] {
      HostRead(w, target, c, top - 8 * (j + 1));
    }
    HostRead(w, target, c, top);
  }

  lemma DeleteCall(tr: Trace, p: Site, s: Cpu, i: nat) returns (t: Cpu, c: Cpu)
    requires DeleteLoaded(tr.code, p) && Entry(p, tr.from) && i < p.slots
    requires tr.At(s) && s.pc == 13 && s.regs.rsi == SlotAt(p, i) && s.regs.rsp == tr.from.regs.rsp - 56
    ensures tr.At(t) && t.pc == 16
    ensures t.mem == tr.w.host(Rd64(s.mem, p.iat), c).0 && t.teb == s.teb
    ensures t.regs.rsp == s.regs.rsp && t.regs.rsi == s.regs.rsi
    ensures t.regs.rdi == s.regs.rdi && t.regs.rbp == s.regs.rbp && t.regs.r12 == s.regs.r12
    ensures t.regs.r13 == s.regs.r13 && t.regs.r14 == s.regs.r14 && t.regs.r15 == s.regs.r15
    ensures c.regs.rcx == HostObject(p, i) && c.regs.rsp == s.regs.rsp - 8 && c.teb == s.teb
    ensures c.mem == Wr64(s.mem, s.regs.rsp - 8, Wrap(tr.w.text + 16))
  {
    hide Reaches, Run, Step, Exec, Rd64, Wr64;
    t := PassObject(tr, p, s, 13, i);
    c := PushWord(t, Wrap(tr.w.text + 16));
    t := tr.DoCallHost(t, 15, RAX);
  }

  /** Inside Init or Delete, with what the epilogue needs. */
  ghost predicate Framed(s: Cpu, t: Cpu) {
    && t.regs.rsp == s.regs.rsp - 56
    && t.regs.rdi == s.regs.rdi && t.regs.rbp == s.regs.rbp && t.regs.r12 == s.regs.r12
    && t.regs.r13 == s.regs.r13 && t.regs.r14 == s.regs.r14 && t.regs.r15 == s.regs.r15
    && Stacked(t.mem, s.regs.rsp, SavedPair(s), 2)
    && Rd64(t.mem, s.regs.rsp) == Rd64(s.mem, s.regs.rsp)
  }

  lemma SavedWords(s: Cpu, m: Mem)
    requires Stacked(m, s.regs.rsp, SavedPair(s), 2)
    ensures Rd64(m, s.regs.rsp - 16) == s.regs.rsi && Rd64(m, s.regs.rsp - 8) == s.regs.rbx
  {
    hide Rd64;
    assert SavedPair(s)[1] == s.regs.rsi && SavedPair(s)[0] == s.regs.rbx;
  }

  lemma DeleteEpilogue(tr: Trace, p: Site, s: Cpu) returns (t: Cpu)
    requires DeleteLoaded(tr.code, p) && Entry(p, tr.from) && tr.At(s) && s.pc == 17 && Framed(tr.from, s)
    ensures tr.At(t) && Returned(tr.w, tr.from, t) && t.mem == s.mem && t.regs.rax == s.regs.rax
  {
    hide Reaches, Run, Step, Exec, Rd64, Stacked, SavedPair;
    SavedWords(tr.from, s.mem);
    t := tr.DoAddImmediate(s, 17, RSP, 0x28);
    t := tr.DoPop(t, 18, RSI);
    t := tr.DoPop(t, 19, RBX);
    t := tr.DoRet(t, 20);
  }

  /** The call of the host function, seen from the shim. */
  lemma HostCallFramed(p: Site, s: Cpu, t: Cpu, c: Cpu, i: nat, ret: u64)
    requires Entry(p, s) && Framed(s, t) && t.teb == s.teb && i < p.slots
    requires c.regs.rcx == HostObject(p, i) && c.regs.rsp == t.regs.rsp - 8 && c.teb == t.teb
    requires c.mem == Wr64(t.mem, t.regs.rsp - 8, ret)
    ensures HostCalled(p, s, c, i) && Keys(p, c.mem) == Keys(p, t.mem)
  {
    hide Rd64, Wr64, Keys;
    var top: int := s.regs.rsp;
    WriteAgree64(t.mem, top - 64, ret);
    StackedAgree(t.mem, c.mem, top - 64, top - 56, top, SavedPair(s));
    ReadAgree(t.mem, c.mem, top - 64, top - 56, top);
    SameKeys(p, t.mem, c.mem, top - 64, top - 56);
  }

  /** Writing a key leaves the caller's stack alone. */
  lemma KeyKeepsStack(p: Site, s: Cpu, m: Mem, i: nat, g: u64)
    requires Entry(p, s) && i < p.slots && Stacked(m, s.regs.rsp, SavedPair(s), 2)
    ensures Stacked(Wr64(m, SlotAt(p, i), g), s.regs.rsp, SavedPair(s), 2)
    ensures Rd64(Wr64(m, SlotAt(p, i), g), s.regs.rsp) == Rd64(m, s.regs.rsp)
  {
    hide Rd64, Wr64;
    assert SlotAt(p, i) + SLOT_SIZE <= SlotAt(p, p.slots);
    var a, n := SlotAt(p, i), Wr64(m, SlotAt(p, i), g);
    WriteAgree64(m, a, g);
    StackedAgree(m, n, a, a + 8, s.regs.rsp, SavedPair(s));
    ReadOther64(m, a, g, s.regs.rsp);
  }

  lemma DeleteFound(tr: Trace, p: Site, s: Cpu, i: nat) returns (t: Cpu, c: Cpu)
    requires DeleteLoaded(tr.code, p) && Entry(p, tr.from) && Confined(tr.w) && i < p.slots
    requires tr.At(s) && s.pc == 13 && s.regs.rsi == SlotAt(p, i) && Framed(tr.from, s) && s.teb == tr.from.teb
    ensures tr.At(t) && t.pc == 17 && Framed(tr.from, t)
    ensures HostCalled(p, tr.from, c, i) && t.mem == Wr64(tr.w.host(Rd64(s.mem, p.iat), c).0, SlotAt(p, i), 0)
    ensures Keys(p, t.mem) == Keys(p, s.mem)[i := 0]
  {
    hide Reaches, Run, Step, Exec, Rd64, Wr64, Stacked, Confined, Keys, SavedPair;
    var target := Rd64(s.mem, p.iat);
    t, c := DeleteCall(tr, p, s, i);
    HostCallFramed(p, tr.from, s, c, i, Wrap(tr.w.text + 16));
    var m := tr.w.host(target, c).0;
    HostKeepsStack(tr.w, p, tr.from, target, c, i);
    HostKeepsKeys(tr.w, p, target, c, i);
    KeyWritten(p, m, i, 0);
    KeyKeepsStack(p, tr.from, m, i, 0);
    t := tr.DoStoreImmediate(t, 16, M(RSI, 0), 0);
  }

  /** What a run of Init or Delete shows: a reply, and the host call made on the way when there is one. */
  datatype Shown = Shown(reply: Reply, call: Cpu)

  lemma StartOfKeys(keys: seq<u64>)
    ensures keys[..0] == []
  { }

  lemma DeleteMissed(tr: Trace, p: Site, s: Cpu) returns (t: Cpu)
    requires DeleteLoaded(tr.code, p) && tr.At(s) && s.pc == 11
    ensures tr.At(t) && t == s.(regs := s.regs.(rax := 0), flags := t.flags, pc := 17)
  {
    hide Reaches, Run, Step, Exec, Rd64;
    t := tr.DoZero(s, 11, RAX);
    t := tr.DoJump(t, 12, 17 - 13);
  }

  /**
   Delete of a mapped guest passes its slot's host object to the host function and then frees the slot and
   no other; for any other guest nothing but the free stack changes. It returns to its caller either way.
   */
  lemma DeleteRun(tr: Trace, p: Site) returns (t: Cpu, o: Shown)
    requires DeleteLoaded(tr.code, p) && Entry(p, tr.from) && Confined(tr.w)
    ensures tr.At(t) && Returned(tr.w, tr.from, t)
    ensures Does(Keys(p, tr.from.mem), Delete(tr.from.regs.rcx), o.reply) && Keys(p, t.mem) == o.reply.keys
    ensures if o.reply.slot >= 0 then
              && HostCalled(p, tr.from, o.call, o.reply.slot)
              && t.mem == Wr64(tr.w.host(Rd64(tr.from.mem, p.iat), o.call).0, SlotAt(p, o.reply.slot), 0)
            else t.regs.rax == 0 && Agree(tr.from.mem, t.mem, tr.from.regs.rsp - 16, tr.from.regs.rsp)
  {
    hide Reaches, Rd64, Wr64, DeleteLoaded, Agree, Stacked, Confined, SavedPair, Keys;
    var s, top: int := tr.from, tr.from.regs.rsp;
    t := DeletePrologue(tr, p);
    SameKeys(p, s.mem, t.mem, top - 16, top);
    ReadAgree(s.mem, t.mem, top - 16, top, p.iat);
    ReadAgree(s.mem, t.mem, top - 16, top, top);
    var keys, found := Keys(p, s.mem), -1;
    StartOfKeys(keys);
    t, found := DeleteScan(tr, p, t, 0);
    ScanAnswers(keys, Delete(s.regs.rcx), found);
    if found >= 0 {
      var c;
      t, c := DeleteFound(tr, p, t, found);
      o := Shown(Reply(keys[found := 0], found), c);
    } else {
      o := Shown(Reply(keys, found), s);
      t := DeleteMissed(tr, p, t);
    }
    t := DeleteEpilogue(tr, p, t);
  }

  // Init.

  lemma InitNext(tr: Trace, p: Site, s: Cpu, i: nat) returns (t: Cpu)
    requires InitLoaded(tr.code, p) && InSpace(p) && i < p.slots
    requires tr.At(s) && s.pc == 10 && s.regs.rsi == SlotAt(p, i) && s.regs.rcx == p.slots - i
    ensures tr.At(t)
    ensures t == s.(regs := s.regs.(rsi := Wrap(SlotAt(p, i + 1)), rcx := p.slots - i - 1), flags := t.flags,
                    pc := if i + 1 < p.slots then 6 else 13)
  {
    hide Reaches, Run, Step, Exec, Rd64;
    t := tr.DoAddImmediate(s, 10, RSI, SLOT_SIZE);
    t := tr.DoDec(t, 11, RCX);
    t := tr.DoBranch(t, 12, NE, 6 - 13);
  }

  lemma InitTurn(tr: Trace, p: Site, s: Cpu, i: nat) returns (t: Cpu)
    requires InitLoaded(tr.code, p) && InSpace(p) && i < p.slots
    requires tr.At(s) && s.pc == 6 && s.regs.rsi == SlotAt(p, i) && s.regs.rcx == p.slots - i
    ensures tr.At(t)
    ensures var key := Keys(p, s.mem)[i];
            if key == s.regs.rbx then t == s.(flags := t.flags, pc := 16)
            else if key == 0 then t == s.(flags := t.flags, pc := 15)
            else t == s.(regs := s.regs.(rsi := Wrap(SlotAt(p, i + 1)), rcx := p.slots - i - 1), flags := t.flags,
                         pc := if i + 1 < p.slots then 6 else 13)
  {
    hide Reaches, Run, Step, Exec, Rd64;
    t := tr.DoCompareWord(s, 6, M(RSI, 0), RBX);
    t := tr.DoBranch(t, 7, E, 16 - 8);
    if t.pc == 8 {
      t := tr.DoCompareWordImmediate(t, 8, M(RSI, 0), 0);
      t := tr.DoBranch(t, 9, E, 15 - 10);
      if t.pc == 10 {
        t := InitNext(tr, p, t, i);
      }
    }
  }

  /** The scan stops at the first slot that holds the guest or is free, or falls off a table without one. */
  lemma {:induction false} InitScan(tr: Trace, p: Site, s: Cpu, i: nat) returns (t: Cpu, found: int)
    requires InitLoaded(tr.code, p) && InSpace(p) && i < p.slots
    requires tr.At(s) && s.pc == 6 && s.regs.rsi == SlotAt(p, i) && s.regs.rcx == p.slots - i
    requires var keys := Keys(p, s.mem); s.regs.rbx !in keys[..i] && 0 !in keys[..i]
    ensures tr.At(t)
    ensures t == s.(regs := s.regs.(rsi := t.regs.rsi, rcx := t.regs.rcx), flags := t.flags, pc := t.pc)
    ensures var keys := Keys(p, s.mem);
            if found >= 0 then
              && FirstUsable(keys, s.regs.rbx, found) && t.regs.rsi == SlotAt(p, found)
              && t.pc == if keys[found] == s.regs.rbx then 16 else 15
            else found == NO_SLOT && s.regs.rbx !in keys && 0 !in keys && t.pc == 13
    decreases p.slots - i
  {
    hide Reaches, InitLoaded, Rd64;
    var keys := Keys(p, s.mem);
    t := InitTurn(tr, p, s, i);
    if t.pc == 15 || t.pc == 16 {
      found := i;
    } else {
      assert keys[..i + 1] == keys[..i] + [keys[i]];
      if t.pc == 6 {
        t, found := InitScan(tr, p, t, i + 1);
      } else {
        assert keys[..i + 1] == keys;
        found := -1;
      }
    }
  }

  lemma InitPrologue(tr: Trace, p: Site) returns (t: Cpu)
    requires InitLoaded(tr.code, p) && Entry(p, tr.from)
    ensures tr.At(t) && ScanStarted(p, tr.from, t)
  {
    hide Reaches, Run, Step, Exec, Rd64, Wr64;
    var s, vs := tr.from, SavedPair(tr.from);
    tr.Begin();
    t := tr.DoPush(s, 0, RBX);
    StackedPush(s.mem, s.regs.rsp, vs, 0);
    var m := t.mem;
    t := tr.DoPush(t, 1, RSI);
    StackedPush(m, s.regs.rsp, vs, 1);
    hide Stacked, Agree;
    t := tr.DoSubImmediate(t, 2, RSP, 0x28);
    t := tr.DoMove(t, 3, RBX, RCX);
    t := tr.DoImmediate(t, 4, Qword, RSI, p.table);
    t := tr.DoImmediate(t, 5, Dword, RCX, p.slots);
  }

  lemma InitEpilogue(tr: Trace, p: Site, s: Cpu) returns (t: Cpu)
    requires InitLoaded(tr.code, p) && Entry(p, tr.from) && tr.At(s) && s.pc == 19 && Framed(tr.from, s)
    ensures tr.At(t) && Returned(tr.w, tr.from, t) && t.mem == s.mem && t.regs.rax == s.regs.rax
  {
    hide Reaches, Run, Step, Exec, Rd64, Stacked, SavedPair;
    SavedWords(tr.from, s.mem);
    t := tr.DoAddImmediate(s, 19, RSP, 0x28);
    t := tr.DoPop(t, 20, RSI);
    t := tr.DoPop(t, 21, RBX);
    t := tr.DoRet(t, 22);
  }

  lemma InitCall(tr: Trace, p: Site, s: Cpu, i: nat) returns (t: Cpu, c: Cpu)
    requires InitLoaded(tr.code, p) && Entry(p, tr.from) && i < p.slots
    requires tr.At(s) && s.pc == 16 && s.regs.rsi == SlotAt(p, i) && s.regs.rsp == tr.from.regs.rsp - 56
    ensures tr.At(t) && t.pc == 19
    ensures t.mem == tr.w.host(Rd64(s.mem, p.iat), c).0
    ensures t.regs.rsp == s.regs.rsp
    ensures t.regs.rdi == s.regs.rdi && t.regs.rbp == s.regs.rbp && t.regs.r12 == s.regs.r12
    ensures t.regs.r13 == s.regs.r13 && t.regs.r14 == s.regs.r14 && t.regs.r15 == s.regs.r15
    ensures c.regs.rcx == HostObject(p, i) && c.regs.rsp == s.regs.rsp - 8 && c.teb == s.teb
    ensures c.mem == Wr64(s.mem, s.regs.rsp - 8, Wrap(tr.w.text + 19))
  {
    hide Reaches, Run, Step, Exec, Rd64, Wr64;
    t := PassObject(tr, p, s, 16, i);
    c := PushWord(t, Wrap(tr.w.text + 19));
    t := tr.DoCallHost(t, 18, RAX);
  }

  lemma InitFound(tr: Trace, p: Site, s: Cpu, i: nat) returns (t: Cpu, c: Cpu)
    requires InitLoaded(tr.code, p) && Entry(p, tr.from) && Confined(tr.w) && i < p.slots
    requires tr.At(s) && s.pc == 16 && s.regs.rsi == SlotAt(p, i) && Framed(tr.from, s) && s.teb == tr.from.teb
    ensures tr.At(t) && t.pc == 19 && Framed(tr.from, t)
    ensures HostCalled(p, tr.from, c, i) && t.mem == tr.w.host(Rd64(s.mem, p.iat), c).0
    ensures Keys(p, c.mem) == Keys(p, t.mem) == Keys(p, s.mem)
  {
    hide Reaches, Run, Step, Exec, Rd64, Wr64, Stacked, Confined, Keys, SavedPair;
    var target := Rd64(s.mem, p.iat);
    t, c := InitCall(tr, p, s, i);
    HostCallFramed(p, tr.from, s, c, i, Wrap(tr.w.text + 19));
    HostKeepsStack(tr.w, p, tr.from, target, c, i);
    HostKeepsKeys(tr.w, p, target, c, i);
  }

  /** A free slot takes the guest's key before the host function is called. */
  lemma InitClaim(tr: Trace, p: Site, s: Cpu, i: nat) returns (t: Cpu)
    requires InitLoaded(tr.code, p) && Entry(p, tr.from) && i < p.slots
    requires tr.At(s) && s.pc == 15 && s.regs.rsi == SlotAt(p, i) && Framed(tr.from, s) && s.teb == tr.from.teb
    ensures tr.At(t) && t.pc == 16 && t.regs == s.regs && Framed(tr.from, t) && t.teb == s.teb
    ensures Keys(p, t.mem) == Keys(p, s.mem)[i := s.regs.rbx] && Rd64(t.mem, p.iat) == Rd64(s.mem, p.iat)
  {
    hide Reaches, Run, Step, Exec, Rd64, Wr64, Stacked, Keys, SavedPair;
    assert SlotAt(p, i) + SLOT_SIZE <= SlotAt(p, p.slots);
    KeyWritten(p, s.mem, i, s.regs.rbx);
    KeyKeepsStack(p, tr.from, s.mem, i, s.regs.rbx);
    ReadOther64(s.mem, SlotAt(p, i), s.regs.rbx, p.iat);
    t := tr.DoStore(s, 15, M(RSI, 0), RBX);
  }

  lemma InitMissed(tr: Trace, p: Site, s: Cpu) returns (t: Cpu)
    requires InitLoaded(tr.code, p) && tr.At(s) && s.pc == 13
    ensures tr.At(t) && t == s.(regs := s.regs.(rax := 0), flags := t.flags, pc := 19)
  {
    hide Reaches, Run, Step, Exec, Rd64;
    t := tr.DoZero(s, 13, RAX);
    t := tr.DoJump(t, 14, 19 - 15);
  }

  lemma InitAnswers(keys: seq<u64>, g: u64, found: int)
    requires if found >= 0 then FirstUsable(keys, g, found) else found == NO_SLOT && g !in keys && 0 !in keys
    ensures Does(keys, Init(g), Reply(if found >= 0 then keys[found := g] else keys, found))
    ensures found >= 0 && keys[found] == g ==> keys[found := g] == keys
  {
    SomeUsable(keys, g);
  }

  /**
   Init passes on the host object of the first slot that holds the guest or is free, with the guest's key in
   place by then; on a full table it answers 0 and changes nothing but the free stack.
   */
  lemma InitRun(tr: Trace, p: Site) returns (t: Cpu, o: Shown)
    requires InitLoaded(tr.code, p) && Entry(p, tr.from) && Confined(tr.w)
    ensures tr.At(t) && Returned(tr.w, tr.from, t)
    ensures Does(Keys(p, tr.from.mem), Init(tr.from.regs.rcx), o.reply) && Keys(p, t.mem) == o.reply.keys
    ensures if o.reply.slot >= 0 then
              && HostCalled(p, tr.from, o.call, o.reply.slot) && Keys(p, o.call.mem) == o.reply.keys
              && t.mem == tr.w.host(Rd64(tr.from.mem, p.iat), o.call).0
            else t.regs.rax == 0 && Agree(tr.from.mem, t.mem, tr.from.regs.rsp - 16, tr.from.regs.rsp)
  {
    hide Reaches, Rd64, Wr64, InitLoaded, Agree, Stacked, Confined, SavedPair, Keys;
    var s, top: int := tr.from, tr.from.regs.rsp;
    t := InitPrologue(tr, p);
    SameKeys(p, s.mem, t.mem, top - 16, top);
    ReadAgree(s.mem, t.mem, top - 16, top, p.iat);
    ReadAgree(s.mem, t.mem, top - 16, top, top);
    var keys, found := Keys(p, s.mem), -1;
    StartOfKeys(keys);
    t, found := InitScan(tr, p, t, 0);
    InitAnswers(keys, s.regs.rcx, found);
    if found >= 0 {
      if t.pc == 15 {
        t := InitClaim(tr, p, t, found);
      }
      var c;
      t, c := InitFound(tr, p, t, found);
      o := Shown(Reply(keys[found := s.regs.rcx], found), c);
    } else {
      o := Shown(Reply(keys, found), s);
      t := InitMissed(tr, p, t);
    }
    t := InitEpilogue(tr, p, t);
  }
}
