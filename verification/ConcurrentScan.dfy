/** Enter and Leave scan the slot table without a lock, while Init and Delete of other guests change it. */
module ConcurrentScan {
  import opened Words
  import opened Memory
  import opened Machine
  import opened Stepping
  import opened SlotTable
  import opened CsShims
  import opened ShimRuns

  /** Guest g is live in the slot and in no other. */
  ghost predicate Owned(p: Site, m: Mem, g: u64, slot: nat) {
    slot < p.slots && forall i :: 0 <= i < p.slots ==> (Keys(p, m)[i] == g <==> i == slot)
  }

  /** An Enter or Leave of q, called in `entry`, of a guest that lives in `slot`; its import slot holds `host`. */
  datatype Scan = Scan(q: ShimSet, op: Op, entry: Cpu, slot: nat, host: u64)
  {
    function Own(): Shim { q.For(op) }

    function Place(): Site { q.SiteFor(op) }

    /** Where the caller's rsi is saved. */
    function Spill(): int { entry.regs.rsp - 8 }

    ghost predicate Valid() {
      && q.Built() && (op.Enter? || op.Leave?) && op.g != 0
      && Entry(Place(), entry) && entry.regs.rcx == op.g
    }

    ghost predicate Lives(m: Mem) { Owned(Place(), m, op.g, slot) && Rd64(m, Place().iat) == host }

    /** Only the registers the shim uses differ from those at its entry. */
    ghost predicate Since(s: Cpu) {
      s == entry.(regs := entry.regs.(rax := s.regs.rax, rcx := s.regs.rcx, rdx := s.regs.rdx, rsi := s.regs.rsi,
                                      rsp := s.regs.rsp), flags := s.flags, mem := s.mem, pc := s.pc)
    }

    /** Before the loop. */
    ghost predicate Entering(s: Cpu) {
      && s.regs.rcx == op.g
      && s.regs.rsp == (if s.pc == 0 then entry.regs.rsp else if s.pc == 1 then entry.regs.rsp - 8
                        else entry.regs.rsp - 40)
      && (s.pc == 0 ==> s.regs.rsi == entry.regs.rsi)
      && (s.pc == 3 ==> s.regs.rsi == Place().table)
    }

    /** In the loop, which has not got past the guest's slot. */
    ghost predicate Looking(s: Cpu) {
      && s.regs.rcx == op.g && s.regs.rsp == entry.regs.rsp - 40
      && 1 <= s.regs.rdx <= Place().slots
      && var i := Place().slots - s.regs.rdx;
         match s.pc
         case 4 => s.regs.rsi == SlotAt(Place(), i) && i <= slot
         case 5 => s.regs.rsi == SlotAt(Place(), i) && i <= slot && (s.flags.z <==> i == slot)
         case 6 => s.regs.rsi == SlotAt(Place(), i) && i < slot
         case 7 => s.regs.rsi == SlotAt(Place(), i + 1) && i < slot
         case _ => s.regs.rsi == SlotAt(Place(), i) && i <= slot && !s.flags.z
    }

    /** Past the loop, with that slot. */
    ghost predicate Leaving(s: Cpu) {
      && (s.pc == 12 ==> s.regs.rsi == SlotAt(Place(), slot))
      && (s.pc >= 13 ==> s.regs.rcx == HostObject(Place(), slot))
      && (s.pc >= 14 ==> s.regs.rax == Place().iat)
      && s.regs.rsp == (if s.pc <= 14 then entry.regs.rsp - 40 else if s.pc == 15 then entry.regs.rsp - 8
                        else entry.regs.rsp)
      && (s.pc == 16 ==> s.regs.rsi == entry.regs.rsi)
    }

    /** Where the shim stands, instruction by instruction. */
    ghost predicate OnCourse(s: Cpu) {
      && Since(s) && (1 <= s.pc <= 15 ==> Rd64(s.mem, Spill()) == entry.regs.rsi)
      && if 0 <= s.pc <= 3 then Entering(s) else if 4 <= s.pc <= 8 then Looking(s) else 12 <= s.pc <= 16 && Leaving(s)
    }

    /** How many steps it still has to take at most. */
    function Distance(s: Cpu): int {
      var n := Place().slots;
      if s.pc <= 3 then 9 + 5 * n - s.pc
      else if s.pc >= 12 then 17 - s.pc
      else match s.pc
        case 4 => 5 + 5 * s.regs.rdx
        case 5 => 4 + 5 * s.regs.rdx
        case 6 => 3 + 5 * s.regs.rdx
        case 7 => 2 + 5 * s.regs.rdx
        case _ => 6 + 5 * s.regs.rdx
    }

    /** It has jumped to the host function with the guest's own host object and its caller's stack and registers. */
    ghost predicate Passed(s: Cpu) {
      && s.status == Running && s.pc == host - Own().w.text && s.regs.rcx == HostObject(Place(), slot)
      && s.regs.rsp == entry.regs.rsp && Restored(entry, s)
    }
  }

  // The scanner.

  /** What a step of the scanner keeps. */
  ghost predicate Advances(c: Scan, s: Cpu, t: Cpu) {
    && c.Lives(t.mem) && Keys(c.Place(), t.mem) == Keys(c.Place(), s.mem)
    && if s.pc == 16 then c.Passed(t) else c.OnCourse(t) && c.Distance(t) < c.Distance(s)
  }

  lemma SpillKeeps(c: Scan, m: Mem)
    requires c.Valid() && c.Lives(m)
    ensures var n := Wr64(m, c.Spill(), c.entry.regs.rsi);
            Keys(c.Place(), n) == Keys(c.Place(), m) && c.Lives(n) && Rd64(n, c.Spill()) == c.entry.regs.rsi
  {
    hide Keys, Rd64, Wr64;
    var a, v, p := c.Spill(), c.entry.regs.rsi, c.Place();
    WriteAgree64(m, a, v);
    ReadBack64(m, a, v);
    ReadOther64(m, a, v, p.iat);
    SameKeys(p, m, Wr64(m, a, v), a, a + 8);
  }

  lemma ScannerEnters(c: Scan, s: Cpu)
    requires c.Valid() && c.Lives(s.mem) && c.OnCourse(s) && 0 <= s.pc <= 3
    ensures Advances(c, s, Step(c.Own().w, c.Own().code, s))
  {
    hide Reaches, Run, Step, Exec, Rd64, Wr64, Keys, Confined, InitLoaded, DeleteLoaded;
    var tr, p := Trace(c.Own().w, c.Own().code, s), c.Place();
    tr.Begin();
    match s.pc {
      case 0 =>
        var t := tr.DoPush(s, 0, RSI);
        SpillKeeps(c, s.mem);
      case 1 => var t := tr.DoSubImmediate(s, 1, RSP, 0x20);
      case 2 => var t := tr.DoImmediate(s, 2, Qword, RSI, p.table);
      case _ => var t := tr.DoImmediate(s, 3, Dword, RDX, p.slots);
    }
  }

  lemma ScannerCompares(c: Scan, s: Cpu)
    requires c.Valid() && c.Lives(s.mem) && c.OnCourse(s) && 4 <= s.pc <= 5
    ensures Advances(c, s, Step(c.Own().w, c.Own().code, s))
  {
    hide Reaches, Run, Step, Exec, Rd64, Keys, Confined, InitLoaded, DeleteLoaded;
    var tr, p := Trace(c.Own().w, c.Own().code, s), c.Place();
    tr.Begin();
    assert var i := p.slots - s.regs.rdx; Keys(p, s.mem)[i] == Rd64(s.mem, SlotAt(p, i));
    match s.pc {
      case 4 => var t := tr.DoCompareWord(s, 4, M(RSI, 0), RCX);
      case _ => var t := tr.DoBranch(s, 5, E, 12 - 6);
    }
  }

  lemma ScannerGoesOn(c: Scan, s: Cpu)
    requires c.Valid() && c.Lives(s.mem) && c.OnCourse(s) && 6 <= s.pc <= 8
    ensures Advances(c, s, Step(c.Own().w, c.Own().code, s))
  {
    hide Reaches, Run, Step, Exec, Rd64, Keys, Confined, InitLoaded, DeleteLoaded;
    var tr, p := Trace(c.Own().w, c.Own().code, s), c.Place();
    tr.Begin();
    match s.pc {
      case 6 => var t := tr.DoAddImmediate(s, 6, RSI, SLOT_SIZE);
      case 7 => var t := tr.DoDec(s, 7, RDX);
      case _ => var t := tr.DoBranch(s, 8, NE, 4 - 9);
    }
  }

  lemma ScannerLeaves(c: Scan, s: Cpu)
    requires c.Valid() && c.Lives(s.mem) && c.OnCourse(s) && 12 <= s.pc <= 16
    ensures Advances(c, s, Step(c.Own().w, c.Own().code, s))
  {
    hide Reaches, Run, Step, Exec, Rd64, Keys, Confined, InitLoaded, DeleteLoaded;
    var tr, p := Trace(c.Own().w, c.Own().code, s), c.Place();
    tr.Begin();
    match s.pc {
      case 12 =>
        assert SlotAt(p, c.slot) + SLOT_SIZE <= SlotAt(p, p.slots);
        var t := tr.DoLea(s, 12, Qword, RCX, M(RSI, 8));
      case 13 => var t := tr.DoImmediate(s, 13, Qword, RAX, p.iat);
      case 14 => var t := tr.DoAddImmediate(s, 14, RSP, 0x20);
      case 15 => var t := tr.DoPop(s, 15, RSI);
      case _ => var t := tr.DoJmpHost(s, 16, RAX);
    }
  }

  /** Each instruction of the shim touches no key and keeps it on course, up to the jump to the host function. */
  lemma ScannerSteps(c: Scan, s: Cpu)
    requires c.Valid() && c.Lives(s.mem) && c.OnCourse(s)
    ensures Advances(c, s, Step(c.Own().w, c.Own().code, s))
  {
    hide Step, Scan.Valid, Scan.Lives, Scan.Since, Scan.Entering, Scan.Looking, Scan.Leaving, Advances, Rd64;
    if s.pc <= 3 { ScannerEnters(c, s); }
    else if s.pc <= 5 { ScannerCompares(c, s); }
    else if s.pc <= 8 { ScannerGoesOn(c, s); }
    else { ScannerLeaves(c, s); }
  }

  // The writers.

  /** What a writer that was entered in e relies on while it may still write: its stack and its guest. */
  ghost predicate WriterBase(p: Site, g: u64, e: Cpu, s: Cpu, last: int) {
    && Entry(p, e) && e.regs.rcx !in {0, g}
    && s.status == Running && s.teb == e.teb
    && (s.pc == 0 ==> s.regs.rsp == e.regs.rsp)
    && (s.pc == 1 ==> s.regs.rsp == e.regs.rsp - 8)
    && (s.pc == 2 ==> s.regs.rsp == e.regs.rsp - 16)
    && (3 <= s.pc <= last ==> s.regs.rsp == e.regs.rsp - 56)
    && (0 <= s.pc <= 3 ==> s.regs.rcx == e.regs.rcx)
    && (4 <= s.pc <= last ==> s.regs.rbx == e.regs.rcx)
    && (s.pc == 5 ==> s.regs.rsi == p.table)
  }

  /** The scan of Init or Delete stands at slot slots - rcx. */
  ghost predicate AtSlot(p: Site, s: Cpu, ahead: int) {
    1 <= s.regs.rcx <= p.slots && s.regs.rsi == Wrap(SlotAt(p, p.slots - s.regs.rcx + ahead))
  }

  /** The writer holds on to slot i. */
  ghost predicate Holds(p: Site, s: Cpu, i: int) { 0 <= i < p.slots && s.regs.rsi == SlotAt(p, i) }

  ghost predicate InitOk(p: Site, g: u64, e: Cpu, s: Cpu) {
    && 0 <= s.pc <= 22 && WriterBase(p, g, e, s, 18)
    && (6 <= s.pc <= 10 ==> AtSlot(p, s, 0))
    && (s.pc == 11 ==> AtSlot(p, s, 1))
    && (s.pc == 12 ==>
          && s.regs.rcx < p.slots && s.regs.rsi == Wrap(SlotAt(p, p.slots - s.regs.rcx))
          && (s.flags.z <==> s.regs.rcx == 0))
    && (s.pc == 9 && s.flags.z ==> Keys(p, s.mem)[p.slots - s.regs.rcx] == 0)
    && (s.pc == 15 ==> exists i :: Holds(p, s, i) && Keys(p, s.mem)[i] == 0)
    && (16 <= s.pc <= 18 ==> exists i :: Holds(p, s, i) && (s.pc > 16 ==> s.regs.rcx == HostObject(p, i)))
  }

  ghost predicate DeleteOk(p: Site, g: u64, e: Cpu, s: Cpu) {
    && 0 <= s.pc <= 20 && WriterBase(p, g, e, s, 16)
    && (6 <= s.pc <= 8 ==> AtSlot(p, s, 0))
    && (s.pc == 9 ==> AtSlot(p, s, 1))
    && (s.pc == 10 ==>
          && s.regs.rcx < p.slots && s.regs.rsi == Wrap(SlotAt(p, p.slots - s.regs.rcx))
          && (s.flags.z <==> s.regs.rcx == 0))
    && (s.pc == 7 && s.flags.z ==> Keys(p, s.mem)[p.slots - s.regs.rcx] == e.regs.rcx)
    && (13 <= s.pc <= 16 ==>
          exists i :: Holds(p, s, i) && Keys(p, s.mem)[i] == e.regs.rcx
              && (14 <= s.pc <= 15 ==> s.regs.rcx == HostObject(p, i)))
  }

  /** Writing on the stack below e's or in the table is all that happened from m to n. */
  ghost predicate Keeps(p: Site, e: Cpu, m: Mem, n: Mem) {
    forall a :: Clear(a, 1, p.table, SlotAt(p, p.slots)) && Clear(a, 1, e.teb.stackLimit, e.regs.rsp) ==>
      Peek(n, a) == Peek(m, a)
  }

  lemma KeepsTwice(p: Site, e: Cpu, l: Mem, m: Mem, n: Mem)
    requires Keeps(p, e, l, m) && Keeps(p, e, m, n)
    ensures Keeps(p, e, l, n)
  { }

  lemma KeepsWord(p: Site, e: Cpu, m: Mem, n: Mem, a: int)
    requires Keeps(p, e, m, n) && Clear(a, 8, p.table, SlotAt(p, p.slots)) && Clear(a, 8, e.teb.stackLimit, e.regs.rsp)
    ensures Rd64(n, a) == Rd64(m, a)
  {
    LoadSame(n, m, a, a + 8);
  }

  /** Pushing on a writer's stack touches no key. */
  lemma PushKeeps(p: Site, e: Cpu, m: Mem, a: int, v: u64)
    requires Entry(p, e) && e.regs.rsp - 64 <= a <= e.regs.rsp - 8
    ensures Keys(p, Wr64(m, a, v)) == Keys(p, m) && Keeps(p, e, m, Wr64(m, a, v))
  {
    hide Keys, Wr64, Rd64;
    WriteAgree64(m, a, v);
    SameKeys(p, m, Wr64(m, a, v), a, a + 8);
  }

  lemma KeyKeeps(p: Site, e: Cpu, m: Mem, i: nat, h: u64)
    requires i < p.slots
    ensures Keeps(p, e, m, Wr64(m, SlotAt(p, i), h))
  {
    hide Wr64;
    WriteAgree64(m, SlotAt(p, i), h);
    assert SlotAt(p, i) + SLOT_SIZE <= SlotAt(p, p.slots);
  }

  lemma CallKeeps(w: World, p: Site, e: Cpu, target: u64, c: Cpu, i: int)
    requires Confined(w) && 0 <= i < p.slots && c.regs.rcx == HostObject(p, i)
    requires c.teb == e.teb && c.regs.rsp <= e.regs.rsp
    ensures Keeps(p, e, c.mem, w.host(target, c).0)
  {
    assert SlotAt(p, i) + SLOT_SIZE <= SlotAt(p, p.slots);
  }

  lemma InitStart(w: World, code: Code, p: Site, g: u64, e: Cpu, s: Cpu)
    requires InitLoaded(code, p) && Confined(w) && InitOk(p, g, e, s) && s.pc <= 5
    ensures var t := Step(w, code, s);
            InitOk(p, g, e, t) && Keys(p, t.mem) == Keys(p, s.mem) && Keeps(p, e, s.mem, t.mem)
  {
    hide Reaches, Run, Step, Exec, Rd64, Wr64, Keys, Confined;
    var tr := Trace(w, code, s);
    tr.Begin();
    match s.pc {
      case 0 => var t := tr.DoPush(s, 0, RBX); PushKeeps(p, e, s.mem, e.regs.rsp - 8, s.regs.rbx);
      case 1 => var t := tr.DoPush(s, 1, RSI); PushKeeps(p, e, s.mem, e.regs.rsp - 16, s.regs.rsi);
      case 2 => var t := tr.DoSubImmediate(s, 2, RSP, 0x28);
      case 3 => var t := tr.DoMove(s, 3, RBX, RCX);
      case 4 => var t := tr.DoImmediate(s, 4, Qword, RSI, p.table);
      case _ => var t := tr.DoImmediate(s, 5, Dword, RCX, p.slots);
    }
  }

  lemma InitLoop(w: World, code: Code, p: Site, g: u64, e: Cpu, s: Cpu)
    requires InitLoaded(code, p) && Confined(w) && InitOk(p, g, e, s) && 6 <= s.pc <= 9
    ensures var t := Step(w, code, s); InitOk(p, g, e, t) && t.mem == s.mem
  {
    hide Reaches, Run, Step, Exec, Rd64, Wr64, Keys, Confined;
    var tr, i := Trace(w, code, s), p.slots - s.regs.rcx;
    tr.Begin();
    match s.pc {
      case 6 => var t := tr.DoCompareWord(s, 6, M(RSI, 0), RBX);
      case 7 => var t := tr.DoBranch(s, 7, E, 16 - 8); assert t.pc == 16 ==> Holds(p, t, i);
      case 8 =>
        var t := tr.DoCompareWordImmediate(s, 8, M(RSI, 0), 0);
        assert Keys(p, s.mem)[i] == Rd64(s.mem, SlotAt(p, i));
      case _ => var t := tr.DoBranch(s, 9, E, 15 - 10); assert t.pc == 15 ==> Holds(p, t, i);
    }
  }

  lemma InitAdvance(w: World, code: Code, p: Site, g: u64, e: Cpu, s: Cpu)
    requires InitLoaded(code, p) && Confined(w) && InitOk(p, g, e, s) && 10 <= s.pc <= 12
    ensures var t := Step(w, code, s); InitOk(p, g, e, t) && t.mem == s.mem
  {
    hide Reaches, Run, Step, Exec, Rd64, Wr64, Keys, Confined;
    var tr := Trace(w, code, s);
    tr.Begin();
    match s.pc {
      case 10 => var t := tr.DoAddImmediate(s, 10, RSI, SLOT_SIZE);
      case 11 => var t := tr.DoDec(s, 11, RCX);
      case _ => var t := tr.DoBranch(s, 12, NE, 6 - 13);
    }
  }

  /** Writing key h over a slot that g does not have leaves g where it is. */
  lemma OwnedWrite(p: Site, m: Mem, g: u64, slot: nat, i: nat, h: u64)
    requires Owned(p, m, g, slot) && i < p.slots && i != slot && h != g
    ensures Owned(p, Wr64(m, SlotAt(p, i), h), g, slot)
  {
    hide Wr64, Rd64;
    KeyWritten(p, m, i, h);
  }

  /** A host call on some slot's object, made from a writer's stack, leaves every key. */
  lemma CallKeepsKeys(w: World, p: Site, e: Cpu, s: Cpu, i: int, ret: u64)
    requires Confined(w) && Entry(p, e) && s.teb == e.teb && s.regs.rsp == e.regs.rsp - 56
    requires Holds(p, s, i) && s.regs.rcx == HostObject(p, i)
    ensures var c := PushWord(s, ret);
            var m := w.host(Rd64(s.mem, s.regs.rax), c).0;
            Keys(p, m) == Keys(p, s.mem) && Keeps(p, e, s.mem, m)
  {
    hide Wr64, Rd64, Keys, Confined, Keeps;
    var c := PushWord(s, ret);
    PushKeeps(p, e, s.mem, e.regs.rsp - 64, ret);
    HostKeepsKeys(w, p, Rd64(s.mem, s.regs.rax), c, i);
    CallKeeps(w, p, e, Rd64(s.mem, s.regs.rax), c, i);
    KeepsTwice(p, e, s.mem, c.mem, w.host(Rd64(s.mem, s.regs.rax), c).0);
  }

  lemma InitEmpty(w: World, code: Code, p: Site, g: u64, slot: nat, e: Cpu, s: Cpu)
    requires InitLoaded(code, p) && Confined(w) && InitOk(p, g, e, s) && 13 <= s.pc <= 15
    requires g != 0 && Owned(p, s.mem, g, slot)
    ensures var t := Step(w, code, s); InitOk(p, g, e, t) && Owned(p, t.mem, g, slot) && Keeps(p, e, s.mem, t.mem)
  {
    hide Reaches, Run, Step, Exec, Rd64, Wr64, Keys, Confined;
    var tr := Trace(w, code, s);
    tr.Begin();
    match s.pc {
      case 13 => var t := tr.DoZero(s, 13, RAX);
      case 14 => var t := tr.DoJump(s, 14, 19 - 15);
      case _ =>
        var i :| Holds(p, s, i) && Keys(p, s.mem)[i] == 0;
        var t := tr.DoStore(s, 15, M(RSI, 0), RBX);
        OwnedWrite(p, s.mem, g, slot, i, s.regs.rbx);
        KeyKeeps(p, e, s.mem, i, s.regs.rbx);
        assert Holds(p, t, i);
    }
  }

  lemma InitFound(w: World, code: Code, p: Site, g: u64, slot: nat, e: Cpu, s: Cpu)
    requires InitLoaded(code, p) && Confined(w) && InitOk(p, g, e, s) && 16 <= s.pc <= 18
    requires Owned(p, s.mem, g, slot)
    ensures var t := Step(w, code, s); InitOk(p, g, e, t) && Owned(p, t.mem, g, slot) && Keeps(p, e, s.mem, t.mem)
  {
    hide Reaches, Run, Step, Exec, Rd64, Wr64, Keys, Confined;
    var tr := Trace(w, code, s);
    tr.Begin();
    match s.pc {
      case 16 =>
        var i :| Holds(p, s, i);
        var t := tr.DoLea(s, 16, Qword, RCX, M(RSI, 8));
        assert SlotAt(p, i) + SLOT_SIZE <= SlotAt(p, p.slots);
        assert Holds(p, t, i);
      case 17 =>
        var i :| Holds(p, s, i) && s.regs.rcx == HostObject(p, i);
        var t := tr.DoImmediate(s, 17, Qword, RAX, p.iat);
        assert Holds(p, t, i);
      case _ =>
        var i :| Holds(p, s, i) && s.regs.rcx == HostObject(p, i);
        CallKeepsKeys(w, p, e, s, i, Wrap(w.text + 19));
        var t := tr.DoCallHost(s, 18, RAX);
    }
  }

  lemma InitReturn(w: World, code: Code, p: Site, g: u64, e: Cpu, s: Cpu)
    requires InitLoaded(code, p) && Confined(w) && InitOk(p, g, e, s) && 19 <= s.pc <= 22
    ensures var t := Step(w, code, s);
            t.mem == s.mem && (s.pc < 22 ==> InitOk(p, g, e, t))
  {
    hide Reaches, Run, Step, Exec, Rd64, Wr64, Keys, Confined;
    var tr := Trace(w, code, s);
    tr.Begin();
    match s.pc {
      case 19 => var t := tr.DoAddImmediate(s, 19, RSP, 0x28);
      case 20 => var t := tr.DoPop(s, 20, RSI);
      case 21 => var t := tr.DoPop(s, 21, RBX);
      case _ => var t := tr.DoRet(s, 22);
    }
  }

  lemma DeleteStart(w: World, code: Code, p: Site, g: u64, e: Cpu, s: Cpu)
    requires DeleteLoaded(code, p) && Confined(w) && DeleteOk(p, g, e, s) && s.pc <= 5
    ensures var t := Step(w, code, s);
            DeleteOk(p, g, e, t) && Keys(p, t.mem) == Keys(p, s.mem) && Keeps(p, e, s.mem, t.mem)
  {
    hide Reaches, Run, Step, Exec, Rd64, Wr64, Keys, Confined;
    var tr := Trace(w, code, s);
    tr.Begin();
    match s.pc {
      case 0 => var t := tr.DoPush(s, 0, RBX); PushKeeps(p, e, s.mem, e.regs.rsp - 8, s.regs.rbx);
      case 1 => var t := tr.DoPush(s, 1, RSI); PushKeeps(p, e, s.mem, e.regs.rsp - 16, s.regs.rsi);
      case 2 => var t := tr.DoSubImmediate(s, 2, RSP, 0x28);
      case 3 => var t := tr.DoMove(s, 3, RBX, RCX);
      case 4 => var t := tr.DoImmediate(s, 4, Qword, RSI, p.table);
      case _ => var t := tr.DoImmediate(s, 5, Dword, RCX, p.slots);
    }
  }

  lemma DeleteLoop(w: World, code: Code, p: Site, g: u64, e: Cpu, s: Cpu)
    requires DeleteLoaded(code, p) && Confined(w) && DeleteOk(p, g, e, s) && 6 <= s.pc <= 7
    ensures var t := Step(w, code, s); DeleteOk(p, g, e, t) && t.mem == s.mem
  {
    hide Reaches, Run, Step, Exec, Rd64, Wr64, Keys, Confined;
    var tr, i := Trace(w, code, s), p.slots - s.regs.rcx;
    tr.Begin();
    match s.pc {
      case 6 => var t := tr.DoCompareWord(s, 6, M(RSI, 0), RBX); assert Keys(p, s.mem)[i] == Rd64(s.mem, SlotAt(p, i));
      case _ => var t := tr.DoBranch(s, 7, E, 13 - 8); assert t.pc == 13 ==> Holds(p, t, i);
    }
  }

  lemma DeleteAdvance(w: World, code: Code, p: Site, g: u64, e: Cpu, s: Cpu)
    requires DeleteLoaded(code, p) && Confined(w) && DeleteOk(p, g, e, s) && 8 <= s.pc <= 12
    ensures var t := Step(w, code, s); DeleteOk(p, g, e, t) && t.mem == s.mem
  {
    hide Reaches, Run, Step, Exec, Rd64, Wr64, Keys, Confined;
    var tr := Trace(w, code, s);
    tr.Begin();
    match s.pc {
      case 8 => var t := tr.DoAddImmediate(s, 8, RSI, SLOT_SIZE);
      case 9 => var t := tr.DoDec(s, 9, RCX);
      case 10 => var t := tr.DoBranch(s, 10, NE, 6 - 11);
      case 11 => var t := tr.DoZero(s, 11, RAX);
      case _ => var t := tr.DoJump(s, 12, 17 - 13);
    }
  }

  lemma DeleteFound(w: World, code: Code, p: Site, g: u64, slot: nat, e: Cpu, s: Cpu)
    requires DeleteLoaded(code, p) && Confined(w) && DeleteOk(p, g, e, s) && 13 <= s.pc <= 14
    requires Owned(p, s.mem, g, slot)
    ensures var t := Step(w, code, s); DeleteOk(p, g, e, t) && Owned(p, t.mem, g, slot) && Keeps(p, e, s.mem, t.mem)
  {
    hide Reaches, Run, Step, Exec, Rd64, Wr64, Keys, Confined;
    var tr := Trace(w, code, s);
    tr.Begin();
    var i :| Holds(p, s, i) && Keys(p, s.mem)[i] == e.regs.rcx
      && (14 <= s.pc <= 15 ==> s.regs.rcx == HostObject(p, i));
    match s.pc {
      case 13 =>
        var t := tr.DoLea(s, 13, Qword, RCX, M(RSI, 8));
        assert SlotAt(p, i) + SLOT_SIZE <= SlotAt(p, p.slots);
        assert Holds(p, t, i);
      case _ =>
        var t := tr.DoImmediate(s, 14, Qword, RAX, p.iat);
        assert Holds(p, t, i);
    }
  }

  lemma DeleteClear(w: World, code: Code, p: Site, g: u64, slot: nat, e: Cpu, s: Cpu)
    requires DeleteLoaded(code, p) && Confined(w) && DeleteOk(p, g, e, s) && 15 <= s.pc <= 16
    requires g != 0 && Owned(p, s.mem, g, slot)
    ensures var t := Step(w, code, s); DeleteOk(p, g, e, t) && Owned(p, t.mem, g, slot) && Keeps(p, e, s.mem, t.mem)
  {
    hide Reaches, Run, Step, Exec, Rd64, Wr64, Keys, Confined;
    var tr := Trace(w, code, s);
    tr.Begin();
    var i :| Holds(p, s, i) && Keys(p, s.mem)[i] == e.regs.rcx
      && (14 <= s.pc <= 15 ==> s.regs.rcx == HostObject(p, i));
    match s.pc {
      case 15 =>
        CallKeepsKeys(w, p, e, s, i, Wrap(w.text + 16));
        var t := tr.DoCallHost(s, 15, RAX);
        assert Holds(p, t, i);
      case _ =>
        OwnedWrite(p, s.mem, g, slot, i, 0);
        KeyKeeps(p, e, s.mem, i, 0);
        var t := tr.DoStoreImmediate(s, 16, M(RSI, 0), 0);
    }
  }

  lemma DeleteReturn(w: World, code: Code, p: Site, g: u64, e: Cpu, s: Cpu)
    requires DeleteLoaded(code, p) && Confined(w) && DeleteOk(p, g, e, s) && 17 <= s.pc <= 20
    ensures var t := Step(w, code, s);
            t.mem == s.mem && (s.pc < 20 ==> DeleteOk(p, g, e, t))
  {
    hide Reaches, Run, Step, Exec, Rd64, Wr64, Keys, Confined;
    var tr := Trace(w, code, s);
    tr.Begin();
    match s.pc {
      case 17 => var t := tr.DoAddImmediate(s, 17, RSP, 0x28);
      case 18 => var t := tr.DoPop(s, 18, RSI);
      case 19 => var t := tr.DoPop(s, 19, RBX);
      case _ => var t := tr.DoRet(s, 20);
    }
  }

  // The system.

  /** What the writing side is doing; `since` is the state its current shim was entered in. */
  datatype Task = Idle | Initing(since: Cpu) | Deleting(since: Cpu)

  /** Two processors over one memory; the memory in their own states is not looked at. */
  datatype System = System(mem: Mem, scanner: Cpu, left: bool, task: Task, writer: Cpu)
  {
    function Scanner(): Cpu { scanner.(mem := mem) }

    function Writer(): Cpu { writer.(mem := mem) }
  }

  function InitSite(q: ShimSet): Site { Site(q.table, q.init.iat, q.slots) }

  function DeleteSite(q: ShimSet): Site { Site(q.table, q.delete.iat, q.slots) }

  ghost predicate ScanStep(c: Scan, a: System, b: System) {
    var t := Step(c.Own().w, c.Own().code, a.Scanner());
    !a.left && b == a.(mem := t.mem, scanner := t, left := a.scanner.pc == 16)
  }

  ghost predicate WriteStep(c: Scan, a: System, b: System) {
    match a.task
    case Idle => false
    case Initing(since) =>
      var t := Step(c.q.init.w, c.q.init.code, a.Writer());
      b == a.(mem := t.mem, writer := t, task := if a.writer.pc == 22 then Idle else a.task)
    case Deleting(since) =>
      var t := Step(c.q.delete.w, c.q.delete.code, a.Writer());
      b == a.(mem := t.mem, writer := t, task := if a.writer.pc == 20 then Idle else a.task)
  }

  /** A writer's stack holds neither the scanner's spill nor its import slot. */
  ghost predicate StackApart(c: Scan, e: Cpu) {
    Clear(c.Spill(), 8, e.teb.stackLimit, e.regs.rsp) && Clear(c.Place().iat, 8, e.teb.stackLimit, e.regs.rsp)
  }

  /** With no writer at work, an Init or Delete of some other guest is entered. */
  ghost predicate Arrive(c: Scan, a: System, b: System) {
    && a.task == Idle && b.task != Idle && b == a.(task := b.task, writer := b.task.since)
    && Entry(if b.task.Initing? then InitSite(c.q) else DeleteSite(c.q), b.task.since)
    && b.task.since.regs.rcx !in {0, c.op.g} && StackApart(c, b.task.since)
  }

  /** Anybody else, other scans included, may write anything but keys, the scanner's spill and its import slot. */
  ghost predicate OtherStep(c: Scan, a: System, b: System) {
    && b == a.(mem := b.mem) && Keys(c.Place(), b.mem) == Keys(c.Place(), a.mem)
    && Rd64(b.mem, c.Spill()) == Rd64(a.mem, c.Spill()) && Rd64(b.mem, c.Place().iat) == Rd64(a.mem, c.Place().iat)
  }

  ghost predicate Next(c: Scan, a: System, b: System) {
    ScanStep(c, a, b) || WriteStep(c, a, b) || Arrive(c, a, b) || OtherStep(c, a, b)
  }

  ghost predicate WriterOk(c: Scan, a: System) {
    match a.task
    case Idle => true
    case Initing(e) => StackApart(c, e) && InitOk(InitSite(c.q), c.op.g, e, a.Writer())
    case Deleting(e) => StackApart(c, e) && DeleteOk(DeleteSite(c.q), c.op.g, e, a.Writer())
  }

  ghost predicate Inv(c: Scan, a: System) {
    && c.Lives(a.mem) && WriterOk(c, a)
    && if a.left then c.Passed(a.scanner) else c.OnCourse(a.Scanner())
  }

  lemma InitSteps(w: World, code: Code, p: Site, g: u64, slot: nat, e: Cpu, s: Cpu)
    requires InitLoaded(code, p) && Confined(w) && g != 0 && Owned(p, s.mem, g, slot) && InitOk(p, g, e, s)
    ensures var t := Step(w, code, s);
            Owned(p, t.mem, g, slot) && Keeps(p, e, s.mem, t.mem) && (s.pc < 22 ==> InitOk(p, g, e, t)) && s.pc <= 22
  {
    assert 0 <= s.pc <= 22;
    hide Step, Keys, Rd64, InitLoaded, Confined, InitOk;
    if s.pc <= 5 { InitStart(w, code, p, g, e, s); }
    else if s.pc <= 9 { InitLoop(w, code, p, g, e, s); }
    else if s.pc <= 12 { InitAdvance(w, code, p, g, e, s); }
    else if s.pc <= 15 { InitEmpty(w, code, p, g, slot, e, s); }
    else if s.pc <= 18 { InitFound(w, code, p, g, slot, e, s); }
    else { InitReturn(w, code, p, g, e, s); }
  }

  lemma DeleteSteps(w: World, code: Code, p: Site, g: u64, slot: nat, e: Cpu, s: Cpu)
    requires DeleteLoaded(code, p) && Confined(w) && g != 0 && Owned(p, s.mem, g, slot) && DeleteOk(p, g, e, s)
    ensures var t := Step(w, code, s);
            Owned(p, t.mem, g, slot) && Keeps(p, e, s.mem, t.mem) && (s.pc < 20 ==> DeleteOk(p, g, e, t)) && s.pc <= 20
  {
    assert 0 <= s.pc <= 20;
    hide Step, Keys, Rd64, DeleteLoaded, Confined, DeleteOk;
    if s.pc <= 5 { DeleteStart(w, code, p, g, e, s); }
    else if s.pc <= 7 { DeleteLoop(w, code, p, g, e, s); }
    else if s.pc <= 12 { DeleteAdvance(w, code, p, g, e, s); }
    else if s.pc <= 14 { DeleteFound(w, code, p, g, slot, e, s); }
    else if s.pc <= 16 { DeleteClear(w, code, p, g, slot, e, s); }
    else { DeleteReturn(w, code, p, g, e, s); }
  }

  /** The keys are the same whatever import slot one goes through. */
  lemma SameTable(p: Site, iat: u64, m: Mem)
    ensures Keys(p, m) == Keys(p.(iat := iat), m)
  {
    hide Rd64;
    forall i | 0 <= i < p.slots ensures Keys(p, m)[i] == Keys(p.(iat := iat), m)[i] {
      assert SlotAt(p, i) == SlotAt(p.(iat := iat), i);
    }
  }

  /** What a writer keeps is enough for the scanner. */
  lemma KeptForScanner(c: Scan, p: Site, e: Cpu, m: Mem, n: Mem)
    requires c.Valid() && c.Lives(m) && p == c.Place().(iat := p.iat) && StackApart(c, e)
    requires Keeps(p, e, m, n) && Owned(p, n, c.op.g, c.slot)
    ensures c.Lives(n) && Rd64(n, c.Spill()) == Rd64(m, c.Spill())
  {
    hide Keys, Rd64, ShimSet.Built, Keeps;
    SameTable(p, c.Place().iat, n);
    assert p.(iat := c.Place().iat) == c.Place();
    KeepsWord(p, e, m, n, c.Spill());
    KeepsWord(p, e, m, n, c.Place().iat);
  }

  lemma OnCourseStill(c: Scan, s: Cpu, m: Mem)
    requires c.OnCourse(s) && Rd64(m, c.Spill()) == Rd64(s.mem, c.Spill())
    ensures c.OnCourse(s.(mem := m))
  {
    hide Rd64, Keys;
  }

  lemma WriterSteps(c: Scan, a: System, b: System)
    requires c.Valid() && Inv(c, a) && WriteStep(c, a, b)
    ensures Inv(c, b)
  {
    hide Step, Keys, Rd64, Confined, EnterLoaded, InitLoaded, DeleteLoaded, Scan.OnCourse, Scan.Passed, InitOk,
         DeleteOk, Entry, Keeps;
    var g, s := c.op.g, a.Writer();
    match a.task {
      case Initing(e) =>
        SameTable(c.Place(), c.q.init.iat, a.mem);
        InitSteps(c.q.init.w, c.q.init.code, InitSite(c.q), g, c.slot, e, s);
        KeptForScanner(c, InitSite(c.q), e, a.mem, b.mem);
      case Deleting(e) =>
        SameTable(c.Place(), c.q.delete.iat, a.mem);
        DeleteSteps(c.q.delete.w, c.q.delete.code, DeleteSite(c.q), g, c.slot, e, s);
        KeptForScanner(c, DeleteSite(c.q), e, a.mem, b.mem);
    }
    if !a.left { OnCourseStill(c, a.Scanner(), b.mem); }
  }

  lemma InitStill(p: Site, g: u64, e: Cpu, s: Cpu, m: Mem)
    requires InitOk(p, g, e, s) && Keys(p, m) == Keys(p, s.mem)
    ensures InitOk(p, g, e, s.(mem := m))
  {
    hide Keys, Rd64, Entry;
    var t := s.(mem := m);
    if s.pc == 15 {
      var i :| Holds(p, s, i) && Keys(p, s.mem)[i] == 0;
      assert Holds(p, t, i);
    } else if 16 <= s.pc <= 18 {
      var i :| Holds(p, s, i) && (s.pc > 16 ==> s.regs.rcx == HostObject(p, i));
      assert Holds(p, t, i);
    }
  }

  lemma DeleteStill(p: Site, g: u64, e: Cpu, s: Cpu, m: Mem)
    requires DeleteOk(p, g, e, s) && Keys(p, m) == Keys(p, s.mem)
    ensures DeleteOk(p, g, e, s.(mem := m))
  {
    hide Keys, Rd64, Entry;
    if 13 <= s.pc <= 16 {
      var i :| Holds(p, s, i) && Keys(p, s.mem)[i] == e.regs.rcx
          && (14 <= s.pc <= 15 ==> s.regs.rcx == HostObject(p, i));
      assert Holds(p, s.(mem := m), i);
    }
  }

  /** A writer does not care what happens to memory as long as no key does. */
  lemma WriterStill(c: Scan, a: System, b: System)
    requires WriterOk(c, a) && b.task == a.task && b.writer == a.writer
    requires Keys(c.Place(), b.mem) == Keys(c.Place(), a.mem)
    ensures WriterOk(c, b)
  {
    hide Keys, Rd64, InitOk, DeleteOk, StackApart;
    match a.task {
      case Idle =>
      case Initing(e) =>
        SameTable(c.Place(), c.q.init.iat, a.mem);
        SameTable(c.Place(), c.q.init.iat, b.mem);
        InitStill(InitSite(c.q), c.op.g, e, a.Writer(), b.mem);
      case Deleting(e) =>
        SameTable(c.Place(), c.q.delete.iat, a.mem);
        SameTable(c.Place(), c.q.delete.iat, b.mem);
        DeleteStill(DeleteSite(c.q), c.op.g, e, a.Writer(), b.mem);
    }
  }

  lemma WriterArrives(c: Scan, a: System, b: System)
    requires Arrive(c, a, b)
    ensures WriterOk(c, b)
  {
    hide Keys, Rd64;
  }

  lemma StepKeepsInv(c: Scan, a: System, b: System)
    requires c.Valid() && Inv(c, a) && Next(c, a, b)
    ensures Inv(c, b)
  {
    hide Step, Keys, Rd64, Scan.Valid, Scan.OnCourse, WriterOk, Entry;
    if ScanStep(c, a, b) {
      ScannerSteps(c, a.Scanner());
      WriterStill(c, a, b);
    } else if WriteStep(c, a, b) {
      WriterSteps(c, a, b);
    } else if Arrive(c, a, b) {
      WriterArrives(c, a, b);
    } else {
      WriterStill(c, a, b);
      if !a.left { OnCourseStill(c, a.Scanner(), b.mem); }
    }
  }

  /** A run of the system: the shim has just been entered, and no writer is at work or one has come some way. */
  ghost predicate Execution(c: Scan, run: seq<System>) {
    && run != []
    && c.Lives(run[0].mem) && WriterOk(c, run[0])
    && run[0].scanner == c.entry && !run[0].left
    && forall i :: 0 <= i < |run| - 1 ==> Next(c, run[i], run[i + 1])
  }

  /**
   In every interleaving the shim is still on its way to g's own slot, never at the exit for a missing guest, or
   has jumped to the host function with g's own host object and its caller's stack and registers.
   */
  lemma {:induction false} ScanFindsItsSlot(c: Scan, run: seq<System>, n: nat)
    requires c.Valid() && Execution(c, run) && n < |run|
    ensures Inv(c, run[n])
    ensures if run[n].left then c.Passed(run[n].scanner)
            else 0 <= run[n].scanner.pc <= 8 || 12 <= run[n].scanner.pc <= 16
    decreases n
  {
    hide Keys, Rd64, Next, WriterOk, ShimSet.Built;
    if n == 0 {
    } else {
      ScanFindsItsSlot(c, run, n - 1);
      assert Next(c, run[n - 1], run[n - 1 + 1]);
      StepKeepsInv(c, run[n - 1], run[n]);
    }
  }

  function Left(c: Scan, a: System): int { if a.left then 0 else c.Distance(a.scanner) }

  /** How often the shim has moved in the first n steps of the run. */
  function Moves(run: seq<System>, n: nat): nat
    requires n < |run|
  {
    if n == 0 then 0
    else Moves(run, n - 1) + if (run[n].scanner, run[n].left) != (run[n - 1].scanner, run[n - 1].left) then 1 else 0
  }

  lemma DistanceLeft(c: Scan, s: Cpu)
    requires c.OnCourse(s) && c.Valid()
    ensures c.Distance(s) > 0 && (s.pc == 16 ==> c.Distance(s) == 1)
  {
    hide Rd64, Keys, ShimSet.Built;
  }

  lemma SameDistance(c: Scan, s: Cpu, t: Cpu)
    requires s.pc == t.pc && s.regs == t.regs
    ensures c.Distance(s) == c.Distance(t)
  { }

  lemma ScanProgresses(c: Scan, a: System, b: System)
    requires c.Valid() && Inv(c, a) && ScanStep(c, a, b)
    ensures Left(c, b) < Left(c, a)
  {
    hide Step, Keys, Rd64, WriterOk, Scan.Valid, Scan.OnCourse, Scan.Lives, Scan.Passed, Scan.Distance;
    ScannerSteps(c, a.Scanner());
    DistanceLeft(c, a.Scanner());
    SameDistance(c, a.Scanner(), a.scanner);
  }

  lemma EntryDistance(c: Scan)
    requires c.Valid()
    ensures c.Distance(c.entry) == 5 * c.Place().slots + 9
  {
    hide ShimSet.Built;
  }

  /** Whatever the others do, the shim has jumped after at most five steps for each slot of the table and nine more. */
  lemma {:induction false} ScanIsBounded(c: Scan, run: seq<System>, n: nat)
    requires c.Valid() && Execution(c, run) && n < |run|
    ensures Left(c, run[n]) >= 0 && Moves(run, n) + Left(c, run[n]) <= 5 * c.Place().slots + 9
    ensures Moves(run, n) == 5 * c.Place().slots + 9 ==> run[n].left && c.Passed(run[n].scanner)
    decreases n
  {
    hide Keys, Rd64, WriterOk, Step, ShimSet.Built, Scan.Passed, Scan.OnCourse, Scan.Lives, Scan.Distance, Entry;
    ScanFindsItsSlot(c, run, n);
    if !run[n].left {
      DistanceLeft(c, run[n].Scanner());
      SameDistance(c, run[n].Scanner(), run[n].scanner);
    }
    if n == 0 {
      EntryDistance(c);
    } else {
      ScanIsBounded(c, run, n - 1);
      ScanFindsItsSlot(c, run, n - 1);
      var a, b := run[n - 1], run[n];
      assert Next(c, run[n - 1], run[n - 1 + 1]);
      if ScanStep(c, a, b) { ScanProgresses(c, a, b); }
    }
  }
}
