/**
 Runs of _setjmp3 and longjmp as the shim builder emits them, over the bytes of the stubs: what a jmp_buf
 and the shared save area hold, and what jumping through them restores.
 */
module NonLocalJumps {
  import opened Words
  import opened Memory
  import opened Machine
  import opened Stepping
  import opened JumpStubs

  const BUF_SIZE := 0x40
  const SHARED_SIZE := 24

  /** The first n of the words vs lie one after another from base. */
  ghost predicate Laid(m: Mem, base: int, vs: seq<u64>, n: nat) {
    n <= |vs| && forall i :: 0 <= i < n ==> Rd64(m, base + 8 * i) == vs[i]
  }

  lemma LaidNext(m: Mem, base: int, vs: seq<u64>, n: nat, lo: int, hi: int, from: Mem)
    requires n < |vs| && Laid(m, base, vs, n) && Agree(from, m, lo, hi)
    requires lo <= base && base + 8 * |vs| <= hi
    ensures var o := Wr64(m, base + 8 * n, vs[n]);
            Laid(o, base, vs, n + 1) && Agree(from, o, lo, hi)
  {
    hide Rd64, Wr64;
    var a := base + 8 * n;
    ReadBack64(m, a, vs[n]);
    WriteAgree64(m, a, vs[n]);
    forall i | 0 <= i < n ensures Rd64(Wr64(m, a, vs[n]), base + 8 * i) == vs[i] {
      ReadOther64(m, a, vs[n], base + 8 * i);
    }
    AgreeChain(from, m, Wr64(m, a, vs[n]), lo, hi, a, a + 8);
  }

  lemma LaidAgree(m: Mem, n: Mem, lo: int, hi: int, base: int, vs: seq<u64>, k: nat)
    requires Laid(m, base, vs, k) && Agree(m, n, lo, hi) && Clear(base, 8 * k, lo, hi)
    ensures Laid(n, base, vs, k)
  {
    hide Rd64;
    forall i | 0 <= i < k ensures Rd64(n, base + 8 * i) == vs[i] {
      ReadAgree(m, n, lo, hi, base + 8 * i);
    }
  }

  /** The state of a processor that setjmp is to bring back, eight words to the jmp_buf. */
  function Snapshot(s: Cpu): (vs: seq<u64>)
    ensures |vs| == 8
  {
    [s.regs.rbp, s.regs.rbx, s.regs.rdi, s.regs.rsi, Wrap(s.regs.rsp + 8), Rd64(s.mem, s.regs.rsp),
     s.teb.exceptionList, s.regs.r13]
  }

  /** And three to the shared area. */
  function SharedSnapshot(s: Cpu): (vs: seq<u64>)
    ensures |vs| == 3
  {
    [s.regs.r12, s.regs.r14, s.regs.r15]
  }

  /** Virtual address of the shared save area, as the lea with displacement d computes it. */
  function SharedAt(w: World, next: int, d: int): u64 { Wrap(w.text + next + d) }

  /** _setjmp3 is entered with its buffer in rcx; buffer, save area and return address lie apart. */
  ghost predicate SetEntry(w: World, d: int, s: Cpu) {
    var buf, nv, sp := s.regs.rcx, SharedAt(w, 56, d), s.regs.rsp;
    && s.status == Running && s.pc == 0
    && buf + BUF_SIZE <= 0x1_0000_0000_0000_0000 && nv + SHARED_SIZE <= 0x1_0000_0000_0000_0000
    && sp + 8 <= 0x1_0000_0000_0000_0000
    && Clear(buf, BUF_SIZE, nv, nv + SHARED_SIZE)
    && Clear(sp, 8, buf, buf + BUF_SIZE) && Clear(sp, 8, nv, nv + SHARED_SIZE)
  }

  /** How far _setjmp3 has come: the first n words of the buffer are laid. */
  ghost predicate Saving(s: Cpu, t: Cpu, n: nat) {
    && t == s.(regs := s.regs.(rax := t.regs.rax), mem := t.mem, pc := t.pc)
    && Laid(t.mem, s.regs.rcx, Snapshot(s), n)
    && Agree(s.mem, t.mem, s.regs.rcx, s.regs.rcx + BUF_SIZE)
  }

  /** One store of the next word of the snapshot. */
  lemma SaveWord(tr: Trace, d: int, s: Cpu, pc: int, n: nat, r: Reg) returns (t: Cpu)
    requires SetEntry(tr.w, d, tr.from) && Saving(tr.from, s, n) && n < 8
    requires tr.Next(s, pc, Mov(Qword, M(RCX, 8 * n), R(r))) && s.regs.Get(r) == Snapshot(tr.from)[n]
    ensures tr.At(t) && Saving(tr.from, t, n + 1) && t.pc == tr.After(pc) && t.regs == s.regs
  {
    hide Reaches, Run, Step, Exec, Rd64, Wr64, Laid, Agree, Snapshot;
    LaidNext(s.mem, tr.from.regs.rcx, Snapshot(tr.from), n, tr.from.regs.rcx, tr.from.regs.rcx + BUF_SIZE, tr.from.mem);
    t := tr.DoStore(s, pc, M(RCX, 8 * n), r);
  }

  lemma SnapshotWords(s: Cpu)
    ensures var vs := Snapshot(s);
            && vs[0] == s.regs.rbp && vs[1] == s.regs.rbx && vs[2] == s.regs.rdi && vs[3] == s.regs.rsi
            && vs[4] == Wrap(s.regs.rsp + 8) && vs[5] == Rd64(s.mem, s.regs.rsp)
            && vs[6] == s.teb.exceptionList && vs[7] == s.regs.r13
  {
    hide Rd64;
  }

  lemma Starts(tr: Trace, d: int)
    requires SetEntry(tr.w, d, tr.from)
    ensures tr.At(tr.from) && tr.from.pc == 0 && Saving(tr.from, tr.from, 0)
  {
    hide Reaches;
    tr.Begin();
  }

  lemma SaveFour(tr: Trace, d: int) returns (t: Cpu)
    requires Runs(tr.code, Setjmp(true, d), 71) && SetEntry(tr.w, d, tr.from)
    ensures tr.At(t) && t.pc == 15 && Saving(tr.from, t, 4)
  {
    hide Reaches, Run, Step, Exec, Rd64, Wr64, Snapshot, SetEntry, Saving;
    Starts(tr, d);
    SnapshotWords(tr.from);
    t := tr.from;
    t := SaveWord(tr, d, t, 0, 0, RBP);
    t := SaveWord(tr, d, t, 3, 1, RBX);
    t := SaveWord(tr, d, t, 7, 2, RDI);
    t := SaveWord(tr, d, t, 11, 3, RSI);
  }

  /** The return address, which the buffer does not overlap. */
  lemma ReturnAddress(tr: Trace, d: int, s: Cpu, n: nat)
    requires SetEntry(tr.w, d, tr.from) && Saving(tr.from, s, n)
    ensures Rd64(s.mem, tr.from.regs.rsp) == Snapshot(tr.from)[5]
  {
    hide Rd64, Laid;
    ReadAgree(tr.from.mem, s.mem, tr.from.regs.rcx, tr.from.regs.rcx + BUF_SIZE, tr.from.regs.rsp);
  }

  lemma SaveStackPointer(tr: Trace, d: int, s: Cpu) returns (t: Cpu)
    requires Runs(tr.code, Setjmp(true, d), 71) && SetEntry(tr.w, d, tr.from)
    requires tr.At(s) && s.pc == 15 && Saving(tr.from, s, 4)
    ensures tr.At(t) && t.pc == 24 && Saving(tr.from, t, 5)
  {
    hide Reaches, Run, Step, Exec, Rd64, Wr64, Snapshot, Laid, Agree, SetEntry;
    SnapshotWords(tr.from);
    t := tr.DoLea(s, 15, Qword, RAX, M(RSP, 8));
    t := SaveWord(tr, d, t, 20, 4, RAX);
  }

  lemma SaveReturnAddress(tr: Trace, d: int, s: Cpu) returns (t: Cpu)
    requires Runs(tr.code, Setjmp(true, d), 71) && SetEntry(tr.w, d, tr.from)
    requires tr.At(s) && s.pc == 24 && Saving(tr.from, s, 5)
    ensures tr.At(t) && t.pc == 32 && Saving(tr.from, t, 6)
  {
    hide Reaches, Run, Step, Exec, Rd64, Wr64, Snapshot, Laid, Agree, SetEntry;
    ReturnAddress(tr, d, s, 5);
    t := tr.DoLoad(s, 24, RAX, M(RSP, 0));
    t := SaveWord(tr, d, t, 28, 5, RAX);
  }

  lemma SaveChain(tr: Trace, d: int, s: Cpu) returns (t: Cpu)
    requires Runs(tr.code, Setjmp(true, d), 71) && SetEntry(tr.w, d, tr.from)
    requires tr.At(s) && s.pc == 32 && Saving(tr.from, s, 6)
    ensures tr.At(t) && t.pc == 49 && Saving(tr.from, t, 8)
  {
    hide Reaches, Run, Step, Exec, Rd64, Wr64, Snapshot, Laid, Agree, SetEntry;
    SnapshotWords(tr.from);
    t := tr.DoReadTeb(s, 32, RAX, 0);
    t := SaveWord(tr, d, t, 41, 6, RAX);
    t := SaveWord(tr, d, t, 45, 7, R13);
  }

  /** The buffer is saved; n words of the shared area are. */
  ghost predicate Sharing(w: World, d: int, s: Cpu, t: Cpu, m: Mem, n: nat) {
    var nv := SharedAt(w, 56, d);
    && t == s.(regs := s.regs.(rax := nv), mem := t.mem, pc := t.pc)
    && Laid(t.mem, nv, SharedSnapshot(s), n)
    && Agree(m, t.mem, nv, nv + SHARED_SIZE)
  }

  lemma ShareWord(tr: Trace, d: int, s: Cpu, pc: int, m: Mem, n: nat, r: Reg) returns (t: Cpu)
    requires SetEntry(tr.w, d, tr.from) && Sharing(tr.w, d, tr.from, s, m, n) && n < 3
    requires tr.Next(s, pc, Mov(Qword, M(RAX, 8 * n), R(r))) && s.regs.Get(r) == SharedSnapshot(tr.from)[n]
    ensures tr.At(t) && Sharing(tr.w, d, tr.from, t, m, n + 1) && t.pc == tr.After(pc) && t.regs == s.regs
  {
    hide Reaches, Run, Step, Exec, Rd64, Wr64, Laid, Agree, SharedSnapshot;
    var nv := SharedAt(tr.w, 56, d);
    LaidNext(s.mem, nv, SharedSnapshot(tr.from), n, nv, nv + SHARED_SIZE, m);
    t := tr.DoStore(s, pc, M(RAX, 8 * n), r);
  }

  lemma ShareStart(tr: Trace, d: int, s: Cpu) returns (t: Cpu)
    requires Runs(tr.code, Setjmp(true, d), 71)
    requires tr.At(s) && s.pc == 49 && Saving(tr.from, s, 8)
    ensures tr.At(t) && t.pc == 56 && Sharing(tr.w, d, tr.from, t, s.mem, 0)
  {
    hide Reaches, Run, Step, Exec, Rd64, Wr64, SharedSnapshot, Snapshot;
    t := tr.DoLea(s, 49, Qword, RAX, Rip(d));
  }

  lemma SharedWords(s: Cpu)
    ensures var vs := SharedSnapshot(s); vs[0] == s.regs.r12 && vs[1] == s.regs.r14 && vs[2] == s.regs.r15
  { }

  lemma SharingRegisters(w: World, d: int, s: Cpu, t: Cpu, m: Mem, n: nat)
    requires Sharing(w, d, s, t, m, n)
    ensures t.regs == s.regs.(rax := t.regs.rax)
  { }

  lemma ShareThree(tr: Trace, d: int, s: Cpu, m: Mem) returns (t: Cpu)
    requires Runs(tr.code, Setjmp(true, d), 71) && SetEntry(tr.w, d, tr.from)
    requires tr.At(s) && s.pc == 56 && Sharing(tr.w, d, tr.from, s, m, 0)
    ensures tr.At(t) && t.pc == 68 && Sharing(tr.w, d, tr.from, t, m, 3)
  {
    hide Reaches, Run, Step, Exec, Rd64, Wr64, SharedSnapshot, SetEntry, Sharing, SharedAt, Wrap;
    SharedWords(tr.from);
    SharingRegisters(tr.w, d, tr.from, s, m, 0);
    t := ShareWord(tr, d, s, 56, m, 0, R12);
    assert t.regs == s.regs && t.pc == 60;
    t := ShareWord(tr, d, t, 60, m, 1, R14);
    assert t.regs == s.regs && t.pc == 64;
    t := ShareWord(tr, d, t, 64, m, 2, R15);
  }

  /** What lies in memory after _setjmp3 was entered in s. */
  ghost predicate Saved(w: World, d: int, s: Cpu, m: Mem) {
    Laid(m, s.regs.rcx, Snapshot(s), 8) && Laid(m, SharedAt(w, 56, d), SharedSnapshot(s), 3)
  }

  /** _setjmp3, entered in tr.from, has returned in t. */
  ghost predicate SetReturned(tr: Trace, d: int, t: Cpu) {
    var s := tr.from;
    && tr.At(t)
    && t.regs == s.regs.(rax := 0, rsp := Wrap(s.regs.rsp + 8)) && t.teb == s.teb
    && tr.w.text + t.pc == Rd64(s.mem, s.regs.rsp)
    && Saved(tr.w, d, s, t.mem)
  }

  /** The return address survives unless it overlaps the shared area. */
  lemma ReadTwice(l: Mem, m: Mem, n: Mem, lo: int, hi: int, a: int, b: int, at: int)
    requires Agree(l, m, lo, hi) && Agree(m, n, a, b)
    ensures Clear(at, 8, lo, hi) && Clear(at, 8, a, b) ==> Rd64(n, at) == Rd64(l, at)
  {
    ReadAgree(l, m, lo, hi, at);
    ReadAgree(m, n, a, b, at);
  }

  lemma SetReturn(tr: Trace, d: int, s: Cpu) returns (t: Cpu)
    requires Runs(tr.code, Setjmp(true, d), 71) && tr.At(s) && s.pc == 68
    ensures tr.At(t)
    ensures t == s.(regs := s.regs.(rax := 0, rsp := Wrap(s.regs.rsp + 8)), flags := t.flags,
                    pc := Rd64(s.mem, s.regs.rsp) - tr.w.text)
  {
    hide Reaches, Run, Step, Exec, Rd64;
    t := tr.DoZero(s, 68, RAX);
    t := tr.DoRet(t, 70);
  }

  /**
   _setjmp3 returns 0 with every other register as it was; the buffer and the shared area hold the state to
   come back to, and no other memory changes.
   */
  lemma SetjmpRun(tr: Trace, d: int) returns (t: Cpu)
    requires Runs(tr.code, Setjmp(true, d), 71) && SetEntry(tr.w, d, tr.from)
    ensures SetReturned(tr, d, t)
    ensures var buf, nv := tr.from.regs.rcx, SharedAt(tr.w, 56, d);
            forall a | Clear(a, 1, buf, buf + BUF_SIZE) && Clear(a, 1, nv, nv + SHARED_SIZE) ::
              Peek(t.mem, a) == Peek(tr.from.mem, a)
  {
    hide Reaches, Rd64, Laid, Runs, Snapshot, SharedSnapshot;
    var s, nv := tr.from, SharedAt(tr.w, 56, d);
    t := SaveFour(tr, d);
    t := SaveStackPointer(tr, d, t);
    t := SaveReturnAddress(tr, d, t);
    t := SaveChain(tr, d, t);
    var m := t.mem;
    t := ShareStart(tr, d, t);
    t := ShareThree(tr, d, t, m);
    LaidAgree(m, t.mem, nv, nv + SHARED_SIZE, s.regs.rcx, Snapshot(s), 8);
    ReadTwice(s.mem, m, t.mem, s.regs.rcx, s.regs.rcx + BUF_SIZE, nv, nv + SHARED_SIZE, s.regs.rsp);
    t := SetReturn(tr, d, t);
  }

  /** longjmp is entered with a buffer in rcx; its push slot lies apart from the buffer and the save area. */
  ghost predicate JumpEntry(w: World, e: int, s: Cpu) {
    var buf, nv, sp := s.regs.rcx, SharedAt(w, 27, e), s.regs.rsp;
    && s.status == Running && s.pc == 0 && 8 <= sp
    && buf + BUF_SIZE <= 0x1_0000_0000_0000_0000 && nv + SHARED_SIZE <= 0x1_0000_0000_0000_0000
    && Clear(buf, BUF_SIZE, sp - 8, sp) && Clear(nv, SHARED_SIZE, sp - 8, sp)
  }

  /** Word i of the buffer longjmp was given, and of the shared area. */
  function Word(s: Cpu, i: nat): u64 { Rd64(s.mem, s.regs.rcx + 8 * i) }

  function SharedWord(w: World, e: int, s: Cpu, i: nat): u64 { Rd64(s.mem, SharedAt(w, 27, e) + 8 * i) }

  /** Memory with the value to return spilled on longjmp's own stack. */
  function Spilled(s: Cpu): Mem { Wr64(s.mem, s.regs.rsp - 8, s.regs.rdx) }

  lemma WordsSpilled(w: World, e: int, s: Cpu, i: nat)
    requires JumpEntry(w, e, s)
    ensures i < 8 ==> Rd64(Spilled(s), s.regs.rcx + 8 * i) == Word(s, i)
    ensures i < 3 ==> Rd64(Spilled(s), SharedAt(w, 27, e) + 8 * i) == SharedWord(w, e, s, i)
  {
    hide Rd64, Wr64;
    ReadOther64(s.mem, s.regs.rsp - 8, s.regs.rdx, s.regs.rcx + 8 * i);
    ReadOther64(s.mem, s.regs.rsp - 8, s.regs.rdx, SharedAt(w, 27, e) + 8 * i);
  }

  /** `mov r, [rcx + 8i]`. */
  lemma RestoreWord(tr: Trace, e: int, s: Cpu, pc: int, i: nat, r: Reg) returns (t: Cpu)
    requires JumpEntry(tr.w, e, tr.from) && i < 8 && s.mem == Spilled(tr.from) && s.regs.rcx == tr.from.regs.rcx
    requires tr.Next(s, pc, Mov(Qword, R(r), M(RCX, 8 * i)))
    ensures tr.At(t) && t == s.(regs := s.regs.Set(r, Word(tr.from, i)), pc := tr.After(pc))
  {
    hide Reaches, Run, Step, Exec, Rd64, Spilled, Word;
    WordsSpilled(tr.w, e, tr.from, i);
    t := tr.DoLoad(s, pc, r, M(RCX, 8 * i));
  }

  lemma RestoreShared(tr: Trace, e: int, s: Cpu, pc: int, i: nat, r: Reg) returns (t: Cpu)
    requires JumpEntry(tr.w, e, tr.from) && i < 3 && s.mem == Spilled(tr.from) && s.regs.rax == SharedAt(tr.w, 27, e)
    requires tr.Next(s, pc, Mov(Qword, R(r), M(RAX, 8 * i)))
    ensures tr.At(t) && t == s.(regs := s.regs.Set(r, SharedWord(tr.w, e, tr.from, i)), pc := tr.After(pc))
  {
    hide Reaches, Run, Step, Exec, Rd64, Spilled, SharedWord;
    WordsSpilled(tr.w, e, tr.from, i);
    t := tr.DoLoad(s, pc, r, M(RAX, 8 * i));
  }

  lemma JumpRegisters(tr: Trace, e: int) returns (t: Cpu)
    requires Runs(tr.code, Longjmp(true, e, 1, 5), 82) && JumpEntry(tr.w, e, tr.from)
    ensures tr.At(t)
    ensures var s := tr.from;
            t == s.(regs := s.regs.(rsp := s.regs.rsp - 8, rbp := Word(s, 0), rbx := Word(s, 1), rdi := Word(s, 2),
                                    rsi := Word(s, 3)), mem := Spilled(s), pc := 16)
  {
    hide Reaches, Run, Step, Exec, Rd64, Wr64, Word;
    tr.Begin();
    t := tr.DoPush(tr.from, 0, RDX);
    t := RestoreWord(tr, e, t, 1, 0, RBP);
    t := RestoreWord(tr, e, t, 4, 1, RBX);
    t := RestoreWord(tr, e, t, 8, 2, RDI);
    t := RestoreWord(tr, e, t, 12, 3, RSI);
  }

  lemma JumpTwo(tr: Trace, e: int, s: Cpu) returns (t: Cpu)
    requires Runs(tr.code, Longjmp(true, e, 1, 5), 82) && JumpEntry(tr.w, e, tr.from)
    requires tr.At(s) && s.pc == 31 && s.mem == Spilled(tr.from) && s.regs.rax == SharedAt(tr.w, 27, e)
    ensures tr.At(t)
    ensures var f := tr.from;
            t == s.(regs := s.regs.(r14 := SharedWord(tr.w, e, f, 1), r15 := SharedWord(tr.w, e, f, 2)), pc := 39)
  {
    hide Reaches, Run, Step, Exec, Rd64, SharedWord, Spilled, JumpEntry, SharedAt;
    t := RestoreShared(tr, e, s, 31, 1, R14);
    t := RestoreShared(tr, e, t, 35, 2, R15);
  }

  lemma JumpShared(tr: Trace, e: int, s: Cpu) returns (t: Cpu)
    requires Runs(tr.code, Longjmp(true, e, 1, 5), 82) && JumpEntry(tr.w, e, tr.from)
    requires tr.At(s) && s.pc == 16 && s.mem == Spilled(tr.from) && s.regs.rcx == tr.from.regs.rcx
    ensures tr.At(t)
    ensures var f := tr.from;
            t == s.(regs := s.regs.(r13 := Word(f, 7), rax := SharedAt(tr.w, 27, e), r12 := SharedWord(tr.w, e, f, 0),
                                    r14 := SharedWord(tr.w, e, f, 1), r15 := SharedWord(tr.w, e, f, 2)), pc := 39)
  {
    hide Reaches, Run, Step, Exec, Rd64, Wr64, Word, SharedWord, Spilled;
    t := RestoreWord(tr, e, s, 16, 7, R13);
    t := tr.DoLea(t, 20, Qword, RAX, Rip(e));
    t := RestoreShared(tr, e, t, 27, 0, R12);
    t := JumpTwo(tr, e, t);
  }

  lemma JumpGuard(tr: Trace, e: int, s: Cpu) returns (t: Cpu)
    requires Runs(tr.code, Longjmp(true, e, 1, 5), 82) && tr.At(s) && s.pc == 47
    ensures tr.At(t)
    ensures t == s.(teb := s.teb.(exceptionList := s.regs.rax), flags := t.flags, pc := if s.regs.r10 == 0 then 61
                    else 62)
  {
    hide Reaches, Run, Step, Exec;
    t := tr.DoWriteTeb(s, 47, 0, RAX);
    t := tr.DoTestSelf(t, 56, Qword, R10);
    t := tr.DoBranch(t, 59, NE, 1);
  }

  lemma JumpChain(tr: Trace, e: int, s: Cpu) returns (t: Cpu)
    requires Runs(tr.code, Longjmp(true, e, 1, 5), 82) && JumpEntry(tr.w, e, tr.from)
    requires tr.At(s) && s.pc == 39 && s.mem == Spilled(tr.from) && s.regs.rcx == tr.from.regs.rcx
    ensures tr.At(t)
    ensures var f := tr.from;
            t == s.(regs := s.regs.(r10 := Word(f, 5), rax := Word(f, 6)),
                    teb := s.teb.(exceptionList := Word(f, 6)), flags := t.flags, pc := if Word(f, 5) == 0 then 61
                        else 62)
  {
    hide Reaches, Run, Step, Exec, Rd64, Wr64, Word, Spilled;
    t := RestoreWord(tr, e, s, 39, 5, R10);
    t := RestoreWord(tr, e, t, 43, 6, RAX);
    t := JumpGuard(tr, e, t);
  }

  /** What setjmp returns for a value passed to longjmp: its low half sign-extended, and 1 in place of 0. */
  function ReturnValue(v: u64): u64 {
    if Low32(v) == 0 then 1 else Wrap(Signed32(Low32(v)))
  }

  lemma JumpDefault(tr: Trace, e: int, s: Cpu) returns (t: Cpu)
    requires Runs(tr.code, Longjmp(true, e, 1, 5), 82) && tr.At(s) && s.pc == 63
    ensures tr.At(t)
    ensures t == s.(regs := s.regs.(rax := if Low32(s.regs.rax) == 0 then 1 else s.regs.rax), flags := t.flags,
                    pc := 72)
  {
    hide Reaches, Run, Step, Exec;
    t := tr.DoTestSelf(s, 63, Dword, RAX);
    t := tr.DoBranch(t, 65, NE, 5);
    if t.pc == 67 {
      t := tr.DoImmediate(t, 67, Dword, RAX, 1);
    }
  }

  lemma JumpValue(tr: Trace, e: int, s: Cpu) returns (t: Cpu)
    requires Runs(tr.code, Longjmp(true, e, 1, 5), 82) && JumpEntry(tr.w, e, tr.from)
    requires tr.At(s) && s.pc == 62 && s.mem == Spilled(tr.from) && s.regs.rsp == tr.from.regs.rsp - 8
    ensures tr.At(t)
    ensures t == s.(regs := s.regs.(rsp := tr.from.regs.rsp, rax := ReturnValue(tr.from.regs.rdx)), flags := t.flags,
                    pc := 75)
  {
    hide Reaches, Run, Step, Exec, Rd64, Wr64;
    ReadBack64(tr.from.mem, tr.from.regs.rsp - 8, tr.from.regs.rdx);
    t := tr.DoPop(s, 62, RAX);
    t := JumpDefault(tr, e, t);
    t := tr.DoSignExtend(t, 72, RAX, RAX);
  }

  /** `push r10; ret` goes where r10 points. */
  lemma JumpThrough(tr: Trace, e: int, s: Cpu) returns (t: Cpu)
    requires Runs(tr.code, Longjmp(true, e, 1, 5), 82) && tr.At(s) && s.pc == 79
    ensures tr.At(t)
    ensures t == s.(mem := Wr64(s.mem, Wrap(s.regs.rsp - 8), s.regs.r10), pc := s.regs.r10 - tr.w.text)
  {
    hide Reaches, Run, Step, Exec, Rd64, Wr64;
    ReadBack64(s.mem, Wrap(s.regs.rsp - 8), s.regs.r10);
    t := tr.DoPush(s, 79, R10);
    t := tr.DoRet(t, 81);
  }

  lemma JumpLeave(tr: Trace, e: int, s: Cpu) returns (t: Cpu)
    requires Runs(tr.code, Longjmp(true, e, 1, 5), 82) && JumpEntry(tr.w, e, tr.from)
    requires tr.At(s) && s.pc == 75 && s.mem == Spilled(tr.from) && s.regs.rcx == tr.from.regs.rcx
    ensures tr.At(t)
    ensures var sp := Word(tr.from, 4);
            t == s.(regs := s.regs.(rsp := sp), mem := Wr64(s.mem, Wrap(sp - 8), s.regs.r10),
                    pc := s.regs.r10 - tr.w.text)
  {
    hide Reaches, Run, Step, Exec, Rd64, Wr64, Word, Spilled;
    t := RestoreWord(tr, e, s, 75, 4, RSP);
    t := JumpThrough(tr, e, t);
  }

  /** longjmp, entered in tr.from, has left in t through what the buffer and the shared area held. */
  ghost predicate JumpReturned(tr: Trace, e: int, t: Cpu) {
    var f := tr.from;
    && Reaches(tr.w, tr.code, f, t)
    && if Word(f, 5) == 0 then t.status == Trapped
       else
         && t.status == Running && t.pc == Word(f, 5) - tr.w.text
         && t.regs.rsp == Word(f, 4) && t.regs.rbp == Word(f, 0) && t.regs.rbx == Word(f, 1)
         && t.regs.rdi == Word(f, 2) && t.regs.rsi == Word(f, 3) && t.regs.r13 == Word(f, 7)
         && t.regs.r12 == SharedWord(tr.w, e, f, 0) && t.regs.r14 == SharedWord(tr.w, e, f, 1)
         && t.regs.r15 == SharedWord(tr.w, e, f, 2)
         && t.teb == f.teb.(exceptionList := Word(f, 6))
         && t.regs.rax == ReturnValue(f.regs.rdx)
         && t.mem == Wr64(Spilled(f), Wrap(Word(f, 4) - 8), Word(f, 5))
  }

  /**
   longjmp through a buffer whose return address is 0 traps. Through any other it continues at that
   address with the stack, frame, chain and registers the buffer and the shared area hold.
   */
  lemma LongjmpRun(tr: Trace, e: int) returns (t: Cpu)
    requires Runs(tr.code, Longjmp(true, e, 1, 5), 82) && JumpEntry(tr.w, e, tr.from)
    ensures JumpReturned(tr, e, t)
  {
    hide Reaches, Run, Step, Exec, Rd64, Wr64, Word, SharedWord, Spilled;
    t := JumpRegisters(tr, e);
    t := JumpShared(tr, e, t);
    t := JumpChain(tr, e, t);
    if Word(tr.from, 5) == 0 {
      t := tr.DoTrap(t, 61);
    } else {
      t := JumpValue(tr, e, t);
      t := JumpLeave(tr, e, t);
    }
  }
}
