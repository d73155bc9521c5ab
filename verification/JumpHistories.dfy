/** What setjmp and longjmp do to each other, over any number of buffers that share three registers. */
module JumpHistories {
  import opened Wrappers
  import opened Words
  import opened Memory
  import opened Machine
  import opened Stepping
  import opened Codec
  import opened JumpStubs
  import opened NonLocalJumps

  /** The bytes from lo up to hi are the same in both memories. */
  ghost predicate Kept(m: Mem, n: Mem, lo: int, hi: int) {
    forall a :: lo <= a < hi ==> Peek(m, a) == Peek(n, a)
  }

  lemma LaidKept(m: Mem, n: Mem, base: int, vs: seq<u64>, k: nat)
    requires Laid(m, base, vs, k) && Kept(m, n, base, base + 8 * k)
    ensures Laid(n, base, vs, k)
  {
    forall i | 0 <= i < k ensures Rd64(n, base + 8 * i) == vs[i] {
      LoadSame(m, n, base + 8 * i, base + 8 * i + 8);
    }
  }

  /** longjmp, entered in tr.from, has left in t through a buffer that was set in s; sh entered setjmp last. */
  ghost predicate Restored(tr: Trace, s: Cpu, sh: Cpu, t: Cpu) {
    if Rd64(s.mem, s.regs.rsp) == 0 then t.status == Trapped
    else
      && t.status == Running && tr.w.text + t.pc == Rd64(s.mem, s.regs.rsp)
      && t.regs.rsp == Wrap(s.regs.rsp + 8) && t.regs.rbp == s.regs.rbp && t.regs.rbx == s.regs.rbx
      && t.regs.rdi == s.regs.rdi && t.regs.rsi == s.regs.rsi && t.regs.r13 == s.regs.r13
      && t.regs.r12 == sh.regs.r12 && t.regs.r14 == sh.regs.r14 && t.regs.r15 == sh.regs.r15
      && t.teb == tr.from.teb.(exceptionList := s.teb.exceptionList)
      && t.regs.rax == ReturnValue(tr.from.regs.rdx)
  }

  lemma LaidWords(f: Cpu, vs: seq<u64>)
    requires |vs| == 8 && Laid(f.mem, f.regs.rcx, vs, 8)
    ensures && Word(f, 0) == vs[0] && Word(f, 1) == vs[1] && Word(f, 2) == vs[2] && Word(f, 3) == vs[3]
            && Word(f, 4) == vs[4] && Word(f, 5) == vs[5] && Word(f, 6) == vs[6] && Word(f, 7) == vs[7]
  {
    hide Rd64;
  }

  lemma LaidShared(w: World, e: int, f: Cpu, vs: seq<u64>)
    requires |vs| == 3 && Laid(f.mem, SharedAt(w, 27, e), vs, 3)
    ensures SharedWord(w, e, f, 0) == vs[0] && SharedWord(w, e, f, 1) == vs[1] && SharedWord(w, e, f, 2) == vs[2]
  {
    hide Rd64;
  }

  lemma Restores(tr: Trace, e: int, s: Cpu, sh: Cpu) returns (t: Cpu)
    requires Runs(tr.code, Longjmp(true, e, 1, 5), 82) && JumpEntry(tr.w, e, tr.from)
    requires Laid(tr.from.mem, tr.from.regs.rcx, Snapshot(s), 8)
    requires Laid(tr.from.mem, SharedAt(tr.w, 27, e), SharedSnapshot(sh), 3)
    ensures Reaches(tr.w, tr.code, tr.from, t) && Restored(tr, s, sh, t)
    ensures t.status == Running ==>
              t.mem == Wr64(Spilled(tr.from), s.regs.rsp, Rd64(s.mem, s.regs.rsp))
  {
    hide Reaches, Rd64, Wr64, Spilled, Runs;
    t := LongjmpRun(tr, e);
    SnapshotWords(s);
    SharedWords(sh);
    LaidWords(tr.from, Snapshot(s));
    LaidShared(tr.w, e, tr.from, SharedSnapshot(sh));
    hide Laid, Snapshot, SharedSnapshot, Word, SharedWord;
  }

  /** Both leas, placed by the builder in a common image, address the shared area. */
  lemma SameSharedArea(base: int, textRva: int, setOff: int, jumpOff: int, nvRva: int, w: World, u: World)
    requires w.text == base + textRva + setOff && u.text == base + textRva + jumpOff
    ensures SharedAt(w, 56, SharedDistance(SETJMP_LEA, setOff, nvRva, textRva)) == Wrap(base + nvRva)
    ensures SharedAt(u, 27, SharedDistance(LONGJMP_LEA, jumpOff, nvRva, textRva)) == Wrap(base + nvRva)
  { }

  /**
   longjmp undoes setjmp. If buffer and shared area are as setjmp left them, a jump through the buffer
   lands where setjmp returned, with its stack pointer, nonvolatile registers and exception chain; only the
   value returned is longjmp's. If setjmp was given a return address of 0 the jump traps.
   */
  lemma JumpUndoesSet(call: Trace, d: int, back: Cpu, jump: Trace, e: int) returns (t: Cpu)
    requires SetReturned(call, d, back)
    requires Runs(jump.code, Longjmp(true, e, 1, 5), 82) && JumpEntry(jump.w, e, jump.from)
    requires jump.from.regs.rcx == call.from.regs.rcx && SharedAt(jump.w, 27, e) == SharedAt(call.w, 56, d)
    requires Kept(back.mem, jump.from.mem, call.from.regs.rcx, call.from.regs.rcx + BUF_SIZE)
    requires Kept(back.mem, jump.from.mem, SharedAt(call.w, 56, d), SharedAt(call.w, 56, d) + SHARED_SIZE)
    ensures Reaches(jump.w, jump.code, jump.from, t)
    ensures t.status == Trapped <==> call.w.text + back.pc == 0
    ensures t.status == Running ==>
              && jump.w.text + t.pc == call.w.text + back.pc
              && t.regs == back.regs.(rax := ReturnValue(jump.from.regs.rdx), rcx := t.regs.rcx, rdx := t.regs.rdx,
                                      r8 := t.regs.r8, r9 := t.regs.r9, r10 := t.regs.r10, r11 := t.regs.r11)
              && t.teb.exceptionList == back.teb.exceptionList
  {
    hide Reaches, Rd64, Runs, SharedAt;
    LaidKept(back.mem, jump.from.mem, call.from.regs.rcx, Snapshot(call.from), 8);
    LaidKept(back.mem, jump.from.mem, SharedAt(call.w, 56, d), SharedSnapshot(call.from), 3);
    hide Laid, Kept, Snapshot, SharedSnapshot;
    t := Restores(jump, e, call.from, call.from);
  }

  // Histories of calls.

  /** The two patched stubs of one image, which agree on where the shared area is. */
  datatype Image = Image(ws: World, cs: Code, d: int, wj: World, cj: Code, e: int)
  {
    ghost predicate Built() {
      && Runs(cs, Setjmp(true, d), 71) && Runs(cj, Longjmp(true, e, 1, 5), 82)
      && SharedAt(ws, 56, d) == SharedAt(wj, 27, e)
    }

    function Shared(): u64 { SharedAt(ws, 56, d) }
  }

  /** A call of one of them, from entry to where it left. */
  datatype Call = Call(jumps: bool, entry: Cpu, exit: Cpu)
  {
    function Buffer(): u64 { entry.regs.rcx }

    /** The stub ran on this entry and left this exit. */
    ghost predicate Happened(g: Image) {
      if jumps then
        JumpEntry(g.wj, g.e, entry) && JumpReturned(Trace(g.wj, g.cj, entry), g.e, exit)
      else
        && SetEntry(g.ws, g.d, entry) && SetReturned(Trace(g.ws, g.cs, entry), g.d, exit)
        && forall a | Clear(a, 1, Buffer(), Buffer() + BUF_SIZE) && Clear(a, 1, g.Shared(), g.Shared() + SHARED_SIZE) ::
             Peek(exit.mem, a) == Peek(entry.mem, a)
    }

    /** Neither stack word a jump writes lies in lo .. hi-1. */
    ghost predicate StackClear(lo: int, hi: int) {
      jumps && exit.status == Running ==>
        && Clear(entry.regs.rsp - 8, 8, lo, hi)
        && Clear(Wrap(exit.regs.rsp - 8), 8, lo, hi)
    }
  }

  /** A run of the guest seen at its calls, of which only the last may have trapped. */
  ghost predicate History(g: Image, h: seq<Call>) {
    && g.Built()
    && (forall i :: 0 <= i < |h| ==> h[i].Happened(g))
    && (forall i :: 0 <= i < |h| - 1 ==> h[i].exit.status == Running)
  }

  /** From call k to call n the n bytes at lo survive the stack writes of jumps and what the guest does in between. */
  ghost predicate Undisturbed(h: seq<Call>, k: int, n: int, lo: int, size: nat) {
    forall i :: 0 <= k <= i < n < |h| ==>
      h[i].StackClear(lo, lo + size) && Kept(h[i].exit.mem, h[i + 1].entry.mem, lo, lo + size)
  }

  /** The buffer set by call k is live up to call n: nobody disturbs it, and buffers set meanwhile lie apart from it. */
  ghost predicate Live(h: seq<Call>, k: int, n: int)
    requires 0 <= k < |h|
  {
    && Undisturbed(h, k, n, h[k].Buffer(), BUF_SIZE)
    && forall j :: k < j < n < |h| && !h[j].jumps ==>
         Clear(h[j].Buffer(), BUF_SIZE, h[k].Buffer(), h[k].Buffer() + BUF_SIZE)
  }

  lemma WriteKeeps(m: Mem, a: int, v: u64, lo: int, hi: int)
    requires Clear(a, 8, lo, hi)
    ensures Kept(m, Wr64(m, a, v), lo, hi)
  {
    WriteAgree64(m, a, v);
  }

  /** A jump keeps what its stack words do not overlap. */
  lemma JumpKeeps(g: Image, c: Call, lo: int, hi: int)
    requires c.jumps && c.Happened(g) && c.exit.status == Running && c.StackClear(lo, hi)
    ensures Kept(c.entry.mem, c.exit.mem, lo, hi)
  {
    hide Rd64, Wr64, Reaches;
    var f := c.entry;
    WriteKeeps(f.mem, f.regs.rsp - 8, f.regs.rdx, lo, hi);
    WriteKeeps(Spilled(f), Wrap(Word(f, 4) - 8), Word(f, 5), lo, hi);
  }

  /** A set keeps what lies outside its buffer and the shared area. */
  lemma SetKeeps(g: Image, c: Call, lo: int, hi: int)
    requires !c.jumps && c.Happened(g)
    requires hi <= c.Buffer() || c.Buffer() + BUF_SIZE <= lo
    requires hi <= g.Shared() || g.Shared() + SHARED_SIZE <= lo
    ensures Kept(c.entry.mem, c.exit.mem, lo, hi)
  {
    hide Rd64, Reaches, SetReturned, SetEntry;
  }

  /** The snapshot taken by call k stays in its buffer as long as that is live. */
  lemma {:induction false} BufferRemembered(g: Image, h: seq<Call>, k: nat, n: nat)
    requires History(g, h) && k < n < |h| && !h[k].jumps && Live(h, k, n)
    ensures Laid(h[n].entry.mem, h[k].Buffer(), Snapshot(h[k].entry), 8)
    decreases n
  {
    hide Rd64, Reaches, Laid, Snapshot, Kept, JumpEntry, JumpReturned;
    var b, i := h[k].Buffer(), n - 1;
    assert h[i].Happened(g) && h[k].Happened(g);
    assert h[i].StackClear(b, b + BUF_SIZE) && Kept(h[i].exit.mem, h[i + 1].entry.mem, b, b + BUF_SIZE);
    if i > k {
      BufferRemembered(g, h, k, i);
      if h[i].jumps { JumpKeeps(g, h[i], b, b + BUF_SIZE); } else { SetKeeps(g, h[i], b, b + BUF_SIZE); }
      LaidKept(h[i].entry.mem, h[i].exit.mem, b, Snapshot(h[k].entry), 8);
    }
    LaidKept(h[i].exit.mem, h[n].entry.mem, b, Snapshot(h[k].entry), 8);
  }

  /** Until any buffer is set, the shared area holds what call l put there. */
  lemma {:induction false} SharedRemembered(g: Image, h: seq<Call>, l: nat, n: nat)
    requires History(g, h) && l < n < |h| && !h[l].jumps
    requires Undisturbed(h, l, n, g.Shared(), SHARED_SIZE) && forall j :: l < j < n ==> h[j].jumps
    ensures Laid(h[n].entry.mem, g.Shared(), SharedSnapshot(h[l].entry), 3)
    decreases n
  {
    hide Rd64, Reaches, Laid, SharedSnapshot, Kept, JumpEntry, JumpReturned;
    var nv, i := g.Shared(), n - 1;
    assert h[i].Happened(g) && h[l].Happened(g);
    assert h[i].StackClear(nv, nv + SHARED_SIZE) && Kept(h[i].exit.mem, h[i + 1].entry.mem, nv, nv + SHARED_SIZE);
    if i > l {
      SharedRemembered(g, h, l, i);
      JumpKeeps(g, h[i], nv, nv + SHARED_SIZE);
      LaidKept(h[i].entry.mem, h[i].exit.mem, nv, SharedSnapshot(h[l].entry), 3);
    }
    LaidKept(h[i].exit.mem, h[n].entry.mem, nv, SharedSnapshot(h[l].entry), 3);
  }

  /**
   However sets and jumps on other buffers are interleaved, a jump restores r13, stack and instruction
   pointer, rbp, rbx, rsi, rdi and the exception chain from the set of its own live buffer (call k), but
   r12, r14 and r15 from the last set of any buffer (call l).
   */
  lemma EachJumpFindsItsOwn(g: Image, h: seq<Call>, k: nat, l: nat, n: nat)
    requires History(g, h) && n < |h| && h[n].jumps
    requires k < n && !h[k].jumps && h[k].Buffer() == h[n].Buffer() && Live(h, k, n)
    requires l < n && !h[l].jumps && forall j :: l < j < n ==> h[j].jumps
    requires Undisturbed(h, l, n, g.Shared(), SHARED_SIZE)
    ensures Restored(Trace(g.wj, g.cj, h[n].entry), h[k].entry, h[l].entry, h[n].exit)
  {
    hide Rd64, Wr64, Reaches, Undisturbed, Live, Spilled;
    BufferRemembered(g, h, k, n);
    SharedRemembered(g, h, l, n);
    assert h[n].Happened(g);
    LaidWords(h[n].entry, Snapshot(h[k].entry));
    LaidShared(g.wj, g.e, h[n].entry, SharedSnapshot(h[l].entry));
    SnapshotWords(h[k].entry);
    SharedWords(h[l].entry);
    hide Laid, Snapshot, SharedSnapshot, Word, SharedWord, History;
  }

  /** From any entry the stubs do run to an exit, so histories grow as long as the guest keeps calling. */
  lemma CallsHappen(g: Image, jumps: bool, entry: Cpu) returns (c: Call)
    requires g.Built() && if jumps then JumpEntry(g.wj, g.e, entry) else SetEntry(g.ws, g.d, entry)
    ensures c.jumps == jumps && c.entry == entry && c.Happened(g)
  {
    hide Rd64, Wr64, Reaches, Runs, Spilled, Word, SharedWord, Saved, SharedAt;
    var exit;
    if jumps {
      exit := LongjmpRun(Trace(g.wj, g.cj, entry), g.e);
    } else {
      exit := SetjmpRun(Trace(g.ws, g.cs, entry), g.d);
    }
    c := Call.Call(jumps, entry, exit);
  }

  // From the builders' bytes.

  lemma RunsShorter(code: Code, f: Stub, size: nat, n: nat)
    requires Runs(code, f, size) && n <= size
    ensures Runs(code, f, n)
  {
    hide At;
  }

  /**
   Two byte strings listed with the distances of their places form an image, wherever that is loaded: they run
   as the two stubs, and their leas address one shared area, nvRva into the image.
   */
  lemma PatchedBytesAreAnImage(base: int, textRva: int, setOff: int, jumpOff: int, nvRva: int,
                               setjmp: seq<byte>, longjmp: seq<byte>, ws: World, wj: World)
    requires |setjmp| >= 71 && Listed(setjmp, Setjmp(true, SharedDistance(SETJMP_LEA, setOff, nvRva, textRva)))
    requires |longjmp| >= 82 && Listed(longjmp,
                                       Longjmp(true, SharedDistance(LONGJMP_LEA, jumpOff, nvRva, textRva), 1, 5))
    requires ws.text == base + textRva + setOff && wj.text == base + textRva + jumpOff
    ensures var d, e := SharedDistance(SETJMP_LEA, setOff, nvRva, textRva),
            SharedDistance(LONGJMP_LEA, jumpOff, nvRva, textRva);
            var g := Image(ws, Program(setjmp), d, wj, Program(longjmp), e);
            g.Built() && g.Shared() == Wrap(base + nvRva)
  {
    hide Listed, Runs, SharedAt, Program;
    var d, e := SharedDistance(SETJMP_LEA, setOff, nvRva, textRva),
        SharedDistance(LONGJMP_LEA, jumpOff, nvRva, textRva);
    ListedRuns(setjmp, Setjmp(true, d));
    ListedRuns(longjmp, Longjmp(true, e, 1, 5));
    RunsShorter(Program(setjmp), Setjmp(true, d), |setjmp|, 71);
    RunsShorter(Program(longjmp), Longjmp(true, e, 1, 5), |longjmp|, 82);
    SameSharedArea(base, textRva, setOff, jumpOff, nvRva, ws, wj);
  }

  /** The first lea of a stub is where it is, whatever fills the text up behind the stub. */
  lemma OnlyFirst(code: seq<byte>, m: nat, n: nat)
    requires FirstLea(code, m) && FirstLea(code, n)
    ensures m == n
  { }

  lemma NothingBehind(d: int)
    ensures forall off: nat :: off >= 71 ==> At(Setjmp(true, d), off) == None
    ensures forall off: nat :: off >= 82 ==> At(Longjmp(true, d, 1, 5), off) == None
  { }

  /** Cuts a stub out of the text with the filling behind it and patches it; false when the distance does not fit. */
  method PatchIn(stub: seq<byte>, filling: seq<byte>, fnOff: int, nvRva: int, textRva: int, ghost m: nat)
    returns (ok: bool, patched: seq<byte>)
    requires FirstLea(stub, m) && m < 120 && m + 7 < |stub|
    requires FirstLea(stub + filling, m)
    ensures ok <==> -0x8000_0000 <= SharedDistance(m, fnOff, nvRva, textRva) < 0x8000_0000
    ensures ok ==> var code, d := stub + filling, SharedDistance(m, fnOff, nvRva, textRva);
                   patched == code[..m + 3] + Pack32(d % 0x1_0000_0000) + code[m + 7..]
  {
    var code := stub + filling;
    var blob := new byte[|code|](i requires 0 <= i < |code| => code[i]);
    assert blob[..] == code;
    var r := PatchNvSaveLea(blob, fnOff, nvRva, textRva);
    assert LeaAt(code, m);
    if r != NotFound {
      ghost var i: nat :| FirstLea(code, i) && i < 120 && i + 7 < |code|
        && var d := SharedDistance(i, fnOff, nvRva, textRva);
           if -0x8000_0000 <= d < 0x8000_0000 then
             r == Patched && blob[..] == code[..i + 3] + Pack32(d % 0x1_0000_0000) + code[i + 7..]
           else r == DoesNotFit && blob[..] == code;
      OnlyFirst(code, m, i);
    }
    ok, patched := r == Patched, blob[..];
  }

  /**
   Both stubs built, filled up to the next export, and patched for their places. It succeeds exactly when both
   distances fit 32 bits; PatchedBytesAreAnImage then says what they are.
   */
  method BuildImage(textRva: int, setOff: int, jumpOff: int, nvRva: int, setFilling: seq<byte>, jumpFilling: seq<byte>)
    returns (ok: bool, setjmp: seq<byte>, longjmp: seq<byte>)
    ensures ok <==>
              && -0x8000_0000 <= SharedDistance(SETJMP_LEA, setOff, nvRva, textRva) < 0x8000_0000
              && -0x8000_0000 <= SharedDistance(LONGJMP_LEA, jumpOff, nvRva, textRva) < 0x8000_0000
    ensures ok ==>
              && |setjmp| >= 71 && Listed(setjmp, Setjmp(true, SharedDistance(SETJMP_LEA, setOff, nvRva, textRva)))
              && |longjmp| >= 82
              && Listed(longjmp, Longjmp(true, SharedDistance(LONGJMP_LEA, jumpOff, nvRva, textRva), 1, 5))
  {
    hide Listed, FirstLea, Pack32, At;
    var s := BuildSetjmp3(true);
    var j := BuildLongjmp(true);
    NothingBehind(0);
    Padded(s, setFilling, Setjmp(true, 0), SETJMP_LEA);
    Padded(j, jumpFilling, Longjmp(true, 0, 1, 5), LONGJMP_LEA);
    longjmp := [];
    ok, setjmp := PatchIn(s, setFilling, setOff, nvRva, textRva, SETJMP_LEA);
    if !ok { return; }
    ok, longjmp := PatchIn(j, jumpFilling, jumpOff, nvRva, textRva, LONGJMP_LEA);
    if !ok { return; }
    PatchedStubs(s + setFilling, j + jumpFilling, SharedDistance(SETJMP_LEA, setOff, nvRva, textRva),
                 SharedDistance(LONGJMP_LEA, jumpOff, nvRva, textRva));
  }
}
