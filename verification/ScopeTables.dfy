/** What _except_handler3 is for, in terms of memory alone: which scope of a frame takes an exception, and how. */
module ScopeTables {
  import opened Words
  import opened Memory
  import opened Machine

  const FRAME_HANDLER := 8
  const FRAME_SCOPE := 0x10
  const FRAME_TRYLEVEL := 0x18
  const FRAME_SIZE := 0x20
  const CTX_RSP := 0x98
  const CTX_RBP := 0xA0
  const CTX_RIP := 0xF8
  const CTX_SIZE := 0x100
  const EXC_ADDRESS := 0x10
  const LOWEST_ADDRESS := 0x10000
  const IMAGE_SPAN := 0x100_0000

  function Next(m: Mem, f: u64): u64 { Rd64(m, f) }

  function Table(m: Mem, f: u64): u64 { Rd64(m, Wrap(f + FRAME_SCOPE)) }

  /** The frame carries a scope table of the image: its pointer is in range and starts with -1. */
  predicate HasTable(ib: u64, m: Mem, f: u64) {
    && f >= LOWEST_ADDRESS
    && Table(m, f) != 0
    && ib <= Table(m, f) < ib + IMAGE_SPAN
    && Rd32(m, Table(m, f)) == 0xFFFF_FFFF
  }

  /** The scope the search starts from: the frame's try level, or 0 when that is negative. */
  function Top(m: Mem, f: u64): nat {
    var level := Signed32(Rd32(m, Wrap(f + FRAME_TRYLEVEL)));
    if level < 0 then 0 else level
  }

  /** Address of scope k; its four double words are begin, end, filter and handler. */
  function Scope(table: u64, k: nat): u64 { Wrap(table + Wrap(16 * k) + 4) }

  function FieldAt(table: u64, k: nat, offset: nat): u64 { Wrap(Scope(table, k) + offset) }

  function Field(m: Mem, table: u64, k: nat, offset: nat): u32 { Rd32(m, FieldAt(table, k, offset)) }

  function Begin(m: Mem, table: u64, k: nat): u32 { Field(m, table, k, 0) }

  function End(m: Mem, table: u64, k: nat): u32 { Field(m, table, k, 4) }

  function Filter(m: Mem, table: u64, k: nat): u32 { Field(m, table, k, 8) }

  function Handler(m: Mem, table: u64, k: nat): u32 { Field(m, table, k, 12) }

  /** Scope fields below the image base are image-relative. */
  function Normal(ib: u64, a: u32): u64 {
    if a >= ib then a else Wrap(a + ib)
  }

  /** Scope k covers the address and its filter is absent or answers exactly 1. */
  predicate Accepts(w: World, ib: u64, m: Mem, f: u64, addr: u64, k: nat) {
    var table := Table(m, f);
    && Begin(m, table, k) <= addr < End(m, table, k)
    && (|| Filter(m, table, k) < LOWEST_ADDRESS
        || Low32(w.filter(Normal(ib, Filter(m, table, k)), f).rax) == 1)
  }

  /** k is the greatest scope, from the top down, that accepts the exception. */
  ghost predicate Selects(w: World, ib: u64, m: Mem, f: u64, addr: u64, k: nat) {
    && k <= Top(m, f)
    && Accepts(w, ib, m, f, addr, k)
    && forall j: nat :: k < j <= Top(m, f) ==> !Accepts(w, ib, m, f, addr, j)
  }

  ghost predicate Serves(w: World, ib: u64, m: Mem, f: u64, addr: u64) {
    HasTable(ib, m, f) && exists k :: Selects(w, ib, m, f, addr, k)
  }

  /** Where execution resumes: the scope's handler, or its end when it names no handler. */
  function ResumeAt(ib: u64, m: Mem, table: u64, k: nat): u64 {
    Normal(ib, if Handler(m, table, k) < LOWEST_ADDRESS then End(m, table, k) else Handler(m, table, k))
  }

  /** The stack pointer to resume with is whatever lies 0x18 below the interrupted frame pointer. */
  function ResumeStack(m: Mem, ctx: u64): u64 { Rd64(m, Wrap(Rd64(m, ctx + CTX_RBP) - 0x18)) }

  /** Memory once scope k of frame f has taken the exception; ctx is the thread context to resume from. */
  function Taken(ib: u64, m: Mem, f: u64, ctx: u64, table: u64, k: nat): Mem {
    var m1 := Wr32(m, f + FRAME_TRYLEVEL, Low32(k - 1));
    var m2 := Wr64(m1, ctx + CTX_RIP, ResumeAt(ib, m1, table, k));
    var m3 := Wr64(m2, ctx + CTX_RSP, ResumeStack(m2, ctx));
    Wr64(m3, ctx + CTX_RBP, Wrap(f + FRAME_SIZE))
  }

  /** The guest data that a search of frame f reads or changes lies clear of lo .. hi-1. */
  ghost predicate FrameClear(ib: u64, m: Mem, f: u64, lo: int, hi: int) {
    f >= LOWEST_ADDRESS ==>
      && f + FRAME_SIZE <= 0x1_0000_0000_0000_0000
      && Clear(f, FRAME_SIZE, lo, hi)
      && (ib <= Table(m, f) < ib + IMAGE_SPAN ==> Clear(Table(m, f), 4, lo, hi))
      && (HasTable(ib, m, f) ==> forall k: nat, o: nat :: k <= Top(m, f) && o <= 12 ==>
            Clear(FieldAt(Table(m, f), k, o), 4, lo, hi))
  }

  /** The slot the resume stack pointer comes from lies clear of lo .. hi-1. */
  ghost predicate ResumeClear(ib: u64, m: Mem, f: u64, ctx: u64, k: nat, lo: int, hi: int) {
    var m1 := Wr32(m, f + FRAME_TRYLEVEL, Low32(k - 1));
    var m2 := Wr64(m1, ctx + CTX_RIP, ResumeAt(ib, m1, Table(m, f), k));
    Clear(Wrap(Rd64(m2, ctx + CTX_RBP) - 0x18), 8, lo, hi)
  }

  ghost predicate ContextClear(ctx: u64, lo: int, hi: int) {
    && ctx + CTX_SIZE <= 0x1_0000_0000_0000_0000
    && Clear(ctx, CTX_SIZE, lo, hi)
  }

  /** A frame and its scopes look the same in memories that differ only where none of them lies. */
  lemma SameFrame(ib: u64, m: Mem, n: Mem, f: u64, lo: int, hi: int)
    requires f >= LOWEST_ADDRESS && FrameClear(ib, m, f, lo, hi) && Agree(m, n, lo, hi)
    ensures Next(m, f) == Next(n, f) && Table(m, f) == Table(n, f) && Top(m, f) == Top(n, f)
    ensures HasTable(ib, m, f) == HasTable(ib, n, f)
  {
    hide Rd64, Rd32, Agree;
    ReadAgree(m, n, lo, hi, f);
    ReadAgree(m, n, lo, hi, f + FRAME_SCOPE);
    ReadAgree(m, n, lo, hi, f + FRAME_TRYLEVEL);
    ReadAgree(m, n, lo, hi, Table(m, f));
  }

  lemma SameScope(w: World, ib: u64, m: Mem, n: Mem, f: u64, addr: u64, k: nat, lo: int, hi: int)
    requires f >= LOWEST_ADDRESS && FrameClear(ib, m, f, lo, hi) && Agree(m, n, lo, hi)
    requires HasTable(ib, m, f) && k <= Top(m, f)
    ensures Accepts(w, ib, m, f, addr, k) == Accepts(w, ib, n, f, addr, k)
    ensures var t := Table(m, f); Begin(m, t, k) == Begin(n, t, k) && End(m, t, k) == End(n, t, k)
    ensures var t := Table(m, f); Filter(m, t, k) == Filter(n, t, k) && Handler(m, t, k) == Handler(n, t, k)
  {
    var t := Table(m, f);
    forall o: nat | o <= 12 ensures Field(m, t, k, o) == Field(n, t, k, o) {
      assert Clear(FieldAt(t, k, o), 4, lo, hi);
      ReadAgree(m, n, lo, hi, FieldAt(t, k, o));
    }
    hide Rd64, Rd32, Agree, Field, FrameClear, HasTable, Top;
    SameFrame(ib, m, n, f, lo, hi);
  }

  lemma SameSelection(w: World, ib: u64, m: Mem, n: Mem, f: u64, addr: u64, k: nat, lo: int, hi: int)
    requires f >= LOWEST_ADDRESS && FrameClear(ib, m, f, lo, hi) && Agree(m, n, lo, hi)
    requires HasTable(ib, m, f)
    ensures Selects(w, ib, m, f, addr, k) == Selects(w, ib, n, f, addr, k)
  {
    hide Rd64, Rd32, Agree, FrameClear, HasTable, Top, Accepts;
    SameFrame(ib, m, n, f, lo, hi);
    forall j: nat | j <= Top(m, f) ensures Accepts(w, ib, m, f, addr, j) == Accepts(w, ib, n, f, addr, j) {
      SameScope(w, ib, m, n, f, addr, j, lo, hi);
    }
  }

  lemma SameService(w: World, ib: u64, m: Mem, n: Mem, f: u64, addr: u64, lo: int, hi: int)
    requires f >= LOWEST_ADDRESS && FrameClear(ib, m, f, lo, hi) && Agree(m, n, lo, hi)
    ensures Serves(w, ib, m, f, addr) == Serves(w, ib, n, f, addr)
  {
    hide Rd64, Rd32, Agree, FrameClear, HasTable, Selects;
    SameFrame(ib, m, n, f, lo, hi);
    if HasTable(ib, m, f) {
      forall k: nat ensures Selects(w, ib, m, f, addr, k) == Selects(w, ib, n, f, addr, k) {
        SameSelection(w, ib, m, n, f, addr, k, lo, hi);
      }
    }
  }

  lemma SameResume(ib: u64, m: Mem, n: Mem, f: u64, table: u64, k: nat, lo: int, hi: int)
    requires Agree(m, n, lo, hi)
    requires Clear(FieldAt(table, k, 4), 4, lo, hi) && Clear(FieldAt(table, k, 12), 4, lo, hi)
    ensures ResumeAt(ib, m, table, k) == ResumeAt(ib, n, table, k)
  {
    hide Rd32, Agree, FieldAt;
    ReadAgree(m, n, lo, hi, FieldAt(table, k, 4));
    ReadAgree(m, n, lo, hi, FieldAt(table, k, 12));
  }

  lemma TakingFields(ib: u64, m: Mem, n: Mem, f: u64, k: nat, lo: int, hi: int)
    requires f >= LOWEST_ADDRESS && FrameClear(ib, m, f, lo, hi) && HasTable(ib, m, f) && k <= Top(m, f)
    requires Agree(m, n, lo, hi)
    ensures Table(m, f) == Table(n, f) && Clear(f + FRAME_TRYLEVEL, 4, lo, hi)
    ensures Clear(FieldAt(Table(m, f), k, 4), 4, lo, hi) && Clear(FieldAt(Table(m, f), k, 12), 4, lo, hi)
  {
    hide Rd64, Rd32, Agree, FieldAt;
    SameFrame(ib, m, n, f, lo, hi);
  }

  /** The three stores to the context and the load between them. */
  lemma SameContext(m: Mem, n: Mem, ctx: u64, rip: u64, fp: u64, lo: int, hi: int)
    requires ContextClear(ctx, lo, hi) && Agree(m, n, lo, hi)
    requires Clear(Wrap(Rd64(Wr64(m, ctx + CTX_RIP, rip), ctx + CTX_RBP) - 0x18), 8, lo, hi)
    ensures var m2, n2 := Wr64(m, ctx + CTX_RIP, rip), Wr64(n, ctx + CTX_RIP, rip);
            && Rd64(m2, ctx + CTX_RBP) == Rd64(n2, ctx + CTX_RBP)
            && Agree(Wr64(Wr64(m2, ctx + CTX_RSP, ResumeStack(m2, ctx)), ctx + CTX_RBP, fp),
                     Wr64(Wr64(n2, ctx + CTX_RSP, ResumeStack(n2, ctx)), ctx + CTX_RBP, fp), lo, hi)
  {
    hide Rd64, Wr64, Agree;
    var m2, n2 := Wr64(m, ctx + CTX_RIP, rip), Wr64(n, ctx + CTX_RIP, rip);
    WriteBoth64(m, n, lo, hi, ctx + CTX_RIP, rip);
    ReadAgree(m2, n2, lo, hi, ctx + CTX_RBP);
    ReadAgree(m2, n2, lo, hi, Wrap(Rd64(m2, ctx + CTX_RBP) - 0x18));
    var sp := ResumeStack(m2, ctx);
    WriteBoth64(m2, n2, lo, hi, ctx + CTX_RSP, sp);
    WriteBoth64(Wr64(m2, ctx + CTX_RSP, sp), Wr64(n2, ctx + CTX_RSP, sp), lo, hi, ctx + CTX_RBP, fp);
  }

  /** Taking a scope does the same to memories that differ only where none of the data involved lies. */
  lemma SameTaking(ib: u64, m: Mem, n: Mem, f: u64, ctx: u64, k: nat, lo: int, hi: int)
    requires f >= LOWEST_ADDRESS && FrameClear(ib, m, f, lo, hi) && HasTable(ib, m, f) && k <= Top(m, f)
    requires ContextClear(ctx, lo, hi) && ResumeClear(ib, m, f, ctx, k, lo, hi) && Agree(m, n, lo, hi)
    ensures ResumeClear(ib, n, f, ctx, k, lo, hi)
    ensures Agree(Taken(ib, m, f, ctx, Table(m, f), k), Taken(ib, n, f, ctx, Table(n, f), k), lo, hi)
  {
    hide Rd64, Wr64, Wr32, Agree, Table, ResumeAt;
    var table, level := Table(m, f), Low32(k - 1);
    TakingFields(ib, m, n, f, k, lo, hi);
    hide FrameClear, HasTable, Top, FieldAt;
    var m1, n1 := Wr32(m, f + FRAME_TRYLEVEL, level), Wr32(n, f + FRAME_TRYLEVEL, level);
    WriteBoth32(m, n, lo, hi, f + FRAME_TRYLEVEL, level);
    SameResume(ib, m1, n1, f, table, k, lo, hi);
    SameContext(m1, n1, ctx, ResumeAt(ib, m1, table, k), Wrap(f + FRAME_SIZE), lo, hi);
  }

  /** Taking a scope leaves alone what lies clear of the try level and of the context. */
  lemma TakenApart(ib: u64, m: Mem, f: u64, ctx: u64, table: u64, k: nat, a: int)
    requires Clear(a, 8, f + FRAME_TRYLEVEL, f + FRAME_TRYLEVEL + 4) && Clear(a, 8, ctx, ctx + CTX_SIZE)
    ensures Rd64(Taken(ib, m, f, ctx, table, k), a) == Rd64(m, a)
  {
    hide Rd64, Wr64, Wr32, ResumeAt, ResumeStack;
    var m1 := Wr32(m, f + FRAME_TRYLEVEL, Low32(k - 1));
    var m2 := Wr64(m1, ctx + CTX_RIP, ResumeAt(ib, m1, table, k));
    var m3 := Wr64(m2, ctx + CTX_RSP, ResumeStack(m2, ctx));
    ReadOther32(m, f + FRAME_TRYLEVEL, Low32(k - 1), a);
    ReadOther64(m1, ctx + CTX_RIP, ResumeAt(ib, m1, table, k), a);
    ReadOther64(m2, ctx + CTX_RSP, ResumeStack(m2, ctx), a);
    ReadOther64(m3, ctx + CTX_RBP, Wrap(f + FRAME_SIZE), a);
  }

  /** Reading back a try level and three context fields after they were written in that order. */
  lemma TakenReads(m: Mem, tl: int, level: u32, ctx: int, rip: u64, sp: u64, fp: u64)
    requires Clear(tl, 4, ctx, ctx + CTX_SIZE)
    ensures var m1 := Wr32(m, tl, level);
            var n := Wr64(Wr64(Wr64(m1, ctx + CTX_RIP, rip), ctx + CTX_RSP, sp), ctx + CTX_RBP, fp);
            && Rd32(n, tl) == level && Rd64(n, ctx + CTX_RIP) == rip
            && Rd64(n, ctx + CTX_RSP) == sp && Rd64(n, ctx + CTX_RBP) == fp
  {
    hide Rd64, Rd32, Wr64, Wr32;
    var m1 := Wr32(m, tl, level);
    var m2 := Wr64(m1, ctx + CTX_RIP, rip);
    var m3 := Wr64(m2, ctx + CTX_RSP, sp);
    ReadBack32(m, tl, level);
    ReadOther64(m1, ctx + CTX_RIP, rip, tl);
    ReadOther64(m2, ctx + CTX_RSP, sp, tl);
    ReadOther64(m3, ctx + CTX_RBP, fp, tl);
    ReadBack64(m1, ctx + CTX_RIP, rip);
    ReadOther64(m2, ctx + CTX_RSP, sp, ctx + CTX_RIP);
    ReadOther64(m3, ctx + CTX_RBP, fp, ctx + CTX_RIP);
    ReadBack64(m2, ctx + CTX_RSP, sp);
    ReadOther64(m3, ctx + CTX_RBP, fp, ctx + CTX_RSP);
    ReadBack64(m3, ctx + CTX_RBP, fp);
  }

  /**
   The effect of taking scope k, read back: the try level is one lower, the thread resumes at the scope's
   handler with the frame's end as frame pointer and the interrupted frame's saved stack pointer, and the
   frame's link is as it was. The context must not overlap the frame, nor the slot the stack pointer comes from.
   */
  lemma TakenView(ib: u64, m: Mem, f: u64, ctx: u64, table: u64, k: nat)
    requires Clear(ctx, CTX_SIZE, f, f + FRAME_SIZE)
    requires Clear(FieldAt(table, k, 4), 4, f + FRAME_TRYLEVEL, f + FRAME_TRYLEVEL + 4)
    requires Clear(FieldAt(table, k, 12), 4, f + FRAME_TRYLEVEL, f + FRAME_TRYLEVEL + 4)
    requires var slot := Wrap(Rd64(m, ctx + CTX_RBP) - 0x18);
             Clear(slot, 8, ctx, ctx + CTX_SIZE) && Clear(slot, 8, f + FRAME_TRYLEVEL, f + FRAME_TRYLEVEL + 4)
    ensures var n := Taken(ib, m, f, ctx, table, k);
            && Rd32(n, f + FRAME_TRYLEVEL) == Low32(k - 1)
            && Rd64(n, ctx + CTX_RIP) == ResumeAt(ib, m, table, k)
            && Rd64(n, ctx + CTX_RSP) == Rd64(m, Wrap(Rd64(m, ctx + CTX_RBP) - 0x18))
            && Rd64(n, ctx + CTX_RBP) == Wrap(f + FRAME_SIZE)
            && Rd64(n, f) == Rd64(m, f)
  {
    hide Rd64, Rd32, Wr64, Wr32, ResumeAt, FieldAt, Agree;
    var tl, rip, slot := f + FRAME_TRYLEVEL, ctx + CTX_RIP, Wrap(Rd64(m, ctx + CTX_RBP) - 0x18);
    var level := Low32(k - 1);
    var m1 := Wr32(m, tl, level);
    WriteAgree32(m, tl, level);
    SameResume(ib, m, m1, f, table, k, tl, tl + 4);
    var m2 := Wr64(m1, rip, ResumeAt(ib, m1, table, k));
    ReadOther32(m, tl, level, ctx + CTX_RBP);
    ReadOther64(m1, rip, ResumeAt(ib, m1, table, k), ctx + CTX_RBP);
    ReadOther32(m, tl, level, slot);
    ReadOther64(m1, rip, ResumeAt(ib, m1, table, k), slot);
    TakenReads(m, tl, level, ctx, ResumeAt(ib, m1, table, k), ResumeStack(m2, ctx), Wrap(f + FRAME_SIZE));
    TakenApart(ib, m, f, ctx, table, k, f);
  }
}
