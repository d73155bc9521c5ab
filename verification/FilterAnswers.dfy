/** The comment in _except_handler3 lists three filter answers, the code looks for one: when do they agree? */
module FilterAnswers {
  import opened Words
  import opened Memory
  import opened Machine
  import opened Stepping
  import opened ScopeTables
  import opened ExceptHandler3

  datatype Verdict = Handle(k: nat) | Resume | Search

  /** Scope k covers the address and its filter answers -1: continue execution. */
  predicate Denies(w: World, ib: u64, m: Mem, f: u64, addr: u64, k: nat) {
    var table := Table(m, f);
    && Begin(m, table, k) <= addr < End(m, table, k)
    && Filter(m, table, k) >= LOWEST_ADDRESS
    && Low32(w.filter(Normal(ib, Filter(m, table, k)), f).rax) == 0xFFFF_FFFF
  }

  /** The search of the comment over the n lowest scopes, from the top down. */
  function Commented(w: World, ib: u64, m: Mem, f: u64, addr: u64, n: nat): Verdict {
    if n == 0 then Search
    else if Accepts(w, ib, m, f, addr, n - 1) then Handle(n - 1)
    else if Denies(w, ib, m, f, addr, n - 1) then Resume
    else Commented(w, ib, m, f, addr, n - 1)
  }

  /** The search of the code. */
  function Coded(w: World, ib: u64, m: Mem, f: u64, addr: u64, n: nat): Verdict {
    if n == 0 then Search
    else if Accepts(w, ib, m, f, addr, n - 1) then Handle(n - 1)
    else Coded(w, ib, m, f, addr, n - 1)
  }

  lemma {:induction false} CodedPicksGreatest(w: World, ib: u64, m: Mem, f: u64, addr: u64, n: nat)
    ensures match Coded(w, ib, m, f, addr, n)
            case Handle(k) => k < n && Accepts(w, ib, m, f, addr, k) && forall j: nat :: k < j < n ==>
                !Accepts(w, ib, m, f, addr, j)
            case Resume => false
            case Search => forall j: nat :: j < n ==> !Accepts(w, ib, m, f, addr, j)
  {
    hide Accepts;
    if n == 0 {
    } else {
      CodedPicksGreatest(w, ib, m, f, addr, n - 1);
    }
  }

  /** The verdict of the code on a frame with a scope table. */
  function Verdicts(w: World, ib: u64, m: Mem, f: u64, addr: u64): Verdict {
    Coded(w, ib, m, f, addr, Top(m, f) + 1)
  }

  /** It is the one that runs of the stub carry out: the scope selected, or no service. */
  lemma CodedIsSelected(w: World, ib: u64, m: Mem, f: u64, addr: u64)
    requires HasTable(ib, m, f)
    ensures forall k: nat :: Verdicts(w, ib, m, f, addr) == Handle(k) <==> Selects(w, ib, m, f, addr, k)
    ensures Verdicts(w, ib, m, f, addr) == Search <==> !Serves(w, ib, m, f, addr)
  {
    hide Accepts, HasTable, Top, Coded;
    CodedPicksGreatest(w, ib, m, f, addr, Top(m, f) + 1);
    if Verdicts(w, ib, m, f, addr).Handle? {
      var k := Verdicts(w, ib, m, f, addr).k;
      assert Selects(w, ib, m, f, addr, k);
      forall j: nat | Selects(w, ib, m, f, addr, j) ensures j == k { }
    }
  }

  /** So every run on such a frame answers 0 with the effects of the scope of the verdict, or 1 with none. */
  lemma RunCarriesOutVerdict(tr: Trace, ib: u64) returns (t: Cpu)
    requires Assumed(tr, ib) && HasTable(ib, tr.from.mem, tr.from.regs.rdx)
    ensures tr.At(t) && Returned(tr.w, tr.from, t)
    ensures var s := tr.from;
            var f := s.regs.rdx;
            match Verdicts(tr.w, ib, s.mem, f, ExceptHandler3.Fault(s))
            case Handle(k) =>
              && t.regs.rax == 0 && t.teb == s.teb.(exceptionList := Next(s.mem, f))
              && Agree(Taken(ib, s.mem, f, s.regs.r8, Table(s.mem, f), k), t.mem, s.regs.rsp - STACK, s.regs.rsp)
            case _ => t.regs.rax == 1 && t.teb == s.teb && Agree(s.mem, t.mem, s.regs.rsp - STACK, s.regs.rsp)
  {
    hide Reaches, Assumed, Returned, HasTable, Selects, Taken, Agree, Rd64, Coded;
    var s := tr.from;
    t := ExceptHandlerRun(tr, ib);
    CodedIsSelected(tr.w, ib, s.mem, s.regs.rdx, ExceptHandler3.Fault(s));
    CodedPicksGreatest(tr.w, ib, s.mem, s.regs.rdx, ExceptHandler3.Fault(s), Top(s.mem, s.regs.rdx) + 1);
  }

  lemma NotBoth(w: World, ib: u64, m: Mem, f: u64, addr: u64, k: nat)
    ensures !(Accepts(w, ib, m, f, addr, k) && Denies(w, ib, m, f, addr, k))
  { }

  /** The two searches agree exactly when above every scope that answers -1 there is one that accepts. */
  lemma {:induction false} AgreeIff(w: World, ib: u64, m: Mem, f: u64, addr: u64, n: nat)
    ensures Coded(w, ib, m, f, addr, n) == Commented(w, ib, m, f, addr, n) <==>
              forall j: nat :: j < n && Denies(w, ib, m, f, addr, j) ==>
                exists k: nat :: j < k < n && Accepts(w, ib, m, f, addr, k)
  {
    hide Accepts, Denies;
    if n == 0 {
    } else {
      NotBoth(w, ib, m, f, addr, n - 1);
      AgreeIff(w, ib, m, f, addr, n - 1);
      CodedPicksGreatest(w, ib, m, f, addr, n - 1);
    }
  }

  /** The same for a frame: what the code does is what its comment says if and only if this holds of its scopes. */
  lemma CodeMeetsCommentIff(w: World, ib: u64, m: Mem, f: u64, addr: u64)
    ensures Verdicts(w, ib, m, f, addr) == Commented(w, ib, m, f, addr, Top(m, f) + 1) <==>
              forall j: nat :: j <= Top(m, f) && Denies(w, ib, m, f, addr, j) ==>
                exists k: nat :: j < k <= Top(m, f) && Accepts(w, ib, m, f, addr, k)
  {
    hide Accepts, Denies, Coded, Commented, Top;
    AgreeIff(w, ib, m, f, addr, Top(m, f) + 1);
  }

  // A frame with one scope, whose filter always answers -1.

  const IMAGE: u64 := 0x8000_0000
  const FRAME: u64 := 0x2_0000
  const TABLE: u64 := 0x8000_1000
  const FAULT: u64 := 0x8000_2010

  /** The frame's scope table and try level, the table's sentinel, and begin, end and filter of its scope. */
  function DenyingMemory(): Mem {
    var m := Wr32(Wr64(map[], FRAME + FRAME_SCOPE, TABLE), FRAME + FRAME_TRYLEVEL, 0);
    Wr32(Wr32(Wr32(Wr32(m, TABLE, 0xFFFF_FFFF), TABLE + 4, 0x8000_2000), TABLE + 8, 0x8000_2020), TABLE + 12,
         0x8000_3000)
  }

  lemma FieldsLast(m2: Mem, m3: Mem, m4: Mem, m5: Mem)
    requires m3 == Wr32(m2, TABLE + 4, 0x8000_2000) && m4 == Wr32(m3, TABLE + 8, 0x8000_2020)
    requires m5 == Wr32(m4, TABLE + 12, 0x8000_3000)
    ensures Rd32(m5, TABLE) == Rd32(m2, TABLE) && Rd32(m5, TABLE + 4) == 0x8000_2000
    ensures Rd32(m5, TABLE + 8) == 0x8000_2020 && Rd32(m5, TABLE + 12) == 0x8000_3000
  {
    hide Wr32, Rd32;
    ReadBack32(m2, TABLE + 4, 0x8000_2000);
    ReadBack32(m3, TABLE + 8, 0x8000_2020);
    ReadBack32(m4, TABLE + 12, 0x8000_3000);
    ReadOther32(m2, TABLE + 4, 0x8000_2000, TABLE);
    ReadOther32(m3, TABLE + 8, 0x8000_2020, TABLE);
    ReadOther32(m3, TABLE + 8, 0x8000_2020, TABLE + 4);
    ReadOther32(m4, TABLE + 12, 0x8000_3000, TABLE);
    ReadOther32(m4, TABLE + 12, 0x8000_3000, TABLE + 4);
    ReadOther32(m4, TABLE + 12, 0x8000_3000, TABLE + 8);
  }

  /** The scope table's fields do not overlap the frame. */
  lemma Kept4(m1: Mem, m2: Mem, m3: Mem, m4: Mem, m5: Mem, a: int)
    requires m2 == Wr32(m1, TABLE, 0xFFFF_FFFF) && m3 == Wr32(m2, TABLE + 4, 0x8000_2000)
    requires m4 == Wr32(m3, TABLE + 8, 0x8000_2020) && m5 == Wr32(m4, TABLE + 12, 0x8000_3000)
    requires a + 8 <= TABLE
    ensures Rd32(m5, a) == Rd32(m1, a) && Rd64(m5, a) == Rd64(m1, a)
  {
    hide Wr32, Rd32, Rd64;
    ReadOther32(m1, TABLE, 0xFFFF_FFFF, a);
    ReadOther32(m2, TABLE + 4, 0x8000_2000, a);
    ReadOther32(m3, TABLE + 8, 0x8000_2020, a);
    ReadOther32(m4, TABLE + 12, 0x8000_3000, a);
  }

  lemma DenyingReads()
    ensures var m := DenyingMemory();
            && Table(m, FRAME) == TABLE && Top(m, FRAME) == 0 && HasTable(IMAGE, m, FRAME)
            && Begin(m, TABLE, 0) == 0x8000_2000 && End(m, TABLE, 0) == 0x8000_2020
               && Filter(m, TABLE, 0) == 0x8000_3000
  {
    hide Wr32, Wr64, Rd32, Rd64;
    var m0 := Wr64(map[], FRAME + FRAME_SCOPE, TABLE);
    var m1 := Wr32(m0, FRAME + FRAME_TRYLEVEL, 0);
    var m2 := Wr32(m1, TABLE, 0xFFFF_FFFF);
    var m3 := Wr32(m2, TABLE + 4, 0x8000_2000);
    var m4 := Wr32(m3, TABLE + 8, 0x8000_2020);
    var m5 := Wr32(m4, TABLE + 12, 0x8000_3000);
    FieldsLast(m2, m3, m4, m5);
    Kept4(m1, m2, m3, m4, m5, FRAME + FRAME_TRYLEVEL);
    ReadBack32(m0, FRAME + FRAME_TRYLEVEL, 0);
    Kept4(m1, m2, m3, m4, m5, FRAME + FRAME_SCOPE);
    ReadBack64(map[], FRAME + FRAME_SCOPE, TABLE);
    ReadOther32(m0, FRAME + FRAME_TRYLEVEL, 0, FRAME + FRAME_SCOPE);
    ReadBack32(m1, TABLE, 0xFFFF_FFFF);
    assert m5 == DenyingMemory();
  }

  /** On it the comment would continue execution, and the code finds nobody. */
  lemma MinusOneIsIgnored(w: World)
    requires Low32(w.filter(0x8000_3000, FRAME).rax) == 0xFFFF_FFFF
    ensures var m := DenyingMemory();
            && HasTable(IMAGE, m, FRAME) && Denies(w, IMAGE, m, FRAME, FAULT, 0)
            && Commented(w, IMAGE, m, FRAME, FAULT, Top(m, FRAME) + 1) == Resume
            && Verdicts(w, IMAGE, m, FRAME, FAULT) == Search && !Serves(w, IMAGE, m, FRAME, FAULT)
  {
    var m := DenyingMemory();
    DenyingReads();
    hide DenyingMemory, Rd32, Rd64, HasTable, Field, Table;
    assert Denies(w, IMAGE, m, FRAME, FAULT, 0);
    NotBoth(w, IMAGE, m, FRAME, FAULT, 0);
    assert Coded(w, IMAGE, m, FRAME, FAULT, 0) == Search;
    CodedIsSelected(w, IMAGE, m, FRAME, FAULT);
  }
}
