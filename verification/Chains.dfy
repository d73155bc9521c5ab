/** The chain of frames hanging off gs:[0], cyclic or not, and which of its first 64 links takes an exception. */
module Chains {
  import opened Wrappers
  import opened Words
  import opened Memory
  import opened Machine
  import opened ScopeTables

  const MAX_LINKS := 64

  /** Build parameters: image base of _except_handler3, and the range and handler the walker trusts. */
  datatype Config = Config(ib: u64, scopeLo: u64, scopeHi: u64, handler: u64)

  /** A chain value that is a frame rather than an end of chain. */
  predicate Live(f: u64) { f >= LOWEST_ADDRESS && f != ALL_ONES }

  predicate Trusted(c: Config, a: u64) { c.scopeLo <= a < c.scopeHi }

  predicate OnStack(teb: Teb, f: u64) { f % 8 == 0 && teb.stackLimit <= f < teb.stackBase }

  /** Only aligned frames on this thread's stack with a trusted scope table and handler are offered an exception. */
  predicate Eligible(c: Config, teb: Teb, m: Mem, f: u64) {
    && OnStack(teb, f)
    && Table(m, f) != 0 && Trusted(c, Table(m, f)) && Rd32(m, Table(m, f)) == 0xFFFF_FFFF
    && var h := Rd64(m, Wrap(f + FRAME_HANDLER)); h != 0 && (Trusted(c, h) || h == c.handler)
  }

  ghost predicate Takes(w: World, c: Config, teb: Teb, m: Mem, f: u64, addr: u64) {
    Eligible(c, teb, m, f) && Serves(w, c.ib, m, f, addr)
  }

  /** The frame that takes the exception when the walk stands at link f with n looks left. */
  ghost function Walk(w: World, c: Config, teb: Teb, m: Mem, f: u64, addr: u64, n: nat): Option<u64>
    decreases n
  {
    if n == 0 || !Live(f) then None
    else if Takes(w, c, teb, m, f, addr) then Some(f)
    else if Next(m, f) == f then None
    else Walk(w, c, teb, m, Next(m, f), addr, n - 1)
  }

  /** Frame g is link number i of the chain that starts at f; a frame that links to itself ends the chain. */
  predicate Visits(m: Mem, f: u64, i: nat, g: u64)
    decreases i
  {
    Live(f) && if i == 0 then f == g else Next(m, f) != f && Visits(m, Next(m, f), i - 1, g)
  }

  /** Of the first n links, g is the earliest that takes the exception. */
  ghost predicate FirstTaker(w: World, c: Config, teb: Teb, m: Mem, f: u64, addr: u64, n: nat, g: u64) {
    exists i: nat :: i < n && Visits(m, f, i, g) && Takes(w, c, teb, m, g, addr)
      && forall j: nat, h: u64 :: j < i && Visits(m, f, j, h) ==> !Takes(w, c, teb, m, h, addr)
  }

  lemma ShiftFirst(w: World, c: Config, teb: Teb, m: Mem, f: u64, addr: u64, n: nat, g: u64)
    requires n > 0 && Live(f) && !Takes(w, c, teb, m, f, addr) && Next(m, f) != f
    ensures FirstTaker(w, c, teb, m, Next(m, f), addr, n - 1, g) <==> FirstTaker(w, c, teb, m, f, addr, n, g)
  {
    hide Takes, Rd64, Next;
    var f' := Next(m, f);
    forall j: nat, h: u64 ensures Visits(m, f, j + 1, h) == Visits(m, f', j, h) { }
    if FirstTaker(w, c, teb, m, f', addr, n - 1, g) {
      var i: nat :| i < n - 1 && Visits(m, f', i, g) && Takes(w, c, teb, m, g, addr)
        && forall j: nat, h: u64 :: j < i && Visits(m, f', j, h) ==> !Takes(w, c, teb, m, h, addr);
      forall j: nat, h: u64 | j < i + 1 && Visits(m, f, j, h) ensures !Takes(w, c, teb, m, h, addr) {
        if j > 0 { assert Visits(m, f', j - 1, h); }
      }
      assert Visits(m, f, i + 1, g);
    }
    if FirstTaker(w, c, teb, m, f, addr, n, g) {
      var i: nat :| i < n && Visits(m, f, i, g) && Takes(w, c, teb, m, g, addr)
        && forall j: nat, h: u64 :: j < i && Visits(m, f, j, h) ==> !Takes(w, c, teb, m, h, addr);
      assert i > 0;
      forall j: nat, h: u64 | j < i - 1 && Visits(m, f', j, h) ensures !Takes(w, c, teb, m, h, addr) {
        assert Visits(m, f, j + 1, h);
      }
      assert Visits(m, f', i - 1, g);
    }
  }

  /** The walk yields g exactly when g is the first taker among the links it may visit. */
  lemma {:induction false} WalkIsFirstMatch(w: World, c: Config, teb: Teb, m: Mem, f: u64, addr: u64, n: nat, g: u64)
    ensures Walk(w, c, teb, m, f, addr, n) == Some(g) <==> FirstTaker(w, c, teb, m, f, addr, n, g)
    decreases n
  {
    hide Takes, Rd64;
    if n > 0 && Live(f) {
      if Takes(w, c, teb, m, f, addr) {
        assert Visits(m, f, 0, f);
        if FirstTaker(w, c, teb, m, f, addr, n, g) {
          var i: nat :| i < n && Visits(m, f, i, g) && Takes(w, c, teb, m, g, addr)
            && forall j: nat, h: u64 :: j < i && Visits(m, f, j, h) ==> !Takes(w, c, teb, m, h, addr);
          assert i == 0;
        }
      } else if Next(m, f) != f {
        WalkIsFirstMatch(w, c, teb, m, Next(m, f), addr, n - 1, g);
        ShiftFirst(w, c, teb, m, f, addr, n, g);
      }
    }
  }

  /** One of the first n links takes the exception. */
  ghost predicate SomeTaker(w: World, c: Config, teb: Teb, m: Mem, f: u64, addr: u64, n: nat) {
    exists i: nat, g: u64 :: i < n && Visits(m, f, i, g) && Takes(w, c, teb, m, g, addr)
  }

  lemma ShiftSome(w: World, c: Config, teb: Teb, m: Mem, f: u64, addr: u64, n: nat)
    requires n > 0 && Live(f) && !Takes(w, c, teb, m, f, addr) && Next(m, f) != f
    ensures SomeTaker(w, c, teb, m, Next(m, f), addr, n - 1) <==> SomeTaker(w, c, teb, m, f, addr, n)
  {
    hide Takes, Rd64, Next;
    var f' := Next(m, f);
    if SomeTaker(w, c, teb, m, f', addr, n - 1) {
      var i: nat, g: u64 :| i < n - 1 && Visits(m, f', i, g) && Takes(w, c, teb, m, g, addr);
      assert Visits(m, f, i + 1, g);
    }
    if SomeTaker(w, c, teb, m, f, addr, n) {
      var i: nat, g: u64 :| i < n && Visits(m, f, i, g) && Takes(w, c, teb, m, g, addr);
      assert i > 0 && Visits(m, f', i - 1, g);
    }
  }

  /** The walk finds nobody exactly when no link it may visit takes the exception. */
  lemma {:induction false} WalkFailsIffNoTaker(w: World, c: Config, teb: Teb, m: Mem, f: u64, addr: u64, n: nat)
    ensures Walk(w, c, teb, m, f, addr, n) == None <==> !SomeTaker(w, c, teb, m, f, addr, n)
    decreases n
  {
    hide Takes, Rd64, Next;
    if n > 0 && Live(f) {
      if Takes(w, c, teb, m, f, addr) {
        var zero: nat := 0;
        assert Visits(m, f, zero, f);
      } else if Next(m, f) != f {
        WalkFailsIffNoTaker(w, c, teb, m, Next(m, f), addr, n - 1);
        ShiftSome(w, c, teb, m, f, addr, n);
      }
    }
  }

  /** What the walker reads to find out whether frame f is eligible, as far as it gets, lies clear of lo .. hi-1. */
  ghost predicate TestsClear(c: Config, teb: Teb, m: Mem, f: u64, lo: int, hi: int) {
    OnStack(teb, f) ==>
      && Clear(Wrap(f + FRAME_SCOPE), 8, lo, hi)
      && (Table(m, f) != 0 && Trusted(c, Table(m, f)) ==>
            && Clear(Table(m, f), 4, lo, hi)
            && (Rd32(m, Table(m, f)) == 0xFFFF_FFFF ==> Clear(Wrap(f + FRAME_HANDLER), 8, lo, hi)))
  }

  /** What the walker and _except_handler3 look at or change, from link f to the taker, lies clear of lo .. hi-1. */
  ghost predicate ChainClear(w: World, c: Config, teb: Teb, m: Mem, f: u64, addr: u64, ctx: u64, n: nat, lo: int,
                             hi: int)
    decreases n
  {
    n > 0 && Live(f) ==>
      && Clear(f, 8, lo, hi)
      && TestsClear(c, teb, m, f, lo, hi)
      && (Eligible(c, teb, m, f) ==>
            && FrameClear(c.ib, m, f, lo, hi) && ContextClear(ctx, lo, hi)
            && forall k :: HasTable(c.ib, m, f) && Selects(w, c.ib, m, f, addr, k) ==>
               ResumeClear(c.ib, m, f, ctx, k, lo, hi))
      && (!Takes(w, c, teb, m, f, addr) && Next(m, f) != f ==>
            ChainClear(w, c, teb, m, Next(m, f), addr, ctx, n - 1, lo, hi))
  }
}
