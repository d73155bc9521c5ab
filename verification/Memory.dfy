/**
 Byte-addressed memory with little-endian multi-byte access. Memory is a map from addresses to bytes, and bytes
 never written read as zero, so that every access has a value; whether an access is allowed is for those to say
 who use it. What matters of two memories is where their bytes agree, and a write changes the bytes it covers
 and no others.
 */
module Memory {
  import opened Words

  type Mem = map<int, byte>

  function Peek(m: Mem, a: int): byte {
    if a in m then m[a] else 0
  }

  /** The little-endian number in the bytes lo .. hi-1. */
  function Load(m: Mem, lo: int, hi: int): nat
    decreases hi - lo
  {
    if hi <= lo then 0 else Peek(m, lo) + 256 * Load(m, lo + 1, hi)
  }

  function Store(m: Mem, lo: int, hi: int, v: nat): Mem
    decreases hi - lo
  {
    if hi <= lo then m else Store(m[lo := v % 256], lo + 1, hi, v / 256)
  }

  lemma {:induction false} LoadBound(m: Mem, lo: int, n: nat)
    ensures Load(m, lo, lo + n) < Pow256(n)
    decreases n
  {
    if n == 0 {
    } else {
      LoadBound(m, lo + 1, n - 1);
      assert lo + 1 + (n - 1) == lo + n;
    }
  }

  lemma Bound32(m: Mem, lo: int)
    ensures Load(m, lo, lo + 4) < 0x1_0000_0000
  {
    LoadBound(m, lo, 4);
    Powers();
  }

  function Rd32(m: Mem, a: int): u32 {
    Bound32(m, a);
    Load(m, a, a + 4)
  }

  lemma Bound64(m: Mem, lo: int)
    ensures Load(m, lo, lo + 8) < 0x1_0000_0000_0000_0000
  {
    LoadBound(m, lo, 8);
    Powers();
  }

  function Rd64(m: Mem, a: int): u64 {
    Bound64(m, a);
    Load(m, a, a + 8)
  }

  function Wr32(m: Mem, a: int, v: u32): Mem { Store(m, a, a + 4, v) }

  function Wr64(m: Mem, a: int, v: u64): Mem { Store(m, a, a + 8, v) }

  /** The two memories hold the same bytes outside lo .. hi-1. */
  ghost predicate Agree(m: Mem, n: Mem, lo: int, hi: int) {
    forall a :: a < lo || hi <= a ==> Peek(m, a) == Peek(n, a)
  }

  /** The n bytes at a lie outside lo .. hi-1. */
  predicate Clear(a: int, n: nat, lo: int, hi: int) {
    a + n <= lo || hi <= a
  }

  lemma {:induction false} StoreFrame(m: Mem, lo: int, hi: int, v: nat, a: int)
    requires a < lo || hi <= a
    ensures Peek(Store(m, lo, hi, v), a) == Peek(m, a)
    decreases hi - lo
  {
    if lo < hi { StoreFrame(m[lo := v % 256], lo + 1, hi, v / 256, a); }
  }

  lemma {:induction false} LoadStore(m: Mem, lo: int, n: nat, v: nat)
    requires v < Pow256(n)
    ensures Load(Store(m, lo, lo + n, v), lo, lo + n) == v
    decreases n
  {
    if n == 0 {
    } else {
      var m1 := m[lo := v % 256];
      assert lo + n == lo + 1 + (n - 1);
      LoadStore(m1, lo + 1, n - 1, v / 256);
      StoreFrame(m1, lo + 1, lo + n, v / 256, lo);
    }
  }

  lemma {:induction false} LoadSame(m: Mem, n: Mem, lo: int, hi: int)
    requires forall a :: lo <= a < hi ==> Peek(m, a) == Peek(n, a)
    ensures Load(m, lo, hi) == Load(n, lo, hi)
    decreases hi - lo
  {
    if lo < hi { LoadSame(m, n, lo + 1, hi); }
  }

  lemma WriteAgree64(m: Mem, a: int, v: u64)
    ensures Agree(m, Wr64(m, a, v), a, a + 8)
  {
    forall x | x < a || a + 8 <= x ensures Peek(m, x) == Peek(Wr64(m, a, v), x) {
      StoreFrame(m, a, a + 8, v, x);
    }
  }

  lemma WriteAgree32(m: Mem, a: int, v: u32)
    ensures Agree(m, Wr32(m, a, v), a, a + 4)
  {
    forall x | x < a || a + 4 <= x ensures Peek(m, x) == Peek(Wr32(m, a, v), x) {
      StoreFrame(m, a, a + 4, v, x);
    }
  }

  lemma ReadBack64(m: Mem, a: int, v: u64)
    ensures Rd64(Wr64(m, a, v), a) == v
  {
    Powers();
    LoadStore(m, a, 8, v);
  }

  lemma ReadBack32(m: Mem, a: int, v: u32)
    ensures Rd32(Wr32(m, a, v), a) == v
  {
    Powers();
    LoadStore(m, a, 4, v);
  }

  lemma AgreeChain(m: Mem, n: Mem, o: Mem, lo: int, hi: int, a: int, b: int)
    requires Agree(m, n, lo, hi) && Agree(n, o, a, b) && lo <= a && b <= hi
    ensures Agree(m, o, lo, hi)
  { }

  /** Reads clear of lo .. hi-1 give the same in memories that agree outside it. */
  lemma ReadAgree(m: Mem, n: Mem, lo: int, hi: int, a: int)
    requires Agree(m, n, lo, hi)
    ensures Clear(a, 8, lo, hi) ==> Rd64(m, a) == Rd64(n, a)
    ensures Clear(a, 4, lo, hi) ==> Rd32(m, a) == Rd32(n, a)
  {
    if Clear(a, 8, lo, hi) { LoadSame(m, n, a, a + 8); }
    if Clear(a, 4, lo, hi) { LoadSame(m, n, a, a + 4); }
  }

  /** A 64-bit write leaves reads clear of its eight bytes alone. */
  lemma ReadOther64(m: Mem, a: int, v: u64, b: int)
    ensures Clear(b, 8, a, a + 8) ==> Rd64(Wr64(m, a, v), b) == Rd64(m, b)
    ensures Clear(b, 4, a, a + 8) ==> Rd32(Wr64(m, a, v), b) == Rd32(m, b)
  {
    WriteAgree64(m, a, v);
    ReadAgree(m, Wr64(m, a, v), a, a + 8, b);
  }

  lemma ReadOther32(m: Mem, a: int, v: u32, b: int)
    ensures Clear(b, 8, a, a + 4) ==> Rd64(Wr32(m, a, v), b) == Rd64(m, b)
    ensures Clear(b, 4, a, a + 4) ==> Rd32(Wr32(m, a, v), b) == Rd32(m, b)
  {
    WriteAgree32(m, a, v);
    ReadAgree(m, Wr32(m, a, v), a, a + 4, b);
  }

  lemma {:induction false} StoreBoth(m: Mem, n: Mem, lo: int, hi: int, v: nat, x: int)
    requires Peek(m, x) == Peek(n, x)
    ensures Peek(Store(m, lo, hi, v), x) == Peek(Store(n, lo, hi, v), x)
    decreases hi - lo
  {
    if lo < hi { StoreBoth(m[lo := v % 256], n[lo := v % 256], lo + 1, hi, v / 256, x); }
  }

  /** The same write made to agreeing memories keeps them agreeing. */
  lemma WriteBoth64(m: Mem, n: Mem, lo: int, hi: int, a: int, v: u64)
    requires Agree(m, n, lo, hi)
    ensures Agree(Wr64(m, a, v), Wr64(n, a, v), lo, hi)
  {
    forall x | x < lo || hi <= x ensures Peek(Wr64(m, a, v), x) == Peek(Wr64(n, a, v), x) {
      StoreBoth(m, n, a, a + 8, v, x);
    }
  }

  lemma WriteBoth32(m: Mem, n: Mem, lo: int, hi: int, a: int, v: u32)
    requires Agree(m, n, lo, hi)
    ensures Agree(Wr32(m, a, v), Wr32(n, a, v), lo, hi)
  {
    forall x | x < lo || hi <= x ensures Peek(Wr32(m, a, v), x) == Peek(Wr32(n, a, v), x) {
      StoreBoth(m, n, a, a + 4, v, x);
    }
  }
}
