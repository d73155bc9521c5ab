/**
 Machine words as bounded integers, and the bitwise operators the stubs apply to them. A register or a word
 of memory is a natural number below a power of two; whatever wraps around says so with `Wrap` or `Low32`,
 and the bitwise operators are recursive on the binary digits of their operands.
 */
module Words {
  type byte = x: int | 0 <= x < 0x100
  type u32 = x: int | 0 <= x < 0x1_0000_0000
  type u64 = x: int | 0 <= x < 0x1_0000_0000_0000_0000
  type s32 = x: int | -0x8000_0000 <= x < 0x8000_0000

  const ALL_ONES: u64 := 0xFFFF_FFFF_FFFF_FFFF

  /** The breakpoint instruction, which the tracer and the emulator plant. */
  const INT3: byte := 0xCC

  /** What a 64-bit register keeps of an integer. */
  function Wrap(x: int): u64 {
    if 0 <= x < 0x1_0000_0000_0000_0000 then x else x % 0x1_0000_0000_0000_0000
  }

  function Low32(x: int): u32 {
    if 0 <= x < 0x1_0000_0000 then x else x % 0x1_0000_0000
  }

  /** A 32-bit pattern read as two's complement. */
  function Signed32(x: u32): s32 {
    if x < 0x8000_0000 then x else x - 0x1_0000_0000
  }

  function BitAnd(a: nat, b: nat): nat
    decreases a
  {
    if a == 0 then 0 else (if a % 2 == 1 && b % 2 == 1 then 1 else 0) + 2 * BitAnd(a / 2, b / 2)
  }

  function BitXor(a: nat, b: nat): nat
    decreases a + b
  {
    if a == 0 && b == 0 then 0 else (if a % 2 != b % 2 then 1 else 0) + 2 * BitXor(a / 2, b / 2)
  }

  function BitOr(a: nat, b: nat): nat
    decreases a + b
  {
    if a == 0 && b == 0 then 0
    else (if a % 2 == 1 || b % 2 == 1 then 1 else 0) + 2 * BitOr(a / 2, b / 2)
  }

  lemma {:induction false} AndSelf(a: nat)
    ensures BitAnd(a, a) == a
  {
    if a == 0 {
    } else {
      AndSelf(a / 2);
    }
  }

  lemma {:induction false} AndZero(a: nat)
    ensures BitAnd(a, 0) == 0
  {
    if a == 0 {
    } else {
      AndZero(a / 2);
    }
  }

  lemma AndSeven(a: nat)
    ensures BitAnd(a, 7) == a % 8
  {
    assert BitAnd(a, 7) == a % 2 + 2 * BitAnd(a / 2, 3);
    assert BitAnd(a / 2, 3) == a / 2 % 2 + 2 * BitAnd(a / 2 / 2, 1);
    assert BitAnd(a / 2 / 2, 1) == a / 2 / 2 % 2 + 2 * BitAnd(a / 2 / 2 / 2, 0);
    AndZero(a / 2 / 2 / 2);
  }

  lemma EightsAndRest(q: nat, r: nat)
    requires r < 8
    ensures (8 * q + r) % 8 == r
  { }

  lemma LowBits(a: nat)
    ensures BitAnd(a % 0x100, 7) % 0x100 == a % 8
  {
    hide BitAnd;
    AndSeven(a % 0x100);
    var q, r := a / 0x100, a % 0x100;
    EightsAndRest(32 * q + r / 8, r % 8);
    assert a == 8 * (32 * q + r / 8) + r % 8;
  }

  lemma {:induction false} XorSelf(a: nat)
    ensures BitXor(a, a) == 0
  {
    if a == 0 {
    } else {
      XorSelf(a / 2);
    }
  }

  function Pow2(n: nat): nat { if n == 0 then 1 else 2 * Pow2(n - 1) }

  lemma {:induction false} OrOnes(a: nat, n: nat)
    requires a < Pow2(n)
    ensures BitOr(a, Pow2(n) - 1) == Pow2(n) - 1
  {
    if n == 0 {
    } else {
      OrOnes(a / 2, n - 1);
    }
  }

  lemma {:induction false} PowAdd(m: nat, n: nat)
    ensures Pow2(m + n) == Pow2(m) * Pow2(n)
  {
    if m == 0 {
    } else {
      PowAdd(m - 1, n);
      assert m + n - 1 == m - 1 + n;
    }
  }

  lemma OrAllOnes(a: u64)
    ensures BitOr(a, ALL_ONES) == ALL_ONES
  {
    assert Pow2(64) == 0x1_0000_0000_0000_0000 by {
      assert Pow2(4) == 16;
      PowAdd(4, 4); PowAdd(8, 8); PowAdd(16, 16); PowAdd(32, 32);
    }
    OrOnes(a, 64);
  }

  function Pow256(n: nat): (p: nat)
    ensures p > 0
  {
    if n == 0 then 1 else 0x100 * Pow256(n - 1)
  }

  lemma Powers()
    ensures Pow256(4) == 0x1_0000_0000 && Pow256(8) == 0x1_0000_0000_0000_0000
  {
    assert Pow256(4) == 0x100 * (0x100 * (0x100 * (0x100 * Pow256(0))));
    assert Pow256(8) == 0x100 * (0x100 * (0x100 * (0x100 * Pow256(4))));
  }
}
