/**
 Registers pushed on a descending stack, and what keeps them there.
 The n-th register pushed lies 8 * (n + 1) bytes below where the stack pointer was, and stays there through
 writes that lie clear of it.
 */
module Frames {
  import opened Words
  import opened Memory

  /** The first n of the words vs were pushed, in order, by a stub whose stack pointer was `top`. */
  ghost predicate Stacked(m: Mem, top: int, vs: seq<u64>, n: nat) {
    n <= |vs| && forall i :: 0 <= i < n ==> Rd64(m, top - 8 * (i + 1)) == vs[i]
  }

  lemma StackedPush(m: Mem, top: int, vs: seq<u64>, n: nat)
    requires n < |vs| && Stacked(m, top, vs, n)
    ensures var a := top - 8 * (n + 1);
            && Stacked(Wr64(m, a, vs[n]), top, vs, n + 1)
            && Agree(m, Wr64(m, a, vs[n]), a, a + 8)
  {
    hide Rd64, Wr64;
    var a := top - 8 * (n + 1);
    WriteAgree64(m, a, vs[n]);
    ReadBack64(m, a, vs[n]);
    forall i | 0 <= i < n ensures Rd64(Wr64(m, a, vs[n]), top - 8 * (i + 1)) == vs[i] {
      ReadOther64(m, a, vs[n], top - 8 * (i + 1));
    }
  }

  lemma StackedAgree(m: Mem, n: Mem, lo: int, hi: int, top: int, vs: seq<u64>)
    requires Stacked(m, top, vs, |vs|) && Agree(m, n, lo, hi)
    requires hi <= top - 8 * |vs| || top <= lo
    ensures Stacked(n, top, vs, |vs|)
  {
    hide Rd64;
    forall i | 0 <= i < |vs| ensures Rd64(n, top - 8 * (i + 1)) == vs[i] {
      ReadAgree(m, n, lo, hi, top - 8 * (i + 1));
    }
  }
}
