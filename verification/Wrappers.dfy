/**
 A value that may be absent, and the tail of a sequence, which is what a bounded log keeps. Both are used
 by more than one part of the model.
 */
module Wrappers {
  datatype Option<T> = None | Some(value: T)

  /** The last n elements. */
  function Last<T>(xs: seq<T>, n: nat): seq<T> { if |xs| <= n then xs else xs[|xs| - n..] }

  /** What a log of at most cap entries keeps; a negative cap keeps nothing. */
  function Kept(cap: int): nat { if cap < 0 then 0 else cap }

  /** Appending and then giving up the oldest entry if there are too many keeps the last ones. */
  lemma LastOn<T>(xs: seq<T>, x: T, cap: int)
    ensures var r := Last(xs, Kept(cap)) + [x];
            (if |r| > cap then r[1..] else r) == Last(xs + [x], Kept(cap))
  { }
}
