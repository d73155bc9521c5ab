/** Where the emulator places regions and images. */
module AddressSpace {
  import opened Wrappers

  const PAGE := 0x1000
  const GRAIN := 0x10000
  const STACK_SIZE := 0x0020_0000
  const HEAP_SIZE := 0x0100_0000
  const STUB_SIZE := 0x0010_0000
  const OBJ_POOL := 0x0040_0000
  const SLED := 0x1000
  const LIMIT := 0x1_0000_0000_0000_0000

  datatype Range = Range(lo: int, hi: int)

  /** The alignments in use. */
  predicate Grid(a: int) { a == 16 || a == PAGE || a == GRAIN }

  function AlignUp(n: int, a: int): (r: int)
    requires Grid(a)
    ensures n <= r < n + a && r % a == 0
  {
    (n + a - 1) / a * a
  }

  function AlignDown(n: int, a: int): (r: int)
    requires Grid(a)
    ensures r <= n < r + a && r % a == 0
  {
    n / a * a
  }

  predicate Overlaps(lo: int, hi: int, r: Range) { lo < r.hi && hi > r.lo }

  predicate Free(occupied: seq<Range>, lo: int, hi: int) {
    forall i :: 0 <= i < |occupied| ==> !Overlaps(lo, hi, occupied[i])
  }

  predicate Inside(r: Range, a: int) { r.lo <= a < r.hi }

  /** That is, no address lies in both. */
  lemma FreeIff(occupied: seq<Range>, lo: int, hi: int)
    requires lo < hi && forall i :: 0 <= i < |occupied| ==> occupied[i].lo < occupied[i].hi
    ensures Free(occupied, lo, hi) <==>
            forall i, a :: 0 <= i < |occupied| && lo <= a < hi ==> !Inside(occupied[i], a)
  {
    if !Free(occupied, lo, hi) {
      var i :| 0 <= i < |occupied| && Overlaps(lo, hi, occupied[i]);
      var a := if lo < occupied[i].lo then occupied[i].lo else lo;
      assert lo <= a < hi && Inside(occupied[i], a);
    } else {
      forall i, a | 0 <= i < |occupied| && lo <= a < hi ensures !Inside(occupied[i], a) {
        assert !Overlaps(lo, hi, occupied[i]);
      }
    }
  }

  /** The greatest end among the ranges that end after `at`. */
  function LastEnd(occupied: seq<Range>, at: int): (e: Option<int>)
    ensures e.Some? ==> at < e.value && exists i :: 0 <= i < |occupied| && occupied[i].hi == e.value
    ensures forall i :: 0 <= i < |occupied| && at < occupied[i].hi ==> e.Some? && occupied[i].hi <= e.value
  {
    if |occupied| == 0 then None else
    var rest := LastEnd(occupied[1..], at);
    assert forall i :: 0 < i < |occupied| ==> occupied[i] == occupied[1..][i - 1];
    assert rest.Some? ==> exists i :: 0 <= i < |occupied| && occupied[i].hi == rest.value by {
      if rest.Some? {
        var i :| 0 <= i < |occupied| - 1 && occupied[1..][i].hi == rest.value;
        assert occupied[i + 1].hi == rest.value;
      }
    }
    if at < occupied[0].hi && (rest == None || occupied[0].hi > rest.value) then Some(occupied[0].hi) else rest
  }

  /** Past the last of the ranges everything is free, so looking there is never in vain. */
  lemma FreeAfterLast(occupied: seq<Range>, at: int, size: int)
    requires !Free(occupied, at, at + size)
    ensures LastEnd(occupied, at).Some?
    ensures var next := AlignUp(LastEnd(occupied, at).value + GRAIN, GRAIN);
            next > at && Free(occupied, next, next + size)
  {
    var i :| 0 <= i < |occupied| && Overlaps(at, at + size, occupied[i]);
    assert at < occupied[i].hi;
  }

  /** Where a search from preferred goes: there if it is free, and otherwise past everything in one hop. */
  function Placed(occupied: seq<Range>, preferred: int, size: int): (at: int)
    ensures Free(occupied, at, at + size) && at >= preferred
    ensures Free(occupied, preferred, preferred + size) ==> at == preferred
  {
    if Free(occupied, preferred, preferred + size) then preferred
    else
      FreeAfterLast(occupied, preferred, size);
      AlignUp(LastEnd(occupied, preferred).value + GRAIN, GRAIN)
  }

  const ATTEMPTS := 4096

  /** The search never uses up its attempts: the second is the last. */
  method FindFreeBase(occupied: seq<Range>, size: int, preferred: int) returns (r: Option<int>, ghost hops: nat)
    ensures r == Some(Placed(occupied, AlignUp(preferred, GRAIN), AlignUp(size, GRAIN))) && hops <= 1
  {
    var span := AlignUp(size, GRAIN);
    var candidate := AlignUp(preferred, GRAIN);
    hops := 0;
    for i := 0 to ATTEMPTS
      invariant hops == i <= 1
      invariant i == 0 ==> candidate == AlignUp(preferred, GRAIN)
      invariant i == 1 ==> candidate == Placed(occupied, AlignUp(preferred, GRAIN), span)
    {
      if !Free(occupied, candidate, candidate + span) {
        FreeAfterLast(occupied, candidate, span);
        candidate := AlignUp(LastEnd(occupied, candidate).value + GRAIN, GRAIN);
        hops := hops + 1;
        continue;
      }
      return Some(candidate), hops;
    }
    r := None;
  }

  /** The search for an image, which starts at any address and ends on a page. */
  method PlaceImage(occupied: seq<Range>, imageSize: int, preferred: int) returns (r: Option<int>, ghost hops: nat)
    ensures r == Some(AlignDown(Placed(occupied, preferred, AlignUp(imageSize, PAGE)), PAGE)) && hops <= 1
  {
    var size := AlignUp(imageSize, PAGE);
    var ib := preferred;
    hops := 0;
    if !Free(occupied, ib, ib + size) {
      ib := preferred;
      var placed := false;
      for i := 0 to ATTEMPTS
        invariant !placed && hops == i <= 1
        invariant i == 0 ==> ib == preferred
        invariant i == 1 ==> ib == Placed(occupied, preferred, size)
      {
        if Free(occupied, ib, ib + size) {
          placed := true;
          break;
        }
        FreeAfterLast(occupied, ib, size);
        ib := AlignUp(LastEnd(occupied, ib).value + GRAIN, GRAIN);
        hops := hops + 1;
      }
      if !placed { return None, hops; }
    }
    r := Some(AlignDown(ib, PAGE));
  }

  ghost predicate OnPages(r: Range) { r.lo % PAGE == 0 && r.hi % PAGE == 0 }

  ghost predicate Disjoint(rs: seq<Range>) {
    forall i, j :: 0 <= i < j < |rs| ==> rs[i].hi <= rs[j].lo || rs[j].hi <= rs[i].lo
  }

  lemma DownPast(at: int, hi: int)
    requires hi % PAGE == 0
    ensures hi <= at ==> hi <= AlignDown(at, PAGE)
  { }

  /** Rounding down to a page does not run into ranges that lie on pages. */
  lemma DownIsFree(occupied: seq<Range>, at: int, size: int)
    requires Free(occupied, at, at + size) && forall i :: 0 <= i < |occupied| ==> OnPages(occupied[i])
    ensures Free(occupied, AlignDown(at, PAGE), AlignDown(at, PAGE) + size)
  {
    forall i | 0 <= i < |occupied|
      ensures !Overlaps(AlignDown(at, PAGE), AlignDown(at, PAGE) + size, occupied[i])
    {
      assert !Overlaps(at, at + size, occupied[i]) && OnPages(occupied[i]);
      DownPast(at, occupied[i].hi);
    }
  }
}
