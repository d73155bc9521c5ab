/**
 Base relocation of a PE64 image in place, after the '.reloc' section of the PE format.
 An image is a sequence of bytes and a relocation site an offset into it with a kind, which says how wide the
 field there is. What relocating means is a function on the bytes; the loops over blocks and entries are the
 methods at the end, which change an array in place.
 */
module Relocation {
  import opened Words
  import opened Bytes

  datatype Kind = Dir64 | HighLow | Other

  /** A relocation entry: what is to be adjusted at which offset of the image. */
  datatype Site = Site(kind: Kind, rva: nat)
  {
    function Size(): nat { match kind case Dir64 => 8 case HighLow => 4 case Other => 0 }

    function End(): nat { rva + Size() }

    /** Sites less than eight bytes from the end of the image are passed over, whatever their kind. */
    predicate Applies(size: nat) { rva + 8 <= size && kind != Other }
  }

  predicate Apart(s: Site, t: Site) { s.End() <= t.rva || t.End() <= s.rva }

  /** The sites do not overlap. */
  ghost predicate Separate(sites: seq<Site>) {
    forall i, j :: 0 <= i < j < |sites| ==> Apart(sites[i], sites[j])
  }

  function FieldOf(image: seq<byte>, s: Site): nat
    requires s.Applies(|image|)
  {
    Unpack(image[s.rva..s.End()])
  }

  /** The value at a site moved by delta, modulo its width. */
  function Adjusted(image: seq<byte>, s: Site, delta: int): (f: seq<byte>)
    requires s.Applies(|image|)
    ensures |f| == s.Size()
  {
    Pack((FieldOf(image, s) + delta) % Pow256(s.Size()), s.Size())
  }

  function Adjust(image: seq<byte>, s: Site, delta: int): (r: seq<byte>)
    ensures |r| == |image|
  {
    if s.Applies(|image|) then
      Splice(image, s.rva, Adjusted(image, s, delta))
    else image
  }

  function Relocated(image: seq<byte>, sites: seq<Site>, delta: int): (r: seq<byte>)
    ensures |r| == |image|
    decreases |sites|
  {
    if |sites| == 0 then image else Relocated(Adjust(image, sites[0], delta), sites[1..], delta)
  }

  // One site.

  lemma AdjustField(image: seq<byte>, s: Site, delta: int)
    requires s.Applies(|image|)
    ensures FieldOf(Adjust(image, s, delta), s) == (FieldOf(image, s) + delta) % Pow256(s.Size())
  {
    UnpackPack((FieldOf(image, s) + delta) % Pow256(s.Size()), s.Size());
  }

  lemma SpliceAgain(image: seq<byte>, at: nat, f: seq<byte>, g: seq<byte>)
    requires |f| == |g| && at + |f| <= |image|
    ensures Splice(Splice(image, at, f), at, g) == Splice(image, at, g)
  { }

  lemma MulAway(m: int, k: int)
    requires m > 0
    ensures (k >= 1 ==> m * k >= m) && (k <= -1 ==> m * k <= -m)
  { }

  lemma ModUnique(y: int, q: int, r: int, m: nat)
    requires m > 0 && 0 <= r < m && y == m * q + r
    ensures y % m == r
  {
    var k := y / m - q;
    assert y == m * (y / m) + y % m;
    assert m * k == r - y % m;
    MulAway(m, k);
  }

  lemma ModShift(x: int, q: int, m: nat)
    requires m > 0
    ensures (x + m * q) % m == x % m
  {
    var y := x + m * q;
    assert y == m * (x / m + q) + x % m;
    ModUnique(y, x / m + q, x % m, m);
  }

  lemma ModAdd(a: nat, d: int, e: int, m: nat)
    requires m > 0
    ensures ((a + d) % m + e) % m == (a + (d + e)) % m
  {
    var q := (a + d) / m;
    assert a + d == m * q + (a + d) % m;
    ModShift((a + d) % m + e, q, m);
    assert (a + d) % m + e + m * q == a + (d + e);
  }

  lemma AdjustedTwice(image: seq<byte>, s: Site, d: int, e: int)
    requires s.Applies(|image|)
    ensures Adjusted(Adjust(image, s, d), s, e) == Adjusted(image, s, d + e)
  {
    hide FieldOf, Adjust, Pack, Pow256;
    AdjustField(image, s, d);
    ModAdd(FieldOf(image, s), d, e, Pow256(s.Size()));
  }

  lemma AdjustTwice(image: seq<byte>, s: Site, d: int, e: int)
    ensures Adjust(Adjust(image, s, d), s, e) == Adjust(image, s, d + e)
  {
    if s.Applies(|image|) {
      AdjustedTwice(image, s, d, e);
      hide Splice, Adjusted;
      SpliceAgain(image, s.rva, Adjusted(image, s, d), Adjusted(image, s, d + e));
    }
  }

  lemma SmallMod(a: nat, m: nat)
    requires a < m
    ensures a % m == a
  { }

  lemma AdjustByZero(image: seq<byte>, s: Site)
    ensures Adjust(image, s, 0) == image
  {
    if s.Applies(|image|) {
      var f := image[s.rva..s.End()];
      UnpackBound(f);
      PackUnpack(f);
      hide Pack, Unpack, Pow256;
      SmallMod(FieldOf(image, s), Pow256(s.Size()));
      assert image == image[..s.rva] + f + image[s.End()..];
    }
  }

  lemma AdjustElsewhere(image: seq<byte>, s: Site, delta: int, lo: nat, hi: nat)
    requires lo <= hi <= |image| && (hi <= s.rva || s.End() <= lo)
    ensures Adjust(image, s, delta)[lo..hi] == image[lo..hi]
  {
    if s.Applies(|image|) {
      SpliceElsewhere(image, s.rva, Pack((FieldOf(image, s) + delta) % Pow256(s.Size()), s.Size()), lo, hi);
    }
  }

  lemma SplicesCommute(image: seq<byte>, a: nat, f: seq<byte>, b: nat, g: seq<byte>)
    requires a + |f| <= |image| && b + |g| <= |image| && (a + |f| <= b || b + |g| <= a)
    ensures Splice(Splice(image, a, f), b, g) == Splice(Splice(image, b, g), a, f)
  {
    var l, r := Splice(Splice(image, a, f), b, g), Splice(Splice(image, b, g), a, f);
    forall i | 0 <= i < |image| ensures l[i] == r[i] {
      SpliceByte(image, a, f, i);
      SpliceByte(Splice(image, a, f), b, g, i);
      SpliceByte(image, b, g, i);
      SpliceByte(Splice(image, b, g), a, f, i);
    }
  }

  lemma FieldApart(image: seq<byte>, s: Site, t: Site, d: int)
    requires Apart(s, t) && t.Applies(|image|)
    ensures FieldOf(Adjust(image, s, d), t) == FieldOf(image, t)
  {
    hide Adjust, Unpack;
    AdjustElsewhere(image, s, d, t.rva, t.End());
  }

  lemma AdjustedApart(image: seq<byte>, s: Site, t: Site, d: int, e: int)
    requires Apart(s, t) && s.Applies(|image|) && t.Applies(|image|)
    ensures Adjusted(Adjust(image, s, d), t, e) == Adjusted(image, t, e)
  {
    hide Adjust, Pack, FieldOf, Pow256;
    FieldApart(image, s, t, d);
  }

  lemma AdjustsCommute(image: seq<byte>, s: Site, t: Site, d: int, e: int)
    requires Apart(s, t)
    ensures Adjust(Adjust(image, s, d), t, e) == Adjust(Adjust(image, t, e), s, d)
  {
    if s.Applies(|image|) && t.Applies(|image|) {
      AdjustedApart(image, s, t, d, e);
      AdjustedApart(image, t, s, e, d);
      hide Splice, Adjusted;
      SplicesCommute(image, s.rva, Adjusted(image, s, d), t.rva, Adjusted(image, t, e));
    }
  }

  // All sites.

  lemma {:induction false} AdjustPast(image: seq<byte>, s: Site, sites: seq<Site>, d: int, e: int)
    requires forall i :: 0 <= i < |sites| ==> Apart(s, sites[i])
    ensures Adjust(Relocated(image, sites, d), s, e) == Relocated(Adjust(image, s, e), sites, d)
    decreases |sites|
  {
    if |sites| == 0 {
    } else {
      hide Adjust;
      AdjustPast(Adjust(image, sites[0], d), s, sites[1..], d, e);
      AdjustsCommute(image, s, sites[0], e, d);
    }
  }

  /** Relocating by d and then by e is relocating by d + e. */
  lemma {:induction false} Compose(image: seq<byte>, sites: seq<Site>, d: int, e: int)
    requires Separate(sites)
    ensures Relocated(Relocated(image, sites, d), sites, e) == Relocated(image, sites, d + e)
    decreases |sites|
  {
    if |sites| == 0 {
    } else {
      hide Adjust;
      var s, rest := sites[0], sites[1..];
      var first := Adjust(image, s, d);
      forall i | 0 <= i < |rest| ensures Apart(s, rest[i]) { assert rest[i] == sites[i + 1]; }
      AdjustPast(first, s, rest, d, e);
      AdjustTwice(image, s, d, e);
      Compose(Adjust(image, s, d + e), rest, d, e);
    }
  }

  /** Relocating by nothing changes nothing. */
  lemma {:induction false} Neutral(image: seq<byte>, sites: seq<Site>)
    ensures Relocated(image, sites, 0) == image
    decreases |sites|
  {
    if |sites| == 0 {
    } else {
      AdjustByZero(image, sites[0]);
      Neutral(image, sites[1..]);
    }
  }

  /** Relocating back undoes relocating. */
  lemma Inverse(image: seq<byte>, sites: seq<Site>, d: int)
    requires Separate(sites)
    ensures Relocated(Relocated(image, sites, d), sites, -d) == image
  {
    Compose(image, sites, d, -d);
    Neutral(image, sites);
  }

  /** Bytes outside the sites that apply never change. */
  lemma {:induction false} Elsewhere(image: seq<byte>, sites: seq<Site>, delta: int, k: nat)
    requires k < |image|
    requires forall i :: 0 <= i < |sites| && sites[i].Applies(|image|) ==> k < sites[i].rva || sites[i].End() <= k
    ensures Relocated(image, sites, delta)[k] == image[k]
    decreases |sites|
  {
    if |sites| == 0 {
    } else {
      if sites[0].Applies(|image|) {
        AdjustElsewhere(image, sites[0], delta, k, k + 1);
        assert Adjust(image, sites[0], delta)[k..k + 1][0] == image[k..k + 1][0];
      }
      Elsewhere(Adjust(image, sites[0], delta), sites[1..], delta, k);
    }
  }

  lemma FieldStays(image: seq<byte>, sites: seq<Site>, delta: int, s: Site)
    requires s.Applies(|image|) && forall j :: 0 <= j < |sites| ==> Apart(s, sites[j])
    ensures FieldOf(Relocated(image, sites, delta), s) == FieldOf(image, s)
  {
    var r := Relocated(image, sites, delta);
    forall k | s.rva <= k < s.End() ensures r[k] == image[k] {
      Elsewhere(image, sites, delta, k);
    }
    assert r[s.rva..s.End()] == image[s.rva..s.End()];
  }

  /** And each that applies is moved by exactly delta. */
  lemma {:induction false} Moves(image: seq<byte>, sites: seq<Site>, delta: int, i: nat)
    requires Separate(sites) && i < |sites| && sites[i].Applies(|image|)
    ensures FieldOf(Relocated(image, sites, delta), sites[i])
            == (FieldOf(image, sites[i]) + delta) % Pow256(sites[i].Size())
    decreases |sites|
  {
    hide Adjust, FieldOf, Pow256;
    var s, rest := sites[0], sites[1..];
    if i == 0 {
      forall j | 0 <= j < |rest| ensures Apart(s, rest[j]) { assert rest[j] == sites[j + 1]; }
      AdjustPast(image, s, rest, delta, delta);
      AdjustField(Relocated(image, rest, delta), s, delta);
      FieldStays(image, rest, delta, s);
    } else {
      assert Apart(s, sites[i]) && rest[i - 1] == sites[i];
      FieldApart(image, s, sites[i], delta);
      Moves(Adjust(image, s, delta), rest, delta, i - 1);
    }
  }

  function Flat(blocks: seq<seq<Site>>): seq<Site> {
    if |blocks| == 0 then [] else blocks[0] + Flat(blocks[1..])
  }

  lemma {:induction false} RelocatedAppend(image: seq<byte>, a: seq<Site>, b: seq<Site>, delta: int)
    ensures Relocated(image, a + b, delta) == Relocated(Relocated(image, a, delta), b, delta)
    decreases |a|
  {
    hide Adjust;
    if |a| == 0 {
      assert a + b == b;
    } else {
      assert (a + b)[1..] == a[1..] + b;
      RelocatedAppend(Adjust(image, a[0], delta), a[1..], b, delta);
    }
  }

  // What that is, said of the blocks and of the bytes of their fields.

  /** The bytes of a field. */
  function Width(k: Kind): nat { match k case Dir64 => 8 case HighLow => 4 case Other => 0 }

  /** Entry i of block b and entry j of block c are one and the same, or do not overlap. */
  predicate EntriesApart(blocks: seq<seq<Site>>, b: int, i: int, c: int, j: int)
    requires 0 <= b < |blocks| && 0 <= i < |blocks[b]| && 0 <= c < |blocks| && 0 <= j < |blocks[c]|
  {
    var s, t := blocks[b][i], blocks[c][j];
    (b == c && i == j) || s.rva + Width(s.kind) <= t.rva || t.rva + Width(t.kind) <= s.rva
  }

  ghost predicate BlocksApart(blocks: seq<seq<Site>>) {
    forall b, i, c, j :: 0 <= b < |blocks| && 0 <= i < |blocks[b]| && 0 <= c < |blocks| && 0 <= j < |blocks[c]| ==>
      EntriesApart(blocks, b, i, c, j)
  }

  /** The field of a site that fits the image has moved by delta, modulo its width. */
  predicate FieldMoved(was: seq<byte>, now: seq<byte>, s: Site, delta: int)
    requires |was| == |now|
  {
    s.rva + 8 <= |was| ==>
      match s.kind
      case Dir64 => Quad(now, s.rva) == (Quad(was, s.rva) + delta) % 0x1_0000_0000_0000_0000
      case HighLow => Double(now, s.rva) == (Double(was, s.rva) + delta) % 0x1_0000_0000
      case Other => true
  }

  /** Every entry of every block is moved. */
  ghost predicate AllMoved(was: seq<byte>, now: seq<byte>, blocks: seq<seq<Site>>, delta: int)
    requires |was| == |now|
  {
    forall b, i :: 0 <= b < |blocks| && 0 <= i < |blocks[b]| ==> FieldMoved(was, now, blocks[b][i], delta)
  }

  /** Byte k belongs to no entry of any block. */
  ghost predicate NoField(blocks: seq<seq<Site>>, k: nat) {
    forall b, i :: 0 <= b < |blocks| && 0 <= i < |blocks[b]| ==>
      k < blocks[b][i].rva || blocks[b][i].rva + Width(blocks[b][i].kind) <= k
  }

  /** How many entries the blocks before block b have. */
  function Before(blocks: seq<seq<Site>>, b: nat): nat
    requires b <= |blocks|
  {
    if b == 0 then 0 else |blocks[0]| + Before(blocks[1..], b - 1)
  }

  lemma {:induction false} EntryAt(blocks: seq<seq<Site>>, b: nat, i: nat)
    requires b < |blocks| && i < |blocks[b]|
    ensures Before(blocks, b) + i < |Flat(blocks)| && Flat(blocks)[Before(blocks, b) + i] == blocks[b][i]
    decreases b
  {
    if b == 0 {
    } else {
      EntryAt(blocks[1..], b - 1, i);
    }
  }

  lemma {:induction false} EntryOf(blocks: seq<seq<Site>>, n: nat) returns (b: nat, i: nat)
    requires n < |Flat(blocks)|
    ensures b < |blocks| && i < |blocks[b]| && n == Before(blocks, b) + i && Flat(blocks)[n] == blocks[b][i]
    decreases |blocks|
  {
    if n < |blocks[0]| {
      b, i := 0, n;
    } else {
      b, i := EntryOf(blocks[1..], n - |blocks[0]|);
      b := b + 1;
    }
  }

  lemma FlatSeparate(blocks: seq<seq<Site>>)
    requires BlocksApart(blocks)
    ensures Separate(Flat(blocks))
  {
    var sites := Flat(blocks);
    forall m, n | 0 <= m < n < |sites| ensures Apart(sites[m], sites[n]) {
      var b, i := EntryOf(blocks, m);
      var c, j := EntryOf(blocks, n);
      assert EntriesApart(blocks, b, i, c, j);
    }
  }

  lemma FieldIs(image: seq<byte>, s: Site)
    requires s.Applies(|image|)
    ensures s.kind == Dir64 ==> FieldOf(image, s) == Quad(image, s.rva) && Pow256(s.Size()) == 0x1_0000_0000_0000_0000
    ensures s.kind == HighLow ==> FieldOf(image, s) == Double(image, s.rva) && Pow256(s.Size()) == 0x1_0000_0000
  {
    Powers();
    var f := image[s.rva..s.End()];
    if s.kind == Dir64 { EightBytes(f); } else { FourBytes(f); }
  }

  /** Relocating block by block moves every entry of every block and nothing else. */
  lemma BlocksMoved(image: seq<byte>, blocks: seq<seq<Site>>, delta: int)
    ensures var r := Relocated(image, Flat(blocks), delta);
            && (BlocksApart(blocks) ==> AllMoved(image, r, blocks, delta))
            && forall k: nat :: k < |image| && NoField(blocks, k) ==> r[k] == image[k]
  {
    hide Relocated, FieldOf, Flat, Quad, Double, Pow256;
    var r := Relocated(image, Flat(blocks), delta);
    if BlocksApart(blocks) {
      FlatSeparate(blocks);
      forall b, i | 0 <= b < |blocks| && 0 <= i < |blocks[b]| ensures FieldMoved(image, r, blocks[b][i], delta) {
        var s := blocks[b][i];
        if s.rva + 8 <= |image| && s.kind != Other {
          EntryAt(blocks, b, i);
          Moves(image, Flat(blocks), delta, Before(blocks, b) + i);
          FieldIs(image, s);
          FieldIs(r, s);
        }
      }
    }
    forall k: nat | k < |image| && NoField(blocks, k) ensures r[k] == image[k] {
      forall n | 0 <= n < |Flat(blocks)| && Flat(blocks)[n].Applies(|image|)
        ensures k < Flat(blocks)[n].rva || Flat(blocks)[n].End() <= k
      {
        var b, i := EntryOf(blocks, n);
        assert k < blocks[b][i].rva || blocks[b][i].rva + Width(blocks[b][i].kind) <= k;
      }
      Elsewhere(image, Flat(blocks), delta, k);
    }
  }

  /** The entries of one block, one after another. */
  method RelocateBlock(image: array<byte>, block: seq<Site>, delta: int)
    modifies image
    ensures image[..] == Relocated(old(image[..]), block, delta)
  {
    hide Splice, Pack, Unpack, Pow256;
    var i := 0;
    while i < |block|
      invariant 0 <= i <= |block|
      invariant Relocated(image[..], block[i..], delta) == Relocated(old(image[..]), block, delta)
    {
      var site := block[i];
      assert block[i..][0] == site && block[i..][1..] == block[i + 1..];
      ghost var before := image[..];
      if site.rva + 8 <= image.Length && site.kind != Other {
        var n := site.Size();
        var v := Unpack(image[site.rva..site.rva + n]);
        assert image[site.rva..site.rva + n] == before[site.rva..site.End()];
        Put(image, site.rva, Pack((v + delta) % Pow256(n), n));
      }
      assert image[..] == Adjust(before, site, delta);
      i := i + 1;
    }
  }

  /** Applying the relocation blocks in the mapped image. */
  method Relocate(image: array<byte>, blocks: seq<seq<Site>>, oldBase: int, newBase: int)
    modifies image
    ensures image[..] == Relocated(old(image[..]), Flat(blocks), newBase - oldBase)
    ensures BlocksApart(blocks) ==> AllMoved(old(image[..]), image[..], blocks, newBase - oldBase)
    ensures forall k: nat :: k < image.Length && NoField(blocks, k) ==> image[k] == old(image[k])
  {
    hide AllMoved, BlocksApart, NoField, Adjust;
    var delta := newBase - oldBase;
    BlocksMoved(image[..], blocks, delta);
    if delta == 0 {
      Neutral(image[..], Flat(blocks));
      return;
    }
    var b := 0;
    while b < |blocks|
      invariant 0 <= b <= |blocks|
      invariant Relocated(image[..], Flat(blocks[b..]), delta) == Relocated(old(image[..]), Flat(blocks), delta)
    {
      assert blocks[b..][0] == blocks[b] && blocks[b..][1..] == blocks[b + 1..];
      RelocatedAppend(image[..], blocks[b], Flat(blocks[b + 1..]), delta);
      RelocateBlock(image, blocks[b], delta);
      b := b + 1;
    }
  }
}
