/**
 Little-endian fields in byte sequences, and overwriting part of one: what the import section, relocation and
 the builders share. A field is packed into and read back from as many bytes as it has, and overwriting it
 leaves the bytes outside it alone.
 */
module Bytes {
  import opened Words

  /** The n low bytes of v. */
  function Pack(v: nat, n: nat): (bs: seq<byte>)
    ensures |bs| == n
  {
    if n == 0 then [] else [v % 0x100] + Pack(v / 0x100, n - 1)
  }

  function Unpack(bs: seq<byte>): nat {
    if |bs| == 0 then 0 else bs[0] + 0x100 * Unpack(bs[1..])
  }

  lemma {:induction false} UnpackPack(v: nat, n: nat)
    requires v < Pow256(n)
    ensures Unpack(Pack(v, n)) == v
  {
    if n == 0 {
    } else {
      UnpackPack(v / 0x100, n - 1);
      assert Pack(v, n)[1..] == Pack(v / 0x100, n - 1);
    }
  }

  lemma {:induction false} UnpackBound(bs: seq<byte>)
    ensures Unpack(bs) < Pow256(|bs|)
  {
    if |bs| == 0 {
    } else {
      UnpackBound(bs[1..]);
    }
  }

  lemma {:induction false} PackUnpack(bs: seq<byte>)
    ensures Pack(Unpack(bs), |bs|) == bs
  {
    if |bs| == 0 {
    } else {
      PackUnpack(bs[1..]);
    }
  }

  /** What four and eight bytes stand for, written out. */
  function Double(bs: seq<byte>, at: nat): int
    requires at + 4 <= |bs|
  {
    bs[at] as int + 0x100 * (bs[at + 1] as int) + 0x1_0000 * (bs[at + 2] as int) + 0x100_0000 * (bs[at + 3] as int)
  }

  function Quad(bs: seq<byte>, at: nat): int
    requires at + 8 <= |bs|
  {
    Double(bs, at) + 0x1_0000_0000 * Double(bs, at + 4)
  }

  lemma FourBytes(bs: seq<byte>)
    requires |bs| == 4
    ensures Unpack(bs) == Double(bs, 0)
  {
    assert bs[1..][1..] == bs[2..] && bs[2..][1..] == bs[3..] && bs[3..][1..] == [];
    assert Unpack(bs[3..]) == bs[3];
    assert Unpack(bs[2..]) == bs[2] as int + 0x100 * (bs[3] as int);
    assert Unpack(bs[1..]) == bs[1] as int + 0x100 * (bs[2] as int) + 0x1_0000 * (bs[3] as int);
  }

  lemma PowerOn(b: int, low: int, p: int, high: int)
    ensures b + 0x100 * (low + p * high) == (b + 0x100 * low) + (0x100 * p) * high
  { }

  lemma {:induction false} UnpackSplit(bs: seq<byte>, n: nat)
    requires n <= |bs|
    ensures Unpack(bs) == Unpack(bs[..n]) + Pow256(n) * Unpack(bs[n..])
    decreases n
  {
    if n == 0 {
      assert bs[0..] == bs;
    } else {
      UnpackSplit(bs[1..], n - 1);
      assert bs[1..][..n - 1] == bs[..n][1..] && bs[1..][n - 1..] == bs[n..];
      PowerOn(bs[0], Unpack(bs[..n][1..]), Pow256(n - 1), Unpack(bs[n..]));
    }
  }

  lemma EightBytes(bs: seq<byte>)
    requires |bs| == 8
    ensures Unpack(bs) == Quad(bs, 0)
  {
    UnpackSplit(bs, 4);
    Powers();
    FourBytes(bs[..4]);
    FourBytes(bs[4..]);
  }

  /** bs with the bytes from off on replaced by those of field. */
  function Splice(bs: seq<byte>, off: nat, field: seq<byte>): (r: seq<byte>)
    requires off + |field| <= |bs|
    ensures |r| == |bs| && r[off..off + |field|] == field
  {
    bs[..off] + field + bs[off + |field|..]
  }

  lemma SpliceElsewhere(bs: seq<byte>, off: nat, field: seq<byte>, lo: nat, hi: nat)
    requires off + |field| <= |bs| && lo <= hi <= |bs|
    requires hi <= off || off + |field| <= lo
    ensures Splice(bs, off, field)[lo..hi] == bs[lo..hi]
  {
    var r := Splice(bs, off, field);
    forall i | lo <= i < hi ensures r[i] == bs[i] { }
  }

  lemma SpliceByte(bs: seq<byte>, off: nat, field: seq<byte>, i: nat)
    requires off + |field| <= |bs| && i < |bs|
    ensures Splice(bs, off, field)[i] == if off <= i < off + |field| then field[i - off] else bs[i]
  { }

  /** Overwriting part of an array in place. */
  method Put(a: array<byte>, off: nat, field: seq<byte>)
    requires off + |field| <= a.Length
    modifies a
    ensures a[..] == Splice(old(a[..]), off, field)
  {
    var i := 0;
    while i < |field|
      invariant 0 <= i <= |field|
      invariant forall k :: 0 <= k < a.Length ==>
                  a[k] == if off <= k < off + i then field[k - off] else old(a[k])
    {
      a[off + i] := field[i];
      i := i + 1;
    }
  }
}
