/** The rewrite of gs:[rip+0] loads into gs:[0] loads: what it does to bytes, and to any cutting of them into pieces. */
module GsRewrite {
  import opened Words

  /** 65 rex 8B modrm 00000000 at offset i, with a ModRM byte that says [rip + disp32]. */
  predicate Site(code: seq<byte>, i: nat) {
    && i + 8 <= |code| && code[i] == 0x65 && code[i + 2] == 0x8B
    && code[i + 4] == 0 && code[i + 5] == 0 && code[i + 6] == 0 && code[i + 7] == 0
    && code[i + 3] / 64 == 0 && code[i + 3] % 8 == 5
  }

  /** What replaces a site: the same register and rex byte, and a SIB byte that says absolute. */
  function Absolute(rex: byte, modrm: byte): seq<byte> {
    var reg := modrm / 8 % 8 + if rex / 4 % 2 == 1 then 8 else 0;
    [0x65, rex, 0x8B, 0x04 + 8 * (reg % 8), 0x25, 0, 0, 0, 0]
  }

  function Fixed(code: seq<byte>): seq<byte> {
    if |code| == 0 then []
    else if Site(code, 0) then Absolute(code[1], code[3]) + Fixed(code[8..])
    else [code[0]] + Fixed(code[1..])
  }

  lemma FixedFrom(code: seq<byte>, i: nat)
    requires i < |code|
    ensures if Site(code, i) then Fixed(code[i..]) == Absolute(code[i + 1], code[i + 3]) + Fixed(code[i + 8..])
            else Fixed(code[i..]) == [code[i]] + Fixed(code[i + 1..])
  {
    hide Absolute;
    assert Site(code[i..], 0) == Site(code, i);
    if Site(code, i) {
      assert code[i..][8..] == code[i + 8..];
    } else {
      assert code[i..][1..] == code[i + 1..];
    }
  }

  lemma FixedEnd(code: seq<byte>)
    ensures Fixed(code[|code|..]) == [] && code[0..] == code
  { }

  method FixGsAbsDisp(code: seq<byte>) returns (out: seq<byte>)
    ensures out == Fixed(code)
  {
    hide Fixed, Absolute;
    out := [];
    FixedEnd(code);
    var i := 0;
    while i < |code|
      invariant 0 <= i <= |code| && out + Fixed(code[i..]) == Fixed(code)
    {
      FixedFrom(code, i);
      if Site(code, i) {
        out := out + Absolute(code[i + 1], code[i + 3]);
        i := i + 8;
      } else {
        out := out + [code[i]];
        i := i + 1;
      }
    }
  }

  // On bytes.

  function Sites(code: seq<byte>): nat {
    if |code| == 0 then 0 else (if Site(code, 0) then 1 else 0) + Sites(code[1..])
  }

  lemma {:induction false} NoSiteIn(code: seq<byte>, n: nat)
    requires n <= |code| && forall i: nat :: i < n ==> !Site(code, i)
    ensures Sites(code) == Sites(code[n..])
    decreases n
  {
    if n > 0 {
      forall i: nat | i < n - 1 ensures !Site(code[1..], i) { assert !Site(code, i + 1); }
      NoSiteIn(code[1..], n - 1);
      assert code[1..][n - 1..] == code[n..];
    } else {
      assert code[0..] == code;
    }
  }

  /** Sites do not overlap. */
  lemma SitesApart(code: seq<byte>, i: nat)
    requires Site(code, 0) && 0 < i < 8
    ensures !Site(code, i)
  { }

  /** The code grows by one byte for each site, wherever the sites are. */
  lemma {:induction false} FixedLength(code: seq<byte>)
    ensures |Fixed(code)| == |code| + Sites(code)
  {
    if |code| == 0 {
    } else if Site(code, 0) {
      FixedLength(code[8..]);
      forall i: nat | i < 7 ensures !Site(code[1..], i) {
        SitesApart(code, i + 1);
        assert Site(code[1..], i) == Site(code, i + 1);
      }
      NoSiteIn(code[1..], 7);
      assert code[1..][7..] == code[8..];
    } else {
      FixedLength(code[1..]);
    }
  }

  /** Putting a replacement in front of code makes no site. */
  lemma NoSiteAcross(rex: byte, modrm: byte, tail: seq<byte>, i: nat)
    requires modrm / 64 == 0 && modrm % 8 == 5 && i < 9
    ensures !Site(Absolute(rex, modrm) + tail, i)
  { }

  /** What byte j of a site has to be, past its first. */
  predicate InSite(j: nat, b: byte) {
    if j == 1 then true else if j == 2 then b == 0x8B else if j == 3 then b / 64 == 0 && b % 8 == 5 else b == 0
  }

  /** A rewritten site does not look like the rest of a site. */
  lemma NotFromSite(code: seq<byte>, n: nat)
    requires 0 < n <= 7 && |Fixed(code)| >= n && forall k :: 0 <= k < n ==> InSite(8 - n + k, Fixed(code)[k])
    ensures !Site(code, 0) && |code| > 0
  {
    var f := Fixed(code);
    assert InSite(8 - n, f[0]) && (n > 1 ==> InSite(9 - n, f[1])) && (n > 2 ==> InSite(10 - n, f[2]));
  }

  /** If a rewritten text begins like the last n bytes of a site, then so did the original. */
  lemma {:induction false} SameFront(code: seq<byte>, n: nat)
    requires n <= 7 && |Fixed(code)| >= n && forall k :: 0 <= k < n ==> InSite(8 - n + k, Fixed(code)[k])
    ensures |code| >= n && Fixed(code)[..n] == code[..n]
    decreases n
  {
    hide Site, Absolute, InSite;
    if n == 0 {
    } else {
      var f := Fixed(code);
      NotFromSite(code, n);
      assert f == [code[0]] + Fixed(code[1..]);
      forall k | 0 <= k < n - 1 ensures InSite(8 - (n - 1) + k, Fixed(code[1..])[k]) {
        assert InSite(8 - n + (k + 1), f[k + 1]);
      }
      SameFront(code[1..], n - 1);
    }
  }

  /** Nor does putting one byte of the original in front of what its rest was rewritten to. */
  lemma NoSiteInFront(code: seq<byte>)
    requires |code| > 0 && !Site(code, 0)
    ensures !Site([code[0]] + Fixed(code[1..]), 0)
  {
    var f := [code[0]] + Fixed(code[1..]);
    if Site(f, 0) {
      forall k | 0 <= k < 7 ensures InSite(1 + k, Fixed(code[1..])[k]) { assert Fixed(code[1..])[k] == f[k + 1]; }
      SameFront(code[1..], 7);
    }
  }

  /** No site is left. */
  lemma {:induction false} NoSiteLeft(code: seq<byte>, i: nat)
    ensures !Site(Fixed(code), i)
  {
    if |code| == 0 {
    } else if Site(code, 0) {
      var head, tail := Absolute(code[1], code[3]), Fixed(code[8..]);
      if i < 9 {
        NoSiteAcross(code[1], code[3], tail, i);
      } else {
        NoSiteLeft(code[8..], i - 9);
        assert Site(head + tail, i) == Site(tail, i - 9);
      }
    } else if i == 0 {
      NoSiteInFront(code);
    } else {
      NoSiteLeft(code[1..], i - 1);
      assert Site([code[0]] + Fixed(code[1..]), i) == Site(Fixed(code[1..]), i - 1);
    }
  }

  lemma {:induction false} NothingToFix(code: seq<byte>)
    requires forall i: nat :: !Site(code, i)
    ensures Fixed(code) == code
  {
    if |code| == 0 {
    } else {
      forall i: nat ensures !Site(code[1..], i) { assert !Site(code, i + 1); }
      NothingToFix(code[1..]);
    }
  }

  /** Rewriting twice is rewriting once. */
  lemma Idempotent(code: seq<byte>)
    ensures Fixed(Fixed(code)) == Fixed(code)
  {
    forall i: nat ensures !Site(Fixed(code), i) { NoSiteLeft(code, i); }
    NothingToFix(Fixed(code));
  }

  // On pieces: the instructions of any instruction set, as far as their bytes go.

  function Concat(ps: seq<seq<byte>>): seq<byte> {
    if |ps| == 0 then [] else ps[0] + Concat(ps[1..])
  }

  ghost predicate Nonempty(ps: seq<seq<byte>>) { forall k :: 0 <= k < |ps| ==> |ps[k]| > 0 }

  /** Where piece k starts. */
  function Start(ps: seq<seq<byte>>, k: nat): nat
    requires k <= |ps|
  {
    if k == 0 then 0 else |ps[0]| + Start(ps[1..], k - 1)
  }

  predicate SitePiece(p: seq<byte>) { |p| == 8 && Site(p, 0) }

  function FixPiece(p: seq<byte>): (r: seq<byte>)
    ensures |r| == |p| + if SitePiece(p) then 1 else 0
  {
    if SitePiece(p) then Absolute(p[1], p[3]) else p
  }

  function FixPieces(ps: seq<seq<byte>>): (rs: seq<seq<byte>>)
    ensures |rs| == |ps| && forall k :: 0 <= k < |ps| ==> rs[k] == FixPiece(ps[k])
  {
    seq(|ps|, k requires 0 <= k < |ps| => FixPiece(ps[k]))
  }

  /** Every site of the code is where an eight-byte piece starts. */
  ghost predicate SitesStartPieces(ps: seq<seq<byte>>) {
    forall i: nat :: Site(Concat(ps), i) ==> exists k: nat :: k < |ps| && Start(ps, k) == i && |ps[k]| == 8
  }

  /** Any site in the first n bytes of code is at its front, and n is eight. */
  ghost predicate FrontOnly(code: seq<byte>, n: nat) {
    (Site(code, 0) ==> n == 8) && forall i: nat :: 0 < i < n ==> !Site(code, i)
  }

  ghost predicate Covered(ps: seq<seq<byte>>)
    decreases |ps|
  {
    |ps| == 0 || (FrontOnly(Concat(ps), |ps[0]|) && Covered(ps[1..]))
  }

  /** An instruction without a site in it stays, and what follows it is rewritten on its own. */
  lemma {:induction false} FixedPast(code: seq<byte>, n: nat)
    requires n <= |code| && forall i: nat :: i < n ==> !Site(code, i)
    ensures Fixed(code) == code[..n] + Fixed(code[n..])
    decreases n
  {
    if n > 0 {
      forall i: nat | i < n - 1 ensures !Site(code[1..], i) { assert !Site(code, i + 1); }
      FixedPast(code[1..], n - 1);
      assert code[1..][n - 1..] == code[n..];
      assert Fixed(code) == [code[0]] + (code[1..][..n - 1] + Fixed(code[n..]));
      assert [code[0]] + code[1..][..n - 1] == code[..n];
    } else {
      assert code[0..] == code;
    }
  }

  lemma FixedSite(code: seq<byte>)
    requires Site(code, 0)
    ensures Fixed(code) == Absolute(code[1], code[3]) + Fixed(code[8..])
  { }

  /** How many of the first n offsets are sites. */
  function SitesBefore(code: seq<byte>, n: nat): nat
    requires n <= |code|
    decreases n
  {
    if n == 0 then 0 else (if Site(code, 0) then 1 else 0) + SitesBefore(code[1..], n - 1)
  }

  lemma {:induction false} SitesAdd(code: seq<byte>, n: nat)
    requires n <= |code|
    ensures Sites(code) == SitesBefore(code, n) + Sites(code[n..])
    decreases n
  {
    if n == 0 {
      assert code[0..] == code;
    } else {
      SitesAdd(code[1..], n - 1);
      assert code[1..][n - 1..] == code[n..];
    }
  }

  lemma {:induction false} NoneBefore(code: seq<byte>, n: nat, i: nat)
    requires i < n <= |code| && SitesBefore(code, n) == 0
    ensures !Site(code, i)
    decreases n
  {
    if i == 0 {
    } else {
      NoneBefore(code[1..], n - 1, i - 1);
      assert Site(code[1..], i - 1) == Site(code, i);
    }
  }

  lemma SiteBehind(code: seq<byte>, i: nat)
    requires 0 < i && |code| > 0
    ensures Site(code[1..], i - 1) == Site(code, i)
  { }

  lemma SiteInRest(p: seq<byte>, rest: seq<byte>, i: nat)
    ensures Site(p + rest, |p| + i) == Site(rest, i)
  { }

  lemma SiteOfPiece(p: seq<byte>, rest: seq<byte>)
    requires |p| == 8
    ensures Site(p + rest, 0) == SitePiece(p)
    ensures (p + rest)[1] == p[1] && (p + rest)[3] == p[3]
  { }

  lemma StartOn(ps: seq<seq<byte>>, k: nat)
    requires 0 < k <= |ps|
    ensures Start(ps, k) == |ps[0]| + Start(ps[1..], k - 1)
  { }

  lemma StartZero(ps: seq<seq<byte>>)
    ensures Start(ps, 0) == 0
  { }

  lemma StartsDown(ps: seq<seq<byte>>)
    requires |ps| > 0 && Nonempty(ps) && SitesStartPieces(ps)
    ensures FrontOnly(Concat(ps), |ps[0]|) && SitesStartPieces(ps[1..])
  {
    hide Site, Start;
    var code, rest := Concat(ps), Concat(ps[1..]);
    forall i: nat | Site(code, i) && i < |ps[0]| ensures i == 0 && |ps[0]| == 8 {
      var k: nat :| k < |ps| && Start(ps, k) == i && |ps[k]| == 8;
      if k > 0 { StartOn(ps, k); } else { StartZero(ps); }
    }
    forall i: nat | Site(rest, i) ensures exists k: nat :: k < |ps| - 1 && Start(ps[1..], k) == i && |ps[1..][k]| == 8 {
      SiteInRest(ps[0], rest, i);
      var k: nat :| k < |ps| && Start(ps, k) == |ps[0]| + i && |ps[k]| == 8;
      StartZero(ps);
      StartOn(ps, k);
      assert ps[1..][k - 1] == ps[k];
    }
  }

  lemma StartsUp(ps: seq<seq<byte>>)
    requires |ps| > 0 && FrontOnly(Concat(ps), |ps[0]|) && SitesStartPieces(ps[1..])
    ensures SitesStartPieces(ps)
  {
    hide Site, Start;
    var code, rest := Concat(ps), Concat(ps[1..]);
    forall i: nat | Site(code, i) ensures exists k: nat :: k < |ps| && Start(ps, k) == i && |ps[k]| == 8 {
      if i < |ps[0]| {
        StartZero(ps);
        assert Start(ps, 0) == i && |ps[0]| == 8;
      } else {
        SiteInRest(ps[0], rest, i - |ps[0]|);
        var k: nat :| k < |ps| - 1 && Start(ps[1..], k) == i - |ps[0]| && |ps[1..][k]| == 8;
        StartOn(ps, k + 1);
        assert ps[1..][k] == ps[k + 1];
      }
    }
  }

  lemma NoPieces(ps: seq<seq<byte>>)
    requires |ps| == 0
    ensures Covered(ps) && SitesStartPieces(ps) && Concat(ps) == []
  { }

  lemma {:induction false} CoveredIff(ps: seq<seq<byte>>)
    requires Nonempty(ps)
    ensures Covered(ps) <==> SitesStartPieces(ps)
    decreases |ps|
  {
    hide Site, Start, Concat, SitesStartPieces, FrontOnly;
    if |ps| == 0 {
      NoPieces(ps);
    } else {
      CoveredIff(ps[1..]);
      if SitesStartPieces(ps) { StartsDown(ps); }
      if Covered(ps) { StartsUp(ps); }
    }
  }

  lemma {:induction false} CoveredIsKept(ps: seq<seq<byte>>)
    requires Nonempty(ps) && Covered(ps)
    ensures Fixed(Concat(ps)) == Concat(FixPieces(ps))
    decreases |ps|
  {
    hide Fixed, Absolute, Site;
    if |ps| == 0 {
      FixedEnd([]);
    } else {
      var rest := Concat(ps[1..]);
      CoveredIsKept(ps[1..]);
      assert FixPieces(ps)[1..] == FixPieces(ps[1..]);
      assert (ps[0] + rest)[|ps[0]|..] == rest && (ps[0] + rest)[..|ps[0]|] == ps[0];
      if Site(ps[0] + rest, 0) {
        SiteOfPiece(ps[0], rest);
        FixedSite(ps[0] + rest);
      } else {
        if |ps[0]| == 8 { SiteOfPiece(ps[0], rest); }
        FixedPast(ps[0] + rest, |ps[0]|);
      }
    }
  }

  function PieceSites(ps: seq<seq<byte>>): nat {
    if |ps| == 0 then 0 else (if SitePiece(ps[0]) then 1 else 0) + PieceSites(ps[1..])
  }

  lemma {:induction false} PiecesLength(ps: seq<seq<byte>>)
    ensures |Concat(FixPieces(ps))| == |Concat(ps)| + PieceSites(ps)
  {
    hide SitePiece, Absolute;
    if |ps| == 0 {
    } else {
      PiecesLength(ps[1..]);
      assert FixPieces(ps)[1..] == FixPieces(ps[1..]);
    }
  }

  /** A piece has at least as many sites as it is one, and as many only if it has no other. */
  lemma FrontCovers(p: seq<byte>, rest: seq<byte>)
    requires |p| > 0
    ensures var one := if SitePiece(p) then 1 else 0;
            SitesBefore(p + rest, |p|) >= one && (SitesBefore(p + rest, |p|) == one ==> FrontOnly(p + rest, |p|))
  {
    hide Site;
    var code := p + rest;
    if |p| == 8 { SiteOfPiece(p, rest); }
    assert SitePiece(p) ==> |p| == 8;
    if SitesBefore(code[1..], |p| - 1) == 0 {
      forall i: nat | 0 < i < |p| ensures !Site(code, i) {
        NoneBefore(code[1..], |p| - 1, i - 1);
        SiteBehind(code, i);
      }
    }
  }

  /** There are at least as many sites as pieces that are sites, and as many only if there are no others. */
  lemma {:induction false} SitesCover(ps: seq<seq<byte>>)
    requires Nonempty(ps)
    ensures Sites(Concat(ps)) >= PieceSites(ps)
    ensures Sites(Concat(ps)) == PieceSites(ps) ==> Covered(ps)
    decreases |ps|
  {
    hide Site, SitePiece, Sites, SitesBefore, FrontOnly;
    if |ps| == 0 {
    } else {
      var rest := Concat(ps[1..]);
      SitesCover(ps[1..]);
      SitesAdd(ps[0] + rest, |ps[0]|);
      assert (ps[0] + rest)[|ps[0]|..] == rest;
      FrontCovers(ps[0], rest);
    }
  }

  /**
   However code is cut into instructions, rewriting it rewrites its instructions one by one, those that are
   sites and no others, exactly when each site starts an eight-byte instruction.
   */
  lemma PiecesKeptIff(ps: seq<seq<byte>>)
    requires Nonempty(ps)
    ensures Fixed(Concat(ps)) == Concat(FixPieces(ps)) <==> SitesStartPieces(ps)
  {
    hide Fixed, SitesStartPieces, Covered, Sites, Concat, FixPieces;
    CoveredIff(ps);
    if Covered(ps) {
      CoveredIsKept(ps);
    } else if Fixed(Concat(ps)) == Concat(FixPieces(ps)) {
      FixedLength(Concat(ps));
      PiecesLength(ps);
      SitesCover(ps);
    }
  }

  // Branches, whose distances are not rewritten.

  lemma {:induction false} StartNext(ps: seq<seq<byte>>, k: nat)
    requires k < |ps|
    ensures Start(ps, k + 1) == Start(ps, k) + |ps[k]|
    decreases k
  {
    if k == 0 {
      assert Start(ps[1..], 0) == 0;
    } else {
      StartNext(ps[1..], k - 1);
    }
  }

  /** How far a piece moves. */
  lemma {:induction false} Moved(ps: seq<seq<byte>>, j: nat, k: nat)
    requires j <= k <= |ps|
    ensures var rs := FixPieces(ps);
            Start(rs, k) - Start(ps, k) >= Start(rs, j) - Start(ps, j)
    ensures var rs := FixPieces(ps);
            Start(rs, k) - Start(ps, k) == Start(rs, j) - Start(ps, j) <==> forall i :: j <= i < k ==> !SitePiece(ps[i])
    decreases k
  {
    hide Start, Absolute, SitePiece;
    if j == k {
    } else {
      Moved(ps, j, k - 1);
      StartNext(ps, k - 1);
      StartNext(FixPieces(ps), k - 1);
    }
  }

  /**
   A branch behind piece k still goes to the start of piece j after rewriting, with the distance it had, exactly
   when no piece between them is a site.
   */
  lemma BranchKeptIff(ps: seq<seq<byte>>, k: nat, j: nat, rel: int)
    requires k < |ps| && j <= |ps| && Start(ps, k + 1) + rel == Start(ps, j)
    ensures var rs := FixPieces(ps);
            Start(rs, k + 1) + rel == Start(rs, j) <==> forall i :: k < i < j || j <= i <= k ==> !SitePiece(ps[i])
  {
    hide Start, Absolute, SitePiece;
    if k + 1 <= j { Moved(ps, k + 1, j); } else { Moved(ps, j, k + 1); }
  }
}
