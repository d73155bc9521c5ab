/**
 When code means the same after the rewrite of gs:[rip+0] loads, in any instruction set and in the stubs' own.
 An instruction set is a way to decode, and what is to become of each instruction.
 */
module GsMeaning {
  import opened Wrappers
  import opened Words
  import opened Machine
  import opened Codec
  import opened GsRewrite

  /** A way to decode, how long what is decoded is, and what is to become of it when code is rewritten. */
  datatype InstrSet<!T> = InstrSet(decode: seq<byte> -> Option<T>, len: T -> nat, intended: T -> T)
  {
    /** The instruction at the front of code, if code has all of it. */
    function First(code: seq<byte>): (r: Option<T>)
      ensures r.Some? ==> 0 < len(r.value) <= |code|
    {
      match decode(code)
      case Some(d) => if 0 < len(d) <= |code| then Some(d) else None
      case None => None
    }

    /** The instructions that code consists of, one after another. */
    function Instrs(code: seq<byte>): Option<seq<T>>
      decreases |code|
    {
      if |code| == 0 then Some([]) else
      match First(code)
      case None => None
      case Some(d) =>
        match Instrs(code[len(d)..])
        case None => None
        case Some(ds) => Some([d] + ds)
    }

    /** Their bytes. */
    function Cut(code: seq<byte>): seq<seq<byte>>
      requires Instrs(code).Some?
      decreases |code|
    {
      if |code| == 0 then [] else
      var n := len(First(code).value);
      [code[..n]] + Cut(code[n..])
    }

    function AllIntended(ds: seq<T>): (es: seq<T>)
      ensures |es| == |ds| && forall i :: 0 <= i < |ds| ==> es[i] == intended(ds[i])
    {
      seq(|ds|, i requires 0 <= i < |ds| => intended(ds[i]))
    }

    /** Rewritten code is the intended instructions, one after another. */
    ghost predicate KeepsMeaning(code: seq<byte>)
      requires Instrs(code).Some?
    {
      Instrs(Fixed(code)) == Some(AllIntended(Instrs(code).value))
    }

    /** What follows an instruction does not matter. */
    ghost predicate Local() {
      forall bs: seq<byte>, cs: seq<byte> ::
        decode(bs).Some? && Front(bs, cs, len(decode(bs).value)) ==> decode(cs) == decode(bs)
    }

    /** Nothing but an eight-byte instruction that is a site is to change, and to nine bytes at most. */
    ghost predicate OnlyLoadsChange() {
      forall bs: seq<byte> :: First(bs).Some? ==>
        var d := First(bs).value;
        intended(d) != d ==> len(d) == 8 && Site(bs, 0) && len(intended(d)) <= 9
    }

    /** What the rewrite makes of the eight-byte site p is what is intended for it. */
    ghost predicate Apt(p: seq<byte>)
      requires SitePiece(p)
    {
      decode(p).Some? && decode(FixPiece(p)) == Some(intended(decode(p).value)) && len(intended(decode(p).value)) == 9
    }
  }

  lemma {:induction false} CutIs<T>(s: InstrSet<T>, code: seq<byte>)
    requires s.Instrs(code).Some?
    ensures |s.Cut(code)| == |s.Instrs(code).value| && Concat(s.Cut(code)) == code && Nonempty(s.Cut(code))
    decreases |code|
  {
    if |code| == 0 {
    } else {
      var n := s.len(s.First(code).value);
      CutIs(s, code[n..]);
      assert s.Cut(code)[1..] == s.Cut(code[n..]);
      assert code[..n] + code[n..] == code;
    }
  }

  ghost predicate AllApt<T>(s: InstrSet<T>, ps: seq<seq<byte>>) {
    forall k :: 0 <= k < |ps| && SitePiece(ps[k]) ==> s.Apt(ps[k])
  }

  lemma AptSplit<T>(s: InstrSet<T>, p: seq<byte>, rest: seq<seq<byte>>)
    ensures AllApt(s, [p] + rest) <==> (SitePiece(p) ==> s.Apt(p)) && AllApt(s, rest)
  {
    hide SitePiece, InstrSet.Apt;
    var ps := [p] + rest;
    assert ps[0] == p;
    forall k | 0 <= k < |rest| ensures ps[k + 1] == rest[k] { }
    if (SitePiece(p) ==> s.Apt(p)) && AllApt(s, rest) {
      forall k | 0 <= k < |ps| && SitePiece(ps[k]) ensures s.Apt(ps[k]) {
        if k > 0 { assert ps[k] == rest[k - 1]; }
      }
    }
    if AllApt(s, ps) {
      forall k | 0 <= k < |rest| && SitePiece(rest[k]) ensures s.Apt(rest[k]) { assert ps[k + 1] == rest[k]; }
    }
  }

  /** Code with an instruction at its front. */
  lemma InstrsFront<T>(s: InstrSet<T>, code: seq<byte>, d: T)
    requires |code| > 0 && s.First(code) == Some(d)
    ensures s.Instrs(code).Some? <==> s.Instrs(code[s.len(d)..]).Some?
    ensures s.Instrs(code).Some? ==>
              && s.Instrs(code).value == [d] + s.Instrs(code[s.len(d)..]).value
              && s.Cut(code) == [code[..s.len(d)]] + s.Cut(code[s.len(d)..])
  { }

  lemma InstrsHead<T>(s: InstrSet<T>, code: seq<byte>) returns (d: T)
    requires |code| > 0 && s.Instrs(code).Some?
    ensures s.First(code) == Some(d) && s.decode(code) == Some(d) && s.Instrs(code[s.len(d)..]).Some?
    ensures s.Instrs(code).value == [d] + s.Instrs(code[s.len(d)..]).value
    ensures s.Cut(code) == [code[..s.len(d)]] + s.Cut(code[s.len(d)..])
  {
    d := s.First(code).value;
  }

  lemma IntendedFront<T>(s: InstrSet<T>, d: T, ds: seq<T>)
    ensures s.AllIntended([d] + ds) == [s.intended(d)] + s.AllIntended(ds)
  { }

  lemma FixedFront(p: seq<byte>, rest: seq<seq<byte>>)
    ensures Concat(FixPieces([p] + rest)) == FixPiece(p) + Concat(FixPieces(rest))
    ensures PieceSites([p] + rest) == (if SitePiece(p) then 1 else 0) + PieceSites(rest)
  {
    hide SitePiece, FixPiece;
    assert ([p] + rest)[1..] == rest;
    assert FixPieces([p] + rest)[1..] == FixPieces(rest);
  }

  /** What decodes by its own bytes decodes with others behind it, and with nothing. */
  lemma DecodeFront<T>(s: InstrSet<T>, p: seq<byte>, code: seq<byte>, tail: seq<byte>, d: T)
    requires s.Local() && s.decode(code) == Some(d) && s.len(d) == |p| <= |code| && code[..|p|] == p
    ensures s.decode(p + tail) == Some(d) && (|p| > 0 ==> s.First(p + tail) == Some(d))
  {
    forall k | 0 <= k < |p| ensures code[k] == (p + tail)[k] { assert code[..|p|][k] == code[k]; }
    assert Front(code, p + tail, |p|);
  }

  /** The front instruction stays if it is no site. */
  lemma OthersStay<T>(s: InstrSet<T>, code: seq<byte>, d: T)
    requires s.OnlyLoadsChange() && s.First(code) == Some(d)
    ensures SitePiece(code[..s.len(d)]) <==> s.len(d) == 8 && Site(code, 0)
    ensures !SitePiece(code[..s.len(d)]) ==> s.intended(d) == d
    ensures s.len(s.intended(d)) <= s.len(d) + if SitePiece(code[..s.len(d)]) then 1 else 0
  {
    var p := code[..s.len(d)];
    assert code == p + code[s.len(d)..];
  }

  function Span<T>(s: InstrSet<T>, ds: seq<T>): nat { if |ds| == 0 then 0 else s.len(ds[0]) + Span(s, ds[1..]) }

  lemma NothingCut<T>(s: InstrSet<T>, code: seq<byte>)
    requires |code| == 0
    ensures s.Instrs(code) == Some([]) && s.Cut(code) == [] && Concat(FixPieces([])) == [] && AllApt(s, [])
    ensures s.AllIntended([]) == [] && Span(s, []) == 0 && PieceSites([]) == 0
  { }

  /** Instructions that are each rewritten aptly decode to what is intended. */
  lemma {:induction false} AptKept<T>(s: InstrSet<T>, code: seq<byte>)
    requires s.Local() && s.OnlyLoadsChange() && s.Instrs(code).Some? && AllApt(s, s.Cut(code))
    ensures s.Instrs(Concat(FixPieces(s.Cut(code)))) == Some(s.AllIntended(s.Instrs(code).value))
    decreases |code|
  {
    hide InstrSet.Local, InstrSet.OnlyLoadsChange, InstrSet.Instrs, InstrSet.Cut, InstrSet.First, AllApt, FixPieces,
         Concat, Site;
    if |code| == 0 {
      NothingCut(s, code);
    } else {
      var d := InstrsHead(s, code);
      var p, rest := code[..s.len(d)], code[s.len(d)..];
      var whole := FixPiece(p) + Concat(FixPieces(s.Cut(rest)));
      AptSplit(s, p, s.Cut(rest));
      FixedFront(p, s.Cut(rest));
      AptKept(s, rest);
      OthersStay(s, code, d);
      IntendedFront(s, d, s.Instrs(rest).value);
      DecodeFront(s, p, code, [], d);
      assert p + [] == p;
      if SitePiece(p) {
        DecodeFront(s, FixPiece(p), FixPiece(p), Concat(FixPieces(s.Cut(rest))), s.intended(d));
      } else {
        DecodeFront(s, p, code, Concat(FixPieces(s.Cut(rest))), d);
      }
      assert whole[|FixPiece(p)|..] == Concat(FixPieces(s.Cut(rest)));
      InstrsFront(s, whole, s.intended(d));
    }
  }

  lemma {:induction false} InstrsSpan<T>(s: InstrSet<T>, code: seq<byte>)
    requires s.Instrs(code).Some?
    ensures Span(s, s.Instrs(code).value) == |code|
    decreases |code|
  {
    hide InstrSet.Instrs, InstrSet.Cut;
    if |code| == 0 {
      NothingCut(s, code);
    } else {
      var d := InstrsHead(s, code);
      var rest := code[s.len(d)..];
      InstrsSpan(s, rest);
      assert ([d] + s.Instrs(rest).value)[1..] == s.Instrs(rest).value;
    }
  }

  /** Sites that are instructions are all intended to be nine bytes long. */
  ghost predicate AllGrow<T>(s: InstrSet<T>, ps: seq<seq<byte>>, ds: seq<T>)
    requires |ps| == |ds|
    decreases |ps|
  {
    |ps| == 0 || ((SitePiece(ps[0]) ==> s.len(s.intended(ds[0])) == 9) && AllGrow(s, ps[1..], ds[1..]))
  }

  lemma GrowSplit<T>(s: InstrSet<T>, p: seq<byte>, ps: seq<seq<byte>>, d: T, ds: seq<T>)
    requires |ps| == |ds|
    ensures AllGrow(s, [p] + ps, [d] + ds) <==> (SitePiece(p) ==> s.len(s.intended(d)) == 9) && AllGrow(s, ps, ds)
  {
    hide SitePiece;
    assert ([p] + ps)[1..] == ps && ([d] + ds)[1..] == ds;
  }

  lemma SpanFront<T>(s: InstrSet<T>, d: T, ds: seq<T>)
    ensures Span(s, [d] + ds) == s.len(d) + Span(s, ds)
  {
    assert ([d] + ds)[1..] == ds;
  }

  lemma FirstFits<T>(s: InstrSet<T>, code: seq<byte>, d: T)
    requires s.First(code) == Some(d)
    ensures 0 < s.len(d) <= |code| && (SitePiece(code[..s.len(d)]) ==> s.len(d) == 8)
  { }

  lemma GrowNothing<T>(s: InstrSet<T>)
    ensures AllGrow(s, [], [])
  { }

  /** What is intended is longer by a byte for each site that is an instruction, at most, and if so each grows. */
  lemma {:induction false} IntendedSpan<T>(s: InstrSet<T>, code: seq<byte>)
    requires s.OnlyLoadsChange() && s.Instrs(code).Some? && |s.Cut(code)| == |s.Instrs(code).value|
    ensures var ps, ds := s.Cut(code), s.Instrs(code).value;
            && Span(s, s.AllIntended(ds)) <= |code| + PieceSites(ps)
            && (Span(s, s.AllIntended(ds)) == |code| + PieceSites(ps) ==> AllGrow(s, ps, ds))
    decreases |code|
  {
    hide InstrSet.OnlyLoadsChange, InstrSet.Instrs, InstrSet.Cut, InstrSet.First, AllGrow, Span, PieceSites, Site,
         SitePiece;
    if |code| == 0 {
      NothingCut(s, code);
      assert AllGrow(s, [], []) by { GrowNothing(s); }
    } else {
      var d := InstrsHead(s, code);
      var p, rest := code[..s.len(d)], code[s.len(d)..];
      CutIs(s, rest);
      IntendedSpan(s, rest);
      OthersStay(s, code, d);
      IntendedFront(s, d, s.Instrs(rest).value);
      SpanFront(s, s.intended(d), s.AllIntended(s.Instrs(rest).value));
      FixedFront(p, s.Cut(rest));
      GrowSplit(s, p, s.Cut(rest), d, s.Instrs(rest).value);
      FirstFits(s, code, d);
    }
  }

  lemma SameParts<T>(d: T, e: T, ds: seq<T>, es: seq<T>)
    requires [d] + ds == [e] + es
    ensures d == e && ds == es
  {
    assert ([d] + ds)[0] == d && ([e] + es)[0] == e;
    assert ([d] + ds)[1..] == ds && ([e] + es)[1..] == es;
  }

  /** Conversely, if the pieces, once rewritten, decode to what is intended, each is rewritten aptly. */
  lemma {:induction false} KeptApt<T>(s: InstrSet<T>, code: seq<byte>)
    requires s.Local() && s.OnlyLoadsChange() && s.Instrs(code).Some? && |s.Cut(code)| == |s.Instrs(code).value|
    requires AllGrow(s, s.Cut(code), s.Instrs(code).value)
    requires s.Instrs(Concat(FixPieces(s.Cut(code)))) == Some(s.AllIntended(s.Instrs(code).value))
    ensures AllApt(s, s.Cut(code))
    decreases |code|
  {
    hide InstrSet.Local, InstrSet.OnlyLoadsChange, InstrSet.Instrs, InstrSet.Cut, AllApt, AllGrow, FixPieces, Concat,
         Site, SitePiece;
    if |code| == 0 {
      NothingCut(s, code);
    } else {
      var d := InstrsHead(s, code);
      var p, rest := code[..s.len(d)], code[s.len(d)..];
      var tail := Concat(FixPieces(s.Cut(rest)));
      var whole := FixPiece(p) + tail;
      CutIs(s, rest);
      AptSplit(s, p, s.Cut(rest));
      GrowSplit(s, p, s.Cut(rest), d, s.Instrs(rest).value);
      FixedFront(p, s.Cut(rest));
      OthersStay(s, code, d);
      IntendedFront(s, d, s.Instrs(rest).value);
      DecodeFront(s, p, code, [], d);
      assert p + [] == p;
      FirstFits(s, code, d);
      var e := InstrsHead(s, whole);
      SameParts(e, s.intended(d), s.Instrs(whole[s.len(e)..]).value, s.AllIntended(s.Instrs(rest).value));
      assert whole[|FixPiece(p)|..] == tail && whole[..|FixPiece(p)|] == FixPiece(p);
      KeptApt(s, rest);
      if SitePiece(p) {
        DecodeFront(s, FixPiece(p), whole, [], e);
        assert FixPiece(p) + [] == FixPiece(p);
      }
    }
  }

  /**
   In any instruction set in which instructions are where they are by their own bytes, and for all code made of
   its instructions: rewriting makes of it what is intended exactly when each site starts an eight-byte
   instruction, and what each of these becomes is what is intended for it.
   */
  lemma MeaningKeptIff<T>(s: InstrSet<T>, code: seq<byte>)
    requires s.Local() && s.OnlyLoadsChange() && s.Instrs(code).Some?
    ensures s.KeepsMeaning(code) <==> SitesStartPieces(s.Cut(code)) && AllApt(s, s.Cut(code))
  {
    hide InstrSet.Local, InstrSet.OnlyLoadsChange, InstrSet.Instrs, InstrSet.Cut, AllApt, AllGrow, Fixed, FixPieces,
         Concat,
         SitesStartPieces, Sites, PieceSites, InstrSet.AllIntended, Covered;
    var ps := s.Cut(code);
    CutIs(s, code);
    PiecesKeptIff(ps);
    if SitesStartPieces(ps) && AllApt(s, ps) {
      AptKept(s, code);
    } else if s.KeepsMeaning(code) {
      InstrsSpan(s, Fixed(code));
      IntendedSpan(s, code);
      FixedLength(code);
      SitesCover(ps);
      CoveredIff(ps);
      KeptApt(s, code);
    }
  }

  // What the stubs' decoder says of sites.

  predicate IsRex(b: byte) { 0x40 <= b < 0x50 }

  /** A rex byte that is one, and whose index bit is clear. */
  predicate Plain(rex: byte) { IsRex(rex) && rex / 2 % 2 == 0 }

  /** A load of a register from gs:[rip+0] that has a rex byte becomes the load of gs:[0]; others stay. */
  function Intended(d: Decoded): Decoded {
    match d
    case Decoded(Mov(w, R(r), GsRip(0)), 8) => Decoded(Mov(w, R(r), Gs(0)), 9)
    case _ => d
  }

  /** Where a site's rex byte is one, the prefixes it stands for. */
  function SitePrefix(rex: byte): (p: Prefix)
    ensures p.r < 2 && p.x < 2 && p.b < 2
  {
    Prefix(true, rex / 8 % 2 == 1, rex / 4 % 2, rex / 2 % 2, rex % 2, 2)
  }

  function SiteWidth(rex: byte): Width { if rex / 8 % 2 == 1 then Qword else Dword }

  function SiteRegister(code: seq<byte>): Reg
    requires Site(code, 0)
  {
    Register(code[3] / 8 % 8 + 8 * (code[1] / 4 % 2))
  }

  /** What such a site is. */
  lemma SiteBefore(code: seq<byte>)
    requires Site(code, 0) && IsRex(code[1])
    ensures Decode(code) == Some(Decoded(Mov(SiteWidth(code[1]), R(SiteRegister(code)), GsRip(0)), 8))
  {
    var reg: nat := code[3] / 8 % 8 + 8 * (code[1] / 4 % 2);
    assert ReadPrefix(code) == SitePrefix(code[1]) && Unpack32(code, 4) == 0;
    hide ReadPrefix, Unpack32, Register;
    assert ReadModRm(SitePrefix(code[1]), code, 3) == Some(ModRm(reg, GsRip(0), 5));
    hide ReadModRm;
  }

  lemma AbsoluteFront(rex: byte, modrm: byte, tail: seq<byte>)
    requires IsRex(rex)
    ensures var after := Absolute(rex, modrm) + tail; ReadPrefix(after) == SitePrefix(rex) && Unpack32(after, 5) == 0
  { }

  lemma SibAfter(p: Prefix, after: seq<byte>, modrm: byte, reg: nat)
    requires p.gs && p.r < 2 && p.x < 2 && p.b < 2 && |after| >= 9 && Unpack32(after, 5) == 0
    requires reg == modrm / 8 % 8 + 8 * p.r && after[3] == 0x04 + 8 * (modrm / 8 % 8) && after[4] == 0x25
    ensures ReadModRm(p, after, 3) == Some(ModRm(reg, if p.x == 1 then GsIndex(R12, 0) else Gs(0), 6))
  {
    hide Unpack32;
    assert after[3] / 64 == 0 && after[3] / 8 % 8 == modrm / 8 % 8 && after[3] % 8 == 4;
    assert Register(12) == R12;
  }

  /** What it is after rewriting: absolute, unless the rex byte's index bit now adds r12. */
  lemma SiteAfter(code: seq<byte>, tail: seq<byte>)
    requires Site(code, 0) && IsRex(code[1])
    ensures Decode(Absolute(code[1], code[3]) + tail)
            == Some(Decoded(Mov(SiteWidth(code[1]), R(SiteRegister(code)),
                                if Plain(code[1]) then Gs(0) else GsIndex(R12, 0)), 9))
  {
    hide ReadPrefix, Unpack32, Register, ReadModRm;
    var reg: nat := code[3] / 8 % 8 + 8 * (code[1] / 4 % 2);
    var after := Absolute(code[1], code[3]) + tail;
    AbsoluteFront(code[1], code[3], tail);
    SibAfter(SitePrefix(code[1]), after, code[3], reg);
  }

  lemma LoadOperand(p: Prefix, code: seq<byte>)
    requires p.r < 2 && p.x < 2 && p.b < 2
    ensures var m := ReadModRm(p, code, p.at + 1);
            m.Some? && m.value.rm == GsRip(0) ==>
              && m.value.len == 5 && p.at + 6 <= |code| && p.gs
              && code[p.at + 1] / 64 == 0 && code[p.at + 1] % 8 == 5
              && code[p.at + 2] == 0 && code[p.at + 3] == 0 && code[p.at + 4] == 0 && code[p.at + 5] == 0
  { }

  /** Every load through gs:[rip+0] that has a rex byte is a site, and 64-bit loads have one. */
  lemma LoadsAreSites(code: seq<byte>, w: Width, r: Reg, n: nat)
    requires Decode(code) == Some(Decoded(Mov(w, R(r), GsRip(0)), n))
    ensures n == 8 ==> Site(code, 0) && IsRex(code[1])
    ensures w == Qword ==> n == 8
  {
    var p := ReadPrefix(code);
    assert p.gs || p.at < 2;
    hide Register, Unpack32, Signed32;
    LoadOperand(p, code);
    hide ReadModRm;
  }

  lemma NotSiteStays(code: seq<byte>, d: Decoded)
    requires Decode(code) == Some(d) && !Site(code, 0)
    ensures Intended(d) == d
  {
    hide Decode;
    match d
    case Decoded(Mov(w, R(r), GsRip(0)), 8) => LoadsAreSites(code, w, r, 8);
    case _ =>
  }

  /** A site whose second byte is no rex byte stands for a short instruction, then a rip-relative load. */
  lemma MisfireLength(code: seq<byte>)
    requires Site(code, 0) && !IsRex(code[1]) && Decode(code).Some?
    ensures var n := Decode(code).value.len; n == 2 || (2 < n < 8 && Decode(code[n..]) == None)
  {
    hide Register, Unpack32, Signed32;
    assert ReadPrefix(code) == Prefix(true, false, 0, 0, 0, 1);
  }

  lemma MisfireOperand(code: seq<byte>, w: Width, disp: int, src: Operand, n: nat)
    requires Site(code, 0) && !IsRex(code[1])
    ensures Decode(code) != Some(Decoded(Mov(w, GsRip(disp), src), n))
  {
    hide Register, Unpack32, Signed32;
    assert ReadPrefix(code) == Prefix(true, false, 0, 0, 0, 1);
  }

  // Instruction sets that know the stubs' loads through gs.

  predicate GsLoad(d: Decoded) {
    d.instr.Mov? && d.instr.dst.R? && (d.instr.src.Gs? || d.instr.src.GsRip? || d.instr.src.GsIndex?)
  }

  /** The set decodes loads through gs as the stubs' decoder does, and intends the same of them. */
  ghost predicate Knows<T>(s: InstrSet<T>, known: Decoded -> T) {
    && (forall bs: seq<byte> :: Decode(bs).Some? && GsLoad(Decode(bs).value) ==>
        s.decode(bs) == Some(known(Decode(bs).value)))
    && (forall d: Decoded :: GsLoad(d) ==> s.len(known(d)) == d.len && s.intended(known(d)) == known(Intended(d)))
    && (forall d: Decoded, e: Decoded :: GsLoad(d) && GsLoad(e) && known(d) == known(e) ==> d == e)
  }

  lemma RexApt<T>(s: InstrSet<T>, known: Decoded -> T, p: seq<byte>)
    requires Knows(s, known) && SitePiece(p) && IsRex(p[1])
    ensures s.Apt(p) <==> Plain(p[1])
  {
    SiteBefore(p);
    SiteAfter(p, []);
    assert FixPiece(p) + [] == FixPiece(p);
    hide Decode, Site, Absolute, Register;
    var d, e := Decode(p).value, Decode(FixPiece(p)).value;
    assert GsLoad(d) && GsLoad(e) && GsLoad(Intended(d));
    assert Intended(d) == e <==> Plain(p[1]);
  }

  /**
   In any instruction set that knows these loads, code keeps its meaning exactly when each site starts an
   eight-byte instruction, has a clear index bit if its second byte is a rex byte, and otherwise becomes what
   the set intends for it.
   */
  lemma LoadsKeptIff<T>(s: InstrSet<T>, known: Decoded -> T, code: seq<byte>)
    requires s.Local() && s.OnlyLoadsChange() && Knows(s, known) && s.Instrs(code).Some?
    ensures var ps := s.Cut(code);
            s.KeepsMeaning(code) <==>
              && SitesStartPieces(ps)
              && forall k :: 0 <= k < |ps| && SitePiece(ps[k]) ==> if IsRex(ps[k][1]) then Plain(ps[k][1])
                 else s.Apt(ps[k])
  {
    hide InstrSet.Local, InstrSet.OnlyLoadsChange, InstrSet.KeepsMeaning, InstrSet.Apt, InstrSet.Instrs, InstrSet.Cut,
         Knows,
         SitesStartPieces, IsRex, Plain;
    var ps := s.Cut(code);
    MeaningKeptIff(s, code);
    forall k | 0 <= k < |ps| && SitePiece(ps[k]) && IsRex(ps[k][1]) ensures s.Apt(ps[k]) <==> Plain(ps[k][1]) {
      RexApt(s, known, ps[k]);
    }
  }

  // The instruction set of the stubs.

  function Stubs(): InstrSet<Decoded> { InstrSet(Decode, (d: Decoded) => d.len, Intended) }

  lemma StubsAreLocal()
    ensures Stubs().Local()
  {
    hide Decode;
    forall bs: seq<byte>, cs: seq<byte> | Decode(bs).Some? && Front(bs, cs, Decode(bs).value.len)
      ensures Decode(cs) == Decode(bs)
    {
      DecodeLocal(bs, cs);
    }
  }

  lemma StubsKnow()
    ensures Stubs().OnlyLoadsChange() && Knows(Stubs(), (d: Decoded) => d)
  {
    hide Decode;
    forall bs: seq<byte> | Stubs().First(bs).Some? && Intended(Stubs().First(bs).value) != Stubs().First(bs).value
      ensures Stubs().First(bs).value.len == 8 && Site(bs, 0)
    {
      if !Site(bs, 0) { NotSiteStays(bs, Stubs().First(bs).value); }
    }
  }

  ghost predicate AllPlain(code: seq<byte>) {
    forall i: nat :: Site(code, i) ==> Plain(code[i + 1])
  }

  /** A piece is where it starts. */
  lemma {:induction false} PieceAt(ps: seq<seq<byte>>, k: nat)
    requires k < |ps| && |ps[k]| == 8
    ensures Start(ps, k) + 8 <= |Concat(ps)| && Concat(ps)[Start(ps, k)..Start(ps, k) + 8] == ps[k]
    decreases k
  {
    if k == 0 {
      assert Concat(ps)[0..8] == ps[0];
    } else {
      PieceAt(ps[1..], k - 1);
      var a := Start(ps[1..], k - 1);
      assert Concat(ps)[|ps[0]| + a..|ps[0]| + a + 8] == Concat(ps[1..])[a..a + 8];
    }
  }

  lemma SiteAt(ps: seq<seq<byte>>, k: nat)
    requires k < |ps| && |ps[k]| == 8
    ensures var code, i := Concat(ps), Start(ps, k);
            i + 8 <= |code| && Site(code, i) == SitePiece(ps[k]) && code[i + 1] == ps[k][1]
  {
    hide Concat, Start;
    PieceAt(ps, k);
    var code, i := Concat(ps), Start(ps, k);
    forall j | 0 <= j < 8 ensures code[i + j] == ps[k][j] { assert code[i..i + 8][j] == code[i + j]; }
  }

  /** When sites start pieces, what holds of all sites is what holds of all pieces that are sites. */
  lemma PlainPieces(ps: seq<seq<byte>>)
    requires SitesStartPieces(ps)
    ensures AllPlain(Concat(ps)) <==> forall k :: 0 <= k < |ps| && SitePiece(ps[k]) ==> Plain(ps[k][1])
  {
    hide Plain, Concat, Start;
    var code := Concat(ps);
    if AllPlain(code) {
      forall k | 0 <= k < |ps| && SitePiece(ps[k]) ensures Plain(ps[k][1]) { SiteAt(ps, k); }
    }
    if forall k :: 0 <= k < |ps| && SitePiece(ps[k]) ==> Plain(ps[k][1]) {
      forall i: nat | Site(code, i) ensures Plain(code[i + 1]) {
        var k: nat :| k < |ps| && Start(ps, k) == i && |ps[k]| == 8;
        SiteAt(ps, k);
      }
    }
  }

  /** The stubs have no eight-byte instruction that is a site and has no rex byte. */
  lemma {:induction false} StubSitesHaveRex(code: seq<byte>, k: nat)
    requires Stubs().Instrs(code).Some? && k < |Stubs().Cut(code)| && SitePiece(Stubs().Cut(code)[k])
    ensures IsRex(Stubs().Cut(code)[k][1])
    decreases |code|
  {
    hide Decode, Site;
    var d := InstrsHead(Stubs(), code);
    var p, rest := code[..d.len], code[d.len..];
    if k == 0 {
      FirstFits(Stubs(), code, d);
      assert code == p + rest;
      SiteOfPiece(p, rest);
      if !IsRex(code[1]) { MisfireLength(code); }
    } else {
      StubSitesHaveRex(rest, k - 1);
    }
  }

  /** For the stubs' instructions alone, the condition is about the sites of the code. */
  lemma StubsKeptIff(code: seq<byte>)
    requires Stubs().Instrs(code).Some?
    ensures Stubs().KeepsMeaning(code) <==> SitesStartPieces(Stubs().Cut(code)) && AllPlain(code)
  {
    StubsAreLocal();
    StubsKnow();
    hide Stubs, InstrSet.Local, InstrSet.OnlyLoadsChange, InstrSet.KeepsMeaning, InstrSet.Apt, InstrSet.Instrs,
         InstrSet.Cut,
         Knows, SitesStartPieces, IsRex, Plain, AllPlain;
    var ps := Stubs().Cut(code);
    LoadsKeptIff(Stubs(), (d: Decoded) => d, code);
    CutIs(Stubs(), code);
    forall k | 0 <= k < |ps| && SitePiece(ps[k]) ensures IsRex(ps[k][1]) { StubSitesHaveRex(code, k); }
    if SitesStartPieces(ps) { PlainPieces(ps); }
  }

  /** mov dword [rip+d], 0. */
  lemma StoreZeroDecodes(b: byte, imm: byte, tail: seq<byte>)
    ensures var bs := [0xC7, 0x05, 0x65, 0x48, 0x8B, b, imm, 0x00, 0x00, 0x00] + tail;
            b < 0x80 ==> Decode(bs) == Some(Decoded(Mov(Dword, Rip(0x8B4865 + 0x100_0000 * b), I(imm)), 10))
  {
    var bs := [0xC7, 0x05, 0x65, 0x48, 0x8B, b, imm, 0x00, 0x00, 0x00] + tail;
    assert Unpack32(bs, 2) == 0x8B4865 + 0x100_0000 * b && Unpack32(bs, 6) == imm;
    hide Unpack32, Register;
    var p := Prefix(false, false, 0, 0, 0, 0);
    assert ReadPrefix(bs) == p;
    assert b < 0x80 ==> ReadModRm(p, bs, 1) == Some(ModRm(0, Rip(0x8B4865 + 0x100_0000 * b), 5));
    hide ReadPrefix, ReadModRm;
  }

  const INSIDE: seq<byte> := [0xC7, 0x05, 0x65, 0x48, 0x8B, 0x05, 0x00, 0x00, 0x00, 0x00]

  lemma OneInstr(bs: seq<byte>, d: Decoded)
    requires Decode(bs) == Some(d) && d.len == |bs| > 0
    ensures Stubs().Instrs(bs) == Some([d]) && Stubs().Cut(bs) == [bs]
  {
    hide Decode;
    assert Stubs().First(bs) == Some(d) && bs[d.len..] == [] && bs[..d.len] == bs;
    InstrsFront(Stubs(), bs, d);
    NothingCut(Stubs(), bs[d.len..]);
    assert [d] + [] == [d] && [bs] + [] == [bs];
  }

  lemma OutOfStep(bs: seq<byte>)
    requires |bs| == 10 && Site(bs, 2)
    ensures !SitesStartPieces([bs])
  {
    assert Concat([bs]) == bs;
  }

  /** For instance: mov dword [rip+0x058B4865], 0 contains a site, and the rewrite changes what it means. */
  lemma SiteInsideAnInstruction()
    ensures Stubs().Instrs(INSIDE).Some? && !Stubs().KeepsMeaning(INSIDE)
  {
    hide Decode, Stubs, InstrSet.KeepsMeaning, SitesStartPieces, AllPlain;
    StoreZeroDecodes(0x05, 0x00, []);
    assert INSIDE + [] == INSIDE;
    OneInstr(INSIDE, Decoded(Mov(Dword, Rip(0x058B4865), I(0)), 10));
    OutOfStep(INSIDE);
    StubsKeptIff(INSIDE);
  }

  // The stubs' decoder together with any further instructions, of which nothing is known but their bytes.

  datatype Wide = Known(d: Decoded) | Raw(bytes: seq<byte>)

  /** How many bytes a further instruction takes, 0 for none: only its own matter, and the decoder knows none. */
  ghost predicate Further(extra: seq<byte> -> nat) {
    forall bs: seq<byte>, cs: seq<byte> ::
      extra(bs) > 0 && Front(bs, cs, extra(bs)) ==> extra(cs) == extra(bs) && Decode(cs) == None
  }

  function Widened(extra: seq<byte> -> nat): InstrSet<Wide> {
    InstrSet(
      (bs: seq<byte>) =>
        if Decode(bs).Some? then Some(Known(Decode(bs).value))
        else if 0 < extra(bs) <= |bs| then Some(Raw(bs[..extra(bs)]))
        else None,
      (d: Wide) => match d case Known(k) => k.len case Raw(b) => |b|,
      (d: Wide) => match d case Known(k) => Known(Intended(k)) case Raw(b) => d)
  }

  lemma WidenedIsLocal(extra: seq<byte> -> nat)
    requires Further(extra)
    ensures Widened(extra).Local()
  {
    hide Decode;
    var s := Widened(extra);
    forall bs: seq<byte>, cs: seq<byte> | s.decode(bs).Some? && Front(bs, cs, s.len(s.decode(bs).value))
      ensures s.decode(cs) == s.decode(bs)
    {
      if Decode(bs).Some? {
        DecodeLocal(bs, cs);
      } else {
        assert bs[..extra(bs)] == cs[..extra(bs)];
      }
    }
  }

  lemma WidenedKnows(extra: seq<byte> -> nat)
    ensures Widened(extra).OnlyLoadsChange() && Knows(Widened(extra), (d: Decoded) => Known(d))
  {
    hide Decode;
    var s := Widened(extra);
    forall bs: seq<byte> | s.First(bs).Some? && s.intended(s.First(bs).value) != s.First(bs).value
      ensures s.len(s.First(bs).value) == 8 && Site(bs, 0) && s.len(s.intended(s.First(bs).value)) <= 9
    {
      if !Site(bs, 0) { NotSiteStays(bs, Decode(bs).value); }
    }
  }

  /** A further instruction never becomes nine bytes long. */
  lemma FurtherIsInept(extra: seq<byte> -> nat, p: seq<byte>)
    requires SitePiece(p) && !IsRex(p[1])
    ensures !Widened(extra).Apt(p)
  {
    if Decode(p).Some? { MisfireLength(p); }
    hide Decode;
  }

  lemma NoRexIsNotPlain(b: byte)
    requires !IsRex(b)
    ensures !Plain(b)
  { }

  /** Then the condition is about the sites of the code, whatever the further instructions are. */
  lemma WidenedKeptIff(extra: seq<byte> -> nat, code: seq<byte>)
    requires Further(extra) && Widened(extra).Instrs(code).Some?
    ensures Widened(extra).KeepsMeaning(code) <==> SitesStartPieces(Widened(extra).Cut(code)) && AllPlain(code)
  {
    hide Widened, Further, InstrSet.Local, InstrSet.OnlyLoadsChange, InstrSet.KeepsMeaning, InstrSet.Apt,
         InstrSet.Instrs,
         InstrSet.Cut, Knows, SitesStartPieces, IsRex, Plain, AllPlain;
    var s := Widened(extra);
    var ps := s.Cut(code);
    WidenedIsLocal(extra);
    WidenedKnows(extra);
    LoadsKeptIff(s, (d: Decoded) => Known(d), code);
    CutIs(s, code);
    forall k | 0 <= k < |ps| && SitePiece(ps[k])
        ensures if IsRex(ps[k][1]) then true else !s.Apt(ps[k]) && !Plain(ps[k][1]) {
      if !IsRex(ps[k][1]) {
        FurtherIsInept(extra, ps[k]);
        NoRexIsNotPlain(ps[k][1]);
      }
    }
    if SitesStartPieces(ps) { PlainPieces(ps); }
  }

  /** For instance sub rsp, imm8; mov r64, imm64; inc r13d; and jb, which the assembled stubs use. */
  function Assembled(bs: seq<byte>): nat {
    if |bs| >= 4 && bs[0] == 0x48 && bs[1] == 0x83 && bs[2] == 0xEC then 4
    else if |bs| >= 10 && (bs[0] == 0x48 || bs[0] == 0x49) && 0xB8 <= bs[1] < 0xC0 then 10
    else if |bs| >= 3 && bs[0] == 0x41 && bs[1] == 0xFF && bs[2] == 0xC5 then 3
    else if |bs| >= 2 && bs[0] == 0x72 then 2
    else 0
  }

  lemma AssembledUnknown(bs: seq<byte>)
    requires Assembled(bs) > 0
    ensures Decode(bs) == None
  { }

  lemma AssembledIsFurther()
    ensures Further(Assembled)
  {
    hide Decode;
    forall bs: seq<byte>, cs: seq<byte> | Assembled(bs) > 0 && Front(bs, cs, Assembled(bs))
      ensures Assembled(cs) == Assembled(bs) && Decode(cs) == None
    {
      AssembledUnknown(cs);
    }
  }

  // Accesses through gs:[rip+0] that are not loads.

  /** The instruction has gs:[rip+0] as an operand. */
  predicate Accesses(d: Decoded) {
    match d.instr
    case Mov(_, a, b) => a == GsRip(0) || b == GsRip(0)
    case Alu(_, _, a, b) => a == GsRip(0) || b == GsRip(0)
    case Movsxd(_, a) => a == GsRip(0)
    case Lea(_, _, a) => a == GsRip(0)
    case _ => false
  }

  /** Bytes that may stand before an opcode: operand and address size, segments, lock and repetition, and rex. */
  predicate IsPrefix(b: byte) { b in {0x26, 0x2E, 0x36, 0x3E, 0x64, 0x65, 0x66, 0x67, 0xF0, 0xF2, 0xF3} || IsRex(b) }

  /** Moves to memory, of a register or of an immediate, one byte wide or as wide as the prefixes say. */
  predicate IsStore(op: byte) { op in {0x88, 0x89, 0xC6, 0xC7} }

  /** No store to [rip+d], whatever its width, source, displacement and n prefixes, is a site. */
  lemma StoresAreNoSites(code: seq<byte>, n: nat)
    requires n + 2 <= |code| && (forall k :: 0 <= k < n ==> IsPrefix(code[k])) && IsStore(code[n])
    requires code[n + 1] / 64 == 0 && code[n + 1] % 8 == 5
    ensures !Site(code, 0)
  {
    if n > 2 { assert IsPrefix(code[2]); }
  }

  /** Nor is any that the stubs' decoder knows. */
  lemma DecodedStoresAreNoSites(code: seq<byte>, w: Width, disp: int, src: Operand, n: nat)
    requires Decode(code) == Some(Decoded(Mov(w, GsRip(disp), src), n))
    ensures !Site(code, 0)
  {
    if Site(code, 0) {
      if IsRex(code[1]) { SiteBefore(code); } else { MisfireOperand(code, w, disp, src, n); }
    }
  }

  lemma IntendedAccess(d: Decoded)
    ensures Accesses(Intended(d)) <==> Accesses(d) && Intended(d) == d
  { }

  /**
   In any instruction set in which what is intended for an instruction that changes no longer accesses gs:[rip+0]:
   code that keeps its meaning still accesses it exactly when an instruction that is not to change did.
   */
  lemma LeftIff<T(!new)>(s: InstrSet<T>, accesses: T -> bool, code: seq<byte>)
    requires s.Instrs(code).Some? && s.KeepsMeaning(code)
    requires forall d: T :: accesses(s.intended(d)) <==> accesses(d) && s.intended(d) == d
    ensures var ds, es := s.Instrs(code).value, s.Instrs(Fixed(code)).value;
            (exists k :: 0 <= k < |es| && accesses(es[k])) <==>
              exists k :: 0 <= k < |ds| && accesses(ds[k]) && s.intended(ds[k]) == ds[k]
  {
    hide InstrSet.Instrs, Fixed;
    var ds, es := s.Instrs(code).value, s.Instrs(Fixed(code)).value;
    forall k | 0 <= k < |ds| ensures accesses(es[k]) <==> accesses(ds[k]) && s.intended(ds[k]) == ds[k] {
      assert es[k] == s.intended(ds[k]);
    }
  }

  /** The stubs' instructions access it or not, and of further ones it is given. */
  function WideAccess(far: seq<byte> -> bool): Wide -> bool {
    (d: Wide) => match d case Known(k) => Accesses(k) case Raw(b) => far(b)
  }

  /** For the stubs' decoder together with any further instructions, of which those given access gs:[rip+0]. */
  lemma WidenedLeftIff(extra: seq<byte> -> nat, far: seq<byte> -> bool, code: seq<byte>)
    requires Widened(extra).Instrs(code).Some? && Widened(extra).KeepsMeaning(code)
    ensures var s, accesses := Widened(extra), WideAccess(far);
            var ds, es := s.Instrs(code).value, s.Instrs(Fixed(code)).value;
            (exists k :: 0 <= k < |es| && accesses(es[k])) <==>
              exists k :: 0 <= k < |ds| && accesses(ds[k]) && s.intended(ds[k]) == ds[k]
  {
    hide InstrSet.Instrs, InstrSet.KeepsMeaning, Fixed, Accesses, Intended, Decode;
    var s := Widened(extra);
    forall d: Wide ensures WideAccess(far)(s.intended(d)) <==> WideAccess(far)(d) && s.intended(d) == d {
      if d.Known? { IntendedAccess(d.d); }
    }
    LeftIff(s, WideAccess(far), code);
  }

  const STORE_ZERO: seq<byte> := [0x65, 0x48, 0x89, 0x05, 0x00, 0x00, 0x00, 0x00]

  lemma StoreDecodes()
    ensures Decode(STORE_ZERO) == Some(Decoded(Mov(Qword, GsRip(0), R(RAX)), 8))
  {
    var p := Prefix(true, true, 0, 0, 0, 2);
    assert ReadPrefix(STORE_ZERO) == p && Unpack32(STORE_ZERO, 4) == 0;
    hide ReadPrefix, Unpack32;
    assert Register(0) == RAX && ReadModRm(p, STORE_ZERO, 3) == Some(ModRm(0, GsRip(0), 5));
    hide ReadModRm, Register;
  }

  /** For instance: mov gs:[rip+0], rax is left alone. */
  lemma StoreIsLeft()
    ensures Stubs().Instrs(STORE_ZERO) == Some([Decoded(Mov(Qword, GsRip(0), R(RAX)), 8)])
    ensures Fixed(STORE_ZERO) == STORE_ZERO && Stubs().KeepsMeaning(STORE_ZERO)
  {
    hide Decode;
    var d := Decoded(Mov(Qword, GsRip(0), R(RAX)), 8);
    StoreDecodes();
    NothingToFix(STORE_ZERO);
    OneInstr(STORE_ZERO, d);
    assert Stubs().AllIntended([d]) == [d];
  }
}
