/**
 From an empty engine to bound imports: the layout, the images placed in it, and the linker over both.
 The linker alone has to assume that slots lie apart from each other and from the stubs. Here that follows from
 how images are placed: the loader keeps account of what it has mapped, and an image's slots lie inside it.
 */
module Boot {
  import opened Wrappers
  import opened Memory
  import opened AddressSpace
  import EmulatorMemory
  import opened ImportBinding

  /** What a file says of the module to be made of it. */
  datatype File = File(
    name: string, size: int, preferred: int, peBase: int, exports: map<string, int>, imports: seq<Import>)
  {
    function At(base: int): Module { Module(name, base, peBase, exports, imports) }

    function Span(): int { AlignUp(size, PAGE) }

    function Image(base: int): Range { Range(base, base + Span()) }

    function Offset(i: Import): int { if i.address >= peBase then i.address - peBase else i.address }

    predicate Inside(i: Import) { Func(i).Some? ==> 0 <= Offset(i) && Offset(i) + 8 <= Span() }

    predicate Spaced(i: Import, j: Import) {
      Func(i).Some? && Func(j).Some? ==> Offset(i) + 8 <= Offset(j) || Offset(j) + 8 <= Offset(i)
    }

    /** Slots lie in the image and do not overlap. */
    ghost predicate WellFormed() {
      && (forall i :: 0 <= i < |imports| ==> Inside(imports[i]))
      && (forall i, j :: 0 <= i < j < |imports| ==> Spaced(imports[i], imports[j]))
    }
  }

  /** The slot of a binding is that of one of the imports. */
  lemma {:induction false} BindingOf(m: Module, n: nat, b: Binding) returns (i: nat)
    requires n <= |m.imports| && b in Bindings(m, n)
    ensures i < n && Func(m.imports[i]).Some? && b.slot == Slot(m, m.imports[i])
    decreases n
  {
    if b in Bindings(m, n - 1) {
      i := BindingOf(m, n - 1, b);
    } else {
      i := n - 1;
    }
  }

  lemma BindingInside(f: File, base: int, n: nat, b: Binding)
    requires f.WellFormed() && n <= |f.imports| && b in Bindings(f.At(base), n)
    ensures base <= b.slot && b.slot + 8 <= base + f.Span()
  {
    hide Func;
    var i := BindingOf(f.At(base), n, b);
    assert f.Inside(f.imports[i]);
  }

  lemma ApartAppend(a: seq<Binding>, b: seq<Binding>)
    requires SlotsApart(a) && SlotsApart(b)
    requires forall x, y :: x in a && y in b ==> x.slot + 8 <= y.slot || y.slot + 8 <= x.slot
    ensures SlotsApart(a + b)
  { }

  lemma NoneApart()
    ensures SlotsApart([])
  { }

  lemma OneApart(b: Binding)
    ensures SlotsApart([b])
  { }

  lemma {:induction false} BindingsSpaced(f: File, base: int, n: nat)
    requires f.WellFormed() && n <= |f.imports|
    ensures SlotsApart(Bindings(f.At(base), n))
    decreases n
  {
    hide Func, SlotsApart;
    var m := f.At(base);
    if n == 0 {
      NoneApart();
    } else {
      BindingsSpaced(f, base, n - 1);
      var last := f.imports[n - 1];
      if Func(last).Some? {
        var b := Binding(Slot(m, last), Lower(last.dll), Func(last).value);
        OneApart(b);
        forall x, y | x in Bindings(m, n - 1) && y in [b] ensures x.slot + 8 <= y.slot || y.slot + 8 <= x.slot {
          var i := BindingOf(m, n - 1, x);
          assert f.Spaced(f.imports[i], f.imports[n - 1]);
        }
        ApartAppend(Bindings(m, n - 1), [b]);
      } else {
        assert Bindings(m, n) == Bindings(m, n - 1);
      }
    }
  }

  /** The modules made of the files, and the ranges of their images. */
  ghost predicate Placed(files: seq<File>, modules: seq<Module>, images: seq<Range>) {
    && |modules| == |images| <= |files|
    && forall i :: 0 <= i < |modules| ==>
         && modules[i] == Module(files[i].name, images[i].lo, files[i].peBase, files[i].exports, files[i].imports)
         && images[i].hi == images[i].lo + AlignUp(files[i].size, PAGE)
  }

  lemma {:induction false} BindingHome(files: seq<File>, modules: seq<Module>, images: seq<Range>, k: nat, b: Binding)
    returns (i: nat)
    requires Placed(files, modules, images) && (forall f :: f in files ==> f.WellFormed())
    requires k <= |modules| && b in AllBindings(modules, k)
    ensures i < k && images[i].lo <= b.slot && b.slot + 8 <= images[i].hi
    decreases k
  {
    hide File.WellFormed;
    var m := modules[k - 1];
    if b in Bindings(m, |m.imports|) {
      i := k - 1;
      BindingInside(files[i], images[i].lo, |m.imports|, b);
    } else {
      i := BindingHome(files, modules, images, k - 1, b);
    }
  }

  /** Images apart from each other have their slots apart. */
  lemma {:induction false} AllSpaced(files: seq<File>, modules: seq<Module>, images: seq<Range>, k: nat)
    requires Placed(files, modules, images) && (forall f :: f in files ==> f.WellFormed())
    requires Disjoint(images) && k <= |modules|
    ensures SlotsApart(AllBindings(modules, k))
    decreases k
  {
    hide File.WellFormed, SlotsApart;
    if k == 0 {
      NoneApart();
    } else {
      var m := modules[k - 1];
      AllSpaced(files, modules, images, k - 1);
      BindingsSpaced(files[k - 1], images[k - 1].lo, |m.imports|);
      forall x, y | x in AllBindings(modules, k - 1) && y in Bindings(m, |m.imports|)
        ensures x.slot + 8 <= y.slot || y.slot + 8 <= x.slot
      {
        var i := BindingHome(files, modules, images, k - 1, x);
        BindingInside(files[k - 1], images[k - 1].lo, |m.imports|, y);
        assert images[i].hi <= images[k - 1].lo || images[k - 1].hi <= images[i].lo;
      }
      ApartAppend(AllBindings(modules, k - 1), Bindings(m, |m.imports|));
    }
  }

  /** Images apart from a region have their slots outside it. */
  lemma SlotsOutside(files: seq<File>, modules: seq<Module>, images: seq<Range>, region: Range)
    requires Placed(files, modules, images) && (forall f :: f in files ==> f.WellFormed())
    requires forall i :: 0 <= i < |images| ==> images[i].hi <= region.lo || region.hi <= images[i].lo
    ensures SlotsClear(AllBindings(modules, |modules|), region.lo, region.hi)
  {
    hide File.WellFormed;
    var bs := AllBindings(modules, |modules|);
    forall j | 0 <= j < |bs| ensures Clear(bs[j].slot, 8, region.lo, region.hi) {
      var i := BindingHome(files, modules, images, |modules|, bs[j]);
    }
  }

  /** Where the search for each image ends, if the engine accepts every one of them. */
  function Images(occupied: seq<Range>, files: seq<File>): Option<seq<Range>>
    decreases |files|
  {
    if |files| == 0 then Some([]) else
    var n := files[0].Span();
    var lo := AlignDown(AddressSpace.Placed(occupied, files[0].preferred, n), PAGE);
    if lo < 0 || n <= 0 || lo + n > LIMIT then None else
    match Images(occupied + [Range(lo, lo + n)], files[1..])
    case None => None
    case Some(rest) => Some([Range(lo, lo + n)] + rest)
  }

  /** Images as far as found, followed by what is yet to be found. */
  function Behind(images: seq<Range>, rest: Option<seq<Range>>): Option<seq<Range>> {
    match rest case None => None case Some(rs) => Some(images + rs)
  }

  lemma ImagesOn(images: seq<Range>, occupied: seq<Range>, files: seq<File>, i: nat)
    requires i < |files|
    ensures var f := files[i];
            var n, lo := f.Span(), AlignDown(AddressSpace.Placed(occupied, f.preferred, f.Span()), PAGE);
            Behind(images, Images(occupied, files[i..])) ==
              if lo < 0 || n <= 0 || lo + n > LIMIT then None
              else Behind(images + [f.Image(lo)], Images(occupied + [f.Image(lo)], files[i + 1..]))
  {
    hide AlignDown, AlignUp, AddressSpace.Placed;
    assert files[i..][0] == files[i] && files[i..][1..] == files[i + 1..];
    var lo := AlignDown(AddressSpace.Placed(occupied, files[i].preferred, files[i].Span()), PAGE);
    var rest := Images(occupied + [files[i].Image(lo)], files[i + 1..]);
    if rest.Some? { assert images + ([files[i].Image(lo)] + rest.value) == images + [files[i].Image(lo)] + rest.value; }
  }

  lemma PlacedOn(files: seq<File>, modules: seq<Module>, images: seq<Range>, base: int)
    requires Placed(files, modules, images) && |modules| < |files|
    ensures var f := files[|modules|]; Placed(files, modules + [f.At(base)], images + [f.Image(base)])
  { }

  lemma NothingPlaced(files: seq<File>)
    ensures Placed(files, [], [])
  { }

  lemma AllBehind(occupied: seq<Range>, files: seq<File>)
    ensures Behind([], Images(occupied, files)) == Images(occupied, files) && files[0..] == files
  {
    if Images(occupied, files).Some? { assert [] + Images(occupied, files).value == Images(occupied, files).value; }
  }

  lemma AllPlaced(occupied: seq<Range>, files: seq<File>, images: seq<Range>)
    ensures Behind(images, Images(occupied, files[|files|..])) == Some(images)
  {
    assert images + [] == images;
  }

  /** Places the images one after another, and nothing else. */
  method PlaceAll(memory: EmulatorMemory.Memory, files: seq<File>)
      returns (r: Option<seq<Module>>, ghost images: seq<Range>)
    requires memory.Valid() && memory.mapped == memory.occupied
    modifies memory`mapped, memory`occupied
    ensures memory.Valid() && memory.occupied == old(memory.occupied) + images
    ensures r.Some? ==> |r.value| == |files| && Placed(files, r.value, images)
    ensures Images(old(memory.occupied), files) == if r.Some? then Some(images) else None
  {
    hide EmulatorMemory.Memory.Valid, AddressSpace.Placed, Free, Placed, Images, AlignUp, AlignDown;
    var modules: seq<Module> := [];
    images := [];
    assert Placed(files, modules, images) by { NothingPlaced(files); }
    assert Images(memory.occupied, files[0..]) == Behind([], Images(memory.occupied, files))
        by { AllBehind(memory.occupied, files); }
    var i := 0;
    while i < |files|
      invariant 0 <= i <= |files| && i == |modules| && memory.Valid() && memory.mapped == memory.occupied
      invariant memory.occupied == old(memory.occupied) + images && Placed(files, modules, images)
      invariant Images(old(memory.occupied), files) == Behind(images, Images(memory.occupied, files[i..]))
    {
      ImagesOn(images, memory.occupied, files, i);
      var base := memory.MapImage(files[i].size, files[i].preferred);
      if base == None { return None, images; }
      PlacedOn(files, modules, images, base.value);
      modules := modules + [files[i].At(base.value)];
      images := images + [files[i].Image(base.value)];
      i := i + 1;
    }
    AllPlaced(memory.occupied, files, images);
    r := Some(modules);
  }

  // From nothing to bound imports.

  /** What the emulated mode maps besides the layout: the thread and process blocks, say. */
  datatype Block = Block(base: int, size: int)

  function Blocks(occupied: seq<Range>, blocks: seq<Block>): Option<seq<Range>>
    decreases |blocks|
  {
    if |blocks| == 0 then Some([]) else
    var lo, n := AlignDown(blocks[0].base, PAGE), AlignUp(blocks[0].size, PAGE);
    if !EmulatorMemory.Accepts(occupied, lo, n) then None
    else Behind([Range(lo, lo + n)], Blocks(occupied + [Range(lo, lo + n)], blocks[1..]))
  }

  lemma BlocksOn(taken: seq<Range>, occupied: seq<Range>, blocks: seq<Block>, i: nat)
    requires i < |blocks|
    ensures var lo, n := AlignDown(blocks[i].base, PAGE), AlignUp(blocks[i].size, PAGE);
            Behind(taken, Blocks(occupied, blocks[i..])) ==
              if !EmulatorMemory.Accepts(occupied, lo, n) then None
              else Behind(taken + [Range(lo, lo + n)], Blocks(occupied + [Range(lo, lo + n)], blocks[i + 1..]))
  {
    hide AlignDown, AlignUp, EmulatorMemory.Accepts;
    assert blocks[i..][0] == blocks[i] && blocks[i..][1..] == blocks[i + 1..];
    var lo, n := AlignDown(blocks[i].base, PAGE), AlignUp(blocks[i].size, PAGE);
    var rest := Blocks(occupied + [Range(lo, lo + n)], blocks[i + 1..]);
    if rest.Some? { assert taken + ([Range(lo, lo + n)] + rest.value) == taken + [Range(lo, lo + n)] + rest.value; }
  }

  lemma BlocksBehind(occupied: seq<Range>, blocks: seq<Block>)
    ensures Behind([], Blocks(occupied, blocks)) == Blocks(occupied, blocks) && blocks[0..] == blocks
  {
    if Blocks(occupied, blocks).Some? { assert [] + Blocks(occupied, blocks).value == Blocks(occupied, blocks).value; }
  }

  lemma AllMapped(occupied: seq<Range>, blocks: seq<Block>, taken: seq<Range>)
    ensures Behind(taken, Blocks(occupied, blocks[|blocks|..])) == Some(taken)
  {
    assert taken + [] == taken;
  }

  method MapBlocks(memory: EmulatorMemory.Memory, blocks: seq<Block>) returns (ok: bool, ghost taken: seq<Range>)
    requires memory.Valid() && memory.mapped == memory.occupied
    modifies memory`mapped, memory`occupied
    ensures memory.Valid() && memory.mapped == memory.occupied == old(memory.occupied) + taken
    ensures Blocks(old(memory.occupied), blocks) == if ok then Some(taken) else None
  {
    hide EmulatorMemory.Memory.Valid, EmulatorMemory.Accepts, Blocks, AlignUp, AlignDown;
    taken := [];
    assert Blocks(memory.occupied, blocks[0..]) == Behind([], Blocks(memory.occupied, blocks))
        by { BlocksBehind(memory.occupied, blocks); }
    var i := 0;
    while i < |blocks|
      invariant 0 <= i <= |blocks| && memory.Valid() && memory.mapped == memory.occupied == old(memory.occupied) + taken
      invariant Blocks(old(memory.occupied), blocks) == Behind(taken, Blocks(memory.occupied, blocks[i..]))
    {
      BlocksOn(taken, memory.occupied, blocks, i);
      var base := memory.MapRegion(blocks[i].base, blocks[i].size);
      if base == None { return false, taken; }
      taken := taken + [Range(base.value, base.value + AlignUp(blocks[i].size, PAGE))];
      i := i + 1;
    }
    AllMapped(memory.occupied, blocks, taken);
    ok := true;
  }

  datatype Outcome = Booted | NoLayout | NoPlace | NoFit

  /** The regions of the standard layout, in the order they are mapped. */
  function Layout(hint: int): seq<Range> {
    [EmulatorMemory.Stack(hint), EmulatorMemory.Heap(hint), EmulatorMemory.Stubs(hint), EmulatorMemory.Pool(hint)]
  }

  predicate LayoutFits(hint: int) { 0 <= hint && hint % PAGE == 0 && EmulatorMemory.Pool(hint).hi <= LIMIT }

  /** Images lie apart from each other and from what was in place before them. */
  lemma ImagesApart(before: seq<Range>, images: seq<Range>, r: Range)
    requires Disjoint(before + images) && r in before
    ensures Disjoint(images) && forall i :: 0 <= i < |images| ==> images[i].hi <= r.lo || r.hi <= images[i].lo
  {
    var all := before + images;
    var k :| 0 <= k < |before| && before[k] == r;
    assert all[k] == r && forall i :: 0 <= i < |images| ==> all[|before| + i] == images[i];
  }

  lemma StubArea(hint: int)
    requires LayoutFits(hint)
    ensures EmulatorMemory.Stubs(hint) ==
            Range(EmulatorMemory.StubBase(hint), EmulatorMemory.StubBase(hint) + STUB_SIZE)
    ensures EmulatorMemory.StubBase(hint) > 0 && EmulatorMemory.StubBase(hint) + STUB_SIZE <= LIMIT
  {
    EmulatorMemory.LayoutShifts(hint);
    EmulatorMemory.OnGrid(hint);
  }

  lemma SmallerClear(bs: seq<Binding>, lo: int, hi: int, top: int)
    requires SlotsClear(bs, lo, hi) && top <= hi
    ensures SlotsClear(bs, lo, top)
  { }

  lemma NamesDistinct(files: seq<File>, modules: seq<Module>, images: seq<Range>)
    requires Placed(files, modules, images) && |modules| == |files|
    requires forall i, j :: 0 <= i < j < |files| ==> files[i].name != files[j].name
    ensures Distinct(modules)
  { }

  /** How many imports the first k files have. */
  function Total(files: seq<File>, k: nat): nat
    requires k <= |files|
  {
    if k == 0 then 0 else Total(files, k - 1) + |files[k - 1].imports|
  }

  lemma SameImports(files: seq<File>, modules: seq<Module>, images: seq<Range>, k: nat)
    requires Placed(files, modules, images) && k <= |modules|
    ensures Imports(modules, k) == Total(files, k)
    decreases k
  {
    if k == 0 {
    } else {
      SameImports(files, modules, images, k - 1);
    }
  }

  lemma SameLength(files: seq<File>, modules: seq<Module>, images: seq<Range>)
    requires Placed(files, modules, images)
    ensures |modules| == |images|
  { }

  /** What linking needs of the modules follows from where their images were placed. */
  lemma Linkable(files: seq<File>, modules: seq<Module>, images: seq<Range>, hint: int, before: seq<Range>)
    requires Placed(files, modules, images) && |modules| == |files| && (forall f :: f in files ==> f.WellFormed())
    requires (forall i, j :: 0 <= i < j < |files| ==> files[i].name != files[j].name)
    requires LayoutFits(hint) && Disjoint(before + images) && EmulatorMemory.Stubs(hint) in before
    ensures Distinct(modules) && SlotsApart(AllBindings(modules, |modules|))
            && Imports(modules, |modules|) == Total(files, |files|)
    ensures var base := EmulatorMemory.StubBase(hint);
            base > 0 && base + STUB_SIZE <= LIMIT
                && SlotsClear(AllBindings(modules, |modules|), base, base + STUB_SIZE - SLED)
  {
    hide File.WellFormed, AllBindings, SlotsClear, SlotsApart, LayoutFits, EmulatorMemory.Stubs,
         EmulatorMemory.StubBase, Disjoint,
         Placed, Distinct;
    NamesDistinct(files, modules, images);
    SameImports(files, modules, images, |modules|);
    ImagesApart(before, images, EmulatorMemory.Stubs(hint));
    StubArea(hint);
    SameLength(files, modules, images);
    AllSpaced(files, modules, images, |modules|);
    SlotsOutside(files, modules, images, EmulatorMemory.Stubs(hint));
    var base := EmulatorMemory.StubBase(hint);
    SmallerClear(AllBindings(modules, |modules|), base, base + STUB_SIZE, base + STUB_SIZE - SLED);
  }

  /** The ranges in place before the images: the layout and the blocks. */
  function Before(hint: int, blocks: seq<Block>): Option<seq<Range>> {
    if LayoutFits(hint) then Behind(Layout(hint), Blocks(Layout(hint), blocks)) else None
  }

  lemma LayoutIs(hint: int)
    ensures Layout(hint) == [] + [EmulatorMemory.Stack(hint)] + [EmulatorMemory.Heap(hint)] +
            [EmulatorMemory.Stubs(hint)]
                            + [EmulatorMemory.Pool(hint)]
    ensures EmulatorMemory.Stubs(hint) in Layout(hint)
    ensures LayoutFits(hint) <==> 0 <= hint && hint % PAGE == 0 && EmulatorMemory.Pool(hint).hi <= LIMIT
  { }

  /**
   From an empty engine to bound imports. Layout and blocks fit or do not, each image finds its place or one does
   not, every address fits its slot or one does not; and if all do, every slot of every module is bound. That slots
   lie apart from each other and from the stubs is not assumed: it is how the images were placed.
   */
  method Start(files: seq<File>, hint: int, blocks: seq<Block>, guest: Mem, rounds: nat)
    returns (outcome: Outcome, modules: seq<Module>, linker: Linker?)
    requires (forall f :: f in files ==> f.WellFormed()) && rounds > 0
    requires forall i, j :: 0 <= i < j < |files| ==> files[i].name != files[j].name
    requires FIRST_STUB + STUB_STEP * ((rounds + 1) * Total(files, |files|)) <= STUB_SIZE - SLED
    ensures outcome == NoLayout <==> Before(hint, blocks) == None
    ensures outcome == NoPlace <==> Before(hint, blocks).Some? && Images(Before(hint, blocks).value, files) == None
    ensures outcome.Booted? || outcome.NoFit? ==>
              && |modules| == |files| && Placed(files, modules, Images(Before(hint, blocks).value, files).value)
              && (outcome.Booted? <==> forall b :: b in AllBindings(modules, |modules|) ==> Fits(modules, b))
    ensures outcome.Booted? ==>
              && linker != null && fresh(linker) && linker.modules == modules
              && AllBound(linker.mem, linker.stubHooks, modules, AllBindings(modules, |modules|))
              && AllResolved(linker.mem, linker.stubHooks, modules)
  {
    hide AllResolved, File.WellFormed, AllBindings, SlotsClear, SlotsApart, Disjoint, Placed, Distinct, AllBound, Fits,
         Images,
         LayoutFits,
         EmulatorMemory.Stack, EmulatorMemory.Heap, EmulatorMemory.Stubs, EmulatorMemory.Pool,
             EmulatorMemory.HeapShape, Blocks;
    modules, linker := [], null;
    var memory := new EmulatorMemory.Memory();
    var ok := memory.AllocEnv(hint);
    LayoutIs(hint);
    if !ok { return NoLayout, modules, linker; }
    ghost var taken;
    ok, taken := MapBlocks(memory, blocks);
    if !ok { return NoLayout, modules, linker; }
    var placed, images := PlaceAll(memory, files);
    if placed == None { return NoPlace, modules, linker; }
    modules := placed.value;
    assert Disjoint(memory.occupied);
    Linkable(files, modules, images, hint, Layout(hint) + taken);
    linker := new Linker(guest, EmulatorMemory.StubBase(hint));
    ok := linker.Link(modules, rounds);
    outcome := if ok then Booted else NoFit;
  }
}
