/**
 The emulator's region bookkeeping, its standard layout, and the heap in it. The engine decides what may be
 mapped and written; the loader keeps account of what it placed itself, and of nothing that is mapped on
 demand.
 */
module EmulatorMemory {
  import opened Wrappers
  import opened AddressSpace

  const STACK_HINT := 0x4000_0000

  datatype Block = Block(ptr: int, size: int)

  /** The address that starts the standard layout, and what it places where. */
  function HeapBase(stack: int): int { stack + STACK_SIZE + PAGE }

  function StubBase(stack: int): int { HeapBase(stack) + HEAP_SIZE + PAGE }

  function PoolBase(stack: int): int { StubBase(stack) + STUB_SIZE + PAGE }

  /** What is mapped for a region asked for at base: it starts on the page of base. */
  function PageRange(base: int, size: int): Range { Range(AlignDown(base, PAGE), AlignDown(base, PAGE) + size) }

  lemma DownShift(n: int, pages: nat)
    ensures AlignDown(n + PAGE * pages, PAGE) == AlignDown(n, PAGE) + PAGE * pages
  { }

  /** Right behind the heap there is one free page and then the stubs, but growing takes at least two. */
  lemma GrowthIsRefused(mapped: seq<Range>, heapEnd: int, need: int)
    requires need > 0 && PageRange(heapEnd + PAGE, STUB_SIZE) in mapped
    ensures var lo := AlignDown(heapEnd, PAGE);
            !Free(mapped, lo, lo + AlignUp(AlignUp(need + PAGE, PAGE), PAGE))
  {
    DownShift(heapEnd, 1);
    var lo := AlignDown(heapEnd, PAGE);
    var i :| 0 <= i < |mapped| && mapped[i] == PageRange(heapEnd + PAGE, STUB_SIZE);
    assert Overlaps(lo, lo + AlignUp(AlignUp(need + PAGE, PAGE), PAGE), mapped[i]);
  }

  /** The byte at a can be written. */
  predicate Mapped(mapped: seq<Range>, a: int) { exists i :: 0 <= i < |mapped| && mapped[i].lo <= a < mapped[i].hi }

  /** A write is refused when it runs into a page that is not mapped. */
  predicate Writable(mapped: seq<Range>, lo: int, hi: int) { forall a :: lo <= a < hi ==> Mapped(mapped, a) }

  lemma WritableWithin(mapped: seq<Range>, r: Range, lo: int, hi: int)
    requires r in mapped && r.lo <= lo && hi <= r.hi
    ensures Writable(mapped, lo, hi)
  {
    forall a | lo <= a < hi ensures Mapped(mapped, a) {
      var i :| 0 <= i < |mapped| && mapped[i] == r;
      assert mapped[i].lo <= a < mapped[i].hi;
    }
  }

  /** What the engine accepts: whole pages that overlap nothing mapped. */
  predicate Accepts(mapped: seq<Range>, base: int, size: int) {
    base >= 0 && size > 0 && base + size <= LIMIT && base % PAGE == 0 && size % PAGE == 0
        && Free(mapped, base, base + size)
  }

  /** Blocks at multiples of 16 from lo on, one after another up to hi. */
  ghost predicate InOrder(blocks: seq<Block>, lo: int, hi: int) {
    && (forall i :: 0 <= i < |blocks| ==>
          && (blocks[i].ptr - lo) % 16 == 0 && blocks[i].size >= 16
          && lo <= blocks[i].ptr && blocks[i].ptr + blocks[i].size <= hi)
    && (forall i, j :: 0 <= i < j < |blocks| ==> blocks[i].ptr + blocks[i].size <= blocks[j].ptr)
  }

  lemma InOrderOn(blocks: seq<Block>, lo: int, hi: int, n: int)
    requires InOrder(blocks, lo, hi) && lo <= hi && (hi - lo) % 16 == 0 && n >= 16
    ensures InOrder(blocks + [Block(hi, n)], lo, hi + n)
  { }

  /** Where the layout starts on a multiple of 16, as it does by default, so do all blocks. */
  lemma BlocksAligned(blocks: seq<Block>, lo: int, hi: int, i: nat)
    requires InOrder(blocks, lo, hi) && i < |blocks| && lo % 16 == 0
    ensures blocks[i].ptr % 16 == 0
  {
    assert blocks[i].ptr == (blocks[i].ptr - lo) + lo;
  }

  ghost predicate HeapShape(mapped: seq<Range>, base: int, ptr: int, end: int, stubs: int, blocks: seq<Block>) {
    && end == base + HEAP_SIZE && PageRange(base, HEAP_SIZE) in mapped
    && stubs == end + PAGE && PageRange(stubs, STUB_SIZE) in mapped
    && (ptr - base) % 16 == 0 && base <= ptr <= end && InOrder(blocks, base, ptr)
  }

  function Stack(stack: int): Range { PageRange(stack, STACK_SIZE) }

  function Heap(stack: int): Range { PageRange(HeapBase(stack), HEAP_SIZE) }

  function Stubs(stack: int): Range { PageRange(StubBase(stack), STUB_SIZE) }

  function Pool(stack: int): Range { PageRange(PoolBase(stack), OBJ_POOL) }

  lemma HeapStarts(m: seq<Range>, stack: int)
    ensures HeapShape(m + [Stack(stack)] + [Heap(stack)] + [Stubs(stack)] + [Pool(stack)], HeapBase(stack),
                      HeapBase(stack), HeapBase(stack) + HEAP_SIZE, StubBase(stack), [])
  { }

  lemma OnGrid(n: int)
    requires n % PAGE == 0
    ensures AlignDown(n, PAGE) == n == AlignUp(n, PAGE)
  { }

  /** Where the layout starts within its page makes no difference to what is mapped. */
  lemma LayoutShifts(stack: int)
    ensures var s := AlignDown(stack, PAGE);
            && Stack(stack) == Range(s, s + STACK_SIZE)
            && Heap(stack) == Range(HeapBase(s), HeapBase(s) + HEAP_SIZE)
            && Stubs(stack) == Range(StubBase(s), StubBase(s) + STUB_SIZE)
            && Pool(stack) == Range(PoolBase(s), PoolBase(s) + OBJ_POOL)
  {
    DownShift(stack, STACK_SIZE / PAGE + 1);
    DownShift(stack, STACK_SIZE / PAGE + HEAP_SIZE / PAGE + 2);
    DownShift(stack, STACK_SIZE / PAGE + HEAP_SIZE / PAGE + STUB_SIZE / PAGE + 3);
  }

  predicate AcceptsRange(mapped: seq<Range>, r: Range) { Accepts(mapped, r.lo, r.hi - r.lo) }

  /** In an empty engine the four regions are accepted one after another exactly when they end below the limit. */
  lemma LayoutFits(stack: int)
    ensures var n: seq<Range> := [];
            (0 <= stack && Pool(stack).hi <= LIMIT <==>
               && AcceptsRange(n, Stack(stack))
               && AcceptsRange(n + [Stack(stack)], Heap(stack))
               && AcceptsRange(n + [Stack(stack)] + [Heap(stack)], Stubs(stack))
               && AcceptsRange(n + [Stack(stack)] + [Heap(stack)] + [Stubs(stack)], Pool(stack)))
  {
    LayoutShifts(stack);
    hide AlignDown;
  }

  /** The end of the stub region, where the return sled goes, is mapped in the layout exactly if it starts on a page. */
  lemma SledFits(stack: int)
    ensures var m := [Stack(stack)] + [Heap(stack)] + [Stubs(stack)];
            Writable(m, StubBase(stack) + STUB_SIZE - SLED, StubBase(stack) + STUB_SIZE) <==> stack % PAGE == 0
  {
    LayoutShifts(stack);
    var m, s := [Stack(stack)] + [Heap(stack)] + [Stubs(stack)], AlignDown(stack, PAGE);
    assert s == stack <==> stack % PAGE == 0;
    hide AlignDown;
    if s == stack {
      assert m[2] == Stubs(stack);
      WritableWithin(m, Stubs(stack), StubBase(stack) + STUB_SIZE - SLED, StubBase(stack) + STUB_SIZE);
    } else {
      assert !Mapped(m, StubBase(stack) + STUB_SIZE - 1);
    }
  }

  /** On a page-aligned heap every block can be written. */
  lemma HeapWritable(mapped: seq<Range>, base: int, lo: int, hi: int)
    requires PageRange(base, HEAP_SIZE) in mapped && base % PAGE == 0 && base <= lo && hi <= base + HEAP_SIZE
    ensures Writable(mapped, lo, hi)
  {
    WritableWithin(mapped, PageRange(base, HEAP_SIZE), lo, hi);
  }

  lemma SixteenMore(p: int, n: int)
    requires p % 16 == 0 && n % 16 == 0
    ensures (p + n) % 16 == 0
  { }

  /** What the engine maps, and what of it the loader keeps account of. */
  class Memory {
    var mapped: seq<Range>
    var occupied: seq<Range>
    var heapBase: int
    var heapPtr: int
    var heapMappedEnd: int
    var stubBase: int
    var stubPtr: int
    var retAddr: int
    var objPool: int
    ghost var blocks: seq<Block>

    ghost predicate Valid()
      reads this`mapped, this`occupied
    {
      && Disjoint(mapped) && (forall i :: 0 <= i < |mapped| ==> OnPages(mapped[i]) && mapped[i].lo < mapped[i].hi)
      && Disjoint(occupied) && (forall i :: 0 <= i < |occupied| ==> occupied[i] in mapped)
    }

    constructor ()
      ensures Valid() && mapped == [] && occupied == [] && blocks == []
    {
      mapped, occupied, blocks := [], [], [];
      heapBase, heapPtr, heapMappedEnd, stubBase, stubPtr, retAddr, objPool := 0, 0, 0, 0, 0, 0, 0;
    }

    predicate Maps(base: int, size: int)
      reads this`mapped
    {
      Accepts(mapped, base, size)
    }

    method MemMap(base: int, size: int) returns (ok: bool)
      requires Valid()
      modifies this`mapped
      ensures Valid() && ok == old(Maps(base, size))
      ensures mapped == if ok then old(mapped) + [Range(base, base + size)] else old(mapped)
    {
      ok := Maps(base, size);
      if ok { mapped := mapped + [Range(base, base + size)]; }
    }

    /** A page the emulated code touches is mapped as it goes, and not kept account of. */
    method FaultIn(address: int) returns (ok: bool)
      requires Valid()
      modifies this`mapped
      ensures Valid() && ok == old(Maps(AlignDown(address, PAGE), PAGE))
      ensures mapped == if ok then old(mapped) + [Range(AlignDown(address, PAGE), AlignDown(address, PAGE) + PAGE)]
              else old(mapped)
    {
      ok := MemMap(AlignDown(address, PAGE), PAGE);
    }

    /** None when the engine refuses. */
    method MapRegion(base: int, size: int) returns (r: Option<int>)
      requires Valid()
      modifies this`mapped, this`occupied
      ensures Valid()
      ensures var lo, n := AlignDown(base, PAGE), AlignUp(size, PAGE);
              if old(Maps(lo, n)) then
                && r == Some(lo)
                && mapped == old(mapped) + [Range(lo, lo + n)] && occupied == old(occupied) + [Range(lo, lo + n)]
              else r == None && mapped == old(mapped) && occupied == old(occupied)
    {
      var lo, n := AlignDown(base, PAGE), AlignUp(size, PAGE);
      var ok := MemMap(lo, n);
      if !ok { return None; }
      ghost var before := occupied;
      occupied := occupied + [Range(lo, lo + n)];
      assert forall i :: 0 <= i < |before| ==> before[i] in old(mapped);
      r := Some(lo);
    }

    /** Everything the loader placed, on pages and apart, leaves room for the image found by its search. */
    method MapImage(imageSize: int, preferred: int) returns (r: Option<int>)
      requires Valid()
      modifies this`mapped, this`occupied
      ensures Valid()
      ensures var n := AlignUp(imageSize, PAGE);
              var lo := AlignDown(Placed(old(occupied), preferred, n), PAGE);
              Free(old(occupied), lo, lo + n) &&
              if old(Maps(lo, n)) then
                && r == Some(lo)
                && mapped == old(mapped) + [Range(lo, lo + n)] && occupied == old(occupied) + [Range(lo, lo + n)]
              else r == None && mapped == old(mapped) && occupied == old(occupied)
      ensures old(mapped == occupied) ==>
                var n := AlignUp(imageSize, PAGE);
                var lo := AlignDown(Placed(old(occupied), preferred, n), PAGE);
                r.Some? <==> lo >= 0 && n > 0 && lo + n <= LIMIT
    {
      hide Free, Disjoint, AddressSpace.Placed, AlignUp, AlignDown, LastEnd;
      var n := AlignUp(imageSize, PAGE);
      var at, hops := PlaceImage(occupied, imageSize, preferred);
      DownIsFree(occupied, Placed(occupied, preferred, n), n);
      r := MapRegion(at.value, imageSize);
    }

    /** The standard layout is in place, and the blocks handed out lie in the heap, aligned and one after another. */
    ghost predicate HeapValid()
      reads this
    {
      Valid() && HeapShape(mapped, heapBase, heapPtr, heapMappedEnd, stubBase, blocks)
    }

    /** A region of whole pages. */
    method Region(base: int, size: int) returns (ok: bool)
      requires Valid() && size % PAGE == 0
      modifies this`mapped, this`occupied
      ensures Valid() && ok == AcceptsRange(old(mapped), PageRange(base, size))
      ensures mapped == if ok then old(mapped) + [PageRange(base, size)] else old(mapped)
      ensures occupied == if ok then old(occupied) + [PageRange(base, size)] else old(occupied)
    {
      OnGrid(size);
      var r := MapRegion(base, size);
      ok := r.Some?;
    }

    method MapStackAndHeap(stack: int) returns (ok: bool)
      requires Valid()
      modifies this`mapped, this`occupied
      ensures Valid()
      ensures ok ==>
                && mapped == old(mapped) + [Stack(stack)] + [Heap(stack)]
                && occupied == old(occupied) + [Stack(stack)] + [Heap(stack)]
      ensures ok <==> AcceptsRange(old(mapped), Stack(stack)) && AcceptsRange(old(mapped) + [Stack(stack)], Heap(stack))
    {
      hide AcceptsRange, PageRange, Memory.Valid, HeapBase;
      ok := Region(stack, STACK_SIZE);
      if !ok { return; }
      ok := Region(HeapBase(stack), HEAP_SIZE);
    }

    /** Stack, heap, stubs and object pool, one page apart. False when the engine refuses one, or the return sled. */
    method MapLayout(stack: int) returns (ok: bool)
      requires Valid()
      modifies this`mapped, this`occupied
      ensures Valid()
      ensures ok ==>
                && mapped == old(mapped) + [Stack(stack)] + [Heap(stack)] + [Stubs(stack)] + [Pool(stack)]
                && occupied == old(occupied) + [Stack(stack)] + [Heap(stack)] + [Stubs(stack)] + [Pool(stack)]
      ensures old(mapped) == [] ==> (ok <==> 0 <= stack && stack % PAGE == 0 && Pool(stack).hi <= LIMIT)
    {
      hide AcceptsRange, PageRange, Memory.Valid, HeapBase, StubBase, PoolBase, Writable;
      LayoutFits(stack);
      SledFits(stack);
      ok := MapStackAndHeap(stack);
      if !ok { return; }
      ok := Region(StubBase(stack), STUB_SIZE);
      if !ok { return; }
      assert old(mapped) == [] ==> mapped == [Stack(stack)] + [Heap(stack)] + [Stubs(stack)];
      ok := Writable(mapped, StubBase(stack) + STUB_SIZE - SLED, StubBase(stack) + STUB_SIZE);
      if !ok { return; }
      ok := Region(PoolBase(stack), OBJ_POOL);
    }

    method AllocEnv(stackTopHint: int := STACK_HINT) returns (ok: bool)
      requires Valid() && blocks == []
      modifies this
      ensures Valid() && blocks == []
      ensures ok ==>
                && HeapValid() && heapPtr == heapBase == HeapBase(stackTopHint)
                && stubPtr == stubBase + 0x100 && retAddr == stubBase + STUB_SIZE - SLED
                && objPool == PoolBase(stackTopHint)
                && heapPtr == stackTopHint + 0x20_1000 && stubPtr == stackTopHint + 0x120_2100
                && retAddr == stackTopHint + 0x130_1000 && objPool == stackTopHint + 0x130_3000
                && occupied == old(occupied) + [Stack(stackTopHint)] + [Heap(stackTopHint)] + [Stubs(stackTopHint)]
                               + [Pool(stackTopHint)]
      ensures ok ==> mapped == old(mapped) + [Stack(stackTopHint)] + [Heap(stackTopHint)] + [Stubs(stackTopHint)]
                                + [Pool(stackTopHint)]
      ensures old(mapped) == [] ==>
              (ok <==> 0 <= stackTopHint && stackTopHint % PAGE == 0 && Pool(stackTopHint).hi <= LIMIT)
    {
      hide HeapShape, PageRange, Memory.Valid;
      HeapStarts(mapped, stackTopHint);
      ok := MapLayout(stackTopHint);
      heapBase := stackTopHint + STACK_SIZE + PAGE;
      heapPtr := heapBase;
      heapMappedEnd := heapBase + HEAP_SIZE;
      stubBase := heapBase + HEAP_SIZE + PAGE;
      stubPtr := stubBase + 0x100;
      retAddr := stubBase + STUB_SIZE - SLED;
      objPool := stubBase + STUB_SIZE + PAGE;
    }

    /** Maps more behind the heap, if the engine lets it. */
    method Grow(grow: int) returns (ok: bool)
      requires Valid()
      modifies this`mapped, this`occupied, this`heapMappedEnd
      ensures Valid() && ok == old(Maps(AlignDown(heapMappedEnd, PAGE), AlignUp(grow, PAGE)))
      ensures if ok then heapMappedEnd == old(heapMappedEnd) + grow
              else mapped == old(mapped) && occupied == old(occupied) && heapMappedEnd == old(heapMappedEnd)
    {
      var r := MapRegion(heapMappedEnd, grow);
      ok := r.Some?;
      if ok { heapMappedEnd := heapMappedEnd + grow; }
    }

    /**
     An allocation succeeds exactly when it fits in the heap as first mapped, which never grows, and the zeros at
     its start can be written, which is always so in a heap that starts on a page.
     */
    method HeapAlloc(size: int) returns (r: Option<int>)
      requires HeapValid()
      modifies this
      ensures HeapValid() && mapped == old(mapped) && occupied == old(occupied) && heapMappedEnd == old(heapMappedEnd)
      ensures heapBase == old(heapBase) && stubBase == old(stubBase) && stubPtr == old(stubPtr)
      ensures var n := AlignUp(if size > 16 then size else 16, 16);
              if old(heapPtr) + n <= old(heapMappedEnd)
                  && Writable(mapped, old(heapPtr), old(heapPtr) + (if n < 0x1_0000 then n else 0x1_0000)) then
                r == Some(old(heapPtr)) && heapPtr == old(heapPtr) + n
                    && blocks == old(blocks) + [Block(old(heapPtr), n)]
              else r == None && heapPtr == old(heapPtr) && blocks == old(blocks)
      ensures heapBase % PAGE == 0 ==>
                (r.Some? <==> old(heapPtr) + AlignUp(if size > 16 then size else 16, 16) <= old(heapMappedEnd))
      ensures heapBase % 16 == 0 && r.Some? ==> r.value % 16 == 0
    {
      hide AlignUp, AlignDown, InOrder, Disjoint, Free, Writable, PageRange;
      var n := AlignUp(if size > 16 then size else 16, 16);
      InOrderOn(blocks, heapBase, heapPtr, n);
      SixteenMore(heapPtr - heapBase, n);
      var ptr := heapPtr;
      var end := ptr + n;
      if end > heapMappedEnd {
        GrowthIsRefused(mapped, heapMappedEnd, end - heapMappedEnd);
        var grown := Grow(AlignUp(end - heapMappedEnd + PAGE, PAGE));
        if !grown { return None; }
      }
      var zeros := if n < 0x10000 then n else 0x10000;
      if heapBase % PAGE == 0 { HeapWritable(mapped, heapBase, ptr, ptr + zeros); }
      if !Writable(mapped, ptr, ptr + zeros) { return None; }
      heapPtr := end;
      blocks := blocks + [Block(ptr, n)];
      if heapBase % 16 == 0 { BlocksAligned(blocks, heapBase, heapPtr, |blocks| - 1); }
      r := Some(ptr);
    }
  }
}
