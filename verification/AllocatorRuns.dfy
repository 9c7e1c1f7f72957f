/** Runs of the allocator from the start of the program that reach what a caller would not expect. */
module AllocatorRuns {
  import opened Basics
  import opened Dyadic
  import opened Blocks
  import opened FreeLists
  import opened Metadata
  import opened Growth
  import opened Allocator
  import opened AllocatorTheorems

  // ---- The heap after the first calls ----

  /** Splitting leaves one free right half per order passed. */
  lemma {:induction false} RightHalves(h: Heap, base: nat, a: nat, target: nat, j: nat)
    requires Tiling(h, base) && a in h && target <= j < h[a].order
    ensures a + BlockSize(j) in SplitDown(h, a, target)
    ensures SplitDown(h, a, target)[a + BlockSize(j)] == Block(j, true)
    decreases h[a].order
  {
    var h' := SplitStep(h, a);
    SplitStepTiling(h, base, a);
    if j == h[a].order - 1 {
      SplitDownOther(h', base, a, target, a + BlockSize(j));
    } else {
      RightHalves(h', base, a, target, j);
    }
  }

  /** A heap after smalloc(96). */
  function OneBlock(base: nat): Heap {
    if base in Initial(base) then Carve(Initial(base), base, 0) else map[]
  }

  /** A heap after smalloc(96) and smalloc(200): a used block of order 0 at the base, its free
      buddy, and a used block of order 1. */
  function TwoBlocks(base: nat): Heap {
    var h := OneBlock(base);
    if base + 256 in h then Carve(h, base + 256, 1) else h
  }

  lemma TwoBlocksShape(base: nat)
    requires base > 0 && Aligned(base, HEAP_ORDER)
    ensures var h := TwoBlocks(base);
            && Tiling(h, base) && Coalesced(h)
            && base in h && h[base] == Block(0, false)
            && base + 128 in h && h[base + 128] == Block(0, true)
            && base + 256 in h && h[base + 256] == Block(1, false)
  {
    var i := Initial(base);
    InitialTiling(base);
    InitialKeys(base);
    BaseAligned(base, MAX_ORDER);
    assert BlockSize(0) == 128 && BlockSize(1) == 256;
    RightHalves(i, base, base, 0, 0);
    RightHalves(i, base, base, 0, 1);
    CarveKeeps(i, base, base, 0);
    SplitDownTiling(i, base, base, 0);
    var h1 := Carve(i, base, 0);
    assert h1[base + 256] == Block(1, true);
    CarveKeeps(h1, base, base + 256, 1);
    SplitDownTiling(h1, base, base + 256, 1);
  }

  lemma NoRoom(h: Heap, base: nat)
    requires Tiling(h, base) && base in h && h[base] == Block(0, false)
    requires base + 256 in h && h[base + 256] == Block(1, false) && Aligned(base, 2)
    requires BlockSize(0) == 128 && BlockSize(1) == 256 && BlockSize(2) == 512
    ensures !RoomToGrow(h, base, 2)
  {
    var h1 := h[base := Block(0, true)];
    RemarkTiling(h, base, base, true);
    AlignedHalves(base, 1);
    AlignedHalves(base, 0);
    assert Lower(base, 0) == base && Lower(base, 1) == base;
    assert Ancestor(base, 0, 2) == Ancestor(base, 1, 2) == Ancestor(base, 2, 2) == base;
    if FreePoint(h1, base + 256) {
      var c :| Covers(h1, c, base + 256) && h1[c].free;
      StartInside(h1, base, base + 256, c);
      assert false;
    }
  }

  /** Concrete inputs on which srealloc returns a block too small for the request: growing the
      96-byte block of TwoBlocks to 300 bytes, when the free buddy's last 32 bytes happen to read
      as a free header of size 96. */
  lemma ShortGrowth(base: nat, m: Memory)
    requires base > 0 && Aligned(base, HEAP_ORDER) && Headers(m, TwoBlocks(base))
    requires At(m, base + 224).isFree && At(m, base + 224).size == 96
    ensures Misled(View(m, TwoBlocks(base), map[]), base, 300, 2)
  {
    var h := TwoBlocks(base);
    TwoBlocksShape(base);
    BaseAligned(base, 1);
    BaseAligned(base, 2);
    assert BlockSize(0) == 128 && BlockSize(1) == 256 && BlockSize(2) == 512;
    assert LeastOrder(332, 2) by {
      forall j: nat | j < 2 ensures BlockSize(j) < 332 { assert j == 0 || j == 1; }
    }
    AlignedHalves(base, 0);
    assert CanMerge(h, base, 2) && Lower(base, 0) == base;
    TwoMergesDecidedByPayload(m, h, base, base, 300, 2);
    NoRoom(h, base);
  }

  // ---- A reallocation that comes back too small ----

  /** Where an allocation comes from when the lowest free block of its order is known. */
  lemma TakenAt(h0: Heap, h: Heap, p: nat, source: nat, target: nat, a: nat, k: nat)
    requires CarvedFrom(h0, h, p, source, target) && a in h0 && h0[a] == Block(k, true) && target <= k
    requires forall c :: c in h0 && h0[c].free && target <= h0[c].order <= k ==> h0[c].order == k && a <= c
    ensures p == a + HEADER && h == Carve(h0, a, target)
  {
    assert BlockAvailable(h0, target);
    assert h0[source].free && target <= h0[source].order && h0[a].free;
  }

  /** smalloc(96) on a fresh heap takes the base. */
  lemma FirstTaken(base: nat, h: Heap, p: nat, source: nat, target: nat)
    requires base > 0 && Aligned(base, HEAP_ORDER) && CarvedFrom(Initial(base), h, p, source, target) && target == 0
    ensures p == base + HEADER && h == OneBlock(base)
  {
    InitialKeys(base);
    BaseAligned(base, MAX_ORDER);
    TakenAt(Initial(base), h, p, source, target, base, MAX_ORDER);
  }

  /** A heap with one used block of order 0 at its base: what is free next. */
  lemma OneBlockShape(base: nat)
    requires base > 0 && Aligned(base, HEAP_ORDER)
    ensures var h := OneBlock(base);
            && Tiling(h, base) && Coalesced(h) && base in h && h[base] == Block(0, false)
            && base + 128 in h && h[base + 128] == Block(0, true)
            && base + 256 in h && h[base + 256] == Block(1, true)
            && forall c :: c in h && c != base ==> base + 128 <= c
  {
    var i := Initial(base);
    InitialTiling(base);
    InitialKeys(base);
    BaseAligned(base, MAX_ORDER);
    assert BlockSize(0) == 128 && BlockSize(1) == 256;
    RightHalves(i, base, base, 0, 0);
    RightHalves(i, base, base, 0, 1);
    CarveKeeps(i, base, base, 0);
    SplitDownTiling(i, base, base, 0);
    var h := Carve(i, base, 0);
    forall c | c in h && c != base
      ensures base + 128 <= c
    {
      assert PlacedIn(h, c, base) && Clear(h, base, c);
    }
  }

  /** The next smalloc(96) takes the block behind it, and freeing that one goes back. */
  lemma SecondTaken(base: nat, h: Heap, p: nat, source: nat, target: nat)
    requires base > 0 && Aligned(base, HEAP_ORDER) && target == 0
    requires CarvedFrom(OneBlock(base), h, p, source, target)
    ensures p == base + 128 + HEADER && base + 128 in h && h[base + 128] == Block(0, false)
    ensures FreedHeap(h, base + 128) == OneBlock(base)
  {
    var h1 := OneBlock(base);
    OneBlockShape(base);
    TakenAt(h1, h, p, source, target, base + 128, 0);
    FreeUndoesAllocation(h1, h, base, p, source, target);
    CarvedLive(h1, h, base, p, source, target);
  }

  /** smalloc(200) then takes the block behind both. */
  lemma ThirdTaken(base: nat, h: Heap, p: nat, source: nat, target: nat)
    requires base > 0 && Aligned(base, HEAP_ORDER) && target == 1
    requires CarvedFrom(OneBlock(base), h, p, source, target)
    ensures h == TwoBlocks(base)
  {
    var h1 := OneBlock(base);
    OneBlockShape(base);
    BaseAligned(base, 1);
    assert BlockSize(1) == 256;
    forall c | c in h1 && h1[c].free && h1[c].order == 1
      ensures base + 256 <= c
    {
      assert PlacedIn(h1, c, base);
      AlignedGap(base, c, 1);
    }
    TakenAt(h1, h, p, source, target, base + 256, 1);
  }

  lemma SmallOrders(size: nat, target: int)
    requires LeastOrder(size + HEADER, target)
    ensures size == 96 ==> target == 0
    ensures size == 200 ==> target == 1
    ensures size == 300 ==> target == 2
  {
    assert BlockSize(0) == 128 && BlockSize(1) == 256 && BlockSize(2) == 512;
    if target > 2 {
      assert BlockSize(2) < size + HEADER;
    }
  }

  /** The heap region is where the model expects it. */
  ghost predicate Ready(t: MemoryTracker)
    reads t, t.store
  {
    && t.Valid() && t.initialized && t.mmaps == map[] && t.base > 0 && Aligned(t.base, HEAP_ORDER)
  }

  method FirstBlock(brk: nat) returns (t: MemoryTracker, p: nat)
    requires brk > 0
    ensures fresh(t) && fresh(t.store) && Ready(t) && t.heap == OneBlock(t.base) && p == t.base + HEADER
  {
    t := new MemoryTracker();
    HeapBaseAligned(brk);
    ghost var h, source, target;
    p, h, source, target := t.Smalloc(96, brk, true, None);
    SmallOrders(96, target);
    FirstTaken(t.base, t.heap, p, source, target);
    OneBlockShape(t.base);
  }

  method SecondBlock(t: MemoryTracker) returns (p: nat)
    requires Ready(t) && t.heap == OneBlock(t.base)
    modifies t, t.store
    ensures Ready(t) && t.Past() == old(t.Past()) && p == t.base + 128 + HEADER
    ensures t.base + 128 in t.heap && t.heap[t.base + 128] == Block(0, false)
    ensures FreedHeap(t.heap, t.base + 128) == old(t.heap)
  {
    ghost var h, source, target;
    p, h, source, target := t.Smalloc(96, 0, true, None);
    SmallOrders(96, target);
    SecondTaken(t.base, t.heap, p, source, target);
  }

  /** The client of a 96-byte block leaves in its last granule what reads as a free header of size 96. */
  method WriteGranule(t: MemoryTracker, p: nat)
    requires Ready(t) && p == t.base + 128 + HEADER
    requires t.base + 128 in t.heap && t.heap[t.base + 128] == Block(0, false)
    modifies t.store`mem
    ensures Ready(t) && t.base + 224 !in t.heap
    ensures At(t.store.mem, t.base + 224) == Granule(96, true, NULL, NULL, 0)
  {
    BlockSizeGranular(0);
    assert BlockSize(0) == 128;
    assert Clear(t.heap, t.base + 128, t.base + 224);
    t.ClientWrite(p - HEADER, p + 64, Granule(96, true, NULL, NULL, 0));
  }

  /** Freeing leaves alone whatever is not a header. */
  method FreeBeside(t: MemoryTracker, p: nat, ghost x: nat, ghost h0: Heap)
    requires t.Valid() && p >= HEADER && p - HEADER in t.heap && t.mmaps == map[] && x !in t.heap
    requires FreedHeap(t.heap, p - HEADER) == h0
    modifies t`allocatedBlocks, t`allocatedBytes, t`metadataBytes, t`heap, t`mmaps, t.store
    ensures t.Valid() && t.mmaps == map[] && t.heap == h0 && At(t.store.mem, x) == At(old(t.store.mem), x)
  {
    t.Sfree(p, true);
  }

  method WriteAndFree(t: MemoryTracker, p: nat, ghost h0: Heap)
    requires Ready(t) && p == t.base + 128 + HEADER && FreedHeap(t.heap, t.base + 128) == h0
    requires t.base + 128 in t.heap && t.heap[t.base + 128] == Block(0, false)
    modifies t`allocatedBlocks, t`allocatedBytes, t`metadataBytes, t`heap, t`mmaps, t.store
    ensures Ready(t) && t.heap == h0 && At(t.store.mem, t.base + 224) == Granule(96, true, NULL, NULL, 0)
  {
    WriteGranule(t, p);
    ghost var x := t.base + 224;
    assert At(t.store.mem, x) == Granule(96, true, NULL, NULL, 0);
    FreeBeside(t, p, x, h0);
  }

  /** A second block of 96 bytes is allocated, written to and freed again. */
  method LeaveGranule(t: MemoryTracker)
    requires Ready(t) && t.heap == OneBlock(t.base)
    modifies t, t.store
    ensures Ready(t) && t.base == old(t.base) && t.heap == old(t.heap)
    ensures At(t.store.mem, t.base + 224) == Granule(96, true, NULL, NULL, 0)
  {
    ghost var h0 := t.heap;
    var p := SecondBlock(t);
    WriteAndFree(t, p, h0);
  }

  /** The granule in question is no block start. */
  lemma GranuleInside(base: nat)
    requires base > 0 && Aligned(base, HEAP_ORDER)
    ensures base + 224 !in TwoBlocks(base)
  {
    TwoBlocksShape(base);
    assert BlockSize(0) == 128;
    assert Clear(TwoBlocks(base), base + 128, base + 224);
  }

  method ThirdBlock(t: MemoryTracker)
    requires Ready(t) && t.heap == OneBlock(t.base)
    modifies t, t.store
    ensures Ready(t) && t.Past() == old(t.Past()) && t.heap == TwoBlocks(t.base)
    ensures At(t.store.mem, t.base + 224) == At(old(t.store.mem), t.base + 224)
  {
    var q, h, source, target := t.Smalloc(200, 0, true, None);
    SmallOrders(200, target);
    ThirdTaken(t.base, t.heap, q, source, target);
    GranuleInside(t.base);
  }

  /** The first half of the run: a block of 96 bytes, a second one that is written to and freed, and a
      block of 200 bytes. */
  method StaleGranule(brk: nat) returns (t: MemoryTracker, p: nat)
    requires brk > 0
    ensures fresh(t) && fresh(t.store) && Ready(t) && t.heap == TwoBlocks(t.base)
    ensures p == t.base + HEADER && At(t.store.mem, t.base + 224) == Granule(96, true, NULL, NULL, 0)
  {
    t, p := FirstBlock(brk);
    LeaveGranule(t);
    ThirdBlock(t);
  }

  /** The whole run: srealloc of the first block to 300 bytes succeeds with a block that is too small. */
  method ShortReallocation(brk: nat) returns (t: MemoryTracker, p: nat)
    requires brk > 0
    ensures t.Valid() && p >= HEADER && Live(t.heap, t.mmaps, p - HEADER) && Capacity(t.heap, t.mmaps, p - HEADER) < 300
  {
    var q;
    t, q := StaleGranule(brk);
    ghost var v, o, need := t.Snapshot(), t.Past(), 0;
    TwoBlocksShape(t.base);
    ShortGrowth(t.base, v.mem);
    p, need := t.Srealloc(v, o, q, 300, brk, true, None, true);
    SmallOrders(300, need);
  }

  // ---- Statistics that miss a mapping ----

  /** A mapping made while sbrk fails is forgotten by the statistics when the heap is set up after all. */
  method ForgottenMapping(at: nat, brk: nat, size: nat) returns (t: MemoryTracker)
    requires at > 0 && brk > 0 && MMAP_LIMIT < size + HEADER && size <= MAX_ALLOCATION
    requires at + Extent(size) <= HeapBase(brk)
    ensures t.Valid() && t.initialized && t.mmaps == map[at := size]
    ensures t.allocatedBlocks == |t.heap| && t.allocatedBlocks != |t.heap| + |t.mmaps|
    ensures t.allocatedBytes + t.metadataBytes == HEAP_BYTES
  {
    t := new MemoryTracker();
    var p, h, source, target := t.Smalloc(size, brk, false, Some(at));
    p, h, source, target := t.Smalloc(0, brk, true, None);
    assert |map[at := size]| == 1;
    t.StatisticsExact();
    SumAdd(map[], at, size);
  }

  // ---- A reallocation refused although there is room ----

  const WHOLE := 131040

  lemma WholeOrder(target: int)
    requires LeastOrder(WHOLE + HEADER, target)
    ensures target == MAX_ORDER && BlockSize(MAX_ORDER) == WHOLE + HEADER && BlockSize(0) == 128
  {
    TopBlockSize();
    if target != -1 && target < MAX_ORDER {
      BlockSizeMonotone(target, MAX_ORDER);
    }
  }

  /** Only top blocks, the first of them used. */
  ghost predicate Tall(h: Heap, base: nat) {
    && base in h && h[base] == Block(MAX_ORDER, false)
    && forall a :: a in h ==> h[a].order == MAX_ORDER
  }

  lemma FirstTop(base: nat, h: Heap, p: nat, source: nat, target: nat)
    requires base > 0 && Aligned(base, HEAP_ORDER) && CarvedFrom(Initial(base), h, p, source, target)
    requires LeastOrder(WHOLE + HEADER, target)
    ensures p == base + HEADER && Tall(h, base)
  {
    InitialKeys(base);
    BaseAligned(base, MAX_ORDER);
    WholeOrder(target);
    TakenAt(Initial(base), h, p, source, target, base, MAX_ORDER);
  }

  lemma NextTop(base: nat, h0: Heap, h: Heap, p: nat, source: nat, target: nat)
    requires Tall(h0, base) && CarvedFrom(h0, h, p, source, target) && LeastOrder(WHOLE + HEADER, target)
    ensures Tall(h, base)
    ensures p == NULL ==> forall a :: a in h ==> !h[a].free
    ensures p != NULL ==> |FreeBlocks(h)| < |FreeBlocks(h0)|
  {
    WholeOrder(target);
    if p != NULL {
      assert h == h0[source := Block(MAX_ORDER, false)];
      assert FreeBlocks(h) == FreeBlocks(h0) - {source} && source in FreeBlocks(h0);
    }
  }

  method AnotherTop(t: MemoryTracker) returns (q: nat)
    requires Ready(t) && Tall(t.heap, t.base)
    modifies t, t.store
    ensures Ready(t) && Tall(t.heap, t.base) && t.Past() == old(t.Past())
    ensures q == NULL ==> forall a :: a in t.heap ==> !t.heap[a].free
    ensures q != NULL ==> |FreeBlocks(t.heap)| < |FreeBlocks(old(t.heap))|
    ensures q == NULL ==> |FreeBlocks(t.heap)| <= |FreeBlocks(old(t.heap))|
  {
    ghost var h, source, target;
    q, h, source, target := t.Smalloc(WHOLE, 0, true, None);
    NextTop(t.base, h, t.heap, q, source, target);
  }

  /** Blocks of the largest size are allocated until there are no more. */
  method FillUp(brk: nat) returns (t: MemoryTracker, p: nat)
    requires brk > 0
    ensures fresh(t) && fresh(t.store) && Ready(t) && p == t.base + HEADER
    ensures Tall(t.heap, t.base) && forall a :: a in t.heap ==> !t.heap[a].free
  {
    t := new MemoryTracker();
    HeapBaseAligned(brk);
    ghost var h, source, target;
    p, h, source, target := t.Smalloc(WHOLE, brk, true, None);
    FirstTop(t.base, t.heap, p, source, target);
    var q := p;
    while q != NULL
      invariant fresh(t) && fresh(t.store) && Ready(t) && Tall(t.heap, t.base) && p == t.base + HEADER
      invariant q == NULL ==> forall a :: a in t.heap ==> !t.heap[a].free
      decreases |FreeBlocks(t.heap)| + Unit(q != NULL)
    {
      q := AnotherTop(t);
    }
  }

  method WriteTop(t: MemoryTracker, p: nat)
    requires Ready(t) && Tall(t.heap, t.base) && p == t.base + HEADER
    modifies t.store`mem
    ensures Ready(t) && !At(t.store.mem, t.base + 224).isFree
  {
    BlockSizeGranular(MAX_ORDER);
    TopBlockSize();
    t.ClientWrite(p - HEADER, p + 192, Granule(0, false, NULL, NULL, 0));
  }

  /** The client of the first block writes something that is no free header into it and frees it. */
  method WriteAndFreeTop(t: MemoryTracker, p: nat)
    requires Ready(t) && Tall(t.heap, t.base) && p == t.base + HEADER && t.base + 224 !in t.heap
    modifies t`allocatedBlocks, t`allocatedBytes, t`metadataBytes, t`heap, t`mmaps, t.store
    ensures Ready(t) && t.heap == old(t.heap)[t.base := Block(MAX_ORDER, true)]
    ensures !At(t.store.mem, t.base + 224).isFree
  {
    ghost var h0 := t.heap[t.base := Block(MAX_ORDER, true)];
    assert FreedHeap(t.heap, p - HEADER) == h0 by { assert !CanMerge(h0, t.base, MAX_ORDER); }
    WriteTop(t, p);
    FreeBeside(t, p, t.base + 224, h0);
  }

  /** Whatever is free after the split is a piece of the block that was split. */
  lemma FreePieces(h0: Heap, base: nat, h: Heap, a: nat)
    requires Tiling(h0, base) && Tiling(h, base) && base in h0 && h0[base] == Block(MAX_ORDER, true)
    requires forall x :: x in h0 && x != base ==> !h0[x].free && x in h && h[x] == h0[x]
    requires base in h && h[base] == Block(0, false) && a in h && h[a].free
    ensures h[a].order < MAX_ORDER
  {
    assert PlacedIn(h, a, base) && Covered(h0, a);
    var b :| Covers(h0, b, a);
    assert Clear(h, b, a);
    if h[a].order == MAX_ORDER {
      BaseAligned(base, MAX_ORDER);
      AlignedGap(base, a, MAX_ORDER);
    }
  }

  /** One small used block in an otherwise free top block, and no top block free. */
  ghost predicate OneSplit(h: Heap, base: nat) {
    && base in h && h[base] == Block(0, false) && base + 128 in h && h[base + 128] == Block(0, true)
    && base + 224 !in h && !BlockAvailable(h, MAX_ORDER) && RoomToGrow(h, base, MAX_ORDER)
  }

  /** The part of the heap that the small block was split from is free but for the block itself. */
  lemma RoomAround(h0: Heap, base: nat)
    requires Tiling(h0, base) && Coalesced(h0) && base in h0 && h0[base] == Block(MAX_ORDER, true)
    ensures RoomToGrow(Carve(h0, base, 0), base, MAX_ORDER)
  {
    var h, d := Carve(h0, base, 0), SplitDown(h0, base, 0);
    CarveKeeps(h0, base, base, 0);
    SplitDownTiling(h0, base, base, 0);
    assert h[base := Block(0, true)] == d;
    SplitThenMerge(h0, base, base, 0);
    GrownKeeps(h, base, base, MAX_ORDER);
  }

  /** A small allocation then splits the one free block. */
  lemma OnlyTop(base: nat, h0: Heap, h: Heap, p: nat, source: nat, target: nat)
    requires Tiling(h0, base) && Coalesced(h0) && CarvedFrom(h0, h, p, source, target) && target == 0
    requires base in h0 && h0[base] == Block(MAX_ORDER, true) && forall a :: a in h0 && a != base ==> !h0[a].free
    ensures p == base + HEADER && h == Carve(h0, base, 0)
    ensures OneSplit(h, base)
  {
    TakenAt(h0, h, p, source, target, base, MAX_ORDER);
    RoomAround(h0, base);
    RightHalves(h0, base, base, 0, 0);
    CarveKeeps(h0, base, base, 0);
    assert BlockSize(0) == 128;
    assert Clear(h, base + 128, base + 224);
    forall a | a in h && h[a].free
      ensures h[a].order < MAX_ORDER
    {
      FreePieces(h0, base, h, a);
    }
  }

  method TakeSmall(t: MemoryTracker) returns (q: nat)
    requires Ready(t) && t.base in t.heap && t.heap[t.base] == Block(MAX_ORDER, true)
    requires forall a :: a in t.heap && a != t.base ==> !t.heap[a].free
    modifies t, t.store
    ensures Ready(t) && t.Past() == old(t.Past()) && q == t.base + HEADER && OneSplit(t.heap, t.base)
    ensures At(t.store.mem, t.base + 224) == At(old(t.store.mem), t.base + 224)
  {
    ghost var h, source, target;
    q, h, source, target := t.Smalloc(96, 0, true, None);
    SmallOrders(96, target);
    OnlyTop(t.base, h, t.heap, q, source, target);
  }

  /** From the filled heap: the first block is written to and freed, and a small one takes its place. */
  method SplitFirst(t: MemoryTracker, p: nat) returns (q: nat)
    requires Ready(t) && Tall(t.heap, t.base) && p == t.base + HEADER
    requires forall a :: a in t.heap ==> !t.heap[a].free
    modifies t, t.store
    ensures Ready(t) && t.base == old(t.base) && q == t.base + HEADER
    ensures OneSplit(t.heap, t.base) && !At(t.store.mem, t.base + 224).isFree
  {
    ghost var b := t.base;
    assert Clear(t.heap, b, b + 224) by { TopBlockSize(); }
    WriteAndFreeTop(t, p);
    q := TakeSmall(t);
  }

  /** The probe from the split block fails. */
  lemma CleanGranule(t: MemoryTracker)
    requires Ready(t) && OneSplit(t.heap, t.base) && !At(t.store.mem, t.base + 224).isFree
    ensures MustMove(t.Snapshot(), t.base, WHOLE) && LeastOrder(WHOLE + HEADER, MAX_ORDER)
  {
    var need := RequiredOrder(WHOLE);
    WholeOrder(need);
    BaseAligned(t.base, 1);
    AlignedHalves(t.base, 0);
    assert BlockSize(1) == 256;
    CleanGranuleNeverShort(t.Snapshot(), t.base, t.base, WHOLE, need);
    t.HeaderTells(t.base);
  }

  /** In that heap the block cannot grow to the size of the region around it, free as it is. */
  method RefusedReallocation(brk: nat) returns (t: MemoryTracker, q: nat, p: nat)
    requires brk > 0
    ensures t.Valid() && q >= HEADER && Live(t.heap, t.mmaps, q - HEADER) && q - HEADER in t.heap
    ensures RoomToGrow(t.heap, q - HEADER, MAX_ORDER) && BlockSize(MAX_ORDER) == WHOLE + HEADER
    ensures p == NULL
  {
    t, q := FillUp(brk);
    q := SplitFirst(t, q);
    ghost var v, o, need := t.Snapshot(), t.Past(), 0;
    CleanGranule(t);
    p, need := t.Srealloc(v, o, q, WHOLE, brk, true, None, true);
    WholeOrder(need);
  }
}
