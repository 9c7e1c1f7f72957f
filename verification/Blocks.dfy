/** The heap of the buddy allocator as a set of blocks: a map from each block's start address
    to its order and whether it is free. Merging, splitting, allocating and freeing are
    functions on such maps; the allocator's methods are proved to compute them. */
module Blocks {
  import opened Dyadic

  const HEADER := 32
  const MAX_ORDER: nat := 10
  const TOP_BLOCK := 131072
  const NUM_TOP := 32
  const HEAP_BYTES := 4194304
  const HEAP_ORDER: nat := 15

  datatype Block = Block(order: nat, free: bool)

  type Heap = map<nat, Block>

  // ---- Well-formed heaps ----

  ghost predicate Covers(h: Heap, a: nat, x: nat) {
    a in h && a <= x < a + BlockSize(h[a].order)
  }

  ghost predicate Covered(h: Heap, x: nat) {
    exists a :: Covers(h, a, x)
  }

  ghost predicate Placed(a: nat, order: nat, base: nat) {
    && order <= MAX_ORDER
    && Aligned(a, order)
    && base <= a && a + BlockSize(order) <= base + HEAP_BYTES
  }

  ghost predicate PlacedIn(h: Heap, a: nat, base: nat) {
    a in h ==> Placed(a, h[a].order, base)
  }

  /** If both are blocks, the lower one ends before the higher one starts. */
  ghost predicate Clear(h: Heap, a: nat, b: nat) {
    a in h && b in h && a < b ==> a + BlockSize(h[a].order) <= b
  }

  ghost predicate Disjoint(h: Heap) {
    forall a, b {:trigger Clear(h, a, b)} :: Clear(h, a, b)
  }

  /** The blocks are aligned to their sizes and tile the heap region exactly. */
  ghost predicate Tiling(h: Heap, base: nat) {
    && base > 0 && Aligned(base, HEAP_ORDER)
    && (forall a {:trigger PlacedIn(h, a, base)} :: PlacedIn(h, a, base))
    && Disjoint(h)
    && (forall x: nat :: base <= x < base + HEAP_BYTES ==> Covered(h, x))
  }

  ghost predicate FreeTwins(h: Heap, x: nat) {
    && x in h && h[x].free && h[x].order < MAX_ORDER
    && Buddy(x, h[x].order) in h && h[Buddy(x, h[x].order)] == h[x]
  }

  /** No two buddies of equal size are both free. */
  ghost predicate Coalesced(h: Heap) {
    forall x {:trigger FreeTwins(h, x)} :: x in h ==> !FreeTwins(h, x)
  }

  /** No two free buddies of equal size, except possibly a pair that contains e. */
  ghost predicate CoalescedBut(h: Heap, e: nat) {
    forall x {:trigger FreeTwins(h, x)} :: x in h && x != e && Buddy(x, h[x].order) != e ==> !FreeTwins(h, x)
  }

  /** The first n top-level blocks of a heap region, all free. */
  function Tops(base: nat, n: nat): Heap {
    if n == 0 then map[] else Tops(base, n - 1)[base + (n - 1) * TOP_BLOCK := Block(MAX_ORDER, true)]
  }

  function Initial(base: nat): Heap {
    Tops(base, NUM_TOP)
  }

  // ---- Operations ----

  predicate CanMerge(h: Heap, a: nat, target: nat) {
    && a in h && h[a].order < target
    && Buddy(a, h[a].order) in h && h[Buddy(a, h[a].order)] == Block(h[a].order, true)
  }

  function Lower(a: nat, order: nat): nat {
    if a < Buddy(a, order) then a else Buddy(a, order)
  }

  function MergeStep(h: Heap, a: nat): Heap
    requires a in h
  {
    (h - {a, Buddy(a, h[a].order)})[Lower(a, h[a].order) := Block(h[a].order + 1, true)]
  }

  /** Merge a with its buddy, the result with its buddy, and so on up to the target order. */
  function MergeUp(h: Heap, a: nat, target: nat): (r: (Heap, nat))
    requires a in h
    ensures r.1 in r.0
    decreases if h[a].order < target then target - h[a].order else 0
  {
    if CanMerge(h, a, target) then MergeUp(MergeStep(h, a), Lower(a, h[a].order), target)
    else (h, a)
  }

  function SplitStep(h: Heap, a: nat): Heap
    requires a in h && h[a].order > 0
  {
    var half := h[a].order - 1;
    h[a := Block(half, true)][a + BlockSize(half) := Block(half, true)]
  }

  /** Halve the block at a, keeping the left half, until it has the target order. */
  function SplitDown(h: Heap, a: nat, target: nat): (r: Heap)
    requires a in h
    ensures a in r
    decreases h[a].order
  {
    if h[a].order > target then SplitDown(SplitStep(h, a), a, target) else h
  }

  function Free(h: Heap, a: nat): Heap
    requires a in h
  {
    MergeUp(h[a := h[a].(free := true)], a, MAX_ORDER).0
  }

  /** Carve a used block of the target order out of the free block at a. */
  function Carve(h: Heap, a: nat, target: nat): Heap
    requires a in h
  {
    SplitDown(h, a, target)[a := Block(target, false)]
  }

  // ---- Geometry of a tiling ----

  lemma TopBlockSize()
    ensures BlockSize(MAX_ORDER) == TOP_BLOCK
    ensures BlockSize(HEAP_ORDER) == HEAP_BYTES
  {
    assert BlockSize(2) == 512;
    assert BlockSize(4) == 2048;
    assert BlockSize(6) == 8192;
    assert BlockSize(8) == 32768;
    assert BlockSize(10) == 131072;
    assert BlockSize(12) == 524288;
    assert BlockSize(14) == 2097152;
  }

  lemma BaseAligned(base: nat, k: nat)
    requires Aligned(base, HEAP_ORDER) && k <= HEAP_ORDER
    ensures Aligned(base, k) && Aligned(base + HEAP_BYTES, k)
  {
    TopBlockSize();
    AlignedNext(base, HEAP_ORDER);
    AlignedSmaller(base, k, HEAP_ORDER);
    AlignedSmaller(base + HEAP_BYTES, k, HEAP_ORDER);
  }

  /** An aligned place below the top order has its buddy inside the heap too. */
  lemma BuddyPlaced(a: nat, k: nat, base: nat)
    requires Aligned(base, HEAP_ORDER) && k < MAX_ORDER && Placed(a, k, base)
    ensures Placed(Buddy(a, k), k, base)
    ensures Placed(Lower(a, k), k + 1, base)
  {
    BuddyGeometry(a, k);
    BaseAligned(base, k + 1);
    var b := Buddy(a, k);
    if a < b {
      AlignedGap(a, base + HEAP_BYTES, k + 1);
    } else if b < base {
      AlignedGap(b, base, k + 1);
    }
  }

  lemma StartInside(h: Heap, base: nat, a: nat, b: nat)
    requires Tiling(h, base) && a in h && Covers(h, b, a)
    ensures a == b
  {
    assert Clear(h, a, b) && Clear(h, b, a);
  }

  /** A block header really sits at the buddy address, even when the buddy has been split. */
  lemma BuddyIsHeader(h: Heap, base: nat, a: nat)
    requires Tiling(h, base) && a in h && h[a].order < MAX_ORDER
    ensures Buddy(a, h[a].order) in h
    ensures h[Buddy(a, h[a].order)].order <= h[a].order
  {
    var k := h[a].order;
    var b := Buddy(a, k);
    assert PlacedIn(h, a, base);
    BuddyPlaced(a, k, base);
    BuddyGeometry(a, k);
    assert Covered(h, b);
    var c :| Covers(h, c, b);
    assert PlacedIn(h, c, base) && Clear(h, a, c) && Clear(h, c, a);
    CoversBuddy(a, k, c, h[c].order);
  }

  // ---- Merging ----

  lemma MergeStepClear(h: Heap, base: nat, a: nat, c: nat, d: nat)
    requires Tiling(h, base) && CanMerge(h, a, MAX_ORDER)
    ensures Clear(MergeStep(h, a), c, d)
  {
    var b := Buddy(a, h[a].order);
    assert PlacedIn(h, a, base);
    BuddyGeometry(a, h[a].order);
    assert Clear(h, c, d) && Clear(h, a, d) && Clear(h, b, d) && Clear(h, c, a) && Clear(h, c, b);
  }

  lemma MergeStepTiling(h: Heap, base: nat, a: nat)
    requires Tiling(h, base) && CanMerge(h, a, MAX_ORDER)
    ensures Tiling(MergeStep(h, a), base)
  {
    var k := h[a].order;
    var b := Buddy(a, k);
    var lo := Lower(a, k);
    var h' := MergeStep(h, a);
    assert PlacedIn(h, a, base);
    BuddyGeometry(a, k);
    BuddyPlaced(a, k, base);
    forall c
      ensures PlacedIn(h', c, base)
    {
      assert PlacedIn(h, c, base);
    }
    forall c, d
      ensures Clear(h', c, d)
    {
      MergeStepClear(h, base, a, c, d);
    }
    forall x: nat | base <= x < base + HEAP_BYTES
      ensures Covered(h', x)
    {
      assert Covered(h, x);
      var c :| Covers(h, c, x);
      assert Covers(h', if c == a || c == b then lo else c, x);
    }
  }

  lemma MergeStepCoalesced(h: Heap, base: nat, a: nat)
    requires Tiling(h, base) && CanMerge(h, a, MAX_ORDER) && CoalescedBut(h, a)
    ensures CoalescedBut(MergeStep(h, a), Lower(a, h[a].order))
  {
    var k := h[a].order;
    var h' := MergeStep(h, a);
    var lo := Lower(a, k);
    assert PlacedIn(h, a, base);
    BuddyGeometry(a, k);
    forall x | x in h' && x != lo && Buddy(x, h'[x].order) != lo
      ensures !FreeTwins(h', x)
    {
      assert x in h && h'[x] == h[x];
      var y := Buddy(x, h[x].order);
      assert y in h' ==> h'[y] == h[y];
      if y in h' {
        assert y != a && !FreeTwins(h, x);
      }
    }
  }

  lemma {:induction false} MergeUpTiling(h: Heap, base: nat, a: nat, target: nat)
    requires Tiling(h, base) && a in h && target <= MAX_ORDER
    ensures Tiling(MergeUp(h, a, target).0, base)
    decreases MAX_ORDER - h[a].order
  {
    if CanMerge(h, a, target) {
      MergeStepTiling(h, base, a);
      MergeUpTiling(MergeStep(h, a), base, Lower(a, h[a].order), target);
    }
  }

  lemma {:induction false} MergeUpCoalesced(h: Heap, base: nat, a: nat, target: nat)
    requires Tiling(h, base) && a in h && CoalescedBut(h, a) && target <= MAX_ORDER
    ensures CoalescedBut(MergeUp(h, a, target).0, MergeUp(h, a, target).1)
    decreases MAX_ORDER - h[a].order
  {
    if CanMerge(h, a, target) {
      var h', lo := MergeStep(h, a), Lower(a, h[a].order);
      MergeStepTiling(h, base, a);
      MergeStepCoalesced(h, base, a);
      MergeUpCoalesced(h', base, lo, target);
      assert MergeUp(h, a, target) == MergeUp(h', lo, target);
    }
  }

  /** The merged block is free, contains the block it grew from, and cannot grow further. */
  lemma {:induction false} MergeUpBlock(h: Heap, base: nat, a: nat, target: nat)
    requires Tiling(h, base) && a in h && h[a].free && h[a].order <= target <= MAX_ORDER
    ensures var r := MergeUp(h, a, target);
            && r.0[r.1].free
            && h[a].order <= r.0[r.1].order <= target
            && !CanMerge(r.0, r.1, target)
            && r.1 <= a && a + BlockSize(h[a].order) <= r.1 + BlockSize(r.0[r.1].order)
    decreases MAX_ORDER - h[a].order
  {
    if CanMerge(h, a, target) {
      var k := h[a].order;
      MergeStepTiling(h, base, a);
      assert PlacedIn(h, a, base);
      BuddyGeometry(a, k);
      MergeUpBlock(MergeStep(h, a), base, Lower(a, k), target);
    }
  }

  /** Merging changes free blocks only: every used block stays, and no new one appears. */
  lemma {:induction false} MergeUpUsed(h: Heap, a: nat, target: nat)
    requires a in h && h[a].free
    ensures var r := MergeUp(h, a, target).0;
            && (forall x :: x in h && !h[x].free ==> x in r && r[x] == h[x])
            && (forall x :: x in r && !r[x].free ==> x in h && r[x] == h[x])
            && (forall x :: x in r ==> x in h)
    decreases if h[a].order < target then target - h[a].order else 0
  {
    if CanMerge(h, a, target) {
      MergeUpUsed(MergeStep(h, a), Lower(a, h[a].order), target);
    }
  }

  // ---- Splitting ----

  lemma SplitStepClear(h: Heap, base: nat, a: nat, c: nat, d: nat)
    requires Tiling(h, base) && a in h && h[a].order > 0
    ensures Clear(SplitStep(h, a), c, d)
    ensures a + BlockSize(h[a].order - 1) !in h
  {
    var r := a + BlockSize(h[a].order - 1);
    assert Clear(h, c, d) && Clear(h, a, d) && Clear(h, c, a) && Clear(h, a, c) && Clear(h, a, r);
  }

  lemma SplitStepCovers(h: Heap, a: nat, x: nat)
    requires a in h && h[a].order > 0 && Covered(h, x) && a + BlockSize(h[a].order - 1) !in h
    ensures Covered(SplitStep(h, a), x)
  {
    var r := a + BlockSize(h[a].order - 1);
    var c: nat :| Covers(h, c, x);
    assert Covers(SplitStep(h, a), if c == a && x >= r then r else c, x);
  }

  lemma SplitStepTiling(h: Heap, base: nat, a: nat)
    requires Tiling(h, base) && a in h && h[a].order > 0
    ensures Tiling(SplitStep(h, a), base)
    ensures a + BlockSize(h[a].order - 1) !in h
  {
    var half := h[a].order - 1;
    var r := a + BlockSize(half);
    var h' := SplitStep(h, a);
    assert PlacedIn(h, a, base);
    AlignedHalves(a, half);
    SplitStepClear(h, base, a, a, a);
    forall c
      ensures PlacedIn(h', c, base)
    {
      assert PlacedIn(h, c, base);
    }
    forall c, d
      ensures Clear(h', c, d)
    {
      SplitStepClear(h, base, a, c, d);
    }
    forall x: nat | base <= x < base + HEAP_BYTES
      ensures Covered(h', x)
    {
      SplitStepCovers(h, a, x);
    }
  }

  lemma SplitStepTwins(h: Heap, base: nat, a: nat, x: nat)
    requires Tiling(h, base) && a in h && h[a].order > 0 && x in SplitStep(h, a)
    requires x != a && Buddy(x, SplitStep(h, a)[x].order) != a
    ensures x in h && SplitStep(h, a)[x] == h[x]
    ensures FreeTwins(SplitStep(h, a), x) ==> FreeTwins(h, x)
  {
    var half := h[a].order - 1;
    var r := a + BlockSize(half);
    assert PlacedIn(h, a, base);
    AlignedHalves(a, half);
    assert x != r;
    assert PlacedIn(h, x, base);
    BuddyGeometry(x, h[x].order);
  }

  lemma SplitStepCoalesced(h: Heap, base: nat, a: nat)
    requires Tiling(h, base) && a in h && h[a].order > 0 && CoalescedBut(h, a)
    ensures CoalescedBut(SplitStep(h, a), a)
  {
    var h' := SplitStep(h, a);
    forall x | x in h' && x != a && Buddy(x, h'[x].order) != a
      ensures !FreeTwins(h', x)
    {
      SplitStepTwins(h, base, a, x);
    }
  }

  lemma {:induction false} SplitDownTiling(h: Heap, base: nat, a: nat, target: nat)
    requires Tiling(h, base) && a in h && h[a].free && h[a].order >= target
    ensures Tiling(SplitDown(h, a, target), base)
    ensures SplitDown(h, a, target)[a] == Block(target, true)
    decreases h[a].order
  {
    if h[a].order > target {
      SplitStepTiling(h, base, a);
      SplitDownTiling(SplitStep(h, a), base, a, target);
    }
  }

  lemma {:induction false} SplitDownCoalesced(h: Heap, base: nat, a: nat, target: nat)
    requires Tiling(h, base) && a in h && CoalescedBut(h, a)
    ensures CoalescedBut(SplitDown(h, a, target), a)
    decreases h[a].order
  {
    if h[a].order > target {
      SplitStepTiling(h, base, a);
      SplitStepCoalesced(h, base, a);
      SplitDownCoalesced(SplitStep(h, a), base, a, target);
      assert SplitDown(h, a, target) == SplitDown(SplitStep(h, a), a, target);
    }
  }

  /** Splitting moves no other block, and the blocks it creates are free. */
  lemma {:induction false} SplitDownOther(h: Heap, base: nat, a: nat, target: nat, x: nat)
    requires Tiling(h, base) && a in h && x != a
    ensures x in h ==> x in SplitDown(h, a, target) && SplitDown(h, a, target)[x] == h[x]
    ensures x in SplitDown(h, a, target) && x !in h ==> SplitDown(h, a, target)[x].free
    decreases h[a].order
  {
    if h[a].order > target {
      SplitStepTiling(h, base, a);
      SplitDownOther(SplitStep(h, a), base, a, target, x);
    }
  }

  /** Changing only the free flag of a block does not disturb the tiling. */
  lemma RemarkTiling(h: Heap, base: nat, a: nat, f: bool)
    requires Tiling(h, base) && a in h
    ensures Tiling(h[a := h[a].(free := f)], base)
  {
    var h' := h[a := h[a].(free := f)];
    forall c
      ensures PlacedIn(h', c, base)
    {
      assert PlacedIn(h, c, base);
    }
    forall c, d
      ensures Clear(h', c, d)
    {
      assert Clear(h, c, d);
    }
    forall x: nat | base <= x < base + HEAP_BYTES
      ensures Covered(h', x)
    {
      assert Covered(h, x);
      var c :| Covers(h, c, x);
      assert Covers(h', c, x);
    }
  }

  lemma UseCoalesced(h: Heap, a: nat)
    requires a in h && CoalescedBut(h, a)
    ensures Coalesced(h[a := h[a].(free := false)])
  {
    var h' := h[a := h[a].(free := false)];
    forall x | x in h'
      ensures !FreeTwins(h', x)
    {
      if x != a && Buddy(x, h[x].order) != a {
        assert !FreeTwins(h, x);
      }
    }
  }

  lemma UnuseCoalesced(h: Heap, a: nat)
    requires a in h && Coalesced(h)
    ensures CoalescedBut(h[a := h[a].(free := true)], a)
  {
    var h' := h[a := h[a].(free := true)];
    forall x | x in h' && x != a && Buddy(x, h'[x].order) != a
      ensures !FreeTwins(h', x)
    {
      assert !FreeTwins(h, x);
    }
  }

  /** When nothing is left to merge at the one exempted block, the heap is coalesced. */
  lemma SettledCoalesced(h: Heap, base: nat, a: nat)
    requires Tiling(h, base) && a in h && h[a].free && CoalescedBut(h, a) && !CanMerge(h, a, MAX_ORDER)
    ensures Coalesced(h)
  {
    forall x | x in h
      ensures !FreeTwins(h, x)
    {
      if FreeTwins(h, x) {
        assert PlacedIn(h, x, base);
        BuddyGeometry(x, h[x].order);
        assert false;
      }
    }
  }

  // ---- Freeing ----

  /** Freeing a used block keeps a coalesced tiling, and the other used blocks. */
  lemma FreeKeeps(h: Heap, base: nat, a: nat)
    requires Tiling(h, base) && Coalesced(h) && a in h && !h[a].free
    ensures Tiling(Free(h, a), base) && Coalesced(Free(h, a))
    ensures forall x :: x in h && !h[x].free && x != a ==> x in Free(h, a) && Free(h, a)[x] == h[x]
    ensures forall x :: x in Free(h, a) && !Free(h, a)[x].free ==> x in h && h[x] == Free(h, a)[x] && x != a
  {
    var h1 := h[a := h[a].(free := true)];
    assert PlacedIn(h, a, base);
    RemarkTiling(h, base, a, true);
    UnuseCoalesced(h, a);
    MergeUpTiling(h1, base, a, MAX_ORDER);
    MergeUpCoalesced(h1, base, a, MAX_ORDER);
    MergeUpBlock(h1, base, a, MAX_ORDER);
    MergeUpUsed(h1, a, MAX_ORDER);
    var r := MergeUp(h1, a, MAX_ORDER);
    SettledCoalesced(r.0, base, r.1);
  }

  /** Carving keeps a coalesced tiling, makes exactly one new used block and moves no other. */
  lemma CarveKeeps(h: Heap, base: nat, a: nat, target: nat)
    requires Tiling(h, base) && Coalesced(h) && a in h && h[a].free && h[a].order >= target
    ensures Tiling(Carve(h, a, target), base) && Coalesced(Carve(h, a, target))
    ensures forall x :: x in h && x != a ==> x in Carve(h, a, target) && Carve(h, a, target)[x] == h[x]
    ensures forall x :: x in Carve(h, a, target) && x !in h ==> Carve(h, a, target)[x].free
  {
    SplitDownTiling(h, base, a, target);
    SplitDownCoalesced(h, base, a, target);
    forall x | x != a
      ensures x in h ==> x in SplitDown(h, a, target) && SplitDown(h, a, target)[x] == h[x]
      ensures x in SplitDown(h, a, target) && x !in h ==> SplitDown(h, a, target)[x].free
    {
      SplitDownOther(h, base, a, target, x);
    }
    var r := SplitDown(h, a, target);
    RemarkTiling(r, base, a, false);
    UseCoalesced(r, a);
  }

  // ---- Allocation is complete: a free region of the right shape is always found ----

  ghost predicate FreePoint(h: Heap, x: nat) {
    exists a :: Covers(h, a, x) && h[a].free
  }

  /** Every byte of the region lies in some free block. */
  ghost predicate FreeRegion(h: Heap, start: nat, order: nat) {
    forall x: nat :: start <= x < start + BlockSize(order) ==> FreePoint(h, x)
  }

  ghost predicate Spans(h: Heap, a: nat, start: nat, order: nat) {
    && a in h && h[a].free && h[a].order >= order
    && a <= start && start + BlockSize(order) <= a + BlockSize(h[a].order)
  }

  lemma TwoHalves(h: Heap, start: nat, half: nat, a: nat, b: nat) returns (c: nat)
    requires Spans(h, a, start, half) && Spans(h, b, start + BlockSize(half), half)
    requires Aligned(a, h[a].order) && Aligned(b, h[b].order) && (h[a].order == half ==> !FreeTwins(h, a))
    requires Aligned(start, half + 1) && half < MAX_ORDER
    ensures Spans(h, c, start, half + 1)
  {
    AlignedHalves(start, half);
    if h[a].order > half {
      c := a;
      DyadicNesting(start, half + 1, a, h[a].order);
    } else if h[b].order > half {
      c := b;
      DyadicNesting(start, half + 1, b, h[b].order);
    } else {
      assert false;
    }
  }

  lemma FreePart(h: Heap, start: nat, order: nat, from: nat, part: nat)
    requires FreeRegion(h, start, order)
    requires start <= from && from + BlockSize(part) <= start + BlockSize(order)
    ensures FreeRegion(h, from, part)
  {
  }

  /** No two equal free buddies inside the region. */
  ghost predicate SettledIn(h: Heap, start: nat, order: nat) {
    forall a :: a in h && start <= a < start + BlockSize(order) && h[a].order < order ==> !FreeTwins(h, a)
  }

  lemma SettledPart(h: Heap, start: nat, order: nat, from: nat, part: nat)
    requires SettledIn(h, start, order) && part <= order
    requires start <= from && from + BlockSize(part) <= start + BlockSize(order)
    ensures SettledIn(h, from, part)
  {
  }

  lemma Joined(h: Heap, start: nat, half: nat, a: nat, b: nat) returns (c: nat)
    requires Spans(h, a, start, half) && Spans(h, b, start + BlockSize(half), half)
    requires Aligned(a, h[a].order) && Aligned(b, h[b].order) && SettledIn(h, start, half + 1)
    requires Aligned(start, half + 1) && half < MAX_ORDER
    ensures Spans(h, c, start, half + 1)
  {
    if h[a].order == half {
      assert !FreeTwins(h, a);
    }
    c := TwoHalves(h, start, half, a, b);
  }

  /** Where no free buddies are left apart, an aligned region made of free blocks lies inside one
      free block. */
  lemma {:induction false} FreeRegionInOneBlock(h: Heap, base: nat, start: nat, order: nat) returns (a: nat)
    requires Tiling(h, base) && SettledIn(h, start, order)
    requires Placed(start, order, base) && FreeRegion(h, start, order)
    ensures Spans(h, a, start, order)
    decreases order
  {
    if order == 0 {
      assert FreePoint(h, start);
      a :| Covers(h, a, start) && h[a].free;
      assert PlacedIn(h, a, base);
      DyadicNesting(start, 0, a, h[a].order);
    } else {
      var half := order - 1;
      var mid := start + BlockSize(half);
      AlignedHalves(start, half);
      FreePart(h, start, order, start, half);
      FreePart(h, start, order, mid, half);
      SettledPart(h, start, order, start, half);
      SettledPart(h, start, order, mid, half);
      var left := FreeRegionInOneBlock(h, base, start, half);
      var right := FreeRegionInOneBlock(h, base, mid, half);
      assert PlacedIn(h, left, base) && PlacedIn(h, right, base);
      a := Joined(h, start, half, left, right);
    }
  }

  ghost predicate RegionAvailable(h: Heap, base: nat, order: nat) {
    exists start :: Placed(start, order, base) && FreeRegion(h, start, order)
  }

  ghost predicate BlockAvailable(h: Heap, order: nat) {
    exists a :: a in h && h[a].free && h[a].order >= order
  }

  /** Some free block is large enough exactly when some aligned region is wholly free. */
  lemma AvailableIffRegion(h: Heap, base: nat, order: nat)
    requires Tiling(h, base) && Coalesced(h)
    ensures RegionAvailable(h, base, order) <==> BlockAvailable(h, order)
  {
    if RegionAvailable(h, base, order) {
      var start :| Placed(start, order, base) && FreeRegion(h, start, order);
      var a := FreeRegionInOneBlock(h, base, start, order);
    }
    if BlockAvailable(h, order) {
      var a :| a in h && h[a].free && h[a].order >= order;
      assert PlacedIn(h, a, base);
      AlignedSmaller(a, order, h[a].order);
      if order < h[a].order {
        BlockSizeMonotone(order, h[a].order);
      }
      forall x: nat | a <= x < a + BlockSize(order)
        ensures FreePoint(h, x)
      {
        assert Covers(h, a, x);
      }
      assert Placed(a, order, base) && FreeRegion(h, a, order);
    }
  }

  // ---- Allocate then free ----

  lemma SplitMergeStep(h: Heap, base: nat, a: nat)
    requires Tiling(h, base) && a in h && h[a].free && 0 < h[a].order
    ensures CanMerge(SplitStep(h, a), a, MAX_ORDER)
    ensures MergeStep(SplitStep(h, a), a) == h
    ensures Lower(a, h[a].order - 1) == a
  {
    SplitStepTiling(h, base, a);
    var half := h[a].order - 1;
    assert PlacedIn(h, a, base);
    AlignedHalves(a, half);
    assert Buddy(a, half) == a + BlockSize(half);
  }

  lemma {:induction false} SplitThenMerge(h: Heap, base: nat, a: nat, target: nat)
    requires Tiling(h, base) && a in h && h[a].free
    ensures MergeUp(SplitDown(h, a, target), a, MAX_ORDER) == MergeUp(h, a, MAX_ORDER)
    decreases h[a].order
  {
    if h[a].order > target {
      SplitStepTiling(h, base, a);
      SplitMergeStep(h, base, a);
      SplitThenMerge(SplitStep(h, a), base, a, target);
    }
  }

  /** Freeing what was just carved restores the block set exactly. */
  lemma FreeUndoesCarve(h: Heap, base: nat, a: nat, target: nat)
    requires Tiling(h, base) && Coalesced(h) && a in h && h[a].free && h[a].order >= target
    ensures Free(Carve(h, a, target), a) == h
  {
    SplitDownTiling(h, base, a, target);
    var s := SplitDown(h, a, target);
    assert Carve(h, a, target)[a := Block(target, true)] == s;
    SplitThenMerge(h, base, a, target);
    assert !FreeTwins(h, a);
  }

  // ---- Freeing everything ----

  /** The top-level region around a block consists of free blocks when all blocks are free. */
  lemma TopRegion(h: Heap, base: nat, a: nat) returns (t: nat)
    requires Tiling(h, base) && a in h
    requires forall a :: a in h ==> h[a].free
    ensures Placed(t, MAX_ORDER, base) && FreeRegion(h, t, MAX_ORDER)
    ensures t <= a < t + TOP_BLOCK
  {
    TopBlockSize();
    assert PlacedIn(h, a, base);
    t := a - a % TOP_BLOCK;
    AlignedIsMultiple(t, MAX_ORDER);
    BaseAligned(base, MAX_ORDER);
    if t < base {
      AlignedGap(t, base, MAX_ORDER);
    }
    AlignedGap(t, base + HEAP_BYTES, MAX_ORDER);
    forall x: nat | t <= x < t + TOP_BLOCK
      ensures FreePoint(h, x)
    {
      assert Covered(h, x);
      var c :| Covers(h, c, x);
      assert h[c].free;
    }
  }

  lemma OneMoreKey(h: Heap, a: nat, b: Block)
    requires a !in h
    ensures |h[a := b]| == |h| + 1
  {
    assert h[a := b].Keys == h.Keys + {a};
  }

  /** The multiples of a top block from n of them to below one more. */
  lemma LastSlot(d: nat, n: nat)
    ensures n * TOP_BLOCK <= d < (n + 1) * TOP_BLOCK && d % TOP_BLOCK == 0 <==> d == n * TOP_BLOCK
  {
  }

  lemma SameMultiple(a: nat, base: nat)
    requires base % TOP_BLOCK == 0 && base <= a
    ensures (a - base) % TOP_BLOCK == 0 <==> a % TOP_BLOCK == 0
  {
  }

  lemma {:induction false} TopsKeys(base: nat, n: nat)
    ensures |Tops(base, n)| == n
    ensures forall a :: a in Tops(base, n) <==> base <= a < base + n * TOP_BLOCK && (a - base) % TOP_BLOCK == 0
    ensures forall a :: a in Tops(base, n) ==> Tops(base, n)[a] == Block(MAX_ORDER, true)
  {
    if n > 0 {
      TopsKeys(base, n - 1);
      var h, last := Tops(base, n - 1), base + (n - 1) * TOP_BLOCK;
      assert Tops(base, n) == h[last := Block(MAX_ORDER, true)];
      OneMoreKey(h, last, Block(MAX_ORDER, true));
      forall a: nat
        ensures a in Tops(base, n) <==> base <= a < base + n * TOP_BLOCK && (a - base) % TOP_BLOCK == 0
      {
        if a >= base {
          LastSlot(a - base, n - 1);
        }
      }
    }
  }

  lemma InitialKeys(base: nat)
    requires Aligned(base, HEAP_ORDER)
    ensures forall a :: a in Initial(base) <==> base <= a < base + HEAP_BYTES && Aligned(a, MAX_ORDER)
    ensures forall a :: a in Initial(base) ==> Initial(base)[a] == Block(MAX_ORDER, true)
  {
    TopsKeys(base, NUM_TOP);
    BaseAligned(base, MAX_ORDER);
    TopBlockSize();
    AlignedIsMultiple(base, MAX_ORDER);
    forall a: nat
      ensures a in Initial(base) <==> base <= a < base + HEAP_BYTES && Aligned(a, MAX_ORDER)
    {
      AlignedIsMultiple(a, MAX_ORDER);
      if base <= a {
        SameMultiple(a, base);
      }
    }
  }

  /** A coalesced tiling without used blocks is the initial heap. */
  lemma AllFreeIsInitial(h: Heap, base: nat)
    requires Tiling(h, base) && Coalesced(h)
    requires forall a :: a in h ==> h[a].free
    ensures h == Initial(base)
  {
    TopBlockSize();
    InitialKeys(base);
    forall a | a in h
      ensures a in Initial(base) && h[a] == Initial(base)[a]
    {
      var t := TopRegion(h, base, a);
      var b := FreeRegionInOneBlock(h, base, t, MAX_ORDER);
      assert Covers(h, b, a) && PlacedIn(h, b, base);
      StartInside(h, base, a, b);
    }
    forall t | t in Initial(base)
      ensures t in h
    {
      BaseAligned(base, MAX_ORDER);
      assert Covered(h, t);
      var a :| Covers(h, a, t);
      assert a in Initial(base) && h[a].order == MAX_ORDER;
      if a < t {
        AlignedGap(a, t, MAX_ORDER);
        assert false;
      }
    }
  }

  /** The blocks freed one after the other. */
  function FreeSeq(h: Heap, s: seq<nat>): Heap
    decreases |s|
  {
    if s == [] || s[0] !in h then h else FreeSeq(Free(h, s[0]), s[1..])
  }

  /** Freeing every used block, in whatever order, restores the initial heap exactly. */
  lemma {:induction false} FreeingAllRestoresInitial(h: Heap, base: nat, s: seq<nat>)
    requires Tiling(h, base) && Coalesced(h)
    requires forall i, j :: 0 <= i < j < |s| ==> s[i] != s[j]
    requires forall a :: a in s <==> a in h && !h[a].free
    ensures FreeSeq(h, s) == Initial(base)
    decreases |s|
  {
    if s == [] {
      forall a | a in h ensures h[a].free {
        assert a !in s;
      }
      AllFreeIsInitial(h, base);
    } else {
      var a := s[0];
      assert a in s;
      FreeKeeps(h, base, a);
      var h' := Free(h, a);
      var rest := s[1..];
      forall x ensures x in rest <==> x in h' && !h'[x].free {
        assert x in s <==> x == a || x in rest;
        if x in rest {
          var i :| 0 <= i < |rest| && rest[i] == x;
          assert s[i + 1] == x;
        }
      }
      FreeingAllRestoresInitial(h', base, rest);
    }
  }

  // ---- Counting ----

  /** Sum of the values of a map. */
  ghost function Sum(m: map<nat, nat>): nat {
    if m == map[] then 0
    else
      var k :| k in m;
      m[k] + Sum(m - {k})
  }

  lemma {:induction false} SumRemove(m: map<nat, nat>, k: nat)
    requires k in m
    ensures Sum(m) == m[k] + Sum(m - {k})
    decreases |m|
  {
    var j :| j in m && Sum(m) == m[j] + Sum(m - {j});
    if j != k {
      SumRemove(m - {j}, k);
      SumRemove(m - {k}, j);
      assert m - {j} - {k} == m - {k} - {j};
    }
  }

  lemma SumAdd(m: map<nat, nat>, k: nat, v: nat)
    requires k !in m
    ensures Sum(m[k := v]) == Sum(m) + v
  {
    SumRemove(m[k := v], k);
    assert m[k := v] - {k} == m;
  }

  /** Payload bytes of the block at an address, if there is one. */
  function Worth(h: Heap, a: nat): nat {
    if a in h then BlockSize(h[a].order) - HEADER else 0
  }

  /** Payload bytes of the blocks of h whose address is in s. */
  ghost function PayloadOver(h: Heap, s: set<nat>): nat {
    if s == {} then 0
    else
      var a :| a in s;
      Worth(h, a) + PayloadOver(h, s - {a})
  }

  lemma {:induction false} PayloadRemove(h: Heap, s: set<nat>, a: nat)
    requires a in s
    ensures PayloadOver(h, s) == Worth(h, a) + PayloadOver(h, s - {a})
    decreases |s|
  {
    var b :| b in s && PayloadOver(h, s) == Worth(h, b) + PayloadOver(h, s - {b});
    if b != a {
      PayloadRemove(h, s - {b}, a);
      assert |s - {a}| < |s|;
      PayloadRemove(h, s - {a}, b);
      assert s - {b} - {a} == s - {a} - {b};
    }
  }

  ghost predicate CoveredBy(h: Heap, s: set<nat>, x: nat) {
    exists a :: a in s && Covers(h, a, x)
  }

  /** Disjoint blocks in s that cover an interval add up to its length. */
  lemma {:induction false} IntervalBytes(h: Heap, s: set<nat>, lo: nat, hi: nat)
    requires lo <= hi && Disjoint(h)
    requires forall a :: a in s ==> a in h && lo <= a && a + BlockSize(h[a].order) <= hi
    requires forall x: nat :: lo <= x < hi ==> CoveredBy(h, s, x)
    ensures PayloadOver(h, s) + HEADER * |s| == hi - lo
    decreases |s|
  {
    if s == {} {
      assert lo < hi ==> CoveredBy(h, s, lo);
    } else {
      var some :| some in s;
      assert CoveredBy(h, s, lo);
      var c :| c in s && Covers(h, c, lo);
      assert c == lo;
      var rest := s - {lo};
      var next := lo + BlockSize(h[lo].order);
      forall a | a in rest
        ensures next <= a && a + BlockSize(h[a].order) <= hi
      {
        assert Clear(h, lo, a);
      }
      forall x: nat | next <= x < hi
        ensures CoveredBy(h, rest, x)
      {
        assert CoveredBy(h, s, x);
        var d :| d in s && Covers(h, d, x);
        assert d in rest;
      }
      IntervalBytes(h, rest, next, hi);
      PayloadRemove(h, s, lo);
    }
  }

  /** Payloads and headers of a tiling fill the heap region exactly. */
  lemma TilingBytes(h: Heap, base: nat)
    requires Tiling(h, base)
    ensures PayloadOver(h, h.Keys) + HEADER * |h| == HEAP_BYTES
  {
    forall a | a in h.Keys
      ensures a in h && base <= a && a + BlockSize(h[a].order) <= base + HEAP_BYTES
    {
      assert PlacedIn(h, a, base);
    }
    forall x: nat | base <= x < base + HEAP_BYTES
      ensures CoveredBy(h, h.Keys, x)
    {
      assert Covered(h, x);
      var a :| Covers(h, a, x);
      assert a in h.Keys;
    }
    IntervalBytes(h, h.Keys, base, base + HEAP_BYTES);
  }

  lemma MergeStepCount(h: Heap, a: nat)
    requires CanMerge(h, a, MAX_ORDER) && Aligned(a, h[a].order)
    ensures |MergeStep(h, a)| == |h| - 1
  {
    var b := Buddy(a, h[a].order);
    BuddyGeometry(a, h[a].order);
    assert (h - {a, b}).Keys == h.Keys - {a, b};
    assert MergeStep(h, a).Keys == (h - {a, b}).Keys + {Lower(a, h[a].order)};
    assert |h.Keys - {a, b}| == |h.Keys| - 2 by {
      assert h.Keys - {a, b} == (h.Keys - {a}) - {b};
    }
  }

  lemma SplitStepCount(h: Heap, base: nat, a: nat)
    requires Tiling(h, base) && a in h && h[a].order > 0
    ensures |SplitStep(h, a)| == |h| + 1
  {
    SplitStepTiling(h, base, a);
    assert SplitStep(h, a).Keys == h.Keys + {a + BlockSize(h[a].order - 1)};
  }

  // ---- The initial heap ----

  lemma SlotOf(x: nat, base: nat) returns (a: nat)
    requires base <= x
    ensures base <= a <= x < a + TOP_BLOCK && (a - base) % TOP_BLOCK == 0
  {
    a := base + (x - base) / TOP_BLOCK * TOP_BLOCK;
  }

  lemma InitialTiling(base: nat)
    requires base > 0 && Aligned(base, HEAP_ORDER)
    ensures Tiling(Initial(base), base) && Coalesced(Initial(base)) && |Initial(base)| == NUM_TOP
  {
    var h := Initial(base);
    InitialKeys(base);
    TopsKeys(base, NUM_TOP);
    TopBlockSize();
    BaseAligned(base, MAX_ORDER);
    forall a
      ensures PlacedIn(h, a, base)
    {
      if a in h {
        AlignedGap(a, base + HEAP_BYTES, MAX_ORDER);
      }
    }
    forall a, b
      ensures Clear(h, a, b)
    {
      if a in h && b in h && a < b {
        AlignedGap(a, b, MAX_ORDER);
      }
    }
    forall x: nat | base <= x < base + HEAP_BYTES
      ensures Covered(h, x)
    {
      var a := SlotOf(x, base);
      assert Covers(h, a, x);
    }
  }

  // ---- How far a block can grow ----

  /** Start of the order-t block that a block of the given order at a lies in. */
  function Ancestor(a: nat, order: nat, t: nat): nat
    decreases if order < t then t - order else 0
  {
    if order < t then Ancestor(Lower(a, order), order + 1, t) else a
  }

  lemma {:induction false} AncestorPlaced(a: nat, order: nat, t: nat, base: nat)
    requires Aligned(base, HEAP_ORDER) && Placed(a, order, base) && order <= t <= MAX_ORDER
    ensures Placed(Ancestor(a, order, t), t, base)
    ensures Ancestor(a, order, t) <= a && a + BlockSize(order) <= Ancestor(a, order, t) + BlockSize(t)
    decreases t - order
  {
    if order < t {
      BuddyPlaced(a, order, base);
      BuddyGeometry(a, order);
      AncestorPlaced(Lower(a, order), order + 1, t, base);
    }
  }

  lemma {:induction false} MergeUpFreePoints(h: Heap, a: nat, target: nat, x: nat)
    requires a in h && h[a].free && FreePoint(MergeUp(h, a, target).0, x)
    requires Aligned(a, h[a].order)
    ensures FreePoint(h, x)
    decreases if h[a].order < target then target - h[a].order else 0
  {
    if CanMerge(h, a, target) {
      var k, lo := h[a].order, Lower(a, h[a].order);
      var h' := MergeStep(h, a);
      BuddyGeometry(a, k);
      MergeUpFreePoints(h', lo, target, x);
      var c :| Covers(h', c, x) && h'[c].free;
      if c == lo {
        assert Covers(h, a, x) || Covers(h, Buddy(a, k), x);
      } else {
        assert Covers(h, c, x);
      }
    }
  }

  lemma OwnRegion(h: Heap, a: nat)
    requires a in h && h[a].free
    ensures FreeRegion(h, a, h[a].order)
  {
    forall x: nat | a <= x < a + BlockSize(h[a].order)
      ensures FreePoint(h, x)
    {
      assert Covers(h, a, x);
    }
  }

  lemma PointAfterMerge(h: Heap, a: nat, x: nat)
    requires CanMerge(h, a, MAX_ORDER) && h[a].free && Aligned(a, h[a].order) && FreePoint(h, x)
    ensures FreePoint(MergeStep(h, a), x)
  {
    var k, lo := h[a].order, Lower(a, h[a].order);
    BuddyGeometry(a, k);
    var c :| Covers(h, c, x) && h[c].free;
    assert Covers(MergeStep(h, a), if c == a || c == Buddy(a, k) then lo else c, x);
  }

  lemma PointBeforeMerge(h: Heap, a: nat, x: nat)
    requires CanMerge(h, a, MAX_ORDER) && h[a].free && Aligned(a, h[a].order) && FreePoint(MergeStep(h, a), x)
    ensures FreePoint(h, x)
  {
    var k, h' := h[a].order, MergeStep(h, a);
    BuddyGeometry(a, k);
    var c :| Covers(h', c, x) && h'[c].free;
    if c == Lower(a, k) {
      assert Covers(h, a, x) || Covers(h, Buddy(a, k), x);
    } else {
      assert Covers(h, c, x);
    }
  }

  lemma RegionThroughMerge(h: Heap, a: nat, start: nat, order: nat)
    requires CanMerge(h, a, MAX_ORDER) && h[a].free && Aligned(a, h[a].order)
    ensures FreeRegion(h, start, order) <==> FreeRegion(MergeStep(h, a), start, order)
  {
    forall x
      ensures FreePoint(h, x) <==> FreePoint(MergeStep(h, a), x)
    {
      if FreePoint(h, x) {
        PointAfterMerge(h, a, x);
      } else if FreePoint(MergeStep(h, a), x) {
        PointBeforeMerge(h, a, x);
      }
    }
  }

  lemma SpanningIsItself(h: Heap, b: nat, c: nat, k: nat)
    requires Disjoint(h) && b in h && h[b].order <= k && Spans(h, c, b, k)
    ensures c == b && h[b] == Block(k, true)
  {
    assert Clear(h, c, b) && Clear(h, b, c);
  }

  lemma SettledBuddy(h: Heap, base: nat, a: nat)
    requires Tiling(h, base) && a in h && CoalescedBut(h, a) && h[a].order < MAX_ORDER
    ensures SettledIn(h, Buddy(a, h[a].order), h[a].order)
  {
    var k := h[a].order;
    var b := Buddy(a, k);
    assert PlacedIn(h, a, base);
    BuddyGeometry(a, k);
    forall x | x in h && b <= x < b + BlockSize(k) && h[x].order < k
      ensures !FreeTwins(h, x)
    {
      assert PlacedIn(h, x, base);
      var y := Buddy(x, h[x].order);
      BuddyGeometry(x, h[x].order);
      DyadicNesting(Lower(x, h[x].order), h[x].order + 1, b, k);
      assert y != a;
    }
  }

  /** A free region around a block would make its buddy mergeable. */
  /** The buddy lies in every larger aligned region that its block lies in. */
  lemma BuddyInRegion(a: nat, k: nat, target: nat, base: nat)
    requires Aligned(base, HEAP_ORDER) && Placed(a, k, base) && k < target <= MAX_ORDER
    ensures Ancestor(a, k, target) <= Buddy(a, k)
    ensures Buddy(a, k) + BlockSize(k) <= Ancestor(a, k, target) + BlockSize(target)
  {
    BuddyPlaced(a, k, base);
    BuddyGeometry(a, k);
    AncestorPlaced(Lower(a, k), k + 1, target, base);
  }

  lemma StuckRegion(h: Heap, base: nat, a: nat, start: nat, target: nat)
    requires Tiling(h, base) && a in h && CoalescedBut(h, a) && h[a].order < target <= MAX_ORDER
    requires start == Ancestor(a, h[a].order, target) && FreeRegion(h, start, target)
    ensures CanMerge(h, a, target)
  {
    var k := h[a].order;
    var b := Buddy(a, k);
    assert PlacedIn(h, a, base);
    BuddyPlaced(a, k, base);
    BuddyGeometry(a, k);
    BuddyInRegion(a, k, target, base);
    FreePart(h, start, target, b, k);
    SettledBuddy(h, base, a);
    var c := FreeRegionInOneBlock(h, base, b, k);
    BuddyIsHeader(h, base, a);
    SpanningIsItself(h, b, c, k);
  }

  /** Merging reaches the target order exactly when the whole surrounding region of that order is
      free. */
  lemma {:induction false} GrowsIffRegionFree(h: Heap, base: nat, a: nat, target: nat)
    requires Tiling(h, base) && a in h && h[a].free && CoalescedBut(h, a)
    requires h[a].order <= target <= MAX_ORDER
    ensures var r := MergeUp(h, a, target);
            r.0[r.1].order == target <==> FreeRegion(h, Ancestor(a, h[a].order, target), target)
    decreases MAX_ORDER - h[a].order
  {
    assert PlacedIn(h, a, base);
    var k := h[a].order;
    var start := Ancestor(a, k, target);
    AncestorPlaced(a, k, target, base);
    if k == target {
      OwnRegion(h, a);
    } else if CanMerge(h, a, target) {
      MergeStepTiling(h, base, a);
      MergeStepCoalesced(h, base, a);
      GrowsIffRegionFree(MergeStep(h, a), base, Lower(a, k), target);
      RegionThroughMerge(h, a, start, target);
    } else if FreeRegion(h, start, target) {
      StuckRegion(h, base, a, start, target);
    }
  }
}
