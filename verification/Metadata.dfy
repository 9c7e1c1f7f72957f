/** Headers and mappings in memory: how the granules of the allocator's memory stand for a block
    map and for the live mmap blocks, and what header writes do to that. */
module Metadata {
  import opened Basics
  import opened Dyadic
  import opened Blocks
  import opened FreeLists

  const MAX_ALLOCATION := 100000000
  const MMAP_LIMIT := 131072

  datatype Offsets = Offsets(blocks: int, metadata: int, bytes: int)

  // ---- Orders ----

  /** order is the least one whose blocks hold fullSize bytes, -1 if even the largest do not. */
  ghost predicate LeastOrder(fullSize: nat, order: int) {
    && -1 <= order <= MAX_ORDER
    && (order >= 0 ==> BlockSize(order) >= fullSize)
    && (forall j: nat :: j <= MAX_ORDER && (order == -1 || j < order) ==> BlockSize(j) < fullSize)
  }

  lemma LeastOrderExists(fullSize: nat, order: int)
    requires LeastOrder(fullSize, order)
    ensures order >= 0 <==> fullSize <= TOP_BLOCK
  {
    TopBlockSize();
    if order >= 0 && order < MAX_ORDER {
      BlockSizeMonotone(order, MAX_ORDER);
    }
  }

  lemma LeastOrderUnique(fullSize: nat, o1: int, o2: int)
    requires LeastOrder(fullSize, o1) && LeastOrder(fullSize, o2)
    ensures o1 == o2
  {
    LeastOrderExists(fullSize, o1);
    LeastOrderExists(fullSize, o2);
  }

  lemma LeastOrderOfBlock(k: nat, slack: nat, order: int)
    requires k <= MAX_ORDER && slack <= HEADER && LeastOrder(BlockSize(k) - slack, order)
    ensures order == k
  {
    forall j: nat | j < k
      ensures BlockSize(j) < BlockSize(k) - slack
    {
      BlockSizeMonotone(j, k);
    }
    LeastOrderUnique(BlockSize(k) - slack, order, k);
  }

  method OrderFor(fullSize: nat) returns (order: int)
    ensures LeastOrder(fullSize, order)
  {
    order := 0;
    while order <= MAX_ORDER
      invariant 0 <= order <= MAX_ORDER + 1
      invariant forall j: nat :: j < order ==> BlockSize(j) < fullSize
    {
      if BlockSize(order) >= fullSize {
        return;
      }
      order := order + 1;
    }
    order := -1;
  }

  /** Only blocks of the largest order hold this many bytes. */
  predicate TopOnly(fullSize: nat) {
    TOP_BLOCK / 2 < fullSize <= TOP_BLOCK
  }

  lemma TopOnlyIsTop(fullSize: nat, order: int)
    requires LeastOrder(fullSize, order)
    ensures TopOnly(fullSize) <==> order == MAX_ORDER
  {
    TopBlockSize();
    assert BlockSize(MAX_ORDER) == 2 * BlockSize(MAX_ORDER - 1);
    if 0 <= order < MAX_ORDER - 1 {
      BlockSizeMonotone(order, MAX_ORDER - 1);
    }
  }

  lemma NotTop(k: nat)
    requires k < MAX_ORDER
    ensures !TopOnly(BlockSize(k))
  {
    TopBlockSize();
    BlockSizeMonotone(k, MAX_ORDER);
  }

  // ---- Headers ----

  ghost predicate HeaderAt(m: Memory, a: nat, b: Block) {
    At(m, a).size == BlockSize(b.order) - HEADER && At(m, a).isFree == b.free
  }

  ghost predicate Headers(m: Memory, h: Heap) {
    forall a :: a in h ==> HeaderAt(m, a, h[a])
  }

  function InitializeMeta(m: Memory, block: nat, size: nat, free: bool, next: nat, prev: nat): Memory {
    if block == NULL then m else m[block := At(m, block).(size := size, isFree := free, next := next, prev := prev)]
  }

  /** Memory changed at most at the block starts of h. */
  ghost predicate Untouched(m: Memory, m': Memory, h: Heap) {
    forall x :: x !in h ==> At(m', x) == At(m, x)
  }

  lemma UntouchedTwice(m: Memory, m1: Memory, m2: Memory, h: Heap, h1: Heap)
    requires Untouched(m, m1, h) && Untouched(m1, m2, h1) && h.Keys <= h1.Keys
    ensures Untouched(m, m2, h1)
  {
    forall x | x !in h1
      ensures At(m2, x) == At(m, x)
    {
      assert x !in h.Keys && x !in h1.Keys;
    }
  }

  lemma UntouchedTrans(m: Memory, m1: Memory, m2: Memory, h: Heap, h1: Heap)
    requires Untouched(m, m1, h) && Untouched(m1, m2, h1) && h1.Keys <= h.Keys
    ensures Untouched(m, m2, h)
  {
    forall x | x !in h
      ensures At(m2, x) == At(m, x)
    {
      assert x !in h.Keys && x !in h1.Keys;
    }
  }

  /** Memory changed at most at the block starts of h and at the starts of mappings. */
  ghost predicate SameOutside(m: Memory, m': Memory, h: Heap, mmaps: map<nat, nat>) {
    forall x {:trigger At(m', x)} :: x !in h && x !in mmaps ==> At(m', x) == At(m, x)
  }

  ghost predicate OnlyAt(m: Memory, m': Memory, a: nat, b: nat) {
    forall x {:trigger At(m', x)} :: x != a && x != b ==> At(m', x) == At(m, x)
  }

  /** Memory changed at most in link fields. */
  ghost predicate SameBut(m: Memory, m': Memory) {
    forall x {:trigger At(m', x)} :: SameData(At(m, x), At(m', x))
  }

  ghost predicate SameDataBut(m: Memory, m': Memory, a: nat) {
    forall x {:trigger At(m', x)} :: x != a ==> SameData(At(m, x), At(m', x))
  }

  lemma LinksKeepHeaders(m: Memory, m': Memory, h: Heap)
    requires SameBut(m, m') && Headers(m, h)
    ensures Headers(m', h)
  {
    forall a | a in h
      ensures HeaderAt(m', a, h[a])
    {
      assert HeaderAt(m, a, h[a]) && SameData(At(m, a), At(m', a));
    }
  }

  ghost predicate SameSizes(m: Memory, m': Memory) {
    forall x {:trigger At(m', x)} :: At(m', x).size == At(m, x).size
  }

  lemma SizesKept(m: Memory, m1: Memory, m2: Memory, a: nat)
    requires At(m1, a).size == At(m, a).size && (forall x :: x != a ==> At(m1, x) == At(m, x)) && SameBut(m1, m2)
    ensures SameSizes(m, m2)
  {
    forall x
      ensures At(m2, x).size == At(m, x).size
    {
      assert SameData(At(m1, x), At(m2, x));
    }
  }

  lemma RemarkAlt(h: Heap, a: nat, b: Block)
    requires a in h
    ensures (h - {a})[a := b] == h[a := b]
  {
  }

  /** Writing a free flag (and links) into one block's header. */
  lemma MarkedHeaders(m0: Memory, m: Memory, m': Memory, h: Heap, a: nat, f: bool)
    requires Headers(m0, h) && SameBut(m0, m) && a in h
    requires At(m', a).size == At(m, a).size && At(m', a).isFree == f
    requires forall x :: x != a ==> At(m', x) == At(m, x)
    ensures Headers(m', h[a := Block(h[a].order, f)])
  {
    var h' := h[a := Block(h[a].order, f)];
    forall x | x in h'
      ensures HeaderAt(m', x, h'[x])
    {
      assert HeaderAt(m0, x, h[x]) && SameData(At(m0, x), At(m, x));
    }
  }

  // ---- Free lists ----

  ghost predicate Listed(list: seq<seq<nat>>, k: nat, a: nat) {
    k < |list| && a in list[k]
  }

  /** List k holds exactly the free blocks of order k. */
  ghost predicate Agree(list: seq<seq<nat>>, h: Heap) {
    && |list| == LISTS
    && (forall k, a {:trigger Listed(list, k, a)} :: Listed(list, k, a) ==> a in h && h[a] == Block(k, true))
    && (forall a {:trigger h[a]} :: a in h && h[a].free && h[a].order < LISTS ==> Listed(list, h[a].order, a))
  }

  lemma ListedNotNull(m: Memory, head: seq<nat>, list: seq<seq<nat>>, k: nat, a: nat)
    requires Linked(m, head, list) && k < LISTS && a in list[k]
    ensures a != NULL
  {
    assert ListOk(m, head, list, k);
    ChainNonNull(m, head[k], list[k]);
  }

  lemma AgreeRemove(list: seq<seq<nat>>, list': seq<seq<nat>>, h: Heap, k: nat, a: nat)
    requires Agree(list, h) && k < LISTS && a in h && h[a] == Block(k, true)
    requires |list'| == LISTS && list' == list[k := list'[k]] && Reduced(list[k], a, list'[k])
    ensures Agree(list', h - {a})
  {
    var h' := h - {a};
    forall j, x | Listed(list', j, x)
      ensures x in h' && h'[x] == Block(j, true)
    {
      assert Listed(list, j, x);
    }
    forall x | x in h' && h'[x].free && h'[x].order < LISTS
      ensures Listed(list', h'[x].order, x)
    {
      assert Listed(list, h[x].order, x);
    }
  }

  lemma AgreeInsert(list: seq<seq<nat>>, list': seq<seq<nat>>, h: Heap, k: nat, a: nat)
    requires Agree(list, h) && k < LISTS && (a in h ==> !h[a].free)
    requires |list'| == LISTS && list' == list[k := list'[k]] && Extended(list[k], a, list'[k])
    ensures Agree(list', h[a := Block(k, true)])
  {
    var h' := h[a := Block(k, true)];
    forall j, x | Listed(list', j, x)
      ensures x in h' && h'[x] == Block(j, true)
    {
      assert Listed(list, j, x) || (j == k && x == a);
    }
    forall x | x in h' && h'[x].free && h'[x].order < LISTS
      ensures Listed(list', h'[x].order, x)
    {
      assert x != a ==> Listed(list, h[x].order, x);
    }
  }

  lemma AgreeUsed(list: seq<seq<nat>>, h: Heap, a: nat, k: nat)
    requires Agree(list, h) && (a in h ==> !h[a].free)
    ensures Agree(list, h[a := Block(k, false)])
    ensures Agree(list, h - {a})
    ensures Unlisted(list, a)
  {
    forall j | 0 <= j < |list|
      ensures a !in list[j]
    {
      assert !Listed(list, j, a);
    }
    forall x | x in h && h[x].free && h[x].order < LISTS
      ensures Listed(list, h[x].order, x) && x != a
    {
    }
    forall j, x | Listed(list, j, x)
      ensures x in h && h[x] == Block(j, true) && x != a
    {
    }
  }

  lemma LinksUntouched(m: Memory, m': Memory, list: seq<seq<nat>>, k: nat, h: Heap)
    requires Agree(list, h) && k < LISTS && OnlyLinks(m, m', list[k])
    ensures Untouched(m, m', h)
  {
    forall x | x !in h
      ensures At(m', x) == At(m, x)
    {
      assert !Listed(list, k, x);
    }
  }

  /** a is the lowest-addressed free block of order k. */
  ghost predicate LowestOf(h: Heap, k: nat, a: nat) {
    a in h && h[a] == Block(k, true) && forall b :: b in h && h[b] == Block(k, true) ==> a <= b
  }

  lemma FirstOfList(m: Memory, head: seq<nat>, list: seq<seq<nat>>, h: Heap, k: nat)
    requires Linked(m, head, list) && Agree(list, h) && k < LISTS
    ensures head[k] != NULL ==> list[k] != [] && list[k][0] == head[k] && LowestOf(h, k, head[k])
    ensures head[k] != NULL ==> Reduced(list[k], head[k], list[k][1..])
    ensures head[k] == NULL ==> list[k] == [] && forall b :: b in h ==> h[b] != Block(k, true)
  {
    assert ListOk(m, head, list, k);
    ChainNonNull(m, head[k], list[k]);
    forall b | b in h && h[b] == Block(k, true)
      ensures head[k] != NULL && head[k] <= b
    {
      assert Listed(list, k, b);
    }
    if head[k] != NULL {
      assert Listed(list, k, head[k]);
      forall x ensures x in list[k][1..] <==> x != head[k] && x in list[k] {
        TailElement(list[k], x);
      }
    }
  }

  lemma ListHeadIs(m: Memory, head: seq<nat>, list: seq<seq<nat>>, h: Heap, k: nat, a: nat)
    requires Linked(m, head, list) && Agree(list, h) && k < LISTS && LowestOf(h, k, a)
    ensures head[k] == a && a != NULL
  {
    FirstOfList(m, head, list, h, k);
    assert Listed(list, k, a);
    ListedNotNull(m, head, list, k, a);
  }

  // ---- mmap blocks ----

  /** How many 32-byte granules n bytes take. */
  function Granules(n: nat): nat {
    (n + 31) / 32
  }

  /** Bytes, in whole granules, that a block with n payload bytes spans, header included. */
  function Extent(n: nat): nat {
    HEADER + Granules(n) * 32
  }

  lemma WholeGranules(g: nat)
    ensures (32 * g) % 32 == 0 && Granules(32 * g) == g
  {
  }

  lemma {:induction false} BlockSizes(k: nat) returns (q: nat)
    ensures q > 0 && BlockSize(k) == 128 * q
  {
    q := 1;
    if k > 0 {
      var half := BlockSizes(k - 1);
      q := 2 * half;
    }
  }

  lemma BlockSizeGranular(k: nat)
    ensures BlockSize(k) % 128 == 0 && (BlockSize(k) - HEADER) % 32 == 0
    ensures Extent(BlockSize(k) - HEADER) == BlockSize(k)
  {
    var q := BlockSizes(k);
    ModOfProduct(q, 128);
    WholeGranules(4 * q - 1);
  }

  ghost predicate OutsideHeap(a: nat, n: nat, init: bool, base: nat) {
    init ==> a + Extent(n) <= base || base + HEAP_BYTES <= a
  }

  ghost predicate MmapOk(m: Memory, mmaps: map<nat, nat>, init: bool, base: nat, a: nat) {
    a in mmaps ==>
      && a != NULL && At(m, a).size == mmaps[a] && !At(m, a).isFree
      && mmaps[a] + HEADER > MMAP_LIMIT && OutsideHeap(a, mmaps[a], init, base)
  }

  ghost predicate MmapClear(mmaps: map<nat, nat>, a: nat, b: nat) {
    a in mmaps && b in mmaps && a < b ==> a + Extent(mmaps[a]) <= b
  }

  /** Every mapping has its header, lies outside the heap, and overlaps no other mapping. */
  ghost predicate Mapped(m: Memory, mmaps: map<nat, nat>, init: bool, base: nat) {
    && (forall a {:trigger MmapOk(m, mmaps, init, base, a)} :: MmapOk(m, mmaps, init, base, a))
    && (forall a, b {:trigger MmapClear(mmaps, a, b)} :: MmapClear(mmaps, a, b))
  }

  /** What the operating system promises about a new mapping. */
  ghost predicate FreshMapping(mmaps: map<nat, nat>, init: bool, base: nat, block: nat, size: nat) {
    && block != NULL && OutsideHeap(block, size, init, base)
    && forall a :: a in mmaps ==> a + Extent(mmaps[a]) <= block || block + Extent(size) <= a
  }

  lemma MappingOutside(h: Heap, base: nat, init: bool, list: seq<seq<nat>>, block: nat)
    requires if init then Tiling(h, base) else h == map[]
    requires OutsideHeap(block, 0, init, base) && Agree(list, h)
    ensures block !in h && Unlisted(list, block)
  {
    assert PlacedIn(h, block, base);
    forall k | 0 <= k < |list|
      ensures block !in list[k]
    {
      assert !Listed(list, k, block);
    }
  }

  lemma HeadersOutside(m: Memory, m': Memory, h: Heap, block: nat)
    requires Headers(m, h) && block !in h
    requires forall x :: x != block ==> At(m', x) == At(m, x)
    ensures Headers(m', h)
  {
    forall a | a in h
      ensures HeaderAt(m', a, h[a])
    {
      assert HeaderAt(m, a, h[a]);
    }
  }

  lemma MappedAdd(m: Memory, m': Memory, mmaps: map<nat, nat>, init: bool, base: nat, block: nat, size: nat)
    requires Mapped(m, mmaps, init, base) && FreshMapping(mmaps, init, base, block, size)
    requires size + HEADER > MMAP_LIMIT && At(m', block).size == size && !At(m', block).isFree
    requires forall x :: x != block ==> At(m', x) == At(m, x)
    ensures Mapped(m', mmaps[block := size], init, base) && block !in mmaps
  {
    var mm := mmaps[block := size];
    forall a
      ensures MmapOk(m', mm, init, base, a)
    {
      assert MmapOk(m, mmaps, init, base, a);
    }
    forall a, b
      ensures MmapClear(mm, a, b)
    {
      assert MmapClear(mmaps, a, b);
    }
  }

  lemma MappedRemove(m: Memory, mmaps: map<nat, nat>, init: bool, base: nat, block: nat)
    requires Mapped(m, mmaps, init, base)
    ensures Mapped(m, mmaps - {block}, init, base)
  {
    var mm := mmaps - {block};
    forall a
      ensures MmapOk(m, mm, init, base, a)
    {
      assert MmapOk(m, mmaps, init, base, a);
    }
    forall a, b
      ensures MmapClear(mm, a, b)
    {
      assert MmapClear(mmaps, a, b);
    }
  }

  /** Writes at block starts of the heap do not reach the mappings. */
  lemma MappedFrame(m: Memory, m': Memory, mmaps: map<nat, nat>, init: bool, base: nat, h: Heap)
    requires Mapped(m, mmaps, init, base) && Untouched(m, m', h)
    requires if init then Tiling(h, base) else h == map[]
    ensures Mapped(m', mmaps, init, base)
  {
    forall a
      ensures MmapOk(m', mmaps, init, base, a)
    {
      assert MmapOk(m, mmaps, init, base, a);
      if a in mmaps {
        assert a !in h by { assert PlacedIn(h, a, base); }
      }
    }
  }

  // ---- Setting up the heap ----

  /** The lowest 4 MB boundary at or above the program break. */
  function HeapBase(brk: nat): nat {
    brk + (if brk % HEAP_BYTES == 0 then 0 else HEAP_BYTES - brk % HEAP_BYTES)
  }

  lemma HeapBaseAligned(brk: nat)
    ensures Aligned(HeapBase(brk), HEAP_ORDER)
    ensures brk <= HeapBase(brk) < brk + HEAP_BYTES
  {
    TopBlockSize();
    AlignedIsMultiple(HeapBase(brk), HEAP_ORDER);
  }

  ghost predicate BreakClear(mmaps: map<nat, nat>, start: nat) {
    forall a :: a in mmaps ==> OutsideHeap(a, mmaps[a], true, start)
  }

  lemma MappedInit(m: Memory, m': Memory, mmaps: map<nat, nat>, init: bool, base0: nat, base: nat, h: Heap)
    requires Mapped(m, mmaps, false, base0) && Untouched(m, m', h)
    requires init ==> BreakClear(mmaps, base)
    requires if init then Tiling(h, base) else h == map[]
    ensures Mapped(m', mmaps, init, base)
  {
    forall a
      ensures MmapOk(m', mmaps, init, base, a)
    {
      assert MmapOk(m, mmaps, false, base0, a);
      if a in mmaps && init {
        assert OutsideHeap(a, mmaps[a], true, base);
        assert a !in h by { assert PlacedIn(h, a, base); }
      }
    }
  }

  ghost predicate PrimedAt(m: Memory, start: nat, i: nat, j: nat) {
    var g := At(m, start + j * TOP_BLOCK);
    && g.size == TOP_BLOCK - HEADER && g.isFree
    && g.next == (if j + 1 < i then start + (j + 1) * TOP_BLOCK else NULL)
    && g.prev == (if j > 0 then start + (j - 1) * TOP_BLOCK else NULL)
  }

  /** The first i top-level blocks carry their headers and are chained to each other. */
  ghost predicate Primed(m: Memory, start: nat, i: nat) {
    forall j: nat {:trigger PrimedAt(m, start, i, j)} :: j < i ==> PrimedAt(m, start, i, j)
  }

  lemma PrimedStep(m: Memory, m': Memory, m0: Memory, start: nat, i: nat)
    requires 1 <= i && start > 0 && Primed(m, start, i) && Untouched(m0, m, Tops(start, i))
    requires var curr, prev := start + i * TOP_BLOCK, start + (i - 1) * TOP_BLOCK;
             var m1 := InitializeMeta(m, curr, TOP_BLOCK - HEADER, true, NULL, prev);
             m' == m1[prev := At(m1, prev).(next := curr)]
    ensures Primed(m', start, i + 1) && Untouched(m0, m', Tops(start, i + 1))
  {
    forall j: nat {:trigger PrimedAt(m', start, i + 1, j)} | j < i + 1
      ensures PrimedAt(m', start, i + 1, j)
    {
      assert j < i ==> PrimedAt(m, start, i, j);
    }
    TopsKeys(start, i);
    TopsKeys(start, i + 1);
    assert start + (i - 1) * TOP_BLOCK in Tops(start, i);
    forall x | x !in Tops(start, i + 1)
      ensures At(m', x) == At(m0, x)
    {
      assert x !in Tops(start, i);
    }
  }

  function TopList(start: nat): seq<nat> {
    seq(NUM_TOP, j requires 0 <= j => start + j * TOP_BLOCK)
  }

  lemma EmptyLists(m: Memory, head: seq<nat>, list: seq<seq<nat>>)
    requires Linked(m, head, list) && Agree(list, map[])
    ensures forall k :: 0 <= k < LISTS ==> list[k] == [] && head[k] == NULL
  {
    forall k | 0 <= k < LISTS
      ensures list[k] == [] && head[k] == NULL
    {
      assert ListOk(m, head, list, k);
      if list[k] != [] {
        assert Listed(list, k, list[k][0]);
      }
    }
  }

  lemma TopListMembers(start: nat, a: nat)
    requires Aligned(start, HEAP_ORDER)
    ensures a in TopList(start) <==> a in Initial(start)
    ensures a in Initial(start) ==> Initial(start)[a] == Block(MAX_ORDER, true)
  {
    var n := NUM_TOP;
    TopsKeys(start, n);
    if a in Tops(start, n) {
      assert TopList(start)[(a - start) / TOP_BLOCK] == a;
    }
  }

  lemma PrimedChain(m: Memory, start: nat)
    requires start > 0 && Primed(m, start, NUM_TOP)
    ensures Chain(m, start, TopList(start)) && Sorted(TopList(start))
  {
    forall j | 0 <= j < NUM_TOP
      ensures ChainedAt(m, TopList(start), j)
    {
      assert PrimedAt(m, start, NUM_TOP, j);
    }
  }

  lemma PrimedHeaders(m: Memory, start: nat)
    requires Aligned(start, HEAP_ORDER) && Primed(m, start, NUM_TOP)
    ensures Headers(m, Initial(start))
  {
    TopBlockSize();
    forall a | a in Initial(start)
      ensures HeaderAt(m, a, Initial(start)[a])
    {
      TopListMembers(start, a);
      var j :| 0 <= j < NUM_TOP && TopList(start)[j] == a;
      assert PrimedAt(m, start, NUM_TOP, j);
    }
  }

  lemma PrimedLinked(m: Memory, head: seq<nat>, list: seq<seq<nat>>, start: nat)
    requires start > 0 && Aligned(start, HEAP_ORDER) && Primed(m, start, NUM_TOP)
    requires |head| == |list| == LISTS && head[MAX_ORDER] == start && list[MAX_ORDER] == TopList(start)
    requires forall k :: 0 <= k < MAX_ORDER ==> list[k] == [] && head[k] == NULL
    ensures Linked(m, head, list) && Agree(list, Initial(start))
  {
    PrimedChain(m, start);
    forall k | 0 <= k < LISTS
      ensures ListOk(m, head, list, k)
    {
    }
    forall k, a | Listed(list, k, a)
      ensures a in Initial(start) && Initial(start)[a] == Block(k, true)
    {
      TopListMembers(start, a);
    }
    forall a | a in Initial(start)
      ensures Listed(list, MAX_ORDER, a)
    {
      TopListMembers(start, a);
    }
  }

  // ---- Splitting ----

  ghost predicate NoFreeBetween(h: Heap, low: nat, high: nat) {
    forall b :: b in h && h[b].free ==> !(low <= h[b].order < high)
  }

  /** The block that allocation takes: of the smallest sufficient order present, the lowest address. */
  ghost predicate BestFit(h: Heap, target: nat, a: nat) {
    && a in h && h[a].free && target <= h[a].order
    && NoFreeBetween(h, target, h[a].order)
    && LowestOf(h, h[a].order, a)
  }

  lemma NoneAvailable(h: Heap, base: nat, low: nat, high: nat)
    requires NoFreeBetween(h, low, high) && high > MAX_ORDER
    requires h != map[] ==> Tiling(h, base)
    ensures !BlockAvailable(h, low)
  {
    forall a | a in h && h[a].free
      ensures h[a].order < low
    {
      assert PlacedIn(h, a, base);
    }
  }

  /** The guard's size test says exactly that the target order is still below the block's order. */
  lemma HalfFits(h: Heap, a: nat, m: Memory, requestedSize: nat, target: nat)
    requires Headers(m, h) && a in h && 0 < h[a].order <= MAX_ORDER && LeastOrder(requestedSize + HEADER, target)
    ensures (At(m, a).size + HEADER) / 2 - HEADER >= requestedSize <==> target < h[a].order
  {
    var k := h[a].order;
    assert HeaderAt(m, a, h[a]);
    if target < k - 1 {
      BlockSizeMonotone(target, k - 1);
    }
    if k <= target {
      assert BlockSize(k - 1) < requestedSize + HEADER;
    }
  }

  lemma SplitStepAlt(h: Heap, a: nat)
    requires a in h && h[a].order > 0
    ensures var half := h[a].order - 1;
            (h - {a})[a := Block(half, true)][a + BlockSize(half) := Block(half, true)] == SplitStep(h, a)
  {
  }

  lemma HalvesHeaders(m0: Memory, m: Memory, m': Memory, h: Heap, a: nat, right: nat)
    requires Headers(m0, h) && SameBut(m0, m) && a in h && h[a].order > 0
    requires right == a + BlockSize(h[a].order - 1) && right !in h
    requires HeaderAt(m', a, Block(h[a].order - 1, true)) && HeaderAt(m', right, Block(h[a].order - 1, true))
    requires OnlyAt(m, m', a, right)
    ensures Headers(m', SplitStep(h, a))
  {
    var h' := SplitStep(h, a);
    forall x | x in h'
      ensures HeaderAt(m', x, h'[x])
    {
      if x != a && x != right {
        assert HeaderAt(m0, x, h[x]) && SameData(At(m0, x), At(m, x));
      }
    }
  }

  lemma CarveIs(h: Heap, a: nat, target: nat)
    requires a in h
    ensures Carve(h, a, target) == SplitDown(h, a, target)[a := Block(target, false)]
  {
  }

  /** Part of the way down: a is the only candidate left at the current order. */
  ghost predicate Narrowed(h0: Heap, h: Heap, a: nat, target: nat, order: nat) {
    && LowestOf(h, order, a) && NoFreeBetween(h, target, order)
    && a in h0 && SplitDown(h, a, target) == SplitDown(h0, a, target)
  }

  lemma NarrowedNext(h0: Heap, h: Heap, base: nat, a: nat, target: nat, order: nat)
    requires Narrowed(h0, h, a, target, order) && target < order && Tiling(h, base)
    ensures Narrowed(h0, SplitStep(h, a), a, target, order - 1)
    ensures h.Keys <= SplitStep(h, a).Keys
  {
    var h' := SplitStep(h, a);
    forall b | b in h' && h'[b].free
      ensures !(target <= h'[b].order < order - 1)
      ensures h'[b].order == order - 1 ==> a <= b
    {
      assert b == a || b == a + BlockSize(order - 1) || (b in h && h[b] == h'[b]);
    }
  }

  // ---- Merging ----

  /** A block's own header, possibly stale after a merge, still describes memory inside the
      merged block and not less of it than before. */
  ghost predicate StaleHeader(m: Memory, m': Memory, a: nat, r: (Heap, nat)) {
    && r.1 in r.0
    && At(m, a).size <= At(m', a).size && At(m', a).size % 32 == 0
    && r.1 <= a && a + HEADER + At(m', a).size <= r.1 + BlockSize(r.0[r.1].order)
  }

  /** Merging two blocks and listing the result, seen together. */
  lemma MergedFrame(m: Memory, m1: Memory, m2: Memory, h: Heap, g: Heap, merged: nat)
    requires Untouched(m, m1, h) && SameDataBut(m, m1, merged) && g.Keys <= h.Keys
    requires Untouched(m1, m2, g) && SameBut(m1, m2)
    ensures Untouched(m, m2, h) && SameDataBut(m, m2, merged)
  {
  }

  lemma StaleStart(m: Memory, h: Heap, block: nat)
    requires Headers(m, h) && block in h
    ensures StaleHeader(m, m, block, (h, block))
  {
    assert HeaderAt(m, block, h[block]);
    BlockSizeGranular(h[block].order);
  }

  lemma StaleStep(m: Memory, m1: Memory, m2: Memory, block: nat, h: Heap, a: nat)
    requires a in h && Aligned(a, h[a].order) && StaleHeader(m, m1, block, (h, a))
    requires SameDataBut(m1, m2, Lower(a, h[a].order))
    requires Headers(m2, MergeStep(h, a)) && Headers(m1, h)
    ensures StaleHeader(m, m2, block, (MergeStep(h, a), Lower(a, h[a].order)))
  {
    var lo := Lower(a, h[a].order);
    BuddyGeometry(a, h[a].order);
    assert HeaderAt(m2, lo, MergeStep(h, a)[lo]) && HeaderAt(m1, a, h[a]);
    BlockSizeGranular(h[a].order + 1);
    if block != lo {
      assert SameData(At(m1, block), At(m2, block));
    }
  }

  /** What one merge does to the block map, in one place. */
  lemma RoundFacts(h: Heap, base: nat, a: nat, target: nat)
    requires Tiling(h, base) && CanMerge(h, a, target) && target <= MAX_ORDER
    ensures var k := h[a].order;
            var h' := MergeStep(h, a);
            && Aligned(a, k)
            && Tiling(h', base) && |h'| == |h| - 1 && h'.Keys <= h.Keys
            && Lower(a, k) in h' && h'[Lower(a, k)] == Block(k + 1, true)
            && MergeUp(h, a, target) == MergeUp(h', Lower(a, k), target)
  {
    assert PlacedIn(h, a, base);
    MergeStepTiling(h, base, a);
    MergeStepCount(h, a);
    BuddyGeometry(a, h[a].order);
  }

  lemma MergeUpStops(h: Heap, a: nat, target: nat)
    requires a in h && !CanMerge(h, a, target)
    ensures MergeUp(h, a, target) == (h, a)
  {
  }

  lemma MergeStepAlt(h: Heap, a: nat)
    requires a in h
    ensures var k := h[a].order;
            (h - {a} - {Buddy(a, k)})[Lower(a, k) := Block(k + 1, true)] == MergeStep(h, a)
  {
  }

  lemma MergePreconditions(m: Memory, m2: Memory, h: Heap, a: nat, b: nat, k: nat)
    requires Headers(m, h) && SameBut(m, m2) && k < MAX_ORDER
    requires a in h && b in h && h[a] == Block(k, true) && h[b] == Block(k, true)
    ensures At(m2, a).size == At(m2, b).size == BlockSize(k) - HEADER
    ensures At(m2, a).isFree && At(m2, b).isFree
    ensures !TopOnly(At(m2, a).size + HEADER)
  {
    NotTop(k);
    assert HeaderAt(m, a, h[a]) && HeaderAt(m, b, h[b]);
    assert SameData(At(m, a), At(m2, a)) && SameData(At(m, b), At(m2, b));
  }

  /** Headers after the writes of a merge: the lower half's size is doubled, links change. */
  lemma MergeHeaders(m: Memory, m2: Memory, m4: Memory, h: Heap, a: nat)
    requires Headers(m, h) && CanMerge(h, a, MAX_ORDER) && h[a].free && Aligned(a, h[a].order)
    requires SameBut(m, m2)
    requires var lo := Lower(a, h[a].order);
             SameBut(m2[lo := At(m2, lo).(size := BlockSize(h[a].order + 1) - HEADER)], m4)
    ensures Headers(m4, MergeStep(h, a))
    ensures SameDataBut(m, m4, Lower(a, h[a].order))
  {
    var lo := Lower(a, h[a].order);
    var h' := MergeStep(h, a);
    var m3 := m2[lo := At(m2, lo).(size := BlockSize(h[a].order + 1) - HEADER)];
    forall x
      ensures x != lo ==> SameData(At(m, x), At(m4, x))
    {
      assert SameData(At(m, x), At(m2, x)) && SameData(At(m3, x), At(m4, x));
    }
    assert HeaderAt(m4, lo, Block(h[a].order + 1, true)) by {
      assert SameData(At(m3, lo), At(m4, lo));
      assert HeaderAt(m, lo, h[lo]) && SameData(At(m, lo), At(m2, lo));
    }
    forall x | x in h'
      ensures HeaderAt(m4, x, h'[x])
    {
      if x != lo {
        assert x in h && h'[x] == h[x];
        assert HeaderAt(m, x, h[x]);
      }
    }
  }

  // ---- What a request gets ----

  /** What carving reports: a pointer just after the header of the best-fitting block, or NULL
      when no block is large enough. */
  ghost predicate CarvedFrom(h0: Heap, h: Heap, p: nat, source: nat, target: nat) {
    && (p == NULL <==> !BlockAvailable(h0, target))
    && (p == NULL ==> h == h0)
    && (p != NULL ==> p == source + HEADER && BestFit(h0, target, source) && h == Carve(h0, source, target))
  }

  /** What an allocation request gets: nothing, a fresh mapping, or a carved block. */
  ghost predicate Granted(h0: Heap, mmaps0: map<nat, nat>, h: Heap, mmaps: map<nat, nat>, size: nat,
                          mapped: Option<nat>, p: nat, source: nat, target: nat) {
    if size == 0 || size > MAX_ALLOCATION then p == NULL && h == h0 && mmaps == mmaps0
    else if size + HEADER > MMAP_LIMIT then
      && h == h0
      && (mapped.None? ==> p == NULL && mmaps == mmaps0)
      && (mapped.Some? ==> p == mapped.value + HEADER && mmaps == mmaps0[mapped.value := size])
    else mmaps == mmaps0 && LeastOrder(size + HEADER, target) && CarvedFrom(h0, h, p, source, target)
  }

  /** The block map after a free: a used block is freed and merged, anything else is left alone. */
  ghost function FreedHeap(h: Heap, block: nat): Heap {
    if block in h && !h[block].free then Free(h, block) else h
  }

  ghost function FreedMmaps(mmaps: map<nat, nat>, block: nat, unmapOk: bool): map<nat, nat> {
    if block in mmaps && unmapOk then mmaps - {block} else mmaps
  }
}
