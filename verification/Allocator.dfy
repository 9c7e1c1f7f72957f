/** The buddy allocator: the header and free-list updates of the real code, over a memory of
    32-byte granules, proved to compute the block-map operations of module Blocks. */
module Allocator {
  import opened Basics
  import opened Dyadic
  import opened Blocks
  import opened FreeLists
  import opened Metadata
  import opened Growth

  /** What the moment of initialisation left behind: whether it has come, where the heap starts, and
      the mappings and bytes that the counters no longer know of. */
  datatype Origin = Origin(initialized: bool, base: nat, lostBlocks: nat, lostBytes: nat)

  /** How far the counters are from the blocks: they lack what initialisation made them forget. */
  ghost predicate Balanced(d: Offsets, o: Origin, mmaps: map<nat, nat>) {
    && d == Offsets(|mmaps| - o.lostBlocks, 0,
                    (if o.initialized then HEAP_BYTES else 0) + Sum(mmaps) + HEADER * |mmaps| - o.lostBytes)
    && (o.lostBlocks == 0 || !o.initialized ==> o.lostBlocks == o.lostBytes == 0)
  }

  /** The record after a call that tries to initialise the heap: the first success settles it for good. */
  ghost function Later(o: Origin, mmaps: map<nat, nat>, brk: nat, sbrkOk: bool): Origin {
    if o.initialized || !sbrkOk then o
    else Origin(true, HeapBase(brk), |mmaps|, Sum(mmaps) + HEADER * |mmaps|)
  }

  /** The block map such a call goes on with. */
  ghost function StartHeap(o: Origin, h: Heap, brk: nat, sbrkOk: bool): Heap {
    if o.initialized || !sbrkOk then h else Initial(HeapBase(brk))
  }

  /** No room for a request: mmap fails, or no free block is large enough. */
  ghost predicate Denied(h: Heap, size: nat, mapped: Option<nat>, need: nat) {
    if size + HEADER > MMAP_LIMIT then mapped.None? else !BlockAvailable(h, need)
  }

  /** srealloc has to look for a new block: the old one is too small, and the request is large or its
      probe fails. */
  ghost predicate MustMove(v: View, block: nat, size: nat) {
    && Capacity(v.heap, v.mmaps, block) < size
    && (size + HEADER > MMAP_LIMIT || !ProbeOf(v.mem, block, size).canMerge)
  }

  /** An allocation fails exactly when there is no room, and then changes nothing. */
  lemma GrantedOrDenied(h0: Heap, mmaps0: map<nat, nat>, h: Heap, mmaps: map<nat, nat>, size: nat, mapped: Option<nat>,
                        p: nat, source: nat, target: nat, need: nat)
    requires Granted(h0, mmaps0, h, mmaps, size, mapped, p, source, target) && 0 < size <= MAX_ALLOCATION
    requires size + HEADER <= MMAP_LIMIT ==> LeastOrder(size + HEADER, need)
    ensures p == NULL <==> Denied(h0, size, mapped, need)
    ensures p == NULL ==> h == h0 && mmaps == mmaps0
    ensures p >= HEADER ==> mmaps == if size + HEADER > MMAP_LIMIT then mmaps0[p - HEADER := size] else mmaps0
  {
    if size + HEADER <= MMAP_LIMIT {
      LeastOrderUnique(size + HEADER, need, target);
    } else if mapped.Some? {
      assert p - HEADER == mapped.value;
    }
  }

  /** The outcome of an allocation, whichever block it came from. */
  ghost predicate Obtained(h0: Heap, mmaps0: map<nat, nat>, h: Heap, mmaps: map<nat, nat>, size: nat,
                           mapped: Option<nat>, p: nat) {
    exists source, target :: Granted(h0, mmaps0, h, mmaps, size, mapped, p, source, target)
  }

  /** One allocation and then one deallocation, of the old block: nothing more is taken, nothing is left. */
  ghost predicate MovedTo(h0: Heap, mmaps0: map<nat, nat>, h: Heap, mmaps: map<nat, nat>, block: nat, size: nat,
                          mapped: Option<nat>, unmapOk: bool, p: nat) {
    exists h1, mmaps1 ::
      && Obtained(h0, mmaps0, h1, mmaps1, size, mapped, p)
      && h == FreedHeap(h1, block) && mmaps == FreedMmaps(mmaps1, block, unmapOk)
  }

  /** What srealloc has done to a live block, by the branch it took: a block that fits is handed back,
      a probe that passes grows the block in place, and everything else moves or fails for want of room. */
  ghost predicate Branched(o: Origin, v: View, o': Origin, w: View, block: nat, p: nat, size: nat, brk: nat, sbrkOk: bool,
                           mapped: Option<nat>, unmapOk: bool, need: nat) {
    if MustMove(v, block, size) then
      && o' == Later(o, v.mmaps, brk, sbrkOk)
      && (p == NULL <==> Denied(StartHeap(o, v.heap, brk, sbrkOk), size, mapped, need))
      && (p == NULL ==> w.heap == StartHeap(o, v.heap, brk, sbrkOk) && w.mmaps == v.mmaps)
      && (p != NULL ==>
            MovedTo(StartHeap(o, v.heap, brk, sbrkOk), v.mmaps, w.heap, w.mmaps, block, size, mapped, unmapOk, p))
    else
      && p != NULL && o' == o && w.mmaps == v.mmaps
      && (Capacity(v.heap, v.mmaps, block) >= size ==> p == block + HEADER && w == v)
      && (Capacity(v.heap, v.mmaps, block) < size ==>
            block in v.heap && w.heap == Grown(v.heap, block, need) && p == GrownAt(v.heap, block, need) + HEADER)
  }

  /** The block map is as every run of the allocator leaves it, before or after the first use. */
  ghost predicate Settled(o: Origin, v: View) {
    && (if o.initialized then Tiling(v.heap, o.base) && Coalesced(v.heap) else v.heap == map[])
    && (forall a :: a in v.heap ==> a !in v.mmaps)
  }

  lemma ObtainedLive(o: Origin, v: View, h: Heap, mmaps: map<nat, nat>, size: nat, brk: nat, sbrkOk: bool,
                     mapped: Option<nat>, p: nat, a: nat) returns (base: nat)
    requires Settled(o, v) && (!o.initialized ==> brk > 0)
    requires Obtained(StartHeap(o, v.heap, brk, sbrkOk), v.mmaps, h, mmaps, size, mapped, p)
    ensures h == map[] || (Tiling(h, base) && Coalesced(h))
    ensures Live(h, mmaps, a) ==> Live(v.heap, v.mmaps, a) || (p != NULL && a == p - HEADER)
  {
    base := if o.initialized then o.base else HeapBase(brk);
    var h0 := StartHeap(o, v.heap, brk, sbrkOk);
    if !o.initialized && sbrkOk {
      HeapBaseAligned(brk);
      InitialTiling(base);
      InitialKeys(base);
    }
    var source, target :| Granted(h0, v.mmaps, h, mmaps, size, mapped, p, source, target);
    GrantedLive(h0, v.mmaps, h, mmaps, base, size, mapped, p, source, target, a);
  }

  lemma MovedLive(o: Origin, v: View, h: Heap, mmaps: map<nat, nat>, block: nat, size: nat, brk: nat, sbrkOk: bool,
                  mapped: Option<nat>, unmapOk: bool, p: nat, a: nat)
    requires Settled(o, v) && (!o.initialized ==> brk > 0)
    requires MovedTo(StartHeap(o, v.heap, brk, sbrkOk), v.mmaps, h, mmaps, block, size, mapped, unmapOk, p)
    ensures Live(h, mmaps, a) ==> Live(v.heap, v.mmaps, a) || (p != NULL && a == p - HEADER)
  {
    var h1: Heap, mmaps1: map<nat, nat> :|
      && Obtained(StartHeap(o, v.heap, brk, sbrkOk), v.mmaps, h1, mmaps1, size, mapped, p)
      && h == FreedHeap(h1, block) && mmaps == FreedMmaps(mmaps1, block, unmapOk);
    var base := ObtainedLive(o, v, h1, mmaps1, size, brk, sbrkOk, mapped, p, a);
    if block in h1 && !h1[block].free {
      FreeKeeps(h1, base, block);
    }
  }

  lemma BranchLive(o: Origin, v: View, o': Origin, w: View, block: nat, p: nat, size: nat, brk: nat, sbrkOk: bool,
                    mapped: Option<nat>, unmapOk: bool, need: nat, a: nat)
    requires Settled(o, v) && (!o.initialized ==> brk > 0) && Live(v.heap, v.mmaps, block)
    requires size + HEADER <= MMAP_LIMIT ==> LeastOrder(size + HEADER, need)
    requires Branched(o, v, o', w, block, p, size, brk, sbrkOk, mapped, unmapOk, need)
    ensures Live(w.heap, w.mmaps, a) ==> Live(v.heap, v.mmaps, a) || (p != NULL && a == p - HEADER)
  {
    if MustMove(v, block, size) {
      if p != NULL {
        MovedLive(o, v, w.heap, w.mmaps, block, size, brk, sbrkOk, mapped, unmapOk, p, a);
      } else if !o.initialized && sbrkOk {
        HeapBaseAligned(brk);
        InitialKeys(HeapBase(brk));
      }
    } else if Capacity(v.heap, v.mmaps, block) < size && a in w.heap && !w.heap[a].free {
      TooSmall(v.heap[block].order, size, need);
      GrownLive(v.heap, o.base, block, need, a);
    }
  }

  /** What srealloc has done to the block behind the pointer it was given, or without one. */
  ghost predicate Outcome(o: Origin, v: View, o': Origin, w: View, oldp: nat, p: nat, size: nat, brk: nat, sbrkOk: bool,
                          mapped: Option<nat>, unmapOk: bool, need: nat) {
    if size == 0 || size > MAX_ALLOCATION then p == NULL && w == v && o' == o
    else if oldp == NULL then
      && o' == Later(o, v.mmaps, brk, sbrkOk)
      && (p == NULL <==> Denied(StartHeap(o, v.heap, brk, sbrkOk), size, mapped, need))
      && Obtained(StartHeap(o, v.heap, brk, sbrkOk), v.mmaps, w.heap, w.mmaps, size, mapped, p)
    else oldp >= HEADER && Branched(o, v, o', w, oldp - HEADER, p, size, brk, sbrkOk, mapped, unmapOk, need)
  }

  /** Whatever branch it takes, srealloc makes nothing live but its result. */
  lemma NothingElse(o: Origin, v: View, o': Origin, w: View, oldp: nat, p: nat, size: nat, brk: nat, sbrkOk: bool,
                    mapped: Option<nat>, unmapOk: bool, need: nat)
    requires Settled(o, v) && (!o.initialized ==> brk > 0)
    requires oldp == NULL || (oldp >= HEADER && Live(v.heap, v.mmaps, oldp - HEADER))
    requires size + HEADER <= MMAP_LIMIT && size > 0 ==> LeastOrder(size + HEADER, need)
    requires Outcome(o, v, o', w, oldp, p, size, brk, sbrkOk, mapped, unmapOk, need)
    ensures forall a {:trigger Live(w.heap, w.mmaps, a)} ::
              Live(w.heap, w.mmaps, a) ==> Live(v.heap, v.mmaps, a) || (p != NULL && a == p - HEADER)
    ensures size == 0 || size > MAX_ALLOCATION ==> p == NULL && w == v
    ensures 0 < size <= MAX_ALLOCATION && oldp != NULL && Capacity(v.heap, v.mmaps, oldp - HEADER) >= size ==>
              p == oldp && w == v
  {
    forall a
      ensures Live(w.heap, w.mmaps, a) ==> Live(v.heap, v.mmaps, a) || (p != NULL && a == p - HEADER)
    {
      if 0 < size <= MAX_ALLOCATION {
        if oldp == NULL {
          var _ := ObtainedLive(o, v, w.heap, w.mmaps, size, brk, sbrkOk, mapped, p, a);
        } else {
          BranchLive(o, v, o', w, oldp - HEADER, p, size, brk, sbrkOk, mapped, unmapOk, need, a);
        }
      }
    }
  }

  /** The block behind a pointer that a client passes. */
  function BlockOf(p: nat): Option<nat> {
    if p < HEADER then None else Some(p - HEADER)
  }

  class MemoryTracker {
    const store: BlockLists
    var allocatedBlocks: int
    var allocatedBytes: int
    var metadataBytes: int
    var initialized: bool

    ghost var base: nat
    ghost var heap: Heap
    ghost var mmaps: map<nat, nat>
    // mmap blocks that were live when initHeap overwrote the counters
    ghost var lostBlocks: nat
    ghost var lostBytes: nat

    ghost predicate Linkage()
      reads this, store
    {
      store.Valid() && Headers(store.mem, heap) && Agree(store.list, heap)
    }

    ghost function Past(): Origin
      reads this
    {
      Origin(initialized, base, lostBlocks, lostBytes)
    }

    /** The counters relative to the blocks that exist; splitting and merging leave this alone. */
    ghost function Drift(): Offsets
      reads this
    {
      Offsets(allocatedBlocks - |heap|, metadataBytes - HEADER * allocatedBlocks, allocatedBytes + metadataBytes)
    }

    /** The counters, up to what initHeap forgot. */
    ghost predicate Counters()
      reads this
    {
      Balanced(Drift(), Past(), mmaps)
    }

    ghost predicate Consistent()
      reads this, store
    {
      && Linkage() && Counters()
      && (if initialized then Tiling(heap, base) else heap == map[])
    }

    constructor ()
      ensures Consistent() && !initialized && mmaps == map[] && fresh(store)
    {
      store := new BlockLists();
      allocatedBlocks, allocatedBytes, metadataBytes, initialized := 0, 0, 0, false;
      base, heap, mmaps, lostBlocks, lostBytes := 0, map[], map[], 0, 0;
    }

    method GetBlockOrder(block: nat) returns (order: int)
      ensures LeastOrder(At(store.mem, block).size + HEADER, order)
    {
      order := OrderFor(At(store.mem, block).size + HEADER);
    }

    /** The same search for a block whose header is known to be that of an order-k block. */
    method OrderOfHeader(block: nat, ghost b: Block) returns (order: nat)
      requires HeaderAt(store.mem, block, b) && b.order <= MAX_ORDER
      ensures order == b.order
    {
      var o := GetBlockOrder(block);
      LeastOrderOfBlock(b.order, 0, o);
      order := o;
    }

    function FindBuddy(block: nat): nat
      reads this, store
    {
      Xor(block, At(store.mem, block).size + HEADER)
    }

    /** The buddy's header is real, and tells whether the buddy can be merged. */
    ghost predicate BuddyKnown(a: nat, b: nat, k: nat)
      reads this, store
    {
      && b == Buddy(a, k) && b in heap && HeaderAt(store.mem, b, heap[b])
      && (At(store.mem, a).size == At(store.mem, b).size <==> heap[b].order == k)
    }

    lemma FindBuddyIsBuddy(a: nat)
      requires Linkage() && Tiling(heap, base) && a in heap && heap[a].order < MAX_ORDER
      ensures FindBuddy(a) == Buddy(a, heap[a].order) && BuddyKnown(a, FindBuddy(a), heap[a].order)
    {
      assert PlacedIn(heap, a, base) && HeaderAt(store.mem, a, heap[a]);
      XorIsBuddy(a, heap[a].order);
      BuddyIsHeader(heap, base, a);
      var k, j := heap[a].order, heap[FindBuddy(a)].order;
      if j < k {
        BlockSizeMonotone(j, k);
      }
    }

    /** Merges two equal free blocks into the lower one; NULL when they cannot be merged. */
    method MergeBuddyBlocks(a: nat, b: nat) returns (merged: nat)
      modifies store`mem
      ensures var m := old(store.mem);
              var full := At(m, a).size + HEADER;
              if a == NULL || b == NULL || At(m, a).size != At(m, b).size || !At(m, a).isFree || !At(m, b).isFree
                 || TopOnly(full)
              then merged == NULL && store.mem == m
              else merged == (if a < b then a else b)
                   && store.mem == m[merged := At(m, merged).(size := At(m, a).size * 2 + HEADER)]
    {
      if a == NULL || b == NULL {
        return NULL;
      }
      if At(store.mem, a).size != At(store.mem, b).size {
        return NULL;
      }
      var order := GetBlockOrder(a);
      TopOnlyIsTop(At(store.mem, a).size + HEADER, order);
      if At(store.mem, a).isFree && At(store.mem, b).isFree && order != MAX_ORDER {
        merged := if a < b then a else b;
        store.mem := store.mem[merged := At(store.mem, merged).(size := At(store.mem, a).size * 2 + HEADER)];
        return;
      }
      return NULL;
    }

    /** Takes a free block of the map h out of its list. */
    method Detach(k: nat, a: nat, ghost h: Heap)
      requires store.Valid() && Agree(store.list, h) && k < LISTS && a in h && h[a] == Block(k, true)
      modifies store
      ensures store.Valid() && Agree(store.list, h - {a}) && a != NULL
      ensures Untouched(old(store.mem), store.mem, h) && SameBut(old(store.mem), store.mem)
    {
      ghost var m, list := store.mem, store.list;
      assert Listed(list, k, a);
      assert a != NULL by { ListedNotNull(m, store.head, list, k, a); }
      var _ := store.RemoveBlock(k, a);
      AgreeRemove(list, store.list, h, k, a);
      LinksUntouched(m, store.mem, list, k, h);
    }

    /** Puts a block that is in no list into the list of its order. */
    method Attach(k: nat, a: nat, ghost h: Heap)
      requires store.Valid() && Agree(store.list, h) && k < LISTS && (a in h ==> !h[a].free) && a != NULL
      modifies store
      ensures store.Valid() && Agree(store.list, h[a := Block(k, true)])
      ensures Untouched(old(store.mem), store.mem, h[a := Block(k, true)]) && SameBut(old(store.mem), store.mem)
    {
      ghost var m, list := store.mem, store.list;
      AgreeUsed(list, h, a, k);
      store.InsertBlock(k, a);
      AgreeInsert(list, store.list, h, k, a);
      LinksUntouched(m, store.mem, store.list, k, h[a := Block(k, true)]);
    }

    /** Lists a block whose header has just been written. */
    method ListMerged(merged: nat, k: nat, ghost h: Heap, ghost g: Heap) returns (order: nat)
      requires store.Valid() && Agree(store.list, h) && merged !in h && merged != NULL && k <= MAX_ORDER
      requires Headers(store.mem, g) && g == h[merged := Block(k, true)]
      modifies store
      ensures order == k && store.Valid() && Agree(store.list, g) && Headers(store.mem, g)
      ensures Untouched(old(store.mem), store.mem, g) && SameBut(old(store.mem), store.mem)
    {
      ghost var m := store.mem;
      assert HeaderAt(m, merged, g[merged]);
      order := OrderOfHeader(merged, Block(k, true));
      Attach(order, merged, h);
      LinksKeepHeaders(m, store.mem, g);
    }

    /** The size update of a merge, between taking the halves out and putting the whole in. */
    method Combine(a: nat, b: nat, k: nat, ghost m: Memory) returns (merged: nat)
      requires store.Valid() && Headers(m, heap) && SameBut(m, store.mem) && k < MAX_ORDER && Aligned(a, k)
      requires a in heap && heap[a] == Block(k, true) && a != NULL
      requires b == Buddy(a, k) && b in heap && heap[b] == Block(k, true) && b != NULL
      requires Agree(store.list, heap - {a} - {b})
      modifies store`mem
      ensures store.Valid() && merged == Lower(a, k)
      ensures store.mem == old(store.mem)[merged := At(old(store.mem), merged).(size := BlockSize(k + 1) - HEADER)]
      ensures HeaderAt(store.mem, merged, Block(k + 1, true))
    {
      ghost var m2 := store.mem;
      MergePreconditions(m, m2, heap, a, b, k);
      merged := MergeBuddyBlocks(a, b);
      AgreeUsed(store.list, heap - {a} - {b}, merged, k);
      LinkedFrame(m2, store.mem, store.head, store.list);
      assert At(m2, merged).isFree;
    }

    /** Takes both halves out of their list and merges their headers. */
    method Unite(a: nat, b: nat, k: nat) returns (merged: nat)
      requires Linkage() && k < MAX_ORDER && Aligned(a, k)
      requires a in heap && heap[a] == Block(k, true)
      requires b == Buddy(a, k) && b in heap && heap[b] == Block(k, true)
      modifies store
      ensures store.Valid() && Agree(store.list, heap - {a} - {b}) && Headers(store.mem, MergeStep(heap, a))
      ensures merged == Lower(a, k) && merged != NULL && HeaderAt(store.mem, merged, Block(k + 1, true))
      ensures Untouched(old(store.mem), store.mem, heap) && SameDataBut(old(store.mem), store.mem, merged)
    {
      BuddyGeometry(a, k);
      Detach(k, a, heap);
      Detach(k, b, heap - {a});
      ghost var m2 := store.mem;
      merged := Combine(a, b, k, old(store.mem));
      MergeHeaders(old(store.mem), m2, store.mem, heap, a);
    }

    /** One round of merging: both halves leave their list, the lower one becomes a block of the
        next order and enters that list. */
    method MergeOnce(current: nat, buddy: nat, k: nat) returns (merged: nat, order: nat)
      requires Linkage() && k < MAX_ORDER && Aligned(current, k)
      requires current in heap && heap[current] == Block(k, true)
      requires buddy == Buddy(current, k) && buddy in heap && heap[buddy] == Block(k, true)
      modifies store
      ensures merged == Lower(current, k) && order == k + 1
      ensures store.Valid() && Headers(store.mem, MergeStep(heap, current)) && Agree(store.list, MergeStep(heap, current))
      ensures Untouched(old(store.mem), store.mem, heap) && SameDataBut(old(store.mem), store.mem, merged)
    {
      ghost var h, g := heap - {current} - {buddy}, MergeStep(heap, current);
      assert g == h[Lower(current, k) := Block(k + 1, true)] && Lower(current, k) !in h && g.Keys <= heap.Keys by {
        MergeStepAlt(heap, current);
      }
      ghost var m := store.mem;
      merged := Unite(current, buddy, k);
      ghost var m1 := store.mem;
      order := ListMerged(merged, k + 1, h, g);
      MergedFrame(m, m1, store.mem, heap, g, merged);
    }

    /** The counter updates of a merge. */
    method CountMerge(ghost a: nat)
      requires CanMerge(heap, a, MAX_ORDER) && Aligned(a, heap[a].order)
      modifies `allocatedBlocks, `allocatedBytes, `metadataBytes, `heap
      ensures heap == MergeStep(old(heap), a) && Drift() == old(Drift())
    {
      MergeStepCount(heap, a);
      heap := MergeStep(heap, a);
      allocatedBlocks := allocatedBlocks - 1;
      allocatedBytes := allocatedBytes + HEADER;
      metadataBytes := metadataBytes - HEADER;
      assert Drift().blocks == old(Drift()).blocks;
      assert Drift().metadata == old(Drift()).metadata;
      assert Drift().bytes == old(Drift()).bytes;
    }

    /** What a run of merges that started at block with heap h0 and memory m0 has kept so far. */
    ghost predicate Merging(h0: Heap, m0: Memory, block: nat, current: nat, order: nat, target: nat)
      reads this, store
    {
      && Linkage() && Tiling(heap, base) && order <= target <= MAX_ORDER
      && current in heap && heap[current] == Block(order, true)
      && block in h0 && MergeUp(heap, current, target) == MergeUp(h0, block, target)
      && heap.Keys <= h0.Keys && Untouched(m0, store.mem, h0)
      && StaleHeader(m0, store.mem, block, (heap, current))
    }

    /** One round of the merge loop. */
    method MergeRound(ghost h0: Heap, ghost m0: Memory, ghost block: nat, current: nat, buddy: nat, k: nat,
                      ghost target: nat) returns (merged: nat, order: nat)
      requires Merging(h0, m0, block, current, k, target) && k < target
      requires buddy == Buddy(current, k) && buddy in heap && heap[buddy] == Block(k, true)
      modifies `allocatedBlocks, `allocatedBytes, `metadataBytes, `heap, store
      ensures Merging(h0, m0, block, merged, order, target) && order == k + 1
      ensures Drift() == old(Drift())
    {
      RoundFacts(heap, base, current, target);
      ghost var m, h, g := store.mem, heap, MergeStep(heap, current);
      merged, order := MergeOnce(current, buddy, k);
      CountMerge(current);
      assert heap == g;
      UntouchedTrans(m0, m, store.mem, h0, h);
      StaleStep(m0, m, store.mem, block, h, current);
    }

    /** Merges a free block with its buddy as long as the buddy is an equally large free block,
        up to the target order. NULL when the block already has that order. */
    method AttemptFreeBuddyMerge(block: nat, targetOrder: nat) returns (finalBlock: nat)
      requires Linkage() && Tiling(heap, base)
      requires block in heap && heap[block].free && heap[block].order <= targetOrder <= MAX_ORDER
      modifies `allocatedBlocks, `allocatedBytes, `metadataBytes, `heap, store
      ensures Linkage()
      ensures heap == MergeUp(old(heap), block, targetOrder).0
      ensures finalBlock ==
        if old(heap)[block].order == targetOrder then NULL else MergeUp(old(heap), block, targetOrder).1
      ensures Drift() == old(Drift())
      ensures Untouched(old(store.mem), store.mem, old(heap))
      ensures StaleHeader(old(store.mem), store.mem, block, MergeUp(old(heap), block, targetOrder))
    {
      ghost var h0, m0 := heap, store.mem;
      StaleStart(store.mem, heap, block);
      var current := block;
      var currentOrder := OrderOfHeader(current, heap[block]);
      finalBlock := current;
      if currentOrder == targetOrder {
        MergeUpStops(heap, block, targetOrder);
        return NULL;
      }
      FindBuddyIsBuddy(current);
      var buddy := FindBuddy(current);
      if At(store.mem, current).size == At(store.mem, buddy).size {
        while true
          invariant Merging(h0, m0, block, finalBlock, currentOrder, targetOrder)
          invariant currentOrder < targetOrder ==> current == finalBlock && BuddyKnown(current, buddy, currentOrder)
          invariant Drift() == old(Drift())
          decreases targetOrder - currentOrder
        {
          if !At(store.mem, buddy).isFree || At(store.mem, current).size != At(store.mem, buddy).size {
            MergeUpStops(heap, finalBlock, targetOrder);
            break;
          }
          if currentOrder != targetOrder {
            finalBlock, currentOrder := MergeRound(h0, m0, block, current, buddy, currentOrder, targetOrder);
            if currentOrder != targetOrder {
              current := finalBlock;
              FindBuddyIsBuddy(current);
              buddy := FindBuddy(current);
            }
          } else {
            MergeUpStops(heap, finalBlock, targetOrder);
            break;
          }
        }
      } else {
        MergeUpStops(heap, finalBlock, targetOrder);
      }
    }

    // ---- Splitting ----

    /** Takes the lowest free block of order k out of its list. */
    method DetachFirst(k: nat) returns (a: nat)
      requires Linkage() && k < LISTS && store.head[k] != NULL
      modifies store
      ensures store.Valid() && LowestOf(heap, k, a) && a == old(store.head)[k] && a != NULL
      ensures Agree(store.list, heap - {a})
      ensures Untouched(old(store.mem), store.mem, heap) && SameBut(old(store.mem), store.mem)
    {
      ghost var m, list := store.mem, store.list;
      FirstOfList(m, store.head, list, heap, k);
      a := store.RemoveFirst(k);
      AgreeRemove(list, store.list, heap, k, a);
      LinksUntouched(m, store.mem, list, k, heap);
    }

    /** The header writes themselves. */
    method StampHalves(a: nat, k: nat) returns (right: nat)
      requires At(store.mem, a).size == BlockSize(k + 1) - HEADER
      modifies store`mem
      ensures right == a + BlockSize(k) && OnlyAt(old(store.mem), store.mem, a, right)
      ensures HeaderAt(store.mem, a, Block(k, true)) && HeaderAt(store.mem, right, Block(k, true))
    {
      var total := (At(store.mem, a).size + HEADER) / 2;
      right := a + total;
      store.mem := store.mem[a := At(store.mem, a).(size := total - HEADER, isFree := true)];
      store.mem := store.mem[a := At(store.mem, a).(next := NULL, prev := NULL)];
      store.mem := store.mem[right := At(store.mem, right).(size := total - HEADER, isFree := true)];
      store.mem := store.mem[right := At(store.mem, right).(next := NULL, prev := NULL)];
    }

    /** Writes the headers of the two halves of a detached block. */
    method WriteHalves(a: nat, k: nat, ghost m0: Memory) returns (right: nat)
      requires store.Valid() && Headers(m0, heap) && SameBut(m0, store.mem) && Tiling(heap, base)
      requires a in heap && heap[a] == Block(k + 1, true) && Agree(store.list, heap - {a})
      modifies store`mem
      ensures store.Valid() && right == a + BlockSize(k) && right !in heap
      ensures Headers(store.mem, SplitStep(heap, a)) && Untouched(old(store.mem), store.mem, SplitStep(heap, a))
    {
      ghost var m := store.mem;
      assert HeaderAt(m0, a, heap[a]) && SameData(At(m0, a), At(m, a));
      SplitStepTiling(heap, base, a);
      right := StampHalves(a, k);
      AgreeUsed(store.list, heap - {a}, a, k);
      AgreeUsed(store.list, heap - {a}, right, k);
      LinkedFrame(m, store.mem, store.head, store.list);
      HalvesHeaders(m0, m, store.mem, heap, a, right);
    }

    /** Lists both halves. */
    method AttachHalves(a: nat, right: nat, k: nat)
      requires store.Valid() && a in heap && heap[a] == Block(k + 1, true) && k < MAX_ORDER && a != NULL
      requires right == a + BlockSize(k) && right !in heap
      requires Agree(store.list, heap - {a}) && Headers(store.mem, SplitStep(heap, a))
      modifies store
      ensures store.Valid() && Agree(store.list, SplitStep(heap, a)) && Headers(store.mem, SplitStep(heap, a))
      ensures Untouched(old(store.mem), store.mem, SplitStep(heap, a))
    {
      ghost var h1, h2 := heap - {a}, (heap - {a})[a := Block(k, true)];
      ghost var m2 := store.mem;
      Attach(k, a, h1);
      ghost var m3 := store.mem;
      Attach(k, right, h2);
      assert h2[right := Block(k, true)] == SplitStep(heap, a) by { SplitStepAlt(heap, a); }
      LinksKeepHeaders(m2, m3, SplitStep(heap, a));
      LinksKeepHeaders(m3, store.mem, SplitStep(heap, a));
      UntouchedTwice(m2, m3, store.mem, h2, SplitStep(heap, a));
    }

    /** The counter updates of a split. */
    method CountSplit(ghost a: nat)
      requires Tiling(heap, base) && a in heap && heap[a].order > 0
      modifies `allocatedBlocks, `allocatedBytes, `metadataBytes, `heap
      ensures heap == SplitStep(old(heap), a) && Tiling(heap, base) && Drift() == old(Drift())
    {
      SplitStepCount(heap, base, a);
      SplitStepTiling(heap, base, a);
      heap := SplitStep(heap, a);
      allocatedBlocks := allocatedBlocks + 1;
      allocatedBytes := allocatedBytes - HEADER;
      metadataBytes := metadataBytes + HEADER;
      assert Drift().blocks == old(Drift()).blocks;
      assert Drift().metadata == old(Drift()).metadata;
      assert Drift().bytes == old(Drift()).bytes;
    }

    /** One round of the split loop: the lowest block of order k becomes two of order k - 1. */
    method SplitOnce(k: nat) returns (a: nat)
      requires Linkage() && Tiling(heap, base) && 0 < k <= MAX_ORDER && store.head[k] != NULL
      modifies `allocatedBlocks, `allocatedBytes, `metadataBytes, `heap, store
      ensures a == old(store.head)[k] && LowestOf(old(heap), k, a)
      ensures heap == SplitStep(old(heap), a) && Linkage() && Tiling(heap, base)
      ensures Drift() == old(Drift())
      ensures Untouched(old(store.mem), store.mem, heap)
    {
      ghost var m0 := store.mem;
      a := DetachFirst(k);
      ghost var m1 := store.mem;
      var right := WriteHalves(a, k - 1, m0);
      ghost var m2 := store.mem;
      AttachHalves(a, right, k - 1);
      UntouchedTwice(m0, m1, m2, heap, SplitStep(heap, a));
      UntouchedTwice(m0, m2, store.mem, SplitStep(heap, a), SplitStep(heap, a));
      CountSplit(a);
    }

    method GetRequiredOrder(requestedSize: nat) returns (order: int)
      ensures LeastOrder(requestedSize + HEADER, order)
    {
      order := OrderFor(requestedSize + HEADER);
    }

    /** Finds the smallest non-empty list at or above the target order. */
    method FindFreeOrder(targetOrder: nat) returns (currentOrder: nat)
      requires Linkage()
      ensures targetOrder <= currentOrder && NoFreeBetween(heap, targetOrder, currentOrder)
      ensures currentOrder <= MAX_ORDER ==> store.head[currentOrder] != NULL
    {
      currentOrder := targetOrder;
      while currentOrder <= MAX_ORDER && store.head[currentOrder] == NULL
        invariant targetOrder <= currentOrder && NoFreeBetween(heap, targetOrder, currentOrder)
        decreases LISTS - currentOrder
      {
        FirstOfList(store.mem, store.head, store.list, heap, currentOrder);
        currentOrder := currentOrder + 1;
      }
    }

    /** What the split loop has kept: a is the block being halved and heads the current list. */
    ghost predicate Splitting(h0: Heap, m0: Memory, a: nat, target: nat, order: nat)
      reads this, store
    {
      && Linkage() && Tiling(heap, base) && target <= order < LISTS
      && Narrowed(h0, heap, a, target, order) && store.head[order] == a
      && Untouched(m0, store.mem, heap)
    }

    method SplitRound(ghost h0: Heap, ghost m0: Memory, ghost a: nat, ghost target: nat, k: nat) returns (order: nat)
      requires Splitting(h0, m0, a, target, k) && target < k
      modifies `allocatedBlocks, `allocatedBytes, `metadataBytes, `heap, store
      ensures Splitting(h0, m0, a, target, order) && order == k - 1 && Drift() == old(Drift())
    {
      ghost var h, m := heap, store.mem;
      ListHeadIs(m, store.head, store.list, h, k, a);
      var _ := SplitOnce(k);
      NarrowedNext(h0, h, base, a, target, k);
      order := k - 1;
      UntouchedTwice(m0, m, store.mem, h, heap);
      ListHeadIs(store.mem, store.head, store.list, heap, order, a);
    }

    /** The loop guard's size test on the first block of a list. */
    predicate FitsHalf(k: nat, requestedSize: nat)
      requires k < |store.head|
      reads this, store
    {
      (At(store.mem, store.head[k]).size + HEADER) / 2 - HEADER >= requestedSize
    }

    /** The split loop: halves the lowest block of the found order until it fits the request tightly. */
    method SplitTo(requestedSize: nat, targetOrder: nat, foundOrder: nat) returns (ghost a: nat)
      requires Linkage() && Tiling(heap, base) && LeastOrder(requestedSize + HEADER, targetOrder)
      requires targetOrder <= foundOrder <= MAX_ORDER && NoFreeBetween(heap, targetOrder, foundOrder)
      requires store.head[foundOrder] != NULL
      modifies `allocatedBlocks, `allocatedBytes, `metadataBytes, `heap, store
      ensures Linkage() && Tiling(heap, base) && Drift() == old(Drift())
      ensures LowestOf(old(heap), foundOrder, a) && heap == SplitDown(old(heap), a, targetOrder)
      ensures store.head[targetOrder] == a && LowestOf(heap, targetOrder, a)
      ensures Untouched(old(store.mem), store.mem, heap)
    {
      ghost var h0, m0 := heap, store.mem;
      var currentOrder := foundOrder;
      FirstOfList(store.mem, store.head, store.list, heap, currentOrder);
      a := store.head[currentOrder];
      while currentOrder > 0 && FitsHalf(currentOrder, requestedSize)
        invariant Splitting(h0, m0, a, targetOrder, currentOrder) && currentOrder <= foundOrder
        invariant Drift() == old(Drift())
        decreases currentOrder
      {
        HalfFits(heap, a, store.mem, requestedSize, targetOrder);
        currentOrder := SplitRound(h0, m0, a, targetOrder, currentOrder);
      }
      if currentOrder > 0 {
        HalfFits(heap, a, store.mem, requestedSize, targetOrder);
      }
      assert heap[a].order == targetOrder && SplitDown(heap, a, targetOrder) == heap;
    }

    /** Changes what the block map says about one existing block. */
    ghost method Remark(a: nat, b: Block)
      requires a in heap
      modifies `heap
      ensures heap == old(heap)[a := b] && Drift() == old(Drift())
    {
      assert heap[a := b].Keys == heap.Keys;
      heap := heap[a := b];
    }

    /** Marks a detached block as used. */
    method MarkUsed(a: nat, k: nat, ghost m0: Memory)
      requires store.Valid() && a in heap && heap[a].order == k
      requires Headers(m0, heap) && SameBut(m0, store.mem) && Untouched(m0, store.mem, heap)
      requires Agree(store.list, heap - {a})
      modifies store`mem, `heap
      ensures Linkage() && heap == old(heap)[a := Block(k, false)] && Drift() == old(Drift())
      ensures Untouched(m0, store.mem, heap)
    {
      ghost var m := store.mem;
      store.mem := store.mem[a := At(store.mem, a).(isFree := false)];
      AgreeUsed(store.list, heap - {a}, a, k);
      LinkedFrame(m, store.mem, store.head, store.list);
      MarkedHeaders(m0, m, store.mem, heap, a, false);
      RemarkAlt(heap, a, Block(k, false));
      Remark(a, Block(k, false));
    }

    /** Hands out the first block of a list: detached and marked used. */
    method TakeFirst(k: nat) returns (a: nat)
      requires Linkage() && Tiling(heap, base) && k < LISTS && store.head[k] != NULL
      modifies store, `heap
      ensures Linkage() && a == old(store.head)[k] && LowestOf(old(heap), k, a)
      ensures heap == old(heap)[a := Block(k, false)] && Drift() == old(Drift())
      ensures Untouched(old(store.mem), store.mem, heap)
    {
      ghost var m0 := store.mem;
      a := DetachFirst(k);
      ghost var m1 := store.mem;
      MarkUsed(a, k, m0);
    }

    /** Carves a block for the request out of the lowest block of the smallest order that has one. */
    method SplitBlockBuddy(requestedSize: nat) returns (p: nat, ghost source: nat, ghost target: nat)
      requires Linkage() && (if initialized then Tiling(heap, base) else heap == map[])
      requires requestedSize + HEADER <= TOP_BLOCK
      modifies `allocatedBlocks, `allocatedBytes, `metadataBytes, `heap, store
      ensures Linkage() && Drift() == old(Drift()) && LeastOrder(requestedSize + HEADER, target)
      ensures p == NULL <==> !BlockAvailable(old(heap), target)
      ensures p == NULL ==> heap == old(heap) && store.mem == old(store.mem)
      ensures p != NULL ==>
        p == source + HEADER && BestFit(old(heap), target, source) && heap == Carve(old(heap), source, target)
      ensures Untouched(old(store.mem), store.mem, heap)
    {
      source := NULL;
      ghost var h0, m0 := heap, store.mem;
      var order := GetRequiredOrder(requestedSize);
      LeastOrderExists(requestedSize + HEADER, order);
      var targetOrder: nat := order;
      target := targetOrder;
      var currentOrder := FindFreeOrder(targetOrder);
      if currentOrder > MAX_ORDER {
        NoneAvailable(heap, base, targetOrder, currentOrder);
        return NULL, NULL, target;
      }
      FirstOfList(store.mem, store.head, store.list, heap, currentOrder);
      source := SplitTo(requestedSize, targetOrder, currentOrder);
      var finalBlock := TakeFirst(targetOrder);
      CarveIs(h0, source, target);
      p := finalBlock + HEADER;
    }

    // ---- Initialisation ----

    /** Chains the 32 top-level blocks of a fresh heap region. */
    method PrimeBlocks(start: nat)
      requires start > 0
      modifies store`mem
      ensures Primed(store.mem, start, NUM_TOP)
      ensures Untouched(old(store.mem), store.mem, Tops(start, NUM_TOP))
    {
      ghost var m0 := store.mem;
      var usable := TOP_BLOCK - HEADER;
      store.mem := InitializeMeta(store.mem, start, usable, true, NULL, NULL);
      var prev := start;
      assert Tops(start, 1) == Tops(start, 0)[start := Block(MAX_ORDER, true)];
      var i: nat := 1;
      while i < NUM_TOP
        invariant 1 <= i <= NUM_TOP && prev == start + (i - 1) * TOP_BLOCK
        invariant Primed(store.mem, start, i) && Untouched(m0, store.mem, Tops(start, i))
      {
        ghost var m := store.mem;
        var curr := start + i * TOP_BLOCK;
        store.mem := InitializeMeta(store.mem, curr, usable, true, NULL, prev);
        store.mem := store.mem[prev := At(store.mem, prev).(next := curr)];
        PrimedStep(m, store.mem, m0, start, i);
        prev := curr;
        i := i + 1;
      }
    }

    /** The headers and the one list of a fresh heap region. */
    method PrimeHeap(start: nat)
      requires start > 0 && Aligned(start, HEAP_ORDER) && store.Valid() && Agree(store.list, map[])
      modifies store
      ensures store.Valid() && Headers(store.mem, Initial(start)) && Agree(store.list, Initial(start))
      ensures Untouched(old(store.mem), store.mem, Initial(start))
    {
      EmptyLists(store.mem, store.head, store.list);
      PrimeBlocks(start);
      store.head := store.head[MAX_ORDER := start];
      store.list := store.list[MAX_ORDER := TopList(start)];
      PrimedLinked(store.mem, store.head, store.list, start);
      PrimedHeaders(store.mem, start);
    }

    /** The counters are assigned, not added to: mmap blocks counted so far are forgotten. */
    method InitCounters(ghost start: nat)
      requires start > 0 && Aligned(start, HEAP_ORDER)
      modifies this
      ensures Counters() && initialized && base == start && heap == Initial(start) && Tiling(heap, base)
      ensures mmaps == old(mmaps) && lostBlocks == |mmaps| && lostBytes == Sum(mmaps) + HEADER * |mmaps|
    {
      InitialTiling(start);
      base, heap := start, Initial(start);
      allocatedBlocks := NUM_TOP;
      allocatedBytes := NUM_TOP * (TOP_BLOCK - HEADER);
      metadataBytes := NUM_TOP * HEADER;
      lostBlocks, lostBytes := |mmaps|, Sum(mmaps) + HEADER * |mmaps|;
      initialized := true;
    }

    /** Obtains and initialises the heap region; brk is the current program break. */
    method InitHeap(brk: nat, sbrkOk: bool)
      requires Consistent() && !initialized && brk > 0
      modifies this, store
      ensures Consistent() && initialized == sbrkOk && mmaps == old(mmaps)
      ensures !sbrkOk ==> store.mem == old(store.mem) && heap == old(heap) && Drift() == old(Drift())
      ensures Past() == Later(old(Past()), mmaps, brk, sbrkOk)
      ensures sbrkOk ==> heap == Initial(base)
      ensures Untouched(old(store.mem), store.mem, heap)
    {
      var misalignment := brk % HEAP_BYTES;
      var padding := if misalignment == 0 then 0 else HEAP_BYTES - misalignment;
      if !sbrkOk {
        return;
      }
      var start := brk + padding;
      HeapBaseAligned(brk);
      PrimeHeap(start);
      InitCounters(start);
    }

    // ---- The public operations ----

    /** What holds between any two calls. */
    ghost predicate Valid()
      reads this, store
    {
      Consistent() && Coalesced(heap) && Mapped(store.mem, mmaps, initialized, base)
    }

    method CountMap(ghost block: nat, size: nat)
      requires Counters() && block !in mmaps
      modifies `allocatedBlocks, `allocatedBytes, `metadataBytes, `mmaps
      ensures Counters() && mmaps == old(mmaps)[block := size]
    {
      SumAdd(mmaps, block, size);
      assert mmaps[block := size].Keys == mmaps.Keys + {block};
      mmaps := mmaps[block := size];
      allocatedBlocks := allocatedBlocks + 1;
      allocatedBytes := allocatedBytes + size;
      metadataBytes := metadataBytes + HEADER;
    }

    /** A large request: a separate mapping with a header of its own. */
    method MapBlock(size: nat, block: nat) returns (p: nat)
      requires Valid() && size + HEADER > MMAP_LIMIT && FreshMapping(mmaps, initialized, base, block, size)
      modifies `allocatedBlocks, `allocatedBytes, `metadataBytes, `mmaps, store`mem
      ensures Valid() && p == block + HEADER && mmaps == old(mmaps)[block := size]
      ensures forall x :: x != block ==> At(store.mem, x) == At(old(store.mem), x)
    {
      ghost var m := store.mem;
      store.mem := store.mem[block := At(store.mem, block).(size := size, isFree := false, next := NULL, prev := NULL)];
      MappingOutside(heap, base, initialized, store.list, block);
      LinkedFrame(m, store.mem, store.head, store.list);
      HeadersOutside(m, store.mem, heap, block);
      MappedAdd(m, store.mem, mmaps, initialized, base, block, size);
      CountMap(block, size);
      p := block + HEADER;
    }

    method CountUnmap(ghost block: nat, size: nat)
      requires Counters() && block in mmaps && size == mmaps[block]
      modifies `allocatedBlocks, `allocatedBytes, `metadataBytes, `mmaps
      ensures Counters() && mmaps == old(mmaps) - {block}
    {
      SumRemove(mmaps, block);
      assert (mmaps - {block}).Keys == mmaps.Keys - {block};
      mmaps := mmaps - {block};
      allocatedBlocks := allocatedBlocks - 1;
      allocatedBytes := allocatedBytes - size;
      metadataBytes := metadataBytes - HEADER;
    }

    /** A small request, carved from the heap. */
    method CarveBlock(size: nat) returns (p: nat, ghost source: nat, ghost target: nat)
      requires Valid() && size + HEADER <= MMAP_LIMIT
      modifies `allocatedBlocks, `allocatedBytes, `metadataBytes, `heap, store
      ensures Valid() && LeastOrder(size + HEADER, target)
      ensures CarvedFrom(old(heap), heap, p, source, target)
      ensures Untouched(old(store.mem), store.mem, heap)
      ensures p == NULL ==> store.mem == old(store.mem)
    {
      ghost var h0, m0 := heap, store.mem;
      p, source, target := SplitBlockBuddy(size);
      if p != NULL {
        CarveKeeps(h0, base, source, target);
      }
      MappedFrame(m0, store.mem, mmaps, initialized, base, heap);
    }

    ghost function Snapshot(): View
      reads this, store
    {
      View(store.mem, heap, mmaps)
    }

    /** First use: obtain the heap region if that has not happened yet. */
    method EnsureHeap(brk: nat, sbrkOk: bool)
      requires Valid()
      requires !initialized ==> brk > 0 && BreakClear(mmaps, HeapBase(brk))
      modifies this, store
      ensures Valid() && Past() == Later(old(Past()), old(mmaps), brk, sbrkOk) && mmaps == old(mmaps)
      ensures heap == StartHeap(old(Past()), old(heap), brk, sbrkOk)
      ensures old(initialized) ==> store.mem == old(store.mem)
      ensures AllKept(old(Snapshot()), Snapshot())
    {
      ghost var v := Snapshot();
      if !initialized {
        ghost var m0, base0 := store.mem, base;
        InitHeap(brk, sbrkOk);
        MappedInit(m0, store.mem, mmaps, initialized, base0, base, heap);
        if initialized {
          InitialTiling(base);
        }
        InitKeeps(v, Snapshot(), initialized, base);
      }
    }

    /** The rest of an allocation, with the heap region as it is. */
    method Allocate(size: nat, mapped: Option<nat>) returns (p: nat, ghost source: nat, ghost target: nat)
      requires Valid() && (mapped.Some? ==> FreshMapping(mmaps, initialized, base, mapped.value, size))
      modifies `allocatedBlocks, `allocatedBytes, `metadataBytes, `heap, `mmaps, store
      ensures Valid()
      ensures Granted(old(heap), old(mmaps), heap, mmaps, size, mapped, p, source, target)
      ensures SameOutside(old(store.mem), store.mem, heap, mmaps)
      ensures p == NULL ==> store.mem == old(store.mem)
    {
      source, target := NULL, 0;
      if size == 0 || size > MAX_ALLOCATION {
        return NULL, source, target;
      }
      var totalSize := size + HEADER;
      if totalSize > MMAP_LIMIT {
        if mapped.None? {
          return NULL, source, target;
        }
        p := MapBlock(size, mapped.value);
        return;
      }
      p, source, target := CarveBlock(size);
    }

    /** The same, seen by the clients. */
    method Grant(ghost w: View, size: nat, mapped: Option<nat>) returns (p: nat, ghost source: nat, ghost target: nat)
      requires Valid() && w == Snapshot()
      requires mapped.Some? ==> FreshMapping(mmaps, initialized, base, mapped.value, size)
      modifies `allocatedBlocks, `allocatedBytes, `metadataBytes, `heap, `mmaps, store
      ensures Valid() && Granted(w.heap, w.mmaps, heap, mmaps, size, mapped, p, source, target)
      ensures AllKept(w, Snapshot())
      ensures SameOutside(w.mem, store.mem, heap, mmaps)
      ensures p == NULL ==> store.mem == w.mem
      ensures p != NULL ==> p >= HEADER && !Live(w.heap, w.mmaps, p - HEADER)
      ensures p != NULL ==> Live(heap, mmaps, p - HEADER) && Capacity(heap, mmaps, p - HEADER) >= size
    {
      p, source, target := Allocate(size, mapped);
      GrantKeeps(w, Snapshot(), initialized, base, size, mapped, p, source, target);
    }

    /** The same, seen by clients from before the heap was set up. */
    method GrantLater(ghost v: View, ghost w: View, size: nat, mapped: Option<nat>)
      returns (p: nat, ghost source: nat, ghost target: nat)
      requires Valid() && w == Snapshot() && AllKept(v, w)
      requires mapped.Some? ==> FreshMapping(mmaps, initialized, base, mapped.value, size)
      modifies `allocatedBlocks, `allocatedBytes, `metadataBytes, `heap, `mmaps, store
      ensures Valid() && Granted(w.heap, w.mmaps, heap, mmaps, size, mapped, p, source, target)
      ensures AllKept(v, Snapshot())
      ensures SameOutside(w.mem, store.mem, heap, mmaps)
      ensures p == NULL ==> store.mem == w.mem
      ensures p != NULL ==> p >= HEADER && !Live(v.heap, v.mmaps, p - HEADER)
      ensures p != NULL ==> Live(heap, mmaps, p - HEADER) && Capacity(heap, mmaps, p - HEADER) >= size
    {
      p, source, target := Grant(w, size, mapped);
      AllKeptBoth(v, w, Snapshot());
      assert p != NULL ==> Kept(v, w, p - HEADER);
    }

    /** What the operating system promises about the break and about a new mapping. */
    ghost predicate Environment(size: nat, brk: nat, sbrkOk: bool, mapped: Option<nat>)
      reads this
    {
      && (!initialized ==> brk > 0 && BreakClear(mmaps, HeapBase(brk)))
      && (mapped.Some? ==>
            FreshMapping(mmaps, initialized || sbrkOk, if initialized then base else HeapBase(brk), mapped.value, size))
    }

    /** Allocation from a state that is named, so that nothing later has to look back. */
    method Obtain(ghost v: View, ghost o: Origin, size: nat, brk: nat, sbrkOk: bool, mapped: Option<nat>)
      returns (p: nat, ghost h0: Heap, ghost source: nat, ghost target: nat)
      requires Valid() && v == Snapshot() && o == Past() && Environment(size, brk, sbrkOk, mapped)
      modifies this, store
      ensures Valid() && Past() == Later(o, v.mmaps, brk, sbrkOk)
      ensures h0 == StartHeap(o, v.heap, brk, sbrkOk)
      ensures Granted(h0, v.mmaps, heap, mmaps, size, mapped, p, source, target)
      ensures AllKept(v, Snapshot())
      ensures p != NULL ==> p >= HEADER && !Live(v.heap, v.mmaps, p - HEADER)
      ensures p != NULL ==> Live(heap, mmaps, p - HEADER) && Capacity(heap, mmaps, p - HEADER) >= size
      ensures o.initialized && p == NULL ==> store.mem == v.mem
      ensures o.initialized ==> SameOutside(v.mem, store.mem, heap, mmaps)
    {
      EnsureHeap(brk, sbrkOk);
      ghost var w := Snapshot();
      h0 := heap;
      p, source, target := GrantLater(v, w, size, mapped);
    }

    /** Allocation. The environment supplies the program break, whether sbrk succeeds on first
        use, and what mmap returns for a large request. */
    method Smalloc(size: nat, brk: nat, sbrkOk: bool, mapped: Option<nat>)
      returns (p: nat, ghost h0: Heap, ghost source: nat, ghost target: nat)
      requires Valid() && Environment(size, brk, sbrkOk, mapped)
      modifies this, store
      ensures Valid() && Past() == Later(old(Past()), old(mmaps), brk, sbrkOk)
      ensures h0 == StartHeap(old(Past()), old(heap), brk, sbrkOk)
      ensures Granted(h0, old(mmaps), heap, mmaps, size, mapped, p, source, target)
      ensures AllKept(old(Snapshot()), Snapshot())
      ensures p != NULL ==> p >= HEADER && !Live(old(heap), old(mmaps), p - HEADER)
      ensures p != NULL ==> Live(heap, mmaps, p - HEADER) && Capacity(heap, mmaps, p - HEADER) >= size
      ensures old(initialized) && p == NULL ==> store.mem == old(store.mem)
      ensures old(initialized) ==> SameOutside(old(store.mem), store.mem, heap, mmaps)
    {
      p, h0, source, target := Obtain(Snapshot(), Past(), size, brk, sbrkOk, mapped);
    }

    /** Marks a used block as free and lists it. */
    method Release(block: nat)
      requires Linkage() && Tiling(heap, base) && block in heap && !heap[block].free && block != NULL
      modifies `heap, store
      ensures Linkage() && heap == old(heap)[block := old(heap)[block].(free := true)] && Tiling(heap, base)
      ensures Drift() == old(Drift())
      ensures Untouched(old(store.mem), store.mem, old(heap))
    {
      ghost var m, k := store.mem, heap[block].order;
      assert PlacedIn(heap, block, base);
      store.mem := store.mem[block := At(store.mem, block).(isFree := true)];
      ghost var m1 := store.mem;
      assert HeaderAt(m, block, heap[block]);
      var blockOrder := OrderOfHeader(block, Block(k, true));
      AgreeUsed(store.list, heap, block, k);
      LinkedFrame(m, m1, store.head, store.list);
      MarkedHeaders(m, m, m1, heap, block, true);
      Attach(blockOrder, block, heap);
      LinksKeepHeaders(m1, store.mem, heap[block := Block(k, true)]);
      UntouchedTwice(m, m1, store.mem, heap, heap[block := Block(k, true)]);
      RemarkTiling(heap, base, block, true);
      Remark(block, Block(k, true));
    }

    /** Releases a block and merges it as far as possible. */
    method ReleaseAndMerge(block: nat)
      requires Linkage() && Tiling(heap, base) && block in heap && !heap[block].free && block != NULL
      modifies `allocatedBlocks, `allocatedBytes, `metadataBytes, `heap, store
      ensures Linkage() && heap == Free(old(heap), block) && Drift() == old(Drift())
      ensures Untouched(old(store.mem), store.mem, old(heap))
    {
      ghost var h0, m0 := heap, store.mem;
      Release(block);
      ghost var h1, m1 := heap, store.mem;
      assert PlacedIn(h1, block, base);
      var _ := AttemptFreeBuddyMerge(block, MAX_ORDER);
      UntouchedTrans(m0, m1, store.mem, h0, h1);
    }

    method FreeBlock(block: nat)
      requires Valid() && block in heap && !heap[block].free && block != NULL && initialized
      modifies `allocatedBlocks, `allocatedBytes, `metadataBytes, `heap, store
      ensures Valid() && heap == Free(old(heap), block)
      ensures Untouched(old(store.mem), store.mem, old(heap))
    {
      ghost var h0, m0 := heap, store.mem;
      FreeKeeps(h0, base, block);
      ReleaseAndMerge(block);
      MappedFrame(m0, store.mem, mmaps, initialized, base, h0);
    }

    method UnmapBlock(block: nat, unmapOk: bool)
      requires Valid() && block in mmaps && At(store.mem, block).size == mmaps[block]
      modifies `allocatedBlocks, `allocatedBytes, `metadataBytes, `mmaps
      ensures Valid() && mmaps == if unmapOk then old(mmaps) - {block} else old(mmaps)
    {
      var payloadSize := At(store.mem, block).size;
      if unmapOk {
        MappedRemove(store.mem, mmaps, initialized, base, block);
        CountUnmap(block, payloadSize);
      }
    }

    /** A header tells heap blocks from mappings, and free from used. */
    lemma HeaderTells(b: nat)
      requires Valid() && (b in heap || b in mmaps)
      ensures b != NULL
      ensures b in heap <==> b !in mmaps
      ensures b in heap <==> At(store.mem, b).size + HEADER <= MMAP_LIMIT
      ensures b in heap ==> initialized && HeaderAt(store.mem, b, heap[b])
      ensures b in mmaps ==> At(store.mem, b).size == mmaps[b] && !At(store.mem, b).isFree
    {
      assert MmapOk(store.mem, mmaps, initialized, base, b);
      assert PlacedIn(heap, b, base);
      TopBlockSize();
      if b in heap {
        assert HeaderAt(store.mem, b, heap[b]);
        if heap[b].order < MAX_ORDER {
          BlockSizeMonotone(heap[b].order, MAX_ORDER);
        }
      }
    }

    /** Deallocation, from the header on: a block that is already free is left alone. */
    method FreeAt(block: nat, unmapOk: bool)
      requires Valid() && (block in heap || block in mmaps)
      modifies `allocatedBlocks, `allocatedBytes, `metadataBytes, `heap, `mmaps, store
      ensures Valid() && heap == FreedHeap(old(heap), block) && mmaps == FreedMmaps(old(mmaps), block, unmapOk)
      ensures Untouched(old(store.mem), store.mem, old(heap))
    {
      HeaderTells(block);
      if At(store.mem, block).isFree {
        return;
      }
      var totalSize := At(store.mem, block).size + HEADER;
      if totalSize > MMAP_LIMIT {
        UnmapBlock(block, unmapOk);
        return;
      }
      FreeBlock(block);
    }

    /** A pointer a client may pass: NULL, or just after the header of a block or mapping. */
    ghost predicate Handed(p: nat)
      reads this
    {
      p == NULL || (p >= HEADER && (p - HEADER in heap || p - HEADER in mmaps))
    }

    /** Deallocation of a pointer that was handed out. */
    method Sfree(p: nat, unmapOk: bool)
      requires Valid() && Handed(p)
      modifies `allocatedBlocks, `allocatedBytes, `metadataBytes, `heap, `mmaps, store
      ensures Valid()
      ensures p == NULL ==> heap == old(heap) && mmaps == old(mmaps) && store.mem == old(store.mem)
      ensures p != NULL ==>
        heap == FreedHeap(old(heap), p - HEADER) && mmaps == FreedMmaps(old(mmaps), p - HEADER, unmapOk)
      ensures Untouched(old(store.mem), store.mem, old(heap))
    {
      if p == NULL {
        return;
      }
      FreeAt(p - HEADER, unmapOk);
    }

    /** A client writes a granule of its own payload, and the allocator does not notice. */
    method ClientWrite(b: nat, x: nat, g: Granule)
      requires Valid() && InPayload(heap, mmaps, b, x)
      modifies store`mem
      ensures Valid() && store.mem == old(store.mem)[x := g]
    {
      ghost var m := store.mem;
      PayloadNotStart(m, heap, mmaps, initialized, base, b, x);
      store.mem := store.mem[x := g];
      PayloadWrites(m, store.mem, store.head, store.list, heap, mmaps, initialized, base);
    }

    // ---- Reallocation ----

    function FindBuddyWithSize(block: nat, size: nat): nat {
      Xor(block, size + HEADER)
    }

    /** The feasibility loop of srealloc: it marks the old header free, reads headers, and restores it. */
    method ProbeMerge(oldBlock: nat, size: nat) returns (canMerge: bool, mergedSize: nat)
      requires oldBlock in store.mem && !At(store.mem, oldBlock).isFree
      modifies store`mem
      ensures Probe(canMerge, mergedSize) == ProbeOf(store.mem, oldBlock, size)
      ensures store.mem == old(store.mem)
    {
      ghost var m0 := store.mem;
      var originalSize := At(store.mem, oldBlock).size;
      store.mem := store.mem[oldBlock := At(store.mem, oldBlock).(isFree := true)];
      ghost var m := store.mem;
      canMerge := true;
      var mergeCandidate := oldBlock;
      var buddy := FindBuddy(mergeCandidate);
      mergedSize := At(store.mem, mergeCandidate).size;
      while mergedSize < size
        invariant store.mem == m && canMerge
        invariant ProbeFrom(m, mergeCandidate, buddy, mergedSize, size) == ProbeOf(m0, oldBlock, size)
        decreases if mergedSize < size then size - mergedSize else 0
      {
        if mergeCandidate == NULL || buddy == NULL
           || At(store.mem, mergeCandidate).size != At(store.mem, buddy).size {
          canMerge := false;
          break;
        }
        var order := GetBlockOrder(mergeCandidate);
        TopOnlyIsTop(At(store.mem, mergeCandidate).size + HEADER, order);
        if !At(store.mem, mergeCandidate).isFree || !At(store.mem, buddy).isFree || order == MAX_ORDER {
          canMerge := false;
          break;
        }
        if mergeCandidate > buddy {
          mergeCandidate := buddy;
        }
        mergedSize := mergedSize * 2 + HEADER;
        buddy := FindBuddyWithSize(mergeCandidate, mergedSize - HEADER);
      }
      assert Probe(canMerge, mergedSize) == ProbeOf(m0, oldBlock, size);
      store.mem := store.mem[oldBlock := At(store.mem, oldBlock).(size := originalSize)];
      store.mem := store.mem[oldBlock := At(store.mem, oldBlock).(isFree := false)];
      assert store.mem == m0;
    }

    /** Marks a free block as used and takes it out of its list. */
    method Claim(block: nat)
      requires Linkage() && Tiling(heap, base) && block in heap && heap[block].free
      modifies store, `heap
      ensures Linkage() && heap == old(heap)[block := old(heap)[block].(free := false)]
      ensures Drift() == old(Drift())
      ensures Untouched(old(store.mem), store.mem, heap) && SameSizes(old(store.mem), store.mem)
    {
      ghost var m, k := store.mem, heap[block].order;
      assert PlacedIn(heap, block, base) && HeaderAt(m, block, heap[block]);
      store.mem := store.mem[block := At(store.mem, block).(isFree := false)];
      ghost var m1 := store.mem;
      LinkedFrame(m, m1, store.head, store.list);
      var order := OrderOfHeader(block, Block(k, false));
      Detach(order, block, heap);
      AgreeUsed(store.list, heap - {block}, block, k);
      RemarkAlt(heap, block, Block(k, false));
      MarkedHeaders(m, m, m1, heap, block, false);
      LinksKeepHeaders(m1, store.mem, heap[block := Block(k, false)]);
      UntouchedTwice(m, m1, store.mem, heap, heap[block := Block(k, false)]);
      SizesKept(m, m1, store.mem, block);
      Remark(block, Block(k, false));
    }

    /** Grows a block in place as far as its free buddies reach, towards the probed size. */
    method GrowHeaders(block: nat, mergedSize: nat, ghost need: nat) returns (merged: nat)
      requires Linkage() && Tiling(heap, base) && block in heap && !heap[block].free && block != NULL
      requires heap[block].order < need <= MAX_ORDER && mergedSize == BlockSize(need) - HEADER
      modifies `allocatedBlocks, `allocatedBytes, `metadataBytes, `heap, store
      ensures Linkage() && Drift() == old(Drift())
      ensures heap == Grown(old(heap), block, need) && merged == GrownAt(old(heap), block, need)
      ensures Untouched(old(store.mem), store.mem, old(heap))
      ensures merged in heap && StaleHeader(old(store.mem), store.mem, block, (heap, merged))
    {
      ghost var h0, m0 := heap, store.mem;
      Release(block);
      ghost var h1, m1 := heap, store.mem;
      assert HeaderAt(m0, block, h0[block]) && HeaderAt(m1, block, h1[block]);
      var target := GetRequiredOrder(mergedSize - HEADER);
      LeastOrderOfBlock(need, HEADER, target);
      merged := AttemptFreeBuddyMerge(block, target);
      ghost var h2, m2 := heap, store.mem;
      MergeUpTiling(h1, base, block, need);
      MergeUpBlock(h1, base, block, need);
      MergeUpUsed(h1, block, need);
      Claim(merged);
      UntouchedTrans(m0, m1, m2, h0, h1);
      UntouchedTrans(m0, m2, store.mem, h0, heap);
      assert At(store.mem, block).size == At(m2, block).size;
    }

    /** The same, with the counters kept. */
    method GrowCounted(block: nat, mergedSize: nat, ghost need: nat) returns (merged: nat)
      requires Linkage() && Tiling(heap, base) && block in heap && !heap[block].free && block != NULL
      requires heap[block].order < need <= MAX_ORDER && mergedSize == BlockSize(need) - HEADER && Counters()
      modifies `allocatedBlocks, `allocatedBytes, `metadataBytes, `heap, store
      ensures Linkage() && Counters()
      ensures heap == Grown(old(heap), block, need) && merged == GrownAt(old(heap), block, need)
      ensures Untouched(old(store.mem), store.mem, old(heap))
      ensures merged in heap && StaleHeader(old(store.mem), store.mem, block, (heap, merged))
    {
      ghost var d, o := Drift(), Past();
      assert Balanced(d, o, mmaps);
      merged := GrowHeaders(block, mergedSize, need);
      assert Drift() == d && Past() == o;
    }

    /** The same, together with what the memmove needs to know. */
    method GrowMapped(ghost v: View, block: nat, mergedSize: nat, ghost need: nat) returns (merged: nat)
      requires Valid() && v == Snapshot() && block in heap && !heap[block].free && block != NULL
      requires heap[block].order < need <= MAX_ORDER && mergedSize == BlockSize(need) - HEADER
      modifies `allocatedBlocks, `allocatedBytes, `metadataBytes, `heap, store
      ensures Linkage() && Counters() && HeadersGrown(v, store.mem, initialized, base, block, need)
      ensures heap == Grown(v.heap, block, need) && merged == GrownAt(v.heap, block, need)
    {
      merged := GrowCounted(block, mergedSize, need);
      MappedFrame(v.mem, store.mem, mmaps, initialized, base, v.heap);
    }

    /** The memmove of in-place growth; the length is read from the old header, stale or not. */
    method MovePayload(ghost v: View, block: nat, merged: nat, ghost need: nat) returns (p: nat)
      requires Linkage() && v.mmaps == mmaps && HeadersGrown(v, store.mem, initialized, base, block, need)
      requires heap == Grown(v.heap, block, need) && merged == GrownAt(v.heap, block, need)
      modifies store`mem
      ensures Linkage() && Mapped(store.mem, mmaps, initialized, base) && p == merged + HEADER
      ensures AllKeptBut(v, Snapshot(), block)
      ensures SamePrefix(v.mem, block, store.mem, p - HEADER, BlockSize(v.heap[block].order) - HEADER)
    {
      ghost var m1 := store.mem;
      p := merged + HEADER;
      store.mem := MemMove(store.mem, p, block + HEADER, At(store.mem, block).size);
      GrownMoved(v, m1, store.mem, store.head, store.list, heap, p - HEADER, initialized, base, block, need);
    }

    /** In-place growth: merge, then move the payload. */
    method GrowAndMove(ghost v: View, block: nat, mergedSize: nat, ghost need: nat) returns (p: nat)
      requires Valid() && v == Snapshot() && block in heap && !heap[block].free && block != NULL
      requires heap[block].order < need <= MAX_ORDER && mergedSize == BlockSize(need) - HEADER
      modifies `allocatedBlocks, `allocatedBytes, `metadataBytes, `heap, store
      ensures Linkage() && Counters() && Mapped(store.mem, mmaps, initialized, base)
      ensures heap == Grown(v.heap, block, need) && p == GrownAt(v.heap, block, need) + HEADER
      ensures AllKeptBut(v, Snapshot(), block)
      ensures SamePrefix(v.mem, block, store.mem, p - HEADER, BlockSize(v.heap[block].order) - HEADER)
    {
      var merged := GrowMapped(v, block, mergedSize, need);
      p := MovePayload(v, block, merged, need);
    }

    /** In-place growth, keeping the allocator valid. */
    method GrowInPlace(ghost v: View, block: nat, mergedSize: nat, ghost need: nat) returns (p: nat)
      requires Valid() && v == Snapshot() && block in heap && !heap[block].free && block != NULL
      requires heap[block].order < need <= MAX_ORDER && mergedSize == BlockSize(need) - HEADER
      modifies `allocatedBlocks, `allocatedBytes, `metadataBytes, `heap, store
      ensures Valid() && heap == Grown(v.heap, block, need) && p == GrownAt(v.heap, block, need) + HEADER
      ensures AllKeptBut(v, Snapshot(), block)
      ensures SamePrefix(v.mem, block, store.mem, p - HEADER, BlockSize(v.heap[block].order) - HEADER)
    {
      GrownKeeps(heap, base, block, need);
      p := GrowAndMove(v, block, mergedSize, need);
    }

    lemma CapacityIsSize(block: nat)
      requires Valid() && Live(heap, mmaps, block)
      ensures At(store.mem, block).size == Capacity(heap, mmaps, block) && block != NULL
      ensures !At(store.mem, block).isFree && block in store.mem
    {
      HeaderTells(block);
      if block in heap {
        assert BlockSize(heap[block].order) - HEADER > 0;
      }
    }

    /** The memmove of the copying path. */
    method CopyPayload(ghost w: View, block: nat, p: nat)
      requires Valid() && w == Snapshot()
      requires p >= HEADER && Live(heap, mmaps, p - HEADER) && Live(heap, mmaps, block)
      requires Capacity(heap, mmaps, block) <= Capacity(heap, mmaps, p - HEADER)
      modifies store`mem
      ensures Valid() && AllKeptBut(w, Snapshot(), p - HEADER)
      ensures SamePrefix(w.mem, block, store.mem, p - HEADER, Capacity(heap, mmaps, block))
    {
      CapacityIsSize(block);
      store.mem := MemMove(store.mem, p, block + HEADER, At(store.mem, block).size);
      CopyKeeps(w, store.mem, initialized, base, block, p - HEADER);
      PayloadWrites(w.mem, store.mem, store.head, store.list, heap, mmaps, initialized, base);
    }

    /** Freeing a live block, seen by the other clients. */
    method FreeLive(ghost w: View, block: nat, unmapOk: bool)
      requires Valid() && w == Snapshot() && Live(heap, mmaps, block)
      modifies `allocatedBlocks, `allocatedBytes, `metadataBytes, `heap, `mmaps, store
      ensures Valid() && AllKeptBut(w, Snapshot(), block)
      ensures heap == FreedHeap(w.heap, block) && mmaps == FreedMmaps(w.mmaps, block, unmapOk)
      ensures Live(heap, mmaps, block) ==> block in w.mmaps && !unmapOk
    {
      FreeAt(block, unmapOk);
      FreedView(w, Snapshot(), initialized, base, block, unmapOk);
    }

    /** Allocation, with the condition on which it fails. */
    method AllocateAnew(ghost v: View, ghost o: Origin, size: nat, brk: nat, sbrkOk: bool, mapped: Option<nat>, ghost need: nat)
      returns (p: nat, ghost source: nat, ghost target: nat)
      requires Valid() && v == Snapshot() && o == Past() && Environment(size, brk, sbrkOk, mapped)
      requires 0 < size <= MAX_ALLOCATION
      requires size + HEADER <= MMAP_LIMIT ==> LeastOrder(size + HEADER, need)
      modifies this, store
      ensures Valid() && AllKept(v, Snapshot()) && Past() == Later(o, v.mmaps, brk, sbrkOk)
      ensures Granted(StartHeap(o, v.heap, brk, sbrkOk), v.mmaps, heap, mmaps, size, mapped, p, source, target)
      ensures p == NULL <==> Denied(StartHeap(o, v.heap, brk, sbrkOk), size, mapped, need)
      ensures p == NULL ==> heap == StartHeap(o, v.heap, brk, sbrkOk) && mmaps == v.mmaps
      ensures p != NULL ==> p >= HEADER && !Live(v.heap, v.mmaps, p - HEADER)
      ensures p != NULL ==> Live(heap, mmaps, p - HEADER) && Capacity(heap, mmaps, p - HEADER) >= size
      ensures p != NULL ==> mmaps == if size + HEADER > MMAP_LIMIT then v.mmaps[p - HEADER := size] else v.mmaps
    {
      ghost var h0;
      p, h0, source, target := Smalloc(size, brk, sbrkOk, mapped);
      GrantedOrDenied(h0, v.mmaps, heap, mmaps, size, mapped, p, source, target, need);
    }

    method FreeOld(ghost v: View, ghost w1: View, ghost w2: View, block: nat, ghost b: nat, unmapOk: bool)
      requires Valid() && w2 == Snapshot() && CopiedOver(v, w1, w2, block, b) && Live(heap, mmaps, block)
      modifies `allocatedBlocks, `allocatedBytes, `metadataBytes, `heap, `mmaps, store
      ensures Valid() && Reallocated(v, Snapshot(), block, b, unmapOk)
      ensures heap == FreedHeap(w2.heap, block) && mmaps == FreedMmaps(w2.mmaps, block, unmapOk)
      ensures Capacity(heap, mmaps, b) == Capacity(w1.heap, w1.mmaps, b)
    {
      FreeLive(w2, block, unmapOk);
      Relocation(v, w1, w2, Snapshot(), block, b, unmapOk);
    }

    method MoveAndFree(ghost v: View, ghost w1: View, block: nat, p: nat, unmapOk: bool)
      requires Valid() && w1 == Snapshot() && AllKept(v, w1)
      requires Live(v.heap, v.mmaps, block) && Live(heap, mmaps, block)
      requires p >= HEADER && Live(heap, mmaps, p - HEADER) && !Live(v.heap, v.mmaps, p - HEADER)
      requires Capacity(v.heap, v.mmaps, block) == Capacity(heap, mmaps, block) <= Capacity(heap, mmaps, p - HEADER)
      requires block in mmaps <==> block in v.mmaps
      modifies `allocatedBlocks, `allocatedBytes, `metadataBytes, `heap, `mmaps, store
      ensures Valid() && Reallocated(v, Snapshot(), block, p - HEADER, unmapOk)
      ensures heap == FreedHeap(w1.heap, block) && mmaps == FreedMmaps(w1.mmaps, block, unmapOk)
      ensures Capacity(heap, mmaps, p - HEADER) == Capacity(w1.heap, w1.mmaps, p - HEADER)
    {
      CopyPayload(w1, block, p);
      FreeOld(v, w1, Snapshot(), block, p - HEADER, unmapOk);
    }

    /** The same, told as what reallocation promises. */
    method MoveOver(ghost v: View, ghost w1: View, ghost h0: Heap, block: nat, p: nat, ghost size: nat,
                    ghost mapped: Option<nat>, unmapOk: bool, ghost need: nat, ghost source: nat, ghost target: nat)
      requires Valid() && w1 == Snapshot() && AllKept(v, w1)
      requires Live(v.heap, v.mmaps, block) && Live(heap, mmaps, block)
      requires p >= HEADER && Live(heap, mmaps, p - HEADER) && !Live(v.heap, v.mmaps, p - HEADER)
      requires Capacity(v.heap, v.mmaps, block) == Capacity(heap, mmaps, block) <= size <= Capacity(heap, mmaps, p - HEADER)
      requires block in mmaps <==> block in v.mmaps
      requires Granted(h0, v.mmaps, w1.heap, w1.mmaps, size, mapped, p, source, target) && !Misled(v, block, size, need)
      modifies `allocatedBlocks, `allocatedBytes, `metadataBytes, `heap, `mmaps, store
      ensures Valid() && Past() == old(Past()) && ReallocDone(v, Snapshot(), Some(block), p, size, need, unmapOk)
      ensures MovedTo(h0, v.mmaps, heap, mmaps, block, size, mapped, unmapOk, p)
    {
      assert Obtained(h0, v.mmaps, w1.heap, w1.mmaps, size, mapped, p);
      MoveAndFree(v, w1, block, p, unmapOk);
    }

    /** The copying path of srealloc: allocate, move the payload, free the old block. It fails exactly
        when there is no room, and then changes nothing but what a first use sets up. */
    method Relocate(ghost v: View, ghost o: Origin, block: nat, size: nat, brk: nat, sbrkOk: bool,
                    mapped: Option<nat>, unmapOk: bool, ghost need: nat) returns (p: nat)
      requires Valid() && v == Snapshot() && o == Past() && Live(heap, mmaps, block) && Environment(size, brk, sbrkOk, mapped)
      requires Capacity(heap, mmaps, block) <= size && !Misled(v, block, size, need) && 0 < size <= MAX_ALLOCATION
      requires size + HEADER <= MMAP_LIMIT ==> LeastOrder(size + HEADER, need)
      modifies this, store
      ensures Valid() && ReallocDone(v, Snapshot(), Some(block), p, size, need, unmapOk)
      ensures Past() == Later(o, v.mmaps, brk, sbrkOk)
      ensures p == NULL <==> Denied(StartHeap(o, v.heap, brk, sbrkOk), size, mapped, need)
      ensures p == NULL ==> heap == StartHeap(o, v.heap, brk, sbrkOk) && mmaps == v.mmaps
      ensures p != NULL ==>
                MovedTo(StartHeap(o, v.heap, brk, sbrkOk), v.mmaps, heap, mmaps, block, size, mapped, unmapOk, p)
    {
      ghost var source, target;
      p, source, target := AllocateAnew(v, o, size, brk, sbrkOk, mapped, need);
      if p != NULL {
        ghost var w1 := Snapshot();
        assert Kept(v, w1, block);
        MoveOver(v, w1, StartHeap(o, v.heap, brk, sbrkOk), block, p, size, mapped, unmapOk, need, source, target);
      }
    }

    /** In-place growth after a probe that passed. */
    method GrowProbed(ghost v: View, block: nat, size: nat, mergedSize: nat, ghost need: nat, ghost unmapOk: bool)
      returns (p: nat)
      requires Valid() && v == Snapshot() && Live(heap, mmaps, block) && block in heap
      requires heap[block].order < need && LeastOrder(size + HEADER, need) && size + HEADER <= MMAP_LIMIT
      requires ProbeOf(v.mem, block, size) == Probe(true, mergedSize)
      modifies `allocatedBlocks, `allocatedBytes, `metadataBytes, `heap, store
      ensures Valid() && p != NULL && ReallocDone(v, Snapshot(), Some(block), p, size, need, unmapOk)
      ensures heap == Grown(v.heap, block, need) && mmaps == v.mmaps && p == GrownAt(v.heap, block, need) + HEADER
    {
      CapacityIsSize(block);
      HeaderTells(block);
      ProbeReaches(v.mem[block := At(v.mem, block).(isFree := true)], block, Xor(block, At(v.mem, block).size + HEADER),
                   At(v.mem, block).size, size, heap[block].order, need);
      p := GrowInPlace(v, block, mergedSize, need);
      GrownResult(v, Snapshot(), initialized, base, block, size, need, unmapOk);
    }

    /** The part of srealloc behind its size checks: probe a small request, then grow or copy. */
    method GrowOrRelocate(ghost v: View, ghost o: Origin, block: nat, size: nat, brk: nat, sbrkOk: bool,
                          mapped: Option<nat>, unmapOk: bool, ghost need: nat) returns (p: nat)
      requires Valid() && v == Snapshot() && o == Past() && Live(heap, mmaps, block) && Environment(size, brk, sbrkOk, mapped)
      requires Capacity(heap, mmaps, block) < size && size + HEADER <= MMAP_LIMIT && size <= MAX_ALLOCATION
      requires size + HEADER <= MMAP_LIMIT ==> LeastOrder(size + HEADER, need)
      modifies this, store
      ensures Valid()
      ensures ReallocDone(v, Snapshot(), Some(block), p, size, need, unmapOk)
      ensures Branched(o, v, Past(), Snapshot(), block, p, size, brk, sbrkOk, mapped, unmapOk, need)
    {
      CapacityIsSize(block);
      HeaderTells(block);
      var canMerge, mergedSize := ProbeMerge(block, size);
      TooSmall(heap[block].order, size, need);
      if canMerge {
        assert !MustMove(v, block, size);
        p := GrowProbed(v, block, size, mergedSize, need, unmapOk);
        assert Branched(o, v, Past(), Snapshot(), block, p, size, brk, sbrkOk, mapped, unmapOk, need);
      } else {
        assert MustMove(v, block, size);
        p := Relocate(v, o, block, size, brk, sbrkOk, mapped, unmapOk, need);
        assert Branched(o, v, Past(), Snapshot(), block, p, size, brk, sbrkOk, mapped, unmapOk, need);
      }
    }

    /** Reallocation of a live block that is too small. */
    method ReallocShort(ghost v: View, ghost o: Origin, block: nat, size: nat, brk: nat, sbrkOk: bool,
                        mapped: Option<nat>, unmapOk: bool, ghost need: nat) returns (p: nat)
      requires Valid() && v == Snapshot() && o == Past() && Environment(size, brk, sbrkOk, mapped)
      requires Live(heap, mmaps, block) && Capacity(heap, mmaps, block) < size <= MAX_ALLOCATION
      requires size + HEADER <= MMAP_LIMIT ==> LeastOrder(size + HEADER, need)
      modifies this, store
      ensures Valid() && ReallocDone(v, Snapshot(), Some(block), p, size, need, unmapOk)
      ensures Branched(o, v, Past(), Snapshot(), block, p, size, brk, sbrkOk, mapped, unmapOk, need)
    {
      if size + HEADER > MMAP_LIMIT {
        p := Relocate(v, o, block, size, brk, sbrkOk, mapped, unmapOk, need);
      } else {
        p := GrowOrRelocate(v, o, block, size, brk, sbrkOk, mapped, unmapOk, need);
      }
    }

    /** The first test of srealloc, on the old header. */
    method Fits(block: nat, size: nat) returns (fits: bool)
      requires Valid() && Live(heap, mmaps, block)
      ensures fits <==> Capacity(heap, mmaps, block) >= size
    {
      CapacityIsSize(block);
      fits := At(store.mem, block).size >= size;
    }

    /** Nothing is done to a block that fits. */
    lemma HandedBack(v: View, o: Origin, block: nat, size: nat, brk: nat, sbrkOk: bool,
                     mapped: Option<nat>, unmapOk: bool, need: nat)
      requires v == Snapshot() && o == Past() && Live(heap, mmaps, block) && Capacity(heap, mmaps, block) >= size
      ensures ReallocDone(v, Snapshot(), Some(block), block + HEADER, size, need, unmapOk)
      ensures Branched(o, v, Past(), Snapshot(), block, block + HEADER, size, brk, sbrkOk, mapped, unmapOk, need)
    {
      Unchanged(v, block, size, need, unmapOk);
    }

    /** Reallocation of a live block to a size within the limits. */
    method ReallocLive(ghost v: View, ghost o: Origin, block: nat, size: nat, brk: nat, sbrkOk: bool,
                       mapped: Option<nat>, unmapOk: bool, ghost need: nat) returns (p: nat)
      requires Valid() && v == Snapshot() && o == Past() && Environment(size, brk, sbrkOk, mapped)
      requires Live(heap, mmaps, block) && 0 < size <= MAX_ALLOCATION
      requires size + HEADER <= MMAP_LIMIT ==> LeastOrder(size + HEADER, need)
      modifies this, store
      ensures Valid() && ReallocDone(v, Snapshot(), Some(block), p, size, need, unmapOk)
      ensures Branched(o, v, Past(), Snapshot(), block, p, size, brk, sbrkOk, mapped, unmapOk, need)
    {
      var fits := Fits(block, size);
      if fits {
        HandedBack(v, o, block, size, brk, sbrkOk, mapped, unmapOk, need);
        p := block + HEADER;
      } else {
        p := ReallocShort(v, o, block, size, brk, sbrkOk, mapped, unmapOk, need);
      }
    }

    /** Reallocation of nothing is allocation. */
    method ReallocNull(ghost v: View, ghost o: Origin, size: nat, brk: nat, sbrkOk: bool, mapped: Option<nat>,
                       ghost need: nat, ghost unmapOk: bool) returns (p: nat)
      requires Valid() && v == Snapshot() && o == Past() && Environment(size, brk, sbrkOk, mapped)
      requires 0 < size <= MAX_ALLOCATION && (size + HEADER <= MMAP_LIMIT ==> LeastOrder(size + HEADER, need))
      modifies this, store
      ensures Valid() && ReallocDone(v, Snapshot(), None, p, size, need, unmapOk)
      ensures Past() == Later(o, v.mmaps, brk, sbrkOk)
      ensures p == NULL <==> Denied(StartHeap(o, v.heap, brk, sbrkOk), size, mapped, need)
      ensures Obtained(StartHeap(o, v.heap, brk, sbrkOk), v.mmaps, heap, mmaps, size, mapped, p)
    {
      ghost var source, target;
      p, source, target := AllocateAnew(v, o, size, brk, sbrkOk, mapped, need);
    }

    lemma AllSettled()
      requires Valid()
      ensures Settled(Past(), Snapshot())
    {
      forall a | a in heap
        ensures a !in mmaps
      {
        HeaderTells(a);
      }
    }

    /** The three cases of srealloc. */
    method Reallocate(ghost v: View, ghost o: Origin, oldp: nat, size: nat, brk: nat, sbrkOk: bool,
                      mapped: Option<nat>, unmapOk: bool, ghost need: nat) returns (p: nat)
      requires Valid() && v == Snapshot() && o == Past() && Environment(size, brk, sbrkOk, mapped)
      requires oldp == NULL || (oldp >= HEADER && Live(heap, mmaps, oldp - HEADER))
      requires size > 0 && size + HEADER <= MMAP_LIMIT ==> LeastOrder(size + HEADER, need)
      modifies this, store
      ensures Valid() && ReallocDone(v, Snapshot(), BlockOf(oldp), p, size, need, unmapOk)
      ensures Outcome(o, v, Past(), Snapshot(), oldp, p, size, brk, sbrkOk, mapped, unmapOk, need)
    {
      if size == 0 || size > MAX_ALLOCATION {
        AllKeptRefl(v);
        p := NULL;
      } else if oldp == NULL {
        p := ReallocNull(v, o, size, brk, sbrkOk, mapped, need, unmapOk);
      } else {
        var block := oldp - HEADER;
        assert BlockOf(oldp) == Some(block);
        p := ReallocLive(v, o, block, size, brk, sbrkOk, mapped, unmapOk, need);
      }
    }

    /** Reallocation. The environment is as for Smalloc, plus whether munmap succeeds; v and o name
        the state before the call. */
    method Srealloc(ghost v: View, ghost o: Origin, oldp: nat, size: nat, brk: nat, sbrkOk: bool,
                    mapped: Option<nat>, unmapOk: bool) returns (p: nat, ghost need: nat)
      requires Valid() && v == Snapshot() && o == Past() && Environment(size, brk, sbrkOk, mapped)
      requires oldp == NULL || (oldp >= HEADER && Live(heap, mmaps, oldp - HEADER))
      modifies this, store
      ensures Valid() && ReallocDone(v, Snapshot(), BlockOf(oldp), p, size, need, unmapOk)
      ensures 0 < size && size + HEADER <= MMAP_LIMIT ==> LeastOrder(size + HEADER, need)
      ensures Outcome(o, v, Past(), Snapshot(), oldp, p, size, brk, sbrkOk, mapped, unmapOk, need)
      ensures size == 0 || size > MAX_ALLOCATION ==> p == NULL && Snapshot() == v
      ensures 0 < size <= MAX_ALLOCATION && oldp != NULL && Capacity(v.heap, v.mmaps, oldp - HEADER) >= size ==>
                p == oldp && Snapshot() == v
      ensures forall a {:trigger Live(heap, mmaps, a)} ::
                Live(heap, mmaps, a) ==> Live(v.heap, v.mmaps, a) || (p != NULL && a == p - HEADER)
    {
      assert Settled(o, v) && (!o.initialized ==> brk > 0) by { AllSettled(); }
      need := RequiredOrder(size);
      p := Reallocate(v, o, oldp, size, brk, sbrkOk, mapped, unmapOk, need);
      ghost var w := Snapshot();
      NothingElse(o, v, Past(), w, oldp, p, size, brk, sbrkOk, mapped, unmapOk, need);
    }

    // ---- Statistics ----

    /** The inner loop of the count: one list is walked and counted on top of the earlier ones. */
    method CountList(i: nat, soFar: nat, ghost before: set<nat>) returns (count: nat, ghost seen: set<nat>)
      requires store.Valid() && i < LISTS && soFar == |before| && ListedBelow(store.list, i, before)
      ensures count == |seen| && ListedBelow(store.list, i + 1, seen)
    {
      count, seen := soFar, before;
      ghost var s := store.list[i];
      assert ListOk(store.mem, store.head, store.list, i);
      ChainNonNull(store.mem, store.head[i], s);
      var curr := store.head[i];
      ghost var j := 0;
      while curr != NULL
        invariant 0 <= j <= |s| && curr == ItemAt(s, j) && count == |seen|
        invariant WalkedTo(before, s, j, seen)
        decreases |s| - j
      {
        assert ChainedAt(store.mem, s, j);
        NotSeenYet(store.mem, store.head, store.list, i, j, before);
        WalkOn(before, s, j, seen);
        seen := seen + {curr};
        count := count + 1;
        curr := At(store.mem, curr).next;
        j := j + 1;
      }
      WalkDone(store.list, i, before, seen);
    }

    /** Counts the blocks in all free lists. */
    method FreeBlocksCount() returns (count: nat)
      requires Valid()
      ensures count == |FreeBlocks(heap)|
    {
      count := 0;
      var i := 0;
      ghost var seen: set<nat> := {};
      while i <= MAX_ORDER
        invariant 0 <= i <= LISTS && count == |seen| && ListedBelow(store.list, i, seen)
      {
        count, seen := CountList(i, count, seen);
        i := i + 1;
      }
      AllListed(store.list, heap, base, seen);
    }

    method AddList(i: nat, soFar: nat, ghost before: set<nat>) returns (bytes: nat, ghost seen: set<nat>)
      requires Linkage() && i < LISTS && soFar == PayloadOver(heap, before) && ListedBelow(store.list, i, before)
      ensures bytes == PayloadOver(heap, seen) && ListedBelow(store.list, i + 1, seen)
    {
      bytes, seen := soFar, before;
      ghost var s := store.list[i];
      assert ListOk(store.mem, store.head, store.list, i);
      ChainNonNull(store.mem, store.head[i], s);
      var curr := store.head[i];
      ghost var j := 0;
      while curr != NULL
        invariant 0 <= j <= |s| && curr == ItemAt(s, j) && bytes == PayloadOver(heap, seen)
        invariant WalkedTo(before, s, j, seen)
        decreases |s| - j
      {
        assert ChainedAt(store.mem, s, j);
        NotSeenYet(store.mem, store.head, store.list, i, j, before);
        WalkOn(before, s, j, seen);
        assert Listed(store.list, i, curr) && HeaderAt(store.mem, curr, heap[curr]);
        PayloadAdd(heap, seen, curr);
        seen := seen + {curr};
        bytes := bytes + At(store.mem, curr).size;
        curr := At(store.mem, curr).next;
        j := j + 1;
      }
      WalkDone(store.list, i, before, seen);
    }

    /** Adds up the payload bytes of the blocks in all free lists. */
    method FreeBytesCount() returns (bytes: nat)
      requires Valid()
      ensures bytes == PayloadOver(heap, FreeBlocks(heap))
    {
      bytes := 0;
      var i := 0;
      ghost var seen: set<nat> := {};
      while i <= MAX_ORDER
        invariant 0 <= i <= LISTS && bytes == PayloadOver(heap, seen) && ListedBelow(store.list, i, seen)
      {
        bytes, seen := AddList(i, bytes, seen);
        i := i + 1;
      }
      AllListed(store.list, heap, base, seen);
    }

    /** The counters are exact, as counts and sums over the blocks that exist, precisely when no
        mmap block was live at the moment the heap was initialised. */
    lemma StatisticsExact()
      requires Valid()
      ensures metadataBytes == HEADER * allocatedBlocks
      ensures lostBlocks == 0 ==> allocatedBlocks == |heap| + |mmaps|
      ensures lostBlocks == 0 ==> allocatedBytes == PayloadOver(heap, heap.Keys) + Sum(mmaps)
      ensures lostBlocks == 0 && initialized ==>
        allocatedBytes + metadataBytes == HEAP_BYTES + Sum(mmaps) + HEADER * |mmaps|
      ensures allocatedBlocks == |heap| + |mmaps| - lostBlocks
      ensures initialized ==>
        allocatedBytes + metadataBytes == HEAP_BYTES + Sum(mmaps) + HEADER * |mmaps| - lostBytes
    {
      if initialized {
        TilingBytes(heap, base);
      }
    }
  }
}
