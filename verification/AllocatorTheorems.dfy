/** What the allocator promises across calls. */
module AllocatorTheorems {
  import opened Basics
  import opened Dyadic
  import opened Blocks
  import opened FreeLists
  import opened Metadata
  import opened Growth
  import opened Allocator

  /** A small request fails exactly when no aligned region of the required size is wholly free. */
  lemma NullIffNoRoom(h0: Heap, h: Heap, base: nat, p: nat, source: nat, target: nat)
    requires Tiling(h0, base) && Coalesced(h0) && CarvedFrom(h0, h, p, source, target)
    ensures p == NULL <==> !RegionAvailable(h0, base, target)
  {
    AvailableIffRegion(h0, base, target);
  }

  /** Freeing right after a successful small allocation restores the block set. */
  lemma FreeUndoesAllocation(h0: Heap, h: Heap, base: nat, p: nat, source: nat, target: nat)
    requires Tiling(h0, base) && Coalesced(h0) && CarvedFrom(h0, h, p, source, target) && p != NULL
    ensures FreedHeap(h, p - HEADER) == h0
  {
    CarveKeeps(h0, base, source, target);
    SplitDownTiling(h0, base, source, target);
    FreeUndoesCarve(h0, base, source, target);
  }

  /** The block set determines the free lists, down to the head pointers. */
  lemma ListsDetermined(m1: Memory, head1: seq<nat>, list1: seq<seq<nat>>,
                        m2: Memory, head2: seq<nat>, list2: seq<seq<nat>>, h: Heap)
    requires Linked(m1, head1, list1) && Agree(list1, h)
    requires Linked(m2, head2, list2) && Agree(list2, h)
    ensures list1 == list2 && head1 == head2
  {
    forall k | 0 <= k < LISTS
      ensures list1[k] == list2[k] && head1[k] == head2[k]
    {
      assert ListOk(m1, head1, list1, k) && ListOk(m2, head2, list2, k);
      forall a
        ensures a in list1[k] <==> a in list2[k]
      {
        assert Listed(list1, k, a) <==> Listed(list2, k, a);
      }
      SortedUnique(list1[k], list2[k]);
    }
  }

  lemma CarvedLive(h0: Heap, h: Heap, base: nat, p: nat, source: nat, target: nat)
    requires Tiling(h0, base) && Coalesced(h0) && CarvedFrom(h0, h, p, source, target) && p != NULL
    ensures p >= HEADER && p - HEADER in h && h[p - HEADER] == Block(target, false)
  {
    SplitDownTiling(h0, base, source, target);
  }

  method AllocateSmall(t: MemoryTracker, size: nat, brk: nat, sbrkOk: bool, mapped: Option<nat>) returns (p: nat)
    requires t.Valid() && t.initialized && size + HEADER <= MMAP_LIMIT && t.Environment(size, brk, sbrkOk, mapped)
    modifies t, t.store
    ensures t.Valid() && t.mmaps == old(t.mmaps) && t.Past() == old(t.Past())
    ensures p == NULL ==> t.heap == old(t.heap)
    ensures p != NULL ==> p >= HEADER && p - HEADER in t.heap && FreedHeap(t.heap, p - HEADER) == old(t.heap)
  {
    ghost var h, source, target;
    p, h, source, target := t.Smalloc(size, brk, sbrkOk, mapped);
    if p != NULL {
      FreeUndoesAllocation(h, t.heap, t.base, p, source, target);
      CarvedLive(h, t.heap, t.base, p, source, target);
    }
  }

  method FreeAgain(t: MemoryTracker, p: nat, ghost h0: Heap, unmapOk: bool)
    requires t.Valid() && p >= HEADER && p - HEADER in t.heap && FreedHeap(t.heap, p - HEADER) == h0
    modifies t`allocatedBlocks, t`allocatedBytes, t`metadataBytes, t`heap, t`mmaps, t.store
    ensures t.Valid() && t.heap == h0 && t.mmaps == old(t.mmaps)
  {
    t.HeaderTells(p - HEADER);
    t.Sfree(p, unmapOk);
  }

  /** smalloc followed by sfree of the result, for a request served from the heap: the block set,
      every free list, every list head and all three counters are what they were. */
  method AllocateThenFree(t: MemoryTracker, size: nat, brk: nat, sbrkOk: bool, mapped: Option<nat>, unmapOk: bool)
    requires t.Valid() && t.initialized && size + HEADER <= MMAP_LIMIT && t.Environment(size, brk, sbrkOk, mapped)
    modifies t, t.store
    ensures t.Valid() && t.heap == old(t.heap) && t.mmaps == old(t.mmaps)
    ensures t.store.list == old(t.store.list) && t.store.head == old(t.store.head)
    ensures t.allocatedBlocks == old(t.allocatedBlocks)
    ensures t.allocatedBytes == old(t.allocatedBytes) && t.metadataBytes == old(t.metadataBytes)
  {
    ghost var h0, m, head, list := t.heap, t.store.mem, t.store.head, t.store.list;
    var p := AllocateSmall(t, size, brk, sbrkOk, mapped);
    if p != NULL {
      FreeAgain(t, p, h0, unmapOk);
    }
    ListsDetermined(m, head, list, t.store.mem, t.store.head, t.store.list, h0);
  }

  // ---- When srealloc hands back enough, and when too little ----

  /** A caller may rely on the size of the result whenever the next order up is enough, or the buddy
      cannot be merged, or the last granule of the right half does not read as a free header of the
      old block's size. */
  lemma EnoughUnlessStale(t: MemoryTracker, block: nat, size: nat, need: nat)
    requires t.Valid() && block in t.heap && !t.heap[block].free
    requires LeastOrder(size + HEADER, need) && t.heap[block].order < need
    requires var k := t.heap[block].order;
             var g := At(t.store.mem, Lower(block, k) + BlockSize(k + 1) - HEADER);
             need == k + 1 || !CanMerge(t.heap, block, need) || !(g.isFree && g.size == BlockSize(k) - HEADER)
    ensures !Misled(t.Snapshot(), block, size, need)
  {
    var v := t.Snapshot();
    assert Probing(v.mem, v.heap, t.base, block, size, need) && Coalesced(v.heap);
    NeverShort(v, t.base, block, size, need);
  }

  /** When a request that a heap block is too small for comes back too small all the same: its buddy can
      be merged, every later address the probe reads holds the old size marked free, and yet the
      surrounding region is not free. */
  lemma ShortExactly(t: MemoryTracker, block: nat, size: nat, need: nat)
    requires t.Valid() && block in t.heap && !t.heap[block].free && size + HEADER <= MMAP_LIMIT
    requires LeastOrder(size + HEADER, need) && t.heap[block].order < need
    ensures var k, mem := t.heap[block].order, t.store.mem;
            Misled(t.Snapshot(), block, size, need) <==>
              && CanMerge(t.heap, block, need)
              && Echoes(mem[block := At(mem, block).(isFree := true)], Lower(block, k), k, k + 1, need)
              && !RoomToGrow(t.heap, block, need)
  {
    ProbeDecided(t.store.mem, t.heap, t.base, block, size, need);
    TooSmall(t.heap[block].order, size, need);
    t.HeaderTells(block);
  }

  /** When srealloc has to leave a block for a small request, although it might have grown: the buddy
      cannot be merged, or one of the later addresses the probe reads does not happen to hold the old
      size marked free. Being free does not help the surrounding region. */
  lemma MovesExactly(t: MemoryTracker, block: nat, size: nat, need: nat)
    requires t.Valid() && block in t.heap && !t.heap[block].free && size + HEADER <= MMAP_LIMIT
    requires LeastOrder(size + HEADER, need) && t.heap[block].order < need
    ensures var k, mem := t.heap[block].order, t.store.mem;
            var echoes := Echoes(mem[block := At(mem, block).(isFree := true)], Lower(block, k), k, k + 1, need);
            && (MustMove(t.Snapshot(), block, size) <==> !(CanMerge(t.heap, block, need) && echoes))
            && (RoomToGrow(t.heap, block, need) ==> (MustMove(t.Snapshot(), block, size) <==> !echoes))
  {
    ProbeDecided(t.store.mem, t.heap, t.base, block, size, need);
    TooSmall(t.heap[block].order, size, need);
    t.HeaderTells(block);
    OneStepGrown(t.heap, t.base, block, need);
  }

  // ---- Freeing everything ----

  /** The lists of an allocator with nothing in use: the top blocks in the last list, by address. */
  ghost predicate InitialLists(list: seq<seq<nat>>, base: nat) {
    && |list| == LISTS && list[MAX_ORDER] == TopList(base)
    && forall k :: 0 <= k < MAX_ORDER ==> list[k] == []
  }

  lemma NothingUsed(m: Memory, head: seq<nat>, list: seq<seq<nat>>, base: nat)
    requires Linked(m, head, list) && Agree(list, Initial(base)) && Aligned(base, HEAP_ORDER)
    ensures InitialLists(list, base)
  {
    var tops := TopList(base);
    InitialKeys(base);
    forall k | 0 <= k < MAX_ORDER
      ensures list[k] == []
    {
      if list[k] != [] {
        assert Listed(list, k, list[k][0]);
      }
    }
    forall a: nat
      ensures a in list[MAX_ORDER] <==> a in tops
    {
      assert a in list[MAX_ORDER] <==> Listed(list, MAX_ORDER, a);
      TopListMembers(base, a);
    }
    assert ListOk(m, head, list, MAX_ORDER);
    SortedUnique(list[MAX_ORDER], tops);
  }

  /** The pointers are those of the used heap blocks, each once. */
  ghost predicate AllUsed(h: Heap, ps: seq<nat>) {
    && (forall i, j :: 0 <= i < j < |ps| ==> ps[i] != ps[j])
    && (forall p :: p in ps <==> p >= HEADER && p - HEADER in h && !h[p - HEADER].free)
  }

  lemma OneFreed(h: Heap, base: nat, ps: seq<nat>)
    requires Tiling(h, base) && Coalesced(h) && ps != [] && AllUsed(h, ps)
    ensures ps[0] >= HEADER && ps[0] - HEADER in h && !h[ps[0] - HEADER].free
    ensures AllUsed(Free(h, ps[0] - HEADER), ps[1..])
  {
    assert ps[0] in ps;
    FreeKeeps(h, base, ps[0] - HEADER);
    forall p
      ensures p in ps <==> p == ps[0] || p in ps[1..]
    {
      if p in ps[1..] {
        var i :| 0 <= i < |ps[1..]| && ps[1..][i] == p;
        assert ps[i + 1] == p;
      }
    }
  }

  lemma NoneUsed(t: MemoryTracker)
    requires t.Valid() && t.initialized && AllUsed(t.heap, [])
    ensures t.heap == Initial(t.base) && InitialLists(t.store.list, t.base)
    ensures t.allocatedBlocks == NUM_TOP + |t.mmaps| - t.lostBlocks
  {
    forall a | a in t.heap
      ensures t.heap[a].free
    {
      assert a + HEADER !in [];
    }
    AllFreeIsInitial(t.heap, t.base);
    NothingUsed(t.store.mem, t.store.head, t.store.list, t.base);
    TopsKeys(t.base, NUM_TOP);
    t.StatisticsExact();
  }

  method FreeNext(t: MemoryTracker, p: nat, ghost rest: seq<nat>, unmapOk: bool)
    requires t.Valid() && t.initialized && rest != [] && AllUsed(t.heap, rest) && p == rest[0]
    modifies t`allocatedBlocks, t`allocatedBytes, t`metadataBytes, t`heap, t`mmaps, t.store
    ensures t.Valid() && AllUsed(t.heap, rest[1..]) && t.mmaps == old(t.mmaps)
  {
    OneFreed(t.heap, t.base, rest);
    t.HeaderTells(p - HEADER);
    t.Sfree(p, unmapOk);
  }

  /** sfree of every live heap pointer, in any order: the heap, its lists and its counters are those
      of a heap just set up, and the mappings are left alone. */
  method FreeEverything(t: MemoryTracker, ps: seq<nat>, unmapOk: bool)
    requires t.Valid() && t.initialized && AllUsed(t.heap, ps)
    modifies t`allocatedBlocks, t`allocatedBytes, t`metadataBytes, t`heap, t`mmaps, t.store
    ensures t.Valid() && t.heap == Initial(t.base) && t.mmaps == old(t.mmaps)
    ensures InitialLists(t.store.list, t.base)
    ensures t.allocatedBlocks == NUM_TOP + |t.mmaps| - t.lostBlocks
  {
    var i := 0;
    while i < |ps|
      invariant 0 <= i <= |ps| && t.Valid() && AllUsed(t.heap, ps[i..]) && t.mmaps == old(t.mmaps)
    {
      FreeNext(t, ps[i], ps[i..], unmapOk);
      assert ps[i..][1..] == ps[i + 1..];
      i := i + 1;
    }
    assert ps[i..] == [];
    NoneUsed(t);
  }
}
