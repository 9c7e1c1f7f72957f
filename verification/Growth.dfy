/** What clients see of the allocator: live payloads and what keeps them, memmove over granules,
    and the loop by which srealloc decides whether a block can grow in place. */
module Growth {
  import opened Basics
  import opened Dyadic
  import opened Blocks
  import opened FreeLists
  import opened Metadata

  // ---- Live payloads ----

  ghost predicate Live(h: Heap, mmaps: map<nat, nat>, a: nat) {
    (a in h && !h[a].free) || a in mmaps
  }

  /** Bytes a client may use behind the header at a. */
  function Capacity(h: Heap, mmaps: map<nat, nat>, a: nat): nat {
    if a in mmaps then mmaps[a]
    else if a in h then BlockSize(h[a].order) - HEADER
    else 0
  }

  ghost predicate InPayload(h: Heap, mmaps: map<nat, nat>, a: nat, x: nat) {
    Live(h, mmaps, a) && a + HEADER <= x < a + Extent(Capacity(h, mmaps, a))
  }

  ghost predicate Region(h: Heap, init: bool, base: nat) {
    if init then Tiling(h, base) else h == map[]
  }

  /** Where a live block lies: its header and payload are its own. */
  lemma LiveExtent(m: Memory, h: Heap, mmaps: map<nat, nat>, init: bool, base: nat, a: nat)
    requires Region(h, init, base) && Mapped(m, mmaps, init, base) && Live(h, mmaps, a)
    ensures a in h ==> init && a !in mmaps && Extent(Capacity(h, mmaps, a)) == BlockSize(h[a].order)
    ensures a in h ==> base <= a && a + BlockSize(h[a].order) <= base + HEAP_BYTES
    ensures a in mmaps ==> OutsideHeap(a, mmaps[a], init, base)
  {
    assert PlacedIn(h, a, base) && MmapOk(m, mmaps, init, base, a);
    if a in h {
      BlockSizeGranular(h[a].order);
    }
  }

  /** No payload granule is a header. */
  lemma PayloadNotStart(m: Memory, h: Heap, mmaps: map<nat, nat>, init: bool, base: nat, a: nat, x: nat)
    requires Region(h, init, base) && Mapped(m, mmaps, init, base) && InPayload(h, mmaps, a, x)
    ensures x !in h && x !in mmaps
  {
    LiveExtent(m, h, mmaps, init, base, a);
    assert PlacedIn(h, x, base) && MmapOk(m, mmaps, init, base, x);
    assert Clear(h, a, x) && MmapClear(mmaps, a, x);
  }

  /** Payloads of different live blocks do not overlap. */
  lemma PayloadsApart(m: Memory, h: Heap, mmaps: map<nat, nat>, init: bool, base: nat, a: nat, b: nat, x: nat)
    requires Region(h, init, base) && Mapped(m, mmaps, init, base)
    requires InPayload(h, mmaps, a, x) && InPayload(h, mmaps, b, x)
    ensures a == b
  {
    LiveExtent(m, h, mmaps, init, base, a);
    LiveExtent(m, h, mmaps, init, base, b);
    assert Clear(h, a, b) && Clear(h, b, a) && MmapClear(mmaps, a, b) && MmapClear(mmaps, b, a);
  }

  /** A snapshot of what clients can observe. */
  datatype View = View(mem: Memory, heap: Heap, mmaps: map<nat, nat>)

  /** The block at a, if live before, is still live, as large, and holds the same payload. */
  ghost predicate Kept(v: View, w: View, a: nat) {
    Live(v.heap, v.mmaps, a) ==>
      && Live(w.heap, w.mmaps, a)
      && Capacity(w.heap, w.mmaps, a) == Capacity(v.heap, v.mmaps, a)
      && forall x :: InPayload(v.heap, v.mmaps, a, x) ==> At(w.mem, x) == At(v.mem, x)
  }

  ghost predicate AllKeptBut(v: View, w: View, e: nat) {
    forall a {:trigger Kept(v, w, a)} :: a != e ==> Kept(v, w, a)
  }

  ghost predicate AllKept(v: View, w: View) {
    forall a {:trigger Kept(v, w, a)} :: Kept(v, w, a)
  }

  lemma KeptTrans(u: View, v: View, w: View, a: nat)
    requires Kept(u, v, a) && Kept(v, w, a)
    ensures Kept(u, w, a)
  {
  }

  /** A live block whose size did not change is kept when only headers of the new state were written. */
  lemma FrameKeeps(v: View, w: View, init: bool, base: nat, a: nat)
    requires Region(w.heap, init, base) && Mapped(w.mem, w.mmaps, init, base)
    requires Live(v.heap, v.mmaps, a) ==>
      Live(w.heap, w.mmaps, a) && Capacity(w.heap, w.mmaps, a) == Capacity(v.heap, v.mmaps, a)
    requires SameOutside(v.mem, w.mem, w.heap, w.mmaps)
    ensures Kept(v, w, a)
  {
    forall x | InPayload(v.heap, v.mmaps, a, x)
      ensures At(w.mem, x) == At(v.mem, x)
    {
      assert InPayload(w.heap, w.mmaps, a, x);
      PayloadNotStart(w.mem, w.heap, w.mmaps, init, base, a, x);
    }
  }

  /** The same when only headers of the old state were written. */
  lemma FrameKeepsOld(v: View, w: View, init: bool, base: nat, a: nat)
    requires Region(v.heap, init, base) && Mapped(v.mem, v.mmaps, init, base)
    requires Live(v.heap, v.mmaps, a) ==>
      Live(w.heap, w.mmaps, a) && Capacity(w.heap, w.mmaps, a) == Capacity(v.heap, v.mmaps, a)
    requires Untouched(v.mem, w.mem, v.heap)
    ensures Kept(v, w, a)
  {
    forall x | InPayload(v.heap, v.mmaps, a, x)
      ensures At(w.mem, x) == At(v.mem, x)
    {
      PayloadNotStart(v.mem, v.heap, v.mmaps, init, base, a, x);
    }
  }

  /** Setting up the heap keeps the mappings made before. */
  lemma InitKeeps(v: View, w: View, init: bool, base: nat)
    requires v.heap == map[] && w.mmaps == v.mmaps
    requires Region(w.heap, init, base) && Mapped(w.mem, w.mmaps, init, base)
    requires Untouched(v.mem, w.mem, w.heap)
    ensures AllKept(v, w)
  {
    forall a
      ensures Kept(v, w, a)
    {
      FrameKeeps(v, w, init, base, a);
    }
  }

  lemma AllKeptRefl(v: View)
    ensures AllKept(v, v)
  {
  }

  lemma AllKeptBoth(u: View, v: View, w: View)
    requires AllKept(u, v) && AllKept(v, w)
    ensures AllKept(u, w)
  {
    forall a
      ensures Kept(u, w, a)
    {
      assert Kept(u, v, a) && Kept(v, w, a);
      KeptTrans(u, v, w, a);
    }
  }

  /** Allocation keeps every live block; a granted pointer is a new live block, large enough. */
  lemma GrantKeeps(v: View, w: View, init: bool, base: nat, size: nat, mapped: Option<nat>, p: nat, source: nat, target: nat)
    requires Region(v.heap, init, base) && Coalesced(v.heap) && Mapped(v.mem, v.mmaps, init, base)
    requires Region(w.heap, init, base) && Mapped(w.mem, w.mmaps, init, base)
    requires Granted(v.heap, v.mmaps, w.heap, w.mmaps, size, mapped, p, source, target)
    requires mapped.Some? ==> FreshMapping(v.mmaps, init, base, mapped.value, size)
    requires SameOutside(v.mem, w.mem, w.heap, w.mmaps)
    ensures AllKept(v, w)
    ensures p != NULL ==> p >= HEADER && Live(w.heap, w.mmaps, p - HEADER) && !Live(v.heap, v.mmaps, p - HEADER)
    ensures p != NULL ==> Capacity(w.heap, w.mmaps, p - HEADER) >= size
  {
    var small := size != 0 && size + HEADER <= MMAP_LIMIT;
    if small && p != NULL {
      CarveKeeps(v.heap, base, source, target);
      SplitDownTiling(v.heap, base, source, target);
      LiveExtent(w.mem, w.heap, w.mmaps, init, base, source);
    }
    if !small && p != NULL {
      assert MmapOk(v.mem, v.mmaps, init, base, mapped.value);
      assert PlacedIn(v.heap, mapped.value, base);
    }
    forall a
      ensures Kept(v, w, a)
    {
      if Live(v.heap, v.mmaps, a) {
        assert MmapOk(v.mem, v.mmaps, init, base, a);
        LiveExtent(v.mem, v.heap, v.mmaps, init, base, a);
        assert Live(w.heap, w.mmaps, a) && Capacity(w.heap, w.mmaps, a) == Capacity(v.heap, v.mmaps, a) by {
          if a in w.mmaps && a !in v.mmaps {
            assert OutsideHeap(a, size, init, base);
          }
        }
      }
      FrameKeeps(v, w, init, base, a);
    }
  }

  // ---- memmove ----

  /** k granules copied from src to dst, all read before any is written. */
  function Copied(m: Memory, from: Memory, dst: nat, src: nat, k: nat): Memory {
    if k == 0 then m
    else Copied(m, from, dst, src, k - 1)[dst + 32 * (k - 1) := At(from, src + 32 * (k - 1))]
  }

  /** memmove of n bytes, rounded up to whole granules. */
  function MemMove(m: Memory, dst: nat, src: nat, n: nat): Memory {
    Copied(m, m, dst, src, Granules(n))
  }

  ghost predicate InRun(dst: nat, k: nat, x: nat) {
    dst <= x < dst + 32 * k && (x - dst) % 32 == 0
  }

  lemma {:induction false} CopiedAt(m: Memory, from: Memory, dst: nat, src: nat, k: nat, x: nat)
    ensures At(Copied(m, from, dst, src, k), x) == if InRun(dst, k, x) then At(from, src + (x - dst)) else At(m, x)
  {
    if k > 0 {
      CopiedAt(m, from, dst, src, k - 1, x);
    }
  }

  /** Address of the i-th payload granule behind a header. */
  function Slot(a: nat, i: nat): nat {
    a + HEADER + 32 * i
  }

  /** The first n payload bytes behind a in m are those behind b in m'. */
  ghost predicate SamePrefix(m: Memory, a: nat, m': Memory, b: nat, n: nat) {
    forall i: nat {:trigger Slot(b, i)} :: 32 * i < n ==> At(m', Slot(b, i)) == At(m, Slot(a, i))
  }

  lemma MemMovePrefix(m: Memory, a: nat, b: nat, len: nat, n: nat)
    requires n <= len
    ensures SamePrefix(m, a, MemMove(m, b + HEADER, a + HEADER, len), b, n)
  {
    var k := Granules(len);
    forall i: nat | 32 * i < n
      ensures At(MemMove(m, b + HEADER, a + HEADER, len), Slot(b, i)) == At(m, Slot(a, i))
    {
      CopiedAt(m, m, b + HEADER, a + HEADER, k, Slot(b, i));
    }
  }

  /** No header of a block or mapping has changed. */
  ghost predicate StartsKept(m: Memory, m': Memory, h: Heap, mmaps: map<nat, nat>) {
    forall x {:trigger At(m', x)} :: x in h || x in mmaps ==> At(m', x) == At(m, x)
  }

  lemma RunInside(b: nat, len: nat, cap: nat, x: nat)
    requires len <= cap && InRun(b + HEADER, Granules(len), x)
    ensures x < b + Extent(cap)
  {
    assert Granules(len) <= Granules(cap);
  }

  /** Moving bytes into a live payload leaves everything else alone. */
  lemma MemMoveKeeps(m: Memory, m': Memory, h: Heap, mmaps: map<nat, nat>, init: bool, base: nat,
                     b: nat, src: nat, len: nat)
    requires Region(h, init, base) && Mapped(m, mmaps, init, base) && Live(h, mmaps, b)
    requires len <= Capacity(h, mmaps, b) && m' == MemMove(m, b + HEADER, src, len)
    ensures AllKeptBut(View(m, h, mmaps), View(m', h, mmaps), b) && StartsKept(m, m', h, mmaps)
  {
    var k := Granules(len);
    forall x
      ensures InRun(b + HEADER, k, x) ==> InPayload(h, mmaps, b, x)
      ensures !InRun(b + HEADER, k, x) ==> At(m', x) == At(m, x)
    {
      CopiedAt(m, m, b + HEADER, src, k, x);
      if InRun(b + HEADER, k, x) {
        RunInside(b, len, Capacity(h, mmaps, b), x);
      }
    }
    forall x | x in h || x in mmaps
      ensures At(m', x) == At(m, x)
    {
      if InRun(b + HEADER, k, x) {
        PayloadNotStart(m, h, mmaps, init, base, b, x);
      }
    }
    forall a | a != b
      ensures Kept(View(m, h, mmaps), View(m', h, mmaps), a)
    {
      forall x | InPayload(h, mmaps, a, x)
        ensures At(m', x) == At(m, x)
      {
        if InRun(b + HEADER, k, x) {
          PayloadsApart(m, h, mmaps, init, base, a, b, x);
        }
      }
    }
  }

  /** The copying path's memmove: the old payload into another live block. */
  lemma CopyKeeps(w: View, m: Memory, init: bool, base: nat, block: nat, b: nat)
    requires Region(w.heap, init, base) && Mapped(w.mem, w.mmaps, init, base) && Live(w.heap, w.mmaps, b)
    requires At(w.mem, block).size == Capacity(w.heap, w.mmaps, block) <= Capacity(w.heap, w.mmaps, b)
    requires m == MemMove(w.mem, b + HEADER, block + HEADER, At(w.mem, block).size)
    ensures AllKeptBut(w, View(m, w.heap, w.mmaps), b)
    ensures SamePrefix(w.mem, block, m, b, Capacity(w.heap, w.mmaps, block))
    ensures StartsKept(w.mem, m, w.heap, w.mmaps)
  {
    MemMoveKeeps(w.mem, m, w.heap, w.mmaps, init, base, b, block + HEADER, At(w.mem, block).size);
    MemMovePrefix(w.mem, block, b, At(w.mem, block).size, Capacity(w.heap, w.mmaps, block));
  }

  // ---- The growth probe of srealloc ----

  datatype Probe = Probe(canMerge: bool, mergedSize: nat)

  /** The tests one round of the feasibility loop makes on the two headers it reads. */
  ghost predicate RoundPasses(m: Memory, candidate: nat, buddy: nat) {
    && candidate != NULL && buddy != NULL && At(m, candidate).size == At(m, buddy).size
    && At(m, candidate).isFree && At(m, buddy).isFree
    && !TopOnly(At(m, candidate).size + HEADER)
  }

  /** The feasibility loop of srealloc, run from the given values of its variables. */
  ghost function ProbeFrom(m: Memory, candidate: nat, buddy: nat, mergedSize: nat, size: nat): Probe
    decreases if mergedSize < size then size - mergedSize else 0
  {
    if mergedSize >= size then Probe(true, mergedSize)
    else if !RoundPasses(m, candidate, buddy) then Probe(false, mergedSize)
    else
      var next := if candidate > buddy then buddy else candidate;
      var merged := mergedSize * 2 + HEADER;
      ProbeFrom(m, next, Xor(next, merged - HEADER + HEADER), merged, size)
  }

  /** The probe as srealloc starts it: with the old block's header marked free. */
  ghost function ProbeOf(m: Memory, block: nat, size: nat): Probe {
    ProbeFrom(m[block := At(m, block).(isFree := true)], block,
              Xor(block, At(m, block).size + HEADER), At(m, block).size, size)
  }

  /** An order is too small for a request exactly when it is below the required one. */
  lemma TooSmall(j: nat, size: nat, need: nat)
    requires LeastOrder(size + HEADER, need)
    ensures BlockSize(j) - HEADER < size <==> j < need
  {
    if need < j {
      BlockSizeMonotone(need, j);
    }
  }

  /** When the probe succeeds it has reached exactly the order the request needs. */
  lemma {:induction false} ProbeReaches(m: Memory, candidate: nat, buddy: nat, mergedSize: nat, size: nat, j: nat, need: nat)
    requires mergedSize == BlockSize(j) - HEADER && j < need && LeastOrder(size + HEADER, need)
    requires ProbeFrom(m, candidate, buddy, mergedSize, size).canMerge
    ensures ProbeFrom(m, candidate, buddy, mergedSize, size).mergedSize == BlockSize(need) - HEADER
    decreases need - j
  {
    var next := if candidate > buddy then buddy else candidate;
    var merged := mergedSize * 2 + HEADER;
    TooSmall(j, size, need);
    TooSmall(j + 1, size, need);
    if j + 1 < need {
      ProbeReaches(m, next, Xor(next, merged - HEADER + HEADER), merged, size, j + 1, need);
    }
  }

  /** The state in which srealloc probes: a used block of a coalesced heap, too small for the request. */
  ghost predicate Probing(m: Memory, h: Heap, base: nat, block: nat, size: nat, need: nat) {
    && Tiling(h, base) && Headers(m, h) && block in h && !h[block].free
    && LeastOrder(size + HEADER, need) && h[block].order < need
  }

  lemma RoundIsMerge(m: Memory, h: Heap, base: nat, block: nat, need: nat)
    requires Tiling(h, base) && Headers(m, h) && block in h && !h[block].free && h[block].order < need <= MAX_ORDER
    ensures var k := h[block].order;
            var m1 := m[block := At(m, block).(isFree := true)];
            && At(m, block).size == BlockSize(k) - HEADER
            && Xor(block, BlockSize(k)) == Buddy(block, k)
            && (RoundPasses(m1, block, Buddy(block, k)) <==> CanMerge(h, block, need))
  {
    var k := h[block].order;
    var b := Buddy(block, k);
    assert HeaderAt(m, block, h[block]) && PlacedIn(h, block, base);
    XorIsBuddy(block, k);
    BuddyIsHeader(h, base, block);
    BuddyGeometry(block, k);
    assert HeaderAt(m, b, h[b]) && PlacedIn(h, b, base);
    NotTop(k);
    if h[b].order < k {
      BlockSizeMonotone(h[b].order, k);
    }
  }

  /** The candidate before round j of the probe, when round k has merged up to start: no memory content
      influences it. */
  function CandidateAt(start: nat, k: nat, j: nat): nat
    requires k < j
    decreases j
  {
    if j == k + 1 then start
    else
      var c := CandidateAt(start, k, j - 1);
      Min(c, Xor(c, BlockSize(j - 1) - HEADER))
  }

  /** The address round j takes for its buddy: computed from a size without the header. */
  function ReadAt(start: nat, k: nat, j: nat): nat
    requires k < j
  {
    Xor(CandidateAt(start, k, j), BlockSize(j) - HEADER)
  }

  /** Memory that the probe takes for a free header of order k. */
  ghost predicate Echo(m: Memory, a: nat, k: nat) {
    a != NULL && At(m, a).isFree && At(m, a).size == BlockSize(k) - HEADER
  }

  ghost predicate Reaches(m: Memory, c: nat, b: nat, mergedSize: nat, size: nat) {
    ProbeFrom(m, c, b, mergedSize, size).canMerge
  }

  /** The probe, run from a round on whose size is that of order j. */
  ghost predicate Passes(m: Memory, c: nat, b: nat, j: nat, size: nat) {
    Reaches(m, c, b, BlockSize(j) - HEADER, size)
  }

  lemma RoundOnce(m: Memory, c: nat, b: nat, c': nat, b': nat, mergedSize: nat, merged: nat, size: nat)
    requires mergedSize < size && merged == mergedSize * 2 + HEADER && c' == Min(c, b) && b' == Xor(c', merged)
    ensures Reaches(m, c, b, mergedSize, size) <==> RoundPasses(m, c, b) && Reaches(m, c', b', merged, size)
  {
  }

  /** One round of the probe below the required order. */
  lemma ProbeStep(m: Memory, c: nat, b: nat, c': nat, b': nat, j: nat, size: nat)
    requires BlockSize(j) - HEADER < size
    requires c' == Min(c, b) && b' == Xor(c', BlockSize(j + 1) - HEADER)
    ensures Passes(m, c, b, j, size) <==> RoundPasses(m, c, b) && Passes(m, c', b', j + 1, size)
  {
    RoundOnce(m, c, b, c', b', BlockSize(j) - HEADER, BlockSize(j + 1) - HEADER, size);
  }

  /** The rounds from j on all find the old size. */
  ghost predicate Echoes(m: Memory, start: nat, k: nat, j: nat, need: nat)
    requires k < j
  {
    forall i :: j <= i < need ==> Echo(m, ReadAt(start, k, i), k)
  }

  lemma EchoesOn(m: Memory, start: nat, k: nat, j: nat, need: nat)
    requires k < j < need
    ensures Echoes(m, start, k, j, need) <==> Echo(m, ReadAt(start, k, j), k) && Echoes(m, start, k, j + 1, need)
  {
  }

  ghost predicate PassesFrom(m: Memory, start: nat, k: nat, j: nat, size: nat)
    requires k < j
  {
    Passes(m, CandidateAt(start, k, j), ReadAt(start, k, j), j, size)
  }

  /** A round that starts from a granule of the old size passes when it finds another one. */
  lemma EchoStep(m: Memory, c: nat, b: nat, c': nat, b': nat, k: nat, j: nat, size: nat, need: nat)
    requires k < MAX_ORDER && j < need && LeastOrder(size + HEADER, need) && Echo(m, c, k)
    requires c' == Min(c, b) && b' == Xor(c', BlockSize(j + 1) - HEADER)
    ensures Echo(m, b, k) ==> Echo(m, c', k)
    ensures Passes(m, c, b, j, size) <==> Echo(m, b, k) && Passes(m, c', b', j + 1, size)
  {
    TooSmall(j, size, need);
    ProbeStep(m, c, b, c', b', j, size);
    assert RoundPasses(m, c, b) <==> Echo(m, b, k) by { NotTop(k); }
  }

  lemma NextAddresses(start: nat, k: nat, j: nat)
    requires k < j
    ensures CandidateAt(start, k, j + 1) == Min(CandidateAt(start, k, j), ReadAt(start, k, j))
    ensures ReadAt(start, k, j + 1) == Xor(CandidateAt(start, k, j + 1), BlockSize(j + 1) - HEADER)
  {
  }

  lemma LaterRound(m: Memory, start: nat, k: nat, j: nat, size: nat, need: nat)
    requires k < MAX_ORDER && k < j < need && LeastOrder(size + HEADER, need) && Echo(m, CandidateAt(start, k, j), k)
    ensures PassesFrom(m, start, k, j, size) <==> Echo(m, ReadAt(start, k, j), k) && PassesFrom(m, start, k, j + 1, size)
    ensures Echo(m, ReadAt(start, k, j), k) ==> Echo(m, CandidateAt(start, k, j + 1), k)
  {
    NextAddresses(start, k, j);
    EchoStep(m, CandidateAt(start, k, j), ReadAt(start, k, j), CandidateAt(start, k, j + 1), ReadAt(start, k, j + 1),
             k, j, size, need);
  }

  /** Every round after the first compares the old size with what it finds at a fixed address. */
  lemma {:induction false} LaterRounds(m: Memory, start: nat, k: nat, j: nat, size: nat, need: nat)
    requires k < MAX_ORDER && k < j <= need && LeastOrder(size + HEADER, need) && Echo(m, CandidateAt(start, k, j), k)
    ensures PassesFrom(m, start, k, j, size) <==> Echoes(m, start, k, j, need)
    decreases need - j
  {
    if j == need {
      TooSmall(j, size, need);
    } else {
      LaterRound(m, start, k, j, size, need);
      EchoesOn(m, start, k, j, need);
      if Echo(m, ReadAt(start, k, j), k) {
        LaterRounds(m, start, k, j + 1, size, need);
      }
    }
  }

  lemma SecondAt(start: nat, k: nat)
    ensures CandidateAt(start, k, k + 1) == start && ReadAt(start, k, k + 1) == Xor(start, BlockSize(k + 1) - HEADER)
  {
  }

  lemma ProbeStart(m: Memory, h: Heap, base: nat, block: nat, size: nat, need: nat)
    requires Probing(m, h, base, block, size, need)
    ensures var k, m1 := h[block].order, m[block := At(m, block).(isFree := true)];
            && (ProbeOf(m, block, size).canMerge <==> Passes(m1, block, Buddy(block, k), k, size))
            && (RoundPasses(m1, block, Buddy(block, k)) <==> CanMerge(h, block, need))
  {
    RoundIsMerge(m, h, base, block, need);
  }

  /** The first round reads the real buddy: it passes exactly when the buddy is free and equally large. */
  lemma FirstRound(m: Memory, h: Heap, base: nat, block: nat, size: nat, need: nat)
    requires Probing(m, h, base, block, size, need)
    ensures var k, m1 := h[block].order, m[block := At(m, block).(isFree := true)];
            ProbeOf(m, block, size).canMerge <==>
              CanMerge(h, block, need) && PassesFrom(m1, Lower(block, k), k, k + 1, size)
  {
    var k, m1 := h[block].order, m[block := At(m, block).(isFree := true)];
    ProbeStart(m, h, base, block, size, need);
    SecondAt(Lower(block, k), k);
    TooSmall(k, size, need);
    ProbeStep(m1, block, Buddy(block, k), Lower(block, k), ReadAt(Lower(block, k), k, k + 1), k, size);
  }

  lemma FirstEcho(m: Memory, h: Heap, base: nat, block: nat)
    requires Tiling(h, base) && Headers(m, h) && block in h && !h[block].free && CanMerge(h, block, MAX_ORDER)
    ensures Echo(m[block := At(m, block).(isFree := true)], Lower(block, h[block].order), h[block].order)
  {
    var lo := Lower(block, h[block].order);
    assert PlacedIn(h, block, base) && PlacedIn(h, lo, base);
    assert HeaderAt(m, block, h[block]) && HeaderAt(m, lo, h[lo]);
  }

  /** What decides the probe, for any number of merges: the first round tests the real buddy, and each
      later round one fixed address, whatever its memory belongs to. */
  lemma ProbeDecided(m: Memory, h: Heap, base: nat, block: nat, size: nat, need: nat)
    requires Probing(m, h, base, block, size, need)
    ensures var k, m1 := h[block].order, m[block := At(m, block).(isFree := true)];
            ProbeOf(m, block, size).canMerge <==>
              CanMerge(h, block, need) && Echoes(m1, Lower(block, k), k, k + 1, need)
  {
    var k, m1 := h[block].order, m[block := At(m, block).(isFree := true)];
    FirstRound(m, h, base, block, size, need);
    if CanMerge(h, block, need) {
      FirstEcho(m, h, base, block);
      LaterRounds(m1, Lower(block, k), k, k + 1, size, need);
    }
  }

  /** With one merge needed the probe is exact. */
  lemma OneMergeExact(m: Memory, h: Heap, base: nat, block: nat, size: nat, need: nat)
    requires Probing(m, h, base, block, size, need) && need == h[block].order + 1
    ensures ProbeOf(m, block, size).canMerge <==> CanMerge(h, block, need)
  {
    ProbeDecided(m, h, base, block, size, need);
  }

  /** The address the second round computes, as arithmetic. */
  lemma SecondAddress(start: nat, k: nat)
    requires Aligned(start, k + 1)
    ensures Xor(start, BlockSize(k + 1) - HEADER) == start + BlockSize(k + 1) - HEADER
  {
    BlockSizeIsPow2(k + 1);
    AlignedIsMultiple(start, k + 1);
    XorLow(start, BlockSize(k + 1) - HEADER, k + 8);
  }

  lemma LastGranule(h: Heap, base: nat, block: nat)
    requires Tiling(h, base) && block in h && CanMerge(h, block, MAX_ORDER)
    ensures var k := h[block].order;
            var second := Lower(block, k) + BlockSize(k + 1) - HEADER;
            Aligned(Lower(block, k), k + 1) && second !in h && second > block && second > Lower(block, k)
  {
    var k := h[block].order;
    var lo := Lower(block, k);
    assert PlacedIn(h, block, base);
    BuddyGeometry(block, k);
    var right := lo + BlockSize(k);
    assert right in h && h[right].order == k;
    assert Clear(h, right, lo + BlockSize(k + 1) - HEADER);
  }

  /** The second header the probe reads is not a header: it is the last granule of the payload of
      the right half that the first merge would absorb. */
  lemma SecondReadIsPayload(h: Heap, base: nat, block: nat)
    requires Tiling(h, base) && block in h && CanMerge(h, block, MAX_ORDER)
    ensures var k := h[block].order;
            var second := Xor(Lower(block, k), BlockSize(k + 1) - HEADER);
            && second == Lower(block, k) + BlockSize(k + 1) - HEADER
            && Lower(block, k) + BlockSize(k) + HEADER <= second
            && second !in h
  {
    LastGranule(h, base, block);
    SecondAddress(Lower(block, h[block].order), h[block].order);
  }

  /** The second round reads the same in memory as it was before the old block was marked free. */
  lemma SecondRead(m: Memory, h: Heap, base: nat, block: nat)
    requires Tiling(h, base) && block in h && CanMerge(h, block, MAX_ORDER)
    ensures var k := h[block].order;
            var m1 := m[block := At(m, block).(isFree := true)];
            var second := Lower(block, k) + BlockSize(k + 1) - HEADER;
            Echo(m1, ReadAt(Lower(block, k), k, k + 1), k) <==>
              At(m, second).isFree && At(m, second).size == BlockSize(k) - HEADER
  {
    var lo, k := Lower(block, h[block].order), h[block].order;
    assert ReadAt(lo, k, k + 1) == lo + BlockSize(k + 1) - HEADER > block by {
      LastGranule(h, base, block);
      SecondAddress(lo, k);
      SecondAt(lo, k);
    }
  }

  /** With two merges needed, whether srealloc grows in place is decided by what the client left in
      one payload granule, not by the second buddy. */
  lemma TwoMergesDecidedByPayload(m: Memory, h: Heap, base: nat, block: nat, size: nat, need: nat)
    requires Probing(m, h, base, block, size, need) && need == h[block].order + 2
    ensures var k := h[block].order;
            var second := Lower(block, k) + BlockSize(k + 1) - HEADER;
            ProbeOf(m, block, size).canMerge <==>
              CanMerge(h, block, need) && At(m, second).isFree && At(m, second).size == BlockSize(k) - HEADER
  {
    ProbeDecided(m, h, base, block, size, need);
    if CanMerge(h, block, need) {
      SecondRead(m, h, base, block);
    }
  }

  // ---- Growing in place ----

  /** The block map after growing a used block in place towards the given order. */
  function Grown(h: Heap, block: nat, need: nat): Heap
    requires block in h
  {
    var r := MergeUp(h[block := h[block].(free := true)], block, need);
    r.0[r.1 := r.0[r.1].(free := false)]
  }

  function GrownAt(h: Heap, block: nat, need: nat): nat
    requires block in h
  {
    MergeUp(h[block := h[block].(free := true)], block, need).1
  }

  /** The region srealloc would need: free apart from the block itself. */
  ghost predicate RoomToGrow(h: Heap, block: nat, need: nat)
    requires block in h
  {
    FreeRegion(h[block := h[block].(free := true)], Ancestor(block, h[block].order, need), need)
  }

  lemma GrownKeeps(h: Heap, base: nat, block: nat, need: nat)
    requires Tiling(h, base) && Coalesced(h) && block in h && !h[block].free && h[block].order <= need <= MAX_ORDER
    ensures var g, at := Grown(h, block, need), GrownAt(h, block, need);
            && Tiling(g, base) && Coalesced(g)
            && at in g && !g[at].free && (at == block || (at in h && h[at].free))
            && h[block].order <= g[at].order <= need
            && (g[at].order == need <==> RoomToGrow(h, block, need))
            && at <= block && block + BlockSize(h[block].order) <= at + BlockSize(g[at].order)
  {
    var h1 := h[block := h[block].(free := true)];
    RemarkTiling(h, base, block, true);
    UnuseCoalesced(h, block);
    MergeUpTiling(h1, base, block, need);
    MergeUpCoalesced(h1, base, block, need);
    MergeUpBlock(h1, base, block, need);
    MergeUpUsed(h1, block, need);
    GrowsIffRegionFree(h1, base, block, need);
    var r := MergeUp(h1, block, need);
    RemarkTiling(r.0, base, r.1, false);
    UseCoalesced(r.0, r.1);
  }

  /** Growing in place makes nothing live but the grown block. */
  lemma GrownLive(h: Heap, base: nat, block: nat, need: nat, a: nat)
    requires Tiling(h, base) && Coalesced(h) && block in h && !h[block].free && h[block].order <= need <= MAX_ORDER
    requires a in Grown(h, block, need) && !Grown(h, block, need)[a].free
    ensures a == GrownAt(h, block, need) || (a in h && !h[a].free && a != block)
  {
    MergeUpUsed(h[block := h[block].(free := true)], block, need);
  }

  lemma GrownOthers(h: Heap, base: nat, block: nat, need: nat)
    requires Tiling(h, base) && Coalesced(h) && block in h && !h[block].free && h[block].order <= need <= MAX_ORDER
    ensures var g, at := Grown(h, block, need), GrownAt(h, block, need);
            && (forall x :: x in h && !h[x].free && x != block ==> x in g && g[x] == h[x] && x != at)
            && (block != at ==> block !in g)
  {
    var h1 := h[block := h[block].(free := true)];
    MergeUpUsed(h1, block, need);
    GrownKeeps(h, base, block, need);
    var g, at := Grown(h, block, need), GrownAt(h, block, need);
    assert Clear(g, at, block);
  }

  /** Header writes of growing in place keep every other live block and the old payload itself. */
  lemma GrownView(v: View, m: Memory, init: bool, base: nat, block: nat, need: nat)
    requires init && Tiling(v.heap, base) && Coalesced(v.heap) && Mapped(v.mem, v.mmaps, init, base)
    requires block in v.heap && !v.heap[block].free && v.heap[block].order <= need <= MAX_ORDER
    requires Untouched(v.mem, m, v.heap)
    ensures AllKeptBut(v, View(m, Grown(v.heap, block, need), v.mmaps), block)
    ensures SamePrefix(v.mem, block, m, block, Capacity(v.heap, v.mmaps, block))
  {
    var w := View(m, Grown(v.heap, block, need), v.mmaps);
    GrownOthers(v.heap, base, block, need);
    forall a | a != block
      ensures Kept(v, w, a)
    {
      FrameKeepsOld(v, w, init, base, a);
    }
    LiveExtent(v.mem, v.heap, v.mmaps, init, base, block);
    var n := Capacity(v.heap, v.mmaps, block);
    forall i: nat | 32 * i < n
      ensures At(m, Slot(block, i)) == At(v.mem, Slot(block, i))
    {
      assert InPayload(v.heap, v.mmaps, block, Slot(block, i));
      PayloadNotStart(v.mem, v.heap, v.mmaps, init, base, block, Slot(block, i));
    }
  }

  lemma SamePrefixTrans(m: Memory, a: nat, m1: Memory, b: nat, m2: Memory, c: nat, n: nat)
    requires SamePrefix(m, a, m1, b, n) && SamePrefix(m1, b, m2, c, n)
    ensures SamePrefix(m, a, m2, c, n)
  {
    forall i: nat | 32 * i < n
      ensures At(m2, Slot(c, i)) == At(m, Slot(a, i))
    {
      assert At(m1, Slot(b, i)) == At(m, Slot(a, i));
    }
  }

  /** A kept block's payload prefix is unchanged. */
  lemma KeptPrefix(v: View, w: View, a: nat, n: nat)
    requires Kept(v, w, a) && Live(v.heap, v.mmaps, a) && n <= Capacity(v.heap, v.mmaps, a)
    ensures SamePrefix(v.mem, a, w.mem, a, n)
  {
    forall i: nat | 32 * i < n
      ensures At(w.mem, Slot(a, i)) == At(v.mem, Slot(a, i))
    {
      assert InPayload(v.heap, v.mmaps, a, Slot(a, i));
    }
  }

  /** Writes to payload granules leave lists, headers and mappings as they are. */
  lemma PayloadWrites(m: Memory, m': Memory, head: seq<nat>, list: seq<seq<nat>>, h: Heap, mmaps: map<nat, nat>,
                      init: bool, base: nat)
    requires Linked(m, head, list) && Agree(list, h) && Headers(m, h) && Mapped(m, mmaps, init, base)
    requires StartsKept(m, m', h, mmaps)
    ensures Linked(m', head, list) && Headers(m', h) && Mapped(m', mmaps, init, base)
  {
    forall j, a | 0 <= j < LISTS && a in list[j]
      ensures At(m', a) == At(m, a)
    {
      assert Listed(list, j, a);
    }
    LinkedFrame(m, m', head, list);
    forall a | a in h
      ensures HeaderAt(m', a, h[a])
    {
      assert HeaderAt(m, a, h[a]);
    }
    forall a
      ensures MmapOk(m', mmaps, init, base, a)
    {
      assert MmapOk(m, mmaps, init, base, a);
    }
  }

  /** Memory m1 as the header updates of in-place growth leave it. */
  ghost predicate HeadersGrown(v: View, m1: Memory, init: bool, base: nat, block: nat, need: nat) {
    && init && Tiling(v.heap, base) && Coalesced(v.heap) && Mapped(v.mem, v.mmaps, init, base)
    && Headers(v.mem, v.heap)
    && block in v.heap && !v.heap[block].free && v.heap[block].order < need <= MAX_ORDER
    && Untouched(v.mem, m1, v.heap) && Mapped(m1, v.mmaps, init, base)
    && StaleHeader(v.mem, m1, block, (Grown(v.heap, block, need), GrownAt(v.heap, block, need)))
  }

  /** The memmove of in-place growth happens inside the grown block. */
  lemma GrownMoveInside(v: View, m1: Memory, m2: Memory, g: Heap, at: nat, init: bool, base: nat, block: nat, need: nat)
    requires init && Tiling(v.heap, base) && Coalesced(v.heap)
    requires block in v.heap && !v.heap[block].free && v.heap[block].order < need <= MAX_ORDER
    requires Mapped(m1, v.mmaps, init, base) && StaleHeader(v.mem, m1, block, (g, at))
    requires g == Grown(v.heap, block, need) && at == GrownAt(v.heap, block, need)
    requires m2 == MemMove(m1, at + HEADER, block + HEADER, At(m1, block).size)
    ensures Tiling(g, base) && Live(g, v.mmaps, at) && at !in v.mmaps
    ensures AllKeptBut(View(m1, g, v.mmaps), View(m2, g, v.mmaps), at)
    ensures StartsKept(m1, m2, g, v.mmaps)
  {
    GrownKeeps(v.heap, base, block, need);
    LiveExtent(m1, g, v.mmaps, init, base, at);
    assert At(m1, block).size <= Capacity(g, v.mmaps, at) && Live(g, v.mmaps, at);
    MemMoveKeeps(m1, m2, g, v.mmaps, init, base, at, block + HEADER, At(m1, block).size);
  }

  lemma GrownMoveOthers(v: View, m1: Memory, m2: Memory, init: bool, base: nat, block: nat, need: nat)
    requires init && Tiling(v.heap, base) && Coalesced(v.heap) && Mapped(v.mem, v.mmaps, init, base)
    requires block in v.heap && !v.heap[block].free && v.heap[block].order < need <= MAX_ORDER
    requires var g, at := Grown(v.heap, block, need), GrownAt(v.heap, block, need);
             && at !in v.mmaps
             && AllKeptBut(v, View(m1, g, v.mmaps), block)
             && AllKeptBut(View(m1, g, v.mmaps), View(m2, g, v.mmaps), at)
    ensures AllKeptBut(v, View(m2, Grown(v.heap, block, need), v.mmaps), block)
  {
    var g, at := Grown(v.heap, block, need), GrownAt(v.heap, block, need);
    var w, u := View(m1, g, v.mmaps), View(m2, g, v.mmaps);
    GrownOthers(v.heap, base, block, need);
    forall a | a != block
      ensures Kept(v, u, a)
    {
      assert Kept(v, w, a);
      if Live(v.heap, v.mmaps, a) {
        assert a != at;
        assert Kept(w, u, a);
        KeptTrans(v, w, u, a);
      }
    }
  }

  /** The whole of in-place growth, headers then memmove, seen by clients. */
  lemma GrownMove(v: View, m1: Memory, init: bool, base: nat, block: nat, need: nat)
    requires HeadersGrown(v, m1, init, base, block, need)
    ensures var g, at := Grown(v.heap, block, need), GrownAt(v.heap, block, need);
            var m2 := MemMove(m1, at + HEADER, block + HEADER, At(m1, block).size);
            && AllKeptBut(v, View(m2, g, v.mmaps), block)
            && SamePrefix(v.mem, block, m2, at, BlockSize(v.heap[block].order) - HEADER)
            && StartsKept(m1, m2, g, v.mmaps)
  {
    var g, at := Grown(v.heap, block, need), GrownAt(v.heap, block, need);
    var len := At(m1, block).size;
    var m2 := MemMove(m1, at + HEADER, block + HEADER, len);
    var n := BlockSize(v.heap[block].order) - HEADER;
    GrownView(v, m1, init, base, block, need);
    GrownMoveInside(v, m1, m2, g, at, init, base, block, need);
    GrownMoveOthers(v, m1, m2, init, base, block, need);
    LiveExtent(v.mem, v.heap, v.mmaps, init, base, block);
    assert HeaderAt(v.mem, block, v.heap[block]);
    MemMovePrefix(m1, block, at, len, n);
    SamePrefixTrans(v.mem, block, m1, block, m2, at, n);
  }

  /** What the memmove leaves of lists, headers and mappings, of the other clients' payloads and of the
      payload moved. */
  lemma GrownMoved(v: View, m1: Memory, m2: Memory, head: seq<nat>, list: seq<seq<nat>>, g: Heap, at: nat,
                   init: bool, base: nat, block: nat, need: nat)
    requires HeadersGrown(v, m1, init, base, block, need)
    requires g == Grown(v.heap, block, need) && at == GrownAt(v.heap, block, need)
    requires Linked(m1, head, list) && Agree(list, g) && Headers(m1, g)
    requires m2 == MemMove(m1, at + HEADER, block + HEADER, At(m1, block).size)
    ensures Linked(m2, head, list) && Headers(m2, g) && Mapped(m2, v.mmaps, init, base)
    ensures AllKeptBut(v, View(m2, g, v.mmaps), block)
    ensures SamePrefix(v.mem, block, m2, at, BlockSize(v.heap[block].order) - HEADER)
  {
    GrownMove(v, m1, init, base, block, need);
    PayloadWrites(m1, m2, head, list, g, v.mmaps, init, base);
  }

  /** An allocation makes nothing live but its result. */
  lemma GrantedLive(h0: Heap, mmaps0: map<nat, nat>, h: Heap, mmaps: map<nat, nat>, base: nat, size: nat,
                    mapped: Option<nat>, p: nat, source: nat, target: nat, a: nat)
    requires (h0 == map[] || (Tiling(h0, base) && Coalesced(h0))) && Granted(h0, mmaps0, h, mmaps, size, mapped, p, source, target)
    ensures h == map[] || (Tiling(h, base) && Coalesced(h))
    ensures Live(h, mmaps, a) ==> Live(h0, mmaps0, a) || (p != NULL && a == p - HEADER)
  {
    if 0 < size <= MAX_ALLOCATION && size + HEADER <= MMAP_LIMIT && p != NULL {
      CarveKeeps(h0, base, source, target);
    }
  }

  /** A deallocation leaves live exactly what was live before, without its block. */
  lemma FreedLive(h: Heap, mmaps: map<nat, nat>, base: nat, block: nat, unmapOk: bool, a: nat)
    requires (h == map[] || (Tiling(h, base) && Coalesced(h))) && (block in h ==> block !in mmaps)
    ensures Live(FreedHeap(h, block), FreedMmaps(mmaps, block, unmapOk), a) <==>
              Live(h, mmaps, a) && (a != block || (block in mmaps && !unmapOk))
  {
    if block in h && !h[block].free {
      FreeKeeps(h, base, block);
    }
  }

  /** Freeing one live block keeps all others. */
  lemma FreedView(v: View, w: View, init: bool, base: nat, block: nat, unmapOk: bool)
    requires Region(v.heap, init, base) && Coalesced(v.heap) && Mapped(v.mem, v.mmaps, init, base)
    requires Live(v.heap, v.mmaps, block)
    requires w.heap == FreedHeap(v.heap, block) && w.mmaps == FreedMmaps(v.mmaps, block, unmapOk)
    requires Untouched(v.mem, w.mem, v.heap)
    ensures AllKeptBut(v, w, block)
    ensures Live(w.heap, w.mmaps, block) ==> block in v.mmaps && !unmapOk
  {
    LiveExtent(v.mem, v.heap, v.mmaps, init, base, block);
    if block in v.heap {
      FreeKeeps(v.heap, base, block);
    } else {
      assert w.heap == v.heap;
    }
    forall a | a != block
      ensures Kept(v, w, a)
    {
      if Live(v.heap, v.mmaps, a) {
        LiveExtent(v.mem, v.heap, v.mmaps, init, base, a);
        assert Live(w.heap, w.mmaps, a);
        assert a in w.mmaps <==> a in v.mmaps;
      }
      FrameKeepsOld(v, w, init, base, a);
    }
  }

  // ---- What reallocation promises ----

  /** The one case in which srealloc hands back less than it was asked for: a small request for a
      heap block, a probe that passes, and a surrounding region that is not in fact free. */
  ghost predicate Misled(v: View, block: nat, size: nat, need: nat) {
    && block in v.heap && size + HEADER <= MMAP_LIMIT && Capacity(v.heap, v.mmaps, block) < size
    && ProbeOf(v.mem, block, size).canMerge && !RoomToGrow(v.heap, block, need)
  }

  /** Growth by one order happens exactly when the buddy can be merged, and none at all when it cannot. */
  lemma OneStepGrown(h: Heap, base: nat, block: nat, need: nat)
    requires Tiling(h, base) && Coalesced(h) && block in h && !h[block].free && h[block].order < need <= MAX_ORDER
    ensures !CanMerge(h, block, need) ==> !RoomToGrow(h, block, need)
    ensures need == h[block].order + 1 && CanMerge(h, block, need) ==> RoomToGrow(h, block, need)
  {
    var k, h1 := h[block].order, h[block := h[block].(free := true)];
    GrownKeeps(h, base, block, need);
    assert PlacedIn(h, block, base);
    BuddyGeometry(block, k);
    assert CanMerge(h1, block, need) <==> CanMerge(h, block, need);
    if CanMerge(h, block, need) {
      var h2 := MergeStep(h1, block);
      assert h2[Lower(block, k)] == Block(k + 1, true);
      assert MergeUp(h1, block, need) == MergeUp(h2, Lower(block, k), need);
    } else {
      assert Grown(h, block, need)[GrownAt(h, block, need)].order == k;
    }
  }

  /** When the next order up is enough, or the buddy cannot be merged, the result is never too small. */
  lemma OneMergeNeverShort(v: View, base: nat, block: nat, size: nat, need: nat)
    requires Probing(v.mem, v.heap, base, block, size, need) && Coalesced(v.heap)
    requires need == v.heap[block].order + 1 || !CanMerge(v.heap, block, need)
    ensures !Misled(v, block, size, need)
    ensures ProbeOf(v.mem, block, size).canMerge <==> RoomToGrow(v.heap, block, need)
  {
    ProbeDecided(v.mem, v.heap, base, block, size, need);
    GrownKeeps(v.heap, base, block, need);
    OneStepGrown(v.heap, base, block, need);
  }

  lemma CleanProbe(m: Memory, h: Heap, base: nat, block: nat, size: nat, need: nat)
    requires Probing(m, h, base, block, size, need) && need >= h[block].order + 2
    requires var k := h[block].order;
             var second := Lower(block, k) + BlockSize(k + 1) - HEADER;
             !(At(m, second).isFree && At(m, second).size == BlockSize(k) - HEADER)
    ensures !ProbeOf(m, block, size).canMerge
  {
    ProbeDecided(m, h, base, block, size, need);
    if CanMerge(h, block, need) {
      SecondRead(m, h, base, block);
    }
  }

  /** When more is needed, one granule decides whether the probe goes on: unless the last granule of
      the right half reads as a free header of the old size, srealloc copies, and is never misled. */
  lemma CleanGranuleNeverShort(v: View, base: nat, block: nat, size: nat, need: nat)
    requires Probing(v.mem, v.heap, base, block, size, need) && need >= v.heap[block].order + 2
    requires var k := v.heap[block].order;
             var second := Lower(block, k) + BlockSize(k + 1) - HEADER;
             !(At(v.mem, second).isFree && At(v.mem, second).size == BlockSize(k) - HEADER)
    ensures !ProbeOf(v.mem, block, size).canMerge && !Misled(v, block, size, need)
  {
    CleanProbe(v.mem, v.heap, base, block, size, need);
  }

  lemma NeverShort(v: View, base: nat, block: nat, size: nat, need: nat)
    requires Probing(v.mem, v.heap, base, block, size, need) && Coalesced(v.heap)
    requires var k := v.heap[block].order;
             var g := At(v.mem, Lower(block, k) + BlockSize(k + 1) - HEADER);
             need == k + 1 || !CanMerge(v.heap, block, need) || !(g.isFree && g.size == BlockSize(k) - HEADER)
    ensures !Misled(v, block, size, need)
  {
    if need == v.heap[block].order + 1 || !CanMerge(v.heap, block, need) {
      OneMergeNeverShort(v, base, block, size, need);
    } else {
      CleanGranuleNeverShort(v, base, block, size, need);
    }
  }

  /** A successful reallocation of a live block: the result is live and carries the old payload;
      the old block is gone unless it is the result or its mapping could not be removed; every
      other live block is untouched and is not the result. */
  ghost predicate Reallocated(v: View, w: View, block: nat, b: nat, unmapOk: bool) {
    && Live(w.heap, w.mmaps, b)
    && SamePrefix(v.mem, block, w.mem, b, Capacity(v.heap, v.mmaps, block))
    && AllKeptBut(v, w, block)
    && (b != block ==> !Live(v.heap, v.mmaps, b))
    && (b != block && Live(w.heap, w.mmaps, block) ==> block in v.mmaps && !unmapOk)
    && Capacity(w.heap, w.mmaps, b) >= Capacity(v.heap, v.mmaps, block)
  }

  /** The copying path after its memmove: w1 is the state after the allocation, w2 after the copy. */
  ghost predicate CopiedOver(v: View, w1: View, w2: View, block: nat, b: nat) {
    && Live(v.heap, v.mmaps, block) && AllKept(v, w1)
    && Live(w1.heap, w1.mmaps, b) && !Live(v.heap, v.mmaps, b)
    && Capacity(w1.heap, w1.mmaps, b) >= Capacity(v.heap, v.mmaps, block)
    && w2.heap == w1.heap && w2.mmaps == w1.mmaps && AllKeptBut(w1, w2, b)
    && SamePrefix(w1.mem, block, w2.mem, b, Capacity(v.heap, v.mmaps, block))
    && (block in w1.mmaps <==> block in v.mmaps)
  }

  /** Allocate, copy, free: what the copying path of srealloc adds up to. */
  lemma Relocation(v: View, w1: View, w2: View, w3: View, block: nat, b: nat, unmapOk: bool)
    requires CopiedOver(v, w1, w2, block, b)
    requires AllKeptBut(w2, w3, block)
    requires Live(w3.heap, w3.mmaps, block) ==> block in w1.mmaps && !unmapOk
    ensures Reallocated(v, w3, block, b, unmapOk)
    ensures Capacity(w3.heap, w3.mmaps, b) == Capacity(w1.heap, w1.mmaps, b)
  {
    var n := Capacity(v.heap, v.mmaps, block);
    assert Kept(v, w1, block) && Kept(w2, w3, b);
    KeptPrefix(v, w1, block, n);
    KeptPrefix(w2, w3, b, n);
    SamePrefixTrans(v.mem, block, w1.mem, block, w2.mem, b, n);
    SamePrefixTrans(v.mem, block, w2.mem, b, w3.mem, b, n);
    forall a | a != block
      ensures Kept(v, w3, a)
    {
      assert Kept(v, w1, a);
      if Live(v.heap, v.mmaps, a) {
        assert Kept(w1, w2, a) && Kept(w2, w3, a);
        KeptTrans(v, w1, w2, a);
        KeptTrans(v, w2, w3, a);
      }
    }
  }

  /** What srealloc has done when it returns p for a block, or for NULL: NULL changes no live block; otherwise the
      result is as Reallocated says (a fresh allocation for a NULL oldp), and it is large enough
      unless the probe was misled. */
  ghost predicate ReallocDone(v: View, w: View, from: Option<nat>, p: nat, size: nat, need: nat, unmapOk: bool) {
    if p == NULL then AllKept(v, w)
    else
      && p >= HEADER
      && (from.None? ==>
            && AllKept(v, w) && !Live(v.heap, v.mmaps, p - HEADER) && Live(w.heap, w.mmaps, p - HEADER)
            && Capacity(w.heap, w.mmaps, p - HEADER) >= size)
      && (from.Some? ==>
            && Reallocated(v, w, from.value, p - HEADER, unmapOk)
            && (Capacity(w.heap, w.mmaps, p - HEADER) >= size <==> !Misled(v, from.value, size, need)))
  }

  /** What that means for a client: its own bytes are the first ones of the new block, granule by granule,
      and every other live block is where it was, with its size and its bytes. */
  lemma ReallocMeans(v: View, w: View, oldp: nat, p: nat, size: nat, need: nat, unmapOk: bool, i: nat, a: nat, x: nat)
    requires oldp >= HEADER && ReallocDone(v, w, Some(oldp - HEADER), p, size, need, unmapOk)
    ensures p != NULL && 32 * i < Capacity(v.heap, v.mmaps, oldp - HEADER) ==> At(w.mem, p + 32 * i) == At(v.mem, oldp + 32 * i)
    ensures (a != oldp - HEADER || p == NULL) && Live(v.heap, v.mmaps, a) ==>
              && Live(w.heap, w.mmaps, a) && Capacity(w.heap, w.mmaps, a) == Capacity(v.heap, v.mmaps, a)
              && (a + HEADER <= x < a + Extent(Capacity(v.heap, v.mmaps, a)) ==> At(w.mem, x) == At(v.mem, x))
  {
    assert a != oldp - HEADER || p == NULL ==> Kept(v, w, a);
    if p != NULL {
      assert Slot(p - HEADER, i) == p + 32 * i && Slot(oldp - HEADER, i) == oldp + 32 * i;
    }
  }

  /** A block that already fits is handed back as it is. */
  lemma Unchanged(v: View, block: nat, size: nat, need: nat, unmapOk: bool)
    requires Live(v.heap, v.mmaps, block) && Capacity(v.heap, v.mmaps, block) >= size
    ensures ReallocDone(v, v, Some(block), block + HEADER, size, need, unmapOk)
  {
    AllKeptRefl(v);
  }

  lemma RequiredOrder(size: nat) returns (need: nat)
    ensures size + HEADER <= TOP_BLOCK ==> LeastOrder(size + HEADER, need)
  {
    need := 0;
    if size + HEADER <= TOP_BLOCK {
      TopBlockSize();
      while BlockSize(need) < size + HEADER
        invariant need <= MAX_ORDER && forall j: nat :: j < need ==> BlockSize(j) < size + HEADER
        decreases MAX_ORDER - need
      {
        need := need + 1;
      }
    }
  }

  /** Growing in place meets the promise, and is big enough exactly when the region really was free. */
  lemma GrownResult(v: View, w: View, init: bool, base: nat, block: nat, size: nat, need: nat, unmapOk: bool)
    requires init && Tiling(v.heap, base) && Coalesced(v.heap) && Mapped(v.mem, v.mmaps, init, base)
    requires block in v.heap && !v.heap[block].free && v.heap[block].order < need <= MAX_ORDER
    requires LeastOrder(size + HEADER, need) && size + HEADER <= MMAP_LIMIT && ProbeOf(v.mem, block, size).canMerge
    requires w.heap == Grown(v.heap, block, need) && w.mmaps == v.mmaps && Mapped(w.mem, w.mmaps, init, base)
    requires AllKeptBut(v, w, block)
    requires SamePrefix(v.mem, block, w.mem, GrownAt(v.heap, block, need), BlockSize(v.heap[block].order) - HEADER)
    ensures Reallocated(v, w, block, GrownAt(v.heap, block, need), unmapOk)
    ensures Capacity(w.heap, w.mmaps, GrownAt(v.heap, block, need)) >= size <==> !Misled(v, block, size, need)
  {
    var at := GrownAt(v.heap, block, need);
    GrownKeeps(v.heap, base, block, need);
    GrownOthers(v.heap, base, block, need);
    LiveExtent(v.mem, v.heap, v.mmaps, init, base, block);
    LiveExtent(w.mem, w.heap, w.mmaps, init, base, at);
    TooSmall(v.heap[block].order, size, need);
    TooSmall(w.heap[at].order, size, need);
    if v.heap[block].order < w.heap[at].order {
      BlockSizeMonotone(v.heap[block].order, w.heap[at].order);
    }
  }

  // ---- Counting free blocks ----

  ghost function FreeBlocks(h: Heap): set<nat> {
    set a | a in h && h[a].free
  }

  ghost predicate ListedUnder(list: seq<seq<nat>>, i: nat, a: nat) {
    exists k :: 0 <= k < i && Listed(list, k, a)
  }

  /** seen holds exactly the blocks of the first i lists. */
  ghost predicate ListedBelow(list: seq<seq<nat>>, i: nat, seen: set<nat>) {
    && (forall a :: a in seen ==> ListedUnder(list, i, a))
    && (forall k: nat, a: nat {:trigger Listed(list, k, a)} :: k < i && Listed(list, k, a) ==> a in seen)
  }

  /** seen holds exactly what it held before and the first j elements of s. */
  ghost predicate WalkedTo(before: set<nat>, s: seq<nat>, j: nat, seen: set<nat>) {
    forall a :: a in seen <==> a in before || a in s[..if j <= |s| then j else |s|]
  }

  lemma WalkOn(before: set<nat>, s: seq<nat>, j: nat, seen: set<nat>)
    requires j < |s| && WalkedTo(before, s, j, seen)
    ensures WalkedTo(before, s, j + 1, seen + {s[j]})
    ensures s[j] !in before && s[j] !in s[..j] ==> s[j] !in seen
  {
    assert s[..j + 1] == s[..j] + [s[j]];
  }

  lemma WalkDone(list: seq<seq<nat>>, i: nat, before: set<nat>, seen: set<nat>)
    requires i < |list| && ListedBelow(list, i, before) && WalkedTo(before, list[i], |list[i]|, seen)
    ensures ListedBelow(list, i + 1, seen)
  {
    var s := list[i];
    assert s[..|s|] == s;
    forall a | a in seen
      ensures ListedUnder(list, i + 1, a)
    {
      if a in before {
        assert ListedUnder(list, i, a);
        var k :| 0 <= k < i && Listed(list, k, a);
        assert 0 <= k < i + 1 && Listed(list, k, a);
      } else {
        assert Listed(list, i, a);
      }
    }
  }

  lemma NotSeenYet(m: Memory, head: seq<nat>, list: seq<seq<nat>>, i: nat, j: nat, before: set<nat>)
    requires Linked(m, head, list) && i < LISTS && j < |list[i]| && ListedBelow(list, i, before)
    ensures list[i][j] !in before && list[i][j] !in list[i][..j]
  {
    var a := list[i][j];
    assert ListOk(m, head, list, i);
    assert a in list[i];
    forall k | 0 <= k < i
      ensures !Listed(list, k, a)
    {
    }
    assert !ListedUnder(list, i, a);
  }

  lemma PayloadAdd(h: Heap, s: set<nat>, a: nat)
    requires a in h && a !in s
    ensures PayloadOver(h, s + {a}) == PayloadOver(h, s) + BlockSize(h[a].order) - HEADER
  {
    PayloadRemove(h, s + {a}, a);
    assert s + {a} - {a} == s;
  }

  lemma AllListed(list: seq<seq<nat>>, h: Heap, base: nat, seen: set<nat>)
    requires Agree(list, h) && (h != map[] ==> Tiling(h, base)) && ListedBelow(list, LISTS, seen)
    ensures seen == FreeBlocks(h)
  {
    forall a
      ensures a in seen <==> a in FreeBlocks(h)
    {
      if a in seen {
        assert ListedUnder(list, LISTS, a);
      }
      if a in FreeBlocks(h) {
        assert PlacedIn(h, a, base);
        assert Listed(list, h[a].order, a);
      }
    }
  }
}
