/** The values behind a pipe: a window of page buffers in a power-of-two ring, the pages they
    refer to, and the byte stream the window stands for. */
module PipeRing {
  import opened Basics
  import opened Dyadic

  const PAGE_SIZE := 4096

  /** Which operations a slot has: none once it is released, and otherwise whether a later write may
      be merged into its page. */
  datatype Ops = Cleared | Mergeable | Unmergeable

  datatype Buf = Buf(page: int, offset: nat, len: nat, ops: Ops)

  type Pages = map<int, seq<nat>>

  // ---- The mask ----

  function And(a: nat, b: nat): nat
    decreases a
  {
    if a == 0 || b == 0 then 0
    else 2 * And(a / 2, b / 2) + if a % 2 == 1 && b % 2 == 1 then 1 else 0
  }

  /** An index that has run at most once past the end of a ring of n slots. */
  function Wrap(x: nat, n: nat): (r: nat)
    requires x < 2 * n
    ensures r < n
  {
    if x < n then x else x - n
  }

  lemma WrapHalf(x: nat, n: nat)
    requires x < 4 * n
    ensures Wrap(x, 2 * n) == 2 * Wrap(x / 2, n) + x % 2 && (2 * n - 1) / 2 == n - 1 && (2 * n - 1) % 2 == 1
  {
  }

  /** Masking with size minus one wraps an index, because the size is a power of two. */
  lemma {:induction false} MaskWraps(x: nat, k: nat)
    requires x < 2 * Pow2(k)
    ensures And(x, Pow2(k) - 1) == Wrap(x, Pow2(k))
  {
    if x > 0 && k > 0 {
      WrapHalf(x, Pow2(k - 1));
      MaskWraps(x / 2, k - 1);
    }
  }

  // ---- The window ----

  /** The slot i places after the current one. */
  function At(b: seq<Buf>, cur: nat, i: nat): Buf
    requires cur < |b| && i < |b|
  {
    b[Wrap(cur + i, |b|)]
  }

  function Window(b: seq<Buf>, cur: nat, n: nat): (w: seq<Buf>)
    requires cur < |b| && n <= |b|
    ensures |w| == n && forall i :: 0 <= i < n ==> w[i] == At(b, cur, i)
  {
    seq(n, i requires 0 <= i < n => At(b, cur, i))
  }

  ghost predicate ClearedOutside(b: seq<Buf>, cur: nat, n: nat)
    requires cur < |b| && n <= |b|
  {
    forall i: nat :: n <= i < |b| ==> At(b, cur, i).ops.Cleared?
  }

  lemma SlotSet(b: seq<Buf>, cur: nat, j: nat, x: Buf, i: nat)
    requires cur < |b| && j < |b| && i < |b|
    ensures At(b[Wrap(cur + j, |b|) := x], cur, i) == if i == j then x else At(b, cur, i)
  {
  }

  lemma WindowSet(b: seq<Buf>, cur: nat, n: nat, j: nat, x: Buf)
    requires cur < |b| && j < n <= |b|
    ensures Window(b[Wrap(cur + j, |b|) := x], cur, n) == Window(b, cur, n)[j := x]
    ensures ClearedOutside(b, cur, n) ==> ClearedOutside(b[Wrap(cur + j, |b|) := x], cur, n)
  {
    var b' := b[Wrap(cur + j, |b|) := x];
    forall i: nat | i < |b|
      ensures At(b', cur, i) == if i == j then x else At(b, cur, i)
    {
      SlotSet(b, cur, j, x, i);
    }
  }

  lemma WindowPush(b: seq<Buf>, cur: nat, n: nat, x: Buf)
    requires cur < |b| && n < |b|
    ensures Window(b[Wrap(cur + n, |b|) := x], cur, n + 1) == Window(b, cur, n) + [x]
    ensures ClearedOutside(b, cur, n) ==> ClearedOutside(b[Wrap(cur + n, |b|) := x], cur, n + 1)
  {
    var b' := b[Wrap(cur + n, |b|) := x];
    forall i: nat | i < |b|
      ensures At(b', cur, i) == if i == n then x else At(b, cur, i)
    {
      SlotSet(b, cur, n, x, i);
    }
  }

  lemma WindowPop(b: seq<Buf>, cur: nat, n: nat)
    requires cur < |b| && 0 < n <= |b| && ClearedOutside(b, cur, n)
    ensures var b' := b[cur := b[cur].(ops := Cleared)];
            && Window(b', Wrap(cur + 1, |b|), n - 1) == Window(b, cur, n)[1..]
            && ClearedOutside(b', Wrap(cur + 1, |b|), n - 1)
  {
    var b' := b[cur := b[cur].(ops := Cleared)];
    var cur' := Wrap(cur + 1, |b|);
    forall i: nat | i < |b|
      ensures At(b', cur', i) == if i < |b| - 1 then At(b, cur, i + 1) else b'[cur]
      ensures n - 1 <= i ==> At(b', cur', i).ops.Cleared?
    {
    }
  }

  // ---- The stream ----

  function Part(b: Buf, pages: Pages): seq<nat> {
    if b.page in pages && b.offset + b.len <= |pages[b.page]| then pages[b.page][b.offset..b.offset + b.len] else []
  }

  /** The bytes written and not yet read, oldest first. */
  function Unread(slots: seq<Buf>, pages: Pages): seq<nat> {
    if slots == [] then [] else Part(slots[0], pages) + Unread(slots[1..], pages)
  }

  lemma {:induction false} UnreadConcat(a: seq<Buf>, b: seq<Buf>, pages: Pages)
    ensures Unread(a + b, pages) == Unread(a, pages) + Unread(b, pages)
  {
    if a == [] {
      assert a + b == b;
    } else {
      assert (a + b)[1..] == a[1..] + b;
      UnreadConcat(a[1..], b, pages);
    }
  }

  ghost predicate SamePage(b: Buf, pages: Pages, pages': Pages) {
    b.page in pages && b.page in pages' && pages[b.page] == pages'[b.page]
  }

  lemma {:induction false} UnreadFrame(slots: seq<Buf>, pages: Pages, pages': Pages)
    requires forall i :: 0 <= i < |slots| ==> SamePage(slots[i], pages, pages')
    ensures Unread(slots, pages) == Unread(slots, pages')
  {
    if slots != [] {
      assert SamePage(slots[0], pages, pages');
      UnreadFrame(slots[1..], pages, pages');
    }
  }

  // ---- A well-formed ring ----

  /** The live slots, the pages the pipe owns, and its spare page. */
  datatype Ring = Ring(slots: seq<Buf>, pages: Pages, tmp: Option<int>)
  {
    function Stream(): seq<nat> { Unread(slots, pages) }
  }

  ghost predicate BufOk(b: Buf, pages: Pages) {
    b.page in pages && b.len > 0 && b.offset + b.len <= PAGE_SIZE && !b.ops.Cleared?
  }

  ghost predicate Owned(p: int, slots: seq<Buf>, tmp: Option<int>) {
    tmp == Some(p) || exists i :: 0 <= i < |slots| && slots[i].page == p
  }

  /** No two live slots share a page, none uses the spare page, and every page owned is a live
      slot's or the spare one, so none is leaked and none freed while in use. */
  ghost predicate RingOk(r: Ring) {
    && (forall p :: p in r.pages ==> |r.pages[p]| == PAGE_SIZE)
    && (forall i {:trigger BufOk(r.slots[i], r.pages)} :: 0 <= i < |r.slots| ==> BufOk(r.slots[i], r.pages))
    && (forall i, j :: 0 <= i < j < |r.slots| ==> r.slots[i].page != r.slots[j].page)
    && (r.tmp.Some? ==> r.tmp.value in r.pages && forall i :: 0 <= i < |r.slots| ==> r.slots[i].page != r.tmp.value)
    && (forall p {:trigger Owned(p, r.slots, r.tmp)} :: p in r.pages ==> Owned(p, r.slots, r.tmp))
  }

  /** Slots may be touched up as long as they keep their pages. */
  lemma SamePlaces(r: Ring, r': Ring)
    requires RingOk(r) && |r'.slots| == |r.slots| && r'.tmp == r.tmp && r'.pages.Keys == r.pages.Keys
    requires forall i :: 0 <= i < |r.slots| ==> r'.slots[i].page == r.slots[i].page && BufOk(r'.slots[i], r'.pages)
    requires forall p :: p in r'.pages ==> |r'.pages[p]| == PAGE_SIZE
    ensures RingOk(r')
  {
    forall p | p in r'.pages
      ensures Owned(p, r'.slots, r'.tmp)
    {
      assert Owned(p, r.slots, r.tmp);
      if i :| 0 <= i < |r.slots| && r.slots[i].page == p {
        assert r'.slots[i].page == p;
      }
    }
  }

  // ---- Reading ----

  /** The oldest slot gives up its page: it becomes the spare page if there is none, or is freed. */
  function Released(r: Ring): Ring
    requires r.slots != []
  {
    var p := r.slots[0].page;
    if r.tmp.None? then Ring(r.slots[1..], r.pages, Some(p)) else Ring(r.slots[1..], r.pages - {p}, r.tmp)
  }

  function Advanced(b: Buf, n: nat): Buf
    requires n <= b.len
  {
    b.(offset := b.offset + n, len := b.len - n)
  }

  lemma AdvancedKeeps(r: Ring, n: nat)
    requires RingOk(r) && r.slots != [] && n < r.slots[0].len
    ensures var r' := r.(slots := r.slots[0 := Advanced(r.slots[0], n)]);
            RingOk(r') && r.Stream() == Part(r.slots[0].(len := n), r.pages) + r'.Stream()
  {
    var b := r.slots[0];
    var r' := r.(slots := r.slots[0 := Advanced(b, n)]);
    assert BufOk(b, r.pages);
    assert forall i :: 0 <= i < |r.slots| ==> BufOk(r.slots[i], r.pages);
    SamePlaces(r, r');
    assert r'.slots[1..] == r.slots[1..];
    assert Part(b, r.pages) == Part(b.(len := n), r.pages) + Part(Advanced(b, n), r.pages);
  }

  lemma ReleasedKeeps(r: Ring)
    requires RingOk(r) && r.slots != []
    ensures RingOk(Released(r))
    ensures r.Stream() == Part(r.slots[0], r.pages) + Released(r).Stream()
  {
    var p, r' := r.slots[0].page, Released(r);
    assert BufOk(r.slots[0], r.pages);
    forall i | 0 <= i < |r'.slots|
      ensures SamePage(r'.slots[i], r.pages, r'.pages) && BufOk(r'.slots[i], r'.pages)
    {
      assert r'.slots[i] == r.slots[i + 1] && BufOk(r.slots[i + 1], r.pages) && r.slots[i + 1].page != p;
    }
    UnreadFrame(r'.slots, r.pages, r'.pages);
    forall q | q in r'.pages
      ensures Owned(q, r'.slots, r'.tmp)
    {
      assert Owned(q, r.slots, r.tmp);
      if i :| 0 <= i < |r.slots| && r.slots[i].page == q {
        if i > 0 {
          assert r'.slots[i - 1].page == q;
        }
      }
    }
  }

  // ---- Writing ----

  /** Overwriting part of a page. */
  function Spliced(page: seq<nat>, at: nat, data: seq<nat>): (q: seq<nat>)
    requires at + |data| <= |page|
    ensures |q| == |page| && q[at..at + |data|] == data
    ensures forall i :: 0 <= i < |page| && !(at <= i < at + |data|) ==> q[i] == page[i]
  {
    page[..at] + data + page[at + |data|..]
  }

  /** Whether, and by how much, a write of n bytes is merged into the newest page. */
  function MergeCount(slots: seq<Buf>, n: nat): (c: nat)
    ensures c <= n
  {
    if slots == [] then 0
    else
      var c, last := n % 4096, slots[|slots| - 1];
      if last.ops.Mergeable? && last.offset + last.len + c <= PAGE_SIZE then c else 0
  }

  function Merged(r: Ring, data: seq<nat>): Ring
    requires r.slots != [] && RingOk(r)
    requires r.slots[|r.slots| - 1].offset + r.slots[|r.slots| - 1].len + |data| <= PAGE_SIZE
  {
    var k := |r.slots| - 1;
    var b := r.slots[k];
    assert BufOk(b, r.pages);
    Ring(r.slots[k := b.(len := b.len + |data|)],
         r.pages[b.page := Spliced(r.pages[b.page], b.offset + b.len, data)], r.tmp)
  }

  /** The newest slot is longer by n bytes. */
  function Longer(slots: seq<Buf>, n: nat): (r: seq<Buf>)
    ensures |r| == |slots| && forall i :: 0 <= i < |slots| - 1 ==> r[i] == slots[i]
  {
    var k := |slots| - 1;
    if slots == [] then [] else slots[k := slots[k].(len := slots[k].len + n)]
  }

  lemma MergedSlots(r: Ring, data: seq<nat>)
    requires r.slots != [] && RingOk(r)
    requires r.slots[|r.slots| - 1].offset + r.slots[|r.slots| - 1].len + |data| <= PAGE_SIZE
    ensures Merged(r, data).slots == Longer(r.slots, |data|)
  {
  }

  lemma MergedOk(r: Ring, data: seq<nat>)
    requires r.slots != [] && RingOk(r)
    requires r.slots[|r.slots| - 1].offset + r.slots[|r.slots| - 1].len + |data| <= PAGE_SIZE
    ensures RingOk(Merged(r, data)) && Merged(r, data).pages.Keys == r.pages.Keys
  {
    var k, r' := |r.slots| - 1, Merged(r, data);
    assert BufOk(r.slots[k], r.pages);
    forall i | 0 <= i < |r.slots|
      ensures r'.slots[i].page == r.slots[i].page && BufOk(r'.slots[i], r'.pages)
    {
      assert BufOk(r.slots[i], r.pages);
    }
    SamePlaces(r, r');
  }

  lemma Regroup(a: seq<nat>, b: seq<nat>, c: seq<nat>)
    ensures a + (b + c) == (a + b) + c
  {
  }

  lemma UnreadOne(b: Buf, pages: Pages)
    ensures Unread([b], pages) == Part(b, pages)
  {
    assert [b][1..] == [];
  }

  lemma UnreadSnoc(rest: seq<Buf>, b: Buf, pages: Pages)
    ensures Unread(rest + [b], pages) == Unread(rest, pages) + Part(b, pages)
  {
    UnreadConcat(rest, [b], pages);
    UnreadOne(b, pages);
  }

  lemma LastGrows(rest: seq<Buf>, b: Buf, b': Buf, pages: Pages, pages': Pages, data: seq<nat>)
    requires forall i :: 0 <= i < |rest| ==> SamePage(rest[i], pages, pages')
    requires Part(b', pages') == Part(b, pages) + data
    ensures Unread(rest + [b'], pages') == Unread(rest + [b], pages) + data
  {
    UnreadSnoc(rest, b, pages);
    UnreadSnoc(rest, b', pages');
    UnreadFrame(rest, pages, pages');
    Regroup(Unread(rest, pages), Part(b, pages), data);
  }

  lemma MergedPart(page: seq<nat>, offset: nat, len: nat, data: seq<nat>)
    requires offset + len + |data| <= |page|
    ensures Spliced(page, offset + len, data)[offset..offset + (len + |data|)] == page[offset..offset + len] + data
  {
    var q := Spliced(page, offset + len, data);
    assert q[offset..offset + len] == page[offset..offset + len];
    assert q[offset..offset + (len + |data|)] == q[offset..offset + len] + q[offset + len..offset + len + |data|];
  }

  lemma MergedStream(r: Ring, data: seq<nat>)
    requires r.slots != [] && RingOk(r)
    requires r.slots[|r.slots| - 1].offset + r.slots[|r.slots| - 1].len + |data| <= PAGE_SIZE
    ensures Merged(r, data).Stream() == r.Stream() + data
  {
    var k, r' := |r.slots| - 1, Merged(r, data);
    var rest, b, b' := r.slots[..k], r.slots[k], r'.slots[k];
    assert BufOk(b, r.pages);
    forall i | 0 <= i < k
      ensures SamePage(rest[i], r.pages, r'.pages)
    {
      assert BufOk(r.slots[i], r.pages);
    }
    assert r.slots == rest + [b] && r'.slots == rest + [b'];
    assert Part(b', r'.pages) == Part(b, r.pages) + data by {
      MergedPart(r.pages[b.page], b.offset, b.len, data);
    }
    LastGrows(rest, b, b', r.pages, r'.pages, data);
  }

  /** A new page becomes the spare one. */
  lemma AllocatedKeeps(r: Ring, p: int, raw: seq<nat>)
    requires RingOk(r) && r.tmp.None? && p !in r.pages && |raw| == PAGE_SIZE
    ensures var r' := Ring(r.slots, r.pages[p := raw], Some(p));
            RingOk(r') && r'.Stream() == r.Stream() && r'.pages.Keys == r.pages.Keys + {p}
  {
    var r' := Ring(r.slots, r.pages[p := raw], Some(p));
    forall i | 0 <= i < |r.slots|
      ensures SamePage(r.slots[i], r.pages, r'.pages) && BufOk(r.slots[i], r'.pages) && r.slots[i].page != p
    {
      assert BufOk(r.slots[i], r.pages);
    }
    forall q | q in r'.pages
      ensures Owned(q, r'.slots, r'.tmp)
    {
      assert q != p ==> Owned(q, r.slots, r.tmp);
    }
    UnreadFrame(r.slots, r.pages, r'.pages);
  }

  /** The spare page, filled with data, becomes the newest slot. */
  function Filled(r: Ring, data: seq<nat>): Ring
    requires RingOk(r) && r.tmp.Some? && 0 < |data| <= PAGE_SIZE
  {
    var p := r.tmp.value;
    Ring(r.slots + [Buf(p, 0, |data|, Mergeable)], r.pages[p := Spliced(r.pages[p], 0, data)], None)
  }

  lemma FilledOk(r: Ring, data: seq<nat>)
    requires RingOk(r) && r.tmp.Some? && 0 < |data| <= PAGE_SIZE
    ensures RingOk(Filled(r, data)) && Filled(r, data).pages.Keys == r.pages.Keys
  {
    var r' := Filled(r, data);
    forall i | 0 <= i < |r.slots|
      ensures BufOk(r.slots[i], r'.pages)
    {
      assert BufOk(r.slots[i], r.pages);
    }
    forall q | q in r'.pages
      ensures Owned(q, r'.slots, r'.tmp)
    {
      assert Owned(q, r.slots, r.tmp);
      if i :| 0 <= i < |r.slots| && r.slots[i].page == q {
        assert r'.slots[i].page == q;
      } else {
        assert r'.slots[|r.slots|].page == q;
      }
    }
  }

  lemma FilledStream(r: Ring, data: seq<nat>)
    requires RingOk(r) && r.tmp.Some? && 0 < |data| <= PAGE_SIZE
    ensures Filled(r, data).Stream() == r.Stream() + data
  {
    var r', b := Filled(r, data), Buf(r.tmp.value, 0, |data|, Mergeable);
    forall i | 0 <= i < |r.slots|
      ensures SamePage(r.slots[i], r.pages, r'.pages)
    {
      assert BufOk(r.slots[i], r.pages);
    }
    UnreadFrame(r.slots, r.pages, r'.pages);
    UnreadConcat(r.slots, [b], r'.pages);
    UnreadOne(b, r'.pages);
  }
}
