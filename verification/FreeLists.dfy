/** The allocator's memory and its free lists: one doubly linked, address-sorted list per order,
    threaded through the headers of the free blocks. */
module FreeLists {
  const NULL: nat := 0
  const LISTS: nat := 11

  /** A granule is 32 bytes of memory, the size and alignment of a header, read as the fields of
      the header struct; rest stands for the bytes of the granule that no field names. Payload
      memory is made of granules too, so a header read at any address has a value. */
  datatype Granule = Granule(size: nat, isFree: bool, next: nat, prev: nat, rest: nat)

  type Memory = map<nat, Granule>

  function At(m: Memory, a: nat): Granule {
    if a in m then m[a] else Granule(0, false, NULL, NULL, 0)
  }

  // ---- Lists in memory ----

  function Next(s: seq<nat>, i: nat): nat {
    if i + 1 < |s| then s[i + 1] else NULL
  }

  function Prev(s: seq<nat>, i: nat): nat {
    if 0 < i <= |s| then s[i - 1] else NULL
  }

  ghost predicate ChainedAt(m: Memory, s: seq<nat>, i: nat)
    requires i < |s|
  {
    s[i] != NULL && At(m, s[i]).next == Next(s, i) && At(m, s[i]).prev == Prev(s, i)
  }

  /** The links starting at head visit exactly the addresses of s, in order and in both directions. */
  ghost predicate Chain(m: Memory, head: nat, s: seq<nat>) {
    && head == (if s == [] then NULL else s[0])
    && forall i :: 0 <= i < |s| ==> ChainedAt(m, s, i)
  }

  ghost predicate Sorted(s: seq<nat>) {
    forall i, j :: 0 <= i < j < |s| ==> s[i] < s[j]
  }

  ghost predicate Unlisted(list: seq<seq<nat>>, a: nat) {
    forall k :: 0 <= k < |list| ==> a !in list[k]
  }

  ghost predicate Apart(list: seq<seq<nat>>) {
    forall j, k, a :: 0 <= j < |list| && 0 <= k < |list| && j != k && a in list[j] ==> a !in list[k]
  }

  ghost predicate ListOk(m: Memory, head: seq<nat>, list: seq<seq<nat>>, k: nat)
    requires k < |head| && k < |list|
  {
    Chain(m, head[k], list[k]) && Sorted(list[k])
  }

  ghost predicate Linked(m: Memory, head: seq<nat>, list: seq<seq<nat>>) {
    && |head| == |list| == LISTS
    && (forall k :: 0 <= k < LISTS ==> ListOk(m, head, list, k))
    && Apart(list)
  }

  /** The two granules differ at most in their links. */
  predicate SameData(g: Granule, g': Granule) {
    g'.size == g.size && g'.isFree == g.isFree && g'.rest == g.rest
  }

  /** Memory changed at most in the links of granules in s. */
  ghost predicate OnlyLinks(m: Memory, m': Memory, s: seq<nat>) {
    && (forall a :: SameData(At(m, a), At(m', a)))
    && (forall a :: a !in s ==> At(m', a) == At(m, a))
  }

  // ---- Linking in and out, on values ----

  function ItemAt(s: seq<nat>, i: nat): nat {
    if i < |s| then s[i] else NULL
  }

  function InsertAt(s: seq<nat>, i: nat, block: nat): seq<nat>
    requires i <= |s|
  {
    s[..i] + [block] + s[i..]
  }

  function RemoveAt(s: seq<nat>, i: nat): seq<nat>
    requires i < |s|
  {
    s[..i] + s[i + 1..]
  }

  ghost predicate Extended(s: seq<nat>, block: nat, t: seq<nat>) {
    forall a :: a in t <==> a == block || a in s
  }

  ghost predicate Reduced(s: seq<nat>, block: nat, t: seq<nat>) {
    forall a :: a in t <==> a != block && a in s
  }

  /** Memory after linking block between two neighbours, either of which may be NULL. */
  function LinkIn(m: Memory, prev: nat, block: nat, next: nat): Memory {
    var m1 := m[block := At(m, block).(next := next, prev := prev)];
    var m2 := if prev == NULL then m1 else m1[prev := At(m1, prev).(next := block)];
    if next == NULL then m2 else m2[next := At(m2, next).(prev := block)]
  }

  /** Memory after closing the gap that block leaves between its neighbours. */
  function LinkOut(m: Memory, prev: nat, block: nat, next: nat): Memory {
    var m1 := if prev == NULL then m else m[prev := At(m, prev).(next := next)];
    var m2 := if next == NULL then m1 else m1[next := At(m1, next).(prev := prev)];
    m2[block := At(m2, block).(next := NULL, prev := NULL)]
  }

  lemma LinkInAt(m: Memory, prev: nat, block: nat, next: nat, a: nat)
    requires prev != block && next != block && (prev == next ==> prev == NULL)
    ensures At(LinkIn(m, prev, block, next), a) ==
            if a == block then At(m, a).(next := next, prev := prev)
            else if a == prev && prev != NULL then At(m, a).(next := block)
            else if a == next && next != NULL then At(m, a).(prev := block)
            else At(m, a)
  {
  }

  lemma LinkOutAt(m: Memory, prev: nat, block: nat, next: nat, a: nat)
    requires prev != block && next != block && (prev == next ==> prev == NULL)
    ensures At(LinkOut(m, prev, block, next), a) ==
            if a == block then At(m, a).(next := NULL, prev := NULL)
            else if a == prev && prev != NULL then At(m, a).(next := next)
            else if a == next && next != NULL then At(m, a).(prev := prev)
            else At(m, a)
  {
  }

  lemma ChainNonNull(m: Memory, head: nat, s: seq<nat>)
    requires Chain(m, head, s)
    ensures forall j :: 0 <= j < |s| ==> s[j] != NULL
  {
    forall j | 0 <= j < |s| ensures s[j] != NULL {
      assert ChainedAt(m, s, j);
    }
  }

  /** The neighbours of a place in a sorted list are different blocks, and different from a new one. */
  lemma Neighbours(s: seq<nat>, i: nat, block: nat)
    requires Sorted(s) && i <= |s| && block != NULL && block !in s
    requires forall j :: 0 <= j < |s| ==> s[j] != NULL
    ensures Prev(s, i) != block && ItemAt(s, i) != block
    ensures Prev(s, i) == ItemAt(s, i) ==> Prev(s, i) == NULL
    ensures forall j :: 0 <= j < |s| ==> (s[j] == Prev(s, i) <==> j + 1 == i) && (s[j] == ItemAt(s, i) <==> j == i)
  {
    assert i > 0 ==> s[i - 1] in s;
    assert i < |s| ==> s[i] in s;
  }

  lemma ChainInsertAt(m: Memory, head: nat, s: seq<nat>, i: nat, block: nat, j: nat)
    requires Chain(m, head, s) && Sorted(s) && i <= |s| && block != NULL && block !in s && j <= |s|
    ensures ChainedAt(LinkIn(m, Prev(s, i), block, ItemAt(s, i)), InsertAt(s, i, block), j)
  {
    var t := InsertAt(s, i, block);
    ChainNonNull(m, head, s);
    Neighbours(s, i, block);
    LinkInAt(m, Prev(s, i), block, ItemAt(s, i), t[j]);
    if j < i {
      assert t[j] == s[j] && s[j] in s && ChainedAt(m, s, j);
    } else if j > i {
      assert t[j] == s[j - 1] && s[j - 1] in s && ChainedAt(m, s, j - 1);
    }
  }

  lemma ChainInsert(m: Memory, head: nat, s: seq<nat>, i: nat, block: nat)
    requires Chain(m, head, s) && Sorted(s) && i <= |s| && block != NULL && block !in s
    ensures Chain(LinkIn(m, Prev(s, i), block, ItemAt(s, i)), if i == 0 then block else head, InsertAt(s, i, block))
  {
    var t := InsertAt(s, i, block);
    forall j | 0 <= j < |t|
      ensures ChainedAt(LinkIn(m, Prev(s, i), block, ItemAt(s, i)), t, j)
    {
      ChainInsertAt(m, head, s, i, block, j);
    }
  }

  lemma NeighboursOf(s: seq<nat>, i: nat)
    requires Sorted(s) && i < |s|
    requires forall j :: 0 <= j < |s| ==> s[j] != NULL
    ensures Prev(s, i) != s[i] && Next(s, i) != s[i]
    ensures Prev(s, i) == Next(s, i) ==> Prev(s, i) == NULL
    ensures forall j :: 0 <= j < |s| ==> (s[j] == Prev(s, i) <==> j + 1 == i) && (s[j] == Next(s, i) <==> j == i + 1)
  {
  }

  lemma ChainRemoveAt(m: Memory, head: nat, s: seq<nat>, i: nat, j: nat)
    requires Chain(m, head, s) && Sorted(s) && i < |s| && j < |s| - 1
    ensures ChainedAt(LinkOut(m, Prev(s, i), s[i], Next(s, i)), RemoveAt(s, i), j)
  {
    var t := RemoveAt(s, i);
    ChainNonNull(m, head, s);
    NeighboursOf(s, i);
    LinkOutAt(m, Prev(s, i), s[i], Next(s, i), t[j]);
    if j < i {
      assert t[j] == s[j] && ChainedAt(m, s, j);
    } else {
      assert t[j] == s[j + 1] && ChainedAt(m, s, j + 1);
    }
  }

  lemma ChainRemove(m: Memory, head: nat, s: seq<nat>, i: nat)
    requires Chain(m, head, s) && Sorted(s) && i < |s|
    ensures Chain(LinkOut(m, Prev(s, i), s[i], Next(s, i)), if i == 0 then Next(s, 0) else head, RemoveAt(s, i))
  {
    var t := RemoveAt(s, i);
    forall j | 0 <= j < |t|
      ensures ChainedAt(LinkOut(m, Prev(s, i), s[i], Next(s, i)), t, j)
    {
      ChainRemoveAt(m, head, s, i, j);
    }
  }

  lemma LinkInFrame(m: Memory, head: nat, s: seq<nat>, i: nat, block: nat)
    requires Chain(m, head, s) && Sorted(s) && i <= |s| && block != NULL && block !in s
    ensures OnlyLinks(m, LinkIn(m, Prev(s, i), block, ItemAt(s, i)), InsertAt(s, i, block))
  {
    var m' := LinkIn(m, Prev(s, i), block, ItemAt(s, i));
    var t := InsertAt(s, i, block);
    ChainNonNull(m, head, s);
    Neighbours(s, i, block);
    assert block == t[i] && (i > 0 ==> t[i - 1] == s[i - 1]) && (i < |s| ==> t[i + 1] == s[i]);
    forall a
      ensures SameData(At(m, a), At(m', a)) && (a !in t ==> At(m', a) == At(m, a))
    {
      LinkInAt(m, Prev(s, i), block, ItemAt(s, i), a);
    }
  }

  lemma LinkOutFrame(m: Memory, head: nat, s: seq<nat>, i: nat)
    requires Chain(m, head, s) && Sorted(s) && i < |s|
    ensures OnlyLinks(m, LinkOut(m, Prev(s, i), s[i], Next(s, i)), s)
  {
    var m' := LinkOut(m, Prev(s, i), s[i], Next(s, i));
    ChainNonNull(m, head, s);
    NeighboursOf(s, i);
    forall a
      ensures SameData(At(m, a), At(m', a)) && (a !in s ==> At(m', a) == At(m, a))
    {
      LinkOutAt(m, Prev(s, i), s[i], Next(s, i), a);
    }
  }

  lemma SortedInsert(s: seq<nat>, i: nat, block: nat)
    requires Sorted(s) && i <= |s|
    requires forall j :: 0 <= j < i ==> s[j] < block
    requires i < |s| ==> block < s[i]
    ensures Sorted(InsertAt(s, i, block))
  {
  }

  lemma InsertedElements(s: seq<nat>, i: nat, block: nat)
    requires i <= |s|
    ensures Extended(s, block, InsertAt(s, i, block))
  {
    var t := InsertAt(s, i, block);
    assert t[i] == block;
    assert s == s[..i] + s[i..];
  }

  lemma RemovedElements(s: seq<nat>, i: nat)
    requires Sorted(s) && i < |s|
    ensures Reduced(s, s[i], RemoveAt(s, i))
    ensures Sorted(RemoveAt(s, i))
  {
    var t := RemoveAt(s, i);
    forall a | a != s[i] && a in s
      ensures a in t
    {
      var j :| 0 <= j < |s| && s[j] == a;
      assert t[if j < i then j else j - 1] == a;
    }
  }

  /** Replacing one list leaves the others intact when their granules did not change. */
  lemma LinkedUpdate(m: Memory, m': Memory, head: seq<nat>, list: seq<seq<nat>>, k: nat, h: nat, s: seq<nat>)
    requires Linked(m, head, list) && k < LISTS
    requires Chain(m', h, s) && Sorted(s)
    requires forall j, a :: 0 <= j < LISTS && j != k && a in list[j] ==> a !in s && At(m', a) == At(m, a)
    ensures Linked(m', head[k := h], list[k := s])
  {
    var head', list' := head[k := h], list[k := s];
    forall j | 0 <= j < LISTS && j != k
      ensures ListOk(m', head', list', j)
    {
      var t := list[j];
      assert ListOk(m, head, list, j);
      forall i | 0 <= i < |t|
        ensures ChainedAt(m', t, i)
      {
        assert t[i] in list[j] && ChainedAt(m, t, i);
      }
    }
  }

  lemma InsertLinked(m: Memory, head: seq<nat>, list: seq<seq<nat>>, k: nat, i: nat, block: nat)
    requires Linked(m, head, list) && k < LISTS && block != NULL && Unlisted(list, block) && i <= |list[k]|
    requires forall j :: 0 <= j < i ==> list[k][j] < block
    requires i < |list[k]| ==> block < list[k][i]
    ensures var s := list[k];
            var m' := LinkIn(m, Prev(s, i), block, ItemAt(s, i));
            var t := InsertAt(s, i, block);
            && Linked(m', head[k := if i == 0 then block else head[k]], list[k := t])
            && Extended(s, block, t) && OnlyLinks(m, m', t)
  {
    var s := list[k];
    assert ListOk(m, head, list, k);
    var m' := LinkIn(m, Prev(s, i), block, ItemAt(s, i));
    var t := InsertAt(s, i, block);
    assert Extended(s, block, t) by { InsertedElements(s, i, block); }
    SortedInsert(s, i, block);
    ChainInsert(m, head[k], s, i, block);
    LinkInFrame(m, head[k], s, i, block);
    LinkedUpdate(m, m', head, list, k, if i == 0 then block else head[k], t);
  }

  lemma RemoveLinked(m: Memory, head: seq<nat>, list: seq<seq<nat>>, k: nat, i: nat)
    requires Linked(m, head, list) && k < LISTS && i < |list[k]|
    ensures var s := list[k];
            var m' := LinkOut(m, Prev(s, i), s[i], Next(s, i));
            var t := RemoveAt(s, i);
            && Linked(m', head[k := if i == 0 then Next(s, 0) else head[k]], list[k := t])
            && OnlyLinks(m, m', s)
  {
    var s := list[k];
    assert ListOk(m, head, list, k);
    var m' := LinkOut(m, Prev(s, i), s[i], Next(s, i));
    var t := RemoveAt(s, i);
    RemovedElements(s, i);
    ChainRemove(m, head[k], s, i);
    LinkOutFrame(m, head[k], s, i);
    LinkedUpdate(m, m', head, list, k, if i == 0 then Next(s, 0) else head[k], t);
  }

  /** Writing granules that are in no list keeps all lists. */
  lemma LinkedFrame(m: Memory, m': Memory, head: seq<nat>, list: seq<seq<nat>>)
    requires Linked(m, head, list)
    requires forall j, a :: 0 <= j < LISTS && a in list[j] ==>
               At(m', a).next == At(m, a).next && At(m', a).prev == At(m, a).prev
    ensures Linked(m', head, list)
  {
    forall j | 0 <= j < LISTS
      ensures ListOk(m', head, list, j)
    {
      var t := list[j];
      assert ListOk(m, head, list, j);
      forall i | 0 <= i < |t|
        ensures ChainedAt(m', t, i)
      {
        assert t[i] in list[j] && ChainedAt(m, t, i);
      }
    }
  }

  lemma EmptyElements(t: seq<nat>)
    ensures (forall a :: a !in t) ==> t == []
  {
    if t != [] {
      assert t[0] in t;
    }
  }

  lemma TailElement(s: seq<nat>, a: nat)
    requires Sorted(s) && s != []
    ensures a in s[1..] <==> a in s && a != s[0]
  {
    if a in s[1..] {
      var i :| 0 <= i < |s| - 1 && s[1..][i] == a;
      assert s[i + 1] == a && s[0] < s[i + 1];
    }
  }

  /** Sorted sequences with the same elements are equal. */
  lemma {:induction false} SortedUnique(s: seq<nat>, t: seq<nat>)
    requires Sorted(s) && Sorted(t)
    requires forall a :: a in s <==> a in t
    ensures s == t
    decreases |s|
  {
    if s == [] {
      assert t == [] by { EmptyElements(t); }
    } else {
      assert s[0] in t && t != [] && t[0] in s;
      var i :| 0 <= i < |s| && s[i] == t[0];
      var j :| 0 <= j < |t| && t[j] == s[0];
      assert s[0] == t[0];
      forall a ensures a in s[1..] <==> a in t[1..] {
        TailElement(s, a);
        TailElement(t, a);
      }
      SortedUnique(s[1..], t[1..]);
      assert s == [s[0]] + s[1..] && t == [t[0]] + t[1..];
    }
  }

  /** The position of a listed block, with what removing it there means for the list. */
  lemma IndexOf(m: Memory, head: seq<nat>, list: seq<seq<nat>>, k: nat, block: nat) returns (i: nat)
    requires Linked(m, head, list) && k < LISTS && block in list[k]
    ensures i < |list[k]| && list[k][i] == block
    ensures At(m, block).prev == Prev(list[k], i) && At(m, block).next == Next(list[k], i)
    ensures Prev(list[k], i) != block && Next(list[k], i) != block
    ensures Reduced(list[k], block, RemoveAt(list[k], i))
    ensures block == head[k] <==> i == 0
    ensures i == 0 ==> RemoveAt(list[k], i) == list[k][1..]
  {
    var s := list[k];
    i :| 0 <= i < |s| && s[i] == block;
    assert ListOk(m, head, list, k);
    assert ChainedAt(m, s, i);
    ChainNonNull(m, head[k], s);
    NeighboursOf(s, i);
    RemovedElements(s, i);
  }

  /** The free-list heads and the memory that the lists are threaded through. */
  class BlockLists {
    var mem: Memory
    var head: seq<nat>
    ghost var list: seq<seq<nat>>

    ghost predicate Valid()
      reads this
    {
      Linked(mem, head, list)
    }

    constructor ()
      ensures Valid() && mem == map[]
      ensures forall k :: 0 <= k < LISTS ==> head[k] == NULL && list[k] == []
    {
      mem := map[];
      head := seq(LISTS, _ => NULL);
      list := seq(LISTS, _ => []);
      new;
      assert forall k :: 0 <= k < LISTS ==> ListOk(mem, head, list, k);
    }

    method SetLinks(a: nat, next: nat, prev: nat)
      modifies `mem
      ensures mem == old(mem)[a := At(old(mem), a).(next := next, prev := prev)]
    {
      mem := mem[a := At(mem, a).(next := next, prev := prev)];
    }

    /** The pointer updates that put block between two neighbours of list k. */
    method LinkBetween(k: nat, prev: nat, block: nat, iter: nat)
      requires k < |head| && block != NULL && block != prev && block != iter && (prev == NULL ==> iter == head[k] != NULL)
      modifies `mem, `head
      ensures mem == LinkIn(old(mem), prev, block, iter)
      ensures head == if prev == NULL then old(head)[k := block] else old(head)
    {
      ghost var b := At(mem, block).(next := iter, prev := prev);
      if prev == NULL {
        mem := mem[block := At(mem, block).(next := head[k])];
        mem := mem[head[k] := At(mem, head[k]).(prev := block)];
        head := head[k := block];
        mem := mem[block := At(mem, block).(prev := NULL)];
        assert mem == old(mem)[block := b][iter := At(old(mem), iter).(prev := block)];
      } else {
        mem := mem[block := At(mem, block).(next := iter)];
        mem := mem[block := At(mem, block).(prev := prev)];
        assert mem == old(mem)[block := b];
        mem := mem[prev := At(mem, prev).(next := block)];
        if iter != NULL {
          mem := mem[iter := At(mem, iter).(prev := block)];
        }
      }
    }

    /** Walks to the first listed block that is not below the given one. */
    method FindPlace(k: nat, block: nat) returns (iter: nat, prev: nat, ghost i: nat)
      requires Valid() && k < LISTS && block !in list[k]
      ensures i <= |list[k]| && iter == ItemAt(list[k], i) && prev == Prev(list[k], i)
      ensures forall j :: 0 <= j < i ==> list[k][j] < block
      ensures i < |list[k]| ==> block < list[k][i]
    {
      ghost var s := list[k];
      assert ListOk(mem, head, list, k);
      ChainNonNull(mem, head[k], s);
      iter, prev, i := head[k], NULL, 0;
      while iter != NULL && block > iter
        invariant 0 <= i <= |s|
        invariant iter == ItemAt(s, i) && prev == Prev(s, i)
        invariant forall j :: 0 <= j < i ==> s[j] < block
        decreases |s| - i
      {
        assert ChainedAt(mem, s, i);
        prev := iter;
        iter := At(mem, iter).next;
        i := i + 1;
      }
    }

    method InsertBlock(k: nat, block: nat)
      requires Valid() && k < LISTS && Unlisted(list, block)
      modifies this
      ensures Valid()
      ensures head == old(head)[k := head[k]] && list == old(list)[k := list[k]]
      ensures block == NULL ==> mem == old(mem) && head == old(head) && list == old(list)
      ensures block != NULL ==> Extended(old(list)[k], block, list[k])
      ensures OnlyLinks(old(mem), mem, list[k])
    {
      if block == NULL {
        return;
      }
      ghost var s := list[k];
      assert ListOk(mem, head, list, k);
      ChainNonNull(mem, head[k], s);
      if head[k] == NULL {
        head := head[k := block];
        SetLinks(block, NULL, NULL);
        list := list[k := [block]];
        InsertLinked(old(mem), old(head), old(list), k, 0, block);
        assert InsertAt(s, 0, block) == [block];
        return;
      }
      var iter, prev, i := FindPlace(k, block);
      Neighbours(s, i, block);
      InsertLinked(mem, head, list, k, i, block);
      LinkBetween(k, prev, block, iter);
      assert old(head)[k := old(head)[k]] == old(head);
      list := list[k := InsertAt(s, i, block)];
    }

    /** Detaches the first, hence lowest, block of a list; NULL from an empty list. */
    method RemoveFirst(k: nat) returns (block: nat)
      requires Valid() && k < LISTS
      modifies this
      ensures Valid()
      ensures head == old(head)[k := head[k]]
      ensures old(list)[k] == [] ==> block == NULL && mem == old(mem) && list == old(list)
      ensures old(list)[k] != [] ==> block == old(list)[k][0] && list == old(list)[k := old(list)[k][1..]]
      ensures OnlyLinks(old(mem), mem, old(list)[k])
    {
      assert ListOk(mem, head, list, k);
      ChainNonNull(mem, head[k], list[k]);
      if head[k] == NULL {
        return NULL;
      }
      ghost var s := list[k];
      assert ChainedAt(mem, s, 0);
      block := head[k];
      head := head[k := At(mem, head[k]).next];
      if head[k] != NULL {
        mem := mem[head[k] := At(mem, head[k]).(prev := NULL)];
      }
      SetLinks(block, NULL, NULL);
      list := list[k := s[1..]];
      RemoveLinked(old(mem), old(head), old(list), k, 0);
      assert RemoveAt(s, 0) == s[1..];
    }

    /** The pointer updates that close the gap a block leaves. */
    method UnlinkNeighbours(block: nat)
      requires At(mem, block).prev != block && At(mem, block).next != block
      modifies `mem
      ensures mem == LinkOut(old(mem), At(old(mem), block).prev, block, At(old(mem), block).next)
    {
      var prev := At(mem, block).prev;
      var next := At(mem, block).next;
      if prev != NULL {
        mem := mem[prev := At(mem, prev).(next := next)];
      }
      if next != NULL {
        mem := mem[next := At(mem, next).(prev := prev)];
      }
      SetLinks(block, NULL, NULL);
    }

    /** Detaches one given block from the list it is in. */
    method RemoveBlock(k: nat, block: nat) returns (r: nat)
      requires Valid() && k < LISTS && (block == NULL || block in list[k])
      modifies this
      ensures Valid() && r == block
      ensures head == old(head)[k := head[k]] && list == old(list)[k := list[k]]
      ensures block == NULL ==> mem == old(mem) && head == old(head) && list == old(list)
      ensures block != NULL ==> Reduced(old(list)[k], block, list[k])
      ensures OnlyLinks(old(mem), mem, old(list)[k])
    {
      if block == NULL {
        return NULL;
      }
      ghost var i := IndexOf(mem, head, list, k, block);
      if block == head[k] {
        r := RemoveFirst(k);
        return;
      }
      RemoveLinked(mem, head, list, k, i);
      UnlinkNeighbours(block);
      r := block;
      assert head[k := head[k]] == head;
      list := list[k := RemoveAt(list[k], i)];
    }
  }
}
