/** The pipe object. Each method is one stretch of pipe_read or pipe_write between two waits, run
    under the pipe's mutex; the ghost streams record every byte accepted and every byte read. */
module Pipes {
  import opened Basics
  import opened Dyadic
  import opened PipeRing

  const EAGAIN := 11
  const ENOMEM := 12
  const EPIPE := 32
  const ERESTARTSYS := 512

  /** How a stretch ends: the call returns, or it goes to sleep having moved ret bytes so far. */
  datatype Turn = Returns(ret: int) | Waits(moved: nat)

  /** A page the allocator may hand out, with whatever it happens to contain. */
  datatype Page = Page(id: int, raw: seq<nat>)

  ghost predicate SupplyOk(supply: seq<Page>, pages: Pages) {
    && (forall i :: 0 <= i < |supply| ==> |supply[i].raw| == PAGE_SIZE && supply[i].id !in pages)
    && (forall i, j :: 0 <= i < j < |supply| ==> supply[i].id != supply[j].id)
  }

  lemma LongerByOne(slots: seq<Buf>, i: nat, pages: Pages)
    requires i < |slots| && BufOk(slots[i], pages) && |pages[slots[i].page]| == PAGE_SIZE
    ensures |Unread(slots[..i + 1], pages)| == |Unread(slots[..i], pages)| + slots[i].len
  {
    UnreadSnoc(slots[..i], slots[i], pages);
    assert slots[..i + 1] == slots[..i] + [slots[i]];
  }

  lemma StraightWindow(b: seq<Buf>, w: seq<Buf>)
    requires |w| <= |b| && 0 < |b|
    requires forall i :: 0 <= i < |b| ==> if i < |w| then b[i] == w[i] else b[i].ops.Cleared?
    ensures Window(b, 0, |w|) == w && ClearedOutside(b, 0, |w|)
  {
    assert forall i: nat :: i < |b| ==> At(b, 0, i) == b[i];
  }

  ghost predicate UsedFrom(b: seq<Buf>, i: nat, p: int) {
    exists j :: i <= j < |b| && !b[j].ops.Cleared? && b[j].page == p
  }

  /** From slot i on, the slots in use and the spare page are just the pages left, all different. */
  ghost predicate Remaining(b: seq<Buf>, i: nat, pages: Pages, tmp: Option<int>) {
    && (forall j :: i <= j < |b| && !b[j].ops.Cleared? ==> b[j].page in pages && tmp != Some(b[j].page))
    && (forall j, k :: i <= j < k < |b| && !b[j].ops.Cleared? && !b[k].ops.Cleared? ==> b[j].page != b[k].page)
    && (tmp.Some? ==> tmp.value in pages)
    && (forall p :: p in pages ==> tmp == Some(p) || UsedFrom(b, i, p))
  }

  lemma OnlySpareLeft(b: seq<Buf>, pages: Pages, tmp: Option<int>)
    requires Remaining(b, |b|, pages, tmp)
    ensures tmp.None? ==> pages == map[]
    ensures tmp.Some? ==> tmp.value in pages && pages - {tmp.value} == map[]
  {
    forall p | p in pages
      ensures tmp == Some(p)
    {
      assert tmp == Some(p) || UsedFrom(b, |b|, p);
    }
    if tmp.Some? {
      assert forall p :: p !in pages - {tmp.value};
    }
  }

  lemma SkipCleared(b: seq<Buf>, i: nat, pages: Pages, tmp: Option<int>)
    requires i < |b| && Remaining(b, i, pages, tmp) && b[i].ops.Cleared?
    ensures Remaining(b, i + 1, pages, tmp)
  {
    forall p | UsedFrom(b, i, p)
      ensures UsedFrom(b, i + 1, p)
    {
      var j :| i <= j < |b| && !b[j].ops.Cleared? && b[j].page == p;
      assert j >= i + 1;
    }
  }

  lemma SlotFreed(b: seq<Buf>, i: nat, pages: Pages, tmp: Option<int>)
    requires i < |b| && Remaining(b, i, pages, tmp) && !b[i].ops.Cleared?
    ensures var b' := b[i := b[i].(ops := Cleared)];
            if tmp.None? then Remaining(b', i + 1, pages, Some(b[i].page))
            else Remaining(b', i + 1, pages - {b[i].page}, tmp)
  {
    var b' := b[i := b[i].(ops := Cleared)];
    forall p | p in pages && UsedFrom(b, i, p) && p != b[i].page
      ensures UsedFrom(b', i + 1, p)
    {
      var j :| i <= j < |b| && !b[j].ops.Cleared? && b[j].page == p;
      assert b'[j] == b[j];
    }
    assert forall j :: i + 1 <= j < |b| ==> b'[j] == b[j];
  }

  function Distance(j: nat, cur: nat, size: nat): (d: nat)
    requires j < size && cur < size
    ensures d < size && Wrap(cur + d, size) == j
  {
    if cur <= j then j - cur else j + size - cur
  }

  lemma SlotInUse(b: seq<Buf>, cur: nat, n: nat, r: Ring, j: nat)
    requires cur < |b| && n <= |b| && ClearedOutside(b, cur, n) && RingOk(r) && r.slots == Window(b, cur, n) && j < |b|
    ensures !b[j].ops.Cleared? ==>
              && Distance(j, cur, |b|) < n && b[j] == r.slots[Distance(j, cur, |b|)]
              && b[j].page in r.pages && r.tmp != Some(b[j].page)
  {
    var d := Distance(j, cur, |b|);
    assert At(b, cur, d) == b[j];
    if d < n {
      assert BufOk(r.slots[d], r.pages);
    }
  }

  lemma PageInUse(b: seq<Buf>, cur: nat, n: nat, r: Ring, p: int)
    requires cur < |b| && n <= |b| && RingOk(r) && r.slots == Window(b, cur, n) && p in r.pages
    ensures r.tmp == Some(p) || UsedFrom(b, 0, p)
  {
    assert Owned(p, r.slots, r.tmp);
    if i :| 0 <= i < |r.slots| && r.slots[i].page == p {
      assert BufOk(r.slots[i], r.pages) && b[Wrap(cur + i, |b|)].page == p;
    }
  }

  lemma DifferentPages(r: Ring, d: nat, e: nat)
    requires RingOk(r) && d < |r.slots| && e < |r.slots| && d != e
    ensures r.slots[d].page != r.slots[e].page
  {
  }

  /** The slots in use are exactly those of the window. */
  lemma LiveSlots(b: seq<Buf>, cur: nat, n: nat, r: Ring)
    requires cur < |b| && n <= |b| && ClearedOutside(b, cur, n) && RingOk(r) && r.slots == Window(b, cur, n)
    ensures Remaining(b, 0, r.pages, r.tmp)
  {
    forall j: nat | j < |b| && !b[j].ops.Cleared?
      ensures b[j].page in r.pages && r.tmp != Some(b[j].page)
    {
      SlotInUse(b, cur, n, r, j);
    }
    forall p | p in r.pages
      ensures r.tmp == Some(p) || UsedFrom(b, 0, p)
    {
      PageInUse(b, cur, n, r, p);
    }
    forall j: nat, k: nat | j < k < |b| && !b[j].ops.Cleared? && !b[k].ops.Cleared?
      ensures b[j].page != b[k].page
    {
      SlotInUse(b, cur, n, r, j);
      SlotInUse(b, cur, n, r, k);
      DifferentPages(r, Distance(j, cur, |b|), Distance(k, cur, |b|));
    }
  }

  class Pipe {
    var bufs: array<Buf>
    var curbuf: nat
    var nrbufs: nat
    var tmpPage: Option<int>
    var pages: Pages
    var readers: nat
    var writers: nat
    var waitingWriters: nat
    ghost var power: nat
    ghost var ring: Ring
    ghost var accepted: seq<nat>
    ghost var consumed: seq<nat>

    ghost predicate Indexed()
      reads this, bufs
    {
      && curbuf < bufs.Length == Pow2(power) && nrbufs <= bufs.Length
      && ClearedOutside(bufs[..], curbuf, nrbufs)
    }

    ghost function View(): Ring
      reads this, bufs
      requires Indexed()
    {
      Ring(Window(bufs[..], curbuf, nrbufs), pages, tmpPage)
    }

    ghost function Contents(): seq<nat>
      reads this
    {
      ring.Stream()
    }

    /** The ring is well formed, and what was accepted is what was read followed by what is unread. */
    ghost predicate Valid()
      reads this, bufs
    {
      Indexed() && ring == View() && RingOk(ring) && accepted == consumed + Contents()
    }

    /** First in, first out: the bytes read are a prefix of the bytes accepted, and the unread bytes
        are the rest of them. */
    lemma FirstInFirstOut()
      requires Valid()
      ensures consumed <= accepted && accepted[|consumed|..] == Contents()
    {
    }

    /** The array index x places into the ring, by the source's mask. */
    function Masked(x: nat): (i: nat)
      reads this, bufs
      requires bufs.Length == Pow2(power) && x < 2 * bufs.Length
      ensures i == Wrap(x, bufs.Length)
    {
      MaskWraps(x, power);
      And(x, bufs.Length - 1)
    }

    // ---- Reading ----

    /** anon_pipe_buf_release on the oldest slot, and the step to the next one. */
    method Release(ghost r: Ring)
      requires Indexed() && nrbufs > 0 && r == View() && r.slots[0].page in pages
      modifies this`curbuf, this`nrbufs, this`tmpPage, this`pages, bufs
      ensures Indexed() && nrbufs == old(nrbufs) - 1 && View() == Released(r)
      ensures old(tmpPage).None? ==> tmpPage == Some(r.slots[0].page) && pages == old(pages)
      ensures old(tmpPage).Some? ==> tmpPage == old(tmpPage) && pages == old(pages) - {r.slots[0].page}
    {
      WindowPop(bufs[..], curbuf, nrbufs);
      var page := bufs[curbuf].page;
      if tmpPage.None? {
        tmpPage := Some(page);
      } else {
        pages := pages - {page};
      }
      ghost var before := bufs[..];
      bufs[curbuf] := bufs[curbuf].(ops := Cleared);
      assert bufs[..] == before[curbuf := before[curbuf].(ops := Cleared)];
      curbuf := Masked(curbuf + 1);
      nrbufs := nrbufs - 1;
    }

    method Advance(chars: nat, ghost r: Ring)
      requires Indexed() && nrbufs > 0 && r == View() && chars <= r.slots[0].len
      modifies bufs
      ensures Indexed() && View() == r.(slots := r.slots[0 := Advanced(r.slots[0], chars)])
    {
      ghost var before := bufs[..];
      assert At(before, curbuf, 0) == before[curbuf];
      WindowSet(before, curbuf, nrbufs, 0, Advanced(before[curbuf], chars));
      var buf := bufs[curbuf];
      bufs[curbuf] := buf.(offset := buf.offset + chars, len := buf.len - chars);
      assert bufs[..] == before[curbuf := Advanced(before[curbuf], chars)];
    }

    /** copy_page_to_iter: the first bytes of the oldest slot. */
    method Peek(chars: nat) returns (out: seq<nat>)
      requires Valid() && nrbufs > 0 && chars <= ring.slots[0].len
      ensures |out| == chars && out == Part(ring.slots[0].(len := chars), pages)
    {
      assert At(bufs[..], curbuf, 0) == bufs[curbuf] == ring.slots[0] && BufOk(ring.slots[0], pages);
      var buf := bufs[curbuf];
      out := pages[buf.page][buf.offset..buf.offset + chars];
    }

    /** Part of the oldest slot. */
    method ReadPart(chars: nat) returns (out: seq<nat>)
      requires Valid() && nrbufs > 0 && 0 < chars < ring.slots[0].len
      modifies this`ring, this`consumed, bufs
      ensures Valid() && |out| == chars && old(Contents()) == out + Contents() && consumed == old(consumed) + out
    {
      out := Peek(chars);
      AdvancedKeeps(ring, chars);
      Advance(chars, ring);
      ring := ring.(slots := ring.slots[0 := Advanced(ring.slots[0], chars)]);
      Regroup(consumed, out, ring.Stream());
      consumed := consumed + out;
    }

    /** The rest of the oldest slot, which is released. */
    method ReadWhole() returns (out: seq<nat>)
      requires Valid() && nrbufs > 0
      modifies this`curbuf, this`nrbufs, this`tmpPage, this`pages, this`ring, this`consumed, bufs
      ensures Valid() && nrbufs == old(nrbufs) - 1 && |out| == old(ring.slots[0].len) > 0
      ensures old(Contents()) == out + Contents() && consumed == old(consumed) + out
    {
      assert At(bufs[..], curbuf, 0) == bufs[curbuf] == ring.slots[0] && BufOk(ring.slots[0], pages);
      out := Peek(bufs[curbuf].len);
      ReleasedKeeps(ring);
      Advance(bufs[curbuf].len, ring);
      Release(View());
      ring := Released(ring);
      Regroup(consumed, out, ring.Stream());
      consumed := consumed + out;
    }

    /** One round of the read loop on a non-empty pipe. */
    method ReadSlot(left: nat) returns (out: seq<nat>)
      requires Valid() && nrbufs > 0 && left > 0
      modifies this`curbuf, this`nrbufs, this`tmpPage, this`pages, this`ring, this`consumed, bufs
      ensures Valid() && nrbufs <= old(nrbufs)
      ensures 0 < |out| <= left && old(Contents()) == out + Contents() && consumed == old(consumed) + out
      ensures nrbufs == old(nrbufs) ==> |out| == left
    {
      var buf := bufs[curbuf];
      assert At(bufs[..], curbuf, 0) == buf == ring.slots[0];
      if left < buf.len {
        out := ReadPart(left);
      } else {
        out := ReadWhole();
      }
    }

    /** All the bytes there are, up to the number wanted, oldest first. */
    method Drain(total: nat) returns (out: seq<nat>, wake: bool)
      requires Valid()
      modifies this`curbuf, this`nrbufs, this`tmpPage, this`pages, this`ring, this`consumed, bufs
      ensures Valid() && consumed == old(consumed) + out
      ensures |out| == Min(total, |old(Contents())|) && old(Contents()) == out + Contents()
      ensures wake <==> nrbufs < old(nrbufs)
    {
      out, wake := [], false;
      ghost var all := Contents();
      while nrbufs != 0 && |out| < total
        invariant Valid() && |out| <= total
        invariant all == out + Contents() && consumed == old(consumed) + out
        invariant nrbufs <= old(nrbufs) && (wake <==> nrbufs < old(nrbufs))
        decreases total - |out|
      {
        var slots := nrbufs;
        var more := ReadSlot(total - |out|);
        Regroup(out, more, Contents());
        Regroup(old(consumed), out, more);
        out := out + more;
        wake := wake || nrbufs < slots;
      }
      assert nrbufs == 0 ==> Contents() == [];
    }

    /** From one wait of pipe_read to the next: the call takes what it can get, and then goes to
        sleep only if that is too little and more may come. Writers are woken at the end of a stretch
        if this one or, by doWakeup, an earlier one of the same call has freed a slot. */
    method ReadStretch(total: nat, ret: nat, doWakeup: bool, nonblock: bool, signal: bool)
      returns (out: seq<nat>, wake: bool, turn: Turn)
      requires Valid() && total > 0
      modifies this`curbuf, this`nrbufs, this`tmpPage, this`pages, this`ring, this`consumed, bufs
      ensures Valid() && consumed == old(consumed) + out
      ensures |out| == Min(total, |old(Contents())|) && old(Contents()) == out + Contents()
      ensures wake <==> doWakeup || nrbufs < old(nrbufs)
      ensures turn.Waits? <==>
                |out| < total && writers > 0 && !signal && (waitingWriters > 0 || (ret + |out| == 0 && !nonblock))
      ensures turn.Waits? ==> Contents() == [] && turn.moved == ret + |out|
      ensures turn.Returns? && ret + |out| > 0 ==> turn.ret == ret + |out|
      ensures turn.Returns? && ret + |out| == 0 ==>
                turn.ret == if writers == 0 then 0 else if waitingWriters == 0 && nonblock then -EAGAIN else -ERESTARTSYS
    {
      out, wake := Drain(total);
      wake := wake || doWakeup;
      turn := Returns(ret + |out|);
      if |out| == total || writers == 0 || (waitingWriters == 0 && ret + |out| > 0) {
        return;
      }
      if waitingWriters == 0 && nonblock {
        turn := Returns(-EAGAIN);
      } else if signal {
        turn := Returns(if ret + |out| > 0 then ret + |out| else -ERESTARTSYS);
      } else {
        turn := Waits(ret + |out|);
      }
    }

    // ---- Writing ----

    method Merge(data: seq<nat>, ghost r: Ring)
      requires Indexed() && RingOk(View()) && nrbufs > 0 && r == View()
      requires r.slots[nrbufs - 1].offset + r.slots[nrbufs - 1].len + |data| <= PAGE_SIZE
      modifies this`pages, bufs
      ensures Indexed() && View() == Merged(r, data)
    {
      var last := Masked(curbuf + nrbufs - 1);
      assert At(bufs[..], curbuf, nrbufs - 1) == bufs[last] == r.slots[nrbufs - 1] && BufOk(bufs[last], pages);
      var buf := bufs[last];
      ghost var before := bufs[..];
      WindowSet(before, curbuf, nrbufs, nrbufs - 1, buf.(len := buf.len + |data|));
      pages := pages[buf.page := Spliced(pages[buf.page], buf.offset + buf.len, data)];
      bufs[last] := buf.(len := buf.len + |data|);
      assert bufs[..] == before[last := buf.(len := buf.len + |data|)];
    }

    method Insert(data: seq<nat>, ghost r: Ring)
      requires Indexed() && RingOk(View()) && nrbufs < bufs.Length && r == View() && tmpPage.Some?
      requires 0 < |data| <= PAGE_SIZE
      modifies this`nrbufs, this`tmpPage, this`pages, bufs
      ensures Indexed() && nrbufs == old(nrbufs) + 1 && View() == Filled(r, data)
    {
      var newbuf := Masked(curbuf + nrbufs);
      var page := tmpPage.value;
      ghost var before := bufs[..];
      WindowPush(before, curbuf, nrbufs, Buf(page, 0, |data|, Mergeable));
      pages := pages[page := Spliced(pages[page], 0, data)];
      bufs[newbuf] := Buf(page, 0, |data|, Mergeable);
      assert bufs[..] == before[newbuf := Buf(page, 0, |data|, Mergeable)];
      nrbufs := nrbufs + 1;
      tmpPage := None;
    }

    /** Slots are only added behind the old ones, each at the start of its page and open to merging. */
    static ghost predicate NewSlots(before: seq<Buf>, slots: seq<Buf>) {
      && before <= slots
      && forall i :: |before| <= i < |slots| ==> slots[i].ops.Mergeable? && slots[i].offset == 0
    }

    ghost function Spares(supply: seq<Page>): nat
      reads this
    {
      |supply| + if tmpPage.Some? then 1 else 0
    }

    static lemma NewSlotsTrans(a: seq<Buf>, b: seq<Buf>, c: seq<Buf>)
      requires NewSlots(a, b) && NewSlots(b, c)
      ensures NewSlots(a, c)
    {
    }

    /** The spare page, or a fresh one; fails only when there is neither. */
    method GetPage(supply: seq<Page>) returns (ok: bool, rest: seq<Page>)
      requires Valid() && SupplyOk(supply, pages)
      modifies this`tmpPage, this`pages, this`ring
      ensures Valid() && ring.slots == old(ring.slots) && SupplyOk(rest, pages)
      ensures ok == tmpPage.Some? && (ok <==> old(tmpPage).Some? || supply != []) && Spares(rest) == old(Spares(supply))
      ensures old(tmpPage).Some? ==> tmpPage == old(tmpPage) && rest == supply
    {
      ok, rest := true, supply;
      if tmpPage.None? {
        if supply == [] {
          return false, supply;
        }
        AllocatedKeeps(ring, supply[0].id, supply[0].raw);
        pages := pages[supply[0].id := supply[0].raw];
        tmpPage := Some(supply[0].id);
        rest := supply[1..];
        ring := View();
        assert forall i :: 0 <= i < |rest| ==> rest[i] == supply[i + 1];
      }
    }

    /** One round of the write loop with a slot free and a page at hand: up to a page of data. */
    method WriteSlot(data: seq<nat>) returns (k: nat)
      requires Valid() && nrbufs < bufs.Length && tmpPage.Some? && data != []
      modifies this`nrbufs, this`tmpPage, this`pages, this`ring, this`accepted, bufs
      ensures Valid() && k == Min(|data|, PAGE_SIZE) && accepted == old(accepted) + data[..k]
      ensures nrbufs == old(nrbufs) + 1 && tmpPage.None? && pages.Keys == old(pages.Keys)
      ensures ring.slots == old(ring.slots) + [Buf(old(tmpPage).value, 0, k, Mergeable)]
    {
      k := if |data| < PAGE_SIZE then |data| else PAGE_SIZE;
      ghost var r := ring;
      FilledOk(r, data[..k]);
      FilledStream(r, data[..k]);
      Insert(data[..k], r);
      ring := View();
      accepted := accepted + data[..k];
      Regroup(consumed, r.Stream(), data[..k]);
    }

    /** The number of bytes the write loop takes without sleeping. */
    ghost function Room(n: nat, supply: seq<Page>): (k: nat)
      reads this, bufs
      requires nrbufs <= bufs.Length
    {
      if readers == 0 then 0 else Min(n, 4096 * Min(bufs.Length - nrbufs, Spares(supply)))
    }

    /** What the write loop takes: nothing without readers, and otherwise what free slots and pages hold. */
    lemma RoomIs(n: nat, supply: seq<Page>)
      requires Valid()
      ensures Room(n, supply) ==
        if readers == 0 then 0
        else if n <= 4096 * (bufs.Length - nrbufs) && n <= 4096 * (|supply| + Unit(tmpPage.Some?)) then n
        else if bufs.Length - nrbufs <= |supply| + Unit(tmpPage.Some?) then 4096 * (bufs.Length - nrbufs)
        else 4096 * (|supply| + Unit(tmpPage.Some?))
    {
    }

    lemma RoomWhole(n: nat, supply: seq<Page>)
      requires nrbufs <= bufs.Length
      ensures n <= PAGE_SIZE ==> Room(n, supply) == 0 || Room(n, supply) == n
    {
    }

    /** What a write call returns when it has moved that many bytes and cannot go on. */
    ghost predicate Reported(turn: Turn, moved: nat, short: bool, nonblock: bool, signal: bool)
      reads this, bufs
    {
      && (turn.Waits? <==> short && readers > 0 && nrbufs == bufs.Length && !nonblock && !signal)
      && (turn.Waits? ==> turn.moved == moved)
      && (turn.Returns? && moved > 0 ==> turn.ret == moved)
      && (turn.Returns? && moved == 0 && short ==>
            turn.ret == if readers == 0 then -EPIPE else if nrbufs < bufs.Length then -ENOMEM
                        else if nonblock then -EAGAIN else -ERESTARTSYS)
    }

    /** One round of the write loop: get a page, fill it, insert it. */
    method FillOne(data: seq<nat>, supply: seq<Page>) returns (copied: nat, rest: seq<Page>)
      requires Valid() && nrbufs < bufs.Length && data != [] && SupplyOk(supply, pages)
      modifies this`nrbufs, this`tmpPage, this`pages, this`ring, this`accepted, bufs
      ensures Valid() && SupplyOk(rest, pages) && copied <= |data| && accepted == old(accepted) + data[..copied]
      ensures old(Spares(supply)) == 0 ==> copied == 0 && Spares(rest) == 0 && nrbufs == old(nrbufs)
      ensures old(Spares(supply)) > 0 ==>
                copied == Min(|data|, PAGE_SIZE) && Spares(rest) == old(Spares(supply)) - 1 && nrbufs == old(nrbufs) + 1
      ensures NewSlots(old(ring.slots), ring.slots)
    {
      ghost var slots := ring.slots;
      var ok;
      ok, rest := GetPage(supply);
      copied := 0;
      if ok {
        copied := WriteSlot(data);
        assert NewSlots(slots, ring.slots);
      }
    }

    lemma Prefixes(before: seq<nat>, data: seq<nat>, k: nat, more: nat)
      requires k + more <= |data|
      ensures before + data[..k] + data[k..][..more] == before + data[..k + more]
    {
      assert data[..k] + data[k..][..more] == data[..k + more];
    }

    /** Fill pages until the data or the slots or the pages run out. */
    method FillPages(data: seq<nat>, supply: seq<Page>) returns (k: nat)
      requires Valid() && data != [] && SupplyOk(supply, pages)
      modifies this`nrbufs, this`tmpPage, this`pages, this`ring, this`accepted, bufs
      ensures Valid() && k <= |data| && accepted == old(accepted) + data[..k]
      ensures k == Min(|data|, 4096 * Min(bufs.Length - old(nrbufs), old(Spares(supply))))
      ensures k < |data| ==> (nrbufs < bufs.Length <==> old(Spares(supply)) < bufs.Length - old(nrbufs))
      ensures old(ring.slots) <= ring.slots && |ring.slots| == nrbufs
      ensures forall i :: old(nrbufs) <= i < nrbufs ==> ring.slots[i].ops.Mergeable? && ring.slots[i].offset == 0
    {
      k := 0;
      var spare, starved := supply, false;
      ghost var spares, start := Spares(supply), nrbufs;
      while nrbufs < bufs.Length && k < |data| && !starved
        invariant Valid() && k <= |data| && SupplyOk(spare, pages) && start <= nrbufs
        invariant k == 4096 * (nrbufs - start) || k == |data| <= 4096 * (nrbufs - start)
        invariant Spares(spare) + (nrbufs - start) == spares
        invariant accepted == old(accepted) + data[..k] && NewSlots(old(ring.slots), ring.slots)
        invariant starved ==> Spares(spare) == 0 && nrbufs < bufs.Length && k < |data|
        decreases bufs.Length - nrbufs, !starved
      {
        var copied;
        ghost var slots := ring.slots;
        copied, spare := FillOne(data[k..], spare);
        assert NewSlots(old(ring.slots), slots) && NewSlots(slots, ring.slots);
        NewSlotsTrans(old(ring.slots), slots, ring.slots);
        Prefixes(old(accepted), data, k, copied);
        k := k + copied;
        starved := copied == 0;
      }
    }

    /** The loop of pipe_write from its head to the next wait. */
    method WriteLoop(data: seq<nat>, ret: nat, supply: seq<Page>, nonblock: bool, signal: bool)
      returns (k: nat, wake: bool, turn: Turn)
      requires Valid() && data != [] && SupplyOk(supply, pages)
      modifies this`nrbufs, this`tmpPage, this`pages, this`ring, this`accepted, this`waitingWriters, bufs
      ensures Valid() && k == old(Room(|data|, supply)) && k <= |data|
      ensures accepted == old(accepted) + data[..k]
      ensures Reported(turn, ret + k, k < |data|, nonblock, signal) && (wake <==> k > 0)
      ensures waitingWriters == old(waitingWriters) + if turn.Waits? then 1 else 0
    {
      if readers == 0 {
        return 0, false, Returns(if ret > 0 then ret else -EPIPE);
      }
      k := FillPages(data, supply);
      wake := k > 0;
      if k == |data| {
        return k, wake, Returns(ret + k);
      }
      if nrbufs < bufs.Length {
        return k, wake, Returns(if ret + k > 0 then ret + k else -ENOMEM);
      }
      if nonblock {
        return k, wake, Returns(if ret + k > 0 then ret + k else -EAGAIN);
      }
      if signal {
        return k, wake, Returns(if ret + k > 0 then ret + k else -ERESTARTSYS);
      }
      waitingWriters := waitingWriters + 1;
      turn := Waits(ret + k);
    }

    method MergeData(data: seq<nat>)
      requires Valid() && nrbufs > 0
      requires ring.slots[nrbufs - 1].offset + ring.slots[nrbufs - 1].len + |data| <= PAGE_SIZE
      modifies this`pages, this`ring, this`accepted, bufs
      ensures Valid() && accepted == old(accepted) + data && pages.Keys == old(pages.Keys)
      ensures ring.slots == Longer(old(ring.slots), |data|)
    {
      ghost var r, g := ring, Merged(ring, data);
      MergedOk(r, data);
      MergedStream(r, data);
      MergedSlots(r, data);
      Merge(data, r);
      ring := g;
      accepted := accepted + data;
      Regroup(consumed, r.Stream(), data);
    }

    /** The odd bytes of a write go into the newest page if they fit there: then that slot is longer by
        them, and otherwise no slot changes. */
    method MergeSmall(data: seq<nat>) returns (chars: nat)
      requires Valid()
      modifies this`pages, this`ring, this`accepted, bufs
      ensures Valid() && chars == MergeCount(old(ring.slots), |data|) <= |data| && accepted == old(accepted) + data[..chars]
      ensures pages.Keys == old(pages.Keys)
      ensures chars ==
        if nrbufs > 0 && old(ring.slots[nrbufs - 1]).ops.Mergeable?
           && old(ring.slots[nrbufs - 1]).offset + old(ring.slots[nrbufs - 1]).len + |data| % 4096 <= 4096
        then |data| % 4096 else 0
      ensures ring.slots == Longer(old(ring.slots), chars)
    {
      chars := |data| % 4096;
      if nrbufs == 0 || chars == 0 {
        return 0;
      }
      var last := Masked(curbuf + nrbufs - 1);
      var buf := bufs[last];
      assert At(bufs[..], curbuf, nrbufs - 1) == buf;
      if !buf.ops.Mergeable? || buf.offset + buf.len + chars > PAGE_SIZE {
        return 0;
      }
      MergeData(data[..chars]);
    }

    /** The number of bytes a write of n takes in its first stretch. */
    ghost function Taken(n: nat, supply: seq<Page>): nat
      reads this, bufs
      requires nrbufs <= bufs.Length
    {
      if readers == 0 then 0 else
        var m := MergeCount(ring.slots, n); m + Room(n - m, supply)
    }

    /** The first stretch of a write while there are readers. */
    method WriteOpen(data: seq<nat>, supply: seq<Page>, nonblock: bool, signal: bool)
      returns (k: nat, wake: bool, turn: Turn)
      requires Valid() && data != [] && SupplyOk(supply, pages) && readers > 0
      modifies this`nrbufs, this`tmpPage, this`pages, this`ring, this`accepted, this`waitingWriters, bufs
      ensures Valid() && k == old(Taken(|data|, supply)) <= |data|
      ensures accepted == old(accepted) + data[..k]
      ensures Reported(turn, k, k < |data|, nonblock, signal) && (wake <==> k > 0)
      ensures waitingWriters == old(waitingWriters) + if turn.Waits? then 1 else 0
    {
      k := MergeSmall(data);
      if k == |data| {
        wake, turn := true, Returns(k);
      } else {
        ghost var room := Room(|data| - k, supply);
        assert old(Taken(|data|, supply)) == k + room;
        var more;
        more, wake, turn := WriteLoop(data[k..], k, supply, nonblock, signal);
        assert (more < |data[k..]|) == (k + more < |data|);
        assert accepted == old(accepted) + data[..k + more] by { Prefixes(old(accepted), data, k, more); }
        k, wake := k + more, wake || k > 0;
      }
    }

    /** A write of at most a page is merged whole or not at all, and then fits into one slot. */
    lemma SmallIsWhole(n: nat, supply: seq<Page>)
      requires nrbufs <= bufs.Length
      ensures n <= PAGE_SIZE ==> Taken(n, supply) == 0 || Taken(n, supply) == n
    {
    }

    /** What a write takes in its first stretch: its odd bytes into the newest slot, if that one is open
        to merging and has room for them, and of the rest what free slots and pages hold. */
    lemma TakenIs(n: nat, supply: seq<Page>)
      requires Valid()
      ensures Taken(n, supply) ==
        if readers == 0 then 0
        else
          var merged := if nrbufs > 0 && ring.slots[nrbufs - 1].ops.Mergeable?
                           && ring.slots[nrbufs - 1].offset + ring.slots[nrbufs - 1].len + n % 4096 <= 4096
                        then n % 4096 else 0;
          merged + Min(n - merged, 4096 * Min(bufs.Length - nrbufs, |supply| + Unit(tmpPage.Some?)))
    {
    }

    lemma MergedWhole(n: nat, supply: seq<Page>)
      requires Valid()
      ensures (readers > 0 && nrbufs > 0 && n < 4096 && ring.slots[nrbufs - 1].ops.Mergeable?
               && ring.slots[nrbufs - 1].offset + ring.slots[nrbufs - 1].len + n <= 4096) ==>
                Taken(n, supply) == n
    {
      TakenIs(n, supply);
    }

    /** How a write's stretch ends, case by case. */
    lemma TurnIs(turn: Turn, moved: nat, short: bool, nonblock: bool, signal: bool)
      requires Reported(turn, moved, short, nonblock, signal) && (short || moved > 0)
      ensures turn ==
        if short && readers > 0 && nrbufs == bufs.Length && !nonblock && !signal then Waits(moved)
        else Returns(if moved > 0 then moved else if readers == 0 then -EPIPE
                     else if nrbufs < bufs.Length then -ENOMEM else if nonblock then -EAGAIN else -ERESTARTSYS)
    {
    }

    /** From the start of pipe_write to its first wait. */
    method WriteStart(data: seq<nat>, supply: seq<Page>, nonblock: bool, signal: bool)
      returns (k: nat, wake: bool, turn: Turn)
      requires Valid() && data != [] && SupplyOk(supply, pages)
      modifies this`nrbufs, this`tmpPage, this`pages, this`ring, this`accepted, this`waitingWriters, bufs
      ensures Valid() && k == old(Taken(|data|, supply)) <= |data|
      ensures accepted == old(accepted) + data[..k]
      ensures Reported(turn, k, k < |data|, nonblock, signal) && (wake <==> k > 0)
      ensures |data| <= PAGE_SIZE ==> k == 0 || k == |data|
      ensures readers > 0 && old(nrbufs) > 0 && |data| < 4096 && old(ring.slots[nrbufs - 1]).ops.Mergeable?
              && old(ring.slots[nrbufs - 1]).offset + old(ring.slots[nrbufs - 1]).len + |data| <= 4096 ==>
                turn == Returns(|data|)
      ensures waitingWriters == old(waitingWriters) + if turn.Waits? then 1 else 0
    {
      if readers == 0 {
        return 0, false, Returns(-EPIPE);
      }
      SmallIsWhole(|data|, supply);
      MergedWhole(|data|, supply);
      k, wake, turn := WriteOpen(data, supply, nonblock, signal);
    }

    /** A writer back from its wait goes on with the rest of its data. */
    method WriteResume(rest: seq<nat>, ret: nat, supply: seq<Page>, nonblock: bool, signal: bool)
      returns (k: nat, wake: bool, turn: Turn)
      requires Valid() && rest != [] && SupplyOk(supply, pages) && waitingWriters > 0
      modifies this`nrbufs, this`tmpPage, this`pages, this`ring, this`accepted, this`waitingWriters, bufs
      ensures Valid() && k == old(Room(|rest|, supply)) && k <= |rest|
      ensures accepted == old(accepted) + rest[..k]
      ensures Reported(turn, ret + k, k < |rest|, nonblock, signal) && (wake <==> k > 0)
      ensures |rest| <= PAGE_SIZE ==> k == 0 || k == |rest|
      ensures waitingWriters == old(waitingWriters) - if turn.Waits? then 0 else 1
    {
      RoomWhole(|rest|, supply);
      ghost var room := Room(|rest|, supply);
      waitingWriters := waitingWriters - 1;
      assert Room(|rest|, supply) == room;
      k, wake, turn := WriteLoop(rest, ret, supply, nonblock, signal);
    }

    // ---- FIONREAD ----

    /** The count reported is exactly the number of unread bytes. */
    method Fionread() returns (count: nat)
      requires Valid()
      ensures count == |Contents()|
    {
      count := 0;
      var buf, i := curbuf, 0;
      ghost var slots := ring.slots;
      while i < nrbufs
        invariant 0 <= i <= nrbufs && buf == Wrap(curbuf + i, bufs.Length)
        invariant count == |Unread(slots[..i], pages)|
      {
        assert bufs[buf] == slots[i] && BufOk(slots[i], pages) by { assert At(bufs[..], curbuf, i) == bufs[buf]; }
        LongerByOne(slots, i, pages);
        count := count + bufs[buf].len;
        buf := Masked(buf + 1);
        i := i + 1;
      }
      assert slots[..i] == slots;
    }

    // ---- Resizing ----

    /** A pipe of 2^k empty slots, with one reader and one writer. */
    constructor (ghost k: nat, slots: nat)
      requires slots == Pow2(k)
      ensures Valid() && bufs.Length == slots && fresh(bufs) && power == k
      ensures accepted == [] && consumed == [] && pages == map[] && readers == 1 && writers == 1
    {
      bufs := new Buf[slots](_ => Buf(0, 0, 0, Cleared));
      curbuf, nrbufs, tmpPage, pages := 0, 0, None, map[];
      readers, writers, waitingWriters := 1, 1, 0;
      ring := Ring([], map[], None);
      power, accepted, consumed := k, [], [];
      new;
      assert forall i :: 0 <= i < bufs.Length ==> At(bufs[..], 0, i) == bufs[i];
    }

    static method CopySlots(src: array<Buf>, from: nat, dst: array<Buf>, to: nat, n: nat)
      requires src != dst && from + n <= src.Length && to + n <= dst.Length
      modifies dst
      ensures forall k :: 0 <= k < dst.Length ==> dst[k] == if to <= k < to + n then src[from + k - to] else old(dst[k])
    {
      var i := 0;
      while i < n
        invariant 0 <= i <= n
        invariant forall k :: 0 <= k < dst.Length ==> dst[k] == if to <= k < to + i then src[from + k - to] else old(dst[k])
      {
        dst[to + i] := src[from + i];
        i := i + 1;
      }
    }

    /** The slots in use, copied in two pieces if they wrap around the end of the old array. */
    method CopyWindow(b: array<Buf>)
      requires Indexed() && 0 < nrbufs <= b.Length && b != bufs
      modifies b
      ensures forall i: nat :: i < b.Length ==> b[i] == if i < nrbufs then At(bufs[..], curbuf, i) else old(b[i])
    {
      var tail := curbuf + nrbufs;
      if tail < bufs.Length {
        tail := 0;
      } else {
        tail := Masked(tail);
      }
      var head := nrbufs - tail;
      CopySlots(bufs, curbuf, b, 0, head);
      CopySlots(bufs, 0, b, head, tail);
    }

    /** The second half of pipe_set_size: a new array, and the slots in use at its start. */
    method Resize(nrPages: nat, ghost k: nat)
      requires Valid() && nrPages == Pow2(k) && nrbufs <= nrPages
      modifies this`bufs, this`curbuf, this`power
      ensures Valid() && fresh(bufs) && bufs.Length == nrPages && curbuf == 0
      ensures View() == old(View())
    {
      var b := new Buf[nrPages](_ => Buf(0, 0, 0, Cleared));
      if nrbufs > 0 {
        CopyWindow(b);
      }
      StraightWindow(b[..], Window(bufs[..], curbuf, nrbufs));
      curbuf := 0;
      bufs := b;
      power := k;
    }

    // ---- Release ----

    method PutPage(p: int)
      requires p in pages
      modifies this`pages
      ensures pages == old(pages) - {p}
    {
      pages := pages - {p};
    }

    method FreeSlot(i: nat)
      requires i < bufs.Length && Remaining(bufs[..], i, pages, tmpPage) && !bufs[i].ops.Cleared?
      modifies this`tmpPage, this`pages, bufs
      ensures Remaining(bufs[..], i + 1, pages, tmpPage)
    {
      ghost var b := bufs[..];
      SlotFreed(b, i, pages, tmpPage);
      var page := bufs[i].page;
      bufs[i] := bufs[i].(ops := Cleared);
      assert bufs[..] == b[i := b[i].(ops := Cleared)];
      if tmpPage.None? {
        tmpPage := Some(page);
      } else {
        PutPage(page);
      }
    }

    /** free_pipe_info: every page the pipe owns is freed, each of them once. */
    method FreeAll()
      requires Valid()
      modifies this`tmpPage, this`pages, bufs
      ensures pages == map[]
    {
      LiveSlots(bufs[..], curbuf, nrbufs, ring);
      var i := 0;
      while i < bufs.Length
        invariant 0 <= i <= bufs.Length
        invariant Remaining(bufs[..], i, pages, tmpPage)
      {
        if !bufs[i].ops.Cleared? {
          FreeSlot(i);
        } else {
          SkipCleared(bufs[..], i, pages, tmpPage);
        }
        i := i + 1;
      }
      OnlySpareLeft(bufs[..], pages, tmpPage);
      if tmpPage.Some? {
        PutPage(tmpPage.value);
      }
    }
  }
}
