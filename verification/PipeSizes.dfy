/** Pipe sizes and what they cost: rounding, resizing, and each user's quota of slots. */
module PipeSizes {
  import opened Basics
  import opened Dyadic
  import opened PipeRing
  import opened Pipes

  const EPERM := 1
  const EBUSY := 16
  const EINVAL := 22
  const PIPE_DEF_BUFFERS := 16
  const PIPE_MIN_DEF_BUFFERS := 2
  const UINT_RANGE := 0x1_0000_0000

  // ---- Rounding ----

  function RoundupExponent(n: nat): nat
    requires n > 0
  {
    if n == 1 then 0 else 1 + RoundupExponent((n + 1) / 2)
  }

  /** The least power of two that is at least n. */
  function RoundupPowOfTwo(n: nat): nat
    requires n > 0
  {
    Pow2(RoundupExponent(n))
  }

  lemma {:induction false} RoundupIsLeast(n: nat)
    requires n > 0
    ensures n <= RoundupPowOfTwo(n) < 2 * n
    ensures RoundupExponent(n) > 0 ==> Pow2(RoundupExponent(n) - 1) < n
  {
    if n > 1 {
      RoundupIsLeast((n + 1) / 2);
    }
  }

  lemma {:induction false} Pow2Monotone(j: nat, k: nat)
    requires j <= k
    ensures Pow2(j) <= Pow2(k)
  {
    if j < k {
      Pow2Monotone(j, k - 1);
    }
  }

  lemma Pow2Values()
    ensures Pow2(19) == 524288 && Pow2(20) == 1048576
  {
    assert Pow2(3) == 2 * Pow2(2) && Pow2(2) == 2 * Pow2(1);
    assert Pow2(5) == 2 * Pow2(4) && Pow2(7) == 2 * Pow2(6) && Pow2(9) == 2 * Pow2(8) && Pow2(11) == 2 * Pow2(10);
    assert Pow2(13) == 2 * Pow2(12) && Pow2(15) == 2 * Pow2(14) && Pow2(17) == 2 * Pow2(16);
  }

  function Clamped(arg: nat): nat {
    var size := arg % UINT_RANGE;
    if size < PAGE_SIZE then PAGE_SIZE else size
  }

  /** round_pipe_size: an unsigned int in, an unsigned int out, computed in unsigned longs. */
  function RoundPipeSize(arg: nat): nat {
    var pages := (Clamped(arg) + PAGE_SIZE - 1) / PAGE_SIZE;
    if pages == 0 then 0 else (RoundupPowOfTwo(pages) * PAGE_SIZE) % UINT_RANGE
  }

  /** The least exponent for a number of pages is 20 exactly for 2 GB to 4 GB, and never more. */
  lemma ExponentBound(pages: nat, k: nat)
    requires pages <= 0x10_0000 && pages <= Pow2(k) && (k > 0 ==> Pow2(k - 1) < pages)
    ensures k <= 20 && Pow2(20) == 0x10_0000 && Pow2(19) == 0x8_0000
    ensures k < 20 ==> Pow2(k) <= Pow2(19)
  {
    Pow2Values();
    if k > 20 {
      Pow2Monotone(20, k - 1);
    } else if k < 20 {
      Pow2Monotone(k, 19);
    }
  }

  /** Pages for a 32-bit size, and a larger number of them in bytes, truncated to 32 bits. */
  lemma Bytes(size: nat, pages: nat, n: nat)
    requires pages == (size + PAGE_SIZE - 1) / PAGE_SIZE && pages <= n <= 0x10_0000
    ensures size <= PAGE_SIZE * pages < size + PAGE_SIZE && size <= PAGE_SIZE * n
    ensures (n * PAGE_SIZE) % UINT_RANGE == if n == 0x10_0000 then 0 else n * PAGE_SIZE
  {
  }

  lemma RoundedClamped(arg: nat) returns (k: nat)
    ensures Clamped(arg) > 0x8000_0000 ==> RoundPipeSize(arg) == 0
    ensures Clamped(arg) <= 0x8000_0000 ==>
              && RoundPipeSize(arg) == 4096 * Pow2(k) && Clamped(arg) <= 4096 * Pow2(k)
              && (k > 0 ==> 4096 * Pow2(k - 1) < Clamped(arg))
    ensures Clamped(arg) == 4096 ==> k == 0
  {
    var size := Clamped(arg);
    var pages := (size + PAGE_SIZE - 1) / PAGE_SIZE;
    k := RoundupExponent(pages);
    assert RoundPipeSize(arg) == (Pow2(k) * PAGE_SIZE) % UINT_RANGE;
    RoundupIsLeast(pages);
    ExponentBound(pages, k);
    Bytes(size, pages, Pow2(k));
  }

  lemma CutOff(arg: nat)
    ensures RoundPipeSize(arg) == RoundPipeSize(arg % 0x1_0000_0000)
  {
    assert Clamped(arg) == Clamped(arg % 0x1_0000_0000);
  }

  lemma ClampedIs(arg: nat)
    ensures arg < 0x1_0000_0000 ==> Clamped(arg) == if arg < 4096 then 4096 else arg
    ensures Clamped(arg) > 0x8000_0000 <==> arg % 0x1_0000_0000 > 0x8000_0000
  {
  }

  /** The rounded size of a 32-bit number: a page for less than a page, otherwise the least power of two
      of pages that holds the size asked for, and zero exactly when that would be 2^32 bytes, which an
      unsigned int cannot hold. Higher bits are cut off first. */
  lemma RoundedSize(arg: nat) returns (k: nat)
    ensures RoundPipeSize(arg) == RoundPipeSize(arg % 0x1_0000_0000)
    ensures arg < 4096 ==> RoundPipeSize(arg) == 4096
    ensures 0x8000_0000 < arg < 0x1_0000_0000 ==> RoundPipeSize(arg) == 0
    ensures arg % 0x1_0000_0000 <= 0x8000_0000 ==> RoundPipeSize(arg) == 4096 * Pow2(k)
    ensures 4096 <= arg <= 0x8000_0000 ==> arg <= RoundPipeSize(arg) && (k > 0 ==> 4096 * Pow2(k - 1) < arg)
    ensures RoundPipeSize(arg) == 0 <==> arg % 0x1_0000_0000 > 0x8000_0000
  {
    k := RoundedClamped(arg);
    CutOff(arg);
    ClampedIs(arg);
    if arg < 4096 {
      assert Pow2(0) == 1;
    }
  }

  // ---- The quota ----

  /** Sum of the slots charged for a set of pipes. */
  ghost function Total(m: map<Pipe, nat>): nat {
    if m == map[] then 0
    else
      var p :| p in m;
      m[p] + Total(m - {p})
  }

  lemma {:induction false} TotalRemove(m: map<Pipe, nat>, p: Pipe)
    requires p in m
    ensures Total(m) == m[p] + Total(m - {p})
    decreases |m|
  {
    var q :| q in m && Total(m) == m[q] + Total(m - {q});
    if q != p {
      TotalRemove(m - {q}, p);
      TotalRemove(m - {p}, q);
      assert m - {q} - {p} == m - {p} - {q};
    }
  }

  lemma TotalPut(m: map<Pipe, nat>, p: Pipe, n: nat)
    ensures Total(m[p := n]) == Total(m) - (if p in m then m[p] else 0) + n
  {
    TotalRemove(m[p := n], p);
    assert m[p := n] - {p} == m - {p};
    if p in m {
      TotalRemove(m, p);
    } else {
      assert m - {p} == m;
    }
  }

  /** What decides a request, besides the pipe: the limits in force, the caller's two capabilities,
      and whether the two allocations succeed. */
  datatype Limits = Limits(maxSize: nat, soft: nat, hard: nat, sysResource: bool, sysAdmin: bool,
                           infoOk: bool, arrayOk: bool)
  {
    predicate Unprivileged() { !sysResource && !sysAdmin }
    predicate TooManySoft(userBufs: int) { soft > 0 && userBufs > soft }
    predicate TooManyHard(userBufs: int) { hard > 0 && userBufs > hard }
  }

  class User {
    var pipeBufs: int
    ghost var charged: map<Pipe, nat>
    ghost var inFlight: int

    /** The counter is the sum of what live pipes are charged, plus what calls in progress hold. */
    ghost predicate Valid()
      reads this
    {
      pipeBufs == Total(charged) + inFlight
    }

    /** Every live pipe is charged exactly its number of slots. */
    ghost predicate Exact()
      reads this, charged.Keys
    {
      forall p :: p in charged ==> charged[p] == p.bufs.Length
    }

    constructor ()
      ensures Valid() && Exact() && charged == map[] && pipeBufs == 0
    {
      pipeBufs, charged, inFlight := 0, map[], 0;
    }

    /** account_pipe_buffers: one atomic addition, whose result may be tested later. */
    method Account(before: nat, after: nat) returns (userBufs: int)
      requires Valid()
      modifies this`pipeBufs, this`inFlight
      ensures Valid() && userBufs == pipeBufs == old(pipeBufs) + after - before
      ensures inFlight == old(inFlight) + after - before
    {
      pipeBufs := pipeBufs + (after - before);
      inFlight := inFlight + (after - before);
      userBufs := pipeBufs;
    }

    /** The call in progress is over: what it holds becomes the charge of its pipe. */
    ghost method Settle(p: Pipe, n: nat)
      requires Valid()
      modifies this`charged, this`inFlight
      ensures Valid() && charged == old(charged)[p := n]
      ensures inFlight == old(inFlight) - n + if p in old(charged) then old(charged)[p] else 0
    {
      TotalPut(charged, p, n);
      inFlight := inFlight - n + if p in charged then charged[p] else 0;
      charged := charged[p := n];
    }

    // ---- pipe_set_size ----

    /** The request is refused for lack of privilege. */
    ghost predicate Denied(p: Pipe, size: nat, lim: Limits)
      reads this, p
    {
      && size / 4096 > p.bufs.Length
      && ((size > lim.maxSize && !lim.sysResource)
          || (lim.Unprivileged()
              && (lim.TooManyHard(pipeBufs + size / 4096 - p.bufs.Length)
                  || lim.TooManySoft(pipeBufs + size / 4096 - p.bufs.Length))))
    }

    /** The accounted new array replaces the old one. */
    method Adopt(p: Pipe, nrPages: nat, ghost k: nat)
      requires Valid() && Exact() && p in charged && p.Valid() && nrPages == Pow2(k) && p.nrbufs <= nrPages
      modifies this`charged, this`inFlight, p`bufs, p`curbuf, p`power
      ensures Valid() && Exact() && p.Valid() && p.View() == old(p.View()) && p.bufs.Length == nrPages
      ensures charged == old(charged)[p := nrPages] && inFlight == old(inFlight) - nrPages + old(p.bufs.Length)
    {
      p.Resize(nrPages, k);
      Settle(p, nrPages);
    }

    /** Either the pipe has the rounded size, the same slots in the same order and the same unread
        bytes, and the user pays for the new size; or nothing at all has changed. */
    method SetSize(p: Pipe, arg: nat, lim: Limits) returns (ret: int)
      requires Valid() && Exact() && p in charged && p.Valid()
      modifies this, p`bufs, p`curbuf, p`power
      ensures Valid() && Exact() && p.Valid() && inFlight == old(inFlight)
      ensures p.View() == old(p.View()) && p.accepted == old(p.accepted) && p.consumed == old(p.consumed)
      ensures ret >= 0 ==>
                && ret == RoundPipeSize(arg) == p.bufs.Length * 4096
                && pipeBufs == old(pipeBufs) + p.bufs.Length - old(p.bufs.Length)
                && charged == old(charged)[p := p.bufs.Length]
      ensures ret < 0 ==> p.bufs == old(p.bufs) && p.curbuf == old(p.curbuf) && pipeBufs == old(pipeBufs) && charged == old(charged)
      ensures ret == -EINVAL <==> arg % 0x1_0000_0000 > 0x8000_0000
      ensures ret == -EPERM <==> ret != -EINVAL && old(Denied(p, RoundPipeSize(arg), lim))
      ensures ret == -EPERM <==>
                && ret != -EINVAL && RoundPipeSize(arg) / 4096 > old(p.bufs.Length) && !lim.sysResource
                && (|| RoundPipeSize(arg) > lim.maxSize
                    || (!lim.sysAdmin && 0 < lim.hard < old(pipeBufs) + RoundPipeSize(arg) / 4096 - old(p.bufs.Length))
                    || (!lim.sysAdmin && 0 < lim.soft < old(pipeBufs) + RoundPipeSize(arg) / 4096 - old(p.bufs.Length)))
      ensures ret >= 0 && p.bufs.Length > old(p.bufs.Length) && !lim.sysResource ==> ret <= lim.maxSize
      ensures ret >= 0 && p.bufs.Length > old(p.bufs.Length) && !lim.sysResource && !lim.sysAdmin ==>
                (lim.hard > 0 ==> pipeBufs <= lim.hard) && (lim.soft > 0 ==> pipeBufs <= lim.soft)
      ensures ret == -EBUSY <==> ret != -EINVAL && RoundPipeSize(arg) / 4096 < p.nrbufs
      ensures ret < 0 && ret != -EINVAL && ret != -EPERM && ret != -EBUSY ==> ret == -ENOMEM && !lim.arrayOk
      ensures ret >= 0 ==> lim.arrayOk
    {
      ghost var k := RoundedSize(arg);
      var size := RoundPipeSize(arg);
      if size == 0 {
        return -EINVAL;
      }
      var nrPages := size / 4096;
      if nrPages > p.bufs.Length && size > lim.maxSize && !lim.sysResource {
        return -EPERM;
      }
      var userBufs := Account(p.bufs.Length, nrPages);
      ret := 0;
      if nrPages > p.bufs.Length && (lim.TooManyHard(userBufs) || lim.TooManySoft(userBufs)) && lim.Unprivileged() {
        ret := -EPERM;
      } else if nrPages < p.nrbufs {
        ret := -EBUSY;
      } else if !lim.arrayOk {
        ret := -ENOMEM;
      }
      if ret < 0 {
        var _ := Account(nrPages, p.bufs.Length);
        return;
      }
      Adopt(p, nrPages, k);
      ret := nrPages * 4096;
    }

    // ---- alloc_pipe_info and free_pipe_info ----

    /** The number of slots asked for at first: the default, or all that the size limit allows. */
    static function Asked(lim: Limits): nat {
      if PIPE_DEF_BUFFERS * PAGE_SIZE > lim.maxSize && !lim.sysResource then lim.maxSize / PAGE_SIZE else PIPE_DEF_BUFFERS
    }

    /** The number of slots granted: few, if the user is over the soft limit. */
    ghost function Given(lim: Limits): nat
      reads this
    {
      if lim.TooManySoft(pipeBufs + Asked(lim)) && lim.Unprivileged() then PIPE_MIN_DEF_BUFFERS else Asked(lim)
    }

    /** The first half of alloc_pipe_info: the number of slots is settled and charged to the user. */
    method Charge(lim: Limits, ghost j: nat) returns (pipeSlots: nat, userBufs: int, ghost k: nat)
      requires Valid() && lim.maxSize == 4096 * Pow2(j)
      modifies this`pipeBufs, this`inFlight
      ensures Valid() && pipeSlots == old(Given(lim)) == Pow2(k)
      ensures userBufs == pipeBufs == old(pipeBufs) + pipeSlots && inFlight == old(inFlight) + pipeSlots
    {
      pipeSlots, k := PIPE_DEF_BUFFERS, 4;
      assert Pow2(4) == 16 && Pow2(1) == 2;
      if pipeSlots * 4096 > lim.maxSize && !lim.sysResource {
        pipeSlots := lim.maxSize / 4096;
        k := j;
      }
      userBufs := Account(0, pipeSlots);
      if lim.TooManySoft(userBufs) && lim.Unprivileged() {
        userBufs := Account(pipeSlots, PIPE_MIN_DEF_BUFFERS);
        pipeSlots := PIPE_MIN_DEF_BUFFERS;
        k := 1;
      }
    }

    method AllocPipe(lim: Limits, ghost j: nat) returns (p: Pipe?)
      requires Valid() && Exact() && lim.maxSize == 4096 * Pow2(j)
      modifies this
      ensures Valid() && Exact() && inFlight == old(inFlight)
      ensures p == null <==>
                || !lim.infoOk || !lim.arrayOk
                || (lim.TooManyHard(old(pipeBufs) + old(Given(lim))) && lim.Unprivileged())
      ensures p == null ==> pipeBufs == old(pipeBufs) && charged == old(charged)
      ensures p != null ==>
                && fresh(p) && fresh(p.bufs) && p.Valid() && p.Contents() == [] && p.bufs.Length == old(Given(lim))
                && pipeBufs == old(pipeBufs) + p.bufs.Length && charged == old(charged)[p := p.bufs.Length]
      ensures p != null && !lim.sysResource && !lim.sysAdmin ==>
                && (lim.hard > 0 ==> pipeBufs <= lim.hard)
                && (lim.soft > 0 && pipeBufs > lim.soft ==> p.bufs.Length == 2)
      ensures var asked := if lim.maxSize < 65536 && !lim.sysResource then lim.maxSize / 4096 else 16;
              var bound := !lim.sysResource && !lim.sysAdmin;
              var given := if bound && 0 < lim.soft < old(pipeBufs) + asked then 2 else asked;
              && (p != null ==> p.bufs.Length == given)
              && (p == null <==> !lim.infoOk || !lim.arrayOk || (bound && 0 < lim.hard < old(pipeBufs) + given))
    {
      if !lim.infoOk {
        return null;
      }
      var pipeSlots, userBufs, k := Charge(lim, j);
      if (lim.TooManyHard(userBufs) && lim.Unprivileged()) || !lim.arrayOk {
        var _ := Account(pipeSlots, 0);
        return null;
      }
      var q := new Pipe(k, pipeSlots);
      Settle(q, pipeSlots);
      p := q;
    }

    /** The last reference is gone: the charge is returned and every page is freed. */
    method FreePipe(p: Pipe)
      requires Valid() && Exact() && p in charged && p.Valid()
      modifies this, p`tmpPage, p`pages, p.bufs
      ensures Valid() && Exact() && inFlight == old(inFlight)
      ensures p.pages == map[] && charged == old(charged) - {p}
      ensures pipeBufs == old(pipeBufs) - old(p.bufs.Length)
    {
      var _ := Account(p.bufs.Length, 0);
      TotalRemove(charged, p);
      charged, inFlight := charged - {p}, inFlight + charged[p];
      p.FreeAll();
    }
  }
}
