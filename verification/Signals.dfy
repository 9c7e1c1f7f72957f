/** Pending signals: a bit per signal and a queue of details, for each thread and for the whole
    thread group, with the sending and dequeueing that keeps the two in step. */
module Signals {
  import opened Basics

  const SIGILL := 4
  const SIGTRAP := 5
  const SIGBUS := 7
  const SIGFPE := 8
  const SIGKILL := 9
  const SIGSEGV := 11
  const SIGCONT := 18
  const SIGSYS := 31
  const SIGRTMIN := 32
  const EAGAIN := 11
  const SI_USER := 0
  const SI_KERNEL := 128
  const SI_TIMER := -2

  /** SIGSTOP, SIGTSTP, SIGTTIN and SIGTTOU. */
  const STOP_SIGNALS: set<int> := {19, 20, 21, 22}
  const SYNCHRONOUS: set<int> := {SIGSEGV, SIGBUS, SIGILL, SIGTRAP, SIGFPE, SIGSYS}

  /** A queued record. Timers own theirs and send it again and again; the others are made by the
      sender of one signal. */
  datatype Record = Record(signo: int, code: int, timer: bool, id: int)

  /** What a sender knows about its signal: nothing, that it comes from the kernel, that it must not
      be queued, or a full description. */
  datatype Info = NoInfo | Priv | Forced | Full(record: Record)

  // ---- One pending set ----

  /** Every queued record has its bit, and a record made by a sender for an ordinary signal comes
      before all others of its signal, so there is at most one of it. */
  ghost predicate SetOk(signal: set<int>, list: seq<Record>) {
    && (forall i :: 0 <= i < |list| ==> list[i].signo in signal)
    && (forall i, j :: 0 <= i < j < |list| && list[i].signo == list[j].signo < SIGRTMIN ==> list[j].timer)
    && (forall i :: 0 <= i < |list| && list[i].timer ==> list[i].code == SI_TIMER)
  }

  function Without(list: seq<Record>, mask: set<int>): seq<Record> {
    if list == [] then []
    else if list[|list| - 1].signo in mask then Without(list[..|list| - 1], mask)
    else Without(list[..|list| - 1], mask) + [list[|list| - 1]]
  }

  lemma {:induction false} WithoutElements(list: seq<Record>, mask: set<int>, r: Record)
    ensures r in Without(list, mask) <==> r in list && r.signo !in mask
  {
    if list != [] {
      var n := |list| - 1;
      WithoutElements(list[..n], mask, r);
      assert r in list <==> r in list[..n] || r == list[n];
    }
  }

  lemma AppendedOk(signal: set<int>, w: seq<Record>, list: seq<Record>, mask: set<int>)
    requires list != [] && SetOk(signal, list) && SetOk(signal - mask, w)
    requires forall r :: r in w ==> r in list[..|list| - 1]
    ensures list[|list| - 1].signo !in mask ==> SetOk(signal - mask, w + [list[|list| - 1]])
  {
    var n := |list| - 1;
    forall i | 0 <= i < |w| && w[i].signo == list[n].signo < SIGRTMIN
      ensures list[n].timer
    {
      assert w[i] in w && w[i] in list[..n];
      var k :| 0 <= k < n && list[k] == w[i];
    }
  }

  /** Dropping works record by record, so it keeps the order of the others. */
  lemma {:induction false} WithoutConcat(a: seq<Record>, b: seq<Record>, mask: set<int>)
    ensures Without(a + b, mask) == Without(a, mask) + Without(b, mask)
  {
    if b == [] {
      assert a + b == a;
    } else {
      var n := |b| - 1;
      WithoutConcat(a, b[..n], mask);
      assert (a + b)[..|a + b| - 1] == a + b[..n];
    }
  }

  /** The records of one signal, in order. */
  function OfSignal(list: seq<Record>, sig: int): seq<Record> {
    if list == [] then []
    else OfSignal(list[..|list| - 1], sig) + if list[|list| - 1].signo == sig then [list[|list| - 1]] else []
  }

  lemma {:induction false} OfSignalConcat(a: seq<Record>, b: seq<Record>, sig: int)
    ensures OfSignal(a + b, sig) == OfSignal(a, sig) + OfSignal(b, sig)
  {
    if b == [] {
      assert a + b == a;
    } else {
      var n := |b| - 1;
      OfSignalConcat(a, b[..n], sig);
      assert (a + b)[..|a + b| - 1] == a + b[..n] && (a + b)[|a + b| - 1] == b[n];
    }
  }

  lemma {:induction false} NoneOf(list: seq<Record>, sig: int)
    requires forall i :: 0 <= i < |list| ==> list[i].signo != sig
    ensures OfSignal(list, sig) == []
  {
    if list != [] {
      NoneOf(list[..|list| - 1], sig);
    }
  }

  lemma OfOne(r: Record, sig: int)
    ensures OfSignal([r], sig) == if r.signo == sig then [r] else []
  {
    assert [r][..0] == [];
  }

  /** What a flush leaves of one signal: all its records in their order, or none. */
  lemma {:induction false} WithoutOfSignal(list: seq<Record>, mask: set<int>, sig: int)
    ensures OfSignal(Without(list, mask), sig) == if sig in mask then [] else OfSignal(list, sig)
  {
    if list != [] {
      var n := |list| - 1;
      WithoutOfSignal(list[..n], mask, sig);
      OfSignalConcat(Without(list[..n], mask), [list[n]], sig);
      OfOne(list[n], sig);
    }
  }

  /** Dropping the records of some signals keeps the others in order and well formed. */
  lemma {:induction false} WithoutOk(signal: set<int>, list: seq<Record>, mask: set<int>)
    requires SetOk(signal, list)
    ensures SetOk(signal - mask, Without(list, mask))
    ensures forall r :: r in Without(list, mask) <==> r in list && r.signo !in mask
  {
    forall r
      ensures r in Without(list, mask) <==> r in list && r.signo !in mask
    {
      WithoutElements(list, mask, r);
    }
    if list != [] {
      WithoutOk(signal, list[..|list| - 1], mask);
      AppendedOk(signal, Without(list[..|list| - 1], mask), list, mask);
    }
  }

  /** With nothing of the mask pending there is nothing to drop. */
  lemma {:induction false} WithoutNothing(signal: set<int>, list: seq<Record>, mask: set<int>)
    requires SetOk(signal, list) && signal * mask == {}
    ensures Without(list, mask) == list
  {
    if list != [] {
      var n := |list| - 1;
      WithoutNothing(signal, list[..n], mask);
      assert list == list[..n] + [list[n]];
      assert list[n].signo in mask <==> list[n].signo in signal * mask;
    }
  }

  /** The number of records of a signal that senders, not timers, have queued. */
  function SenderRecords(list: seq<Record>, sig: int): nat {
    if list == [] then 0
    else SenderRecords(list[..|list| - 1], sig) + if list[|list| - 1].signo == sig && !list[|list| - 1].timer then 1 else 0
  }

  /** An ordinary signal sent any number of times is queued at most once in each pending set. */
  lemma {:induction false} QueuedAtMostOnce(signal: set<int>, list: seq<Record>, sig: int)
    requires SetOk(signal, list) && sig < SIGRTMIN
    ensures SenderRecords(list, sig) <= 1
    ensures (forall i :: 0 <= i < |list| ==> list[i].signo != sig) ==> SenderRecords(list, sig) == 0
  {
    if list != [] {
      var n := |list| - 1;
      QueuedAtMostOnce(signal, list[..n], sig);
      assert forall i :: 0 <= i < n ==> list[..n][i] == list[i];
    }
  }

  ghost predicate NoneBefore(list: seq<Record>, i: nat, sig: int)
    requires i <= |list|
  {
    forall k :: 0 <= k < i ==> list[k].signo != sig
  }

  function RemoveAt(list: seq<Record>, i: nat): seq<Record>
    requires i < |list|
  {
    list[..i] + list[i + 1..]
  }

  ghost predicate FirstRemoved(list: seq<Record>, i: nat, sig: int, r: Record, list': seq<Record>) {
    && i < |list| && NoneBefore(list, i, sig) && list[i] == r && r.signo == sig
    && list' == list[..i] + list[i + 1..]
  }

  /** One delivery of a signal: its oldest record, if it has any, is gone, and nothing else; its bit goes
      exactly when no record of it is left. */
  ghost predicate Collected(signal: set<int>, list: seq<Record>, signal': set<int>, list': seq<Record>,
                            sig: int, info: Option<Record>) {
    && (info == None <==> forall r :: r in list ==> r.signo != sig)
    && (info == None ==> list' == list)
    && (info.Some? ==> info.value.signo == sig && exists i: nat :: FirstRemoved(list, i, sig, info.value, list'))
    && (forall k :: k != sig ==> (k in signal' <==> k in signal))
    && (sig in signal' <==> exists r :: r in list' && r.signo == sig)
  }

  /** The oldest record that a fault of the thread itself has made is gone, and nothing else. */
  ghost predicate SyncRemoved(list: seq<Record>, i: nat, sig: int, list': seq<Record>) {
    && i < |list| && list[i].signo == sig && list[i].code > SI_USER
    && (forall k :: 0 <= k < i ==> !(list[k].code > SI_USER && list[k].signo in SYNCHRONOUS))
    && list' == list[..i] + list[i + 1..]
  }

  lemma RemovedOne(list: seq<Record>, i: nat, sig: int)
    requires i < |list|
    ensures OfSignal(list[..i] + list[i + 1..], sig) == OfSignal(list[..i], sig) + OfSignal(list[i + 1..], sig)
    ensures OfSignal(list, sig) ==
            OfSignal(list[..i], sig) + ((if list[i].signo == sig then [list[i]] else []) + OfSignal(list[i + 1..], sig))
  {
    assert list == list[..i] + ([list[i]] + list[i + 1..]);
    OfSignalConcat(list[..i], list[i + 1..], sig);
    OfSignalConcat(list[..i], [list[i]] + list[i + 1..], sig);
    OfSignalConcat([list[i]], list[i + 1..], sig);
    OfOne(list[i], sig);
  }

  lemma RemovedOther(list: seq<Record>, i: nat, other: int)
    requires i < |list| && list[i].signo != other
    ensures OfSignal(list[..i] + list[i + 1..], other) == OfSignal(list, other)
  {
    RemovedOne(list, i, other);
    assert [] + OfSignal(list[i + 1..], other) == OfSignal(list[i + 1..], other);
  }

  lemma RemovedFirst(list: seq<Record>, i: nat, sig: int)
    requires i < |list| && list[i].signo == sig && NoneBefore(list, i, sig)
    ensures OfSignal(list, sig) == [list[i]] + OfSignal(list[..i] + list[i + 1..], sig)
  {
    RemovedOne(list, i, sig);
    NoneOf(list[..i], sig);
  }

  ghost predicate SyncTaken(list: seq<Record>, sig: int, list': seq<Record>) {
    exists i: nat :: SyncRemoved(list, i, sig, list')
  }

  /** A delivery of one signal leaves the bits and the records of all others as they were. */
  lemma OthersStay(signal: set<int>, list: seq<Record>, signal': set<int>, list': seq<Record>, sig: int,
                   info: Option<Record>, other: int)
    requires Collected(signal, list, signal', list', sig, info) && other != sig
    ensures other in signal' <==> other in signal
    ensures OfSignal(list', other) == OfSignal(list, other)
    ensures OfSignal(list, sig) == (if info.Some? then [info.value] else []) + OfSignal(list', sig)
  {
    if info.Some? {
      var i: nat :| FirstRemoved(list, i, sig, info.value, list');
      RemovedOther(list, i, other);
      RemovedFirst(list, i, sig);
    } else {
      NoneOf(list, sig);
    }
  }

  lemma RemoveAtOk(signal: set<int>, list: seq<Record>, i: nat)
    requires SetOk(signal, list) && i < |list|
    ensures SetOk(signal, RemoveAt(list, i))
    ensures (forall k :: 0 <= k < |list| && k != i ==> list[k].signo != list[i].signo) ==>
              SetOk(signal - {list[i].signo}, RemoveAt(list, i))
  {
    var w := RemoveAt(list, i);
    assert forall k :: 0 <= k < |w| ==> w[k] == list[if k < i then k else k + 1];
  }

  /** The least member of a set of signals, or 0. */
  function Least(s: set<int>, from: nat): (sig: int)
    requires 1 <= from <= 65
    ensures sig != 0 ==> sig in s && from <= sig < 65 && forall k :: k in s && from <= k < 65 ==> sig <= k
    ensures sig == 0 ==> forall k :: k in s ==> !(from <= k < 65)
    decreases 65 - from
  {
    if from == 65 then 0 else if from in s then from else Least(s, from + 1)
  }

  /** next_signal: the lowest unmasked pending signal, synchronous ones first. */
  function NextSignal(signal: set<int>, mask: set<int>): (sig: int)
    ensures sig == 0 ==> forall k :: 1 <= k < 65 ==> k !in signal - mask
    ensures sig != 0 ==> sig in signal - mask && 1 <= sig < 65
    ensures sig != 0 && sig !in SYNCHRONOUS ==> (signal - mask) * SYNCHRONOUS == {}
    ensures sig != 0 ==> forall k :: 1 <= k < sig && k in signal - mask ==> sig in SYNCHRONOUS && k !in SYNCHRONOUS
  {
    var x := signal - mask;
    if x * SYNCHRONOUS != {} then Least(x * SYNCHRONOUS, 1) else Least(x, 1)
  }

  predicate Holds(list: seq<Record>, id: int) {
    exists k :: 0 <= k < |list| && list[k].timer && list[k].id == id
  }

  class SigPending {
    var signal: set<int>
    var list: seq<Record>

    ghost predicate Valid()
      reads this
    {
      SetOk(signal, list)
    }

    constructor ()
      ensures Valid() && signal == {} && list == []
    {
      signal, list := {}, [];
    }

    /** flush_sigqueue_mask. */
    method FlushMask(mask: set<int>) returns (found: bool)
      requires Valid()
      modifies this
      ensures Valid() && signal == old(signal) - mask && list == Without(old(list), mask)
      ensures found <==> old(signal) * mask != {}
    {
      if mask * signal == {} {
        WithoutNothing(signal, list, mask);
        assert forall k :: k in signal ==> (k in mask <==> k in mask * signal);
        return false;
      }
      WithoutOk(signal, list, mask);
      signal := signal - mask;
      var i, kept := 0, [];
      while i < |list|
        invariant 0 <= i <= |list| && kept == Without(list[..i], mask)
      {
        assert list[..i + 1][..i] == list[..i];
        if list[i].signo !in mask {
          kept := kept + [list[i]];
        }
        i := i + 1;
      }
      assert list[..i] == list;
      list := kept;
      found := true;
    }

    static lemma RemainingOfSignal(before: seq<Record>, first: nat, sig: int, more: bool)
      requires first < |before| && before[first].signo == sig && NoneBefore(before, first, sig)
      requires more <==> exists k :: first < k < |before| && before[k].signo == sig
      ensures more <==> exists r :: r in RemoveAt(before, first) && r.signo == sig
    {
      var w := RemoveAt(before, first);
      if more {
        var k :| first < k < |before| && before[k].signo == sig;
        assert w[k - 1] == before[k];
      }
      if r :| r in w && r.signo == sig {
        var k :| 0 <= k < |w| && w[k] == r;
        assert r == before[if k < first then k else k + 1];
      }
    }

    /** The walk of collect_signal: the oldest record of the signal, and whether there is another one. */
    method Scan(sig: int) returns (first: nat, more: bool)
      ensures first <= |list| && NoneBefore(list, first, sig) && (first < |list| ==> list[first].signo == sig)
      ensures more <==> exists k :: first < k < |list| && list[k].signo == sig
    {
      var i := 0;
      first, more := |list|, false;
      while i < |list| && !more
        invariant 0 <= i <= |list| && first <= |list|
        invariant first == |list| ==> !more && NoneBefore(list, i, sig)
        invariant first < |list| ==> first < i && list[first].signo == sig && NoneBefore(list, first, sig)
        invariant first < |list| && !more ==> forall k :: first < k < i ==> list[k].signo != sig
        invariant more ==> exists k :: first < k < |list| && list[k].signo == sig
        decreases |list| - i, !more
      {
        if list[i].signo == sig {
          if first < |list| {
            more := true;
          } else {
            first := i;
          }
        }
        i := i + 1;
      }
    }

    /** collect_signal: the oldest record of the signal is taken, and its bit is cleared only when no
        other record of it is left. */
    method Collect(sig: int) returns (info: Option<Record>)
      requires Valid() && sig in signal
      modifies this
      ensures Valid() && Collected(old(signal), old(list), signal, list, sig, info)
      ensures signal == if exists r :: r in list && r.signo == sig then old(signal) else old(signal) - {sig}
    {
      var first, more := Scan(sig);
      if first == |list| {
        signal := signal - {sig};
        return None;
      }
      RemoveAtOk(signal, list, first);
      ghost var before := list;
      info := Some(list[first]);
      if !more {
        signal := signal - {sig};
      }
      list := RemoveAt(list, first);
      RemainingOfSignal(before, first, sig, more);
      assert FirstRemoved(before, first, sig, info.value, list);
    }

    /** __dequeue_signal. */
    method Dequeue(mask: set<int>) returns (sig: int, info: Option<Record>)
      requires Valid()
      modifies this
      ensures Valid() && sig == NextSignal(old(signal), mask) && signal <= old(signal)
      ensures sig == 0 ==> signal == old(signal) && list == old(list) && info == None
      ensures sig != 0 ==> |list| + |signal| < |old(list)| + |old(signal)|
      ensures sig != 0 ==> Collected(old(signal), old(list), signal, list, sig, info)
      ensures forall k :: k != sig ==> (k in signal <==> k in old(signal))
      ensures forall k :: k != sig ==> OfSignal(list, k) == OfSignal(old(list), k)
    {
      sig := NextSignal(signal, mask);
      info := None;
      if sig != 0 {
        ghost var s := signal;
        ghost var l := list;
        info := Collect(sig);
        assert s == (s - {sig}) + {sig};
        forall k | k != sig
          ensures OfSignal(list, k) == OfSignal(l, k)
        {
          OthersStay(s, l, signal, list, sig, info, k);
        }
      }
    }

    /** dequeue_synchronous_signal: only the records after the one found are searched for another of
        its signal, and that is enough because of the order a well-formed set keeps. */
    method DequeueSynchronous(blocked: set<int>) returns (sig: int)
      requires Valid()
      modifies this
      ensures Valid() && (sig == 0 ==> signal == old(signal) && list == old(list))
      ensures sig != 0 <==>
                && (old(signal) - blocked) * SYNCHRONOUS != {}
                && exists r :: r in old(list) && r.code > SI_USER && r.signo in SYNCHRONOUS
      ensures sig != 0 ==>
                && sig in SYNCHRONOUS && sig in old(signal) && |list| == |old(list)| - 1
                && SyncTaken(old(list), sig, list)
      ensures signal == if sig == 0 || exists r :: r in list && r.signo == sig then old(signal) else old(signal) - {sig}
    {
      if (signal - blocked) * SYNCHRONOUS == {} {
        return 0;
      }
      var i := 0;
      while i < |list| && !(list[i].code > SI_USER && list[i].signo in SYNCHRONOUS)
        invariant 0 <= i <= |list|
        invariant forall k :: 0 <= k < i ==> !(list[k].code > SI_USER && list[k].signo in SYNCHRONOUS)
      {
        i := i + 1;
      }
      if i == |list| {
        assert forall r :: r in list ==> !(r.code > SI_USER && r.signo in SYNCHRONOUS);
        return 0;
      }
      assert list[i] in list;
      ghost var before := list;
      sig := list[i].signo;
      var j := i + 1;
      while j < |list| && list[j].signo != sig
        invariant i < j <= |list| && forall k :: i < k < j ==> list[k].signo != sig
      {
        j := j + 1;
      }
      assert !list[i].timer;
      assert NoneBefore(list, i, sig);
      RemoveAtOk(signal, list, i);
      RemainingOfSignal(list, i, sig, j < |list|);
      if j == |list| {
        signal := signal - {sig};
      }
      list := RemoveAt(list, i);
      assert SyncRemoved(before, i, sig, list);
    }

    /** legacy_queue. */
    predicate LegacyQueued(sig: int)
      reads this
    {
      sig < SIGRTMIN && sig in signal
    }

    method Append(r: Record)
      requires Valid() && (r.timer ==> r.code == SI_TIMER) && (!r.timer ==> !LegacyQueued(r.signo))
      modifies this
      ensures Valid() && signal == old(signal) + {r.signo} && list == old(list) + [r]
    {
      list := list + [r];
      signal := signal + {r.signo};
    }

    method SetBit(sig: int)
      requires Valid()
      modifies this`signal
      ensures Valid() && signal == old(signal) + {sig}
    {
      signal := signal + {sig};
    }
  }

  // ---- A thread group ----

  /** Nothing stops the group while something else continues it: no two pending sets, nor one, hold
      a stop signal and SIGCONT. */
  ghost predicate NoClash(bits: seq<set<int>>) {
    (forall i :: 0 <= i < |bits| ==> bits[i] * STOP_SIGNALS == {}) || (forall i :: 0 <= i < |bits| ==> SIGCONT !in bits[i])
  }

  /** What a signal wipes out everywhere as it is sent. */
  function Opposite(sig: int): set<int> {
    if sig in STOP_SIGNALS then {SIGCONT} else if sig == SIGCONT then STOP_SIGNALS else {}
  }

  /** The records of one pending set that survive the sending of a signal. */
  function Surviving(list: seq<Record>, sig: int, dying: bool): seq<Record> {
    if dying || Opposite(sig) == {} then list else Without(list, Opposite(sig))
  }

  /** The SIGKILL bits of a group that starts to exit. */
  function Killed(bits: seq<set<int>>, kills: bool): (r: seq<set<int>>)
    ensures |r| == |bits|
  {
    if !kills then bits
    else seq(|bits|, i requires 0 <= i < |bits| => if i > 0 then bits[i] + {SIGKILL} else bits[i])
  }

  function Cleared(bits: seq<set<int>>, mask: set<int>): (r: seq<set<int>>)
    ensures |r| == |bits| && forall i :: 0 <= i < |bits| ==> r[i] == bits[i] - mask
  {
    seq(|bits|, i requires 0 <= i < |bits| => bits[i] - mask)
  }

  lemma NothingCleared(bits: seq<set<int>>)
    ensures Cleared(bits, {}) == bits
  {
    forall i | 0 <= i < |bits|
      ensures bits[i] - {} == bits[i]
    {
    }
  }

  /** Wiping out the opposite first is what makes adding a signal safe. */
  lemma AddedAfterClearing(bits: seq<set<int>>, sig: int, at: nat)
    requires at < |bits| && NoClash(bits)
    ensures NoClash(Cleared(bits, Opposite(sig)))
    ensures NoClash(Cleared(bits, Opposite(sig))[at := Cleared(bits, Opposite(sig))[at] + {sig}])
  {
    var c := Cleared(bits, Opposite(sig));
    var d := c[at := c[at] + {sig}];
    if sig in STOP_SIGNALS {
      assert forall i :: 0 <= i < |d| ==> SIGCONT !in d[i];
    } else if sig == SIGCONT {
      assert forall i :: 0 <= i < |d| ==> d[i] * STOP_SIGNALS == {};
    } else if forall i :: 0 <= i < |bits| ==> bits[i] * STOP_SIGNALS == {} {
      forall i | 0 <= i < |d|
        ensures d[i] * STOP_SIGNALS == {}
      {
        assert bits[i] * STOP_SIGNALS == {};
      }
    } else {
      assert forall i :: 0 <= i < |d| ==> SIGCONT !in d[i];
    }
  }

  lemma FewerBits(bits: seq<set<int>>, fewer: seq<set<int>>)
    requires NoClash(bits) && |fewer| == |bits| && forall i :: 0 <= i < |bits| ==> fewer[i] <= bits[i]
    ensures NoClash(fewer)
  {
    if forall i :: 0 <= i < |bits| ==> bits[i] * STOP_SIGNALS == {} {
      forall i | 0 <= i < |bits|
        ensures fewer[i] * STOP_SIGNALS == {}
      {
        assert bits[i] * STOP_SIGNALS == {};
        assert fewer[i] * STOP_SIGNALS <= bits[i] * STOP_SIGNALS;
      }
    }
  }

  /** The pending sets of a group: number 0 is shared, number i + 1 belongs to thread i. */
  class Group {
    const sets: seq<SigPending>
    var groupExit: bool
    var coredump: bool

    ghost predicate Apart() {
      |sets| > 1 && forall i, j :: 0 <= i < j < |sets| ==> sets[i] != sets[j]
    }

    ghost function Bits(): (b: seq<set<int>>)
      reads sets
      ensures |b| == |sets| && forall i :: 0 <= i < |sets| ==> b[i] == sets[i].signal
    {
      seq(|sets|, i requires 0 <= i < |sets| reads sets => sets[i].signal)
    }

    predicate Dying()
      reads this
    {
      groupExit || coredump
    }

    /** Each pending set is well formed, and unless the group is exiting nothing clashes: while it only
        dumps core, nothing but SIGKILL is let through. */
    ghost predicate Valid()
      reads this, sets
    {
      && Apart() && (forall i :: 0 <= i < |sets| ==> sets[i].Valid())
      && (!groupExit ==> NoClash(Bits()))
    }

    constructor (threads: nat)
      requires threads > 0
      ensures Valid() && !Dying() && |sets| == threads + 1 && fresh(sets)
      ensures forall i :: 0 <= i < |sets| ==> sets[i].signal == {} && sets[i].list == []
    {
      var made: seq<SigPending> := [];
      while |made| < threads + 1
        invariant |made| <= threads + 1 && fresh(made)
        invariant forall i :: 0 <= i < |made| ==> made[i].Valid() && made[i].signal == {} && made[i].list == []
        invariant forall i, j :: 0 <= i < j < |made| ==> made[i] != made[j]
        decreases threads + 1 - |made|
      {
        var p := new SigPending();
        made := made + [p];
      }
      sets, groupExit, coredump := made, false, false;
    }

    /** Flushing every pending set of the group. */
    method FlushAll(mask: set<int>)
      requires Apart() && forall i :: 0 <= i < |sets| ==> sets[i].Valid()
      modifies sets
      ensures forall i :: 0 <= i < |sets| ==>
                sets[i].Valid() && sets[i].list == Without(old(sets[i].list), mask)
      ensures Bits() == Cleared(old(Bits()), mask)
    {
      var i := 0;
      while i < |sets|
        invariant 0 <= i <= |sets|
        invariant forall k :: 0 <= k < |sets| ==> sets[k].Valid()
        invariant forall k :: 0 <= k < i ==>
                    sets[k].signal == old(sets[k].signal) - mask && sets[k].list == Without(old(sets[k].list), mask)
        invariant forall k :: i <= k < |sets| ==> sets[k].signal == old(sets[k].signal) && sets[k].list == old(sets[k].list)
      {
        var _ := sets[i].FlushMask(mask);
        i := i + 1;
      }
    }

    /** prepare_signal lets the signal through. */
    predicate Passes(sig: int, ignored: bool)
      reads this
    {
      if coredump && !groupExit then sig == SIGKILL else !ignored
    }

    /** The queue part of prepare_signal. The two flushes of the source, one for each kind of signal,
        are the one here with the set that the signal overrules. */
    method PrepareSignal(sig: int, ignored: bool) returns (deliver: bool)
      requires Valid()
      modifies sets
      ensures Valid()
      ensures deliver == Passes(sig, ignored)
      ensures Bits() == if Dying() then old(Bits()) else Cleared(old(Bits()), Opposite(sig))
      ensures forall i :: 0 <= i < |sets| ==> sets[i].list == Surviving(old(sets[i].list), sig, Dying())
    {
      if groupExit || coredump {
        return if !groupExit then sig == SIGKILL else !ignored;
      }
      AddedAfterClearing(Bits(), sig, 0);
      if sig in STOP_SIGNALS {
        FlushAll({SIGCONT});
      } else if sig == SIGCONT {
        FlushAll(STOP_SIGNALS);
      } else {
        NothingCleared(Bits());
      }
      deliver := !ignored;
    }

    /** The fatal branch of complete_signal, when it is taken: the group starts to exit, and every
        thread gets the SIGKILL bit without a record. */
    method CompleteSignal(kills: bool)
      requires Valid()
      modifies this, sets
      ensures Valid() && groupExit == (old(groupExit) || kills) && coredump == (old(coredump) && !kills)
      ensures forall i :: 0 <= i < |sets| ==> sets[i].list == old(sets[i].list)
      ensures Bits() == Killed(old(Bits()), kills)
    {
      if !kills {
        assert Bits() == old(Bits());
        return;
      }
      groupExit, coredump := true, false;
      var i := 1;
      while i < |sets|
        invariant 1 <= i <= |sets| && groupExit && !coredump
        invariant forall k :: 0 <= k < |sets| ==> sets[k].Valid() && sets[k].list == old(sets[k].list)
        invariant forall k :: 0 <= k < |sets| ==>
                    sets[k].signal == if 1 <= k < i then old(sets[k].signal) + {SIGKILL} else old(sets[k].signal)
      {
        sets[i].SetBit(SIGKILL);
        i := i + 1;
      }
    }

    /** The signal passes prepare_signal and is not one already pending that is queued only once. */
    ghost predicate Delivered(sig: int, at: nat, ignored: bool)
      reads this, sets
      requires at < |sets|
    {
      Passes(sig, ignored) && !sets[at].LegacyQueued(sig)
    }

    /** The pending bits once what a signal overrules is gone. */
    ghost function Wiped(sig: int): (b: seq<set<int>>)
      reads this, sets
      ensures |b| == |sets|
    {
      if Dying() then Bits() else Cleared(Bits(), Opposite(sig))
    }

    /** Whatever prepare_signal lets through can be added to what it has left. */
    lemma SafeToAdd(sig: int, at: nat)
      requires Valid() && at < |sets|
      ensures !groupExit && (!coredump || sig == SIGKILL) ==> NoClash(Wiped(sig)[at := Wiped(sig)[at] + {sig}])
    {
      if !groupExit {
        AddedAfterClearing(Bits(), sig, at);
        NothingCleared(Bits());
      }
    }

    /** Adding the record, if there is one, and the bit; then complete_signal. */
    method Deliver(sig: int, at: nat, record: Option<Record>, kills: bool)
      requires Valid() && at < |sets| && (!groupExit ==> NoClash(Bits()[at := Bits()[at] + {sig}]))
      requires record.Some? ==> record.value.signo == sig && (record.value.timer ==> record.value.code == SI_TIMER)
      requires record.Some? && !record.value.timer ==> !sets[at].LegacyQueued(sig)
      modifies this, sets
      ensures Valid() && groupExit == (old(groupExit) || kills) && coredump == (old(coredump) && !kills)
      ensures Bits() == Killed(old(Bits())[at := old(Bits())[at] + {sig}], kills)
      ensures forall i :: 0 <= i < |sets| ==>
                sets[i].list == old(sets[i].list) + if i == at && record.Some? then [record.value] else []
    {
      if record.Some? {
        sets[at].Append(record.value);
      } else {
        sets[at].SetBit(sig);
      }
      assert Bits() == old(Bits())[at := old(Bits())[at] + {sig}];
      CompleteSignal(kills);
    }

    /** The state after a signal was dropped: what it overrules is gone all the same. */
    twostate predicate OnlyFlushed(sig: int)
      reads this, sets
    {
      && groupExit == old(groupExit) && coredump == old(coredump)
      && Bits() == old(Wiped(sig))
      && forall i :: 0 <= i < |sets| ==> sets[i].list == Surviving(old(sets[i].list), sig, old(Dying()))
    }

    /** The state after a signal was added to one set, with or without a record. */
    twostate predicate Added(sig: int, at: nat, record: seq<Record>, kills: bool)
      requires at < |sets|
      reads this, sets
    {
      && groupExit == (old(groupExit) || kills) && coredump == (old(coredump) && !kills)
      && Bits() == Killed(old(Wiped(sig))[at := old(Wiped(sig))[at] + {sig}], kills)
      && forall i :: 0 <= i < |sets| ==>
           sets[i].list == Surviving(old(sets[i].list), sig, old(Dying())) + if i == at then record else []
    }

    static function RecordOf(sig: int, info: Info): Record
      requires !info.Forced?
    {
      match info
      case Full(r) => r
      case Priv => Record(sig, SI_KERNEL, false, 0)
      case _ => Record(sig, SI_USER, false, 0)
    }

    /** __send_signal. Whether the signal is ignored, whether a record can be allocated, and whether
        the signal kills the group at once are decided by state outside this model. */
    method SendSignal(sig: int, info: Info, at: nat, ignored: bool, alloc: bool, kills: bool) returns (ret: int)
      requires Valid() && 1 <= sig < 65 && at < |sets|
      requires info.Full? ==> info.record.signo == sig && !info.record.timer
      modifies this, sets
      ensures Valid()
      ensures ret == if old(Delivered(sig, at, ignored)) && sig >= SIGRTMIN && info.Full? && info.record.code != SI_USER && !alloc
                     then -EAGAIN else 0
      ensures ret == 0 && old(Delivered(sig, at, ignored)) ==>
                Added(sig, at, if alloc && !info.Forced? then [RecordOf(sig, info)] else [], kills)
      ensures !(ret == 0 && old(Delivered(sig, at, ignored))) ==> OnlyFlushed(sig)
    {
      SafeToAdd(sig, at);
      var deliver := PrepareSignal(sig, ignored);
      if !deliver || sets[at].LegacyQueued(sig) {
        return 0;
      }
      var record := None;
      if !info.Forced? {
        if alloc {
          record := Some(RecordOf(sig, info));
        } else if info.Full? && sig >= SIGRTMIN && info.record.code != SI_USER {
          return -EAGAIN;
        }
      }
      Deliver(sig, at, record, kills);
      ret := 0;
    }

    /** A timer's record is on one of the lists, so its own list head is not empty. */
    predicate Linked(id: int)
      reads sets
    {
      exists i :: 0 <= i < |sets| && Holds(sets[i].list, id)
    }

    /** The record will still be queued once what a signal overrules is gone. */
    ghost predicate StaysLinked(id: int, sig: int)
      reads this, sets
    {
      exists i :: 0 <= i < |sets| && Holds(Surviving(sets[i].list, sig, Dying()), id)
    }

    /** send_sigqueue: a timer's own record, which is queued at most once. */
    method SendSigqueue(q: Record, at: nat, ignored: bool, kills: bool) returns (ret: int)
      requires Valid() && q.timer && q.code == SI_TIMER && 1 <= q.signo < 65 && at < |sets|
      modifies this, sets
      ensures Valid() && ret == if old(Passes(q.signo, ignored)) then 0 else 1
      ensures ret == 1 || old(StaysLinked(q.id, q.signo)) ==> OnlyFlushed(q.signo)
      ensures ret == 0 && !old(StaysLinked(q.id, q.signo)) ==> Added(q.signo, at, [q], kills)
    {
      SafeToAdd(q.signo, at);
      var deliver := PrepareSignal(q.signo, ignored);
      if !deliver {
        return 1;
      }
      var linked := Linked(q.id);
      if linked {
        return 0;
      }
      Deliver(q.signo, at, Some(q), kills);
      ret := 0;
    }

    /** __dequeue_signal on one set of the group. */
    method TakeFrom(at: nat, mask: set<int>) returns (sig: int, info: Option<Record>)
      requires Valid() && at < |sets|
      modifies sets[at]
      ensures Valid() && sig == NextSignal(old(sets[at].signal), mask)
      ensures sig == 0 ==> sets[at].signal == old(sets[at].signal) && sets[at].list == old(sets[at].list)
      ensures sig != 0 ==> Collected(old(sets[at].signal), old(sets[at].list), sets[at].signal, sets[at].list, sig, info)
      ensures forall i :: 0 <= i < |sets| && i != at ==>
                sets[i].signal == old(sets[i].signal) && sets[i].list == old(sets[i].list)
    {
      ghost var bits := Bits();
      sig, info := sets[at].Dequeue(mask);
      if !groupExit {
        FewerBits(bits, Bits());
      }
    }

    /** dequeue_signal, as far as the pending sets go: the thread's own set first. */
    method DequeueSignal(thread: nat, mask: set<int>) returns (sig: int, info: Option<Record>)
      requires Valid() && thread + 1 < |sets|
      modifies sets[0], sets[thread + 1]
      ensures Valid()
      ensures sig == var own := NextSignal(old(sets[thread + 1].signal), mask);
                     if own != 0 then own else NextSignal(old(sets[0].signal), mask)
      ensures sig == 0 ==> forall i :: 0 <= i < |sets| ==> sets[i].signal == old(sets[i].signal) && sets[i].list == old(sets[i].list)
      ensures sig != 0 ==>
                var from := if NextSignal(old(sets[thread + 1].signal), mask) != 0 then thread + 1 else 0;
                && Collected(old(sets[from].signal), old(sets[from].list), sets[from].signal, sets[from].list, sig, info)
                && forall i :: 0 <= i < |sets| && i != from ==>
                     sets[i].signal == old(sets[i].signal) && sets[i].list == old(sets[i].list)
    {
      sig, info := TakeFrom(thread + 1, mask);
      if sig == 0 {
        sig, info := TakeFrom(0, mask);
      }
    }

    /** dequeue_synchronous_signal on the set of one thread. */
    method DequeueSynchronousSignal(thread: nat, blocked: set<int>) returns (sig: int)
      requires Valid() && thread + 1 < |sets|
      modifies sets[thread + 1]
      ensures Valid() && (sig == 0 ==> Bits() == old(Bits()) && sets[thread + 1].list == old(sets[thread + 1].list))
      ensures sig != 0 <==>
                && (old(sets[thread + 1].signal) - blocked) * SYNCHRONOUS != {}
                && exists r :: r in old(sets[thread + 1].list) && r.code > SI_USER && r.signo in SYNCHRONOUS
      ensures sig != 0 ==>
                sig in SYNCHRONOUS && SyncTaken(old(sets[thread + 1].list), sig, sets[thread + 1].list)
    {
      ghost var bits := Bits();
      sig := sets[thread + 1].DequeueSynchronous(blocked);
      if !groupExit {
        FewerBits(bits, Bits());
      }
    }
  }

  // ---- What a sender changes ----

  lemma AppendedOther(list: seq<Record>, record: seq<Record>, sig: int, other: int)
    requires other != sig && forall i :: 0 <= i < |record| ==> record[i].signo == sig
    ensures OfSignal(list + record, other) == OfSignal(list, other)
  {
    OfSignalConcat(list, record, other);
    NoneOf(record, other);
  }

  lemma SurvivingOf(list: seq<Record>, sig: int, dying: bool, other: int)
    ensures OfSignal(Surviving(list, sig, dying), other) ==
            if !dying && other in Opposite(sig) then [] else OfSignal(list, other)
  {
    WithoutOfSignal(list, Opposite(sig), other);
  }

  lemma OppositeIs(sig: int, other: int)
    ensures other in Opposite(sig) <==> (19 <= sig <= 22 && other == SIGCONT) || (sig == SIGCONT && 19 <= other <= 22)
  {
  }

  /** What the sending of a signal does to the records of another one, in one set: a stop signal wipes
      out SIGCONT and SIGCONT the stop signals, unless the group is dying, and all other records are the
      same in the same order. */
  lemma OtherRecords(list: seq<Record>, sig: int, dying: bool, record: seq<Record>, other: int)
    requires other != sig && forall i :: 0 <= i < |record| ==> record[i].signo == sig
    ensures OfSignal(Surviving(list, sig, dying) + record, other) ==
            if !dying && ((19 <= sig <= 22 && other == SIGCONT) || (sig == SIGCONT && 19 <= other <= 22)) then []
            else OfSignal(list, other)
  {
    OppositeIs(sig, other);
    SurvivingOf(list, sig, dying, other);
    AppendedOther(Surviving(list, sig, dying), record, sig, other);
  }

  /** The same for the bits; only a group that is killed gets SIGKILL bits besides. */
  lemma OtherBits(bits: seq<set<int>>, sig: int, dying: bool, at: nat, added: bool, kills: bool, i: nat, other: int)
    requires at < |bits| && i < |bits| && other != sig && other != SIGKILL
    ensures var wiped := if dying then bits else Cleared(bits, Opposite(sig));
            var bits' := if added then Killed(wiped[at := wiped[at] + {sig}], kills) else wiped;
            other in bits'[i] <==>
              other in bits[i]
              && !(!dying && ((19 <= sig <= 22 && other == SIGCONT) || (sig == SIGCONT && 19 <= other <= 22)))
  {
    OppositeIs(sig, other);
  }

  /** All that sending a signal does to the other signals of a group: they keep their records, in order,
      and their bits, but for what a stop signal or SIGCONT overrules while the group is not dying, and
      for the SIGKILL bits of a group that is killed. */
  method SendBesideOthers(g: Group, sig: int, info: Info, at: nat, ignored: bool, alloc: bool, kills: bool)
    returns (ret: int)
    requires g.Valid() && 1 <= sig < 65 && at < |g.sets|
    requires info.Full? ==> info.record.signo == sig && !info.record.timer
    modifies g, g.sets
    ensures g.Valid()
    ensures forall i, other :: 0 <= i < |g.sets| && other != sig ==>
              OfSignal(g.sets[i].list, other) ==
              if !old(g.groupExit) && !old(g.coredump)
                 && ((19 <= sig <= 22 && other == SIGCONT) || (sig == SIGCONT && 19 <= other <= 22)) then []
              else OfSignal(old(g.sets[i].list), other)
    ensures forall i, other :: 0 <= i < |g.sets| && other != sig && other != SIGKILL ==>
              (other in g.sets[i].signal <==>
                && other in old(g.sets[i].signal)
                && !(!old(g.groupExit) && !old(g.coredump)
                     && ((19 <= sig <= 22 && other == SIGCONT) || (sig == SIGCONT && 19 <= other <= 22))))
  {
    ghost var bits, dying, delivered := g.Bits(), g.Dying(), g.Delivered(sig, at, ignored);
    ret := g.SendSignal(sig, info, at, ignored, alloc, kills);
    ghost var added := ret == 0 && delivered;
    ghost var record := if added && alloc && !info.Forced? then [Group.RecordOf(sig, info)] else [];
    forall i, other | 0 <= i < |g.sets| && other != sig
      ensures OfSignal(g.sets[i].list, other) ==
              if !dying && ((19 <= sig <= 22 && other == SIGCONT) || (sig == SIGCONT && 19 <= other <= 22)) then []
              else OfSignal(old(g.sets[i].list), other)
    {
      assert g.sets[i].list == Surviving(old(g.sets[i].list), sig, dying) + if i == at then record else [];
      OtherRecords(old(g.sets[i].list), sig, dying, if i == at then record else [], other);
    }
    forall i, other | 0 <= i < |g.sets| && other != sig && other != SIGKILL
      ensures other in g.Bits()[i] <==>
                other in bits[i]
                && !(!dying && ((19 <= sig <= 22 && other == SIGCONT) || (sig == SIGCONT && 19 <= other <= 22)))
    {
      OtherBits(bits, sig, dying, at, added, kills, i, other);
    }
  }

  lemma OwnBit(bits: seq<set<int>>, sig: int, dying: bool, at: nat, added: bool, kills: bool)
    requires at < |bits| && (added || sig in bits[at])
    ensures var wiped := if dying then bits else Cleared(bits, Opposite(sig));
            sig in (if added then Killed(wiped[at := wiped[at] + {sig}], kills) else wiped)[at]
  {
    OppositeIs(sig, sig);
  }

  lemma KillBits(bits: seq<set<int>>, sig: int, dying: bool, at: nat, added: bool, kills: bool, i: nat)
    requires at < |bits| && i < |bits| && sig != SIGKILL
    ensures var wiped := if dying then bits else Cleared(bits, Opposite(sig));
            var bits' := if added then Killed(wiped[at := wiped[at] + {sig}], kills) else wiped;
            SIGKILL in bits'[i] <==> SIGKILL in bits[i] || (i > 0 && kills && added)
  {
    OppositeIs(sig, SIGKILL);
  }

  /** What sending a signal does to the signal itself: when it is refused, that it is pending afterwards if
      it was let through, which record it leaves, and when the group is killed by it. */
  method SendItself(g: Group, sig: int, info: Info, at: nat, ignored: bool, alloc: bool, kills: bool)
    returns (ret: int)
    requires g.Valid() && 1 <= sig < 65 && at < |g.sets|
    requires info.Full? ==> info.record.signo == sig && !info.record.timer
    modifies g, g.sets
    ensures g.Valid()
    ensures var passes := if old(g.coredump) && !old(g.groupExit) then sig == SIGKILL else !ignored;
            var again := sig < 32 && sig in old(g.sets[at].signal);
            && (ret == -EAGAIN <==> passes && sig >= 32 && info.Full? && info.record.code != 0 && !alloc)
            && (ret == 0 && passes ==> sig in g.sets[at].signal)
            && (g.groupExit <==> old(g.groupExit) || (kills && ret == 0 && passes && !again))
            && (ret == 0 && passes && !again && alloc && !info.Forced? ==>
                  g.sets[at].list != []
                  && var last := g.sets[at].list[|g.sets[at].list| - 1];
                     if info.Full? then last == info.record
                     else last.signo == sig && last.code == (if info.Priv? then 128 else 0) && !last.timer)
            && (forall i :: 0 <= i < |g.sets| && sig != SIGKILL ==>
                  (SIGKILL in g.sets[i].signal <==>
                     SIGKILL in old(g.sets[i].signal) || (i > 0 && kills && ret == 0 && passes && !again)))
  {
    ghost var bits, dying, delivered := g.Bits(), g.Dying(), g.Delivered(sig, at, ignored);
    ret := g.SendSignal(sig, info, at, ignored, alloc, kills);
    ghost var added := ret == 0 && delivered;
    if added || sig in bits[at] {
      OwnBit(bits, sig, dying, at, added, kills);
      assert sig in g.Bits()[at];
    }
    if sig != SIGKILL {
      forall i | 0 <= i < |g.sets|
        ensures SIGKILL in g.Bits()[i] <==> SIGKILL in bits[i] || (i > 0 && kills && added)
      {
        KillBits(bits, sig, dying, at, added, kills, i);
      }
    }
  }

  lemma NotHeld(list: seq<Record>, sig: int, dying: bool, id: int)
    requires forall r :: r in list ==> !r.timer || r.id != id
    ensures !Holds(Surviving(list, sig, dying), id)
  {
    var w := Surviving(list, sig, dying);
    forall k | 0 <= k < |w|
      ensures !w[k].timer || w[k].id != id
    {
      assert w[k] in w;
      WithoutElements(list, Opposite(sig), w[k]);
    }
  }

  /** A timer's record that is nowhere queued and is let through goes to the end of its list. */
  method SendTimer(g: Group, q: Record, at: nat, ignored: bool, kills: bool) returns (ret: int)
    requires g.Valid() && q.timer && q.code == SI_TIMER && 1 <= q.signo < 65 && at < |g.sets|
    requires forall i, r :: 0 <= i < |g.sets| && r in g.sets[i].list ==> !r.timer || r.id != q.id
    modifies g, g.sets
    ensures g.Valid() && ret == if (if old(g.coredump) && !old(g.groupExit) then q.signo == SIGKILL else !ignored) then 0 else 1
    ensures ret == 0 ==>
              && g.sets[at].list != [] && g.sets[at].list[|g.sets[at].list| - 1] == q && q.signo in g.sets[at].signal
  {
    ghost var bits, dying := g.Bits(), g.Dying();
    forall i | 0 <= i < |g.sets|
      ensures !Holds(Surviving(g.sets[i].list, q.signo, dying), q.id)
    {
      NotHeld(g.sets[i].list, q.signo, dying, q.id);
    }
    ret := g.SendSigqueue(q, at, ignored, kills);
    if ret == 0 {
      OwnBit(bits, q.signo, dying, at, true, kills);
      assert q.signo in g.Bits()[at];
    }
  }

  // ---- Once a group is exiting ----

  method SendWhileExiting(g: Group, sig: int)
    requires g.Valid() && g.groupExit && 1 <= sig < 65
    modifies g, g.sets
    ensures g.Valid() && g.groupExit && g.sets[0].signal == old(g.sets[0].signal) + {sig}
  {
    var ret := g.SendSignal(sig, NoInfo, 0, false, true, false);
    if g.sets[0].LegacyQueued(sig) {
      assert g.Bits()[0] == g.sets[0].signal;
    }
  }

  /** The exception is real: once a group is exiting nothing is flushed any more, so a stop signal
      and SIGCONT sent one after the other are pending together. */
  method StopThenContinueWhileExiting(g: Group)
    requires g.Valid() && g.groupExit
    modifies g, g.sets
    ensures g.Valid() && g.groupExit && !NoClash(g.Bits())
  {
    SendWhileExiting(g, 20);
    SendWhileExiting(g, SIGCONT);
    assert 20 in g.Bits()[0] * STOP_SIGNALS && SIGCONT in g.Bits()[0];
  }

  /** A group that was killed, stopped and continued, in this order. */
  method ExitingGroupClashes() returns (g: Group)
    ensures g.Valid() && g.groupExit && !NoClash(g.Bits())
  {
    g := new Group(1);
    var _ := g.SendSignal(15, NoInfo, 1, false, true, true);
    StopThenContinueWhileExiting(g);
  }
}
