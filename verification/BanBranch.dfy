/** Per-task syscall bans, and the call that flips one ban on the nearest ancestors of its caller. */
module BanBranch {
  const EPERM := 1
  const ESRCH := 3
  const EINVAL := 22
  const GETPID: bv8 := 1
  const PIPE: bv8 := 2
  const KILL: bv8 := 4

  class Task {
    var bannedSignals: bv8
    const realParent: Task?
    ghost const depth: nat

    constructor Root()
      ensures realParent == this && depth == 0 && bannedSignals == 0
    {
      bannedSignals, realParent, depth := 0, this, 0;
    }

    constructor Child(parent: Task)
      ensures realParent == parent && depth == parent.depth + 1 && bannedSignals == 0
    {
      bannedSignals, realParent, depth := 0, parent, parent.depth + 1;
    }
  }

  ghost predicate Rooted(t: Task, tasks: set<Task>) {
    && t.realParent != null && t.realParent in tasks
    && (t.depth == 0 <==> t.realParent == t)
    && (t.depth > 0 ==> t.realParent.depth == t.depth - 1)
  }

  /** A set of tasks closed under parents, whose parent chains end in a task that is its own parent. */
  ghost predicate Forest(tasks: set<Task>) {
    forall t {:trigger Rooted(t, tasks)} :: t in tasks ==> Rooted(t, tasks)
  }

  /** The bit of a ban letter, or none. */
  function Bit(ban: char): (sig: bv8)
    ensures sig in {0, GETPID, PIPE, KILL}
  {
    match ban
    case 'g' => GETPID
    case 'p' => PIPE
    case 'k' => KILL
    case _ => 0
  }

  predicate Banned(b: bv8, sig: bv8) { b & sig != 0 }

  /** The k-th ancestor. */
  ghost function Up(tasks: set<Task>, t: Task, k: nat): (a: Task)
    requires Forest(tasks) && t in tasks && k <= t.depth
    ensures a in tasks && a.depth == t.depth - k
  {
    if k == 0 then t
    else
      var below := Up(tasks, t, k - 1);
      assert Rooted(below, tasks);
      below.realParent
  }

  /** The tasks a flip of the given height visits: the nearest ancestors, as many as there are. */
  ghost function Branch(tasks: set<Task>, t: Task, height: nat): (b: seq<Task>)
    requires Forest(tasks) && t in tasks
    ensures |b| == if t.depth < height then t.depth else height
  {
    seq(if t.depth < height then t.depth else height, i requires 0 <= i < t.depth => Up(tasks, t, i + 1))
  }

  // ---- Counting ----

  /** The bans of some tasks, in order. */
  ghost function Bans(ts: seq<Task>): (b: seq<bv8>)
    reads ts
    ensures |b| == |ts| && forall i :: 0 <= i < |ts| ==> b[i] == ts[i].bannedSignals
  {
    seq(|ts|, i requires 0 <= i < |ts| reads ts => ts[i].bannedSignals)
  }

  /** How many of them lack one ban. */
  ghost function Free(bans: seq<bv8>, sig: bv8): nat {
    if bans == [] then 0 else Free(bans[..|bans| - 1], sig) + if Banned(bans[|bans| - 1], sig) then 0 else 1
  }

  lemma FlipBit(b: bv8, sig: bv8)
    requires sig in {GETPID, PIPE, KILL}
    ensures !Banned(b, sig) ==> b | sig == b ^ sig && Banned(b | sig, sig)
    ensures Banned(b, sig) ==> b & !sig == b ^ sig && !Banned(b & !sig, sig)
    ensures (b ^ sig) ^ sig == b
    ensures forall other | other in {GETPID, PIPE, KILL} && other != sig :: Banned(b ^ sig, other) == Banned(b, other)
  {
  }

  /** After a toggle the free and the banned have changed places. */
  lemma {:induction false} FreeToggled(bans: seq<bv8>, toggled: seq<bv8>, sig: bv8)
    requires sig in {GETPID, PIPE, KILL} && |toggled| == |bans|
    requires forall i :: 0 <= i < |bans| ==> toggled[i] == bans[i] ^ sig
    ensures Free(bans, sig) + Free(toggled, sig) == |bans|
  {
    if bans != [] {
      var n := |bans| - 1;
      FreeToggled(bans[..n], toggled[..n], sig);
      FlipBit(bans[n], sig);
    }
  }

  lemma FreeStep(bans: seq<bv8>, i: nat, sig: bv8)
    requires i < |bans|
    ensures Free(bans[..i + 1], sig) == Free(bans[..i], sig) + if Banned(bans[i], sig) then 0 else 1
  {
    assert bans[..i + 1][..i] == bans[..i];
  }

  ghost function Members(ts: seq<Task>): set<Task> {
    set t | t in ts
  }

  /** Exactly the tasks given have had the one bit toggled. */
  twostate predicate Flipped(ts: set<Task>, tasks: set<Task>, sig: bv8)
    reads tasks
  {
    forall t :: t in tasks ==> t.bannedSignals == if t in ts then old(t.bannedSignals) ^ sig else old(t.bannedSignals)
  }

  // ---- The calls ----

  /** The tasks the loop visits: the branch, or the caller itself if it is a root. */
  ghost function Visited(tasks: set<Task>, current: Task, height: int): seq<Task>
    requires Forest(tasks) && current in tasks
  {
    if height <= 0 then [] else if current.depth == 0 then [current] else Branch(tasks, current, height)
  }

  ghost predicate ParentNext(v: seq<Task>, i: nat)
    requires i < |v| - 1
  {
    v[i].realParent == v[i + 1]
  }

  /** The visited tasks are a chain of parents without repetition, ending at a root if it is short. */
  ghost predicate IsChain(v: seq<Task>, tasks: set<Task>, first: Task?, height: nat) {
    && 0 < |v| <= height && v[0] == first
    && (forall i :: 0 <= i < |v| ==> v[i] in tasks)
    && (forall i, j :: 0 <= i < j < |v| ==> v[i] != v[j])
    && (forall i :: 0 <= i < |v| - 1 ==> ParentNext(v, i))
    && (|v| < height ==> v[|v| - 1].realParent == v[|v| - 1])
  }

  lemma VisitedChain(tasks: set<Task>, current: Task, height: nat)
    requires Forest(tasks) && current in tasks && height > 0
    ensures IsChain(Visited(tasks, current, height), tasks, current.realParent, height)
  {
    var v := Visited(tasks, current, height);
    assert Rooted(current, tasks);
    if current.depth > 0 {
      assert Up(tasks, current, 0) == current;
      forall i: nat | i < |v|
        ensures v[i] == Up(tasks, current, i + 1) && v[i] in tasks && v[i].depth == current.depth - (i + 1)
      {
      }
      forall i: nat | i < |v| - 1
        ensures ParentNext(v, i)
      {
        assert Up(tasks, current, i + 2) == Up(tasks, current, i + 1).realParent;
      }
      assert Rooted(v[|v| - 1], tasks);
    }
  }

  method Toggle(t: Task, sig: bv8) returns (set_: bool)
    requires sig in {GETPID, PIPE, KILL}
    modifies t
    ensures t.bannedSignals == old(t.bannedSignals) ^ sig && set_ == !Banned(old(t.bannedSignals), sig)
  {
    FlipBit(t.bannedSignals, sig);
    set_ := !Banned(t.bannedSignals, sig);
    if set_ {
      t.bannedSignals := t.bannedSignals | sig;
    } else {
      t.bannedSignals := t.bannedSignals & !sig;
    }
  }

  lemma ChainStep(v: seq<Task>, tasks: set<Task>, first: Task?, height: nat, i: nat)
    requires Forest(tasks) && IsChain(v, tasks, first, height) && i < |v|
    ensures v[i].realParent != null && (v[i].realParent == v[i] ==> i == |v| - 1)
    ensures v[i].realParent != v[i] ==> if i < |v| - 1 then v[i].realParent == v[i + 1] else i == height - 1
    ensures v[i] !in Members(v[..i]) && Members(v[..i + 1]) == Members(v[..i]) + {v[i]}
  {
    assert Rooted(v[i], tasks) && (i < |v| - 1 ==> ParentNext(v, i));
    assert v[..i + 1] == v[..i] + [v[i]];
  }

  /** The given tasks, and no others, have been toggled since the bans were recorded. */
  ghost predicate Since(was: map<Task, bv8>, done: set<Task>, tasks: set<Task>, sig: bv8)
    reads tasks
  {
    forall t :: t in tasks ==> t in was && t.bannedSignals == if t in done then was[t] ^ sig else was[t]
  }

  /** One round of the loop: the i-th task of the chain is toggled. */
  method Visit(t: Task, sig: bv8, ghost was: map<Task, bv8>, ghost tasks: set<Task>, ghost v: seq<Task>, ghost i: nat,
               ghost first: Task?, ghost top: nat)
    returns (added: bool)
    requires Forest(tasks) && IsChain(v, tasks, first, top) && i < |v| && t == v[i] && sig in {GETPID, PIPE, KILL}
    requires Since(was, Members(v[..i]), tasks, sig)
    modifies t
    ensures Since(was, Members(v[..i + 1]), tasks, sig) && added == !Banned(was[t], sig)
    ensures t.realParent == t ==> i == |v| - 1
    ensures t.realParent != t ==> t.realParent != null && if i < |v| - 1 then t.realParent == v[i + 1] else i == top - 1
  {
    ChainStep(v, tasks, first, top, i);
    added := Toggle(t, sig);
  }

  /** The loop, on the chain of tasks it visits; was and bans record the bans before it. */
  method FlipUp(first: Task?, top: int, sig: bv8, ghost tasks: set<Task>, ghost v: seq<Task>, ghost was: map<Task, bv8>,
                ghost bans: seq<bv8>)
    returns (count: int)
    requires Forest(tasks) && top > 0 && sig in {GETPID, PIPE, KILL} && IsChain(v, tasks, first, top)
    requires Since(was, {}, tasks, sig) && |bans| == |v| && forall k :: 0 <= k < |v| ==> bans[k] == was[v[k]]
    modifies tasks
    ensures Since(was, Members(v), tasks, sig)
    ensures count == Free(bans, sig)
  {
    var parent, height := first, top;
    count := 0;
    ghost var i := 0;
    while parent != null && height > 0
      invariant 0 <= i <= |v| && height == top - i && (i < |v| ==> parent == v[i]) && (i == |v| ==> height == 0)
      invariant Since(was, Members(v[..i]), tasks, sig)
      invariant count == Free(bans[..i], sig)
      decreases height
    {
      var added := Visit(parent, sig, was, tasks, v, i, first, top);
      FreeStep(bans, i, sig);
      if added {
        count := count + 1;
      }
      i := i + 1;
      if parent == parent.realParent {
        break;
      }
      parent := parent.realParent;
      height := height - 1;
    }
    assert v[..i] == v && bans[..i] == bans;
  }

  lemma Counted(v: seq<Task>, bans: seq<bv8>, sig: bv8)
    requires sig in {GETPID, PIPE, KILL} && |bans| == |v|
    requires forall i :: 0 <= i < |v| ==> v[i].bannedSignals == bans[i] ^ sig
    ensures Free(bans, sig) + Free(Bans(v), sig) == |v|
  {
    FreeToggled(bans, Bans(v), sig);
  }

  /** The loop, seen from before it. */
  method FlipChain(first: Task?, top: int, sig: bv8, ghost tasks: set<Task>, ghost v: seq<Task>) returns (count: int)
    requires Forest(tasks) && top > 0 && sig in {GETPID, PIPE, KILL} && IsChain(v, tasks, first, top)
    modifies tasks
    ensures Flipped(Members(v), tasks, sig) && count == Free(old(Bans(v)), sig)
    ensures count + Free(Bans(v), sig) == |v|
  {
    ghost var was, bans := map t | t in tasks :: t.bannedSignals, Bans(v);
    count := FlipUp(first, top, sig, tasks, v, was, bans);
    forall i | 0 <= i < |v|
      ensures v[i].bannedSignals == bans[i] ^ sig
    {
      assert v[i] in Members(v) && v[i] in tasks;
    }
    Counted(v, bans, sig);
  }

  /** sys_flip_ban_branch. From any task that does not have the ban itself, it toggles that one bit
      on exactly the nearest ancestors and on nothing else, and returns how many it set; a root, its
      own parent, toggles itself. */
  method FlipBanBranch(current: Task, height: int, ban: char, ghost tasks: set<Task>) returns (ret: int)
    requires Forest(tasks) && current in tasks
    modifies tasks
    ensures ret == -EINVAL <==> height <= 0 || Bit(ban) == 0
    ensures ret == -EPERM <==> height > 0 && Bit(ban) != 0 && old(Banned(current.bannedSignals, Bit(ban)))
    ensures ret < 0 ==> (ret == -EINVAL || ret == -EPERM) && Flipped({}, tasks, 0)
    ensures ret >= 0 ==>
              && Flipped(Members(Visited(tasks, current, height)), tasks, Bit(ban))
              && ret == Free(old(Bans(Visited(tasks, current, height))), Bit(ban))
              && ret + Free(Bans(Visited(tasks, current, height)), Bit(ban)) == |Visited(tasks, current, height)|
  {
    if height <= 0 {
      return -EINVAL;
    }
    var sig := Bit(ban);
    if sig == 0 {
      return -EINVAL;
    }
    if Banned(current.bannedSignals, sig) {
      return -EPERM;
    }
    VisitedChain(tasks, current, height);
    ret := FlipChain(current.realParent, height, sig, tasks, Visited(tasks, current, height));
  }

  /** A caller that is not a root is not among its own ancestors. */
  lemma CallerOutside(tasks: set<Task>, current: Task, height: nat)
    requires Forest(tasks) && current in tasks && height > 0
    ensures current in Members(Visited(tasks, current, height)) <==> current.depth == 0
  {
    var v := Visited(tasks, current, height);
    forall i | 0 <= i < |v|
      ensures current.depth > 0 ==> v[i] != current
    {
      assert current.depth > 0 ==> v[i] == Up(tasks, current, i + 1);
    }
  }

  /** After a flip that succeeds, the visited tasks it did not set are those a second one would; and
      the caller has banned itself only if it is a root. */
  method FlipOnce(current: Task, height: int, ban: char, ghost tasks: set<Task>) returns (ret: int)
    requires Forest(tasks) && current in tasks
    modifies tasks
    ensures ret < 0 ==> height <= 0 || Bit(ban) == 0 || Banned(current.bannedSignals, Bit(ban))
    ensures ret < 0 ==> (ret == -EINVAL <==> height <= 0 || Bit(ban) == 0) && Flipped({}, tasks, 0)
    ensures ret >= 0 ==>
              && Bit(ban) != 0 && height > 0 && Flipped(Members(Visited(tasks, current, height)), tasks, Bit(ban))
              && ret + Free(Bans(Visited(tasks, current, height)), Bit(ban)) == |Visited(tasks, current, height)|
              && (Banned(current.bannedSignals, Bit(ban)) <==> current.depth == 0)
  {
    ret := FlipBanBranch(current, height, ban, tasks);
    if ret >= 0 {
      CallerOutside(tasks, current, height);
      FlipBit(old(current.bannedSignals), Bit(ban));
    }
  }

  /** Flipping twice: for any caller but a root the second identical call succeeds too and puts
      everything back, and together the two counts are the number of ancestors visited. A root bans
      itself with the first call, so the second is refused and nothing is put back. */
  method FlipTwice(current: Task, height: int, ban: char, ghost tasks: set<Task>) returns (first: int, second: int)
    requires Forest(tasks) && current in tasks
    modifies tasks
    ensures first >= 0 && current.depth > 0 ==>
              && (forall t :: t in tasks ==> t.bannedSignals == old(t.bannedSignals))
              && second >= 0 && first + second == if current.depth < height then current.depth else height
    ensures first >= 0 && current.depth == 0 ==> second == -EPERM && Flipped({current}, tasks, Bit(ban))
    ensures first < 0 ==> second < 0 && Flipped({}, tasks, 0)
  {
    first := FlipOnce(current, height, ban, tasks);
    if first >= 0 && current.depth == 0 {
      assert Members(Visited(tasks, current, height)) == {current};
    }
    label L:
    second := FlipBanBranch(current, height, ban, tasks);
    if second >= 0 {
      forall t | t in tasks
        ensures t.bannedSignals == (old@L(t.bannedSignals)) ^ Bit(ban) || t.bannedSignals == old@L(t.bannedSignals)
      {
        FlipBit(old(t.bannedSignals), Bit(ban));
      }
    }
  }

  /** What a ban letter means in terms of the three bits: exactly the letter's own bit is toggled. */
  lemma ToggledBan(b: bv8, ban: char)
    requires ban in {'g', 'p', 'k'}
    ensures Banned(b ^ Bit(ban), GETPID) == if ban == 'g' then !Banned(b, GETPID) else Banned(b, GETPID)
    ensures Banned(b ^ Bit(ban), PIPE) == if ban == 'p' then !Banned(b, PIPE) else Banned(b, PIPE)
    ensures Banned(b ^ Bit(ban), KILL) == if ban == 'k' then !Banned(b, KILL) else Banned(b, KILL)
    ensures Banned(b, Bit(ban)) == Banned(b, if ban == 'g' then GETPID else if ban == 'p' then PIPE else KILL)
  {
    FlipBit(b, Bit(ban));
  }

  /** The call in terms of its letter: the getpid, pipe or kill ban of exactly the visited tasks changes
      to its opposite, and no other ban of any task. */
  method FlipLetter(current: Task, height: int, ban: char, ghost tasks: set<Task>) returns (ret: int)
    requires Forest(tasks) && current in tasks
    modifies tasks
    ensures ret == -EINVAL <==> height <= 0 || ban !in {'g', 'p', 'k'}
    ensures ret == -EPERM <==>
              && height > 0 && ban in {'g', 'p', 'k'}
              && old(Banned(current.bannedSignals, if ban == 'g' then GETPID else if ban == 'p' then PIPE else KILL))
    ensures ret < 0 ==> forall t :: t in tasks ==> t.bannedSignals == old(t.bannedSignals)
    ensures ret >= 0 ==>
              forall t :: t in tasks ==>
                && Banned(t.bannedSignals, GETPID) ==
                   (old(Banned(t.bannedSignals, GETPID)) != (ban == 'g' && t in Visited(tasks, current, height)))
                && Banned(t.bannedSignals, PIPE) ==
                   (old(Banned(t.bannedSignals, PIPE)) != (ban == 'p' && t in Visited(tasks, current, height)))
                && Banned(t.bannedSignals, KILL) ==
                   (old(Banned(t.bannedSignals, KILL)) != (ban == 'k' && t in Visited(tasks, current, height)))
  {
    ghost var v := Visited(tasks, current, height);
    if ban in {'g', 'p', 'k'} {
      ToggledBan(current.bannedSignals, ban);
    }
    ret := FlipBanBranch(current, height, ban, tasks);
    if ret >= 0 {
      forall t | t in tasks
        ensures Banned(t.bannedSignals, GETPID) == (old(Banned(t.bannedSignals, GETPID)) != (ban == 'g' && t in v))
        ensures Banned(t.bannedSignals, PIPE) == (old(Banned(t.bannedSignals, PIPE)) != (ban == 'p' && t in v))
        ensures Banned(t.bannedSignals, KILL) == (old(Banned(t.bannedSignals, KILL)) != (ban == 'k' && t in v))
      {
        ToggledBan(old(t.bannedSignals), ban);
        assert t in Members(v) <==> t in v;
      }
    }
  }

  // ---- The observers ----

  /** sys_get_ban. */
  function GetBan(current: Task, ban: char): (ret: int)
    reads current
    ensures ret == 1 <==> Bit(ban) != 0 && Banned(current.bannedSignals, Bit(ban))
    ensures ban == 'g' ==> ret == if current.bannedSignals & 1 != 0 then 1 else 0
    ensures ban == 'p' ==> ret == if current.bannedSignals & 2 != 0 then 1 else 0
    ensures ban == 'k' ==> ret == if current.bannedSignals & 4 != 0 then 1 else 0
    ensures ban !in {'g', 'p', 'k'} ==> ret == -EINVAL
    ensures ret in {0, 1, -EINVAL}
  {
    if Bit(ban) == 0 then -EINVAL else if current.bannedSignals & Bit(ban) != 0 then 1 else 0
  }

  /** sys_set_ban: the caller's own bans are replaced as a whole. */
  method SetBan(current: Task, getpid: int, pipe: int, kill: int, euid: nat) returns (ret: int)
    modifies current
    ensures ret == if getpid < 0 || pipe < 0 || kill < 0 then -EINVAL else if euid != 0 then -EPERM else 0
    ensures ret < 0 ==> current.bannedSignals == old(current.bannedSignals)
    ensures ret == 0 ==>
              && (Banned(current.bannedSignals, GETPID) <==> getpid > 0)
              && (Banned(current.bannedSignals, PIPE) <==> pipe > 0)
              && (Banned(current.bannedSignals, KILL) <==> kill > 0)
    ensures ret == 0 ==>
              && (GetBan(current, 'g') == 1 <==> getpid > 0)
              && (GetBan(current, 'p') == 1 <==> pipe > 0)
              && (GetBan(current, 'k') == 1 <==> kill > 0)
  {
    if getpid < 0 || pipe < 0 || kill < 0 {
      return -EINVAL;
    }
    if euid != 0 {
      return -EPERM;
    }
    current.bannedSignals := 0;
    if getpid > 0 {
      current.bannedSignals := current.bannedSignals | GETPID;
    }
    if pipe > 0 {
      current.bannedSignals := current.bannedSignals | PIPE;
    }
    if kill > 0 {
      current.bannedSignals := current.bannedSignals | KILL;
    }
    ret := 0;
  }

  /** sys_check_ban, given the task that the identifier names, if any. */
  function CheckBan(current: Task, other: Task?, ban: char): (ret: int)
    reads current, other
    ensures ret >= 0 ==> other != null && GetBan(current, ban) == 0 && ret == GetBan(other, ban)
    ensures ret == -EINVAL <==> ban !in {'g', 'p', 'k'}
    ensures ret == -ESRCH <==> ban in {'g', 'p', 'k'} && other == null
    ensures ret == -EPERM <==> other != null && GetBan(current, ban) == 1
  {
    var sig := Bit(ban);
    if sig == 0 then -EINVAL
    else if other == null then -ESRCH
    else if current.bannedSignals & sig != 0 then -EPERM
    else if other.bannedSignals & sig != 0 then 1 else 0
  }
}
