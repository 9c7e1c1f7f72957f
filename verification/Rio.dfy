/** The buffered reader: a buffer in front of a descriptor whose read call hands out the stream in
    chunks of any size, may be interrupted, and may fail. */
module Rio {
  import opened Basics

  const RIO_BUFSIZE := 8192
  const NEWLINE := 10

  /** What one call of read does: gives some number of bytes, is interrupted, or fails. */
  datatype Event = Gives(n: nat) | Interrupted | Fails

  /** A descriptor: the bytes still to come, and how the coming read calls will go. */
  class Descriptor {
    var rest: seq<nat>
    var schedule: seq<Event>

    constructor (stream: seq<nat>, events: seq<Event>)
      ensures rest == stream && schedule == events
    {
      rest, schedule := stream, events;
    }

    /** read: at least one byte unless the stream is at its end; negative on interruption or failure. */
    method Read(buf: array<nat>, max: nat) returns (ret: int, interrupted: bool)
      requires 0 < max <= buf.Length
      modifies this, buf
      ensures |schedule| <= |old(schedule)| && (Fails in schedule ==> Fails in old(schedule))
      ensures ret < 0 ==> rest == old(rest) && old(schedule) != [] && |schedule| < |old(schedule)|
      ensures ret < 0 ==> (interrupted <==> old(schedule)[0] == Interrupted)
      ensures ret < 0 && !interrupted ==> Fails in old(schedule)
      ensures ret == 0 <==> old(rest) == [] && rest == [] && ret >= 0
      ensures ret > 0 ==> ret <= max && old(rest) == buf[..ret] + rest
    {
      ret, interrupted := max, false;
      if schedule != [] {
        var event := schedule[0];
        schedule := schedule[1..];
        if !event.Gives? {
          return -1, event.Interrupted?;
        }
        ret := Min(max, if event.n == 0 then 1 else event.n);
      }
      ret := Min(ret, |rest|);
      var i := 0;
      while i < ret
        modifies buf
        invariant 0 <= i <= ret
        invariant buf[..i] == rest[..i]
      {
        buf[i] := rest[i];
        i := i + 1;
      }
      rest := rest[ret..];
    }
  }

  /** memcpy between two buffers. */
  method Copy(dst: array<nat>, at: nat, src: array<nat>, from: nat, n: nat)
    requires dst != src && at + n <= dst.Length && from + n <= src.Length
    modifies dst
    ensures dst[at..at + n] == src[from..from + n]
    ensures forall k :: 0 <= k < dst.Length && !(at <= k < at + n) ==> dst[k] == old(dst[k])
  {
    var i := 0;
    while i < n
      invariant 0 <= i <= n
      invariant dst[at..at + i] == src[from..from + i]
      invariant forall k :: 0 <= k < dst.Length && !(at <= k < at + i) ==> dst[k] == old(dst[k])
    {
      dst[at + i] := src[from + i];
      i := i + 1;
    }
  }

  method Store(dst: array<nat>, at: nat, c: nat)
    requires at < dst.Length
    modifies dst
    ensures dst[..at] == old(dst[..at]) && dst[..at + 1] == old(dst[..at]) + [c] && dst[at] == c
  {
    dst[at] := c;
  }

  lemma SplitBuffered(b: seq<nat>, from: nat, n: nat, taken: nat, rest: seq<nat>)
    requires from + n <= |b| && taken <= n
    ensures b[from..from + n] + rest == b[from..from + taken] + ((if n > taken then b[from + taken..from + n] else []) + rest)
  {
  }

  lemma TakenOn(buf: seq<nat>, all: seq<nat>, got: nat, more: nat, rest: seq<nat>)
    requires got + more <= |buf| && all == buf[..got] + (buf[got..got + more] + rest)
    ensures all == buf[..got + more] + rest
  {
    assert buf[..got + more] == buf[..got] + buf[got..got + more];
  }

  lemma Extend(all: seq<nat>, line: seq<nat>, more: seq<nat>, rest: seq<nat>)
    requires all == line + (more + rest)
    ensures all == (line + more) + rest
  {
  }

  // ---- Lines ----

  /** The most characters of a line that fit before the terminator. */
  function Limit(maxlen: nat): nat { if maxlen == 0 then 0 else maxlen - 1 }

  /** The longest line: up to and with the first newline, or up to the end or the limit. */
  function LineLength(s: seq<nat>, limit: nat): (k: nat)
    ensures k <= limit && k <= |s|
    ensures forall i :: 0 <= i < k - 1 ==> s[i] != NEWLINE
    ensures k < limit && k < |s| ==> k > 0 && s[k - 1] == NEWLINE
  {
    if limit == 0 || s == [] then 0
    else if s[0] == NEWLINE then 1
    else 1 + LineLength(s[1..], limit - 1)
  }

  /** The count returned: the length of a line with its newline, one more than the length of a line
      cut short, and nothing at the end of the stream. */
  function LineCount(s: seq<nat>, maxlen: nat): nat {
    var k := LineLength(s, Limit(maxlen));
    if k > 0 && s[k - 1] == NEWLINE then k else if s == [] && maxlen > 1 then 0 else k + 1
  }

  predicate LineIs(s: seq<nat>, maxlen: nat, length: nat, count: int) {
    length == LineLength(s, Limit(maxlen)) && count == LineCount(s, maxlen)
  }

  lemma {:induction false} LineOf(s: seq<nat>, k: nat, limit: nat)
    requires k <= limit && k <= |s| && forall i :: 0 <= i < k - 1 ==> s[i] != NEWLINE
    requires k == limit || k == |s| || (k > 0 && s[k - 1] == NEWLINE)
    ensures LineLength(s, limit) == k
  {
    if k > 1 {
      LineOf(s[1..], k - 1, limit - 1);
    }
  }

  /** What a line read amounts to, in terms of the limit, the bytes taken and the bytes left. */
  lemma LineRead(all: seq<nat>, line: seq<nat>, rest: seq<nat>, maxlen: nat, n: int)
    requires all == line + rest && LineIs(all, maxlen, |line|, n)
    ensures maxlen > 1 ==>
              && |line| <= maxlen - 1
              && (|line| < maxlen - 1 ==> rest == [] || (line != [] && line[|line| - 1] == NEWLINE))
              && n == if line != [] && line[|line| - 1] == NEWLINE then |line| else if all == [] then 0 else |line| + 1
    ensures maxlen <= 1 ==> line == [] && n == 1
    ensures forall i :: 0 <= i < |line| - 1 ==> line[i] != NEWLINE
  {
    assert forall i :: 0 <= i < |line| ==> all[i] == line[i];
    assert |line| < |all| || rest == [];
  }

  /** The three ways a line ends, and the counts that go with them. */
  lemma LineDone(all: seq<nat>, line: seq<nat>, rest: seq<nat>, maxlen: nat, n: nat)
    requires all == line + rest && |line| <= Limit(maxlen) && forall i :: 0 <= i < |line| - 1 ==> line[i] != NEWLINE
    requires
      || (n == |line| > 0 && line[n - 1] == NEWLINE)
      || (n == |line| + 1 && (line == [] || line[n - 2] != NEWLINE) && (|line| == Limit(maxlen) || (line != [] && rest == [])))
      || (n == 0 == |line| && rest == [] && maxlen > 1)
    ensures LineIs(all, maxlen, |line|, n)
  {
    LineOf(all, |line|, Limit(maxlen));
  }

  class Reader {
    const fd: Descriptor
    var rioCnt: int
    var rioBufptr: nat
    const rioBuf: array<nat>
    /** The bytes not yet handed to the caller: what is buffered, then what is still to come. */
    ghost var unread: seq<nat>

    ghost predicate Valid()
      reads this, rioBuf, fd
    {
      && rioBuf.Length == RIO_BUFSIZE && (rioCnt > 0 ==> rioBufptr + rioCnt <= RIO_BUFSIZE)
      && unread == (if rioCnt > 0 then rioBuf[rioBufptr..rioBufptr + rioCnt] else []) + fd.rest
    }

    /** rio_readinitb. */
    constructor (d: Descriptor)
      ensures Valid() && unread == d.rest && fd == d && fresh(rioBuf)
    {
      fd := d;
      rioCnt := 0;
      rioBufptr := 0;
      rioBuf := new nat[RIO_BUFSIZE];
      unread := d.rest;
    }

    /** The refill loop of rio_read: until there is something buffered, or the stream is at its end,
        or read fails for another reason than an interruption. */
    method Refill() returns (ret: int)
      requires Valid()
      modifies this, rioBuf, fd
      ensures Valid() && unread == old(unread)
      ensures Fails in fd.schedule ==> Fails in old(fd.schedule)
      ensures ret > 0 ==> rioCnt > 0
      ensures ret == 0 ==> unread == []
      ensures ret < 0 ==> Fails in old(fd.schedule)
    {
      while rioCnt <= 0
        invariant Valid() && unread == old(unread)
        invariant Fails in fd.schedule ==> Fails in old(fd.schedule)
        decreases |fd.schedule|, rioCnt <= 0
      {
        var interrupted;
        rioCnt, interrupted := fd.Read(rioBuf, RIO_BUFSIZE);
        if rioCnt < 0 {
          if !interrupted {
            return -1;
          }
        } else if rioCnt == 0 {
          return 0;
        } else {
          rioBufptr := 0;
        }
      }
      ret := 1;
    }

    /** The second half of rio_read: bytes move from the internal buffer to the caller's. */
    method TakeBuffered(usrbuf: array<nat>, at: nat, cnt: nat)
      requires Valid() && 0 < cnt <= rioCnt && at + cnt <= usrbuf.Length && usrbuf != rioBuf
      modifies this`rioBufptr, this`rioCnt, this`unread, usrbuf
      ensures Valid() && old(unread) == usrbuf[at..at + cnt] + unread && usrbuf[..at] == old(usrbuf[..at])
      ensures forall k :: 0 <= k < usrbuf.Length && !(at <= k < at + cnt) ==> usrbuf[k] == old(usrbuf[k])
    {
      Copy(usrbuf, at, rioBuf, rioBufptr, cnt);
      assert usrbuf[at..at + cnt] == rioBuf[rioBufptr..rioBufptr + cnt];
      unread := (if rioCnt > cnt then rioBuf[rioBufptr + cnt..rioBufptr + rioCnt] else []) + fd.rest;
      SplitBuffered(rioBuf[..], rioBufptr, rioCnt, cnt, fd.rest);
      rioBufptr := rioBufptr + cnt;
      rioCnt := rioCnt - cnt;
    }

    /** rio_read: some of the next bytes, and none only at the end of the stream or on failure. */
    method RioRead(usrbuf: array<nat>, at: nat, n: nat) returns (cnt: int)
      requires Valid() && n > 0 && at + n <= usrbuf.Length && usrbuf != rioBuf
      modifies this, rioBuf, fd, usrbuf
      ensures Valid() && cnt <= n && usrbuf[..at] == old(usrbuf[..at])
      ensures Fails in fd.schedule ==> Fails in old(fd.schedule)
      ensures forall k :: 0 <= k < usrbuf.Length && !(at <= k < at + cnt) ==> usrbuf[k] == old(usrbuf[k])
      ensures cnt > 0 ==> old(unread) == usrbuf[at..at + cnt] + unread
      ensures cnt <= 0 ==> unread == old(unread)
      ensures cnt == 0 ==> unread == []
      ensures cnt < 0 ==> Fails in old(fd.schedule)
    {
      var filled := Refill();
      if filled <= 0 {
        return filled;
      }
      cnt := n;
      if rioCnt < n {
        cnt := rioCnt;
      }
      TakeBuffered(usrbuf, at, cnt);
    }

    /** rio_readnb: exactly n bytes, or all there are before the end of the stream. Bytes taken
        before a failure are in the caller's buffer; none is lost or repeated. */
    method ReadN(usrbuf: array<nat>, n: nat) returns (ret: int, got: nat)
      requires Valid() && n <= usrbuf.Length && usrbuf != rioBuf
      modifies this, rioBuf, fd, usrbuf
      ensures Valid() && got <= n && old(unread) == usrbuf[..got] + unread
      ensures Fails in fd.schedule ==> Fails in old(fd.schedule)
      ensures ret == -1 || (ret == got && got == Min(n, |old(unread)|))
      ensures ret == -1 ==> Fails in old(fd.schedule)
    {
      var nleft := n;
      got := 0;
      while nleft > 0
        invariant Valid() && nleft + got == n && 0 <= nleft && old(unread) == usrbuf[..got] + unread
        invariant Fails in fd.schedule ==> Fails in old(fd.schedule)
      {
        var nread := RioRead(usrbuf, n - nleft, nleft);
        if nread < 0 {
          return -1, got;
        } else if nread == 0 {
          break;
        }
        TakenOn(usrbuf[..], old(unread), got, nread, unread);
        nleft := nleft - nread;
        got := got + nread;
      }
      ret := n - nleft;
    }

    /** One character through rio_read. */
    method ReadByte() returns (rc: int, c: nat)
      requires Valid()
      modifies this, rioBuf, fd
      ensures Valid() && rc <= 1
      ensures Fails in fd.schedule ==> Fails in old(fd.schedule)
      ensures rc == 1 ==> old(unread) == [c] + unread
      ensures rc <= 0 ==> unread == old(unread)
      ensures rc == 0 ==> unread == []
      ensures rc < 0 ==> Fails in old(fd.schedule)
    {
      var cell := new nat[1];
      rc := RioRead(cell, 0, 1);
      c := cell[0];
      assert cell[0..1] == [c];
    }

    /** The loop of rio_readlineb, one byte at a time. */
    method ReadChars(usrbuf: array<nat>, maxlen: nat) returns (n: int, got: nat)
      requires Valid() && 0 < usrbuf.Length && maxlen <= usrbuf.Length && usrbuf != rioBuf
      modifies this, rioBuf, fd, usrbuf
      ensures Valid() && got <= Limit(maxlen) && old(unread) == usrbuf[..got] + unread
      ensures Fails in fd.schedule ==> Fails in old(fd.schedule)
      ensures if n == -1 then Fails in old(fd.schedule) else LineIs(old(unread), maxlen, got, n)
    {
      ghost var all := unread;
      n := 1;
      got := 0;
      while n < maxlen
        invariant Valid() && 1 <= n && (n == 1 || n <= maxlen) && got == n - 1
        invariant all == usrbuf[..got] + unread
        invariant forall k :: 0 <= k < got ==> usrbuf[k] != NEWLINE
        invariant Fails in fd.schedule ==> Fails in old(fd.schedule)
      {
        var rc, c := ReadByte();
        if rc == 1 {
          Extend(all, usrbuf[..got], [c], unread);
          Store(usrbuf, got, c);
          got := got + 1;
          if c == NEWLINE {
            break;
          }
        } else if rc == 0 {
          if n == 1 {
            n := 0;
          }
          break;
        } else {
          return -1, got;
        }
        n := n + 1;
      }
      LineDone(all, usrbuf[..got], unread, maxlen, n);
    }

    /** rio_readlineb: the line, with a terminator behind it. */
    method ReadLine(usrbuf: array<nat>, maxlen: nat) returns (ret: int, got: nat)
      requires Valid() && 0 < usrbuf.Length && maxlen <= usrbuf.Length && usrbuf != rioBuf
      modifies this, rioBuf, fd, usrbuf
      ensures Valid() && got <= Limit(maxlen) && old(unread) == usrbuf[..got] + unread
      ensures Fails in fd.schedule ==> Fails in old(fd.schedule)
      ensures if ret == -1 then Fails in old(fd.schedule) else LineIs(old(unread), maxlen, got, ret)
      ensures ret > 0 ==> usrbuf[got] == 0
      ensures ret != -1 ==> forall i :: 0 <= i < got - 1 ==> usrbuf[i] != NEWLINE
      ensures ret != -1 && maxlen > 1 ==>
                got <= maxlen - 1 && (got < maxlen - 1 ==> unread == [] || (got > 0 && usrbuf[got - 1] == NEWLINE))
      ensures ret != -1 && maxlen <= 1 ==> got == 0 && ret == 1
      ensures ret != -1 && maxlen > 1 ==>
                ret == if got > 0 && usrbuf[got - 1] == NEWLINE then got else if old(unread) == [] then 0 else got + 1
    {
      ghost var all := unread;
      ret, got := ReadChars(usrbuf, maxlen);
      if ret != -1 {
        LineRead(all, usrbuf[..got], unread, maxlen, ret);
      }
      if ret > 0 {
        Store(usrbuf, got, 0);
      }
    }
  }

  // ---- Sequences of calls ----

  datatype Call = ReadN(n: nat) | ReadLine(maxlen: nat)

  datatype Result = Result(bytes: seq<nat>, count: int)

  /** The number of bytes a call takes off the front of the stream. */
  function Length(s: seq<nat>, c: Call): (k: nat)
    ensures k <= |s|
  {
    match c
    case ReadN(n) => Min(n, |s|)
    case ReadLine(maxlen) => LineLength(s, Limit(maxlen))
  }

  /** What a series of calls returns, as a function of the stream alone. */
  function Answers(s: seq<nat>, calls: seq<Call>): seq<Result>
  {
    if calls == [] then []
    else
      var k := Length(s, calls[0]);
      [Result(s[..k], if calls[0].ReadN? then k else LineCount(s, calls[0].maxlen))] + Answers(s[k..], calls[1..])
  }

  function Joined(answers: seq<Result>): seq<nat> {
    if answers == [] then [] else answers[0].bytes + Joined(answers[1..])
  }

  lemma PrefixOn(s: seq<nat>, k: nat, more: seq<nat>)
    requires k <= |s| && more <= s[k..]
    ensures s[..k] + more <= s
  {
    assert s == s[..k] + s[k..];
  }

  /** The answers, put together, are the stream from its start: consecutive slices. */
  lemma {:induction false} AnswersAreSlices(s: seq<nat>, calls: seq<Call>)
    ensures Joined(Answers(s, calls)) <= s && |Answers(s, calls)| == |calls|
  {
    if calls != [] {
      var k := Length(s, calls[0]);
      AnswersAreSlices(s[k..], calls[1..]);
      var a := Answers(s, calls);
      assert a[1..] == Answers(s[k..], calls[1..]);
      PrefixOn(s, k, Joined(a[1..]));
    }
  }

  /** One call on a reader whose descriptor does not fail: the answer depends on the stream alone. */
  method Perform(r: Reader, c: Call) returns (answer: Result)
    requires r.Valid() && Fails !in r.fd.schedule
    modifies r, r.rioBuf, r.fd
    ensures r.Valid() && Fails !in r.fd.schedule
    ensures var k := Length(old(r.unread), c);
            && r.unread == old(r.unread)[k..] && answer.bytes == old(r.unread)[..k]
            && answer.count == if c.ReadN? then k else LineCount(old(r.unread), c.maxlen)
  {
    ghost var all := r.unread;
    var usrbuf := new nat[if c.ReadN? then c.n else c.maxlen + 1];
    var ret, got;
    if c.ReadN? {
      ret, got := r.ReadN(usrbuf, c.n);
    } else {
      ret, got := r.ReadLine(usrbuf, c.maxlen);
    }
    assert all[..got] == usrbuf[..got] && all[got..] == r.unread;
    answer := Result(usrbuf[..got], ret);
  }

  /** Any sequence of calls gets the same answers however read chunks the stream and however often
      it is interrupted. */
  method PerformAll(r: Reader, calls: seq<Call>) returns (answers: seq<Result>)
    requires r.Valid() && Fails !in r.fd.schedule
    modifies r, r.rioBuf, r.fd
    ensures r.Valid() && answers == Answers(old(r.unread), calls)
  {
    answers := [];
    if calls != [] {
      var first := Perform(r, calls[0]);
      var others := PerformAll(r, calls[1..]);
      answers := [first] + others;
    }
  }
}
