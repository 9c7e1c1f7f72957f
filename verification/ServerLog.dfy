/** The server log object: the lock's counters and the growing buffer. Every method that is a
    critical section is proved to be the step of the transition system with the same name. */
module ServerLog {
  import opened LogProtocol

  const INITIAL_CAPACITY := 1024

  class Log {
    var buffer: array<nat>
    var length: nat
    var capacity: nat
    var readers: int
    var waitingWriters: int
    var writers: int

    /** The buffer has its stated capacity, and a terminator follows the text inside it. */
    ghost predicate Valid()
      reads this, buffer
    {
      length < capacity == buffer.Length && buffer[length] == 0
    }

    ghost function Content(): Bytes
      reads this, buffer
      requires Valid()
    {
      buffer[..length]
    }

    ghost predicate CountersMatch(s: State)
      reads this
    {
      readers == s.readers && waitingWriters == s.waiting && writers == s.writers
    }

    /** The object's counters and text are those of a protocol state with nobody appending. */
    ghost predicate Matches(s: State)
      reads this, buffer
    {
      && Valid() && CountersMatch(s)
      && Content() == s.content.bytes
    }

    constructor (ghost threads: nat)
      ensures Matches(Start(threads)) && fresh(buffer)
    {
      buffer := new nat[INITIAL_CAPACITY];
      length := 0;
      capacity := INITIAL_CAPACITY;
      readers := 0;
      waitingWriters := 0;
      writers := 0;
      new;
      buffer[0] := 0;
    }

    /** One pass of the loop in reader_lock: the caller either sleeps or is counted in. */
    method ReaderTest(ghost s: State, ghost t: nat) returns (sleeps: bool)
      requires Enabled(s, LogProtocol.ReaderTest(t)) && Matches(s)
      modifies this`readers
      ensures Matches(Apply(s, LogProtocol.ReaderTest(t)))
      ensures sleeps == Apply(s, LogProtocol.ReaderTest(t)).phase[t].ReaderAsleep?
    {
      sleeps := writers > 0 || waitingWriters > 0;
      if !sleeps {
        readers := readers + 1;
      }
    }

    /** The last reader out signals the writers. */
    method ReaderUnlock(ghost s: State, ghost t: nat, ghost woken: set<nat>) returns (signal: bool)
      requires Enabled(s, LogProtocol.ReaderUnlock(t, woken)) && Matches(s)
      modifies this`readers
      ensures Matches(Apply(s, LogProtocol.ReaderUnlock(t, woken)))
      ensures signal <==> readers == 0
      ensures if signal then Signalled(Take(s.phase).asleepWriters, woken) else woken == {}
    {
      readers := readers - 1;
      signal := readers == 0;
    }

    /** The loop test of writer_lock, and what follows the loop. */
    method WriterTest(ghost s: State, ghost t: nat, ghost entry: Bytes) returns (sleeps: bool)
      requires t < |s.phase| && Matches(s)
      modifies this`waitingWriters, this`writers
      ensures Matches(WriterTested(s, t, entry))
      ensures sleeps == WriterTested(s, t, entry).phase[t].WriterAsleep?
    {
      sleeps := readers > 0 || writers > 0;
      if !sleeps {
        waitingWriters := waitingWriters - 1;
        writers := 1;
      }
    }

    method WriterArrive(ghost s: State, ghost t: nat, ghost entry: Bytes) returns (sleeps: bool)
      requires Enabled(s, LogProtocol.WriterArrive(t, entry)) && Matches(s)
      modifies this`waitingWriters, this`writers
      ensures Matches(Apply(s, LogProtocol.WriterArrive(t, entry)))
      ensures sleeps == Apply(s, LogProtocol.WriterArrive(t, entry)).phase[t].WriterAsleep?
    {
      waitingWriters := waitingWriters + 1;
      sleeps := WriterTest(s.(waiting := s.waiting + 1), t, entry);
    }

    /** A leaving writer signals the next writer if one is waiting, and otherwise wakes all readers. */
    method WriterUnlock(ghost s: State, ghost t: nat, ghost woken: set<nat>) returns (signal: bool)
      requires Enabled(s, LogProtocol.WriterUnlock(t, woken)) && Matches(s)
      modifies this`writers
      ensures Matches(Apply(s, LogProtocol.WriterUnlock(t, woken)))
      ensures signal <==> waitingWriters > 0
      ensures if signal then Signalled(Take(s.phase).asleepWriters, woken) else woken == Take(s.phase).asleepReaders
    {
      writers := 0;
      signal := waitingWriters > 0;
    }

    /** The body of get_log between the locks: the copy has the terminator too. */
    method CopyOut() returns (dst: array<nat>, len: nat)
      requires Valid()
      ensures fresh(dst) && dst.Length == len + 1 && dst[..len] == Content() && dst[len] == 0
    {
      dst := new nat[length + 1];
      var i := 0;
      while i < length + 1
        invariant 0 <= i <= length + 1
        invariant forall k :: 0 <= k < i ==> dst[k] == buffer[k]
      {
        dst[i] := buffer[i];
        i := i + 1;
      }
      len := length;
    }

    /** realloc: the bytes that fit are kept. */
    static method Resized(a: array<nat>, n: nat) returns (b: array<nat>)
      requires a.Length <= n
      ensures fresh(b) && b.Length == n && b[..a.Length] == a[..]
    {
      b := new nat[n];
      var i := 0;
      while i < a.Length
        invariant 0 <= i <= a.Length
        invariant forall k :: 0 <= k < i ==> b[k] == a[k]
      {
        b[i] := a[i];
        i := i + 1;
      }
    }

    /** Doubling until the entry and a terminator fit, then one reallocation; the text is kept. */
    method Reserve(len: nat)
      requires Valid()
      modifies this`capacity, this`buffer
      ensures Valid() && Content() == old(Content())
      ensures length + len + 1 < capacity
      ensures buffer == old(buffer) || fresh(buffer)
      ensures capacity == old(capacity) || capacity <= 2 * (length + len + 1)
    {
      if length + len + 1 >= capacity {
        while length + len + 1 >= capacity
          invariant old(capacity) <= capacity
          invariant length < old(capacity) == buffer.Length && buffer[length] == 0
          invariant capacity == old(capacity) || capacity <= 2 * (length + len + 1)
          invariant buffer == old(buffer)
          decreases 2 * (length + len + 1) - capacity
        {
          capacity := capacity * 2;
        }
        buffer := Resized(buffer, capacity);
      }
    }

    static lemma Joined(buf: seq<nat>, n: nat, text: seq<nat>, entry: seq<nat>, len: nat)
      requires n + len <= |buf| && len <= |entry| && buf[..n] == text
      requires forall k :: 0 <= k < len ==> buf[n + k] == entry[k]
      ensures buf[..n + len] == text + entry[..len]
    {
      assert buf[n..n + len] == entry[..len];
      assert buf[..n + len] == buf[..n] + buf[n..n + len];
    }

    /** The body of add_to_log between the locks. */
    method Append(entry: array<nat>, len: nat)
      requires Valid() && len <= entry.Length && entry != buffer
      modifies this`capacity, this`buffer, this`length, buffer
      ensures Valid() && Content() == old(Content()) + old(entry[..len])
      ensures buffer == old(buffer) || fresh(buffer)
    {
      Reserve(len);
      var i := 0;
      while i < len
        modifies buffer
        invariant 0 <= i <= len
        invariant length + len + 1 < capacity == buffer.Length
        invariant forall k :: 0 <= k < i ==> buffer[length + k] == entry[k]
        invariant buffer[..length] == old(Content())
        invariant entry[..] == old(entry[..])
      {
        buffer[length + i] := entry[i];
        i := i + 1;
      }
      ghost var text := old(Content());
      Joined(buffer[..], length, text, entry[..], len);
      length := length + len;
      buffer[length] := 0;
      assert buffer[..length] == text + old(entry[..len]);
    }

    /** Appending under the lock is the pair of append steps of the protocol. */
    method AddEntry(entry: array<nat>, len: nat, ghost s: State, ghost t: nat)
      requires Inv(s) && Enabled(s, AppendStart(t)) && Matches(s)
      requires len <= entry.Length && entry != buffer && entry[..len] == s.phase[t].entry
      modifies this`capacity, this`buffer, this`length, buffer
      ensures Run(s, [AppendStart(t), AppendEnd(t)])
      ensures Matches(Final(s, [AppendStart(t), AppendEnd(t)]))
    {
      Append(entry, len);
      RunOne(Apply(s, AppendStart(t)), AppendEnd(t), []);
      RunOne(s, AppendStart(t), [AppendEnd(t)]);
    }

    /** Copying under the lock hands out exactly the finished entries. */
    method Snapshot(ghost s: State, ghost t: nat) returns (dst: array<nat>, len: nat)
      requires Inv(s) && Enabled(s, CopyStart(t)) && Matches(s)
      ensures fresh(dst) && dst.Length == len + 1 && dst[len] == 0
      ensures dst[..len] == Flatten(s.history)
      ensures Run(s, [CopyStart(t), CopyEnd(t)]) && Matches(Final(s, [CopyStart(t), CopyEnd(t)]))
      ensures Final(s, [CopyStart(t), CopyEnd(t)]) == s.(phase := s.phase[t := Copied(Stable(dst[..len]))])
    {
      dst, len := CopyOut();
      WholeInside(s, t);
      RunOne(Apply(s, CopyStart(t)), CopyEnd(t), []);
      RunOne(s, CopyStart(t), [CopyEnd(t)]);
    }
  }
}
