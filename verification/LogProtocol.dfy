/** The writer-priority reader-writer lock of the server log, as a transition system over any
    number of threads. Each critical section of the mutex is one step; a thread that waits on a
    condition variable is asleep until a signal, a broadcast or a spurious wake-up, and then tests
    its condition again. Copying and appending each take two steps and ask nothing of the lock, so an
    overlap would leave a torn copy or lose an entry. */
module LogProtocol {
  import opened Basics

  type Bytes = seq<nat>

  /** The log's bytes; Torn, with the last whole text, while an append is under way. */
  datatype Content = Stable(bytes: Bytes) | Torn(bytes: Bytes)

  /** A copy remembers what it found at its start, and an append the text it found. */
  datatype Phase =
    | Idle
    | ReaderAsleep | ReaderAwake
    | Reading | Copying(start: Content) | Copied(result: Content)
    | WriterAsleep(entry: Bytes) | WriterAwake(entry: Bytes)
    | Writing(entry: Bytes) | Appending(entry: Bytes, found: Bytes) | Appended
  {
    predicate ActiveReader() { Reading? || Copying? || Copied? }
    predicate ActiveWriter() { Writing? || Appending? || Appended? }
    predicate WaitingWriter() { WriterAsleep? || WriterAwake? }
    predicate Asleep() { ReaderAsleep? || WriterAsleep? }
  }

  /** The lock's three counters, every thread's phase, the log, and two histories: the entries in
      the order their writers got the lock, and those whose append is complete. */
  datatype State = State(readers: int, waiting: int, writers: int, phase: seq<Phase>,
                         content: Content, acquired: seq<Bytes>, history: seq<Bytes>)

  datatype Step =
    | ReaderTest(t: nat)
    | CopyStart(t: nat) | CopyEnd(t: nat)
    | ReaderUnlock(t: nat, woken: set<nat>)
    | WriterArrive(t: nat, entry: Bytes)
    | WriterTest(t: nat)
    | AppendStart(t: nat) | AppendEnd(t: nat)
    | WriterUnlock(t: nat, woken: set<nat>)
    | Spurious(t: nat)

  function Flatten(entries: seq<Bytes>): Bytes {
    if entries == [] then [] else Flatten(entries[..|entries| - 1]) + entries[|entries| - 1]
  }

  function Start(threads: nat): State {
    State(0, 0, 0, seq(threads, i => Idle), Stable([]), [], [])
  }

  // ---- Who is where ----

  /** The threads reading, writing, waiting to write (asleep or awake), and those asleep. */
  datatype Census = Census(reading: set<nat>, writing: set<nat>, waiting: set<nat>,
                           asleepWriters: set<nat>, asleepReaders: set<nat>)

  ghost function Take(ph: seq<Phase>): Census {
    Census(set t: nat | t < |ph| && ph[t].ActiveReader(),
           set t: nat | t < |ph| && ph[t].ActiveWriter(),
           set t: nat | t < |ph| && ph[t].WaitingWriter(),
           set t: nat | t < |ph| && ph[t].WriterAsleep?,
           set t: nat | t < |ph| && ph[t].ReaderAsleep?)
  }

  // ---- Waking up ----

  function Awaken(p: Phase): Phase {
    match p
    case ReaderAsleep => ReaderAwake
    case WriterAsleep(e) => WriterAwake(e)
    case _ => p
  }

  function Wake(ph: seq<Phase>, woken: set<nat>): (r: seq<Phase>)
    ensures |r| == |ph|
    ensures forall t: nat :: t < |ph| ==> r[t] == if t in woken then Awaken(ph[t]) else ph[t]
  {
    seq(|ph|, t requires 0 <= t < |ph| => if t in woken then Awaken(ph[t]) else ph[t])
  }

  /** A signal wakes at least one of the threads asleep on the variable, if there are any. */
  ghost predicate Signalled(asleep: set<nat>, woken: set<nat>) {
    woken <= asleep && (asleep != {} ==> woken != {})
  }

  // ---- Steps ----

  ghost predicate Enabled(s: State, step: Step) {
    step.t < |s.phase| &&
    var p := s.phase[step.t];
    match step
    case ReaderTest(_) => p.Idle? || p.ReaderAwake?
    case CopyStart(_) => p.Reading?
    case CopyEnd(_) => p.Copying?
    case ReaderUnlock(t, woken) =>
      && p.Copied?
      && (if s.readers - 1 == 0 then Signalled(Take(s.phase).asleepWriters, woken) else woken == {})
    case WriterArrive(_, _) => p.Idle?
    case WriterTest(_) => p.WriterAwake?
    case AppendStart(_) => p.Writing?
    case AppendEnd(_) => p.Appending?
    case WriterUnlock(t, woken) =>
      && p.Appended?
      && (if s.waiting > 0 then Signalled(Take(s.phase).asleepWriters, woken) else woken == Take(s.phase).asleepReaders)
    case Spurious(_) => p.Asleep()
  }

  /** A copy is whole only if the log was whole at its start and is the same at its end. */
  function Copy(start: Content, end: Content): Content {
    if start == end then start else Torn(start.bytes)
  }

  /** The loop test of writer_lock, with the lock taken when it fails. */
  ghost function WriterTested(s: State, t: nat, entry: Bytes): State
    requires t < |s.phase|
  {
    if s.readers > 0 || s.writers > 0 then s.(phase := s.phase[t := WriterAsleep(entry)])
    else s.(waiting := s.waiting - 1, writers := 1, phase := s.phase[t := Writing(entry)],
            acquired := s.acquired + [entry])
  }

  ghost function Apply(s: State, step: Step): State
    requires Enabled(s, step)
  {
    match step
    case ReaderTest(t) =>
      if s.writers > 0 || s.waiting > 0 then s.(phase := s.phase[t := ReaderAsleep])
      else s.(readers := s.readers + 1, phase := s.phase[t := Reading])
    case CopyStart(t) => s.(phase := s.phase[t := Copying(s.content)])
    case CopyEnd(t) => s.(phase := s.phase[t := Copied(Copy(s.phase[t].start, s.content))])
    case ReaderUnlock(t, woken) => s.(readers := s.readers - 1, phase := Wake(s.phase[t := Idle], woken))
    case WriterArrive(t, entry) => WriterTested(s.(waiting := s.waiting + 1), t, entry)
    case WriterTest(t) => WriterTested(s, t, s.phase[t].entry)
    case AppendStart(t) =>
      s.(phase := s.phase[t := Appending(s.phase[t].entry, s.content.bytes)], content := Torn(s.content.bytes))
    case AppendEnd(t) =>
      s.(phase := s.phase[t := Appended], content := Stable(s.phase[t].found + s.phase[t].entry),
         history := s.history + [s.phase[t].entry])
    case WriterUnlock(t, woken) => s.(writers := 0, phase := Wake(s.phase[t := Idle], woken))
    case Spurious(t) => s.(phase := Wake(s.phase, {t}))
  }

  // ---- The invariant ----

  /** The counters count the threads they are meant to count; at most one thread writes, and then
      nobody reads; sleeping readers have a writer to wait for; and sleeping writers with nobody
      inside have an awake writer among them, so no wake-up is lost. */
  ghost predicate Sound(readers: int, waiting: int, writers: int, c: Census) {
    && readers == |c.reading| && waiting == |c.waiting| && writers == |c.writing| <= 1
    && (writers > 0 ==> readers == 0)
    && c.asleepWriters <= c.waiting
    && (c.asleepReaders != {} ==> writers > 0 || waiting > 0)
    && (c.asleepWriters != {} && readers == 0 && writers == 0 ==> c.asleepWriters != c.waiting)
  }

  ghost predicate LockOk(s: State) {
    Sound(s.readers, s.waiting, s.writers, Take(s.phase))
  }

  /** What a thread in the given phase may rely on: readers hold whole copies of exactly the completed
      entries, a writer appends to them, and its entry is the only one acquired but not completed. */
  ghost predicate PhaseOk(s: State, p: Phase) {
    match p
    case Copying(start) => start == Stable(Flatten(s.history)) == s.content
    case Copied(result) => result == Stable(Flatten(s.history))
    case Writing(entry) => s.acquired == s.history + [entry]
    case Appending(entry, found) => s.content.Torn? && found == Flatten(s.history) && s.acquired == s.history + [entry]
    case _ => true
  }

  ghost predicate Unfinished(ph: seq<Phase>, t: nat) {
    t < |ph| && (ph[t].Writing? || ph[t].Appending?)
  }

  ghost predicate AppendingAt(ph: seq<Phase>, t: nat) {
    t < |ph| && ph[t].Appending?
  }

  /** The log holds the completed entries in acquisition order, and is torn only while someone appends. */
  ghost predicate LogOk(s: State) {
    && (forall t: nat :: t < |s.phase| ==> PhaseOk(s, s.phase[t]))
    && (s.content.Torn? ==> exists t :: AppendingAt(s.phase, t))
    && s.content.bytes == Flatten(s.history)
    && ((forall t :: !Unfinished(s.phase, t)) ==> s.acquired == s.history)
  }

  ghost predicate Inv(s: State) {
    LockOk(s) && LogOk(s)
  }

  // ---- Counting lemmas ----

  ghost function Placed(s: set<nat>, t: nat, here: bool): set<nat> {
    if here then s + {t} else s - {t}
  }

  /** The census after one thread has moved to another phase. */
  ghost function Shift(c: Census, t: nat, p: Phase): Census {
    Census(Placed(c.reading, t, p.ActiveReader()), Placed(c.writing, t, p.ActiveWriter()),
           Placed(c.waiting, t, p.WaitingWriter()), Placed(c.asleepWriters, t, p.WriterAsleep?),
           Placed(c.asleepReaders, t, p.ReaderAsleep?))
  }

  /** Where the census finds one thread. */
  ghost predicate Stands(c: Census, t: nat, p: Phase) {
    && (t in c.reading <==> p.ActiveReader()) && (t in c.writing <==> p.ActiveWriter())
    && (t in c.waiting <==> p.WaitingWriter()) && (t in c.asleepWriters <==> p.WriterAsleep?)
    && (t in c.asleepReaders <==> p.ReaderAsleep?)
  }

  lemma Moved(ph: seq<Phase>, t: nat, p: Phase)
    requires t < |ph|
    ensures Take(ph[t := p]) == Shift(Take(ph), t, p)
    ensures Stands(Take(ph), t, ph[t])
  {
  }

  lemma Woken(ph: seq<Phase>, woken: set<nat>)
    ensures Take(Wake(ph, woken)) == Take(ph).(asleepWriters := Take(ph).asleepWriters - woken,
                                               asleepReaders := Take(ph).asleepReaders - woken)
  {
  }

  lemma Member(s: set<nat>, t: nat)
    ensures t in s ==> |s - {t}| == |s| - 1 && s + {t} == s && |s| > 0
    ensures t !in s ==> s - {t} == s && |s + {t}| == |s| + 1
  {
  }

  lemma Members(c: Census, t: nat)
    ensures t in c.reading ==> |c.reading - {t}| == |c.reading| - 1 && |c.reading| > 0 && c.reading + {t} == c.reading
    ensures t !in c.reading ==> c.reading - {t} == c.reading && |c.reading + {t}| == |c.reading| + 1
    ensures t in c.writing ==> |c.writing - {t}| == |c.writing| - 1 && |c.writing| > 0 && c.writing + {t} == c.writing
    ensures t !in c.writing ==> c.writing - {t} == c.writing && |c.writing + {t}| == |c.writing| + 1
    ensures t in c.waiting ==> |c.waiting - {t}| == |c.waiting| - 1 && |c.waiting| > 0 && c.waiting + {t} == c.waiting
    ensures t !in c.waiting ==> c.waiting - {t} == c.waiting && |c.waiting + {t}| == |c.waiting| + 1
    ensures t !in c.asleepReaders ==> c.asleepReaders - {t} == c.asleepReaders
    ensures t !in c.asleepWriters ==> c.asleepWriters - {t} == c.asleepWriters
  {
    Member(c.reading, t);
    Member(c.writing, t);
    Member(c.waiting, t);
  }

  // ---- Every step keeps the counters right and the sleepers remembered ----

  lemma ReaderSleeps(r: int, w: int, a: int, c: Census, t: nat, q: Phase)
    requires Sound(r, w, a, c) && Stands(c, t, q) && (q.Idle? || q.ReaderAwake?) && (a > 0 || w > 0)
    ensures Sound(r, w, a, Shift(c, t, ReaderAsleep))
  {
    Members(c, t);
  }

  lemma ReaderEnters(r: int, w: int, a: int, c: Census, t: nat, q: Phase)
    requires Sound(r, w, a, c) && Stands(c, t, q) && (q.Idle? || q.ReaderAwake?) && !(a > 0 || w > 0)
    ensures Sound(r + 1, w, a, Shift(c, t, Reading))
  {
    Members(c, t);
  }

  lemma WriterSleeps(r: int, w: int, a: int, c: Census, t: nat, q: Phase, entry: Bytes)
    requires Sound(r, w, a, c) && Stands(c, t, q) && (q.Idle? || q.WriterAwake?) && (r > 0 || a > 0)
    ensures Sound(r, w + Unit(q.Idle?), a, Shift(c, t, WriterAsleep(entry)))
  {
    Members(c, t);
  }

  lemma WriterEnters(r: int, w: int, a: int, c: Census, t: nat, q: Phase, entry: Bytes)
    requires Sound(r, w, a, c) && Stands(c, t, q) && (q.Idle? || q.WriterAwake?) && !(r > 0 || a > 0)
    ensures Sound(r, w + Unit(q.Idle?) - 1, 1, Shift(c, t, Writing(entry)))
  {
    Members(c, t);
  }

  lemma StaysInside(r: int, w: int, a: int, c: Census, t: nat, q: Phase, p: Phase)
    requires Sound(r, w, a, c) && Stands(c, t, q)
    requires q.ActiveReader() == p.ActiveReader() && q.ActiveWriter() == p.ActiveWriter()
    requires p.ActiveReader() || p.ActiveWriter()
    ensures Sound(r, w, a, Shift(c, t, p))
  {
    Members(c, t);
    assert Shift(c, t, p) == c;
  }

  /** After a signal either no writer sleeps or one is awake. */
  lemma WakeLeavesOne(c: Census, woken: set<nat>)
    requires Signalled(c.asleepWriters, woken) && c.asleepWriters <= c.waiting
    ensures c.asleepWriters - woken != {} ==> c.asleepWriters - woken != c.waiting
  {
    if c.asleepWriters - woken != {} {
      var w :| w in woken;
      assert w in c.waiting && w !in c.asleepWriters - woken;
    }
  }

  lemma ReaderLeaves(r: int, w: int, a: int, c: Census, t: nat, q: Phase, woken: set<nat>)
    requires Sound(r, w, a, c) && Stands(c, t, q) && q.Copied?
    requires if r - 1 == 0 then Signalled(c.asleepWriters, woken) else woken == {}
    ensures var c' := Shift(c, t, Idle);
            Sound(r - 1, w, a, c'.(asleepWriters := c'.asleepWriters - woken, asleepReaders := c'.asleepReaders - woken))
  {
    Members(c, t);
    if r - 1 == 0 {
      WakeLeavesOne(c, woken);
    }
  }

  lemma WriterLeaves(r: int, w: int, a: int, c: Census, t: nat, q: Phase, woken: set<nat>)
    requires Sound(r, w, a, c) && Stands(c, t, q) && q.Appended?
    requires if w > 0 then Signalled(c.asleepWriters, woken) else woken == c.asleepReaders
    ensures var c' := Shift(c, t, Idle);
            Sound(r, w, 0, c'.(asleepWriters := c'.asleepWriters - woken, asleepReaders := c'.asleepReaders - woken))
  {
    Members(c, t);
    if w > 0 {
      WakeLeavesOne(c, woken);
    }
  }

  lemma WokenByChance(r: int, w: int, a: int, c: Census, t: nat, q: Phase)
    requires Sound(r, w, a, c) && Stands(c, t, q) && q.Asleep()
    ensures Sound(r, w, a, c.(asleepWriters := c.asleepWriters - {t}, asleepReaders := c.asleepReaders - {t}))
  {
    if q.WriterAsleep? {
      assert t in c.waiting && t !in c.asleepWriters - {t};
    } else {
      assert c.asleepWriters - {t} == c.asleepWriters;
    }
  }

  lemma WriterWaits(s: State, t: nat, entry: Bytes)
    requires LockOk(s) && t < |s.phase| && (s.phase[t].Idle? || s.phase[t].WriterAwake?) && (s.readers > 0 || s.writers > 0)
    ensures LockOk(s.(waiting := s.waiting + Unit(s.phase[t].Idle?), phase := s.phase[t := WriterAsleep(entry)]))
  {
    Moved(s.phase, t, WriterAsleep(entry));
    WriterSleeps(s.readers, s.waiting, s.writers, Take(s.phase), t, s.phase[t], entry);
  }

  lemma WriterGoes(s: State, t: nat, entry: Bytes)
    requires LockOk(s) && t < |s.phase| && (s.phase[t].Idle? || s.phase[t].WriterAwake?)
    requires !(s.readers > 0 || s.writers > 0)
    ensures LockOk(s.(waiting := s.waiting + Unit(s.phase[t].Idle?) - 1, writers := 1, phase := s.phase[t := Writing(entry)],
                      acquired := s.acquired + [entry]))
  {
    Moved(s.phase, t, Writing(entry));
    WriterEnters(s.readers, s.waiting, s.writers, Take(s.phase), t, s.phase[t], entry);
  }

  lemma WriterTestedKeeps(s: State, t: nat, entry: Bytes)
    requires LockOk(s) && t < |s.phase| && (s.phase[t].Idle? || s.phase[t].WriterAwake?)
    ensures LockOk(WriterTested(s.(waiting := s.waiting + Unit(s.phase[t].Idle?)), t, entry))
  {
    if s.readers > 0 || s.writers > 0 {
      WriterWaits(s, t, entry);
    } else {
      WriterGoes(s, t, entry);
    }
  }

  lemma InsideKeeps(s: State, t: nat, p: Phase)
    requires LockOk(s) && t < |s.phase| && (p.ActiveReader() || p.ActiveWriter())
    requires s.phase[t].ActiveReader() == p.ActiveReader() && s.phase[t].ActiveWriter() == p.ActiveWriter()
    ensures LockOk(s.(phase := s.phase[t := p]))
  {
    Moved(s.phase, t, p);
    StaysInside(s.readers, s.waiting, s.writers, Take(s.phase), t, s.phase[t], p);
  }

  /** Every critical section of the mutex, and every spurious wake-up, keeps the lock sound. */
  lemma LockKept(s: State, step: Step)
    requires LockOk(s) && Enabled(s, step)
    ensures LockOk(Apply(s, step))
  {
    var r, w, a, c, q := s.readers, s.waiting, s.writers, Take(s.phase), s.phase[step.t];
    match step
    case ReaderTest(t) =>
      if a > 0 || w > 0 {
        Moved(s.phase, t, ReaderAsleep);
        ReaderSleeps(r, w, a, c, t, q);
      } else {
        Moved(s.phase, t, Reading);
        ReaderEnters(r, w, a, c, t, q);
      }
    case CopyStart(t) => InsideKeeps(s, t, Copying(s.content));
    case CopyEnd(t) => InsideKeeps(s, t, Copied(Copy(q.start, s.content)));
    case ReaderUnlock(t, woken) =>
      Moved(s.phase, t, Idle);
      Woken(s.phase[t := Idle], woken);
      ReaderLeaves(r, w, a, c, t, q, woken);
    case WriterArrive(t, entry) => WriterTestedKeeps(s, t, entry);
    case WriterTest(t) => WriterTestedKeeps(s, t, q.entry);
    case AppendStart(t) => InsideKeeps(s, t, Appending(q.entry, s.content.bytes));
    case AppendEnd(t) => InsideKeeps(s, t, Appended);
    case WriterUnlock(t, woken) =>
      Moved(s.phase, t, Idle);
      Woken(s.phase[t := Idle], woken);
      WriterLeaves(r, w, a, c, t, q, woken);
    case Spurious(t) =>
      Moved(s.phase, t, q);
      Woken(s.phase, {t});
      WokenByChance(r, w, a, c, t, q);
  }

  // ---- Exclusion, thread by thread ----

  lemma TwoMembers(s: set<nat>, a: nat, b: nat)
    requires a in s && b in s && a != b
    ensures |s| >= 2
  {
    assert |s - {a}| == |s| - 1;
    assert b in s - {a};
  }

  /** At most one thread writes, and none reads while it does. */
  lemma Exclusion(s: State, a: nat, b: nat)
    requires LockOk(s) && a < |s.phase| && b < |s.phase| && a != b && s.phase[a].ActiveWriter()
    ensures !s.phase[b].ActiveWriter() && !s.phase[b].ActiveReader()
  {
    var c := Take(s.phase);
    assert a in c.writing;
    if s.phase[b].ActiveWriter() {
      TwoMembers(c.writing, a, b);
    }
    assert b in c.reading <==> s.phase[b].ActiveReader();
  }

  // ---- Every step keeps the log in order ----

  /** Steps that leave the log and both histories alone. */
  lemma QuietLog(s: State, s': State, t: nat)
    requires LogOk(s) && t < |s.phase| == |s'.phase|
    requires s'.content == s.content && s'.history == s.history && s'.acquired == s.acquired
    requires forall b: nat :: b < |s.phase| && b != t ==> s'.phase[b] == s.phase[b] || s'.phase[b] == Awaken(s.phase[b])
    requires PhaseOk(s, s'.phase[t])
    requires Unfinished(s'.phase, t) == Unfinished(s.phase, t) && AppendingAt(s'.phase, t) == AppendingAt(s.phase, t)
    ensures LogOk(s')
  {
    forall b: nat
      ensures Unfinished(s'.phase, b) == Unfinished(s.phase, b)
      ensures AppendingAt(s'.phase, b) == AppendingAt(s.phase, b)
    {
    }
    forall b: nat | b < |s'.phase|
      ensures PhaseOk(s', s'.phase[b])
    {
      assert PhaseOk(s, s.phase[b]);
    }
    if s.content.Torn? {
      var b :| AppendingAt(s.phase, b);
      assert AppendingAt(s'.phase, b);
    }
  }

  lemma WriterTestedLog(s: State, t: nat, entry: Bytes)
    requires LogOk(s) && t < |s.phase| && (s.phase[t].Idle? || s.phase[t].WriterAwake?)
    requires s.writers == |Take(s.phase).writing|
    ensures LogOk(WriterTested(s, t, entry))
  {
    var s' := WriterTested(s, t, entry);
    assert PhaseOk(s, s.phase[t]);
    if s.readers > 0 || s.writers > 0 {
      QuietLog(s, s', t);
    } else {
      forall b: nat | b < |s.phase|
        ensures !s.phase[b].ActiveWriter()
      {
        assert b !in Take(s.phase).writing;
      }
      assert forall b :: !Unfinished(s.phase, b) && !AppendingAt(s.phase, b);
      assert Unfinished(s'.phase, t);
      forall b: nat | b < |s'.phase|
        ensures PhaseOk(s', s'.phase[b])
      {
        assert PhaseOk(s, s.phase[b]);
      }
    }
  }

  lemma AppendStartLog(s: State, t: nat)
    requires LockOk(s) && LogOk(s) && Enabled(s, AppendStart(t))
    ensures LogOk(Apply(s, AppendStart(t)))
  {
    var s' := Apply(s, AppendStart(t));
    assert AppendingAt(s'.phase, t) && Unfinished(s'.phase, t);
    forall b: nat | b < |s'.phase|
      ensures PhaseOk(s', s'.phase[b])
    {
      assert PhaseOk(s, s.phase[b]);
      if b != t {
        Exclusion(s, t, b);
      }
    }
  }

  lemma FlattenSnoc(h: seq<Bytes>, e: Bytes)
    ensures Flatten(h + [e]) == Flatten(h) + e
  {
    assert (h + [e])[..|h|] == h;
  }

  lemma AppendEndLog(s: State, t: nat)
    requires LockOk(s) && LogOk(s) && Enabled(s, AppendEnd(t))
    ensures LogOk(Apply(s, AppendEnd(t)))
  {
    var s' := Apply(s, AppendEnd(t));
    FlattenSnoc(s.history, s.phase[t].entry);
    assert PhaseOk(s, s.phase[t]);
    forall b: nat | b < |s'.phase|
      ensures PhaseOk(s', s'.phase[b])
    {
      if b != t {
        Exclusion(s, t, b);
      }
    }
  }

  /** Whoever is inside, reading or about to append or done with it, finds the log whole. */
  lemma WholeInside(s: State, t: nat)
    requires LockOk(s) && LogOk(s) && t < |s.phase|
    requires s.phase[t].ActiveReader() || s.phase[t].Writing? || s.phase[t].Appended?
    ensures s.content == Stable(Flatten(s.history))
  {
    if s.content.Torn? {
      var b :| AppendingAt(s.phase, b);
      Exclusion(s, b, t);
    }
  }

  lemma WokenLog(s: State, t: nat, woken: set<nat>, s': State)
    requires LogOk(s) && t < |s.phase| && (s.phase[t].Copied? || s.phase[t].Appended?)
    requires s'.phase == Wake(s.phase[t := Idle], woken)
    requires s'.content == s.content && s'.history == s.history && s'.acquired == s.acquired
    ensures LogOk(s')
  {
    assert s'.phase[t] == Idle;
    QuietLog(s, s', t);
  }

  lemma QuietMove(s: State, t: nat, p: Phase, s': State)
    requires LogOk(s) && t < |s.phase| && s'.phase == s.phase[t := p] && PhaseOk(s, p)
    requires s'.content == s.content && s'.history == s.history && s'.acquired == s.acquired
    requires !s.phase[t].Writing? && !s.phase[t].Appending? && !p.Writing? && !p.Appending?
    ensures LogOk(s')
  {
    QuietLog(s, s', t);
  }

  lemma ReaderLog(s: State, step: Step)
    requires LockOk(s) && LogOk(s) && Enabled(s, step)
    requires step.ReaderTest? || step.CopyStart? || step.CopyEnd? || step.ReaderUnlock? || step.Spurious?
    ensures LogOk(Apply(s, step))
  {
    var t := step.t;
    var q := s.phase[t];
    assert PhaseOk(s, q);
    match step
    case ReaderTest(_) =>
      QuietMove(s, t, if s.writers > 0 || s.waiting > 0 then ReaderAsleep else Reading, Apply(s, step));
    case CopyStart(_) =>
      WholeInside(s, t);
      QuietMove(s, t, Copying(s.content), Apply(s, step));
    case CopyEnd(_) => QuietMove(s, t, Copied(Copy(q.start, s.content)), Apply(s, step));
    case ReaderUnlock(_, woken) => WokenLog(s, t, woken, Apply(s, step));
    case Spurious(_) =>
      assert Wake(s.phase, {t}) == s.phase[t := Awaken(q)];
      QuietMove(s, t, Awaken(q), Apply(s, step));
  }

  lemma WriterLog(s: State, step: Step)
    requires LockOk(s) && LogOk(s) && Enabled(s, step)
    requires step.WriterArrive? || step.WriterTest? || step.AppendStart? || step.AppendEnd? || step.WriterUnlock?
    ensures LogOk(Apply(s, step))
  {
    match step
    case WriterArrive(t, entry) => WriterTestedLog(s.(waiting := s.waiting + 1), t, entry);
    case WriterTest(t) => WriterTestedLog(s, t, s.phase[t].entry);
    case AppendStart(t) => AppendStartLog(s, t);
    case AppendEnd(t) => AppendEndLog(s, t);
    case WriterUnlock(t, woken) => WokenLog(s, t, woken, Apply(s, step));
  }

  /** Every step keeps the log equal to the completed entries in acquisition order. */
  lemma LogKept(s: State, step: Step)
    requires LockOk(s) && LogOk(s) && Enabled(s, step)
    ensures LogOk(Apply(s, step))
  {
    match step
    case WriterArrive(_, _) => WriterLog(s, step);
    case WriterTest(_) => WriterLog(s, step);
    case AppendStart(_) => WriterLog(s, step);
    case AppendEnd(_) => WriterLog(s, step);
    case WriterUnlock(_, _) => WriterLog(s, step);
    case _ => ReaderLog(s, step);
  }

  // ---- Runs ----

  ghost predicate Run(s: State, steps: seq<Step>)
    decreases |steps|
  {
    steps == [] || (Enabled(s, steps[0]) && Run(Apply(s, steps[0]), steps[1..]))
  }

  ghost function Final(s: State, steps: seq<Step>): State
    requires Run(s, steps)
    decreases |steps|
  {
    if steps == [] then s else Final(Apply(s, steps[0]), steps[1..])
  }

  lemma StartInv(threads: nat)
    ensures Inv(Start(threads))
  {
    var s := Start(threads);
    assert Take(s.phase) == Census({}, {}, {}, {}, {});
  }

  /** Every reachable state satisfies the invariant, for any number of threads and any schedule. */
  lemma {:induction false} RunKeepsInv(s: State, steps: seq<Step>)
    requires Inv(s) && Run(s, steps)
    ensures Inv(Final(s, steps))
    decreases |steps|
  {
    if steps != [] {
      LockKept(s, steps[0]);
      LogKept(s, steps[0]);
      RunKeepsInv(Apply(s, steps[0]), steps[1..]);
    }
  }

  // ---- What the lock is for ----

  /** Two writers append at the same time while a reader copies. */
  function Overlap(a: nat, b: nat, r: nat): seq<Step> {
    [AppendStart(a)] + ([CopyStart(r)] + ([AppendStart(b)] + ([AppendEnd(a)] + ([CopyEnd(r)] + ([AppendEnd(b)] + [])))))
  }

  /** Where that leads: the second entry is written over the first. */
  ghost function Overlapped(s: State, a: nat, b: nat, r: nat): State
    requires a < |s.phase| && b < |s.phase| && r < |s.phase| && s.phase[a].Writing? && s.phase[b].Writing?
  {
    s.(phase := s.phase[a := Appended][r := Copied(Torn(s.content.bytes))][b := Appended],
       content := Stable(s.content.bytes + s.phase[b].entry),
       history := s.history + [s.phase[a].entry] + [s.phase[b].entry])
  }

  /** Three threads inside at once, which the lock rules out. */
  ghost predicate Crowded(s: State, a: nat, b: nat, r: nat) {
    && a < |s.phase| && b < |s.phase| && r < |s.phase| && a != b && a != r && b != r
    && s.phase[a].Writing? && s.phase[b].Writing? && s.phase[r].Reading?
  }

  lemma RunOne(s: State, step: Step, rest: seq<Step>)
    requires Enabled(s, step) && Run(Apply(s, step), rest)
    ensures Run(s, [step] + rest) && Final(s, [step] + rest) == Final(Apply(s, step), rest)
  {
    assert ([step] + rest)[1..] == rest;
  }

  lemma OverlapRun(s: State, a: nat, b: nat, r: nat)
    requires Crowded(s, a, b, r)
    ensures Run(s, Overlap(a, b, r)) && Final(s, Overlap(a, b, r)) == Overlapped(s, a, b, r)
  {
    var s1 := Apply(s, AppendStart(a));
    var s2 := Apply(s1, CopyStart(r));
    var s3 := Apply(s2, AppendStart(b));
    var s4 := Apply(s3, AppendEnd(a));
    var s5 := Apply(s4, CopyEnd(r));
    var s6 := Apply(s5, AppendEnd(b));
    assert s6.phase == Overlapped(s, a, b, r).phase;
    var e5 := [AppendEnd(b)] + [];
    var e4 := [CopyEnd(r)] + e5;
    var e3 := [AppendEnd(a)] + e4;
    var e2 := [AppendStart(b)] + e3;
    RunOne(s5, AppendEnd(b), []);
    RunOne(s4, CopyEnd(r), e5);
    RunOne(s3, AppendEnd(a), e4);
    RunOne(s2, AppendStart(b), e3);
    RunOne(s1, CopyStart(r), e2);
    RunOne(s, AppendStart(a), [CopyStart(r)] + e2);
  }

  /** Without exclusion the log goes wrong: of two writers inside at once, whose entries both count as
      completed, the first is overwritten, and a copy made meanwhile is torn. */
  lemma OverlapLoses(s: State, a: nat, b: nat, r: nat)
    requires Crowded(s, a, b, r) && s.content == Stable(Flatten(s.history))
    ensures var s' := Overlapped(s, a, b, r);
            && Run(s, Overlap(a, b, r)) && Final(s, Overlap(a, b, r)) == s' && s'.phase[r] == Copied(Torn(s.content.bytes))
            && (s'.content.bytes == Flatten(s'.history) <==> s.phase[a].entry == [])
  {
    OverlapRun(s, a, b, r);
    var h := s.history + [s.phase[a].entry];
    FlattenSnoc(s.history, s.phase[a].entry);
    FlattenSnoc(h, s.phase[b].entry);
    assert |Flatten(h + [s.phase[b].entry])| == |Flatten(s.history)| + |s.phase[a].entry| + |s.phase[b].entry|;
  }

  /** Writer priority: a reader gets in only when no writer is inside or waiting to get in. */
  lemma WriterPriority(s: State, step: Step, b: nat)
    requires LockOk(s) && Enabled(s, step) && step.ReaderTest? && Apply(s, step).phase[step.t].Reading?
    requires b < |s.phase|
    ensures !s.phase[b].WaitingWriter() && !s.phase[b].ActiveWriter()
  {
    var c := Take(s.phase);
    assert c.waiting == {} && c.writing == {};
    assert b !in c.waiting && b !in c.writing;
  }

  /** While anyone is inside, everything acquired is complete unless a writer is still at it; so a
      finished snapshot is the concatenation of exactly the entries whose writers went before. */
  lemma SnapshotIsHistory(s: State, t: nat)
    requires Inv(s) && t < |s.phase| && s.phase[t].Copied?
    ensures s.phase[t].result == Stable(Flatten(s.history)) && s.history == s.acquired
  {
    assert PhaseOk(s, s.phase[t]);
    forall b: nat
      ensures !Unfinished(s.phase, b)
    {
      if Unfinished(s.phase, b) {
        Exclusion(s, b, t);
      }
    }
  }

  lemma FlattenPrefix(h: seq<Bytes>, h': seq<Bytes>)
    requires h <= h'
    ensures Flatten(h) <= Flatten(h')
  {
    if |h| < |h'| {
      FlattenPrefix(h, h'[..|h'| - 1]);
    } else {
      assert h == h';
    }
  }

  lemma {:induction false} RunGrows(s: State, steps: seq<Step>)
    requires Run(s, steps)
    ensures s.history <= Final(s, steps).history && s.acquired <= Final(s, steps).acquired
    ensures |Final(s, steps).phase| == |s.phase|
    decreases |steps|
  {
    if steps != [] {
      RunGrows(Apply(s, steps[0]), steps[1..]);
    }
  }

  /** Whatever one reader has copied is a prefix of whatever any reader copies later. */
  lemma SnapshotsNest(s: State, steps: seq<Step>, early: nat, late: nat)
    requires Inv(s) && Run(s, steps) && early < |s.phase| && late < |Final(s, steps).phase|
    requires s.phase[early].Copied? && Final(s, steps).phase[late].Copied?
    ensures s.phase[early].result.bytes <= Final(s, steps).phase[late].result.bytes
  {
    RunKeepsInv(s, steps);
    SnapshotIsHistory(s, early);
    SnapshotIsHistory(Final(s, steps), late);
    RunGrows(s, steps);
    FlattenPrefix(s.history, Final(s, steps).history);
  }

  // ---- Nobody is stuck ----

  /** A step of a thread that is already in the protocol and not merely woken by chance. */
  ghost predicate Onward(s: State, step: Step) {
    Enabled(s, step) && !step.Spurious? && !s.phase[step.t].Idle?
  }

  /** The next critical section of a thread that is not asleep. */
  ghost function Next(s: State, t: nat): Step
    requires t < |s.phase| && !s.phase[t].Idle? && !s.phase[t].Asleep()
  {
    match s.phase[t]
    case ReaderAwake => ReaderTest(t)
    case Reading => CopyStart(t)
    case Copying(_) => CopyEnd(t)
    case Copied(_) => ReaderUnlock(t, if s.readers - 1 == 0 then Take(s.phase).asleepWriters else {})
    case WriterAwake(_) => WriterTest(t)
    case Writing(_) => AppendStart(t)
    case Appending(_, _) => AppendEnd(t)
    case Appended => WriterUnlock(t, if s.waiting > 0 then Take(s.phase).asleepWriters else Take(s.phase).asleepReaders)
    case ReaderAsleep => Spurious(t)
    case WriterAsleep(_) => Spurious(t)
    case Idle => Spurious(t)
  }

  lemma AwakeCanMove(s: State, t: nat)
    requires t < |s.phase| && !s.phase[t].Idle? && !s.phase[t].Asleep()
    ensures Onward(s, Next(s, t))
  {
  }

  /** No reachable state has a thread blocked and nobody able to move. */
  lemma NeverStuck(s: State, t: nat)
    requires Inv(s) && t < |s.phase| && !s.phase[t].Idle?
    ensures exists step :: Onward(s, step)
  {
    var c := Take(s.phase);
    var u := t;
    if s.phase[t].Asleep() {
      assert t in c.asleepReaders || t in c.asleepWriters;
      if c.reading != {} {
        u :| u in c.reading;
      } else if c.writing != {} {
        u :| u in c.writing;
      } else {
        assert c.asleepWriters != c.waiting;
        u :| u in c.waiting && u !in c.asleepWriters;
      }
    }
    AwakeCanMove(s, u);
    assert Onward(s, Next(s, u));
  }

  // ---- Everyone gets through ----

  /** How many stages a thread still has to pass. */
  function Stage(p: Phase): nat {
    match p
    case Idle => 0
    case Copied(_) => 1
    case Appended => 1
    case Copying(_) => 2
    case Appending(_, _) => 2
    case Reading => 3
    case Writing(_) => 3
    case _ => 4
  }

  function Stages(ph: seq<Phase>): nat {
    if ph == [] then 0 else Stages(ph[..|ph| - 1]) + Stage(ph[|ph| - 1])
  }

  function Awake(ph: seq<Phase>): nat {
    if ph == [] then 0
    else Awake(ph[..|ph| - 1]) + (if ph[|ph| - 1].ReaderAwake? || ph[|ph| - 1].WriterAwake? then 1 else 0)
  }

  lemma {:induction false} StagesMoved(ph: seq<Phase>, t: nat, p: Phase)
    requires t < |ph|
    ensures Stages(ph[t := p]) == Stages(ph) - Stage(ph[t]) + Stage(p)
    ensures Awake(ph[t := p]) == Awake(ph) - Awake([ph[t]]) + Awake([p])
  {
    var n := |ph| - 1;
    assert [ph[t]][..0] == [] && [p][..0] == [];
    if t == n {
      assert ph[t := p][..n] == ph[..n];
    } else {
      StagesMoved(ph[..n], t, p);
      assert ph[t := p][..n] == ph[..n][t := p];
    }
  }

  lemma {:induction false} StagesWoken(ph: seq<Phase>, woken: set<nat>)
    ensures Stages(Wake(ph, woken)) == Stages(ph)
    ensures Awake(ph) <= |ph|
  {
    if ph != [] {
      var n := |ph| - 1;
      StagesWoken(ph[..n], woken);
      assert Wake(ph, woken)[..n] == Wake(ph[..n], woken);
    }
  }

  /** Stages left, weighed above the threads about to test their condition again. */
  function Rank(s: State): nat {
    Stages(s.phase) * (|s.phase| + 1) + Awake(s.phase)
  }

  lemma MovedOn(s: State, t: nat, p: Phase, s': State)
    requires t < |s.phase| && s'.phase == s.phase[t := p]
    requires Stage(p) < Stage(s.phase[t]) || (Stage(p) == Stage(s.phase[t]) && Awake([p]) < Awake([s.phase[t]]))
    ensures Rank(s') < Rank(s)
  {
    StagesMoved(s.phase, t, p);
    StagesWoken(s'.phase, {});
    if Stage(p) < Stage(s.phase[t]) {
      RankOrder(Stages(s.phase), Stages(s'.phase), |s.phase| + 1, Awake(s.phase), Awake(s'.phase));
    }
  }

  lemma LeftAndWoke(s: State, t: nat, woken: set<nat>, s': State)
    requires t < |s.phase| && s'.phase == Wake(s.phase[t := Idle], woken) && Stage(s.phase[t]) > 0
    ensures Rank(s') < Rank(s)
  {
    StagesMoved(s.phase, t, Idle);
    StagesWoken(s.phase[t := Idle], woken);
    StagesWoken(s'.phase, {});
    RankOrder(Stages(s.phase), Stages(s'.phase), |s.phase| + 1, Awake(s.phase), Awake(s'.phase));
  }

  lemma RankFalls(s: State, step: Step)
    requires Onward(s, step)
    ensures Rank(Apply(s, step)) < Rank(s)
  {
    var s' := Apply(s, step);
    if step.ReaderUnlock? || step.WriterUnlock? {
      LeftAndWoke(s, step.t, step.woken, s');
    } else {
      MovedOn(s, step.t, s'.phase[step.t], s');
    }
  }

  ghost predicate OnwardRun(s: State, steps: seq<Step>)
    decreases |steps|
  {
    steps == [] || (Onward(s, steps[0]) && OnwardRun(Apply(s, steps[0]), steps[1..]))
  }

  /** Once arrivals and spurious wake-ups stop, every schedule ends within a fixed number of steps,
      and it can end only when every thread has come out again. */
  lemma {:induction false} EveryoneGetsThrough(s: State, steps: seq<Step>)
    requires Inv(s) && OnwardRun(s, steps)
    ensures Run(s, steps) && |steps| <= Rank(s)
    ensures (forall step :: !Onward(Final(s, steps), step)) ==> Final(s, steps).phase == seq(|s.phase|, i => Idle)
    decreases |steps|
  {
    if steps == [] {
      if forall step :: !Onward(s, step) {
        forall t: nat | t < |s.phase|
          ensures s.phase[t].Idle?
        {
          if !s.phase[t].Idle? {
            NeverStuck(s, t);
          }
        }
      }
    } else {
      LockKept(s, steps[0]);
      LogKept(s, steps[0]);
      RankFalls(s, steps[0]);
      EveryoneGetsThrough(Apply(s, steps[0]), steps[1..]);
    }
  }
}
