/** CNktFastReadWriteLock as a step machine. Every step is one stretch of code that runs while
the internal mutex is held: sleeping in a wait loop releases the mutex, and waking takes it
again, so between two steps any other thread may run.
*/
module ReadWriteLock {
  import opened Sets

  // --- The lock's own fields, LONGs that wrap around at 2^31

  datatype Lock = Lock(rw: int, readers: int, waiting: int, preferred: bool)

  const LONG_LIMIT: int := 0x8000_0000

  function Increment(n: int): int {
    if n + 1 >= LONG_LIMIT then n + 1 - 2 * LONG_LIMIT else n + 1
  }

  function Decrement(n: int): int {
    if n - 1 < -LONG_LIMIT then n - 1 + 2 * LONG_LIMIT else n - 1
  }

  /** They stay LONGs and are right up to multiples of 2^32. */
  lemma LongArithmetic(n: int)
    requires -0x8000_0000 <= n < 0x8000_0000
    ensures -0x8000_0000 <= Increment(n) < 0x8000_0000 && (Increment(n) - (n + 1)) % 0x1_0000_0000 == 0
    ensures -0x8000_0000 <= Decrement(n) < 0x8000_0000 && (Decrement(n) - (n - 1)) % 0x1_0000_0000 == 0
  {
  }

  /** The guard of the reader's wait loop. */
  predicate ReaderBlocked(l: Lock) {
    l.waiting > 0 || (l.rw > 0 && l.preferred)
  }

  /** The guard of the writer's wait loop. */
  predicate WriterBlocked(l: Lock) {
    l.readers > 0 || l.rw > 0
  }

  class CNktFastReadWriteLock {
    var nReadWriteLock: int
    var nReaderCount: int
    var nWriterWait: int
    const bWriterPreferred: bool

    function State(): Lock
      reads this
    {
      Lock(nReadWriteLock, nReaderCount, nWriterWait, bWriterPreferred)
    }

    constructor (preferred: bool)
      ensures State() == Lock(0, 0, 0, preferred)
    {
      bWriterPreferred := preferred;
      nReadWriteLock, nReaderCount, nWriterWait := 0, 0, 0;
    }

    /** ReaderLock from its entry, or from a wake-up, to the end or to the next sleep. It is also
        the whole of TryReaderLock, which gives up where ReaderLock sleeps. */
    method ReaderTest() returns (admitted: bool)
      modifies this
      ensures admitted == !ReaderBlocked(old(State()))
      ensures State() == if admitted then old(State()).(readers := Increment(old(nReaderCount))) else old(State())
    {
      if nWriterWait > 0 || (nReadWriteLock > 0 && bWriterPreferred) {
        return false;
      }
      nReaderCount := Increment(nReaderCount);
      return true;
    }

    /** WriterLock from its entry to the end or to the first sleep. */
    method WriterTest() returns (acquired: bool)
      modifies this
      ensures acquired == !WriterBlocked(old(State()))
      ensures State() == WriterEnter(old(State()))
    {
      if nReaderCount > 0 || nReadWriteLock > 0 {
        nWriterWait := Increment(nWriterWait);
        return false;
      }
      nReadWriteLock := 1;
      return true;
    }

    /** WriterLock from a wake-up to the end or to the next sleep. */
    method WriterWake() returns (acquired: bool)
      modifies this
      ensures acquired == !WriterBlocked(old(State()))
      ensures State() == WriterEnter(old(State()).(waiting := Decrement(old(nWriterWait))))
    {
      nWriterWait := Decrement(nWriterWait);
      acquired := WriterTest();
    }

    method TryWriterLock() returns (acquired: bool)
      modifies this
      ensures acquired == !WriterBlocked(old(State()))
      ensures State() == if acquired then old(State()).(rw := 1) else old(State())
    {
      if nReaderCount > 0 || nReadWriteLock > 0 {
        return false;
      }
      nReadWriteLock := 1;
      return true;
    }

    method Unlock()
      modifies this
      ensures State() == Release(old(State()))
    {
      if nReaderCount > 0 {
        nReaderCount := Decrement(nReaderCount);
      } else {
        nReadWriteLock := 0;
      }
    }
  }

  function WriterEnter(l: Lock): Lock {
    if WriterBlocked(l) then l.(waiting := Increment(l.waiting)) else l.(rw := 1)
  }

  /** The one Unlock: with readers present it takes a reader out, otherwise the writer. */
  function Release(l: Lock): Lock {
    if l.readers > 0 then l.(readers := Decrement(l.readers)) else l.(rw := 0)
  }

  // --- Threads

  datatype Pc = Idle | ReaderSleeps | Reading | WriterSleeps | Writing

  type Thread = nat

  datatype System = System(lock: Lock, pc: map<Thread, Pc>)

  /** What a thread does next: one of the five calls, or waking up inside one. */
  datatype Action = ReaderLock(t: Thread) | TryReaderLock(t: Thread) | WriterLock(t: Thread)
                  | TryWriterLock(t: Thread) | Wake(t: Thread) | Unlock(t: Thread)

  predicate Enabled(s: System, a: Action) {
    && a.t in s.pc
    && match a
       case Wake(t) => s.pc[t] == ReaderSleeps || s.pc[t] == WriterSleeps
       case Unlock(t) => s.pc[t] == Reading || s.pc[t] == Writing
       case _ => s.pc[a.t] == Idle
  }

  function ReaderStep(s: System, t: Thread, refused: Pc): System {
    if ReaderBlocked(s.lock) then s.(pc := s.pc[t := refused])
    else System(s.lock.(readers := Increment(s.lock.readers)), s.pc[t := Reading])
  }

  function WriterStep(s: System, t: Thread, l: Lock): System {
    System(WriterEnter(l), s.pc[t := if WriterBlocked(l) then WriterSleeps else Writing])
  }

  function Next(s: System, a: Action): System
    requires Enabled(s, a)
  {
    match a
    case ReaderLock(t) => ReaderStep(s, t, ReaderSleeps)
    case TryReaderLock(t) => ReaderStep(s, t, Idle)
    case WriterLock(t) => WriterStep(s, t, s.lock)
    case TryWriterLock(t) =>
      if WriterBlocked(s.lock) then s else System(s.lock.(rw := 1), s.pc[t := Writing])
    case Wake(t) =>
      if s.pc[t] == ReaderSleeps then ReaderStep(s, t, ReaderSleeps)
      else WriterStep(s, t, s.lock.(waiting := Decrement(s.lock.waiting)))
    case Unlock(t) => System(Release(s.lock), s.pc[t := Idle])
  }

  ghost predicate Legal(s: System, acts: seq<Action>)
    decreases |acts|
  {
    acts != [] ==> Enabled(s, acts[0]) && Legal(Next(s, acts[0]), acts[1..])
  }

  ghost function After(s: System, acts: seq<Action>): System
    requires Legal(s, acts)
    decreases |acts|
  {
    if acts == [] then s else After(Next(s, acts[0]), acts[1..])
  }

  /** The threads, all idle, around a new lock. */
  ghost predicate Initial(s: System, preferred: bool) {
    && s.lock == Lock(0, 0, 0, preferred)
    && |s.pc| < LONG_LIMIT
    && forall t :: t in s.pc ==> s.pc[t] == Idle
  }

  // --- The invariant

  ghost function At(s: System, p: Pc): set<Thread> {
    set t | t in s.pc && s.pc[t] == p
  }

  /** Holds whatever the preference: the wait counter is the number of sleeping writers. */
  ghost predicate Counted(s: System) {
    && |s.pc| < LONG_LIMIT
    && s.lock.waiting == |At(s, WriterSleeps)|
    && 0 <= s.lock.readers <= |At(s, Reading)|
    && (s.lock.rw == 0 || s.lock.rw == 1)
  }

  /** Holds when writers are preferred: all three fields count threads, and readers and writers
      exclude each other. */
  ghost predicate Exact(s: System) {
    && Counted(s)
    && s.lock.preferred
    && s.lock.readers == |At(s, Reading)|
    && s.lock.rw == |At(s, Writing)|
    && (s.lock.rw == 0 || s.lock.readers == 0)
  }

  /** Holds whatever the preference: the lock's fields together count the threads that hold it, and
      no two of these are writers. */
  ghost predicate Balanced(s: System) {
    && Counted(s)
    && s.lock.readers + s.lock.rw == |At(s, Reading)| + |At(s, Writing)|
    && |At(s, Writing)| <= 1
  }

  ghost predicate Exclusive(s: System) {
    && |At(s, Writing)| <= 1
    && (At(s, Writing) == {} || At(s, Reading) == {})
  }

  /** Moving thread t to q changes the count of q and of the place it left by one each. */
  lemma Moved(s: System, t: Thread, q: Pc, l: Lock)
    requires t in s.pc
    ensures var n := System(l, s.pc[t := q]);
      && (forall p :: p != q && p != s.pc[t] ==> At(n, p) == At(s, p))
      && (s.pc[t] != q ==> At(n, q) == At(s, q) + {t} && |At(n, q)| == |At(s, q)| + 1)
      && (s.pc[t] != q ==> At(n, s.pc[t]) == At(s, s.pc[t]) - {t} && |At(n, s.pc[t])| == |At(s, s.pc[t])| - 1)
      && (s.pc[t] == q ==> At(n, q) == At(s, q))
      && |n.pc| == |s.pc|
  {
    var n := System(l, s.pc[t := q]);
    assert n.pc.Keys == s.pc.Keys;
    if s.pc[t] != q {
      assert At(n, q) == At(s, q) + {t};
      assert At(n, s.pc[t]) == At(s, s.pc[t]) - {t};
    }
  }

  lemma AtBound(s: System, p: Pc)
    ensures |At(s, p)| <= |s.pc|
  {
    assert At(s, p) <= s.pc.Keys;
    SubsetSize(At(s, p), s.pc.Keys);
  }

  lemma InitialExact(s: System, preferred: bool)
    requires Initial(s, preferred)
    ensures Balanced(s) && (preferred ==> Exact(s))
  {
    assert At(s, WriterSleeps) == {} && At(s, Reading) == {} && At(s, Writing) == {};
  }

  /** What a move from one place to another does to the count of a place. */
  function Delta(p: Pc, from: Pc, to: Pc): int {
    (if p == to then 1 else 0) - (if p == from then 1 else 0)
  }

  lemma MovedCount(s: System, t: Thread, q: Pc, l: Lock, p: Pc)
    requires t in s.pc
    ensures var n := System(l, s.pc[t := q]);
      |At(n, p)| == |At(s, p)| + Delta(p, s.pc[t], q) && |n.pc| == |s.pc| && |At(n, p)| <= |n.pc|
  {
    hide At;
    Moved(s, t, q, l);
    AtBound(System(l, s.pc[t := q]), p);
  }

  lemma NextMoves(s: System, a: Action)
    requires Enabled(s, a)
    ensures a.t in Next(s, a).pc
    ensures Next(s, a) == System(Next(s, a).lock, s.pc[a.t := Next(s, a).pc[a.t]])
    ensures Next(s, a).lock.preferred == s.lock.preferred
  {
  }

  /** A step counted in numbers: how many threads read, write and sleep as writers. */
  lemma StepInNumbers(s: System, a: Action, reading: int, writing: int, sleeping: int)
    requires Enabled(s, a) && |s.pc| < LONG_LIMIT
    requires s.lock.waiting == sleeping && 0 <= s.lock.readers <= reading <= |s.pc| &&
        (s.lock.rw == 0 || s.lock.rw == 1)
    requires 0 <= sleeping <= |s.pc| && 0 <= writing
    requires s.pc[a.t] == Reading ==> reading >= 1
    requires s.pc[a.t] == Writing ==> writing >= 1
    requires s.pc[a.t] == WriterSleeps ==> sleeping >= 1
    ensures a.t in Next(s, a).pc
    ensures var n, q := Next(s, a), Next(s, a).pc[a.t];
      var r, w := reading + Delta(Reading, s.pc[a.t], q), writing + Delta(Writing, s.pc[a.t], q);
      && (r <= |s.pc| && sleeping + Delta(WriterSleeps, s.pc[a.t], q) <= |s.pc| ==>
            && n.lock.waiting == sleeping + Delta(WriterSleeps, s.pc[a.t], q)
            && 0 <= n.lock.readers <= r && (n.lock.rw == 0 || n.lock.rw == 1))
      && (r <= |s.pc| && s.lock.preferred && s.lock.readers == reading && s.lock.rw == writing &&
          (writing == 0 || reading == 0) ==>
            n.lock.readers == r && n.lock.rw == w && (w == 0 || r == 0))
      && (r <= |s.pc| && s.lock.readers + s.lock.rw == reading + writing && writing <= 1 ==>
            n.lock.readers + n.lock.rw == r + w && w <= 1)
  {
  }

  /** One step keeps the wait counter right, for either preference. */
  lemma StepCounted(s: System, a: Action)
    requires Counted(s) && Enabled(s, a)
    ensures Counted(Next(s, a)) && Next(s, a).lock.preferred == s.lock.preferred
  {
    hide At, Next, Enabled;
    NextMoves(s, a);
    EnabledThread(s, a);
    var n := Next(s, a);
    MovedCount(s, a.t, n.pc[a.t], n.lock, Reading);
    MovedCount(s, a.t, n.pc[a.t], n.lock, WriterSleeps);
    AtBound(s, Reading);
    AtBound(s, WriterSleeps);
    Present(s, a.t);
    StepInNumbers(s, a, |At(s, Reading)|, |At(s, Writing)|, |At(s, WriterSleeps)|);
  }

  lemma EnabledThread(s: System, a: Action)
    requires Enabled(s, a)
    ensures a.t in s.pc
  {
  }

  /** One step keeps all three counters exact when writers are preferred. */
  lemma StepExact(s: System, a: Action)
    requires Exact(s) && Enabled(s, a)
    ensures Exact(Next(s, a))
  {
    hide At, Next, Enabled, Counted;
    StepCounted(s, a);
    CountedNumbers(s);
    NextMoves(s, a);
    EnabledThread(s, a);
    var n := Next(s, a);
    MovedCount(s, a.t, n.pc[a.t], n.lock, Reading);
    MovedCount(s, a.t, n.pc[a.t], n.lock, Writing);
    Present(s, a.t);
    StepInNumbers(s, a, |At(s, Reading)|, |At(s, Writing)|, |At(s, WriterSleeps)|);
  }

  /** One step keeps the balance, for either preference. */
  lemma StepBalanced(s: System, a: Action)
    requires Balanced(s) && Enabled(s, a)
    ensures Balanced(Next(s, a)) && Next(s, a).lock.preferred == s.lock.preferred
  {
    hide At, Next, Enabled, Counted;
    StepCounted(s, a);
    CountedNumbers(s);
    NextMoves(s, a);
    EnabledThread(s, a);
    var n := Next(s, a);
    MovedCount(s, a.t, n.pc[a.t], n.lock, Reading);
    MovedCount(s, a.t, n.pc[a.t], n.lock, Writing);
    Present(s, a.t);
    StepInNumbers(s, a, |At(s, Reading)|, |At(s, Writing)|, |At(s, WriterSleeps)|);
  }

  lemma CountedNumbers(s: System)
    requires Counted(s)
    ensures |s.pc| < LONG_LIMIT && s.lock.waiting == |At(s, WriterSleeps)| <= |s.pc|
    ensures 0 <= s.lock.readers <= |At(s, Reading)| <= |s.pc| && (s.lock.rw == 0 || s.lock.rw == 1)
  {
    hide At;
    AtBound(s, Reading);
    AtBound(s, WriterSleeps);
  }

  lemma Present(s: System, t: Thread)
    requires t in s.pc
    ensures |At(s, s.pc[t])| >= 1
  {
    assert t in At(s, s.pc[t]);
    SubsetSize({t}, At(s, s.pc[t]));
  }

  lemma ExactExclusive(s: System)
    requires Exact(s)
    ensures Exclusive(s)
  {
  }

  // --- Runs

  lemma {:induction false} RunExact(s: System, acts: seq<Action>)
    requires Exact(s) && Legal(s, acts)
    ensures Exact(After(s, acts))
    decreases |acts|
  {
    if acts == [] {
    } else {
      StepExact(s, acts[0]);
      RunExact(Next(s, acts[0]), acts[1..]);
    }
  }

  lemma {:induction false} RunBalanced(s: System, acts: seq<Action>)
    requires Balanced(s) && Legal(s, acts)
    ensures Balanced(After(s, acts))
    decreases |acts|
  {
    if acts == [] {
    } else {
      StepBalanced(s, acts[0]);
      RunBalanced(Next(s, acts[0]), acts[1..]);
    }
  }

  /** For either preference, over every interleaving: never two writers, and the fields of the lock
      count the sleeping writers and, together, the threads that hold it. */
  lemma NeverTwoWriters(s: System, preferred: bool, acts: seq<Action>)
    requires Initial(s, preferred) && Legal(s, acts)
    ensures var n := After(s, acts);
      && |At(n, Writing)| <= 1
      && n.lock.waiting == |At(n, WriterSleeps)|
      && n.lock.readers + n.lock.rw == |At(n, Reading)| + |At(n, Writing)|
      && n.lock.readers <= |At(n, Reading)|
  {
    InitialExact(s, preferred);
    RunBalanced(s, acts);
  }

  /** With writers preferred, over every interleaving of any number of threads: no reader beside
      a writer, no two writers, and the three fields count the reading, writing and
      sleeping-writer threads. */
  lemma MutualExclusion(s: System, acts: seq<Action>)
    requires Initial(s, true) && Legal(s, acts)
    ensures var n := After(s, acts);
      && Exclusive(n)
      && n.lock.readers == |At(n, Reading)|
      && n.lock.rw == |At(n, Writing)|
      && n.lock.waiting == |At(n, WriterSleeps)|
  {
    InitialExact(s, true);
    RunExact(s, acts);
    ExactExclusive(After(s, acts));
  }

  /** Exclusion over all runs holds exactly when writers are preferred: otherwise a reader is
      admitted beside an active writer. */
  lemma ExclusionIffPreferred(s: System, preferred: bool)
    requires Initial(s, preferred) && |s.pc| >= 2
    ensures preferred <==> forall acts :: Legal(s, acts) ==> Exclusive(After(s, acts))
  {
    if preferred {
      forall acts | Legal(s, acts) ensures Exclusive(After(s, acts)) {
        MutualExclusion(s, acts);
      }
    } else {
      var t, u := TwoThreads(s.pc.Keys);
      ReaderBesideWriter(s, t, u);
    }
  }

  lemma TwoThreads(s: set<Thread>) returns (t: Thread, u: Thread)
    requires |s| >= 2
    ensures t in s && u in s && t != u
  {
    t :| t in s;
    assert |s - {t}| >= 1;
    u :| u in s - {t};
  }

  /** A writer and then a reader, without the preference. */
  lemma WriterThenReader(s: System, t: Thread, u: Thread) returns (acts: seq<Action>)
    requires Initial(s, false) && t in s.pc && u in s.pc && t != u
    ensures Legal(s, acts)
    ensures After(s, acts) == System(Lock(1, 1, 0, false), s.pc[t := Writing][u := Reading])
  {
    acts := [WriterLock(t), ReaderLock(u)];
    var s1 := Next(s, acts[0]);
    var s2 := Next(s1, acts[1]);
    assert acts[1..] == [ReaderLock(u)] && acts[1..][1..] == [];
    assert Legal(s1, acts[1..]) && After(s2, acts[1..][1..]) == s2;
    assert After(s, acts) == s2;
  }

  lemma ReaderBesideWriter(s: System, t: Thread, u: Thread)
    requires Initial(s, false) && t in s.pc && u in s.pc && t != u
    ensures exists acts :: Legal(s, acts) && !Exclusive(After(s, acts))
  {
    var acts := WriterThenReader(s, t, u);
    var n := After(s, acts);
    assert t in At(n, Writing) && u in At(n, Reading);
    assert Legal(s, acts) && !Exclusive(n);
  }

  /** Unlock takes its caller's own kind of hold out of the lock. */
  ghost predicate ReleasesOwnKind(s: System, t: Thread)
    requires Enabled(s, Unlock(t))
  {
    Next(s, Unlock(t)).lock ==
      if s.pc[t] == Reading then s.lock.(readers := s.lock.readers - 1) else s.lock.(rw := s.lock.rw - 1)
  }

  /** For either preference: a writer's Unlock releases the writer exactly when no thread reads, and
      a reader's releases a reader exactly when the lock still counts one. */
  lemma UnlockReleasesOwnKindIff(s: System, t: Thread)
    requires Balanced(s) && Enabled(s, Unlock(t))
    ensures s.pc[t] == Writing ==> (ReleasesOwnKind(s, t) <==> At(s, Reading) == {})
    ensures s.pc[t] == Reading ==> (ReleasesOwnKind(s, t) <==> s.lock.readers > 0)
  {
    hide At;
    Present(s, t);
    if At(s, Reading) == {} { assert |At(s, Reading)| == 0; }
  }

  /** With writers preferred it always does, and afterwards a writer's lock is free. */
  lemma UnlockReleasesOwnKind(s: System, t: Thread)
    requires Exact(s) && Enabled(s, Unlock(t))
    ensures ReleasesOwnKind(s, t)
    ensures var n := Next(s, Unlock(t));
      && (s.pc[t] == Reading ==> At(n, Writing) == At(s, Writing))
      && (s.pc[t] == Writing ==> At(n, Writing) == {} && At(n, Reading) == {})
  {
    Present(s, t);
    Moved(s, t, Idle, Release(s.lock));
  }

  /** Without the preference the kinds do get mixed up: the writer's Unlock takes out the reader
      that came in beside it. */
  lemma UnlockMixesKinds(s: System, t: Thread, u: Thread)
    requires Initial(s, false) && t in s.pc && u in s.pc && t != u
    ensures exists acts :: Legal(s, acts) && Enabled(After(s, acts), Unlock(t)) && !ReleasesOwnKind(After(s, acts), t)
  {
    var acts := WriterThenReader(s, t, u);
    assert Legal(s, acts) && !ReleasesOwnKind(After(s, acts), t);
  }

  // --- When a thread gets in

  /** t attempts to read: an idle thread calls, or a sleeping reader wakes up. */
  ghost predicate TriesToRead(s: System, a: Action) {
    Enabled(s, a) && (a.ReaderLock? || a.TryReaderLock? || (a.Wake? && s.pc[a.t] == ReaderSleeps))
  }

  ghost predicate TriesToWrite(s: System, a: Action) {
    Enabled(s, a) && (a.WriterLock? || a.TryWriterLock? || (a.Wake? && s.pc[a.t] == WriterSleeps))
  }

  /** Where an attempt leaves its thread: in, or asleep, or told no. Nobody else moves. */
  ghost predicate Outcome(s: System, a: Action, entered: bool, reached: Pc, sleep: Pc)
    requires Enabled(s, a)
  {
    Next(s, a).pc ==
      s.pc[a.t := if entered then reached else if a.TryReaderLock? || a.TryWriterLock? then Idle else sleep]
  }

  /** A reader is admitted if and only if no thread sleeps in WriterLock and, with writers
      preferred, none writes. So readers never keep each other out. */
  lemma ReaderEntersIff(s: System, a: Action)
    requires Balanced(s) && (s.lock.preferred ==> Exact(s)) && TriesToRead(s, a)
    ensures Outcome(s, a, At(s, WriterSleeps) == {} && (s.lock.preferred ==> At(s, Writing) == {}),
                    Reading, ReaderSleeps)
  {
    hide At;
    NoneAt(s, WriterSleeps);
    NoneAt(s, Writing);
  }

  /** For either preference a writer gets in if and only if nobody holds the lock, whoever else
      waits. A writer that wakes up does not count as waiting for itself. */
  lemma WriterEntersIff(s: System, a: Action)
    requires Balanced(s) && TriesToWrite(s, a)
    ensures Outcome(s, a, At(s, Reading) == {} && At(s, Writing) == {}, Writing, WriterSleeps)
  {
    hide At;
    NoneAt(s, Reading);
    NoneAt(s, Writing);
  }

  lemma NoneAt(s: System, p: Pc)
    ensures At(s, p) == {} <==> |At(s, p)| == 0
  {
  }

  /** The same in every state of every run. */
  lemma AdmissionOverRuns(s: System, preferred: bool, acts: seq<Action>, a: Action)
    requires Initial(s, preferred) && Legal(s, acts) && Enabled(After(s, acts), a)
    ensures var n := After(s, acts);
      && (TriesToRead(n, a) ==>
            Outcome(n, a, At(n, WriterSleeps) == {} && (preferred ==> At(n, Writing) == {}), Reading, ReaderSleeps))
      && (TriesToWrite(n, a) ==>
            Outcome(n, a, At(n, Reading) == {} && At(n, Writing) == {}, Writing, WriterSleeps))
      && (a.Unlock? ==> Next(n, a).pc == n.pc[a.t := Idle])
  {
    hide Outcome, At;
    var n := After(s, acts);
    InitialExact(s, preferred);
    RunBalanced(s, acts);
    KeepsPreference(s, acts);
    if preferred { RunExact(s, acts); }
    if TriesToRead(n, a) { ReaderEntersIff(n, a); }
    if TriesToWrite(n, a) { WriterEntersIff(n, a); }
  }

  lemma {:induction false} KeepsPreference(s: System, acts: seq<Action>)
    requires Legal(s, acts)
    ensures After(s, acts).lock.preferred == s.lock.preferred
    decreases |acts|
  {
    if acts == [] {
    } else {
      NextMoves(s, acts[0]);
      KeepsPreference(Next(s, acts[0]), acts[1..]);
    }
  }

  /** Readers share: some run has all threads, however many, reading at once. */
  lemma AllReadAtOnce(s: System, preferred: bool) returns (acts: seq<Action>)
    requires Initial(s, preferred)
    ensures Legal(s, acts) && After(s, acts).pc == map t | t in s.pc :: Reading
  {
    InitialExact(s, preferred);
    acts := RestReads(s, s.pc.Keys);
  }

  lemma {:induction false} RestReads(s: System, rest: set<Thread>) returns (acts: seq<Action>)
    requires Balanced(s) && (s.lock.preferred ==> Exact(s)) && rest <= s.pc.Keys
    requires forall t :: t in s.pc ==> s.pc[t] == if t in rest then Idle else Reading
    ensures Legal(s, acts) && After(s, acts).pc == map t | t in s.pc :: Reading
    decreases |rest|
  {
    if rest == {} {
      acts := [];
    } else {
      var t :| t in rest;
      var a := ReaderLock(t);
      assert At(s, WriterSleeps) == {} && At(s, Writing) == {};
      ReaderEntersIff(s, a);
      StepBalanced(s, a);
      if s.lock.preferred { StepExact(s, a); }
      var n := Next(s, a);
      assert n.pc.Keys == s.pc.Keys;
      var more := RestReads(n, rest - {t});
      acts := [a] + more;
      assert acts[1..] == more;
    }
  }

  // --- A sleeping writer keeps readers out

  /** Thread w sleeps in WriterLock at every state of the run. */
  ghost predicate SleepsThroughout(s: System, acts: seq<Action>, w: Thread)
    requires Legal(s, acts)
    decreases |acts|
  {
    && w in s.pc && s.pc[w] == WriterSleeps
    && (acts != [] ==> SleepsThroughout(Next(s, acts[0]), acts[1..], w))
  }

  lemma StepAdmitsNoReader(s: System, a: Action, w: Thread)
    requires Counted(s) && Enabled(s, a) && w in s.pc && s.pc[w] == WriterSleeps
    requires w in Next(s, a).pc && Next(s, a).pc[w] == WriterSleeps
    ensures At(Next(s, a), Reading) <= At(s, Reading)
    ensures Next(s, a).lock.readers <= s.lock.readers
  {
    Present(s, w);
  }

  /** For either preference: from a writer's first sleep in WriterLock until it acquires, through
      all its unsuccessful wake-ups, no reader is admitted. */
  lemma {:induction false} NoReaderPastSleepingWriter(s: System, acts: seq<Action>, w: Thread)
    requires Counted(s) && Legal(s, acts) && SleepsThroughout(s, acts, w)
    ensures At(After(s, acts), Reading) <= At(s, Reading)
    ensures After(s, acts).lock.readers <= s.lock.readers
    decreases |acts|
  {
    if acts == [] {
    } else {
      StepAdmitsNoReader(s, acts[0], w);
      StepCounted(s, acts[0]);
      NoReaderPastSleepingWriter(Next(s, acts[0]), acts[1..], w);
    }
  }

  /** The same from the start of any run, so that no assumption on the middle state is left. */
  lemma NoReaderWhileWriterWaits(s: System, preferred: bool, before: seq<Action>, acts: seq<Action>, w: Thread)
    requires Initial(s, preferred) && Legal(s, before)
    requires Legal(After(s, before), acts) && SleepsThroughout(After(s, before), acts, w)
    ensures At(After(After(s, before), acts), Reading) <= At(After(s, before), Reading)
  {
    InitialExact(s, preferred);
    RunBalanced(s, before);
    NoReaderPastSleepingWriter(After(s, before), acts, w);
  }

  // --- Nobody sleeps for ever without a cause

  ghost predicate Holds(s: System, t: Thread)
    requires t in s.pc
  {
    s.pc[t] == Reading || s.pc[t] == Writing
  }

  /** Waking up, the thread gets the lock. */
  ghost predicate Enters(s: System, t: Thread)
    requires t in s.pc
  {
    Enabled(s, Wake(t)) && (Next(s, Wake(t)).pc[t] == Reading || Next(s, Wake(t)).pc[t] == Writing)
  }

  /** For either preference: a thread that sleeps in a reachable state is kept waiting by a thread that
      holds the lock or by another that can be let in: some thread can always be released or
      admitted. */
  lemma NoDeadlock(s: System, t: Thread)
    requires Balanced(s) && t in s.pc && (s.pc[t] == ReaderSleeps || s.pc[t] == WriterSleeps)
    ensures exists u :: u in s.pc && (Holds(s, u) || Enters(s, u))
  {
    if At(s, Reading) != {} {
      var u :| u in At(s, Reading);
      assert u in s.pc && Holds(s, u);
    } else if At(s, Writing) != {} {
      var u :| u in At(s, Writing);
      assert u in s.pc && Holds(s, u);
    } else if At(s, WriterSleeps) != {} {
      var u :| u in At(s, WriterSleeps);
      assert u in s.pc && Enters(s, u);
    } else {
      assert t !in At(s, WriterSleeps);
      assert Enters(s, t);
    }
  }
}
