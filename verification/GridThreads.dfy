/**
 * The protocol between the main thread of a gridding and its workers: strided rows, a shared counter, a stop flag,
 * and a mutex with a condition variable. An action is one access to shared state by one thread.
 */
module GridThreads {

  /** The rows of the grid and the number of workers. */
  datatype Config = Config(ySize: nat, numThreads: nat) {
    predicate Valid() {
      numThreads >= 1
    }
  }

  datatype WorkerPc =
    | NotCreated
    | Starting
    | Testing
    | Gridding
    | Writing
    | Checking
    | Locking
    | Counting
    | Signalling
    | Reading
    | Releasing
    | Ended

  /** What a worker reports when it counts: a finished row, a row that failed, or that there is no line buffer. */
  datatype Report = RowDone | RowFailed | NoMemory

  datatype Worker = Worker(pc: WorkerPc, y: nat, report: Report, saw: bool) {
    predicate Reporting() {
      pc.Locking? || pc.Counting? || pc.Signalling? || pc.Reading? || pc.Releasing?
    }

    predicate Locks() {
      pc.Counting? || pc.Signalling? || pc.Reading? || pc.Releasing?
    }

    /** The worker raised the stop flag and has not signalled yet. */
    predicate WillWake() {
      (pc.Locking? || pc.Counting? || pc.Signalling?) && report != RowDone
    }
  }

  /** What the main thread does next; it is astray once it reads the record of a thread that was never created. */
  datatype MainPc =
    | Creating
    | TestCounter
    | TestStop
    | StartWait
    | Waiting
    | Woken
    | Sampling
    | Unlocking
    | Callback
    | Relocking
    | FinalUnlock
    | Joining(joined: nat)
    | Finished
    | Astray
  {
    predicate Locks() {
      Creating? || TestCounter? || TestStop? || StartWait? || Sampling? || Unlocking? || FinalUnlock?
    }
  }

  datatype Owner = Free | MainThread | WorkerThread(w: nat)

  /** For every row, writes has an entry for each time it was written: whether all its points were gridded. */
  datatype State = State(
    workers: seq<Worker>,
    main: MainPc,
    created: nat,
    mutex: Owner,
    counter: nat,
    stop: bool,
    writes: seq<seq<bool>>)

  /** A worker that may fail, the main thread whose callback may end the gridding, or a wake-up without a signal. */
  datatype Action = Work(w: nat, fails: bool) | Main(ends: bool) | Spurious

  function Init(c: Config): State {
    State(seq(c.numThreads, _ => Worker(NotCreated, 0, RowDone, false)), Creating, 0, MainThread, 0, false,
          seq(c.ySize, _ => []))
  }

  predicate Shape(c: Config, s: State) {
    |s.workers| == c.numThreads && |s.writes| == c.ySize && s.created <= c.numThreads
  }

  // ---------------------------------------------------------------------
  // Steps.
  // ---------------------------------------------------------------------

  predicate WorkerEnabled(c: Config, s: State, w: nat) {
    && w < |s.workers|
    && !s.workers[w].pc.NotCreated? && !s.workers[w].pc.Ended?
    && (s.workers[w].pc.Locking? ==> s.mutex == Free)
    && (s.workers[w].pc.Writing? ==> s.workers[w].y < |s.writes|)
  }

  function WorkerNext(c: Config, s: State, w: nat, fails: bool): State
    requires WorkerEnabled(c, s, w)
  {
    var x := s.workers[w];
    match x.pc
    case Starting =>
      if fails then s.(workers := s.workers[w := x.(pc := Locking, report := NoMemory)], stop := true)
      else s.(workers := s.workers[w := x.(pc := Testing)])
    case Testing =>
      s.(workers := s.workers[w := x.(pc := if x.y < c.ySize then Gridding else Ended)])
    case Gridding =>
      if fails then s.(workers := s.workers[w := x.(pc := Locking, report := RowFailed)], stop := true)
      else s.(workers := s.workers[w := x.(pc := Writing)])
    case Writing =>
      s.(workers := s.workers[w := x.(pc := Checking)],
         writes := s.writes[x.y := s.writes[x.y] + [x.report == RowDone]])
    case Checking =>
      s.(workers := s.workers[w := if s.stop then x.(pc := Ended) else x.(pc := Locking, report := RowDone)])
    case Locking =>
      s.(workers := s.workers[w := x.(pc := Counting)], mutex := WorkerThread(w))
    case Counting =>
      s.(workers := s.workers[w := x.(pc := Signalling)], counter := s.counter + 1)
    case Signalling =>
      s.(workers := s.workers[w := x.(pc := Reading)], main := if s.main == Waiting then Woken else s.main)
    case Reading =>
      s.(workers := s.workers[w := x.(pc := Releasing, saw := s.stop)])
    case Releasing =>
      s.(workers := s.workers[w := AfterReport(c, x)], mutex := Free)
    case _ => s
  }

  /** A worker whose call of the progress function has returned. */
  function AfterReport(c: Config, x: Worker): Worker {
    match x.report
    case NoMemory => x.(pc := Ended)
    case RowFailed => x.(pc := Writing)
    case RowDone => if x.saw then x.(pc := Ended) else x.(pc := Testing, y := x.y + c.numThreads)
  }

  predicate MainEnabled(c: Config, s: State) {
    && s.main != Waiting && s.main != Finished && s.main != Astray
    && (s.main.Woken? || s.main.Relocking? ==> s.mutex == Free)
    && (s.main.Joining? && s.main.joined < s.created && s.main.joined < |s.workers| ==>
          s.workers[s.main.joined].pc.Ended?)
  }

  function MainNext(c: Config, s: State, ends: bool): State
    requires Shape(c, s) && MainEnabled(c, s)
  {
    match s.main
    case Creating =>
      if s.created < c.numThreads && !s.stop then
        s.(workers := s.workers[s.created := Worker(Starting, s.created, RowDone, false)], created := s.created + 1)
      else
        s.(main := TestCounter)
    case TestCounter => s.(main := if s.counter < c.ySize then TestStop else FinalUnlock)
    case TestStop => s.(main := if s.stop then FinalUnlock else StartWait)
    case StartWait => s.(main := Waiting, mutex := Free)
    case Woken => s.(main := Sampling, mutex := MainThread)
    case Sampling => s.(main := Unlocking)
    case Unlocking => s.(main := Callback, mutex := Free)
    case Callback => s.(main := Relocking, stop := s.stop || ends)
    case Relocking => s.(main := TestCounter, mutex := MainThread)
    case FinalUnlock => s.(main := Joining(0), mutex := Free)
    case Joining(j) =>
      s.(main := if j >= c.numThreads then Finished else if j < s.created then Joining(j + 1) else Astray)
    case _ => s
  }

  predicate Enabled(c: Config, s: State, a: Action) {
    match a
    case Work(w, _) => WorkerEnabled(c, s, w)
    case Main(_) => MainEnabled(c, s)
    case Spurious => s.main == Waiting
  }

  function Next(c: Config, s: State, a: Action): State
    requires Shape(c, s) && Enabled(c, s, a)
  {
    match a
    case Work(w, fails) => WorkerNext(c, s, w, fails)
    case Main(ends) => MainNext(c, s, ends)
    case Spurious => s.(main := Woken)
  }

  /** A run visits the states of run by the actions. */
  ghost predicate IsRun(c: Config, run: seq<State>, actions: seq<Action>) {
    && |run| == |actions| + 1
    && run[0] == Init(c)
    && forall k :: 0 <= k < |actions| ==>
         Shape(c, run[k]) && Enabled(c, run[k], actions[k]) && run[k + 1] == Next(c, run[k], actions[k])
  }

  // ---------------------------------------------------------------------
  // The invariant.
  // ---------------------------------------------------------------------

  /** What holds of worker w. */
  ghost predicate WorkerOk(c: Config, s: State, w: nat)
    requires c.Valid() && Shape(c, s) && w < c.numThreads
  {
    var x := s.workers[w];
    && (x.pc.NotCreated? <==> w >= s.created)
    && (w < s.created ==> x.y % c.numThreads == w)
    && (x.Locks() <==> s.mutex == WorkerThread(w))
    && (x.pc.Gridding? || x.pc.Writing? || x.pc.Checking? ==> x.y < c.ySize)
    && (x.Reporting() && x.report != NoMemory ==> x.y < c.ySize)
    && ((x.Reporting() || x.pc.Writing? || x.pc.Checking?) && x.report != RowDone ==> s.stop)
    && (x.pc.Gridding? || x.pc.Starting? || x.pc.Testing? ==> x.report == RowDone)
    && ((x.pc.Writing? || x.pc.Checking?) ==> x.report != NoMemory)
    && (x.pc.Releasing? && x.saw ==> s.stop)
    && (x.pc.Ended? && !s.stop ==> x.y >= c.ySize)
  }

  ghost predicate MainOk(c: Config, s: State)
    requires Shape(c, s)
  {
    && (s.main.Locks() <==> s.mutex == MainThread)
    && (s.mutex.WorkerThread? ==> s.mutex.w < c.numThreads)
    && (s.created < c.numThreads && !s.main.Creating? ==> s.stop)
    && (s.main.Joining? ==> s.main.joined <= s.created && AllEnded(c, s, s.main.joined))
    && (s.main.Finished? ==> s.created == c.numThreads && AllEnded(c, s, c.numThreads))
    && (s.main.Astray? ==> s.created < c.numThreads)
  }

  /** The first k workers have ended, if they were created. */
  ghost predicate AllEnded(c: Config, s: State, k: nat)
    requires Shape(c, s) && k <= c.numThreads
  {
    forall w :: 0 <= w < k && w < s.created ==> s.workers[w].pc.Ended?
  }

  /** Worker x, whose rows y is one of, has not written row y, or has written it once. */
  ghost predicate Unwritten(x: Worker, y: nat) {
    || y > x.y
    || x.pc.NotCreated?
    || (y == x.y && (x.pc.Starting? || x.pc.Testing? || x.pc.Gridding? || x.pc.Writing?
                     || (x.Reporting() && x.report != RowDone)))
  }

  ghost predicate Written(x: Worker, y: nat) {
    !x.pc.NotCreated? && (y < x.y || (y == x.y && (x.pc.Checking? || (x.Reporting() && x.report == RowDone))))
  }

  /** The times row y was written. */
  ghost predicate RowOk(c: Config, s: State, y: nat)
    requires c.Valid() && Shape(c, s) && y < c.ySize
  {
    var x := s.workers[y % c.numThreads];
    && (s.writes[y] == [] || s.writes[y] == [true] || s.writes[y] == [false])
    && (Unwritten(x, y) ==> s.writes[y] == [])
    && (Written(x, y) ==> s.writes[y] != [])
    && (s.writes[y] == [false] ==> s.stop)
  }

  /** Row y was reported as finished. */
  predicate Counted(c: Config, s: State, y: nat)
    requires c.Valid() && Shape(c, s)
  {
    var x := s.workers[y % c.numThreads];
    !x.pc.NotCreated? && (y < x.y || (y == x.y && (x.pc.Signalling? || x.pc.Reading? || x.pc.Releasing?)))
  }

  function CountedRows(c: Config, s: State): set<nat>
    requires c.Valid() && Shape(c, s)
  {
    set y: nat | 0 <= y < c.ySize && Counted(c, s, y)
  }

  /** Whenever the main thread waits, or is about to, it has something to wait for. */
  ghost predicate WakeOk(c: Config, s: State)
    requires Shape(c, s)
  {
    && (s.main.TestStop? || s.main.StartWait? ==> s.counter < c.ySize)
    && (s.main.StartWait? || s.main.Waiting? ==>
      && (s.stop ==> exists w :: 0 <= w < c.numThreads && s.workers[w].WillWake())
      && (!s.stop && s.counter >= c.ySize ==> exists w :: 0 <= w < c.numThreads && s.workers[w].pc.Signalling?))
  }

  ghost predicate WorkersOk(c: Config, s: State)
    requires c.Valid() && Shape(c, s)
  {
    forall w :: 0 <= w < c.numThreads ==> WorkerOk(c, s, w)
  }

  ghost predicate RowsOk(c: Config, s: State)
    requires c.Valid() && Shape(c, s)
  {
    forall y :: 0 <= y < c.ySize ==> RowOk(c, s, y)
  }

  ghost predicate CounterOk(c: Config, s: State)
    requires c.Valid() && Shape(c, s)
  {
    !s.stop ==> s.counter == |CountedRows(c, s)|
  }

  ghost predicate Inv(c: Config, s: State) {
    && c.Valid() && Shape(c, s)
    && WorkersOk(c, s) && MainOk(c, s) && RowsOk(c, s) && CounterOk(c, s) && WakeOk(c, s)
  }

  lemma InitInv(c: Config)
    requires c.Valid()
    ensures Inv(c, Init(c))
  {
    assert CountedRows(c, Init(c)) == {};
  }

  // ---------------------------------------------------------------------
  // Steps of a worker keep the invariant.
  // ---------------------------------------------------------------------

  /** What a step of worker w leaves alone. */
  lemma WorkerFrame(c: Config, s: State, w: nat, fails: bool)
    requires Inv(c, s) && WorkerEnabled(c, s, w)
    ensures var t := WorkerNext(c, s, w, fails);
            && Shape(c, t) && t.created == s.created
            && (forall v :: 0 <= v < c.numThreads && v != w ==> t.workers[v] == s.workers[v])
            && (s.stop ==> t.stop)
            && (t.mutex != s.mutex ==> (s.mutex == Free && t.mutex == WorkerThread(w))
                                       || (s.mutex == WorkerThread(w) && t.mutex == Free))
            && (t.main == s.main || (s.main.Waiting? && t.main.Woken?))
  {
    hide RowsOk, CounterOk, WakeOk, MainOk;
    assert WorkerOk(c, s, w);
  }

  lemma WorkerKeepsItself(c: Config, s: State, w: nat, fails: bool)
    requires Inv(c, s) && WorkerEnabled(c, s, w)
    ensures Shape(c, WorkerNext(c, s, w, fails)) && WorkerOk(c, WorkerNext(c, s, w, fails), w)
  {
    hide RowsOk, CounterOk, WakeOk, MainOk;
    assert WorkerOk(c, s, w);
    NextRowModulo(s.workers[w].y, c.numThreads);
  }

  lemma NextRowModulo(y: nat, n: nat)
    requires n >= 1
    ensures (y + n) % n == y % n
  {
    var q, r := y / n, (y + n) / n;
    assert y == n * q + y % n && y + n == n * r + (y + n) % n;
    assert n * (q + 1) == n * q + n;
    SameRemainder(n, q + 1, y % n, r, (y + n) % n);
  }

  lemma SameRemainder(n: nat, q: int, x: int, r: int, y: int)
    requires n * q + x == n * r + y && 0 <= x < n && 0 <= y < n
    ensures x == y
  {
    if q < r {
      LessEqTimes(n, q + 1, r);
    } else if r < q {
      LessEqTimes(n, r + 1, q);
    }
  }

  lemma WorkerKeepsWorkers(c: Config, s: State, w: nat, fails: bool)
    requires Inv(c, s) && WorkerEnabled(c, s, w)
    ensures var t := WorkerNext(c, s, w, fails); Shape(c, t) && WorkersOk(c, t)
  {
    hide RowsOk, CounterOk, WakeOk, MainOk, WorkerNext;
    WorkerFrame(c, s, w, fails);
    WorkerKeepsItself(c, s, w, fails);
    var t := WorkerNext(c, s, w, fails);
    forall v | 0 <= v < c.numThreads
      ensures WorkerOk(c, t, v)
    {
      assert WorkerOk(c, s, v);
    }
  }

  lemma WorkerKeepsMain(c: Config, s: State, w: nat, fails: bool)
    requires Inv(c, s) && WorkerEnabled(c, s, w)
    ensures var t := WorkerNext(c, s, w, fails); Shape(c, t) && MainOk(c, t)
  {
    hide RowsOk, CounterOk, WakeOk, WorkersOk, WorkerNext;
    WorkerFrame(c, s, w, fails);
  }

  /** Rows of the same worker are at least the number of workers apart. */
  lemma Stride(y: nat, z: nat, n: nat)
    requires n >= 1 && y % n == z % n
    ensures y < z ==> y + n <= z
  {
    if y < z {
      var q, r := y / n, z / n;
      assert y == n * q + y % n && z == n * r + z % n;
      if r <= q {
        LessEqTimes(n, r, q);
      }
      LessEqTimes(n, q + 1, r);
    }
  }

  lemma LessEqTimes(n: nat, a: int, b: int)
    requires a <= b
    ensures n * a <= n * b
  {
  }

  lemma WorkerKeepsRows(c: Config, s: State, w: nat, fails: bool)
    requires Inv(c, s) && WorkerEnabled(c, s, w)
    ensures var t := WorkerNext(c, s, w, fails); Shape(c, t) && RowsOk(c, t)
  {
    hide CounterOk, WakeOk, MainOk;
    assert WorkerOk(c, s, w);
    var t := WorkerNext(c, s, w, fails);
    WorkerFrame(c, s, w, fails);
    forall y | 0 <= y < c.ySize
      ensures RowOk(c, t, y)
    {
      assert RowOk(c, s, y);
      if y % c.numThreads == w {
        assert [] + [s.workers[w].report == RowDone] == [s.workers[w].report == RowDone];
        Stride(s.workers[w].y, y, c.numThreads);
      }
    }
  }

  lemma WorkerKeepsCounter(c: Config, s: State, w: nat, fails: bool)
    requires Inv(c, s) && WorkerEnabled(c, s, w)
    ensures var t := WorkerNext(c, s, w, fails); Shape(c, t) && CounterOk(c, t)
  {
    hide RowsOk, WakeOk, MainOk, CountedRows, WorkersOk;
    assert WorkerOk(c, s, w) by {
      WorkerIsOk(c, s, w);
    }
    var t := WorkerNext(c, s, w, fails);
    WorkerFrame(c, s, w, fails);
    if !t.stop {
      if s.workers[w].pc.Counting? {
        CountedGrows(c, s, w);
      } else {
        CountedSame(c, s, w, fails);
      }
    }
  }

  lemma WorkerIsOk(c: Config, s: State, w: nat)
    requires Inv(c, s) && w < c.numThreads
    ensures WorkerOk(c, s, w)
  {
  }

  lemma CountedGrows(c: Config, s: State, w: nat)
    requires Inv(c, s) && WorkerEnabled(c, s, w) && !s.stop && s.workers[w].pc.Counting?
    ensures var t := WorkerNext(c, s, w, false);
            Shape(c, t) && |CountedRows(c, t)| == |CountedRows(c, s)| + 1
  {
    hide RowsOk, WakeOk, MainOk, CounterOk;
    var t := WorkerNext(c, s, w, false);
    assert WorkerOk(c, s, w);
    var y := s.workers[w].y;
    assert !Counted(c, s, y);
    assert CountedRows(c, t) == CountedRows(c, s) + {y};
  }

  lemma CountedSame(c: Config, s: State, w: nat, fails: bool)
    requires Inv(c, s) && WorkerEnabled(c, s, w) && !s.workers[w].pc.Counting?
    requires !WorkerNext(c, s, w, fails).stop
    ensures var t := WorkerNext(c, s, w, fails); Shape(c, t) && CountedRows(c, t) == CountedRows(c, s)
  {
    hide RowsOk, WakeOk, MainOk, CounterOk;
    var t := WorkerNext(c, s, w, fails);
    assert WorkerOk(c, s, w);
    WorkerFrame(c, s, w, fails);
    forall y: nat | 0 <= y < c.ySize
      ensures Counted(c, t, y) <==> Counted(c, s, y)
    {
      if y % c.numThreads == w {
        Stride(s.workers[w].y, y, c.numThreads);
      }
    }
  }

  lemma WorkerKeepsWake(c: Config, s: State, w: nat, fails: bool)
    requires Inv(c, s) && WorkerEnabled(c, s, w)
    ensures var t := WorkerNext(c, s, w, fails); Shape(c, t) && WakeOk(c, t)
  {
    hide RowsOk, CounterOk;
    assert WorkerOk(c, s, w);
    var t := WorkerNext(c, s, w, fails);
    WorkerFrame(c, s, w, fails);
    if t.main.StartWait? || t.main.Waiting? {
      if t.stop {
        var v := if s.stop then (var v :| 0 <= v < c.numThreads && s.workers[v].WillWake(); v) else w;
        assert t.workers[v].WillWake();
      } else if t.counter >= c.ySize {
        var v := if s.counter >= c.ySize then (var v :| 0 <= v < c.numThreads && s.workers[v].pc.Signalling?; v) else w;
        assert t.workers[v].pc.Signalling?;
      }
    }
  }

  lemma WorkerKeepsInv(c: Config, s: State, w: nat, fails: bool)
    requires Inv(c, s) && WorkerEnabled(c, s, w)
    ensures Inv(c, WorkerNext(c, s, w, fails))
  {
    WorkerFrame(c, s, w, fails);
    WorkerKeepsWorkers(c, s, w, fails);
    WorkerKeepsMain(c, s, w, fails);
    WorkerKeepsRows(c, s, w, fails);
    WorkerKeepsCounter(c, s, w, fails);
    WorkerKeepsWake(c, s, w, fails);
    hide WorkersOk, MainOk, RowsOk, CounterOk, WakeOk, WorkerNext;
  }

  // ---------------------------------------------------------------------
  // Steps of the main thread keep the invariant.
  // ---------------------------------------------------------------------

  lemma MainKeepsWorkers(c: Config, s: State, ends: bool)
    requires Inv(c, s) && MainEnabled(c, s)
    ensures var t := MainNext(c, s, ends); Shape(c, t) && WorkersOk(c, t)
  {
    hide RowsOk, CounterOk, WakeOk;
    var t := MainNext(c, s, ends);
    forall v | 0 <= v < c.numThreads
      ensures WorkerOk(c, t, v)
    {
      assert WorkerOk(c, s, v);
      Small(v, c.numThreads);
    }
  }

  lemma Small(v: nat, n: nat)
    requires v < n
    ensures v % n == v
  {
  }

  lemma MainKeepsMain(c: Config, s: State, ends: bool)
    requires Inv(c, s) && MainEnabled(c, s)
    ensures var t := MainNext(c, s, ends); Shape(c, t) && MainOk(c, t)
  {
    hide RowsOk, CounterOk, WakeOk, WorkersOk;
  }

  lemma MainKeepsRows(c: Config, s: State, ends: bool)
    requires Inv(c, s) && MainEnabled(c, s)
    ensures var t := MainNext(c, s, ends); Shape(c, t) && RowsOk(c, t)
  {
    hide CounterOk, WakeOk, MainOk;
    var t := MainNext(c, s, ends);
    forall y | 0 <= y < c.ySize
      ensures RowOk(c, t, y)
    {
      assert RowOk(c, s, y);
      CreatedRow(c, s, y);
    }
  }

  /** A row whose worker is not created yet is not below the first row of that worker. */
  lemma CreatedRow(c: Config, s: State, y: nat)
    requires Inv(c, s)
    ensures var w := y % c.numThreads; w >= s.created ==> s.workers[w].pc.NotCreated?
    ensures y % c.numThreads <= y
  {
    hide RowsOk, CounterOk, WakeOk, MainOk, WorkersOk;
    RemainderBelow(y, c.numThreads);
    WorkerIsOk(c, s, y % c.numThreads);
  }

  lemma RemainderBelow(y: nat, n: nat)
    requires n >= 1
    ensures 0 <= y % n < n && y % n <= y
  {
    if y < n {
      Small(y, n);
    }
  }

  lemma MainKeepsCounter(c: Config, s: State, ends: bool)
    requires Inv(c, s) && MainEnabled(c, s)
    ensures var t := MainNext(c, s, ends); Shape(c, t) && CounterOk(c, t)
  {
    hide RowsOk, WakeOk, MainOk;
    var t := MainNext(c, s, ends);
    forall y: nat | 0 <= y < c.ySize
      ensures Counted(c, t, y) <==> Counted(c, s, y)
    {
      CreatedRow(c, s, y);
    }
    assert CountedRows(c, t) == CountedRows(c, s);
  }

  lemma MainKeepsWake(c: Config, s: State, ends: bool)
    requires Inv(c, s) && MainEnabled(c, s)
    ensures var t := MainNext(c, s, ends); Shape(c, t) && WakeOk(c, t)
  {
    hide RowsOk, CounterOk;
    var t := MainNext(c, s, ends);
    if t.main.StartWait? || t.main.Waiting? {
      assert t.workers == s.workers;
      if t.main.Waiting? && t.stop {
        var v :| 0 <= v < c.numThreads && s.workers[v].WillWake();
        assert t.workers[v].WillWake();
      }
    }
  }

  lemma MainKeepsInv(c: Config, s: State, ends: bool)
    requires Inv(c, s) && MainEnabled(c, s)
    ensures Inv(c, MainNext(c, s, ends))
  {
    MainKeepsWorkers(c, s, ends);
    MainKeepsMain(c, s, ends);
    MainKeepsRows(c, s, ends);
    MainKeepsCounter(c, s, ends);
    MainKeepsWake(c, s, ends);
    hide WorkersOk, MainOk, RowsOk, CounterOk, WakeOk, MainNext;
  }

  lemma SpuriousKeepsInv(c: Config, s: State)
    requires Inv(c, s) && s.main.Waiting?
    ensures Inv(c, s.(main := Woken))
  {
    var t := s.(main := Woken);
    forall v | 0 <= v < c.numThreads
      ensures WorkerOk(c, t, v)
    {
      assert WorkerOk(c, s, v);
    }
    forall y | 0 <= y < c.ySize
      ensures RowOk(c, t, y)
    {
      assert RowOk(c, s, y);
    }
    assert CountedRows(c, t) == CountedRows(c, s);
  }

  /** Every step of every thread keeps the invariant. */
  lemma StepKeepsInv(c: Config, s: State, a: Action)
    requires Inv(c, s) && Enabled(c, s, a)
    ensures Inv(c, Next(c, s, a))
  {
    hide Inv;
    match a
    case Work(w, fails) => WorkerKeepsInv(c, s, w, fails);
    case Main(ends) => MainKeepsInv(c, s, ends);
    case Spurious => SpuriousKeepsInv(c, s);
  }

  // ---------------------------------------------------------------------
  // Runs.
  // ---------------------------------------------------------------------

  lemma {:induction false} RunInvariant(c: Config, run: seq<State>, actions: seq<Action>, k: nat)
    requires c.Valid() && IsRun(c, run, actions) && k < |run|
    ensures Inv(c, run[k])
  {
    hide Inv;
    if k == 0 {
      InitInv(c);
    } else {
      RunInvariant(c, run, actions, k - 1);
      StepKeepsInv(c, run[k - 1], actions[k - 1]);
    }
  }

  /** In every state of every run, no row was written more than once. */
  lemma RowsWrittenOnce(c: Config, run: seq<State>, actions: seq<Action>, k: nat, y: nat)
    requires c.Valid() && IsRun(c, run, actions) && k < |run| && y < c.ySize
    ensures |run[k].writes| == c.ySize && |run[k].writes[y]| <= 1
  {
    RunInvariant(c, run, actions, k);
    assert RowOk(c, run[k], y);
  }

  /** A gridding that ends without the stop flag, and so succeeds, has written every row once, completely. */
  lemma SuccessIsComplete(c: Config, run: seq<State>, actions: seq<Action>, y: nat)
    requires c.Valid() && IsRun(c, run, actions) && y < c.ySize
    requires var s := run[|run| - 1]; s.main.Finished? && !s.stop
    ensures |run[|run| - 1].writes| == c.ySize && run[|run| - 1].writes[y] == [true]
  {
    var s := run[|run| - 1];
    RunInvariant(c, run, actions, |run| - 1);
    assert RowOk(c, s, y);
    assert WorkerOk(c, s, y % c.numThreads);
  }

  /** A row is written by the one worker that its stride leads to it. */
  lemma RowsAreStrided(c: Config, run: seq<State>, actions: seq<Action>, k: nat, y: nat)
    requires c.Valid() && IsRun(c, run, actions) && k < |actions| && y < c.ySize
    requires Shape(c, run[k]) && Shape(c, run[k + 1]) && run[k + 1].writes[y] != run[k].writes[y]
    ensures actions[k].Work? && actions[k].w == y % c.numThreads
  {
    RunInvariant(c, run, actions, k);
    if actions[k].Work? {
      assert WorkerOk(c, run[k], actions[k].w);
    }
  }

  /** As long as nothing failed, the counter is the number of rows that were reported as finished. */
  lemma CounterIsFinishedRows(c: Config, run: seq<State>, actions: seq<Action>, k: nat)
    requires c.Valid() && IsRun(c, run, actions) && k < |run| && !run[k].stop
    ensures Shape(c, run[k]) && run[k].counter == |CountedRows(c, run[k])|
    ensures forall y <- CountedRows(c, run[k]) :: run[k].writes[y] == [true]
  {
    var s := run[k];
    RunInvariant(c, run, actions, k);
    forall y <- CountedRows(c, s)
      ensures s.writes[y] == [true]
    {
      assert RowOk(c, s, y);
      assert WorkerOk(c, s, y % c.numThreads);
    }
  }

  // ---------------------------------------------------------------------
  // No lost wake-up.
  // ---------------------------------------------------------------------

  function CountedBelow(c: Config, s: State, n: nat): set<nat>
    requires c.Valid() && Shape(c, s)
  {
    set y: nat | 0 <= y < n && Counted(c, s, y)
  }

  lemma {:induction false} CountedBelowSize(c: Config, s: State, n: nat)
    requires Inv(c, s) && n <= c.ySize && !s.stop && AllEnded(c, s, c.numThreads) && s.created == c.numThreads
    ensures |CountedBelow(c, s, n)| == n
  {
    if n == 0 {
    } else {
      CountedBelowSize(c, s, n - 1);
      assert WorkerOk(c, s, (n - 1) % c.numThreads);
      assert CountedBelow(c, s, n) == CountedBelow(c, s, n - 1) + {n - 1};
    }
  }

  lemma AllRowsCounted(c: Config, s: State)
    requires Inv(c, s) && !s.stop && AllEnded(c, s, c.numThreads) && s.created == c.numThreads
    ensures s.counter == c.ySize
  {
    CountedBelowSize(c, s, c.ySize);
    assert CountedRows(c, s) == CountedBelow(c, s, c.ySize);
  }

  /** While the main thread waits, some worker has not ended. */
  lemma WaitingHasWorker(c: Config, s: State)
    requires Inv(c, s) && s.main.Waiting?
    ensures exists w :: 0 <= w < s.created && !s.workers[w].pc.Ended?
  {
    if s.stop {
      var w :| 0 <= w < c.numThreads && s.workers[w].WillWake();
      assert WorkerOk(c, s, w);
    } else if s.counter >= c.ySize {
      var w :| 0 <= w < c.numThreads && s.workers[w].pc.Signalling?;
      assert WorkerOk(c, s, w);
    } else if AllEnded(c, s, c.numThreads) {
      AllRowsCounted(c, s);
    }
  }

  /** Some thread can take a step of its own until the main thread has finished. */
  ghost predicate CanProceed(c: Config, s: State) {
    exists a: Action :: !a.Spurious? && Enabled(c, s, a)
  }

  lemma WorkerCan(c: Config, s: State, w: nat)
    requires Inv(c, s) && w < s.created && !s.workers[w].pc.Ended?
    requires s.workers[w].pc.Locking? ==> s.mutex == Free
    ensures CanProceed(c, s)
  {
    assert WorkerOk(c, s, w);
    assert Enabled(c, s, Work(w, false));
  }

  /** The owner of the mutex can proceed. */
  lemma OwnerCan(c: Config, s: State)
    requires Inv(c, s) && s.mutex != Free
    ensures CanProceed(c, s)
  {
    if s.mutex.WorkerThread? {
      assert WorkerOk(c, s, s.mutex.w);
      WorkerCan(c, s, s.mutex.w);
    } else {
      assert Enabled(c, s, Main(false));
    }
  }

  lemma Progress(c: Config, s: State)
    requires Inv(c, s) && !s.main.Finished? && !s.main.Astray?
    ensures CanProceed(c, s)
  {
    if s.mutex != Free {
      OwnerCan(c, s);
    } else if s.main.Waiting? {
      WaitingHasWorker(c, s);
      var w :| 0 <= w < s.created && !s.workers[w].pc.Ended?;
      WorkerCan(c, s, w);
    } else if MainEnabled(c, s) {
      assert Enabled(c, s, Main(false));
    } else {
      WorkerCan(c, s, s.main.joined);
    }
  }

  /** No run gets stuck: not on the mutex, not in the wait for a signal, not in a join. */
  lemma NoDeadlock(c: Config, run: seq<State>, actions: seq<Action>)
    requires c.Valid() && IsRun(c, run, actions)
    requires var s := run[|run| - 1]; !s.main.Finished? && !s.main.Astray?
    ensures CanProceed(c, run[|run| - 1])
  {
    RunInvariant(c, run, actions, |run| - 1);
    Progress(c, run[|run| - 1]);
  }

  // ---------------------------------------------------------------------
  // Threads that are not created.
  // ---------------------------------------------------------------------

  /** The stop flag is up before the main thread has created all threads. */
  predicate CutShort(c: Config, s: State) {
    s.main.Creating? && s.stop && s.created < c.numThreads
  }

  /** Once the flag is up no thread is created. */
  lemma {:induction false} StoppedCreatesNoMore(c: Config, run: seq<State>, actions: seq<Action>, j: nat, k: nat)
    requires IsRun(c, run, actions) && j <= k < |run| && run[j].stop
    ensures run[k].stop && run[k].created == run[j].created
  {
    if j < k {
      StoppedCreatesNoMore(c, run, actions, j, k - 1);
      assert run[k] == Next(c, run[k - 1], actions[k - 1]);
    }
  }

  /** If the main thread goes on without all threads, that is what happened. */
  lemma {:induction false} WasCutShort(c: Config, run: seq<State>, actions: seq<Action>, k: nat) returns (j: nat)
    requires IsRun(c, run, actions) && k < |run| && run[k].created < c.numThreads && !run[k].main.Creating?
    ensures j < k && CutShort(c, run[j])
  {
    assert k > 0 && run[k] == Next(c, run[k - 1], actions[k - 1]);
    if run[k - 1].main.Creating? {
      j := k - 1;
    } else {
      j := WasCutShort(c, run, actions, k - 1);
    }
  }

  /**
   * A run in which the main thread has come to its end has gone astray exactly if the creation of threads was cut
   * short.
   */
  lemma AstrayExactlyIf(c: Config, run: seq<State>, actions: seq<Action>)
    requires c.Valid() && IsRun(c, run, actions)
    requires var s := run[|run| - 1]; s.main.Finished? || s.main.Astray?
    ensures run[|run| - 1].main.Astray? <==> exists j :: 0 <= j < |run| && CutShort(c, run[j])
  {
    var n := |run| - 1;
    RunInvariant(c, run, actions, n);
    hide Inv;
    assert MainOk(c, run[n]) by {
      InvHasMain(c, run[n]);
    }
    if run[n].main.Astray? {
      var j := WasCutShort(c, run, actions, n);
    } else if j :| 0 <= j < |run| && CutShort(c, run[j]) {
      StoppedCreatesNoMore(c, run, actions, j, n);
    }
  }

  lemma InvHasMain(c: Config, s: State)
    requires Inv(c, s)
    ensures Shape(c, s) && MainOk(c, s)
  {
  }

  // ---------------------------------------------------------------------
  // The stop flag.
  // ---------------------------------------------------------------------

  /** The action is a failure of a worker or a request to end. */
  ghost predicate Fails(s: State, a: Action) {
    match a
    case Work(w, fails) => fails && w < |s.workers| && (s.workers[w].pc.Starting? || s.workers[w].pc.Gridding?)
    case Main(ends) => ends && s.main.Callback?
    case Spurious => false
  }

  /** The flag is up, and the gridding returns a failure, exactly if there was a failure or a request to end. */
  lemma {:induction false} StopMeansFailure(c: Config, run: seq<State>, actions: seq<Action>, k: nat)
    requires IsRun(c, run, actions) && k < |run|
    ensures run[k].stop <==> exists j :: 0 <= j < k && Fails(run[j], actions[j])
  {
    if k > 0 {
      StopMeansFailure(c, run, actions, k - 1);
      StopStep(c, run[k - 1], actions[k - 1]);
      if run[k].stop && !run[k - 1].stop {
        assert Fails(run[k - 1], actions[k - 1]);
      }
    }
  }

  /** The worker has written a row and will end, the flag being up. */
  ghost predicate WritesNoMore(x: Worker) {
    x.pc.Checking? || x.pc.Ended?
  }

  /** One step with the flag up: a worker that writes no more stays so, and one that writes becomes so. */
  lemma StoppedStep(c: Config, s: State, a: Action, w: nat, y: nat)
    requires Inv(c, s) && Enabled(c, s, a) && s.stop && w < c.numThreads && y < c.ySize && y % c.numThreads == w
    ensures Shape(c, Next(c, s, a))
    ensures WritesNoMore(s.workers[w]) ==>
              WritesNoMore(Next(c, s, a).workers[w]) && Next(c, s, a).writes[y] == s.writes[y]
    ensures Next(c, s, a).writes[y] != s.writes[y] ==>
              WritesNoMore(Next(c, s, a).workers[w]) && s.workers[w].y == y && a == Work(w, a.fails)
  {
    hide RowsOk, CounterOk, WakeOk;
    assert WorkerOk(c, s, w);
    if a.Work? {
      assert WorkerOk(c, s, a.w);
    }
  }

  /** Since an earlier state the worker of row y has written nothing, or row y alone, and will write nothing more. */
  ghost predicate AtMostThis(c: Config, before: State, s: State, y: nat)
    requires c.Valid() && Shape(c, before) && Shape(c, s) && y < c.ySize
  {
    s.writes[y] == before.writes[y] || (WritesNoMore(s.workers[y % c.numThreads]) && OnlyThis(c, before, s, y))
  }

  ghost predicate OnlyThis(c: Config, before: State, s: State, y: nat)
    requires c.Valid() && Shape(c, before) && Shape(c, s) && y < c.ySize
  {
    forall z :: 0 <= z < c.ySize && z % c.numThreads == y % c.numThreads && z != y ==> s.writes[z] == before.writes[z]
  }

  ghost predicate AtMostOne(c: Config, before: State, s: State)
    requires c.Valid() && Shape(c, before) && Shape(c, s)
  {
    forall y :: 0 <= y < c.ySize ==> AtMostThis(c, before, s, y)
  }

  lemma AtMostOneStep(c: Config, before: State, s: State, a: Action, y: nat)
    requires Inv(c, s) && Enabled(c, s, a) && s.stop && Shape(c, before) && AtMostOne(c, before, s) && y < c.ySize
    ensures Shape(c, Next(c, s, a)) && AtMostThis(c, before, Next(c, s, a), y)
  {
    var t, w := Next(c, s, a), y % c.numThreads;
    StoppedStep(c, s, a, w, y);
    forall z | 0 <= z < c.ySize && z % c.numThreads == w && z != y && t.writes[y] != before.writes[y]
      ensures t.writes[z] == before.writes[z]
    {
      StoppedStep(c, s, a, w, z);
      assert AtMostThis(c, before, s, z) && AtMostThis(c, before, s, y);
      hide Inv, Next, Enabled;
    }
    hide Inv, Next, Enabled;
    assert AtMostThis(c, before, s, y);
  }

  lemma {:induction false} AtMostOneSince(c: Config, run: seq<State>, actions: seq<Action>, j: nat, k: nat)
    requires c.Valid() && IsRun(c, run, actions) && j <= k < |run| && run[j].stop
    ensures Shape(c, run[j]) && Shape(c, run[k]) && AtMostOne(c, run[j], run[k])
  {
    hide Inv, Next, Enabled, AtMostOne;
    if j < k {
      var s, a := run[k - 1], actions[k - 1];
      AtMostOneSince(c, run, actions, j, k - 1);
      RunStep(c, run, actions, k - 1);
      assert Inv(c, s) && s.stop by {
        RunInvariant(c, run, actions, k - 1);
        StoppedCreatesNoMore(c, run, actions, j, k - 1);
      }
      AtMostOneNext(c, run[j], s, a);
    } else {
      RunInvariant(c, run, actions, j);
      InvHasMain(c, run[j]);
      NoneSince(c, run[j]);
    }
  }

  lemma NoneSince(c: Config, s: State)
    requires c.Valid() && Shape(c, s)
    ensures AtMostOne(c, s, s)
  {
  }

  lemma RunStep(c: Config, run: seq<State>, actions: seq<Action>, k: nat)
    requires IsRun(c, run, actions) && k < |actions|
    ensures Shape(c, run[k]) && Enabled(c, run[k], actions[k]) && run[k + 1] == Next(c, run[k], actions[k])
  {
  }

  lemma AtMostOneNext(c: Config, before: State, s: State, a: Action)
    requires Inv(c, s) && Enabled(c, s, a) && s.stop && Shape(c, before) && AtMostOne(c, before, s)
    ensures Shape(c, Next(c, s, a)) && AtMostOne(c, before, Next(c, s, a))
  {
    assert Shape(c, Next(c, s, a));
    hide Inv, Next, AtMostThis;
    forall y: nat | y < c.ySize
      ensures AtMostThis(c, before, Next(c, s, a), y)
    {
      AtMostOneStep(c, before, s, a, y);
    }
  }

  /** Once the flag is up, no worker writes more than one row. */
  lemma StopIsHeeded(c: Config, run: seq<State>, actions: seq<Action>, j: nat, k: nat, y: nat, z: nat)
    requires c.Valid() && IsRun(c, run, actions) && j <= k < |run| && run[j].stop
    requires y < c.ySize && z < c.ySize && y % c.numThreads == z % c.numThreads
    requires Shape(c, run[j]) && Shape(c, run[k])
    requires run[k].writes[y] != run[j].writes[y] && run[k].writes[z] != run[j].writes[z]
    ensures y == z
  {
    AtMostOneSince(c, run, actions, j, k);
    assert AtMostThis(c, run[j], run[k], y);
  }

  lemma StopStep(c: Config, s: State, a: Action)
    requires Shape(c, s) && Enabled(c, s, a)
    ensures Next(c, s, a).stop <==> s.stop || Fails(s, a)
  {
  }

  // ---------------------------------------------------------------------
  // Which griddings go astray.
  // ---------------------------------------------------------------------

  /** A run with one more action. */
  lemma TakeStep(c: Config, run: seq<State>, actions: seq<Action>, a: Action)
    returns (run': seq<State>, actions': seq<Action>)
    requires IsRun(c, run, actions)
    requires var s := run[|run| - 1]; Shape(c, s) && Enabled(c, s, a)
    ensures IsRun(c, run', actions') && |run'| > 0 && run'[|run'| - 1] == Next(c, run[|run| - 1], a)
  {
    var n, t := |actions|, Next(c, run[|run| - 1], a);
    run', actions' := run + [t], actions + [a];
    forall k | 0 <= k <= n
      ensures Shape(c, run'[k]) && Enabled(c, run'[k], actions'[k]) && run'[k + 1] == Next(c, run'[k], actions'[k])
    {
      hide Next, Shape, Enabled;
      assert run'[k] == run[k];
      if k < n {
        assert run'[k + 1] == run[k + 1] && actions'[k] == actions[k];
      }
    }
  }

  /** The first worker gets no line buffer before the second one is created, and the main thread begins to join. */
  lemma JoinsEarly(c: Config) returns (run: seq<State>, actions: seq<Action>)
    requires c.numThreads >= 2
    ensures IsRun(c, run, actions)
    ensures var s := run[|run| - 1];
            && Shape(c, s) && s.main == Joining(0) && s.created == 1 && s.mutex == Free
            && s.workers[0].pc == Locking && s.workers[0].report == NoMemory
  {
    hide IsRun;
    StartsRun(c);
    run, actions := [Init(c)], [];
    run, actions := TakeStep(c, run, actions, Main(false));
    run, actions := TakeStep(c, run, actions, Work(0, true));
    run, actions := TakeStep(c, run, actions, Main(false));
    run, actions := TakeStep(c, run, actions, Main(false));
    if c.ySize > 0 {
      run, actions := TakeStep(c, run, actions, Main(false));
    }
    run, actions := TakeStep(c, run, actions, Main(false));
  }

  /** The first worker ends, is joined, and then there is none to join. */
  lemma GoesAstray(c: Config) returns (run: seq<State>, actions: seq<Action>)
    requires c.numThreads >= 2
    ensures IsRun(c, run, actions) && run[|run| - 1].main.Astray?
  {
    run, actions := JoinsEarly(c);
    hide IsRun;
    run, actions := TakeStep(c, run, actions, Work(0, false));
    run, actions := TakeStep(c, run, actions, Work(0, false));
    run, actions := TakeStep(c, run, actions, Work(0, false));
    run, actions := TakeStep(c, run, actions, Work(0, false));
    run, actions := TakeStep(c, run, actions, Work(0, false));
    run, actions := TakeStep(c, run, actions, Main(false));
    run, actions := TakeStep(c, run, actions, Main(false));
  }

  lemma StartsRun(c: Config)
    ensures IsRun(c, [Init(c)], [])
  {
  }

  /** How many of the actions are the main thread's. */
  function MainSteps(actions: seq<Action>): nat {
    if actions == [] then 0 else
    MainSteps(actions[..|actions| - 1]) + if actions[|actions| - 1].Main? then 1 else 0
  }

  lemma {:induction false} MainStepsGrow(actions: seq<Action>, j: nat, k: nat)
    requires j <= k <= |actions|
    ensures MainSteps(actions[..j]) <= MainSteps(actions[..k])
  {
    if j < k {
      MainStepsGrow(actions, j, k - 1);
      assert actions[..k][..k - 1] == actions[..k - 1];
    }
  }

  /** Every step of the main thread creates a thread at most, and while it creates threads it does so. */
  lemma {:induction false} CreatedByMain(c: Config, run: seq<State>, actions: seq<Action>, k: nat)
    requires IsRun(c, run, actions) && k < |run|
    ensures run[k].created <= MainSteps(actions[..k])
    ensures run[k].main.Creating? ==> run[k].created == MainSteps(actions[..k])
  {
    if k > 0 {
      CreatedByMain(c, run, actions, k - 1);
      assert actions[..k][..k - 1] == actions[..k - 1];
      CreatesOne(c, run[k - 1], actions[k - 1]);
      hide Next;
    }
  }

  lemma CreatesOne(c: Config, s: State, a: Action)
    requires Shape(c, s) && Enabled(c, s, a)
    ensures var t, one := Next(c, s, a), if a.Main? then 1 else 0;
            t.created <= s.created + one && (t.main.Creating? ==> s.main.Creating? && t.created == s.created + one)
  {
  }

  /** Something fails before the main thread has taken as many steps as there are threads to create. */
  ghost predicate FailsEarly(c: Config, run: seq<State>, actions: seq<Action>) {
    exists j :: 0 <= j < |actions| && j < |run| && Fails(run[j], actions[j]) && MainSteps(actions[..j]) < c.numThreads
  }

  /**
   * The main thread goes astray, instead of finishing, exactly if something fails before the last thread is created.
   */
  lemma AstrayBySchedule(c: Config, run: seq<State>, actions: seq<Action>)
    requires c.Valid() && IsRun(c, run, actions)
    requires var s := run[|run| - 1]; s.main.Finished? || s.main.Astray?
    ensures run[|run| - 1].main.Astray? <==> FailsEarly(c, run, actions)
  {
    var n := |run| - 1;
    RunInvariant(c, run, actions, n);
    hide Inv;
    InvHasMain(c, run[n]);
    if run[n].main.Astray? {
      var k := WasCutShort(c, run, actions, n);
      StopMeansFailure(c, run, actions, k);
      var j :| 0 <= j < k && Fails(run[j], actions[j]);
      CreatedByMain(c, run, actions, k);
      MainStepsGrow(actions, j, k);
    }
    if FailsEarly(c, run, actions) {
      var j :| 0 <= j < |actions| && j < |run| && Fails(run[j], actions[j]) && MainSteps(actions[..j]) < c.numThreads;
      StopMeansFailure(c, run, actions, j + 1);
      StoppedCreatesNoMore(c, run, actions, j + 1, n);
      CreatedByMain(c, run, actions, j);
      FailureCreatesNothing(c, run[j], actions[j]);
    }
  }

  lemma FailureCreatesNothing(c: Config, s: State, a: Action)
    requires Shape(c, s) && Enabled(c, s, a) && Fails(s, a)
    ensures Next(c, s, a).created == s.created
  {
  }

  /** Before the main thread has taken a step nothing can fail. */
  lemma NothingFailsFirst(c: Config, run: seq<State>, actions: seq<Action>, j: nat)
    requires c.Valid() && IsRun(c, run, actions) && j < |actions| && MainSteps(actions[..j]) == 0
    ensures !Fails(run[j], actions[j])
  {
    RunInvariant(c, run, actions, j);
    CreatedByMain(c, run, actions, j);
    OnlyCreatingFirst(c, run, actions, j);
    NobodyCreated(c, run[j]);
  }

  lemma NobodyCreated(c: Config, s: State)
    requires Inv(c, s) && s.created == 0
    ensures forall w :: 0 <= w < c.numThreads ==> s.workers[w].pc.NotCreated?
  {
    hide RowsOk, CounterOk, WakeOk, MainOk;
    forall w | 0 <= w < c.numThreads
      ensures s.workers[w].pc.NotCreated?
    {
      WorkerIsOk(c, s, w);
    }
  }

  lemma {:induction false} OnlyCreatingFirst(c: Config, run: seq<State>, actions: seq<Action>, j: nat)
    requires IsRun(c, run, actions) && j < |run| && MainSteps(actions[..j]) == 0
    ensures run[j].main.Creating?
  {
    if j > 0 {
      assert actions[..j][..j - 1] == actions[..j - 1];
      OnlyCreatingFirst(c, run, actions, j - 1);
      assert run[j] == Next(c, run[j - 1], actions[j - 1]);
    }
  }

  /** A gridding can go astray if and only if it has more than one thread to create. */
  lemma AstrayIsPossible(c: Config)
    requires c.Valid()
    ensures (exists run: seq<State>, actions: seq<Action> ::
               IsRun(c, run, actions) && run[|run| - 1].main.Astray?)
       <==> c.numThreads >= 2
  {
    if c.numThreads >= 2 {
      var run, actions := GoesAstray(c);
    } else if run: seq<State>, actions: seq<Action> :| IsRun(c, run, actions) && run[|run| - 1].main.Astray? {
      AstrayBySchedule(c, run, actions);
      var j :| 0 <= j < |actions| && j < |run| && Fails(run[j], actions[j]) && MainSteps(actions[..j]) < c.numThreads;
      NothingFailsFirst(c, run, actions, j);
    }
  }

  // ---------------------------------------------------------------------
  // Termination.
  // ---------------------------------------------------------------------

  function Rank(x: Worker): nat {
    match x.pc
    case NotCreated => 17
    case Starting => 16
    case Testing => 15
    case Gridding => 14
    case Writing => 8
    case Checking => 7
    case Locking => if x.report == RowDone then 6 else 13
    case Counting => if x.report == RowDone then 5 else 12
    case Signalling => if x.report == RowDone then 4 else 11
    case Reading => if x.report == RowDone then 3 else 10
    case Releasing => if x.report == RowDone then 2 else 9
    case Ended => 0
  }

  /** A step of a worker weighs more than what a signal gives the main thread to do. */
  function Weight(c: Config, x: Worker): nat {
    12 * (20 * (if x.pc.NotCreated? then c.ySize else if x.y < c.ySize then c.ySize - x.y else 0) + Rank(x))
  }

  function Weights(c: Config, xs: seq<Worker>): nat {
    if xs == [] then 0 else Weights(c, xs[..|xs| - 1]) + Weight(c, xs[|xs| - 1])
  }

  function MainWeight(c: Config, m: MainPc): nat {
    match m
    case Creating => c.numThreads + 12
    case Woken => c.numThreads + 11
    case Sampling => c.numThreads + 10
    case Unlocking => c.numThreads + 9
    case Callback => c.numThreads + 8
    case Relocking => c.numThreads + 7
    case TestCounter => c.numThreads + 6
    case TestStop => c.numThreads + 5
    case StartWait => c.numThreads + 4
    case Waiting => c.numThreads + 3
    case FinalUnlock => c.numThreads + 2
    case Joining(j) => if j <= c.numThreads then c.numThreads + 1 - j else 1
    case Finished => 0
    case Astray => 0
  }

  function Measure(c: Config, s: State): nat {
    Weights(c, s.workers) + MainWeight(c, s.main)
  }

  lemma {:induction false} WeightsUpdate(c: Config, xs: seq<Worker>, w: nat, x: Worker)
    requires w < |xs|
    ensures Weights(c, xs[w := x]) == Weights(c, xs) - Weight(c, xs[w]) + Weight(c, x)
  {
    var n := |xs| - 1;
    if w == n {
      assert xs[w := x][..n] == xs[..n];
    } else {
      WeightsUpdate(c, xs[..n], w, x);
      assert xs[w := x][..n] == xs[..n][w := x];
    }
  }

  lemma WorkerLighter(c: Config, s: State, w: nat, fails: bool)
    requires Inv(c, s) && WorkerEnabled(c, s, w)
    ensures var t := WorkerNext(c, s, w, fails);
            |t.workers| == |s.workers| && Weight(c, t.workers[w]) + 12 <= Weight(c, s.workers[w])
  {
    hide RowsOk, CounterOk, WakeOk, MainOk;
    assert WorkerOk(c, s, w);
  }

  lemma WorkerDecreases(c: Config, s: State, w: nat, fails: bool)
    requires Inv(c, s) && WorkerEnabled(c, s, w)
    ensures Measure(c, WorkerNext(c, s, w, fails)) < Measure(c, s)
  {
    var t := WorkerNext(c, s, w, fails);
    WorkerLighter(c, s, w, fails);
    WorkerFrame(c, s, w, fails);
    assert t.workers == s.workers[w := t.workers[w]];
    hide Weight, Weights, Inv, WorkerNext;
    WeightsUpdate(c, s.workers, w, t.workers[w]);
  }

  lemma MainDecreases(c: Config, s: State, ends: bool)
    requires Inv(c, s) && MainEnabled(c, s)
    ensures Measure(c, MainNext(c, s, ends)) < Measure(c, s)
  {
    hide RowsOk, CounterOk, WakeOk, Weights;
    var t := MainNext(c, s, ends);
    if s.main.Creating? && s.created < c.numThreads && !s.stop {
      assert WorkerOk(c, s, s.created);
      WeightsUpdate(c, s.workers, s.created, t.workers[s.created]);
    }
  }

  /** The number of wake-ups without a signal. */
  function SpuriousCount(actions: seq<Action>): nat {
    if actions == [] then 0 else
    SpuriousCount(actions[..|actions| - 1]) + if actions[|actions| - 1].Spurious? then 1 else 0
  }

  /** Runs are bounded but for wake-ups without a signal, so every gridding ends. */
  lemma {:induction false} RunsAreBounded(c: Config, run: seq<State>, actions: seq<Action>)
    requires c.Valid() && IsRun(c, run, actions)
    ensures |actions| + Measure(c, run[|run| - 1]) <= Measure(c, Init(c)) + 9 * SpuriousCount(actions)
  {
    var n := |actions| - 1;
    if n >= 0 {
      RunsAreBounded(c, run[..n + 1], actions[..n]);
      RunInvariant(c, run, actions, n);
      match actions[n]
      case Work(w, fails) => WorkerDecreases(c, run[n], w, fails);
      case Main(ends) => MainDecreases(c, run[n], ends);
      case Spurious =>
    }
  }
}
