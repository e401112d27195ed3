/** Runner.Run's concurrency: a main loop launching one worker per repository under a limit,
    shared counters, and a progress callback made while a mutex is held. */
module Machine {
  import opened Trees
  import opened Worker
  import Pool

  datatype Config = Config(repos: seq<Repo>, jobs: seq<Job>, limit: nat) {
    predicate Valid() {
      |repos| == |jobs| && limit >= 1
    }
  }

  /** What there is to tell about a repository: it was skipped, or a worker ended like this. */
  datatype Story = Skip | Did(w: State)

  /** runCounters.reportDone, cut at every point where another goroutine may run. */
  datatype Report = WantLock | Locked | Counted(n: nat) | Announced

  datatype Thread =
    | Idle
    | Working(w: State)
    | Folding(w: State, field: nat)     // runRepo adding its outcome to the counters, one by one
    | Reporting(story: Story, r: Report)
    | Exited(story: Story)

  datatype Counters = Counters(synced: nat, skipped: nat, failed: nat, archived: nat, exported: nat)

  datatype M = M(
    threads: seq<Thread>,
    next: nat,
    lock: Maybe<nat>,
    done: nat,
    calls: seq<(nat, nat)>,
    counters: Counters,
    tree: Tree)

  datatype Action = Launch | Tick(i: nat)

  const SKIPPED := State(Ended, EMPTY, Outcome(false, false, false, 0, Undecided))

  function Initial(repo: Repo): State {
    if repo.empty then SKIPPED else FRESH
  }

  function InitialStates(repos: seq<Repo>): seq<State> {
    seq(|repos|, i requires 0 <= i < |repos| => Initial(repos[i]))
  }

  function Start(cfg: Config, t: Tree): M {
    M(seq(|cfg.repos|, i => Idle), 0, Err, 0, [], Counters(0, 0, 0, 0, 0), t)
  }

  /* ---- sums over the threads ---- */

  ghost function Sum(ts: seq<Thread>, f: (nat, Thread) -> nat): nat {
    if ts == [] then 0 else Sum(ts[..|ts| - 1], f) + f(|ts| - 1, ts[|ts| - 1])
  }

  lemma {:induction false} SumUpdate(ts: seq<Thread>, f: (nat, Thread) -> nat, i: nat, th: Thread)
    requires i < |ts|
    ensures Sum(ts[i := th], f) + f(i, ts[i]) == Sum(ts, f) + f(i, th)
  {
    var n := |ts| - 1;
    if i < n {
      SumUpdate(ts[..n], f, i, th);
      assert ts[i := th][..n] == ts[..n][i := th];
    } else {
      assert ts[i := th][..n] == ts[..n];
    }
  }

  lemma {:induction false} SumBounded(ts: seq<Thread>, f: (nat, Thread) -> nat, i: nat)
    requires i < |ts|
    ensures f(i, ts[i]) <= Sum(ts, f)
  {
    var n := |ts| - 1;
    if i < n {
      SumBounded(ts[..n], f, i);
    }
  }

  lemma {:induction false} SumZero(ts: seq<Thread>, f: (nat, Thread) -> nat)
    requires forall i :: 0 <= i < |ts| ==> f(i, ts[i]) == 0
    ensures Sum(ts, f) == 0
  {
    if ts != [] {
      SumZero(ts[..|ts| - 1], f);
    }
  }

  lemma {:induction false} SumOnes(ts: seq<Thread>, f: (nat, Thread) -> nat)
    requires forall i :: 0 <= i < |ts| ==> f(i, ts[i]) == 1
    ensures Sum(ts, f) == |ts|
  {
    if ts != [] {
      SumOnes(ts[..|ts| - 1], f);
    }
  }

  function Bit(b: bool): nat {
    if b then 1 else 0
  }

  predicate Counts(th: Thread) {
    (th.Reporting? && (th.r.Counted? || th.r.Announced?)) || th.Exited?
  }

  predicate Called(th: Thread) {
    (th.Reporting? && th.r.Announced?) || th.Exited?
  }

  predicate Active(repos: seq<Repo>, i: nat, th: Thread) {
    i < |repos| && !repos[i].empty && !th.Idle? && !th.Exited?
  }

  function OutcomeOf(s: Story): Outcome {
    if s.Skip? then SKIPPED.outcome else s.w.outcome
  }

  /** How much of a thread's outcome has reached the counters. */
  function Folded(th: Thread): Counters {
    match th
    case Folding(w, k) =>
      var o := w.outcome;
      Counters(Bit(k > 0 && o.synced), 0, Bit(k > 2 && o.failed), Bit(k > 1 && o.archived), if k > 3 then o.exported else 0)
    case Reporting(s, _) => Whole(s)
    case Exited(s) => Whole(s)
    case _ => Counters(0, 0, 0, 0, 0)
  }

  function Whole(s: Story): Counters {
    var o := OutcomeOf(s);
    Counters(Bit(o.synced), Bit(s.Skip?), Bit(o.failed), Bit(o.archived), o.exported)
  }

  ghost const CountF: (nat, Thread) -> nat := (i, th) => Bit(Counts(th))
  ghost const CallF: (nat, Thread) -> nat := (i, th) => Bit(Called(th))
  ghost const SyncedF: (nat, Thread) -> nat := (i, th) => Folded(th).synced
  ghost const SkippedF: (nat, Thread) -> nat := (i, th) => Folded(th).skipped
  ghost const FailedF: (nat, Thread) -> nat := (i, th) => Folded(th).failed
  ghost const ArchivedF: (nat, Thread) -> nat := (i, th) => Folded(th).archived
  ghost const ExportedF: (nat, Thread) -> nat := (i, th) => Folded(th).exported

  ghost function ActiveF(repos: seq<Repo>): (nat, Thread) -> nat {
    (i, th) => Bit(Active(repos, i, th))
  }

  /** How many workers hold one of the `limit` slots. */
  ghost function Running(cfg: Config, m: M): nat {
    Sum(m.threads, ActiveF(cfg.repos))
  }

  /* ---- the steps ---- */

  /** The main loop is past the previous repository: an empty one is reported by the main
      loop itself, before it looks at the next. */
  predicate MainFree(cfg: Config, m: M)
    requires cfg.Valid() && |m.threads| == |cfg.repos| && m.next <= |cfg.repos|
  {
    m.next == 0 || !cfg.repos[m.next - 1].empty || m.threads[m.next - 1].Exited?
  }

  ghost predicate Enabled(cfg: Config, m: M, a: Action)
    requires cfg.Valid() && |m.threads| == |cfg.repos| && m.next <= |cfg.repos|
  {
    match a
    case Launch =>
      && m.next < |cfg.repos|
      && MainFree(cfg, m)
      && (cfg.repos[m.next].empty || Running(cfg, m) < cfg.limit)
    case Tick(i) =>
      && i < |m.threads|
      && !m.threads[i].Idle? && !m.threads[i].Exited?
      && (m.threads[i].Reporting? && m.threads[i].r.WantLock? ==> m.lock.Err?)
  }

  function AddField(c: Counters, o: Outcome, field: nat): Counters {
    if field == 0 then c.(synced := c.synced + Bit(o.synced))
    else if field == 1 then c.(archived := c.archived + Bit(o.archived))
    else if field == 2 then c.(failed := c.failed + Bit(o.failed))
    else c.(exported := c.exported + o.exported)
  }

  function SetThread(m: M, i: nat, th: Thread): M
    requires i < |m.threads|
  {
    m.(threads := m.threads[i := th])
  }

  function TickReport(m: M, i: nat, total: nat): M
    requires i < |m.threads| && m.threads[i].Reporting?
  {
    var s := m.threads[i].story;
    match m.threads[i].r
    case WantLock => SetThread(m, i, Reporting(s, Locked)).(lock := Ok(i))
    case Locked => SetThread(m, i, Reporting(s, Counted(m.done + 1))).(done := m.done + 1)
    case Counted(n) => SetThread(m, i, Reporting(s, Announced)).(calls := m.calls + [(n, total)])
    case Announced => SetThread(m, i, Exited(s)).(lock := Err)
  }

  ghost function Perform(cfg: Config, m: M, a: Action): M
    requires cfg.Valid() && |m.threads| == |cfg.repos| && m.next <= |cfg.repos|
    requires Enabled(cfg, m, a)
  {
    match a
    case Launch =>
      if cfg.repos[m.next].empty then
        SetThread(m, m.next, Reporting(Skip, WantLock))
          .(next := m.next + 1, counters := m.counters.(skipped := m.counters.skipped + 1))
      else SetThread(m, m.next, Working(FRESH)).(next := m.next + 1)
    case Tick(i) =>
      match m.threads[i]
      case Working(w) =>
        if w.stage.Ended? then SetThread(m, i, Folding(w, 0))
        else SetThread(m, i, Working(Worker.Next(cfg.jobs[i], w, m.tree))).(tree := Effect(cfg.jobs[i], w, m.tree))
      case Folding(w, k) =>
        if k < 4 then SetThread(m, i, Folding(w, k + 1)).(counters := AddField(m.counters, w.outcome, k))
        else SetThread(m, i, Reporting(Did(w), WantLock))
      case Reporting(_, _) => TickReport(m, i, |cfg.repos|)
      case _ => m
  }

  ghost predicate Finished(m: M) {
    forall i :: 0 <= i < |m.threads| ==> m.threads[i].Exited?
  }

  /* ---- what every step keeps ---- */

  ghost predicate Holds(th: Thread) {
    th.Reporting? && !th.r.WantLock?
  }

  /** The lock is held by exactly the thread inside the critical section. */
  ghost predicate LockInv(m: M) {
    && (forall i :: 0 <= i < |m.threads| ==> (Holds(m.threads[i]) <==> m.lock == Ok(i)))
    && (m.lock.Ok? ==> m.lock.value < |m.threads|)
  }

  ghost predicate Midway(m: M) {
    m.lock.Ok? && m.lock.value < |m.threads| && m.threads[m.lock.value].Reporting? && m.threads[m.lock.value].r.Counted?
  }

  /** Progress so far is 1, 2, ..., done with one constant total; the last of these is still
      to be made while the lock holder sits between counting and calling. */
  ghost predicate ProgressInv(cfg: Config, m: M) {
    && m.done == Sum(m.threads, CountF)
    && |m.calls| == Sum(m.threads, CallF)
    && m.done == |m.calls| + Bit(Midway(m))
    && (forall k :: 0 <= k < |m.calls| ==> m.calls[k] == (k + 1, |cfg.repos|))
    && (Midway(m) ==> m.threads[m.lock.value].r.n == m.done)
  }

  ghost predicate CounterInv(m: M) {
    && m.counters.synced == Sum(m.threads, SyncedF)
    && m.counters.skipped == Sum(m.threads, SkippedF)
    && m.counters.failed == Sum(m.threads, FailedF)
    && m.counters.archived == Sum(m.threads, ArchivedF)
    && m.counters.exported == Sum(m.threads, ExportedF)
  }

  predicate FitsRepo(repo: Repo, th: Thread) {
    match th
    case Idle => true
    case Working(w) => !repo.empty
    case Folding(w, k) => !repo.empty && w.stage.Ended? && k <= 4
    case Reporting(s, _) => s.Skip? == repo.empty && (s.Did? ==> s.w.stage.Ended?)
    case Exited(s) => s.Skip? == repo.empty && (s.Did? ==> s.w.stage.Ended?)
  }

  ghost predicate ShapeInv(cfg: Config, m: M) {
    && cfg.Valid() && |m.threads| == |cfg.repos| && m.next <= |cfg.repos|
    && (forall i :: 0 <= i < |m.threads| ==> (m.threads[i].Idle? <==> i >= m.next))
    && (forall i :: 0 <= i < |m.threads| ==> FitsRepo(cfg.repos[i], m.threads[i]))
  }

  function StateOf(repo: Repo, th: Thread): State {
    match th
    case Idle => Initial(repo)
    case Working(w) => w
    case Folding(w, _) => w
    case Reporting(s, _) => if s.Skip? then SKIPPED else s.w
    case Exited(s) => if s.Skip? then SKIPPED else s.w
  }

  function States(cfg: Config, m: M): seq<State>
    requires |m.threads| == |cfg.repos|
  {
    seq(|m.threads|, i requires 0 <= i < |m.threads| => StateOf(cfg.repos[i], m.threads[i]))
  }

  ghost predicate Inv(cfg: Config, t0: Tree, m: M) {
    && ShapeInv(cfg, m)
    && LockInv(m)
    && ProgressInv(cfg, m)
    && CounterInv(m)
    && Running(cfg, m) <= cfg.limit
    && Pool.Inv(cfg.jobs, InitialStates(cfg.repos), t0, States(cfg, m), m.tree)
  }

  lemma InvStart(cfg: Config, t: Tree)
    requires cfg.Valid()
    ensures Inv(cfg, t, Start(cfg, t))
  {
    var m := Start(cfg, t);
    SumZero(m.threads, CountF);
    SumZero(m.threads, CallF);
    SumZero(m.threads, SyncedF);
    SumZero(m.threads, SkippedF);
    SumZero(m.threads, FailedF);
    SumZero(m.threads, ArchivedF);
    SumZero(m.threads, ExportedF);
    SumZero(m.threads, ActiveF(cfg.repos));
    assert States(cfg, m) == InitialStates(cfg.repos);
    Pool.InvInitially(cfg.jobs, InitialStates(cfg.repos), t);
  }

  lemma SumsUpdate(cfg: Config, m: M, i: nat, th: Thread)
    requires i < |m.threads|
    ensures var ts, us := m.threads, m.threads[i := th];
            && Sum(us, CountF) + Bit(Counts(ts[i])) == Sum(ts, CountF) + Bit(Counts(th))
            && Sum(us, CallF) + Bit(Called(ts[i])) == Sum(ts, CallF) + Bit(Called(th))
            && Sum(us, SyncedF) + Folded(ts[i]).synced == Sum(ts, SyncedF) + Folded(th).synced
            && Sum(us, SkippedF) + Folded(ts[i]).skipped == Sum(ts, SkippedF) + Folded(th).skipped
            && Sum(us, FailedF) + Folded(ts[i]).failed == Sum(ts, FailedF) + Folded(th).failed
            && Sum(us, ArchivedF) + Folded(ts[i]).archived == Sum(ts, ArchivedF) + Folded(th).archived
            && Sum(us, ExportedF) + Folded(ts[i]).exported == Sum(ts, ExportedF) + Folded(th).exported
            && Sum(us, ActiveF(cfg.repos)) + Bit(Active(cfg.repos, i, ts[i])) == Sum(ts, ActiveF(cfg.repos)) + Bit(Active(cfg.repos, i, th))
  {
    SumUpdate(m.threads, CountF, i, th);
    SumUpdate(m.threads, CallF, i, th);
    SumUpdate(m.threads, SyncedF, i, th);
    SumUpdate(m.threads, SkippedF, i, th);
    SumUpdate(m.threads, FailedF, i, th);
    SumUpdate(m.threads, ArchivedF, i, th);
    SumUpdate(m.threads, ExportedF, i, th);
    SumUpdate(m.threads, ActiveF(cfg.repos), i, th);
  }

  /** The thread an action moves, and what it becomes. */
  ghost function Moved(cfg: Config, m: M, a: Action): nat
    requires ShapeInv(cfg, m) && Enabled(cfg, m, a)
    ensures Moved(cfg, m, a) < |m.threads|
  {
    match a
    case Launch => m.next
    case Tick(i) => i
  }

  lemma NextMoves(cfg: Config, m: M, a: Action)
    requires ShapeInv(cfg, m) && Enabled(cfg, m, a)
    ensures var i := Moved(cfg, m, a); var m' := Perform(cfg, m, a);
            |m'.threads| == |m.threads| && m'.threads == m.threads[i := m'.threads[i]]
  {
    var i := Moved(cfg, m, a);
    var m' := Perform(cfg, m, a);
    assert forall k :: 0 <= k < |m.threads| && k != i ==> m'.threads[k] == m.threads[k];
  }

  lemma ShapeStep(cfg: Config, m: M, a: Action)
    requires ShapeInv(cfg, m) && Enabled(cfg, m, a)
    ensures ShapeInv(cfg, Perform(cfg, m, a))
  {
    NextMoves(cfg, m, a);
    var i := Moved(cfg, m, a);
    var m' := Perform(cfg, m, a);
    assert FitsRepo(cfg.repos[i], m.threads[i]);
    assert FitsRepo(cfg.repos[i], m'.threads[i]);
  }

  lemma LockStep(cfg: Config, m: M, a: Action)
    requires ShapeInv(cfg, m) && LockInv(m) && Enabled(cfg, m, a)
    ensures LockInv(Perform(cfg, m, a))
  {
    NextMoves(cfg, m, a);
    var i := Moved(cfg, m, a);
    assert Holds(m.threads[i]) <==> m.lock == Ok(i);
  }

  /** Both progress tallies move with the thread they count. */
  lemma ProgressDelta(cfg: Config, m: M, a: Action)
    requires ShapeInv(cfg, m) && Enabled(cfg, m, a)
    ensures var i := Moved(cfg, m, a); var m' := Perform(cfg, m, a);
            && m'.done + Bit(Counts(m.threads[i])) == m.done + Bit(Counts(m'.threads[i]))
            && |m'.calls| + Bit(Called(m.threads[i])) == |m.calls| + Bit(Called(m'.threads[i]))
  {
    var i := Moved(cfg, m, a);
    assert m.threads[i].Idle? <==> i >= m.next;
  }

  lemma ReportKeepsOrder(cfg: Config, m: M, i: nat)
    requires ShapeInv(cfg, m) && LockInv(m) && ProgressInv(cfg, m)
    requires Enabled(cfg, m, Tick(i)) && m.threads[i].Reporting?
    ensures var m' := TickReport(m, i, |cfg.repos|);
            && m'.done == |m'.calls| + Bit(Midway(m'))
            && (forall k :: 0 <= k < |m'.calls| ==> m'.calls[k] == (k + 1, |cfg.repos|))
            && (Midway(m') ==> m'.threads[m'.lock.value].r.n == m'.done)
  {
    assert Holds(m.threads[i]) <==> m.lock == Ok(i);
    match m.threads[i].r
    case WantLock =>
    case Locked =>
    case Counted(n) =>
    case Announced =>
  }

  lemma OthersKeepOrder(cfg: Config, m: M, a: Action)
    requires ShapeInv(cfg, m) && LockInv(m) && ProgressInv(cfg, m) && Enabled(cfg, m, a)
    requires !m.threads[Moved(cfg, m, a)].Reporting?
    ensures var m' := Perform(cfg, m, a);
            && m'.done == m.done && m'.calls == m.calls && m'.lock == m.lock
            && Midway(m') == Midway(m)
            && (Midway(m) ==> m'.threads[m.lock.value] == m.threads[m.lock.value])
  {
    NextMoves(cfg, m, a);
    var i := Moved(cfg, m, a);
    assert Holds(m.threads[i]) <==> m.lock == Ok(i);
  }

  lemma ProgressStep(cfg: Config, m: M, a: Action)
    requires ShapeInv(cfg, m) && LockInv(m) && ProgressInv(cfg, m) && Enabled(cfg, m, a)
    ensures ProgressInv(cfg, Perform(cfg, m, a))
  {
    NextMoves(cfg, m, a);
    var i := Moved(cfg, m, a);
    var m' := Perform(cfg, m, a);
    SumsUpdate(cfg, m, i, m'.threads[i]);
    ProgressDelta(cfg, m, a);
    if m.threads[i].Reporting? {
      assert m.threads[i].Idle? <==> i >= m.next;
      ReportKeepsOrder(cfg, m, i);
    } else {
      OthersKeepOrder(cfg, m, a);
    }
  }

  ghost predicate Balanced(c: Counters, before: Counters, c': Counters, after: Counters) {
    && c'.synced + before.synced == c.synced + after.synced
    && c'.skipped + before.skipped == c.skipped + after.skipped
    && c'.failed + before.failed == c.failed + after.failed
    && c'.archived + before.archived == c.archived + after.archived
    && c'.exported + before.exported == c.exported + after.exported
  }

  /** The counters move by exactly what the thread has newly folded in. */
  lemma CounterDelta(cfg: Config, m: M, a: Action)
    requires ShapeInv(cfg, m) && Enabled(cfg, m, a)
    ensures var i := Moved(cfg, m, a); var m' := Perform(cfg, m, a);
            Balanced(m.counters, Folded(m.threads[i]), m'.counters, Folded(m'.threads[i]))
  {
    match a
    case Launch => LaunchDelta(cfg, m);
    case Tick(i) => TickDelta(cfg, m, i);
  }

  lemma LaunchDelta(cfg: Config, m: M)
    requires ShapeInv(cfg, m) && Enabled(cfg, m, Launch)
    ensures Balanced(m.counters, Folded(m.threads[m.next]), Perform(cfg, m, Launch).counters, Folded(Perform(cfg, m, Launch).threads[m.next]))
  {
    assert m.threads[m.next].Idle?;
  }

  lemma TickDelta(cfg: Config, m: M, i: nat)
    requires ShapeInv(cfg, m) && Enabled(cfg, m, Tick(i))
    ensures Balanced(m.counters, Folded(m.threads[i]), Perform(cfg, m, Tick(i)).counters, Folded(Perform(cfg, m, Tick(i)).threads[i]))
  {
    assert FitsRepo(cfg.repos[i], m.threads[i]);
    match m.threads[i]
    case Working(_) =>
    case Folding(w, k) =>
      FoldDelta(m.counters, w, k);
      assert Perform(cfg, m, Tick(i)).threads[i] == if k < 4 then Folding(w, k + 1) else Reporting(Did(w), WantLock);
    case Reporting(_, _) => ReportDelta(m, i, |cfg.repos|);
    case _ =>
  }

  /** Reporting is about progress, not about the figures. */
  lemma ReportDelta(m: M, i: nat, total: nat)
    requires i < |m.threads| && m.threads[i].Reporting?
    ensures TickReport(m, i, total).counters == m.counters
    ensures Folded(TickReport(m, i, total).threads[i]) == Folded(m.threads[i])
  {
  }

  lemma FoldDelta(c: Counters, w: State, k: nat)
    requires k <= 4
    ensures k < 4 ==> Balanced(c, Folded(Folding(w, k)), AddField(c, w.outcome, k), Folded(Folding(w, k + 1)))
    ensures k == 4 ==> Folded(Folding(w, k)) == Folded(Reporting(Did(w), WantLock))
  {
  }

  lemma CounterStep(cfg: Config, m: M, a: Action)
    requires ShapeInv(cfg, m) && CounterInv(m) && Enabled(cfg, m, a)
    ensures CounterInv(Perform(cfg, m, a))
  {
    NextMoves(cfg, m, a);
    CounterDelta(cfg, m, a);
    SumsUpdate(cfg, m, Moved(cfg, m, a), Perform(cfg, m, a).threads[Moved(cfg, m, a)]);
  }

  lemma LimitStep(cfg: Config, m: M, a: Action)
    requires ShapeInv(cfg, m) && Running(cfg, m) <= cfg.limit && Enabled(cfg, m, a)
    ensures Running(cfg, Perform(cfg, m, a)) <= cfg.limit
  {
    NextMoves(cfg, m, a);
    var i := Moved(cfg, m, a);
    var m' := Perform(cfg, m, a);
    assert FitsRepo(cfg.repos[i], m.threads[i]);
    SumsUpdate(cfg, m, i, m'.threads[i]);
  }

  ghost predicate WorkerMoves(m: M, i: nat) {
    i < |m.threads| && m.threads[i].Working? && !m.threads[i].w.stage.Ended?
  }

  /** Only a worker's own step changes its state or the tree. */
  lemma StateStep(cfg: Config, m: M, a: Action)
    requires ShapeInv(cfg, m) && Enabled(cfg, m, a)
    ensures var i := Moved(cfg, m, a); var m' := Perform(cfg, m, a); var w := StateOf(cfg.repos[i], m.threads[i]);
            if WorkerMoves(m, i) then
              StateOf(cfg.repos[i], m'.threads[i]) == Worker.Next(cfg.jobs[i], w, m.tree)
              && m'.tree == Effect(cfg.jobs[i], w, m.tree)
            else StateOf(cfg.repos[i], m'.threads[i]) == w && m'.tree == m.tree
  {
    var i := Moved(cfg, m, a);
    assert FitsRepo(cfg.repos[i], m.threads[i]);
    assert m.threads[i].Idle? <==> i >= m.next;
  }

  lemma PoolStep(cfg: Config, t0: Tree, m: M, a: Action)
    requires ShapeInv(cfg, m) && Enabled(cfg, m, a)
    requires Pool.Independent(cfg.jobs)
    requires Pool.Inv(cfg.jobs, InitialStates(cfg.repos), t0, States(cfg, m), m.tree)
    ensures ShapeInv(cfg, Perform(cfg, m, a))
    ensures Pool.Inv(cfg.jobs, InitialStates(cfg.repos), t0, States(cfg, Perform(cfg, m, a)), Perform(cfg, m, a).tree)
  {
    ShapeStep(cfg, m, a);
    NextMoves(cfg, m, a);
    StateStep(cfg, m, a);
    var i := Moved(cfg, m, a);
    var m' := Perform(cfg, m, a);
    var ws := States(cfg, m);
    assert States(cfg, m') == ws[i := StateOf(cfg.repos[i], m'.threads[i])];
    if WorkerMoves(m, i) {
      Pool.InvStep(cfg.jobs, InitialStates(cfg.repos), t0, ws, m.tree, i);
    } else {
      assert ws[i := ws[i]] == ws;
    }
  }

  lemma InvStep(cfg: Config, t0: Tree, m: M, a: Action)
    requires Pool.Independent(cfg.jobs) && Inv(cfg, t0, m) && Enabled(cfg, m, a)
    ensures Inv(cfg, t0, Perform(cfg, m, a))
  {
    ShapeStep(cfg, m, a);
    LockStep(cfg, m, a);
    ProgressStep(cfg, m, a);
    CounterStep(cfg, m, a);
    LimitStep(cfg, m, a);
    PoolStep(cfg, t0, m, a);
  }
}
