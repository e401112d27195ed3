/** Whole runs of the machine: every finite schedule, however it interleaves the workers. */
module Runs {
  import opened Trees
  import opened Worker
  import opened Machine
  import Pool

  /** `acts` is a legal schedule leading from `m` to `m'`. */
  ghost predicate Leads(cfg: Config, m: M, acts: seq<Action>, m': M)
    requires ShapeInv(cfg, m)
    decreases |acts|
  {
    if acts == [] then m == m'
    else
      && Enabled(cfg, m, acts[0])
      && (ShapeStep(cfg, m, acts[0]);
          Leads(cfg, Perform(cfg, m, acts[0]), acts[1..], m'))
  }

  /** A state some schedule reaches from the start on tree `t0`. */
  ghost predicate Reachable(cfg: Config, t0: Tree, m: M) {
    && cfg.Valid()
    && exists acts :: Leads(cfg, Start(cfg, t0), acts, m)
  }

  lemma {:induction false} LeadsKeepsInv(cfg: Config, t0: Tree, m: M, acts: seq<Action>, m': M)
    requires Pool.Independent(cfg.jobs) && Inv(cfg, t0, m) && Leads(cfg, m, acts, m')
    ensures Inv(cfg, t0, m')
    decreases |acts|
  {
    if acts != [] {
      InvStep(cfg, t0, m, acts[0]);
      LeadsKeepsInv(cfg, t0, Perform(cfg, m, acts[0]), acts[1..], m');
    }
  }

  lemma ReachableInv(cfg: Config, t0: Tree, m: M)
    requires Pool.Independent(cfg.jobs) && Reachable(cfg, t0, m)
    ensures Inv(cfg, t0, m)
  {
    var acts :| Leads(cfg, Start(cfg, t0), acts, m);
    InvStart(cfg, t0);
    LeadsKeepsInv(cfg, t0, Start(cfg, t0), acts, m);
  }

  /* ---- progress and the limit ---- */

  /** In every reachable state the progress calls made so far are exactly (1, n), (2, n), ...,
      as many as repositories accounted for, save one while its report is being made; and no
      more than `limit` workers run. */
  lemma ProgressIsSequential(cfg: Config, t0: Tree, m: M)
    requires Pool.Independent(cfg.jobs) && Reachable(cfg, t0, m)
    ensures forall k :: 0 <= k < |m.calls| ==> m.calls[k] == (k + 1, |cfg.repos|)
    ensures m.done == |m.calls| || (m.done == |m.calls| + 1 && m.lock.Ok?)
    ensures Running(cfg, m) <= cfg.limit
  {
    ReachableInv(cfg, t0, m);
  }

  /** When Run is past g.Wait, every repository has been reported, the last call being
      (n, n). */
  lemma ProgressComplete(cfg: Config, t0: Tree, m: M)
    requires Pool.Independent(cfg.jobs) && Reachable(cfg, t0, m) && Finished(m)
    ensures |m.calls| == m.done == |cfg.repos|
    ensures |cfg.repos| > 0 ==> m.calls[|m.calls| - 1] == (|cfg.repos|, |cfg.repos|)
  {
    ReachableInv(cfg, t0, m);
    SumOnes(m.threads, CountF);
    SumOnes(m.threads, CallF);
  }

  /* ---- every run ends ---- */

  /** No deadlock: until every repository is accounted for, something can move. */
  lemma NeverStuck(cfg: Config, t0: Tree, m: M) returns (a: Action)
    requires Pool.Independent(cfg.jobs) && Reachable(cfg, t0, m) && !Finished(m)
    ensures ShapeInv(cfg, m) && Enabled(cfg, m, a)
  {
    ReachableInv(cfg, t0, m);
    if m.lock.Ok? {
      a := Tick(m.lock.value);
      assert Holds(m.threads[m.lock.value]);
    } else if exists i :: 0 <= i < |m.threads| && !m.threads[i].Idle? && !m.threads[i].Exited? {
      var i :| 0 <= i < |m.threads| && !m.threads[i].Idle? && !m.threads[i].Exited?;
      a := Tick(i);
    } else {
      a := Launch;
      var i :| 0 <= i < |m.threads| && !m.threads[i].Exited?;
      assert m.threads[i].Idle? && m.next <= i;
      forall k | 0 <= k < |m.threads| ensures !Active(cfg.repos, k, m.threads[k]) {}
      SumZero(m.threads, ActiveF(cfg.repos));
      if m.next > 0 {
        assert !m.threads[m.next - 1].Idle?;
      }
    }
  }

  /** Steps a thread still has before it. */
  function ThreadRank(job: Job, th: Thread): nat {
    match th
    case Idle => 12 + Rank(job, FRESH)
    case Working(w) => 11 + Rank(job, w)
    case Folding(_, k) => if k <= 4 then 10 - k else 5
    case Reporting(_, r) => (match r case WantLock => 4 case Locked => 3 case Counted(_) => 2 case Announced => 1)
    case Exited(_) => 0
  }

  ghost function RankF(cfg: Config): (nat, Thread) -> nat {
    (i: nat, th: Thread) => if i < |cfg.jobs| then ThreadRank(cfg.jobs[i], th) else 0
  }

  ghost function Measure(cfg: Config, m: M): nat {
    Sum(m.threads, RankF(cfg))
  }

  lemma ThreadRankDrops(cfg: Config, m: M, a: Action)
    requires ShapeInv(cfg, m) && Enabled(cfg, m, a)
    ensures var i := Moved(cfg, m, a);
            ThreadRank(cfg.jobs[i], Perform(cfg, m, a).threads[i]) < ThreadRank(cfg.jobs[i], m.threads[i])
  {
    var i := Moved(cfg, m, a);
    assert m.threads[i].Idle? <==> i >= m.next;
    assert FitsRepo(cfg.repos[i], m.threads[i]);
    match m.threads[i]
    case Working(w) =>
      if !w.stage.Ended? {
        RankDrops(cfg.jobs[i], w, m.tree);
      }
    case Reporting(_, r) => assert Perform(cfg, m, a) == TickReport(m, i, |cfg.repos|);
    case _ =>
  }

  /** Termination: every step brings the end closer, so every schedule is finite. */
  lemma MeasureDrops(cfg: Config, m: M, a: Action)
    requires ShapeInv(cfg, m) && Enabled(cfg, m, a)
    ensures Measure(cfg, Perform(cfg, m, a)) < Measure(cfg, m)
  {
    NextMoves(cfg, m, a);
    ThreadRankDrops(cfg, m, a);
    var i := Moved(cfg, m, a);
    SumUpdate(m.threads, RankF(cfg), i, Perform(cfg, m, a).threads[i]);
  }

  lemma {:induction false} ScheduleIsBounded(cfg: Config, m: M, acts: seq<Action>, m': M)
    requires ShapeInv(cfg, m) && Leads(cfg, m, acts, m')
    ensures |acts| + Measure(cfg, m') <= Measure(cfg, m)
    decreases |acts|
  {
    if acts != [] {
      MeasureDrops(cfg, m, acts[0]);
      ShapeStep(cfg, m, acts[0]);
      ScheduleIsBounded(cfg, Perform(cfg, m, acts[0]), acts[1..], m');
    }
  }

  /* ---- one repository at a time ---- */

  function Add(a: Counters, b: Counters): Counters {
    Counters(a.synced + b.synced, a.skipped + b.skipped, a.failed + b.failed, a.archived + b.archived, a.exported + b.exported)
  }

  /** Run with no concurrency at all: the repositories from number `i` on in listing order,
      each skipped or worked on to its end before the next is looked at. */
  ghost function OneAtATime(cfg: Config, i: nat, t: Tree, c: Counters): (Counters, Tree)
    requires cfg.Valid() && i <= |cfg.repos|
    decreases |cfg.repos| - i
  {
    if i == |cfg.repos| then (c, t)
    else if cfg.repos[i].empty then OneAtATime(cfg, i + 1, t, Add(c, Whole(Skip)))
    else
      var (w, t') := Finish(cfg.jobs[i], FRESH, t);
      OneAtATime(cfg, i + 1, t', Add(c, Whole(Did(w))))
  }

  function StoryOf(repo: Repo, w: State): Story {
    if repo.empty then Skip else Did(w)
  }

  ghost function Total(repos: seq<Repo>, ws: seq<State>, n: nat): Counters
    requires n <= |repos| == |ws|
  {
    if n == 0 then Counters(0, 0, 0, 0, 0)
    else Add(Total(repos, ws, n - 1), Whole(StoryOf(repos[n - 1], ws[n - 1])))
  }

  lemma {:induction false} TotalUpTo(repos: seq<Repo>, ws: seq<State>, vs: seq<State>, n: nat)
    requires n <= |repos| == |ws| == |vs|
    requires forall i :: 0 <= i < n ==> ws[i] == vs[i]
    ensures Total(repos, ws, n) == Total(repos, vs, n)
  {
    if n > 0 {
      TotalUpTo(repos, ws, vs, n - 1);
    }
  }

  lemma {:induction false} SerialFrame(jobs: seq<Job>, ws: seq<State>, t: Tree, i: nat)
    requires |jobs| == |ws| && i <= |jobs|
    ensures |Pool.Serial(jobs, ws, t, i).0| == |ws|
    ensures forall k :: 0 <= k < i ==> Pool.Serial(jobs, ws, t, i).0[k] == ws[k]
    decreases |jobs| - i
  {
    if i < |jobs| {
      var (w, t') := Finish(jobs[i], ws[i], t);
      SerialFrame(jobs, ws[i := w], t', i + 1);
    }
  }

  lemma {:induction false} OneAtATimeIsSerial(cfg: Config, ws: seq<State>, i: nat, t: Tree)
    requires cfg.Valid() && i <= |cfg.repos| == |ws|
    requires forall k :: i <= k < |ws| ==> ws[k] == Initial(cfg.repos[k])
    ensures var (vs, u) := Pool.Serial(cfg.jobs, ws, t, i);
            |vs| == |cfg.repos|
            && OneAtATime(cfg, i, t, Total(cfg.repos, ws, i)) == (Total(cfg.repos, vs, |vs|), u)
    decreases |cfg.repos| - i
  {
    if i < |cfg.repos| {
      var (w, t') := Finish(cfg.jobs[i], ws[i], t);
      var ws' := ws[i := w];
      TotalUpTo(cfg.repos, ws, ws', i);
      assert Total(cfg.repos, ws', i + 1) == Add(Total(cfg.repos, ws, i), Whole(StoryOf(cfg.repos[i], w)));
      OneAtATimeIsSerial(cfg, ws', i + 1, t');
    }
  }

  lemma {:induction false} SumsAreTotals(repos: seq<Repo>, ts: seq<Thread>, ws: seq<State>, n: nat)
    requires n == |ts| <= |repos| == |ws|
    requires forall i :: 0 <= i < n ==> ts[i].Exited? && ts[i].story == StoryOf(repos[i], ws[i])
    ensures Total(repos, ws, n) ==
            Counters(Sum(ts, SyncedF), Sum(ts, SkippedF), Sum(ts, FailedF), Sum(ts, ArchivedF), Sum(ts, ExportedF))
  {
    if n > 0 {
      SumsAreTotals(repos, ts[..n - 1], ws, n - 1);
    }
  }

  /** What each worker tells at the end is what it would have told had it been alone. */
  ghost function Alone(cfg: Config, t0: Tree, i: nat): State
    requires cfg.Valid() && i < |cfg.repos|
  {
    if cfg.repos[i].empty then SKIPPED else Finish(cfg.jobs[i], FRESH, t0).0
  }

  ghost function AloneStates(cfg: Config, t0: Tree): seq<State>
    requires cfg.Valid()
  {
    seq(|cfg.repos|, i requires 0 <= i < |cfg.repos| => Alone(cfg, t0, i))
  }

  lemma StoriesAreTold(cfg: Config, m: M)
    requires ShapeInv(cfg, m) && Finished(m)
    ensures forall i :: 0 <= i < |m.threads| ==>
              States(cfg, m)[i].stage.Ended? && m.threads[i].story == StoryOf(cfg.repos[i], States(cfg, m)[i])
  {
    forall i | 0 <= i < |m.threads|
      ensures States(cfg, m)[i].stage.Ended? && m.threads[i].story == StoryOf(cfg.repos[i], States(cfg, m)[i])
    {
      assert FitsRepo(cfg.repos[i], m.threads[i]);
    }
  }

  /** The end of a run: its tree and counters are those of the serial run, and each worker's
      story is the one it tells when run alone on the initial tree. */
  lemma InterleavingsAgree(cfg: Config, t0: Tree, m: M)
    requires Pool.Independent(cfg.jobs) && Reachable(cfg, t0, m) && Finished(m)
    ensures (m.counters, m.tree) == OneAtATime(cfg, 0, t0, Counters(0, 0, 0, 0, 0))
    ensures |m.threads| == |cfg.repos| && States(cfg, m) == AloneStates(cfg, t0)
    ensures m.counters == Total(cfg.repos, AloneStates(cfg, t0), |cfg.repos|)
  {
    ReachableInv(cfg, t0, m);
    var ws, ws0 := States(cfg, m), InitialStates(cfg.repos);
    StoriesAreTold(cfg, m);
    Pool.AnyOrderIsSerial(cfg.jobs, ws0, t0, ws, m.tree);
    OneAtATimeIsSerial(cfg, ws0, 0, t0);
    SumsAreTotals(cfg.repos, m.threads, ws, |ws|);
    forall i | 0 <= i < |ws| ensures ws[i] == Alone(cfg, t0, i) {
      assert ws[i] == Finish(cfg.jobs[i], ws0[i], t0).0;
    }
  }

  /** Confluence: two runs from the same tree, with any interleavings and even different
      concurrency limits, end in the same tree with the same counts. */
  lemma Confluence(cfg: Config, limit: nat, t0: Tree, m: M, m': M)
    requires Pool.Independent(cfg.jobs)
    requires Reachable(cfg, t0, m) && Finished(m)
    requires Reachable(cfg.(limit := limit), t0, m') && Finished(m')
    ensures m.tree == m'.tree && m.counters == m'.counters
  {
    InterleavingsAgree(cfg, t0, m);
    InterleavingsAgree(cfg.(limit := limit), t0, m');
    LimitDoesNotMatter(cfg, limit, 0, t0, Counters(0, 0, 0, 0, 0));
  }

  lemma {:induction false} LimitDoesNotMatter(cfg: Config, limit: nat, i: nat, t: Tree, c: Counters)
    requires cfg.Valid() && limit >= 1 && i <= |cfg.repos|
    ensures OneAtATime(cfg, i, t, c) == OneAtATime(cfg.(limit := limit), i, t, c)
    decreases |cfg.repos| - i
  {
    if i < |cfg.repos| {
      if cfg.repos[i].empty {
        LimitDoesNotMatter(cfg, limit, i + 1, t, Add(c, Whole(Skip)));
      } else {
        var (w, t') := Finish(cfg.jobs[i], FRESH, t);
        LimitDoesNotMatter(cfg, limit, i + 1, t', Add(c, Whole(Did(w))));
      }
    }
  }

  /* ---- what the counts add up to ---- */

  /** Repositories whose worker ended without a mirror. */
  ghost function NeverSynced(repos: seq<Repo>, ws: seq<State>, n: nat): nat
    requires n <= |repos| == |ws|
  {
    if n == 0 then 0
    else NeverSynced(repos, ws, n - 1) + Bit(!repos[n - 1].empty && !ws[n - 1].outcome.synced)
  }

  /** One repository's share of the accounts. */
  ghost predicate Accounted(c: Counters, lost: nat, n: nat, kinds: nat) {
    && c.synced + c.skipped + lost == n
    && c.archived <= c.synced
    && lost <= c.failed
    && c.exported <= c.synced * kinds
  }

  lemma OneAccounted(j: Job, w: State, kinds: nat)
    requires w.stage.Ended? && Plausible(j, w) && SelectedCount(j, 0) == kinds
    ensures Accounted(Whole(Did(w)), Bit(!w.outcome.synced), 1, kinds)
  {
    assert w.outcome.exported <= Bit(w.outcome.synced) * kinds;
  }

  lemma AccountsAdd(a: Counters, x: nat, m: nat, b: Counters, y: nat, n: nat, kinds: nat)
    requires Accounted(a, x, m, kinds) && Accounted(b, y, n, kinds)
    ensures Accounted(Add(a, b), x + y, m + n, kinds)
  {
    assert (a.synced + b.synced) * kinds == a.synced * kinds + b.synced * kinds;
  }

  lemma {:induction false} TotalsAddUp(repos: seq<Repo>, jobs: seq<Job>, ws: seq<State>, n: nat, kinds: nat)
    requires n <= |repos| == |ws| == |jobs|
    requires forall i :: 0 <= i < n && !repos[i].empty ==> ws[i].stage.Ended? && Plausible(jobs[i], ws[i]) && SelectedCount(jobs[i], 0) == kinds
    ensures Accounted(Total(repos, ws, n), NeverSynced(repos, ws, n), n, kinds)
  {
    if n > 0 {
      TotalsAddUp(repos, jobs, ws, n - 1, kinds);
      var story := StoryOf(repos[n - 1], ws[n - 1]);
      var lost := Bit(!repos[n - 1].empty && !ws[n - 1].outcome.synced);
      if repos[n - 1].empty {
        assert Accounted(Whole(story), lost, 1, kinds);
      } else {
        OneAccounted(jobs[n - 1], ws[n - 1], kinds);
      }
      AccountsAdd(Total(repos, ws, n - 1), NeverSynced(repos, ws, n - 1), n - 1, Whole(story), lost, 1, kinds);
    }
  }

  /** Accounting: under any failures and any interleaving, every listed repository is
      synced, skipped, or failed without ever syncing; archives and exports only come from
      synced ones. */
  lemma CountsAddUp(cfg: Config, t0: Tree, m: M, kinds: nat)
    requires Pool.Independent(cfg.jobs) && Reachable(cfg, t0, m) && Finished(m)
    requires forall i :: 0 <= i < |cfg.jobs| ==> SelectedCount(cfg.jobs[i], 0) == kinds
    ensures Accounted(m.counters, NeverSynced(cfg.repos, AloneStates(cfg, t0), |cfg.repos|), |cfg.repos|, kinds)
    ensures |cfg.repos| <= m.counters.synced + m.counters.skipped + m.counters.failed
  {
    InterleavingsAgree(cfg, t0, m);
    var ws := AloneStates(cfg, t0);
    forall i | 0 <= i < |cfg.repos| && !cfg.repos[i].empty
      ensures ws[i].stage.Ended? && Plausible(cfg.jobs[i], ws[i])
    {
      PlausibleFinish(cfg.jobs[i], FRESH, t0);
    }
    TotalsAddUp(cfg.repos, cfg.jobs, ws, |cfg.repos|, kinds);
  }
}
