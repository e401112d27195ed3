/** Runner.Run from end to end: list, scan, work, prune, report. */
module Backup {
  import opened Names
  import opened Trees
  import opened Worker
  import opened Locality
  import opened Soundness
  import opened Upkeep
  import opened Machine
  import opened Runs
  import opened Jobs
  import opened Scan
  import opened Order
  import opened Safety
  import Histories
  import Provenance
  import Archive
  import Prune
  import Pool

  datatype ListState = StateAll | StateActive | StateArchived

  datatype Options = Options(
    l: Layout,
    state: ListState,
    archive: Selection,
    kinds: seq<Kind>,
    concurrency: int,
    pruneRemoved: bool)

  /** The outside world during one Run. `procs` is GOMAXPROCS. */
  datatype World = World(
    lists: ListState -> Maybe<seq<Repo>>,
    destReadable: bool,
    archReadable: bool,
    exporters: seq<Kind>,
    env: string -> Env,
    removals: Prune.Removals,
    procs: nat)

  datatype Result = Result(synced: nat, skipped: nat, failed: nat, archived: nat, pruned: nat, exported: nat)

  function Limit(concurrency: int, procs: nat): nat {
    if concurrency < 1 then procs else concurrency
  }

  datatype Listing = Listing(repos: seq<Repo>, canonical: seq<Repo>)

  /** listRepos: the filtered listing and the full one staleness is judged by. */
  function ListRepos(w: World, state: ListState): Maybe<Listing> {
    match w.lists(state)
    case Err => Err
    case Ok(repos) =>
      if state.StateAll? then Ok(Listing(repos, repos))
      else
        match w.lists(StateAll)
        case Err => Err
        case Ok(all) => Ok(Listing(repos, all))
  }

  /** Both listings are the forge's own: what the run works on is what it lists for State, what
      staleness is judged by what it lists for StateAll. Without either there is no run. */
  lemma ListingsAreTheForges(w: World, state: ListState)
    ensures ListRepos(w, state).Ok? <==> w.lists(state).Ok? && w.lists(StateAll).Ok?
    ensures ListRepos(w, state).Ok? ==>
              w.lists(state) == Ok(ListRepos(w, state).value.repos) && w.lists(StateAll) == Ok(ListRepos(w, state).value.canonical)
  {
  }

  function SetupOf(o: Options, w: World): Setup {
    Setup(o.l, o.archive, o.kinds, w.exporters, Limit(o.concurrency, w.procs))
  }

  ghost function ConfigOf(o: Options, w: World, repos: seq<Repo>): Config {
    ConfigFor(SetupOf(o, w), repos, w.env)
  }

  ghost function Pruned(o: Options, w: World, stale: seq<string>, t: Tree): (nat, Tree) {
    if o.pruneRemoved then Prune.PruneAll(t, o.l, stale, w.removals) else (0, t)
  }

  /** The state `m` the machine is in when g.Wait returns, given the listing. */
  ghost predicate Waited(o: Options, w: World, li: Listing, t0: Tree, m: M) {
    Reachable(ConfigOf(o, w, li.repos), t0, m) && Finished(m)
  }

  ghost predicate Ends(o: Options, w: World, li: Listing, t0: Tree, m: M, res: Result, t1: Tree) {
    var (n, u) := Pruned(o, w, StalePaths(t0, o.l, li.canonical), m.tree);
    t1 == u && res == Result(m.counters.synced, m.counters.skipped, m.counters.failed, m.counters.archived, n, m.counters.exported)
  }

  /** One possible Run: from tree `t0` it returns `res` and leaves `t1`. The scan happens
      before any worker starts, the prune after all of them are done. */
  ghost predicate Run(o: Options, w: World, t0: Tree, res: Maybe<Result>, t1: Tree) {
    match ListRepos(w, o.state)
    case Err => res.Err? && t1 == t0
    case Ok(li) =>
      if !w.destReadable || !w.archReadable then res.Err? && t1 == t0
      else res.Ok? && exists m :: Waited(o, w, li, t0, m) && Ends(o, w, li, t0, m, res.value, t1)
  }

  /* ---- determinism ---- */

  /** Two Runs against the same answers from the outside world, whatever their interleavings
      and their concurrency, return the same and leave the same tree. */
  lemma RunIsDetermined(o: Options, c: int, w: World, t0: Tree, r1: Maybe<Result>, u1: Tree, r2: Maybe<Result>, u2: Tree)
    requires Run(o, w, t0, r1, u1) && Run(o.(concurrency := c), w, t0, r2, u2)
    requires o.l.Apart()
    requires ListRepos(w, o.state).Ok? ==> Listable(ListRepos(w, o.state).value.repos)
    ensures r1 == r2 && u1 == u2
  {
    if r1.Ok? {
      var o2 := o.(concurrency := c);
      var li := ListRepos(w, o.state).value;
      var m1 :| Waited(o, w, li, t0, m1) && Ends(o, w, li, t0, m1, r1.value, u1);
      var m2 :| Waited(o2, w, li, t0, m2) && Ends(o2, w, li, t0, m2, r2.value, u2);
      ListableIsIndependent(SetupOf(o, w), li.repos, w.env);
      var cfg1, cfg2 := ConfigOf(o, w, li.repos), ConfigOf(o2, w, li.repos);
      assert cfg2 == cfg1.(limit := cfg2.limit) by {
        JobsIgnoreLimit(SetupOf(o, w), SetupOf(o2, w).limit, li.repos, w.env);
      }
      Confluence(cfg1, cfg2.limit, t0, m1, m2);
    }
  }

  lemma JobsIgnoreLimit(s: Setup, limit: nat, repos: seq<Repo>, env: string -> Env)
    ensures ConfigFor(s.(limit := limit), repos, env) == ConfigFor(s, repos, env).(limit := limit)
  {
    var a, b := ConfigFor(s.(limit := limit), repos, env), ConfigFor(s, repos, env);
    forall i | 0 <= i < |repos| ensures a.jobs[i] == b.jobs[i] {
      JobIgnoresLimit(s, limit, repos[i], env(repos[i].path));
    }
    assert a.jobs == b.jobs;
  }

  lemma JobIgnoresLimit(s: Setup, limit: nat, repo: Repo, e: Env)
    ensures JobFor(s.(limit := limit), repo, e) == JobFor(s, repo, e)
  {
  }

  /* ---- every moment of a Run ---- */

  /** `u` is on disk at some moment of a Run started on `t0`: while the workers are at it, or
      while the first `n` stale paths have been dealt with. */
  ghost predicate During(o: Options, w: World, t0: Tree, u: Tree) {
    match ListRepos(w, o.state)
    case Err => u == t0
    case Ok(li) => u == t0 || (w.destReadable && w.archReadable && exists m, n :: AtWork(o, w, li, t0, m, n, u))
  }

  ghost predicate AtWork(o: Options, w: World, li: Listing, t0: Tree, m: M, n: nat, u: Tree) {
    && Reachable(ConfigOf(o, w, li.repos), t0, m)
    && n <= |StalePaths(t0, o.l, li.canonical)|
    && (n > 0 ==> o.pruneRemoved && Finished(m))
    && u == Prune.PruneAll(m.tree, o.l, StalePaths(t0, o.l, li.canonical)[..n], w.removals).1
  }

  /** The last of these moments is the end. */
  lemma RunIsDuring(o: Options, w: World, t0: Tree, res: Maybe<Result>, t1: Tree)
    requires Run(o, w, t0, res, t1)
    ensures During(o, w, t0, t1)
  {
    if res.Ok? {
      var li := ListRepos(w, o.state).value;
      var m :| Waited(o, w, li, t0, m) && Ends(o, w, li, t0, m, res.value, t1);
      var stale := StalePaths(t0, o.l, li.canonical);
      assert stale[..|stale|] == stale && stale[..0] == [];
      assert AtWork(o, w, li, t0, m, if o.pruneRemoved then |stale| else 0, t1);
    }
  }

  /* ---- what a Run never takes away ---- */

  ghost predicate ProperRun(o: Options, w: World, li: Listing, valid: Tree -> bool) {
    Proper(SetupOf(o, w), li.repos, w.env, valid)
  }

  ghost predicate OrderlyRun(o: Options, w: World, li: Listing) {
    Orderly(SetupOf(o, w), li.repos, w.env)
  }

  /** What has become of path `q` on the way from `t0` to `u`, if the Run works on it: a mirror
      that was there is there, a usable one is still usable, and the archive is the old one or
      a complete one, of a usable mirror if a HEAD meant one at `t0`. */
  ghost predicate Cared(l: Layout, valid: Tree -> bool, t0: Tree, u: Tree, q: string) {
    var k, a := MirrorPath(l, q), ArchivePath(l, q);
    && (IsDir(t0, k) ==> IsDir(u, k))
    && (valid(Subtree(t0, k)) ==> valid(Subtree(u, k)))
    && (SameAt(t0, u, a) ||
        (a in u && exists mirror :: ArchiveIs(l, q, u[a], mirror) && (MirrorMeans(l, valid, t0, q) ==> valid(mirror))))
  }

  /** ... and if it does not: nothing at all. */
  ghost predicate Untouched(l: Layout, t0: Tree, u: Tree, q: string) {
    Prune.MirrorKept(t0, u, l, q) && SameAt(t0, u, ArchivePath(l, q))
  }

  ghost predicate Safe(l: Layout, valid: Tree -> bool, repos: seq<Repo>, t0: Tree, u: Tree, q: string) {
    if Listed(repos, q) then Cared(l, valid, t0, u, q) else Untouched(l, t0, u, q)
  }

  lemma WorkersCare(o: Options, w: World, li: Listing, valid: Tree -> bool, t0: Tree, m: M, i: nat)
    requires ProperRun(o, w, li, valid) && Reachable(ConfigOf(o, w, li.repos), t0, m) && i < |li.repos|
    ensures Cared(o.l, valid, t0, m.tree, li.repos[i].path)
  {
    var s, q := SetupOf(o, w), li.repos[i].path;
    OrderlyIsGrounded(s, li.repos, w.env);
    JobNames(s, li.repos[i], w.env(q));
    KeptThroughout(ConfigOf(o, w, li.repos), i, valid, t0, m);
    ArchiveIsOldOrMade(s, li.repos, w.env, t0, m, i);
    if Made(s, li.repos, w.env, m, i) {
      if MirrorMeans(o.l, valid, t0, q) {
        MadeIsValid(s, li.repos, w.env, valid, t0, m, i);
      }
    }
  }

  lemma WorkersKeep(o: Options, w: World, li: Listing, valid: Tree -> bool, t0: Tree, m: M, q: string)
    requires ProperRun(o, w, li, valid) && Reachable(ConfigOf(o, w, li.repos), t0, m) && Tame(q)
    ensures Safe(o.l, valid, li.repos, t0, m.tree, q)
  {
    if Listed(li.repos, q) {
      var i :| 0 <= i < |li.repos| && li.repos[i].path == q;
      WorkersCare(o, w, li, valid, t0, m, i);
    } else {
      UnlistedKept(SetupOf(o, w), li.repos, w.env, t0, m, q);
    }
  }

  /** A prune that leaves a path alone leaves it as safe as it was. */
  lemma SafeThroughPrune(l: Layout, valid: Tree -> bool, repos: seq<Repo>, t0: Tree, t: Tree, u: Tree, q: string)
    requires Safe(l, valid, repos, t0, t, q) && Untouched(l, t, u, q)
    ensures Safe(l, valid, repos, t0, u, q)
  {
    var k := MirrorPath(l, q);
    SubtreeUnchanged(t, u, k);
    assert SameAt(t, u, k);
    if !Listed(repos, q) {
      forall j | k <= j ensures SameAt(t0, u, j) {
        assert SameAt(t0, t, j) && SameAt(t, u, j);
      }
    }
  }

  lemma SafeAtStart(l: Layout, valid: Tree -> bool, repos: seq<Repo>, t0: Tree, q: string)
    ensures Safe(l, valid, repos, t0, t0, q)
  {
  }

  lemma TreeStays(o: Options, w: World, li: Listing, t0: Tree, m: M)
    requires OrderlyRun(o, w, li) && Reachable(ConfigOf(o, w, li.repos), t0, m) && WellFormed(t0)
    ensures WellFormed(m.tree)
  {
    OrderlyIsGrounded(SetupOf(o, w), li.repos, w.env);
    StaysWellFormed(ConfigOf(o, w, li.repos), t0, m);
  }

  /** Without PruneRemoved a Run loses nothing, at any moment, whichever workers fail and in
      whatever order they run. */
  lemma NothingLostWithoutPrune(o: Options, w: World, valid: Tree -> bool, li: Listing, t0: Tree, u: Tree, q: string)
    requires ListRepos(w, o.state) == Ok(li) && During(o, w, t0, u) && !o.pruneRemoved
    requires ProperRun(o, w, li, valid) && Tame(q)
    ensures Safe(o.l, valid, li.repos, t0, u, q)
  {
    if u == t0 {
      SafeAtStart(o.l, valid, li.repos, t0, q);
    } else {
      var m, n :| AtWork(o, w, li, t0, m, n, u);
      assert StalePaths(t0, o.l, li.canonical)[..0] == [];
      WorkersKeep(o, w, li, valid, t0, m, q);
    }
  }

  /** With or without PruneRemoved, whatever State selected and however removals go, from any
      file tree and at any moment: nothing is lost of a repository the full listing reports. */
  lemma ListedKept(o: Options, w: World, valid: Tree -> bool, li: Listing, all: seq<Repo>, t0: Tree, u: Tree, q: string)
    requires ListRepos(w, o.state) == Ok(li) && w.lists(StateAll) == Ok(all)
    requires During(o, w, t0, u) && WellFormed(t0)
    requires ProperRun(o, w, li, valid) && Listed(all, q)
    requires Tame(q) && Prune.NoArchiveInside(t0, o.l, q)
    ensures Safe(o.l, valid, li.repos, t0, u, q)
  {
    ListingsAreTheForges(w, o.state);
    if u == t0 {
      SafeAtStart(o.l, valid, li.repos, t0, q);
    } else {
      var m, n :| AtWork(o, w, li, t0, m, n, u);
      WorkersKeep(o, w, li, valid, t0, m, q);
      TreeStays(o, w, li, t0, m);
      TameHasNoGitNamespace(q);
      Prune.PruneSparesListed(t0, m.tree, o.l, li.canonical, n, w.removals, q);
      SafeThroughPrune(o.l, valid, li.repos, t0, m.tree, u, q);
    }
  }

  lemma PruneKeepsListed(o: Options, w: World, li: Listing, t0: Tree, t: Tree, q: string)
    requires o.l.Apart() && WellFormed(t0) && WellFormed(t) && Tame(q) && Listed(li.canonical, q)
    requires Prune.NoArchiveInside(t0, o.l, q)
    ensures Untouched(o.l, t, Pruned(o, w, StalePaths(t0, o.l, li.canonical), t).1, q)
  {
    if o.pruneRemoved {
      var stale := StalePaths(t0, o.l, li.canonical);
      TameHasNoGitNamespace(q);
      Prune.PruneSparesListed(t0, t, o.l, li.canonical, |stale|, w.removals, q);
      assert stale[..|stale|] == stale;
    }
  }

  /** At the end of a Run, the archive of `q` is the complete one of `mirror`. */
  ghost predicate ArchivedAs(l: Layout, t: Tree, q: string, mirror: Tree) {
    ArchivePath(l, q) in t && ArchiveIs(l, q, t[ArchivePath(l, q)], mirror)
  }

  lemma EndOfWorker(o: Options, w: World, li: Listing, t0: Tree, m: M, i: nat)
    requires OrderlyRun(o, w, li) && Waited(o, w, li, t0, m) && i < |li.repos| && !li.repos[i].empty
    ensures |m.threads| == |li.repos| && m.threads[i].Exited? && m.threads[i].story.Did?
    ensures StateOf(li.repos[i], m.threads[i]) == m.threads[i].story.w
    ensures ShapeInv(ConfigOf(o, w, li.repos), m)
  {
    OrderlyIsGrounded(SetupOf(o, w), li.repos, w.env);
    ReachableInv(ConfigOf(o, w, li.repos), t0, m);
    assert FitsRepo(li.repos[i], m.threads[i]);
  }

  /** What this Run archived is there when it returns, prune included: the complete archive of
      the very mirror it synced, which is still there if it was not a scratch copy. From any
      file tree, and whatever git did. */
  lemma ArchivedIsKept(o: Options, w: World, li: Listing, all: seq<Repo>, t0: Tree, m: M, res: Result, t1: Tree, i: nat)
    requires ListRepos(w, o.state) == Ok(li) && w.lists(StateAll) == Ok(all)
    requires Waited(o, w, li, t0, m) && Ends(o, w, li, t0, m, res, t1)
    requires WellFormed(t0) && OrderlyRun(o, w, li)
    requires i < |li.repos| && !li.repos[i].empty && Listed(all, li.repos[i].path)
    requires Prune.NoArchiveInside(t0, o.l, li.repos[i].path)
    ensures |m.threads| == |li.repos| && m.threads[i].Exited? && m.threads[i].story.Did?
    ensures var end, job := m.threads[i].story.w, ConfigOf(o, w, li.repos).jobs[i];
            && Source(job, end, t1) == Source(job, end, m.tree)
            && (!job.UsesScratch() ==> Source(job, end, t1) == Subtree(t1, MirrorPath(o.l, li.repos[i].path)))
            && (end.outcome.archived ==> ArchivedAs(o.l, t1, li.repos[i].path, Source(job, end, t1)))
  {
    ListingsAreTheForges(w, o.state);
    EndOfWorker(o, w, li, t0, m, i);
    ArchiveIsOldOrMade(SetupOf(o, w), li.repos, w.env, t0, m, i);
    SourceAtEnd(o, w, li, t0, m, res, t1, i);
  }

  /** The prune in between leaves mirror and archive alone. */
  lemma SourceAtEnd(o: Options, w: World, li: Listing, t0: Tree, m: M, res: Result, t1: Tree, i: nat)
    requires Waited(o, w, li, t0, m) && Ends(o, w, li, t0, m, res, t1)
    requires WellFormed(t0) && OrderlyRun(o, w, li)
    requires i < |li.repos| && Listed(li.canonical, li.repos[i].path) && Prune.NoArchiveInside(t0, o.l, li.repos[i].path)
    ensures SameAt(m.tree, t1, ArchivePath(o.l, li.repos[i].path))
    ensures var job := ConfigOf(o, w, li.repos).jobs[i];
            forall end :: Source(job, end, t1) == Source(job, end, m.tree)
              && (!job.UsesScratch() ==> Source(job, end, t1) == Subtree(t1, MirrorPath(o.l, li.repos[i].path)))
  {
    var q := li.repos[i].path;
    TreeStays(o, w, li, t0, m);
    PruneKeepsListed(o, w, li, t0, m.tree, q);
    JobNames(SetupOf(o, w), li.repos[i], w.env(q));
    SubtreeUnchanged(m.tree, t1, MirrorPath(o.l, q));
  }

  /** A repository this Run synced has a usable mirror when Run returns, and one it archived
      the complete archive of it: pruning in the same run does not undo the work, as long as
      the filtered listing is part of the full one. Only this repository's own HEAD has to
      have meant something before. */
  lemma SyncedIsKept(o: Options, w: World, valid: Tree -> bool, li: Listing, all: seq<Repo>, t0: Tree, m: M, res: Result, t1: Tree, i: nat)
    requires ListRepos(w, o.state) == Ok(li) && w.lists(StateAll) == Ok(all)
    requires Waited(o, w, li, t0, m) && Ends(o, w, li, t0, m, res, t1)
    requires WellFormed(t0) && ProperRun(o, w, li, valid)
    requires i < |li.repos| && !li.repos[i].empty && Listed(all, li.repos[i].path)
    requires Prune.NoArchiveInside(t0, o.l, li.repos[i].path) && MirrorMeans(o.l, valid, t0, li.repos[i].path)
    ensures |m.threads| == |li.repos| && m.threads[i].Exited? && m.threads[i].story.Did?
    ensures var end, job := m.threads[i].story.w, ConfigOf(o, w, li.repos).jobs[i];
            && (end.outcome.synced ==> valid(Source(job, end, t1)))
            && (!job.UsesScratch() ==> Source(job, end, t1) == Subtree(t1, MirrorPath(o.l, li.repos[i].path)))
            && (end.outcome.archived ==> end.outcome.synced && ArchivedAs(o.l, t1, li.repos[i].path, Source(job, end, t1)))
  {
    ListingsAreTheForges(w, o.state);
    var s, q := SetupOf(o, w), li.repos[i].path;
    var cfg := ConfigOf(o, w, li.repos);
    EndOfWorker(o, w, li, t0, m, i);
    ArchivedIsKept(o, w, li, all, t0, m, res, t1, i);
    OrderlyIsGrounded(s, li.repos, w.env);
    JobNames(s, li.repos[i], w.env(q));
    SoundThroughout(cfg, i, valid, t0, m);
    ArchivedWasSynced(cfg, i, t0, m);
  }

  lemma ArchivedWasSynced(cfg: Config, i: nat, t0: Tree, m: M)
    requires Grounded(cfg) && Reachable(cfg, t0, m) && i < |cfg.jobs|
    ensures ShapeInv(cfg, m)
    ensures StateOf(cfg.repos[i], m.threads[i]).outcome.archived ==> StateOf(cfg.repos[i], m.threads[i]).outcome.synced
  {
    WrittenThroughout(cfg, i, t0, m);
  }

  ghost function SessionOf(o: Options, w: World, li: Listing, t0: Tree, acts: seq<Machine.Action>): Histories.Session {
    Histories.Session(SetupOf(o, w), li.repos, w.env, acts,
                      if o.pruneRemoved then StalePaths(t0, o.l, li.canonical) else [], w.removals)
  }

  /** A Run is a session of the histories: one that its workers finished and whose prune dealt
      with the stale paths, each once. */
  lemma RunIsSession(o: Options, w: World, valid: Tree -> bool, li: Listing, t0: Tree, res: Result, t1: Tree)
    returns (acts: seq<Machine.Action>)
    requires ListRepos(w, o.state) == Ok(li) && Run(o, w, t0, Ok(res), t1)
    requires WellFormed(t0) && ProperRun(o, w, li, valid)
    requires forall p :: p in StalePaths(t0, o.l, li.canonical) ==> Prune.TidyRemoval(w.removals.mirror(p))
    ensures Histories.Happens(SessionOf(o, w, li, t0, acts), t0, t1)
    ensures Histories.Fair(o.l, valid, SessionOf(o, w, li, t0, acts))
    ensures Prune.Distinct(SessionOf(o, w, li, t0, acts).gone)
  {
    var m :| Waited(o, w, li, t0, m) && Ends(o, w, li, t0, m, res, t1);
    acts := ScheduleOf(ConfigOf(o, w, li.repos), t0, m);
    RunHappens(o, w, li, t0, m, acts, res, t1);
    StaleIsDistinct(t0, o.l, li.canonical);
  }

  lemma StaleIsDistinct(t0: Tree, l: Layout, repos: seq<Repo>)
    ensures Prune.Distinct(StalePaths(t0, l, repos))
  {
    var stale := StalePaths(t0, l, repos);
    forall i, j | 0 <= i < j < |stale| ensures stale[i] != stale[j] {
      assert Less(stale[i], stale[j]);
      LessTotal(stale[i], stale[j]);
    }
  }

  /** What it prunes spares every listed path that no archive is named inside of. */
  lemma RunSpares(o: Options, w: World, li: Listing, all: seq<Repo>, t0: Tree, acts: seq<Machine.Action>, q: string)
    requires ListRepos(w, o.state) == Ok(li) && w.lists(StateAll) == Ok(all)
    requires WellFormed(t0) && Listed(all, q) && Prune.NoArchiveInside(t0, o.l, q)
    ensures Histories.Spares(o.l, SessionOf(o, w, li, t0, acts).gone, q) && q !in SessionOf(o, w, li, t0, acts).gone
  {
    ListingsAreTheForges(w, o.state);
    forall p | p in SessionOf(o, w, li, t0, acts).gone ensures p != q && !(MirrorPath(o.l, q) < MirrorPath(o.l, p)) {
      Prune.StaleIsOutside(t0, o.l, li.canonical, p, q);
    }
  }

  lemma ScheduleOf(cfg: Config, t0: Tree, m: M) returns (acts: seq<Machine.Action>)
    requires Reachable(cfg, t0, m)
    ensures Leads(cfg, Start(cfg, t0), acts, m)
  {
    acts :| Leads(cfg, Start(cfg, t0), acts, m);
  }

  lemma RunHappens(o: Options, w: World, li: Listing, t0: Tree, m: M, acts: seq<Machine.Action>, res: Result, t1: Tree)
    requires Waited(o, w, li, t0, m) && Ends(o, w, li, t0, m, res, t1)
    requires Leads(ConfigOf(o, w, li.repos), Start(ConfigOf(o, w, li.repos), t0), acts, m)
    ensures Histories.Happens(SessionOf(o, w, li, t0, acts), t0, t1)
  {
    var x := SessionOf(o, w, li, t0, acts);
    assert Histories.Reaches(x, t0, m);
    assert t1 == Prune.PruneAll(m.tree, x.s.l, x.gone, x.removals).1;
  }

  /* ---- what is left after a prune ---- */

  /** A mirror key is never a mere parent directory of a tame path. */
  lemma MirrorNotAbove(l: Layout, q: string, p: string)
    requires l.Apart() && Tame(q)
    ensures !IsAbove(l, q, MirrorPath(l, p))
  {
    if IsAbove(l, q, MirrorPath(l, p)) {
      var slot :| MirrorPath(l, p) < SlotKey(l, q, slot);
      SlotsApart(l, p, Slot.Mirror, q, slot);
      assert false;
    }
  }

  /** Between the listed repositories' regions the workers only add parent directories. */
  lemma OutsideRegions(s: Setup, repos: seq<Repo>, env: string -> Env, t0: Tree, m: M, k: Key)
    requires s.l.Apart() && Listable(repos) && Reachable(ConfigFor(s, repos, env), t0, m)
    requires forall i :: 0 <= i < |repos| ==> !InRegion(s.l, repos[i].path, k)
    ensures SameAt(t0, m.tree, k) || (NewDir(t0, m.tree, k) && exists i :: 0 <= i < |repos| && IsAbove(s.l, repos[i].path, k))
  {
    var cfg := ConfigFor(s, repos, env);
    ListableIsIndependent(s, repos, env);
    assert Pool.CommonGround(cfg.jobs, InitialStates(repos), t0, States(cfg, m), m.tree) by { ReachableInv(cfg, t0, m); }
    forall i | 0 <= i < |cfg.jobs|
      ensures !Owns(cfg.jobs[i], k) && (Above(cfg.jobs[i], k) ==> IsAbove(s.l, repos[i].path, k))
    {
      RegionsAreOwned(s, repos[i], env(repos[i].path), k);
    }
    assert !Pool.Owned(cfg.jobs, k);
  }

  /** The mirror of `p` would lie in the `.partial` or metadata directory of `q`. */
  ghost predicate Within(l: Layout, q: string, p: string) {
    SlotKey(l, q, Partial) < MirrorPath(l, p) || SlotKey(l, q, Metadata) < MirrorPath(l, p)
  }

  /** The only unlisted mirrors the workers put on disk lie in a listed repository's `.partial`
      or metadata directory. */
  lemma NewMirrorIsListedOrWithin(s: Setup, repos: seq<Repo>, env: string -> Env, t0: Tree, m: M, p: string)
    requires s.l.Apart() && Listable(repos) && Reachable(ConfigFor(s, repos, env), t0, m)
    requires WellFormed(t0) && WellFormed(m.tree) && OnDiskMirror(m.tree, s.l, p)
    ensures || OnDiskMirror(t0, s.l, p) || Listed(repos, p)
            || exists i :: 0 <= i < |repos| && Within(s.l, repos[i].path, p)
  {
    var k := MirrorPath(s.l, p);
    OnDiskMirrorIff(m.tree, s.l, p);
    OnDiskMirrorIff(t0, s.l, p);
    if i :| 0 <= i < |repos| && InRegion(s.l, repos[i].path, k) {
      InRegionIsWithin(s.l, repos[i].path, p);
    } else {
      forall i | 0 <= i < |repos| ensures !IsAbove(s.l, repos[i].path, k) {
        MirrorNotAbove(s.l, repos[i].path, p);
      }
      OutsideRegions(s, repos, env, t0, m, k);
    }
  }

  lemma InRegionIsWithin(l: Layout, q: string, p: string)
    requires l.Apart() && NoGitNamespace(p) && InRegion(l, q, MirrorPath(l, p))
    ensures p == q || Within(l, q, p)
  {
    var slot :| SlotKey(l, q, slot) <= MirrorPath(l, p);
    MirrorInRegion(l, q, slot, p);
  }

  /** A mirror name inside a repository's region is that repository's own mirror, or lies
      within a `.partial` or metadata directory. */
  lemma MirrorInRegion(l: Layout, q: string, slot: Slot, p: string)
    requires l.Apart() && NoGitNamespace(p) && SlotKey(l, q, slot) <= MirrorPath(l, p)
    ensures (slot.Mirror? && p == q) || ((slot.Partial? || slot.Metadata?) && SlotKey(l, q, slot) != MirrorPath(l, p))
  {
    RootsApart(l, MirrorPath(l, p));
    if slot.Mirror? {
      Prune.NestedIsSame(l, q, p);
    } else if slot.Partial? || slot.Metadata? {
      LeftoverDiffers(l.dest, q, slot, p, Slot.Mirror);
    }
  }

  /** The workers put no archive on disk that is not listed. */
  lemma NewArchiveIsListed(s: Setup, repos: seq<Repo>, env: string -> Env, t0: Tree, m: M, p: string)
    requires Orderly(s, repos, env) && Reachable(ConfigFor(s, repos, env), t0, m) && OnDiskArchive(m.tree, s.l, p)
    ensures OnDiskArchive(t0, s.l, p) || Listed(repos, p)
  {
    var k := ArchivePath(s.l, p);
    OnDiskArchiveIff(m.tree, s.l, p);
    OnDiskArchiveIff(t0, s.l, p);
    if i :| 0 <= i < |repos| && InRegion(s.l, repos[i].path, k) {
      ArchiveInRegion(s, repos, env, t0, m, i, p);
    } else {
      OutsideRegions(s, repos, env, t0, m, k);
    }
  }

  lemma NothingNewBelow(s: Setup, repos: seq<Repo>, env: string -> Env, t0: Tree, m: M, i: nat)
    requires Orderly(s, repos, env) && Reachable(ConfigFor(s, repos, env), t0, m) && i < |repos|
    ensures Provenance.Shrunk(t0, m.tree, SlotKey(s.l, repos[i].path, Slot.Archive))
    ensures Provenance.Shrunk(t0, m.tree, SlotKey(s.l, repos[i].path, Temp))
  {
    OrderlyIsGrounded(s, repos, env);
    BeneathThroughout(ConfigFor(s, repos, env), i, t0, m);
    TempIsExtended(s.l, repos[i].path);
  }

  lemma ArchiveInRegion(s: Setup, repos: seq<Repo>, env: string -> Env, t0: Tree, m: M, i: nat, p: string)
    requires Orderly(s, repos, env) && Reachable(ConfigFor(s, repos, env), t0, m) && i < |repos|
    requires InRegion(s.l, repos[i].path, ArchivePath(s.l, p)) && ArchivePath(s.l, p) in m.tree
    ensures repos[i].path == p || SameAt(t0, m.tree, ArchivePath(s.l, p))
  {
    NothingNewBelow(s, repos, env, t0, m, i);
    ShrunkInRegion(s.l, repos[i].path, t0, m.tree, p);
  }

  lemma ShrunkInRegion(l: Layout, q: string, t0: Tree, t: Tree, p: string)
    requires l.Apart() && InRegion(l, q, ArchivePath(l, p)) && ArchivePath(l, p) in t
    requires Provenance.Shrunk(t0, t, SlotKey(l, q, Slot.Archive)) && Provenance.Shrunk(t0, t, SlotKey(l, q, Temp))
    ensures q == p || SameAt(t0, t, ArchivePath(l, p))
  {
    var k := ArchivePath(l, p);
    var slot :| SlotKey(l, q, slot) <= k;
    RootsApart(l, k);
    if SlotKey(l, q, slot) == k {
      if slot.Temp? {
        LeftoversAreNotReported(l, q, p);
      } else {
        SlotKeyInjective(l, q, p, Slot.Archive);
      }
    } else {
      assert slot.Archive? || slot.Temp?;
      assert SlotKey(l, q, slot) < k;
    }
  }

  /* ---- when nothing is stale afterwards ---- */

  /** The tree repository `i` leaves when it is worked on alone, from `t0`. */
  ghost function AloneTree(cfg: Config, t0: Tree, i: nat): Tree
    requires cfg.Valid() && i < |cfg.repos|
  {
    if cfg.repos[i].empty then t0 else Finish(cfg.jobs[i], FRESH, t0).1
  }

  /** A repository's files at the end of a run are those it leaves when worked on alone. */
  lemma EndsAsAlone(cfg: Config, t0: Tree, m: M, i: nat)
    requires Pool.Independent(cfg.jobs) && Reachable(cfg, t0, m) && Finished(m) && i < |cfg.repos|
    ensures Agree(cfg.jobs[i], m.tree, AloneTree(cfg, t0, i))
  {
    ReachableInv(cfg, t0, m);
    StoriesAreTold(cfg, m);
    var ws, ws0 := States(cfg, m), InitialStates(cfg.repos);
    assert Pool.End(cfg.jobs, ws, m.tree, i) == (ws[i], m.tree);
    assert Agree(cfg.jobs[i], Pool.End(cfg.jobs, ws, m.tree, i).1, Pool.End(cfg.jobs, ws0, t0, i).1);
  }

  /** Told from the tree and the answers before the run: whatever a repository leaves in its
      `.partial` or metadata directory that the scan takes for an unlisted mirror was stale
      already. */
  ghost predicate BringsNoMirror(cfg: Config, l: Layout, canonical: seq<Repo>, t0: Tree)
    requires cfg.Valid()
  {
    forall i, p :: 0 <= i < |cfg.repos| && Within(l, cfg.repos[i].path, p) ==>
      NoGitNamespace(p) && !Listed(canonical, p) && IsDir(AloneTree(cfg, t0, i), MirrorPath(l, p)) ==> Stale(t0, l, canonical, p)
  }

  lemma WithinIsOwned(s: Setup, repo: Repo, e: Env, p: string)
    requires Within(s.l, repo.path, p)
    ensures Owns(JobFor(s, repo, e), MirrorPath(s.l, p))
  {
    RegionsAreOwned(s, repo, e, MirrorPath(s.l, p));
    if SlotKey(s.l, repo.path, Partial) < MirrorPath(s.l, p) {
      assert SlotKey(s.l, repo.path, Partial) <= MirrorPath(s.l, p);
    } else {
      assert SlotKey(s.l, repo.path, Metadata) <= MirrorPath(s.l, p);
    }
  }

  lemma WithinAsAlone(o: Options, w: World, li: Listing, t0: Tree, m: M, i: nat, p: string)
    requires OrderlyRun(o, w, li) && Waited(o, w, li, t0, m) && i < |li.repos| && Within(o.l, li.repos[i].path, p)
    ensures IsDir(m.tree, MirrorPath(o.l, p)) <==> IsDir(AloneTree(ConfigOf(o, w, li.repos), t0, i), MirrorPath(o.l, p))
  {
    var cfg := ConfigOf(o, w, li.repos);
    OrderlyIsGrounded(SetupOf(o, w), li.repos, w.env);
    EndsAsAlone(cfg, t0, m, i);
    WithinIsOwned(SetupOf(o, w), li.repos[i], w.env(li.repos[i].path), p);
    assert SameAt(m.tree, AloneTree(cfg, t0, i), MirrorPath(o.l, p));
  }

  /** The workers make something stale exactly if one of them brings in such a directory. */
  lemma NothingNewIff(o: Options, w: World, li: Listing, t0: Tree, m: M)
    requires OrderlyRun(o, w, li) && Waited(o, w, li, t0, m) && WellFormed(t0)
    requires forall q :: Listed(li.repos, q) ==> Listed(li.canonical, q)
    ensures (forall p :: Stale(m.tree, o.l, li.canonical, p) ==> Stale(t0, o.l, li.canonical, p)) <==>
              BringsNoMirror(ConfigOf(o, w, li.repos), o.l, li.canonical, t0)
  {
    TreeStays(o, w, li, t0, m);
    if BringsNoMirror(ConfigOf(o, w, li.repos), o.l, li.canonical, t0) {
      forall p | Stale(m.tree, o.l, li.canonical, p) ensures Stale(t0, o.l, li.canonical, p) {
        NewlyStaleIsWithin(o, w, li, t0, m, p);
      }
    }
    if forall p :: Stale(m.tree, o.l, li.canonical, p) ==> Stale(t0, o.l, li.canonical, p) {
      forall i, p | 0 <= i < |li.repos| && Within(o.l, li.repos[i].path, p) && NoGitNamespace(p) && !Listed(li.canonical, p)
                    && IsDir(AloneTree(ConfigOf(o, w, li.repos), t0, i), MirrorPath(o.l, p))
        ensures Stale(t0, o.l, li.canonical, p)
      {
        WithinAsAlone(o, w, li, t0, m, i, p);
        OnDiskMirrorIff(m.tree, o.l, p);
        assert Stale(m.tree, o.l, li.canonical, p);
      }
    }
  }

  lemma NewlyStaleIsWithin(o: Options, w: World, li: Listing, t0: Tree, m: M, p: string)
    requires OrderlyRun(o, w, li) && Waited(o, w, li, t0, m) && WellFormed(t0) && WellFormed(m.tree)
    requires forall q :: Listed(li.repos, q) ==> Listed(li.canonical, q)
    requires BringsNoMirror(ConfigOf(o, w, li.repos), o.l, li.canonical, t0) && Stale(m.tree, o.l, li.canonical, p)
    ensures Stale(t0, o.l, li.canonical, p)
  {
    if OnDiskArchive(m.tree, o.l, p) {
      NewArchiveIsListed(SetupOf(o, w), li.repos, w.env, t0, m, p);
    } else {
      NewMirrorIsListedOrWithin(SetupOf(o, w), li.repos, w.env, t0, m, p);
      OnDiskMirrorIff(m.tree, o.l, p);
      if i :| 0 <= i < |li.repos| && Within(o.l, li.repos[i].path, p) {
        WithinAsAlone(o, w, li, t0, m, i, p);
      }
    }
  }

  /** After a Run in which no removal failed, scanning the resulting tree against the same full
      listing finds nothing stale exactly if no repository brings in a directory that the scan
      takes for an unlisted mirror. From any file tree, and whatever git did. */
  lemma NothingStaleAfterRun(o: Options, w: World, li: Listing, all: seq<Repo>, t0: Tree, m: M, res: Result, t1: Tree)
    requires ListRepos(w, o.state) == Ok(li) && w.lists(StateAll) == Ok(all)
    requires Waited(o, w, li, t0, m) && Ends(o, w, li, t0, m, res, t1)
    requires o.pruneRemoved && Prune.NoneFail(StalePaths(t0, o.l, all), w.removals)
    requires WellFormed(t0) && OrderlyRun(o, w, li)
    requires forall q :: Listed(li.repos, q) ==> Listed(all, q)
    ensures StaleSet(t1, o.l, all) == {} <==> BringsNoMirror(ConfigOf(o, w, li.repos), o.l, all, t0)
    ensures res.pruned == |StalePaths(t0, o.l, all)|
  {
    ListingsAreTheForges(w, o.state);
    TreeStays(o, w, li, t0, m);
    NothingNewIff(o, w, li, t0, m);
    Prune.NothingStaleIff(t0, m.tree, o.l, li.canonical, w.removals);
    StaleIsDistinct(t0, o.l, li.canonical);
    Prune.PruneCounts(m.tree, o.l, StalePaths(t0, o.l, li.canonical), w.removals);
  }

  /** Such a directory is there, and stale, when the Run returns. */
  lemma BroughtIsStale(o: Options, w: World, li: Listing, all: seq<Repo>, t0: Tree, m: M, res: Result, t1: Tree, i: nat, p: string)
    requires ListRepos(w, o.state) == Ok(li) && w.lists(StateAll) == Ok(all)
    requires Waited(o, w, li, t0, m) && Ends(o, w, li, t0, m, res, t1)
    requires o.pruneRemoved && Prune.NoneFail(StalePaths(t0, o.l, all), w.removals)
    requires WellFormed(t0) && OrderlyRun(o, w, li) && i < |li.repos| && Within(o.l, li.repos[i].path, p)
    requires NoGitNamespace(p) && !Listed(all, p) && !Stale(t0, o.l, all, p)
    requires IsDir(AloneTree(ConfigOf(o, w, li.repos), t0, i), MirrorPath(o.l, p))
    ensures WellFormed(t1) && IsDir(t1, MirrorPath(o.l, p)) && Stale(t1, o.l, all, p)
  {
    ListingsAreTheForges(w, o.state);
    var stale := StalePaths(t0, o.l, li.canonical);
    TreeStays(o, w, li, t0, m);
    WithinAsAlone(o, w, li, t0, m, i, p);
    StaleSetIff(t0, o.l, li.canonical, p);
    Prune.OuterMirrorStays(m.tree, o.l, stale, w.removals, p);
    Prune.PruneWellFormed(m.tree, o.l, stale, w.removals);
    OnDiskMirrorIff(t1, o.l, p);
  }

  /** What a later pruning Run finds stale it removes, though it lie in a listed repository's
      metadata and though the run has just exported it anew. */
  lemma StaleIsGone(o: Options, w: World, li: Listing, all: seq<Repo>, t0: Tree, m: M, res: Result, t1: Tree, p: string)
    requires ListRepos(w, o.state) == Ok(li) && w.lists(StateAll) == Ok(all)
    requires Waited(o, w, li, t0, m) && Ends(o, w, li, t0, m, res, t1)
    requires o.pruneRemoved && WellFormed(t0) && Stale(t0, o.l, all, p) && w.removals.mirror(p).Removed?
    ensures forall k :: MirrorPath(o.l, p) <= k ==> k !in t1
  {
    ListingsAreTheForges(w, o.state);
    StaleSetIff(t0, o.l, li.canonical, p);
    forall k | MirrorPath(o.l, p) <= k ensures k !in t1 {
      Prune.PruneReachesMirror(m.tree, o.l, StalePaths(t0, o.l, li.canonical), w.removals, p, k);
    }
  }

  /* ---- a condition on clones and exports alone ---- */

  ghost predicate QuietRun(s: Setup, repos: seq<Repo>, env: string -> Env, t0: Tree) {
    forall i :: 0 <= i < |repos| ==>
      QuietEnv(JobFor(s, repos[i], env(repos[i].path))) && QuietRoots(JobFor(s, repos[i], env(repos[i].path)), t0)
  }

  lemma StrayMirror(j: Job, slot: Slot, t: Tree, k: Key)
    requires QuietRoots(j, t) && (slot.Partial? || slot.Metadata?)
    requires Root(j, slot) < k && IsDir(t, k)
    ensures !GitNamed(Last(k))
  {
    var rel := k[|Root(j, slot)|..];
    assert Root(j, slot) + rel == k;
    assert rel in Subtree(t, Root(j, slot));
    assert Last(rel) == Last(k);
  }

  lemma MirrorNameIsGitNamed(l: Layout, p: string)
    ensures GitNamed(Last(MirrorPath(l, p)))
  {
    SplitSuffix(p, ".git");
    assert Last(MirrorPath(l, p)) == Last(Split(p)) + ".git";
  }

  lemma QuietWithin(s: Setup, repo: Repo, e: Env, t: Tree, p: string)
    requires QuietRoots(JobFor(s, repo, e), t) && Within(s.l, repo.path, p)
    ensures !IsDir(t, MirrorPath(s.l, p))
  {
    RootsAreSlots(s, repo, e);
    MirrorNameIsGitNamed(s.l, p);
    if IsDir(t, MirrorPath(s.l, p)) {
      StrayMirror(JobFor(s, repo, e), if SlotKey(s.l, repo.path, Partial) < MirrorPath(s.l, p) then Partial else Metadata,
                  t, MirrorPath(s.l, p));
    }
  }

  /** In particular nothing is stale if no clone and no export brings in a directory whose name
      ends in ".git", and none is there to begin with. */
  lemma QuietRunBringsNoMirror(o: Options, w: World, li: Listing, t0: Tree, m: M)
    requires OrderlyRun(o, w, li) && Waited(o, w, li, t0, m)
    requires QuietRun(SetupOf(o, w), li.repos, w.env, t0)
    ensures BringsNoMirror(ConfigOf(o, w, li.repos), o.l, li.canonical, t0)
  {
    var cfg := ConfigOf(o, w, li.repos);
    OrderlyIsGrounded(SetupOf(o, w), li.repos, w.env);
    forall i, p | 0 <= i < |li.repos| && Within(o.l, li.repos[i].path, p) ensures !IsDir(AloneTree(cfg, t0, i), MirrorPath(o.l, p)) {
      QuietThroughout(cfg, i, t0, m);
      QuietWithin(SetupOf(o, w), li.repos[i], w.env(li.repos[i].path), m.tree, p);
      WithinAsAlone(o, w, li, t0, m, i, p);
    }
  }

  /* ---- the numbers ---- */

  /** How many exporters a Run uses on each repository it synced. */
  function SelectedExporters(o: Options, w: World, from: nat): nat
    decreases |w.exporters| - from
  {
    if from >= |w.exporters| then 0
    else (if w.exporters[from] in o.kinds then 1 else 0) + SelectedExporters(o, w, from + 1)
  }

  lemma {:induction false} SelectedIsSelected(o: Options, w: World, repo: Repo, from: nat)
    ensures SelectedCount(JobFor(SetupOf(o, w), repo, w.env(repo.path)), from) == SelectedExporters(o, w, from)
    decreases |w.exporters| - from
  {
    if from < |w.exporters| {
      SelectedIsSelected(o, w, repo, from + 1);
    }
  }

  /** The figures of any successful Run: every listed repository is accounted for, failures
      included; archives and metadata come from synced repositories only. */
  lemma ResultAddsUp(o: Options, w: World, li: Listing, all: seq<Repo>, t0: Tree, m: M, res: Result, t1: Tree) returns (lost: nat)
    requires ListRepos(w, o.state) == Ok(li) && w.lists(StateAll) == Ok(all)
    requires Waited(o, w, li, t0, m) && Ends(o, w, li, t0, m, res, t1)
    requires o.l.Apart() && Listable(li.repos)
    ensures lost == NeverSynced(li.repos, AloneStates(ConfigOf(o, w, li.repos), t0), |li.repos|)
    ensures res.synced + res.skipped + lost == |li.repos| && lost <= res.failed
    ensures |li.repos| <= res.synced + res.skipped + res.failed
    ensures res.archived <= res.synced
    ensures res.exported <= res.synced * SelectedExporters(o, w, 0)
    ensures res.pruned == if o.pruneRemoved then |Prune.Removed(StalePaths(t0, o.l, all), w.removals)| else 0
  {
    ListingsAreTheForges(w, o.state);
    var cfg := ConfigOf(o, w, li.repos);
    ListableIsIndependent(SetupOf(o, w), li.repos, w.env);
    forall i | 0 <= i < |cfg.jobs| ensures SelectedCount(cfg.jobs[i], 0) == SelectedExporters(o, w, 0) {
      SelectedIsSelected(o, w, li.repos[i], 0);
    }
    CountsAddUp(cfg, t0, m, SelectedExporters(o, w, 0));
    lost := NeverSynced(cfg.repos, AloneStates(cfg, t0), |cfg.repos|);
    StaleIsDistinct(t0, o.l, li.canonical);
    Prune.PruneCounts(m.tree, o.l, StalePaths(t0, o.l, li.canonical), w.removals);
  }
}
