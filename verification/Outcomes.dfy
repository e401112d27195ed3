/** What a run does for each repository and what it reports, exactly: told from the options, the
    listing, and the tree and the answers there were before it, whatever the interleaving. */
module Outcomes {
  import opened Names
  import opened Trees
  import opened Worker
  import opened Locality
  import opened Soundness
  import opened Machine
  import opened Runs
  import opened Jobs
  import opened Scan
  import opened Backup
  import opened Endings
  import Archive
  import Mirror
  import Pool
  import Prune
  import Safety

  /* ---- one work order ---- */

  /** Whether the selection takes a repository, by what its name says. */
  predicate Chosen(sel: Selection, archived: bool) {
    sel == ArchiveAll || (sel == ArchiveActive && !archived) || (sel == ArchiveArchived && archived)
  }

  /** An archived repository that gets archived has no mirror in the destination tree. */
  predicate OnlyArchived(sel: Selection, archived: bool) {
    archived && (sel == ArchiveAll || sel == ArchiveArchived)
  }

  /** The exporters a run uses: those it has and was asked for. */
  function Used(s: Setup): set<nat> {
    set i: nat | i < |s.exporters| && s.exporters[i] in s.kinds
  }

  /** The work order, by the options and the repository's own flags. */
  lemma WorkOrder(s: Setup, repo: Repo, env: Env)
    ensures var j := JobFor(s, repo, env);
            && (j.wantsArchive <==> Chosen(s.archive, repo.archived))
            && (j.UsesScratch() <==> OnlyArchived(s.archive, repo.archived))
            && |j.exporters| == |s.exporters|
            && (forall i: nat :: j.Selected(i) <==> i in Used(s))
            && (forall i :: 0 <= i < |s.exporters| ==> j.ExportDir(i) == MetadataDir(s.l, repo.path) + [s.exporters[i].DirName()])
            && j.place.dir == MirrorPath(s.l, repo.path) && j.out == ArchivePath(s.l, repo.path)
            && (forall m :: j.pack(m) == Archive.Pack(Last(MirrorPath(s.l, repo.path)), m))
  {
  }

  lemma AllDelivering(j: Job, s: Setup, t: Tree)
    requires |j.exporters| == |s.exporters| && (forall i: nat :: j.Selected(i) <==> i in Used(s)) && !SomeExportFails(j, t, 0)
    ensures Delivering(j, t, 0) == Used(s)
  {
    forall i: nat ensures i in Delivering(j, t, 0) <==> i in Used(s) {
      if i in Used(s) {
        assert j.Selected(i);
      }
    }
  }

  /** What a repository's worker does, by the options. It archives only what the selection takes,
      and if it reports no failure it has mirrored, archived exactly what the selection takes, and
      run every exporter asked for. What is not taken has no archive made, replaced or removed;
      what is only archived has its mirror in the destination left as it was, everything else its
      new one there; an exporter not asked for leaves its directory as it was. */
  lemma WorkerByOptions(s: Setup, repo: Repo, env: Env, t: Tree)
    requires s.l.Apart() && Tame(repo.path) && KindsDiffer(s.exporters)
    ensures var (end, u) := Finish(JobFor(s, repo, env), FRESH, t);
            var o, q := end.outcome, repo.path;
            && (o.archived ==> Chosen(s.archive, repo.archived))
            && (!o.failed ==> o.synced && (o.archived <==> Chosen(s.archive, repo.archived)) && o.exported == |Used(s)|)
            && (!Chosen(s.archive, repo.archived) ==> RootKept(t, u, ArchivePath(s.l, q)))
            && (if OnlyArchived(s.archive, repo.archived) then RootKept(t, u, MirrorPath(s.l, q))
                else o.synced ==> Subtree(u, MirrorPath(s.l, q)) == Mirror.Synced(env.remote, Mirror.PlaceAt(MirrorPath(s.l, q)), t))
            && (forall i :: 0 <= i < |s.exporters| && s.exporters[i] !in s.kinds ==>
                  forall k :: MetadataDir(s.l, q) + [s.exporters[i].DirName()] <= k ==> SameAt(t, u, k))
  {
    var j := JobFor(s, repo, env);
    WorkOrder(s, repo, env);
    JobIsPlaced(s, repo, env);
    EndsExactly(j, t);
    if !SomeExportFails(j, t, 0) {
      AllDelivering(j, s, t);
    }
    forall i | 0 <= i < |s.exporters| && s.exporters[i] !in s.kinds
      ensures forall k :: j.ExportDir(i) <= k ==> SameAt(t, Finish(j, FRESH, t).1, k)
    {
      assert !j.Selected(i);
    }
  }

  lemma JobIsPlaced(s: Setup, repo: Repo, env: Env)
    requires s.l.Apart() && Tame(repo.path)
    ensures Placed(JobFor(s, repo, env))
  {
    TameIsSeparate(s, repo, env);
    var dir := MirrorPath(s.l, repo.path);
    Mirror.PartialIsBeside(dir);
    Mirror.PartialIsBeside([Last(dir)]);
  }

  /* ---- one repository in a run ---- */

  lemma RootAgrees(j: Job, t: Tree, u: Tree, v: Tree, slot: Slot, k: Key)
    requires Agree(j, v, u) && Root(j, slot) <= k
    ensures SameAt(u, v, k) && (SameAt(t, u, k) <==> SameAt(t, v, k))
  {
    assert Owns(j, k);
    assert SameAt(v, u, k);
  }

  lemma SubtreeAgrees(j: Job, t: Tree, u: Tree, v: Tree, slot: Slot, k: Key)
    requires Agree(j, v, u) && Root(j, slot) <= k
    ensures Subtree(u, k) == Subtree(v, k) && (RootKept(t, u, k) <==> RootKept(t, v, k))
  {
    forall key | k <= key ensures SameAt(u, v, key) && (SameAt(t, u, key) <==> SameAt(t, v, key)) {
      RootAgrees(j, t, u, v, slot, key);
    }
    SubtreeUnchanged(u, v, k);
  }

  lemma MirrorAgrees(j: Job, t: Tree, o: Outcome, u: Tree, v: Tree)
    requires LeavesMirror(j, t, o, u) && Agree(j, v, u)
    ensures LeavesMirror(j, t, o, v)
  {
    assert j.place.dir == Root(j, Slot.Mirror) && j.place.partial == Root(j, Partial);
    SubtreeAgrees(j, t, u, v, Slot.Mirror, j.place.dir);
    SubtreeAgrees(j, t, u, v, Partial, j.place.partial);
  }

  lemma ArchiveAgrees(j: Job, t: Tree, o: Outcome, u: Tree, v: Tree)
    requires LeavesArchive(j, t, o, u) && Agree(j, v, u)
    ensures LeavesArchive(j, t, o, v)
  {
    assert j.out == Root(j, Slot.Archive) && j.tmp == Root(j, Temp);
    SubtreeAgrees(j, t, u, v, Slot.Archive, j.out);
    SubtreeAgrees(j, t, u, v, Temp, j.tmp);
    RootAgrees(j, t, u, v, Slot.Archive, j.out);
  }

  lemma ExportsAgree(j: Job, t: Tree, o: Outcome, u: Tree, v: Tree)
    requires LeavesExports(j, t, o, u) && Agree(j, v, u)
    ensures LeavesExports(j, t, o, v)
  {
    forall i | 0 <= i < |j.exporters| ensures if o.synced then ExportedAt(j, t, v, i) else RootKept(t, v, j.ExportDir(i)) {
      ExportAgrees(j, t, o, u, v, i);
    }
  }

  /** What a worker leaves is told from its own files alone. */
  lemma LeavesAgrees(j: Job, t: Tree, o: Outcome, u: Tree, v: Tree)
    requires Leaves(j, t, o, u) && Agree(j, v, u)
    ensures Leaves(j, t, o, v)
  {
    MirrorAgrees(j, t, o, u, v);
    ExportsAgree(j, t, o, u, v);
    ArchiveAgrees(j, t, o, u, v);
  }

  lemma ExportAgrees(j: Job, t: Tree, o: Outcome, u: Tree, v: Tree, i: nat)
    requires i < |j.exporters| && Agree(j, v, u)
    requires if o.synced then ExportedAt(j, t, u, i) else RootKept(t, u, j.ExportDir(i))
    ensures if o.synced then ExportedAt(j, t, v, i) else RootKept(t, v, j.ExportDir(i))
  {
    assert Root(j, Metadata) <= j.ExportDir(i);
    SubtreeAgrees(j, t, u, v, Metadata, j.ExportDir(i));
    forall key | j.ExportDir(i) <= key ensures SameAt(t, u, key) <==> SameAt(t, v, key) {
      RootAgrees(j, t, u, v, Metadata, key);
    }
  }

  /** In a run, whatever the interleaving and whatever becomes of the others, each repository
      ends as its own answers say, and its files are left so when the workers are done. */
  lemma EachEndsExactly(o: Options, w: World, li: Listing, t0: Tree, m: M, i: nat)
    requires Waited(o, w, li, t0, m) && OrderlyRun(o, w, li) && KindsDiffer(w.exporters)
    requires i < |li.repos| && !li.repos[i].empty
    ensures |m.threads| == |li.repos| && m.threads[i].Exited? && m.threads[i].story.Did?
    ensures var j, end := ConfigOf(o, w, li.repos).jobs[i], m.threads[i].story.w.outcome;
            EndsAs(j, t0, end) && Leaves(j, t0, end, m.tree)
  {
    var cfg := ConfigOf(o, w, li.repos);
    var j := cfg.jobs[i];
    JobIsPlaced(SetupOf(o, w), li.repos[i], w.env(li.repos[i].path));
    ListableIsIndependent(SetupOf(o, w), li.repos, w.env);
    StoryAsAlone(cfg, t0, m, i);
    EndsExactly(j, t0);
    EndsAsAlone(cfg, t0, m, i);
    LeavesAgrees(j, t0, Finish(j, FRESH, t0).0.outcome, AloneTree(cfg, t0, i), m.tree);
  }

  lemma StoryAsAlone(cfg: Config, t0: Tree, m: M, i: nat)
    requires Pool.Independent(cfg.jobs) && Reachable(cfg, t0, m) && Finished(m) && i < |cfg.repos| && !cfg.repos[i].empty
    ensures |m.threads| == |cfg.repos| && m.threads[i].Exited? && m.threads[i].story.Did?
    ensures m.threads[i].story.w == Finish(cfg.jobs[i], FRESH, t0).0
  {
    ReachableInv(cfg, t0, m);
    InterleavingsAgree(cfg, t0, m);
    assert FitsRepo(cfg.repos[i], m.threads[i]);
    assert StateOf(cfg.repos[i], m.threads[i]) == States(cfg, m)[i] == AloneStates(cfg, t0)[i];
  }

  /** ... and when Run returns, prune included, as far as mirror and archive go. */
  lemma RunDelivers(o: Options, w: World, li: Listing, all: seq<Repo>, t0: Tree, m: M, res: Result, t1: Tree, i: nat)
    requires ListRepos(w, o.state) == Ok(li) && w.lists(StateAll) == Ok(all)
    requires Waited(o, w, li, t0, m) && Ends(o, w, li, t0, m, res, t1)
    requires WellFormed(t0) && OrderlyRun(o, w, li) && KindsDiffer(w.exporters)
    requires i < |li.repos| && !li.repos[i].empty && Listed(all, li.repos[i].path)
    requires Prune.NoArchiveInside(t0, o.l, li.repos[i].path)
    ensures |m.threads| == |li.repos| && m.threads[i].Exited? && m.threads[i].story.Did?
    ensures var repo, end := li.repos[i], m.threads[i].story.w.outcome;
            var dir, out := MirrorPath(o.l, repo.path), ArchivePath(o.l, repo.path);
            var j := ConfigOf(o, w, li.repos).jobs[i];
            && EndsAs(j, t0, end)
            && (!end.failed ==> end.synced && (end.archived <==> Chosen(o.archive, repo.archived)))
            && (if OnlyArchived(o.archive, repo.archived) then RootKept(t0, t1, dir)
                else end.synced ==> Subtree(t1, dir) == MirrorOf(j, t0))
            && (if end.archived then Chosen(o.archive, repo.archived) && ArchivedAs(o.l, t1, repo.path, MirrorOf(j, t0))
                else SameAt(t0, t1, out))
  {
    var repo, j := li.repos[i], ConfigOf(o, w, li.repos).jobs[i];
    ListingsAreTheForges(w, o.state);
    EachEndsExactly(o, w, li, t0, m, i);
    WorkOrder(SetupOf(o, w), repo, w.env(repo.path));
    TreeStays(o, w, li, t0, m);
    PruneKeepsListed(o, w, li, t0, m.tree, repo.path);
    SubtreeUnchanged(m.tree, t1, MirrorPath(o.l, repo.path));
    MirrorThroughPrune(o.l, t0, m.tree, t1, repo.path);
    ArchiveIsWhole(o, w, li, t0, m, i);
  }

  lemma MirrorThroughPrune(l: Layout, t0: Tree, t: Tree, t1: Tree, q: string)
    requires Untouched(l, t, t1, q)
    ensures RootKept(t0, t, MirrorPath(l, q)) ==> RootKept(t0, t1, MirrorPath(l, q))
    ensures SameAt(t0, t, ArchivePath(l, q)) ==> SameAt(t0, t1, ArchivePath(l, q))
  {
    if RootKept(t0, t, MirrorPath(l, q)) {
      forall k | MirrorPath(l, q) <= k ensures SameAt(t0, t1, k) {
        assert SameAt(t0, t, k) && SameAt(t, t1, k);
      }
      SubtreeUnchanged(t0, t1, MirrorPath(l, q));
    }
  }

  lemma ArchiveIsWhole(o: Options, w: World, li: Listing, t0: Tree, m: M, i: nat)
    requires OrderlyRun(o, w, li) && i < |li.repos|
    requires |m.threads| == |li.repos| && m.threads[i].Exited? && m.threads[i].story.Did?
    requires var j, end := ConfigOf(o, w, li.repos).jobs[i], m.threads[i].story.w.outcome;
             EndsAs(j, t0, end) && LeavesArchive(j, t0, end, m.tree)
    ensures m.threads[i].story.w.outcome.archived ==>
              ArchivedAs(o.l, m.tree, li.repos[i].path, MirrorOf(ConfigOf(o, w, li.repos).jobs[i], t0))
  {
    WorkOrder(SetupOf(o, w), li.repos[i], w.env(li.repos[i].path));
  }

  /* ---- the figures ---- */

  /** How many of the stories are of a kind. */
  ghost function Told(ss: seq<Story>, p: Story -> bool): set<nat> {
    set i: nat | i < |ss| && p(ss[i])
  }

  ghost function SumOver(ss: seq<Story>, f: Story -> nat): nat {
    if ss == [] then 0 else SumOver(ss[..|ss| - 1], f) + f(ss[|ss| - 1])
  }

  lemma {:induction false} SumIsCount(ss: seq<Story>, f: Story -> nat, p: Story -> bool)
    requires forall s :: f(s) == if p(s) then 1 else 0
    ensures SumOver(ss, f) == |Told(ss, p)|
  {
    if ss != [] {
      var n := |ss| - 1;
      SumIsCount(ss[..n], f, p);
      assert Told(ss, p) == if p(ss[n]) then Told(ss[..n], p) + {n} else Told(ss[..n], p);
    }
  }

  /** One figure of the totals: `g` picks it out, and `f` says what a story adds to it. */
  ghost predicate Figure(g: Counters -> nat, f: Story -> nat) {
    && g(Counters(0, 0, 0, 0, 0)) == 0
    && (forall a, b :: g(Add(a, b)) == g(a) + g(b))
    && (forall s :: g(Whole(s)) == f(s))
  }

  lemma {:induction false} FigureIsSum(repos: seq<Repo>, ws: seq<State>, ss: seq<Story>, g: Counters -> nat, f: Story -> nat)
    requires |ss| <= |repos| == |ws| && Figure(g, f) && forall i :: 0 <= i < |ss| ==> ss[i] == StoryOf(repos[i], ws[i])
    ensures g(Total(repos, ws, |ss|)) == SumOver(ss, f)
  {
    if ss != [] {
      FigureIsSum(repos, ws, ss[..|ss| - 1], g, f);
    }
  }

  /** A figure that counts stories. */
  lemma FigureIsCount(repos: seq<Repo>, ws: seq<State>, ss: seq<Story>, g: Counters -> nat, p: Story -> bool)
    requires |ss| == |repos| == |ws| && forall i :: 0 <= i < |ss| ==> ss[i] == StoryOf(repos[i], ws[i])
    requires Figure(g, (s: Story) => if p(s) then 1 else 0)
    ensures g(Total(repos, ws, |ss|)) == |Told(ss, p)|
  {
    FigureIsSum(repos, ws, ss, g, (s: Story) => if p(s) then 1 else 0);
    SumIsCount(ss, (s: Story) => if p(s) then 1 else 0, p);
  }

  ghost function Stories(m: M): seq<Story> {
    seq(|m.threads|, i requires 0 <= i < |m.threads| => if m.threads[i].Exited? then m.threads[i].story else Skip)
  }

  ghost const WasSynced: Story -> bool := (s: Story) => s.Did? && s.w.outcome.synced
  ghost const WasSkipped: Story -> bool := (s: Story) => s.Skip?
  ghost const HasFailed: Story -> bool := (s: Story) => s.Did? && s.w.outcome.failed
  ghost const WasArchived: Story -> bool := (s: Story) => s.Did? && s.w.outcome.archived
  ghost const Exports: Story -> nat := (s: Story) => if s.Did? then s.w.outcome.exported else 0

  lemma FiguresExactly(repos: seq<Repo>, ws: seq<State>, ss: seq<Story>)
    requires |ss| == |repos| == |ws| && forall i :: 0 <= i < |ss| ==> ss[i] == StoryOf(repos[i], ws[i])
    ensures Total(repos, ws, |ss|) ==
            Counters(|Told(ss, WasSynced)|, |Told(ss, WasSkipped)|, |Told(ss, HasFailed)|, |Told(ss, WasArchived)|, SumOver(ss, Exports))
  {
    FigureIsCount(repos, ws, ss, (c: Counters) => c.synced, WasSynced);
    FigureIsCount(repos, ws, ss, (c: Counters) => c.skipped, WasSkipped);
    FigureIsCount(repos, ws, ss, (c: Counters) => c.failed, HasFailed);
    FigureIsCount(repos, ws, ss, (c: Counters) => c.archived, WasArchived);
    FigureIsSum(repos, ws, ss, (c: Counters) => c.exported, Exports);
  }

  /** The figures a Run reports are the numbers of repositories that ended so: what was empty is
      skipped and nothing else, and a repository can be both synced and failed. Pruned is the
      number of stale paths whose mirror could be removed. */
  lemma ResultExactly(o: Options, w: World, li: Listing, all: seq<Repo>, t0: Tree, m: M, res: Result, t1: Tree)
    requires ListRepos(w, o.state) == Ok(li) && w.lists(StateAll) == Ok(all)
    requires Waited(o, w, li, t0, m) && Ends(o, w, li, t0, m, res, t1)
    requires o.l.Apart() && Listable(li.repos)
    ensures var ss := Stories(m);
            && |ss| == |li.repos| && (forall i :: 0 <= i < |ss| ==> (ss[i].Skip? <==> li.repos[i].empty))
            && res.synced == |Told(ss, WasSynced)| && res.skipped == |Told(ss, WasSkipped)|
            && res.failed == |Told(ss, HasFailed)| && res.archived == |Told(ss, WasArchived)|
            && res.exported == SumOver(ss, Exports)
            && res.pruned == if o.pruneRemoved then |Prune.Removed(StalePaths(t0, o.l, all), w.removals)| else 0
  {
    var cfg := ConfigOf(o, w, li.repos);
    ListingsAreTheForges(w, o.state);
    ListableIsIndependent(SetupOf(o, w), li.repos, w.env);
    InterleavingsAgree(cfg, t0, m);
    StoriesMatch(cfg, t0, m);
    FiguresExactly(li.repos, AloneStates(cfg, t0), Stories(m));
    StaleIsDistinct(t0, o.l, all);
    Prune.PruneCounts(m.tree, o.l, StalePaths(t0, o.l, all), w.removals);
  }

  lemma StoriesMatch(cfg: Config, t0: Tree, m: M)
    requires Pool.Independent(cfg.jobs) && Reachable(cfg, t0, m) && Finished(m)
    ensures |Stories(m)| == |cfg.repos|
    ensures forall i :: 0 <= i < |Stories(m)| ==>
              Stories(m)[i] == StoryOf(cfg.repos[i], AloneStates(cfg, t0)[i]) && (Stories(m)[i].Skip? <==> cfg.repos[i].empty)
  {
    ReachableInv(cfg, t0, m);
    InterleavingsAgree(cfg, t0, m);
    StoriesAreTold(cfg, m);
  }

  /* ---- concurrency ---- */

  /** No more repositories are worked on at once than `concurrency` says, or than there are
      processors if it says nothing; and up to that many are, the next being launched as soon
      as there is room. */
  lemma RunKeepsLimit(o: Options, w: World, repos: seq<Repo>, t0: Tree, m: M)
    requires o.l.Apart() && Listable(repos) && Reachable(ConfigOf(o, w, repos), t0, m)
    ensures ShapeInv(ConfigOf(o, w, repos), m)
    ensures var cfg := ConfigOf(o, w, repos);
            && (o.concurrency >= 1 ==> Running(cfg, m) <= o.concurrency)
            && (o.concurrency < 1 ==> Running(cfg, m) <= w.procs)
            && (m.next < |repos| && !repos[m.next].empty && MainFree(cfg, m) ==>
                  (Enabled(cfg, m, Launch) <==> Running(cfg, m) < if o.concurrency >= 1 then o.concurrency else w.procs))
  {
    ListableIsIndependent(SetupOf(o, w), repos, w.env);
    ReachableInv(ConfigOf(o, w, repos), t0, m);
  }
}
