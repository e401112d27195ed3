/** The dry run: what it prints, and that a real run then does exactly that. */
module DryRun {
  import opened Names
  import opened Trees
  import opened Worker
  import opened Locality
  import opened Machine
  import opened Runs
  import opened Jobs
  import opened Scan
  import opened Backup
  import opened Outcomes
  import Mirror
  import Pool
  import Prune

  /** dryRunAction: "clone" or "update", read off the disk. */
  function Action(t: Tree, l: Layout, r: Repo, wantArchive: bool): Branch {
    if r.archived && wantArchive then Cloned
    else if MirrorPath(l, r.path) + ["HEAD"] in t then Updated
    else Cloned
  }

  datatype Line =
    | SkipLine(path: string)
    | SyncLine(path: string, action: Branch, archive: bool)
    | PruneLine(path: string)

  datatype Preview = Preview(lines: seq<Line>, synced: nat, skipped: nat, archived: nat, pruned: nat)

  function LineFor(t: Tree, l: Layout, sel: Selection, r: Repo): Line {
    if r.empty then SkipLine(r.path)
    else SyncLine(r.path, Action(t, l, r, sel.Wants(r.archived)), sel.Wants(r.archived))
  }

  function LinesFor(t: Tree, l: Layout, sel: Selection, repos: seq<Repo>): seq<Line> {
    seq(|repos|, i requires 0 <= i < |repos| => LineFor(t, l, sel, repos[i]))
  }

  function PruneLines(stale: seq<string>): seq<Line> {
    seq(|stale|, i requires 0 <= i < |stale| => PruneLine(stale[i]))
  }

  function Count(repos: seq<Repo>, f: Repo -> bool, n: nat): nat
    requires n <= |repos|
  {
    if n == 0 then 0 else Count(repos, f, n - 1) + Bit(f(repos[n - 1]))
  }

  const NONEMPTY: Repo -> bool := (r: Repo) => !r.empty
  const EMPTY_ONES: Repo -> bool := (r: Repo) => r.empty

  function Archived(sel: Selection): Repo -> bool {
    (r: Repo) => !r.empty && sel.Wants(r.archived)
  }

  /** The preview of a forge that lists `repos`, with `stale` to be pruned. */
  ghost function PreviewOf(o: Options, t: Tree, repos: seq<Repo>, stale: seq<string>): Preview {
    var n := |repos|;
    Preview(LinesFor(t, o.l, o.archive, repos) + PruneLines(stale),
            Count(repos, NONEMPTY, n), Count(repos, EMPTY_ONES, n), Count(repos, Archived(o.archive), n), |stale|)
  }

  method PrintPrune(stale: seq<string>) returns (lines: seq<Line>)
    ensures lines == PruneLines(stale)
  {
    lines := [];
    for i := 0 to |stale|
      invariant lines == PruneLines(stale[..i])
    {
      assert stale[..i + 1] == stale[..i] + [stale[i]];
      lines := lines + [PruneLine(stale[i])];
    }
    assert stale[..|stale|] == stale;
  }

  /** dryRunPrune: one line per stale path, judged by the full listing. */
  method DryRunPrune(o: Options, w: World, t: Tree, repos: seq<Repo>) returns (r: Maybe<seq<Line>>)
    requires WellFormed(t) && w.lists(o.state) == Ok(repos)
    ensures r.Err? <==> w.lists(StateAll).Err? || !w.destReadable || !w.archReadable
    ensures r.Ok? ==> r.value == PruneLines(StalePaths(t, o.l, w.lists(StateAll).value))
  {
    var canonical := repos;
    if !o.state.StateAll? {
      var all := w.lists(StateAll);
      if all.Err? {
        return Err;
      }
      canonical := all.value;
    }
    var stale := StaleMirrors(t, o.l, canonical, w.destReadable, w.archReadable);
    if stale.Err? {
      return Err;
    }
    var lines := PrintPrune(stale.value);
    return Ok(lines);
  }

  /** The per-repository part of dryRunForge. */
  method DryRunRepos(o: Options, t: Tree, repos: seq<Repo>)
    returns (lines: seq<Line>, synced: nat, skipped: nat, archived: nat)
    ensures lines == LinesFor(t, o.l, o.archive, repos)
    ensures synced == Count(repos, NONEMPTY, |repos|)
    ensures skipped == Count(repos, EMPTY_ONES, |repos|)
    ensures archived == Count(repos, Archived(o.archive), |repos|)
  {
    lines := [];
    synced, skipped, archived := 0, 0, 0;
    for i := 0 to |repos|
      invariant lines == LinesFor(t, o.l, o.archive, repos[..i])
      invariant synced == Count(repos, NONEMPTY, i)
      invariant skipped == Count(repos, EMPTY_ONES, i)
      invariant archived == Count(repos, Archived(o.archive), i)
    {
      var repo := repos[i];
      assert repos[..i + 1] == repos[..i] + [repo];
      if repo.empty {
        lines := lines + [SkipLine(repo.path)];
        skipped := skipped + 1;
        continue;
      }
      var wantArchive := o.archive.Wants(repo.archived);
      if wantArchive {
        archived := archived + 1;
      }
      lines := lines + [SyncLine(repo.path, Action(t, o.l, repo, wantArchive), wantArchive)];
      synced := synced + 1;
    }
    assert repos[..|repos|] == repos;
  }

  /** dryRunForge. The tree is read, never written. The full listing and the scans are only
      needed, and can only fail, when pruning is previewed. */
  method DryRunForge(o: Options, w: World, t: Tree) returns (r: Maybe<Preview>)
    requires WellFormed(t)
    ensures r.Err? <==>
              w.lists(o.state).Err?
              || (o.pruneRemoved && (w.lists(StateAll).Err? || !w.destReadable || !w.archReadable))
    ensures r.Ok? ==> r.value == PreviewOf(o, t, w.lists(o.state).value,
                                           if o.pruneRemoved then StalePaths(t, o.l, w.lists(StateAll).value) else [])
  {
    var listing := w.lists(o.state);
    if listing.Err? {
      return Err;
    }
    var repos := listing.value;
    var lines, synced, skipped, archived := DryRunRepos(o, t, repos);
    var pruned: seq<Line> := [];
    if o.pruneRemoved {
      var previewed := DryRunPrune(o, w, t, repos);
      if previewed.Err? {
        return Err;
      }
      pruned := previewed.value;
    }
    assert PruneLines([]) == [];
    return Ok(Preview(lines + pruned, synced, skipped, archived, |pruned|));
  }

  /* ---- the preview comes true ---- */

  /** Up to the moment Sync decides, nothing the worker does makes or removes a HEAD. */
  ghost predicate Predicted(j: Job, b: Branch, w: State, t: Tree) {
    && (if j.UsesScratch() then
          b == Cloned && ((w.stage.MakeParent? || (w.stage.Sync? && w.stage.s.Check?)) ==> j.scratch.dir + ["HEAD"] !in w.scratch)
        else
          (w.stage.Begin? || w.stage.MakeParent? || (w.stage.Sync? && w.stage.s.Check?)) ==>
            (b == if j.place.dir + ["HEAD"] in t then Updated else Cloned))
    && (w.outcome.branch == Undecided || w.outcome.branch == b)
    && (w.stage.Begin? || w.stage.MakeParent? || (w.stage.Sync? && w.stage.s.Check?) ==> w.outcome.branch == Undecided && !w.outcome.synced)
    && (w.stage.Sync? && !w.stage.s.Check? ==> w.outcome.branch == b)
    && (w.outcome.synced ==> w.outcome.branch == b)
  }

  lemma PredictedStep(j: Job, b: Branch, w: State, t: Tree)
    requires Predicted(j, b, w, t) && !w.stage.Ended? && j.scratch.dir != []
    ensures Predicted(j, b, Next(j, w, t), Effect(j, w, t))
  {
    if w.stage.Begin? || w.stage.MakeParent? {
      PredictedBefore(j, b, w, t);
    } else if w.stage.Sync? {
      PredictedSync(j, b, w, t);
    } else {
      PredictedAfter(j, b, w, Ask(j, w, t), Effect(j, w, t));
    }
  }

  lemma PredictedBefore(j: Job, b: Branch, w: State, t: Tree)
    requires Predicted(j, b, w, t) && (w.stage.Begin? || w.stage.MakeParent?) && j.scratch.dir != []
    ensures Predicted(j, b, Next(j, w, t), Effect(j, w, t))
  {
    if w.stage.Begin? {
      var scratch: Tree := map[[] := Dir(0x1C0)];
      assert j.scratch.dir + ["HEAD"] !in scratch;
    } else {
      HeadNotMade(j, t);
    }
  }

  /** Once Sync is over the branch is settled. */
  lemma PredictedAfter(j: Job, b: Branch, w: State, a: Answer, u: Tree)
    requires w.stage.MakeExportDir? || w.stage.Export? || Archiving(w.stage)
    requires (j.UsesScratch() ==> b == Cloned) && (w.outcome.branch == Undecided || w.outcome.branch == b)
    requires w.outcome.synced ==> w.outcome.branch == b
    ensures Predicted(j, b, Advance(j, w, a), u)
  {
  }

  lemma HeadNotMade(j: Job, t: Tree)
    ensures ParentMade(j, t) ==>
              (j.place.dir + ["HEAD"] in MkdirAll(t, Front(j.place.dir)).value <==> j.place.dir + ["HEAD"] in t)
  {
    var k := j.place.dir + ["HEAD"];
    assert |k| > |Front(j.place.dir)|;
  }

  lemma PredictedSync(j: Job, b: Branch, w: State, t: Tree)
    requires Predicted(j, b, w, t) && w.stage.Sync?
    ensures Predicted(j, b, Next(j, w, t), Effect(j, w, t))
  {
    var a := Ask(j, w, t);
    SyncNeverChecksAgain(j, w, t);
    AfterSyncPredicted(j, b, w, a, t, Effect(j, w, t));
  }

  lemma SyncNeverChecksAgain(j: Job, w: State, t: Tree)
    requires w.stage.Sync?
    ensures !Ask(j, w, t).sync.Check?
    ensures w.stage.s.Check? && Ask(j, w, t).sync.Update? ==>
              if j.UsesScratch() then j.scratch.dir + ["HEAD"] in w.scratch else j.place.dir + ["HEAD"] in t
    ensures w.stage.s.Check? && Ask(j, w, t).sync.Clear? ==>
              if j.UsesScratch() then j.scratch.dir + ["HEAD"] !in w.scratch else j.place.dir + ["HEAD"] !in t
    ensures w.stage.s.Check? ==> Ask(j, w, t).sync.Update? || Ask(j, w, t).sync.Clear? || Ask(j, w, t).sync.Failed?
  {
  }

  lemma AfterSyncPredicted(j: Job, b: Branch, w: State, a: Answer, t: Tree, u: Tree)
    requires Predicted(j, b, w, t) && w.stage.Sync? && !a.sync.Check?
    requires w.stage.s.Check? ==>
               || (a.sync.Update? && if j.UsesScratch() then j.scratch.dir + ["HEAD"] in w.scratch else j.place.dir + ["HEAD"] in t)
               || (a.sync.Clear? && if j.UsesScratch() then j.scratch.dir + ["HEAD"] !in w.scratch else j.place.dir + ["HEAD"] !in t)
               || a.sync.Failed?
    ensures Predicted(j, b, AfterSync(w.(scratch := a.scratch), w.stage.s, a.sync), u)
  {
  }

  lemma {:induction false} PredictedFinish(j: Job, b: Branch, w: State, t: Tree)
    requires Predicted(j, b, w, t) && j.scratch.dir != []
    ensures var o := Finish(j, w, t).0.outcome;
            (o.branch == Undecided || o.branch == b) && (o.synced ==> o.branch == b)
    decreases Rank(j, w)
  {
    if !w.stage.Ended? {
      PredictedStep(j, b, w, t);
      RankDrops(j, w, t);
      FinishUnfold(j, w, t);
      PredictedFinish(j, b, Next(j, w, t), Effect(j, w, t));
    }
  }

  /** Each previewed line is what becomes of its repository, whatever the interleaving. An empty
      one is skipped; any other is worked on, and its line names the branch Sync takes, if it
      gets so far, and whether it is archived, if nothing fails. */
  lemma LinesComeTrue(o: Options, w: World, li: Listing, t0: Tree, m: M, i: nat)
    requires Waited(o, w, li, t0, m) && o.l.Apart() && Listable(li.repos) && i < |li.repos|
    ensures |m.threads| == |li.repos| && m.threads[i].Exited?
    ensures var repo, line, story := li.repos[i], LinesFor(t0, o.l, o.archive, li.repos)[i], m.threads[i].story;
            && line.path == repo.path && (repo.empty <==> line.SkipLine?) && (repo.empty <==> story.Skip?)
            && (story.Did? ==> line.SyncLine? && ComesTrue(line, Chosen(o.archive, repo.archived), story.w.outcome))
  {
    var cfg, repo := ConfigOf(o, w, li.repos), li.repos[i];
    ListableIsIndependent(SetupOf(o, w), li.repos, w.env);
    assert |m.threads| == |li.repos| && FitsRepo(repo, m.threads[i]) by { ReachableInv(cfg, t0, m); }
    if !repo.empty {
      StoryAsAlone(cfg, t0, m, i);
      AsPreviewed(o, w, repo, t0);
    }
  }

  /** The end `end` of a repository is what its line says; `chosen` tells whether it is to be
      archived. */
  predicate ComesTrue(line: Line, chosen: bool, end: Outcome)
    requires line.SyncLine?
  {
    && (end.branch == Undecided || end.branch == line.action) && (end.synced ==> end.branch == line.action)
    && (line.archive <==> chosen)
    && (end.archived ==> line.archive) && (!end.failed && line.archive ==> end.archived)
  }

  lemma AsPreviewed(o: Options, w: World, repo: Repo, t0: Tree)
    requires !repo.empty
    ensures var line, j := LineFor(t0, o.l, o.archive, repo), JobFor(SetupOf(o, w), repo, w.env(repo.path));
            line.SyncLine? && ComesTrue(line, Chosen(o.archive, repo.archived), Finish(j, FRESH, t0).0.outcome)
  {
    var j := JobFor(SetupOf(o, w), repo, w.env(repo.path));
    BranchAsPreviewed(o, j, repo, t0);
    ArchiveAsPreviewed(j, t0);
  }

  lemma ArchiveAsPreviewed(j: Job, t0: Tree)
    ensures var end := Finish(j, FRESH, t0).0.outcome;
            (end.archived ==> j.wantsArchive) && (!end.failed && j.wantsArchive ==> end.archived)
  {
    PlausibleFinish(j, FRESH, t0);
  }

  lemma BranchAsPreviewed(o: Options, j: Job, repo: Repo, t0: Tree)
    requires j.repo == repo && j.wantsArchive == o.archive.Wants(repo.archived)
    requires j.place.dir == MirrorPath(o.l, repo.path) && j.scratch.dir != []
    ensures var end, b := Finish(j, FRESH, t0).0.outcome, Action(t0, o.l, repo, o.archive.Wants(repo.archived));
            (end.branch == Undecided || end.branch == b) && (end.synced ==> end.branch == b)
  {
    var b := Action(t0, o.l, repo, o.archive.Wants(repo.archived));
    assert Predicted(j, b, FRESH, t0);
    PredictedFinish(j, b, FRESH, t0);
  }

  /** Every sync and every archive write of the run worked. */
  ghost predicate AllWorked(o: Options, w: World, li: Listing, t0: Tree) {
    forall i :: 0 <= i < |li.repos| && !li.repos[i].empty ==>
      var end := Finish(ConfigOf(o, w, li.repos).jobs[i], FRESH, t0).0.outcome;
      end.synced && (Chosen(o.archive, li.repos[i].archived) ==> end.archived)
  }

  /** One repository's end, when all went well for it. */
  lemma EndAsCounted(o: Options, w: World, li: Listing, t0: Tree, i: nat)
    requires AllWorked(o, w, li, t0) && i < |li.repos| && !li.repos[i].empty
    ensures var end := Finish(ConfigOf(o, w, li.repos).jobs[i], FRESH, t0).0;
            end.outcome.synced && end.outcome.archived == Archived(o.archive)(li.repos[i])
  {
    var j := ConfigOf(o, w, li.repos).jobs[i];
    assert j == JobFor(SetupOf(o, w), li.repos[i], w.env(li.repos[i].path));
    PlausibleFinish(j, FRESH, t0);
  }

  ghost predicate Counted(repo: Repo, w: State, archived: Repo -> bool) {
    var share := Whole(StoryOf(repo, w));
    && share.synced == Bit(NONEMPTY(repo))
    && share.skipped == Bit(EMPTY_ONES(repo))
    && share.archived == Bit(archived(repo))
  }

  /** Its share of the totals, empty or not. */
  lemma ShareAsCounted(o: Options, w: World, li: Listing, t0: Tree, i: nat)
    requires AllWorked(o, w, li, t0) && i < |li.repos| && ConfigOf(o, w, li.repos).Valid()
    ensures Counted(li.repos[i], AloneStates(ConfigOf(o, w, li.repos), t0)[i], Archived(o.archive))
  {
    var cfg := ConfigOf(o, w, li.repos);
    if !li.repos[i].empty {
      EndAsCounted(o, w, li, t0, i);
      assert AloneStates(cfg, t0)[i] == Finish(cfg.jobs[i], FRESH, t0).0;
    }
  }

  lemma {:induction false} SharesAddUp(repos: seq<Repo>, ws: seq<State>, archived: Repo -> bool, n: nat)
    requires n <= |repos| == |ws|
    requires forall i :: 0 <= i < |repos| ==> Counted(repos[i], ws[i], archived)
    ensures Total(repos, ws, n).synced == Count(repos, NONEMPTY, n)
    ensures Total(repos, ws, n).skipped == Count(repos, EMPTY_ONES, n)
    ensures Total(repos, ws, n).archived == Count(repos, archived, n)
  {
    if n > 0 {
      SharesAddUp(repos, ws, archived, n - 1);
      assert Counted(repos[n - 1], ws[n - 1], archived);
    }
  }

  lemma TotalsAsCounted(o: Options, w: World, li: Listing, t0: Tree)
    requires AllWorked(o, w, li, t0) && ConfigOf(o, w, li.repos).Valid()
    ensures var c, n := Total(li.repos, AloneStates(ConfigOf(o, w, li.repos), t0), |li.repos|), |li.repos|;
            && c.synced == Count(li.repos, NONEMPTY, n)
            && c.skipped == Count(li.repos, EMPTY_ONES, n)
            && c.archived == Count(li.repos, Archived(o.archive), n)
  {
    var ws := AloneStates(ConfigOf(o, w, li.repos), t0);
    forall i | 0 <= i < |li.repos| ensures Counted(li.repos[i], ws[i], Archived(o.archive)) {
      ShareAsCounted(o, w, li, t0, i);
    }
    SharesAddUp(li.repos, ws, Archived(o.archive), |li.repos|);
  }

  /** The dry run refines the real one: on the same tree and listings, with every sync, archive
      write and removal succeeding, the previewed numbers are the reported ones and the
      previewed prune lines are the removed paths, in order. */
  lemma PreviewComesTrue(o: Options, w: World, li: Listing, all: seq<Repo>, t0: Tree, m: M, res: Result, t1: Tree)
    requires ListRepos(w, o.state) == Ok(li) && w.lists(StateAll) == Ok(all)
    requires Waited(o, w, li, t0, m) && Ends(o, w, li, t0, m, res, t1)
    requires o.l.Apart() && Listable(li.repos) && AllWorked(o, w, li, t0)
    requires Prune.NoneFail(StalePaths(t0, o.l, all), w.removals)
    ensures var stale := if o.pruneRemoved then StalePaths(t0, o.l, all) else [];
            var p := PreviewOf(o, t0, li.repos, stale);
            && p.synced == res.synced && p.skipped == res.skipped && p.archived == res.archived && p.pruned == res.pruned
            && p.lines[|li.repos|..] == PruneLines(stale)
  {
    ListingsAreTheForges(w, o.state);
    ListableIsIndependent(SetupOf(o, w), li.repos, w.env);
    InterleavingsAgree(ConfigOf(o, w, li.repos), t0, m);
    TotalsAsCounted(o, w, li, t0);
    StaleIsDistinct(t0, o.l, all);
    Prune.PruneCounts(m.tree, o.l, StalePaths(t0, o.l, all), w.removals);
  }
}
