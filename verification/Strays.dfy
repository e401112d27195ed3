/** A release whose tag ends in ".git" looks like a mirror to the scan: an input for which
    something is stale after a pruning run, and what the next one does about it. */
module Strays {
  import opened Names
  import opened Trees
  import opened Worker
  import opened Locality
  import opened Soundness
  import opened Machine
  import opened Runs
  import opened Jobs
  import opened Scan
  import opened Safety
  import opened Backup
  import Example
  import Mirror
  import Program
  import Prune
  import Sequential

  /* ---- a first run with one exporter, computed ---- */

  /** A repository that is new on disk, with one selected exporter, and everything works. */
  ghost predicate FirstExport(j: Job) {
    && Placed(j) && !j.UsesScratch() && !j.wantsArchive
    && |j.exporters| == 1 && j.Selected(0) && j.env.parentOk && j.env.exportDirOk(0)
    && Mirror.AllSucceed(j.env.remote, EMPTY) && IsDir(j.env.remote.clone.tree, [])
    && forall c :: c in Front(j.place.dir) ==> Slashless(c)
  }

  /** The destination directory alone. */
  ghost function Made(j: Job): Tree {
    MkdirAll(EMPTY, Front(j.place.dir)).value
  }

  ghost function Cloned(j: Job): Tree {
    Graft(RemoveAll(Made(j), j.place.partial), j.place.dir, Mirror.WithLfs(j.env.remote, j.env.remote.clone.tree))
  }

  lemma FirstSync(j: Job)
    requires FirstExport(j)
    ensures Mirror.Sync(j.env.remote, j.place, Mirror.Check, Made(j)) == (true, Cloned(j))
  {
    MkdirAllWellFormed(EMPTY, Front(j.place.dir));
    assert j.place.dir !in Made(j);
    EmptySubtree(Made(j), j.place.dir);
    Mirror.SyncClones(j.env.remote, j.place, Made(j));
  }

  lemma FirstWorker(j: Job) returns (w: State)
    requires FirstExport(j)
    ensures w.stage == MakeExportDir(0)
    ensures Finish(j, FRESH, EMPTY) == Finish(j, w, Cloned(j))
  {
    FinishUnfold(j, FRESH, EMPTY);
    var w1 := FRESH.Go(MakeParent);
    FinishUnfold(j, w1, EMPTY);
    var w2 := w1.Go(Stage.Sync(Mirror.Check));
    Sequential.SyncFromCheck(j, w2, Made(j));
    FirstSync(j);
    var b := if j.place.dir + ["HEAD"] in Made(j) then Updated else Branch.Cloned;
    w := Sequential.Synced(Sequential.Branched(w2, b), true);
  }

  lemma ExportDirFree(j: Job)
    requires FirstExport(j)
    ensures MkdirAll(Cloned(j), j.ExportDir(0)).Ok?
  {
    var dir := j.ExportDir(0);
    assert j.place.dir == Root(j, Slot.Mirror) && j.place.partial == Root(j, Partial);
    ExportDirOutsideRoots(j, Slot.Mirror, j.exporters[0].DirName());
    ExportDirOutsideRoots(j, Partial, j.exporters[0].DirName());
    forall k | k <= dir && k in Cloned(j) ensures Cloned(j)[k].Dir? {
      assert !(j.place.dir <= k) && !(j.place.partial <= k);
      assert SameAt(Cloned(j), RemoveAll(Made(j), j.place.partial), k);
      assert SameAt(RemoveAll(Made(j), j.place.partial), Made(j), k);
    }
  }

  /** In the end the exporter's directory holds what the exporter put there. */
  lemma ExportIsThere(j: Job, exported: Tree)
    requires FirstExport(j) && forall u :: j.env.exporter(0, u).tree == exported
    ensures Subtree(Finish(j, FRESH, EMPTY).1, j.ExportDir(0)) == exported
  {
    var w := FirstWorker(j);
    ExportDirFree(j);
    Sequential.ExportBegins(j, 0, w, Cloned(j));
    var t := MkdirAll(Cloned(j), j.ExportDir(0)).value;
    Sequential.ExportEnds(j, 0, w, t);
    var a := Exported(j, t, 0);
    var w' := Sequential.Exporting(w, 1, w.outcome.exported + Bit(a.ok), w.outcome.failed || !a.ok);
    FinishUnfold(j, w', Graft(t, j.ExportDir(0), exported));
    SubtreeOfGraft(t, j.ExportDir(0), exported);
  }

  /* ---- the input: any tame repository, any tag that ends in ".git" ---- */

  const OPTIONS := Options(Example.LAYOUT, StateAll, ArchiveNone, [Releases], 1, true)

  function RepoOf(q: string): Repo {
    Repo(q, false, false)
  }

  /** What the release exporter leaves for one release with the sanitized tag `c`.git. */
  function Tagged(c: string): Tree {
    map[[] := Dir(DIR_MODE), [c + ".git"] := Dir(DIR_MODE)]
  }

  const BARE: Tree := map[[] := Dir(DIR_MODE)]

  function EnvOf(c: string): Env {
    Example.EnvOf(BARE).(exporter := (k: nat, u: Tree) => Mirror.Attempt(true, Tagged(c)))
  }

  function WorldOf(q: string, c: string): World {
    World((state: ListState) => Ok([RepoOf(q)]), true, true, [Releases], (p: string) => EnvOf(c),
          Prune.Removals(p => Mirror.Removed, p => true), 1)
  }

  function ListingOf(q: string): Listing {
    Listing([RepoOf(q)], [RepoOf(q)])
  }

  ghost function JobOf(q: string, c: string): Job {
    JobFor(SetupOf(OPTIONS, WorldOf(q, c)), RepoOf(q), EnvOf(c))
  }

  /** The repository path the scan reads off the release's directory. */
  function Stray(q: string, c: string): string {
    q + ".metadata" + "/" + ("releases" + "/" + c)
  }

  lemma TagTree(c: string)
    requires Slashless(c)
    ensures WellFormed(Tagged(c)) && WellFormed(BARE)
  {
    var tag: Key := [c + ".git"];
    assert Front(tag) == [];
  }

  lemma WorldIsOrderly(q: string, c: string)
    requires Tame(q) && Slashless(c)
    ensures OrderlyRun(OPTIONS, WorldOf(q, c), ListingOf(q))
  {
    TagTree(c);
    assert Example.LAYOUT.dest[0] != Example.LAYOUT.arch[0];
  }

  lemma JobFacts(q: string, c: string)
    ensures var j := JobOf(q, c);
            && !j.UsesScratch() && !j.wantsArchive && j.exporters == [Releases] && j.Selected(0)
            && j.env == EnvOf(c) && j.metadata == MetadataDir(OPTIONS.l, q) && j.place.dir == MirrorPath(OPTIONS.l, q)
  {
  }

  lemma JobIsPlaced(q: string, c: string)
    requires Tame(q) && Slashless(c)
    ensures Placed(JobOf(q, c))
  {
    WorldIsOrderly(q, c);
    JobIsBased(SetupOf(OPTIONS, WorldOf(q, c)), RepoOf(q), EnvOf(c));
  }

  lemma RemoteWorks(c: string)
    ensures Mirror.AllSucceed(EnvOf(c).remote, EMPTY) && IsDir(EnvOf(c).remote.clone.tree, [])
    ensures EnvOf(c).parentOk && EnvOf(c).exportDirOk(0) && forall u :: EnvOf(c).exporter(0, u).tree == Tagged(c)
  {
  }

  lemma JobIsFirst(q: string, c: string)
    requires Tame(q) && Slashless(c)
    ensures FirstExport(JobOf(q, c))
  {
    JobFacts(q, c);
    JobIsPlaced(q, c);
    Prune.SlotSlashless(OPTIONS.l, q, Slot.Mirror);
    RemoteWorks(c);
  }

  lemma StraySplit(q: string, suffix: string, kind: string, c: string, p: string)
    requires Slashless(suffix) && Slashless(kind) && Slashless(c) && p == q + suffix + "/" + (kind + "/" + c)
    ensures Front(Split(p)) == Front(Split(q)) + [Last(Split(q)) + suffix] + [kind] && Last(Split(p)) == c
  {
    SplitConcat(q + suffix, kind + "/" + c);
    SplitConcat(kind, c);
    SplitSlashless(kind);
    SplitSlashless(c);
    SplitSuffix(q, suffix);
    var head := Front(Split(q)) + [Last(Split(q)) + suffix];
    assert Split(p) == head + [kind] + [c];
  }

  lemma StrayAt(l: Layout, q: string, c: string)
    requires Tame(q) && Slashless(c)
    ensures MirrorPath(l, Stray(q, c)) == MetadataDir(l, q) + ["releases"] + [c + ".git"]
  {
    StraySplit(q, ".metadata", "releases", c, Stray(q, c));
    SlotKeyShape(l, Stray(q, c), Slot.Mirror);
    SlotKeyShape(l, q, Metadata);
  }

  /** Where it lies: in the repository's metadata, and nowhere inside another mirror. */
  lemma StrayPlace(l: Layout, q: string, c: string)
    requires Tame(q) && Slashless(c)
    ensures MirrorPath(l, Stray(q, c)) == MetadataDir(l, q) + ["releases"] + [c + ".git"]
    ensures NoGitNamespace(Stray(q, c)) && Stray(q, c) != q
  {
    StrayAt(l, q, c);
    assert NoGitNamespace(Stray(q, c)) by {
      StraySplit(q, ".metadata", "releases", c, Stray(q, c));
      NoGitIn(q, Front(Split(q)) + [Last(Split(q)) + ".metadata"]);
    }
    assert |Stray(q, c)| > |q|;
  }

  lemma NoGitIn(q: string, comps: Key)
    requires Tame(q) && comps == Front(Split(q)) + [Last(Split(q)) + ".metadata"]
    ensures forall n :: n in comps + ["releases"] ==> !HasSuffix(n, ".git")
  {
    TameHasNoGitNamespace(q);
    var last := Last(Split(q)) + ".metadata";
    assert last[|last| - 1] == 'a';
  }

  lemma StrayIsBrought(q: string, c: string)
    requires Tame(q) && Slashless(c)
    ensures IsDir(Finish(JobOf(q, c), FRESH, EMPTY).1, MirrorPath(OPTIONS.l, Stray(q, c)))
  {
    StrayPlace(OPTIONS.l, q, c);
    JobIsFirst(q, c);
    JobFacts(q, c);
    RemoteWorks(c);
    ExportIsThere(JobOf(q, c), Tagged(c));
    InSubtree(Finish(JobOf(q, c), FRESH, EMPTY).1, JobOf(q, c).ExportDir(0), [c + ".git"]);
  }

  lemma InSubtree(t: Tree, k: Key, rel: Key)
    requires IsDir(Subtree(t, k), rel)
    ensures IsDir(t, k + rel)
  {
  }

  lemma StrayAlone(q: string, c: string)
    requires Tame(q) && Slashless(c)
    ensures IsDir(AloneTree(Backup.ConfigOf(OPTIONS, WorldOf(q, c), [RepoOf(q)]), EMPTY, 0), MirrorPath(OPTIONS.l, Stray(q, c)))
  {
    StrayIsBrought(q, c);
    assert Backup.ConfigOf(OPTIONS, WorldOf(q, c), [RepoOf(q)]).jobs[0] == JobOf(q, c);
  }

  lemma StrayIsWithin(l: Layout, q: string, c: string)
    requires Tame(q) && Slashless(c)
    ensures Within(l, q, Stray(q, c)) && MetadataDir(l, q) <= MirrorPath(l, Stray(q, c))
  {
    StrayPlace(l, q, c);
  }

  lemma NotStaleYet(q: string, c: string)
    requires Stray(q, c) != q
    ensures !Listed([RepoOf(q)], Stray(q, c)) && !Stale(EMPTY, OPTIONS.l, [RepoOf(q)], Stray(q, c))
    ensures Prune.NoneFail(StalePaths(EMPTY, OPTIONS.l, [RepoOf(q)]), WorldOf(q, c).removals)
  {
  }

  lemma StrayIsStale(q: string, c: string, m: M, res: Result, t1: Tree)
    requires Tame(q) && Slashless(c)
    requires Waited(OPTIONS, WorldOf(q, c), ListingOf(q), EMPTY, m) && Ends(OPTIONS, WorldOf(q, c), ListingOf(q), EMPTY, m, res, t1)
    ensures WellFormed(t1) && Stale(t1, OPTIONS.l, [RepoOf(q)], Stray(q, c))
    ensures MirrorPath(OPTIONS.l, Stray(q, c)) in t1
  {
    WorldIsOrderly(q, c);
    StrayPlace(OPTIONS.l, q, c);
    StrayIsWithin(OPTIONS.l, q, c);
    StrayAlone(q, c);
    NotStaleYet(q, c);
    BroughtIsStale(OPTIONS, WorldOf(q, c), ListingOf(q), [RepoOf(q)], EMPTY, m, res, t1, 0, Stray(q, c));
  }

  lemma StrayGoesNext(q: string, c: string, t1: Tree, res: Result, t2: Tree)
    requires WellFormed(t1) && Stale(t1, OPTIONS.l, [RepoOf(q)], Stray(q, c)) && Run(OPTIONS, WorldOf(q, c), t1, Ok(res), t2)
    ensures forall k :: MirrorPath(OPTIONS.l, Stray(q, c)) <= k ==> k !in t2
  {
    var w, li := WorldOf(q, c), ListingOf(q);
    var m :| Waited(OPTIONS, w, li, t1, m) && Ends(OPTIONS, w, li, t1, m, res, t2);
    StaleIsGone(OPTIONS, w, li, [RepoOf(q)], t1, m, res, t2, Stray(q, c));
  }

  /** On an empty disk, for any listed repository with a release whose sanitized tag ends in
      ".git": the first pruning run exports the release, and its directory is then stale. The
      next pruning run removes it, release.json, assets and all, though the repository is listed
      and the release has just been exported again. */
  lemma TagEndingInGit(q: string, c: string) returns (t1: Tree, res: Result)
    requires Tame(q) && Slashless(c)
    ensures Run(OPTIONS, WorldOf(q, c), EMPTY, Ok(res), t1)
    ensures StaleSet(t1, OPTIONS.l, [RepoOf(q)]) != {}
    ensures MetadataDir(OPTIONS.l, q) + ["releases"] + [c + ".git"] in t1
    ensures forall res2, t2 :: Run(OPTIONS, WorldOf(q, c), t1, Ok(res2), t2) ==>
              MetadataDir(OPTIONS.l, q) + ["releases"] + [c + ".git"] !in t2
  {
    var w, li := WorldOf(q, c), ListingOf(q);
    WorldIsOrderly(q, c);
    OrderlyIsGrounded(SetupOf(OPTIONS, w), li.repos, w.env);
    var m := Program.RunExists(Backup.ConfigOf(OPTIONS, w, li.repos), EMPTY);
    var (n, u) := Pruned(OPTIONS, w, StalePaths(EMPTY, OPTIONS.l, li.canonical), m.tree);
    t1 := u;
    res := Result(m.counters.synced, m.counters.skipped, m.counters.failed, m.counters.archived, n, m.counters.exported);
    assert Waited(OPTIONS, w, li, EMPTY, m) && Ends(OPTIONS, w, li, EMPTY, m, res, t1);
    StrayIsStale(q, c, m, res, t1);
    StaleSetIff(t1, OPTIONS.l, [RepoOf(q)], Stray(q, c));
    StrayPlace(OPTIONS.l, q, c);
    forall res2, t2 | Run(OPTIONS, w, t1, Ok(res2), t2) ensures MirrorPath(OPTIONS.l, Stray(q, c)) !in t2 {
      StrayGoesNext(q, c, t1, res2, t2);
    }
  }
}
