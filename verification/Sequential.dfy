/** The same code as the machine runs, written the way the program is: straight-line methods
    that change the disk in place. Each is tied to the step sequence it stands for. */
module Sequential {
  import opened Names
  import opened Trees
  import opened Worker
  import opened Locality
  import opened Machine
  import opened Runs
  import opened Disk
  import Mirror
  import Prune
  import Soundness

  /** Mirror.clone. */
  method Clone(d: Disk, r: Mirror.Remote, p: Mirror.Place) returns (ok: bool)
    modifies d
    ensures Mirror.Sync(r, p, Mirror.Clear, old(d.tree)) ==
            if ok then Mirror.Sync(r, p, Mirror.Lfs, d.tree) else (false, d.tree)
  {
    ghost var t0 := d.tree;
    Mirror.SyncUnfold(r, p, Mirror.Clear, t0);
    var cleared := d.RemoveAll(p.partial, r.clear);
    if !cleared {
      return false;
    }
    ghost var t1 := d.tree;
    Mirror.SyncUnfold(r, p, Mirror.Clone, t1);
    d.Install(p.partial, r.clone.tree);
    if !r.clone.ok {
      return false;
    }
    Mirror.SyncUnfold(r, p, Mirror.Rename, d.tree);
    ok := d.Rename(p.partial, p.dir, r.renameOk);
  }

  /** Mirror.update. */
  method Update(d: Disk, r: Mirror.Remote, p: Mirror.Place) returns (ok: bool)
    modifies d
    ensures Mirror.Sync(r, p, Mirror.Update, old(d.tree)) ==
            if ok then Mirror.Sync(r, p, Mirror.Lfs, d.tree) else (false, d.tree)
  {
    Mirror.SyncUnfold(r, p, Mirror.Update, d.tree);
    var mirror := d.Read(p.dir);
    var a := r.update(mirror);
    d.Install(p.dir, a.tree);
    ok := a.ok;
  }

  /** Mirror.Sync: clone or update, then LFS. */
  method Sync(d: Disk, r: Mirror.Remote, p: Mirror.Place) returns (ok: bool, branch: Branch)
    modifies d
    ensures (ok, d.tree) == Mirror.Sync(r, p, Mirror.Check, old(d.tree))
    ensures branch == if !r.gitFound then Undecided else if p.dir + ["HEAD"] in old(d.tree) then Updated else Cloned
  {
    Mirror.SyncUnfold(r, p, Mirror.Check, d.tree);
    if !r.gitFound {
      return false, Undecided;
    }
    if p.dir + ["HEAD"] in d.tree {
      branch := Updated;
      var updated := Update(d, r, p);
      if !updated {
        return false, branch;
      }
    } else {
      branch := Cloned;
      var cloned := Clone(d, r, p);
      if !cloned {
        return false, branch;
      }
    }
    Mirror.SyncUnfold(r, p, Mirror.Lfs, d.tree);
    var mirror := d.Read(p.dir);
    var a := Mirror.SyncLfs(r, mirror);
    d.Install(p.dir, a.tree);
    ok := a.ok;
  }

  /** prune: goes on after a failed removal, and counts a path once its mirror is gone. */
  method PruneStale(d: Disk, l: Layout, pruneRemoved: bool, stale: seq<string>, r: Prune.Removals) returns (pruned: nat)
    modifies d
    ensures (pruned, d.tree) == if pruneRemoved then Prune.PruneAll(old(d.tree), l, stale, r) else (0, old(d.tree))
  {
    pruned := 0;
    for i := 0 to |stale|
      invariant pruneRemoved ==>
                  var (n, u) := Prune.PruneAll(d.tree, l, stale[i..], r);
                  Prune.PruneAll(old(d.tree), l, stale, r) == (pruned + n, u)
      invariant !pruneRemoved ==> pruned == 0 && d.tree == old(d.tree)
    {
      if !pruneRemoved {
        continue;
      }
      var path := stale[i];
      assert stale[i..][0] == path && stale[i..][1..] == stale[i + 1..];
      var removed := d.RemoveAll(MirrorPath(l, path), r.mirror(path));
      if !removed {
        continue;
      }
      pruned := pruned + 1;
      var _ := d.Remove(ArchivePath(l, path), r.archive(path));
    }
  }

  function Exporting(w: State, k: nat, exported: nat, failed: bool): State {
    w.(stage := MakeExportDir(k), outcome := w.outcome.(exported := exported, failed := failed))
  }

  /** One selected exporter: its directory, then its export. */
  method ExportKind(d: Disk, j: Job, k: nat, ghost w: State) returns (ok: bool)
    requires j.Selected(k) && w.stage == MakeExportDir(k)
    modifies d
    ensures Finish(j, w, old(d.tree)) ==
            Finish(j, Exporting(w, k + 1, w.outcome.exported + Bit(ok), w.outcome.failed || !ok), d.tree)
  {
    var dir := j.ExportDir(k);
    if ExportDirMade(j, d.tree, k) {
      ExportBegins(j, k, w, d.tree);
    } else {
      ExportSkipped(j, k, w, d.tree);
    }
    var made := d.MkdirAll(dir, j.env.exportDirOk(k));
    if !made {
      return false;
    }
    ExportEnds(j, k, w, d.tree);
    var before := d.Read(dir);
    var a := j.env.exporter(k, before);
    d.Install(dir, a.tree);
    ok := a.ok;
  }

  lemma ExportSkipped(j: Job, k: nat, w: State, t: Tree)
    requires j.Selected(k) && w.stage == MakeExportDir(k) && !ExportDirMade(j, t, k)
    ensures Finish(j, w, t) == Finish(j, Exporting(w, k + 1, w.outcome.exported, true), t)
  {
    FinishUnfold(j, w, t);
  }

  lemma ExportBegins(j: Job, k: nat, w: State, t: Tree)
    requires j.Selected(k) && w.stage == MakeExportDir(k) && ExportDirMade(j, t, k)
    ensures Finish(j, w, t) == Finish(j, w.Go(Export(k)), MkdirAll(t, j.ExportDir(k)).value)
  {
    FinishUnfold(j, w, t);
  }

  lemma ExportEnds(j: Job, k: nat, w: State, t: Tree)
    requires j.Selected(k)
    ensures var a := Exported(j, t, k);
            Finish(j, w.Go(Export(k)), t) ==
            Finish(j, Exporting(w, k + 1, w.outcome.exported + Bit(a.ok), w.outcome.failed || !a.ok), Graft(t, j.ExportDir(k), a.tree))
  {
    var v, a := w.Go(Export(k)), Exported(j, t, k);
    FinishUnfold(j, v, t);
    assert Ask(j, v, t).ok == a.ok;
    assert Next(j, v, t) == Exporting(w, k + 1, w.outcome.exported + Bit(a.ok), w.outcome.failed || !a.ok);
    assert Effect(j, v, t) == Graft(t, j.ExportDir(k), a.tree);
  }

  /** exportMetadata: every selected exporter in turn, one failing not stopping the rest. `w`
      stands for the worker's state when it is called. */
  method ExportMetadata(d: Disk, j: Job, ghost w: State) returns (exported: nat, failed: bool)
    requires w.stage == MakeExportDir(0) && w.outcome.exported == 0 && !w.outcome.failed
    modifies d
    ensures Finish(j, w, old(d.tree)) == Finish(j, Exporting(w, |j.exporters|, exported, failed), d.tree)
  {
    exported, failed := 0, false;
    for k := 0 to |j.exporters|
      invariant Finish(j, w, old(d.tree)) == Finish(j, Exporting(w, k, exported, failed), d.tree)
    {
      ghost var v := Exporting(w, k, exported, failed);
      if !j.Selected(k) {
        FinishUnfold(j, v, d.tree);
        continue;
      }
      var ok := ExportKind(d, j, k, v);
      if !ok {
        failed := true;
        continue;
      }
      exported := exported + 1;
    }
  }

  lemma SourceKeptByParent(j: Job, w: State, t: Tree)
    requires Separate(j) && MkdirAll(t, Front(j.out)).Ok?
    ensures Source(j, w, MkdirAll(t, Front(j.out)).value) == Source(j, w, t)
  {
    Soundness.ParentOutsideRoots(j, Slot.Mirror, Slot.Archive);
    Soundness.MkdirKeepsRoot(j, Slot.Mirror, t, Front(Root(j, Slot.Archive)));
  }

  lemma SourceKeptByTemp(j: Job, w: State, t: Tree, s: Tree)
    requires Separate(j)
    ensures Source(j, w, Graft(t, j.tmp, s)) == Source(j, w, t)
  {
    assert j.tmp == Root(j, Temp) && j.place.dir == Root(j, Slot.Mirror);
    assert Subtree(Graft(t, j.tmp, s), j.place.dir) == Subtree(t, j.place.dir) by {
      Soundness.OtherRootKept(j, Slot.Mirror, Temp, j.tmp, t, s);
    }
  }

  /** The second half of writeArchive: every entry, then the trailers and the file's close. */
  method FillTemp(d: Disk, j: Job, m: Tree, ghost w: State) returns (ok: bool)
    requires w.stage == Stage.FillTemp && Separate(j) && Source(j, w, d.tree) == m
    modifies d
    ensures Finish(j, w, old(d.tree)) == if ok then Finish(j, w.Go(RenameTemp), d.tree) else (w.Fail(), Remove(d.tree, j.tmp))
  {
    FinishUnfold(j, w, d.tree);
    var entries := j.pack(m);
    SourceKeptByTemp(j, w, d.tree, map[[] := File(0x1A4, Torn(entries, j.env.torn))]);
    d.Install(j.tmp, map[[] := File(0x1A4, Torn(entries, j.env.torn))]);
    FinishUnfold(j, w.Go(CloseTemp), d.tree);
    if !j.env.writeOk || entries.Err? {
      return false;
    }
    assert CanClose(j, w.Go(CloseTemp), d.tree);
    d.Install(j.tmp, map[[] := File(0x1A4, TarGz(entries.value, true))]);
    ok := true;
  }

  /** writeArchive into the temporary file: create, fill, close. `m` is the mirror it reads.
      On failure the temporary file, if any, is still there. */
  method WriteTemp(d: Disk, j: Job, m: Tree, ghost w: State) returns (ok: bool)
    requires w.stage == CreateTemp && Separate(j) && Source(j, w, d.tree) == m
    modifies d
    ensures Finish(j, w, old(d.tree)) == if ok then Finish(j, w.Go(RenameTemp), d.tree) else (w.Fail(), Remove(d.tree, j.tmp))
  {
    FinishUnfold(j, w, d.tree);
    if !j.env.createOk || !([] in m && m[[]].Dir?) || (j.tmp in d.tree && d.tree[j.tmp].Dir?) {
      return false;
    }
    assert CanCreate(j, w, d.tree);
    SourceKeptByTemp(j, w, d.tree, map[[] := File(0x1A4, TarGz([], false))]);
    d.Install(j.tmp, map[[] := File(0x1A4, TarGz([], false))]);
    ok := FillTemp(d, j, m, w.Go(Stage.FillTemp));
  }

  /** Archive: only a completely written temporary file is renamed over the target. */
  method Archive(d: Disk, j: Job, m: Tree, ghost w: State) returns (ok: bool)
    requires w.stage == CreateTemp && Separate(j) && Source(j, w, d.tree) == m
    modifies d
    ensures Finish(j, w, old(d.tree)) ==
            (if ok then w.(stage := Ended, outcome := w.outcome.(archived := true)) else w.Fail(), d.tree)
  {
    var written := WriteTemp(d, j, m, w);
    if !written {
      var _ := d.Remove(j.tmp, true);
      return false;
    }
    FinishUnfold(j, w.Go(RenameTemp), d.tree);
    ok := d.Rename(j.tmp, j.out, j.env.renameOk);
  }

  /** archiveRepo: the archive's parent directory first. */
  method ArchiveRepo(d: Disk, j: Job, m: Tree, ghost w: State) returns (ok: bool)
    requires w.stage == MakeArchiveParent && Separate(j) && Source(j, w, d.tree) == m
    modifies d
    ensures Finish(j, w, old(d.tree)) ==
            (if ok then w.(stage := Ended, outcome := w.outcome.(archived := true)) else w.Fail(), d.tree)
  {
    FinishUnfold(j, w, d.tree);
    ghost var t0 := d.tree;
    var made := d.MkdirAll(Front(j.out), j.env.archiveParentOk);
    if !made {
      return false;
    }
    SourceKeptByParent(j, w, t0);
    ok := Archive(d, j, m, w.Go(CreateTemp));
  }

  /** What a worker looks like once Sync has returned. */
  function Synced(w: State, ok: bool): State {
    if ok then w.(stage := MakeExportDir(0), outcome := w.outcome.(synced := true)) else w.Fail()
  }

  /** The worker's Sync stages are Mirror.Sync. */
  lemma {:induction false} SyncInPlace(j: Job, w: State, t: Tree)
    requires w.stage.Sync? && !w.stage.s.Check? && !j.UsesScratch()
    ensures var (ok, u) := Mirror.Sync(j.env.remote, j.place, w.stage.s, t);
            Finish(j, w, t) == Finish(j, Synced(w, ok), u)
    decreases Mirror.Rank(w.stage.s)
  {
    var s := w.stage.s;
    FinishUnfold(j, w, t);
    Mirror.SyncUnfold(j.env.remote, j.place, s, t);
    MirrorRankDrops(j.env.remote, j.place, s, t);
    var (s', u) := Mirror.Step(j.env.remote, j.place, s, t);
    if !Mirror.Ended(s') {
      SyncInPlace(j, w.Go(Stage.Sync(s')), u);
    }
  }

  lemma {:induction false} SyncInScratch(j: Job, w: State, t: Tree)
    requires w.stage.Sync? && !w.stage.s.Check? && j.UsesScratch()
    ensures var (ok, u) := Mirror.Sync(j.env.remote, j.scratch, w.stage.s, w.scratch);
            Finish(j, w, t) == Finish(j, Synced(w.(scratch := u), ok), t)
    decreases Mirror.Rank(w.stage.s)
  {
    var s := w.stage.s;
    FinishUnfold(j, w, t);
    Mirror.SyncUnfold(j.env.remote, j.scratch, s, w.scratch);
    MirrorRankDrops(j.env.remote, j.scratch, s, w.scratch);
    var (s', u) := Mirror.Step(j.env.remote, j.scratch, s, w.scratch);
    if !Mirror.Ended(s') {
      SyncInScratch(j, w.(stage := Stage.Sync(s'), scratch := u), t);
    }
  }

  function Branched(w: State, b: Branch): State {
    w.(outcome := w.outcome.(branch := b))
  }

  /** ... from its first stage on, which also settles the branch. */
  lemma SyncFromCheck(j: Job, w: State, t: Tree)
    requires w.stage == Stage.Sync(Mirror.Check) && w.outcome.branch == Undecided
    ensures var p, tree := if j.UsesScratch() then j.scratch else j.place, if j.UsesScratch() then w.scratch else t;
            var (ok, u) := Mirror.Sync(j.env.remote, p, Mirror.Check, tree);
            var b := if !j.env.remote.gitFound then Undecided else if p.dir + ["HEAD"] in tree then Updated else Cloned;
            Finish(j, w, t) ==
            if j.UsesScratch() then Finish(j, Synced(Branched(w.(scratch := u), b), ok), t)
            else Finish(j, Synced(Branched(w, b), ok), u)
  {
    if j.UsesScratch() {
      CheckInScratch(j, w, t);
    } else {
      CheckInPlace(j, w, t);
    }
  }

  lemma CheckInScratch(j: Job, w: State, t: Tree)
    requires w.stage == Stage.Sync(Mirror.Check) && w.outcome.branch == Undecided && j.UsesScratch()
    ensures var (ok, u) := Mirror.Sync(j.env.remote, j.scratch, Mirror.Check, w.scratch);
            var b := if !j.env.remote.gitFound then Undecided else if j.scratch.dir + ["HEAD"] in w.scratch then Updated else Cloned;
            Finish(j, w, t) == Finish(j, Synced(Branched(w.(scratch := u), b), ok), t)
  {
    var head := j.scratch.dir + ["HEAD"] in w.scratch;
    CheckSteps(j, w, t, head);
    SyncChecks(j.env.remote, j.scratch, w.scratch, head);
    var (ok, u) := Mirror.Sync(j.env.remote, j.scratch, Mirror.Check, w.scratch);
    DecidedSynced(w, head, u, ok);
    if j.env.remote.gitFound {
      SyncInScratch(j, Decided(w, head), t);
    }
  }

  /** Where Sync ends does not show through which stages it went. */
  lemma DecidedSynced(w: State, head: bool, u: Tree, ok: bool)
    requires w.outcome.branch == Undecided
    ensures Synced(Decided(w, head).(scratch := u), ok) == Synced(Branched(w.(scratch := u), if head then Updated else Cloned), ok)
    ensures Synced(Decided(w, head), ok) == Synced(Branched(w, if head then Updated else Cloned), ok)
    ensures Branched(w, Undecided) == w && w.(scratch := w.scratch) == w && Synced(w, false) == w.Fail()
  {
  }

  lemma SyncChecks(r: Mirror.Remote, p: Mirror.Place, t: Tree, head: bool)
    requires head == (p.dir + ["HEAD"] in t)
    ensures Mirror.Sync(r, p, Mirror.Check, t) ==
            if !r.gitFound then (false, t) else Mirror.Sync(r, p, if head then Mirror.Update else Mirror.Clear, t)
  {
    Mirror.SyncUnfold(r, p, Mirror.Check, t);
  }

  /** The worker once Sync has found git and looked for HEAD. */
  function Decided(w: State, head: bool): State {
    var s: SyncStage := if head then Mirror.Update else Mirror.Clear;
    Branched(w, if head then Updated else Cloned).Go(Stage.Sync(s))
  }

  lemma CheckSteps(j: Job, w: State, t: Tree, head: bool)
    requires w.stage == Stage.Sync(Mirror.Check) && w.outcome.branch == Undecided
    requires head == if j.UsesScratch() then j.scratch.dir + ["HEAD"] in w.scratch else j.place.dir + ["HEAD"] in t
    ensures Finish(j, w, t) == Finish(j, if j.env.remote.gitFound then Decided(w, head) else w.Fail(), t)
  {
    FinishUnfold(j, w, t);
  }

  lemma CheckInPlace(j: Job, w: State, t: Tree)
    requires w.stage == Stage.Sync(Mirror.Check) && w.outcome.branch == Undecided && !j.UsesScratch()
    ensures var (ok, u) := Mirror.Sync(j.env.remote, j.place, Mirror.Check, t);
            var b := if !j.env.remote.gitFound then Undecided else if j.place.dir + ["HEAD"] in t then Updated else Cloned;
            Finish(j, w, t) == Finish(j, Synced(Branched(w, b), ok), u)
  {
    var head := j.place.dir + ["HEAD"] in t;
    CheckSteps(j, w, t, head);
    SyncChecks(j.env.remote, j.place, t, head);
    var (ok, u) := Mirror.Sync(j.env.remote, j.place, Mirror.Check, t);
    DecidedSynced(w, head, u, ok);
    if j.env.remote.gitFound {
      SyncInPlace(j, Decided(w, head), t);
    }
  }

  /** Where mirrorRepo puts the mirror: in the destination tree, or in a scratch directory of
      its own. `w` is the worker as it enters Sync. */
  method Prepare(d: Disk, j: Job) returns (ok: bool, home: Disk, ghost w: State)
    modifies d
    ensures if j.UsesScratch() then fresh(home) && d.tree == old(d.tree) else home == d
    ensures !ok ==> Finish(j, FRESH, old(d.tree)) == (FRESH.Fail(), d.tree)
    ensures ok ==> w.stage == Stage.Sync(Mirror.Check) && w.outcome == FRESH.outcome
                   && (j.UsesScratch() ==> w.scratch == home.tree)
                   && Finish(j, FRESH, old(d.tree)) == Finish(j, w, d.tree)
  {
    FinishUnfold(j, FRESH, d.tree);
    w := FRESH;
    home := d;
    if j.UsesScratch() {
      home := new Disk(map[[] := Dir(0x1C0)]);
      if !j.env.scratchOk {
        return false, home, w;
      }
      w := FRESH.(stage := MakeParent, scratch := home.tree);
      FinishUnfold(j, w, d.tree);
    } else {
      w := FRESH.Go(MakeParent);
      FinishUnfold(j, w, d.tree);
      var made := d.MkdirAll(Front(j.place.dir), j.env.parentOk);
      if !made {
        return false, home, w;
      }
    }
    w := w.Go(Stage.Sync(Mirror.Check));
    ok := true;
  }

  /** The rest of mirrorRepo once Sync has succeeded: metadata, then the archive if it is
      wanted. `home` holds the mirror. */
  method AfterSyncing(d: Disk, home: Disk, j: Job, synced: Outcome, ghost w: State) returns (o: Outcome)
    requires Separate(j) && w.stage == MakeExportDir(0) && w.outcome == synced
    requires synced.exported == 0 && !synced.failed && !synced.archived
    requires if j.UsesScratch() then home != d && w.scratch == home.tree else home == d
    modifies d
    ensures o == Finish(j, w, old(d.tree)).0.outcome && d.tree == Finish(j, w, old(d.tree)).1
  {
    var exported, failed := ExportMetadata(d, j, w);
    o := synced.(exported := exported, failed := failed);
    ghost var w' := Exporting(w, |j.exporters|, exported, failed);
    FinishUnfold(j, w', d.tree);
    if !j.wantsArchive {
      return;
    }
    var place := if j.UsesScratch() then j.scratch else j.place;
    var m := home.Read(place.dir);
    var archived := ArchiveRepo(d, j, m, w'.Go(MakeArchiveParent));
    if !archived {
      return o.(failed := true);
    }
    o := o.(archived := true);
  }

  /** mirrorRepo: never an error, only an outcome; it is the worker run to its end. */
  method MirrorRepo(d: Disk, j: Job) returns (o: Outcome)
    requires Separate(j)
    modifies d
    ensures o == Finish(j, FRESH, old(d.tree)).0.outcome && d.tree == Finish(j, FRESH, old(d.tree)).1
  {
    var ready, home, w0 := Prepare(d, j);
    ghost var w := w0;
    o := FRESH.outcome;
    if !ready {
      return o.(failed := true);
    }
    SyncFromCheck(j, w, d.tree);
    var place := if j.UsesScratch() then j.scratch else j.place;
    var synced, branch := Sync(home, j.env.remote, place);
    w := Synced(Branched(if j.UsesScratch() then w.(scratch := home.tree) else w, branch), synced);
    o := o.(branch := branch);
    if !synced {
      return o.(failed := true);
    }
    o := AfterSyncing(d, home, j, o.(synced := true), w);
  }

  /** runCounters, with the calls into opts.Progress kept in order. */
  class RunCounters {
    var counters: Counters
    var done: nat
    var calls: seq<(nat, nat)>
    const total: nat

    constructor (total: nat)
      ensures this.total == total && done == 0 && calls == [] && counters == Counters(0, 0, 0, 0, 0)
    {
      this.total, done, calls, counters := total, 0, [], Counters(0, 0, 0, 0, 0);
    }

    method ReportDone()
      modifies this`done, this`calls
      ensures done == old(done) + 1 && calls == old(calls) + [(done, total)]
    {
      done := done + 1;
      calls := calls + [(done, total)];
    }

    /** The part of runRepo that folds one outcome in. */
    method Fold(o: Outcome)
      modifies this`counters
      ensures counters == Add(old(counters), Counters(Bit(o.synced), 0, Bit(o.failed), Bit(o.archived), o.exported))
    {
      if o.synced {
        counters := counters.(synced := counters.synced + 1);
      }
      if o.archived {
        counters := counters.(archived := counters.archived + 1);
      }
      if o.failed {
        counters := counters.(failed := counters.failed + 1);
      }
      counters := counters.(exported := counters.exported + o.exported);
    }
  }

  /** runRepo: one repository, its outcome folded in and reported. */
  method RunRepo(d: Disk, j: Job, c: RunCounters)
    requires Separate(j)
    modifies d, c
    ensures (c.counters, d.tree) == (Add(old(c.counters), Whole(Did(Finish(j, FRESH, old(d.tree)).0))), Finish(j, FRESH, old(d.tree)).1)
    ensures c.done == old(c.done) + 1 && c.calls == old(c.calls) + [(c.done, c.total)]
  {
    var o := MirrorRepo(d, j);
    c.Fold(o);
    c.ReportDone();
  }

  /** The progress calls (1, total), (2, total), ..., (n, total). */
  function Ticks(n: nat, total: nat): seq<(nat, nat)> {
    seq(n, k => (k + 1, total))
  }

  lemma TicksNext(n: nat, total: nat)
    ensures Ticks(n + 1, total) == Ticks(n, total) + [(n + 1, total)]
  {
  }

  lemma OneAtATimeNext(cfg: Config, i: nat, t: Tree, c: Counters)
    requires cfg.Valid() && i < |cfg.repos|
    ensures cfg.repos[i].empty ==> OneAtATime(cfg, i, t, c) == OneAtATime(cfg, i + 1, t, Add(c, Whole(Skip)))
    ensures !cfg.repos[i].empty ==>
              var (w, u) := Finish(cfg.jobs[i], FRESH, t);
              OneAtATime(cfg, i, t, c) == OneAtATime(cfg, i + 1, u, Add(c, Whole(Did(w))))
  {
  }

  /** One turn of the loop: an empty repository is only reported. */
  method RunNext(d: Disk, cfg: Config, i: nat, c: RunCounters)
    requires cfg.Valid() && i < |cfg.repos| && Separate(cfg.jobs[i])
    modifies d, c
    ensures OneAtATime(cfg, i + 1, d.tree, c.counters) == OneAtATime(cfg, i, old(d.tree), old(c.counters))
    ensures c.done == old(c.done) + 1 && c.calls == old(c.calls) + [(c.done, c.total)]
  {
    OneAtATimeNext(cfg, i, d.tree, c.counters);
    if cfg.repos[i].empty {
      c.counters := c.counters.(skipped := c.counters.skipped + 1);
      c.ReportDone();
      return;
    }
    RunRepo(d, cfg.jobs[i], c);
  }

  /** Run's loop with no concurrency at all: what every interleaving of the machine amounts
      to, progress calls included. */
  method RunInOrder(d: Disk, cfg: Config) returns (c: RunCounters)
    requires cfg.Valid() && forall i :: 0 <= i < |cfg.jobs| ==> Separate(cfg.jobs[i])
    modifies d
    ensures fresh(c)
    ensures (c.counters, d.tree) == OneAtATime(cfg, 0, old(d.tree), Counters(0, 0, 0, 0, 0))
    ensures |c.calls| == |cfg.repos| && forall k :: 0 <= k < |c.calls| ==> c.calls[k] == (k + 1, |cfg.repos|)
  {
    c := new RunCounters(|cfg.repos|);
    for i := 0 to |cfg.repos|
      invariant fresh(c) && c.total == |cfg.repos| && c.done == |c.calls| == i
      invariant c.calls == Ticks(i, |cfg.repos|)
      invariant OneAtATime(cfg, i, d.tree, c.counters) == OneAtATime(cfg, 0, old(d.tree), Counters(0, 0, 0, 0, 0))
    {
      TicksNext(i, |cfg.repos|);
      RunNext(d, cfg, i, c);
    }
  }
}
