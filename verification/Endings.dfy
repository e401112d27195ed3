/** How the work on one repository ends, exactly: its outcome and what it leaves on disk, told
    from the tree and the outside world's answers before it begins. */
module Endings {
  import opened Names
  import opened Trees
  import opened Worker
  import opened Locality
  import opened Soundness
  import Mirror
  import Sequential

  /** A new scratch directory. */
  const SCRATCH: Tree := map[[] := Dir(0x1C0)]   // octal 0700

  /* ---- what stays alike on the way ---- */

  /** As far as making `dir` and looking into it goes, `u` is like `t`. */
  ghost predicate Alike(t: Tree, u: Tree, dir: Key) {
    && (forall k :: dir <= k ==> SameAt(t, u, k))
    && (forall k :: k <= dir ==> (NonDir(t, k) <==> NonDir(u, k)))
  }

  lemma AlikeTwice(t: Tree, u: Tree, v: Tree, dir: Key)
    requires Alike(t, u, dir) && Alike(u, v, dir)
    ensures Alike(t, v, dir)
  {
    forall k | dir <= k ensures SameAt(t, v, k) {
      assert SameAt(t, u, k) && SameAt(u, v, k);
    }
    forall k | k <= dir ensures NonDir(t, k) <==> NonDir(v, k) {
      assert (NonDir(t, k) <==> NonDir(u, k)) && (NonDir(u, k) <==> NonDir(v, k));
    }
  }

  lemma MkdirAlike(t: Tree, u: Tree, dir: Key, sub: Key)
    requires Alike(t, u, dir) && sub <= dir
    ensures MkdirAll(t, sub).Ok? <==> MkdirAll(u, sub).Ok?
  {
    if MkdirAll(t, sub).Err? {
      var k :| k <= sub && k in t && !t[k].Dir?;
      assert NonDir(t, k);
    }
    if MkdirAll(u, sub).Err? {
      var k :| k <= sub && k in u && !u[k].Dir?;
      assert NonDir(u, k);
    }
  }

  lemma MadeAlike(t: Tree, u: Tree, dir: Key)
    requires Alike(t, u, dir) && MkdirAll(t, dir).Ok? && MkdirAll(u, dir).Ok?
    ensures Subtree(MkdirAll(t, dir).value, dir) == Subtree(MkdirAll(u, dir).value, dir)
  {
    var t', u' := MkdirAll(t, dir).value, MkdirAll(u, dir).value;
    forall k | dir <= k ensures SameAt(t', u', k) {
      assert SameAt(t, u, k);
    }
    SubtreeUnchanged(t', u', dir);
  }

  /** A change elsewhere, or a new directory above, is no change to a name. */
  lemma AlikeAside(t: Tree, u: Tree, dir: Key)
    requires forall k :: dir <= k ==> SameAt(t, u, k)
    requires forall k :: k < dir ==> SameAt(t, u, k) || NewDir(t, u, k)
    ensures Alike(t, u, dir)
  {
    forall k | k <= dir ensures NonDir(t, k) <==> NonDir(u, k) {
      assert k < dir || k == dir;
      assert SameAt(t, u, k) || NewDir(t, u, k);
    }
  }

  /* ---- mirroring ---- */

  /** The worker gets its mirror. */
  ghost predicate GetsSynced(j: Job, t: Tree) {
    if j.UsesScratch() then j.env.scratchOk && Mirror.Works(j.env.remote, j.scratch, SCRATCH)
    else ParentMade(j, t) && Mirror.Works(j.env.remote, j.place, t)
  }

  /** What it then is. */
  ghost function MirrorOf(j: Job, t: Tree): Tree {
    if j.UsesScratch() then Mirror.Synced(j.env.remote, j.scratch, SCRATCH) else Mirror.Synced(j.env.remote, j.place, t)
  }

  /** Nothing but the mirror, its `.partial` and missing parents changes. */
  ghost predicate OnlyMirror(j: Job, t: Tree, u: Tree) {
    forall k :: !(j.place.dir <= k) && !(j.place.partial <= k) ==>
      SameAt(t, u, k) || (NewDir(t, u, k) && k <= Front(j.place.dir))
  }

  lemma WorksAlike(r: Mirror.Remote, p: Mirror.Place, t: Tree, u: Tree)
    requires forall k :: p.dir <= k ==> SameAt(t, u, k)
    ensures Mirror.Works(r, p, t) <==> Mirror.Works(r, p, u)
    ensures Mirror.Synced(r, p, t) == Mirror.Synced(r, p, u)
  {
    SubtreeUnchanged(t, u, p.dir);
    assert SameAt(t, u, p.dir) && SameAt(t, u, p.dir + ["HEAD"]);
  }

  /** The worker before Sync: in its scratch directory, or below a parent that is there. */
  lemma UpToSync(j: Job, t: Tree) returns (w: State, u: Tree)
    requires Placed(j)
    ensures Finish(j, FRESH, t) == Finish(j, w, u)
    ensures w.outcome == FRESH.outcome.(failed := w.stage.Ended?)
    ensures w.stage == if (if j.UsesScratch() then j.env.scratchOk else ParentMade(j, t)) then Stage.Sync(Mirror.Check) else Ended
    ensures j.UsesScratch() ==> u == t && (w.stage.Sync? ==> w.scratch == SCRATCH)
    ensures !j.UsesScratch() ==> u == if ParentMade(j, t) then MkdirAll(t, Front(j.place.dir)).value else t
  {
    FinishUnfold(j, FRESH, t);
    u := t;
    if j.UsesScratch() {
      if !j.env.scratchOk {
        return FRESH.Fail(), t;
      }
      w := FRESH.(stage := MakeParent, scratch := SCRATCH);
      FinishUnfold(j, w, t);
    } else {
      w := FRESH.Go(MakeParent);
      FinishUnfold(j, w, t);
      if !ParentMade(j, t) {
        return w.Fail(), t;
      }
      u := MkdirAll(t, Front(j.place.dir)).value;
    }
    w := w.Go(Stage.Sync(Mirror.Check));
  }

  /** The worker once Sync is over. */
  lemma SyncPhase(j: Job, t: Tree) returns (w: State, u: Tree)
    requires Placed(j)
    ensures Finish(j, FRESH, t) == Finish(j, w, u)
    ensures w.stage == if GetsSynced(j, t) then MakeExportDir(0) else Ended
    ensures w.outcome.synced == GetsSynced(j, t) && w.outcome.failed == !GetsSynced(j, t)
    ensures !w.outcome.archived && w.outcome.exported == 0
    ensures GetsSynced(j, t) ==> Source(j, w, u) == MirrorOf(j, t)
    ensures OnlyMirror(j, t, u) && (j.UsesScratch() ==> u == t)
  {
    var w1, t1 := UpToSync(j, t);
    if w1.stage.Ended? {
      return w1, t1;
    }
    Sequential.SyncFromCheck(j, w1, t1);
    if j.UsesScratch() {
      w, u := SyncedInScratch(j, w1, t);
    } else {
      w, u := SyncedInPlace(j, w1, t, t1);
    }
  }

  lemma SyncedInScratch(j: Job, w: State, t: Tree) returns (w': State, u: Tree)
    requires Placed(j) && j.UsesScratch() && w.stage == Stage.Sync(Mirror.Check) && w.scratch == SCRATCH && w.outcome == FRESH.outcome
    ensures Finish(j, w, t) == Finish(j, w', u) && u == t
    ensures var ok := Mirror.Works(j.env.remote, j.scratch, SCRATCH);
            && w'.stage == (if ok then MakeExportDir(0) else Ended)
            && w'.outcome.synced == ok && w'.outcome.failed == !ok && !w'.outcome.archived && w'.outcome.exported == 0
            && (ok ==> Source(j, w', u) == Mirror.Synced(j.env.remote, j.scratch, SCRATCH))
  {
    Sequential.SyncFromCheck(j, w, t);
    Mirror.SyncExactly(j.env.remote, j.scratch, SCRATCH);
    var (ok, v) := Mirror.Sync(j.env.remote, j.scratch, Mirror.Check, SCRATCH);
    var b := if !j.env.remote.gitFound then Undecided else if j.scratch.dir + ["HEAD"] in w.scratch then Updated else Cloned;
    w', u := Sequential.Synced(Sequential.Branched(w.(scratch := v), b), ok), t;
  }

  lemma SyncedInPlace(j: Job, w: State, t: Tree, t1: Tree) returns (w': State, u: Tree)
    requires Placed(j) && !j.UsesScratch() && w.stage == Stage.Sync(Mirror.Check) && w.outcome == FRESH.outcome
    requires ParentMade(j, t) && t1 == MkdirAll(t, Front(j.place.dir)).value
    ensures Finish(j, w, t1) == Finish(j, w', u) && OnlyMirror(j, t, u)
    ensures var ok := Mirror.Works(j.env.remote, j.place, t);
            && w'.stage == (if ok then MakeExportDir(0) else Ended)
            && w'.outcome.synced == ok && w'.outcome.failed == !ok && !w'.outcome.archived && w'.outcome.exported == 0
            && (ok ==> Source(j, w', u) == Mirror.Synced(j.env.remote, j.place, t))
  {
    Sequential.SyncFromCheck(j, w, t1);
    Mirror.SyncExactly(j.env.remote, j.place, t1);
    ParentOutsideRoots(j, Slot.Mirror, Slot.Mirror);
    WorksAlike(j.env.remote, j.place, t, t1);
    var (ok, v) := Mirror.Sync(j.env.remote, j.place, Mirror.Check, t1);
    var b := if !j.env.remote.gitFound then Undecided else if j.place.dir + ["HEAD"] in t1 then Updated else Cloned;
    w', u := Sequential.Synced(Sequential.Branched(w, b), ok), v;
    forall k | !(j.place.dir <= k) && !(j.place.partial <= k) ensures SameAt(t, u, k) || (NewDir(t, u, k) && k <= Front(j.place.dir)) {
      Mirror.SyncStaysPut(j.env.remote, j.place, Mirror.Check, t1, k);
    }
  }

  /** Mirroring leaves every name beside the mirror alike. */
  lemma AlikeAfterSync(j: Job, t: Tree, u: Tree, dir: Key)
    requires OnlyMirror(j, t, u)
    requires !(j.place.dir <= dir) && !(dir <= j.place.dir) && !(j.place.partial <= dir) && !(dir <= j.place.partial)
    ensures Alike(t, u, dir)
  {
    forall k | dir <= k ensures SameAt(t, u, k) {
      if j.place.dir <= k {
        PrefixesNest(j.place.dir, dir, k);
      }
      if j.place.partial <= k {
        PrefixesNest(j.place.partial, dir, k);
      }
      assert k <= Front(j.place.dir) ==> dir <= j.place.dir;
    }
    AlikeAside(t, u, dir);
  }

  /* ---- exporting ---- */

  /** The work orders name no kind of metadata twice. */
  predicate KindsDiffer(kinds: seq<Kind>) {
    forall a, b :: 0 <= a < b < |kinds| ==> kinds[a] != kinds[b]
  }

  /** What exporter `i` is given and leaves, if its directory can be made. */
  ghost function Attempted(j: Job, t: Tree, i: nat): Mirror.Attempt
    requires i < |j.exporters| && ExportDirMade(j, t, i)
  {
    Exported(j, MkdirAll(t, j.ExportDir(i)).value, i)
  }

  ghost predicate ExportWorks(j: Job, t: Tree, i: nat) {
    j.Selected(i) && ExportDirMade(j, t, i) && Attempted(j, t, i).ok
  }

  ghost function Those(k: nat, n: nat, f: nat -> bool): set<nat> {
    set i: nat | k <= i < n && f(i)
  }

  lemma ThoseNext(k: nat, n: nat, f: nat -> bool, g: nat -> bool)
    requires k < n && forall i :: k < i < n ==> f(i) == g(i)
    ensures |Those(k, n, f)| == |Those(k + 1, n, g)| + if f(k) then 1 else 0
  {
    var rest := Those(k + 1, n, g);
    assert Those(k, n, f) == if f(k) then rest + {k} else rest;
  }

  /** The exporters from number `k` on that work. */
  ghost function Delivering(j: Job, t: Tree, k: nat): set<nat> {
    Those(k, |j.exporters|, (i: nat) => ExportWorks(j, t, i))
  }

  ghost predicate SomeExportFails(j: Job, t: Tree, k: nat) {
    exists i :: k <= i < |j.exporters| && j.Selected(i) && !ExportWorks(j, t, i)
  }

  /** What is in exporter `i`'s directory afterwards: what it left, if it was selected and its
      directory could be made, and else what was there. */
  ghost predicate ExportedAt(j: Job, t: Tree, u: Tree, i: nat)
    requires i < |j.exporters|
  {
    if j.Selected(i) && ExportDirMade(j, t, i) then Subtree(u, j.ExportDir(i)) == Attempted(j, t, i).tree
    else forall k :: j.ExportDir(i) <= k ==> SameAt(t, u, k)
  }

  /** Nothing but the directories of the selected exporters from number `k` on changes, and
      missing parents. */
  ghost predicate OnlyExports(j: Job, t: Tree, u: Tree, k: nat) {
    forall key :: (forall i :: k <= i < |j.exporters| && j.Selected(i) ==> !(j.ExportDir(i) <= key)) ==>
      SameAt(t, u, key) || (NewDir(t, u, key) && key <= j.metadata)
  }

  lemma KindsAreNamedApart(a: Kind, b: Kind)
    requires a.DirName() == b.DirName()
    ensures a == b
  {
  }

  lemma ExportDirsApart(j: Job, a: nat, b: nat)
    requires KindsDiffer(j.exporters) && a < |j.exporters| && b < |j.exporters| && a != b
    ensures !(j.ExportDir(a) <= j.ExportDir(b))
  {
    if j.ExportDir(a) <= j.ExportDir(b) {
      assert j.ExportDir(a)[|j.metadata|] == j.ExportDir(b)[|j.metadata|];
      KindsAreNamedApart(j.exporters[a], j.exporters[b]);
    }
  }

  lemma ExportAlike(j: Job, t: Tree, u: Tree, i: nat)
    requires i < |j.exporters| && Alike(t, u, j.ExportDir(i))
    ensures ExportDirMade(j, t, i) <==> ExportDirMade(j, u, i)
    ensures ExportDirMade(j, t, i) ==> Attempted(j, t, i) == Attempted(j, u, i)
    ensures ExportWorks(j, t, i) <==> ExportWorks(j, u, i)
  {
    MkdirAlike(t, u, j.ExportDir(i), j.ExportDir(i));
    if ExportDirMade(j, t, i) {
      MadeAlike(t, u, j.ExportDir(i));
    }
  }

  lemma OnlyExportsTwice(j: Job, t: Tree, u: Tree, v: Tree, k: nat)
    requires k < |j.exporters| && OnlyExports(j, u, v, k + 1) && OnlyExports(j, t, u, k)
    ensures OnlyExports(j, t, v, k)
  {
    forall key | forall i :: k <= i < |j.exporters| && j.Selected(i) ==> !(j.ExportDir(i) <= key)
      ensures SameAt(t, v, key) || (NewDir(t, v, key) && key <= j.metadata)
    {
      assert SameAt(t, u, key) || (NewDir(t, u, key) && key <= j.metadata);
      assert SameAt(u, v, key) || (NewDir(u, v, key) && key <= j.metadata);
    }
  }

  /** After exporter `k` is through, the later ones find their directories alike. */
  lemma LaterAlike(j: Job, t: Tree, u: Tree, k: nat, i: nat)
    requires KindsDiffer(j.exporters) && k < i < |j.exporters|
    requires forall key :: !(j.ExportDir(k) <= key) ==> SameAt(t, u, key) || (NewDir(t, u, key) && key <= j.metadata)
    ensures Alike(t, u, j.ExportDir(i))
  {
    ExportDirsApart(j, k, i);
    ExportDirsApart(j, i, k);
    forall key | j.ExportDir(i) <= key ensures SameAt(t, u, key) {
      if j.ExportDir(k) <= key {
        PrefixesNest(j.ExportDir(k), j.ExportDir(i), key);
      }
      assert !(key <= j.metadata);
    }
    forall key | key < j.ExportDir(i) ensures SameAt(t, u, key) || NewDir(t, u, key) {
      assert !(j.ExportDir(k) <= key);
    }
    AlikeAside(t, u, j.ExportDir(i));
  }

  /** One exporter's turn. */
  lemma ExportTurn(j: Job, w: State, t: Tree, k: nat) returns (w': State, u: Tree)
    requires k < |j.exporters| && w.stage == MakeExportDir(k)
    ensures Finish(j, w, t) == Finish(j, w', u)
    ensures w' == Sequential.Exporting(w, k + 1, w.outcome.exported + (if ExportWorks(j, t, k) then 1 else 0),
                                       w.outcome.failed || (j.Selected(k) && !ExportWorks(j, t, k)))
    ensures forall key :: !(j.ExportDir(k) <= key) ==> SameAt(t, u, key) || (NewDir(t, u, key) && key <= j.metadata)
    ensures !j.Selected(k) ==> u == t
    ensures ExportedAt(j, t, u, k)
  {
    u := t;
    if !j.Selected(k) {
      FinishUnfold(j, w, t);
      w' := Sequential.Exporting(w, k + 1, w.outcome.exported, w.outcome.failed);
    } else if !ExportDirMade(j, t, k) {
      Sequential.ExportSkipped(j, k, w, t);
      w' := Sequential.Exporting(w, k + 1, w.outcome.exported, true);
    } else {
      w', u := ExportDone(j, w, t, k);
    }
  }

  lemma ExportDone(j: Job, w: State, t: Tree, k: nat) returns (w': State, u: Tree)
    requires k < |j.exporters| && w.stage == MakeExportDir(k) && j.Selected(k) && ExportDirMade(j, t, k)
    ensures Finish(j, w, t) == Finish(j, w', u)
    ensures var ok := Attempted(j, t, k).ok;
            w' == Sequential.Exporting(w, k + 1, w.outcome.exported + (if ok then 1 else 0), w.outcome.failed || !ok)
    ensures forall key :: !(j.ExportDir(k) <= key) ==> SameAt(t, u, key) || (NewDir(t, u, key) && key <= j.metadata)
    ensures Subtree(u, j.ExportDir(k)) == Attempted(j, t, k).tree
  {
    var dir := j.ExportDir(k);
    var t1 := MkdirAll(t, dir).value;
    Sequential.ExportBegins(j, k, w, t);
    Sequential.ExportEnds(j, k, w, t1);
    var a := Attempted(j, t, k);
    u := Graft(t1, dir, a.tree);
    w' := Sequential.Exporting(w, k + 1, w.outcome.exported + (if a.ok then 1 else 0), w.outcome.failed || !a.ok);
    SubtreeOfGraft(t1, dir, a.tree);
    forall key | !(dir <= key) ensures SameAt(t, u, key) || (NewDir(t, u, key) && key <= j.metadata) {
      assert SameAt(u, t1, key);
      assert key <= dir ==> key <= j.metadata;
    }
  }

  lemma DeliveringNext(j: Job, t: Tree, u: Tree, k: nat)
    requires k < |j.exporters| && forall i :: k < i < |j.exporters| ==> (ExportWorks(j, t, i) <==> ExportWorks(j, u, i))
    ensures |Delivering(j, t, k)| == |Delivering(j, u, k + 1)| + if ExportWorks(j, t, k) then 1 else 0
  {
    ThoseNext(k, |j.exporters|, (i: nat) => ExportWorks(j, t, i), (i: nat) => ExportWorks(j, u, i));
  }

  lemma FailsNext(j: Job, t: Tree, u: Tree, k: nat)
    requires k < |j.exporters| && forall i :: k < i < |j.exporters| ==> (ExportWorks(j, t, i) <==> ExportWorks(j, u, i))
    ensures SomeExportFails(j, t, k) <==> (j.Selected(k) && !ExportWorks(j, t, k)) || SomeExportFails(j, u, k + 1)
  {
    if i :| k <= i < |j.exporters| && j.Selected(i) && !ExportWorks(j, t, i) {
      assert i == k || !ExportWorks(j, u, i);
    }
    if i :| k + 1 <= i < |j.exporters| && j.Selected(i) && !ExportWorks(j, u, i) {
      assert !ExportWorks(j, t, i);
    }
  }

  /** A later turn leaves what an earlier one left. */
  lemma EarlierKept(j: Job, t: Tree, u: Tree, v: Tree, k: nat)
    requires KindsDiffer(j.exporters) && k < |j.exporters| && ExportedAt(j, t, u, k) && OnlyExports(j, u, v, k + 1)
    ensures ExportedAt(j, t, v, k)
  {
    var dir := j.ExportDir(k);
    forall key | dir <= key ensures SameAt(u, v, key) {
      forall i | k + 1 <= i < |j.exporters| && j.Selected(i) ensures !(j.ExportDir(i) <= key) {
        ExportDirsApart(j, i, k);
        ExportDirsApart(j, k, i);
        if j.ExportDir(i) <= key {
          PrefixesNest(j.ExportDir(i), dir, key);
        }
      }
      assert !(key <= j.metadata);
    }
    SubtreeUnchanged(u, v, dir);
    if !(j.Selected(k) && ExportDirMade(j, t, k)) {
      forall key | dir <= key ensures SameAt(t, v, key) {
        assert SameAt(t, u, key) && SameAt(u, v, key);
      }
    }
  }

  lemma LaterExported(j: Job, t: Tree, u: Tree, v: Tree, i: nat)
    requires i < |j.exporters| && Alike(t, u, j.ExportDir(i)) && ExportedAt(j, u, v, i)
    ensures ExportedAt(j, t, v, i)
  {
    ExportAlike(j, t, u, i);
    if !(j.Selected(i) && ExportDirMade(j, t, i)) {
      forall key | j.ExportDir(i) <= key ensures SameAt(t, v, key) {
        assert SameAt(t, u, key) && SameAt(u, v, key);
      }
    }
  }

  /** The worker from exporter `k` on to the last. */
  lemma {:induction false} ExportPhase(j: Job, w: State, t: Tree, k: nat) returns (w': State, u: Tree)
    requires KindsDiffer(j.exporters) && k <= |j.exporters| && w.stage == MakeExportDir(k)
    ensures Finish(j, w, t) == Finish(j, w', u)
    ensures w' == Sequential.Exporting(w, |j.exporters|, w.outcome.exported + |Delivering(j, t, k)|, w.outcome.failed || SomeExportFails(j, t, k))
    ensures OnlyExports(j, t, u, k)
    ensures forall i :: k <= i < |j.exporters| ==> ExportedAt(j, t, u, i)
    decreases |j.exporters| - k
  {
    if k == |j.exporters| {
      assert Delivering(j, t, k) == {};
      w', u := w, t;
    } else {
      var w1, t1 := ExportTurn(j, w, t, k);
      w', u := ExportPhase(j, w1, t1, k + 1);
      forall i | k < i < |j.exporters|
        ensures (ExportWorks(j, t, i) <==> ExportWorks(j, t1, i)) && ExportedAt(j, t, u, i)
      {
        LaterAlike(j, t, t1, k, i);
        ExportAlike(j, t, t1, i);
        LaterExported(j, t, t1, u, i);
      }
      DeliveringNext(j, t, t1, k);
      FailsNext(j, t, t1, k);
      EarlierKept(j, t, t1, u, k);
      OnlyExportsTwice(j, t, t1, u, k);
    }
  }

  /** Exporting leaves every name beside the metadata alike. */
  lemma AlikeAfterExports(j: Job, t: Tree, u: Tree, k: nat, dir: Key)
    requires OnlyExports(j, t, u, k) && !(j.metadata <= dir) && !(dir <= j.metadata)
    ensures Alike(t, u, dir)
  {
    forall key | dir <= key ensures SameAt(t, u, key) {
      forall i | k <= i < |j.exporters| && j.Selected(i) ensures !(j.ExportDir(i) <= key) {
        if j.ExportDir(i) <= key {
          PrefixesNest(j.metadata, dir, key);
        }
      }
    }
    forall key | key < dir ensures SameAt(t, u, key) || NewDir(t, u, key) {
      forall i | k <= i < |j.exporters| && j.Selected(i) ensures !(j.ExportDir(i) <= key) {
        assert j.metadata <= j.ExportDir(i);
      }
    }
    AlikeAside(t, u, dir);
  }

  /* ---- archiving ---- */

  /** The archive of the mirror `m` gets written and renamed into place. */
  ghost predicate Archives(j: Job, t: Tree, m: Tree) {
    ArchiveParentMade(j, t) && FileArchives(j, t, m)
  }

  ghost predicate FileArchives(j: Job, t: Tree, m: Tree) {
    && j.env.createOk && IsDir(m, []) && !IsDir(t, j.tmp)
    && j.env.writeOk && j.pack(m).Ok?
    && j.env.renameOk && !IsDir(t, j.out)
  }

  /** Archiving leaves mirror, `.partial` and metadata alone. */
  ghost predicate OnlyArchive(j: Job, t: Tree, u: Tree) {
    forall s: Slot :: !s.Archive? && !s.Temp? ==> RootKept(t, u, Root(j, s))
  }

  /** The end of a worker that is about to archive the mirror `m`: done, or failed with the old
      archive left as it was. */
  ghost predicate ArchiveEnds(j: Job, w: State, t: Tree, m: Tree, done: bool) {
    var (end, u) := Finish(j, w, t);
    && end.scratch == w.scratch
    && end.outcome == (if done then w.outcome.(archived := true) else w.outcome.(failed := true))
    && (done ==> j.pack(m).Ok? && j.out in u && u[j.out] == File(0x1A4, TarGz(j.pack(m).value, true)))
    && (!done ==> SameAt(t, u, j.out))
    && OnlyArchive(j, t, u)
  }

  lemma OutKept(j: Job, w: State, t: Tree)
    requires Placed(j) && Archiving(w.stage) && !w.stage.RenameTemp?
    ensures SameAt(t, Effect(j, w, t), j.out)
  {
    assert j.out == Root(j, Slot.Archive);
    if !w.stage.MakeArchiveParent? {
      TempKeepsRoot(j, w, t, Slot.Archive);
    } else {
      ParentOutsideRoots(j, Slot.Archive, Slot.Archive);
    }
  }

  lemma OnlyArchiveStep(j: Job, w: State, t: Tree)
    requires Placed(j) && Archiving(w.stage)
    ensures OnlyArchive(j, t, Effect(j, w, t))
  {
    forall s: Slot | !s.Archive? && !s.Temp? ensures RootKept(t, Effect(j, w, t), Root(j, s)) {
      ArchiveKeepsRoots(j, w, t, s);
    }
  }

  lemma StepFails(j: Job, w: State, t: Tree, m: Tree)
    requires Placed(j) && Archiving(w.stage) && Next(j, w, t) == w.Fail() && SameAt(t, Effect(j, w, t), j.out)
    ensures ArchiveEnds(j, w, t, m, false)
  {
    FinishUnfold(j, w, t);
    OnlyArchiveStep(j, w, t);
  }

  lemma StepGoes(j: Job, w: State, t: Tree, m: Tree, next: Stage, done: bool)
    requires Placed(j) && Archiving(w.stage) && !w.stage.RenameTemp? && Next(j, w, t) == w.Go(next)
    requires ArchiveEnds(j, w.Go(next), Effect(j, w, t), m, done)
    ensures ArchiveEnds(j, w, t, m, done)
  {
    FinishUnfold(j, w, t);
    OutKept(j, w, t);
    OnlyArchiveStep(j, w, t);
    forall s: Slot | !s.Archive? && !s.Temp? ensures RootKept(t, Finish(j, w, t).1, Root(j, s)) {
      RootKeptTwice(t, Effect(j, w, t), Finish(j, w, t).1, Root(j, s));
    }
  }

  lemma SourceKept(j: Job, w: State, t: Tree, next: Stage)
    requires Placed(j) && Archiving(w.stage)
    ensures Source(j, w.Go(next), Effect(j, w, t)) == Source(j, w, t)
  {
    assert j.place.dir == Root(j, Slot.Mirror);
    ArchiveKeepsRoots(j, w, t, Slot.Mirror);
  }

  lemma RenameEnds(j: Job, w: State, t: Tree, m: Tree)
    requires Placed(j) && w.stage.RenameTemp? && j.pack(m).Ok?
    requires j.tmp in t && t[j.tmp] == File(0x1A4, TarGz(j.pack(m).value, true))
    ensures ArchiveEnds(j, w, t, m, j.env.renameOk && !IsDir(t, j.out))
  {
    assert CanRename(j, t) <==> j.env.renameOk && !IsDir(t, j.out);
    if CanRename(j, t) {
      FinishUnfold(j, w, t);
      OnlyArchiveStep(j, w, t);
      assert j.tmp + [] == j.tmp && j.out[|j.out|..] == [];
      assert [] in Subtree(t, j.tmp) && Subtree(t, j.tmp)[[]] == t[j.tmp];
    } else {
      StepFails(j, w, t, m);
    }
  }

  lemma CloseEnds(j: Job, w: State, t: Tree, m: Tree)
    requires Placed(j) && w.stage.CloseTemp? && Source(j, w, t) == m
    ensures ArchiveEnds(j, w, t, m, j.env.writeOk && j.pack(m).Ok? && j.env.renameOk && !IsDir(t, j.out))
  {
    OutKept(j, w, t);
    if CanClose(j, w, t) {
      ClosedTemp(j, w, t, m);
      RenameEnds(j, w.Go(RenameTemp), Effect(j, w, t), m);
      StepGoes(j, w, t, m, RenameTemp, j.env.renameOk && !IsDir(t, j.out));
    } else {
      StepFails(j, w, t, m);
    }
  }

  lemma ClosedTemp(j: Job, w: State, t: Tree, m: Tree)
    requires w.stage.CloseTemp? && Source(j, w, t) == m && CanClose(j, w, t)
    ensures var u := Effect(j, w, t); j.tmp in u && u[j.tmp] == File(0x1A4, TarGz(j.pack(m).value, true))
    ensures Next(j, w, t) == w.Go(RenameTemp)
  {
    assert j.tmp[|j.tmp|..] == [];
  }

  lemma FillEnds(j: Job, w: State, t: Tree, m: Tree)
    requires Placed(j) && w.stage.FillTemp? && Source(j, w, t) == m
    ensures ArchiveEnds(j, w, t, m, j.env.writeOk && j.pack(m).Ok? && j.env.renameOk && !IsDir(t, j.out))
  {
    OutKept(j, w, t);
    SourceKept(j, w, t, CloseTemp);
    CloseEnds(j, w.Go(CloseTemp), Effect(j, w, t), m);
    StepGoes(j, w, t, m, CloseTemp, j.env.writeOk && j.pack(m).Ok? && j.env.renameOk && !IsDir(t, j.out));
  }

  lemma CreateEnds(j: Job, w: State, t: Tree, m: Tree)
    requires Placed(j) && w.stage.CreateTemp? && Source(j, w, t) == m
    ensures ArchiveEnds(j, w, t, m, FileArchives(j, t, m))
  {
    OutKept(j, w, t);
    if CanCreate(j, w, t) {
      SourceKept(j, w, t, Stage.FillTemp);
      FillEnds(j, w.Go(Stage.FillTemp), Effect(j, w, t), m);
      StepGoes(j, w, t, m, Stage.FillTemp, j.env.writeOk && j.pack(m).Ok? && j.env.renameOk && !IsDir(t, j.out));
    } else {
      StepFails(j, w, t, m);
    }
  }

  lemma ParentEnds(j: Job, w: State, t: Tree, m: Tree)
    requires Placed(j) && w.stage.MakeArchiveParent? && Source(j, w, t) == m
    ensures ArchiveEnds(j, w, t, m, Archives(j, t, m))
  {
    OutKept(j, w, t);
    if ArchiveParentMade(j, t) {
      SourceKept(j, w, t, CreateTemp);
      OutParentMade(j, w, t, m);
      CreateEnds(j, w.Go(CreateTemp), Effect(j, w, t), m);
      StepGoes(j, w, t, m, CreateTemp, FileArchives(j, t, m));
    } else {
      StepFails(j, w, t, m);
    }
  }

  lemma OutParentMade(j: Job, w: State, t: Tree, m: Tree)
    requires Placed(j) && w.stage.MakeArchiveParent? && ArchiveParentMade(j, t)
    ensures FileArchives(j, Effect(j, w, t), m) == FileArchives(j, t, m) && Next(j, w, t) == w.Go(CreateTemp)
  {
    OutKept(j, w, t);
    ParentOutsideRoots(j, Temp, Slot.Archive);
    assert SameAt(t, Effect(j, w, t), j.tmp);
  }

  /** The worker once its metadata is exported, to its end. */
  lemma ArchivePhase(j: Job, w: State, t: Tree, m: Tree)
    requires Placed(j) && w.stage == MakeExportDir(|j.exporters|) && Source(j, w, t) == m
    ensures if j.wantsArchive then ArchiveEnds(j, w, t, m, Archives(j, t, m))
            else Finish(j, w, t) == (w.Go(Ended), t)
  {
    FinishUnfold(j, w, t);
    if j.wantsArchive {
      ParentEnds(j, w.Go(MakeArchiveParent), t, m);
    }
  }

  /* ---- the whole of it ---- */

  /** The outcome, told from the tree and the answers before. */
  ghost predicate EndsAs(j: Job, t: Tree, o: Outcome) {
    && (o.synced <==> GetsSynced(j, t))
    && (o.archived <==> o.synced && j.wantsArchive && Archives(j, t, MirrorOf(j, t)))
    && (o.failed <==> !o.synced || SomeExportFails(j, t, 0) || (j.wantsArchive && !o.archived))
    && o.exported == if o.synced then |Delivering(j, t, 0)| else 0
  }

  /** The mirror is there, unless it was made in the scratch directory; then the destination
      tree has not seen any of it. */
  ghost predicate LeavesMirror(j: Job, t: Tree, o: Outcome, u: Tree) {
    if j.UsesScratch() then RootKept(t, u, j.place.dir) && RootKept(t, u, j.place.partial)
    else o.synced ==> Subtree(u, j.place.dir) == MirrorOf(j, t)
  }

  ghost predicate LeavesExports(j: Job, t: Tree, o: Outcome, u: Tree) {
    forall i :: 0 <= i < |j.exporters| ==> if o.synced then ExportedAt(j, t, u, i) else RootKept(t, u, j.ExportDir(i))
  }

  /** The archive is the complete one of that very mirror, or the one from before. */
  ghost predicate LeavesArchive(j: Job, t: Tree, o: Outcome, u: Tree) {
    && (o.archived ==> j.pack(MirrorOf(j, t)).Ok?
                       && j.out in u && u[j.out] == File(0x1A4, TarGz(j.pack(MirrorOf(j, t)).value, true)))
    && (!o.archived ==> SameAt(t, u, j.out))
    && (!o.synced || !j.wantsArchive ==> RootKept(t, u, j.out) && RootKept(t, u, j.tmp))
  }

  /** What is then on disk. */
  ghost predicate Leaves(j: Job, t: Tree, o: Outcome, u: Tree) {
    LeavesMirror(j, t, o, u) && LeavesExports(j, t, o, u) && LeavesArchive(j, t, o, u)
  }

  lemma RootsBeside(j: Job, a: Slot, b: Slot)
    requires Separate(j) && a != b
    ensures !(Root(j, a) <= Root(j, b)) && !(Root(j, b) <= Root(j, a))
  {
  }

  lemma ExportDirBeside(j: Job, s: Slot, i: nat)
    requires Separate(j) && !s.Metadata? && i < |j.exporters|
    ensures !(Root(j, s) <= j.ExportDir(i)) && !(j.ExportDir(i) <= Root(j, s))
  {
    ExportDirOutsideRoots(j, s, j.exporters[i].DirName());
    assert Root(j, Metadata) <= j.ExportDir(i);
  }

  lemma AlikeIsKept(t: Tree, u: Tree, dir: Key)
    requires Alike(t, u, dir)
    ensures RootKept(t, u, dir)
  {
    SubtreeUnchanged(t, u, dir);
  }

  /** Mirroring leaves every other name of the worker alike. */
  lemma SyncLeavesAlike(j: Job, t: Tree, u: Tree)
    requires Placed(j) && OnlyMirror(j, t, u)
    ensures forall i :: 0 <= i < |j.exporters| ==> Alike(t, u, j.ExportDir(i))
    ensures Alike(t, u, j.out) && Alike(t, u, j.tmp)
  {
    assert j.place.dir == Root(j, Slot.Mirror) && j.place.partial == Root(j, Partial);
    assert j.out == Root(j, Slot.Archive) && j.tmp == Root(j, Temp);
    forall i | 0 <= i < |j.exporters| ensures Alike(t, u, j.ExportDir(i)) {
      ExportDirBeside(j, Slot.Mirror, i);
      ExportDirBeside(j, Partial, i);
      AlikeAfterSync(j, t, u, j.ExportDir(i));
    }
    forall s: Slot | s.Archive? || s.Temp? ensures Alike(t, u, Root(j, s)) {
      RootsBeside(j, Slot.Mirror, s);
      RootsBeside(j, Partial, s);
      AlikeAfterSync(j, t, u, Root(j, s));
    }
  }

  lemma ExportsLeaveAlike(j: Job, t: Tree, u: Tree, s: Slot)
    requires Placed(j) && OnlyExports(j, t, u, 0) && !s.Metadata?
    ensures Alike(t, u, Root(j, s))
  {
    assert j.metadata == Root(j, Metadata);
    RootsBeside(j, Metadata, s);
    AlikeAfterExports(j, t, u, 0, Root(j, s));
  }

  lemma ArchivesAlike(j: Job, t: Tree, u: Tree, m: Tree)
    requires Alike(t, u, j.out) && Alike(t, u, j.tmp)
    ensures Archives(j, t, m) <==> Archives(j, u, m)
  {
    MkdirAlike(t, u, j.out, Front(j.out));
    assert SameAt(t, u, j.out) && SameAt(t, u, j.tmp);
  }

  lemma DeliveringAlike(j: Job, t: Tree, u: Tree, k: nat)
    requires forall i :: 0 <= i < |j.exporters| ==> Alike(t, u, j.ExportDir(i))
    ensures Delivering(j, t, k) == Delivering(j, u, k)
    ensures SomeExportFails(j, t, k) <==> SomeExportFails(j, u, k)
  {
    forall i: nat | i < |j.exporters| ensures ExportWorks(j, t, i) <==> ExportWorks(j, u, i) {
      ExportAlike(j, t, u, i);
    }
  }

  /** mirrorRepo exactly, whatever works and whatever does not. It syncs if its directory can be
      made and Sync works; each selected exporter then counts or fails by itself; the archive,
      if it is wanted, is written if every step of that works, whatever the exporters did; and
      the repository counts as failed if any of all this did not work. */
  lemma EndsExactly(j: Job, t: Tree)
    requires Placed(j) && KindsDiffer(j.exporters)
    ensures EndsAs(j, t, Finish(j, FRESH, t).0.outcome)
    ensures Leaves(j, t, Finish(j, FRESH, t).0.outcome, Finish(j, FRESH, t).1)
  {
    var w1, u1 := SyncPhase(j, t);
    SyncLeavesAlike(j, t, u1);
    if GetsSynced(j, t) {
      var w2, u2 := ExportPhase(j, w1, u1, 0);
      EndsAfterExports(j, t, w1, u1, w2, u2);
    } else {
      NeverSynced(j, t, w1, u1);
    }
  }

  lemma NeverSynced(j: Job, t: Tree, w: State, u: Tree)
    requires w.stage.Ended? && w.outcome.failed && !w.outcome.synced && !w.outcome.archived && w.outcome.exported == 0
    requires !GetsSynced(j, t) && (j.UsesScratch() ==> u == t)
    requires forall i :: 0 <= i < |j.exporters| ==> Alike(t, u, j.ExportDir(i))
    requires Alike(t, u, j.out) && Alike(t, u, j.tmp)
    ensures EndsAs(j, t, w.outcome) && Leaves(j, t, w.outcome, u)
  {
    forall i | 0 <= i < |j.exporters| ensures RootKept(t, u, j.ExportDir(i)) {
      AlikeIsKept(t, u, j.ExportDir(i));
    }
    AlikeIsKept(t, u, j.out);
    AlikeIsKept(t, u, j.tmp);
  }

  /** Between Sync and the archive: what the first two phases have come to. */
  ghost predicate ReadyToArchive(j: Job, t: Tree, w1: State, u1: Tree, w2: State, u2: Tree) {
    && w1.outcome.synced && !w1.outcome.failed && !w1.outcome.archived && w1.outcome.exported == 0
    && Source(j, w1, u1) == MirrorOf(j, t) && (j.UsesScratch() ==> u1 == t)
    && w2 == Sequential.Exporting(w1, |j.exporters|, |Delivering(j, u1, 0)|, SomeExportFails(j, u1, 0))
    && OnlyExports(j, u1, u2, 0) && (forall i :: 0 <= i < |j.exporters| ==> ExportedAt(j, u1, u2, i))
    && (forall i :: 0 <= i < |j.exporters| ==> Alike(t, u1, j.ExportDir(i)))
    && Alike(t, u1, j.out) && Alike(t, u1, j.tmp)
  }

  lemma EndsAfterExports(j: Job, t: Tree, w1: State, u1: Tree, w2: State, u2: Tree)
    requires Placed(j) && KindsDiffer(j.exporters) && GetsSynced(j, t) && ReadyToArchive(j, t, w1, u1, w2, u2)
    ensures EndsAs(j, t, Finish(j, w2, u2).0.outcome) && Leaves(j, t, Finish(j, w2, u2).0.outcome, Finish(j, w2, u2).1)
  {
    var m := MirrorOf(j, t);
    DeliveringAlike(j, t, u1, 0);
    SourceAfterExports(j, w1, u1, w2, u2);
    AlikeTwice(t, u1, u2, j.out);
    AlikeTwice(t, u1, u2, j.tmp);
    ArchivesAlike(j, t, u2, m);
    ArchivePhase(j, w2, u2, m);
    var (end, u) := Finish(j, w2, u2);
    assert OnlyArchive(j, u2, u) by {
      if !j.wantsArchive {
        OnlyArchiveSame(j, u2);
      }
    }
    MirrorAtEnd(j, t, w1, u1, u2, u, end.outcome);
    ExportsAtEnd(j, t, u1, u2, u, end.outcome);
    ArchiveAtEnd(j, t, u2, u, end.outcome);
  }

  lemma OnlyArchiveSame(j: Job, t: Tree)
    ensures OnlyArchive(j, t, t)
  {
    forall s: Slot ensures RootKept(t, t, Root(j, s)) {
      SameRootKept(t, Root(j, s));
    }
  }

  lemma MirrorAtEnd(j: Job, t: Tree, w1: State, u1: Tree, u2: Tree, u: Tree, o: Outcome)
    requires Source(j, w1, u1) == MirrorOf(j, t) && (j.UsesScratch() ==> u1 == t)
    requires RootKept(u1, u2, j.place.dir) && RootKept(u1, u2, j.place.partial) && OnlyArchive(j, u2, u)
    ensures LeavesMirror(j, t, o, u)
  {
    assert RootKept(u2, u, Root(j, Slot.Mirror)) && RootKept(u2, u, Root(j, Partial));
    RootKeptTwice(u1, u2, u, j.place.dir);
    RootKeptTwice(u1, u2, u, j.place.partial);
  }

  lemma ExportsAtEnd(j: Job, t: Tree, u1: Tree, u2: Tree, u: Tree, o: Outcome)
    requires forall i :: 0 <= i < |j.exporters| ==> ExportedAt(j, u1, u2, i) && Alike(t, u1, j.ExportDir(i))
    requires OnlyArchive(j, u2, u) && o.synced
    ensures LeavesExports(j, t, o, u)
  {
    assert RootKept(u2, u, Root(j, Metadata));
    forall i | 0 <= i < |j.exporters| ensures ExportedAt(j, t, u, i) {
      LaterExported(j, t, u1, u2, i);
      ExportedThrough(j, t, u2, u, i);
    }
  }

  lemma ExportedThrough(j: Job, t: Tree, u2: Tree, u: Tree, i: nat)
    requires i < |j.exporters| && ExportedAt(j, t, u2, i) && RootKept(u2, u, j.metadata)
    ensures ExportedAt(j, t, u, i)
  {
    forall key | j.ExportDir(i) <= key ensures SameAt(u2, u, key) {
      assert j.metadata <= j.ExportDir(i);
    }
    SubtreeUnchanged(u2, u, j.ExportDir(i));
    if !(j.Selected(i) && ExportDirMade(j, t, i)) {
      forall key | j.ExportDir(i) <= key ensures SameAt(t, u, key) {
        assert SameAt(t, u2, key) && SameAt(u2, u, key);
      }
    }
  }

  lemma ArchiveAtEnd(j: Job, t: Tree, u2: Tree, u: Tree, o: Outcome)
    requires Alike(t, u2, j.out) && Alike(t, u2, j.tmp) && o.synced
    requires o.archived ==> j.pack(MirrorOf(j, t)).Ok?
                            && j.out in u && u[j.out] == File(0x1A4, TarGz(j.pack(MirrorOf(j, t)).value, true))
    requires !o.archived ==> SameAt(u2, u, j.out)
    requires !j.wantsArchive ==> u == u2
    ensures LeavesArchive(j, t, o, u)
  {
    assert SameAt(t, u2, j.out);
    AlikeIsKept(t, u2, j.out);
    AlikeIsKept(t, u2, j.tmp);
  }

  lemma SourceAfterExports(j: Job, w1: State, u1: Tree, w2: State, u2: Tree)
    requires Placed(j) && OnlyExports(j, u1, u2, 0) && w2.scratch == w1.scratch
    ensures Source(j, w2, u2) == Source(j, w1, u1)
    ensures RootKept(u1, u2, j.place.dir) && RootKept(u1, u2, j.place.partial)
    ensures Alike(u1, u2, j.out) && Alike(u1, u2, j.tmp)
  {
    assert j.place.dir == Root(j, Slot.Mirror) && j.place.partial == Root(j, Partial);
    assert j.out == Root(j, Slot.Archive) && j.tmp == Root(j, Temp);
    ExportsLeaveAlike(j, u1, u2, Slot.Mirror);
    ExportsLeaveAlike(j, u1, u2, Partial);
    ExportsLeaveAlike(j, u1, u2, Slot.Archive);
    ExportsLeaveAlike(j, u1, u2, Temp);
    AlikeIsKept(u1, u2, j.place.dir);
    AlikeIsKept(u1, u2, j.place.partial);
  }
}
