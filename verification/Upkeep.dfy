/** More that every step of a worker keeps: the tree stays a tree, mirrors and archives that
    were there stay there, and no stray directory starts to look like a mirror. */
module Upkeep {
  import opened Names
  import opened Trees
  import opened Worker
  import opened Locality
  import opened Soundness
  import Mirror

  /* ---- the tree stays a tree ---- */

  /** External commands leave file trees behind, not arbitrary maps. */
  ghost predicate Tidy(j: Job) {
    && WellFormed(j.env.remote.clone.tree)
    && (forall u :: WellFormed(u) ==> WellFormed(j.env.remote.update(u).tree))
    && (forall u :: WellFormed(u) ==> WellFormed(Mirror.SyncLfs(j.env.remote, u).tree))
    && (forall k: nat, u :: WellFormed(u) ==> WellFormed(j.env.exporter(k, u).tree))
    && (j.env.remote.clear.Stuck? ==> forall u :: WellFormed(u) ==> WellFormed(Mirror.Kept(u, j.env.remote.clear.keep)))
    && (forall s, c :: c in Root(j, s) ==> Slashless(c))
    && SlashlessPlace(j.scratch)
  }

  ghost predicate SlashlessPlace(p: Mirror.Place) {
    && Mirror.Beside(p) && p.dir != [] && Front(p.partial) == Front(p.dir) && |p.partial| == |p.dir|
    && (forall c :: c in p.dir ==> Slashless(c)) && (forall c :: c in p.partial ==> Slashless(c))
  }

  lemma SyncWellFormed(j: Job, p: Mirror.Place, s: SyncStage, t: Tree)
    requires Tidy(j) && SlashlessPlace(p) && WellFormed(t) && IsDir(t, Front(p.dir))
    ensures var u := Mirror.Step(j.env.remote, p, s, t).1;
            WellFormed(u) && forall k :: k <= Front(p.dir) ==> SameAt(t, u, k)
  {
    var r := j.env.remote;
    SubtreeWellFormed(t, p.dir);
    SubtreeWellFormed(t, p.partial);
    match s
    case Check =>
    case Clear =>
      match r.clear {
        case Removed => GraftWellFormed(t, p.partial, EMPTY);
        case Stuck(keep) => GraftWellFormed(t, p.partial, Mirror.Kept(Subtree(t, p.partial), keep));
      }
    case Clone => GraftWellFormed(t, p.partial, r.clone.tree);
    case Rename =>
      var t1 := RemoveAll(t, p.partial);
      GraftWellFormed(t, p.partial, EMPTY);
      assert SameAt(t, t1, Front(p.dir));
      GraftWellFormed(t1, p.dir, Subtree(t, p.partial));
      forall k | k <= Front(p.dir) ensures SameAt(t, Graft(t1, p.dir, Subtree(t, p.partial)), k) {
        assert SameAt(t, t1, k);
      }
    case Update => GraftWellFormed(t, p.dir, r.update(Subtree(t, p.dir)).tree);
    case Lfs => GraftWellFormed(t, p.dir, Mirror.SyncLfs(r, Subtree(t, p.dir)).tree);
  }

  /** The directories the coming steps write into are there. */
  ghost predicate Ready(j: Job, w: State, t: Tree) {
    && (w.stage.Sync? && !j.UsesScratch() ==> IsDir(t, Front(j.place.dir)))
    && (j.UsesScratch() && (w.stage.MakeParent? || w.stage.Sync?) ==> WellFormed(w.scratch) && IsDir(w.scratch, Front(j.scratch.dir)))
    && (w.stage.Export? && w.stage.k < |j.exporters| ==> IsDir(t, j.metadata))
    && (w.stage.CreateTemp? || w.stage.FillTemp? || w.stage.CloseTemp? || w.stage.RenameTemp? ==> IsDir(t, Front(j.out)))
  }

  ghost predicate Based(j: Job) {
    && Placed(j) && Tidy(j) && SlashlessPlace(j.place)
    && |j.scratch.dir| == 1 && Front(j.out) == Front(j.tmp) && j.out != [] && |j.tmp| == |j.out|
  }

  ghost predicate Kempt(j: Job, w: State, t: Tree) {
    WellFormed(t) && Ready(j, w, t)
  }

  lemma KemptInSync(j: Job, w: State, t: Tree)
    requires Based(j) && Kempt(j, w, t) && w.stage.Sync?
    ensures Kempt(j, Next(j, w, t), Effect(j, w, t))
  {
    if j.UsesScratch() {
      SyncWellFormed(j, j.scratch, w.stage.s, w.scratch);
      var (s, scratch) := Mirror.Step(j.env.remote, j.scratch, w.stage.s, w.scratch);
      KemptAfterSync(j, w, s, scratch, t);
    } else {
      SyncWellFormed(j, j.place, w.stage.s, t);
      var (s, u) := Mirror.Step(j.env.remote, j.place, w.stage.s, t);
      KemptAfterSync(j, w, s, w.scratch, u);
    }
  }

  lemma KemptAfterSync(j: Job, w: State, s: Mirror.Stage, scratch: Tree, u: Tree)
    requires w.stage.Sync? && WellFormed(u)
    requires if j.UsesScratch() then WellFormed(scratch) && IsDir(scratch, Front(j.scratch.dir)) else IsDir(u, Front(j.place.dir))
    ensures Kempt(j, AfterSync(w.(scratch := scratch), w.stage.s, s), u)
  {
  }

  lemma KemptBeforeSync(j: Job, w: State, t: Tree)
    requires Based(j) && Kempt(j, w, t) && (w.stage.Begin? || w.stage.MakeParent?)
    ensures Kempt(j, Next(j, w, t), Effect(j, w, t))
  {
    if w.stage.MakeParent? {
      if ParentMade(j, t) {
        assert forall c :: c in Front(Root(j, Slot.Mirror)) ==> c in Root(j, Slot.Mirror);
        MkdirAllWellFormed(t, Front(j.place.dir));
      }
    } else {
      assert Front(j.scratch.dir) == [];
    }
  }

  lemma ExportDirParts(j: Job, k: nat)
    requires Tidy(j) && k < |j.exporters|
    ensures Front(j.ExportDir(k)) == j.metadata && j.metadata <= j.ExportDir(k)
    ensures forall c :: c in j.ExportDir(k) ==> Slashless(c)
  {
    assert j.metadata == Root(j, Metadata);
    assert Slashless(j.exporters[k].DirName());
  }

  lemma KemptInExport(j: Job, w: State, t: Tree)
    requires Based(j) && Kempt(j, w, t) && (w.stage.MakeExportDir? || w.stage.Export?)
    ensures Kempt(j, Next(j, w, t), Effect(j, w, t))
  {
    var k := w.stage.k;
    if k < |j.exporters| {
      var dir := j.ExportDir(k);
      ExportDirParts(j, k);
      if w.stage.Export? {
        SubtreeWellFormed(t, dir);
        GraftWellFormed(t, dir, Exported(j, t, k).tree);
      } else if ExportDirMade(j, t, k) {
        MkdirAllWellFormed(t, dir);
      }
    }
  }

  lemma KemptOnRename(j: Job, w: State, t: Tree)
    requires Based(j) && Kempt(j, w, t) && w.stage.RenameTemp?
    ensures WellFormed(Effect(j, w, t))
  {
    assert j.tmp == Root(j, Temp) && j.out == Root(j, Slot.Archive);
    if CanRename(j, t) {
      GraftWellFormed(t, j.tmp, EMPTY);
      var t1 := RemoveAll(t, j.tmp);
      assert SameAt(t, t1, Front(j.out));
      SubtreeWellFormed(t, j.tmp);
      GraftWellFormed(t1, j.out, Subtree(t, j.tmp));
    }
  }

  lemma KemptInTemp(j: Job, t: Tree, s: Tree)
    requires Based(j) && WellFormed(t) && WellFormed(s) && IsDir(t, Front(j.out))
    ensures WellFormed(Graft(t, j.tmp, s)) && IsDir(Graft(t, j.tmp, s), Front(j.out))
  {
    assert j.tmp == Root(j, Temp);
    GraftWellFormed(t, j.tmp, s);
    assert SameAt(t, Graft(t, j.tmp, s), Front(j.out));
  }

  lemma KemptInArchive(j: Job, w: State, t: Tree)
    requires Based(j) && Kempt(j, w, t) && Archiving(w.stage)
    ensures Kempt(j, Next(j, w, t), Effect(j, w, t))
  {
    if w.stage.MakeArchiveParent? {
      KemptInOutParent(j, w, t);
    } else if w.stage.RenameTemp? {
      KemptOnRename(j, w, t);
    } else {
      KemptInTemp(j, t, EMPTY);
      forall data: Blob ensures WellFormed(TempFile(t, j, data)) && IsDir(TempFile(t, j, data), Front(j.out)) {
        KemptInTemp(j, t, map[[] := File(0x1A4, data)]);
      }
    }
  }

  lemma KemptInOutParent(j: Job, w: State, t: Tree)
    requires Based(j) && Kempt(j, w, t) && w.stage.MakeArchiveParent?
    ensures Kempt(j, Next(j, w, t), Effect(j, w, t))
  {
    assert forall c :: c in Front(Root(j, Slot.Archive)) ==> c in Root(j, Slot.Archive);
    if ArchiveParentMade(j, t) {
      MkdirAllWellFormed(t, Front(j.out));
    }
  }

  lemma KemptStep(j: Job, w: State, t: Tree)
    requires Based(j) && Kempt(j, w, t) && !w.stage.Ended?
    ensures Kempt(j, Next(j, w, t), Effect(j, w, t))
  {
    if w.stage.MakeExportDir? || w.stage.Export? {
      KemptInExport(j, w, t);
    } else if Archiving(w.stage) {
      KemptInArchive(j, w, t);
    } else if w.stage.Sync? {
      KemptInSync(j, w, t);
    } else {
      KemptBeforeSync(j, w, t);
    }
  }

  lemma RootParentAbove(j: Job, s: Slot)
    requires Separate(j)
    ensures Above(j, Front(Root(j, s)))
  {
    assert Front(Root(j, s)) < Root(j, s);
  }

  lemma KemptAside(i: Job, j: Job, w: State, t: Tree, u: Tree)
    requires Based(i) && Ready(i, w, t) && Strangers(i, j) && Changed(j, t, u)
    ensures Ready(i, w, u)
  {
    RootParentAbove(i, Slot.Mirror);
    RootParentAbove(i, Slot.Archive);
    RootOwned(i, Metadata);
    StrangerUnseen(i, j, t, u);
    assert SameAt(t, u, Root(i, Metadata));
    assert SameAt(t, u, Front(i.place.dir)) || NewDir(t, u, Front(i.place.dir));
    assert SameAt(t, u, Front(i.out)) || NewDir(t, u, Front(i.out));
  }

  /* ---- nothing backed up is lost ---- */

  ghost predicate HasMirror(j: Job, t: Tree) {
    IsDir(t, j.place.dir)
  }

  ghost predicate HasArchive(j: Job, t: Tree) {
    j.out in t && !t[j.out].Dir?
  }

  lemma MirrorStays(j: Job, s: SyncStage, t: Tree, valid: Tree -> bool)
    requires Placed(j) && HonestRemote(j.env.remote, valid) && HasMirror(j, t)
    ensures IsDir(Mirror.Step(j.env.remote, j.place, s, t).1, j.place.dir)
  {
    var r, p := j.env.remote, j.place;
    var m := Subtree(t, p.dir);
    assert p.dir + [] == p.dir && p.dir[|p.dir|..] == [];
    assert IsDir(m, []);
    match s
    case Check =>
    case Clear =>
      match r.clear {
        case Removed => BesideKept(p, t, EMPTY);
        case Stuck(keep) => BesideKept(p, t, Mirror.Kept(Subtree(t, p.partial), keep));
      }
    case Clone => BesideKept(p, t, r.clone.tree);
    case Rename =>
    case Update => assert IsDir(r.update(m).tree, []);
    case Lfs => assert IsDir(Mirror.SyncLfs(r, m).tree, []);
  }

  lemma ArchiveStaysOnRename(j: Job, w: State, t: Tree)
    requires Placed(j) && HasArchive(j, t) && w.stage.RenameTemp?
    ensures HasArchive(j, ArchiveEffect(j, w, t))
  {
    if CanRename(j, t) {
      var t1 := RemoveAll(t, j.tmp);
      var u := Graft(t1, j.out, Subtree(t, j.tmp));
      assert ArchiveEffect(j, w, t) == u;
      assert j.out[|j.out|..] == [] && j.tmp + [] == j.tmp;
      assert [] in Subtree(t, j.tmp);
      assert j.out in u && u[j.out] == t[j.tmp];
    }
  }

  /** One step never takes away a mirror or an archive that is there. */
  lemma NothingLost(j: Job, valid: Tree -> bool, w: State, t: Tree)
    requires Placed(j) && HonestRemote(j.env.remote, valid) && !w.stage.Ended?
    ensures HasMirror(j, t) ==> HasMirror(j, Effect(j, w, t))
    ensures HasArchive(j, t) ==> HasArchive(j, Effect(j, w, t))
  {
    assert j.place.dir == Root(j, Slot.Mirror) && j.out == Root(j, Slot.Archive) && j.tmp == Root(j, Temp);
    if w.stage.Sync? {
      if !j.UsesScratch() {
        SyncKeepsRoot(j, w.stage.s, t, Slot.Archive);
        assert SameAt(t, Effect(j, w, t), j.out);
        if HasMirror(j, t) {
          MirrorStays(j, w.stage.s, t, valid);
        }
      }
    } else if w.stage.Export? {
      if w.stage.k < |j.exporters| {
        OtherRootKept(j, Slot.Mirror, Metadata, j.ExportDir(w.stage.k), t, Exported(j, t, w.stage.k).tree);
        OtherRootKept(j, Slot.Archive, Metadata, j.ExportDir(w.stage.k), t, Exported(j, t, w.stage.k).tree);
      }
    } else if Archiving(w.stage) {
      NothingLostInArchive(j, w, t);
    }
  }

  lemma NothingLostInArchive(j: Job, w: State, t: Tree)
    requires Placed(j) && Archiving(w.stage)
    ensures HasMirror(j, t) ==> HasMirror(j, Effect(j, w, t))
    ensures HasArchive(j, t) ==> HasArchive(j, Effect(j, w, t))
  {
    MirrorStaysInArchive(j, w, t);
    if HasArchive(j, t) {
      ArchiveStaysInArchive(j, w, t);
    }
  }

  lemma MirrorStaysInArchive(j: Job, w: State, t: Tree)
    requires Placed(j) && Archiving(w.stage)
    ensures HasMirror(j, t) ==> HasMirror(j, Effect(j, w, t))
  {
    assert j.place.dir == Root(j, Slot.Mirror);
    ArchiveKeepsRoots(j, w, t, Slot.Mirror);
    assert SameAt(t, Effect(j, w, t), j.place.dir);
  }

  lemma ArchiveStaysInArchive(j: Job, w: State, t: Tree)
    requires Placed(j) && Archiving(w.stage) && HasArchive(j, t)
    ensures HasArchive(j, Effect(j, w, t))
  {
    assert j.out == Root(j, Slot.Archive);
    if w.stage.RenameTemp? {
      ArchiveStaysOnRename(j, w, t);
    } else if !w.stage.MakeArchiveParent? {
      TempKeepsRoot(j, w, t, Slot.Archive);
      assert SameAt(t, Effect(j, w, t), j.out);
    }
  }

  /** All that is at the mirror's place, read as a mirror, is a usable one. */
  ghost predicate Usable(j: Job, valid: Tree -> bool, t: Tree) {
    valid(Subtree(t, j.place.dir))
  }

  lemma UsableInSync(j: Job, valid: Tree -> bool, s: SyncStage, t: Tree)
    requires Placed(j) && HonestRemote(j.env.remote, valid) && Usable(j, valid, t)
    ensures valid(Subtree(Mirror.Step(j.env.remote, j.place, s, t).1, j.place.dir))
  {
    var r, p := j.env.remote, j.place;
    var m := Subtree(t, p.dir);
    assert IsDir(m, []) && p.dir + [] == p.dir;
    match s
    case Check =>
    case Clear =>
      match r.clear {
        case Removed => BesideKept(p, t, EMPTY);
        case Stuck(keep) => BesideKept(p, t, Mirror.Kept(Subtree(t, p.partial), keep));
      }
    case Clone => BesideKept(p, t, r.clone.tree);
    case Rename =>
    case Update => SubtreeOfGraft(t, p.dir, r.update(m).tree);
    case Lfs => SubtreeOfGraft(t, p.dir, Mirror.SyncLfs(r, m).tree);
  }

  /** Outside Sync the mirror is not touched at all. */
  lemma MirrorUntouched(j: Job, w: State, t: Tree)
    requires Placed(j) && !w.stage.Ended? && (w.stage.Sync? ==> j.UsesScratch())
    ensures var u := Effect(j, w, t);
            Subtree(t, j.place.dir) == Subtree(u, j.place.dir) && forall k :: j.place.dir <= k ==> SameAt(t, u, k)
  {
    assert j.place.dir == Root(j, Slot.Mirror);
    if w.stage.MakeExportDir? || w.stage.Export? {
      ExportKeepsRoots(j, w, t, Slot.Mirror);
    } else if Archiving(w.stage) {
      ArchiveKeepsRoots(j, w, t, Slot.Mirror);
    } else if w.stage.MakeParent? && !j.UsesScratch() && ParentMade(j, t) {
      ParentOutsideRoots(j, Slot.Mirror, Slot.Mirror);
      MkdirKeepsRoot(j, Slot.Mirror, t, Front(j.place.dir));
    }
  }

  /** One step never makes a usable mirror unusable. */
  lemma UsableStays(j: Job, valid: Tree -> bool, w: State, t: Tree)
    requires Placed(j) && HonestRemote(j.env.remote, valid) && !w.stage.Ended? && Usable(j, valid, t)
    ensures Usable(j, valid, Effect(j, w, t))
  {
    if w.stage.Sync? && !j.UsesScratch() {
      UsableInSync(j, valid, w.stage.s, t);
    } else {
      MirrorUntouched(j, w, t);
    }
  }

  /* ---- a mirror that is there has a HEAD ---- */

  ghost predicate Headed(j: Job, t: Tree) {
    j.place.dir in t ==> j.place.dir + ["HEAD"] in t
  }

  ghost predicate ValidHasHead(valid: Tree -> bool) {
    forall u :: valid(u) ==> ["HEAD"] in u
  }

  lemma HeadedWhenValid(j: Job, valid: Tree -> bool, t: Tree)
    requires ValidHasHead(valid) && valid(Subtree(t, j.place.dir))
    ensures Headed(j, t)
  {
    assert ["HEAD"] in Subtree(t, j.place.dir);
  }

  /** With mirrors that have a HEAD when they are usable, no step leaves one without. */
  lemma HeadedStep(j: Job, valid: Tree -> bool, w: State, t: Tree)
    requires Placed(j) && HonestRemote(j.env.remote, valid) && Sound(j, valid, w, t) && !w.stage.Ended?
    requires ValidHasHead(valid) && Headed(j, t)
    ensures Headed(j, Effect(j, w, t))
  {
    if w.stage.Sync? && !j.UsesScratch() {
      HeadedInSync(j, valid, w.stage.s, t);
    } else {
      MirrorUntouched(j, w, t);
      assert j.place.dir <= j.place.dir + ["HEAD"];
      assert SameAt(t, Effect(j, w, t), j.place.dir) && SameAt(t, Effect(j, w, t), j.place.dir + ["HEAD"]);
    }
  }

  lemma HeadedInSync(j: Job, valid: Tree -> bool, s: SyncStage, t: Tree)
    requires Placed(j) && HonestRemote(j.env.remote, valid) && ValidHasHead(valid) && Headed(j, t)
    requires HeadSound(valid, j.place, t) && SyncSound(j.env.remote, valid, j.place, s, t)
    ensures Headed(j, Mirror.Step(j.env.remote, j.place, s, t).1)
  {
    var r, p := j.env.remote, j.place;
    var u := Mirror.Step(r, p, s, t).1;
    match s
    case Check =>
    case Clear =>
      match r.clear {
        case Removed => BesideKept(p, t, EMPTY);
        case Stuck(keep) => BesideKept(p, t, Mirror.Kept(Subtree(t, p.partial), keep));
      }
    case Clone => BesideKept(p, t, r.clone.tree);
    case Rename =>
      if u != t {
        SubtreeOfGraft(RemoveAll(t, p.partial), p.dir, Subtree(t, p.partial));
        HeadedWhenValid(j, valid, u);
      }
    case Update =>
      SubtreeOfGraft(t, p.dir, r.update(Subtree(t, p.dir)).tree);
      HeadedWhenValid(j, valid, u);
    case Lfs =>
      SubtreeOfGraft(t, p.dir, Mirror.SyncLfs(r, Subtree(t, p.dir)).tree);
      HeadedWhenValid(j, valid, u);
  }

  /* ---- nothing starts to look like a mirror ---- */

  predicate GitNamed(name: string) {
    HasSuffix(name, ".git")
  }

  /** No directory inside is named like a mirror. */
  ghost predicate Quiet(u: Tree) {
    forall k :: k in u && k != [] && u[k].Dir? ==> !GitNamed(Last(k))
  }

  /** Clones and exports bring no such directory in. For an export this means no release whose
      sanitized tag ends in ".git". */
  ghost predicate QuietEnv(j: Job) {
    && Quiet(j.env.remote.clone.tree)
    && (forall k: nat, u :: Quiet(u) ==> Quiet(j.env.exporter(k, u).tree))
  }

  ghost predicate QuietRoots(j: Job, t: Tree) {
    Quiet(Subtree(t, j.place.partial)) && Quiet(Subtree(t, j.metadata))
  }

  lemma KindsAreQuiet(k: Kind)
    ensures !GitNamed(k.DirName())
  {
  }

  lemma QuietInSync(j: Job, s: SyncStage, t: Tree)
    requires Placed(j) && QuietEnv(j) && QuietRoots(j, t)
    ensures QuietRoots(j, Mirror.Step(j.env.remote, j.place, s, t).1)
  {
    var r, p := j.env.remote, j.place;
    assert p.dir == Root(j, Slot.Mirror) && p.partial == Root(j, Partial) && j.metadata == Root(j, Metadata);
    match s
    case Check =>
    case Clear =>
      var left := if r.clear.Removed? then EMPTY else Mirror.Kept(Subtree(t, p.partial), r.clear.keep);
      OtherRootKept(j, Metadata, Partial, p.partial, t, left);
      SubtreeOfGraft(t, p.partial, left);
    case Clone =>
      OtherRootKept(j, Metadata, Partial, p.partial, t, r.clone.tree);
      SubtreeOfGraft(t, p.partial, r.clone.tree);
    case Rename =>
      var t1 := RemoveAll(t, p.partial);
      OtherRootKept(j, Metadata, Partial, p.partial, t, EMPTY);
      OtherRootKept(j, Metadata, Slot.Mirror, p.dir, t1, Subtree(t, p.partial));
      OtherRootKept(j, Partial, Slot.Mirror, p.dir, t1, Subtree(t, p.partial));
      SubtreeOfGraft(t, p.partial, EMPTY);
    case Update =>
      OtherRootKept(j, Metadata, Slot.Mirror, p.dir, t, r.update(Subtree(t, p.dir)).tree);
      OtherRootKept(j, Partial, Slot.Mirror, p.dir, t, r.update(Subtree(t, p.dir)).tree);
    case Lfs =>
      OtherRootKept(j, Metadata, Slot.Mirror, p.dir, t, Mirror.SyncLfs(r, Subtree(t, p.dir)).tree);
      OtherRootKept(j, Partial, Slot.Mirror, p.dir, t, Mirror.SyncLfs(r, Subtree(t, p.dir)).tree);
  }

  lemma QuietInExport(j: Job, w: State, t: Tree)
    requires Placed(j) && QuietEnv(j) && QuietRoots(j, t) && (w.stage.MakeExportDir? || w.stage.Export?)
    ensures QuietRoots(j, ExportEffect(j, w, t))
  {
    var k := w.stage.k;
    if k < |j.exporters| {
      var name := j.exporters[k].DirName();
      var dir := j.ExportDir(k);
      KindsAreQuiet(j.exporters[k]);
      if w.stage.Export? {
        OtherRootKept(j, Partial, Metadata, dir, t, Exported(j, t, k).tree);
        QuietExportDir(j, t, name);
        QuietGraft(j, t, name, Exported(j, t, k).tree);
      } else if ExportDirMade(j, t, k) {
        ExportDirOutsideRoots(j, Partial, name);
        MkdirKeepsRoot(j, Partial, t, dir);
        QuietMkdir(j, t, name);
      }
    }
  }

  lemma QuietExportDir(j: Job, t: Tree, name: string)
    requires Quiet(Subtree(t, j.metadata))
    ensures Quiet(Subtree(t, j.metadata + [name]))
  {
    var u, m := Subtree(t, j.metadata + [name]), Subtree(t, j.metadata);
    forall k | k in u && k != [] && u[k].Dir? ensures !GitNamed(Last(k)) {
      assert j.metadata + [name] + k == j.metadata + ([name] + k);
      assert [name] + k in m && Last([name] + k) == Last(k);
    }
  }

  lemma QuietGraft(j: Job, t: Tree, name: string, s: Tree)
    requires Quiet(Subtree(t, j.metadata)) && Quiet(s) && !GitNamed(name)
    ensures Quiet(Subtree(Graft(t, j.metadata + [name], s), j.metadata))
  {
    var u := Subtree(Graft(t, j.metadata + [name], s), j.metadata);
    forall k | k in u && k != [] && u[k].Dir? ensures !GitNamed(Last(k)) {
      if [name] <= k {
        QuietInside(j.metadata, t, name, s, k);
      } else {
        QuietOutside(j.metadata, t, name, s, k);
      }
    }
  }

  lemma QuietInside(dir: Key, t: Tree, name: string, s: Tree, k: Key)
    requires Quiet(s) && !GitNamed(name) && [name] <= k && IsDir(Graft(t, dir + [name], s), dir + k)
    ensures !GitNamed(Last(k))
  {
    assert dir + k == dir + [name] + k[1..];
    assert k[1..] in s && s[k[1..]].Dir?;
    if k[1..] != [] {
      assert Last(k) == Last(k[1..]);
    }
  }

  lemma QuietOutside(dir: Key, t: Tree, name: string, s: Tree, k: Key)
    requires Quiet(Subtree(t, dir)) && k != [] && !([name] <= k) && IsDir(Graft(t, dir + [name], s), dir + k)
    ensures !GitNamed(Last(k))
  {
    assert (dir + k)[|dir|..] == k && (dir + [name])[|dir|..] == [name];
    assert SameAt(Graft(t, dir + [name], s), t, dir + k);
    assert k in Subtree(t, dir);
  }

  lemma QuietMkdir(j: Job, t: Tree, name: string)
    requires Quiet(Subtree(t, j.metadata)) && !GitNamed(name) && MkdirAll(t, j.metadata + [name]).Ok?
    ensures Quiet(Subtree(MkdirAll(t, j.metadata + [name]).value, j.metadata))
  {
    var u := Subtree(MkdirAll(t, j.metadata + [name]).value, j.metadata);
    forall k | k in u && k != [] && u[k].Dir? ensures !GitNamed(Last(k)) {
      if j.metadata + k in t {
        assert k in Subtree(t, j.metadata);
      } else {
        OnlyChild(j.metadata, name, k);
      }
    }
  }

  lemma OnlyChild(dir: Key, name: string, k: Key)
    requires k != [] && dir + k <= dir + [name]
    ensures k == [name]
  {
    assert (dir + k)[|dir|..] == k && (dir + [name])[|dir|..] == [name];
  }

  lemma QuietSameRoots(j: Job, t: Tree, u: Tree)
    requires QuietRoots(j, t)
    requires Subtree(t, j.place.partial) == Subtree(u, j.place.partial) && Subtree(t, j.metadata) == Subtree(u, j.metadata)
    ensures QuietRoots(j, u)
  {
  }

  lemma QuietOnMkdir(j: Job, s: Slot, t: Tree)
    requires Placed(j) && QuietRoots(j, t) && MkdirAll(t, Front(Root(j, s))).Ok?
    ensures QuietRoots(j, MkdirAll(t, Front(Root(j, s))).value)
  {
    ParentOutsideRoots(j, Partial, s);
    ParentOutsideRoots(j, Metadata, s);
    MkdirKeepsRoot(j, Partial, t, Front(Root(j, s)));
    MkdirKeepsRoot(j, Metadata, t, Front(Root(j, s)));
    assert j.place.partial == Root(j, Partial) && j.metadata == Root(j, Metadata);
    QuietSameRoots(j, t, MkdirAll(t, Front(Root(j, s))).value);
  }

  lemma QuietOnTemp(j: Job, t: Tree, s: Tree)
    requires Placed(j) && QuietRoots(j, t)
    ensures QuietRoots(j, Graft(t, j.tmp, s)) && QuietRoots(j, Graft(t, j.out, s))
  {
    OtherRootKept(j, Partial, Temp, j.tmp, t, s);
    OtherRootKept(j, Metadata, Temp, j.tmp, t, s);
    OtherRootKept(j, Partial, Slot.Archive, j.out, t, s);
    OtherRootKept(j, Metadata, Slot.Archive, j.out, t, s);
  }

  lemma QuietInArchive(j: Job, w: State, t: Tree)
    requires Placed(j) && QuietRoots(j, t)
    requires w.stage.CreateTemp? || w.stage.FillTemp? || w.stage.CloseTemp? || w.stage.RenameTemp?
    ensures QuietRoots(j, ArchiveEffect(j, w, t))
  {
    if w.stage.RenameTemp? {
      QuietOnTemp(j, t, EMPTY);
      QuietOnTemp(j, RemoveAll(t, j.tmp), Subtree(t, j.tmp));
    } else {
      QuietOnTemp(j, t, EMPTY);
      forall data: Blob ensures QuietRoots(j, TempFile(t, j, data)) {
        QuietOnTemp(j, t, map[[] := File(0x1A4, data)]);
      }
    }
  }

  lemma QuietInParent(j: Job, t: Tree)
    requires Placed(j) && QuietRoots(j, t) && ParentMade(j, t)
    ensures QuietRoots(j, MkdirAll(t, Front(j.place.dir)).value)
  {
    assert j.place.dir == Root(j, Slot.Mirror);
    QuietOnMkdir(j, Slot.Mirror, t);
  }

  lemma QuietInArchiveParent(j: Job, t: Tree)
    requires Placed(j) && QuietRoots(j, t) && ArchiveParentMade(j, t)
    ensures QuietRoots(j, MkdirAll(t, Front(j.out)).value)
  {
    assert j.out == Root(j, Slot.Archive);
    QuietOnMkdir(j, Slot.Archive, t);
  }

  lemma QuietRootsStep(j: Job, w: State, t: Tree)
    requires Placed(j) && QuietEnv(j) && QuietRoots(j, t) && !w.stage.Ended?
    ensures QuietRoots(j, Effect(j, w, t))
  {
    if w.stage.Sync? {
      QuietInSync(j, w.stage.s, t);
    } else if w.stage.MakeExportDir? || w.stage.Export? {
      QuietInExport(j, w, t);
    } else if w.stage.MakeParent? {
      if ParentMade(j, t) {
        QuietInParent(j, t);
      }
    } else if w.stage.MakeArchiveParent? {
      if ArchiveParentMade(j, t) {
        QuietInArchiveParent(j, t);
      }
    } else if !w.stage.Begin? {
      QuietInArchive(j, w, t);
    }
  }

  /** A stranger's step makes no noise either. */
  lemma QuietAside(j: Job, t: Tree, u: Tree)
    requires QuietRoots(j, t) && Agree(j, t, u)
    ensures QuietRoots(j, u)
  {
    AgreeOnRoot(j, Partial, t, u);
    AgreeOnRoot(j, Metadata, t, u);
  }
}
