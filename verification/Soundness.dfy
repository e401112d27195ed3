/** What every single step of a worker keeps, whatever the outside world answers: a HEAD means
    a completed clone. */
module Soundness {
  import opened Names
  import opened Trees
  import opened Worker
  import opened Locality
  import Mirror

  /** What is asked of git: a clone it reports as successful is a usable mirror, and neither
      `remote update` nor `lfs fetch` ever makes a usable mirror unusable, even when cut off. */
  ghost predicate HonestRemote(r: Mirror.Remote, valid: Tree -> bool) {
    && (r.clone.ok ==> valid(r.clone.tree))
    && (forall u :: valid(u) ==> valid(r.update(u).tree))
    && (forall u :: valid(u) ==> valid(Mirror.SyncLfs(r, u).tree))
    && (forall u :: valid(u) ==> IsDir(u, []))
    && (forall u :: IsDir(u, []) ==> IsDir(r.update(u).tree, []))
    && (forall u :: IsDir(u, []) ==> IsDir(Mirror.SyncLfs(r, u).tree, []))
  }

  /** A HEAD at a mirror's place means a usable mirror is there. */
  ghost predicate HeadSound(valid: Tree -> bool, p: Mirror.Place, t: Tree) {
    p.dir + ["HEAD"] in t ==> valid(Subtree(t, p.dir))
  }

  ghost predicate SyncSound(r: Mirror.Remote, valid: Tree -> bool, p: Mirror.Place, s: Mirror.Stage, t: Tree) {
    && (s.Rename? ==> r.clone.ok && Subtree(t, p.partial) == r.clone.tree)
    && (s.Update? || s.Lfs? || s.Done? ==> valid(Subtree(t, p.dir)))
  }

  lemma BesideKept(p: Mirror.Place, t: Tree, s: Tree)
    requires Mirror.Beside(p)
    ensures Subtree(Graft(t, p.partial, s), p.dir) == Subtree(t, p.dir)
    ensures SameAt(Graft(t, p.partial, s), t, p.dir + ["HEAD"])
    ensures SameAt(Graft(t, p.partial, s), t, p.dir)
  {
    var u := Graft(t, p.partial, s);
    forall k | p.dir <= k ensures SameAt(t, u, k) {
      if p.partial <= k {
        PrefixesNest(p.dir, p.partial, k);
        assert false;
      }
      assert SameAt(u, t, k);
    }
    SubtreeUnchanged(t, u, p.dir);
  }

  /** Every step of Sync keeps the meaning of HEAD. */
  lemma SyncStepSound(r: Mirror.Remote, valid: Tree -> bool, p: Mirror.Place, s: SyncStage, t: Tree)
    requires HonestRemote(r, valid) && Mirror.Beside(p)
    requires HeadSound(valid, p, t) && SyncSound(r, valid, p, s, t)
    ensures var (s', t') := Mirror.Step(r, p, s, t);
            HeadSound(valid, p, t') && SyncSound(r, valid, p, s', t')
  {
    match s
    case Check =>
    case Clear =>
      match r.clear {
        case Removed => BesideKept(p, t, EMPTY);
        case Stuck(keep) => BesideKept(p, t, Mirror.Kept(Subtree(t, p.partial), keep));
      }
    case Clone =>
      BesideKept(p, t, r.clone.tree);
      SubtreeOfGraft(t, p.partial, r.clone.tree);
    case Rename => SubtreeOfGraft(RemoveAll(t, p.partial), p.dir, Subtree(t, p.partial));
    case Update => SubtreeOfGraft(t, p.dir, r.update(Subtree(t, p.dir)).tree);
    case Lfs => SubtreeOfGraft(t, p.dir, Mirror.SyncLfs(r, Subtree(t, p.dir)).tree);
  }

  /* ---- the worker ---- */

  predicate AfterSyncStage(s: Stage) {
    s.MakeExportDir? || s.Export? || Archiving(s)
  }

  ghost predicate ScratchSound(j: Job, valid: Tree -> bool, w: State) {
    j.UsesScratch() && (w.stage.MakeParent? || w.stage.Sync?) ==> HeadSound(valid, j.scratch, w.scratch)
  }

  ghost predicate StageSound(j: Job, valid: Tree -> bool, w: State, t: Tree) {
    && ScratchSound(j, valid, w)
    && (w.stage.Sync? ==>
          if j.UsesScratch() then SyncSound(j.env.remote, valid, j.scratch, w.stage.s, w.scratch)
          else SyncSound(j.env.remote, valid, j.place, w.stage.s, t))
    && (AfterSyncStage(w.stage) || w.outcome.synced ==> valid(Source(j, w, t)))
    && (BeforeSyncEnds(w.stage) ==> !w.outcome.synced)
  }

  /** The worker's share of the safety invariant. */
  ghost predicate Sound(j: Job, valid: Tree -> bool, w: State, t: Tree) {
    HeadSound(valid, j.place, t) && StageSound(j, valid, w, t)
  }

  ghost predicate Placed(j: Job) {
    Separate(j) && Mirror.Beside(j.place) && Mirror.Beside(j.scratch) && j.scratch.dir != []
  }

  /** Everything at or below `root` is as it was. */
  ghost predicate RootKept(t: Tree, u: Tree, root: Key) {
    Subtree(t, root) == Subtree(u, root) && forall k :: root <= k ==> SameAt(t, u, k)
  }

  /** Changes under one root leave everything under the others alone. */
  lemma OtherRootKept(j: Job, s: Slot, s': Slot, root: Key, t: Tree, sub: Tree)
    requires Separate(j) && s != s' && Root(j, s') <= root
    ensures forall k :: Root(j, s) <= k ==> SameAt(t, Graft(t, root, sub), k)
    ensures Subtree(t, Root(j, s)) == Subtree(Graft(t, root, sub), Root(j, s))
  {
    var u := Graft(t, root, sub);
    forall k | Root(j, s) <= k ensures SameAt(t, u, k) {
      if root <= k {
        PrefixesNest(Root(j, s), Root(j, s'), k);
        assert false;
      }
      assert SameAt(u, t, k);
    }
    SubtreeUnchanged(t, u, Root(j, s));
  }

  lemma MkdirKeepsRoot(j: Job, s: Slot, t: Tree, key: Key)
    requires Separate(j) && MkdirAll(t, key).Ok?
    requires !(Root(j, s) <= key)
    ensures forall k :: Root(j, s) <= k ==> SameAt(t, MkdirAll(t, key).value, k)
    ensures Subtree(t, Root(j, s)) == Subtree(MkdirAll(t, key).value, Root(j, s))
  {
    SubtreeUnchanged(t, MkdirAll(t, key).value, Root(j, s));
  }

  lemma ParentOutsideRoots(j: Job, s: Slot, s': Slot)
    requires Separate(j)
    ensures !(Root(j, s) <= Front(Root(j, s')))
  {
    assert Root(j, s) <= Front(Root(j, s')) ==> Root(j, s) <= Root(j, s') && |Root(j, s)| < |Root(j, s')|;
  }

  lemma ExportDirOutsideRoots(j: Job, s: Slot, name: string)
    requires Separate(j) && !s.Metadata?
    ensures !(Root(j, s) <= j.metadata + [name])
  {
    if Root(j, s) <= j.metadata + [name] {
      PrefixesNest(Root(j, s), Root(j, Metadata), j.metadata + [name]);
      assert false;
    }
  }

  /** Two trees with the same mirror and `.partial` look equally sound. */
  lemma SoundSame(j: Job, valid: Tree -> bool, w: State, t: Tree, u: Tree)
    requires Sound(j, valid, w, t)
    requires forall s: Slot :: s.Mirror? || s.Partial? ==>
               RootKept(t, u, Root(j, s))
    ensures Sound(j, valid, w, u)
  {
    assert Root(j, Slot.Mirror) == j.place.dir && Root(j, Partial) == j.place.partial;
    assert j.place.dir <= j.place.dir + ["HEAD"];
    assert SameAt(t, u, j.place.dir + ["HEAD"]);
  }

  /** Moving on to a stage that promises no more than the present one. */
  lemma SoundNext(j: Job, valid: Tree -> bool, w: State, w': State, t: Tree)
    requires Sound(j, valid, w, t) && !w.stage.Begin?
    requires w'.scratch == w.scratch && w'.outcome.synced == w.outcome.synced
    requires w'.stage.Ended? || (AfterSyncStage(w.stage) && AfterSyncStage(w'.stage))
    ensures Sound(j, valid, w', t)
  {
  }

  lemma SoundOnBegin(j: Job, valid: Tree -> bool, w: State, t: Tree)
    requires Placed(j) && Sound(j, valid, w, t) && w.stage.Begin?
    ensures Sound(j, valid, Next(j, w, t), Effect(j, w, t))
  {
    var scratch: Tree := map[[] := Dir(0x1C0)];
    assert j.scratch.dir + ["HEAD"] !in scratch;
  }

  lemma SoundBeforeSync(j: Job, valid: Tree -> bool, w: State, t: Tree)
    requires Placed(j) && Sound(j, valid, w, t) && (w.stage.Begin? || w.stage.MakeParent?)
    ensures Sound(j, valid, Next(j, w, t), Effect(j, w, t))
  {
    if w.stage.Begin? {
      SoundOnBegin(j, valid, w, t);
    } else if !j.UsesScratch() && ParentMade(j, t) {
      SoundOnParent(j, valid, w, t);
    }
  }

  lemma SoundOnParent(j: Job, valid: Tree -> bool, w: State, t: Tree)
    requires Placed(j) && Sound(j, valid, w, t) && ParentMade(j, t)
    ensures Sound(j, valid, w, MkdirAll(t, Front(j.place.dir)).value)
  {
    var u := MkdirAll(t, Front(j.place.dir)).value;
    forall s: Slot ensures RootKept(t, u, Root(j, s)) {
      ParentOutsideRoots(j, s, Slot.Mirror);
      MkdirKeepsRoot(j, s, t, Front(j.place.dir));
    }
    SoundSame(j, valid, w, t, u);
  }

  lemma SoundInScratch(j: Job, valid: Tree -> bool, w: State, t: Tree)
    requires Placed(j) && HonestRemote(j.env.remote, valid) && Sound(j, valid, w, t)
    requires w.stage.Sync? && j.UsesScratch()
    ensures Sound(j, valid, Next(j, w, t), Effect(j, w, t))
  {
    SyncStepSound(j.env.remote, valid, j.scratch, w.stage.s, w.scratch);
    var (s, scratch) := Mirror.Step(j.env.remote, j.scratch, w.stage.s, w.scratch);
    SoundAfterScratch(j, valid, w, s, scratch, t);
  }

  lemma SoundAfterScratch(j: Job, valid: Tree -> bool, w: State, s: Mirror.Stage, scratch: Tree, t: Tree)
    requires Sound(j, valid, w, t) && w.stage.Sync? && j.UsesScratch()
    requires HeadSound(valid, j.scratch, scratch) && SyncSound(j.env.remote, valid, j.scratch, s, scratch)
    ensures Sound(j, valid, AfterSync(w.(scratch := scratch), w.stage.s, s), t)
  {
  }

  lemma SoundInPlace(j: Job, valid: Tree -> bool, w: State, t: Tree)
    requires Placed(j) && HonestRemote(j.env.remote, valid) && Sound(j, valid, w, t)
    requires w.stage.Sync? && !j.UsesScratch()
    ensures Sound(j, valid, Next(j, w, t), Effect(j, w, t))
  {
    SyncStepSound(j.env.remote, valid, j.place, w.stage.s, t);
  }

  /** Sync reaches neither metadata nor the archive's names. */
  lemma SyncKeepsRoot(j: Job, s: SyncStage, t: Tree, slot: Slot)
    requires Separate(j) && !slot.Mirror? && !slot.Partial?
    ensures RootKept(t, Mirror.Step(j.env.remote, j.place, s, t).1, Root(j, slot))
  {
    var r, p := j.env.remote, j.place;
    assert p.dir == Root(j, Slot.Mirror) && p.partial == Root(j, Partial);
    match s
    case Check =>
    case Clear =>
      match r.clear {
        case Removed => OtherRootKept(j, slot, Partial, p.partial, t, EMPTY);
        case Stuck(keep) => OtherRootKept(j, slot, Partial, p.partial, t, Mirror.Kept(Subtree(t, p.partial), keep));
      }
    case Clone => OtherRootKept(j, slot, Partial, p.partial, t, r.clone.tree);
    case Rename => SyncRenameKeepsRoot(j, t, slot);
    case Update => OtherRootKept(j, slot, Slot.Mirror, p.dir, t, r.update(Subtree(t, p.dir)).tree);
    case Lfs => OtherRootKept(j, slot, Slot.Mirror, p.dir, t, Mirror.SyncLfs(r, Subtree(t, p.dir)).tree);
  }

  /** Moving what is at one root to another leaves the rest alone. */
  lemma MoveKeepsRoot(j: Job, t: Tree, from: Slot, to: Slot, s: Slot)
    requires Separate(j) && s != from && s != to
    ensures RootKept(t, Graft(RemoveAll(t, Root(j, from)), Root(j, to), Subtree(t, Root(j, from))), Root(j, s))
  {
    var t1 := RemoveAll(t, Root(j, from));
    OtherRootKept(j, s, from, Root(j, from), t, EMPTY);
    OtherRootKept(j, s, to, Root(j, to), t1, Subtree(t, Root(j, from)));
    RootKeptTwice(t, t1, Graft(t1, Root(j, to), Subtree(t, Root(j, from))), Root(j, s));
  }

  lemma SyncRenameKeepsRoot(j: Job, t: Tree, slot: Slot)
    requires Separate(j) && !slot.Mirror? && !slot.Partial?
    ensures RootKept(t, Mirror.Step(j.env.remote, j.place, Mirror.Rename, t).1, Root(j, slot))
  {
    var u := Graft(RemoveAll(t, j.place.partial), j.place.dir, Subtree(t, j.place.partial));
    var v := Mirror.Step(j.env.remote, j.place, Mirror.Rename, t).1;
    assert v == u || v == t;
    assert RootKept(t, u, Root(j, slot)) by {
      assert j.place.dir == Root(j, Slot.Mirror) && j.place.partial == Root(j, Partial);
      MoveKeepsRoot(j, t, Partial, Slot.Mirror, slot);
    }
    SameRootKept(t, Root(j, slot));
  }

  lemma AgreeKeepsRoot(j: Job, s: Slot, t: Tree, u: Tree)
    requires Agree(j, t, u)
    ensures RootKept(t, u, Root(j, s))
  {
    AgreeOnRoot(j, s, t, u);
    RootOwned(j, s);
    forall k | Root(j, s) <= k ensures SameAt(t, u, k) {
      OwnsBelow(j, Root(j, s), k);
    }
  }

  lemma ExportKeepsRoots(j: Job, w: State, t: Tree, s: Slot)
    requires Placed(j) && (w.stage.MakeExportDir? || w.stage.Export?) && !s.Metadata?
    ensures var u := ExportEffect(j, w, t);
            RootKept(t, u, Root(j, s))
  {
    var k := w.stage.k;
    if k < |j.exporters| {
      if w.stage.Export? {
        OtherRootKept(j, s, Metadata, j.ExportDir(k), t, Exported(j, t, k).tree);
      } else if ExportDirMade(j, t, k) {
        ExportDirOutsideRoots(j, s, j.exporters[k].DirName());
        MkdirKeepsRoot(j, s, t, j.ExportDir(k));
      }
    }
  }

  lemma SoundInExport(j: Job, valid: Tree -> bool, w: State, t: Tree)
    requires Placed(j) && Sound(j, valid, w, t) && (w.stage.MakeExportDir? || w.stage.Export?)
    ensures Sound(j, valid, Next(j, w, t), Effect(j, w, t))
  {
    var u := ExportEffect(j, w, t);
    forall s: Slot | !s.Metadata? ensures RootKept(t, u, Root(j, s)) {
      ExportKeepsRoots(j, w, t, s);
    }
    SoundSame(j, valid, w, t, u);
    SoundNext(j, valid, w, Next(j, w, t), u);
  }

  /** Nothing the archive stages do reaches mirror, `.partial` or metadata. */
  lemma ArchiveKeepsRoots(j: Job, w: State, t: Tree, s: Slot)
    requires Placed(j) && Archiving(w.stage) && !s.Archive? && !s.Temp?
    ensures var u := Effect(j, w, t);
            RootKept(t, u, Root(j, s))
  {
    if w.stage.MakeArchiveParent? {
      ParentStepKeepsRoot(j, w, t, s);
    } else if w.stage.RenameTemp? {
      RenameStepKeepsRoot(j, w, t, s);
    } else {
      TempKeepsRoot(j, w, t, s);
    }
  }

  lemma SameRootKept(t: Tree, root: Key)
    ensures RootKept(t, t, root)
  {
  }

  lemma ParentStepKeepsRoot(j: Job, w: State, t: Tree, s: Slot)
    requires Placed(j) && w.stage.MakeArchiveParent?
    ensures RootKept(t, Effect(j, w, t), Root(j, s))
  {
    if ArchiveParentMade(j, t) {
      OutParentKeepsRoot(j, t, s);
    } else {
      SameRootKept(t, Root(j, s));
    }
  }

  lemma RenameStepKeepsRoot(j: Job, w: State, t: Tree, s: Slot)
    requires Placed(j) && w.stage.RenameTemp? && !s.Archive? && !s.Temp?
    ensures RootKept(t, Effect(j, w, t), Root(j, s))
  {
    var u := Effect(j, w, t);
    if CanRename(j, t) {
      assert u == Rename(t, j.tmp, j.out).value;
      RenameKeepsRoot(j, t, s);
    } else {
      assert u == t;
      SameRootKept(t, Root(j, s));
    }
  }

  lemma OutParentKeepsRoot(j: Job, t: Tree, s: Slot)
    requires Placed(j) && ArchiveParentMade(j, t)
    ensures var u := MkdirAll(t, Front(j.out)).value;
            RootKept(t, u, Root(j, s))
  {
    assert j.out == Root(j, Slot.Archive);
    ParentOutsideRoots(j, s, Slot.Archive);
    MkdirKeepsRoot(j, s, t, Front(j.out));
  }

  lemma RenameKeepsRoot(j: Job, t: Tree, s: Slot)
    requires Placed(j) && CanRename(j, t) && !s.Archive? && !s.Temp?
    ensures RootKept(t, Rename(t, j.tmp, j.out).value, Root(j, s))
  {
    assert Rename(t, j.tmp, j.out).value == Graft(RemoveAll(t, j.tmp), j.out, Subtree(t, j.tmp));
    assert j.out == Root(j, Slot.Archive) && j.tmp == Root(j, Temp);
    MoveKeepsRoot(j, t, Temp, Slot.Archive, s);
  }

  lemma RootKeptTwice(t: Tree, u: Tree, v: Tree, root: Key)
    requires RootKept(t, u, root) && RootKept(u, v, root)
    ensures RootKept(t, v, root)
  {
    forall k | root <= k ensures SameAt(t, v, k) {
      assert SameAt(t, u, k) && SameAt(u, v, k);
    }
  }

  lemma TempKeepsRoot(j: Job, w: State, t: Tree, s: Slot)
    requires Placed(j) && (w.stage.CreateTemp? || w.stage.FillTemp? || w.stage.CloseTemp?) && !s.Temp?
    ensures var u := ArchiveEffect(j, w, t);
            RootKept(t, u, Root(j, s))
  {
    assert j.tmp == Root(j, Temp);
    var m := Source(j, w, t);
    if w.stage.FillTemp? {
      OtherRootKept(j, s, Temp, j.tmp, t, map[[] := File(0x1A4, Torn(j.pack(m), j.env.torn))]);
    } else if w.stage.CreateTemp? && CanCreate(j, w, t) {
      OtherRootKept(j, s, Temp, j.tmp, t, map[[] := File(0x1A4, TarGz([], false))]);
    } else if w.stage.CloseTemp? && CanClose(j, w, t) {
      OtherRootKept(j, s, Temp, j.tmp, t, map[[] := File(0x1A4, TarGz(j.pack(m).value, true))]);
    } else {
      OtherRootKept(j, s, Temp, j.tmp, t, EMPTY);
    }
  }

  lemma SoundInArchive(j: Job, valid: Tree -> bool, w: State, t: Tree)
    requires Placed(j) && Sound(j, valid, w, t) && Archiving(w.stage)
    ensures Sound(j, valid, Next(j, w, t), Effect(j, w, t))
  {
    var u := Effect(j, w, t);
    forall s: Slot | s.Mirror? || s.Partial?
      ensures RootKept(t, u, Root(j, s))
    {
      ArchiveKeepsRoots(j, w, t, s);
    }
    SoundSame(j, valid, w, t, u);
    SoundNext(j, valid, w, Next(j, w, t), u);
  }

  /** Safety of one worker step. */
  lemma SoundStep(j: Job, valid: Tree -> bool, w: State, t: Tree)
    requires Placed(j) && HonestRemote(j.env.remote, valid) && Sound(j, valid, w, t) && !w.stage.Ended?
    ensures Sound(j, valid, Next(j, w, t), Effect(j, w, t))
  {
    if w.stage.Begin? || w.stage.MakeParent? {
      SoundBeforeSync(j, valid, w, t);
    } else if w.stage.Sync? {
      if j.UsesScratch() {
        SoundInScratch(j, valid, w, t);
      } else {
        SoundInPlace(j, valid, w, t);
      }
    } else if w.stage.MakeExportDir? || w.stage.Export? {
      SoundInExport(j, valid, w, t);
    } else {
      SoundInArchive(j, valid, w, t);
    }
  }

  /** A stranger's step cannot spoil it. */
  lemma SoundAside(j: Job, valid: Tree -> bool, w: State, t: Tree, u: Tree)
    requires Sound(j, valid, w, t) && Agree(j, t, u)
    ensures Sound(j, valid, w, u)
  {
    forall s: Slot ensures RootKept(t, u, Root(j, s)) {
      RootOwned(j, s);
      SubtreeLocal(j, t, u, Root(j, s));
      forall k | Root(j, s) <= k ensures SameAt(t, u, k) {
        OwnsBelow(j, Root(j, s), k);
      }
    }
    SoundSame(j, valid, w, t, u);
  }
}
