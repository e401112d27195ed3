/** Where an archive comes from: at every moment of a run, the file at a repository's archive
    path is the one that was there before the run or a complete archive of the very mirror this
    run synced. */
module Provenance {
  import opened Names
  import opened Trees
  import opened Worker
  import opened Locality
  import opened Soundness
  import Mirror

  /** A finished archive of the mirror `m`, trailers and all. */
  ghost predicate ArchiveOf(j: Job, n: Node, m: Tree) {
    n.File? && n.data.TarGz? && n.data.closed && IsDir(m, []) && j.pack(m) == Ok(n.data.entries)
  }

  /** `t0` is the tree the run started on. */
  ghost predicate Written(j: Job, t0: Tree, w: State, t: Tree) {
    && (w.stage.FillTemp? || w.stage.CloseTemp? ==> IsDir(Source(j, w, t), []))
    && (w.stage.RenameTemp? ==> j.tmp in t && ArchiveOf(j, t[j.tmp], Source(j, w, t)))
    && (w.outcome.archived ==> w.stage.Ended? && w.outcome.synced && j.out in t && ArchiveOf(j, t[j.out], Source(j, w, t)))
    && (!w.outcome.archived ==> SameAt(t0, t, j.out))
    && (AfterSyncStage(w.stage) ==> w.outcome.synced)
  }

  lemma WrittenSame(j: Job, t0: Tree, w: State, t: Tree, u: Tree)
    requires Written(j, t0, w, t)
    requires Subtree(t, j.place.dir) == Subtree(u, j.place.dir) && SameAt(t, u, j.out) && SameAt(t, u, j.tmp)
    ensures Written(j, t0, w, u)
  {
    assert Source(j, w, u) == Source(j, w, t);
  }

  lemma AdvanceBeforeArchive(j: Job, w: State, a: Answer)
    requires !w.stage.Ended? && (!Archiving(w.stage) || w.stage.MakeArchiveParent?)
    requires AfterSyncStage(w.stage) ==> w.outcome.synced
    ensures var w' := Advance(j, w, a);
            && w'.outcome.archived == w.outcome.archived
            && !w'.stage.FillTemp? && !w'.stage.CloseTemp? && !w'.stage.RenameTemp?
            && (AfterSyncStage(w'.stage) ==> w'.outcome.synced)
  {
  }

  /** A step that is neither about the temporary file nor the rename. */
  lemma WrittenNext(j: Job, t0: Tree, w: State, t: Tree)
    requires Written(j, t0, w, t) && !w.stage.Ended? && (!Archiving(w.stage) || w.stage.MakeArchiveParent?)
    requires SameAt(t, Effect(j, w, t), j.out)
    ensures Written(j, t0, Next(j, w, t), Effect(j, w, t))
  {
    AdvanceBeforeArchive(j, w, Ask(j, w, t));
  }

  lemma WrittenBeforeArchive(j: Job, t0: Tree, w: State, t: Tree)
    requires Placed(j) && Written(j, t0, w, t) && !w.stage.Ended? && !Archiving(w.stage)
    ensures Written(j, t0, Next(j, w, t), Effect(j, w, t))
  {
    assert j.out == Root(j, Slot.Archive);
    if w.stage.Sync? && !j.UsesScratch() {
      SyncKeepsRoot(j, w.stage.s, t, Slot.Archive);
    } else if w.stage.MakeExportDir? || w.stage.Export? {
      ExportKeepsRoots(j, w, t, Slot.Archive);
    } else if w.stage.MakeParent? && !j.UsesScratch() && ParentMade(j, t) {
      ParentOutsideRoots(j, Slot.Archive, Slot.Mirror);
      MkdirKeepsRoot(j, Slot.Archive, t, Front(j.place.dir));
    }
    assert SameAt(t, Effect(j, w, t), j.out);
    WrittenNext(j, t0, w, t);
  }

  lemma WrittenInParent(j: Job, t0: Tree, w: State, t: Tree)
    requires Placed(j) && Written(j, t0, w, t) && w.stage.MakeArchiveParent?
    ensures Written(j, t0, Next(j, w, t), Effect(j, w, t))
  {
    assert j.out == Root(j, Slot.Archive);
    if ArchiveParentMade(j, t) {
      ParentOutsideRoots(j, Slot.Archive, Slot.Archive);
      MkdirKeepsRoot(j, Slot.Archive, t, Front(j.out));
    }
    assert SameAt(t, Effect(j, w, t), j.out);
    WrittenNext(j, t0, w, t);
  }

  lemma WrittenInTemp(j: Job, t0: Tree, w: State, t: Tree)
    requires Placed(j) && Written(j, t0, w, t) && (w.stage.CreateTemp? || w.stage.FillTemp?)
    ensures Written(j, t0, Next(j, w, t), Effect(j, w, t))
  {
    assert j.out == Root(j, Slot.Archive) && j.place.dir == Root(j, Slot.Mirror);
    TempKeepsRoot(j, w, t, Slot.Archive);
    TempKeepsRoot(j, w, t, Slot.Mirror);
    assert SameAt(t, Effect(j, w, t), j.out);
    assert Source(j, Next(j, w, t), Effect(j, w, t)) == Source(j, w, t);
  }

  /** Closing the file completes it: what it holds is the mirror it was written from. */
  lemma WrittenOnClose(j: Job, t0: Tree, w: State, t: Tree)
    requires Placed(j) && Written(j, t0, w, t) && w.stage.CloseTemp?
    ensures Written(j, t0, Next(j, w, t), Effect(j, w, t))
  {
    assert j.out == Root(j, Slot.Archive) && j.place.dir == Root(j, Slot.Mirror);
    TempKeepsRoot(j, w, t, Slot.Archive);
    TempKeepsRoot(j, w, t, Slot.Mirror);
    var u := Effect(j, w, t);
    assert SameAt(t, u, j.out);
    var m := Source(j, w, t);
    assert Source(j, Next(j, w, t), u) == m;
    if CanClose(j, w, t) {
      assert j.tmp[|j.tmp|..] == [];
      assert u == Graft(t, j.tmp, map[[] := File(0x1A4, TarGz(j.pack(m).value, true))]);
      assert j.tmp in u && ArchiveOf(j, u[j.tmp], m);
    }
  }

  /** The rename puts exactly that file at the archive path. */
  lemma WrittenOnRename(j: Job, t0: Tree, w: State, t: Tree)
    requires Placed(j) && Written(j, t0, w, t) && w.stage.RenameTemp?
    ensures Written(j, t0, Next(j, w, t), Effect(j, w, t))
  {
    if CanRename(j, t) {
      var u := Rename(t, j.tmp, j.out).value;
      assert j.place.dir == Root(j, Slot.Mirror);
      RenameKeepsRoot(j, t, Slot.Mirror);
      RenameMoves(t, j.tmp, j.out);
      var w' := w.(stage := Ended, outcome := w.outcome.(archived := true));
      assert Next(j, w, t) == w' && Effect(j, w, t) == u;
      assert Source(j, w', u) == Source(j, w, t);
    }
  }

  lemma RenameMoves(t: Tree, from: Key, to: Key)
    requires Rename(t, from, to).Ok?
    ensures var u := Rename(t, from, to).value; to in u && u[to] == t[from]
  {
    assert to[|to|..] == [] && from + [] == from;
    assert [] in Subtree(t, from);
  }

  lemma WrittenStep(j: Job, t0: Tree, w: State, t: Tree)
    requires Placed(j) && Written(j, t0, w, t) && !w.stage.Ended?
    ensures Written(j, t0, Next(j, w, t), Effect(j, w, t))
  {
    if w.stage.MakeArchiveParent? {
      WrittenInParent(j, t0, w, t);
    } else if w.stage.CloseTemp? {
      WrittenOnClose(j, t0, w, t);
    } else if w.stage.RenameTemp? {
      WrittenOnRename(j, t0, w, t);
    } else if w.stage.CreateTemp? || w.stage.FillTemp? {
      WrittenInTemp(j, t0, w, t);
    } else {
      WrittenBeforeArchive(j, t0, w, t);
    }
  }

  lemma WrittenAside(j: Job, t0: Tree, w: State, t: Tree, u: Tree)
    requires Written(j, t0, w, t) && Agree(j, t, u)
    ensures Written(j, t0, w, u)
  {
    assert Subtree(t, j.place.dir) == Subtree(u, j.place.dir) && SameAt(t, u, j.out) && SameAt(t, u, j.tmp) by {
      assert j.place.dir == Root(j, Slot.Mirror) && j.out == Root(j, Slot.Archive) && j.tmp == Root(j, Temp);
      AgreeOnRoot(j, Slot.Mirror, t, u);
      AgreeOnRoot(j, Slot.Archive, t, u);
      AgreeOnRoot(j, Temp, t, u);
    }
    WrittenSame(j, t0, w, t, u);
  }

  /* ---- nothing new appears below the archive's names ---- */

  /** What is strictly below `root` was there before. */
  ghost predicate Shrunk(t0: Tree, t: Tree, root: Key) {
    forall k :: root < k && k in t ==> k in t0 && t0[k] == t[k]
  }

  ghost predicate NothingBelow(t: Tree, root: Key) {
    forall k :: root < k ==> k !in t
  }

  /** Should a directory be in the way of the archive or of its temporary file, nothing is put
      into it. */
  ghost predicate Beneath(j: Job, t0: Tree, w: State, t: Tree) {
    && Shrunk(t0, t, j.out) && Shrunk(t0, t, j.tmp)
    && (w.stage.FillTemp? || w.stage.CloseTemp? || w.stage.RenameTemp? ==> NothingBelow(t, j.tmp))
  }

  lemma ShrunkKept(t0: Tree, t: Tree, u: Tree, root: Key)
    requires Shrunk(t0, t, root) && RootKept(t, u, root)
    ensures Shrunk(t0, u, root)
    ensures NothingBelow(t, root) ==> NothingBelow(u, root)
  {
    forall k | root < k && k in u ensures k in t0 && t0[k] == u[k] {
      assert SameAt(t, u, k);
    }
    if NothingBelow(t, root) {
      forall k | root < k ensures k !in u {
        assert SameAt(t, u, k);
      }
    }
  }

  lemma FileHasNothingBelow(t0: Tree, t: Tree, root: Key, n: Node)
    ensures NothingBelow(PutFile(t, root, n), root) && Shrunk(t0, PutFile(t, root, n), root)
  {
    forall k | root < k ensures k !in PutFile(t, root, n) {
      assert k[|root|..] != [];
    }
  }

  lemma RemovedShrinks(t0: Tree, t: Tree, root: Key)
    requires Shrunk(t0, t, root)
    ensures Shrunk(t0, Remove(t, root), root)
  {
  }

  lemma BeneathInTemp(j: Job, t0: Tree, w: State, t: Tree)
    requires Placed(j) && Beneath(j, t0, w, t) && (w.stage.CreateTemp? || w.stage.FillTemp? || w.stage.CloseTemp?)
    ensures Beneath(j, t0, Next(j, w, t), Effect(j, w, t))
  {
    assert j.out == Root(j, Slot.Archive);
    TempKeepsRoot(j, w, t, Slot.Archive);
    ShrunkKept(t0, t, Effect(j, w, t), j.out);
    RemovedShrinks(t0, t, j.tmp);
    forall data: Blob ensures NothingBelow(TempFile(t, j, data), j.tmp) && Shrunk(t0, TempFile(t, j, data), j.tmp) {
      FileHasNothingBelow(t0, t, j.tmp, File(0x1A4, data));
    }
  }

  lemma BeneathOnRename(j: Job, t0: Tree, w: State, t: Tree)
    requires Placed(j) && Beneath(j, t0, w, t) && w.stage.RenameTemp? && CanRename(j, t)
    ensures Shrunk(t0, Rename(t, j.tmp, j.out).value, j.out) && Shrunk(t0, Rename(t, j.tmp, j.out).value, j.tmp)
  {
    var t1 := RemoveAll(t, j.tmp);
    var u := Graft(t1, j.out, Subtree(t, j.tmp));
    assert j.out == Root(j, Slot.Archive) && j.tmp == Root(j, Temp);
    forall k | j.out < k ensures k !in u {
      assert k[|j.out|..] != [];
      assert j.tmp < j.tmp + k[|j.out|..];
    }
    OtherRootKept(j, Temp, Slot.Archive, j.out, t1, Subtree(t, j.tmp));
    forall k | j.tmp < k ensures k !in u {
      assert SameAt(t1, u, k);
    }
  }

  lemma KeepsArchiveRoots(j: Job, w: State, t: Tree, s: Slot)
    requires Placed(j) && !w.stage.Ended? && (!Archiving(w.stage) || w.stage.MakeArchiveParent?) && (s.Archive? || s.Temp?)
    ensures RootKept(t, Effect(j, w, t), Root(j, s))
  {
    if w.stage.Sync? {
      if j.UsesScratch() {
        SameRootKept(t, Root(j, s));
      } else {
        SyncKeepsRoot(j, w.stage.s, t, s);
      }
    } else if w.stage.MakeExportDir? || w.stage.Export? {
      ExportKeepsRoots(j, w, t, s);
    } else if w.stage.MakeArchiveParent? {
      ParentStepKeepsRoot(j, w, t, s);
    } else {
      BeginKeepsRoot(j, w, t, s);
    }
  }

  lemma BeginKeepsRoot(j: Job, w: State, t: Tree, s: Slot)
    requires Placed(j) && (w.stage.Begin? || w.stage.MakeParent?)
    ensures RootKept(t, Effect(j, w, t), Root(j, s))
  {
    SameRootKept(t, Root(j, s));
    if w.stage.MakeParent? && !j.UsesScratch() && ParentMade(j, t) {
      ParentOutsideRoots(j, s, Slot.Mirror);
      MkdirKeepsRoot(j, s, t, Front(j.place.dir));
    }
  }

  lemma BeneathStep(j: Job, t0: Tree, w: State, t: Tree)
    requires Placed(j) && Beneath(j, t0, w, t) && !w.stage.Ended?
    ensures Beneath(j, t0, Next(j, w, t), Effect(j, w, t))
  {
    if w.stage.CreateTemp? || w.stage.FillTemp? || w.stage.CloseTemp? {
      BeneathInTemp(j, t0, w, t);
    } else if w.stage.RenameTemp? {
      if CanRename(j, t) {
        BeneathOnRename(j, t0, w, t);
      }
    } else {
      BeneathBefore(j, t0, w, t);
    }
  }

  lemma BeneathBefore(j: Job, t0: Tree, w: State, t: Tree)
    requires Placed(j) && Beneath(j, t0, w, t) && !w.stage.Ended? && (!Archiving(w.stage) || w.stage.MakeArchiveParent?)
    ensures Beneath(j, t0, Next(j, w, t), Effect(j, w, t))
  {
    assert j.out == Root(j, Slot.Archive) && j.tmp == Root(j, Temp);
    KeepsArchiveRoots(j, w, t, Slot.Archive);
    KeepsArchiveRoots(j, w, t, Temp);
    ShrunkKept(t0, t, Effect(j, w, t), j.out);
    ShrunkKept(t0, t, Effect(j, w, t), j.tmp);
    NoTempYet(j, w, Ask(j, w, t));
  }

  lemma NoTempYet(j: Job, w: State, a: Answer)
    requires !w.stage.Ended? && (!Archiving(w.stage) || w.stage.MakeArchiveParent?)
    ensures var s := Advance(j, w, a).stage; !s.FillTemp? && !s.CloseTemp? && !s.RenameTemp?
  {
  }

  lemma BeneathAside(j: Job, t0: Tree, w: State, t: Tree, u: Tree)
    requires Beneath(j, t0, w, t) && Agree(j, t, u)
    ensures Beneath(j, t0, w, u)
  {
    assert RootKept(t, u, j.out) && RootKept(t, u, j.tmp) by {
      assert j.out == Root(j, Slot.Archive) && j.tmp == Root(j, Temp);
      AgreeKeepsRoot(j, Slot.Archive, t, u);
      AgreeKeepsRoot(j, Temp, t, u);
    }
    ShrunkKept(t0, t, u, j.out);
    ShrunkKept(t0, t, u, j.tmp);
  }
}
