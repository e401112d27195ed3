/** What one worker can see and change of the shared tree: its own five roots, plus missing
    directories above them. Derived here from the file operations each step performs. */
module Locality {
  import opened Names
  import opened Trees
  import opened Worker
  import Mirror

  function Root(j: Job, s: Slot): Key {
    match s
    case Mirror => j.place.dir
    case Partial => j.place.partial
    case Metadata => j.metadata
    case Archive => j.out
    case Temp => j.tmp
  }

  ghost predicate Owns(j: Job, k: Key) {
    exists s :: Root(j, s) <= k
  }

  ghost predicate Above(j: Job, k: Key) {
    exists s :: k < Root(j, s)
  }

  /** The five roots lie side by side, none inside another. */
  ghost predicate Separate(j: Job) {
    && (forall s, t :: Root(j, s) <= Root(j, t) ==> s == t)
    && (forall s :: Root(j, s) != [])
  }

  ghost predicate NonDir(t: Tree, k: Key) {
    k in t && !t[k].Dir?
  }

  /** The two trees look the same to the worker. */
  ghost predicate Agree(j: Job, t: Tree, u: Tree) {
    && (forall k :: Owns(j, k) ==> SameAt(t, u, k))
    && (forall k :: Above(j, k) ==> (NonDir(t, k) <==> NonDir(u, k)))
  }

  ghost predicate NewDir(t: Tree, t': Tree, k: Key) {
    k !in t && k in t' && t'[k] == Dir(DIR_MODE)
  }

  /** Outside its own roots, a worker only adds directories above them. */
  ghost predicate Changed(j: Job, t: Tree, t': Tree) {
    forall k {:trigger SameAt(t, t', k)} :: !Owns(j, k) ==> SameAt(t, t', k) || (NewDir(t, t', k) && Above(j, k))
  }

  /** Whatever is new in `t'` outside the worker's roots is in `u'` as well. */
  ghost predicate Grows(j: Job, t: Tree, t': Tree, u': Tree) {
    forall k {:trigger k in u'} :: !Owns(j, k) && k in t' && k !in t ==> k in u'
  }

  lemma OwnsBelow(j: Job, root: Key, k: Key)
    requires Owns(j, root) && root <= k
    ensures Owns(j, k)
  {
    var s :| Root(j, s) <= root;
    assert Root(j, s) <= k;
  }

  lemma AboveNotOwned(j: Job, k: Key)
    requires Separate(j) && Above(j, k)
    ensures !Owns(j, k)
  {
    var t :| k < Root(j, t);
    forall s ensures !(Root(j, s) <= k) {
      assert Root(j, s) <= k ==> Root(j, s) <= Root(j, t);
    }
  }

  lemma AgreeSame(j: Job, t: Tree)
    ensures Agree(j, t, t) && Changed(j, t, t) && Grows(j, t, t, t)
  {
  }

  /** Replacing something inside the worker's own roots. */
  lemma GraftLocal(j: Job, t: Tree, u: Tree, root: Key, s: Tree)
    requires Agree(j, t, u) && Separate(j) && Owns(j, root)
    ensures Agree(j, Graft(t, root, s), Graft(u, root, s))
    ensures forall k :: !Owns(j, k) ==> SameAt(t, Graft(t, root, s), k)
    ensures Changed(j, t, Graft(t, root, s)) && Grows(j, t, Graft(t, root, s), Graft(u, root, s))
  {
    var t', u' := Graft(t, root, s), Graft(u, root, s);
    forall k | !Owns(j, k) ensures SameAt(t, t', k) && SameAt(u, u', k) {
      if root <= k {
        OwnsBelow(j, root, k);
      }
    }
    forall k | Owns(j, k) ensures SameAt(t', u', k) {
      assert SameAt(t, u, k);
      if !(root <= k) {
        assert SameAt(t', t, k) && SameAt(u', u, k);
      }
    }
    forall k | Above(j, k) ensures NonDir(t', k) <==> NonDir(u', k) {
      AboveNotOwned(j, k);
      assert SameAt(t, t', k) && SameAt(u, u', k);
    }
  }

  lemma SubtreeLocal(j: Job, t: Tree, u: Tree, root: Key)
    requires Agree(j, t, u) && Owns(j, root)
    ensures Subtree(t, root) == Subtree(u, root)
    ensures SameAt(t, u, root)
  {
    forall k | root <= k ensures SameAt(t, u, k) {
      OwnsBelow(j, root, k);
    }
    SubtreeUnchanged(t, u, root);
  }

  lemma MkdirLocal(j: Job, t: Tree, u: Tree, key: Key)
    requires Agree(j, t, u) && Separate(j)
    requires forall k :: k <= key ==> Owns(j, k) || Above(j, k)
    ensures MkdirAll(t, key).Ok? <==> MkdirAll(u, key).Ok?
    ensures MkdirAll(t, key).Ok? ==>
              && Agree(j, MkdirAll(t, key).value, MkdirAll(u, key).value)
              && Changed(j, t, MkdirAll(t, key).value)
              && Grows(j, t, MkdirAll(t, key).value, MkdirAll(u, key).value)
  {
    forall k | k <= key ensures NonDir(t, k) <==> NonDir(u, k) {
      if Owns(j, k) {
        assert SameAt(t, u, k);
      }
    }
    if MkdirAll(t, key).Ok? {
      assert MkdirAll(u, key).Ok? by {
        if MkdirAll(u, key).Err? {
          var k :| k <= key && k in u && !u[k].Dir?;
          assert NonDir(t, k);
        }
      }
      var t', u' := MkdirAll(t, key).value, MkdirAll(u, key).value;
      forall k | Owns(j, k) ensures SameAt(t', u', k) {
        assert SameAt(t, u, k);
      }
      forall k | Above(j, k) ensures NonDir(t', k) <==> NonDir(u', k) {
        assert NonDir(t, k) <==> NonDir(u, k);
      }
    } else {
      var k :| k <= key && k in t && !t[k].Dir?;
      assert NonDir(u, k);
    }
  }

  lemma RenameLocal(j: Job, t: Tree, u: Tree, from: Key, to: Key)
    requires Agree(j, t, u) && Separate(j) && Owns(j, from) && Owns(j, to)
    ensures Rename(t, from, to).Ok? <==> Rename(u, from, to).Ok?
    ensures Rename(t, from, to).Ok? ==>
              && Agree(j, Rename(t, from, to).value, Rename(u, from, to).value)
              && Changed(j, t, Rename(t, from, to).value)
              && Grows(j, t, Rename(t, from, to).value, Rename(u, from, to).value)
  {
    SubtreeLocal(j, t, u, from);
    SubtreeLocal(j, t, u, to);
    if Rename(t, from, to).Ok? {
      GraftLocal(j, t, u, from, EMPTY);
      var t1, u1 := RemoveAll(t, from), RemoveAll(u, from);
      GraftLocal(j, t1, u1, to, Subtree(t, from));
      var t2, u2 := Rename(t, from, to).value, Rename(u, from, to).value;
      assert t2 == Graft(t1, to, Subtree(t, from)) && u2 == Graft(u1, to, Subtree(t, from));
      forall k | !Owns(j, k) ensures SameAt(t, t2, k) {
        assert SameAt(t, t1, k) && SameAt(t1, t2, k);
      }
    }
  }

  lemma RemoveLocal(j: Job, t: Tree, u: Tree, root: Key)
    requires Agree(j, t, u) && Separate(j) && Owns(j, root)
    ensures Agree(j, Remove(t, root), Remove(u, root))
    ensures Changed(j, t, Remove(t, root)) && Grows(j, t, Remove(t, root), Remove(u, root))
  {
    forall k | root <= k ensures SameAt(t, u, k) {
      OwnsBelow(j, root, k);
    }
    assert SameAt(t, u, root);
    assert Removable(t, root) <==> Removable(u, root) by {
      forall k | root <= k ensures k in t <==> k in u { assert SameAt(t, u, k); }
    }
    GraftLocal(j, t, u, root, EMPTY);
  }

  lemma RootOwned(j: Job, s: Slot)
    ensures Owns(j, Root(j, s))
  {
    assert Root(j, s) <= Root(j, s);
  }

  lemma AgreeOnRoot(j: Job, s: Slot, t: Tree, u: Tree)
    requires Agree(j, t, u)
    ensures Subtree(t, Root(j, s)) == Subtree(u, Root(j, s)) && SameAt(t, u, Root(j, s))
  {
    RootOwned(j, s);
    SubtreeLocal(j, t, u, Root(j, s));
  }

  /** Keys on the way to a root's parent directory lie above that root. */
  lemma ParentsAbove(j: Job, s: Slot)
    requires Separate(j)
    ensures forall k :: k <= Front(Root(j, s)) ==> Above(j, k)
  {
    forall k | k <= Front(Root(j, s)) ensures Above(j, k) {
      assert k < Root(j, s);
    }
  }

  lemma ExportDirClassified(j: Job, name: string)
    ensures Owns(j, j.metadata + [name])
    ensures forall k :: k <= j.metadata + [name] ==> Owns(j, k) || Above(j, k)
  {
    assert j.metadata == Root(j, Metadata);
    forall k | k <= j.metadata + [name] ensures Owns(j, k) || Above(j, k) {
      if |k| >= |j.metadata| {
        assert j.metadata == k[..|j.metadata|];
        assert Root(j, Metadata) <= k;
      } else {
        assert k == j.metadata[..|k|];
        assert k < Root(j, Metadata);
      }
    }
  }

  /** What the step relation owes the rest of the system. */
  ghost predicate StepsAlike(j: Job, t: Tree, u: Tree, t': Tree, u': Tree) {
    Agree(j, t', u') && Changed(j, t, t') && Grows(j, t, t', u')
  }

  lemma SyncStepLocal(j: Job, s: SyncStage, t: Tree, u: Tree)
    requires Agree(j, t, u) && Separate(j)
    ensures var (s1, t') := Mirror.Step(j.env.remote, j.place, s, t);
            var (s2, u') := Mirror.Step(j.env.remote, j.place, s, u);
            s1 == s2 && StepsAlike(j, t, u, t', u')
  {
    var r, p := j.env.remote, j.place;
    assert p.dir == Root(j, Slot.Mirror) && p.partial == Root(j, Partial);
    RootOwned(j, Slot.Mirror);
    RootOwned(j, Partial);
    match s
    case Check =>
      OwnsBelow(j, p.dir, p.dir + ["HEAD"]);
      assert SameAt(t, u, p.dir + ["HEAD"]);
    case Clear =>
      SubtreeLocal(j, t, u, p.partial);
      match r.clear {
        case Removed => GraftLocal(j, t, u, p.partial, EMPTY);
        case Stuck(keep) => GraftLocal(j, t, u, p.partial, Mirror.Kept(Subtree(t, p.partial), keep));
      }
    case Clone => GraftLocal(j, t, u, p.partial, r.clone.tree);
    case Rename => RenameLocal(j, t, u, p.partial, p.dir);
    case Update =>
      SubtreeLocal(j, t, u, p.dir);
      GraftLocal(j, t, u, p.dir, r.update(Subtree(t, p.dir)).tree);
    case Lfs =>
      SubtreeLocal(j, t, u, p.dir);
      GraftLocal(j, t, u, p.dir, Mirror.SyncLfs(r, Subtree(t, p.dir)).tree);
  }

  lemma ExportEffectLocal(j: Job, w: State, t: Tree, u: Tree)
    requires Agree(j, t, u) && Separate(j) && (w.stage.MakeExportDir? || w.stage.Export?)
    ensures StepOk(j, w, t) == StepOk(j, w, u)
    ensures StepsAlike(j, t, u, ExportEffect(j, w, t), ExportEffect(j, w, u))
  {
    if w.stage.k < |j.exporters| {
      if w.stage.Export? {
        ExportLocal(j, w.stage.k, t, u);
      } else {
        ExportDirLocal(j, w.stage.k, t, u);
      }
    }
  }

  lemma ExportLocal(j: Job, k: nat, t: Tree, u: Tree)
    requires Agree(j, t, u) && Separate(j) && k < |j.exporters|
    ensures Exported(j, t, k) == Exported(j, u, k)
    ensures StepsAlike(j, t, u, Graft(t, j.ExportDir(k), Exported(j, t, k).tree), Graft(u, j.ExportDir(k), Exported(j, u, k).tree))
  {
    ExportDirClassified(j, j.exporters[k].DirName());
    SubtreeLocal(j, t, u, j.ExportDir(k));
    GraftLocal(j, t, u, j.ExportDir(k), Exported(j, t, k).tree);
  }

  lemma ExportDirLocal(j: Job, k: nat, t: Tree, u: Tree)
    requires Agree(j, t, u) && Separate(j) && k < |j.exporters|
    ensures ExportDirMade(j, t, k) == ExportDirMade(j, u, k)
    ensures ExportDirMade(j, t, k) ==>
              StepsAlike(j, t, u, MkdirAll(t, j.ExportDir(k)).value, MkdirAll(u, j.ExportDir(k)).value)
  {
    ExportDirClassified(j, j.exporters[k].DirName());
    MkdirLocal(j, t, u, j.ExportDir(k));
  }

  lemma SourceLocal(j: Job, w: State, t: Tree, u: Tree)
    requires Agree(j, t, u)
    ensures Source(j, w, t) == Source(j, w, u)
  {
    RootOwned(j, Slot.Mirror);
    SubtreeLocal(j, t, u, j.place.dir);
  }

  /** Writing the temporary file, or taking it away again. */
  lemma TempLocal(j: Job, t: Tree, u: Tree, data: Blob)
    requires Agree(j, t, u) && Separate(j)
    ensures StepsAlike(j, t, u, TempFile(t, j, data), TempFile(u, j, data))
    ensures StepsAlike(j, t, u, Remove(t, j.tmp), Remove(u, j.tmp))
    ensures IsDir(t, j.tmp) == IsDir(u, j.tmp)
  {
    RootOwned(j, Temp);
    SubtreeLocal(j, t, u, j.tmp);
    RemoveLocal(j, t, u, j.tmp);
    GraftLocal(j, t, u, j.tmp, map[[] := File(0x1A4, data)]);
  }

  lemma CreateLocal(j: Job, w: State, t: Tree, u: Tree)
    requires Agree(j, t, u) && Separate(j) && w.stage.CreateTemp?
    ensures CanCreate(j, w, t) == CanCreate(j, w, u)
    ensures StepsAlike(j, t, u, ArchiveEffect(j, w, t), ArchiveEffect(j, w, u))
  {
    TempLocal(j, t, u, TarGz([], false));
    var m := Source(j, w, t);
    assert Source(j, w, u) == m by { SourceLocal(j, w, t, u); }
    assert CanCreate(j, w, t) == (j.env.createOk && IsDir(m, []) && !IsDir(t, j.tmp));
    assert CanCreate(j, w, u) == (j.env.createOk && IsDir(m, []) && !IsDir(u, j.tmp));
  }

  lemma FillLocal(j: Job, w: State, t: Tree, u: Tree)
    requires Agree(j, t, u) && Separate(j) && w.stage.FillTemp?
    ensures StepsAlike(j, t, u, ArchiveEffect(j, w, t), ArchiveEffect(j, w, u))
  {
    SourceLocal(j, w, t, u);
    TempLocal(j, t, u, Torn(j.pack(Source(j, w, t)), j.env.torn));
  }

  lemma CloseLocal(j: Job, w: State, t: Tree, u: Tree)
    requires Agree(j, t, u) && Separate(j) && w.stage.CloseTemp?
    ensures CanClose(j, w, t) == CanClose(j, w, u)
    ensures StepsAlike(j, t, u, ArchiveEffect(j, w, t), ArchiveEffect(j, w, u))
  {
    assert Source(j, w, t) == Source(j, w, u) by { SourceLocal(j, w, t, u); }
    assert CanClose(j, w, t) == CanClose(j, w, u);
    if CanClose(j, w, t) {
      ClosedLocal(j, w, t, u);
    } else {
      TempLocal(j, t, u, TarGz([], false));
    }
  }

  lemma ClosedLocal(j: Job, w: State, t: Tree, u: Tree)
    requires Agree(j, t, u) && Separate(j) && w.stage.CloseTemp? && Source(j, w, t) == Source(j, w, u) && CanClose(j, w, t)
    ensures StepsAlike(j, t, u, ArchiveEffect(j, w, t), ArchiveEffect(j, w, u))
  {
    var data := TarGz(j.pack(Source(j, w, t)).value, true);
    TempLocal(j, t, u, data);
    assert ArchiveEffect(j, w, t) == TempFile(t, j, data) && ArchiveEffect(j, w, u) == TempFile(u, j, data);
  }

  lemma ArchiveEffectLocal(j: Job, w: State, t: Tree, u: Tree)
    requires Agree(j, t, u) && Separate(j)
    requires w.stage.CreateTemp? || w.stage.FillTemp? || w.stage.CloseTemp? || w.stage.RenameTemp?
    ensures StepOk(j, w, t) == StepOk(j, w, u)
    ensures StepsAlike(j, t, u, ArchiveEffect(j, w, t), ArchiveEffect(j, w, u))
  {
    if w.stage.CreateTemp? {
      CreateLocal(j, w, t, u);
    } else if w.stage.FillTemp? {
      FillLocal(j, w, t, u);
    } else if w.stage.CloseTemp? {
      CloseLocal(j, w, t, u);
    } else {
      RootOwned(j, Temp);
      RootOwned(j, Slot.Archive);
      RenameLocal(j, t, u, j.tmp, j.out);
      AgreeSame(j, t);
    }
  }

  /** Locality: on two trees that look alike to the worker, a step gets the same answers,
      leaves trees that still look alike, and changes nothing of anybody else's. */
  lemma StepLocal(j: Job, w: State, t: Tree, u: Tree)
    requires Agree(j, t, u) && Separate(j) && !w.stage.Ended?
    ensures Ask(j, w, t) == Ask(j, w, u)
    ensures StepsAlike(j, t, u, Effect(j, w, t), Effect(j, w, u))
  {
    if w.stage.Sync? {
      SyncStepLocal(j, w.stage.s, t, u);
    } else if w.stage.MakeExportDir? || w.stage.Export? {
      ExportEffectLocal(j, w, t, u);
    } else if w.stage.MakeParent? {
      ParentsAbove(j, Slot.Mirror);
      MkdirLocal(j, t, u, Front(j.place.dir));
    } else if w.stage.MakeArchiveParent? {
      ParentsAbove(j, Slot.Archive);
      MkdirLocal(j, t, u, Front(j.out));
    } else if !w.stage.Begin? {
      ArchiveEffectLocal(j, w, t, u);
    }
  }

  /** Locality of the whole worker. */
  lemma {:induction false} FinishLocal(j: Job, w: State, t: Tree, u: Tree)
    requires Agree(j, t, u) && Separate(j)
    ensures Finish(j, w, t).0 == Finish(j, w, u).0
    ensures StepsAlike(j, t, u, Finish(j, w, t).1, Finish(j, w, u).1)
    decreases Rank(j, w)
  {
    if !w.stage.Ended? {
      StepLocal(j, w, t, u);
      RankDrops(j, w, t);
      var t1, u1 := Effect(j, w, t), Effect(j, w, u);
      var w1 := Next(j, w, t);
      FinishLocal(j, w1, t1, u1);
      FinishUnfold(j, w, t);
      FinishUnfold(j, w, u);
      var t2, u2 := Finish(j, w1, t1).1, Finish(j, w1, u1).1;
      ChangedTwice(j, t, t1, t2);
      forall k | !Owns(j, k) && k in t2 && k !in t ensures k in u2 {
        if k in t1 {
          assert k in u1;
          FinishKeeps(j, w1, u1);
          assert SameAt(u1, u2, k) || NewDir(u1, u2, k);
        }
      }
    }
  }

  lemma FinishUnfold(j: Job, w: State, t: Tree)
    requires !w.stage.Ended?
    ensures Finish(j, w, t) == Finish(j, Next(j, w, t), Effect(j, w, t))
  {
    RankDrops(j, w, t);
  }

  lemma ChangedTwice(j: Job, t: Tree, t1: Tree, t2: Tree)
    requires Changed(j, t, t1) && Changed(j, t1, t2)
    ensures Changed(j, t, t2)
  {
    forall k | !Owns(j, k) ensures SameAt(t, t2, k) || (NewDir(t, t2, k) && Above(j, k)) {
      assert SameAt(t, t1, k) || (NewDir(t, t1, k) && Above(j, k));
      assert SameAt(t1, t2, k) || (NewDir(t1, t2, k) && Above(j, k));
    }
  }

  lemma {:induction false} FinishKeeps(j: Job, w: State, t: Tree)
    requires Separate(j)
    ensures Changed(j, t, Finish(j, w, t).1)
    decreases Rank(j, w)
  {
    if !w.stage.Ended? {
      AgreeSame(j, t);
      StepLocal(j, w, t, t);
      RankDrops(j, w, t);
      FinishUnfold(j, w, t);
      FinishKeeps(j, Next(j, w, t), Effect(j, w, t));
      ChangedTwice(j, t, Effect(j, w, t), Finish(j, w, t).1);
    }
  }

  /** Two workers whose names do not overlap. */
  ghost predicate Strangers(i: Job, j: Job) {
    && (forall k :: Owns(i, k) ==> !Owns(j, k) && !Above(j, k))
    && (forall k :: Above(i, k) ==> !Owns(j, k))
  }

  /** A stranger's work is invisible. */
  lemma StrangerUnseen(i: Job, j: Job, t: Tree, t': Tree)
    requires Strangers(i, j) && Changed(j, t, t')
    ensures Agree(i, t, t')
  {
    forall k | Owns(i, k) ensures SameAt(t, t', k) {
      assert !Owns(j, k) && !Above(j, k);
    }
    forall k | Above(i, k) ensures NonDir(t, k) <==> NonDir(t', k) {
      assert SameAt(t, t', k) || NewDir(t, t', k);
    }
  }
}
