/** Mirror.Sync: clone-or-update of one bare mirror, as the sequence of file-system steps
    it takes, so that a run can be cut short after any of them. */
module Mirror {
  import opened Names
  import opened Trees

  /** What an external command leaves behind, whether it reported success or not. */
  datatype Attempt = Attempt(ok: bool, tree: Tree)

  /** os.RemoveAll either succeeds or gives up with some of the nodes still there. */
  datatype Removal = Removed | Stuck(keep: set<Key>)

  /** How `git grep` for an LFS filter ended: exit status 0, 1, or anything else. */
  datatype Grep = Match | NoMatch | Broken

  /** What Git LFS needs to know of the mirror, and whether git-lfs is installed. */
  datatype LfsTools = LfsTools(
    refTips: Tree -> Maybe<nat>,
    grep: Tree -> Grep,
    found: bool,
    fetch: Tree -> Attempt)

  /** Everything outside the process that one Sync depends on. `update` and the LFS tools
      get the mirror as they find it. A failing `clone` may leave any tree behind. */
  datatype Remote = Remote(
    gitFound: bool,
    clear: Removal,
    clone: Attempt,
    renameOk: bool,
    update: Tree -> Attempt,
    lfs: LfsTools)

  function UsesLfs(r: Remote, mirror: Tree): Maybe<bool> {
    match r.lfs.refTips(mirror)
    case Err => Err
    case Ok(0) => Ok(false)
    case Ok(_) =>
      match r.lfs.grep(mirror)
      case Match => Ok(true)
      case NoMatch => Ok(false)
      case Broken => Err
  }

  function SyncLfs(r: Remote, mirror: Tree): Attempt {
    match UsesLfs(r, mirror)
    case Err => Attempt(false, mirror)
    case Ok(false) => Attempt(true, mirror)
    case Ok(true) => if r.lfs.found then r.lfs.fetch(mirror) else Attempt(false, mirror)
  }

  /* ---- the LFS stage, by what the tools answer ---- */

  /** There are refs, and `git grep` finds a file in one of them that is kept with LFS. */
  predicate TracksLfs(r: Remote, mirror: Tree) {
    var tips := r.lfs.refTips(mirror);
    tips.Ok? && tips.value > 0 && r.lfs.grep(mirror).Match?
  }

  /** git was able to tell. */
  predicate LfsTold(r: Remote, mirror: Tree) {
    var tips := r.lfs.refTips(mirror);
    tips.Ok? && (tips.value > 0 ==> r.lfs.grep(mirror).Match? || r.lfs.grep(mirror).NoMatch?)
  }

  predicate LfsWorks(r: Remote, mirror: Tree) {
    LfsTold(r, mirror) && (TracksLfs(r, mirror) ==> r.lfs.found && r.lfs.fetch(mirror).ok)
  }

  /** The mirror with its LFS content: as `git lfs fetch` leaves it, if it keeps any there. */
  function WithLfs(r: Remote, mirror: Tree): Tree {
    if TracksLfs(r, mirror) then r.lfs.fetch(mirror).tree else mirror
  }

  /** The stage works exactly if git can tell whether the mirror tracks a file with LFS and, if
      it does, git-lfs is installed and fetches. It then leaves what was fetched; a mirror that
      tracks none is left alone, and so is one that git-lfs is missing for. */
  lemma LfsExactly(r: Remote, mirror: Tree)
    ensures SyncLfs(r, mirror).ok <==> LfsWorks(r, mirror)
    ensures LfsWorks(r, mirror) ==> SyncLfs(r, mirror).tree == WithLfs(r, mirror)
    ensures !TracksLfs(r, mirror) || !r.lfs.found ==> SyncLfs(r, mirror).tree == mirror
  {
  }

  /** Installing git-lfs makes a difference to exactly the mirrors that track a file with it. */
  lemma LfsOnlyWhenUsed(r: Remote, mirror: Tree)
    ensures SyncLfs(r.(lfs := r.lfs.(found := false)), mirror).ok <==> LfsTold(r, mirror) && !TracksLfs(r, mirror)
    ensures LfsTold(r, mirror) && !TracksLfs(r, mirror) ==> SyncLfs(r, mirror) == Attempt(true, mirror)
    ensures TracksLfs(r, mirror) && r.lfs.found ==> SyncLfs(r, mirror) == r.lfs.fetch(mirror)
  {
    var r' := r.(lfs := r.lfs.(found := false));
    assert TracksLfs(r', mirror) == TracksLfs(r, mirror) && LfsTold(r', mirror) == LfsTold(r, mirror);
  }

  datatype Stage = Check | Clear | Clone | Rename | Update | Lfs | Done | Failed

  predicate Ended(s: Stage) {
    s.Done? || s.Failed?
  }

  function Kept(t: Tree, keep: set<Key>): Tree {
    map k | k in t && k in keep :: t[k]
  }

  ghost function RemoveTree(t: Tree, k: Key, r: Removal): Tree {
    match r
    case Removed => RemoveAll(t, k)
    case Stuck(keep) => Graft(t, k, Kept(Subtree(t, k), keep))
  }

  /** Where a mirror lives, and the sibling a first clone is built in. */
  datatype Place = Place(dir: Key, partial: Key)

  function PlaceAt(dir: Key): Place
    requires dir != []
  {
    Place(dir, Extend(dir, ".partial"))
  }

  /** One step of Sync. */
  ghost function Step(r: Remote, p: Place, s: Stage, t: Tree): (Stage, Tree)
    requires !Ended(s)
  {
    match s
    case Check =>
      if !r.gitFound then (Failed, t)
      else if p.dir + ["HEAD"] in t then (Update, t)
      else (Clear, t)
    case Clear =>
      (if r.clear.Removed? then Clone else Failed, RemoveTree(t, p.partial, r.clear))
    case Clone =>
      (if r.clone.ok then Rename else Failed, Graft(t, p.partial, r.clone.tree))
    case Rename =>
      var moved := Trees.Rename(t, p.partial, p.dir);
      if r.renameOk && moved.Ok? then (Lfs, moved.value) else (Failed, t)
    case Update =>
      var a := r.update(Subtree(t, p.dir));
      (if a.ok then Lfs else Failed, Graft(t, p.dir, a.tree))
    case Lfs =>
      var a := SyncLfs(r, Subtree(t, p.dir));
      (if a.ok then Done else Failed, Graft(t, p.dir, a.tree))
  }

  function Rank(s: Stage): nat {
    match s
    case Check => 5
    case Clear => 4
    case Clone => 3
    case Rename => 2
    case Update => 2
    case Lfs => 1
    case Done => 0
    case Failed => 0
  }

  /** Sync run to its end from stage `s`: whether it succeeded, and the tree it leaves. */
  ghost function Sync(r: Remote, p: Place, s: Stage, t: Tree): (bool, Tree)
    decreases Rank(s)
  {
    if Ended(s) then (s.Done?, t)
    else
      var (s', t') := Step(r, p, s, t);
      Sync(r, p, s', t')
  }

  ghost predicate AllSucceed(r: Remote, mirror: Tree) {
    && r.gitFound && r.clear.Removed? && r.clone.ok && r.renameOk
    && r.update(mirror).ok
    && LfsWorks(r, r.update(mirror).tree)
    && LfsWorks(r, r.clone.tree)
  }

  ghost predicate Beside(p: Place) {
    !(p.partial <= p.dir) && !(p.dir <= p.partial)
  }

  lemma PartialIsBeside(dir: Key)
    requires dir != []
    ensures Beside(PlaceAt(dir)) && |PlaceAt(dir).partial| == |dir| && Front(PlaceAt(dir).partial) == Front(dir)
  {
    var p := Extend(dir, ".partial");
    assert Last(p) == Last(dir) + ".partial";
    assert |Last(p)| != |Last(dir)|;
    assert p[|dir| - 1] != dir[|dir| - 1];
  }

  /** The step that takes Sync from one stage to the next leaves its end result alone. */
  lemma SyncUnfold(r: Remote, p: Place, s: Stage, t: Tree)
    requires !Ended(s)
    ensures Sync(r, p, s, t) == Sync(r, p, Step(r, p, s, t).0, Step(r, p, s, t).1)
  {
  }

  lemma GraftTwice(t: Tree, k: Key, a: Tree, b: Tree)
    ensures Graft(Graft(t, k, a), k, b) == Graft(t, k, b)
  {
    var u, goal := Graft(Graft(t, k, a), k, b), Graft(t, k, b);
    forall j ensures SameAt(u, goal, j) {
      assert SameAt(Graft(t, k, a), t, j) || k <= j;
    }
    SameEverywhere(u, goal);
  }

  lemma LfsStep(r: Remote, p: Place, t: Tree, m: Tree)
    ensures Sync(r, p, Lfs, Graft(t, p.dir, m)) == (LfsWorks(r, m), Graft(t, p.dir, SyncLfs(r, m).tree))
    ensures LfsWorks(r, m) ==> SyncLfs(r, m).tree == WithLfs(r, m)
  {
    LfsExactly(r, m);
    SubtreeOfGraft(t, p.dir, m);
    GraftTwice(t, p.dir, m, SyncLfs(r, m).tree);
  }

  /** A refresh: with every external step succeeding, an existing mirror becomes the
      updated one with its LFS content, and nothing else changes. */
  lemma SyncUpdates(r: Remote, p: Place, t: Tree)
    requires AllSucceed(r, Subtree(t, p.dir)) && p.dir + ["HEAD"] in t
    ensures Sync(r, p, Check, t) ==
            (true, Graft(t, p.dir, WithLfs(r, r.update(Subtree(t, p.dir)).tree)))
  {
    SyncUpdate(r, p, t);
  }

  lemma SyncUpdate(r: Remote, p: Place, t: Tree)
    requires r.gitFound && p.dir + ["HEAD"] in t
    ensures var a := r.update(Subtree(t, p.dir));
            && (Sync(r, p, Check, t).0 <==> a.ok && LfsWorks(r, a.tree))
            && (Sync(r, p, Check, t).0 ==> Sync(r, p, Check, t).1 == Graft(t, p.dir, WithLfs(r, a.tree)))
            && (!a.ok ==> Sync(r, p, Check, t).1 == Graft(t, p.dir, a.tree))
  {
    var a := r.update(Subtree(t, p.dir));
    SyncUnfold(r, p, Check, t);
    SyncUnfold(r, p, Update, t);
    LfsStep(r, p, t, a.tree);
  }

  ghost function ClonedPartial(r: Remote, p: Place, t: Tree): Tree {
    Graft(RemoveAll(t, p.partial), p.partial, r.clone.tree)
  }

  /** A renamed-over name must be free, or a file that a file takes the place of. */
  ghost predicate Fits(m: Tree, t: Tree, dir: Key) {
    [] in m && (dir in t ==> !t[dir].Dir? && !m[[]].Dir?)
  }

  lemma ClonedPartialFacts(r: Remote, p: Place, t: Tree)
    requires Beside(p)
    ensures var u := ClonedPartial(r, p, t);
            && (p.partial in u <==> [] in r.clone.tree)
            && (p.partial in u ==> u[p.partial] == r.clone.tree[[]])
            && SameAt(u, t, p.dir)
            && Subtree(u, p.partial) == r.clone.tree
            && RemoveAll(u, p.partial) == RemoveAll(t, p.partial)
  {
    var t1 := RemoveAll(t, p.partial);
    var u := ClonedPartial(r, p, t);
    assert p.partial[|p.partial|..] == [];
    SubtreeOfGraft(t1, p.partial, r.clone.tree);
    assert SameAt(u, t1, p.dir) && SameAt(t1, t, p.dir);
    GraftTwice(t1, p.partial, r.clone.tree, EMPTY);
    GraftTwice(t, p.partial, EMPTY, EMPTY);
  }

  /** The rename step moves the finished clone onto a free name, and fails on a taken one. */
  lemma RenameStep(r: Remote, p: Place, t: Tree)
    requires Beside(p)
    ensures var u := ClonedPartial(r, p, t);
            Step(r, p, Rename, u) ==
            if r.renameOk && Fits(r.clone.tree, t, p.dir) then (Lfs, Graft(RemoveAll(t, p.partial), p.dir, r.clone.tree))
            else (Failed, u)
  {
    ClonedPartialFacts(r, p, t);
  }

  /** Everything up to and including the rename works. */
  ghost predicate Clones(r: Remote, p: Place, t: Tree) {
    r.gitFound && r.clear.Removed? && r.clone.ok && r.renameOk && Fits(r.clone.tree, t, p.dir)
  }

  lemma SyncClone(r: Remote, p: Place, t: Tree)
    requires Beside(p) && p.dir + ["HEAD"] !in t
    ensures Sync(r, p, Check, t).0 <==> Clones(r, p, t) && LfsWorks(r, r.clone.tree)
    ensures Sync(r, p, Check, t).0 ==> Sync(r, p, Check, t).1 == Graft(RemoveAll(t, p.partial), p.dir, WithLfs(r, r.clone.tree))
  {
    SyncUnfold(r, p, Check, t);
    if r.gitFound {
      SyncUnfold(r, p, Clear, t);
      if r.clear.Removed? {
        SyncUnfold(r, p, Clone, RemoveAll(t, p.partial));
        if r.clone.ok {
          var u := ClonedPartial(r, p, t);
          SyncUnfold(r, p, Rename, u);
          RenameStep(r, p, t);
          LfsStep(r, p, RemoveAll(t, p.partial), r.clone.tree);
        }
      }
    }
  }

  /** When Sync works at all, whatever fails: told from the tree and the answers before it. */
  ghost predicate Works(r: Remote, p: Place, t: Tree) {
    if p.dir + ["HEAD"] in t then
      var a := r.update(Subtree(t, p.dir));
      r.gitFound && a.ok && LfsWorks(r, a.tree)
    else Clones(r, p, t) && LfsWorks(r, r.clone.tree)
  }

  /** What the mirror then is. */
  ghost function Synced(r: Remote, p: Place, t: Tree): Tree {
    WithLfs(r, if p.dir + ["HEAD"] in t then r.update(Subtree(t, p.dir)).tree else r.clone.tree)
  }

  /** Sync exactly: when it succeeds, and then the mirror it leaves. */
  lemma SyncExactly(r: Remote, p: Place, t: Tree)
    requires Beside(p)
    ensures Sync(r, p, Check, t).0 <==> Works(r, p, t)
    ensures Works(r, p, t) ==> Subtree(Sync(r, p, Check, t).1, p.dir) == Synced(r, p, t)
  {
    if p.dir + ["HEAD"] in t {
      SyncUnfold(r, p, Check, t);
      if r.gitFound {
        SyncUpdate(r, p, t);
        SubtreeOfGraft(t, p.dir, Synced(r, p, t));
      }
    } else {
      SyncClone(r, p, t);
      SubtreeOfGraft(RemoveAll(t, p.partial), p.dir, Synced(r, p, t));
    }
  }

  /** However it ends, Sync touches nothing but the mirror and its `.partial`. */
  lemma {:induction false} SyncStaysPut(r: Remote, p: Place, s: Stage, t: Tree, k: Key)
    requires !(p.dir <= k) && !(p.partial <= k)
    ensures SameAt(t, Sync(r, p, s, t).1, k)
    decreases Rank(s)
  {
    if !Ended(s) {
      var (s', t') := Step(r, p, s, t);
      StepStaysPut(r, p, s, t, k);
      SyncUnfold(r, p, s, t);
      SyncStaysPut(r, p, s', t', k);
    }
  }

  lemma StepStaysPut(r: Remote, p: Place, s: Stage, t: Tree, k: Key)
    requires !Ended(s) && !(p.dir <= k) && !(p.partial <= k)
    ensures SameAt(t, Step(r, p, s, t).1, k)
  {
    if s.Rename? {
      assert SameAt(RemoveAll(t, p.partial), t, k);
    }
  }

  /** A clone that fails anywhere up to the rename leaves the mirror's place as it was. */
  lemma FailedCloneStaysPut(r: Remote, p: Place, t: Tree, k: Key)
    requires Beside(p) && p.dir + ["HEAD"] !in t && !Clones(r, p, t) && p.dir <= k
    ensures SameAt(t, Sync(r, p, Check, t).1, k)
  {
    if p.partial <= k {
      PrefixesNest(p.partial, p.dir, k);
      assert false;
    }
    SyncUnfold(r, p, Check, t);
    if r.gitFound {
      SyncUnfold(r, p, Clear, t);
      if r.clear.Removed? {
        var t1 := RemoveAll(t, p.partial);
        assert SameAt(t1, t, k);
        SyncUnfold(r, p, Clone, t1);
        if r.clone.ok {
          SyncUnfold(r, p, Rename, ClonedPartial(r, p, t));
          RenameStep(r, p, t);
        }
      }
    }
  }

  /** A first clone: whatever `.partial` held before, the mirror ends up as the clone with
      its LFS content, no `.partial` is left and nothing else changes. */
  lemma SyncClones(r: Remote, p: Place, t: Tree)
    requires Beside(p) && AllSucceed(r, Subtree(t, p.dir))
    requires WellFormed(t) && p.dir !in t && IsDir(r.clone.tree, [])
    ensures Sync(r, p, Check, t) ==
            (true, Graft(RemoveAll(t, p.partial), p.dir, WithLfs(r, r.clone.tree)))
  {
    EmptySubtree(t, p.dir);
    assert p.dir <= p.dir + ["HEAD"];
    SyncClone(r, p, t);
  }

  /** Something without a HEAD at `dir` (a half-deleted mirror, say) blocks the rename:
      with every external step succeeding, Sync succeeds exactly when the mirror already
      has a HEAD or nothing at all is at `dir`. */
  lemma SyncSucceedsIff(r: Remote, p: Place, t: Tree)
    requires Beside(p) && AllSucceed(r, Subtree(t, p.dir)) && IsDir(r.clone.tree, [])
    ensures Sync(r, p, Check, t).0 <==> p.dir + ["HEAD"] in t || p.dir !in t
  {
    SyncExactly(r, p, t);
  }
}
