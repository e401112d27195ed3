/** What prune removes, what it leaves alone, and that it leaves nothing stale behind. */
module Prune {
  import opened Names
  import opened Order
  import opened Trees
  import opened Worker
  import opened Scan
  import Mirror

  /** How each removal goes; `archive(p)` is false when os.Remove fails for reasons of its
      own. */
  datatype Removals = Removals(mirror: string -> Mirror.Removal, archive: string -> bool)

  /** The mirror goes first; only if it is gone does the path count as pruned and the archive
      follow, and a failure there is only logged. */
  ghost function PruneOne(t: Tree, l: Layout, p: string, r: Removals): Tree {
    var t' := Mirror.RemoveTree(t, MirrorPath(l, p), r.mirror(p));
    if r.mirror(p).Removed? && r.archive(p) then Remove(t', ArchivePath(l, p)) else t'
  }

  ghost function PruneAll(t: Tree, l: Layout, stale: seq<string>, r: Removals): (nat, Tree)
    decreases |stale|
  {
    if stale == [] then (0, t)
    else
      var (n, u) := PruneAll(PruneOne(t, l, stale[0], r), l, stale[1..], r);
      (n + if r.mirror(stale[0]).Removed? then 1 else 0, u)
  }

  ghost predicate NoneFail(stale: seq<string>, r: Removals) {
    forall p :: p in stale ==> r.mirror(p).Removed? && r.archive(p)
  }

  /* ---- one removal ---- */

  lemma MirrorTakes(t: Tree, m: Key, r: Mirror.Removal, k: Key)
    ensures var u := Mirror.RemoveTree(t, m, r);
            && (k in u ==> k in t && u[k] == t[k])
            && (!(m <= k) ==> SameAt(t, u, k))
  {
    var u := Mirror.RemoveTree(t, m, r);
    if m <= k {
      assert m + k[|m|..] == k;
      if k in u {
        assert k[|m|..] in Subtree(t, m);
      }
    } else {
      assert SameAt(u, t, k);
    }
  }

  lemma ArchiveTakes(t: Tree, a: Key, k: Key)
    ensures var u := Remove(t, a);
            && (k in u ==> k in t && u[k] == t[k])
            && (k != a ==> SameAt(t, u, k))
  {
    var u := Remove(t, a);
    if Removable(t, a) {
      if a <= k {
        assert k in t ==> k == a;
        assert k !in u;
      } else {
        assert SameAt(u, t, k);
      }
    }
  }

  /** A removal only ever takes nodes away, and only those of the path it is for. */
  lemma PruneOneTakes(t: Tree, l: Layout, p: string, r: Removals, k: Key)
    ensures var u := PruneOne(t, l, p, r);
            && (k in u ==> k in t && u[k] == t[k])
            && (!(MirrorPath(l, p) <= k) && k != ArchivePath(l, p) ==> SameAt(t, u, k))
  {
    MirrorTakes(t, MirrorPath(l, p), r.mirror(p), k);
    ArchiveTakes(Mirror.RemoveTree(t, MirrorPath(l, p), r.mirror(p)), ArchivePath(l, p), k);
  }

  lemma {:induction false} PruneTakes(t: Tree, l: Layout, stale: seq<string>, r: Removals, k: Key)
    ensures var u := PruneAll(t, l, stale, r).1;
            && (k in u ==> k in t && u[k] == t[k])
            && ((forall p :: p in stale ==> !(MirrorPath(l, p) <= k) && k != ArchivePath(l, p)) ==> SameAt(t, u, k))
    decreases |stale|
  {
    if stale != [] {
      PruneOneTakes(t, l, stale[0], r, k);
      var t' := PruneOne(t, l, stale[0], r);
      PruneTakes(t', l, stale[1..], r, k);
      if forall p :: p in stale ==> !(MirrorPath(l, p) <= k) && k != ArchivePath(l, p) {
        assert stale[0] in stale;
        forall p | p in stale[1..] ensures !(MirrorPath(l, p) <= k) && k != ArchivePath(l, p) {
          assert p in stale;
        }
        assert SameAt(t, t', k);
      }
    }
  }

  /** Where the removal of a stale path's mirror succeeds, everything at or below it is gone. */
  lemma {:induction false} PruneReachesMirror(t: Tree, l: Layout, stale: seq<string>, r: Removals, p: string, k: Key)
    requires p in stale && r.mirror(p).Removed? && MirrorPath(l, p) <= k
    ensures k !in PruneAll(t, l, stale, r).1
    decreases |stale|
  {
    var t' := PruneOne(t, l, stale[0], r);
    if p == stale[0] {
      PruneOneReaches(t, l, p, r, k);
      PruneTakes(t', l, stale[1..], r, k);
    } else {
      assert p in stale[1..];
      PruneReachesMirror(t', l, stale[1..], r, p, k);
    }
  }

  /** If that of its archive succeeds as well, so is the archive, being a file or an empty
      directory. */
  lemma {:induction false} PruneReachesArchive(t: Tree, l: Layout, stale: seq<string>, r: Removals, p: string)
    requires p in stale && r.mirror(p).Removed? && r.archive(p)
    requires ArchivePath(l, p) in t ==> Removable(t, ArchivePath(l, p))
    ensures ArchivePath(l, p) !in PruneAll(t, l, stale, r).1
    decreases |stale|
  {
    var t' := PruneOne(t, l, stale[0], r);
    var k := ArchivePath(l, p);
    if p == stale[0] {
      ArchiveGoes(t, l, p, r);
      PruneTakes(t', l, stale[1..], r, k);
    } else {
      assert p in stale[1..];
      if k in t' {
        PruneOneTakes(t, l, stale[0], r, k);
        StaysRemovable(t, l, stale[0], r, k);
      }
      PruneReachesArchive(t', l, stale[1..], r, p);
    }
  }

  lemma PruneOneReaches(t: Tree, l: Layout, p: string, r: Removals, k: Key)
    requires r.mirror(p).Removed? && MirrorPath(l, p) <= k
    ensures k !in PruneOne(t, l, p, r)
  {
    var a := ArchivePath(l, p);
    var t1 := RemoveAll(t, MirrorPath(l, p));
    assert k !in t1;
    assert PruneOne(t, l, p, r) == t1 || PruneOne(t, l, p, r) == Remove(t1, a);
    assert Removable(t1, a) && !(a <= k) ==> SameAt(Remove(t1, a), t1, k);
  }

  lemma StaysRemovable(t: Tree, l: Layout, p: string, r: Removals, k: Key)
    requires Removable(t, k) && k in PruneOne(t, l, p, r)
    ensures Removable(PruneOne(t, l, p, r), k)
  {
    var t' := PruneOne(t, l, p, r);
    forall j | j in t' && k <= j ensures j == k {
      PruneOneTakes(t, l, p, r, j);
    }
  }

  lemma ArchiveGoes(t: Tree, l: Layout, p: string, r: Removals)
    requires r.mirror(p).Removed? && r.archive(p)
    requires ArchivePath(l, p) in t ==> Removable(t, ArchivePath(l, p))
    ensures ArchivePath(l, p) !in PruneOne(t, l, p, r)
  {
    var a := ArchivePath(l, p);
    var t1 := RemoveAll(t, MirrorPath(l, p));
    if a in t1 {
      assert SameAt(t1, t, a);
      forall j | j in t1 && a <= j ensures j == a {
        assert SameAt(t1, t, j);
      }
      assert Removable(t1, a);
    }
    assert PruneOne(t, l, p, r) == Remove(t1, a);
  }

  /** How many of the paths have their mirror removed. */
  ghost function Removed(stale: seq<string>, r: Removals): set<string> {
    set p | p in stale && r.mirror(p).Removed?
  }

  lemma {:induction false} PruneCounts(t: Tree, l: Layout, stale: seq<string>, r: Removals)
    requires Distinct(stale)
    ensures PruneAll(t, l, stale, r).0 == |Removed(stale, r)| <= |stale|
    ensures NoneFail(stale, r) ==> PruneAll(t, l, stale, r).0 == |stale|
    decreases |stale|
  {
    if stale != [] {
      PruneCounts(PruneOne(t, l, stale[0], r), l, stale[1..], r);
      RemovedNext(stale, r);
    }
  }

  lemma RemovedNext(stale: seq<string>, r: Removals)
    requires stale != [] && Distinct(stale)
    ensures |Removed(stale, r)| == |Removed(stale[1..], r)| + if r.mirror(stale[0]).Removed? then 1 else 0
    ensures NoneFail(stale, r) ==> r.mirror(stale[0]).Removed? && NoneFail(stale[1..], r)
  {
    var p, rest := stale[0], stale[1..];
    assert p !in rest;
    assert forall q :: q in stale <==> q == p || q in rest;
    assert Removed(stale, r) == if r.mirror(p).Removed? then Removed(rest, r) + {p} else Removed(rest, r);
  }

  /** The removal of `p` takes `k`: its mirror, but for what a failed removal keeps, and the
      archive itself, if the mirror is gone and the archive can be removed. */
  ghost predicate Takes(l: Layout, r: Removals, p: string, k: Key) {
    || (MirrorPath(l, p) <= k && (r.mirror(p).Stuck? ==> k[|MirrorPath(l, p)|..] !in r.mirror(p).keep))
    || (k == ArchivePath(l, p) && r.mirror(p).Removed? && r.archive(p))
  }

  ghost predicate Doomed(l: Layout, stale: seq<string>, r: Removals, k: Key) {
    exists p :: p in stale && Takes(l, r, p, k)
  }

  /** What can be removed at the archive paths can be removed at any time. */
  ghost predicate ArchivesRemovable(t: Tree, l: Layout, stale: seq<string>) {
    forall p :: p in stale && ArchivePath(l, p) in t ==> Removable(t, ArchivePath(l, p))
  }

  lemma MirrorTakesExactly(t: Tree, m: Key, r: Mirror.Removal, k: Key)
    ensures k in Mirror.RemoveTree(t, m, r) <==> k in t && !(m <= k && (r.Stuck? ==> k[|m|..] !in r.keep))
  {
    MirrorTakes(t, m, r, k);
    if m <= k {
      assert m + k[|m|..] == k;
      assert k in t <==> k[|m|..] in Subtree(t, m);
    }
  }

  lemma PruneOneExactly(t: Tree, l: Layout, p: string, r: Removals, k: Key)
    requires ArchivePath(l, p) in t ==> Removable(t, ArchivePath(l, p))
    ensures k in PruneOne(t, l, p, r) <==> k in t && !Takes(l, r, p, k)
  {
    var m, a := MirrorPath(l, p), ArchivePath(l, p);
    var t' := Mirror.RemoveTree(t, m, r.mirror(p));
    MirrorTakesExactly(t, m, r.mirror(p), k);
    ArchiveTakes(t', a, k);
    if k == a && r.mirror(p).Removed? && r.archive(p) {
      ArchiveGoes(t, l, p, r);
    }
  }

  lemma {:induction false} PruneTakesExactly(t: Tree, l: Layout, stale: seq<string>, r: Removals, k: Key)
    requires ArchivesRemovable(t, l, stale)
    ensures k in PruneAll(t, l, stale, r).1 <==> k in t && !Doomed(l, stale, r, k)
    decreases |stale|
  {
    if stale != [] {
      var p, t' := stale[0], PruneOne(t, l, stale[0], r);
      PruneOneExactly(t, l, p, r, k);
      RemovableAfter(t, l, stale, r);
      PruneTakesExactly(t', l, stale[1..], r, k);
      assert forall q :: q in stale <==> q == p || q in stale[1..];
      assert Doomed(l, stale, r, k) <==> Takes(l, r, p, k) || Doomed(l, stale[1..], r, k);
    }
  }

  lemma RemovableAfter(t: Tree, l: Layout, stale: seq<string>, r: Removals)
    requires stale != [] && ArchivesRemovable(t, l, stale)
    ensures ArchivesRemovable(PruneOne(t, l, stale[0], r), l, stale[1..])
  {
    forall q | q in stale[1..] && ArchivePath(l, q) in PruneOne(t, l, stale[0], r)
      ensures Removable(PruneOne(t, l, stale[0], r), ArchivePath(l, q))
    {
      assert q in stale;
      PruneOneTakes(t, l, stale[0], r, ArchivePath(l, q));
      StaysRemovable(t, l, stale[0], r, ArchivePath(l, q));
    }
  }

  /** Exactness, whichever removals fail: of a stale path's mirror all goes but what a failed
      removal keeps; its archive goes exactly if the mirror is gone and it can be removed itself;
      every other node stays; and the count is that of the paths whose mirror is gone. (An
      "archive" that is a directory with something in it is never removed.) */
  lemma PruneExact(t: Tree, l: Layout, stale: seq<string>, r: Removals)
    requires Distinct(stale) && ArchivesRemovable(t, l, stale)
    ensures var (n, u) := PruneAll(t, l, stale, r);
            n == |Removed(stale, r)| && forall k :: if Doomed(l, stale, r, k) then k !in u else SameAt(t, u, k)
  {
    PruneCounts(t, l, stale, r);
    forall k ensures if Doomed(l, stale, r, k) then k !in PruneAll(t, l, stale, r).1 else SameAt(t, PruneAll(t, l, stale, r).1, k) {
      PruneTakesExactly(t, l, stale, r, k);
      PruneTakes(t, l, stale, r, k);
    }
  }

  /** In particular an archive stays, from any tree, unless its own mirror has been removed and
      it can be as well: after a failed removal a path keeps its archive. */
  lemma {:induction false} FailedRemovalKeepsArchive(t: Tree, l: Layout, stale: seq<string>, r: Removals, p: string)
    requires l.Apart() && (r.mirror(p).Stuck? || !r.archive(p))
    ensures SameAt(t, PruneAll(t, l, stale, r).1, ArchivePath(l, p))
    decreases |stale|
  {
    if stale != [] {
      var q, a := stale[0], ArchivePath(l, p);
      var t' := PruneOne(t, l, q, r);
      assert SameAt(t, t', a) by {
        RootsApart(l, a);
        MirrorTakes(t, MirrorPath(l, q), r.mirror(q), a);
        if q != p {
          if a == ArchivePath(l, q) {
            SlotKeyInjective(l, p, q, Slot.Archive);
          }
          PruneOneTakes(t, l, q, r, a);
        }
      }
      FailedRemovalKeepsArchive(t', l, stale[1..], r, p);
    }
  }

  /* ---- safety ---- */

  /** The mirror of `q` could be hit by removing that of `p`: one lies inside the other. */
  ghost predicate Collide(t: Tree, l: Layout, p: string, q: string) {
    || (MirrorPath(l, p) <= MirrorPath(l, q) && MirrorPath(l, q) in t)
    || (MirrorPath(l, q) <= MirrorPath(l, p) && MirrorPath(l, p) in t)
  }

  ghost predicate MirrorKept(t: Tree, u: Tree, l: Layout, q: string) {
    forall k :: MirrorPath(l, q) <= k ==> SameAt(t, u, k)
  }

  lemma NestedIsSame(l: Layout, p: string, q: string)
    requires MirrorPath(l, p) <= MirrorPath(l, q) && NoGitNamespace(q)
    ensures p == q
  {
    KeyOverlap(l.dest, p, ".git", q, ".git");
    SuffixesDiffer(p, Slot.Mirror, q, Slot.Mirror);
  }

  /** A tame path's mirror is only ever hit by the removal of one further down inside it. */
  lemma NoCollision(t: Tree, l: Layout, p: string, q: string)
    requires p != q && NoGitNamespace(q) && !(MirrorPath(l, q) < MirrorPath(l, p))
    ensures !Collide(t, l, p, q)
  {
    if MirrorPath(l, p) <= MirrorPath(l, q) {
      NestedIsSame(l, p, q);
    } else if MirrorPath(l, p) == MirrorPath(l, q) {
      SlotKeyInjective(l, p, q, Slot.Mirror);
    }
  }

  /** A removal spares every path it does not collide with, and every other path's archive
      outright. */
  lemma PruneSpares(t: Tree, l: Layout, stale: seq<string>, r: Removals, q: string)
    requires l.Apart() && WellFormed(t) && q !in stale
    requires forall p :: p in stale ==> !Collide(t, l, p, q)
    ensures MirrorKept(t, PruneAll(t, l, stale, r).1, l, q)
    ensures SameAt(t, PruneAll(t, l, stale, r).1, ArchivePath(l, q))
  {
    var u := PruneAll(t, l, stale, r).1;
    forall k | MirrorPath(l, q) <= k ensures SameAt(t, u, k) {
      PruneTakes(t, l, stale, r, k);
      if k in t {
        forall p | p in stale ensures !(MirrorPath(l, p) <= k) && k != ArchivePath(l, p) {
          SparedKey(t, l, p, q, k);
        }
      }
    }
    PruneSparesArchive(t, l, stale, r, q);
  }

  /** No removal reaches another path's archive, whatever the names. */
  lemma PruneSparesArchive(t: Tree, l: Layout, stale: seq<string>, r: Removals, q: string)
    requires l.Apart() && q !in stale
    ensures SameAt(t, PruneAll(t, l, stale, r).1, ArchivePath(l, q))
  {
    var a := ArchivePath(l, q);
    PruneTakes(t, l, stale, r, a);
    forall p | p in stale ensures !(MirrorPath(l, p) <= a) && a != ArchivePath(l, p) {
      RootsApart(l, a);
      if a == ArchivePath(l, p) {
        SlotKeyInjective(l, p, q, Slot.Archive);
      }
    }
  }

  lemma CollideAt(t: Tree, l: Layout, p: string, q: string, k: Key)
    requires WellFormed(t) && k in t && MirrorPath(l, q) <= k && MirrorPath(l, p) <= k
    ensures Collide(t, l, p, q)
  {
    PrefixesNest(MirrorPath(l, p), MirrorPath(l, q), k);
    if MirrorPath(l, p) != k {
      AncestorsAreDirs(t, k, MirrorPath(l, p));
    }
    if MirrorPath(l, q) != k {
      AncestorsAreDirs(t, k, MirrorPath(l, q));
    }
  }

  lemma SparedKey(t: Tree, l: Layout, p: string, q: string, k: Key)
    requires l.Apart() && WellFormed(t) && k in t && MirrorPath(l, q) <= k && !Collide(t, l, p, q)
    ensures !(MirrorPath(l, p) <= k) && k != ArchivePath(l, p)
  {
    RootsApart(l, k);
    if MirrorPath(l, p) <= k {
      CollideAt(t, l, p, q, k);
    }
  }

  /** No archive on disk is named as if its repository lay inside the mirror of `q`. */
  ghost predicate NoArchiveInside(t: Tree, l: Layout, q: string) {
    forall p :: OnDiskArchive(t, l, p) ==> !(MirrorPath(l, q) < MirrorPath(l, p))
  }

  /** Safety of one prune, however its removals go: judged against the full listing, a
      repository on it loses neither its mirror nor its archive. Its own namespace must hold no
      "<something>.git", and no archive may be named as if it lay inside its mirror. `t` is the
      tree prune finds, `t0` the one the scan saw, and `n` how far it has got. */
  lemma PruneSparesListed(t0: Tree, t: Tree, l: Layout, repos: seq<Repo>, n: nat, r: Removals, q: string)
    requires l.Apart() && WellFormed(t0) && WellFormed(t)
    requires Listed(repos, q) && NoGitNamespace(q)
    requires NoArchiveInside(t0, l, q) && n <= |StalePaths(t0, l, repos)|
    ensures MirrorKept(t, PruneAll(t, l, StalePaths(t0, l, repos)[..n], r).1, l, q)
    ensures SameAt(t, PruneAll(t, l, StalePaths(t0, l, repos)[..n], r).1, ArchivePath(l, q))
  {
    var stale := StalePaths(t0, l, repos);
    forall p | p in stale[..n] ensures p != q && !Collide(t, l, p, q) {
      assert p in stale;
      StaleIsOutside(t0, l, repos, p, q);
      NoCollision(t, l, p, q);
    }
    PruneSpares(t, l, stale[..n], r, q);
  }

  lemma StaleIsOutside(t0: Tree, l: Layout, repos: seq<Repo>, p: string, q: string)
    requires WellFormed(t0) && NoArchiveInside(t0, l, q) && p in StalePaths(t0, l, repos) && Listed(repos, q)
    ensures p != q && !(MirrorPath(l, q) < MirrorPath(l, p))
  {
    StaleSetIff(t0, l, repos, p);
    if OnDiskMirror(t0, l, p) {
      OnDiskMirrorIff(t0, l, p);
      if MirrorPath(l, q) <= MirrorPath(l, p) {
        NestedIsSame(l, q, p);
      }
    }
  }

  /** Without that condition the promise fails. "a" is listed; an archive "a.git/b" that nobody
      lists makes prune remove a.git/b.git, a directory inside the live mirror of "a". */
  lemma ArchiveInsideMirror() returns (t: Tree, l: Layout, repos: seq<Repo>, r: Removals)
    ensures l.Apart() && WellFormed(t) && repos == [Repo("a", false, false)] && Tame("a")
    ensures NoneFail(StalePaths(t, l, repos), r)
    ensures !MirrorKept(t, PruneAll(t, l, StalePaths(t, l, repos), r).1, l, "a")
  {
    l := Layout(["d"], ["x"]);
    repos := [Repo("a", false, false)];
    r := Removals(p => Mirror.Removed, p => true);
    NestedNames(l);
    NestedArchiveName(l);
    t := NestedWithFile(["x", "a.git"], "b.tar.gz");
    var inner := "a.git/b";
    var k: Key := ["d", "a.git", "b.git"];
    OnDiskArchiveIff(t, l, inner);
    assert !Listed(repos, inner) by { assert |inner| != |"a"|; }
    StaleSetIff(t, l, repos, inner);
    PruneReachesMirror(t, l, StalePaths(t, l, repos), r, inner, k);
    assert MirrorPath(l, "a") <= k && k in t;
    assert !SameAt(t, PruneAll(t, l, StalePaths(t, l, repos), r).1, k);
  }

  /** The exact condition, for arbitrary names: when every removal succeeds, the listed
      repositories keep their mirrors if and only if no stale path collides with one; their
      archives they keep in any case. */
  lemma PruneSafeIff(t: Tree, l: Layout, repos: seq<Repo>, stale: seq<string>, r: Removals)
    requires l.Apart() && WellFormed(t) && NoneFail(stale, r)
    requires forall p :: p in stale ==> !Listed(repos, p)
    ensures (forall q :: Listed(repos, q) ==> MirrorKept(t, PruneAll(t, l, stale, r).1, l, q))
       <==> (forall p, q :: p in stale && Listed(repos, q) ==> !Collide(t, l, p, q))
    ensures forall q :: Listed(repos, q) ==> SameAt(t, PruneAll(t, l, stale, r).1, ArchivePath(l, q))
  {
    var u := PruneAll(t, l, stale, r).1;
    forall q | Listed(repos, q) ensures SameAt(t, u, ArchivePath(l, q)) {
      PruneSparesArchive(t, l, stale, r, q);
    }
    if forall p, q :: p in stale && Listed(repos, q) ==> !Collide(t, l, p, q) {
      forall q | Listed(repos, q) ensures MirrorKept(t, u, l, q) {
        PruneSpares(t, l, stale, r, q);
      }
    }
    if forall q :: Listed(repos, q) ==> MirrorKept(t, u, l, q) {
      forall p, q | p in stale && Listed(repos, q) ensures !Collide(t, l, p, q) {
        if Collide(t, l, p, q) {
          var k := if MirrorPath(l, p) <= MirrorPath(l, q) && MirrorPath(l, q) in t then MirrorPath(l, q) else MirrorPath(l, p);
          assert MirrorPath(l, q) <= k && k in t;
          assert MirrorKept(t, u, l, q) && SameAt(t, u, k);
          PruneReachesMirror(t, l, stale, r, p, k);
          assert false;
        }
      }
    }
  }

  /** Without the naming condition the promise fails. A forge lists only "a.git/b", mirrored
      at dest/a.git/b.git. The scan stops at dest/a.git, reads it as a mirror of "a", which
      nobody lists, and pruning it takes the live mirror along. */
  lemma NestedMirrorIsLost() returns (t: Tree, l: Layout, repos: seq<Repo>, r: Removals)
    ensures l.Apart() && WellFormed(t) && repos == [Repo("a.git/b", false, false)]
    ensures NoneFail(StalePaths(t, l, repos), r)
    ensures IsDir(t, MirrorPath(l, "a.git/b"))
    ensures MirrorPath(l, "a.git/b") !in PruneAll(t, l, StalePaths(t, l, repos), r).1
  {
    l := Layout(["d"], ["x"]);
    repos := [Repo("a.git/b", false, false)];
    r := Removals(p => Mirror.Removed, p => true);
    t := NestedTree();
    NestedNames(l);
    assert IsDir(t, ["d", "a.git"]) && IsDir(t, ["d", "a.git", "b.git"]);
    var outer := "a";
    assert !Listed(repos, outer);
    OnDiskMirrorIff(t, l, outer);
    StaleSetIff(t, l, repos, outer);
    assert NoneFail(StalePaths(t, l, repos), r);
    assert outer in StalePaths(t, l, repos);
    PruneReachesMirror(t, l, StalePaths(t, l, repos), r, outer, ["d", "a.git", "b.git"]);
  }

  /** A mirror with a directory named like one inside. */
  ghost function NestedTree(): (t: Tree)
    ensures WellFormed(t) && forall k :: k in t ==> t[k].Dir?
    ensures ["d", "a.git"] in t && ["d", "a.git", "b.git"] in t
  {
    var top, outer, inner: Key := ["d"], ["d", "a.git"], ["d", "a.git", "b.git"];
    assert Front(top) == [] && Front(outer) == top && Front(inner) == outer;
    map[[] := Dir(0), top := Dir(0), outer := Dir(0), inner := Dir(0)]
  }

  /** ... and a file elsewhere. */
  lemma NestedWithFile(dir: Key, name: string) returns (t: Tree)
    requires Slashless(name) && (forall c :: c in dir ==> Slashless(c)) && !(dir + [name] <= ["d", "a.git", "b.git"])
    ensures WellFormed(t) && ["d", "a.git", "b.git"] in t
    ensures dir + [name] in t && t[dir + [name]].File?
  {
    var file := dir + [name];
    var made := MkdirAll(NestedTree(), dir).value;
    MkdirAllWellFormed(NestedTree(), dir);
    t := PutFile(made, file, File(0, Raw([])));
    assert Front(file) == dir && file[|file|..] == [];
    GraftWellFormed(made, file, map[[] := File(0, Raw([]))]);
  }

  lemma NestedSplit()
    ensures Split("a.git/b") == ["a.git", "b"]
  {
    SplitConcat("a.git", "b");
    SplitSlashless("a.git");
    SplitSlashless("b");
    assert "a.git" + "/" + "b" == "a.git/b";
  }

  lemma NestedNames(l: Layout)
    requires l == Layout(["d"], ["x"])
    ensures MirrorPath(l, "a.git/b") == ["d", "a.git", "b.git"]
    ensures MirrorPath(l, "a") == ["d", "a.git"]
    ensures NoGitNamespace("a") && Tame("a")
  {
    OuterName(l);
    NestedSplit();
    TwoPartName(l, "a.git/b", "a.git", "b", Slot.Mirror);
    assert "b" + ".git" == "b.git";
  }

  lemma TwoPartName(l: Layout, p: string, a: string, b: string, slot: Slot)
    requires Split(p) == [a, b]
    ensures SlotKey(l, p, slot) == (if slot.InArchiveTree() then l.arch else l.dest) + [a] + [b + slot.Suffix()]
  {
    SlotKeyShape(l, p, slot);
    assert Front([a, b]) == [a];
  }

  lemma OuterName(l: Layout)
    requires l.dest == ["d"]
    ensures MirrorPath(l, "a") == ["d", "a.git"]
    ensures NoGitNamespace("a") && Tame("a")
  {
    SplitSlashless("a");
    SlotKeyShape(l, "a", Slot.Mirror);
    assert "a" + ".git" == "a.git";
  }

  lemma NestedArchiveName(l: Layout)
    requires l == Layout(["d"], ["x"])
    ensures ArchivePath(l, "a.git/b") == ["x", "a.git"] + ["b.tar.gz"]
  {
    NestedSplit();
    TwoPartName(l, "a.git/b", "a.git", "b", Slot.Archive);
    assert "b" + ".tar.gz" == "b.tar.gz";
  }

  /* ---- one directory for mirrors and archives ---- */

  /** With the archive directory the same as the destination the promise fails. "a" is listed and
      has a tag named "v1.tar.gz", which is a file in its mirror; the scan takes that for the
      archive of a repository "a.git/refs/tags/v1", and pruning removes it. */
  lemma SharedDirectoryLosesTag() returns (t: Tree, l: Layout, repos: seq<Repo>, r: Removals)
    ensures l == Layout(["d"], ["d"]) && WellFormed(t) && repos == [Repo("a", false, false)] && Tame("a")
    ensures NoneFail(StalePaths(t, l, repos), r)
    ensures !MirrorKept(t, PruneAll(t, l, StalePaths(t, l, repos), r).1, l, "a")
  {
    l := Layout(["d"], ["d"]);
    repos := [Repo("a", false, false)];
    r := Removals(p => Mirror.Removed, p => true);
    OuterName(l);
    var comps := ["a.git", "refs", "tags", "v1"];
    var tag := Join(comps);
    TagName(l, comps, tag);
    var k := ArchivePath(l, tag);
    t := NestedWithFile(["d", "a.git", "refs", "tags"], "v1.tar.gz");
    OnDiskArchiveIff(t, l, tag);
    assert !Listed(repos, tag) by { assert |tag| != |"a"|; }
    StaleSetIff(t, l, repos, tag);
    FileIsRemovable(t, k);
    PruneReachesArchive(t, l, StalePaths(t, l, repos), r, tag);
    assert MirrorPath(l, "a") <= k && k in t;
    assert !SameAt(t, PruneAll(t, l, StalePaths(t, l, repos), r).1, k);
  }

  lemma TagName(l: Layout, comps: Key, tag: string)
    requires l.arch == ["d"] && comps == ["a.git", "refs", "tags", "v1"] && tag == Join(comps)
    ensures ArchivePath(l, tag) == ["d", "a.git", "refs", "tags"] + ["v1.tar.gz"]
    ensures |tag| > 5
  {
    SplitJoin(comps);
    SlotKeyShape(l, tag, Slot.Archive);
    assert Front(comps) == ["a.git", "refs", "tags"];
    assert "v1" + ".tar.gz" == "v1.tar.gz";
    assert tag == comps[0] + "/" + Join(comps[1..]);
  }

  /* ---- idempotence ---- */

  /** A removal that gives up leaves a tree behind, not an arbitrary set of nodes. */
  ghost predicate TidyRemoval(r: Mirror.Removal) {
    r.Stuck? ==> forall u :: WellFormed(u) ==> WellFormed(Mirror.Kept(u, r.keep))
  }

  lemma RemoveTreeWellFormed(t: Tree, l: Layout, p: string, r: Mirror.Removal)
    requires WellFormed(t) && TidyRemoval(r) && (forall c :: c in l.dest + l.arch ==> Slashless(c))
    ensures WellFormed(Mirror.RemoveTree(t, MirrorPath(l, p), r))
    ensures forall u :: WellFormed(u) ==> WellFormed(Remove(u, ArchivePath(l, p)))
  {
    SlotSlashless(l, p, Slot.Mirror);
    SlotSlashless(l, p, Slot.Archive);
    var m := MirrorPath(l, p);
    match r {
      case Removed => GraftWellFormed(t, m, EMPTY);
      case Stuck(keep) =>
        SubtreeWellFormed(t, m);
        var s := Mirror.Kept(Subtree(t, m), keep);
        if s != EMPTY {
          var k :| k in s;
          assert m + k in t && (m < m + k || k == []);
          if k != [] {
            AncestorsAreDirs(t, m + k, m);
          } else {
            assert m + [] == m;
          }
          assert IsDir(t, Front(m));
        }
        GraftWellFormed(t, m, s);
    }
    forall u | WellFormed(u) ensures WellFormed(Remove(u, ArchivePath(l, p))) {
      GraftWellFormed(u, ArchivePath(l, p), EMPTY);
    }
  }

  lemma SlotSlashless(l: Layout, p: string, s: Slot)
    requires forall c :: c in l.dest + l.arch ==> Slashless(c)
    ensures forall c :: c in SlotKey(l, p, s) ==> Slashless(c)
  {
    forall c | c in SlotKey(l, p, s) ensures Slashless(c) {
      assert c in l.dest + l.arch || c in Split(p + s.Suffix());
    }
  }

  lemma {:induction false} PruneWellFormed(t: Tree, l: Layout, stale: seq<string>, r: Removals)
    requires WellFormed(t) && (forall c :: c in l.dest + l.arch ==> Slashless(c))
    requires forall p :: p in stale ==> TidyRemoval(r.mirror(p))
    ensures WellFormed(PruneAll(t, l, stale, r).1)
    decreases |stale|
  {
    if stale != [] {
      assert stale[0] in stale;
      RemoveTreeWellFormed(t, l, stale[0], r.mirror(stale[0]));
      assert WellFormed(PruneOne(t, l, stale[0], r));
      forall p | p in stale[1..] ensures TidyRemoval(r.mirror(p)) { assert p in stale; }
      PruneWellFormed(PruneOne(t, l, stale[0], r), l, stale[1..], r);
    }
  }

  /* ---- what a removal that gave up leaves of a mirror ---- */

  /** What is left of the mirror `m`. */
  function Left(m: Tree, r: Mirror.Removal): Tree {
    match r
    case Removed => EMPTY
    case Stuck(keep) => Mirror.Kept(m, keep)
  }

  lemma PruneOneLeaves(t: Tree, l: Layout, p: string, r: Removals)
    requires l.Apart()
    ensures Subtree(PruneOne(t, l, p, r), MirrorPath(l, p)) == Left(Subtree(t, MirrorPath(l, p)), r.mirror(p))
  {
    var m, a := MirrorPath(l, p), ArchivePath(l, p);
    var t' := Mirror.RemoveTree(t, m, r.mirror(p));
    SubtreeOfGraft(t, m, Left(Subtree(t, m), r.mirror(p)));
    var u := PruneOne(t, l, p, r);
    forall k | m <= k ensures SameAt(t', u, k) {
      RootsApart(l, k);
      if a <= k {
        PrefixesNest(m, a, k);
      }
    }
    SubtreeUnchanged(t', u, m);
  }

  ghost predicate Distinct(ps: seq<string>) {
    forall i, j :: 0 <= i < j < |ps| ==> ps[i] != ps[j]
  }

  /** After a prune, what is at a stale path's mirror is exactly what its own removal left. */
  lemma {:induction false} PruneLeaves(t: Tree, l: Layout, stale: seq<string>, r: Removals, p: string)
    requires l.Apart() && WellFormed(t) && (forall c :: c in l.dest + l.arch ==> Slashless(c))
    requires Distinct(stale) && p in stale
    requires NoGitNamespace(p) && forall q :: q in stale ==> !(MirrorPath(l, p) < MirrorPath(l, q)) && TidyRemoval(r.mirror(q))
    ensures Subtree(PruneAll(t, l, stale, r).1, MirrorPath(l, p)) == Left(Subtree(t, MirrorPath(l, p)), r.mirror(p))
    decreases |stale|
  {
    var t' := PruneOne(t, l, stale[0], r);
    var rest := stale[1..];
    assert stale[0] in stale;
    RemoveTreeWellFormed(t, l, stale[0], r.mirror(stale[0]));
    assert WellFormed(t');
    forall q | q in rest ensures q in stale && q != stale[0] {
      var i :| 0 <= i < |rest| && rest[i] == q;
      assert stale[0] != stale[i + 1];
    }
    if p == stale[0] {
      PruneOneLeaves(t, l, p, r);
      forall q | q in rest ensures !Collide(t', l, q, p) {
        NoCollision(t', l, q, p);
      }
      PruneSpares(t', l, rest, r, p);
      SubtreeUnchanged(t', PruneAll(t', l, rest, r).1, MirrorPath(l, p));
    } else {
      assert p in rest;
      NoCollision(t, l, stale[0], p);
      OneSpares(t, l, stale[0], r, p);
      PruneLeaves(t', l, rest, r, p);
    }
  }

  lemma OneSpares(t: Tree, l: Layout, p: string, r: Removals, q: string)
    requires l.Apart() && WellFormed(t) && p != q && !Collide(t, l, p, q)
    ensures Subtree(PruneOne(t, l, p, r), MirrorPath(l, q)) == Subtree(t, MirrorPath(l, q))
  {
    var u := PruneOne(t, l, p, r);
    forall k | MirrorPath(l, q) <= k ensures SameAt(t, u, k) {
      PruneOneTakes(t, l, p, r, k);
      if k in t {
        SparedKey(t, l, p, q, k);
      }
    }
    SubtreeUnchanged(t, u, MirrorPath(l, q));
  }

  lemma FileIsRemovable(t: Tree, k: Key)
    requires WellFormed(t) && k in t && !t[k].Dir?
    ensures Removable(t, k)
  {
    forall j | j in t && k <= j ensures j == k {
      if j != k {
        AncestorsAreDirs(t, j, k);
      }
    }
  }

  /** What was stale when the scan looked is not stale after the prune. */
  lemma StaleGoes(t0: Tree, t: Tree, l: Layout, repos: seq<Repo>, r: Removals, p: string)
    requires WellFormed(t0) && WellFormed(t) && (forall c :: c in l.dest + l.arch ==> Slashless(c))
    requires NoneFail(StalePaths(t0, l, repos), r) && Stale(t0, l, repos, p)
    ensures !Stale(PruneAll(t, l, StalePaths(t0, l, repos), r).1, l, repos, p)
  {
    var stale := StalePaths(t0, l, repos);
    var u := PruneAll(t, l, stale, r).1;
    PruneWellFormed(t, l, stale, r);
    StaleSetIff(t0, l, repos, p);
    OnDiskMirrorIff(u, l, p);
    OnDiskArchiveIff(u, l, p);
    PruneReachesMirror(t, l, stale, r, p, MirrorPath(l, p));
    var a := ArchivePath(l, p);
    if a in t && !t[a].Dir? {
      FileIsRemovable(t, a);
      PruneReachesArchive(t, l, stale, r, p);
    } else {
      PruneTakes(t, l, stale, r, a);
    }
  }

  /** What became stale only afterwards is still stale after the prune. */
  lemma NewlyStaleStays(t0: Tree, t: Tree, l: Layout, repos: seq<Repo>, r: Removals, p: string)
    requires l.Apart() && WellFormed(t0) && WellFormed(t) && (forall c :: c in l.dest + l.arch ==> Slashless(c))
    requires NoneFail(StalePaths(t0, l, repos), r) && Stale(t, l, repos, p) && !Stale(t0, l, repos, p)
    ensures Stale(PruneAll(t, l, StalePaths(t0, l, repos), r).1, l, repos, p)
  {
    var stale := StalePaths(t0, l, repos);
    var u := PruneAll(t, l, stale, r).1;
    PruneWellFormed(t, l, stale, r);
    StaleSetIff(t0, l, repos, p);
    if OnDiskArchive(t, l, p) {
      PruneSparesArchive(t, l, stale, r, p);
      OnDiskArchiveIff(t, l, p);
      OnDiskArchiveIff(u, l, p);
    } else {
      OnDiskMirrorIff(t, l, p);
      OnDiskMirrorIff(u, l, p);
      OuterMirrorStays(t, l, stale, r, p);
    }
  }

  /** An outermost mirror's directory survives every removal but its own. */
  lemma OuterMirrorStays(t: Tree, l: Layout, stale: seq<string>, r: Removals, p: string)
    requires l.Apart() && NoGitNamespace(p) && p !in stale
    ensures SameAt(t, PruneAll(t, l, stale, r).1, MirrorPath(l, p))
  {
    var k := MirrorPath(l, p);
    forall q | q in stale ensures !(MirrorPath(l, q) <= k) && k != ArchivePath(l, q) {
      RootsApart(l, k);
      if MirrorPath(l, q) <= k {
        NestedIsSame(l, q, p);
      }
    }
    PruneTakes(t, l, stale, r, k);
  }

  lemma StaleOnlyShrinks(t: Tree, l: Layout, stale: seq<string>, r: Removals, repos: seq<Repo>, p: string)
    requires WellFormed(t) && WellFormed(PruneAll(t, l, stale, r).1) && Stale(PruneAll(t, l, stale, r).1, l, repos, p)
    ensures Stale(t, l, repos, p)
  {
    var u := PruneAll(t, l, stale, r).1;
    if OnDiskMirror(u, l, p) {
      OnDiskMirrorIff(u, l, p);
      OnDiskMirrorIff(t, l, p);
      PruneTakes(t, l, stale, r, MirrorPath(l, p));
    } else {
      OnDiskArchiveIff(u, l, p);
      OnDiskArchiveIff(t, l, p);
      PruneTakes(t, l, stale, r, ArchivePath(l, p));
    }
  }

  /** Scanning again after a prune in which nothing failed finds nothing stale exactly if nothing
      became stale between the scan and the prune. */
  lemma NothingStaleIff(t0: Tree, t: Tree, l: Layout, repos: seq<Repo>, r: Removals)
    requires l.Apart() && WellFormed(t0) && WellFormed(t) && (forall c :: c in l.dest + l.arch ==> Slashless(c))
    requires NoneFail(StalePaths(t0, l, repos), r)
    ensures StaleSet(PruneAll(t, l, StalePaths(t0, l, repos), r).1, l, repos) == {} <==>
              (forall p :: Stale(t, l, repos, p) ==> Stale(t0, l, repos, p))
  {
    var stale := StalePaths(t0, l, repos);
    var u := PruneAll(t, l, stale, r).1;
    PruneWellFormed(t, l, stale, r);
    if forall p :: Stale(t, l, repos, p) ==> Stale(t0, l, repos, p) {
      forall p ensures p !in StaleSet(u, l, repos) {
        StaleSetIff(u, l, repos, p);
        if Stale(u, l, repos, p) {
          StaleOnlyShrinks(t, l, stale, r, repos, p);
          StaleGoes(t0, t, l, repos, r, p);
        }
      }
    } else {
      var p :| Stale(t, l, repos, p) && !Stale(t0, l, repos, p);
      NewlyStaleStays(t0, t, l, repos, r, p);
      StaleSetIff(u, l, repos, p);
    }
  }

  /* ---- a listed repository's metadata ---- */

  /** A prune in which nothing failed leaves a tame path's metadata directory alone exactly if no
      stale path's mirror is a directory inside it. */
  lemma MetadataKeptIff(t: Tree, l: Layout, stale: seq<string>, r: Removals, q: string)
    requires l.Apart() && WellFormed(t) && NoneFail(stale, r) && Tame(q)
    ensures (forall k :: MetadataDir(l, q) <= k ==> SameAt(t, PruneAll(t, l, stale, r).1, k)) <==>
              (forall p :: p in stale && MetadataDir(l, q) <= MirrorPath(l, p) ==> MirrorPath(l, p) !in t)
  {
    var u := PruneAll(t, l, stale, r).1;
    var d := MetadataDir(l, q);
    if forall p :: p in stale && d <= MirrorPath(l, p) ==> MirrorPath(l, p) !in t {
      forall k | d <= k ensures SameAt(t, u, k) {
        PruneTakes(t, l, stale, r, k);
        if k in t {
          forall p | p in stale ensures !(MirrorPath(l, p) <= k) && k != ArchivePath(l, p) {
            MetadataSpared(t, l, p, q, k);
          }
        }
      }
    } else {
      var p :| p in stale && d <= MirrorPath(l, p) && MirrorPath(l, p) in t;
      PruneReachesMirror(t, l, stale, r, p, MirrorPath(l, p));
      assert !SameAt(t, u, MirrorPath(l, p));
    }
  }

  lemma MetadataSpared(t: Tree, l: Layout, p: string, q: string, k: Key)
    requires l.Apart() && WellFormed(t) && Tame(q) && MetadataDir(l, q) <= k && k in t
    requires MetadataDir(l, q) <= MirrorPath(l, p) ==> MirrorPath(l, p) !in t
    ensures !(MirrorPath(l, p) <= k) && k != ArchivePath(l, p)
  {
    RootsApart(l, k);
    if MirrorPath(l, p) <= k {
      PrefixesNest(MetadataDir(l, q), MirrorPath(l, p), k);
      if MirrorPath(l, p) <= MetadataDir(l, q) {
        SlotsApart(l, p, Slot.Mirror, q, Metadata);
      } else if MirrorPath(l, p) != k {
        AncestorsAreDirs(t, k, MirrorPath(l, p));
      }
    }
  }

}
