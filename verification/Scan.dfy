/** Stale detection: the walk that reads repository paths back off the disk, and the set
    difference with the listing. */
module Scan {
  import opened Names
  import opened Order
  import opened Trees
  import opened Worker

  /** An entry the scan looks for: below the root, with the suffix, and of the wanted kind. */
  predicate Matches(t: Tree, root: Key, suffix: string, dirs: bool, k: Key) {
    root < k && k in t && HasSuffix(Last(k), suffix) && t[k].Dir? == dirs
  }

  /** ... and the walk gets there: no directory on the way down is itself a match, for those
      are never entered. */
  ghost predicate Reported(t: Tree, root: Key, suffix: string, dirs: bool, k: Key) {
    && Matches(t, root, suffix, dirs, k)
    && Open(t, root, suffix, dirs, k)
  }

  ghost predicate Open(t: Tree, root: Key, suffix: string, dirs: bool, k: Key) {
    forall a :: root < a < k && Matches(t, root, suffix, dirs, a) ==> !t[a].Dir?
  }

  ghost function Below(t: Tree, at: Key): set<Key> {
    set k | k in t && at <= k
  }

  lemma ChildBelow(t: Tree, at: Key, name: string)
    requires at in t
    ensures Below(t, at + [name]) < Below(t, at)
  {
    forall k | k in Below(t, at + [name]) ensures k in Below(t, at) {}
    assert at in Below(t, at) && at !in Below(t, at + [name]);
  }

  /** `found` holds what is to be reported at or below `at`, and nothing else. */
  ghost predicate Complete(t: Tree, root: Key, suffix: string, dirs: bool, at: Key, found: seq<Key>) {
    forall k :: k in found <==> at <= k && Reported(t, root, suffix, dirs, k)
  }

  /** filepath.WalkDir from `at` down: a match is recorded and, if a directory, not entered;
      any other directory is entered. Siblings are visited in listing order, which the caller
      does not depend on. */
  method Walk(t: Tree, root: Key, suffix: string, dirs: bool, at: Key) returns (found: seq<Key>)
    requires WellFormed(t) && root <= at && at in t
    requires Open(t, root, suffix, dirs, at)
    ensures Complete(t, root, suffix, dirs, at, found)
    ensures forall i, j :: 0 <= i < j < |found| ==> found[i] != found[j]
    decreases Below(t, at)
  {
    found := [];
    if Matches(t, root, suffix, dirs, at) {
      found := [at];
      if t[at].Dir? {
        OnlyTheMatch(t, root, suffix, dirs, at);
        return;
      }
    }
    if !t[at].Dir? {
      Leaf(t, root, suffix, dirs, at);
      return;
    }
    var names := set k | k in t && |k| == |at| + 1 && at <= k :: k[|at|];
    var todo := names;
    while todo != {}
      invariant todo <= names
      invariant forall k :: k in found <==>
                  (k == at || (at < k && k[|at|] in names - todo)) && Reported(t, root, suffix, dirs, k)
      invariant forall i, j :: 0 <= i < j < |found| ==> found[i] != found[j]
      decreases |todo|
    {
      var name :| name in todo;
      var child := at + [name];
      assert child in t by {
        var k :| k in t && |k| == |at| + 1 && at <= k && k[|at|] == name;
        assert k == child;
      }
      ChildOpen(t, root, suffix, dirs, at, name);
      ChildBelow(t, at, name);
      var sub := Walk(t, root, suffix, dirs, child);
      forall k ensures child <= k <==> at < k && k[|at|] == name {
        if at < k && k[|at|] == name {
          assert k[..|at| + 1] == child;
        }
      }
      DistinctConcat(found, sub);
      found := found + sub;
      todo := todo - {name};
    }
    forall k | at < k && Reported(t, root, suffix, dirs, k) ensures k[|at|] in names {
      ChildOnTheWay(t, at, k);
    }
  }

  lemma ChildOnTheWay(t: Tree, at: Key, k: Key)
    requires WellFormed(t) && at < k && k in t
    ensures var child := at + [k[|at|]]; child in t && child[|at|] == k[|at|] && |child| == |at| + 1 && at <= child
  {
    var child := k[..|at| + 1];
    if child != k {
      AncestorsAreDirs(t, k, child);
    }
    assert child == at + [k[|at|]];
  }

  lemma DistinctConcat(a: seq<Key>, b: seq<Key>)
    requires forall i, j :: 0 <= i < j < |a| ==> a[i] != a[j]
    requires forall i, j :: 0 <= i < j < |b| ==> b[i] != b[j]
    requires forall k :: k in a ==> k !in b
    ensures forall i, j :: 0 <= i < j < |a + b| ==> (a + b)[i] != (a + b)[j]
  {
    forall i, j | 0 <= i < j < |a + b| ensures (a + b)[i] != (a + b)[j] {
      if i < |a| {
        assert a[i] in a;
      }
    }
  }

  lemma OnlyTheMatch(t: Tree, root: Key, suffix: string, dirs: bool, at: Key)
    requires Matches(t, root, suffix, dirs, at) && t[at].Dir? && Open(t, root, suffix, dirs, at)
    ensures Complete(t, root, suffix, dirs, at, [at])
  {
    forall k ensures k in [at] <==> at <= k && Reported(t, root, suffix, dirs, k) {
      if at < k {
        assert !Open(t, root, suffix, dirs, k) by {
          assert root < at < k && Matches(t, root, suffix, dirs, at) && t[at].Dir?;
        }
      } else if at <= k {
        assert k == at;
      }
    }
  }

  lemma Leaf(t: Tree, root: Key, suffix: string, dirs: bool, at: Key)
    requires WellFormed(t) && at in t && !t[at].Dir? && Open(t, root, suffix, dirs, at)
    ensures Complete(t, root, suffix, dirs, at, if Matches(t, root, suffix, dirs, at) then [at] else [])
  {
    var found := if Matches(t, root, suffix, dirs, at) then [at] else [];
    forall k ensures k in found <==> at <= k && Reported(t, root, suffix, dirs, k) {
      if at < k && k in t {
        AncestorsAreDirs(t, k, at);
      } else if at <= k {
        assert k == at || k !in t;
      }
    }
  }

  lemma ChildOpen(t: Tree, root: Key, suffix: string, dirs: bool, at: Key, name: string)
    requires root <= at && Open(t, root, suffix, dirs, at)
    requires !(Matches(t, root, suffix, dirs, at) && at in t && t[at].Dir?)
    ensures Open(t, root, suffix, dirs, at + [name])
  {
    forall a | root < a < at + [name] && Matches(t, root, suffix, dirs, a) ensures !t[a].Dir? {
      if a != at {
        assert a < at;
      }
    }
  }

  /** onDiskPaths: the paths found under `root`, each once; `readable` is false when stat or
      the walk fails. A root that does not exist yet holds nothing. */
  method OnDiskPaths(t: Tree, root: Key, suffix: string, dirs: bool, readable: bool) returns (r: Maybe<seq<string>>)
    requires WellFormed(t)
    ensures r.Err? <==> !readable
    ensures r.Ok? ==> forall p :: p in r.value <==> Reported(t, root, suffix, dirs, PathKey(root, p, suffix))
    ensures r.Ok? ==> forall i, j :: 0 <= i < j < |r.value| ==> r.value[i] != r.value[j]
  {
    if !readable {
      return Err;
    }
    if root !in t {
      forall p | Reported(t, root, suffix, dirs, PathKey(root, p, suffix)) ensures false {
        AncestorsAreDirs(t, PathKey(root, p, suffix), root);
      }
      return Ok([]);
    }
    var keys := Walk(t, root, suffix, dirs, root);
    var paths := [];
    for i := 0 to |keys|
      invariant |paths| == i
      invariant forall j :: 0 <= j < i ==> |root| < |keys[j]| && paths[j] == RelPath(root, keys[j], suffix)
    {
      assert keys[i] in keys;
      paths := paths + [RelPath(root, keys[i], suffix)];
    }
    KeysBecomePaths(t, root, suffix, dirs, keys, paths);
    return Ok(paths);
  }

  /** Reading paths off the found keys loses nothing and invents nothing. */
  lemma KeysBecomePaths(t: Tree, root: Key, suffix: string, dirs: bool, keys: seq<Key>, paths: seq<string>)
    requires WellFormed(t) && |keys| == |paths|
    requires Complete(t, root, suffix, dirs, root, keys)
    requires forall i, j :: 0 <= i < j < |keys| ==> keys[i] != keys[j]
    requires forall j :: 0 <= j < |keys| ==> |root| < |keys[j]| && paths[j] == RelPath(root, keys[j], suffix)
    ensures forall p :: p in paths <==> Reported(t, root, suffix, dirs, PathKey(root, p, suffix))
    ensures forall i, j :: 0 <= i < j < |paths| ==> paths[i] != paths[j]
  {
    forall i | 0 <= i < |keys|
      ensures PathKey(root, paths[i], suffix) == keys[i] && Reported(t, root, suffix, dirs, keys[i])
    {
      assert keys[i] in keys;
      KeyRoundTrip(root, keys[i], suffix);
    }
    forall p | Reported(t, root, suffix, dirs, PathKey(root, p, suffix)) ensures p in paths {
      NameRoundTrip(root, p, suffix);
      var k := PathKey(root, p, suffix);
      assert k in keys;
      var i :| 0 <= i < |keys| && keys[i] == k;
      assert paths[i] == p;
    }
  }

  /* ---- what is on disk, what is listed, what is stale ---- */

  ghost predicate OnDiskMirror(t: Tree, l: Layout, p: string) {
    Reported(t, l.dest, ".git", true, PathKey(l.dest, p, ".git"))
  }

  ghost predicate OnDiskArchive(t: Tree, l: Layout, p: string) {
    Reported(t, l.arch, ".tar.gz", false, PathKey(l.arch, p, ".tar.gz"))
  }

  predicate Listed(repos: seq<Repo>, p: string) {
    exists i :: 0 <= i < |repos| && repos[i].path == p
  }

  ghost predicate Stale(t: Tree, l: Layout, repos: seq<Repo>, p: string) {
    (OnDiskMirror(t, l, p) || OnDiskArchive(t, l, p)) && !Listed(repos, p)
  }

  /** No namespace directory of the path is itself named like a mirror. */
  predicate NoGitNamespace(p: string) {
    forall c :: c in Front(Split(p)) ==> !HasSuffix(c, ".git")
  }

  lemma TameHasNoGitNamespace(p: string)
    requires Tame(p)
    ensures NoGitNamespace(p)
  {
    forall c | c in Front(Split(p)) ensures !HasSuffix(c, ".git") {
      assert !Reserved(c);
      assert Slot.Mirror.Suffix() == ".git";
    }
  }

  /** A path is reported as a mirror exactly when its mirror path is a directory and it has
      no namespace component that ends in ".git". */
  lemma OnDiskMirrorIff(t: Tree, l: Layout, p: string)
    requires WellFormed(t)
    ensures OnDiskMirror(t, l, p) <==> IsDir(t, MirrorPath(l, p)) && NoGitNamespace(p)
  {
    var k := PathKey(l.dest, p, ".git");
    SplitSuffix(p, ".git");
    var comps := Split(p);
    assert k == l.dest + Front(comps) + [Last(comps) + ".git"];
    assert HasSuffix(Last(k), ".git");
    if IsDir(t, k) && NoGitNamespace(p) {
      forall a | l.dest < a < k ensures !Matches(t, l.dest, ".git", true, a) {
        AboveIsNamespace(l.dest, comps, Last(comps) + ".git", k, a);
      }
    }
    if OnDiskMirror(t, l, p) {
      forall c | c in Front(comps) ensures !HasSuffix(c, ".git") {
        var a := NamespaceKey(l.dest, comps, Last(comps) + ".git", k, c);
        AncestorsAreDirs(t, k, a);
        assert HasSuffix(c, ".git") ==> Matches(t, l.dest, ".git", true, a);
      }
    }
  }

  /** The directories between the root and a mirror are named after its namespace. */
  lemma AboveIsNamespace(root: Key, comps: Key, name: string, k: Key, a: Key)
    requires comps != [] && k == root + Front(comps) + [name] && root < a < k
    ensures Last(a) in Front(comps)
  {
    assert Last(a) == k[|a| - 1] == Front(comps)[|a| - 1 - |root|];
  }

  lemma NamespaceKey(root: Key, comps: Key, name: string, k: Key, c: string) returns (a: Key)
    requires comps != [] && k == root + Front(comps) + [name] && c in Front(comps)
    ensures root < a < k && Last(a) == c
  {
    var i :| 0 <= i < |Front(comps)| && Front(comps)[i] == c;
    a := k[..|root| + i + 1];
  }

  /** A path is reported as an archive exactly when something other than a directory is at
      its archive path: files never stop the walk. */
  lemma OnDiskArchiveIff(t: Tree, l: Layout, p: string)
    ensures OnDiskArchive(t, l, p) <==> ArchivePath(l, p) in t && !t[ArchivePath(l, p)].Dir?
  {
    var k := PathKey(l.arch, p, ".tar.gz");
    SplitSuffix(p, ".tar.gz");
    assert Last(k) == Last(Split(p)) + ".tar.gz";
    assert HasSuffix(Last(k), ".tar.gz");
  }

  /** Half-made names are never reported: no path's mirror is a `.partial` directory, no
      path's archive is a `.tmp` file. */
  lemma LeftoversAreNotReported(l: Layout, p: string, q: string)
    ensures SlotKey(l, p, Partial) != MirrorPath(l, q)
    ensures SlotKey(l, p, Temp) != ArchivePath(l, q)
  {
    LeftoverDiffers(l.dest, p, Partial, q, Slot.Mirror);
    LeftoverDiffers(l.arch, p, Temp, q, Slot.Archive);
  }

  lemma LeftoverDiffers(root: Key, p: string, s: Slot, q: string, u: Slot)
    requires s != u && s.InArchiveTree() == u.InArchiveTree()
    ensures PathKey(root, p, s.Suffix()) != PathKey(root, q, u.Suffix())
  {
    if PathKey(root, p, s.Suffix()) == PathKey(root, q, u.Suffix()) {
      assert Split(p + s.Suffix()) == PathKey(root, p, s.Suffix())[|root|..] == Split(q + u.Suffix());
      JoinSplit(p + s.Suffix());
      JoinSplit(q + u.Suffix());
      SuffixesDiffer(p, s, q, u);
      assert false;
    }
  }

  ghost function PathsUnder(t: Tree, root: Key, suffix: string, dirs: bool): set<string> {
    set k | k in t && Reported(t, root, suffix, dirs, k) :: RelPath(root, k, suffix)
  }

  ghost function ListedPaths(repos: seq<Repo>): set<string> {
    set r | r in repos :: r.path
  }

  ghost function StaleSet(t: Tree, l: Layout, repos: seq<Repo>): set<string> {
    PathsUnder(t, l.dest, ".git", true) + PathsUnder(t, l.arch, ".tar.gz", false) - ListedPaths(repos)
  }

  lemma PathsUnderIff(t: Tree, root: Key, suffix: string, dirs: bool, p: string)
    requires WellFormed(t)
    ensures p in PathsUnder(t, root, suffix, dirs) <==> Reported(t, root, suffix, dirs, PathKey(root, p, suffix))
  {
    if p in PathsUnder(t, root, suffix, dirs) {
      var k :| k in t && Reported(t, root, suffix, dirs, k) && RelPath(root, k, suffix) == p;
      KeyRoundTrip(root, k, suffix);
    }
    if Reported(t, root, suffix, dirs, PathKey(root, p, suffix)) {
      NameRoundTrip(root, p, suffix);
    }
  }

  lemma StaleSetIff(t: Tree, l: Layout, repos: seq<Repo>, p: string)
    requires WellFormed(t)
    ensures p in StaleSet(t, l, repos) <==> Stale(t, l, repos, p)
  {
    PathsUnderIff(t, l.dest, ".git", true, p);
    PathsUnderIff(t, l.arch, ".tar.gz", false, p);
    assert p in ListedPaths(repos) <==> Listed(repos, p) by {
      if Listed(repos, p) {
        var i :| 0 <= i < |repos| && repos[i].path == p;
        assert repos[i] in repos;
      }
    }
  }

  /** What that comes to on disk: there is a directory at the mirror's place, in no namespace
      that looks like a mirror itself, or something other than a directory at the archive's, and
      no repository of the listing has that path. */
  lemma StaleMeans(t: Tree, l: Layout, repos: seq<Repo>, p: string)
    requires WellFormed(t)
    ensures p in StaleSet(t, l, repos) <==>
              && ((IsDir(t, MirrorPath(l, p)) && NoGitNamespace(p)) || (ArchivePath(l, p) in t && !t[ArchivePath(l, p)].Dir?))
              && forall i :: 0 <= i < |repos| ==> repos[i].path != p
  {
    StaleSetIff(t, l, repos, p);
    OnDiskMirrorIff(t, l, p);
    OnDiskArchiveIff(t, l, p);
  }

  /** The stale paths in the order prune handles them. */
  ghost function StalePaths(t: Tree, l: Layout, repos: seq<Repo>): seq<string> {
    SortedSeq(StaleSet(t, l, repos))
  }

  /** staleMirrors: both scans, minus what is wanted or already seen, sorted. */
  method StaleMirrors(t: Tree, l: Layout, repos: seq<Repo>, destReadable: bool, archReadable: bool)
    returns (r: Maybe<seq<string>>)
    requires WellFormed(t)
    ensures r.Err? <==> !destReadable || !archReadable
    ensures r.Ok? ==> r.value == StalePaths(t, l, repos)
    ensures r.Ok? ==> StrictlySorted(r.value) && forall p :: p in r.value <==> Stale(t, l, repos, p)
  {
    var wanted: map<string, bool> := map[];
    for i := 0 to |repos|
      invariant forall p :: p in wanted <==> exists j :: 0 <= j < i && repos[j].path == p
      invariant forall p :: p in wanted ==> wanted[p]
    {
      wanted := wanted[repos[i].path := true];
    }
    assert forall p :: p in wanted <==> Listed(repos, p);
    var mirrors := OnDiskPaths(t, l.dest, ".git", true, destReadable);
    var archives := OnDiskPaths(t, l.arch, ".tar.gz", false, archReadable);
    if mirrors.Err? || archives.Err? {
      return Err;
    }
    var all := mirrors.value + archives.value;
    assert forall p :: p in all <==> OnDiskMirror(t, l, p) || OnDiskArchive(t, l, p);
    var seen: map<string, bool> := map[];
    var stale: seq<string> := [];
    for i := 0 to |all|
      invariant forall p :: p in seen <==> p in stale
      invariant forall p :: p in stale <==> p in all[..i] && p !in wanted
      invariant forall j, k :: 0 <= j < k < |stale| ==> stale[j] != stale[k]
    {
      assert all[..i + 1] == all[..i] + [all[i]];
      if all[i] in wanted || all[i] in seen {
        continue;
      }
      seen := seen[all[i] := true];
      stale := stale + [all[i]];
    }
    assert all[..|all|] == all;
    var sorted := Sort(stale);
    forall p ensures p in sorted <==> p in StaleSet(t, l, repos) { StaleSetIff(t, l, repos, p); }
    forall p ensures p in sorted <==> Stale(t, l, repos, p) { StaleSetIff(t, l, repos, p); }
    SortedSeqUnique(StaleSet(t, l, repos), sorted);
    return Ok(sorted);
  }
}
