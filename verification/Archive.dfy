/** The tar.gz writer: which entries it produces for a mirror, in which order, and what
    extracting them in that order rebuilds. */
module Archive {
  import opened Names
  import opened Order
  import opened Trees

  const ZERO := Stamp(0, 0, 0, "", "")   // the epoch, owned by nobody in particular
  const TOP_MODE := 0x1ED                // octal 0755

  /** A file tree as the operating system shows it, ownership and times included. */
  type Inodes = map<Key, Inode>
  datatype Inode = Inode(node: Node, stamp: Stamp)

  function Nodes(dir: Inodes): Tree {
    map k | k in dir :: dir[k].node
  }

  /** The paths the walk collects: everything below the top, slash-separated. */
  ghost function PathSet(m: Tree): set<string> {
    set k | k in m && k != [] :: Join(k)
  }

  ghost function SortedPathsOf(m: Tree): seq<string> {
    SortedSeq(PathSet(m))
  }

  lemma PathSetMember(m: Tree, p: string)
    requires WellFormed(m)
    ensures p in PathSet(m) <==> Split(p) in m
  {
    JoinSplit(p);
    if p in PathSet(m) {
      var k :| k in m && k != [] && Join(k) == p;
      SplitJoin(k);
    }
  }

  function EntryName(prefix: string, p: string, n: Node): string {
    prefix + "/" + p + if n.Dir? then "/" else ""
  }

  function EntryOf(prefix: string, m: Tree, p: string): Entry
    requires Split(p) in m
  {
    var n := m[Split(p)];
    Entry(EntryName(prefix, p, n), n, ZERO)
  }

  ghost function EntriesFor(prefix: string, m: Tree, paths: seq<string>): seq<Entry>
    requires forall p :: p in paths ==> Split(p) in m
  {
    if paths == [] then [] else [EntryOf(prefix, m, paths[0])] + EntriesFor(prefix, m, paths[1..])
  }

  function TopEntry(prefix: string): Entry {
    Entry(prefix + "/", Dir(TOP_MODE), ZERO)
  }

  lemma PathsAreKeys(m: Tree)
    requires WellFormed(m)
    ensures forall p :: p in SortedPathsOf(m) ==> Split(p) in m
  {
    forall p | p in SortedPathsOf(m) ensures Split(p) in m { PathSetMember(m, p); }
  }

  /** The complete entry list of the mirror `m` under the folder name `prefix`. */
  ghost function Entries(prefix: string, m: Tree): seq<Entry>
    requires WellFormed(m)
  {
    PathsAreKeys(m);
    [TopEntry(prefix)] + EntriesFor(prefix, m, SortedPathsOf(m))
  }

  /** tar knows no header for a socket; every other node gets one. */
  ghost predicate Archivable(m: Tree) {
    forall k :: k in m && k != [] ==> !m[k].Socket?
  }

  /** writeArchive seen as a function: the complete entry list, or nothing if some node has
      no header. Every file tree is well formed; the test only makes the function total. */
  ghost function Pack(prefix: string, m: Tree): Maybe<seq<Entry>> {
    if WellFormed(m) && Archivable(m) then Ok(Entries(prefix, m)) else Err
  }

  /* ---- the writer itself ---- */

  /** fs.WalkDir visits every node below the top once; the order it does so in is whatever
      the directory listing gives and is lost in the sort. */
  method SortedPaths(dir: Inodes) returns (paths: seq<string>)
    requires WellFormed(Nodes(dir))
    ensures paths == SortedPathsOf(Nodes(dir))
  {
    var todo := dir.Keys;
    paths := [];
    while todo != {}
      invariant todo <= dir.Keys
      invariant forall p :: p in paths <==> exists k :: k in dir.Keys - todo && k != [] && Join(k) == p
      invariant forall i, j :: 0 <= i < j < |paths| ==> paths[i] != paths[j]
      decreases |todo|
    {
      var k :| k in todo;
      ghost var done := dir.Keys - todo;
      if k != [] {
        if Join(k) in paths {
          ghost var k' :| k' in done && k' != [] && Join(k') == Join(k);
          SplitJoin(k);
          SplitJoin(k');
          assert false;
        }
        ghost var before := paths;
        paths := paths + [Join(k)];
        assert forall p :: p in paths <==> p in before || p == Join(k);
      }
      todo := todo - {k};
      assert dir.Keys - todo == done + {k};
    }
    assert dir.Keys - todo == Nodes(dir).Keys;
    paths := Sort(paths);
    SortedSeqUnique(PathSet(Nodes(dir)), paths);
  }

  /** One header and, for a regular file, its content. The header starts out as the inode's
      own and has its name, time and ownership overwritten. */
  method WriteEntry(dir: Inodes, prefix: string, p: string) returns (r: Maybe<Entry>)
    requires Split(p) in dir
    ensures r.Err? <==> dir[Split(p)].node.Socket?
    ensures r.Ok? ==> r.value == EntryOf(prefix, Nodes(dir), p)
  {
    var info := dir[Split(p)];
    if info.node.Socket? {
      return Err;
    }
    var header := Entry(Last(Split(p)), info.node, info.stamp);
    header := header.(name := prefix + "/" + p);
    header := header.(stamp := header.stamp.(mtime := 0));
    header := header.(stamp := header.stamp.(uid := 0, gid := 0));
    header := header.(stamp := header.stamp.(uname := "", gname := ""));
    if info.node.Dir? {
      header := header.(name := header.name + "/");
    }
    assert header.name == EntryName(prefix, p, info.node);
    return Ok(header);
  }

  lemma ArchivableIff(m: Tree)
    requires WellFormed(m)
    ensures Archivable(m) <==> forall p :: p in SortedPathsOf(m) ==> Split(p) in m && !m[Split(p)].Socket?
  {
    PathsAreKeys(m);
    forall k | k in m && k != [] ensures Join(k) in SortedPathsOf(m) && Split(Join(k)) == k {
      SplitJoin(k);
      assert Join(k) in PathSet(m);
    }
    forall p | p in SortedPathsOf(m) ensures Split(p) in m && Split(p) != [] {
      PathSetMember(m, p);
    }
  }

  /** What is left to write after `i` paths. */
  ghost predicate Remaining(prefix: string, m: Tree, paths: seq<string>, i: nat, entries: seq<Entry>) {
    && i <= |paths|
    && (forall p :: p in paths[i..] ==> Split(p) in m)
    && WellFormed(m) && entries + EntriesFor(prefix, m, paths[i..]) == Entries(prefix, m)
  }

  lemma RemainingNext(prefix: string, m: Tree, paths: seq<string>, i: nat, entries: seq<Entry>)
    requires Remaining(prefix, m, paths, i, entries) && i < |paths|
    ensures Split(paths[i]) in m
    ensures Remaining(prefix, m, paths, i + 1, entries + [EntryOf(prefix, m, paths[i])])
  {
    assert paths[i..] == [paths[i]] + paths[i + 1..];
    assert paths[i..][1..] == paths[i + 1..];
  }

  /** Writes the whole archive, or stops at the first node that has no header. */
  method WriteArchive(dir: Inodes, prefix: string) returns (r: Maybe<seq<Entry>>)
    requires WellFormed(Nodes(dir))
    ensures r == Pack(prefix, Nodes(dir))
  {
    ghost var m := Nodes(dir);
    PathsAreKeys(m);
    ArchivableIff(m);
    var paths := SortedPaths(dir);
    var entries := [TopEntry(prefix)];
    assert paths[0..] == paths;
    for i := 0 to |paths|
      invariant Remaining(prefix, m, paths, i, entries)
      invariant forall j :: 0 <= j < i ==> Split(paths[j]) in m && !m[Split(paths[j])].Socket?
    {
      RemainingNext(prefix, m, paths, i, entries);
      var e := WriteEntry(dir, prefix, paths[i]);
      if e.Err? {
        assert paths[i] in paths;
        return Err;
      }
      entries := entries + [e.value];
    }
    assert paths[|paths|..] == [] && entries + [] == entries;
    assert forall p :: p in paths ==> Split(p) in m && !m[Split(p)].Socket?;
    return Ok(entries);
  }

  /* ---- extraction ---- */

  function EntryKey(e: Entry): Key {
    Split(if e.node.Dir? then TrimSuffix(e.name, "/") else e.name)
  }

  /** One entry is put on disk only where its parent directory is and nothing else is yet. */
  ghost function ExtractOne(t: Tree, e: Entry): Maybe<Tree> {
    var k := EntryKey(e);
    if IsDir(t, Front(k)) && k !in t then Ok(t[k := e.node]) else Err
  }

  ghost function Extract(t: Tree, entries: seq<Entry>): Maybe<Tree>
    decreases |entries|
  {
    if entries == [] then Ok(t)
    else
      match ExtractOne(t, entries[0])
      case Err => Err
      case Ok(u) => Extract(u, entries[1..])
  }

  /** The mirror as an archive can give it back: its top directory gets mode 0755. */
  function Restored(m: Tree): Tree {
    m[[] := Dir(TOP_MODE)]
  }

  function Only(m: Tree, keys: set<Key>): Tree {
    map k | k in m && k in keys :: m[k]
  }

  lemma EntryKeyOf(prefix: string, m: Tree, p: string)
    requires Slashless(prefix) && Split(p) in m
    ensures EntryKey(EntryOf(prefix, m, p)) == [prefix] + Split(p)
  {
    var e := EntryOf(prefix, m, p);
    var bare := prefix + "/" + p;
    if e.node.Dir? {
      assert e.name == bare + "/";
      assert TrimSuffix(e.name, "/") == bare;
    } else {
      assert e.name == bare + "" == bare;
    }
    SplitConcat(prefix, p);
    SplitSlashless(prefix);
  }

  /** A path sorts after the directory it lies in. */
  lemma ParentSortsFirst(k: Key)
    requires |k| > 1
    ensures Less(Join(Front(k)), Join(k))
  {
    JoinFront(k);
    PrefixLess(Join(Front(k)), "/" + Last(k));
  }

  lemma TailOfFront(k: Key)
    requires |k| > 1
    ensures Front(k)[1..] == Front(k[1..])
  {
    var a, b := Front(k)[1..], Front(k[1..]);
    forall i | 0 <= i < |k| - 2 ensures a[i] == b[i] {
      assert a[i] == Front(k)[i + 1] == k[i + 1];
      assert b[i] == k[1..][i] == k[i + 1];
    }
    assert |a| == |b| == |k| - 2;
  }

  lemma {:induction false} JoinFront(k: Key)
    requires |k| > 1
    ensures Join(k) == Join(Front(k)) + ("/" + Last(k))
  {
    if |k| > 2 {
      JoinFront(k[1..]);
      TailOfFront(k);
      assert Join(Front(k)) == k[0] + "/" + Join(Front(k[1..]));
    }
  }

  ghost function Built(base: Tree, prefix: string, m: Tree, keys: set<Key>): Tree {
    Graft(base, [prefix], Only(Restored(m), keys))
  }

  ghost function KeysOf(paths: seq<string>): set<Key> {
    (set p | p in paths :: Split(p)) + {[]}
  }

  lemma BuiltAt(base: Tree, prefix: string, m: Tree, keys: set<Key>, k: Key)
    ensures var b := Built(base, prefix, m, keys);
            && ([prefix] + k in b <==> k in Restored(m) && k in keys)
            && ([prefix] + k in b ==> b[[prefix] + k] == Restored(m)[k])
  {
    assert ([prefix] + k)[1..] == k;
    assert [prefix] <= [prefix] + k;
  }

  lemma BuiltGrows(base: Tree, prefix: string, m: Tree, keys: set<Key>, k: Key)
    requires k in Restored(m) && k !in keys
    ensures Built(base, prefix, m, keys + {k}) == Built(base, prefix, m, keys)[[prefix] + k := Restored(m)[k]]
  {
    var u, v := Built(base, prefix, m, keys + {k}), Built(base, prefix, m, keys)[[prefix] + k := Restored(m)[k]];
    forall j ensures SameAt(u, v, j) {
      if [prefix] <= j {
        assert j == [prefix] + j[1..];
        assert j in u <==> j[1..] in Only(Restored(m), keys + {k});
      }
    }
    SameEverywhere(u, v);
  }

  /** `paths` names every node below the top of `m`, each once, in sorted order. */
  ghost predicate Lists(m: Tree, paths: seq<string>) {
    && StrictlySorted(paths)
    && (forall p :: p in paths ==> Split(p) in m)
    && (forall k :: k in m && k != [] ==> Join(k) in paths)
  }

  lemma SortedPathsList(m: Tree)
    requires WellFormed(m)
    ensures Lists(m, SortedPathsOf(m))
  {
    PathsAreKeys(m);
  }

  /** When a path's turn comes, the directory it lies in has had its own. */
  lemma FrontAlreadyListed(m: Tree, paths: seq<string>, i: nat)
    requires WellFormed(m) && Lists(m, paths) && i < |paths|
    ensures var k := Split(paths[i]); |k| > 1 ==>
              IsDir(m, Front(k)) && exists j :: 0 <= j < i && Split(paths[j]) == Front(k)
  {
    var p := paths[i];
    var k := Split(p);
    assert p in paths;
    if |k| > 1 {
      assert IsDir(m, Front(k));
      var q := Join(Front(k));
      JoinSplit(p);
      assert forall c :: c in Front(k) ==> c in k;
      SplitJoin(Front(k));
      ParentSortsFirst(k);
      assert q in paths;
      var j :| 0 <= j < |paths| && paths[j] == q;
      LessTotal(p, q);
      assert j < i;
    }
  }

  lemma PathsAreDistinct(paths: seq<string>, i: nat, j: nat)
    requires StrictlySorted(paths) && i < j < |paths|
    ensures Split(paths[i]) != Split(paths[j])
  {
    JoinSplit(paths[i]);
    JoinSplit(paths[j]);
    LessTotal(paths[i], paths[j]);
    LessTotal(paths[i], paths[i]);
  }

  lemma KeysGrow(paths: seq<string>, i: nat)
    requires StrictlySorted(paths) && i < |paths|
    ensures Split(paths[i]) !in KeysOf(paths[..i])
    ensures KeysOf(paths[..i + 1]) == KeysOf(paths[..i]) + {Split(paths[i])}
  {
    forall p | p in paths[..i] ensures Split(p) != Split(paths[i]) {
      var j :| 0 <= j < i && paths[j] == p;
      PathsAreDistinct(paths, j, i);
    }
    assert paths[..i + 1] == paths[..i] + [paths[i]];
  }

  lemma ExtractNext(base: Tree, prefix: string, m: Tree, paths: seq<string>, i: nat)
    requires WellFormed(m) && Slashless(prefix) && Lists(m, paths) && i < |paths|
    requires Split(paths[i]) in m
    ensures ExtractOne(Built(base, prefix, m, KeysOf(paths[..i])), EntryOf(prefix, m, paths[i]))
         == Ok(Built(base, prefix, m, KeysOf(paths[..i + 1])))
  {
    var p := paths[i];
    var k := Split(p);
    var keys := KeysOf(paths[..i]);
    EntryKeyOf(prefix, m, p);
    KeysGrow(paths, i);
    FrontIsBuilt(m, paths, i);
    assert Front([prefix] + k) == [prefix] + Front(k);
    BuiltAt(base, prefix, m, keys, Front(k));
    BuiltAt(base, prefix, m, keys, k);
    BuiltGrows(base, prefix, m, keys, k);
  }

  lemma FrontIsBuilt(m: Tree, paths: seq<string>, i: nat)
    requires WellFormed(m) && Lists(m, paths) && i < |paths|
    ensures var k := Split(paths[i]); Front(k) in KeysOf(paths[..i]) && IsDir(Restored(m), Front(k))
  {
    FrontAlreadyListed(m, paths, i);
    var k := Split(paths[i]);
    if |k| > 1 {
      var j :| 0 <= j < i && Split(paths[j]) == Front(k);
      assert paths[j] == paths[..i][j];
      assert paths[j] in paths[..i];
    } else {
      assert Front(k) == [];
    }
  }

  lemma {:induction false} ExtractRest(base: Tree, prefix: string, m: Tree, paths: seq<string>, i: nat)
    requires WellFormed(m) && Slashless(prefix) && Lists(m, paths) && i <= |paths|
    requires forall p :: p in paths[i..] ==> Split(p) in m
    ensures Extract(Built(base, prefix, m, KeysOf(paths[..i])), EntriesFor(prefix, m, paths[i..]))
         == Ok(Built(base, prefix, m, KeysOf(paths)))
    decreases |paths| - i
  {
    if i == |paths| {
      assert paths[..i] == paths && paths[i..] == [];
    } else {
      assert paths[i..] == [paths[i]] + paths[i + 1..];
      assert paths[i] in paths;
      ExtractNext(base, prefix, m, paths, i);
      ExtractRest(base, prefix, m, paths, i + 1);
    }
  }

  lemma ExtractTop(base: Tree, prefix: string, m: Tree)
    requires Slashless(prefix) && IsDir(base, []) && forall j :: j in base ==> !([prefix] <= j)
    ensures ExtractOne(base, TopEntry(prefix)) == Ok(Built(base, prefix, m, {[]}))
  {
    var top := TopEntry(prefix);
    assert TrimSuffix(top.name, "/") == prefix;
    SplitSlashless(prefix);
    assert EntryKey(top) == [prefix] && Front([prefix]) == [];
    var t0, b := base[[prefix] := Dir(TOP_MODE)], Built(base, prefix, m, {[]});
    forall j ensures SameAt(t0, b, j) {
      if [prefix] <= j {
        BuiltAt(base, prefix, m, {[]}, j[1..]);
        assert j == [prefix] + j[1..];
        assert j == [prefix] <==> j[1..] == [];
      }
    }
    SameEverywhere(t0, b);
  }

  /** Round trip: extracting a mirror's archive, entry by entry in the order written, never
      misses a parent and rebuilds the mirror under one top-level folder. */
  lemma ExtractRebuilds(base: Tree, prefix: string, m: Tree)
    requires WellFormed(m) && IsDir(m, []) && Slashless(prefix)
    requires IsDir(base, []) && forall j :: j in base ==> !([prefix] <= j)
    ensures Extract(base, Entries(prefix, m)) == Ok(Graft(base, [prefix], Restored(m)))
  {
    SortedPathsList(m);
    var paths := SortedPathsOf(m);
    var entries := Entries(prefix, m);
    assert entries[0] == TopEntry(prefix) && entries[1..] == EntriesFor(prefix, m, paths);
    ExtractTop(base, prefix, m);
    assert paths[..0] == [] && paths[0..] == paths;
    assert KeysOf(paths[..0]) == {[]};
    ExtractRest(base, prefix, m, paths, 0);
    AllBuilt(m, paths);
  }

  lemma AllBuilt(m: Tree, paths: seq<string>)
    requires WellFormed(m) && Lists(m, paths)
    ensures Only(Restored(m), KeysOf(paths)) == Restored(m)
  {
    forall k | k in Restored(m) ensures k in KeysOf(paths) {
      if k != [] {
        SplitJoin(k);
        assert Join(k) in paths;
      }
    }
  }

  /** Every entry but the first is preceded by the entry of the directory it goes into. */
  lemma ParentWrittenBefore(prefix: string, m: Tree, i: nat) returns (j: nat)
    requires WellFormed(m) && IsDir(m, []) && Slashless(prefix)
    requires 0 < i < |Entries(prefix, m)|
    ensures j < i && Entries(prefix, m)[j].node.Dir?
    ensures EntryKey(Entries(prefix, m)[j]) == Front(EntryKey(Entries(prefix, m)[i]))
  {
    var paths := SortedPathsOf(m);
    EntriesCount(prefix, m);
    DirEntryAt(prefix, m, i - 1);
    var k := Split(paths[i - 1]);
    EntryKeyOf(prefix, m, paths[i - 1]);
    assert Front([prefix] + k) == [prefix] + Front(k);
    if |k| == 1 {
      j := 0;
      assert TrimSuffix(TopEntry(prefix).name, "/") == prefix;
      SplitSlashless(prefix);
    } else {
      var before := ParentPath(m, i - 1);
      DirEntryAt(prefix, m, before);
      EntryKeyOf(prefix, m, paths[before]);
      j := before + 1;
    }
  }

  lemma ParentPath(m: Tree, i: nat) returns (j: nat)
    requires WellFormed(m) && i < |SortedPathsOf(m)| && |Split(SortedPathsOf(m)[i])| > 1
    ensures j < i && Split(SortedPathsOf(m)[j]) == Front(Split(SortedPathsOf(m)[i]))
    ensures IsDir(m, Split(SortedPathsOf(m)[j]))
  {
    SortedPathsList(m);
    FrontAlreadyListed(m, SortedPathsOf(m), i);
    j :| 0 <= j < i && Split(SortedPathsOf(m)[j]) == Front(Split(SortedPathsOf(m)[i]));
  }

  lemma EntriesCount(prefix: string, m: Tree)
    requires WellFormed(m)
    ensures |Entries(prefix, m)| == 1 + |SortedPathsOf(m)|
  {
    PathsAreKeys(m);
    EntriesForAt(prefix, m, SortedPathsOf(m));
  }

  lemma DirEntryAt(prefix: string, m: Tree, j: nat)
    requires WellFormed(m) && j < |SortedPathsOf(m)|
    ensures SortedPathsOf(m)[j] in SortedPathsOf(m) && Split(SortedPathsOf(m)[j]) in m
    ensures j + 1 < |Entries(prefix, m)| && Entries(prefix, m)[j + 1] == EntryOf(prefix, m, SortedPathsOf(m)[j])
  {
    PathsAreKeys(m);
    EntriesForAt(prefix, m, SortedPathsOf(m));
  }

  lemma {:induction false} EntriesForAt(prefix: string, m: Tree, paths: seq<string>)
    requires forall p :: p in paths ==> Split(p) in m
    ensures |EntriesFor(prefix, m, paths)| == |paths|
    ensures forall i :: 0 <= i < |paths| ==> paths[i] in paths && EntriesFor(prefix, m, paths)[i] == EntryOf(prefix, m, paths[i])
  {
    if paths != [] {
      EntriesForAt(prefix, m, paths[1..]);
      forall i | 0 <= i < |paths| ensures EntriesFor(prefix, m, paths)[i] == EntryOf(prefix, m, paths[i]) {
        if i > 0 {
          assert paths[i] == paths[1..][i - 1];
        }
      }
    }
  }

  /** Determinism, both ways: two mirrors get the same entry list exactly when they agree on
      every path, kind, mode, content and link target. Times, owners and listing order never
      matter; neither does the top directory's own mode, which the archive does not record. */
  lemma SameEntriesIff(prefix: string, a: Tree, b: Tree)
    requires WellFormed(a) && WellFormed(b) && IsDir(a, []) && IsDir(b, []) && Slashless(prefix)
    ensures Entries(prefix, a) == Entries(prefix, b) <==> Restored(a) == Restored(b)
  {
    if Restored(a) == Restored(b) {
      EntriesIgnoreTopMode(prefix, a);
      EntriesIgnoreTopMode(prefix, b);
    }
    if Entries(prefix, a) == Entries(prefix, b) {
      var base: Tree := map[[] := Dir(DIR_MODE)];
      ExtractRebuilds(base, prefix, a);
      ExtractRebuilds(base, prefix, b);
      SubtreeOfGraft(base, [prefix], Restored(a));
      SubtreeOfGraft(base, [prefix], Restored(b));
    }
  }

  lemma EntriesIgnoreTopMode(prefix: string, m: Tree)
    requires WellFormed(m) && IsDir(m, [])
    ensures WellFormed(Restored(m))
    ensures Entries(prefix, m) == Entries(prefix, Restored(m))
  {
    var r := Restored(m);
    forall k | k in r && k != [] ensures IsDir(r, Front(k)) {
      assert IsDir(m, Front(k));
    }
    assert PathSet(m) == PathSet(r);
    PathsAreKeys(m);
    PathsAreKeys(r);
    EntriesForSame(prefix, m, r, SortedPathsOf(m));
  }

  lemma {:induction false} EntriesForSame(prefix: string, a: Tree, b: Tree, paths: seq<string>)
    requires forall p :: p in paths ==> Split(p) in a && Split(p) in b && a[Split(p)] == b[Split(p)]
    ensures EntriesFor(prefix, a, paths) == EntriesFor(prefix, b, paths)
  {
    if paths != [] {
      EntriesForSame(prefix, a, b, paths[1..]);
    }
  }
}
