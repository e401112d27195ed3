/** Path names: slash-separated repository paths, tree keys, and the file names a
    repository's mirror, archive and metadata get on disk. */
module Names {

  /** One file-tree location: its path components from the top of the tree down. */
  type Key = seq<string>

  predicate Slashless(s: string) {
    '/' !in s
  }

  /** The components of a slash-separated path. */
  function Split(s: string): (r: seq<string>)
    ensures |r| >= 1
    ensures forall c :: c in r ==> Slashless(c)
  {
    if s == "" then [""]
    else
      var r := Split(s[1..]);
      if s[0] == '/' then [""] + r
      else
        assert Slashless(r[0]);
        [[s[0]] + r[0]] + r[1..]
  }

  /** The slash-separated path of a non-empty key. */
  function Join(k: Key): string
    requires k != []
  {
    if |k| == 1 then k[0] else k[0] + "/" + Join(k[1..])
  }

  function Last(k: Key): string
    requires k != []
  {
    k[|k| - 1]
  }

  /** All but the last component; the top directory is its own parent. */
  function Front(k: Key): Key {
    if k == [] then [] else k[..|k| - 1]
  }

  predicate HasSuffix(s: string, suffix: string) {
    |suffix| <= |s| && s[|s| - |suffix|..] == suffix
  }

  function TrimSuffix(s: string, suffix: string): string {
    if HasSuffix(s, suffix) then s[..|s| - |suffix|] else s
  }

  lemma {:induction false} JoinSplit(s: string)
    ensures Join(Split(s)) == s
  {
    if s != "" {
      var r := Split(s[1..]);
      JoinSplit(s[1..]);
      if s[0] == '/' {
        assert ([""] + r)[1..] == r;
        assert Join([""] + r) == "" + "/" + Join(r);
      } else {
        var q := [[s[0]] + r[0]] + r[1..];
        assert q[1..] == r[1..];
        assert Join(q) == [s[0]] + Join(r);
      }
    }
  }

  lemma {:induction false} SplitSlashless(s: string)
    requires Slashless(s)
    ensures Split(s) == [s]
  {
    if s != "" {
      SplitSlashless(s[1..]);
      assert [s[0]] + s[1..] == s;
    }
  }

  lemma {:induction false} SplitConcat(s: string, rest: string)
    ensures Split(s + "/" + rest) == Split(s) + Split(rest)
  {
    var whole := s + "/" + rest;
    if s == "" {
      assert whole == "/" + rest && whole[1..] == rest;
    } else {
      assert whole[0] == s[0] && whole[1..] == s[1..] + "/" + rest;
      SplitConcat(s[1..], rest);
      var a, b := Split(s[1..]), Split(rest);
      Regroup(s[0], a, b);
    }
  }

  lemma Regroup(c: char, a: Key, b: Key)
    requires a != []
    ensures [""] + (a + b) == [""] + a + b
    ensures [[c] + (a + b)[0]] + (a + b)[1..] == [[c] + a[0]] + a[1..] + b
  {
  }

  lemma {:induction false} SplitJoin(k: Key)
    requires k != []
    requires forall c :: c in k ==> Slashless(c)
    ensures Split(Join(k)) == k
  {
    if |k| == 1 {
      SplitSlashless(k[0]);
    } else {
      SplitJoin(k[1..]);
      SplitConcat(k[0], Join(k[1..]));
      SplitSlashless(k[0]);
    }
  }

  /** Appending a slash-free suffix to a path only changes its last component. */
  lemma {:induction false} SplitSuffix(s: string, suffix: string)
    requires Slashless(suffix)
    ensures Split(s + suffix) == Extend(Split(s), suffix)
  {
    if s == "" {
      assert s + suffix == suffix;
      SplitSlashless(suffix);
    } else {
      assert (s + suffix)[1..] == s[1..] + suffix;
      SplitSuffix(s[1..], suffix);
      SplitHead(s, suffix, Split(s[1..]));
    }
  }

  lemma SplitHead(s: string, suffix: string, r: Key)
    requires s != "" && r != []
    ensures Extend([""] + r, suffix) == [""] + Extend(r, suffix)
    ensures Extend([[s[0]] + r[0]] + r[1..], suffix) == [[s[0]] + Extend(r, suffix)[0]] + Extend(r, suffix)[1..]
  {
    if |r| == 1 {
      assert [s[0]] + (r[0] + suffix) == ([s[0]] + r[0]) + suffix;
    }
  }

  /** A key with its last component extended, as in `dir + ".partial"`. */
  function Extend(k: Key, suffix: string): Key
    requires k != []
  {
    Front(k) + [Last(k) + suffix]
  }

  lemma {:induction false} JoinSuffix(k: Key, suffix: string)
    requires k != []
    ensures Join(Extend(k, suffix)) == Join(k) + suffix
  {
    var j := Extend(k, suffix);
    if |k| > 1 {
      JoinSuffix(k[1..], suffix);
      assert j[1..] == Extend(k[1..], suffix);
    }
  }

  /** The two roots a run writes under; neither lies inside the other. */
  datatype Layout = Layout(dest: Key, arch: Key) {
    predicate Apart() {
      !(dest <= arch) && !(arch <= dest)
    }
  }

  /** The five names a repository path can take on disk. */
  datatype Slot = Mirror | Partial | Metadata | Archive | Temp {
    function Suffix(): (s: string)
      ensures Slashless(s) && |s| > 0
    {
      match this
      case Mirror => ".git"
      case Partial => ".git.partial"
      case Metadata => ".metadata"
      case Archive => ".tar.gz"
      case Temp => ".tar.gz.tmp"
    }

    predicate InArchiveTree() {
      Archive? || Temp?
    }
  }

  /** `root` joined with the repository path and a file-name suffix. */
  function PathKey(root: Key, path: string, suffix: string): (k: Key)
    ensures |root| < |k| && root <= k
  {
    root + Split(path + suffix)
  }

  function SlotKey(l: Layout, path: string, slot: Slot): Key {
    PathKey(if slot.InArchiveTree() then l.arch else l.dest, path, slot.Suffix())
  }

  function MirrorPath(l: Layout, path: string): Key {
    SlotKey(l, path, Mirror)
  }

  function ArchivePath(l: Layout, path: string): Key {
    SlotKey(l, path, Archive)
  }

  function MetadataDir(l: Layout, path: string): Key {
    SlotKey(l, path, Metadata)
  }

  lemma SlotKeyShape(l: Layout, path: string, slot: Slot)
    ensures var root := if slot.InArchiveTree() then l.arch else l.dest;
            SlotKey(l, path, slot) == root + Front(Split(path)) + [Last(Split(path)) + slot.Suffix()]
  {
    SplitSuffix(path, slot.Suffix());
  }

  lemma Reassociate(name: string, a: string, b: string, ab: string)
    requires a + b == ab
    ensures name + a + b == name + ab
  {
    assert name + a + b == name + (a + b);
  }

  lemma PartialIsExtended(l: Layout, path: string)
    ensures Extend(MirrorPath(l, path), ".partial") == SlotKey(l, path, Partial)
    ensures Front(MirrorPath(l, path)) == Front(SlotKey(l, path, Partial))
  {
    SlotKeyShape(l, path, Mirror);
    SlotKeyShape(l, path, Partial);
    Reassociate(Last(Split(path)), ".git", ".partial", ".git.partial");
  }

  lemma TempIsExtended(l: Layout, path: string)
    ensures Extend(ArchivePath(l, path), ".tmp") == SlotKey(l, path, Temp)
    ensures Front(ArchivePath(l, path)) == Front(SlotKey(l, path, Temp))
  {
    SlotKeyShape(l, path, Archive);
    SlotKeyShape(l, path, Temp);
    Reassociate(Last(Split(path)), ".tar.gz", ".tmp", ".tar.gz.tmp");
  }

  predicate Reserved(name: string) {
    exists slot: Slot :: HasSuffix(name, slot.Suffix())
  }

  /** No namespace component of the path carries a suffix the tool gives a meaning to.
      The last component, the repository's own name, is unconstrained. */
  predicate Tame(path: string) {
    forall c :: c in Front(Split(path)) ==> !Reserved(c)
  }

  lemma SuffixesDiffer(a: string, s: Slot, b: string, t: Slot)
    requires s.InArchiveTree() == t.InArchiveTree()
    requires a + s.Suffix() == b + t.Suffix()
    ensures s == t && a == b
  {
    var x, y := a + s.Suffix(), b + t.Suffix();
    assert x[|x| - 1] == s.Suffix()[|s.Suffix()| - 1];
    assert y[|y| - 1] == t.Suffix()[|t.Suffix()| - 1];
    assert s == t;
    assert a == x[..|x| - |s.Suffix()|];
    assert b == y[..|y| - |t.Suffix()|];
  }

  lemma RootsApart(l: Layout, k: Key)
    requires l.Apart()
    ensures !(l.dest <= k && l.arch <= k)
  {
    if l.dest <= k && l.arch <= k {
      PrefixesNest(l.dest, l.arch, k);
      assert false;
    }
  }

  /** A path's key lies at or above another's only if the two full names coincide or the
      second passes through a namespace carrying the first one's suffix. */
  lemma KeyOverlap(root: Key, p: string, s: string, q: string, t: string)
    requires Slashless(s) && Slashless(t)
    requires PathKey(root, p, s) <= PathKey(root, q, t)
    ensures p + s == q + t || exists c :: c in Front(Split(q)) && HasSuffix(c, s)
  {
    var a, b := Split(p), Split(q);
    SplitSuffix(p, s);
    SplitSuffix(q, t);
    SameRoot(root, Extend(a, s), Extend(b, t));
    if |a| == |b| {
      assert Split(p + s) == Split(q + t);
      JoinSplit(p + s);
      JoinSplit(q + t);
    } else {
      PassesThrough(a, s, b, t);
    }
  }

  lemma SameRoot(root: Key, a: Key, b: Key)
    requires root + a <= root + b
    ensures a <= b
  {
    assert a == (root + a)[|root|..] && b == (root + b)[|root|..];
  }

  lemma PassesThrough(a: Key, s: string, b: Key, t: string)
    requires a != [] && b != [] && Extend(a, s) <= Extend(b, t) && |a| != |b|
    ensures exists c :: c in Front(b) && HasSuffix(c, s)
  {
    var c := Last(a) + s;
    assert Extend(a, s)[|a| - 1] == c == Extend(b, t)[|a| - 1] == Front(b)[|a| - 1];
    assert c in Front(b) && HasSuffix(c, s);
  }

  /** Prefix-freeness of the naming scheme: one repository's file or directory is, or
      contains, another's only when they are the same one. */
  lemma SlotsApart(l: Layout, p: string, s: Slot, q: string, t: Slot)
    requires l.Apart() && Tame(q)
    requires SlotKey(l, p, s) <= SlotKey(l, q, t)
    ensures p == q && s == t
  {
    if s.InArchiveTree() != t.InArchiveTree() {
      RootsApart(l, SlotKey(l, q, t));
      assert false;
    } else {
      var root := if s.InArchiveTree() then l.arch else l.dest;
      KeyOverlap(root, p, s.Suffix(), q, t.Suffix());
      if p + s.Suffix() == q + t.Suffix() {
        SuffixesDiffer(p, s, q, t);
      }
    }
  }

  /** Inside one of the trees the repository's own worker may change. */
  ghost predicate InRegion(l: Layout, path: string, k: Key) {
    exists slot :: SlotKey(l, path, slot) <= k
  }

  /** A directory some file of the repository lies below. */
  ghost predicate IsAbove(l: Layout, path: string, k: Key) {
    exists slot :: k < SlotKey(l, path, slot)
  }

  lemma PrefixesNest(a: Key, b: Key, k: Key)
    requires a <= k && b <= k
    ensures a <= b || b <= a
  {
    if |a| <= |b| {
      assert a == k[..|a|] == b[..|a|];
    } else {
      assert b == k[..|b|] == a[..|b|];
    }
  }

  lemma RegionsDisjoint(l: Layout, p: string, q: string, k: Key)
    requires l.Apart() && Tame(p) && Tame(q) && p != q
    requires InRegion(l, p, k)
    ensures !InRegion(l, q, k)
  {
    if InRegion(l, q, k) {
      var s :| SlotKey(l, p, s) <= k;
      var t :| SlotKey(l, q, t) <= k;
      PrefixesNest(SlotKey(l, p, s), SlotKey(l, q, t), k);
      if SlotKey(l, p, s) <= SlotKey(l, q, t) {
        SlotsApart(l, p, s, q, t);
      } else {
        SlotsApart(l, q, t, p, s);
      }
      assert false;
    }
  }

  lemma AboveIsShared(l: Layout, p: string, q: string, k: Key)
    requires l.Apart() && Tame(p)
    requires IsAbove(l, p, k)
    ensures !InRegion(l, q, k)
  {
    if InRegion(l, q, k) {
      var s :| k < SlotKey(l, p, s);
      var t :| SlotKey(l, q, t) <= k;
      assert SlotKey(l, q, t) <= SlotKey(l, p, s);
      SlotsApart(l, q, t, p, s);
      assert false;
    }
  }

  /** Two repositories sharing no file need not be tame to be told apart by name:
      distinct paths never share a slot key. */
  lemma SlotKeyInjective(l: Layout, p: string, q: string, s: Slot)
    requires SlotKey(l, p, s) == SlotKey(l, q, s)
    ensures p == q
  {
    var root := if s.InArchiveTree() then l.arch else l.dest;
    assert Split(p + s.Suffix()) == SlotKey(l, p, s)[|root|..];
    assert Split(q + s.Suffix()) == SlotKey(l, q, s)[|root|..];
    JoinSplit(p + s.Suffix());
    JoinSplit(q + s.Suffix());
    SuffixesDiffer(p, s, q, s);
  }

  /** The repository path a scan reads off a key under `root`: the relative path with the
      suffix cut off. */
  function RelPath(root: Key, k: Key, suffix: string): string
    requires |root| < |k|
  {
    TrimSuffix(Join(k[|root|..]), suffix)
  }

  /** Scanning undoes naming: a path's own key reads back as that path. */
  lemma NameRoundTrip(root: Key, path: string, suffix: string)
    ensures RelPath(root, PathKey(root, path, suffix), suffix) == path
  {
    JoinSplit(path + suffix);
    assert PathKey(root, path, suffix)[|root|..] == Split(path + suffix);
    assert (path + suffix)[..|path + suffix| - |suffix|] == path;
  }

  /** Naming undoes scanning: a key whose name carries the suffix is the key of the path
      read off it. */
  lemma KeyRoundTrip(root: Key, k: Key, suffix: string)
    requires root < k && HasSuffix(Last(k), suffix)
    requires forall c :: c in k ==> Slashless(c)
    ensures PathKey(root, RelPath(root, k, suffix), suffix) == k
  {
    var rel := k[|root|..];
    assert Last(rel) == Last(k);
    var stem := Last(rel)[..|Last(rel)| - |suffix|];
    var bare := Front(rel) + [stem];
    assert stem + suffix == Last(rel);
    assert Front(bare) == Front(rel) && Last(bare) == stem;
    assert Front(bare) + [Last(bare) + suffix] == rel;
    JoinSuffix(bare, suffix);
    assert Join(rel) == Join(bare) + suffix;
    assert TrimSuffix(Join(rel), suffix) == Join(bare);
    assert forall c :: c in rel ==> c in k;
    SplitJoin(rel);
    assert root + rel == k;
  }
}
