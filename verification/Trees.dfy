/** A file tree as a finite map from keys to nodes, and the file operations the tool uses. */
module Trees {
  import opened Names

  newtype byte = x: int | 0 <= x < 256

  /** What a regular file holds. A `.tar.gz` is kept at the level of its entry list:
      `closed` is false while the tar and gzip trailers are missing. */
  datatype Blob =
    | Raw(bytes: seq<byte>)
    | TarGz(entries: seq<Entry>, closed: bool)
    | Json(release: Manifest)

  datatype Node =
    | Dir(mode: nat)
    | File(mode: nat, data: Blob)
    | Link(target: string)
    | Socket

  /** Ownership and time of an inode; zero after an archive has normalised its header. */
  datatype Stamp = Stamp(mtime: int, uid: nat, gid: nat, uname: string, gname: string)

  datatype Entry = Entry(name: string, node: Node, stamp: Stamp)

  /** The part of a release.json this model keeps: which assets it lists, at what size. */
  datatype Manifest = Manifest(tag: string, assets: seq<Asset>)
  datatype Asset = Asset(name: string, size: nat)

  /** The key `[]` is the top directory; an empty map means nothing is there at all. */
  type Tree = map<Key, Node>

  const DIR_MODE := 0x1E8   // octal 0750
  const EMPTY: Tree := map[]

  ghost predicate IsDir(t: Tree, k: Key) {
    k in t && t[k].Dir?
  }

  /** Every node's parent is a directory, and names carry no slash. */
  ghost predicate WellFormed(t: Tree) {
    && (forall k {:trigger IsDir(t, Front(k))} :: k in t && k != [] ==> IsDir(t, Front(k)))
    && (forall k, c :: k in t && c in k ==> Slashless(c))
  }

  ghost predicate SameAt(t: Tree, u: Tree, k: Key) {
    && (k in t <==> k in u)
    && (k in t ==> t[k] == u[k])
  }

  lemma SameEverywhere(t: Tree, u: Tree)
    requires forall k :: SameAt(t, u, k)
    ensures t == u
  {
    assert t.Keys == u.Keys by {
      forall k ensures k in t <==> k in u { assert SameAt(t, u, k); }
    }
    forall k | k in t ensures t[k] == u[k] { assert SameAt(t, u, k); }
  }

  /** `s` is everything in `t` at or below `k`, made relative to `k`. */
  ghost predicate IsSubtree(t: Tree, k: Key, s: Tree) {
    forall j {:trigger j in s} {:trigger s[j]} ::
      && (j in s <==> k + j in t)
      && (j in s ==> s[j] == t[k + j])
  }

  ghost function Subtree(t: Tree, k: Key): (s: Tree)
    ensures IsSubtree(t, k, s)
  {
    SubtreeExists(t, k);
    var s :| IsSubtree(t, k, s);
    s
  }

  lemma SubtreeExists(t: Tree, k: Key)
    ensures exists s :: IsSubtree(t, k, s)
  {
    var keys := set j | j in t && k <= j :: j[|k|..];
    forall j ensures j in keys <==> k + j in t {
      if j in keys {
        var i :| i in t && k <= i && i[|k|..] == j;
        assert k + j == i;
      }
      assert (k + j)[|k|..] == j;
    }
    var s: Tree := map j | j in keys :: t[k + j];
    assert IsSubtree(t, k, s);
  }

  /** `r` is `t` with whatever is at or below `k` replaced by the tree `s`. */
  ghost predicate IsGraft(t: Tree, k: Key, s: Tree, r: Tree) {
    forall j {:trigger j in r} {:trigger r[j]} ::
      if k <= j then (j in r <==> j[|k|..] in s) && (j in r ==> r[j] == s[j[|k|..]])
      else SameAt(r, t, j)
  }

  /** Grafting the empty tree removes what was there. */
  ghost function Graft(t: Tree, k: Key, s: Tree): (r: Tree)
    ensures IsGraft(t, k, s, r)
  {
    GraftExists(t, k, s);
    var r :| IsGraft(t, k, s, r);
    r
  }

  lemma GraftExists(t: Tree, k: Key, s: Tree)
    ensures exists r :: IsGraft(t, k, s, r)
  {
    var moved := set j | j in s :: k + j;
    forall j | k <= j ensures j in moved <==> j[|k|..] in s {
      assert j == k + j[|k|..];
    }
    assert forall j :: j in moved ==> k <= j;
    var r: Tree := (map j | j in t && !(k <= j) :: t[j]) + (map j | j in moved :: s[j[|k|..]]);
    forall j
      ensures if k <= j then (j in r <==> j[|k|..] in s) && (j in r ==> r[j] == s[j[|k|..]]) else SameAt(r, t, j)
    {
      if k <= j {
        assert j in moved <==> j[|k|..] in s;
      } else {
        assert j !in moved;
      }
    }
    assert IsGraft(t, k, s, r);
  }

  /** os.RemoveAll. */
  ghost function RemoveAll(t: Tree, k: Key): Tree {
    Graft(t, k, EMPTY)
  }

  ghost function PutFile(t: Tree, k: Key, n: Node): Tree {
    Graft(t, k, map[[] := n])
  }

  function Prefixes(k: Key): (s: set<Key>)
    ensures forall j :: j in s <==> j <= k
  {
    assert forall j: Key :: j <= k ==> j == k[..|j|];
    set i | 0 <= i <= |k| :: k[..i]
  }

  datatype Maybe<+T> = Ok(value: T) | Err

  /** os.MkdirAll: fails when a component exists and is no directory. */
  function MkdirAll(t: Tree, k: Key): (r: Maybe<Tree>)
    ensures r.Err? <==> exists j :: j <= k && j in t && !t[j].Dir?
    ensures r.Ok? ==> forall j :: j in r.value <==> j in t || j <= k
    ensures r.Ok? ==> forall j :: j in t ==> r.value[j] == t[j]
    ensures r.Ok? ==> forall j :: j <= k && j !in t ==> r.value[j] == Dir(DIR_MODE)
  {
    if exists j | j in Prefixes(k) :: j in t && !t[j].Dir? then Err
    else Ok((map j | j in Prefixes(k) :: Dir(DIR_MODE)) + t)
  }

  /** os.Rename: the source must exist, the target must be no directory, and a directory
      does not replace a file. */
  ghost function Rename(t: Tree, from: Key, to: Key): (r: Maybe<Tree>)
  {
    if from !in t || (to in t && (t[to].Dir? || t[from].Dir?)) then Err
    else Ok(Graft(RemoveAll(t, from), to, Subtree(t, from)))
  }

  /** os.Remove: removes a file or an empty directory. */
  ghost predicate Removable(t: Tree, k: Key) {
    k in t && (forall j | j in t :: k <= j ==> j == k)
  }

  ghost function Remove(t: Tree, k: Key): Tree {
    if Removable(t, k) then RemoveAll(t, k) else t
  }

  /* ---- keeping the tree a tree ---- */

  lemma ParentPrefix(a: Key, b: Key)
    requires a < b
    ensures a <= Front(b)
  {
    assert a == b[..|a|];
  }

  /** In a well-formed tree every proper prefix of a node's key is a directory. */
  lemma {:induction false} AncestorsAreDirs(t: Tree, k: Key, a: Key)
    requires WellFormed(t) && k in t && a < k
    ensures IsDir(t, a)
    decreases |k|
  {
    ParentPrefix(a, k);
    assert IsDir(t, Front(k));
    if a != Front(k) {
      AncestorsAreDirs(t, Front(k), a);
    }
  }

  lemma MkdirAllWellFormed(t: Tree, k: Key)
    requires WellFormed(t) && MkdirAll(t, k).Ok?
    requires forall c :: c in k ==> Slashless(c)
    ensures WellFormed(MkdirAll(t, k).value)
    ensures forall j :: j <= k ==> IsDir(MkdirAll(t, k).value, j)
  {
    var u := MkdirAll(t, k).value;
    forall j | j in u && j != [] ensures IsDir(u, Front(j)) {
      if j in t {
        assert IsDir(t, Front(j));
      } else {
        assert Front(j) <= k;
      }
    }
    forall j, c | j in u && c in j ensures Slashless(c) {
      if j !in t {
        assert c in k;
      }
    }
  }

  lemma GraftWellFormed(t: Tree, k: Key, s: Tree)
    requires WellFormed(t) && WellFormed(s)
    requires s != EMPTY && k != [] ==> IsDir(t, Front(k))
    requires forall c :: c in k ==> Slashless(c)
    ensures WellFormed(Graft(t, k, s))
  {
    var u := Graft(t, k, s);
    forall j | j in u && j != [] ensures IsDir(u, Front(j)) {
      if k <= j {
        var rel := j[|k|..];
        if rel == [] {
          assert j == k;
          assert !(k <= Front(k));
          assert SameAt(u, t, Front(k));
        } else {
          assert IsDir(s, Front(rel));
          assert k <= Front(j) && Front(j)[|k|..] == Front(rel);
        }
      } else {
        assert SameAt(u, t, j);
        assert IsDir(t, Front(j));
        assert !(k <= Front(j));
        assert SameAt(u, t, Front(j));
      }
    }
    forall j, c | j in u && c in j ensures Slashless(c) {
      if k <= j {
        assert j == k + j[|k|..];
      } else {
        assert SameAt(u, t, j);
      }
    }
  }

  lemma SubtreeWellFormed(t: Tree, k: Key)
    requires WellFormed(t)
    ensures WellFormed(Subtree(t, k))
  {
    var s := Subtree(t, k);
    forall j | j in s && j != [] ensures IsDir(s, Front(j)) {
      assert Front(k + j) == k + Front(j);
      assert IsDir(t, Front(k + j));
    }
    forall j, c | j in s && c in j ensures Slashless(c) {
      assert c in k + j;
    }
  }

  lemma SubtreeOfGraft(t: Tree, k: Key, s: Tree)
    ensures Subtree(Graft(t, k, s), k) == s
  {
    var u := Subtree(Graft(t, k, s), k);
    forall j ensures SameAt(u, s, j) {
      assert (k + j)[|k|..] == j;
    }
    SameEverywhere(u, s);
  }

  /** A subtree is untouched by a change that reaches no key at or below its root. */
  lemma SubtreeUnchanged(t: Tree, u: Tree, k: Key)
    requires forall j :: k <= j ==> SameAt(t, u, j)
    ensures Subtree(t, k) == Subtree(u, k)
  {
    forall j ensures SameAt(Subtree(t, k), Subtree(u, k), j) {
      assert SameAt(t, u, k + j);
    }
    SameEverywhere(Subtree(t, k), Subtree(u, k));
  }

  lemma EmptySubtree(t: Tree, k: Key)
    requires WellFormed(t) && k !in t
    ensures Subtree(t, k) == EMPTY
    ensures forall j :: k <= j ==> j !in t
  {
    forall j | k <= j ensures j !in t {
      if j in t && j != k {
        AncestorsAreDirs(t, j, k);
      }
    }
    assert forall j :: k <= k + j;
    SameEverywhere(Subtree(t, k), EMPTY);
  }
}
