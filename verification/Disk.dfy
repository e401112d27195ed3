/** The file tree as a mutable object, with the file operations the tool calls on it. Each
    operation does to `tree` what its counterpart in Trees says. */
module Disk {
  import opened Names
  import opened Trees
  import Mirror

  class Disk {
    var tree: Tree

    constructor (t: Tree)
      ensures tree == t
    {
      tree := t;
    }

    method MkdirAll(k: Key, permitted: bool) returns (ok: bool)
      modifies this
      ensures ok == (permitted && Trees.MkdirAll(old(tree), k).Ok?)
      ensures tree == if ok then Trees.MkdirAll(old(tree), k).value else old(tree)
    {
      var made := Trees.MkdirAll(tree, k);
      ok := permitted && made.Ok?;
      if ok {
        tree := made.value;
      }
    }

    /** Replaces whatever is at or below `k`, as an external command writing there does. */
    method Install(k: Key, s: Tree)
      modifies this
      ensures tree == Graft(old(tree), k, s)
    {
      var moved := set j | j in s :: k + j;
      forall j | k <= j ensures j in moved <==> j[|k|..] in s {
        assert j == k + j[|k|..];
      }
      tree := (map j | j in tree && !(k <= j) :: tree[j]) + (map j | j in moved :: s[j[|k|..]]);
      SameEverywhereAsGraft(old(tree), k, s, tree);
    }

    /** A write to an open file: `done` is what it holds so far. */
    method Append(k: Key, mode: nat, done: seq<byte>, more: seq<byte>)
      requires k in tree && tree[k] == File(mode, Raw(done))
      modifies this
      ensures tree == PutFile(old(tree), k, File(mode, Raw(done + more)))
      ensures forall t :: old(tree) == PutFile(t, k, File(mode, Raw(done))) ==> tree == PutFile(t, k, File(mode, Raw(done + more)))
    {
      Install(k, map[[] := File(mode, Raw(done + more))]);
      forall t | old(tree) == PutFile(t, k, File(mode, Raw(done))) ensures tree == PutFile(t, k, File(mode, Raw(done + more))) {
        Mirror.GraftTwice(t, k, map[[] := File(mode, Raw(done))], map[[] := File(mode, Raw(done + more))]);
      }
    }

    method RemoveAll(k: Key, r: Mirror.Removal) returns (ok: bool)
      modifies this
      ensures ok == r.Removed?
      ensures tree == Mirror.RemoveTree(old(tree), k, r)
    {
      match r
      case Removed =>
        Install(k, EMPTY);
        ok := true;
      case Stuck(keep) =>
        var below := Read(k);
        Install(k, Mirror.Kept(below, keep));
        ok := false;
    }

    method Remove(k: Key, permitted: bool) returns (ok: bool)
      modifies this
      ensures ok == (permitted && Removable(old(tree), k))
      ensures tree == if permitted then Trees.Remove(old(tree), k) else old(tree)
    {
      ok := permitted && k in tree && forall j | j in tree :: k <= j ==> j == k;
      if ok {
        Install(k, EMPTY);
      }
    }

    method Rename(from: Key, to: Key, permitted: bool) returns (ok: bool)
      modifies this
      ensures ok == (permitted && Trees.Rename(old(tree), from, to).Ok?)
      ensures tree == if ok then Trees.Rename(old(tree), from, to).value else old(tree)
    {
      ok := permitted && from in tree && !(to in tree && (tree[to].Dir? || tree[from].Dir?));
      if ok {
        var moved := Read(from);
        Install(from, EMPTY);
        Install(to, moved);
      }
    }

    /** What is at or below `k`. */
    method Read(k: Key) returns (s: Tree)
      ensures s == Subtree(tree, k)
    {
      var keys := set j | j in tree && k <= j :: j[|k|..];
      forall j ensures j in keys <==> k + j in tree {
        if j in keys {
          var i :| i in tree && k <= i && i[|k|..] == j;
          assert k + j == i;
        }
        assert (k + j)[|k|..] == j;
      }
      s := map j | j in keys :: tree[k + j];
      forall j ensures SameAt(s, Subtree(tree, k), j) {}
      SameEverywhere(s, Subtree(tree, k));
    }
  }

  lemma SameEverywhereAsGraft(t: Tree, k: Key, s: Tree, u: Tree)
    requires forall j :: if k <= j then (j in u <==> j[|k|..] in s) && (j in u ==> u[j] == s[j[|k|..]]) else SameAt(u, t, j)
    ensures u == Graft(t, k, s)
  {
    var g := Graft(t, k, s);
    forall j ensures SameAt(u, g, j) {
      if !(k <= j) {
        assert SameAt(g, t, j);
      }
    }
    SameEverywhere(u, g);
  }
}
