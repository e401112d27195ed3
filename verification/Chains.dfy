/** A sequence of actions on the tree, each of which can fail and end the sequence. */
module Chains {
  import opened Trees

  type Act<!A, B> = (Tree, A) -> (Maybe<B>, Tree)

  /** The first `n` of `xs` in turn, stopping at the first failure. */
  ghost function Chain<A, B>(act: Act<A, B>, t: Tree, xs: seq<A>, n: nat): (Maybe<seq<B>>, Tree)
    requires n <= |xs|
  {
    if n == 0 then (Ok([]), t)
    else
      var (done, u) := Chain(act, t, xs, n - 1);
      if done.Err? then (Err, u)
      else
        var (next, v) := act(u, xs[n - 1]);
        (if next.Err? then Err else Ok(done.value + [next.value]), v)
  }

  lemma {:induction false} FailureEnds<A, B>(act: Act<A, B>, t: Tree, xs: seq<A>, n: nat, m: nat)
    requires n <= m <= |xs| && Chain(act, t, xs, n).0.Err?
    ensures Chain(act, t, xs, m) == Chain(act, t, xs, n)
    decreases m
  {
    if n < m {
      FailureEnds(act, t, xs, n, m - 1);
    }
  }

  /** What every action keeps, whether it fails or not, the chain keeps. */
  lemma {:induction false} ChainKeeps<A, B>(act: Act<A, B>, t: Tree, xs: seq<A>, n: nat, inv: (Tree, nat) -> bool)
    requires n <= |xs| && inv(t, 0)
    requires forall u, k: nat :: k < |xs| && inv(u, k) ==> inv(u, k + 1) && inv(act(u, xs[k]).1, k + 1)
    ensures inv(Chain(act, t, xs, n).1, n)
  {
    if n > 0 {
      ChainKeeps(act, t, xs, n - 1, inv);
    }
  }

  /** If each action succeeds or fails by what it is told alone, the chain succeeds exactly if
      every action does. */
  lemma {:induction false} ChainOkIff<A, B>(act: Act<A, B>, t: Tree, xs: seq<A>, n: nat, inv: Tree -> bool, ok: A -> bool)
    requires n <= |xs| && inv(t)
    requires forall u, x :: inv(u) ==> act(u, x).0.Ok? == ok(x) && inv(act(u, x).1)
    ensures Chain(act, t, xs, n).0.Ok? <==> forall k :: 0 <= k < n ==> ok(xs[k])
    ensures inv(Chain(act, t, xs, n).1)
  {
    if n > 0 {
      ChainOkIff(act, t, xs, n - 1, inv, ok);
    }
  }

  /** If the action on `xs[i]` alone decides what holds, and the others change neither what
      holds nor how it will decide, then the tree at the start tells what holds at the end. */
  lemma {:induction false} OneDecides<A, B>(act: Act<A, B>, t: Tree, xs: seq<A>, n: nat, i: nat, holds: Tree -> bool, next: Tree -> bool)
    requires n <= |xs| && i < |xs|
    requires forall u :: holds(act(u, xs[i]).1) == next(u)
    requires forall u, k: nat :: k < |xs| && k != i ==> holds(act(u, xs[k]).1) == holds(u) && next(act(u, xs[k]).1) == next(u)
    ensures holds(Chain(act, t, xs, n).1) == if i < n && Chain(act, t, xs, i).0.Ok? then next(t) else holds(t)
    ensures n <= i ==> next(Chain(act, t, xs, n).1) == next(t)
  {
    if n > 0 {
      OneDecides(act, t, xs, n - 1, i, holds, next);
      if i < n - 1 && Chain(act, t, xs, i).0.Err? {
        FailureEnds(act, t, xs, i, n);
        FailureEnds(act, t, xs, i, n - 1);
      }
    }
  }
}
