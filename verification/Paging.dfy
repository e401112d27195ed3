/** Short-page paging: a full page may have a successor, a short one is the last. */
module Paging {

  function Min(a: nat, b: nat): nat {
    if a <= b then a else b
  }

  /** What a page request answers: items number (page-1)*size to page*size, as far as there
      are any. */
  function Page<T>(items: seq<T>, size: nat, page: nat): seq<T>
    requires page >= 1
  {
    items[Min((page - 1) * size, |items|)..Min((page - 1) * size + size, |items|)]
  }

  /** What the pages before this one held. */
  function Before<T>(items: seq<T>, size: nat, page: nat): seq<T>
    requires page >= 1
  {
    items[..Min((page - 1) * size, |items|)]
  }

  /** None of the pages before this one failed. */
  ghost predicate AnsweredBefore(failing: iset<nat>, page: nat) {
    forall p: nat :: 1 <= p < page ==> p !in failing
  }

  lemma AnsweredNext(failing: iset<nat>, page: nat)
    requires AnsweredBefore(failing, page) && page !in failing
    ensures AnsweredBefore(failing, page + 1)
  {
  }

  /** How many requests a listing of `n` items takes. */
  function Requests(n: nat, size: nat): nat
    requires size > 0
  {
    n / size + 1
  }

  lemma PageBounds(n: nat, size: nat, page: nat)
    requires size > 0 && 1 <= page <= Requests(n, size)
    ensures (page - 1) * size <= n && (page - 1) * size + size == page * size
    ensures page * size <= n <==> page < Requests(n, size)
  {
    var q := n / size;
    assert q * size <= n < q * size + size;
    MoreOf(page - 1, q, size);
    if page <= q {
      MoreOf(page, q, size);
    }
  }

  lemma {:induction false} MoreOf(a: nat, b: nat, size: nat)
    requires a <= b
    ensures a * size <= b * size && (a + 1) * size == a * size + size
  {
    if a < b {
      MoreOf(a, b - 1, size);
      assert b * size == (b - 1) * size + size;
    }
  }

  /** A page continues where the ones before it stop. It is short exactly when it is the last
      one requested, and then nothing is left over. */
  lemma PageExtends<T>(items: seq<T>, size: nat, page: nat)
    requires size > 0 && 1 <= page <= Requests(|items|, size)
    ensures Before(items, size, page) + Page(items, size, page) == Before(items, size, page + 1)
    ensures |Page(items, size, page)| < size <==> page == Requests(|items|, size)
    ensures page == Requests(|items|, size) ==> Before(items, size, page + 1) == items
    ensures Page(items, size, page) == [] ==> Before(items, size, page) == Before(items, size, page + 1)
  {
    PageBounds(|items|, size, page);
  }

  lemma FirstPage<T>(items: seq<T>, size: nat)
    requires size > 0
    ensures Before(items, size, 1) == []
  {
  }

  /* ---- filtering and converting ---- */

  /** `out` is what `conv` makes of the items that `keep` accepts, all of them, each once and in
      their order; `at` tells where each comes from. */
  ghost predicate PicksAt<A, B>(items: seq<A>, keep: A -> bool, conv: A -> B, out: seq<B>, at: seq<nat>) {
    && |at| == |out|
    && (forall j :: 0 <= j < |at| ==> at[j] < |items| && keep(items[at[j]]) && out[j] == conv(items[at[j]]))
    && (forall i, j :: 0 <= i < j < |at| ==> at[i] < at[j])
    && (forall i :: 0 <= i < |items| && keep(items[i]) ==> i in at)
  }

  ghost predicate Picks<A, B>(items: seq<A>, keep: A -> bool, conv: A -> B, out: seq<B>) {
    exists at: seq<nat> :: PicksAt(items, keep, conv, out, at)
  }

  lemma PicksNext<A, B>(items: seq<A>, keep: A -> bool, conv: A -> B, out: seq<B>, x: A)
    requires Picks(items, keep, conv, out)
    ensures Picks(items + [x], keep, conv, out + if keep(x) then [conv(x)] else [])
  {
    var at: seq<nat> :| PicksAt(items, keep, conv, out, at);
    if keep(x) {
      PicksOneMore(items, keep, conv, out, at, x);
    } else {
      PicksNoMore(items, keep, conv, out, at, x);
      assert out + [] == out;
    }
  }

  lemma PicksOneMore<A, B>(items: seq<A>, keep: A -> bool, conv: A -> B, out: seq<B>, at: seq<nat>, x: A)
    requires PicksAt(items, keep, conv, out, at) && keep(x)
    ensures PicksAt(items + [x], keep, conv, out + [conv(x)], at + [|items|])
  {
    var n: nat := |items|;
    var all, more := items + [x], at + [n];
    forall i | 0 <= i < |all| && keep(all[i]) ensures i in more {
      if i < n {
        assert keep(items[i]) && i in at;
      } else {
        assert more[|at|] == i;
      }
    }
  }

  lemma PicksNoMore<A, B>(items: seq<A>, keep: A -> bool, conv: A -> B, out: seq<B>, at: seq<nat>, x: A)
    requires PicksAt(items, keep, conv, out, at) && !keep(x)
    ensures PicksAt(items + [x], keep, conv, out, at)
  {
    var all := items + [x];
    forall i | 0 <= i < |all| && keep(all[i]) ensures i in at {
      assert i < |items| && keep(items[i]);
    }
  }

  /** If every item is kept, there is one result per item. */
  lemma PicksAll<A, B>(items: seq<A>, keep: A -> bool, conv: A -> B, out: seq<B>)
    requires Picks(items, keep, conv, out) && forall x :: x in items ==> keep(x)
    ensures |out| == |items| && forall i :: 0 <= i < |items| ==> out[i] == conv(items[i])
  {
    var at: seq<nat> :| PicksAt(items, keep, conv, out, at);
    SameLength(items, keep, conv, out, at);
    forall i | 0 <= i < |items| ensures out[i] == conv(items[i]) {
      AllAt(items, keep, conv, out, at, i);
    }
  }

  lemma SameLength<A, B>(items: seq<A>, keep: A -> bool, conv: A -> B, out: seq<B>, at: seq<nat>)
    requires PicksAt(items, keep, conv, out, at) && forall x :: x in items ==> keep(x)
    ensures |at| == |items|
  {
    NoMore(at, |items|);
    if items != [] {
      AllAt(items, keep, conv, out, at, |items| - 1);
    }
  }

  lemma NoMore(at: seq<nat>, n: nat)
    requires forall i, j :: 0 <= i < j < |at| ==> at[i] < at[j]
    requires forall j :: 0 <= j < |at| ==> at[j] < n
    ensures |at| <= n
  {
    if at != [] {
      AtLeast(at, |at| - 1);
    }
  }

  lemma {:induction false} AtLeast(at: seq<nat>, j: nat)
    requires j < |at| && forall i, j :: 0 <= i < j < |at| ==> at[i] < at[j]
    ensures at[j] >= j
  {
    if j > 0 {
      AtLeast(at, j - 1);
    }
  }

  lemma {:induction false} AllAt<A, B>(items: seq<A>, keep: A -> bool, conv: A -> B, out: seq<B>, at: seq<nat>, i: nat)
    requires PicksAt(items, keep, conv, out, at) && (forall x :: x in items ==> keep(x)) && i < |items|
    ensures i < |at| && at[i] == i
  {
    assert i in at;
    var j :| 0 <= j < |at| && at[j] == i;
    AtLeast(at, j);
    if i > 0 {
      AllAt(items, keep, conv, out, at, i - 1);
    }
  }
}
