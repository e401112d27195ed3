/** The string order the Go library sorts by, and sorted sequences without repetition. */
module Order {

  /** Lexicographic order by character, a proper prefix coming first. */
  predicate Less(a: string, b: string) {
    b != "" && (a == "" || a[0] < b[0] || (a[0] == b[0] && Less(a[1..], b[1..])))
  }

  /** That is: at the first place where they differ, `a` has the smaller character or has come
      to its end. */
  lemma {:induction false} LessIff(a: string, b: string)
    ensures Less(a, b) <==>
              exists k :: 0 <= k < |b| && k <= |a| && a[..k] == b[..k] && (k == |a| || (k < |a| && a[k] < b[k]))
  {
    if Less(a, b) {
      if a == "" || a[0] < b[0] {
        assert a[..0] == b[..0];
      } else {
        LessIff(a[1..], b[1..]);
        var k :| 0 <= k < |b[1..]| && k <= |a[1..]| && a[1..][..k] == b[1..][..k] && (k == |a[1..]| || (k < |a[1..]| && a[1..][k] < b[1..][k]));
        assert a[..k + 1] == [a[0]] + a[1..][..k] && b[..k + 1] == [b[0]] + b[1..][..k];
      }
    } else if k :| 0 <= k < |b| && k <= |a| && a[..k] == b[..k] && (k == |a| || (k < |a| && a[k] < b[k])) {
      if 0 < k {
        assert a[0] == a[..k][0] == b[..k][0] == b[0];
        assert a[1..][..k - 1] == a[..k][1..] && b[1..][..k - 1] == b[..k][1..];
        LessIff(a[1..], b[1..]);
      }
      assert false;
    }
  }

  lemma {:induction false} LessTransitive(a: string, b: string, c: string)
    requires Less(a, b) && Less(b, c)
    ensures Less(a, c)
  {
    if a != "" && a[0] == b[0] && b[0] == c[0] {
      LessTransitive(a[1..], b[1..], c[1..]);
    }
  }

  lemma {:induction false} LessTotal(a: string, b: string)
    ensures a == b || Less(a, b) || Less(b, a)
    ensures !(Less(a, b) && Less(b, a))
    ensures !Less(a, a)
  {
    if a != "" && b != "" && a[0] == b[0] {
      LessTotal(a[1..], b[1..]);
      assert [a[0]] + a[1..] == a && [b[0]] + b[1..] == b;
    }
    if a != "" {
      LessTotal(a[1..], a[1..]);
    }
  }

  lemma {:induction false} PrefixLess(a: string, suffix: string)
    requires suffix != ""
    ensures Less(a, a + suffix)
  {
    if a != "" {
      assert (a + suffix)[1..] == a[1..] + suffix;
      PrefixLess(a[1..], suffix);
    } else {
      assert a + suffix == suffix;
    }
  }

  ghost predicate StrictlySorted(xs: seq<string>) {
    forall i, j :: 0 <= i < j < |xs| ==> Less(xs[i], xs[j])
  }

  /** Where a string goes in a sorted sequence that does not hold it yet. */
  method Insert(xs: seq<string>, x: string) returns (r: seq<string>)
    requires StrictlySorted(xs) && x !in xs
    ensures StrictlySorted(r)
    ensures forall y :: y in r <==> y == x || y in xs
    ensures |r| == |xs| + 1
  {
    var i := 0;
    while i < |xs| && Less(xs[i], x)
      invariant 0 <= i <= |xs|
      invariant forall j :: 0 <= j < i ==> Less(xs[j], x)
    {
      i := i + 1;
    }
    r := xs[..i] + [x] + xs[i..];
    if i < |xs| {
      LessTotal(xs[i], x);
    }
    forall j | i <= j < |xs| ensures Less(x, xs[j]) {
      if i < j {
        LessTransitive(x, xs[i], xs[j]);
      }
    }
    assert forall y :: y in r <==> y == x || y in xs by {
      assert xs == xs[..i] + xs[i..];
    }
  }

  /** slices.Sort on a slice without repetitions. */
  method Sort(xs: seq<string>) returns (r: seq<string>)
    requires forall i, j :: 0 <= i < j < |xs| ==> xs[i] != xs[j]
    ensures StrictlySorted(r)
    ensures forall x :: x in r <==> x in xs
    ensures |r| == |xs|
  {
    r := [];
    for i := 0 to |xs|
      invariant StrictlySorted(r) && |r| == i
      invariant forall x :: x in r <==> x in xs[..i]
    {
      assert xs[i] !in xs[..i];
      assert xs[..i + 1] == xs[..i] + [xs[i]];
      r := Insert(r, xs[i]);
    }
    assert xs[..|xs|] == xs;
  }

  lemma {:induction false} SortedUnique(a: seq<string>, b: seq<string>)
    requires StrictlySorted(a) && StrictlySorted(b)
    requires forall x :: x in a <==> x in b
    ensures a == b
  {
    assert b != [] ==> b[0] in a;
    if a != [] {
      assert a[0] in b;
      var i :| 0 <= i < |b| && b[i] == a[0];
      assert b[0] in a;
      var j :| 0 <= j < |a| && a[j] == b[0];
      if 0 < i && 0 < j {
        LessTotal(a[0], b[0]);
        assert false;
      }
      if 0 < i || 0 < j {
        LessTotal(a[0], a[0]);
        assert false;
      }
      TailMembers(a, b);
      TailMembers(b, a);
      SortedUnique(a[1..], b[1..]);
      assert a == [a[0]] + a[1..] && b == [b[0]] + b[1..];
    }
  }

  lemma TailMembers(a: seq<string>, b: seq<string>)
    requires StrictlySorted(a) && StrictlySorted(b) && a != [] && b != [] && a[0] == b[0]
    requires forall x :: x in a ==> x in b
    ensures forall x :: x in a[1..] ==> x in b[1..]
  {
    forall x | x in a[1..] ensures x in b[1..] {
      LessTotal(a[0], x);
      assert x in b;
      assert b == [b[0]] + b[1..];
    }
  }

  /** The strictly sorted sequence of a finite set of strings. */
  ghost function SortedSeq(s: set<string>): (r: seq<string>)
    ensures StrictlySorted(r)
    ensures forall x :: x in r <==> x in s
  {
    if s == {} then []
    else
      var x :| x in s;
      InsertExists(SortedSeq(s - {x}), x);
      var r :| StrictlySorted(r) && forall y :: y in r <==> y == x || y in SortedSeq(s - {x});
      r
  }

  lemma {:induction false} InsertExists(xs: seq<string>, x: string)
    requires StrictlySorted(xs) && x !in xs
    ensures exists r: seq<string> :: StrictlySorted(r) && forall y :: y in r <==> y == x || y in xs
  {
    if xs == [] {
      assert StrictlySorted([x]) && forall y :: y in [x] <==> y == x || y in xs;
    } else {
      LessTotal(x, xs[0]);
      if Less(x, xs[0]) {
        forall j | 1 <= j < |xs| ensures Less(x, xs[j]) {
          LessTransitive(x, xs[0], xs[j]);
        }
        var r := [x] + xs;
        assert StrictlySorted(r) && forall y :: y in r <==> y == x || y in xs;
      } else {
        InsertExists(xs[1..], x);
        var t: seq<string> :| StrictlySorted(t) && forall y :: y in t <==> y == x || y in xs[1..];
        var r := [xs[0]] + t;
        forall j | 0 <= j < |t| ensures Less(xs[0], t[j]) {
          assert t[j] in t;
          if t[j] != x {
            assert t[j] in xs[1..];
          }
        }
        assert xs == [xs[0]] + xs[1..];
        assert StrictlySorted(r) && forall y :: y in r <==> y == x || y in xs;
      }
    }
  }

  lemma SortedSeqUnique(s: set<string>, xs: seq<string>)
    requires StrictlySorted(xs) && forall x :: x in xs <==> x in s
    ensures xs == SortedSeq(s)
  {
    SortedUnique(xs, SortedSeq(s));
  }
}
