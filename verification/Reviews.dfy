/** Forgejo's review comments: paged reviews, each with its own body and line comments,
    flattened into one thread list. */
module Reviews {
  import opened Trees
  import opened Paging

  const PAGE_SIZE := 50

  datatype Review = Review(id: int, author: string, body: string, at: int)
  datatype LineComment = LineComment(author: string, body: string, at: int, path: string, position: int, originalPosition: int)
  datatype ReviewComment = ReviewComment(author: string, body: string, at: int, file: string, line: int)

  /** A comment on a removed line has no new position and keeps its old one. */
  function ToComment(c: LineComment): ReviewComment {
    ReviewComment(c.author, c.body, c.at, c.path, if c.position == 0 then c.originalPosition else c.position)
  }

  function ToComments(cs: seq<LineComment>): seq<ReviewComment> {
    seq(|cs|, i requires 0 <= i < |cs| => ToComment(cs[i]))
  }

  type Lines = int -> Maybe<seq<LineComment>>

  function Body(r: Review): seq<ReviewComment> {
    if r.body != "" then [ReviewComment(r.author, r.body, r.at, "", 0)] else []
  }

  function LinesOf(r: Review, lines: Lines): seq<ReviewComment> {
    if lines(r.id).Ok? then ToComments(lines(r.id).value) else []
  }

  /** The threads of an unpaged review list: each review's own body if it has one, then its
      line comments. */
  function Flatten(reviews: seq<Review>, lines: Lines): seq<ReviewComment> {
    if reviews == [] then [] else Body(reviews[0]) + LinesOf(reviews[0], lines) + Flatten(reviews[1..], lines)
  }

  lemma {:induction false} FlattenConcat(a: seq<Review>, b: seq<Review>, lines: Lines)
    ensures Flatten(a + b, lines) == Flatten(a, lines) + Flatten(b, lines)
  {
    if a == [] {
      assert a + b == b;
    } else {
      assert (a + b)[1..] == a[1..] + b;
      FlattenConcat(a[1..], b, lines);
    }
  }

  lemma FlattenNext(reviews: seq<Review>, i: nat, lines: Lines)
    requires i < |reviews|
    ensures Flatten(reviews[..i + 1], lines) == Flatten(reviews[..i], lines) + (Body(reviews[i]) + LinesOf(reviews[i], lines))
  {
    assert reviews[..i + 1] == reviews[..i] + [reviews[i]];
    FlattenConcat(reviews[..i], [reviews[i]], lines);
    assert [reviews[i]][1..] == [];
    assert Flatten([reviews[i]], lines) == Body(reviews[i]) + LinesOf(reviews[i], lines);
  }

  /** Where the threads of review `i` begin: after one for each non-empty body before it and one
      for each line comment. */
  function Offset(reviews: seq<Review>, lines: Lines, i: nat): (n: nat)
    requires i <= |reviews|
  {
    if i == 0 then 0
    else
      var r := reviews[i - 1];
      Offset(reviews, lines, i - 1) + (if r.body != "" then 1 else 0) + if lines(r.id).Ok? then |lines(r.id).value| else 0
  }

  lemma {:induction false} FlattenLength(reviews: seq<Review>, lines: Lines, i: nat)
    requires i <= |reviews|
    ensures |Flatten(reviews[..i], lines)| == Offset(reviews, lines, i)
  {
    if i > 0 {
      FlattenLength(reviews, lines, i - 1);
      FlattenNext(reviews, i - 1, lines);
    }
  }

  /** Every thread in its place. Review `i` begins with its own body, if it has one, on no file
      and no line. Its line comments follow in order, each on its file, at its new position if
      it has one and else at the old one. Nothing else is there. */
  lemma ThreadsInOrder(reviews: seq<Review>, lines: Lines, i: nat)
    requires i < |reviews| && lines(reviews[i].id).Ok?
    ensures var r, cs, all, from := reviews[i], lines(reviews[i].id).value, Flatten(reviews, lines), Offset(reviews, lines, i);
            var first := from + if r.body == "" then 0 else 1;
            && first + |cs| == Offset(reviews, lines, i + 1) <= |all| == Offset(reviews, lines, |reviews|)
            && (r.body != "" ==> all[from] == ReviewComment(r.author, r.body, r.at, "", 0))
            && forall k :: 0 <= k < |cs| ==>
                 && all[first + k].author == cs[k].author && all[first + k].body == cs[k].body
                 && all[first + k].at == cs[k].at && all[first + k].file == cs[k].path
                 && (cs[k].position != 0 ==> all[first + k].line == cs[k].position)
                 && (cs[k].position == 0 ==> all[first + k].line == cs[k].originalPosition)
  {
    var before, here, after := Flatten(reviews[..i], lines), Body(reviews[i]) + LinesOf(reviews[i], lines), Flatten(reviews[i + 1..], lines);
    FlattenNext(reviews, i, lines);
    FlattenConcat(reviews[..i + 1], reviews[i + 1..], lines);
    assert reviews[..i + 1] + reviews[i + 1..] == reviews && reviews[..|reviews|] == reviews;
    FlattenLength(reviews, lines, i);
    FlattenLength(reviews, lines, i + 1);
    FlattenLength(reviews, lines, |reviews|);
    Middle(before, here, after);
  }

  lemma Middle(a: seq<ReviewComment>, b: seq<ReviewComment>, c: seq<ReviewComment>)
    ensures forall k :: 0 <= k < |b| ==> (a + b + c)[|a| + k] == b[k]
  {
  }

  /** One review: its own body, if any, then its line comments. */
  method AppendReview(review: Review, lines: Lines, before: seq<ReviewComment>) returns (r: Maybe<seq<ReviewComment>>)
    ensures r.Ok? <==> lines(review.id).Ok?
    ensures r.Ok? ==> r.value == before + (Body(review) + LinesOf(review, lines))
  {
    var all := before;
    if review.body != "" {
      all := all + [ReviewComment(review.author, review.body, review.at, "", 0)];
    }
    var comments := OneReview(lines, review.id);
    if comments.Err? {
      return Err;
    }
    return Ok(all + comments.value);
  }

  predicate Fetched(reviews: seq<Review>, lines: Lines) {
    forall i :: 0 <= i < |reviews| ==> lines(reviews[i].id).Ok?
  }

  /** fetchOneReviewComments: one request, converted slot by slot. */
  method OneReview(lines: Lines, id: int) returns (r: Maybe<seq<ReviewComment>>)
    ensures r.Ok? <==> lines(id).Ok?
    ensures r.Ok? ==> r.value == ToComments(lines(id).value)
  {
    var comments := lines(id);
    if comments.Err? {
      return Err;
    }
    var cs := comments.value;
    var out := new ReviewComment[|cs|](_ => ReviewComment("", "", 0, "", 0));
    for i := 0 to |cs|
      invariant forall k :: 0 <= k < i ==> out[k] == ToComment(cs[k])
    {
      out[i] := ToComment(cs[i]);
    }
    return Ok(out[..]);
  }

  /** `all` is what was there before and the threads of the first `i` reviews. */
  ghost predicate UpTo(reviews: seq<Review>, i: nat, lines: Lines, before: seq<ReviewComment>, all: seq<ReviewComment>) {
    i <= |reviews| && all == before + Flatten(reviews[..i], lines)
  }

  lemma UpToNext(reviews: seq<Review>, i: nat, lines: Lines, before: seq<ReviewComment>, all: seq<ReviewComment>)
    requires UpTo(reviews, i, lines, before, all) && i < |reviews|
    ensures UpTo(reviews, i + 1, lines, before, all + (Body(reviews[i]) + LinesOf(reviews[i], lines)))
  {
    FlattenNext(reviews, i, lines);
    Regroup(before, Flatten(reviews[..i], lines), Body(reviews[i]) + LinesOf(reviews[i], lines));
  }

  lemma Regroup(a: seq<ReviewComment>, b: seq<ReviewComment>, c: seq<ReviewComment>)
    ensures a + b + c == a + (b + c)
  {
  }

  lemma UpToAll(reviews: seq<Review>, lines: Lines, before: seq<ReviewComment>, all: seq<ReviewComment>)
    requires UpTo(reviews, |reviews|, lines, before, all)
    ensures all == before + Flatten(reviews, lines)
  {
    assert reviews[..|reviews|] == reviews;
  }

  /** The reviews of one page, appended to what there is. */
  method AppendReviews(reviews: seq<Review>, lines: Lines, before: seq<ReviewComment>) returns (r: Maybe<seq<ReviewComment>>)
    ensures r.Ok? <==> Fetched(reviews, lines)
    ensures r.Ok? ==> r.value == before + Flatten(reviews, lines)
  {
    var all := before;
    for i := 0 to |reviews|
      invariant UpTo(reviews, i, lines, before, all)
      invariant forall k :: 0 <= k < i ==> lines(reviews[k].id).Ok?
    {
      UpToNext(reviews, i, lines, before, all);
      var next := AppendReview(reviews[i], lines, all);
      if next.Err? {
        return Err;
      }
      all := next.value;
    }
    UpToAll(reviews, lines, before, all);
    return Ok(all);
  }

  lemma FetchedConcat(a: seq<Review>, b: seq<Review>, lines: Lines)
    ensures Fetched(a + b, lines) <==> Fetched(a, lines) && Fetched(b, lines)
  {
    if Fetched(a + b, lines) {
      assert forall i :: 0 <= i < |a| ==> (a + b)[i] == a[i];
      assert forall i :: 0 <= i < |b| ==> (a + b)[|a| + i] == b[i];
    }
  }

  /** `all` is what the pages before this one come to. */
  ghost predicate Gathered(reviews: seq<Review>, page: nat, lines: Lines, all: seq<ReviewComment>) {
    && 1 <= page <= Requests(|reviews|, PAGE_SIZE) + 1
    && Fetched(Before(reviews, PAGE_SIZE, page), lines)
    && all == Flatten(Before(reviews, PAGE_SIZE, page), lines)
  }

  /** A page's threads follow those of the pages before it. */
  lemma PageGathered(reviews: seq<Review>, page: nat, lines: Lines, all: seq<ReviewComment>)
    requires page <= Requests(|reviews|, PAGE_SIZE) && Gathered(reviews, page, lines, all)
    requires Fetched(Page(reviews, PAGE_SIZE, page), lines)
    ensures Gathered(reviews, page + 1, lines, all + Flatten(Page(reviews, PAGE_SIZE, page), lines))
  {
    var before, items := Before(reviews, PAGE_SIZE, page), Page(reviews, PAGE_SIZE, page);
    PageExtends(reviews, PAGE_SIZE, page);
    FlattenConcat(before, items, lines);
    FetchedConcat(before, items, lines);
  }

  /** A review that failed on one page fails the whole list. */
  lemma PageUnfetched(reviews: seq<Review>, page: nat, lines: Lines)
    requires 1 <= page <= Requests(|reviews|, PAGE_SIZE)
    requires !Fetched(Page(reviews, PAGE_SIZE, page), lines)
    ensures !Fetched(reviews, lines)
  {
    var items := Page(reviews, PAGE_SIZE, page);
    var from := |Before(reviews, PAGE_SIZE, page)|;
    PageExtends(reviews, PAGE_SIZE, page);
    assert forall i :: 0 <= i < |items| ==> items[i] == reviews[from + i];
  }

  /** fetchReviewComments: over any number of review pages the result is the flattening of the
      whole review list, or an error if a page or any review's own comments failed. */
  method ReviewComments(reviews: seq<Review>, failing: iset<nat>, lines: Lines) returns (r: Maybe<seq<ReviewComment>>)
    ensures r.Ok? <==> AnsweredBefore(failing, Requests(|reviews|, PAGE_SIZE) + 1) && Fetched(reviews, lines)
    ensures r.Ok? ==> r.value == Flatten(reviews, lines)
  {
    var all: seq<ReviewComment> := [];
    var page: nat := 1;
    FirstPage(reviews, PAGE_SIZE);
    while true
      invariant page <= Requests(|reviews|, PAGE_SIZE)
      invariant Gathered(reviews, page, lines, all)
      invariant AnsweredBefore(failing, page)
      decreases Requests(|reviews|, PAGE_SIZE) - page
    {
      if page in failing {
        return Err;
      }
      AnsweredNext(failing, page);
      var items := Page(reviews, PAGE_SIZE, page);
      var next := AppendReviews(items, lines, all);
      if next.Err? {
        PageUnfetched(reviews, page, lines);
        return Err;
      }
      PageGathered(reviews, page, lines, all);
      PageExtends(reviews, PAGE_SIZE, page);
      all := next.value;
      if |items| < PAGE_SIZE {
        return Ok(all);
      }
      page := page + 1;
    }
  }
}
