/** What GitLab's 403 answers hide: when a listing has everything, and when the listing a prune
    goes by has everything the mirrored one has. */
module Visibility {
  import opened Trees
  import opened Worker
  import opened Backup
  import opened Gitlab

  /* ---- when a listing is complete ---- */

  function WikiPart(s: Server, p: Project): seq<Repo> {
    if s.wiki(p.path).items != [] then [Repo(p.path + ".wiki", p.archived, false)] else []
  }

  /** All there is of a project, permitted or not. */
  function Whole(s: Server, p: Project): seq<Repo> {
    [Repo(p.path, p.archived, p.empty)] + WikiPart(s, p) + SnippetsOf(p, s.snippets(p.path).items)
  }

  function WholeOf(s: Server, ps: seq<Project>): seq<Repo> {
    if ps == [] then [] else Whole(s, ps[0]) + WholeOf(s, ps[1..])
  }

  /** Every page of the listing answered, or nothing behind a 403. */
  ghost predicate HidesNothing<T>(l: Feed<T>) {
    AnsweredUpTo(l, LastPage(|l.items|) + 1) || (l.items == [] && l.verdict(1) == Forbidden)
  }

  /** The wiki lookup asks for one page only. */
  ghost predicate Shown(s: Server, p: Project) {
    && (s.wiki(p.path).verdict(1) == Answered || (s.wiki(p.path).verdict(1) == Forbidden && s.wiki(p.path).items == []))
    && HidesNothing(s.snippets(p.path))
  }

  lemma EnumeratedIsPrefix<T>(l: Feed<T>)
    requires Enumerated(l).Ok?
    ensures Enumerated(l).value <= l.items
  {
  }

  lemma DetailParts(s: Server, p: Project)
    requires Detail(s, p).Ok?
    ensures WikiRepo(s, p).Ok? && Enumerated(s.snippets(p.path)).Ok?
    ensures |WikiRepo(s, p).value| <= |WikiPart(s, p)|
    ensures WikiRepo(s, p).value != [] ==> WikiRepo(s, p).value == WikiPart(s, p)
    ensures |Detail(s, p).value| == 1 + |WikiRepo(s, p).value| + |Enumerated(s.snippets(p.path)).value|
  {
  }

  lemma DetailShownIff(s: Server, p: Project)
    ensures Detail(s, p) == Ok(Whole(s, p)) <==> Shown(s, p)
    ensures Detail(s, p).Ok? ==> |Detail(s, p).value| <= |Whole(s, p)|
    ensures Detail(s, p).Ok? && |Detail(s, p).value| == |Whole(s, p)| ==> Shown(s, p)
  {
    var l := s.snippets(p.path);
    CompleteIff(l);
    if Detail(s, p).Ok? {
      DetailParts(s, p);
      EnumeratedIsPrefix(l);
      if |Enumerated(l).value| == |l.items| {
        assert Enumerated(l).value == l.items;
      }
    }
  }

  ghost predicate AllShown(s: Server, ps: seq<Project>) {
    forall i :: 0 <= i < |ps| ==> Shown(s, ps[i])
  }

  lemma {:induction false} SerialShownIff(s: Server, ps: seq<Project>)
    requires AllFound(s, ps)
    ensures |Serial(s, ps)| <= |WholeOf(s, ps)|
    ensures |Serial(s, ps)| == |WholeOf(s, ps)| ==> AllShown(s, ps)
    ensures AllShown(s, ps) ==> Serial(s, ps) == WholeOf(s, ps)
  {
    if ps != [] {
      var rest := ps[1..];
      assert forall i :: 0 <= i < |rest| ==> rest[i] == ps[i + 1];
      assert Detail(s, ps[0]).Ok?;
      SerialShownIff(s, rest);
      DetailShownIff(s, ps[0]);
      if AllShown(s, ps) {
        assert Shown(s, ps[0]);
      }
    }
  }

  lemma ShownIsFound(s: Server, ps: seq<Project>)
    requires AllShown(s, ps)
    ensures AllFound(s, ps)
  {
    forall i | 0 <= i < |ps| ensures Detail(s, ps[i]).Ok? {
      DetailShownIff(s, ps[i]);
    }
  }

  lemma ListedShownIff(s: Server, l: Feed<Project>)
    ensures Listed(s, l) == Ok(WholeOf(s, l.items)) <==> AnsweredUpTo(l, LastPage(|l.items|) + 1) && AllShown(s, l.items)
    ensures Listed(s, l).Ok? ==> |Listed(s, l).value| <= |WholeOf(s, l.items)|
    ensures Listed(s, l).Ok? && |Listed(s, l).value| == |WholeOf(s, l.items)| ==> Listed(s, l) == Ok(WholeOf(s, l.items))
  {
    if AllShown(s, l.items) {
      ShownIsFound(s, l.items);
    }
    if Listed(s, l).Ok? {
      SerialShownIff(s, l.items);
    }
  }

  lemma BothWhole(x: seq<Repo>, y: seq<Repo>, a: seq<Repo>, b: seq<Repo>)
    requires |x| <= |a| && |y| <= |b| && x + y == a + b
    ensures |x| == |a| && |y| == |b|
  {
    assert |x + y| == |a + b|;
  }

  /** The full listing holds every project, every wiki and every snippet exactly if both project
      listings were answered page by page and no lookup met with a 403 that hid something. */
  lemma FullListingIff(s: Server)
    ensures ListedIn(s, StateAll) == Ok(WholeOf(s, s.active.items) + WholeOf(s, s.archived.items)) <==>
              && AnsweredUpTo(s.active, LastPage(|s.active.items|) + 1) && AllShown(s, s.active.items)
              && AnsweredUpTo(s.archived, LastPage(|s.archived.items|) + 1) && AllShown(s, s.archived.items)
  {
    ListedShownIff(s, s.active);
    ListedShownIff(s, s.archived);
    var a, b := WholeOf(s, s.active.items), WholeOf(s, s.archived.items);
    if ListedIn(s, StateAll) == Ok(a + b) {
      BothWhole(Listed(s, s.active).value, Listed(s, s.archived).value, a, b);
    }
  }

  /* ---- two views of one server ---- */

  /** The two calls see the same projects, wikis and snippets, each being refused what it is. */
  ghost predicate SameContents(a: Server, b: Server) {
    && a.active.items == b.active.items && a.archived.items == b.archived.items
    && forall path :: a.wiki(path).items == b.wiki(path).items && a.snippets(path).items == b.snippets(path).items
  }

  /** Of this project, call `b` shows all that call `a` does. */
  ghost predicate ShowsAsMuch(a: Server, b: Server, p: Project)
    requires Detail(a, p).Ok? && Detail(b, p).Ok?
  {
    && (WikiRepo(a, p).value != [] ==> WikiRepo(b, p).value != [])
    && |Enumerated(a.snippets(p.path)).value| <= |Enumerated(b.snippets(p.path)).value|
  }

  /** No repository is there twice, within a project or in two. */
  ghost predicate NoRepeats(s: Server, ps: seq<Project>) {
    && (forall i :: 0 <= i < |ps| ==> Unrepeated(Whole(s, ps[i])))
    && (forall i, j :: 0 <= i < j < |ps| ==> Disjoint(Whole(s, ps[i]), Whole(s, ps[j])))
  }

  predicate Unrepeated(rs: seq<Repo>) {
    forall i, j :: 0 <= i < j < |rs| ==> rs[i] != rs[j]
  }

  predicate Disjoint(a: seq<Repo>, b: seq<Repo>) {
    forall r :: r in a ==> r !in b
  }

  lemma {:induction false} InSerial(s: Server, ps: seq<Project>, r: Repo)
    requires AllFound(s, ps)
    ensures r in Serial(s, ps) <==> exists i :: 0 <= i < |ps| && r in Detail(s, ps[i]).value
  {
    if ps != [] {
      var rest := ps[1..];
      assert forall i :: 0 <= i < |rest| ==> rest[i] == ps[i + 1];
      assert Detail(s, ps[0]).Ok?;
      InSerial(s, rest, r);
      if r in Serial(s, rest) {
        var i :| 0 <= i < |rest| && r in Detail(s, rest[i]).value;
        assert r in Detail(s, ps[i + 1]).value;
      }
      if i :| 0 <= i < |ps| && r in Detail(s, ps[i]).value {
        if i > 0 {
          assert r in Detail(s, rest[i - 1]).value;
        }
      }
    }
  }

  lemma DetailInWhole(s: Server, p: Project, r: Repo)
    requires Detail(s, p).Ok? && r in Detail(s, p).value
    ensures r in Whole(s, p)
  {
    DetailParts(s, p);
    var ids := Enumerated(s.snippets(p.path)).value;
    EnumeratedIsPrefix(s.snippets(p.path));
    if r in SnippetsOf(p, ids) {
      var k :| 0 <= k < |ids| && SnippetsOf(p, ids)[k] == r;
      assert SnippetsOf(p, s.snippets(p.path).items)[k] == r;
    }
  }

  /** What `a` shows and `b` does not is not in `b`'s answer for the project. */
  lemma NotShown(a: Server, b: Server, p: Project) returns (r: Repo)
    requires SameContents(a, b) && Detail(a, p).Ok? && Detail(b, p).Ok? && Unrepeated(Whole(b, p))
    requires !ShowsAsMuch(a, b, p)
    ensures r in Detail(a, p).value && r !in Detail(b, p).value && r in Whole(b, p)
  {
    DetailParts(a, p);
    DetailParts(b, p);
    var items := b.snippets(p.path).items;
    var ia, ib := Enumerated(a.snippets(p.path)).value, Enumerated(b.snippets(p.path)).value;
    EnumeratedIsPrefix(a.snippets(p.path));
    EnumeratedIsPrefix(b.snippets(p.path));
    var whole := Whole(b, p);
    var at: nat;
    if |ia| > |ib| {
      at := 1 + |WikiPart(b, p)| + |ib|;
      r := SnippetRepo(p, items[|ib|]);
      assert SnippetsOf(p, items)[|ib|] == r && SnippetsOf(p, ia)[|ib|] == r;
    } else {
      at := 1;
      r := WikiPart(b, p)[0];
    }
    assert whole[at] == r;
    BelowElsewhere(b, p, r, at);
  }

  /** Where among all there is of a project something shown stands. */
  lemma ShownAt(b: Server, p: Project, r: Repo) returns (k: nat)
    requires Detail(b, p).Ok? && r in Detail(b, p).value
    ensures k < |Whole(b, p)| && Whole(b, p)[k] == r
    ensures var n := |WikiPart(b, p)|;
            k == 0 || (k == 1 && WikiRepo(b, p).value != []) || 1 + n <= k < 1 + n + |Enumerated(b.snippets(p.path)).value|
  {
    DetailParts(b, p);
    var n := |WikiPart(b, p)|;
    var ids := Enumerated(b.snippets(p.path)).value;
    EnumeratedIsPrefix(b.snippets(p.path));
    if r in SnippetsOf(p, ids) {
      var i :| 0 <= i < |ids| && SnippetsOf(p, ids)[i] == r;
      k := 1 + n + i;
    } else if r in WikiRepo(b, p).value {
      k := 1;
    } else {
      k := 0;
    }
  }

  lemma BelowElsewhere(b: Server, p: Project, r: Repo, at: nat)
    requires Detail(b, p).Ok? && Unrepeated(Whole(b, p)) && at < |Whole(b, p)| && Whole(b, p)[at] == r
    requires var n := |WikiPart(b, p)|;
             || at == 1 + n + |Enumerated(b.snippets(p.path)).value|
             || (at == 1 && n == 1 && WikiRepo(b, p).value == [])
    ensures r !in Detail(b, p).value
  {
    if r in Detail(b, p).value {
      var k := ShownAt(b, p, r);
      DetailParts(b, p);
    }
  }

  lemma ShownByBoth(a: Server, b: Server, p: Project, r: Repo)
    requires SameContents(a, b) && Detail(a, p).Ok? && Detail(b, p).Ok? && ShowsAsMuch(a, b, p) && r in Detail(a, p).value
    ensures r in Detail(b, p).value
  {
    DetailParts(a, p);
    DetailParts(b, p);
    var ia, ib := Enumerated(a.snippets(p.path)).value, Enumerated(b.snippets(p.path)).value;
    EnumeratedIsPrefix(a.snippets(p.path));
    EnumeratedIsPrefix(b.snippets(p.path));
    if r in SnippetsOf(p, ia) {
      var k :| 0 <= k < |ia| && SnippetsOf(p, ia)[k] == r;
      assert SnippetsOf(p, ib)[k] == r;
    }
  }

  /** The listing from call `a` is part of the one from call `b` exactly if `b` was not refused
      anything that `a` was shown. */
  lemma ContainedIff(a: Server, b: Server, ps: seq<Project>)
    requires SameContents(a, b) && AllFound(a, ps) && AllFound(b, ps) && NoRepeats(b, ps)
    ensures (forall r :: r in Serial(a, ps) ==> r in Serial(b, ps)) <==>
            (forall i :: 0 <= i < |ps| ==> ShowsAsMuch(a, b, ps[i]))
  {
    if forall i :: 0 <= i < |ps| ==> ShowsAsMuch(a, b, ps[i]) {
      forall r | r in Serial(a, ps) ensures r in Serial(b, ps) {
        InSerial(a, ps, r);
        InSerial(b, ps, r);
        var i :| 0 <= i < |ps| && r in Detail(a, ps[i]).value;
        ShownByBoth(a, b, ps[i], r);
      }
    } else {
      var i :| 0 <= i < |ps| && !ShowsAsMuch(a, b, ps[i]);
      var r := NotShown(a, b, ps[i]);
      InSerial(a, ps, r);
      NowhereElse(b, ps, i, r);
    }
  }

  lemma OnlyInOne(b: Server, ps: seq<Project>, i: nat, j: nat, r: Repo)
    requires NoRepeats(b, ps) && i < |ps| && j < |ps| && r in Whole(b, ps[i]) && r in Whole(b, ps[j])
    ensures i == j
  {
    CommonElement(Whole(b, ps[i]), Whole(b, ps[j]), r);
    CommonElement(Whole(b, ps[j]), Whole(b, ps[i]), r);
  }

  lemma CommonElement(x: seq<Repo>, y: seq<Repo>, r: Repo)
    requires r in x && r in y
    ensures !Disjoint(x, y)
  {
  }

  lemma NowhereElse(b: Server, ps: seq<Project>, i: nat, r: Repo)
    requires AllFound(b, ps) && NoRepeats(b, ps) && i < |ps| && r in Whole(b, ps[i]) && r !in Detail(b, ps[i]).value
    ensures r !in Serial(b, ps)
  {
    InSerial(b, ps, r);
    if r in Serial(b, ps) {
      var j :| 0 <= j < |ps| && r in Detail(b, ps[j]).value;
      DetailInWhole(b, ps[j], r);
      OnlyInOne(b, ps, i, j, r);
    }
  }

  /** One project with one snippet, which one call is shown and the next refused. */
  lemma RefusedInSecondCall() returns (a: Server, b: Server)
    ensures SameContents(a, b) && ListedIn(a, StateActive).Ok? && ListedIn(b, StateAll).Ok?
    ensures var r := Repo("g/p/snippets/" + Itoa(7), false, false);
            r in ListedIn(a, StateActive).value && r !in ListedIn(b, StateAll).value
  {
    var p := Project("g/p", false, false);
    var none: Feed<Project> := Feed([], _ => Answered);
    var one := Feed([p], _ => Answered);
    var wiki: string -> Feed<string> := (path: string) => Feed([], _ => Answered);
    a := Server(one, none, wiki, (path: string) => Feed([7], _ => Answered));
    b := Server(one, none, wiki, (path: string) => Feed([7], _ => Forbidden));
    assert [p][1..] == [];
    OneProject(a, p);
    OneProject(b, p);
    assert "g/p" + "/snippets/" == "g/p/snippets/";
    assert Enumerated(a.snippets(p.path)) == Ok([7]) by { CompleteIff(a.snippets(p.path)); }
    assert SnippetsOf(p, [7])[0] == SnippetRepo(p, 7);
    assert Enumerated(b.snippets(p.path)) == Ok([]);
    assert SnippetRepo(p, 7).path != "g/p" by {
      assert |SnippetRepo(p, 7).path| > 3;
    }
  }

  lemma OneProject(s: Server, p: Project)
    requires s.active.items == [p] && s.archived.items == [] && !p.archived
    requires forall n :: s.active.verdict(n) == Answered && s.archived.verdict(n) == Answered
    requires s.wiki(p.path).items == [] && s.wiki(p.path).verdict(1) == Answered
    requires Enumerated(s.snippets(p.path)).Ok?
    ensures var here := [Repo(p.path, false, p.empty)] + SnippetsOf(p, Enumerated(s.snippets(p.path)).value);
            ListedIn(s, StateActive) == Ok(here) && ListedIn(s, StateAll) == Ok(here)
  {
    var here := [Repo(p.path, false, p.empty)] + SnippetsOf(p, Enumerated(s.snippets(p.path)).value);
    var r := Repo(p.path, p.archived, p.empty);
    assert WikiRepo(s, p).Ok? && WikiRepo(s, p).value == [];
    assert [r] + [] == [r];
    assert Detail(s, p) == Ok(here);
    assert [p][1..] == [];
    assert Serial(s, [p]) == here + Serial(s, []) == here;
    assert AllFound(s, [p]) && AllFound(s, []);
    assert Listed(s, s.active) == Ok(here) && Listed(s, s.archived) == Ok([]);
    assert here + [] == here;
  }
}
