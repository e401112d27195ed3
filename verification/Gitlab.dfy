/** Listing repositories from GitLab: header-paged projects, each with its wiki and snippets
    looked up concurrently. */
module Gitlab {
  import opened Trees
  import opened Worker
  import opened Backup
  import opened Paging
  import FanOut

  const PAGE_SIZE := 100
  const DETAIL_CONCURRENCY := 10

  datatype Project = Project(path: string, archived: bool, empty: bool)

  /** How the server answers a page request: with the page, with 403, or not usefully. */
  datatype Verdict = Answered | Forbidden | Failed

  datatype Feed<T> = Feed(items: seq<T>, verdict: nat -> Verdict)

  /** The project listing comes in two, as the endpoint has no value for both. `wiki` tells
      for a project path the wiki's page names, `snippets` its snippet ids. */
  datatype Server = Server(
    active: Feed<Project>,
    archived: Feed<Project>,
    wiki: string -> Feed<string>,
    snippets: string -> Feed<int>)

  /* ---- header paging ---- */

  /** The last page: the one whose x-next-page header is empty. */
  function LastPage(n: nat): (last: nat)
    ensures 1 <= last && n <= last * PAGE_SIZE
    ensures (last - 1) * PAGE_SIZE < n || last == 1
  {
    if n == 0 then 1 else (n - 1) / PAGE_SIZE + 1
  }

  /** Unlike a short page, an empty header needs no request past a full last page. */
  lemma HeaderPage<T>(items: seq<T>, page: nat)
    requires 1 <= page <= LastPage(|items|)
    ensures Before(items, PAGE_SIZE, page) + Page(items, PAGE_SIZE, page) == Before(items, PAGE_SIZE, page + 1)
    ensures page == LastPage(|items|) ==> Before(items, PAGE_SIZE, page + 1) == items
  {
  }

  datatype Fetched<T> = Fetched(items: seq<T>, more: bool)

  /** getOptional: a 403 reads as an empty last page. */
  function GetOptional<T>(l: Feed<T>, page: nat): Maybe<Fetched<T>>
    requires page >= 1
  {
    match l.verdict(page)
    case Failed => Err
    case Forbidden => Ok(Fetched([], false))
    case Answered => Ok(Fetched(Page(l.items, PAGE_SIZE, page), page < LastPage(|l.items|)))
  }

  /** Pages `from` up to, but not including, `to` were answered. */
  ghost predicate AnsweredUpTo<T>(l: Feed<T>, to: nat) {
    forall p: nat :: 1 <= p < to ==> l.verdict(p) == Answered
  }

  /** The first page up to the last that is not answered, or one past the last. */
  function FirstRefusal<T>(l: Feed<T>, from: nat): (p: nat)
    requires 1 <= from <= LastPage(|l.items|) + 1
    ensures from <= p <= LastPage(|l.items|) + 1
    ensures forall q: nat :: from <= q < p ==> l.verdict(q) == Answered
    ensures p <= LastPage(|l.items|) ==> l.verdict(p) != Answered
    decreases LastPage(|l.items|) + 1 - from
  {
    if from > LastPage(|l.items|) || l.verdict(from) != Answered then from else FirstRefusal(l, from + 1)
  }

  /** What enumerating a listing through getOptional comes to: nothing if a page failed, else
      everything before the first 403. */
  function Enumerated<T>(l: Feed<T>): Maybe<seq<T>> {
    var p := FirstRefusal(l, 1);
    if p <= LastPage(|l.items|) && l.verdict(p) == Failed then Err else Ok(Before(l.items, PAGE_SIZE, p))
  }

  /** The enumeration is complete exactly when every page was answered, or when there was
      nothing to miss behind a 403. */
  lemma CompleteIff<T>(l: Feed<T>)
    ensures Enumerated(l) == Ok(l.items) <==>
              AnsweredUpTo(l, LastPage(|l.items|) + 1) || (l.items == [] && l.verdict(1) == Forbidden)
  {
    var p := FirstRefusal(l, 1);
    if p <= LastPage(|l.items|) {
      assert !AnsweredUpTo(l, LastPage(|l.items|) + 1);
    } else {
      assert Before(l.items, PAGE_SIZE, p) == l.items;
    }
  }

  /* ---- one project ---- */

  function Digits(n: nat): string {
    if n < 10 then [('0' as int + n) as char] else Digits(n / 10) + [('0' as int + n % 10) as char]
  }

  function Itoa(n: int): string {
    if n < 0 then "-" + Digits(-n) else Digits(n)
  }

  /** What a numeral stands for. */
  function Value(s: string): int {
    if s == "" then 0 else 10 * Value(s[..|s| - 1]) + (s[|s| - 1] as int - '0' as int)
  }

  predicate Decimal(s: string) {
    s != "" && forall c :: c in s ==> '0' <= c <= '9'
  }

  lemma {:induction false} DigitsRead(n: nat)
    ensures Decimal(Digits(n)) && Value(Digits(n)) == n
  {
    if n >= 10 {
      DigitsRead(n / 10);
      var s := Digits(n);
      assert s[..|s| - 1] == Digits(n / 10);
    } else {
      assert Digits(n)[..0] == "";
    }
  }

  /** An id reads back from its numeral. */
  lemma ItoaReads(n: int)
    ensures n >= 0 ==> Decimal(Itoa(n)) && Value(Itoa(n)) == n
    ensures n < 0 ==> Itoa(n) != "" && Decimal(Itoa(n)[1..]) && Value(Itoa(n)[1..]) == -n
    ensures Itoa(n) != "" && (Itoa(n)[0] == '-' <==> n < 0)
  {
    DigitsRead(if n < 0 then -n else n);
    assert n >= 0 ==> Itoa(n)[0] in Itoa(n);
  }

  /** Two snippets of a project never get the same path. */
  lemma SnippetPathsDiffer(p: Project, a: int, b: int)
    requires SnippetRepo(p, a).path == SnippetRepo(p, b).path
    ensures a == b
  {
    var base := p.path + "/snippets/";
    assert SnippetRepo(p, a).path[|base|..] == Itoa(a) && SnippetRepo(p, b).path[|base|..] == Itoa(b);
    ItoaReads(a);
    ItoaReads(b);
  }

  function SnippetRepo(p: Project, id: int): Repo {
    Repo(p.path + "/snippets/" + Itoa(id), p.archived, false)
  }

  function SnippetsOf(p: Project, ids: seq<int>): seq<Repo> {
    seq(|ids|, i requires 0 <= i < |ids| => SnippetRepo(p, ids[i]))
  }

  method AppendSnippets(p: Project, ids: seq<int>, before: seq<Repo>) returns (repos: seq<Repo>)
    ensures repos == before + SnippetsOf(p, ids)
  {
    repos := before;
    for i := 0 to |ids|
      invariant repos == before + SnippetsOf(p, ids)[..i]
    {
      repos := repos + [SnippetRepo(p, ids[i])];
    }
  }

  /** How the enumeration ends, or goes on, at a page all those before which were answered. */
  lemma EnumeratedAt<T>(l: Feed<T>, page: nat)
    requires 1 <= page <= LastPage(|l.items|) && AnsweredUpTo(l, page)
    ensures match l.verdict(page)
            case Failed => Enumerated(l) == Err
            case Forbidden => Enumerated(l) == Ok(Before(l.items, PAGE_SIZE, page))
            case Answered => page == LastPage(|l.items|) ==> Enumerated(l) == Ok(l.items)
  {
    HeaderPage(l.items, page);
  }

  /** `repos` is what the pages before this one come to. */
  ghost predicate Snipped(l: Feed<int>, p: Project, page: nat, repos: seq<Repo>) {
    && 1 <= page <= LastPage(|l.items|) + 1
    && AnsweredUpTo(l, page)
    && repos == SnippetsOf(p, Before(l.items, PAGE_SIZE, page))
  }

  lemma SnippedNext(l: Feed<int>, p: Project, page: nat, repos: seq<Repo>)
    requires page <= LastPage(|l.items|) && Snipped(l, p, page, repos) && l.verdict(page) == Answered
    ensures Snipped(l, p, page + 1, repos + SnippetsOf(p, Page(l.items, PAGE_SIZE, page)))
  {
    HeaderPage(l.items, page);
    SnippetsConcat(p, Before(l.items, PAGE_SIZE, page), Page(l.items, PAGE_SIZE, page));
    AnsweredNext(l, page);
  }

  lemma SnippetsConcat(p: Project, a: seq<int>, b: seq<int>)
    ensures SnippetsOf(p, a + b) == SnippetsOf(p, a) + SnippetsOf(p, b)
  {
  }

  lemma SnippedEnds(l: Feed<int>, p: Project, page: nat, repos: seq<Repo>)
    requires page <= LastPage(|l.items|) && Snipped(l, p, page, repos) && l.verdict(page) != Answered
    ensures if l.verdict(page) == Failed then Enumerated(l).Err?
            else Enumerated(l).Ok? && repos == SnippetsOf(p, Enumerated(l).value)
  {
    EnumeratedAt(l, page);
  }

  lemma SnippedAll(l: Feed<int>, p: Project, repos: seq<Repo>)
    requires Snipped(l, p, LastPage(|l.items|) + 1, repos)
    ensures Enumerated(l).Ok? && repos == SnippetsOf(p, Enumerated(l).value)
  {
    EnumeratedAt(l, LastPage(|l.items|));
    HeaderPage(l.items, LastPage(|l.items|));
  }

  /** snippetRepos: one page after another until the next-page marker is empty. */
  method SnippetRepos(s: Server, p: Project) returns (r: Maybe<seq<Repo>>)
    ensures r.Err? <==> Enumerated(s.snippets(p.path)).Err?
    ensures r.Ok? ==> r.value == SnippetsOf(p, Enumerated(s.snippets(p.path)).value)
  {
    var l := s.snippets(p.path);
    var repos: seq<Repo> := [];
    var page: nat := 1;
    while true
      invariant 1 <= page <= LastPage(|l.items|)
      invariant Snipped(l, p, page, repos)
      decreases LastPage(|l.items|) - page
    {
      if l.verdict(page) == Answered {
        SnippedNext(l, p, page, repos);
      } else {
        SnippedEnds(l, p, page, repos);
      }
      var fetched := GetOptional(l, page);
      if fetched.Err? {
        return Err;
      }
      ghost var before := repos;
      repos := AppendSnippets(p, fetched.value.items, repos);
      if !fetched.value.more {
        if l.verdict(page) == Answered {
          SnippedAll(l, p, repos);
        } else {
          assert repos == before;
        }
        return Ok(repos);
      }
      page := page + 1;
    }
  }

  /** wikiRepo: one page is enough to know that there is something. */
  function WikiRepo(s: Server, p: Project): (r: Maybe<seq<Repo>>)
    ensures r.Err? <==> s.wiki(p.path).verdict(1) == Failed
    ensures r.Ok? ==> (r.value != [] <==> s.wiki(p.path).items != [] && s.wiki(p.path).verdict(1) == Answered)
    ensures r.Ok? && r.value != [] ==> r.value == [Repo(p.path + ".wiki", p.archived, false)]
  {
    match GetOptional(s.wiki(p.path), 1)
    case Err => Err
    case Ok(fetched) => Ok(if |fetched.items| == 0 then [] else [Repo(p.path + ".wiki", p.archived, false)])
  }

  /** A project's own repository, its wiki if any, its snippets. */
  function Detail(s: Server, p: Project): Maybe<seq<Repo>> {
    var wiki := WikiRepo(s, p);
    var ids := Enumerated(s.snippets(p.path));
    if wiki.Err? || ids.Err? then Err
    else Ok([Repo(p.path, p.archived, p.empty)] + wiki.value + SnippetsOf(p, ids.value))
  }

  /** What a project comes to, in order: itself, then its wiki, if it has one, then its snippets
      up to the first page the server refuses. All of them are archived if it is, and only the
      project itself can be empty. */
  lemma DetailInOrder(s: Server, p: Project)
    ensures Detail(s, p).Ok? <==> s.wiki(p.path).verdict(1) != Failed && Enumerated(s.snippets(p.path)).Ok?
    ensures Detail(s, p).Ok? ==>
              var repos, ids := Detail(s, p).value, Enumerated(s.snippets(p.path)).value;
              var wiki := if s.wiki(p.path).items != [] && s.wiki(p.path).verdict(1) == Answered then 1 else 0;
              && |repos| == 1 + wiki + |ids|
              && repos[0] == Repo(p.path, p.archived, p.empty)
              && (wiki == 1 ==> repos[1] == Repo(p.path + ".wiki", p.archived, false))
              && forall k :: 0 <= k < |ids| ==> repos[1 + wiki + k] == Repo(p.path + "/snippets/" + Itoa(ids[k]), p.archived, false)
  {
    if Detail(s, p).Ok? {
      var wiki, ids := WikiRepo(s, p).value, Enumerated(s.snippets(p.path)).value;
      Third([Repo(p.path, p.archived, p.empty)], wiki, SnippetsOf(p, ids));
    }
  }

  lemma Third(a: seq<Repo>, b: seq<Repo>, c: seq<Repo>)
    ensures forall k :: 0 <= k < |c| ==> (a + b + c)[|a| + |b| + k] == c[k]
  {
  }

  method ProjectDetail(s: Server, p: Project) returns (r: Maybe<seq<Repo>>)
    ensures r == Detail(s, p)
  {
    var repos := [Repo(p.path, p.archived, p.empty)];
    var wiki := WikiRepo(s, p);
    if wiki.Err? {
      return Err;
    }
    repos := repos + wiki.value;
    var snippets := SnippetRepos(s, p);
    if snippets.Err? {
      return Err;
    }
    return Ok(repos + snippets.value);
  }

  /* ---- one page of projects ---- */

  ghost predicate AllFound(s: Server, ps: seq<Project>) {
    forall i :: 0 <= i < |ps| ==> Detail(s, ps[i]).Ok?
  }

  /** The projects' details one after another, in page order. */
  function Serial(s: Server, ps: seq<Project>): seq<Repo> {
    if ps == [] then []
    else (if Detail(s, ps[0]).Ok? then Detail(s, ps[0]).value else []) + Serial(s, ps[1..])
  }

  lemma {:induction false} SerialConcat(s: Server, a: seq<Project>, b: seq<Project>)
    ensures Serial(s, a + b) == Serial(s, a) + Serial(s, b)
  {
    if a == [] {
      assert a + b == b;
    } else {
      assert (a + b)[1..] == a[1..] + b;
      SerialConcat(s, a[1..], b);
    }
  }

  lemma SerialNext(s: Server, ps: seq<Project>, i: nat)
    requires i < |ps| && Detail(s, ps[i]).Ok?
    ensures Serial(s, ps[..i + 1]) == Serial(s, ps[..i]) + Detail(s, ps[i]).value
  {
    assert ps[..i + 1] == ps[..i] + [ps[i]];
    SerialConcat(s, ps[..i], [ps[i]]);
    assert [ps[i]][1..] == [];
  }

  function Lookups(s: Server, ps: seq<Project>): seq<Maybe<seq<Repo>>> {
    seq(|ps|, i requires 0 <= i < |ps| => Detail(s, ps[i]))
  }

  /** The filled slots, in order. */
  method Concat(s: Server, ps: seq<Project>, results: seq<seq<Repo>>) returns (repos: seq<Repo>)
    requires |results| == |ps|
    requires forall i :: 0 <= i < |ps| ==> Detail(s, ps[i]) == Ok(results[i])
    ensures repos == Serial(s, ps)
  {
    repos := [];
    for i := 0 to |ps|
      invariant repos == Serial(s, ps[..i])
    {
      SerialNext(s, ps, i);
      repos := repos + results[i];
    }
    assert ps[..|ps|] == ps;
  }

  /** projectRepos: whatever the order the lookups run and return in, their results in page
      order, or an error exactly if one of them fails. */
  method ProjectRepos(s: Server, ps: seq<Project>) returns (r: Maybe<seq<Repo>>)
    ensures r.Ok? <==> AllFound(s, ps)
    ensures r.Ok? ==> r.value == Serial(s, ps)
  {
    var lookups := Lookups(s, ps);
    assert forall i :: 0 <= i < |ps| ==> Detail(s, ps[i]) == lookups[i];
    var results := FanOut.Gather(lookups, DETAIL_CONCURRENCY);
    if results.Err? {
      return Err;
    }
    var repos := Concat(s, ps, results.value);
    return Ok(repos);
  }

  /* ---- the whole listing ---- */

  /** What a listing of projects comes to: everything, or nothing at all. A 403 on the project
      listing itself is a failure. */
  ghost function Listed(s: Server, l: Feed<Project>): Maybe<seq<Repo>> {
    if AnsweredUpTo(l, LastPage(|l.items|) + 1) && AllFound(s, l.items) then Ok(Serial(s, l.items)) else Err
  }

  /** `repos` is what the pages before this one come to. */
  ghost predicate Resolved(s: Server, l: Feed<Project>, page: nat, repos: seq<Repo>) {
    && 1 <= page <= LastPage(|l.items|) + 1
    && AnsweredUpTo(l, page)
    && AllFound(s, Before(l.items, PAGE_SIZE, page))
    && repos == Serial(s, Before(l.items, PAGE_SIZE, page))
  }

  lemma ResolvedStart(s: Server, l: Feed<Project>)
    ensures Resolved(s, l, 1, [])
  {
  }

  lemma Refused(s: Server, l: Feed<Project>, page: nat)
    requires 1 <= page <= LastPage(|l.items|)
    requires l.verdict(page) != Answered || !AllFound(s, Page(l.items, PAGE_SIZE, page))
    ensures Listed(s, l) == Err
  {
    if l.verdict(page) != Answered {
      assert !AnsweredUpTo(l, LastPage(|l.items|) + 1);
    } else {
      var before, here := Before(l.items, PAGE_SIZE, page), Page(l.items, PAGE_SIZE, page);
      assert forall i :: 0 <= i < |here| ==> here[i] == l.items[|before| + i];
    }
  }

  lemma AnsweredNext<T>(l: Feed<T>, page: nat)
    requires AnsweredUpTo(l, page) && l.verdict(page) == Answered
    ensures AnsweredUpTo(l, page + 1)
  {
  }

  lemma FoundConcat(s: Server, a: seq<Project>, b: seq<Project>)
    requires AllFound(s, a) && AllFound(s, b)
    ensures AllFound(s, a + b)
  {
  }

  lemma ResolvedStep(s: Server, l: Feed<Project>, page: nat, repos: seq<Repo>)
    requires page <= LastPage(|l.items|) && Resolved(s, l, page, repos)
    requires l.verdict(page) == Answered && AllFound(s, Page(l.items, PAGE_SIZE, page))
    ensures Resolved(s, l, page + 1, repos + Serial(s, Page(l.items, PAGE_SIZE, page)))
  {
    var before, here := Before(l.items, PAGE_SIZE, page), Page(l.items, PAGE_SIZE, page);
    assert Before(l.items, PAGE_SIZE, page + 1) == before + here by { HeaderPage(l.items, page); }
    AnsweredNext(l, page);
    FoundConcat(s, before, here);
    SerialConcat(s, before, here);
  }

  lemma ResolvedEnd(s: Server, l: Feed<Project>, repos: seq<Repo>)
    requires Resolved(s, l, LastPage(|l.items|) + 1, repos)
    ensures Listed(s, l) == Ok(repos)
  {
    HeaderPage(l.items, LastPage(|l.items|));
  }

  /** listByArchived: one page of projects after another, each resolved before the next. */
  method ListByArchived(s: Server, l: Feed<Project>) returns (r: Maybe<seq<Repo>>)
    ensures r == Listed(s, l)
  {
    var repos: seq<Repo> := [];
    var page: nat := 1;
    ResolvedStart(s, l);
    while true
      invariant 1 <= page <= LastPage(|l.items|)
      invariant Resolved(s, l, page, repos)
      decreases LastPage(|l.items|) - page
    {
      if l.verdict(page) != Answered {
        Refused(s, l, page);
        return Err;
      }
      var pageRepos := ProjectRepos(s, Page(l.items, PAGE_SIZE, page));
      if pageRepos.Err? {
        Refused(s, l, page);
        return Err;
      }
      ResolvedStep(s, l, page, repos);
      repos := repos + pageRepos.value;
      if page == LastPage(|l.items|) {
        break;
      }
      page := page + 1;
    }
    ResolvedEnd(s, l, repos);
    return Ok(repos);
  }

  ghost function ListedIn(s: Server, state: ListState): Maybe<seq<Repo>> {
    match state
    case StateAll =>
      if Listed(s, s.active).Err? || Listed(s, s.archived).Err? then Err
      else Ok(Listed(s, s.active).value + Listed(s, s.archived).value)
    case StateActive => Listed(s, s.active)
    case StateArchived => Listed(s, s.archived)
  }

  /** ListRepos: two passes when both states are wanted. */
  method ListRepos(s: Server, state: ListState) returns (r: Maybe<seq<Repo>>)
    ensures r == ListedIn(s, state)
  {
    if state == StateAll {
      var active := ListByArchived(s, s.active);
      if active.Err? {
        return Err;
      }
      var archived := ListByArchived(s, s.archived);
      if archived.Err? {
        return Err;
      }
      return Ok(active.value + archived.value);
    }
    r := ListByArchived(s, if state == StateArchived then s.archived else s.active);
  }

  lemma {:induction false} SerialState(s: Server, ps: seq<Project>, archived: bool)
    requires forall p :: p in ps ==> p.archived == archived
    ensures forall r :: r in Serial(s, ps) ==> r.archived == archived
  {
    if ps != [] {
      SerialState(s, ps[1..], archived);
    }
  }

  /** Of a server whose two listings hold what their names say: a filtered listing is the part
      of the full one in the asked-for state, wikis and snippets included. */
  lemma FilteredIsPart(s: Server, state: ListState)
    requires forall p :: p in s.active.items ==> !p.archived
    requires forall p :: p in s.archived.items ==> p.archived
    requires ListedIn(s, StateAll).Ok?
    ensures ListedIn(s, state).Ok?
    ensures forall r :: r in ListedIn(s, state).value <==>
                        r in ListedIn(s, StateAll).value &&
                        (state.StateAll? || r.archived == state.StateArchived?)
  {
    SerialState(s, s.active.items, false);
    SerialState(s, s.archived.items, true);
  }
}
