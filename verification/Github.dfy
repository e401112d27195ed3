/** Listing repositories from GitHub: everything is fetched and filtered by state locally. */
module Github {
  import opened Trees
  import opened Worker
  import opened Backup
  import opened Paging

  const PAGE_SIZE := 100

  datatype Remote = Remote(fullName: string, archived: bool, size: nat)

  predicate WantsState(state: ListState, archived: bool) {
    match state
    case StateActive => !archived
    case StateArchived => archived
    case _ => true
  }

  /** What one item contributes: nothing or its conversion. */
  function Wanted(r: Remote, state: ListState): seq<Repo> {
    if WantsState(state, r.archived) then [Repo(r.fullName, r.archived, r.size == 0)] else []
  }

  function Filter(items: seq<Remote>, state: ListState): seq<Repo> {
    if items == [] then [] else Wanted(items[0], state) + Filter(items[1..], state)
  }

  lemma {:induction false} FilterConcat(a: seq<Remote>, b: seq<Remote>, state: ListState)
    ensures Filter(a + b, state) == Filter(a, state) + Filter(b, state)
  {
    if a == [] {
      assert a + b == b;
    } else {
      assert (a + b)[1..] == a[1..] + b && (a + b)[0] == a[0];
      FilterConcat(a[1..], b, state);
    }
  }

  method FilterRepos(items: seq<Remote>, state: ListState) returns (repos: seq<Repo>)
    ensures repos == Filter(items, state)
  {
    repos := [];
    for i := 0 to |items|
      invariant repos == Filter(items[..i], state)
    {
      assert items[..i + 1] == items[..i] + [items[i]];
      FilterConcat(items[..i], [items[i]], state);
      assert [items[i]][1..] == [];
      if !WantsState(state, items[i].archived) {
        continue;
      }
      repos := repos + [Repo(items[i].fullName, items[i].archived, items[i].size == 0)];
    }
    assert items[..|items|] == items;
  }

  /** Which items a listing in `state` is to hold, told from their own flag. */
  ghost function Asked(state: ListState): Remote -> bool {
    (r: Remote) => state.StateAll? || r.archived == state.StateArchived?
  }

  ghost const AsListed: Remote -> Repo := (r: Remote) => Repo(r.fullName, r.archived, r.size == 0)

  /** The listing is one repository per asked-for item, in order: its name, its archived flag,
      and empty exactly if it takes up no space. */
  ghost predicate Lists(items: seq<Remote>, state: ListState, repos: seq<Repo>) {
    Picks(items, Asked(state), AsListed, repos)
  }

  lemma {:induction false} FilterLists(items: seq<Remote>, state: ListState)
    ensures Lists(items, state, Filter(items, state))
  {
    if items == [] {
      assert PicksAt(items, Asked(state), AsListed, [], []);
    } else {
      var n := |items| - 1;
      FilterLists(items[..n], state);
      PicksNext(items[..n], Asked(state), AsListed, Filter(items[..n], state), items[n]);
      FilterConcat(items[..n], [items[n]], state);
      WantedLists(items[n], state);
      assert items[..n] + [items[n]] == items;
    }
  }

  lemma WantedLists(r: Remote, state: ListState)
    ensures Filter([r], state) == if Asked(state)(r) then [AsListed(r)] else []
  {
    assert [r][1..] == [];
  }

  /** In full: one per item. */
  lemma AllListed(items: seq<Remote>, repos: seq<Repo>)
    requires Lists(items, StateAll, repos)
    ensures |repos| == |items|
    ensures forall i :: 0 <= i < |items| ==>
              repos[i].path == items[i].fullName && repos[i].archived == items[i].archived && (repos[i].empty <==> items[i].size == 0)
  {
    PicksAll(items, Asked(StateAll), AsListed, repos);
  }

  lemma PageFiltered(items: seq<Remote>, page: nat, state: ListState)
    requires 1 <= page <= Requests(|items|, PAGE_SIZE)
    ensures var here, after := Page(items, PAGE_SIZE, page), Before(items, PAGE_SIZE, page + 1);
            && Filter(after, state) == Filter(Before(items, PAGE_SIZE, page), state) + Filter(here, state)
            && (|here| < PAGE_SIZE <==> page == Requests(|items|, PAGE_SIZE))
            && (page == Requests(|items|, PAGE_SIZE) ==> after == items)
            && (here == [] ==> Before(items, PAGE_SIZE, page) == after)
  {
    PageExtends(items, PAGE_SIZE, page);
    FilterConcat(Before(items, PAGE_SIZE, page), Page(items, PAGE_SIZE, page), state);
  }

  /** ListRepos: also fails if the token's scopes, seen on page 1, hide private repositories.
      The state filter can empty a page without ending the listing. */
  method ListRepos(items: seq<Remote>, failing: iset<nat>, scopeOk: bool, state: ListState)
    returns (r: Maybe<seq<Repo>>, ghost requests: nat)
    ensures r.Ok? <==> scopeOk && AnsweredBefore(failing, Requests(|items|, PAGE_SIZE) + 1)
    ensures r.Ok? ==> r.value == Filter(items, state) && Lists(items, state, r.value)
    ensures r.Ok? ==> requests == Requests(|items|, PAGE_SIZE)
  {
    var repos: seq<Repo> := [];
    var page: nat := 1;
    requests := 0;
    while true
      invariant 1 <= page <= Requests(|items|, PAGE_SIZE) && requests == page - 1
      invariant repos == Filter(Before(items, PAGE_SIZE, page), state)
      invariant AnsweredBefore(failing, page)
      invariant page > 1 ==> scopeOk
      decreases Requests(|items|, PAGE_SIZE) - page
    {
      requests := requests + 1;
      if page in failing {
        return Err, requests;
      }
      if page == 1 && !scopeOk {
        return Err, requests;
      }
      AnsweredNext(failing, page);
      var data := Page(items, PAGE_SIZE, page);
      PageFiltered(items, page, state);
      if |data| == 0 {
        break;
      }
      var kept := FilterRepos(data, state);
      repos := repos + kept;
      if |data| < PAGE_SIZE {
        break;
      }
      page := page + 1;
    }
    FilterLists(items, state);
    return Ok(repos), requests;
  }

  /** The filtered listing is the part of the full one that is in the asked-for state. */
  lemma {:induction false} FilteredIsPart(items: seq<Remote>, state: ListState)
    ensures forall r :: r in Filter(items, state) <==>
                        r in Filter(items, StateAll) && (state.StateAll? || r.archived == state.StateArchived?)
  {
    if items != [] {
      FilteredIsPart(items[1..], state);
    }
  }
}
