/** Listing repositories and review comments from Forgejo: numbered pages, the first short one
    being the last. */
module Forgejo {
  import opened Trees
  import opened Worker
  import opened Backup
  import opened Paging

  const PAGE_SIZE := 50

  datatype Remote = Remote(fullName: string, archived: bool, empty: bool, mirror: bool)

  predicate InState(state: ListState, archived: bool) {
    match state
    case StateAll => true
    case StateActive => !archived
    case StateArchived => archived
  }

  /** The server's side of the search: the archived parameter selects before paging. */
  function Search(all: seq<Remote>, state: ListState): seq<Remote> {
    if all == [] then []
    else (if InState(state, all[0].archived) then [all[0]] else []) + Search(all[1..], state)
  }

  function Convert(r: Remote): Repo {
    Repo(r.fullName, r.archived, r.empty)
  }

  /** The client's side: mirrors dropped on request, the rest converted, order kept. */
  function Kept(items: seq<Remote>, skipMirrors: bool): seq<Repo> {
    if items == [] then []
    else (if skipMirrors && items[0].mirror then [] else [Convert(items[0])]) + Kept(items[1..], skipMirrors)
  }

  lemma {:induction false} KeptConcat(a: seq<Remote>, b: seq<Remote>, skipMirrors: bool)
    ensures Kept(a + b, skipMirrors) == Kept(a, skipMirrors) + Kept(b, skipMirrors)
  {
    if a == [] {
      assert a + b == b;
    } else {
      assert (a + b)[1..] == a[1..] + b;
      KeptConcat(a[1..], b, skipMirrors);
    }
  }

  /** One page's worth of conversion, as a loop. */
  method KeepPage(items: seq<Remote>, skipMirrors: bool) returns (repos: seq<Repo>)
    ensures repos == Kept(items, skipMirrors)
  {
    repos := [];
    for i := 0 to |items|
      invariant repos == Kept(items[..i], skipMirrors)
    {
      assert items[..i + 1] == items[..i] + [items[i]];
      KeptConcat(items[..i], [items[i]], skipMirrors);
      assert [items[i]][1..] == [];
      if skipMirrors && items[i].mirror {
        continue;
      }
      repos := repos + [Convert(items[i])];
    }
    assert items[..|items|] == items;
  }

  lemma PageKept(items: seq<Remote>, page: nat, skipMirrors: bool)
    requires 1 <= page <= Requests(|items|, PAGE_SIZE)
    ensures var here, after := Page(items, PAGE_SIZE, page), Before(items, PAGE_SIZE, page + 1);
            && Kept(after, skipMirrors) == Kept(Before(items, PAGE_SIZE, page), skipMirrors) + Kept(here, skipMirrors)
            && (|here| < PAGE_SIZE <==> page == Requests(|items|, PAGE_SIZE))
            && (page == Requests(|items|, PAGE_SIZE) ==> after == items)
            && (here == [] ==> Before(items, PAGE_SIZE, page) == after)
  {
    PageExtends(items, PAGE_SIZE, page);
    KeptConcat(Before(items, PAGE_SIZE, page), Page(items, PAGE_SIZE, page), skipMirrors);
  }

  lemma {:induction false} SearchConcat(a: seq<Remote>, b: seq<Remote>, state: ListState)
    ensures Search(a + b, state) == Search(a, state) + Search(b, state)
  {
    if a == [] {
      assert a + b == b;
    } else {
      assert (a + b)[1..] == a[1..] + b;
      SearchConcat(a[1..], b, state);
    }
  }

  /** Which items a listing is to hold, told from their own flags. */
  ghost function Asked(state: ListState, skipMirrors: bool): Remote -> bool {
    (r: Remote) => (state.StateAll? || r.archived == state.StateArchived?) && !(skipMirrors && r.mirror)
  }

  ghost const AsListed: Remote -> Repo := (r: Remote) => Repo(r.fullName, r.archived, r.empty)

  /** The listing is one repository per asked-for item, in order, with the item's own name and
      flags. */
  ghost predicate Lists(all: seq<Remote>, state: ListState, skipMirrors: bool, repos: seq<Repo>) {
    Picks(all, Asked(state, skipMirrors), AsListed, repos)
  }

  lemma {:induction false} KeptLists(all: seq<Remote>, state: ListState, skipMirrors: bool)
    ensures Lists(all, state, skipMirrors, Kept(Search(all, state), skipMirrors))
  {
    if all == [] {
      assert PicksAt(all, Asked(state, skipMirrors), AsListed, [], []);
    } else {
      var items, last := all[..|all| - 1], all[|all| - 1];
      KeptLists(items, state, skipMirrors);
      ListsNext(items, last, state, skipMirrors);
      assert items + [last] == all;
    }
  }

  lemma ListsNext(items: seq<Remote>, r: Remote, state: ListState, skipMirrors: bool)
    requires Lists(items, state, skipMirrors, Kept(Search(items, state), skipMirrors))
    ensures Lists(items + [r], state, skipMirrors, Kept(Search(items + [r], state), skipMirrors))
  {
    PicksNext(items, Asked(state, skipMirrors), AsListed, Kept(Search(items, state), skipMirrors), r);
    OneMore(items, r, state, skipMirrors);
  }

  lemma OneMore(items: seq<Remote>, r: Remote, state: ListState, skipMirrors: bool)
    ensures Kept(Search(items + [r], state), skipMirrors) ==
            Kept(Search(items, state), skipMirrors) + if Asked(state, skipMirrors)(r) then [AsListed(r)] else []
  {
    SearchConcat(items, [r], state);
    KeptConcat(Search(items, state), Search([r], state), skipMirrors);
    OneLists(r, state, skipMirrors);
  }

  lemma OneLists(r: Remote, state: ListState, skipMirrors: bool)
    ensures Kept(Search([r], state), skipMirrors) == if Asked(state, skipMirrors)(r) then [AsListed(r)] else []
  {
    assert [r][1..] == [];
  }

  /** ListRepos: everything or an error, in exactly floor(n/50)+1 requests. The mirror filter
      can empty a page without ending the listing: the stop test looks at what was sent. */
  method ListRepos(all: seq<Remote>, failing: iset<nat>, state: ListState, skipMirrors: bool)
    returns (r: Maybe<seq<Repo>>, ghost requests: nat)
    ensures r.Ok? <==> AnsweredBefore(failing, Requests(|Search(all, state)|, PAGE_SIZE) + 1)
    ensures r.Ok? ==> r.value == Kept(Search(all, state), skipMirrors) && Lists(all, state, skipMirrors, r.value)
    ensures r.Ok? ==> requests == Requests(|Search(all, state)|, PAGE_SIZE)
  {
    var items := Search(all, state);
    var repos: seq<Repo> := [];
    var page: nat := 1;
    requests := 0;
    while true
      invariant 1 <= page <= Requests(|items|, PAGE_SIZE) && requests == page - 1
      invariant repos == Kept(Before(items, PAGE_SIZE, page), skipMirrors)
      invariant AnsweredBefore(failing, page)
      decreases Requests(|items|, PAGE_SIZE) - page
    {
      requests := requests + 1;
      if page in failing {
        return Err, requests;
      }
      AnsweredNext(failing, page);
      var data := Page(items, PAGE_SIZE, page);
      PageKept(items, page, skipMirrors);
      if |data| == 0 {
        break;
      }
      var kept := KeepPage(data, skipMirrors);
      repos := repos + kept;
      if |data| < PAGE_SIZE {
        break;
      }
      page := page + 1;
    }
    KeptLists(all, state, skipMirrors);
    return Ok(repos), requests;
  }

  lemma {:induction false} SearchKept(all: seq<Remote>, state: ListState, skipMirrors: bool)
    ensures forall r :: r in Kept(Search(all, state), skipMirrors) <==>
                        r in Kept(all, skipMirrors) && (state.StateAll? || r.archived == state.StateArchived?)
  {
    if all != [] {
      var rest := all[1..];
      SearchKept(rest, state, skipMirrors);
      var head := if InState(state, all[0].archived) then [all[0]] else [];
      KeptConcat(head, Search(rest, state), skipMirrors);
      if head != [] {
        assert head[1..] == [];
      }
    }
  }

  lemma {:induction false} SearchAll(all: seq<Remote>)
    ensures Search(all, StateAll) == all
  {
    if all != [] {
      SearchAll(all[1..]);
      assert [all[0]] + all[1..] == all;
    }
  }

  /** The filtered listing is the part of the full one that is in the asked-for state. */
  lemma FilteredIsPart(all: seq<Remote>, state: ListState, skipMirrors: bool)
    ensures forall r :: r in Kept(Search(all, state), skipMirrors) <==>
                        r in Kept(Search(all, StateAll), skipMirrors) && (state.StateAll? || r.archived == state.StateArchived?)
  {
    SearchAll(all);
    SearchKept(all, state, skipMirrors);
  }
}
