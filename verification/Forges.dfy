/** What the three listings give the run: on a forge that does not change between the filtered
    and the full listing, the first is part of the second, which is all a prune needs. */
module Forges {
  import opened Names
  import opened Trees
  import opened Worker
  import opened Machine
  import opened Jobs
  import opened Scan
  import opened Safety
  import opened Backup
  import Prune
  import Forgejo
  import Github
  import Gitlab
  import opened Visibility

  /** Every listing that succeeds is part of every full listing that succeeds. */
  ghost predicate Unchanging(w: World) {
    forall state :: w.lists(state).Ok? && w.lists(StateAll).Ok? ==>
      forall r :: r in w.lists(state).value ==> r in w.lists(StateAll).value
  }

  /** `w.lists` is what Forgejo's ListRepos returns of `all`, each call failing as it may. */
  ghost predicate OnForgejo(w: World, all: seq<Forgejo.Remote>, skipMirrors: bool) {
    forall state :: w.lists(state).Ok? ==>
      w.lists(state).value == Forgejo.Kept(Forgejo.Search(all, state), skipMirrors)
  }

  ghost predicate OnGithub(w: World, all: seq<Github.Remote>) {
    forall state :: w.lists(state).Ok? ==> w.lists(state).value == Github.Filter(all, state)
  }

  /** On GitLab each listing call has a view of its own: the same projects, wikis and snippets,
      each call failing, or being refused with 403, as it may. */
  ghost predicate OnGitlab(w: World, view: ListState -> Gitlab.Server) {
    && (forall p :: p in view(StateAll).active.items ==> !p.archived)
    && (forall p :: p in view(StateAll).archived.items ==> p.archived)
    && (forall state :: w.lists(state) == Gitlab.ListedIn(view(state), state))
    && (forall state :: SameContents(view(state), view(StateAll)))
  }

  /** The full listing was refused nothing that a filtered one was shown. */
  ghost predicate RefusedNoMore(view: ListState -> Gitlab.Server) {
    var full := view(StateAll);
    && (forall p :: p in full.active.items && Gitlab.Detail(view(StateActive), p).Ok? && Gitlab.Detail(full, p).Ok? ==>
          ShowsAsMuch(view(StateActive), full, p))
    && (forall p :: p in full.archived.items && Gitlab.Detail(view(StateArchived), p).Ok? && Gitlab.Detail(full, p).Ok? ==>
          ShowsAsMuch(view(StateArchived), full, p))
  }

  lemma GitlabContained(w: World, view: ListState -> Gitlab.Server, state: ListState)
    requires OnGitlab(w, view) && RefusedNoMore(view) && w.lists(state).Ok? && w.lists(StateAll).Ok?
    ensures forall r :: r in w.lists(state).value ==> r in w.lists(StateAll).value
  {
    assert w.lists(state) == Gitlab.ListedIn(view(state), state);
    assert w.lists(StateAll) == Gitlab.ListedIn(view(StateAll), StateAll);
    assert SameContents(view(state), view(StateAll));
    if !state.StateAll? {
      var ps := if state.StateActive? then view(StateAll).active.items else view(StateAll).archived.items;
      forall r | r in Gitlab.Serial(view(state), ps) ensures r in Gitlab.Serial(view(StateAll), ps) {
        InSerial(view(state), ps, r);
        InSerial(view(StateAll), ps, r);
        var i :| 0 <= i < |ps| && r in Gitlab.Detail(view(state), ps[i]).value;
        assert ps[i] in ps;
        ShownByBoth(view(state), view(StateAll), ps[i], r);
      }
    }
  }

  /** A mirror of something the full listing was refused is stale, and pruned. */
  lemma RefusedIsPruned(t: Tree, l: Layout, repos: seq<Repo>, r: Prune.Removals, q: string)
    requires WellFormed(t) && OnDiskMirror(t, l, q) && !Listed(repos, q) && r.mirror(q).Removed?
    ensures q in StalePaths(t, l, repos)
    ensures forall k :: MirrorPath(l, q) <= k ==> k !in Prune.PruneAll(t, l, StalePaths(t, l, repos), r).1
  {
    StaleSetIff(t, l, repos, q);
    forall k | MirrorPath(l, q) <= k ensures k !in Prune.PruneAll(t, l, StalePaths(t, l, repos), r).1 {
      Prune.PruneReachesMirror(t, l, StalePaths(t, l, repos), r, q, k);
    }
  }

  ghost predicate OnSomeForge(w: World) {
    || (exists all, skip :: OnForgejo(w, all, skip))
    || (exists all :: OnGithub(w, all))
    || (exists view :: OnGitlab(w, view) && RefusedNoMore(view))
  }

  lemma EveryForgeIsUnchanging(w: World)
    requires OnSomeForge(w)
    ensures Unchanging(w)
  {
    forall state | w.lists(state).Ok? && w.lists(StateAll).Ok?
      ensures forall r :: r in w.lists(state).value ==> r in w.lists(StateAll).value
    {
      if all, skip :| OnForgejo(w, all, skip) {
        Forgejo.FilteredIsPart(all, state, skip);
      } else if all :| OnGithub(w, all) {
        Github.FilteredIsPart(all, state);
      } else {
        var view :| OnGitlab(w, view) && RefusedNoMore(view);
        GitlabContained(w, view, state);
      }
    }
  }

  lemma ListedInFull(w: World, state: ListState, repos: seq<Repo>, all: seq<Repo>, i: nat)
    requires Unchanging(w) && w.lists(state) == Ok(repos) && w.lists(StateAll) == Ok(all) && i < |repos|
    ensures Listed(all, repos[i].path)
  {
    assert repos[i] in all;
    var j :| 0 <= j < |all| && all[j] == repos[i];
  }

  /** On any of the three forges, as long as it does not change during the run: whatever the
      workers and the prune did, a mirror synced and an archive written in this run are there
      when Run returns. */
  lemma SyncedSurvivesPrune(o: Options, w: World, valid: Tree -> bool, li: Listing, t0: Tree, m: M, res: Result, t1: Tree, i: nat)
    requires OnSomeForge(w)
    requires ListRepos(w, o.state) == Ok(li) && Waited(o, w, li, t0, m) && Ends(o, w, li, t0, m, res, t1)
    requires WellFormed(t0) && ProperRun(o, w, li, valid)
    requires i < |li.repos| && !li.repos[i].empty && MirrorMeans(o.l, valid, t0, li.repos[i].path)
    requires Prune.NoArchiveInside(t0, o.l, li.repos[i].path)
    ensures |m.threads| == |li.repos| && m.threads[i].Exited? && m.threads[i].story.Did?
    ensures var end, job := m.threads[i].story.w, ConfigOf(o, w, li.repos).jobs[i];
            && (end.outcome.synced ==> valid(Source(job, end, t1)))
            && (!job.UsesScratch() ==> Source(job, end, t1) == Subtree(t1, MirrorPath(o.l, li.repos[i].path)))
            && (end.outcome.archived ==> end.outcome.synced && ArchivedAs(o.l, t1, li.repos[i].path, Source(job, end, t1)))
  {
    EveryForgeIsUnchanging(w);
    ListingsAreTheForges(w, o.state);
    ListedInFull(w, o.state, li.repos, li.canonical, i);
    SyncedIsKept(o, w, valid, li, li.canonical, t0, m, res, t1, i);
  }
}
