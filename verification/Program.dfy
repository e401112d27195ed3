/** Runner.Run as one method on the disk, and the existence of runs in general. */
module Program {
  import opened Names
  import opened Trees
  import opened Worker
  import opened Locality
  import opened Machine
  import opened Runs
  import opened Jobs
  import opened Scan
  import opened Backup
  import opened Disk
  import Pool
  import Sequential

  /** From any reachable state some schedule runs to the end. */
  lemma {:induction false} CanFinish(cfg: Config, t0: Tree, m: M, acts: seq<Action>) returns (end: M, more: seq<Action>)
    requires cfg.Valid() && Pool.Independent(cfg.jobs) && Leads(cfg, Start(cfg, t0), acts, m)
    ensures Leads(cfg, Start(cfg, t0), more, end) && Finished(end)
    decreases Measure(cfg, m)
  {
    assert Reachable(cfg, t0, m);
    if Finished(m) {
      end, more := m, acts;
    } else {
      var a := NeverStuck(cfg, t0, m);
      MeasureDrops(cfg, m, a);
      LeadsExtend(cfg, Start(cfg, t0), acts, m, a);
      end, more := CanFinish(cfg, t0, Perform(cfg, m, a), acts + [a]);
    }
  }

  lemma {:induction false} LeadsExtend(cfg: Config, s: M, acts: seq<Action>, m: M, a: Action)
    requires ShapeInv(cfg, s) && Leads(cfg, s, acts, m) && ShapeInv(cfg, m) && Enabled(cfg, m, a)
    ensures Leads(cfg, s, acts + [a], Perform(cfg, m, a))
    decreases |acts|
  {
    if acts == [] {
      assert (acts + [a])[1..] == [];
    } else {
      assert (acts + [a])[1..] == acts[1..] + [a];
      ShapeStep(cfg, s, acts[0]);
      LeadsExtend(cfg, Perform(cfg, s, acts[0]), acts[1..], m, a);
    }
  }

  /** Every tree and every set of outside answers admits a complete run. */
  lemma RunExists(cfg: Config, t0: Tree) returns (m: M)
    requires cfg.Valid() && Pool.Independent(cfg.jobs)
    ensures Reachable(cfg, t0, m) && Finished(m)
  {
    var acts: seq<Action>;
    m, acts := CanFinish(cfg, t0, Start(cfg, t0), []);
  }

  /** Runner.Run with its repositories taken in order. It is one of the runs the machine allows,
      so by RunIsDetermined every other run returns the same and leaves the same tree. `wire`
      hands out the work orders of a listing. */
  method RunOnce(d: Disk, o: Options, w: World, wire: seq<Repo> -> Config) returns (res: Maybe<Result>)
    requires WellFormed(d.tree) && o.l.Apart() && w.procs >= 1
    requires forall repos :: wire(repos) == ConfigOf(o, w, repos)
    requires w.lists(o.state).Ok? ==> Listable(w.lists(o.state).value)
    modifies d
    ensures Run(o, w, old(d.tree), res, d.tree)
    ensures res.Err? <==> w.lists(o.state).Err? || w.lists(StateAll).Err? || !w.destReadable || !w.archReadable
    ensures res.Err? ==> d.tree == old(d.tree)
  {
    var listing := ListRepos(w, o.state);
    if listing.Err? {
      return Err;
    }
    var li := listing.value;
    var stale := StaleMirrors(d.tree, o.l, li.canonical, w.destReadable, w.archReadable);
    if stale.Err? {
      return Err;
    }
    ghost var t0 := d.tree;
    var cfg := wire(li.repos);
    ListableIsIndependent(SetupOf(o, w), li.repos, w.env);
    var c := Sequential.RunInOrder(d, cfg);
    ghost var m := RunExists(cfg, t0);
    InterleavingsAgree(cfg, t0, m);
    var pruned := Sequential.PruneStale(d, o.l, o.pruneRemoved, stale.value, w.removals);
    res := Ok(Result(c.counters.synced, c.counters.skipped, c.counters.failed, c.counters.archived, pruned, c.counters.exported));
    assert Waited(o, w, li, t0, m) && Ends(o, w, li, t0, m, res.value, d.tree);
  }
}
