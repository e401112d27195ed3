/** The work orders of one run: each listed repository with the names it gets on disk. Tame,
    distinct paths make the workers independent of each other. */
module Jobs {
  import opened Names
  import opened Trees
  import opened Worker
  import opened Locality
  import Archive
  import Mirror
  import Machine
  import Pool

  /** What Runner and Options fix for a whole run. */
  datatype Setup = Setup(
    l: Layout,
    archive: Selection,
    kinds: seq<Kind>,
    exporters: seq<Kind>,
    limit: nat)

  /** The archive writer for a mirror kept under the name `dir` ends in. */
  ghost function Packer(dir: Key): Tree -> Maybe<seq<Entry>>
    requires dir != []
  {
    m => Archive.Pack(Last(dir), m)
  }

  ghost function JobFor(s: Setup, repo: Repo, env: Env): Job {
    var dir, out := MirrorPath(s.l, repo.path), ArchivePath(s.l, repo.path);
    Job(repo, s.archive.Wants(repo.archived), s.kinds, s.exporters,
        Mirror.PlaceAt(dir), Mirror.PlaceAt([Last(dir)]),
        MetadataDir(s.l, repo.path), out, Extend(out, ".tmp"),
        Packer(dir), env)
  }

  ghost function ConfigFor(s: Setup, repos: seq<Repo>, env: string -> Env): Machine.Config {
    Machine.Config(repos, seq(|repos|, i requires 0 <= i < |repos| => JobFor(s, repos[i], env(repos[i].path))), s.limit)
  }

  /** A listing the naming scheme can keep apart. */
  ghost predicate Listable(repos: seq<Repo>) {
    && (forall i :: 0 <= i < |repos| ==> Tame(repos[i].path))
    && (forall i, j :: 0 <= i < j < |repos| ==> repos[i].path != repos[j].path)
  }

  lemma RootsAreSlots(s: Setup, repo: Repo, env: Env)
    ensures forall slot :: Root(JobFor(s, repo, env), slot) == SlotKey(s.l, repo.path, slot)
  {
    PartialIsExtended(s.l, repo.path);
    TempIsExtended(s.l, repo.path);
    var j := JobFor(s, repo, env);
    forall slot ensures Root(j, slot) == SlotKey(s.l, repo.path, slot) {
      match slot
      case Mirror =>
      case Partial =>
      case Metadata =>
      case Archive =>
      case Temp =>
    }
  }

  lemma RegionsAreOwned(s: Setup, repo: Repo, env: Env, k: Key)
    ensures var j := JobFor(s, repo, env);
            && (Owns(j, k) <==> InRegion(s.l, repo.path, k))
            && (Above(j, k) <==> IsAbove(s.l, repo.path, k))
  {
    RootsAreSlots(s, repo, env);
    var j := JobFor(s, repo, env);
    assert forall slot :: Root(j, slot) == SlotKey(s.l, repo.path, slot);
    if InRegion(s.l, repo.path, k) {
      var slot :| SlotKey(s.l, repo.path, slot) <= k;
      assert Root(j, slot) <= k;
    }
    if IsAbove(s.l, repo.path, k) {
      var slot :| k < SlotKey(s.l, repo.path, slot);
      assert k < Root(j, slot);
    }
  }

  lemma TameIsSeparate(s: Setup, repo: Repo, env: Env)
    requires s.l.Apart() && Tame(repo.path)
    ensures Separate(JobFor(s, repo, env))
  {
    RootsAreSlots(s, repo, env);
    var j := JobFor(s, repo, env);
    forall a, b | Root(j, a) <= Root(j, b) ensures a == b {
      SlotsApart(s.l, repo.path, a, repo.path, b);
    }
  }

  lemma DistinctAreStrangers(s: Setup, p: Repo, q: Repo, e: Env, f: Env)
    requires s.l.Apart() && Tame(p.path) && Tame(q.path) && p.path != q.path
    ensures Strangers(JobFor(s, p, e), JobFor(s, q, f))
  {
    var i, j := JobFor(s, p, e), JobFor(s, q, f);
    forall k | Owns(i, k) ensures !Owns(j, k) && !Above(j, k) {
      RegionsAreOwned(s, p, e, k);
      RegionsAreOwned(s, q, f, k);
      RegionsDisjoint(s.l, p.path, q.path, k);
      if IsAbove(s.l, q.path, k) {
        AboveIsShared(s.l, q.path, p.path, k);
      }
    }
    forall k | Above(i, k) ensures !Owns(j, k) {
      RegionsAreOwned(s, p, e, k);
      RegionsAreOwned(s, q, f, k);
      AboveIsShared(s.l, p.path, q.path, k);
    }
  }

  /** Worker footprints of a listable run are disjoint apart from shared parents. */
  lemma ListableIsIndependent(s: Setup, repos: seq<Repo>, env: string -> Env)
    requires s.l.Apart() && Listable(repos)
    ensures Pool.Independent(ConfigFor(s, repos, env).jobs)
  {
    var jobs := ConfigFor(s, repos, env).jobs;
    forall i | 0 <= i < |jobs| ensures Separate(jobs[i]) {
      TameIsSeparate(s, repos[i], env(repos[i].path));
    }
    forall i, j | 0 <= i < |jobs| && 0 <= j < |jobs| && i != j ensures Strangers(jobs[i], jobs[j]) {
      DistinctAreStrangers(s, repos[i], repos[j], env(repos[i].path), env(repos[j].path));
    }
  }

  /** Nothing a run's workers do reaches the files of a tame path that is not listed. */
  lemma UnlistedUntouched(s: Setup, repos: seq<Repo>, env: string -> Env, t0: Tree, ws: seq<State>, t: Tree, p: string, slot: Slot, k: Key)
    requires s.l.Apart() && Listable(repos) && Tame(p)
    requires forall i :: 0 <= i < |repos| ==> repos[i].path != p
    requires Pool.Inv(ConfigFor(s, repos, env).jobs, Machine.InitialStates(repos), t0, ws, t)
    requires SlotKey(s.l, p, slot) <= k
    ensures SameAt(t0, t, k)
  {
    var jobs := ConfigFor(s, repos, env).jobs;
    assert InRegion(s.l, p, k);
    forall i | 0 <= i < |jobs| ensures !Owns(jobs[i], k) && !Above(jobs[i], k) {
      RegionsAreOwned(s, repos[i], env(repos[i].path), k);
      RegionsDisjoint(s.l, p, repos[i].path, k);
      if IsAbove(s.l, repos[i].path, k) {
        AboveIsShared(s.l, repos[i].path, p, k);
      }
    }
    assert !Pool.Owned(jobs, k) && !Pool.SomeAbove(jobs, k);
  }
}
