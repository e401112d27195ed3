/** What holds at every moment of one run, of each repository on its own. */
module Safety {
  import opened Names
  import opened Trees
  import opened Worker
  import opened Locality
  import opened Soundness
  import opened Upkeep
  import opened Machine
  import opened Runs
  import opened OneWorker
  import opened Jobs
  import Archive
  import Mirror
  import Pool
  import Provenance
  import Prune

  /* ---- the tree stays a tree ---- */

  ghost predicate Grounded(cfg: Config) {
    && cfg.Valid()
    && Pool.Independent(cfg.jobs)
    && forall i :: 0 <= i < |cfg.jobs| ==> Based(cfg.jobs[i])
  }

  ghost predicate Tended(cfg: Config, m: M) {
    && ShapeInv(cfg, m)
    && WellFormed(m.tree)
    && forall i :: 0 <= i < |cfg.jobs| ==> Ready(cfg.jobs[i], StateOf(cfg.repos[i], m.threads[i]), m.tree)
  }

  lemma TendedStep(cfg: Config, m: M, a: Action)
    requires Grounded(cfg) && Tended(cfg, m) && Enabled(cfg, m, a)
    ensures Tended(cfg, Perform(cfg, m, a))
  {
    ShapeStep(cfg, m, a);
    var i := Moved(cfg, m, a);
    var m' := Perform(cfg, m, a);
    MovedStep(cfg, m, a, i);
    var w := StateOf(cfg.repos[i], m.threads[i]);
    if WorkerMoves(m, i) {
      KemptStep(cfg.jobs[i], w, m.tree);
    }
    forall k | 0 <= k < |cfg.jobs| ensures Ready(cfg.jobs[k], StateOf(cfg.repos[k], m'.threads[k]), m'.tree) {
      MovedStep(cfg, m, a, k);
      if WorkerMoves(m, i) && k != i {
        StrangerStep(cfg, i, k, w, m.tree);
        KemptAside(cfg.jobs[k], cfg.jobs[i], StateOf(cfg.repos[k], m.threads[k]), m.tree, m'.tree);
      }
    }
  }

  lemma {:induction false} TendedThroughout(cfg: Config, m: M, acts: seq<Action>, m': M)
    requires Grounded(cfg) && Tended(cfg, m) && Leads(cfg, m, acts, m')
    ensures Tended(cfg, m')
    decreases |acts|
  {
    if acts != [] {
      TendedStep(cfg, m, acts[0]);
      TendedThroughout(cfg, Perform(cfg, m, acts[0]), acts[1..], m');
    }
  }

  /** At every moment of every run on a file tree there is a file tree. */
  lemma StaysWellFormed(cfg: Config, t0: Tree, m: M)
    requires Grounded(cfg) && WellFormed(t0) && Reachable(cfg, t0, m)
    ensures WellFormed(m.tree)
  {
    var acts :| Leads(cfg, Start(cfg, t0), acts, m);
    assert Tended(cfg, Start(cfg, t0));
    TendedThroughout(cfg, Start(cfg, t0), acts, m);
  }

  /* ---- one worker's invariants at every moment ---- */

  lemma SoundThroughout(cfg: Config, i: nat, valid: Tree -> bool, t0: Tree, m: M)
    requires Grounded(cfg) && Reachable(cfg, t0, m) && i < |cfg.jobs|
    requires HonestRemote(cfg.jobs[i].env.remote, valid) && HeadSound(valid, cfg.jobs[i].place, t0)
    ensures ShapeInv(cfg, m) && Sound(cfg.jobs[i], valid, StateOf(cfg.repos[i], m.threads[i]), m.tree)
  {
    var j := cfg.jobs[i];
    var inv := (w: State, t: Tree) => Sound(j, valid, w, t);
    forall w, t | inv(w, t) && !w.stage.Ended? ensures inv(Worker.Next(j, w, t), Effect(j, w, t)) {
      SoundStep(j, valid, w, t);
    }
    forall w, t, u | inv(w, t) && Agree(j, t, u) ensures inv(w, u) {
      SoundAside(j, valid, w, t, u);
    }
    AtEveryMoment(cfg, i, inv, t0, m);
  }

  lemma WrittenThroughout(cfg: Config, i: nat, t0: Tree, m: M)
    requires Grounded(cfg) && Reachable(cfg, t0, m) && i < |cfg.jobs|
    ensures ShapeInv(cfg, m) && Provenance.Written(cfg.jobs[i], t0, StateOf(cfg.repos[i], m.threads[i]), m.tree)
  {
    var j := cfg.jobs[i];
    var inv := (w: State, t: Tree) => Provenance.Written(j, t0, w, t);
    forall w, t | inv(w, t) && !w.stage.Ended? ensures inv(Worker.Next(j, w, t), Effect(j, w, t)) {
      Provenance.WrittenStep(j, t0, w, t);
    }
    forall w, t, u | inv(w, t) && Agree(j, t, u) ensures inv(w, u) {
      Provenance.WrittenAside(j, t0, w, t, u);
    }
    AtEveryMoment(cfg, i, inv, t0, m);
  }

  ghost predicate Kept(j: Job, valid: Tree -> bool, t0: Tree, t: Tree) {
    && (HasMirror(j, t0) ==> HasMirror(j, t))
    && (HasArchive(j, t0) ==> HasArchive(j, t))
    && (Usable(j, valid, t0) ==> Usable(j, valid, t))
  }

  lemma KeptAside(j: Job, valid: Tree -> bool, t0: Tree, t: Tree, u: Tree)
    requires Kept(j, valid, t0, t) && Agree(j, t, u)
    ensures Kept(j, valid, t0, u)
  {
    assert Subtree(t, j.place.dir) == Subtree(u, j.place.dir) && SameAt(t, u, j.place.dir) && SameAt(t, u, j.out) by {
      assert j.place.dir == Root(j, Slot.Mirror) && j.out == Root(j, Slot.Archive);
      AgreeOnRoot(j, Slot.Mirror, t, u);
      AgreeOnRoot(j, Slot.Archive, t, u);
    }
  }

  lemma KeptThroughout(cfg: Config, i: nat, valid: Tree -> bool, t0: Tree, m: M)
    requires Grounded(cfg) && Reachable(cfg, t0, m) && i < |cfg.jobs| && HonestRemote(cfg.jobs[i].env.remote, valid)
    ensures Kept(cfg.jobs[i], valid, t0, m.tree)
  {
    var j := cfg.jobs[i];
    var inv := (w: State, t: Tree) => Kept(j, valid, t0, t);
    forall w, t | inv(w, t) && !w.stage.Ended? ensures inv(Worker.Next(j, w, t), Effect(j, w, t)) {
      NothingLost(j, valid, w, t);
      if Usable(j, valid, t) {
        UsableStays(j, valid, w, t);
      }
    }
    forall w, t, u | inv(w, t) && Agree(j, t, u) ensures inv(w, u) {
      KeptAside(j, valid, t0, t, u);
    }
    AtEveryMoment(cfg, i, inv, t0, m);
  }

  lemma HeadedAside(j: Job, t: Tree, u: Tree)
    requires Headed(j, t) && Agree(j, t, u)
    ensures Headed(j, u)
  {
    assert SameAt(t, u, j.place.dir) && SameAt(t, u, j.place.dir + ["HEAD"]) by {
      assert j.place.dir == Root(j, Slot.Mirror);
      RootOwned(j, Slot.Mirror);
      OwnsBelow(j, j.place.dir, j.place.dir + ["HEAD"]);
    }
  }

  lemma HeadedThroughout(cfg: Config, i: nat, valid: Tree -> bool, t0: Tree, m: M)
    requires Grounded(cfg) && Reachable(cfg, t0, m) && i < |cfg.jobs|
    requires HonestRemote(cfg.jobs[i].env.remote, valid) && HeadSound(valid, cfg.jobs[i].place, t0)
    requires ValidHasHead(valid) && Headed(cfg.jobs[i], t0)
    ensures Headed(cfg.jobs[i], m.tree)
  {
    var j := cfg.jobs[i];
    var inv := (w: State, t: Tree) => Sound(j, valid, w, t) && Headed(j, t);
    forall w, t | inv(w, t) && !w.stage.Ended? ensures inv(Worker.Next(j, w, t), Effect(j, w, t)) {
      SoundStep(j, valid, w, t);
      HeadedStep(j, valid, w, t);
    }
    forall w, t, u | inv(w, t) && Agree(j, t, u) ensures inv(w, u) {
      SoundAside(j, valid, w, t, u);
      HeadedAside(j, t, u);
    }
    AtEveryMoment(cfg, i, inv, t0, m);
  }

  lemma BeneathThroughout(cfg: Config, i: nat, t0: Tree, m: M)
    requires Grounded(cfg) && Reachable(cfg, t0, m) && i < |cfg.jobs|
    ensures Provenance.Shrunk(t0, m.tree, cfg.jobs[i].out) && Provenance.Shrunk(t0, m.tree, cfg.jobs[i].tmp)
  {
    var j := cfg.jobs[i];
    var inv := (w: State, t: Tree) => Provenance.Beneath(j, t0, w, t);
    forall w, t | inv(w, t) && !w.stage.Ended? ensures inv(Worker.Next(j, w, t), Effect(j, w, t)) {
      Provenance.BeneathStep(j, t0, w, t);
    }
    forall w, t, u | inv(w, t) && Agree(j, t, u) ensures inv(w, u) {
      Provenance.BeneathAside(j, t0, w, t, u);
    }
    AtEveryMoment(cfg, i, inv, t0, m);
  }

  lemma QuietThroughout(cfg: Config, i: nat, t0: Tree, m: M)
    requires Grounded(cfg) && Reachable(cfg, t0, m) && i < |cfg.jobs|
    requires QuietEnv(cfg.jobs[i]) && QuietRoots(cfg.jobs[i], t0)
    ensures QuietRoots(cfg.jobs[i], m.tree)
  {
    var j := cfg.jobs[i];
    var inv := (w: State, t: Tree) => QuietRoots(j, t);
    forall w, t | inv(w, t) && !w.stage.Ended? ensures inv(Worker.Next(j, w, t), Effect(j, w, t)) {
      QuietRootsStep(j, w, t);
    }
    forall w, t, u | inv(w, t) && Agree(j, t, u) ensures inv(w, u) {
      QuietAside(j, t, u);
    }
    AtEveryMoment(cfg, i, inv, t0, m);
  }

  /* ---- in terms of repository paths ---- */

  ghost predicate SlashlessLayout(l: Layout) {
    forall c :: c in l.dest + l.arch ==> Slashless(c)
  }

  /** What an Env has to promise, with no reference to the names its files get: external
      commands leave file trees behind, not arbitrary maps. */
  ghost predicate TidyEnv(e: Env) {
    && WellFormed(e.remote.clone.tree)
    && (forall u :: WellFormed(u) ==> WellFormed(e.remote.update(u).tree))
    && (forall u :: WellFormed(u) ==> WellFormed(Mirror.SyncLfs(e.remote, u).tree))
    && (forall k: nat, u :: WellFormed(u) ==> WellFormed(e.exporter(k, u).tree))
    && (e.remote.clear.Stuck? ==> forall u :: WellFormed(u) ==> WellFormed(Mirror.Kept(u, e.remote.clear.keep)))
  }

  /** A run whose names the scheme keeps apart. */
  ghost predicate Orderly(s: Setup, repos: seq<Repo>, env: string -> Env) {
    && s.l.Apart() && SlashlessLayout(s.l) && s.limit >= 1 && Listable(repos)
    && forall i :: 0 <= i < |repos| ==> TidyEnv(env(repos[i].path))
  }

  /** ... and whose git is honest. */
  ghost predicate Proper(s: Setup, repos: seq<Repo>, env: string -> Env, valid: Tree -> bool) {
    && Orderly(s, repos, env)
    && forall i :: 0 <= i < |repos| ==> HonestRemote(env(repos[i].path).remote, valid)
  }

  lemma PlaceIsSlashless(dir: Key)
    requires dir != [] && forall c :: c in dir ==> Slashless(c)
    ensures SlashlessPlace(Mirror.PlaceAt(dir))
  {
    Mirror.PartialIsBeside(dir);
    assert Slashless(Last(dir));
    assert Slashless(Last(dir) + ".partial");
  }

  lemma RootsAreSlashless(s: Setup, repo: Repo, e: Env)
    requires SlashlessLayout(s.l)
    ensures forall slot, c :: c in Root(JobFor(s, repo, e), slot) ==> Slashless(c)
  {
    RootsAreSlots(s, repo, e);
    forall slot, c | c in Root(JobFor(s, repo, e), slot) ensures Slashless(c) {
      Prune.SlotSlashless(s.l, repo.path, slot);
    }
  }

  lemma TempBesideOut(s: Setup, repo: Repo, e: Env)
    ensures var j := JobFor(s, repo, e); Front(j.out) == Front(j.tmp) && j.out != [] && |j.tmp| == |j.out|
  {
  }

  lemma JobIsTidy(s: Setup, repo: Repo, e: Env)
    requires SlashlessLayout(s.l) && TidyEnv(e)
    ensures Tidy(JobFor(s, repo, e)) && SlashlessPlace(JobFor(s, repo, e).place)
  {
    var j := JobFor(s, repo, e);
    RootsAreSlashless(s, repo, e);
    var dir := MirrorPath(s.l, repo.path);
    Prune.SlotSlashless(s.l, repo.path, Slot.Mirror);
    PlaceIsSlashless(dir);
    assert Slashless(Last(dir));
    PlaceIsSlashless([Last(dir)]);
  }

  lemma JobIsBased(s: Setup, repo: Repo, e: Env)
    requires s.l.Apart() && SlashlessLayout(s.l) && Tame(repo.path) && TidyEnv(e)
    ensures Based(JobFor(s, repo, e))
  {
    TameIsSeparate(s, repo, e);
    JobIsTidy(s, repo, e);
    TempBesideOut(s, repo, e);
  }

  lemma OrderlyIsGrounded(s: Setup, repos: seq<Repo>, env: string -> Env)
    requires Orderly(s, repos, env)
    ensures Grounded(ConfigFor(s, repos, env))
  {
    ListableIsIndependent(s, repos, env);
    var cfg := ConfigFor(s, repos, env);
    forall i | 0 <= i < |cfg.jobs| ensures Based(cfg.jobs[i]) {
      JobIsBased(s, repos[i], env(repos[i].path));
    }
  }

  /** The promise of a HEAD at path `p`: the mirror there is a completed one. */
  ghost predicate MirrorMeans(l: Layout, valid: Tree -> bool, t: Tree, p: string) {
    MirrorPath(l, p) + ["HEAD"] in t ==> valid(Subtree(t, MirrorPath(l, p)))
  }

  /** The file `n` is the complete archive of the mirror `m` of path `p`. */
  ghost predicate ArchiveIs(l: Layout, p: string, n: Node, m: Tree) {
    && n.File? && n.data.TarGz? && n.data.closed && IsDir(m, [])
    && Archive.Pack(Last(MirrorPath(l, p)), m) == Ok(n.data.entries)
  }

  /** The promise of an archive at path `p`: it is whole, and of a completed mirror. */
  ghost predicate ArchiveMeans(l: Layout, valid: Tree -> bool, t: Tree, p: string) {
    var k := ArchivePath(l, p);
    k in t && !t[k].Dir? ==> exists m :: valid(m) && ArchiveIs(l, p, t[k], m)
  }

  /** Such a file gives the mirror back: extracted in order into any directory that has no
      folder of its name yet, it rebuilds the mirror there. */
  lemma ArchiveRestores(l: Layout, p: string, n: Node, m: Tree, base: Tree)
    requires ArchiveIs(l, p, n, m) && SlashlessLayout(l)
    requires IsDir(base, []) && forall j :: j in base ==> !([Last(MirrorPath(l, p))] <= j)
    ensures Archive.Extract(base, n.data.entries) == Ok(Graft(base, [Last(MirrorPath(l, p))], Archive.Restored(m)))
  {
    Prune.SlotSlashless(l, p, Slot.Mirror);
    assert Slashless(Last(MirrorPath(l, p)));
    Archive.ExtractRebuilds(base, Last(MirrorPath(l, p)), m);
  }

  ghost predicate AllMean(l: Layout, valid: Tree -> bool, t: Tree) {
    forall p :: Tame(p) ==> MirrorMeans(l, valid, t, p) && ArchiveMeans(l, valid, t, p)
  }

  lemma JobNames(s: Setup, repo: Repo, e: Env)
    ensures var j := JobFor(s, repo, e);
            j.place.dir == MirrorPath(s.l, repo.path) && j.out == ArchivePath(s.l, repo.path)
    ensures forall n, m :: Provenance.ArchiveOf(JobFor(s, repo, e), n, m) <==> ArchiveIs(s.l, repo.path, n, m)
  {
    forall m ensures JobFor(s, repo, e).pack(m) == Archive.Pack(Last(MirrorPath(s.l, repo.path)), m) {}
  }

  /** What repository `i` was archived from in this run: its mirror, or the scratch copy. */
  ghost function SourceOf(s: Setup, repos: seq<Repo>, env: string -> Env, m: M, i: nat): Tree
    requires ShapeInv(ConfigFor(s, repos, env), m) && i < |repos|
  {
    Source(ConfigFor(s, repos, env).jobs[i], StateOf(repos[i], m.threads[i]), m.tree)
  }

  /** This run has archived repository `i`, and that archive is there. */
  ghost predicate Made(s: Setup, repos: seq<Repo>, env: string -> Env, m: M, i: nat) {
    && ShapeInv(ConfigFor(s, repos, env), m) && i < |repos|
    && StateOf(repos[i], m.threads[i]).outcome.archived
    && ArchivePath(s.l, repos[i].path) in m.tree
    && ArchiveIs(s.l, repos[i].path, m.tree[ArchivePath(s.l, repos[i].path)], SourceOf(s, repos, env, m, i))
  }

  /** At every moment: a listed repository's archive is the one it had before the run, or the
      complete archive of the mirror this run synced. */
  lemma ArchiveIsOldOrMade(s: Setup, repos: seq<Repo>, env: string -> Env, t0: Tree, m: M, i: nat)
    requires Orderly(s, repos, env) && Reachable(ConfigFor(s, repos, env), t0, m) && i < |repos|
    ensures ShapeInv(ConfigFor(s, repos, env), m)
    ensures if StateOf(repos[i], m.threads[i]).outcome.archived then Made(s, repos, env, m, i)
            else SameAt(t0, m.tree, ArchivePath(s.l, repos[i].path))
  {
    OrderlyIsGrounded(s, repos, env);
    WrittenThroughout(ConfigFor(s, repos, env), i, t0, m);
    JobNames(s, repos[i], env(repos[i].path));
  }

  /** What was archived was a completed mirror, if a HEAD meant one before. */
  lemma MadeIsValid(s: Setup, repos: seq<Repo>, env: string -> Env, valid: Tree -> bool, t0: Tree, m: M, i: nat)
    requires Proper(s, repos, env, valid) && Reachable(ConfigFor(s, repos, env), t0, m) && i < |repos|
    requires MirrorMeans(s.l, valid, t0, repos[i].path) && Made(s, repos, env, m, i)
    ensures valid(SourceOf(s, repos, env, m, i))
  {
    var cfg := ConfigFor(s, repos, env);
    OrderlyIsGrounded(s, repos, env);
    JobNames(s, repos[i], env(repos[i].path));
    SoundThroughout(cfg, i, valid, t0, m);
    WrittenThroughout(cfg, i, t0, m);
  }

  /** At every moment, a path that is not listed has its mirror, archive and all else as they
      were. */
  lemma UnlistedKept(s: Setup, repos: seq<Repo>, env: string -> Env, t0: Tree, m: M, p: string)
    requires s.l.Apart() && Listable(repos) && Tame(p) && Reachable(ConfigFor(s, repos, env), t0, m)
    requires forall i :: 0 <= i < |repos| ==> repos[i].path != p
    ensures Prune.MirrorKept(t0, m.tree, s.l, p) && SameAt(t0, m.tree, ArchivePath(s.l, p))
  {
    var cfg := ConfigFor(s, repos, env);
    ListableIsIndependent(s, repos, env);
    ReachableInv(cfg, t0, m);
    forall k | MirrorPath(s.l, p) <= k ensures SameAt(t0, m.tree, k) {
      UnlistedUntouched(s, repos, env, t0, States(cfg, m), m.tree, p, Slot.Mirror, k);
    }
    UnlistedUntouched(s, repos, env, t0, States(cfg, m), m.tree, p, Slot.Archive, ArchivePath(s.l, p));
  }

  lemma SameMirrorMeans(l: Layout, valid: Tree -> bool, t: Tree, u: Tree, p: string)
    requires MirrorMeans(l, valid, t, p) && Prune.MirrorKept(t, u, l, p)
    ensures MirrorMeans(l, valid, u, p) && Subtree(t, MirrorPath(l, p)) == Subtree(u, MirrorPath(l, p))
  {
    SubtreeUnchanged(t, u, MirrorPath(l, p));
    assert MirrorPath(l, p) <= MirrorPath(l, p) + ["HEAD"];
    assert SameAt(t, u, MirrorPath(l, p) + ["HEAD"]);
  }

  /** One run, stopped after any prefix of any schedule: a HEAD goes on meaning a completed
      mirror. Only this path's own past and its own remote matter. */
  lemma MirrorKeepsMeaning(s: Setup, repos: seq<Repo>, env: string -> Env, valid: Tree -> bool, t0: Tree, m: M, p: string)
    requires Proper(s, repos, env, valid) && Reachable(ConfigFor(s, repos, env), t0, m) && Tame(p)
    requires MirrorMeans(s.l, valid, t0, p)
    ensures MirrorMeans(s.l, valid, m.tree, p)
  {
    if i :| 0 <= i < |repos| && repos[i].path == p {
      OrderlyIsGrounded(s, repos, env);
      JobNames(s, repos[i], env(p));
      SoundThroughout(ConfigFor(s, repos, env), i, valid, t0, m);
    } else {
      UnlistedKept(s, repos, env, t0, m, p);
      SameMirrorMeans(s.l, valid, t0, m.tree, p);
    }
  }

  lemma ArchiveKeepsMeaning(s: Setup, repos: seq<Repo>, env: string -> Env, valid: Tree -> bool, t0: Tree, m: M, p: string)
    requires Proper(s, repos, env, valid) && Reachable(ConfigFor(s, repos, env), t0, m) && Tame(p)
    requires MirrorMeans(s.l, valid, t0, p) && ArchiveMeans(s.l, valid, t0, p)
    ensures ArchiveMeans(s.l, valid, m.tree, p)
  {
    if i :| 0 <= i < |repos| && repos[i].path == p {
      ArchiveIsOldOrMade(s, repos, env, t0, m, i);
      if Made(s, repos, env, m, i) {
        MadeIsValid(s, repos, env, valid, t0, m, i);
      }
    } else {
      UnlistedKept(s, repos, env, t0, m, p);
    }
  }

  /** Both, for every path. */
  lemma RunKeepsMeaning(s: Setup, repos: seq<Repo>, env: string -> Env, valid: Tree -> bool, t0: Tree, m: M)
    requires Proper(s, repos, env, valid) && Reachable(ConfigFor(s, repos, env), t0, m)
    requires WellFormed(t0) && AllMean(s.l, valid, t0)
    ensures WellFormed(m.tree) && AllMean(s.l, valid, m.tree)
  {
    OrderlyIsGrounded(s, repos, env);
    StaysWellFormed(ConfigFor(s, repos, env), t0, m);
    forall p | Tame(p) ensures MirrorMeans(s.l, valid, m.tree, p) && ArchiveMeans(s.l, valid, m.tree, p) {
      MirrorKeepsMeaning(s, repos, env, valid, t0, m, p);
      ArchiveKeepsMeaning(s, repos, env, valid, t0, m, p);
    }
  }

  /* ---- a mirror that is there has a HEAD ---- */

  ghost predicate MirrorWhole(l: Layout, t: Tree, p: string) {
    MirrorPath(l, p) in t ==> MirrorPath(l, p) + ["HEAD"] in t
  }

  lemma RunKeepsWhole(s: Setup, repos: seq<Repo>, env: string -> Env, valid: Tree -> bool, t0: Tree, m: M, p: string)
    requires Proper(s, repos, env, valid) && Reachable(ConfigFor(s, repos, env), t0, m) && Tame(p)
    requires ValidHasHead(valid) && MirrorMeans(s.l, valid, t0, p) && MirrorWhole(s.l, t0, p)
    ensures MirrorWhole(s.l, m.tree, p)
  {
    if i :| 0 <= i < |repos| && repos[i].path == p {
      OrderlyIsGrounded(s, repos, env);
      JobNames(s, repos[i], env(p));
      HeadedThroughout(ConfigFor(s, repos, env), i, valid, t0, m);
    } else {
      UnlistedKept(s, repos, env, t0, m, p);
      assert MirrorPath(s.l, p) <= MirrorPath(s.l, p) + ["HEAD"];
      assert SameAt(t0, m.tree, MirrorPath(s.l, p)) && SameAt(t0, m.tree, MirrorPath(s.l, p) + ["HEAD"]);
    }
  }
}
