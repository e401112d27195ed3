/** Safety over whole histories: any number of runs, each with any interleaving and cut off
    after any step of it, each followed or not by a prune cut off anywhere. */
module Histories {
  import opened Names
  import opened Trees
  import opened Worker
  import opened Soundness
  import opened Upkeep
  import opened Machine
  import opened Runs
  import opened Jobs
  import opened Scan
  import opened Safety
  import Mirror
  import Prune

  /* ---- what a prune leaves of the promises ---- */

  /** The removal got rid of HEAD, whether or not of everything else. */
  predicate HeadGoes(r: Mirror.Removal) {
    r.Removed? || ["HEAD"] !in r.keep
  }

  /** However the removals go, they leave file trees. */
  ghost predicate TidyRemovals(gone: seq<string>, r: Prune.Removals) {
    forall p :: p in gone ==> Prune.TidyRemoval(r.mirror(p))
  }

  /** No path in `gone` is named as if it lay inside the mirror of `p`. */
  ghost predicate Spares(l: Layout, gone: seq<string>, p: string) {
    forall q :: q in gone ==> !(MirrorPath(l, p) < MirrorPath(l, q))
  }

  /** A path that is not pruned keeps its mirror and archive, whatever becomes of the others. */
  lemma OthersKept(l: Layout, t: Tree, gone: seq<string>, r: Prune.Removals, p: string)
    requires l.Apart() && WellFormed(t) && Tame(p) && p !in gone && Spares(l, gone, p)
    ensures Prune.MirrorKept(t, Prune.PruneAll(t, l, gone, r).1, l, p)
    ensures SameAt(t, Prune.PruneAll(t, l, gone, r).1, ArchivePath(l, p))
  {
    TameHasNoGitNamespace(p);
    forall q | q in gone ensures !Prune.Collide(t, l, q, p) {
      Prune.NoCollision(t, l, q, p);
    }
    Prune.PruneSpares(t, l, gone, r, p);
  }

  lemma {:induction false} PrunedHasNoHead(l: Layout, t: Tree, gone: seq<string>, r: Prune.Removals, p: string)
    requires l.Apart() && p in gone && HeadGoes(r.mirror(p))
    ensures MirrorPath(l, p) + ["HEAD"] !in Prune.PruneAll(t, l, gone, r).1
    decreases |gone|
  {
    var head := MirrorPath(l, p) + ["HEAD"];
    var t' := Prune.PruneOne(t, l, gone[0], r);
    if p == gone[0] {
      Prune.PruneOneLeaves(t, l, p, r);
      assert head in t' ==> ["HEAD"] in Subtree(t', MirrorPath(l, p));
      Prune.PruneTakes(t', l, gone[1..], r, head);
    } else {
      assert p in gone[1..];
      PrunedHasNoHead(l, t', gone[1..], r, p);
    }
  }

  /** Pruning, stopped after any path, between a mirror and its archive, or inside the removal
      of a mirror whose HEAD is gone already, keeps the meaning of HEAD and archive. */
  lemma PruneKeepsMeaning(l: Layout, valid: Tree -> bool, t: Tree, gone: seq<string>, r: Prune.Removals, p: string)
    requires l.Apart() && WellFormed(t) && Tame(p) && Spares(l, gone, p) && (p in gone ==> HeadGoes(r.mirror(p)))
    ensures MirrorMeans(l, valid, t, p) ==> MirrorMeans(l, valid, Prune.PruneAll(t, l, gone, r).1, p)
    ensures ArchiveMeans(l, valid, t, p) ==> ArchiveMeans(l, valid, Prune.PruneAll(t, l, gone, r).1, p)
  {
    Prune.PruneTakes(t, l, gone, r, ArchivePath(l, p));
    if p in gone {
      PrunedHasNoHead(l, t, gone, r, p);
    } else if MirrorMeans(l, valid, t, p) {
      OthersKept(l, t, gone, r, p);
      SameMirrorMeans(l, valid, t, Prune.PruneAll(t, l, gone, r).1, p);
    }
  }

  /** Exactly which interrupted removals break the promise of a pruned path's HEAD: those that
      kept HEAD but no usable mirror with it. */
  lemma PrunedHeadMeansIff(l: Layout, valid: Tree -> bool, t: Tree, gone: seq<string>, r: Prune.Removals, p: string)
    requires l.Apart() && SlashlessLayout(l) && WellFormed(t) && TidyRemovals(gone, r)
    requires Prune.Distinct(gone) && p in gone && Tame(p) && Spares(l, gone, p)
    ensures MirrorMeans(l, valid, Prune.PruneAll(t, l, gone, r).1, p) <==>
              HeadGoes(r.mirror(p)) || MirrorPath(l, p) + ["HEAD"] !in t
              || valid(Mirror.Kept(Subtree(t, MirrorPath(l, p)), r.mirror(p).keep))
  {
    var u := Prune.PruneAll(t, l, gone, r).1;
    TameHasNoGitNamespace(p);
    Prune.PruneLeaves(t, l, gone, r, p);
    HeadInMirror(u, MirrorPath(l, p));
    HeadInMirror(t, MirrorPath(l, p));
    LeftMeansIff(valid, Subtree(t, MirrorPath(l, p)), r.mirror(p));
  }

  lemma HeadInMirror(t: Tree, k: Key)
    ensures k + ["HEAD"] in t <==> ["HEAD"] in Subtree(t, k)
  {
  }

  lemma LeftMeansIff(valid: Tree -> bool, m: Tree, r: Mirror.Removal)
    ensures (["HEAD"] in Prune.Left(m, r) ==> valid(Prune.Left(m, r))) <==>
              HeadGoes(r) || ["HEAD"] !in m || valid(Mirror.Kept(m, r.keep))
  {
  }

  /** Such a removal: the objects went first. */
  lemma InterruptedRemovalLies(l: Layout, p: string) returns (valid: Tree -> bool, t: Tree, r: Prune.Removals)
    ensures valid(Subtree(t, MirrorPath(l, p))) && MirrorMeans(l, valid, t, p)
    ensures r.mirror(p).Stuck? && !MirrorMeans(l, valid, Prune.PruneAll(t, l, [p], r).1, p)
  {
    var m := MirrorPath(l, p);
    var mirror: Tree := map[[] := Dir(DIR_MODE), ["HEAD"] := File(0, Raw([])), ["objects"] := Dir(DIR_MODE)];
    valid := (u: Tree) => ["objects"] in u;
    t := Graft(EMPTY, m, mirror);
    SubtreeOfGraft(EMPTY, m, mirror);
    r := Prune.Removals(q => Mirror.Stuck({[], ["HEAD"]}), q => true);
    var u := Prune.PruneOne(t, l, p, r);
    SubtreeOfGraft(t, m, Mirror.Kept(mirror, {[], ["HEAD"]}));
    assert [p][1..] == [];
    assert Prune.PruneAll(t, l, [p], r).1 == u;
    assert ["HEAD"] in Subtree(u, m) && ["objects"] !in Subtree(u, m);
    assert m + ["HEAD"] in u;
  }

  /* ---- sessions and histories ---- */

  /** One invocation of the tool: its run follows `acts` and stops there; only if that was the
      whole run does it go on to remove the paths `gone`, as far as `removals` says. */
  datatype Session = Session(
    s: Setup,
    repos: seq<Repo>,
    env: string -> Env,
    acts: seq<Action>,
    gone: seq<string>,
    removals: Prune.Removals)

  ghost function ConfigOf(x: Session): Config {
    ConfigFor(x.s, x.repos, x.env)
  }

  /** Where the workers had got to when they were done or stopped. */
  ghost predicate Reaches(x: Session, t: Tree, m: M) {
    && ConfigOf(x).Valid()
    && Leads(ConfigOf(x), Start(ConfigOf(x), t), x.acts, m)
    && (x.gone != [] ==> Finished(m))
  }

  ghost predicate Happens(x: Session, t: Tree, u: Tree) {
    exists m :: Reaches(x, t, m) && u == Prune.PruneAll(m.tree, x.s.l, x.gone, x.removals).1
  }

  /** The sessions `xs` one after the other, `ts` being the trees between them. */
  ghost predicate History(xs: seq<Session>, ts: seq<Tree>) {
    && |ts| == |xs| + 1
    && forall i :: 0 <= i < |xs| ==> Happens(xs[i], ts[i], ts[i + 1])
  }

  ghost predicate Fair(l: Layout, valid: Tree -> bool, x: Session) {
    && x.s.l == l && Proper(x.s, x.repos, x.env, valid)
    && TidyRemovals(x.gone, x.removals)
  }

  /** As far as `p` is concerned: no other removal reaches into its mirror, and its own was not
      stopped with HEAD still there. */
  ghost predicate Gentle(l: Layout, x: Session, p: string) {
    Spares(l, x.gone, p) && (p in x.gone ==> HeadGoes(x.removals.mirror(p)))
  }

  lemma SessionWellFormed(l: Layout, valid: Tree -> bool, x: Session, t: Tree, u: Tree)
    requires WellFormed(t) && Fair(l, valid, x) && Happens(x, t, u)
    ensures WellFormed(u)
  {
    var m :| Reaches(x, t, m) && u == Prune.PruneAll(m.tree, x.s.l, x.gone, x.removals).1;
    OrderlyIsGrounded(x.s, x.repos, x.env);
    StaysWellFormed(ConfigOf(x), t, m);
    Prune.PruneWellFormed(m.tree, l, x.gone, x.removals);
  }

  /** What each session keeps, the history keeps. */
  lemma {:induction false} HistoryKeeps(ts: seq<Tree>, n: nat, inv: Tree -> bool)
    requires n < |ts| && inv(ts[0])
    requires forall i :: 0 <= i < n && inv(ts[i]) ==> inv(ts[i + 1])
    ensures inv(ts[n])
  {
    if n > 0 {
      HistoryKeeps(ts, n - 1, inv);
    }
  }

  lemma HistoryWellFormed(l: Layout, valid: Tree -> bool, xs: seq<Session>, ts: seq<Tree>, n: nat)
    requires History(xs, ts) && n <= |xs| && WellFormed(ts[0])
    requires forall i :: 0 <= i < |xs| ==> Fair(l, valid, xs[i])
    ensures WellFormed(ts[n])
  {
    forall i | 0 <= i < n && WellFormed(ts[i]) ensures WellFormed(ts[i + 1]) {
      SessionWellFormed(l, valid, xs[i], ts[i], ts[i + 1]);
    }
    HistoryKeeps(ts, n, t => WellFormed(t));
  }

  lemma SessionKeepsMeaning(l: Layout, valid: Tree -> bool, x: Session, t: Tree, u: Tree, p: string)
    requires WellFormed(t) && Fair(l, valid, x) && Happens(x, t, u) && Tame(p) && Gentle(l, x, p)
    requires MirrorMeans(l, valid, t, p)
    ensures MirrorMeans(l, valid, u, p)
    ensures ArchiveMeans(l, valid, t, p) ==> ArchiveMeans(l, valid, u, p)
  {
    var m :| Reaches(x, t, m) && u == Prune.PruneAll(m.tree, x.s.l, x.gone, x.removals).1;
    OrderlyIsGrounded(x.s, x.repos, x.env);
    StaysWellFormed(ConfigOf(x), t, m);
    MirrorKeepsMeaning(x.s, x.repos, x.env, valid, t, m, p);
    if ArchiveMeans(l, valid, t, p) {
      ArchiveKeepsMeaning(x.s, x.repos, x.env, valid, t, m, p);
    }
    PruneKeepsMeaning(l, valid, m.tree, x.gone, x.removals, p);
  }

  /** Crash safety, each path for itself: over every history of invocations, each stopped at an
      arbitrary point, a HEAD under its mirror path means a completed mirror is there, and a
      file at its archive path is a complete archive of one. */
  lemma HistoryKeepsMeaning(l: Layout, valid: Tree -> bool, xs: seq<Session>, ts: seq<Tree>, n: nat, p: string)
    requires History(xs, ts) && n <= |xs| && WellFormed(ts[0]) && Tame(p) && MirrorMeans(l, valid, ts[0], p)
    requires forall i :: 0 <= i < |xs| ==> Fair(l, valid, xs[i]) && Gentle(l, xs[i], p)
    ensures MirrorMeans(l, valid, ts[n], p)
    ensures ArchiveMeans(l, valid, ts[0], p) ==> ArchiveMeans(l, valid, ts[n], p)
  {
    var meant := ArchiveMeans(l, valid, ts[0], p);
    var inv := (t: Tree) => WellFormed(t) && MirrorMeans(l, valid, t, p) && (meant ==> ArchiveMeans(l, valid, t, p));
    forall i | 0 <= i < n && inv(ts[i]) ensures inv(ts[i + 1]) {
      SessionWellFormed(l, valid, xs[i], ts[i], ts[i + 1]);
      SessionKeepsMeaning(l, valid, xs[i], ts[i], ts[i + 1], p);
    }
    HistoryKeeps(ts, n, inv);
  }

  /* ---- exactly when a HEAD keeps its meaning ---- */

  lemma {:induction false} LeadsToOne(cfg: Config, m: M, acts: seq<Action>, m1: M, m2: M)
    requires ShapeInv(cfg, m) && Leads(cfg, m, acts, m1) && Leads(cfg, m, acts, m2)
    ensures m1 == m2
    decreases |acts|
  {
    if acts != [] {
      ShapeStep(cfg, m, acts[0]);
      LeadsToOne(cfg, Perform(cfg, m, acts[0]), acts[1..], m1, m2);
    }
  }

  lemma ReachesOne(x: Session, t: Tree, m1: M, m2: M)
    requires Reaches(x, t, m1) && Reaches(x, t, m2)
    ensures m1 == m2
  {
    LeadsToOne(ConfigOf(x), Start(ConfigOf(x), t), x.acts, m1, m2);
  }

  /** The session was stopped while removing the mirror of `p`, with HEAD still there but no
      usable mirror any more. */
  ghost predicate BreaksHead(l: Layout, valid: Tree -> bool, x: Session, t: Tree, p: string) {
    && p in x.gone && !HeadGoes(x.removals.mirror(p))
    && exists m :: Reaches(x, t, m) && MirrorPath(l, p) + ["HEAD"] in m.tree
                   && !valid(Mirror.Kept(Subtree(m.tree, MirrorPath(l, p)), x.removals.mirror(p).keep))
  }

  lemma SessionMeansIff(l: Layout, valid: Tree -> bool, x: Session, t: Tree, u: Tree, p: string)
    requires WellFormed(t) && Fair(l, valid, x) && Happens(x, t, u) && Tame(p)
    requires Spares(l, x.gone, p) && Prune.Distinct(x.gone) && MirrorMeans(l, valid, t, p)
    ensures MirrorMeans(l, valid, u, p) <==> !BreaksHead(l, valid, x, t, p)
  {
    var m :| Reaches(x, t, m) && u == Prune.PruneAll(m.tree, x.s.l, x.gone, x.removals).1;
    if p in x.gone {
      OrderlyIsGrounded(x.s, x.repos, x.env);
      StaysWellFormed(ConfigOf(x), t, m);
      PrunedHeadMeansIff(l, valid, m.tree, x.gone, x.removals, p);
      if BreaksHead(l, valid, x, t, p) {
        var m' :| Reaches(x, t, m') && MirrorPath(l, p) + ["HEAD"] in m'.tree
                  && !valid(Mirror.Kept(Subtree(m'.tree, MirrorPath(l, p)), x.removals.mirror(p).keep));
        ReachesOne(x, t, m, m');
      }
    } else {
      SessionKeepsMeaning(l, valid, x, t, u, p);
    }
  }

  /** Over a history a HEAD means a completed mirror at every point between two sessions exactly
      if it did at the start and no session was stopped in that one way. */
  lemma HistoryMeansIff(l: Layout, valid: Tree -> bool, xs: seq<Session>, ts: seq<Tree>, p: string)
    requires History(xs, ts) && WellFormed(ts[0]) && Tame(p)
    requires forall i :: 0 <= i < |xs| ==> Fair(l, valid, xs[i]) && Spares(l, xs[i].gone, p) && Prune.Distinct(xs[i].gone)
    ensures (forall n :: 0 <= n < |ts| ==> MirrorMeans(l, valid, ts[n], p)) <==>
              MirrorMeans(l, valid, ts[0], p) && forall i :: 0 <= i < |xs| ==> !BreaksHead(l, valid, xs[i], ts[i], p)
  {
    if forall n :: 0 <= n < |ts| ==> MirrorMeans(l, valid, ts[n], p) {
      forall i | 0 <= i < |xs| ensures !BreaksHead(l, valid, xs[i], ts[i], p) {
        HistoryWellFormed(l, valid, xs, ts, i);
        assert MirrorMeans(l, valid, ts[i + 1], p);
        SessionMeansIff(l, valid, xs[i], ts[i], ts[i + 1], p);
      }
    } else if MirrorMeans(l, valid, ts[0], p) && forall i :: 0 <= i < |xs| ==> !BreaksHead(l, valid, xs[i], ts[i], p) {
      assert forall i :: 0 <= i < |xs| ==> Unbroken(l, valid, xs[i], ts[i], p);
      forall n | 0 <= n < |ts| ensures MirrorMeans(l, valid, ts[n], p) {
        MeansUpTo(l, valid, xs, ts, n, p);
      }
    }
  }

  ghost predicate Unbroken(l: Layout, valid: Tree -> bool, x: Session, t: Tree, p: string) {
    Fair(l, valid, x) && Spares(l, x.gone, p) && Prune.Distinct(x.gone) && !BreaksHead(l, valid, x, t, p)
  }

  lemma MeansUpTo(l: Layout, valid: Tree -> bool, xs: seq<Session>, ts: seq<Tree>, n: nat, p: string)
    requires History(xs, ts) && n <= |xs| && WellFormed(ts[0]) && Tame(p) && MirrorMeans(l, valid, ts[0], p)
    requires forall i :: 0 <= i < |xs| ==> Unbroken(l, valid, xs[i], ts[i], p)
    ensures MirrorMeans(l, valid, ts[n], p)
  {
    var inv := (t: Tree) => WellFormed(t) && MirrorMeans(l, valid, t, p);
    forall i | 0 <= i < n && inv(ts[i]) ensures inv(ts[i + 1]) {
      assert Unbroken(l, valid, xs[i], ts[i], p);
      SessionWellFormed(l, valid, xs[i], ts[i], ts[i + 1]);
      SessionMeansIff(l, valid, xs[i], ts[i], ts[i + 1], p);
    }
    HistoryKeeps(ts, n, inv);
  }

  /* ---- where an archive comes from ---- */

  /** Session `x`, started on `t`, archived `mirror` as `n` for path `p`. */
  ghost predicate MadeBy(x: Session, t: Tree, p: string, n: Node, mirror: Tree) {
    exists m, i :: Reaches(x, t, m) && 0 <= i < |x.repos| && x.repos[i].path == p && Made(x.s, x.repos, x.env, m, i)
                   && mirror == SourceOf(x.s, x.repos, x.env, m, i) && m.tree[ArchivePath(x.s.l, p)] == n
  }

  lemma SessionArchive(l: Layout, valid: Tree -> bool, x: Session, t: Tree, u: Tree, p: string)
    requires WellFormed(t) && Fair(l, valid, x) && Happens(x, t, u) && Tame(p)
    ensures var k := ArchivePath(l, p);
            && (k in u ==> SameAt(t, u, k) || exists mirror :: MadeBy(x, t, p, u[k], mirror))
            && (k in t && k !in u ==> p in x.gone)
  {
    var k := ArchivePath(l, p);
    var m :| Reaches(x, t, m) && u == Prune.PruneAll(m.tree, x.s.l, x.gone, x.removals).1;
    OrderlyIsGrounded(x.s, x.repos, x.env);
    StaysWellFormed(ConfigOf(x), t, m);
    Prune.PruneTakes(m.tree, l, x.gone, x.removals, k);
    if p !in x.gone {
      Prune.PruneSparesArchive(m.tree, l, x.gone, x.removals, p);
    }
    if i :| 0 <= i < |x.repos| && x.repos[i].path == p {
      ArchiveIsOldOrMade(x.s, x.repos, x.env, t, m, i);
      if Made(x.s, x.repos, x.env, m, i) && k in u {
        assert MadeBy(x, t, p, u[k], SourceOf(x.s, x.repos, x.env, m, i));
      }
    } else {
      UnlistedKept(x.s, x.repos, x.env, t, m, p);
    }
  }

  lemma MadeByIsValid(l: Layout, valid: Tree -> bool, x: Session, t: Tree, p: string, n: Node, mirror: Tree)
    requires Fair(l, valid, x) && MirrorMeans(l, valid, t, p) && MadeBy(x, t, p, n, mirror)
    ensures valid(mirror) && ArchiveIs(l, p, n, mirror)
  {
    var m, i :| Reaches(x, t, m) && 0 <= i < |x.repos| && x.repos[i].path == p && Made(x.s, x.repos, x.env, m, i)
                && mirror == SourceOf(x.s, x.repos, x.env, m, i) && m.tree[ArchivePath(x.s.l, p)] == n;
    MadeIsValid(x.s, x.repos, x.env, valid, t, m, i);
  }

  /** The archive of `p` after `n` sessions is the one there was at the start, or a complete
      archive of the mirror some session before synced. */
  ghost predicate HasOrigin(l: Layout, xs: seq<Session>, ts: seq<Tree>, n: nat, p: string)
    requires |ts| == |xs| + 1 && n <= |xs|
  {
    var k := ArchivePath(l, p);
    k in ts[n] ==>
      || SameAt(ts[0], ts[n], k)
      || exists i, mirror :: 0 <= i < n && MadeBy(xs[i], ts[i], p, ts[n][k], mirror)
  }

  lemma OriginNext(l: Layout, valid: Tree -> bool, xs: seq<Session>, ts: seq<Tree>, n: nat, p: string)
    requires History(xs, ts) && n < |xs| && Tame(p) && HasOrigin(l, xs, ts, n, p)
    requires WellFormed(ts[n]) && Fair(l, valid, xs[n])
    ensures HasOrigin(l, xs, ts, n + 1, p)
  {
    var k := ArchivePath(l, p);
    assert Happens(xs[n], ts[n], ts[n + 1]);
    SessionArchive(l, valid, xs[n], ts[n], ts[n + 1], p);
    if k in ts[n + 1] && !SameAt(ts[0], ts[n + 1], k) {
      if SameAt(ts[n], ts[n + 1], k) {
        var i, mirror :| 0 <= i < n && MadeBy(xs[i], ts[i], p, ts[n][k], mirror);
        assert MadeBy(xs[i], ts[i], p, ts[n + 1][k], mirror);
      } else {
        var mirror :| MadeBy(xs[n], ts[n], p, ts[n + 1][k], mirror);
      }
    }
  }

  /** Over every history, from any tree whatever: an archive is the one from the start or a
      complete archive of the mirror some session synced. */
  lemma {:induction false} ArchiveHasOrigin(l: Layout, valid: Tree -> bool, xs: seq<Session>, ts: seq<Tree>, n: nat, p: string)
    requires History(xs, ts) && n <= |xs| && WellFormed(ts[0]) && Tame(p)
    requires forall i :: 0 <= i < |xs| ==> Fair(l, valid, xs[i])
    ensures HasOrigin(l, xs, ts, n, p)
  {
    if n > 0 {
      ArchiveHasOrigin(l, valid, xs, ts, n - 1, p);
      assert WellFormed(ts[n - 1]) by { HistoryWellFormed(l, valid, xs, ts, n - 1); }
      assert Fair(l, valid, xs[n - 1]);
      OriginNext(l, valid, xs, ts, n - 1, p);
    }
  }

  /** And it is only ever missing when it was missing at the start or its path was pruned. */
  lemma {:induction false} ArchiveOnlyPruned(l: Layout, valid: Tree -> bool, xs: seq<Session>, ts: seq<Tree>, n: nat, p: string)
    requires History(xs, ts) && n <= |xs| && WellFormed(ts[0]) && Tame(p)
    requires forall i :: 0 <= i < |xs| ==> Fair(l, valid, xs[i])
    requires ArchivePath(l, p) in ts[0] && forall i :: 0 <= i < n ==> p !in xs[i].gone
    ensures ArchivePath(l, p) in ts[n]
  {
    if n > 0 {
      ArchiveOnlyPruned(l, valid, xs, ts, n - 1, p);
      HistoryWellFormed(l, valid, xs, ts, n - 1);
      assert Happens(xs[n - 1], ts[n - 1], ts[n - 1 + 1]);
      SessionArchive(l, valid, xs[n - 1], ts[n - 1], ts[n], p);
    }
  }

  /** ... which was a usable one, if the HEAD of `p` meant one at the start. */
  lemma ArchiveIsOfUsableMirror(l: Layout, valid: Tree -> bool, xs: seq<Session>, ts: seq<Tree>, n: nat, p: string)
    requires History(xs, ts) && n <= |xs| && WellFormed(ts[0]) && Tame(p) && MirrorMeans(l, valid, ts[0], p)
    requires forall i :: 0 <= i < |xs| ==> Fair(l, valid, xs[i]) && Gentle(l, xs[i], p)
    requires ArchivePath(l, p) in ts[n] && !SameAt(ts[0], ts[n], ArchivePath(l, p))
    ensures exists i, mirror :: 0 <= i < n && MadeBy(xs[i], ts[i], p, ts[n][ArchivePath(l, p)], mirror)
              && valid(mirror) && ArchiveIs(l, p, ts[n][ArchivePath(l, p)], mirror)
  {
    var k := ArchivePath(l, p);
    ArchiveHasOrigin(l, valid, xs, ts, n, p);
    var i, mirror :| 0 <= i < n && MadeBy(xs[i], ts[i], p, ts[n][k], mirror);
    HistoryKeepsMeaning(l, valid, xs, ts, i, p);
    MadeByIsValid(l, valid, xs[i], ts[i], p, ts[n][k], mirror);
  }

  /* ---- recovery ---- */

  /** The mirror of `p`, if it was removed, was removed for good. */
  ghost predicate Thorough(l: Layout, x: Session, p: string) {
    Spares(l, x.gone, p) && (p in x.gone ==> x.removals.mirror(p).Removed?)
  }

  lemma SessionKeepsWhole(l: Layout, valid: Tree -> bool, x: Session, t: Tree, u: Tree, p: string)
    requires WellFormed(t) && Fair(l, valid, x) && Happens(x, t, u) && Tame(p) && Thorough(l, x, p)
    requires ValidHasHead(valid) && MirrorMeans(l, valid, t, p) && MirrorWhole(l, t, p)
    ensures MirrorWhole(l, u, p)
  {
    var m :| Reaches(x, t, m) && u == Prune.PruneAll(m.tree, x.s.l, x.gone, x.removals).1;
    OrderlyIsGrounded(x.s, x.repos, x.env);
    StaysWellFormed(ConfigOf(x), t, m);
    RunKeepsWhole(x.s, x.repos, x.env, valid, t, m, p);
    var k := MirrorPath(l, p);
    if p in x.gone {
      Prune.PruneReachesMirror(m.tree, l, x.gone, x.removals, p, k);
    } else {
      OthersKept(l, m.tree, x.gone, x.removals, p);
      assert SameAt(m.tree, u, k) && SameAt(m.tree, u, k + ["HEAD"]);
    }
  }

  /** Recovery: after every history, however many runs in it were cut off and whatever
      `.partial` directories they left, a mirror path holds a usable mirror or nothing. */
  lemma HistoryLeavesWhole(l: Layout, valid: Tree -> bool, xs: seq<Session>, ts: seq<Tree>, n: nat, p: string)
    requires History(xs, ts) && n <= |xs| && WellFormed(ts[0]) && Tame(p)
    requires forall i :: 0 <= i < |xs| ==> Fair(l, valid, xs[i]) && Thorough(l, xs[i], p)
    requires ValidHasHead(valid) && MirrorMeans(l, valid, ts[0], p) && MirrorWhole(l, ts[0], p)
    ensures MirrorMeans(l, valid, ts[n], p) && MirrorWhole(l, ts[n], p)
  {
    var inv := (t: Tree) => WellFormed(t) && MirrorMeans(l, valid, t, p) && MirrorWhole(l, t, p);
    forall i | 0 <= i < n && inv(ts[i]) ensures inv(ts[i + 1]) {
      SessionWellFormed(l, valid, xs[i], ts[i], ts[i + 1]);
      SessionKeepsWhole(l, valid, xs[i], ts[i], ts[i + 1], p);
      SessionKeepsMeaning(l, valid, xs[i], ts[i], ts[i + 1], p);
    }
    HistoryKeeps(ts, n, inv);
  }

  /** ... and so the next Sync in which every command works succeeds, and leaves the updated
      mirror, or the clone, with its LFS content. */
  lemma NextSyncSucceeds(l: Layout, valid: Tree -> bool, xs: seq<Session>, ts: seq<Tree>, p: string, r: Mirror.Remote)
    requires History(xs, ts) && WellFormed(ts[0]) && Tame(p)
    requires forall i :: 0 <= i < |xs| ==> Fair(l, valid, xs[i]) && Thorough(l, xs[i], p)
    requires ValidHasHead(valid) && MirrorMeans(l, valid, ts[0], p) && MirrorWhole(l, ts[0], p)
    requires IsDir(r.clone.tree, []) && Mirror.AllSucceed(r, Subtree(ts[|xs|], MirrorPath(l, p)))
    ensures var k, t := MirrorPath(l, p), ts[|xs|];
            var (ok, u) := Mirror.Sync(r, Mirror.PlaceAt(k), Mirror.Check, t);
            ok && Subtree(u, k) == Mirror.WithLfs(r, if k in t then r.update(Subtree(t, k)).tree else r.clone.tree)
  {
    var k, t := MirrorPath(l, p), ts[|xs|];
    var place := Mirror.PlaceAt(k);
    HistoryLeavesWhole(l, valid, xs, ts, |xs|, p);
    HistoryWellFormed(l, valid, xs, ts, |xs|);
    Mirror.PartialIsBeside(k);
    if k in t {
      Mirror.SyncUpdates(r, place, t);
      SubtreeOfGraft(t, k, Mirror.WithLfs(r, r.update(Subtree(t, k)).tree));
    } else {
      assert k + ["HEAD"] !in t by {
        EmptySubtree(t, k);
        assert k <= k + ["HEAD"];
      }
      Mirror.SyncClones(r, place, t);
      SubtreeOfGraft(RemoveAll(t, place.partial), k, Mirror.WithLfs(r, r.clone.tree));
    }
  }
}
