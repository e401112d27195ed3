/** A proof rule: what a worker's own steps keep, and nobody else's work can spoil, holds of it
    at every moment of every run. */
module OneWorker {
  import opened Trees
  import opened Worker
  import opened Locality
  import opened Machine
  import opened Runs
  import Pool

  lemma MovedStep(cfg: Config, m: M, a: Action, k: nat)
    requires ShapeInv(cfg, m) && Enabled(cfg, m, a) && k < |cfg.repos|
    ensures var i := Moved(cfg, m, a); var m' := Perform(cfg, m, a);
            && |m'.threads| == |m.threads|
            && (WorkerMoves(m, i) ==>
                 && m'.tree == Effect(cfg.jobs[i], StateOf(cfg.repos[i], m.threads[i]), m.tree)
                 && !StateOf(cfg.repos[i], m.threads[i]).stage.Ended?)
            && (!WorkerMoves(m, i) ==> m'.tree == m.tree)
            && StateOf(cfg.repos[k], m'.threads[k]) ==
               if k == i && WorkerMoves(m, i) then Worker.Next(cfg.jobs[k], StateOf(cfg.repos[k], m.threads[k]), m.tree)
               else StateOf(cfg.repos[k], m.threads[k])
  {
    NextMoves(cfg, m, a);
    StateStep(cfg, m, a);
  }

  lemma StrangerStep(cfg: Config, i: nat, k: nat, w: State, t: Tree)
    requires Pool.Independent(cfg.jobs) && i < |cfg.jobs| && k < |cfg.jobs| && i != k && !w.stage.Ended?
    ensures Changed(cfg.jobs[i], t, Effect(cfg.jobs[i], w, t))
    ensures Agree(cfg.jobs[k], t, Effect(cfg.jobs[i], w, t))
  {
    AgreeSame(cfg.jobs[i], t);
    StepLocal(cfg.jobs[i], w, t, t);
    StrangerUnseen(cfg.jobs[k], cfg.jobs[i], t, Effect(cfg.jobs[i], w, t));
  }

  /** Kept by the worker's own steps, and looking only at what belongs to it. */
  ghost predicate Stable(j: Job, inv: (State, Tree) -> bool) {
    && (forall w, t :: inv(w, t) && !w.stage.Ended? ==> inv(Worker.Next(j, w, t), Effect(j, w, t)))
    && (forall w, t, u :: inv(w, t) && Agree(j, t, u) ==> inv(w, u))
  }

  ghost predicate HoldsOf(cfg: Config, i: nat, inv: (State, Tree) -> bool, m: M) {
    ShapeInv(cfg, m) && i < |cfg.jobs| && inv(StateOf(cfg.repos[i], m.threads[i]), m.tree)
  }

  lemma StableStep(cfg: Config, i: nat, inv: (State, Tree) -> bool, m: M, a: Action)
    requires Pool.Independent(cfg.jobs) && HoldsOf(cfg, i, inv, m) && Stable(cfg.jobs[i], inv) && Enabled(cfg, m, a)
    ensures HoldsOf(cfg, i, inv, Perform(cfg, m, a))
  {
    ShapeStep(cfg, m, a);
    MovedStep(cfg, m, a, i);
    var x := Moved(cfg, m, a);
    if WorkerMoves(m, x) && x != i {
      StrangerStep(cfg, x, i, StateOf(cfg.repos[x], m.threads[x]), m.tree);
    }
  }

  lemma {:induction false} StableThroughout(cfg: Config, i: nat, inv: (State, Tree) -> bool, m: M, acts: seq<Action>, m': M)
    requires Pool.Independent(cfg.jobs) && HoldsOf(cfg, i, inv, m) && Stable(cfg.jobs[i], inv) && Leads(cfg, m, acts, m')
    ensures HoldsOf(cfg, i, inv, m')
    decreases |acts|
  {
    if acts != [] {
      StableStep(cfg, i, inv, m, acts[0]);
      StableThroughout(cfg, i, inv, Perform(cfg, m, acts[0]), acts[1..], m');
    }
  }

  /** The rule. */
  lemma AtEveryMoment(cfg: Config, i: nat, inv: (State, Tree) -> bool, t0: Tree, m: M)
    requires Pool.Independent(cfg.jobs) && Reachable(cfg, t0, m) && i < |cfg.jobs|
    requires Stable(cfg.jobs[i], inv) && inv(Initial(cfg.repos[i]), t0)
    ensures HoldsOf(cfg, i, inv, m)
  {
    var acts :| Leads(cfg, Start(cfg, t0), acts, m);
    StableThroughout(cfg, i, inv, Start(cfg, t0), acts, m);
  }
}
