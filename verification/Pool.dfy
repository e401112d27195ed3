/** Several workers on one tree, taking steps in any order. Whatever the order, each worker
    ends as if it had been alone, and the tree ends as if they had gone one after another. */
module Pool {
  import opened Names
  import opened Trees
  import opened Worker
  import opened Locality

  ghost predicate Independent(jobs: seq<Job>) {
    && (forall i :: 0 <= i < |jobs| ==> Separate(jobs[i]))
    && (forall i, j :: 0 <= i < |jobs| && 0 <= j < |jobs| && i != j ==> Strangers(jobs[i], jobs[j]))
  }

  ghost predicate Owned(jobs: seq<Job>, k: Key) {
    exists i :: 0 <= i < |jobs| && Owns(jobs[i], k)
  }

  ghost function End(jobs: seq<Job>, ws: seq<State>, t: Tree, i: nat): (State, Tree)
    requires i < |jobs| == |ws|
  {
    Finish(jobs[i], ws[i], t)
  }

  /** There already, or sure to be made by some worker that is not done yet. */
  ghost predicate Foreseen(jobs: seq<Job>, ws: seq<State>, t: Tree, k: Key)
    requires |jobs| == |ws|
  {
    k in t || exists i :: 0 <= i < |jobs| && k in End(jobs, ws, t, i).1
  }

  /** Each worker is still heading for the end it had in sight at the start. */
  ghost predicate OnCourse(jobs: seq<Job>, ws0: seq<State>, t0: Tree, ws: seq<State>, t: Tree)
    requires |jobs| == |ws0| == |ws|
  {
    forall i :: 0 <= i < |jobs| ==>
      && End(jobs, ws, t, i).0 == End(jobs, ws0, t0, i).0
      && Agree(jobs[i], End(jobs, ws, t, i).1, End(jobs, ws0, t0, i).1)
  }

  ghost predicate SomeAbove(jobs: seq<Job>, k: Key) {
    exists i :: 0 <= i < |jobs| && Above(jobs[i], k)
  }

  /** Between the workers' own trees, only missing parent directories appear. */
  ghost predicate CommonGround(jobs: seq<Job>, ws0: seq<State>, t0: Tree, ws: seq<State>, t: Tree)
    requires |jobs| == |ws0| == |ws|
  {
    forall k :: !Owned(jobs, k) ==>
      && (SameAt(t0, t, k) || (NewDir(t0, t, k) && SomeAbove(jobs, k)))
      && (Foreseen(jobs, ws, t, k) <==> Foreseen(jobs, ws0, t0, k))
  }

  ghost predicate Inv(jobs: seq<Job>, ws0: seq<State>, t0: Tree, ws: seq<State>, t: Tree) {
    && |jobs| == |ws0| == |ws|
    && OnCourse(jobs, ws0, t0, ws, t)
    && CommonGround(jobs, ws0, t0, ws, t)
  }

  lemma InvInitially(jobs: seq<Job>, ws: seq<State>, t: Tree)
    requires |jobs| == |ws|
    ensures Inv(jobs, ws, t, ws, t)
  {
    forall i | 0 <= i < |jobs| ensures Agree(jobs[i], End(jobs, ws, t, i).1, End(jobs, ws, t, i).1) {
      AgreeSame(jobs[i], End(jobs, ws, t, i).1);
    }
  }

  lemma AgreeTransitive(j: Job, a: Tree, b: Tree, c: Tree)
    requires Agree(j, a, b) && Agree(j, b, c)
    ensures Agree(j, a, c)
  {
    forall k | Owns(j, k) ensures SameAt(a, c, k) {
      assert SameAt(a, b, k) && SameAt(b, c, k);
    }
    forall k | Above(j, k) ensures NonDir(a, k) <==> NonDir(c, k) {
      assert (NonDir(a, k) <==> NonDir(b, k)) && (NonDir(b, k) <==> NonDir(c, k));
    }
  }

  lemma AgreeSymmetric(j: Job, a: Tree, b: Tree)
    requires Agree(j, a, b)
    ensures Agree(j, b, a)
  {
    forall k | Owns(j, k) ensures SameAt(b, a, k) {
      assert SameAt(a, b, k);
    }
    forall k | Above(j, k) ensures NonDir(b, k) <==> NonDir(a, k) {
      assert NonDir(a, k) <==> NonDir(b, k);
    }
  }

  /** One step of worker `x`, seen from worker `i`: the same end is still in sight. */
  lemma EndAfterStep(jobs: seq<Job>, ws: seq<State>, t: Tree, x: nat, i: nat)
    requires Independent(jobs) && |jobs| == |ws| && x < |jobs| && i < |jobs| && !ws[x].stage.Ended?
    ensures var ws', t' := ws[x := Next(jobs[x], ws[x], t)], Effect(jobs[x], ws[x], t);
            && End(jobs, ws', t', i).0 == End(jobs, ws, t, i).0
            && Agree(jobs[i], End(jobs, ws', t', i).1, End(jobs, ws, t, i).1)
            && Changed(jobs[x], t, t')
            && (forall k :: !Owned(jobs, k) && k in End(jobs, ws, t, i).1 ==> k in t || k in End(jobs, ws', t', i).1)
            && (forall k :: !Owned(jobs, k) && k in End(jobs, ws', t', i).1 ==> k in t' || k in End(jobs, ws, t, i).1)
  {
    var ws', t' := ws[x := Next(jobs[x], ws[x], t)], Effect(jobs[x], ws[x], t);
    AgreeSame(jobs[x], t);
    StepLocal(jobs[x], ws[x], t, t);
    if i == x {
      FinishUnfold(jobs[x], ws[x], t);
      AgreeSame(jobs[i], End(jobs, ws, t, i).1);
    } else {
      StrangerUnseen(jobs[i], jobs[x], t, t');
      AgreeSymmetric(jobs[i], t, t');
      FinishLocal(jobs[i], ws[i], t, t');
      FinishLocal(jobs[i], ws[i], t', t);
      AgreeSymmetric(jobs[i], End(jobs, ws, t, i).1, End(jobs, ws', t', i).1);
      forall k | !Owned(jobs, k) ensures !Owns(jobs[i], k) {}
    }
  }

  lemma KeptByStep(jobs: seq<Job>, ws: seq<State>, t: Tree, x: nat, k: Key)
    requires Independent(jobs) && |jobs| == |ws| && x < |jobs| && !ws[x].stage.Ended? && !Owned(jobs, k)
    ensures var t' := Effect(jobs[x], ws[x], t);
            && (SameAt(t, t', k) || (NewDir(t, t', k) && SomeAbove(jobs, k)))
            && (k in t' ==> k in End(jobs, ws, t, x).1)
  {
    var t' := Effect(jobs[x], ws[x], t);
    assert !Owns(jobs[x], k);
    AgreeSame(jobs[x], t);
    StepLocal(jobs[x], ws[x], t, t);
    assert SameAt(t, t', k) || (NewDir(t, t', k) && Above(jobs[x], k));
    FinishUnfold(jobs[x], ws[x], t);
    var w' := Next(jobs[x], ws[x], t);
    FinishKeeps(jobs[x], w', t');
    var u := Finish(jobs[x], w', t').1;
    assert SameAt(t', u, k) || NewDir(t', u, k);
  }

  lemma OnCourseAfterStep(jobs: seq<Job>, ws0: seq<State>, t0: Tree, ws: seq<State>, t: Tree, x: nat)
    requires Independent(jobs) && Inv(jobs, ws0, t0, ws, t) && x < |jobs| && !ws[x].stage.Ended?
    ensures OnCourse(jobs, ws0, t0, ws[x := Next(jobs[x], ws[x], t)], Effect(jobs[x], ws[x], t))
  {
    var ws', t' := ws[x := Next(jobs[x], ws[x], t)], Effect(jobs[x], ws[x], t);
    forall i | 0 <= i < |jobs|
      ensures End(jobs, ws', t', i).0 == End(jobs, ws0, t0, i).0
      ensures Agree(jobs[i], End(jobs, ws', t', i).1, End(jobs, ws0, t0, i).1)
    {
      EndAfterStep(jobs, ws, t, x, i);
      AgreeTransitive(jobs[i], End(jobs, ws', t', i).1, End(jobs, ws, t, i).1, End(jobs, ws0, t0, i).1);
    }
  }

  lemma ForeseenAfterStep(jobs: seq<Job>, ws: seq<State>, t: Tree, x: nat, k: Key)
    requires Independent(jobs) && |jobs| == |ws| && x < |jobs| && !ws[x].stage.Ended? && !Owned(jobs, k)
    ensures Foreseen(jobs, ws[x := Next(jobs[x], ws[x], t)], Effect(jobs[x], ws[x], t), k)
       <==> Foreseen(jobs, ws, t, k)
  {
    var ws', t' := ws[x := Next(jobs[x], ws[x], t)], Effect(jobs[x], ws[x], t);
    KeptByStep(jobs, ws, t, x, k);
    if Foreseen(jobs, ws, t, k) && k !in t {
      var i :| 0 <= i < |jobs| && k in End(jobs, ws, t, i).1;
      EndAfterStep(jobs, ws, t, x, i);
    }
    if Foreseen(jobs, ws', t', k) && k !in t' {
      var i :| 0 <= i < |jobs| && k in End(jobs, ws', t', i).1;
      EndAfterStep(jobs, ws, t, x, i);
    }
  }

  /** The invariant survives any worker's next step. */
  lemma InvStep(jobs: seq<Job>, ws0: seq<State>, t0: Tree, ws: seq<State>, t: Tree, x: nat)
    requires Independent(jobs) && Inv(jobs, ws0, t0, ws, t) && x < |jobs| && !ws[x].stage.Ended?
    ensures Inv(jobs, ws0, t0, ws[x := Next(jobs[x], ws[x], t)], Effect(jobs[x], ws[x], t))
  {
    var ws', t' := ws[x := Next(jobs[x], ws[x], t)], Effect(jobs[x], ws[x], t);
    OnCourseAfterStep(jobs, ws0, t0, ws, t, x);
    forall k | !Owned(jobs, k)
      ensures SameAt(t0, t', k) || (NewDir(t0, t', k) && SomeAbove(jobs, k))
      ensures Foreseen(jobs, ws', t', k) <==> Foreseen(jobs, ws0, t0, k)
    {
      ForeseenAfterStep(jobs, ws, t, x, k);
      KeptByStep(jobs, ws, t, x, k);
    }
  }

  /** Running one worker to its end is a sequence of such steps. */
  lemma {:induction false} InvFinish(jobs: seq<Job>, ws0: seq<State>, t0: Tree, ws: seq<State>, t: Tree, x: nat)
    requires Independent(jobs) && Inv(jobs, ws0, t0, ws, t) && x < |jobs|
    ensures Inv(jobs, ws0, t0, ws[x := End(jobs, ws, t, x).0], End(jobs, ws, t, x).1)
    decreases Rank(jobs[x], ws[x])
  {
    if ws[x].stage.Ended? {
      assert ws[x := ws[x]] == ws;
    } else {
      InvStep(jobs, ws0, t0, ws, t, x);
      RankDrops(jobs[x], ws[x], t);
      FinishUnfold(jobs[x], ws[x], t);
      var ws', t' := ws[x := Next(jobs[x], ws[x], t)], Effect(jobs[x], ws[x], t);
      InvFinish(jobs, ws0, t0, ws', t', x);
      assert ws'[x := End(jobs, ws', t', x).0] == ws[x := End(jobs, ws, t, x).0];
    }
  }

  ghost predicate AllEnded(ws: seq<State>) {
    forall i :: 0 <= i < |ws| ==> ws[i].stage.Ended?
  }

  /** Once every worker has ended, states and tree are settled by the start alone. */
  lemma EndIsUnique(jobs: seq<Job>, ws0: seq<State>, t0: Tree, ws: seq<State>, t: Tree, vs: seq<State>, u: Tree)
    requires Inv(jobs, ws0, t0, ws, t) && AllEnded(ws)
    requires Inv(jobs, ws0, t0, vs, u) && AllEnded(vs)
    ensures ws == vs && t == u
  {
    forall i | 0 <= i < |jobs| ensures ws[i] == vs[i] {
      assert End(jobs, ws, t, i) == (ws[i], t) && End(jobs, vs, u, i) == (vs[i], u);
    }
    forall k ensures SameAt(t, u, k) {
      if Owned(jobs, k) {
        var i :| 0 <= i < |jobs| && Owns(jobs[i], k);
        assert End(jobs, ws, t, i) == (ws[i], t) && End(jobs, vs, u, i) == (vs[i], u);
        var e := End(jobs, ws0, t0, i).1;
        assert SameAt(t, e, k) && SameAt(u, e, k);
      } else {
        ForeseenAtEnd(jobs, ws, t, k);
        ForeseenAtEnd(jobs, vs, u, k);
        assert SameAt(t0, t, k) || NewDir(t0, t, k);
        assert SameAt(t0, u, k) || NewDir(t0, u, k);
      }
    }
    SameEverywhere(t, u);
  }

  lemma ForeseenAtEnd(jobs: seq<Job>, ws: seq<State>, t: Tree, k: Key)
    requires |jobs| == |ws| && AllEnded(ws)
    ensures Foreseen(jobs, ws, t, k) <==> k in t
  {
    forall i | 0 <= i < |jobs| ensures End(jobs, ws, t, i).1 == t {}
  }

  /* ---- one repository at a time ---- */

  /** The workers from number `i` on, each run to its end before the next begins. */
  ghost function Serial(jobs: seq<Job>, ws: seq<State>, t: Tree, i: nat): (seq<State>, Tree)
    requires |jobs| == |ws| && i <= |jobs|
    decreases |jobs| - i
  {
    if i == |jobs| then (ws, t)
    else
      var (w, t') := Finish(jobs[i], ws[i], t);
      Serial(jobs, ws[i := w], t', i + 1)
  }

  lemma {:induction false} FinishEnds(j: Job, w: State, t: Tree)
    ensures Finish(j, w, t).0.stage.Ended?
    decreases Rank(j, w)
  {
    if !w.stage.Ended? {
      RankDrops(j, w, t);
      FinishEnds(j, Next(j, w, t), Effect(j, w, t));
    }
  }

  lemma {:induction false} SerialInv(jobs: seq<Job>, ws0: seq<State>, t0: Tree, ws: seq<State>, t: Tree, i: nat)
    requires Independent(jobs) && Inv(jobs, ws0, t0, ws, t) && i <= |jobs|
    requires forall j :: 0 <= j < i ==> ws[j].stage.Ended?
    ensures var (vs, u) := Serial(jobs, ws, t, i); Inv(jobs, ws0, t0, vs, u) && AllEnded(vs)
    decreases |jobs| - i
  {
    if i < |jobs| {
      InvFinish(jobs, ws0, t0, ws, t, i);
      FinishEnds(jobs[i], ws[i], t);
      var (w, t') := Finish(jobs[i], ws[i], t);
      SerialInv(jobs, ws0, t0, ws[i := w], t', i + 1);
    }
  }

  /** Any interleaving that runs every worker to its end does what the serial order does,
      and each worker's outcome is the one it would have had alone on the initial tree. */
  lemma AnyOrderIsSerial(jobs: seq<Job>, ws0: seq<State>, t0: Tree, ws: seq<State>, t: Tree)
    requires Independent(jobs) && Inv(jobs, ws0, t0, ws, t) && AllEnded(ws)
    ensures (ws, t) == Serial(jobs, ws0, t0, 0)
    ensures forall i :: 0 <= i < |jobs| ==> ws[i] == Finish(jobs[i], ws0[i], t0).0
  {
    InvInitially(jobs, ws0, t0);
    SerialInv(jobs, ws0, t0, ws0, t0, 0);
    var (vs, u) := Serial(jobs, ws0, t0, 0);
    EndIsUnique(jobs, ws0, t0, ws, t, vs, u);
    forall i | 0 <= i < |jobs| ensures ws[i] == Finish(jobs[i], ws0[i], t0).0 {
      assert End(jobs, ws, t, i) == (ws[i], t);
    }
  }
}
