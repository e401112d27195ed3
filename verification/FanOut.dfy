/** The bounded fan-out of one page's lookups: at most `limit` in flight, each filling the slot
    reserved for it, the first failure cancelling the ones still running. */
module FanOut {
  import opened Trees

  /** `Gone` is a lookup that came back with an error and left its slot unfilled. */
  datatype Slot<T> = Waiting | Running | Filled(value: T) | Gone

  /** `next` is the next lookup to launch, `first` the one whose error the group keeps. */
  datatype State<T> = State(next: nat, slots: seq<Slot<T>>, first: Maybe<nat>)

  /** `CutOff` is a lookup giving up because the shared context was cancelled. */
  datatype Action = Launch | Return(i: nat) | CutOff(i: nat)

  function Start<T>(n: nat): (f: State<T>)
    ensures |f.slots| == n && f.next == 0 && f.first.Err?
    ensures forall i :: 0 <= i < n ==> f.slots[i].Waiting?
  {
    State(0, seq(n, _ => Waiting), Err)
  }

  function InFlight<T>(f: State<T>): set<nat> {
    set i: nat | i < |f.slots| && f.slots[i].Running?
  }

  predicate Enabled<T>(limit: nat, f: State<T>, a: Action) {
    match a
    case Launch => f.next < |f.slots| && |InFlight(f)| < limit
    case Return(i) => i < |f.slots| && f.slots[i].Running?
    case CutOff(i) => i < |f.slots| && f.slots[i].Running? && f.first.Ok?
  }

  function Perform<T>(lookups: seq<Maybe<T>>, limit: nat, f: State<T>, a: Action): State<T>
    requires |lookups| == |f.slots| && Enabled(limit, f, a)
  {
    match a
    case Launch => f.(next := f.next + 1, slots := f.slots[f.next := Running])
    case CutOff(i) => f.(slots := f.slots[i := Gone])
    case Return(i) =>
      if lookups[i].Ok? then f.(slots := f.slots[i := Filled(lookups[i].value)])
      else f.(slots := f.slots[i := Gone], first := if f.first.Ok? then f.first else Ok(i))
  }

  predicate Finished<T>(f: State<T>) {
    f.next == |f.slots| && InFlight(f) == {}
  }

  /** A filled slot holds its own lookup's answer; a slot is given up only once some lookup
      has failed of itself; the error kept is one of those. */
  ghost predicate Inv<T>(lookups: seq<Maybe<T>>, limit: nat, f: State<T>) {
    && |f.slots| == |lookups| && f.next <= |f.slots|
    && |InFlight(f)| <= limit
    && (forall i :: 0 <= i < |f.slots| ==> (f.slots[i].Waiting? <==> f.next <= i))
    && (forall i :: 0 <= i < |f.slots| && f.slots[i].Filled? ==> lookups[i] == Ok(f.slots[i].value))
    && (forall i :: 0 <= i < |f.slots| && f.slots[i].Gone? ==> f.first.Ok?)
    && (f.first.Ok? ==> f.first.value < |lookups| && lookups[f.first.value].Err?)
  }

  lemma StartInv<T>(lookups: seq<Maybe<T>>, limit: nat)
    ensures Inv(lookups, limit, Start(|lookups|))
  {
    assert InFlight(Start<T>(|lookups|)) == {};
  }

  lemma InFlightLaunch<T>(lookups: seq<Maybe<T>>, limit: nat, f: State<T>)
    requires Inv(lookups, limit, f) && Enabled(limit, f, Launch)
    ensures f.next !in InFlight(f) && InFlight(Perform(lookups, limit, f, Launch)) == InFlight(f) + {f.next}
  {
    assert f.slots[f.next].Waiting?;
  }

  lemma InFlightLess<T>(f: State<T>, g: State<T>, i: nat)
    requires i < |f.slots| && f.slots[i].Running? && |g.slots| == |f.slots| && !g.slots[i].Running?
    requires forall j :: 0 <= j < |f.slots| && j != i ==> g.slots[j] == f.slots[j]
    ensures i in InFlight(f) && InFlight(g) == InFlight(f) - {i}
  {
  }

  lemma InFlightAfter<T>(lookups: seq<Maybe<T>>, limit: nat, f: State<T>, a: Action)
    requires Inv(lookups, limit, f) && Enabled(limit, f, a)
    ensures InFlight(Perform(lookups, limit, f, a)) == if a.Launch? then InFlight(f) + {f.next} else InFlight(f) - {a.i}
    ensures if a.Launch? then f.next !in InFlight(f) else a.i in InFlight(f)
  {
    if a.Launch? {
      InFlightLaunch(lookups, limit, f);
    } else {
      InFlightLess(f, Perform(lookups, limit, f, a), a.i);
    }
  }

  lemma InvStep<T>(lookups: seq<Maybe<T>>, limit: nat, f: State<T>, a: Action)
    requires Inv(lookups, limit, f) && Enabled(limit, f, a)
    ensures Inv(lookups, limit, Perform(lookups, limit, f, a))
  {
    InFlightAfter(lookups, limit, f, a);
    match a
    case Launch => LaunchKeepsInv(lookups, limit, f);
    case Return(i) =>
    case CutOff(i) =>
  }

  lemma LaunchKeepsInv<T>(lookups: seq<Maybe<T>>, limit: nat, f: State<T>)
    requires Inv(lookups, limit, f) && Enabled(limit, f, Launch)
    ensures Inv(lookups, limit, Perform(lookups, limit, f, Launch))
  {
    InFlightAfter(lookups, limit, f, Launch);
  }

  /** `acts` is a legal schedule leading from `f` to `g`. */
  ghost predicate Leads<T>(lookups: seq<Maybe<T>>, limit: nat, f: State<T>, acts: seq<Action>, g: State<T>)
    requires |lookups| == |f.slots|
    decreases |acts|
  {
    if acts == [] then f == g
    else Enabled(limit, f, acts[0]) && Leads(lookups, limit, Perform(lookups, limit, f, acts[0]), acts[1..], g)
  }

  lemma {:induction false} LeadsKeepsInv<T>(lookups: seq<Maybe<T>>, limit: nat, f: State<T>, acts: seq<Action>, g: State<T>)
    requires Inv(lookups, limit, f) && Leads(lookups, limit, f, acts, g)
    ensures Inv(lookups, limit, g)
    ensures |acts| + Measure(g) <= Measure(f)
    decreases |acts|
  {
    if acts != [] {
      InvStep(lookups, limit, f, acts[0]);
      MeasureDrops(lookups, limit, f, acts[0]);
      LeadsKeepsInv(lookups, limit, Perform(lookups, limit, f, acts[0]), acts[1..], g);
    }
  }

  /** Two moves for a lookup not yet launched, one for a lookup in flight. */
  function Measure<T>(f: State<T>): nat {
    if f.next <= |f.slots| then 2 * (|f.slots| - f.next) + |InFlight(f)| else 0
  }

  lemma MeasureDrops<T>(lookups: seq<Maybe<T>>, limit: nat, f: State<T>, a: Action)
    requires Inv(lookups, limit, f) && Enabled(limit, f, a)
    ensures Measure(Perform(lookups, limit, f, a)) < Measure(f)
  {
    InFlightAfter(lookups, limit, f, a);
  }

  /** Every lookup came back with a value. */
  predicate AllFound<T>(lookups: seq<Maybe<T>>) {
    forall i :: 0 <= i < |lookups| ==> lookups[i].Ok?
  }

  /** The slots once the group is done without error. */
  ghost predicate Complete<T>(lookups: seq<Maybe<T>>, f: State<T>) {
    && |f.slots| == |lookups|
    && forall i :: 0 <= i < |lookups| ==> f.slots[i].Filled? && lookups[i] == Ok(f.slots[i].value)
  }

  lemma FinishedIsComplete<T>(lookups: seq<Maybe<T>>, limit: nat, f: State<T>)
    requires Inv(lookups, limit, f) && Finished(f)
    ensures f.first.Err? <==> AllFound(lookups)
    ensures f.first.Err? ==> Complete(lookups, f)
  {
    forall i | 0 <= i < |f.slots| ensures !f.slots[i].Running? {
      assert i !in InFlight(f);
    }
  }

  /** Whatever the schedule, a finished group holds an error exactly if some lookup fails, and
      that error is one such lookup's own, never a mere cancellation; otherwise every slot
      holds its own lookup's answer. On the way no more than `limit` are in flight, and the
      schedule is no longer than two moves per lookup. */
  lemma AnyScheduleIsSerial<T>(lookups: seq<Maybe<T>>, limit: nat, acts: seq<Action>, f: State<T>)
    requires Leads(lookups, limit, Start(|lookups|), acts, f)
    ensures |InFlight(f)| <= limit && |acts| <= 2 * |lookups|
    ensures f.first.Ok? ==> f.first.value < |lookups| && lookups[f.first.value].Err?
    ensures Finished(f) ==> (f.first.Err? <==> AllFound(lookups))
    ensures Finished(f) && f.first.Err? ==> Complete(lookups, f)
  {
    StartInv(lookups, limit);
    assert InFlight(Start<T>(|lookups|)) == {};
    LeadsKeepsInv(lookups, limit, Start(|lookups|), acts, f);
    if Finished(f) {
      FinishedIsComplete(lookups, limit, f);
    }
  }

  /** Until every lookup has returned, one can be launched or one is in flight and can
      return. */
  lemma NeverStuck<T>(lookups: seq<Maybe<T>>, limit: nat, acts: seq<Action>, f: State<T>) returns (a: Action)
    requires limit > 0 && Leads(lookups, limit, Start(|lookups|), acts, f) && !Finished(f)
    ensures Enabled(limit, f, a)
  {
    StartInv(lookups, limit);
    LeadsKeepsInv(lookups, limit, Start(|lookups|), acts, f);
    if InFlight(f) == {} {
      return Launch;
    }
    var i :| i in InFlight(f);
    return Return(i);
  }

  /** The program's variables, as far as they follow a machine state. */
  ghost predicate Follows<T>(f: State<T>, next: nat, running: set<nat>, failed: bool, results: seq<Maybe<T>>) {
    && next == f.next && running == InFlight(f) && (failed <==> f.first.Ok?)
    && |results| == |f.slots|
    && forall i :: 0 <= i < |results| && f.slots[i].Filled? ==> results[i] == Ok(f.slots[i].value)
  }

  lemma Step<T>(lookups: seq<Maybe<T>>, limit: nat, f: State<T>, a: Action)
    requires Inv(lookups, limit, f) && Enabled(limit, f, a)
    ensures var g := Perform(lookups, limit, f, a);
            Inv(lookups, limit, g) && Measure(g) < Measure(f)
  {
    InvStep(lookups, limit, f, a);
    MeasureDrops(lookups, limit, f, a);
  }

  lemma FollowsLaunch<T>(lookups: seq<Maybe<T>>, limit: nat, f: State<T>, next: nat, running: set<nat>, failed: bool, results: seq<Maybe<T>>)
    requires Inv(lookups, limit, f) && Follows(f, next, running, failed, results) && next < |lookups| && |running| < limit
    ensures Enabled(limit, f, Launch)
    ensures Follows(Perform(lookups, limit, f, Launch), next + 1, running + {next}, failed, results)
  {
    InFlightLaunch(lookups, limit, f);
  }

  lemma FollowsReturn<T>(lookups: seq<Maybe<T>>, limit: nat, f: State<T>, next: nat, running: set<nat>, failed: bool, results: seq<Maybe<T>>, i: nat)
    requires Inv(lookups, limit, f) && Follows(f, next, running, failed, results) && i in running
    ensures Enabled(limit, f, Return(i))
    ensures var g := Perform(lookups, limit, f, Return(i));
            if lookups[i].Err? then Follows(g, next, running - {i}, true, results)
            else Follows(g, next, running - {i}, failed, results[i := lookups[i]])
  {
    InFlightAfter(lookups, limit, f, Return(i));
  }

  lemma FollowsCutOff<T>(lookups: seq<Maybe<T>>, limit: nat, f: State<T>, next: nat, running: set<nat>, results: seq<Maybe<T>>, i: nat)
    requires Inv(lookups, limit, f) && Follows(f, next, running, true, results) && i in running
    ensures Enabled(limit, f, CutOff(i))
    ensures Follows(Perform(lookups, limit, f, CutOff(i)), next, running - {i}, true, results)
  {
    InFlightAfter(lookups, limit, f, CutOff(i));
  }

  /** The group itself, given what each lookup answers if left to finish. The loop leaves open
      which lookup is launched or returns next, and whether one that was cancelled still
      completes; the answer does not depend on it. */
  method Gather<T(0)>(lookups: seq<Maybe<T>>, limit: nat) returns (r: Maybe<seq<T>>)
    requires limit > 0
    ensures r.Ok? <==> AllFound(lookups)
    ensures r.Ok? ==> |r.value| == |lookups| && forall i :: 0 <= i < |lookups| ==> lookups[i] == Ok(r.value[i])
  {
    var n := |lookups|;
    var results := new Maybe<T>[n](_ => Err);
    ghost var f := Start(n);
    StartInv(lookups, limit);
    var next: nat, running: set<nat>, failed := 0, {}, false;
    assert InFlight(f) == {};
    while next < n || running != {}
      invariant Inv(lookups, limit, f) && Follows(f, next, running, failed, results[..])
      decreases Measure(f)
    {
      var launch: bool := *;
      ghost var a;
      if next < n && |running| < limit && (launch || running == {}) {
        a := Launch;
        FollowsLaunch(lookups, limit, f, next, running, failed, results[..]);
        running := running + {next};
        next := next + 1;
      } else {
        var i: nat :| i in running;
        var cancelled: bool := *;
        if cancelled && failed {
          a := CutOff(i);
          FollowsCutOff(lookups, limit, f, next, running, results[..], i);
        } else {
          a := Return(i);
          FollowsReturn(lookups, limit, f, next, running, failed, results[..], i);
          if lookups[i].Err? {
            failed := true;
          } else {
            results[i] := lookups[i];
          }
        }
        running := running - {i};
      }
      Step(lookups, limit, f, a);
      f := Perform(lookups, limit, f, a);
    }
    FinishedIsComplete(lookups, limit, f);
    if failed {
      return Err;
    }
    return Ok(seq(n, i requires 0 <= i < n && results[i].Ok? reads results => results[i].value));
  }
}
