// What can go wrong and what cannot in the flow groups of flow.c: an assert that a killed job trips,
// and progress of every live group.
module FlowProgress {
  import opened FlowControl
  import opened FlowRuns
  import opened Wrappers

  lemma Extend(s0: State, run: seq<Action>, s: State, a: Action, b: Action) returns (run': seq<Action>, s': State)
    requires Exec(s0, run) == Some(s) && Step(s, a).Some? && Step(Step(s, a).value, b).Some?
    ensures Exec(s0, run') == Some(s') && Step(Step(s, a).value, b) == Some(s')
  {
    s' := Step(Step(s, a).value, b).value;
    ExecThen(s0, run, a);
    ExecThen(s0, run + [a], b);
    run' := run + [a] + [b];
  }

  // One job alone in a group of its own, at the given place.
  function Alone(counter: int, totalWeight: int, pc: Pc, lock: Option<nat>): State {
    State(map[1 := Flow(1, counter, totalWeight)], [Job(Some(1), 1, 0, pc)], lock, true)
  }

  const NOBODY: State := State(map[], [Job(None, 0, 0, Ready)], None, true)

  lemma PassAlone() returns (run: seq<Action>, s: State)
    ensures Exec(NOBODY, run) == Some(s) && s == Alone(1, 1, Passed, None)
  {
    assert FlowGet(map[], 1) == map[1 := Flow(1, 1, 0)];
    run, s := Extend(NOBODY, [], NOBODY, Join(0, 1, 1), AddWeight(0));
    assert s == Alone(1, 1, Ready, None);
    run, s := Extend(NOBODY, run, s, Load(0), Check(0));
  }

  lemma HalfAlone() returns (run: seq<Action>, s: State)
    ensures Exec(NOBODY, run) == Some(s) && s == Alone(2, 1, Leaving, Some(0))
  {
    run, s := PassAlone();
    run, s := Extend(NOBODY, run, s, Add(0), Exit(0));
  }

  lemma GoneAlone() returns (run: seq<Action>, s: State)
    ensures Exec(NOBODY, run) == Some(s) && s.flows == map[] && !s.asserted
  {
    run, s := HalfAlone();
    run, s := Extend(NOBODY, run, s, SubWeight(0), Release(0));
  }

  // The assert of flow_put does fail: a job that leaves between its two increments trips it.
  lemma HalfExitTripsAssert()
    ensures exists s0, run ::
              Init(s0) && Exec(s0, run).Some? && Exec(s0, run).value.flows == map[] && !Exec(s0, run).value.asserted
  {
    var run, s := GoneAlone();
    assert Init(NOBODY);
  }

  // The real comparison as a product of integers.
  lemma ExceededProduct(counter: int, totalWeight: int, job: Job)
    requires counter > 0 && totalWeight > 0
    ensures Exceeded(counter, totalWeight, job) <==> job.counter * totalWeight > job.weight * counter
  {
    var c, F, w, W := job.counter as real, counter as real, job.weight as real, totalWeight as real;
    Cross(c, F, w, W);
    assert (job.counter * totalWeight) as real == c * W;
    assert (job.weight * counter) as real == w * F;
  }

  lemma Cross(a: real, b: real, c: real, d: real)
    requires b > 0.0 && d > 0.0
    ensures a / b > c / d <==> a * d > c * b
  {
    var x, y := a / b, c / d;
    assert a == x * b && c == y * d;
    assert a * d == x * (b * d) && c * b == y * (b * d);
    assert b * d > 0.0;
  }

  // If every member were over its share, the shared counter would exceed itself.
  lemma {:induction false} AllOver(jobs: seq<Job>, id: FlowId, F: int, W: int)
    requires forall k :: 0 <= k < |jobs| && jobs[k].flow == Some(id) ==>
                           Value(jobs[k], id, Done) * W > Value(jobs[k], id, Weight) * F
    ensures Sum(jobs, id, Done) * W >= Sum(jobs, id, Weight) * F
  {
    if jobs != [] {
      var rest, job := jobs[..|jobs| - 1], jobs[|jobs| - 1];
      AllOver(rest, id, F, W);
      var d, w := Value(job, id, Done), Value(job, id, Weight);
      AddOver(Sum(rest, id, Done), Sum(rest, id, Weight), d, w, F, W);
    }
  }

  lemma AddOver(D: int, X: int, d: int, w: int, F: int, W: int)
    requires D * W >= X * F && d * W >= w * F
    ensures (D + d) * W >= (X + w) * F
  {
    assert (D + d) * W == D * W + d * W && (X + w) * F == X * F + w * F;
  }

  // A member of a live group.
  lemma {:induction false} SomeMember(s: State, id: FlowId) returns (j: nat)
    requires Inv(s) && id in s.flows
    ensures j < |s.jobs| && s.jobs[j].flow == Some(id)
  {
    assert FlowOk(s, id);
    if forall k :: 0 <= k < |s.jobs| ==> s.jobs[k].flow != Some(id) {
      SumEmpty(s.jobs, id, Member);
      assert false;
    }
    j :| 0 <= j < |s.jobs| && s.jobs[j].flow == Some(id);
  }

  // Not at a check, or a check made now would let it go.
  predicate CanGo(s: State, id: FlowId, job: Job)
    requires id in s.flows
  {
    var f := s.flows[id];
    && job.flow == Some(id)
    && (job.pc.AtCheck() ==> f.counter > 0 && f.totalWeight > 0 && !Exceeded(f.counter, f.totalWeight, job))
  }

  lemma NotAllOver(s: State, id: FlowId)
    requires Inv(s) && id in s.flows && s.flows[id].counter > 0 && s.flows[id].totalWeight > 0
    ensures exists k :: 0 <= k < |s.jobs| && CanGo(s, id, s.jobs[k])
  {
    var f := s.flows[id];
    assert FlowOk(s, id);
    if forall k :: 0 <= k < |s.jobs| ==> !CanGo(s, id, s.jobs[k]) {
      forall k | 0 <= k < |s.jobs| && s.jobs[k].flow == Some(id)
        ensures Value(s.jobs[k], id, Done) * f.totalWeight > Value(s.jobs[k], id, Weight) * f.counter
      {
        ExceededProduct(f.counter, f.totalWeight, s.jobs[k]);
      }
      AllOver(s.jobs, id, f.counter, f.totalWeight);
      ProductMonotone(Sum(s.jobs, id, Done), f.counter - 1, f.totalWeight);
      OneLess(f.counter, f.totalWeight);
      assert false;
    }
  }

  lemma OneLess(F: int, W: int)
    ensures (F - 1) * W == F * W - W && W * F == F * W
  {}

  lemma ProductMonotone(a: int, b: int, c: int)
    requires a <= b && c >= 0
    ensures a * c <= b * c
  {}

  // PROGRESS: a live group is never stuck.  Every member has a step, and for some member this is not
  // a check, or a check made now lets it go on to its increments.
  lemma SomeMemberPasses(s: State, id: FlowId)
    requires Inv(s) && id in s.flows
    ensures exists j :: 0 <= j < |s.jobs| && CanGo(s, id, s.jobs[j])
  {
    var j := SomeMember(s, id);
    MembersPositive(s, id, j);
    if s.jobs[j].pc.AtCheck() {
      NotAllOver(s, id);
    }
  }

  lemma MemberSteps(s: State, j: nat)
    requires Inv(s) && j < |s.jobs| && s.jobs[j].flow.Some?
    ensures exists a: Action :: a.j == j && Step(s, a).Some?
  {
    assert JobOk(s, j);
    MembersPositive(s, s.jobs[j].flow.value, j);
    match s.jobs[j].pc
    case Ready => assert Step(s, Load(j)).Some?;
    case Loaded(_) => assert Step(s, Check(j)).Some?;
    case Passed => assert Step(s, Add(j)).Some?;
    case Counted => assert Step(s, Count(j)).Some?;
    case Joining => assert Step(s, AddWeight(j)).Some?;
    case Leaving => assert Step(s, SubWeight(j)).Some?;
    case Removed => assert Step(s, Release(j)).Some?;
  }
}
