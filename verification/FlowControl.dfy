// The flow control of flow.c: jobs of one flow group share a counter, and a job stalls while its
// share of the group's counter exceeds its share of the group's weight.
//
// Each access to data that other jobs use without the lock is a step of its own: reading the shared
// counter, reading the total weight (with the comparison), the increments of the shared counter and
// of the job's own, adding a joining job's weight, and taking a leaving job's counter and weight
// off.  So the jobs' calls interleave freely.  What happens under the lock alone is part of the
// neighbouring step.  The ratios, doubles in the code, are compared as exact reals.
module FlowControl {
  import opened Wrappers

  type FlowId = int

  // What a job does next.
  datatype Pc =
    | Ready               // start a check
    | Loaded(seen: int)   // compare, with the shared counter as it was read
    | Passed              // raise the shared counter
    | Counted             // raise its own counter
    | Joining             // add its weight to the group's
    | Leaving             // holds the lock: take its weight off
    | Removed             // holds the lock: give up its reference
  {
    // In or before a check.
    predicate AtCheck() {
      Ready? || Loaded?
    }
    // In the calls of flow_threshold_exceeded.
    predicate Active() {
      AtCheck() || Passed? || Counted?
    }
    predicate HoldsLock() {
      Leaving? || Removed?
    }
  }

  // `flow` is td->flow, `weight` is td->o.flow and `counter` is td->flow_counter.
  datatype Job = Job(flow: Option<FlowId>, weight: nat, counter: int, pc: Pc)

  datatype Flow = Flow(refs: int, counter: int, totalWeight: int)

  // `lock` is the job that holds flow_lock over several steps; `asserted` records what the assert in
  // flow_put saw, the last time a group was freed.
  datatype State = State(flows: map<FlowId, Flow>, jobs: seq<Job>, lock: Option<nat>, asserted: bool)

  datatype Action =
    | Join(j: nat, id: FlowId, weight: nat)   // flow_init_job, with flow_get
    | AddWeight(j: nat)
    | Load(j: nat)                            // flow_threshold_exceeded
    | Check(j: nat)
    | Add(j: nat)
    | Count(j: nat)
    | Exit(j: nat)                            // flow_exit_job, with flow_put
    | SubWeight(j: nat)
    | Release(j: nat)

  // With the shared counter and the total weight as the job has read them.
  predicate Exceeded(counter: int, totalWeight: int, job: Job)
    requires counter != 0 && totalWeight != 0
  {
    job.counter as real / counter as real > job.weight as real / totalWeight as real
  }

  function FlowGet(flows: map<FlowId, Flow>, id: FlowId): map<FlowId, Flow> {
    var f := if id in flows then flows[id] else Flow(0, 1, 0);
    flows[id := f.(refs := f.refs + 1)]
  }

  // The job and its group become these.
  function Set(s: State, j: nat, job: Job, f: Flow): State
    requires j < |s.jobs| && s.jobs[j].flow.Some?
  {
    s.(jobs := s.jobs[j := job], flows := s.flows[s.jobs[j].flow.value := f])
  }

  function StepMember(s: State, a: Action): Option<State>
    requires a.j < |s.jobs| && s.jobs[a.j].flow.Some? && s.jobs[a.j].flow.value in s.flows
  {
    var job := s.jobs[a.j];
    var f := s.flows[job.flow.value];
    match a
    case Join(_, _, _) => None
    case AddWeight(j) =>
      if !job.pc.Joining? then None
      else Some(Set(s, j, job.(pc := Ready), f.(totalWeight := f.totalWeight + job.weight)))
    case Load(j) =>
      if !job.pc.Ready? then None else Some(Set(s, j, job.(pc := Loaded(f.counter)), f))
    case Check(j) =>
      if !job.pc.Loaded? || job.pc.seen == 0 || f.totalWeight == 0 then None
      else Some(Set(s, j, job.(pc := if Exceeded(job.pc.seen, f.totalWeight, job) then Ready else Passed), f))
    case Add(j) =>
      if !job.pc.Passed? then None
      else Some(Set(s, j, job.(pc := Counted), f.(counter := f.counter + 1)))
    case Count(j) =>
      if !job.pc.Counted? then None
      else Some(Set(s, j, job.(pc := Ready, counter := job.counter + 1), f))
    case Exit(j) =>
      if !job.pc.Active() || s.lock.Some? then None
      else Some(Set(s, j, job.(pc := Leaving), f.(counter := f.counter - job.counter)).(lock := Some(j)))
    case SubWeight(j) =>
      if !job.pc.Leaving? then None
      else Some(Set(s, j, job.(pc := Removed), f.(totalWeight := f.totalWeight - job.weight)))
    case Release(j) =>
      if !job.pc.Removed? then None
      else
        var out := Set(s, j, job.(pc := Ready, flow := None), f.(refs := f.refs - 1)).(lock := None);
        Some(if f.refs != 1 then out else out.(flows := s.flows - {job.flow.value}, asserted := f.counter == 1))
  }

  function Step(s: State, a: Action): Option<State> {
    if a.j >= |s.jobs| then None
    else if s.jobs[a.j].flow.Some? then
      if s.jobs[a.j].flow.value in s.flows then StepMember(s, a) else None
    else
      match a
      case Join(j, id, weight) =>
        if weight == 0 then Some(s)
        else if s.lock.Some? then None
        else Some(s.(flows := FlowGet(s.flows, id), jobs := s.jobs[j := Job(Some(id), weight, 0, Joining)]))
      case Exit(_) => Some(s)
      case _ => None
  }

  function Exec(s: State, run: seq<Action>): Option<State>
    decreases |run|
  {
    if run == [] then Some(s)
    else match Step(s, run[0])
         case None => None
         case Some(s') => Exec(s', run[1..])
  }

  // ----- sums over a group -----

  // What a job contributes to its group: itself, its weight while it is part of the group's, and
  // the increments it has made to the shared counter and not taken back.
  datatype Measure = Member | Weight | Done

  function Value(job: Job, id: FlowId, m: Measure): (v: int)
  {
    if job.flow != Some(id) then 0
    else match m
         case Member => 1
         case Weight => if job.pc.Joining? || job.pc.Removed? then 0 else job.weight
         case Done => if job.pc.HoldsLock() then 0 else if job.pc.Counted? then job.counter + 1 else job.counter
  }

  function Sum(jobs: seq<Job>, id: FlowId, m: Measure): int {
    if jobs == [] then 0 else Sum(jobs[..|jobs| - 1], id, m) + Value(jobs[|jobs| - 1], id, m)
  }

  lemma {:induction false} SumUpdate(jobs: seq<Job>, j: nat, job: Job, id: FlowId, m: Measure)
    requires j < |jobs|
    ensures Sum(jobs[j := job], id, m) == Sum(jobs, id, m) - Value(jobs[j], id, m) + Value(job, id, m)
  {
    var last := |jobs| - 1;
    var jobs' := jobs[j := job];
    if j == last {
      assert jobs'[..last] == jobs[..last];
    } else {
      assert jobs'[..last] == jobs[..last][j := job];
      SumUpdate(jobs[..last], j, job, id, m);
    }
  }

  lemma {:induction false} SumBounds(jobs: seq<Job>, id: FlowId, j: nat, m: Measure)
    requires j < |jobs|
    requires forall k :: 0 <= k < |jobs| ==> Value(jobs[k], id, m) >= 0
    ensures 0 <= Value(jobs[j], id, m) <= Sum(jobs, id, m)
  {
    SumUpdate(jobs, j, jobs[j].(flow := None), id, m);
    SumNonNegative(jobs[j := jobs[j].(flow := None)], id, m);
  }

  lemma {:induction false} SumNonNegative(jobs: seq<Job>, id: FlowId, m: Measure)
    requires forall k :: 0 <= k < |jobs| ==> Value(jobs[k], id, m) >= 0
    ensures Sum(jobs, id, m) >= 0
  {
    if jobs != [] {
      SumNonNegative(jobs[..|jobs| - 1], id, m);
    }
  }

  lemma {:induction false} SumEmpty(jobs: seq<Job>, id: FlowId, m: Measure)
    requires forall k :: 0 <= k < |jobs| ==> jobs[k].flow != Some(id)
    ensures Sum(jobs, id, m) == 0
  {
    if jobs != [] {
      SumEmpty(jobs[..|jobs| - 1], id, m);
    }
  }

  // ----- conservation: any joins, steps and exits of any groups -----

  ghost predicate FlowOk(s: State, id: FlowId)
    requires id in s.flows
  {
    var f := s.flows[id];
    && f.refs == Sum(s.jobs, id, Member) && f.refs >= 1
    && f.totalWeight == Sum(s.jobs, id, Weight)
    && f.counter >= 1 + Sum(s.jobs, id, Done)
  }

  ghost predicate JobOk(s: State, j: nat)
    requires j < |s.jobs|
  {
    var job := s.jobs[j];
    && (job.flow.Some? ==> job.flow.value in s.flows && job.weight > 0 && job.counter >= 0)
    && (job.flow.Some? && job.pc.Loaded? ==> job.pc.seen >= 1)
    && (job.flow.Some? && job.pc.HoldsLock() <==> s.lock == Some(j))
  }

  ghost predicate Inv(s: State) {
    && (forall id :: id in s.flows ==> FlowOk(s, id))
    && (forall j :: 0 <= j < |s.jobs| ==> JobOk(s, j))
    && (s.lock.Some? ==> s.lock.value < |s.jobs|)
  }

  ghost predicate Init(s: State) {
    s.flows == map[] && s.lock.None? && forall j :: 0 <= j < |s.jobs| ==> s.jobs[j].flow.None?
  }

  lemma InitInv(s: State)
    requires Init(s)
    ensures Inv(s)
  {}

  lemma SumsUpdate(jobs: seq<Job>, j: nat, job: Job, id: FlowId)
    requires j < |jobs|
    ensures forall m :: Sum(jobs[j := job], id, m) == Sum(jobs, id, m) - Value(jobs[j], id, m) + Value(job, id, m)
  {
    forall m
      ensures Sum(jobs[j := job], id, m) == Sum(jobs, id, m) - Value(jobs[j], id, m) + Value(job, id, m)
    {
      SumUpdate(jobs, j, job, id, m);
    }
  }

  lemma ValuesNonNegative(s: State, id: FlowId, m: Measure)
    requires Inv(s)
    ensures forall k :: 0 <= k < |s.jobs| ==> Value(s.jobs[k], id, m) >= 0
  {
    forall k | 0 <= k < |s.jobs|
      ensures Value(s.jobs[k], id, m) >= 0
    {
      assert JobOk(s, k);
    }
  }

  // A live group keeps the shared counter positive, and a member whose weight is part of the
  // group's keeps the total weight positive: the two divisors of the check.
  lemma MembersPositive(s: State, id: FlowId, j: nat)
    requires Inv(s) && j < |s.jobs| && s.jobs[j].flow == Some(id) && id in s.flows
    ensures s.flows[id].counter >= 1 && s.jobs[j].weight > 0
    ensures s.jobs[j].pc.Active() ==> s.jobs[j].weight <= s.flows[id].totalWeight
  {
    assert FlowOk(s, id) && JobOk(s, j);
    ValuesNonNegative(s, id, Weight);
    ValuesNonNegative(s, id, Done);
    SumBounds(s.jobs, id, j, Weight);
    SumNonNegative(s.jobs, id, Done);
  }

  // A group that nobody is in has not been made.
  lemma NoMembers(s: State, id: FlowId, m: Measure)
    requires Inv(s) && id !in s.flows
    ensures Sum(s.jobs, id, m) == 0
  {
    forall k | 0 <= k < |s.jobs|
      ensures s.jobs[k].flow != Some(id)
    {
      assert JobOk(s, k);
    }
    SumEmpty(s.jobs, id, m);
  }

  // A joining job is a member at once, though its weight is still missing.
  lemma JoinInv(s: State, a: Action)
    requires Inv(s) && Step(s, a).Some? && a.Join? && a.weight > 0
    ensures Inv(Step(s, a).value)
  {
    var s' := Step(s, a).value;
    forall id | id in s'.flows
      ensures FlowOk(s', id)
    {
      SumsUpdate(s.jobs, a.j, s'.jobs[a.j], id);
      if id in s.flows {
        assert FlowOk(s, id);
      } else {
        NoMembers(s, id, Member);
        NoMembers(s, id, Weight);
        NoMembers(s, id, Done);
      }
    }
    forall k | 0 <= k < |s'.jobs|
      ensures JobOk(s', k)
    {
      assert JobOk(s, k);
    }
  }

  // A member of the group begins to leave between its two increments.
  predicate HalfExit(s: State, a: Action, id: FlowId) {
    a.Exit? && a.j < |s.jobs| && s.jobs[a.j].flow == Some(id) && s.jobs[a.j].pc.Counted?
  }

  // A member's step changes only itself and its group.
  lemma MemberShape(s: State, a: Action)
    requires Step(s, a).Some? && s.jobs[a.j].flow.Some? && !a.Release?
    ensures var s', job := Step(s, a).value, s.jobs[a.j];
            && s'.jobs == s.jobs[a.j := s'.jobs[a.j]] && s'.jobs[a.j].flow == job.flow
            && s'.jobs[a.j].weight == job.weight && job.flow.value in s'.flows
            && s'.flows == s.flows[job.flow.value := s'.flows[job.flow.value]]
            && s'.flows[job.flow.value].refs == s.flows[job.flow.value].refs
  {}

  lemma MemberJobs(s: State, a: Action, k: nat)
    requires Inv(s) && Step(s, a).Some? && s.jobs[a.j].flow.Some? && !a.Release? && k < |s.jobs|
    ensures |Step(s, a).value.jobs| == |s.jobs| && JobOk(Step(s, a).value, k)
  {
    MembersPositive(s, s.jobs[a.j].flow.value, a.j);
    assert JobOk(s, k) && JobOk(s, a.j);
  }

  // How the group's counter and weight follow the member's contributions.
  lemma MemberFlow(s: State, a: Action)
    requires Inv(s) && Step(s, a).Some? && s.jobs[a.j].flow.Some? && !a.Release?
    ensures var s', id := Step(s, a).value, s.jobs[a.j].flow.value;
            var job, job', f, f' := s.jobs[a.j], s'.jobs[a.j], s.flows[id], s'.flows[id];
            && f'.totalWeight - f.totalWeight == Value(job', id, Weight) - Value(job, id, Weight)
            && f'.counter - f.counter
               == Value(job', id, Done) - Value(job, id, Done) + (if HalfExit(s, a, id) then 1 else 0)
  {
    assert JobOk(s, a.j);
  }

  // A member's step that keeps it in its group.
  lemma MemberInv(s: State, a: Action)
    requires Inv(s) && Step(s, a).Some? && s.jobs[a.j].flow.Some? && !a.Release?
    ensures Inv(Step(s, a).value)
  {
    var s' := Step(s, a).value;
    MemberShape(s, a);
    MemberFlow(s, a);
    forall k | 0 <= k < |s'.jobs|
      ensures JobOk(s', k)
    {
      MemberJobs(s, a, k);
    }
    forall id | id in s'.flows
      ensures FlowOk(s', id)
    {
      SumsUpdate(s.jobs, a.j, s'.jobs[a.j], id);
      assert FlowOk(s, id);
    }
  }

  // The check and the two increments.
  lemma ThresholdInv(s: State, a: Action)
    requires Inv(s) && Step(s, a).Some? && (a.Load? || a.Check? || a.Add? || a.Count?)
    ensures Inv(Step(s, a).value)
  {
    MemberInv(s, a);
  }

  // The last member of a group.
  lemma LastMember(s: State, j: nat, id: FlowId)
    requires Inv(s) && j < |s.jobs| && s.jobs[j].flow == Some(id) && id in s.flows && s.flows[id].refs == 1
    ensures forall k :: 0 <= k < |s.jobs| && k != j ==> s.jobs[k].flow != Some(id)
    ensures Sum(s.jobs, id, Done) == Value(s.jobs[j], id, Done)
  {
    var left := s.jobs[j := s.jobs[j].(flow := None)];
    assert FlowOk(s, id);
    SumsUpdate(s.jobs, j, left[j], id);
    forall k | 0 <= k < |left|
      ensures left[k].flow != Some(id)
    {
      if left[k].flow == Some(id) {
        SumBounds(left, id, k, Member);
      }
    }
    assert forall k :: 0 <= k < |s.jobs| && k != j ==> left[k] == s.jobs[k];
    SumEmpty(left, id, Done);
  }

  lemma ReleaseInv(s: State, a: Action)
    requires Inv(s) && Step(s, a).Some? && a.Release?
    ensures Inv(Step(s, a).value)
  {
    var s', gone := Step(s, a).value, s.jobs[a.j].flow.value;
    assert JobOk(s, a.j);
    forall id | id in s'.flows
      ensures FlowOk(s', id)
    {
      SumsUpdate(s.jobs, a.j, s'.jobs[a.j], id);
      assert FlowOk(s, id);
    }
    if s.flows[gone].refs == 1 {
      LastMember(s, a.j, gone);
    }
    forall k | 0 <= k < |s'.jobs|
      ensures JobOk(s', k)
    {
      assert JobOk(s, k);
    }
  }

  // Leaving, step by step.
  lemma ExitInv(s: State, a: Action)
    requires Inv(s) && Step(s, a).Some? && (a.Exit? || a.SubWeight? || a.Release?)
    ensures Inv(Step(s, a).value)
  {
    if a.Release? {
      ReleaseInv(s, a);
    } else if s.jobs[a.j].flow.Some? {
      MemberInv(s, a);
    }
  }

  lemma StepInv(s: State, a: Action)
    requires Inv(s) && Step(s, a).Some?
    ensures Inv(Step(s, a).value)
  {
    match a
    case Join(_, _, weight) => if weight > 0 { JoinInv(s, a); }
    case AddWeight(_) => MemberInv(s, a);
    case Load(_) => ThresholdInv(s, a);
    case Check(_) => ThresholdInv(s, a);
    case Add(_) => ThresholdInv(s, a);
    case Count(_) => ThresholdInv(s, a);
    case Exit(_) => ExitInv(s, a);
    case SubWeight(_) => ExitInv(s, a);
    case Release(_) => ExitInv(s, a);
  }

  // Between any two steps of any run a group's total weight is the sum of the weights its members
  // have added and not taken off, and its reference count is its size.
  lemma {:induction false} ExecInv(s: State, run: seq<Action>)
    requires Inv(s) && Exec(s, run).Some?
    ensures Inv(Exec(s, run).value)
    ensures |Exec(s, run).value.jobs| == |s.jobs|
    decreases |run|
  {
    if run != [] {
      StepInv(s, run[0]);
      ExecInv(Step(s, run[0]).value, run[1..]);
    }
  }
}
