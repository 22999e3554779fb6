// The functions of flow.c as one thread runs them when nobody interrupts it.
module FlowCalls {
  import opened FlowControl
  import opened FlowRuns
  import opened Wrappers

  // Job j is over its share.
  predicate Over(s: State, j: nat) {
    j < |s.jobs| && s.jobs[j].flow.Some? && s.jobs[j].flow.value in s.flows
    && var f := s.flows[s.jobs[j].flow.value];
       f.counter != 0 && f.totalWeight != 0 && Exceeded(f.counter, f.totalWeight, s.jobs[j])
  }

  // Both counters raised by one.
  function Passing(s: State, j: nat): State {
    if j < |s.jobs| && s.jobs[j].flow.Some? && s.jobs[j].flow.value in s.flows then
      var id, job := s.jobs[j].flow.value, s.jobs[j];
      Set(s, j, job.(counter := job.counter + 1), s.flows[id].(counter := s.flows[id].counter + 1))
    else s
  }

  // A call of flow_threshold_exceeded that is not interrupted.
  function CallOf(s: State, j: nat): seq<Action> {
    if Over(s, j) then [Load(j), Check(j)] else [Load(j), Check(j)] + [Add(j)] + [Count(j)]
  }

  // Its steps leave a job over its share alone, and otherwise raise both counters.
  lemma PassingInv(s: State, j: nat)
    requires Inv(s) && j < |s.jobs| && s.jobs[j].flow.Some? && s.jobs[j].pc.Ready?
    ensures Exec(s, CallOf(s, j)) == Some(if Over(s, j) then s else Passing(s, j))
    ensures Inv(if Over(s, j) then s else Passing(s, j))
  {
    assert JobOk(s, j);
    MembersPositive(s, s.jobs[j].flow.value, j);
    var s2 := Run2(s, Load(j), Check(j));
    if Over(s, j) {
      assert s2 == s;
    } else {
      ExecThen(s, [Load(j), Check(j)], Add(j));
      ExecThen(s, [Load(j), Check(j)] + [Add(j)], Count(j));
      var s4 := Step(Step(s2, Add(j)).value, Count(j)).value;
      assert s4.jobs == Passing(s, j).jobs;
      assert s4.flows == Passing(s, j).flows;
    }
    ExecInv(s, CallOf(s, j));
  }

  // A job that has joined: a member with the weight asked for and nothing counted, the group's weight
  // raised by that much and its references by one.
  function Joined(s: State, j: nat, id: FlowId, weight: nat): State
    requires j < |s.jobs|
  {
    var f := if id in s.flows then s.flows[id] else Flow(0, 1, 0);
    State(s.flows[id := Flow(f.refs + 1, f.counter, f.totalWeight + weight)],
          s.jobs[j := Job(Some(id), weight, 0, Ready)], s.lock, s.asserted)
  }

  // The two steps of a call of flow_init_job that is not interrupted.
  lemma JoinSteps(s: State, j: nat, id: FlowId, weight: nat)
    requires j < |s.jobs| && s.jobs[j].flow.None? && s.lock.None? && weight > 0
    ensures Step(s, Join(j, id, weight)).Some?
    ensures Step(Step(s, Join(j, id, weight)).value, AddWeight(j)) == Some(Joined(s, j, id, weight))
    ensures Exec(s, [Join(j, id, weight), AddWeight(j)]) == Some(Joined(s, j, id, weight))
  {
    var s1 := Step(s, Join(j, id, weight)).value;
    var s2 := Step(s1, AddWeight(j)).value;
    assert s2.jobs == Joined(s, j, id, weight).jobs && s2.flows == Joined(s, j, id, weight).flows;
    var _ := Run2(s, Join(j, id, weight), AddWeight(j));
  }

  // A member gone from its group, after its counter was taken off.
  function Gone(s: State, j: nat, counter: int): State
    requires j < |s.jobs| && s.jobs[j].flow.Some? && s.jobs[j].flow.value in s.flows
  {
    var job := s.jobs[j];
    var id, f := job.flow.value, s.flows[job.flow.value];
    var jobs := s.jobs[j := job.(pc := Ready, flow := None)];
    if f.refs == 1 then State(s.flows - {id}, jobs, None, f.counter - counter == 1)
    else State(s.flows[id := Flow(f.refs - 1, f.counter - counter, f.totalWeight - job.weight)], jobs, None, s.asserted)
  }

  lemma LastSteps(s: State, j: nat)
    requires j < |s.jobs| && s.jobs[j].flow.Some? && s.jobs[j].flow.value in s.flows && s.jobs[j].pc.Leaving?
    ensures Step(s, SubWeight(j)).Some? && Step(Step(s, SubWeight(j)).value, Release(j)) == Some(Gone(s, j, 0))
  {
    var s' := Step(Step(s, SubWeight(j)).value, Release(j)).value;
    assert s'.jobs == Gone(s, j, 0).jobs;
    assert s'.flows == Gone(s, j, 0).flows;
  }

  // The three steps of an exit that is not interrupted.
  lemma ExitSteps(s: State, j: nat)
    requires Inv(s) && j < |s.jobs| && s.jobs[j].flow.Some? && s.jobs[j].pc.Active() && s.lock.None?
    ensures s.jobs[j].flow.value in s.flows
    ensures Exec(s, [Exit(j)] + [SubWeight(j)] + [Release(j)]) == Some(Gone(s, j, s.jobs[j].counter))
    ensures Inv(Gone(s, j, s.jobs[j].counter))
  {
    assert JobOk(s, j);
    var s1 := Step(s, Exit(j)).value;
    LastSteps(s1, j);
    SameGone(s, s1, j);
    assert [Exit(j)][1..] == [] && Exec(s, [Exit(j)]) == Some(s1);
    ExecThen(s, [Exit(j)], SubWeight(j));
    ExecThen(s, [Exit(j)] + [SubWeight(j)], Release(j));
    ExecInv(s, [Exit(j)] + [SubWeight(j)] + [Release(j)]);
  }

  lemma SameGone(s: State, s1: State, j: nat)
    requires j < |s.jobs| && s.jobs[j].flow.Some? && s.jobs[j].flow.value in s.flows && Step(s, Exit(j)) == Some(s1)
    ensures j < |s1.jobs| && s1.jobs[j].flow == s.jobs[j].flow && s.jobs[j].flow.value in s1.flows
    ensures Gone(s1, j, 0) == Gone(s, j, s.jobs[j].counter)
  {
    assert Gone(s1, j, 0).jobs == Gone(s, j, s.jobs[j].counter).jobs;
    assert Gone(s1, j, 0).flows == Gone(s, j, s.jobs[j].counter).flows;
  }

  class FlowTable {
    var flows: map<FlowId, Flow>
    var jobs: seq<Job>
    var lock: Option<nat>
    var asserted: bool

    ghost function View(): State
      reads this
    {
      State(flows, jobs, lock, asserted)
    }

    ghost predicate Valid()
      reads this
    {
      Inv(View())
    }

    // flow_init, for jobs that are not in a group yet
    constructor (jobs: seq<Job>)
      requires forall j :: 0 <= j < |jobs| ==> jobs[j].flow.None?
      ensures Valid() && Init(View()) && this.jobs == jobs
    {
      flows, lock, asserted := map[], None, true;
      this.jobs := jobs;
    }

    // flow_threshold_exceeded without interruption: the job stalls exactly when it is over its
    // share, and otherwise raises both counters.
    method ThresholdExceeded(j: nat) returns (stall: bool)
      requires Valid() && j < |jobs| && (jobs[j].flow.Some? ==> jobs[j].pc.Ready?)
      modifies this`flows, this`jobs
      ensures Valid()
      ensures stall <==> old(Over(View(), j))
      ensures View() == if stall || old(jobs[j]).flow.None? then old(View()) else Passing(old(View()), j)
      ensures old(jobs[j]).flow.Some? ==> Exec(old(View()), CallOf(old(View()), j)) == Some(View())
    {
      if jobs[j].flow.None? {
        return false;
      }
      var id := jobs[j].flow.value;
      assert JobOk(View(), j);
      MembersPositive(View(), id, j);
      PassingInv(View(), j);
      var counterRatio := jobs[j].counter as real / flows[id].counter as real;
      var weightRatio := jobs[j].weight as real / flows[id].totalWeight as real;
      if counterRatio > weightRatio {
        return true;
      }
      flows := flows[id := flows[id].(counter := flows[id].counter + 1)];
      jobs := jobs[j := jobs[j].(counter := jobs[j].counter + 1)];
      return false;
    }

    // flow_get
    method Get(id: FlowId)
      modifies this`flows
      ensures flows == FlowGet(old(flows), id)
    {
      if id !in flows {
        flows := flows[id := Flow(0, 1, 0)];
      }
      flows := flows[id := flows[id].(refs := flows[id].refs + 1)];
    }

    // flow_init_job: the job joins with exactly the weight it asks for, in two steps that the caller
    // sees as one.  A new group starts with its counter at 1; another job or group is not touched.
    method InitJob(j: nat, id: FlowId, weight: nat)
      requires Valid() && j < |jobs| && jobs[j].flow.None? && lock.None?
      modifies this`flows, this`jobs
      ensures Valid()
      ensures Exec(old(View()), if weight == 0 then [] else [Join(j, id, weight), AddWeight(j)]) == Some(View())
      ensures View() == if weight == 0 then old(View()) else Joined(old(View()), j, id, weight)
    {
      if weight != 0 {
        ghost var s := View();
        ghost var s' := Run2(s, Join(j, id, weight), AddWeight(j));
        JoinSteps(s, j, id, weight);
        ExecInv(s, [Join(j, id, weight), AddWeight(j)]);
        Get(id);
        jobs := jobs[j := Job(Some(id), weight, 0, Ready)];
        flows := flows[id := flows[id].(totalWeight := flows[id].totalWeight + weight)];
        assert View() == s';
      }
    }

    // flow_put, for the counter and weight of a leaving job
    method Put(id: FlowId, counter: int, weight: nat)
      requires id in flows
      modifies this`flows, this`asserted
      ensures var f := old(flows)[id];
              if f.refs == 1 then flows == old(flows) - {id} && asserted == (f.counter - counter == 1)
              else flows == old(flows)[id := Flow(f.refs - 1, f.counter - counter, f.totalWeight - weight)] && asserted == old(asserted)
    {
      flows := flows[id := flows[id].(counter := flows[id].counter - counter)];
      flows := flows[id := flows[id].(totalWeight := flows[id].totalWeight - weight)];
      flows := flows[id := flows[id].(refs := flows[id].refs - 1)];
      if flows[id].refs == 0 {
        asserted := flows[id].counter == 1;
        flows := flows - {id};
      }
    }

    // flow_exit_job
    method ExitJob(j: nat)
      requires Valid() && j < |jobs| && lock.None? && (jobs[j].flow.Some? ==> jobs[j].pc.Active())
      modifies this`flows, this`jobs, this`asserted
      ensures Valid()
      ensures Exec(old(View()), if old(jobs[j]).flow.None? then [] else [Exit(j)] + [SubWeight(j)] + [Release(j)]) == Some(View())
    {
      if jobs[j].flow.Some? {
        ghost var s := View();
        var id := jobs[j].flow.value;
        ExitSteps(s, j);
        Put(id, jobs[j].counter, jobs[j].weight);
        jobs := jobs[j := jobs[j].(pc := Ready, flow := None)];
        assert View() == Gone(s, j, s.jobs[j].counter);
      }
    }
  }
}
