// The shared counter of a flow group along whole runs, and the assert of flow_put about it.
module FlowRuns {
  import opened FlowControl
  import opened Wrappers

  // The half exits of a group along a run since the group was made (HalfExit: a member begins to
  // leave between its two increments), after n of them before the run.
  function HalfExits(s: State, run: seq<Action>, id: FlowId, n: nat): nat
    decreases |run|
  {
    if run == [] || Step(s, run[0]).None? then n
    else
      var s' := Step(s, run[0]).value;
      HalfExits(s', run[1..], id, if id !in s'.flows then 0 else if HalfExit(s, run[0], id) then n + 1 else n)
  }

  ghost predicate CounterIs(s: State, id: FlowId, n: nat) {
    if id in s.flows then s.flows[id].counter == 1 + Sum(s.jobs, id, Done) + n else n == 0
  }

  lemma CounterStep(s: State, a: Action, id: FlowId, n: nat)
    requires Inv(s) && CounterIs(s, id, n) && Step(s, a).Some?
    ensures var s' := Step(s, a).value;
            CounterIs(s', id, if id !in s'.flows then 0 else if HalfExit(s, a, id) then n + 1 else n)
  {
    if s.jobs[a.j].flow.None? {
      CounterOutside(s, a, id, n);
    } else if a.Release? {
      CounterRelease(s, a, id, n);
    } else {
      var s' := Step(s, a).value;
      MemberShape(s, a);
      MemberFlow(s, a);
      SumUpdate(s.jobs, a.j, s'.jobs[a.j], id, Done);
    }
  }

  lemma CounterOutside(s: State, a: Action, id: FlowId, n: nat)
    requires Inv(s) && CounterIs(s, id, n) && Step(s, a).Some? && s.jobs[a.j].flow.None?
    ensures CounterIs(Step(s, a).value, id, n)
  {
    var s' := Step(s, a).value;
    if s'.jobs != s.jobs {
      SumUpdate(s.jobs, a.j, s'.jobs[a.j], id, Done);
      if id !in s.flows {
        NoMembers(s, id, Done);
      }
    }
  }

  lemma CounterRelease(s: State, a: Action, id: FlowId, n: nat)
    requires Inv(s) && CounterIs(s, id, n) && Step(s, a).Some? && a.Release? && s.jobs[a.j].flow.Some?
    ensures CounterIs(Step(s, a).value, id, if id !in Step(s, a).value.flows then 0 else n)
  {
    SumUpdate(s.jobs, a.j, Step(s, a).value.jobs[a.j], id, Done);
  }

  lemma {:induction false} CounterRun(s: State, run: seq<Action>, id: FlowId, n: nat)
    requires Inv(s) && CounterIs(s, id, n) && Exec(s, run).Some?
    ensures Inv(Exec(s, run).value) && CounterIs(Exec(s, run).value, id, HalfExits(s, run, id, n))
    decreases |run|
  {
    if run != [] {
      var s' := Step(s, run[0]).value;
      StepInv(s, run[0]);
      CounterStep(s, run[0], id, n);
      CounterRun(s', run[1..], id, if id !in s'.flows then 0 else if HalfExit(s, run[0], id) then n + 1 else n);
    }
  }

  // CONSERVATION: in every reachable state each group's shared counter is 1 plus its members'
  // increments plus one for each member that began to leave between its two increments, its total
  // weight is the sum of its members' weights (without those of members just joining or just off),
  // and its reference count is its size.
  lemma Conservation(s0: State, run: seq<Action>, id: FlowId)
    requires Init(s0) && Exec(s0, run).Some? && id in Exec(s0, run).value.flows
    ensures var s := Exec(s0, run).value;
            && s.flows[id].refs == Sum(s.jobs, id, Member) >= 1
            && s.flows[id].totalWeight == Sum(s.jobs, id, Weight)
            && s.flows[id].counter == 1 + Sum(s.jobs, id, Done) + HalfExits(s0, run, id, 0)
  {
    InitInv(s0);
    CounterRun(s0, run, id, 0);
    assert FlowOk(Exec(s0, run).value, id);
  }

  // The assert of flow_put, which runs as the last member gives up its reference, holds if and only
  // if no member began to leave between its two increments since the group was made.
  lemma AssertIff(s0: State, run: seq<Action>, j: nat)
    requires Init(s0) && Exec(s0, run).Some? && Step(Exec(s0, run).value, Release(j)).Some?
    requires Exec(s0, run).value.flows[Exec(s0, run).value.jobs[j].flow.value].refs == 1
    ensures var s := Exec(s0, run).value;
            var id, s' := s.jobs[j].flow.value, Step(s, Release(j)).value;
            id !in s'.flows && (s'.asserted <==> HalfExits(s0, run, id, 0) == 0)
  {
    var s := Exec(s0, run).value;
    InitInv(s0);
    CounterRun(s0, run, s.jobs[j].flow.value, 0);
    LastMember(s, j, s.jobs[j].flow.value);
  }

  lemma Run2(s: State, a: Action, b: Action) returns (s': State)
    requires Step(s, a).Some? && Step(Step(s, a).value, b).Some?
    ensures Exec(s, [a, b]) == Some(s') && Step(Step(s, a).value, b) == Some(s')
  {
    s' := Step(Step(s, a).value, b).value;
    assert [a, b][1..] == [b] && [b][1..] == [];
    assert Exec(Step(s, a).value, [b]) == Some(s');
  }

  lemma {:induction false} ExecThen(s: State, run: seq<Action>, a: Action)
    requires Exec(s, run).Some?
    ensures Exec(s, run + [a]) == Step(Exec(s, run).value, a)
    decreases |run|
  {
    if run == [] {
      assert run + [a] == [a];
    } else {
      assert (run + [a])[1..] == run[1..] + [a];
      ExecThen(Step(s, run[0]).value, run[1..], a);
    }
  }
}
