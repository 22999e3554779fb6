// The purpose of flow control: with a fixed membership each job gets its share of the group's
// progress, whatever the interleaving of the calls of flow_threshold_exceeded.
module FlowShare {
  import opened FlowControl
  import opened FlowProgress
  import opened FlowRuns
  import opened Wrappers

  // No joins and no exits: the group's membership is fixed.
  predicate Steady(run: seq<Action>) {
    forall i :: 0 <= i < |run| ==> Threshold(run[i])
  }

  predicate Threshold(a: Action) {
    a.Load? || a.Check? || a.Add? || a.Count?
  }

  // All members at zero, nobody in flight.
  ghost predicate Fresh(s: State, id: FlowId) {
    && id in s.flows && s.flows[id].counter == 1
    && forall j :: 0 <= j < |s.jobs| && s.jobs[j].flow == Some(id) ==> s.jobs[j].counter == 0 && s.jobs[j].pc.Ready?
  }

  // A member is at most one increment above its share, and not above it once it has passed.
  ghost predicate AtMostShare(s: State, id: FlowId, j: nat)
    requires id in s.flows && j < |s.jobs|
  {
    var f, job := s.flows[id], s.jobs[j];
    job.flow == Some(id) ==>
      && job.pc.Active() && (job.pc.Loaded? ==> job.pc.seen <= f.counter)
      && job.counter * f.totalWeight <= job.weight * f.counter + (if job.pc.AtCheck() then f.totalWeight else 0)
  }

  ghost predicate Shares(s: State, id: FlowId) {
    && Inv(s) && id in s.flows && CounterIs(s, id, 0)
    && forall j :: 0 <= j < |s.jobs| ==> AtMostShare(s, id, j)
  }

  // The group's totals as a step of a check or an increment changes them.
  ghost predicate SameGroup(s: State, s': State, id: FlowId) {
    && id in s.flows && id in s'.flows && |s'.jobs| == |s.jobs|
    && s'.flows[id].totalWeight == s.flows[id].totalWeight
    && s.flows[id].counter <= s'.flows[id].counter <= s.flows[id].counter + 1
    && forall j :: 0 <= j < |s.jobs| ==> s'.jobs[j].flow == s.jobs[j].flow && s'.jobs[j].weight == s.jobs[j].weight
  }

  lemma ShareOne(s: State, a: Action, id: FlowId, j: nat)
    requires Shares(s, id) && Step(s, a).Some? && Threshold(a) && j < |s.jobs|
    requires SameGroup(s, Step(s, a).value, id)
    ensures AtMostShare(Step(s, a).value, id, j)
  {
    var f, f' := s.flows[id], Step(s, a).value.flows[id];
    var job := s.jobs[j];
    assert AtMostShare(s, id, j) && JobOk(s, j);
    if job.flow == Some(id) {
      MembersPositive(s, id, j);
      if j == a.j && a.Check? {
        ExceededProduct(job.pc.seen, f.totalWeight, job);
        ProductMonotone(job.pc.seen, f.counter, job.weight);
        Swap(job.weight, job.pc.seen, f.counter);
      }
      if j == a.j && a.Count? {
        Next(job.counter, f.totalWeight);
      }
      ProductMonotone(f.counter, f'.counter, job.weight);
      Swap(job.weight, f.counter, f'.counter);
    }
  }

  lemma Swap(w: int, a: int, b: int)
    ensures w * a == a * w && w * b == b * w
  {}

  lemma Next(c: int, W: int)
    ensures (c + 1) * W == c * W + W
  {}

  lemma ShareStep(s: State, a: Action, id: FlowId)
    requires Shares(s, id) && Step(s, a).Some? && Threshold(a)
    ensures Shares(Step(s, a).value, id) && SameGroup(s, Step(s, a).value, id)
    ensures Sum(Step(s, a).value.jobs, id, Member) == Sum(s.jobs, id, Member)
  {
    var s' := Step(s, a).value;
    ThresholdInv(s, a);
    CounterStep(s, a, id, 0);
    SumsUpdate(s.jobs, a.j, s'.jobs[a.j], id);
    forall j | 0 <= j < |s'.jobs|
      ensures AtMostShare(s', id, j)
    {
      ShareOne(s, a, id, j);
    }
  }

  lemma {:induction false} SharesForever(s: State, run: seq<Action>, id: FlowId)
    requires Shares(s, id) && Steady(run) && Exec(s, run).Some?
    ensures Shares(Exec(s, run).value, id)
    ensures Sum(Exec(s, run).value.jobs, id, Member) == Sum(s.jobs, id, Member)
    decreases |run|
  {
    if run != [] {
      assert Threshold(run[0]);
      ShareStep(s, run[0], id);
      SharesForever(Step(s, run[0]).value, run[1..], id);
    }
  }

  // The other members' increments are bounded by their shares plus one each.
  lemma {:induction false} OthersAtMost(jobs: seq<Job>, id: FlowId, F: int, W: int)
    requires W >= 0
    requires forall k :: 0 <= k < |jobs| && jobs[k].flow == Some(id) ==>
                           Value(jobs[k], id, Done) * W <= Value(jobs[k], id, Weight) * F + W
    ensures Sum(jobs, id, Done) * W <= Sum(jobs, id, Weight) * F + Sum(jobs, id, Member) * W
  {
    if jobs != [] {
      var rest, job := jobs[..|jobs| - 1], jobs[|jobs| - 1];
      OthersAtMost(rest, id, F, W);
      AddShares(Sum(rest, id, Done), Sum(rest, id, Weight), Sum(rest, id, Member),
                Value(job, id, Done), Value(job, id, Weight), Value(job, id, Member), F, W);
    }
  }

  lemma AddShares(D: int, X: int, M: int, d: int, w: int, m: int, F: int, W: int)
    requires D * W <= X * F + M * W && d * W <= w * F + m * W
    ensures (D + d) * W <= (X + w) * F + (M + m) * W
  {
    assert (D + d) * W == D * W + d * W && (X + w) * F == X * F + w * F && (M + m) * W == M * W + m * W;
  }

  lemma AtLeastShare(s: State, id: FlowId, j: nat)
    requires Shares(s, id) && j < |s.jobs| && s.jobs[j].flow == Some(id)
    ensures var f := s.flows[id];
            Value(s.jobs[j], id, Done) * f.totalWeight
            >= s.jobs[j].weight * f.counter - Sum(s.jobs, id, Member) * f.totalWeight
  {
    var f, job := s.flows[id], s.jobs[j];
    var W, F := f.totalWeight, f.counter;
    assert FlowOk(s, id) && AtMostShare(s, id, j);
    MembersPositive(s, id, j);
    var others := s.jobs[j := job.(flow := None)];
    SumsUpdate(s.jobs, j, job.(flow := None), id);
    forall k | 0 <= k < |others| && others[k].flow == Some(id)
      ensures Value(others[k], id, Done) * W <= Value(others[k], id, Weight) * F + W
    {
      assert AtMostShare(s, id, k);
      Next(s.jobs[k].counter, W);
    }
    OthersAtMost(others, id, F, W);
    Remainder(Value(job, id, Done), F, W, job.weight, Sum(s.jobs, id, Member));
  }

  lemma Remainder(d: int, F: int, W: int, w: int, n: int)
    requires (F - 1 - d) * W <= (W - w) * F + (n - 1) * W
    ensures d * W >= w * F - n * W
  {
    assert (F - 1 - d) * W == F * W - W - d * W;
    assert (W - w) * F == F * W - w * F;
    assert (n - 1) * W == n * W - W;
  }

  // c increments counted by the job and d made in all, against the share w*F/W of n members.
  predicate NearShare(c: int, d: int, w: int, F: int, W: int, n: int)
  {
    && W > 0
    && c as real <= w as real * F as real / W as real + 1.0
    && d as real >= w as real * F as real / W as real - n as real
  }

  lemma SharesReal(s: State, id: FlowId, j: nat)
    requires Shares(s, id) && j < |s.jobs| && s.jobs[j].flow == Some(id)
    ensures NearShare(s.jobs[j].counter, Value(s.jobs[j], id, Done), s.jobs[j].weight,
                      s.flows[id].counter, s.flows[id].totalWeight, Sum(s.jobs, id, Member))
  {
    var f, job := s.flows[id], s.jobs[j];
    AtLeastShare(s, id, j);
    assert AtMostShare(s, id, j);
    MembersPositive(s, id, j);
    RealShare(job.counter, Value(job, id, Done), job.weight, f.counter, f.totalWeight, Sum(s.jobs, id, Member));
  }

  lemma FreshShares(s: State, id: FlowId)
    requires Inv(s) && Fresh(s, id)
    ensures Shares(s, id) && s.flows[id].refs == Sum(s.jobs, id, Member)
  {
    assert FlowOk(s, id);
    ValuesNonNegative(s, id, Done);
    SumNonNegative(s.jobs, id, Done);
    forall k | 0 <= k < |s.jobs|
      ensures AtMostShare(s, id, k)
    {
      if s.jobs[k].flow == Some(id) {
        MembersPositive(s, id, k);
        ProductMonotone(0, s.jobs[k].weight, 1);
      }
    }
  }

  // PROPORTIONAL SHARE: after any interleaving of a fixed membership of n jobs starting from
  // zero, each member's counter is within w*F/W - n and w*F/W + 1; a member caught between its
  // two increments is one lower.
  lemma ProportionalShare(s0: State, run: seq<Action>, id: FlowId, j: nat)
    requires Inv(s0) && Fresh(s0, id) && Steady(run) && Exec(s0, run).Some?
    requires j < |Exec(s0, run).value.jobs| && Exec(s0, run).value.jobs[j].flow == Some(id)
    ensures var s := Exec(s0, run).value;
            && id in s.flows
            && var f, job, n := s.flows[id], s.jobs[j], s0.flows[id].refs;
               NearShare(job.counter, if job.pc.Counted? then job.counter + 1 else job.counter,
                         job.weight, f.counter, f.totalWeight, n)
  {
    FreshShares(s0, id);
    SharesForever(s0, run, id);
    assert AtMostShare(Exec(s0, run).value, id, j);
    SharesReal(Exec(s0, run).value, id, j);
  }

  lemma RealShare(c: int, d: int, w: nat, F: int, W: int, n: int)
    requires W > 0 && c * W <= w * F + W && d * W >= w * F - n * W
    ensures NearShare(c, d, w, F, W, n)
  {
    ShareDivide(c, w * F, W, 1);
    assert (-d) * W == -(d * W);
    ShareDivide(-d, -(w * F), W, n);
    assert (w * F) as real == w as real * F as real;
    var P, V := (w * F) as real, W as real;
    assert (-P) / V == -(P / V);
  }

  lemma ShareDivide(c: int, p: int, W: int, n: int)
    requires W > 0 && c * W <= p + n * W
    ensures c as real <= p as real / W as real + n as real
  {
    var q := p as real / W as real;
    assert q * W as real == p as real;
    assert (c - n) * W <= p;
    assert ((c - n) * W) as real == (c - n) as real * W as real;
    if (c - n) as real > q {
      assert (c - n) as real * W as real > q * W as real;
    }
  }
}
