// What the calls of a run say about a flow group: who is a member and with which weight, and the
// members' shares in the increments.  Nothing here looks at the fields the steps keep.
module FlowEvents {
  import opened FlowControl
  import opened FlowProgress
  import opened FlowRuns
  import opened FlowShare
  import opened Wrappers

  // A job's membership as its calls tell it: the group and the weight of its last join, and how often
  // it has raised the group's counter and its own since.
  datatype Entry = Entry(id: FlowId, weight: nat, adds: nat, counts: nat)

  function Post(e: Option<Entry>, a: Action, j: nat): Option<Entry> {
    if a.j != j then e
    else match a
         case Join(_, id, weight) => if weight == 0 then e else Some(Entry(id, weight, 0, 0))
         case Add(_) => if e.None? then None else Some(e.value.(adds := e.value.adds + 1))
         case Count(_) => if e.None? then None else Some(e.value.(counts := e.value.counts + 1))
         case Release(_) => None
         case _ => e
  }

  function Ledger(e: Option<Entry>, run: seq<Action>, j: nat): Option<Entry>
    decreases |run|
  {
    if run == [] then e else Ledger(Post(e, run[0], j), run[1..], j)
  }

  // The job is as its calls tell.
  predicate Agrees(job: Job, e: Option<Entry>) {
    match e
    case None => job.flow.None?
    case Some(entry) =>
      && job.flow == Some(entry.id) && job.weight == entry.weight && job.counter == entry.counts
      && (!job.pc.HoldsLock() ==> entry.adds == entry.counts + if job.pc.Counted? then 1 else 0)
  }

  lemma PostAgrees(s: State, a: Action, j: nat, e: Option<Entry>)
    requires Step(s, a).Some? && j < |s.jobs| && Agrees(s.jobs[j], e)
    ensures |Step(s, a).value.jobs| == |s.jobs| && Agrees(Step(s, a).value.jobs[j], Post(e, a, j))
  {}

  // MEMBERSHIP FROM THE CALLS: after any run a job is in the group it last joined, with the weight it
  // asked for, unless it has left it since; and its counter is the number of increments it has made.
  lemma {:induction false} LedgerExact(s: State, run: seq<Action>, j: nat, e: Option<Entry>)
    requires Exec(s, run).Some? && j < |s.jobs| && Agrees(s.jobs[j], e)
    ensures |Exec(s, run).value.jobs| == |s.jobs|
    ensures Agrees(Exec(s, run).value.jobs[j], Ledger(e, run, j))
    decreases |run|
  {
    if run != [] {
      PostAgrees(s, run[0], j, e);
      LedgerExact(Step(s, run[0]).value, run[1..], j, Post(e, run[0], j));
    }
  }

  // While a job is leaving, with the lock held, no other job can join a group or begin to leave one.
  lemma LockExcludes(s: State, a: Action)
    requires Inv(s) && s.lock.Some? && Step(s, a).Some?
    ensures a.Join? ==> a.weight == 0
    ensures a.Exit? ==> s.jobs[a.j].flow.None?
    ensures a.SubWeight? || a.Release? ==> s.lock == Some(a.j)
  {
    assert JobOk(s, a.j);
  }

  // ----- a group's totals -----

  // What job k adds to the totals of group id: one member, the weight it asked for, and the increments
  // it makes to the group's counter in a run that follows the joins.
  function Part(joins: seq<Action>, run: seq<Action>, k: nat, id: FlowId, m: Measure): nat {
    var e := Ledger(None, joins, k);
    if e.None? || e.value.id != id then 0
    else match m
         case Member => 1
         case Weight => e.value.weight
         case Done => Times(run, Add(k))
  }

  function Total(joins: seq<Action>, run: seq<Action>, n: nat, id: FlowId, m: Measure): nat {
    if n == 0 then 0 else Total(joins, run, n - 1, id, m) + Part(joins, run, n - 1, id, m)
  }

  lemma {:induction false} SumIsTotal(jobs: seq<Job>, joins: seq<Action>, run: seq<Action>, id: FlowId, m: Measure)
    requires forall k :: 0 <= k < |jobs| ==> Value(jobs[k], id, m) == Part(joins, run, k, id, m)
    ensures Sum(jobs, id, m) == Total(joins, run, |jobs|, id, m)
  {
    if jobs != [] {
      SumIsTotal(jobs[..|jobs| - 1], joins, run, id, m);
    }
  }

  function Times(run: seq<Action>, a: Action): nat {
    multiset(run)[a]
  }

  lemma TimesNext(run: seq<Action>, a: Action)
    requires run != []
    ensures Times(run, a) == Times(run[1..], a) + if run[0] == a then 1 else 0
  {
    assert run == [run[0]] + run[1..];
  }

  // A job's part in a check or an increment.
  lemma SteadyStep(s: State, a: Action, k: nat, id: FlowId)
    requires Step(s, a).Some? && Threshold(a) && k < |s.jobs|
    ensures |Step(s, a).value.jobs| == |s.jobs|
    ensures var job, job' := s.jobs[k], Step(s, a).value.jobs[k];
            && job'.flow == job.flow && job'.weight == job.weight
            && (job.pc.Active() ==> job'.pc.Active())
            && (job.flow == Some(id) && job.pc.Active() ==>
                  && Value(job', id, Done) == Value(job, id, Done) + (if a == Add(k) then 1 else 0)
                  && job'.counter == job.counter + (if a == Count(k) then 1 else 0))
  {}

  lemma {:induction false} SteadyMember(s: State, run: seq<Action>, k: nat, id: FlowId)
    requires Exec(s, run).Some? && Steady(run) && k < |s.jobs|
    ensures |Exec(s, run).value.jobs| == |s.jobs|
    ensures var job, job' := s.jobs[k], Exec(s, run).value.jobs[k];
            && job'.flow == job.flow && job'.weight == job.weight
            && (job.pc.Active() ==> job'.pc.Active())
            && (job.flow == Some(id) && job.pc.Active() ==>
                  && Value(job', id, Done) == Value(job, id, Done) + Times(run, Add(k))
                  && job'.counter == job.counter + Times(run, Count(k)))
    decreases |run|
  {
    if run != [] {
      assert Threshold(run[0]);
      SteadyStep(s, run[0], k, id);
      TimesNext(run, Add(k));
      TimesNext(run, Count(k));
      SteadyMember(Step(s, run[0]).value, run[1..], k, id);
    }
  }

  lemma FreshPart(s0: State, joins: seq<Action>, s1: State, run: seq<Action>, k: nat, id: FlowId)
    requires Init(s0) && Exec(s0, joins) == Some(s1) && Fresh(s1, id) && Steady(run) && Exec(s1, run).Some?
    requires k < |s0.jobs|
    ensures k < |s1.jobs| == |Exec(s1, run).value.jobs|
    ensures forall m :: Value(Exec(s1, run).value.jobs[k], id, m) == Part(joins, run, k, id, m)
    ensures Exec(s1, run).value.jobs[k].flow == s1.jobs[k].flow
    ensures s1.jobs[k].flow == Some(id) ==>
              var job := Exec(s1, run).value.jobs[k];
              && Ledger(None, joins, k).Some? && job.weight == Ledger(None, joins, k).value.weight
              && job.counter == Times(run, Count(k)) && job.pc.Active()
  {
    LedgerExact(s0, joins, k, None);
    SteadyMember(s1, run, k, id);
  }

  // PROPORTIONAL SHARE, from the calls alone: jobs join, and then only check and increment.  Of the F - 1
  // increments that the members make to the group's counter, with weights that add up to W, a member
  // that asked for weight w has made between w*F/W - n and w*F/W + 1.
  lemma SharesOfAsked(s0: State, joins: seq<Action>, run: seq<Action>, id: FlowId, j: nat)
    requires Init(s0) && Exec(s0, joins).Some? && Fresh(Exec(s0, joins).value, id)
    requires Steady(run) && Exec(Exec(s0, joins).value, run).Some?
    requires j < |s0.jobs| && Ledger(None, joins, j).Some? && Ledger(None, joins, j).value.id == id
    ensures var n := |s0.jobs|;
            NearShare(Times(run, Count(j)), Times(run, Add(j)), Ledger(None, joins, j).value.weight,
                      1 + Total(joins, run, n, id, Done), Total(joins, run, n, id, Weight), Total(joins, run, n, id, Member))
  {
    var s1 := Exec(s0, joins).value;
    var s := Exec(s1, run).value;
    InitInv(s0);
    ExecInv(s0, joins);
    FreshShares(s1, id);
    SharesForever(s1, run, id);
    LedgerExact(s0, joins, j, None);
    FreshPart(s0, joins, s1, run, j, id);
    assert Value(s.jobs[j], id, Done) == Times(run, Add(j));
    GroupTotals(s0, joins, run, id);
    SharesReal(s, id, j);
  }

  lemma GroupTotals(s0: State, joins: seq<Action>, run: seq<Action>, id: FlowId)
    requires Init(s0) && Exec(s0, joins).Some? && Fresh(Exec(s0, joins).value, id)
    requires Steady(run) && Exec(Exec(s0, joins).value, run).Some?
    requires Shares(Exec(Exec(s0, joins).value, run).value, id)
    ensures var s, n := Exec(Exec(s0, joins).value, run).value, |s0.jobs|;
            && s.flows[id].counter == 1 + Total(joins, run, n, id, Done)
            && s.flows[id].totalWeight == Total(joins, run, n, id, Weight)
            && Sum(s.jobs, id, Member) == Total(joins, run, n, id, Member)
  {
    var s1 := Exec(s0, joins).value;
    var s := Exec(s1, run).value;
    InitInv(s0);
    ExecInv(s0, joins);
    ExecInv(s1, run);
    assert FlowOk(s, id);
    forall m
      ensures Sum(s.jobs, id, m) == Total(joins, run, |s0.jobs|, id, m)
    {
      forall k | 0 <= k < |s.jobs|
        ensures Value(s.jobs[k], id, m) == Part(joins, run, k, id, m)
      {
        FreshPart(s0, joins, s1, run, k, id);
      }
      SumIsTotal(s.jobs, joins, run, id, m);
    }
  }
}
