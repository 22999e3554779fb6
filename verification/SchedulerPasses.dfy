// One pass of run_threads: what it creates it waits for and starts, before it reaps.
module SchedulerPasses {
  import opened JobTable
  import opened Scheduler
  import opened Wrappers

  // The created and not yet released jobs, told from where the pass is: the map holds just those the
  // creating loop has created, the wait leaves none that is not set up, and the starting loop leaves
  // none behind.
  ghost predicate PassOk(s: State) {
    match s.pc
    case Scan(_, map_) => forall j :: 0 <= j < |s.jobs| && In(s.jobs[j].st, Started) ==> j in map_
    case WaitInit(left) => forall j :: 0 <= j < |s.jobs| && s.jobs[j].st == Created ==> j in left
    case Release(i) => forall j :: 0 <= j < |s.jobs| && In(s.jobs[j].st, Started) ==> s.jobs[j].st == Initialized && i <= j
    case Reap(_) => forall j :: 0 <= j < |s.jobs| ==> !In(s.jobs[j].st, Started)
    case Finished => forall j :: 0 <= j < |s.jobs| ==> !In(s.jobs[j].st, Started)
  }

  lemma PassStep(s: State, a: Action)
    requires PassOk(s) && Step(s, a).Some?
    ensures PassOk(Step(s, a).value)
  {
    var s' := Step(s, a).value;
    if a.Poll? {
      var left, left' := s.pc.left, s'.pc.left;
      forall j | 0 <= j < |s.jobs| && s.jobs[j].st == Created
        ensures j in left'
      {
        var k :| 0 <= k < |left| && left[k] == j;
        assert left'[if k < a.k then k else k - 1] == j;
      }
    } else if a.Sched? && s.pc.Scan? && s.pc.i < |s.jobs| {
      assert s'.pc.Scan? ==> s'.pc.map_ == s.pc.map_ || s'.pc.map_ == s.pc.map_ + [s.pc.i];
    }
  }

  lemma {:induction false} PassExec(s: State, run: seq<Action>)
    requires PassOk(s) && Exec(s, run).Some?
    ensures PassOk(Exec(s, run).value)
    decreases |run|
  {
    if run != [] {
      PassStep(s, run[0]);
      PassExec(Step(s, run[0]).value, run[1..]);
    }
  }

  // A PASS STARTS ALL IT CREATED: whenever the scheduler reaps, or begins a pass, no job is created
  // and not released; and when it releases jobs, every job created so far has finished its setup.
  lemma PassStartsAll(s0: State, run: seq<Action>, j: nat)
    requires Start(s0) && Exec(s0, run).Some? && j < |s0.jobs|
    ensures var s := Exec(s0, run).value;
            && (s.pc.Reap? || (s.pc.Scan? && s.pc.map_ == []) ==> s.nrStarted == 0)
            && (s.pc.Release? && j < |s.jobs| && WasCreated(s.jobs[j].st) ==> Initialize(j) in run)
  {
    StartInv(s0);
    ExecInv(s0, run);
    PassExec(s0, run);
    EventsTell(s0, run, j);
    ExecSameTable(s0, run);
    var s := Exec(s0, run).value;
    if s.pc.Reap? || (s.pc.Scan? && s.pc.map_ == []) {
      NoneCounted(s.jobs, Started);
    }
  }

  // ----- one loop over the jobs -----

  // n steps of the scheduler while no job changes by itself.
  function Steps(s: State, n: nat): Option<State>
    decreases n
  {
    if n == 0 then Some(s)
    else match Step(s, Sched)
         case None => None
         case Some(s') => Steps(s', n - 1)
  }

  predicate Dead(st: RunState) {
    st == Exited || st == Killed
  }

  // What a loop from job i on makes of the jobs.
  function Swept(jobs: seq<Job>, i: nat, from: RunState -> bool, to: RunState): seq<Job> {
    seq(|jobs|, j requires 0 <= j < |jobs| => if i <= j && from(jobs[j].st) then jobs[j].(st := to) else jobs[j])
  }

  lemma SweptNext(jobs: seq<Job>, i: nat, from: RunState -> bool, to: RunState)
    requires i < |jobs| && !from(to)
    ensures Swept(jobs, i, from, to)
            == Swept(if from(jobs[i].st) then SetState(jobs, i, to) else jobs, i + 1, from, to)
  {}

  // A REAPING LOOP that no job disturbs reaps exactly the jobs that have exited or been killed.
  lemma {:induction false} ReapLoop(s: State, i: nat)
    requires s.pc == Reap(i) && i <= |s.jobs|
    ensures var end := Steps(s, |s.jobs| - i);
            end.Some? && end.value.pc == Reap(|s.jobs|) && end.value.jobs == Swept(s.jobs, i, Dead, Reaped(true))
            && end.value.todo == s.todo && end.value.nrStarted == s.nrStarted
    decreases |s.jobs| - i
  {
    if i < |s.jobs| {
      SweptNext(s.jobs, i, Dead, Reaped(true));
      ReapLoop(Step(s, Sched).value, i + 1);
    }
  }

  // A STARTING LOOP that no job disturbs starts exactly the jobs that are set up.
  lemma {:induction false} ReleaseLoop(s: State, i: nat)
    requires s.pc == Release(i) && i <= |s.jobs|
    ensures var end := Steps(s, |s.jobs| - i);
            end.Some? && end.value.pc == Release(|s.jobs|)
            && end.value.jobs == Swept(s.jobs, i, (st: RunState) => st == Initialized, Running)
    decreases |s.jobs| - i
  {
    var ready := (st: RunState) => st == Initialized;
    if i < |s.jobs| {
      SweptNext(s.jobs, i, ready, Running);
      ReleaseLoop(Step(s, Sched).value, i + 1);
    }
  }

  // A job can finish its setup exactly while it is created, and end, or be killed, exactly while it runs.
  lemma JobsMove(s: State, j: nat)
    ensures var st := if j < |s.jobs| then s.jobs[j].st else NotCreated;
            && (Step(s, Initialize(j)).Some? <==> st == Created)
            && (Step(s, Exit(j)).Some? <==> st == Running) && (Step(s, Die(j)).Some? <==> st == Running)
            && (st == Running ==> Step(s, Exit(j)).value.jobs[j].st == Exited && Step(s, Die(j)).value.jobs[j].st == Killed)
  {}
}
