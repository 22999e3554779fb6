// run_threads and reap_threads of backend.c: the loop that creates, starts and reaps jobs, with
// the jobs themselves running beside it.
//
// The scheduler's counters are its own; the jobs' runstates change between any two of its steps.
// Its program counter says where in the outer loop it is, and one step handles one job of the
// for-each loop it is in.  Jobs have no start_delay, are not terminated before they are created,
// and initialize in time.
module Scheduler {
  import opened Wrappers
  import opened JobTable

  datatype Pc =
    | Scan(i: nat, map_: seq<nat>)    // the creating loop at job i, with this pass's map so far
    | WaitInit(left: seq<nat>)        // waiting for created jobs not yet seen initialized
    | Release(i: nat)                 // the starting loop at job i
    | Reap(i: nat)                    // the loop of reap_threads at job i
    | Finished

  datatype State = State(jobs: seq<Job>, todo: int, nrRunning: int, nrStarted: int, pc: Pc)

  datatype Action =
    | Sched                   // the scheduler handles the next job
    | Poll(k: nat)            // it looks at entry k of the map
    | Initialize(j: nat)      // job j finishes its setup
    | Exit(j: nat)            // job j ends
    | Die(j: nat)             // job j's process is killed

  function SetState(jobs: seq<Job>, j: nat, st: RunState): seq<Job>
    requires j < |jobs|
  {
    jobs[j := jobs[j].(st := st)]
  }

  predicate WaiteeRunning(jobs: seq<Job>, me: Job) {
    me.waitFor.Some?
    && exists w :: 0 <= w < |jobs| && jobs[w].name != me.name && jobs[w].name == me.waitFor.value && jobs[w].st.BeforeExit()
  }

  // The creating loop for job i.
  function ScanJob(s: State, i: nat, map_: seq<nat>): State
    requires i < |s.jobs|
  {
    var td := s.jobs[i];
    if td.st != NotCreated then s.(pc := Scan(i + 1, map_))
    else if td.stonewall && (s.nrStarted != 0 || s.nrRunning != 0) then s.(pc := WaitInit(map_))
    else if WaiteeRunning(s.jobs, td) then s.(pc := Scan(i + 1, map_))
    else s.(jobs := SetState(s.jobs, i, Created), nrStarted := s.nrStarted + 1, pc := Scan(i + 1, map_ + [i]))
  }

  // The starting loop for job i.
  function ReleaseJob(s: State, i: nat): State
    requires i < |s.jobs|
  {
    if s.jobs[i].st != Initialized then s.(pc := Release(i + 1))
    else s.(jobs := SetState(s.jobs, i, Running), nrRunning := s.nrRunning + 1, nrStarted := s.nrStarted - 1,
            todo := s.todo - 1, pc := Release(i + 1))
  }

  // The loop of reap_threads for job i.
  function ReapJob(s: State, i: nat): State
    requires i < |s.jobs|
  {
    if s.jobs[i].st != Exited && s.jobs[i].st != Killed then s.(pc := Reap(i + 1))
    else s.(jobs := SetState(s.jobs, i, Reaped(true)), nrRunning := s.nrRunning - 1, pc := Reap(i + 1))
  }

  function SchedStep(s: State): Option<State> {
    match s.pc
    case Scan(i, map_) => Some(if i < |s.jobs| then ScanJob(s, i, map_) else s.(pc := WaitInit(map_)))
    case WaitInit(left) => if left == [] then Some(s.(pc := Release(0))) else None
    case Release(i) => Some(if i < |s.jobs| then ReleaseJob(s, i) else s.(pc := Reap(0)))
    case Reap(i) =>
      if i < |s.jobs| then Some(ReapJob(s, i))
      else if s.todo != 0 then Some(s.(pc := Scan(0, [])))
      else if s.nrRunning != 0 then Some(s.(pc := Reap(0)))
      else Some(s.(pc := Finished))
    case Finished => None
  }

  function Step(s: State, a: Action): Option<State> {
    match a
    case Sched => SchedStep(s)
    case Poll(k) =>
      if s.pc.WaitInit? && k < |s.pc.left| && s.pc.left[k] < |s.jobs| && s.jobs[s.pc.left[k]].st == Initialized
      then Some(s.(pc := WaitInit(s.pc.left[..k] + s.pc.left[k + 1..])))
      else None
    case Initialize(j) =>
      if j < |s.jobs| && s.jobs[j].st == Created then Some(s.(jobs := SetState(s.jobs, j, Initialized))) else None
    case Exit(j) =>
      if j < |s.jobs| && s.jobs[j].st == Running then Some(s.(jobs := SetState(s.jobs, j, Exited))) else None
    case Die(j) =>
      if j < |s.jobs| && s.jobs[j].st == Running then Some(s.(jobs := SetState(s.jobs, j, Killed))) else None
  }

  function Exec(s: State, run: seq<Action>): Option<State>
    decreases |run|
  {
    if run == [] then Some(s)
    else match Step(s, run[0])
         case None => None
         case Some(s') => Exec(s', run[1..])
  }

  // ----- counting -----

  datatype Phase = Todo | Started | Active

  predicate In(st: RunState, p: Phase) {
    match p
    case Todo => st.NotCreated? || st.Created? || st.Initialized?
    case Started => st.Created? || st.Initialized?
    case Active => st.Running? || st.Killed? || st.Exited?
  }

  function Count(jobs: seq<Job>, p: Phase): (n: nat)
  {
    if jobs == [] then 0 else Count(jobs[..|jobs| - 1], p) + (if In(jobs[|jobs| - 1].st, p) then 1 else 0)
  }

  lemma {:induction false} CountUpdate(jobs: seq<Job>, j: nat, st: RunState, p: Phase)
    requires j < |jobs|
    ensures Count(SetState(jobs, j, st), p) == Count(jobs, p) - (if In(jobs[j].st, p) then 1 else 0) + (if In(st, p) then 1 else 0)
  {
    var last := |jobs| - 1;
    var jobs' := SetState(jobs, j, st);
    if j == last {
      assert jobs'[..last] == jobs[..last];
    } else {
      assert jobs'[..last] == SetState(jobs[..last], j, st);
      CountUpdate(jobs[..last], j, st, p);
    }
  }

  lemma {:induction false} Counted(jobs: seq<Job>, j: nat, p: Phase)
    requires j < |jobs| && In(jobs[j].st, p)
    ensures Count(jobs, p) > 0
  {
    if j < |jobs| - 1 {
      Counted(jobs[..|jobs| - 1], j, p);
    }
  }

  // ----- the invariant, for any table -----

  // The counters of run_threads count exactly.
  ghost predicate Counters(s: State) {
    && s.todo == Count(s.jobs, Todo)
    && s.nrStarted == Count(s.jobs, Started)
    && s.nrRunning == Count(s.jobs, Active)
  }

  predicate WasCreated(st: RunState) {
    st != NotCreated && st != Reaped(false)
  }

  // Job j waits for job w.
  predicate Waits(j: Job, w: Job) {
    j.waitFor == Some(w.name) && w.name != j.name
  }

  // A created job's waitees, clones included, have exited.
  ghost predicate WaitsHonoured(jobs: seq<Job>) {
    forall j, w :: 0 <= j < |jobs| && 0 <= w < |jobs| && WasCreated(jobs[j].st) && Waits(jobs[j], jobs[w])
                   ==> !jobs[w].st.BeforeExit()
  }

  predicate Quiet(s: State) {
    s.nrStarted == 0 && s.nrRunning == 0
  }

  function Uncreated(jobs: seq<Job>): set<nat> {
    set j: nat | j < |jobs| && jobs[j].st == NotCreated
  }

  // Job j, not created, waits for a job of d.
  ghost predicate WaitsIn(jobs: seq<Job>, j: nat, d: set<nat>) {
    j < |jobs| && jobs[j].st == NotCreated && exists w :: w in d && w < |jobs| && Waits(jobs[j], jobs[w])
  }

  // The jobs before job i that are not created wait for others not created.
  ghost predicate AllWait(jobs: seq<Job>, i: nat) {
    forall m {:trigger WaitsIn(jobs, m, Uncreated(jobs))} :: m in Uncreated(jobs) && m < i ==> WaitsIn(jobs, m, Uncreated(jobs))
  }

  // A pass that has created nothing so far has passed over only jobs that wait for other jobs
  // not created.
  ghost predicate Fruitless(s: State) {
    && (s.pc.Scan? && Quiet(s) ==> AllWait(s.jobs, s.pc.i))
    && (s.pc.WaitInit? && Quiet(s) ==> AllWait(s.jobs, |s.jobs|))
  }

  // The map of a pass holds jobs it has created.
  ghost predicate MapOk(s: State) {
    (s.pc.Scan? ==> AllStarted(s.jobs, s.pc.map_)) && (s.pc.WaitInit? ==> AllStarted(s.jobs, s.pc.left))
  }

  ghost predicate AllStarted(jobs: seq<Job>, map_: seq<nat>) {
    forall k :: 0 <= k < |map_| ==> map_[k] < |jobs| && In(jobs[map_[k]].st, Started)
  }

  ghost predicate Inv(s: State) {
    && Counters(s) && WaitsHonoured(s.jobs) && Fruitless(s) && MapOk(s)
    && (s.pc.Finished? ==> s.todo == 0 && s.nrRunning == 0)
  }

  // As run_threads reaches its main loop.
  ghost predicate Start(s: State) {
    && (forall j :: 0 <= j < |s.jobs| ==> s.jobs[j].st == NotCreated || s.jobs[j].st == Reaped(false))
    && s.todo == Count(s.jobs, Todo) && s.nrRunning == 0 && s.nrStarted == 0
    && s.pc == if s.todo != 0 then Scan(0, []) else Finished
  }

  lemma {:induction false} NoneCounted(jobs: seq<Job>, p: Phase)
    requires forall j :: 0 <= j < |jobs| ==> !In(jobs[j].st, p)
    ensures Count(jobs, p) == 0
  {
    if jobs != [] {
      NoneCounted(jobs[..|jobs| - 1], p);
    }
  }

  lemma StartInv(s: State)
    requires Start(s)
    ensures Inv(s)
  {
    NoneCounted(s.jobs, Started);
    NoneCounted(s.jobs, Active);
  }

  // A job's change of state, with the counters following.
  lemma Recount(s: State, j: nat, st: RunState)
    requires Counters(s) && j < |s.jobs|
    ensures forall p :: Count(SetState(s.jobs, j, st), p)
                        == Count(s.jobs, p) - (if In(s.jobs[j].st, p) then 1 else 0) + (if In(st, p) then 1 else 0)
  {
    forall p
      ensures Count(SetState(s.jobs, j, st), p)
              == Count(s.jobs, p) - (if In(s.jobs[j].st, p) then 1 else 0) + (if In(st, p) then 1 else 0)
    {
      CountUpdate(s.jobs, j, st, p);
    }
  }

  lemma CountersStep(s: State, a: Action)
    requires Counters(s) && Step(s, a).Some?
    ensures Counters(Step(s, a).value)
  {
    match a
    case Sched => CountersSched(s);
    case Poll(_) =>
    case Initialize(j) => Recount(s, j, Initialized);
    case Exit(j) => Recount(s, j, Exited);
    case Die(j) => Recount(s, j, Killed);
  }

  lemma CountersSched(s: State)
    requires Counters(s) && SchedStep(s).Some?
    ensures Counters(SchedStep(s).value)
  {
    if s.pc.Scan? && s.pc.i < |s.jobs| {
      Recount(s, s.pc.i, Created);
    } else if s.pc.Release? && s.pc.i < |s.jobs| {
      Recount(s, s.pc.i, Running);
    } else if s.pc.Reap? && s.pc.i < |s.jobs| {
      Recount(s, s.pc.i, Reaped(true));
    }
  }

  // A step moves at most one job, one stage on.
  ghost predicate OneMoved(jobs: seq<Job>, jobs': seq<Job>, j: nat) {
    && j < |jobs| == |jobs'| && jobs' == SetState(jobs, j, jobs'[j].st)
    && !jobs[j].st.Reaped? && jobs'[j].st != NotCreated && jobs'[j].st != Reaped(false)
    && (jobs[j].st == NotCreated ==> !WaiteeRunning(jobs, jobs[j]))
    && (jobs'[j].st.BeforeExit() ==> jobs[j].st.BeforeExit())
  }

  lemma StepMoves(s: State, a: Action) returns (j: nat)
    requires Step(s, a).Some?
    ensures Step(s, a).value.jobs == s.jobs || OneMoved(s.jobs, Step(s, a).value.jobs, j)
  {
    j := if !a.Sched? then (if a.Poll? then 0 else a.j)
         else if s.pc.Scan? || s.pc.Release? || s.pc.Reap? then s.pc.i else 0;
  }

  lemma WaitsMoved(jobs: seq<Job>, jobs': seq<Job>, j: nat)
    requires WaitsHonoured(jobs) && OneMoved(jobs, jobs', j)
    ensures WaitsHonoured(jobs')
  {
    forall i, w | 0 <= i < |jobs'| && 0 <= w < |jobs'| && WasCreated(jobs'[i].st) && Waits(jobs'[i], jobs'[w])
      ensures !jobs'[w].st.BeforeExit()
    {
      assert Waits(jobs[i], jobs[w]);
    }
  }

  lemma WaitsStep(s: State, a: Action)
    requires WaitsHonoured(s.jobs) && Step(s, a).Some?
    ensures WaitsHonoured(Step(s, a).value.jobs)
  {
    var j := StepMoves(s, a);
    if Step(s, a).value.jobs != s.jobs {
      WaitsMoved(s.jobs, Step(s, a).value.jobs, j);
    }
  }

  // With both counters at zero, every created job has been reaped.
  lemma QuietMeansReaped(s: State, m: nat)
    requires Counters(s) && Quiet(s) && m < |s.jobs|
    ensures s.jobs[m].st == NotCreated || s.jobs[m].st.Reaped?
  {
    if In(s.jobs[m].st, Started) {
      Counted(s.jobs, m, Started);
    }
    if In(s.jobs[m].st, Active) {
      Counted(s.jobs, m, Active);
    }
  }

  lemma QuietFence(s: State, i: nat)
    requires Counters(s) && Quiet(s) && i < |s.jobs| && s.jobs[i].st == NotCreated && WaiteeRunning(s.jobs, s.jobs[i])
    ensures WaitsIn(s.jobs, i, Uncreated(s.jobs))
  {
    var me := s.jobs[i];
    var w: nat :| w < |s.jobs| && s.jobs[w].name != me.name && s.jobs[w].name == me.waitFor.value && s.jobs[w].st.BeforeExit();
    QuietMeansReaped(s, w);
    assert w in Uncreated(s.jobs) && Waits(me, s.jobs[w]);
  }

  lemma FruitlessStep(s: State, a: Action)
    requires Counters(s) && Fruitless(s) && Step(s, a).Some?
    ensures Fruitless(Step(s, a).value)
  {
    var s' := Step(s, a).value;
    CountersStep(s, a);
    if Quiet(s') && (s'.pc.Scan? || s'.pc.WaitInit?) {
      if a.Initialize? || a.Exit? || a.Die? {
        QuietMeansReaped(s, a.j);
      } else if s.pc.Scan? && s.pc.i < |s.jobs| {
        if s.jobs[s.pc.i].st == NotCreated && WaiteeRunning(s.jobs, s.jobs[s.pc.i]) {
          QuietFence(s, s.pc.i);
        }
        assert s'.jobs == s.jobs;
      }
    }
  }

  lemma MapStep(s: State, a: Action)
    requires MapOk(s) && Step(s, a).Some?
    ensures MapOk(Step(s, a).value)
  {
    if a.Poll? {
      var left, left' := s.pc.left, Step(s, a).value.pc.left;
      assert forall k :: 0 <= k < |left'| ==> left'[k] == left[if k < a.k then k else k + 1];
    }
  }

  lemma StepInv(s: State, a: Action)
    requires Inv(s) && Step(s, a).Some?
    ensures Inv(Step(s, a).value)
  {
    CountersStep(s, a);
    WaitsStep(s, a);
    FruitlessStep(s, a);
    MapStep(s, a);
  }

  lemma {:induction false} ExecInv(s: State, run: seq<Action>)
    requires Inv(s) && Exec(s, run).Some?
    ensures Inv(Exec(s, run).value)
    decreases |run|
  {
    if run != [] {
      StepInv(s, run[0]);
      ExecInv(Step(s, run[0]).value, run[1..]);
    }
  }

  // nr_started counts the created jobs not yet released, nr_running the released ones not yet
  // reaped, and todo those not yet released.
  lemma CountersExact(s0: State, run: seq<Action>)
    requires Start(s0) && Exec(s0, run).Some?
    ensures Counters(Exec(s0, run).value)
  {
    StartInv(s0);
    ExecInv(s0, run);
  }

  // ----- what the jobs' own events tell -----

  // The job has ended in the run, by itself or by being killed.
  predicate Ended(run: seq<Action>, j: nat) {
    Exit(j) in run || Die(j) in run
  }

  predicate HasEnded(st: RunState) {
    st == Exited || st == Killed || st == Reaped(true)
  }

  predicate WasSetUp(st: RunState) {
    st == Initialized || st == Running || HasEnded(st)
  }

  lemma EventTells(s: State, a: Action, j: nat)
    requires Step(s, a).Some? && j < |s.jobs|
    ensures var st, jobs' := s.jobs[j].st, Step(s, a).value.jobs;
            && |jobs'| == |s.jobs|
            && (WasSetUp(jobs'[j].st) <==> WasSetUp(st) || a == Initialize(j))
            && (HasEnded(jobs'[j].st) <==> HasEnded(st) || a == Exit(j) || a == Die(j))
  {}

  // A job's state tells its events, and its events its state: it has been set up exactly if it has
  // finished its setup, and counts as exited, killed or reaped exactly if it has ended.
  lemma {:induction false} EventsTell(s: State, run: seq<Action>, j: nat)
    requires Exec(s, run).Some? && j < |s.jobs|
    ensures var st, jobs' := s.jobs[j].st, Exec(s, run).value.jobs;
            && |jobs'| == |s.jobs|
            && (WasSetUp(jobs'[j].st) <==> WasSetUp(st) || Initialize(j) in run)
            && (HasEnded(jobs'[j].st) <==> HasEnded(st) || Ended(run, j))
    decreases |run|
  {
    if run != [] {
      EventTells(s, run[0], j);
      EventsTell(Step(s, run[0]).value, run[1..], j);
      assert run == [run[0]] + run[1..];
    }
  }

  // From the start: a job that was to be created has been through its setup, and has ended.
  ghost predicate RanAndEnded(s0: State, run: seq<Action>, j: nat)
    requires j < |s0.jobs|
  {
    s0.jobs[j].st == NotCreated ==> Initialize(j) in run && Ended(run, j)
  }

  lemma ReapedHasEnded(s0: State, run: seq<Action>, j: nat)
    requires Start(s0) && Exec(s0, run).Some? && j < |s0.jobs| == |Exec(s0, run).value.jobs|
    requires Exec(s0, run).value.jobs[j].st.Reaped? || Exec(s0, run).value.jobs[j].st.Exited?
    ensures RanAndEnded(s0, run, j)
  {
    EventsTell(s0, run, j);
    ExecSameTable(s0, run);
  }

  // wait_for is honoured: when a job has been created, every job of its waitee's name has exited.
  lemma WaitForHonoured(s0: State, run: seq<Action>, j: nat, w: nat)
    requires Start(s0) && Exec(s0, run).Some?
    requires j < |Exec(s0, run).value.jobs| && w < |Exec(s0, run).value.jobs|
    requires WasCreated(Exec(s0, run).value.jobs[j].st)
    requires Waits(Exec(s0, run).value.jobs[j], Exec(s0, run).value.jobs[w])
    ensures Exec(s0, run).value.jobs[w].st.Exited? || Exec(s0, run).value.jobs[w].st.Reaped?
    ensures w < |s0.jobs| && RanAndEnded(s0, run, w)
  {
    StartInv(s0);
    ExecInv(s0, run);
    ExecSameTable(s0, run);
    ReapedHasEnded(s0, run, w);
  }

  // run_threads returns only when every job has been reaped, and so when every job it was to create
  // has ended.
  lemma FinishedMeansAllReaped(s0: State, run: seq<Action>, j: nat)
    requires Start(s0) && Exec(s0, run).Some? && Exec(s0, run).value.pc.Finished?
    requires j < |Exec(s0, run).value.jobs|
    ensures Exec(s0, run).value.jobs[j].st.Reaped? && j < |s0.jobs| && RanAndEnded(s0, run, j)
  {
    StartInv(s0);
    ExecInv(s0, run);
    var s := Exec(s0, run).value;
    if In(s.jobs[j].st, Todo) {
      Counted(s.jobs, j, Todo);
    }
    if In(s.jobs[j].st, Active) {
      Counted(s.jobs, j, Active);
    }
    ExecSameTable(s0, run);
    ReapedHasEnded(s0, run, j);
  }

  // ----- which tables hang -----

  // Jobs of which each waits for another of them, none created yet.
  ghost predicate Knot(jobs: seq<Job>, d: set<nat>) {
    d != {} && forall j {:trigger WaitsIn(jobs, j, d)} :: j in d ==> WaitsIn(jobs, j, d)
  }

  // Jobs keep their names, waits and stonewalls, and an uncreated job was never created.
  ghost predicate SameTable(jobs: seq<Job>, jobs': seq<Job>) {
    |jobs'| == |jobs|
    && forall j :: 0 <= j < |jobs| ==>
         && jobs'[j].name == jobs[j].name && jobs'[j].waitFor == jobs[j].waitFor && jobs'[j].stonewall == jobs[j].stonewall
         && (jobs'[j].st == NotCreated ==> jobs[j].st == NotCreated)
         && (jobs'[j].st == Reaped(false) <==> jobs[j].st == Reaped(false))
  }

  lemma StepSameTable(s: State, a: Action)
    requires Step(s, a).Some?
    ensures SameTable(s.jobs, Step(s, a).value.jobs)
  {
    var j := StepMoves(s, a);
  }

  lemma {:induction false} ExecSameTable(s: State, run: seq<Action>)
    requires Exec(s, run).Some?
    ensures SameTable(s.jobs, Exec(s, run).value.jobs)
    decreases |run|
  {
    if run != [] {
      StepSameTable(s, run[0]);
      ExecSameTable(Step(s, run[0]).value, run[1..]);
    }
  }

  // A wait in a later state is a wait in the table.
  lemma WaitsBack(jobs: seq<Job>, jobs': seq<Job>, j: nat, d: set<nat>, d0: set<nat>)
    requires SameTable(jobs, jobs') && WaitsIn(jobs', j, d) && d <= d0
    ensures WaitsIn(jobs, j, d0)
  {
    var w :| w in d && w < |jobs'| && Waits(jobs'[j], jobs'[w]);
    assert Waits(jobs[j], jobs[w]);
  }

  lemma KnotBack(jobs: seq<Job>, jobs': seq<Job>, d: set<nat>)
    requires SameTable(jobs, jobs') && Knot(jobs', d)
    ensures Knot(jobs, d)
  {
    forall j | j in d
      ensures WaitsIn(jobs, j, d)
    {
      assert WaitsIn(jobs', j, d);
      WaitsBack(jobs, jobs', j, d, d);
    }
  }

  // A job that waits for an uncreated one is fenced, and its wait lasts as long as it is uncreated.
  lemma WaiterFenced(jobs: seq<Job>, j: nat, d: set<nat>)
    requires WaitsIn(jobs, j, d) && d <= Uncreated(jobs)
    ensures WaiteeRunning(jobs, jobs[j])
  {
    var w :| w in d && w < |jobs| && Waits(jobs[j], jobs[w]);
    assert jobs[w].st.BeforeExit();
  }

  lemma WaitLasts(jobs: seq<Job>, jobs': seq<Job>, j: nat, d: set<nat>)
    requires SameTable(jobs, jobs') && WaitsIn(jobs, j, d) && jobs'[j].st == NotCreated
    ensures WaitsIn(jobs', j, d)
  {
    var w :| w in d && w < |jobs| && Waits(jobs[j], jobs[w]);
    assert Waits(jobs'[j], jobs'[w]);
  }

  lemma KnotUncreated(jobs: seq<Job>, d: set<nat>)
    requires Knot(jobs, d)
    ensures d <= Uncreated(jobs)
  {
    forall j | j in d
      ensures j in Uncreated(jobs)
    {
      assert WaitsIn(jobs, j, d);
    }
  }

  // The members of a knot fence each other for good.
  lemma KnotStep(s: State, a: Action, d: set<nat>)
    requires Knot(s.jobs, d) && Step(s, a).Some?
    ensures Knot(Step(s, a).value.jobs, d)
  {
    var jobs' := Step(s, a).value.jobs;
    var i := StepMoves(s, a);
    StepSameTable(s, a);
    KnotUncreated(s.jobs, d);
    forall j | j in d
      ensures WaitsIn(jobs', j, d)
    {
      assert WaitsIn(s.jobs, j, d);
      WaiterFenced(s.jobs, j, d);
      WaitLasts(s.jobs, jobs', j, d);
    }
  }

  // A table with a knot hangs the scheduler, whatever the jobs do: no member of the knot is ever
  // created, and run_threads never returns.
  lemma {:induction false} KnotNeverFinishes(s: State, run: seq<Action>, d: set<nat>)
    requires Counters(s) && Knot(s.jobs, d) && !s.pc.Finished? && Exec(s, run).Some?
    ensures Knot(Exec(s, run).value.jobs, d) && !Exec(s, run).value.pc.Finished?
    decreases |run|
  {
    if run != [] {
      var s' := Step(s, run[0]).value;
      CountersStep(s, run[0]);
      KnotStep(s, run[0], d);
      var j :| j in d;
      assert WaitsIn(s.jobs, j, d);
      Counted(s.jobs, j, Todo);
      KnotNeverFinishes(s', run[1..], d);
    }
  }

  // ----- a run always ends in a knot or by returning -----

  // What is left to do with a job, in changes of its state.
  function Stage(st: RunState): nat {
    match st
    case NotCreated => 5
    case Created => 4
    case Initialized => 3
    case Running => 2
    case Killed => 1
    case Exited => 1
    case Reaped(_) => 0
  }

  function Work(jobs: seq<Job>): nat {
    if jobs == [] then 0 else Work(jobs[..|jobs| - 1]) + Stage(jobs[|jobs| - 1].st)
  }

  lemma {:induction false} WorkUpdate(jobs: seq<Job>, j: nat, st: RunState)
    requires j < |jobs|
    ensures Work(SetState(jobs, j, st)) == Work(jobs) - Stage(jobs[j].st) + Stage(st)
  {
    var last, jobs' := |jobs| - 1, SetState(jobs, j, st);
    if j == last {
      assert jobs'[..last] == jobs[..last];
    } else {
      assert jobs'[..last] == SetState(jobs[..last], j, st);
      WorkUpdate(jobs[..last], j, st);
    }
  }

  // How far the scheduler is from the end of its pass.
  function Rank(s: State): nat {
    var n := |s.jobs|;
    match s.pc
    case Scan(i, map_) => 2 * n + 6 + |map_| + Ahead(i, n)
    case WaitInit(left) => 2 * n + 5 + |left|
    case Release(i) => n + 3 + Ahead(i, n)
    case Reap(i) => 1 + Ahead(i, n)
    case Finished => 0
  }

  function Ahead(i: nat, n: nat): nat {
    if i <= n then n - i else 0
  }

  ghost predicate SomeFrom(jobs: seq<Job>, i: nat, p: Phase) {
    exists j: nat :: i <= j < |jobs| && In(jobs[j].st, p)
  }

  lemma {:induction false} Witness(jobs: seq<Job>, p: Phase)
    requires Count(jobs, p) > 0
    ensures SomeFrom(jobs, 0, p)
  {
    var last := |jobs| - 1;
    if In(jobs[last].st, p) {
      assert 0 <= last < |jobs|;
    } else {
      Witness(jobs[..last], p);
      var j: nat :| 0 <= j < last && In(jobs[..last][j].st, p);
      assert In(jobs[j].st, p);
    }
  }

  // With w left to do when its pass began, the pass has got something done or still will.
  ghost predicate Promising(s: State, w: nat) {
    Work(s.jobs) <= w && (Work(s.jobs) == w ==> Promise(s))
  }

  ghost predicate Promise(s: State) {
    match s.pc
    case Scan(_, _) => s.todo != 0
    case WaitInit(_) => !Quiet(s)
    case Release(i) => SomeFrom(s.jobs, i, Started) || SomeFrom(s.jobs, 0, Active)
    case Reap(i) => SomeFrom(s.jobs, i, Active)
    case Finished => true
  }

  // run_threads has returned, or a scan has ended with nothing started or running.
  ghost predicate Stopped(s: State) {
    s.pc.Finished? || (s.pc.Scan? && s.pc.i >= |s.jobs| && Quiet(s) && s.todo != 0)
  }

  // In the second case the jobs left to create are a knot.
  lemma StoppedInKnot(s: State)
    requires Inv(s) && Stopped(s) && !s.pc.Finished?
    ensures Knot(s.jobs, Uncreated(s.jobs))
  {
    Witness(s.jobs, Todo);
    var j: nat :| j < |s.jobs| && In(s.jobs[j].st, Todo);
    QuietMeansReaped(s, j);
    assert j in Uncreated(s.jobs);
    assert AllWait(s.jobs, s.pc.i);
  }

  // No job is about to change its state by itself.
  ghost predicate Settled(jobs: seq<Job>) {
    forall j :: 0 <= j < |jobs| ==> jobs[j].st != Created && jobs[j].st != Running
  }

  lemma SettledNext(s: State, i: nat, p: Phase)
    requires SomeFrom(s.jobs, i, p) && i < |s.jobs| && !In(s.jobs[i].st, p)
    ensures SomeFrom(s.jobs, i + 1, p)
  {
    var j: nat :| i <= j < |s.jobs| && In(s.jobs[j].st, p);
    assert i + 1 <= j;
  }

  lemma NothingLeft(s: State, i: nat, p: Phase)
    requires i >= |s.jobs|
    ensures !SomeFrom(s.jobs, i, p)
  {}

  // The scheduler's step for one job brings the job forward, or leaves the promise to a later one.
  lemma JobStepPromising(s: State, w: nat, i: nat)
    requires Promising(s, w) && Settled(s.jobs) && i < |s.jobs|
    requires s.pc == Release(i) || s.pc == Reap(i) || (s.pc.Scan? && s.pc.i == i)
    ensures var s' := SchedStep(s).value;
            Promising(s', w) && (Work(s'.jobs) < Work(s.jobs) || (s'.jobs == s.jobs && Rank(s') < Rank(s)))
  {
    var s' := SchedStep(s).value;
    if s'.jobs != s.jobs {
      JobMoves(s, i);
    } else if !s.pc.Scan? {
      PromiseMovesOn(s, i);
    }
  }

  lemma JobMoves(s: State, i: nat)
    requires i < |s.jobs| && (s.pc == Release(i) || s.pc == Reap(i) || (s.pc.Scan? && s.pc.i == i))
    requires SchedStep(s).value.jobs != s.jobs
    ensures Work(SchedStep(s).value.jobs) < Work(s.jobs)
  {
    WorkUpdate(s.jobs, i, SchedStep(s).value.jobs[i].st);
  }

  lemma PromiseMovesOn(s: State, i: nat)
    requires i < |s.jobs| && (s.pc == Release(i) || s.pc == Reap(i)) && Settled(s.jobs)
    requires SchedStep(s).value.jobs == s.jobs
    ensures Promise(s) ==> Promise(SchedStep(s).value)
  {
    if s.pc.Release? && SomeFrom(s.jobs, i, Started) {
      SettledNext(s, i, Started);
    } else if s.pc.Reap? && SomeFrom(s.jobs, i, Active) {
      SettledNext(s, i, Active);
    }
  }

  // Its step from one loop to the next keeps the promise.
  lemma TurnPromising(s: State, w: nat)
    requires Inv(s) && !Stopped(s) && Promising(s, w) && Settled(s.jobs) && SchedStep(s).Some?
    requires match s.pc case Scan(i, _) => i >= |s.jobs| case WaitInit(_) => true case Release(i) => i >= |s.jobs|
                        case Reap(_) => false case Finished => false
    ensures var s' := SchedStep(s).value;
            Promising(s', w) && s'.jobs == s.jobs && Rank(s') < Rank(s)
  {
    if s.pc.WaitInit? && !Quiet(s) {
      if s.nrStarted != 0 {
        Witness(s.jobs, Started);
      } else {
        Witness(s.jobs, Active);
      }
    } else if s.pc.Release? {
      NothingLeft(s, s.pc.i, Started);
    }
  }

  // At the end of a pass something has been done, and the next pass promises more.
  lemma PassPromising(s: State, w: nat)
    requires Inv(s) && Promising(s, w) && s.pc.Reap? && s.pc.i >= |s.jobs|
    ensures Work(s.jobs) < w && Promising(SchedStep(s).value, Work(s.jobs)) && SchedStep(s).value.jobs == s.jobs
  {
    NothingLeft(s, s.pc.i, Active);
    if s.nrRunning != 0 {
      Witness(s.jobs, Active);
    }
  }

  // A job that changes its state by itself.
  lemma Mover(s: State) returns (a: Action)
    requires !Settled(s.jobs)
    ensures Step(s, a).Some? && Work(Step(s, a).value.jobs) < Work(s.jobs)
  {
    var j: nat :| j < |s.jobs| && (s.jobs[j].st == Created || s.jobs[j].st == Running);
    if s.jobs[j].st == Created {
      a := Initialize(j);
      WorkUpdate(s.jobs, j, Initialized);
    } else {
      a := Exit(j);
      WorkUpdate(s.jobs, j, Exited);
    }
  }

  // What happens next on the way to the end, and the work at the start of the pass it is in.
  lemma Advance(s: State, w: nat) returns (a: Action, w': nat)
    requires Inv(s) && Promising(s, w) && !Stopped(s)
    ensures Step(s, a).Some? && Promising(Step(s, a).value, w')
    ensures w' < w || (w' == w && var s' := Step(s, a).value;
                                  Work(s'.jobs) < Work(s.jobs) || (Work(s'.jobs) == Work(s.jobs) && Rank(s') < Rank(s)))
  {
    w' := w;
    if !Settled(s.jobs) {
      a := Mover(s);
    } else if s.pc.WaitInit? && s.pc.left != [] {
      a := Poll(0);
      assert In(s.jobs[s.pc.left[0]].st, Started);
    } else {
      a := Sched;
      if s.pc.Reap? && s.pc.i >= |s.jobs| {
        PassPromising(s, w);
        w' := Work(s.jobs);
      } else if !s.pc.WaitInit? && s.pc.i < |s.jobs| {
        JobStepPromising(s, w, s.pc.i);
      } else {
        TurnPromising(s, w);
      }
    }
  }

  // From every state in order the scheduler can go on until it stops.
  lemma {:induction false} CanStop(s: State, w: nat) returns (run: seq<Action>)
    requires Inv(s) && Promising(s, w)
    ensures Exec(s, run).Some? && Inv(Exec(s, run).value) && Stopped(Exec(s, run).value)
    decreases w, Work(s.jobs), Rank(s)
  {
    if Stopped(s) {
      run := [];
    } else {
      var a, w' := Advance(s, w);
      StepInv(s, a);
      var rest := CanStop(Step(s, a).value, w');
      run := [a] + rest;
      assert run[1..] == rest;
    }
  }

  // Without a knot it stops only by returning.
  lemma CanFinish(s: State, jobs: seq<Job>) returns (run: seq<Action>)
    requires Inv(s) && SameTable(jobs, s.jobs) && forall d :: !Knot(jobs, d)
    ensures Exec(s, run).Some? && Exec(s, run).value.pc.Finished?
  {
    run := CanStop(s, Work(s.jobs) + 1);
    var e := Exec(s, run).value;
    if !e.pc.Finished? {
      StoppedInKnot(e);
      ExecSameTable(s, run);
      KnotBack(s.jobs, e.jobs, Uncreated(e.jobs));
      KnotBack(jobs, s.jobs, Uncreated(e.jobs));
    }
  }

  // EXACTLY the tables without a knot can be finished: run_threads can return if and only if no
  // jobs wait for each other in a ring or lead into one.
  lemma FinishesIffNoKnot(s0: State)
    requires Start(s0)
    ensures (exists run :: Exec(s0, run).Some? && Exec(s0, run).value.pc.Finished?) <==> !exists d :: Knot(s0.jobs, d)
  {
    StartInv(s0);
    if d :| Knot(s0.jobs, d) {
      var j :| j in d;
      assert WaitsIn(s0.jobs, j, d);
      Counted(s0.jobs, j, Todo);
      forall run | Exec(s0, run).Some?
        ensures !Exec(s0, run).value.pc.Finished?
      {
        KnotNeverFinishes(s0, run, d);
      }
    } else {
      var run := CanFinish(s0, s0.jobs);
    }
  }

  // Nor does a pass end with jobs left to create and nothing started or running.
  lemma PassStartsSomething(s0: State, run: seq<Action>, m: nat)
    requires Start(s0) && (forall d :: !Knot(s0.jobs, d)) && Exec(s0, run).Some?
    requires Exec(s0, run).value.pc.WaitInit? && m in Uncreated(Exec(s0, run).value.jobs)
    ensures !Quiet(Exec(s0, run).value)
  {
    StartInv(s0);
    ExecInv(s0, run);
    ExecSameTable(s0, run);
    var s := Exec(s0, run).value;
    if Quiet(s) {
      assert AllWait(s.jobs, |s.jobs|);
      assert Knot(s.jobs, Uncreated(s.jobs));
      KnotBack(s0.jobs, s.jobs, Uncreated(s.jobs));
      assert false;
    }
  }

  // ----- stonewalls -----

  predicate Barrier(job: Job) {
    job.stonewall && job.st != Reaped(false)
  }

  ghost predicate AllReapedBelow(jobs: seq<Job>, k: nat) {
    forall m :: 0 <= m < |jobs| && m < k ==> jobs[m].st.Reaped?
  }

  // No job from job k on has been created before every job below it was reaped.
  ghost predicate Kept(jobs: seq<Job>, k: nat) {
    forall j :: k <= j < |jobs| && WasCreated(jobs[j].st) ==> AllReapedBelow(jobs, k)
  }

  function UncreatedFrom(jobs: seq<Job>, k: nat): set<nat> {
    set j: nat | k <= j < |jobs| && jobs[j].st == NotCreated
  }

  // Jobs below job k that cannot be created unless one from k on has been: each waits for another
  // of them, or for one from k on.
  ghost predicate HeldUp(jobs: seq<Job>, k: nat, d: set<nat>) {
    forall j {:trigger WaitsIn(jobs, j, d + UncreatedFrom(jobs, k))} ::
      j in d ==> j < k && WaitsIn(jobs, j, d + UncreatedFrom(jobs, k))
  }

  ghost predicate IsBehind(jobs: seq<Job>, k: nat, j: nat) {
    exists d :: j in d && HeldUp(jobs, k, d)
  }

  // All of them.
  ghost function Behind(jobs: seq<Job>, k: nat): set<nat> {
    set j: nat | j < k && IsBehind(jobs, k, j)
  }

  lemma BehindHeldUp(jobs: seq<Job>, k: nat)
    ensures HeldUp(jobs, k, Behind(jobs, k))
  {
    var b, up := Behind(jobs, k), UncreatedFrom(jobs, k);
    forall j | j in b
      ensures WaitsIn(jobs, j, b + up)
    {
      var d :| j in d && HeldUp(jobs, k, d);
      assert WaitsIn(jobs, j, d + up);
      var w :| w in d + up && w < |jobs| && Waits(jobs[j], jobs[w]);
      if w in d {
        assert WaitsIn(jobs, w, d + up);
        assert w in b;
      }
    }
  }

  // When a barrier holds: nothing below it is held up, or what is held up waits, together with
  // everything from the barrier on, for itself.
  ghost predicate Tight(jobs: seq<Job>, k: nat) {
    Behind(jobs, k) == {} || Knot(jobs, Behind(jobs, k) + UncreatedFrom(jobs, k))
  }

  // The jobs a quiet scan has left behind when it comes to job k are held up.
  lemma LeftBehind(jobs0: seq<Job>, jobs: seq<Job>, k: nat, m: nat)
    requires SameTable(jobs0, jobs) && k <= |jobs| && AllWait(jobs, k) && m < k && jobs[m].st == NotCreated
    ensures m in Behind(jobs0, k)
  {
    var d := set j: nat | j < k && jobs[j].st == NotCreated;
    forall j | j in d
      ensures WaitsIn(jobs0, j, d + UncreatedFrom(jobs0, k))
    {
      assert j in Uncreated(jobs);
      assert WaitsIn(jobs, j, Uncreated(jobs));
      forall w | w in Uncreated(jobs)
        ensures w in d + UncreatedFrom(jobs0, k)
      {
      }
      WaitsBack(jobs0, jobs, j, Uncreated(jobs), d + UncreatedFrom(jobs0, k));
    }
    assert HeldUp(jobs0, k, d) && m in d;
  }

  // What the scheduler keeps about a barrier with nothing held up below it.
  ghost predicate Gate(s: State, k: nat) {
    && k < |s.jobs| && Barrier(s.jobs[k]) && Kept(s.jobs, k)
    && (s.pc.Scan? && s.pc.i > k ==> AllReapedBelow(s.jobs, k))
  }

  // A quiet scan passes the barrier only when all below it are reaped.
  lemma GatePassed(jobs0: seq<Job>, s: State, k: nat)
    requires Inv(s) && Gate(s, k) && SameTable(jobs0, s.jobs) && Behind(jobs0, k) == {}
    requires s.pc.Scan? && s.pc.i == k && Quiet(s)
    ensures AllReapedBelow(s.jobs, k)
  {
    forall m | 0 <= m < |s.jobs| && m < k
      ensures s.jobs[m].st.Reaped?
    {
      QuietMeansReaped(s, m);
      if s.jobs[m].st == NotCreated {
        LeftBehind(jobs0, s.jobs, k, m);
      }
    }
  }

  lemma ReapedStays(jobs: seq<Job>, jobs': seq<Job>, j: nat, k: nat)
    requires OneMoved(jobs, jobs', j) && AllReapedBelow(jobs, k)
    ensures AllReapedBelow(jobs', k)
  {}

  // A job from the barrier on that was created before the step, or is not what the step moves.
  lemma KeptMoved(jobs: seq<Job>, jobs': seq<Job>, i: nat, k: nat)
    requires OneMoved(jobs, jobs', i) && Kept(jobs, k)
    requires i >= k && jobs[i].st == NotCreated ==> AllReapedBelow(jobs, k)
    ensures Kept(jobs', k)
  {
    forall j | k <= j < |jobs'| && WasCreated(jobs'[j].st)
      ensures AllReapedBelow(jobs', k)
    {
      ReapedStays(jobs, jobs', i, k);
    }
  }

  // A scan that goes past the barrier.
  lemma GateScan(jobs0: seq<Job>, s: State, a: Action, k: nat)
    requires Inv(s) && Gate(s, k) && SameTable(jobs0, s.jobs) && Behind(jobs0, k) == {} && Step(s, a).Some?
    requires Step(s, a).value.pc.Scan? && Step(s, a).value.pc.i > k
    ensures AllReapedBelow(s.jobs, k)
  {
    if s.pc.Scan? && s.pc.i == k && Quiet(s) {
      GatePassed(jobs0, s, k);
    }
  }

  // A step that creates a job from the barrier on is a scan that has passed it.
  lemma GateCreates(s: State, a: Action, i: nat, k: nat)
    requires Gate(s, k) && Step(s, a).Some? && OneMoved(s.jobs, Step(s, a).value.jobs, i)
    requires i >= k && s.jobs[i].st == NotCreated
    ensures Step(s, a).value.pc.Scan? && Step(s, a).value.pc.i > k
  {}

  lemma GateStep(jobs0: seq<Job>, s: State, a: Action, k: nat)
    requires Inv(s) && Gate(s, k) && SameTable(jobs0, s.jobs) && Behind(jobs0, k) == {} && Step(s, a).Some?
    ensures Gate(Step(s, a).value, k)
  {
    var s' := Step(s, a).value;
    var i := StepMoves(s, a);
    StepSameTable(s, a);
    if s'.pc.Scan? && s'.pc.i > k {
      GateScan(jobs0, s, a, k);
    }
    if s'.jobs != s.jobs {
      if i >= k && s.jobs[i].st == NotCreated {
        GateCreates(s, a, i, k);
      }
      KeptMoved(s.jobs, s'.jobs, i, k);
      if AllReapedBelow(s.jobs, k) {
        ReapedStays(s.jobs, s'.jobs, i, k);
      }
    }
  }

  lemma {:induction false} GateExec(jobs0: seq<Job>, s: State, run: seq<Action>, k: nat)
    requires Inv(s) && Gate(s, k) && SameTable(jobs0, s.jobs) && Behind(jobs0, k) == {} && Exec(s, run).Some?
    ensures Gate(Exec(s, run).value, k)
    decreases |run|
  {
    if run != [] {
      var s' := Step(s, run[0]).value;
      StepInv(s, run[0]);
      StepSameTable(s, run[0]);
      GateStep(jobs0, s, run[0], k);
      TableChain(jobs0, s.jobs, s'.jobs);
      GateExec(jobs0, s', run[1..], k);
    }
  }

  lemma TableChain(a: seq<Job>, b: seq<Job>, c: seq<Job>)
    requires SameTable(a, b) && SameTable(b, c)
    ensures SameTable(a, c)
  {}

  // STONEWALL: with nothing held up below a barrier, in every reachable state if a job from the
  // barrier on has been created then every job below it has been reaped.
  lemma TightKept(s0: State, run: seq<Action>, k: nat)
    requires Start(s0) && Exec(s0, run).Some? && k < |s0.jobs| && Barrier(s0.jobs[k]) && Tight(s0.jobs, k)
    ensures Kept(Exec(s0, run).value.jobs, k)
  {
    StartInv(s0);
    var up := UncreatedFrom(s0.jobs, k);
    if Behind(s0.jobs, k) == {} {
      GateExec(s0.jobs, s0, run, k);
    } else {
      var d := Behind(s0.jobs, k) + up;
      assert k in up;
      assert WaitsIn(s0.jobs, k, d);
      Counted(s0.jobs, k, Todo);
      KnotNeverFinishes(s0, run, d);
      ExecSameTable(s0, run);
      KnotUncreated(Exec(s0, run).value.jobs, d);
      assert forall j: nat :: k <= j < |s0.jobs| && s0.jobs[j].st == NotCreated ==> j in d;
    }
  }

  // Every job below a tight barrier has ended once a job from the barrier on has been created.
  lemma TightHasEnded(s0: State, run: seq<Action>, k: nat, i: nat, j: nat)
    requires Start(s0) && Exec(s0, run).Some? && i < k <= j < |s0.jobs| == |Exec(s0, run).value.jobs|
    requires Barrier(s0.jobs[k]) && Tight(s0.jobs, k) && WasCreated(Exec(s0, run).value.jobs[j].st)
    ensures RanAndEnded(s0, run, i)
  {
    TightKept(s0, run, k);
    ReapedHasEnded(s0, run, i);
  }

  // While no job from k on is created, the jobs held up below it are not either.
  lemma HeldUpStep(s: State, a: Action, k: nat, d: set<nat>)
    requires HeldUp(s.jobs, k, d) && Step(s, a).Some?
    ensures var jobs' := Step(s, a).value.jobs;
            (forall j :: j in d ==> j < |jobs'| && jobs'[j].st == NotCreated)
            && (UncreatedFrom(jobs', k) == UncreatedFrom(s.jobs, k) ==> HeldUp(jobs', k, d))
  {
    var jobs', up := Step(s, a).value.jobs, UncreatedFrom(s.jobs, k);
    var i := StepMoves(s, a);
    StepSameTable(s, a);
    forall j | j in d
      ensures j in Uncreated(s.jobs)
    {
      assert WaitsIn(s.jobs, j, d + up);
    }
    forall j | j in d
      ensures j < k && jobs'[j].st == NotCreated && WaitsIn(jobs', j, d + up)
    {
      assert WaitsIn(s.jobs, j, d + up);
      WaiterFenced(s.jobs, j, d + up);
      WaitLasts(s.jobs, jobs', j, d + up);
    }
  }

  // Along a run with jobs held up below k, a job from k on is created before any of them, or none is.
  lemma {:induction false} FirstPast(s: State, run: seq<Action>, k: nat, d: set<nat>) returns (r: seq<Action>, past: bool)
    requires HeldUp(s.jobs, k, d) && d != {} && Exec(s, run).Some?
    ensures Exec(s, r).Some?
    ensures past ==> !Kept(Exec(s, r).value.jobs, k)
    ensures !past ==> r == run && HeldUp(Exec(s, r).value.jobs, k, d)
                      && UncreatedFrom(Exec(s, r).value.jobs, k) == UncreatedFrom(s.jobs, k)
    decreases |run|
  {
    if run == [] {
      r, past := [], false;
    } else {
      var s' := Step(s, run[0]).value;
      HeldUpStep(s, run[0], k, d);
      if UncreatedFrom(s'.jobs, k) == UncreatedFrom(s.jobs, k) {
        r, past := FirstPast(s', run[1..], k, d);
        r := [run[0]] + r;
        assert r[1..] == r[1..];
      } else {
        Overtaken(s, run[0], k, d);
        r, past := [run[0]], true;
        assert r[1..] == [];
      }
    }
  }

  // A step that creates a job from k on overtakes the jobs held up.
  lemma Overtaken(s: State, a: Action, k: nat, d: set<nat>)
    requires HeldUp(s.jobs, k, d) && d != {} && Step(s, a).Some?
    requires UncreatedFrom(Step(s, a).value.jobs, k) != UncreatedFrom(s.jobs, k)
    ensures !Kept(Step(s, a).value.jobs, k)
  {
    var jobs' := Step(s, a).value.jobs;
    var i := StepMoves(s, a);
    HeldUpStep(s, a, k, d);
    var m :| m in d;
    assert WaitsIn(s.jobs, m, d + UncreatedFrom(s.jobs, k));
    assert jobs'[m].st == NotCreated && m < k;
    var j :| j in UncreatedFrom(s.jobs, k) && j !in UncreatedFrom(jobs', k);
    assert WasCreated(jobs'[j].st);
  }

  // A barrier that is not tight can be broken.
  lemma LooseBreaks(s0: State, k: nat) returns (run: seq<Action>)
    requires Start(s0) && k < |s0.jobs| && Barrier(s0.jobs[k]) && !Tight(s0.jobs, k)
    ensures Exec(s0, run).Some? && !Kept(Exec(s0, run).value.jobs, k)
  {
    StartInv(s0);
    BehindHeldUp(s0.jobs, k);
    var d := Behind(s0.jobs, k);
    var whole := CanStop(s0, Work(s0.jobs) + 1);
    var past;
    run, past := FirstPast(s0, whole, k, d);
    if !past {
      StopsTight(s0, whole, k);
      assert false;
    }
  }

  // If the scheduler stops with the jobs behind k and from k on all uncreated, they are a knot.
  lemma StopsTight(s0: State, run: seq<Action>, k: nat)
    requires Start(s0) && k < |s0.jobs| && Behind(s0.jobs, k) != {} && Exec(s0, run).Some?
    requires var e := Exec(s0, run).value;
             Inv(e) && Stopped(e) && HeldUp(e.jobs, k, Behind(s0.jobs, k)) && UncreatedFrom(e.jobs, k) == UncreatedFrom(s0.jobs, k)
    ensures Tight(s0.jobs, k)
  {
    var e, b, up := Exec(s0, run).value, Behind(s0.jobs, k), UncreatedFrom(s0.jobs, k);
    ExecSameTable(s0, run);
    forall j | j in b
      ensures j in Uncreated(e.jobs)
    {
      assert WaitsIn(e.jobs, j, b + up);
    }
    var m :| m in b;
    assert m in Uncreated(e.jobs);
    Counted(e.jobs, m, Todo);
    StoppedInKnot(e);
    KnotBack(s0.jobs, e.jobs, Uncreated(e.jobs));
    assert AllWait(e.jobs, k);
    forall j | j in Uncreated(e.jobs)
      ensures j in b + up
    {
      if j < k {
        LeftBehind(s0.jobs, e.jobs, k, j);
      } else {
        assert j in UncreatedFrom(e.jobs, k);
      }
    }
    assert Uncreated(e.jobs) == b + up by {
      assert up <= Uncreated(e.jobs);
    }
  }

  // EXACTLY the tight barriers hold in every run.  (TightHasEnded says it in the jobs' events.)
  lemma StonewallIff(s0: State, k: nat)
    requires Start(s0) && k < |s0.jobs| && Barrier(s0.jobs[k])
    ensures (forall run :: Exec(s0, run).Some? ==> Kept(Exec(s0, run).value.jobs, k)) <==> Tight(s0.jobs, k)
  {
    if Tight(s0.jobs, k) {
      forall run | Exec(s0, run).Some?
        ensures Kept(Exec(s0, run).value.jobs, k)
      {
        TightKept(s0, run, k);
      }
    } else {
      var run := LooseBreaks(s0, k);
    }
  }

  // ----- waits that point only to earlier jobs -----

  // They hold nothing up.
  lemma {:induction false} EarlierHoldsUpNothing(jobs: seq<Job>, k: nat, d: set<nat>, j: nat)
    requires WaitsEarlier(jobs) && HeldUp(jobs, k, d) && j in d
    ensures false
    decreases j
  {
    var up := UncreatedFrom(jobs, k);
    assert WaitsIn(jobs, j, d + up);
    var w :| w in d + up && w < |jobs| && Waits(jobs[j], jobs[w]);
    EarlierHoldsUpNothing(jobs, k, d, w);
  }

  // And they tie no knot.
  lemma {:induction false} EarlierTiesNoKnot(jobs: seq<Job>, d: set<nat>, j: nat)
    requires WaitsEarlier(jobs) && Knot(jobs, d) && j in d
    ensures false
    decreases j
  {
    assert WaitsIn(jobs, j, d);
    var w :| w in d && w < |jobs| && Waits(jobs[j], jobs[w]);
    EarlierTiesNoKnot(jobs, d, w);
  }

  lemma EarlierNoKnot(jobs: seq<Job>)
    requires WaitsEarlier(jobs)
    ensures forall d :: !Knot(jobs, d)
  {
    forall d
      ensures !Knot(jobs, d)
    {
      if Knot(jobs, d) {
        var j :| j in d;
        EarlierTiesNoKnot(jobs, d, j);
      }
    }
  }

  // So if a stonewall job stands between job i and a created job j (or is j), job i has been reaped,
  // and has ended.
  lemma StonewallPhases(s0: State, run: seq<Action>, i: nat, k: nat, j: nat)
    requires Start(s0) && WaitsEarlier(s0.jobs) && Exec(s0, run).Some?
    requires i < k <= j < |s0.jobs| && |Exec(s0, run).value.jobs| == |s0.jobs|
    requires Barrier(s0.jobs[k]) && WasCreated(Exec(s0, run).value.jobs[j].st)
    ensures Exec(s0, run).value.jobs[i].st.Reaped? && RanAndEnded(s0, run, i)
  {
    if m :| m in Behind(s0.jobs, k) {
      BehindHeldUp(s0.jobs, k);
      EarlierHoldsUpNothing(s0.jobs, k, Behind(s0.jobs, k), m);
    }
    TightKept(s0, run, k);
    ReapedHasEnded(s0, run, i);
  }

  // And when nothing is started or running and the scan reaches a job that is still to be created,
  // the job passes the stonewall and wait_for gates and is created.
  lemma LowestJobPasses(s0: State, run: seq<Action>, i: nat)
    requires Start(s0) && WaitsEarlier(s0.jobs) && Exec(s0, run).Some?
    requires var s := Exec(s0, run).value;
             s.pc.Scan? && s.pc.i == i < |s.jobs| && s.jobs[i].st == NotCreated && Quiet(s)
    ensures var s := Exec(s0, run).value;
            Step(s, Sched).Some? && Step(s, Sched).value.jobs == SetState(s.jobs, i, Created)
  {
    StartInv(s0);
    ExecInv(s0, run);
    ExecSameTable(s0, run);
    var s := Exec(s0, run).value;
    if WaiteeRunning(s.jobs, s.jobs[i]) {
      QuietFence(s, i);
      EarlierWaiter(s, i);
    }
  }

  lemma {:induction false} EarlierWaiter(s: State, m: nat)
    requires WaitsEarlier(s.jobs) && Fruitless(s) && s.pc.Scan? && Quiet(s) && m <= s.pc.i
    requires WaitsIn(s.jobs, m, Uncreated(s.jobs))
    ensures false
    decreases m
  {
    assert AllWait(s.jobs, s.pc.i);
    var w :| w in Uncreated(s.jobs) && w < |s.jobs| && Waits(s.jobs[m], s.jobs[w]);
    assert WaitsIn(s.jobs, w, Uncreated(s.jobs));
    EarlierWaiter(s, w);
  }

  // ----- accepted tables -----

  // ACCEPTED TABLES NEVER HANG: with names unique apart from clones, from every state the scheduler
  // reaches on a table that the parser accepts it can go on until run_threads returns.
  lemma AcceptedNeverHangs(s0: State, run: seq<Action>)
    requires Start(s0) && Accepted(s0.jobs) && ClonesFollow(s0.jobs) && UniqueNames(s0.jobs)
    requires Exec(s0, run).Some?
    ensures exists more :: var s := Exec(Exec(s0, run).value, more); s.Some? && s.value.pc.Finished?
  {
    StartInv(s0);
    AcceptedWaitsEarlier(s0.jobs);
    EarlierNoKnot(s0.jobs);
    ExecInv(s0, run);
    ExecSameTable(s0, run);
    var more := CanFinish(Exec(s0, run).value, s0.jobs);
  }

  // A second job of the waitee's name, which wait_for_ok accepts because it looks only at the
  // jobs parsed so far.
  const DUPLICATE: seq<Job> :=
    [Job("a", None, false, 0, NotCreated), Job("b", Some("a"), false, 0, NotCreated), Job("a", Some("b"), false, 0, NotCreated)]

  lemma DuplicateAccepted()
    ensures Accepted(DUPLICATE) && ClonesFollow(DUPLICATE) && !UniqueNames(DUPLICATE)
  {
    var t := DUPLICATE;
    assert t[..2][..1] == t[..1] && t[..3][..2] == t[..2] && t[..1][..0] == [] && t[..1][0] == t[0];
    assert t[..3] == t;
    assert t[0].name != t[1].name;
    assert Waitees(t[..0], "a") == 0 && Waitees(t[..0], "b") == 0;
    assert Waitees(t[..1], "a") == 1 && Waitees(t[..1], "b") == 0;
    assert Waitees(t[..2], "a") == 1 && Waitees(t[..2], "b") == 1;
    assert Waitees(t[..3], "b") == 1;
    assert t[0].name == t[2].name;
  }

  // So uniqueness is needed: on this table, which the parser accepts, the scheduler never returns.
  lemma DuplicateNamesDeadlock(s0: State, run: seq<Action>)
    requires Start(s0) && s0.jobs == DUPLICATE && Exec(s0, run).Some?
    ensures !Exec(s0, run).value.pc.Finished?
    ensures forall j :: 1 <= j < 3 ==> WaitsIn(Exec(s0, run).value.jobs, j, {1, 2})
  {
    StartInv(s0);
    Counted(s0.jobs, 0, Todo);
    assert DUPLICATE[1].name == "b" && DUPLICATE[2].name == "a" && "a"[0] != "b"[0];
    assert Waits(DUPLICATE[1], DUPLICATE[2]) && Waits(DUPLICATE[2], DUPLICATE[1]);
    var d: set<nat> := {1, 2};
    assert WaitsIn(DUPLICATE, 1, d) by { assert 2 in d; }
    assert WaitsIn(DUPLICATE, 2, d) by { assert 1 in d; }
    assert Knot(s0.jobs, d);
    KnotNeverFinishes(s0, run, d);
  }

  // The same kind of table with a stonewall: b waits for both jobs called a, one of which stands
  // behind the stonewall job c.
  const OVERTAKING: seq<Job> :=
    [Job("a", None, false, 0, NotCreated), Job("b", Some("a"), false, 0, NotCreated),
     Job("c", None, true, 0, NotCreated), Job("a", None, false, 0, NotCreated)]

  lemma OvertakingAccepted()
    ensures Accepted(OVERTAKING) && ClonesFollow(OVERTAKING)
  {
    var t := OVERTAKING;
    assert t[..2][..1] == t[..1] && t[..1][..0] == [] && t[..1][0] == t[0] && t[..2][1] == t[1];
    assert "a"[0] != "b"[0];
    assert Waitees(t[..0], "a") == 0;
    assert Waitees(t[..1], "a") == 1;
    assert Waitees(t[..2], "a") == 1;
  }

  // Its barrier is not tight, so c can be created while b, which stands before it, is not.
  lemma OvertakingBreaksBarrier(s0: State)
    requires Start(s0) && s0.jobs == OVERTAKING
    ensures exists run :: Exec(s0, run).Some? && !Kept(Exec(s0, run).value.jobs, 2)
  {
    var d: set<nat>, up := {1}, UncreatedFrom(OVERTAKING, 2);
    assert "a"[0] != "b"[0];
    assert 3 in up && Waits(OVERTAKING[1], OVERTAKING[3]);
    assert WaitsIn(OVERTAKING, 1, d + up) by { assert 3 in d + up; }
    assert HeldUp(OVERTAKING, 2, d);
    assert 1 in Behind(OVERTAKING, 2) by { assert 1 in d; }
    assert 2 in up && !WaitsIn(OVERTAKING, 2, Behind(OVERTAKING, 2) + up);
    var run := LooseBreaks(s0, 2);
  }

  // ----- the code -----

  // The variables of run_threads and the jobs' runstates.
  class Launcher {
    var jobs: seq<Job>
    var todo: int
    var nrRunning: int
    var nrStarted: int
    var pc: Pc

    ghost function View(): State
      reads this
    {
      State(jobs, todo, nrRunning, nrStarted, pc)
    }

    ghost predicate Valid()
      reads this
    {
      Inv(View())
    }

    // run_threads as it reaches its loop, for jobs none of which has been created.
    constructor (jobs: seq<Job>)
      requires forall j :: 0 <= j < |jobs| ==> jobs[j].st == NotCreated || jobs[j].st == Reaped(false)
      ensures Valid() && Start(View()) && this.jobs == jobs
    {
      this.jobs := jobs;
      todo := Count(jobs, Todo);
      nrRunning, nrStarted := 0, 0;
      pc := if Count(jobs, Todo) != 0 then Scan(0, []) else Finished;
      new;
      StartInv(View());
    }

    // waitee_running
    method WaiteeIsRunning(me: Job) returns (running: bool)
      ensures running <==> WaiteeRunning(jobs, me)
    {
      if me.waitFor.None? {
        return false;
      }
      for w := 0 to |jobs|
        invariant forall k :: 0 <= k < w ==>
                    !(jobs[k].name != me.name && jobs[k].name == me.waitFor.value && jobs[k].st.BeforeExit())
      {
        if jobs[w].name == me.name || jobs[w].name != me.waitFor.value {
          continue;
        }
        if jobs[w].st.BeforeExit() {
          return true;
        }
      }
      return false;
    }

    // The body of the creating loop, for job i.
    method ScanOne(i: nat)
      requires i < |jobs| && pc.Scan?
      modifies this
      ensures View() == ScanJob(old(View()), i, old(pc.map_))
    {
      var map_ := pc.map_;
      pc := Scan(i + 1, map_);
      if jobs[i].st != NotCreated {
        return;
      }
      if jobs[i].stonewall && (nrStarted != 0 || nrRunning != 0) {
        pc := WaitInit(map_);
        return;
      }
      var fenced := WaiteeIsRunning(jobs[i]);
      if fenced {
        return;
      }
      jobs := SetState(jobs, i, Created);
      pc := Scan(i + 1, map_ + [i]);
      nrStarted := nrStarted + 1;
    }

    // The body of the starting loop, for job i.
    method ReleaseOne(i: nat)
      requires i < |jobs| && pc.Release?
      modifies this
      ensures View() == ReleaseJob(old(View()), i)
    {
      pc := Release(i + 1);
      if jobs[i].st != Initialized {
        return;
      }
      jobs := SetState(jobs, i, Running);
      nrRunning := nrRunning + 1;
      nrStarted := nrStarted - 1;
      todo := todo - 1;
    }

    // The body of the loop of reap_threads, for job i.
    method ReapOne(i: nat)
      requires i < |jobs| && pc.Reap?
      modifies this
      ensures View() == ReapJob(old(View()), i)
    {
      pc := Reap(i + 1);
      if jobs[i].st == Exited || jobs[i].st == Killed {
        jobs := SetState(jobs, i, Reaped(true));
        nrRunning := nrRunning - 1;
      }
    }

    // run_threads goes on by one job, or from one of its loops to the next.
    method Go()
      requires Valid() && SchedStep(View()).Some?
      modifies this
      ensures Valid() && Step(old(View()), Sched) == Some(View())
    {
      StepInv(View(), Sched);
      match pc
      case Scan(i, map_) =>
        if i < |jobs| {
          ScanOne(i);
        } else {
          pc := WaitInit(map_);
        }
      case WaitInit(_) =>
        pc := Release(0);
      case Release(i) =>
        if i < |jobs| {
          ReleaseOne(i);
        } else {
          pc := Reap(0);
        }
      case Reap(i) =>
        if i < |jobs| {
          ReapOne(i);
        } else if todo != 0 {
          pc := Scan(0, []);
        } else if nrRunning != 0 {
          pc := Reap(0);
        } else {
          pc := Finished;
        }
    }

    // Entry k's job is seen initialized, and leaves the map.
    method Poll(k: nat)
      requires Valid() && Step(View(), Action.Poll(k)).Some?
      modifies this`pc
      ensures Valid() && Step(old(View()), Action.Poll(k)) == Some(View())
    {
      StepInv(View(), Action.Poll(k));
      pc := WaitInit(pc.left[..k] + pc.left[k + 1..]);
    }
  }
}
