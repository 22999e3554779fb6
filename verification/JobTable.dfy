// The job table that init.c builds, and its check of the wait_for option.
module JobTable {
  import opened Wrappers

  // runstate, in the order of the enum: Running stands for TD_RAMP to TD_FINISHING, and Killed
  // for a process that died in one of these states, whose runstate does not change until it is
  // reaped.  Reaped(false) is a job whose file setup failed before any job was created.
  datatype RunState = NotCreated | Created | Initialized | Running | Killed | Exited | Reaped(ran: bool)
  {
    // runstate < TD_EXITED
    predicate BeforeExit() {
      !Exited? && !Reaped?
    }
  }

  datatype Job = Job(name: string, waitFor: Option<string>, stonewall: bool, subjob: nat, st: RunState)

  // ----- check_waitees and wait_for_ok -----

  function Waitees(jobs: seq<Job>, waitee: string): (n: nat)
  {
    if jobs == [] then 0
    else Waitees(jobs[..|jobs| - 1], waitee) + (if jobs[|jobs| - 1].subjob == 0 && jobs[|jobs| - 1].name == waitee then 1 else 0)
  }

  // Count the jobs called waitee, not counting clones.
  method CheckWaitees(jobs: seq<Job>, waitee: string) returns (ret: nat)
    ensures ret == Waitees(jobs, waitee)
  {
    ret := 0;
    for i := 0 to |jobs|
      invariant ret == Waitees(jobs[..i], waitee)
    {
      assert jobs[..i + 1][..i] == jobs[..i];
      if jobs[i].subjob == 0 && jobs[i].name == waitee {
        ret := ret + 1;
      }
    }
    assert jobs[..|jobs|] == jobs;
  }

  predicate WaitForOk(jobs: seq<Job>, job: Job) {
    job.waitFor.Some? ==> job.name != job.waitFor.value && Waitees(jobs, job.waitFor.value) == 1
  }

  // The new job is already in the table when its wait_for is checked.
  method WaitForOkCheck(jobs: seq<Job>, job: Job) returns (ok: bool)
    ensures ok == WaitForOk(jobs, job)
  {
    if job.waitFor.None? {
      return true;
    }
    if job.name == job.waitFor.value {
      return false;
    }
    var nw := CheckWaitees(jobs, job.waitFor.value);
    return nw == 1;
  }

  // Exactly one job has the waitee's name, clones not counted.
  ghost predicate OneJobCalled(jobs: seq<Job>, waitee: string) {
    exists p :: IsCalled(jobs, p, waitee) && forall q :: IsCalled(jobs, q, waitee) ==> q == p
  }

  predicate IsCalled(jobs: seq<Job>, p: nat, waitee: string) {
    p < |jobs| && jobs[p].subjob == 0 && jobs[p].name == waitee
  }

  lemma {:induction false} WaiteesCount(jobs: seq<Job>, waitee: string)
    ensures Waitees(jobs, waitee) == 0 <==> forall p :: !IsCalled(jobs, p, waitee)
    ensures Waitees(jobs, waitee) == 1 <==> OneJobCalled(jobs, waitee)
  {
    if jobs != [] {
      var rest, last := jobs[..|jobs| - 1], |jobs| - 1;
      WaiteesCount(rest, waitee);
      CalledNext(jobs, rest, waitee);
      if IsCalled(jobs, last, waitee) {
        assert Waitees(jobs, waitee) == Waitees(rest, waitee) + 1;
        assert OneJobCalled(jobs, waitee) <==> forall p :: !IsCalled(rest, p, waitee);
      } else {
        assert Waitees(jobs, waitee) == Waitees(rest, waitee);
        OneJobCalledIn(jobs, rest, waitee);
      }
    }
  }

  lemma CalledNext(jobs: seq<Job>, rest: seq<Job>, waitee: string)
    requires jobs != [] && rest == jobs[..|jobs| - 1]
    ensures forall p :: IsCalled(jobs, p, waitee) <==> IsCalled(rest, p, waitee) || (p == |rest| && IsCalled(jobs, |rest|, waitee))
    ensures !IsCalled(rest, |rest|, waitee)
  {}

  lemma OneJobCalledIn(jobs: seq<Job>, rest: seq<Job>, waitee: string)
    requires forall p :: IsCalled(rest, p, waitee) <==> IsCalled(jobs, p, waitee)
    ensures OneJobCalled(rest, waitee) <==> OneJobCalled(jobs, waitee)
  {
    if p :| IsCalled(rest, p, waitee) && forall q :: IsCalled(rest, q, waitee) ==> q == p {
      assert IsCalled(jobs, p, waitee);
    }
    if p :| IsCalled(jobs, p, waitee) && forall q :: IsCalled(jobs, q, waitee) ==> q == p {
      assert IsCalled(rest, p, waitee);
    }
  }

  // A wait is refused exactly if it is for the job itself, or no job or several have its name.
  lemma RefusedIff(jobs: seq<Job>, job: Job)
    ensures !WaitForOk(jobs, job) <==>
              job.waitFor.Some? && (job.waitFor == Some(job.name) || !OneJobCalled(jobs, job.waitFor.value))
  {
    if job.waitFor.Some? {
      WaiteesCount(jobs, job.waitFor.value);
    }
  }

  // Every job was accepted when it was added.
  ghost predicate Accepted(jobs: seq<Job>) {
    forall i :: 0 <= i < |jobs| ==> WaitForOk(jobs[..i + 1], jobs[i])
  }

  // Clones are added right behind the job they copy, under its name.
  ghost predicate ClonesFollow(jobs: seq<Job>) {
    forall i :: 0 <= i < |jobs| && jobs[i].subjob != 0 ==> i > 0 && jobs[i - 1].name == jobs[i].name
  }

  ghost predicate UniqueNames(jobs: seq<Job>) {
    forall i, j :: 0 <= i < j < |jobs| && jobs[i].subjob == 0 && jobs[j].subjob == 0 ==> jobs[i].name != jobs[j].name
  }

  // Every job that another one waits for comes before it.
  ghost predicate WaitsEarlier(jobs: seq<Job>) {
    forall i, w :: 0 <= i < |jobs| && 0 <= w < |jobs| && jobs[i].waitFor == Some(jobs[w].name) && jobs[w].name != jobs[i].name
                   ==> w < i
  }

  lemma {:induction false} OneWaitee(jobs: seq<Job>, waitee: string) returns (p: nat)
    requires Waitees(jobs, waitee) > 0
    ensures p < |jobs| && jobs[p].subjob == 0 && jobs[p].name == waitee
  {
    var last := |jobs| - 1;
    if jobs[last].subjob == 0 && jobs[last].name == waitee {
      p := last;
    } else {
      p := OneWaitee(jobs[..last], waitee);
    }
  }

  // The job a clone copies, with nothing but its clones in between.
  lemma {:induction false} Original(jobs: seq<Job>, w: nat) returns (p: nat)
    requires ClonesFollow(jobs) && w < |jobs|
    ensures p <= w && jobs[p].subjob == 0 && forall k :: p <= k <= w ==> jobs[k].name == jobs[w].name
  {
    if jobs[w].subjob == 0 {
      p := w;
    } else {
      p := Original(jobs, w - 1);
    }
  }

  // With names unique apart from clones, accepted waits point only to earlier jobs, clones
  // included.
  lemma AcceptedWaitsEarlier(jobs: seq<Job>)
    requires Accepted(jobs) && ClonesFollow(jobs) && UniqueNames(jobs)
    ensures WaitsEarlier(jobs)
  {
    forall i, w | 0 <= i < |jobs| && 0 <= w < |jobs| && jobs[i].waitFor == Some(jobs[w].name) && jobs[w].name != jobs[i].name
      ensures w < i
    {
      assert WaitForOk(jobs[..i + 1], jobs[i]);
      var q := OneWaitee(jobs[..i + 1], jobs[w].name);
      var p := Original(jobs, w);
      assert p == q;
    }
  }
}
