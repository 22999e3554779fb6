// How long the runs of the parallel renderer are: every interleaving ends, and after the same number
// of steps.
module ParallelRuns {
  import opened Bits
  import opened ParallelRender
  import opened Wrappers

  // The steps main still has to take.
  function MainLeft(c: Config, main: MainPc): int {
    match main
    case Spawn(i) => 2 * c.threads - i + 4
    case FixUp => c.threads + 3
    case Signal => c.threads + 2
    case Join(i) => c.threads - i + 1
    case Joined => 0
  }

  // The steps for n scanlines: one for each pixel, and one to the next scanline.
  function RowSteps(c: Config, n: int): int {
    n * (c.xres + 1)
  }

  lemma RowStepsNext(c: Config, n: int)
    ensures RowSteps(c, n) == RowSteps(c, n - 1) + c.xres + 1 && RowSteps(c, 0) == 0
  {
    Distribute(n - 1, 1, c.xres + 1);
  }

  // The steps a worker with so many scanlines still has to take.
  function WorkerLeft(c: Config, worker: Worker, count: int): int {
    match worker
    case Absent => RowSteps(c, count) + 2
    case Waiting => RowSteps(c, count) + 2
    case Row(i, x) => RowSteps(c, count - i) - x + 1
    case Finished => 0
  }

  // Those of the first n workers.
  function WorkersLeft(c: Config, t: seq<Range>, workers: seq<Worker>, n: nat): int
    requires n <= |t| && n <= |workers|
  {
    if n == 0 then 0 else WorkersLeft(c, t, workers, n - 1) + WorkerLeft(c, workers[n - 1], t[n - 1].count)
  }

  lemma {:induction false} WorkersUpdate(c: Config, t: seq<Range>, workers: seq<Worker>, n: nat, w: nat, worker: Worker)
    requires n <= |t| && n <= |workers| && w < |workers| && w < |t|
    ensures WorkersLeft(c, t, workers[w := worker], n) == WorkersLeft(c, t, workers, n)
            + if w < n then WorkerLeft(c, worker, t[w].count) - WorkerLeft(c, workers[w], t[w].count) else 0
  {
    if n > 0 {
      WorkersUpdate(c, t, workers, n - 1, w, worker);
    }
  }

  ghost function Left(c: Config, s: State): int
    requires c.threads > 0 && |c.b| == c.threads + 1 && |s.workers| == c.threads
  {
    MainLeft(c, s.main) + WorkersLeft(c, Table(c.b, c.threads, c.yres), s.workers, c.threads)
  }

  // A worker's column is within its scanline, and main joins only the threads there are.
  ghost predicate Columns(c: Config, s: State)
    requires |s.table| == |s.workers|
  {
    && (s.main.Join? ==> s.main.i <= c.threads)
    && forall w :: 0 <= w < |s.workers| && s.workers[w].Row? ==>
                  s.workers[w].x <= c.xres && (s.workers[w].i >= s.table[w].count ==> s.workers[w].x == 0)
  }

  lemma MainCounts(c: Config, s: State)
    requires Inv(c, s) && Columns(c, s) && StepMain(c, s).Some?
    ensures var s' := StepMain(c, s).value;
            Inv(c, s') && Columns(c, s') && Left(c, s') == Left(c, s) - 1
  {
    MainInv(c, s);
    assert TableOk(c, s);
    if s.main.Spawn? && s.main.i < c.threads {
      SpawnCounts(c, s.workers, s.main.i);
    }
  }

  lemma SpawnCounts(c: Config, workers: seq<Worker>, i: nat)
    requires c.threads > 0 && |c.b| == c.threads + 1 && |workers| == c.threads && i < c.threads && workers[i].Absent?
    ensures var t := Table(c.b, c.threads, c.yres);
            WorkersLeft(c, t, workers[i := Waiting], c.threads) == WorkersLeft(c, t, workers, c.threads)
  {
    WorkersUpdate(c, Table(c.b, c.threads, c.yres), workers, c.threads, i, Waiting);
  }

  lemma WorkerCounts(c: Config, s: State, w: nat)
    requires Inv(c, s) && Columns(c, s) && w < c.threads && StepWorker(c, s, w).Some?
    ensures var s' := StepWorker(c, s, w).value;
            Inv(c, s') && Columns(c, s') && Left(c, s') == Left(c, s) - 1
  {
    var s', t := StepWorker(c, s, w).value, Table(c.b, c.threads, c.yres);
    WorkerInv(c, s, w);
    OwnStep(c, s, w);
    assert s'.workers == s.workers[w := s'.workers[w]];
    WorkersUpdate(c, t, s.workers, c.threads, w, s'.workers[w]);
  }

  lemma OwnStep(c: Config, s: State, w: nat)
    requires Inv(c, s) && Columns(c, s) && w < c.threads && StepWorker(c, s, w).Some?
    ensures var s', count := StepWorker(c, s, w).value, Table(c.b, c.threads, c.yres)[w].count;
            && Columns(c, s')
            && WorkerLeft(c, s'.workers[w], count) == WorkerLeft(c, s.workers[w], count) - 1
  {
    RangeInside(c, w);
    assert Rendered(c, s, w);
    if s.workers[w].Row? {
      RowStepsNext(c, s.table[w].count - s.workers[w].i);
    }
  }

  // Every step is one of those left.
  lemma {:induction false} RunCounts(c: Config, s: State, run: seq<Action>)
    requires Inv(c, s) && Columns(c, s) && Exec(c, s, run).Some?
    ensures var s' := Exec(c, s, run).value;
            Inv(c, s') && Columns(c, s') && Left(c, s') == Left(c, s) - |run|
    decreases |run|
  {
    if run != [] {
      if run[0].MainStep? {
        MainCounts(c, s);
      } else {
        WorkerCounts(c, s, run[0].w);
      }
      RunCounts(c, Step(c, s, run[0]).value, run[1..]);
    }
  }

  // No worker has less than nothing left.
  lemma WorkerNonNegative(c: Config, s: State, w: nat)
    requires Inv(c, s) && Columns(c, s) && w < c.threads
    ensures WorkerLeft(c, s.workers[w], Table(c.b, c.threads, c.yres)[w].count) >= 0
    ensures s.main.Joined? ==> s.workers[w].Finished?
  {
    RangeInside(c, w);
    assert Rendered(c, s, w);
    var count, pc := Table(c.b, c.threads, c.yres)[w].count, s.workers[w];
    MulNat(count, c.xres + 1);
    if pc.Row? {
      RowStepsNext(c, count - pc.i);
      if pc.i < count {
        MulNat(count - pc.i - 1, c.xres + 1);
      }
    }
  }

  lemma {:induction false} WorkersNonNegative(c: Config, s: State, n: nat)
    requires Inv(c, s) && Columns(c, s) && n <= c.threads
    ensures WorkersLeft(c, Table(c.b, c.threads, c.yres), s.workers, n) >= 0
    ensures s.main.Joined? ==> WorkersLeft(c, Table(c.b, c.threads, c.yres), s.workers, n) == 0
  {
    if n > 0 {
      WorkersNonNegative(c, s, n - 1);
      WorkerNonNegative(c, s, n - 1);
    }
  }

  lemma JoinedIffNothingLeft(c: Config, s: State)
    requires Inv(c, s) && Columns(c, s)
    ensures Left(c, s) >= 0 && (s.main.Joined? <==> Left(c, s) == 0)
  {
    WorkersNonNegative(c, s, c.threads);
    assert TableOk(c, s);
  }

  // The ranges of the first n threads end where the next one starts, and all of them have the picture.
  lemma {:induction false} FreshWorkers(c: Config, workers: seq<Worker>, n: nat)
    requires Boundaries(c.b, c.threads, c.yres) && |workers| == c.threads && n <= c.threads
    requires forall w :: 0 <= w < c.threads ==> workers[w].Absent?
    ensures WorkersLeft(c, Table(c.b, c.threads, c.yres), workers, n)
            == RowSteps(c, if n == c.threads then c.yres else c.b[n]) + 2 * n
  {
    if n > 0 {
      FreshWorkers(c, workers, n - 1);
      Distribute(c.b[n - 1], End(c.b, c.threads, c.yres, n - 1) - c.b[n - 1], c.xres + 1);
    } else {
      RowStepsNext(c, 0);
    }
  }

  // EVERY INTERLEAVING ENDS, AND AFTER THE SAME NUMBER OF STEPS: no run is longer than 4 steps for each
  // thread, 4 more, one for each pixel and one for each scanline; and the runs that have joined the
  // workers are exactly the ones of that length.
  lemma RunsEndTogether(c: Config, s0: State, run: seq<Action>)
    requires Init(c, s0) && Exec(c, s0, run).Some?
    ensures |run| <= 4 * c.threads + 4 + RowSteps(c, c.yres)
    ensures Exec(c, s0, run).value.main.Joined? <==> |run| == 4 * c.threads + 4 + RowSteps(c, c.yres)
  {
    RunCounts(c, s0, run);
    FreshWorkers(c, s0.workers, c.threads);
    JoinedIffNothingLeft(c, Exec(c, s0, run).value);
  }
}
