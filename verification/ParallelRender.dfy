// The parallel renderer of c-ray-mt.c: main divides the scanlines among the worker threads,
// releases them together, and joins them; each worker renders its own scanlines into the shared
// frame buffer.  What a pixel looks like is a parameter.
module ParallelRender {
  import opened Bits
  import opened Wrappers

  type Color = nat

  // The colour render_scanline computes for column x of scanline sl.
  type Shader = (nat, nat) -> Color

  // sl_start and sl_count
  datatype Range = Range(start: nat, count: int)

  // ----- the partition -----

  // Scanline boundaries: (int) sl before each thread and after the last.  Rounding of the running
  // sum may place them anywhere as long as they do not decrease and the last thread starts within
  // the picture.
  ghost predicate Boundaries(b: seq<nat>, threads: nat, yres: nat) {
    && threads > 0 && |b| == threads + 1 && b[0] == 0
    && (forall i :: 0 <= i < threads ==> b[i] <= b[i + 1])
    && b[threads - 1] <= yres
  }

  // Where thread i's scanlines end: the last thread takes what is left.
  function End(b: seq<nat>, threads: nat, yres: nat, i: nat): int
    requires i < threads && |b| == threads + 1
  {
    if i == threads - 1 then yres else b[i + 1]
  }

  // The thread table once the last count is fixed up.
  function Table(b: seq<nat>, threads: nat, yres: nat): (t: seq<Range>)
    requires threads > 0 && |b| == threads + 1
    ensures |t| == threads
  {
    seq(threads, i requires 0 <= i < threads => Range(b[i], End(b, threads, yres, i) - b[i]))
  }

  predicate Owns(r: Range, row: nat) {
    r.start <= row < r.start + r.count
  }

  lemma {:induction false} BoundariesMonotone(b: seq<nat>, threads: nat, yres: nat, i: nat, j: nat)
    requires Boundaries(b, threads, yres) && i <= j <= threads
    ensures b[i] <= b[j]
    decreases j
  {
    if i < j {
      BoundariesMonotone(b, threads, yres, i, j - 1);
    }
  }

  // The owner of a scanline.
  lemma {:induction false} Owner(b: seq<nat>, threads: nat, yres: nat, row: nat, k: nat) returns (w: nat)
    requires Boundaries(b, threads, yres) && row < yres && k < threads && b[k] <= row
    ensures w < threads && Owns(Table(b, threads, yres)[w], row)
    decreases threads - k
  {
    if k == threads - 1 || row < b[k + 1] {
      w := k;
    } else {
      w := Owner(b, threads, yres, row, k + 1);
    }
  }

  // PARTITION: however the boundaries were rounded, every scanline of the picture belongs to
  // exactly one thread, and no thread has any other.
  lemma Partition(b: seq<nat>, threads: nat, yres: nat, row: nat)
    requires Boundaries(b, threads, yres)
    ensures var t := Table(b, threads, yres);
            && (row < yres <==> exists w :: 0 <= w < threads && Owns(t[w], row))
            && (forall v, w :: 0 <= v < threads && 0 <= w < threads && Owns(t[v], row) && Owns(t[w], row) ==> v == w)
  {
    var t := Table(b, threads, yres);
    if row < yres {
      var w := Owner(b, threads, yres, row, 0);
    }
    forall w | 0 <= w < threads && Owns(t[w], row)
      ensures row < yres
    {
      BoundariesMonotone(b, threads, yres, w + 1, threads - 1 + if w == threads - 1 then 1 else 0);
    }
    forall v, w | 0 <= v < threads && 0 <= w < threads && Owns(t[v], row) && Owns(t[w], row)
      ensures v == w
    {
      if v < w {
        BoundariesMonotone(b, threads, yres, v + 1, w);
      } else if w < v {
        BoundariesMonotone(b, threads, yres, w + 1, v);
      }
    }
  }

  // In exact arithmetic boundary i is i * yres / threads, rounded down.
  function Exact(threads: nat, yres: nat, i: nat): nat
    requires threads > 0
  {
    MulNat(i, yres);
    DivMod(i * yres, threads);
    i * yres / threads
  }

  lemma ExactFloor(threads: nat, yres: nat, i: nat, per: real)
    requires threads > 0 && per == yres as real / threads as real
    ensures (i as real * per).Floor == Exact(threads, yres, i)
    ensures i as real * per + per == (i + 1) as real * per
  {
    MulNat(i, yres);
    DivMod(i * yres, threads);
    RealQuotient(i, yres, threads, Exact(threads, yres, i));
  }

  lemma RealQuotient(i: nat, y: nat, n: nat, q: nat)
    requires n > 0 && q * n <= i * y < (q + 1) * n
    ensures q as real <= i as real * (y as real / n as real) < (q + 1) as real
  {
    DivideReal(y as real, n as real);
    ToReal(i, y);
    ToReal(q, n);
    ToReal(q + 1, n);
    Between(i as real, y as real, n as real, y as real / n as real, q as real, (q + 1) as real);
  }

  lemma Between(i: real, y: real, d: real, r: real, a: real, b: real)
    requires d > 0.0 && r * d == y && a * d <= i * y < b * d
    ensures a <= i * r < b
  {
    AssocReal(i, r, d);
    CancelReal(a, i * r, d);
    CancelReal(i * r, b, d);
  }

  lemma ExactBoundaries(threads: nat, yres: nat)
    requires threads > 0
    ensures Boundaries(seq(threads + 1, i requires 0 <= i <= threads => Exact(threads, yres, i)), threads, yres)
    ensures Exact(threads, yres, threads) == yres
  {
    forall i | 0 <= i < threads
      ensures Exact(threads, yres, i) <= Exact(threads, yres, i + 1)
    {
      ExactMono(threads, yres, i, i + 1);
    }
    DivModUnique(threads * yres, threads, yres, 0);
    ExactMono(threads, yres, threads - 1, threads);
    assert Exact(threads, yres, 0) == 0 by { DivModUnique(0, threads, 0, 0); }
  }

  lemma ExactMono(threads: nat, yres: nat, i: nat, j: nat)
    requires threads > 0 && i <= j
    ensures Exact(threads, yres, i) <= Exact(threads, yres, j)
  {
    MulMono(i, j, yres);
    MulNat(i, yres);
    DivMod(i * yres, threads);
    DivMod(j * yres, threads);
    Cancel(i * yres / threads, j * yres / threads, threads);
  }

  function ExactAll(threads: nat, yres: nat): seq<nat>
    requires threads > 0
  {
    seq(threads + 1, i requires 0 <= i <= threads => Exact(threads, yres, i))
  }

  // The loop that fills the thread table, with sl an exact real.
  method BuildTable(threads: array<Range>, yres: nat)
    requires threads.Length > 0
    modifies threads
    ensures threads[..] == Table(ExactAll(threads.Length, yres), threads.Length, yres)
  {
    var n := threads.Length;
    var sl := 0.0;
    var per := yres as real / n as real;
    for i := 0 to n
      invariant sl == i as real * per
      invariant forall k :: 0 <= k < i ==> threads[k] == Range(Exact(n, yres, k), Exact(n, yres, k + 1) - Exact(n, yres, k))
    {
      ExactFloor(n, yres, i, per);
      ExactFloor(n, yres, i + 1, per);
      var start := sl.Floor;
      sl := sl + per;
      threads[i] := Range(start, sl.Floor - start);
    }
    threads[n - 1] := Range(threads[n - 1].start, yres - threads[n - 1].start);
  }

  // ----- pixels -----

  // Where a pixel is in the frame buffer.
  function Index(xres: nat, sl: nat, x: nat): nat {
    MulNat(sl, xres);
    sl * xres + x
  }

  lemma IndexInside(xres: nat, yres: nat, sl: nat, x: nat)
    requires sl < yres && x < xres
    ensures Index(xres, sl, x) < Size(xres, yres)
  {
    MulMono(sl + 1, yres, xres);
    Distribute(sl, 1, xres);
  }

  function Size(xres: nat, yres: nat): nat {
    MulNat(yres, xres);
    yres * xres
  }

  lemma IndexInjective(xres: nat, sl: nat, x: nat, sl': nat, x': nat)
    requires x < xres && x' < xres && Index(xres, sl, x) == Index(xres, sl', x')
    ensures sl == sl' && x == x'
  {
    QuotientUnique(xres, sl, x, sl', x');
  }

  // The pixel has its final colour.
  ghost predicate Done(fb: seq<Color>, xres: nat, shade: Shader, sl: nat, x: nat) {
    Index(xres, sl, x) < |fb| && fb[Index(xres, sl, x)] == shade(x, sl)
  }

  // Writing one pixel's colour spoils no other, whoever writes it.
  lemma WriteKeeps(fb: seq<Color>, xres: nat, shade: Shader, sl: nat, x: nat, sl': nat, x': nat)
    requires x < xres && x' < xres && Index(xres, sl', x') < |fb| && Done(fb, xres, shade, sl, x)
    ensures Done(fb[Index(xres, sl', x') := shade(x', sl')], xres, shade, sl, x)
  {
    if Index(xres, sl, x) == Index(xres, sl', x') {
      IndexInjective(xres, sl, x, sl', x');
    }
  }

  // The picture a single loop over the scanlines makes.
  function Image(xres: nat, yres: nat, shade: Shader): seq<Color> {
    seq(Size(xres, yres), k requires 0 <= k < Size(xres, yres) => PixelAt(xres, k, shade))
  }

  function PixelAt(xres: nat, k: nat, shade: Shader): Color {
    if xres == 0 then 0 else
      DivMod(k, xres);
      shade(k % xres, k / xres)
  }

  lemma AllDoneIsImage(fb: seq<Color>, xres: nat, yres: nat, shade: Shader)
    requires |fb| == Size(xres, yres)
    requires forall sl, x :: 0 <= sl < yres && 0 <= x < xres ==> Done(fb, xres, shade, sl, x)
    ensures fb == Image(xres, yres, shade)
  {
    forall k | 0 <= k < |fb|
      ensures fb[k] == PixelAt(xres, k, shade)
    {
      if xres > 0 {
        DivMod(k, xres);
        var sl, x := k / xres, k % xres;
        RowInside(k, xres, yres, sl, x);
        assert Done(fb, xres, shade, sl, x);
        assert Index(xres, sl, x) == k;
      }
    }
  }

  lemma RowInside(k: nat, xres: nat, yres: nat, sl: nat, x: nat)
    requires k == sl * xres + x && k < Size(xres, yres)
    ensures sl < yres
  {
    if sl >= yres {
      MulMono(yres, sl, xres);
    }
  }

  // ----- the loops on the frame buffer -----

  method RenderScanline(fb: array<Color>, xsz: nat, ghost yres: nat, sl: nat, shade: Shader)
    requires fb.Length == Size(xsz, yres) && sl < yres
    modifies fb
    ensures forall x :: 0 <= x < xsz ==> Done(fb[..], xsz, shade, sl, x)
    ensures forall sl', x :: 0 <= sl' && 0 <= x < xsz && Done(old(fb[..]), xsz, shade, sl', x) ==> Done(fb[..], xsz, shade, sl', x)
  {
    for i := 0 to xsz
      invariant forall x :: 0 <= x < i ==> Done(fb[..], xsz, shade, sl, x)
      invariant forall sl', x :: 0 <= sl' && 0 <= x < xsz && Done(old(fb[..]), xsz, shade, sl', x) ==> Done(fb[..], xsz, shade, sl', x)
    {
      ghost var was := fb[..];
      IndexInside(xsz, yres, sl, i);
      fb[Index(xsz, sl, i)] := shade(i, sl);
      assert fb[..] == was[Index(xsz, sl, i) := shade(i, sl)];
      forall sl', x | 0 <= sl' && 0 <= x < xsz && Done(was, xsz, shade, sl', x)
        ensures Done(fb[..], xsz, shade, sl', x)
      {
        WriteKeeps(was, xsz, shade, sl', x, sl, i);
      }
    }
  }

  // The loop of thread_func; a range covering the picture makes it the sequential renderer.
  method ThreadFunc(fb: array<Color>, xres: nat, ghost yres: nat, r: Range, shade: Shader)
    requires fb.Length == Size(xres, yres) && r.count >= 0 && r.start + r.count <= yres
    modifies fb
    ensures forall sl, x :: Owns(r, sl) && 0 <= x < xres ==> Done(fb[..], xres, shade, sl, x)
    ensures forall sl, x :: 0 <= sl && 0 <= x < xres && Done(old(fb[..]), xres, shade, sl, x) ==> Done(fb[..], xres, shade, sl, x)
    ensures r == Range(0, yres) ==> fb[..] == Image(xres, yres, shade)
  {
    for i := 0 to r.count
      invariant forall sl, x :: r.start <= sl < r.start + i && 0 <= x < xres ==> Done(fb[..], xres, shade, sl, x)
      invariant forall sl, x :: 0 <= sl && 0 <= x < xres && Done(old(fb[..]), xres, shade, sl, x) ==> Done(fb[..], xres, shade, sl, x)
    {
      RenderScanline(fb, xres, yres, i + r.start, shade);
    }
    if r == Range(0, yres) {
      AllDoneIsImage(fb[..], xres, yres, shade);
    }
  }

  // ----- main and the workers, interleaved -----

  datatype Config = Config(xres: nat, yres: nat, threads: nat, b: seq<nat>, shade: Shader)

  datatype Worker =
    | Absent
    | Waiting                // for the start flag
    | Row(i: nat, x: nat)    // rendering its i-th scanline, before column x
    | Finished

  datatype MainPc =
    | Spawn(i: nat)          // about to make thread i
    | FixUp                  // about to set the last count
    | Signal                 // about to set the start flag
    | Join(i: nat)           // waiting for thread i to end
    | Joined

  datatype State = State(main: MainPc, started: bool, table: seq<Range>, workers: seq<Worker>, fb: seq<Color>)

  datatype Action = MainStep | WorkerStep(w: nat)

  function StepMain(c: Config, s: State): Option<State>
    requires c.threads > 0 && |c.b| == c.threads + 1 && |s.table| == |s.workers| == c.threads
  {
    match s.main
    case Spawn(i) =>
      if i < c.threads
      then Some(s.(table := s.table[i := Range(c.b[i], c.b[i + 1] as int - c.b[i])],
                   workers := s.workers[i := Waiting], main := Spawn(i + 1)))
      else Some(s.(main := FixUp))
    case FixUp =>
      var last := c.threads - 1;
      Some(s.(table := s.table[last := s.table[last].(count := c.yres as int - s.table[last].start)], main := Signal))
    case Signal => Some(s.(started := true, main := Join(0)))
    case Join(i) =>
      if i >= c.threads then Some(s.(main := Joined))
      else if s.workers[i].Finished? then Some(s.(main := Join(i + 1)))
      else None
    case Joined => None
  }

  // A write outside the frame buffer has no step.
  function StepWorker(c: Config, s: State, w: nat): Option<State>
    requires |s.table| == |s.workers| && w < |s.workers|
  {
    match s.workers[w]
    case Absent => None
    case Waiting => if s.started then Some(s.(workers := s.workers[w := Row(0, 0)])) else None
    case Row(i, x) =>
      var sl := i + s.table[w].start;
      if i >= s.table[w].count then Some(s.(workers := s.workers[w := Finished]))
      else if x >= c.xres then Some(s.(workers := s.workers[w := Row(i + 1, 0)]))
      else if Index(c.xres, sl, x) < |s.fb|
      then Some(s.(fb := s.fb[Index(c.xres, sl, x) := c.shade(x, sl)], workers := s.workers[w := Row(i, x + 1)]))
      else None
    case Finished => None
  }

  function Step(c: Config, s: State, a: Action): Option<State>
    requires c.threads > 0 && |c.b| == c.threads + 1
  {
    if |s.table| != c.threads || |s.workers| != c.threads then None
    else match a
         case MainStep => StepMain(c, s)
         case WorkerStep(w) => if w < c.threads then StepWorker(c, s, w) else None
  }

  function Exec(c: Config, s: State, run: seq<Action>): Option<State>
    requires c.threads > 0 && |c.b| == c.threads + 1
    decreases |run|
  {
    if run == [] then Some(s)
    else match Step(c, s, run[0])
         case None => None
         case Some(s') => Exec(c, s', run[1..])
  }

  ghost predicate Init(c: Config, s: State) {
    && Boundaries(c.b, c.threads, c.yres)
    && s.main == Spawn(0) && !s.started && |s.table| == |s.workers| == c.threads && |s.fb| == Size(c.xres, c.yres)
    && forall w :: 0 <= w < c.threads ==> s.workers[w] == Absent
  }

  // ----- the invariant -----

  // The first x pixels of scanline sl are done.
  ghost predicate UpTo(c: Config, fb: seq<Color>, sl: nat, x: nat) {
    forall k :: 0 <= k < x && k < c.xres ==> Done(fb, c.xres, c.shade, sl, k)
  }

  lemma UpToKept(c: Config, fb: seq<Color>, sl: nat, upto: nat, sl': nat, x: nat)
    requires UpTo(c, fb, sl, upto) && x < c.xres && Index(c.xres, sl', x) < |fb|
    ensures UpTo(c, fb[Index(c.xres, sl', x) := c.shade(x, sl')], sl, upto)
  {
    var fb' := fb[Index(c.xres, sl', x) := c.shade(x, sl')];
    forall k | 0 <= k < upto && k < c.xres
      ensures Done(fb', c.xres, c.shade, sl, k)
    {
      assert Done(fb, c.xres, c.shade, sl, k);
      WriteKeeps(fb, c.xres, c.shade, sl, k, sl', x);
    }
  }

  // What worker w has rendered.
  ghost predicate Rendered(c: Config, s: State, w: nat)
    requires w < |s.workers| && |s.table| == |s.workers|
  {
    var r := s.table[w];
    match s.workers[w]
    case Absent => true
    case Waiting => true
    case Row(i, x) =>
      && i <= r.count
      && (forall sl :: r.start <= sl < r.start + i ==> UpTo(c, s.fb, sl, c.xres))
      && (i < r.count ==> UpTo(c, s.fb, r.start + i, x))
    case Finished =>
      forall sl :: Owns(r, sl) ==> UpTo(c, s.fb, sl, c.xres)
  }

  ghost predicate TableOk(c: Config, s: State)
    requires Boundaries(c.b, c.threads, c.yres) && |s.table| == |s.workers| == c.threads
  {
    match s.main
    case Spawn(i) =>
      && i <= c.threads
      && (forall k :: 0 <= k < i ==> s.table[k] == Range(c.b[k], c.b[k + 1] as int - c.b[k]) && s.workers[k].Waiting?)
      && (forall k :: i <= k < c.threads ==> s.workers[k].Absent?)
    case FixUp =>
      forall k :: 0 <= k < c.threads ==> s.table[k] == Range(c.b[k], c.b[k + 1] as int - c.b[k]) && s.workers[k].Waiting?
    case Signal => s.table == Table(c.b, c.threads, c.yres) && forall k :: 0 <= k < c.threads ==> s.workers[k].Waiting?
    case Join(i) => s.table == Table(c.b, c.threads, c.yres) && forall k :: 0 <= k < i && k < c.threads ==> s.workers[k].Finished?
    case Joined => s.table == Table(c.b, c.threads, c.yres) && forall k :: 0 <= k < c.threads ==> s.workers[k].Finished?
  }

  // Everything but what the workers have rendered.
  ghost predicate Frame(c: Config, s: State) {
    && Boundaries(c.b, c.threads, c.yres)
    && |s.table| == |s.workers| == c.threads && |s.fb| == Size(c.xres, c.yres)
    && (s.started <==> s.main.Join? || s.main.Joined?)
    && (forall w :: 0 <= w < c.threads && !s.started ==> s.workers[w].Absent? || s.workers[w].Waiting?)
    && TableOk(c, s)
    && (s.started ==> forall w :: 0 <= w < c.threads ==> !s.workers[w].Absent?)
  }

  ghost predicate Inv(c: Config, s: State) {
    Frame(c, s) && forall w :: 0 <= w < c.threads ==> Rendered(c, s, w)
  }

  lemma RangeInside(c: Config, w: nat)
    requires Boundaries(c.b, c.threads, c.yres) && w < c.threads
    ensures var r := Table(c.b, c.threads, c.yres)[w]; r.count >= 0 && r.start + r.count <= c.yres
  {
    if w < c.threads - 1 {
      BoundariesMonotone(c.b, c.threads, c.yres, w, w + 1);
      BoundariesMonotone(c.b, c.threads, c.yres, w + 1, c.threads - 1);
    }
  }

  lemma FixUpCompletes(c: Config, s: State)
    requires Inv(c, s) && s.main.FixUp?
    ensures StepMain(c, s).value.table == Table(c.b, c.threads, c.yres)
  {
    var t, t' := StepMain(c, s).value.table, Table(c.b, c.threads, c.yres);
    forall k | 0 <= k < c.threads
      ensures t[k] == t'[k]
    {
      assert s.table[k] == Range(c.b[k], c.b[k + 1] as int - c.b[k]);
    }
  }

  lemma MainFrame(c: Config, s: State)
    requires Inv(c, s) && StepMain(c, s).Some?
    ensures Frame(c, StepMain(c, s).value)
  {
    if s.main.FixUp? {
      FixUpCompletes(c, s);
    }
  }

  lemma MainRendered(c: Config, s: State, w: nat)
    requires Inv(c, s) && StepMain(c, s).Some? && w < c.threads
    ensures |StepMain(c, s).value.workers| == |StepMain(c, s).value.table| == c.threads
    ensures Rendered(c, StepMain(c, s).value, w)
  {
    assert Rendered(c, s, w);
  }

  lemma MainInv(c: Config, s: State)
    requires Inv(c, s) && StepMain(c, s).Some?
    ensures Inv(c, StepMain(c, s).value)
  {
    MainFrame(c, s);
    forall w | 0 <= w < c.threads
      ensures Rendered(c, StepMain(c, s).value, w)
    {
      MainRendered(c, s, w);
    }
  }

  // A worker's write leaves what any worker has rendered.
  lemma RenderedKept(c: Config, s: State, s': State, w: nat, sl: nat, x: nat)
    requires |s.table| == |s.workers| && w < |s.workers| && |s'.workers| == |s.workers|
    requires s'.table == s.table && s'.workers[w] == s.workers[w] && Rendered(c, s, w)
    requires x < c.xres && Index(c.xres, sl, x) < |s.fb|
    requires s'.fb == s.fb[Index(c.xres, sl, x) := c.shade(x, sl)]
    ensures Rendered(c, s', w)
  {
    forall sl', upto: nat | 0 <= sl' && UpTo(c, s.fb, sl', upto)
      ensures UpTo(c, s'.fb, sl', upto)
    {
      UpToKept(c, s.fb, sl', upto, sl, x);
    }
  }

  // The worker's own progress when it writes.
  lemma RenderedMore(c: Config, s: State, w: nat)
    requires Inv(c, s) && w < c.threads && StepWorker(c, s, w).Some?
    requires s.workers[w].Row? && s.workers[w].i < s.table[w].count && s.workers[w].x < c.xres
    ensures Rendered(c, StepWorker(c, s, w).value, w)
  {
    var s', pc := StepWorker(c, s, w).value, s.workers[w];
    var sl, start := pc.i + s.table[w].start, s.table[w].start;
    assert Rendered(c, s, w);
    forall sl' | start <= sl' < start + pc.i
      ensures UpTo(c, s'.fb, sl', c.xres)
    {
      UpToKept(c, s.fb, sl', c.xres, sl, pc.x);
    }
    UpToKept(c, s.fb, sl, pc.x, sl, pc.x);
    assert Done(s'.fb, c.xres, c.shade, sl, pc.x);
  }

  lemma WorkerFrame(c: Config, s: State, w: nat)
    requires Inv(c, s) && w < c.threads && StepWorker(c, s, w).Some?
    ensures Frame(c, StepWorker(c, s, w).value)
  {}

  lemma WorkerRendered(c: Config, s: State, w: nat, v: nat)
    requires Inv(c, s) && w < c.threads && v < c.threads && StepWorker(c, s, w).Some?
    ensures |StepWorker(c, s, w).value.workers| == |StepWorker(c, s, w).value.table| == c.threads
    ensures Rendered(c, StepWorker(c, s, w).value, v)
  {
    var s', pc := StepWorker(c, s, w).value, s.workers[w];
    RangeInside(c, w);
    assert Rendered(c, s, v);
    if pc.Row? && pc.i < s.table[w].count && pc.x < c.xres {
      if v == w {
        RenderedMore(c, s, w);
      } else {
        RenderedKept(c, s, s', v, pc.i + s.table[w].start, pc.x);
      }
    }
  }

  lemma WorkerInv(c: Config, s: State, w: nat)
    requires Inv(c, s) && w < c.threads && StepWorker(c, s, w).Some?
    ensures Inv(c, StepWorker(c, s, w).value)
  {
    WorkerFrame(c, s, w);
    forall v | 0 <= v < c.threads
      ensures Rendered(c, StepWorker(c, s, w).value, v)
    {
      WorkerRendered(c, s, w, v);
    }
  }

  lemma {:induction false} ExecInv(c: Config, s: State, run: seq<Action>)
    requires Inv(c, s) && Exec(c, s, run).Some?
    ensures Inv(c, Exec(c, s, run).value)
    decreases |run|
  {
    if run != [] {
      if run[0].MainStep? {
        MainInv(c, s);
      } else {
        WorkerInv(c, s, run[0].w);
      }
      ExecInv(c, Step(c, s, run[0]).value, run[1..]);
    }
  }

  // PARALLEL EQUALS SEQUENTIAL: whatever the interleaving and however the boundaries were rounded,
  // once main has joined the workers the frame buffer holds the sequential picture.
  lemma ParallelIsSequential(c: Config, s0: State, run: seq<Action>)
    requires Init(c, s0) && Exec(c, s0, run).Some? && Exec(c, s0, run).value.main.Joined?
    ensures Exec(c, s0, run).value.fb == Image(c.xres, c.yres, c.shade)
  {
    ExecInv(c, s0, run);
    var s := Exec(c, s0, run).value;
    forall sl, x | 0 <= sl < c.yres && 0 <= x < c.xres
      ensures Done(s.fb, c.xres, c.shade, sl, x)
    {
      var w := Owner(c.b, c.threads, c.yres, sl, 0);
      assert Rendered(c, s, w);
      assert UpTo(c, s.fb, sl, c.xres);
    }
    AllDoneIsImage(s.fb, c.xres, c.yres, c.shade);
  }

  // No worker reads its range before the last count is fixed up.
  lemma RangesReadAfterFixUp(c: Config, s0: State, run: seq<Action>, w: nat)
    requires Init(c, s0) && Exec(c, s0, run).Some? && w < |Exec(c, s0, run).value.workers|
    requires Exec(c, s0, run).value.workers[w].Row? || Exec(c, s0, run).value.workers[w].Finished?
    ensures Exec(c, s0, run).value.table == Table(c.b, c.threads, c.yres)
  {
    ExecInv(c, s0, run);
  }

  // No two workers ever write the same pixel, and none writes outside the frame buffer.
  lemma NoRace(c: Config, s0: State, run: seq<Action>, v: nat, w: nat)
    requires Init(c, s0) && Exec(c, s0, run).Some?
    requires v < |Exec(c, s0, run).value.workers| && w < |Exec(c, s0, run).value.workers| && v != w
    requires var s := Exec(c, s0, run).value;
             && |s.table| == |s.workers| && s.workers[v].Row? && s.workers[w].Row?
             && s.workers[v].i < s.table[v].count && s.workers[w].i < s.table[w].count
             && s.workers[v].x < c.xres && s.workers[w].x < c.xres
    ensures var s := Exec(c, s0, run).value;
            var at, at' := Index(c.xres, s.workers[v].i + s.table[v].start, s.workers[v].x),
                           Index(c.xres, s.workers[w].i + s.table[w].start, s.workers[w].x);
            at != at' && at < |s.fb|
  {
    ExecInv(c, s0, run);
    var s := Exec(c, s0, run).value;
    var slv, slw := s.workers[v].i + s.table[v].start, s.workers[w].i + s.table[w].start;
    RenderingRow(c, s, v);
    RenderingRow(c, s, w);
    IndexInside(c.xres, c.yres, slv, s.workers[v].x);
    if Index(c.xres, slv, s.workers[v].x) == Index(c.xres, slw, s.workers[w].x) {
      IndexInjective(c.xres, slv, s.workers[v].x, slw, s.workers[w].x);
      OneOwner(c, v, w, slv);
    }
  }

  // The scanline a worker is rendering is in the picture, and its own.
  lemma RenderingRow(c: Config, s: State, w: nat)
    requires Inv(c, s) && w < c.threads && s.workers[w].Row? && s.workers[w].i < s.table[w].count
    ensures var row := s.workers[w].i + s.table[w].start;
            row < c.yres && Owns(Table(c.b, c.threads, c.yres)[w], row)
  {
    RangeInside(c, w);
  }

  lemma OneOwner(c: Config, v: nat, w: nat, row: nat)
    requires Boundaries(c.b, c.threads, c.yres) && v < c.threads && w < c.threads
    requires Owns(Table(c.b, c.threads, c.yres)[v], row) && Owns(Table(c.b, c.threads, c.yres)[w], row)
    ensures v == w
  {
    Partition(c.b, c.threads, c.yres, row);
  }

  // The threads never get stuck: until main has joined them all, somebody can run.
  lemma NoDeadlock(c: Config, s0: State, run: seq<Action>)
    requires Init(c, s0) && Exec(c, s0, run).Some? && !Exec(c, s0, run).value.main.Joined?
    ensures exists a :: Step(c, Exec(c, s0, run).value, a).Some?
  {
    ExecInv(c, s0, run);
    var s := Exec(c, s0, run).value;
    if s.main.Join? && s.main.i < c.threads && !s.workers[s.main.i].Finished? {
      var w := s.main.i;
      RangeInside(c, w);
      assert Rendered(c, s, w);
      var pc := s.workers[w];
      if pc.Row? && pc.i < s.table[w].count && pc.x < c.xres {
        IndexInside(c.xres, c.yres, pc.i + s.table[w].start, pc.x);
      }
      assert Step(c, s, WorkerStep(w)).Some?;
    } else {
      assert Step(c, s, MainStep).Some?;
    }
  }
}
