// The dedupe working set of dedupe.c: the random states from which a job regenerates its unique
// pages, taken from its own seed or, with global dedupe, from the seeds of all jobs in rotation.
// The random generator's state and its step are parameters.
module DedupeSeeds {
  import opened Bits

  // __get_next_seed, k times
  function Advance<S>(next: S -> S, s: S, k: nat): S {
    if k == 0 then s else next(Advance(next, s, k - 1))
  }

  function Product(k: nat, i: nat): nat {
    MulNat(k, i);
    k * i
  }

  lemma ProductNext(k: nat, i: nat)
    ensures Product(k, i + 1) == Product(k, i) + k
  {}

  // pages_per_seed, for n unique pages and a number of jobs
  function PagesPerSeed(n: nat, jobs: nat): (p: nat)
    requires jobs > 0
    ensures p > 0
  {
    DivMod(n, jobs);
    if n / jobs > 1 then n / jobs else 1
  }

  // The pages are dealt out evenly and rounded down, but at least one page a seed: no more than there
  // are, and one more each would be too many.
  lemma PagesRoundDown(n: nat, jobs: nat)
    requires jobs > 0
    ensures n >= jobs ==> Product(PagesPerSeed(n, jobs), jobs) <= n
    ensures n < Product(PagesPerSeed(n, jobs) + 1, jobs)
    ensures n < jobs ==> PagesPerSeed(n, jobs) == 1
  {
    DivMod(n, jobs);
    var p := PagesPerSeed(n, jobs);
    if n >= jobs {
      DivideUp(n, jobs);
    } else {
      DivModUnique(n, jobs, 0, n);
      Twice(1, jobs);
    }
  }

  lemma DivideUp(n: nat, jobs: nat)
    requires 0 < jobs <= n
    ensures n / jobs >= 1
  {
    DivMod(n, jobs);
    if n / jobs < 1 {
      MulMono(n / jobs + 1, 1, jobs);
    }
  }

  // The seed of the job with index b, counted around.
  function SeedAfter<S>(seeds: seq<S>, b: nat): S
    requires seeds != []
  {
    DivMod(b, |seeds|);
    seeds[b % |seeds|]
  }

  // Entry i of the working set of the job with index b: `seeds` are the jobs' buf_states and k the
  // number of seed advancements a page takes.
  function Entry<S>(next: S -> S, seeds: seq<S>, b: nat, k: nat, p: nat, i: nat): S
    requires seeds != [] && p > 0
  {
    DivMod(i, p);
    Advance(next, SeedAfter(seeds, b + i / p), Product(k, i % p))
  }

  lemma {:induction false} AdvanceAdd<S>(next: S -> S, s: S, j: nat, k: nat)
    ensures Advance(next, Advance(next, s, j), k) == Advance(next, s, j + k)
    decreases k
  {
    if k > 0 {
      AdvanceAdd(next, s, j, k - 1);
    }
  }

  // Page i either starts the next job's seed or follows page i - 1 on the same one.
  lemma NextPage(i: nat, p: nat)
    requires p > 0
    ensures (i + 1) % p == 0 ==> (i + 1) / p == i / p + 1
    ensures (i + 1) % p != 0 ==> (i + 1) / p == i / p && (i + 1) % p == i % p + 1
  {
    DivMod(i, p);
    var q, r := i / p, i % p;
    if r + 1 < p {
      DivModUnique(i + 1, p, q, r + 1);
    } else {
      Distribute(q, 1, p);
      DivModUnique(i + 1, p, q + 1, 0);
    }
  }

  lemma NextEntry<S>(next: S -> S, seeds: seq<S>, b: nat, k: nat, p: nat, i: nat)
    requires seeds != [] && p > 0
    ensures (i + 1) % p == 0 ==> Entry(next, seeds, b, k, p, i + 1) == SeedAfter(seeds, b + i / p + 1)
    ensures (i + 1) % p != 0 ==>
              Entry(next, seeds, b, k, p, i + 1) == Advance(next, Entry(next, seeds, b, k, p, i), k)
  {
    NextPage(i, p);
    DivMod(i, p);
    if (i + 1) % p != 0 {
      AdvanceAdd(next, SeedAfter(seeds, b + i / p), Product(k, i % p), k);
      ProductNext(k, i % p);
    } else {
      assert b + (i + 1) / p == b + i / p + 1;
      assert Product(k, 0) == 0;
    }
  }

  // Page i's state: with global dedupe the entry in rotation, otherwise the job's own seed advanced
  // k times per page.
  function Page<S>(next: S -> S, seeds: seq<S>, b: nat, k: nat, p: nat, global: bool, i: nat): S
    requires b < |seeds| && p > 0
  {
    if global then Entry(next, seeds, b, k, p, i) else Advance(next, seeds[b], Product(k, i))
  }

  // The seed changes made up to page i.
  function Turns(i: nat, p: nat, global: bool): nat
    requires p > 0
  {
    DivMod(i, p);
    if global then i / p else 0
  }

  lemma NextTurns(i: nat, p: nat, global: bool)
    requires p > 0
    ensures Turns(i + 1, p, global) == Turns(i, p, global) + if global && (i + 1) % p == 0 then 1 else 0
  {
    NextPage(i, p);
  }

  lemma NextState<S>(next: S -> S, seeds: seq<S>, b: nat, k: nat, p: nat, global: bool, i: nat)
    requires b < |seeds| && p > 0
    ensures Page(next, seeds, b, k, p, global, i + 1)
            == if global && (i + 1) % p == 0 then SeedAfter(seeds, b + Turns(i + 1, p, global))
               else Advance(next, Page(next, seeds, b, k, p, global, i), k)
  {
    if global {
      NextPage(i, p);
      NextEntry(next, seeds, b, k, p, i);
    } else {
      AdvanceAdd(next, seeds[b], Product(k, i), k);
      ProductNext(k, i);
    }
  }

  lemma {:induction false} AdvanceCounts(next: nat -> nat, s: nat, k: nat)
    requires forall x: nat :: next(x) == x + 1
    ensures Advance(next, s, k) == s + k
  {
    if k > 0 {
      AdvanceCounts(next, s, k - 1);
    }
  }

  // With a generator that counts, page i shows where it comes from: k steps a page from the job's own
  // seed, or with global dedupe from the seed of the job whose turn it is, p pages a job.
  lemma CountingPages(next: nat -> nat, seeds: seq<nat>, b: nat, k: nat, p: nat, i: nat)
    requires b < |seeds| && p > 0 && forall x: nat :: next(x) == x + 1
    ensures Page<nat>(next, seeds, b, k, p, false, i) == seeds[b] + Product(k, i)
    ensures 0 <= i / p && 0 <= i % p
    ensures Page<nat>(next, seeds, b, k, p, true, i) == SeedAfter<nat>(seeds, b + i / p) + Product(k, i % p)
  {
    DivMod(i, p);
    AdvanceCounts(next, seeds[b], Product(k, i));
    AdvanceCounts(next, SeedAfter(seeds, b + i / p), Product(k, i % p));
  }

  method AdvanceState<S>(next: S -> S, s: S, k: nat) returns (state: S)
    ensures state == Advance(next, s, k)
  {
    state := s;
    for j := 0 to k
      invariant state == Advance(next, s, j)
    {
      state := next(state);
    }
  }

  // The whole working set with global dedupe.
  function WorkingSet<S>(next: S -> S, seeds: seq<S>, b: nat, k: nat, p: nat, n: nat): (w: seq<S>)
    requires seeds != [] && p > 0
  {
    seq(n, i requires 0 <= i < n => Entry(next, seeds, b, k, p, i))
  }

  // init_dedupe_working_set_seeds for the job with index b and n > 0 unique pages.
  method InitSeeds<S>(next: S -> S, seeds: seq<S>, b: nat, n: nat, k: nat, global: bool) returns (states: array<S>)
    requires b < |seeds| && n > 0
    ensures fresh(states) && states.Length == n
    ensures forall i :: 0 <= i < n ==> states[i] == Page(next, seeds, b, k, PagesPerSeed(n, |seeds|), global, i)
    ensures global ==> states[..] == WorkingSet(next, seeds, b, k, PagesPerSeed(n, |seeds|), n)
  {
    var tindex := b;
    var state := seeds[b];
    states := new S[n](_ => state);
    var p := PagesPerSeed(n, |seeds|);
    FirstEntry(next, seeds, b, k, p);
    for i := 1 to n
      invariant tindex == b + Turns(i - 1, p, global)
      invariant state == Page(next, seeds, b, k, p, global, i - 1)
      invariant forall j :: 0 <= j < i ==> states[j] == Page(next, seeds, b, k, p, global, j)
    {
      NextState(next, seeds, b, k, p, global, i - 1);
      NextTurns(i - 1, p, global);
      state := AdvanceState(next, state, k);
      if global && i % p == 0 {
        tindex := tindex + 1;
        state := SeedAfter(seeds, tindex);
      }
      states[i] := state;
    }
  }

  lemma FirstEntry<S>(next: S -> S, seeds: seq<S>, b: nat, k: nat, p: nat)
    requires b < |seeds| && p > 0
    ensures Page(next, seeds, b, k, p, true, 0) == seeds[b] == Page(next, seeds, b, k, p, false, 0)
    ensures Turns(0, p, true) == 0
  {
    DivModUnique(0, p, 0, 0);
    DivModUnique(b, |seeds|, 0, b);
  }

  // ----- the same pages everywhere -----

  // The p pages generated from job j's seed.
  function Block<S>(next: S -> S, seeds: seq<S>, j: nat, k: nat, p: nat): seq<S>
    requires seeds != []
  {
    seq(p, r requires 0 <= r < p => Advance(next, SeedAfter(seeds, j), Product(k, r)))
  }

  // Each job's block, as a function of the job.
  function BlockOf<S>(next: S -> S, seeds: seq<S>, k: nat, p: nat): nat -> seq<S> {
    (j: nat) => if seeds == [] then [] else Block(next, seeds, j, k, p)
  }

  // The blocks of m consecutive jobs from job b on.
  function Blocks<S>(block: nat -> seq<S>, b: nat, m: nat): seq<S>
    decreases m
  {
    if m == 0 then [] else Blocks(block, b, m - 1) + block(b + m - 1)
  }

  lemma {:induction false} WorkingSetIsBlocks<S>(next: S -> S, seeds: seq<S>, b: nat, k: nat, p: nat, m: nat)
    requires seeds != [] && p > 0
    ensures WorkingSet(next, seeds, b, k, p, Product(m, p)) == Blocks(BlockOf(next, seeds, k, p), b, m)
    decreases m
  {
    if m > 0 {
      WorkingSetIsBlocks(next, seeds, b, k, p, m - 1);
      var w, head, tail := WorkingSet(next, seeds, b, k, p, Product(m, p)), WorkingSet(next, seeds, b, k, p, Product(m - 1, p)),
                           Block(next, seeds, b + m - 1, k, p);
      Distribute(m - 1, 1, p);
      forall i | 0 <= i < |w|
        ensures w[i] == (head + tail)[i]
      {
        if i >= |head| {
          DivModUnique(i, p, m - 1, i - |head|);
        }
      }
    }
  }

  // Blocks from b on start with b's block and go on with those from b + 1 on.
  lemma {:induction false} BlocksFront<S>(block: nat -> seq<S>, b: nat, m: nat)
    ensures Blocks(block, b, m + 1) == block(b) + Blocks(block, b + 1, m)
    decreases m
  {
    if m > 0 {
      BlocksFront(block, b, m - 1);
      assert b + (m + 1) - 1 == b + 1 + m - 1;
    }
  }

  lemma Rotated<S>(a: seq<S>, b: seq<S>)
    ensures multiset(a + b) == multiset(b + a)
  {
    assert multiset(a + b) == multiset(a) + multiset(b);
    assert multiset(b + a) == multiset(b) + multiset(a);
  }

  // The blocks from b on are those from b - 1 on with the first block moved to the end.
  lemma NextTurn<S>(block: nat -> seq<S>, n: nat, b: nat)
    requires n > 0 && b > 0 && block(b - 1 + n) == block(b - 1)
    ensures Blocks(block, b - 1, n) == block(b - 1) + Blocks(block, b, n - 1)
    ensures Blocks(block, b, n) == Blocks(block, b, n - 1) + block(b - 1)
  {
    BlocksFront(block, b - 1, n - 1);
    assert b + n - 1 == b - 1 + n;
  }

  // A whole turn from any job on has the same pages.
  lemma {:induction false} SameBlocks<S>(block: nat -> seq<S>, n: nat, b: nat)
    requires n > 0 && forall j: nat :: block(j + n) == block(j)
    ensures multiset(Blocks(block, b, n)) == multiset(Blocks(block, 0, n))
    decreases b
  {
    if b > 0 {
      SameBlocks(block, n, b - 1);
      assert block(b - 1 + n) == block(b - 1);
      NextTurn(block, n, b);
      Rotated(block(b - 1), Blocks(block, b, n - 1));
    }
  }

  lemma BlockTurn<S>(next: S -> S, seeds: seq<S>, j: nat, k: nat, p: nat)
    requires seeds != []
    ensures Block(next, seeds, j + |seeds|, k, p) == Block(next, seeds, j, k, p)
  {
    var n := |seeds|;
    DivMod(j, n);
    Distribute(j / n, 1, n);
    DivModUnique(j + n, n, j / n + 1, j % n);
  }

  lemma ExactPages(n: nat, jobs: nat, p: nat)
    requires jobs > 0 && p > 0 && n == Product(jobs, p)
    ensures PagesPerSeed(n, jobs) == p
  {
    DivModUnique(n, jobs, p, 0);
  }

  // SAME PAGES: when the jobs share the page count n and the advancement count and their number
  // divides n, every job's working set is the same multiset, so any page of one can be deduplicated
  // against any other job.
  lemma SamePages<S>(next: S -> S, seeds: seq<S>, b: nat, k: nat, n: nat, p: nat)
    requires seeds != [] && p > 0 && n == Product(|seeds|, p)
    ensures p == PagesPerSeed(n, |seeds|)
    ensures multiset(WorkingSet(next, seeds, b, k, p, n)) == multiset(WorkingSet(next, seeds, 0, k, p, n))
  {
    ExactPages(n, |seeds|, p);
    WorkingSetIsBlocks(next, seeds, b, k, p, |seeds|);
    WorkingSetIsBlocks(next, seeds, 0, k, p, |seeds|);
    var block := BlockOf(next, seeds, k, p);
    forall j: nat
      ensures block(j + |seeds|) == block(j)
    {
      BlockTurn(next, seeds, j, k, p);
    }
    SameBlocks(block, |seeds|, b);
  }

  // ----- and only then -----

  // How many of the values below m are in w, each as often as it occurs.
  function Total(w: seq<nat>, m: nat): nat {
    if m == 0 then 0 else Total(w, m - 1) + multiset(w)[m - 1]
  }

  lemma {:induction false} TotalAppend(w: seq<nat>, x: nat, m: nat)
    ensures Total(w + [x], m) == Total(w, m) + if x < m then 1 else 0
  {
    if m > 0 {
      TotalAppend(w, x, m - 1);
      assert multiset(w + [x]) == multiset(w) + multiset{x};
    }
  }

  lemma {:induction false} TotalAll(w: seq<nat>, m: nat)
    requires forall i :: 0 <= i < |w| ==> w[i] < m
    ensures Total(w, m) == |w|
  {
    if w == [] {
      TotalNone(m);
    } else {
      var front, last := w[..|w| - 1], w[|w| - 1];
      assert w == front + [last];
      TotalAll(front, m);
      TotalAppend(front, last, m);
    }
  }

  lemma {:induction false} TotalNone(m: nat)
    ensures Total([], m) == 0
  {
    if m > 0 {
      TotalNone(m - 1);
    }
  }

  lemma {:induction false} TotalEven(w: seq<nat>, m: nat, c: nat)
    requires forall v :: 0 <= v < m ==> multiset(w)[v] == c
    ensures Total(w, m) == Product(c, m)
  {
    if m > 0 {
      TotalEven(w, m - 1, c);
      ProductNext(c, m - 1);
    }
  }

  function NextValue(v: nat, m: nat): nat
    requires v < m
  {
    if v + 1 < m then v + 1 else 0
  }

  // Every value in the second sequence is the successor of that in the first, counted around.
  lemma {:induction false} NextCounts(w: seq<nat>, w': seq<nat>, m: nat, v: nat)
    requires |w| == |w'| && v < m
    requires forall i :: 0 <= i < |w| ==> w[i] < m && w'[i] == NextValue(w[i], m)
    ensures multiset(w')[NextValue(v, m)] == multiset(w)[v]
  {
    if w != [] {
      var last := |w| - 1;
      NextCounts(w[..last], w'[..last], m, v);
      assert w == w[..last] + [w[last]] && w' == w'[..last] + [w'[last]];
    }
  }

  // So if both hold the same values, they hold all of them equally often.
  lemma {:induction false} EvenCounts(w: seq<nat>, w': seq<nat>, m: nat, v: nat)
    requires |w| == |w'| && v < m && multiset(w) == multiset(w')
    requires forall i :: 0 <= i < |w| ==> w[i] < m && w'[i] == NextValue(w[i], m)
    ensures multiset(w)[v] == multiset(w)[0]
  {
    if v > 0 {
      EvenCounts(w, w', m, v - 1);
      NextCounts(w, w', m, v - 1);
    }
  }

  lemma {:induction false} AdvanceSame(next: nat -> nat, s: nat, k: nat)
    requires forall x :: next(x) == x
    ensures Advance(next, s, k) == s
  {
    if k > 0 {
      AdvanceSame(next, s, k - 1);
    }
  }

  // Seeds 0, 1, 2 and so on that never change make every page the number of the job it comes from.
  lemma NumberedEntry(next: nat -> nat, seeds: seq<nat>, b: nat, k: nat, p: nat, i: nat)
    requires seeds != [] && p > 0 && b < |seeds| && (forall x :: next(x) == x)
    requires forall j :: 0 <= j < |seeds| ==> seeds[j] == j
    ensures Entry<nat>(next, seeds, b, k, p, i) == Remainder(b + i / p, |seeds|)
  {
    DivMod(i, p);
    DivMod(b + i / p, |seeds|);
    AdvanceSame(next, SeedAfter(seeds, b + i / p), Product(k, i % p));
  }

  function Remainder(a: nat, m: nat): (r: nat)
    requires m > 0
    ensures r < m
  {
    a % m
  }

  lemma NextRemainder(a: nat, m: nat)
    requires m > 0
    ensures Remainder(a + 1, m) == NextValue(Remainder(a, m), m)
  {
    NextPage(a, m);
    DivMod(a, m);
  }

  // The same pages for every job, whatever the generator, the seeds and the advancements.
  ghost predicate AlwaysSame(n: nat, jobs: nat)
    requires jobs > 0
  {
    forall next: nat -> nat, seeds: seq<nat>, b: nat, k: nat :: |seeds| == jobs && b < jobs ==>
      multiset(WorkingSet(next, seeds, b, k, PagesPerSeed(n, jobs), n))
      == multiset(WorkingSet(next, seeds, 0, k, PagesPerSeed(n, jobs), n))
  }

  // EXACTLY when the number of jobs divides the page count do all jobs have the same pages, whatever
  // the generator and the seeds.
  lemma SamePagesIff(n: nat, jobs: nat)
    requires jobs > 0
    ensures AlwaysSame(n, jobs) <==> n % jobs == 0
  {
    DivMod(n, jobs);
    if n % jobs == 0 {
      forall next: nat -> nat, seeds: seq<nat>, b: nat, k: nat | |seeds| == jobs && b < jobs
        ensures multiset(WorkingSet(next, seeds, b, k, PagesPerSeed(n, jobs), n))
                == multiset(WorkingSet(next, seeds, 0, k, PagesPerSeed(n, jobs), n))
      {
        if n > 0 {
          SamePages(next, seeds, b, k, n, n / jobs);
        }
      }
    } else if AlwaysSame(n, jobs) {
      UnevenPages(n, jobs);
      assert false;
    }
  }

  lemma UnevenPages(n: nat, jobs: nat)
    requires jobs > 0 && AlwaysSame(n, jobs)
    ensures n % jobs == 0
  {
    var p, seeds: seq<nat> := PagesPerSeed(n, jobs), seq(jobs, j => j);
    var next: nat -> nat := x => x;
    if jobs > 1 {
      var w, w' := WorkingSet(next, seeds, 0, 0, p, n), WorkingSet(next, seeds, 1, 0, p, n);
      forall i | 0 <= i < n
        ensures w[i] < jobs && w'[i] == NextValue(w[i], jobs)
      {
        NumberedEntry(next, seeds, 0, 0, p, i);
        NumberedEntry(next, seeds, 1, 0, p, i);
        DivMod(i, p);
        NextRemainder(i / p, jobs);
      }
      forall v: nat | v < jobs
        ensures multiset(w)[v] == multiset(w)[0]
      {
        EvenCounts(w, w', jobs, v);
      }
      TotalAll(w, jobs);
      TotalEven(w, jobs, multiset(w)[0]);
      DivModUnique(n, jobs, multiset(w)[0], 0);
    }
  }
}
