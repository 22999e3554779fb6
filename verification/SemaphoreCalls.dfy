// What the calls of fio_sem.c do for their callers, told from the calls and wakeups of a run: which
// waits can time out, when a call returns, and that each success takes one unit.
module SemaphoreCalls {
  import opened Semaphore
  import opened Wrappers

  // A thread's last call, and whether its last wakeup since was a timeout.
  datatype Mark = Mark(call: Option<Action>, expired: bool)

  predicate IsCall(a: Action) {
    a.Down? || a.DownTimeout? || a.TryDown? || a.Up?
  }

  function Post(m: Mark, a: Action, t: Tid): Mark {
    if IsCall(a) && a.t == t then Mark(Some(a), false)
    else if a == Expire(t) then m.(expired := true)
    else if a == Spurious(t) || (a.Up? && a.signalled == Some(t)) then m.(expired := false)
    else m
  }

  function Marks(m: Mark, run: seq<Action>, t: Tid): Mark
    decreases |run|
  {
    if run == [] then m else Marks(Post(m, run[0], t), run[1..], t)
  }

  // The mark of a thread before it has called anything.
  const NONE: Mark := Mark(None, false)

  predicate Waiting(m: Mark) {
    m.call.Some? && (m.call.value.Down? || m.call.value.DownTimeout?)
  }

  // A thread waits only in a down, with a timeout exactly in a timed one, and a woken one knows
  // whether it was a timeout that woke it.
  predicate Agrees(pc: Pc, m: Mark) {
    match pc
    case Outside => true
    case Blocked(timed) => Waiting(m) && timed == m.call.value.DownTimeout?
    case Woken(timed, expired) => Waiting(m) && timed == m.call.value.DownTimeout? && expired == m.expired
  }

  lemma PostAgrees(s: State, a: Action, t: Tid, m: Mark)
    requires Step(s, a).Some? && t in s.pcs && Agrees(s.pcs[t], m)
    ensures t in Step(s, a).value.pcs && Agrees(Step(s, a).value.pcs[t], Post(m, a, t))
  {}

  lemma {:induction false} MarksAgree(s: State, run: seq<Action>, t: Tid, m: Mark)
    requires Exec(s, run).Some? && t in s.pcs && Agrees(s.pcs[t], m)
    ensures t in Exec(s, run).value.pcs && Agrees(Exec(s, run).value.pcs[t], Marks(m, run, t))
    decreases |run|
  {
    if run != [] {
      PostAgrees(s, run[0], t, m);
      MarksAgree(Step(s, run[0]).value, run[1..], t, Post(m, run[0], t));
    }
  }

  // A TIMED WAIT CAN ALWAYS TIME OUT, AND NO OTHER: after any run, a thread that sleeps in its last call
  // can be woken by a timeout exactly if that call is a timed down, which then returns without a unit.
  lemma TimeoutIffTimed(s0: State, run: seq<Action>, initial: nat, t: Tid)
    requires Init(s0, initial) && Exec(s0, run).Some? && t in s0.pcs
    requires t in Exec(s0, run).value.pcs && Exec(s0, run).value.pcs[t].Blocked?
    ensures var s, m := Exec(s0, run).value, Marks(NONE, run, t);
            && m.call.Some?
            && (Step(s, Expire(t)).Some? <==> m.call.value == DownTimeout(t))
            && (Step(s, Expire(t)).Some? ==>
                  var back := Step(Step(s, Expire(t)).value, Resume(t));
                  back.Some? && t in back.value.pcs && back.value.pcs[t].Outside?
                  && back.value.value == s.value && back.value.downs == s.downs)
  {
    MarksAgree(s0, run, t, NONE);
    LastCallIsOwn(run, t, NONE);
  }

  lemma {:induction false} LastCallIsOwn(run: seq<Action>, t: Tid, m: Mark)
    requires m.call.Some? ==> m.call.value.t == t
    ensures Marks(m, run, t).call.Some? ==> Marks(m, run, t).call.value.t == t
    decreases |run|
  {
    if run != [] {
      LastCallIsOwn(run[1..], t, Post(m, run[0], t));
    }
  }

  // What a call to take a unit, or the next turn of its wait loop, finds.
  predicate Turn(a: Action) {
    a.Down? || a.DownTimeout? || a.TryDown? || a.Resume?
  }

  // The wait of the thread's call has timed out.
  predicate TimedOut(run: seq<Action>, a: Action) {
    a.Resume? && Marks(NONE, run, a.t).expired
  }

  // EACH SUCCESS TAKES ONE UNIT: after any run, a turn that finds a unit takes it and returns, unless
  // its wait has timed out; one that finds none returns if it is a trylock or has timed out, and
  // otherwise sleeps.  No other thread notices.
  lemma TurnTakesUnit(s0: State, run: seq<Action>, initial: nat, a: Action)
    requires Init(s0, initial) && Exec(s0, run).Some? && Turn(a) && a.t in s0.pcs
    requires Step(Exec(s0, run).value, a).Some?
    ensures var s, s' := Exec(s0, run).value, Step(Exec(s0, run).value, a).value;
            var takes := s.value > 0 && !TimedOut(run, a);
            && s'.value == s.value - (if takes then 1 else 0) && s'.downs == s.downs + (if takes then 1 else 0)
            && s'.ups == s.ups && s'.pcs == s.pcs[a.t := if a.t in s'.pcs then s'.pcs[a.t] else Outside]
            && a.t in s'.pcs
            && if takes || TimedOut(run, a) || a.TryDown? then s'.pcs[a.t].Outside? else s'.pcs[a.t].Blocked?
  {
    InitInv(s0, initial);
    CountsExact(s0, run, initial);
    MarksAgree(s0, run, a.t, NONE);
    var s, s' := Exec(s0, run).value, Step(Exec(s0, run).value, a).value;
    assert s'.pcs == s.pcs[a.t := s'.pcs[a.t]];
  }

  // Every thread can always go on: outside it can make any call, woken it goes on with its call, and
  // asleep it can be woken at any time.  So an up happens whoever waits, and a trylock or a down too.
  lemma AlwaysPossible(s: State, t: Tid)
    requires t in s.pcs
    ensures s.pcs[t].Outside? ==>
              && Step(s, Down(t)).Some? && Step(s, DownTimeout(t)).Some? && Step(s, TryDown(t)).Some?
              && exists signalled :: Step(s, Up(t, signalled)).Some?
    ensures s.pcs[t].Woken? <==> Step(s, Resume(t)).Some?
    ensures s.pcs[t].Blocked? <==> Step(s, Spurious(t)).Some?
  {
    if s.pcs[t].Outside? {
      var sleepers := Who(s.pcs, Sleeper);
      if s.value == 0 && s.waiters != 0 && sleepers != {} {
        var u :| u in sleepers;
        assert Step(s, Up(t, Some(u))).Some?;
      } else {
        assert Step(s, Up(t, None)).Some?;
      }
    }
  }

  // The calls of fio_sem_up in a run.
  function Ups(run: seq<Action>): nat {
    if run == [] then 0 else Ups(run[1..]) + if run[0].Up? then 1 else 0
  }

  // The turns of a run that end a call with a unit.
  ghost function Successes(s: State, run: seq<Action>, marks: map<Tid, Mark>): nat
    decreases |run|
  {
    if run == [] || Step(s, run[0]).None? then 0
    else
      var a := run[0];
      var timedOut := a.Resume? && a.t in marks && marks[a.t].expired;
      var rest := Successes(Step(s, a).value, run[1..], map t | t in marks :: Post(marks[t], a, t));
      if Turn(a) && s.value > 0 && !timedOut then rest + 1 else rest
  }

  ghost predicate AllAgree(s: State, marks: map<Tid, Mark>) {
    marks.Keys == s.pcs.Keys && forall t :: t in s.pcs ==> Agrees(s.pcs[t], marks[t])
  }

  lemma UnitsStep(s: State, a: Action, marks: map<Tid, Mark>, initial: nat)
    requires Inv(s, initial) && Step(s, a).Some? && AllAgree(s, marks)
    ensures AllAgree(Step(s, a).value, map t | t in marks :: Post(marks[t], a, t))
    ensures var timedOut := a.Resume? && a.t in marks && marks[a.t].expired;
            Step(s, a).value.value == s.value + (if a.Up? then 1 else 0)
                                      - (if Turn(a) && s.value > 0 && !timedOut then 1 else 0)
  {
    forall t | t in s.pcs
      ensures t in Step(s, a).value.pcs && Agrees(Step(s, a).value.pcs[t], Post(marks[t], a, t))
    {
      PostAgrees(s, a, t, marks[t]);
    }
    assert Agrees(s.pcs[a.t], marks[a.t]);
    Recount(s, a);
  }

  lemma {:induction false} UnitsRun(s: State, run: seq<Action>, marks: map<Tid, Mark>, initial: nat)
    requires Inv(s, initial) && Exec(s, run).Some? && AllAgree(s, marks)
    ensures Exec(s, run).value.value == s.value + Ups(run) - Successes(s, run, marks)
    decreases |run|
  {
    if run != [] {
      StepInv(s, run[0], initial);
      UnitsStep(s, run[0], marks, initial);
      UnitsRun(Step(s, run[0]).value, run[1..], map t | t in marks :: Post(marks[t], run[0], t), initial);
    }
  }

  // UNITS ARE CONSERVED: after any run the value is the initial value, plus the calls of up, minus the
  // calls that have ended with a unit.
  lemma UnitsConserved(s0: State, run: seq<Action>, initial: nat)
    requires Init(s0, initial) && Exec(s0, run).Some?
    ensures Exec(s0, run).value.value == initial + Ups(run) - Successes(s0, run, map t | t in s0.pcs :: NONE)
    ensures Exec(s0, run).value.value >= 0
  {
    InitInv(s0, initial);
    UnitsRun(s0, run, map t | t in s0.pcs :: NONE, initial);
    CountsExact(s0, run, initial);
  }
}
