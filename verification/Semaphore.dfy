// The counting semaphore of fio_sem.c: a value and a count of waiters under one mutex, and a
// condition variable that an up signals only when the value was 0.
//
// Everything between acquiring and releasing the mutex (or waiting on the condition, which
// releases it) touches only data the mutex protects, so it is one step.  A thread inside
// pthread_cond_wait is Blocked until a signal, a spurious wakeup or a timeout makes it Woken;
// a Woken thread has yet to re-acquire the mutex.
module Semaphore {
  import opened Wrappers

  type Tid = nat

  // `timed` marks fio_sem_down_timeout; `expired` that its wait returned a timeout that the
  // double check against the clock confirmed.
  datatype Pc = Outside | Blocked(timed: bool) | Woken(timed: bool, expired: bool)

  // `ups` and `downs` are history: completed ups, and downs that took a unit.
  datatype State = State(value: int, waiters: int, pcs: map<Tid, Pc>, ups: nat, downs: nat)

  datatype Action =
    | Down(t: Tid)                        // fio_sem_down, up to its first wait or its end
    | DownTimeout(t: Tid)                 // fio_sem_down_timeout, likewise
    | TryDown(t: Tid)
    | Resume(t: Tid)                      // a woken thread re-acquires the mutex
    | Up(t: Tid, signalled: Option<Tid>)  // the thread that pthread_cond_signal wakes, if any waits
    | Spurious(t: Tid)
    | Expire(t: Tid)

  function Take(s: State, t: Tid): State {
    s.(value := s.value - 1, pcs := s.pcs[t := Outside], downs := s.downs + 1)
  }

  // The roles the argument counts: threads inside a wait; threads asleep; and threads woken
  // without a timeout, each committed to taking a unit if it finds one.
  datatype Role = Inside | Sleeper | Pending

  predicate Plays(pc: Pc, r: Role) {
    match r
    case Inside => !pc.Outside?
    case Sleeper => pc.Blocked?
    case Pending => pc.Woken? && !pc.expired
  }

  function Who(pcs: map<Tid, Pc>, r: Role): set<Tid> {
    set t | t in pcs && Plays(pcs[t], r)
  }

  lemma WhoUpdate(pcs: map<Tid, Pc>, t: Tid, pc: Pc, r: Role)
    requires t in pcs
    ensures |Who(pcs[t := pc], r)| == |Who(pcs, r)| + (if Plays(pc, r) then 1 else 0) - (if Plays(pcs[t], r) then 1 else 0)
    ensures t in Who(pcs, r) <==> Plays(pcs[t], r)
  {
    var after, before := Who(pcs[t := pc], r), Who(pcs, r);
    if Plays(pc, r) && !Plays(pcs[t], r) {
      assert after == before + {t};
    } else if !Plays(pc, r) && Plays(pcs[t], r) {
      assert after == before - {t};
    } else {
      assert after == before;
    }
  }

  function Step(s: State, a: Action): Option<State> {
    if a.t !in s.pcs then None
    else
      var pc := s.pcs[a.t];
      match a
      case Down(t) =>
        if !pc.Outside? then None
        else if s.value == 0 then Some(s.(waiters := s.waiters + 1, pcs := s.pcs[t := Blocked(false)]))
        else Some(Take(s, t))
      case DownTimeout(t) =>
        // waiters is raised on entry and lowered after the loop
        if !pc.Outside? then None
        else if s.value == 0 then Some(s.(waiters := s.waiters + 1, pcs := s.pcs[t := Blocked(true)]))
        else Some(Take(s, t))
      case TryDown(t) =>
        if !pc.Outside? then None
        else if s.value != 0 then Some(Take(s, t))
        else Some(s)
      case Resume(t) =>
        if !pc.Woken? then None
        else if pc.expired then Some(s.(waiters := s.waiters - 1, pcs := s.pcs[t := Outside]))
        else if s.value == 0 then Some(s.(pcs := s.pcs[t := Blocked(pc.timed)]))
        else Some(Take(s.(waiters := s.waiters - 1), t))
      case Up(t, signalled) =>
        if !pc.Outside? then None
        else
          var raised := s.(value := s.value + 1, ups := s.ups + 1);
          if s.value == 0 && s.waiters != 0 then (
            // the signal wakes a thread blocked on the condition if there is one
            match signalled
            case Some(u) =>
              if u in s.pcs && s.pcs[u].Blocked?
              then Some(raised.(pcs := s.pcs[u := Woken(s.pcs[u].timed, false)]))
              else None
            case None => if Who(s.pcs, Sleeper) == {} then Some(raised) else None
          ) else if signalled.None? then Some(raised)
          else None
      case Spurious(t) =>
        if pc.Blocked? then Some(s.(pcs := s.pcs[t := Woken(pc.timed, false)])) else None
      case Expire(t) =>
        if pc.Blocked? && pc.timed then Some(s.(pcs := s.pcs[t := Woken(true, true)])) else None
  }

  function Exec(s: State, run: seq<Action>): Option<State>
    decreases |run|
  {
    if run == [] then Some(s)
    else match Step(s, run[0])
         case None => None
         case Some(s') => Exec(s', run[1..])
  }

  predicate Init(s: State, initial: nat) {
    s.value == initial && s.waiters == 0 && s.ups == 0 && s.downs == 0
    && forall t :: t in s.pcs ==> s.pcs[t].Outside?
  }

  // ----- counting, for every use -----

  ghost predicate Inv(s: State, initial: nat) {
    && s.value == initial + s.ups - s.downs
    && s.value >= 0
    && s.waiters == |Who(s.pcs, Inside)|
  }

  // The thread whose program counter a step changes.
  function Moved(a: Action): Tid {
    if a.Up? && a.signalled.Some? then a.signalled.value else a.t
  }

  lemma Recount(s: State, a: Action)
    requires Step(s, a).Some?
    ensures var u, pcs, pcs' := Moved(a), s.pcs, Step(s, a).value.pcs;
            && u in pcs && u in pcs' && pcs' == pcs[u := pcs'[u]]
            && forall r :: |Who(pcs', r)| == |Who(pcs, r)| + (if Plays(pcs'[u], r) then 1 else 0)
                                             - (if Plays(pcs[u], r) then 1 else 0)
  {
    var u, pcs, pcs' := Moved(a), s.pcs, Step(s, a).value.pcs;
    assert pcs' == pcs[u := pcs'[u]];
    forall r
      ensures |Who(pcs', r)| == |Who(pcs, r)| + (if Plays(pcs'[u], r) then 1 else 0)
                                - (if Plays(pcs[u], r) then 1 else 0)
    {
      WhoUpdate(pcs, u, pcs'[u], r);
    }
  }

  lemma StepInv(s: State, a: Action, initial: nat)
    requires Inv(s, initial) && Step(s, a).Some?
    ensures Inv(Step(s, a).value, initial)
  {
    Recount(s, a);
  }

  lemma InitInv(s: State, initial: nat)
    requires Init(s, initial)
    ensures Inv(s, initial)
  {
    assert Who(s.pcs, Inside) == {};
  }

  // The value is the initial value plus ups minus successful downs, never negative, and
  // `waiters` counts the threads inside a wait, in every interleaving.
  lemma {:induction false} CountsExact(s: State, run: seq<Action>, initial: nat)
    requires Inv(s, initial) && Exec(s, run).Some?
    ensures Inv(Exec(s, run).value, initial)
    decreases |run|
  {
    if run != [] {
      StepInv(s, run[0], initial);
      CountsExact(Step(s, run[0]).value, run[1..], initial);
    }
  }

  // ----- lost wakeups -----

  // A unit is available and a thread sleeps, and nobody is on the way to take it.
  predicate Lost(s: State) {
    s.value > 0 && Who(s.pcs, Sleeper) != {} && Who(s.pcs, Pending) == {}
  }

  // Enough woken threads are on their way to use up every unit while anybody sleeps.
  predicate Covered(s: State) {
    Who(s.pcs, Sleeper) != {} ==> s.value <= |Who(s.pcs, Pending)|
  }

  // When an up keeps Covered: the value is 0 (so it signals), or nobody sleeps, or more threads
  // are on their way than units are available.
  predicate SafeUp(s: State) {
    s.value == 0 || Who(s.pcs, Sleeper) == {} || s.value < |Who(s.pcs, Pending)|
  }

  lemma SleepersImplyWaiters(s: State, initial: nat)
    requires Inv(s, initial) && Who(s.pcs, Sleeper) != {}
    ensures s.waiters > 0
  {
    assert Who(s.pcs, Sleeper) <= Who(s.pcs, Inside);
    CardinalitySubset(Who(s.pcs, Sleeper), Who(s.pcs, Inside));
  }

  // Every step but an unsafe up keeps Covered, and an unsafe up destroys it.
  lemma CoveredStep(s: State, a: Action, initial: nat)
    requires Inv(s, initial) && Covered(s) && Step(s, a).Some?
    ensures Covered(Step(s, a).value) <==> (a.Up? ==> SafeUp(s))
  {
    Recount(s, a);
    if Who(s.pcs, Sleeper) != {} {
      SleepersImplyWaiters(s, initial);
    }
  }

  predicate NoUps(run: seq<Action>) {
    forall i :: 0 <= i < |run| ==> !run[i].Up?
  }

  ghost predicate UpsSafe(s: State, run: seq<Action>)
    decreases |run|
  {
    run != [] ==>
      && (run[0].Up? ==> SafeUp(s))
      && (Step(s, run[0]).Some? ==> UpsSafe(Step(s, run[0]).value, run[1..]))
  }

  // Binary use: up is called only when the value is 0.
  ghost predicate Binary(s: State, run: seq<Action>)
    decreases |run|
  {
    run != [] ==>
      && (run[0].Up? ==> s.value == 0)
      && (Step(s, run[0]).Some? ==> Binary(Step(s, run[0]).value, run[1..]))
  }

  lemma {:induction false} SafeRunCovered(s: State, run: seq<Action>, initial: nat)
    requires Inv(s, initial) && Covered(s) && UpsSafe(s, run) && Exec(s, run).Some?
    ensures Covered(Exec(s, run).value) && Inv(Exec(s, run).value, initial)
    decreases |run|
  {
    if run != [] {
      StepInv(s, run[0], initial);
      CoveredStep(s, run[0], initial);
      SafeRunCovered(Step(s, run[0]).value, run[1..], initial);
    }
  }

  lemma {:induction false} BinaryIsSafe(s: State, run: seq<Action>)
    requires Binary(s, run)
    ensures UpsSafe(s, run)
    decreases |run|
  {
    if run != [] && Step(s, run[0]).Some? {
      BinaryIsSafe(Step(s, run[0]).value, run[1..]);
    }
  }

  // No lost wakeup in binary use, whatever the interleaving of downs, timed downs, trylocks,
  // spurious wakeups and timeouts.
  lemma NoLostWakeup(s0: State, run: seq<Action>, initial: nat)
    requires Init(s0, initial) && Binary(s0, run) && Exec(s0, run).Some?
    ensures var s := Exec(s0, run).value;
            s.value > 0 && Who(s.pcs, Sleeper) != {} ==> Who(s.pcs, Pending) != {}
  {
    InitInv(s0, initial);
    assert Who(s0.pcs, Sleeper) == {};
    BinaryIsSafe(s0, run);
    SafeRunCovered(s0, run, initial);
  }

  // If more units are available than woken threads while somebody sleeps, letting the woken
  // threads run strands the sleeper.
  lemma {:induction false} Drain(s: State, initial: nat) returns (run: seq<Action>)
    requires Inv(s, initial) && !Covered(s)
    ensures NoUps(run) && Exec(s, run).Some? && Lost(Exec(s, run).value)
    decreases |Who(s.pcs, Pending)|
  {
    if Who(s.pcs, Pending) == {} {
      run := [];
    } else {
      var t :| t in Who(s.pcs, Pending);
      var s' := Step(s, Resume(t)).value;
      StepInv(s, Resume(t), initial);
      Recount(s, Resume(t));
      assert Who(s'.pcs, Sleeper) == Who(s.pcs, Sleeper);
      var rest := Drain(s', initial);
      run := [Resume(t)] + rest;
      assert run[1..] == rest;
    }
  }

  lemma {:induction false} NoUpsAreSafe(s: State, run: seq<Action>)
    requires NoUps(run)
    ensures UpsSafe(s, run)
    decreases |run|
  {
    if run != [] && Step(s, run[0]).Some? {
      NoUpsAreSafe(Step(s, run[0]).value, run[1..]);
    }
  }

  // The exact condition: from a state, a wakeup can be lost without any further up if and only if
  // somebody sleeps and more units are available than woken threads.
  lemma LossIffUncovered(s: State, initial: nat)
    requires Inv(s, initial)
    ensures (exists run :: NoUps(run) && Exec(s, run).Some? && Lost(Exec(s, run).value)) <==> !Covered(s)
  {
    if !Covered(s) {
      var run := Drain(s, initial);
    } else {
      forall run | NoUps(run) && Exec(s, run).Some?
        ensures !Lost(Exec(s, run).value)
      {
        NoUpsAreSafe(s, run);
        SafeRunCovered(s, run, initial);
      }
    }
  }

  // Hence fio_sem_up is the only source of lost wakeups, and exactly when it is unsafe: after an
  // up, a wakeup can be lost with no further up if and only if the guard fails.
  lemma UpLosesIffUnsafe(s: State, t: Tid, signalled: Option<Tid>, initial: nat)
    requires Inv(s, initial) && Covered(s) && Step(s, Up(t, signalled)).Some?
    ensures var s' := Step(s, Up(t, signalled)).value;
            (exists run :: NoUps(run) && Exec(s', run).Some? && Lost(Exec(s', run).value)) <==> !SafeUp(s)
  {
    StepInv(s, Up(t, signalled), initial);
    CoveredStep(s, Up(t, signalled), initial);
    LossIffUncovered(Step(s, Up(t, signalled)).value, initial);
  }

  lemma Chain(s: State, a: Action, run: seq<Action>, s': State)
    requires Step(s, a).Some? && Exec(Step(s, a).value, run) == Some(s')
    ensures Exec(s, [a] + run) == Some(s')
  {
    assert ([a] + run)[1..] == run;
  }

  function Three(value: int, waiters: int, a: Pc, b: Pc, ups: nat, downs: nat): State {
    State(value, waiters, Pcs(a, b), ups, downs)
  }

  function Pcs(a: Pc, b: Pc): map<Tid, Pc> {
    map[0 := a, 1 := b, 2 := Outside]
  }

  lemma SetPc(a: Pc, b: Pc, pc: Pc)
    ensures Pcs(a, b)[0 := pc] == Pcs(pc, b) && Pcs(a, b)[1 := pc] == Pcs(a, pc)
  {}

  // Two downs wait.
  lemma TwoWait()
    ensures Step(Three(0, 0, Outside, Outside, 0, 0), Down(0)) == Some(Three(0, 1, Blocked(false), Outside, 0, 0))
    ensures Step(Three(0, 1, Blocked(false), Outside, 0, 0), Down(1)) == Some(Three(0, 2, Blocked(false), Blocked(false), 0, 0))
  {
    SetPc(Outside, Outside, Blocked(false));
    SetPc(Blocked(false), Outside, Blocked(false));
  }

  // The first up wakes one of them, the second does not signal, and the woken one takes its unit.
  lemma TwoUps()
    ensures Step(Three(0, 2, Blocked(false), Blocked(false), 0, 0), Up(2, Some(0)))
            == Some(Three(1, 2, Woken(false, false), Blocked(false), 1, 0))
    ensures Step(Three(1, 2, Woken(false, false), Blocked(false), 1, 0), Up(2, None))
            == Some(Three(2, 2, Woken(false, false), Blocked(false), 2, 0))
    ensures Step(Three(2, 2, Woken(false, false), Blocked(false), 2, 0), Resume(0))
            == Some(Three(1, 1, Outside, Blocked(false), 2, 1))
  {
    SetPc(Blocked(false), Blocked(false), Woken(false, false));
    SetPc(Woken(false, false), Blocked(false), Outside);
  }

  lemma SleeperLost()
    ensures Lost(Three(1, 1, Outside, Blocked(false), 2, 1))
  {
    assert 1 in Who(Three(1, 1, Outside, Blocked(false), 2, 1).pcs, Sleeper);
  }

  // Such an up is reachable: two downs wait, two ups follow, the second does not signal.
  lemma CountingUseLosesWakeups()
    ensures exists s0, run ::
              Init(s0, 0) && Exec(s0, run).Some? && Lost(Exec(s0, run).value)
  {
    TwoWait();
    TwoUps();
    SleeperLost();
    var s0, s1 := Three(0, 0, Outside, Outside, 0, 0), Three(0, 1, Blocked(false), Outside, 0, 0);
    var s2, s3 := Three(0, 2, Blocked(false), Blocked(false), 0, 0), Three(1, 2, Woken(false, false), Blocked(false), 1, 0);
    var s4, s5 := Three(2, 2, Woken(false, false), Blocked(false), 2, 0), Three(1, 1, Outside, Blocked(false), 2, 1);
    Chain(s4, Resume(0), [], s5);
    Chain(s3, Up(2, None), [Resume(0)] + [], s5);
    Chain(s2, Up(2, Some(0)), [Up(2, None)] + ([Resume(0)] + []), s5);
    Chain(s1, Down(1), [Up(2, Some(0))] + ([Up(2, None)] + ([Resume(0)] + [])), s5);
    Chain(s0, Down(0), [Down(1)] + ([Up(2, Some(0))] + ([Up(2, None)] + ([Resume(0)] + []))), s5);
  }

  // ----- the code -----

  // struct fio_sem, with what the condition variable knows of the threads.  A method is what one
  // thread does while it holds the mutex: its first turn, or a turn after it was woken.
  class Sem {
    const initial: nat
    var value: int
    var waiters: int
    var pcs: map<Tid, Pc>
    ghost var ups: nat
    ghost var downs: nat

    ghost function View(): State
      reads this
    {
      State(value, waiters, pcs, ups, downs)
    }

    ghost predicate Valid()
      reads this
    {
      Inv(View(), initial)
    }

    // __fio_sem_init
    constructor (initial: nat, threads: set<Tid>)
      ensures Valid() && Init(View(), initial) && this.initial == initial && pcs.Keys == threads
    {
      this.initial := initial;
      value, waiters := initial, 0;
      pcs := map t | t in threads :: Outside;
      ups, downs := 0, 0;
      new;
      InitInv(View(), initial);
    }

    // fio_sem_down: one turn of its loop, entered or woken; it sleeps exactly when the value is 0.
    method Down(t: Tid) returns (done: bool)
      requires Valid() && t in pcs && (pcs[t].Outside? || (pcs[t].Woken? && !pcs[t].timed && !pcs[t].expired))
      modifies this
      ensures Valid() && done == (old(value) != 0)
      ensures Step(old(View()), if old(pcs[t]).Outside? then Action.Down(t) else Resume(t)) == Some(View())
      ensures value == old(value) - (if done then 1 else 0) && pcs == old(pcs)[t := if done then Outside else Blocked(false)]
    {
      StepInv(View(), if pcs[t].Outside? then Action.Down(t) else Resume(t), initial);
      if pcs[t].Woken? {
        waiters := waiters - 1;
      }
      if value == 0 {
        waiters := waiters + 1;
        pcs := pcs[t := Blocked(false)];
        return false;
      }
      value := value - 1;
      downs := downs + 1;
      pcs := pcs[t := Outside];
      return true;
    }

    // fio_sem_down_timeout: one turn of its loop, or its end if the wait has timed out.
    method DownTimeout(t: Tid) returns (done: bool, timedOut: bool)
      requires Valid() && t in pcs && (pcs[t].Outside? || (pcs[t].Woken? && pcs[t].timed))
      modifies this
      ensures Valid() && timedOut == (old(pcs[t]).Woken? && old(pcs[t]).expired)
      ensures done == (timedOut || old(value) != 0)
      ensures Step(old(View()), if old(pcs[t]).Outside? then Action.DownTimeout(t) else Resume(t)) == Some(View())
      ensures value == old(value) - (if done && !timedOut then 1 else 0)
      ensures pcs == old(pcs)[t := if done then Outside else Blocked(true)]
    {
      StepInv(View(), if pcs[t].Outside? then Action.DownTimeout(t) else Resume(t), initial);
      timedOut := pcs[t].Woken? && pcs[t].expired;
      if pcs[t].Outside? {
        waiters := waiters + 1;
      }
      if value == 0 && !timedOut {
        pcs := pcs[t := Blocked(true)];
        return false, false;
      }
      waiters := waiters - 1;
      if !timedOut {
        value := value - 1;
        downs := downs + 1;
      }
      pcs := pcs[t := Outside];
      done := true;
    }

    // fio_sem_down_trylock
    method Trylock(t: Tid) returns (busy: bool)
      requires Valid() && t in pcs && pcs[t].Outside?
      modifies this
      ensures Valid() && busy == (old(value) == 0) && Step(old(View()), TryDown(t)) == Some(View())
      ensures value == old(value) - (if busy then 0 else 1) && pcs == old(pcs)
    {
      StepInv(View(), TryDown(t), initial);
      busy := true;
      if value != 0 {
        value := value - 1;
        downs := downs + 1;
        busy := false;
      }
      pcs := pcs[t := Outside];
      assert pcs == old(pcs);
    }

    // fio_sem_up; the condition variable wakes some sleeper if it is signalled.  An up at value 0
    // never leaves a sleeper behind uncovered.
    method Up(t: Tid)
      requires Valid() && t in pcs && pcs[t].Outside?
      modifies this
      ensures Valid() && exists signalled :: Step(old(View()), Action.Up(t, signalled)) == Some(View())
      ensures old(Covered(View())) ==> (Covered(View()) <==> old(SafeUp(View())))
      ensures value == old(value) + 1
    {
      var doWake := value == 0 && waiters != 0;
      var signalled: Option<Tid> := None;
      var sleepers := Who(pcs, Sleeper);
      if doWake && sleepers != {} {
        var u :| u in sleepers;
        signalled := Some(u);
      }
      ghost var was := View();
      StepInv(was, Action.Up(t, signalled), initial);
      if Covered(was) {
        CoveredStep(was, Action.Up(t, signalled), initial);
      }
      value := value + 1;
      ups := ups + 1;
      if signalled.Some? {
        pcs := pcs[signalled.value := Woken(pcs[signalled.value].timed, false)];
      }
      assert Step(was, Action.Up(t, signalled)) == Some(View());
    }
  }
}
