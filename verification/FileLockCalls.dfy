// What the calls of filelock.c do for their callers, told from the calls a run makes: what a thread
// holds when a lock, trylock or unlock returns, and what a call achieves while nobody else runs.
module FileLockCalls {
  import opened FileLock
  import opened Wrappers

  // Thread t makes no further call in the run.
  predicate NoCalls(run: seq<Action>, t: Tid) {
    forall i :: 0 <= i < |run| && run[i].t == t ==> run[i].Run?
  }

  // A slot of the name.
  predicate Names(s: State, x: nat, h: Hash) {
    x < |s.slots| && s.slots[x].hash == h
  }

  // Another thread's step leaves thread t alone, and no step changes the hash of an active slot.
  lemma Undisturbed(s: State, a: Action, t: Tid)
    requires Inv(s) && Step(s, a).Some? && t in s.threads
    ensures var s' := Step(s, a).value;
            && t in s'.threads && |s'.slots| == |s.slots|
            && (a.t != t ==> s'.threads[t] == s.threads[t])
            && (forall x :: x in s.active && x < |s.slots| ==> s'.slots[x].hash == s.slots[x].hash)
  {
    HashesStay(s, a);
  }

  lemma HashesStay(s: State, a: Action)
    requires Lists(s) && Step(s, a).Some?
    ensures |Step(s, a).value.slots| == |s.slots|
    ensures forall x :: x in s.active && x < |s.slots| ==> Step(s, a).value.slots[x].hash == s.slots[x].hash
  {
    if a.Run? {
      RunKeepsHashes(s, a.t);
    }
  }

  lemma RunKeepsHashes(s: State, t: Tid)
    requires Lists(s) && t in s.threads && RunStep(s, t).Some?
    ensures |RunStep(s, t).value.slots| == |s.slots|
    ensures forall x :: x in s.active && x < |s.slots| ==> RunStep(s, t).value.slots[x].hash == s.slots[x].hash
  {
    if s.free != [] {
      assert s.free[0] in s.free;
    }
  }

  // ----- what a plain lock call brings -----

  // A lock call of thread t, made when it held `held`, is under way; or it has returned, and t holds
  // one slot more, a slot of the name.
  ghost predicate Locking(s: State, t: Tid, h: Hash, held: set<nat>) {
    t in s.threads && var th := s.threads[t];
                      match th.pc
                      case LockWait(n, trylock) => n == h && !trylock && th.held == held
                      case LockCrit(n, trylock) => n == h && !trylock && th.held == held
                      case Sleeping(n) => n == h && th.held == held
                      case RetryCrit(n) => n == h && th.held == held
                      case Acquire(x) => Names(s, x, h) && th.held == held
                      case Idle => Holds(s, th.held, held, h)
                      case _ => false
  }

  ghost predicate Holds(s: State, now: set<nat>, before: set<nat>, h: Hash) {
    exists x :: x !in before && now == before + {x} && Names(s, x, h)
  }

  // An unfinished call may go on, and holdings last.
  lemma HoldsStep(s: State, a: Action, t: Tid, before: set<nat>, h: Hash)
    requires Inv(s) && Step(s, a).Some? && t in s.threads && a.t != t && Holds(s, s.threads[t].held, before, h)
    ensures Holds(Step(s, a).value, s.threads[t].held, before, h)
  {
    var x :| x !in before && s.threads[t].held == before + {x} && Names(s, x, h);
    Undisturbed(s, a, t);
    assert ThreadOk(s, t) && x in s.threads[t].held;
    assert Names(Step(s, a).value, x, h);
  }

  lemma TakesNew(s: State, t: Tid, x: nat, h: Hash)
    requires Inv(s) && t in s.threads && s.threads[t].pc.Acquiring(x) && TakeSem(s, t, x).Some? && Names(s, x, h)
    ensures Holds(TakeSem(s, t, x).value, TakeSem(s, t, x).value.threads[t].held, s.threads[t].held, h)
  {
    assert ThreadOk(s, t) && SlotOk(s, x);
    if x in s.threads[t].held {
      Counted(s, t, Holder, x);
      assert false;
    }
    assert Names(TakeSem(s, t, x).value, x, h);
  }

  lemma LockingStep(s: State, a: Action, t: Tid, h: Hash, held: set<nat>)
    requires Inv(s) && Step(s, a).Some? && Locking(s, t, h, held) && (a.t == t ==> a.Run?)
    ensures Locking(Step(s, a).value, t, h, held)
  {
    Undisturbed(s, a, t);
    assert ThreadOk(s, t);
    var pc := s.threads[t].pc;
    if a.t != t {
      if pc.Idle? {
        HoldsStep(s, a, t, held, h);
      } else if pc.Acquire? {
        assert pc.Acquiring(pc.x);
      }
    } else if pc.Acquire? {
      assert pc.Acquiring(pc.x);
      TakesNew(s, t, pc.x, h);
    }
  }

  lemma {:induction false} LockingKept(s: State, run: seq<Action>, t: Tid, h: Hash, held: set<nat>)
    requires Inv(s) && Disciplined(s, run) && Exec(s, run).Some? && NoCalls(run, t) && Locking(s, t, h, held)
    ensures Locking(Exec(s, run).value, t, h, held)
    decreases |run|
  {
    if run != [] {
      StepInv(s, run[0]);
      LockingStep(s, run[0], t, h, held);
      LockingKept(Step(s, run[0]).value, run[1..], t, h, held);
    }
  }

  // Thread t makes call a after the run `before`, and no further call in the run `after`.
  ghost predicate CallThen(s0: State, before: seq<Action>, a: Action, after: seq<Action>) {
    && Init(s0) && Disciplined(s0, before) && Exec(s0, before).Some?
    && var s := Exec(s0, before).value;
       && !a.Run? && Step(s, a).Some? && (a.CallUnlock? ==> HoldsName(s, a.t, a.h))
       && Disciplined(Step(s, a).value, after) && Exec(Step(s, a).value, after).Some? && NoCalls(after, a.t)
  }

  // The state after the first n steps that follow the call.
  ghost function Later(s: State, run: seq<Action>, n: nat): Option<State>
    requires n <= |run|
  {
    Exec(s, run[..n])
  }

  // A PLAIN LOCK RETURNS ONLY WITH THE LOCK: in every interleaving, when the call has returned its
  // thread holds the name, by one slot it did not hold before.
  lemma LockReturnsHolding(s0: State, before: seq<Action>, t: Tid, h: Hash, after: seq<Action>)
    requires CallThen(s0, before, CallLock(t, h, false), after)
    ensures var s := Exec(s0, before).value;
            var s' := Exec(Step(s, CallLock(t, h, false)).value, after).value;
            t in s'.threads
            && (s'.threads[t].pc.Idle? ==>
                  && HoldsName(s', t, h)
                  && exists x :: x !in s.threads[t].held && s'.threads[t].held == s.threads[t].held + {x})
  {
    var s := Exec(s0, before).value;
    var s1 := Step(s, CallLock(t, h, false)).value;
    var s' := Exec(s1, after).value;
    InitInv(s0);
    ExecInv(s0, before);
    StepInv(s, CallLock(t, h, false));
    LockingKept(s1, after, t, h, s.threads[t].held);
    if s'.threads[t].pc.Idle? {
      var x :| x !in s.threads[t].held && s'.threads[t].held == s.threads[t].held + {x} && Names(s', x, h);
      assert x in s'.threads[t].held;
    }
  }

  // ----- what a trylock brings -----

  // The name's slot is held, or about to be raised.
  ghost predicate Taken(s: State, h: Hash) {
    exists x, u :: x in s.active && Names(s, x, h) && u in s.threads
                   && (Plays(s.threads[u], Holder, x) || Plays(s.threads[u], Releaser, x))
  }

  // It is t's already, or another thread holds it or is acquiring it.
  ghost predicate Wanted(s: State, t: Tid, h: Hash) {
    exists x, u :: x in s.active && Names(s, x, h) && u in s.threads
                   && (Plays(s.threads[u], Holder, x) || (u != t && Plays(s.threads[u], Acquirer, x)))
  }

  // The name has no slot, and no slot is free.
  ghost predicate Full(s: State, h: Hash) {
    s.free == [] && forall x :: x in s.active && x < |s.slots| ==> s.slots[x].hash != h
  }

  // A trylock before it has found the slot taken.
  ghost predicate Trying(s: State, t: Tid, h: Hash, held: set<nat>) {
    t in s.threads && var th := s.threads[t];
                      match th.pc
                      case LockWait(n, trylock) => n == h && trylock && th.held == held
                      case LockCrit(n, trylock) => n == h && trylock && th.held == held
                      case TryAcquire(x) => Names(s, x, h) && th.held == held
                      case _ => false
  }

  // One that has, and has not yet given up.
  ghost predicate Racing(s: State, t: Tid, h: Hash, held: set<nat>) {
    t in s.threads && var th := s.threads[t];
                      match th.pc
                      case RaceWait(x) => Names(s, x, h) && th.held == held
                      case RaceCrit(x) => Names(s, x, h) && th.held == held
                      case Grab(x) => Names(s, x, h) && th.held == held
                      case _ => false
  }

  ghost predicate Succeeded(s: State, t: Tid, h: Hash, held: set<nat>) {
    t in s.threads && s.threads[t].pc.Idle? && Holds(s, s.threads[t].held, held, h)
  }

  ghost predicate GaveUp(s: State, t: Tid, held: set<nat>) {
    t in s.threads && s.threads[t].pc.Idle? && s.threads[t].held == held
  }

  lemma RacingStep(s: State, a: Action, t: Tid, h: Hash, held: set<nat>)
    requires Inv(s) && Step(s, a).Some? && Racing(s, t, h, held) && (a.t == t ==> a.Run?)
    ensures var s' := Step(s, a).value;
            || Racing(s', t, h, held) || Succeeded(s', t, h, held)
            || (GaveUp(s', t, held) && Wanted(s, t, h))
  {
    Undisturbed(s, a, t);
    assert ThreadOk(s, t);
    var pc := s.threads[t].pc;
    var x := pc.x;
    assert pc.Acquiring(x) && SlotOk(s, x);
    if a.t == t {
      if pc.Grab? {
        TakesNew(s, t, x, h);
      } else if pc.RaceCrit? && s.slots[x].refs != 1 {
        OtherReference(s, t, x);
      }
    }
  }

  // More than one reference, one of them t's for its call.
  lemma OtherReference(s: State, t: Tid, x: nat)
    requires Inv(s) && t in s.threads && s.threads[t].pc.Acquiring(x) && x in s.active && x < |s.slots|
    requires s.slots[x].refs != 1
    ensures Wanted(s, t, s.slots[x].hash)
  {
    var holders, acquirers := Who(s.threads, Holder, x), Who(s.threads, Acquirer, x);
    assert SlotOk(s, x);
    Counted(s, t, Acquirer, x);
    if holders != {} {
      var u :| u in holders;
    } else if acquirers <= {t} {
      CardinalitySubset(acquirers, {t});
      assert false;
    } else {
      var u :| u in acquirers && u != t;
    }
  }

  lemma TryingStep(s: State, a: Action, t: Tid, h: Hash, held: set<nat>)
    requires Inv(s) && Step(s, a).Some? && Trying(s, t, h, held) && (a.t == t ==> a.Run?)
    ensures var s' := Step(s, a).value;
            || Trying(s', t, h, held) || Succeeded(s', t, h, held)
            || (Racing(s', t, h, held) && Taken(s, h))
            || (GaveUp(s', t, held) && Full(s, h))
  {
    Undisturbed(s, a, t);
    assert ThreadOk(s, t);
    var pc := s.threads[t].pc;
    if pc.TryAcquire? {
      assert pc.Acquiring(pc.x) && SlotOk(s, pc.x);
      if a.t == t {
        if s.slots[pc.x].sem == 0 {
          TakenBySomebody(s, pc.x);
        } else {
          TakesNew(s, t, pc.x, h);
        }
      }
    }
  }

  lemma TakenBySomebody(s: State, x: nat)
    requires Inv(s) && x in s.active && x < |s.slots| && s.slots[x].sem == 0
    ensures Taken(s, s.slots[x].hash)
  {
    TakenIff(s, x);
    if Who(s.threads, Holder, x) != {} {
      var u :| u in Who(s.threads, Holder, x);
    } else {
      var u :| u in Who(s.threads, Releaser, x);
    }
  }

  lemma SucceededStays(s: State, a: Action, t: Tid, h: Hash, held: set<nat>)
    requires Inv(s) && Step(s, a).Some? && t in s.threads && s.threads[t].pc.Idle? && (a.t == t ==> a.Run?)
    ensures Succeeded(s, t, h, held) ==> Succeeded(Step(s, a).value, t, h, held)
    ensures GaveUp(s, t, held) ==> GaveUp(Step(s, a).value, t, held)
  {
    Undisturbed(s, a, t);
    if a.t != t && Succeeded(s, t, h, held) {
      HoldsStep(s, a, t, held, h);
    }
  }

  lemma {:induction false} Returned(s: State, run: seq<Action>, t: Tid, h: Hash, held: set<nat>)
    requires Inv(s) && Disciplined(s, run) && Exec(s, run).Some? && NoCalls(run, t)
    requires Succeeded(s, t, h, held) || GaveUp(s, t, held)
    ensures Succeeded(s, t, h, held) ==> Succeeded(Exec(s, run).value, t, h, held)
    ensures GaveUp(s, t, held) ==> GaveUp(Exec(s, run).value, t, held)
    decreases |run|
  {
    if run != [] {
      StepInv(s, run[0]);
      SucceededStays(s, run[0], t, h, held);
      Returned(Step(s, run[0]).value, run[1..], t, h, held);
    }
  }

  ghost predicate WantedWithin(s: State, run: seq<Action>, t: Tid, h: Hash) {
    exists m :: 0 <= m <= |run| && Later(s, run, m).Some? && Wanted(Later(s, run, m).value, t, h)
  }

  ghost predicate TakenThenWanted(s: State, run: seq<Action>, t: Tid, h: Hash) {
    exists n :: 0 <= n <= |run| && Later(s, run, n).Some? && Taken(Later(s, run, n).value, h)
                && WantedWithin(Later(s, run, n).value, run[n..], t, h)
  }

  ghost predicate FullWithin(s: State, run: seq<Action>, h: Hash) {
    exists n :: 0 <= n <= |run| && Later(s, run, n).Some? && Full(Later(s, run, n).value, h)
  }

  lemma LaterTail(s: State, run: seq<Action>, n: nat)
    requires run != [] && Step(s, run[0]).Some? && n < |run|
    ensures Later(s, run, n + 1) == Later(Step(s, run[0]).value, run[1..], n) && run[n + 1..] == run[1..][n..]
  {
    assert run[..n + 1][1..] == run[1..][..n];
  }

  // What happens within the rest of a run happens within the run.
  lemma WithinTail(s: State, run: seq<Action>, t: Tid, h: Hash)
    requires run != [] && Step(s, run[0]).Some?
    ensures WantedWithin(Step(s, run[0]).value, run[1..], t, h) ==> WantedWithin(s, run, t, h)
    ensures FullWithin(Step(s, run[0]).value, run[1..], h) ==> FullWithin(s, run, h)
    ensures TakenThenWanted(Step(s, run[0]).value, run[1..], t, h) ==> TakenThenWanted(s, run, t, h)
  {
    var s', rest := Step(s, run[0]).value, run[1..];
    forall n | 0 <= n <= |rest|
      ensures Later(s', rest, n) == Later(s, run, n + 1) && rest[n..] == run[n + 1..]
    {
      LaterTail(s, run, n);
    }
  }

  lemma {:induction false} RacingKept(s: State, run: seq<Action>, t: Tid, h: Hash, held: set<nat>)
    requires Inv(s) && Disciplined(s, run) && Exec(s, run).Some? && NoCalls(run, t) && Racing(s, t, h, held)
    ensures var s' := Exec(s, run).value;
            || Racing(s', t, h, held) || Succeeded(s', t, h, held)
            || (GaveUp(s', t, held) && WantedWithin(s, run, t, h))
    decreases |run|
  {
    if run != [] {
      var s' := Step(s, run[0]).value;
      StepInv(s, run[0]);
      RacingStep(s, run[0], t, h, held);
      if Racing(s', t, h, held) {
        RacingKept(s', run[1..], t, h, held);
        WithinTail(s, run, t, h);
      } else {
        Returned(s', run[1..], t, h, held);
        assert Later(s, run, 0) == Some(s);
      }
    }
  }

  lemma {:induction false} TryingKept(s: State, run: seq<Action>, t: Tid, h: Hash, held: set<nat>)
    requires Inv(s) && Disciplined(s, run) && Exec(s, run).Some? && NoCalls(run, t) && Trying(s, t, h, held)
    ensures var s' := Exec(s, run).value;
            || Trying(s', t, h, held) || Racing(s', t, h, held) || Succeeded(s', t, h, held)
            || (GaveUp(s', t, held) && (FullWithin(s, run, h) || TakenThenWanted(s, run, t, h)))
    decreases |run|
  {
    if run != [] {
      var s' := Step(s, run[0]).value;
      StepInv(s, run[0]);
      TryingStep(s, run[0], t, h, held);
      assert Later(s, run, 0) == Some(s) && run[0..] == run;
      if Trying(s', t, h, held) {
        TryingKept(s', run[1..], t, h, held);
        WithinTail(s, run, t, h);
      } else if Racing(s', t, h, held) {
        RacingKept(s', run[1..], t, h, held);
        WithinTail(s, run, t, h);
      } else {
        Returned(s', run[1..], t, h, held);
      }
    }
  }

  // A TRYLOCK FAILS ONLY FOR A REASON: when it has returned, its thread holds the name by one slot it
  // did not hold before; or what it holds is unchanged, and during the call the table was full, or the
  // name was first taken and later, at the re-check, still held or being acquired.
  lemma TrylockReturns(s0: State, before: seq<Action>, t: Tid, h: Hash, after: seq<Action>)
    requires CallThen(s0, before, CallLock(t, h, true), after)
    ensures var s := Exec(s0, before).value;
            var s1 := Step(s, CallLock(t, h, true)).value;
            var s', held := Exec(s1, after).value, s.threads[t].held;
            t in s'.threads
            && (s'.threads[t].pc.Idle? ==>
                  || (HoldsName(s', t, h) && exists x :: x !in held && s'.threads[t].held == held + {x})
                  || (s'.threads[t].held == held && (FullWithin(s1, after, h) || TakenThenWanted(s1, after, t, h))))
  {
    var s := Exec(s0, before).value;
    var s1 := Step(s, CallLock(t, h, true)).value;
    var s', held := Exec(s1, after).value, s.threads[t].held;
    InitInv(s0);
    ExecInv(s0, before);
    StepInv(s, CallLock(t, h, true));
    TryingKept(s1, after, t, h, held);
    if Succeeded(s', t, h, held) {
      var x :| x !in held && s'.threads[t].held == held + {x} && Names(s', x, h);
      assert x in s'.threads[t].held;
    }
  }

  // ----- what an unlock brings -----

  ghost predicate Unlocking(s: State, t: Tid, h: Hash, x: nat, held: set<nat>) {
    t in s.threads && x in held && var th := s.threads[t];
                      && (forall y :: y in held && y != x ==> y < |s.slots| && s.slots[y].hash != h)
                      && match th.pc
                         case UnlockWait(n) => n == h && th.held == held && Names(s, x, h)
                         case UnlockCrit(n) => n == h && th.held == held && Names(s, x, h)
                         case UnlockUp(y, _) => y == x && th.held == held - {x}
                         case UnlockPut(y, _) => y == x && th.held == held - {x}
                         case Idle => th.held == held - {x}
                         case _ => false
  }

  lemma UnlockingStep(s: State, a: Action, t: Tid, h: Hash, x: nat, held: set<nat>)
    requires Inv(s) && Step(s, a).Some? && Unlocking(s, t, h, x, held) && (a.t == t ==> a.Run?)
    ensures Unlocking(Step(s, a).value, t, h, x, held)
  {
    Undisturbed(s, a, t);
    assert ThreadOk(s, t);
    if a.t == t && s.threads[t].pc.UnlockCrit? {
      var y := UnlockFinds(s, t);
      assert x in s.threads[t].held;
    }
  }

  lemma {:induction false} UnlockingKept(s: State, run: seq<Action>, t: Tid, h: Hash, x: nat, held: set<nat>)
    requires Inv(s) && Disciplined(s, run) && Exec(s, run).Some? && NoCalls(run, t) && Unlocking(s, t, h, x, held)
    ensures Unlocking(Exec(s, run).value, t, h, x, held)
    decreases |run|
  {
    if run != [] {
      StepInv(s, run[0]);
      UnlockingStep(s, run[0], t, h, x, held);
      UnlockingKept(Step(s, run[0]).value, run[1..], t, h, x, held);
    }
  }

  // AN UNLOCK GIVES UP EXACTLY THE NAME: when it has returned, its thread no longer holds the name, and
  // holds everything else it held.
  lemma UnlockReturns(s0: State, before: seq<Action>, t: Tid, h: Hash, after: seq<Action>)
    requires CallThen(s0, before, CallUnlock(t, h), after)
    ensures var s := Exec(s0, before).value;
            var s' := Exec(Step(s, CallUnlock(t, h)).value, after).value;
            t in s'.threads
            && (s'.threads[t].pc.Idle? ==>
                  && !HoldsName(s', t, h)
                  && exists x :: x in s.threads[t].held && Names(s, x, h) && s'.threads[t].held == s.threads[t].held - {x})
  {
    var s := Exec(s0, before).value;
    var s1, held := Step(s, CallUnlock(t, h)).value, s.threads[t].held;
    InitInv(s0);
    ExecInv(s0, before);
    StepInv(s, CallUnlock(t, h));
    assert ThreadOk(s, t);
    var x :| x in held && x < |s.slots| && s.slots[x].hash == h;
    UnlockingKept(s1, after, t, h, x, held);
  }

  // ----- a call while nobody else runs -----

  // What a plain lock needs to get the name at once: its slot is free, or it has none and some slot is.
  predicate Gets(s: State, h: Hash) {
    match Find(s.slots, s.active, h)
    case Some(x) => s.slots[x].sem != 0
    case None => s.free != []
  }

  // Thread t runs n steps alone.
  function Alone(s: State, t: Tid, n: nat): Option<State>
    decreases n
  {
    if n == 0 then Some(s)
    else match Step(s, Run(t))
         case None => None
         case Some(s') => Alone(s', t, n - 1)
  }

  // Which slot that is: the name's, or the first free one.
  function SlotFor(s: State, h: Hash): nat
    requires Gets(s, h)
  {
    match Find(s.slots, s.active, h)
    case Some(x) => x
    case None => s.free[0]
  }

  // A call has returned with the name, by slot x.
  ghost predicate Got(s: State, t: Tid, x: nat, h: Hash, before: set<nat>) {
    && t in s.threads && s.threads[t].pc.Idle? && x !in before && s.threads[t].held == before + {x}
    && Names(s, x, h) && x in s.active
  }

  // A lookup that gets its slot comes to the free semaphore.
  lemma LookupGets(s: State, t: Tid, h: Hash) returns (x: nat)
    requires Inv(s) && t in s.threads && s.owner == Some(t) && Gets(s, h)
    requires s.threads[t].pc == LockCrit(h, false) || s.threads[t].pc == LockCrit(h, true)
             || (s.threads[t].pc == RetryCrit(h) && s.free != [])
    ensures Step(s, Run(t)).Some?
    ensures var s' := Step(s, Run(t)).value;
            && t in s'.threads && (s'.threads[t].pc == Acquire(x) || s'.threads[t].pc == TryAcquire(x))
            && s'.threads[t].held == s.threads[t].held && Names(s', x, h) && s'.slots[x].sem != 0
            && x == SlotFor(s, h)
  {
    var found := Find(s.slots, s.active, h);
    if found.Some? {
      x := found.value;
    } else {
      x := s.free[0];
      assert x in s.free && SlotOk(s, x);
    }
  }

  lemma TakesAlone(s: State, t: Tid, x: nat, h: Hash)
    requires Inv(s) && t in s.threads && (s.threads[t].pc == Acquire(x) || s.threads[t].pc == TryAcquire(x))
    requires Names(s, x, h) && s.slots[x].sem != 0
    ensures Alone(s, t, 1).Some? && Got(Alone(s, t, 1).value, t, x, h, s.threads[t].held)
  {
    assert ThreadOk(s, t) && SlotOk(s, x);
    if x in s.threads[t].held {
      Counted(s, t, Holder, x);
      assert false;
    }
    assert Alone(s, t, 1) == Alone(TakeSem(s, t, x).value, t, 0);
  }

  lemma LookupAlone(s: State, t: Tid, h: Hash)
    requires Inv(s) && t in s.threads && s.owner == Some(t) && Gets(s, h)
    requires s.threads[t].pc == LockCrit(h, false) || s.threads[t].pc == LockCrit(h, true)
             || (s.threads[t].pc == RetryCrit(h) && s.free != [])
    ensures Alone(s, t, 2).Some? && Got(Alone(s, t, 2).value, t, SlotFor(s, h), h, s.threads[t].held)
  {
    var x := LookupGets(s, t, h);
    StepInv(s, Run(t));
    TakesAlone(Step(s, Run(t)).value, t, x, h);
  }

  // The state after the call and the taking of the global lock.
  function Entered(s: State, t: Tid, pc: Pc): State
    requires t in s.threads
  {
    Goto(s, t, pc).(owner := Some(t))
  }

  lemma CallEnters(s: State, t: Tid, h: Hash, trylock: bool)
    requires s.owner.None? && t in s.threads && s.threads[t].pc.Idle?
    ensures Step(s, CallLock(t, h, trylock)) == Some(Goto(s, t, LockWait(h, trylock)))
    ensures Step(Goto(s, t, LockWait(h, trylock)), Run(t)) == Some(Entered(s, t, LockCrit(h, trylock)))
  {
    var s1, s2 := Goto(s, t, LockWait(h, trylock)), Entered(s, t, LockCrit(h, trylock));
    assert Step(s1, Run(t)).value.threads == s2.threads;
  }

  lemma EnteredInv(s: State, t: Tid, h: Hash, trylock: bool)
    requires Inv(s) && s.owner.None? && t in s.threads && s.threads[t].pc.Idle?
    ensures Inv(Entered(s, t, LockCrit(h, trylock)))
  {
    var s1 := Goto(s, t, LockWait(h, trylock));
    CallEnters(s, t, h, trylock);
    CallInv(s, CallLock(t, h, trylock));
    EnterInv(s1, t);
  }

  // WHAT A LOCK CALL ACHIEVES ALONE: nobody in a critical section, and thread t running alone.  It gets
  // the name if the name's slot is free, or it has none and some slot is.  Otherwise a plain call
  // blocks on the slot, or goes to sleep for want of a slot.
  lemma LockAlone(s: State, t: Tid, h: Hash, trylock: bool)
    requires Inv(s) && s.owner.None? && t in s.threads && s.threads[t].pc.Idle?
    ensures Step(s, CallLock(t, h, trylock)).Some?
    ensures var s1 := Step(s, CallLock(t, h, trylock)).value;
            if Gets(s, h) then Alone(s1, t, 3).Some? && Got(Alone(s1, t, 3).value, t, SlotFor(s, h), h, s.threads[t].held)
            else if trylock then exists n :: n <= 5 && Alone(s1, t, n) == Some(s)
            else if Find(s.slots, s.active, h).Some? then Alone(s1, t, 2).Some? && Alone(s1, t, 3).None?
            else Alone(s1, t, 2) == Some(Goto(s, t, Sleeping(h)))
  {
    CallEnters(s, t, h, trylock);
    if Gets(s, h) {
      EnteredInv(s, t, h, trylock);
      LookupAlone(Entered(s, t, LockCrit(h, trylock)), t, h);
    } else if trylock {
      TryGivesUp(s, t, h);
    } else {
      PlainWaits(s, t, h);
    }
  }

  // The state once an unlock of slot x is done: one reference less, the semaphore raised, and the slot
  // the first free one if nobody else references it.
  function Unlocked(s: State, t: Tid, x: nat): State
    requires t in s.threads && x < |s.slots|
  {
    var slot, last := s.slots[x], s.slots[x].refs == 1;
    State(s.slots[x := slot.(refs := slot.refs - 1, sem := slot.sem + 1)],
          if last then Without(s.active, x) else s.active, if last then [x] + s.free else s.free,
          None, s.threads[t := Thread(Idle, s.threads[t].held - {x})])
  }

  // AND AN UNLOCK ALONE: it ends in that state, where the name can be had at once, by the same slot.
  lemma UnlockAlone(s: State, t: Tid, h: Hash, x: nat)
    requires Inv(s) && s.owner.None? && t in s.threads && s.threads[t].pc.Idle?
    requires x in s.threads[t].held && Names(s, x, h)
    ensures Step(s, CallUnlock(t, h)).Some?
    ensures Alone(Step(s, CallUnlock(t, h)).value, t, 4) == Some(Unlocked(s, t, x))
    ensures Gets(Unlocked(s, t, x), h) && SlotFor(Unlocked(s, t, x), h) == x
  {
    assert ThreadOk(s, t);
    assert Find(s.slots, s.active, h) == Some(x);
    UnlockSteps(s, t, h, x);
    GetsAgain(s, t, h, x);
  }

  lemma UnlockSteps(s: State, t: Tid, h: Hash, x: nat)
    requires s.owner.None? && t in s.threads && s.threads[t].pc.Idle? && Find(s.slots, s.active, h) == Some(x)
    ensures Alone(Goto(s, t, UnlockWait(h)), t, 4) == Some(Unlocked(s, t, x))
  {
    var s1, s2 := Goto(s, t, UnlockWait(h)), Entered(s, t, UnlockCrit(h));
    assert Step(s1, Run(t)).value.threads == s2.threads;
    DropStep(s, t, h, x);
    UpStep(s, t, x);
    PutStep(s, t, x);
    AloneStep(s1, t, 3, s2);
    AloneStep(s2, t, 2, Dropped(s, t, x));
    AloneStep(Dropped(s, t, x), t, 1, Raised(s, t, x));
    AloneStep(Raised(s, t, x), t, 0, Unlocked(s, t, x));
  }

  lemma AloneStep(s: State, t: Tid, n: nat, s': State)
    requires Step(s, Run(t)) == Some(s')
    ensures Alone(s, t, n + 1) == Alone(s', t, n)
  {}

  function Dropped(s: State, t: Tid, x: nat): State
    requires t in s.threads && x < |s.slots|
  {
    var refs := s.slots[x].refs - 1;
    s.(slots := s.slots[x := s.slots[x].(refs := refs)], owner := Some(t),
       threads := s.threads[t := Thread(UnlockUp(x, refs), s.threads[t].held - {x})])
  }

  function Raised(s: State, t: Tid, x: nat): State
    requires t in s.threads && x < |s.slots|
  {
    var refs, sem := s.slots[x].refs - 1, s.slots[x].sem + 1;
    s.(slots := s.slots[x := s.slots[x].(refs := refs, sem := sem)], owner := Some(t),
       threads := s.threads[t := Thread(UnlockPut(x, refs), s.threads[t].held - {x})])
  }

  lemma DropStep(s: State, t: Tid, h: Hash, x: nat)
    requires t in s.threads && Find(s.slots, s.active, h) == Some(x)
    ensures Step(Entered(s, t, UnlockCrit(h)), Run(t)) == Some(Dropped(s, t, x))
  {
    assert Step(Entered(s, t, UnlockCrit(h)), Run(t)).value.threads == Dropped(s, t, x).threads;
  }

  lemma UpStep(s: State, t: Tid, x: nat)
    requires t in s.threads && x < |s.slots|
    ensures Step(Dropped(s, t, x), Run(t)) == Some(Raised(s, t, x))
  {
    var s' := Step(Dropped(s, t, x), Run(t)).value;
    assert s'.slots == Raised(s, t, x).slots && s'.threads == Raised(s, t, x).threads;
  }

  lemma PutStep(s: State, t: Tid, x: nat)
    requires t in s.threads && x < |s.slots|
    ensures Step(Raised(s, t, x), Run(t)) == Some(Unlocked(s, t, x))
  {
    var s' := Step(Raised(s, t, x), Run(t)).value;
    assert s'.slots == Unlocked(s, t, x).slots && s'.threads == Unlocked(s, t, x).threads;
  }

  lemma GetsAgain(s: State, t: Tid, h: Hash, x: nat)
    requires Inv(s) && t in s.threads && x in s.active && Names(s, x, h)
    ensures Gets(Unlocked(s, t, x), h) && SlotFor(Unlocked(s, t, x), h) == x
  {
    assert SlotOk(s, x);
    WithoutMember(s.active, x);
  }

  // A plain call that does not get its name blocks or sleeps.
  lemma PlainWaits(s: State, t: Tid, h: Hash)
    requires Inv(s) && s.owner.None? && t in s.threads && s.threads[t].pc.Idle? && !Gets(s, h)
    ensures var s2 := Entered(s, t, LockCrit(h, false));
            if Find(s.slots, s.active, h).Some? then Alone(s2, t, 1).Some? && Alone(s2, t, 2).None?
            else Alone(s2, t, 1) == Some(Goto(s, t, Sleeping(h)))
  {
    var s2 := Entered(s, t, LockCrit(h, false));
    var s3 := Step(s2, Run(t)).value;
    assert Alone(s2, t, 1) == Alone(s3, t, 0);
    if Find(s.slots, s.active, h).Some? {
      assert Alone(s2, t, 2) == Alone(s3, t, 1);
      assert Step(s3, Run(t)).None?;
    } else {
      assert s3.threads == Goto(s, t, Sleeping(h)).threads;
    }
  }

  // A trylock that does not get its name leaves everything as it was.
  lemma TryGivesUp(s: State, t: Tid, h: Hash)
    requires Inv(s) && s.owner.None? && t in s.threads && s.threads[t].pc.Idle? && !Gets(s, h)
    ensures var s1 := Goto(s, t, LockWait(h, true));
            Step(s, CallLock(t, h, true)) == Some(s1) && exists n :: n <= 5 && Alone(s1, t, n) == Some(s)
  {
    var s1, s2 := Goto(s, t, LockWait(h, true)), Entered(s, t, LockCrit(h, true));
    var found := Find(s.slots, s.active, h);
    CallEnters(s, t, h, true);
    if found.Some? {
      Rechecked(s, t, found.value, h);
      assert Alone(s1, t, 5) == Some(s);
    } else {
      var s3 := Step(s2, Run(t)).value;
      assert s3.threads == s.threads;
      assert Alone(s2, t, 1) == Alone(s3, t, 0);
      assert Alone(s1, t, 2) == Some(s);
    }
  }

  // The slot is taken: counted in, found taken, re-checked and counted out.
  lemma Rechecked(s: State, t: Tid, x: nat, h: Hash)
    requires Inv(s) && s.owner.None? && t in s.threads && s.threads[t].pc.Idle?
    requires Find(s.slots, s.active, h) == Some(x) && s.slots[x].sem == 0
    ensures Alone(Entered(s, t, LockCrit(h, true)), t, 4) == Some(s)
  {
    var refs := s.slots[x].refs;
    assert SlotOk(s, x) && refs > 0;
    var s2 := Entered(s, t, LockCrit(h, true));
    var counted := s.(slots := s.slots[x := s.slots[x].(refs := refs + 1)]);
    FindsTaken(s, counted, t, x, h);
    GivesBack(s, counted, t, x);
    assert Alone(s2, t, 4) == Alone(Goto(counted, t, TryAcquire(x)), t, 3) == Alone(Goto(counted, t, RaceWait(x)), t, 2);
  }

  lemma FindsTaken(s: State, counted: State, t: Tid, x: nat, h: Hash)
    requires s.owner.None? && t in s.threads && Find(s.slots, s.active, h) == Some(x) && s.slots[x].sem == 0
    requires counted == s.(slots := s.slots[x := s.slots[x].(refs := s.slots[x].refs + 1)])
    ensures Step(Entered(s, t, LockCrit(h, true)), Run(t)) == Some(Goto(counted, t, TryAcquire(x)))
    ensures Step(Goto(counted, t, TryAcquire(x)), Run(t)) == Some(Goto(counted, t, RaceWait(x)))
  {
    assert Step(Entered(s, t, LockCrit(h, true)), Run(t)).value.threads == Goto(counted, t, TryAcquire(x)).threads;
    assert Step(Goto(counted, t, TryAcquire(x)), Run(t)).value.threads == Goto(counted, t, RaceWait(x)).threads;
  }

  lemma GivesBack(s: State, counted: State, t: Tid, x: nat)
    requires s.owner.None? && t in s.threads && s.threads[t].pc.Idle? && x < |s.slots| && s.slots[x].refs > 0
    requires counted == s.(slots := s.slots[x := s.slots[x].(refs := s.slots[x].refs + 1)])
    ensures Alone(Goto(counted, t, RaceWait(x)), t, 2) == Some(s)
  {
    var s4, s5 := Goto(counted, t, RaceWait(x)), Entered(counted, t, RaceCrit(x));
    assert Step(s4, Run(t)) == Some(s5) by { assert Step(s4, Run(t)).value.threads == s5.threads; }
    var s6 := Step(s5, Run(t)).value;
    assert s6.threads == s.threads && s6.slots == s.slots;
    assert Alone(s4, t, 2) == Alone(s5, t, 1) == Alone(s6, t, 0);
  }

  // A call asleep for want of a slot gets its name once a slot is free and the name's is not taken,
  // blocks if it is taken, and goes on sleeping while no slot is free, even if the name has one.
  lemma SleeperAlone(s: State, t: Tid, h: Hash)
    requires Inv(s) && s.owner.None? && t in s.threads && s.threads[t].pc == Sleeping(h)
    ensures if s.free == [] then Alone(s, t, 2) == Some(s)
            else if Gets(s, h) then Alone(s, t, 3).Some? && Got(Alone(s, t, 3).value, t, SlotFor(s, h), h, s.threads[t].held)
            else Alone(s, t, 2).Some? && Alone(s, t, 3).None?
  {
    SleeperEnters(s, t, h);
    if s.free != [] && Gets(s, h) {
      EnterInv(s, t);
      LookupAlone(Entered(s, t, RetryCrit(h)), t, h);
    } else {
      SleeperWaits(Entered(s, t, RetryCrit(h)), t, h);
      SleepsOn(s, t, h);
    }
  }

  lemma SleepsOn(s: State, t: Tid, h: Hash)
    requires s.owner.None? && t in s.threads && s.threads[t].pc == Sleeping(h)
    ensures Leave(Entered(s, t, RetryCrit(h)), t, Sleeping(h)) == s
  {
    assert Leave(Entered(s, t, RetryCrit(h)), t, Sleeping(h)).threads == s.threads;
  }

  lemma SleeperEnters(s: State, t: Tid, h: Hash)
    requires s.owner.None? && t in s.threads && s.threads[t].pc == Sleeping(h)
    ensures var s1 := Entered(s, t, RetryCrit(h));
            Step(s, Run(t)) == Some(s1) && forall n: nat :: Alone(s, t, n + 1) == Alone(s1, t, n)
  {}

  lemma SleeperWaits(s: State, t: Tid, h: Hash)
    requires t in s.threads && s.threads[t].pc == RetryCrit(h) && (s.free == [] || !Gets(s, h))
    ensures if s.free == [] then Alone(s, t, 1) == Some(Leave(s, t, Sleeping(h)))
            else Alone(s, t, 1).Some? && Alone(s, t, 2).None?
  {
    var s2 := Step(s, Run(t)).value;
    assert Alone(s, t, 1) == Alone(s2, t, 0);
    if s.free != [] {
      assert Step(s2, Run(t)).None?;
    }
  }
}
