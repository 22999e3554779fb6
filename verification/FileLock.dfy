// The named-file lock of filelock.c: a table of MAX_FILELOCKS reference-counted slots, keyed by
// the hash of a file name and guarded by one global lock, with lock, trylock and unlock calls of
// any number of threads interleaved step by step.
//
// A thread's program counter says what it is about to do.  Code between two accesses
// to shared data that no other thread can touch (because the global lock is held) is one step;
// the operations on a slot's own semaphore, which threads outside the global lock use, are
// steps of their own.
module FileLock {
  import opened Wrappers

  const MAX_FILELOCKS: nat := 1024

  type Tid = nat
  type Hash = nat

  // value of the slot's semaphore, its hash and its reference count
  datatype Slot = Slot(hash: Hash, sem: int, refs: int)

  datatype Pc =
    | Idle
    | LockWait(h: Hash, trylock: bool)      // a lock call about to take the global lock
    | LockCrit(h: Hash, trylock: bool)      // holds it, before the lookup
    | Sleeping(h: Hash)                     // found no free slot, and dropped the global lock
    | RetryCrit(h: Hash)                    // holds it again, before taking a free slot
    | Acquire(x: nat)                       // about to take the slot's semaphore
    | TryAcquire(x: nat)                    // about to try to
    | RaceWait(x: nat)                      // found it taken, about to take the global lock
    | RaceCrit(x: nat)                      // holds it, before the re-check of the references
    | Grab(x: nat)                          // the only reference left, about to take the semaphore
    | UnlockWait(h: Hash)                   // an unlock call about to take the global lock
    | UnlockCrit(h: Hash)                   // holds it, before the lookup
    | UnlockUp(x: nat, refs: int)           // holds it, about to raise the semaphore
    | UnlockPut(x: nat, refs: int)          // holds it, about to give up the slot if unused
  {
    predicate InCrit() {
      LockCrit? || RetryCrit? || RaceCrit? || UnlockCrit? || UnlockUp? || UnlockPut?
    }
    // Between counting itself in `references` and taking the slot's semaphore.
    predicate Acquiring(y: nat) {
      (Acquire? || TryAcquire? || RaceWait? || RaceCrit? || Grab?) && x == y
    }
  }

  // `held` is the set of slots whose semaphore the thread took in a call that returned success.
  datatype Thread = Thread(pc: Pc, held: set<nat>)

  // `active` and `free` are the two lists of the table, first entry first.
  datatype State = State(slots: seq<Slot>, active: seq<nat>, free: seq<nat>,
                         owner: Option<Tid>, threads: map<Tid, Thread>)

  // A step: a thread starts a call, or a thread in a call executes the code at its pc.
  datatype Action = CallLock(t: Tid, h: Hash, trylock: bool) | CallUnlock(t: Tid, h: Hash) | Run(t: Tid)

  // ----- the code -----

  function Find(slots: seq<Slot>, active: seq<nat>, h: Hash): (r: Option<nat>)
    ensures r.Some? ==> r.value in active && r.value < |slots| && slots[r.value].hash == h
    ensures r.None? ==> forall x :: x in active && x < |slots| ==> slots[x].hash != h
  {
    if active == [] then None
    else if active[0] < |slots| && slots[active[0]].hash == h then Some(active[0])
    else Find(slots, active[1..], h)
  }

  function Goto(s: State, t: Tid, pc: Pc): State
    requires t in s.threads
  {
    s.(threads := s.threads[t := s.threads[t].(pc := pc)])
  }

  function Leave(s: State, t: Tid, pc: Pc): State
    requires t in s.threads
  {
    Goto(s, t, pc).(owner := None)
  }

  function Enter(s: State, t: Tid, pc: Pc): Option<State>
    requires t in s.threads
  {
    if s.owner.None? then Some(Goto(s, t, pc).(owner := Some(t))) else None
  }

  function LockPc(x: nat, trylock: bool): Pc {
    if trylock then TryAcquire(x) else Acquire(x)
  }

  // The slot was found on the active list.
  function Reference(s: State, t: Tid, x: nat, trylock: bool): State
    requires t in s.threads && x < |s.slots|
  {
    Leave(s.(slots := s.slots[x := s.slots[x].(refs := s.slots[x].refs + 1)]), t, LockPc(x, trylock))
  }

  // The slot was not found: the first free slot becomes the first active one.
  function TakeFree(s: State, t: Tid, h: Hash, trylock: bool): Option<State>
    requires t in s.threads && s.free != []
  {
    var x := s.free[0];
    if x < |s.slots| then
      Some(Leave(s.(slots := s.slots[x := s.slots[x].(hash := h, refs := 1)],
                    active := [x] + s.active, free := s.free[1..]), t, LockPc(x, trylock)))
    else None
  }

  // fio_sem_down on the slot: blocks (no step) while the semaphore is 0.
  function TakeSem(s: State, t: Tid, x: nat): Option<State>
    requires t in s.threads
  {
    if x < |s.slots| && s.slots[x].sem != 0 then
      Some(s.(slots := s.slots[x := s.slots[x].(sem := s.slots[x].sem - 1)],
              threads := s.threads[t := Thread(Idle, s.threads[t].held + {x})]))
    else None
  }

  // The code at thread t's program counter; None when the thread is idle or blocked.
  function RunStep(s: State, t: Tid): Option<State>
    requires t in s.threads
  {
    match s.threads[t].pc
    case Idle => None
    case LockWait(h, trylock) => Enter(s, t, LockCrit(h, trylock))
    case LockCrit(h, trylock) => (
      match Find(s.slots, s.active, h)
      case Some(x) => Some(Reference(s, t, x, trylock))
      case None =>
        if s.free != [] then TakeFree(s, t, h, trylock)
        else Some(Leave(s, t, if trylock then Idle else Sleeping(h))))
    case Sleeping(h) => Enter(s, t, RetryCrit(h))
    case RetryCrit(h) =>
      if s.free == [] then Some(Leave(s, t, Sleeping(h)))
      else (
        // the slot taken off the free list goes back to its front when the hash has appeared
        match Find(s.slots, s.active, h)
        case Some(x) => Some(Reference(s, t, x, false))
        case None => TakeFree(s, t, h, false))
    case Acquire(x) => TakeSem(s, t, x)
    case TryAcquire(x) =>
      if x < |s.slots| && s.slots[x].sem == 0 then Some(Goto(s, t, RaceWait(x))) else TakeSem(s, t, x)
    case RaceWait(x) => Enter(s, t, RaceCrit(x))
    case RaceCrit(x) =>
      if x >= |s.slots| then None
      else if s.slots[x].refs != 1 then
        Some(Leave(s.(slots := s.slots[x := s.slots[x].(refs := s.slots[x].refs - 1)]), t, Idle))
      else Some(Leave(s, t, Grab(x)))
    case Grab(x) => TakeSem(s, t, x)
    case UnlockWait(h) => Enter(s, t, UnlockCrit(h))
    case UnlockCrit(h) => (
      match Find(s.slots, s.active, h)
      case None => Some(Leave(s, t, Idle))
      case Some(x) =>
        var refs := s.slots[x].refs - 1;
        Some(s.(slots := s.slots[x := s.slots[x].(refs := refs)],
                threads := s.threads[t := Thread(UnlockUp(x, refs), s.threads[t].held - {x})])))
    case UnlockUp(x, refs) =>
      if x < |s.slots| then
        Some(Goto(s.(slots := s.slots[x := s.slots[x].(sem := s.slots[x].sem + 1)]), t, UnlockPut(x, refs)))
      else None
    case UnlockPut(x, refs) =>
      if refs != 0 then Some(Leave(s, t, Idle))
      else Some(Leave(s.(active := Without(s.active, x), free := [x] + s.free), t, Idle))
  }

  function Step(s: State, a: Action): Option<State> {
    if a.t !in s.threads then None
    else
      match a
      case CallLock(t, h, trylock) =>
        if s.threads[t].pc.Idle? then Some(Goto(s, t, LockWait(h, trylock))) else None
      case CallUnlock(t, h) =>
        if s.threads[t].pc.Idle? then Some(Goto(s, t, UnlockWait(h))) else None
      case Run(t) => RunStep(s, t)
  }

  function Exec(s: State, run: seq<Action>): Option<State>
    decreases |run|
  {
    if run == [] then Some(s)
    else match Step(s, run[0])
         case None => None
         case Some(s') => Exec(s', run[1..])
  }

  // After fio_filelock_init, with any finite set of threads.
  ghost predicate Init(s: State) {
    && |s.slots| == MAX_FILELOCKS
    && (forall x :: 0 <= x < MAX_FILELOCKS ==> s.slots[x].sem == 1)
    && s.active == []
    && |s.free| == MAX_FILELOCKS && (forall x :: 0 <= x < MAX_FILELOCKS ==> s.free[x] == x)
    && s.owner == None
    && (forall t :: t in s.threads ==> s.threads[t] == Thread(Idle, {}))
  }

  // The rule for callers: a thread unlocks only a name it has locked.
  ghost predicate HoldsName(s: State, t: Tid, h: Hash) {
    t in s.threads && exists x :: x in s.threads[t].held && x < |s.slots| && s.slots[x].hash == h
  }

  ghost predicate Disciplined(s: State, run: seq<Action>)
    decreases |run|
  {
    run != [] ==>
      && (run[0].CallUnlock? ==> HoldsName(s, run[0].t, run[0].h))
      && (Step(s, run[0]).Some? ==> Disciplined(Step(s, run[0]).value, run[1..]))
  }

  // ----- the invariant -----

  datatype Role = Holder | Acquirer | Releaser

  predicate Plays(th: Thread, r: Role, x: nat) {
    match r
    case Holder => x in th.held
    case Acquirer => th.pc.Acquiring(x)
    case Releaser => th.pc.UnlockUp? && th.pc.x == x
  }

  ghost function Who(ts: map<Tid, Thread>, r: Role, x: nat): set<Tid> {
    set t | t in ts && Plays(ts[t], r, x)
  }

  // Changing one thread moves it in or out of a role, and nothing else.
  lemma WhoUpdate(ts: map<Tid, Thread>, t: Tid, th: Thread, r: Role, x: nat)
    requires t in ts
    ensures var after := Who(ts[t := th], r, x); var before := Who(ts, r, x);
            && (t in before <==> Plays(ts[t], r, x))
            && (Plays(th, r, x) == Plays(ts[t], r, x) ==> after == before)
            && (Plays(th, r, x) && !Plays(ts[t], r, x) ==> |after| == |before| + 1)
            && (!Plays(th, r, x) && Plays(ts[t], r, x) ==> |after| == |before| - 1)
  {
    var after := Who(ts[t := th], r, x);
    var before := Who(ts, r, x);
    if Plays(th, r, x) && !Plays(ts[t], r, x) {
      assert after == before + {t};
    } else if !Plays(th, r, x) && Plays(ts[t], r, x) {
      assert after == before - {t};
    } else {
      assert after == before;
    }
  }

  // Active and free slots partition the table, and active slots have distinct hashes.
  ghost predicate Lists(s: State) {
    && |s.slots| == MAX_FILELOCKS
    && Distinct(s.active) && Distinct(s.free)
    && (forall x :: x in s.active ==> x !in s.free)
    && (forall x: nat :: x < MAX_FILELOCKS <==> x in s.active || x in s.free)
    && (forall x, y :: x in s.active && y in s.active && s.slots[x].hash == s.slots[y].hash ==> x == y)
  }

  // The global lock is held by exactly the thread inside a critical section.
  ghost predicate GlobalLock(s: State) {
    && (forall t :: t in s.threads ==> (s.threads[t].pc.InCrit() <==> s.owner == Some(t)))
    && (s.owner.Some? ==> s.owner.value in s.threads)
  }

  // The thread that has dropped the last reference and is about to unlink slot x.
  ghost predicate Dying(s: State, x: nat) {
    && s.owner.Some? && s.owner.value in s.threads
    && var pc := s.threads[s.owner.value].pc;
       (pc.UnlockUp? || pc.UnlockPut?) && pc.x == x && pc.refs == 0
  }

  ghost predicate SlotOk(s: State, x: nat)
    requires x < |s.slots|
  {
    var holders, acquirers := |Who(s.threads, Holder, x)|, |Who(s.threads, Acquirer, x)|;
    && s.slots[x].sem >= 0
    && s.slots[x].sem + holders + |Who(s.threads, Releaser, x)| == 1
    && (x in s.active ==> s.slots[x].refs == holders + acquirers && (s.slots[x].refs > 0 || Dying(s, x)))
    && (x in s.free ==> holders == 0 && acquirers == 0 && s.slots[x].sem == 1)
  }

  ghost predicate ThreadOk(s: State, t: Tid)
    requires t in s.threads
  {
    var pc := s.threads[t].pc;
    && (forall x :: x in s.threads[t].held ==> x in s.active)
    && (forall x :: pc.Acquiring(x) ==> x in s.active)
    && (pc.UnlockWait? || pc.UnlockCrit? ==> HoldsName(s, t, pc.h))
    && (pc.UnlockUp? || pc.UnlockPut? ==> pc.x in s.active && pc.x < |s.slots| && s.slots[pc.x].refs == pc.refs)
  }

  ghost predicate Inv(s: State) {
    && Lists(s) && GlobalLock(s)
    && (forall x :: 0 <= x < MAX_FILELOCKS ==> SlotOk(s, x))
    && (forall t :: t in s.threads ==> ThreadOk(s, t))
  }

  // ----- every step keeps the invariant -----

  lemma InitInv(s: State)
    requires Init(s)
    ensures Inv(s)
  {
    forall x: nat | x < MAX_FILELOCKS
      ensures x in s.free && SlotOk(s, x)
    {
      assert s.free[x] == x;
      assert Who(s.threads, Holder, x) == {} && Who(s.threads, Acquirer, x) == {} && Who(s.threads, Releaser, x) == {};
    }
  }

  // A thread's holding or acquiring a slot shows in the slot's counts.
  lemma Counted(s: State, t: Tid, r: Role, x: nat)
    requires t in s.threads && Plays(s.threads[t], r, x)
    ensures t in Who(s.threads, r, x) && |Who(s.threads, r, x)| > 0
  {
    assert t in Who(s.threads, r, x);
  }

  // While t is in a critical section no other thread is about to raise a slot's semaphore.
  lemma NoOtherReleaser(s: State, t: Tid, x: nat)
    requires GlobalLock(s) && t in s.threads && s.threads[t].pc.InCrit()
    ensures |Who(s.threads, Releaser, x)| == if Plays(s.threads[t], Releaser, x) then 1 else 0
  {
    if Plays(s.threads[t], Releaser, x) {
      assert Who(s.threads, Releaser, x) == {t};
    } else {
      assert Who(s.threads, Releaser, x) == {};
    }
  }

  // Slots and lists untouched, only t's pc and perhaps the global lock changed, no role changed.
  lemma QuietInv(s: State, t: Tid, s': State)
    requires Inv(s) && t in s.threads
    requires s'.slots == s.slots && s'.active == s.active && s'.free == s.free
    requires t in s'.threads && s'.threads == s.threads[t := s'.threads[t]]
    requires GlobalLock(s') && ThreadOk(s', t)
    requires forall r, x :: Plays(s'.threads[t], r, x) == Plays(s.threads[t], r, x)
    requires !(s.threads[t].pc.UnlockUp? || (s.threads[t].pc.UnlockPut? && s.threads[t].pc.refs == 0))
    ensures Inv(s')
  {
    forall x: nat | x < MAX_FILELOCKS
      ensures SlotOk(s', x)
    {
      WhoUpdate(s.threads, t, s'.threads[t], Holder, x);
      WhoUpdate(s.threads, t, s'.threads[t], Acquirer, x);
      WhoUpdate(s.threads, t, s'.threads[t], Releaser, x);
      assert SlotOk(s, x);
    }
    forall u | u in s'.threads
      ensures ThreadOk(s', u)
    {
      assert ThreadOk(s, u);
    }
  }

  // The counts of slot x after thread t changes from its old state to s'.threads[t].
  lemma Recount(s: State, t: Tid, s': State, x: nat)
    requires t in s.threads && t in s'.threads && s'.threads == s.threads[t := s'.threads[t]]
    ensures var th, th' := s.threads[t], s'.threads[t];
            forall r :: |Who(s'.threads, r, x)| == |Who(s.threads, r, x)|
                        + (if Plays(th', r, x) then 1 else 0) - (if Plays(th, r, x) then 1 else 0)
  {
    forall r
      ensures |Who(s'.threads, r, x)| == |Who(s.threads, r, x)|
              + (if Plays(s'.threads[t], r, x) then 1 else 0) - (if Plays(s.threads[t], r, x) then 1 else 0)
    {
      WhoUpdate(s.threads, t, s'.threads[t], r, x);
    }
  }

  // A step of thread t at slot x leaves every other slot in order.
  lemma OtherSlots(s: State, t: Tid, s': State, x: nat)
    requires Inv(s) && t in s.threads && t in s'.threads && s'.threads == s.threads[t := s'.threads[t]]
    requires |s'.slots| == |s.slots|
    requires forall y: nat :: y < |s.slots| && y != x ==> s'.slots[y] == s.slots[y]
    requires forall y :: y != x ==> (y in s'.active <==> y in s.active) && (y in s'.free <==> y in s.free)
    requires forall r, y :: y != x ==> Plays(s'.threads[t], r, y) == Plays(s.threads[t], r, y)
    requires s.owner != Some(t) ==> s'.owner == s.owner
    requires s.owner == Some(t) && (s.threads[t].pc.UnlockUp? || s.threads[t].pc.UnlockPut?) ==> s.threads[t].pc.x == x
    ensures forall y: nat :: y < MAX_FILELOCKS && y != x ==> SlotOk(s', y)
  {
    forall y: nat | y < MAX_FILELOCKS && y != x
      ensures SlotOk(s', y)
    {
      Recount(s, t, s', y);
      assert SlotOk(s, y);
      assert Dying(s, y) ==> Dying(s', y);
    }
  }

  // And every other thread, if it keeps the slots those threads refer to.
  lemma OtherThreads(s: State, t: Tid, s': State, x: nat)
    requires Inv(s) && t in s.threads && t in s'.threads && s'.threads == s.threads[t := s'.threads[t]]
    requires |s'.slots| == |s.slots|
    requires forall y: nat :: y < |s.slots| && y != x ==> s'.slots[y] == s.slots[y]
    requires forall y :: y in s.active && y != x ==> y in s'.active
    requires x in s.active && x < |s.slots| ==>
               s'.slots[x].hash == s.slots[x].hash && (s.owner == Some(t) || s'.slots[x].refs == s.slots[x].refs)
    requires x in s.active && x !in s'.active ==>
               s.owner == Some(t) && forall u :: u in s.threads && u != t ==> !Plays(s.threads[u], Holder, x) && !Plays(s.threads[u], Acquirer, x)
    ensures forall u :: u in s'.threads && u != t && !(s.threads[u].pc.InCrit() && s.owner == Some(t)) ==> ThreadOk(s', u)
  {
    forall u | u in s'.threads && u != t && !(s.threads[u].pc.InCrit() && s.owner == Some(t))
      ensures ThreadOk(s', u)
    {
      assert ThreadOk(s, u);
      if s.threads[u].pc.UnlockWait? || s.threads[u].pc.UnlockCrit? {
        var h := s.threads[u].pc.h;
        var y :| y in s.threads[u].held && y < |s.slots| && s.slots[y].hash == h;
        assert Plays(s.threads[u], Holder, y);
        assert y in s'.threads[u].held && s'.slots[y].hash == h;
      }
      forall y | y in s.threads[u].held
        ensures y in s'.active
      {
        assert Plays(s.threads[u], Holder, y);
      }
      forall y | s.threads[u].pc.Acquiring(y)
        ensures y in s'.active
      {
        assert Plays(s.threads[u], Acquirer, y);
      }
    }
  }

  // The invariant from its parts, for a step of thread t at slot x.
  lemma StepAt(s: State, t: Tid, s': State, x: nat)
    requires Inv(s) && t in s.threads && t in s'.threads && s'.threads == s.threads[t := s'.threads[t]]
    requires |s'.slots| == |s.slots|
    requires forall y: nat :: y < |s.slots| && y != x ==> s'.slots[y] == s.slots[y]
    requires forall y :: y != x ==> (y in s'.active <==> y in s.active) && (y in s'.free <==> y in s.free)
    requires forall r, y :: y != x ==> Plays(s'.threads[t], r, y) == Plays(s.threads[t], r, y)
    requires s.owner != Some(t) ==> s'.owner == s.owner
    requires s.owner == Some(t) && (s.threads[t].pc.UnlockUp? || s.threads[t].pc.UnlockPut?) ==> s.threads[t].pc.x == x
    requires x in s.active && x < |s.slots| ==>
               s'.slots[x].hash == s.slots[x].hash && (s.owner == Some(t) || s'.slots[x].refs == s.slots[x].refs)
    requires x in s.active && x !in s'.active ==>
               s.owner == Some(t) && forall u :: u in s.threads && u != t ==> !Plays(s.threads[u], Holder, x) && !Plays(s.threads[u], Acquirer, x)
    requires Lists(s') && GlobalLock(s') && x < MAX_FILELOCKS && SlotOk(s', x) && ThreadOk(s', t)
    ensures Inv(s')
  {
    OtherSlots(s, t, s', x);
    OtherThreads(s, t, s', x);
    forall u | u in s'.threads
      ensures ThreadOk(s', u)
    {
      if u != t {
        assert s.threads[u].pc.InCrit() ==> s.owner == Some(u);
      }
    }
  }

  lemma ReferenceSlot(s: State, t: Tid, x: nat, trylock: bool)
    requires Inv(s) && t in s.threads && (s.threads[t].pc.LockCrit? || s.threads[t].pc.RetryCrit?)
    requires x in s.active && x < |s.slots|
    ensures SlotOk(Reference(s, t, x, trylock), x)
  {
    Recount(s, t, Reference(s, t, x, trylock), x);
    assert SlotOk(s, x);
  }

  lemma ReferenceRest(s: State, t: Tid, x: nat, trylock: bool)
    requires Inv(s) && t in s.threads && (s.threads[t].pc.LockCrit? || s.threads[t].pc.RetryCrit?)
    requires x in s.active && x < |s.slots|
    ensures var s' := Reference(s, t, x, trylock);
            Lists(s') && GlobalLock(s') && ThreadOk(s', t)
  {
    assert ThreadOk(s, t);
  }

  lemma ReferenceInv(s: State, t: Tid, x: nat, trylock: bool)
    requires Inv(s) && t in s.threads && (s.threads[t].pc.LockCrit? || s.threads[t].pc.RetryCrit?)
    requires x in s.active && x < |s.slots|
    ensures Inv(Reference(s, t, x, trylock))
  {
    ReferenceSlot(s, t, x, trylock);
    ReferenceRest(s, t, x, trylock);
    StepAt(s, t, Reference(s, t, x, trylock), x);
  }

  lemma TakeFreeLists(s: State, t: Tid, h: Hash, trylock: bool)
    requires Inv(s) && t in s.threads
    requires s.free != [] && Find(s.slots, s.active, h) == None
    ensures TakeFree(s, t, h, trylock).Some? && Lists(TakeFree(s, t, h, trylock).value)
    ensures forall y :: y in s.free <==> y == s.free[0] || y in s.free[1..]
    ensures s.free[0] < MAX_FILELOCKS && s.free[0] !in s.free[1..] && s.free[0] !in s.active
  {
    var x := s.free[0];
    assert s.free == [x] + s.free[1..];
    DistinctCons(x, s.free[1..]);
    DistinctCons(x, s.active);
    assert x in s.free;
    var s' := TakeFree(s, t, h, trylock).value;
    forall y: nat
      ensures y < MAX_FILELOCKS <==> y in s'.active || y in s'.free
    {
      assert y in s.free <==> y == x || y in s.free[1..];
    }
  }

  lemma TakeFreeInv(s: State, t: Tid, h: Hash, trylock: bool)
    requires Inv(s) && t in s.threads && (s.threads[t].pc.LockCrit? || s.threads[t].pc.RetryCrit?)
    requires s.free != [] && Find(s.slots, s.active, h) == None
    ensures TakeFree(s, t, h, trylock).Some? && Inv(TakeFree(s, t, h, trylock).value)
  {
    var x := s.free[0];
    TakeFreeLists(s, t, h, trylock);
    var s' := TakeFree(s, t, h, trylock).value;
    Recount(s, t, s', x);
    assert SlotOk(s, x) && ThreadOk(s, t);
    assert ThreadOk(s', t);
    StepAt(s, t, s', x);
  }

  lemma TakeSemInv(s: State, t: Tid, x: nat)
    requires Inv(s) && t in s.threads && s.threads[t].pc.Acquiring(x)
    requires !s.threads[t].pc.RaceCrit? && TakeSem(s, t, x).Some?
    ensures Inv(TakeSem(s, t, x).value)
  {
    var s' := TakeSem(s, t, x).value;
    assert ThreadOk(s, t) && SlotOk(s, x);
    if x in s.threads[t].held {
      Counted(s, t, Holder, x);
      assert false;
    }
    Recount(s, t, s', x);
    Counted(s, t, Acquirer, x);
    StepAt(s, t, s', x);
  }

  lemma RaceDropSlot(s: State, t: Tid)
    requires Inv(s) && t in s.threads && s.threads[t].pc.RaceCrit?
    requires s.threads[t].pc.x < |s.slots| && s.slots[s.threads[t].pc.x].refs != 1
    ensures SlotOk(RunStep(s, t).value, s.threads[t].pc.x) && s.threads[t].pc.x in s.active
  {
    var x := s.threads[t].pc.x;
    assert ThreadOk(s, t) && SlotOk(s, x);
    Counted(s, t, Acquirer, x);
    Recount(s, t, RunStep(s, t).value, x);
  }

  lemma RaceDropRest(s: State, t: Tid)
    requires Inv(s) && t in s.threads && s.threads[t].pc.RaceCrit?
    requires s.threads[t].pc.x < |s.slots| && s.slots[s.threads[t].pc.x].refs != 1
    ensures var s' := RunStep(s, t).value;
            Lists(s') && GlobalLock(s') && ThreadOk(s', t)
  {
    assert ThreadOk(s, t);
  }

  // A trylock gives up: the slot keeps another reference, so it stays on the active list.
  lemma RaceDropInv(s: State, t: Tid)
    requires Inv(s) && t in s.threads && s.threads[t].pc.RaceCrit?
    requires s.threads[t].pc.x < |s.slots| && s.slots[s.threads[t].pc.x].refs != 1
    ensures Inv(RunStep(s, t).value)
  {
    RaceDropSlot(s, t);
    RaceDropRest(s, t);
    StepAt(s, t, RunStep(s, t).value, s.threads[t].pc.x);
  }

  // The slot a disciplined unlock finds is one its thread holds.
  lemma UnlockFinds(s: State, t: Tid) returns (x: nat)
    requires Inv(s) && t in s.threads && s.threads[t].pc.UnlockCrit?
    ensures Find(s.slots, s.active, s.threads[t].pc.h) == Some(x)
    ensures x in s.threads[t].held && x in s.active && x < MAX_FILELOCKS
  {
    assert ThreadOk(s, t);
    x :| x in s.threads[t].held && x < |s.slots| && s.slots[x].hash == s.threads[t].pc.h;
    assert x in s.active;
  }

  lemma UnlockCritInv(s: State, t: Tid)
    requires Inv(s) && t in s.threads && s.threads[t].pc.UnlockCrit?
    ensures RunStep(s, t).Some? && Inv(RunStep(s, t).value)
  {
    var x := UnlockFinds(s, t);
    var s' := RunStep(s, t).value;
    Counted(s, t, Holder, x);
    assert SlotOk(s, x) && ThreadOk(s, t);
    Recount(s, t, s', x);
    assert ThreadOk(s', t);
    assert SlotOk(s', x);
    StepAt(s, t, s', x);
  }

  lemma UnlockUpInv(s: State, t: Tid)
    requires Inv(s) && t in s.threads && s.threads[t].pc.UnlockUp?
    ensures RunStep(s, t).Some? && Inv(RunStep(s, t).value)
  {
    var x := s.threads[t].pc.x;
    assert ThreadOk(s, t) && SlotOk(s, x);
    var s' := RunStep(s, t).value;
    Counted(s, t, Releaser, x);
    Recount(s, t, s', x);
    assert SlotOk(s', x);
    StepAt(s, t, s', x);
  }

  lemma UnlinkLists(s: State, t: Tid)
    requires Inv(s) && t in s.threads && s.threads[t].pc.UnlockPut? && s.threads[t].pc.refs == 0
    ensures Lists(RunStep(s, t).value)
    ensures forall y :: y in RunStep(s, t).value.active <==> y in s.active && y != s.threads[t].pc.x
  {
    var x := s.threads[t].pc.x;
    assert ThreadOk(s, t);
    DistinctCons(x, s.free);
    WithoutMember(s.active, x);
  }

  // The slot goes back to the free list, with no thread referring to it.
  lemma UnlinkInv(s: State, t: Tid)
    requires Inv(s) && t in s.threads && s.threads[t].pc.UnlockPut? && s.threads[t].pc.refs == 0
    ensures Who(s.threads, Holder, s.threads[t].pc.x) == {} && Who(s.threads, Acquirer, s.threads[t].pc.x) == {}
    ensures Inv(RunStep(s, t).value)
  {
    var x := s.threads[t].pc.x;
    assert ThreadOk(s, t) && SlotOk(s, x);
    NoOtherReleaser(s, t, x);
    UnlinkLists(s, t);
    var s' := RunStep(s, t).value;
    Recount(s, t, s', x);
    forall u, r | u in s.threads && r != Releaser
      ensures !Plays(s.threads[u], r, x)
    {
      if Plays(s.threads[u], r, x) {
        Counted(s, u, r, x);
      }
    }
    assert ThreadOk(s', t);
    StepAt(s, t, s', x);
  }

  // Starting a call, taking the global lock, and leaving it without touching a slot.
  lemma CallInv(s: State, a: Action)
    requires Inv(s) && Step(s, a).Some? && !a.Run?
    requires a.CallUnlock? ==> HoldsName(s, a.t, a.h)
    ensures Inv(Step(s, a).value)
  {
    var s' := Step(s, a).value;
    assert ThreadOk(s, a.t);
    assert s'.threads[a.t].held == s.threads[a.t].held;
    QuietInv(s, a.t, s');
  }

  lemma EnterInv(s: State, t: Tid)
    requires Inv(s) && t in s.threads && RunStep(s, t).Some?
    requires var pc := s.threads[t].pc; pc.LockWait? || pc.Sleeping? || pc.RaceWait? || pc.UnlockWait?
    ensures Inv(RunStep(s, t).value)
  {
    var s' := RunStep(s, t).value;
    assert ThreadOk(s, t);
    assert ThreadOk(s', t);
    QuietInv(s, t, s');
  }

  lemma LeaveInv(s: State, t: Tid, pc': Pc)
    requires Inv(s) && t in s.threads && s.threads[t].pc.InCrit()
    requires var pc := s.threads[t].pc; pc.UnlockPut? ==> pc.refs != 0
    requires !s.threads[t].pc.UnlockUp?
    requires forall x :: pc'.Acquiring(x) == s.threads[t].pc.Acquiring(x)
    requires !pc'.InCrit() && !pc'.UnlockWait?
    ensures Inv(Leave(s, t, pc'))
  {
    var s' := Leave(s, t, pc');
    assert ThreadOk(s, t);
    assert ThreadOk(s', t);
    QuietInv(s, t, s');
  }

  lemma LookupInv(s: State, t: Tid)
    requires Inv(s) && t in s.threads && RunStep(s, t).Some?
    requires s.threads[t].pc.LockCrit? || s.threads[t].pc.RetryCrit?
    ensures Inv(RunStep(s, t).value)
  {
    var pc := s.threads[t].pc;
    var trylock := pc.LockCrit? && pc.trylock;
    var found := Find(s.slots, s.active, pc.h);
    if pc.RetryCrit? && s.free == [] {
      LeaveInv(s, t, Sleeping(pc.h));
    } else if found.Some? {
      ReferenceInv(s, t, found.value, trylock);
    } else if s.free != [] {
      TakeFreeInv(s, t, pc.h, trylock);
    } else {
      LeaveInv(s, t, if trylock then Idle else Sleeping(pc.h));
    }
  }

  lemma AcquireInv(s: State, t: Tid)
    requires Inv(s) && t in s.threads && RunStep(s, t).Some?
    requires var pc := s.threads[t].pc; pc.Acquire? || pc.Grab? || pc.TryAcquire?
    ensures Inv(RunStep(s, t).value)
  {
    var pc := s.threads[t].pc;
    if pc.TryAcquire? && pc.x < |s.slots| && s.slots[pc.x].sem == 0 {
      var s' := RunStep(s, t).value;
      assert ThreadOk(s, t);
      assert ThreadOk(s', t);
      QuietInv(s, t, s');
    } else {
      TakeSemInv(s, t, pc.x);
    }
  }

  // THE INVARIANT: every step of every thread keeps it.
  lemma StepInv(s: State, a: Action)
    requires Inv(s) && Step(s, a).Some?
    requires a.CallUnlock? ==> HoldsName(s, a.t, a.h)
    ensures Inv(Step(s, a).value)
  {
    if !a.Run? {
      CallInv(s, a);
    } else {
      match s.threads[a.t].pc
      case LockWait(_, _) => EnterInv(s, a.t);
      case LockCrit(_, _) => LookupInv(s, a.t);
      case Sleeping(_) => EnterInv(s, a.t);
      case RetryCrit(_) => LookupInv(s, a.t);
      case Acquire(_) => AcquireInv(s, a.t);
      case TryAcquire(_) => AcquireInv(s, a.t);
      case RaceWait(_) => EnterInv(s, a.t);
      case RaceCrit(x) => if s.slots[x].refs != 1 { RaceDropInv(s, a.t); } else { LeaveInv(s, a.t, Grab(x)); }
      case Grab(_) => AcquireInv(s, a.t);
      case UnlockWait(_) => EnterInv(s, a.t);
      case UnlockCrit(_) => UnlockCritInv(s, a.t);
      case UnlockUp(_, _) => UnlockUpInv(s, a.t);
      case UnlockPut(_, refs) => if refs == 0 { UnlinkInv(s, a.t); } else { LeaveInv(s, a.t, Idle); }
    }
  }

  lemma {:induction false} ExecInv(s: State, run: seq<Action>)
    requires Inv(s) && Disciplined(s, run) && Exec(s, run).Some?
    ensures Inv(Exec(s, run).value)
    decreases |run|
  {
    if run != [] {
      StepInv(s, run[0]);
      ExecInv(Step(s, run[0]).value, run[1..]);
    }
  }

  // ----- what callers rely on, in every interleaving -----

  // At most one thread holds a slot, and so at most one thread holds a name: two names with the
  // same hash share a slot.
  lemma MutualExclusion(s0: State, run: seq<Action>, t: Tid, u: Tid, h: Hash)
    requires Init(s0) && Disciplined(s0, run) && Exec(s0, run).Some?
    requires HoldsName(Exec(s0, run).value, t, h) && HoldsName(Exec(s0, run).value, u, h)
    ensures t == u
  {
    InitInv(s0);
    ExecInv(s0, run);
    OneHolder(Exec(s0, run).value, t, u, h);
  }

  lemma OneHolder(s: State, t: Tid, u: Tid, h: Hash)
    requires Inv(s) && HoldsName(s, t, h) && HoldsName(s, u, h)
    ensures t == u
  {
    assert ThreadOk(s, t) && ThreadOk(s, u);
    var x :| x in s.threads[t].held && x < |s.slots| && s.slots[x].hash == h;
    var y :| y in s.threads[u].held && y < |s.slots| && s.slots[y].hash == h;
    assert x == y;
    assert SlotOk(s, x);
    AtMostOne(Who(s.threads, Holder, x), t, u);
  }

  // The reference count of a slot in use is its holders plus the threads acquiring it, and the
  // active and free slots always partition the table.
  lemma ReferencesExact(s0: State, run: seq<Action>, x: nat)
    requires Init(s0) && Disciplined(s0, run) && Exec(s0, run).Some? && x < MAX_FILELOCKS
    ensures var s := Exec(s0, run).value;
            && (x in s.active <==> x !in s.free) && Distinct(s.active) && Distinct(s.free)
            && |s.slots| == MAX_FILELOCKS
            && (x in s.active ==> s.slots[x].refs == |Who(s.threads, Holder, x)| + |Who(s.threads, Acquirer, x)|)
            && (x in s.free ==> Who(s.threads, Holder, x) == {} && Who(s.threads, Acquirer, x) == {})
            && (forall y :: y in s.active && x in s.active && y < |s.slots| && s.slots[x].hash == s.slots[y].hash
                            ==> x == y)
  {
    InitInv(s0);
    ExecInv(s0, run);
    assert SlotOk(Exec(s0, run).value, x);
  }

  // When no thread holds a name or is inside a call, the assert in fio_filelock_exit holds, and
  // no slot has leaked.
  lemma ExitAssert(s0: State, run: seq<Action>)
    requires Init(s0) && Disciplined(s0, run) && Exec(s0, run).Some?
    requires forall t :: t in Exec(s0, run).value.threads ==> Exec(s0, run).value.threads[t] == Thread(Idle, {})
    ensures Exec(s0, run).value.active == []
    ensures forall x: nat :: x < MAX_FILELOCKS ==> x in Exec(s0, run).value.free
  {
    InitInv(s0);
    ExecInv(s0, run);
    var s := Exec(s0, run).value;
    if s.active != [] {
      var x := s.active[0];
      Nobody(s.threads, Holder, x);
      Nobody(s.threads, Acquirer, x);
      ActiveIsUsed(s, x);
      assert false;
    }
  }

  lemma ActiveIsUsed(s: State, x: nat)
    requires Inv(s) && x in s.active && s.owner == None
    ensures |Who(s.threads, Holder, x)| + |Who(s.threads, Acquirer, x)| > 0
  {
    assert SlotOk(s, x);
  }

  lemma Nobody(ts: map<Tid, Thread>, r: Role, x: nat)
    requires forall t :: t in ts ==> !Plays(ts[t], r, x)
    ensures |Who(ts, r, x)| == 0
  {
    assert Who(ts, r, x) == {};
  }

  // WHO WAITS FOR WHOM: in every reachable state a thread inside a call can run, or waits for the
  // global lock whose owner can run, or waits for a slot that some thread holds or is releasing.
  lemma WaitsForSomeone(s0: State, run: seq<Action>, t: Tid)
    requires Init(s0) && Disciplined(s0, run) && Exec(s0, run).Some?
    requires t in Exec(s0, run).value.threads && !Exec(s0, run).value.threads[t].pc.Idle?
    requires Step(Exec(s0, run).value, Run(t)).None?
    ensures var s := Exec(s0, run).value;
            if s.owner.Some? then Step(s, Run(s.owner.value)).Some?
            else WaitsForHolder(s, t)
  {
    InitInv(s0);
    ExecInv(s0, run);
    var s := Exec(s0, run).value;
    if s.owner.Some? {
      OwnerRuns(s);
    } else {
      BlockedOnHolder(s, t);
    }
  }

  // Thread t is about to take a slot that a thread holds.
  ghost predicate WaitsForHolder(s: State, t: Tid) {
    && t in s.threads && (s.threads[t].pc.Acquire? || s.threads[t].pc.Grab?)
    && exists u :: u in s.threads && s.threads[t].pc.x in s.threads[u].held
  }

  lemma BlockedOnHolder(s: State, t: Tid)
    requires Inv(s) && s.owner.None? && t in s.threads && !s.threads[t].pc.Idle? && Step(s, Run(t)).None?
    ensures WaitsForHolder(s, t)
  {
    var pc := s.threads[t].pc;
    assert ThreadOk(s, t);
    if pc.Acquire? || pc.TryAcquire? || pc.Grab? {
      assert pc.Acquiring(pc.x) && SlotOk(s, pc.x);
      Nobody(s.threads, Releaser, pc.x);
      var u :| u in Who(s.threads, Holder, pc.x);
      assert pc.x in s.threads[u].held;
    }
  }

  // NO DEADLOCK: if no thread can run, whoever holds what, every thread inside a call waits for a
  // slot that some thread holds; with nobody inside a call waiting for a holder, somebody can run.
  lemma NoDeadlock(s0: State, run: seq<Action>, t: Tid)
    requires Init(s0) && Disciplined(s0, run) && Exec(s0, run).Some?
    requires t in Exec(s0, run).value.threads && !Exec(s0, run).value.threads[t].pc.Idle?
    requires forall u :: u in Exec(s0, run).value.threads ==> Step(Exec(s0, run).value, Run(u)).None?
    ensures WaitsForHolder(Exec(s0, run).value, t)
  {
    InitInv(s0);
    ExecInv(s0, run);
    WaitsForSomeone(s0, run, t);
  }

  // A critical section never blocks, so the global lock is always given back.
  lemma OwnerRuns(s: State)
    requires Inv(s) && s.owner.Some?
    ensures Step(s, Run(s.owner.value)).Some?
  {
    var t := s.owner.value;
    var pc := s.threads[t].pc;
    assert ThreadOk(s, t) && pc.InCrit();
    if s.free != [] {
      assert s.free[0] in s.free;
    }
    if pc.RaceCrit? {
      assert pc.Acquiring(pc.x);
      assert pc.x in s.active;
    }
  }

  // The re-check of a racing trylock is sound: if the racing trylock is the only reference left, the
  // slot is free at that moment.
  lemma RaceWinnerSeesFree(s: State, t: Tid)
    requires Inv(s) && t in s.threads && s.threads[t].pc.RaceCrit?
    requires s.threads[t].pc.x < |s.slots| && s.slots[s.threads[t].pc.x].refs == 1
    ensures s.slots[s.threads[t].pc.x].sem == 1
  {
    var x := s.threads[t].pc.x;
    assert ThreadOk(s, t) && SlotOk(s, x);
    Counted(s, t, Acquirer, x);
    NoOtherReleaser(s, t, x);
  }

  // A slot's semaphore is only ever raised from 0: the use for which module Semaphore proves that
  // no wakeup is lost.
  lemma SlotUpsAreBinary(s: State, t: Tid)
    requires Inv(s) && t in s.threads && s.threads[t].pc.UnlockUp? && s.threads[t].pc.x < |s.slots|
    ensures s.slots[s.threads[t].pc.x].sem == 0
  {
    var x := s.threads[t].pc.x;
    assert SlotOk(s, x);
    Counted(s, t, Releaser, x);
  }

  // Nor is the global lock ever raised but by its owner: it changes hands exactly when a thread
  // enters or leaves a critical section, and a thread that leaves one is its owner.
  lemma GlobalUpsAreBinary(s: State, t: Tid)
    requires Inv(s) && t in s.threads && RunStep(s, t).Some?
    ensures var pc, s' := s.threads[t].pc, RunStep(s, t).value;
            && t in s'.threads
            && (s'.owner != s.owner <==> pc.InCrit() != s'.threads[t].pc.InCrit())
            && (pc.InCrit() && !s'.threads[t].pc.InCrit() ==> s.owner == Some(t) && s'.owner == None)
  {
    assert s.owner == Some(t) <==> s.threads[t].pc.InCrit();
  }

  // The callers' rule is exact: in a table otherwise in order, an unlock about to drop a reference
  // keeps it in order if and only if no slot has the name's hash or the thread holds that slot.
  lemma UnlockKeepsIff(s: State, t: Tid)
    requires t in s.threads && s.threads[t].pc.UnlockCrit? && s.owner == Some(t) && Inv(Leave(s, t, Idle))
    ensures var found := Find(s.slots, s.active, s.threads[t].pc.h);
            RunStep(s, t).Some?
            && (Inv(RunStep(s, t).value) <==> found.None? || found.value in s.threads[t].held)
  {
    var base, s' := Leave(s, t, Idle), RunStep(s, t).value;
    var found := Find(s.slots, s.active, s.threads[t].pc.h);
    assert ThreadOk(base, t);
    if found.Some? {
      var x := found.value;
      if x in s.threads[t].held {
        assert s.threads == base.threads[t := s.threads[t]];
        assert HoldsName(s, t, s.threads[t].pc.h);
        QuietInv(base, t, s);
        UnlockCritInv(s, t);
      } else {
        assert SlotOk(base, x);
        assert s'.threads == base.threads[t := s'.threads[t]];
        Recount(base, t, s', x);
        assert !SlotOk(s', x);
      }
    }
  }

  lemma TakenIff(s: State, x: nat)
    requires Inv(s) && x < MAX_FILELOCKS
    ensures s.slots[x].sem == 0 <==> Who(s.threads, Holder, x) != {} || Who(s.threads, Releaser, x) != {}
  {
    assert SlotOk(s, x);
  }

  // A trylock that has decided to take the slot blocks exactly while another call holds it or is
  // about to release it.
  lemma GrabBlocksIff(s: State, t: Tid)
    requires Inv(s) && t in s.threads && s.threads[t].pc.Grab?
    ensures RunStep(s, t).None? <==>
              exists u :: u in s.threads && (Plays(s.threads[u], Holder, s.threads[t].pc.x) || Plays(s.threads[u], Releaser, s.threads[t].pc.x))
  {
    var x := s.threads[t].pc.x;
    assert ThreadOk(s, t) && s.threads[t].pc.Acquiring(x);
    TakenIff(s, x);
    assert forall u :: u in s.threads ==> (u in Who(s.threads, Holder, x) <==> Plays(s.threads[u], Holder, x));
    assert forall u :: u in s.threads ==> (u in Who(s.threads, Releaser, x) <==> Plays(s.threads[u], Releaser, x));
  }

  // ----- runs, one step at a time -----

  lemma {:induction false} ExecThen(s0: State, run: seq<Action>, a: Action)
    requires Exec(s0, run).Some?
    ensures Exec(s0, run + [a]) == Step(Exec(s0, run).value, a)
    ensures Disciplined(s0, run) && (a.CallUnlock? ==> HoldsName(Exec(s0, run).value, a.t, a.h))
            ==> Disciplined(s0, run + [a])
    decreases |run|
  {
    if run == [] {
      assert run + [a] == [a];
    } else {
      assert (run + [a])[1..] == run[1..] + [a];
      ExecThen(Step(s0, run[0]).value, run[1..], a);
    }
  }

  lemma Then(s0: State, run: seq<Action>, s: State, a: Action) returns (run': seq<Action>, s': State)
    requires Exec(s0, run) == Some(s) && Step(s, a).Some?
    ensures Exec(s0, run') == Some(s') && Step(s, a) == Some(s') && run' == run + [a]
    ensures Disciplined(s0, run) && (a.CallUnlock? ==> HoldsName(s, a.t, a.h)) ==> Disciplined(s0, run')
  {
    ExecThen(s0, run, a);
    run', s' := run + [a], Step(s, a).value;
  }

  // ----- what an unlock by another thread leads to -----

  ghost predicate TwoHolders(s: State) {
    exists t, u, h :: t != u && HoldsName(s, t, h) && HoldsName(s, u, h)
  }

  // Callers that keep to their rule from here on can still come to hold one name twice.
  ghost predicate CanBreak(s: State) {
    exists run :: Disciplined(s, run) && Exec(s, run).Some? && TwoHolders(Exec(s, run).value)
  }

  // A lock call on the name gets slot x: it is found, or it is the first free slot.
  ghost predicate Leads(s: State, x: nat, h: Hash) {
    && s.owner.None? && x < |s.slots| && s.slots[x].hash == h
    && (forall y :: y in s.active && y < |s.slots| && s.slots[y].hash == h ==> y == x)
    && (x in s.active || (s.free != [] && s.free[0] == x))
  }

  // A disciplined run has come to state s, where lock calls on the name still get slot x.
  ghost predicate Reached(s0: State, run: seq<Action>, s: State, x: nat, h: Hash) {
    Disciplined(s0, run) && Exec(s0, run) == Some(s) && Leads(s, x, h)
  }

  lemma Relocks(s0: State, run: seq<Action>, s: State, t: Tid, x: nat, h: Hash) returns (run': seq<Action>, s': State)
    requires Reached(s0, run, s, x, h) && t in s.threads && s.threads[t].pc.Idle?
    ensures Reached(s0, run', s', x, h) && s'.slots[x].sem == s.slots[x].sem
    ensures s'.threads == s.threads[t := s.threads[t].(pc := Acquire(x))]
  {
    run', s' := Then(s0, run, s, CallLock(t, h, false));
    run', s' := Then(s0, run', s', Run(t));
    run', s' := Then(s0, run', s', Run(t));
  }

  // A thread at one of the three places that take the semaphore takes it.
  lemma TakesIt(s0: State, run: seq<Action>, s: State, t: Tid, x: nat, h: Hash) returns (run': seq<Action>, s': State)
    requires Reached(s0, run, s, x, h) && t in s.threads && s.slots[x].sem > 0
    requires s.threads[t].pc in {Acquire(x), TryAcquire(x), Grab(x)}
    ensures Reached(s0, run', s', x, h) && s'.slots[x].sem == s.slots[x].sem - 1
    ensures s'.threads == s.threads[t := Thread(Idle, s.threads[t].held + {x})]
  {
    run', s' := Then(s0, run, s, Run(t));
  }

  // A racing trylock re-checks: it is the only reference and goes on, or gives up.
  lemma Rechecks(s0: State, run: seq<Action>, s: State, t: Tid, x: nat, h: Hash) returns (run': seq<Action>, s': State)
    requires Reached(s0, run, s, x, h) && t in s.threads && s.threads[t].pc == RaceWait(x)
    ensures Reached(s0, run', s', x, h) && s'.slots[x].sem == s.slots[x].sem && s'.threads.Keys == s.threads.Keys
    ensures s'.threads[t].pc == Grab(x) || s'.threads[t].pc.Idle?
    ensures forall u :: u in s.threads && u != t ==> s'.threads[u] == s.threads[u]
  {
    run', s' := Then(s0, run, s, Run(t));
    run', s' := Then(s0, run', s', Run(t));
  }

  // A thread that is idle or acquiring slot x can come to hold it while its semaphore is free.
  lemma Obtains(s0: State, run: seq<Action>, s: State, t: Tid, x: nat, h: Hash) returns (run': seq<Action>, s': State)
    requires Reached(s0, run, s, x, h) && t in s.threads && s.slots[x].sem > 0
    requires s.threads[t].pc.Idle? || (s.threads[t].pc.Acquiring(x) && !s.threads[t].pc.RaceCrit?)
    ensures Reached(s0, run', s', x, h) && s'.slots[x].sem == s.slots[x].sem - 1 && s'.threads.Keys == s.threads.Keys
    ensures x in s'.threads[t].held
    ensures forall u :: u in s.threads && u != t ==> s'.threads[u] == s.threads[u]
  {
    run', s' := run, s;
    if s.threads[t].pc.RaceWait? {
      run', s' := Rechecks(s0, run, s, t, x, h);
    }
    if s'.threads[t].pc.Idle? {
      run', s' := Relocks(s0, run', s', t, x, h);
    }
    run', s' := TakesIt(s0, run', s', t, x, h);
  }

  // An unlock that has dropped its reference, carried out to its end: unlinked or not, slot x is what
  // lock calls on its name get.
  lemma Unlocked(s: State, t: Tid, x: nat) returns (run: seq<Action>, s': State)
    requires t in s.threads && s.threads[t].pc.UnlockUp? && s.threads[t].pc.x == x && x < |s.slots|
    requires x in s.active && forall y :: y in s.active && y < |s.slots| && s.slots[y].hash == s.slots[x].hash ==> y == x
    ensures Reached(s, run, s', x, s.slots[x].hash) && s'.slots[x].sem == s.slots[x].sem + 1
    ensures s'.threads == s.threads[t := s.threads[t].(pc := Idle)]
  {
    WithoutWithin(s.active, x);
    run, s' := Then(s, [], s, Run(t));
    run, s' := Then(s, run, s', Run(t));
  }

  // The first step of an unlock of a slot its thread does not hold.
  lemma UnlocksOthers(s: State, t: Tid, x: nat)
    requires t in s.threads && s.threads[t].pc.UnlockCrit? && s.owner == Some(t) && Inv(Leave(s, t, Idle))
    requires Find(s.slots, s.active, s.threads[t].pc.h) == Some(x) && x !in s.threads[t].held
    ensures RunStep(s, t).Some? && x in s.active
    ensures var s', pc := RunStep(s, t).value, UnlockUp(x, s.slots[x].refs - 1);
            && s'.threads == s.threads[t := s.threads[t].(pc := pc)] && s'.active == s.active
            && x < |s'.slots| && s'.slots[x].hash == s.threads[t].pc.h && s'.slots[x].sem == s.slots[x].sem
            && (forall y :: y in s'.active && y < |s'.slots| && s'.slots[y].hash == s'.slots[x].hash ==> y == x)
  {
    assert s.threads[t].held - {x} == s.threads[t].held;
    assert Lists(Leave(s, t, Idle));
  }

  // Whoever holds or acquires the slot and the unlocking thread then both come to hold it.
  lemma BothHold(s: State, t: Tid, x: nat)
    requires t in s.threads && s.threads[t].pc.UnlockCrit? && s.owner == Some(t) && Inv(Leave(s, t, Idle))
    requires Find(s.slots, s.active, s.threads[t].pc.h) == Some(x) && x !in s.threads[t].held
    ensures RunStep(s, t).Some? && CanBreak(RunStep(s, t).value)
  {
    var base, s0, h := Leave(s, t, Idle), RunStep(s, t).value, s.threads[t].pc.h;
    var u := UsedByAnother(base, t, x);
    UnlocksOthers(s, t, x);
    var run, s1 := Unlocked(s0, t, x);
    assert s1.threads == base.threads;
    if x !in s1.threads[u].held {
      run, s1 := Obtains(s0, run, s1, u, x, h);
    }
    run, s1 := Obtains(s0, run, s1, t, x, h);
    assert HoldsName(s1, t, h) && HoldsName(s1, u, h);
  }

  // An active slot is held or being acquired; no thread holding it, its semaphore is free.
  lemma UsedByAnother(s: State, t: Tid, x: nat) returns (u: Tid)
    requires Inv(s) && s.owner.None? && x in s.active
    requires t in s.threads && s.threads[t].pc.Idle? && x !in s.threads[t].held
    ensures u in s.threads && u != t && x < |s.slots| && s.slots[x].sem >= 0
    ensures x in s.threads[u].held ||
            (s.threads[u].pc.Acquiring(x) && !s.threads[u].pc.RaceCrit? && s.slots[x].sem == 1)
  {
    ActiveIsUsed(s, x);
    assert SlotOk(s, x);
    if Who(s.threads, Holder, x) != {} {
      u :| u in Who(s.threads, Holder, x);
    } else {
      Nobody(s.threads, Releaser, x);
      u :| u in Who(s.threads, Acquirer, x);
    }
  }

  // EXACTLY the callers' rule keeps exclusion: with the table otherwise in order, callers that keep to
  // the rule after an unlock can come to hold one name twice if and only if the unlock found a slot its
  // thread does not hold.
  lemma UnlockBreaksExclusionIff(s: State, t: Tid)
    requires t in s.threads && s.threads[t].pc.UnlockCrit? && s.owner == Some(t) && Inv(Leave(s, t, Idle))
    ensures var found := Find(s.slots, s.active, s.threads[t].pc.h);
            RunStep(s, t).Some?
            && (CanBreak(RunStep(s, t).value) <==> found.Some? && found.value !in s.threads[t].held)
  {
    UnlockKeepsIff(s, t);
    var found, s' := Find(s.slots, s.active, s.threads[t].pc.h), RunStep(s, t).value;
    if found.Some? && found.value !in s.threads[t].held {
      BothHold(s, t, found.value);
    } else {
      forall run | Disciplined(s', run) && Exec(s', run).Some?
        ensures !TwoHolders(Exec(s', run).value)
      {
        ExecInv(s', run);
        NotTwoHolders(Exec(s', run).value);
      }
    }
  }

  lemma NotTwoHolders(s: State)
    requires Inv(s)
    ensures !TwoHolders(s)
  {
    forall t, u, h | HoldsName(s, t, h) && HoldsName(s, u, h)
      ensures t == u
    {
      OneHolder(s, t, u, h);
    }
  }

  // ----- two behaviours outside these guarantees -----

  function Start(): State {
    State(seq(MAX_FILELOCKS, _ => Slot(0, 1, 0)), [], seq(MAX_FILELOCKS, i => i), None,
          map[0 := Thread(Idle, {}), 1 := Thread(Idle, {}), 2 := Thread(Idle, {})])
  }

  // Three threads using slot 0 for hash 7, the only active slot.
  ghost predicate At(s: State, sem: int, refs: int, owner: Option<Tid>, t0: Thread, t1: Thread, t2: Thread) {
    && |s.slots| == MAX_FILELOCKS && s.slots[0] == Slot(7, sem, refs) && s.active == [0] && s.owner == owner
    && {0, 1, 2} <= s.threads.Keys && s.threads[0] == t0 && s.threads[1] == t1 && s.threads[2] == t2
  }

  // The callers' rule along the run, if it was kept so far.
  ghost predicate Ran(s0: State, run: seq<Action>, s: State, run': seq<Action>, s': State) {
    Exec(s0, run') == Some(s') && (Disciplined(s0, run) ==> Disciplined(s0, run'))
  }

  // An idle thread calls lock or trylock on the name, and counts itself.
  lemma Joins(s0: State, run: seq<Action>, s: State, t: Tid, trylock: bool) returns (run': seq<Action>, s': State)
    requires Exec(s0, run) == Some(s) && |s.slots| > 0 && s.slots[0].hash == 7 && s.active == [0] && s.owner.None?
    requires t in s.threads && s.threads[t].pc.Idle?
    ensures Ran(s0, run, s, run', s')
    ensures s' == s.(slots := s.slots[0 := s.slots[0].(refs := s.slots[0].refs + 1)],
                     threads := s.threads[t := s.threads[t].(pc := LockPc(0, trylock))])
  {
    run', s' := Then(s0, run, s, CallLock(t, 7, trylock));
    run', s' := Then(s0, run', s', Run(t));
    run', s' := Then(s0, run', s', Run(t));
  }

  // A thread takes the slot's free semaphore.
  lemma Takes(s0: State, run: seq<Action>, s: State, t: Tid) returns (run': seq<Action>, s': State)
    requires Exec(s0, run) == Some(s) && |s.slots| > 0 && s.slots[0].sem == 1
    requires t in s.threads && s.threads[t].pc == Acquire(0)
    ensures Ran(s0, run, s, run', s')
    ensures s' == s.(slots := s.slots[0 := s.slots[0].(sem := 0)], threads := s.threads[t := Thread(Idle, s.threads[t].held + {0})])
  {
    run', s' := Then(s0, run, s, Run(t));
  }

  // An idle thread calls unlock on the name, and drops a reference.
  lemma Drops(s0: State, run: seq<Action>, s: State, t: Tid) returns (run': seq<Action>, s': State)
    requires Exec(s0, run) == Some(s) && |s.slots| > 0 && s.slots[0].hash == 7 && s.active == [0] && s.owner.None?
    requires t in s.threads && s.threads[t].pc.Idle?
    ensures Exec(s0, run') == Some(s') && (Disciplined(s0, run) && HoldsName(s, t, 7) ==> Disciplined(s0, run'))
    ensures var refs := s.slots[0].refs - 1;
            s' == s.(slots := s.slots[0 := s.slots[0].(refs := refs)], owner := Some(t),
                     threads := s.threads[t := Thread(UnlockUp(0, refs), s.threads[t].held - {0})])
  {
    run', s' := Then(s0, run, s, CallUnlock(t, 7));
    run', s' := Then(s0, run', s', Run(t));
    run', s' := Then(s0, run', s', Run(t));
  }

  // Thread 0 takes the first free slot for hash 7.
  lemma FirstJoins() returns (run: seq<Action>, s: State)
    ensures Init(Start()) && Exec(Start(), run) == Some(s) && Disciplined(Start(), run)
    ensures At(s, 1, 1, None, Thread(Acquire(0), {}), Thread(Idle, {}), Thread(Idle, {}))
  {
    run, s := Then(Start(), [], Start(), CallLock(0, 7, false));
    run, s := Then(Start(), run, s, Run(0));
    run, s := Then(Start(), run, s, Run(0));
  }

  lemma FirstLock() returns (s0: State, run: seq<Action>, s: State)
    ensures Init(s0) && Exec(s0, run) == Some(s) && Disciplined(s0, run)
    ensures At(s, 0, 1, None, Thread(Idle, {0}), Thread(Idle, {}), Thread(Idle, {}))
  {
    run, s := FirstJoins();
    s0 := Start();
    run, s := Takes(s0, run, s, 0);
  }

  // The callers' rule is needed: while thread 1 waits for the name that thread 0 holds, thread 2
  // unlocks it without having locked it, and thread 1 takes it.
  lemma UnlockOfOthersBreaksExclusion()
    ensures exists s0, run ::
              && Init(s0) && Exec(s0, run).Some?
              && HoldsName(Exec(s0, run).value, 0, 7) && HoldsName(Exec(s0, run).value, 1, 7)
  {
    var s0, run, s := FirstLock();
    run, s := Joins(s0, run, s, 1, false);
    run, s := Drops(s0, run, s, 2);
    run, s := Raises(s0, run, s, 2);
    run, s := Takes(s0, run, s, 1);
    assert 0 in s.threads[0].held && 0 in s.threads[1].held && s.slots[0].hash == 7;
  }

  // An unlock raises the semaphore of the slot it dropped.
  lemma Raises(s0: State, run: seq<Action>, s: State, t: Tid) returns (run': seq<Action>, s': State)
    requires Exec(s0, run) == Some(s) && |s.slots| > 0 && s.slots[0].sem == 0
    requires t in s.threads && s.threads[t].pc.UnlockUp? && s.threads[t].pc.x == 0
    ensures Ran(s0, run, s, run', s')
    ensures s' == s.(slots := s.slots[0 := s.slots[0].(sem := 1)],
                     threads := s.threads[t := s.threads[t].(pc := UnlockPut(0, s.threads[t].pc.refs))])
  {
    run', s' := Then(s0, run, s, Run(t));
  }

  // And leaves a slot that is still referenced.
  lemma Leaves(s0: State, run: seq<Action>, s: State, t: Tid) returns (run': seq<Action>, s': State)
    requires Exec(s0, run) == Some(s) && t in s.threads && s.threads[t].pc.UnlockPut? && s.threads[t].pc.refs != 0
    ensures Ran(s0, run, s, run', s')
    ensures s' == s.(owner := None, threads := s.threads[t := s.threads[t].(pc := Idle)])
  {
    run', s' := Then(s0, run, s, Run(t));
  }

  // Thread 1's trylock finds the slot taken, and thread 0 unlocks it before the re-check.
  lemma UnlockDuringTrylock() returns (s0: State, run: seq<Action>, s: State)
    ensures Init(s0) && Exec(s0, run) == Some(s) && Disciplined(s0, run)
    ensures At(s, 1, 1, None, Thread(Idle, {}), Thread(RaceWait(0), {}), Thread(Idle, {}))
  {
    s0, run, s := FirstLock();
    run, s := Joins(s0, run, s, 1, true);
    run, s := Fails(s0, run, s, 1);
    assert HoldsName(s, 0, 7) by { assert 0 in s.threads[0].held && s.slots[0].hash == 7; }
    run, s := Drops(s0, run, s, 0);
    run, s := Raises(s0, run, s, 0);
    run, s := Leaves(s0, run, s, 0);
  }

  // A trylock finds the slot taken.
  lemma Fails(s0: State, run: seq<Action>, s: State, t: Tid) returns (run': seq<Action>, s': State)
    requires Exec(s0, run) == Some(s) && |s.slots| > 0 && s.slots[0].sem == 0
    requires t in s.threads && s.threads[t].pc == TryAcquire(0)
    ensures Ran(s0, run, s, run', s') && s' == s.(threads := s.threads[t := s.threads[t].(pc := RaceWait(0))])
  {
    run', s' := Then(s0, run, s, Run(t));
  }

  // A trylock that finds itself the only reference left decides to take the slot.
  lemma Decides(s0: State, run: seq<Action>, s: State, t: Tid) returns (run': seq<Action>, s': State)
    requires Exec(s0, run) == Some(s) && |s.slots| > 0 && s.slots[0].refs == 1 && s.owner.None?
    requires t in s.threads && s.threads[t].pc == RaceWait(0)
    ensures Ran(s0, run, s, run', s') && s' == s.(threads := s.threads[t := s.threads[t].(pc := Grab(0))])
  {
    run', s' := Then(s0, run, s, Run(t));
    run', s' := Then(s0, run', s', Run(t));
  }

  // fio_trylock_file can block: its last down runs after the global lock was dropped, so another
  // thread may have taken the slot in between.  Only a trylock reaches Grab.
  lemma TrylockCanBlock()
    ensures exists s0, run ::
              && Init(s0) && Disciplined(s0, run) && Exec(s0, run).Some?
              && 1 in Exec(s0, run).value.threads && Exec(s0, run).value.threads[1].pc == Grab(0)
              && Step(Exec(s0, run).value, Run(1)) == None
  {
    var s0, run, s := UnlockDuringTrylock();
    run, s := Decides(s0, run, s, 1);
    run, s := Joins(s0, run, s, 2, false);
    run, s := Takes(s0, run, s, 2);
    assert s.threads[1].pc == Grab(0) && s.slots[0].sem == 0;
  }

  // ----- the code, in place -----

  // Where the code at t's program counter looks exists.
  ghost predicate InBounds(s: State, t: Tid) {
    && t in s.threads && |s.slots| == MAX_FILELOCKS
    && (forall x :: x in s.active ==> x < MAX_FILELOCKS)
    && (s.free != [] ==> s.free[0] < MAX_FILELOCKS)
    && (forall x: nat :: s.threads[t].pc.Acquiring(x) ==> x < MAX_FILELOCKS)
    && (s.threads[t].pc.UnlockUp? ==> s.threads[t].pc.x < MAX_FILELOCKS)
  }

  lemma InvInBounds(s: State, t: Tid)
    requires Inv(s) && t in s.threads
    ensures InBounds(s, t)
  {
    assert ThreadOk(s, t);
    if s.free != [] {
      assert s.free[0] in s.free;
    }
  }

  // struct filelock_data, with the threads' program counters.
  class LockTable {
    const slots: array<Slot>
    var active: seq<nat>
    var free: seq<nat>
    var owner: Option<Tid>
    var threads: map<Tid, Thread>

    ghost function View(): State
      reads this, slots
    {
      State(slots[..], active, free, owner, threads)
    }

    ghost predicate Valid()
      reads this, slots
    {
      Inv(View())
    }

    // fio_filelock_init
    constructor (tids: set<Tid>)
      ensures Valid() && Init(View()) && fresh(slots) && threads.Keys == tids
    {
      slots := new Slot[MAX_FILELOCKS](_ => Slot(0, 1, 0));
      active := [];
      free := seq(MAX_FILELOCKS, i => i);
      owner := None;
      threads := map t | t in tids :: Thread(Idle, {});
      new;
      InitInv(View());
    }

    // A thread's call begins; it unlocks only a name it holds.
    method Call(a: Action)
      requires Valid() && !a.Run? && Step(View(), a).Some? && (a.CallUnlock? ==> HoldsName(View(), a.t, a.h))
      modifies this`threads
      ensures Valid() && Step(old(View()), a) == Some(View())
    {
      StepInv(View(), a);
      var pc := if a.CallLock? then LockWait(a.h, a.trylock) else UnlockWait(a.h);
      threads := threads[a.t := threads[a.t].(pc := pc)];
    }

    // Thread t, not blocked, runs the code at its program counter.
    method Run(t: Tid)
      requires Valid() && Step(View(), Action.Run(t)).Some?
      modifies this, slots
      ensures Valid() && Step(old(View()), Action.Run(t)) == Some(View())
    {
      StepInv(View(), Action.Run(t));
      InvInBounds(View(), t);
      Section(t);
    }

    method Section(t: Tid)
      requires InBounds(View(), t) && RunStep(View(), t).Some?
      modifies this, slots
      ensures RunStep(old(View()), t) == Some(View())
    {
      match threads[t].pc
      case LockWait(h, trylock) => TakeGlobal(t, LockCrit(h, trylock));
      case LockCrit(_, _) => LockSection(t);
      case Sleeping(h) => TakeGlobal(t, RetryCrit(h));
      case RetryCrit(_) => LockSection(t);
      case Acquire(_) => TakeSlot(t);
      case TryAcquire(_) => TakeSlot(t);
      case RaceWait(x) => TakeGlobal(t, RaceCrit(x));
      case RaceCrit(_) => RaceSection(t);
      case Grab(_) => TakeSlot(t);
      case UnlockWait(h) => TakeGlobal(t, UnlockCrit(h));
      case UnlockCrit(_) => Unreference(t);
      case UnlockUp(_, _) => UpSlot(t);
      case UnlockPut(_, _) => PutSlot(t);
    }

    method TakeGlobal(t: Tid, pc: Pc)
      requires t in threads && owner.None?
      modifies this`threads, this`owner
      ensures Enter(old(View()), t, pc) == Some(View())
    {
      threads := threads[t := threads[t].(pc := pc)];
      owner := Some(t);
    }

    // fio_hash_find
    method HashFind(h: Hash) returns (r: Option<nat>)
      requires forall x :: x in active ==> x < slots.Length
      ensures r == Find(slots[..], active, h)
    {
      for i := 0 to |active|
        invariant Find(slots[..], active, h) == Find(slots[..], active[i..], h)
      {
        assert active[i] in active && active[i..][1..] == active[i + 1..];
        if slots[active[i]].hash == h {
          return Some(active[i]);
        }
      }
      return None;
    }

    // fio_hash_get, from the first lookup or from where get_filelock has slept.
    method HashGet(h: Hash, retry: bool) returns (ff: Option<nat>)
      requires forall x :: x in active ==> x < slots.Length
      requires free != [] ==> free[0] < slots.Length
      modifies this`free, this`active, slots
      ensures var found := Find(old(slots[..]), old(active), h);
              ff == if retry && old(free) == [] then None
                    else if found.Some? then found
                    else if old(free) == [] then None else Some(old(free)[0])
      ensures ff == None || ff == Find(old(slots[..]), old(active), h) ==>
                slots[..] == old(slots[..]) && active == old(active) && free == old(free)
      ensures ff.Some? && Find(old(slots[..]), old(active), h) == None ==>
                && ff.value < slots.Length && free == old(free)[1..] && active == [ff.value] + old(active)
                && slots[..] == old(slots[..])[ff.value := old(slots[..])[ff.value].(hash := h, refs := 0)]
    {
      ff := None;
      if !retry {
        ff := HashFind(h);
        if ff.Some? {
          return;
        }
      }
      if free == [] {
        return None;
      }
      // __get_filelock
      var x := free[0];
      free := free[1..];
      if retry {
        ff := HashFind(h);
        if ff.Some? {
          // put_filelock
          free := [x] + free;
          return;
        }
      }
      slots[x] := slots[x].(hash := h);
      slots[x] := slots[x].(refs := 0);
      active := [x] + active;
      ff := Some(x);
    }

    // The thread finds or makes the slot of its hash and counts itself, or gives
    // up (a trylock) or backs off when the table is full.
    method LockSection(t: Tid)
      requires InBounds(View(), t) && (threads[t].pc.LockCrit? || threads[t].pc.RetryCrit?)
      modifies this, slots
      ensures RunStep(old(View()), t) == Some(View())
    {
      var pc := threads[t].pc;
      var trylock := pc.LockCrit? && pc.trylock;
      var ff := HashGet(pc.h, pc.RetryCrit?);
      var next := if trylock then Idle else Sleeping(pc.h);
      if ff.Some? {
        var x := ff.value;
        slots[x] := slots[x].(refs := slots[x].refs + 1);
        next := LockPc(x, trylock);
      }
      threads := threads[t := threads[t].(pc := next)];
      owner := None;
      assert slots[..] == RunStep(old(View()), t).value.slots;
    }

    // The slot's semaphore is taken, or a trylock finds it taken.
    method TakeSlot(t: Tid)
      requires InBounds(View(), t) && (threads[t].pc.Acquire? || threads[t].pc.TryAcquire? || threads[t].pc.Grab?)
      requires RunStep(View(), t).Some?
      modifies this`threads, slots
      ensures RunStep(old(View()), t) == Some(View())
    {
      var pc := threads[t].pc;
      assert pc.Acquiring(pc.x);
      if slots[pc.x].sem == 0 {
        threads := threads[t := threads[t].(pc := RaceWait(pc.x))];
      } else {
        slots[pc.x] := slots[pc.x].(sem := slots[pc.x].sem - 1);
        threads := threads[t := Thread(Idle, threads[t].held + {pc.x})];
      }
    }

    // A trylock that found the slot taken looks again.
    method RaceSection(t: Tid)
      requires InBounds(View(), t) && threads[t].pc.RaceCrit?
      modifies this, slots
      ensures RunStep(old(View()), t) == Some(View())
    {
      var x := threads[t].pc.x;
      assert threads[t].pc.Acquiring(x);
      if slots[x].refs != 1 {
        slots[x] := slots[x].(refs := slots[x].refs - 1);
        threads := threads[t := threads[t].(pc := Idle)];
      } else {
        threads := threads[t := threads[t].(pc := Grab(x))];
      }
      owner := None;
    }

    // The reference is dropped, and with it the hold on the name.
    method Unreference(t: Tid)
      requires InBounds(View(), t) && threads[t].pc.UnlockCrit?
      modifies this, slots
      ensures RunStep(old(View()), t) == Some(View())
    {
      var ff := HashFind(threads[t].pc.h);
      if ff.None? {
        threads := threads[t := threads[t].(pc := Idle)];
        owner := None;
      } else {
        var x := ff.value;
        slots[x] := slots[x].(refs := slots[x].refs - 1);
        threads := threads[t := Thread(UnlockUp(x, slots[x].refs), threads[t].held - {x})];
      }
    }

    // The slot's semaphore is raised.
    method UpSlot(t: Tid)
      requires InBounds(View(), t) && threads[t].pc.UnlockUp?
      modifies this`threads, slots
      ensures RunStep(old(View()), t) == Some(View())
    {
      var pc := threads[t].pc;
      slots[pc.x] := slots[pc.x].(sem := slots[pc.x].sem + 1);
      threads := threads[t := threads[t].(pc := UnlockPut(pc.x, pc.refs))];
    }

    // The slot goes back to the free list if the reference was the last.
    method PutSlot(t: Tid)
      requires InBounds(View(), t) && threads[t].pc.UnlockPut?
      modifies this
      ensures RunStep(old(View()), t) == Some(View())
    {
      var pc := threads[t].pc;
      if pc.refs == 0 {
        active := Without(active, pc.x);
        free := [pc.x] + free;
      }
      threads := threads[t := threads[t].(pc := Idle)];
      owner := None;
    }
  }
}
