/** Mutexes and condition variables of proc.c, as a step system over the threads of one process.
    Every acquire, exchange, table write, wakeup and release is a step of its own. */
module Monitor {

  type Tid = nat
  type Mutex = nat
  type Cond = nat

  const MAXTHRDS: nat := 32

  /** A call of condvar_wait: condition, mutex, and the slot scanned or taken. */
  datatype Wait = Wait(c: Cond, m: Mutex, i: nat)

  /** A call of condvar_signal, or of condvar_broadcast when all: the slot scanned, the waiters when
      the call began, and those woken so far. */
  datatype Signal = Signal(c: Cond, all: bool, i: nat, was: seq<Tid>, woke: seq<Tid>)

  /** Where a thread is. */
  datatype Pc =
    | User
    // mutex_lock
    | LockSpin(m: Mutex) | LockAcquire(m: Mutex) | LockSwap(m: Mutex) | LockRelease(m: Mutex)
    // mutex_unlock
    | UnlockAcquire(m: Mutex) | UnlockSwap(m: Mutex) | UnlockRelease(m: Mutex)
    // condvar_wait
    | WaitScan(w: Wait) | WaitAcquire(w: Wait) | WaitPut(w: Wait) | WaitRelease(w: Wait)
    // modified_sleep
    | SleepAcquire(w: Wait) | SleepFree(w: Wait) | SleepMark(w: Wait) | Asleep(w: Wait) | Woken(w: Wait)
    | SleepTidy(w: Wait) | Relock(m: Mutex)
    // condvar_signal and condvar_broadcast
    | Scan(g: Signal) | Read(g: Signal) | WakeAcquire(g: Signal, v: Tid) | Wake(g: Signal, v: Tid)
    | WakeRelease(g: Signal, v: Tid) | ClearAcquire(g: Signal, v: Tid) | Clear(g: Signal, v: Tid)
    | ClearRelease(g: Signal) | Done(g: Signal)

  /** held is what the thread has locked, for the statements below; chan is proc->chan. */
  datatype Thread = Thread(pc: Pc, held: set<Mutex>, chan: nat)

  /** pt owns ptable.lock, 0 when it is free; locked are the mutexes whose lock word is 1; slots are
      the waitingthreadlist arrays. */
  datatype State = State(threads: map<Tid, Thread>, pt: Tid, locked: set<Mutex>, slots: map<Cond, seq<Tid>>)

  datatype Call = Lock(m: Mutex) | Unlock(m: Mutex) | AwaitCond(c: Cond, m: Mutex) | Notify(c: Cond, all: bool)

  datatype Event = Spawn(t: Tid) | Start(t: Tid, call: Call) | Go(t: Tid)

  /** Which mutex goes with which condition. */
  type Guard = Cond -> Mutex

  // ---------------------------------------------------------------- steps

  /** The calls that the claims are about: only holders unlock, wait and signal. */
  predicate Disciplined(guard: Guard, slots: map<Cond, seq<Tid>>, th: Thread, call: Call) {
    match call
    case Lock(m) => true
    case Unlock(m) => m in th.held
    case AwaitCond(c, m) => m in th.held && m == guard(c) && c in slots
    case Notify(c, all) => guard(c) in th.held && c in slots
  }

  function Entry(slots: map<Cond, seq<Tid>>, call: Call): Pc
    requires call.Notify? ==> call.c in slots
  {
    match call
    case Lock(m) => LockSpin(m)
    case Unlock(m) => UnlockAcquire(m)
    case AwaitCond(c, m) => WaitScan(Wait(c, m, 0))
    case Notify(c, all) => Scan(Signal(c, all, 0, slots[c], []))
  }

  /** The next instruction waits for ptable.lock, or for the mutex word to be 0. */
  predicate Blocked(s: State, pc: Pc) {
    match pc
    case LockSpin(m) => m in s.locked
    case LockSwap(m) => m in s.locked
    case Relock(m) => m in s.locked
    case LockAcquire(_) => s.pt != 0
    case UnlockAcquire(_) => s.pt != 0
    case WaitAcquire(_) => s.pt != 0
    case SleepAcquire(_) => s.pt != 0
    case Woken(_) => s.pt != 0
    case WakeAcquire(_, _) => s.pt != 0
    case ClearAcquire(_, _) => s.pt != 0
    case User => true
    case Asleep(_) => true
    case _ => false
  }

  /** Slot numbers stay inside the array. */
  predicate InRange(s: State, pc: Pc) {
    match pc
    case WaitScan(w) => w.c in s.slots && |s.slots[w.c]| == MAXTHRDS
    case WaitPut(w) => w.c in s.slots && w.i < |s.slots[w.c]|
    case Scan(g) => g.c in s.slots && |s.slots[g.c]| == MAXTHRDS
    case Read(g) => g.c in s.slots && g.i < |s.slots[g.c]|
    case Clear(g, _) => g.c in s.slots && g.i < |s.slots[g.c]|
    case _ => true
  }

  /** wakeup1: every thread asleep on chan becomes runnable. */
  function Wakeup1(threads: map<Tid, Thread>, chan: nat): (r: map<Tid, Thread>)
    ensures r.Keys == threads.Keys
  {
    map u | u in threads ::
      if threads[u].pc.Asleep? && threads[u].chan == chan then threads[u].(pc := Woken(threads[u].pc.w)) else threads[u]
  }

  /** The thread's own part of a step: its new place, the mutexes it holds and its channel. */
  function Self(s: State, t: Tid): Thread
    requires t in s.threads && !Blocked(s, s.threads[t].pc) && InRange(s, s.threads[t].pc)
  {
    var th := s.threads[t];
    match th.pc
    case LockSpin(m) => th.(pc := LockAcquire(m))
    case LockAcquire(m) => th.(pc := LockSwap(m))
    case LockSwap(m) => th.(pc := LockRelease(m), held := th.held + {m})
    case LockRelease(m) => th.(pc := User)
    case UnlockAcquire(m) => th.(pc := UnlockSwap(m))
    case UnlockSwap(m) => th.(pc := UnlockRelease(m), held := th.held - {m})
    case UnlockRelease(m) => th.(pc := User)
    case WaitScan(w) =>
      if w.i >= MAXTHRDS then th.(pc := User)
      else if s.slots[w.c][w.i] == 0 then th.(pc := WaitAcquire(w))
      else th.(pc := WaitScan(w.(i := w.i + 1)))
    case WaitAcquire(w) => th.(pc := WaitPut(w))
    case WaitPut(w) => th.(pc := WaitRelease(w))
    case WaitRelease(w) => th.(pc := SleepAcquire(w))
    case SleepAcquire(w) => th.(pc := SleepFree(w))
    case SleepFree(w) => th.(pc := SleepMark(w), held := th.held - {w.m})
    case SleepMark(w) => th.(pc := Asleep(w), chan := t)
    case Woken(w) => th.(pc := SleepTidy(w))
    case SleepTidy(w) => th.(pc := Relock(w.m), chan := 0)
    case Relock(m) => th.(pc := User, held := th.held + {m})
    case Scan(g) =>
      if g.i >= MAXTHRDS then th.(pc := Done(g))
      else if s.slots[g.c][g.i] > 0 then th.(pc := Read(g))
      else th.(pc := Scan(g.(i := g.i + 1)))
    case Read(g) => th.(pc := WakeAcquire(g, s.slots[g.c][g.i]))
    case WakeAcquire(g, v) => th.(pc := Wake(g, v))
    case Wake(g, v) => th.(pc := WakeRelease(g.(woke := g.woke + [v]), v))
    case WakeRelease(g, v) => th.(pc := ClearAcquire(g, v))
    case ClearAcquire(g, v) => th.(pc := Clear(g, v))
    case Clear(g, v) => th.(pc := ClearRelease(g.(i := g.i + 1)))
    case ClearRelease(g) => th.(pc := if g.all then Scan(g) else Done(g))
    case Done(g) => th.(pc := User)
  }

  function SetSlot(slots: map<Cond, seq<Tid>>, c: Cond, i: nat, t: Tid): map<Cond, seq<Tid>>
    requires c in slots && i < |slots[c]|
  {
    var row: seq<Tid> := slots[c][i := t];
    slots[c := row]
  }

  /** The places at which a thread owns ptable.lock. */
  predicate OwnsTable(pc: Pc) {
    pc.LockSwap? || pc.LockRelease? || pc.UnlockSwap? || pc.UnlockRelease? || pc.WaitPut? || pc.WaitRelease? ||
    pc.SleepFree? || pc.SleepMark? || pc.SleepTidy? || pc.Wake? || pc.WakeRelease? || pc.Clear? || pc.ClearRelease?
  }

  /** The step's part in shared memory. */
  function Shared(s: State, t: Tid): State
    requires t in s.threads && InRange(s, s.threads[t].pc)
  {
    match s.threads[t].pc
    case LockAcquire(_) => s.(pt := t)
    case UnlockAcquire(_) => s.(pt := t)
    case WaitAcquire(_) => s.(pt := t)
    case SleepAcquire(_) => s.(pt := t)
    case Woken(_) => s.(pt := t)
    case WakeAcquire(_, _) => s.(pt := t)
    case ClearAcquire(_, _) => s.(pt := t)
    case LockRelease(_) => s.(pt := 0)
    case UnlockRelease(_) => s.(pt := 0)
    case WaitRelease(_) => s.(pt := 0)
    case SleepMark(_) => s.(pt := 0)
    case SleepTidy(_) => s.(pt := 0)
    case WakeRelease(_, _) => s.(pt := 0)
    case ClearRelease(_) => s.(pt := 0)
    case LockSwap(m) => s.(locked := s.locked + {m})
    case Relock(m) => s.(locked := s.locked + {m})
    case UnlockSwap(m) => s.(locked := s.locked - {m})
    case SleepFree(w) => s.(locked := s.locked - {w.m})
    case WaitPut(w) => s.(slots := SetSlot(s.slots, w.c, w.i, t))
    case Clear(g, _) => s.(slots := SetSlot(s.slots, g.c, g.i, 0))
    case Wake(g, v) => s.(threads := Wakeup1(s.threads, v))
    case _ => s
  }

  function Step(s: State, t: Tid): State
    requires t in s.threads && !Blocked(s, s.threads[t].pc) && InRange(s, s.threads[t].pc)
  {
    var r := Shared(s, t);
    r.(threads := r.threads[t := Self(s, t)])
  }

  predicate Enabled(guard: Guard, s: State, e: Event) {
    match e
    case Spawn(t) => t > 0 && t !in s.threads
    case Start(t, call) => t in s.threads && s.threads[t].pc.User? && Disciplined(guard, s.slots, s.threads[t], call)
    case Go(t) => t in s.threads && !Blocked(s, s.threads[t].pc) && InRange(s, s.threads[t].pc)
  }

  function Next(guard: Guard, s: State, e: Event): State
    requires Enabled(guard, s, e)
  {
    match e
    case Spawn(t) => s.(threads := s.threads[t := Thread(User, {}, 0)])
    case Start(t, call) => s.(threads := s.threads[t := s.threads[t].(pc := Entry(s.slots, call))])
    case Go(t) => Step(s, t)
  }

  predicate CanRun(guard: Guard, s: State, run: seq<Event>)
    decreases |run|, 0
  {
    run == [] || (CanRun(guard, s, run[..|run| - 1]) && Enabled(guard, Run(guard, s, run[..|run| - 1]), run[|run| - 1]))
  }

  function Run(guard: Guard, s: State, run: seq<Event>): State
    requires CanRun(guard, s, run)
    decreases |run|, 1
  {
    if run == [] then s else Next(guard, Run(guard, s, run[..|run| - 1]), run[|run| - 1])
  }

  // ---------------------------------------------------------------- invariants

  ghost predicate TableInv(s: State) {
    && 0 !in s.threads && (s.pt == 0 || s.pt in s.threads)
    && forall t: Tid :: t in s.threads ==> (OwnsTable(s.threads[t].pc) <==> s.pt == t)
  }

  /** A lock word is 1 exactly when some thread holds the mutex, and only one thread does. */
  ghost predicate MutexInv(s: State) {
    && (forall t: Tid, u: Tid, m: Mutex ::
          (t in s.threads && u in s.threads && m in s.threads[t].held && m in s.threads[u].held) ==> t == u)
    && (forall m: Mutex :: m in s.locked <==> Held(s.threads, m))
  }

  /** What a thread holds where it is. */
  ghost predicate Guarded(guard: Guard, th: Thread) {
    match th.pc
    case UnlockAcquire(m) => m in th.held
    case UnlockSwap(m) => m in th.held
    case WaitScan(w) => w.m in th.held && w.m == guard(w.c)
    case WaitAcquire(w) => w.m in th.held && w.m == guard(w.c)
    case WaitPut(w) => w.m in th.held && w.m == guard(w.c)
    case WaitRelease(w) => w.m in th.held && w.m == guard(w.c)
    case SleepAcquire(w) => w.m in th.held && w.m == guard(w.c)
    case SleepFree(w) => w.m in th.held && w.m == guard(w.c)
    case Scan(g) => guard(g.c) in th.held
    case Read(g) => guard(g.c) in th.held
    case WakeAcquire(g, _) => guard(g.c) in th.held
    case Wake(g, _) => guard(g.c) in th.held
    case WakeRelease(g, _) => guard(g.c) in th.held
    case ClearAcquire(g, _) => guard(g.c) in th.held
    case Clear(g, _) => guard(g.c) in th.held
    case ClearRelease(g) => guard(g.c) in th.held
    case Done(g) => guard(g.c) in th.held
    case _ => true
  }

  ghost predicate GuardInv(guard: Guard, s: State) {
    forall t: Tid :: t in s.threads ==> Guarded(guard, s.threads[t])
  }

  ghost predicate Rows(slots: map<Cond, seq<Tid>>) {
    forall c: Cond :: c in slots ==> |slots[c]| == MAXTHRDS
  }

  /** The registered threads of a row, in slot order. */
  function Positives(row: seq<Tid>): (r: seq<Tid>)
    ensures |r| <= |row|
  {
    if row == [] then []
    else Positives(row[..|row| - 1]) + if row[|row| - 1] > 0 then [row[|row| - 1]] else []
  }

  /** Slots before i are empty now, the others are as they were when the signaller started. */
  ghost predicate Progress(row: seq<Tid>, i: nat, was: seq<Tid>) {
    && |row| == |was| == MAXTHRDS && i <= MAXTHRDS
    && (forall j :: 0 <= j < i ==> row[j] == 0)
    && (forall j :: i <= j < MAXTHRDS ==> row[j] == was[j])
  }

  ghost predicate Seen(row: seq<Tid>, g: Signal) {
    g.i <= MAXTHRDS == |g.was| && Progress(row, g.i, g.was) && g.woke == Positives(g.was[..g.i])
  }

  /** What a thread knows of the waiting lists where it is. */
  ghost predicate SlotOk(slots: map<Cond, seq<Tid>>, t: Tid, th: Thread) {
    match th.pc
    case WaitScan(w) => TakenBelow(slots, w)
    case WaitAcquire(w) => Vacant(slots, w)
    case WaitPut(w) => Vacant(slots, w)
    case WaitRelease(w) => Registered(slots, w, t)
    case SleepAcquire(w) => Registered(slots, w, t)
    case SleepFree(w) => Registered(slots, w, t)
    case SleepMark(w) => Registered(slots, w, t)
    case Asleep(w) => Registered(slots, w, t) && th.chan == t
    case Scan(g) => g.c in slots && Seen(slots[g.c], g) && (!g.all ==> g.woke == [])
    case Read(g) => Facing(slots, g, 0)
    case WakeAcquire(g, v) => v > 0 && Facing(slots, g, v)
    case Wake(g, v) => v > 0 && Facing(slots, g, v)
    case WakeRelease(g, v) => v > 0 && Awoken(slots, g, v)
    case ClearAcquire(g, v) => v > 0 && Awoken(slots, g, v)
    case Clear(g, v) => v > 0 && Awoken(slots, g, v)
    case ClearRelease(g) => g.c in slots && Seen(slots[g.c], g) && (!g.all ==> |g.woke| == 1)
    case Done(g) => g.c in slots && Seen(slots[g.c], g) && Complete(g)
    case _ => true
  }

  /** A broadcast looks at every slot, a signal stops behind the first that it finds taken. */
  predicate Complete(g: Signal) {
    if g.all then g.i == MAXTHRDS else |g.woke| == 1 || (g.woke == [] && g.i == MAXTHRDS)
  }

  /** The slots that condvar_wait has looked at are taken. */
  predicate TakenBelow(slots: map<Cond, seq<Tid>>, w: Wait) {
    w.c in slots && w.i <= |slots[w.c]| && forall j :: 0 <= j < w.i ==> slots[w.c][j] > 0
  }

  predicate Vacant(slots: map<Cond, seq<Tid>>, w: Wait) {
    w.c in slots && w.i < |slots[w.c]| && slots[w.c][w.i] == 0
  }

  predicate Registered(slots: map<Cond, seq<Tid>>, w: Wait, t: Tid) {
    w.c in slots && w.i < |slots[w.c]| && slots[w.c][w.i] == t
  }

  /** The signaller has found a waiter, v once it has read which. */
  ghost predicate Facing(slots: map<Cond, seq<Tid>>, g: Signal, v: Tid) {
    && g.c in slots && Seen(slots[g.c], g) && (!g.all ==> g.woke == [])
    && g.i < MAXTHRDS && slots[g.c][g.i] > 0 && (v > 0 ==> slots[g.c][g.i] == v)
  }

  ghost predicate Awoken(slots: map<Cond, seq<Tid>>, g: Signal, v: Tid) {
    && g.c in slots && Progress(slots[g.c], g.i, g.was) && g.i < MAXTHRDS == |g.was| && slots[g.c][g.i] == v
    && g.woke == Positives(g.was[..g.i]) + [v] && (!g.all ==> |g.woke| == 1)
  }

  ghost predicate SlotInv(s: State) {
    Rows(s.slots) && forall t: Tid :: t in s.threads ==> SlotOk(s.slots, t, s.threads[t])
  }

  // ---------------------------------------------------------------- preservation

  lemma StepTable(s: State, t: Tid)
    requires TableInv(s) && t in s.threads && !Blocked(s, s.threads[t].pc) && InRange(s, s.threads[t].pc)
    ensures TableInv(Step(s, t))
  {
  }

  ghost predicate Held(threads: map<Tid, Thread>, m: Mutex) {
    exists t: Tid :: t in threads && m in threads[t].held
  }

  /** A step by t leaves what the others hold. */
  lemma StepHeld(s: State, t: Tid)
    requires t in s.threads && !Blocked(s, s.threads[t].pc) && InRange(s, s.threads[t].pc)
    ensures Step(s, t).threads.Keys == s.threads.Keys && Step(s, t).threads[t] == Self(s, t)
    ensures forall u: Tid :: u in s.threads && u != t ==> Step(s, t).threads[u].held == s.threads[u].held
  {
  }

  /** What a step does to one mutex: nothing, or one swap of its word. */
  ghost predicate Swapped(before: set<Mutex>, after: set<Mutex>, locked: set<Mutex>, relocked: set<Mutex>) {
    || (after == before && relocked == locked)
    || (exists m: Mutex :: m !in locked && after == before + {m} && relocked == locked + {m})
    || (exists m: Mutex :: m in before && after == before - {m} && relocked == locked - {m})
  }

  lemma StepSwaps(guard: Guard, s: State, t: Tid)
    requires t in s.threads && Guarded(guard, s.threads[t])
    requires !Blocked(s, s.threads[t].pc) && InRange(s, s.threads[t].pc)
    ensures Swapped(s.threads[t].held, Self(s, t).held, s.locked, Step(s, t).locked)
  {
  }

  lemma StepMutex(guard: Guard, s: State, t: Tid)
    requires MutexInv(s) && t in s.threads && Guarded(guard, s.threads[t])
    requires !Blocked(s, s.threads[t].pc) && InRange(s, s.threads[t].pc)
    ensures MutexInv(Step(s, t))
  {
    hide Step, Self, Blocked, Guarded, InRange;
    StepHeld(s, t);
    StepSwaps(guard, s, t);
    var r := Step(s, t);
    forall m: Mutex ensures m in r.locked <==> Held(r.threads, m) {
      assert m in s.locked <==> Held(s.threads, m);
      if Held(s.threads, m) {
        var u: Tid :| u in s.threads && m in s.threads[u].held;
        assert u in r.threads;
      }
      if Held(r.threads, m) {
        var u: Tid :| u in r.threads && m in r.threads[u].held;
        assert u in s.threads;
      }
      assert t in r.threads;
    }
  }

  lemma StepGuard(guard: Guard, s: State, t: Tid)
    requires GuardInv(guard, s) && t in s.threads && !Blocked(s, s.threads[t].pc) && InRange(s, s.threads[t].pc)
    ensures GuardInv(guard, Step(s, t))
  {
  }

  lemma RangeOk(s: State, t: Tid)
    requires SlotInv(s) && t in s.threads
    ensures InRange(s, s.threads[t].pc)
  {
  }

  lemma ScanOn(row: seq<Tid>, g: Signal)
    requires Seen(row, g) && g.i < MAXTHRDS && row[g.i] == 0
    ensures Seen(row, g.(i := g.i + 1))
  {
    assert g.was[..g.i + 1][..g.i] == g.was[..g.i];
  }

  lemma ClearOn(row: seq<Tid>, g: Signal, v: Tid)
    requires Progress(row, g.i, g.was) && g.i < MAXTHRDS && row[g.i] == v > 0 && g.woke == Positives(g.was[..g.i]) + [v]
    ensures Seen(row[g.i := 0], g.(i := g.i + 1))
  {
    assert g.was[..g.i + 1][..g.i] == g.was[..g.i];
  }

  lemma KnowsSlots(s: State, t: Tid)
    requires SlotInv(s) && t in s.threads
    ensures Rows(s.slots) && SlotOk(s.slots, t, s.threads[t])
  {
  }

  lemma StepSelfSlot(s: State, t: Tid)
    requires SlotInv(s) && t in s.threads && t > 0 && !Blocked(s, s.threads[t].pc) && InRange(s, s.threads[t].pc)
    ensures Rows(Step(s, t).slots) && SlotOk(Step(s, t).slots, t, Self(s, t))
  {
    hide Positives, Progress, SlotInv;
    var th := s.threads[t];
    KnowsSlots(s, t);
    if th.pc.Scan? {
      var g := th.pc.g;
      if g.i < MAXTHRDS && s.slots[g.c][g.i] == 0 { ScanOn(s.slots[g.c], g); }
    } else if th.pc.Clear? {
      var g := th.pc.g;
      ClearOn(s.slots[g.c], g, th.pc.v);
    }
  }

  // ---------------------------------------------------------------- interference

  /** The thread is on its way to sleep, or asleep, in slot i of c. */
  predicate InWait(pc: Pc, c: Cond, i: nat) {
    (pc.WaitRelease? || pc.SleepAcquire? || pc.SleepFree? || pc.SleepMark? || pc.Asleep?) && pc.w.c == c && pc.w.i == i
  }

  /** The thread has woken v, in slot i of c, and has still to clear the slot. */
  predicate Waking(pc: Pc, c: Cond, i: nat, v: Tid) {
    (pc.WakeRelease? || pc.ClearAcquire? || pc.Clear?) && pc.g.c == c && pc.g.i == i && pc.v == v
  }

  ghost predicate BeingWoken(threads: map<Tid, Thread>, c: Cond, i: nat, v: Tid) {
    exists u: Tid :: u in threads && Waking(threads[u].pc, c, i, v)
  }

  /** Every registered thread is on its way to sleep or asleep in that slot, unless a signaller has
      just woken it. */
  ghost predicate EntryInv(s: State) {
    forall c: Cond, i: nat :: c in s.slots && i < |s.slots[c]| && s.slots[c][i] > 0 ==>
      EntryOk(s.threads, c, i, s.slots[c][i])
  }

  ghost predicate EntryOk(threads: map<Tid, Thread>, c: Cond, i: nat, v: Tid) {
    v in threads && (InWait(threads[v].pc, c, i) || BeingWoken(threads, c, i, v))
  }

  ghost predicate WakingInv(s: State) {
    forall u: Tid :: u in s.threads ==> WokenGone(s.threads, s.threads[u].pc)
  }

  ghost predicate WokenGone(threads: map<Tid, Thread>, pc: Pc) {
    pc.WakeRelease? || pc.ClearAcquire? || pc.Clear? ==> pc.v in threads && !InWait(threads[pc.v].pc, pc.g.c, pc.g.i)
  }

  ghost predicate Inv(guard: Guard, s: State) {
    TableInv(s) && MutexInv(s) && GuardInv(guard, s) && SlotInv(s) && EntryInv(s) && WakingInv(s)
  }

  /** The condition whose list the thread has to itself, by holding its mutex. */
  predicate Inside(pc: Pc, c: Cond) {
    match pc
    case WaitScan(w) => w.c == c
    case WaitAcquire(w) => w.c == c
    case WaitPut(w) => w.c == c
    case WaitRelease(w) => w.c == c
    case SleepAcquire(w) => w.c == c
    case SleepFree(w) => w.c == c
    case Scan(g) => g.c == c
    case Read(g) => g.c == c
    case WakeAcquire(g, _) => g.c == c
    case Wake(g, _) => g.c == c
    case WakeRelease(g, _) => g.c == c
    case ClearAcquire(g, _) => g.c == c
    case Clear(g, _) => g.c == c
    case ClearRelease(g) => g.c == c
    case Done(g) => g.c == c
    case _ => false
  }

  lemma InsideAlone(guard: Guard, s: State, t: Tid, u: Tid, c: Cond)
    requires MutexInv(s) && GuardInv(guard, s) && t in s.threads && u in s.threads
    requires Inside(s.threads[t].pc, c) && Inside(s.threads[u].pc, c)
    ensures t == u
  {
    assert guard(c) in s.threads[t].held;
    assert guard(c) in s.threads[u].held;
  }

  /** When a signaller is about to call wakeup, the thread it has read is asleep on its own channel. */
  lemma WakeFindsSleeper(guard: Guard, s: State, t: Tid)
    requires Inv(guard, s) && t in s.threads && s.threads[t].pc.Wake?
    ensures var g, v := s.threads[t].pc.g, s.threads[t].pc.v;
            v in s.threads && v != t && s.threads[v].pc.Asleep? && InWait(s.threads[v].pc, g.c, g.i) && s.threads[v].chan == v
  {
    var g, v := s.threads[t].pc.g, s.threads[t].pc.v;
    assert SlotOk(s.slots, t, s.threads[t]);
    assert s.slots[g.c][g.i] == v;
    if BeingWoken(s.threads, g.c, g.i, v) {
      var u: Tid :| u in s.threads && Waking(s.threads[u].pc, g.c, g.i, v);
      InsideAlone(guard, s, t, u, g.c);
    }
    assert SlotOk(s.slots, v, s.threads[v]);
    if Inside(s.threads[v].pc, g.c) { InsideAlone(guard, s, t, v, g.c); }
  }

  /** The others' knowledge of the lists survives a step. */
  lemma StepOtherSlot(guard: Guard, s: State, t: Tid, u: Tid)
    requires Inv(guard, s) && t in s.threads && !Blocked(s, s.threads[t].pc) && InRange(s, s.threads[t].pc)
    requires u in s.threads && u != t && u > 0
    ensures SlotOk(Step(s, t).slots, u, Step(s, t).threads[u])
  {
    hide MutexInv, GuardInv, SlotInv, TableInv, EntryInv, Positives, Progress, Seen;
    var th := s.threads[t];
    KnowsSlots(s, t);
    KnowsSlots(s, u);
    assert WokenGone(s.threads, th.pc);
    if th.pc.WaitPut? {
      if Inside(s.threads[u].pc, th.pc.w.c) { InsideAlone(guard, s, t, u, th.pc.w.c); }
    } else if th.pc.Clear? {
      if Inside(s.threads[u].pc, th.pc.g.c) { InsideAlone(guard, s, t, u, th.pc.g.c); }
    }
  }

  lemma AsleepChannel(s: State, v: Tid)
    requires SlotInv(s) && v in s.threads && s.threads[v].pc.Asleep?
    ensures s.threads[v].chan == v
  {
    KnowsSlots(s, v);
  }

  /** How a step moves the other threads: only Wake does, and only from Asleep to Woken. */
  lemma StepOthers(s: State, t: Tid, u: Tid)
    requires t in s.threads && !Blocked(s, s.threads[t].pc) && InRange(s, s.threads[t].pc) && u in s.threads && u != t
    ensures u in Step(s, t).threads
    ensures Step(s, t).threads[u] ==
      if s.threads[t].pc.Wake? && s.threads[u].pc.Asleep? && s.threads[u].chan == s.threads[t].pc.v
      then s.threads[u].(pc := Woken(s.threads[u].pc.w)) else s.threads[u]
  {
  }

  /** A thread enters a waiting list only from inside its condition. */
  lemma EntersInside(s: State, t: Tid, c: Cond, i: nat)
    requires t in s.threads && !Blocked(s, s.threads[t].pc) && InRange(s, s.threads[t].pc)
    ensures InWait(Self(s, t).pc, c, i) ==> InWait(s.threads[t].pc, c, i) || Inside(s.threads[t].pc, c)
  {
  }

  lemma StepWakingOther(guard: Guard, s: State, t: Tid, u: Tid)
    requires Inv(guard, s) && t in s.threads && !Blocked(s, s.threads[t].pc) && InRange(s, s.threads[t].pc)
    requires u in s.threads && u != t
    ensures u in Step(s, t).threads && WokenGone(Step(s, t).threads, Step(s, t).threads[u].pc)
  {
    hide MutexInv, GuardInv, SlotInv, TableInv, EntryInv, Step, Self;
    StepHeld(s, t);
    StepOthers(s, t, u);
    assert WokenGone(s.threads, s.threads[u].pc);
    var pc := s.threads[u].pc;
    if pc.WakeRelease? || pc.ClearAcquire? || pc.Clear? {
      if pc.v != t {
        StepOthers(s, t, pc.v);
      } else {
        EntersInside(s, t, pc.g.c, pc.g.i);
        if Inside(s.threads[t].pc, pc.g.c) { InsideAlone(guard, s, t, u, pc.g.c); }
      }
    }
  }

  lemma StepWakingSelf(guard: Guard, s: State, t: Tid)
    requires Inv(guard, s) && t in s.threads && !Blocked(s, s.threads[t].pc) && InRange(s, s.threads[t].pc)
    ensures t in Step(s, t).threads && WokenGone(Step(s, t).threads, Step(s, t).threads[t].pc)
  {
    hide MutexInv, GuardInv, SlotInv, TableInv, EntryInv, Step;
    StepHeld(s, t);
    assert WokenGone(s.threads, s.threads[t].pc);
    var pc := s.threads[t].pc;
    if pc.Wake? { WakeFindsSleeper(guard, s, t); }
    if pc.Wake? || pc.WakeRelease? || pc.ClearAcquire? {
      if pc.v != t { StepOthers(s, t, pc.v); }
    }
  }

  lemma StepEntry(guard: Guard, s: State, t: Tid, c: Cond, i: nat)
    requires Inv(guard, s) && t in s.threads && !Blocked(s, s.threads[t].pc) && InRange(s, s.threads[t].pc)
    requires c in Step(s, t).slots && i < |Step(s, t).slots[c]| && Step(s, t).slots[c][i] > 0
    ensures EntryOk(Step(s, t).threads, c, i, Step(s, t).slots[c][i])
  {
    hide MutexInv, GuardInv, SlotInv, TableInv, WakingInv, Positives, Progress, SlotOk;
    var r, pc := Step(s, t), s.threads[t].pc;
    var v := r.slots[c][i];
    StepHeld(s, t);
    if pc.WaitPut? && pc.w.c == c && pc.w.i == i {
      assert InWait(r.threads[t].pc, c, i);
    } else {
      assert s.slots[c][i] == v && EntryOk(s.threads, c, i, v);
      if BeingWoken(s.threads, c, i, v) {
        var u: Tid :| u in s.threads && Waking(s.threads[u].pc, c, i, v);
        if u != t { StepOthers(s, t, u); }
        assert Waking(r.threads[u].pc, c, i, v);
      } else {
        if v != t { StepOthers(s, t, v); }
        if pc.Wake? && s.threads[v].pc.Asleep? {
          AsleepChannel(s, v);
          WakeFindsSleeper(guard, s, t);
          assert pc.v == v ==> Waking(r.threads[t].pc, c, i, v);
        }
      }
    }
    hide Inv;
  }

  lemma StepKeeps(guard: Guard, s: State, t: Tid)
    requires Inv(guard, s) && t in s.threads && !Blocked(s, s.threads[t].pc)
    ensures InRange(s, s.threads[t].pc) && Inv(guard, Step(s, t))
  {
    RangeOk(s, t);
    assert 0 !in s.threads;
    StepTable(s, t);
    StepMutex(guard, s, t);
    StepGuard(guard, s, t);
    StepSelfSlot(s, t);
    StepHeld(s, t);
    var r := Step(s, t);
    hide Step, Blocked, InRange, SlotOk, Self, TableInv, MutexInv, GuardInv, WokenGone;
    forall u: Tid | u in r.threads ensures SlotOk(r.slots, u, r.threads[u]) && WokenGone(r.threads, r.threads[u].pc) {
      if u != t {
        StepOtherSlot(guard, s, t, u);
        StepWakingOther(guard, s, t, u);
      } else {
        StepWakingSelf(guard, s, t);
      }
    }
    forall c: Cond, i: nat | c in r.slots && i < |r.slots[c]| && r.slots[c][i] > 0
      ensures EntryOk(r.threads, c, i, r.slots[c][i])
    {
      StepEntry(guard, s, t, c, i);
    }
  }

  // ---------------------------------------------------------------- every run

  /** No threads, every mutex free, no thread registered. */
  ghost predicate Initial(s: State) {
    && s.threads == map[] && s.pt == 0 && s.locked == {} && Rows(s.slots)
    && forall c: Cond, i: nat :: c in s.slots && i < |s.slots[c]| ==> s.slots[c][i] == 0
  }

  /** One thread changes its place between system calls. */
  lemma MoveKeeps(guard: Guard, s: State, t: Tid, th: Thread)
    requires Inv(guard, s) && t > 0 && (if t in s.threads then s.threads[t].pc.User? && th.held == s.threads[t].held else th.held == {})
    requires Guarded(guard, th) && SlotOk(s.slots, t, th) && !OwnsTable(th.pc)
    requires th.pc.User? || th.pc.LockSpin? || th.pc.UnlockAcquire? || th.pc.WaitScan? || th.pc.Scan?
    ensures Inv(guard, s.(threads := s.threads[t := th]))
  {
    hide Positives, Progress, Seen, Facing, Awoken, EntryInv, MutexInv;
    MoveMutex(s, t, th);
    MoveEntry(s, t, th);
  }

  lemma MoveMutex(s: State, t: Tid, th: Thread)
    requires MutexInv(s) && (if t in s.threads then th.held == s.threads[t].held else th.held == {})
    ensures MutexInv(s.(threads := s.threads[t := th]))
  {
    var r := s.(threads := s.threads[t := th]);
    forall m: Mutex ensures m in r.locked <==> Held(r.threads, m) {
      assert m in s.locked <==> Held(s.threads, m);
      if Held(s.threads, m) {
        var u: Tid :| u in s.threads && m in s.threads[u].held;
        assert u in r.threads && m in r.threads[u].held;
      }
    }
  }

  lemma MoveEntry(s: State, t: Tid, th: Thread)
    requires EntryInv(s) && (t in s.threads ==> s.threads[t].pc.User?)
    ensures EntryInv(s.(threads := s.threads[t := th]))
  {
    var r := s.(threads := s.threads[t := th]);
    forall c: Cond, i: nat | c in r.slots && i < |r.slots[c]| && r.slots[c][i] > 0
      ensures EntryOk(r.threads, c, i, r.slots[c][i])
    {
      var v := r.slots[c][i];
      assert EntryOk(s.threads, c, i, v);
      if BeingWoken(s.threads, c, i, v) {
        var u: Tid :| u in s.threads && Waking(s.threads[u].pc, c, i, v);
        assert Waking(r.threads[u].pc, c, i, v);
      }
    }
  }

  lemma NextKeeps(guard: Guard, s: State, e: Event)
    requires Inv(guard, s) && Enabled(guard, s, e)
    ensures Inv(guard, Next(guard, s, e))
  {
    match e
    case Spawn(t) => MoveKeeps(guard, s, t, Thread(User, {}, 0));
    case Start(t, call) =>
      MoveKeeps(guard, s, t, s.threads[t].(pc := Entry(s.slots, call)));
    case Go(t) => StepKeeps(guard, s, t);
  }

  lemma {:induction false} RunKeeps(guard: Guard, s: State, run: seq<Event>)
    requires Initial(s) && CanRun(guard, s, run)
    ensures Inv(guard, Run(guard, s, run))
    decreases |run|
  {
    if run != [] {
      var before := run[..|run| - 1];
      RunKeeps(guard, s, before);
      NextKeeps(guard, Run(guard, s, before), run[|run| - 1]);
    }
  }

  /** At most one thread holds a mutex in every interleaving, and its lock word says whether one does. */
  lemma MutualExclusion(guard: Guard, s: State, run: seq<Event>, t: Tid, u: Tid, m: Mutex)
    requires Initial(s) && CanRun(guard, s, run)
    ensures var r := Run(guard, s, run);
            t in r.threads && u in r.threads && m in r.threads[t].held && m in r.threads[u].held ==> t == u
    ensures var r := Run(guard, s, run); m in r.locked <==> Held(r.threads, m)
  {
    RunKeeps(guard, s, run);
  }

  /** A wakeup in condvar_signal or condvar_broadcast finds its waiter asleep, and wakes it and no other. */
  lemma WakesExactlyOne(guard: Guard, s: State, run: seq<Event>, t: Tid, u: Tid)
    requires Initial(s) && CanRun(guard, s, run)
    requires t in Run(guard, s, run).threads && Run(guard, s, run).threads[t].pc.Wake?
    requires u in Run(guard, s, run).threads && u != t
    ensures var r := Run(guard, s, run); var v := r.threads[t].pc.v;
            v in r.threads && r.threads[v].pc.Asleep? && r.threads[v].chan == v
    ensures var r := Run(guard, s, run); Enabled(guard, r, Go(t)) && u in Next(guard, r, Go(t)).threads
    ensures var r := Run(guard, s, run); var after := Next(guard, r, Go(t)).threads[u];
            if u == r.threads[t].pc.v then after.pc == Woken(r.threads[u].pc.w) else after == r.threads[u]
  {
    RunKeeps(guard, s, run);
    var r := Run(guard, s, run);
    WakeFindsSleeper(guard, r, t);
    StepOthers(r, t, u);
    if r.threads[u].pc.Asleep? { AsleepChannel(r, u); }
  }

  lemma {:induction false} PositivesConcat(a: seq<Tid>, b: seq<Tid>)
    ensures Positives(a + b) == Positives(a) + Positives(b)
  {
    if b == [] {
      assert a + b == a;
    } else {
      PositivesConcat(a, b[..|b| - 1]);
      assert (a + b)[..|a + b| - 1] == a + b[..|b| - 1];
    }
  }

  lemma {:induction false} PositivesNone(row: seq<Tid>)
    ensures Positives(row) == [] <==> forall j :: 0 <= j < |row| ==> row[j] == 0
  {
    if row != [] { PositivesNone(row[..|row| - 1]); }
  }

  lemma {:induction false} SinglePositive(row: seq<Tid>) returns (k: nat)
    requires |Positives(row)| == 1
    ensures k < |row| && row[k] > 0 && Positives(row) == [row[k]] && forall j :: 0 <= j < |row| && j != k ==> row[j] == 0
  {
    var init, last := row[..|row| - 1], row[|row| - 1];
    if last > 0 {
      k := |row| - 1;
      PositivesNone(init);
    } else {
      k := SinglePositive(init);
    }
  }

  lemma {:induction false} PositivesHas(row: seq<Tid>, j: nat)
    requires j < |row| && row[j] > 0
    ensures row[j] in Positives(row)
  {
    if j < |row| - 1 { PositivesHas(row[..|row| - 1], j); }
  }

  /** When condvar_broadcast returns it has woken every thread registered when it began, in slot
      order, and the list is empty. */
  lemma BroadcastWakesAll(guard: Guard, s: State, run: seq<Event>, t: Tid)
    requires Initial(s) && CanRun(guard, s, run)
    requires t in Run(guard, s, run).threads && Run(guard, s, run).threads[t].pc.Done? && Run(guard, s, run).threads[t].pc.g.all
    ensures var r := Run(guard, s, run); var g := r.threads[t].pc.g;
            g.c in r.slots && g.woke == Positives(g.was) && Positives(r.slots[g.c]) == []
  {
    RunKeeps(guard, s, run);
    var r := Run(guard, s, run);
    KnowsSlots(r, t);
    var g := r.threads[t].pc.g;
    assert g.was[..g.i] == g.was;
    PositivesNone(r.slots[g.c]);
  }

  /** When condvar_signal returns it has woken and removed the first thread registered when it began,
      and nothing else; with nobody registered it did nothing. */
  lemma SignalWakesOne(guard: Guard, s: State, run: seq<Event>, t: Tid)
    requires Initial(s) && CanRun(guard, s, run)
    requires t in Run(guard, s, run).threads && Run(guard, s, run).threads[t].pc.Done?
    requires !Run(guard, s, run).threads[t].pc.g.all
    ensures Run(guard, s, run).threads[t].pc.g.c in Run(guard, s, run).slots
    ensures SignalEffect(Run(guard, s, run).slots[Run(guard, s, run).threads[t].pc.g.c], Run(guard, s, run).threads[t].pc.g)
  {
    RunKeeps(guard, s, run);
    var r := Run(guard, s, run);
    KnowsSlots(r, t);
    SignalSums(r.slots[r.threads[t].pc.g.c], r.threads[t].pc.g);
  }

  ghost predicate SignalEffect(row: seq<Tid>, g: Signal) {
    if Positives(g.was) == [] then g.woke == [] && row == g.was
    else exists k :: 0 <= k < |g.was| && g.was[k] > 0 && g.woke == [g.was[k]] && row == g.was[k := 0] &&
                     Positives(g.was)[0] == g.was[k]
  }

  lemma SignalSums(row: seq<Tid>, g: Signal)
    requires Seen(row, g) && Complete(g) && !g.all
    ensures SignalEffect(row, g)
  {
    hide Positives;
    var seen, rest := g.was[..g.i], g.was[g.i..];
    assert g.was == seen + rest;
    PositivesConcat(seen, rest);
    if g.woke == [] {
      assert seen == g.was;
      PositivesNone(g.was);
      assert row == g.was;
    } else {
      var k := SinglePositive(seen);
      assert g.was[k] == seen[k] && Positives(g.was)[0] == g.was[k];
      forall j | 0 <= j < |row| ensures row[j] == g.was[k := 0][j] {
        if j < g.i { assert g.was[j] == seen[j]; }
      }
      assert row == g.was[k := 0];
    }
  }

  /** A thread asleep in condvar_wait is registered, so the next broadcast on its condition wakes it. */
  lemma SleeperIsRegistered(guard: Guard, s: State, run: seq<Event>, t: Tid)
    requires Initial(s) && CanRun(guard, s, run)
    requires t in Run(guard, s, run).threads && Run(guard, s, run).threads[t].pc.Asleep?
    ensures var r := Run(guard, s, run); var c := r.threads[t].pc.w.c; c in r.slots && t in Positives(r.slots[c])
  {
    RunKeeps(guard, s, run);
    var r := Run(guard, s, run);
    KnowsSlots(r, t);
    PositivesHas(r.slots[r.threads[t].pc.w.c], r.threads[t].pc.w.i);
  }

  /** condvar_wait gives up, at the end of its scan, only when every slot of the list is taken. */
  lemma WaitFailsOnlyWhenFull(guard: Guard, s: State, run: seq<Event>, t: Tid)
    requires Initial(s) && CanRun(guard, s, run) && t in Run(guard, s, run).threads
    requires Run(guard, s, run).threads[t].pc.WaitScan? && Run(guard, s, run).threads[t].pc.w.i >= MAXTHRDS
    ensures var r := Run(guard, s, run); var c := r.threads[t].pc.w.c;
            c in r.slots && |r.slots[c]| == MAXTHRDS && forall j :: 0 <= j < MAXTHRDS ==> r.slots[c][j] > 0
  {
    RunKeeps(guard, s, run);
    KnowsSlots(Run(guard, s, run), t);
  }
}
