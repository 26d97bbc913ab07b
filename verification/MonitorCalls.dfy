/** What the calls of Monitor have done when they return, told from the events of a run and from threads that
    are back in user code. */
module MonitorCalls {
  import opened Monitor

  // ---------------------------------------------------------------- what a thread holds

  /** The calls of thread t, in order. */
  function CallsOf(run: seq<Event>, t: Tid): seq<Call> {
    if run == [] then []
    else
      var calls, e := CallsOf(run[..|run| - 1], t), run[|run| - 1];
      if e.Start? && e.t == t then calls + [e.call] else calls
  }

  /** What a thread holds after these calls: a wait gives the mutex back only to take it again. */
  function Keeps(calls: seq<Call>): set<Mutex> {
    if calls == [] then {}
    else
      var held := Keeps(calls[..|calls| - 1]);
      match calls[|calls| - 1]
      case Lock(m) => held + {m}
      case Unlock(m) => held - {m}
      case AwaitCond(_, m) => held + {m}
      case Notify(_, _) => held
  }

  function Earlier(calls: seq<Call>): seq<Call> { if calls == [] then [] else calls[..|calls| - 1] }

  /** Inside lock or unlock of m. */
  predicate InMutex(pc: Pc, m: Mutex, before: set<Mutex>, held: set<Mutex>, lock: bool) {
    match pc
    case LockSpin(x) => lock && x == m && held == before
    case LockAcquire(x) => lock && x == m && held == before
    case LockSwap(x) => lock && x == m && held == before
    case LockRelease(x) => lock && x == m && held == before + {m}
    case UnlockAcquire(x) => !lock && x == m && held == before
    case UnlockSwap(x) => !lock && x == m && held == before
    case UnlockRelease(x) => !lock && x == m && held == before - {m}
    case User => held == if lock then before + {m} else before - {m}
    case _ => false
  }

  /** Inside a wait on c with m. */
  predicate InWaiting(pc: Pc, c: Cond, m: Mutex, before: set<Mutex>, held: set<Mutex>) {
    match pc
    case WaitScan(w) => w.c == c && w.m == m && held == before
    case WaitAcquire(w) => w.c == c && w.m == m && held == before
    case WaitPut(w) => w.c == c && w.m == m && held == before
    case WaitRelease(w) => w.c == c && w.m == m && held == before
    case SleepAcquire(w) => w.c == c && w.m == m && held == before
    case SleepFree(w) => w.c == c && w.m == m && held == before
    case SleepMark(w) => w.c == c && w.m == m && held == before - {m}
    case Asleep(w) => w.c == c && w.m == m && held == before - {m}
    case Woken(w) => w.c == c && w.m == m && held == before - {m}
    case SleepTidy(w) => w.c == c && w.m == m && held == before - {m}
    case Relock(x) => x == m && held == before - {m}
    case User => held == before + {m}
    case _ => false
  }

  predicate Notifying(pc: Pc) {
    pc.Scan? || pc.Read? || pc.WakeAcquire? || pc.Wake? || pc.WakeRelease? || pc.ClearAcquire? || pc.Clear? ||
    pc.ClearRelease? || pc.Done?
  }

  /** Where a thread is in its last call, and what it holds there. */
  ghost predicate InCall(calls: seq<Call>, th: Thread) {
    if calls == [] then th.pc.User? && th.held == {}
    else
      var before := Keeps(Earlier(calls));
      match calls[|calls| - 1]
      case Lock(m) => InMutex(th.pc, m, before, th.held, true)
      case Unlock(m) => InMutex(th.pc, m, before, th.held, false)
      case AwaitCond(c, m) => m in before && InWaiting(th.pc, c, m, before, th.held)
      case Notify(c, all) => th.held == before && (th.pc.User? || (Notifying(th.pc) && th.pc.g.c == c && th.pc.g.all == all))
  }

  lemma SelfInCall(s: State, t: Tid, calls: seq<Call>)
    requires t in s.threads && !Blocked(s, s.threads[t].pc) && InRange(s, s.threads[t].pc) && InCall(calls, s.threads[t])
    ensures InCall(calls, Self(s, t))
  {
    hide Keeps;
  }

  lemma StartInCall(guard: Guard, s: State, t: Tid, call: Call, calls: seq<Call>)
    requires Enabled(guard, s, Start(t, call)) && InCall(calls, s.threads[t])
    ensures InCall(calls + [call], Next(guard, s, Start(t, call)).threads[t])
  {
    assert Earlier(calls + [call]) == calls;
    assert s.threads[t].held == Keeps(calls);
  }

  lemma GoInCall(guard: Guard, s: State, u: Tid, t: Tid, calls: seq<Call>)
    requires Enabled(guard, s, Go(u)) && t in s.threads && InCall(calls, s.threads[t])
    ensures t in Next(guard, s, Go(u)).threads && InCall(calls, Next(guard, s, Go(u)).threads[t])
  {
    hide Blocked, InRange, Keeps, Self;
    if u == t {
      SelfInCall(s, t, calls);
    } else {
      StepOthers(s, u, t);
    }
  }

  lemma {:induction false} RunInCall(guard: Guard, s: State, run: seq<Event>, t: Tid)
    requires Initial(s) && CanRun(guard, s, run)
    ensures var r := Run(guard, s, run);
      if t in r.threads then InCall(CallsOf(run, t), r.threads[t]) else CallsOf(run, t) == []
    decreases |run|
  {
    if run != [] {
      var before, e := run[..|run| - 1], run[|run| - 1];
      var p := Run(guard, s, before);
      RunInCall(guard, s, before, t);
      hide InCall, Blocked, InRange;
      if e.Start? && e.t == t {
        StartInCall(guard, p, t, e.call, CallsOf(before, t));
      } else if e.Go? {
        if t in p.threads { GoInCall(guard, p, e.t, t, CallsOf(before, t)); } else { StepHeld(p, e.t); }
      } else if e.Spawn? && e.t == t {
        NewInCall();
      }
    }
  }

  lemma NewInCall()
    ensures InCall([], Thread(User, {}, 0))
  {
  }

  /** In every run a thread in user code holds exactly what its calls say: every mutex_lock and condvar_wait
      that has returned has left it the mutex, every mutex_unlock has taken it. */
  lemma HeldIsCalls(guard: Guard, s: State, run: seq<Event>, t: Tid)
    requires Initial(s) && CanRun(guard, s, run) && t in Run(guard, s, run).threads && Run(guard, s, run).threads[t].pc.User?
    ensures Run(guard, s, run).threads[t].held == Keeps(CallsOf(run, t))
  {
    hide CanRun, Run, Initial;
    RunInCall(guard, s, run, t);
    UserKeeps(CallsOf(run, t), Run(guard, s, run).threads[t]);
  }

  lemma UserKeeps(calls: seq<Call>, th: Thread)
    requires InCall(calls, th) && th.pc.User?
    ensures th.held == Keeps(calls)
  {
  }

  /** mutex_lock that has returned: the lock word is 1, and no other thread has the mutex, wherever it is. */
  lemma LockReturns(guard: Guard, s: State, run: seq<Event>, t: Tid, u: Tid, m: Mutex)
    requires Initial(s) && CanRun(guard, s, run) && t in Run(guard, s, run).threads && Run(guard, s, run).threads[t].pc.User?
    requires CallsOf(run, t) != [] && CallsOf(run, t)[|CallsOf(run, t)| - 1] == Lock(m)
    ensures var r := Run(guard, s, run);
      && m in r.threads[t].held && m in r.locked
      && (u in r.threads && u != t ==> m !in r.threads[u].held && (r.threads[u].pc.User? ==> m !in Keeps(CallsOf(run, u))))
  {
    hide CanRun, Run, Initial;
    HeldIsCalls(guard, s, run, t);
    MutualExclusion(guard, s, run, t, u, m);
    if u in Run(guard, s, run).threads && Run(guard, s, run).threads[u].pc.User? { HeldIsCalls(guard, s, run, u); }
  }

  /** mutex_unlock that has returned. */
  lemma UnlockReturns(guard: Guard, s: State, run: seq<Event>, t: Tid, m: Mutex)
    requires Initial(s) && CanRun(guard, s, run) && t in Run(guard, s, run).threads && Run(guard, s, run).threads[t].pc.User?
    requires CallsOf(run, t) != [] && CallsOf(run, t)[|CallsOf(run, t)| - 1] == Unlock(m)
    ensures m !in Run(guard, s, run).threads[t].held
  {
    hide CanRun, Run, Initial;
    HeldIsCalls(guard, s, run, t);
  }

  /** condvar_wait that has returned, woken or with the list full: the thread has the mutex again, alone. */
  lemma WaitReturns(guard: Guard, s: State, run: seq<Event>, t: Tid, u: Tid, c: Cond, m: Mutex)
    requires Initial(s) && CanRun(guard, s, run) && t in Run(guard, s, run).threads && Run(guard, s, run).threads[t].pc.User?
    requires CallsOf(run, t) != [] && CallsOf(run, t)[|CallsOf(run, t)| - 1] == AwaitCond(c, m)
    ensures var r := Run(guard, s, run);
      m in r.threads[t].held && m in r.locked && (u in r.threads && u != t ==> m !in r.threads[u].held)
  {
    hide CanRun, Run, Initial;
    HeldIsCalls(guard, s, run, t);
    MutualExclusion(guard, s, run, t, u, m);
  }

  // ---------------------------------------------------------------- whom a call wakes

  /** The state in which the last call of t began. */
  ghost function Began(guard: Guard, s: State, run: seq<Event>, t: Tid): State
    requires CanRun(guard, s, run)
    decreases |run|
  {
    if run == [] then s
    else
      var before, e := run[..|run| - 1], run[|run| - 1];
      if e.Start? && e.t == t then Run(guard, s, before) else Began(guard, s, before, t)
  }

  /** The threads that are asleep in p and no longer in q. */
  ghost function Left(p: State, q: State): set<Tid> {
    set u | u in p.threads && u in q.threads && p.threads[u].pc.Asleep? && !q.threads[u].pc.Asleep?
  }

  /** The threads that the steps of t have made leave their sleep since its last call began. */
  ghost function Roused(guard: Guard, s: State, run: seq<Event>, t: Tid): set<Tid>
    requires CanRun(guard, s, run)
    decreases |run|
  {
    if run == [] then {}
    else
      var before, e := run[..|run| - 1], run[|run| - 1];
      if e.Start? && e.t == t then {}
      else if e.Go? && e.t == t then Roused(guard, s, before, t) + Left(Run(guard, s, before), Run(guard, s, run))
      else Roused(guard, s, before, t)
  }

  /** The call has done its work on the list that was: a broadcast has emptied it and woken all, a signal has
      taken out and woken the first, if there was one. */
  ghost predicate Served(all: bool, was: seq<Tid>, row: seq<Tid>, roused: set<Tid>) {
    if all then
      && |row| == |was| && (forall j :: 0 <= j < |row| ==> row[j] == 0)
      && forall v: Tid :: v in roused <==> v > 0 && v in was
    else if forall j :: 0 <= j < |was| ==> was[j] == 0 then row == was && roused == {}
    else exists k :: FirstTaken(was, k) && row == was[k := 0] && roused == {was[k]}
  }

  ghost predicate FirstTaken(was: seq<Tid>, k: int) {
    0 <= k < |was| && was[k] > 0 && forall j :: 0 <= j < k ==> was[j] == 0
  }

  /** What a notify of c has done so far. */
  ghost predicate Serving(guard: Guard, th: Thread, slots: map<Cond, seq<Tid>>, c: Cond, all: bool, was: seq<Tid>, roused: set<Tid>) {
    && guard(c) in th.held
    && if th.pc.User? then c in slots && Served(all, was, slots[c], roused)
       else
         && Notifying(th.pc) && th.pc.g.c == c && th.pc.g.all == all && th.pc.g.was == was
         && forall v: Tid :: v in roused <==> v in th.pc.g.woke
  }

  lemma {:induction false} PositivesIn(row: seq<Tid>, v: Tid)
    ensures v in Positives(row) <==> v > 0 && v in row
  {
    if row != [] {
      PositivesIn(row[..|row| - 1], v);
      assert row == row[..|row| - 1] + [row[|row| - 1]];
    }
  }

  lemma DoneServed(row: seq<Tid>, g: Signal, roused: set<Tid>)
    requires Seen(row, g) && Complete(g) && forall v: Tid :: v in roused <==> v in g.woke
    ensures Served(g.all, g.was, row, roused)
  {
    if g.all {
      assert g.was[..g.i] == g.was;
      forall v: Tid ensures v in g.woke <==> v > 0 && v in g.was { PositivesIn(g.was, v); }
    } else {
      SignalDone(row, g, roused);
    }
  }

  lemma SignalDone(row: seq<Tid>, g: Signal, roused: set<Tid>)
    requires Seen(row, g) && Complete(g) && !g.all && forall v: Tid :: v in roused <==> v in g.woke
    ensures Served(false, g.was, row, roused)
  {
    hide Positives;
    var seen := g.was[..g.i];
    if g.woke == [] {
      PositivesNone(seen);
      assert seen == g.was;
      assert row == g.was && roused == {};
    } else {
      var k := SinglePositive(seen);
      forall j | 0 <= j < g.i ensures g.was[j] == seen[j] { }
      assert FirstTaken(g.was, k) && row == g.was[k := 0];
      assert roused == {g.was[k]};
    }
  }

  /** A step by t rouses no thread, except that a wakeup rouses the one it has read. */
  lemma StepRouses(guard: Guard, s: State, t: Tid)
    requires Inv(guard, s) && Enabled(guard, s, Go(t))
    ensures Left(s, Step(s, t)) == if s.threads[t].pc.Wake? then {s.threads[t].pc.v} else {}
  {
    hide Step, Blocked, InRange, Inv;
    var r := Step(s, t);
    StepHeld(s, t);
    if s.threads[t].pc.Wake? { WakeFindsSleeper(guard, s, t); }
    forall u: Tid | u in s.threads && s.threads[u].pc.Asleep?
      ensures !r.threads[u].pc.Asleep? <==> s.threads[t].pc.Wake? && u == s.threads[t].pc.v
    {
      NotAsleep(guard, s, t);
      OwnChannel(guard, s, u);
      StepOthers(s, t, u);
    }
  }

  lemma NotAsleep(guard: Guard, s: State, t: Tid)
    requires Enabled(guard, s, Go(t))
    ensures !s.threads[t].pc.Asleep?
  {
  }

  lemma OwnChannel(guard: Guard, s: State, u: Tid)
    requires Inv(guard, s) && u in s.threads && s.threads[u].pc.Asleep?
    ensures s.threads[u].chan == u
  {
    AsleepChannel(s, u);
  }

  lemma SelfServing(guard: Guard, s: State, t: Tid, c: Cond, all: bool, was: seq<Tid>, roused: set<Tid>)
    requires Inv(guard, s) && Enabled(guard, s, Go(t)) && Serving(guard, s.threads[t], s.slots, c, all, was, roused)
    ensures Serving(guard, Self(s, t), Step(s, t).slots, c, all, was, roused + Left(s, Step(s, t)))
  {
    hide Seen, Positives, Left, Served;
    StepRouses(guard, s, t);
    var pc := s.threads[t].pc;
    if pc.Done? {
      KnowsSlots(s, t);
      DoneServed(s.slots[c], pc.g, roused);
      assert roused + {} == roused;
    }
    hide Inv;
  }

  /** While t holds the mutex of c, no other thread changes its list. */
  lemma RowKept(guard: Guard, s: State, t: Tid, u: Tid, c: Cond)
    requires Inv(guard, s) && Enabled(guard, s, Go(u)) && t in s.threads && t != u && guard(c) in s.threads[t].held && c in s.slots
    ensures c in Step(s, u).slots && Step(s, u).slots[c] == s.slots[c]
  {
    hide SlotInv, TableInv, EntryInv, WakingInv;
    assert Guarded(guard, s.threads[u]);
  }

  lemma OtherServing(guard: Guard, s: State, t: Tid, u: Tid, c: Cond, all: bool, was: seq<Tid>, roused: set<Tid>)
    requires Inv(guard, s) && Enabled(guard, s, Go(u)) && t in s.threads && t != u
    requires Serving(guard, s.threads[t], s.slots, c, all, was, roused)
    ensures t in Step(s, u).threads && Serving(guard, Step(s, u).threads[t], Step(s, u).slots, c, all, was, roused)
  {
    hide Inv, Step, Served, Blocked, InRange;
    StepOthers(s, u, t);
    if s.threads[t].pc.User? { RowKept(guard, s, t, u, c); }
  }

  lemma {:induction false} RunServing(guard: Guard, s: State, run: seq<Event>, t: Tid, c: Cond, all: bool)
    requires Initial(s) && CanRun(guard, s, run) && t in Run(guard, s, run).threads
    requires CallsOf(run, t) != [] && CallsOf(run, t)[|CallsOf(run, t)| - 1] == Notify(c, all)
    ensures var r, b := Run(guard, s, run), Began(guard, s, run, t);
      c in b.slots && Serving(guard, r.threads[t], r.slots, c, all, b.slots[c], Roused(guard, s, run, t))
    decreases |run|
  {
    hide Serving, Inv, Blocked, InRange, Initial;
    var before, e := run[..|run| - 1], run[|run| - 1];
    var p := Run(guard, s, before);
    RunKeeps(guard, s, before);
    if e.Start? && e.t == t {
      NewServing(guard, p, t, c, all);
    } else {
      RunInCall(guard, s, before, t);
      RunServing(guard, s, before, t, c, all);
      var was, roused := Began(guard, s, before, t).slots[c], Roused(guard, s, before, t);
      if e.Go? {
        StepHeld(p, e.t);
        if e.t == t { SelfServing(guard, p, t, c, all, was, roused); } else { OtherServing(guard, p, t, e.t, c, all, was, roused); }
      }
    }
  }

  lemma NewServing(guard: Guard, s: State, t: Tid, c: Cond, all: bool)
    requires Enabled(guard, s, Start(t, Notify(c, all)))
    ensures var r := Next(guard, s, Start(t, Notify(c, all)));
      c in s.slots && Serving(guard, r.threads[t], r.slots, c, all, s.slots[c], {})
  {
  }

  /** condvar_signal and condvar_broadcast that have returned: of the threads registered when the call began
      exactly the first, or all, have been roused from their sleep by it and are off the list. */
  lemma NotifyReturns(guard: Guard, s: State, run: seq<Event>, t: Tid, c: Cond, all: bool)
    requires Initial(s) && CanRun(guard, s, run) && t in Run(guard, s, run).threads && Run(guard, s, run).threads[t].pc.User?
    requires CallsOf(run, t) != [] && CallsOf(run, t)[|CallsOf(run, t)| - 1] == Notify(c, all)
    ensures var r, b := Run(guard, s, run), Began(guard, s, run, t);
      c in b.slots && c in r.slots && Served(all, b.slots[c], r.slots[c], Roused(guard, s, run, t))
  {
    RunServing(guard, s, run, t, c, all);
  }

  // ---------------------------------------------------------------- who has waited

  /** Thread t has been asleep since its last call began. */
  ghost predicate Slept(guard: Guard, s: State, run: seq<Event>, t: Tid)
    requires CanRun(guard, s, run)
    decreases |run|
  {
    run != [] &&
      var before, e, r := run[..|run| - 1], run[|run| - 1], Run(guard, s, run);
      !(e.Start? && e.t == t) && (Slept(guard, s, before, t) || (t in r.threads && r.threads[t].pc.Asleep?))
  }

  predicate IsFull(slots: map<Cond, seq<Tid>>, c: Cond) {
    c in slots && |slots[c]| == MAXTHRDS && forall j :: 0 <= j < MAXTHRDS ==> slots[c][j] > 0
  }

  /** The list of c has been full since the last call of t began. */
  ghost predicate WasFull(guard: Guard, s: State, run: seq<Event>, t: Tid, c: Cond)
    requires CanRun(guard, s, run)
    decreases |run|
  {
    run != [] &&
      var before, e := run[..|run| - 1], run[|run| - 1];
      !(e.Start? && e.t == t) && (WasFull(guard, s, before, t, c) || IsFull(Run(guard, s, before).slots, c))
  }

  /** Behind the sleep of a wait, or at its end. */
  ghost predicate HasWaited(pc: Pc, slept: bool, full: bool) {
    match pc
    case Woken(_) => slept
    case SleepTidy(_) => slept
    case Relock(_) => slept
    case Asleep(_) => slept
    case User => slept || full
    case _ => true
  }

  lemma StepWaited(guard: Guard, s: State, u: Tid, t: Tid, c: Cond, m: Mutex, calls: seq<Call>, slept: bool, full: bool)
    requires Inv(guard, s) && Enabled(guard, s, Go(u)) && t in s.threads
    requires calls != [] && calls[|calls| - 1] == AwaitCond(c, m) && InCall(calls, s.threads[t])
    requires HasWaited(s.threads[t].pc, slept, full)
    ensures t in Step(s, u).threads
    ensures HasWaited(Step(s, u).threads[t].pc, slept || Step(s, u).threads[t].pc.Asleep?, full || IsFull(s.slots, c))
  {
    hide MutexInv, GuardInv, TableInv, EntryInv, WakingInv, Step, Keeps;
    StepHeld(s, u);
    if u != t {
      StepOthers(s, u, t);
    } else {
      KnowsSlots(s, t);
    }
  }

  lemma {:induction false} RunWaited(guard: Guard, s: State, run: seq<Event>, t: Tid, c: Cond, m: Mutex)
    requires Initial(s) && CanRun(guard, s, run) && t in Run(guard, s, run).threads
    requires CallsOf(run, t) != [] && CallsOf(run, t)[|CallsOf(run, t)| - 1] == AwaitCond(c, m)
    ensures HasWaited(Run(guard, s, run).threads[t].pc, Slept(guard, s, run, t), WasFull(guard, s, run, t, c))
    decreases |run|
  {
    hide HasWaited, Inv, Blocked, InRange, Initial, InCall, IsFull;
    var before, e := run[..|run| - 1], run[|run| - 1];
    var p := Run(guard, s, before);
    RunKeeps(guard, s, before);
    if e.Start? && e.t == t {
      NewWaited(c, m);
    } else {
      RunInCall(guard, s, before, t);
      RunWaited(guard, s, before, t, c, m);
      var slept, full := Slept(guard, s, before, t), WasFull(guard, s, before, t, c);
      if e.Go? {
        StepHeld(p, e.t);
        StepWaited(guard, p, e.t, t, c, m, CallsOf(before, t), slept, full);
      } else {
        WaitedMore(p.threads[t].pc, slept, full, IsFull(p.slots, c));
      }
    }
  }

  lemma NewWaited(c: Cond, m: Mutex)
    ensures HasWaited(WaitScan(Wait(c, m, 0)), false, false)
  {
  }

  lemma WaitedMore(pc: Pc, slept: bool, full: bool, also: bool)
    requires HasWaited(pc, slept, full)
    ensures HasWaited(pc, slept || pc.Asleep?, full || also)
  {
  }

  /** condvar_wait returns only to a thread that has slept, and so has been woken, or that found the list
      full. */
  lemma WaitHasWaited(guard: Guard, s: State, run: seq<Event>, t: Tid, c: Cond, m: Mutex)
    requires Initial(s) && CanRun(guard, s, run) && t in Run(guard, s, run).threads && Run(guard, s, run).threads[t].pc.User?
    requires CallsOf(run, t) != [] && CallsOf(run, t)[|CallsOf(run, t)| - 1] == AwaitCond(c, m)
    ensures Slept(guard, s, run, t) || WasFull(guard, s, run, t, c)
  {
    RunWaited(guard, s, run, t, c, m);
  }

  // ---------------------------------------------------------------- calls come to an end

  /** How far a call is from its end, at most. */
  function Rank(pc: Pc): nat {
    match pc
    case User => 0
    case LockSpin(_) => 4
    case LockAcquire(_) => 3
    case LockSwap(_) => 2
    case LockRelease(_) => 1
    case UnlockAcquire(_) => 3
    case UnlockSwap(_) => 2
    case UnlockRelease(_) => 1
    case WaitScan(w) => Ahead(w.i) + 7
    case WaitAcquire(_) => 6
    case WaitPut(_) => 5
    case WaitRelease(_) => 4
    case SleepAcquire(_) => 3
    case SleepFree(_) => 2
    case SleepMark(_) => 1
    case Asleep(_) => 0
    case Woken(_) => 3
    case SleepTidy(_) => 2
    case Relock(_) => 1
    case Scan(g) => 10 * Ahead(g.i) + 2
    case Read(g) => 10 * Ahead(g.i) + 1
    case WakeAcquire(g, _) => 10 * Ahead(g.i)
    case Wake(g, _) => 10 * Ahead(g.i + 1) + 9
    case WakeRelease(g, _) => 10 * Ahead(g.i + 1) + 8
    case ClearAcquire(g, _) => 10 * Ahead(g.i + 1) + 7
    case Clear(g, _) => 10 * Ahead(g.i + 1) + 6
    case ClearRelease(g) => 10 * Ahead(g.i) + 3
    case Done(_) => 1
  }

  function Ahead(i: nat): nat { if i < MAXTHRDS then MAXTHRDS - i else 0 }

  /** Nobody is in the way of t: ptable.lock is free or its own, and so is the mutex it is about to take. */
  ghost predicate ClearWay(s: State, t: Tid) {
    && t in s.threads && (s.pt == 0 || s.pt == t)
    && match s.threads[t].pc
       case LockSpin(m) => m !in s.locked
       case LockAcquire(m) => m !in s.locked
       case LockSwap(m) => m !in s.locked
       case Woken(w) => w.m !in s.locked
       case SleepTidy(w) => w.m !in s.locked
       case Relock(m) => m !in s.locked
       case _ => true
  }

  lemma MayStep(guard: Guard, s: State, t: Tid)
    requires Inv(guard, s) && ClearWay(s, t) && !s.threads[t].pc.User? && !s.threads[t].pc.Asleep?
    ensures Enabled(guard, s, Go(t)) && (OwnsTable(s.threads[t].pc) <==> s.pt == t)
  {
    RangeOk(s, t);
    assert OwnsTable(s.threads[t].pc) <==> s.pt == t;
    hide Inv, InRange;
  }

  lemma AtSlot(guard: Guard, s: State, t: Tid)
    requires Inv(guard, s) && t in s.threads && s.threads[t].pc.WakeAcquire?
    ensures s.threads[t].pc.g.i < MAXTHRDS
  {
    KnowsSlots(s, t);
  }

  lemma NotifyRank(s: State, t: Tid)
    requires t in s.threads && !Blocked(s, s.threads[t].pc) && InRange(s, s.threads[t].pc) && Notifying(s.threads[t].pc)
    requires s.threads[t].pc.WakeAcquire? ==> s.threads[t].pc.g.i < MAXTHRDS
    ensures Rank(Self(s, t).pc) < Rank(s.threads[t].pc)
  {
    hide Blocked, InRange;
  }

  lemma OtherRank(s: State, t: Tid)
    requires t in s.threads && !Blocked(s, s.threads[t].pc) && InRange(s, s.threads[t].pc) && !Notifying(s.threads[t].pc)
    requires !s.threads[t].pc.User? && !s.threads[t].pc.Asleep?
    ensures Rank(Self(s, t).pc) < Rank(s.threads[t].pc)
  {
    hide Blocked, InRange;
  }

  lemma RankFalls(guard: Guard, s: State, t: Tid)
    requires Inv(guard, s) && Enabled(guard, s, Go(t)) && !s.threads[t].pc.User? && !s.threads[t].pc.Asleep?
    ensures Rank(Self(s, t).pc) < Rank(s.threads[t].pc)
  {
    hide Inv, Blocked, InRange, Self, Rank;
    if s.threads[t].pc.WakeAcquire? { AtSlot(guard, s, t); }
    if Notifying(s.threads[t].pc) { NotifyRank(s, t); } else { OtherRank(s, t); }
  }

  lemma WayStays(guard: Guard, s: State, t: Tid)
    requires Enabled(guard, s, Go(t)) && ClearWay(s, t) && (OwnsTable(s.threads[t].pc) <==> s.pt == t)
    ensures Step(s, t).threads[t] == Self(s, t) && ClearWay(Step(s, t), t)
  {
    StepHeld(s, t);
  }

  lemma Nearer(guard: Guard, s: State, t: Tid)
    requires Inv(guard, s) && ClearWay(s, t) && !s.threads[t].pc.User? && !s.threads[t].pc.Asleep?
    ensures Enabled(guard, s, Go(t)) && Rank(Self(s, t).pc) < Rank(s.threads[t].pc)
    ensures Step(s, t).threads[t] == Self(s, t) && ClearWay(Step(s, t), t)
  {
    hide Inv, Rank, Self, Step, OwnsTable;
    MayStep(guard, s, t);
    RankFalls(guard, s, t);
    WayStays(guard, s, t);
  }

  lemma RunThen(guard: Guard, s: State, run: seq<Event>, es: seq<Event>, e: Event)
    requires CanRun(guard, s, run + es) && Enabled(guard, Run(guard, s, run + es), e)
    ensures CanRun(guard, s, run + (es + [e])) && Run(guard, s, run + (es + [e])) == Next(guard, Run(guard, s, run + es), e)
  {
    var more := run + (es + [e]);
    assert more[..|more| - 1] == run + es && more[|more| - 1] == e;
  }

  /** A call in whose way nobody is comes to its end by its own steps: it returns, or sleeps in a wait. */
  lemma CallEnds(guard: Guard, s: State, run: seq<Event>, t: Tid) returns (es: seq<Event>)
    requires Initial(s) && CanRun(guard, s, run) && ClearWay(Run(guard, s, run), t)
    ensures (forall i :: 0 <= i < |es| ==> es[i] == Go(t)) && CanRun(guard, s, run + es)
    ensures var r := Run(guard, s, run + es); t in r.threads && (r.threads[t].pc.User? || r.threads[t].pc.Asleep?)
  {
    hide Initial, CanRun, Run, ClearWay, Rank;
    es := [];
    assert run + es == run;
    ClearIn(Run(guard, s, run), t);
    while !(Run(guard, s, run + es).threads[t].pc.User? || Run(guard, s, run + es).threads[t].pc.Asleep?)
      invariant forall i :: 0 <= i < |es| ==> es[i] == Go(t)
      invariant CanRun(guard, s, run + es) && ClearWay(Run(guard, s, run + es), t) && t in Run(guard, s, run + es).threads
      decreases Rank(Run(guard, s, run + es).threads[t].pc)
    {
      RunKeeps(guard, s, run + es);
      Nearer(guard, Run(guard, s, run + es), t);
      RunThen(guard, s, run, es, Go(t));
      es := es + [Go(t)];
    }
  }

  lemma ClearIn(s: State, t: Tid)
    requires ClearWay(s, t)
    ensures t in s.threads
  {
  }
}
