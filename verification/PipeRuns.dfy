/** Readers, writers and closers of one pipe, interleaved: every acquire, wakeup, sleep and release is
    a step of its own. */
module PipeRuns {
  import opened Pipe
  import opened Machine

  type Pid = nat

  /** A call of pipewrite with i bytes stored, of piperead for n bytes with i of them taken, or of
      pipeclose. */
  datatype Call = Write(addr: seq<Byte>, i: nat) | Read(n: nat, i: nat) | Close(writable: bool)

  /** Where a process is. */
  datatype Pc =
    | Idle(ret: int)           // back from a call that returned ret
    | Lock(k: Call)            // acquire(&p->lock)
    | Body(k: Call)            // holding it, at the head of the loop
    | WakeAcquire(k: Call, sleep: bool) | Wake(k: Call, sleep: bool) | WakeRelease(k: Call, sleep: bool)
    | Unlock(ret: int)         // release(&p->lock) and return ret
    | SleepAcquire(k: Call) | SleepUnlock(k: Call) | SleepMark(k: Call) | Asleep(k: Call) | Woken(k: Call)
    | SleepTidy(k: Call)

  /** lock and pt are the owners of p->lock and ptable.lock, 0 when free; queue is what the ring holds. */
  datatype State = State(procs: map<Pid, Pc>, lock: Pid, pt: Pid, queue: seq<Byte>, readOpen: bool, writeOpen: bool,
                         sent: seq<Byte>, received: seq<Byte>)

  datatype Event = Enter(p: Pid, k: Call) | Go(p: Pid)

  // ---------------------------------------------------------------- steps

  predicate Blocked(s: State, pc: Pc) {
    match pc
    case Idle(_) => true
    case Asleep(_) => true
    case Lock(_) => s.lock != 0
    case WakeAcquire(_, _) => s.pt != 0
    case SleepAcquire(_) => s.pt != 0
    case Woken(_) => s.pt != 0
    case _ => false
  }

  /** Whom the call wakes: writers are woken by readers and by closing the read end. */
  predicate WakesWriters(k: Call) { k.Read? || (k.Close? && !k.writable) }

  predicate Sleeper(pc: Pc, writer: bool) { pc.Asleep? && (if writer then pc.k.Write? else pc.k.Read?) }

  /** wakeup on the channel of the readers or of the writers. */
  function Wakeup(procs: map<Pid, Pc>, writers: bool): (r: map<Pid, Pc>)
    ensures r.Keys == procs.Keys
  {
    map q | q in procs :: if Sleeper(procs[q], writers) then Woken(procs[q].k) else procs[q]
  }

  /** What a call that is done returns: the bytes stored or taken. */
  function Value(k: Call): int { if k.Close? then 0 else k.i }

  /** One turn of the call with the pipe locked, up to its next wakeup, sleep or return. */
  function Turn(s: State, p: Pid, k: Call): State
    requires k.Write? ==> k.i <= |k.addr| && |s.queue| <= PIPESIZE
  {
    match k
    case Write(addr, i) =>
      var j := StoreTo(s.queue, addr, i);
      var stored := addr[i..j];
      s.(queue := s.queue + stored, sent := s.sent + stored, procs := s.procs[p :=
        if j == |addr| then WakeAcquire(Write(addr, j), false)
        else if !s.readOpen then Unlock(-1)
        else WakeAcquire(Write(addr, j), true)])
    case Read(n, _) =>
      if s.queue == [] && s.writeOpen then s.(procs := s.procs[p := SleepAcquire(k)])
      else
        var m := TakeUpTo(s.queue, n);
        s.(queue := s.queue[m..], received := s.received + s.queue[..m], procs := s.procs[p := WakeAcquire(Read(n, m), false)])
    case Close(writable) =>
      var t := s.(procs := s.procs[p := WakeAcquire(k, false)]);
      if writable then t.(writeOpen := false) else t.(readOpen := false)
  }

  predicate WellFormed(s: State, pc: Pc) {
    |s.queue| <= PIPESIZE && (!pc.Idle? && !pc.Unlock? && pc.k.Write? ==> pc.k.i <= |pc.k.addr|)
  }

  function Step(s: State, p: Pid): State
    requires p in s.procs && !Blocked(s, s.procs[p]) && WellFormed(s, s.procs[p])
  {
    match s.procs[p]
    case Lock(k) => s.(lock := p, procs := s.procs[p := Body(k)])
    case Body(k) => Turn(s, p, k)
    case WakeAcquire(k, sleep) => s.(pt := p, procs := s.procs[p := Wake(k, sleep)])
    case Wake(k, sleep) => s.(procs := Wakeup(s.procs, WakesWriters(k))[p := WakeRelease(k, sleep)])
    case WakeRelease(k, sleep) => s.(pt := 0, procs := s.procs[p := if sleep then SleepAcquire(k) else Unlock(Value(k))])
    case Unlock(ret) => s.(lock := 0, procs := s.procs[p := Idle(ret)])
    case SleepAcquire(k) => s.(pt := p, procs := s.procs[p := SleepUnlock(k)])
    case SleepUnlock(k) => s.(lock := 0, procs := s.procs[p := SleepMark(k)])
    case SleepMark(k) => s.(pt := 0, procs := s.procs[p := Asleep(k)])
    case Woken(k) => s.(pt := p, procs := s.procs[p := SleepTidy(k)])
    case SleepTidy(k) => s.(pt := 0, procs := s.procs[p := Lock(k)])
  }

  predicate Enabled(s: State, e: Event) {
    match e
    case Enter(p, k) => p > 0 && (p in s.procs ==> s.procs[p].Idle?) && (k.Write? || k.Read? ==> k.i == 0)
    case Go(p) => p in s.procs && !Blocked(s, s.procs[p]) && WellFormed(s, s.procs[p])
  }

  function Next(s: State, e: Event): State
    requires Enabled(s, e)
  {
    match e
    case Enter(p, k) => s.(procs := s.procs[p := Lock(k)])
    case Go(p) => Step(s, p)
  }

  predicate CanRun(s: State, run: seq<Event>)
    decreases |run|, 0
  {
    run == [] || (CanRun(s, run[..|run| - 1]) && Enabled(Run(s, run[..|run| - 1]), run[|run| - 1]))
  }

  function Run(s: State, run: seq<Event>): State
    requires CanRun(s, run)
    decreases |run|, 1
  {
    if run == [] then s else Next(Run(s, run[..|run| - 1]), run[|run| - 1])
  }

  // ---------------------------------------------------------------- invariants

  predicate OwnsPipe(pc: Pc) {
    pc.Body? || pc.WakeAcquire? || pc.Wake? || pc.WakeRelease? || pc.Unlock? || pc.SleepAcquire? || pc.SleepUnlock?
  }

  predicate OwnsTable(pc: Pc) {
    pc.Wake? || pc.WakeRelease? || pc.SleepUnlock? || pc.SleepMark? || pc.SleepTidy?
  }

  ghost predicate LockInv(s: State) {
    && 0 !in s.procs && (s.lock == 0 || s.lock in s.procs) && (s.pt == 0 || s.pt in s.procs)
    && forall p: Pid :: p in s.procs ==> (OwnsPipe(s.procs[p]) <==> s.lock == p) && (OwnsTable(s.procs[p]) <==> s.pt == p)
  }

  /** Why a call goes to sleep: nothing to read, or no room to write, and the other end still open. */
  predicate Reason(s: State, k: Call) {
    if k.Read? then s.queue == [] && s.writeOpen else k.Write? && |s.queue| == PIPESIZE && s.readOpen
  }

  /** Why it may stay asleep: a reader is left alone once the read end is closed. */
  predicate MustSleep(s: State, k: Call) { Reason(s, k) || (k.Read? && !s.readOpen) }

  /** The owner of the pipe lock has still to wake such sleepers. */
  predicate Owes(pc: Pc, writers: bool) { (pc.WakeAcquire? || pc.Wake?) && WakesWriters(pc.k) == writers }

  ghost predicate OwnerOwes(s: State, writers: bool) {
    s.lock in s.procs && Owes(s.procs[s.lock], writers)
  }

  ghost predicate SleepOk(s: State, pc: Pc) {
    match pc
    case SleepAcquire(k) => Reason(s, k)
    case SleepUnlock(k) => Reason(s, k)
    case SleepMark(k) => (k.Read? || k.Write?) && (MustSleep(s, k) || OwnerOwes(s, k.Write?))
    case Asleep(k) => (k.Read? || k.Write?) && (MustSleep(s, k) || OwnerOwes(s, k.Write?))
    case WakeAcquire(k, sleep) => sleep ==> Reason(s, k)
    case Wake(k, sleep) => sleep ==> Reason(s, k)
    case WakeRelease(k, sleep) => sleep ==> Reason(s, k)
    case _ => true
  }

  ghost predicate SleepInv(s: State) {
    forall p: Pid :: p in s.procs ==> WellFormed(s, s.procs[p]) && SleepOk(s, s.procs[p])
  }

  ghost predicate Inv(s: State) {
    LockInv(s) && SleepInv(s) && |s.queue| <= PIPESIZE && s.sent == s.received + s.queue
  }

  /** A turn moves only its process, which keeps the pipe lock. */
  lemma TurnMoves(s: State, p: Pid, k: Call)
    requires p in s.procs && s.procs[p] == Body(k) && WellFormed(s, s.procs[p])
    ensures var r := Turn(s, p, k);
            p in r.procs && r.procs == s.procs[p := r.procs[p]] && r.lock == s.lock && r.pt == s.pt &&
            (r.procs[p].WakeAcquire? || r.procs[p].Unlock? || r.procs[p].SleepAcquire?)
    ensures var pc := Turn(s, p, k).procs[p]; pc.SleepAcquire? ==> pc.k == k
    ensures var pc := Turn(s, p, k).procs[p]; pc.WakeAcquire? && k.Read? ==> pc.k.Read? && pc.k.n == k.n
    ensures var pc := Turn(s, p, k).procs[p]; pc.WakeAcquire? && k.Close? ==> pc.k == k
    ensures var pc := Turn(s, p, k).procs[p]; pc.WakeAcquire? && k.Write? ==> pc.k.Write?
  {
  }

  lemma StepLocks(s: State, p: Pid)
    requires LockInv(s) && p in s.procs && !Blocked(s, s.procs[p]) && WellFormed(s, s.procs[p])
    ensures LockInv(Step(s, p))
  {
    hide Step, Blocked, WellFormed;
    StepLockWords(s, p);
    forall q: Pid | q in s.procs && q != p ensures q in Step(s, p).procs && SamePlace(s.procs[q], Step(s, p).procs[q]) {
      StepOther(s, p, q);
    }
    SameProcs(s, p);
  }

  /** Waking changes neither lock's owner. */
  predicate SamePlace(pc: Pc, after: Pc) { OwnsPipe(after) == OwnsPipe(pc) && OwnsTable(after) == OwnsTable(pc) }

  lemma StepOther(s: State, p: Pid, q: Pid)
    requires p in s.procs && !Blocked(s, s.procs[p]) && WellFormed(s, s.procs[p]) && q in s.procs && q != p
    ensures q in Step(s, p).procs && SamePlace(s.procs[q], Step(s, p).procs[q])
  {
    hide Turn;
    if s.procs[p].Body? { TurnMoves(s, p, s.procs[p].k); }
  }

  /** A step takes a lock that is free, or gives back one that it has. */
  lemma StepLockWords(s: State, p: Pid)
    requires LockInv(s) && p in s.procs && !Blocked(s, s.procs[p]) && WellFormed(s, s.procs[p])
    ensures p in Step(s, p).procs
    ensures Step(s, p).lock == (if OwnsPipe(Step(s, p).procs[p]) then p else if s.lock == p then 0 else s.lock)
    ensures Step(s, p).pt == (if OwnsTable(Step(s, p).procs[p]) then p else if s.pt == p then 0 else s.pt)
    ensures OwnsPipe(Step(s, p).procs[p]) ==> s.lock == p || s.lock == 0
    ensures OwnsTable(Step(s, p).procs[p]) ==> s.pt == p || s.pt == 0
  {
    hide Turn, Wakeup;
    if s.procs[p].Body? { TurnMoves(s, p, s.procs[p].k); }
  }

  lemma StepQueue(s: State, p: Pid)
    requires |s.queue| <= PIPESIZE && s.sent == s.received + s.queue
    requires p in s.procs && !Blocked(s, s.procs[p]) && WellFormed(s, s.procs[p])
    ensures |Step(s, p).queue| <= PIPESIZE && Step(s, p).sent == Step(s, p).received + Step(s, p).queue
  {
    hide Turn;
    if s.procs[p].Body? { TurnQueue(s, p, s.procs[p].k); }
  }

  lemma TurnQueue(s: State, p: Pid, k: Call)
    requires |s.queue| <= PIPESIZE && s.sent == s.received + s.queue && (k.Write? ==> k.i <= |k.addr|)
    ensures |Turn(s, p, k).queue| <= PIPESIZE && Turn(s, p, k).sent == Turn(s, p, k).received + Turn(s, p, k).queue
  {
  }

  /** What a turn by the owner of the lock leaves for a sleeper of either kind. */
  lemma TurnOwes(s: State, p: Pid, k: Call, j: Call)
    requires Inv(s) && p in s.procs && s.procs[p] == Body(k) && (j.Read? || j.Write?) && MustSleep(s, j)
    ensures MustSleep(Turn(s, p, k), j) || OwnerOwes(Turn(s, p, k), j.Write?)
  {
    assert s.lock == p;
    hide LockInv, SleepInv;
  }

  lemma TurnSleeps(s: State, p: Pid, k: Call)
    requires Inv(s) && p in s.procs && s.procs[p] == Body(k)
    ensures SleepOk(Turn(s, p, k), Turn(s, p, k).procs[p]) && WellFormed(Turn(s, p, k), Turn(s, p, k).procs[p])
  {
    assert WellFormed(s, s.procs[p]);
    hide LockInv, SleepInv;
  }

  /** The state a sleeper depends on is untouched outside a turn. */
  lemma StepFrame(s: State, p: Pid, k: Call)
    requires p in s.procs && !Blocked(s, s.procs[p]) && WellFormed(s, s.procs[p]) && !s.procs[p].Body?
    ensures MustSleep(Step(s, p), k) == MustSleep(s, k) && Reason(Step(s, p), k) == Reason(s, k) && Step(s, p).queue == s.queue
  {
  }

  lemma StepSleepsSelf(s: State, p: Pid)
    requires Inv(s) && p in s.procs && !Blocked(s, s.procs[p]) && WellFormed(s, s.procs[p])
    ensures p in Step(s, p).procs && WellFormed(Step(s, p), Step(s, p).procs[p]) && SleepOk(Step(s, p), Step(s, p).procs[p])
  {
    hide LockInv, Turn;
    var pc := s.procs[p];
    assert SleepOk(s, pc);
    if pc.Body? {
      TurnMoves(s, p, pc.k);
      TurnSleeps(s, p, pc.k);
    } else if !pc.Unlock? {
      StepFrame(s, p, pc.k);
    }
  }

  lemma StepSleepsOther(s: State, p: Pid, q: Pid)
    requires Inv(s) && p in s.procs && !Blocked(s, s.procs[p]) && WellFormed(s, s.procs[p]) && q in s.procs && q != p
    ensures q in Step(s, p).procs && WellFormed(Step(s, p), Step(s, p).procs[q]) && SleepOk(Step(s, p), Step(s, p).procs[q])
  {
    hide Turn, MustSleep, Reason;
    var pc, qc := s.procs[p], s.procs[q];
    assert SleepOk(s, qc) && WellFormed(s, qc);
    StepQueue(s, p);
    if pc.Body? {
      TurnMoves(s, p, pc.k);
      if qc.SleepMark? || qc.Asleep? { TurnOwes(s, p, pc.k, qc.k); }
    } else if !qc.Idle? && !qc.Unlock? {
      StepFrame(s, p, qc.k);
    }
  }

  lemma NextKeeps(s: State, e: Event)
    requires Inv(s) && Enabled(s, e)
    ensures Inv(Next(s, e))
  {
    match e
    case Enter(p, k) =>
      EnterKeeps(s, p, k);
    case Go(p) =>
      hide Step, Blocked, SleepOk, WellFormed;
      StepLocks(s, p);
      StepQueue(s, p);
      SameProcs(s, p);
      forall q: Pid | q in Step(s, p).procs
        ensures WellFormed(Step(s, p), Step(s, p).procs[q]) && SleepOk(Step(s, p), Step(s, p).procs[q])
      {
        if q == p { StepSleepsSelf(s, p); } else { StepSleepsOther(s, p, q); }
      }
  }

  lemma SameProcs(s: State, p: Pid)
    requires p in s.procs && !Blocked(s, s.procs[p]) && WellFormed(s, s.procs[p])
    ensures Step(s, p).procs.Keys == s.procs.Keys
  {
  }

  lemma EnterKeeps(s: State, p: Pid, k: Call)
    requires Inv(s) && Enabled(s, Enter(p, k))
    ensures Inv(Next(s, Enter(p, k)))
  {
    var r := Next(s, Enter(p, k));
    forall q: Pid | q in r.procs ensures WellFormed(r, r.procs[q]) && SleepOk(r, r.procs[q]) {
      if q != p { assert SleepOk(s, s.procs[q]) && WellFormed(s, s.procs[q]); }
    }
  }

  ghost predicate Initial(s: State) {
    s.procs == map[] && s.lock == s.pt == 0 && s.queue == s.sent == s.received == [] && s.readOpen && s.writeOpen
  }

  lemma {:induction false} RunKeeps(s: State, run: seq<Event>)
    requires Initial(s) && CanRun(s, run)
    ensures Inv(Run(s, run))
    decreases |run|
  {
    if run != [] {
      RunKeeps(s, run[..|run| - 1]);
      NextKeeps(Run(s, run[..|run| - 1]), run[|run| - 1]);
    }
  }

  // ---------------------------------------------------------------- no lost wakeup

  /** Asleep, or under way to it with ptable.lock held, so that no wakeup can come in between. */
  predicate Waits(pc: Pc) { pc.SleepMark? || pc.Asleep? }

  ghost predicate ReaderWaits(s: State) { exists q :: q in s.procs && Waits(s.procs[q]) && s.procs[q].k.Read? }

  /** The next step is a write that stores what fits, finds the ring full and the read end closed, and
      returns without a wakeup. */
  predicate GivesUp(s: State, e: Event) {
    && e.Go? && e.p in s.procs && s.procs[e.p].Body? && WellFormed(s, s.procs[e.p]) && s.procs[e.p].k.Write?
    && StoreTo(s.queue, s.procs[e.p].k.addr, s.procs[e.p].k.i) < |s.procs[e.p].k.addr| && !s.readOpen
  }

  /** A waiting reader has nothing to read and the write end is open, or its wakeup is on the way. */
  ghost predicate ReadersServed(s: State) {
    forall q: Pid :: q in s.procs && Waits(s.procs[q]) && s.procs[q].k.Read? ==>
      (s.queue == [] && s.writeOpen) || OwnerOwes(s, false)
  }

  lemma TurnServes(s: State, p: Pid, k: Call)
    requires Inv(s) && p in s.procs && s.procs[p] == Body(k) && s.queue == [] && s.writeOpen
    requires !(GivesUp(s, Go(p)))
    ensures var r := Turn(s, p, k); (r.queue == [] && r.writeOpen) || OwnerOwes(r, false)
  {
    assert s.lock == p && WellFormed(s, s.procs[p]);
    hide LockInv, SleepInv;
  }

  lemma StepServes(s: State, p: Pid, q: Pid)
    requires Inv(s) && ReadersServed(s) && Enabled(s, Go(p)) && !(GivesUp(s, Go(p)) && ReaderWaits(s))
    requires q in Step(s, p).procs && Waits(Step(s, p).procs[q]) && Step(s, p).procs[q].k.Read?
    ensures var r := Step(s, p); (r.queue == [] && r.writeOpen) || OwnerOwes(r, false)
  {
    hide Turn;
    SameProcs(s, p);
    var pc := s.procs[p];
    if pc.Body? {
      TurnMoves(s, p, pc.k);
      assert s.lock == p;
      assert q != p && s.procs[q] == Step(s, p).procs[q];
      assert s.queue == [] && s.writeOpen;
      TurnServes(s, p, pc.k);
    } else if q == p {
      assert SleepOk(s, pc);
      StepFrame(s, p, Step(s, p).procs[q].k);
    }
  }

  /** A write that gives up leaves a waiting reader behind with a full ring. */
  lemma GivingUpStrands(s: State, p: Pid)
    requires Inv(s) && ReadersServed(s) && Enabled(s, Go(p)) && GivesUp(s, Go(p)) && ReaderWaits(s)
    ensures var r := Step(s, p); ReaderWaits(r) && |r.queue| == PIPESIZE && r.lock == p && r.procs[p] == Unlock(-1)
    ensures !ReadersServed(Step(s, p))
  {
    var q :| q in s.procs && Waits(s.procs[q]) && s.procs[q].k.Read?;
    assert s.lock == p;
    var r := Step(s, p);
    assert r.procs[q] == s.procs[q];
  }

  /** Every step keeps waiting readers served, if and only if it is not a write giving up on them. */
  lemma ServesIff(s: State, e: Event)
    requires Inv(s) && ReadersServed(s) && Enabled(s, e)
    ensures ReadersServed(Next(s, e)) <==> !(GivesUp(s, e) && ReaderWaits(s))
  {
    if GivesUp(s, e) && ReaderWaits(s) {
      GivingUpStrands(s, e.p);
    } else if e.Go? {
      hide Step;
      var r := Next(s, e);
      forall q: Pid | q in r.procs && Waits(r.procs[q]) && r.procs[q].k.Read?
        ensures (r.queue == [] && r.writeOpen) || OwnerOwes(r, false)
      {
        StepServes(s, e.p, q);
      }
    } else {
      EnterServes(s, e.p, e.k);
    }
  }

  lemma EnterServes(s: State, p: Pid, k: Call)
    requires LockInv(s) && ReadersServed(s) && Enabled(s, Enter(p, k))
    ensures ReadersServed(Next(s, Enter(p, k)))
  {
    assert s.lock in s.procs ==> s.lock != p;
  }

  /** Some write of the run gives up while a reader waits. */
  ghost predicate Strands(s: State, run: seq<Event>)
    requires CanRun(s, run)
    decreases |run|
  {
    run != [] && var n := |run| - 1;
                 Strands(s, run[..n]) || (GivesUp(Run(s, run[..n]), run[n]) && ReaderWaits(Run(s, run[..n])))
  }

  lemma {:induction false} RunServes(s: State, run: seq<Event>)
    requires Initial(s) && CanRun(s, run) && !Strands(s, run)
    ensures ReadersServed(Run(s, run))
    decreases |run|
  {
    if run != [] {
      var n := |run| - 1;
      RunServes(s, run[..n]);
      RunKeeps(s, run[..n]);
      ServesIff(Run(s, run[..n]), run[n]);
    }
  }

  /** In every run, whenever the pipe lock is free: a sleeping writer has no room and the read end is
      open; and a sleeping reader has nothing to read and the write end is open, if no write has given
      up on a waiting reader. */
  lemma NoLostWakeup(s: State, run: seq<Event>, p: Pid)
    requires Initial(s) && CanRun(s, run) && p in Run(s, run).procs && Run(s, run).lock == 0
    ensures var r := Run(s, run); !Strands(s, run) && Waits(r.procs[p]) && r.procs[p].k.Read? ==> r.queue == [] && r.writeOpen
    ensures var r := Run(s, run); Waits(r.procs[p]) && r.procs[p].k.Write? ==> |r.queue| == PIPESIZE && r.readOpen
  {
    RunKeeps(s, run);
    assert SleepOk(Run(s, run), Run(s, run).procs[p]);
    if !Strands(s, run) { RunServes(s, run); }
  }

  /** The condition is exact: a run in which a write gives up on a waiting reader passes, but for that
      write's release of the lock, through a state in which the lock is free, the ring is full and a
      reader waits. */
  lemma {:induction false} StrandedReader(s: State, run: seq<Event>) returns (prefix: seq<Event>, e: Event)
    requires Initial(s) && CanRun(s, run) && Strands(s, run)
    ensures prefix <= run && CanRun(s, prefix) && Enabled(Run(s, prefix), e)
    ensures var r := Next(Run(s, prefix), e); r.lock == 0 && |r.queue| == PIPESIZE && ReaderWaits(r)
    decreases |run|
  {
    var n := |run| - 1;
    if Strands(s, run[..n]) {
      prefix, e := StrandedReader(s, run[..n]);
    } else {
      var b := Run(s, run[..n]);
      RunKeeps(s, run[..n]);
      RunServes(s, run[..n]);
      prefix, e := run, run[n];
      GivingUpStrands(b, e.p);
      ReleaseKeepsWaiting(Run(s, run), e.p);
    }
  }

  lemma ReleaseKeepsWaiting(s: State, p: Pid)
    requires LockInv(s) && p in s.procs && s.procs[p].Unlock? && |s.queue| == PIPESIZE && ReaderWaits(s)
    ensures Enabled(s, Go(p)) && Step(s, p).lock == 0 && Step(s, p).queue == s.queue && ReaderWaits(Step(s, p))
  {
    var q :| q in s.procs && Waits(s.procs[q]) && s.procs[q].k.Read?;
    assert Step(s, p).procs[q] == s.procs[q];
  }

  // ---------------------------------------------------------------- when callers rule it out

  /** A process in piperead. */
  predicate InRead(pc: Pc) { !pc.Idle? && !pc.Unlock? && pc.k.Read? }

  predicate ClosesRead(pc: Pc) { !pc.Idle? && !pc.Unlock? && pc.k.Close? && !pc.k.writable }

  /** The read end is closed, or some process is in pipeclose for it. */
  ghost predicate ReadEnding(s: State) { !s.readOpen || exists q :: q in s.procs && ClosesRead(s.procs[q]) }

  /** The read end is not closed under a reader, and not read once it is being closed. */
  ghost predicate Orderly(s: State, e: Event) {
    e.Enter? ==>
      && (e.k.Read? ==> !ReadEnding(s))
      && (e.k.Close? && !e.k.writable ==> forall q :: q in s.procs ==> !InRead(s.procs[q]))
  }

  ghost predicate OrderlyRun(s: State, run: seq<Event>)
    requires CanRun(s, run)
    decreases |run|
  {
    run == [] || (OrderlyRun(s, run[..|run| - 1]) && Orderly(Run(s, run[..|run| - 1]), run[|run| - 1]))
  }

  ghost predicate EndInv(s: State) { ReadEnding(s) ==> forall q :: q in s.procs ==> !InRead(s.procs[q]) }

  lemma TurnEnds(s: State, p: Pid, k: Call)
    requires p in s.procs && s.procs[p] == Body(k) && WellFormed(s, s.procs[p])
    ensures s.readOpen && !Turn(s, p, k).readOpen ==> ClosesRead(s.procs[p])
    ensures InRead(Turn(s, p, k).procs[p]) ==> InRead(s.procs[p])
    ensures ClosesRead(Turn(s, p, k).procs[p]) ==> ClosesRead(s.procs[p])
  {
  }

  /** A step stays in its call; only a closer of the read end closes it. */
  lemma StepCalls(s: State, p: Pid, q: Pid)
    requires Enabled(s, Go(p)) && q in s.procs
    ensures q in Step(s, p).procs
    ensures InRead(Step(s, p).procs[q]) ==> InRead(s.procs[q])
    ensures ClosesRead(Step(s, p).procs[q]) ==> ClosesRead(s.procs[q])
    ensures s.readOpen && !Step(s, p).readOpen ==> ClosesRead(s.procs[p])
  {
    hide Turn;
    if s.procs[p].Body? {
      TurnMoves(s, p, s.procs[p].k);
      TurnEnds(s, p, s.procs[p].k);
    }
  }

  lemma EnterEnds(s: State, p: Pid, k: Call)
    requires EndInv(s) && Enabled(s, Enter(p, k)) && Orderly(s, Enter(p, k)) && ReadEnding(Next(s, Enter(p, k)))
    ensures !k.Read? && forall q :: q in s.procs ==> !InRead(s.procs[q])
  {
    var r := Next(s, Enter(p, k));
    if !ClosesRead(Lock(k)) {
      assert ReadEnding(s) by {
        if r.readOpen {
          var c :| c in r.procs && ClosesRead(r.procs[c]);
          assert c in s.procs && ClosesRead(s.procs[c]);
        }
      }
    }
  }

  lemma EndKept(s: State, e: Event)
    requires EndInv(s) && Enabled(s, e) && Orderly(s, e)
    ensures EndInv(Next(s, e))
  {
    if e.Go? {
      hide Step;
      SameProcs(s, e.p);
      forall q: Pid | q in s.procs { StepCalls(s, e.p, q); }
      if ReadEnding(Next(s, e)) { assert ReadEnding(s); }
    } else if ReadEnding(Next(s, e)) {
      EnterEnds(s, e.p, e.k);
    }
  }

  /** Callers that neither close the read end under a reader nor read once it is being closed rule the
      stranding out, so in all their runs no wakeup is lost. */
  lemma {:induction false} OrderlyNeverStrands(s: State, run: seq<Event>)
    requires Initial(s) && CanRun(s, run) && OrderlyRun(s, run)
    ensures EndInv(Run(s, run)) && !Strands(s, run)
    decreases |run|
  {
    if run != [] {
      var n := |run| - 1;
      OrderlyNeverStrands(s, run[..n]);
      EndKept(Run(s, run[..n]), run[n]);
    }
  }

  // ---------------------------------------------------------------- a reader left asleep

  lemma Extend(s: State, run: seq<Event>, e: Event) returns (longer: seq<Event>)
    requires CanRun(s, run) && Enabled(Run(s, run), e)
    ensures longer == run + [e] && CanRun(s, longer) && Run(s, longer) == Next(Run(s, run), e)
  {
    longer := run + [e];
    assert longer[..|run|] == run;
  }

  /** p is at pc, the locks have these owners, and the ring and its ends are like this. */
  predicate At(s: State, p: Pid, pc: Pc, lock: Pid, pt: Pid, queue: nat, readOpen: bool) {
    p in s.procs && s.procs[p] == pc && s.lock == lock && s.pt == pt && |s.queue| == queue && s.readOpen == readOpen && s.writeOpen
  }

  /** Process 1 sleeps in piperead, and nobody but it, 2 and 3 has been here. */
  predicate Sleeping(s: State) {
    1 in s.procs && s.procs[1] == Asleep(Read(5, 0)) && s.procs.Keys <= {1, 2, 3}
  }

  lemma ReaderFindsNothing(s: State) returns (run: seq<Event>)
    requires Initial(s)
    ensures CanRun(s, run) && At(Run(s, run), 1, SleepAcquire(Read(5, 0)), 1, 0, 0, true) && Run(s, run).procs.Keys == {1}
  {
    EmptyRun(s);
    hide Run, CanRun, Wakeup, StoreTo, TakeUpTo;
    var k := Read(5, 0);
    run := Extend(s, [], Enter(1, k));
    assert At(Run(s, run), 1, Lock(k), 0, 0, 0, true) && Run(s, run).procs.Keys == {1};
    run := Extend(s, run, Go(1));
    assert At(Run(s, run), 1, Body(k), 1, 0, 0, true) && Run(s, run).procs.Keys == {1};
    run := Extend(s, run, Go(1));
  }

  lemma ReaderSleeps(s: State) returns (run: seq<Event>)
    requires Initial(s)
    ensures CanRun(s, run) && At(Run(s, run), 1, Asleep(Read(5, 0)), 0, 0, 0, true) && Run(s, run).procs.Keys == {1}
  {
    hide Run, CanRun, Turn, Wakeup;
    var k := Read(5, 0);
    run := ReaderFindsNothing(s);
    run := Extend(s, run, Go(1));
    assert At(Run(s, run), 1, SleepUnlock(k), 1, 1, 0, true) && Run(s, run).procs.Keys == {1};
    run := Extend(s, run, Go(1));
    assert At(Run(s, run), 1, SleepMark(k), 0, 1, 0, true) && Run(s, run).procs.Keys == {1};
    run := Extend(s, run, Go(1));
  }

  lemma EmptyRun(s: State)
    ensures CanRun(s, []) && Run(s, []) == s
  {
  }

  /** Process 3 closes the read end ... */
  lemma ReadEndCloses(s: State, run0: seq<Event>) returns (run: seq<Event>)
    requires CanRun(s, run0) && Sleeping(Run(s, run0)) && At(Run(s, run0), 1, Asleep(Read(5, 0)), 0, 0, 0, true)
    requires 3 !in Run(s, run0).procs
    ensures CanRun(s, run) && Sleeping(Run(s, run)) && At(Run(s, run), 3, WakeAcquire(Close(false), false), 3, 0, 0, false)
    ensures Run(s, run).procs.Keys == Run(s, run0).procs.Keys + {3}
  {
    hide Run, CanRun, Wakeup, StoreTo, TakeUpTo;
    var k, keys := Close(false), Run(s, run0).procs.Keys + {3};
    run := Extend(s, run0, Enter(3, k));
    assert Sleeping(Run(s, run)) && At(Run(s, run), 3, Lock(k), 0, 0, 0, true) && Run(s, run).procs.Keys == keys;
    run := Extend(s, run, Go(3));
    assert Sleeping(Run(s, run)) && At(Run(s, run), 3, Body(k), 3, 0, 0, true) && Run(s, run).procs.Keys == keys;
    run := Extend(s, run, Go(3));
  }

  lemma ReaderNotWoken(s: State)
    requires Sleeping(s) && At(s, 3, Wake(Close(false), false), 3, 3, 0, false)
    ensures Enabled(s, Go(3)) && Sleeping(Next(s, Go(3))) && Next(s, Go(3)).procs.Keys == s.procs.Keys
    ensures At(Next(s, Go(3)), 3, WakeRelease(Close(false), false), 3, 3, 0, false)
  {
    hide Turn;
  }

  lemma WriteGivesUp(s: State, addr: seq<Byte>)
    requires Sleeping(s) && At(s, 2, Body(Write(addr, 0)), 2, 0, 0, false) && |addr| == 600
    ensures Enabled(s, Go(2)) && Sleeping(Next(s, Go(2))) && At(Next(s, Go(2)), 2, Unlock(-1), 2, 0, PIPESIZE, false)
  {
    hide Wakeup;
  }

  /** ... and wakes writers only. */
  lemma OnlyWritersWoken(s: State, run0: seq<Event>) returns (run: seq<Event>)
    requires CanRun(s, run0) && Sleeping(Run(s, run0))
    requires At(Run(s, run0), 3, WakeAcquire(Close(false), false), 3, 0, 0, false)
    ensures CanRun(s, run) && Sleeping(Run(s, run)) && At(Run(s, run), 3, Idle(0), 0, 0, 0, false)
    ensures Run(s, run).procs.Keys == Run(s, run0).procs.Keys
  {
    hide Run, CanRun, Turn, Wakeup;
    var k, keys := Close(false), Run(s, run0).procs.Keys;
    run := Extend(s, run0, Go(3));
    assert Sleeping(Run(s, run)) && At(Run(s, run), 3, Wake(k, false), 3, 3, 0, false) && Run(s, run).procs.Keys == keys;
    ReaderNotWoken(Run(s, run));
    run := Extend(s, run, Go(3));
    assert Sleeping(Run(s, run)) && At(Run(s, run), 3, WakeRelease(k, false), 3, 3, 0, false) && Run(s, run).procs.Keys == keys;
    run := Extend(s, run, Go(3));
    assert Sleeping(Run(s, run)) && At(Run(s, run), 3, Unlock(0), 3, 0, 0, false) && Run(s, run).procs.Keys == keys;
    run := Extend(s, run, Go(3));
  }

  /** An instance: a thread closes the read end while another sleeps in piperead; then a write of 600
      bytes fills the ring and gives up.  The reader sleeps on with 512 bytes to read. */
  lemma ReaderLeftAsleep(s: State) returns (run: seq<Event>)
    requires Initial(s)
    ensures CanRun(s, run) && At(Run(s, run), 1, Asleep(Read(5, 0)), 0, 0, PIPESIZE, false)
  {
    hide Run, CanRun, Turn, Wakeup;
    run := ReaderSleeps(s);
    run := ReadEndCloses(s, run);
    run := OnlyWritersWoken(s, run);
    var addr: seq<Byte> := seq(600, _ => 0);
    var k := Write(addr, 0);
    run := Extend(s, run, Enter(2, k));
    assert Sleeping(Run(s, run)) && At(Run(s, run), 2, Lock(k), 0, 0, 0, false);
    run := Extend(s, run, Go(2));
    assert Sleeping(Run(s, run)) && At(Run(s, run), 2, Body(k), 2, 0, 0, false);
    WriteGivesUp(Run(s, run), addr);
    run := Extend(s, run, Go(2));
    assert Sleeping(Run(s, run)) && At(Run(s, run), 2, Unlock(-1), 2, 0, PIPESIZE, false);
    run := Extend(s, run, Go(2));
  }

  // ---------------------------------------------------------------- never both asleep

  ghost predicate OneSide(s: State) {
    forall p: Pid, q: Pid :: p in s.procs && q in s.procs && Waits(s.procs[p]) && Waits(s.procs[q]) ==>
      s.procs[p].k.Read? == s.procs[q].k.Read?
  }

  /** Whoever is about to sleep finds no sleeper of the other side. */
  lemma AloneToSleep(s: State, p: Pid, q: Pid)
    requires Inv(s) && p in s.procs && s.procs[p].SleepUnlock? && q in s.procs && Waits(s.procs[q])
    ensures s.procs[p].k.Read? == s.procs[q].k.Read?
  {
    assert SleepOk(s, s.procs[p]) && SleepOk(s, s.procs[q]) && s.lock == p;
  }

  lemma StepWaits(s: State, p: Pid, q: Pid)
    requires Enabled(s, Go(p)) && q in s.procs && q in Step(s, p).procs && Waits(Step(s, p).procs[q])
    ensures !s.procs[q].Idle? && !s.procs[q].Unlock? && Step(s, p).procs[q].k == s.procs[q].k
    ensures Waits(s.procs[q]) || (q == p && s.procs[q].SleepUnlock?)
  {
    hide Turn;
    if s.procs[p].Body? { TurnMoves(s, p, s.procs[p].k); }
  }

  lemma OneSideKept(s: State, e: Event)
    requires Inv(s) && OneSide(s) && Enabled(s, e)
    ensures OneSide(Next(s, e))
  {
    if e.Go? {
      hide Step, Inv, Enabled;
      var r := Next(s, e);
      SameProcs(s, e.p);
      forall p: Pid, q: Pid | p in r.procs && q in r.procs && Waits(r.procs[p]) && Waits(r.procs[q])
        ensures r.procs[p].k.Read? == r.procs[q].k.Read?
      {
        StepWaits(s, e.p, p);
        StepWaits(s, e.p, q);
        if !Waits(s.procs[p]) && Waits(s.procs[q]) { AloneToSleep(s, p, q); }
        if !Waits(s.procs[q]) && Waits(s.procs[p]) { AloneToSleep(s, q, p); }
      }
    }
  }

  /** In every run readers and writers never sleep at the same time. */
  lemma {:induction false} NeverBothAsleep(s: State, run: seq<Event>)
    requires Initial(s) && CanRun(s, run)
    ensures OneSide(Run(s, run))
    decreases |run|
  {
    if run != [] {
      var n := |run| - 1;
      NeverBothAsleep(s, run[..n]);
      RunKeeps(s, run[..n]);
      OneSideKept(Run(s, run[..n]), run[n]);
    }
  }

  /** In every run, the bytes read are the first of the bytes written, in order, and the rest, at most
      PIPESIZE of them, is what the ring holds. */
  lemma FirstInFirstOut(s: State, run: seq<Event>)
    requires Initial(s) && CanRun(s, run)
    ensures Run(s, run).sent == Run(s, run).received + Run(s, run).queue && |Run(s, run).queue| <= PIPESIZE
  {
    RunKeeps(s, run);
  }
}
