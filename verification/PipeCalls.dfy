/** What the calls of PipeRuns have done when they return, told from the events of a run and from what they have
    changed in the ring. */
module PipeCalls {
  import opened Pipe
  import opened PipeRuns
  import opened Machine

  /** The calls of process p, in order. */
  function CallsOf(run: seq<Event>, p: Pid): seq<Call> {
    if run == [] then []
    else
      var calls, e := CallsOf(run[..|run| - 1], p), run[|run| - 1];
      if e.Enter? && e.p == p then calls + [e.k] else calls
  }

  function Last(calls: seq<Call>): Call
    requires calls != []
  {
    calls[|calls| - 1]
  }

  /** What is in the ring q' behind q. */
  function Added(q: seq<Byte>, q': seq<Byte>): seq<Byte> { if |q| < |q'| then q'[|q|..] else [] }

  /** What is missing in front. */
  function Taken(q: seq<Byte>, q': seq<Byte>): seq<Byte> { if |q'| < |q| then q[..|q| - |q'|] else [] }

  /** What the steps of p have put into the ring since its last call began. */
  ghost function PutBy(s: State, run: seq<Event>, p: Pid): seq<Byte>
    requires CanRun(s, run)
    decreases |run|
  {
    if run == [] then []
    else
      var before, e := run[..|run| - 1], run[|run| - 1];
      if e.Enter? && e.p == p then []
      else if e == Go(p) then PutBy(s, before, p) + Added(Run(s, before).queue, Run(s, run).queue)
      else PutBy(s, before, p)
  }

  /** What they have taken out of it. */
  ghost function GotBy(s: State, run: seq<Event>, p: Pid): seq<Byte>
    requires CanRun(s, run)
    decreases |run|
  {
    if run == [] then []
    else
      var before, e := run[..|run| - 1], run[|run| - 1];
      if e.Enter? && e.p == p then []
      else if e == Go(p) then GotBy(s, before, p) + Taken(Run(s, before).queue, Run(s, run).queue)
      else GotBy(s, before, p)
  }

  /** At step j of the run, in its last call, p found these bytes: as many as it wanted or as there were, and
      none only if it wanted none or the write end was closed. */
  ghost predicate FoundAt(s: State, run: seq<Event>, p: Pid, j: nat, n: nat, got: seq<Byte>) {
    && j < |run| && run[j] == Go(p) && (forall i :: j < i < |run| ==> !(run[i].Enter? && run[i].p == p))
    && CanRun(s, run[..j])
    && var was := Run(s, run[..j]);
       && |got| == (if n < |was.queue| then n else |was.queue|) && got == was.queue[..|got|]
       && (was.queue != [] || !was.writeOpen)
  }

  /** A piperead for n bytes that has taken got. */
  ghost predicate Found(s: State, run: seq<Event>, p: Pid, n: nat, got: seq<Byte>) {
    exists j: nat :: FoundAt(s, run, p, j, n, got)
  }

  // ---------------------------------------------------------------- where a call is

  /** In pipewrite of addr with the bytes put so far. */
  predicate Writing(pc: Pc, readOpen: bool, addr: seq<Byte>, put: seq<Byte>) {
    if pc.Unlock? || pc.Idle? then
      (pc.ret == |addr| && put == addr) || (pc.ret == -1 && !readOpen && |put| < |addr| && put == addr[..|put|])
    else
      && pc.k == Write(addr, |put|) && |put| <= |addr| && put == addr[..|put|]
      && ((pc.WakeAcquire? || pc.Wake? || pc.WakeRelease?) && !pc.sleep ==> |put| == |addr|)
  }

  /** Past its turn a call has only to wake the others and to return. */
  predicate PastTurn(pc: Pc) { (pc.WakeAcquire? || pc.Wake? || pc.WakeRelease?) && !pc.sleep }

  predicate Reading(pc: Pc, n: nat, got: seq<Byte>, found: bool) {
    if pc.Unlock? || pc.Idle? then found && pc.ret == |got|
    else if PastTurn(pc) then found && pc.k == Read(n, |got|)
    else pc.k == Read(n, 0) && got == [] && !pc.WakeAcquire? && !pc.Wake? && !pc.WakeRelease?
  }

  predicate Closing(pc: Pc, writable: bool, closed: bool) {
    if pc.Unlock? || pc.Idle? then closed && pc.ret == 0
    else if PastTurn(pc) then closed && pc.k == Close(writable)
    else pc.k == Close(writable) && (pc.Lock? || pc.Body?)
  }

  ghost predicate InCall(s: State, run: seq<Event>, p: Pid)
    requires CanRun(s, run) && p in Run(s, run).procs
  {
    CallsOf(run, p) != [] &&
      var r, put, got := Run(s, run), PutBy(s, run, p), GotBy(s, run, p);
      match Last(CallsOf(run, p))
      case Write(addr, _) => got == [] && Writing(r.procs[p], r.readOpen, addr, put)
      case Read(n, _) => put == [] && Reading(r.procs[p], n, got, Found(s, run, p, n, got))
      case Close(w) => put == [] && got == [] && Closing(r.procs[p], w, if w then !r.writeOpen else !r.readOpen)
  }

  // ---------------------------------------------------------------- one step

  /** What a step of p does to its own place, to the ring and to the ends. */
  ghost predicate TurnIs(s: State, r: State, p: Pid, k: Call)
    requires p in r.procs
  {
    var pc := r.procs[p];
    match k
    case Write(addr, i) =>
      && i <= |addr| && s.queue <= r.queue && r.readOpen == s.readOpen && r.writeOpen == s.writeOpen
      && var j := i + |r.queue| - |s.queue|;
         && j <= |addr| && r.queue == s.queue + addr[i..j]
         && if j == |addr| then pc == WakeAcquire(Write(addr, j), false)
            else |r.queue| == PIPESIZE && pc == if s.readOpen then WakeAcquire(Write(addr, j), true) else Unlock(-1)
    case Read(n, _) =>
      && r.readOpen == s.readOpen && r.writeOpen == s.writeOpen
      && if s.queue == [] && s.writeOpen then r.queue == s.queue && pc == SleepAcquire(k)
         else
           var m := if n < |s.queue| then n else |s.queue|;
           r.queue == s.queue[m..] && pc == WakeAcquire(Read(n, m), false)
    case Close(w) =>
      && r.queue == s.queue && pc == WakeAcquire(k, false)
      && r.readOpen == (s.readOpen && w) && r.writeOpen == (s.writeOpen && !w)
  }

  lemma BodyTurns(s: State, p: Pid)
    requires Inv(s) && Enabled(s, Go(p)) && s.procs[p].Body?
    ensures p in Step(s, p).procs && TurnIs(s, Step(s, p), p, s.procs[p].k)
  {
    assert WellFormed(s, s.procs[p]);
    hide Inv;
  }

  /** Outside its turn a call changes neither the ring nor its ends. */
  lemma OtherSteps(s: State, p: Pid)
    requires Enabled(s, Go(p)) && !s.procs[p].Body?
    ensures Step(s, p).queue == s.queue && Step(s, p).readOpen == s.readOpen && Step(s, p).writeOpen == s.writeOpen
    ensures p in Step(s, p).procs && After(s.procs[p], Step(s, p).procs[p])
  {
    hide Turn;
  }

  predicate After(pc: Pc, qc: Pc) {
    match pc
    case Idle(_) => false
    case Lock(k) => qc == Body(k)
    case Body(_) => false
    case WakeAcquire(k, sleep) => qc == Wake(k, sleep)
    case Wake(k, sleep) => qc == WakeRelease(k, sleep)
    case WakeRelease(k, sleep) => qc == if sleep then SleepAcquire(k) else Unlock(Value(k))
    case Unlock(ret) => qc == Idle(ret)
    case SleepAcquire(k) => qc == SleepUnlock(k)
    case SleepUnlock(k) => qc == SleepMark(k)
    case SleepMark(k) => qc == Asleep(k)
    case Asleep(_) => false
    case Woken(k) => qc == SleepTidy(k)
    case SleepTidy(k) => qc == Lock(k)
  }

  /** A step of q leaves p where it is, or wakes it; ends are closed and never opened. */
  lemma ElsewhereKept(s: State, q: Pid, p: Pid)
    requires Enabled(s, Go(q)) && p in s.procs && p != q
    ensures p in Step(s, q).procs
    ensures Step(s, q).procs[p] == s.procs[p] || (s.procs[p].Asleep? && Step(s, q).procs[p] == Woken(s.procs[p].k))
  {
    hide Turn;
    if s.procs[q].Body? { TurnMoves(s, q, s.procs[q].k); }
  }

  lemma EndsClose(s: State, q: Pid)
    requires Inv(s) && Enabled(s, Go(q))
    ensures (Step(s, q).readOpen ==> s.readOpen) && (Step(s, q).writeOpen ==> s.writeOpen)
  {
    hide Inv, Step, Blocked, WellFormed;
    if s.procs[q].Body? { BodyTurns(s, q); } else { OtherSteps(s, q); }
  }

  // ---------------------------------------------------------------- every run

  lemma FoundLater(s: State, run: seq<Event>, p: Pid, n: nat, got: seq<Byte>)
    requires run != [] && Found(s, run[..|run| - 1], p, n, got) && !(run[|run| - 1].Enter? && run[|run| - 1].p == p)
    ensures Found(s, run, p, n, got)
  {
    hide CanRun, Run;
    var before := run[..|run| - 1];
    var j: nat :| FoundAt(s, before, p, j, n, got);
    assert run[..j] == before[..j];
    forall i | j < i < |run| ensures !(run[i].Enter? && run[i].p == p) {
      if i < |run| - 1 { assert run[i] == before[i]; }
    }
    assert FoundAt(s, run, p, j, n, got);
  }

  lemma EnterInCall(s: State, run: seq<Event>, p: Pid)
    requires run != [] && CanRun(s, run) && run[|run| - 1].Enter? && run[|run| - 1].p == p
    ensures p in Run(s, run).procs && InCall(s, run, p)
  {
    hide Found;
  }

  /** The step is not one of p's. */
  lemma OthersInCall(s: State, run: seq<Event>, p: Pid)
    requires run != [] && CanRun(s, run) && Inv(Run(s, run[..|run| - 1])) && run[|run| - 1].p != p
    requires p in Run(s, run[..|run| - 1]).procs && InCall(s, run[..|run| - 1], p)
    ensures p in Run(s, run).procs && InCall(s, run, p)
  {
    hide Found, Inv, Enabled;
    var before, e := run[..|run| - 1], run[|run| - 1];
    var b := Run(s, before);
    if e.Go? {
      hide Step;
      ElsewhereKept(b, e.p, p);
      EndsClose(b, e.p);
    }
    if Last(CallsOf(run, p)).Read? && Found(s, before, p, Last(CallsOf(run, p)).n, GotBy(s, before, p)) {
      FoundLater(s, run, p, Last(CallsOf(run, p)).n, GotBy(s, before, p));
    }
  }

  lemma TurnWrites(b: State, r: State, p: Pid, addr: seq<Byte>, put: seq<Byte>)
    requires p in b.procs && p in r.procs && b.procs[p].Body? && Writing(b.procs[p], b.readOpen, addr, put)
    requires TurnIs(b, r, p, b.procs[p].k)
    ensures Writing(r.procs[p], r.readOpen, addr, put + Added(b.queue, r.queue)) && Taken(b.queue, r.queue) == []
  {
    var j := |put| + |r.queue| - |b.queue|;
    assert Added(b.queue, r.queue) == addr[|put|..j];
    assert addr[..|put|] + addr[|put|..j] == addr[..j];
    if j == |addr| { assert addr[..j] == addr; }
  }

  lemma WriterInCall(s: State, run: seq<Event>, p: Pid, addr: seq<Byte>)
    requires run != [] && CanRun(s, run) && run[|run| - 1] == Go(p) && p in Run(s, run[..|run| - 1]).procs
    requires var b := Run(s, run[..|run| - 1]);
      && b.procs[p].Body? && GotBy(s, run[..|run| - 1], p) == []
      && Writing(b.procs[p], b.readOpen, addr, PutBy(s, run[..|run| - 1], p))
      && p in Run(s, run).procs && TurnIs(b, Run(s, run), p, b.procs[p].k)
    ensures var r := Run(s, run); GotBy(s, run, p) == [] && Writing(r.procs[p], r.readOpen, addr, PutBy(s, run, p))
  {
    hide Writing, TurnIs, Added, Taken, Step, Enabled;
    var b, r := Run(s, run[..|run| - 1]), Run(s, run);
    TurnWrites(b, r, p, addr, PutBy(s, run[..|run| - 1], p));
  }

  lemma ReaderInCall(s: State, run: seq<Event>, p: Pid, n: nat)
    requires run != [] && CanRun(s, run) && run[|run| - 1] == Go(p) && p in Run(s, run[..|run| - 1]).procs
    requires var b := Run(s, run[..|run| - 1]);
      && b.procs[p].Body? && PutBy(s, run[..|run| - 1], p) == [] && p in Run(s, run).procs && TurnIs(b, Run(s, run), p, b.procs[p].k)
    requires Reading(Run(s, run[..|run| - 1]).procs[p], n, GotBy(s, run[..|run| - 1], p), false)
    ensures var got := GotBy(s, run, p); PutBy(s, run, p) == [] && Reading(Run(s, run).procs[p], n, got, Found(s, run, p, n, got))
  {
    hide Found, Step, Enabled, Added, Taken;
    var b, r := Run(s, run[..|run| - 1]), Run(s, run);
    if b.queue == [] && b.writeOpen {
      SameRing(b.queue);
    } else {
      TurnFinds(s, run, p, n);
      assert [] + Taken(b.queue, r.queue) == Taken(b.queue, r.queue);
    }
  }

  lemma SameRing(q: seq<Byte>)
    ensures Added(q, q) == [] && Taken(q, q) == []
  {
  }

  lemma TurnInCall(s: State, run: seq<Event>, p: Pid)
    requires run != [] && CanRun(s, run) && Inv(Run(s, run[..|run| - 1])) && run[|run| - 1] == Go(p)
    requires p in Run(s, run[..|run| - 1]).procs && InCall(s, run[..|run| - 1], p) && Run(s, run[..|run| - 1]).procs[p].Body?
    ensures p in Run(s, run).procs && InCall(s, run, p)
  {
    hide Inv, Step, Found, Blocked, WellFormed, Writing, Added, Taken;
    var b, k := Run(s, run[..|run| - 1]), Last(CallsOf(run, p));
    BodyTurns(b, p);
    assert CallsOf(run, p) == CallsOf(run[..|run| - 1], p);
    match k {
      case Write(addr, _) => WriterInCall(s, run, p, addr);
      case Read(n, _) => ReaderInCall(s, run, p, n);
      case Close(w) => SameRing(b.queue);
    }
  }

  /** piperead gets what it finds in its turn. */
  lemma TurnFinds(s: State, run: seq<Event>, p: Pid, n: nat)
    requires run != [] && CanRun(s, run) && run[|run| - 1] == Go(p) && p in Run(s, run).procs
    requires var b := Run(s, run[..|run| - 1]); (b.queue != [] || !b.writeOpen) && TurnIs(b, Run(s, run), p, Read(n, 0))
    ensures var b, r := Run(s, run[..|run| - 1]), Run(s, run);
      var m := if n < |b.queue| then n else |b.queue|;
      Taken(b.queue, r.queue) == b.queue[..m] && Added(b.queue, r.queue) == [] && Found(s, run, p, n, b.queue[..m])
  {
    hide Step;
    var b := Run(s, run[..|run| - 1]);
    var m := if n < |b.queue| then n else |b.queue|;
    assert FoundAt(s, run, p, |run| - 1, n, b.queue[..m]);
  }

  lemma StepInCall(s: State, run: seq<Event>, p: Pid)
    requires run != [] && CanRun(s, run) && Inv(Run(s, run[..|run| - 1])) && run[|run| - 1] == Go(p)
    requires InCall(s, run[..|run| - 1], p) && !Run(s, run[..|run| - 1]).procs[p].Body?
    ensures p in Run(s, run).procs && InCall(s, run, p)
  {
    hide Inv, Enabled, Step, Found;
    var before := run[..|run| - 1];
    var b, k := Run(s, before), Last(CallsOf(run, p));
    var put, got := PutBy(s, before, p), GotBy(s, before, p);
    OtherSteps(b, p);
    assert CallsOf(run, p) == CallsOf(before, p) && put + [] == put && got + [] == got;
    if k.Read? && Found(s, before, p, k.n, got) { FoundLater(s, run, p, k.n, got); }
  }

  lemma {:induction false} RunInCall(s: State, run: seq<Event>, p: Pid)
    requires Initial(s) && CanRun(s, run) && p in Run(s, run).procs
    ensures InCall(s, run, p)
    decreases |run|
  {
    hide InCall, Inv;
    assert run != [];
    var before, e := run[..|run| - 1], run[|run| - 1];
    RunKeeps(s, before);
    if e.Enter? && e.p == p {
      EnterInCall(s, run, p);
    } else {
      if e.Go? { SameProcs(Run(s, before), e.p); }
      RunInCall(s, before, p);
      if e.p != p {
        OthersInCall(s, run, p);
      } else if Run(s, before).procs[p].Body? {
        TurnInCall(s, run, p);
      } else {
        StepInCall(s, run, p);
      }
    }
  }

  /** pipewrite that has returned: it gives the number of bytes and they are all in the ring, in order, each put
      there once; or it gives -1, the read end is closed and only a proper prefix was put there. */
  lemma WriteReturns(s: State, run: seq<Event>, p: Pid, addr: seq<Byte>)
    requires Initial(s) && CanRun(s, run) && p in Run(s, run).procs && Run(s, run).procs[p].Idle?
    requires CallsOf(run, p) != [] && Last(CallsOf(run, p)) == Write(addr, 0)
    ensures var r, put := Run(s, run), PutBy(s, run, p);
      || (r.procs[p].ret == |addr| && put == addr)
      || (r.procs[p].ret == -1 && !r.readOpen && |put| < |addr| && put == addr[..|put|])
  {
    RunInCall(s, run, p);
  }

  /** piperead that has returned: it gives the number of bytes it has taken, which are the first of those it found
      in the ring, as many as it wanted or as there were; none only if it wanted none or there were none and the
      write end was closed. */
  lemma ReadReturns(s: State, run: seq<Event>, p: Pid, n: nat)
    requires Initial(s) && CanRun(s, run) && p in Run(s, run).procs && Run(s, run).procs[p].Idle?
    requires CallsOf(run, p) != [] && Last(CallsOf(run, p)) == Read(n, 0)
    ensures Run(s, run).procs[p].ret == |GotBy(s, run, p)| && Found(s, run, p, n, GotBy(s, run, p))
  {
    RunInCall(s, run, p);
  }

  /** pipeclose that has returned. */
  lemma CloseReturns(s: State, run: seq<Event>, p: Pid, writable: bool)
    requires Initial(s) && CanRun(s, run) && p in Run(s, run).procs && Run(s, run).procs[p].Idle?
    requires CallsOf(run, p) != [] && Last(CallsOf(run, p)) == Close(writable)
    ensures var r := Run(s, run); if writable then !r.writeOpen else !r.readOpen
  {
    RunInCall(s, run, p);
  }

  lemma {:induction false} CallEntered(run: seq<Event>, p: Pid) returns (i: nat)
    requires CallsOf(run, p) != []
    ensures i < |run| && run[i] == Enter(p, Last(CallsOf(run, p)))
    decreases |run|
  {
    var e := run[|run| - 1];
    if e.Enter? && e.p == p { i := |run| - 1; } else { i := CallEntered(run[..|run| - 1], p); }
  }

  /** An end is closed only by a call that closes it. */
  lemma {:induction false} ClosedByClose(s: State, run: seq<Event>, writable: bool)
    requires Initial(s) && CanRun(s, run) && if writable then !Run(s, run).writeOpen else !Run(s, run).readOpen
    ensures exists i :: 0 <= i < |run| && run[i].Enter? && run[i].k == Close(writable)
    decreases |run|
  {
    hide Inv, Step, Blocked, WellFormed;
    assert run != [];
    var before, e := run[..|run| - 1], run[|run| - 1];
    var b := Run(s, before);
    RunKeeps(s, before);
    if if writable then !b.writeOpen else !b.readOpen {
      ClosedByClose(s, before, writable);
      var i :| 0 <= i < |before| && before[i].Enter? && before[i].k == Close(writable);
      assert run[i] == before[i];
    } else {
      assert e.Go?;
      if b.procs[e.p].Body? { BodyTurns(b, e.p); } else { OtherSteps(b, e.p); }
      RunInCall(s, before, e.p);
      var i := CallEntered(before, e.p);
      assert run[i] == before[i];
    }
  }

  lemma TurnLedger(s: State, p: Pid, k: Call)
    requires p in s.procs && s.procs[p] == Body(k) && WellFormed(s, s.procs[p])
    ensures var r := Turn(s, p, k);
      && r.sent == s.sent + Added(s.queue, r.queue) && r.received == s.received + Taken(s.queue, r.queue)
      && r.queue == s.queue[|Taken(s.queue, r.queue)|..] + Added(s.queue, r.queue)
  {
    var r := Turn(s, p, k);
    match k
    case Write(addr, i) =>
      assert Added(s.queue, r.queue) == addr[i..StoreTo(s.queue, addr, i)];
      assert Taken(s.queue, r.queue) == [];
    case Read(n, _) =>
      if !(s.queue == [] && s.writeOpen) { assert Taken(s.queue, r.queue) == s.queue[..TakeUpTo(s.queue, n)]; }
      assert Added(s.queue, r.queue) == [];
    case Close(_) =>
  }

  /** The bytes that the ring is said to have been given and to have given are those it has been and has: what
      a step sends it puts behind the others, what it receives it takes from the front. */
  lemma LedgerIsRing(s: State, run: seq<Event>, p: Pid)
    requires Initial(s) && CanRun(s, run) && Enabled(Run(s, run), Go(p))
    ensures var b, r := Run(s, run), Next(Run(s, run), Go(p));
      && r.sent == b.sent + Added(b.queue, r.queue) && r.received == b.received + Taken(b.queue, r.queue)
      && r.queue == b.queue[|Taken(b.queue, r.queue)|..] + Added(b.queue, r.queue)
  {
    hide Turn, CanRun, Run;
    var b := Run(s, run);
    if b.procs[p].Body? { TurnLedger(b, p, b.procs[p].k); }
  }

  // ---------------------------------------------------------------- calls come to an end

  /** How far a call is from its end, at most. */
  function Rank(pc: Pc): nat {
    match pc
    case Idle(_) => 0
    case Lock(_) => 8
    case Body(_) => 7
    case WakeAcquire(_, sleep) => if sleep then 6 else 4
    case Wake(_, sleep) => if sleep then 5 else 3
    case WakeRelease(_, sleep) => if sleep then 4 else 2
    case Unlock(_) => 1
    case SleepAcquire(_) => 3
    case SleepUnlock(_) => 2
    case SleepMark(_) => 1
    case Asleep(_) => 0
    case Woken(_) => 10
    case SleepTidy(_) => 9
  }

  /** Nobody else has a lock. */
  ghost predicate ClearWay(s: State, p: Pid) { p in s.procs && (s.lock == 0 || s.lock == p) && (s.pt == 0 || s.pt == p) }

  lemma Nearer(s: State, p: Pid)
    requires Inv(s) && ClearWay(s, p) && !s.procs[p].Idle? && !s.procs[p].Asleep?
    ensures Enabled(s, Go(p)) && ClearWay(Step(s, p), p) && Rank(Step(s, p).procs[p]) < Rank(s.procs[p])
  {
    assert (OwnsPipe(s.procs[p]) <==> s.lock == p) && (OwnsTable(s.procs[p]) <==> s.pt == p) && WellFormed(s, s.procs[p]);
    StepLockWords(s, p);
    hide Inv, Step, WellFormed;
    if s.procs[p].Body? { BodyTurns(s, p); } else { OtherSteps(s, p); }
  }

  /** A call that finds both locks free, or has them, comes to its end by its own steps: it returns, or it
      sleeps. */
  lemma CallEnds(s: State, run: seq<Event>, p: Pid) returns (es: seq<Event>)
    requires Initial(s) && CanRun(s, run) && ClearWay(Run(s, run), p)
    ensures (forall i :: 0 <= i < |es| ==> es[i] == Go(p)) && CanRun(s, run + es)
    ensures var r := Run(s, run + es); p in r.procs && (r.procs[p].Idle? || r.procs[p].Asleep?)
  {
    hide Initial, CanRun, Run, Rank, Inv, Step;
    es := [];
    assert run + es == run;
    while !(Run(s, run + es).procs[p].Idle? || Run(s, run + es).procs[p].Asleep?)
      invariant forall i :: 0 <= i < |es| ==> es[i] == Go(p)
      invariant CanRun(s, run + es) && ClearWay(Run(s, run + es), p)
      decreases Rank(Run(s, run + es).procs[p])
    {
      RunKeeps(s, run + es);
      Nearer(Run(s, run + es), p);
      var longer := Extend(s, run + es, Go(p));
      assert longer == run + (es + [Go(p)]);
      es := es + [Go(p)];
    }
  }
}
