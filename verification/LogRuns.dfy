/** Every interleaving of `begin_op`, `log_write`, `end_op`, the sector writes of
    `commit` and of `recover_from_log`, and crashes between any two of them. */
module LogRuns {
  import opened Blocks
  import opened RedoLog
  import opened Counting
  import opened Machine

  /** One `log_write` by operation op. */
  datatype Rec = Rec(op: nat, sector: nat, block: Block)

  /** An operation between `begin_op` and `end_op`, and how often it has logged. */
  datatype Active = Active(op: nat, used: nat)

  /** Kernel memory: `log.lh` and the position inside recovery, or the whole in-memory log.
      cache holds the pinned buffers; k counts the sector writes of the running commit. */
  datatype Memory =
    | Booting(secs: seq<nat>, k: nat)
    | Running(active: seq<Active>, secs: seq<nat>, cache: map<nat, Block>, committing: bool, k: nat)

  /** disk, mem and panicked are the machine; the rest is the history the claims are about:
      origin is the disk when the running commit or recovery began, trace all records ever logged,
      current those not yet committed, groups the committed ones, epoch the first operation number
      of the group being collected, lost the operations a crash caught uncommitted. */
  datatype State = State(disk: Disk, mem: Memory, panicked: bool,
                         origin: Disk, nextOp: nat, epoch: nat,
                         trace: seq<Rec>, current: seq<Rec>, groups: seq<seq<Rec>>, lost: set<nat>)

  datatype Event =
    | Begin
    | LogWrite(i: nat, sector: nat, block: Block)
    | End(i: nat)
    | CommitWrite
    | CommitDone
    | Crash
    | BootWrite
    | BootDone

  /** `bread`: the pinned copy if there is one. */
  function Read(s: State, t: nat): Block
    requires s.mem.Running? && t < |s.disk|
  {
    if t in s.mem.cache then s.mem.cache[t] else s.disk[t]
  }

  /** A panicked kernel can only be switched off. */
  predicate Enabled(a: Area, s: State, e: Event) {
    && (s.panicked ==> e.Crash?) && Fits(s.disk, a)
    && match e
       case Begin =>
         s.mem.Running? && !s.mem.committing && |s.mem.secs| + (|s.mem.active| + 1) * MAXOPBLOCKS <= LOGSIZE
       case LogWrite(i, sector, _) =>
         && s.mem.Running? && i < |s.mem.active|
         && Home(s.disk, a, sector) && sector < TWO32
       case End(i) => s.mem.Running? && i < |s.mem.active|
       case CommitWrite =>
         && s.mem.Running? && s.mem.committing && s.mem.k < CommitLength(s.mem.secs)
         && |s.mem.secs| < a.size && |s.mem.secs| <= LOGSIZE
         && forall j :: 0 <= j < |s.mem.secs| ==> s.mem.secs[j] < TWO32 && s.mem.secs[j] < |s.disk|
       case CommitDone => s.mem.Running? && s.mem.committing && s.mem.k == CommitLength(s.mem.secs)
       case Crash => Word(s.disk[a.start], 0) <= LOGSIZE
       case BootWrite =>
         && s.mem.Booting? && s.mem.k <= |s.mem.secs| < a.size
         && forall j :: 0 <= j < |s.mem.secs| ==> s.mem.secs[j] < |s.disk|
       case BootDone => s.mem.Booting? && s.mem.k == |s.mem.secs| + 1
  }

  /** The operations that wrote recs. */
  function Ops(recs: seq<Rec>): set<nat> {
    set i | 0 <= i < |recs| :: recs[i].op
  }

  /** The next sector write of `commit`, from what memory and disk hold now. */
  function NextCommitWrite(a: Area, s: State): (w: Write)
    requires Enabled(a, s, CommitWrite)
    ensures w.sector < |s.disk|
  {
    var secs, n, k := s.mem.secs, |s.mem.secs|, s.mem.k;
    if k < n then Write(a.start + 1 + k, Read(s, secs[k]))
    else if k == n then Write(a.start, MakeHead(s.disk[a.start], secs))
    else if k < 2 * n + 1 then Write(secs[k - n - 1], s.disk[a.start + k - n])
    else Write(a.start, MakeHead(s.disk[a.start], []))
  }

  function NextBootWrite(a: Area, s: State): (w: Write)
    requires Enabled(a, s, BootWrite)
    ensures w.sector < |s.disk|
  {
    if s.mem.k < |s.mem.secs| then Write(s.mem.secs[s.mem.k], s.disk[a.start + 1 + s.mem.k])
    else Write(a.start, MakeHead(s.disk[a.start], []))
  }

  function Step(a: Area, s: State, e: Event): State
    requires Enabled(a, s, e)
  {
    match e
    case Begin =>
      s.(mem := s.mem.(active := s.mem.active + [Active(s.nextOp, 0)]), nextOp := s.nextOp + 1)
    case LogWrite(i, sector, block) =>
      if |s.mem.secs| >= LOGSIZE || |s.mem.secs| >= a.size - 1 then s.(panicked := true) else
      var op := s.mem.active[i];
      var mem := s.mem.(active := s.mem.active[i := op.(used := op.used + 1)],
                        secs := Absorb(s.mem.secs, sector), cache := s.mem.cache[sector := block]);
      var rec := Rec(op.op, sector, block);
      s.(mem := mem, trace := s.trace + [rec], current := s.current + [rec])
    case End(i) =>
      if s.mem.committing then s.(panicked := true) else
      var active := Remove(s.mem.active, i);
      if active == [] then s.(mem := s.mem.(active := [], committing := true, k := 0), origin := s.disk)
      else s.(mem := s.mem.(active := active))
    case CommitWrite =>
      // the first bread of write_log finds every buffer pinned
      if s.mem.k == 0 && |s.mem.secs| >= NBUF then s.(panicked := true) else
      var t := s.(disk := Store(s.disk, NextCommitWrite(a, s)), mem := s.mem.(k := s.mem.k + 1));
      if s.mem.k == |s.mem.secs| then t.(groups := s.groups + [s.current], current := [], epoch := s.nextOp) else t
    case CommitDone =>
      s.(mem := Running(s.mem.active, [], map[], false, 0))
    case Crash =>
      s.(mem := Booting(HeadSectors(s.disk[a.start]), 0), panicked := false, origin := s.disk,
         current := [], epoch := s.nextOp, lost := s.lost + Ops(s.current))
    case BootWrite =>
      s.(disk := Store(s.disk, NextBootWrite(a, s)), mem := s.mem.(k := s.mem.k + 1))
    case BootDone =>
      s.(mem := Running([], [], map[], false, 0))
  }

  /** Power-on with a disk image. */
  function Boot(a: Area, d: Disk): State
    requires Sane(d, a)
  {
    State(d, Booting(Logged(d, a), 0), false, d, 0, 0, [], [], [], {})
  }

  /** The events es can happen one after the other from s. */
  predicate CanRun(a: Area, s: State, es: seq<Event>)
    decreases |es|
  {
    es == [] || (Enabled(a, s, es[0]) && CanRun(a, Step(a, s, es[0]), es[1..]))
  }

  function Run(a: Area, s: State, es: seq<Event>): State
    requires CanRun(a, s, es)
    decreases |es|
  {
    if es == [] then s else Run(a, Step(a, s, es[0]), es[1..])
  }

  // ---------------------------------------------------------------- the simple view: groups applied in order

  function EffectRecs(recs: seq<Rec>, t: nat, b: Block): Block {
    if recs == [] then b
    else if recs[|recs| - 1].sector == t then recs[|recs| - 1].block
    else EffectRecs(recs[..|recs| - 1], t, b)
  }

  /** Contents of sector t after the groups, in commit order, on top of contents b. */
  function Effect(groups: seq<seq<Rec>>, t: nat, b: Block): Block {
    if groups == [] then b
    else EffectRecs(groups[|groups| - 1], t, Effect(groups[..|groups| - 1], t, b))
  }

  lemma EffectAppend(groups: seq<seq<Rec>>, g: seq<Rec>, t: nat, b: Block)
    ensures Effect(groups + [g], t, b) == EffectRecs(g, t, Effect(groups, t, b))
  {
    assert (groups + [g])[..|groups|] == groups;
  }

  // ---------------------------------------------------------------- disk invariant

  ghost predicate HomeIs(d: Disk, a: Area, base: Disk, groups: seq<seq<Rec>>)
    requires Sane(base, a) && |d| == |base|
  {
    forall t: nat :: Home(d, a, t) ==> d[t] == Effect(groups, t, Truth(base, a, t))
  }

  ghost predicate TruthIs(d: Disk, a: Area, base: Disk, groups: seq<seq<Rec>>)
    requires Sane(base, a) && |d| == |base| && Sane(d, a)
  {
    forall t: nat :: Home(d, a, t) ==> Truth(d, a, t) == Effect(groups, t, Truth(base, a, t))
  }

  /** Memory over disk shows the uncommitted records on top of the committed groups. */
  ghost predicate CacheIs(d: Disk, a: Area, secs: seq<nat>, cache: map<nat, Block>, current: seq<Rec>) {
    && (forall t: nat :: t in cache <==> Find(secs, t) < |secs|)
    && (forall t: nat :: Home(d, a, t) ==>
          EffectRecs(current, t, d[t]) == if t in cache then cache[t] else d[t])
  }

  ghost function Pinned(secs: seq<nat>, cache: map<nat, Block>): (r: seq<Block>)
    ensures |r| == |secs|
  {
    seq(|secs|, i requires 0 <= i < |secs| => if secs[i] in cache then cache[secs[i]] else Zero())
  }

  ghost predicate BootInv(a: Area, base: Disk, s: State)
    requires Sane(base, a)
  {
    && s.mem.Booting?
    && Sane(s.origin, a) && |s.origin| == |base|
    && s.mem.secs == Logged(s.origin, a) && s.mem.k <= |s.mem.secs| + 1
    && s.disk == Recovering(s.origin, a, s.mem.k)
    && TruthIs(s.origin, a, base, s.groups)
    && s.current == []
  }

  ghost predicate OpenInv(a: Area, base: Disk, s: State)
    requires Sane(base, a)
  {
    && s.mem.Running? && !s.mem.committing
    && |s.disk| == |base| && Sane(s.disk, a) && Logged(s.disk, a) == []
    && Loggable(s.disk, a, s.mem.secs)
    && HomeIs(s.disk, a, base, s.groups)
    && CacheIs(s.disk, a, s.mem.secs, s.mem.cache, s.current)
    && (s.mem.active == [] ==> s.mem.secs == [])
    && (s.mem.secs == [] ==> s.current == [])
  }

  ghost predicate CommitInv(a: Area, base: Disk, s: State)
    requires Sane(base, a)
  {
    && s.mem.Running? && s.mem.committing
    && s.mem.active == []
    && |s.origin| == |base| && Sane(s.origin, a) && Logged(s.origin, a) == []
    && Loggable(s.origin, a, s.mem.secs) && s.mem.k <= CommitLength(s.mem.secs)
    && s.disk == Committing(s.origin, a, s.mem.secs, Pinned(s.mem.secs, s.mem.cache), s.mem.k)
    && (forall t: nat :: t in s.mem.cache <==> Find(s.mem.secs, t) < |s.mem.secs|)
    && (s.mem.k <= |s.mem.secs| ==>
          HomeIs(s.origin, a, base, s.groups) && CacheIs(s.origin, a, s.mem.secs, s.mem.cache, s.current))
    && (s.mem.k > |s.mem.secs| || s.mem.secs == [] ==> s.current == [])
    && (s.mem.k > |s.mem.secs| ==>
          forall t: nat :: Home(s.origin, a, t) ==>
            After(s.origin, s.mem.secs, Pinned(s.mem.secs, s.mem.cache), t) == Effect(s.groups, t, Truth(base, a, t)))
  }

  ghost predicate DiskInv(a: Area, base: Disk, s: State)
    requires Sane(base, a)
  {
    if s.mem.Booting? then BootInv(a, base, s)
    else if s.mem.committing then CommitInv(a, base, s)
    else OpenInv(a, base, s)
  }

  /** At every moment the disk means exactly the committed groups. */
  lemma DiskMeans(a: Area, base: Disk, s: State)
    requires Sane(base, a) && DiskInv(a, base, s)
    ensures |s.disk| == |base| && Sane(s.disk, a) && TruthIs(s.disk, a, base, s.groups)
  {
    if s.mem.Booting? {
      RecoveryKeepsTruth(s.origin, a, s.mem.k);
    } else if s.mem.committing {
      CommitAtomic(s.origin, a, s.mem.secs, Pinned(s.mem.secs, s.mem.cache), s.mem.k);
      if s.mem.secs == [] {
        forall t: nat | Home(s.disk, a, t) ensures Truth(s.disk, a, t) == s.disk[t] { Meaning(s.disk, a, [], t); }
      }
    } else {
      forall t: nat | Home(s.disk, a, t) ensures Truth(s.disk, a, t) == s.disk[t] { Meaning(s.disk, a, [], t); }
    }
  }

  // ---------------------------------------------------------------- reservations

  /** An operation that logs has not used up what begin_op reserved for it. */
  predicate Within(s: State, e: Event) {
    e.LogWrite? && s.mem.Running? && e.i < |s.mem.active| ==> s.mem.active[e.i].used < MAXOPBLOCKS
  }

  /** So it is at every step of the run. */
  predicate RunWithin(a: Area, s: State, es: seq<Event>)
    requires CanRun(a, s, es)
    decreases |es|
  {
    es == [] || (Within(s, es[0]) && RunWithin(a, Step(a, s, es[0]), es[1..]))
  }

  function Used(active: seq<Active>): nat {
    if active == [] then 0 else active[0].used + Used(active[1..])
  }

  /** `log.lh.n` plus what is still reserved for the outstanding operations. */
  ghost predicate BudgetInv(s: State) {
    s.mem.Running? ==>
      && (forall i :: 0 <= i < |s.mem.active| ==> s.mem.active[i].used <= MAXOPBLOCKS)
      && |s.mem.secs| + |s.mem.active| * MAXOPBLOCKS - Used(s.mem.active) <= LOGSIZE
  }

  lemma {:induction false} UsedConcat(xs: seq<Active>, ys: seq<Active>)
    ensures Used(xs + ys) == Used(xs) + Used(ys)
  {
    if xs == [] {
      assert xs + ys == ys;
    } else {
      assert (xs + ys)[1..] == xs[1..] + ys;
      UsedConcat(xs[1..], ys);
    }
  }

  lemma UsedAt(xs: seq<Active>, i: nat)
    requires i < |xs|
    ensures Used(xs) == Used(Remove(xs, i)) + xs[i].used
    ensures forall x :: Used(xs[i := x]) == Used(Remove(xs, i)) + x.used
  {
    UsedConcat(xs[..i], xs[i + 1..]);
    forall x ensures Used(xs[i := x]) == Used(Remove(xs, i)) + x.used {
      assert xs[i := x] == xs[..i] + ([x] + xs[i + 1..]);
      UsedConcat(xs[..i], [x] + xs[i + 1..]);
    }
    assert xs[i := xs[i]] == xs;
  }

  lemma {:induction false} UsedBound(xs: seq<Active>)
    requires forall i :: 0 <= i < |xs| ==> xs[i].used <= MAXOPBLOCKS
    ensures Used(xs) <= |xs| * MAXOPBLOCKS
  {
    if xs != [] { UsedBound(xs[1..]); }
  }

  lemma BudgetKept(a: Area, s: State, e: Event)
    requires BudgetInv(s) && Enabled(a, s, e) && Within(s, e)
    ensures BudgetInv(Step(a, s, e))
  {
    hide Used;
    match e {
      case Begin =>
        UsedConcat(s.mem.active, [Active(s.nextOp, 0)]);
        UsedBound(s.mem.active);
      case LogWrite(i, _, _) => UsedAt(s.mem.active, i);
      case End(i) =>
        UsedAt(s.mem.active, i);
        if |s.mem.active| == 1 { UsedBound(s.mem.active); }
      case _ =>
    }
  }

  /** With that kept, an operation that may still log finds room. */
  lemma RoomToLog(a: Area, s: State, i: nat)
    requires BudgetInv(s) && s.mem.Running? && i < |s.mem.active| && s.mem.active[i].used < MAXOPBLOCKS
    ensures |s.mem.secs| < LOGSIZE && (a.size > LOGSIZE ==> |s.mem.secs| < a.size - 1)
  {
    UsedAt(s.mem.active, i);
    var rest := Remove(s.mem.active, i);
    assert forall j :: 0 <= j < |rest| ==> rest[j].used <= MAXOPBLOCKS;
    UsedBound(rest);
  }

  // ---------------------------------------------------------------- operations and groups

  /** The records of operation x, in order. */
  function By(recs: seq<Rec>, x: nat): seq<Rec> {
    if recs == [] then []
    else if recs[|recs| - 1].op == x then By(recs[..|recs| - 1], x) + [recs[|recs| - 1]]
    else By(recs[..|recs| - 1], x)
  }

  /** A group holds all records of each of its operations, and operations older than epoch only. */
  ghost predicate Whole(recs: seq<Rec>, trace: seq<Rec>, epoch: nat) {
    forall x: nat :: By(recs, x) != [] ==> x < epoch && By(recs, x) == By(trace, x)
  }

  ghost predicate Apart(recs: seq<Rec>, recs': seq<Rec>) {
    forall x: nat :: By(recs, x) != [] ==> By(recs', x) == []
  }

  ghost predicate OpInv(s: State) {
    && s.epoch <= s.nextOp
    && (s.mem.Running? && s.mem.committing ==> s.mem.active == [])
    && (s.mem.Running? ==> forall i :: 0 <= i < |s.mem.active| ==> s.epoch <= s.mem.active[i].op < s.nextOp)
    && (forall x :: s.nextOp <= x ==> By(s.trace, x) == [])
    && (forall x :: s.epoch <= x ==> By(s.current, x) == By(s.trace, x))
    && (forall x :: 0 <= x < s.epoch ==> By(s.current, x) == [])
    && (forall g :: 0 <= g < |s.groups| ==> Whole(s.groups[g], s.trace, s.epoch))
    && (forall g, h :: 0 <= g < h < |s.groups| ==> Apart(s.groups[g], s.groups[h]))
  }

  ghost predicate Committed(groups: seq<seq<Rec>>, x: nat) {
    exists g :: 0 <= g < |groups| && By(groups[g], x) != []
  }

  /** Operations of earlier groups and boots were committed or lost, never both. */
  ghost predicate FateInv(s: State) {
    && (forall x: nat :: x < s.epoch && By(s.trace, x) != [] ==> x in s.lost || Committed(s.groups, x))
    && (forall x :: x in s.lost ==> x < s.epoch && By(s.trace, x) != [] && !Committed(s.groups, x))
  }

  lemma {:induction false} ByOps(recs: seq<Rec>, x: nat)
    ensures By(recs, x) != [] <==> x in Ops(recs)
  {
    if recs != [] {
      var n := |recs| - 1;
      ByOps(recs[..n], x);
      assert recs == recs[..n] + [recs[n]];
      assert x in Ops(recs) <==> x in Ops(recs[..n]) || recs[n].op == x by {
        if x in Ops(recs) {
          var i :| 0 <= i < |recs| && recs[i].op == x;
          if i < n { assert recs[..n][i].op == x; }
        }
        if x in Ops(recs[..n]) {
          var i :| 0 <= i < n && recs[..n][i].op == x;
          assert recs[i].op == x;
        }
      }
    }
  }

  lemma CommittedAppend(groups: seq<seq<Rec>>, recs: seq<Rec>, x: nat)
    ensures Committed(groups + [recs], x) <==> Committed(groups, x) || By(recs, x) != []
  {
    if Committed(groups, x) {
      var g :| 0 <= g < |groups| && By(groups[g], x) != [];
      assert (groups + [recs])[g] == groups[g];
    }
    assert (groups + [recs])[|groups|] == recs;
  }

  lemma ByAppend(recs: seq<Rec>, r: Rec, x: nat)
    ensures By(recs + [r], x) == if r.op == x then By(recs, x) + [r] else By(recs, x)
  {
    assert (recs + [r])[..|recs|] == recs;
  }

  lemma WholeKept(recs: seq<Rec>, trace: seq<Rec>, epoch: nat, r: Rec)
    requires Whole(recs, trace, epoch) && r.op >= epoch
    ensures Whole(recs, trace + [r], epoch)
  {
    forall x: nat | By(recs, x) != [] { ByAppend(trace, r, x); }
  }

  lemma OpLogWriteKept(a: Area, s: State, e: Event)
    requires OpInv(s) && Enabled(a, s, e) && e.LogWrite? && !Step(a, s, e).panicked
    ensures OpInv(Step(a, s, e))
  {
    var s' := Step(a, s, e);
    var r := s'.trace[|s.trace|];
    forall x: nat
      ensures By(s'.trace, x) == if r.op == x then By(s.trace, x) + [r] else By(s.trace, x)
      ensures By(s'.current, x) == if r.op == x then By(s.current, x) + [r] else By(s.current, x)
    {
      ByAppend(s.trace, r, x);
      ByAppend(s.current, r, x);
    }
    forall g | 0 <= g < |s.groups| ensures Whole(s'.groups[g], s'.trace, s'.epoch) {
      WholeKept(s.groups[g], s.trace, s.epoch, r);
    }
  }

  /** The header write turns the current records into a group. */
  lemma OpHeaderKept(s: State)
    requires OpInv(s)
    ensures Whole(s.current, s.trace, s.nextOp)
    ensures forall g :: 0 <= g < |s.groups| ==> Apart(s.groups[g], s.current) && Whole(s.groups[g], s.trace, s.nextOp)
  {
    forall g | 0 <= g < |s.groups| ensures Apart(s.groups[g], s.current) && Whole(s.groups[g], s.trace, s.nextOp) {
      assert Whole(s.groups[g], s.trace, s.epoch);
    }
    forall x: nat | By(s.current, x) != [] ensures x < s.nextOp && By(s.current, x) == By(s.trace, x) {
      assert s.epoch <= x;
    }
  }

  lemma OpKept(a: Area, s: State, e: Event)
    requires OpInv(s) && Enabled(a, s, e)
    ensures OpInv(Step(a, s, e))
  {
    hide Store, NextCommitWrite, NextBootWrite;
    if e.LogWrite? {
      if !Step(a, s, e).panicked { OpLogWriteKept(a, s, e); }
    } else {
      OpHeaderKept(s);
    }
  }

  lemma FateTrace(s: State, t: State, r: Rec)
    requires OpInv(s) && FateInv(s) && r.op >= s.epoch
    requires t.trace == s.trace + [r] && t.groups == s.groups && t.lost == s.lost && t.epoch == s.epoch
    ensures FateInv(t)
  {
    forall x: nat { ByAppend(s.trace, r, x); }
  }

  lemma FateGroup(s: State, t: State)
    requires OpInv(s) && FateInv(s)
    requires t.trace == s.trace && t.groups == s.groups + [s.current] && t.lost == s.lost && t.epoch == s.nextOp
    ensures FateInv(t)
  {
    forall x: nat { CommittedAppend(s.groups, s.current, x); }
    hide Committed;
  }

  lemma FateLost(s: State, t: State)
    requires OpInv(s) && FateInv(s)
    requires t.trace == s.trace && t.groups == s.groups && t.lost == s.lost + Ops(s.current) && t.epoch == s.nextOp
    ensures FateInv(t)
  {
    hide Ops;
    forall x: nat { ByOps(s.current, x); }
    forall x: nat | s.epoch <= x ensures !Committed(s.groups, x) { NotYetCommitted(s, x); }
    hide Committed;
  }

  lemma NotYetCommitted(s: State, x: nat)
    requires OpInv(s) && s.epoch <= x
    ensures !Committed(s.groups, x)
  {
    forall g | 0 <= g < |s.groups| ensures By(s.groups[g], x) == [] { assert Whole(s.groups[g], s.trace, s.epoch); }
  }

  lemma FateKept(a: Area, s: State, e: Event)
    requires OpInv(s) && FateInv(s) && Enabled(a, s, e)
    ensures FateInv(Step(a, s, e))
  {
    hide Store, NextCommitWrite, NextBootWrite, Ops, By, Committed;
    var s' := Step(a, s, e);
    if e.LogWrite? {
      if s'.trace != s.trace { FateTrace(s, s', s'.trace[|s.trace|]); }
    } else if e.CommitWrite? {
      if s'.groups != s.groups { FateGroup(s, s'); }
    } else if e.Crash? {
      FateLost(s, s');
    }
  }

  // ---------------------------------------------------------------- the disk invariant is kept

  lemma EffectRecsAppend(recs: seq<Rec>, r: Rec, t: nat, b: Block)
    ensures EffectRecs(recs + [r], t, b) == if r.sector == t then r.block else EffectRecs(recs, t, b)
  {
    assert (recs + [r])[..|recs|] == recs;
  }

  lemma CacheKept(d: Disk, a: Area, secs: seq<nat>, cache: map<nat, Block>, current: seq<Rec>, r: Rec)
    requires CacheIs(d, a, secs, cache, current)
    ensures CacheIs(d, a, Absorb(secs, r.sector), cache[r.sector := r.block], current + [r])
  {
    forall t: nat { AbsorbFind(secs, r.sector, t); }
    forall t: nat | Home(d, a, t) { EffectRecsAppend(current, r, t, d[t]); }
  }

  lemma LogWriteKept(a: Area, base: Disk, s: State, i: nat, x: nat, b: Block)
    requires Sane(base, a) && OpenInv(a, base, s)
    requires Enabled(a, s, LogWrite(i, x, b)) && |s.mem.secs| < LOGSIZE && |s.mem.secs| < a.size - 1
    ensures OpenInv(a, base, Step(a, s, LogWrite(i, x, b)))
  {
    AbsorbLoggable(s.disk, a, s.mem.secs, x);
    CacheKept(s.disk, a, s.mem.secs, s.mem.cache, s.current, Rec(s.mem.active[i].op, x, b));
  }

  /** Commit's next write, computed from memory and the partly written disk, is write k of the transaction. */
  lemma CommitWriteIsTxn(a: Area, s: State)
    requires Enabled(a, s, CommitWrite) && Loggable(s.origin, a, s.mem.secs)
    requires forall i :: 0 <= i < |s.mem.secs| ==> s.mem.secs[i] in s.mem.cache
    requires s.disk == Committing(s.origin, a, s.mem.secs, Pinned(s.mem.secs, s.mem.cache), s.mem.k)
    ensures Store(s.disk, NextCommitWrite(a, s))
         == Committing(s.origin, a, s.mem.secs, Pinned(s.mem.secs, s.mem.cache), s.mem.k + 1)
  {
    var secs, k, n := s.mem.secs, s.mem.k, |s.mem.secs|;
    var blocks := Pinned(secs, s.mem.cache);
    var head := MakeHead(s.origin[a.start], secs);
    var empty := MakeHead(head, []);
    assert NextCommitWrite(a, s) == TxnWrite(a, secs, blocks, head, empty, k) by {
      TxnAt(s.origin, a, secs, blocks, head, empty, k, a.start);
      if n < k < 2 * n + 1 { TxnAt(s.origin, a, secs, blocks, head, empty, k, a.start + k - n); }
    }
  }

  lemma HeaderCommits(d: Disk, a: Area, base: Disk, groups: seq<seq<Rec>>, secs: seq<nat>, cache: map<nat, Block>,
                      current: seq<Rec>, t: nat)
    requires Sane(base, a) && |d| == |base| && Home(d, a, t)
    requires HomeIs(d, a, base, groups) && CacheIs(d, a, secs, cache, current)
    ensures After(d, secs, Pinned(secs, cache), t) == Effect(groups + [current], t, Truth(base, a, t))
  {
    EffectAppend(groups, current, t, Truth(base, a, t));
  }

  lemma CommitWriteKept(a: Area, base: Disk, s: State)
    requires Sane(base, a) && CommitInv(a, base, s)
    requires Enabled(a, s, CommitWrite) && (s.mem.k == 0 ==> |s.mem.secs| < NBUF)
    ensures CommitInv(a, base, Step(a, s, CommitWrite))
  {
    hide Committing, Pinned, Truth, Effect, HomeIs, CacheIs, Logged, After;
    var s' := Step(a, s, CommitWrite);
    assert s'.mem == s.mem.(k := s.mem.k + 1) && s'.origin == s.origin;
    assert s'.disk == Committing(s.origin, a, s.mem.secs, Pinned(s.mem.secs, s.mem.cache), s.mem.k + 1) by {
      forall i | 0 <= i < |s.mem.secs| ensures s.mem.secs[i] in s.mem.cache { FindMember(s.mem.secs, i); }
      CommitWriteIsTxn(a, s);
    }
    if s.mem.k == |s.mem.secs| {
      forall t: nat | Home(s.origin, a, t) {
        HeaderCommits(s.origin, a, base, s.groups, s.mem.secs, s.mem.cache, s.current, t);
      }
    }
  }

  lemma CommitDoneKept(a: Area, base: Disk, s: State)
    requires Sane(base, a) && CommitInv(a, base, s)
    requires Enabled(a, s, CommitDone)
    ensures OpenInv(a, base, Step(a, s, CommitDone))
  {
    var s' := Step(a, s, CommitDone);
    DiskMeans(a, base, s);
    CommitAtomic(s.origin, a, s.mem.secs, Pinned(s.mem.secs, s.mem.cache), s.mem.k);
    forall t: nat | Home(s.disk, a, t) ensures Truth(s.disk, a, t) == s.disk[t] { Meaning(s.disk, a, [], t); }
  }

  /** Recovery's next write, computed from the partly installed disk, is write k of the recovery. */
  lemma BootWriteIsRecovery(a: Area, base: Disk, s: State)
    requires Sane(base, a) && BootInv(a, base, s) && Enabled(a, s, BootWrite)
    ensures Store(s.disk, NextBootWrite(a, s)) == Recovering(s.origin, a, s.mem.k + 1)
  {
    hide TruthIs, Truth, Effect, Find;
    var secs, k := s.mem.secs, s.mem.k;
    var empty := MakeHead(s.origin[a.start], []);
    InstalledAt(s.origin, a, secs, empty, k, a.start);
    if k < |secs| {
      HomeNotLogged(s.origin, a, secs, a.start + 1 + k);
      InstalledAt(s.origin, a, secs, empty, k, a.start + 1 + k);
    }
  }

  lemma BootWriteKept(a: Area, base: Disk, s: State)
    requires Sane(base, a) && BootInv(a, base, s) && Enabled(a, s, BootWrite)
    ensures BootInv(a, base, Step(a, s, BootWrite))
  {
    hide TruthIs, Truth, Effect, Recovering, Store, NextBootWrite;
    BootWriteIsRecovery(a, base, s);
  }

  lemma BootDoneKept(a: Area, base: Disk, s: State)
    requires Sane(base, a) && BootInv(a, base, s) && Enabled(a, s, BootDone)
    ensures OpenInv(a, base, Step(a, s, BootDone))
  {
    DiskMeans(a, base, s);
    RecoveryKeepsTruth(s.origin, a, s.mem.k);
    forall t: nat | Home(s.disk, a, t) ensures Truth(s.disk, a, t) == s.disk[t] { Meaning(s.disk, a, [], t); }
  }

  /** A commit of as many sectors as there are buffers is about to begin. */
  predicate Overfull(s: State) {
    s.mem.Running? && s.mem.committing && s.mem.k == 0 && |s.mem.secs| == NBUF
  }

  /** An operation is open and the header or the log area has no entry left: whatever is logged next is too
      big. */
  predicate Crammed(a: Area, s: State) {
    s.mem.Running? && !s.mem.committing && s.mem.active != [] && (|s.mem.secs| == LOGSIZE || |s.mem.secs| == a.size - 1)
  }

  ghost predicate Inv(a: Area, base: Disk, s: State) {
    && Sane(base, a) && (s.panicked ==> Overfull(s) || Crammed(a, s))
    && DiskInv(a, base, s) && OpInv(s) && FateInv(s)
  }

  /** Panicking changes nothing else. */
  lemma PanickedSame(a: Area, base: Disk, s: State)
    requires Sane(base, a) && DiskInv(a, base, s)
    ensures DiskInv(a, base, s.(panicked := true))
  {
  }

  /** begin_op, and end_op before the commit. */
  lemma OpenKept(a: Area, base: Disk, s: State, e: Event)
    requires Sane(base, a) && OpenInv(a, base, s) && s.mem.Running? && !s.mem.committing
    requires (e.Begin? || e.End?) && Enabled(a, s, e)
    ensures DiskInv(a, base, Step(a, s, e))
  {
    hide Truth, Effect, HomeIs, Remove;
  }

  lemma CrashKept(a: Area, base: Disk, s: State)
    requires Sane(base, a) && DiskInv(a, base, s) && Enabled(a, s, Crash)
    ensures DiskInv(a, base, Step(a, s, Crash))
  {
    hide OpenInv, CommitInv;
    DiskMeans(a, base, s);
  }

  lemma NoneActive(a: Area, base: Disk, s: State)
    requires Sane(base, a) && CommitInv(a, base, s)
    ensures s.mem.active == []
  {
  }

  lemma DiskKept(a: Area, base: Disk, s: State, e: Event)
    requires Inv(a, base, s) && Enabled(a, s, e)
    ensures DiskInv(a, base, Step(a, s, e))
  {
    hide OpInv, FateInv, OpenInv, CommitInv, BootInv;
    if Step(a, s, e) == s.(panicked := true) {
      PanickedSame(a, base, s);
      return;
    }
    if s.mem.Running? && s.mem.committing { NoneActive(a, base, s); }
    match e {
      case Begin => OpenKept(a, base, s, e);
      case LogWrite(i, x, b) => LogWriteKept(a, base, s, i, x, b);
      case End(i) => OpenKept(a, base, s, e);
      case CommitWrite => CommitWriteKept(a, base, s);
      case CommitDone => CommitDoneKept(a, base, s);
      case Crash => CrashKept(a, base, s);
      case BootWrite => BootWriteKept(a, base, s);
      case BootDone => BootDoneKept(a, base, s);
    }
  }

  lemma PanicKept(a: Area, base: Disk, s: State, e: Event)
    requires Inv(a, base, s) && Enabled(a, s, e)
    ensures var r := Step(a, s, e); r.panicked ==> Overfull(r) || Crammed(a, r)
  {
    hide OpInv, FateInv, HomeIs, CacheIs, Truth, Effect, Committing;
  }

  lemma StepKept(a: Area, base: Disk, s: State, e: Event)
    requires Inv(a, base, s) && Enabled(a, s, e)
    ensures Inv(a, base, Step(a, s, e))
  {
    hide OpInv, FateInv, DiskInv, Step, Enabled, Overfull, Crammed;
    OpKept(a, s, e);
    FateKept(a, s, e);
    DiskKept(a, base, s, e);
    PanicKept(a, base, s, e);
  }

  // ---------------------------------------------------------------- what the events say

  /** What a reader of the events alone can note down: the operations open, the sectors logged since the last
      commit, the sector writes of the running commit, and the records that follow from that. */
  datatype Notes = Notes(active: seq<nat>, next: nat, sectors: set<nat>, writes: nat,
                         trace: seq<Rec>, current: seq<Rec>, groups: seq<seq<Rec>>, lost: set<nat>)

  const BLANK := Notes([], 0, {}, 0, [], [], [], {})

  /** A log_write counts unless the log is used up.  A group is committed by the sector write behind its
      last log copy.  A crash forgets what is not committed. */
  function Note(a: Area, n: Notes, e: Event): Notes {
    match e
    case Begin => n.(active := n.active + [n.next], next := n.next + 1)
    case LogWrite(i, sector, block) =>
      if i >= |n.active| || |n.sectors| >= LOGSIZE || |n.sectors| + 1 >= a.size then n else
      var rec := Rec(n.active[i], sector, block);
      n.(sectors := n.sectors + {sector}, trace := n.trace + [rec], current := n.current + [rec])
    case End(i) => if i < |n.active| then n.(active := n.active[..i] + n.active[i + 1..], writes := 0) else n
    case CommitWrite =>
      if n.writes == 0 && |n.sectors| >= NBUF then n
      else if n.writes == |n.sectors| then n.(writes := n.writes + 1, groups := n.groups + [n.current], current := [])
      else n.(writes := n.writes + 1)
    case CommitDone => n.(sectors := {})
    case Crash => n.(active := [], sectors := {}, current := [], lost := n.lost + Ops(n.current))
    case BootWrite => n
    case BootDone => n
  }

  function Noted(a: Area, n: Notes, es: seq<Event>): Notes
    decreases |es|
  {
    if es == [] then n else Noted(a, Note(a, n, es[0]), es[1..])
  }

  /** The history that the state carries is the one noted down. */
  predicate SameHistory(n: Notes, s: State) {
    n.trace == s.trace && n.current == s.current && n.groups == s.groups && n.lost == s.lost
  }

  ghost predicate Agrees(n: Notes, s: State) {
    && n.next == s.nextOp && SameHistory(n, s)
    && if s.mem.Booting? then n.active == [] && n.sectors == {}
       else
         && |n.active| == |s.mem.active| && (forall i :: 0 <= i < |n.active| ==> n.active[i] == s.mem.active[i].op)
         && n.sectors == Elements(s.mem.secs) && (s.mem.committing ==> n.writes == s.mem.k)
  }

  lemma AbsorbElements(secs: seq<nat>, t: nat)
    ensures Elements(Absorb(secs, t)) == Elements(secs) + {t}
  {
    AbsorbFind(secs, t, t);
    if Find(secs, t) < |secs| {
      assert t in secs;
    } else {
      assert Absorb(secs, t)[..|secs|] == secs;
    }
  }

  lemma SectorsCounted(a: Area, base: Disk, s: State)
    requires Inv(a, base, s) && s.mem.Running?
    ensures |Elements(s.mem.secs)| == |s.mem.secs| && (s.mem.committing ==> s.mem.active == []) && Elements<nat>([]) == {}
  {
    ElementsSize(s.mem.secs);
  }

  lemma NoteAgrees(a: Area, base: Disk, s: State, e: Event, n: Notes)
    requires Inv(a, base, s) && Enabled(a, s, e) && Agrees(n, s)
    ensures Agrees(Note(a, n, e), Step(a, s, e))
  {
    hide Inv, Elements, Absorb, Ops, NextCommitWrite, NextBootWrite;
    if s.mem.Running? { SectorsCounted(a, base, s); }
    match e {
      case LogWrite(i, x, b) => AbsorbElements(s.mem.secs, x);
      case _ =>
    }
  }

  lemma {:induction false} RunKept(a: Area, base: Disk, s: State, es: seq<Event>)
    requires Inv(a, base, s) && CanRun(a, s, es)
    ensures Inv(a, base, Run(a, s, es))
    decreases |es|
  {
    if es != [] {
      StepKept(a, base, s, es[0]);
      RunKept(a, base, Step(a, s, es[0]), es[1..]);
    }
  }

  lemma RunFromBoot(a: Area, base: Disk, es: seq<Event>)
    requires Sane(base, a) && CanRun(a, Boot(a, base), es)
    ensures Inv(a, base, Run(a, Boot(a, base), es))
  {
    assert Inv(a, base, Boot(a, base));
    RunKept(a, base, Boot(a, base), es);
  }

  lemma {:induction false} NotedAgrees(a: Area, base: Disk, s: State, es: seq<Event>, n: Notes)
    requires Inv(a, base, s) && CanRun(a, s, es) && Agrees(n, s)
    ensures Agrees(Noted(a, n, es), Run(a, s, es))
    decreases |es|
  {
    if es != [] {
      hide Inv, Agrees, Step, Enabled, Note;
      NoteAgrees(a, base, s, es[0], n);
      StepKept(a, base, s, es[0]);
      NotedAgrees(a, base, Step(a, s, es[0]), es[1..], Note(a, n, es[0]));
    }
  }

  /** After every run the history is the one that the events say: a record for every log_write that found
      room, with the number of its operation, its sector and its block, in groups as they were committed. */
  lemma HistoryIsEvents(a: Area, base: Disk, es: seq<Event>)
    requires Sane(base, a) && CanRun(a, Boot(a, base), es)
    ensures SameHistory(Noted(a, BLANK, es), Run(a, Boot(a, base), es))
  {
    RunFromBoot(a, base, []);
    NotedAgrees(a, base, Boot(a, base), es, BLANK);
  }

  /** The records of x are in one group, all of them, and in no other. */
  ghost predicate OnceIn(groups: seq<seq<Rec>>, trace: seq<Rec>, x: nat) {
    exists g :: 0 <= g < |groups| && By(groups[g], x) == By(trace, x)
                && forall h :: 0 <= h < |groups| && h != g ==> By(groups[h], x) == []
  }

  /** Exactly one of: all records of x are waiting for a commit; they are in exactly one group; or a
      crash came first and they are nowhere. */
  ghost predicate Settled(s: State, x: nat) {
    if By(s.current, x) != [] then By(s.current, x) == By(s.trace, x) && x !in s.lost && !Committed(s.groups, x)
    else if x in s.lost then !Committed(s.groups, x)
    else OnceIn(s.groups, s.trace, x)
  }

  lemma FateOf(s: State, x: nat)
    requires OpInv(s) && FateInv(s) && By(s.trace, x) != []
    ensures Settled(s, x)
  {
    if By(s.current, x) != [] {
      assert s.epoch <= x;
      forall g | 0 <= g < |s.groups| ensures By(s.groups[g], x) == [] { assert Whole(s.groups[g], s.trace, s.epoch); }
    } else if x !in s.lost {
      var g :| 0 <= g < |s.groups| && By(s.groups[g], x) != [];
      assert Whole(s.groups[g], s.trace, s.epoch);
      forall h | 0 <= h < |s.groups| && h != g ensures By(s.groups[h], x) == [] {
        if h < g { assert Apart(s.groups[h], s.groups[g]); } else { assert Apart(s.groups[g], s.groups[h]); }
      }
    }
  }

  /** The group commit promise.  After any run from any sane disk image: a crash may come now, and if it
      comes, any number of cut-off recoveries and a completed one leave in every home sector exactly the
      committed groups applied in order; every operation that logged anything is settled; with no
      operation outstanding and no commit running, nothing logged is uncommitted; and the kernel has
      panicked only at the start of a commit of NBUF sectors, or with all sectors of the log used. */
  lemma EveryRunIsAtomic(a: Area, base: Disk, es: seq<Event>, crashes: seq<nat>)
    requires Sane(base, a) && CanRun(a, Boot(a, base), es)
    ensures var s := Run(a, Boot(a, base), es);
      && (s.panicked ==> Overfull(s) || Crammed(a, s)) && SameHistory(Noted(a, BLANK, es), s)
      && |s.disk| == |base| && Sane(s.disk, a) && Enabled(a, s, Crash)
      && (forall t: nat :: Home(base, a, t) ==>
            CrashyRecovery(s.disk, a, crashes)[t] == Effect(s.groups, t, Truth(base, a, t)))
      && (forall x: nat :: By(s.trace, x) != [] ==> Settled(s, x))
      && (s.mem.Running? && s.mem.active == [] && !s.mem.committing ==> s.current == [])
  {
    var s := Run(a, Boot(a, base), es);
    HistoryIsEvents(a, base, es);
    RunFromBoot(a, base, es);
    DiskMeans(a, base, s);
    CrashyRecoveryKeepsTruth(s.disk, a, crashes);
    forall x: nat | By(s.trace, x) != [] ensures Settled(s, x) { FateOf(s, x); }
  }

  /** After any run the next step panics if and only if it is the first write of a commit of NBUF
      sectors, or a log_write, even of a sector already logged, when the log has none left.  A panic
      changes no sector.  Once such a commit is due, nothing else can happen but a crash. */
  lemma PanicsIff(a: Area, base: Disk, es: seq<Event>, e: Event)
    requires Sane(base, a) && CanRun(a, Boot(a, base), es)
    requires Enabled(a, Run(a, Boot(a, base), es), e)
    ensures var s := Run(a, Boot(a, base), es);
      && (Step(a, s, e).panicked <==> (e.CommitWrite? && Overfull(s)) || (e.LogWrite? && Crammed(a, s)))
      && (Overfull(s) ==> e.CommitWrite? || e.Crash?)
      && (Step(a, s, e).panicked ==> Step(a, s, e).disk == s.disk)
  {
    RunFromBoot(a, base, es);
  }

  /** A log of at most LOGSIZE sectors never holds as many sectors as there are buffers. */
  lemma SmallNeverOverfull(a: Area, base: Disk, es: seq<Event>)
    requires Sane(base, a) && CanRun(a, Boot(a, base), es) && a.size <= LOGSIZE
    ensures !Overfull(Run(a, Boot(a, base), es))
  {
    RunFromBoot(a, base, es);
  }

  lemma {:induction false} WithinKept(a: Area, base: Disk, s: State, es: seq<Event>)
    requires Inv(a, base, s) && CanRun(a, s, es) && RunWithin(a, s, es)
    requires a.size > LOGSIZE && BudgetInv(s) && (s.panicked ==> Overfull(s))
    ensures var r := Run(a, s, es); BudgetInv(r) && (r.panicked ==> Overfull(r))
    decreases |es|
  {
    if es != [] {
      var e := es[0];
      hide BudgetInv, Overfull, Inv, Within, Enabled;
      StepKept(a, base, s, e);
      BudgetKept(a, s, e);
      WithinPanic(a, base, s, e);
      WithinKept(a, base, Step(a, s, e), es[1..]);
    }
  }

  lemma WithinPanic(a: Area, base: Disk, s: State, e: Event)
    requires Inv(a, base, s) && Enabled(a, s, e) && Within(s, e) && a.size > LOGSIZE && BudgetInv(s) && (s.panicked ==> Overfull(s))
    ensures var r := Step(a, s, e); r.panicked ==> Overfull(r)
  {
    hide Inv;
    PanicKept(a, base, s, e);
    if e.LogWrite? { RoomToLog(a, s, e.i); }
  }

  /** In a log larger than LOGSIZE no run whose operations keep within their reservations meets "too big a
      transaction". */
  lemma LargeNeverCrammed(a: Area, base: Disk, es: seq<Event>, e: Event)
    requires Sane(base, a) && CanRun(a, Boot(a, base), es) && RunWithin(a, Boot(a, base), es) && a.size > LOGSIZE
    ensures var s := Run(a, Boot(a, base), es);
      && (s.panicked ==> Overfull(s))
      && (Enabled(a, s, e) && Within(s, e) && e.LogWrite? ==> !Step(a, s, e).panicked)
  {
    RunFromBoot(a, base, []);
    WithinKept(a, base, Boot(a, base), es);
    var s := Run(a, Boot(a, base), es);
    if Enabled(a, s, e) && Within(s, e) && e.LogWrite? { RoomToLog(a, s, e.i); }
  }

  lemma {:induction false} LostOnlyByCrash(a: Area, s: State, es: seq<Event>)
    requires CanRun(a, s, es) && Crash !in es
    ensures Run(a, s, es).lost == s.lost
    decreases |es|
  {
    if es != [] { LostOnlyByCrash(a, Step(a, s, es[0]), es[1..]); }
  }

  /** An operation begun after es is durable once the log is idle, if no crash came in between: all it
      logged is in exactly one group. */
  lemma EndedIsDurable(a: Area, base: Disk, es: seq<Event>, fs: seq<Event>)
    requires Sane(base, a) && CanRun(a, Boot(a, base), es) && Crash !in fs
    requires CanRun(a, Run(a, Boot(a, base), es), [Begin] + fs)
    ensures var b, s := Run(a, Boot(a, base), es), Run(a, Run(a, Boot(a, base), es), [Begin] + fs);
      s.mem.Running? && s.mem.active == [] && !s.mem.committing && By(s.trace, b.nextOp) != [] ==>
        OnceIn(s.groups, s.trace, b.nextOp)
  {
    RunFromBoot(a, base, es);
    var b := Run(a, Boot(a, base), es);
    RunKept(a, base, b, [Begin] + fs);
    LostOnlyByCrash(a, b, [Begin] + fs);
    var s := Run(a, b, [Begin] + fs);
    if By(s.trace, b.nextOp) != [] { FateOf(s, b.nextOp); }
  }

  /** What a running kernel reads is the committed groups with the uncommitted records on top, as the events
      say, also while a commit is writing. */
  lemma ReadsSeeEverything(a: Area, base: Disk, es: seq<Event>, t: nat)
    requires Sane(base, a) && CanRun(a, Boot(a, base), es) && Home(base, a, t)
    ensures var s, n := Run(a, Boot(a, base), es), Noted(a, BLANK, es);
      s.mem.Running? ==>
        |s.disk| == |base| && Read(s, t) == Effect(n.groups + [n.current], t, Truth(base, a, t))
  {
    hide OpenInv, CommitInv, BootInv, Effect, Truth, Home;
    RunFromBoot(a, base, es);
    HistoryIsEvents(a, base, es);
    var s := Run(a, Boot(a, base), es);
    if s.mem.Running? {
      if s.mem.committing { CommitReads(a, base, s, t); } else { OpenReads(a, base, s, t); }
    }
  }

  /** Right after a log_write that finds room the sector reads as written, and every other as before. */
  lemma LogWriteReads(a: Area, base: Disk, es: seq<Event>, i: nat, x: nat, b: Block, t: nat)
    requires Sane(base, a) && CanRun(a, Boot(a, base), es) && Home(base, a, t)
    requires Enabled(a, Run(a, Boot(a, base), es), LogWrite(i, x, b))
    ensures var s := Run(a, Boot(a, base), es);
      var r := Step(a, s, LogWrite(i, x, b));
      && s.mem.Running? && r.mem.Running? && |r.disk| == |s.disk| == |base|
      && Read(r, t) == if t == x && !r.panicked then b else Read(s, t)
  {
    hide Effect, Truth;
    RunFromBoot(a, base, es);
    DiskMeans(a, base, Run(a, Boot(a, base), es));
  }

  lemma OpenReads(a: Area, base: Disk, s: State, t: nat)
    requires Sane(base, a) && OpenInv(a, base, s) && Home(base, a, t)
    ensures |s.disk| == |base| && Read(s, t) == Effect(s.groups + [s.current], t, Truth(base, a, t))
  {
    EffectAppend(s.groups, s.current, t, Truth(base, a, t));
  }

  lemma CommitReads(a: Area, base: Disk, s: State, t: nat)
    requires Sane(base, a) && CommitInv(a, base, s) && Home(base, a, t)
    ensures |s.disk| == |base| && Read(s, t) == Effect(s.groups + [s.current], t, Truth(base, a, t))
  {
    var blocks := Pinned(s.mem.secs, s.mem.cache);
    var head := MakeHead(s.origin[a.start], s.mem.secs);
    TxnAt(s.origin, a, s.mem.secs, blocks, head, MakeHead(head, []), s.mem.k, t);
    assert Read(s, t) == After(s.origin, s.mem.secs, blocks, t);
    if s.mem.k <= |s.mem.secs| {
      HeaderCommits(s.origin, a, base, s.groups, s.mem.secs, s.mem.cache, s.current, t);
    } else {
      EffectAppend(s.groups, [], t, Truth(base, a, t));
    }
  }

  /** Committed groups are never lost or changed, whatever happens next. */
  lemma {:induction false} GroupsGrow(a: Area, s: State, es: seq<Event>)
    requires CanRun(a, s, es)
    ensures s.groups <= Run(a, s, es).groups
    decreases |es|
  {
    if es != [] { GroupsGrow(a, Step(a, s, es[0]), es[1..]); }
  }

  // ---------------------------------------------------------------- the log can fill

  lemma {:induction false} RunAppend(a: Area, s: State, es: seq<Event>, e: Event)
    requires CanRun(a, s, es) && Enabled(a, Run(a, s, es), e)
    ensures CanRun(a, s, es + [e]) && Run(a, s, es + [e]) == Step(a, Run(a, s, es), e)
    ensures RunWithin(a, s, es) && Within(Run(a, s, es), e) ==> RunWithin(a, s, es + [e])
    decreases |es|
  {
    if es != [] {
      assert (es + [e])[0] == es[0] && (es + [e])[1..] == es[1..] + [e];
      RunAppend(a, Step(a, s, es[0]), es[1..], e);
    }
  }

  /** k log writes to sectors 0, 1, ..., ten by each operation in turn. */
  function Fill(k: nat, b: Block): seq<Event> {
    if k == 0 then [] else Fill(k - 1, b) + [LogWrite((k - 1) / MAXOPBLOCKS, k - 1, b)]
  }

  function Clamp(k: int): nat {
    if k < 0 then 0 else if k > MAXOPBLOCKS then MAXOPBLOCKS else k
  }

  function UpTo(k: nat): (r: seq<nat>)
    ensures |r| == k
    ensures forall i :: 0 <= i < k ==> r[i] == i
  {
    if k == 0 then [] else UpTo(k - 1) + [k - 1]
  }

  /** One more log write of Fill. */
  lemma FillStep(a: Area, r: State, k: nat, b: Block)
    requires 0 < k <= LOGSIZE < a.start < TWO32 && k < a.size && Fits(r.disk, a) && !r.panicked
    requires r.mem.Running? && !r.mem.committing && r.mem.secs == UpTo(k - 1)
    requires r.mem.active == [Active(0, Clamp(k - 1)), Active(1, Clamp(k - 11)), Active(2, Clamp(k - 21))]
    ensures var e := LogWrite((k - 1) / MAXOPBLOCKS, k - 1, b);
      && Enabled(a, r, e) && Within(r, e)
      && var t := Step(a, r, e);
      && t.disk == r.disk && !t.panicked && t.mem.Running? && !t.mem.committing && t.mem.secs == UpTo(k)
      && t.mem.active == [Active(0, Clamp(k)), Active(1, Clamp(k - 10)), Active(2, Clamp(k - 20))]
  {
    assert Find(UpTo(k - 1), k - 1) == k - 1;
  }

  lemma {:induction false} FillRuns(a: Area, s: State, k: nat, b: Block)
    requires k <= LOGSIZE < a.start < TWO32 && k < a.size && Fits(s.disk, a) && !s.panicked
    requires s.mem == Running([Active(0, 0), Active(1, 0), Active(2, 0)], [], map[], false, 0)
    ensures CanRun(a, s, Fill(k, b)) && RunWithin(a, s, Fill(k, b))
    ensures var r := Run(a, s, Fill(k, b));
      && r.disk == s.disk && !r.panicked && r.mem.Running? && !r.mem.committing && r.mem.secs == UpTo(k)
      && r.mem.active == [Active(0, Clamp(k)), Active(1, Clamp(k - 10)), Active(2, Clamp(k - 20))]
  {
    if k > 0 {
      hide Step, Enabled, Run, CanRun, Within;
      FillRuns(a, s, k - 1, b);
      FillStep(a, Run(a, s, Fill(k - 1, b)), k, b);
      RunAppend(a, s, Fill(k - 1, b), LogWrite((k - 1) / MAXOPBLOCKS, k - 1, b));
    }
  }

  /** Nothing is left after k writes of Fill. */
  lemma NextTooBig(a: Area, r: State, k: nat, b: Block)
    requires k == a.size - 1 < LOGSIZE < a.start < TWO32 && Fits(r.disk, a) && !r.panicked
    requires r.mem.Running? && !r.mem.committing && r.mem.secs == UpTo(k)
    requires r.mem.active == [Active(0, Clamp(k)), Active(1, Clamp(k - 10)), Active(2, Clamp(k - 20))]
    ensures var e := LogWrite(k / MAXOPBLOCKS, k, b);
      Enabled(a, r, e) && Within(r, e) && Step(a, r, e).panicked && Crammed(a, Step(a, r, e))
  {
    hide UpTo;
  }

  /** In a log of at most LOGSIZE sectors, such as mkfs makes, three operations within their reservations
      can use it up, and the next log_write panics. */
  lemma LogTooSmall(a: Area, base: Disk) returns (es: seq<Event>)
    requires Sane(base, a) && Logged(base, a) == [] && LOGSIZE < a.start < TWO32 && a.size <= LOGSIZE
    ensures CanRun(a, Boot(a, base), es) && RunWithin(a, Boot(a, base), es)
    ensures var s := Run(a, Boot(a, base), es); s.panicked && Crammed(a, s)
  {
    hide Step, Enabled, Within, CanRun, Run, Crammed, UpTo, Clamp, Fill;
    var s0, k := Boot(a, base), a.size - 1;
    es := Opened(a, base);
    var b := base[a.start];
    FillRuns(a, Run(a, s0, es), k, b);
    RunConcat(a, s0, es, Fill(k, b));
    es := es + Fill(k, b);
    NextTooBig(a, Run(a, s0, es), k, b);
    RunAppend(a, s0, es, LogWrite(k / MAXOPBLOCKS, k, b));
    es := es + [LogWrite(k / MAXOPBLOCKS, k, b)];
  }

  /** In a larger log they can log LOGSIZE distinct sectors, as many as there are buffers, and the commit
      then panics. */
  lemma LogCanFill(a: Area, base: Disk) returns (es: seq<Event>)
    requires Sane(base, a) && Logged(base, a) == [] && LOGSIZE < a.start < TWO32 && a.size > LOGSIZE
    ensures CanRun(a, Boot(a, base), es) && RunWithin(a, Boot(a, base), es)
    ensures var s := Run(a, Boot(a, base), es); s.panicked && Overfull(s)
  {
    var s0 := Boot(a, base);
    es := Opened(a, base);
    var b := base[a.start];
    FillRuns(a, Run(a, s0, es), LOGSIZE, b);
    RunConcat(a, s0, es, Fill(LOGSIZE, b));
    es := es + Fill(LOGSIZE, b);
    RunAppend(a, s0, es, End(0));
    es := es + [End(0)];
    RunAppend(a, s0, es, End(0));
    es := es + [End(0)];
    RunAppend(a, s0, es, End(0));
    es := es + [End(0)];
    RunAppend(a, s0, es, CommitWrite);
    es := es + [CommitWrite];
  }

  /** An operation that logs more than was reserved for it can meet "too big a transaction" in any log. */
  lemma OverBudget(a: Area, base: Disk) returns (es: seq<Event>)
    requires Sane(base, a) && Logged(base, a) == [] && LOGSIZE < a.start < TWO32 && a.size > LOGSIZE
    ensures CanRun(a, Boot(a, base), es)
    ensures var s := Run(a, Boot(a, base), es); s.panicked && Crammed(a, s)
  {
    var s0 := Boot(a, base);
    es := Opened(a, base);
    var b := base[a.start];
    FillRuns(a, Run(a, s0, es), LOGSIZE, b);
    RunConcat(a, s0, es, Fill(LOGSIZE, b));
    es := es + Fill(LOGSIZE, b);
    RunAppend(a, s0, es, LogWrite(0, 0, b));
    es := es + [LogWrite(0, 0, b)];
  }

  /** Booting and three begin_ops. */
  lemma Opened(a: Area, base: Disk) returns (es: seq<Event>)
    requires Sane(base, a) && Logged(base, a) == []
    ensures CanRun(a, Boot(a, base), es) && RunWithin(a, Boot(a, base), es)
    ensures var s := Run(a, Boot(a, base), es);
      && |s.disk| == |base| && !s.panicked
      && s.mem == Running([Active(0, 0), Active(1, 0), Active(2, 0)], [], map[], false, 0)
  {
    var s0 := Boot(a, base);
    es := [];
    RunAppend(a, s0, es, BootWrite);
    es := es + [BootWrite];
    RunAppend(a, s0, es, BootDone);
    es := es + [BootDone];
    RunAppend(a, s0, es, Begin);
    es := es + [Begin];
    RunAppend(a, s0, es, Begin);
    es := es + [Begin];
    RunAppend(a, s0, es, Begin);
    es := es + [Begin];
  }

  lemma {:induction false} RunConcat(a: Area, s: State, es: seq<Event>, fs: seq<Event>)
    requires CanRun(a, s, es) && CanRun(a, Run(a, s, es), fs)
    ensures CanRun(a, s, es + fs) && Run(a, s, es + fs) == Run(a, Run(a, s, es), fs)
    ensures RunWithin(a, s, es) && RunWithin(a, Run(a, s, es), fs) ==> RunWithin(a, s, es + fs)
    decreases |es|
  {
    hide Step, Enabled, Within;
    if es == [] {
      assert es + fs == fs;
    } else {
      assert (es + fs)[0] == es[0] && (es + fs)[1..] == es[1..] + fs;
      RunConcat(a, Step(a, s, es[0]), es[1..], fs);
    }
  }
}
