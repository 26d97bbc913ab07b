/** What the calls of Inodes do to the inodes on disk: which ones iput frees, and what iupdate stores. */
module InodeCalls {
  import opened Inodes

  /** The references that are out to an inode. */
  ghost function RefsTo(s: State, key: Key): set<Rid> {
    set r | r in s.refs && s.refs[r] < |s.cache| && s.cache[s.refs[r]].key == key
  }

  /** A slot counts the references to its inode. */
  lemma RefsCounted(s: State, r: Rid)
    requires Inv(s) && Has(s, r)
    ensures At(s, r).ref == |RefsTo(s, At(s, r).key)| && r in RefsTo(s, At(s, r).key)
    ensures At(s, r).ref == 1 <==> RefsTo(s, At(s, r).key) == {r}
  {
    var i := s.refs[r];
    RefCounts(s, r);
    forall q | q in s.refs ensures s.cache[s.refs[q]].key == At(s, r).key <==> s.refs[q] == i {
      RefCounts(s, q);
      if s.refs[q] != i { OtherKey(s, i, s.refs[q]); }
    }
    assert RefsTo(s, At(s, r).key) == Holders(s.refs, i);
    if At(s, r).ref == 1 {
      forall q | q in Holders(s.refs, i) ensures q == r { OneHolder(s.refs, i, r, q); }
      assert Holders(s.refs, i) == {r};
    }
  }

  /** The inode of r is in memory, r is the only reference to it, and it has no link left on disk. */
  ghost predicate Forsaken(s: State, r: Rid) {
    Has(s, r) && At(s, r).valid && RefsTo(s, At(s, r).key) == {r} && s.disk[At(s, r).key].nlink == 0
  }

  lemma ForsakenIff(s: State, p: Pid, r: Rid)
    requires Inv(s) && Enabled(s, Put(p, r))
    ensures LastUse(At(s, r)) <==> Forsaken(s, r)
  {
    hide CountInv, BusyInv, FreshInv, UniqueInv;
    RefsCounted(s, r);
    if At(s, r).ref == 1 {
      LastNotBusy(s, r);
      SlotFresh(s, r);
    }
  }

  /** iput touches the disk only later, if at all: in every run it drops the reference at once, unless it is the
      only one to an inode in memory that has no link left on disk, which it then goes on to free. */
  lemma PutDecides(s: State, run: seq<Event>, p: Pid, r: Rid)
    requires Initial(s) && CanRun(s, run) && Enabled(Run(s, run), Put(p, r))
    ensures var t, u := Run(s, run), Next(Run(s, run), Put(p, r));
      && u.disk == t.disk
      && if Forsaken(t, r) then u.refs == t.refs && p in u.procs && !u.procs[p].Idle?
         else u.refs == t.refs - {r} && u.procs == t.procs
  {
    hide Inv;
    RunKeeps(s, run);
    ForsakenIff(Run(s, run), p, r);
  }

  /** Freed is what iput leaves: no type, no size, no blocks. */
  function Freed(d: Dinode): Dinode { Dinode(0, d.nlink, 0, []) }

  /** The steps of an iput of a forsaken inode, one after the other: the inode is free on disk, every other is as
      it was, and no reference to it is left. */
  lemma PutFrees(s: State, run: seq<Event>, p: Pid, r: Rid)
    requires Initial(s) && CanRun(s, run) && Enabled(Run(s, run), Put(p, r)) && Forsaken(Run(s, run), r)
    ensures var t := Run(s, run);
      var t1 := Next(t, Put(p, r));
      && Enabled(t1, Go(p))
      && var t2 := Next(t1, Go(p));
      && Enabled(t2, Go(p))
      && var t3 := Next(t2, Go(p));
      && Enabled(t3, Go(p))
      && var u := Next(t3, Go(p));
      && var key := At(t, r).key;
      && u.disk == t.disk[key := Freed(t.disk[key])] && IsIdle(u, p) && r !in u.refs && RefsTo(u, key) == {}
  {
    RunKeeps(s, run);
    var t := Run(s, run);
    hide Inv, CanRun, Run;
    ForsakenIff(t, p, r);
    LastNotBusyNow(t, p, r);
    var key, copy := At(t, r).key, At(t, r).copy.(size := 0, addrs := []);
    assert t.disk[key := Freed(t.disk[key])] == t.disk[key := copy][key := copy.(kind := 0)];
    forall q | q in t.refs && q != r ensures t.cache[t.refs[q]].key != At(t, r).key { NotForsaken(t, r, q); }
  }

  lemma NotForsaken(t: State, r: Rid, q: Rid)
    requires Inv(t) && Forsaken(t, r) && q in t.refs && q != r
    ensures t.refs[q] < |t.cache| && t.cache[t.refs[q]].key != At(t, r).key
  {
    assert q !in RefsTo(t, At(t, r).key);
  }

  lemma LastNotBusyNow(t: State, p: Pid, r: Rid)
    requires Inv(t) && Enabled(t, Put(p, r)) && Forsaken(t, r)
    ensures At(t, r).copy == t.disk[At(t, r).key] && At(t, r).ref == 1
  {
    RefsCounted(t, r);
    LastNotBusy(t, r);
    SlotFresh(t, r);
  }

  // ---------------------------------------------------------------- what changes an inode on disk

  /** The iput of p that is still at work began with event j, on reference r, when the inode was forsaken. */
  ghost predicate DecidedAt(s: State, run: seq<Event>, p: Pid, r: Rid, key: Key, j: nat) {
    && j < |run| && run[j] == Put(p, r) && (forall i :: j < i < |run| ==> !(run[i].Put? && run[i].p == p))
    && CanRun(s, run[..j]) && Forsaken(Run(s, run[..j]), r) && At(Run(s, run[..j]), r).key == key
  }

  ghost predicate Decided(s: State, run: seq<Event>, p: Pid, r: Rid, key: Key) {
    exists j: nat :: DecidedAt(s, run, p, r, key, j)
  }

  lemma DecidedLater(s: State, run: seq<Event>, p: Pid, r: Rid, key: Key)
    requires run != [] && Decided(s, run[..|run| - 1], p, r, key) && !(run[|run| - 1].Put? && run[|run| - 1].p == p)
    ensures Decided(s, run, p, r, key)
  {
    hide CanRun, Run, Forsaken;
    var before := run[..|run| - 1];
    var j: nat :| DecidedAt(s, before, p, r, key, j);
    assert run[..j] == before[..j];
    forall i | j < i < |run| ensures !(run[i].Put? && run[i].p == p) {
      if i < |run| - 1 { assert run[i] == before[i]; }
    }
    assert DecidedAt(s, run, p, r, key, j);
  }

  /** A call comes to be freeing by its iput only, and stays on its reference. */
  lemma PuttingStays(t: State, e: Event, p: Pid)
    requires Enabled(t, e) && p in Next(t, e).procs && Putting(Next(t, e).procs[p])
    ensures if e.Put? && e.p == p then LastUse(At(t, e.r)) && Next(t, e).procs[p].r == e.r && Next(t, e).refs == t.refs
            else p in t.procs && Putting(t.procs[p]) && Next(t, e).procs[p].r == t.procs[p].r
  {
  }

  lemma {:induction false} RunDecided(s: State, run: seq<Event>, p: Pid)
    requires Initial(s) && CanRun(s, run) && p in Run(s, run).procs && Putting(Run(s, run).procs[p])
    ensures var t := Run(s, run); var r := t.procs[p].r; Has(t, r) && Decided(s, run, p, r, At(t, r).key)
    decreases |run|
  {
    hide Inv, Forsaken, Decided, LastUse;
    RunKeeps(s, run);
    BusyHas(Run(s, run), p);
    var before, e := run[..|run| - 1], run[|run| - 1];
    var b := Run(s, before);
    RunKeeps(s, before);
    PuttingStays(b, e, p);
    var r := Run(s, run).procs[p].r;
    if e.Put? && e.p == p {
      ForsakenIff(b, p, r);
      BeginsNow(s, run, p, r);
    } else {
      RunDecided(s, before, p);
      hide Next;
      KeepsKey(b, e, r);
      DecidedLater(s, run, p, r, At(b, r).key);
    }
  }

  lemma BusyHas(t: State, p: Pid)
    requires Inv(t) && p in t.procs && Busies(t.procs[p])
    ensures Has(t, t.procs[p].r)
  {
    AloneOn(t, p);
    RefCounts(t, t.procs[p].r);
  }

  lemma KeepsKey(t: State, e: Event, r: Rid)
    requires Inv(t) && Enabled(t, e) && Has(t, r) && Has(Next(t, e), r)
    ensures At(Next(t, e), r).key == At(t, r).key
  {
    KeepsReference(t, e, r);
  }

  lemma BeginsNow(s: State, run: seq<Event>, p: Pid, r: Rid)
    requires run != [] && CanRun(s, run) && run[|run| - 1] == Put(p, r) && Forsaken(Run(s, run[..|run| - 1]), r)
    requires LastUse(At(Run(s, run[..|run| - 1]), r))
    ensures Has(Run(s, run), r) && Decided(s, run, p, r, At(Run(s, run), r).key)
  {
    assert DecidedAt(s, run, p, r, At(Run(s, run), r).key, |run| - 1);
  }

  /** How event e changes inode key on disk from d to d'. */
  ghost predicate Changes(s: State, run: seq<Event>, e: Event, key: Key, d: Dinode, d': Dinode)
    requires CanRun(s, run)
  {
    var t := Run(s, run);
    match e
    case Update(p) => Locks(t, p, key) && d' == if EditsOf(run, p) == [] then d else LastEdit(run, p)
    case Alloc(_, k, kind) => k == key && d.kind == 0 && d' == Dinode(kind, 0, 0, [])
    case Go(p) =>
      && p in t.procs && Putting(t.procs[p]) && Decided(s, run, p, t.procs[p].r, key)
      && d.nlink == 0 && (d' == d.(size := 0, addrs := []) || d' == d.(kind := 0))
    case _ => false
  }

  /** Call p holds the lock of inode key. */
  predicate Locks(t: State, p: Pid, key: Key) {
    p in t.procs && t.procs[p].Locked? && Has(t, t.procs[p].r) && At(t, t.procs[p].r).key == key
  }

  /** What p has written into the inode in memory since it locked it. */
  function EditsOf(run: seq<Event>, p: Pid): seq<Dinode> {
    if run == [] then [] else EditsAfter(EditsOf(run[..|run| - 1], p), run[|run| - 1], p)
  }

  function EditsAfter(edits: seq<Dinode>, e: Event, p: Pid): seq<Dinode> {
    match e
    case Lock(q, _) => if q == p then [] else edits
    case Edit(q, d) => if q == p then edits + [d] else edits
    case _ => edits
  }

  function LastEdit(run: seq<Event>, p: Pid): Dinode
    requires EditsOf(run, p) != []
  {
    EditsOf(run, p)[|EditsOf(run, p)| - 1]
  }

  /** The copy in memory is what p has last written into it. */
  ghost predicate Edited(t: State, p: Pid, edits: seq<Dinode>) {
    p in t.procs && t.procs[p].Locked? && Has(t, t.procs[p].r) ==>
      if edits == [] then !t.procs[p].dirty else At(t, t.procs[p].r).copy == edits[|edits| - 1]
  }

  /** Nobody else touches the copy while p has its slot busy. */
  lemma CopyKept(t: State, e: Event, p: Pid, r: Rid)
    requires Inv(t) && Enabled(t, e) && p in t.procs && Busies(t.procs[p]) && t.procs[p].r == r
    requires Has(t, r) && Has(Next(t, e), r) && !By(e, p)
    ensures At(Next(t, e), r).copy == At(t, r).copy && p in Next(t, e).procs && Next(t, e).procs[p] == t.procs[p]
  {
    hide FreshInv, UniqueInv;
    AloneOn(t, p);
    RefCounts(t, r);
    KeepsReference(t, e, r);
    match e
    case Get(_, key) => SeekFinds(t.cache, key, 0, |t.cache|);
    case AllocGet(q, _) => SeekFinds(t.cache, t.procs[q].key, 0, |t.cache|);
    case Load(q) => assert !Owns(t, t.procs[q], t.refs[r]);
    case Edit(q, _) => assert !Owns(t, t.procs[q], t.refs[r]);
    case Go(q) => assert !Owns(t, t.procs[q], t.refs[r]);
    case _ =>
  }

  /** The event is a step of p. */
  predicate By(e: Event, p: Pid) { !e.Get? && !e.Dup? && e.p == p }

  lemma PlaceKept(t: State, e: Event, p: Pid)
    requires Enabled(t, e) && !By(e, p) && p in Next(t, e).procs
    ensures p in t.procs && Next(t, e).procs[p] == t.procs[p]
  {
  }

  lemma OwnEdited(t: State, e: Event, p: Pid, edits: seq<Dinode>)
    requires Enabled(t, e) && By(e, p) && Edited(t, p, edits) && (p in t.procs && t.procs[p].Locking? ==> edits == [])
    ensures Edited(Next(t, e), p, EditsAfter(edits, e, p))
    ensures p in Next(t, e).procs && Next(t, e).procs[p].Locking? ==> EditsAfter(edits, e, p) == []
  {
  }

  lemma StepEdited(t: State, e: Event, p: Pid, edits: seq<Dinode>)
    requires Inv(t) && Enabled(t, e) && Edited(t, p, edits) && (p in t.procs && t.procs[p].Locking? ==> edits == [])
    ensures Edited(Next(t, e), p, EditsAfter(edits, e, p))
    ensures p in Next(t, e).procs && Next(t, e).procs[p].Locking? ==> EditsAfter(edits, e, p) == []
  {
    hide Inv, Next, Enabled;
    if By(e, p) {
      OwnEdited(t, e, p, edits);
    } else {
      assert EditsAfter(edits, e, p) == edits;
      if p in Next(t, e).procs {
        PlaceKept(t, e, p);
        if t.procs[p].Locked? && Has(Next(t, e), t.procs[p].r) {
          BusyHas(t, p);
          CopyKept(t, e, p, t.procs[p].r);
        }
      }
    }
  }

  lemma {:induction false} RunEdited(s: State, run: seq<Event>, p: Pid)
    requires Initial(s) && CanRun(s, run)
    ensures var t := Run(s, run);
      Edited(t, p, EditsOf(run, p)) && (p in t.procs && t.procs[p].Locking? ==> EditsOf(run, p) == [])
    decreases |run|
  {
    if run != [] {
      hide Inv, Next, Enabled, Edited;
      RunEdited(s, run[..|run| - 1], p);
      RunKeeps(s, run[..|run| - 1]);
      StepEdited(Run(s, run[..|run| - 1]), run[|run| - 1], p, EditsOf(run[..|run| - 1], p));
    }
  }

  lemma UpdateStores(s: State, run: seq<Event>, p: Pid, key: Key)
    requires Initial(s) && CanRun(s, run) && Enabled(Run(s, run), Update(p)) && key in Run(s, run).disk
    ensures var t, u := Run(s, run), Next(Run(s, run), Update(p));
      key in u.disk && (u.disk[key] != t.disk[key] ==> Changes(s, run, Update(p), key, t.disk[key], u.disk[key]))
  {
    RunKeeps(s, run);
    RunEdited(s, run, p);
    CallFresh(Run(s, run), p);
    hide Inv, CanRun, Run;
  }

  lemma GoFrees(s: State, run: seq<Event>, p: Pid, key: Key)
    requires Initial(s) && CanRun(s, run) && Enabled(Run(s, run), Go(p)) && key in Run(s, run).disk
    ensures var t, u := Run(s, run), Next(Run(s, run), Go(p));
      key in u.disk && (u.disk[key] != t.disk[key] ==> Changes(s, run, Go(p), key, t.disk[key], u.disk[key]))
  {
    RunKeeps(s, run);
    RunDecided(s, run, p);
    CallFresh(Run(s, run), p);
    hide Inv, CanRun, Run, Decided;
  }

  /** In every run an inode on disk changes only so: by the iupdate of the call that has it locked, to what
      that call has last written into it; by ialloc, if it was free; and by an iput, if it has no link left
      and was forsaken when that iput began. */
  lemma DiskChanges(s: State, run: seq<Event>, e: Event, key: Key)
    requires Initial(s) && CanRun(s, run) && Enabled(Run(s, run), e) && key in Run(s, run).disk
    ensures var t, u := Run(s, run), Next(Run(s, run), e);
      key in u.disk && (u.disk[key] != t.disk[key] ==> Changes(s, run, e, key, t.disk[key], u.disk[key]))
  {
    hide Decided, CanRun, Run;
    if e.Update? {
      UpdateStores(s, run, e.p, key);
    } else if e.Go? {
      GoFrees(s, run, e.p, key);
    }
  }

  /** A reference got, or made from another, is to that inode. */
  lemma NewReference(s: State, run: seq<Event>, e: Event)
    requires Initial(s) && CanRun(s, run) && Enabled(Run(s, run), e)
    ensures var t, u := Run(s, run), Next(Run(s, run), e);
      match e
      case Get(r, key) => Has(u, r) && At(u, r).key == key
      case Dup(r, r2) => Has(u, r2) && At(u, r2).key == At(t, r).key
      case AllocGet(p, r) => Has(u, r) && At(u, r).key == t.procs[p].key
      case _ => true
  {
    RunKeeps(s, run);
    var t := Run(s, run);
    hide CanRun, Run, Inv;
    match e
    case Get(_, key) => SeekFinds(t.cache, key, 0, |t.cache|);
    case AllocGet(p, _) => SeekFinds(t.cache, t.procs[p].key, 0, |t.cache|);
    case _ =>
  }

  /** Since p began its iput a reference to the inode may have been made by iget. */
  predicate GotSince(run: seq<Event>, p: Pid, key: Key) {
    run != [] &&
      var e := run[|run| - 1];
      !(e.Put? && e.p == p) && (GotSince(run[..|run| - 1], p, key) || (e.Get? && e.key == key) || e.AllocGet?)
  }

  /** References to an inode are made by iget, and by idup of one there is. */
  lemma RefsGrow(t: State, e: Event, key: Key, x: Rid)
    requires Inv(t) && Enabled(t, e) && x in RefsTo(Next(t, e), key) && !(e.Get? && e.key == key) && !e.AllocGet?
    ensures x in RefsTo(t, key) || (e.Dup? && e.r in RefsTo(t, key))
  {
    if x in t.refs {
      RefCounts(t, x);
      KeepsReference(t, e, x);
    }
  }

  /** The reference being put is the only one until somebody gets the inode. */
  lemma {:induction false} OnlyUntilGot(s: State, run: seq<Event>, p: Pid)
    requires Initial(s) && CanRun(s, run) && p in Run(s, run).procs && Putting(Run(s, run).procs[p])
    ensures var t := Run(s, run); var r := t.procs[p].r;
      Has(t, r) && (!GotSince(run, p, At(t, r).key) ==> RefsTo(t, At(t, r).key) == {r})
    decreases |run|
  {
    hide Inv, LastUse, RefsTo;
    RunKeeps(s, run);
    BusyHas(Run(s, run), p);
    RefsCounted(Run(s, run), Run(s, run).procs[p].r);
    var before, e := run[..|run| - 1], run[|run| - 1];
    var b := Run(s, before);
    RunKeeps(s, before);
    PuttingStays(b, e, p);
    var r, key := Run(s, run).procs[p].r, At(Run(s, run), Run(s, run).procs[p].r).key;
    if e.Put? && e.p == p {
      ForsakenIff(b, p, r);
      BeginsAlone(b, p, r);
    } else {
      OnlyUntilGot(s, before, p);
      hide Next;
      KeepsKey(b, e, r);
      if !GotSince(run, p, key) {
        forall x | x in RefsTo(Run(s, run), key) ensures x == r { RefsGrow(b, e, key, x); }
      }
    }
  }

  lemma BeginsAlone(t: State, p: Pid, r: Rid)
    requires Enabled(t, Put(p, r)) && Forsaken(t, r) && LastUse(At(t, r))
    ensures var u := Next(t, Put(p, r)); Has(u, r) && RefsTo(u, At(u, r).key) == {r}
  {
    var u := Next(t, Put(p, r));
    assert RefsTo(u, At(u, r).key) == RefsTo(t, At(t, r).key);
  }

  /** There is room for an inode that is cached already, or if some slot is free. */
  lemma RoomFor(t: State, key: Key, j: nat)
    requires j < |t.cache| && (Caches(t.cache[j], key) || t.cache[j].ref == 0)
    ensures Room(t, key)
  {
    SeekFinds(t.cache, key, 0, |t.cache|);
  }

  /** One reference, 0, to inode key, which is in memory. */
  predicate Opened(s: State, t: State, key: Key, busy: bool, pc: Pc) {
    && t.disk == s.disk && key in s.disk && t.refs.Keys == {0} && t.refs[0] < |t.cache| && 1 in t.procs && t.procs.Keys == {1}
    && t.procs[1] == pc && t.cache[t.refs[0]] == Slot(key, 1, busy, true, s.disk[key])
  }

  lemma OpenedOnce(s: State, key: Key) returns (run: seq<Event>)
    requires Initial(s) && |s.cache| > 0 && key in s.disk && s.disk[key].kind != 0
    ensures CanRun(s, run) && Opened(s, Run(s, run), key, false, Idle)
  {
    hide CanRun, Run, Seek;
    NoEvents(s);
    RoomFor(s, key, 0);
    SeekFinds(s.cache, key, 0, |s.cache|);
    run := Extend(s, [], Get(0, key));
    run := Extend(s, run, Lock(1, 0));
    run := Extend(s, run, Load(1));
    assert Opened(s, Run(s, run), key, true, Locked(0, false));
    run := Extend(s, run, Unlock(1));
  }

  /** An instance: an inode can be got while an iput is freeing it, so that it is truncated with two references
      out. */
  lemma GotWhileFreeing(s: State, key: Key) returns (run: seq<Event>)
    requires Initial(s) && |s.cache| > 0 && key in s.disk && s.disk[key].kind != 0 && s.disk[key].nlink == 0
    ensures CanRun(s, run) && Enabled(Run(s, run), Go(1)) && |RefsTo(Run(s, run), key)| == 2
    ensures var u := Next(Run(s, run), Go(1)); key in u.disk && u.disk[key] == s.disk[key].(size := 0, addrs := [])
  {
    hide CanRun, Run, Initial, Seek;
    run := OpenedOnce(s, key);
    run := Extend(s, run, Put(1, 0));
    var t := Run(s, run);
    assert Opened(s, t, key, true, Trunc(0));
    RoomFor(t, key, t.refs[0]);
    SeekFinds(t.cache, key, 0, |t.cache|);
    run := Extend(s, run, Get(5, key));
    TwoOut(s, t, key);
  }

  lemma TwoOut(s: State, t: State, key: Key)
    requires Opened(s, t, key, true, Trunc(0)) && Enabled(t, Get(5, key))
    ensures var u := Next(t, Get(5, key)); RefsTo(u, key) == {0, 5} && Enabled(u, Go(1)) && At(u, 0).copy == s.disk[key]
  {
    SeekFinds(t.cache, key, 0, |t.cache|);
  }

  lemma NoEvents(s: State)
    ensures CanRun(s, []) && Run(s, []) == s
  {
  }

  lemma Extend(s: State, run: seq<Event>, e: Event) returns (longer: seq<Event>)
    requires CanRun(s, run) && Enabled(Run(s, run), e)
    ensures longer == run + [e] && CanRun(s, longer) && Run(s, longer) == Next(Run(s, run), e)
  {
    longer := run + [e];
    assert longer[..|run|] == run;
  }
}
