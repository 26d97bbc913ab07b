/** Processes and threads in the process table of proc.c: creation, exit, wait and the thread count
    that decides when a shared page table may be freed. */
module Threads {

  /** Running, runnable, sleeping and embryo slots are Alive. */
  datatype Status = Unused | Alive | Zombie

  const NONE: int := -1

  /** parent is a slot number; pgdir names a page table, 0 for none; exiting marks a slot inside exit,
      after abandoning its children and before it becomes a zombie; retval is the value for the joiner. */
  datatype Slot = Slot(state: Status, pid: int, parent: int, thread: bool, detached: bool, pgdir: nat, tcount: int, exiting: bool,
                       retval: int)

  /** tables are the page tables that have been created and not yet freed. */
  datatype Table = Table(slots: seq<Slot>, init: nat, nextpid: int, tables: set<nat>)

  // ---------------------------------------------------------------- searching the table

  /** What the loops over the table look for. */
  datatype Query =
    | Free
    | ZombieThreadOf(me: int)
    | ThreadWithPid(pid: int)
    | ZombieChild(owner: int, pid: int)

  predicate Child(slot: Slot, owner: int, pid: int) {
    slot.parent == owner && (pid == 0 || slot.pid == pid)
  }

  predicate Matches(q: Query, slot: Slot) {
    match q
    case Free => slot.state == Unused
    case ZombieThreadOf(me) => slot.thread && slot.state == Zombie && slot.parent == me
    case ThreadWithPid(pid) => slot.thread && slot.pid == pid
    case ZombieChild(owner, pid) => Child(slot, owner, pid) && slot.state == Zombie
  }

  /** The first match from position k on, or the length of the table. */
  function Find(slots: seq<Slot>, q: Query, k: nat): (i: nat)
    requires k <= |slots|
    ensures k <= i <= |slots| && (i < |slots| ==> Matches(q, slots[i]))
    ensures forall j :: k <= j < i ==> !Matches(q, slots[j])
    decreases |slots| - k
  {
    if k == |slots| || Matches(q, slots[k]) then k else Find(slots, q, k + 1)
  }

  // ---------------------------------------------------------------- the steps

  function AddThread(slot: Slot, n: int): Slot { slot.(tcount := slot.tcount + n) }

  /** fork without ctflag: pg is the copied page table, 0 when copyuvm fails; the pid is then used up. */
  function Fork(t: Table, me: nat, pg: nat): Table
    requires me < |t.slots|
  {
    var i := Find(t.slots, Free, 0);
    if i == |t.slots| then t
    else if pg == 0 then t.(slots := t.slots[i := t.slots[i].(pid := t.nextpid, pgdir := 0)], nextpid := t.nextpid + 1)
    else t.(slots := t.slots[i := Slot(Alive, t.nextpid, me, false, false, pg, 0, false, t.slots[i].retval)],
            nextpid := t.nextpid + 1, tables := t.tables + {pg})
  }

  /** fork with ctflag: a thread shares the caller's page table.  A thread's new thread belongs to the
      caller's parent, but it is the caller's count that grows.  The new slot keeps its old count. */
  function Clone(t: Table, me: nat, detached: bool): Table
    requires me < |t.slots|
  {
    var i := Find(t.slots, Free, 0);
    if i == |t.slots| then t
    else
      var caller := t.slots[me];
      var owner := if caller.thread then caller.parent else me;
      var newcomer := Slot(Alive, t.nextpid, owner, true, detached, caller.pgdir, t.slots[i].tcount, false, -1);
      var created := t.slots[i := newcomer];
      t.(slots := created[me := AddThread(created[me], 1)], nextpid := t.nextpid + 1)
  }

  /** A thread leaves the value for whoever joins it. */
  function SetRetval(t: Table, me: nat, v: int): Table
    requires me < |t.slots|
  {
    t.(slots := t.slots[me := t.slots[me].(retval := v)])
  }

  /** exit up to its waiting loop: a process gives its child processes to init, a detached thread
      drops the page table. */
  function ExitBegin(t: Table, me: nat): Table
    requires me < |t.slots|
  {
    var slots := if t.slots[me].thread then t.slots else Abandon(t.slots, me, t.init);
    var slot := slots[me];
    t.(slots := slots[me := slot.(exiting := true, pgdir := if slot.thread && slot.detached then 0 else slot.pgdir)])
  }

  function Abandon(slots: seq<Slot>, me: nat, init: nat): (r: seq<Slot>)
    ensures |r| == |slots|
    ensures forall i :: 0 <= i < |slots| ==>
      r[i] == if !slots[i].thread && slots[i].parent == me then slots[i].(parent := init) else slots[i]
  {
    if slots == [] then []
    else
      var last := slots[|slots| - 1];
      Abandon(slots[..|slots| - 1], me, init) +
      [if !last.thread && last.parent == me then last.(parent := init) else last]
  }

  /** The end of exit, once the count is 0. */
  function ExitFinish(t: Table, me: nat): Table
    requires me < |t.slots|
  {
    t.(slots := t.slots[me := t.slots[me].(state := Zombie)])
  }

  /** A slot given back; the page table and the count are the caller's business. */
  function Cleared(slot: Slot): Slot {
    Slot(Unused, 0, NONE, false, false, slot.pgdir, slot.tcount, false, 0)
  }

  /** One round of cleanupzombiethreads: at most one zombie thread is reaped. */
  function Cleanup(t: Table, me: nat): Table
    requires me < |t.slots|
  {
    var i := Find(t.slots, ZombieThreadOf(me), 0);
    if i == |t.slots| then t
    else
      var counted := t.slots[me := AddThread(t.slots[me], -1)];
      t.(slots := counted[i := Cleared(counted[i])])
  }

  /** Whose children a caller of wait looks for. */
  function WaitOwner(slot: Slot, me: nat): int { if slot.thread then slot.parent else me }

  /** One pass of wait: a zombie process is freed with its page table, a zombie thread is only
      reported. */
  function Wait(t: Table, me: nat, pid: int): Table
    requires me < |t.slots|
  {
    var i := Find(t.slots, ZombieChild(WaitOwner(t.slots[me], me), pid), 0);
    if i == |t.slots| || t.slots[i].thread then t
    else t.(slots := t.slots[i := Cleared(t.slots[i]).(pgdir := 0, tcount := 0)], tables := t.tables - {t.slots[i].pgdir})
  }

  /** getthreadretval: a detached thread only loses its mark, another is reaped. */
  function Fetch(t: Table, pid: int): Table {
    var i := Find(t.slots, ThreadWithPid(pid), 0);
    if i == |t.slots| then t
    else if t.slots[i].detached then t.(slots := t.slots[i := t.slots[i].(detached := false, retval := 0)])
    else if !(0 <= t.slots[i].parent < |t.slots|) then t
    else
      var p := t.slots[i].parent;
      var counted := t.slots[p := AddThread(t.slots[p], -1)];
      t.(slots := counted[i := Cleared(counted[i]).(pgdir := 0)])
  }

  /** The value getthreadretval returns. */
  function FetchValue(t: Table, pid: int): int {
    var i := Find(t.slots, ThreadWithPid(pid), 0);
    if i < |t.slots| then t.slots[i].retval else -1
  }

  /** The commit point of exec. */
  function Exec(t: Table, me: nat, pg: nat): Table
    requires me < |t.slots|
  {
    t.(slots := t.slots[me := t.slots[me].(pgdir := pg)], tables := t.tables - {t.slots[me].pgdir} + {pg})
  }

  // ---------------------------------------------------------------- counting threads

  predicate IsThreadOf(slot: Slot, p: int) { slot.state != Unused && slot.thread && slot.parent == p }

  /** How many thread slots of p have not been reaped. */
  function Count(slots: seq<Slot>, p: int): (n: nat)
    ensures n <= |slots|
  {
    if slots == [] then 0
    else Count(slots[..|slots| - 1], p) + if IsThreadOf(slots[|slots| - 1], p) then 1 else 0
  }

  lemma {:induction false} CountSame(slots: seq<Slot>, after: seq<Slot>, p: int)
    requires |after| == |slots| && forall j :: 0 <= j < |slots| ==> (IsThreadOf(slots[j], p) <==> IsThreadOf(after[j], p))
    ensures Count(after, p) == Count(slots, p)
  {
    if slots != [] { CountSame(slots[..|slots| - 1], after[..|slots| - 1], p); }
  }

  function Tally(slot: Slot, p: int): nat { if IsThreadOf(slot, p) then 1 else 0 }

  lemma {:induction false} CountUpdate(slots: seq<Slot>, i: nat, slot: Slot, p: int)
    requires i < |slots|
    ensures Count(slots[i := slot], p) == Count(slots, p) - Tally(slots[i], p) + Tally(slot, p)
  {
    var init := slots[..|slots| - 1];
    if i == |slots| - 1 {
      assert slots[i := slot][..|slots| - 1] == init;
    } else {
      CountUpdate(init, i, slot, p);
      assert slots[i := slot][..|slots| - 1] == init[i := slot];
    }
  }

  lemma {:induction false} CountZero(slots: seq<Slot>, p: int)
    ensures Count(slots, p) == 0 <==> forall j :: 0 <= j < |slots| ==> !IsThreadOf(slots[j], p)
  {
    if slots != [] { CountZero(slots[..|slots| - 1], p); }
  }

  // ---------------------------------------------------------------- the invariant

  ghost predicate Counted(t: Table) {
    forall p: nat :: p < |t.slots| ==> t.slots[p].tcount == Count(t.slots, p)
  }

  predicate IsProcess(slot: Slot) { slot.state != Unused && !slot.thread }

  /** A thread belongs to a live process and shares its page table, unless it has dropped it. */
  ghost predicate ThreadOk(slots: seq<Slot>, slot: Slot) {
    slot.state != Unused && slot.thread ==>
      && 0 <= slot.parent < |slots| && slots[slot.parent].state == Alive && !slots[slot.parent].thread
      && (slot.pgdir == slots[slot.parent].pgdir || slot.pgdir == 0)
  }

  ghost predicate Owned(t: Table) {
    forall i: nat :: i < |t.slots| ==> ThreadOk(t.slots, t.slots[i])
  }

  /** The page tables in existence are exactly those of the processes, one each. */
  ghost predicate Tabled(t: Table) {
    && (forall i: nat :: i < |t.slots| && IsProcess(t.slots[i]) ==> t.slots[i].pgdir in t.tables && t.slots[i].pgdir > 0)
    && (forall i: nat, j: nat :: i < j < |t.slots| && IsProcess(t.slots[i]) && IsProcess(t.slots[j]) ==>
          t.slots[i].pgdir != t.slots[j].pgdir)
    && (forall pg: nat :: pg in t.tables ==> OwnedTable(t.slots, pg))
  }

  ghost predicate OwnedTable(slots: seq<Slot>, pg: nat) {
    exists i: nat :: i < |slots| && IsProcess(slots[i]) && slots[i].pgdir == pg
  }

  ghost predicate Inv(t: Table) {
    t.init < |t.slots| && Counted(t) && Owned(t) && Tabled(t)
  }

  // ---------------------------------------------------------------- every step keeps it

  /** No thread belongs to a slot that is not a live process. */
  lemma NoThreads(t: Table, p: nat)
    requires Owned(t) && p < |t.slots| && (t.slots[p].state != Alive || t.slots[p].thread)
    ensures Count(t.slots, p) == 0
  {
    CountZero(t.slots, p);
  }

  /** Slot i changes and threads of q come or go with it; q's count moves along. */
  lemma CountMoves(t: Table, i: nat, slot: Slot, q: nat, n: int)
    requires Counted(t) && i < |t.slots| && q < |t.slots|
    requires forall p: nat :: p < |t.slots| ==> Tally(slot, p) == Tally(t.slots[i], p) + if p == q then n else 0
    requires slot.tcount == if q == i then t.slots[i].tcount + n else t.slots[i].tcount
    ensures var r := t.slots[i := slot];
            forall p: nat :: p < |t.slots| && (p != q || p == i) ==> r[p].tcount == Count(r, p)
    ensures q != i ==> t.slots[i := slot][q].tcount + n == Count(t.slots[i := slot], q)
  {
    forall p: nat | p < |t.slots| ensures Count(t.slots[i := slot], p) == Count(t.slots, p) + if p == q then n else 0 {
      CountUpdate(t.slots, i, slot, p);
    }
  }

  /** A page table stays owned when a slot that is not its process changes. */
  lemma KeepTable(slots: seq<Slot>, i: nat, slot: Slot, pg: nat)
    requires i < |slots| && OwnedTable(slots, pg)
    requires !IsProcess(slots[i]) || slots[i].pgdir != pg || (IsProcess(slot) && slot.pgdir == pg)
    ensures OwnedTable(slots[i := slot], pg)
  {
    var j: nat :| j < |slots| && IsProcess(slots[j]) && slots[j].pgdir == pg;
    assert IsProcess(slots[i := slot][j]) && slots[i := slot][j].pgdir == pg;
  }

  /** Slot i changes, and with it at most its own page table. */
  lemma TablesMove(t: Table, i: nat, slot: Slot, tables: set<nat>)
    requires Tabled(t) && i < |t.slots|
    requires tables == t.tables - (if IsProcess(t.slots[i]) then {t.slots[i].pgdir} else {}) + (if IsProcess(slot) then {slot.pgdir} else {})
    requires IsProcess(slot) ==> slot.pgdir > 0 && (slot.pgdir !in t.tables || (IsProcess(t.slots[i]) && slot.pgdir == t.slots[i].pgdir))
    ensures Tabled(t.(slots := t.slots[i := slot], tables := tables))
  {
    var r := t.slots[i := slot];
    forall j: nat | j < |r| && j != i && IsProcess(r[j]) ensures r[j].pgdir in tables && (IsProcess(slot) ==> r[j].pgdir != slot.pgdir) {
      assert IsProcess(t.slots[j]) && t.slots[j].pgdir in t.tables;
    }
    forall pg: nat | pg in tables ensures OwnedTable(r, pg) {
      if IsProcess(slot) && pg == slot.pgdir { assert r[i].pgdir == pg; } else { KeepTable(t.slots, i, slot, pg); }
    }
  }

  lemma TablesStay(t: Table, i: nat, slot: Slot)
    requires Tabled(t) && i < |t.slots| && IsProcess(slot) == IsProcess(t.slots[i]) && slot.pgdir == t.slots[i].pgdir
    ensures Tabled(t.(slots := t.slots[i := slot]))
  {
    assert t.tables == t.tables - (if IsProcess(slot) then {slot.pgdir} else {}) + (if IsProcess(slot) then {slot.pgdir} else {});
    TablesMove(t, i, slot, t.tables);
  }

  /** Slot i changes, but not whether it is a live process, nor then its page table. */
  lemma OwnersMove(t: Table, i: nat, slot: Slot)
    requires Owned(t) && i < |t.slots| && ThreadOk(t.slots, slot)
    requires slot.state != Unused && slot.thread ==> slot.parent != i
    requires t.slots[i].state == Alive && !t.slots[i].thread ==>
      slot.state == Alive && !slot.thread && slot.pgdir == t.slots[i].pgdir
    ensures Owned(t.(slots := t.slots[i := slot]))
  {
    var r := t.slots[i := slot];
    forall j: nat | j < |r| ensures ThreadOk(r, r[j]) {
      assert ThreadOk(t.slots, t.slots[j]);
    }
  }

  lemma ForkKeeps(t: Table, me: nat, pg: nat)
    requires Inv(t) && me < |t.slots| && (pg == 0 || pg !in t.tables)
    ensures Inv(Fork(t, me, pg))
  {
    var i := Find(t.slots, Free, 0);
    if i < |t.slots| {
      NoThreads(t, i);
      if pg != 0 {
        var slot := Slot(Alive, t.nextpid, me, false, false, pg, 0, false, t.slots[i].retval);
        CountMoves(t, i, slot, i, 0);
        TablesMove(t, i, slot, t.tables + {pg});
      } else {
        var slot := t.slots[i].(pid := t.nextpid, pgdir := 0);
        CountMoves(t, i, slot, i, 0);
        TablesMove(t, i, slot, t.tables);
      }
    }
  }

  /** Changing a count is not changing who is a thread. */
  lemma CountAdd(slots: seq<Slot>, q: nat, n: int)
    requires q < |slots|
    ensures forall p: int :: Count(slots[q := AddThread(slots[q], n)], p) == Count(slots, p)
  {
    forall p: int ensures Count(slots[q := AddThread(slots[q], n)], p) == Count(slots, p) {
      CountUpdate(slots, q, AddThread(slots[q], n), p);
    }
  }

  lemma NewPid(t: Table, pid: int)
    requires Owned(t) && Tabled(t)
    ensures Owned(t.(nextpid := pid)) && Tabled(t.(nextpid := pid))
  {
  }

  lemma CloneKeeps(t: Table, me: nat, detached: bool)
    requires Inv(t) && me < |t.slots| && t.slots[me].state == Alive && !t.slots[me].thread
    ensures Inv(Clone(t, me, detached))
  {
    hide Tabled, Owned;
    var i := Find(t.slots, Free, 0);
    if i < |t.slots| {
      var slot := Slot(Alive, t.nextpid, me, true, detached, t.slots[me].pgdir, t.slots[i].tcount, false, -1);
      CountMoves(t, i, slot, me, 1);
      TablesMove(t, i, slot, t.tables);
      var u := t.(slots := t.slots[i := slot]);
      CountAdd(u.slots, me, 1);
      TablesStay(u, me, AddThread(u.slots[me], 1));
      OwnersMove(t, i, slot);
      OwnersMove(u, me, AddThread(u.slots[me], 1));
      assert Clone(t, me, detached).slots == u.slots[me := AddThread(u.slots[me], 1)];
      NewPid(u.(slots := u.slots[me := AddThread(u.slots[me], 1)]), t.nextpid + 1);
    }
  }

  /** Cloning from a thread always breaks the count: the owner gains a thread it does not count. */
  lemma CloneCountsIff(t: Table, me: nat, detached: bool)
    requires Inv(t) && me < |t.slots| && t.slots[me].state == Alive && Find(t.slots, Free, 0) < |t.slots|
    ensures Inv(Clone(t, me, detached)) <==> !t.slots[me].thread
  {
    if t.slots[me].thread {
      var i, p := Find(t.slots, Free, 0), t.slots[me].parent;
      assert ThreadOk(t.slots, t.slots[me]);
      var slot := Slot(Alive, t.nextpid, p, true, detached, t.slots[me].pgdir, t.slots[i].tcount, false, -1);
      CountMoves(t, i, slot, p, 1);
      CountAdd(t.slots[i := slot], me, 1);
      assert Clone(t, me, detached).slots[p].tcount + 1 == Count(Clone(t, me, detached).slots, p);
    } else {
      CloneKeeps(t, me, detached);
    }
  }

  lemma AbandonTables(t: Table, me: nat)
    requires Tabled(t)
    ensures Tabled(t.(slots := Abandon(t.slots, me, t.init)))
  {
    var r := t.(slots := Abandon(t.slots, me, t.init));
    assert forall i: nat :: i < |t.slots| ==> r.slots[i].pgdir == t.slots[i].pgdir && IsProcess(r.slots[i]) == IsProcess(t.slots[i]);
    hide Abandon;
    forall pg: nat | pg in r.tables ensures OwnedTable(r.slots, pg) {
      var j: nat :| j < |t.slots| && IsProcess(t.slots[j]) && t.slots[j].pgdir == pg;
      assert IsProcess(r.slots[j]) && r.slots[j].pgdir == pg;
    }
  }

  lemma AbandonKeeps(t: Table, me: nat)
    requires Inv(t) && me < |t.slots|
    ensures Inv(t.(slots := Abandon(t.slots, me, t.init)))
  {
    hide Tabled;
    var r := t.(slots := Abandon(t.slots, me, t.init));
    AbandonTables(t, me);
    forall p: nat | p < |t.slots| ensures r.slots[p].tcount == Count(r.slots, p) { CountSame(t.slots, r.slots, p); }
    forall i: nat | i < |t.slots| ensures ThreadOk(r.slots, r.slots[i]) { assert ThreadOk(t.slots, t.slots[i]); }
  }

  /** A slot stays what it is; only a thread may drop its page table. */
  lemma MarkKeeps(t: Table, me: nat, slot: Slot)
    requires Inv(t) && me < |t.slots| && slot.state == t.slots[me].state && slot.thread == t.slots[me].thread
    requires slot.parent == t.slots[me].parent && slot.tcount == t.slots[me].tcount
    requires slot.pgdir == t.slots[me].pgdir || (slot.thread && slot.pgdir == 0)
    ensures Inv(t.(slots := t.slots[me := slot]))
  {
    CountMoves(t, me, slot, me, 0);
    TablesMove(t, me, slot, t.tables);
    hide Tabled;
    var r := t.slots[me := slot];
    forall i: nat | i < |r| ensures ThreadOk(r, r[i]) {
      assert ThreadOk(t.slots, t.slots[i]);
    }
  }

  lemma ReturnKeeps(t: Table, me: nat, v: int)
    requires Inv(t) && me < |t.slots|
    ensures Inv(SetRetval(t, me, v))
  {
    MarkKeeps(t, me, t.slots[me].(retval := v));
  }

  lemma ExitBeginKeeps(t: Table, me: nat)
    requires Inv(t) && me < |t.slots|
    ensures Inv(ExitBegin(t, me))
  {
    hide Inv;
    var u := if t.slots[me].thread then t else t.(slots := Abandon(t.slots, me, t.init));
    if !t.slots[me].thread { AbandonKeeps(t, me); }
    MarkKeeps(u, me, ExitBegin(t, me).slots[me]);
    assert ExitBegin(t, me) == u.(slots := u.slots[me := ExitBegin(t, me).slots[me]]);
  }

  lemma ExitFinishKeeps(t: Table, me: nat)
    requires Inv(t) && me < |t.slots| && t.slots[me].state == Alive && t.slots[me].tcount == 0
    ensures Inv(ExitFinish(t, me))
  {
    var slot := t.slots[me].(state := Zombie);
    CountMoves(t, me, slot, me, 0);
    TablesMove(t, me, slot, t.tables);
    CountZero(t.slots, me);
    forall i: nat | i < |t.slots| ensures ThreadOk(ExitFinish(t, me).slots, ExitFinish(t, me).slots[i]) {
      assert ThreadOk(t.slots, t.slots[i]);
    }
  }

  lemma IsOwned(t: Table, i: nat)
    requires Owned(t) && i < |t.slots|
    ensures ThreadOk(t.slots, t.slots[i])
  {
  }

  /** Reaping thread i of process q. */
  lemma ReapKeeps(t: Table, i: nat, q: nat, pg: nat)
    requires Inv(t) && i < |t.slots| && IsThreadOf(t.slots[i], q) && q < |t.slots|
    ensures var counted := t.slots[q := AddThread(t.slots[q], -1)];
            Inv(t.(slots := counted[i := Cleared(counted[i]).(pgdir := pg)]))
  {
    hide Tabled, Owned;
    IsOwned(t, i);
    var slot := Cleared(t.slots[i]).(pgdir := pg);
    NoThreads(t, i);
    CountMoves(t, i, slot, q, -1);
    TablesMove(t, i, slot, t.tables);
    var u := t.(slots := t.slots[i := slot]);
    CountAdd(u.slots, q, -1);
    TablesStay(u, q, AddThread(u.slots[q], -1));
    OwnersMove(t, i, slot);
    OwnersMove(u, q, AddThread(u.slots[q], -1));
    var counted := t.slots[q := AddThread(t.slots[q], -1)];
    assert counted[i := Cleared(counted[i]).(pgdir := pg)] == u.slots[q := AddThread(u.slots[q], -1)];
  }

  /** A zombie process is nobody's parent, so its slot can go. */
  lemma WaitKeeps(t: Table, me: nat, pid: int)
    requires Inv(t) && me < |t.slots|
    ensures Inv(Wait(t, me, pid))
  {
    var i := Find(t.slots, ZombieChild(WaitOwner(t.slots[me], me), pid), 0);
    if i < |t.slots| && !t.slots[i].thread {
      var slot := Cleared(t.slots[i]).(pgdir := 0, tcount := 0);
      NoThreads(t, i);
      CountMoves(t, i, slot, i, 0);
      TablesMove(t, i, slot, t.tables - {t.slots[i].pgdir});
      forall j: nat | j < |t.slots| && j != i ensures ThreadOk(t.slots[i := slot], t.slots[j]) {
        assert ThreadOk(t.slots, t.slots[j]);
      }
    }
  }

  lemma ExecKeeps(t: Table, me: nat, pg: nat)
    requires Inv(t) && me < |t.slots| && t.slots[me].state == Alive && !t.slots[me].thread && t.slots[me].tcount == 0
    requires pg > 0 && pg !in t.tables
    ensures Inv(Exec(t, me, pg))
  {
    var slot := t.slots[me].(pgdir := pg);
    CountMoves(t, me, slot, me, 0);
    TablesMove(t, me, slot, t.tables - {t.slots[me].pgdir} + {pg});
    CountZero(t.slots, me);
    forall i: nat | i < |t.slots| ensures ThreadOk(Exec(t, me, pg).slots, Exec(t, me, pg).slots[i]) {
      assert ThreadOk(t.slots, t.slots[i]);
    }
  }

  lemma CleanupKeeps(t: Table, me: nat)
    requires Inv(t) && me < |t.slots|
    ensures Inv(Cleanup(t, me))
  {
    var i := Find(t.slots, ZombieThreadOf(me), 0);
    if i < |t.slots| {
      assert ThreadOk(t.slots, t.slots[i]);
      ReapKeeps(t, i, me, t.slots[i].pgdir);
    }
  }

  lemma FetchKeeps(t: Table, pid: int)
    requires Inv(t)
    requires var i := Find(t.slots, ThreadWithPid(pid), 0); i < |t.slots| ==> t.slots[i].state == Zombie
    ensures Inv(Fetch(t, pid))
  {
    var i := Find(t.slots, ThreadWithPid(pid), 0);
    if i < |t.slots| {
      assert ThreadOk(t.slots, t.slots[i]);
      if t.slots[i].detached {
        MarkKeeps(t, i, t.slots[i].(detached := false, retval := 0));
      } else {
        ReapKeeps(t, i, t.slots[i].parent, 0);
      }
    }
  }

  // ---------------------------------------------------------------- runs

  datatype Event =
    | DoFork(me: nat, pg: nat) | DoClone(me: nat, detached: bool) | DoExec(me: nat, pg: nat)
    | DoReturn(me: nat, v: int) | DoExitBegin(me: nat) | DoCleanup(me: nat) | DoExitFinish(me: nat)
    | DoWait(me: nat, pid: int) | DoFetch(pid: int)

  /** A slot that is running its program, not already inside exit. */
  predicate Runs(t: Table, me: nat) { me < |t.slots| && t.slots[me].state == Alive && !t.slots[me].exiting }

  predicate Exits(t: Table, me: nat) { me < |t.slots| && t.slots[me].state == Alive && t.slots[me].exiting }

  /** Threads are made by processes, return values are fetched after the thread has ended, and exec is
      called without threads.  A new page table is one that is not in use. */
  predicate Enabled(t: Table, e: Event) {
    match e
    case DoFork(me, pg) => Runs(t, me) && pg !in t.tables
    case DoClone(me, detached) => Runs(t, me) && !t.slots[me].thread
    case DoExec(me, pg) => Runs(t, me) && !t.slots[me].thread && t.slots[me].tcount == 0 && pg > 0 && pg !in t.tables
    case DoReturn(me, v) => Runs(t, me)
    case DoExitBegin(me) => Runs(t, me) && me != t.init
    case DoCleanup(me) => Exits(t, me)
    case DoExitFinish(me) => Exits(t, me) && t.slots[me].tcount == 0
    case DoWait(me, pid) => Runs(t, me)
    case DoFetch(pid) => var i := Find(t.slots, ThreadWithPid(pid), 0); i < |t.slots| ==> t.slots[i].state == Zombie
  }

  function Next(t: Table, e: Event): Table
    requires Enabled(t, e)
  {
    match e
    case DoFork(me, pg) => Fork(t, me, pg)
    case DoClone(me, detached) => Clone(t, me, detached)
    case DoExec(me, pg) => Exec(t, me, pg)
    case DoReturn(me, v) => SetRetval(t, me, v)
    case DoExitBegin(me) => ExitBegin(t, me)
    case DoCleanup(me) => Cleanup(t, me)
    case DoExitFinish(me) => ExitFinish(t, me)
    case DoWait(me, pid) => Wait(t, me, pid)
    case DoFetch(pid) => Fetch(t, pid)
  }

  predicate CanRun(t: Table, run: seq<Event>)
    decreases |run|, 0
  {
    run == [] || (CanRun(t, run[..|run| - 1]) && Enabled(Run(t, run[..|run| - 1]), run[|run| - 1]))
  }

  function Run(t: Table, run: seq<Event>): Table
    requires CanRun(t, run)
    decreases |run|, 1
  {
    if run == [] then t else Next(Run(t, run[..|run| - 1]), run[|run| - 1])
  }

  lemma NextKeeps(t: Table, e: Event)
    requires Inv(t) && Enabled(t, e)
    ensures Inv(Next(t, e))
  {
    hide Inv;
    match e
    case DoFork(me, pg) => ForkKeeps(t, me, pg);
    case DoClone(me, detached) => CloneKeeps(t, me, detached);
    case DoExec(me, pg) => ExecKeeps(t, me, pg);
    case DoReturn(me, v) => ReturnKeeps(t, me, v);
    case DoExitBegin(me) => ExitBeginKeeps(t, me);
    case DoCleanup(me) => CleanupKeeps(t, me);
    case DoExitFinish(me) => ExitFinishKeeps(t, me);
    case DoWait(me, pid) => WaitKeeps(t, me, pid);
    case DoFetch(pid) => FetchKeeps(t, pid);
  }

  /** The table userinit leaves: init alone. */
  ghost predicate Initial(t: Table) {
    && t.init < |t.slots| && t.tables == {t.slots[t.init].pgdir} && t.slots[t.init].pgdir > 0
    && t.slots[t.init].state == Alive && !t.slots[t.init].thread && t.slots[t.init].tcount == 0
    && forall i: nat :: i < |t.slots| && i != t.init ==> t.slots[i].state == Unused && t.slots[i].tcount == 0
  }

  lemma InitialInv(t: Table)
    requires Initial(t)
    ensures Inv(t)
  {
    forall p: nat | p < |t.slots| ensures t.slots[p].tcount == Count(t.slots, p) { CountZero(t.slots, p); }
  }

  lemma {:induction false} RunKeeps(t: Table, run: seq<Event>)
    requires Initial(t) && CanRun(t, run)
    ensures Inv(Run(t, run))
    decreases |run|
  {
    if run == [] {
      InitialInv(t);
    } else {
      RunKeeps(t, run[..|run| - 1]);
      NextKeeps(Run(t, run[..|run| - 1]), run[|run| - 1]);
    }
  }

  /** In every run the count of a slot is the number of its threads that have not been reaped. */
  lemma CountIsExact(t: Table, run: seq<Event>, p: nat)
    requires Initial(t) && CanRun(t, run) && p < |Run(t, run).slots|
    ensures Run(t, run).slots[p].tcount == Count(Run(t, run).slots, p)
  {
    RunKeeps(t, run);
  }

  /** In every run the page table that wait frees exists, and no other slot in use still has it. */
  lemma WaitFreesUnshared(t: Table, run: seq<Event>, me: nat, pid: int, j: nat)
    requires Initial(t) && CanRun(t, run) && Enabled(Run(t, run), DoWait(me, pid)) && j < |Run(t, run).slots|
    ensures var r := Run(t, run);
            var i := Find(r.slots, ZombieChild(WaitOwner(r.slots[me], me), pid), 0);
            i < |r.slots| && !r.slots[i].thread ==>
              r.slots[i].pgdir in r.tables && (j != i && r.slots[j].state != Unused ==> r.slots[j].pgdir != r.slots[i].pgdir)
  {
    RunKeeps(t, run);
    var r := Run(t, run);
    var i := Find(r.slots, ZombieChild(WaitOwner(r.slots[me], me), pid), 0);
    if i < |r.slots| && !r.slots[i].thread && j != i && r.slots[j].thread {
      assert ThreadOk(r.slots, r.slots[j]);
      if r.slots[j].state != Unused { NoThreads(r, i); CountZero(r.slots, i); }
    }
  }

  /** In every run the page tables in existence are those of the processes in the table: none is
      leaked and none is freed while its process is there. */
  lemma NoTableLeaks(t: Table, run: seq<Event>, pg: nat)
    requires Initial(t) && CanRun(t, run)
    ensures pg in Run(t, run).tables <==> OwnedTable(Run(t, run).slots, pg)
  {
    RunKeeps(t, run);
  }

  // ---------------------------------------------------------------- life cycles

  /** Pids are handed out once: no slot has the next one. */
  predicate Numbered(t: Table) {
    t.nextpid > 0 && forall i :: 0 <= i < |t.slots| ==> t.slots[i].pid < t.nextpid
  }

  lemma NumberedKeeps(t: Table, e: Event)
    requires Numbered(t) && Enabled(t, e)
    ensures Numbered(Next(t, e))
  {
  }

  lemma {:induction false} RunNumbered(t: Table, run: seq<Event>)
    requires Numbered(t) && CanRun(t, run)
    ensures Numbered(Run(t, run))
    decreases |run|
  {
    if run != [] {
      RunNumbered(t, run[..|run| - 1]);
      NumberedKeeps(Run(t, run[..|run| - 1]), run[|run| - 1]);
    }
  }

  /** The only slot with a pid is the one that a search by that pid finds. */
  lemma FindUnique(slots: seq<Slot>, q: Query, i: nat)
    requires i < |slots| && Matches(q, slots[i]) && forall j :: 0 <= j < |slots| && j != i ==> !Matches(q, slots[j])
    ensures Find(slots, q, 0) == i
  {
  }

  /** The rest of the table when the process in slot i has come and gone. */
  ghost predicate CameAndWent(t: Table, done: Table, i: nat) {
    && |done.slots| == |t.slots| && i < |t.slots| && done.tables == t.tables && done.slots[i].state == Unused
    && forall j :: 0 <= j < |t.slots| && j != i ==>
         done.slots[j] == if !t.slots[j].thread && t.slots[j].parent == i then t.slots[j].(parent := t.init) else t.slots[j]
  }

  /** A process that is forked and exits is reaped by its parent's wait for its pid: its slot and its
      page table are given back.  Nobody else is affected, except processes that still had the slot's
      earlier occupant for a parent. */
  lemma ForkExitWait(t: Table, me: nat, pg: nat)
    requires Numbered(t) && Enabled(t, DoFork(me, pg)) && pg != 0 && !t.slots[me].thread
    requires Find(t.slots, Free, 0) < |t.slots|
    ensures var i := Find(t.slots, Free, 0);
            CameAndWent(t, Wait(ExitFinish(ExitBegin(Fork(t, me, pg), i), i), me, t.nextpid), i)
  {
    hide Find;
    var i := Find(t.slots, Free, 0);
    FoundFree(t.slots);
    var forked := Fork(t, me, pg);
    var gone := ExitBegin(forked, i);
    assert gone.slots[i] == forked.slots[i].(exiting := true);
    var dead := ExitFinish(gone, i);
    var q := ZombieChild(me, t.nextpid);
    assert WaitOwner(dead.slots[me], me) == me;
    forall j | 0 <= j < |dead.slots| && j != i ensures !Matches(q, dead.slots[j]) {
      assert dead.slots[j].pid == t.slots[j].pid;
    }
    FindUnique(dead.slots, q, i);
    var done := Wait(dead, me, t.nextpid);
    assert done.tables == t.tables + {pg} - {pg};
  }

  lemma FoundFree(slots: seq<Slot>)
    ensures var i := Find(slots, Free, 0); i <= |slots| && (i < |slots| ==> slots[i].state == Unused)
  {
  }

  /** A thread that is created, exits with a value and has it fetched gives exactly that value to the
      joiner, and leaves the table as it was, apart from its own slot: in particular the count of its
      process. */
  lemma CloneExitFetch(t: Table, me: nat, v: int)
    requires Numbered(t) && Enabled(t, DoClone(me, false)) && Find(t.slots, Free, 0) < |t.slots|
    ensures var i := Find(t.slots, Free, 0);
            var dead := ExitFinish(ExitBegin(SetRetval(Clone(t, me, false), i, v), i), i);
            var done := Fetch(dead, t.nextpid);
            && FetchValue(dead, t.nextpid) == v
            && |done.slots| == |t.slots| && done.tables == t.tables && done.slots[i].state == Unused
            && forall j :: 0 <= j < |t.slots| && j != i ==> done.slots[j] == t.slots[j]
  {
    hide Find;
    var i := Find(t.slots, Free, 0);
    FoundFree(t.slots);
    var cloned := SetRetval(Clone(t, me, false), i, v);
    var gone := ExitBegin(cloned, i);
    assert gone.slots[i] == cloned.slots[i].(exiting := true);
    var dead := ExitFinish(gone, i);
    var q := ThreadWithPid(t.nextpid);
    forall j | 0 <= j < |dead.slots| && j != i ensures !Matches(q, dead.slots[j]) {
      assert dead.slots[j].pid == t.slots[j].pid;
    }
    FindUnique(dead.slots, q, i);
  }

  // ---------------------------------------------------------------- zombie threads and page tables

  predicate IsZombieThread(slot: Slot, me: int) { slot.thread && slot.state == Zombie && slot.parent == me }

  /** From t to r one zombie thread of me, in slot i, is gone; me counts one thread less. */
  ghost predicate OneReaped(t: Table, r: Table, me: nat, i: nat)
    requires me < |t.slots|
  {
    && i < |t.slots| == |r.slots| && i != me && IsZombieThread(t.slots[i], me) && r.slots[i].state == Unused
    && r.slots[me] == t.slots[me].(tcount := t.slots[me].tcount - 1)
    && (forall j: nat :: j < |t.slots| && j != i && j != me ==> r.slots[j] == t.slots[j])
    && r.tables == t.tables && r.init == t.init && r.nextpid == t.nextpid
  }

  /** A round of cleanupzombiethreads reaps exactly one zombie thread of the caller if there is one, and changes
      nothing if there is none. */
  lemma CleanupReaps(t: Table, me: nat)
    requires Inv(t) && me < |t.slots|
    ensures if exists i: nat :: i < |t.slots| && IsZombieThread(t.slots[i], me)
            then exists i: nat :: OneReaped(t, Cleanup(t, me), me, i) else Cleanup(t, me) == t
  {
    var i := Find(t.slots, ZombieThreadOf(me), 0);
    if i < |t.slots| {
      assert IsZombieThread(t.slots[i], me) && ThreadOk(t.slots, t.slots[i]);
      assert OneReaped(t, Cleanup(t, me), me, i);
    }
  }

  function Cleanups(t: Table, me: nat, n: nat): (r: Table)
    requires me < |t.slots|
    ensures |r.slots| == |t.slots|
    decreases n
  {
    if n == 0 then t else Cleanups(Cleanup(t, me), me, n - 1)
  }

  /** All threads of me have ended. */
  ghost predicate AllEnded(t: Table, me: nat) {
    forall i: nat :: i < |t.slots| && IsThreadOf(t.slots[i], me) ==> t.slots[i].state == Zombie
  }

  /** So the loop of exit gets to the end: once all threads of a process have ended, as many rounds as it counts
      threads bring its count to 0. */
  lemma {:induction false} CleanupsEnd(t: Table, me: nat)
    requires Inv(t) && me < |t.slots| && AllEnded(t, me)
    ensures t.slots[me].tcount >= 0 && Cleanups(t, me, t.slots[me].tcount).slots[me].tcount == 0
    decreases t.slots[me].tcount
  {
    hide Inv, Cleanup, AllEnded, OneReaped;
    SomeEnded(t, me);
    if t.slots[me].tcount > 0 {
      CleanupReaps(t, me);
      var r := Cleanup(t, me);
      var i: nat :| OneReaped(t, r, me, i);
      StillEnded(t, r, me, i);
      CleanupKeeps(t, me);
      CleanupsEnd(r, me);
    }
  }

  lemma SomeEnded(t: Table, me: nat)
    requires Inv(t) && me < |t.slots| && AllEnded(t, me)
    ensures t.slots[me].tcount >= 0
    ensures t.slots[me].tcount > 0 ==> exists i: nat :: i < |t.slots| && IsZombieThread(t.slots[i], me)
  {
    CountZero(t.slots, me);
    if t.slots[me].tcount > 0 {
      var k: nat :| k < |t.slots| && IsThreadOf(t.slots[k], me);
      assert IsZombieThread(t.slots[k], me);
    }
  }

  lemma StillEnded(t: Table, r: Table, me: nat, i: nat)
    requires me < |t.slots| && AllEnded(t, me) && OneReaped(t, r, me, i)
    ensures AllEnded(r, me) && me < |r.slots| && r.slots[me].tcount == t.slots[me].tcount - 1
  {
    forall j: nat | j < |r.slots| && IsThreadOf(r.slots[j], me) ensures r.slots[j].state == Zombie {
      assert IsThreadOf(t.slots[j], me);
    }
  }

  /** A thread born in slot i shares its maker's page table and is counted; dead, it has dropped the page table;
      in the end the table is as before, apart from its slot. */
  ghost predicate CameAndLeft(t: Table, born: Table, dead: Table, done: Table, me: nat, i: nat) {
    && me < |t.slots| && i < |t.slots| == |born.slots| == |dead.slots| == |done.slots| && done.tables == t.tables
    && born.slots[i].state == Alive && born.slots[i].pgdir == t.slots[me].pgdir && born.slots[me].tcount == t.slots[me].tcount + 1
    && dead.slots[i].pgdir == 0 && done.slots[i].state == Unused
    && forall j :: 0 <= j < |t.slots| && j != i ==> done.slots[j] == t.slots[j]
  }

  /** A detached thread is created in slot i and ends with a value. */
  lemma DetachedEnds(t: Table, me: nat, v: int)
    requires Numbered(t) && Enabled(t, DoClone(me, true)) && Find(t.slots, Free, 0) < |t.slots|
    ensures var i := Find(t.slots, Free, 0);
      var dead := ExitFinish(ExitBegin(SetRetval(Clone(t, me, true), i, v), i), i);
      && |dead.slots| == |t.slots| && dead.tables == t.tables && i != me
      && dead.slots[i] == Slot(Zombie, t.nextpid, me, true, true, 0, t.slots[i].tcount, true, v)
      && dead.slots[me] == t.slots[me].(tcount := t.slots[me].tcount + 1)
      && forall j :: 0 <= j < |t.slots| && j != i && j != me ==> dead.slots[j] == t.slots[j]
  {
    hide Find, Numbered;
    FoundFree(t.slots);
  }

  /** A detached thread that is created, ends with a value, has it fetched and is then reaped. */
  lemma DetachedReaped(t: Table, me: nat, v: int)
    requires Inv(t) && Numbered(t) && Enabled(t, DoClone(me, true)) && Find(t.slots, Free, 0) < |t.slots|
    requires forall j: nat :: j < |t.slots| ==> !IsZombieThread(t.slots[j], me)
    ensures var i := Find(t.slots, Free, 0);
      var born := Clone(t, me, true);
      var dead := ExitFinish(ExitBegin(SetRetval(born, i, v), i), i);
      FetchValue(dead, t.nextpid) == v && CameAndLeft(t, born, dead, Cleanup(Fetch(dead, t.nextpid), me), me, i)
  {
    hide Find, Inv, Abandon;
    var i, born := Find(t.slots, Free, 0), Clone(t, me, true);
    FoundFree(t.slots);
    DetachedEnds(t, me, v);
    var dead := ExitFinish(ExitBegin(SetRetval(born, i, v), i), i);
    FindUnique(dead.slots, ThreadWithPid(t.nextpid), i);
    var fetched := Fetch(dead, t.nextpid);
    forall j | 0 <= j < |dead.slots| && j != i ensures !Matches(ZombieThreadOf(me), fetched.slots[j]) {
      assert !IsZombieThread(t.slots[j], me);
    }
    FindUnique(fetched.slots, ZombieThreadOf(me), i);
  }

  /** A thread waits for the children of its process. */
  lemma ThreadWaitsForProcess(t: Table, me: nat, pid: int)
    requires Inv(t) && me < |t.slots| && t.slots[me].state == Alive && t.slots[me].thread
    ensures var owner := t.slots[me].parent;
      0 <= owner < |t.slots| && !t.slots[owner].thread && Wait(t, me, pid) == Wait(t, owner, pid)
  {
    assert ThreadOk(t.slots, t.slots[me]);
  }

  /** exec gives the caller its new page table and frees exactly the old one. */
  lemma ExecReplaces(t: Table, me: nat, pg: nat)
    requires Inv(t) && Enabled(t, DoExec(me, pg))
    ensures var r := Exec(t, me, pg);
      && r.slots[me].pgdir == pg && t.slots[me].pgdir in t.tables && t.slots[me].pgdir !in r.tables
      && (forall x: nat :: x in r.tables <==> x == pg || (x in t.tables && x != t.slots[me].pgdir))
      && forall j: nat :: j < |t.slots| && j != me ==> j < |r.slots| && r.slots[j] == t.slots[j]
  {
  }

  // ---------------------------------------------------------------- the table itself

  /** ptable: each method is one critical section of proc.c. */
  class ProcessTable {
    var slots: array<Slot>
    var init: nat
    var nextpid: int
    ghost var tables: set<nat>

    ghost function View(): Table
      reads this, slots
    {
      Table(slots[..], init, nextpid, tables)
    }

    constructor (n: nat, init: nat, pg: nat)
      requires init < n && pg > 0
      ensures Initial(View()) && Numbered(View()) && fresh(slots) && slots.Length == n && this.init == init
    {
      var empty := Slot(Unused, 0, NONE, false, false, 0, 0, false, 0);
      slots := new Slot[n](_ => empty);
      this.init, nextpid, tables := init, 2, {pg};
      new;
      slots[init] := Slot(Alive, 1, NONE, false, false, pg, 0, false, 0);
    }

    method Search(q: Query) returns (i: nat)
      ensures i == Find(slots[..], q, 0)
    {
      i := 0;
      while i < slots.Length && !Matches(q, slots[i])
        invariant i <= slots.Length && Find(slots[..], q, 0) == Find(slots[..], q, i)
      {
        i := i + 1;
      }
    }

    /** fork by a process or thread without ctflag. */
    method ForkProcess(me: nat, pg: nat) returns (pid: int)
      requires me < slots.Length
      modifies this`nextpid, this`tables, slots
      ensures View() == Fork(old(View()), me, pg)
      ensures pid == if Find(old(slots[..]), Free, 0) == slots.Length || pg == 0 then -1 else old(nextpid)
    {
      var i := Search(Free);
      if i == slots.Length { return -1; }
      pid := nextpid;
      nextpid := nextpid + 1;
      if pg == 0 {
        slots[i] := slots[i].(pid := pid, pgdir := 0);
        return -1;
      }
      slots[i] := Slot(Alive, pid, me, false, false, pg, 0, false, slots[i].retval);
      tables := tables + {pg};
    }

    /** fork with ctflag set. */
    method CloneThread(me: nat, detached: bool) returns (pid: int)
      requires me < slots.Length
      modifies this`nextpid, slots
      ensures View() == Clone(old(View()), me, detached)
      ensures pid == if View() == old(View()) then -1 else old(nextpid)
    {
      var i := Search(Free);
      if i == slots.Length { return -1; }
      pid := nextpid;
      var caller := slots[me];
      var owner := if caller.thread then caller.parent else me;
      slots[i] := Slot(Alive, pid, owner, true, detached, caller.pgdir, slots[i].tcount, false, -1);
      slots[me] := AddThread(slots[me], 1);
      nextpid := nextpid + 1;
      assert old(View()).nextpid != View().nextpid;
    }

    /** The loop of exit that passes children to init. */
    method AbandonChildren(me: nat)
      modifies slots
      ensures slots[..] == Abandon(old(slots[..]), me, init)
    {
      var i := 0;
      while i < slots.Length
        invariant i <= slots.Length
        invariant forall j :: i <= j < slots.Length ==> slots[j] == old(slots[j])
        invariant forall j :: 0 <= j < i ==> slots[j] == Abandon(old(slots[..]), me, init)[j]
      {
        if !slots[i].thread && slots[i].parent == me {
          slots[i] := slots[i].(parent := init);
        }
        i := i + 1;
      }
    }

    method BeginExit(me: nat)
      requires me < slots.Length
      modifies slots
      ensures View() == ExitBegin(old(View()), me)
    {
      if !slots[me].thread { AbandonChildren(me); }
      if slots[me].thread && slots[me].detached {
        slots[me] := slots[me].(pgdir := 0);
      }
      slots[me] := slots[me].(exiting := true);
    }

    /** The waiting loop of exit: one call per round, until the count is 0. */
    method CleanupZombieThreads(me: nat)
      requires me < slots.Length
      modifies slots
      ensures View() == Cleanup(old(View()), me)
    {
      var i := Search(ZombieThreadOf(me));
      if i < slots.Length {
        slots[me] := AddThread(slots[me], -1);
        slots[i] := Cleared(slots[i]);
      }
    }

    method FinishExit(me: nat)
      requires me < slots.Length
      modifies slots
      ensures View() == ExitFinish(old(View()), me)
    {
      slots[me] := slots[me].(state := Zombie);
    }

    /** One pass of wait over the table: a pid when a zombie child was found, otherwise whether there
        is anybody to wait for. */
    method WaitPass(me: nat, tid: int) returns (pid: int, havekids: bool)
      requires me < slots.Length
      modifies this`tables, slots
      ensures View() == Wait(old(View()), me, tid)
      ensures var owner := WaitOwner(old(slots[me]), me);
              var i := Find(old(slots[..]), ZombieChild(owner, tid), 0);
              if i < slots.Length then pid == old(slots[..])[i].pid
              else pid == -1 && (havekids <==> exists j :: 0 <= j < slots.Length && Child(old(slots[..])[j], owner, tid))
    {
      havekids := false;
      ghost var before := slots[..];
      var owner := WaitOwner(slots[me], me);
      var i := 0;
      while i < slots.Length
        invariant i <= slots.Length && slots[..] == before && View() == old(View())
        invariant Find(before, ZombieChild(owner, tid), 0) == Find(before, ZombieChild(owner, tid), i)
        invariant havekids <==> exists j :: 0 <= j < i && Child(before[j], owner, tid)
      {
        if slots[i].parent == owner && (tid == 0 || slots[i].pid == tid) {
          havekids := true;
          if slots[i].state == Zombie {
            pid := slots[i].pid;
            if !slots[i].thread {
              tables := tables - {slots[i].pgdir};
              slots[i] := Cleared(slots[i]).(pgdir := 0, tcount := 0);
            }
            return;
          }
        }
        i := i + 1;
      }
      return -1, havekids;
    }

    method GetThreadRetval(tid: int) returns (retval: int)
      modifies slots
      ensures View() == Fetch(old(View()), tid) && retval == FetchValue(old(View()), tid)
    {
      retval := -1;
      var i := Search(ThreadWithPid(tid));
      if i < slots.Length {
        retval := slots[i].retval;
        if slots[i].detached {
          slots[i] := slots[i].(detached := false, retval := 0);
        } else if 0 <= slots[i].parent < slots.Length {
          var p := slots[i].parent;
          slots[p] := AddThread(slots[p], -1);
          slots[i] := Cleared(slots[i]).(pgdir := 0);
        }
      }
    }
  }
}
