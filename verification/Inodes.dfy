/** The inode cache of fs.c: references, locks and the freeing of inodes, interleaved. */
module Inodes {

  /** Device and inode number. */
  type Key = (nat, nat)

  /** An inode on disk; kind 0 is free. */
  datatype Dinode = Dinode(kind: nat, nlink: nat, size: nat, addrs: seq<nat>)

  /** A slot of icache: flags as booleans, and the copy of the inode. */
  datatype Slot = Slot(key: Key, ref: nat, busy: bool, valid: bool, copy: Dinode)

  // ---------------------------------------------------------------- iget

  predicate Caches(slot: Slot, key: Key) { slot.ref > 0 && slot.key == key }

  /** The slot that iget settles on among slots k and up: the one that has the inode, else the first
      that is free, else none. */
  function Seek(cache: seq<Slot>, key: Key, k: nat, empty: nat): (i: nat)
    requires k <= |cache|
    decreases |cache| - k
  {
    if k == |cache| then empty
    else if Caches(cache[k], key) then k
    else Seek(cache, key, k + 1, if empty == |cache| && cache[k].ref == 0 then k else empty)
  }

  /** The slot with the inode if there is one, otherwise a free slot, otherwise the end of the cache. */
  lemma {:induction false} SeekFinds(cache: seq<Slot>, key: Key, k: nat, empty: nat)
    requires k <= |cache| && (empty == |cache| || (empty < k && cache[empty].ref == 0))
    ensures var i := Seek(cache, key, k, empty);
            i <= |cache| && (i < |cache| ==> Caches(cache[i], key) || cache[i].ref == 0)
    ensures var i := Seek(cache, key, k, empty);
            (i == |cache| || cache[i].ref == 0) ==> forall j :: k <= j < |cache| ==> !Caches(cache[j], key)
    ensures Seek(cache, key, k, empty) == |cache| ==> empty == |cache| && forall j :: k <= j < |cache| ==> cache[j].ref > 0
    decreases |cache| - k
  {
    if k < |cache| && !Caches(cache[k], key) {
      SeekFinds(cache, key, k + 1, if empty == |cache| && cache[k].ref == 0 then k else empty);
    }
  }

  function Got(slot: Slot, key: Key): Slot {
    if Caches(slot, key) then slot.(ref := slot.ref + 1) else slot.(key := key, ref := 1, busy := false, valid := false)
  }

  class Icache {
    const slots: array<Slot>

    constructor (n: nat)
      ensures fresh(slots) && slots.Length == n && forall i :: 0 <= i < n ==> slots[i].ref == 0
    {
      slots := new Slot[n](_ => Slot((0, 0), 0, false, false, Dinode(0, 0, 0, [])));
    }

    /** iget: slot i now refers to the inode; the end of the cache stands for the panic. */
    method Iget(key: Key) returns (i: nat)
      modifies slots
      ensures i == Seek(old(slots[..]), key, 0, slots.Length)
      ensures slots[..] == if i < slots.Length then old(slots[..])[i := Got(old(slots[..])[i], key)] else old(slots[..])
    {
      var empty: nat := slots.Length;
      i := 0;
      while i < slots.Length
        invariant i <= slots.Length && slots[..] == old(slots[..])
        invariant Seek(slots[..], key, 0, slots.Length) == Seek(slots[..], key, i, empty)
        invariant empty == slots.Length || (empty < i && slots[empty].ref == 0)
      {
        if slots[i].ref > 0 && slots[i].key == key {
          slots[i] := slots[i].(ref := slots[i].ref + 1);
          return;
        }
        if empty == slots.Length && slots[i].ref == 0 { empty := i; }
        i := i + 1;
      }
      i := empty;
      if i < slots.Length {
        slots[i] := slots[i].(key := key, ref := 1, busy := false, valid := false);
      }
    }
  }

  // ---------------------------------------------------------------- calls in progress

  type Pid = nat
  type Rid = nat

  /** Where a call is: in ilock with the slot busy, holding the lock (dirty when the copy differs from
      the disk), in iput before truncating, before clearing the type and before clearing the flags, or
      in ialloc before its iget. */
  datatype Pc =
    | Idle
    | Locking(r: Rid)
    | Locked(r: Rid, dirty: bool)
    | Trunc(r: Rid) | Free(r: Rid) | Clear(r: Rid)
    | Allocated(key: Key)

  /** refs are the references handed out and not yet put, each to a slot. */
  datatype State = State(disk: map<Key, Dinode>, cache: seq<Slot>, refs: map<Rid, nat>, procs: map<Pid, Pc>)

  datatype Event =
    | Get(r: Rid, key: Key) | Dup(r: Rid, r2: Rid)
    | Lock(p: Pid, r: Rid) | Load(p: Pid) | Edit(p: Pid, d: Dinode) | Update(p: Pid) | Unlock(p: Pid)
    | Put(p: Pid, r: Rid) | Go(p: Pid)
    | Alloc(p: Pid, key: Key, kind: nat) | AllocGet(p: Pid, r: Rid)

  /** The reference a call works with. */
  predicate Uses(pc: Pc, r: Rid) { !pc.Idle? && !pc.Allocated? && pc.r == r }

  predicate Putting(pc: Pc) { pc.Trunc? || pc.Free? || pc.Clear? }

  /** The slot of reference r. */
  function At(s: State, r: Rid): Slot
    requires r in s.refs && s.refs[r] < |s.cache|
  {
    s.cache[s.refs[r]]
  }

  function SetSlot(s: State, r: Rid, slot: Slot): State
    requires r in s.refs && s.refs[r] < |s.cache|
  {
    s.(cache := s.cache[s.refs[r] := slot])
  }

  predicate Has(s: State, r: Rid) { r in s.refs && s.refs[r] < |s.cache| && At(s, r).key in s.disk }

  predicate IsIdle(s: State, p: Pid) { p in s.procs ==> s.procs[p].Idle? }

  /** iget of key, as new reference r. */
  function GetRef(s: State, r: Rid, key: Key): State {
    var i := Seek(s.cache, key, 0, |s.cache|);
    if i < |s.cache| then s.(cache := s.cache[i := Got(s.cache[i], key)], refs := s.refs[r := i]) else s
  }

  /** The last step of iput. */
  function DropRef(s: State, r: Rid): State
    requires Has(s, r)
  {
    var slot := At(s, r);
    SetSlot(s, r, slot.(ref := if slot.ref > 0 then slot.ref - 1 else 0)).(refs := s.refs - {r})
  }

  /** iput has to free the inode. */
  predicate LastUse(slot: Slot) { slot.ref == 1 && slot.valid && slot.copy.nlink == 0 }

  /** ilock does not panic: the inode is in memory already, or it is not free on disk. */
  predicate Loadable(s: State, slot: Slot) { slot.valid || (slot.key in s.disk && s.disk[slot.key].kind != 0) }

  /** iget does not panic. */
  predicate Room(s: State, key: Key) { Seek(s.cache, key, 0, |s.cache|) < |s.cache| }

  predicate Enabled(s: State, e: Event) {
    match e
    case Get(r, key) => r !in s.refs && key in s.disk && Room(s, key)
    case Dup(r, r2) => Has(s, r) && r2 !in s.refs && forall q :: q in s.procs && Putting(s.procs[q]) ==> s.procs[q].r != r
    case Lock(p, r) =>
      Has(s, r) && IsIdle(s, p) && !At(s, r).busy && forall q :: q in s.procs && Putting(s.procs[q]) ==> s.procs[q].r != r
    case Load(p) =>
      p in s.procs && s.procs[p].Locking? && Has(s, s.procs[p].r) && Loadable(s, At(s, s.procs[p].r))
    case Edit(p, d) => p in s.procs && s.procs[p].Locked? && Has(s, s.procs[p].r) && d.kind != 0
    case Update(p) => p in s.procs && s.procs[p].Locked? && Has(s, s.procs[p].r)
    case Unlock(p) => p in s.procs && s.procs[p].Locked? && !s.procs[p].dirty && Has(s, s.procs[p].r)
    case Put(p, r) => Has(s, r) && IsIdle(s, p) && forall q :: q in s.procs ==> !Uses(s.procs[q], r)
    case Go(p) => p in s.procs && Putting(s.procs[p]) && Has(s, s.procs[p].r)
    case Alloc(p, key, kind) => IsIdle(s, p) && key in s.disk && s.disk[key].kind == 0 && kind != 0
    case AllocGet(p, r) =>
      p in s.procs && s.procs[p].Allocated? && r !in s.refs && s.procs[p].key in s.disk && Room(s, s.procs[p].key)
  }

  function Move(s: State, p: Pid, pc: Pc): State { s.(procs := s.procs[p := pc]) }

  function Next(s: State, e: Event): State
    requires Enabled(s, e)
  {
    match e
    case Get(r, key) => GetRef(s, r, key)
    case Dup(r, r2) =>
      SetSlot(s, r, At(s, r).(ref := At(s, r).ref + 1)).(refs := s.refs[r2 := s.refs[r]])
    case Lock(p, r) => Move(SetSlot(s, r, At(s, r).(busy := true)), p, Locking(r))
    case Load(p) =>
      var r := s.procs[p].r;
      var slot := At(s, r);
      Move(SetSlot(s, r, if slot.valid then slot else slot.(valid := true, copy := s.disk[slot.key])), p, Locked(r, false))
    case Edit(p, d) =>
      var r := s.procs[p].r;
      Move(SetSlot(s, r, At(s, r).(copy := d)), p, Locked(r, true))
    case Update(p) =>
      var r := s.procs[p].r;
      Move(s.(disk := s.disk[At(s, r).key := At(s, r).copy]), p, Locked(r, false))
    case Unlock(p) =>
      var r := s.procs[p].r;
      Move(SetSlot(s, r, At(s, r).(busy := false)), p, Idle)
    case Put(p, r) =>
      if LastUse(At(s, r)) then Move(SetSlot(s, r, At(s, r).(busy := true)), p, Trunc(r)) else DropRef(s, r)
    case Go(p) => Freeing(s, p)
    case Alloc(p, key, kind) => Move(s.(disk := s.disk[key := Dinode(kind, 0, 0, [])]), p, Allocated(key))
    case AllocGet(p, r) => Move(GetRef(s, r, s.procs[p].key), p, Idle)
  }

  /** The steps of iput behind its decision: itrunc with its iupdate, the type with its iupdate, and
      the flags with the reference. */
  function Freeing(s: State, p: Pid): State
    requires p in s.procs && Putting(s.procs[p]) && Has(s, s.procs[p].r)
  {
    var r := s.procs[p].r;
    var slot := At(s, r);
    match s.procs[p]
    case Trunc(_) =>
      var copy := slot.copy.(size := 0, addrs := []);
      Move(SetSlot(s, r, slot.(copy := copy)).(disk := s.disk[slot.key := copy]), p, Free(r))
    case Free(_) =>
      var copy := slot.copy.(kind := 0);
      Move(SetSlot(s, r, slot.(copy := copy)).(disk := s.disk[slot.key := copy]), p, Clear(r))
    case Clear(_) => Move(DropRef(SetSlot(s, r, slot.(busy := false, valid := false)), r), p, Idle)
  }

  predicate CanRun(s: State, run: seq<Event>)
    decreases |run|, 0
  {
    run == [] || (CanRun(s, run[..|run| - 1]) && Enabled(Run(s, run[..|run| - 1]), run[|run| - 1]))
  }

  function Run(s: State, run: seq<Event>): State
    requires CanRun(s, run)
    decreases |run|, 1
  {
    if run == [] then s else Next(Run(s, run[..|run| - 1]), run[|run| - 1])
  }

  // ---------------------------------------------------------------- invariants

  ghost function Holders(refs: map<Rid, nat>, i: nat): set<Rid> { set r | r in refs && refs[r] == i }

  /** A slot's count is the number of references to it. */
  ghost predicate CountInv(s: State) {
    && (forall r :: r in s.refs ==> s.refs[r] < |s.cache|)
    && (forall i: nat :: i < |s.cache| ==> s.cache[i].ref == |Holders(s.refs, i)|)
  }

  /** Slots in use hold different inodes. */
  ghost predicate UniqueInv(s: State) {
    && (forall i: nat :: i < |s.cache| && s.cache[i].ref > 0 ==> s.cache[i].key in s.disk)
    && (forall i: nat, j: nat :: i < j < |s.cache| && s.cache[i].ref > 0 && s.cache[j].ref > 0 ==> s.cache[i].key != s.cache[j].key)
  }

  /** The call has the slot of its reference busy. */
  predicate Busies(pc: Pc) { !pc.Idle? && !pc.Allocated? }

  predicate HasBusy(s: State, r: Rid) { r in s.refs && s.refs[r] < |s.cache| && At(s, r).busy }

  /** Two calls do not have the same slot busy. */
  predicate Separate(s: State, pc: Pc, qc: Pc) {
    Busies(pc) && Busies(qc) && pc.r in s.refs && qc.r in s.refs ==> s.refs[pc.r] != s.refs[qc.r]
  }

  ghost predicate Owned(s: State, i: nat) { exists p :: p in s.procs && Owns(s, s.procs[p], i) }

  predicate Owns(s: State, pc: Pc, i: nat) { Busies(pc) && pc.r in s.refs && s.refs[pc.r] == i }

  ghost predicate BusyInv(s: State) {
    && (forall p :: p in s.procs && Busies(s.procs[p]) ==> HasBusy(s, s.procs[p].r))
    && (forall p, q :: p in s.procs && q in s.procs && p != q ==> Separate(s, s.procs[p], s.procs[q]))
    && (forall i: nat :: i < |s.cache| && s.cache[i].ref > 0 && s.cache[i].busy ==> Owned(s, i))
  }

  /** The copy is the inode on disk, and the inode is in use. */
  predicate IsFresh(disk: map<Key, Dinode>, slot: Slot) {
    slot.key in disk && slot.copy == disk[slot.key] && slot.copy.kind != 0
  }

  ghost predicate CallOk(s: State, pc: Pc) {
    Busies(pc) && Has(s, pc.r) ==>
      match pc
      case Locking(r) => At(s, r).valid ==> IsFresh(s.disk, At(s, r))
      case Locked(r, dirty) =>
        At(s, r).valid && (if dirty then At(s, r).copy.kind != 0 && s.disk[At(s, r).key].kind != 0 else IsFresh(s.disk, At(s, r)))
      case Trunc(r) => At(s, r).valid && IsFresh(s.disk, At(s, r)) && At(s, r).copy.nlink == 0
      case Free(r) => At(s, r).valid && IsFresh(s.disk, At(s, r)) && At(s, r).copy.nlink == 0
      case _ => true
  }

  ghost predicate FreshInv(s: State) {
    && (forall i: nat :: i < |s.cache| && s.cache[i].ref > 0 && s.cache[i].valid && !s.cache[i].busy ==> IsFresh(s.disk, s.cache[i]))
    && (forall p :: p in s.procs ==> CallOk(s, s.procs[p]))
    && (forall p :: p in s.procs && s.procs[p].Allocated? ==> s.procs[p].key in s.disk)
  }

  ghost predicate Inv(s: State) {
    CountInv(s) && UniqueInv(s) && BusyInv(s) && FreshInv(s)
  }

  lemma HoldersAdd(refs: map<Rid, nat>, r: Rid, i: nat, j: nat)
    requires r !in refs
    ensures |Holders(refs[r := i], j)| == |Holders(refs, j)| + if j == i then 1 else 0
  {
    if j == i {
      assert Holders(refs[r := i], j) == Holders(refs, j) + {r};
    } else {
      assert Holders(refs[r := i], j) == Holders(refs, j);
    }
  }

  lemma HoldersDrop(refs: map<Rid, nat>, r: Rid, j: nat)
    requires r in refs
    ensures |Holders(refs - {r}, j)| == |Holders(refs, j)| - if j == refs[r] then 1 else 0
  {
    if j == refs[r] {
      assert r in Holders(refs, j);
      assert Holders(refs - {r}, j) == Holders(refs, j) - {r};
    } else {
      assert Holders(refs - {r}, j) == Holders(refs, j);
    }
  }

  /** A referenced slot has a positive count. */
  lemma RefCounts(s: State, r: Rid)
    requires CountInv(s) && r in s.refs
    ensures At(s, r).ref > 0
  {
    assert r in Holders(s.refs, s.refs[r]);
  }

  lemma GetCount(s: State, r: Rid, key: Key)
    requires CountInv(s) && r !in s.refs && Room(s, key)
    ensures CountInv(GetRef(s, r, key))
  {
    SeekFinds(s.cache, key, 0, |s.cache|);
    var i, t := Seek(s.cache, key, 0, |s.cache|), GetRef(s, r, key);
    forall j: nat | j < |t.cache| ensures t.cache[j].ref == |Holders(t.refs, j)| { HoldersAdd(s.refs, r, i, j); }
  }

  lemma GetUnique(s: State, r: Rid, key: Key)
    requires UniqueInv(s) && Room(s, key) && key in s.disk
    ensures UniqueInv(GetRef(s, r, key))
  {
    SeekFinds(s.cache, key, 0, |s.cache|);
  }

  lemma DropCount(s: State, r: Rid)
    requires CountInv(s) && Has(s, r)
    ensures CountInv(DropRef(s, r))
  {
    RefCounts(s, r);
    var t := DropRef(s, r);
    forall j: nat | j < |t.cache| ensures t.cache[j].ref == |Holders(t.refs, j)| { HoldersDrop(s.refs, r, j); }
  }

  lemma CountKeeps(s: State, e: Event)
    requires CountInv(s) && Enabled(s, e)
    ensures CountInv(Next(s, e))
  {
    match e
    case Get(r, key) => GetCount(s, r, key);
    case AllocGet(p, r) => GetCount(s, r, s.procs[p].key);
    case Dup(r, r2) => {
      var t := Next(s, e);
      forall j: nat | j < |t.cache| ensures t.cache[j].ref == |Holders(t.refs, j)| { HoldersAdd(s.refs, r2, s.refs[r], j); }
    }
    case Put(p, r) => DropCount(s, r);
    case Go(p) => {
      if s.procs[p].Clear? {
        var r := s.procs[p].r;
        var slot := At(s, r);
        DropCount(SetSlot(s, r, slot.(busy := false, valid := false)), r);
      }
    }
    case _ =>
  }

  /** A slot changes, but neither its inode nor, upwards from 0, its count. */
  lemma SlotUnique(s: State, t: State, i: nat)
    requires UniqueInv(s) && i < |s.cache| == |t.cache| && t.disk.Keys == s.disk.Keys && t.cache == s.cache[i := t.cache[i]]
    requires t.cache[i].key == s.cache[i].key && (t.cache[i].ref > 0 ==> s.cache[i].ref > 0)
    ensures UniqueInv(t)
  {
  }

  lemma UniqueKeeps(s: State, e: Event)
    requires CountInv(s) && UniqueInv(s) && Enabled(s, e)
    ensures UniqueInv(Next(s, e))
  {
    hide CountInv;
    var t := Next(s, e);
    match e
    case Get(r, key) => GetUnique(s, r, key);
    case AllocGet(p, r) => GetUnique(s, r, s.procs[p].key);
    case Alloc(p, key, kind) =>
    case Dup(r, r2) => {
      RefCounts(s, r);
      hide UniqueInv;
      SlotUnique(s, t, s.refs[r]);
    }
    case Lock(p, r) => {
      hide UniqueInv;
      SlotUnique(s, t, s.refs[r]);
    }
    case Put(p, r) => {
      hide UniqueInv;
      SlotUnique(s, t, s.refs[r]);
    }
    case _ => {
      hide UniqueInv;
      SlotUnique(s, t, s.refs[s.procs[e.p].r]);
    }
  }

  /** A call goes on with its slot busy, or takes a slot that nobody has busy. */
  lemma MoveBusy(s: State, p: Pid, r: Rid, slot: Slot, pc: Pc)
    requires BusyInv(s) && r in s.refs && s.refs[r] < |s.cache| && Busies(pc) && pc.r == r && slot.busy
    requires forall q :: q in s.procs && q != p ==> !Owns(s, s.procs[q], s.refs[r])
    requires p in s.procs && Busies(s.procs[p]) ==> s.procs[p].r == r
    ensures BusyInv(Move(SetSlot(s, r, slot), p, pc))
  {
    var t := Move(SetSlot(s, r, slot), p, pc);
    forall i: nat | i < |t.cache| && t.cache[i].ref > 0 && t.cache[i].busy ensures Owned(t, i) {
      if i == s.refs[r] {
        assert Owns(t, t.procs[p], i);
      } else {
        var q :| q in s.procs && Owns(s, s.procs[q], i);
        assert Owns(t, t.procs[q], i);
      }
    }
  }

  lemma AloneOn(s: State, p: Pid)
    requires BusyInv(s) && p in s.procs && Busies(s.procs[p])
    ensures s.procs[p].r in s.refs && s.refs[s.procs[p].r] < |s.cache| && At(s, s.procs[p].r).busy
    ensures forall q :: q in s.procs && q != p ==> !Owns(s, s.procs[q], s.refs[s.procs[p].r])
  {
    forall q | q in s.procs && q != p ensures !Owns(s, s.procs[q], s.refs[s.procs[p].r]) {
      assert Separate(s, s.procs[p], s.procs[q]);
    }
  }

  /** A call lets go of its slot. */
  lemma FreeBusy(s: State, p: Pid, slot: Slot)
    requires BusyInv(s) && p in s.procs && Busies(s.procs[p]) && s.procs[p].r in s.refs
    requires s.refs[s.procs[p].r] < |s.cache| && !slot.busy
    ensures BusyInv(Move(SetSlot(s, s.procs[p].r, slot), p, Idle))
  {
    AloneOn(s, p);
    var t := Move(SetSlot(s, s.procs[p].r, slot), p, Idle);
    forall q | q in t.procs && Busies(t.procs[q]) ensures HasBusy(t, t.procs[q].r) {
      assert HasBusy(s, s.procs[q].r) && !Owns(s, s.procs[q], s.refs[s.procs[p].r]);
    }
    forall i: nat | i < |t.cache| && t.cache[i].ref > 0 && t.cache[i].busy ensures Owned(t, i) {
      var q :| q in s.procs && Owns(s, s.procs[q], i);
      assert Owns(t, t.procs[q], i);
    }
  }

  /** A reference that no call uses goes. */
  lemma DropBusy(s: State, r: Rid)
    requires BusyInv(s) && Has(s, r) && forall q :: q in s.procs ==> !Uses(s.procs[q], r)
    ensures BusyInv(DropRef(s, r))
  {
    var t := DropRef(s, r);
    forall i: nat | i < |t.cache| && t.cache[i].ref > 0 && t.cache[i].busy ensures Owned(t, i) {
      var q :| q in s.procs && Owns(s, s.procs[q], i);
      assert Owns(t, t.procs[q], i);
    }
    forall q | q in t.procs && Busies(t.procs[q]) ensures HasBusy(t, t.procs[q].r) { assert HasBusy(s, s.procs[q].r); }
  }

  lemma AddBusy(s: State, r: Rid, i: nat, slot: Slot)
    requires BusyInv(s) && r !in s.refs && i < |s.cache| && slot.ref > 0
    requires if s.cache[i].ref > 0 then slot.busy == s.cache[i].busy else !slot.busy
    requires s.cache[i].ref == 0 ==> forall q :: q in s.procs ==> !Owns(s, s.procs[q], i)
    ensures BusyInv(s.(cache := s.cache[i := slot], refs := s.refs[r := i]))
  {
    var t := s.(cache := s.cache[i := slot], refs := s.refs[r := i]);
    forall q | q in t.procs && Busies(t.procs[q]) ensures HasBusy(t, t.procs[q].r) && t.procs[q].r != r {
      assert HasBusy(s, s.procs[q].r) && !(s.cache[i].ref == 0 && Owns(s, s.procs[q], i));
    }
    forall j: nat | j < |t.cache| && t.cache[j].ref > 0 && t.cache[j].busy ensures Owned(t, j) {
      var q :| q in s.procs && Owns(s, s.procs[q], j);
      assert Owns(t, t.procs[q], j);
    }
  }

  lemma GetBusy(s: State, r: Rid, key: Key)
    requires CountInv(s) && BusyInv(s) && r !in s.refs && Room(s, key)
    ensures BusyInv(GetRef(s, r, key))
  {
    SeekFinds(s.cache, key, 0, |s.cache|);
    var i := Seek(s.cache, key, 0, |s.cache|);
    forall q | q in s.procs && s.cache[i].ref == 0 ensures !Owns(s, s.procs[q], i) {
      if Owns(s, s.procs[q], i) { RefCounts(s, s.procs[q].r); }
    }
    AddBusy(s, r, i, Got(s.cache[i], key));
  }

  /** A call that is not in the middle of something changes its place. */
  lemma StepBusy(s: State, p: Pid, pc: Pc)
    requires BusyInv(s) && (p in s.procs ==> !Busies(s.procs[p])) && !Busies(pc)
    ensures BusyInv(Move(s, p, pc))
  {
    var t := Move(s, p, pc);
    forall i: nat | i < |t.cache| && t.cache[i].ref > 0 && t.cache[i].busy ensures Owned(t, i) {
      var q :| q in s.procs && Owns(s, s.procs[q], i);
      assert Owns(t, t.procs[q], i);
    }
  }

  lemma {:induction false} OneHolder(refs: map<Rid, nat>, i: nat, r: Rid, q: Rid)
    requires r in refs && q in refs && refs[r] == refs[q] == i && |Holders(refs, i)| == 1
    ensures r == q
  {
    var h := Holders(refs, i);
    assert r in h && q in h && |h - {r}| == 0;
    assert q != r ==> q in h - {r};
  }

  /** A slot whose last reference is being put, by nobody else's leave, is not busy. */
  lemma LastNotBusy(s: State, r: Rid)
    requires CountInv(s) && BusyInv(s) && Has(s, r) && (forall q :: q in s.procs ==> !Uses(s.procs[q], r)) && At(s, r).ref == 1
    ensures !At(s, r).busy && forall q :: q in s.procs ==> !Owns(s, s.procs[q], s.refs[r])
  {
    forall q | q in s.procs ensures !Owns(s, s.procs[q], s.refs[r]) {
      if Owns(s, s.procs[q], s.refs[r]) { OneHolder(s.refs, s.refs[r], r, s.procs[q].r); }
    }
  }

  /** Nobody has a slot that is not busy. */
  lemma IdleSlot(s: State, r: Rid)
    requires BusyInv(s) && Has(s, r) && !At(s, r).busy
    ensures forall q :: q in s.procs ==> !Owns(s, s.procs[q], s.refs[r])
  {
    forall q | q in s.procs ensures !Owns(s, s.procs[q], s.refs[r]) {
      if Busies(s.procs[q]) { assert HasBusy(s, s.procs[q].r); }
    }
  }

  lemma BusyKeeps(s: State, e: Event)
    requires CountInv(s) && BusyInv(s) && Enabled(s, e)
    ensures BusyInv(Next(s, e))
  {
    hide BusyInv, CountInv;
    match e
    case Get(r, key) => GetBusy(s, r, key);
    case AllocGet(p, r) => {
      GetBusy(s, r, s.procs[p].key);
      StepBusy(GetRef(s, r, s.procs[p].key), p, Idle);
    }
    case Dup(r, r2) => {
      RefCounts(s, r);
      AddBusy(s, r2, s.refs[r], At(s, r).(ref := At(s, r).ref + 1));
    }
    case Lock(p, r) => {
      IdleSlot(s, r);
      MoveBusy(s, p, r, At(s, r).(busy := true), Locking(r));
    }
    case Load(p) => {
      AloneOn(s, p);
      var r := s.procs[p].r;
      MoveBusy(s, p, r, At(Next(s, e), r), Locked(r, false));
    }
    case Edit(p, d) => {
      AloneOn(s, p);
      var r := s.procs[p].r;
      MoveBusy(s, p, r, At(s, r).(copy := d), Locked(r, true));
    }
    case Update(p) => {
      AloneOn(s, p);
      var r := s.procs[p].r;
      MoveBusy(s, p, r, At(s, r), Locked(r, false));
      DiskBusy(Move(SetSlot(s, r, At(s, r)), p, Locked(r, false)), Next(s, e));
    }
    case Unlock(p) => FreeBusy(s, p, At(s, s.procs[p].r).(busy := false));
    case Put(p, r) => {
      if LastUse(At(s, r)) {
        LastNotBusy(s, r);
        MoveBusy(s, p, r, At(s, r).(busy := true), Trunc(r));
      } else {
        DropBusy(s, r);
      }
    }
    case Go(p) => FreeingBusy(s, p);
    case Alloc(p, key, kind) => {
      StepBusy(s, p, Allocated(key));
      DiskBusy(Move(s, p, Allocated(key)), Next(s, e));
    }
  }

  lemma DiskBusy(s: State, t: State)
    requires BusyInv(s) && t.cache == s.cache && t.refs == s.refs && t.procs == s.procs
    ensures BusyInv(t)
  {
    forall i: nat | i < |t.cache| && t.cache[i].ref > 0 && t.cache[i].busy ensures Owned(t, i) {
      var q :| q in s.procs && Owns(s, s.procs[q], i);
      assert Owns(t, t.procs[q], i);
    }
  }

  lemma FreeingBusy(s: State, p: Pid)
    requires CountInv(s) && BusyInv(s) && Enabled(s, Go(p))
    ensures BusyInv(Freeing(s, p))
  {
    hide BusyInv, CountInv;
    AloneOn(s, p);
    var r := s.procs[p].r;
    var slot, t := At(s, r), Freeing(s, p);
    if s.procs[p].Clear? {
      var freed := slot.(busy := false, valid := false);
      var m := Move(SetSlot(s, r, freed), p, Idle);
      FreeBusy(s, p, freed);
      forall q | q in m.procs ensures !Uses(m.procs[q], r) {
        if q != p { assert !Owns(s, s.procs[q], s.refs[r]); }
      }
      DropBusy(m, r);
      assert t == DropRef(m, r);
    } else {
      MoveBusy(s, p, r, At(t, r), t.procs[p]);
      DiskBusy(Move(SetSlot(s, r, At(t, r)), p, t.procs[p]), t);
    }
  }

  // ---------------------------------------------------------------- freshness

  /** The call that has a slot busy, or is taking it, moves on and may write that inode on disk. */
  lemma MoveFresh(s: State, p: Pid, r: Rid, slot: Slot, pc: Pc, disk: map<Key, Dinode>)
    requires Inv(s) && Has(s, r) && Busies(pc) && pc.r == r && slot.busy && slot.key == At(s, r).key && slot.ref == At(s, r).ref
    requires forall q :: q in s.procs && q != p ==> !Owns(s, s.procs[q], s.refs[r])
    requires disk.Keys == s.disk.Keys && forall key :: key in disk && key != slot.key ==> disk[key] == s.disk[key]
    requires var t := Move(SetSlot(s, r, slot), p, pc).(disk := disk); CallOk(t, pc)
    ensures FreshInv(Move(SetSlot(s, r, slot), p, pc).(disk := disk))
  {
    RefCounts(s, r);
    var t := Move(SetSlot(s, r, slot), p, pc).(disk := disk);
    forall j: nat | j < |t.cache| && t.cache[j].ref > 0 && t.cache[j].valid && !t.cache[j].busy ensures IsFresh(disk, t.cache[j]) {
      OtherKey(s, s.refs[r], j);
    }
    forall q | q in t.procs ensures CallOk(t, t.procs[q]) {
      if q != p { OtherCall(s, t, r, q); }
    }
  }

  lemma OtherKey(s: State, i: nat, j: nat)
    requires UniqueInv(s) && i < |s.cache| && j < |s.cache| && i != j && s.cache[i].ref > 0 && s.cache[j].ref > 0
    ensures s.cache[i].key != s.cache[j].key
  {
  }

  /** A call on another slot sees its slot and its inode on disk unchanged. */
  lemma OtherCall(s: State, t: State, r: Rid, q: Pid)
    requires CountInv(s) && UniqueInv(s) && BusyInv(s) && FreshInv(s) && Has(s, r)
    requires q in s.procs && q in t.procs && t.procs[q] == s.procs[q]
    requires !Owns(s, s.procs[q], s.refs[r]) && t.refs == s.refs && |t.cache| == |s.cache|
    requires forall j: nat :: j < |s.cache| && j != s.refs[r] ==> t.cache[j] == s.cache[j]
    requires t.disk.Keys == s.disk.Keys && forall key :: key in s.disk && key != At(s, r).key ==> t.disk[key] == s.disk[key]
    ensures CallOk(t, t.procs[q])
  {
    assert CallOk(s, s.procs[q]);
    if Busies(s.procs[q]) {
      assert HasBusy(s, s.procs[q].r);
      RefCounts(s, r);
      RefCounts(s, s.procs[q].r);
      OtherKey(s, s.refs[r], s.refs[s.procs[q].r]);
    }
  }

  /** A call lets go of its slot, which is fresh or no longer valid. */
  lemma FreeFresh(s: State, p: Pid, slot: Slot)
    requires Inv(s) && p in s.procs && Busies(s.procs[p]) && Has(s, s.procs[p].r)
    requires slot.key == At(s, s.procs[p].r).key && (slot.valid ==> IsFresh(s.disk, slot))
    ensures FreshInv(Move(SetSlot(s, s.procs[p].r, slot), p, Idle))
  {
    AloneOn(s, p);
    var t := Move(SetSlot(s, s.procs[p].r, slot), p, Idle);
    forall q | q in t.procs ensures CallOk(t, t.procs[q]) {
      if q != p { OtherCall(s, t, s.procs[p].r, q); }
    }
  }

  lemma DropFresh(s: State, r: Rid)
    requires FreshInv(s) && Has(s, r)
    ensures FreshInv(DropRef(s, r))
  {
    var t := DropRef(s, r);
    forall q | q in t.procs ensures CallOk(t, t.procs[q]) { assert CallOk(s, s.procs[q]); }
  }

  /** A new reference to slot i: the same inode, or one that is not in memory yet. */
  lemma AddFresh(s: State, r: Rid, i: nat, slot: Slot)
    requires Inv(s) && r !in s.refs && i < |s.cache|
    requires if s.cache[i].ref > 0 then slot == s.cache[i].(ref := slot.ref) else !slot.valid
    requires s.cache[i].ref == 0 ==> forall q :: q in s.procs ==> !Owns(s, s.procs[q], i)
    ensures FreshInv(s.(cache := s.cache[i := slot], refs := s.refs[r := i]))
  {
    var t := s.(cache := s.cache[i := slot], refs := s.refs[r := i]);
    forall q | q in t.procs ensures CallOk(t, t.procs[q]) {
      assert CallOk(s, s.procs[q]) && !(s.cache[i].ref == 0 && Owns(s, s.procs[q], i));
      if Busies(s.procs[q]) { assert HasBusy(s, s.procs[q].r); }
    }
  }

  lemma GetFresh(s: State, r: Rid, key: Key)
    requires Inv(s) && r !in s.refs && Room(s, key)
    ensures FreshInv(GetRef(s, r, key))
  {
    SeekFinds(s.cache, key, 0, |s.cache|);
    var i := Seek(s.cache, key, 0, |s.cache|);
    forall q | q in s.procs && s.cache[i].ref == 0 ensures !Owns(s, s.procs[q], i) {
      if Owns(s, s.procs[q], i) { RefCounts(s, s.procs[q].r); }
    }
    AddFresh(s, r, i, Got(s.cache[i], key));
  }

  lemma AllocKeepsFresh(s: State, p: Pid, key: Key, kind: nat)
    requires Inv(s) && Enabled(s, Alloc(p, key, kind))
    ensures FreshInv(Next(s, Alloc(p, key, kind)))
  {
    var t := Next(s, Alloc(p, key, kind));
    forall q | q in t.procs ensures CallOk(t, t.procs[q]) {
      if q != p {
        assert CallOk(s, s.procs[q]);
        if Busies(s.procs[q]) { assert HasBusy(s, s.procs[q].r); }
      }
    }
  }

  lemma FreeingFresh(s: State, p: Pid)
    requires Inv(s) && Enabled(s, Go(p))
    ensures FreshInv(Freeing(s, p))
  {
    AloneOn(s, p);
    assert CallOk(s, s.procs[p]);
    hide BusyInv, CountInv, FreshInv, UniqueInv;
    var r := s.procs[p].r;
    var slot, t := At(s, r), Freeing(s, p);
    if s.procs[p].Clear? {
      var freed := slot.(busy := false, valid := false);
      FreeFresh(s, p, freed);
      DropFresh(Move(SetSlot(s, r, freed), p, Idle), r);
      assert t == DropRef(Move(SetSlot(s, r, freed), p, Idle), r);
    } else {
      MoveFresh(s, p, r, At(t, r), t.procs[p], t.disk);
    }
  }

  lemma FreshKeeps(s: State, e: Event)
    requires Inv(s) && Enabled(s, e)
    ensures FreshInv(Next(s, e))
  {
    hide BusyInv, CountInv, FreshInv, UniqueInv;
    match e
    case Get(r, key) => GetFresh(s, r, key);
    case AllocGet(p, r) => {
      GetFresh(s, r, s.procs[p].key);
      StepFresh(GetRef(s, r, s.procs[p].key), p);
    }
    case Dup(r, r2) => {
      RefCounts(s, r);
      AddFresh(s, r2, s.refs[r], At(s, r).(ref := At(s, r).ref + 1));
    }
    case Lock(p, r) => {
      IdleSlot(s, r);
      SlotFresh(s, r);
      MoveFresh(s, p, r, At(s, r).(busy := true), Locking(r), s.disk);
    }
    case Load(p) => {
      AloneOn(s, p);
      CallFresh(s, p);
      var r := s.procs[p].r;
      MoveFresh(s, p, r, At(Next(s, e), r), Locked(r, false), s.disk);
    }
    case Edit(p, d) => {
      AloneOn(s, p);
      CallFresh(s, p);
      var r := s.procs[p].r;
      MoveFresh(s, p, r, At(s, r).(copy := d), Locked(r, true), s.disk);
    }
    case Update(p) => {
      AloneOn(s, p);
      CallFresh(s, p);
      var r := s.procs[p].r;
      MoveFresh(s, p, r, At(s, r), Locked(r, false), Next(s, e).disk);
      assert Next(s, e) == Move(SetSlot(s, r, At(s, r)), p, Locked(r, false)).(disk := Next(s, e).disk);
    }
    case Unlock(p) => {
      CallFresh(s, p);
      FreeFresh(s, p, At(s, s.procs[p].r).(busy := false));
    }
    case Put(p, r) => {
      if LastUse(At(s, r)) {
        LastNotBusy(s, r);
        SlotFresh(s, r);
        MoveFresh(s, p, r, At(s, r).(busy := true), Trunc(r), s.disk);
      } else {
        DropFresh(s, r);
      }
    }
    case Go(p) => FreeingFresh(s, p);
    case Alloc(p, key, kind) => AllocKeepsFresh(s, p, key, kind);
  }

  lemma CallFresh(s: State, p: Pid)
    requires FreshInv(s) && p in s.procs
    ensures CallOk(s, s.procs[p])
  {
  }

  lemma SlotFresh(s: State, r: Rid)
    requires CountInv(s) && FreshInv(s) && Has(s, r) && !At(s, r).busy
    ensures At(s, r).valid ==> IsFresh(s.disk, At(s, r))
  {
    RefCounts(s, r);
  }

  lemma StepFresh(s: State, p: Pid)
    requires FreshInv(s)
    ensures FreshInv(Move(s, p, Idle))
  {
    var t := Move(s, p, Idle);
    forall q | q in t.procs ensures CallOk(t, t.procs[q]) { if q != p { assert CallOk(s, s.procs[q]); } }
  }

  // ---------------------------------------------------------------- every run

  lemma NextKeeps(s: State, e: Event)
    requires Inv(s) && Enabled(s, e)
    ensures Inv(Next(s, e))
  {
    CountKeeps(s, e);
    UniqueKeeps(s, e);
    BusyKeeps(s, e);
    FreshKeeps(s, e);
    hide *;
  }

  /** An empty cache over any disk. */
  ghost predicate Initial(s: State) {
    s.refs == map[] && s.procs == map[] && forall i: nat :: i < |s.cache| ==> s.cache[i].ref == 0
  }

  lemma {:induction false} RunKeeps(s: State, run: seq<Event>)
    requires Initial(s) && CanRun(s, run)
    ensures Inv(Run(s, run))
    decreases |run|
  {
    if run == [] {
      forall i: nat | i < |s.cache| ensures s.cache[i].ref == |Holders(s.refs, i)| { assert Holders(s.refs, i) == {}; }
    } else {
      RunKeeps(s, run[..|run| - 1]);
      NextKeeps(Run(s, run[..|run| - 1]), run[|run| - 1]);
    }
  }

  /** Whenever a call holds the lock and has not edited the inode itself, the copy in memory is the
      inode on disk, and that inode is not free: ilock never returns stale contents. */
  lemma LockIsFresh(s: State, run: seq<Event>, p: Pid)
    requires Initial(s) && CanRun(s, run) && p in Run(s, run).procs
    requires Run(s, run).procs[p].Locked? && !Run(s, run).procs[p].dirty
    ensures var t := Run(s, run); Has(t, t.procs[p].r) && At(t, t.procs[p].r).valid && IsFresh(t.disk, At(t, t.procs[p].r))
  {
    RunKeeps(s, run);
    var t := Run(s, run);
    AloneOn(t, p);
    RefCounts(t, t.procs[p].r);
    CallFresh(t, p);
  }

  /** An inode that is free on disk is in memory only for the iput that is about to clear the flags. */
  lemma FreeIsForgotten(s: State, i: nat)
    requires Inv(s) && i < |s.cache| && s.cache[i].ref > 0 && s.cache[i].valid
    requires s.cache[i].key in s.disk && s.disk[s.cache[i].key].kind == 0
    ensures exists q :: q in s.procs && s.procs[q].Clear? && Owns(s, s.procs[q], i)
  {
    assert !IsFresh(s.disk, s.cache[i]);
    var q :| q in s.procs && Owns(s, s.procs[q], i);
    CallFresh(s, q);
  }

  /** Whenever ialloc takes a number, nobody has that inode in memory, except an iput that has freed it
      and has only the flags left to clear. */
  lemma AllocFresh(s: State, run: seq<Event>, p: Pid, key: Key, kind: nat, i: nat)
    requires Initial(s) && CanRun(s, run) && Enabled(Run(s, run), Alloc(p, key, kind))
    requires i < |Run(s, run).cache| && Caches(Run(s, run).cache[i], key) && Run(s, run).cache[i].valid
    ensures var t := Run(s, run); exists q :: q in t.procs && t.procs[q].Clear? && Owns(t, t.procs[q], i)
  {
    RunKeeps(s, run);
    FreeIsForgotten(Run(s, run), i);
  }

  /** Only one call at a time is inside ilock and iunlock, or freeing, on a slot. */
  lemma LockIsExclusive(s: State, run: seq<Event>, p: Pid, q: Pid)
    requires Initial(s) && CanRun(s, run) && p in Run(s, run).procs && q in Run(s, run).procs && p != q
    requires Busies(Run(s, run).procs[p]) && Busies(Run(s, run).procs[q])
    ensures var t := Run(s, run);
            t.procs[p].r in t.refs && t.procs[q].r in t.refs && t.refs[t.procs[p].r] != t.refs[t.procs[q].r]
  {
    RunKeeps(s, run);
    var t := Run(s, run);
    AloneOn(t, p);
    AloneOn(t, q);
  }

  /** Counts are exact, and slots in use hold different inodes. */
  lemma ReferencesExact(s: State, run: seq<Event>, i: nat, j: nat)
    requires Initial(s) && CanRun(s, run) && i < |Run(s, run).cache| && j < |Run(s, run).cache|
    ensures Run(s, run).cache[i].ref == |Holders(Run(s, run).refs, i)|
    ensures var c := Run(s, run).cache; c[i].ref > 0 && c[j].ref > 0 && c[i].key == c[j].key ==> i == j
  {
    RunKeeps(s, run);
    var t := Run(s, run);
    if i < j && t.cache[i].ref > 0 && t.cache[j].ref > 0 { OtherKey(t, i, j); }
    if j < i && t.cache[i].ref > 0 && t.cache[j].ref > 0 { OtherKey(t, j, i); }
  }

  /** The "iput busy" panic is out of reach. */
  lemma PutNeverBusy(s: State, run: seq<Event>, p: Pid, r: Rid)
    requires Initial(s) && CanRun(s, run) && Enabled(Run(s, run), Put(p, r)) && LastUse(At(Run(s, run), r))
    ensures !At(Run(s, run), r).busy
  {
    RunKeeps(s, run);
    LastNotBusy(Run(s, run), r);
  }

  /** A reference goes on meaning the same inode for as long as it is held. */
  lemma ReferenceStays(s: State, run: seq<Event>, e: Event, r: Rid)
    requires Initial(s) && CanRun(s, run) && Enabled(Run(s, run), e)
    requires r in Run(s, run).refs && r in Next(Run(s, run), e).refs
    ensures var t, u := Run(s, run), Next(Run(s, run), e);
            u.refs[r] == t.refs[r] < |t.cache| == |u.cache| && At(u, r).key == At(t, r).key
  {
    RunKeeps(s, run);
    var t := Run(s, run);
    KeepsReference(t, e, r);
  }

  lemma KeepsReference(t: State, e: Event, r: Rid)
    requires CountInv(t) && Enabled(t, e) && r in t.refs && r in Next(t, e).refs
    ensures var u := Next(t, e); u.refs[r] == t.refs[r] < |t.cache| == |u.cache| && At(u, r).key == At(t, r).key
  {
    RefCounts(t, r);
    match e
    case Get(_, key) => SeekFinds(t.cache, key, 0, |t.cache|);
    case AllocGet(p, _) => SeekFinds(t.cache, t.procs[p].key, 0, |t.cache|);
    case _ =>
  }
}
