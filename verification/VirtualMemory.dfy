/** kalloc.c and the address spaces of vm.c as they run. */
module VirtualMemory {
  import opened PageTables
  import opened Counting
  import opened Machine
  import opened AddressSpaces

  class Kernel {
    var frames: map<nat, Frame>
    var freelist: nat
    ghost var pool: seq<nat>
    ghost var use: map<nat, Use>

    ghost function K(): Kern
      reads this
    {
      Kern(frames, freelist, pool, use)
    }

    /** All managed pages, none of them free yet. */
    constructor (pages: set<nat>)
      requires 0 !in pages
      ensures Inv(K()) && pool == [] && use.Keys == pages
      ensures forall f :: f in use ==> use[f] == Held
    {
      frames := map f | f in pages :: Data([]);
      freelist, pool := 0, [];
      use := map f | f in pages :: Held;
    }

    method Kfree(v: nat)
      requires PoolOk(K()) && v in use && use[v] != Free
      modifies this
      ensures K() == Release(old(K()), v) && PoolOk(K())
      ensures use == old(use)[v := Free] && |pool| == |old(pool)| + 1
    {
      ReleasePool(K(), v);
      frames := frames[v := Run(freelist)];
      freelist := v;
      pool, use := [v] + pool, use[v := Free];
    }

    /** 0 when no page is free. */
    method Kalloc() returns (v: nat)
      requires Inv(K())
      modifies this
      ensures Inv(K())
      ensures v == 0 <==> old(pool) == []
      ensures v == 0 ==> K() == old(K())
      ensures v != 0 ==> v == old(pool[0]) && v in old(frames) && old(frames)[v].Run? && K() == Alloc(old(K()))
      ensures v != 0 ==> v in use && v in frames && use[v] == Held && old(use)[v] == Free
    {
      if pool != [] { AllocKeeps(K()); }
      v := freelist;
      if v != 0 {
        freelist := frames[v].next;
        use, pool := use[v := Held], pool[1..];
      }
    }

    /** freerange over pages lo to hi, none of them on the list yet. */
    method Freerange(lo: nat, hi: nat)
      requires Inv(K()) && lo <= hi && forall f: nat :: lo <= f < hi ==> f in use && use[f] == Held
      modifies this
      ensures Inv(K()) && use.Keys == old(use.Keys) && Freed(old(use), use, lo, hi)
      ensures |pool| == |old(pool)| + (hi - lo)
    {
      hide PoolOk, FrameOk, Release;
      var p := lo;
      while p < hi
        invariant lo <= p <= hi && Inv(K()) && use.Keys == old(use.Keys)
        invariant Freed(old(use), use, lo, p)
        invariant |pool| == |old(pool)| + (p - lo)
      {
        assert p in use && use[p] == Held;
        ReleaseKeeps(K(), p);
        Kfree(p);
        p := p + 1;
      }
    }

    /** An empty table for slot i of d, when there is a free page. */
    method NewTable(d: nat, i: nat) returns (t: nat)
      requires Inv(K()) && d in use && use[d] == Dir && i < NENTRIES && IsTable(frames, d) && frames[d].entries[i].Absent?
      modifies this
      ensures Inv(K()) && d in use && use[d] == Dir && IsTable(frames, d)
      ensures t == 0 <==> old(pool) == []
      ensures t == 0 ==> K() == old(K())
      ensures t != 0 ==> t in use && use[t] == Tab(d, i) && HasTable(frames, d, i, t) && IsTable(frames, t)
      ensures t != 0 ==> Charged(old(K()), K(), d, {i})
      ensures Extends(old(K()), K(), d, {}) && SameLookups(old(K()), K(), d)
    {
      hide PoolOk, FrameOk, Slots, Lookup;
      ghost var k := K();
      SameKeys(k);
      t := Kalloc();
      if t == 0 { return 0; }
      FillKeeps(K(), t, Table(Empty()));
      frames := frames[t := Table(Empty())];
      FreshFrame(k, t, Table(Empty()), d);
      AddTableKeeps(K(), d, i, t, 6);
      AddTableLookups(K(), d, i, t, 6);
      SlotsSame(k.frames, frames, d);
      SlotsAdded(frames, d, i, t, 6);
      frames, use := SetEntry(frames, d, i, Present(t, 6)), use[t := Tab(d, i)];
    }

    /** walkpgdir: the table for page p, 0 when there is none and none is to be made or can be. */
    method WalkPgdir(d: nat, p: nat, alloc: bool) returns (t: nat)
      requires Inv(K()) && d in use && use[d] == Dir && p < NPAGES
      modifies this
      ensures Inv(K()) && d in use && use[d] == Dir && IsTable(frames, d) && IsTable(old(frames), d)
      ensures old(frames)[d].entries[Pdx(p)].Present? ==> K() == old(K()) && t != 0
      ensures t == 0 <==> old(frames)[d].entries[Pdx(p)].Absent? && (!alloc || old(pool) == [])
      ensures t == 0 ==> K() == old(K())
      ensures t != 0 ==> t in use && use[t] == Tab(d, Pdx(p)) && HasTable(frames, d, Pdx(p), t) && IsTable(frames, t)
      ensures t != 0 ==> Charged(old(K()), K(), d, {Pdx(p)})
      ensures Extends(old(K()), K(), d, {}) && SameLookups(old(K()), K(), d)
    {
      hide PoolOk, FrameOk, Slots, Lookup;
      var i := Pdx(p);
      SameKeys(K());
      DirFacts(K(), d, i);
      var e := frames[d].entries[i];
      InSlots(frames, d, i);
      assert e.Present? ==> Slots(frames, d) + {i} == Slots(frames, d);
      if e.Present? { return e.frame; }
      if !alloc { return 0; }
      t := NewTable(d, i);
    }

    /** The entry of page p, in table t, is written. */
    method SetPte(d: nat, p: nat, t: nat, pa: nat, flags: nat)
      requires Inv(K()) && d in use && use[d] == Dir && p < NPAGES
      requires t in use && use[t] == Tab(d, Pdx(p)) && HasTable(frames, d, Pdx(p), t) && IsTable(frames, t)
      requires frames[t].entries[Ptx(p)].Absent?
      requires p < USERPAGES ==> pa in use && use[pa] == Held && pa in frames && frames[pa].Data?
      modifies this
      ensures Inv(K()) && d in use && use[d] == Dir
      ensures Extends(old(K()), K(), d, NewUser(p, 0, pa))
      ensures p < USERPAGES ==> use[pa] == UserAt(d, p)
      ensures pool == old(pool) && d in frames && d in old(frames) && frames[d] == old(frames)[d]
      ensures Lookup(frames, d, p) == Present(pa, flags)
      ensures forall q: nat :: q < NPAGES && q != p ==> Lookup(frames, d, q) == Lookup(old(frames), d, q)
    {
      hide PoolOk, FrameOk, Lookup;
      ghost var m := K();
      SameKeys(m);
      SetEntryLookups(m, d, p, t, Present(pa, flags));
      if p < USERPAGES {
        AddPageKeeps(m, d, Pdx(p), Ptx(p), t, pa, flags);
        use := use[pa := User(d, Pdx(p), Ptx(p))];
      } else {
        AddKernelKeeps(m, d, Pdx(p), Ptx(p), t, Present(pa, flags));
      }
      frames := SetEntry(frames, t, Ptx(p), Present(pa, flags));
    }

    /** One round of mappages: page p of d maps to pa.  A user page is mapped to a page in hand. */
    method MapOne(d: nat, p: nat, pa: nat, flags: nat) returns (r: MapResult)
      requires Inv(K()) && d in use && use[d] == Dir && p < NPAGES && InHand(K(), p, 0, pa)
      modifies this
      ensures Inv(K()) && d in use && use[d] == Dir
      ensures r == Remap <==> Lookup(old(frames), d, p).Present?
      ensures r == NoMemory <==> old(pool) == [] && Pdx(p) !in Slots(old(frames), d)
      ensures r != Mapped ==> K() == old(K())
      ensures Extends(old(K()), K(), d, NewUser(p, 0, pa))
      ensures r == Mapped && p < USERPAGES ==> pa in use && use[pa] == UserAt(d, p)
      ensures r == Mapped ==> Charged(old(K()), K(), d, {Pdx(p)}) && Lookup(frames, d, p) == Present(pa, flags)
      ensures forall q: nat :: q < NPAGES && q != p ==> Lookup(frames, d, q) == Lookup(old(frames), d, q)
    {
      hide PoolOk, FrameOk, Lookup, Slots;
      ghost var k := K();
      SameKeys(k);
      DirFacts(k, d, Pdx(p));
      InSlots(frames, d, Pdx(p));
      AbsentDir(k, d, p);
      var t := WalkPgdir(d, p, true);
      if t == 0 { return NoMemory; }
      ghost var m := K();
      SetEntryLookups(m, d, p, t, Absent);
      if frames[t].entries[Ptx(p)].Present? { return Remap; }
      SetPte(d, p, t, pa, flags);
      SlotsSame(m.frames, frames, d);
      ExtendsTrans(k, m, K(), d, if p < USERPAGES then pa else 0);
      r := Mapped;
    }

    /** mappages: n pages from p on map to the pages from pa on, as far as done. */
    method MapPages(d: nat, p: nat, n: nat, pa: nat, flags: nat) returns (r: MapResult, ghost done: nat)
      requires Inv(K()) && d in use && use[d] == Dir && 0 < n && p + n <= NPAGES
      requires forall i: nat :: i < n ==> InHand(K(), p, i, pa)
      modifies this
      ensures Inv(K()) && d in use && use[d] == Dir
      ensures done <= n && MapDone(old(K()), K(), d, p, done, pa, flags) && (r == Mapped <==> done == n)
      ensures done == 0 ==> K() == old(K())
      ensures r == Remap ==> Lookup(old(frames), d, p + done).Present?
      ensures r == NoMemory ==> pool == [] && Pdx(p + done) !in Slots(frames, d)
    {
      hide PoolOk, FrameOk, Lookup, Extends, Charged, Slots, MapDone, InHand;
      ghost var k := K();
      SameKeys(k);
      MapStart(k, d, p, pa, flags);
      var a := p;
      done := 0;
      while true
        invariant p <= a < p + n && done == a - p && Inv(K()) && d in use && use[d] == Dir
        invariant MapDone(k, K(), d, p, done, pa, flags) && (done == 0 ==> K() == k)
        decreases p + n - a
      {
        ghost var m := K();
        StillInHand(k, m, d, p, done, pa, flags);
        InHandNow(m, p, done, pa);
        MapLookup(k, m, d, p, done, pa, flags);
        r := MapOne(d, a, pa + (a - p), flags);
        if r != Mapped { return; }
        assert NewUser(a, 0, pa + (a - p)) == NewUser(p, done, pa);
        MapStep(k, m, K(), d, p, done, pa, flags);
        done := done + 1;
        if a == p + n - 1 { return; }
        a := a + 1;
      }
    }

    /** One range of setupkvm. */
    method MapRange(d: nat, kmap: seq<Kmap>, i: nat, ghost k: Kern) returns (o: MapResult)
      requires Inv(K()) && d in use && use[d] == Dir && i < |kmap| && KmapOk(kmap[i])
      requires Inv(k) && KvmSoFar(k, K(), d, kmap, i)
      modifies this
      ensures Inv(K()) && d in use && use[d] == Dir && Kept(k, K())
      ensures o == Mapped ==> KvmSoFar(k, K(), d, kmap, i + 1)
      ensures o == NoMemory ==> AllTaken(k, K(), d) && |k.pool| < 1 + |AllSlots(kmap, |kmap|)|
      ensures o == Remap ==> Overlap(kmap)
    {
      hide PoolOk, FrameOk, Extends, Kept, Lookup, Slots, SlotsOf, MapDone, KernelMapped, Overlap, AllTaken;
      ghost var m := K();
      SameKeys(k);
      ghost var done;
      forall j: nat | j < kmap[i].n ensures InHand(m, kmap[i].page, j, kmap[i].pa) { }
      o, done := MapPages(d, kmap[i].page, kmap[i].n, kmap[i].pa, kmap[i].flags);
      KernelRange(k, m, K(), d, kmap[i], done);
      ExtendsKept(k, K(), d, 0);
      if o == NoMemory {
        NoRoom(kmap, i, done, Slots(frames, d));
        TakenAll(k, K(), d);
      } else if o == Remap {
        ClashFound(m.frames, d, kmap, i, done);
      } else {
        KernelStep(m, K(), d, kmap, i);
      }
    }

    /** setupkvm: a new directory with the kernel's mappings.  When memory runs out the directory lost
        is left as it is. */
    method SetupKvm(kmap: seq<Kmap>) returns (r: KvmResult, ghost lost: nat)
      requires Inv(K()) && forall i :: 0 <= i < |kmap| ==> KmapOk(kmap[i])
      modifies this
      ensures Inv(K()) && Kept(old(K()), K())
      ensures r.Ready? ==> NewSpace(old(K()), K(), r.d) && KernelMapped(frames, r.d, kmap, |kmap|)
      ensures r.Ready? ==> Slots(frames, r.d) == AllSlots(kmap, |kmap|) && |pool| + 1 + |Slots(frames, r.d)| == |old(pool)|
      ensures r == Clash ==> Overlap(kmap)
      ensures r != Clash ==> (r == NoSpace <==> |old(pool)| < 1 + |AllSlots(kmap, |kmap|)|)
      ensures r == NoSpace ==> AllTaken(old(K()), K(), lost) && (lost == 0 <==> old(pool) == [])
    {
      hide PoolOk, FrameOk, Extends, Kept, Lookup, Slots, SlotsOf, KernelMapped, Overlap, AllTaken;
      ghost var k := K();
      SameKeys(k);
      KeptStart(k);
      lost := 0;
      var d := Kalloc();
      if d == 0 {
        NothingTaken(k);
        return NoSpace, 0;
      }
      FillKeeps(K(), d, Table(Empty()));
      frames := frames[d := Table(Empty())];
      NewDirKeeps(K(), d);
      use := use[d := Dir];
      NewDirExtends(k, K(), d);
      lost := d;
      KernelStart(frames, d, kmap);
      ExtendsKept(k, K(), d, 0);
      var i := 0;
      while i < |kmap|
        invariant 0 <= i <= |kmap| && Inv(K()) && d in use && use[d] == Dir && KvmSoFar(k, K(), d, kmap, i) && Kept(k, K())
      {
        var o := MapRange(d, kmap, i, k);
        if o == NoMemory { return NoSpace, d; }
        if o == Remap { return Clash, d; }
        i := i + 1;
      }
      r := Ready(d);
    }

    /** kfree and clearing of the entry for page p, whose table is t. */
    method FreePage(d: nat, p: nat, t: nat)
      requires Inv(K()) && d in use && use[d] == Dir && p < USERPAGES
      requires t in use && use[t] == Tab(d, Pdx(p)) && HasTable(frames, d, Pdx(p), t) && IsTable(frames, t)
      requires frames[t].entries[Ptx(p)].Present?
      modifies this
      ensures Inv(K()) && PageGone(old(K()), K(), d, p) && d in use && use[d] == Dir
    {
      hide PoolOk, FrameOk;
      ghost var k := K();
      var j := Ptx(p);
      var f := frames[t].entries[j].frame;
      UserPage(k, d, p, t);
      RemovePageKeeps(k, d, Pdx(p), j, t, f);
      ReleaseKeeps(RemovePage(k, j, t, f), f);
      Kfree(f);
      frames := SetEntry(frames, t, j, Absent);
      assert K() == Release(RemovePage(k, j, t, f), f);
      GonePage(k, d, p, t, f);
    }

    /** One round of the loop of deallocuvm at page a. */
    method DeallocAt(d: nat, a: nat) returns (next: nat)
      requires Inv(K()) && d in use && use[d] == Dir && a < USERPAGES
      modifies this
      ensures Inv(K()) && d in use && use[d] == Dir && IsTable(old(frames), d)
      ensures if old(frames)[d].entries[Pdx(a)].Absent? then next == a + NENTRIES && K() == old(K())
              else next == a + 1 && PageGone(old(K()), K(), d, a)
    {
      hide PoolOk, FrameOk, Lookup, Gone, Extends, Charged, Slots, SameLookups;
      ghost var m := K();
      SameKeys(m);
      next := a;
      var t := WalkPgdir(d, a, false);
      if t == 0 {
        next := next + (NENTRIES - 1);
      } else if frames[t].entries[Ptx(a)].Present? {
        FreePage(d, a, t);
      } else {
        GoneStart(m, d);
        GoneNothing(m, m, d, a, t, {});
        assert {} + {a} == {a};
      }
      next := next + 1;
    }

    /** deallocuvm, in pages: sizes are at most KERNBASE. */
    method DeallocUvm(d: nat, oldsz: nat, newsz: nat) returns (sz: nat)
      requires Inv(K()) && d in use && use[d] == Dir && oldsz <= USERPAGES * PGSIZE
      modifies this
      ensures Inv(K()) && d in use && use[d] == Dir
      ensures sz == if newsz < oldsz then newsz else oldsz
      ensures newsz >= oldsz ==> K() == old(K())
      ensures IsTable(old(frames), d)
      ensures newsz < oldsz ==> Dealloced(old(K()), K(), d, Pages(newsz), Pages(oldsz))
      ensures newsz < oldsz ==> Shrunk(old(K()), K(), d, newsz, oldsz)
    {
      hide PoolOk, FrameOk, Lookup, Reaches, Gone, Dealloced, Shrunk;
      DirFacts(K(), d, 0);
      if newsz >= oldsz { return oldsz; }
      ghost var k := K();
      ghost var dir := frames[d].entries;
      SameKeys(k);
      GoneStart(k, d);
      var a := Pages(newsz);
      ghost var seen: set<nat> := {};
      while a < Pages(oldsz)
        invariant Inv(K()) && d in use && use[d] == Dir && IsTable(frames, d) && frames[d] == k.frames[d]
        invariant forall q: nat :: Reaches(dir, Pages(newsz), Pages(oldsz), q) <==> q in seen || Reaches(dir, a, Pages(oldsz), q)
        invariant Gone(k, K(), d, seen)
        decreases Pages(oldsz) - a
      {
        ReachesStep(dir, a, Pages(oldsz));
        ghost var m := K();
        ghost var at := a;
        a := DeallocAt(d, a);
        if dir[Pdx(at)].Present? {
          GoneMore(k, m, K(), d, at, seen);
          seen := seen + {at};
        }
      }
      ReachesEnd(dir, a, Pages(oldsz));
      GoneDealloced(k, K(), d, seen, Pages(newsz), Pages(oldsz));
      DeallocedShrunk(k, K(), d, newsz, oldsz);
      return newsz;
    }

    /** The loop of freevm over the directory, whose tables are all in hand. */
    method FreeTables(d: nat)
      requires Inv(K()) && IsTable(frames, d) && d in use && use[d] == Held && TablesInHand(K(), d)
      modifies this
      ensures Inv(K()) && Handed(old(K()), K(), old(frames)[d].entries, NENTRIES)
    {
      hide PoolOk, FrameOk, Handed, TablesInHand, Release;
      SameKeys(K());
      ghost var k := K();
      HandedStart(k, d);
      var i := 0;
      while i < NENTRIES
        invariant 0 <= i <= NENTRIES && Inv(K()) && IsTable(frames, d) && frames[d] == k.frames[d]
        invariant Handed(k, K(), k.frames[d].entries, i)
      {
        HandedStep(k, K(), d, i);
        if frames[d].entries[i].Present? {
          var v := frames[d].entries[i].frame;
          ReleaseKeeps(K(), v);
          ReleaseOther(K(), v, d);
          Kfree(v);
        }
        i := i + 1;
      }
    }

    /** freevm: every page of the space, its tables and the directory go back to the free list. */
    method FreeVm(d: nat)
      requires Inv(K()) && d in use && use[d] == Dir
      modifies this
      ensures Inv(K()) && SpaceFreed(old(K()), K(), d)
    {
      hide PoolOk, FrameOk, Dealloced, Handed, TablesInHand, SpaceFreed, Release;
      ghost var k := K();
      SameKeys(k);
      var sz := DeallocUvm(d, USERPAGES * PGSIZE, 0);
      ghost var m := K();
      DirFacts(m, d, 0);
      RetireKeeps(m, d);
      RetireTables(m, d);
      use := Retire(m, d).use;
      assert K() == Retire(m, d);
      FreeTables(d);
      ghost var r := K();
      SpaceAllFreed(k, m, r, d);
      ReleaseKeeps(r, d);
      Kfree(d);
    }

    /** The entry of user page p of d, as copyuvm looks it up. */
    method FindPage(d: nat, p: nat) returns (entry: Entry)
      requires Inv(K()) && d in use && use[d] == Dir && p < USERPAGES
      modifies this
      ensures K() == old(K()) && entry == Lookup(frames, d, p)
      ensures entry.Present? ==> entry.frame in use && use[entry.frame].User? && entry.frame in frames && frames[entry.frame].Data?
    {
      hide PoolOk, FrameOk, Lookup, Pdx, Ptx;
      IndexBounds(p);
      ghost var k := K();
      DirFacts(k, d, Pdx(p));
      AbsentDir(k, d, p);
      var t := WalkPgdir(d, p, false);
      if t == 0 { return Absent; }
      SetEntryLookups(k, d, p, t, Absent);
      entry := frames[t].entries[Ptx(p)];
      if entry.Present? {
        UserPage(k, d, p, t);
        DataPage(k, entry.frame);
      }
    }

    /** A page in hand with the bytes given; 0 when there is none. */
    method NewPage(d: nat, frame: Frame) returns (mem: nat)
      requires Inv(K()) && d in use && use[d] == Dir && frame.Data?
      modifies this
      ensures Inv(K()) && d in use && use[d] == Dir
      ensures mem == 0 <==> old(pool) == []
      ensures mem == 0 ==> K() == old(K())
      ensures mem != 0 ==> mem in use && use[mem] == Held && mem in old(use) && old(use)[mem] == Free
      ensures mem != 0 ==> Extends(old(K()), K(), d, Page(mem))
      ensures mem != 0 ==> mem in frames && frames[mem] == frame && |pool| == |old(pool)| - 1
      ensures Slots(frames, d) == Slots(old(frames), d)
      ensures forall q: nat :: q < NPAGES ==> Lookup(frames, d, q) == Lookup(old(frames), d, q)
    {
      hide PoolOk, FrameOk, Lookup, Slots;
      ghost var k := K();
      SameKeys(k);
      mem := Kalloc();
      if mem == 0 { return; }
      FillKeeps(K(), mem, frame);
      FreshFrame(k, mem, frame, d);
      frames := frames[mem := frame];
      SlotsSame(k.frames, frames, d);
    }

    /** One round of the loop of copyuvm: page p of d is copied into e. */
    method CopyPage(d: nat, e: nat, p: nat) returns (r: CopyResult, ghost lost: nat)
      requires Inv(K()) && d in use && use[d] == Dir && e in use
      requires use[e] == Dir && p < USERPAGES && Lookup(frames, e, p).Absent?
      modifies this
      ensures Inv(K()) && e in use && use[e] == Dir && CopyDone(old(K()), K(), d, e, p, r, lost)
    {
      hide PoolOk, FrameOk, Lookup, Extends, Pdx, Ptx, CopyDone, MapDone, Slots;
      lost := 0;
      ghost var k := K();
      SameKeys(k);
      if Lookup(frames, d, p).Absent? || pool == [] { CopyNone(k, d, e, p); }
      var entry := FindPage(d, p);
      if entry.Absent? { r := NoPage; return; }
      var mem := NewPage(e, frames[entry.frame]);
      if mem == 0 { r := OutOfMemory; return; }
      ghost var m := K();
      var mapped;
      ghost var done;
      forall i: nat | i < 1 ensures InHand(m, p, i, mem) { }
      mapped, done := MapPages(e, p, 1, mem, entry.flags);
      if mapped != Mapped {
        CopyLost(k, m, d, e, p, mem);
        return OutOfMemory, mem;
      }
      MapDoneOne(m, K(), e, p, mem, entry.flags);
      CopyMade(k, m, K(), d, e, p, mem);
      r := Made;
    }

    /** copyuvm: a new space with the first sz bytes of space d, or why there is none. */
    method CopyUvm(d: nat, sz: nat, kmap: seq<Kmap>) returns (r: CopyResult, e: nat, ghost lost: nat)
      requires Inv(K()) && d in use && use[d] == Dir && sz <= USERPAGES * PGSIZE
      requires forall i :: 0 <= i < |kmap| ==> KmapOk(kmap[i])
      modifies this
      ensures Inv(K()) && Kept(old(K()), K())
      ensures r == Made ==> Copying(old(K()), K(), d, e, Pages(sz), kmap) && BytesCopied(old(frames), d, frames, e, sz)
      ensures r == Clashed ==> Overlap(kmap)
      ensures r != Clashed ==>
        var free := |old(pool)| - 1 - |AllSlots(kmap, |kmap|)|;
        if free < 0 then r == OutOfMemory && e == 0 && AllTaken(old(K()), K(), lost)
        else
          && CopyOutcome(old(frames), d, Pages(sz), AllSlots(kmap, |kmap|), free, r, lost)
          && (r == Made ==> Tally(K(), e, AllSlots(kmap, |kmap|), free, 0, Pages(sz)))
          && (r == OutOfMemory ==> e == 0 && Loses(old(K()), K(), lost))
    {
      hide PoolOk, FrameOk, Lookup, Kept, SpaceFreed, KernelMapped, Copying, CopyDone, AllTaken, AllSlots, Overlap, Loses;
      hide Pages, NewSpace, Extends, Slots, SlotsOf, Tally, CopyOutcome, AllMapped, BytesCopied;
      ghost var k := K();
      SizePages(sz);
      var o;
      o, lost := SetupKvm(kmap);
      if o == NoSpace { return OutOfMemory, 0, lost; }
      if o == Clash { return Clashed, 0, lost; }
      e := o.d;
      CopyingStart(k, K(), d, e, kmap);
      ghost var slots, free := AllSlots(kmap, |kmap|), |pool|;
      TallyStart(K(), e, 0);
      NoneMapped(k.frames, d);
      var i := 0;
      while i < Pages(sz)
        invariant 0 <= i <= Pages(sz) && Inv(K()) && e in use && use[e] == Dir && Copying(k, K(), d, e, i, kmap)
        invariant Tally(K(), e, slots, free, 0, i) && AllMapped(k.frames, d, i)
      {
        ghost var m := K();
        CopyingSource(k, m, d, e, i, kmap);
        r, lost := CopyPage(d, e, i);
        CopyingStep(k, m, K(), d, e, i, kmap, r, lost);
        CopyTally(k, m, K(), d, e, slots, free, i, Pages(sz), r, lost);
        if r == OutOfMemory {
          m := K();
          FreeVm(e);
          UndoKeeps(k, m, K(), e, lost);
          return OutOfMemory, 0, lost;
        }
        if r == NoPage { return; }
        i := i + 1;
      }
      CopyingSource(k, K(), d, e, i, kmap);
      lost := 0;
      CopiedAll(k, K(), d, e, slots, free, i);
      CopyingBytes(k, K(), d, e, sz, kmap);
      r := Made;
    }

    /** One round of the loop of allocuvm: page p of d gets a zeroed page.  The result of mappages is
        ignored there; lost is the page that is then lost. */
    method AllocPage(d: nat, p: nat) returns (r: AllocResult, ghost lost: nat)
      requires Inv(K()) && d in use && use[d] == Dir && p < USERPAGES && Lookup(frames, d, p).Absent?
      modifies this
      ensures Inv(K()) && d in use && use[d] == Dir && Extends(old(K()), K(), d, Page(lost))
      ensures r == NoPages ==> K() == old(K())
      ensures AllocDone(old(K()), K(), d, p, r, lost)
    {
      hide PoolOk, FrameOk, Lookup, Pdx, Ptx, Slots, MapDone, Extends, Zeros;
      lost := 0;
      ghost var k := K();
      SameKeys(k);
      ExtendsStart(k, d);
      var mem := NewPage(d, Data(Zeros()));
      if mem == 0 { r := NoPages; return; }
      ghost var m := K();
      var mapped;
      ghost var done;
      forall i: nat | i < 1 ensures InHand(m, p, i, mem) { }
      mapped, done := MapPages(d, p, 1, mem, 6);
      if mapped != Mapped { return Unmapped, mem; }
      MapDoneOne(m, K(), d, p, mem, 6);
      ExtendsTrans(k, m, K(), d, mem);
      CopyUnchanged(m, K(), d, mem);
      r := Placed;
    }

    /** allocuvm: the space grows from oldsz to newsz with zeroed pages; 0 when that is refused or
        memory runs out, and then the space is as before.  A hole is a success whose last page is not
        mapped; lost is the page that was meant for it, or for the page before the one that failed. */
    method AllocUvm(d: nat, oldsz: nat, newsz: nat) returns (sz: nat, ghost hole: bool, ghost lost: nat)
      requires Inv(K()) && d in use && use[d] == Dir && NothingAbove(frames, d, oldsz)
      modifies this
      ensures Inv(K()) && d in use && use[d] == Dir && Extends(old(K()), K(), d, Page(lost))
      ensures newsz >= USERPAGES * PGSIZE ==> sz == 0 && K() == old(K())
      ensures newsz < oldsz && newsz < USERPAGES * PGSIZE ==> sz == oldsz && K() == old(K())
      ensures oldsz <= newsz < USERPAGES * PGSIZE ==>
        AllocOutcome(old(K()), K(), d, Pages(oldsz), Pages(newsz), sz == newsz, hole, lost)
      ensures oldsz <= newsz < USERPAGES * PGSIZE ==> sz == newsz || sz == 0
      ensures oldsz <= newsz < USERPAGES * PGSIZE && sz == newsz ==> GrewBytes(old(frames), frames, d, oldsz, newsz, hole)
      ensures lost != 0 ==> lost in old(use) && old(use)[lost] == Free && use[lost] == Held
    {
      hide PoolOk, FrameOk, Lookup, Extends, NothingFrom, Dealloced, Growing, AllocOutcome, AllocDone, Pages;
      hide NothingAbove, GrewBytes, SameLookups;
      hole, lost := false, 0;
      ghost var k := K();
      SameKeys(k);
      ExtendsStart(k, d);
      if newsz >= USERPAGES * PGSIZE { sz := 0; return; }
      if newsz < oldsz { sz := oldsz; return; }
      PagesGrow(oldsz, newsz);
      AboveIsFrom(frames, d, oldsz);
      var a := Pages(oldsz);
      GrowingStart(k, d, a);
      while a < Pages(newsz)
        invariant Pages(oldsz) <= a <= Pages(newsz) <= USERPAGES && Inv(K()) && d in use && use[d] == Dir
        invariant Growing(k, K(), d, Pages(oldsz), a, hole, lost)
      {
        ghost var m := K();
        GrowingNext(k, m, d, Pages(oldsz), a, hole, lost);
        var r;
        ghost var page;
        r, page := AllocPage(d, a);
        if r == NoPages {
          sz := DeallocUvm(d, newsz, oldsz);
          GrowingFails(k, m, K(), d, Pages(oldsz), a, Pages(newsz), hole, lost, page);
          sz, hole := 0, false;
          return;
        }
        GrowingStep(k, m, K(), d, Pages(oldsz), a, hole, lost, r, page);
        hole, lost := r == Unmapped, page;
        a := a + 1;
      }
      GrowingDone(k, K(), d, Pages(oldsz), a, hole, lost);
      OutcomeBytes(k, K(), d, oldsz, newsz, true, hole, lost);
      sz := newsz;
    }
  }

  /** An instance of a hole: with two pages in all, one of them the directory, a process grows by one
      page.  allocuvm returns the new size, and nothing is mapped. */
  method HoleHappens() returns (kernel: Kernel, d: nat, sz: nat)
    ensures d in kernel.use && kernel.use[d] == Dir
    ensures sz == PGSIZE && Lookup(kernel.frames, d, 0).Absent?
  {
    hide PoolOk, FrameOk, Lookup, Slots, AllocOutcome, KernelMapped, NothingAbove, Extends, Kept, AllTaken, Freed, Inv;
    kernel := new Kernel({1, 2});
    kernel.Freerange(1, 3);
    var r;
    ghost var lost;
    r, lost := kernel.SetupKvm([]);
    assert r.Ready?;
    d := r.d;
    ghost var k := kernel.K();
    NothingMapped(k.frames, d);
    ghost var hole;
    sz, hole, lost := kernel.AllocUvm(d, 0, PGSIZE);
    LastPageHole(k, kernel.K(), d, sz == PGSIZE, hole, lost);
  }

  /** Freeing a copy gives back every page it took: each page is used as before the copy. */
  method CopyThenFree(kernel: Kernel, d: nat, sz: nat, kmap: seq<Kmap>) returns (r: CopyResult)
    requires Inv(kernel.K()) && d in kernel.use && kernel.use[d] == Dir && sz <= USERPAGES * PGSIZE
    requires forall i :: 0 <= i < |kmap| ==> KmapOk(kmap[i])
    modifies kernel
    ensures Inv(kernel.K()) && Kept(old(kernel.K()), kernel.K())
    ensures r == Made ==> kernel.use == old(kernel.use)
  {
    hide PoolOk, FrameOk, Lookup, Extends, Kept, SpaceFreed, PageCopied, CopyOutcome;
    ghost var k := kernel.K();
    SameKeys(k);
    var e;
    ghost var lost;
    r, e, lost := kernel.CopyUvm(d, sz, kmap);
    if r == Made {
      ghost var m := kernel.K();
      kernel.FreeVm(e);
      UndoKeeps(k, m, kernel.K(), e, 0);
    }
  }

  lemma NoRanges()
    ensures AllSlots([], 0) == {} && !Overlap([])
  {
  }

  lemma OneRange(kmap: seq<Kmap>)
    requires |kmap| == 1 && KmapOk(kmap[0]) && kmap[0].n == 1
    ensures |AllSlots(kmap, 1)| == 1 && !Overlap(kmap)
  {
    var s := Pdx(kmap[0].page);
    assert AllSlots(kmap, 1) == AllSlots(kmap, 0) + SlotsOf(kmap[0].page, 1) == Interval(s, s + 1) == {s};
  }

  /** An instance of a page lost by copyuvm: five pages, a process of one page, and fork.  The child's directory
      and the copy take the last two pages, and there is none for the table. */
  method CopyLosesPage() returns (kernel: Kernel, r: CopyResult, ghost before: map<nat, Use>, ghost lost: nat)
    ensures r == OutOfMemory && lost in before && before[lost] == Free && kernel.use == before[lost := Held]
  {
    hide PoolOk, FrameOk, Lookup, Slots, AllocOutcome, KernelMapped, NothingAbove, Extends, Kept, AllTaken, Freed, Inv;
    hide CopyOutcome, Copying, AllSlots, Overlap;
    kernel := new Kernel({1, 2, 3, 4, 5});
    kernel.Freerange(1, 6);
    var o;
    o, lost := kernel.SetupKvm([]);
    NoRanges();
    assert o.Ready?;
    var d := o.d;
    ghost var k := kernel.K();
    NothingMapped(k.frames, d);
    var sz;
    ghost var hole;
    sz, hole, lost := kernel.AllocUvm(d, 0, PGSIZE);
    FirstPage(k, kernel.K(), d, sz == PGSIZE, hole, lost);
    before := kernel.use;
    ghost var m := kernel.K();
    var e;
    r, e, lost := kernel.CopyUvm(d, PGSIZE, []);
    LastPageLost(m.frames, d, r, lost);
  }

  /** An instance of setupkvm running out: one page, which becomes a directory that nobody gets. */
  method SetupLosesPage() returns (kernel: Kernel, r: KvmResult)
    ensures r == NoSpace && kernel.pool == [] && 1 in kernel.use && kernel.use[1] == Dir
  {
    hide PoolOk, FrameOk, Lookup, Slots, KernelMapped, Extends, Kept, Freed, Inv, AllSlots, Overlap;
    kernel := new Kernel({1});
    kernel.Freerange(1, 2);
    var kmap := [Kmap(USERPAGES, 1, 0, 2)];
    OneRange(kmap);
    ghost var lost;
    r, lost := kernel.SetupKvm(kmap);
  }
}
