/** Address spaces of kalloc.c and vm.c: what their operations do to the pages, on values. */
module AddressSpaces {
  import opened PageTables
  import opened Counting
  import opened Machine

  // ---------------------------------------------------------------- pages of a space

  const NPAGES: nat := NENTRIES * NENTRIES

  /** The first kernel page: KERNBASE / PGSIZE. */
  const USERPAGES: nat := USERDIRS * NENTRIES

  function Pdx(p: nat): (i: nat)
    requires p < NPAGES
    ensures i < NENTRIES && (p < USERPAGES <==> i < USERDIRS)
  {
    p / NENTRIES
  }

  function Ptx(p: nat): (j: nat)
    ensures j < NENTRIES
  {
    p % NENTRIES
  }

  lemma PageOf(p: nat, q: nat)
    requires p < NPAGES && q < NPAGES && Pdx(p) == Pdx(q) && Ptx(p) == Ptx(q)
    ensures p == q
  {
  }

  lemma IndexBounds(p: nat)
    requires p < NPAGES
    ensures Pdx(p) < NENTRIES && Ptx(p) < NENTRIES && (p < USERPAGES <==> Pdx(p) < USERDIRS)
  {
  }

  lemma PageIndex(i: nat, j: nat, p: nat)
    requires j < NENTRIES && p < NPAGES
    ensures i * NENTRIES + j == p <==> i == Pdx(p) && j == Ptx(p)
  {
  }

  /** The entry for page p in the space of directory d. */
  ghost function Lookup(frames: map<nat, Frame>, d: nat, p: nat): Entry
    requires p < NPAGES
  {
    if IsTable(frames, d) && frames[d].entries[Pdx(p)].Present? && IsTable(frames, frames[d].entries[Pdx(p)].frame)
    then frames[frames[d].entries[Pdx(p)].frame].entries[Ptx(p)]
    else Absent
  }

  lemma SameKeys(k: Kern)
    requires PoolOk(k)
    ensures k.use.Keys == k.frames.Keys && 0 !in k.frames
  {
  }

  /** Slot i of a directory, and the table in it. */
  lemma DirFacts(k: Kern, d: nat, i: nat)
    requires Inv(k) && d in k.use && k.use[d] == Dir && i < NENTRIES
    ensures IsTable(k.frames, d)
    ensures var e := k.frames[d].entries[i];
            e.Present? ==> e.frame != 0 && e.frame in k.use && k.use[e.frame] == Tab(d, i) && IsTable(k.frames, e.frame)
  {
    assert FrameOk(k, d);
    var e := k.frames[d].entries[i];
    assert DirEntry(k.use, d, i, e);
    if e.Present? { assert FrameOk(k, e.frame); }
  }

  lemma AbsentDir(k: Kern, d: nat, p: nat)
    requires IsTable(k.frames, d) && p < NPAGES
    ensures k.frames[d].entries[Pdx(p)].Absent? ==> Lookup(k.frames, d, p).Absent?
  {
  }

  lemma PresentDir(frames: map<nat, Frame>, d: nat, p: nat)
    requires p < NPAGES && Lookup(frames, d, p).Present?
    ensures IsTable(frames, d) && frames[d].entries[Pdx(p)].Present?
  {
  }

  /** The page in a user entry is recorded as such, and no other page is. */
  lemma UserPage(k: Kern, d: nat, p: nat, t: nat)
    requires Inv(k) && d in k.use && k.use[d] == Dir && p < USERPAGES
    requires t in k.use && k.use[t] == Tab(d, Pdx(p)) && HasTable(k.frames, d, Pdx(p), t) && IsTable(k.frames, t)
    ensures var e := k.frames[t].entries[Ptx(p)];
            e.Present? ==>
              && e.frame in k.use && e.frame in k.frames
              && k.use[e.frame] == User(d, Pdx(p), Ptx(p)) && e.frame != t && e.frame != d
    ensures forall f :: f in k.use && k.use[f] == User(d, Pdx(p), Ptx(p)) ==>
              k.frames[t].entries[Ptx(p)].Present? && k.frames[t].entries[Ptx(p)].frame == f
  {
    assert FrameOk(k, t);
    var e := k.frames[t].entries[Ptx(p)];
    assert TabEntry(k.use, d, Pdx(p), Ptx(p), e);
    forall f | f in k.use && k.use[f] == User(d, Pdx(p), Ptx(p)) ensures e.Present? && e.frame == f {
      assert FrameOk(k, f);
    }
  }

  /** A mapped user page is a page in use, with its slots on record. */
  lemma LookupUser(k: Kern, d: nat, p: nat)
    requires Inv(k) && d in k.use && k.use[d] == Dir && p < USERPAGES && Lookup(k.frames, d, p).Present?
    ensures Lookup(k.frames, d, p).frame in k.use && k.use[Lookup(k.frames, d, p).frame] == User(d, Pdx(p), Ptx(p))
  {
    hide PoolOk, FrameOk;
    DirFacts(k, d, Pdx(p));
    UserPage(k, d, p, k.frames[d].entries[Pdx(p)].frame);
  }

  /** A user page on record is mapped. */
  lemma UserLookup(k: Kern, f: nat)
    requires Inv(k) && f in k.use && k.use[f].User?
    ensures var p := k.use[f].i * NENTRIES + k.use[f].j; p < USERPAGES && Lookup(k.frames, k.use[f].d, p).Present?
  {
    hide PoolOk;
    assert FrameOk(k, f);
    PageIndex(k.use[f].i, k.use[f].j, k.use[f].i * NENTRIES + k.use[f].j);
    var d := k.use[f].d;
    hide FrameOk;
    DirFacts(k, d, k.use[f].i);
  }

  lemma DataPage(k: Kern, f: nat)
    requires Inv(k) && f in k.use && k.use[f].User?
    ensures f in k.frames && k.frames[f].Data?
  {
    assert FrameOk(k, f);
  }

  /** Writing the entry of page p in its table changes the lookup of p only. */
  lemma SetEntryLookups(k: Kern, d: nat, p: nat, t: nat, e: Entry)
    requires Inv(k) && d in k.use && k.use[d] == Dir && p < NPAGES
    requires t in k.use && k.use[t] == Tab(d, Pdx(p)) && HasTable(k.frames, d, Pdx(p), t) && IsTable(k.frames, t)
    ensures Lookup(SetEntry(k.frames, t, Ptx(p), e), d, p) == e && Lookup(k.frames, d, p) == k.frames[t].entries[Ptx(p)]
    ensures forall q: nat :: q < NPAGES && q != p ==> Lookup(SetEntry(k.frames, t, Ptx(p), e), d, q) == Lookup(k.frames, d, q)
  {
    hide PoolOk, FrameOk, Pdx, Ptx;
    forall q: nat | q < NPAGES && q != p
      ensures Lookup(SetEntry(k.frames, t, Ptx(p), e), d, q) == Lookup(k.frames, d, q)
    {
      IndexBounds(q);
      IndexBounds(p);
      DirFacts(k, d, Pdx(q));
      if Pdx(q) == Pdx(p) && Ptx(q) == Ptx(p) { PageOf(p, q); }
    }
  }

  /** Filling a page that is free or in hand changes no lookup. */
  lemma FreshFrame(k: Kern, t: nat, frame: Frame, d: nat)
    requires Inv(k) && t in k.use && t in k.frames && (k.use[t] == Free || k.use[t] == Held) && d in k.use && k.use[d] == Dir
    ensures forall p: nat :: p < NPAGES ==> Lookup(k.frames[t := frame], d, p) == Lookup(k.frames, d, p)
  {
    hide PoolOk, FrameOk;
    forall p: nat | p < NPAGES ensures Lookup(k.frames[t := frame], d, p) == Lookup(k.frames, d, p) {
      DirFacts(k, d, Pdx(p));
    }
  }

  ghost predicate SameLookups(k: Kern, r: Kern, d: nat) {
    forall p: nat :: p < NPAGES ==> Lookup(r.frames, d, p) == Lookup(k.frames, d, p)
  }

  /** Adding an empty table changes no lookup. */
  lemma AddTableLookups(k: Kern, d: nat, i: nat, t: nat, flags: nat)
    requires Inv(k) && d in k.use && k.use[d] == Dir && i < NENTRIES && IsTable(k.frames, d) && k.frames[d].entries[i].Absent?
    requires t in k.use && k.use[t] == Held && t in k.frames && k.frames[t] == Table(Empty())
    ensures SameLookups(k, AddTable(k, d, i, t, flags), d)
  {
    var r := AddTable(k, d, i, t, flags);
    assert FrameOk(k, d);
    hide FrameOk, PoolOk;
    forall p: nat | p < NPAGES ensures Lookup(r.frames, d, p) == Lookup(k.frames, d, p) {
      if Pdx(p) != i {
        assert DirEntry(k.use, d, Pdx(p), k.frames[d].entries[Pdx(p)]);
      }
    }
  }

  function Zeros(): (r: seq<Byte>)
    ensures |r| == PGSIZE && forall i :: 0 <= i < PGSIZE ==> r[i] == 0
  {
    seq(PGSIZE, _ => 0)
  }

  /** Page p of d is a zeroed page, writable by the user. */
  ghost predicate ZeroMapped(frames: map<nat, Frame>, d: nat, p: nat)
    requires p < NPAGES
  {
    var e := Lookup(frames, d, p);
    e.Present? && e.flags == 6 && e.frame in frames && frames[e.frame] == Data(Zeros())
  }

  /** Pages needed for sz bytes. */
  function Pages(sz: nat): nat { (sz + PGSIZE - 1) / PGSIZE }

  /** They are the pages that hold a byte below sz. */
  lemma PagesHold(sz: nat, p: nat)
    ensures p < Pages(sz) <==> p * PGSIZE < sz
  {
  }

  lemma SizePages(sz: nat)
    requires sz <= USERPAGES * PGSIZE
    ensures Pages(sz) <= USERPAGES
  {
  }

  lemma PagesGrow(oldsz: nat, newsz: nat)
    requires oldsz <= newsz < USERPAGES * PGSIZE
    ensures Pages(oldsz) <= Pages(newsz) <= USERPAGES && (newsz == 0 ==> Pages(newsz) == 0)
  {
  }

  // ---------------------------------------------------------------- giving a space more pages

  predicate OfTables(u: Use, f: nat, d: nat) { (u == Dir && f == d) || (u.Tab? && u.d == d) }

  /** From k to r only free pages were taken, all of them for space d, and only the tables of d were
      written.  The use of pages x is not spoken of. */
  ghost predicate Extends(k: Kern, r: Kern, d: nat, x: set<nat>) {
    && r.use.Keys == k.use.Keys == k.frames.Keys == r.frames.Keys
    && (forall f :: f in k.use && k.use[f] != Free && f !in x ==> r.use[f] == k.use[f])
    && (forall f :: f in k.use && k.use[f] == Free && f !in x ==> r.use[f] == Free || OfSpace(r.use[f], f, d))
    && (forall f :: f in k.use && k.use[f] != Free && !OfTables(k.use[f], f, d) ==> r.frames[f] == k.frames[f])
  }

  /** Page x, or none. */
  function Page(x: nat): set<nat> { if x == 0 then {} else {x} }

  lemma ExtendsTrans(k: Kern, r: Kern, s: Kern, d: nat, x: nat)
    requires Extends(k, r, d, {}) || (Extends(k, r, d, Page(x)) && x in k.use && k.use[x] == Free)
    requires 0 !in k.use && Extends(r, s, d, Page(x))
    ensures Extends(k, s, d, Page(x))
    ensures x in k.use && k.use[x] == Free && OfSpace(s.use[x], x, d) ==> Extends(k, s, d, {})
  {
  }

  /** Pages given to users of d stay with them while d gets more. */
  lemma ExtendsMore(k: Kern, r: Kern, s: Kern, d: nat, x: set<nat>, y: set<nat>)
    requires Extends(k, r, d, x) && Extends(r, s, d, y)
    requires forall f :: f in x ==> f in r.use && r.use[f].User?
    ensures Extends(k, s, d, x + y)
  {
  }

  lemma ExtendsStart(k: Kern, d: nat)
    requires k.use.Keys == k.frames.Keys
    ensures Extends(k, k, d, {})
  {
  }

  lemma SameUses(k: Kern, r: Kern, d: nat, x: set<nat>)
    requires Extends(k, r, d, x)
    ensures r.use.Keys == k.use.Keys
  {
  }

  /** Mapping a page does not change what is in it. */
  lemma CopyUnchanged(k: Kern, r: Kern, d: nat, x: nat)
    requires Extends(k, r, d, Page(x)) && x in k.use && k.use[x] == Held
    ensures x in r.frames && r.frames[x] == k.frames[x]
  {
  }

  lemma WasFree(k: Kern, r: Kern, d: nat, x: nat)
    requires Extends(k, r, d, {}) && 0 !in k.use && x in r.use && r.use[x] == Free
    ensures x in k.use && k.use[x] == Free
  {
  }

  /** Exactly pages lo to hi have become free. */
  ghost predicate Freed(before: map<nat, Use>, after: map<nat, Use>, lo: nat, hi: nat) {
    forall f: nat :: f in before && f in after ==> after[f] == if lo <= f < hi then Free else before[f]
  }

  /** Every page that was in use is used as before and holds what it held. */
  ghost predicate Kept(k: Kern, r: Kern) {
    && r.use.Keys == k.use.Keys == k.frames.Keys == r.frames.Keys
    && forall f :: f in k.use && k.use[f] != Free ==> r.use[f] == k.use[f] && r.frames[f] == k.frames[f]
  }

  lemma KeptStart(k: Kern)
    requires PoolOk(k)
    ensures Kept(k, k)
  {
  }

  /** Making a space in free pages leaves all others alone. */
  lemma ExtendsKept(k: Kern, r: Kern, e: nat, x: nat)
    requires Inv(k) && Extends(k, r, e, Page(x)) && e in k.use && k.use[e] == Free && (x in k.use ==> k.use[x] == Free)
    ensures Kept(k, r)
  {
    SameKeys(k);
    forall f | f in k.use && k.use[f] != Free ensures r.use[f] == k.use[f] && r.frames[f] == k.frames[f] {
      assert FrameOk(k, f);
    }
  }

  /** d is a new space made of pages that were free. */
  ghost predicate NewSpace(k: Kern, r: Kern, d: nat) {
    d in r.use && r.use[d] == Dir && d in k.use && k.use[d] == Free && Extends(k, r, d, {})
  }

  lemma NewSpaceKeeps(k: Kern, r: Kern, d: nat, e: nat)
    requires Inv(k) && Extends(k, r, e, {}) && e in k.use && k.use[e] == Free && d in k.use && k.use[d] == Dir
    ensures Kept(k, r) && d in r.use && r.use[d] == Dir
    ensures forall p: nat :: p < NPAGES ==> Lookup(r.frames, d, p) == Lookup(k.frames, d, p)
  {
    hide PoolOk, FrameOk, Extends;
    SameKeys(k);
    ExtendsKept(k, r, e, 0);
    forall p: nat | p < NPAGES ensures Lookup(r.frames, d, p) == Lookup(k.frames, d, p) {
      DirFacts(k, d, Pdx(p));
    }
  }

  // ---------------------------------------------------------------- tables

  /** The slots of directory d that have a table. */
  ghost function Slots(frames: map<nat, Frame>, d: nat): set<nat> {
    set i | i in Interval(0, NENTRIES) && IsTable(frames, d) && frames[d].entries[i].Present?
  }

  /** The slots of the n pages from p on. */
  ghost function SlotsOf(p: nat, n: nat): set<nat> {
    if n == 0 || p + n > NPAGES then {} else Interval(Pdx(p), Pdx(p + n - 1) + 1)
  }

  /** Slots x of d have tables, made from free pages where there were none. */
  ghost predicate Charged(k: Kern, r: Kern, d: nat, x: set<nat>) {
    && Slots(r.frames, d) == Slots(k.frames, d) + x
    && |r.pool| + |Slots(r.frames, d)| == |k.pool| + |Slots(k.frames, d)|
  }

  lemma ChargedMore(k: Kern, r: Kern, s: Kern, d: nat, x: set<nat>, y: set<nat>)
    requires Charged(k, r, d, x) && Charged(r, s, d, y)
    ensures Charged(k, s, d, x + y)
  {
    assert Slots(k.frames, d) + x + y == Slots(k.frames, d) + (x + y);
  }

  lemma InSlots(frames: map<nat, Frame>, d: nat, i: nat)
    requires IsTable(frames, d)
    ensures i in Slots(frames, d) <==> i < NENTRIES && frames[d].entries[i].Present?
  {
    assert i in Interval(0, NENTRIES) <==> i < NENTRIES;
  }

  lemma SlotsSame(before: map<nat, Frame>, after: map<nat, Frame>, d: nat)
    requires d in before && d in after && after[d] == before[d]
    ensures Slots(after, d) == Slots(before, d)
  {
  }

  lemma SlotsAdded(frames: map<nat, Frame>, d: nat, i: nat, t: nat, flags: nat)
    requires IsTable(frames, d) && i < NENTRIES && frames[d].entries[i].Absent?
    ensures Slots(SetEntry(frames, d, i, Present(t, flags)), d) == Slots(frames, d) + {i} && i !in Slots(frames, d)
  {
    hide Slots;
    var after := SetEntry(frames, d, i, Present(t, flags));
    forall j: nat ensures j in Slots(after, d) <==> j in Slots(frames, d) || j == i {
      InSlots(frames, d, j);
      InSlots(after, d, j);
    }
    InSlots(frames, d, i);
  }

  /** One page more. */
  lemma SlotsOfStep(p: nat, n: nat)
    requires p + n < NPAGES
    ensures SlotsOf(p, n + 1) == SlotsOf(p, n) + {Pdx(p + n)}
  {
    if n > 0 { assert Pdx(p + n - 1) <= Pdx(p + n) <= Pdx(p + n - 1) + 1; }
  }

  lemma SlotsOfGrow(p: nat, n: nat, n': nat)
    requires n <= n' && p + n' <= NPAGES
    ensures SlotsOf(p, n) <= SlotsOf(p, n')
  {
  }

  /** What mapping pages a to b costs in a space whose slots have tables: each page, and a table for each
      slot that has none. */
  ghost function Need(slots: set<nat>, a: nat, b: nat): nat
    requires a <= b
  {
    b - a + |SlotsOf(a, b - a) - slots|
  }

  /** The table for page b is missing when the pages from a on have been mapped up to b. */
  ghost predicate NoTable(slots: set<nat>, a: nat, b: nat)
    requires a <= b < NPAGES
  {
    Pdx(b) !in slots + SlotsOf(a, b - a)
  }

  lemma NeedStep(slots: set<nat>, a: nat, b: nat)
    requires a <= b < NPAGES
    ensures Need(slots, a, b + 1) == Need(slots, a, b) + if NoTable(slots, a, b) then 2 else 1
  {
    hide SlotsOf, Pdx;
    SlotsOfStep(a, b - a);
    var x, y := SlotsOf(a, b - a), SlotsOf(a, b + 1 - a);
    if NoTable(slots, a, b) {
      assert y - slots == (x - slots) + {Pdx(b)} && Pdx(b) !in x - slots;
    } else {
      assert y - slots == x - slots;
    }
  }

  lemma {:induction false} NeedGrows(slots: set<nat>, a: nat, b: nat, c: nat)
    requires a <= b <= c <= NPAGES
    ensures Need(slots, a, b) + (c - b) <= Need(slots, a, c)
    decreases c
  {
    hide Need, NoTable;
    if b < c {
      NeedGrows(slots, a, b, c - 1);
      NeedStep(slots, a, c - 1);
    }
  }

  /** Of n free pages exactly one is left for page b, and its table is missing: the page is taken and
      cannot be mapped. */
  ghost predicate LossAt(slots: set<nat>, n: nat, a: nat, b: nat) {
    a <= b < NPAGES && NoTable(slots, a, b) && n == Need(slots, a, b) + 1
  }

  /** That is at most at one page, and never if all pages can be had. */
  lemma LossDecides(slots: set<nat>, n: nat, a: nat, b: nat, c: nat)
    requires LossAt(slots, n, a, b) && a <= c <= NPAGES
    ensures if c <= b then Need(slots, a, c) < n else n < Need(slots, a, c)
  {
    hide Need, NoTable;
    if c <= b {
      NeedGrows(slots, a, c, b);
    } else {
      NeedStep(slots, a, b);
      NeedGrows(slots, a, b + 1, c);
    }
  }

  /** Slots and free pages when pages a to b have been mapped in space d, which had these slots and n free
      pages to take. */
  ghost predicate Tally(m: Kern, d: nat, slots: set<nat>, n: nat, a: nat, b: nat)
    requires a <= b
  {
    Slots(m.frames, d) == slots + SlotsOf(a, b - a) && |m.pool| + Need(slots, a, b) == n
  }

  lemma TallyStart(m: Kern, d: nat, a: nat)
    ensures Tally(m, d, Slots(m.frames, d), |m.pool|, a, a)
  {
    hide Slots;
    assert Slots(m.frames, d) + SlotsOf(a, 0) == Slots(m.frames, d);
  }

  /** The tables and pages taken so far are what was needed. */
  lemma TallyStep(m: Kern, r: Kern, d: nat, slots: set<nat>, n: nat, a: nat, b: nat)
    requires a <= b < USERPAGES && Tally(m, d, slots, n, a, b)
    requires Slots(r.frames, d) == Slots(m.frames, d) + {Pdx(b)}
    requires |r.pool| + 1 + |Slots(r.frames, d)| == |m.pool| + |Slots(m.frames, d)|
    ensures Tally(r, d, slots, n, a, b + 1)
  {
    hide Need, Slots, SlotsOf, Pdx;
    NeedStep(slots, a, b);
    SlotsOfStep(a, b - a);
    assert slots + SlotsOf(a, b - a) + {Pdx(b)} == slots + (SlotsOf(a, b - a) + {Pdx(b)});
    var s := Slots(m.frames, d);
    assert Pdx(b) in s ==> s + {Pdx(b)} == s;
  }

  // ---------------------------------------------------------------- mapping pages

  datatype MapResult = Mapped | NoMemory | Remap

  /** How many of the n pages from p on are user pages. */
  function UserCount(p: nat, n: nat): nat {
    if p >= USERPAGES then 0 else if p + n <= USERPAGES then n else USERPAGES - p
  }

  ghost predicate MapsTo(before: map<nat, Frame>, after: map<nat, Frame>, d: nat, p: nat, n: nat, pa: nat, flags: nat) {
    forall q: nat :: q < NPAGES ==>
      if p <= q < p + n then Lookup(before, d, q).Absent? && Lookup(after, d, q) == Present(pa + (q - p), flags)
      else Lookup(after, d, q) == Lookup(before, d, q)
  }

  function UserAt(d: nat, p: nat): Use
    requires p < NPAGES
  {
    User(d, Pdx(p), Ptx(p))
  }

  /** The user pages among pages p to p + n of d have the pages from pa on. */
  ghost predicate UsersOf(use: map<nat, Use>, d: nat, p: nat, n: nat, pa: nat) {
    forall f :: f in Interval(pa, pa + UserCount(p, n)) ==> f in use && use[f] == UserAt(d, p + (f - pa))
  }

  /** Pages p to p + n of d, none of them mapped before, map to the pages from pa on; no other page is
      mapped differently, and nothing but tables for them was taken. */
  ghost predicate MapDone(k: Kern, r: Kern, d: nat, p: nat, n: nat, pa: nat, flags: nat) {
    && Extends(k, r, d, Interval(pa, pa + UserCount(p, n))) && Charged(k, r, d, SlotsOf(p, n))
    && MapsTo(k.frames, r.frames, d, p, n, pa, flags) && UsersOf(r.use, d, p, n, pa)
  }

  lemma MapStart(k: Kern, d: nat, p: nat, pa: nat, flags: nat)
    requires k.use.Keys == k.frames.Keys
    ensures MapDone(k, k, d, p, 0, pa, flags)
  {
    ExtendsStart(k, d);
    assert Slots(k.frames, d) + {} == Slots(k.frames, d);
    assert Interval(pa, pa + UserCount(p, 0)) == {};
  }

  /** The physical page for page p + n is in hand, if p + n is a user page. */
  ghost predicate InHand(k: Kern, p: nat, n: nat, pa: nat) {
    p + n < USERPAGES ==> pa + n in k.use && k.use[pa + n] == Held && pa + n in k.frames && k.frames[pa + n].Data?
  }

  lemma InHandNow(k: Kern, p: nat, n: nat, pa: nat)
    requires InHand(k, p, n, pa)
    ensures InHand(k, p + n, 0, pa + n)
  {
  }

  lemma StillInHand(k: Kern, m: Kern, d: nat, p: nat, n: nat, pa: nat, flags: nat)
    requires MapDone(k, m, d, p, n, pa, flags) && InHand(k, p, n, pa)
    ensures InHand(m, p, n, pa)
  {
    hide Charged, Lookup;
  }

  /** The page that page p + n is given, if it is a user page. */
  function NewUser(p: nat, n: nat, pa: nat): set<nat> { if p + n < USERPAGES then Page(pa + n) else {} }

  lemma CountStep(p: nat, n: nat, pa: nat)
    requires p + n < USERPAGES ==> pa + n != 0
    ensures Interval(pa, pa + UserCount(p, n + 1)) == Interval(pa, pa + UserCount(p, n)) + NewUser(p, n, pa)
  {
  }

  lemma UsersStep(before: map<nat, Use>, after: map<nat, Use>, d: nat, p: nat, n: nat, pa: nat)
    requires UsersOf(before, d, p, n, pa) && p + n < NPAGES
    requires forall f :: f in Interval(pa, pa + UserCount(p, n)) ==> f in after && after[f] == before[f]
    requires p + n < USERPAGES ==> pa + n != 0 && pa + n in after && after[pa + n] == UserAt(d, p + n)
    ensures UsersOf(after, d, p, n + 1, pa)
  {
    hide Pdx, Ptx;
    CountStep(p, n, pa);
  }

  lemma UsersFrame(m: Kern, r: Kern, d: nat, p: nat, n: nat, pa: nat)
    requires UsersOf(m.use, d, p, n, pa) && Extends(m, r, d, NewUser(p, n, pa))
    ensures forall f :: f in Interval(pa, pa + UserCount(p, n)) ==>
              f in m.use && f in r.use && m.use[f].User? && r.use[f] == m.use[f]
  {
    hide Pdx, Ptx;
    forall f | f in Interval(pa, pa + UserCount(p, n)) ensures f !in NewUser(p, n, pa) { }
  }

  lemma MapStepUse(k: Kern, m: Kern, r: Kern, d: nat, p: nat, n: nat, pa: nat, flags: nat)
    requires MapDone(k, m, d, p, n, pa, flags) && p + n < NPAGES && 0 !in k.use && InHand(m, p, n, pa)
    requires Extends(m, r, d, NewUser(p, n, pa))
    requires p + n < USERPAGES ==> pa + n in r.use && r.use[pa + n] == UserAt(d, p + n)
    ensures Extends(k, r, d, Interval(pa, pa + UserCount(p, n + 1)))
    ensures UsersOf(r.use, d, p, n + 1, pa)
  {
    hide Charged, Lookup, SlotsOf, Pdx, Ptx;
    var x := Interval(pa, pa + UserCount(p, n));
    UsersFrame(m, r, d, p, n, pa);
    hide Extends, UsersOf, InHand;
    ExtendsMore(k, m, r, d, x, NewUser(p, n, pa));
    CountStep(p, n, pa);
    UsersStep(m.use, r.use, d, p, n, pa);
  }

  lemma MapsStep(k: map<nat, Frame>, m: map<nat, Frame>, r: map<nat, Frame>, d: nat, p: nat, n: nat, pa: nat, flags: nat)
    requires MapsTo(k, m, d, p, n, pa, flags) && p + n < NPAGES
    requires Lookup(m, d, p + n).Absent? && Lookup(r, d, p + n) == Present(pa + n, flags)
    requires forall q: nat :: q < NPAGES && q != p + n ==> Lookup(r, d, q) == Lookup(m, d, q)
    ensures MapsTo(k, r, d, p, n + 1, pa, flags)
  {
    hide Lookup;
  }

  /** One round more. */
  lemma MapStep(k: Kern, m: Kern, r: Kern, d: nat, p: nat, n: nat, pa: nat, flags: nat)
    requires MapDone(k, m, d, p, n, pa, flags) && p + n < NPAGES && 0 !in k.use && InHand(m, p, n, pa)
    requires Extends(m, r, d, NewUser(p, n, pa)) && Charged(m, r, d, {Pdx(p + n)})
    requires p + n < USERPAGES ==> pa + n in r.use && r.use[pa + n] == UserAt(d, p + n)
    requires Lookup(m.frames, d, p + n).Absent? && Lookup(r.frames, d, p + n) == Present(pa + n, flags)
    requires forall q: nat :: q < NPAGES && q != p + n ==> Lookup(r.frames, d, q) == Lookup(m.frames, d, q)
    ensures MapDone(k, r, d, p, n + 1, pa, flags)
  {
    hide Extends, Charged, Lookup, InHand, SlotsOf, UsersOf, Pdx, Ptx, MapsTo;
    SlotsOfStep(p, n);
    MapsStep(k.frames, m.frames, r.frames, d, p, n, pa, flags);
    MapStepUse(k, m, r, d, p, n, pa, flags);
    ChargedMore(k, m, r, d, SlotsOf(p, n), {Pdx(p + n)});
  }

  /** One page was mapped. */
  lemma MapDoneOne(k: Kern, r: Kern, d: nat, p: nat, pa: nat, flags: nat)
    requires MapDone(k, r, d, p, 1, pa, flags) && p < USERPAGES && pa != 0
    ensures Extends(k, r, d, Page(pa)) && Charged(k, r, d, {Pdx(p)}) && pa in r.use && r.use[pa] == UserAt(d, p)
    ensures Lookup(r.frames, d, p) == Present(pa, flags)
    ensures forall q: nat :: q < NPAGES && q != p ==> Lookup(r.frames, d, q) == Lookup(k.frames, d, q)
  {
    hide Extends, Charged, Lookup, Pdx, Ptx;
    assert Interval(pa, pa + 1) == Page(pa) && pa in Interval(pa, pa + 1);
    assert Interval(Pdx(p), Pdx(p) + 1) == {Pdx(p)};
  }

  /** Pages still to be mapped are as they were. */
  lemma MapLookup(k: Kern, m: Kern, d: nat, p: nat, n: nat, pa: nat, flags: nat)
    requires MapDone(k, m, d, p, n, pa, flags) && p + n < NPAGES
    ensures Lookup(m.frames, d, p + n) == Lookup(k.frames, d, p + n)
  {
    hide Extends, Charged, Lookup;
  }

  // ---------------------------------------------------------------- the half of the kernel

  /** A range of pages that every space maps alike, in the kernel's half. */
  datatype Kmap = Kmap(page: nat, n: nat, pa: nat, flags: nat)

  predicate KmapOk(m: Kmap) { USERPAGES <= m.page && 0 < m.n && m.page + m.n <= NPAGES }

  datatype KvmResult = Ready(d: nat) | NoSpace | Clash

  /** The slots of the first i ranges. */
  ghost function AllSlots(kmap: seq<Kmap>, i: nat): set<nat>
    requires i <= |kmap|
  {
    if i == 0 then {} else AllSlots(kmap, i - 1) + SlotsOf(kmap[i - 1].page, kmap[i - 1].n)
  }

  lemma {:induction false} AllSlotsGrow(kmap: seq<Kmap>, i: nat, j: nat)
    requires i <= j <= |kmap|
    ensures AllSlots(kmap, i) <= AllSlots(kmap, j)
  {
    hide SlotsOf;
    if i < j { AllSlotsGrow(kmap, i, j - 1); }
  }

  predicate InMap(m: Kmap, p: nat) { m.page <= p < m.page + m.n }

  /** Space d maps the first i ranges, and nothing else. */
  ghost predicate KernelMapped(frames: map<nat, Frame>, d: nat, kmap: seq<Kmap>, i: nat)
    requires i <= |kmap|
  {
    && (forall j, p: nat :: 0 <= j < i && p < NPAGES && InMap(kmap[j], p) ==>
          Lookup(frames, d, p) == Present(kmap[j].pa + (p - kmap[j].page), kmap[j].flags))
    && (forall p: nat :: p < NPAGES && Lookup(frames, d, p).Present? ==> exists j :: 0 <= j < i && InMap(kmap[j], p))
  }

  /** The kernel's half of space d maps exactly the ranges. */
  ghost predicate KernelHalf(frames: map<nat, Frame>, d: nat, kmap: seq<Kmap>) {
    && (forall j, p: nat :: 0 <= j < |kmap| && USERPAGES <= p < NPAGES && InMap(kmap[j], p) ==>
          Lookup(frames, d, p) == Present(kmap[j].pa + (p - kmap[j].page), kmap[j].flags))
    && (forall p: nat :: USERPAGES <= p < NPAGES && Lookup(frames, d, p).Present? ==>
          exists j :: 0 <= j < |kmap| && InMap(kmap[j], p))
  }

  lemma KernelOnly(frames: map<nat, Frame>, d: nat, kmap: seq<Kmap>)
    requires KernelMapped(frames, d, kmap, |kmap|) && forall i :: 0 <= i < |kmap| ==> KmapOk(kmap[i])
    ensures KernelHalf(frames, d, kmap) && forall p: nat :: p < USERPAGES ==> Lookup(frames, d, p).Absent?
  {
    hide Lookup;
  }

  lemma KernelHalfKept(before: map<nat, Frame>, after: map<nat, Frame>, d: nat, kmap: seq<Kmap>)
    requires KernelHalf(before, d, kmap)
    requires forall p: nat :: USERPAGES <= p < NPAGES ==> Lookup(after, d, p) == Lookup(before, d, p)
    ensures KernelHalf(after, d, kmap)
  {
    hide Lookup;
  }

  /** Directory d, a page that was free, has the first i ranges; pages were taken for it and its tables. */
  ghost predicate KvmSoFar(k: Kern, m: Kern, d: nat, kmap: seq<Kmap>, i: nat)
    requires i <= |kmap|
  {
    && d in k.use && k.use[d] == Free && Extends(k, m, d, {}) && KernelMapped(m.frames, d, kmap, i)
    && Slots(m.frames, d) == AllSlots(kmap, i) && |m.pool| + |Slots(m.frames, d)| + 1 == |k.pool|
  }

  /** Two ranges share a page. */
  ghost predicate Overlap(kmap: seq<Kmap>) {
    exists i, j, p :: 0 <= i < j < |kmap| && InMap(kmap[i], p) && InMap(kmap[j], p)
  }

  /** No page is free any more: all that were are part of the half-made space d. */
  ghost predicate AllTaken(k: Kern, r: Kern, d: nat) {
    && r.pool == [] && r.use.Keys == k.use.Keys && (d != 0 ==> d in r.use && r.use[d] == Dir)
    && forall f :: f in k.use && k.use[f] == Free ==> OfSpace(r.use[f], f, d)
  }

  lemma NothingTaken(k: Kern)
    requires PoolOk(k) && k.pool == []
    ensures AllTaken(k, k, 0)
  {
  }

  lemma TakenAll(k: Kern, r: Kern, d: nat)
    requires PoolOk(r) && r.pool == [] && Extends(k, r, d, {}) && d in r.use && r.use[d] == Dir
    ensures AllTaken(k, r, d)
  {
  }

  /** One free page has become an empty directory. */
  lemma NewDirExtends(k: Kern, r: Kern, d: nat)
    requires PoolOk(k) && d in k.frames && k.use[d] == Free
    requires r.frames == k.frames[d := Table(Empty())] && r.use == k.use[d := Dir]
    ensures Extends(k, r, d, {}) && forall p: nat :: p < NPAGES ==> Lookup(r.frames, d, p).Absent?
  {
  }

  lemma KernelStart(frames: map<nat, Frame>, d: nat, kmap: seq<Kmap>)
    requires IsTable(frames, d) && frames[d] == Table(Empty())
    ensures KernelMapped(frames, d, kmap, 0) && Slots(frames, d) == {}
  {
  }

  /** Kernel ranges need no pages but tables. */
  lemma KernelRange(k: Kern, m: Kern, r: Kern, d: nat, range: Kmap, done: nat)
    requires 0 !in k.use && Extends(k, m, d, {}) && KmapOk(range) && done <= range.n
    requires MapDone(m, r, d, range.page, done, range.pa, range.flags)
    ensures Extends(k, r, d, {}) && Charged(m, r, d, SlotsOf(range.page, done))
  {
    hide Charged, Lookup, SlotsOf;
    assert Interval(range.pa, range.pa + UserCount(range.page, done)) == {};
    ExtendsTrans(k, m, r, d, 0);
  }

  lemma KernelStep(m: Kern, r: Kern, d: nat, kmap: seq<Kmap>, i: nat)
    requires i < |kmap| && KernelMapped(m.frames, d, kmap, i) && KmapOk(kmap[i])
    requires MapDone(m, r, d, kmap[i].page, kmap[i].n, kmap[i].pa, kmap[i].flags)
    ensures KernelMapped(r.frames, d, kmap, i + 1)
  {
    hide Extends, Charged, Lookup, SlotsOf;
    forall p: nat | p < NPAGES && Lookup(r.frames, d, p).Present? ensures exists j :: 0 <= j < i + 1 && InMap(kmap[j], p) {
      if !InMap(kmap[i], p) {
        assert Lookup(m.frames, d, p).Present?;
      }
    }
  }

  /** mappages ran out at page done of range i: more slots are needed than there are. */
  lemma NoRoom(kmap: seq<Kmap>, i: nat, done: nat, slots: set<nat>)
    requires i < |kmap| && KmapOk(kmap[i]) && done < kmap[i].n
    requires slots == AllSlots(kmap, i) + SlotsOf(kmap[i].page, done) && Pdx(kmap[i].page + done) !in slots
    ensures |slots| < |AllSlots(kmap, |kmap|)|
  {
    hide SlotsOf, Pdx;
    SlotsOfStep(kmap[i].page, done);
    SlotsOfGrow(kmap[i].page, done + 1, kmap[i].n);
    AllSlotsGrow(kmap, i + 1, |kmap|);
    SubsetSize(slots + {Pdx(kmap[i].page + done)}, AllSlots(kmap, |kmap|));
  }

  lemma ClashFound(frames: map<nat, Frame>, d: nat, kmap: seq<Kmap>, i: nat, done: nat)
    requires i < |kmap| && KmapOk(kmap[i]) && done < kmap[i].n && KernelMapped(frames, d, kmap, i)
    requires Lookup(frames, d, kmap[i].page + done).Present?
    ensures Overlap(kmap)
  {
    hide Lookup;
    var p := kmap[i].page + done;
    var j :| 0 <= j < i && InMap(kmap[j], p);
    assert InMap(kmap[i], p);
  }

  // ---------------------------------------------------------------- unmapping pages

  /** The loop of deallocuvm, from page a to page n, looks at page p: it steps over 1024 pages from
      where it is whenever the directory slot is empty. */
  ghost predicate Reaches(dir: seq<Entry>, a: nat, n: nat, p: nat)
    requires |dir| == NENTRIES && n <= NPAGES
    decreases n - a
  {
    a < n && if dir[Pdx(a)].Absent? then Reaches(dir, a + NENTRIES, n, p) else p == a || Reaches(dir, a + 1, n, p)
  }

  lemma ReachesStep(dir: seq<Entry>, a: nat, n: nat)
    requires |dir| == NENTRIES && n <= NPAGES && a < n
    ensures forall p: nat :: Reaches(dir, a, n, p) <==>
      if dir[Pdx(a)].Absent? then Reaches(dir, a + NENTRIES, n, p) else p == a || Reaches(dir, a + 1, n, p)
  {
  }

  lemma ReachesEnd(dir: seq<Entry>, a: nat, n: nat)
    requires |dir| == NENTRIES && n <= NPAGES && n <= a
    ensures forall p: nat :: !Reaches(dir, a, n, p)
  {
  }

  lemma {:induction false} ReachesAbove(dir: seq<Entry>, a: nat, n: nat, p: nat)
    requires |dir| == NENTRIES && n <= NPAGES && Reaches(dir, a, n, p)
    ensures a <= p < n
    decreases n - a
  {
    if dir[Pdx(a)].Absent? {
      ReachesAbove(dir, a + NENTRIES, n, p);
    } else if p != a {
      ReachesAbove(dir, a + 1, n, p);
    }
  }

  /** From a directory boundary the loop of deallocuvm misses no page that has a table. */
  lemma {:induction false} ReachesAll(dir: seq<Entry>, a: nat, n: nat, p: nat)
    requires |dir| == NENTRIES && n <= NPAGES && a <= p < n && dir[Pdx(p)].Present?
    requires a % NENTRIES == 0 || dir[Pdx(a)].Present?
    ensures Reaches(dir, a, n, p)
    decreases n - a
  {
    if dir[Pdx(a)].Absent? {
      ReachesAll(dir, a + NENTRIES, n, p);
    } else if p != a {
      ReachesAll(dir, a + 1, n, p);
    }
  }

  /** Page p is in the first used directory slot above an empty one in which the loop starts at a, and
      at a smaller offset than a. */
  ghost predicate Skipped(dir: seq<Entry>, a: nat, p: nat)
    requires |dir| == NENTRIES && p < NPAGES && a <= p
  {
    Pdx(a) < Pdx(p) && Ptx(p) < Ptx(a) && forall i :: Pdx(a) <= i < Pdx(p) ==> dir[i].Absent?
  }

  /** Exactly which pages with a table the 4 MB step of deallocuvm jumps over. */
  lemma {:induction false} ReachesIff(dir: seq<Entry>, a: nat, n: nat, p: nat)
    requires |dir| == NENTRIES && n <= NPAGES && a <= p < n && dir[Pdx(p)].Present?
    ensures Reaches(dir, a, n, p) <==> !Skipped(dir, a, p)
    decreases n - a
  {
    if dir[Pdx(a)].Present? {
      ReachesAll(dir, a, n, p);
    } else if p < a + NENTRIES {
      if Reaches(dir, a + NENTRIES, n, p) { ReachesAbove(dir, a + NENTRIES, n, p); }
    } else {
      ReachesIff(dir, a + NENTRIES, n, p);
      assert Pdx(a + NENTRIES) == Pdx(a) + 1 && Ptx(a + NENTRIES) == Ptx(a);
      if Pdx(p) > Pdx(a) + 1 && Skipped(dir, a + NENTRIES, p) {
        forall i | Pdx(a) <= i < Pdx(p) ensures dir[i].Absent? { }
      }
    }
  }

  /** Starting at page 1 under an empty first slot, the loop misses page 1024. */
  lemma SkipMisses(dir: seq<Entry>, n: nat)
    requires |dir| == NENTRIES && NENTRIES < n <= NPAGES && dir[0].Absent? && dir[1].Present?
    ensures !Reaches(dir, 1, n, NENTRIES)
  {
    ReachesIff(dir, 1, n, NENTRIES);
  }

  /** The record says: user page of d, one of the pages given. */
  predicate UserIn(u: Use, d: nat, seen: set<nat>) { u.User? && u.d == d && u.i * NENTRIES + u.j in seen }

  /** From k to r the pages seen have been unmapped from d and freed, and nothing else changed. */
  ghost predicate Gone(k: Kern, r: Kern, d: nat, seen: set<nat>) {
    && r.use.Keys == k.use.Keys == k.frames.Keys == r.frames.Keys
    && (forall f :: f in k.use ==> r.use[f] == if UserIn(k.use[f], d, seen) then Free else k.use[f])
    && (forall q: nat :: q < NPAGES ==> Lookup(r.frames, d, q) == if q in seen then Absent else Lookup(k.frames, d, q))
    && (forall f :: f in k.use && !OfTables(k.use[f], f, d) && !UserIn(k.use[f], d, seen) ==> r.frames[f] == k.frames[f])
  }

  ghost predicate PageGone(k: Kern, r: Kern, d: nat, p: nat) {
    Gone(k, r, d, {p}) && d in k.use && d in r.frames && d in k.frames && r.frames[d] == k.frames[d]
  }

  /** A user page of d is page p exactly when its slots are those of p. */
  lemma UserIs(k: Kern, d: nat, p: nat, f: nat)
    requires Inv(k) && f in k.use && p < NPAGES
    ensures UserIn(k.use[f], d, {p}) <==> k.use[f] == User(d, Pdx(p), Ptx(p))
  {
    assert FrameOk(k, f);
    if k.use[f].User? { PageIndex(k.use[f].i, k.use[f].j, p); }
  }

  lemma GoneStart(k: Kern, d: nat)
    requires k.use.Keys == k.frames.Keys
    ensures Gone(k, k, d, {})
  {
  }

  lemma GonePage(k: Kern, d: nat, p: nat, t: nat, f: nat)
    requires Inv(k) && d in k.use && k.use[d] == Dir && p < USERPAGES
    requires t in k.use && k.use[t] == Tab(d, Pdx(p)) && HasTable(k.frames, d, Pdx(p), t) && IsTable(k.frames, t)
    requires k.frames[t].entries[Ptx(p)].Present? && k.frames[t].entries[Ptx(p)].frame == f
    ensures PageGone(k, Release(RemovePage(k, Ptx(p), t, f), f), d, p)
  {
    hide PoolOk, FrameOk, Lookup, Pdx, Ptx;
    IndexBounds(p);
    SameKeys(k);
    UserPage(k, d, p, t);
    var m := RemovePage(k, Ptx(p), t, f);
    RemovePageKeeps(k, d, Pdx(p), Ptx(p), t, f);
    SetEntryLookups(k, d, p, t, Absent);
    FreshFrame(m, f, Run(k.freelist), d);
    var r := Release(m, f);
    forall g | g in k.use ensures r.use[g] == if UserIn(k.use[g], d, {p}) then Free else k.use[g] { UserIs(k, d, p, g); }
  }

  lemma GoneMorePage(k: Kern, m: Kern, r: Kern, d: nat, a: nat, seen: set<nat>, f: nat)
    requires Gone(k, m, d, seen) && Gone(m, r, d, {a}) && f in k.use
    ensures r.use[f] == if UserIn(k.use[f], d, seen + {a}) then Free else k.use[f]
    ensures !OfTables(k.use[f], f, d) && !UserIn(k.use[f], d, seen + {a}) ==> r.frames[f] == k.frames[f]
  {
    hide Lookup;
  }

  lemma GoneMore(k: Kern, m: Kern, r: Kern, d: nat, a: nat, seen: set<nat>)
    requires Gone(k, m, d, seen) && PageGone(m, r, d, a)
    ensures Gone(k, r, d, seen + {a})
  {
    hide Lookup, UserIn, OfTables;
    forall f | f in k.use
      ensures r.use[f] == if UserIn(k.use[f], d, seen + {a}) then Free else k.use[f]
      ensures !OfTables(k.use[f], f, d) && !UserIn(k.use[f], d, seen + {a}) ==> r.frames[f] == k.frames[f]
    {
      GoneMorePage(k, m, r, d, a, seen, f);
    }
  }

  lemma GoneNothing(k: Kern, m: Kern, d: nat, a: nat, t: nat, seen: set<nat>)
    requires Inv(m) && Gone(k, m, d, seen) && d in m.use && m.use[d] == Dir && a < USERPAGES
    requires t in m.use && m.use[t] == Tab(d, Pdx(a)) && HasTable(m.frames, d, Pdx(a), t) && IsTable(m.frames, t)
    requires m.frames[t].entries[Ptx(a)].Absent?
    ensures Gone(k, m, d, seen + {a})
  {
    hide PoolOk, FrameOk, Pdx, Ptx;
    IndexBounds(a);
    UserPage(m, d, a, t);
    forall f | f in k.use ensures m.use[f] == if UserIn(k.use[f], d, seen + {a}) then Free else k.use[f] {
      UserIs(m, d, a, f);
    }
  }

  ghost predicate UserReached(u: Use, d: nat, dir: seq<Entry>, a: nat, n: nat)
    requires |dir| == NENTRIES && n <= NPAGES
  {
    u.User? && u.d == d && Reaches(dir, a, n, u.i * NENTRIES + u.j)
  }

  /** Dealloced: exactly the pages that the loop reaches are gone. */
  ghost predicate Dealloced(k: Kern, r: Kern, d: nat, a: nat, n: nat)
    requires IsTable(k.frames, d) && n <= NPAGES
  {
    && r.use.Keys == k.use.Keys == k.frames.Keys == r.frames.Keys
    && d in r.frames && r.frames[d] == k.frames[d]
    && (forall f :: f in k.use ==> r.use[f] == if UserReached(k.use[f], d, k.frames[d].entries, a, n) then Free else k.use[f])
    && (forall q: nat :: q < NPAGES ==>
          Lookup(r.frames, d, q) == if Reaches(k.frames[d].entries, a, n, q) then Absent else Lookup(k.frames, d, q))
    && (forall f :: f in k.use && !OfTables(k.use[f], f, d) && !UserReached(k.use[f], d, k.frames[d].entries, a, n) ==>
          r.frames[f] == k.frames[f])
  }

  lemma GoneDealloced(k: Kern, r: Kern, d: nat, seen: set<nat>, a: nat, n: nat)
    requires Gone(k, r, d, seen) && IsTable(k.frames, d) && n <= NPAGES && d in r.frames && r.frames[d] == k.frames[d]
    requires forall q: nat :: Reaches(k.frames[d].entries, a, n, q) <==> q in seen
    ensures Dealloced(k, r, d, a, n)
  {
    hide Lookup, Reaches;
  }

  /** deallocuvm unmaps everything from page a to page n if and only if no mapped page is skipped. */
  lemma DeallocCompleteIff(k: Kern, r: Kern, d: nat, a: nat, n: nat)
    requires IsTable(k.frames, d) && n <= NPAGES && Dealloced(k, r, d, a, n)
    ensures (forall p: nat :: a <= p < n ==> Lookup(r.frames, d, p).Absent?) <==>
            (forall p: nat :: a <= p < n && Lookup(k.frames, d, p).Present? ==> !Skipped(k.frames[d].entries, a, p))
  {
    var dir := k.frames[d].entries;
    forall p: nat | a <= p < n
      ensures Lookup(r.frames, d, p).Absent? <==> (Lookup(k.frames, d, p).Present? ==> !Skipped(dir, a, p))
    {
      if Lookup(k.frames, d, p).Present? { ReachesIff(dir, a, n, p); }
    }
  }

  /** The space shrinks from oldsz to newsz bytes: pages with a byte below newsz, and those from oldsz on, are
      mapped as before; of the others only one that the loop skips from the first of them can stay. */
  ghost predicate Shrunk(k: Kern, r: Kern, d: nat, newsz: nat, oldsz: nat)
    requires IsTable(k.frames, d)
  {
    forall p: nat :: p < NPAGES ==>
      if newsz <= p * PGSIZE < oldsz then
        || Lookup(r.frames, d, p).Absent?
        || (Lookup(r.frames, d, p) == Lookup(k.frames, d, p) && MissedFrom(k.frames[d].entries, newsz, p))
      else Lookup(r.frames, d, p) == Lookup(k.frames, d, p)
  }

  ghost predicate MissedFrom(dir: seq<Entry>, newsz: nat, p: nat)
    requires |dir| == NENTRIES && p < NPAGES
  {
    exists a: nat :: a <= p && newsz <= a * PGSIZE < newsz + PGSIZE && Skipped(dir, a, p)
  }

  lemma DeallocedShrunk(k: Kern, r: Kern, d: nat, newsz: nat, oldsz: nat)
    requires IsTable(k.frames, d) && oldsz <= USERPAGES * PGSIZE && newsz < oldsz
    requires Pages(oldsz) <= NPAGES && Dealloced(k, r, d, Pages(newsz), Pages(oldsz))
    ensures Shrunk(k, r, d, newsz, oldsz)
  {
    hide Reaches, Skipped;
    var dir := k.frames[d].entries;
    forall p: nat | p < NPAGES
      ensures if newsz <= p * PGSIZE < oldsz
              then Lookup(r.frames, d, p).Absent? || (Lookup(r.frames, d, p) == Lookup(k.frames, d, p) && MissedFrom(dir, newsz, p))
              else Lookup(r.frames, d, p) == Lookup(k.frames, d, p)
    {
      PagesHold(newsz, p);
      PagesHold(oldsz, p);
      if newsz <= p * PGSIZE < oldsz {
        if Lookup(k.frames, d, p).Present? { ReachesIff(dir, Pages(newsz), Pages(oldsz), p); }
        assert newsz <= Pages(newsz) * PGSIZE < newsz + PGSIZE;
      } else if Reaches(dir, Pages(newsz), Pages(oldsz), p) {
        ReachesAbove(dir, Pages(newsz), Pages(oldsz), p);
      }
    }
  }

  // ---------------------------------------------------------------- freeing a space

  /** From k to r every page of space d has become free, and nothing else has changed. */
  ghost predicate SpaceFreed(k: Kern, r: Kern, d: nat) {
    && r.use.Keys == k.use.Keys == k.frames.Keys == r.frames.Keys
    && (forall f :: f in k.use ==> r.use[f] == if OfSpace(k.use[f], f, d) then Free else k.use[f])
    && (forall f :: f in k.use && k.use[f] != Free && !OfSpace(k.use[f], f, d) ==> r.frames[f] == k.frames[f])
  }

  /** Table f is in one of the first n slots of the directory. */
  ghost predicate InDir(dir: seq<Entry>, f: nat, n: nat)
    requires n <= |dir|
  {
    exists i: nat :: i < n && dir[i].Present? && dir[i].frame == f
  }

  lemma InDirStep(dir: seq<Entry>, f: nat, i: nat)
    requires i < |dir|
    ensures InDir(dir, f, i + 1) <==> InDir(dir, f, i) || (dir[i].Present? && dir[i].frame == f)
  {
    if InDir(dir, f, i + 1) { var x: nat :| x < i + 1 && dir[x].Present? && dir[x].frame == f; }
    if InDir(dir, f, i) { var x: nat :| x < i && dir[x].Present? && dir[x].frame == f; }
  }

  lemma InDirIff(m: Kern, d: nat, f: nat)
    requires Inv(m) && d in m.use && m.use[d] == Dir && IsTable(m.frames, d) && f in m.use
    ensures InDir(m.frames[d].entries, f, NENTRIES) <==> m.use[f].Tab? && m.use[f].d == d
  {
    if m.use[f].Tab? && m.use[f].d == d {
      assert FrameOk(m, f);
    }
    if InDir(m.frames[d].entries, f, NENTRIES) {
      var i: nat :| i < NENTRIES && m.frames[d].entries[i].Present? && m.frames[d].entries[i].frame == f;
      DirFacts(m, d, i);
    }
  }

  /** The tables in the first n slots of the directory have become free, and nothing else has changed. */
  ghost predicate Handed(k: Kern, r: Kern, dir: seq<Entry>, n: nat)
    requires n <= |dir|
  {
    && r.use.Keys == k.use.Keys == k.frames.Keys == r.frames.Keys
    && (forall f :: f in k.use ==> r.use[f] == if InDir(dir, f, n) then Free else k.use[f])
    && (forall f :: f in k.use && !InDir(dir, f, n) ==> r.frames[f] == k.frames[f])
  }

  lemma HandedStart(k: Kern, d: nat)
    requires IsTable(k.frames, d) && k.use.Keys == k.frames.Keys
    ensures Handed(k, k, k.frames[d].entries, 0)
  {
  }

  ghost predicate TablesInHand(k: Kern, d: nat)
    requires IsTable(k.frames, d)
  {
    && (forall i: nat :: i < NENTRIES && k.frames[d].entries[i].Present? ==>
          k.frames[d].entries[i].frame in k.use && k.use[k.frames[d].entries[i].frame] == Held && k.frames[d].entries[i].frame != d)
    && (forall i: nat, j: nat :: i < j < NENTRIES && k.frames[d].entries[i].Present? && k.frames[d].entries[j].Present? ==>
          k.frames[d].entries[i].frame != k.frames[d].entries[j].frame)
  }

  /** The next table is in hand and has not been met before. */
  lemma NextInHand(k: Kern, d: nat, i: nat)
    requires IsTable(k.frames, d) && TablesInHand(k, d) && i < NENTRIES
    ensures var e := k.frames[d].entries[i];
            e.Present? ==> e.frame in k.use && k.use[e.frame] == Held && e.frame != d && !InDir(k.frames[d].entries, e.frame, i)
  {
  }

  lemma HandedStep(k: Kern, m: Kern, d: nat, i: nat)
    requires IsTable(k.frames, d) && TablesInHand(k, d) && i < NENTRIES && Handed(k, m, k.frames[d].entries, i)
    requires d in m.frames && m.frames[d] == k.frames[d]
    ensures var e := k.frames[d].entries[i];
            if e.Present? then
              && e.frame in m.use && m.use[e.frame] == Held && e.frame != d
              && Handed(k, Release(m, e.frame), k.frames[d].entries, i + 1)
            else Handed(k, m, k.frames[d].entries, i + 1)
  {
    hide InDir, TablesInHand;
    NextInHand(k, d, i);
    forall f: nat { InDirStep(k.frames[d].entries, f, i); }
  }

  lemma ReleaseOther(k: Kern, v: nat, d: nat)
    requires d in k.frames && v != d
    ensures d in Release(k, v).frames && Release(k, v).frames[d] == k.frames[d]
  {
  }

  /** Once the space is retired its directory lists exactly its tables. */
  lemma RetireTables(m: Kern, d: nat)
    requires Inv(m) && d in m.use && m.use[d] == Dir && IsTable(m.frames, d)
    ensures TablesInHand(Retire(m, d), d)
    ensures d in Retire(m, d).use && Retire(m, d).use[d] == Held && Retire(m, d).frames == m.frames
  {
    hide PoolOk, FrameOk;
    forall i: nat | i < NENTRIES && m.frames[d].entries[i].Present?
      ensures m.frames[d].entries[i].frame in m.use
      ensures m.use[m.frames[d].entries[i].frame] == Tab(d, i) && m.frames[d].entries[i].frame != d
    {
      DirFacts(m, d, i);
    }
  }

  /** The skip of deallocuvm misses no mapped page when it starts at page 0. */
  lemma NoUserLeft(k: Kern, m: Kern, d: nat, f: nat)
    requires Inv(k) && d in k.use && k.use[d] == Dir && IsTable(k.frames, d) && Dealloced(k, m, d, 0, USERPAGES) && f in k.use
    ensures m.use[f] == if k.use[f].User? && k.use[f].d == d then Free else k.use[f]
  {
    if k.use[f].User? && k.use[f].d == d {
      assert FrameOk(k, f);
      var p := k.use[f].i * NENTRIES + k.use[f].j;
      PageIndex(k.use[f].i, k.use[f].j, p);
      ReachesAll(k.frames[d].entries, 0, USERPAGES, p);
    }
    hide PoolOk, FrameOk, Lookup, Reaches;
  }

  lemma SpaceAllFreed(k: Kern, m: Kern, r: Kern, d: nat)
    requires Inv(k) && d in k.use && k.use[d] == Dir && IsTable(k.frames, d) && Dealloced(k, m, d, 0, USERPAGES)
    requires Inv(m) && d in m.use && m.use[d] == Dir && IsTable(m.frames, d)
    requires Handed(Retire(m, d), r, m.frames[d].entries, NENTRIES)
    ensures d in r.use && r.use[d] == Held && SpaceFreed(k, Release(r, d), d)
  {
    hide PoolOk, FrameOk, InDir, Lookup, Reaches;
    InDirIff(m, d, d);
    forall f | f in k.use ensures Release(r, d).use[f] == if OfSpace(k.use[f], f, d) then Free else k.use[f] {
      NoUserLeft(k, m, d, f);
      InDirIff(m, d, f);
    }
    forall f | f in k.use && k.use[f] != Free && !OfSpace(k.use[f], f, d) ensures Release(r, d).frames[f] == k.frames[f] {
      NoUserLeft(k, m, d, f);
      InDirIff(m, d, f);
    }
  }

  // ---------------------------------------------------------------- growing a space

  ghost function Holes(b: nat, hole: bool): set<nat> { if hole && b > 0 then {b - 1} else {} }

  /** Pages a to b of d are now zeroed pages, except holes, and no other page is mapped differently. */
  ghost predicate Grew(before: map<nat, Frame>, after: map<nat, Frame>, d: nat, a: nat, b: nat, holes: set<nat>) {
    forall q: nat :: q < NPAGES ==>
      if a <= q < b then (if q in holes then Lookup(after, d, q).Absent? else ZeroMapped(after, d, q))
      else Lookup(after, d, q) == Lookup(before, d, q)
  }

  lemma GrewStart(frames: map<nat, Frame>, d: nat, a: nat)
    ensures Grew(frames, frames, d, a, a, {})
  {
  }

  /** No page from a on is mapped: what lies behind the size of a process. */
  ghost predicate NothingFrom(frames: map<nat, Frame>, d: nat, a: nat) {
    forall p: nat :: a <= p < USERPAGES ==> Lookup(frames, d, p).Absent?
  }

  lemma GrewNext(before: map<nat, Frame>, after: map<nat, Frame>, d: nat, a: nat, b: nat, holes: set<nat>)
    requires Grew(before, after, d, a, b, holes) && NothingFrom(before, d, a) && a <= b < USERPAGES
    ensures Lookup(after, d, b).Absent?
  {
  }

  lemma GrewStep(before: map<nat, Frame>, m: Kern, r: Kern, d: nat, a: nat, b: nat, holes: set<nat>, lost: nat)
    requires Grew(before, m.frames, d, a, b, holes) && a <= b < USERPAGES
    requires Inv(m) && d in m.use && m.use[d] == Dir && 0 !in m.use
    requires Extends(m, r, d, Page(lost)) && (lost in m.use ==> m.use[lost] == Free)
    requires ZeroMapped(r.frames, d, b) || Lookup(r.frames, d, b).Absent?
    requires forall q: nat :: q < NPAGES && q != b ==> Lookup(r.frames, d, q) == Lookup(m.frames, d, q)
    ensures ZeroMapped(r.frames, d, b) && b !in holes ==> Grew(before, r.frames, d, a, b + 1, holes)
    ensures Lookup(r.frames, d, b).Absent? ==> Grew(before, r.frames, d, a, b + 1, holes + {b})
  {
    hide PoolOk, FrameOk, Lookup;
    forall q: nat | a <= q < b && q !in holes ensures ZeroMapped(r.frames, d, q) {
      assert ZeroMapped(m.frames, d, q);
      LookupUser(m, d, q);
    }
  }

  /** How a call of allocuvm for pages a to b ends.  It succeeds without a hole if and only if there are
      as many free pages as it needs.  It succeeds with a hole, the last page, if and only if that
      page needs a table and one free page is left for it.  Otherwise the space is as it was.  A page is
      lost if and only if it was the last free one and the table for it was missing. */
  ghost predicate AllocOutcome(k: Kern, r: Kern, d: nat, a: nat, b: nat, done: bool, hole: bool, lost: nat)
    requires a <= b <= USERPAGES
  {
    var slots, n := Slots(k.frames, d), |k.pool|;
    && (Need(slots, a, b) <= n <==> done && !hole)
    && (hole <==> a < b && LossAt(slots, n, a, b - 1))
    && (lost != 0 <==> exists c: nat :: c < b && LossAt(slots, n, a, c))
    && (hole ==> done)
    && (done ==> Grew(k.frames, r.frames, d, a, b, Holes(b, hole)))
    && (done && !hole ==> Tally(r, d, slots, n, a, b))
    && (!done ==> SameLookups(k, r, d))
  }

  datatype AllocResult = Placed | NoPages | Unmapped

  /** What a round of allocuvm did for page p. */
  ghost predicate AllocDone(k: Kern, r: Kern, d: nat, p: nat, o: AllocResult, lost: nat)
    requires p < USERPAGES
  {
    && (o == NoPages <==> k.pool == [])
    && (o == Unmapped <==> |k.pool| == 1 && Pdx(p) !in Slots(k.frames, d))
    && (if o == Unmapped then r.pool == [] && lost in r.use && lost in k.use && k.use[lost] == Free && r.use[lost] == Held
        else lost == 0)
    && (if o == Placed then ZeroMapped(r.frames, d, p) else Lookup(r.frames, d, p).Absent?)
    && (o == Placed ==> Slots(r.frames, d) == Slots(k.frames, d) + {Pdx(p)}
                        && |r.pool| + 1 + |Slots(r.frames, d)| == |k.pool| + |Slots(k.frames, d)|)
    && (forall q: nat :: q < NPAGES && q != p ==> Lookup(r.frames, d, q) == Lookup(k.frames, d, q))
  }

  /** Between the rounds of allocuvm. */
  ghost predicate Growing(k: Kern, m: Kern, d: nat, a: nat, b: nat, hole: bool, lost: nat)
    requires a <= b <= USERPAGES
  {
    && Grew(k.frames, m.frames, d, a, b, Holes(b, hole)) && Extends(k, m, d, Page(lost))
    && (lost != 0 <==> hole)
    && (if hole then m.pool == [] && a < b && LossAt(Slots(k.frames, d), |k.pool|, a, b - 1)
                     && lost in k.use && k.use[lost] == Free && m.use[lost] == Held
        else Tally(m, d, Slots(k.frames, d), |k.pool|, a, b))
  }

  lemma GrowingStart(k: Kern, d: nat, a: nat)
    requires a <= USERPAGES && k.use.Keys == k.frames.Keys
    ensures Growing(k, k, d, a, a, false, 0)
  {
    hide Lookup;
    ExtendsStart(k, d);
    GrewStart(k.frames, d, a);
    TallyStart(k, d, a);
  }

  lemma GrowingNext(k: Kern, m: Kern, d: nat, a: nat, b: nat, hole: bool, lost: nat)
    requires a <= b < USERPAGES && Growing(k, m, d, a, b, hole, lost) && NothingFrom(k.frames, d, a)
    ensures Lookup(m.frames, d, b).Absent?
  {
    hide Lookup, Extends, Tally, LossAt;
    GrewNext(k.frames, m.frames, d, a, b, Holes(b, hole));
  }

  lemma GrowingStep(k: Kern, m: Kern, r: Kern, d: nat, a: nat, b: nat, hole: bool, lost: nat, o: AllocResult, page: nat)
    requires a <= b < USERPAGES && Growing(k, m, d, a, b, hole, lost) && Inv(k)
    requires Inv(m) && d in m.use && m.use[d] == Dir && Extends(m, r, d, Page(page)) && o != NoPages
    requires AllocDone(m, r, d, b, o, page)
    ensures Growing(k, r, d, a, b + 1, o == Unmapped, page)
  {
    hide PoolOk, FrameOk, Lookup, Extends, Slots, Need, Grew, ZeroMapped;
    SameKeys(k);
    SameKeys(m);
    GrewStep(k.frames, m, r, d, a, b, {}, page);
    ExtendsTrans(k, m, r, d, page);
    if o == Placed {
      TallyStep(m, r, d, Slots(k.frames, d), |k.pool|, a, b);
    } else {
      WasFree(k, m, d, page);
    }
  }

  /** Out of memory at page b: what that says about the pages up to c. */
  lemma NoNeed(k: Kern, m: Kern, d: nat, a: nat, b: nat, c: nat, hole: bool, lost: nat)
    requires a <= b < c <= USERPAGES && Growing(k, m, d, a, b, hole, lost) && m.pool == []
    ensures |k.pool| < Need(Slots(k.frames, d), a, c) && !LossAt(Slots(k.frames, d), |k.pool|, a, c - 1)
    ensures hole <==> exists x: nat :: x < c && LossAt(Slots(k.frames, d), |k.pool|, a, x)
  {
    hide Extends, Slots, SlotsOf, Need, NoTable, Grew, Lookup;
    var slots, n := Slots(k.frames, d), |k.pool|;
    if hole {
      LossDecides(slots, n, a, b - 1, c);
      LossDecides(slots, n, a, b - 1, c - 1);
    } else {
      NeedGrows(slots, a, b, c);
      forall x: nat | x < c ensures !LossAt(slots, n, a, x) { if LossAt(slots, n, a, x) { LossDecides(slots, n, a, x, b); } }
    }
  }

  /** All pages up to b were mapped, or all but the last. */
  lemma GrowingDone(k: Kern, m: Kern, d: nat, a: nat, b: nat, hole: bool, lost: nat)
    requires a <= b <= USERPAGES && Growing(k, m, d, a, b, hole, lost)
    ensures AllocOutcome(k, m, d, a, b, true, hole, lost) && Extends(k, m, d, Page(lost))
    ensures lost != 0 ==> lost in k.use && k.use[lost] == Free && lost in m.use && m.use[lost] == Held
  {
    hide Extends, Slots, SlotsOf, Need, NoTable, Grew, Lookup;
    var slots, n := Slots(k.frames, d), |k.pool|;
    SameUses(k, m, d, Page(lost));
    if hole {
      LossDecides(slots, n, a, b - 1, b);
    } else {
      forall x: nat | x < b ensures !LossAt(slots, n, a, x) { if LossAt(slots, n, a, x) { LossDecides(slots, n, a, x, b); } }
    }
  }

  lemma UngrownLookups(k: Kern, m: Kern, r: Kern, d: nat, a: nat, b: nat, n: nat, hole: bool)
    requires NothingFrom(k.frames, d, a) && a <= b < n <= USERPAGES && Grew(k.frames, m.frames, d, a, b, Holes(b, hole))
    requires IsTable(m.frames, d) && Dealloced(m, r, d, a, n)
    ensures SameLookups(k, r, d)
  {
    hide Lookup, Reaches;
    var dir := m.frames[d].entries;
    forall q: nat | q < NPAGES ensures Lookup(r.frames, d, q) == Lookup(k.frames, d, q) {
      if Reaches(dir, a, n, q) {
        ReachesAbove(dir, a, n, q);
      } else if a <= q < b && q !in Holes(b, hole) {
        assert ZeroMapped(m.frames, d, q) && ZeroMapped(m.frames, d, a);
        PresentDir(m.frames, d, q);
        PresentDir(m.frames, d, a);
        ReachesAll(dir, a, n, q);
      }
    }
  }

  lemma UngrownUse(k: Kern, m: Kern, r: Kern, d: nat, a: nat, n: nat, lost: nat, f: nat)
    requires Inv(k) && NothingFrom(k.frames, d, a) && n <= USERPAGES && Extends(k, m, d, Page(lost)) && 0 !in k.use
    requires IsTable(m.frames, d) && Dealloced(m, r, d, a, n) && f in k.use && k.use[f] != Free && f != lost
    ensures r.use[f] == k.use[f] && (!OfTables(k.use[f], f, d) ==> r.frames[f] == k.frames[f])
  {
    hide PoolOk, FrameOk, Lookup, Reaches;
    var dir := m.frames[d].entries;
    if UserReached(k.use[f], d, dir, a, n) {
      UserLookup(k, f);
      ReachesAbove(dir, a, n, k.use[f].i * NENTRIES + k.use[f].j);
    }
  }

  /** When memory runs out, deallocuvm takes back everything that was mapped, and nothing else. */
  lemma Ungrown(k: Kern, m: Kern, r: Kern, d: nat, a: nat, b: nat, n: nat, hole: bool, lost: nat)
    requires Inv(k) && NothingFrom(k.frames, d, a) && a <= b < n <= USERPAGES
    requires Growing(k, m, d, a, b, hole, lost)
    requires IsTable(m.frames, d) && Dealloced(m, r, d, a, n)
    ensures Extends(k, r, d, Page(lost)) && SameLookups(k, r, d) && (lost != 0 ==> lost in r.use && r.use[lost] == m.use[lost])
  {
    hide PoolOk, FrameOk, Lookup, Reaches, NothingFrom, Grew, SameLookups, Need, Slots;
    SameKeys(k);
    UngrownLookups(k, m, r, d, a, b, n, hole);
    forall f | f in k.use && k.use[f] != Free
      ensures r.use[f] == k.use[f] && (!OfTables(k.use[f], f, d) ==> r.frames[f] == k.frames[f])
    {
      UngrownUse(k, m, r, d, a, n, lost, f);
    }
  }

  lemma GrowingFails(k: Kern, m: Kern, r: Kern, d: nat, a: nat, b: nat, c: nat, hole: bool, lost: nat, page: nat)
    requires Inv(k) && NothingFrom(k.frames, d, a) && a <= b < c <= USERPAGES && Growing(k, m, d, a, b, hole, lost)
    requires AllocDone(m, m, d, b, NoPages, page) && IsTable(m.frames, d) && Dealloced(m, r, d, a, c)
    ensures AllocOutcome(k, r, d, a, c, false, false, lost) && Extends(k, r, d, Page(lost))
    ensures lost != 0 ==> lost in k.use && k.use[lost] == Free && lost in r.use && r.use[lost] == Held
  {
    hide Inv, NothingFrom, Lookup, Dealloced, Extends, Slots, SlotsOf, Need, LossAt, Tally, Grew, SameLookups, ZeroMapped;
    Ungrown(k, m, r, d, a, b, c, hole, lost);
    NoNeed(k, m, d, a, b, c, hole, lost);
  }

  /** No page from sz bytes on is mapped: what lies behind the size of a process. */
  ghost predicate NothingAbove(frames: map<nat, Frame>, d: nat, sz: nat) {
    forall p: nat :: p < USERPAGES && p * PGSIZE >= sz ==> Lookup(frames, d, p).Absent?
  }

  lemma AboveIsFrom(frames: map<nat, Frame>, d: nat, sz: nat)
    ensures NothingAbove(frames, d, sz) <==> NothingFrom(frames, d, Pages(sz))
  {
    hide Lookup, Pages;
    forall p: nat | p < USERPAGES ensures p >= Pages(sz) <==> p * PGSIZE >= sz { PagesHold(sz, p); }
  }

  /** The space has grown from oldsz to newsz bytes: every page that holds a byte of those and none before is a
      zeroed page, except, with a hole, the last; no other page is mapped differently. */
  ghost predicate GrewBytes(before: map<nat, Frame>, after: map<nat, Frame>, d: nat, oldsz: nat, newsz: nat, hole: bool) {
    forall p: nat :: p < NPAGES ==>
      if oldsz <= p * PGSIZE < newsz then
        if hole && (p + 1) * PGSIZE >= newsz then Lookup(after, d, p).Absent? else ZeroMapped(after, d, p)
      else Lookup(after, d, p) == Lookup(before, d, p)
  }

  lemma OutcomeBytes(k: Kern, r: Kern, d: nat, oldsz: nat, newsz: nat, done: bool, hole: bool, lost: nat)
    requires oldsz <= newsz < USERPAGES * PGSIZE && Pages(oldsz) <= Pages(newsz) <= USERPAGES
    requires AllocOutcome(k, r, d, Pages(oldsz), Pages(newsz), done, hole, lost)
    ensures done ==> GrewBytes(k.frames, r.frames, d, oldsz, newsz, hole)
  {
    hide Lookup, ZeroMapped, Pages, Need, LossAt, Tally, SameLookups;
    if done {
      forall p: nat | p < NPAGES
        ensures p >= Pages(oldsz) <==> p * PGSIZE >= oldsz
        ensures p < Pages(newsz) <==> p * PGSIZE < newsz
        ensures p in Holes(Pages(newsz), hole) <==> hole && p * PGSIZE < newsz <= (p + 1) * PGSIZE
      {
        PagesHold(oldsz, p);
        PagesHold(newsz, p);
        PagesHold(newsz, p + 1);
      }
    }
  }

  lemma NothingMapped(frames: map<nat, Frame>, d: nat)
    requires KernelMapped(frames, d, [], 0)
    ensures NothingAbove(frames, d, 0)
  {
  }

  /** The first page of an empty space, with one free page left. */
  lemma LastPageHole(k: Kern, r: Kern, d: nat, done: bool, hole: bool, lost: nat)
    requires |k.pool| == 1 && Slots(k.frames, d) == {} && AllocOutcome(k, r, d, 0, 1, done, hole, lost)
    ensures done && Lookup(r.frames, d, 0).Absent? && lost != 0
  {
    hide Lookup, Slots, SameLookups;
    TallyStart(k, d, 0);
    assert LossAt(Slots(k.frames, d), |k.pool|, 0, 0);
    assert 0 in Holes(1, true);
  }

  // ---------------------------------------------------------------- copying a space

  datatype CopyResult = Made | OutOfMemory | NoPage | Clashed

  /** Page p of e has the flags and the bytes of page p of d. */
  ghost predicate PageCopied(source: map<nat, Frame>, d: nat, frames: map<nat, Frame>, e: nat, p: nat)
    requires p < NPAGES
  {
    var from, to := Lookup(source, d, p), Lookup(frames, e, p);
    && from.Present? && to.Present? && to.flags == from.flags
    && from.frame in source && to.frame in frames && frames[to.frame] == source[from.frame]
  }

  /** What has been copied stays copied while more is. */
  lemma CopyStays(k: Kern, m: Kern, r: Kern, d: nat, e: nat, p: nat)
    requires Inv(m) && Extends(m, r, e, {}) && 0 !in m.use && e in m.use && m.use[e] == Dir && p < USERPAGES
    requires PageCopied(k.frames, d, m.frames, e, p) && Lookup(r.frames, e, p) == Lookup(m.frames, e, p)
    ensures PageCopied(k.frames, d, r.frames, e, p)
  {
    hide PoolOk, FrameOk, Lookup;
    LookupUser(m, e, p);
  }

  /** A page copied from the space as it is now is copied from the space as it was. */
  lemma CopyFromKept(k: Kern, m: Kern, r: Kern, d: nat, e: nat, p: nat)
    requires Inv(k) && Kept(k, m) && d in k.use && k.use[d] == Dir && p < USERPAGES
    requires PageCopied(m.frames, d, r.frames, e, p) && Lookup(m.frames, d, p) == Lookup(k.frames, d, p)
    ensures PageCopied(k.frames, d, r.frames, e, p)
  {
    hide PoolOk, FrameOk, Lookup;
    LookupUser(k, d, p);
  }

  /** What a round of copyuvm did for page p of d: lost is a page it has taken for nothing. */
  ghost predicate CopyDone(k: Kern, r: Kern, d: nat, e: nat, p: nat, o: CopyResult, lost: nat)
    requires p < USERPAGES
  {
    && Extends(k, r, e, Page(lost)) && o != Clashed
    && (o == NoPage <==> Lookup(k.frames, d, p).Absent?)
    && (o == OutOfMemory <==> Lookup(k.frames, d, p).Present? && (k.pool == [] || lost != 0))
    && (lost != 0 <==> Lookup(k.frames, d, p).Present? && |k.pool| == 1 && Pdx(p) !in Slots(k.frames, e))
    && (lost != 0 ==> lost in r.use && lost in k.use && k.use[lost] == Free && r.use[lost] == Held)
    && (o == Made ==>
          && PageCopied(k.frames, d, r.frames, e, p)
          && (forall q: nat :: q < NPAGES && q != p ==> Lookup(r.frames, e, q) == Lookup(k.frames, e, q))
          && Slots(r.frames, e) == Slots(k.frames, e) + {Pdx(p)}
          && |r.pool| + 1 + |Slots(r.frames, e)| == |k.pool| + |Slots(k.frames, e)|)
  }

  lemma CopyNone(k: Kern, d: nat, e: nat, p: nat)
    requires k.use.Keys == k.frames.Keys && p < USERPAGES && (Lookup(k.frames, d, p).Absent? || k.pool == [])
    ensures CopyDone(k, k, d, e, p, if Lookup(k.frames, d, p).Absent? then NoPage else OutOfMemory, 0)
  {
    hide Lookup, Slots;
    ExtendsStart(k, e);
  }

  lemma CopyLost(k: Kern, r: Kern, d: nat, e: nat, p: nat, mem: nat)
    requires p < USERPAGES && Lookup(k.frames, d, p).Present? && Extends(k, r, e, Page(mem)) && mem != 0
    requires mem in r.use && mem in k.use && k.use[mem] == Free && r.use[mem] == Held
    requires |k.pool| == 1 && Pdx(p) !in Slots(k.frames, e)
    ensures CopyDone(k, r, d, e, p, OutOfMemory, mem)
  {
    hide Lookup, Slots, Extends;
  }

  lemma CopyMade(k: Kern, m: Kern, r: Kern, d: nat, e: nat, p: nat, mem: nat)
    requires p < USERPAGES && 0 !in k.use && Extends(k, m, e, Page(mem)) && Extends(m, r, e, Page(mem)) && mem != 0
    requires mem in k.use && k.use[mem] == Free && mem in m.use && m.use[mem] == Held
    requires mem in r.use && r.use[mem] == UserAt(e, p)
    requires var from := Lookup(k.frames, d, p);
             && from.Present? && from.frame in k.frames && mem in m.frames && m.frames[mem] == k.frames[from.frame]
             && Lookup(r.frames, e, p) == Present(mem, from.flags)
    requires forall q: nat :: q < NPAGES ==> Lookup(m.frames, e, q) == Lookup(k.frames, e, q)
    requires forall q: nat :: q < NPAGES && q != p ==> Lookup(r.frames, e, q) == Lookup(m.frames, e, q)
    requires |k.pool| == |m.pool| + 1 && Slots(m.frames, e) == Slots(k.frames, e) && Charged(m, r, e, {Pdx(p)})
    ensures CopyDone(k, r, d, e, p, Made, 0)
  {
    hide Lookup, Pdx, Ptx, Extends, Slots;
    ExtendsTrans(k, m, r, e, mem);
    CopyUnchanged(m, r, e, mem);
    var s := Slots(k.frames, e);
    assert Pdx(p) !in s ==> |s + {Pdx(p)}| == |s| + 1;
  }

  /** e is a new space: a copy of pages 0 to n of d, no other user page, and the kernel's half. */
  ghost predicate Copying(k: Kern, r: Kern, d: nat, e: nat, n: nat, kmap: seq<Kmap>)
    requires n <= USERPAGES
  {
    && NewSpace(k, r, e) && KernelHalf(r.frames, e, kmap)
    && (forall p: nat :: p < n ==> PageCopied(k.frames, d, r.frames, e, p))
    && (forall p: nat :: n <= p < USERPAGES ==> Lookup(r.frames, e, p).Absent?)
  }

  /** Space e has the pages of d that hold a byte below sz, with their bytes and flags, and no other user
      page. */
  ghost predicate BytesCopied(source: map<nat, Frame>, d: nat, frames: map<nat, Frame>, e: nat, sz: nat) {
    forall p: nat :: p < USERPAGES ==>
      if p * PGSIZE < sz then PageCopied(source, d, frames, e, p) else Lookup(frames, e, p).Absent?
  }

  lemma CopyingBytes(k: Kern, r: Kern, d: nat, e: nat, sz: nat, kmap: seq<Kmap>)
    requires Pages(sz) <= USERPAGES && Copying(k, r, d, e, Pages(sz), kmap)
    ensures BytesCopied(k.frames, d, r.frames, e, sz)
  {
    hide Lookup, PageCopied, Pages, NewSpace, KernelHalf;
    forall p: nat | p < USERPAGES ensures p < Pages(sz) <==> p * PGSIZE < sz { PagesHold(sz, p); }
  }

  lemma CopyingStart(k: Kern, m: Kern, d: nat, e: nat, kmap: seq<Kmap>)
    requires NewSpace(k, m, e) && KernelMapped(m.frames, e, kmap, |kmap|) && forall i :: 0 <= i < |kmap| ==> KmapOk(kmap[i])
    ensures Copying(k, m, d, e, 0, kmap) && e in m.use && m.use[e] == Dir
  {
    hide Lookup, Extends;
    KernelOnly(m.frames, e, kmap);
  }

  /** The source is as it was. */
  lemma CopyingSource(k: Kern, m: Kern, d: nat, e: nat, n: nat, kmap: seq<Kmap>)
    requires Inv(k) && d in k.use && k.use[d] == Dir && n <= USERPAGES && Copying(k, m, d, e, n, kmap)
    ensures Kept(k, m) && d in m.use && m.use[d] == Dir && (n < USERPAGES ==> Lookup(m.frames, e, n).Absent?)
    ensures forall p: nat :: p < NPAGES ==> Lookup(m.frames, d, p) == Lookup(k.frames, d, p)
  {
    hide Lookup, Extends, PoolOk, FrameOk, PageCopied, KernelHalf, Kept;
    NewSpaceKeeps(k, m, d, e);
  }

  lemma CopyingStep(k: Kern, m: Kern, r: Kern, d: nat, e: nat, n: nat, kmap: seq<Kmap>, o: CopyResult, lost: nat)
    requires Inv(k) && Inv(m) && d in k.use && k.use[d] == Dir && n < USERPAGES && Copying(k, m, d, e, n, kmap)
    requires CopyDone(m, r, d, e, n, o, lost) && e in r.use && r.use[e] == Dir
    ensures o == Made ==> Copying(k, r, d, e, n + 1, kmap)
    ensures o == NoPage ==> Lookup(k.frames, d, n).Absent?
    ensures o != Clashed && Kept(k, r) && Extends(k, r, e, Page(lost)) && e in k.use && k.use[e] == Free
    ensures lost != 0 ==> lost in k.use && k.use[lost] == Free && lost in r.use && r.use[lost] == Held
  {
    hide Lookup, Extends, PoolOk, FrameOk, PageCopied, KernelHalf, Kept, Slots, Pdx;
    SameKeys(k);
    SameKeys(m);
    CopyingSource(k, m, d, e, n, kmap);
    ExtendsTrans(k, m, r, e, lost);
    if lost in m.use && lost != 0 { WasFree(k, m, e, lost); }
    ExtendsKept(k, r, e, lost);
    if o == Made {
      forall p: nat | p < n ensures PageCopied(k.frames, d, r.frames, e, p) { CopyStays(k, m, r, d, e, p); }
      CopyFromKept(k, m, r, d, e, n);
      KernelHalfKept(m.frames, r.frames, e, kmap);
    }
  }

  /** Every page is used as before, except page lost, which was free and now belongs to nobody. */
  ghost predicate Loses(k: Kern, r: Kern, lost: nat) {
    && (lost != 0 ==> lost in k.use && k.use[lost] == Free)
    && r.use == if lost == 0 then k.use else k.use[lost := Held]
  }

  lemma UndoUse(k: Kern, m: Kern, r: Kern, e: nat, x: nat, f: nat)
    requires Extends(k, m, e, Page(x)) && SpaceFreed(m, r, e) && f in k.use && f != x
    requires k.use[f] != Free ==> !OfSpace(k.use[f], f, e)
    ensures r.use[f] == k.use[f]
  {
  }

  /** Freeing a space just made gives back all of it, but not page x. */
  lemma UndoKeeps(k: Kern, m: Kern, r: Kern, e: nat, x: nat)
    requires Extends(k, m, e, Page(x)) && Kept(k, m) && SpaceFreed(m, r, e) && Inv(k) && e in k.use && k.use[e] == Free
    requires x != 0 ==> x in k.use && k.use[x] == Free && x in m.use && m.use[x] == Held
    ensures Kept(k, r) && Loses(k, r, x)
  {
    hide PoolOk;
    SameKeys(k);
    forall f | f in k.use && k.use[f] != Free ensures !OfSpace(k.use[f], f, e) { assert FrameOk(k, f); }
    hide FrameOk;
    forall f | f in k.use && f != x ensures r.use[f] == k.use[f] { UndoUse(k, m, r, e, x, f); }
    hide Extends;
  }

  /** Pages 0 to n of d are mapped. */
  ghost predicate AllMapped(frames: map<nat, Frame>, d: nat, n: nat) {
    forall q: nat :: q < n && q < NPAGES ==> Lookup(frames, d, q).Present?
  }

  lemma NoneMapped(frames: map<nat, Frame>, d: nat)
    ensures AllMapped(frames, d, 0)
  {
  }

  /** The loop of copyuvm gets to page b, which is not mapped. */
  ghost predicate GapAt(frames: map<nat, Frame>, d: nat, slots: set<nat>, n: nat, b: nat) {
    b < NPAGES && AllMapped(frames, d, b) && Lookup(frames, d, b).Absent? && Need(slots, 0, b) <= n
  }

  /** It gets to page b, which is mapped, and no page is left. */
  ghost predicate DryAt(frames: map<nat, Frame>, d: nat, slots: set<nat>, n: nat, b: nat) {
    AllMapped(frames, d, b + 1) && n == Need(slots, 0, b)
  }

  /** It gets to page b, which is mapped, and one page is left but no table. */
  ghost predicate CopyLossAt(frames: map<nat, Frame>, d: nat, slots: set<nat>, n: nat, b: nat) {
    AllMapped(frames, d, b + 1) && LossAt(slots, n, 0, b)
  }

  /** How copyuvm ends for c pages of d, into a space with these slots and n free pages to take: exactly when
      it succeeds, when it meets a page that is not mapped, and when it runs out with or without a page
      lost. */
  ghost predicate CopyOutcome(frames: map<nat, Frame>, d: nat, c: nat, slots: set<nat>, n: nat, r: CopyResult, lost: nat) {
    && (r == Made <==> AllMapped(frames, d, c) && Need(slots, 0, c) <= n)
    && (r == NoPage <==> exists b: nat :: b < c && GapAt(frames, d, slots, n, b))
    && (r == OutOfMemory && lost == 0 <==> exists b: nat :: b < c && DryAt(frames, d, slots, n, b))
    && (r == OutOfMemory && lost != 0 <==> exists b: nat :: b < c && CopyLossAt(frames, d, slots, n, b))
    && r != Clashed
  }

  /** Page b is where the loop stopped. */
  ghost predicate StoppedAt(frames: map<nat, Frame>, d: nat, c: nat, slots: set<nat>, n: nat, r: CopyResult, lost: nat, b: nat)
    requires b < NPAGES
  {
    && AllMapped(frames, d, b) && Need(slots, 0, b) <= n
    && match r
       case Made => b == c
       case NoPage => b < c && Lookup(frames, d, b).Absent?
       case OutOfMemory =>
         b < c && Lookup(frames, d, b).Present? && if lost == 0 then n == Need(slots, 0, b) else LossAt(slots, n, 0, b)
       case Clashed => false
  }

  lemma StopsShort(frames: map<nat, Frame>, d: nat, c: nat, slots: set<nat>, n: nat, r: CopyResult, lost: nat, b: nat)
    requires b < c <= USERPAGES && StoppedAt(frames, d, c, slots, n, r, lost, b)
    ensures !(AllMapped(frames, d, c) && Need(slots, 0, c) <= n)
  {
    hide Lookup, Need, NoTable;
    NeedGrows(slots, 0, b, c);
    if LossAt(slots, n, 0, b) { LossDecides(slots, n, 0, b, c); }
  }

  lemma StopsOnce(frames: map<nat, Frame>, d: nat, c: nat, slots: set<nat>, n: nat, r: CopyResult, lost: nat, b: nat, x: nat)
    requires x < c <= USERPAGES && b < NPAGES && StoppedAt(frames, d, c, slots, n, r, lost, b)
    requires GapAt(frames, d, slots, n, x) || DryAt(frames, d, slots, n, x) || CopyLossAt(frames, d, slots, n, x)
    ensures x == b
  {
    hide Lookup, Need, NoTable;
    if x < b {
      NeedGrows(slots, 0, x, b);
      if LossAt(slots, n, 0, x) { LossDecides(slots, n, 0, x, b); }
    } else {
      NeedGrows(slots, 0, b, x);
      if LossAt(slots, n, 0, b) { LossDecides(slots, n, 0, b, x); }
    }
  }

  /** The loop stops at one page only, so how it stopped there says how it ends. */
  lemma StoppedOutcome(frames: map<nat, Frame>, d: nat, c: nat, slots: set<nat>, n: nat, r: CopyResult, lost: nat, b: nat)
    requires c <= USERPAGES && b < NPAGES && StoppedAt(frames, d, c, slots, n, r, lost, b)
    ensures CopyOutcome(frames, d, c, slots, n, r, lost)
  {
    hide Lookup, Need, NoTable;
    if b < c { StopsShort(frames, d, c, slots, n, r, lost, b); }
    forall x: nat | x < c && (GapAt(frames, d, slots, n, x) || DryAt(frames, d, slots, n, x) || CopyLossAt(frames, d, slots, n, x))
      ensures x == b
    {
      StopsOnce(frames, d, c, slots, n, r, lost, b, x);
    }
    if r == NoPage {
      assert GapAt(frames, d, slots, n, b);
    } else if r == OutOfMemory {
      assert if lost == 0 then DryAt(frames, d, slots, n, b) else CopyLossAt(frames, d, slots, n, b);
    }
  }

  /** The round at page n says where the loop stops. */
  lemma CopyTally(k: Kern, m: Kern, r: Kern, d: nat, e: nat, slots: set<nat>, free: nat, n: nat, c: nat, o: CopyResult, lost: nat)
    requires n < c <= USERPAGES && CopyDone(m, r, d, e, n, o, lost) && Tally(m, e, slots, free, 0, n)
    requires Lookup(m.frames, d, n) == Lookup(k.frames, d, n) && AllMapped(k.frames, d, n)
    ensures o == Made ==> Tally(r, e, slots, free, 0, n + 1) && AllMapped(k.frames, d, n + 1)
    ensures o != Made ==> CopyOutcome(k.frames, d, c, slots, free, o, lost)
  {
    hide Lookup, Extends, PageCopied, Slots, SlotsOf, Need, CopyOutcome, Pdx;
    if o == Made {
      TallyStep(m, r, e, slots, free, 0, n);
    } else {
      StoppedOutcome(k.frames, d, c, slots, free, o, lost, n);
    }
  }

  lemma CopiedAll(k: Kern, m: Kern, d: nat, e: nat, slots: set<nat>, free: nat, n: nat)
    requires n <= USERPAGES && Tally(m, e, slots, free, 0, n) && AllMapped(k.frames, d, n)
    ensures CopyOutcome(k.frames, d, n, slots, free, Made, 0)
  {
    hide Lookup, Slots, SlotsOf, CopyOutcome;
    StoppedOutcome(k.frames, d, n, slots, free, Made, 0, n);
  }

  /** The first page of an empty space, with four free pages left: a table and a page. */
  lemma FirstPage(k: Kern, r: Kern, d: nat, done: bool, hole: bool, lost: nat)
    requires |k.pool| == 4 && Slots(k.frames, d) == {} && AllocOutcome(k, r, d, 0, 1, done, hole, lost)
    ensures AllMapped(r.frames, d, 1) && |r.pool| == 2
  {
    hide Slots, SameLookups, Lookup;
    TallyStart(k, d, 0);
    NeedStep(Slots(k.frames, d), 0, 0);
    assert ZeroMapped(r.frames, d, 0);
  }

  /** A copy of one page, with one free page left for it. */
  lemma LastPageLost(frames: map<nat, Frame>, d: nat, r: CopyResult, lost: nat)
    requires AllMapped(frames, d, 1) && CopyOutcome(frames, d, 1, {}, 1, r, lost)
    ensures r == OutOfMemory && lost != 0
  {
    hide AllMapped;
    assert Need({}, 0, 0) == 0 by { assert SlotsOf(0, 0) - {} == {}; }
    assert CopyLossAt(frames, d, {}, 1, 0);
  }
}
