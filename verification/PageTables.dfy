/** Physical pages and two-level page tables, on values: what kalloc.c and vm.c keep in memory. */
module PageTables {
  import opened Counting
  import opened Machine

  const NENTRIES: nat := 1024
  const PGSIZE: nat := 4096
  /** Directory slots below this one are user memory. */
  const USERDIRS: nat := 512

  /** A directory or table entry; flags are those besides PTE_P. */
  datatype Entry = Absent | Present(frame: nat, flags: nat)

  /** What a physical page holds: a link of the free list, data, or 1024 entries. */
  datatype Frame = Run(next: nat) | Data(bytes: seq<Byte>) | Table(entries: seq<Entry>)

  /** What a page is for: on the free list, handed out by kalloc, a directory, the table in slot i of
      directory d, or the user page in slot j of that table. */
  datatype Use = Free | Held | Dir | Tab(d: nat, i: nat) | User(d: nat, i: nat, j: nat)

  datatype Kern = Kern(frames: map<nat, Frame>, freelist: nat, pool: seq<nat>, use: map<nat, Use>)

  function Empty(): seq<Entry> { seq(NENTRIES, _ => Absent) }

  // ---------------------------------------------------------------- the free list

  function Head(pool: seq<nat>): nat { if pool == [] then 0 else pool[0] }

  ghost predicate PoolOk(k: Kern) {
    && 0 !in k.frames && k.use.Keys == k.frames.Keys && k.freelist == Head(k.pool) && Distinct(k.pool)
    && (forall i :: 0 <= i < |k.pool| ==> k.pool[i] in k.frames && k.frames[k.pool[i]] == Run(Head(k.pool[i + 1..])))
    && (forall f :: f in k.use ==> (k.use[f] == Free <==> f in k.pool))
  }

  /** The first free page is handed out. */
  function Alloc(k: Kern): Kern
    requires k.pool != [] && k.pool[0] in k.frames && k.frames[k.pool[0]].Run?
  {
    k.(freelist := k.frames[k.pool[0]].next, pool := k.pool[1..], use := k.use[k.pool[0] := Held])
  }

  /** Page f goes back on the list. */
  function Release(k: Kern, f: nat): Kern {
    k.(frames := k.frames[f := Run(k.freelist)], freelist := f, pool := [f] + k.pool, use := k.use[f := Free])
  }

  lemma AllocPool(k: Kern)
    requires PoolOk(k) && k.pool != []
    ensures k.pool[0] in k.frames && k.frames[k.pool[0]].Run? && PoolOk(Alloc(k)) && k.use[k.pool[0]] == Free
  {
    var r := Alloc(k);
    forall i | 0 <= i < |r.pool| ensures r.pool[i] in r.frames && r.frames[r.pool[i]] == Run(Head(r.pool[i + 1..])) {
      assert r.pool[i + 1..] == k.pool[i + 2..] && r.pool[i] == k.pool[i + 1];
    }
    forall f | f in r.use ensures r.use[f] == Free <==> f in r.pool {
      assert k.pool == [k.pool[0]] + r.pool;
    }
  }

  lemma ReleasePool(k: Kern, f: nat)
    requires PoolOk(k) && f in k.use && k.use[f] != Free
    ensures PoolOk(Release(k, f))
  {
    var r := Release(k, f);
    forall i | 0 <= i < |r.pool| ensures r.pool[i] in r.frames && r.frames[r.pool[i]] == Run(Head(r.pool[i + 1..])) {
      if i == 0 {
        assert r.pool[1..] == k.pool;
      } else {
        assert r.pool[i] == k.pool[i - 1] && r.pool[i + 1..] == k.pool[i..];
        assert k.pool[i - 1] in k.pool;
      }
    }
  }

  // ---------------------------------------------------------------- page tables

  ghost predicate IsTable(frames: map<nat, Frame>, f: nat) {
    f in frames && frames[f].Table? && |frames[f].entries| == NENTRIES
  }

  /** Page g is what entry e of directory f, in slot i, says. */
  ghost predicate DirEntry(use: map<nat, Use>, f: nat, i: nat, e: Entry) {
    e.Present? ==> e.frame in use && use[e.frame] == Tab(f, i)
  }

  ghost predicate TabEntry(use: map<nat, Use>, d: nat, i: nat, j: nat, e: Entry) {
    e.Present? ==> e.frame in use && use[e.frame] == User(d, i, j)
  }

  /** Directory d has table t in slot i. */
  ghost predicate HasTable(frames: map<nat, Frame>, d: nat, i: nat, t: nat) {
    IsTable(frames, d) && i < NENTRIES && frames[d].entries[i].Present? && frames[d].entries[i].frame == t
  }

  /** Page f is used as recorded, and what it refers to is recorded as used by it. */
  ghost predicate FrameOk(k: Kern, f: nat)
    requires f in k.use
  {
    match k.use[f]
    case Free => true
    case Held => true
    case Dir => IsTable(k.frames, f) && forall i: nat :: i < NENTRIES ==> DirEntry(k.use, f, i, k.frames[f].entries[i])
    case Tab(d, i) =>
      && d in k.use && k.use[d] == Dir && HasTable(k.frames, d, i, f) && IsTable(k.frames, f)
      && (i < USERDIRS ==> forall j: nat :: j < NENTRIES ==> TabEntry(k.use, d, i, j, k.frames[f].entries[j]))
    case User(d, i, j) =>
      && f in k.frames && k.frames[f].Data? && i < USERDIRS && j < NENTRIES && IsTable(k.frames, d) && i < NENTRIES
      && k.frames[d].entries[i].Present?
      && HasTable(k.frames, k.frames[d].entries[i].frame, j, f) && d in k.use && k.use[d] == Dir
  }

  ghost predicate Inv(k: Kern) {
    PoolOk(k) && forall f :: f in k.use ==> FrameOk(k, f)
  }

  // ---------------------------------------------------------------- placing and removing pages

  function SetEntry(frames: map<nat, Frame>, t: nat, j: nat, e: Entry): map<nat, Frame>
    requires t in frames && frames[t].Table? && j < |frames[t].entries|
  {
    frames[t := Table(frames[t].entries[j := e])]
  }

  /** Empty table t, just allocated, goes into slot i of directory d. */
  function AddTable(k: Kern, d: nat, i: nat, t: nat, flags: nat): Kern
    requires d in k.frames && k.frames[d].Table? && i < |k.frames[d].entries|
  {
    k.(frames := SetEntry(k.frames, d, i, Present(t, flags)), use := k.use[t := Tab(d, i)])
  }

  lemma AddTableFrame(k: Kern, d: nat, i: nat, t: nat, flags: nat, f: nat)
    requires Inv(k) && d in k.use && k.use[d] == Dir && i < NENTRIES && IsTable(k.frames, d) && k.frames[d].entries[i].Absent?
    requires t in k.use && k.use[t] == Held && t in k.frames && k.frames[t] == Table(Empty()) && f in k.use
    ensures FrameOk(AddTable(k, d, i, t, flags), f)
  {
    assert FrameOk(k, f);
    hide PoolOk;
  }

  lemma AddTableKeeps(k: Kern, d: nat, i: nat, t: nat, flags: nat)
    requires Inv(k) && d in k.use && k.use[d] == Dir && i < NENTRIES && IsTable(k.frames, d) && k.frames[d].entries[i].Absent?
    requires t in k.use && k.use[t] == Held && t in k.frames && k.frames[t] == Table(Empty())
    ensures Inv(AddTable(k, d, i, t, flags))
  {
    var r := AddTable(k, d, i, t, flags);
    hide FrameOk;
    forall f | f in r.use ensures FrameOk(r, f) { AddTableFrame(k, d, i, t, flags, f); }
    SameFreePages(k, r);
  }

  /** The free list only looks at free pages. */
  lemma SameFreePages(k: Kern, r: Kern)
    requires PoolOk(k) && r.pool == k.pool && r.freelist == k.freelist && r.use.Keys == r.frames.Keys == k.frames.Keys
    requires forall f :: f in k.use ==> (k.use[f] == Free <==> r.use[f] == Free)
    requires forall f :: f in k.use && k.use[f] == Free ==> r.frames[f] == k.frames[f]
    ensures PoolOk(r)
  {
    forall i | 0 <= i < |r.pool| ensures r.pool[i] in r.frames && r.frames[r.pool[i]] == Run(Head(r.pool[i + 1..])) {
      assert k.pool[i] in k.pool;
    }
  }

  /** Data page f, just allocated, goes into slot j of user table i. */
  function AddPage(k: Kern, d: nat, i: nat, j: nat, t: nat, f: nat, flags: nat): Kern
    requires t in k.frames && k.frames[t].Table? && j < |k.frames[t].entries|
  {
    k.(frames := SetEntry(k.frames, t, j, Present(f, flags)), use := k.use[f := User(d, i, j)])
  }

  lemma AddPageFrame(k: Kern, d: nat, i: nat, j: nat, t: nat, f: nat, flags: nat, g: nat)
    requires Inv(k) && t in k.use && k.use[t] == Tab(d, i) && i < USERDIRS && j < NENTRIES
    requires IsTable(k.frames, t) && k.frames[t].entries[j].Absent?
    requires f in k.use && k.use[f] == Held && f in k.frames && k.frames[f].Data? && g in k.use
    ensures FrameOk(AddPage(k, d, i, j, t, f, flags), g)
  {
    assert FrameOk(k, g) && FrameOk(k, t);
    hide PoolOk;
  }

  lemma AddPageKeeps(k: Kern, d: nat, i: nat, j: nat, t: nat, f: nat, flags: nat)
    requires Inv(k) && t in k.use && k.use[t] == Tab(d, i) && i < USERDIRS && j < NENTRIES
    requires IsTable(k.frames, t) && k.frames[t].entries[j].Absent?
    requires f in k.use && k.use[f] == Held && f in k.frames && k.frames[f].Data?
    ensures Inv(AddPage(k, d, i, j, t, f, flags))
  {
    var r := AddPage(k, d, i, j, t, f, flags);
    hide FrameOk;
    forall g | g in r.use ensures FrameOk(r, g) { AddPageFrame(k, d, i, j, t, f, flags, g); }
    SameFreePages(k, r);
  }

  /** An entry of a kernel table is written; such entries refer to pages that are not accounted for. */
  lemma AddKernelKeeps(k: Kern, d: nat, i: nat, j: nat, t: nat, e: Entry)
    requires Inv(k) && t in k.use && k.use[t] == Tab(d, i) && USERDIRS <= i && j < NENTRIES && IsTable(k.frames, t)
    ensures Inv(k.(frames := SetEntry(k.frames, t, j, e)))
  {
    var r := k.(frames := SetEntry(k.frames, t, j, e));
    forall g | g in r.use ensures FrameOk(r, g) { assert FrameOk(k, g); }
    hide FrameOk;
    SameFreePages(k, r);
  }

  /** User page f leaves its slot. */
  function RemovePage(k: Kern, j: nat, t: nat, f: nat): Kern
    requires t in k.frames && k.frames[t].Table? && j < |k.frames[t].entries|
  {
    k.(frames := SetEntry(k.frames, t, j, Absent), use := k.use[f := Held])
  }

  lemma RemovePageFrame(k: Kern, d: nat, i: nat, j: nat, t: nat, f: nat, g: nat)
    requires Inv(k) && t in k.use && k.use[t] == Tab(d, i)
    requires HasTable(k.frames, t, j, f) && f in k.use && k.use[f] == User(d, i, j)
    requires g in k.use
    ensures FrameOk(RemovePage(k, j, t, f), g)
  {
    assert FrameOk(k, g) && FrameOk(k, t);
    hide PoolOk;
  }

  lemma RemovePageKeeps(k: Kern, d: nat, i: nat, j: nat, t: nat, f: nat)
    requires Inv(k) && t in k.use && k.use[t] == Tab(d, i)
    requires HasTable(k.frames, t, j, f) && f in k.use && k.use[f] == User(d, i, j)
    ensures Inv(RemovePage(k, j, t, f))
  {
    var r := RemovePage(k, j, t, f);
    hide FrameOk;
    forall g | g in r.use ensures FrameOk(r, g) { RemovePageFrame(k, d, i, j, t, f, g); }
    SameFreePages(k, r);
  }

  lemma AllocKeeps(k: Kern)
    requires Inv(k) && k.pool != []
    ensures k.pool[0] in k.frames && k.frames[k.pool[0]].Run? && Inv(Alloc(k)) && k.use[k.pool[0]] == Free
  {
    AllocPool(k);
    var r := Alloc(k);
    forall f | f in r.use ensures FrameOk(r, f) { assert FrameOk(k, f); }
  }

  lemma ReleaseFrame(k: Kern, f: nat, g: nat)
    requires Inv(k) && f in k.use && k.use[f] == Held && g in k.use
    ensures FrameOk(Release(k, f), g)
  {
    hide PoolOk;
    assert FrameOk(k, g);
  }

  /** A page in hand may be given back, or filled with anything. */
  lemma ReleaseKeeps(k: Kern, f: nat)
    requires Inv(k) && f in k.use && k.use[f] == Held
    ensures Inv(Release(k, f))
  {
    hide PoolOk, FrameOk;
    ReleasePool(k, f);
    var r := Release(k, f);
    forall g | g in r.use ensures FrameOk(r, g) { ReleaseFrame(k, f, g); }
  }

  lemma FillKeeps(k: Kern, f: nat, frame: Frame)
    requires Inv(k) && f in k.use && k.use[f] == Held && f in k.frames
    ensures Inv(k.(frames := k.frames[f := frame]))
  {
    hide FrameOk;
    var r := k.(frames := k.frames[f := frame]);
    forall g | g in r.use ensures FrameOk(r, g) { FillFrame(k, f, frame, g); }
    SameFreePages(k, r);
  }

  lemma FillFrame(k: Kern, f: nat, frame: Frame, g: nat)
    requires Inv(k) && f in k.use && k.use[f] == Held && f in k.frames && g in k.use
    ensures FrameOk(k.(frames := k.frames[f := frame]), g)
  {
    hide PoolOk;
    assert FrameOk(k, g);
  }

  /** A page in hand, all zero, becomes a directory. */
  lemma NewDirKeeps(k: Kern, f: nat)
    requires Inv(k) && f in k.use && k.use[f] == Held && f in k.frames && k.frames[f] == Table(Empty())
    ensures Inv(k.(use := k.use[f := Dir]))
  {
    var r := k.(use := k.use[f := Dir]);
    forall g | g in r.use ensures FrameOk(r, g) { assert FrameOk(k, g); }
    hide FrameOk;
    SameFreePages(k, r);
  }

  predicate OfSpace(u: Use, f: nat, d: nat) { (u == Dir && f == d) || (u.Tab? && u.d == d) || (u.User? && u.d == d) }

  /** The pages of space d, all in hand again. */
  function Retire(k: Kern, d: nat): Kern {
    k.(use := map f | f in k.use :: if OfSpace(k.use[f], f, d) then Held else k.use[f])
  }

  lemma RetireKeeps(k: Kern, d: nat)
    requires Inv(k)
    ensures Inv(Retire(k, d))
  {
    var r := Retire(k, d);
    forall g | g in r.use ensures FrameOk(r, g) {
      assert FrameOk(k, g);
      hide PoolOk;
    }
    hide FrameOk;
    SameFreePages(k, r);
  }
}
