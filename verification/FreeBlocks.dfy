/** How many blocks an operation of fs.c needs, takes and logs. */
module FreeBlocks {
  import opened Blocks
  import opened Machine
  import opened Counting
  import opened Ownership
  import opened FileSystem

  // ---------------------------------------------------------------- free blocks

  /** The data blocks that are free. */
  ghost function FreeData(d: Disk): (r: set<nat>)
    requires Layout(d)
    ensures forall b: nat :: b in r <==> FirstData(d) <= b < DataEnd(d) && !UsedOf(d)[b]
  {
    set b: nat | b < |UsedOf(d)| && FirstData(d) <= b < DataEnd(d) && !UsedOf(d)[b]
  }

  /** Every block of the log has its bit set. */
  ghost predicate LogMarked(d: Disk) {
    Layout(d) && forall b: nat :: DataEnd(d) <= b < SbSize(d) ==> UsedOf(d)[b]
  }

  /** A block of the log that was free is marked. */
  ghost predicate LogUsed(d: Disk, d': Disk) {
    && Layout(d) && Layout(d') && SbSize(d') == SbSize(d)
    && exists b: nat :: DataEnd(d) <= b < SbSize(d) && !UsedOf(d)[b] && UsedOf(d')[b]
  }

  /** The first clear bit is a log block exactly when every block below the log is marked. */
  lemma FirstClearIsLog(d: Disk, b: nat)
    requires Layout(d) && b < SbSize(d) && !UsedOf(d)[b] && forall x: nat :: x < b ==> UsedOf(d)[x]
    ensures b >= DataEnd(d) <==> forall x: nat :: x < DataEnd(d) ==> UsedOf(d)[x]
  {
    hide UsedOf, Word;
  }

  /** Every bit of the bitmap is set. */
  ghost predicate DiskFull(d: Disk) {
    Layout(d) && forall x :: 0 <= x < SbSize(d) ==> UsedOf(d)[x]
  }

  /** No data block is free. */
  ghost predicate DataFull(d: Disk) { Layout(d) && FreeData(d) == {} }

  /** On a whole disk that is exactly when every block below the log is marked. */
  lemma DataFullIff(d: Disk, t: seq<Inode>, o: map<nat, Slot>)
    requires FsInv(d, t, o)
    ensures DataFull(d) <==> forall x: nat :: x < DataEnd(d) ==> UsedOf(d)[x]
  {
    hide UsedOf, Word, RefsOf, Row;
    if FreeData(d) == {} {
      forall x: nat | x < DataEnd(d) ensures UsedOf(d)[x] { assert x !in FreeData(d); }
    }
  }

  lemma OneLess(d: Disk, d': Disk, b: nat)
    requires Layout(d) && Layout(d') && d'[1] == d[1] && b in FreeData(d) && UsedOf(d') == UsedOf(d)[b := true]
    ensures |FreeData(d')| + 1 == |FreeData(d)| && LogBitsKept(d, d')
  {
    hide UsedOf, Word;
    assert FreeData(d') == FreeData(d) - {b};
  }

  lemma SameFree(d: Disk, d': Disk)
    requires Layout(d) && Layout(d') && d'[1] == d[1] && UsedOf(d') == UsedOf(d)
    ensures FreeData(d') == FreeData(d) && LogBitsKept(d, d')
  {
    hide UsedOf, Word;
  }

  // ---------------------------------------------------------------- slots filled

  /** From inode n on d to inode n' on d' exactly the empty slots filled were filled, one free data block
      each. */
  ghost predicate Fills(d: Disk, n: Inode, d': Disk, n': Inode, filled: set<nat>) {
    && Layout(d) && Layout(d') && |n.addrs| == |n'.addrs| == NDIRECT + 1
    && (forall k :: k in filled ==> k < SLOTS && Ref(d, n, k) == 0)
    && (forall k: nat :: k < SLOTS ==> (Ref(d', n', k) == 0 <==> Ref(d, n, k) == 0 && k !in filled))
    && |FreeData(d')| + |filled| == |FreeData(d)|
  }

  lemma FillsRefl(d: Disk, n: Inode)
    requires Layout(d) && |n.addrs| == NDIRECT + 1
    ensures Fills(d, n, d, n, {})
  {
    hide Ref, FreeData;
  }

  lemma FillsTrans(d: Disk, n: Inode, d1: Disk, n1: Inode, d2: Disk, n2: Inode, f: set<nat>, g: set<nat>)
    requires Fills(d, n, d1, n1, f) && Fills(d1, n1, d2, n2, g)
    ensures Fills(d, n, d2, n2, f + g)
  {
    hide Ref, FreeData;
    forall k | k in g ensures k !in f && Ref(d, n, k) == 0 { assert Ref(d1, n1, k) == 0; }
    assert |f + g| == |f| + |g| by { assert f !! g; }
  }

  lemma FillFills(d: Disk, o: map<nat, Slot>, i: nat, n: Inode, k: nat, b: nat)
    requires WholeWith(d, o, i, n) && k <= NDIRECT && n.addrs[k] == 0 && b < DataEnd(d) && !UsedOf(d)[b]
    ensures BBlock(b, SbInodes(d)) < |d| && b < |d|
    ensures Fills(d, n, Alloc(d, b), n.(addrs := n.addrs[k := b]), {k}) && LogBitsKept(d, Alloc(d, b))
  {
    hide Whole, Word, Grows, UsedOf, OwnKept, Mark, Ref, RefsOf;
    BitmapInside(d, b);
    var t := TableWith(d, i, n);
    DirectGrows(d, t, o, i, k, b);
    AllocView(d, t, o, b);
    OneLess(d, Alloc(d, b), b);
    NoEntries(d, n);
  }

  lemma EntryFills(d: Disk, o: map<nat, Slot>, i: nat, n: Inode, e: nat, b: nat)
    requires WholeWith(d, o, i, n) && e < NINDIRECT && n.addrs[NDIRECT] != 0 && Ref(d, n, NDIRECT + 1 + e) == 0
    requires b < DataEnd(d) && !UsedOf(d)[b]
    ensures n.addrs[NDIRECT] < |d| && BBlock(b, SbInodes(d)) < |d| && b < |d|
    ensures var d' := SetEntry(Alloc(d, b), n.addrs[NDIRECT], e, b);
      Fills(d, n, d', n, {NDIRECT + 1 + e}) && LogBitsKept(d, d')
  {
    hide Whole, Word, UsedOf, Mark, Ref, RefsOf, SetWord, Alloc;
    BitmapInside(d, b);
    var t, c, k := TableWith(d, i, n), n.addrs[NDIRECT], NDIRECT + 1 + e;
    NoEntries(d, n);
    Owns(d, t, o, i, NDIRECT);
    AllocView(d, t, o, b);
    AllocEntry(d, t, o, i, e, b);
    EntryUsed(Alloc(d, b), c, e, b);
    var d' := SetEntry(Alloc(d, b), c, e, b);
    PutRow(d, t, d', t, Slot(i, k), b);
    OneLess(d, d', b);
    assert b != 0;
  }

  /** balloc hands out a block of the log: the file system does not notice yet. */
  lemma LogTaken(d: Disk, o: map<nat, Slot>, i: nat, n: Inode, b: nat)
    requires WholeWith(d, o, i, n) && DataEnd(d) <= b < SbSize(d) && !UsedOf(d)[b]
    ensures BBlock(b, SbInodes(d)) < |d| && b < |d|
    ensures var d' := Alloc(d, b);
      && WholeWith(d', o, i, n) && Fills(d, n, d', n, {}) && OwnKept(d, o, d')
      && Grows(d, TableWith(d, i, n), o, d', TableWith(d', i, n), o, i)
      && (forall k: nat :: k < SLOTS ==> Ref(d', n, k) == Ref(d, n, k)) && FreeData(d') == FreeData(d)
      && LogUsed(d, d')
  {
    hide Word, UsedOf, Mark, Ref, RefsOf, Alloc, Whole, FreeData;
    BitmapInside(d, b);
    var t, d' := TableWith(d, i, n), Alloc(d, b);
    AllocView(d, t, o, b);
    OwnedAreData(d, t, o);
    assert TableWith(d', i, n) == t;
    LogBitFree(d, d', b);
    BeyondWhole(UsedOf(d), RefsOf(d, t), FirstData(d), DataEnd(d), o, b);
    WholeAs(d, d', t, UsedOf(d'), RefsOf(d, t), o);
    RowSame(d, d', t, i);
    GrowsKept(d, t, o, d', i);
  }

  lemma LogBitFree(d: Disk, d': Disk, b: nat)
    requires Layout(d) && Layout(d') && d'[1] == d[1] && DataEnd(d) <= b < SbSize(d) && UsedOf(d') == UsedOf(d)[b := true]
    ensures FreeData(d') == FreeData(d)
  {
    hide UsedOf, Word;
  }

  lemma RowSame(d: Disk, d': Disk, t: seq<Inode>, i: nat)
    requires i < |t| && (forall j :: 0 <= j < |t| ==> |t[j].addrs| == NDIRECT + 1) && RefsOf(d', t) == RefsOf(d, t)
    ensures forall k: nat :: k < SLOTS ==> Ref(d', t[i], k) == Ref(d, t[i], k)
  {
    hide Ref;
    forall k: nat | k < SLOTS ensures Ref(d', t[i], k) == Ref(d, t[i], k) {
      assert RefsOf(d', t)[i][k] == RefsOf(d, t)[i][k];
    }
  }

  /** No slot and no data block has changed. */
  lemma GrowsKept(d: Disk, t: seq<Inode>, o: map<nat, Slot>, d': Disk, i: nat)
    requires Shape(d, t) && Shape(d', t) && i < |t| && |d'| == |d| && d'[1] == d[1] && Table(d') == Table(d)
    requires RefsOf(d', t) == RefsOf(d, t) && forall x: nat :: x in o && x < |d| ==> d'[x] == d[x]
    ensures Grows(d, t, o, d', t, o, i) && OwnKept(d, o, d')
  {
    hide Ref, RefsOf, Row;
    assert t == t[i := t[i].(addrs := t[i].addrs)];
  }

  // ---------------------------------------------------------------- slots a write needs

  /** The slots that must be filled for block bn of a file. */
  function SlotsFor(bn: nat): set<nat> { {SlotOf(bn)} + if bn >= NDIRECT then {NDIRECT} else {} }

  /** The slots that a write of len bytes at off needs. */
  ghost function WriteSlots(off: nat, len: nat): set<nat> {
    if len == 0 then {}
    else
      var first, last := off / BSIZE, (off + len - 1) / BSIZE;
      Interval(SlotOf(first), SlotOf(last) + 1) + if last >= NDIRECT then {NDIRECT} else {}
  }

  /** The blocks of the file a write touches. */
  function Touched(off: nat, len: nat): nat {
    if len == 0 then 0 else (off + len - 1) / BSIZE - off / BSIZE + 1
  }

  lemma SlotsForWrite(off: nat, len: nat, cur: nat)
    requires off <= cur < off + len
    ensures SlotsFor(cur / BSIZE) <= WriteSlots(off, len)
  {
    assert off / BSIZE <= cur / BSIZE <= (off + len - 1) / BSIZE;
  }

  lemma WriteSlotsSize(off: nat, len: nat)
    ensures |WriteSlots(off, len)| <= Touched(off, len) + 1
  {
    if len > 0 {
      var first, last := off / BSIZE, (off + len - 1) / BSIZE;
      assert first <= last;
      var a := Interval(SlotOf(first), SlotOf(last) + 1);
      if last >= NDIRECT && first >= NDIRECT {
        assert |a + {NDIRECT}| <= |a| + 1;
      } else if last >= NDIRECT {
        assert NDIRECT in a && a + {NDIRECT} == a;
      } else {
        assert a + {} == a;
      }
    }
  }

  /** The slots still empty. */
  ghost function Missing(d: Disk, n: Inode, slots: set<nat>): (r: set<nat>)
    requires |n.addrs| == NDIRECT + 1
    ensures forall k :: k in r <==> k in slots && k < SLOTS && Ref(d, n, k) == 0
  {
    set k | k in slots && k < SLOTS && Ref(d, n, k) == 0
  }

  lemma FillsMissing(d: Disk, n: Inode, d': Disk, n': Inode, filled: set<nat>, slots: set<nat>)
    requires Fills(d, n, d', n', filled) && filled <= slots
    ensures |Missing(d', n', slots)| + |filled| == |Missing(d, n, slots)|
  {
    hide Ref, FreeData;
    assert Missing(d', n', slots) == Missing(d, n, slots) - filled;
    assert filled <= Missing(d, n, slots);
  }

  /** With no hole below the end of the write nothing is missing. */
  lemma NothingMissing(d: Disk, n: Inode, off: nat, len: nat)
    requires NoHoles(d, n, off + len) && off + len <= MAXFILE * BSIZE
    ensures Missing(d, n, WriteSlots(off, len)) == {}
  {
    forall k | k in WriteSlots(off, len) ensures k < SLOTS && Ref(d, n, k) != 0 {
      var last := (off + len - 1) / BSIZE;
      if k == NDIRECT {
        assert Ref(d, n, SlotOf(last)) != 0;
      } else {
        var bn := if k < NDIRECT then k else k - 1;
        assert SlotOf(bn) == k && bn <= last;
      }
    }
  }

  /** balloc, then the entry in the indirect block c. */
  lemma EntryTracked(base: Disk, d: Disk, logged: set<nat>, b: nat, c: nat, blk: Block)
    requires Tracked(base, d, logged) && Layout(d) && FirstData(d) <= b < DataEnd(d) && FirstData(d) <= c < DataEnd(d)
    ensures BBlock(b, SbInodes(d)) < |d| && b < |d| && c < |d|
    ensures Tracked(base, Alloc(d, b)[c := blk], logged + {BBlock(b, SbInodes(d)), b} + {c})
  {
    hide Word, SetBit, Tracked;
    BitmapInside(d, b);
    BitmapInside(d, c);
    AllocTracked(base, d, logged, b);
    MarkUsed(d, b, true);
    assert Alloc(d, b)[1] == d[1];
    StoreTracked(base, Alloc(d, b), logged + {BBlock(b, SbInodes(d)), b}, c, blk);
  }

  /** A data block of the file is stored. */
  lemma DataTracked(base: Disk, d: Disk, logged: set<nat>, o: map<nat, Slot>, i: nat, n: Inode, bn: nat, blk: Block)
    requires Tracked(base, d, logged) && WholeWith(d, o, i, n) && bn < MAXFILE && Ref(d, n, SlotOf(bn)) != 0
    ensures Ref(d, n, SlotOf(bn)) < |d| && Tracked(base, d[Ref(d, n, SlotOf(bn)) := blk], logged + {Ref(d, n, SlotOf(bn))})
  {
    hide Word, FsInv, Ref, Tracked;
    Owns(d, TableWith(d, i, n), o, i, SlotOf(bn));
    BitmapInside(d, 0);
    StoreTracked(base, d, logged, Ref(d, n, SlotOf(bn)), blk);
  }

  /** When bmap fails the file is as far as it was. */
  lemma ChunkFails(d: Disk, n: Inode, o: map<nat, Slot>, d1: Disk, n1: Inode, o1: map<nat, Slot>,
                   d2: Disk, n2: Inode, o2: map<nat, Slot>, i: nat, off: nat, cur: nat, src: seq<Byte>)
    requires Layout(d) && i < SbInodes(d) && |n.addrs| == NDIRECT + 1
    requires WholeWith(d1, o1, i, n1) && WholeWith(d2, o2, i, n2)
    requires Written(d, n, d1, n1, off, cur, src)
    requires Grows(d, TableWith(d, i, n), o, d1, TableWith(d1, i, n1), o1, i)
    requires Grows(d1, TableWith(d1, i, n1), o1, d2, TableWith(d2, i, n2), o2, i) && OwnKept(d1, o1, d2)
    ensures Written(d, n, d2, n2, off, cur, src) && Grows(d, TableWith(d, i, n), o, d2, TableWith(d2, i, n2), o2, i)
  {
    hide Written, Grows, FsInv, OwnKept, Ref;
    GrowsTrans(d, TableWith(d, i, n), o, d1, TableWith(d1, i, n1), o1, d2, TableWith(d2, i, n2), o2, i);
    WrittenGrown(d, n, d1, TableWith(d1, i, n1), o1, d2, TableWith(d2, i, n2), o2, i, off, cur, src);
  }

  // ---------------------------------------------------------------- blocks logged

  /** The blocks of the bitmap. */
  ghost function BitmapBlocks(d: Disk): set<nat>
    requires Layout(d)
  {
    Interval(BBlock(0, SbInodes(d)), FirstData(d))
  }

  lemma InBitmap(d: Disk, b: nat)
    requires Layout(d) && b < SbSize(d)
    ensures BBlock(b, SbInodes(d)) in BitmapBlocks(d) && |BitmapBlocks(d)| == (SbSize(d) - 1) / BPB + 1
  {
    BitmapInside(d, b);
    BitmapInside(d, 0);
  }

  /** The blocks in these slots. */
  ghost function Named(d: Disk, n: Inode, slots: set<nat>): (r: set<nat>)
    requires |n.addrs| == NDIRECT + 1
    ensures forall k :: k in slots && k < SLOTS && Ref(d, n, k) != 0 ==> Ref(d, n, k) in r
  {
    set k | k in slots && k < SLOTS && Ref(d, n, k) != 0 :: Ref(d, n, k) as nat
  }

  lemma {:induction false} NamedSize(d: Disk, n: Inode, slots: set<nat>)
    requires |n.addrs| == NDIRECT + 1
    ensures |Named(d, n, slots)| <= |slots|
    decreases |slots|
  {
    hide Ref;
    if slots == {} {
      assert Named(d, n, slots) == {};
    } else {
      var x :| x in slots;
      NamedSize(d, n, slots - {x});
      var rest := Named(d, n, slots - {x});
      var more := if x < SLOTS then {Ref(d, n, x) as nat} else {};
      SubsetSize(Named(d, n, slots), rest + more);
      assert |rest + more| <= |rest| + 1;
    }
  }

  lemma NamedMore(d: Disk, n: Inode, slots: set<nat>, more: set<nat>)
    requires |n.addrs| == NDIRECT + 1 && slots <= more
    ensures Named(d, n, slots) <= Named(d, n, more)
  {
    hide Ref;
  }

  /** Slots once filled stay. */
  lemma NamedGrows(d: Disk, t: seq<Inode>, o: map<nat, Slot>, d': Disk, t': seq<Inode>, o': map<nat, Slot>, i: nat, slots: set<nat>)
    requires Grows(d, t, o, d', t', o', i)
    ensures Named(d, t[i], slots) <= Named(d', t'[i], slots)
    ensures forall k: nat :: k < SLOTS && Ref(d, t[i], k) != 0 ==> Ref(d', t'[i], k) == Ref(d, t[i], k)
  {
    hide Ref;
    forall k: nat | k < SLOTS && Ref(d, t[i], k) != 0 ensures Ref(d', t'[i], k) == Ref(d, t[i], k) {
      assert At(RefsOf(d, t), Slot(i, k)) == Ref(d, t[i], k);
      assert At(RefsOf(d', t'), Slot(i, k)) == Ref(d', t'[i], k);
    }
  }

  /** Every data block of the file from off to cur has been logged. */
  ghost predicate DataLogged(d: Disk, n: Inode, logged: set<nat>, off: nat, cur: nat) {
    |n.addrs| == NDIRECT + 1 &&
    forall bn: nat :: off / BSIZE <= bn < MAXFILE && bn * BSIZE < cur && off < cur ==>
      Ref(d, n, SlotOf(bn)) != 0 && Ref(d, n, SlotOf(bn)) in logged
  }

  /** The turn at cur logs the block it copies into; no slot once filled moves. */
  lemma DataLoggedStep(d: Disk, n: Inode, d': Disk, n': Inode, logged: set<nat>, logged': set<nat>, off: nat, cur: nat, m: nat)
    requires DataLogged(d, n, logged, off, cur) && |n'.addrs| == NDIRECT + 1 && logged <= logged'
    requires forall k: nat :: k < SLOTS && Ref(d, n, k) != 0 ==> Ref(d', n', k) == Ref(d, n, k)
    requires off <= cur && 0 < m && cur % BSIZE + m <= BSIZE && cur / BSIZE < MAXFILE
    requires Ref(d', n', SlotOf(cur / BSIZE)) != 0 && Ref(d', n', SlotOf(cur / BSIZE)) in logged'
    ensures DataLogged(d', n', logged', off, cur + m)
  {
    hide Ref;
    forall bn: nat | off / BSIZE <= bn < MAXFILE && bn * BSIZE < cur + m
      ensures Ref(d', n', SlotOf(bn)) != 0 && Ref(d', n', SlotOf(bn)) in logged'
    {
      if bn != cur / BSIZE { assert bn * BSIZE < cur && off < cur; }
    }
  }

  /** A write logs at least the blocks it touches: they have one owner each. */
  lemma LoggedAtLeast(d: Disk, o: map<nat, Slot>, i: nat, n: Inode, logged: set<nat>, off: nat, len: nat)
    requires WholeWith(d, o, i, n) && NoHoles(d, n, off + len) && off + len <= MAXFILE * BSIZE
    requires DataLogged(d, n, logged, off, off + len)
    ensures |logged| >= Touched(off, len)
  {
    hide FsInv, Ref, Word, NoHoles;
    if len > 0 {
      var first, last := off / BSIZE, (off + len - 1) / BSIZE;
      var xs := seq(last - first + 1, j requires 0 <= j <= last - first => BlockOf(d, n, first + j));
      forall j | 0 <= j <= last - first ensures xs[j] in logged && xs[j] in o && o[xs[j]] == Slot(i, SlotOf(first + j)) {
        OwnsTouched(d, o, i, n, logged, off, len, first + j);
      }
      hide WholeWith, DataLogged;
      ElementsSize(xs);
      SubsetSize(Elements(xs), logged);
    }
  }

  ghost function BlockOf(d: Disk, n: Inode, bn: nat): nat
    requires |n.addrs| == NDIRECT + 1
  {
    if bn < MAXFILE then Ref(d, n, SlotOf(bn)) else 0
  }

  lemma OwnsTouched(d: Disk, o: map<nat, Slot>, i: nat, n: Inode, logged: set<nat>, off: nat, len: nat, bn: nat)
    requires WholeWith(d, o, i, n) && NoHoles(d, n, off + len) && off + len <= MAXFILE * BSIZE && len > 0
    requires DataLogged(d, n, logged, off, off + len) && off / BSIZE <= bn <= (off + len - 1) / BSIZE
    ensures BlockOf(d, n, bn) in logged && BlockOf(d, n, bn) in o && o[BlockOf(d, n, bn)] == Slot(i, SlotOf(bn))
  {
    hide FsInv, Ref, Word;
    assert bn < MAXFILE && bn * BSIZE < off + len;
    DataOwned(d, TableWith(d, i, n), o, i, bn);
  }

  // ---------------------------------------------------------------- from one state to the next

  /** The volume and an inode in memory: blocks, their owners, the inode, and the blocks logged. */
  datatype View = View(disk: Disk, owner: map<nat, Slot>, inode: Inode, logged: set<nat>)

  /** From v to w inode i has grown by the slots filled, all of them among slots, and nothing else. */
  ghost predicate Feeds(i: nat, v: View, w: View, filled: set<nat>, slots: set<nat>) {
    && WholeWith(v.disk, v.owner, i, v.inode) && WholeWith(w.disk, w.owner, i, w.inode)
    && Grows(v.disk, TableWith(v.disk, i, v.inode), v.owner, w.disk, TableWith(w.disk, i, w.inode), w.owner, i)
    && Fills(v.disk, v.inode, w.disk, w.inode, filled) && filled <= slots
  }

  /** Everything changed from v to w has been logged, and nothing but blocks of the bitmap and blocks in
      these slots; the bits of the log are as they were. */
  ghost predicate LogsOnly(base: Disk, v: View, w: View, slots: set<nat>) {
    && |w.inode.addrs| == NDIRECT + 1 && LogBitsKept(v.disk, w.disk)
    && (Tracked(base, v.disk, v.logged) ==> Tracked(base, w.disk, w.logged))
    && v.logged <= w.logged <= v.logged + BitmapBlocks(w.disk) + Named(w.disk, w.inode, slots)
  }

  /** Slot k is needed and no data block is free.  Either no bit at all is clear, or balloc has handed out
      a block of the log. */
  ghost predicate Starves(v: View, w: View, k: nat, full: bool) {
    && |w.inode.addrs| == NDIRECT + 1 && k < SLOTS
    && DataFull(w.disk) && Ref(w.disk, w.inode, k) == 0
    && if full then LogMarked(v.disk) && DiskFull(w.disk) else LogUsed(v.disk, w.disk)
  }

  lemma FeedsRefl(i: nat, base: Disk, v: View, slots: set<nat>)
    requires WholeWith(v.disk, v.owner, i, v.inode)
    ensures Feeds(i, v, v, {}, slots) && LogsOnly(base, v, v, slots) && OwnKept(v.disk, v.owner, v.disk)
  {
    hide Grows, OwnKept, FsInv, Ref, Named, FreeData, Fills, Tracked;
    WholeRefl(v.disk, v.owner, i, v.inode);
    FillsRefl(v.disk, v.inode);
  }

  lemma FeedsTrans(i: nat, v: View, u: View, w: View, f: set<nat>, g: set<nat>, slots: set<nat>)
    requires Feeds(i, v, u, f, slots) && Feeds(i, u, w, g, slots)
    ensures Feeds(i, v, w, f + g, slots)
    ensures OwnKept(v.disk, v.owner, u.disk) && OwnKept(u.disk, u.owner, w.disk) ==> OwnKept(v.disk, v.owner, w.disk)
  {
    hide Grows, OwnKept, FsInv, Fills, TableWith;
    var tv, tu, tw := TableWith(v.disk, i, v.inode), TableWith(u.disk, i, u.inode), TableWith(w.disk, i, w.inode);
    GrowsTrans(v.disk, tv, v.owner, u.disk, tu, u.owner, w.disk, tw, w.owner, i);
    if OwnKept(v.disk, v.owner, u.disk) && OwnKept(u.disk, u.owner, w.disk) {
      KeptTrans(v.disk, tv, v.owner, u.disk, tu, u.owner, w.disk, i);
    }
    FillsTrans(v.disk, v.inode, u.disk, u.inode, w.disk, w.inode, f, g);
  }

  lemma LogsTrans(i: nat, base: Disk, v: View, u: View, w: View, g: set<nat>, slots: set<nat>)
    requires LogsOnly(base, v, u, slots) && LogsOnly(base, u, w, slots) && Feeds(i, u, w, g, slots)
    ensures LogsOnly(base, v, w, slots)
  {
    hide Grows, OwnKept, FsInv, Fills, Tracked, Named, UsedOf;
    BitmapSame(u.disk, w.disk, i, u, w, g, slots);
    NamedGrows(u.disk, TableWith(u.disk, i, u.inode), u.owner, w.disk, TableWith(w.disk, i, w.inode), w.owner, i, slots);
  }

  lemma BitmapSame(d: Disk, d': Disk, i: nat, v: View, w: View, g: set<nat>, slots: set<nat>)
    requires Feeds(i, v, w, g, slots) && d == v.disk && d' == w.disk
    ensures BitmapBlocks(d') == BitmapBlocks(d)
  {
    hide FsInv, Fills, OwnKept, RefsOf, Word;
  }

  lemma FeedsWider(i: nat, base: Disk, v: View, w: View, filled: set<nat>, slots: set<nat>, more: set<nat>)
    requires Feeds(i, v, w, filled, slots) && slots <= more
    ensures Feeds(i, v, w, filled, more) && (LogsOnly(base, v, w, slots) ==> LogsOnly(base, v, w, more))
  {
    hide Grows, OwnKept, FsInv, Fills, Tracked, Named, LogBitsKept;
    NamedMore(w.disk, w.inode, slots, more);
  }

  lemma FeedsParts(i: nat, v: View, w: View, filled: set<nat>, slots: set<nat>)
    requires Feeds(i, v, w, filled, slots)
    ensures WholeWith(v.disk, v.owner, i, v.inode) && WholeWith(w.disk, w.owner, i, w.inode)
    ensures Layout(v.disk) && i < SbInodes(v.disk) && |v.inode.addrs| == NDIRECT + 1
    ensures Grows(v.disk, TableWith(v.disk, i, v.inode), v.owner, w.disk, TableWith(w.disk, i, w.inode), w.owner, i)
  {
  }

  /** Without an indirect block the entry is missing too. */
  lemma StarvedEntry(v: View, u: View, e: nat, full: bool)
    requires Starves(v, u, NDIRECT, full) && e < NINDIRECT
    ensures Starves(v, u, NDIRECT + 1 + e, full)
  {
    hide FreeData, LogMarked, Word;
  }

  lemma StarvedSince(base: Disk, v: View, u: View, w: View, slots: set<nat>, k: nat, full: bool)
    requires Starves(u, w, k, full) && LogsOnly(base, v, u, slots)
    ensures Starves(v, w, k, full)
  {
    hide FreeData, UsedOf, Ref, Word;
  }

  lemma NoneLeft(i: nat, v: View, k: nat)
    requires WholeWith(v.disk, v.owner, i, v.inode) && k < SLOTS && Ref(v.disk, v.inode, k) == 0 && DiskFull(v.disk)
    ensures Starves(v, v, k, true)
  {
    hide Ref, Word, FsInv;
  }

  lemma NoneBelow(d: Disk, b: nat)
    requires Layout(d) && DataEnd(d) <= b < SbSize(d) && forall x :: 0 <= x < b ==> UsedOf(d)[x]
    ensures FreeData(d) == {}
  {
    hide UsedOf, Word;
  }

  /** The first clear bit is in the log: no data block is free. */
  lemma LogHandedOut(i: nat, v: View, b: nat, k: nat, slots: set<nat>)
    requires WholeWith(v.disk, v.owner, i, v.inode) && k < SLOTS && Ref(v.disk, v.inode, k) == 0
    requires DataEnd(v.disk) <= b < SbSize(v.disk) && !UsedOf(v.disk)[b] && forall x :: 0 <= x < b ==> UsedOf(v.disk)[x]
    ensures BBlock(b, SbInodes(v.disk)) < |v.disk| && b < |v.disk|
    ensures var w := View(Alloc(v.disk, b), v.owner, v.inode, v.logged + {BBlock(b, SbInodes(v.disk)), b});
      Feeds(i, v, w, {}, slots) && Starves(v, w, k, false) && OwnKept(v.disk, v.owner, w.disk)
  {
    hide Ref, Word, FsInv, Grows, Alloc, Fills, LogUsed, TableWith, OwnKept, UsedOf;
    LogTaken(v.disk, v.owner, i, v.inode, b);
    NoneBelow(v.disk, b);
  }

  /** balloc for slot k of the inode. */
  lemma FillFeeds(i: nat, base: Disk, v: View, k: nat, b: nat)
    requires WholeWith(v.disk, v.owner, i, v.inode) && k <= NDIRECT && v.inode.addrs[k] == 0
    requires b < DataEnd(v.disk) && !UsedOf(v.disk)[b]
    ensures BBlock(b, SbInodes(v.disk)) < |v.disk| && b < |v.disk| && b < TWO32
    ensures var w := View(Alloc(v.disk, b), v.owner[b := Slot(i, k)], v.inode.(addrs := v.inode.addrs[k := b]),
                          v.logged + {BBlock(b, SbInodes(v.disk)), b});
      Feeds(i, v, w, {k}, {k}) && LogsOnly(base, v, w, {k}) && OwnKept(v.disk, v.owner, w.disk) && Ref(w.disk, w.inode, k) == b != 0
  {
    hide Ref, Word, FsInv, Grows, Alloc, Fills, UsedOf, Tracked, LogBitsKept;
    var d := v.disk;
    FillStep(d, v.owner, i, v.inode, k, b);
    FillFills(d, v.owner, i, v.inode, k, b);
    if Tracked(base, d, v.logged) { AllocTracked(base, d, v.logged, b); }
    InBitmap(d, b);
    var w := View(Alloc(d, b), v.owner[b := Slot(i, k)], v.inode.(addrs := v.inode.addrs[k := b]), v.logged);
    BitmapSame(d, Alloc(d, b), i, v, w, {k}, {k});
  }

  /** balloc for entry e of the indirect block. */
  lemma EntryFeeds(i: nat, base: Disk, v: View, e: nat, b: nat)
    requires WholeWith(v.disk, v.owner, i, v.inode) && e < NINDIRECT && v.inode.addrs[NDIRECT] != 0
    requires Ref(v.disk, v.inode, NDIRECT + 1 + e) == 0 && b < DataEnd(v.disk) && !UsedOf(v.disk)[b]
    ensures BBlock(b, SbInodes(v.disk)) < |v.disk| && b < |v.disk| && b < TWO32
    ensures v.inode.addrs[NDIRECT] < |v.disk| == |Alloc(v.disk, b)|
    ensures var c := v.inode.addrs[NDIRECT];
      var w := View(SetEntry(Alloc(v.disk, b), c, e, b), v.owner[b := Slot(i, NDIRECT + 1 + e)], v.inode,
                    v.logged + {BBlock(b, SbInodes(v.disk)), b} + {c});
      && Feeds(i, v, w, {NDIRECT + 1 + e}, {NDIRECT + 1 + e, NDIRECT}) && LogsOnly(base, v, w, {NDIRECT + 1 + e, NDIRECT})
      && OwnKept(v.disk, v.owner, w.disk) && Ref(w.disk, w.inode, NDIRECT + 1 + e) == b != 0
  {
    hide Ref, Word, FsInv, Grows, Alloc, Fills, UsedOf, Tracked, LogBitsKept, SetWord;
    var d, c := v.disk, v.inode.addrs[NDIRECT];
    EntryStep(d, v.owner, i, v.inode, e, b);
    EntryFills(d, v.owner, i, v.inode, e, b);
    var d' := SetEntry(Alloc(d, b), c, e, b);
    if Tracked(base, d, v.logged) { EntryTracked(base, d, v.logged, b, c, d'[c]); }
    InBitmap(d, b);
    BitmapKept(d, d');
    NoEntries(d', v.inode);
  }

  lemma BitmapKept(d: Disk, d': Disk)
    requires LogBitsKept(d, d') && |d'| == |d| && d'[1] == d[1]
    ensures BitmapBlocks(d') == BitmapBlocks(d)
  {
    hide UsedOf, Word;
  }

  // ---------------------------------------------------------------- the account of a write

  /** There are free data blocks for all the slots that the write needs and that are empty. */
  ghost predicate Room(d: Disk, n: Inode, off: nat, len: nat) {
    Layout(d) && |n.addrs| == NDIRECT + 1 && |Missing(d, n, WriteSlots(off, len))| <= |FreeData(d)|
  }

  /** A write that got through had room. */
  lemma EnoughRoom(d: Disk, n: Inode, d': Disk, n': Inode, filled: set<nat>, off: nat, len: nat)
    requires Fills(d, n, d', n', filled) && filled <= WriteSlots(off, len)
    requires NoHoles(d', n', off + len) && off + len <= MAXFILE * BSIZE
    ensures Room(d, n, off, len)
  {
    hide FreeData, Missing, Ref, NoHoles, WriteSlots;
    FillsMissing(d, n, d', n', filled, WriteSlots(off, len));
    NothingMissing(d', n', off, len);
  }

  /** One that was starved had none. */
  lemma TooLittleRoom(d: Disk, n: Inode, d': Disk, n': Inode, filled: set<nat>, off: nat, len: nat, k: nat)
    requires Fills(d, n, d', n', filled) && filled <= WriteSlots(off, len)
    requires FreeData(d') == {} && k in WriteSlots(off, len) && k < SLOTS && Ref(d', n', k) == 0
    ensures !Room(d, n, off, len)
  {
    hide FreeData, Ref, WriteSlots;
    FillsMissing(d, n, d', n', filled, WriteSlots(off, len));
    assert k in Missing(d', n', WriteSlots(off, len));
  }

  /** A data block of the file is stored. */
  lemma StoreFills(d: Disk, o: map<nat, Slot>, i: nat, n: Inode, bn: nat, blk: Block)
    requires WholeWith(d, o, i, n) && bn < MAXFILE && Ref(d, n, SlotOf(bn)) != 0
    ensures Ref(d, n, SlotOf(bn)) < |d|
    ensures var d' := d[Ref(d, n, SlotOf(bn)) := blk];
      && Fills(d, n, d', n, {}) && LogBitsKept(d, d') && d'[1] == d[1]
      && forall k: nat :: k < SLOTS ==> Ref(d', n, k) == Ref(d, n, k)
  {
    hide Word, Ref, FreeData, Whole, UsedOf, RefsOf, Load;
    var t := TableWith(d, i, n);
    DataOwned(d, t, o, i, bn);
    var x := Ref(d, n, SlotOf(bn));
    StoreData(d, t, o, x, blk);
    DataUsed(d, x, blk);
    SameFree(d, d[x := blk]);
    RowSame(d, d[x := blk], t, i);
  }

  /** iupdate moves no slot. */
  lemma SavedSlots(d: Disk, o: map<nat, Slot>, i: nat, n: Inode, n1: Inode, d': Disk)
    requires WholeWith(d, o, i, n) && n1 == n.(size := n1.size) && IBlock(i) < |d|
    requires d' == d[IBlock(i) := Save(d[IBlock(i)], i, n1)]
    ensures Layout(d') && d'[1] == d[1] && LogBitsKept(d, d')
    ensures forall k: nat :: k < SLOTS ==> Ref(d', n1, k) == Ref(d, n, k)
  {
    hide Word, FreeData, Whole, UsedOf, RefsOf, Load, Save;
    SaveTable(d, i, n1);
    SaveKeeps(d, TableWith(d, i, n), o, i, n1);
    forall k: nat | k < SLOTS ensures Ref(d', n1, k) == Ref(d, n, k) {
      assert Ref(d', TableWith(d, i, n)[i], k) == Ref(d, TableWith(d, i, n)[i], k);
    }
  }

  lemma NamedSame(d: Disk, n: Inode, d': Disk, n': Inode, slots: set<nat>)
    requires |n.addrs| == |n'.addrs| == NDIRECT + 1 && forall k: nat :: k < SLOTS ==> Ref(d', n', k) == Ref(d, n, k)
    ensures Named(d', n', slots) == Named(d, n, slots)
  {
    hide Ref;
  }

  /** One turn of the copy loop after bmap: the chunk is stored and its block logged. */
  lemma ChunkFeeds(i: nat, base: Disk, v: View, bn: nat, blk: Block)
    requires WholeWith(v.disk, v.owner, i, v.inode) && bn < MAXFILE && Ref(v.disk, v.inode, SlotOf(bn)) != 0
    ensures Ref(v.disk, v.inode, SlotOf(bn)) < |v.disk|
    ensures var x := Ref(v.disk, v.inode, SlotOf(bn));
      var w := v.(disk := v.disk[x := blk], logged := v.logged + {x});
      && Feeds(i, v, w, {}, SlotsFor(bn)) && LogsOnly(base, v, w, SlotsFor(bn))
      && Ref(w.disk, w.inode, SlotOf(bn)) == x
  {
    hide Ref, Word, FsInv, Fills, UsedOf, Tracked, LogBitsKept, RefsOf, Whole, Grows;
    var d, t := v.disk, TableWith(v.disk, i, v.inode);
    StoreFills(d, v.owner, i, v.inode, bn, blk);
    DataOwned(d, t, v.owner, i, bn);
    var x := Ref(d, v.inode, SlotOf(bn));
    StoreData(d, t, v.owner, x, blk);
    assert TableWith(d[x := blk], i, v.inode) == t;
    StoreGrows(d, t, v.owner, x, blk, i);
    if Tracked(base, d, v.logged) { DataTracked(base, d, v.logged, v.owner, i, v.inode, bn, blk); }
    BitmapKept(d, d[x := blk]);
  }

  lemma StoreGrows(d: Disk, t: seq<Inode>, o: map<nat, Slot>, x: nat, blk: Block, i: nat)
    requires x < |d| && Shape(d, t) && Shape(d[x := blk], t) && i < |t| && d[x := blk][1] == d[1] && Table(d[x := blk]) == Table(d)
    requires RefsOf(d[x := blk], t) == RefsOf(d, t) && x in o && o[x].inum == i
    ensures Grows(d, t, o, d[x := blk], t, o, i)
  {
    hide Ref, RefsOf, Row, Word;
    assert t == t[i := t[i].(addrs := t[i].addrs)];
  }

  /** From v to w a write of src at off has got to cur. */
  ghost predicate Progress(i: nat, base: Disk, v: View, w: View, filled: set<nat>, off: nat, cur: nat, src: seq<Byte>) {
    && Feeds(i, v, w, filled, WriteSlots(off, |src|)) && LogsOnly(base, v, w, WriteSlots(off, |src|))
    && Written(v.disk, v.inode, w.disk, w.inode, off, cur, src) && DataLogged(w.disk, w.inode, w.logged, off, cur)
  }

  lemma ProgressStart(i: nat, base: Disk, v: View, off: nat, src: seq<Byte>)
    requires WholeWith(v.disk, v.owner, i, v.inode) && NoHoles(v.disk, v.inode, v.inode.size) && off <= v.inode.size
    ensures Progress(i, base, v, v, {}, off, off, src)
  {
    hide Feeds, LogsOnly, Written, NoHoles, FsInv, Ref;
    FeedsRefl(i, base, v, WriteSlots(off, |src|));
    WrittenStart(v.disk, v.inode, off, src);
  }

  lemma ProgressParts(i: nat, base: Disk, v: View, w: View, filled: set<nat>, off: nat, cur: nat, src: seq<Byte>)
    requires Progress(i, base, v, w, filled, off, cur, src)
    ensures WholeWith(w.disk, w.owner, i, w.inode) && Written(v.disk, v.inode, w.disk, w.inode, off, cur, src)
    ensures Layout(v.disk) && i < SbInodes(v.disk) && |v.inode.addrs| == NDIRECT + 1
    ensures Grows(v.disk, TableWith(v.disk, i, v.inode), v.owner, w.disk, TableWith(w.disk, i, w.inode), w.owner, i)
    ensures LogsOnly(base, v, w, WriteSlots(off, |src|)) && DataLogged(w.disk, w.inode, w.logged, off, cur)
  {
    hide LogsOnly, Written, DataLogged, Grows, FsInv, Fills, Ref;
  }

  /** bmap in the turn at cur. */
  lemma BmapInWrite(i: nat, base: Disk, v: View, u: View, w: View, filled: set<nat>, more: set<nat>,
                    off: nat, cur: nat, src: seq<Byte>)
    requires Progress(i, base, v, u, filled, off, cur, src) && cur < off + |src|
    requires Feeds(i, u, w, more, SlotsFor(cur / BSIZE)) && OwnKept(u.disk, u.owner, w.disk)
    ensures WholeWith(w.disk, w.owner, i, w.inode) && Written(v.disk, v.inode, w.disk, w.inode, off, cur, src)
    ensures Feeds(i, v, w, filled + more, WriteSlots(off, |src|))
    ensures LogsOnly(base, u, w, SlotsFor(cur / BSIZE)) ==> LogsOnly(base, v, w, WriteSlots(off, |src|))
  {
    hide Feeds, LogsOnly, Written, Grows, OwnKept, WriteSlots, SlotsFor, WholeWith, TableWith, DataLogged;
    var slots := WriteSlots(off, |src|);
    WrittenRange(v, u, off, cur, src);
    SlotsForWrite(off, |src|, cur);
    FeedsWider(i, base, u, w, more, SlotsFor(cur / BSIZE), slots);
    FeedsTrans(i, v, u, w, filled, more, slots);
    if LogsOnly(base, u, w, SlotsFor(cur / BSIZE)) { LogsTrans(i, base, v, u, w, more, slots); }
    FeedsParts(i, v, u, filled, slots);
    FeedsParts(i, u, w, more, slots);
    ChunkFails(v.disk, v.inode, v.owner, u.disk, u.inode, u.owner, w.disk, w.inode, w.owner, i, off, cur, src);
  }

  lemma WrittenRange(v: View, w: View, off: nat, cur: nat, src: seq<Byte>)
    requires Written(v.disk, v.inode, w.disk, w.inode, off, cur, src)
    ensures off <= cur <= off + |src|
  {
  }

  lemma Starved(i: nat, base: Disk, v: View, u: View, w: View, filled: set<nat>, more: set<nat>,
                off: nat, cur: nat, src: seq<Byte>, full: bool)
    requires Progress(i, base, v, u, filled, off, cur, src) && cur < off + |src|
    requires Feeds(i, v, w, filled + more, WriteSlots(off, |src|)) && Starves(u, w, SlotOf(cur / BSIZE), full)
    ensures !Room(v.disk, v.inode, off, |src|) && DataFull(w.disk)
    ensures if full then LogMarked(v.disk) && DiskFull(w.disk) else LogUsed(v.disk, w.disk)
  {
    hide Fills, FreeData, WriteSlots, Ref, Room, LogMarked, LogUsed, DiskFull, Grows, FsInv, LogsOnly, Written, DataLogged;
    WrittenRange(v, u, off, cur, src);
    SlotsForWrite(off, |src|, cur);
    StarvedSince(base, v, u, w, WriteSlots(off, |src|), SlotOf(cur / BSIZE), full);
    TooLittleRoom(v.disk, v.inode, w.disk, w.inode, filled + more, off, |src|, SlotOf(cur / BSIZE));
  }

  /** bytes copied to position at of block bn of the file, and the block logged. */
  ghost function Stored(w: View, bn: nat, at: nat, bytes: seq<Byte>): View {
    if bn < MAXFILE && |w.inode.addrs| == NDIRECT + 1 && Ref(w.disk, w.inode, SlotOf(bn)) < |w.disk| && at + |bytes| <= BSIZE then
      var x := Ref(w.disk, w.inode, SlotOf(bn));
      w.(disk := w.disk[x := Patch(w.disk[x], at, bytes)], logged := w.logged + {x})
    else w
  }

  /** The rest of the turn: m bytes are copied into the block and it is logged. */
  lemma ChunkStored(i: nat, base: Disk, v: View, u: View, w: View, filled: set<nat>, more: set<nat>,
                    off: nat, cur: nat, src: seq<Byte>, bytes: seq<Byte>)
    requires Progress(i, base, v, u, filled, off, cur, src)
    requires Feeds(i, u, w, more, SlotsFor(cur / BSIZE)) && OwnKept(u.disk, u.owner, w.disk)
    requires LogsOnly(base, u, w, SlotsFor(cur / BSIZE))
    requires bytes != [] && off <= cur && cur + |bytes| <= off + |src| <= MAXFILE * BSIZE && cur % BSIZE + |bytes| <= BSIZE
    requires bytes == src[cur - off..cur - off + |bytes|]
    requires |w.inode.addrs| == NDIRECT + 1 && cur / BSIZE < MAXFILE && Ref(w.disk, w.inode, SlotOf(cur / BSIZE)) != 0
    ensures Ref(w.disk, w.inode, SlotOf(cur / BSIZE)) < |w.disk|
    ensures Progress(i, base, v, Stored(w, cur / BSIZE, cur % BSIZE, bytes), filled + more, off, cur + |bytes|, src)
  {
    hide Feeds, LogsOnly, Written, Grows, OwnKept, WriteSlots, WholeWith, TableWith, DataLogged, SlotsFor, Ref, Patch;
    var slots, bn, m := WriteSlots(off, |src|), cur / BSIZE, |bytes|;
    BmapInWrite(i, base, v, u, w, filled, more, off, cur, src);
    FeedsParts(i, v, u, filled, slots);
    FeedsParts(i, u, w, more, SlotsFor(bn));
    ChunkStep(v.disk, v.inode, v.owner, u.disk, u.inode, u.owner, w.disk, w.inode, w.owner, i, off, cur, m, src);
    var x := Ref(w.disk, w.inode, SlotOf(bn));
    var z := Stored(w, bn, cur % BSIZE, bytes);
    ChunkFeeds(i, base, w, bn, Patch(w.disk[x], cur % BSIZE, bytes));
    SlotsForWrite(off, |src|, cur);
    FeedsWider(i, base, w, z, {}, SlotsFor(bn), slots);
    FeedsTrans(i, v, w, z, filled + more, {}, slots);
    assert filled + more + {} == filled + more;
    LogsTrans(i, base, v, w, z, {}, slots);
    RefsStay(i, u, w, more, SlotsFor(bn));
    RefsStay(i, w, z, {}, slots);
    LogsGrow(base, u, w, SlotsFor(bn));
    DataLoggedStep(u.disk, u.inode, z.disk, z.inode, u.logged, z.logged, off, cur, m);
  }

  lemma RefsStay(i: nat, v: View, w: View, filled: set<nat>, slots: set<nat>)
    requires Feeds(i, v, w, filled, slots)
    ensures |v.inode.addrs| == |w.inode.addrs| == NDIRECT + 1
    ensures forall k: nat :: k < SLOTS && Ref(v.disk, v.inode, k) != 0 ==> Ref(w.disk, w.inode, k) == Ref(v.disk, v.inode, k)
  {
    hide Ref, Grows, Fills, FsInv;
    NamedGrows(v.disk, TableWith(v.disk, i, v.inode), v.owner, w.disk, TableWith(w.disk, i, w.inode), w.owner, i, slots);
  }

  lemma LogsGrow(base: Disk, v: View, w: View, slots: set<nat>)
    requires LogsOnly(base, v, w, slots)
    ensures v.logged <= w.logged && (Tracked(base, v.disk, v.logged) ==> Tracked(base, w.disk, w.logged))
  {
    hide Tracked, Ref, UsedOf;
  }

  lemma StoredRoom(i: nat, base: Disk, v: View, w: View, filled: set<nat>, off: nat, src: seq<Byte>)
    requires Progress(i, base, v, w, filled, off, off + |src|, src) && off + |src| <= MAXFILE * BSIZE
    ensures Room(v.disk, v.inode, off, |src|)
  {
    hide Fills, WriteSlots, Room, Grows, FsInv, Ref, LogsOnly, DataLogged;
    EnoughRoom(v.disk, v.inode, w.disk, w.inode, filled, off, |src|);
  }

  // ---------------------------------------------------------------- what a write logs

  /** A write of len bytes at off to inode i, n when it is done, has logged every data block it copied into
      and nothing but blocks of the bitmap, blocks in the slots it needed and the block of the inode. */
  ghost predicate WriteLogs(i: nat, before: set<nat>, d: Disk, n: Inode, logged: set<nat>, off: nat, len: nat) {
    && Layout(d) && |n.addrs| == NDIRECT + 1 && DataLogged(d, n, logged, off, off + len)
    && before <= logged <= before + BitmapBlocks(d) + Named(d, n, WriteSlots(off, len)) + {IBlock(i)}
  }

  lemma StoredLogs(i: nat, base: Disk, v: View, w: View, off: nat, len: nat)
    requires LogsOnly(base, v, w, WriteSlots(off, len)) && DataLogged(w.disk, w.inode, w.logged, off, off + len)
    ensures WriteLogs(i, v.logged, w.disk, w.inode, w.logged, off, len)
  {
    hide Ref, Named, DataLogged, WriteSlots, Tracked, UsedOf;
  }

  /** The same after iupdate. */
  lemma SavedLogs(i: nat, base: Disk, v: View, u: View, w: View, off: nat, len: nat)
    requires LogsOnly(base, v, u, WriteSlots(off, len)) && DataLogged(u.disk, u.inode, u.logged, off, off + len)
    requires WholeWith(u.disk, u.owner, i, u.inode) && w.inode == u.inode.(size := w.inode.size) && IBlock(i) < |u.disk|
    requires w.disk == u.disk[IBlock(i) := Save(u.disk[IBlock(i)], i, w.inode)] && w.logged == u.logged + {IBlock(i)}
    ensures WriteLogs(i, v.logged, w.disk, w.inode, w.logged, off, len)
  {
    hide Ref, Named, WriteSlots, Tracked, UsedOf, FsInv, Save, Word;
    SavedSlots(u.disk, u.owner, i, u.inode, w.inode, w.disk);
    NamedSame(u.disk, u.inode, w.disk, w.inode, WriteSlots(off, len));
    BitmapKept(u.disk, w.disk);
  }

  /** At least the blocks touched; at most those, the bitmap, the indirect block and the inode. */
  lemma WriteLogsBounds(i: nat, before: set<nat>, d: Disk, o: map<nat, Slot>, n: Inode, logged: set<nat>, off: nat, len: nat)
    requires WriteLogs(i, before, d, n, logged, off, len)
    requires WholeWith(d, o, i, n) && NoHoles(d, n, off + len) && off + len <= MAXFILE * BSIZE
    ensures Touched(off, len) <= |logged| <= |before| + (SbSize(d) - 1) / BPB + 1 + Touched(off, len) + 2
  {
    hide Ref, WriteSlots, FsInv, NoHoles, DataLogged, WholeWith;
    LoggedAtLeast(d, o, i, n, logged, off, len);
    InBitmap(d, 0);
    var named := Named(d, n, WriteSlots(off, len));
    NamedSize(d, n, WriteSlots(off, len));
    WriteSlotsSize(off, len);
    var all := before + BitmapBlocks(d) + named + {IBlock(i)};
    SubsetSize(logged, all);
    assert |before + BitmapBlocks(d)| <= |before| + |BitmapBlocks(d)|;
    assert |before + BitmapBlocks(d) + named| <= |before + BitmapBlocks(d)| + |named|;
    assert |all| <= |before + BitmapBlocks(d) + named| + 1;
  }
}
