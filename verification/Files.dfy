/** balloc, bfree, bmap, itrunc, iupdate, readi and writei of fs.c as they run. */
module Files {
  import opened Blocks
  import opened Machine
  import opened Ownership
  import opened FileSystem
  import opened FreeBlocks

  function Min(a: int, b: int): int { if a < b then a else b }

  /** struct inode: the in-memory copy, changed in place and stored by iupdate. */
  class InCore {
    const inum: nat
    var kind: Uint
    var links: Uint
    var size: Uint
    const addrs: array<Uint>

    constructor (inum: nat, n: Inode)
      requires |n.addrs| == NDIRECT + 1
      ensures this.inum == inum && fresh(addrs) && addrs.Length == NDIRECT + 1 && Value() == n
    {
      this.inum := inum;
      kind, links, size := n.kind, n.links, n.size;
      addrs := new Uint[NDIRECT + 1](i requires 0 <= i <= NDIRECT => n.addrs[i]);
      new;
      assert addrs[..] == n.addrs;
    }

    ghost function Value(): Inode
      reads this, addrs
    {
      Inode(kind, links, size, addrs[..])
    }
  }

  lemma BitOf(base: nat, bi: nat, ninodes: nat)
    requires base % BPB == 0 && bi < BPB
    ensures BBlock(base + bi, ninodes) == BBlock(base, ninodes) && (base + bi) % BPB == bi
  {
  }

  /** The inner loop of balloc: the first clear bit of one bitmap block, or n. */
  method FirstClear(bp: Block, n: nat) returns (bi: nat)
    requires n <= BPB
    ensures bi <= n && (bi < n ==> !Bit(bp, bi)) && forall x :: 0 <= x < bi ==> Bit(bp, x)
  {
    bi := 0;
    while bi < n && Bit(bp, bi)
      invariant 0 <= bi <= n && forall x :: 0 <= x < bi ==> Bit(bp, x)
    {
      bi := bi + 1;
    }
  }

  /** What the first clear bit of a bitmap block says about the blocks it stands for. */
  lemma ClearMeans(d: Disk, base: nat, n: nat, bi: nat)
    requires Layout(d) && base % BPB == 0 && base < SbSize(d) && n == Min(BPB, SbSize(d) - base) && bi <= n
    requires BBlock(base, SbInodes(d)) < |d|
    requires var bp := d[BBlock(base, SbInodes(d))]; (bi < n ==> !Bit(bp, bi)) && forall x :: 0 <= x < bi ==> Bit(bp, x)
    ensures forall x :: base <= x < base + bi ==> UsedOf(d)[x]
    ensures bi < n ==> !UsedOf(d)[base + bi]
  {
    hide Word, Bit;
    forall x | base <= x < base + bi ensures UsedOf(d)[x] { BitOf(base, x - base, SbInodes(d)); }
    if bi < n { BitOf(base, bi, SbInodes(d)); }
  }

  // ---------------------------------------------------------------- the disk as mkfs lays it out

  /** The bitmap block that mkfs writes: the first used bits are set. */
  method MkfsBitmap(used: nat) returns (buf: Block)
    requires used < BPB
    ensures forall b: nat :: b < BPB ==> (Bit(buf, b) <==> b < used)
  {
    hide Bit, SetBit;
    buf := Zero();
    ZeroBits();
    var i := 0;
    while i < used
      invariant 0 <= i <= used && forall b: nat :: b < BPB ==> (Bit(buf, b) <==> b < i)
    {
      ghost var before := buf;
      buf := SetBit(buf, i, true);
      forall b: nat | b < BPB ensures Bit(buf, b) <==> b < i + 1 { BitSetBit(before, i, true, b); }
      i := i + 1;
    }
  }

  lemma ZeroBits()
    ensures forall b: nat :: b < BPB ==> !Bit(Zero(), b)
  {
    forall b: nat | b < BPB ensures !Bit(Zero(), b) { NoBit(b % 8); }
  }

  lemma {:induction false} NoBit(k: nat)
    ensures !NatBit(0, k)
  {
    if k > 0 { NoBit(k - 1); }
  }

  /** mkfs puts that block right behind the blocks of the inodes, and there the kernel looks for its bits. */
  lemma MkfsMarks(d: Disk, buf: Block, used: nat)
    requires Layout(d) && SbSize(d) <= BPB && SbInodes(d) / IPB + 3 < |d| && d[SbInodes(d) / IPB + 3] == buf
    requires forall b: nat :: b < BPB ==> (Bit(buf, b) <==> b < used)
    ensures forall b: nat :: b < SbSize(d) ==> (UsedOf(d)[b] <==> b < used)
    ensures forall i: nat :: i < SbInodes(d) ==> 2 <= IBlock(i) < SbInodes(d) / IPB + 3 && IBlock(i) == 2 + i / IPB
  {
    hide Bit, Word;
    forall b: nat | b < SbSize(d) ensures UsedOf(d)[b] <==> b < used {
      assert b / BPB == 0 && b % BPB == b;
      assert BBlock(b, SbInodes(d)) == SbInodes(d) / IPB + 3;
    }
  }

  /** mkfs counts bitmap blocks differently: the data blocks begin where it says unless the size is a multiple of
      the bits in a block. */
  lemma MkfsLayout(d: Disk)
    requires Layout(d)
    ensures FirstData(d) == SbInodes(d) / IPB + 3 + (SbSize(d) / BPB + 1) <==> SbSize(d) % BPB != 0
  {
    hide Word;
  }

  lemma RowIs(d: Disk, t: seq<Inode>, i: nat)
    requires i < |t| && forall j :: 0 <= j < |t| ==> |t[j].addrs| == NDIRECT + 1
    ensures forall k :: 0 <= k < SLOTS ==> RefsOf(d, t)[i][k] == Ref(d, t[i], k)
    ensures forall k :: 0 <= k <= NDIRECT ==> RefsOf(d, t)[i][k] == t[i].addrs[k]
  {
  }

  lemma BitmapRefl(d: Disk)
    requires Layout(d)
    ensures OnlyBitmap(d, d) && LogBitsKept(d, d)
  {
  }

  lemma BitmapLayout(d: Disk, d': Disk)
    requires OnlyBitmap(d, d')
    ensures Layout(d) && Layout(d') && SbInodes(d') == SbInodes(d) && |d'| == |d|
  {
  }

  /** Without an indirect block there is nothing left to free. */
  lemma WipedEmpty(refs: Refs, i: nat)
    requires i < |refs| && |refs[i]| == SLOTS && forall k :: NDIRECT <= k < SLOTS ==> refs[i][k] == 0
    ensures WipedRefs(refs, i, NDIRECT) == WipedRefs(refs, i, SLOTS)
  {
    assert Wiped(refs[i], NDIRECT) == Wiped(refs[i], SLOTS);
  }

  /** Freeing touches no indirect block. */
  lemma SameIndirect(d: Disk, o: map<nat, Slot>, i: nat, n: Inode, d': Disk)
    requires WholeWith(d, o, i, n) && OnlyBitmap(d, d') && n.addrs[NDIRECT] != 0
    ensures |d'| == |d| && n.addrs[NDIRECT] < |d| && d'[n.addrs[NDIRECT]] == d[n.addrs[NDIRECT]]
  {
    Owns(d, TableWith(d, i, n), o, i, NDIRECT);
  }

  lemma TruncatedSync(d: Disk, o: map<nat, Slot>, i: nat, n: Inode, d': Disk, o': map<nat, Slot>)
    requires Truncated(d, o, i, n, d', o')
    ensures InSync(d', o', i, Emptied(n))
  {
  }

  /** A write that stayed inside the file. */
  lemma WriteFit(d: Disk, o: map<nat, Slot>, i: nat, n: Inode, d1: Disk, o1: map<nat, Slot>, off: nat, src: seq<Byte>)
    requires InSync(d, o, i, n) && WholeWith(d1, o1, i, n) && OthersSame(d, d1, i) && Table(d1) == Table(d)
    requires off + |src| <= n.size && Written(d, n, d1, n, off, off + |src|, src)
    ensures WriteDone(d, i, n, d1, o1, n, off, src) && InSync(d1, o1, i, n)
  {
    WrittenSplices(d, n, d1, n, off, src, n);
    assert TableWith(d1, i, n) == Table(d1);
  }

  /** A write that grew the file, after iupdate. */
  lemma WriteGrew(d: Disk, o: map<nat, Slot>, i: nat, n: Inode, d1: Disk, o1: map<nat, Slot>, n1: Inode, off: nat,
                  src: seq<Byte>, d2: Disk)
    requires InSync(d, o, i, n) && WholeWith(d1, o1, i, n1) && OthersSame(d, d1, i)
    requires n.size < off + |src| < TWO32 && Written(d, n, d1, n1, off, off + |src|, src) && IBlock(i) < |d1|
    requires d2 == d1[IBlock(i) := Save(d1[IBlock(i)], i, n1.(size := off + |src|))]
    requires n1 == n.(addrs := n1.addrs)
    ensures WriteDone(d, i, n, d2, o1, n1.(size := off + |src|), off, src) && InSync(d2, o1, i, n1.(size := off + |src|))
  {
    hide FsInv, Written, Ref, Load, Save, Word, ByteAt, NoHoles, Row, RefsOf, UsedOf, FirstData;
    var n2 := n1.(size := off + |src|);
    Resized(d1, o1, i, n1, off + |src|);
    WrittenSplices(d, n, d1, n1, off, src, n2);
    SavedSync(d1, o1, i, n2, d2);
  }

  /** What bmap comes to: a block; the panic on a block number out of range; the panic of balloc; or a
      block of the log, handed out by balloc as if it were data.  The model stops there: the source goes on
      and gives the block to the file. */
  datatype Mapping = Mapped(addr: Uint) | OutOfRange | NoBlocks | LogBlock

  /** What a read or write came to. */
  datatype Outcome = ToDevice | Refused | Done(n: nat) | Panicked | TookLog

  class Volume {
    var blocks: Disk
    ghost var owner: map<nat, Slot>   // the slot that names each allocated block
    ghost const base: Disk            // the blocks when the operation began
    ghost var logged: set<nat>        // the blocks passed to log_write since then

    /** The volume as an operation finds it. */
    constructor (d: Disk, ghost o: map<nat, Slot>)
      ensures blocks == d && owner == o && base == d && logged == {}
    {
      blocks, owner := d, o;
      base, logged := d, {};
    }

    /** Every block changed has been logged. */
    ghost predicate Logs()
      reads this
    {
      Tracked(base, blocks, logged)
    }

    /** Whole, with ip's inode taken from memory. */
    ghost predicate Good(ip: InCore)
      reads this, ip, ip.addrs
    {
      ip.addrs.Length == NDIRECT + 1 && WholeWith(blocks, owner, ip.inum, ip.Value())
    }

    /** ip is locked and in step with a sound disk. */
    ghost predicate InStep(ip: InCore)
      reads this, ip, ip.addrs
    {
      ip.addrs.Length == NDIRECT + 1 && InSync(blocks, owner, ip.inum, ip.Value())
    }

    /** Allocates and zeroes the first free block; it panics exactly when no bit is clear. */
    method Balloc() returns (ok: bool, b: nat)
      requires Layout(blocks)
      modifies this`blocks, this`logged
      ensures !ok ==> blocks == old(blocks) && logged == old(logged) && DiskFull(blocks)
      ensures ok ==> logged == old(logged) + {BBlock(b, old(SbInodes(blocks))), b}
      ensures ok ==> b < old(SbSize(blocks)) && !old(UsedOf(blocks))[b] && blocks == Alloc(old(blocks), b)
      ensures ok ==> forall x :: 0 <= x < b ==> old(UsedOf(blocks))[x]
      ensures ok ==> (b >= DataEnd(old(blocks)) <==> forall x: nat :: x < DataEnd(old(blocks)) ==> old(UsedOf(blocks))[x])
    {
      hide Word, Bit, SetBit;
      var size := SbSize(blocks);
      ghost var used := UsedOf(blocks);
      var first := 0;
      while first < size
        invariant first % BPB == 0 && blocks == old(blocks) && logged == old(logged)
        invariant forall x :: 0 <= x < first && x < size ==> used[x]
      {
        BitmapInside(blocks, first);
        var bb := BBlock(first, SbInodes(blocks));
        var n := Min(BPB, size - first);
        var bi := FirstClear(blocks[bb], n);
        ClearMeans(blocks, first, n, bi);
        if bi < n {
          BitOf(first, bi, SbInodes(blocks));
          FirstClearIsLog(blocks, first + bi);
          blocks := blocks[bb := SetBit(blocks[bb], bi, true)];
          blocks := blocks[first + bi := Zero()];
          logged := logged + {bb, first + bi};
          return true, first + bi;
        }
        first := first + BPB;
      }
      ok, b := false, 0;
    }

    /** Clears the bit of b; it panics exactly when the bit is already clear. */
    method Bfree(b: nat) returns (ok: bool)
      requires Layout(blocks) && b < SbSize(blocks)
      modifies this`blocks, this`logged
      ensures ok == old(UsedOf(blocks)[b])
      ensures old(Logs()) ==> Logs()
      ensures blocks == if ok then Mark(old(blocks), b, false) else old(blocks)
    {
      BitmapInside(blocks, b);
      var bb := BBlock(b, SbInodes(blocks));
      var bp := blocks[bb];
      var bi := b % BPB;
      if !Bit(bp, bi) { return false; }
      bp := SetBit(bp, bi, false);
      if Tracked(base, blocks, logged) { StoreTracked(base, blocks, logged, bb, bp); }
      blocks := blocks[bb := bp];
      logged := logged + {bb};
      ok := true;
    }

    ghost function View(ip: InCore): FreeBlocks.View
      reads this, ip, ip.addrs
    {
      FreeBlocks.View(blocks, owner, ip.Value(), logged)
    }

    /** The disk block of block bn of the file, allocated if missing.  Blocks already mapped stay where they
        are.  It fails exactly beyond MAXFILE, or when a block is needed and no data block is free. */
    method Bmap(ip: InCore, bn: nat) returns (r: Mapping, ghost filled: set<nat>)
      requires Good(ip)
      modifies this, ip.addrs
      ensures r.OutOfRange? <==> bn >= MAXFILE
      ensures r.Mapped? ==> Ref(blocks, ip.Value(), SlotOf(bn)) == r.addr != 0
      ensures bn < MAXFILE && !r.Mapped? ==> Starves(old(View(ip)), View(ip), SlotOf(bn), r.NoBlocks?)
      ensures bn < MAXFILE && old(Ref(blocks, ip.Value(), SlotOf(bn))) != 0 ==> r.Mapped? && View(ip) == old(View(ip))
      ensures Feeds(ip.inum, old(View(ip)), View(ip), filled, SlotsFor(bn)) && OwnKept(old(blocks), old(owner), blocks)
      ensures !r.LogBlock? ==> LogsOnly(base, old(View(ip)), View(ip), SlotsFor(bn))
    {
      hide Feeds, LogsOnly, Starves, OwnKept, FsInv, Ref, TableWith;
      FeedsRefl(ip.inum, base, View(ip), SlotsFor(bn));
      NoEntries(blocks, ip.Value());
      filled := {};
      if bn < NDIRECT {
        var addr := ip.addrs[bn];
        r := Mapped(addr);
        if addr == 0 {
          r, filled := FillSlot(ip, bn);
          assert SlotsFor(bn) == {bn};
        }
        return;
      }
      if bn - NDIRECT >= NINDIRECT { return OutOfRange, {}; }
      r, filled := BmapIndirect(ip, bn - NDIRECT);
      assert SlotsFor(bn) == {bn + 1, NDIRECT};
    }

    /** The second half of bmap: entry e of the indirect block, which is allocated if missing. */
    method BmapIndirect(ip: InCore, e: nat) returns (r: Mapping, ghost filled: set<nat>)
      requires Good(ip) && e < NINDIRECT
      modifies this, ip.addrs
      ensures !r.OutOfRange?
      ensures r.Mapped? ==> Ref(blocks, ip.Value(), NDIRECT + 1 + e) == r.addr != 0
      ensures !r.Mapped? ==> Starves(old(View(ip)), View(ip), NDIRECT + 1 + e, r.NoBlocks?)
      ensures old(Ref(blocks, ip.Value(), NDIRECT + 1 + e)) != 0 ==> r.Mapped? && View(ip) == old(View(ip))
      ensures Feeds(ip.inum, old(View(ip)), View(ip), filled, {NDIRECT + 1 + e, NDIRECT})
      ensures OwnKept(old(blocks), old(owner), blocks)
      ensures !r.LogBlock? ==> LogsOnly(base, old(View(ip)), View(ip), {NDIRECT + 1 + e, NDIRECT})
    {
      hide Feeds, LogsOnly, Starves, OwnKept, FsInv, Ref, TableWith;
      ghost var v, slots := View(ip), {NDIRECT + 1 + e, NDIRECT};
      NoEntries(blocks, ip.Value());
      if ip.addrs[NDIRECT] != 0 {
        r, filled := MapEntry(ip, e);
        return;
      }
      r, filled := FillSlot(ip, NDIRECT);
      ghost var u := View(ip);
      FeedsWider(ip.inum, base, v, u, filled, {NDIRECT}, slots);
      if !r.Mapped? {
        StarvedEntry(v, u, e, r.NoBlocks?);
        return;
      }
      FeedsParts(ip.inum, v, u, filled, slots);
      NoEntries(blocks, ip.Value());
      ghost var more;
      r, more := MapEntry(ip, e);
      FeedsTrans(ip.inum, v, u, View(ip), filled, more, slots);
      if !r.LogBlock? { LogsTrans(ip.inum, base, v, u, View(ip), more, slots); }
      if !r.Mapped? { StarvedSince(base, v, u, View(ip), slots, NDIRECT + 1 + e, r.NoBlocks?); }
      filled := filled + more;
    }

    /** `ip->addrs[k] = balloc()`. */
    method FillSlot(ip: InCore, k: nat) returns (r: Mapping, ghost filled: set<nat>)
      requires Good(ip) && k <= NDIRECT && ip.addrs[k] == 0
      modifies this, ip.addrs
      ensures !r.OutOfRange?
      ensures r.Mapped? ==> Ref(blocks, ip.Value(), k) == r.addr != 0
      ensures !r.Mapped? ==> Starves(old(View(ip)), View(ip), k, r.NoBlocks?) && ip.Value() == old(ip.Value())
      ensures Feeds(ip.inum, old(View(ip)), View(ip), filled, {k}) && OwnKept(old(blocks), old(owner), blocks)
      ensures !r.LogBlock? ==> LogsOnly(base, old(View(ip)), View(ip), {k})
    {
      hide Feeds, LogsOnly, Starves, OwnKept, FsInv, Ref, TableWith, Alloc, UsedOf, Word;
      ghost var v := View(ip);
      FeedsRefl(ip.inum, base, v, {k});
      NoEntries(blocks, ip.Value());
      var end := DataEnd(blocks);
      var ok, b := Balloc();
      if !ok {
        NoneLeft(ip.inum, v, k);
        return NoBlocks, {};
      }
      if b >= end {
        LogHandedOut(ip.inum, v, b, k, {k});
        return LogBlock, {};
      }
      FillFeeds(ip.inum, base, v, k, b);
      ip.addrs[k] := b;
      owner := owner[b := Slot(ip.inum, k)];
      assert ip.Value() == v.inode.(addrs := v.inode.addrs[k := b]);
      r, filled := Mapped(b), {k};
    }

    /** The entry of the indirect block, filled by balloc if empty. */
    method MapEntry(ip: InCore, e: nat) returns (r: Mapping, ghost filled: set<nat>)
      requires Good(ip) && e < NINDIRECT && ip.addrs[NDIRECT] != 0
      modifies this
      ensures !r.OutOfRange?
      ensures r.Mapped? ==> Ref(blocks, ip.Value(), NDIRECT + 1 + e) == r.addr != 0
      ensures !r.Mapped? ==> Starves(old(View(ip)), View(ip), NDIRECT + 1 + e, r.NoBlocks?)
      ensures old(Ref(blocks, ip.Value(), NDIRECT + 1 + e)) != 0 ==> r.Mapped? && View(ip) == old(View(ip))
      ensures Feeds(ip.inum, old(View(ip)), View(ip), filled, {NDIRECT + 1 + e, NDIRECT})
      ensures OwnKept(old(blocks), old(owner), blocks)
      ensures !r.LogBlock? ==> LogsOnly(base, old(View(ip)), View(ip), {NDIRECT + 1 + e, NDIRECT})
    {
      hide Feeds, LogsOnly, Starves, OwnKept, FsInv, Ref, TableWith, Alloc, UsedOf, Word, SetWord;
      ghost var v := View(ip);
      FeedsRefl(ip.inum, base, v, {NDIRECT + 1 + e, NDIRECT});
      EntryRef(blocks, owner, ip.inum, ip.Value(), e);
      var c := ip.addrs[NDIRECT];
      var bp := blocks[c];
      var addr := Word(bp, e);
      if addr != 0 { return Mapped(addr), {}; }
      var end := DataEnd(blocks);
      var ok, b := Balloc();
      if !ok {
        NoneLeft(ip.inum, v, NDIRECT + 1 + e);
        return NoBlocks, {};
      }
      if b >= end {
        LogHandedOut(ip.inum, v, b, NDIRECT + 1 + e, {NDIRECT + 1 + e, NDIRECT});
        return LogBlock, {};
      }
      EntryFeeds(ip.inum, base, v, e, b);
      bp := SetWord(blocks[c], e, b);
      blocks := blocks[c := bp];
      logged := logged + {c};
      owner := owner[b := Slot(ip.inum, NDIRECT + 1 + e)];
      r, filled := Mapped(b), {NDIRECT + 1 + e};
    }

    /** Stores the in-memory inode in its disk slot. */
    method Iupdate(ip: InCore)
      requires Layout(blocks) && ip.inum < SbInodes(blocks) && ip.addrs.Length == NDIRECT + 1
      modifies this`blocks, this`logged
      ensures old(Logs()) ==> Logs()
      ensures logged == old(logged) + {IBlock(ip.inum)}
      ensures IBlock(ip.inum) < |old(blocks)|
      ensures blocks == old(blocks)[IBlock(ip.inum) := Save(old(blocks)[IBlock(ip.inum)], ip.inum, ip.Value())]
    {
      InodesInside(blocks, ip.inum);
      var bp := blocks[IBlock(ip.inum)];
      bp := Save(bp, ip.inum, Inode(ip.kind, ip.links, ip.size, ip.addrs[..]));
      if Tracked(base, blocks, logged) { StoreTracked(base, blocks, logged, IBlock(ip.inum), bp); }
      blocks := blocks[IBlock(ip.inum) := bp];
      logged := logged + {IBlock(ip.inum)};
    }

    /** Reads exactly the part of the file that exists in [off, off + n); nothing changes, in particular
        no block is allocated.  Refused when off is past the end or off + n wraps. */
    method Readi(ip: InCore, off: Uint, n: Uint) returns (r: Outcome, dst: seq<Byte>)
      requires InStep(ip)
      modifies this, ip.addrs
      ensures blocks == old(blocks) && owner == old(owner) && ip.Value() == old(ip.Value())
      ensures r.ToDevice? <==> FileType(ip.Value()) == T_DEV
      ensures r.Refused? <==> FileType(ip.Value()) != T_DEV && (off > ip.size || off + n >= TWO32)
      ensures !r.Panicked? && !r.TookLog? && logged == old(logged)
      ensures r.Done? ==>
        && NoHoles(blocks, ip.Value(), ip.size) && off <= ip.size && r.n == |dst|
        && dst == Contents(blocks, ip.Value())[off..Min(off + n, ip.size)]
    {
      hide FsInv, Ref, Word, ByteAt, NoHoles, Load, Sound, WholeWith, InSync, SlotOf;
      dst := [];
      SyncWhole(blocks, owner, ip.inum, ip.Value());
      if ip.kind % 65536 == T_DEV { return ToDevice, dst; }
      if off > ip.size || (off + n) % TWO32 < off { return Refused, dst; }
      var want := if off + n > ip.size then ip.size - off else n;
      ghost var c := Contents(blocks, ip.Value());
      var tot := 0;
      while tot < want
        invariant 0 <= tot <= want && off + want <= ip.size && Good(ip)
        invariant blocks == old(blocks) && owner == old(owner) && ip.Value() == old(ip.Value()) && logged == old(logged)
        invariant dst == c[off..off + tot]
      {
        var chunk := ReadChunk(ip, off + tot, want - tot);
        dst := dst + chunk;
        tot := tot + |chunk|;
      }
      r := Done(want);
    }

    /** One turn of the loop of readi. */
    method ReadChunk(ip: InCore, cur: nat, left: nat) returns (chunk: seq<Byte>)
      requires Good(ip) && NoHoles(blocks, ip.Value(), ip.size) && 0 < left && cur + left <= ip.size
      modifies this, ip.addrs
      ensures Good(ip) && View(ip) == old(View(ip))
      ensures 0 < |chunk| <= left && chunk == Contents(blocks, ip.Value())[cur..cur + |chunk|]
    {
      hide FsInv, Word, TableWith, Row, RefsOf, UsedOf, Grows, OwnKept, Feeds, LogsOnly, Starves;
      BlockBelow(cur, ip.size);
      var x, _ := Bmap(ip, cur / BSIZE);
      var m := Min(left, BSIZE - cur % BSIZE);
      SliceOfFile(blocks, ip.Value(), cur, m);
      chunk := blocks[x.addr][cur % BSIZE..cur % BSIZE + m];
    }

    /** Replaces bytes off .. off + |src| of the file by src, growing it if needed, and nothing else: the other
        files read as before and the disk inode is in step again.  It gets through exactly when there are
        free data blocks for all the slots it needs; if not, the bytes up to upto are in place, with the size
        as it was, and balloc has panicked or, unless the log is marked as used, handed out a block of it. */
    method Writei(ip: InCore, off: Uint, src: seq<Byte>) returns (r: Outcome, ghost upto: nat)
      requires InStep(ip) && |src| < TWO32
      modifies this, ip, ip.addrs
      ensures !r.TookLog? && old(Logs()) ==> Logs()
      ensures r.ToDevice? <==> FileType(old(ip.Value())) == T_DEV
      ensures r.Refused? <==> FileType(old(ip.Value())) != T_DEV && (off > old(ip.size) || off + |src| > MAXFILE * BSIZE)
      ensures r.ToDevice? || r.Refused? ==> View(ip) == old(View(ip))
      ensures !r.ToDevice? && !r.Refused? ==> (r.Done? <==> Room(old(blocks), old(ip.Value()), off, |src|))
      ensures r.Panicked? ==> LogMarked(old(blocks)) && DiskFull(blocks)
      ensures r.TookLog? ==> LogUsed(old(blocks), blocks) && DataFull(blocks)
      ensures r.Panicked? || r.TookLog? ==>
        && Good(ip) && OthersSame(old(blocks), blocks, ip.inum) && ip.size == old(ip.size)
        && upto < off + |src| && Written(old(blocks), old(ip.Value()), blocks, ip.Value(), off, upto, src)
      ensures r.Done? ==>
        r.n == |src| && InStep(ip) && WriteDone(old(blocks), ip.inum, old(ip.Value()), blocks, owner, ip.Value(), off, src)
      ensures r.Done? ==> WriteLogs(ip.inum, old(logged), blocks, ip.Value(), logged, off, |src|)
    {
      hide FsInv, Grows, Written, Ref, Word, ByteAt, NoHoles, Row, RefsOf, UsedOf, Save, Load, Sound, OthersSame, Splice;
      hide Tracked, LogsOnly, Room, LogMarked, LogUsed, DiskFull, DataFull, WriteLogs, DataLogged, WriteSlots, WriteDone, WholeWith;
      ghost var v := View(ip);
      upto := off;
      SyncWhole(v.disk, v.owner, ip.inum, v.inode);
      if ip.kind % 65536 == T_DEV { r := ToDevice; return; }
      if off > ip.size || (off + |src|) % TWO32 < off { r := Refused; return; }
      if off + |src| > MAXFILE * BSIZE { r := Refused; return; }
      r, upto := StoreAll(ip, off, src);
      ghost var u := View(ip);
      GrowsOthers(v.disk, v.owner, ip.inum, v.inode, u.disk, u.owner, u.inode);
      if !r.TookLog? { LogsGrow(base, v, u, WriteSlots(off, |src|)); }
      if !r.Done? { return; }
      if |src| > 0 && off + |src| > ip.size {
        ip.size := off + |src|;
        Iupdate(ip);
        assert ip.Value() == u.inode.(size := off + |src|);
        WriteGrew(v.disk, v.owner, ip.inum, v.inode, u.disk, u.owner, u.inode, off, src, blocks);
        SavedLogs(ip.inum, base, v, u, View(ip), off, |src|);
      } else {
        WriteFit(v.disk, v.owner, ip.inum, v.inode, u.disk, u.owner, off, src);
        StoredLogs(ip.inum, base, v, u, off, |src|);
      }
    }

    /** The copy loop of writei. */
    method StoreAll(ip: InCore, off: nat, src: seq<Byte>) returns (r: Outcome, ghost upto: nat)
      requires Good(ip) && NoHoles(blocks, ip.Value(), ip.size) && off <= ip.size && off + |src| <= MAXFILE * BSIZE
      modifies this, ip.addrs
      ensures match r
        case Done(m) => m == |src| && upto == off + |src| && DataLogged(blocks, ip.Value(), logged, off, off + |src|)
        case Panicked => upto < off + |src| && LogMarked(old(blocks)) && DiskFull(blocks)
        case TookLog => upto < off + |src| && LogUsed(old(blocks), blocks) && DataFull(blocks)
        case _ => false
      ensures r.Done? <==> Room(old(blocks), old(ip.Value()), off, |src|)
      ensures Good(ip) && Written(old(blocks), old(ip.Value()), blocks, ip.Value(), off, upto, src)
      ensures Grows(old(blocks), TableWith(old(blocks), ip.inum, old(ip.Value())), old(owner),
                    blocks, TableWith(blocks, ip.inum, ip.Value()), owner, ip.inum)
      ensures r.Done? && off + |src| <= ip.size ==> ip.Value() == old(ip.Value())
      ensures ip.Value() == old(ip.Value()).(addrs := ip.addrs[..])
      ensures !r.TookLog? ==> LogsOnly(base, old(View(ip)), View(ip), WriteSlots(off, |src|))
    {
      hide Grows, Written, FsInv, TableWith, NoHoles, Ref, Word, WholeWith;
      hide Progress, LogsOnly, Room, LogMarked, LogUsed, DiskFull, DataFull, DataLogged, WriteSlots;
      ghost var v := View(ip);
      var tot := 0;
      upto := off;
      ProgressStart(ip.inum, base, v, off, src);
      ghost var filled: set<nat> := {};
      while tot < |src|
        invariant 0 <= tot <= |src| && upto == off + tot && Good(ip) && ip.size == v.inode.size
        invariant Progress(ip.inum, base, v, View(ip), filled, off, off + tot, src)
        invariant off + tot <= ip.size ==> ip.Value() == v.inode
        invariant ip.Value() == v.inode.(addrs := ip.addrs[..])
      {
        var x, m;
        x, m, filled := StoreChunk(ip, off + tot, src[tot..], v, filled, off, src);
        if !x.Mapped? {
          return if x.NoBlocks? then Panicked else TookLog, upto;
        }
        tot := tot + m;
        upto := off + tot;
      }
      ProgressParts(ip.inum, base, v, View(ip), filled, off, off + |src|, src);
      StoredRoom(ip.inum, base, v, View(ip), filled, off, src);
      r := Done(|src|);
    }

    /** One turn of that loop: bmap, then copy up to the end of the block. */
    method StoreChunk(ip: InCore, cur: nat, rest: seq<Byte>, ghost v: FreeBlocks.View, ghost before: set<nat>,
                      ghost off: nat, ghost src: seq<Byte>) returns (r: Mapping, m: nat, ghost filled: set<nat>)
      requires Good(ip) && rest != [] && cur + |rest| <= MAXFILE * BSIZE && ip.size == v.inode.size
      requires off <= cur <= off + |src| && rest == src[cur - off..]
      requires Progress(ip.inum, base, v, View(ip), before, off, cur, src)
      requires cur <= ip.size ==> ip.Value() == v.inode
      modifies this, ip.addrs
      ensures 0 < m <= |rest| && Good(ip)
      ensures match r
        case Mapped(_) => Progress(ip.inum, base, v, View(ip), filled, off, cur + m, src)
        case NoBlocks => LogMarked(v.disk) && DiskFull(blocks) && LogsOnly(base, v, View(ip), WriteSlots(off, |src|))
        case LogBlock => LogUsed(v.disk, blocks)
        case OutOfRange => false
      ensures r.Mapped? && cur + m <= ip.size ==> ip.Value() == v.inode
      ensures !r.Mapped? ==>
        && !Room(v.disk, v.inode, off, |src|) && DataFull(blocks) && Written(v.disk, v.inode, blocks, ip.Value(), off, cur, src)
        && Grows(v.disk, TableWith(v.disk, ip.inum, v.inode), v.owner,
                 blocks, TableWith(blocks, ip.inum, ip.Value()), owner, ip.inum)
    {
      hide Grows, Written, WholeWith, TableWith, FsInv, NoHoles, OwnKept, Ref, Patch;
      hide Progress, Feeds, LogsOnly, Starves, Room, LogMarked, LogUsed, DiskFull, DataFull, DataLogged, WriteSlots, SlotsFor;
      ghost var u, i := View(ip), ip.inum;
      ProgressParts(i, base, v, u, before, off, cur, src);
      MappedBelow(v.disk, v.inode, u.disk, u.inode, off, cur, src);
      m := Min(|rest|, BSIZE - cur % BSIZE);
      BlockBelow(cur, cur + |rest|);
      ghost var more;
      r, more := Bmap(ip, cur / BSIZE);
      ghost var w := View(ip);
      filled := before + more;
      BmapInWrite(i, base, v, u, w, before, more, off, cur, src);
      if !r.Mapped? {
        FeedsParts(i, v, w, filled, WriteSlots(off, |src|));
        Starved(i, base, v, u, w, before, more, off, cur, src, r.NoBlocks?);
        return;
      }
      assert src[cur - off..cur - off + m] == rest[..m];
      ChunkStored(i, base, v, u, w, before, more, off, cur, src, rest[..m]);
      var bp := Patch(blocks[r.addr], cur % BSIZE, rest[..m]);
      blocks := blocks[r.addr := bp];
      logged := logged + {r.addr};
      assert View(ip) == Stored(w, cur / BSIZE, cur % BSIZE, rest[..m]);
      ProgressParts(i, base, v, View(ip), filled, off, cur + m, src);
    }

    /** `if(b) bfree(b)`, for the block b that slot s names in the view refs. */
    method FreeNamed(b: nat, ghost refs: Refs, ghost s: Slot) returns (ok: bool)
      requires Layout(blocks) && Whole(UsedOf(blocks), refs, FirstData(blocks), DataEnd(blocks), owner)
      requires Valid(refs, s) && At(refs, s) == b
      modifies this
      ensures old(Logs()) ==> Logs()
      ensures ok && OnlyBitmap(old(blocks), blocks) && LogBitsKept(old(blocks), blocks)
      ensures FirstData(blocks) == old(FirstData(blocks)) && DataEnd(blocks) == old(DataEnd(blocks))
      ensures Whole(UsedOf(blocks), Put(refs, s, 0), FirstData(blocks), DataEnd(blocks), owner)
    {
      hide Whole, UsedOf, Word, Put, Mark, Bit, Tracked, LogBitsKept, OnlyBitmap;
      ok := true;
      if b == 0 {
        PutSame(refs, s);
        BitmapRefl(blocks);
      } else {
        FreeStep(blocks, refs, owner, s);
        ok := Bfree(b);
        owner := owner - {b};
      }
    }

    /** The view of the truncated file after st steps is whole, and only the bitmap has changed. */
    ghost predicate Freed(d: Disk, refs: Refs, i: nat, st: nat)
      reads this
    {
      && OnlyBitmap(d, blocks) && LogBitsKept(d, blocks) && i < |refs| && |refs[i]| == SLOTS
      && FirstData(blocks) == FirstData(d) && DataEnd(blocks) == DataEnd(d)
      && Whole(UsedOf(blocks), WipedRefs(refs, i, st), FirstData(d), DataEnd(d), owner)
    }

    /** One bfree of itrunc. */
    method FreeNext(b: nat, ghost d: Disk, ghost refs: Refs, ghost i: nat, ghost st: nat) returns (ok: bool)
      requires Freed(d, refs, i, st) && st < SLOTS && refs[i][FreeOrder(st)] == b
      modifies this
      ensures ok && Freed(d, refs, i, st + 1) && (old(Logs()) ==> Logs())
    {
      hide Whole, UsedOf, Word, WipedRefs, OnlyBitmap, LogBitsKept, Tracked;
      ghost var d1 := blocks;
      WipeStep(refs, i, st);
      BitmapLayout(d, d1);
      ok := FreeNamed(b, WipedRefs(refs, i, st), Slot(i, FreeOrder(st)));
      BitmapTrans(d, d1, blocks);
    }

    /** Frees every block of the file, direct, indirect and the indirect block itself, and nothing else;
        "freeing free block" is never reached. */
    method Itrunc(ip: InCore) returns (ok: bool)
      requires InStep(ip)
      modifies this, ip, ip.addrs
      ensures ok && InStep(ip) && ip.Value() == Emptied(old(ip.Value()))
      ensures Truncated(old(blocks), old(owner), ip.inum, old(ip.Value()), blocks, owner)
      ensures old(Logs()) ==> Logs()
    {
      hide Whole, UsedOf, Word, WipedRefs, OnlyBitmap, LogBitsKept, Ref, Truncated, Sound;
      hide Save, Load, RefsOf, InSync, Layout, Tracked;
      ghost var d, o, n, inum := blocks, owner, ip.Value(), ip.inum;
      SyncWhole(d, o, inum, n);
      ghost var refs := RefsOf(d, TableWith(d, inum, n));
      WipeStart(refs, inum);
      BitmapRefl(d);
      RowIs(d, TableWith(d, inum, n), inum);
      var i := 0;
      while i < NDIRECT
        invariant 0 <= i <= NDIRECT && Freed(d, refs, inum, i)
        invariant forall k :: 0 <= k < i ==> ip.addrs[k] == 0
        invariant forall k :: i <= k <= NDIRECT ==> ip.addrs[k] == n.addrs[k]
        invariant ip.size == n.size && ip.kind == n.kind && ip.links == n.links && (old(Logs()) ==> Logs())
      {
        ok := FreeNext(ip.addrs[i], d, refs, inum, i);
        ip.addrs[i] := 0;
        i := i + 1;
      }
      ok := FreeIndirect(ip.addrs[NDIRECT], d, o, inum, n);
      ip.addrs[NDIRECT] := 0;
      ip.size := 0;
      assert ip.addrs[..] == seq(NDIRECT + 1, _ => 0);
      assert ip.Value() == Emptied(n);
      BitmapLayout(d, blocks);
      ghost var d1 := blocks;
      Iupdate(ip);
      TruncDone(d, o, inum, n, d1, owner, blocks);
      TruncatedSync(d, o, inum, n, blocks, owner);
    }

    /** The second half of itrunc: the entries of the indirect block c, then c. */
    method FreeIndirect(c: nat, ghost d: Disk, ghost o: map<nat, Slot>, ghost inum: nat, ghost n: Inode) returns (ok: bool)
      requires WholeWith(d, o, inum, n) && c == n.addrs[NDIRECT]
      requires Freed(d, RefsOf(d, TableWith(d, inum, n)), inum, NDIRECT)
      modifies this
      ensures ok && Freed(d, RefsOf(d, TableWith(d, inum, n)), inum, SLOTS) && (old(Logs()) ==> Logs())
    {
      hide Whole, UsedOf, Word, WipedRefs, OnlyBitmap, LogBitsKept, TableWith, Tracked;
      ghost var refs := RefsOf(d, TableWith(d, inum, n));
      RowIs(d, TableWith(d, inum, n), inum);
      ok := true;
      if c == 0 {
        NoEntries(d, n);
        WipedEmpty(refs, inum);
        return;
      }
      EntryRef(d, o, inum, n, 0);
      SameIndirect(d, o, inum, n, blocks);
      var j := 0;
      while j < NINDIRECT
        invariant 0 <= j <= NINDIRECT && ok && Freed(d, refs, inum, NDIRECT + j) && (old(Logs()) ==> Logs())
        invariant |blocks| == |d| && c < |d| && blocks[c] == d[c]
      {
        EntryRef(d, o, inum, n, j);
        ok := FreeNext(Word(blocks[c], j), d, refs, inum, NDIRECT + j);
        SameIndirect(d, o, inum, n, blocks);
        j := j + 1;
      }
      ok := FreeNext(c, d, refs, inum, MAXFILE);
    }
  }

  /** On a disk whose first m blocks are the ones marked, as mkfs leaves it, balloc hands out block m.  With
      every data block taken that is the first block of the log. */
  method FirstUnmarked(vol: Volume, m: nat) returns (b: nat)
    requires Layout(vol.blocks) && m < SbSize(vol.blocks)
    requires forall x: nat :: x < SbSize(vol.blocks) ==> (UsedOf(vol.blocks)[x] <==> x < m)
    modifies vol
    ensures b == m && BBlock(m, SbInodes(old(vol.blocks))) < |old(vol.blocks)| && m < |old(vol.blocks)|
    ensures vol.blocks == Alloc(old(vol.blocks), m)
  {
    hide UsedOf, Word, Alloc;
    BitmapInside(vol.blocks, m);
    ghost var used := UsedOf(vol.blocks);
    var ok;
    ok, b := vol.Balloc();
    assert ok by { assert !used[m]; }
    assert b == m by { assert !used[b] && !used[m]; }
  }
}
