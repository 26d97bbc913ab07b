/** Inodes, block allocation and file contents of fs.c, over the logical disk that the buffer
    cache and the log present: a sequence of blocks read by bread and replaced by log_write. */
module FileSystem {
  import opened Blocks
  import opened Machine
  import opened Counting
  import opened Ownership

  const NDIRECT: nat := 12
  const NINDIRECT: nat := 128
  const MAXFILE: nat := 140
  const IPB: nat := 8
  const DINODE_WORDS: nat := 16

  // ---------------------------------------------------------------- superblock and layout

  function SbSize(d: Disk): Uint requires |d| > 1 { Word(d[1], 0) }
  function SbInodes(d: Disk): Uint requires |d| > 1 { Word(d[1], 2) }
  function SbLog(d: Disk): Uint requires |d| > 1 { Word(d[1], 3) }

  function IBlock(i: nat): nat { i / IPB + 2 }
  function BBlock(b: nat, ninodes: nat): nat { b / BPB + ninodes / IPB + 3 }

  /** First block behind the bitmap. */
  function FirstData(d: Disk): nat
    requires |d| > 1 && SbSize(d) > 0
  {
    BBlock(SbSize(d) - 1, SbInodes(d)) + 1
  }

  /** First block of the log, which ends the data blocks. */
  function DataEnd(d: Disk): int
    requires |d| > 1
  {
    SbSize(d) - SbLog(d)
  }

  ghost predicate Layout(d: Disk) {
    && |d| > 1 && 0 < SbSize(d) <= |d|
    && FirstData(d) <= DataEnd(d)
  }

  predicate Used(d: Disk, b: nat)
    requires |d| > 1 && BBlock(b, SbInodes(d)) < |d|
  {
    Bit(d[BBlock(b, SbInodes(d))], b % BPB)
  }

  lemma BitmapInside(d: Disk, b: nat)
    requires Layout(d) && b < SbSize(d)
    ensures 1 < BBlock(b, SbInodes(d)) < FirstData(d) <= SbSize(d) <= |d|
  {
    assert b / BPB <= (SbSize(d) - 1) / BPB;
  }

  // ---------------------------------------------------------------- inodes

  /** struct dinode; kind is the word of type and major, links the word of minor and nlink. */
  datatype Inode = Inode(kind: Uint, links: Uint, size: Uint, addrs: seq<Uint>)

  function FileType(n: Inode): nat { n.kind % 65536 }

  const T_DEV: nat := 3

  /** The block of an inode and the index of its word w. */
  function WordOf(i: nat, w: nat): nat
    requires w < DINODE_WORDS
    ensures WordOf(i, w) < WORDS
  {
    i % IPB * DINODE_WORDS + w
  }

  function Load(b: Block, i: nat): (n: Inode)
    ensures |n.addrs| == NDIRECT + 1
  {
    Inode(Word(b, WordOf(i, 0)), Word(b, WordOf(i, 1)), Word(b, WordOf(i, 2)),
          seq(NDIRECT + 1, k requires 0 <= k <= NDIRECT => Word(b, WordOf(i, 3 + k))))
  }

  /** The words of iupdate: header fields, then addrs. */
  function InodeWord(n: Inode, w: nat): Uint
    requires |n.addrs| == NDIRECT + 1 && w < DINODE_WORDS
  {
    if w == 0 then n.kind else if w == 1 then n.links else if w == 2 then n.size else n.addrs[w - 3]
  }

  function SaveWords(b: Block, i: nat, n: Inode, k: nat): Block
    requires |n.addrs| == NDIRECT + 1 && k <= DINODE_WORDS
  {
    if k == 0 then b else SetWord(SaveWords(b, i, n, k - 1), WordOf(i, k - 1), InodeWord(n, k - 1))
  }

  function Save(b: Block, i: nat, n: Inode): Block
    requires |n.addrs| == NDIRECT + 1
  {
    SaveWords(b, i, n, DINODE_WORDS)
  }

  lemma {:induction false} SaveWordsAt(b: Block, i: nat, n: Inode, k: nat, j: nat, w: nat)
    requires |n.addrs| == NDIRECT + 1 && k <= DINODE_WORDS && w < DINODE_WORDS
    ensures Word(SaveWords(b, i, n, k), WordOf(j, w))
         == if j % IPB == i % IPB && w < k then InodeWord(n, w) else Word(b, WordOf(j, w))
  {
    if k > 0 {
      WordSetWord(SaveWords(b, i, n, k - 1), WordOf(i, k - 1), InodeWord(n, k - 1), WordOf(j, w));
      SaveWordsAt(b, i, n, k - 1, j, w);
    }
  }

  /** ilock reads back what iupdate stored, and iupdate disturbs no other inode of the block. */
  lemma LoadSave(b: Block, i: nat, n: Inode, j: nat)
    requires |n.addrs| == NDIRECT + 1
    ensures Load(Save(b, i, n), j) == if j % IPB == i % IPB then n else Load(b, j)
  {
    forall w: nat | w < DINODE_WORDS { SaveWordsAt(b, i, n, DINODE_WORDS, j, w); }
    var r := Load(Save(b, i, n), j);
    if j % IPB == i % IPB {
      forall k | 0 <= k <= NDIRECT ensures r.addrs[k] == n.addrs[k] { SaveWordsAt(b, i, n, DINODE_WORDS, j, 3 + k); }
    } else {
      forall k | 0 <= k <= NDIRECT ensures r.addrs[k] == Load(b, j).addrs[k] { SaveWordsAt(b, i, n, DINODE_WORDS, j, 3 + k); }
    }
  }

  /** All inodes as the disk has them. */
  ghost function Table(d: Disk): (t: seq<Inode>)
    requires Layout(d)
    ensures |t| == SbInodes(d)
    ensures forall i :: 0 <= i < |t| ==> |t[i].addrs| == NDIRECT + 1
  {
    seq(SbInodes(d), i requires 0 <= i < SbInodes(d) => InodesInside(d, i); Load(d[IBlock(i)], i))
  }

  lemma InodesInside(d: Disk, i: nat)
    requires Layout(d) && i < SbInodes(d)
    ensures 1 < IBlock(i) < BBlock(0, SbInodes(d)) < FirstData(d) <= |d|
  {
    BitmapInside(d, 0);
  }

  // ---------------------------------------------------------------- what an operation has logged

  /** From base to d an operation has changed only sectors it passed to log_write, and those lie behind
      the superblock and before the log. */
  ghost predicate Tracked(base: Disk, d: Disk, logged: set<nat>) {
    && |d| == |base| > 1
    && (forall s :: s in logged ==> 1 < s < DataEnd(base))
    && (forall s: nat :: s < |d| && s !in logged ==> d[s] == base[s])
  }

  /** A block is stored and passed to log_write. */
  lemma StoreTracked(base: Disk, d: Disk, logged: set<nat>, x: nat, blk: Block)
    requires Tracked(base, d, logged) && 1 < x < DataEnd(d) && x < |d|
    ensures Tracked(base, d[x := blk], logged + {x})
  {
    assert d[1] == base[1];
  }

  /** balloc logs the bitmap block and the block it zeroes. */
  lemma AllocTracked(base: Disk, d: Disk, logged: set<nat>, b: nat)
    requires Tracked(base, d, logged) && Layout(d) && FirstData(d) <= b < DataEnd(d) && b < SbSize(d)
    ensures BBlock(b, SbInodes(d)) < |d| && b < |d|
    ensures Tracked(base, Alloc(d, b), logged + {BBlock(b, SbInodes(d)), b})
  {
    hide Word, SetBit;
    BitmapInside(d, b);
    StoreTracked(base, d, logged, BBlock(b, SbInodes(d)), SetBit(d[BBlock(b, SbInodes(d))], b % BPB, true));
    StoreTracked(base, Mark(d, b, true), logged + {BBlock(b, SbInodes(d))}, b, Zero());
    assert logged + {BBlock(b, SbInodes(d))} + {b} == logged + {BBlock(b, SbInodes(d)), b};
  }

  // ---------------------------------------------------------------- references and bitmap of a disk

  const SLOTS: nat := 141

  /** The slot of the nth block of a file. */
  function SlotOf(bn: nat): nat { if bn < NDIRECT then bn else bn + 1 }

  /** The block number in slot k, 0 for none. */
  function Ref(d: Disk, n: Inode, k: nat): Uint
    requires |n.addrs| == NDIRECT + 1 && k < SLOTS
  {
    if k <= NDIRECT then n.addrs[k]
    else if n.addrs[NDIRECT] == 0 || n.addrs[NDIRECT] >= |d| then 0
    else Word(d[n.addrs[NDIRECT]], k - NDIRECT - 1)
  }

  ghost function Row(d: Disk, n: Inode): (r: seq<nat>)
    requires |n.addrs| == NDIRECT + 1
    ensures |r| == SLOTS
    ensures forall k :: 0 <= k < SLOTS ==> r[k] == Ref(d, n, k)
  {
    seq(SLOTS, k requires 0 <= k < SLOTS => Ref(d, n, k))
  }

  ghost predicate Shape(d: Disk, inodes: seq<Inode>) {
    Layout(d) && |inodes| == SbInodes(d) && forall i :: 0 <= i < |inodes| ==> |inodes[i].addrs| == NDIRECT + 1
  }

  ghost function RefsOf(d: Disk, inodes: seq<Inode>): (r: Refs)
    requires forall i :: 0 <= i < |inodes| ==> |inodes[i].addrs| == NDIRECT + 1
    ensures |r| == |inodes|
    ensures forall i :: 0 <= i < |inodes| ==> r[i] == Row(d, inodes[i])
  {
    seq(|inodes|, i requires 0 <= i < |inodes| => Row(d, inodes[i]))
  }

  ghost function UsedOf(d: Disk): (u: seq<bool>)
    requires Layout(d)
    ensures |u| == SbSize(d)
    ensures forall b :: 0 <= b < |u| ==> BBlock(b, SbInodes(d)) < |d| && u[b] == Used(d, b)
  {
    BitmapsInside(d);
    seq(SbSize(d), b requires 0 <= b < SbSize(d) => Used(d, b))
  }

  lemma BitmapsInside(d: Disk)
    requires Layout(d)
    ensures forall b: nat :: b < SbSize(d) ==> 1 < BBlock(b, SbInodes(d)) < FirstData(d) <= |d|
  {
    forall b: nat | b < SbSize(d) ensures 1 < BBlock(b, SbInodes(d)) < FirstData(d) <= |d| { BitmapInside(d, b); }
  }

  /** The bits of the log blocks are as they were. */
  ghost predicate LogBitsKept(d: Disk, d': Disk) {
    && Layout(d) && Layout(d') && SbSize(d') == SbSize(d) && DataEnd(d') == DataEnd(d)
    && forall b: nat :: DataEnd(d) <= b < SbSize(d) ==> UsedOf(d')[b] == UsedOf(d)[b]
  }

  /** The file system is whole: no block shared, none lost, the bitmap exact. */
  ghost predicate FsInv(d: Disk, inodes: seq<Inode>, owner: map<nat, Slot>) {
    Shape(d, inodes) && Whole(UsedOf(d), RefsOf(d, inodes), FirstData(d), DataEnd(d), owner)
  }

  /** `bp->data[bi/8] |= m` or `&= ~m`. */
  function Mark(d: Disk, b: nat, on: bool): Disk
    requires |d| > 1 && BBlock(b, SbInodes(d)) < |d|
  {
    d[BBlock(b, SbInodes(d)) := SetBit(d[BBlock(b, SbInodes(d))], b % BPB, on)]
  }

  lemma MarkUsed(d: Disk, b: nat, on: bool)
    requires Layout(d) && b < SbSize(d)
    ensures BBlock(b, SbInodes(d)) < |d|
    ensures var d' := Mark(d, b, on);
      && Layout(d') && |d'| == |d| && d'[1] == d[1] && UsedOf(d') == UsedOf(d)[b := on] && Table(d') == Table(d)
      && (forall x: nat :: FirstData(d) <= x < |d| ==> d'[x] == d[x])
  {
    hide Word, SetWord;
    BitmapInside(d, b);
    var d' := Mark(d, b, on);
    assert Layout(d');
    forall x: nat | x < SbSize(d) ensures UsedOf(d')[x] == if x == b then on else UsedOf(d)[x] {
      BitmapInside(d, x);
      if BBlock(x, SbInodes(d)) == BBlock(b, SbInodes(d)) {
        BitSetBit(d[BBlock(b, SbInodes(d))], b % BPB, on, x % BPB);
      }
    }
    forall i | 0 <= i < SbInodes(d) ensures Table(d')[i] == Table(d)[i] { InodesInside(d, i); }
  }

  lemma DataUsed(d: Disk, x: nat, blk: Block)
    requires Layout(d) && FirstData(d) <= x < |d|
    ensures var d' := d[x := blk];
      Layout(d') && d'[1] == d[1] && UsedOf(d') == UsedOf(d) && Table(d') == Table(d)
  {
    var d' := d[x := blk];
    BitmapInside(d, 0);
    assert Layout(d');
    forall y: nat | y < SbSize(d) ensures UsedOf(d')[y] == UsedOf(d)[y] { BitmapInside(d, y); }
    forall i | 0 <= i < SbInodes(d) ensures Table(d')[i] == Table(d)[i] { InodesInside(d, i); }
  }

  /** Slots depend on the inode and its indirect block only. */
  lemma RefsKept(d: Disk, d': Disk, inodes: seq<Inode>)
    requires |d'| == |d| && forall i :: 0 <= i < |inodes| ==> |inodes[i].addrs| == NDIRECT + 1
    requires forall i :: 0 <= i < |inodes| ==>
      var c := inodes[i].addrs[NDIRECT]; c == 0 || c >= |d| || d'[c] == d[c]
    ensures RefsOf(d', inodes) == RefsOf(d, inodes)
  {
    forall i | 0 <= i < |inodes| ensures Row(d', inodes[i]) == Row(d, inodes[i]) {
      assert forall k :: 0 <= k < SLOTS ==> Ref(d', inodes[i], k) == Ref(d, inodes[i], k);
    }
  }

  /** `ip->addrs[k] = b`, where for the indirect slot b is a zeroed block. */
  lemma DirectPut(d: Disk, inodes: seq<Inode>, i: nat, k: nat, b: Uint)
    requires i < |inodes| && k <= NDIRECT && forall j :: 0 <= j < |inodes| ==> |inodes[j].addrs| == NDIRECT + 1
    requires k == NDIRECT ==> inodes[i].addrs[k] == 0 && (b == 0 || (b < |d| && d[b] == Zero()))
    ensures RefsOf(d, inodes[i := inodes[i].(addrs := inodes[i].addrs[k := b])]) == Put(RefsOf(d, inodes), Slot(i, k), b)
  {
    var n, n' := inodes[i], inodes[i].(addrs := inodes[i].addrs[k := b]);
    ZeroWords();
    assert Row(d, n') == Row(d, n)[k := b];
  }

  /** `a[e] = b` in the indirect block c. */
  function SetEntry(d: Disk, c: nat, e: nat, b: Uint): (d': Disk)
    requires c < |d| && e < NINDIRECT
    ensures |d'| == |d|
  {
    d[c := SetWord(d[c], e, b)]
  }

  lemma EntryPut(d: Disk, inodes: seq<Inode>, i: nat, e: nat, b: Uint)
    requires i < |inodes| && e < NINDIRECT && forall j :: 0 <= j < |inodes| ==> |inodes[j].addrs| == NDIRECT + 1
    requires var c := inodes[i].addrs[NDIRECT];
      0 < c < |d| && forall j :: 0 <= j < |inodes| && j != i ==> inodes[j].addrs[NDIRECT] != c
    ensures RefsOf(SetEntry(d, inodes[i].addrs[NDIRECT], e, b), inodes) == Put(RefsOf(d, inodes), Slot(i, NDIRECT + 1 + e), b)
  {
    var c := inodes[i].addrs[NDIRECT];
    var d' := SetEntry(d, c, e, b);
    forall k | 0 <= k < SLOTS ensures Row(d', inodes[i])[k] == Row(d, inodes[i])[NDIRECT + 1 + e := b][k] {
      if k > NDIRECT { WordSetWord(d[c], e, b, k - NDIRECT - 1); }
    }
    assert Row(d', inodes[i]) == Row(d, inodes[i])[NDIRECT + 1 + e := b];
    forall j | 0 <= j < |inodes| && j != i ensures Row(d', inodes[j]) == Row(d, inodes[j]) {
      assert forall k :: 0 <= k < SLOTS ==> Ref(d', inodes[j], k) == Ref(d, inodes[j], k);
    }
  }

  lemma EntryUsed(d: Disk, c: nat, e: nat, b: Uint)
    requires Layout(d) && FirstData(d) <= c < |d| && e < NINDIRECT
    ensures var d' := SetEntry(d, c, e, b);
      Layout(d') && d'[1] == d[1] && UsedOf(d') == UsedOf(d) && Table(d') == Table(d)
  {
    DataUsed(d, c, SetWord(d[c], e, b));
  }

  // ---------------------------------------------------------------- allocating, storing, freeing

  /** Slot k of inode i names b only if i owns b; in particular indirect blocks are not free. */
  lemma Owns(d: Disk, inodes: seq<Inode>, owner: map<nat, Slot>, i: nat, k: nat)
    requires FsInv(d, inodes, owner) && i < |inodes| && k < SLOTS
    ensures var b := Ref(d, inodes[i], k);
      b != 0 ==> b in owner && owner[b] == Slot(i, k) && FirstData(d) <= b < DataEnd(d) <= SbSize(d) <= |d| && UsedOf(d)[b]
  {
    assert At(RefsOf(d, inodes), Slot(i, k)) == Ref(d, inodes[i], k);
  }

  lemma WholeAs(d: Disk, d': Disk, inodes: seq<Inode>, used: seq<bool>, refs: Refs, owner: map<nat, Slot>)
    requires Layout(d) && Shape(d', inodes) && d'[1] == d[1]
    requires UsedOf(d') == used && RefsOf(d', inodes) == refs && Whole(used, refs, FirstData(d), DataEnd(d), owner)
    ensures FsInv(d', inodes, owner)
  {
  }

  /** A block that is not marked has no owner; it is not one of the metadata. */
  lemma Unowned(d: Disk, inodes: seq<Inode>, owner: map<nat, Slot>, b: nat)
    requires FsInv(d, inodes, owner) && b < SbSize(d) && !UsedOf(d)[b]
    ensures b !in owner && FirstData(d) <= b
  {
    hide UsedOf, RefsOf, Word;
  }

  /** balloc once it has chosen b: mark it and zero it. */
  function Alloc(d: Disk, b: nat): Disk
    requires |d| > 1 && BBlock(b, SbInodes(d)) < |d| && b < |d|
  {
    Mark(d, b, true)[b := Zero()]
  }

  lemma AllocView(d: Disk, inodes: seq<Inode>, owner: map<nat, Slot>, b: nat)
    requires FsInv(d, inodes, owner) && b < SbSize(d) && !UsedOf(d)[b]
    ensures b !in owner && FirstData(d) <= b
    ensures var d' := Alloc(d, b);
      && Layout(d') && |d'| == |d| && d'[1] == d[1] && Table(d') == Table(d) && d'[b] == Zero()
      && UsedOf(d') == UsedOf(d)[b := true] && RefsOf(d', inodes) == RefsOf(d, inodes)
      && (forall x: nat :: FirstData(d) <= x < |d| && x != b ==> d'[x] == d[x])
  {
    hide Word, SetWord, Whole, UsedOf, Bit, SetBit, Load;
    Unowned(d, inodes, owner, b);
    MarkUsed(d, b, true);
    DataUsed(Mark(d, b, true), b, Zero());
    forall i | 0 <= i < |inodes|
      ensures var c := inodes[i].addrs[NDIRECT]; c == 0 || c >= |d| || Alloc(d, b)[c] == d[c]
    {
      Owns(d, inodes, owner, i, NDIRECT);
    }
    RefsKept(d, Alloc(d, b), inodes);
  }

  /** `ip->addrs[k] = balloc()` for an empty k. */
  lemma AllocDirect(d: Disk, inodes: seq<Inode>, owner: map<nat, Slot>, i: nat, k: nat, b: nat)
    requires FsInv(d, inodes, owner) && b < DataEnd(d) && !UsedOf(d)[b]
    requires i < |inodes| && k <= NDIRECT && inodes[i].addrs[k] == 0
    ensures b !in owner
    ensures var inodes' := inodes[i := inodes[i].(addrs := inodes[i].addrs[k := b])];
      && FsInv(Alloc(d, b), inodes', owner[b := Slot(i, k)])
      && RefsOf(Alloc(d, b), inodes') == Put(RefsOf(d, inodes), Slot(i, k), b)
  {
    hide Whole, Word, SetWord, UsedOf, Mark;
    AllocView(d, inodes, owner, b);
    DirectPut(Alloc(d, b), inodes, i, k, b);
    assert At(RefsOf(d, inodes), Slot(i, k)) == 0;
    FillWhole(UsedOf(d), RefsOf(d, inodes), FirstData(d), DataEnd(d), owner, Slot(i, k), b);
  }

  /** `a[e] = balloc()` for an empty entry of the indirect block. */
  lemma AllocEntry(d: Disk, inodes: seq<Inode>, owner: map<nat, Slot>, i: nat, e: nat, b: nat)
    requires FsInv(d, inodes, owner) && b < DataEnd(d) && !UsedOf(d)[b]
    requires i < |inodes| && e < NINDIRECT && inodes[i].addrs[NDIRECT] != 0 && Ref(d, inodes[i], NDIRECT + 1 + e) == 0
    ensures b !in owner && inodes[i].addrs[NDIRECT] < |d|
    ensures var d' := SetEntry(Alloc(d, b), inodes[i].addrs[NDIRECT], e, b);
      && FsInv(d', inodes, owner[b := Slot(i, NDIRECT + 1 + e)]) && Table(d') == Table(d) && d'[1] == d[1]
      && RefsOf(d', inodes) == Put(RefsOf(d, inodes), Slot(i, NDIRECT + 1 + e), b)
  {
    AllocView(d, inodes, owner, b);
    Owns(d, inodes, owner, i, NDIRECT);
    var c := inodes[i].addrs[NDIRECT];
    forall j | 0 <= j < |inodes| && j != i ensures inodes[j].addrs[NDIRECT] != c { Owns(d, inodes, owner, j, NDIRECT); }
    EntryUsed(Alloc(d, b), c, e, b);
    EntryPut(Alloc(d, b), inodes, i, e, b);
    assert At(RefsOf(d, inodes), Slot(i, NDIRECT + 1 + e)) == 0;
    FillWhole(UsedOf(d), RefsOf(d, inodes), FirstData(d), DataEnd(d), owner, Slot(i, NDIRECT + 1 + e), b);
    WholeAs(d, SetEntry(Alloc(d, b), c, e, b), inodes, UsedOf(d)[b := true],
            Put(RefsOf(d, inodes), Slot(i, NDIRECT + 1 + e), b), owner[b := Slot(i, NDIRECT + 1 + e)]);
  }

  /** Storing into a data block moves no reference. */
  lemma StoreData(d: Disk, inodes: seq<Inode>, owner: map<nat, Slot>, x: nat, blk: Block)
    requires FsInv(d, inodes, owner) && x in owner && owner[x].k != NDIRECT
    ensures FirstData(d) <= x < |d| && FsInv(d[x := blk], inodes, owner) && d[x := blk][1] == d[1]
    ensures RefsOf(d[x := blk], inodes) == RefsOf(d, inodes) && Table(d[x := blk]) == Table(d)
  {
    hide Word, UsedOf, SetWord, Whole, RefsOf;
    OwnedData(d, inodes, owner, x);
    DataUsed(d, x, blk);
    forall i | 0 <= i < |inodes|
      ensures var c := inodes[i].addrs[NDIRECT]; c == 0 || c >= |d| || d[x := blk][c] == d[c]
    {
      Owns(d, inodes, owner, i, NDIRECT);
    }
    RefsKept(d, d[x := blk], inodes);
    WholeAs(d, d[x := blk], inodes, UsedOf(d), RefsOf(d, inodes), owner);
  }

  lemma OwnedData(d: Disk, inodes: seq<Inode>, owner: map<nat, Slot>, x: nat)
    requires FsInv(d, inodes, owner) && x in owner
    ensures FirstData(d) <= x < DataEnd(d) <= SbSize(d) <= |d|
  {
    hide Word, UsedOf, Ref;
  }

  // ---------------------------------------------------------------- file contents

  /** Byte p of the file with inode n. */
  function ByteAt(d: Disk, n: Inode, p: nat): Byte
    requires |n.addrs| == NDIRECT + 1 && p < MAXFILE * BSIZE && Ref(d, n, SlotOf(p / BSIZE)) < |d|
  {
    d[Ref(d, n, SlotOf(p / BSIZE))][p % BSIZE]
  }

  /** Every block below the extent is allocated. */
  ghost predicate NoHoles(d: Disk, n: Inode, extent: nat) {
    && |n.addrs| == NDIRECT + 1 && extent <= MAXFILE * BSIZE
    && forall bn: nat :: bn < MAXFILE && bn * BSIZE < extent ==> 0 < Ref(d, n, SlotOf(bn)) < |d|
  }

  /** The file as the plain byte sequence it stands for. */
  ghost function Contents(d: Disk, n: Inode): (c: seq<Byte>)
    requires NoHoles(d, n, n.size)
    ensures |c| == n.size
    ensures forall p :: 0 <= p < n.size ==> Ref(d, n, SlotOf(p / BSIZE)) < |d| && c[p] == ByteAt(d, n, p)
  {
    seq(n.size, p requires 0 <= p < n.size => BlockBelow(p, n.size); ByteAt(d, n, p))
  }

  lemma BlockBelow(p: nat, extent: nat)
    requires p < extent <= MAXFILE * BSIZE
    ensures p / BSIZE < MAXFILE && p / BSIZE * BSIZE < extent
  {
  }

  /** The whole disk: every inode in place, no holes, nothing shared or lost. */
  ghost predicate Sound(d: Disk, owner: map<nat, Slot>) {
    && Layout(d) && FsInv(d, Table(d), owner)
    && forall i :: 0 <= i < SbInodes(d) ==> NoHoles(d, Table(d)[i], Table(d)[i].size)
  }

  /** A disk with free inodes only is sound if and only if its metadata blocks are marked and its data
      blocks are not, whatever its log blocks are. */
  lemma EmptySound(d: Disk)
    requires Layout(d)
    requires forall i :: 0 <= i < SbInodes(d) ==> Table(d)[i].size == 0 && forall k :: 0 <= k <= NDIRECT ==> Table(d)[i].addrs[k] == 0
    ensures Sound(d, map[]) <==> forall b: nat :: b < DataEnd(d) ==> (UsedOf(d)[b] <==> b < FirstData(d))
  {
    hide UsedOf, Word, Load;
    forall i, k | 0 <= i < SbInodes(d) && 0 <= k < SLOTS ensures Ref(d, Table(d)[i], k) == 0 {
    }
  }

  /** mkfs marks the blocks below m, and leaves the log unmarked.  Such a disk is sound with these owners if
      and only if they own exactly the data blocks below m, each slot its own, and no file has a hole. */
  lemma PrefixSound(d: Disk, o: map<nat, Slot>, m: nat)
    requires Layout(d) && FirstData(d) <= m <= DataEnd(d)
    requires forall b: nat :: b < SbSize(d) ==> (UsedOf(d)[b] <==> b < m)
    ensures Sound(d, o) <==>
      && (forall b: nat :: b in o <==> FirstData(d) <= b < m)
      && Inverse(RefsOf(d, Table(d)), o)
      && (forall i :: 0 <= i < SbInodes(d) ==> NoHoles(d, Table(d)[i], Table(d)[i].size))
  {
    hide UsedOf, Word, Load, NoHoles, RefsOf, Row;
  }

  // ---------------------------------------------------------------- growing a file

  /** From (d, inodes, owner) to the primed state inode i may have gained blocks; no slot was emptied
      or moved, no other inode changed, and no data block changed except perhaps those of i. */
  ghost predicate Grows(d: Disk, inodes: seq<Inode>, owner: map<nat, Slot>, d': Disk, inodes': seq<Inode>,
                        owner': map<nat, Slot>, i: nat) {
    && Shape(d, inodes) && Shape(d', inodes') && i < |inodes|
    && |d'| == |d| && d'[1] == d[1] && Table(d') == Table(d)
    && inodes' == inodes[i := inodes[i].(addrs := inodes'[i].addrs)]
    && (forall s: Slot :: Valid(RefsOf(d, inodes), s) && (s.inum != i || At(RefsOf(d, inodes), s) != 0) ==>
          Valid(RefsOf(d', inodes'), s) && At(RefsOf(d', inodes'), s) == At(RefsOf(d, inodes), s))
    && (forall x: nat :: x in owner ==> x in owner' && owner'[x] == owner[x])
    && (forall x: nat :: x in owner && x < |d| && owner[x].inum != i && owner[x].k != NDIRECT ==> d'[x] == d[x])
  }

  lemma GrowsTrans(d: Disk, inodes: seq<Inode>, owner: map<nat, Slot>, d1: Disk, inodes1: seq<Inode>, owner1: map<nat, Slot>,
                   d2: Disk, inodes2: seq<Inode>, owner2: map<nat, Slot>, i: nat)
    requires Grows(d, inodes, owner, d1, inodes1, owner1, i) && Grows(d1, inodes1, owner1, d2, inodes2, owner2, i)
    ensures Grows(d, inodes, owner, d2, inodes2, owner2, i)
  {
  }

  /** Every own data block kept too. */
  ghost predicate OwnKept(d: Disk, owner: map<nat, Slot>, d': Disk) {
    |d'| == |d| && forall x: nat :: x in owner && x < |d| && owner[x].k != NDIRECT ==> d'[x] == d[x]
  }

  lemma KeptTrans(d: Disk, inodes: seq<Inode>, owner: map<nat, Slot>, d1: Disk, inodes1: seq<Inode>,
                  owner1: map<nat, Slot>, d2: Disk, i: nat)
    requires Grows(d, inodes, owner, d1, inodes1, owner1, i) && OwnKept(d, owner, d1) && OwnKept(d1, owner1, d2)
    ensures OwnKept(d, owner, d2)
  {
  }

  lemma PutGrows(d: Disk, inodes: seq<Inode>, owner: map<nat, Slot>, d': Disk, inodes': seq<Inode>, s: Slot, b: nat)
    requires Shape(d, inodes) && Shape(d', inodes') && |d'| == |d| && d'[1] == d[1] && Table(d') == Table(d)
    requires Valid(RefsOf(d, inodes), s) && At(RefsOf(d, inodes), s) == 0 && b !in owner
    requires RefsOf(d', inodes') == Put(RefsOf(d, inodes), s, b)
    requires inodes' == inodes[s.inum := inodes[s.inum].(addrs := inodes'[s.inum].addrs)]
    requires OwnKept(d, owner, d')
    ensures Grows(d, inodes, owner, d', inodes', owner[b := s], s.inum)
  {
  }

  lemma DirectGrows(d: Disk, inodes: seq<Inode>, owner: map<nat, Slot>, i: nat, k: nat, b: nat)
    requires FsInv(d, inodes, owner) && b < DataEnd(d) && !UsedOf(d)[b]
    requires i < |inodes| && k <= NDIRECT && inodes[i].addrs[k] == 0
    ensures var inodes' := inodes[i := inodes[i].(addrs := inodes[i].addrs[k := b])];
      && FsInv(Alloc(d, b), inodes', owner[b := Slot(i, k)])
      && Ref(Alloc(d, b), inodes'[i], k) == b != 0
      && Grows(d, inodes, owner, Alloc(d, b), inodes', owner[b := Slot(i, k)], i)
      && OwnKept(d, owner, Alloc(d, b))
      && (forall l :: 0 <= l < SLOTS && l != k ==> Ref(Alloc(d, b), inodes'[i], l) == Ref(d, inodes[i], l))
  {
    var d' := Alloc(d, b);
    var inodes' := inodes[i := inodes[i].(addrs := inodes[i].addrs[k := b])];
    AllocView(d, inodes, owner, b);
    AllocDirect(d, inodes, owner, i, k, b);
    OwnedAreData(d, inodes, owner);
    assert At(RefsOf(d, inodes), Slot(i, k)) == 0;
    PutGrows(d, inodes, owner, d', inodes', Slot(i, k), b);
    PutRow(d, inodes, d', inodes', Slot(i, k), b);
  }

  lemma OwnedAreData(d: Disk, inodes: seq<Inode>, owner: map<nat, Slot>)
    requires FsInv(d, inodes, owner)
    ensures forall x: nat :: x in owner ==> FirstData(d) <= x < DataEnd(d)
  {
  }

  lemma PutRow(d: Disk, inodes: seq<Inode>, d': Disk, inodes': seq<Inode>, s: Slot, b: nat)
    requires Shape(d, inodes) && Shape(d', inodes') && Valid(RefsOf(d, inodes), s)
    requires RefsOf(d', inodes') == Put(RefsOf(d, inodes), s, b)
    ensures forall l :: 0 <= l < SLOTS ==> Ref(d', inodes'[s.inum], l) == if l == s.k then b else Ref(d, inodes[s.inum], l)
  {
    forall l | 0 <= l < SLOTS ensures Ref(d', inodes'[s.inum], l) == if l == s.k then b else Ref(d, inodes[s.inum], l) {
      assert RefsOf(d', inodes')[s.inum][l] == if l == s.k then b else RefsOf(d, inodes)[s.inum][l];
    }
  }

  lemma EntryGrows(d: Disk, inodes: seq<Inode>, owner: map<nat, Slot>, i: nat, e: nat, b: nat)
    requires FsInv(d, inodes, owner) && b < DataEnd(d) && !UsedOf(d)[b]
    requires i < |inodes| && e < NINDIRECT && inodes[i].addrs[NDIRECT] != 0 && Ref(d, inodes[i], NDIRECT + 1 + e) == 0
    ensures inodes[i].addrs[NDIRECT] < |d|
    ensures var d' := SetEntry(Alloc(d, b), inodes[i].addrs[NDIRECT], e, b);
      && FsInv(d', inodes, owner[b := Slot(i, NDIRECT + 1 + e)])
      && Ref(d', inodes[i], NDIRECT + 1 + e) == b != 0
      && Grows(d, inodes, owner, d', inodes, owner[b := Slot(i, NDIRECT + 1 + e)], i)
      && OwnKept(d, owner, d')
  {
    hide Whole, Word, Grows, SetWord, Alloc, UsedOf;
    var s := Slot(i, NDIRECT + 1 + e);
    AllocView(d, inodes, owner, b);
    AllocEntry(d, inodes, owner, i, e, b);
    Owns(d, inodes, owner, i, NDIRECT);
    OwnedAreData(d, inodes, owner);
    var d' := SetEntry(Alloc(d, b), inodes[i].addrs[NDIRECT], e, b);
    assert At(RefsOf(d, inodes), s) == 0;
    assert inodes == inodes[i := inodes[i].(addrs := inodes[i].addrs)];
    PutGrows(d, inodes, owner, d', inodes, s, b);
    PutRow(d, inodes, d', inodes, s, b);
  }

  // ---------------------------------------------------------------- storing bytes

  /** `memmove(bp->data + r, src, |src|)`. */
  function Patch(b: Block, r: nat, src: seq<Byte>): Block
    requires r + |src| <= BSIZE
  {
    b[..r] + src + b[r + |src|..]
  }

  /** The data block under byte p is owned by i through that slot only. */
  lemma DataOwned(d: Disk, inodes: seq<Inode>, owner: map<nat, Slot>, i: nat, bn: nat)
    requires FsInv(d, inodes, owner) && i < |inodes| && bn < MAXFILE
    ensures var x := Ref(d, inodes[i], SlotOf(bn));
      x != 0 ==> x in owner && owner[x] == Slot(i, SlotOf(bn)) && SlotOf(bn) != NDIRECT && x < |d|
  {
    Owns(d, inodes, owner, i, SlotOf(bn));
  }

  lemma ChunkAt(d: Disk, inodes: seq<Inode>, owner: map<nat, Slot>, i: nat, off: nat, src: seq<Byte>, p: nat)
    requires FsInv(d, inodes, owner) && i < |inodes| && off < MAXFILE * BSIZE
    requires off % BSIZE + |src| <= BSIZE && p < MAXFILE * BSIZE
    requires Ref(d, inodes[i], SlotOf(off / BSIZE)) != 0 && Ref(d, inodes[i], SlotOf(p / BSIZE)) != 0
    ensures var x := Ref(d, inodes[i], SlotOf(off / BSIZE));
      && x < |d| && Ref(d, inodes[i], SlotOf(p / BSIZE)) < |d|
      && d[x := Patch(d[x], off % BSIZE, src)][Ref(d, inodes[i], SlotOf(p / BSIZE))][p % BSIZE]
         == if off <= p < off + |src| then src[p - off] else ByteAt(d, inodes[i], p)
  {
    hide FsInv, Ref, Word;
    DataOwned(d, inodes, owner, i, off / BSIZE);
    DataOwned(d, inodes, owner, i, p / BSIZE);
  }

  lemma ChunkStore(d: Disk, inodes: seq<Inode>, owner: map<nat, Slot>, i: nat, off: nat, src: seq<Byte>)
    requires FsInv(d, inodes, owner) && i < |inodes| && off < MAXFILE * BSIZE && off % BSIZE + |src| <= BSIZE
    requires Ref(d, inodes[i], SlotOf(off / BSIZE)) != 0
    ensures var x := Ref(d, inodes[i], SlotOf(off / BSIZE));
      && x < |d|
      && var d' := d[x := Patch(d[x], off % BSIZE, src)];
         && FsInv(d', inodes, owner) && Grows(d, inodes, owner, d', inodes, owner, i)
         && (forall k :: 0 <= k < SLOTS ==> Ref(d', inodes[i], k) == Ref(d, inodes[i], k))
         && (forall p: nat :: p < MAXFILE * BSIZE && Ref(d, inodes[i], SlotOf(p / BSIZE)) != 0 ==>
               Ref(d, inodes[i], SlotOf(p / BSIZE)) < |d|
               && ByteAt(d', inodes[i], p) == if off <= p < off + |src| then src[p - off] else ByteAt(d, inodes[i], p))
  {
    hide Whole, Ref, Word, UsedOf, Patch;
    DataOwned(d, inodes, owner, i, off / BSIZE);
    var x := Ref(d, inodes[i], SlotOf(off / BSIZE));
    var d' := d[x := Patch(d[x], off % BSIZE, src)];
    StoreData(d, inodes, owner, x, d'[x]);
    forall k | 0 <= k < SLOTS ensures Ref(d', inodes[i], k) == Ref(d, inodes[i], k) {
      assert RefsOf(d', inodes)[i][k] == RefsOf(d, inodes)[i][k];
    }
    forall p: nat | p < MAXFILE * BSIZE && Ref(d, inodes[i], SlotOf(p / BSIZE)) != 0
      ensures Ref(d, inodes[i], SlotOf(p / BSIZE)) < |d|
           && ByteAt(d', inodes[i], p) == if off <= p < off + |src| then src[p - off] else ByteAt(d, inodes[i], p)
    {
      ChunkAt(d, inodes, owner, i, off, src, p);
    }
    assert inodes == inodes[i := inodes[i].(addrs := inodes[i].addrs)];
  }

  function Max(a: nat, b: nat): nat { if a >= b then a else b }

  /** After the bytes up to cur have been stored: they are in the file, the rest of it is as before. */
  ghost predicate Written(d0: Disk, n0: Inode, d: Disk, n: Inode, off: nat, cur: nat, src: seq<Byte>) {
    && off <= cur <= off + |src| && off <= n0.size
    && NoHoles(d0, n0, n0.size) && NoHoles(d, n, Max(n0.size, cur))
    && forall p: nat :: p < Max(n0.size, cur) ==>
         && Ref(d, n, SlotOf(p / BSIZE)) < |d|
         && (p < n0.size ==> Ref(d0, n0, SlotOf(p / BSIZE)) < |d0|)
         && ByteAt(d, n, p) == if off <= p < cur then src[p - off] else ByteAt(d0, n0, p)
  }

  /** Inside the old file every block is already mapped. */
  lemma MappedBelow(d0: Disk, n0: Inode, d: Disk, n: Inode, off: nat, cur: nat, src: seq<Byte>)
    requires Written(d0, n0, d, n, off, cur, src)
    ensures |n0.addrs| == NDIRECT + 1 && |n.addrs| == NDIRECT + 1
    ensures cur < n0.size ==> cur / BSIZE < MAXFILE && Ref(d, n, SlotOf(cur / BSIZE)) != 0
  {
    if cur < n0.size { BlockBelow(cur, n0.size); }
  }

  lemma WrittenGrown(d0: Disk, n0: Inode, d: Disk, inodes: seq<Inode>, owner: map<nat, Slot>,
                     d': Disk, inodes': seq<Inode>, owner': map<nat, Slot>, i: nat, off: nat, cur: nat, src: seq<Byte>)
    requires i < |inodes| && Written(d0, n0, d, inodes[i], off, cur, src) && FsInv(d, inodes, owner)
    requires Grows(d, inodes, owner, d', inodes', owner', i) && OwnKept(d, owner, d')
    ensures Written(d0, n0, d', inodes'[i], off, cur, src)
  {
    forall bn: nat | bn < MAXFILE && bn * BSIZE < Max(n0.size, cur)
      ensures Ref(d', inodes'[i], SlotOf(bn)) == Ref(d, inodes[i], SlotOf(bn)) != 0
      ensures Ref(d, inodes[i], SlotOf(bn)) < |d| && d'[Ref(d, inodes[i], SlotOf(bn))] == d[Ref(d, inodes[i], SlotOf(bn))]
    {
      DataOwned(d, inodes, owner, i, bn);
      assert At(RefsOf(d', inodes'), Slot(i, SlotOf(bn))) == At(RefsOf(d, inodes), Slot(i, SlotOf(bn)));
    }
    forall p: nat | p < Max(n0.size, cur)
      ensures p / BSIZE < MAXFILE && p / BSIZE * BSIZE < Max(n0.size, cur)
    {
      BlockBelow(p, Max(n0.size, cur));
    }
  }

  lemma WrittenChunk(d0: Disk, n0: Inode, d: Disk, inodes: seq<Inode>, owner: map<nat, Slot>, i: nat, off: nat,
                     cur: nat, m: nat, src: seq<Byte>)
    requires i < |inodes| && Written(d0, n0, d, inodes[i], off, cur, src) && FsInv(d, inodes, owner)
    requires cur + m <= off + |src| && cur + m <= MAXFILE * BSIZE && 0 < m && cur % BSIZE + m <= BSIZE
    requires Ref(d, inodes[i], SlotOf(cur / BSIZE)) != 0
    ensures var x := Ref(d, inodes[i], SlotOf(cur / BSIZE));
      x < |d| && Written(d0, n0, d[x := Patch(d[x], cur % BSIZE, src[cur - off..cur - off + m])], inodes[i], off, cur + m, src)
  {
    hide FsInv, Ref, Word, Grows, Patch;
    var x := Ref(d, inodes[i], SlotOf(cur / BSIZE));
    var chunk := src[cur - off..cur - off + m];
    ChunkStore(d, inodes, owner, i, cur, chunk);
    var d' := d[x := Patch(d[x], cur % BSIZE, chunk)];
    var n := inodes[i];
    forall bn: nat | bn < MAXFILE && bn * BSIZE < Max(n0.size, cur + m) ensures 0 < Ref(d', n, SlotOf(bn)) < |d| {
      DataOwned(d, inodes, owner, i, bn);
      if bn * BSIZE >= Max(n0.size, cur) { assert bn == cur / BSIZE; }
    }
    forall p: nat | p < Max(n0.size, cur + m)
      ensures Ref(d', n, SlotOf(p / BSIZE)) < |d'|
      ensures p < n0.size ==> Ref(d0, n0, SlotOf(p / BSIZE)) < |d0|
      ensures ByteAt(d', n, p) == if off <= p < cur + m then src[p - off] else ByteAt(d0, n0, p)
    {
      BlockBelow(p, Max(n0.size, cur + m));
    }
  }

  /** The plain meaning of a write. */
  function Splice(c: seq<Byte>, off: nat, src: seq<Byte>): (r: seq<Byte>)
    requires off <= |c|
    ensures |r| == Max(|c|, off + |src|)
    ensures forall p :: 0 <= p < |r| ==> r[p] == if off <= p < off + |src| then src[p - off] else c[p]
  {
    c[..off] + src + (if off + |src| <= |c| then c[off + |src|..] else [])
  }

  lemma WrittenSplices(d0: Disk, n0: Inode, d: Disk, n: Inode, off: nat, src: seq<Byte>, n1: Inode)
    requires Written(d0, n0, d, n, off, off + |src|, src)
    requires n1 == n.(size := n1.size) && n1.size == Max(n0.size, off + |src|)
    ensures NoHoles(d0, n0, n0.size) && off <= n0.size
    ensures NoHoles(d, n1, n1.size) && Contents(d, n1) == Splice(Contents(d0, n0), off, src)
  {
    assert forall k :: 0 <= k < SLOTS ==> Ref(d, n1, k) == Ref(d, n, k);
    forall p: nat | p < n1.size ensures Contents(d, n1)[p] == Splice(Contents(d0, n0), off, src)[p] {
      BlockBelow(p, n1.size);
      assert ByteAt(d, n1, p) == ByteAt(d, n, p);
    }
  }

  /** A file other than the growing one reads as before. */
  lemma OthersKept(d: Disk, inodes: seq<Inode>, owner: map<nat, Slot>, d': Disk, inodes': seq<Inode>,
                   owner': map<nat, Slot>, i: nat, j: nat)
    requires FsInv(d, inodes, owner) && Grows(d, inodes, owner, d', inodes', owner', i)
    requires j < |inodes| && j != i && NoHoles(d, inodes[j], inodes[j].size)
    ensures inodes'[j] == inodes[j] && NoHoles(d', inodes[j], inodes[j].size)
    ensures Contents(d', inodes[j]) == Contents(d, inodes[j])
  {
    var n := inodes[j];
    forall bn: nat | bn < MAXFILE
      ensures Ref(d', n, SlotOf(bn)) == Ref(d, n, SlotOf(bn))
      ensures var x := Ref(d, n, SlotOf(bn)); x != 0 ==> x < |d| && d'[x] == d[x]
    {
      DataOwned(d, inodes, owner, j, bn);
      assert At(RefsOf(d', inodes'), Slot(j, SlotOf(bn))) == At(RefsOf(d, inodes), Slot(j, SlotOf(bn)));
    }
    forall p: nat | p < n.size ensures Contents(d', n)[p] == Contents(d, n)[p] {
      BlockBelow(p, n.size);
    }
  }

  /** iupdate stores one inode and leaves everything else alone. */
  lemma SaveTable(d: Disk, i: nat, n: Inode)
    requires Layout(d) && i < SbInodes(d) && |n.addrs| == NDIRECT + 1
    ensures IBlock(i) < |d|
    ensures var d' := d[IBlock(i) := Save(d[IBlock(i)], i, n)];
      && Layout(d') && d'[1] == d[1] && Table(d') == Table(d)[i := n] && UsedOf(d') == UsedOf(d)
      && forall x: nat :: FirstData(d) <= x < |d| ==> d'[x] == d[x]
  {
    InodesInside(d, i);
    var d' := d[IBlock(i) := Save(d[IBlock(i)], i, n)];
    assert Layout(d');
    forall j | 0 <= j < SbInodes(d) ensures Table(d')[j] == Table(d)[i := n][j] {
      InodesInside(d, j);
      if IBlock(j) == IBlock(i) {
        LoadSave(d[IBlock(i)], i, n, j);
        assert j / IPB == i / IPB;
      }
    }
    forall y: nat | y < SbSize(d) ensures UsedOf(d')[y] == UsedOf(d)[y] {
      BitmapInside(d, y);
      assert BBlock(0, SbInodes(d)) <= BBlock(y, SbInodes(d));
    }
  }

  lemma SaveKeeps(d: Disk, inodes: seq<Inode>, owner: map<nat, Slot>, i: nat, n: Inode)
    requires FsInv(d, inodes, owner) && i < SbInodes(d) && |n.addrs| == NDIRECT + 1
    ensures IBlock(i) < |d|
    ensures var d' := d[IBlock(i) := Save(d[IBlock(i)], i, n)];
      && FsInv(d', inodes, owner)
      && forall j, k :: 0 <= j < |inodes| && 0 <= k < SLOTS ==> Ref(d', inodes[j], k) == Ref(d, inodes[j], k)
  {
    SaveTable(d, i, n);
    var d' := d[IBlock(i) := Save(d[IBlock(i)], i, n)];
    forall j | 0 <= j < |inodes|
      ensures var c := inodes[j].addrs[NDIRECT]; c == 0 || c >= |d| || d'[c] == d[c]
    {
      Owns(d, inodes, owner, j, NDIRECT);
    }
    RefsKept(d, d', inodes);
    WholeAs(d, d', inodes, UsedOf(d), RefsOf(d, inodes), owner);
    forall j, k | 0 <= j < |inodes| && 0 <= k < SLOTS ensures Ref(d', inodes[j], k) == Ref(d, inodes[j], k) {
      assert RefsOf(d', inodes)[j][k] == RefsOf(d, inodes)[j][k];
    }
  }

  /** A file's contents depend on its slots and its data blocks only. */
  lemma ContentsKept(d: Disk, inodes: seq<Inode>, owner: map<nat, Slot>, d': Disk, j: nat)
    requires FsInv(d, inodes, owner) && j < |inodes| && |d'| == |d| && NoHoles(d, inodes[j], inodes[j].size)
    requires forall k :: 0 <= k < SLOTS ==> Ref(d', inodes[j], k) == Ref(d, inodes[j], k)
    requires forall x: nat :: FirstData(d) <= x < DataEnd(d) ==> x < |d| && d'[x] == d[x]
    ensures NoHoles(d', inodes[j], inodes[j].size) && Contents(d', inodes[j]) == Contents(d, inodes[j])
  {
    var n := inodes[j];
    forall p: nat | p < n.size ensures Contents(d', n)[p] == Contents(d, n)[p] {
      BlockBelow(p, n.size);
      Owns(d, inodes, owner, j, SlotOf(p / BSIZE));
    }
  }

  /** A stretch of the file inside one block. */
  lemma SliceOfFile(d: Disk, n: Inode, p: nat, m: nat)
    requires NoHoles(d, n, n.size) && p < n.size && p + m <= n.size && p % BSIZE + m <= BSIZE
    ensures Ref(d, n, SlotOf(p / BSIZE)) < |d|
    ensures d[Ref(d, n, SlotOf(p / BSIZE))][p % BSIZE..p % BSIZE + m] == Contents(d, n)[p..p + m]
  {
    BlockBelow(p, n.size);
    var x := Ref(d, n, SlotOf(p / BSIZE));
    forall q | p <= q < p + m ensures d[x][q - p + p % BSIZE] == Contents(d, n)[q] {
      assert q / BSIZE == p / BSIZE && q % BSIZE == p % BSIZE + (q - p);
    }
    var a, b := d[x][p % BSIZE..p % BSIZE + m], Contents(d, n)[p..p + m];
    forall k | 0 <= k < m ensures a[k] == b[k] { assert b[k] == Contents(d, n)[p + k]; }
  }

  lemma GrowsRefl(d: Disk, inodes: seq<Inode>, owner: map<nat, Slot>, i: nat)
    requires Shape(d, inodes) && i < |inodes|
    ensures Grows(d, inodes, owner, d, inodes, owner, i) && OwnKept(d, owner, d)
  {
    assert inodes == inodes[i := inodes[i].(addrs := inodes[i].addrs)];
  }

  lemma WrittenStart(d: Disk, n: Inode, off: nat, src: seq<Byte>)
    requires NoHoles(d, n, n.size) && off <= n.size
    ensures Written(d, n, d, n, off, off, src)
  {
    forall p: nat | p < n.size ensures Ref(d, n, SlotOf(p / BSIZE)) < |d| { BlockBelow(p, n.size); }
  }

  // ---------------------------------------------------------------- one inode in memory

  /** The inode table with n in place of inode i. */
  ghost function TableWith(d: Disk, i: nat, n: Inode): (t: seq<Inode>)
    requires Layout(d) && i < SbInodes(d)
    ensures |t| == SbInodes(d) && t[i] == n
  {
    Table(d)[i := n]
  }

  /** The disk is whole when inode i is taken from memory, as n. */
  ghost predicate WholeWith(d: Disk, owner: map<nat, Slot>, i: nat, n: Inode) {
    && Layout(d) && i < SbInodes(d) && |n.addrs| == NDIRECT + 1
    && FsInv(d, TableWith(d, i, n), owner)
  }

  /** The disk is sound and n is what it holds for inode i. */
  ghost predicate InSync(d: Disk, owner: map<nat, Slot>, i: nat, n: Inode) {
    Sound(d, owner) && i < SbInodes(d) && Table(d)[i] == n
  }

  lemma SyncWhole(d: Disk, owner: map<nat, Slot>, i: nat, n: Inode)
    requires InSync(d, owner, i, n)
    ensures WholeWith(d, owner, i, n) && TableWith(d, i, n) == Table(d) && NoHoles(d, n, n.size)
  {
    assert TableWith(d, i, n) == Table(d);
  }

  /** The size field names no block. */
  lemma Resized(d: Disk, owner: map<nat, Slot>, i: nat, n: Inode, size: Uint)
    requires WholeWith(d, owner, i, n)
    ensures WholeWith(d, owner, i, n.(size := size))
  {
    var n' := n.(size := size);
    var t, t' := TableWith(d, i, n), TableWith(d, i, n');
    forall k | 0 <= k < SLOTS ensures Row(d, n')[k] == Row(d, n)[k] { }
    assert Row(d, n') == Row(d, n);
    assert RefsOf(d, t') == RefsOf(d, t);
    WholeAs(d, d, t', UsedOf(d), RefsOf(d, t), owner);
  }

  /** One turn of the loop of writei: bmap took (d1, n1, o1) to (d2, n2, o2), then a chunk is stored. */
  lemma ChunkStep(d: Disk, n: Inode, o: map<nat, Slot>, d1: Disk, n1: Inode, o1: map<nat, Slot>,
                  d2: Disk, n2: Inode, o2: map<nat, Slot>, i: nat, off: nat, cur: nat, m: nat, src: seq<Byte>)
    requires Layout(d) && i < SbInodes(d) && |n.addrs| == NDIRECT + 1
    requires WholeWith(d1, o1, i, n1) && WholeWith(d2, o2, i, n2)
    requires Written(d, n, d1, n1, off, cur, src)
    requires Grows(d, TableWith(d, i, n), o, d1, TableWith(d1, i, n1), o1, i)
    requires Grows(d1, TableWith(d1, i, n1), o1, d2, TableWith(d2, i, n2), o2, i) && OwnKept(d1, o1, d2)
    requires cur + m <= off + |src| && cur + m <= MAXFILE * BSIZE && 0 < m && cur % BSIZE + m <= BSIZE
    requires Ref(d2, n2, SlotOf(cur / BSIZE)) != 0
    ensures var x := Ref(d2, n2, SlotOf(cur / BSIZE));
      && x < |d2|
      && var d3 := d2[x := Patch(d2[x], cur % BSIZE, src[cur - off..cur - off + m])];
         && WholeWith(d3, o2, i, n2) && Written(d, n, d3, n2, off, cur + m, src)
         && Grows(d, TableWith(d, i, n), o, d3, TableWith(d3, i, n2), o2, i)
  {
    var t, t1, t2 := TableWith(d, i, n), TableWith(d1, i, n1), TableWith(d2, i, n2);
    GrowsTrans(d, t, o, d1, t1, o1, d2, t2, o2, i);
    WrittenGrown(d, n, d1, t1, o1, d2, t2, o2, i, off, cur, src);
    WrittenChunk(d, n, d2, t2, o2, i, off, cur, m, src);
    ChunkStore(d2, t2, o2, i, cur, src[cur - off..cur - off + m]);
    var x := Ref(d2, n2, SlotOf(cur / BSIZE));
    var d3 := d2[x := Patch(d2[x], cur % BSIZE, src[cur - off..cur - off + m])];
    assert TableWith(d3, i, n2) == t2;
    GrowsTrans(d, t, o, d2, t2, o2, d3, t2, o2, i);
  }

  /** The other files read as before. */
  ghost predicate OthersSame(d: Disk, d': Disk, i: nat) {
    && Layout(d) && Layout(d') && SbInodes(d') == SbInodes(d)
    && forall j :: 0 <= j < SbInodes(d) && j != i ==>
         && Table(d')[j] == Table(d)[j]
         && NoHoles(d, Table(d)[j], Table(d)[j].size) && NoHoles(d', Table(d)[j], Table(d)[j].size)
         && Contents(d', Table(d)[j]) == Contents(d, Table(d)[j])
  }

  lemma GrowsOthers(d: Disk, o: map<nat, Slot>, i: nat, n: Inode, d': Disk, o': map<nat, Slot>, n': Inode)
    requires InSync(d, o, i, n) && WholeWith(d', o', i, n')
    requires Grows(d, Table(d), o, d', TableWith(d', i, n'), o', i)
    ensures OthersSame(d, d', i) && Table(d') == Table(d)
  {
    forall j | 0 <= j < SbInodes(d) && j != i
      ensures NoHoles(d', Table(d)[j], Table(d)[j].size) && Contents(d', Table(d)[j]) == Contents(d, Table(d)[j])
    {
      OthersKept(d, Table(d), o, d', TableWith(d', i, n'), o', i, j);
    }
  }

  /** What a successful writei means: file i is the old one with src spliced in at off, every other
      file reads as before, and the disk, sound again, holds the inode n'. */
  ghost predicate WriteDone(d: Disk, i: nat, n: Inode, d': Disk, o': map<nat, Slot>, n': Inode, off: nat, src: seq<Byte>) {
    && InSync(d', o', i, n') && OthersSame(d, d', i)
    && n' == n.(size := n'.size, addrs := n'.addrs) && n'.size == Max(n.size, off + |src|)
    && NoHoles(d, n, n.size) && NoHoles(d', n', n'.size) && off <= n.size
    && Contents(d', n') == Splice(Contents(d, n), off, src)
  }

  /** Reading back what was written gives what was written, and the file around it is as before. */
  lemma ReadBack(d: Disk, i: nat, n: Inode, d': Disk, o': map<nat, Slot>, n': Inode, off: nat, src: seq<Byte>)
    requires WriteDone(d, i, n, d', o', n', off, src)
    ensures |Contents(d', n')| == Max(n.size, off + |src|) && Contents(d', n')[off..off + |src|] == src
    ensures Contents(d', n')[..off] == Contents(d, n)[..off]
    ensures off + |src| <= n.size ==> Contents(d', n')[off + |src|..] == Contents(d, n)[off + |src|..]
  {
    hide FsInv, Ref, ByteAt, NoHoles, InSync, OthersSame;
    var c := Splice(Contents(d, n), off, src);
    assert c[off..off + |src|] == src && c[..off] == Contents(d, n)[..off];
  }

  /** iupdate after the loop: the disk holds the new inode, every file reads as it did in memory. */
  lemma SavedSync(d: Disk, o: map<nat, Slot>, i: nat, n: Inode, d': Disk)
    requires WholeWith(d, o, i, n) && NoHoles(d, n, n.size) && IBlock(i) < |d|
    requires forall j :: 0 <= j < SbInodes(d) && j != i ==> NoHoles(d, Table(d)[j], Table(d)[j].size)
    requires d' == d[IBlock(i) := Save(d[IBlock(i)], i, n)]
    ensures InSync(d', o, i, n) && SbInodes(d') == SbInodes(d)
    ensures forall j :: 0 <= j < SbInodes(d) ==>
      var m := TableWith(d, i, n)[j]; Table(d')[j] == m && NoHoles(d, m, m.size) && Contents(d', m) == Contents(d, m)
  {
    var t := TableWith(d, i, n);
    SaveTable(d, i, n);
    SaveKeeps(d, t, o, i, n);
    forall j | 0 <= j < SbInodes(d) ensures NoHoles(d', t[j], t[j].size) && Contents(d', t[j]) == Contents(d, t[j]) {
      ContentsKept(d, t, o, d', j);
    }
  }

  /** The direct slots are the fields; without an indirect block there are no entries. */
  lemma NoEntries(d: Disk, n: Inode)
    requires |n.addrs| == NDIRECT + 1
    ensures forall k :: 0 <= k <= NDIRECT ==> Ref(d, n, k) == n.addrs[k]
    ensures n.addrs[NDIRECT] == 0 ==> forall k :: NDIRECT < k < SLOTS ==> Ref(d, n, k) == 0
  {
  }

  /** `ip->addrs[k] = balloc()`, with the inode in memory. */
  lemma FillStep(d: Disk, o: map<nat, Slot>, i: nat, n: Inode, k: nat, b: nat)
    requires WholeWith(d, o, i, n) && k <= NDIRECT && n.addrs[k] == 0 && b < DataEnd(d) && !UsedOf(d)[b]
    ensures var d', n', o' := Alloc(d, b), n.(addrs := n.addrs[k := b]), o[b := Slot(i, k)];
      && b < TWO32 && FirstData(d) <= b < DataEnd(d) && WholeWith(d', o', i, n') && Ref(d', n', k) == b != 0
      && Grows(d, TableWith(d, i, n), o, d', TableWith(d', i, n'), o', i) && OwnKept(d, o, d')
  {
    hide Whole, Word, Grows, UsedOf, OwnKept, Mark;
    var t := TableWith(d, i, n);
    DirectGrows(d, t, o, i, k, b);
    AllocView(d, t, o, b);
    var d', n' := Alloc(d, b), n.(addrs := n.addrs[k := b]);
    assert TableWith(d', i, n') == t[i := n'];
  }

  /** `a[e] = balloc()`, with the inode in memory. */
  lemma EntryStep(d: Disk, o: map<nat, Slot>, i: nat, n: Inode, e: nat, b: nat)
    requires WholeWith(d, o, i, n) && e < NINDIRECT && n.addrs[NDIRECT] != 0 && Ref(d, n, NDIRECT + 1 + e) == 0
    requires b < DataEnd(d) && !UsedOf(d)[b]
    ensures n.addrs[NDIRECT] < |d| && BBlock(b, SbInodes(d)) < |d| && b < |d| && b < TWO32
    ensures FirstData(d) <= b < DataEnd(d) && FirstData(d) <= n.addrs[NDIRECT] < DataEnd(d)
    ensures var d', o' := SetEntry(Alloc(d, b), n.addrs[NDIRECT], e, b), o[b := Slot(i, NDIRECT + 1 + e)];
      && WholeWith(d', o', i, n) && Ref(d', n, NDIRECT + 1 + e) == b != 0
      && Grows(d, TableWith(d, i, n), o, d', TableWith(d', i, n), o', i) && OwnKept(d, o, d')
  {
    var t := TableWith(d, i, n);
    EntryGrows(d, t, o, i, e, b);
    AllocView(d, t, o, b);
    Owns(d, t, o, i, NDIRECT);
    AllocEntry(d, t, o, i, e, b);
    var d' := SetEntry(Alloc(d, b), n.addrs[NDIRECT], e, b);
    assert TableWith(d', i, n) == t;
  }

  /** The indirect block is on the disk and its words are the entry slots. */
  lemma EntryRef(d: Disk, o: map<nat, Slot>, i: nat, n: Inode, e: nat)
    requires WholeWith(d, o, i, n) && e < NINDIRECT && n.addrs[NDIRECT] != 0
    ensures n.addrs[NDIRECT] < |d| && Ref(d, n, NDIRECT + 1 + e) == Word(d[n.addrs[NDIRECT]], e)
  {
    Owns(d, TableWith(d, i, n), o, i, NDIRECT);
  }

  lemma WholeRefl(d: Disk, o: map<nat, Slot>, i: nat, n: Inode)
    requires WholeWith(d, o, i, n)
    ensures Grows(d, TableWith(d, i, n), o, d, TableWith(d, i, n), o, i) && OwnKept(d, o, d)
    ensures Layout(d) && i < SbInodes(d)
  {
    GrowsRefl(d, TableWith(d, i, n), o, i);
  }

  // ---------------------------------------------------------------- truncating a file

  /** itrunc empties the slots in this order: direct blocks, indirect entries, the indirect block. */
  function FreeOrder(s: nat): nat { if s < MAXFILE then SlotOf(s) else NDIRECT }

  function StepOf(k: nat): nat { if k < NDIRECT then k else if k == NDIRECT then MAXFILE else k - 1 }

  /** The slots of a file after s steps of itrunc. */
  ghost function Wiped(row: seq<nat>, s: nat): (r: seq<nat>)
    requires |row| == SLOTS
    ensures |r| == SLOTS
    ensures forall k :: 0 <= k < SLOTS ==> r[k] == if StepOf(k) < s then 0 else row[k]
  {
    seq(SLOTS, k requires 0 <= k < SLOTS => if StepOf(k) < s then 0 else row[k])
  }

  ghost function WipedRefs(refs: Refs, i: nat, s: nat): Refs
    requires i < |refs| && |refs[i]| == SLOTS
  {
    refs[i := Wiped(refs[i], s)]
  }

  lemma WipeStep(refs: Refs, i: nat, s: nat)
    requires i < |refs| && |refs[i]| == SLOTS && s < SLOTS
    ensures var t := Slot(i, FreeOrder(s));
      && Valid(WipedRefs(refs, i, s), t) && At(WipedRefs(refs, i, s), t) == refs[i][FreeOrder(s)]
      && Put(WipedRefs(refs, i, s), t, 0) == WipedRefs(refs, i, s + 1)
  {
    assert Wiped(refs[i], s)[FreeOrder(s) := 0] == Wiped(refs[i], s + 1);
  }

  lemma WipeStart(refs: Refs, i: nat)
    requires i < |refs| && |refs[i]| == SLOTS
    ensures WipedRefs(refs, i, 0) == refs
  {
    assert Wiped(refs[i], 0) == refs[i];
  }

  /** Only bitmap blocks differ. */
  ghost predicate OnlyBitmap(d: Disk, d': Disk) {
    && Layout(d) && Layout(d') && |d'| == |d| && d'[1] == d[1] && Table(d') == Table(d)
    && forall x: nat :: FirstData(d) <= x < |d| ==> d'[x] == d[x]
  }

  /** The empty inode that itrunc leaves. */
  ghost function Emptied(n: Inode): (r: Inode)
    ensures |r.addrs| == NDIRECT + 1
  {
    n.(size := 0, addrs := seq(NDIRECT + 1, _ => 0))
  }

  /** With every slot of i freed and its addresses cleared the disk is whole again. */
  lemma WipedWhole(d: Disk, o: map<nat, Slot>, i: nat, n: Inode, d': Disk, o': map<nat, Slot>)
    requires WholeWith(d, o, i, n) && OnlyBitmap(d, d') && LogBitsKept(d, d')
    requires Whole(UsedOf(d'), WipedRefs(RefsOf(d, TableWith(d, i, n)), i, SLOTS), FirstData(d), DataEnd(d), o')
    ensures WholeWith(d', o', i, Emptied(n))
    ensures forall j, k :: 0 <= j < SbInodes(d) && j != i && 0 <= k < SLOTS ==> Ref(d', Table(d)[j], k) == Ref(d, Table(d)[j], k)
    ensures forall b: nat :: b < SbSize(d) ==> (UsedOf(d')[b] <==> UsedOf(d)[b] && !(b in o && o[b].inum == i))
  {
    hide Whole, Word, Bit;
    var t, t' := TableWith(d, i, n), TableWith(d', i, Emptied(n));
    var r := WipedRefs(RefsOf(d, t), i, SLOTS);
    forall j | 0 <= j < |t| && j != i ensures Row(d', t[j]) == Row(d, t[j]) {
      Owns(d, t, o, j, NDIRECT);
      forall k | 0 <= k < SLOTS ensures Row(d', t[j])[k] == Row(d, t[j])[k] { }
    }
    forall k | 0 <= k < SLOTS ensures Row(d', Emptied(n))[k] == 0 { }
    assert Row(d', Emptied(n)) == Wiped(RefsOf(d, t)[i], SLOTS);
    assert RefsOf(d', t') == r;
    WholeAs(d, d', t', UsedOf(d'), r, o');
    WipedFrees(UsedOf(d), RefsOf(d, t), FirstData(d), DataEnd(d), o, UsedOf(d'), o', r, i);
    forall j, k | 0 <= j < SbInodes(d) && j != i && 0 <= k < SLOTS ensures Ref(d', Table(d)[j], k) == Ref(d, Table(d)[j], k) {
      assert Row(d', t[j])[k] == Row(d, t[j])[k];
    }
  }

  lemma BitmapTrans(d: Disk, d1: Disk, d2: Disk)
    requires OnlyBitmap(d, d1) && OnlyBitmap(d1, d2) && LogBitsKept(d, d1) && LogBitsKept(d1, d2)
    ensures OnlyBitmap(d, d2) && LogBitsKept(d, d2)
  {
  }

  /** Freeing the block a slot names, in the view where the slot is emptied with it. */
  lemma FreeStep(d: Disk, refs: Refs, o: map<nat, Slot>, s: Slot)
    requires Layout(d) && Whole(UsedOf(d), refs, FirstData(d), DataEnd(d), o) && Valid(refs, s) && At(refs, s) != 0
    ensures var b := At(refs, s);
      && b < SbSize(d) && UsedOf(d)[b] && BBlock(b, SbInodes(d)) < |d|
      && OnlyBitmap(d, Mark(d, b, false)) && FirstData(Mark(d, b, false)) == FirstData(d)
      && LogBitsKept(d, Mark(d, b, false))
      && Whole(UsedOf(Mark(d, b, false)), Put(refs, s, 0), FirstData(d), DataEnd(d), o - {b})
  {
    var b := At(refs, s);
    ClearWhole(UsedOf(d), refs, FirstData(d), DataEnd(d), o, s);
    MarkUsed(d, b, false);
  }

  /** What itrunc promises: the file is empty, exactly its blocks are free, the other files read as before. */
  ghost predicate Truncated(d: Disk, o: map<nat, Slot>, i: nat, n: Inode, d': Disk, o': map<nat, Slot>) {
    && InSync(d', o', i, Emptied(n)) && OthersSame(d, d', i) && SbSize(d') == SbSize(d)
    && forall b: nat :: b < SbSize(d) ==> (UsedOf(d')[b] <==> UsedOf(d)[b] && !(b in o && o[b].inum == i))
  }

  lemma TruncDone(d: Disk, o: map<nat, Slot>, i: nat, n: Inode, d1: Disk, o1: map<nat, Slot>, d2: Disk)
    requires InSync(d, o, i, n) && OnlyBitmap(d, d1) && LogBitsKept(d, d1) && IBlock(i) < |d1|
    requires Whole(UsedOf(d1), WipedRefs(RefsOf(d, TableWith(d, i, n)), i, SLOTS), FirstData(d), DataEnd(d), o1)
    requires d2 == d1[IBlock(i) := Save(d1[IBlock(i)], i, Emptied(n))]
    ensures Truncated(d, o, i, n, d2, o1)
  {
    hide Whole, Word, Ref, Save, Load, UsedOf, Row, Bit;
    SyncWhole(d, o, i, n);
    WipedWhole(d, o, i, n, d1, o1);
    forall j | 0 <= j < SbInodes(d) && j != i
      ensures NoHoles(d1, Table(d)[j], Table(d)[j].size) && Contents(d1, Table(d)[j]) == Contents(d, Table(d)[j])
    {
      ContentsKept(d, Table(d), o, d1, j);
    }
    SaveTable(d1, i, Emptied(n));
    SavedSync(d1, o1, i, Emptied(n), d2);
  }
}
