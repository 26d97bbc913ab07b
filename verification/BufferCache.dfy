/** The buffer cache of bio.c over the synchronous disk of memide.c. */
module BufferCache {
  import opened Blocks
  import opened Counting
  import opened Machine

  const HEAD: nat := NBUF
  const NODEV: int := -1
  const DISKDEV: int := 1

  /** struct buf; prev and next are indices into the buffer array, HEAD standing for bcache.head. */
  datatype Buf = Buf(dev: int, sector: nat, busy: bool, valid: bool, dirty: bool, data: Block, prev: nat, next: nat)

  // ---------------------------------------------------------------- the prev/next ring

  /** Position i of the ring: the head, then order, then the head again. */
  function At(order: seq<nat>, i: nat): nat
    requires i <= |order| + 1
  {
    if i == 0 || i == |order| + 1 then HEAD else order[i - 1]
  }

  ghost predicate Ring(s: seq<Buf>, order: seq<nat>) {
    && |s| == NBUF + 1
    && (forall i :: 0 <= i < |order| ==> order[i] < NBUF)
    && (forall i, j :: 0 <= i < j < |order| ==> order[i] != order[j])
    && (forall i :: 0 <= i <= |order| ==> s[At(order, i)].next == At(order, i + 1))
    && (forall i :: 0 <= i <= |order| ==> s[At(order, i + 1)].prev == At(order, i))
  }

  function SetPrev(s: seq<Buf>, i: nat, p: nat): seq<Buf>
    requires i < |s|
  {
    s[i := s[i].(prev := p)]
  }

  function SetNext(s: seq<Buf>, i: nat, n: nat): seq<Buf>
    requires i < |s|
  {
    s[i := s[i].(next := n)]
  }

  /** `b->next->prev = b->prev; b->prev->next = b->next`. */
  function Unlink(s: seq<Buf>, b: nat): (r: seq<Buf>)
    requires b < |s| && s[b].next < |s| && s[b].prev < |s|
    ensures |r| == |s|
  {
    var r := SetPrev(s, s[b].next, s[b].prev);
    SetNext(r, r[b].prev, r[b].next)
  }

  /** Insert b after the head. */
  function Push(s: seq<Buf>, b: nat): (r: seq<Buf>)
    requires b < HEAD < |s| && s[HEAD].next < |s|
    ensures |r| == |s|
  {
    var f := s[HEAD].next;
    var r := SetPrev(SetNext(s, b, f), b, HEAD);
    SetNext(SetPrev(r, f, b), HEAD, b)
  }

  lemma RingUnlink(s: seq<Buf>, order: seq<nat>, p: nat)
    requires Ring(s, order) && p < |order|
    ensures s[order[p]].next <= HEAD && s[order[p]].prev <= HEAD
    ensures Ring(Unlink(s, order[p]), Remove(order, p))
  {
    var o := Remove(order, p);
    var b := order[p];
    assert At(order, p + 1) == b;
    assert s[b].prev == At(order, p) && s[b].next == At(order, p + 2);
    var r := Unlink(s, b);
    forall i | 0 <= i <= |o|
      ensures r[At(o, i)].next == At(o, i + 1) && r[At(o, i + 1)].prev == At(o, i)
    {
      assert At(o, i) == if i <= p then At(order, i) else At(order, i + 1);
      assert At(o, i + 1) == if i + 1 <= p then At(order, i + 1) else At(order, i + 2);
    }
  }

  lemma RingPush(s: seq<Buf>, order: seq<nat>, b: nat)
    requires Ring(s, order) && b < NBUF && b !in order
    ensures s[HEAD].next <= HEAD
    ensures Ring(Push(s, b), [b] + order)
  {
    var o := [b] + order;
    assert At(order, 0) == HEAD && s[HEAD].next == At(order, 1);
    var r := Push(s, b);
    forall i | 0 <= i <= |o|
      ensures r[At(o, i)].next == At(o, i + 1) && r[At(o, i + 1)].prev == At(o, i)
    {
      if i > 0 { assert At(o, i + 1) == At(order, i); }
      if i > 1 { assert At(o, i) == At(order, i - 1); }
    }
  }

  // ---------------------------------------------------------------- cache and disk

  predicate Caches(b: Buf, dev: int, sector: nat) {
    b.dev == dev && b.sector == sector
  }

  predicate Recyclable(b: Buf) {
    !b.busy && !b.dirty
  }

  /** At most one buffer per real sector; a valid buffer that nobody has changed since it was last
      read or written agrees with the disk.  touched are the buffers whose holder has changed
      the data and neither logged nor written it yet. */
  ghost predicate Coherent(s: seq<Buf>, disk: Disk, touched: set<nat>) {
    && |s| == NBUF + 1
    && (forall i, j :: 0 <= i < j < NBUF && s[i].dev != NODEV ==> !Caches(s[j], s[i].dev, s[i].sector))
    && (forall i :: 0 <= i < NBUF && s[i].dirty ==> s[i].valid)
    && (forall i :: 0 <= i < NBUF && s[i].valid ==> s[i].dev == DISKDEV && s[i].sector < |disk|)
    && (forall i :: 0 <= i < NBUF && s[i].valid && !s[i].dirty && i !in touched ==> s[i].data == disk[s[i].sector])
    && (forall i :: i in touched ==> i < NBUF && s[i].valid && s[i].busy)
  }

  predicate Holds(b: Buf, t: nat) {
    b.valid && b.dev == DISKDEV && b.sector == t
  }

  /** The contents the kernel currently means by sector t: the cached copy if there is one. */
  ghost function Logical(s: seq<Buf>, disk: Disk, t: nat): Block
    requires |s| == NBUF + 1 && t < |disk|
  {
    if i :| 0 <= i < NBUF && Holds(s[i], t) then s[i].data else disk[t]
  }

  /** A sector of the disk is cached by at most one valid buffer. */
  lemma OneBuffer(s: seq<Buf>, disk: Disk, touched: set<nat>, i: nat, j: nat)
    requires Coherent(s, disk, touched) && i < NBUF && j < NBUF
    requires s[i].valid && s[j].valid && s[i].sector == s[j].sector
    ensures i == j
  {
    if i != j { assert Caches(s[i], s[j].dev, s[j].sector) && Caches(s[j], s[i].dev, s[i].sector); }
  }

  lemma LogicalCached(s: seq<Buf>, disk: Disk, touched: set<nat>, i: nat, t: nat)
    requires Coherent(s, disk, touched) && i < NBUF && Holds(s[i], t)
    ensures Logical(s, disk, t) == s[i].data
  {
    forall j | 0 <= j < NBUF && Holds(s[j], t) ensures j == i { OneBuffer(s, disk, touched, i, j); }
  }

  /** Changing one buffer changes what is meant by at most the sectors it held and holds. */
  lemma LogicalFrame(s: seq<Buf>, s': seq<Buf>, disk: Disk, disk': Disk, touched: set<nat>, touched': set<nat>,
                     b: nat, t: nat)
    requires Coherent(s, disk, touched) && Coherent(s', disk', touched')
    requires b < NBUF && (forall i :: 0 <= i < NBUF && i != b ==> s'[i] == s[i])
    requires t < |disk| == |disk'| && disk'[t] == disk[t]
    requires !Holds(s[b], t) && !Holds(s'[b], t)
    ensures Logical(s', disk', t) == Logical(s, disk, t)
  {
    if i :| 0 <= i < NBUF && Holds(s[i], t) {
      LogicalCached(s, disk, touched, i, t);
      LogicalCached(s', disk', touched', i, t);
    } else {
      assert forall i :: 0 <= i < NBUF ==> !Holds(s'[i], t);
    }
  }

  /** A buffer that may be recycled holds nothing the disk does not. */
  lemma RecycleLosesNothing(s: seq<Buf>, disk: Disk, touched: set<nat>, b: nat, s': seq<Buf>, t: nat)
    requires Coherent(s, disk, touched) && b < NBUF && Recyclable(s[b])
    requires |s'| == |s| && !s'[b].valid && (forall i :: 0 <= i < NBUF && i != b ==> s'[i] == s[i])
    requires Coherent(s', disk, touched) && t < |disk|
    ensures Logical(s', disk, t) == Logical(s, disk, t)
  {
    if Holds(s[b], t) {
      LogicalCached(s, disk, touched, b, t);
      forall i | 0 <= i < NBUF && i != b ensures !Holds(s'[i], t) {
        if Holds(s[i], t) {
          assert Caches(s[i], s[b].dev, s[b].sector) && Caches(s[b], s[i].dev, s[i].sector);
        }
      }
    } else {
      LogicalFrame(s, s', disk, disk, touched, touched, b, t);
    }
  }

  // ---------------------------------------------------------------- the cache in memory

  /** What a scan of the ring finds: a free cached buffer, a busy one to sleep on, a recycled one, or none. */
  datatype Got = Hit(b: nat) | Sleep(b: nat) | Recycled(b: nat) | NoBuffers

  datatype ReadResult = Ready(b: nat) | Asleep(b: nat) | Panic

  /** What bget means: the ring order decides which buffer is recycled, the least recently released. */
  ghost predicate GetSpec(s: seq<Buf>, order: seq<nat>, dev: int, sector: nat, g: Got, s': seq<Buf>) {
    && |s| == |s'| == NBUF + 1
    && match g
       case Hit(b) => b < NBUF && Caches(s[b], dev, sector) && !s[b].busy && s' == s[b := s[b].(busy := true)]
       case Sleep(b) => b < NBUF && Caches(s[b], dev, sector) && s[b].busy && s' == s
       case Recycled(b) =>
         && (forall i :: 0 <= i < NBUF ==> !Caches(s[i], dev, sector))
         && (exists p :: 0 <= p < |order| && order[p] == b && b < NBUF && Recyclable(s[b])
               && forall q :: p < q < |order| && order[q] < NBUF ==> !Recyclable(s[order[q]]))
         && b < NBUF
         && s' == s[b := s[b].(dev := dev, sector := sector, busy := true, valid := false, dirty := false)]
       case NoBuffers =>
         && (forall i :: 0 <= i < NBUF ==> !Caches(s[i], dev, sector) && !Recyclable(s[i]))
         && s' == s
  }

  lemma GetKeeps(s: seq<Buf>, order: seq<nat>, disk: Disk, touched: set<nat>, dev: int, sector: nat, g: Got, s': seq<Buf>)
    requires Ring(s, order) && Coherent(s, disk, touched) && GetSpec(s, order, dev, sector, g, s')
    ensures Ring(s', order) && Coherent(s', disk, touched)
    ensures forall t: nat :: t < |disk| ==> Logical(s', disk, t) == Logical(s, disk, t)
  {
    forall t: nat | t < |disk| ensures Logical(s', disk, t) == Logical(s, disk, t) {
      match g {
        case Hit(b) =>
          if Holds(s[b], t) {
            LogicalCached(s, disk, touched, b, t);
            LogicalCached(s', disk, touched, b, t);
          } else {
            LogicalFrame(s, s', disk, disk, touched, touched, b, t);
          }
        case Recycled(b) => RecycleLosesNothing(s, disk, touched, b, s', t);
        case _ =>
      }
    }
  }

  lemma RelinkSame(s: seq<Buf>, b: nat)
    requires b < HEAD < |s| && s[b].next < |s| && s[b].prev < |s| && s[b].next != b
    requires Unlink(s, b)[HEAD].next < |s|
    ensures forall i :: 0 <= i < |s| ==> SameBut(Push(Unlink(s, b), b)[i], s[i])
  {
    hide Push, Unlink;
    var r := Unlink(s, b);
    UnlinkSame(s, b);
    PushSame(r, b);
    forall i | 0 <= i < |s| ensures SameBut(Push(r, b)[i], s[i]) {
      assert SameBut(Push(r, b)[i], r[i]) && SameBut(r[i], s[i]);
    }
  }

  lemma UnlinkSame(s: seq<Buf>, b: nat)
    requires b < |s| && s[b].next < |s| && s[b].prev < |s|
    ensures |Unlink(s, b)| == |s| && forall i :: 0 <= i < |s| ==> SameBut(Unlink(s, b)[i], s[i])
  {
  }

  lemma PushSame(s: seq<Buf>, b: nat)
    requires b < HEAD < |s| && s[HEAD].next < |s|
    ensures |Push(s, b)| == |s| && forall i :: 0 <= i < |s| ==> SameBut(Push(s, b)[i], s[i])
  {
  }

  lemma MoveRing(s: seq<Buf>, order: seq<nat>, p: nat)
    requires Ring(s, order) && |order| == NBUF && p < NBUF
    ensures var b := order[p];
      && b < NBUF && s[b].next <= HEAD && s[b].prev <= HEAD && s[b].next != b
      && Unlink(s, b)[HEAD].next <= HEAD
      && |[b] + Remove(order, p)| == NBUF
      && Ring(Push(Unlink(s, b), b), [b] + Remove(order, p))
  {
    var b := order[p];
    assert At(order, p + 1) == b && s[b].next == At(order, p + 2);
    RingUnlink(s, order, p);
    RingPush(Unlink(s, b), Remove(order, p), b);
  }

  lemma MoveKeeps(s: seq<Buf>, order: seq<nat>, b: nat)
    requires Ring(s, order) && |order| == NBUF && b < NBUF
    ensures s[b].next <= HEAD && s[b].prev <= HEAD && s[b].next != b
    ensures Unlink(s, b)[HEAD].next <= HEAD
    ensures var r := Push(Unlink(s, b), b);
            && |[b] + Others(order, b)| == NBUF && Ring(r, [b] + Others(order, b))
            && forall i :: 0 <= i < NBUF ==> SameBut(r[i], s[i])
  {
    Surjective(order, NBUF, b);
    var p :| 0 <= p < NBUF && order[p] == b;
    OthersIs(order, p);
    MoveRing(s, order, p);
    RelinkSame(s, b);
  }

  /** Equal but for the ring pointers. */
  predicate SameBut(x: Buf, y: Buf) {
    && x.dev == y.dev && x.sector == y.sector && x.data == y.data
    && x.busy == y.busy && x.valid == y.valid && x.dirty == y.dirty
  }

  /** The ring without b, in order. */
  function Others(order: seq<nat>, b: nat): seq<nat> {
    if order == [] then [] else if order[0] == b then Others(order[1..], b) else [order[0]] + Others(order[1..], b)
  }

  lemma {:induction false} OthersNone(order: seq<nat>, b: nat)
    requires b !in order
    ensures Others(order, b) == order
  {
    if order != [] { OthersNone(order[1..], b); }
  }

  lemma {:induction false} OthersIs(order: seq<nat>, p: nat)
    requires p < |order| && Distinct(order)
    ensures Remove(order, p) == Others(order, order[p])
    ensures order[p] !in Remove(order, p)
  {
    if p == 0 {
      OthersNone(order[1..], order[0]);
      assert Remove(order, 0) == order[1..];
    } else {
      OthersIs(order[1..], p - 1);
      assert order[0] != order[p];
      assert Remove(order, p) == [order[0]] + Remove(order[1..], p - 1);
    }
  }

  /** One held buffer changes its data or flags, with the disk following if it is clean. */
  lemma ChangeKeeps(s: seq<Buf>, order: seq<nat>, disk: Disk, disk': Disk, touched: set<nat>, touched': set<nat>,
                    b: nat, s': seq<Buf>)
    requires Ring(s, order) && Coherent(s, disk, touched) && b < NBUF && s[b].valid && |disk'| == |disk|
    requires |s'| == |s| && (forall i :: 0 <= i < |s| && i != b ==> s'[i] == s[i])
    requires s'[b] == s[b].(data := s'[b].data, dirty := s'[b].dirty)
    requires forall t: nat :: t < |disk| && t != s[b].sector ==> disk'[t] == disk[t]
    requires touched' - {b} == touched - {b} && (b in touched' ==> s[b].busy)
    requires s'[b].dirty || b in touched' || s'[b].data == disk'[s[b].sector]
    ensures Ring(s', order) && Coherent(s', disk', touched')
    ensures forall t: nat :: t < |disk| ==> Logical(s', disk', t) == if t == s[b].sector then s'[b].data else Logical(s, disk, t)
  {
    assert Coherent(s', disk', touched') by {
      forall i | 0 <= i < NBUF && s'[i].valid && !s'[i].dirty && i !in touched'
        ensures s'[i].data == disk'[s'[i].sector]
      {
        if s[i].sector == s[b].sector { OneBuffer(s, disk, touched, i, b); }
        assert i != b ==> i !in touched' - {b};
      }
      forall i | i in touched' ensures i < NBUF && s'[i].valid && s'[i].busy {
        assert i != b ==> i in touched' - {b};
      }
    }
    forall t: nat | t < |disk|
      ensures Logical(s', disk', t) == if t == s[b].sector then s'[b].data else Logical(s, disk, t)
    {
      if t == s[b].sector { LogicalCached(s', disk', touched', b, t); }
      else { LogicalFrame(s, s', disk, disk', touched, touched', b, t); }
    }
  }

  lemma RelinkKeeps(s: seq<Buf>, disk: Disk, touched: set<nat>, s': seq<Buf>)
    requires Coherent(s, disk, touched) && |s'| == |s|
    requires forall i :: 0 <= i < NBUF ==> SameBut(s'[i].(busy := true), s[i].(busy := true))
    requires forall i :: i in touched ==> i < NBUF && s'[i].busy
    ensures Coherent(s', disk, touched)
    ensures forall t: nat :: t < |disk| ==> Logical(s', disk, t) == Logical(s, disk, t)
  {
    forall t: nat | t < |disk| ensures Logical(s', disk, t) == Logical(s, disk, t) {
      if i :| 0 <= i < NBUF && Holds(s[i], t) {
        LogicalCached(s, disk, touched, i, t);
        LogicalCached(s', disk, touched, i, t);
      } else {
        assert forall i :: 0 <= i < NBUF ==> !Holds(s'[i], t);
      }
    }
  }

  predicate IdeReady(b: Buf, disk: Disk) {
    b.busy && !(b.valid && !b.dirty) && b.dev == DISKDEV && b.sector < |disk|
  }

  lemma ReadKeeps(s: seq<Buf>, order: seq<nat>, disk: Disk, touched: set<nat>, b: nat, s': seq<Buf>)
    requires Ring(s, order) && Coherent(s, disk, touched) && b < NBUF
    requires s[b].busy && !s[b].valid && !s[b].dirty && s[b].dev == DISKDEV && s[b].sector < |disk|
    requires s' == s[b := s[b].(data := disk[s[b].sector], valid := true)]
    ensures Ring(s', order) && Coherent(s', disk, touched)
    ensures forall t: nat :: t < |disk| ==> Logical(s', disk, t) == Logical(s, disk, t)
  {
    forall t: nat | t < |disk| ensures Logical(s', disk, t) == Logical(s, disk, t) {
      if t == s[b].sector {
        LogicalCached(s', disk, touched, b, t);
        forall i | 0 <= i < NBUF ensures !Holds(s[i], t) {
          assert Holds(s[i], t) ==> Caches(s[b], s[i].dev, s[i].sector) && Caches(s[i], s[b].dev, s[b].sector);
        }
      } else {
        LogicalFrame(s, s', disk, disk, touched, touched, b, t);
      }
    }
  }

  lemma RingSameLinks(s: seq<Buf>, order: seq<nat>, b: nat, dev: int, busy: bool)
    requires Ring(s, order) && b < NBUF
    ensures Ring(s[b := s[b].(dev := dev, busy := busy)], order)
  {
  }

  class Cache {
    const bufs: array<Buf>
    var disk: Disk
    ghost var order: seq<nat>      // most recently released first
    ghost var touched: set<nat>    // changed by their holder since the last log_write or bwrite
    ghost var history: seq<Disk>   // the disk after each sector write

    ghost predicate Valid()
      reads this, bufs
    {
      && bufs.Length == NBUF + 1
      && |order| == NBUF && Ring(bufs[..], order)
      && Coherent(bufs[..], disk, touched)
    }

    ghost function Contents(t: nat): Block
      requires Valid() && t < |disk|
      reads this, bufs
    {
      Logical(bufs[..], disk, t)
    }

    /** binit, over the given disk. */
    constructor (d: Disk)
      ensures Valid() && disk == d && history == [] && touched == {} && fresh(bufs)
      ensures forall i :: 0 <= i < NBUF ==> !bufs[i].busy && !bufs[i].dirty && !bufs[i].valid
    {
      bufs := new Buf[NBUF + 1](_ => Buf(0, 0, false, false, false, Zero(), HEAD, HEAD));
      disk := d;
      order, touched, history := [], {}, [];
      new;
      var b := 0;
      while b < NBUF
        invariant 0 <= b <= NBUF && |order| == b && Ring(bufs[..], order)
        invariant forall i :: 0 <= i < b ==> order[i] < b
        invariant forall i :: 0 <= i < b ==> bufs[i].dev == NODEV
        invariant forall i :: 0 <= i < NBUF ==> !bufs[i].busy && !bufs[i].dirty && !bufs[i].valid
        invariant disk == d && history == [] && touched == {}
      {
        RingSameLinks(bufs[..], order, b, NODEV, bufs[b].busy);
        bufs[b] := bufs[b].(dev := NODEV);
        RingPush(bufs[..], order, b);
        LinkFront(b);
        order := [b] + order;
        b := b + 1;
      }
    }

    /** The four pointer writes that put b behind the head. */
    method LinkFront(b: nat)
      requires bufs.Length == NBUF + 1 && b < NBUF && bufs[HEAD].next <= HEAD
      modifies bufs
      ensures bufs[..] == Push(old(bufs[..]), b)
    {
      bufs[b] := bufs[b].(next := bufs[HEAD].next);
      bufs[b] := bufs[b].(prev := HEAD);
      var f := bufs[HEAD].next;
      bufs[f] := bufs[f].(prev := b);
      bufs[HEAD] := bufs[HEAD].(next := b);
    }

    method Bget(dev: int, sector: nat) returns (g: Got)
      requires Valid()
      modifies bufs
      ensures Valid() && GetSpec(old(bufs[..]), order, dev, sector, g, bufs[..])
      ensures forall t: nat :: t < |disk| ==> Contents(t) == old(Contents(t))
    {
      ghost var s := bufs[..];
      g := Scan(dev, sector);
      match g {
        case Hit(b) => bufs[b] := bufs[b].(busy := true);
        case Recycled(b) =>
          bufs[b] := bufs[b].(dev := dev, sector := sector, busy := true, valid := false, dirty := false);
        case _ =>
      }
      GetKeeps(s, order, disk, touched, dev, sector, g, bufs[..]);
    }

    /** The two scans of bget: forward for the sector, then backward for a buffer to recycle. */
    method Scan(dev: int, sector: nat) returns (g: Got)
      requires Valid()
      ensures match g
              case Hit(b) => b < NBUF && Caches(bufs[b], dev, sector) && !bufs[b].busy
              case Sleep(b) => b < NBUF && Caches(bufs[b], dev, sector) && bufs[b].busy
              case Recycled(b) =>
                && b < NBUF && (forall i :: 0 <= i < NBUF ==> !Caches(bufs[i], dev, sector))
                && exists p :: 0 <= p < |order| && order[p] == b && Recyclable(bufs[b])
                     && forall q :: p < q < |order| && order[q] < NBUF ==> !Recyclable(bufs[order[q]])
              case NoBuffers => forall i :: 0 <= i < NBUF ==> !Caches(bufs[i], dev, sector) && !Recyclable(bufs[i])
    {
      var b := bufs[HEAD].next;
      ghost var i := 0;
      assert At(order, 0) == HEAD;
      while b != HEAD
        invariant 0 <= i <= NBUF && b == At(order, i + 1)
        invariant forall q :: 0 <= q < i ==> !Caches(bufs[order[q]], dev, sector)
        decreases NBUF - i
      {
        if Caches(bufs[b], dev, sector) {
          return if bufs[b].busy then Sleep(b) else Hit(b);
        }
        b := bufs[b].next;
        i := i + 1;
      }
      forall k | 0 <= k < NBUF ensures !Caches(bufs[k], dev, sector) { Surjective(order, NBUF, k); }
      b := bufs[HEAD].prev;
      i := NBUF;
      assert At(order, NBUF + 1) == HEAD;
      while b != HEAD
        invariant 0 <= i <= NBUF && b == At(order, i)
        invariant forall q :: i <= q < NBUF ==> !Recyclable(bufs[order[q]])
        decreases i
      {
        if Recyclable(bufs[b]) {
          assert order[i - 1] == b;
          return Recycled(b);
        }
        b := bufs[b].prev;
        i := i - 1;
      }
      forall k | 0 <= k < NBUF ensures !Recyclable(bufs[k]) { Surjective(order, NBUF, k); }
      g := NoBuffers;
    }

    /** iderw of memide.c: write a dirty buffer, read an invalid one. */
    method Iderw(b: nat) returns (ok: bool)
      requires bufs.Length == NBUF + 1 && b < NBUF
      modifies this`disk, this`history, bufs
      ensures ok <==> old(IdeReady(bufs[b], disk))
      ensures !ok ==> bufs[..] == old(bufs[..]) && disk == old(disk) && history == old(history)
      ensures ok && old(bufs[b].dirty) ==>
                && disk == old(disk[bufs[b].sector := bufs[b].data]) && history == old(history) + [disk]
                && bufs[..] == old(bufs[..][b := bufs[b].(dirty := false, valid := true)])
      ensures ok && !old(bufs[b].dirty) ==>
                && disk == old(disk) && history == old(history)
                && bufs[..] == old(bufs[..][b := bufs[b].(data := disk[bufs[b].sector], valid := true)])
    {
      if !bufs[b].busy { return false; }
      if bufs[b].valid && !bufs[b].dirty { return false; }
      if bufs[b].dev != DISKDEV { return false; }
      if bufs[b].sector >= |disk| { return false; }
      if bufs[b].dirty {
        bufs[b] := bufs[b].(dirty := false);
        disk := disk[bufs[b].sector := bufs[b].data];
        history := history + [disk];
      } else {
        bufs[b] := bufs[b].(data := disk[bufs[b].sector]);
      }
      bufs[b] := bufs[b].(valid := true);
      ok := true;
    }

    /** A buffer for the sector, locked, holding what the kernel currently means by it.
        Getting it changes the meaning of no sector and never unpins a dirty buffer. */
    method Bread(dev: int, sector: nat) returns (r: ReadResult)
      requires Valid()
      modifies this`disk, this`history, bufs
      ensures Valid() && disk == old(disk) && history == old(history)
      ensures forall t: nat :: t < |disk| ==> Contents(t) == old(Contents(t))
      ensures forall i :: 0 <= i < NBUF ==>
                bufs[i].dirty == old(bufs[i].dirty) && (bufs[i].dirty ==> bufs[i].sector == old(bufs[i].sector))
      ensures r.Ready? ==>
                && r.b < NBUF && dev == DISKDEV && sector < |disk|
                && !old(bufs[r.b].busy) && bufs[r.b].busy && bufs[r.b].valid && Caches(bufs[r.b], dev, sector)
                && bufs[r.b].data == old(Contents(sector))
                && (forall i :: 0 <= i < NBUF && i != r.b ==> bufs[i] == old(bufs[i]))
      ensures r.Asleep? <==> exists b :: 0 <= b < NBUF && old(Caches(bufs[b], dev, sector) && bufs[b].busy) && r == Asleep(b)
      ensures dev == DISKDEV && sector < |disk| ==>
                (r.Panic? <==> forall i :: 0 <= i < NBUF ==> old(!Caches(bufs[i], dev, sector) && !Recyclable(bufs[i])))
    {
      hide Ring;
      var g := Bget(dev, sector);
      if g.Sleep? { return Asleep(g.b); }
      if g.NoBuffers? { return Panic; }
      var b := g.b;
      ghost var s := bufs[..];
      if !bufs[b].valid {
        var ok := Iderw(b);
        if !ok { return Panic; }
        ReadKeeps(s, order, disk, touched, b, bufs[..]);
      }
      LogicalCached(bufs[..], disk, touched, b, sector);
      r := Ready(b);
    }

    /** The holder stores into b->data. */
    method Modify(b: nat, data: Block)
      requires Valid() && b < NBUF && bufs[b].busy && bufs[b].valid
      modifies this`touched, bufs
      ensures Valid() && touched == old(touched) + {b}
      ensures bufs[..] == old(bufs[..][b := bufs[b].(data := data)])
      ensures forall t: nat :: t < |disk| ==> Contents(t) == if t == bufs[b].sector then data else old(Contents(t))
    {
      ghost var s := bufs[..];
      bufs[b] := bufs[b].(data := data);
      touched := touched + {b};
      ChangeKeeps(s, order, disk, disk, old(touched), touched, b, bufs[..]);
    }

    /** The last line of log_write: pin b with B_DIRTY. */
    method Pin(b: nat)
      requires Valid() && b < NBUF && bufs[b].valid
      modifies this`touched, bufs
      ensures Valid() && touched == old(touched) - {b}
      ensures bufs[..] == old(bufs[..][b := bufs[b].(dirty := true)])
      ensures forall t: nat :: t < |disk| ==> Contents(t) == old(Contents(t))
    {
      ghost var s := bufs[..];
      bufs[b] := bufs[b].(dirty := true);
      touched := touched - {b};
      LogicalCached(s, disk, old(touched), b, bufs[b].sector);
      ChangeKeeps(s, order, disk, disk, old(touched), touched, b, bufs[..]);
    }

    /** Writes b through to the disk; the source panics when b is not held. */
    method Bwrite(b: nat) returns (ok: bool)
      requires Valid() && b < NBUF && bufs[b].valid
      modifies this`disk, this`history, this`touched, bufs
      ensures Valid() && ok == old(bufs[b].busy)
      ensures !ok ==> bufs[..] == old(bufs[..]) && disk == old(disk) && history == old(history) && touched == old(touched)
      ensures ok ==>
                && disk == old(disk[bufs[b].sector := bufs[b].data]) && history == old(history) + [disk]
                && bufs[..] == old(bufs[..][b := bufs[b].(dirty := false)]) && touched == old(touched) - {b}
      ensures forall t: nat :: t < |disk| ==> Contents(t) == old(Contents(t))
    {
      if !bufs[b].busy { return false; }
      ghost var s := bufs[..];
      bufs[b] := bufs[b].(dirty := true);
      ok := Iderw(b);
      touched := touched - {b};
      LogicalCached(s, old(disk), old(touched), b, bufs[b].sector);
      ChangeKeeps(s, order, old(disk), disk, old(touched), touched, b, bufs[..]);
    }

    /** Releases b and moves it to the front of the ring; the source panics when b is not held.
        The caller must have logged or written its changes. */
    method Brelse(b: nat) returns (ok: bool)
      requires Valid() && b < NBUF && b !in touched
      modifies this`order, bufs
      ensures Valid() && ok == old(bufs[b].busy)
      ensures !ok ==> bufs[..] == old(bufs[..]) && order == old(order)
      ensures ok ==>
                && order == [b] + Others(old(order), b)
                && !bufs[b].busy && SameBut(bufs[b].(busy := true), old(bufs[b]))
                && forall i :: 0 <= i < NBUF && i != b ==> SameBut(bufs[i], old(bufs[i]))
      ensures forall t: nat :: t < |disk| ==> Contents(t) == old(Contents(t))
    {
      if !bufs[b].busy { return false; }
      ghost var s := bufs[..];
      MoveToFront(b);
      label moved:
      bufs[b] := bufs[b].(busy := false);
      RelinkKeeps(s, disk, touched, bufs[..]);
      RingSameLinks(old@moved(bufs[..]), order, b, bufs[b].dev, false);
      ok := true;
    }

    /** The pointer writes of brelse. */
    method MoveToFront(b: nat)
      requires bufs.Length == NBUF + 1 && |order| == NBUF && Ring(bufs[..], order) && b < NBUF
      modifies this`order, bufs
      ensures |order| == NBUF && Ring(bufs[..], order) && order == [b] + Others(old(order), b)
      ensures forall i :: 0 <= i < NBUF ==> SameBut(bufs[i], old(bufs[i]))
    {
      MoveKeeps(bufs[..], order, b);
      UnlinkBuf(b);
      LinkFront(b);
      order := [b] + Others(order, b);
    }

    method UnlinkBuf(b: nat)
      requires bufs.Length == NBUF + 1 && b < NBUF && bufs[b].next <= HEAD && bufs[b].prev <= HEAD && bufs[b].next != b
      modifies bufs
      ensures bufs[..] == Unlink(old(bufs[..]), b)
    {
      var n := bufs[b].next;
      bufs[n] := bufs[n].(prev := bufs[b].prev);
      var v := bufs[b].prev;
      bufs[v] := bufs[v].(next := bufs[b].next);
    }
  }
}
