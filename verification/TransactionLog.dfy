/** The in-memory log of log.c, working through the buffer cache. */
module TransactionLog {
  import opened Blocks
  import opened Machine
  import opened RedoLog
  import opened BufferCache
  import opened Counting

  ghost predicate Quiet(s: seq<Buf>) {
    |s| == NBUF + 1 && forall i :: 0 <= i < NBUF ==> !s[i].busy
  }

  /** Some buffer pins sector t. */
  ghost predicate Dirty(s: seq<Buf>, t: nat) {
    |s| == NBUF + 1 && exists i :: 0 <= i < NBUF && s[i].dirty && s[i].sector == t
  }

  ghost predicate AnyClean(s: seq<Buf>) {
    |s| == NBUF + 1 && exists i :: 0 <= i < NBUF && !s[i].dirty
  }

  ghost predicate NoneDirty(s: seq<Buf>) {
    |s| == NBUF + 1 && forall i :: 0 <= i < NBUF ==> !s[i].dirty
  }

  /** The pinned sectors are the logged ones. */
  ghost predicate PinsExactly(s: seq<Buf>, secs: seq<nat>) {
    forall t: nat :: Dirty(s, t) <==> t in secs
  }

  ghost predicate SameDirty(s: seq<Buf>, s': seq<Buf>) {
    |s| == |s'| == NBUF + 1 && forall i :: 0 <= i < NBUF ==> s'[i].dirty == s[i].dirty && (s[i].dirty ==> s'[i].sector == s[i].sector)
  }

  /** d has been written through, nothing else moved. */
  ghost predicate Cleaned(s: seq<Buf>, s': seq<Buf>, d: nat) {
    |s| == |s'| == NBUF + 1 && forall i :: 0 <= i < NBUF ==> s'[i].sector == s[i].sector && s'[i].dirty == (i != d && s[i].dirty)
  }

  /** bread in a quiet cache: it needs the sector cached or a clean buffer. */
  method ReadQuiet(cache: Cache, first: nat) returns (ok: bool, b: nat)
    requires cache.Valid() && Quiet(cache.bufs[..]) && first < |cache.disk|
    modifies cache`disk, cache`history, cache.bufs
    ensures cache.Valid() && cache.disk == old(cache.disk) && cache.history == old(cache.history)
    ensures forall t: nat :: t < |cache.disk| ==> cache.Contents(t) == old(cache.Contents(t))
    ensures SameDirty(old(cache.bufs[..]), cache.bufs[..])
    ensures Dirty(old(cache.bufs[..]), first) || AnyClean(old(cache.bufs[..])) <==> ok
    ensures ok ==>
      && b < NBUF && cache.bufs[b].valid && Caches(cache.bufs[b], DISKDEV, first) && cache.bufs[b].data == cache.Contents(first)
      && forall i :: 0 <= i < NBUF ==> cache.bufs[i].busy == (i == b)
  {
    ghost var s := cache.bufs[..];
    assert AnyClean(s) <==> exists i :: 0 <= i < NBUF && Recyclable(s[i]);
    assert Dirty(s, first) ==> exists i :: 0 <= i < NBUF && Caches(s[i], DISKDEV, first);
    var r := cache.Bread(DISKDEV, first);
    b := if r.Ready? then r.b else 0;
    ok := r.Ready?;
  }

  /** A second bread, while b1 is held. */
  method ReadSecond(cache: Cache, b1: nat, second: nat) returns (ok: bool, b: nat)
    requires cache.Valid() && b1 < NBUF && second < |cache.disk| && cache.bufs[b1].sector != second
    requires forall i :: 0 <= i < NBUF ==> cache.bufs[i].busy == (i == b1)
    modifies cache`disk, cache`history, cache.bufs
    ensures cache.Valid() && cache.disk == old(cache.disk) && cache.history == old(cache.history)
    ensures forall t: nat :: t < |cache.disk| ==> cache.Contents(t) == old(cache.Contents(t))
    ensures SameDirty(old(cache.bufs[..]), cache.bufs[..])
    ensures Dirty(old(cache.bufs[..]), second) || NoneDirty(old(cache.bufs[..])) ==> ok
    ensures ok ==>
      && b < NBUF && b != b1 && cache.bufs[b].valid && Caches(cache.bufs[b], DISKDEV, second)
      && cache.bufs[b].data == cache.Contents(second) && cache.bufs[b1] == old(cache.bufs[b1])
      && forall i :: 0 <= i < NBUF ==> cache.bufs[i].busy == (i == b || i == b1)
  {
    ghost var s := cache.bufs[..];
    assert NoneDirty(s) ==> Recyclable(s[if b1 == 0 then 1 else 0]);
    assert Dirty(s, second) ==> exists i :: 0 <= i < NBUF && Caches(s[i], DISKDEV, second);
    var r := cache.Bread(DISKDEV, second);
    b := if r.Ready? then r.b else 0;
    ok := r.Ready?;
  }

  method ReadPair(cache: Cache, first: nat, second: nat) returns (ok: bool, b1: nat, b2: nat)
    requires cache.Valid() && Quiet(cache.bufs[..])
    requires first != second && first < |cache.disk| && second < |cache.disk|
    modifies cache`disk, cache`history, cache.bufs
    ensures cache.Valid() && cache.disk == old(cache.disk) && cache.history == old(cache.history)
    ensures forall t: nat :: t < |cache.disk| ==> cache.Contents(t) == old(cache.Contents(t))
    ensures forall t: nat :: Dirty(cache.bufs[..], t) <==> Dirty(old(cache.bufs[..]), t)
    ensures NoneDirty(cache.bufs[..]) <==> NoneDirty(old(cache.bufs[..]))
    ensures !AnyClean(old(cache.bufs[..])) && !Dirty(old(cache.bufs[..]), first) ==> !ok
    ensures AnyClean(old(cache.bufs[..])) && Dirty(old(cache.bufs[..]), second) ==> ok
    ensures NoneDirty(old(cache.bufs[..])) ==> ok
    ensures ok ==>
      && b1 < NBUF && b2 < NBUF && b1 != b2 && cache.bufs[b1].valid && cache.bufs[b2].valid
      && cache.bufs[b1].sector == first && cache.bufs[b2].sector == second
      && cache.bufs[b1].data == cache.Contents(first) && cache.bufs[b2].data == cache.Contents(second)
      && forall i :: 0 <= i < NBUF ==> cache.bufs[i].busy == (i == b1 || i == b2)
  {
    hide Ring, Coherent;
    ghost var s0 := cache.bufs[..];
    assert NoneDirty(s0) ==> !s0[0].dirty;
    b2 := 0;
    ok, b1 := ReadQuiet(cache, first);
    SameDirtySame(s0, cache.bufs[..]);
    if !ok { return; }
    ghost var s1 := cache.bufs[..];
    ok, b2 := ReadSecond(cache, b1, second);
    SameDirtySame(s1, cache.bufs[..]);
  }

  /** Store into a held buffer and bwrite it. */
  method StoreThrough(cache: Cache, b: nat, data: Block)
    requires cache.Valid() && b < NBUF && cache.touched == {} && cache.bufs[b].valid && cache.bufs[b].busy
    modifies cache`disk, cache`history, cache`touched, cache.bufs
    ensures cache.Valid() && cache.touched == {}
    ensures cache.disk == old(cache.disk[cache.bufs[b].sector := data]) && cache.history == old(cache.history) + [cache.disk]
    ensures cache.bufs[..] == old(cache.bufs[..][b := cache.bufs[b].(data := data, dirty := false)])
    ensures forall t: nat :: t < |cache.disk| ==>
      cache.Contents(t) == if t == old(cache.bufs[b].sector) then data else old(cache.Contents(t))
  {
    cache.Modify(b, data);
    var _ := cache.Bwrite(b);
    assert cache.touched == {};
  }

  /** memmove into d from s, bwrite d, brelse both. */
  method CopyHeld(cache: Cache, d: nat, s: nat)
    requires cache.Valid() && d < NBUF && s < NBUF && d != s && cache.touched == {}
    requires cache.bufs[d].valid && cache.bufs[s].valid && cache.bufs[d].sector != cache.bufs[s].sector
    requires forall i :: 0 <= i < NBUF ==> cache.bufs[i].busy == (i == d || i == s)
    modifies cache, cache.bufs
    ensures cache.Valid() && Quiet(cache.bufs[..]) && cache.touched == {}
    ensures cache.disk == old(cache.disk[cache.bufs[d].sector := cache.bufs[s].data])
    ensures cache.history == old(cache.history) + [cache.disk]
    ensures forall t: nat :: t < |cache.disk| ==>
      cache.Contents(t) == if t == old(cache.bufs[d].sector) then old(cache.bufs[s].data) else old(cache.Contents(t))
    ensures Cleaned(old(cache.bufs[..]), cache.bufs[..], d)
  {
    StoreThrough(cache, d, cache.bufs[s].data);
    assert Cleaned(old(cache.bufs[..]), cache.bufs[..], d);
    var _ := cache.Brelse(s);
    var _ := cache.Brelse(d);
  }

  lemma DirtyCleaned(s: seq<Buf>, s': seq<Buf>, disk: Disk, touched: set<nat>, d: nat)
    requires Coherent(s, disk, touched) && d < NBUF && s[d].valid && Cleaned(s, s', d)
    ensures forall t: nat :: Dirty(s', t) <==> Dirty(s, t) && t != s[d].sector
    ensures AnyClean(s') && (NoneDirty(s) ==> NoneDirty(s'))
  {
    assert !s'[d].dirty;
    forall t: nat ensures Dirty(s', t) <==> Dirty(s, t) && t != s[d].sector {
      if Dirty(s', t) {
        var i :| 0 <= i < NBUF && s'[i].dirty && s'[i].sector == t;
        if t == s[d].sector { OneBuffer(s, disk, touched, i, d); }
        assert s[i].dirty && s[i].sector == t;
      }
      if Dirty(s, t) && t != s[d].sector {
        var i :| 0 <= i < NBUF && s[i].dirty && s[i].sector == t;
        assert s'[i].dirty && s'[i].sector == t;
      }
    }
  }

  lemma SameDirtySame(s: seq<Buf>, s': seq<Buf>)
    requires SameDirty(s, s')
    ensures forall t: nat :: Dirty(s', t) <==> Dirty(s, t)
    ensures AnyClean(s) <==> AnyClean(s')
    ensures NoneDirty(s) <==> NoneDirty(s')
  {
  }

  lemma PinsSame(s: seq<Buf>, s': seq<Buf>, secs: seq<nat>)
    requires SameDirty(s, s') && PinsExactly(s, secs)
    ensures PinsExactly(s', secs)
  {
    SameDirtySame(s, s');
  }

  /** One copy of `write_log` or `install_trans`: bread(first), bread(second), memmove, bwrite the
      destination, brelse both.  intoFirst says which of the two is the destination. */
  method CopySector(cache: Cache, first: nat, second: nat, intoFirst: bool) returns (ok: bool)
    requires cache.Valid() && Quiet(cache.bufs[..]) && cache.touched == {}
    requires first != second && first < |cache.disk| && second < |cache.disk|
    modifies cache, cache.bufs
    ensures cache.Valid() && |cache.disk| == old(|cache.disk|)
    ensures !AnyClean(old(cache.bufs[..])) && !Dirty(old(cache.bufs[..]), first) ==> !ok
    ensures AnyClean(old(cache.bufs[..])) && Dirty(old(cache.bufs[..]), second) ==> ok
    ensures NoneDirty(old(cache.bufs[..])) ==> ok
    ensures !ok ==> cache.disk == old(cache.disk) && cache.history == old(cache.history)
    ensures ok ==>
      var (dst, src) := if intoFirst then (first, second) else (second, first);
      && Quiet(cache.bufs[..]) && cache.touched == {}
      && cache.disk == old(cache.disk[dst := cache.Contents(src)]) && cache.history == old(cache.history) + [cache.disk]
      && (forall t: nat :: t < |cache.disk| ==> cache.Contents(t) == if t == dst then old(cache.Contents(src)) else old(cache.Contents(t)))
      && (forall t: nat :: Dirty(cache.bufs[..], t) <==> Dirty(old(cache.bufs[..]), t) && t != dst)
      && AnyClean(cache.bufs[..])
      && (NoneDirty(old(cache.bufs[..])) ==> NoneDirty(cache.bufs[..]))
  {
    hide Ring, Coherent;
    var b1, b2;
    ok, b1, b2 := ReadPair(cache, first, second);
    if !ok { return; }
    ghost var s2, disk, touched := cache.bufs[..], cache.disk, cache.touched;
    var d, s := if intoFirst then b1 else b2, if intoFirst then b2 else b1;
    CopyHeld(cache, d, s);
    DirtyCleaned(s2, cache.bufs[..], disk, touched, d);
  }

  /** What is not pinned is on the disk. */
  lemma CleanContents(cache: Cache, t: nat)
    requires cache.Valid() && cache.touched == {} && t < |cache.disk| && !Dirty(cache.bufs[..], t)
    ensures cache.Contents(t) == cache.disk[t]
  {
    var s := cache.bufs[..];
    if i :| 0 <= i < NBUF && Holds(s[i], t) {
      LogicalCached(s, cache.disk, cache.touched, i, t);
      assert !s[i].dirty;
    }
  }

  lemma LoggableSize(d: Disk, d': Disk, a: Area, secs: seq<nat>)
    requires Loggable(d, a, secs) && |d'| == |d|
    ensures Loggable(d', a, secs)
  {
    assert forall i :: 0 <= i < |secs| ==> Home(d, a, secs[i]);
  }

  lemma LogNotHome(d: Disk, a: Area, secs: seq<nat>, t: nat)
    requires Loggable(d, a, secs) && !Home(d, a, t)
    ensures t !in secs
  {
  }

  /** The logical contents of a list of sectors. */
  ghost function Meant(s: seq<Buf>, disk: Disk, secs: seq<nat>): (r: seq<Block>)
    requires |s| == NBUF + 1 && forall i :: 0 <= i < |secs| ==> secs[i] < |disk|
    ensures |r| == |secs|
  {
    seq(|secs|, i requires 0 <= i < |secs| => Logical(s, disk, secs[i]))
  }

  /** The log is ready for more, with exactly its sectors pinned. */
  ghost predicate Ready(log: Log)
    reads log`n, log.sector, log.cache, log.cache.bufs
  {
    log.Valid() && Quiet(log.cache.bufs[..]) && PinsExactly(log.cache.bufs[..], log.Secs())
  }

  /** The disks of a whole commit, one per sector write. */
  ghost function CommitTrail(d: Disk, a: Area, secs: seq<nat>, blocks: seq<Block>): (t: seq<Disk>)
    requires Loggable(d, a, secs) && |blocks| == |secs|
    ensures |t| == CommitLength(secs)
    ensures forall i :: 0 <= i < |t| ==> t[i] == Committing(d, a, secs, blocks, i + 1)
  {
    var head := MakeHead(d[a.start], secs);
    TxnTrail(d, a, secs, blocks, head, MakeHead(head, []), CommitLength(secs))
  }

  lemma InstallEnds(d: Disk, a: Area, secs: seq<nat>, blocks: seq<Block>, head: Block, empty: Block, n: nat)
    requires Loggable(d, a, secs) && |blocks| == |secs| == n
    ensures Loggable(Txn(d, a, secs, blocks, head, empty, n + 1), a, secs)
    ensures Installed(Txn(d, a, secs, blocks, head, empty, n + 1), a, secs, empty, n + 1) == Txn(d, a, secs, blocks, head, empty, 2 * n + 2)
  {
    InstallIsTxn(d, a, secs, blocks, head, empty, empty, n);
  }

  /** Logging everything, then installing and clearing, is the whole transaction. */
  lemma TrailJoin(d: Disk, a: Area, secs: seq<nat>, blocks: seq<Block>, head: Block, empty: Block, n: nat)
    requires Loggable(d, a, secs) && |blocks| == |secs| == n
    ensures var d1 := Txn(d, a, secs, blocks, head, empty, n + 1);
      && Installed(d1, a, secs, empty, n + 1) == Txn(d, a, secs, blocks, head, empty, 2 * n + 2)
      && TxnTrail(d, a, secs, blocks, head, empty, n + 1) + InstallTrail(d1, a, secs, empty, n + 1)
         == TxnTrail(d, a, secs, blocks, head, empty, 2 * n + 2)
  {
    hide Txn, Installed, Loggable;
    InstallEnds(d, a, secs, blocks, head, empty, n);
    var d1 := Txn(d, a, secs, blocks, head, empty, n + 1);
    var t, u := TxnTrail(d, a, secs, blocks, head, empty, n + 1), InstallTrail(d1, a, secs, empty, n + 1);
    var v := TxnTrail(d, a, secs, blocks, head, empty, 2 * n + 2);
    forall i | 0 <= i < 2 * n + 2 ensures (t + u)[i] == v[i] {
      if n < i < 2 * n + 1 {
        InstallIsTxn(d, a, secs, blocks, head, empty, empty, i - n);
        assert u[i - n - 1] == Installed(d1, a, secs, empty, i - n) && v[i] == Txn(d, a, secs, blocks, head, empty, i + 1);
      }
    }
  }

  lemma {:induction false} AbsorbScan(secs: seq<nat>, x: nat, i: nat)
    requires i <= |secs| && (i < |secs| ==> secs[i] == x)
    requires forall j :: 0 <= j < i ==> secs[j] != x
    ensures Find(secs, x) == i
  {
    if i > 0 { AbsorbScan(secs[1..], x, i - 1); }
  }

  /** Pinning a buffer and absorbing its sector keep step. */
  lemma PinsAbsorb(s: seq<Buf>, secs: seq<nat>, b: nat)
    requires |s| == NBUF + 1 && b < NBUF
    ensures PinsExactly(s, secs) ==> PinsExactly(s[b := s[b].(dirty := true)], Absorb(secs, s[b].sector))
  {
    var x, s' := s[b].sector, s[b := s[b].(dirty := true)];
    forall t: nat ensures Dirty(s', t) <==> Dirty(s, t) || t == x {
      assert s'[b].dirty && s'[b].sector == x;
      if Dirty(s, t) {
        var i :| 0 <= i < NBUF && s[i].dirty && s[i].sector == t;
        assert s'[i].dirty && s'[i].sector == t;
      }
    }
  }

  lemma ClearedStep(s: seq<Buf>, t: nat)
    requires NoneDirty(s)
    ensures !Dirty(s, t) && AnyClean(s)
    ensures forall secs :: InstallReady(s, secs)
  {
    assert !s[0].dirty;
  }

  lemma AllPinned(s: seq<Buf>, disk: Disk, touched: set<nat>, secs: seq<nat>)
    requires Coherent(s, disk, touched) && Distinct(secs) && !AnyClean(s)
    requires forall t: nat :: Dirty(s, t) ==> t in secs
    ensures |secs| >= NBUF
  {
    var xs := seq(NBUF, i requires 0 <= i < NBUF => s[i].sector);
    forall i, j | 0 <= i < j < NBUF ensures xs[i] != xs[j] {
      if xs[i] == xs[j] { OneBuffer(s, disk, touched, i, j); }
    }
    forall i | 0 <= i < NBUF ensures xs[i] in secs { assert Dirty(s, s[i].sector); }
    DrawnFrom(xs, secs);
  }

  lemma NotAllPinned(s: seq<Buf>, secs: seq<nat>)
    requires Distinct(secs) && AnyClean(s)
    requires forall k :: 0 <= k < |secs| ==> Dirty(s, secs[k])
    ensures |secs| < NBUF
  {
    var c :| 0 <= c < NBUF && !s[c].dirty;
    var at := seq(|secs|, k requires 0 <= k < |secs| => Pinner(s, secs, k));
    forall i, j | 0 <= i < j < |at| ensures at[i] != at[j] { assert secs[i] != secs[j]; }
    AvoidOne(at, NBUF, c);
  }

  /** A buffer is left for the log exactly when fewer sectors are pinned than there are buffers. */
  lemma CleanIffRoom(s: seq<Buf>, disk: Disk, touched: set<nat>, secs: seq<nat>)
    requires Coherent(s, disk, touched) && Distinct(secs) && PinsExactly(s, secs)
    ensures AnyClean(s) <==> |secs| < NBUF
  {
    if !AnyClean(s) { AllPinned(s, disk, touched, secs); }
    else { NotAllPinned(s, secs); }
  }

  ghost function Pinner(s: seq<Buf>, secs: seq<nat>, k: nat): (i: nat)
    requires |s| == NBUF + 1 && k < |secs| && Dirty(s, secs[k])
    ensures i < NBUF && s[i].dirty && s[i].sector == secs[k]
  {
    var i :| 0 <= i < NBUF && s[i].dirty && s[i].sector == secs[k]; i
  }

  /** Only sectors still to be installed are pinned, and there is room to read their log blocks. */
  ghost predicate InstallReady(s: seq<Buf>, rest: seq<nat>) {
    && (forall t: nat :: Dirty(s, t) ==> t in rest)
    && (NoneDirty(s) || (AnyClean(s) && forall t: nat :: t in rest ==> Dirty(s, t)))
  }

  lemma InstallReadyFirst(s: seq<Buf>, secs: seq<nat>, tail: nat)
    requires tail < |secs| && InstallReady(s, secs[tail..])
    ensures forall t: nat :: Dirty(s, t) ==> t in secs
    ensures NoneDirty(s) || (AnyClean(s) && Dirty(s, secs[tail]))
  {
    assert secs[tail] == secs[tail..][0];
  }

  lemma InstallReadyStep(s: seq<Buf>, s': seq<Buf>, secs: seq<nat>, tail: nat)
    requires tail < |secs| && Distinct(secs) && InstallReady(s, secs[tail..]) && AnyClean(s')
    requires forall t: nat :: Dirty(s', t) <==> Dirty(s, t) && t != secs[tail]
    requires NoneDirty(s) ==> NoneDirty(s')
    ensures InstallReady(s', secs[tail + 1..])
  {
    assert secs[tail..] == [secs[tail]] + secs[tail + 1..] && secs[tail] !in secs[tail + 1..];
  }

  lemma NoMoreDirty(s: seq<Buf>)
    requires |s| == NBUF + 1 && forall t: nat :: !Dirty(s, t)
    ensures NoneDirty(s)
  {
    forall i | 0 <= i < NBUF ensures !s[i].dirty { assert !Dirty(s, s[i].sector); }
  }

  /** Store into the one held buffer, bwrite it, brelse it. */
  method WriteHeld(cache: Cache, b: nat, data: Block)
    requires cache.Valid() && b < NBUF && cache.touched == {} && cache.bufs[b].valid
    requires forall i :: 0 <= i < NBUF ==> cache.bufs[i].busy == (i == b)
    modifies cache, cache.bufs
    ensures cache.Valid() && Quiet(cache.bufs[..]) && cache.touched == {}
    ensures cache.disk == old(cache.disk[cache.bufs[b].sector := data]) && cache.history == old(cache.history) + [cache.disk]
    ensures Cleaned(old(cache.bufs[..]), cache.bufs[..], b)
  {
    StoreThrough(cache, b, data);
    var _ := cache.Brelse(b);
  }

  class Log {
    const cache: Cache
    const area: Area
    const sector: array<nat>
    var n: nat
    var outstanding: nat
    var committing: bool

    constructor (cache: Cache, area: Area)
      ensures this.cache == cache && this.area == area && fresh(sector) && sector.Length == LOGSIZE
      ensures n == 0 && outstanding == 0 && !committing
    {
      this.cache := cache;
      this.area := area;
      sector := new nat[LOGSIZE](_ => 0);
      n, outstanding, committing := 0, 0, false;
    }

    ghost predicate WellFormed()
      reads this`n, sector, cache, cache.bufs
    {
      && cache.Valid() && sector.Length == LOGSIZE && n <= LOGSIZE
      && Loggable(cache.disk, area, sector[..n])
    }

    ghost predicate Valid()
      reads this`n, sector, cache, cache.bufs
    {
      WellFormed() && cache.touched == {}
    }

    ghost function Secs(): seq<nat>
      requires sector.Length == LOGSIZE && n <= LOGSIZE
      reads this`n, sector
    {
      sector[..n]
    }

    /** The contents logged so far, sector by sector. */
    ghost function Pending(): (r: seq<Block>)
      requires WellFormed()
      reads this`n, sector, cache, cache.bufs
      ensures |r| == n
    {
      Meant(cache.bufs[..], cache.disk, Secs())
    }

    /** One pinned block into its log block. */
    method LogBlock(tail: nat) returns (ok: bool)
      requires Valid() && Quiet(cache.bufs[..]) && tail < n
      requires PinsExactly(cache.bufs[..], Secs())
      modifies cache, cache.bufs
      ensures cache.Valid()
      ensures ok == AnyClean(old(cache.bufs[..]))
      ensures !ok ==> cache.disk == old(cache.disk) && cache.history == old(cache.history)
      ensures ok ==>
        && Valid() && Quiet(cache.bufs[..]) && AnyClean(cache.bufs[..])
        && cache.disk == old(cache.disk)[area.start + 1 + tail := old(Pending())[tail]]
        && cache.history == old(cache.history) + [cache.disk]
        && PinsExactly(cache.bufs[..], Secs())
        && Pending() == old(Pending())
    {
      ghost var secs, d := Secs(), cache.disk;
      var dst := area.start + tail + 1;
      assert secs[tail] == sector[tail] && Home(d, area, secs[tail]);
      assert dst !in secs by { LogNotHome(d, area, secs, dst); }
      ok := CopySector(cache, dst, sector[tail], true);
      if ok {
        assert Loggable(cache.disk, area, secs) by { LoggableSize(d, cache.disk, area, secs); }
        forall i | 0 <= i < n ensures cache.Contents(secs[i]) == old(cache.Contents(secs[i])) {
          assert Home(d, area, secs[i]);
        }
      }
    }

    /** Copies the pinned blocks into the log; it panics exactly when no buffer is clean. */
    method WriteLog(ghost head: Block, ghost empty: Block) returns (ok: bool)
      requires Valid() && Quiet(cache.bufs[..]) && n > 0
      requires PinsExactly(cache.bufs[..], Secs())
      modifies cache, cache.bufs
      ensures cache.Valid()
      ensures ok == AnyClean(old(cache.bufs[..]))
      ensures !ok ==> cache.disk == old(cache.disk) && cache.history == old(cache.history)
      ensures ok ==>
        && Valid() && Quiet(cache.bufs[..]) && AnyClean(cache.bufs[..])
        && Loggable(old(cache.disk), area, Secs())
        && cache.disk == Txn(old(cache.disk), area, Secs(), old(Pending()), head, empty, n)
        && cache.history == old(cache.history) + TxnTrail(old(cache.disk), area, Secs(), old(Pending()), head, empty, n)
        && PinsExactly(cache.bufs[..], Secs())
        && Pending() == old(Pending())
    {
      hide Ring, Coherent;
      ghost var d, secs, blocks, h := cache.disk, Secs(), Pending(), cache.history;
      ghost var clean := AnyClean(cache.bufs[..]);
      var tail := 0;
      while tail < n
        invariant 0 <= tail <= n && Valid() && Quiet(cache.bufs[..])
        invariant AnyClean(cache.bufs[..]) == clean && (tail > 0 ==> clean)
        invariant PinsExactly(cache.bufs[..], secs)
        invariant |cache.disk| == |d| && cache.disk == Txn(d, area, secs, blocks, head, empty, tail)
        invariant cache.history == h + TxnTrail(d, area, secs, blocks, head, empty, tail)
        invariant Pending() == blocks
      {
        ok := LogBlock(tail);
        if !ok { return; }
        tail := tail + 1;
        assert cache.disk == Txn(d, area, secs, blocks, head, empty, tail);
      }
      ok := true;
    }

    /** One log block into its home sector. */
    method InstallBlock(tail: nat) returns (ok: bool)
      requires Valid() && Quiet(cache.bufs[..]) && tail < n
      requires forall t: nat :: Dirty(cache.bufs[..], t) ==> t in Secs()
      requires NoneDirty(cache.bufs[..]) || (AnyClean(cache.bufs[..]) && Dirty(cache.bufs[..], sector[tail]))
      modifies cache, cache.bufs
      ensures ok && Valid() && Quiet(cache.bufs[..]) && AnyClean(cache.bufs[..])
      ensures cache.disk == old(cache.disk)[sector[tail] := old(cache.disk)[area.start + 1 + tail]]
      ensures cache.history == old(cache.history) + [cache.disk]
      ensures forall t: nat :: Dirty(cache.bufs[..], t) <==> Dirty(old(cache.bufs[..]), t) && t != sector[tail]
      ensures NoneDirty(old(cache.bufs[..])) ==> NoneDirty(cache.bufs[..])
    {
      ghost var secs, d := Secs(), cache.disk;
      var src := area.start + tail + 1;
      assert secs[tail] == sector[tail] && Home(d, area, secs[tail]);
      assert src !in secs by { LogNotHome(d, area, secs, src); }
      CleanContents(cache, src);
      ok := CopySector(cache, src, sector[tail], false);
      LoggableSize(d, cache.disk, area, secs);
    }

    /** Copies every log block home and unpins it. */
    method InstallTrans(ghost empty: Block) returns (ok: bool)
      requires Valid() && Quiet(cache.bufs[..])
      requires InstallReady(cache.bufs[..], Secs())
      modifies cache, cache.bufs
      ensures ok && Valid() && Quiet(cache.bufs[..]) && NoneDirty(cache.bufs[..])
      ensures Loggable(old(cache.disk), area, Secs())
      ensures cache.disk == Installed(old(cache.disk), area, Secs(), empty, n)
      ensures cache.history == old(cache.history) + InstallTrail(old(cache.disk), area, Secs(), empty, n)
    {
      hide Ring, Coherent;
      ghost var d, secs, h := cache.disk, Secs(), cache.history;
      ok := true;
      var tail := 0;
      while tail < n
        invariant 0 <= tail <= n && ok && Valid() && Quiet(cache.bufs[..])
        invariant InstallReady(cache.bufs[..], secs[tail..])
        invariant |cache.disk| == |d| && cache.disk == Installed(d, area, secs, empty, tail)
        invariant cache.history == h + InstallTrail(d, area, secs, empty, tail)
      {
        InstallReadyFirst(cache.bufs[..], secs, tail);
        InstalledAt(d, area, secs, empty, tail, area.start + 1 + tail);
        HomeNotLogged(d, area, secs, area.start + 1 + tail);
        ghost var s0 := cache.bufs[..];
        ok := InstallBlock(tail);
        InstallReadyStep(s0, cache.bufs[..], secs, tail);
        tail := tail + 1;
        assert cache.disk == Installed(d, area, secs, empty, tail);
      }
      NoMoreDirty(cache.bufs[..]);
    }

    /** Stores n and the sector numbers in the header block and writes it. */
    method WriteHead() returns (ok: bool)
      requires Valid() && Quiet(cache.bufs[..]) && AnyClean(cache.bufs[..]) && !Dirty(cache.bufs[..], area.start)
      modifies cache, cache.bufs
      ensures ok && Valid() && Quiet(cache.bufs[..]) && AnyClean(cache.bufs[..])
      ensures cache.disk == old(cache.disk)[area.start := MakeHead(old(cache.disk)[area.start], Secs())]
      ensures cache.history == old(cache.history) + [cache.disk]
      ensures forall t: nat :: Dirty(cache.bufs[..], t) <==> Dirty(old(cache.bufs[..]), t)
      ensures NoneDirty(cache.bufs[..]) == NoneDirty(old(cache.bufs[..]))
    {
      hide Ring, Coherent;
      ghost var secs, d := Secs(), cache.disk;
      CleanContents(cache, area.start);
      var b;
      ok, b := ReadQuiet(cache, area.start);
      var hb := SetWord(cache.bufs[b].data, 0, n);
      var i := 0;
      while i < n
        invariant 0 <= i <= n && hb == FillHead(cache.bufs[b].data, secs, i)
      {
        hb := SetWord(hb, 1 + i, sector[i]);
        i := i + 1;
      }
      ghost var s1 := cache.bufs[..];
      SameDirtySame(old(cache.bufs[..]), s1);
      WriteHeld(cache, b, hb);
      DirtyCleaned(s1, cache.bufs[..], d, {}, b);
      LoggableSize(d, cache.disk, area, secs);
    }

    method LoadSectors(lh: Block)
      requires sector.Length == LOGSIZE && Word(lh, 0) <= LOGSIZE
      modifies this`n, sector
      ensures n == Word(lh, 0) && sector[..n] == HeadSectors(lh)
    {
      n := Word(lh, 0);
      var i := 0;
      while i < n
        invariant 0 <= i <= n && n == Word(lh, 0)
        invariant forall j :: 0 <= j < i ==> sector[j] == Word(lh, 1 + j)
      {
        sector[i] := Word(lh, 1 + i);
        i := i + 1;
      }
    }

    /** Loads n and the sector numbers from the header block. */
    method ReadHead() returns (ok: bool)
      requires cache.Valid() && cache.touched == {} && Quiet(cache.bufs[..]) && NoneDirty(cache.bufs[..])
      requires sector.Length == LOGSIZE && Sane(cache.disk, area)
      modifies this`n, sector, cache, cache.bufs
      ensures ok && Valid() && Quiet(cache.bufs[..]) && NoneDirty(cache.bufs[..])
      ensures cache.disk == old(cache.disk) && cache.history == old(cache.history)
      ensures Secs() == Logged(cache.disk, area)
    {
      hide Ring, Coherent;
      ghost var s0 := cache.bufs[..];
      CleanContents(cache, area.start);
      assert !s0[0].dirty;
      var b;
      ok, b := ReadQuiet(cache, area.start);
      SameDirtySame(s0, cache.bufs[..]);
      LoadSectors(cache.bufs[b].data);
      var _ := cache.Brelse(b);
    }

    /** The first half of commit, up to the header write that commits. */
    method LogAll(ghost head: Block, ghost empty: Block) returns (ok: bool)
      requires Valid() && Quiet(cache.bufs[..]) && n > 0 && head == MakeHead(cache.disk[area.start], Secs())
      requires PinsExactly(cache.bufs[..], Secs())
      modifies cache, cache.bufs
      ensures ok == AnyClean(old(cache.bufs[..])) && Loggable(old(cache.disk), area, Secs())
      ensures !ok ==> cache.disk == old(cache.disk) && cache.history == old(cache.history)
      ensures ok ==>
        && Valid() && Quiet(cache.bufs[..]) && InstallReady(cache.bufs[..], Secs())
        && cache.disk == Txn(old(cache.disk), area, Secs(), old(Pending()), head, empty, n + 1)
        && cache.history == old(cache.history) + TxnTrail(old(cache.disk), area, Secs(), old(Pending()), head, empty, n + 1)
    {
      hide Ring, Coherent;
      ghost var d, secs, blocks := cache.disk, Secs(), Pending();
      ok := WriteLog(head, empty);
      if !ok { return; }
      TxnAt(d, area, secs, blocks, head, empty, n, area.start);
      LogNotHome(d, area, secs, area.start);
      ok := WriteHead();
      assert cache.disk == Txn(d, area, secs, blocks, head, empty, n + 1);
    }

    /** install_trans, then forget the transaction and clear the header. */
    method InstallAll(ghost empty: Block) returns (ok: bool)
      requires Valid() && Quiet(cache.bufs[..]) && InstallReady(cache.bufs[..], Secs())
      requires empty == MakeHead(cache.disk[area.start], [])
      modifies this`n, cache, cache.bufs
      ensures ok && n == 0 && Valid() && Quiet(cache.bufs[..]) && NoneDirty(cache.bufs[..])
      ensures Loggable(old(cache.disk), area, old(Secs()))
      ensures cache.disk == Installed(old(cache.disk), area, old(Secs()), empty, old(n) + 1)
      ensures cache.history == old(cache.history) + InstallTrail(old(cache.disk), area, old(Secs()), empty, old(n) + 1)
    {
      hide Ring, Coherent;
      ghost var d, secs := cache.disk, Secs();
      ok := InstallTrans(empty);
      InstalledAt(d, area, secs, empty, |secs|, area.start);
      n := 0;
      ClearedStep(cache.bufs[..], area.start);
      ok := WriteHead();
      assert cache.disk == Installed(d, area, secs, empty, |secs| + 1);
    }

    /** commit: write the log, the header, the home sectors, the empty header.  It runs to the end
        exactly when fewer than NBUF sectors are logged; with all buffers pinned the first bread of
        write_log panics.  The disks it leaves after each sector write are those of RedoLog.Committing. */
    method Commit() returns (ok: bool)
      requires Valid() && Quiet(cache.bufs[..])
      requires PinsExactly(cache.bufs[..], Secs())
      modifies this`n, cache, cache.bufs
      ensures ok <==> old(n) < NBUF
      ensures !ok ==> cache.disk == old(cache.disk) && cache.history == old(cache.history)
      ensures Loggable(old(cache.disk), area, old(Secs()))
      ensures ok ==>
        && n == 0 && Valid() && Quiet(cache.bufs[..]) && NoneDirty(cache.bufs[..])
        && cache.disk == Committing(old(cache.disk), area, old(Secs()), old(Pending()), CommitLength(old(Secs())))
        && cache.history == old(cache.history) + CommitTrail(old(cache.disk), area, old(Secs()), old(Pending()))
    {
      hide Ring, Coherent;
      CleanIffRoom(cache.bufs[..], cache.disk, cache.touched, Secs());
      if n == 0 {
        NoMoreDirty(cache.bufs[..]);
        return true;
      }
      ghost var d, secs, blocks := cache.disk, Secs(), Pending();
      ghost var head := MakeHead(d[area.start], secs);
      ghost var empty := MakeHead(head, []);
      ok := LogAll(head, empty);
      if !ok { return; }
      TxnAt(d, area, secs, blocks, head, empty, |secs| + 1, area.start);
      ok := InstallAll(empty);
      TrailJoin(d, area, secs, blocks, head, empty, |secs|);
    }

    /** recover_from_log: install what the header names, then clear the header. */
    method RecoverFromLog() returns (ok: bool)
      requires cache.Valid() && cache.touched == {} && Quiet(cache.bufs[..]) && NoneDirty(cache.bufs[..])
      requires sector.Length == LOGSIZE && Sane(cache.disk, area)
      modifies this`n, sector, cache, cache.bufs
      ensures ok && n == 0 && Valid() && Quiet(cache.bufs[..]) && NoneDirty(cache.bufs[..])
      ensures var (d, a) := (old(cache.disk), area);
        && cache.disk == Recovering(d, a, |Logged(d, a)| + 1)
        && cache.history == old(cache.history) + InstallTrail(d, a, Logged(d, a), MakeHead(d[a.start], []), |Logged(d, a)| + 1)
    {
      ok := ReadHead();
      ClearedStep(cache.bufs[..], area.start);
      ok := InstallAll(MakeHead(cache.disk[area.start], []));
    }

    /** log_write: absorb or append the sector of b and pin b. */
    method LogWrite(b: nat) returns (ok: bool)
      requires WellFormed() && b < NBUF && cache.bufs[b].busy && cache.bufs[b].valid
      requires Home(cache.disk, area, cache.bufs[b].sector) && cache.bufs[b].sector < TWO32
      modifies this`n, sector, cache`touched, cache.bufs
      ensures WellFormed()
      ensures ok <==> old(n < LOGSIZE && n < area.size - 1 && outstanding >= 1)
      ensures !ok ==> n == old(n) && sector[..] == old(sector[..]) && cache.bufs[..] == old(cache.bufs[..])
      ensures ok ==>
        && Secs() == Absorb(old(Secs()), cache.bufs[b].sector)
        && cache.touched == old(cache.touched) - {b}
        && cache.bufs[..] == old(cache.bufs[..][b := cache.bufs[b].(dirty := true)])
      ensures ok && old(PinsExactly(cache.bufs[..], Secs())) ==> PinsExactly(cache.bufs[..], Secs())
      ensures forall t: nat :: t < |cache.disk| ==> cache.Contents(t) == old(cache.Contents(t))
    {
      if n >= LOGSIZE || n >= area.size - 1 { return false; }
      if outstanding < 1 { return false; }
      var x := cache.bufs[b].sector;
      ghost var secs := Secs();
      var i := 0;
      while i < n && sector[i] != x
        invariant 0 <= i <= n && forall j :: 0 <= j < i ==> sector[j] != x
      {
        i := i + 1;
      }
      AbsorbScan(secs, x, i);
      AbsorbLoggable(cache.disk, area, secs, x);
      sector[i] := x;
      if i == n { n := n + 1; }
      assert sector[..n] == Absorb(secs, x);
      ghost var s := cache.bufs[..];
      cache.Pin(b);
      PinsAbsorb(s, secs, b);
      ok := true;
    }

    /** One pass of begin_op's loop; false means it went to sleep. */
    method BeginOp() returns (started: bool)
      modifies this`outstanding
      ensures started <==> !committing && n + (old(outstanding) + 1) * MAXOPBLOCKS <= LOGSIZE
      ensures outstanding == if started then old(outstanding) + 1 else old(outstanding)
    {
      if committing { return false; }
      if n + (outstanding + 1) * MAXOPBLOCKS > LOGSIZE { return false; }
      outstanding := outstanding + 1;
      started := true;
    }

    /** end_op: the last operation out commits the whole group. */
    method EndOp() returns (ok: bool)
      requires WellFormed() && outstanding >= 1
      requires outstanding == 1 ==> cache.touched == {} && Quiet(cache.bufs[..]) && PinsExactly(cache.bufs[..], Secs())
      modifies this`n, this`outstanding, this`committing, cache, cache.bufs
      ensures outstanding == old(outstanding) - 1
      ensures ok <==> !old(committing) && (old(outstanding) == 1 ==> old(n) < NBUF)
      ensures !ok ==> cache.disk == old(cache.disk) && cache.history == old(cache.history)
      ensures ok ==> !committing && WellFormed()
      ensures ok && old(outstanding) > 1 ==>
        n == old(n) && cache.disk == old(cache.disk) && cache.history == old(cache.history) &&
        cache.touched == old(cache.touched) && cache.order == old(cache.order) && cache.bufs[..] == old(cache.bufs[..])
      ensures ok && old(outstanding) == 1 ==>
        && n == 0 && Valid() && Quiet(cache.bufs[..]) && NoneDirty(cache.bufs[..]) && Loggable(old(cache.disk), area, old(Secs()))
        && cache.disk == Committing(old(cache.disk), area, old(Secs()), old(Pending()), CommitLength(old(Secs())))
        && cache.history == old(cache.history) + CommitTrail(old(cache.disk), area, old(Secs()), old(Pending()))
    {
      outstanding := outstanding - 1;
      if committing { return false; }
      if outstanding > 0 { return true; }
      committing := true;
      ok := Commit();
      if ok { committing := false; }
    }
  }

  // ---------------------------------------------------------------- a group of operations

  /** The sectors logged by these writes, in order. */
  function LoggedBy(writes: seq<Write>): seq<nat> {
    if writes == [] then [] else Absorb(LoggedBy(writes[..|writes| - 1]), writes[|writes| - 1].sector)
  }

  /** What the writes leave in sector t on top of b. */
  function LastWrite(writes: seq<Write>, t: nat, b: Block): Block {
    if writes == [] then b
    else if writes[|writes| - 1].sector == t then writes[|writes| - 1].block
    else LastWrite(writes[..|writes| - 1], t, b)
  }

  /** Storing into the one held buffer, logging it, and releasing it. */
  method LogHeld(log: Log, b: nat, data: Block) returns (ok: bool)
    requires log.Valid() && PinsExactly(log.cache.bufs[..], log.Secs()) && b < NBUF && log.cache.bufs[b].valid
    requires forall i :: 0 <= i < NBUF ==> log.cache.bufs[i].busy == (i == b)
    requires Home(log.cache.disk, log.area, log.cache.bufs[b].sector) && log.cache.bufs[b].sector < TWO32
    modifies log`n, log.sector, log.cache`touched, log.cache`order, log.cache.bufs
    ensures ok <==> old(log.n < LOGSIZE && log.n < log.area.size - 1 && log.outstanding >= 1)
    ensures ok ==> Ready(log) && log.Secs() == Absorb(old(log.Secs()), old(log.cache.bufs[b].sector))
    ensures ok ==> forall u: nat :: u < |log.cache.disk| ==>
      log.cache.Contents(u) == if u == old(log.cache.bufs[b].sector) then data else old(log.cache.Contents(u))
  {
    hide Ring, Coherent, PinsExactly, Loggable, Dirty, Absorb;
    ghost var s := log.cache.bufs[..];
    log.cache.Modify(b, data);
    PinsSame(s, log.cache.bufs[..], log.Secs());
    ok := log.LogWrite(b);
    if !ok { return; }
    ghost var p := log.cache.bufs[..];
    var _ := log.cache.Brelse(b);
    PinsSame(p, log.cache.bufs[..], log.Secs());
  }

  /** What an operation does to change a sector: bread, store, log_write, brelse.  While the log has room
      there is a buffer for it. */
  method UpdateSector(log: Log, t: nat, data: Block) returns (ok: bool)
    requires Ready(log) && Home(log.cache.disk, log.area, t) && t < TWO32
    modifies log`n, log.sector, log.cache, log.cache.bufs
    ensures log.cache.disk == old(log.cache.disk) && log.cache.history == old(log.cache.history)
    ensures ok <==> old(log.n < LOGSIZE && log.n < log.area.size - 1 && log.outstanding >= 1)
    ensures ok ==> Ready(log) && log.Secs() == Absorb(old(log.Secs()), t)
    ensures ok ==> forall u: nat :: u < |log.cache.disk| ==>
      log.cache.Contents(u) == if u == t then data else old(log.cache.Contents(u))
  {
    hide Ring, Coherent;
    ghost var s := log.cache.bufs[..];
    CleanIffRoom(s, log.cache.disk, log.cache.touched, log.Secs());
    var b;
    ok, b := ReadQuiet(log.cache, t);
    if !ok { return; }
    PinsSame(s, log.cache.bufs[..], log.Secs());
    ok := LogHeld(log, b, data);
  }

  lemma {:induction false} LoggedByIs(writes: seq<Write>, t: nat, b: Block)
    ensures |LoggedBy(writes)| <= |writes|
    ensures Find(LoggedBy(writes), t) == |LoggedBy(writes)| ==> LastWrite(writes, t, b) == b
  {
    if writes != [] {
      LoggedByIs(writes[..|writes| - 1], t, b);
      AbsorbFind(LoggedBy(writes[..|writes| - 1]), writes[|writes| - 1].sector, t);
    }
  }

  lemma {:induction false} LoggedByAll(writes: seq<Write>, t: nat)
    ensures Find(LoggedBy(writes), t) < |LoggedBy(writes)| <==> exists i :: 0 <= i < |writes| && writes[i].sector == t
  {
    if writes != [] {
      var n := |writes| - 1;
      LoggedByAll(writes[..n], t);
      AbsorbFind(LoggedBy(writes[..n]), writes[n].sector, t);
      forall i | 0 <= i < n ensures writes[..n][i] == writes[i] { }
    }
  }

  /** Different sectors are not absorbed: thirty of them fill the log. */
  lemma {:induction false} LoggedByDistinct(writes: seq<Write>)
    requires forall i, j :: 0 <= i < j < |writes| ==> writes[i].sector != writes[j].sector
    ensures |LoggedBy(writes)| == |writes|
  {
    if writes != [] {
      var n := |writes| - 1;
      LoggedByDistinct(writes[..n]);
      LoggedByAll(writes[..n], writes[n].sector);
    }
  }

  lemma NoWrites()
    ensures LoggedBy([]) == [] && forall t: nat, b: Block :: LastWrite([], t, b) == b
  {
  }

  lemma LastWriteStep(writes: seq<Write>, i: nat, t: nat, b: Block)
    requires i < |writes|
    ensures LastWrite(writes[..i + 1], t, b) == if t == writes[i].sector then writes[i].block else LastWrite(writes[..i], t, b)
  {
    assert writes[..i + 1][..i] == writes[..i];
  }

  lemma LoggedByStep(writes: seq<Write>, i: nat)
    requires i < |writes|
    ensures LoggedBy(writes[..i + 1]) == Absorb(LoggedBy(writes[..i]), writes[i].sector) && |LoggedBy(writes[..i])| <= i
  {
    assert writes[..i + 1][..i] == writes[..i];
    LoggedByIs(writes[..i], 0, Zero());
  }

  /** Every write begins with an entry of the header and a sector of the log left, as log_write demands
      also of a sector that is logged already. */
  predicate Roomy(writes: seq<Write>, size: nat) {
    forall i :: 0 <= i < |writes| ==> |LoggedBy(writes[..i])| < LOGSIZE && |LoggedBy(writes[..i])| + 1 < size
  }

  lemma {:induction false} LoggedByGrows(writes: seq<Write>, i: nat)
    requires i <= |writes|
    ensures |LoggedBy(writes[..i])| <= |LoggedBy(writes)|
    decreases |writes| - i
  {
    if i == |writes| {
      assert writes[..i] == writes;
    } else {
      LoggedByStep(writes, i);
      LoggedByGrows(writes, i + 1);
    }
  }

  /** Whether there is room is decided when the last write begins. */
  lemma LastDecides(writes: seq<Write>, size: nat)
    requires writes != []
    ensures Roomy(writes, size) <==> |LoggedBy(writes[..|writes| - 1])| < LOGSIZE && |LoggedBy(writes[..|writes| - 1])| + 1 < size
  {
    var n := |writes| - 1;
    forall i | 0 <= i <= n ensures |LoggedBy(writes[..i])| <= |LoggedBy(writes[..n])| {
      LoggedByGrows(writes[..n], i);
      assert writes[..n][..i] == writes[..i];
    }
  }

  /** With as many different sectors written as the log has room for, any further write is one too many,
      also one to a sector already logged. */
  lemma RepeatIsTooMuch(writes: seq<Write>, w: Write, size: nat)
    requires size > 0 && |writes| == if size <= LOGSIZE then size - 1 else LOGSIZE
    requires forall i, j :: 0 <= i < j < |writes| ==> writes[i].sector != writes[j].sector
    ensures Roomy(writes, size) && !Roomy(writes + [w], size)
  {
    LoggedByDistinct(writes);
    assert (writes + [w])[..|writes|] == writes;
    forall i | 0 <= i < |writes| ensures |LoggedBy(writes[..i])| < |writes| { LoggedByStep(writes, i); }
  }

  /** All the writes of the operations outstanding, as far as log_write does not panic. */
  method UpdateAll(log: Log, writes: seq<Write>) returns (ok: bool)
    requires Ready(log) && log.n == 0 && log.outstanding >= 1
    requires forall i :: 0 <= i < |writes| ==> Home(log.cache.disk, log.area, writes[i].sector) && writes[i].sector < TWO32
    modifies log`n, log.sector, log.cache, log.cache.bufs
    ensures ok <==> Roomy(writes, log.area.size)
    ensures log.cache.disk == old(log.cache.disk) && log.cache.history == old(log.cache.history)
    ensures ok ==> Ready(log) && log.Secs() == LoggedBy(writes)
    ensures ok ==> forall t: nat :: t < |log.cache.disk| ==>
      log.cache.Contents(t) == LastWrite(writes, t, old(log.cache.Contents(t)))
  {
    hide Ring, Coherent, Quiet, PinsExactly, Loggable, Absorb, LastWrite, LoggedBy;
    NoWrites();
    assert writes[..0] == [];
    var i := 0;
    while i < |writes|
      invariant 0 <= i <= |writes| && Ready(log) && log.Secs() == LoggedBy(writes[..i])
      invariant forall j :: 0 <= j < i ==> |LoggedBy(writes[..j])| < LOGSIZE && |LoggedBy(writes[..j])| + 1 < log.area.size
      invariant log.cache.disk == old(log.cache.disk) && log.cache.history == old(log.cache.history)
      invariant forall t: nat :: t < |log.cache.disk| ==>
        log.cache.Contents(t) == LastWrite(writes[..i], t, old(log.cache.Contents(t)))
    {
      LoggedByStep(writes, i);
      ok := UpdateSector(log, writes[i].sector, writes[i].block);
      if !ok { return; }
      forall t: nat | t < |log.cache.disk|
        ensures log.cache.Contents(t) == LastWrite(writes[..i + 1], t, old(log.cache.Contents(t)))
      {
        LastWriteStep(writes, i, t, old(log.cache.Contents(t)));
      }
      i := i + 1;
    }
    assert writes[..i] == writes;
    ok := true;
  }

  /** The blocks a group of writes logs, over disk d. */
  ghost function GroupBlocks(d: Disk, writes: seq<Write>): (r: seq<Block>)
    requires forall i :: 0 <= i < |LoggedBy(writes)| ==> LoggedBy(writes)[i] < |d|
    ensures |r| == |LoggedBy(writes)|
  {
    var secs := LoggedBy(writes);
    seq(|secs|, i requires 0 <= i < |secs| => LastWrite(writes, secs[i], d[secs[i]]))
  }

  /** One group of three operations, whether or not they keep within their reservations: three begin_ops,
      the writes, three end_ops.  It is committed if and only if every write finds room in the log and
      fewer than NBUF sectors were written; otherwise a panic leaves the disk as it is. */
  method CommitGroup(log: Log, writes: seq<Write>) returns (ok: bool)
    requires log.Valid() && Quiet(log.cache.bufs[..]) && NoneDirty(log.cache.bufs[..])
    requires log.n == log.outstanding == 0 && !log.committing
    requires forall i :: 0 <= i < |writes| ==> Home(log.cache.disk, log.area, writes[i].sector) && writes[i].sector < TWO32
    modifies log, log.sector, log.cache, log.cache.bufs
    ensures ok <==> Roomy(writes, log.area.size) && |LoggedBy(writes)| < NBUF
    ensures ok ==> Loggable(old(log.cache.disk), log.area, LoggedBy(writes))
    ensures var d, secs := old(log.cache.disk), LoggedBy(writes);
      log.cache.disk == if ok then Committing(d, log.area, secs, GroupBlocks(d, writes), CommitLength(secs)) else d
  {
    hide Ring, Coherent, Quiet, Loggable, Committing, Roomy;
    ghost var d := log.cache.disk;
    NothingPinned(log.cache.bufs[..]);
    forall t: nat | t < |d| ensures log.cache.Contents(t) == d[t] {
      ClearedStep(log.cache.bufs[..], t);
      CleanContents(log.cache, t);
    }
    var started := log.BeginOp();
    started := log.BeginOp();
    started := log.BeginOp();
    ok := UpdateAll(log, writes);
    if !ok { return; }
    LoggableBelow(d, log.area, LoggedBy(writes));
    forall i | 0 <= i < log.n ensures log.Pending()[i] == GroupBlocks(d, writes)[i] {
      assert log.Pending()[i] == log.cache.Contents(log.Secs()[i]);
    }
    assert log.Pending() == GroupBlocks(d, writes);
    ok := log.EndOp();
    ok := log.EndOp();
    ok := log.EndOp();
  }

  lemma LoggableBelow(d: Disk, a: Area, secs: seq<nat>)
    requires Loggable(d, a, secs)
    ensures forall i :: 0 <= i < |secs| ==> secs[i] < |d|
  {
  }

  /** A committed group leaves in every home sector what was last written to it. */
  lemma GroupLands(d: Disk, a: Area, writes: seq<Write>, t: nat)
    requires Sane(d, a) && RedoLog.Logged(d, a) == [] && Loggable(d, a, LoggedBy(writes)) && Home(d, a, t)
    ensures var secs := LoggedBy(writes);
      Committing(d, a, secs, GroupBlocks(d, writes), CommitLength(secs))[t] == LastWrite(writes, t, d[t])
  {
    var secs, blocks := LoggedBy(writes), GroupBlocks(d, writes);
    LoggedByIs(writes, t, d[t]);
    CommitAtomic(d, a, secs, blocks, CommitLength(secs));
    Meaning(Committing(d, a, secs, blocks, CommitLength(secs)), a, [], t);
    if secs == [] { Meaning(d, a, [], t); }
  }

  /** Boot and one group: every home sector has its last write, if and only if every write finds room in
      the log and fewer than NBUF sectors were written; otherwise log_write or commit panics and no home
      sector has changed. */
  method RunGroup(log: Log, writes: seq<Write>) returns (ok: bool)
    requires log.cache.Valid() && log.cache.touched == {} && Quiet(log.cache.bufs[..]) && NoneDirty(log.cache.bufs[..])
    requires log.sector.Length == LOGSIZE && Sane(log.cache.disk, log.area)
    requires log.outstanding == 0 && !log.committing
    requires forall i :: 0 <= i < |writes| ==> Home(log.cache.disk, log.area, writes[i].sector) && writes[i].sector < TWO32
    modifies log, log.sector, log.cache, log.cache.bufs
    ensures ok <==> Roomy(writes, log.area.size) && |LoggedBy(writes)| < NBUF
    ensures |log.cache.disk| == |old(log.cache.disk)|
    ensures forall t: nat :: Home(old(log.cache.disk), log.area, t) ==>
      var b := Truth(old(log.cache.disk), log.area, t);
      log.cache.disk[t] == if ok then LastWrite(writes, t, b) else b
  {
    hide Ring, Coherent, Quiet, NoneDirty, Committing, LastWrite, LoggedBy, Roomy;
    ghost var d, a := log.cache.disk, log.area;
    var recovered := log.RecoverFromLog();
    ghost var e := log.cache.disk;
    RecoveryKeepsTruth(d, a, |RedoLog.Logged(d, a)| + 1);
    forall t: nat | Home(d, a, t) ensures Home(e, a, t) && e[t] == Truth(d, a, t) { Meaning(e, a, [], t); }
    ok := CommitGroup(log, writes);
    forall t: nat | Home(d, a, t) && ok ensures log.cache.disk[t] == LastWrite(writes, t, e[t]) { GroupLands(e, a, writes, t); }
  }

  lemma NothingPinned(s: seq<Buf>)
    requires NoneDirty(s)
    ensures PinsExactly(s, [])
  {
  }

  /** A crash after any sector write of Commit, and any number of crashes during the recoveries that
      follow, leaves the home sectors all old or all new. */
  lemma EveryCommitDiskRecovers(d: Disk, a: Area, secs: seq<nat>, blocks: seq<Block>, i: nat, crashes: seq<nat>)
    requires Sane(d, a) && RedoLog.Logged(d, a) == [] && Loggable(d, a, secs) && |blocks| == |secs| && i < CommitLength(secs)
    ensures var r := CommitTrail(d, a, secs, blocks)[i];
      && Sane(r, a)
      && forall t: nat :: Home(d, a, t) ==>
           CrashyRecovery(r, a, crashes)[t] == if i < |secs| then d[t] else After(d, secs, blocks, t)
  {
    CommitCrashSafe(d, a, secs, blocks, i + 1, crashes);
  }

  /** Buffers of different sectors are no more than the sectors. */
  lemma {:induction false} OneEach(s: seq<Buf>, at: set<nat>, secs: set<nat>)
    requires |s| == NBUF + 1 && forall i :: i in at ==> i < NBUF && s[i].sector in secs
    requires forall i, j :: i in at && j in at && s[i].sector == s[j].sector ==> i == j
    ensures |at| <= |secs|
    decreases |at|
  {
    if at != {} {
      var x :| x in at;
      OneEach(s, at - {x}, secs - {s[x].sector});
    }
  }

  ghost predicate IsDirtySet(s: seq<Buf>, dirty: set<nat>) {
    |s| == NBUF + 1 && forall i: nat :: i in dirty <==> i < NBUF && s[i].dirty
  }

  lemma DirtyAtMost(s: seq<Buf>, disk: Disk, touched: set<nat>, secs: seq<nat>, dirty: set<nat>)
    requires Coherent(s, disk, touched) && Distinct(secs) && PinsExactly(s, secs) && IsDirtySet(s, dirty)
    ensures |dirty| <= |secs|
  {
    ElementsSize(secs);
    forall i | i in dirty ensures s[i].sector in Elements(secs) { assert Dirty(s, s[i].sector); }
    forall i, j | i in dirty && j in dirty && s[i].sector == s[j].sector ensures i == j { OneBuffer(s, disk, touched, i, j); }
    hide Coherent, PinsExactly, Dirty, Distinct, Elements;
    OneEach(s, dirty, Elements(secs));
  }

  lemma DirtyAtLeast(s: seq<Buf>, secs: seq<nat>, dirty: set<nat>)
    requires Distinct(secs) && PinsExactly(s, secs) && IsDirtySet(s, dirty)
    ensures |secs| <= |dirty|
  {
    forall k | 0 <= k < |secs| ensures Dirty(s, secs[k]) { assert secs[k] in secs; }
    hide PinsExactly, Dirty;
    var at := seq(|secs|, k requires 0 <= k < |secs| => Pinner(s, secs, k));
    forall i, j | 0 <= i < j < |at| ensures at[i] != at[j] { assert secs[i] != secs[j]; }
    ElementsSize(at);
    SubsetSize(Elements(at), dirty);
  }

  ghost function DirtySet(s: seq<Buf>): (r: set<nat>)
    requires |s| == NBUF + 1
    ensures IsDirtySet(s, r)
  {
    set i: nat | i < NBUF && s[i].dirty
  }

  /** Other processes may hold buffers meanwhile: bget has none to recycle if and only if the sectors logged
      and the clean buffers held make up the whole cache. */
  lemma NoBufferIff(s: seq<Buf>, disk: Disk, touched: set<nat>, secs: seq<nat>, held: set<nat>)
    requires Coherent(s, disk, touched) && Distinct(secs) && PinsExactly(s, secs)
    requires forall i: nat :: i in held <==> i < NBUF && s[i].busy && !s[i].dirty
    ensures (forall i :: 0 <= i < NBUF ==> !Recyclable(s[i])) <==> |secs| + |held| == NBUF
  {
    hide PinsExactly, Distinct;
    var dirty := DirtySet(s);
    DirtyAtMost(s, disk, touched, secs, dirty);
    DirtyAtLeast(s, secs, dirty);
    hide Coherent, DirtySet;
    CoverIff(dirty, held, NBUF);
    assert forall i: nat :: i < NBUF ==> (i in dirty + held <==> !Recyclable(s[i]));
  }
}
