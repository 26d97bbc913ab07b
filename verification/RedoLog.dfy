/** The on-disk redo log of log.c as a list of sector writes, and what a crash
    after any of them leaves behind.  A crash keeps the disk and loses memory. */
module RedoLog {
  import opened Blocks
  import opened Counting
  import opened Machine

  /** `log.start` and `log.size`: header sector, then the log blocks. */
  datatype Area = Area(start: nat, size: nat)

  /** One `bwrite`. */
  datatype Write = Write(sector: nat, block: Block)

  predicate Fits(d: Disk, a: Area) {
    1 <= a.size && a.start + a.size <= |d|
  }

  /** A home sector: on the disk and outside the log area. */
  predicate Home(d: Disk, a: Area, s: nat) {
    s < |d| && !(a.start <= s < a.start + a.size)
  }

  // ---------------------------------------------------------------- header

  /** The position of s, or |secs|: the scan of `log_write`. */
  function Find(secs: seq<nat>, s: nat): (i: nat)
    ensures i <= |secs|
    ensures i < |secs| ==> secs[i] == s
  {
    if secs == [] || secs[0] == s then 0 else 1 + Find(secs[1..], s)
  }

  lemma {:induction false} FindAt(secs: seq<nat>, i: nat)
    requires Distinct(secs) && i < |secs|
    ensures Find(secs, secs[i]) == i
  {
    if i > 0 {
      assert secs[0] != secs[i] == secs[1..][i - 1];
      FindAt(secs[1..], i - 1);
    }
  }

  function HeadSectors(b: Block): seq<nat>
    requires Word(b, 0) <= LOGSIZE
  {
    seq(Word(b, 0), i requires 0 <= i < LOGSIZE => Word(b, 1 + i))
  }

  /** The loop of `write_head` after k sector numbers. */
  function FillHead(b: Block, secs: seq<Uint>, k: nat): Block
    requires k <= |secs| <= LOGSIZE
  {
    if k == 0 then SetWord(b, 0, |secs|) else SetWord(FillHead(b, secs, k - 1), k, secs[k - 1])
  }

  function MakeHead(b: Block, secs: seq<Uint>): Block
    requires |secs| <= LOGSIZE
  {
    FillHead(b, secs, |secs|)
  }

  lemma {:induction false} FillHeadWords(b: Block, secs: seq<Uint>, k: nat, j: nat)
    requires k <= |secs| <= LOGSIZE && j <= k
    ensures Word(FillHead(b, secs, k), j) == if j == 0 then |secs| else secs[j - 1]
  {
    if k == 0 {
      WordSetWord(b, 0, |secs|, 0);
    } else {
      WordSetWord(FillHead(b, secs, k - 1), k, secs[k - 1], j);
      if j < k { FillHeadWords(b, secs, k - 1, j); }
    }
  }

  /** `read_head` gets back what `write_head` stored. */
  lemma HeadRoundTrip(b: Block, secs: seq<Uint>)
    requires |secs| <= LOGSIZE
    ensures Word(MakeHead(b, secs), 0) == |secs|
    ensures HeadSectors(MakeHead(b, secs)) == secs
  {
    FillHeadWords(b, secs, |secs|, 0);
    forall i | 0 <= i < |secs| ensures Word(MakeHead(b, secs), 1 + i) == secs[i] {
      FillHeadWords(b, secs, |secs|, 1 + i);
    }
  }

  /** Logged sectors fit the log, are distinct, and lie outside it. */
  ghost predicate Loggable(d: Disk, a: Area, secs: seq<nat>) {
    && Fits(d, a)
    && |secs| <= LOGSIZE && |secs| < a.size
    && Distinct(secs)
    && forall i :: 0 <= i < |secs| ==> secs[i] < TWO32 && Home(d, a, secs[i])
  }

  lemma {:induction false} FindAppend(secs: seq<nat>, x: nat, t: nat)
    requires Find(secs, x) == |secs|
    ensures Find(secs + [x], t) == if t == x then |secs| else if Find(secs, t) < |secs| then Find(secs, t) else |secs| + 1
  {
    if secs != [] {
      assert (secs + [x])[1..] == secs[1..] + [x];
      FindAppend(secs[1..], x, t);
    }
  }

  lemma {:induction false} FindMember(secs: seq<nat>, i: nat)
    requires i < |secs|
    ensures Find(secs, secs[i]) <= i
  {
    if i > 0 { FindMember(secs[1..], i - 1); }
  }

  /** The scan of `log_write` absorbs a sector already logged and appends a new one. */
  function Absorb(secs: seq<nat>, x: nat): seq<nat> {
    if Find(secs, x) == |secs| then secs + [x] else secs
  }

  lemma AbsorbFind(secs: seq<nat>, x: nat, t: nat)
    ensures Find(Absorb(secs, x), t) < |Absorb(secs, x)| <==> t == x || Find(secs, t) < |secs|
  {
    if Find(secs, x) == |secs| { FindAppend(secs, x, t); }
  }

  /** Absorption keeps the logged sectors distinct and outside the log. */
  lemma AbsorbLoggable(d: Disk, a: Area, secs: seq<nat>, x: nat)
    requires Loggable(d, a, secs) && Home(d, a, x) && x < TWO32 && |secs| < LOGSIZE && |secs| < a.size - 1
    ensures Loggable(d, a, Absorb(secs, x))
  {
    if Find(secs, x) == |secs| {
      forall j | 0 <= j < |secs| ensures secs[j] != x { FindMember(secs, j); }
    }
  }

  ghost predicate Sane(d: Disk, a: Area) {
    && Fits(d, a)
    && Word(d[a.start], 0) <= LOGSIZE
    && Loggable(d, a, HeadSectors(d[a.start]))
  }

  function Logged(d: Disk, a: Area): seq<nat>
    requires Sane(d, a)
  {
    HeadSectors(d[a.start])
  }

  // ---------------------------------------------------------------- writes of commit and recovery

  function Store(d: Disk, w: Write): (r: Disk)
    requires w.sector < |d|
    ensures |r| == |d|
  {
    d[w.sector := w.block]
  }

  /** Write number k of a transaction: log blocks, header, home blocks, empty header. */
  function TxnWrite(a: Area, secs: seq<nat>, blocks: seq<Block>, head: Block, empty: Block, k: nat): Write
    requires |blocks| == |secs| && k < 2 * |secs| + 2
  {
    var n := |secs|;
    if k < n then Write(a.start + 1 + k, blocks[k])
    else if k == n then Write(a.start, head)
    else if k < 2 * n + 1 then Write(secs[k - n - 1], blocks[k - n - 1])
    else Write(a.start, empty)
  }

  /** d after the first k writes of a transaction. */
  function Txn(d: Disk, a: Area, secs: seq<nat>, blocks: seq<Block>, head: Block, empty: Block, k: nat): (r: Disk)
    requires Loggable(d, a, secs) && |blocks| == |secs| && k <= 2 * |secs| + 2
    ensures |r| == |d|
  {
    if k == 0 then d
    else Store(Txn(d, a, secs, blocks, head, empty, k - 1), TxnWrite(a, secs, blocks, head, empty, k - 1))
  }

  /** Sector by sector, what the first k writes of a transaction did. */
  lemma {:induction false} TxnAt(d: Disk, a: Area, secs: seq<nat>, blocks: seq<Block>, head: Block, empty: Block,
                                 k: nat, s: nat)
    requires Loggable(d, a, secs) && |blocks| == |secs|
    requires k <= 2 * |secs| + 2 && s < |d|
    ensures var n := |secs|;
            Txn(d, a, secs, blocks, head, empty, k)[s] ==
               if s == a.start then if k <= n then d[s] else if k <= 2 * n + 1 then head else empty
               else if a.start < s <= a.start + n && s - a.start - 1 < k then blocks[s - a.start - 1]
               else if Find(secs, s) < n && Find(secs, s) + n + 1 < k then blocks[Find(secs, s)]
               else d[s]
  {
    var n := |secs|;
    if k > 0 {
      TxnAt(d, a, secs, blocks, head, empty, k - 1, s);
      if n + 1 < k < 2 * n + 2 { FindAt(secs, k - n - 2); }
    }
  }

  /** Write number k of `recover_from_log`: install the logged blocks, clear the header. */
  function RecoveryWrite(d: Disk, a: Area, secs: seq<nat>, empty: Block, k: nat): Write
    requires Loggable(d, a, secs) && k <= |secs|
  {
    if k < |secs| then Write(secs[k], d[a.start + 1 + k]) else Write(a.start, empty)
  }

  /** d after the first k of them. */
  function Installed(d: Disk, a: Area, secs: seq<nat>, empty: Block, k: nat): (r: Disk)
    requires Loggable(d, a, secs) && k <= |secs| + 1
    ensures |r| == |d|
  {
    if k == 0 then d
    else Store(Installed(d, a, secs, empty, k - 1), RecoveryWrite(d, a, secs, empty, k - 1))
  }

  lemma {:induction false} InstalledAt(d: Disk, a: Area, secs: seq<nat>, empty: Block, k: nat, s: nat)
    requires Loggable(d, a, secs) && k <= |secs| + 1 && s < |d|
    ensures Installed(d, a, secs, empty, k)[s] ==
              if s == a.start then if k <= |secs| then d[s] else empty
              else if Find(secs, s) < |secs| && Find(secs, s) < k then d[a.start + 1 + Find(secs, s)]
              else d[s]
  {
    if k > 0 {
      InstalledAt(d, a, secs, empty, k - 1, s);
      if k <= |secs| { FindAt(secs, k - 1); }
    }
  }

  /** The disks a transaction leaves after each of its first k writes. */
  ghost function TxnTrail(d: Disk, a: Area, secs: seq<nat>, blocks: seq<Block>, head: Block, empty: Block,
                          k: nat): (t: seq<Disk>)
    requires Loggable(d, a, secs) && |blocks| == |secs| && k <= 2 * |secs| + 2
    ensures |t| == k
    ensures forall i :: 0 <= i < k ==> t[i] == Txn(d, a, secs, blocks, head, empty, i + 1)
  {
    if k == 0 then [] else TxnTrail(d, a, secs, blocks, head, empty, k - 1) + [Txn(d, a, secs, blocks, head, empty, k)]
  }

  ghost function InstallTrail(d: Disk, a: Area, secs: seq<nat>, empty: Block, k: nat): (t: seq<Disk>)
    requires Loggable(d, a, secs) && k <= |secs| + 1
    ensures |t| == k
    ensures forall i :: 0 <= i < k ==> t[i] == Installed(d, a, secs, empty, i + 1)
  {
    if k == 0 then [] else InstallTrail(d, a, secs, empty, k - 1) + [Installed(d, a, secs, empty, k)]
  }

  /** Installing from the log after the header write is the rest of the transaction. */
  lemma {:induction false} InstallIsTxn(d: Disk, a: Area, secs: seq<nat>, blocks: seq<Block>, head: Block,
                                        empty: Block, e: Block, j: nat)
    requires Loggable(d, a, secs) && |blocks| == |secs| && j <= |secs|
    ensures Installed(Txn(d, a, secs, blocks, head, empty, |secs| + 1), a, secs, e, j) == Txn(d, a, secs, blocks, head, empty, |secs| + 1 + j)
  {
    if j > 0 {
      InstallIsTxn(d, a, secs, blocks, head, empty, e, j - 1);
      TxnAt(d, a, secs, blocks, head, empty, |secs| + 1, a.start + j);
    }
  }

  // ---------------------------------------------------------------- what a disk means

  /** What sector s will hold once recovery has run on d. */
  function Truth(d: Disk, a: Area, s: nat): Block
    requires Sane(d, a) && s < |d|
  {
    var i := Find(Logged(d, a), s);
    if i < |Logged(d, a)| then d[a.start + 1 + i] else d[s]
  }

  /** d after the first k writes of `recover_from_log`. */
  function Recovering(d: Disk, a: Area, k: nat): (r: Disk)
    requires Sane(d, a) && k <= |Logged(d, a)| + 1
    ensures |r| == |d|
  {
    Installed(d, a, Logged(d, a), MakeHead(d[a.start], []), k)
  }

  /** The number of sector writes of `commit`. */
  function CommitLength(secs: seq<nat>): nat {
    if secs == [] then 0 else 2 * |secs| + 2
  }

  /** d after the first k writes of `commit`. */
  function Committing(d: Disk, a: Area, secs: seq<nat>, blocks: seq<Block>, k: nat): (r: Disk)
    requires Loggable(d, a, secs) && |blocks| == |secs| && k <= CommitLength(secs)
    ensures |r| == |d|
  {
    var head := MakeHead(d[a.start], secs);
    Txn(d, a, secs, blocks, head, MakeHead(head, []), k)
  }

  /** Only the header decides what a disk means, given its sectors. */
  lemma Meaning(d: Disk, a: Area, secs: seq<nat>, s: nat)
    requires Loggable(d, a, secs) && Word(d[a.start], 0) == |secs| && HeadSectors(d[a.start]) == secs && s < |d|
    ensures Sane(d, a) && Logged(d, a) == secs
    ensures Truth(d, a, s) == if Find(secs, s) < |secs| then d[a.start + 1 + Find(secs, s)] else d[s]
  {
  }

  /** The logged sectors of an interrupted recovery still mean the same. */
  lemma InstalledTruth(d: Disk, a: Area, secs: seq<nat>, empty: Block, k: nat, s: nat)
    requires Sane(d, a) && secs == Logged(d, a) && Home(d, a, s) && k <= |secs| + 1
    requires Word(empty, 0) == 0
    ensures var r := Installed(d, a, secs, empty, k);
            Sane(r, a) && Truth(r, a, s) == Truth(d, a, s) && Logged(r, a) == if k <= |secs| then secs else []
  {
    hide Installed;
    var r := Installed(d, a, secs, empty, k);
    var i := Find(secs, s);
    InstalledAt(d, a, secs, empty, k, a.start);
    InstalledAt(d, a, secs, empty, k, s);
    if i < |secs| { InstalledAt(d, a, secs, empty, k, a.start + 1 + i); HomeNotLogged(d, a, secs, a.start + 1 + i); }
    Meaning(r, a, if k <= |secs| then secs else [], s);
  }

  lemma HomeNotLogged(d: Disk, a: Area, secs: seq<nat>, s: nat)
    requires Loggable(d, a, secs) && !Home(d, a, s)
    ensures Find(secs, s) == |secs|
  {
  }

  /** Recovery interrupted after any number of writes, or completed, keeps the meaning
      of the disk; completed, it leaves that meaning in place and the log empty. */
  lemma RecoveryKeepsTruth(d: Disk, a: Area, k: nat)
    requires Sane(d, a) && k <= |Logged(d, a)| + 1
    ensures var r := Recovering(d, a, k);
            && Sane(r, a)
            && (forall s: nat :: Home(d, a, s) ==> Home(r, a, s) && Truth(r, a, s) == Truth(d, a, s))
            && Logged(r, a) == if k <= |Logged(d, a)| then Logged(d, a) else []
  {
    hide Installed;
    var empty := MakeHead(d[a.start], []);
    HeadRoundTrip(d[a.start], []);
    InstalledAt(d, a, Logged(d, a), empty, k, a.start);
    Meaning(Recovering(d, a, k), a, if k <= |Logged(d, a)| then Logged(d, a) else [], a.start);
    forall s: nat | Home(d, a, s) ensures Truth(Recovering(d, a, k), a, s) == Truth(d, a, s) {
      InstalledTruth(d, a, Logged(d, a), empty, k, s);
    }
  }

  /** The home contents a finished commit is to leave. */
  function After(d: Disk, secs: seq<nat>, blocks: seq<Block>, s: nat): Block
    requires |blocks| == |secs| && s < |d|
  {
    var i := Find(secs, s);
    if i < |secs| then blocks[i] else d[s]
  }

  lemma TxnTruth(d: Disk, a: Area, secs: seq<nat>, blocks: seq<Block>, head: Block, empty: Block, k: nat, s: nat)
    requires Sane(d, a) && Logged(d, a) == [] && Home(d, a, s)
    requires Loggable(d, a, secs) && |blocks| == |secs| && k <= 2 * |secs| + 2
    requires Word(head, 0) == |secs| && HeadSectors(head) == secs && Word(empty, 0) == 0
    ensures var r := Txn(d, a, secs, blocks, head, empty, k);
            && Sane(r, a) && Logged(r, a) == (if |secs| < k < 2 * |secs| + 2 then secs else [])
            && Truth(r, a, s) == if k <= |secs| then d[s] else After(d, secs, blocks, s)
  {
    var r := Txn(d, a, secs, blocks, head, empty, k);
    var i := Find(secs, s);
    TxnAt(d, a, secs, blocks, head, empty, k, a.start);
    TxnAt(d, a, secs, blocks, head, empty, k, s);
    if i < |secs| { TxnAt(d, a, secs, blocks, head, empty, k, a.start + 1 + i); }
    Meaning(r, a, if |secs| < k < 2 * |secs| + 2 then secs else [], s);
  }

  /** After k writes of a commit the disk means the old home contents if the header
      write (number |secs|) has not happened, and the new contents if it has. */
  lemma CommitAtomic(d: Disk, a: Area, secs: seq<nat>, blocks: seq<Block>, k: nat)
    requires Sane(d, a) && Logged(d, a) == []
    requires Loggable(d, a, secs) && |blocks| == |secs| && k <= CommitLength(secs)
    ensures var r := Committing(d, a, secs, blocks, k);
            && Sane(r, a)
            && (forall s: nat :: Home(d, a, s) ==>
                  Home(r, a, s) && Truth(r, a, s) == if k <= |secs| then d[s] else After(d, secs, blocks, s))
            && Logged(r, a) == if |secs| < k < CommitLength(secs) then secs else []
  {
    if secs == [] { return; }
    var head := MakeHead(d[a.start], secs);
    HeadRoundTrip(d[a.start], secs);
    HeadRoundTrip(head, []);
    TxnAt(d, a, secs, blocks, head, MakeHead(head, []), k, a.start);
    Meaning(Committing(d, a, secs, blocks, k), a, if |secs| < k < CommitLength(secs) then secs else [], a.start);
    forall s: nat | Home(d, a, s)
      ensures Truth(Committing(d, a, secs, blocks, k), a, s) == if k <= |secs| then d[s] else After(d, secs, blocks, s)
    {
      TxnTruth(d, a, secs, blocks, head, MakeHead(head, []), k, s);
    }
  }

  // ---------------------------------------------------------------- any number of crashes

  /** Recovery attempts that crash after crashes[0], crashes[1], ... writes, then one that completes. */
  ghost function CrashyRecovery(d: Disk, a: Area, crashes: seq<nat>): (r: Disk)
    requires Sane(d, a)
    ensures |r| == |d|
    decreases |crashes|
  {
    var n := |Logged(d, a)| + 1;
    if crashes == [] then Recovering(d, a, n)
    else
      var k := if crashes[0] < n then crashes[0] else n;
      RecoveryKeepsTruth(d, a, k);
      CrashyRecovery(Recovering(d, a, k), a, crashes[1..])
  }

  lemma {:induction false} CrashyRecoveryKeepsTruth(d: Disk, a: Area, crashes: seq<nat>)
    requires Sane(d, a)
    ensures var r := CrashyRecovery(d, a, crashes);
            && Sane(r, a) && Logged(r, a) == []
            && forall s: nat :: Home(d, a, s) ==> r[s] == Truth(d, a, s)
    decreases |crashes|
  {
    var n := |Logged(d, a)| + 1;
    var k := if crashes == [] || crashes[0] >= n then n else crashes[0];
    RecoveryKeepsTruth(d, a, k);
    var r := Recovering(d, a, k);
    if crashes != [] {
      CrashyRecoveryKeepsTruth(r, a, crashes[1..]);
    } else {
      forall s: nat | Home(d, a, s) ensures r[s] == Truth(d, a, s) { Meaning(r, a, [], s); }
    }
  }

  /** All or nothing: a commit cut off after any k of its writes, followed by any number of
      recoveries cut off anywhere and one that completes, leaves every home sector
      old (k at most |secs|) or every home sector new (k beyond), with an empty log. */
  lemma CommitCrashSafe(d: Disk, a: Area, secs: seq<nat>, blocks: seq<Block>, k: nat, crashes: seq<nat>)
    requires Sane(d, a) && Logged(d, a) == []
    requires Loggable(d, a, secs) && |blocks| == |secs| && k <= CommitLength(secs)
    ensures Sane(Committing(d, a, secs, blocks, k), a)
    ensures var r := CrashyRecovery(Committing(d, a, secs, blocks, k), a, crashes);
            && Sane(r, a) && Logged(r, a) == []
            && forall s: nat :: Home(d, a, s) ==> r[s] == if k <= |secs| then d[s] else After(d, secs, blocks, s)
  {
    CommitAtomic(d, a, secs, blocks, k);
    CrashyRecoveryKeepsTruth(Committing(d, a, secs, blocks, k), a, crashes);
  }
}
