/** Files across crashes: the redo log of log.c under the file system of fs.c. */
module CrashConsistency {
  import opened Blocks
  import opened Machine
  import opened Ownership
  import opened FileSystem
  import opened FreeBlocks
  import opened Files
  import opened Counting
  import RedoLog
  import LogRuns

  /** initlog: the log takes the last blocks of the file system. */
  function LogArea(d: Disk): (a: RedoLog.Area)
    requires Layout(d)
    ensures a.size == SbLog(d) && a.start + a.size == SbSize(d)
  {
    RedoLog.Area(DataEnd(d), SbLog(d))
  }

  /** The two disks hold the same blocks, except perhaps in the log. */
  ghost predicate SameHome(d: Disk, r: Disk)
    requires Layout(d)
  {
    |r| == |d| && forall s: nat :: RedoLog.Home(d, LogArea(d), s) ==> r[s] == d[s]
  }

  /** Every file of d is in r, byte for byte. */
  ghost predicate SameFiles(d: Disk, r: Disk) {
    && Layout(d) && Layout(r) && SbInodes(r) == SbInodes(d) && Table(r) == Table(d)
    && forall i :: 0 <= i < SbInodes(d) ==>
         var n := Table(d)[i]; NoHoles(d, n, n.size) && NoHoles(r, n, n.size) && Contents(r, n) == Contents(d, n)
  }

  lemma HomeMeta(d: Disk, r: Disk)
    requires Layout(d) && SameHome(d, r)
    ensures Layout(r) && r[1] == d[1] && UsedOf(r) == UsedOf(d) && Table(r) == Table(d)
  {
    BitmapInside(d, 0);
    assert r[1] == d[1];
    forall y: nat | y < SbSize(d) ensures UsedOf(r)[y] == UsedOf(d)[y] { BitmapInside(d, y); }
    forall i | 0 <= i < SbInodes(d) ensures Table(r)[i] == Table(d)[i] { InodesInside(d, i); }
  }

  /** The file system does not look into the log. */
  lemma HomeDecides(d: Disk, r: Disk, o: map<nat, Slot>)
    requires Sound(d, o) && SameHome(d, r)
    ensures Sound(r, o) && SameFiles(d, r)
  {
    hide Word, UsedOf, Whole, RefsOf, Load;
    HomeMeta(d, r);
    var t := Table(d);
    forall i | 0 <= i < |t| ensures var c := t[i].addrs[NDIRECT]; c == 0 || c >= |d| || r[c] == d[c] {
      Owns(d, t, o, i, NDIRECT);
    }
    RefsKept(d, r, t);
    WholeAs(d, r, t, UsedOf(d), RefsOf(d, t), o);
    forall i | 0 <= i < |t| ensures NoHoles(r, t[i], t[i].size) && Contents(r, t[i]) == Contents(d, t[i]) {
      RefsSame(d, r, t, i);
      ContentsKept(d, t, o, r, i);
    }
  }

  lemma RefsSame(d: Disk, r: Disk, t: seq<Inode>, i: nat)
    requires forall j :: 0 <= j < |t| ==> |t[j].addrs| == NDIRECT + 1
    requires i < |t| && RefsOf(r, t) == RefsOf(d, t)
    ensures forall k :: 0 <= k < SLOTS ==> Ref(r, t[i], k) == Ref(d, t[i], k)
  {
    assert Row(r, t[i]) == RefsOf(r, t)[i] == RefsOf(d, t)[i] == Row(d, t[i]);
  }

  /** A transaction on d is about to be committed, and k sector writes of that are done. */
  ghost predicate Ready(d: Disk, secs: seq<nat>, blocks: seq<Block>, k: nat) {
    && Layout(d) && RedoLog.Sane(d, LogArea(d)) && RedoLog.Logged(d, LogArea(d)) == []
    && RedoLog.Loggable(d, LogArea(d), secs) && |blocks| == |secs| && k <= RedoLog.CommitLength(secs)
  }

  /** The disk after a crash behind the k-th write of the commit, recoveries cut off by crashes, and one
      that completes. */
  ghost function Crashed(d: Disk, secs: seq<nat>, blocks: seq<Block>, k: nat, crashes: seq<nat>): Disk
    requires Ready(d, secs, blocks, k)
  {
    RedoLog.CommitAtomic(d, LogArea(d), secs, blocks, k);
    RedoLog.CrashyRecovery(RedoLog.Committing(d, LogArea(d), secs, blocks, k), LogArea(d), crashes)
  }

  /** Disk e is d with the transaction done. */
  ghost predicate Leads(d: Disk, secs: seq<nat>, blocks: seq<Block>, e: Disk)
    requires Layout(d) && |blocks| == |secs|
  {
    |e| == |d| && e[1] == d[1] && forall s: nat :: RedoLog.Home(d, LogArea(d), s) ==> e[s] == RedoLog.After(d, secs, blocks, s)
  }

  /** One transaction takes the sound disk d to the sound disk e.  A crash after any sector write of
      its commit, and any crashes during recovery, leave a sound disk with all the files of d or all
      the files of e. */
  lemma CommitKeepsFiles(d: Disk, o: map<nat, Slot>, e: Disk, p: map<nat, Slot>,
                         secs: seq<nat>, blocks: seq<Block>, k: nat, crashes: seq<nat>)
    requires Sound(d, o) && Sound(e, p) && Ready(d, secs, blocks, k) && Leads(d, secs, blocks, e)
    ensures var r := Crashed(d, secs, blocks, k, crashes);
            if k <= |secs| then Sound(r, o) && SameFiles(d, r) else Sound(r, p) && SameFiles(e, r)
  {
    hide Sound, SameFiles;
    SoundLayout(e, p);
    RedoLog.CommitCrashSafe(d, LogArea(d), secs, blocks, k, crashes);
    var r := Crashed(d, secs, blocks, k, crashes);
    if k <= |secs| { HomeDecides(d, r, o); } else { HomeDecides(e, r, p); }
  }

  lemma SoundLayout(d: Disk, o: map<nat, Slot>)
    requires Sound(d, o)
    ensures Layout(d)
  {
  }

  // ---------------------------------------------------------------- runs of file operations

  /** A disk and the owners of its blocks. */
  datatype Stage = Stage(disk: Disk, owner: map<nat, Slot>)

  /** A whole writei on inode i, from n to m, or a whole itrunc. */
  datatype Op = Write(i: nat, n: Inode, m: Inode, off: nat, src: seq<Byte>) | Truncate(i: nat, n: Inode)

  ghost predicate Does(op: Op, s: Stage, t: Stage) {
    && |t.disk| == |s.disk| > 1 && t.disk[1] == s.disk[1] && InSync(s.disk, s.owner, op.i, op.n)
    && match op
       case Write(i, n, m, off, src) => WriteDone(s.disk, i, n, t.disk, t.owner, m, off, src)
       case Truncate(i, n) => Truncated(s.disk, s.owner, i, n, t.disk, t.owner)
  }

  /** File operations one after the other, starting from a sound disk. */
  ghost predicate Serial(stages: seq<Stage>, ops: seq<Op>) {
    && |stages| == |ops| + 1 && Sound(stages[0].disk, stages[0].owner)
    && forall i :: 0 <= i < |ops| ==> Does(ops[i], stages[i], stages[i + 1])
  }

  lemma {:induction false} SerialSound(stages: seq<Stage>, ops: seq<Op>, i: nat)
    requires Serial(stages, ops) && i < |stages|
    ensures Sound(stages[i].disk, stages[i].owner) && |stages[i].disk| == |stages[0].disk| > 1
    ensures stages[i].disk[1] == stages[0].disk[1]
    decreases i
  {
    hide Sound, OthersSame, NoHoles;
    if i > 0 {
      SerialSound(stages, ops, i - 1);
      assert Does(ops[i - 1], stages[i - 1], stages[i]);
    } else {
      SoundLayout(stages[0].disk, stages[0].owner);
    }
  }

  /** The groups are these operations: group j takes the home sectors from stage cuts[j] to stage cuts[j + 1]. */
  ghost predicate Cut(a: RedoLog.Area, groups: seq<seq<LogRuns.Rec>>, stages: seq<Stage>, cuts: seq<nat>) {
    && |cuts| == |groups| + 1 && cuts[0] == 0 && (forall j :: 0 <= j < |cuts| ==> cuts[j] < |stages|)
    && (forall j :: 0 <= j < |stages| ==> |stages[j].disk| == |stages[0].disk|)
    && forall j, t: nat :: 0 <= j < |groups| && RedoLog.Home(stages[0].disk, a, t) ==>
         stages[cuts[j + 1]].disk[t] == LogRuns.EffectRecs(groups[j], t, stages[cuts[j]].disk[t])
  }

  lemma {:induction false} CutEffect(a: RedoLog.Area, groups: seq<seq<LogRuns.Rec>>, stages: seq<Stage>, cuts: seq<nat>,
                                     j: nat, t: nat)
    requires stages != [] && Cut(a, groups, stages, cuts) && j <= |groups| && RedoLog.Home(stages[0].disk, a, t)
    ensures stages[cuts[j]].disk[t] == LogRuns.Effect(groups[..j], t, stages[0].disk[t])
    decreases j
  {
    if j > 0 {
      CutEffect(a, groups, stages, cuts, j - 1, t);
      assert groups[..j] == groups[..j - 1] + [groups[j - 1]];
      LogRuns.EffectAppend(groups[..j - 1], groups[j - 1], t, stages[0].disk[t]);
    }
  }

  /** Any run of interleaved operations and crashes whose committed groups are, one after the other,
      file operations from a sound disk: a crash now, and any crashes during recovery, leave a sound
      disk with all the files as the operations of the committed groups left them. */
  lemma RunKeepsFiles(base: Disk, es: seq<LogRuns.Event>, stages: seq<Stage>, ops: seq<Op>, cuts: seq<nat>, crashes: seq<nat>)
    requires Layout(base) && RedoLog.Sane(base, LogArea(base))
    requires LogRuns.CanRun(LogArea(base), LogRuns.Boot(LogArea(base), base), es)
    requires Serial(stages, ops) && |stages[0].disk| == |base| && stages[0].disk[1] == base[1]
    requires forall t: nat :: RedoLog.Home(base, LogArea(base), t) ==> stages[0].disk[t] == RedoLog.Truth(base, LogArea(base), t)
    requires Cut(LogArea(base), LogRuns.Run(LogArea(base), LogRuns.Boot(LogArea(base), base), es).groups, stages, cuts)
    ensures var s := LogRuns.Run(LogArea(base), LogRuns.Boot(LogArea(base), base), es);
            && RedoLog.Sane(s.disk, LogArea(base))
            && var e, r := stages[cuts[|s.groups|]], RedoLog.CrashyRecovery(s.disk, LogArea(base), crashes);
            Sound(r, e.owner) && SameFiles(e.disk, r)
  {
    hide Sound, SameFiles, Serial, Cut, LogRuns.Settled, LogRuns.Overfull, LogRuns.Crammed, LogRuns.Enabled;
    var a := LogArea(base);
    LogRuns.EveryRunIsAtomic(a, base, es, crashes);
    var s := LogRuns.Run(a, LogRuns.Boot(a, base), es);
    RedoLog.CrashyRecoveryKeepsTruth(s.disk, a, crashes);
    var r := RedoLog.CrashyRecovery(s.disk, a, crashes);
    var e := CutDisk(a, s.groups, stages, ops, cuts, base);
    SoundLayout(e.disk, e.owner);
    HomeDecides(e.disk, r, e.owner);
  }

  /** The stage that the groups have reached. */
  lemma CutDisk(a: RedoLog.Area, groups: seq<seq<LogRuns.Rec>>, stages: seq<Stage>, ops: seq<Op>, cuts: seq<nat>,
                base: Disk) returns (e: Stage)
    requires Serial(stages, ops) && Cut(a, groups, stages, cuts) && |stages[0].disk| == |base| > 1 && stages[0].disk[1] == base[1]
    requires RedoLog.Sane(base, a)
    requires forall t: nat :: RedoLog.Home(base, a, t) ==> stages[0].disk[t] == RedoLog.Truth(base, a, t)
    ensures e == stages[cuts[|groups|]] && Sound(e.disk, e.owner) && |e.disk| == |base| && e.disk[1] == base[1]
    ensures forall t: nat :: RedoLog.Home(base, a, t) ==> e.disk[t] == LogRuns.Effect(groups, t, RedoLog.Truth(base, a, t))
  {
    e := stages[cuts[|groups|]];
    SerialSound(stages, ops, cuts[|groups|]);
    hide Sound, Serial;
    forall t: nat | RedoLog.Home(base, a, t) ensures e.disk[t] == LogRuns.Effect(groups, t, RedoLog.Truth(base, a, t)) {
      CutEffect(a, groups, stages, cuts, |groups|, t);
      assert groups[..|groups|] == groups;
    }
  }

  /** The blocks of disk e at the given sectors, as a transaction logs them. */
  ghost function Images(e: Disk, secs: seq<nat>): (r: seq<Block>)
    requires forall i :: 0 <= i < |secs| ==> secs[i] < |e|
    ensures |r| == |secs| && forall i :: 0 <= i < |secs| ==> r[i] == e[secs[i]]
  {
    seq(|secs|, i requires 0 <= i < |secs| => e[secs[i]])
  }

  /** The disk is sound and its inode i is n, with contents c. */
  ghost predicate HoldsFile(r: Disk, o: map<nat, Slot>, i: nat, n: Inode, c: seq<Byte>) {
    InSync(r, o, i, n) && NoHoles(r, n, n.size) && Contents(r, n) == c
  }

  /** A writei that has finished in memory, as one transaction that logs every block it changed: whenever
      the crashes come, the file has its old bytes or the new bytes spliced in, and the disk is sound. */
  lemma WriteSurvivesCrashes(d: Disk, o: map<nat, Slot>, i: nat, n: Inode, e: Disk, p: map<nat, Slot>, m: Inode,
                             off: nat, src: seq<Byte>, secs: seq<nat>, k: nat, crashes: seq<nat>)
    requires InSync(d, o, i, n) && WriteDone(d, i, n, e, p, m, off, src) && |e| == |d| && e[1] == d[1]
    requires forall j :: 0 <= j < |secs| ==> secs[j] < |e|
    requires Ready(d, secs, Images(e, secs), k)
    requires forall s: nat :: RedoLog.Home(d, LogArea(d), s) && RedoLog.Find(secs, s) == |secs| ==> e[s] == d[s]
    ensures var r := Crashed(d, secs, Images(e, secs), k, crashes);
            if k <= |secs| then HoldsFile(r, o, i, n, Contents(d, n)) else HoldsFile(r, p, i, m, Splice(Contents(d, n), off, src))
  {
    hide Sound, NoHoles, FsInv;
    CommitKeepsFiles(d, o, e, p, secs, Images(e, secs), k, crashes);
  }

  // ---------------------------------------------------------------- one writei, one transaction

  /** secs lists the blocks logged, each once, and the log has room for them. */
  ghost predicate Lists(secs: seq<nat>, logged: set<nat>, d: Disk)
    requires Layout(d)
  {
    Distinct(secs) && |secs| <= LOGSIZE && |secs| < LogArea(d).size && forall s :: s in secs <==> s in logged
  }

  ghost predicate EmptyLog(d: Disk) {
    Layout(d) && RedoLog.Sane(d, LogArea(d)) && RedoLog.Logged(d, LogArea(d)) == []
  }

  /** What an operation has logged can be committed, and is all that it has changed. */
  lemma LoggedReady(d: Disk, e: Disk, logged: set<nat>, secs: seq<nat>, k: nat)
    requires EmptyLog(d) && Tracked(d, e, logged) && Lists(secs, logged, d) && k <= RedoLog.CommitLength(secs)
    ensures forall j :: 0 <= j < |secs| ==> secs[j] < |e|
    ensures Ready(d, secs, Images(e, secs), k) && |e| == |d| && e[1] == d[1]
    ensures forall s: nat :: RedoLog.Home(d, LogArea(d), s) && RedoLog.Find(secs, s) == |secs| ==> e[s] == d[s]
  {
    forall j | 0 <= j < |secs| ensures 1 < secs[j] < DataEnd(d) { assert secs[j] in secs; }
    forall s: nat | RedoLog.Find(secs, s) == |secs| ensures s !in logged {
      if s in secs {
        var j :| 0 <= j < |secs| && secs[j] == s;
        RedoLog.FindMember(secs, j);
      }
    }
  }

  /** Whatever is cut off where: the old file or the new one. */
  ghost predicate Survives(d: Disk, o: map<nat, Slot>, i: nat, n: Inode, e: Disk, p: map<nat, Slot>, m: Inode,
                           off: nat, src: seq<Byte>, secs: seq<nat>, k: nat, crashes: seq<nat>)
    requires forall j :: 0 <= j < |secs| ==> secs[j] < |e|
  {
    && Ready(d, secs, Images(e, secs), k) && NoHoles(d, n, n.size) && off <= n.size
    && var r := Crashed(d, secs, Images(e, secs), k, crashes);
       if k <= |secs| then HoldsFile(r, o, i, n, Contents(d, n)) else HoldsFile(r, p, i, m, Splice(Contents(d, n), off, src))
  }

  /** Any set of few enough blocks can be listed, and only those. */
  lemma ListsIff(logged: set<nat>, d: Disk)
    requires Layout(d)
    ensures (exists secs: seq<nat> :: Lists(secs, logged, d)) <==> |logged| <= LOGSIZE && |logged| < LogArea(d).size
  {
    hide Layout, DataEnd, SbLog;
    forall secs: seq<nat> | Lists(secs, logged, d) ensures |secs| == |logged| {
      ElementsSize(secs);
      assert Elements(secs) == logged;
    }
    var secs := Listing(logged);
    if |logged| <= LOGSIZE && |logged| < LogArea(d).size { assert Lists(secs, logged, d); }
  }

  lemma {:induction false} Listing(s: set<nat>) returns (secs: seq<nat>)
    ensures Distinct(secs) && |secs| == |s| && forall x :: x in secs <==> x in s
    decreases |s|
  {
    if s == {} { return []; }
    var x :| x in s;
    var rest := Listing(s - {x});
    secs := rest + [x];
  }

  /** What a write of len bytes at off logs fits the log: the blocks touched, the bitmap, the indirect block
      and the inode. */
  ghost predicate FitsLog(d: Disk, off: nat, len: nat) {
    && Layout(d)
    && var most := Touched(off, len) + (SbSize(d) - 1) / BPB + 3; most <= LOGSIZE && most < LogArea(d).size
  }

  /** writei on a sound disk with an empty log, then a commit of exactly the blocks it has logged, cut off
      after any write, and recoveries cut off anywhere: the file has its old bytes or the new bytes
      spliced in, and the disk is sound.  The blocks logged can be listed if the write is not too long. */
  method WriteCommitted(vol: Volume, ip: InCore, off: Uint, src: seq<Byte>) returns (r: Outcome)
    requires vol.InStep(ip) && |src| < TWO32 && vol.base == vol.blocks && vol.logged == {} && EmptyLog(vol.blocks)
    modifies vol, ip, ip.addrs
    ensures !r.TookLog? ==> Tracked(old(vol.blocks), vol.blocks, vol.logged)
    ensures r.Done? ==> Touched(off, |src|) <= |vol.logged|
    ensures r.Done? && FitsLog(old(vol.blocks), off, |src|) ==> exists secs: seq<nat> :: Lists(secs, vol.logged, old(vol.blocks))
    ensures r.Done? ==> forall secs: seq<nat>, k: nat, crashes: seq<nat> ::
      Lists(secs, vol.logged, old(vol.blocks)) && k <= RedoLog.CommitLength(secs) ==>
        && (forall j :: 0 <= j < |secs| ==> secs[j] < |vol.blocks|)
        && Survives(old(vol.blocks), old(vol.owner), ip.inum, old(ip.Value()), vol.blocks, vol.owner, ip.Value(),
                    off, src, secs, k, crashes)
  {
    hide InSync, WriteDone, EmptyLog, Survives, Lists, Written, OthersSame, DiskFull;
    hide Room, LogMarked, LogUsed, DataFull, WriteLogs, FitsLog, Touched;
    ghost var d, o, n := vol.blocks, vol.owner, ip.Value();
    SyncLayout(d, o, ip.inum, n);
    assert Tracked(d, d, {});
    ghost var upto;
    r, upto := vol.Writei(ip, off, src);
    if r.Done? {
      DoneLogs(d, n, vol.blocks, vol.owner, ip.inum, ip.Value(), vol.logged, off, src);
      forall secs: seq<nat>, k: nat, crashes: seq<nat> | Lists(secs, vol.logged, d) && k <= RedoLog.CommitLength(secs)
        ensures forall j :: 0 <= j < |secs| ==> secs[j] < |vol.blocks|
        ensures Survives(d, o, ip.inum, n, vol.blocks, vol.owner, ip.Value(), off, src, secs, k, crashes)
      {
        SurvivesAll(d, o, ip.inum, n, vol.blocks, vol.owner, ip.Value(), off, src, vol.logged, secs, k, crashes);
      }
    }
  }

  lemma DoneLogs(d: Disk, n: Inode, e: Disk, p: map<nat, Slot>, i: nat, m: Inode, logged: set<nat>, off: nat, src: seq<Byte>)
    requires Layout(d) && WriteDone(d, i, n, e, p, m, off, src) && WriteLogs(i, {}, e, m, logged, off, |src|)
    requires off + |src| <= MAXFILE * BSIZE && |e| == |d| && e[1] == d[1]
    ensures Touched(off, |src|) <= |logged|
    ensures FitsLog(d, off, |src|) ==> exists secs: seq<nat> :: Lists(secs, logged, d)
  {
    hide InSync, OthersSame, WriteLogs, Lists, Ref, Touched, Splice, Contents;
    SyncWhole(e, p, i, m);
    ShorterHoles(e, m, m.size, off + |src|);
    WriteLogsBounds(i, {}, e, p, m, logged, off, |src|);
    ListsIff(logged, d);
  }

  lemma ShorterHoles(d: Disk, n: Inode, extent: nat, part: nat)
    requires NoHoles(d, n, extent) && part <= extent
    ensures NoHoles(d, n, part)
  {
  }

  /** The most that filewrite passes to one writei, meant to keep a transaction small enough. */
  const MAXWRITE: nat := (LOGSIZE - 1 - 1 - 2) / 2 * BSIZE

  /** Such a write logs more blocks than begin_op reserves; it still fits a log of mkfs's size on its own. */
  method FilewriteChunk(vol: Volume, ip: InCore, off: Uint, src: seq<Byte>) returns (r: Outcome)
    requires vol.InStep(ip) && vol.base == vol.blocks && vol.logged == {} && EmptyLog(vol.blocks) && |src| == MAXWRITE
    modifies vol, ip, ip.addrs
    ensures r.Done? ==> |vol.logged| > MAXOPBLOCKS
    ensures r.Done? && SbSize(old(vol.blocks)) <= BPB && SbLog(old(vol.blocks)) >= LOGSIZE ==>
      exists secs: seq<nat> :: Lists(secs, vol.logged, old(vol.blocks))
  {
    hide EmptyLog, Lists, Survives;
    SyncLayout(vol.blocks, vol.owner, ip.inum, ip.Value());
    assert (LOGSIZE - 1 - 1 - 2) / 2 <= Touched(off, MAXWRITE) <= (LOGSIZE - 1 - 1 - 2) / 2 + 1;
    r := WriteCommitted(vol, ip, off, src);
  }

  lemma SyncLayout(d: Disk, o: map<nat, Slot>, i: nat, n: Inode)
    requires InSync(d, o, i, n)
    ensures Layout(d)
  {
  }

  lemma SurvivesAll(d: Disk, o: map<nat, Slot>, i: nat, n: Inode, e: Disk, p: map<nat, Slot>, m: Inode, off: nat,
                    src: seq<Byte>, logged: set<nat>, secs: seq<nat>, k: nat, crashes: seq<nat>)
    requires InSync(d, o, i, n) && WriteDone(d, i, n, e, p, m, off, src) && EmptyLog(d)
    requires Tracked(d, e, logged) && Lists(secs, logged, d) && k <= RedoLog.CommitLength(secs)
    ensures forall j :: 0 <= j < |secs| ==> secs[j] < |e|
    ensures Survives(d, o, i, n, e, p, m, off, src, secs, k, crashes)
  {
    LoggedReady(d, e, logged, secs, k);
    hide InSync, EmptyLog, Tracked, Lists, Sound, OthersSame;
    WriteSurvivesCrashes(d, o, i, n, e, p, m, off, src, secs, k, crashes);
  }
}
