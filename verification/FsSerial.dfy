/** File operations one after another, on the code's own objects, through the log, with a crash at any moment. */
module FsSerial {
  import opened Common
  import opened Blocks
  import opened Bitmap
  import opened FsState
  import opened FsFiles
  import opened FsAccount
  import opened FsWrites
  import opened FsDisk
  import opened LogDisk
  import opened LogRuns
  import opened FsCrash
  import FsCode
  import LogCode
  import MkfsCode

  // ----- one operation on the disk -----

  /** Between operations: the inodes in memory are those on the disk, and everything is in order. */
  ghost predicate Settled(fs: FsCode.Fs)
    reads fs
  {
    fs.Valid() && fs.dinodes == fs.inodes && InOrder(fs.l, fs.inodes, fs.st, fs.owner)
  }

  /** The disk as the log presents it. */
  ghost function DiskOf(fs: FsCode.Fs): (d: Store)
    requires Settled(fs)
    reads fs
  {
    OnDisk(fs.l, fs.st, fs.dinodes)
  }

  lemma SettledSound(fs: FsCode.Fs)
    requires Settled(fs)
    ensures |DiskOf(fs)| == fs.l.size && Sound(fs.l, DiskOf(fs)) && Files(fs.l, DiskOf(fs)) == FilesIn(fs.inodes, fs.st)
  {
    hide InOrder;
    SoundOnDisk(fs.l, fs.inodes, fs.st, fs.owner);
  }

  /** A change confined to inode i that leaves it tidy keeps everything in order, and every other file. */
  lemma OthersInOrder(l: Layout, inodes: seq<Inode>, st: Store, owner: map<nat, Place>,
                      inodes': seq<Inode>, st': Store, owner': map<nat, Place>, i: nat)
    requires InOrder(l, inodes, st, owner) && Owned(l, inodes', st', owner') && i < |inodes|
    requires OthersKept(inodes, st, owner, inodes', st', owner', i) && Tidy(inodes'[i], st')
    ensures InOrder(l, inodes', st', owner') && inodes' == inodes[i := inodes'[i]]
    ensures FilesIn(inodes', st') == FilesIn(inodes, st)[i := FileBytes(inodes'[i], st')]
  {
    hide AddrAt, Used, Content;
    assert i < |inodes'| == |inodes|;
    forall j: nat | j < |inodes| && j != i
      ensures Tidy(inodes'[j], st') && FileBytes(inodes'[j], st') == FileBytes(inodes[j], st) && inodes'[j] == inodes[j]
    {
      OthersKeptContent(l, inodes, st, owner, inodes', st', owner', i, j);
      OthersKeptTrim(l, inodes, st, owner, inodes', st', owner', i, j);
    }
    assert inodes'[i].size < U32;
  }

  /** A sector changes only if it is logged. */
  lemma ChangedLogged(l: Layout, st: Store, inodes: seq<Inode>, st': Store, inodes': seq<Inode>, i: nat,
                      bits: set<nat>, written: set<nat>, iblocks: set<nat>)
    requires AllStorable(inodes) && AllStorable(inodes') && Silent(st, st', bits, written) && i < |inodes| == |inodes'|
    requires inodes' == inodes || (IBlock(i) in iblocks && inodes' == inodes[i := inodes'[i]])
    ensures forall b :: 0 <= b < |st| && b !in FsWrites.Logged(bits, written, iblocks) ==>
              OnDisk(l, st', inodes')[b] == OnDisk(l, st, inodes)[b]
  {
    hide InodeBlock;
    forall b | 0 <= b < |st| && b !in FsWrites.Logged(bits, written, iblocks)
      ensures OnDisk(l, st', inodes')[b] == OnDisk(l, st, inodes)[b]
    {
      if HoldsInodes(l, b) {
        assert (b - 2) * IPB <= i < (b - 2) * IPB + IPB ==> IBlock(i) == b;
        InodeBlockSame(st[b], inodes, inodes', (b - 2) * IPB, IPB);
      }
    }
  }

  /** Disks that differ only in the sectors of tx, none of them in the log area. */
  ghost predicate Differ(l: Layout, d: Store, d': Store, tx: set<nat>) {
    && |d'| == |d| && (forall b :: 0 <= b < |d| && b !in tx ==> d'[b] == d[b])
    && forall b :: b in tx ==> b < l.size - l.nlog
  }

  /** The number of sectors that a chunk logs. */
  ghost function ChunkLogs(fs: FsCode.Fs, i: nat, n: nat, off: nat): (k: nat)
    requires Settled(fs) && i < |fs.inodes|
    reads fs
  {
    var size := fs.inodes[i].size;
    var more := Added(size, Max(size, off + n));
    TxSize(size, off, n, NewBits(fs.l, fs.st, if more < 0 then 0 else more))
  }

  /** A chunk of filewrite takes a sound disk to a sound disk, splices one file, changes no sector that it does not log,
      and leaves everything ready for the next operation. */
  method SoundChunk(fs: FsCode.Fs, i: nat, src: seq<Byte>, off: Word) returns (w: int, ghost tx: set<nat>)
    requires Settled(fs) && i < |fs.inodes| && |src| <= CHUNK
    requires var size := fs.inodes[i].size;
             Refused(size, off, |src|) || |fs.owner| + Added(size, Max(size, off + |src|)) <= FsCode.Capacity(fs.l)
    modifies fs
    ensures Settled(fs) && |fs.inodes| == |old(fs.inodes)|
    ensures w == (if Refused(old(fs.inodes)[i].size, off, |src|) then -1 else |src|)
    ensures |tx| == (if w == -1 then 0 else old(ChunkLogs(fs, i, |src|, off))) <= LOGSIZE
    ensures Differ(fs.l, old(DiskOf(fs)), DiskOf(fs), tx)
    ensures var files := old(FilesIn(fs.inodes, fs.st));
            && (w != -1 ==> off <= |files[i]|)
            && FilesIn(fs.inodes, fs.st) == if w == -1 then files else files[i := Splice(files[i], off, src)]
  {
    hide Owned, AddrAt, Added, FsCode.Capacity, Content, Splice, OthersKept, TxSize, NewBits, MostTouched, Touched,
         BackedTo, TrimTo, FsWrites.Logged, Silent, OnDisk;
    ghost var st0, inodes0, owner0 := fs.st, fs.inodes, fs.owner;
    TidyFile(fs.inodes[i], fs.st);
    w, tx := fs.WriteChunk(i, src, off);
    OthersInOrder(fs.l, inodes0, st0, owner0, fs.inodes, fs.st, fs.owner, i);
    TidyFile(fs.inodes[i], fs.st);
    ChangedLogged(fs.l, st0, inodes0, fs.st, fs.dinodes, i, fs.bitmaps, fs.written, fs.iblocks);
  }

  lemma TidyFile(ino: Inode, st: Store)
    requires |ino.addrs| == NDIRECT + 1 && ino.addrs[NDIRECT] < |st| && Tidy(ino, st)
    ensures ino.size <= MAXBYTES && FileBytes(ino, st) == Content(ino, st)
  {
  }

  /** So does a truncation, which empties one file; on a disk with one bitmap block it logs two sectors at most. */
  method SoundTrunc(fs: FsCode.Fs, i: nat) returns (ghost tx: set<nat>)
    requires Settled(fs) && i < |fs.inodes|
    modifies fs
    ensures Settled(fs) && |fs.inodes| == |old(fs.inodes)|
    ensures tx == TruncLogs(fs.l, old(fs.owner), i) && (fs.l.size <= BPB ==> |tx| <= 2)
    ensures Differ(fs.l, old(DiskOf(fs)), DiskOf(fs), tx)
    ensures FilesIn(fs.inodes, fs.st) == old(FilesIn(fs.inodes, fs.st))[i := []]
  {
    hide Owned, AddrAt, OthersKept, BackedTo, TrimTo, FsWrites.Logged, Silent, OnDisk, BitBlocks, TruncLogs;
    ghost var st0, inodes0, owner0 := fs.st, fs.inodes, fs.owner;
    fs.BeginOp();
    fs.Itrunc(i);
    tx := TruncLogs(fs.l, owner0, i);
    TruncLogged(fs.l, inodes0, st0, owner0, i);
    OthersInOrder(fs.l, inodes0, st0, owner0, fs.inodes, fs.st, fs.owner, i);
    assert FileBytes(fs.inodes[i], fs.st) == [];
    ChangedLogged(fs.l, st0, inodes0, fs.st, fs.dinodes, i, fs.bitmaps, fs.written, fs.iblocks);
  }

  /** The sectors that itrunc logs. */
  ghost function TruncLogs(l: Layout, owner: map<nat, Place>, i: nat): (tx: set<nat>) {
    BitBlocks(l, FsCode.Share(owner, i)) + {IBlock(i)}
  }

  lemma TruncLogged(l: Layout, inodes: seq<Inode>, st: Store, owner: map<nat, Place>, i: nat)
    requires Owned(l, inodes, st, owner) && i < |inodes|
    ensures var a := FsCode.Share(owner, i);
            TruncLogs(l, owner, i) == FsWrites.Logged({} + BitBlocks(l, a), {}, {} + {IBlock(i)})
    ensures forall b :: b in TruncLogs(l, owner, i) ==> b < l.size - l.nlog
    ensures l.size <= BPB ==> |TruncLogs(l, owner, i)| <= 2
  {
    hide Owned, FsCode.Share, BitBlocks, TruncLogs;
    ShareBelow(l, inodes, st, owner, i);
    TruncSectors(l, owner, i);
    if l.size <= BPB {
      TwoAtMost(l, owner, i);
    }
  }

  lemma ShareBelow(l: Layout, inodes: seq<Inode>, st: Store, owner: map<nat, Place>, i: nat)
    requires Owned(l, inodes, st, owner)
    ensures ValidLayout(l) && |inodes| == l.ninodes && forall b :: b in FsCode.Share(owner, i) ==> b < l.size
  {
    hide Used, AddrAt;
    forall b | b in FsCode.Share(owner, i)
      ensures b < l.size
    {
      assert OwnerOk(l, inodes, st, owner[b], b);
    }
  }

  lemma TruncSectors(l: Layout, owner: map<nat, Place>, i: nat)
    requires ValidLayout(l) && i < l.ninodes && forall b :: b in FsCode.Share(owner, i) ==> b < l.size
    ensures var a := FsCode.Share(owner, i);
            TruncLogs(l, owner, i) == FsWrites.Logged({} + BitBlocks(l, a), {}, {} + {IBlock(i)})
    ensures forall b :: b in TruncLogs(l, owner, i) ==> b < l.size - l.nlog
  {
    hide FsCode.Share;
    assert i / IPB <= l.ninodes / IPB;
  }

  lemma TwoAtMost(l: Layout, owner: map<nat, Place>, i: nat)
    requires forall b :: b in FsCode.Share(owner, i) ==> b < BPB
    ensures |TruncLogs(l, owner, i)| <= 2
  {
    hide BitBlocks, FsCode.Share;
    var bits := BitBlocks(l, FsCode.Share(owner, i));
    OneBitBlock(l, FsCode.Share(owner, i));
    assert |bits + {IBlock(i)}| <= |bits| + 1;
  }

  // ----- runs of the log -----

  /** The run has got to s, and memory was sound at every commit. */
  ghost predicate Sure(l: Layout, g: Geometry, d0: Disk, es: seq<Event>, s: Sys) {
    Setting(g, d0) && g.start == l.size - l.nlog && Reaches(g, d0, es, s) && SoundAtCommits(l, g, d0, es)
  }

  lemma SureStep(l: Layout, g: Geometry, d0: Disk, es: seq<Event>, s: Sys, e: Event, s': Sys)
    requires Sure(l, g, d0, es, s) && Step(g, s, e, s') && (s'.phase == Committing(0) ==> Sound(l, s'.mem))
    ensures Sure(l, g, d0, es + [e], s')
  {
    hide Sound, Step, Setting;
    var fs := es + [e];
    assert Front(fs) == es && Last(fs) == e;
    assert Reaches(g, d0, fs, s');
    forall n: nat, p: Sys | n <= |fs| && Reaches(g, d0, fs[..n], p) && p.phase == Committing(0)
      ensures Sound(l, p.mem)
    {
      if n == |fs| {
        assert fs[..n] == fs;
        Deterministic(g, d0, fs, s', p);
      } else {
        assert fs[..n] == es[..n];
      }
    }
  }

  lemma {:induction false} SurePrefix(l: Layout, g: Geometry, d0: Disk, es: seq<Event>, s: Sys, n: nat) returns (p: Sys)
    requires Sure(l, g, d0, es, s) && n <= |es|
    ensures Sure(l, g, d0, es[..n], p)
    decreases |es|
  {
    hide Sound, Step, Setting;
    if n == |es| {
      p := s;
      assert es[..n] == es;
    } else {
      var q :| Reaches(g, d0, Front(es), q) && Step(g, q, Last(es), s);
      assert forall m: nat :: m <= |es| - 1 ==> Front(es)[..m] == es[..m];
      assert Front(es)[..n] == es[..n];
      p := SurePrefix(l, g, d0, Front(es), q, n);
    }
  }

  /** No operation under way, no commit and no recovery. */
  predicate Idle(s: Sys) {
    s.phase.Running? && s.calls == map[]
  }

  lemma SureSizes(l: Layout, g: Geometry, d0: Disk, es: seq<Event>, s: Sys)
    requires Sure(l, g, d0, es, s)
    ensures g.start < |s.base| == |d0| == |s.mem| && AllInRange(s.groups, |d0|)
    ensures Idle(s) ==> s.lh == [] && SameHome(g, s.mem, Effect(d0, s.groups)) && Sound(l, s.mem)
    ensures s.phase.Committing? ==> s.calls == map[] && Fits(g, |s.base|, s.lh) && s.phase.k <= Writes(g, s)
    ensures s.phase.Recovering? ==> WellFormed(g, s.base) && s.phase.k <= Writes(g, s)
  {
    hide Whole, Effect, Sound;
    ReachableInv(g, d0, es, s);
    if Idle(s) {
      IdleSound(l, g, d0, es, s);
    }
  }

  // ----- the events of an operation -----

  /** Operation op logs the sectors ss with the data they have in d. */
  function LogEvents(op: Op, ss: seq<Word>, d: Disk): (es: seq<Event>) {
    seq(|ss|, k requires 0 <= k < |ss| => LogWrite(op, ss[k], if ss[k] < |d| then d[ss[k]] else Zero()))
  }

  function Sectors(k: nat): (es: seq<Event>)
    ensures |es| == k
  {
    seq(k, _ => Sector)
  }

  /** begin_op, the log_writes, and end_op, which starts the commit. */
  function Opening(op: Op, ss: seq<Word>, d: Disk): (es: seq<Event>)
    ensures |es| == |ss| + 2
  {
    [Begin(op)] + LogEvents(op, ss, d) + [End(op)]
  }

  /** The sector writes of the commit. */
  function CommitWrites(n: nat): (k: nat) {
    if n == 0 then 0 else 2 * n + 2
  }

  /** All events of an operation that runs alone, to the end of its commit. */
  function OpEvents(op: Op, ss: seq<Word>, d: Disk): (es: seq<Event>) {
    Opening(op, ss, d) + Sectors(CommitWrites(|ss|)) + [Finish]
  }

  /** How many of them it takes for the header that describes the transaction to be on the disk. */
  function HeaderAt(n: nat): (k: nat) {
    2 * n + 3
  }

  /** A crash after n events of an operation, and a recovery of w sector writes. */
  function Segment(op: Op, ss: seq<Word>, d: Disk, crash: Option<nat>, w: nat): (es: seq<Event>) {
    var all := OpEvents(op, ss, d);
    match crash
    case None => all
    case Some(n) => all[..if n <= |all| then n else |all|] + [Crash] + Sectors(w) + [Finish]
  }

  /** An operation that logs n sectors survives unless a crash precedes the first write_head. */
  predicate Survives(n: nat, crash: Option<nat>) {
    crash.None? || crash.value >= HeaderAt(n)
  }

  // ----- one operation after another -----

  ghost predicate Targeted(g: Geometry, ss: seq<Word>, len: nat) {
    |ss| <= LOGSIZE && |ss| < g.size && Distinct(ss) && forall k :: 0 <= k < |ss| ==> Home(g, len, ss[k])
  }

  /** Memory is d, except for what is still to be logged. */
  ghost predicate AgreesBut(g: Geometry, mem: Disk, d: Disk, ss: seq<Word>) {
    |mem| == |d| && forall b :: Home(g, |d|, b) && b !in ss ==> mem[b] == d[b]
  }

  /** Midway through an operation that runs alone: the first k sectors of ss have been logged. */
  ghost predicate Logging(l: Layout, g: Geometry, d0: Disk, es: seq<Event>, s: Sys, op: Op, ss: seq<Word>, k: nat,
                          d: Disk) {
    && Sure(l, g, d0, es, s) && s.calls.Keys == {op} && s.phase.Running? && k <= |ss| && s.lh == ss[..k]
    && |s.mem| == |d| == |d0| && Targeted(g, ss, |d|) && AgreesBut(g, s.mem, d, ss[k..])
  }

  lemma {:induction false} LogsOp(l: Layout, g: Geometry, d0: Disk, es: seq<Event>, s: Sys, op: Op,
                                  ss: seq<Word>, k: nat, d: Disk) returns (s': Sys)
    requires Logging(l, g, d0, es, s, op, ss, k, d)
    ensures Logging(l, g, d0, es + LogEvents(op, ss, d)[k..], s', op, ss, |ss|, d) && s'.groups == s.groups
    decreases |ss| - k
  {
    hide Sure, AgreesBut, Targeted;
    if k == |ss| {
      s' := s;
      assert es + LogEvents(op, ss, d)[k..] == es;
    } else {
      hide Logging;
      var e := LogEvents(op, ss, d)[k];
      var s1 := LogOne(l, g, d0, es, s, op, ss, k, d);
      s' := LogsOp(l, g, d0, es + [e], s1, op, ss, k + 1, d);
      assert es + [e] + LogEvents(op, ss, d)[k + 1..] == es + LogEvents(op, ss, d)[k..];
    }
  }

  lemma LogOne(l: Layout, g: Geometry, d0: Disk, es: seq<Event>, s: Sys, op: Op, ss: seq<Word>, k: nat, d: Disk)
    returns (s': Sys)
    requires Logging(l, g, d0, es, s, op, ss, k, d) && k < |ss|
    ensures Logging(l, g, d0, es + [LogEvents(op, ss, d)[k]], s', op, ss, k + 1, d) && s'.groups == s.groups
  {
    hide Sure;
    SureSizes(l, g, d0, es, s);
    assert Home(g, |d|, ss[k]);
    var e := LogWrite(op, ss[k], d[ss[k]]);
    s' := LogRuns.Logged(s, op, ss[k], d[ss[k]]);
    assert op in s'.calls;
    assert s'.lh == ss[..k + 1] by { NextLogged(ss, k); }
    SureStep(l, g, d0, es, s, e, s');
    assert forall b :: b in ss[k..] ==> b == ss[k] || b in ss[k + 1..];
  }

  lemma NextLogged(ss: seq<Word>, k: nat)
    requires Distinct(ss) && k < |ss|
    ensures LogCode.Absorb(ss[..k], ss[k]) == ss[..k + 1]
  {
  }

  lemma Begins(l: Layout, g: Geometry, d0: Disk, es: seq<Event>, s: Sys, op: Op, ss: seq<Word>, d: Disk, d': Disk)
    returns (s': Sys)
    requires Sure(l, g, d0, es, s) && Idle(s) && op !in s.begun && SameHome(g, s.mem, d) && |d'| == |d|
    requires Targeted(g, ss, |d|) && AgreesBut(g, d, d', ss)
    ensures Logging(l, g, d0, es + [Begin(op)], s', op, ss, 0, d') && s'.groups == s.groups
  {
    hide Sure;
    SureSizes(l, g, d0, es, s);
    s' := Begun(s, op);
    assert op in s'.calls;
    assert ss[0..] == ss && ss[..0] == [];
    SureStep(l, g, d0, es, s, Begin(op), s');
  }

  /** The last operation has ended and n sectors are to be committed. */
  ghost predicate Closed(g: Geometry, s: Sys, ss: seq<Word>, d: Disk) {
    s.phase == Committing(0) && s.calls == map[] && s.lh == ss && SameHome(g, s.mem, d)
  }

  lemma Ends(l: Layout, g: Geometry, d0: Disk, es: seq<Event>, s: Sys, op: Op, ss: seq<Word>, d: Disk) returns (s': Sys)
    requires Logging(l, g, d0, es, s, op, ss, |ss|, d) && Sound(l, d)
    ensures Sure(l, g, d0, es + [End(op)], s') && Closed(g, s', ss, d) && s'.groups == s.groups
  {
    hide Sound, Reaches, SoundAtCommits;
    SureSizes(l, g, d0, es, s);
    s' := Ended(s, op);
    assert s.calls - {op} == map[] && ss[..|ss|] == ss && ss[|ss|..] == [];
    SameHomeBack(g, s.mem, d);
    SoundSameHome(l, g, d, s.mem);
    SureStep(l, g, d0, es, s, End(op), s');
  }

  /** From begin_op to end_op. */
  lemma Opens(l: Layout, g: Geometry, d0: Disk, es: seq<Event>, s: Sys, op: Op, ss: seq<Word>, d: Disk, d': Disk)
    returns (s': Sys)
    requires Sure(l, g, d0, es, s) && Idle(s) && op !in s.begun && SameHome(g, s.mem, d) && |d'| == |d|
    requires Targeted(g, ss, |d|) && AgreesBut(g, d, d', ss) && Sound(l, d')
    ensures Sure(l, g, d0, es + Opening(op, ss, d'), s') && Closed(g, s', ss, d') && s'.groups == s.groups
  {
    hide Sure, Sound, Logging, Closed;
    var s1 := Begins(l, g, d0, es, s, op, ss, d, d');
    var log := LogEvents(op, ss, d');
    assert log[0..] == log;
    var s2 := LogsOp(l, g, d0, es + [Begin(op)], s1, op, ss, 0, d');
    s' := Ends(l, g, d0, es + [Begin(op)] + log, s2, op, ss, d');
    assert es + [Begin(op)] + log + [End(op)] == es + Opening(op, ss, d');
  }

  /** After j sector writes of a commit that started in state s. */
  ghost predicate AfterSectors(s: Sys, s': Sys, j: nat) {
    && s'.phase == Committing(j) && s'.calls == map[] && s'.lh == s.lh && s'.mem == s.mem
    && |s'.groups| == |s.groups| + if j > |s.lh| then 1 else 0
  }

  lemma {:induction false} WritesSectors(l: Layout, g: Geometry, d0: Disk, es: seq<Event>, s: Sys, j: nat)
    returns (s': Sys)
    requires Sure(l, g, d0, es, s) && s.phase == Committing(0) && s.calls == map[] && j <= CommitWrites(|s.lh|)
    ensures Sure(l, g, d0, es + Sectors(j), s') && AfterSectors(s, s', j)
    decreases j
  {
    hide Sure, HeaderCount, CommitImage, Fits;
    if j == 0 {
      s' := s;
      assert es + Sectors(0) == es;
    } else {
      var s1 := WritesSectors(l, g, d0, es, s, j - 1);
      SureSizes(l, g, d0, es + Sectors(j - 1), s1);
      s' := SectorWritten(g, s1);
      SureStep(l, g, d0, es + Sectors(j - 1), s1, Sector, s');
      assert es + Sectors(j - 1) + [Sector] == es + Sectors(j);
    }
  }

  /** The commit, to its end. */
  lemma Commits(l: Layout, g: Geometry, d0: Disk, es: seq<Event>, s: Sys) returns (s': Sys)
    requires Sure(l, g, d0, es, s) && s.phase == Committing(0) && s.calls == map[]
    ensures Sure(l, g, d0, es + Sectors(CommitWrites(|s.lh|)) + [Finish], s') && Idle(s') && s'.mem == s.mem
    ensures |s'.groups| == |s.groups| + if s.lh == [] then 0 else 1
  {
    hide Sure, HeaderCount, CommitImage, Fits;
    var s1 := WritesSectors(l, g, d0, es, s, CommitWrites(|s.lh|));
    SureSizes(l, g, d0, es + Sectors(CommitWrites(|s.lh|)), s1);
    s' := Finished(s1);
    SureStep(l, g, d0, es + Sectors(CommitWrites(|s.lh|)), s1, Finish, s');
  }

  /** One operation at a time: from one sound disk to another that differs only in the sectors ss, which the operation
      logs. */
  lemma OneOperation(l: Layout, g: Geometry, d0: Disk, es: seq<Event>, s: Sys, op: Op, ss: seq<Word>, d: Disk, d': Disk)
    returns (s': Sys)
    requires Sure(l, g, d0, es, s) && Idle(s) && op !in s.begun && SameHome(g, s.mem, d) && |d'| == |d|
    requires Targeted(g, ss, |d|) && AgreesBut(g, d, d', ss) && Sound(l, d')
    ensures Sure(l, g, d0, es + OpEvents(op, ss, d'), s') && Idle(s') && SameHome(g, s'.mem, d')
    ensures |s'.groups| == |s.groups| + if ss == [] then 0 else 1
  {
    hide Sure, Sound, Opening;
    var s1 := Opens(l, g, d0, es, s, op, ss, d, d');
    s' := Commits(l, g, d0, es + Opening(op, ss, d'), s1);
    assert es + Opening(op, ss, d') + Sectors(CommitWrites(|ss|)) + [Finish] == es + OpEvents(op, ss, d');
  }

  // ----- crashes -----

  /** A recovery, to its end. */
  lemma {:induction false} Recovers(l: Layout, g: Geometry, d0: Disk, es: seq<Event>, s: Sys) returns (w: nat, s': Sys)
    requires Sure(l, g, d0, es, s) && s.phase.Recovering? && s.calls == map[]
    ensures Sure(l, g, d0, es + Sectors(w) + [Finish], s') && Idle(s') && s'.groups == s.groups
    ensures g.start < |s.base| && s.phase.k <= Writes(g, s) && w == Writes(g, s) - s.phase.k
    decreases if g.start < |s.base| then Writes(g, s) - s.phase.k else 0
  {
    hide Sure, HeaderCount, RecoverImage, WellFormed;
    SureSizes(l, g, d0, es, s);
    if s.phase.k == Writes(g, s) {
      w, s' := 0, Finished(s);
      SureStep(l, g, d0, es, s, Finish, s');
      assert es + Sectors(0) + [Finish] == es + [Finish];
    } else {
      var s1 := SectorWritten(g, s);
      SureStep(l, g, d0, es, s, Sector, s1);
      w, s' := Recovers(l, g, d0, es + [Sector], s1);
      w := w + 1;
      assert es + [Sector] + Sectors(w - 1) + [Finish] == es + Sectors(w) + [Finish];
    }
  }

  /** A crash at any moment, and the recovery that follows, which writes every sector that the header on the disk
      describes, and the header: memory is then sound and what had been committed. */
  lemma CrashAndRecover(l: Layout, g: Geometry, d0: Disk, es: seq<Event>, s: Sys) returns (w: nat, s': Sys)
    requires Sure(l, g, d0, es, s)
    ensures Sure(l, g, d0, es + [Crash] + Sectors(w) + [Finish], s') && Idle(s') && s'.groups == s.groups
    ensures g.start < |s.disk| && w == HeaderCount(s.disk[g.start]) + 1
    ensures AllInRange(s.groups, |d0|) && SameHome(g, s'.mem, Effect(d0, s.groups)) && Sound(l, s'.mem)
  {
    hide Sure, Effect, Sound, HeaderCount;
    SureSizes(l, g, d0, es, s);
    SureStep(l, g, d0, es, s, Crash, Crashed(s));
    w, s' := Recovers(l, g, d0, es + [Crash], Crashed(s));
    SureSizes(l, g, d0, es + [Crash] + Sectors(w) + [Finish], s');
  }

  /** The state after n events of an operation: the transaction is committed exactly from the header write on. */
  lemma CommittedAt(l: Layout, g: Geometry, d0: Disk, es: seq<Event>, s: Sys, op: Op, ss: seq<Word>, d: Disk, d': Disk,
                    n: nat, s1: Sys) returns (p: Sys)
    requires Sure(l, g, d0, es, s) && Idle(s) && op !in s.begun && SameHome(g, s.mem, d) && |d'| == |d|
    requires Targeted(g, ss, |d|) && AgreesBut(g, d, d', ss) && Sound(l, d')
    requires n <= |OpEvents(op, ss, d')| && Sure(l, g, d0, es + OpEvents(op, ss, d'), s1)
    requires |s1.groups| == |s.groups| + if ss == [] then 0 else 1
    ensures Sure(l, g, d0, es + OpEvents(op, ss, d')[..n], p)
    ensures p.groups == if n >= HeaderAt(|ss|) then s1.groups else s.groups
  {
    hide Sound, SoundAtCommits, Setting, Targeted, AgreesBut, SameHome, Step, Reaches, Opening;
    var all, cut := es + OpEvents(op, ss, d'), es + OpEvents(op, ss, d')[..n];
    assert all[..|es| + n] == cut && es <= cut <= all;
    p := SurePrefix(l, g, d0, all, s1, |es| + n);
    GroupsGrow(g, d0, es, s, cut, p);
    GroupsGrow(g, d0, cut, p, all, s1);
    if ss != [] {
      var s2 := Opens(l, g, d0, es, s, op, ss, d, d');
      var es2, j := es + Opening(op, ss, d'), if n >= HeaderAt(|ss|) then |ss| + 1 else |ss|;
      var q := WritesSectors(l, g, d0, es2, s2, j);
      MarkPrefix(es, op, ss, d', n, j);
      if n >= HeaderAt(|ss|) {
        GroupsGrow(g, d0, es2 + Sectors(j), q, cut, p);
      } else {
        GroupsGrow(g, d0, cut, p, es2 + Sectors(j), q);
      }
    }
  }

  /** Where n events end, compared with the opening and j sector writes. */
  lemma MarkPrefix(es: seq<Event>, op: Op, ss: seq<Word>, d: Disk, n: nat, j: nat)
    requires ss != [] && n <= |OpEvents(op, ss, d)| && j == if n >= HeaderAt(|ss|) then |ss| + 1 else |ss|
    ensures var mark, cut := es + Opening(op, ss, d) + Sectors(j), es + OpEvents(op, ss, d)[..n];
            if n >= HeaderAt(|ss|) then mark <= cut else cut <= mark
  {
    hide Opening;
    var all, m := OpEvents(op, ss, d), |ss| + 2 + j;
    assert Opening(op, ss, d) + Sectors(j) == all[..m];
    assert es + Opening(op, ss, d) + Sectors(j) == es + all[..m];
    if m <= n {
      assert all[..n][..m] == all[..m];
    } else {
      assert all[..m][..n] == all[..n];
    }
  }

  /** A crash after any n events of an operation and its commit: after recovery the disk is as after the operation if
      the first write_head was among them, and otherwise as before it. */
  lemma CrashedOperation(l: Layout, g: Geometry, d0: Disk, es: seq<Event>, s: Sys, op: Op, ss: seq<Word>,
                         d: Disk, d': Disk, n: nat) returns (w: nat, s': Sys)
    requires Sure(l, g, d0, es, s) && Idle(s) && op !in s.begun && SameHome(g, s.mem, d) && |d'| == |d|
    requires Targeted(g, ss, |d|) && AgreesBut(g, d, d', ss) && Sound(l, d')
    ensures Sure(l, g, d0, es + Segment(op, ss, d', Some(n), w), s') && Idle(s')
    ensures SameHome(g, s'.mem, if Survives(|ss|, Some(n)) then d' else d)
  {
    hide Sound, SoundAtCommits, Setting, Effect, Targeted, AgreesBut, SameHome, Step, Reaches, OpEvents;
    var all := OpEvents(op, ss, d');
    var m := if n <= |all| then n else |all|;
    OpLength(op, ss, d');
    var s1 := OneOperation(l, g, d0, es, s, op, ss, d, d');
    var p := CommittedAt(l, g, d0, es, s, op, ss, d, d', m, s1);
    w, s' := CrashAndRecover(l, g, d0, es + all[..m], p);
    assert es + all[..m] + [Crash] + Sectors(w) + [Finish] == es + Segment(op, ss, d', Some(n), w);
    if m >= HeaderAt(|ss|) {
      SureSizes(l, g, d0, es + all, s1);
      SameCommitted(g, s'.mem, Effect(d0, s1.groups), s1.mem, d');
    } else {
      SureSizes(l, g, d0, es, s);
      SameCommitted(g, s'.mem, Effect(d0, s.groups), s.mem, d);
    }
  }

  lemma SameCommitted(g: Geometry, a: Disk, e: Disk, b: Disk, d: Disk)
    requires SameHome(g, a, e) && SameHome(g, b, e) && SameHome(g, b, d)
    ensures SameHome(g, a, d)
  {
  }

  lemma OpLength(op: Op, ss: seq<Word>, d: Disk)
    ensures |OpEvents(op, ss, d)| == |ss| + 3 + CommitWrites(|ss|) >= HeaderAt(|ss|)
  {
  }

  // ----- any sequence of these -----

  /** An operation with or without a crash. */
  lemma Play(l: Layout, g: Geometry, d0: Disk, es: seq<Event>, s: Sys, op: Op, ss: seq<Word>, d: Disk, d': Disk,
             crash: Option<nat>) returns (w: nat, s': Sys)
    requires Sure(l, g, d0, es, s) && Idle(s) && op !in s.begun && SameHome(g, s.mem, d) && |d'| == |d|
    requires Targeted(g, ss, |d|) && AgreesBut(g, d, d', ss) && Sound(l, d')
    ensures Sure(l, g, d0, es + Segment(op, ss, d', crash, w), s') && Idle(s')
    ensures SameHome(g, s'.mem, if Survives(|ss|, crash) then d' else d)
  {
    hide Sure, Sound, Targeted, AgreesBut, SameHome, OpEvents;
    w := 0;
    match crash {
      case None => s' := OneOperation(l, g, d0, es, s, op, ss, d, d');
      case Some(n) => w, s' := CrashedOperation(l, g, d0, es, s, op, ss, d, d', n);
    }
  }

  /** Operations to be carried out one after another: each changes the disk to d by logging ss, perhaps with a crash
      after some number of events; what follows depends on whether the operation survives. */
  datatype Plan = Stop | Go(ss: seq<Word>, d: Disk, crash: Option<nat>, survived: Plan, undone: Plan)

  predicate Kept(plan: Plan)
    requires plan.Go?
  {
    Survives(|plan.ss|, plan.crash)
  }

  /** What is left of a plan after its first operation. */
  function Rest(plan: Plan): (r: Plan)
    requires plan.Go?
  {
    if Kept(plan) then plan.survived else plan.undone
  }

  /** Every operation that the plan comes to takes a sound disk to a sound one and logs what it changes. */
  ghost predicate Legal(l: Layout, g: Geometry, d: Disk, plan: Plan)
    decreases plan
  {
    plan.Go? ==>
      && |plan.d| == |d| && Sound(l, plan.d) && Targeted(g, plan.ss, |d|) && AgreesBut(g, d, plan.d, plan.ss)
      && Legal(l, g, if Kept(plan) then plan.d else d, Rest(plan))
  }

  /** The disk in which a plan ends. */
  function Outcome(plan: Plan, d: Disk): (e: Disk)
    decreases plan
  {
    if plan.Stop? then d else Outcome(Rest(plan), if Kept(plan) then plan.d else d)
  }

  /** The number of each operation, and of the sector writes of the recovery that follows it if it crashes. */
  datatype Ident = Ident(op: Op, recovery: nat)

  function Steps(plan: Plan): (n: nat) {
    if plan.Stop? then 0 else 1 + Steps(Rest(plan))
  }

  /** The events of a plan: every operation from begin_op to the end of its commit or to its crash, and the recovery. */
  function Events(plan: Plan, ids: seq<Ident>): (es: seq<Event>)
    requires |ids| == Steps(plan)
    decreases plan
  {
    if plan.Stop? then []
    else Segment(ids[0].op, plan.ss, plan.d, plan.crash, ids[0].recovery) + Events(Rest(plan), ids[1..])
  }

  /** Every plan can be carried out, just as it says, from every state at rest, and leads to the disk it says. */
  lemma {:induction false} AnyPlan(l: Layout, g: Geometry, d0: Disk, es: seq<Event>, s: Sys, d: Disk, plan: Plan)
    returns (ids: seq<Ident>, s': Sys)
    requires Sure(l, g, d0, es, s) && Idle(s) && SameHome(g, s.mem, d) && Legal(l, g, d, plan)
    ensures |ids| == Steps(plan) && Sure(l, g, d0, es + Events(plan, ids), s')
    ensures Idle(s') && SameHome(g, s'.mem, Outcome(plan, d))
    decreases plan
  {
    hide Sure, Sound, Targeted, AgreesBut, SameHome, Segment, Survives;
    if plan.Stop? {
      ids, s' := [], s;
      assert es + Events(plan, ids) == es;
    } else {
      var op := FreshOp(s.begun);
      var w, s1 := Play(l, g, d0, es, s, op, plan.ss, d, plan.d, plan.crash);
      var seg := Segment(op, plan.ss, plan.d, plan.crash, w);
      var rest;
      rest, s' := AnyPlan(l, g, d0, es + seg, s1, if Kept(plan) then plan.d else d, Rest(plan));
      ids := [Ident(op, w)] + rest;
      assert ids[1..] == rest;
      assert es + seg + Events(Rest(plan), rest) == es + Events(plan, ids);
    }
  }

  lemma FreshOp(begun: set<Op>) returns (op: Op)
    ensures op !in begun
  {
    op := Above(begun);
  }

  ghost function Above(a: set<nat>): (n: nat)
    ensures forall b :: b in a ==> b < n
  {
    if a == {} then 0
    else
      var b :| b in a;
      var n := Above(a - {b});
      assert forall c :: c in a ==> c == b || c in a - {b};
      if b < n then n else b + 1
  }

  // ----- the code's operations among them -----

  lemma {:induction false} ListOf(tx: set<nat>, bound: nat) returns (ss: seq<Word>)
    requires bound <= U32 && forall b :: b in tx ==> b < bound
    ensures |ss| == |tx| && Distinct(ss) && forall b :: b in ss <==> b in tx
    decreases |tx|
  {
    if tx == {} {
      ss := [];
    } else {
      var b :| b in tx;
      var rest := ListOf(tx - {b}, bound);
      ss := rest + [b];
    }
  }

  /** How an operation of the code went through the log: its number, the sectors it logged, and the sector writes of the
      recovery if there was a crash. */
  datatype Trace = Trace(op: Op, ss: seq<Word>, recovery: nat)

  /** An operation took the disk from d to d': the run went on by its events, up to the crash if there is one, and
      memory is the new disk exactly if the operation survived. */
  ghost predicate Ran(l: Layout, g: Geometry, d0: Disk, es: seq<Event>, d: Disk, d': Disk, crash: Option<nat>,
                      t: Trace, es': seq<Event>, s': Sys) {
    && es' == es + Segment(t.op, t.ss, d', crash, t.recovery)
    && Distinct(t.ss) && |d'| == |d| && (forall b :: 0 <= b < |d| && b !in t.ss ==> d'[b] == d[b])
    && Sure(l, g, d0, es', s') && Idle(s') && Sound(l, s'.mem)
    && SameHome(g, s'.mem, if Survives(|t.ss|, crash) then d' else d)
  }

  /** An operation that takes the disk from d to d', logging tx, with or without a crash. */
  lemma Transact(l: Layout, g: Geometry, d0: Disk, es: seq<Event>, s: Sys, d: Disk, d': Disk, tx: set<nat>,
                 crash: Option<nat>) returns (t: Trace, es': seq<Event>, s': Sys)
    requires Sure(l, g, d0, es, s) && Idle(s) && SameHome(g, s.mem, d) && Sound(l, d) && Sound(l, d') && l.size <= U32
    requires Differ(l, d, d', tx) && |tx| <= LOGSIZE && |tx| < g.size
    ensures Ran(l, g, d0, es, d, d', crash, t, es', s') && |t.ss| == |tx| && forall b :: b in t.ss <==> b in tx
    ensures ValidLayout(l) && |s'.mem| == |d| == |d'| == l.size
    ensures Files(l, s'.mem) == Files(l, if Survives(|tx|, crash) then d' else d)
  {
    hide Sound, Files, SoundAtCommits, Reaches, Segment;
    assert ValidLayout(l) && |d| == l.size by { SoundSize(l, d); }
    var ss := ListOf(tx, l.size);
    assert forall k :: 0 <= k < |ss| ==> ss[k] in ss;
    assert Targeted(g, ss, |d|) && AgreesBut(g, d, d', ss);
    var op := FreshOp(s.begun);
    var w;
    w, s' := Play(l, g, d0, es, s, op, ss, d, d', crash);
    t, es' := Trace(op, ss, w), es + Segment(op, ss, d', crash, w);
    var e := if Survives(|ss|, crash) then d' else d;
    SameHomeBack(g, s'.mem, e);
    SoundSameHome(l, g, e, s'.mem);
  }

  lemma SoundSize(l: Layout, d: Store)
    requires Sound(l, d)
    ensures ValidLayout(l) && |d| == l.size
  {
  }

  /** A chunk of filewrite as an operation of the log, perhaps with a crash after some number of events. Afterwards the
      file is spliced if the operation survived, which is decided by the number of sectors it logs, and otherwise
      everything is as before. */
  method ChunkRun(fs: FsCode.Fs, i: nat, src: seq<Byte>, off: Word, ghost g: Geometry, ghost d0: Disk,
                  ghost es: seq<Event>, ghost s: Sys, ghost crash: Option<nat>)
    returns (w: int, ghost t: Trace, ghost es': seq<Event>, ghost s': Sys)
    requires Settled(fs) && i < |fs.inodes| && |src| <= CHUNK
    requires Sure(fs.l, g, d0, es, s) && Idle(s) && SameHome(g, s.mem, DiskOf(fs))
    requires var size := fs.inodes[i].size;
             || Refused(size, off, |src|)
             || (|fs.owner| + Added(size, Max(size, off + |src|)) <= FsCode.Capacity(fs.l)
                 && ChunkLogs(fs, i, |src|, off) < g.size)
    modifies fs
    ensures Settled(fs) && Ran(fs.l, g, d0, es, old(DiskOf(fs)), DiskOf(fs), crash, t, es', s')
    ensures w == (if Refused(old(fs.inodes)[i].size, off, |src|) then -1 else |src|)
    ensures |t.ss| == if w == -1 then 0 else old(ChunkLogs(fs, i, |src|, off))
    ensures ValidLayout(fs.l) && |s'.mem| == fs.l.size
    ensures var files := old(FilesIn(fs.inodes, fs.st));
            && (w != -1 ==> off <= |files[i]|)
            && Files(fs.l, s'.mem) ==
               if w == -1 || !Survives(|t.ss|, crash) then files else files[i := Splice(files[i], off, src)]
  {
    hide InOrder, Sound, Files, FilesIn, Sure, SameHome, Refused, Splice, ChunkLogs, Differ, Added, FsCode.Capacity,
         Ran, Survives;
    ghost var d := DiskOf(fs);
    SettledSound(fs);
    ghost var tx;
    w, tx := SoundChunk(fs, i, src, off);
    SettledSound(fs);
    LogNotEmpty(fs.l, g, d0, es, s);
    t, es', s' := Transact(fs.l, g, d0, es, s, d, DiskOf(fs), tx, crash);
  }

  lemma LogNotEmpty(l: Layout, g: Geometry, d0: Disk, es: seq<Event>, s: Sys)
    requires Sure(l, g, d0, es, s)
    ensures 0 < g.size
  {
  }

  /** A truncation as an operation of the log, likewise. */
  method TruncRun(fs: FsCode.Fs, i: nat, ghost g: Geometry, ghost d0: Disk, ghost es: seq<Event>, ghost s: Sys,
                  ghost crash: Option<nat>)
    returns (ghost t: Trace, ghost es': seq<Event>, ghost s': Sys)
    requires Settled(fs) && i < |fs.inodes|
    requires Sure(fs.l, g, d0, es, s) && Idle(s) && SameHome(g, s.mem, DiskOf(fs))
    requires |TruncLogs(fs.l, fs.owner, i)| <= LOGSIZE && |TruncLogs(fs.l, fs.owner, i)| < g.size
    modifies fs
    ensures Settled(fs) && Ran(fs.l, g, d0, es, old(DiskOf(fs)), DiskOf(fs), crash, t, es', s')
    ensures |t.ss| == |old(TruncLogs(fs.l, fs.owner, i))| && ValidLayout(fs.l) && |s'.mem| == fs.l.size
    ensures var files := old(FilesIn(fs.inodes, fs.st));
            Files(fs.l, s'.mem) == if Survives(|t.ss|, crash) then files[i := []] else files
  {
    hide InOrder, Sound, Files, FilesIn, Sure, SameHome, TruncLogs, Differ, Ran, Survives;
    ghost var d := DiskOf(fs);
    SettledSound(fs);
    ghost var tx := SoundTrunc(fs, i);
    SettledSound(fs);
    t, es', s' := Transact(fs.l, g, d0, es, s, d, DiskOf(fs), tx, crash);
  }

  /** After a crash and its recovery the file system starts again from the disk, ready for the next operation. */
  method Restart(l: Layout, d: Disk) returns (fs: FsCode.Fs)
    requires Sound(l, d) && l.size <= U32
    ensures fresh(fs) && fs.l == l && Settled(fs) && DiskOf(fs) == d && FilesIn(fs.inodes, fs.st) == Files(l, d)
  {
    hide Owned, Dinode, OnDisk, AllTidy, FilesIn;
    ghost var owner :| InOrder(l, Decoded(l, d), d, owner);
    fs := new FsCode.Fs(l, d, Decoded(l, d), owner);
    OnDiskSame(l, d);
  }

  // ----- the first disk -----

  /** The image that mkfs writes is sound, unless rounding the root's size has left it without its last block, and its
      log is empty: runs can start from it. */
  method FirstDisk(m: MkfsCode.Mkfs) returns (d: Disk)
    requires m.Valid() && AllStorable(m.inodes) && 0 < m.l.nlog
    requires forall i :: 0 <= i < |m.inodes| ==> BackedTo(m.inodes[i], m.View(), m.inodes[i].size)
    modifies m`st
    ensures Sound(m.l, d) && d == OnDisk(m.l, m.st, m.inodes)
    ensures Setting(Geometry(m.l.size - m.l.nlog, m.l.nlog), d) && Files(m.l, d) == old(FilesIn(m.inodes, m.View()))
    ensures Sure(m.l, Geometry(m.l.size - m.l.nlog, m.l.nlog), d, [], Initial(d)) && Idle(Initial(d))
  {
    hide Owned, AddrAt, BackedTo, TrimTo, FilesIn, InodeBlock, GetWord, BlockBit;
    ghost var v := m.View();
    var start := m.l.size - m.l.nlog;
    assert v[start] == Zero();
    m.Balloc();
    SoundOnDisk(m.l, m.inodes, m.st, m.owner);
    d := OnDisk(m.l, m.st, m.inodes);
    assert d[start] == Zero();
    ZeroWords(0);
    StartSure(m.l, Geometry(start, m.l.nlog), d);
  }

  lemma StartSure(l: Layout, g: Geometry, d: Disk)
    requires Setting(g, d) && g.start == l.size - l.nlog && Sound(l, d)
    ensures Sure(l, g, d, [], Initial(d))
  {
    hide Sound;
    var none: seq<Event> := [];
    forall n: nat, p: Sys | n <= |none| && Reaches(g, d, none[..n], p)
      ensures p == Initial(d)
    {
      assert none[..n] == [];
    }
  }
}
