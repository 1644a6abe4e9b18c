/** log.c: the redo log over the buffer cache. The ghost trace of the cache records the disk after
    every sector write, so each method below says where a crash could have left the disk. */
module LogCode {
  import opened Common
  import opened Blocks
  import opened LogDisk
  import opened BufferCache

  /** With sector h locked too, fewer than NBUF sectors are pinned. */
  ghost predicate PairFits(busy: set<nat>, dirty: set<nat>, h: nat) {
    |busy + dirty + {h}| < NBUF
  }

  /** Lock and load a log block and a home block. Few enough buffers are pinned for both. */
  method BreadPair(c: Bcache, l: nat, h: nat) returns (lb: nat, hb: nat)
    requires c.Valid() && l < |c.disk| && h < |c.disk| && l != h
    requires l !in c.Busy() && h !in c.Busy()
    requires l !in c.Dirty() && PairFits(c.Busy(), c.Dirty(), h)
    modifies c
    ensures c.Valid() && c.disk == old(c.disk) && c.mem == old(c.mem) && c.trace == old(c.trace)
    ensures c.Loaded(lb, l) && c.Loaded(hb, h)
    ensures c.Busy() == old(c.Busy()) + {l, h} && c.Dirty() == old(c.Dirty())
  {
    hide Bcache.Valid;
    hide Bcache.Busy;
    hide Bcache.Dirty;
    hide Bcache.Loaded;
    hide Bcache.Locked;
    hide AllPinned;
    SubsetSize(c.Busy() + c.Dirty(), c.Busy() + c.Dirty() + {h});
    var r := c.Bread(l);
    lb := r.b;
    if h !in c.Dirty() {
      assert c.Busy() + c.Dirty() == old(c.Busy() + c.Dirty() + {h}) - {h} + {l};
    }
    r := c.Bread(h);
    hb := r.b;
  }

  /** memmove(to->data, from->data, BSIZE); bwrite(to); brelse(from); brelse(to). */
  method Transfer(c: Bcache, from: nat, to: nat, ghost fs: nat, ghost ts: nat)
    requires c.Valid() && c.Loaded(from, fs) && c.Loaded(to, ts) && fs != ts
    requires fs in c.Dirty() || (fs < |c.mem| == |c.disk| && c.mem[fs] == c.disk[fs])
    modifies c
    ensures c.Valid() && fs < |old(c.mem)| && ts < |old(c.disk)| == |old(c.mem)|
    ensures c.mem == old(c.mem)[ts := old(c.mem)[fs]]
    ensures c.disk == old(c.disk)[ts := old(c.mem)[fs]]
    ensures c.trace == old(c.trace) + [c.disk]
    ensures c.Busy() == old(c.Busy()) - {fs, ts} && c.Dirty() == old(c.Dirty()) - {ts}
  {
    hide Bcache.Valid;
    hide Bcache.Busy;
    hide Bcache.Dirty;
    hide Bcache.Loaded;
    hide Bcache.Locked;
    hide AllPinned;
    var data := c.Data(from, fs);
    c.Modify(to, data, ts);
    c.Bwrite(to, ts);
    c.Brelse(from, fs);
    c.Brelse(to, ts);
  }

  /** One round of write_log: the cached block h goes to log sector l. */
  method CopyToLog(c: Bcache, l: nat, h: nat)
    requires c.Valid() && l < |c.disk| && h < |c.disk| && l != h
    requires l !in c.Busy() && h !in c.Busy()
    requires l !in c.Dirty() && PairFits(c.Busy(), c.Dirty(), h)
    modifies c
    ensures c.Valid() && |old(c.mem)| == |old(c.disk)|
    ensures c.disk == old(c.disk)[l := old(c.mem)[h]] && c.mem == old(c.mem)[l := old(c.mem)[h]]
    ensures c.trace == old(c.trace) + [c.disk]
    ensures c.Busy() == old(c.Busy()) && c.Dirty() == old(c.Dirty())
  {
    hide Bcache.Valid, Bcache.Busy, Bcache.Dirty, Bcache.Loaded, PairFits;
    if h !in c.Dirty() {
      c.Synced(h);
    }
    var to, from := BreadPair(c, l, h);
    Transfer(c, from, to, h, l);
  }

  /** One round of install_trans: log sector l goes to home sector h. */
  method CopyHome(c: Bcache, l: nat, h: nat)
    requires c.Valid() && l < |c.disk| && h < |c.disk| && l != h
    requires l !in c.Busy() && h !in c.Busy()
    requires l !in c.Dirty() && PairFits(c.Busy(), c.Dirty(), h)
    modifies c
    ensures c.Valid() && |old(c.mem)| == |old(c.disk)| && old(c.mem)[l] == old(c.disk)[l]
    ensures c.disk == old(c.disk)[h := old(c.disk)[l]] && c.mem == old(c.mem)[h := old(c.mem)[l]]
    ensures c.trace == old(c.trace) + [c.disk]
    ensures c.Busy() == old(c.Busy()) && c.Dirty() == old(c.Dirty()) - {h}
  {
    hide Bcache.Valid, Bcache.Busy, Bcache.Dirty, Bcache.Loaded, PairFits;
    c.Synced(l);
    var from, to := BreadPair(c, l, h);
    Transfer(c, from, to, l, h);
  }

  ghost function SetOf(ss: seq<Word>): (r: set<nat>) {
    set i | 0 <= i < |ss| :: ss[i]
  }

  /** Sectors of the log area are neither locked nor dirty. */
  ghost predicate LogQuiet(g: Geometry, busy: set<nat>, dirty: set<nat>) {
    forall s :: g.start <= s < g.start + g.size ==> s !in busy && s !in dirty
  }

  /** With these sectors pinned, one more buffer can be had beside each block to copy. */
  ghost predicate Room(pinned: set<nat>, ss: seq<Word>) {
    && |pinned| < NBUF
    && forall i :: 0 <= i < |ss| ==> |pinned + {ss[i]}| < NBUF
  }

  /** With no buffer locked there is room to commit exactly when fewer than NBUF sectors are logged. */
  lemma RoomExactly(ss: seq<Word>)
    ensures Room({} + SetOf(ss), ss) <==> |SetOf(ss)| < NBUF
  {
    forall i | 0 <= i < |ss|
      ensures {} + SetOf(ss) + {ss[i]} == SetOf(ss)
    {
      assert ss[i] in SetOf(ss);
    }
    assert {} + SetOf(ss) == SetOf(ss);
  }

  lemma RoomShrinks(p: set<nat>, q: set<nat>, ss: seq<Word>)
    requires Room(p, ss) && q <= p
    ensures Room(q, ss)
  {
    SubsetSize(q, p);
    forall i | 0 <= i < |ss|
      ensures |q + {ss[i]}| < NBUF
    {
      SubsetSize(q + {ss[i]}, p + {ss[i]});
    }
  }

  /** The test that lets begin_op proceed. */
  predicate Admits(n: nat, outstanding: nat, committing: bool) {
    !committing && n + (outstanding + 1) * MAXOPBLOCKS <= LOGSIZE
  }

  /** lh.sector after log_write of sector s: a sector already logged is absorbed. */
  function Absorb(ss: seq<Word>, s: Word): (r: seq<Word>) {
    if s in ss then ss else ss + [s]
  }

  class Log {
    const c: Bcache
    const g: Geometry
    var lh: seq<Word>       // lh.sector[0..lh.n)
    var outstanding: nat
    var committing: bool

    /** initlog: the log area is the last nlog sectors of the disk, and what it holds is recovered. */
    constructor (cache: Bcache, size: nat, nlog: nat)
      requires nlog <= size && cache.Valid() && cache.Busy() == {} && cache.Dirty() == {}
      requires WellFormed(Geometry(size - nlog, nlog), cache.disk)
      modifies cache
      ensures c == cache && g == Geometry(size - nlog, nlog) && outstanding == 0 && lh == [] && Inv()
      ensures c.disk == Recover(g, old(cache.disk))
    {
      c, g, lh, outstanding, committing := cache, Geometry(size - nlog, nlog), [], 0, false;
      new;
      RecoverFromLog();
      SetOfNone(lh);
    }

    /** What write_log and install_trans need: nobody holds the blocks they copy, and buffers suffice. */
    ghost predicate Ready()
      reads this, c
    {
      && c.Valid()
      && Fits(g, |c.disk|, lh) && 0 < g.size
      && LogQuiet(g, c.Busy(), c.Dirty())
      && c.Busy() !! SetOf(lh)
      && Room(c.Busy() + c.Dirty(), lh)
    }

    /** write_log. */
    method WriteLog()
      requires Ready()
      modifies c
      ensures Ready() && c.Busy() == old(c.Busy()) && c.Dirty() == old(c.Dirty())
      ensures |old(c.mem)| == |old(c.disk)|
      ensures c.disk == LogWritten(g, old(c.disk), lh, old(c.mem), |lh|)
      ensures c.mem == LogWritten(g, old(c.mem), lh, old(c.mem), |lh|)
      ensures c.trace == old(c.trace) + LogImages(g, old(c.disk), lh, old(c.mem), |lh|)
    {
      hide Bcache.Valid;
      hide Bcache.Busy;
      hide Bcache.Dirty;
      hide Bcache.Loaded;
      c.Sizes();
      ghost var d0, m0 := c.disk, c.mem;
      var tail := 0;
      while tail < |lh|
        invariant 0 <= tail <= |lh|
        invariant Ready() && c.Busy() == old(c.Busy()) && c.Dirty() == old(c.Dirty())
        invariant c.disk == LogWritten(g, d0, lh, m0, tail)
        invariant c.mem == LogWritten(g, m0, lh, m0, tail)
        invariant c.trace == old(c.trace) + LogImages(g, d0, lh, m0, tail)
      {
        var l, h := g.start + tail + 1, lh[tail];
        LogWrittenAt(g, m0, lh, m0, tail);
        CopyToLog(c, l, h);
        tail := tail + 1;
      }
    }

    /** install_trans. */
    method InstallTrans()
      requires Ready()
      modifies c
      ensures c.Valid() && c.Busy() == old(c.Busy()) && c.Dirty() == old(c.Dirty()) - SetOf(lh)
      ensures |old(c.mem)| == |old(c.disk)|
      ensures c.disk == Install(g, old(c.disk), lh, |lh|)
      ensures c.mem == Install(g, old(c.mem), lh, |lh|)
      ensures c.trace == old(c.trace) + InstallImages(g, old(c.disk), lh, |lh|)
    {
      hide Bcache.Valid;
      hide Bcache.Busy;
      hide Bcache.Dirty;
      hide Bcache.Loaded, SetOf, Room, LogQuiet, Fits;
      c.Sizes();
      ghost var d0, m0, busy, dirty := c.disk, c.mem, c.Busy(), c.Dirty();
      SetOfNone(lh);
      var tail := 0;
      while tail < |lh|
        invariant 0 <= tail <= |lh|
        invariant c.Valid() && c.Busy() == busy && c.Dirty() == dirty - SetOf(lh[..tail])
        invariant c.disk == Install(g, d0, lh, tail)
        invariant c.mem == Install(g, m0, lh, tail)
        invariant c.trace == old(c.trace) + InstallImages(g, d0, lh, tail)
      {
        InstallOne(tail, d0, m0, busy, dirty);
        tail := tail + 1;
      }
      assert lh[..|lh|] == lh;
    }

    /** One round of install_trans. */
    method InstallOne(tail: nat, ghost d0: Disk, ghost m0: Disk, ghost busy: set<nat>, ghost dirty: set<nat>)
      requires c.Valid() && tail < |lh| && |d0| == |m0| && Fits(g, |d0|, lh)
      requires LogQuiet(g, busy, dirty) && busy !! SetOf(lh) && Room(busy + dirty, lh)
      requires c.Busy() == busy && c.Dirty() == dirty - SetOf(lh[..tail])
      requires c.disk == Install(g, d0, lh, tail) && c.mem == Install(g, m0, lh, tail)
      modifies c
      ensures c.Valid() && c.Busy() == busy && c.Dirty() == dirty - SetOf(lh[..tail + 1])
      ensures c.disk == Install(g, d0, lh, tail + 1) && c.mem == Install(g, m0, lh, tail + 1)
      ensures c.trace == old(c.trace) + [c.disk]
    {
      hide Bcache.Valid;
      hide Bcache.Busy;
      hide Bcache.Dirty;
      hide SetOf;
      hide Room;
      hide LogQuiet;
      hide Targets;
      InstallStep(|c.disk|, busy, dirty, tail);
      CopyHome(c, g.start + tail + 1, lh[tail]);
    }

    lemma InstallStep(len: nat, busy: set<nat>, dirty: set<nat>, tail: nat)
      requires Fits(g, len, lh) && LogQuiet(g, busy, dirty) && busy !! SetOf(lh) && Room(busy + dirty, lh)
               && tail < |lh|
      ensures var l, h, now := g.start + tail + 1, lh[tail], dirty - SetOf(lh[..tail]);
              && l < len && h < len && l != h && l !in busy && h !in busy && l !in now
              && PairFits(busy, now, h)
              && now - {h} == dirty - SetOf(lh[..tail + 1])
    {
      SetOfNext(lh, tail);
      RoomShrinks(busy + dirty, busy + (dirty - SetOf(lh[..tail])), lh);
    }

    /** write_head. */
    method WriteHead()
      requires c.Valid() && |lh| <= LOGSIZE && g.start < |c.disk|
      requires g.start !in c.Busy() && g.start !in c.Dirty() && |c.Busy() + c.Dirty()| < NBUF
      modifies c
      ensures c.Valid() && c.Busy() == old(c.Busy()) && c.Dirty() == old(c.Dirty())
      ensures |old(c.mem)| == |old(c.disk)|
      ensures c.disk == HeadWritten(g, old(c.disk), lh) && c.mem == HeadWritten(g, old(c.mem), lh)
      ensures c.trace == old(c.trace) + [c.disk]
    {
      hide Bcache.Valid;
      hide Bcache.Busy;
      hide Bcache.Dirty;
      hide Bcache.Loaded;
      hide Bcache.Locked;
      hide GetWord;
      hide SetWord;
      hide AllPinned;
      c.Synced(g.start);
      var r := c.Bread(g.start);
      var hb := c.Data(r.b, g.start);
      ghost var h0 := SetWord(hb, 0, |lh|);
      hb := SetWord(hb, 0, |lh|);
      var i := 0;
      while i < |lh|
        invariant 0 <= i <= |lh| && hb == StoreSectors(h0, lh, i)
      {
        hb := SetWord(hb, i + 1, lh[i]);
        i := i + 1;
      }
      c.Modify(r.b, hb, g.start);
      c.Bwrite(r.b, g.start);
      c.Brelse(r.b, g.start);
    }

    /** read_head. */
    method ReadHead()
      requires c.Valid() && g.start < |c.disk| && HeaderCount(c.disk[g.start]) <= LOGSIZE
      requires g.start !in c.Busy() && g.start !in c.Dirty() && |c.Busy() + c.Dirty()| < NBUF
      modifies c, this`lh
      ensures c.Valid() && c.Busy() == old(c.Busy()) && c.Dirty() == old(c.Dirty())
      ensures c.disk == old(c.disk) && c.mem == old(c.mem) && c.trace == old(c.trace)
      ensures lh == HeaderSectors(c.disk[g.start])
    {
      hide Bcache.Valid;
      hide Bcache.Busy;
      hide Bcache.Dirty;
      hide Bcache.Loaded;
      hide Bcache.Locked;
      hide GetWord;
      hide AllPinned;
      c.Synced(g.start);
      var r := c.Bread(g.start);
      var hb := c.Data(r.b, g.start);
      var n := GetWord(hb, 0);
      var ss: seq<Word>, i := [], 0;
      while i < n
        invariant 0 <= i <= n && |ss| == i
        invariant forall j :: 0 <= j < i ==> ss[j] == GetWord(hb, j + 1)
      {
        ss := ss + [GetWord(hb, i + 1)];
        i := i + 1;
      }
      lh := ss;
      c.Brelse(r.b, g.start);
    }

    /** commit. Its sector writes leave exactly the images of CommitImages, each of which recovers
        to all of the old home sectors or, once the header is on the disk, to all of the new ones. */
    method Commit()
      requires Ready() && SetOf(lh) <= c.Dirty() && HeaderCount(c.disk[g.start]) == 0
      modifies c, this`lh
      ensures c.Valid() && lh == [] && c.Busy() == old(c.Busy()) && c.Dirty() == old(c.Dirty() - SetOf(lh))
      ensures |old(c.mem)| == |old(c.disk)| == |c.disk| && HeaderCount(c.disk[g.start]) == 0
      ensures SameHome(g, c.disk, old(Merged(c.disk, lh, c.mem))) && SameHome(g, c.mem, old(c.mem))
      ensures old(lh) == [] ==> c.trace == old(c.trace)
      ensures old(lh) != [] ==> c.trace == old(c.trace) + old(CommitImages(g, c.disk, lh, c.mem))
      ensures old(lh) != [] ==> old(CrashSafe(c.disk, lh, c.mem))
    {
      hide Bcache.Valid;
      hide Bcache.Busy;
      hide Bcache.Dirty;
      hide GetWord;
      hide Merged;
      c.Sizes();
      if |lh| > 0 {
        ghost var ss, d0, m0 := lh, c.disk, c.mem;
        CommitDone(g, d0, ss, m0);
        CommitDone(g, m0, ss, m0);
        Atomic(d0, ss, m0);
        hide CommitImage;
        hide CommitImages;
        hide CrashSafe;
        CommitWrites();
        assert SameHome(g, Merged(m0, ss, m0), m0) by {
          MergedSelf(m0, ss);
        }
      } else {
        assert Merged(c.disk, lh, c.mem) == c.disk by {
          MergedNone(c.disk, c.mem);
        }
      }
    }

    /** The writes of a commit with something to commit. */
    method CommitWrites()
      requires Ready()
      modifies c, this`lh
      ensures c.Valid() && lh == [] && c.Busy() == old(c.Busy()) && c.Dirty() == old(c.Dirty() - SetOf(lh))
      ensures |old(c.mem)| == |old(c.disk)|
      ensures c.disk == old(CommitImage(g, c.disk, lh, c.mem, 2 * |lh| + 2))
      ensures c.mem == old(CommitImage(g, c.mem, lh, c.mem, 2 * |lh| + 2))
      ensures c.trace == old(c.trace) + old(CommitImages(g, c.disk, lh, c.mem))
    {
      hide Bcache.Valid;
      hide Bcache.Busy;
      hide Bcache.Dirty;
      hide GetWord;
      hide StoreHeader;
      c.Sizes();
      ghost var ss, d0, m0 := lh, c.disk, c.mem;
      CommitShape(d0, ss, m0);
      CommitShape(m0, ss, m0);
      HeadFree(c.Busy(), c.Dirty(), SetOf(lh));
      hide CommitImage;
      hide CommitImages;
      hide Install;
      hide LogWritten;
      hide Targets;
      hide SetOf;
      hide Room;
      hide LogQuiet;
      WriteLog();
      WriteHead();
      ghost var e := c.disk;
      InstallTrans();
      lh := [];
      WriteHead();
      Appended(old(c.trace), LogImages(g, d0, ss, m0, |ss|), e, InstallImages(g, e, ss, |ss|), c.disk);
    }

    lemma HeadFree(busy: set<nat>, dirty: set<nat>, done: set<nat>)
      requires LogQuiet(g, busy, dirty) && 0 < g.size && Room(busy + dirty, lh)
      ensures g.start !in busy && g.start !in dirty
      ensures |busy + dirty| < NBUF && |busy + (dirty - done)| < NBUF
    {
      SubsetSize(busy + (dirty - done), busy + dirty);
    }

    /** recover_from_log on a freshly initialised cache. */
    method RecoverFromLog()
      requires c.Valid() && c.Busy() == {} && c.Dirty() == {} && WellFormed(g, c.disk)
      modifies c, this`lh
      ensures c.Valid() && lh == [] && c.Busy() == {} && c.Dirty() == {}
      ensures c.disk == Recover(g, old(c.disk)) && HeaderCount(c.disk[g.start]) == 0
      ensures |c.trace| == |old(c.trace)| + HeaderCount(old(c.disk)[g.start]) + 1
      ensures old(c.trace) <= c.trace
      ensures forall k :: 1 <= k <= HeaderCount(old(c.disk)[g.start]) + 1 ==>
                c.trace[|old(c.trace)| + k - 1] == RecoverImage(g, old(c.disk), k)
                && WellFormed(g, RecoverImage(g, old(c.disk), k))
                && SameHome(g, Recover(g, RecoverImage(g, old(c.disk), k)), c.disk)
    {
      hide Bcache.Valid;
      hide Bcache.Busy;
      hide Bcache.Dirty;
      hide GetWord;
      hide StoreHeader, SetOf, Install;
      ghost var d0 := c.disk;
      RecoverWellFormed(g, d0, HeaderCount(d0[g.start]) + 1);
      ReadHead();
      ghost var ss := lh;
      InstallTrans();
      lh := [];
      WriteHead();
      forall k | 1 <= k <= |ss| + 1
        ensures c.trace[|old(c.trace)| + k - 1] == RecoverImage(g, d0, k)
        ensures WellFormed(g, RecoverImage(g, d0, k)) && SameHome(g, Recover(g, RecoverImage(g, d0, k)), c.disk)
      {
        RecoverCrash(g, d0, k);
        if k <= |ss| {
          InstallImagesAt(g, d0, ss, |ss|, k - 1);
        }
      }
    }

    /** Between operations of the log, with the lock free and no commit running. */
    ghost predicate Inv()
      reads this, c
    {
      && c.Valid() && !committing
      && 0 < g.size && Fits(g, |c.disk|, lh) && Distinct(lh)
      && HeaderCount(c.disk[g.start]) == 0
      && LogQuiet(g, c.Busy(), c.Dirty())
      && c.Dirty() == SetOf(lh)
      && (outstanding == 0 ==> lh == [])
    }

    /** One pass of begin_op's loop; false stands for going to sleep on &log. */
    method BeginOp() returns (started: bool)
      requires Inv()
      modifies this`outstanding
      ensures Inv() && started == Admits(|lh|, old(outstanding), false)
      ensures started <==> |lh| + MAXOPBLOCKS * (old(outstanding) + 1) <= LOGSIZE
      ensures outstanding == old(outstanding) + if started then 1 else 0
    {
      started := false;
      if committing {
      } else if |lh| + (outstanding + 1) * MAXOPBLOCKS > LOGSIZE {
      } else {
        outstanding := outstanding + 1;
        started := true;
      }
    }

    /** log_write of a locked buffer; the first two conjuncts are its panics. */
    method LogWrite(b: nat, s: Word)
      requires |lh| < LOGSIZE && |lh| < g.size - 1
      requires outstanding >= 1
      requires Inv() && c.Loaded(b, s) && Home(g, |c.disk|, s)
      modifies c, this`lh
      ensures Inv() && lh == Absorb(old(lh), s)
      ensures c.mem == old(c.mem) && c.disk == old(c.disk) && c.trace == old(c.trace) && c.Busy() == old(c.Busy())
      ensures forall b, t :: old(c.Loaded(b, t)) ==> c.Loaded(b, t)
    {
      hide Bcache.Valid;
      hide Bcache.Busy;
      hide Bcache.Dirty;
      hide Bcache.Loaded;
      hide Bcache.Locked;
      SetOfAbsorb(lh, s);
      hide SetOf;
      var i := 0;
      while i < |lh| && lh[i] != s
        invariant 0 <= i <= |lh|
        invariant forall j :: 0 <= j < i ==> lh[j] != s
      {
        i := i + 1;
      }
      if i == |lh| {
        lh := lh + [s];
      } else {
        lh := lh[i := s];
      }
      c.MarkDirty(b, s);
      assert lh == Absorb(old(lh), s);
    }

    /** end_op. The last operation out commits everything that was logged. */
    method EndOp()
      requires Inv() && outstanding >= 1
      requires outstanding == 1 ==> c.Busy() !! SetOf(lh) && Room(c.Busy() + c.Dirty(), lh)
      modifies c, this
      ensures Inv() && outstanding == old(outstanding) - 1 && |old(c.mem)| == |old(c.disk)|
      ensures outstanding > 0 ==>
                lh == old(lh) && c.disk == old(c.disk) && c.mem == old(c.mem) && c.trace == old(c.trace)
      ensures outstanding == 0 ==>
                && lh == [] && c.Dirty() == {} && SameHome(g, c.mem, old(c.mem))
                && SameHome(g, c.disk, old(Merged(c.disk, lh, c.mem)))
                && c.trace == old(c.trace) + (if old(lh) == [] then [] else old(CommitImages(g, c.disk, lh, c.mem)))
    {
      hide Bcache.Valid;
      hide Bcache.Busy;
      hide Bcache.Dirty;
      hide CommitImages;
      hide Merged;
      hide SameHome;
      hide GetWord;
      hide CrashSafe, SetOf, Room;
      c.Sizes();
      SetOfNone(lh);
      outstanding := outstanding - 1;
      var doCommit := outstanding == 0;
      if doCommit {
        committing := true;
        Commit();
        committing := false;
      }
    }

    /** A transaction of NBUF sectors, which log_write allows, pins every buffer, and no sector of the log has one. */
    lemma FullLogPinsAll(s: nat)
      requires Inv() && |lh| >= NBUF && g.start <= s < g.start + g.size
      ensures AllPinned(c.bufs) && s !in c.slot && |c.Busy() + c.Dirty()| >= NBUF
    {
      SetOfSize(lh);
      SubsetSize(c.Dirty(), c.Busy() + c.Dirty());
      PinnedExactly(c.disk, c.mem, c.bufs, c.slot);
      assert s !in c.Busy() && s !in c.Dirty();
      assert s in c.slot ==> Pinned(c.bufs[c.slot[s]]);
    }

    /** The first thing write_log does, a bread of a sector of the log, then panics: the transaction cannot be
        committed. */
    method LogBread(s: nat) returns (r: Got)
      requires Inv() && |lh| >= NBUF && g.start <= s < g.start + g.size
      modifies c
      ensures r.NoBuffers? && c.bufs == old(c.bufs) && c.slot == old(c.slot) && c.disk == old(c.disk)
    {
      hide Bcache.Valid, Bcache.Busy, Bcache.Dirty, AllPinned, GetWord, SetOf;
      FullLogPinsAll(s);
      r := c.Bread(s);
    }

    /** One operation that logs NBUF home sectors: no panic of log_write stops it. */
    method FillLog()
      requires Inv() && outstanding >= 1 && lh == [] && c.Busy() == {} && LOGSIZE < g.size && NBUF <= g.start
      modifies c, this`lh
      ensures Inv() && |lh| == NBUF && c.Busy() == {} && c.disk == old(c.disk)
    {
      hide Bcache.Valid, Bcache.Busy, Bcache.Dirty, Bcache.Loaded, Bcache.Locked, AllPinned, GetWord, SetOf;
      var i := 0;
      while i < NBUF
        invariant 0 <= i <= NBUF && Inv() && |lh| == i && c.Busy() == {} && c.disk == old(c.disk)
        invariant forall k :: 0 <= k < i ==> lh[k] == k
      {
        SetOfSize(lh);
        assert {} + SetOf(lh) == SetOf(lh);
        var r := c.Bread(i);
        LogWrite(r.b, i);
        assert i in SetOf(lh) by { InSetOf(lh, i); }
        c.Brelse(r.b, i);
        i := i + 1;
      }
    }

    lemma MergedSelf(m: Disk, ss: seq<Word>)
      ensures Merged(m, ss, m) == m
    {
    }

    lemma MergedNone(d: Disk, m: Disk)
      requires |d| == |m|
      ensures Merged(d, [], m) == d
    {
    }

    /** Every image of a commit recovers to the whole transaction or to none of it. */
    ghost predicate CrashSafe(d: Disk, ss: seq<Word>, mem: Disk)
      requires Fits(g, |d|, ss) && |mem| == |d|
    {
      forall i :: 0 <= i < 2 * |ss| + 2 ==>
        var e := CommitImages(g, d, ss, mem)[i];
        WellFormed(g, e) && SameHome(g, Recover(g, e), if i < |ss| then d else Merged(d, ss, mem))
    }

    lemma Atomic(d: Disk, ss: seq<Word>, mem: Disk)
      requires Fits(g, |d|, ss) && |mem| == |d| && HeaderCount(d[g.start]) == 0
      ensures CrashSafe(d, ss, mem)
    {
      forall i | 0 <= i < 2 * |ss| + 2
        ensures var e := CommitImages(g, d, ss, mem)[i];
                WellFormed(g, e) && SameHome(g, Recover(g, e), if i < |ss| then d else Merged(d, ss, mem))
      {
        hide *;
        CommitImagesAt(g, d, ss, mem, i);
        CommitCrash(g, d, ss, mem, i + 1);
      }
    }

    lemma CommitShape(d: Disk, ss: seq<Word>, mem: Disk)
      requires Fits(g, |d|, ss) && |mem| == |d|
      ensures var written := LogWritten(g, d, ss, mem, |ss|);
              var committed := HeadWritten(g, written, ss);
              var cleared := HeadWritten(g, Install(g, committed, ss, |ss|), []);
              && CommitImage(g, d, ss, mem, 2 * |ss| + 2) == cleared
              && CommitImages(g, d, ss, mem)
                 == LogImages(g, d, ss, mem, |ss|) + [committed] + InstallImages(g, committed, ss, |ss|) + [cleared]
    {
    }
  }

  lemma Appended(t: seq<Disk>, a: seq<Disk>, x: Disk, b: seq<Disk>, y: Disk)
    ensures t + a + [x] + b + [y] == t + (a + [x] + b + [y])
  {
  }

  lemma InSetOf(ss: seq<Word>, k: nat)
    requires k < |ss|
    ensures ss[k] in SetOf(ss)
  {
  }

  lemma {:induction false} SetOfSize(ss: seq<Word>)
    requires Distinct(ss)
    ensures |SetOf(ss)| == |ss|
    decreases |ss|
  {
    if ss != [] {
      var k := |ss| - 1;
      SetOfSize(ss[..k]);
      assert ss[..k + 1] == ss;
      SetOfNext(ss, k);
      assert ss[k] !in SetOf(ss[..k]);
    } else {
      assert SetOf(ss) == {};
    }
  }

  lemma SetOfNone(ss: seq<Word>)
    ensures SetOf([]) == {} && ss[..0] == [] && SetOf(ss) - SetOf(ss) == {}
  {
  }

  lemma SetOfAbsorb(ss: seq<Word>, s: Word)
    ensures SetOf(Absorb(ss, s)) == SetOf(ss) + {s}
  {
    if s !in ss {
      assert ss + [s] == (ss + [s])[..|ss| + 1] && (ss + [s])[..|ss|] == ss;
      SetOfNext(ss + [s], |ss|);
    }
  }

  lemma SetOfNext(ss: seq<Word>, k: nat)
    requires k < |ss|
    ensures SetOf(ss[..0]) == {} && ss[k] in SetOf(ss)
    ensures SetOf(ss[..k + 1]) == SetOf(ss[..k]) + {ss[k]}
  {
  }
}
