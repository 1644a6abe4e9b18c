/** The on-disk redo log of log.c as sequences of whole-disk images, one image per sector write.
    Crash atomicity is proved here; Log.dfy shows that the code produces exactly these images. */
module LogDisk {
  import opened Blocks

  type Disk = seq<Block>

  /** The log area is [start, start + size): a header block followed by copies of logged blocks. */
  datatype Geometry = Geometry(start: nat, size: nat)

  /** s is a sector outside the log area. */
  predicate Home(g: Geometry, len: nat, s: int) {
    0 <= s < len && !(g.start <= s < g.start + g.size)
  }

  ghost predicate SameHome(g: Geometry, a: Disk, b: Disk) {
    |a| == |b| && forall s :: Home(g, |a|, s) ==> a[s] == b[s]
  }

  // ----- header block -----

  function HeaderCount(h: Block): (n: Word) {
    GetWord(h, 0)
  }

  /** The header block after write_head has copied the in-memory header into it. */
  function StoreHeader(h: Block, ss: seq<Word>): (r: Block)
    requires |ss| <= LOGSIZE
  {
    StoreSectors(SetWord(h, 0, |ss|), ss, |ss|)
  }

  function StoreSectors(h: Block, ss: seq<Word>, k: nat): (r: Block)
    requires k <= |ss| <= LOGSIZE
  {
    if k == 0 then h else SetWord(StoreSectors(h, ss, k - 1), k, ss[k - 1])
  }

  /** The sector numbers that read_head loads. */
  function HeaderSectors(h: Block): (ss: seq<Word>)
    requires HeaderCount(h) <= LOGSIZE
    ensures |ss| == HeaderCount(h)
    ensures forall i :: 0 <= i < |ss| ==> ss[i] == GetWord(h, i + 1)
  {
    seq(HeaderCount(h), i requires 0 <= i < LOGSIZE => GetWord(h, i + 1))
  }

  lemma {:induction false} StoreSectorsWords(h: Block, ss: seq<Word>, k: nat, j: nat)
    requires k <= |ss| <= LOGSIZE && j < WORDS
    ensures GetWord(StoreSectors(h, ss, k), j) == if 1 <= j <= k then ss[j - 1] else GetWord(h, j)
  {
    hide GetWord;
    hide SetWord;
    if k > 0 {
      StoreSectorsWords(h, ss, k - 1, j);
      WordStore(StoreSectors(h, ss, k - 1), k, ss[k - 1], j);
    }
  }

  /** What write_head stores, read_head loads, whatever the header block held before. */
  lemma HeaderRoundTrip(h: Block, ss: seq<Word>)
    requires |ss| <= LOGSIZE
    ensures HeaderCount(StoreHeader(h, ss)) == |ss|
    ensures HeaderSectors(StoreHeader(h, ss)) == ss
  {
    hide GetWord;
    hide SetWord;
    var r := StoreHeader(h, ss);
    StoreSectorsWords(SetWord(h, 0, |ss|), ss, |ss|, 0);
    WordStore(h, 0, |ss|, 0);
    forall i | 0 <= i < |ss|
      ensures GetWord(r, i + 1) == ss[i]
    {
      StoreSectorsWords(SetWord(h, 0, |ss|), ss, |ss|, i + 1);
    }
  }

  // ----- disk images -----

  /** The header is readable, its log blocks lie in the log area and its targets outside it. */
  ghost predicate WellFormed(g: Geometry, d: Disk) {
    && 0 < g.size && g.start + g.size <= |d|
    && HeaderCount(d[g.start]) <= LOGSIZE
    && HeaderCount(d[g.start]) < g.size
    && Targets(g, |d|, HeaderSectors(d[g.start]))
  }

  ghost predicate Targets(g: Geometry, len: nat, ss: seq<Word>) {
    forall i :: 0 <= i < |ss| ==> Home(g, len, ss[i])
  }

  /** The parameters of a commit are sound. */
  ghost predicate Fits(g: Geometry, len: nat, ss: seq<Word>) {
    && g.start + g.size <= len
    && |ss| <= LOGSIZE && |ss| < g.size
    && Targets(g, len, ss)
  }

  /** The disk after install_trans has copied the first k log blocks home. */
  function Install(g: Geometry, d: Disk, ss: seq<Word>, k: nat): (r: Disk)
    requires k <= |ss| && Fits(g, |d|, ss)
    ensures |r| == |d|
  {
    if k == 0 then d
    else var e := Install(g, d, ss, k - 1); e[ss[k - 1] := e[g.start + k]]
  }

  /** The disk after write_log has copied the first k logged blocks into the log area. */
  function LogWritten(g: Geometry, d: Disk, ss: seq<Word>, mem: Disk, k: nat): (r: Disk)
    requires k <= |ss| && Fits(g, |d|, ss) && |mem| == |d|
    ensures |r| == |d|
  {
    if k == 0 then d else LogWritten(g, d, ss, mem, k - 1)[g.start + k := mem[ss[k - 1]]]
  }

  /** The disk after write_head. */
  function HeadWritten(g: Geometry, d: Disk, ss: seq<Word>): (r: Disk)
    requires |ss| <= LOGSIZE && g.start < |d|
    ensures |r| == |d|
  {
    d[g.start := StoreHeader(d[g.start], ss)]
  }

  /** The disk after the first k sector writes of commit, of 2n+2 for n logged sectors. */
  function CommitImage(g: Geometry, d: Disk, ss: seq<Word>, mem: Disk, k: nat): (r: Disk)
    requires k <= 2 * |ss| + 2 && Fits(g, |d|, ss) && |mem| == |d|
    ensures |r| == |d|
  {
    var n := |ss|;
    if k <= n then LogWritten(g, d, ss, mem, k)
    else
      var committed := HeadWritten(g, LogWritten(g, d, ss, mem, n), ss);
      if k <= 2 * n + 1 then Install(g, committed, ss, k - n - 1)
      else HeadWritten(g, Install(g, committed, ss, n), [])
  }

  /** The disk after the first k sector writes of recover_from_log, of n+1. */
  ghost function RecoverImage(g: Geometry, d: Disk, k: nat): (r: Disk)
    requires WellFormed(g, d) && k <= HeaderCount(d[g.start]) + 1
    ensures |r| == |d|
  {
    var ss := HeaderSectors(d[g.start]);
    if k <= |ss| then Install(g, d, ss, k) else HeadWritten(g, Install(g, d, ss, |ss|), [])
  }

  /** The disk that a completed recover_from_log leaves. */
  ghost function Recover(g: Geometry, d: Disk): (r: Disk)
    requires WellFormed(g, d)
    ensures |r| == |d|
  {
    RecoverImage(g, d, HeaderCount(d[g.start]) + 1)
  }

  // ----- the images in the order in which they appear on the disk -----

  ghost function LogImages(g: Geometry, d: Disk, ss: seq<Word>, mem: Disk, k: nat): (r: seq<Disk>)
    requires k <= |ss| && Fits(g, |d|, ss) && |mem| == |d|
    ensures |r| == k
  {
    if k == 0 then [] else LogImages(g, d, ss, mem, k - 1) + [LogWritten(g, d, ss, mem, k)]
  }

  ghost function InstallImages(g: Geometry, d: Disk, ss: seq<Word>, k: nat): (r: seq<Disk>)
    requires k <= |ss| && Fits(g, |d|, ss)
    ensures |r| == k
  {
    if k == 0 then [] else InstallImages(g, d, ss, k - 1) + [Install(g, d, ss, k)]
  }

  /** All images of a commit. */
  ghost function CommitImages(g: Geometry, d: Disk, ss: seq<Word>, mem: Disk): (r: seq<Disk>)
    requires Fits(g, |d|, ss) && |mem| == |d|
    ensures |r| == 2 * |ss| + 2
  {
    var n := |ss|;
    var written := LogWritten(g, d, ss, mem, n);
    var committed := HeadWritten(g, written, ss);
    LogImages(g, d, ss, mem, n) + [committed] + InstallImages(g, committed, ss, n)
    + [HeadWritten(g, Install(g, committed, ss, n), [])]
  }

  lemma {:induction false} LogImagesAt(g: Geometry, d: Disk, ss: seq<Word>, mem: Disk, k: nat, i: nat)
    requires i < k <= |ss| && Fits(g, |d|, ss) && |mem| == |d|
    ensures LogImages(g, d, ss, mem, k)[i] == LogWritten(g, d, ss, mem, i + 1)
  {
    if i < k - 1 {
      LogImagesAt(g, d, ss, mem, k - 1, i);
    }
  }

  lemma {:induction false} InstallImagesAt(g: Geometry, d: Disk, ss: seq<Word>, k: nat, i: nat)
    requires i < k <= |ss| && Fits(g, |d|, ss)
    ensures InstallImages(g, d, ss, k)[i] == Install(g, d, ss, i + 1)
  {
    if i < k - 1 {
      InstallImagesAt(g, d, ss, k - 1, i);
    }
  }

  lemma CommitImagesAt(g: Geometry, d: Disk, ss: seq<Word>, mem: Disk, i: nat)
    requires i < 2 * |ss| + 2 && Fits(g, |d|, ss) && |mem| == |d|
    ensures CommitImages(g, d, ss, mem)[i] == CommitImage(g, d, ss, mem, i + 1)
  {
    hide StoreHeader;
    var n := |ss|;
    if i < n {
      LogImagesAt(g, d, ss, mem, n, i);
    } else if n < i <= 2 * n {
      InstallImagesAt(g, HeadWritten(g, LogWritten(g, d, ss, mem, n), ss), ss, n, i - n - 1);
    }
  }

  /** The effect of one transaction: every logged sector takes its cached content. */
  function Merged(d: Disk, ss: seq<Word>, mem: Disk): (r: Disk)
    requires |mem| == |d|
  {
    seq(|d|, s requires 0 <= s < |d| => if s in ss then mem[s] else d[s])
  }

  // ----- installing -----

  /** The block that ends up at home sector s: the last of the first k log blocks aimed at it. */
  ghost function Installed(g: Geometry, d: Disk, ss: seq<Word>, k: nat, s: nat): (b: Block)
    requires k <= |ss| && Fits(g, |d|, ss) && s < |d|
  {
    if k == 0 then d[s] else if ss[k - 1] == s then d[g.start + k] else Installed(g, d, ss, k - 1, s)
  }

  lemma {:induction false} InstallAt(g: Geometry, d: Disk, ss: seq<Word>, k: nat)
    requires k <= |ss| && Fits(g, |d|, ss)
    ensures forall s :: g.start <= s < g.start + g.size ==> Install(g, d, ss, k)[s] == d[s]
    ensures forall s :: Home(g, |d|, s) ==> Install(g, d, ss, k)[s] == Installed(g, d, ss, k, s)
  {
    if k > 0 {
      InstallAt(g, d, ss, k - 1);
    }
  }

  /** Where the log blocks and, for untouched sectors, the homes agree, installing agrees. */
  lemma {:induction false} InstalledDepends(g: Geometry, d: Disk, e: Disk, ss: seq<Word>, k: nat, s: nat)
    requires k <= |ss| && |d| == |e| && Fits(g, |d|, ss) && s < |d|
    requires forall i :: g.start < i <= g.start + k ==> d[i] == e[i]
    requires s in ss[..k] || d[s] == e[s]
    ensures Installed(g, d, ss, k, s) == Installed(g, e, ss, k, s)
  {
    if k > 0 && ss[k - 1] != s {
      assert ss[..k] == ss[..k - 1] + [ss[k - 1]];
      InstalledDepends(g, d, e, ss, k - 1, s);
    }
  }

  lemma {:induction false} InstalledMissing(g: Geometry, d: Disk, ss: seq<Word>, k: nat, s: nat)
    requires k <= |ss| && Fits(g, |d|, ss) && s < |d|
    requires s !in ss[..k]
    ensures Installed(g, d, ss, k, s) == d[s]
  {
    if k > 0 {
      assert ss[..k] == ss[..k - 1] + [ss[k - 1]];
      InstalledMissing(g, d, ss, k - 1, s);
    }
  }

  /** Installing a second time over a half-finished first time gives the full installation. */
  lemma InstallAgain(g: Geometry, d: Disk, ss: seq<Word>, k: nat)
    requires k <= |ss| && Fits(g, |d|, ss)
    ensures SameHome(g, Install(g, Install(g, d, ss, k), ss, |ss|), Install(g, d, ss, |ss|))
  {
    var e := Install(g, d, ss, k);
    InstallAt(g, d, ss, k);
    InstallAt(g, d, ss, |ss|);
    InstallAt(g, e, ss, |ss|);
    forall s | Home(g, |d|, s)
      ensures Installed(g, e, ss, |ss|, s) == Installed(g, d, ss, |ss|, s)
    {
      assert ss[..|ss|] == ss;
      if s !in ss {
        InstalledMissing(g, d, ss, k, s);
      }
      InstalledDepends(g, d, e, ss, |ss|, s);
    }
  }

  // ----- crash atomicity -----

  lemma RecoverWellFormed(g: Geometry, d: Disk, k: nat)
    requires WellFormed(g, d) && k <= HeaderCount(d[g.start]) + 1
    ensures WellFormed(g, RecoverImage(g, d, k))
    ensures k <= HeaderCount(d[g.start]) ==> RecoverImage(g, d, k)[g.start] == d[g.start]
    ensures k == HeaderCount(d[g.start]) + 1 ==> HeaderCount(RecoverImage(g, d, k)[g.start]) == 0
  {
    hide GetWord;
    hide SetWord;
    var ss := HeaderSectors(d[g.start]);
    InstallAt(g, d, ss, if k <= |ss| then k else |ss|);
    HeaderRoundTrip(d[g.start], []);
  }

  /** A crash after any k sector writes of a recovery changes nothing that the next
      recovery leaves in the home sectors. */
  lemma RecoverCrash(g: Geometry, d: Disk, k: nat)
    requires WellFormed(g, d) && k <= HeaderCount(d[g.start]) + 1
    ensures WellFormed(g, RecoverImage(g, d, k))
    ensures SameHome(g, Recover(g, RecoverImage(g, d, k)), Recover(g, d))
  {
    hide GetWord;
    hide SetWord;
    hide HeaderSectors;
    RecoverWellFormed(g, d, k);
    var e := RecoverImage(g, d, k);
    RecoverWellFormed(g, e, 0);
    if k <= HeaderCount(d[g.start]) {
      InstallAgain(g, d, HeaderSectors(d[g.start]), k);
    }
  }

  /** The disk after a machine has crashed in the middle of |ks| recoveries in a row. */
  ghost predicate CrashedThrough(g: Geometry, d: Disk, ks: seq<nat>, e: Disk)
    requires WellFormed(g, d)
    decreases |ks|
  {
    if ks == [] then e == d
    else
      && ks[0] <= HeaderCount(d[g.start]) + 1
      && WellFormed(g, RecoverImage(g, d, ks[0]))
      && CrashedThrough(g, RecoverImage(g, d, ks[0]), ks[1..], e)
  }

  /** Any number of crashes during recovery leave the outcome of recovery unchanged. */
  lemma {:induction false} RepeatedCrashes(g: Geometry, d: Disk, ks: seq<nat>, e: Disk)
    requires WellFormed(g, d) && CrashedThrough(g, d, ks, e)
    ensures WellFormed(g, e) && SameHome(g, Recover(g, e), Recover(g, d))
    decreases |ks|
  {
    hide GetWord;
    hide SetWord;
    hide HeaderSectors;
    hide RecoverImage;
    hide Recover;
    if ks != [] {
      var d' := RecoverImage(g, d, ks[0]);
      RecoverCrash(g, d, ks[0]);
      RepeatedCrashes(g, d', ks[1..], e);
    }
  }

  lemma {:induction false} LogWrittenAt(g: Geometry, d: Disk, ss: seq<Word>, mem: Disk, k: nat)
    requires k <= |ss| && Fits(g, |d|, ss) && |mem| == |d|
    ensures LogWritten(g, d, ss, mem, k)[g.start] == d[g.start]
    ensures forall i :: 0 <= i < k ==> LogWritten(g, d, ss, mem, k)[g.start + 1 + i] == mem[ss[i]]
    ensures forall s :: Home(g, |d|, s) ==> LogWritten(g, d, ss, mem, k)[s] == d[s]
  {
    if k > 0 {
      LogWrittenAt(g, d, ss, mem, k - 1);
    }
  }

  /** With the logged blocks in the log area, installing produces the transaction's effect. */
  lemma {:induction false} InstalledMerges(g: Geometry, d: Disk, ss: seq<Word>, mem: Disk, k: nat, s: nat)
    requires k <= |ss| && Fits(g, |d|, ss) && |mem| == |d| && s < |d|
    requires forall i :: 0 <= i < k ==> d[g.start + 1 + i] == mem[ss[i]]
    ensures Installed(g, d, ss, k, s) == if s in ss[..k] then mem[s] else d[s]
  {
    if k > 0 {
      assert ss[..k] == ss[..k - 1] + [ss[k - 1]];
      assert d[g.start + 1 + (k - 1)] == mem[ss[k - 1]];
      InstalledMerges(g, d, ss, mem, k - 1, s);
    }
  }

  /** After the commit point the image still carries the whole transaction. */
  lemma CommittedImage(g: Geometry, d: Disk, ss: seq<Word>, mem: Disk, e: Disk)
    requires Fits(g, |d|, ss) && |mem| == |d|
    requires e == HeadWritten(g, LogWritten(g, d, ss, mem, |ss|), ss)
    ensures WellFormed(g, e) && HeaderSectors(e[g.start]) == ss
    ensures SameHome(g, Install(g, e, ss, |ss|), Merged(d, ss, mem))
  {
    hide GetWord;
    hide SetWord;
    LogWrittenAt(g, d, ss, mem, |ss|);
    HeaderRoundTrip(d[g.start], ss);
    InstallAt(g, e, ss, |ss|);
    forall s | Home(g, |d|, s)
      ensures Installed(g, e, ss, |ss|, s) == Merged(d, ss, mem)[s]
    {
      assert ss[..|ss|] == ss;
      InstalledMerges(g, e, ss, mem, |ss|, s);
    }
  }

  /** Crash atomicity of commit: after any k of its sector writes, recovery leaves the home
      sectors all old if the header has not been written (k <= n) and all new otherwise. */
  lemma CommitCrash(g: Geometry, d: Disk, ss: seq<Word>, mem: Disk, k: nat)
    requires k <= 2 * |ss| + 2 && Fits(g, |d|, ss) && |mem| == |d|
    requires HeaderCount(d[g.start]) == 0
    ensures WellFormed(g, CommitImage(g, d, ss, mem, k))
    ensures SameHome(g, Recover(g, CommitImage(g, d, ss, mem, k)), if k <= |ss| then d else Merged(d, ss, mem))
  {
    hide GetWord;
    hide SetWord;
    hide StoreHeader;
    hide Merged;
    var c := CommitImage(g, d, ss, mem, k);
    if k <= |ss| {
      LogWrittenAt(g, d, ss, mem, k);
      RecoverWellFormed(g, c, 1);
    } else {
      var e := HeadWritten(g, LogWritten(g, d, ss, mem, |ss|), ss);
      CommittedImage(g, d, ss, mem, e);
      assert SameHome(g, Recover(g, e), Merged(d, ss, mem));
      RecoverCrash(g, e, k - |ss| - 1);
      assert c == RecoverImage(g, e, k - |ss| - 1);
    }
  }

  /** A finished commit leaves the new contents at home and an empty log. */
  lemma CommitDone(g: Geometry, d: Disk, ss: seq<Word>, mem: Disk)
    requires Fits(g, |d|, ss) && |mem| == |d|
    ensures SameHome(g, CommitImage(g, d, ss, mem, 2 * |ss| + 2), Merged(d, ss, mem))
    ensures HeaderCount(CommitImage(g, d, ss, mem, 2 * |ss| + 2)[g.start]) == 0
  {
    hide GetWord;
    hide SetWord;
    hide StoreHeader;
    hide Merged;
    var e := HeadWritten(g, LogWritten(g, d, ss, mem, |ss|), ss);
    CommittedImage(g, d, ss, mem, e);
    InstallAt(g, e, ss, |ss|);
    HeaderRoundTrip(Install(g, e, ss, |ss|)[g.start], []);
  }
}
