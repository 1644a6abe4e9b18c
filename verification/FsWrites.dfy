/** What a write logs and adds, from the store's state before and after it, and how filewrite cuts its data into
    chunks. */
module FsWrites {
  import opened Blocks
  import opened Bitmap
  import opened FsState
  import opened FsFiles
  import opened FsAccount

  // ----- filewrite -----

  const CHUNK := (LOGSIZE - 1 - 1 - 2) / 2 * 512

  /** How many bytes of n, written at off to a file of the given size, filewrite stores. */
  function Writable(size: nat, off: nat, n: nat): (k: nat) {
    if off > size then 0
    else if off + n <= MAXBYTES then n
    else if off > MAXBYTES then 0
    else (MAXBYTES - off) / CHUNK * CHUNK
  }

  /** That is the longest part of whole chunks that ends within the largest file, or everything. */
  lemma WritableLongest(size: nat, off: nat, n: nat) returns (q: nat)
    requires size <= MAXBYTES
    ensures var k := Writable(size, off, n);
            if off > size then k == 0
            else
              && k <= n && off + k <= MAXBYTES
              && (k < n ==> k == q * CHUNK && off + k + CHUNK > MAXBYTES && off + n > MAXBYTES)
  {
    q := if off <= MAXBYTES then (MAXBYTES - off) / CHUNK else 0;
  }

  /** Splice, leaving c alone where nothing was written. */
  function SpliceSome(c: seq<Byte>, off: nat, src: seq<Byte>): (r: seq<Byte>) {
    if src == [] || off > |c| then c else Splice(c, off, src)
  }

  lemma SpliceNone(c: seq<Byte>, off: nat)
    ensures SpliceSome(c, off, []) == c
  {
  }

  /** Two adjacent writes are one. */
  lemma SpliceNext(c: seq<Byte>, off: nat, data: seq<Byte>, k: nat, m: nat)
    requires off <= |c| && 0 < m && k + m <= |data|
    ensures off + k <= |SpliceSome(c, off, data[..k])|
    ensures Splice(SpliceSome(c, off, data[..k]), off + k, data[k..k + m]) == SpliceSome(c, off, data[..k + m])
  {
    assert data[..k + m] == data[..k] + data[k..k + m];
  }

  /** A chunk that filewrite cannot store is one that the file cannot hold. */
  lemma NotWritable(size: nat, off: nat, n: nat, k: nat, n1: nat)
    requires k < n && n1 == if n - k > CHUNK then CHUNK else n - k
    requires size <= MAXBYTES && (k > 0 ==> off <= size && off + k <= MAXBYTES && Chunked(k, n))
    requires (k == 0 && off > size) || off + k + n1 > MAXBYTES
    ensures k == Writable(size, off, n) < n
  {
    if off <= size {
      ChunksIn(MAXBYTES - off, k / CHUNK);
    }
  }

  lemma ChunksIn(x: nat, j: nat)
    requires CHUNK * j <= x < CHUNK * j + CHUNK
    ensures x / CHUNK == j
  {
    assert CHUNK == 6656;
    var q, r := x / 6656, x % 6656;
    assert x == 6656 * q + r && 0 <= r < 6656;
  }

  /** Of n bytes, k are a number of whole chunks, or all. */
  predicate Chunked(k: nat, n: nat) {
    k % CHUNK == 0 || k == n
  }

  lemma ChunkStep(n: nat, k: nat, n1: nat)
    requires k < n && n1 == (if n - k > CHUNK then CHUNK else n - k) && Chunked(k, n)
    ensures 0 < n1 <= CHUNK && Chunked(k + n1, n)
  {
  }

  lemma AllWritable(size: nat, off: nat, n: nat)
    requires size <= MAXBYTES && (n == 0 || (off <= size && off + n <= MAXBYTES))
    ensures Writable(size, off, n) == n
  {
  }

  /** writei's error cases. */
  predicate Refused(size: nat, off: nat, n: nat) {
    off > size || off + n >= U32 || off + n > MAXBYTES
  }

  lemma RefusedOff(size: nat, off: nat, n: nat)
    ensures off > size ==> Refused(size, off, n)
  {
  }

  /** The size of a file after n bytes have been written at off. */
  function EndOf(size: nat, off: nat, n: nat): (e: nat) {
    if n == 0 then size else Max(size, off + n)
  }

  /** A chunk that is not refused is among the bytes that filewrite stores. */
  lemma ChunkWritable(size: nat, off: nat, n: nat, k: nat, n1: nat)
    requires k < n && n1 == (if n - k > CHUNK then CHUNK else n - k) && Chunked(k, n)
    requires off <= size && off + k + n1 <= MAXBYTES
    ensures k + n1 <= Writable(size, off, n)
  {
    if off + n > MAXBYTES {
      var x, j := MAXBYTES - off, k / CHUNK + 1;
      assert k + n1 == CHUNK * j;
      WholeChunks(x, j);
    }
  }

  lemma WholeChunks(x: nat, j: nat)
    requires CHUNK * j <= x
    ensures CHUNK * j <= x / CHUNK * CHUNK
  {
    assert CHUNK == 6656;
    var q, r := x / 6656, x % 6656;
    assert x == 6656 * q + r && 0 <= r < 6656;
  }

  /** Room for all that will be stored is room for the next chunk. */
  lemma RoomForChunk(size: nat, off: nat, n: nat, k: nat, n1: nat, owned0: nat, owned: nat, room: int)
    requires k < n && n1 == (if n - k > CHUNK then CHUNK else n - k) && Chunked(k, n)
    requires k > 0 ==> off <= size
    requires !Refused(EndOf(size, off, k), off + k, n1)
    requires owned == owned0 + Added(size, EndOf(size, off, k))
    requires owned0 + Added(size, EndOf(size, off, Writable(size, off, n))) <= room
    ensures owned + Added(EndOf(size, off, k), Max(EndOf(size, off, k), off + k + n1)) <= room
    ensures EndOf(EndOf(size, off, k), off + k, n1) == EndOf(size, off, k + n1)
  {
    hide Added, Writable;
    ChunkWritable(size, off, n, k, n1);
    var cur, next, all := EndOf(size, off, k), EndOf(size, off, k + n1), EndOf(size, off, Writable(size, off, n));
    AddedTwice(size, cur, next);
    AddedTwice(size, next, all);
    AddedTwice(next, all, all);
  }

  lemma NextFits(size: nat, off: nat, n: nat, k: nat, n1: nat, owned0: nat, owned: nat, room: int)
    requires k < n && n1 == (if n - k > CHUNK then CHUNK else n - k) && Chunked(k, n)
    requires size <= MAXBYTES && EndOf(size, off, k) <= MAXBYTES && (k > 0 ==> off <= size)
    requires owned == owned0 + Added(size, EndOf(size, off, k))
    requires owned0 + Added(size, EndOf(size, off, Writable(size, off, n))) <= room
    ensures 0 < n1 <= CHUNK && Chunked(k + n1, n)
    ensures var cur, next := EndOf(size, off, k), EndOf(size, off, k + n1);
            if Refused(cur, off + k, n1) then k == Writable(size, off, n)
            else off <= size && next == Max(cur, off + k + n1) <= MAXBYTES
                 && owned + Added(cur, next) <= room && owned + Added(cur, next) == owned0 + Added(size, next)
  {
    hide Added, Writable, Chunked;
    ChunkStep(n, k, n1);
    var cur, next := EndOf(size, off, k), EndOf(size, off, k + n1);
    if Refused(cur, off + k, n1) {
      NotWritable(size, off, n, k, n1);
    } else {
      RoomForChunk(size, off, n, k, n1, owned0, owned, room);
      AddedTwice(size, cur, next);
    }
  }

  // ----- the transaction of one write -----

  /** The sectors that a write to inode i has logged, of which lo..hi are the blocks touched, a the blocks gained. */
  ghost function Transaction(l: Layout, ino: Inode, i: nat, st: Store, a: set<nat>, lo: nat, hi: nat,
                             size: nat): (tx: set<nat>)
    requires |ino.addrs| == NDIRECT + 1 && ino.addrs[NDIRECT] < |st| && hi <= MAXFILE
  {
    BitBlocks(l, a) + (FileBlocks(ino, st, lo, hi) + EntryBlock(ino, size, ino.size))
    + if ino.size > size then {IBlock(i)} else {}
  }

  lemma EntryElsewhere(l: Layout, inodes: seq<Inode>, st: Store, owner: map<nat, Place>, i: nat, size: nat, lo: nat,
                       hi: nat)
    requires WellSized(l, inodes, st) && Owned(l, inodes, st, owner) && i < |inodes| && lo <= hi <= MAXFILE
    requires Tidy(inodes[i], st) && forall b: nat :: lo <= b < hi ==> AddrAt(inodes[i], st, PosOf(b)) != 0
    ensures var d, x := FileBlocks(inodes[i], st, lo, hi), EntryBlock(inodes[i], size, inodes[i].size);
            |d + x| == |d| + |x| && forall b :: b in d + x ==> DataStart(l) <= b < l.size - l.nlog
  {
    hide Owned, DataStart, ValidLayout, FileBlocks, Used, TrimTo, BackedTo, BlocksTo;
    var d, x := FileBlocks(inodes[i], st, lo, hi), EntryBlock(inodes[i], size, inodes[i].size);
    FileBlocksCount(l, inodes, st, owner, i, lo, hi);
    if x != {} {
      assert inodes[i].addrs[NDIRECT] != 0 by {
        BeyondDirect(inodes[i].size);
        IndirectIff(inodes[i], st, inodes[i].size);
      }
      PlaceOwned(l, inodes, st, owner, i, NDIRECT);
    }
    assert d * x == {};
  }

  lemma BeyondDirect(e: nat)
    requires BlocksTo(e) > NDIRECT
    ensures e > NDIRECT * BSIZE
  {
  }

  /** Data, bitmap and inode blocks are different sectors, so their numbers add up. */
  lemma TransactionSize(l: Layout, inodes: seq<Inode>, st: Store, owner: map<nat, Place>, i: nat,
                        a: set<nat>, lo: nat, hi: nat, size: nat)
    requires WellSized(l, inodes, st) && Owned(l, inodes, st, owner) && i < |inodes| && lo <= hi <= MAXFILE
    requires forall b :: b in a ==> b < l.size
    requires Tidy(inodes[i], st) && forall b: nat :: lo <= b < hi ==> AddrAt(inodes[i], st, PosOf(b)) != 0
    ensures |Transaction(l, inodes[i], i, st, a, lo, hi, size)| ==
            |BitBlocks(l, a)| + (hi - lo) + (if EntryAdded(size, inodes[i].size) then 1 else 0)
              + (if inodes[i].size > size then 1 else 0)
  {
    hide Owned, AddrAt, FileBlocks, EntryBlock, Tidy, EntryAdded;
    FileBlocksCount(l, inodes, st, owner, i, lo, hi);
    EntryElsewhere(l, inodes, st, owner, i, size, lo, hi);
    var bits, d := BitBlocks(l, a), FileBlocks(inodes[i], st, lo, hi) + EntryBlock(inodes[i], size, inodes[i].size);
    var m := if inodes[i].size > size then {IBlock(i)} else {};
    assert forall b :: b in bits ==> l.ninodes / IPB + 3 <= b < DataStart(l);
    assert i / IPB <= l.ninodes / IPB;
    assert bits * d == {} && (bits + d) * m == {};
  }

  /** None of them lies in the log area. */
  lemma TransactionBelow(l: Layout, inodes: seq<Inode>, st: Store, owner: map<nat, Place>, i: nat,
                         a: set<nat>, lo: nat, hi: nat, size: nat)
    requires WellSized(l, inodes, st) && Owned(l, inodes, st, owner) && i < |inodes| && lo <= hi <= MAXFILE
    requires forall b :: b in a ==> b < l.size
    requires Tidy(inodes[i], st) && forall b: nat :: lo <= b < hi ==> AddrAt(inodes[i], st, PosOf(b)) != 0
    ensures forall b :: b in Transaction(l, inodes[i], i, st, a, lo, hi, size) ==> b < l.size - l.nlog
  {
    hide Owned, AddrAt, FileBlocks, EntryBlock, Tidy, EntryAdded;
    EntryElsewhere(l, inodes, st, owner, i, size, lo, hi);
    assert forall b :: b in BitBlocks(l, a) ==> b < DataStart(l);
    assert i / IPB <= l.ninodes / IPB;
  }

  /** A chunk's transaction fits the log: at most 14 data blocks, 14 bitmap blocks, one indirect block and one inode
      block, because a partial first block is never new. */
  lemma TransactionFits(size: nat, off: nat, n: nat, bits: nat)
    requires n <= CHUNK && off <= size && bits <= Added(size, Max(size, off + n))
    ensures TxSize(size, off, n, bits) <= LOGSIZE
  {
    BlocksMonotone(off, size);
  }

  /** How many blocks a write that takes a file from size to e bytes may touch, on a disk with one bitmap block, to stay
      within what begin_op reserves. */
  function MostTouched(size: nat, e: nat): (k: nat) {
    if e <= size then MAXOPBLOCKS
    else if BlocksTo(e) == BlocksTo(size) then MAXOPBLOCKS - 1
    else if BlocksTo(e) <= NDIRECT then MAXOPBLOCKS - 2
    else MAXOPBLOCKS - 3
  }

  lemma BudgetExactly(size: nat, off: nat, n: nat, bits: nat)
    requires off <= size && bits == if Added(size, Max(size, off + n)) == 0 then 0 else 1
    ensures TxSize(size, off, n, bits) <= MAXOPBLOCKS <==> Touched(off, n) <= MostTouched(size, off + n)
  {
    hide Touched;
    BlocksMonotone(size, Max(size, off + n));
  }

  /** A full chunk, wherever it starts, logs more sectors than begin_op reserves for an operation. */
  lemma FullChunkOverBudget(size: nat, off: nat, bits: nat)
    ensures TxSize(size, off, CHUNK, bits) > MAXOPBLOCKS
  {
  }

  // ----- what a write costs -----

  /** All that has been logged: bitmap blocks, data and indirect blocks, inode blocks. */
  ghost function Logged(bitmaps: set<nat>, written: set<nat>, iblocks: set<nat>): (tx: set<nat>) {
    bitmaps + written + iblocks
  }

  lemma LoggedNone()
    ensures Logged({}, {}, {}) == {}
  {
  }

  /** The part of the state that a write may change, and what it has logged. */
  datatype Snapshot = Snapshot(inodes: seq<Inode>, st: Store, owner: map<nat, Place>, bitmaps: set<nat>,
                               written: set<nat>)

  /** What storing into blocks lo..hi of inode i, which now reaches to byte e, has cost from state s to state t. */
  ghost predicate Paid(l: Layout, i: nat, lo: nat, hi: nat, e: nat, s: Snapshot, t: Snapshot) {
    && i < |t.inodes| == |s.inodes| && |t.inodes[i].addrs| == NDIRECT + 1 && t.inodes[i].addrs[NDIRECT] < |t.st|
    && lo <= hi <= MAXFILE && s.inodes[i].size <= e
    && TrimTo(t.inodes[i], t.st, e)
    && |t.owner| == |s.owner| + Added(s.inodes[i].size, e)
    && Billed(l, s.st, s.owner, s.bitmaps, t.st, t.owner, t.bitmaps)
    && t.written == s.written + FileBlocks(t.inodes[i], t.st, lo, hi) + EntryBlock(t.inodes[i], s.inodes[i].size, e)
    && Silent(s.st, t.st, t.bitmaps, t.written)
  }

  /** What writing tot bytes at off to inode i has cost from state s to state t. */
  ghost predicate WritePaid(l: Layout, i: nat, off: nat, tot: nat, s: Snapshot, t: Snapshot) {
    && i < |s.inodes|
    && Paid(l, i, off / BSIZE, off / BSIZE + Touched(off, tot), Max(s.inodes[i].size, off + tot), s, t)
  }

  lemma PaidTrimmed(l: Layout, i: nat, off: nat, n: nat, s: Snapshot, t: Snapshot)
    requires WritePaid(l, i, off, n, s, t)
    ensures TrimTo(t.inodes[i], t.st, Max(s.inodes[i].size, off + n))
  {
  }

  lemma PaidSilent(l: Layout, i: nat, off: nat, n: nat, s: Snapshot, t: Snapshot)
    requires WritePaid(l, i, off, n, s, t)
    ensures Silent(s.st, t.st, t.bitmaps, t.written)
  {
  }

  /** Addresses do not depend on the size field. */
  lemma SameAddrs(ino: Inode, ino': Inode, st: Store)
    requires |ino.addrs| == NDIRECT + 1 && ino.addrs[NDIRECT] < |st| && ino'.addrs == ino.addrs
    ensures forall q: nat :: q < NPOS ==> AddrAt(ino', st, q) == AddrAt(ino, st, q)
  {
  }

  lemma PaidResized(l: Layout, i: nat, lo: nat, hi: nat, e: nat, s: Snapshot, t: Snapshot, t': Snapshot)
    requires Paid(l, i, lo, hi, e, s, t)
    requires i < |t'.inodes| == |t.inodes| && t'.inodes[i].addrs == t.inodes[i].addrs && t' == t.(inodes := t'.inodes)
    ensures Paid(l, i, lo, hi, e, s, t')
  {
    hide AddrAt, Billed, Added, EntryAdded;
    SameAddrs(t.inodes[i], t'.inodes[i], t.st);
    assert FileBlocks(t'.inodes[i], t.st, lo, hi) == FileBlocks(t.inodes[i], t.st, lo, hi);
  }

  lemma WriteResized(l: Layout, i: nat, off: nat, n: nat, s: Snapshot, t: Snapshot, t': Snapshot)
    requires WritePaid(l, i, off, n, s, t) && i < |t'.inodes| == |t.inodes|
    requires t'.inodes[i].addrs == t.inodes[i].addrs && t' == t.(inodes := t'.inodes)
    ensures WritePaid(l, i, off, n, s, t')
  {
    hide Paid, Touched;
    PaidResized(l, i, off / BSIZE, off / BSIZE + Touched(off, n), Max(s.inodes[i].size, off + n), s, t, t');
  }

  lemma EntryStep(ino: Inode, st: Store, ino': Inode, st': Store, size: nat, e: nat, e': nat, bn: nat, entry: bool)
    requires |ino.addrs| == NDIRECT + 1 && ino.addrs[NDIRECT] < |st| && BackedTo(ino, st, e) && TrimTo(ino, st, e)
    requires |ino'.addrs| == NDIRECT + 1 && ino'.addrs[NDIRECT] < |st'| && OneMapped(ino, st, ino', st', bn)
    requires EntryAdded(size, e') <==> EntryAdded(size, e) || entry
    ensures EntryBlock(ino', size, e') == EntryBlock(ino, size, e) + if entry then {ino'.addrs[NDIRECT]} else {}
  {
    hide AddrAt, BackedTo, TrimTo, BlocksTo;
    if EntryAdded(size, e) {
      BeyondDirect(e);
      IndirectIff(ino, st, e);
    }
  }

  lemma BlockOf(pos: nat, m: nat)
    requires pos % BSIZE + m <= BSIZE
    ensures pos / BSIZE * BSIZE <= pos && pos + m <= pos / BSIZE * BSIZE + BSIZE
  {
  }

  lemma WrittenStep(w0: set<nat>, d: set<nat>, x: set<nat>, w: set<nat>, addr: nat, y: set<nat>, w': set<nat>)
    requires w == w0 + d + x && w' == w + {addr} + y
    ensures w' == w0 + (d + {addr}) + (x + y)
  {
  }

  lemma PaidRoom(l: Layout, i: nat, lo: nat, bn: nat, e: nat, s: Snapshot, t: Snapshot, pos: nat, m: nat, end: nat)
    requires Paid(l, i, lo, bn, e, s, t) && bn < MAXFILE && BackedTo(t.inodes[i], t.st, e)
    requires pos <= e && 0 < m && bn * BSIZE <= pos && pos + m <= bn * BSIZE + BSIZE && pos + m <= end && e <= end
    ensures |t.owner| + AddedAt(t.inodes[i], t.st, bn) <= |s.owner| + Added(s.inodes[i].size, end)
    ensures AddrAt(t.inodes[i], t.st, PosOf(bn)) == 0 ==> pos >= e
  {
    hide AddrAt, AddedAt, Billed, FileBlocks, EntryBlock, Added, BackedTo, TrimTo, EntryAdded;
    var size := s.inodes[i].size;
    RoundAdds(t.inodes[i], t.st, size, e, pos, m, bn);
    AddedTwice(size, Max(e, pos + m), end);
    AddedTwice(Max(e, pos + m), end, end);
  }

  /** The room that the whole write demands is room for its next round. */
  lemma RoundRoom(l: Layout, i: nat, off: nat, tot: nat, s: Snapshot, t: Snapshot, m: nat, n: nat)
    requires WritePaid(l, i, off, tot, s, t) && i < |t.inodes| == |s.inodes|
    requires |t.inodes[i].addrs| == NDIRECT + 1 && t.inodes[i].addrs[NDIRECT] < |t.st|
    requires BackedTo(t.inodes[i], t.st, Max(s.inodes[i].size, off + tot))
    requires tot < n && off + n <= MAXBYTES && m == Piece(off + tot, n - tot) && Aligned(off, tot, n)
    ensures |t.owner| + AddedAt(t.inodes[i], t.st, (off + tot) / BSIZE)
            <= |s.owner| + Added(s.inodes[i].size, Max(s.inodes[i].size, off + n))
    ensures AddrAt(t.inodes[i], t.st, PosOf((off + tot) / BSIZE)) == 0 ==> off + tot >= s.inodes[i].size
  {
    hide Paid, AddrAt, AddedAt, Added, BackedTo, Touched, Piece, Aligned;
    var size, pos := s.inodes[i].size, off + tot;
    RoundTouches(off, tot, m, n);
    BlockOf(pos, m);
    PaidRoom(l, i, off / BSIZE, pos / BSIZE, Max(size, pos), s, t, pos, m, Max(size, off + n));
  }

  /** bmap and the store that follows, from state t to t', stored m bytes at pos, in block bn. */
  ghost predicate RoundPaid(l: Layout, i: nat, bn: nat, t: Snapshot, t': Snapshot) {
    && i < |t.inodes| == |t'.inodes| && bn < MAXFILE
    && |t.inodes[i].addrs| == NDIRECT + 1 && t.inodes[i].addrs[NDIRECT] < |t.st|
    && |t'.inodes[i].addrs| == NDIRECT + 1 && t'.inodes[i].addrs[NDIRECT] < |t'.st|
    && var ino, ino', p := t.inodes[i], t'.inodes[i], PosOf(bn);
    && OneMapped(ino, t.st, ino', t'.st, bn)
    && |t'.owner| == |t.owner| + AddedAt(ino, t.st, bn)
    && Billed(l, t.st, t.owner, t.bitmaps, t'.st, t'.owner, t'.bitmaps)
    && t'.written == t.written + {AddrAt(ino', t'.st, p)}
                     + (if AddrAt(ino, t.st, p) == 0 && bn >= NDIRECT then {ino'.addrs[NDIRECT]} else {})
    && Silent(t.st, t'.st, t'.bitmaps, t'.written)
  }

  /** What one round adds to the cost. */
  lemma PaidStep(l: Layout, i: nat, lo: nat, bn: nat, e: nat, s: Snapshot, t: Snapshot, t': Snapshot, pos: nat, m: nat)
    requires Paid(l, i, lo, bn, e, s, t) && RoundPaid(l, i, bn, t, t')
    requires BackedTo(t.inodes[i], t.st, e)
    requires pos <= e && 0 < m && bn * BSIZE <= pos && pos + m <= bn * BSIZE + BSIZE
    ensures Paid(l, i, lo, bn + 1, Max(e, pos + m), s, t')
  {
    hide AddrAt, AddedAt, Billed, FileBlocks, EntryBlock, Added, BackedTo, TrimTo, EntryAdded, OneMapped, Silent;
    assert t.bitmaps <= t'.bitmaps by { BilledMore(l, t.st, t.owner, t.bitmaps, t'.st, t'.owner, t'.bitmaps); }
    SilentTwice(s.st, t.st, t.bitmaps, t.written, t'.st, t'.bitmaps, t'.written);
    var ino, ino', size := t.inodes[i], t'.inodes[i], s.inodes[i].size;
    RoundAdds(ino, t.st, size, e, pos, m, bn);
    TrimStep(ino, t.st, ino', t'.st, e, pos, m, bn);
    BilledTwice(l, s.st, s.owner, s.bitmaps, t.st, t.owner, t.bitmaps, t'.st, t'.owner, t'.bitmaps);
    FileBlocksStep(ino, t.st, ino', t'.st, lo, bn);
    var entry := AddrAt(ino, t.st, PosOf(bn)) == 0 && bn >= NDIRECT;
    EntryStep(ino, t.st, ino', t'.st, size, e, Max(e, pos + m), bn, entry);
    WrittenStep(s.written, FileBlocks(ino, t.st, lo, bn), EntryBlock(ino, size, e), t.written,
                AddrAt(ino', t'.st, PosOf(bn)),
                if entry then {ino'.addrs[NDIRECT]} else {}, t'.written);
  }

  lemma WritePaidStep(l: Layout, i: nat, off: nat, tot: nat, s: Snapshot, t: Snapshot, t': Snapshot, m: nat, n: nat)
    requires WritePaid(l, i, off, tot, s, t) && RoundPaid(l, i, (off + tot) / BSIZE, t, t')
    requires BackedTo(t.inodes[i], t.st, Max(s.inodes[i].size, off + tot))
    requires tot < n && off + n <= MAXBYTES && m == Piece(off + tot, n - tot) && Aligned(off, tot, n)
    ensures WritePaid(l, i, off, tot + m, s, t')
  {
    hide Paid, RoundPaid, BackedTo, Touched, Aligned, Piece;
    RoundTouches(off, tot, m, n);
    BlockOf(off + tot, m);
    PaidStep(l, i, off / BSIZE, (off + tot) / BSIZE, Max(s.inodes[i].size, off + tot), s, t, t', off + tot, m);
  }

  /** The blocks that a write has touched are there. */
  lemma TouchedBacked(ino: Inode, st: Store, off: nat, n: nat)
    requires |ino.addrs| == NDIRECT + 1 && ino.addrs[NDIRECT] < |st| && BackedTo(ino, st, ino.size)
             && off + n <= ino.size
    ensures off / BSIZE + Touched(off, n) <= MAXFILE
    ensures forall b: nat :: off / BSIZE <= b < off / BSIZE + Touched(off, n) ==>
              b < MAXFILE && AddrAt(ino, st, PosOf(b)) != 0
  {
    hide AddrAt;
    forall b: nat | off / BSIZE <= b < off / BSIZE + Touched(off, n)
      ensures b < MAXFILE && AddrAt(ino, st, PosOf(b)) != 0
    {
      BlockOf(off + n - 1, 0);
      assert b * BSIZE <= off + n - 1;
    }
  }

  lemma PaidSet(l: Layout, i: nat, lo: nat, hi: nat, s: Snapshot, t: Snapshot, iblocks: set<nat>)
    requires i < |t.inodes| == |s.inodes|
    requires Paid(l, i, lo, hi, t.inodes[i].size, s, t) && s.bitmaps == s.written == {}
    requires iblocks == if t.inodes[i].size > s.inodes[i].size then {IBlock(i)} else {}
    ensures var ino, a := t.inodes[i], Gained(s.owner, t.owner);
            && |ino.addrs| == NDIRECT + 1 && ino.addrs[NDIRECT] < |t.st| && lo <= hi <= MAXFILE
            && Logged(t.bitmaps, t.written, iblocks) == Transaction(l, ino, i, t.st, a, lo, hi, s.inodes[i].size)
            && |t.owner| - |s.owner| == Added(s.inodes[i].size, ino.size) >= 0
            && Billed(l, s.st, s.owner, {}, t.st, t.owner, t.bitmaps)
            && forall b :: b in a ==> b < l.size
  {
    hide AddrAt, Used, TrimTo, Added, FileBlocks, EntryBlock, EntryAdded, BitBlocks;
    AddedTwice(s.inodes[i].size, t.inodes[i].size, t.inodes[i].size);
  }

  /** What is logged, from Paid and whether the inode was updated. */
  lemma PaidSize(l: Layout, i: nat, lo: nat, hi: nat, s: Snapshot, t: Snapshot, iblocks: set<nat>)
    requires i < |t.inodes| == |s.inodes|
    requires Paid(l, i, lo, hi, t.inodes[i].size, s, t) && s.bitmaps == s.written == {}
    requires WellSized(l, t.inodes, t.st) && Owned(l, t.inodes, t.st, t.owner) && Tidy(t.inodes[i], t.st)
    requires hi <= MAXFILE && forall b: nat :: lo <= b < hi ==> AddrAt(t.inodes[i], t.st, PosOf(b)) != 0
    requires iblocks == if t.inodes[i].size > s.inodes[i].size then {IBlock(i)} else {}
    ensures var size, e, k := s.inodes[i].size, t.inodes[i].size, Added(s.inodes[i].size, t.inodes[i].size);
            && |s.st| == l.size && ValidLayout(l) && 0 <= k == |t.owner| - |s.owner| && NewBits(l, s.st, k) <= k
            && |Logged(t.bitmaps, t.written, iblocks)| == NewBits(l, s.st, k) + (hi - lo)
               + (if EntryAdded(size, e) then 1 else 0) + |iblocks|
            && (l.size <= BPB ==> NewBits(l, s.st, k) == if k == 0 then 0 else 1)
    ensures forall b :: b in Logged(t.bitmaps, t.written, iblocks) ==> b < l.size - l.nlog
  {
    hide Paid, AddrAt, Owned, Used, Tidy, Added, Transaction, EntryAdded, BitBlocks, NewBits, Gained, Logged;
    PaidSet(l, i, lo, hi, s, t, iblocks);
    BilledIs(l, s.st, s.owner, {}, t.st, t.owner, t.bitmaps);
    TransactionSize(l, t.inodes, t.st, t.owner, i, Gained(s.owner, t.owner), lo, hi, s.inodes[i].size);
    TransactionBelow(l, t.inodes, t.st, t.owner, i, Gained(s.owner, t.owner), lo, hi, s.inodes[i].size);
  }

  /** The size of a chunk's transaction, exactly, and when it is within what begin_op reserves. */
  lemma ChunkPaid(l: Layout, i: nat, off: nat, n: nat, s: Snapshot, t: Snapshot, iblocks: set<nat>)
    requires i < |t.inodes| == |s.inodes| && off <= s.inodes[i].size && n <= CHUNK
    requires WritePaid(l, i, off, n, s, t) && s.bitmaps == s.written == {}
    requires WellSized(l, t.inodes, t.st) && Owned(l, t.inodes, t.st, t.owner)
    requires t.inodes[i].size == Max(s.inodes[i].size, off + n) && Tidy(t.inodes[i], t.st)
    requires iblocks == if off + n > s.inodes[i].size then {IBlock(i)} else {}
    ensures var size, k, tx := s.inodes[i].size, Added(s.inodes[i].size, t.inodes[i].size),
            Logged(t.bitmaps, t.written, iblocks);
            && |s.st| == l.size && ValidLayout(l) && 0 <= k == |t.owner| - |s.owner|
            && |tx| == TxSize(size, off, n, NewBits(l, s.st, k)) <= LOGSIZE && (n == CHUNK ==> |tx| > MAXOPBLOCKS)
            && (l.size <= BPB ==> (|tx| <= MAXOPBLOCKS <==> Touched(off, n) <= MostTouched(size, off + n)))
            && forall b :: b in tx ==> b < l.size - l.nlog
  {
    hide Paid, Owned, TrimTo, Added, NewBits, Touched, MostTouched, AddrAt, EntryAdded, Logged;
    TouchedBacked(t.inodes[i], t.st, off, n);
    PaidSize(l, i, off / BSIZE, off / BSIZE + Touched(off, n), s, t, iblocks);
    var size := s.inodes[i].size;
    var bits := NewBits(l, s.st, Added(size, Max(size, off + n)));
    TransactionFits(size, off, n, bits);
    FullChunkOverBudget(size, off, bits);
    if l.size <= BPB {
      BudgetExactly(size, off, n, bits);
    }
  }

  /** Midway through filewrite, which began in state s and with on-disk inodes d, in state t and with on-disk inodes dt:
      done bytes of data are in the file. */
  ghost predicate Filling(i: nat, data: seq<Byte>, off: nat, done: nat, s: Snapshot, d: seq<Inode>, t: Snapshot,
                          dt: seq<Inode>) {
    && i < |t.inodes| == |s.inodes| == |d| == |dt| && done <= |data| && off + done < U32
    && |s.inodes[i].addrs| == NDIRECT + 1 && s.inodes[i].addrs[NDIRECT] < |s.st| && s.inodes[i].size <= MAXBYTES
    && |t.inodes[i].addrs| == NDIRECT + 1 && t.inodes[i].addrs[NDIRECT] < |t.st|
    && OthersKept(s.inodes, s.st, s.owner, t.inodes, t.st, t.owner, i)
    && Tidy(t.inodes[i], t.st) && t.inodes[i].size == EndOf(s.inodes[i].size, off, done) <= MAXBYTES
    && Content(t.inodes[i], t.st) == SpliceSome(Content(s.inodes[i], s.st), off, data[..done])
    && |t.owner| == |s.owner| + Added(s.inodes[i].size, t.inodes[i].size)
    && (d[i] == s.inodes[i] ==> dt == d[i := t.inodes[i]])
    && Chunked(done, |data|) && (done > 0 ==> off <= s.inodes[i].size)
  }

  lemma FillingStart(i: nat, data: seq<Byte>, off: Word, s: Snapshot, d: seq<Inode>)
    requires i < |s.inodes| == |d| && |s.inodes[i].addrs| == NDIRECT + 1 && s.inodes[i].addrs[NDIRECT] < |s.st|
    requires Tidy(s.inodes[i], s.st)
    ensures Filling(i, data, off, 0, s, d, s, d)
  {
    hide AddrAt;
    KeptSelf(s.inodes, s.st, s.owner, i);
    SpliceNone(Content(s.inodes[i], s.st), off);
    AddedNone(s.inodes[i].size);
    assert data[..0] == [];
  }

  /** src is the part of data that filewrite takes next, after the first done bytes. */
  predicate IsChunk(src: seq<Byte>, data: seq<Byte>, done: nat) {
    done < |data| && src == data[done..done + if |data| - done > CHUNK then CHUNK else |data| - done]
  }

  lemma ChunkLength(src: seq<Byte>, data: seq<Byte>, done: nat)
    requires IsChunk(src, data, done)
    ensures done < |data| && |src| == (if |data| - done > CHUNK then CHUNK else |data| - done)
            && src == data[done..done + |src|]
    ensures 0 < |src| <= CHUNK && done + |src| <= |data| && (done + |src| < |data| ==> |src| == CHUNK)
  {
  }

  /** The next chunk is refused where the file cannot hold it, and otherwise there is room for it. */
  lemma FillingRoom(i: nat, data: seq<Byte>, off: nat, done: nat, src: seq<Byte>, s: Snapshot, d: seq<Inode>,
                    t: Snapshot, dt: seq<Inode>, room: int)
    requires Filling(i, data, off, done, s, d, t, dt) && i < |t.inodes| == |s.inodes| && IsChunk(src, data, done)
    requires var size := s.inodes[i].size;
             |s.owner| + Added(size, EndOf(size, off, Writable(size, off, |data|))) <= room
    ensures off + done < U32
    ensures |t.inodes[i].addrs| == NDIRECT + 1 && t.inodes[i].addrs[NDIRECT] < |t.st| && Tidy(t.inodes[i], t.st)
    ensures Refused(t.inodes[i].size, off + done, |src|) ==> done == Writable(s.inodes[i].size, off, |data|)
    ensures !Refused(t.inodes[i].size, off + done, |src|) ==>
              |t.owner| + Added(t.inodes[i].size, Max(t.inodes[i].size, off + done + |src|)) <= room
  {
    hide AddrAt, OthersKept, Tidy, Content, Added, Writable, Chunked, Refused, EndOf, IsChunk;
    ChunkLength(src, data, done);
    NextFits(s.inodes[i].size, off, |data|, done, |src|, |s.owner|, |t.owner|, room);
  }

  /** A refused chunk changes nothing. */
  lemma FillingStays(i: nat, data: seq<Byte>, off: nat, done: nat, s: Snapshot, d: seq<Inode>, t: Snapshot,
                     dt: seq<Inode>, t': Snapshot)
    requires Filling(i, data, off, done, s, d, t, dt)
    requires t'.inodes == t.inodes && t'.st == t.st && t'.owner == t.owner
    ensures Filling(i, data, off, done, s, d, t', dt)
  {
  }

  /** A chunk that is stored. */
  lemma FillingNext(i: nat, data: seq<Byte>, off: nat, done: nat, src: seq<Byte>, s: Snapshot, d: seq<Inode>,
                    t: Snapshot, dt: seq<Inode>, t': Snapshot, dt': seq<Inode>)
    requires Filling(i, data, off, done, s, d, t, dt) && IsChunk(src, data, done)
    requires i < |t.inodes| && !Refused(t.inodes[i].size, off + done, |src|)
    requires OthersKept(t.inodes, t.st, t.owner, t'.inodes, t'.st, t'.owner, i) && i < |t'.inodes|
    requires |t'.inodes[i].addrs| == NDIRECT + 1 && t'.inodes[i].addrs[NDIRECT] < |t'.st| && Tidy(t'.inodes[i], t'.st)
    requires t'.inodes[i].size == Max(t.inodes[i].size, off + done + |src|)
    requires Content(t'.inodes[i], t'.st) == Splice(Content(t.inodes[i], t.st), off + done, src)
    requires |t'.owner| == |t.owner| + Added(t.inodes[i].size, t'.inodes[i].size)
    requires |dt'| == |dt| && (dt[i] == t.inodes[i] ==> dt' == dt[i := t'.inodes[i]])
    ensures Filling(i, data, off, done + |src|, s, d, t', dt')
  {
    hide AddrAt, OthersKept, Tidy, Content, Added, Chunked, Splice, SpliceSome, IsChunk;
    OthersKeptTwice(s.inodes, s.st, s.owner, t.inodes, t.st, t.owner, t'.inodes, t'.st, t'.owner, i);
    ChunkLength(src, data, done);
    ChunkStep(|data|, done, |src|);
    SpliceNext(Content(s.inodes[i], s.st), off, data, done, |src|);
    AddedTwice(s.inodes[i].size, t.inodes[i].size, t'.inodes[i].size);
    assert |t'.inodes| == |t.inodes| by { SameCount(t, t', i); }
  }

  lemma SameCount(t: Snapshot, t': Snapshot, i: nat)
    requires OthersKept(t.inodes, t.st, t.owner, t'.inodes, t'.st, t'.owner, i)
    ensures |t'.inodes| == |t.inodes|
  {
  }
}
