/** What a write costs: the blocks it touches, the blocks it adds to a file, and the sectors it logs. */
module FsAccount {
  import opened Blocks
  import opened Bitmap
  import opened FsState
  import opened FsFiles

  // ----- counting blocks -----

  /** How many blocks the bytes off..off+n lie in. */
  function Touched(off: nat, n: nat): (k: nat) {
    if n == 0 then 0 else (off + n - 1) / BSIZE - off / BSIZE + 1
  }

  /** How many blocks a file of e bytes has. */
  function BlocksTo(e: nat): (k: nat) {
    (e + BSIZE - 1) / BSIZE
  }

  /** How many blocks a file owns more when it has grown from size to e bytes, the indirect block included. */
  function Added(size: nat, e: nat): (k: int) {
    BlocksTo(e) - BlocksTo(size) + if size <= NDIRECT * BSIZE < e then 1 else 0
  }

  /** Growing from size to e bytes has stored an entry in the indirect block. */
  predicate EntryAdded(size: nat, e: nat) {
    BlocksTo(e) > BlocksTo(size) && BlocksTo(e) > NDIRECT
  }

  /** A round of a write of n bytes at off starts or ends at a block boundary, except at either end of the write. */
  ghost predicate Aligned(off: nat, tot: nat, n: nat) {
    tot == 0 || tot == n || (off + tot) % BSIZE == 0
  }

  /** How much of what is left goes into the block of byte pos. */
  function Piece(pos: nat, left: nat): (m: nat)
    requires left > 0
    ensures 0 < m <= left && pos % BSIZE + m <= BSIZE
  {
    if left < BSIZE - pos % BSIZE then left else BSIZE - pos % BSIZE
  }

  /** One round touches one more block. */
  lemma RoundTouches(off: nat, tot: nat, m: nat, n: nat)
    requires tot < n && off + n <= MAXBYTES && Aligned(off, tot, n) && m == Piece(off + tot, n - tot)
    ensures Touched(off, tot + m) == Touched(off, tot) + 1
    ensures (off + tot) / BSIZE == off / BSIZE + Touched(off, tot) < MAXFILE
    ensures Aligned(off, tot + m, n)
  {
  }

  lemma BlocksIn(e: nat, bn: nat)
    requires bn * BSIZE < e <= bn * BSIZE + BSIZE
    ensures BlocksTo(e) == bn + 1
  {
    var x := e + BSIZE - 1 - (bn + 1) * BSIZE;
    assert e + BSIZE - 1 == BSIZE * (bn + 1) + x && 0 <= x < BSIZE;
  }

  lemma BlocksAt(bn: nat)
    ensures BlocksTo(bn * BSIZE) == bn
  {
  }

  /** How many blocks bmap allocates for block bn. */
  function AddedAt(ino: Inode, st: Store, bn: nat): (k: nat)
    requires |ino.addrs| == NDIRECT + 1 && ino.addrs[NDIRECT] < |st| && bn < MAXFILE
  {
    if AddrAt(ino, st, PosOf(bn)) != 0 then 0 else if bn >= NDIRECT && ino.addrs[NDIRECT] == 0 then 2 else 1
  }

  /** Of a file of e bytes with no other blocks, block bn, where bytes pos..pos+m go, is missing only if it is the next
      one; then the file gains what Added says. */
  lemma RoundAdds(ino: Inode, st: Store, size: nat, e: nat, pos: nat, m: nat, bn: nat)
    requires |ino.addrs| == NDIRECT + 1 && ino.addrs[NDIRECT] < |st| && BackedTo(ino, st, e) && TrimTo(ino, st, e)
    requires size <= e && pos <= e && 0 < m && bn * BSIZE <= pos && pos + m <= bn * BSIZE + BSIZE && bn < MAXFILE
    ensures var missing, e' := AddrAt(ino, st, PosOf(bn)) == 0, Max(e, pos + m);
            && Added(size, e') == Added(size, e) + AddedAt(ino, st, bn)
            && (EntryAdded(size, e') <==> EntryAdded(size, e) || (missing && bn >= NDIRECT))
            && (missing ==> e == bn * BSIZE)
  {
    hide AddrAt, BlocksTo;
    IndirectIff(ino, st, e);
    if AddrAt(ino, st, PosOf(bn)) == 0 {
      assert e == bn * BSIZE;
      BlocksAt(bn);
      BlocksIn(pos + m, bn);
      BlocksMonotone(size, e);
    } else if pos + m > e {
      BlocksIn(pos + m, bn);
      BlocksIn(e, bn);
    }
  }

  /** Only block bn, and for it the indirect block, may have got an address. */
  ghost predicate OneMapped(ino: Inode, st: Store, ino': Inode, st': Store, bn: nat)
    requires |ino.addrs| == NDIRECT + 1 && ino.addrs[NDIRECT] < |st|
    requires |ino'.addrs| == NDIRECT + 1 && ino'.addrs[NDIRECT] < |st'|
  {
    && (forall q: nat :: q < NPOS && q != PosOf(bn) && q != NDIRECT ==> AddrAt(ino', st', q) == AddrAt(ino, st, q))
    && (bn < NDIRECT || ino.addrs[NDIRECT] != 0 ==> ino'.addrs[NDIRECT] == ino.addrs[NDIRECT])
  }

  lemma TrimStep(ino: Inode, st: Store, ino': Inode, st': Store, e: nat, pos: nat, m: nat, bn: nat)
    requires |ino.addrs| == NDIRECT + 1 && ino.addrs[NDIRECT] < |st|
    requires |ino'.addrs| == NDIRECT + 1 && ino'.addrs[NDIRECT] < |st'|
    requires TrimTo(ino, st, e) && OneMapped(ino, st, ino', st', bn) && bn * BSIZE <= pos && 0 < m
    ensures TrimTo(ino', st', Max(e, pos + m))
  {
    hide AddrAt;
  }

  lemma BlocksMonotone(a: nat, b: nat)
    requires a <= b
    ensures BlocksTo(a) <= BlocksTo(b)
  {
  }

  /** The indirect block is there exactly when the file reaches beyond the direct ones. */
  lemma IndirectIff(ino: Inode, st: Store, e: nat)
    requires |ino.addrs| == NDIRECT + 1 && ino.addrs[NDIRECT] < |st| && BackedTo(ino, st, e) && TrimTo(ino, st, e)
    ensures ino.addrs[NDIRECT] != 0 <==> e > NDIRECT * BSIZE
  {
    if e > NDIRECT * BSIZE {
      assert AddrAt(ino, st, PosOf(NDIRECT)) != 0;
    }
  }

  lemma AddedNone(a: nat)
    ensures Added(a, a) == 0
  {
  }

  lemma AddedTwice(a: nat, b: nat, c: nat)
    requires a <= b <= c
    ensures Added(a, b) + Added(b, c) == Added(a, c) && 0 <= Added(a, b)
  {
    BlocksMonotone(a, b);
  }

  // ----- which blocks balloc takes -----

  /** The blocks in a were free, are used now, and no free block lies below one of them. */
  ghost predicate Took(l: Layout, st: Store, st': Store, a: set<nat>) {
    && ValidLayout(l) && |st| == |st'| == l.size
    && (forall b :: b in a ==> b < l.size && !Used(l, st, b))
    && (forall b: nat :: b < l.size ==> (Used(l, st', b) <==> Used(l, st, b) || b in a))
    && (forall b: nat, c: nat :: b in a && c < l.size && !Used(l, st', c) ==> b < c)
  }

  lemma TookTwice(l: Layout, st: Store, st1: Store, st2: Store, a: set<nat>, b: set<nat>)
    requires Took(l, st, st1, a) && Took(l, st1, st2, b)
    ensures Took(l, st, st2, a + b)
  {
    hide Used;
  }

  lemma TookNone(l: Layout, st: Store, st': Store)
    requires ValidLayout(l) && |st| == |st'| == l.size && forall c :: 0 <= c < DataStart(l) ==> st'[c] == st[c]
    ensures Took(l, st, st', {})
  {
    BitsStable(l, st, st');
  }

  lemma TookFirst(l: Layout, st: Store, r: nat)
    requires |st| == l.size && ValidLayout(l) && FirstFree(l, st, r) && DataStart(l) <= r
    ensures Took(l, st, Allocated(l, st, r), {r})
  {
    hide BlockBit, SetBlockBit;
    MarkUsedBits(l, st, r);
    BitsStable(l, MarkUsed(l, st, r), Allocated(l, st, r));
    hide Used;
  }

  /** The first k free blocks from b on. */
  ghost function FirstFrees(l: Layout, st: Store, b: nat, k: nat): (r: set<nat>)
    requires |st| == l.size && ValidLayout(l)
    decreases l.size - b
  {
    if k == 0 || b >= l.size then {}
    else if Used(l, st, b) then FirstFrees(l, st, b + 1, k)
    else {b} + FirstFrees(l, st, b + 1, k - 1)
  }

  ghost function From(a: set<nat>, b: nat): (r: set<nat>) {
    set x | x in a && x >= b
  }

  lemma FromStep(a: set<nat>, b: nat)
    ensures From(a, b) == (if b in a then {b} else {}) + From(a, b + 1)
    ensures |From(a, b)| == |From(a, b + 1)| + if b in a then 1 else 0
    ensures (forall c :: c in a ==> c < b) ==> From(a, b) == {}
  {
    assert b !in From(a, b + 1);
  }

  /** What balloc has taken is determined by how many blocks it was asked for. */
  lemma {:induction false} TookIs(l: Layout, st: Store, st': Store, a: set<nat>, b: nat)
    requires Took(l, st, st', a)
    ensures From(a, b) == FirstFrees(l, st, b, |From(a, b)|)
    decreases l.size - b
  {
    hide Used, From;
    FromStep(a, b);
    if b < l.size {
      TookIs(l, st, st', a, b + 1);
      assert !Used(l, st, b) && b !in a ==> From(a, b) == {};
    }
  }

  // ----- the sectors of a transaction -----

  /** Every sector that has changed is among the logged ones. */
  ghost predicate Silent(st: Store, st': Store, bits: set<nat>, written: set<nat>) {
    |st'| == |st| && forall b :: 0 <= b < |st| && b !in bits && b !in written ==> st'[b] == st[b]
  }

  lemma SilentTwice(st: Store, st1: Store, bits1: set<nat>, w1: set<nat>, st2: Store, bits2: set<nat>, w2: set<nat>)
    requires Silent(st, st1, bits1, w1) && Silent(st1, st2, bits2, w2) && bits1 <= bits2 && w1 <= w2
    ensures Silent(st, st2, bits2, w2)
  {
  }

  lemma AllocatedSilent(l: Layout, st: Store, r: nat, bits: set<nat>, w: set<nat>)
    requires |st| == l.size && ValidLayout(l) && r < l.size && !Used(l, st, r) && BBlock(l, r) in bits && r in w
    ensures Silent(st, Allocated(l, st, r), bits, w)
  {
  }

  ghost function BitBlocks(l: Layout, a: set<nat>): (r: set<nat>) {
    set b | b in a :: BBlock(l, b)
  }

  lemma BitBlocksNext(l: Layout, a: set<nat>, b: nat)
    ensures BitBlocks(l, a + {b}) == BitBlocks(l, a) + {BBlock(l, b)}
  {
  }

  lemma {:induction false} BitBlocksFew(l: Layout, a: set<nat>)
    ensures |BitBlocks(l, a)| <= |a|
    decreases |a|
  {
    if a != {} {
      var b :| b in a;
      BitBlocksFew(l, a - {b});
      assert BitBlocks(l, a) == BitBlocks(l, a - {b}) + {BBlock(l, b)};
    }
  }

  /** On a disk with one bitmap block there is one to log. */
  lemma OneBitBlock(l: Layout, a: set<nat>)
    requires forall b :: b in a ==> b < BPB
    ensures |BitBlocks(l, a)| == if a == {} then 0 else 1
  {
    if a != {} {
      var b :| b in a;
      assert BitBlocks(l, a) == {BBlock(l, b)};
    }
  }

  /** How many bitmap blocks the allocation of k blocks changes. */
  ghost function NewBits(l: Layout, st: Store, k: nat): (n: nat)
    requires |st| == l.size && ValidLayout(l)
  {
    |BitBlocks(l, FirstFrees(l, st, 0, k))|
  }

  ghost function Gained(owner: map<nat, Place>, owner': map<nat, Place>): (a: set<nat>) {
    owner'.Keys - owner.Keys
  }

  /** The blocks gained are the first free ones, and their bitmap blocks are what was logged of the bitmap. */
  ghost predicate Billed(l: Layout, st: Store, owner: map<nat, Place>, bits: set<nat>,
                         st': Store, owner': map<nat, Place>, bits': set<nat>) {
    && owner.Keys <= owner'.Keys
    && Took(l, st, st', Gained(owner, owner'))
    && bits' == bits + BitBlocks(l, Gained(owner, owner'))
  }

  lemma BilledNone(l: Layout, st: Store, owner: map<nat, Place>, bits: set<nat>, st': Store)
    requires ValidLayout(l) && |st| == |st'| == l.size && forall c :: 0 <= c < DataStart(l) ==> st'[c] == st[c]
    ensures Billed(l, st, owner, bits, st', owner, bits)
  {
    TookNone(l, st, st');
    assert Gained(owner, owner) == {};
  }

  lemma BilledTwice(l: Layout, st: Store, owner: map<nat, Place>, bits: set<nat>,
                    st1: Store, owner1: map<nat, Place>, bits1: set<nat>, st2: Store, owner2: map<nat, Place>,
                      bits2: set<nat>)
    requires Billed(l, st, owner, bits, st1, owner1, bits1) && Billed(l, st1, owner1, bits1, st2, owner2, bits2)
    ensures Billed(l, st, owner, bits, st2, owner2, bits2)
  {
    var a, b := Gained(owner, owner1), Gained(owner1, owner2);
    TookTwice(l, st, st1, st2, a, b);
    hide Took;
    assert Gained(owner, owner2) == a + b;
    assert BitBlocks(l, a + b) == BitBlocks(l, a) + BitBlocks(l, b);
  }

  lemma BilledOne(l: Layout, st: Store, owner: map<nat, Place>, bits: set<nat>, r: nat, w: Place)
    requires |st| == l.size && ValidLayout(l) && FirstFree(l, st, r) && DataStart(l) <= r && r !in owner
    ensures Billed(l, st, owner, bits, Allocated(l, st, r), owner[r := w], bits + {BBlock(l, r)})
  {
    TookFirst(l, st, r);
    hide Took, Used;
    assert Gained(owner, owner[r := w]) == {r};
    assert BitBlocks(l, {r}) == {BBlock(l, r)};
  }

  lemma BilledMore(l: Layout, st: Store, owner: map<nat, Place>, bits: set<nat>,
                   st': Store, owner': map<nat, Place>, bits': set<nat>)
    requires Billed(l, st, owner, bits, st', owner', bits')
    ensures bits <= bits'
  {
  }

  /** A store into a data block after that. */
  lemma BilledStore(l: Layout, st: Store, owner: map<nat, Place>, bits: set<nat>,
                    st1: Store, owner1: map<nat, Place>, bits1: set<nat>, a: nat, data: Block)
    requires Billed(l, st, owner, bits, st1, owner1, bits1) && DataStart(l) <= a < |st1|
    ensures Billed(l, st, owner, bits, st1[a := data], owner1, bits1)
  {
    BilledNone(l, st1, owner1, bits1, st1[a := data]);
    BilledTwice(l, st, owner, bits, st1, owner1, bits1, st1[a := data], owner1, bits1);
  }

  /** The bitmap blocks are determined by the bitmap as it was. */
  lemma BilledIs(l: Layout, st: Store, owner: map<nat, Place>, bits: set<nat>,
                 st': Store, owner': map<nat, Place>, bits': set<nat>)
    requires Billed(l, st, owner, bits, st', owner', bits') && |owner| <= |owner'|
    ensures |Gained(owner, owner')| == |owner'| - |owner|
    ensures |BitBlocks(l, Gained(owner, owner'))| == NewBits(l, st, |owner'| - |owner|) <= |owner'| - |owner|
    ensures l.size <= BPB ==> NewBits(l, st, |owner'| - |owner|) == if |owner'| == |owner| then 0 else 1
  {
    hide Used, BBlock;
    var a := Gained(owner, owner');
    assert owner'.Keys == owner.Keys + a && owner.Keys * a == {};
    TookIs(l, st, st', a, 0);
    assert From(a, 0) == a;
    BitBlocksFew(l, a);
    if l.size <= BPB {
      OneBitBlock(l, a);
    }
  }

  /** The blocks lo..hi of a file. */
  ghost function FileBlocks(ino: Inode, st: Store, lo: nat, hi: nat): (r: set<nat>)
    requires |ino.addrs| == NDIRECT + 1 && ino.addrs[NDIRECT] < |st| && hi <= MAXFILE
  {
    set b: nat | lo <= b < hi :: AddrAt(ino, st, PosOf(b))
  }

  lemma FileBlocksStep(ino: Inode, st: Store, ino': Inode, st': Store, lo: nat, hi: nat)
    requires |ino.addrs| == NDIRECT + 1 && ino.addrs[NDIRECT] < |st|
    requires |ino'.addrs| == NDIRECT + 1 && ino'.addrs[NDIRECT] < |st'|
    requires lo <= hi < MAXFILE && OneMapped(ino, st, ino', st', hi)
    ensures FileBlocks(ino', st', lo, hi + 1) == FileBlocks(ino, st, lo, hi) + {AddrAt(ino', st', PosOf(hi))}
  {
    hide AddrAt;
    assert forall b: nat :: lo <= b < hi ==> AddrAt(ino', st', PosOf(b)) == AddrAt(ino, st, PosOf(b));
  }

  lemma DirectAddr(ino: Inode, st: Store, p: nat)
    requires |ino.addrs| == NDIRECT + 1 && ino.addrs[NDIRECT] < |st| && p <= NDIRECT
    ensures AddrAt(ino, st, p) == ino.addrs[p]
  {
  }

  lemma PlaceOwned(l: Layout, inodes: seq<Inode>, st: Store, owner: map<nat, Place>, i: nat, p: nat)
    requires Owned(l, inodes, st, owner) && i < |inodes| && p < NPOS && AddrAt(inodes[i], st, p) != 0
    ensures var a := AddrAt(inodes[i], st, p);
            a in owner && owner[a] == Place(i, p) && DataStart(l) <= a < l.size - l.nlog
  {
    hide Used;
    var a := AddrAt(inodes[i], st, p);
    assert OwnerOk(l, inodes, st, owner[a], a);
  }

  /** Different blocks of a file have different addresses. */
  lemma {:induction false} FileBlocksCount(l: Layout, inodes: seq<Inode>, st: Store, owner: map<nat, Place>,
                                           i: nat, lo: nat, hi: nat)
    requires WellSized(l, inodes, st) && Owned(l, inodes, st, owner) && i < |inodes| && lo <= hi <= MAXFILE
    requires forall b: nat :: lo <= b < hi ==> AddrAt(inodes[i], st, PosOf(b)) != 0
    ensures |FileBlocks(inodes[i], st, lo, hi)| == hi - lo
    ensures forall x :: x in FileBlocks(inodes[i], st, lo, hi) ==>
              && x in owner && owner[x].pos != NDIRECT && owner[x].pos >= PosOf(lo)
              && DataStart(l) <= x < l.size - l.nlog
    decreases hi - lo
  {
    hide AddrAt, Owned, DataStart, ValidLayout;
    var ino := inodes[i];
    if lo < hi {
      PlaceOwned(l, inodes, st, owner, i, PosOf(lo));
      FileBlocksCount(l, inodes, st, owner, i, lo + 1, hi);
      assert FileBlocks(ino, st, lo, hi) == {AddrAt(ino, st, PosOf(lo))} + FileBlocks(ino, st, lo + 1, hi);
    } else {
      assert FileBlocks(ino, st, lo, hi) == {};
    }
  }

  /** The indirect block, where growing from size to e bytes has stored into it. */
  ghost function EntryBlock(ino: Inode, size: nat, e: nat): (r: set<nat>)
    requires |ino.addrs| == NDIRECT + 1
    ensures |r| == if EntryAdded(size, e) then 1 else 0
  {
    if EntryAdded(size, e) then {ino.addrs[NDIRECT]} else {}
  }

  /** The number of sectors that writing n bytes at off to a file of size bytes logs: the blocks touched, the indirect
      block if it gets an entry, the bitmap blocks, and the inode block if the file grows. */
  ghost function TxSize(size: nat, off: nat, n: nat, bits: nat): (k: nat) {
    Touched(off, n) + (if EntryAdded(size, Max(size, off + n)) then 1 else 0) + bits + (if off + n > size then 1 else 0)
  }
}
