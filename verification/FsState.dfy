/** The on-disk structures of fs.h and fs.c as values: bitmap, block maps, file contents,
    and the ownership invariant that ties them together. */
module FsState {
  import opened Blocks
  import opened Bitmap

  const NDIRECT := 12
  const NINDIRECT := 128
  const MAXFILE := NDIRECT + NINDIRECT
  const IPB := 8
  const NPOS := MAXFILE + 1

  /** The super block. */
  datatype Layout = Layout(size: nat, ninodes: nat, nlog: nat)

  function BBlock(l: Layout, b: nat): (s: nat) { b / BPB + l.ninodes / IPB + 3 }
  function IBlock(i: nat): (s: nat) { i / IPB + 2 }

  /** First data block, as mkfs lays the disk out: after the bitmap. */
  function DataStart(l: Layout): (s: nat) { l.ninodes / IPB + 3 + l.size / BPB + 1 }

  predicate ValidLayout(l: Layout) {
    DataStart(l) <= l.size - l.nlog
  }

  /** addrs[0..12) are direct, addrs[12] is the block of indirect addresses. */
  datatype Inode = Inode(typ: int, nlink: int, size: nat, addrs: seq<Word>)

  type Store = seq<Block>     // the sectors as the log presents them

  // ----- the free bitmap -----

  predicate Used(l: Layout, st: Store, b: nat)
    requires |st| == l.size && ValidLayout(l) && b < l.size
  {
    BlockBit(st[BBlock(l, b)], b % BPB)
  }

  function MarkUsed(l: Layout, st: Store, b: nat): (r: Store)
    requires |st| == l.size && ValidLayout(l) && b < l.size && !Used(l, st, b)
    ensures |r| == |st|
  {
    st[BBlock(l, b) := SetBlockBit(st[BBlock(l, b)], b % BPB)]
  }

  function MarkFree(l: Layout, st: Store, b: nat): (r: Store)
    requires |st| == l.size && ValidLayout(l) && b < l.size && Used(l, st, b)
    ensures |r| == |st|
  {
    st[BBlock(l, b) := ClearBlockBit(st[BBlock(l, b)], b % BPB)]
  }

  lemma MarkUsedBits(l: Layout, st: Store, b: nat)
    requires |st| == l.size && ValidLayout(l) && b < l.size && !Used(l, st, b)
    ensures forall c: nat :: c < l.size ==> (Used(l, MarkUsed(l, st, b), c) <==> c == b || Used(l, st, c))
  {
  }

  lemma MarkFreeBits(l: Layout, st: Store, b: nat)
    requires |st| == l.size && ValidLayout(l) && b < l.size && Used(l, st, b)
    ensures forall c: nat :: c < l.size ==> (Used(l, MarkFree(l, st, b), c) <==> c != b && Used(l, st, c))
  {
  }

  /** Bits depend only on blocks below the data area. */
  lemma BitsStable(l: Layout, st: Store, st': Store)
    requires |st| == |st'| == l.size && ValidLayout(l)
    requires forall c :: 0 <= c < DataStart(l) ==> st'[c] == st[c]
    ensures forall c: nat :: c < l.size ==> (Used(l, st', c) <==> Used(l, st, c))
  {
  }

  // ----- block maps -----

  /** Where an address of an inode is kept: 0..11 direct, 12 the indirect block itself,
      13 + j the j-th entry of the indirect block. */
  function AddrAt(ino: Inode, st: Store, p: nat): (a: Word)
    requires |ino.addrs| == NDIRECT + 1 && p < NPOS && ino.addrs[NDIRECT] < |st|
  {
    if p <= NDIRECT then ino.addrs[p]
    else if ino.addrs[NDIRECT] == 0 then 0
    else GetWord(st[ino.addrs[NDIRECT]], p - NDIRECT - 1)
  }

  /** Position of the address of the bn-th block of a file. */
  function PosOf(bn: nat): (p: nat) {
    if bn < NDIRECT then bn else bn + 1
  }

  datatype Place = Place(inum: nat, pos: nat)

  ghost predicate WellSized(l: Layout, inodes: seq<Inode>, st: Store) {
    && ValidLayout(l) && |st| == l.size && |inodes| == l.ninodes
    && forall i :: 0 <= i < |inodes| ==> |inodes[i].addrs| == NDIRECT + 1 && inodes[i].addrs[NDIRECT] < l.size
  }

  /** Block ownership: the blocks marked used are the metadata blocks and, disjointly, the blocks
      that inodes refer to. owner tells for each such block the one place that refers to it. */
  ghost predicate Owned(l: Layout, inodes: seq<Inode>, st: Store, owner: map<nat, Place>) {
    && WellSized(l, inodes, st)
    && (forall i, p {:trigger AddrAt(inodes[i], st, p)} ::
          0 <= i < |inodes| && 0 <= p < NPOS && AddrAt(inodes[i], st, p) != 0 ==>
          AddrAt(inodes[i], st, p) in owner && owner[AddrAt(inodes[i], st, p)] == Place(i, p))
    && (forall b :: b in owner ==> OwnerOk(l, inodes, st, owner[b], b))
    && (forall b: nat :: b < l.size ==> (Used(l, st, b) <==> b < DataStart(l) || b in owner))
  }

  ghost predicate OwnerOk(l: Layout, inodes: seq<Inode>, st: Store, w: Place, b: nat)
    requires WellSized(l, inodes, st)
  {
    && DataStart(l) <= b < l.size - l.nlog
    && w.inum < |inodes| && w.pos < NPOS
    && AddrAt(inodes[w.inum], st, w.pos) == b
  }

  /** Two places never refer to the same block. */
  lemma OwnersDisjoint(l: Layout, inodes: seq<Inode>, st: Store, owner: map<nat, Place>, i: nat, p: nat, j: nat, q: nat)
    requires Owned(l, inodes, st, owner)
    requires i < |inodes| && j < |inodes| && p < NPOS && q < NPOS
    requires AddrAt(inodes[i], st, p) != 0 && AddrAt(inodes[i], st, p) == AddrAt(inodes[j], st, q)
    ensures i == j && p == q
  {
  }

  /** Where the indirect blocks are unchanged, every address is. */
  lemma AddrStable(l: Layout, inodes: seq<Inode>, st: Store, owner: map<nat, Place>, st': Store)
    requires Owned(l, inodes, st, owner) && |st'| == |st|
    requires forall b :: b in owner && b < |st| && owner[b].pos == NDIRECT ==> st'[b] == st[b]
    ensures forall i, p :: 0 <= i < |inodes| && 0 <= p < NPOS ==> AddrAt(inodes[i], st', p) == AddrAt(inodes[i], st, p)
  {
    hide GetWord;
    hide Used;
    forall i, p | 0 <= i < |inodes| && 0 <= p < NPOS
      ensures AddrAt(inodes[i], st', p) == AddrAt(inodes[i], st, p)
    {
      var x := AddrAt(inodes[i], st, NDIRECT);
      assert x != 0 ==> x in owner && owner[x] == Place(i, NDIRECT);
    }
  }

  /** Overwriting such a block keeps ownership. */
  lemma OverwriteKeepsOwned(l: Layout, inodes: seq<Inode>, st: Store, owner: map<nat, Place>, b: nat, data: Block)
    requires Owned(l, inodes, st, owner) && DataStart(l) <= b < l.size
    requires b in owner ==> owner[b].pos != NDIRECT
    ensures Owned(l, inodes, st[b := data], owner)
  {
    hide GetWord;
    AddrStable(l, inodes, st, owner, st[b := data]);
    BitsStable(l, st, st[b := data]);
    hide AddrAt;
    var st' := st[b := data];
    forall i, p | 0 <= i < |inodes| && 0 <= p < NPOS && AddrAt(inodes[i], st', p) != 0
      ensures AddrAt(inodes[i], st', p) in owner && owner[AddrAt(inodes[i], st', p)] == Place(i, p)
    {
      assert AddrAt(inodes[i], st', p) == AddrAt(inodes[i], st, p);
    }
    forall c | c in owner
      ensures OwnerOk(l, inodes, st', owner[c], c)
    {
      assert OwnerOk(l, inodes, st, owner[c], c);
    }
  }

  // ----- allocating and attaching a block -----

  /** The store after balloc has marked and zeroed block r. */
  function Allocated(l: Layout, st: Store, r: nat): (st': Store)
    requires |st| == l.size && ValidLayout(l) && r < l.size && !Used(l, st, r)
    ensures |st'| == |st|
  {
    MarkUsed(l, st, r)[r := Zero()]
  }

  /** r is the block that balloc finds: the first one whose bit is clear. */
  ghost predicate FirstFree(l: Layout, st: Store, r: nat)
    requires |st| == l.size && ValidLayout(l)
  {
    r < l.size && !Used(l, st, r) && forall c: nat :: c < r ==> Used(l, st, c)
  }

  ghost predicate FreeBelow(l: Layout, st: Store, n: nat)
    requires |st| == l.size && ValidLayout(l)
  {
    exists b: nat :: b < n && b < l.size && !Used(l, st, b)
  }

  /** While a data block is free, the first free block is a data block and nobody's. */
  lemma FirstFreeIsData(l: Layout, inodes: seq<Inode>, st: Store, owner: map<nat, Place>, r: nat)
    requires Owned(l, inodes, st, owner) && FirstFree(l, st, r)
    ensures r !in owner && DataStart(l) <= r
    ensures FreeBelow(l, st, l.size - l.nlog) <==> r < l.size - l.nlog
  {
  }

  /** What a step changes about addresses: one place gets block r. */
  ghost predicate Attached(l: Layout, inodes: seq<Inode>, st: Store, inodes': seq<Inode>, st': Store, i: nat, p: nat,
                           r: nat)
    requires WellSized(l, inodes, st) && WellSized(l, inodes', st')
  {
    forall j, q :: 0 <= j < |inodes| && 0 <= q < NPOS ==>
      AddrAt(inodes'[j], st', q) == if j == i && q == p then r else AddrAt(inodes[j], st, q)
  }

  lemma AllocatedAddrs(l: Layout, inodes: seq<Inode>, st: Store, owner: map<nat, Place>, r: nat)
    requires Owned(l, inodes, st, owner) && DataStart(l) <= r < l.size - l.nlog && !Used(l, st, r)
    ensures r !in owner && WellSized(l, inodes, Allocated(l, st, r))
    ensures forall j, q :: 0 <= j < |inodes| && 0 <= q < NPOS ==>
              AddrAt(inodes[j], Allocated(l, st, r), q) == AddrAt(inodes[j], st, q)
    ensures forall b: nat :: b < l.size ==>
              (Used(l, Allocated(l, st, r), b) <==> b < DataStart(l) || b in owner || b == r)
  {
    hide BlockBit;
    hide SetBlockBit;
    hide AddrAt;
    assert forall b :: b in owner ==> OwnerOk(l, inodes, st, owner[b], b);
    AddrStable(l, inodes, st, owner, Allocated(l, st, r));
    MarkUsedBits(l, st, r);
    BitsStable(l, MarkUsed(l, st, r), Allocated(l, st, r));
  }

  /** Ownership after a block has been attached. */
  lemma AttachKeepsOwned(l: Layout, inodes: seq<Inode>, st: Store, owner: map<nat, Place>, i: nat, p: nat, r: nat,
                         inodes': seq<Inode>, st': Store)
    requires Owned(l, inodes, st, owner) && DataStart(l) <= r < l.size - l.nlog && r < U32 && r !in owner
    requires i < |inodes| && p < NPOS && AddrAt(inodes[i], st, p) == 0
    requires WellSized(l, inodes', st') && Attached(l, inodes, st, inodes', st', i, p, r)
    requires forall b: nat :: b < l.size ==> (Used(l, st', b) <==> b < DataStart(l) || b in owner || b == r)
    ensures Owned(l, inodes', st', owner[r := Place(i, p)])
  {
    hide AddrAt;
    var owner' := owner[r := Place(i, p)];
    forall j, q | 0 <= j < |inodes'| && 0 <= q < NPOS && AddrAt(inodes'[j], st', q) != 0
      ensures AddrAt(inodes'[j], st', q) in owner' && owner'[AddrAt(inodes'[j], st', q)] == Place(j, q)
    {
      assert AddrAt(inodes'[j], st', q) == if j == i && q == p then r else AddrAt(inodes[j], st, q);
    }
    forall b | b in owner'
      ensures OwnerOk(l, inodes', st', owner'[b], b)
    {
      if b != r {
        assert OwnerOk(l, inodes, st, owner[b], b);
        var w := owner[b];
        assert AddrAt(inodes'[w.inum], st', w.pos) == if w.inum == i && w.pos == p then r
               else AddrAt(inodes[w.inum], st, w.pos);
      }
    }
  }

  /** ip->addrs[p] = balloc(): a fresh indirect block counts as 128 empty entries because it is zeroed. */
  lemma AttachDirect(l: Layout, inodes: seq<Inode>, st: Store, owner: map<nat, Place>, i: nat, p: nat, r: nat,
                     inodes': seq<Inode>, st': Store)
    requires Owned(l, inodes, st, owner) && DataStart(l) <= r < l.size - l.nlog && r < U32 && !Used(l, st, r)
    requires i < |inodes| && p <= NDIRECT && inodes[i].addrs[p] == 0
    requires inodes' == inodes[i := inodes[i].(addrs := inodes[i].addrs[p := r])] && st' == Allocated(l, st, r)
    ensures r !in owner && Owned(l, inodes', st', owner[r := Place(i, p)])
    ensures Attached(l, inodes, st, inodes', st', i, p, r)
  {
    AllocatedAddrs(l, inodes, st, owner, r);
    assert st'[r] == Zero();
    hide Allocated;
    hide Used;
    forall j, q | 0 <= j < |inodes| && 0 <= q < NPOS
      ensures AddrAt(inodes'[j], st', q) == if j == i && q == p then r else AddrAt(inodes[j], st, q)
    {
      assert AddrAt(inodes[j], st', q) == AddrAt(inodes[j], st, q);
      if j == i && q > NDIRECT && p == NDIRECT {
        ZeroWords(q - NDIRECT - 1);
      }
    }
    hide AddrAt;
    AttachKeepsOwned(l, inodes, st, owner, i, p, r, inodes', st');
  }

  /** a[j] = balloc() in the indirect block of an inode. */
  lemma AttachIndirect(l: Layout, inodes: seq<Inode>, st: Store, owner: map<nat, Place>, i: nat, p: nat, r: nat,
                       x: nat, st1: Store, st': Store)
    requires Owned(l, inodes, st, owner) && DataStart(l) <= r < l.size - l.nlog && r < U32 && !Used(l, st, r)
    requires i < |inodes| && NDIRECT < p < NPOS && inodes[i].addrs[NDIRECT] != 0 && AddrAt(inodes[i], st, p) == 0
    requires x == inodes[i].addrs[NDIRECT] && st1 == Allocated(l, st, r)
    requires st' == st1[x := SetWord(st1[x], p - NDIRECT - 1, r)]
    ensures r !in owner && x != r && st1[x] == st[x] && Owned(l, inodes, st', owner[r := Place(i, p)])
    ensures Attached(l, inodes, st, inodes, st', i, p, r)
  {
    AllocatedAddrs(l, inodes, st, owner, r);
    assert AddrAt(inodes[i], st, NDIRECT) == x;
    assert OwnerOk(l, inodes, st, owner[x], x);
    assert BBlock(l, r) < DataStart(l);
    assert st1[x] == st[x];
    BitsStable(l, st1, st');
    hide Allocated;
    hide Used;
    hide SetWord;
    hide AddrAt;
    IndirectStore(l, inodes, st, owner, i, p, r, x, st1, st');
    AttachKeepsOwned(l, inodes, st, owner, i, p, r, inodes, st');
  }

  lemma IndirectStore(l: Layout, inodes: seq<Inode>, st: Store, owner: map<nat, Place>, i: nat, p: nat, r: nat,
                      x: nat, st1: Store, st': Store)
    requires Owned(l, inodes, st, owner) && WellSized(l, inodes, st1)
    requires forall j, q :: 0 <= j < |inodes| && 0 <= q < NPOS ==> AddrAt(inodes[j], st1, q) == AddrAt(inodes[j], st, q)
    requires i < |inodes| && NDIRECT < p < NPOS && x == inodes[i].addrs[NDIRECT] != 0 && r < U32
    requires st' == st1[x := SetWord(st1[x], p - NDIRECT - 1, r)]
    ensures WellSized(l, inodes, st') && Attached(l, inodes, st, inodes, st', i, p, r)
  {
    hide Used;
    hide GetWord;
    hide SetWord;
    forall j, q | 0 <= j < |inodes| && 0 <= q < NPOS
      ensures AddrAt(inodes[j], st', q) == if j == i && q == p then r else AddrAt(inodes[j], st, q)
    {
      assert AddrAt(inodes[j], st1, q) == AddrAt(inodes[j], st, q);
      assert AddrAt(inodes[i], st, NDIRECT) == x && owner[x] == Place(i, NDIRECT);
      var y := AddrAt(inodes[j], st, NDIRECT);
      assert y != 0 ==> y in owner && owner[y] == Place(j, NDIRECT);
      if j == i && q > NDIRECT {
        WordStore(st1[x], p - NDIRECT - 1, r, q - NDIRECT - 1);
      }
    }
  }
}
