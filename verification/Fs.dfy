/** fs.c: block allocation, block maps, file reads, writes and truncation, on the sectors as the
    log presents them (bread returns what was last logged, see Bcache.dfy and Log.dfy). */
module FsCode {
  import opened Blocks
  import opened Bitmap
  import opened FsState
  import opened FsFiles
  import opened FsAccount
  import opened FsWrites

  ghost function Capacity(l: Layout): (n: int) {
    l.size - l.nlog - DataStart(l)
  }

  lemma {:induction false} RangeCovered(keys: set<nat>, lo: nat, hi: nat)
    requires lo <= hi && forall b: nat :: lo <= b < hi ==> b in keys
    ensures |keys| >= hi - lo
    decreases hi - lo
  {
    if lo < hi {
      RangeCovered(keys - {hi - 1}, lo, hi - 1);
    }
  }

  /** Counting: if fewer data blocks are owned than exist, one is free. */
  lemma DataBlockFree(l: Layout, inodes: seq<Inode>, st: Store, owner: map<nat, Place>)
    requires Owned(l, inodes, st, owner) && |owner| < Capacity(l)
    ensures FreeBelow(l, st, l.size - l.nlog)
  {
    hide Used;
    if forall b: nat :: DataStart(l) <= b < l.size - l.nlog ==> b in owner.Keys {
      RangeCovered(owner.Keys, DataStart(l), l.size - l.nlog);
      assert false;
    }
    var b: nat :| DataStart(l) <= b < l.size - l.nlog && b !in owner.Keys;
    assert !Used(l, st, b);
  }

  lemma {:induction false} RangeBounds(keys: set<nat>, lo: nat, hi: nat)
    requires lo <= hi && forall b :: b in keys ==> lo <= b < hi
    ensures |keys| <= hi - lo
    decreases hi - lo
  {
    if lo < hi {
      RangeBounds(keys - {hi - 1}, lo, hi - 1);
    } else {
      assert keys == {};
    }
  }

  /** The bits of the log area are clear too: balloc stays below it exactly as long as fewer data blocks are owned than
      exist. */
  lemma BallocBelowLog(l: Layout, inodes: seq<Inode>, st: Store, owner: map<nat, Place>, r: nat)
    requires Owned(l, inodes, st, owner) && FirstFree(l, st, r)
    ensures r < l.size - l.nlog <==> |owner| < Capacity(l)
  {
    hide Used, AddrAt;
    FirstFreeIsData(l, inodes, st, owner, r);
    if |owner| < Capacity(l) {
      DataBlockFree(l, inodes, st, owner);
    }
    if r < l.size - l.nlog {
      forall b | b in owner.Keys + {r}
        ensures DataStart(l) <= b < l.size - l.nlog
      {
        assert b in owner ==> OwnerOk(l, inodes, st, owner[b], b);
      }
      RangeBounds(owner.Keys + {r}, DataStart(l), l.size - l.nlog);
    }
  }

  /** From one state to a later one nothing but inode i has grown: blocks stay where they were, and
      keep their contents unless they are i's indirect block. */
  ghost predicate Grown(l: Layout, inodes: seq<Inode>, st: Store, owner: map<nat, Place>,
                        inodes': seq<Inode>, st': Store, owner': map<nat, Place>, i: nat)
    requires Owned(l, inodes, st, owner) && Owned(l, inodes', st', owner')
  {
    && (forall j :: 0 <= j < |inodes| && j != i ==> inodes'[j] == inodes[j])
    && (i < |inodes| ==> inodes'[i] == inodes[i].(addrs := inodes'[i].addrs))
    && (forall b :: b in owner ==> b in owner' && owner'[b] == owner[b])
    && (forall b :: b in owner && b < |st| && owner[b] != Place(i, NDIRECT) ==> st'[b] == st[b])
    && (forall j, q :: 0 <= j < |inodes| && 0 <= q < NPOS && (j != i || AddrAt(inodes[j], st, q) != 0) ==>
          AddrAt(inodes'[j], st', q) == AddrAt(inodes[j], st, q))
  }

  /** Growing a file does not change its bytes, nor anything of other files. */
  lemma GrownBytes(l: Layout, inodes: seq<Inode>, st: Store, owner: map<nat, Place>,
                   inodes': seq<Inode>, st': Store, owner': map<nat, Place>, i: nat)
    requires Owned(l, inodes, st, owner) && Owned(l, inodes', st', owner') && i < |inodes|
    requires Grown(l, inodes, st, owner, inodes', st', owner', i)
    ensures OthersKept(inodes, st, owner, inodes', st', owner', i)
    ensures forall k :: 0 <= k < MAXBYTES && AddrAt(inodes[i], st, PosOf(k / BSIZE)) != 0 ==>
              ByteAt(inodes'[i], st', k) == ByteAt(inodes[i], st, k)
  {
    hide Used;
    hide AddrAt;
    forall k | 0 <= k < MAXBYTES && AddrAt(inodes[i], st, PosOf(k / BSIZE)) != 0
      ensures ByteAt(inodes'[i], st', k) == ByteAt(inodes[i], st, k)
    {
      var q := PosOf(k / BSIZE);
      var a := AddrAt(inodes[i], st, q);
      assert AddrAt(inodes'[i], st', q) == a;
      assert a in owner && owner[a] == Place(i, q);
      assert OwnerOk(l, inodes, st, owner[a], a);
    }
  }

  /** bmap followed by a store into the mapped block. */
  lemma WriteBlockEffect(l: Layout, inodes0: seq<Inode>, st0: Store, owner0: map<nat, Place>,
                         inodes: seq<Inode>, st: Store, owner: map<nat, Place>, i: nat, pos: nat, chunk: seq<Byte>,
                           a: nat)
    requires Owned(l, inodes0, st0, owner0) && Owned(l, inodes, st, owner) && i < |inodes|
    requires Grown(l, inodes0, st0, owner0, inodes, st, owner, i)
    requires pos < MAXBYTES && pos % BSIZE + |chunk| <= BSIZE
    requires AddrAt(inodes0[i], st0, PosOf(pos / BSIZE)) != 0 ==> st == st0 && inodes == inodes0
    requires OneMapped(inodes0[i], st0, inodes[i], st, pos / BSIZE)
    requires a == AddrAt(inodes[i], st, PosOf(pos / BSIZE)) != 0 && a < |st|
    ensures var st' := st[a := Patched(st[a], pos % BSIZE, chunk)];
            && WellSized(l, inodes, st') && Owned(l, inodes, st', owner)
            && OthersKept(inodes0, st0, owner0, inodes, st', owner, i)
            && AddrAt(inodes[i], st', PosOf(pos / BSIZE)) == a
            && BlockWritten(inodes0[i], st0, inodes[i], st', pos, chunk, st[a])
            && OneMapped(inodes0[i], st0, inodes[i], st', pos / BSIZE)
    ensures inodes[i] == inodes0[i].(addrs := inodes[i].addrs)
  {
    hide Used;
    hide Patched;
    hide GetWord;
    var data := Patched(st[a], pos % BSIZE, chunk);
    GrownBytes(l, inodes0, st0, owner0, inodes, st, owner, i);
    StoreBytes(l, inodes, st, owner, i, pos / BSIZE, a, data);
    OthersKeptTwice(inodes0, st0, owner0, inodes, st, owner, inodes, st[a := data], owner, i);
    hide AddrAt;
    hide OthersKept;
    hide Owned;
  }

  // ----- freeing -----

  /** Starting from a store st0 with ownership owner, the blocks in freed have had their bits cleared. */
  ghost predicate Freed(l: Layout, st0: Store, owner: map<nat, Place>, st: Store, freed: set<nat>) {
    && ValidLayout(l) && |st| == |st0| == l.size
    && (forall b :: DataStart(l) <= b < l.size ==> st[b] == st0[b])
    && (forall b: nat :: b < l.size ==> (Used(l, st, b) <==> b < DataStart(l) || (b in owner && b !in freed)))
    && (forall b :: b in freed ==> b in owner)
  }

  /** From st0 and bits0 to st and bits, the bitmap blocks of the freed blocks, and nothing else, have changed and been
      logged. */
  ghost predicate FreesLogged(l: Layout, st0: Store, bits0: set<nat>, st: Store, bits: set<nat>, freed: set<nat>) {
    Silent(st0, st, bits, {}) && bits == bits0 + BitBlocks(l, freed)
  }

  lemma NoneFreed(l: Layout, st: Store, bits: set<nat>)
    ensures FreesLogged(l, st, bits, st, bits, {})
  {
    assert BitBlocks(l, {}) == {};
  }

  /** The bit of an address that has not been freed is set, so it can be cleared. */
  lemma FreedMore(l: Layout, inodes: seq<Inode>, st0: Store, owner: map<nat, Place>, st: Store, freed: set<nat>,
                  i: nat, q: nat, b: nat)
    requires Owned(l, inodes, st0, owner) && Freed(l, st0, owner, st, freed)
    requires i < |inodes| && q < NPOS && b == AddrAt(inodes[i], st0, q) != 0 && b !in freed
    ensures ValidLayout(l) && |st| == l.size && b < l.size && Used(l, st, b) && b in owner && owner[b] == Place(i, q)
    ensures Freed(l, st0, owner, MarkFree(l, st, b), freed + {b})
  {
    hide AddrAt, BlockBit, ClearBlockBit, Used;
    assert OwnerOk(l, inodes, st0, owner[b], b);
    assert Used(l, st, b);
    MarkFreeBits(l, st, b);
    assert BBlock(l, b) < DataStart(l);
  }

  /** The blocks that belong to inode i. */
  ghost function Share(owner: map<nat, Place>, i: nat): (r: set<nat>) {
    set b | b in owner && owner[b].inum == i
  }

  /** Which block a place refers to, both ways. */
  lemma SlotOwner(l: Layout, inodes: seq<Inode>, st: Store, owner: map<nat, Place>, i: nat, q: nat)
    requires Owned(l, inodes, st, owner) && i < |inodes| && q < NPOS
    ensures forall b :: b in owner && owner[b] == Place(i, q) <==> b in owner && b == AddrAt(inodes[i], st, q) != 0
    ensures AddrAt(inodes[i], st, q) != 0 ==>
              AddrAt(inodes[i], st, q) in owner && DataStart(l) <= AddrAt(inodes[i], st, q) < l.size
  {
  }

  lemma NoIndirect(l: Layout, inodes: seq<Inode>, st: Store, owner: map<nat, Place>, i: nat)
    requires Owned(l, inodes, st, owner) && i < |inodes| && inodes[i].addrs[NDIRECT] == 0
    ensures forall b :: b in owner && owner[b].inum == i ==> owner[b].pos < NDIRECT
  {
  }

  lemma TruncOwned(l: Layout, inodes0: seq<Inode>, st0: Store, owner: map<nat, Place>,
                   inodes: seq<Inode>, st: Store, i: nat, freed: set<nat>)
    requires Owned(l, inodes0, st0, owner) && Freed(l, st0, owner, st, freed) && i < |inodes0|
    requires forall b :: b in freed <==> b in owner && owner[b].inum == i
    requires |inodes| == |inodes0| && inodes == inodes0[i := inodes[i]] && |inodes[i].addrs| == NDIRECT + 1
             && forall q :: 0 <= q <= NDIRECT ==> inodes[i].addrs[q] == 0
    requires inodes[i].typ == inodes0[i].typ && inodes[i].nlink == inodes0[i].nlink
    ensures Owned(l, inodes, st, owner - Share(owner, i))
    ensures forall q :: 0 <= q < NPOS ==> AddrAt(inodes[i], st, q) == 0
    ensures OthersKept(inodes0, st0, owner, inodes, st, owner - Share(owner, i), i)
  {
    hide Used;
    hide GetWord;
    var owner' := owner - Share(owner, i);
    assert forall b :: b in owner ==> OwnerOk(l, inodes0, st0, owner[b], b);
    assert WellSized(l, inodes, st);
    AddrStable(l, inodes0, st0, owner, st);
    forall j, q | 0 <= j < |inodes| && 0 <= q < NPOS
      ensures AddrAt(inodes[j], st, q) == if j == i then 0 else AddrAt(inodes0[j], st0, q)
    {
    }
    hide AddrAt;
    forall j, q | 0 <= j < |inodes| && 0 <= q < NPOS && AddrAt(inodes[j], st, q) != 0
      ensures AddrAt(inodes[j], st, q) in owner' && owner'[AddrAt(inodes[j], st, q)] == Place(j, q)
    {
      assert AddrAt(inodes[j], st, q) == AddrAt(inodes0[j], st0, q);
    }
    forall b | b in owner'
      ensures OwnerOk(l, inodes, st, owner'[b], b)
    {
      assert OwnerOk(l, inodes0, st0, owner[b], b);
    }
  }

  lemma KeptResized(inodes0: seq<Inode>, st0: Store, owner0: map<nat, Place>,
                    inodes: seq<Inode>, st: Store, owner: map<nat, Place>, i: nat, size: nat, inodes': seq<Inode>)
    requires OthersKept(inodes0, st0, owner0, inodes, st, owner, i) && i < |inodes|
    requires inodes' == inodes[i := inodes[i].(size := size)]
    ensures OthersKept(inodes0, st0, owner0, inodes', st, owner, i)
  {
  }

  lemma WroteResized(ino0: Inode, st0: Store, ino: Inode, ino': Inode, st: Store, off: nat, src: seq<Byte>)
    requires |ino0.addrs| == NDIRECT + 1 && ino0.addrs[NDIRECT] < |st0|
    requires |ino.addrs| == NDIRECT + 1 && ino.addrs[NDIRECT] < |st| && ino'.addrs == ino.addrs
    requires off <= ino0.size <= MAXBYTES && off + |src| <= MAXBYTES
    requires Wrote(ino0, st0, ino, st, ino0.size, off, src, |src|)
    requires forall q :: 0 <= q < NPOS ==> AddrAt(ino', st, q) == AddrAt(ino, st, q)
    requires forall k :: 0 <= k < MAXBYTES ==> ByteAt(ino', st, k) == ByteAt(ino, st, k)
    ensures Wrote(ino0, st0, ino', st, ino0.size, off, src, |src|)
  {
  }

  lemma GrownTwice(l: Layout, inodes: seq<Inode>, st: Store, owner: map<nat, Place>,
                   inodes1: seq<Inode>, st1: Store, owner1: map<nat, Place>,
                   inodes2: seq<Inode>, st2: Store, owner2: map<nat, Place>, i: nat)
    requires Owned(l, inodes, st, owner) && Owned(l, inodes1, st1, owner1) && Owned(l, inodes2, st2, owner2)
    requires Grown(l, inodes, st, owner, inodes1, st1, owner1, i)
    requires Grown(l, inodes1, st1, owner1, inodes2, st2, owner2, i)
    ensures Grown(l, inodes, st, owner, inodes2, st2, owner2, i)
  {
  }

  class Fs {
    const l: Layout
    var st: Store
    var inodes: seq<Inode>      // in-memory inodes
    var dinodes: seq<Inode>     // on-disk inodes
    ghost var owner: map<nat, Place>
    // sectors handed to log_write: bitmap blocks, data and indirect blocks, inode blocks
    ghost var bitmaps: set<nat>
    ghost var written: set<nat>
    ghost var iblocks: set<nat>

    constructor (layout: Layout, image: Store, table: seq<Inode>, ghost places: map<nat, Place>)
      requires layout.size <= U32 && Owned(layout, table, image, places)
      ensures l == layout && st == image && inodes == dinodes == table && owner == places && Valid()
      ensures bitmaps == {} && written == {} && iblocks == {}
    {
      l, st, inodes, dinodes, owner := layout, image, table, table, places;
      bitmaps, written, iblocks := {}, {}, {};
    }

    ghost predicate Valid()
      reads this
    {
      WellSized(l, inodes, st) && Owned(l, inodes, st, owner) && |dinodes| == |inodes| && l.size <= U32
    }

    /** balloc: the first free block, marked and zeroed. */
    method Balloc() returns (r: nat)
      requires |st| == l.size && ValidLayout(l) && FreeBelow(l, st, l.size)
      modifies this`st, this`bitmaps, this`written
      ensures FirstFree(l, old(st), r) && st == Allocated(l, old(st), r)
      ensures bitmaps == old(bitmaps) + {BBlock(l, r)} && written == old(written) + {r}
    {
      hide BlockBit;
      hide SetBlockBit;
      hide Zero;
      var b := 0;
      while b < l.size
        invariant b % BPB == 0
        invariant forall c: nat :: c < b && c < l.size ==> Used(l, st, c)
        decreases l.size - b
      {
        var bi := 0;
        while bi < BPB && b + bi < l.size
          invariant 0 <= bi <= BPB
          invariant forall c: nat :: c < b + bi && c < l.size ==> Used(l, st, c)
        {
          assert (b + bi) / BPB == b / BPB && (b + bi) % BPB == bi;
          if !BlockBit(st[BBlock(l, b)], bi) {
            r := b + bi;
            st := st[BBlock(l, b) := SetBlockBit(st[BBlock(l, b)], bi)];
            bitmaps := bitmaps + {BBlock(l, b)};
            st := st[r := Zero()];     // bzero
            written := written + {r};
            return;
          }
          bi := bi + 1;
        }
        b := b + BPB;
      }
      assert false;
    }

    /** bfree. The requirement is its panic "freeing free block". */
    method Bfree(b: nat)
      requires |st| == l.size && ValidLayout(l) && b < l.size && Used(l, st, b)
      modifies this`st, this`bitmaps
      ensures st == MarkFree(l, old(st), b) && bitmaps == old(bitmaps) + {BBlock(l, b)}
    {
      st := st[BBlock(l, b) := ClearBlockBit(st[BBlock(l, b)], b % BPB)];
      bitmaps := bitmaps + {BBlock(l, b)};
    }

    ghost function Snap(): (s: Snapshot)
      reads this
    {
      Snapshot(inodes, st, owner, bitmaps, written)
    }

    /** The blocks gained since an earlier state are the first free ones, and logged with their bitmap blocks. */
    ghost predicate BilledSince(st0: Store, owner0: map<nat, Place>, bitmaps0: set<nat>)
      reads this
    {
      Billed(l, st0, owner0, bitmaps0, st, owner, bitmaps)
    }

    /** ip->addrs[p] = balloc(ip->dev) for an empty address. */
    method AllocAddr(i: nat, p: nat) returns (r: nat)
      requires Valid() && i < |inodes| && p <= NDIRECT && inodes[i].addrs[p] == 0
      requires |owner| < Capacity(l)
      modifies this`st, this`inodes, this`owner, this`bitmaps, this`written
      ensures Valid() && r != 0 && r !in old(owner) && owner == old(owner)[r := Place(i, p)] && r < |st|
              && st[r] == Zero()
      ensures Attached(l, old(inodes), old(st), inodes, st, i, p, r)
      ensures Grown(l, old(inodes), old(st), old(owner), inodes, st, owner, i)
      ensures written == old(written) + {r} && BilledSince(old(st), old(owner), old(bitmaps))
      ensures Silent(old(st), st, bitmaps, written)
    {
      hide Used;
      hide Grown;
      hide Attached;
      hide MarkUsed;
      hide GetWord;
      hide Zero;
      hide Billed;
      DataBlockFree(l, inodes, st, owner);
      r := Balloc();
      FirstFreeIsData(l, inodes, old(st), owner, r);
      BilledOne(l, old(st), owner, old(bitmaps), r, Place(i, p));
      AllocatedSilent(l, old(st), r, bitmaps, written);
      assert |inodes[i].addrs| == NDIRECT + 1;
      inodes := inodes[i := inodes[i].(addrs := inodes[i].addrs[p := r])];
      AttachDirect(l, old(inodes), old(st), owner, i, p, r, inodes, st);
      owner := owner[r := Place(i, p)];
      assert AddrAt(old(inodes)[i], old(st), p) == 0;
      AllocGrown(l, old(inodes), old(st), old(owner), inodes, st, i, p, r);
    }

    /** a[bn] = balloc(ip->dev) in the indirect block of inode i, and log_write of that block. */
    method AllocEntry(i: nat, p: nat) returns (r: nat)
      requires Valid() && i < |inodes| && NDIRECT < p < NPOS && inodes[i].addrs[NDIRECT] != 0
      requires AddrAt(inodes[i], st, p) == 0
      requires |owner| < Capacity(l)
      modifies this`st, this`owner, this`bitmaps, this`written
      ensures Valid() && r != 0 && r !in old(owner) && owner == old(owner)[r := Place(i, p)] && r < |st|
              && st[r] == Zero()
      ensures Attached(l, old(inodes), old(st), inodes, st, i, p, r)
      ensures Grown(l, old(inodes), old(st), old(owner), inodes, st, owner, i)
      ensures written == old(written) + {r, inodes[i].addrs[NDIRECT]} && BilledSince(old(st), old(owner), old(bitmaps))
      ensures Silent(old(st), st, bitmaps, written)
    {
      hide Used, AddrAt, Grown, Attached, MarkUsed, GetWord, SetWord, Zero, Billed, Owned, BBlock;
      DataBlockFree(l, inodes, st, owner);
      var x := inodes[i].addrs[NDIRECT];
      assert AddrAt(inodes[i], st, NDIRECT) == x by { DirectAddr(inodes[i], st, NDIRECT); }
      PlaceOwned(l, inodes, st, owner, i, NDIRECT);
      r := Balloc();
      FirstFreeIsData(l, inodes, old(st), owner, r);
      BilledOne(l, old(st), owner, old(bitmaps), r, Place(i, p));
      AllocatedSilent(l, old(st), r, bitmaps, written);
      ghost var st1 := st;
      var data := SetWord(st[x], p - NDIRECT - 1, r);
      st := st[x := data];
      written := written + {x};
      AttachIndirect(l, inodes, old(st), owner, i, p, r, x, st1, st);
      owner := owner[r := Place(i, p)];
      BilledStore(l, old(st), old(owner), old(bitmaps), st1, owner, bitmaps, x, data);
      EntryGrown(l, inodes, old(st), old(owner), st1, st, i, p, r);
    }

    /** The part of bmap for blocks beyond the direct ones. */
    method BmapIndirect(i: nat, bn: nat) returns (addr: nat)
      requires Valid() && i < |inodes| && NDIRECT <= bn < MAXFILE
      requires AddrAt(inodes[i], st, bn + 1) != 0 || |owner| + AddedAt(inodes[i], st, bn) <= Capacity(l)
      modifies this`st, this`inodes, this`owner, this`bitmaps, this`written
      ensures Valid() && addr == AddrAt(inodes[i], st, bn + 1) && addr != 0
      ensures Grown(l, old(inodes), old(st), old(owner), inodes, st, owner, i)
      ensures old(AddrAt(inodes[i], st, bn + 1)) != 0 ==>
                st == old(st) && inodes == old(inodes) && owner == old(owner) && bitmaps == old(bitmaps)
                  && written == old(written)
      ensures old(AddrAt(inodes[i], st, bn + 1)) == 0 ==>
                addr < |st| && st[addr] == Zero() && written == old(written) + {addr, inodes[i].addrs[NDIRECT]}
      ensures OneMapped(old(inodes)[i], old(st), inodes[i], st, bn)
      ensures |owner| == |old(owner)| + old(AddedAt(inodes[i], st, bn))
              && BilledSince(old(st), old(owner), old(bitmaps))
      ensures Silent(old(st), st, bitmaps, written)
    {
      hide Used, GetWord, Zero, BBlock, Billed, Owned, DataStart, ValidLayout;
      if inodes[i].addrs[NDIRECT] == 0 {
        assert AddrAt(inodes[i], st, bn + 1) == 0;
        var x := AllocAddr(i, NDIRECT);
        assert AddrAt(inodes[i], st, bn + 1) == 0;
        assert AddrAt(inodes[i], st, NDIRECT) == x;
        ghost var inodes1, st1, owner1, bitmaps1, written1 := inodes, st, owner, bitmaps, written;
        addr := AllocEntry(i, bn + 1);
        GrownTwice(l, old(inodes), old(st), old(owner), inodes1, st1, owner1, inodes, st, owner, i);
        BilledTwice(l, old(st), old(owner), old(bitmaps), st1, owner1, bitmaps1, st, owner, bitmaps);
        BilledMore(l, st1, owner1, bitmaps1, st, owner, bitmaps);
        SilentTwice(old(st), st1, bitmaps1, written1, st, bitmaps, written);
        assert AddrAt(inodes[i], st, bn + 1) == addr;
        assert written == old(written) + {x} + {addr, x};
        return;
      }
      addr := AddrAt(inodes[i], st, bn + 1);
      if addr == 0 {
        addr := AllocEntry(i, bn + 1);
        assert AddrAt(inodes[i], st, NDIRECT) == old(AddrAt(inodes[i], st, NDIRECT));
      } else {
        BilledNone(l, st, owner, bitmaps, st);
      }
    }

    /** bmap: the address of block bn of inode i, allocating it, and the indirect block, if missing. */
    method Bmap(i: nat, bn: nat) returns (addr: nat)
      requires Valid() && i < |inodes| && bn < MAXFILE
      requires AddrAt(inodes[i], st, PosOf(bn)) != 0 || |owner| + AddedAt(inodes[i], st, bn) <= Capacity(l)
      modifies this`st, this`inodes, this`owner, this`bitmaps, this`written
      ensures Valid() && addr == AddrAt(inodes[i], st, PosOf(bn)) && addr != 0 && addr < |st|
      ensures Grown(l, old(inodes), old(st), old(owner), inodes, st, owner, i)
      ensures old(AddrAt(inodes[i], st, PosOf(bn))) != 0 ==>
                st == old(st) && inodes == old(inodes) && owner == old(owner) && bitmaps == old(bitmaps)
                  && written == old(written)
      ensures old(AddrAt(inodes[i], st, PosOf(bn))) == 0 ==>
                && st[addr] == Zero()
                && written == old(written) + {addr} + if bn >= NDIRECT then {inodes[i].addrs[NDIRECT]} else {}
      ensures OneMapped(old(inodes)[i], old(st), inodes[i], st, bn)
      ensures |owner| == |old(owner)| + old(AddedAt(inodes[i], st, bn))
              && BilledSince(old(st), old(owner), old(bitmaps))
      ensures Silent(old(st), st, bitmaps, written)
    {
      hide Used;
      hide GetWord;
      hide Zero;
      hide BBlock;
      hide Billed;
      if bn < NDIRECT {
        addr := inodes[i].addrs[bn];
        if addr == 0 {
          hide Owned;
          addr := AllocAddr(i, bn);
          assert AddrAt(inodes[i], st, NDIRECT) == old(AddrAt(inodes[i], st, NDIRECT));
        } else {
          BilledNone(l, st, owner, bitmaps, st);
        }
        return;
      }
      addr := BmapIndirect(i, bn);
    }

    /** One round of writei's loop: chunk goes into the block that holds byte pos of the file. */
    method WriteBlock(i: nat, pos: nat, chunk: seq<Byte>) returns (ghost before: Block)
      requires Valid() && i < |inodes| && pos < MAXBYTES && pos % BSIZE + |chunk| <= BSIZE
      requires |owner| + AddedAt(inodes[i], st, pos / BSIZE) <= Capacity(l)
      modifies this`st, this`inodes, this`owner, this`bitmaps, this`written
      ensures Valid() && OthersKept(old(inodes), old(st), old(owner), inodes, st, owner, i)
      ensures inodes[i] == old(inodes[i]).(addrs := inodes[i].addrs)
      ensures BlockWritten(old(inodes)[i], old(st), inodes[i], st, pos, chunk, before)
      ensures old(AddrAt(inodes[i], st, PosOf(pos / BSIZE))) != 0 ==> inodes == old(inodes)
      ensures RoundPaid(l, i, pos / BSIZE, old(Snap()), Snap())
    {
      hide Used;
      hide OneMapped;
      hide AddrAt;
      hide AddedAt;
      hide Patched;
      hide Zero;
      hide BlockWritten;
      hide OthersKept;
      hide Grown;
      hide Owned;
      hide Billed;
      hide DataStart;
      hide ValidLayout;
      var addr := Bmap(i, pos / BSIZE);
      before := st[addr];
      ghost var st1 := st;
      var data := Patched(st[addr], pos % BSIZE, chunk);
      PlaceOwned(l, inodes, st, owner, i, PosOf(pos / BSIZE));
      WriteBlockEffect(l, old(inodes), old(st), old(owner), inodes, st, owner, i, pos, chunk, addr);
      BilledStore(l, old(st), old(owner), old(bitmaps), st, owner, bitmaps, addr, data);
      st := st[addr := data];
      written := written + {addr};
    }

    /** iupdate. */
    method Iupdate(i: nat)
      requires |dinodes| == |inodes| && i < |inodes|
      modifies this`dinodes, this`iblocks
      ensures dinodes == old(dinodes)[i := inodes[i]] && iblocks == old(iblocks) + {IBlock(i)}
    {
      dinodes := dinodes[i := inodes[i]];
      iblocks := iblocks + {IBlock(i)};
    }

    /** The state midway through the loop of writei, which began in state s. */
    ghost predicate Writing(i: nat, src: seq<Byte>, off: nat, tot: nat, s: Snapshot)
      reads this
    {
      && Valid() && i < |inodes| == |s.inodes|
      && |s.inodes[i].addrs| == NDIRECT + 1 && s.inodes[i].addrs[NDIRECT] < |s.st|
      && off <= s.inodes[i].size <= MAXBYTES && off + |src| <= MAXBYTES && tot <= |src|
      && Aligned(off, tot, |src|)
      && OthersKept(s.inodes, s.st, s.owner, inodes, st, owner, i)
      && inodes[i] == s.inodes[i].(addrs := inodes[i].addrs)
      && Wrote(s.inodes[i], s.st, inodes[i], st, s.inodes[i].size, off, src, tot)
      && (off + tot <= s.inodes[i].size ==> inodes == s.inodes)
    }

    /** One round of the loop of writei. */
    method WriteRound(i: nat, src: seq<Byte>, off: nat, tot: nat, ghost s: Snapshot) returns (m: nat)
      requires Writing(i, src, off, tot, s) && WritePaid(l, i, off, tot, s, Snap()) && tot < |src|
      requires |s.owner| + Added(s.inodes[i].size, Max(s.inodes[i].size, off + |src|)) <= Capacity(l)
      modifies this`st, this`inodes, this`owner, this`bitmaps, this`written
      ensures 0 < m <= |src| - tot && Writing(i, src, off, tot + m, s) && WritePaid(l, i, off, tot + m, s, Snap())
    {
      hide Used, AddrAt, AddedAt, Owned, OthersKept, BlockWritten, Patched, Wrote, BackedTo, Touched, Piece, Aligned,
           Added, Capacity, ValidLayout, RoundPaid, WritePaid;
      ghost var size, t := s.inodes[i].size, Snap();
      WroteBacked(s.inodes[i], s.st, inodes[i], st, size, off, src, tot);
      var pos := off + tot;
      m := Piece(pos, |src| - tot);
      RoundTouches(off, tot, m, |src|);
      RoundRoom(l, i, off, tot, s, t, m, |src|);
      ghost var before := WriteBlock(i, pos, src[tot..tot + m]);
      WroteStep(s.inodes[i], s.st, t.inodes[i], t.st, inodes[i], st, size, off, src, tot, m, before);
      OthersKeptTwice(s.inodes, s.st, s.owner, t.inodes, t.st, t.owner, inodes, st, owner, i);
      WritePaidStep(l, i, off, tot, s, t, Snap(), m, |src|);
    }

    /** The loop of writei. */
    method WriteBytes(i: nat, src: seq<Byte>, off: nat)
      requires Valid() && i < |inodes| && Tidy(inodes[i], st) && !Refused(inodes[i].size, off, |src|)
      requires |owner| + Added(inodes[i].size, Max(inodes[i].size, off + |src|)) <= Capacity(l)
      modifies this`st, this`inodes, this`owner, this`bitmaps, this`written
      ensures Writing(i, src, off, |src|, old(Snap())) && WritePaid(l, i, off, |src|, old(Snap()), Snap())
    {
      hide Writing, WritePaid, Valid, Capacity, Tidy, Added, Refused;
      var tot := 0;
      WritingStart(i, src, off);
      while tot < |src|
        invariant 0 <= tot <= |src| && Writing(i, src, off, tot, old(Snap()))
                  && WritePaid(l, i, off, tot, old(Snap()), Snap())
      {
        var m := WriteRound(i, src, off, tot, old(Snap()));
        tot := tot + m;
      }
    }

    lemma WritingStart(i: nat, src: seq<Byte>, off: nat)
      requires Valid() && i < |inodes| && Tidy(inodes[i], st) && !Refused(inodes[i].size, off, |src|)
      ensures Writing(i, src, off, 0, Snap()) && WritePaid(l, i, off, 0, Snap(), Snap())
    {
      hide Used, AddrAt, Owned, Billed;
      KeptSelf(inodes, st, owner, i);
      BilledNone(l, st, owner, bitmaps, st);
    }

    /** writei of src at off; -1 is its error return. Of the disk it demands room for the blocks it will add. */
    method Writei(i: nat, src: seq<Byte>, off: Word) returns (r: int)
      requires Valid() && i < |inodes| && |src| < U32 && Tidy(inodes[i], st)
      requires Refused(inodes[i].size, off, |src|) ||
               |owner| + Added(inodes[i].size, Max(inodes[i].size, off + |src|)) <= Capacity(l)
      modifies this
      ensures Valid() && OthersKept(old(inodes), old(st), old(owner), inodes, st, owner, i)
      ensures r == (if Refused(old(inodes)[i].size, off, |src|) then -1 else |src|)
      ensures r == -1 <==>
                off > old(inodes)[i].size || off + |src| >= U32 || off + |src| > (NDIRECT + NINDIRECT) * BSIZE
      ensures r == -1 ==> st == old(st) && inodes == old(inodes) && dinodes == old(dinodes) && owner == old(owner)
      ensures r == -1 ==> bitmaps == old(bitmaps) && written == old(written) && iblocks == old(iblocks)
      ensures Tidy(inodes[i], st)
      ensures r != -1 ==> inodes[i].size == Max(old(inodes)[i].size, off + |src|)
      ensures r != -1 ==> Content(inodes[i], st) == Splice(old(Content(inodes[i], st)), off, src)
      ensures old(dinodes)[i] == old(inodes)[i] ==> dinodes == old(dinodes)[i := inodes[i]]
      ensures r != -1 ==> WritePaid(l, i, off, |src|, old(Snap()), Snap())
      ensures dinodes == old(dinodes) || (IBlock(i) in iblocks && dinodes == old(dinodes)[i := inodes[i]])
      ensures r != -1 ==> iblocks == old(iblocks) + if off + |src| > old(inodes)[i].size then {IBlock(i)} else {}
    {
      hide Used, Owned, AddrAt, Content, Splice, WritePaid;
      if off > inodes[i].size || off + |src| >= U32 || off + |src| > MAXBYTES {
        KeptSelf(inodes, st, owner, i);
        return -1;
      }
      assert inodes[i].size <= MAXBYTES;
      hide BackedTo, TrimTo;
      WriteBytes(i, src, off);
      PaidTrimmed(l, i, off, |src|, old(Snap()), Snap());
      hide OthersKept;
      if |src| > 0 && off + |src| > inodes[i].size {
        ghost var inodes1, t := inodes, Snap();
        inodes := inodes[i := inodes[i].(size := off + |src|)];
        Iupdate(i);
        Resize(l, inodes1, st, owner, i, off + |src|, inodes);
        KeptResized(old(inodes), old(st), old(owner), inodes1, st, owner, i, off + |src|, inodes);
        WroteResized(old(inodes)[i], old(st), inodes1[i], inodes[i], st, off, src);
        SameAddrs(inodes1[i], inodes[i], st);
        WriteResized(l, i, off, |src|, old(Snap()), t, Snap());
      }
      hide Wrote;
      WroteAll(old(inodes)[i], old(st), inodes[i], st, off, src);
      r := |src|;
    }

    /** One chunk of filewrite: begin_op, writei, end_op. tx is the set of sectors it logs. */
    method WriteChunk(i: nat, src: seq<Byte>, off: Word) returns (w: int, ghost tx: set<nat>)
      requires Valid() && i < |inodes| && |src| <= CHUNK && Tidy(inodes[i], st)
      requires Refused(inodes[i].size, off, |src|) ||
               |owner| + Added(inodes[i].size, Max(inodes[i].size, off + |src|)) <= Capacity(l)
      modifies this
      ensures Valid() && OthersKept(old(inodes), old(st), old(owner), inodes, st, owner, i)
      ensures w == (if Refused(old(inodes)[i].size, off, |src|) then -1 else |src|)
      ensures w == -1 ==>
                inodes == old(inodes) && st == old(st) && dinodes == old(dinodes) && owner == old(owner) && tx == {}
      ensures Tidy(inodes[i], st)
      ensures w != -1 ==> Content(inodes[i], st) == Splice(old(Content(inodes[i], st)), off, src)
      ensures old(dinodes)[i] == old(inodes)[i] ==> dinodes == old(dinodes)[i := inodes[i]]
      ensures tx == Logged(bitmaps, written, iblocks) && |tx| <= LOGSIZE && Silent(old(st), st, bitmaps, written)
      ensures dinodes == old(dinodes) || (IBlock(i) in iblocks && dinodes == old(dinodes)[i := inodes[i]])
      ensures w == CHUNK ==> |tx| > MAXOPBLOCKS
      ensures forall b :: b in tx ==> b < l.size - l.nlog
      ensures w != -1 ==>
                && inodes[i].size == Max(old(inodes)[i].size, off + |src|)
                && var size, k := old(inodes)[i].size, Added(old(inodes)[i].size, inodes[i].size);
                && 0 <= k == |owner| - |old(owner)|
                && |tx| == TxSize(size, off, |src|, NewBits(l, old(st), k))
                && (l.size <= BPB ==> (|tx| <= MAXOPBLOCKS <==> Touched(off, |src|) <= MostTouched(size, off + |src|)))
    {
      hide Owned, ValidLayout, OthersKept, Content, Splice, Tidy, Added, Capacity, WritePaid, TxSize, NewBits,
           Touched, MostTouched, Refused, BackedTo, TrimTo, IBlock, Logged;
      RefusedOff(inodes[i].size, off, |src|);
      BeginOp();
      ghost var s := Snap();
      w := Writei(i, src, off);
      tx := Logged(bitmaps, written, iblocks);
      if w != -1 {
        PaidSilent(l, i, off, |src|, s, Snap());
        ChunkPaid(l, i, off, |src|, s, Snap(), iblocks);
      } else {
        LoggedNone();
      }
    }

    /** begin_op as far as the record of logged sectors goes: a new transaction has none. */
    ghost method BeginOp()
      requires Valid()
      modifies this`bitmaps, this`written, this`iblocks
      ensures Valid() && bitmaps == {} && written == {} && iblocks == {}
    {
      bitmaps, written, iblocks := {}, {}, {};
    }

    /** One round of the loop of filewrite, with the next chunk of data, src. */
    method NextChunk(i: nat, src: seq<Byte>, off: Word, done: nat, ghost data: seq<Byte>, ghost s: Snapshot,
                     ghost d: seq<Inode>)
      returns (w: int, ghost tx: set<nat>)
      requires Valid() && i < |inodes| == |s.inodes| && |data| < 0x8000_0000
      requires IsChunk(src, data, done) && Filling(i, data, off, done, s, d, Snap(), dinodes)
      requires var size := s.inodes[i].size;
               |s.owner| + Added(size, EndOf(size, off, Writable(size, off, |data|))) <= Capacity(l)
      modifies this
      ensures Valid() && w == (if Refused(old(inodes)[i].size, off + done, |src|) then -1 else |src|) && |tx| <= LOGSIZE
      ensures Filling(i, data, off, done + (if w == -1 then 0 else w), s, d, Snap(), dinodes)
      ensures w == -1 ==> done == Writable(s.inodes[i].size, off, |data|)
      ensures w != -1 && done + w < |data| ==> |tx| > MAXOPBLOCKS
    {
      hide Touched, Used, Owned, ValidLayout, AddrAt, Content, SpliceSome, Splice, OthersKept, Tidy, Capacity, Added,
           NewBits, Writable, EndOf, Chunked, TxSize, Filling, MostTouched, BlocksTo, Refused, IsChunk, Logged;
      ghost var t, dt := Snap(), dinodes;
      ChunkLength(src, data, done);
      FillingRoom(i, data, off, done, src, s, d, t, dt, Capacity(l));
      w, tx := WriteChunk(i, src, off + done);
      if w == -1 {
        FillingStays(i, data, off, done, s, d, t, dt, Snap());
      } else {
        FillingNext(i, data, off, done, src, s, d, t, dt, Snap(), dinodes);
      }
    }

    /** The chunk loop of filewrite for an inode. Every chunk is a transaction of at most LOGSIZE
        sectors; done counts the bytes that reached the file. */
    method Filewrite(i: nat, data: seq<Byte>, off: Word)
      returns (r: int, off': nat, done: nat, ghost txs: seq<set<nat>>)
      requires Valid() && i < |inodes| && Tidy(inodes[i], st)
      requires |data| < 0x8000_0000
      requires var size := inodes[i].size;
               |owner| + Added(size, EndOf(size, off, Writable(size, off, |data|))) <= Capacity(l)
      modifies this
      ensures Valid() && OthersKept(old(inodes), old(st), old(owner), inodes, st, owner, i)
      ensures Tidy(inodes[i], st)
      ensures done == Writable(old(inodes)[i].size, off, |data|) <= |data| && off' == off + done
      ensures r == (if done == |data| then |data| else -1)
      ensures Content(inodes[i], st) == SpliceSome(old(Content(inodes[i], st)), off, data[..done])
      ensures |owner| == |old(owner)| + Added(old(inodes)[i].size, inodes[i].size)
      ensures old(dinodes)[i] == old(inodes)[i] ==> dinodes == old(dinodes)[i := inodes[i]]
      ensures forall t :: 0 <= t < |txs| ==> |txs[t]| <= LOGSIZE
      ensures forall t :: 0 <= t < |txs| - 1 ==> |txs[t]| > MAXOPBLOCKS
    {
      hide Owned, ValidLayout, Content, SpliceSome, OthersKept, Tidy, Capacity, Added, Writable;
      ghost var s, d := Snap(), dinodes;
      FillingStart(i, data, off, s, d);
      off', done, txs := off, 0, [];
      while done < |data|
        invariant off' == off + done && Valid() && Filling(i, data, off, done, s, d, Snap(), dinodes)
        invariant forall t :: 0 <= t < |txs| ==> |txs[t]| <= LOGSIZE
        invariant forall t :: 0 <= t < |txs| && (t < |txs| - 1 || done < |data|) ==> |txs[t]| > MAXOPBLOCKS
      {
        var n1 := if |data| - done > CHUNK then CHUNK else |data| - done;
        var w, tx := NextChunk(i, data[done..done + n1], off, done, data, s, d);
        if w < 0 {
          break;
        }
        txs := txs + [tx];
        off' := off' + w;
        done := done + w;
      }
      if done == |data| {
        AllWritable(s.inodes[i].size, off, |data|);
      }
      r := if done == |data| then |data| else -1;
    }

    /** bfree of an address of inode i that has not been freed yet: its panic is unreachable. */
    method FreeAddr(b: nat, i: nat, q: nat, ghost inodes0: seq<Inode>, ghost st0: Store, ghost freed: set<nat>,
                    ghost bitmaps0: set<nat>)
      requires Owned(l, inodes0, st0, owner) && Freed(l, st0, owner, st, freed)
      requires i < |inodes0| && q < NPOS && b == AddrAt(inodes0[i], st0, q) != 0 && b !in freed
      modifies this`st, this`bitmaps
      ensures Freed(l, st0, owner, st, freed + {b}) && b in owner && owner[b] == Place(i, q)
      ensures FreesLogged(l, st0, bitmaps0, old(st), old(bitmaps), freed) ==>
                FreesLogged(l, st0, bitmaps0, st, bitmaps, freed + {b})
    {
      hide AddrAt, Used, Owned, Freed, BitBlocks;
      FreedMore(l, inodes0, st0, owner, st, freed, i, q, b);
      assert BitBlocks(l, freed + {b}) == BitBlocks(l, freed) + {BBlock(l, b)} by { BitBlocksNext(l, freed, b); }
      Bfree(b);
    }

    /** itrunc: exactly the blocks of inode i become free. */
    method Itrunc(i: nat)
      requires Valid() && i < |inodes|
      modifies this`st, this`inodes, this`dinodes, this`owner, this`bitmaps, this`iblocks
      ensures Valid() && owner == old(owner) - Share(old(owner), i)
      ensures inodes == old(inodes)[i := inodes[i]] && dinodes == old(dinodes)[i := inodes[i]]
      ensures inodes[i].size == 0 && Tidy(inodes[i], st) && forall q :: 0 <= q < NPOS ==> AddrAt(inodes[i], st, q) == 0
      ensures OthersKept(old(inodes), old(st), old(owner), inodes, st, owner, i)
      ensures Silent(old(st), st, bitmaps, {}) && bitmaps == old(bitmaps) + BitBlocks(l, Share(old(owner), i))
      ensures iblocks == old(iblocks) + {IBlock(i)}
    {
      hide Used;
      hide GetWord;
      ghost var inodes0, st0 := inodes, st;
      ghost var freed := TruncDirect(i, inodes0, st0);
      freed := TruncIndirect(i, inodes0, st0, freed, old(bitmaps));
      assert freed == Share(old(owner), i);
      inodes := inodes[i := inodes[i].(size := 0)];
      owner := owner - Share(owner, i);
      TruncOwned(l, inodes0, st0, old(owner), inodes, st, i, freed);
      hide Owned;
      Iupdate(i);
    }

    /** The first loop of itrunc. */
    method TruncDirect(i: nat, ghost inodes0: seq<Inode>, ghost st0: Store) returns (ghost freed: set<nat>)
      requires Valid() && i < |inodes| && inodes0 == inodes && st0 == st
      modifies this`st, this`inodes, this`bitmaps
      ensures Owned(l, inodes0, st0, owner) && Freed(l, st0, owner, st, freed)
      ensures |inodes| == |inodes0| && inodes == inodes0[i := inodes0[i].(addrs := inodes[i].addrs)]
              && |inodes[i].addrs| == NDIRECT + 1
      ensures forall q :: 0 <= q < NDIRECT ==> inodes[i].addrs[q] == 0
      ensures inodes[i].addrs[NDIRECT] == inodes0[i].addrs[NDIRECT]
      ensures forall b :: b in freed <==> b in owner && owner[b].inum == i && owner[b].pos < NDIRECT
      ensures FreesLogged(l, st0, old(bitmaps), st, bitmaps, freed)
    {
      hide Used;
      hide GetWord, FreesLogged;
      freed := {};
      NoneFreed(l, st, bitmaps);
      assert Freed(l, st0, owner, st, {});
      var k := 0;
      while k < NDIRECT
        invariant 0 <= k <= NDIRECT
        invariant Freed(l, st0, owner, st, freed)
        invariant |inodes| == |inodes0| && inodes == inodes0[i := inodes0[i].(addrs := inodes[i].addrs)]
                  && |inodes[i].addrs| == NDIRECT + 1
        invariant forall q :: 0 <= q < k ==> inodes[i].addrs[q] == 0
        invariant forall q :: k <= q <= NDIRECT ==> inodes[i].addrs[q] == inodes0[i].addrs[q]
        invariant forall b :: b in freed <==> b in owner && owner[b].inum == i && owner[b].pos < k
        invariant FreesLogged(l, st0, old(bitmaps), st, bitmaps, freed)
      {
        SlotOwner(l, inodes0, st0, owner, i, k);
        if inodes[i].addrs[k] != 0 {
          var b := inodes[i].addrs[k];
          FreeAddr(b, i, k, inodes0, st0, freed, old(bitmaps));
          freed := freed + {b};
          inodes := inodes[i := inodes[i].(addrs := inodes[i].addrs[k := 0])];
        }
        k := k + 1;
      }
    }

    /** The rest of itrunc: the entries of the indirect block, then the block itself. */
    method TruncIndirect(i: nat, ghost inodes0: seq<Inode>, ghost st0: Store, ghost freed0: set<nat>,
                         ghost bitmaps0: set<nat>)
      returns (ghost freed: set<nat>)
      requires Owned(l, inodes0, st0, owner) && Freed(l, st0, owner, st, freed0) && i < |inodes0|
      requires |inodes| == |inodes0| && inodes == inodes0[i := inodes0[i].(addrs := inodes[i].addrs)]
               && |inodes[i].addrs| == NDIRECT + 1
      requires inodes[i].addrs[NDIRECT] == inodes0[i].addrs[NDIRECT]
      requires forall b :: b in freed0 <==> b in owner && owner[b].inum == i && owner[b].pos < NDIRECT
      requires FreesLogged(l, st0, bitmaps0, st, bitmaps, freed0)
      modifies this`st, this`inodes, this`bitmaps
      ensures Freed(l, st0, owner, st, freed)
      ensures inodes == old(inodes)[i := old(inodes)[i].(addrs := old(inodes)[i].addrs[NDIRECT := 0])]
      ensures forall b :: b in freed <==> b in owner && owner[b].inum == i
      ensures FreesLogged(l, st0, bitmaps0, st, bitmaps, freed)
    {
      hide Used;
      hide GetWord, FreesLogged;
      freed := freed0;
      var x := inodes[i].addrs[NDIRECT];
      SlotOwner(l, inodes0, st0, owner, i, NDIRECT);
      if x == 0 {
        NoIndirect(l, inodes0, st0, owner, i);
        assert inodes[i].addrs[NDIRECT := 0] == inodes[i].addrs;
        return;
      }
      var j := 0;
      while j < NINDIRECT
        invariant 0 <= j <= NINDIRECT
        invariant Freed(l, st0, owner, st, freed) && inodes == old(inodes)
        invariant forall b :: b in freed <==>
                    b in owner && owner[b].inum == i
                    && (owner[b].pos < NDIRECT || NDIRECT < owner[b].pos < NDIRECT + 1 + j)
        invariant FreesLogged(l, st0, bitmaps0, st, bitmaps, freed)
      {
        var b := GetWord(st[x], j);
        SlotOwner(l, inodes0, st0, owner, i, NDIRECT + 1 + j);
        assert b == AddrAt(inodes0[i], st0, NDIRECT + 1 + j);
        if b != 0 {
          FreeAddr(b, i, NDIRECT + 1 + j, inodes0, st0, freed, bitmaps0);
          freed := freed + {b};
        }
        j := j + 1;
      }
      FreeAddr(x, i, NDIRECT, inodes0, st0, freed, bitmaps0);
      freed := freed + {x};
      inodes := inodes[i := inodes[i].(addrs := inodes[i].addrs[NDIRECT := 0])];
      assert forall b :: b in owner ==> OwnerOk(l, inodes0, st0, owner[b], b);
    }

    /** bmap of a block that exists: nothing changes. */
    method Mapped(i: nat, bn: nat) returns (addr: nat)
      requires Valid() && i < |inodes| && bn < MAXFILE && AddrAt(inodes[i], st, PosOf(bn)) != 0
      modifies this`st, this`inodes, this`owner, this`bitmaps, this`written
      ensures st == old(st) && inodes == old(inodes) && owner == old(owner) && bitmaps == old(bitmaps)
              && written == old(written)
      ensures addr == AddrAt(inodes[i], st, PosOf(bn)) && addr < |st|
    {
      addr := Bmap(i, bn);
    }

    /** readi of n bytes at off; -1 is its error return. */
    method Readi(i: nat, off: Word, n: Word) returns (r: int, dst: seq<Byte>)
      requires Valid() && i < |inodes| && BackedTo(inodes[i], st, inodes[i].size)
      modifies this`st, this`inodes, this`owner, this`bitmaps, this`written
      ensures st == old(st) && inodes == old(inodes) && owner == old(owner) && bitmaps == old(bitmaps)
              && written == old(written)
      ensures r == -1 <==> off > inodes[i].size || off + n >= U32
      ensures r == -1 ==> dst == []
      ensures r != -1 ==>
                && r == (if off + n > inodes[i].size then inodes[i].size - off else n)
                && dst == Content(inodes[i], st)[off..off + r]
    {
      hide Used;
      hide AddrAt;
      hide Owned;
      hide Content;
      assert inodes[i].size <= MAXBYTES;
      hide BackedTo;
      if off > inodes[i].size || off + n >= U32 {
        return -1, [];
      }
      r := n;
      if off + n > inodes[i].size {
        r := inodes[i].size - off;
      }
      dst := [];
      ghost var c := Content(inodes[i], st);
      var tot := 0;
      while tot < r
        invariant 0 <= tot <= r
        invariant st == old(st) && inodes == old(inodes) && owner == old(owner) && bitmaps == old(bitmaps)
                  && written == old(written)
        invariant dst == c[off..off + tot]
      {
        var bn, o := (off + tot) / BSIZE, (off + tot) % BSIZE;
        BackedByte(inodes[i], st, inodes[i].size, off + tot);
        var addr := Mapped(i, bn);
        var m := if r - tot < BSIZE - o then r - tot else BSIZE - o;
        ChunkOf(inodes[i], st, off, off + tot, m);
        dst := dst + st[addr][o..o + m];
        tot := tot + m;
      }
    }

    /** What readi reads, anywhere in the file, after a writei: the bytes stored where they were stored, and the ones
        that were there before everywhere else. */
    method WriteThenRead(i: nat, src: seq<Byte>, off: Word, at: Word, n: Word) returns (w: int, r: int, dst: seq<Byte>)
      requires Valid() && i < |inodes| && |src| < U32 && Tidy(inodes[i], st)
      requires Refused(inodes[i].size, off, |src|) ||
               |owner| + Added(inodes[i].size, Max(inodes[i].size, off + |src|)) <= Capacity(l)
      modifies this
      ensures w == -1 || w == |src|
      ensures var size := if w == -1 then old(inodes)[i].size else Max(old(inodes)[i].size, off + |src|);
              r == if at > size || at + n >= U32 then -1 else if at + n > size then size - at else n
      ensures r != -1 ==> |dst| == r
      ensures forall k :: 0 <= k < |dst| ==>
                if w == |src| && off <= at + k < off + |src| then dst[k] == src[at + k - off]
                else at + k < old(inodes)[i].size && dst[k] == old(Content(inodes[i], st))[at + k]
    {
      hide Owned, AddrAt, Content, Splice, WritePaid, OthersKept, Refused;
      ghost var c := Content(inodes[i], st);
      w := Writei(i, src, off);
      r, dst := Readi(i, at, n);
      forall k | 0 <= k < |dst|
        ensures if w == |src| && off <= at + k < off + |src| then dst[k] == src[at + k - off]
                else at + k < |c| && dst[k] == c[at + k]
      {
        assert dst[k] == Content(inodes[i], st)[at + k];
        if w != -1 {
          SpliceAt(c, off, src, at + k);
        }
      }
    }
  }

  lemma AllocGrown(l: Layout, inodes: seq<Inode>, st: Store, owner: map<nat, Place>,
                   inodes': seq<Inode>, st': Store, i: nat, p: nat, r: nat)
    requires Owned(l, inodes, st, owner) && r !in owner && Owned(l, inodes', st', owner[r := Place(i, p)])
    requires i < |inodes| && p <= NDIRECT && r < l.size && r < U32 && !Used(l, st, r) && st' == Allocated(l, st, r)
    requires AddrAt(inodes[i], st, p) == 0
    requires inodes' == inodes[i := inodes[i].(addrs := inodes[i].addrs[p := r])]
    requires Attached(l, inodes, st, inodes', st', i, p, r)
    ensures Grown(l, inodes, st, owner, inodes', st', owner[r := Place(i, p)], i)
  {
    hide AddrAt;
    hide Used;
    assert forall b :: b in owner ==> OwnerOk(l, inodes, st, owner[b], b);
    assert BBlock(l, r) < DataStart(l);
  }

  lemma EntryGrown(l: Layout, inodes: seq<Inode>, st: Store, owner: map<nat, Place>, st1: Store, st': Store, i: nat,
                   p: nat, r: nat)
    requires Owned(l, inodes, st, owner) && r !in owner && Owned(l, inodes, st', owner[r := Place(i, p)])
    requires i < |inodes| && NDIRECT < p < NPOS && r < l.size && r < U32 && !Used(l, st, r)
             && st1 == Allocated(l, st, r)
    requires AddrAt(inodes[i], st, p) == 0 && inodes[i].addrs[NDIRECT] != 0
    requires st' == st1[inodes[i].addrs[NDIRECT] := st'[inodes[i].addrs[NDIRECT]]]
    requires Attached(l, inodes, st, inodes, st', i, p, r)
    ensures Grown(l, inodes, st, owner, inodes, st', owner[r := Place(i, p)], i)
  {
    var x := inodes[i].addrs[NDIRECT];
    assert AddrAt(inodes[i], st, NDIRECT) == x;
    assert owner[x] == Place(i, NDIRECT);
    assert BBlock(l, r) < DataStart(l);
    hide AddrAt;
    hide Used;
    hide MarkUsed;
    forall b | b in owner && b < |st| && owner[b] != Place(i, NDIRECT)
      ensures st'[b] == st[b]
    {
      assert OwnerOk(l, inodes, st, owner[b], b);
      assert b != x && st'[b] == st1[b];
      AllocatedElsewhere(l, st, r, b);
    }
  }

  lemma AllocatedElsewhere(l: Layout, st: Store, r: nat, b: nat)
    requires |st| == l.size && ValidLayout(l) && r < l.size && !Used(l, st, r)
    requires DataStart(l) <= b < l.size && b != r
    ensures Allocated(l, st, r)[b] == st[b]
  {
  }
}
