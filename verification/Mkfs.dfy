/** mkfs.c: the image that the file system starts from. */
module MkfsCode {
  import opened Blocks
  import opened Bitmap
  import opened FsState
  import opened FsFiles
  import opened FsAccount
  import FsCode
  import FsWrites

  const EMPTY := Inode(0, 0, 0, seq(NDIRECT + 1, _ => 0))

  lemma {:induction false} ZeroBit(k: nat)
    ensures !BitOf(0, k)
  {
    if k > 0 {
      ZeroBit(k - 1);
    }
  }

  lemma NoBits()
    ensures forall j: nat :: j < BPB ==> !BlockBit(Zero(), j)
  {
    forall j: nat | j < BPB
      ensures !BlockBit(Zero(), j)
    {
      ZeroBit(j % 8);
    }
  }

  /** The bitmap block with the first k bits set. */
  ghost function BitsBelow(k: nat): (r: Block)
    requires k <= BPB
    ensures forall j: nat :: j < BPB ==> (BlockBit(r, j) <==> j < k)
  {
    if k == 0 then
      NoBits();
      Zero()
    else SetBlockBit(BitsBelow(k - 1), k - 1)
  }

  /** The sectors as they will be once the first k blocks are marked in the bitmap. */
  ghost function Marked(l: Layout, st: Store, k: nat): (r: Store)
    requires ValidLayout(l) && |st| == l.size && k <= BPB
    ensures |r| == |st| && forall b :: 0 <= b < |st| && b != BBlock(l, 0) ==> r[b] == st[b]
  {
    st[BBlock(l, 0) := BitsBelow(k)]
  }

  lemma MarkedBits(l: Layout, st: Store, k: nat, b: nat)
    requires ValidLayout(l) && |st| == l.size <= BPB && k <= BPB && b < l.size
    ensures Used(l, Marked(l, st, k), b) <==> b < k
  {
  }

  /** Taking the next block is what balloc would do: the first free one, and zero already. */
  lemma MarkedNext(l: Layout, st: Store, k: nat)
    requires ValidLayout(l) && |st| == l.size <= BPB && DataStart(l) <= k < l.size && st[k] == Zero()
    ensures !Used(l, Marked(l, st, k), k) && Marked(l, st, k + 1) == Allocated(l, Marked(l, st, k), k)
  {
  }

  /** An image on which nothing has been allocated. */
  lemma EmptyImage(l: Layout, inodes: seq<Inode>, st: Store)
    requires ValidLayout(l) && |st| == l.size <= BPB && |inodes| == l.ninodes && l.size > 0
    requires forall i :: 0 <= i < |inodes| ==> inodes[i] == EMPTY
    ensures Owned(l, inodes, Marked(l, st, DataStart(l)), map[])
  {
  }

  class Mkfs {
    const l: Layout
    var st: Store
    var inodes: seq<Inode>
    var freeblock: nat
    var usedblocks: nat
    var freeinode: nat
    ghost var owner: map<nat, Place>

    constructor (layout: Layout)
      requires ValidLayout(layout) && 0 < layout.size <= BPB
      ensures Valid() && l == layout && freeblock == DataStart(l) && freeinode == 1
      ensures forall i :: 0 <= i < |inodes| ==> inodes[i] == EMPTY
    {
      l := layout;
      var zeroes: Block := Zero();
      st := seq(layout.size, _ => zeroes);
      inodes := seq(layout.ninodes, _ => EMPTY);
      freeblock, usedblocks, freeinode := DataStart(layout), DataStart(layout), 1;
      owner := map[];
      new;
      EmptyImage(l, inodes, st);
      assert forall j, q: nat :: 0 <= j < |inodes| && q < NPOS ==> AddrAt(inodes[j], View(), q) == 0;
    }

    /** The blocks below freeblock, and no others, belong to the metadata or to one place of one inode. */
    ghost predicate Base()
      reads this
    {
      && WellSized(l, inodes, st) && l.size <= BPB && freeblock == usedblocks
      && DataStart(l) <= freeblock <= l.size - l.nlog
      && Owned(l, inodes, View(), owner)
      && forall b :: freeblock <= b < l.size ==> st[b] == Zero()
    }

    /** Moreover no inode has blocks behind its size. */
    ghost predicate Valid()
      reads this
    {
      Base() && forall j :: 0 <= j < |inodes| ==> TrimTo(inodes[j], View(), inodes[j].size)
    }

    ghost function View(): (r: Store)
      requires WellSized(l, inodes, st) && l.size <= BPB && freeblock <= l.size - l.nlog
      reads this
    {
      Marked(l, st, freeblock)
    }

    /** din.addrs[p] = freeblock++ for an empty address. */
    method TakeAddr(i: nat, p: nat) returns (r: nat)
      requires Base() && i < |inodes| && p <= NDIRECT && inodes[i].addrs[p] == 0 && freeblock < l.size - l.nlog
      modifies this
      ensures Base() && r == old(freeblock) && r != 0 && freeblock == r + 1 && freeinode == old(freeinode)
      ensures Attached(l, old(inodes), old(View()), inodes, View(), i, p, r)
      ensures FsCode.Grown(l, old(inodes), old(View()), old(owner), inodes, View(), owner, i)
      ensures st == old(st)
    {
      hide Used, FsCode.Grown, Attached, GetWord, Zero, Marked, Allocated;
      ghost var v := View();
      r := freeblock;
      MarkedNext(l, st, r);
      inodes := inodes[i := inodes[i].(addrs := inodes[i].addrs[p := r])];
      freeblock, usedblocks := freeblock + 1, usedblocks + 1;
      AttachDirect(l, old(inodes), v, owner, i, p, r, inodes, View());
      owner := owner[r := Place(i, p)];
      FsCode.AllocGrown(l, old(inodes), v, old(owner), inodes, View(), i, p, r);
    }

    /** indirect[j] = freeblock++ for an empty entry, and the indirect block written back. */
    method TakeEntry(i: nat, p: nat) returns (r: nat)
      requires Base() && i < |inodes| && NDIRECT < p < NPOS && inodes[i].addrs[NDIRECT] != 0
               && freeblock < l.size - l.nlog
      requires AddrAt(inodes[i], View(), p) == 0
      modifies this
      ensures Base() && r == old(freeblock) && r != 0 && freeblock == r + 1 && freeinode == old(freeinode)
      ensures Attached(l, old(inodes), old(View()), inodes, View(), i, p, r)
      ensures FsCode.Grown(l, old(inodes), old(View()), old(owner), inodes, View(), owner, i)
    {
      hide Used, FsCode.Grown, Attached, GetWord, SetWord, Zero, Allocated, AddrAt, BBlock;
      ghost var v := View();
      r := freeblock;
      MarkedNext(l, st, r);
      var x := inodes[i].addrs[NDIRECT];
      DataBlock(l, inodes, v, owner, i, freeblock, st);
      ghost var v1 := Marked(l, st, r + 1);
      var b := SetWord(st[x], p - NDIRECT - 1, r);
      st := st[x := b];
      freeblock, usedblocks := freeblock + 1, usedblocks + 1;
      assert View() == v1[x := b];
      AttachIndirect(l, inodes, v, owner, i, p, r, x, v1, View());
      owner := owner[r := Place(i, p)];
      FsCode.EntryGrown(l, inodes, v, old(owner), v1, View(), i, p, r);
    }

    method MapIndirect(i: nat, bn: nat) returns (x: nat)
      requires Base() && i < |inodes| && NDIRECT <= bn < MAXFILE
               && freeblock + AddedAt(inodes[i], View(), bn) <= l.size - l.nlog
      modifies this
      ensures Base() && x == AddrAt(inodes[i], View(), bn + 1) && x != 0 && freeinode == old(freeinode)
      ensures FsCode.Grown(l, old(inodes), old(View()), old(owner), inodes, View(), owner, i)
      ensures old(AddrAt(inodes[i], View(), bn + 1)) != 0 ==>
                View() == old(View()) && inodes == old(inodes) && freeblock == old(freeblock)
      ensures freeblock == old(freeblock) + old(AddedAt(inodes[i], View(), bn))
              && OneMapped(old(inodes)[i], old(View()), inodes[i], View(), bn)
    {
      hide Used, GetWord, Zero, BBlock, Marked;
      if inodes[i].addrs[NDIRECT] == 0 {
        hide Owned;
        assert AddrAt(inodes[i], View(), bn + 1) == 0;
        var y := TakeAddr(i, NDIRECT);
        assert AddrAt(inodes[i], View(), bn + 1) == 0;
        assert AddrAt(inodes[i], View(), NDIRECT) == y;
        ghost var inodes1, v1, owner1 := inodes, View(), owner;
        x := TakeEntry(i, bn + 1);
        FsCode.GrownTwice(l, old(inodes), old(View()), old(owner), inodes1, v1, owner1, inodes, View(), owner, i);
        assert AddrAt(inodes[i], View(), bn + 1) == x;
        return;
      }
      DataBlock(l, inodes, View(), owner, i, freeblock, st);
      x := GetWord(st[inodes[i].addrs[NDIRECT]], bn - NDIRECT);
      if x == 0 {
        hide Owned;
        x := TakeEntry(i, bn + 1);
        assert AddrAt(inodes[i], View(), NDIRECT) == old(AddrAt(inodes[i], View(), NDIRECT));
      }
    }

    /** The block for byte block bn of file i, taken from freeblock if the file has none. */
    method MapBlock(i: nat, bn: nat) returns (x: nat)
      requires Base() && i < |inodes| && bn < MAXFILE && freeblock + AddedAt(inodes[i], View(), bn) <= l.size - l.nlog
      modifies this
      ensures Base() && x == AddrAt(inodes[i], View(), PosOf(bn)) && x != 0 && freeinode == old(freeinode)
      ensures FsCode.Grown(l, old(inodes), old(View()), old(owner), inodes, View(), owner, i)
      ensures old(AddrAt(inodes[i], View(), PosOf(bn))) != 0 ==>
                View() == old(View()) && inodes == old(inodes) && freeblock == old(freeblock)
      ensures freeblock == old(freeblock) + old(AddedAt(inodes[i], View(), bn))
              && OneMapped(old(inodes)[i], old(View()), inodes[i], View(), bn)
    {
      hide Used, GetWord, Zero, BBlock, Marked;
      if bn < NDIRECT {
        x := inodes[i].addrs[bn];
        if x == 0 {
          hide Owned;
          x := TakeAddr(i, bn);
          assert AddrAt(inodes[i], View(), bn) == x;
          assert AddrAt(inodes[i], View(), NDIRECT) == old(AddrAt(inodes[i], View(), NDIRECT));
        }
        return;
      }
      x := MapIndirect(i, bn);
    }

    /** One round of iappend's loop. */
    method AppendBlock(i: nat, pos: nat, chunk: seq<Byte>) returns (ghost before: Block)
      requires Base() && i < |inodes| && pos < MAXBYTES && pos % BSIZE + |chunk| <= BSIZE
      requires freeblock + AddedAt(inodes[i], View(), pos / BSIZE) <= l.size - l.nlog
      modifies this
      ensures Base() && OthersKept(old(inodes), old(View()), old(owner), inodes, View(), owner, i)
              && freeinode == old(freeinode)
      ensures inodes[i] == old(inodes[i]).(addrs := inodes[i].addrs)
      ensures BlockWritten(old(inodes)[i], old(View()), inodes[i], View(), pos, chunk, before)
      ensures OneMapped(old(inodes)[i], old(View()), inodes[i], View(), pos / BSIZE)
      ensures freeblock == old(freeblock) + old(AddedAt(inodes[i], View(), pos / BSIZE))
    {
      hide Used, AddrAt, AddedAt, OneMapped, Patched, Zero, BlockWritten, OthersKept, FsCode.Grown, Owned, Marked,
           BBlock;
      var x := MapBlock(i, pos / BSIZE);
      ghost var v := View();
      FileBlock(l, inodes, v, owner, i, PosOf(pos / BSIZE), freeblock, st);
      before := v[x];
      var data := Patched(st[x], pos % BSIZE, chunk);
      FsCode.WriteBlockEffect(l, old(inodes), old(View()), old(owner), inodes, v, owner, i, pos, chunk, x);
      MarkedStore(l, st, freeblock, x, data);
      st := st[x := data];
    }

    /** Midway through iappend, which began with inodes0, v0 and owner0 and freeblock == f0. */
    ghost predicate Appending(i: nat, src: seq<Byte>, tot: nat, inodes0: seq<Inode>, v0: Store,
                              owner0: map<nat, Place>, f0: nat)
      reads this
    {
      && Base() && i < |inodes| == |inodes0|
      && |inodes0[i].addrs| == NDIRECT + 1 && inodes0[i].addrs[NDIRECT] < |v0|
      && inodes0[i].size + |src| <= MAXBYTES && tot <= |src|
      && Aligned(inodes0[i].size, tot, |src|)
      && OthersKept(inodes0, v0, owner0, inodes, View(), owner, i)
      && inodes[i] == inodes0[i].(addrs := inodes[i].addrs)
      && Wrote(inodes0[i], v0, inodes[i], View(), inodes0[i].size, inodes0[i].size, src, tot)
      && TrimTo(inodes[i], View(), inodes0[i].size + tot)
      && freeblock == f0 + Added(inodes0[i].size, inodes0[i].size + tot)
    }

    method AppendRound(i: nat, src: seq<Byte>, tot: nat, ghost inodes0: seq<Inode>, ghost v0: Store,
                       ghost owner0: map<nat, Place>, ghost f0: nat) returns (m: nat)
      requires Appending(i, src, tot, inodes0, v0, owner0, f0) && tot < |src|
      requires f0 + Added(inodes0[i].size, inodes0[i].size + |src|) <= l.size - l.nlog
      modifies this
      ensures 0 < m <= |src| - tot && i < |inodes| && Appending(i, src, tot + m, inodes0, v0, owner0, f0)
              && freeinode == old(freeinode)
    {
      hide Used, AddrAt, AddedAt, OneMapped, Owned, OthersKept, BlockWritten, Patched, Wrote, BackedTo, TrimTo,
           Touched, Piece, Aligned, Marked, Added;
      ghost var size0 := inodes0[i].size;
      WroteBacked(inodes0[i], v0, inodes[i], View(), size0, size0, src, tot);
      var pos := inodes[i].size + tot;
      m := Piece(pos, |src| - tot);
      RoundTouches(size0, tot, m, |src|);
      FsWrites.BlockOf(pos, m);
      RoundAdds(inodes[i], View(), size0, pos, pos, m, pos / BSIZE);
      AddedTwice(size0, pos + m, size0 + |src|);
      AddedTwice(pos + m, size0 + |src|, size0 + |src|);
      ghost var before := AppendBlock(i, pos, src[tot..tot + m]);
      TrimStep(old(inodes)[i], old(View()), inodes[i], View(), pos, pos, m, pos / BSIZE);
      WroteStep(inodes0[i], v0, old(inodes)[i], old(View()), inodes[i], View(), size0, size0, src, tot, m, before);
      OthersKeptTwice(inodes0, v0, owner0, old(inodes), old(View()), old(owner), inodes, View(), owner, i);
    }

    /** iappend: the file grows by src, and no other file changes. It takes as many blocks as a file that long needs
        more. */
    method Iappend(i: nat, src: seq<Byte>)
      requires Valid() && i < |inodes| && BackedTo(inodes[i], View(), inodes[i].size)
      requires inodes[i].size + |src| <= MAXBYTES
               && freeblock + Added(inodes[i].size, inodes[i].size + |src|) <= l.size - l.nlog
      modifies this
      ensures Valid() && i < |inodes| && freeinode == old(freeinode)
      ensures freeblock == old(freeblock) + Added(old(inodes)[i].size, inodes[i].size)
      ensures BackedTo(inodes[i], View(), inodes[i].size)
              && Content(inodes[i], View()) == old(Content(inodes[i], View())) + src
      ensures OthersKept(old(inodes), old(View()), old(owner), inodes, View(), owner, i)
    {
      hide Used, Owned, AddrAt, Content, BackedTo, TrimTo, OthersKept, Marked, Added;
      var tot := 0;
      ghost var off := inodes[i].size;
      AppendStart(inodes, View(), owner, i, src);
      while tot < |src|
        invariant 0 <= tot <= |src| && Appending(i, src, tot, old(inodes), old(View()), old(owner), old(freeblock))
        invariant freeinode == old(freeinode)
      {
        var m := AppendRound(i, src, tot, old(inodes), old(View()), old(owner), old(freeblock));
        tot := tot + m;
      }
      ghost var inodes1 := inodes;
      inodes := inodes[i := inodes[i].(size := inodes[i].size + |src|)];
      Resize(l, inodes1, View(), owner, i, off + |src|, inodes);
      FsCode.KeptResized(old(inodes), old(View()), old(owner), inodes1, View(), owner, i, off + |src|, inodes);
      FsCode.WroteResized(old(inodes)[i], old(View()), inodes1[i], inodes[i], View(), off, src);
      WroteAll(old(inodes)[i], old(View()), inodes[i], View(), off, src);
      TrimResized(inodes1[i], inodes[i], View(), off + |src|);
      OthersTrimmed(l, old(inodes), old(View()), old(owner), inodes, View(), owner, i);
    }

    /** ialloc: the next inode, of the given type. */
    method Ialloc(typ: int) returns (inum: nat)
      requires Valid() && freeinode < |inodes| && inodes[freeinode] == EMPTY
      modifies this
      ensures Valid() && inum == old(freeinode) && freeinode == inum + 1 && freeblock == old(freeblock)
              && View() == old(View())
      ensures owner == old(owner)
      ensures inodes == old(inodes)[inum := Inode(typ, 1, 0, EMPTY.addrs)]
    {
      FreshInode(l, inodes, View(), owner, freeinode, typ);
      inum := freeinode;
      freeinode := freeinode + 1;
      inodes := inodes[inum := Inode(typ, 1, 0, EMPTY.addrs)];
      FsWrites.SameAddrs(old(inodes)[inum], inodes[inum], View());
    }

    /** The size of the root directory is rounded up. If it was a multiple of BSIZE, there is no block for the last part
        of the new size. */
    method FixRoot(root: nat)
      requires Valid() && root < |inodes| && BackedTo(inodes[root], View(), inodes[root].size)
               && inodes[root].size < MAXBYTES
      modifies this`inodes
      ensures Valid() && inodes == old(inodes)[root := old(inodes)[root].(size := RoundedUp(old(inodes)[root].size))]
      ensures BackedTo(inodes[root], View(), inodes[root].size) <==> old(inodes)[root].size % BSIZE != 0
    {
      hide AddrAt, Owned, Marked;
      RoundedBacked(inodes[root], View());
      ghost var inodes1 := inodes;
      inodes := inodes[root := inodes[root].(size := (inodes[root].size / BSIZE + 1) * BSIZE)];
      Resize(l, inodes1, View(), owner, root, RoundedUp(inodes1[root].size), inodes);
    }

    /** balloc writes the bitmap: from here on the sectors themselves satisfy the ownership invariant. */
    method Balloc()
      requires Valid()
      modifies this`st
      ensures WellSized(l, inodes, st) && Owned(l, inodes, st, owner) && st == old(View())
    {
      hide BlockBit, SetBlockBit;
      var buf: Block := Zero();
      for i := 0 to usedblocks
        invariant buf == BitsBelow(i)
      {
        buf := SetBlockBit(buf, i);
      }
      st := st[l.ninodes / IPB + 3 := buf];
      assert st == old(View());
    }
  }

  lemma MarkedStore(l: Layout, st: Store, k: nat, x: nat, data: Block)
    requires ValidLayout(l) && |st| == l.size && k <= BPB && x < l.size && x != BBlock(l, 0)
    ensures Marked(l, st[x := data], k) == Marked(l, st, k)[x := data]
  {
  }

  /** A block of a file is a data block already handed out. */
  lemma FileBlock(l: Layout, inodes: seq<Inode>, v: Store, owner: map<nat, Place>, i: nat, p: nat, k: nat, st: Store)
    requires Owned(l, inodes, v, owner) && i < |inodes| && p < NPOS && AddrAt(inodes[i], v, p) != 0
    requires |st| == l.size <= BPB && k <= l.size - l.nlog && v == Marked(l, st, k)
    ensures var x := AddrAt(inodes[i], v, p); DataStart(l) <= x < k && x != BBlock(l, 0) && v[x] == st[x]
  {
    hide Used, GetWord;
    var x := AddrAt(inodes[i], v, p);
    assert x in owner && OwnerOk(l, inodes, v, owner[x], x);
    MarkedBits(l, st, k, x);
    assert Used(l, v, x);
  }

  /** An inode's indirect block is a data block already handed out. */
  lemma DataBlock(l: Layout, inodes: seq<Inode>, v: Store, owner: map<nat, Place>, i: nat, k: nat, st: Store)
    requires Owned(l, inodes, v, owner) && i < |inodes| && inodes[i].addrs[NDIRECT] != 0
    requires |st| == l.size <= BPB && k <= l.size - l.nlog && v == Marked(l, st, k)
    ensures var x := inodes[i].addrs[NDIRECT]; DataStart(l) <= x < k && x != BBlock(l, 0) && v[x] == st[x]
  {
    hide Used, GetWord;
    assert AddrAt(inodes[i], v, NDIRECT) == inodes[i].addrs[NDIRECT];
    FileBlock(l, inodes, v, owner, i, NDIRECT, k, st);
  }

  /** Filling in an empty inode changes no address. */
  lemma FreshInode(l: Layout, inodes: seq<Inode>, v: Store, owner: map<nat, Place>, i: nat, typ: int)
    requires Owned(l, inodes, v, owner) && i < |inodes| && inodes[i] == EMPTY
    ensures Owned(l, inodes[i := Inode(typ, 1, 0, EMPTY.addrs)], v, owner)
  {
  }

  function RoundedUp(size: nat): (r: nat) {
    (size / BSIZE + 1) * BSIZE
  }

  /** The rounded size of a directory is backed by blocks exactly when the size was no multiple of BSIZE. */
  lemma RoundedBacked(ino: Inode, v: Store)
    requires |ino.addrs| == NDIRECT + 1 && ino.addrs[NDIRECT] < |v| && ino.size < MAXBYTES && Tidy(ino, v)
    ensures BackedTo(ino, v, RoundedUp(ino.size)) <==> ino.size % BSIZE != 0
  {
    hide AddrAt;
    var bn := ino.size / BSIZE;
    assert bn < MAXFILE && bn * BSIZE < RoundedUp(ino.size);
    if ino.size % BSIZE == 0 {
      assert AddrAt(ino, v, PosOf(bn)) == 0;
    }
  }

  lemma AppendStart(inodes: seq<Inode>, st: Store, owner: map<nat, Place>, i: nat, src: seq<Byte>)
    requires i < |inodes| && |inodes[i].addrs| == NDIRECT + 1 && inodes[i].addrs[NDIRECT] < |st|
    requires BackedTo(inodes[i], st, inodes[i].size) && inodes[i].size + |src| <= MAXBYTES
    ensures OthersKept(inodes, st, owner, inodes, st, owner, i)
    ensures Wrote(inodes[i], st, inodes[i], st, inodes[i].size, inodes[i].size, src, 0)
    ensures Added(inodes[i].size, inodes[i].size) == 0
  {
  }

  lemma TrimResized(ino: Inode, ino': Inode, st: Store, e: nat)
    requires |ino.addrs| == NDIRECT + 1 && ino.addrs[NDIRECT] < |st| && TrimTo(ino, st, e) && ino'.addrs == ino.addrs
    ensures TrimTo(ino', st, e)
  {
    FsWrites.SameAddrs(ino, ino', st);
  }

  lemma OthersTrimmed(l: Layout, inodes: seq<Inode>, st: Store, owner: map<nat, Place>,
                      inodes': seq<Inode>, st': Store, owner': map<nat, Place>, i: nat)
    requires WellSized(l, inodes, st) && WellSized(l, inodes', st') && Owned(l, inodes, st, owner)
             && Owned(l, inodes', st', owner')
    requires OthersKept(inodes, st, owner, inodes', st', owner', i)
    requires forall j :: 0 <= j < |inodes| ==> TrimTo(inodes[j], st, inodes[j].size)
    ensures forall j :: 0 <= j < |inodes| && j != i ==> TrimTo(inodes'[j], st', inodes'[j].size)
  {
    hide AddrAt, Owned, OthersKept, TrimTo;
    forall j | 0 <= j < |inodes| && j != i
      ensures TrimTo(inodes'[j], st', inodes'[j].size)
    {
      OthersKeptTrim(l, inodes, st, owner, inodes', st', owner', i, j);
    }
  }

  /** A root directory of 32 entries of 16 bytes: the image mkfs writes gives it a size of two blocks, and one block. */
  method FullRoot(l: Layout, entries: seq<Byte>) returns (m: Mkfs)
    requires ValidLayout(l) && 0 < l.size <= BPB && l.ninodes > 1 && DataStart(l) < l.size - l.nlog
    requires |entries| == 32 * 16
    ensures m.Valid() && |m.inodes| == l.ninodes && m.inodes[1].size == 2 * BSIZE
    ensures !BackedTo(m.inodes[1], m.View(), m.inodes[1].size)
  {
    hide Owned, AddrAt, Marked;
    m := new Mkfs(l);
    var root := m.Ialloc(1);
    m.Iappend(root, entries);
    m.FixRoot(root);
  }

  /** A disk whose only data block mkfs has filled: the kernel's balloc takes a sector of the log. */
  method FullDisk(l: Layout, data: seq<Byte>) returns (r: nat)
    requires ValidLayout(l) && 0 < l.size <= BPB && l.ninodes > 1 && l.nlog > 0
    requires DataStart(l) + 1 == l.size - l.nlog && |data| == BSIZE
    ensures l.size - l.nlog <= r < l.size
  {
    hide Owned, AddrAt, Marked, Used, Attached;
    var m := new Mkfs(l);
    var root := m.Ialloc(1);
    m.Iappend(root, data);
    NoneLeft(l, m.inodes, m.View(), m.owner, m.freeblock, m.st);
    m.Balloc();
    var fs := new FsCode.Fs(l, m.st, m.inodes, m.owner);
    r := fs.Balloc();
  }

  /** With every data block handed out, the first free sector lies in the log. */
  lemma NoneLeft(l: Layout, inodes: seq<Inode>, v: Store, owner: map<nat, Place>, k: nat, st: Store)
    requires Owned(l, inodes, v, owner) && l.nlog > 0 && k == l.size - l.nlog && |st| == l.size <= BPB
    requires v == Marked(l, st, k)
    ensures FreeBelow(l, v, l.size) && forall r: nat :: FirstFree(l, v, r) ==> l.size - l.nlog <= r < l.size
  {
    forall b: nat | b < l.size
      ensures Used(l, v, b) <==> b < k
    {
      MarkedBits(l, st, k, b);
    }
    hide Used, Marked;
    assert !Used(l, v, k);
  }
}
