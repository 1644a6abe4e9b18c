/** File contents as byte sequences over the block maps of FsState. */
module FsFiles {
  import opened Blocks
  import opened FsState

  const MAXBYTES := MAXFILE * BSIZE

  /** Byte k of a file, where its block is allocated. */
  ghost function ByteAt(ino: Inode, st: Store, k: nat): (x: Byte)
    requires |ino.addrs| == NDIRECT + 1 && ino.addrs[NDIRECT] < |st| && k < MAXBYTES
  {
    var a := AddrAt(ino, st, PosOf(k / BSIZE));
    if a < |st| then st[a][k % BSIZE] else 0
  }

  /** Every block below byte e is allocated. */
  ghost predicate BackedTo(ino: Inode, st: Store, e: nat)
    requires |ino.addrs| == NDIRECT + 1 && ino.addrs[NDIRECT] < |st|
  {
    e <= MAXBYTES && forall bn: nat :: bn < MAXFILE && bn * BSIZE < e ==> AddrAt(ino, st, PosOf(bn)) != 0
  }

  /** No block at or behind byte e is allocated, nor an indirect block without need. */
  ghost predicate TrimTo(ino: Inode, st: Store, e: nat)
    requires |ino.addrs| == NDIRECT + 1 && ino.addrs[NDIRECT] < |st|
  {
    && (forall bn: nat :: bn < MAXFILE && e <= bn * BSIZE ==> AddrAt(ino, st, PosOf(bn)) == 0)
    && (e <= NDIRECT * BSIZE ==> ino.addrs[NDIRECT] == 0)
  }

  /** Exactly the blocks below the size are allocated. */
  ghost predicate Tidy(ino: Inode, st: Store)
    requires |ino.addrs| == NDIRECT + 1 && ino.addrs[NDIRECT] < |st|
  {
    BackedTo(ino, st, ino.size) && TrimTo(ino, st, ino.size)
  }

  /** What reading the whole file gives. */
  ghost function Content(ino: Inode, st: Store): (c: seq<Byte>)
    requires |ino.addrs| == NDIRECT + 1 && ino.addrs[NDIRECT] < |st| && ino.size <= MAXBYTES
    ensures |c| == ino.size
  {
    seq(ino.size, k requires 0 <= k < ino.size => ByteAt(ino, st, k))
  }

  /** c with src written over it from position off, growing if need be. */
  function Splice(c: seq<Byte>, off: nat, src: seq<Byte>): (r: seq<Byte>)
    requires off <= |c|
    ensures |r| == Max(|c|, off + |src|)
  {
    c[..off] + src + if off + |src| <= |c| then c[off + |src|..] else []
  }

  /** A written byte is where it was written, and every other byte of the file is as it was. */
  lemma SpliceAt(c: seq<Byte>, off: nat, src: seq<Byte>, k: nat)
    requires off <= |c| && k < |Splice(c, off, src)|
    ensures off <= k < off + |src| ==> Splice(c, off, src)[k] == src[k - off]
    ensures !(off <= k < off + |src|) ==> k < |c| && Splice(c, off, src)[k] == c[k]
  {
  }

  /** Everything that belongs to inodes other than i is as it was. */
  ghost predicate OthersKept(inodes: seq<Inode>, st: Store, owner: map<nat, Place>,
                             inodes': seq<Inode>, st': Store, owner': map<nat, Place>, i: nat)
  {
    && |inodes'| == |inodes| && |st'| == |st|
    && (forall j :: 0 <= j < |inodes| && j != i ==> inodes'[j] == inodes[j])
    && (forall b :: b in owner && b < |st| && owner[b].inum != i ==>
         b in owner' && owner'[b] == owner[b] && st'[b] == st[b])
    && (i < |inodes| ==> inodes'[i].typ == inodes[i].typ && inodes'[i].nlink == inodes[i].nlink)
  }

  lemma KeptSelf(inodes: seq<Inode>, st: Store, owner: map<nat, Place>, i: nat)
    ensures OthersKept(inodes, st, owner, inodes, st, owner, i)
  {
  }

  lemma OthersKeptTwice(inodes: seq<Inode>, st: Store, owner: map<nat, Place>,
                        inodes1: seq<Inode>, st1: Store, owner1: map<nat, Place>,
                        inodes2: seq<Inode>, st2: Store, owner2: map<nat, Place>, i: nat)
    requires OthersKept(inodes, st, owner, inodes1, st1, owner1, i)
    requires OthersKept(inodes1, st1, owner1, inodes2, st2, owner2, i)
    ensures OthersKept(inodes, st, owner, inodes2, st2, owner2, i)
  {
  }

  lemma OthersKeptAddrs(l: Layout, inodes: seq<Inode>, st: Store, owner: map<nat, Place>,
                        inodes': seq<Inode>, st': Store, owner': map<nat, Place>, i: nat, j: nat, q: nat)
    requires Owned(l, inodes, st, owner) && Owned(l, inodes', st', owner')
    requires OthersKept(inodes, st, owner, inodes', st', owner', i)
    requires j < |inodes| && j != i && q < NPOS
    ensures AddrAt(inodes'[j], st', q) == AddrAt(inodes[j], st, q)
  {
    hide Used;
    hide GetWord;
    var x := AddrAt(inodes[j], st, NDIRECT);
    assert x != 0 ==> x in owner && owner[x] == Place(j, NDIRECT) && OwnerOk(l, inodes, st, owner[x], x);
  }

  lemma OthersKeptTrim(l: Layout, inodes: seq<Inode>, st: Store, owner: map<nat, Place>,
                       inodes': seq<Inode>, st': Store, owner': map<nat, Place>, i: nat, j: nat)
    requires Owned(l, inodes, st, owner) && Owned(l, inodes', st', owner')
    requires OthersKept(inodes, st, owner, inodes', st', owner', i)
    requires j < |inodes| && j != i && TrimTo(inodes[j], st, inodes[j].size)
    ensures TrimTo(inodes'[j], st', inodes'[j].size)
  {
    hide Used;
    hide AddrAt;
    forall q | 0 <= q < NPOS
      ensures AddrAt(inodes'[j], st', q) == AddrAt(inodes[j], st, q)
    {
      OthersKeptAddrs(l, inodes, st, owner, inodes', st', owner', i, j, q);
    }
  }

  /** A change confined to inode i leaves the contents and blocks of every other file alone. */
  lemma OthersKeptContent(l: Layout, inodes: seq<Inode>, st: Store, owner: map<nat, Place>,
                          inodes': seq<Inode>, st': Store, owner': map<nat, Place>, i: nat, j: nat)
    requires Owned(l, inodes, st, owner) && Owned(l, inodes', st', owner')
    requires OthersKept(inodes, st, owner, inodes', st', owner', i)
    requires j < |inodes| && j != i && BackedTo(inodes[j], st, inodes[j].size)
    ensures BackedTo(inodes'[j], st', inodes'[j].size)
    ensures Content(inodes'[j], st') == Content(inodes[j], st)
  {
    hide Used;
    hide AddrAt;
    forall q | 0 <= q < NPOS
      ensures AddrAt(inodes'[j], st', q) == AddrAt(inodes[j], st, q)
    {
      OthersKeptAddrs(l, inodes, st, owner, inodes', st', owner', i, j, q);
    }
    forall k | 0 <= k < inodes[j].size
      ensures ByteAt(inodes'[j], st', k) == ByteAt(inodes[j], st, k)
    {
      BackedByte(inodes[j], st, inodes[j].size, k);
      var a := AddrAt(inodes[j], st, PosOf(k / BSIZE));
      assert a in owner && owner[a] == Place(j, PosOf(k / BSIZE));
      assert OwnerOk(l, inodes, st, owner[a], a);
    }
  }

  /** The block of a byte below e. */
  lemma BackedByte(ino: Inode, st: Store, e: nat, k: nat)
    requires |ino.addrs| == NDIRECT + 1 && ino.addrs[NDIRECT] < |st| && BackedTo(ino, st, e) && k < e
    ensures k / BSIZE < MAXFILE && AddrAt(ino, st, PosOf(k / BSIZE)) != 0
  {
  }

  /** Storing into the block of bn changes the bytes of that block and no others. */
  lemma StoreBytes(l: Layout, inodes: seq<Inode>, st: Store, owner: map<nat, Place>, i: nat, bn: nat, a: nat,
                   data: Block)
    requires Owned(l, inodes, st, owner) && i < |inodes| && bn < MAXFILE
    requires a == AddrAt(inodes[i], st, PosOf(bn)) != 0 && a < |st|
    ensures Owned(l, inodes, st[a := data], owner)
    ensures OthersKept(inodes, st, owner, inodes, st[a := data], owner, i)
    ensures forall q :: 0 <= q < NPOS ==> AddrAt(inodes[i], st[a := data], q) == AddrAt(inodes[i], st, q)
    ensures forall k :: 0 <= k < MAXBYTES && AddrAt(inodes[i], st, PosOf(k / BSIZE)) != 0 ==>
              ByteAt(inodes[i], st[a := data], k) == if k / BSIZE == bn then data[k % BSIZE]
                else ByteAt(inodes[i], st, k)
  {
    hide Used;
    hide GetWord;
    assert owner[a] == Place(i, PosOf(bn)) && OwnerOk(l, inodes, st, owner[a], a);
    OverwriteKeepsOwned(l, inodes, st, owner, a, data);
    AddrStable(l, inodes, st, owner, st[a := data]);
    hide AddrAt;
    forall k | 0 <= k < MAXBYTES && AddrAt(inodes[i], st, PosOf(k / BSIZE)) != 0
      ensures ByteAt(inodes[i], st[a := data], k) == if k / BSIZE == bn then data[k % BSIZE]
              else ByteAt(inodes[i], st, k)
    {
      var c := AddrAt(inodes[i], st, PosOf(k / BSIZE));
      assert c in owner && owner[c] == Place(i, PosOf(k / BSIZE));
      assert OwnerOk(l, inodes, st, owner[c], c);
    }
  }

  /** The part of a file's content that lies in one block. */
  lemma ChunkOf(ino: Inode, st: Store, from: nat, off: nat, m: nat)
    requires |ino.addrs| == NDIRECT + 1 && ino.addrs[NDIRECT] < |st| && ino.size <= MAXBYTES
    requires from <= off && off + m <= ino.size && off % BSIZE + m <= BSIZE && off < MAXBYTES
    requires AddrAt(ino, st, PosOf(off / BSIZE)) < |st|
    ensures Content(ino, st)[from..off] + st[AddrAt(ino, st, PosOf(off / BSIZE))][off % BSIZE..off % BSIZE + m]
            == Content(ino, st)[from..off + m]
  {
  }

  function Max(a: nat, b: nat): (m: nat) { if a > b then a else b }

  /** A block with chunk copied over it at offset o. */
  function Patched(b: Block, o: nat, chunk: seq<Byte>): (r: Block)
    requires o + |chunk| <= BSIZE
  {
    b[..o] + chunk + b[o + |chunk|..]
  }

  /** Midway through writei: of a file of size0 bytes, src[..tot] has been written at off. */
  ghost predicate Wrote(ino0: Inode, st0: Store, ino: Inode, st: Store, size0: nat, off: nat, src: seq<Byte>, tot: nat)
    requires |ino0.addrs| == NDIRECT + 1 && ino0.addrs[NDIRECT] < |st0|
    requires |ino.addrs| == NDIRECT + 1 && ino.addrs[NDIRECT] < |st|
    requires off <= size0 <= MAXBYTES && tot <= |src| && off + |src| <= MAXBYTES
  {
    && BackedTo(ino, st, Max(size0, off + tot))
    && forall k :: 0 <= k < Max(size0, off + tot) ==>
         ByteAt(ino, st, k) == if off <= k < off + tot then src[k - off] else ByteAt(ino0, st0, k)
  }

  lemma WroteBacked(ino0: Inode, st0: Store, ino: Inode, st: Store, size0: nat, off: nat, src: seq<Byte>, tot: nat)
    requires |ino0.addrs| == NDIRECT + 1 && ino0.addrs[NDIRECT] < |st0|
    requires |ino.addrs| == NDIRECT + 1 && ino.addrs[NDIRECT] < |st|
    requires off <= size0 <= MAXBYTES && tot <= |src| && off + |src| <= MAXBYTES
    requires Wrote(ino0, st0, ino, st, size0, off, src, tot)
    ensures BackedTo(ino, st, Max(size0, off + tot))
  {
  }

  /** The effect of one round of writei's loop on the bytes of the file: the block of byte pos, which
      held before if it existed, holds it patched with chunk; other bytes and addresses stay. */
  ghost predicate BlockWritten(ino: Inode, st: Store, ino': Inode, st': Store, pos: nat, chunk: seq<Byte>,
                               before: Block)
    requires |ino.addrs| == NDIRECT + 1 && ino.addrs[NDIRECT] < |st|
    requires |ino'.addrs| == NDIRECT + 1 && ino'.addrs[NDIRECT] < |st'|
    requires pos < MAXBYTES && pos % BSIZE + |chunk| <= BSIZE
  {
    && AddrAt(ino', st', PosOf(pos / BSIZE)) != 0
    && (forall q :: 0 <= q < NPOS && AddrAt(ino, st, q) != 0 ==> AddrAt(ino', st', q) != 0)
    && (forall k :: 0 <= k < MAXBYTES && AddrAt(ino, st, PosOf(k / BSIZE)) != 0 && k / BSIZE == pos / BSIZE ==>
          before[k % BSIZE] == ByteAt(ino, st, k))
    && (forall k :: 0 <= k < MAXBYTES && k / BSIZE == pos / BSIZE ==>
          ByteAt(ino', st', k) == Patched(before, pos % BSIZE, chunk)[k % BSIZE])
    && (forall k :: 0 <= k < MAXBYTES && AddrAt(ino, st, PosOf(k / BSIZE)) != 0 && k / BSIZE != pos / BSIZE ==>
          ByteAt(ino', st', k) == ByteAt(ino, st, k))
  }

  lemma WroteStep(ino0: Inode, st0: Store, ino: Inode, st: Store, ino': Inode, st': Store,
                  size0: nat, off: nat, src: seq<Byte>, tot: nat, m: nat, before: Block)
    requires |ino0.addrs| == NDIRECT + 1 && ino0.addrs[NDIRECT] < |st0|
    requires |ino.addrs| == NDIRECT + 1 && ino.addrs[NDIRECT] < |st|
    requires |ino'.addrs| == NDIRECT + 1 && ino'.addrs[NDIRECT] < |st'|
    requires off <= size0 <= MAXBYTES && tot + m <= |src| && off + |src| <= MAXBYTES && 0 < m
    requires (off + tot) % BSIZE + m <= BSIZE
    requires Wrote(ino0, st0, ino, st, size0, off, src, tot)
    requires BlockWritten(ino, st, ino', st', off + tot, src[tot..tot + m], before)
    ensures Wrote(ino0, st0, ino', st', size0, off, src, tot + m)
  {
    hide AddrAt;
    hide ByteAt;
    var data := Patched(before, (off + tot) % BSIZE, src[tot..tot + m]);
    var e, e', bn, o := Max(size0, off + tot), Max(size0, off + tot + m), (off + tot) / BSIZE, (off + tot) % BSIZE;
    forall b: nat | b < MAXFILE && b * BSIZE < e'
      ensures AddrAt(ino', st', PosOf(b)) != 0
    {
      if b * BSIZE >= e {
        assert b == bn;
      }
    }
    forall k | 0 <= k < e'
      ensures ByteAt(ino', st', k) == if off <= k < off + tot + m then src[k - off] else ByteAt(ino0, st0, k)
    {
      if off + tot <= k < off + tot + m {
        assert k / BSIZE == bn && k % BSIZE == o + (k - off - tot);
        assert data[k % BSIZE] == src[tot..tot + m][k - off - tot];
      } else {
        assert k < e;
        BackedByte(ino, st, e, k);
        if k / BSIZE == bn {
          assert k % BSIZE == o + (k - off - tot);
          assert data[k % BSIZE] == before[k % BSIZE];
        }
      }
    }
  }

  /** All of src written: the content is spliced. */
  lemma WroteAll(ino0: Inode, st0: Store, ino: Inode, st: Store, off: nat, src: seq<Byte>)
    requires |ino0.addrs| == NDIRECT + 1 && ino0.addrs[NDIRECT] < |st0|
    requires |ino.addrs| == NDIRECT + 1 && ino.addrs[NDIRECT] < |st|
    requires off <= ino0.size <= MAXBYTES && off + |src| <= MAXBYTES && ino.size == Max(ino0.size, off + |src|)
    requires Wrote(ino0, st0, ino, st, ino0.size, off, src, |src|)
    ensures BackedTo(ino, st, ino.size)
    ensures Content(ino, st) == Splice(Content(ino0, st0), off, src)
  {
  }

  /** Ownership and bytes do not depend on the size field. */
  lemma Resize(l: Layout, inodes: seq<Inode>, st: Store, owner: map<nat, Place>, i: nat, size: nat, inodes': seq<Inode>)
    requires Owned(l, inodes, st, owner) && i < |inodes|
    requires inodes' == inodes[i := inodes[i].(size := size)]
    ensures Owned(l, inodes', st, owner)
    ensures forall q :: 0 <= q < NPOS ==> AddrAt(inodes'[i], st, q) == AddrAt(inodes[i], st, q)
    ensures forall k :: 0 <= k < MAXBYTES ==> ByteAt(inodes'[i], st, k) == ByteAt(inodes[i], st, k)
  {
    hide Used;
    hide GetWord;
    forall j, q | 0 <= j < |inodes| && 0 <= q < NPOS
      ensures AddrAt(inodes'[j], st, q) == AddrAt(inodes[j], st, q)
    {
    }
    hide AddrAt;
    forall j, q | 0 <= j < |inodes| && 0 <= q < NPOS && AddrAt(inodes'[j], st, q) != 0
      ensures AddrAt(inodes'[j], st, q) in owner && owner[AddrAt(inodes'[j], st, q)] == Place(j, q)
    {
      assert AddrAt(inodes'[j], st, q) == AddrAt(inodes[j], st, q);
    }
    forall b | b in owner
      ensures OwnerOk(l, inodes', st, owner[b], b)
    {
      assert OwnerOk(l, inodes, st, owner[b], b);
    }
  }
}
