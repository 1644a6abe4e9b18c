/** The file system as it lies on the disk, with the inodes in their blocks. */
module FsDisk {
  import opened Blocks
  import opened Bitmap
  import opened FsState
  import opened FsFiles
  import opened LogDisk

  // ----- inode blocks -----

  const DWORDS := 16     // words of a struct dinode

  /** Values that fit the fields of a struct dinode. */
  predicate Storable(ino: Inode) {
    0 <= ino.typ < 0x8000 && 0 <= ino.nlink < 0x8000 && ino.size < U32 && |ino.addrs| == NDIRECT + 1
  }

  predicate AllStorable(inodes: seq<Inode>) {
    forall i :: 0 <= i < |inodes| ==> Storable(inodes[i])
  }

  /** The k-th struct dinode of a block, without major and minor. */
  function Dinode(b: Block, k: nat): (ino: Inode)
    requires k < IPB
  {
    var o := DWORDS * k;
    Inode(GetWord(b, o) % 0x1_0000, GetWord(b, o + 1) / 0x1_0000, GetWord(b, o + 2),
          seq<Word>(NDIRECT + 1, j requires 0 <= j < NDIRECT + 1 => GetWord(b, o + 3 + j)))
  }

  /** The words of the k-th dinode once iupdate has stored ino there: major and minor stay. */
  function DinodeWords(b: Block, k: nat, ino: Inode): (ws: seq<Word>)
    requires k < IPB && Storable(ino)
  {
    var w0, w1 := GetWord(b, DWORDS * k), GetWord(b, DWORDS * k + 1);
    [w0 / 0x1_0000 * 0x1_0000 + ino.typ, ino.nlink * 0x1_0000 + w1 % 0x1_0000, ino.size] + ino.addrs
  }

  function PutWords(b: Block, o: nat, ws: seq<Word>): (r: Block)
    requires o + |ws| <= WORDS
  {
    if ws == [] then b
    else var last := |ws| - 1; SetWord(PutWords(b, o, ws[..last]), o + last, ws[last])
  }

  lemma {:induction false} PutWordsAt(b: Block, o: nat, ws: seq<Word>, j: nat)
    requires o + |ws| <= WORDS && j < WORDS
    ensures GetWord(PutWords(b, o, ws), j) == if o <= j < o + |ws| then ws[j - o] else GetWord(b, j)
    decreases |ws|
  {
    hide GetWord, SetWord;
    if ws != [] {
      var last := |ws| - 1;
      PutWordsAt(b, o, ws[..last], j);
      WordStore(PutWords(b, o, ws[..last]), o + last, ws[last], j);
    }
  }

  function PutDinode(b: Block, k: nat, ino: Inode): (r: Block)
    requires k < IPB && Storable(ino)
  {
    PutWords(b, DWORDS * k, DinodeWords(b, k, ino))
  }

  /** A dinode is read back, and its neighbours are left alone. */
  lemma DinodeRoundTrip(b: Block, k: nat, ino: Inode, m: nat)
    requires k < IPB && m < IPB && Storable(ino)
    ensures Dinode(PutDinode(b, k, ino), m) == if m == k then ino else Dinode(b, m)
  {
    hide GetWord, PutWords;
    var r, o, ws := PutDinode(b, k, ino), DWORDS * m, DinodeWords(b, k, ino);
    PutWordsAt(b, DWORDS * k, ws, o);
    PutWordsAt(b, DWORDS * k, ws, o + 1);
    PutWordsAt(b, DWORDS * k, ws, o + 2);
    forall j: nat | j < NDIRECT + 1
      ensures Dinode(r, m).addrs[j] == if m == k then ino.addrs[j] else Dinode(b, m).addrs[j]
    {
      PutWordsAt(b, DWORDS * k, ws, o + 3 + j);
    }
    assert Dinode(r, m).addrs == if m == k then ino.addrs else Dinode(b, m).addrs;
  }

  /** Storing what is there already changes nothing. */
  lemma SetSame(b: Block, i: nat)
    requires i < WORDS
    ensures SetWord(b, i, GetWord(b, i)) == b
  {
    var b0: int, b1: int, b2: int, b3: int := b[4 * i], b[4 * i + 1], b[4 * i + 2], b[4 * i + 3];
    WordBytes(b0, b1, b2, b3);
  }

  lemma WordBytes(b0: Byte, b1: Byte, b2: Byte, b3: Byte)
    ensures var w: int := b0 + 0x100 * b1 + 0x1_0000 * b2 + 0x100_0000 * b3;
            && w % 0x100 == b0 && w / 0x100 % 0x100 == b1 && w / 0x1_0000 % 0x100 == b2 && w / 0x100_0000 == b3
  {
    var w2: nat := b2 + 0x100 * b3;
    var w1: nat := b1 + 0x100 * w2;
    var w: nat := b0 + 0x100 * w1;
    LowByte(w2, b3, b2);
    LowByte(w1, w2, b1);
    LowByte(w, w1, b0);
    TwoBytes(w);
    ThreeBytes(w);
  }

  lemma LowByte(w: nat, q: nat, r: Byte)
    requires w == r + 0x100 * q
    ensures w / 0x100 == q && w % 0x100 == r
  {
  }

  lemma TwoBytes(w: nat)
    ensures w / 0x1_0000 == w / 0x100 / 0x100
  {
  }

  lemma ThreeBytes(w: nat)
    ensures w / 0x100_0000 == w / 0x100 / 0x100 / 0x100
  {
  }

  lemma {:induction false} PutSame(b: Block, o: nat, ws: seq<Word>)
    requires o + |ws| <= WORDS && forall j :: 0 <= j < |ws| ==> ws[j] == GetWord(b, o + j)
    ensures PutWords(b, o, ws) == b
    decreases |ws|
  {
    hide GetWord, SetWord;
    if ws != [] {
      var last := |ws| - 1;
      PutSame(b, o, ws[..last]);
      SetSame(b, o + last);
    }
  }

  lemma DinodeSame(b: Block, k: nat)
    requires k < IPB && Storable(Dinode(b, k))
    ensures PutDinode(b, k, Dinode(b, k)) == b
  {
    hide GetWord, PutWords;
    var o, ws := DWORDS * k, DinodeWords(b, k, Dinode(b, k));
    Halves(GetWord(b, o));
    Halves(GetWord(b, o + 1));
    forall j: nat | j < |ws|
      ensures ws[j] == GetWord(b, o + j)
    {
      if j >= 3 {
        assert ws[j] == Dinode(b, k).addrs[j - 3];
      } else if j == 0 {
        assert GetWord(b, o + 0) == GetWord(b, o);
      }
    }
    PutSame(b, o, ws);
  }

  lemma Halves(w: Word)
    ensures w / 0x1_0000 * 0x1_0000 + w % 0x1_0000 == w
  {
  }

  /** A block in which the inodes from first on, n of them, have been stored. */
  function InodeBlock(b: Block, inodes: seq<Inode>, first: nat, n: nat): (r: Block)
    requires AllStorable(inodes) && n <= IPB
  {
    if n == 0 then b
    else if first + n - 1 >= |inodes| then InodeBlock(b, inodes, first, n - 1)
    else PutDinode(InodeBlock(b, inodes, first, n - 1), n - 1, inodes[first + n - 1])
  }

  lemma {:induction false} InodeBlockAt(b: Block, inodes: seq<Inode>, first: nat, n: nat, k: nat)
    requires AllStorable(inodes) && k < n <= IPB && first + k < |inodes|
    ensures Dinode(InodeBlock(b, inodes, first, n), k) == inodes[first + k]
    decreases n
  {
    hide Dinode, PutDinode;
    if first + n - 1 >= |inodes| {
      InodeBlockAt(b, inodes, first, n - 1, k);
    } else {
      DinodeRoundTrip(InodeBlock(b, inodes, first, n - 1), n - 1, inodes[first + n - 1], k);
      if k < n - 1 {
        InodeBlockAt(b, inodes, first, n - 1, k);
      }
    }
  }

  lemma {:induction false} InodeBlockKept(b: Block, inodes: seq<Inode>, first: nat, n: nat)
    requires AllStorable(inodes) && n <= IPB
    requires forall k :: 0 <= k < n && first + k < |inodes| ==> inodes[first + k] == Dinode(b, k)
    ensures InodeBlock(b, inodes, first, n) == b
    decreases n
  {
    hide Dinode, PutDinode;
    if n > 0 {
      InodeBlockKept(b, inodes, first, n - 1);
      if first + n - 1 < |inodes| {
        assert inodes[first + (n - 1)] == Dinode(b, n - 1);
        DinodeSame(b, n - 1);
      }
    }
  }

  /** Blocks depend on the inodes they hold only. */
  lemma {:induction false} InodeBlockSame(b: Block, inodes: seq<Inode>, inodes': seq<Inode>, first: nat, n: nat)
    requires AllStorable(inodes) && AllStorable(inodes') && |inodes| == |inodes'| && n <= IPB
    requires forall k :: first <= k < first + n && k < |inodes| ==> inodes'[k] == inodes[k]
    ensures InodeBlock(b, inodes', first, n) == InodeBlock(b, inodes, first, n)
    decreases n
  {
    hide PutDinode;
    if n > 0 {
      InodeBlockSame(b, inodes, inodes', first, n - 1);
    }
  }

  // ----- the whole disk -----

  predicate HoldsInodes(l: Layout, b: nat) {
    2 <= b < l.ninodes / IPB + 3
  }

  /** The sectors with the on-disk inodes in theirs. */
  function OnDisk(l: Layout, st: Store, inodes: seq<Inode>): (d: Store)
    requires AllStorable(inodes)
    ensures |d| == |st|
  {
    seq(|st|, b requires 0 <= b < |st| =>
          if HoldsInodes(l, b) then InodeBlock(st[b], inodes, (b - 2) * IPB, IPB) else st[b])
  }

  function Decoded(l: Layout, d: Store): (inodes: seq<Inode>)
    requires l.ninodes / IPB + 3 <= |d|
    ensures |inodes| == l.ninodes
  {
    seq(l.ninodes, i requires 0 <= i < l.ninodes => Dinode(d[IBlock(i)], i % IPB))
  }

  lemma DecodedOnDisk(l: Layout, st: Store, inodes: seq<Inode>)
    requires AllStorable(inodes) && |inodes| == l.ninodes && l.ninodes / IPB + 3 <= |st|
    ensures Decoded(l, OnDisk(l, st, inodes)) == inodes
  {
    hide Dinode, InodeBlock;
    var d := OnDisk(l, st, inodes);
    forall i: nat | i < l.ninodes
      ensures Dinode(d[IBlock(i)], i % IPB) == inodes[i]
    {
      var b := IBlock(i);
      assert HoldsInodes(l, b) && (b - 2) * IPB + i % IPB == i;
      InodeBlockAt(st[b], inodes, (b - 2) * IPB, IPB, i % IPB);
    }
    assert forall i :: 0 <= i < l.ninodes ==> Decoded(l, d)[i] == inodes[i];
  }

  /** Storing the inodes of a disk in it changes nothing. */
  lemma OnDiskSame(l: Layout, d: Store)
    requires l.ninodes / IPB + 3 <= |d| && AllStorable(Decoded(l, d))
    ensures OnDisk(l, d, Decoded(l, d)) == d
  {
    hide Dinode, InodeBlock;
    var inodes := Decoded(l, d);
    forall b: nat | HoldsInodes(l, b)
      ensures InodeBlock(d[b], inodes, (b - 2) * IPB, IPB) == d[b]
    {
      forall k | 0 <= k < IPB && (b - 2) * IPB + k < |inodes|
        ensures inodes[(b - 2) * IPB + k] == Dinode(d[b], k)
      {
        assert IBlock((b - 2) * IPB + k) == b && ((b - 2) * IPB + k) % IPB == k;
      }
      InodeBlockKept(d[b], inodes, (b - 2) * IPB, IPB);
    }
  }

  // ----- the invariant of the disk -----

  ghost predicate AllTidy(inodes: seq<Inode>, st: Store) {
    forall i :: 0 <= i < |inodes| ==>
      |inodes[i].addrs| == NDIRECT + 1 && inodes[i].addrs[NDIRECT] < |st| && Tidy(inodes[i], st)
  }

  /** The blocks marked used are the metadata and, disjointly, what the inodes refer to; every inode has exactly the
      blocks below its size, and fits its place on the disk. */
  ghost predicate InOrder(l: Layout, inodes: seq<Inode>, st: Store, owner: map<nat, Place>) {
    Owned(l, inodes, st, owner) && AllStorable(inodes) && AllTidy(inodes, st)
  }

  ghost predicate Sound(l: Layout, d: Store) {
    ValidLayout(l) && |d| == l.size && exists owner :: InOrder(l, Decoded(l, d), d, owner)
  }

  /** What reading a whole file gives, where the inode makes sense. */
  ghost function FileBytes(ino: Inode, st: Store): (c: seq<Byte>) {
    if |ino.addrs| == NDIRECT + 1 && ino.addrs[NDIRECT] < |st| && ino.size <= MAXBYTES then Content(ino, st) else []
  }

  ghost function FilesIn(inodes: seq<Inode>, st: Store): (fs: seq<seq<Byte>>)
    ensures |fs| == |inodes|
  {
    seq(|inodes|, i requires 0 <= i < |inodes| => FileBytes(inodes[i], st))
  }

  /** The contents of all files on a disk. */
  ghost function Files(l: Layout, d: Store): (fs: seq<seq<Byte>>)
    requires l.ninodes / IPB + 3 <= |d|
    ensures |fs| == l.ninodes
  {
    FilesIn(Decoded(l, d), d)
  }

  /** The sectors that hold the bitmap and the data. */
  ghost predicate SameData(l: Layout, st: Store, st': Store) {
    |st'| == |st| && forall b :: l.ninodes / IPB + 3 <= b < l.size - l.nlog && b < |st| ==> st'[b] == st[b]
  }

  /** Ownership depends on the bitmap and on the data blocks only. */
  lemma OwnedElsewhere(l: Layout, inodes: seq<Inode>, st: Store, owner: map<nat, Place>, st': Store)
    requires Owned(l, inodes, st, owner) && SameData(l, st, st')
    ensures Owned(l, inodes, st', owner)
    ensures forall i, p :: 0 <= i < |inodes| && 0 <= p < NPOS ==> AddrAt(inodes[i], st', p) == AddrAt(inodes[i], st, p)
  {
    hide GetWord, BlockBit;
    assert forall b :: b in owner ==> OwnerOk(l, inodes, st, owner[b], b);
    forall b: nat | b < l.size
      ensures Used(l, st', b) <==> Used(l, st, b)
    {
      assert l.ninodes / IPB + 3 <= BBlock(l, b) < DataStart(l);
    }
    AddrStable(l, inodes, st, owner, st');
    hide Used, AddrAt;
    SameAddressesOwned(l, inodes, st, owner, st');
  }

  lemma SameAddressesOwned(l: Layout, inodes: seq<Inode>, st: Store, owner: map<nat, Place>, st': Store)
    requires Owned(l, inodes, st, owner) && |st'| == |st|
    requires forall i, p :: 0 <= i < |inodes| && 0 <= p < NPOS ==> AddrAt(inodes[i], st', p) == AddrAt(inodes[i], st, p)
    requires forall b: nat :: b < l.size ==> (Used(l, st', b) <==> Used(l, st, b))
    ensures Owned(l, inodes, st', owner)
  {
    hide Used, AddrAt;
    forall i, p | 0 <= i < |inodes| && 0 <= p < NPOS && AddrAt(inodes[i], st', p) != 0
      ensures AddrAt(inodes[i], st', p) in owner && owner[AddrAt(inodes[i], st', p)] == Place(i, p)
    {
      assert AddrAt(inodes[i], st', p) == AddrAt(inodes[i], st, p);
    }
    forall b | b in owner
      ensures OwnerOk(l, inodes, st', owner[b], b)
    {
      assert OwnerOk(l, inodes, st, owner[b], b);
    }
  }

  /** So do files. */
  lemma FileElsewhere(l: Layout, inodes: seq<Inode>, st: Store, owner: map<nat, Place>, st': Store, i: nat)
    requires Owned(l, inodes, st, owner) && SameData(l, st, st') && i < |inodes| && Tidy(inodes[i], st)
    ensures Tidy(inodes[i], st') && FileBytes(inodes[i], st') == FileBytes(inodes[i], st)
  {
    hide Used, AddrAt;
    OwnedElsewhere(l, inodes, st, owner, st');
    forall k | 0 <= k < inodes[i].size
      ensures ByteAt(inodes[i], st', k) == ByteAt(inodes[i], st, k)
    {
      BackedByte(inodes[i], st, inodes[i].size, k);
      var a := AddrAt(inodes[i], st, PosOf(k / BSIZE));
      assert a in owner && OwnerOk(l, inodes, st, owner[a], a);
    }
  }

  lemma InOrderElsewhere(l: Layout, inodes: seq<Inode>, st: Store, owner: map<nat, Place>, st': Store)
    requires InOrder(l, inodes, st, owner) && SameData(l, st, st')
    ensures InOrder(l, inodes, st', owner) && FilesIn(inodes, st') == FilesIn(inodes, st)
  {
    hide Owned, Tidy, FileBytes, SameData;
    assert |st'| == |st| by { SameDataSize(l, st, st'); }
    OwnedElsewhere(l, inodes, st, owner, st');
    forall i: nat | i < |inodes|
      ensures |inodes[i].addrs| == NDIRECT + 1 && inodes[i].addrs[NDIRECT] < |st'| && Tidy(inodes[i], st')
      ensures FileBytes(inodes[i], st') == FileBytes(inodes[i], st)
    {
      FileElsewhere(l, inodes, st, owner, st', i);
    }
  }

  lemma SameDataSize(l: Layout, st: Store, st': Store)
    requires SameData(l, st, st')
    ensures |st'| == |st|
  {
  }

  /** Sectors and inodes that satisfy the invariant make a disk that does, with the same files. */
  lemma SoundOnDisk(l: Layout, inodes: seq<Inode>, st: Store, owner: map<nat, Place>)
    requires InOrder(l, inodes, st, owner)
    ensures Sound(l, OnDisk(l, st, inodes)) && Files(l, OnDisk(l, st, inodes)) == FilesIn(inodes, st)
  {
    hide AddrAt, Used, InodeBlock, Dinode, AllTidy;
    var d := OnDisk(l, st, inodes);
    DecodedOnDisk(l, st, inodes);
    InOrderElsewhere(l, inodes, st, owner, d);
  }

  /** The log area is no part of it. */
  lemma SoundSameHome(l: Layout, g: Geometry, d: Store, d': Store)
    requires Sound(l, d) && SameHome(g, d, d') && g.start == l.size - l.nlog
    ensures Sound(l, d') && Files(l, d') == Files(l, d)
  {
    hide InOrder, Dinode;
    var owner :| InOrder(l, Decoded(l, d), d, owner);
    forall b: nat | b < g.start
      ensures d'[b] == d[b]
    {
      assert Home(g, |d|, b);
    }
    assert Decoded(l, d') == Decoded(l, d);
    InOrderElsewhere(l, Decoded(l, d), d, owner, d');
  }
}
