/** The buffer cache of bio.c over the synchronous disk of memide.c. */
module BufferCache {
  import opened Common
  import opened Blocks
  import opened Recency

  const NBUF := 30
  const HEAD := NBUF      // index of bcache.head in the link tables
  const ROOTDEV := 1
  const NODEV := -1

  type Disk = seq<Block>

  datatype Buf = Buf(dev: int, sector: nat, busy: bool, valid: bool, dirty: bool, data: Block)

  predicate Pinned(b: Buf) {
    b.busy || b.dirty
  }

  datatype Got = Held(b: nat) | MustSleep(b: nat) | NoBuffers

  // ----- the doubly linked list -----

  /** The list from head round to head again. */
  ghost function Ring(order: seq<nat>): (r: seq<nat>) {
    [HEAD] + order + [HEAD]
  }

  ghost predicate Linked(next: seq<nat>, prev: seq<nat>, ring: seq<nat>) {
    && (forall i :: 0 <= i < |ring| ==> ring[i] < |next| && ring[i] < |prev|)
    && forall i, j {:trigger ring[i], ring[j]} :: 0 <= i && j == i + 1 && j < |ring| ==>
         next[ring[i]] == ring[j] && prev[ring[j]] == ring[i]
  }

  /** No node is entered twice, nor left twice. */
  ghost predicate Simple(ring: seq<nat>) {
    && (forall i, j :: 0 <= i < j < |ring| - 1 ==> ring[i] != ring[j])
    && (forall i, j :: 1 <= i < j < |ring| ==> ring[i] != ring[j])
  }

  lemma RingSimple(order: seq<nat>)
    requires Permutation(order, NBUF)
    ensures Simple(Ring(order))
  {
  }

  /** Linking b in behind the head. */
  lemma LinkFront(next: seq<nat>, prev: seq<nat>, ring: seq<nat>, b: nat)
    requires Linked(next, prev, ring) && Simple(ring)
    requires |ring| >= 2 && ring[0] == ring[|ring| - 1] == HEAD
    requires b !in ring && b < |next| == |prev|
    ensures Linked(next[b := ring[1]][HEAD := b], prev[b := HEAD][ring[1] := b], [HEAD, b] + ring[1..])
  {
  }

  /** Taking the k-th node of the ring out. */
  lemma Unlink(next: seq<nat>, prev: seq<nat>, ring: seq<nat>, k: nat)
    requires Linked(next, prev, ring) && Simple(ring) && 0 < k < |ring| - 1
    ensures next[ring[k]] == ring[k + 1] && prev[ring[k]] == ring[k - 1]
    ensures Linked(next[ring[k - 1] := ring[k + 1]], prev[ring[k + 1] := ring[k - 1]], ring[..k] + ring[k + 1..])
  {
  }

  /** The six assignments of brelse move b to the front of the list. */
  lemma Relink(next: seq<nat>, prev: seq<nat>, order: seq<nat>, b: nat)
    requires |next| == |prev| == NBUF + 1
    requires Permutation(order, NBUF) && b < NBUF && Linked(next, prev, Ring(order))
    ensures next[b] <= NBUF && prev[b] <= NBUF
    ensures var n1, p1 := next[prev[b] := next[b]], prev[next[b] := prev[b]];
            && n1[HEAD] <= NBUF
            && Linked(n1[b := n1[HEAD]][HEAD := b], p1[b := HEAD][n1[HEAD] := b], Ring(ToFront(order, b)))
  {
    hide Simple, Linked;
    var k := IndexOf(order, b) + 1;
    var ring := Ring(order);
    assert ring[k] == b;
    RingSimple(order);
    Unlink(next, prev, ring, k);
    var r := ring[..k] + ring[k + 1..];
    var n1, p1 := next[prev[b] := next[b]], prev[next[b] := prev[b]];
    SimpleWithout(ring, k);
    LinkFront(n1, p1, r, b);
    FirstLink(n1, p1, r);
    assert [HEAD, b] + r[1..] == Ring(ToFront(order, b));
  }

  lemma FirstLink(next: seq<nat>, prev: seq<nat>, ring: seq<nat>)
    requires Linked(next, prev, ring) && |ring| >= 2
    ensures ring[0] < |next| && next[ring[0]] == ring[1]
  {
  }

  lemma SimpleWithout(ring: seq<nat>, k: nat)
    requires Simple(ring) && 0 < k < |ring| - 1
    ensures Simple(ring[..k] + ring[k + 1..]) && ring[k] !in ring[..k] + ring[k + 1..]
  {
  }

  // ----- buffers against the flat sector map -----

  /** mem is the flat map that the cache presents: what bread returns for each sector.
      slot tells which buffer holds a sector; it is a function, so no sector is held twice. */
  ghost predicate Coherent(disk: Disk, mem: Disk, bufs: seq<Buf>, slot: map<nat, nat>) {
    && |bufs| == NBUF && |mem| == |disk|
    && (forall b :: 0 <= b < NBUF ==> BufOk(mem, bufs[b], slot, b))
    && (forall s :: s in slot ==> slot[s] < NBUF && bufs[slot[s]].dev == ROOTDEV && bufs[slot[s]].sector == s)
    && (forall s :: 0 <= s < |disk| && mem[s] != disk[s] ==> s in slot && Pinned(bufs[slot[s]]) && bufs[slot[s]].valid)
  }

  ghost predicate BufOk(mem: Disk, buf: Buf, slot: map<nat, nat>, b: nat) {
    if buf.dev == NODEV then !buf.busy && !buf.valid && !buf.dirty
    else
      && buf.dev == ROOTDEV
      && buf.sector < |mem|
      && buf.sector in slot && slot[buf.sector] == b
      && (buf.valid ==> buf.data == mem[buf.sector])
      && (buf.dirty ==> buf.valid)
  }

  /** A valid buffer that is neither busy nor dirty equals its disk sector. */
  lemma CleanMeansSynced(disk: Disk, mem: Disk, bufs: seq<Buf>, slot: map<nat, nat>, b: nat)
    requires Coherent(disk, mem, bufs, slot) && b < NBUF
    requires bufs[b].valid && !bufs[b].busy && !bufs[b].dirty
    ensures bufs[b].sector < |disk| && bufs[b].data == disk[bufs[b].sector]
  {
  }

  ghost function BusySet(bufs: seq<Buf>, slot: map<nat, nat>): (r: set<nat>) {
    set s | s in slot && slot[s] < |bufs| && bufs[slot[s]].busy
  }

  ghost function DirtySet(bufs: seq<Buf>, slot: map<nat, nat>): (r: set<nat>) {
    set s | s in slot && slot[s] < |bufs| && bufs[slot[s]].dirty
  }

  ghost function LockedMap(bufs: seq<Buf>, slot: map<nat, nat>): (r: map<nat, nat>)
    ensures forall s :: s in r ==> r[s] < |bufs|
  {
    map s | s in slot && slot[s] < |bufs| && bufs[slot[s]].busy :: slot[s]
  }

  ghost predicate LoadedIn(bufs: seq<Buf>, slot: map<nat, nat>, b: nat, s: nat) {
    s in slot && slot[s] == b && b < |bufs| && bufs[b].busy && bufs[b].valid
  }

  /** Changing the flags of the buffer that holds sector s. */
  lemma FlagSets(bufs: seq<Buf>, slot: map<nat, nat>, s: nat, buf: Buf)
    requires s in slot && slot[s] < |bufs|
    requires forall t :: t in slot && slot[t] == slot[s] ==> t == s
    ensures var bufs' := bufs[slot[s] := buf];
            && BusySet(bufs', slot) == (if buf.busy then BusySet(bufs, slot) + {s} else BusySet(bufs, slot) - {s})
            && DirtySet(bufs', slot) == (if buf.dirty then DirtySet(bufs, slot) + {s} else DirtySet(bufs, slot) - {s})
            && LockedMap(bufs', slot) ==
               (if buf.busy then LockedMap(bufs, slot)[s := slot[s]] else LockedMap(bufs, slot) - {s})
  {
  }

  ghost predicate InBusy(bufs: seq<Buf>, slot: map<nat, nat>, t: nat) {
    t in slot && slot[t] < |bufs| && bufs[slot[t]].busy
  }

  ghost predicate InDirty(bufs: seq<Buf>, slot: map<nat, nat>, t: nat) {
    t in slot && slot[t] < |bufs| && bufs[slot[t]].dirty
  }

  /** A buffer holds one sector. */
  ghost predicate Injective(bufs: seq<Buf>, slot: map<nat, nat>) {
    forall t :: t in slot ==> slot[t] < |bufs| && bufs[slot[t]].dev == ROOTDEV && bufs[slot[t]].sector == t
  }

  lemma SetsSame(bufs0: seq<Buf>, slot0: map<nat, nat>, bufs1: seq<Buf>, slot1: map<nat, nat>, s: nat)
    requires forall t :: InBusy(bufs1, slot1, t) <==> InBusy(bufs0, slot0, t) || t == s
    requires forall t :: InDirty(bufs1, slot1, t) <==> InDirty(bufs0, slot0, t)
    ensures BusySet(bufs1, slot1) == BusySet(bufs0, slot0) + {s}
    ensures DirtySet(bufs1, slot1) == DirtySet(bufs0, slot0)
  {
    forall t
      ensures t in BusySet(bufs0, slot0) <==> InBusy(bufs0, slot0, t)
      ensures t in BusySet(bufs1, slot1) <==> InBusy(bufs1, slot1, t)
      ensures t in DirtySet(bufs0, slot0) <==> InDirty(bufs0, slot0, t)
      ensures t in DirtySet(bufs1, slot1) <==> InDirty(bufs1, slot1, t)
    {
    }
  }

  /** What bread can tell about sector s before it starts. */
  lemma BreadStart(disk: Disk, mem: Disk, bufs: seq<Buf>, slot: map<nat, nat>, s: nat)
    requires Coherent(disk, mem, bufs, slot)
    ensures |bufs| == NBUF && Injective(bufs, slot) && forall b :: 0 <= b < NBUF ==> BufOk(mem, bufs[b], slot, b)
    ensures s in BusySet(bufs, slot) <==> InBusy(bufs, slot, s)
    ensures s in DirtySet(bufs, slot) ==> s in slot
    ensures AllPinned(bufs) <==> |BusySet(bufs, slot) + DirtySet(bufs, slot)| >= NBUF
  {
    hide BufOk;
    PinnedExactly(disk, mem, bufs, slot);
  }

  lemma HeldOk(disk: Disk, mem: Disk, bufs: seq<Buf>, slot: map<nat, nat>, b: nat)
    requires Coherent(disk, mem, bufs, slot) && b < NBUF
    ensures |bufs| == NBUF && BufOk(mem, bufs[b], slot, b)
  {
  }

  ghost predicate AllPinned(bufs: seq<Buf>) {
    forall b :: 0 <= b < |bufs| ==> Pinned(bufs[b])
  }

  /** slot after buffer b, which held old, has been given sector s. */
  ghost function Remap(slot: map<nat, nat>, old_: Buf, s: nat, b: nat): (r: map<nat, nat>) {
    (if old_.dev == ROOTDEV then slot - {old_.sector} else slot)[s := b]
  }

  lemma {:induction false} SectorsOfPrefix(mem: Disk, bufs: seq<Buf>, slot: map<nat, nat>, k: nat)
    requires k <= |bufs|
    requires forall b :: 0 <= b < |bufs| ==> BufOk(mem, bufs[b], slot, b)
    requires forall b :: 0 <= b < k ==> Pinned(bufs[b])
    ensures |set b | 0 <= b < k :: bufs[b].sector| == k
  {
    if k > 0 {
      SectorsOfPrefix(mem, bufs, slot, k - 1);
      var all, rest := set b | 0 <= b < k :: bufs[b].sector, set b | 0 <= b < k - 1 :: bufs[b].sector;
      assert BufOk(mem, bufs[k - 1], slot, k - 1);
      assert bufs[k - 1].sector !in rest by {
        forall b | 0 <= b < k - 1
          ensures bufs[b].sector != bufs[k - 1].sector
        {
          assert BufOk(mem, bufs[b], slot, b);
        }
      }
      assert all == rest + {bufs[k - 1].sector};
    }
  }

  /** With fewer than NBUF sectors pinned, some buffer can be recycled. */
  lemma UnpinnedExists(disk: Disk, mem: Disk, bufs: seq<Buf>, slot: map<nat, nat>)
    requires Coherent(disk, mem, bufs, slot)
    requires |BusySet(bufs, slot) + DirtySet(bufs, slot)| < NBUF
    ensures exists b :: 0 <= b < NBUF && !Pinned(bufs[b])
  {
    if forall b :: 0 <= b < NBUF ==> Pinned(bufs[b]) {
      SectorsOfPrefix(mem, bufs, slot, NBUF);
      var all := set b | 0 <= b < NBUF :: bufs[b].sector;
      assert all <= BusySet(bufs, slot) + DirtySet(bufs, slot) by {
        forall b | 0 <= b < NBUF
          ensures bufs[b].sector in BusySet(bufs, slot) + DirtySet(bufs, slot)
        {
          assert BufOk(mem, bufs[b], slot, b);
        }
      }
      SubsetSize(all, BusySet(bufs, slot) + DirtySet(bufs, slot));
      assert false;
    }
  }

  lemma {:induction false} SectorsAtMost(bufs: seq<Buf>, some: set<nat>)
    requires forall b :: b in some ==> b < |bufs|
    ensures |set b | b in some :: bufs[b].sector| <= |some|
    decreases |some|
  {
    if some != {} {
      var x :| x in some;
      SectorsAtMost(bufs, some - {x});
      assert (set b | b in some :: bufs[b].sector) == (set b | b in some - {x} :: bufs[b].sector) + {bufs[x].sector};
    }
  }

  /** The numbers below n. */
  ghost function Upto(n: nat): (r: set<nat>)
    ensures |r| == n && forall b: nat :: b in r <==> b < n
  {
    if n == 0 then {} else Upto(n - 1) + {n - 1}
  }

  /** Every buffer is pinned exactly when NBUF sectors are. */
  lemma PinnedExactly(disk: Disk, mem: Disk, bufs: seq<Buf>, slot: map<nat, nat>)
    requires Coherent(disk, mem, bufs, slot)
    ensures AllPinned(bufs) <==> |BusySet(bufs, slot) + DirtySet(bufs, slot)| >= NBUF
  {
    hide Upto;
    var all := BusySet(bufs, slot) + DirtySet(bufs, slot);
    if |all| < NBUF {
      UnpinnedExists(disk, mem, bufs, slot);
    }
    if c :| 0 <= c < NBUF && !Pinned(bufs[c]) {
      var some := Upto(NBUF) - {c};
      SectorsAtMost(bufs, some);
      var sectors := set b | b in some :: bufs[b].sector;
      forall s | s in all
        ensures s in sectors
      {
        assert slot[s] in some && bufs[slot[s]].sector == s;
      }
      SubsetSize(all, sectors);
    }
  }

  ghost function InitialOrder(): (r: seq<nat>) {
    seq(NBUF, i requires 0 <= i < NBUF => NBUF - 1 - i)
  }

  lemma InitialPermutation()
    ensures Permutation(InitialOrder(), NBUF)
  {
    forall b: nat | b < NBUF
      ensures b in InitialOrder()
    {
      assert InitialOrder()[NBUF - 1 - b] == b;
    }
  }

  class Bcache {
    var disk: Disk
    var bufs: seq<Buf>
    var next: seq<nat>
    var prev: seq<nat>
    ghost var order: seq<nat>
    ghost var releases: seq<nat>
    ghost var mem: Disk
    ghost var slot: map<nat, nat>
    ghost var trace: seq<Disk>    // the disk after each sector write so far

    ghost predicate ValidList()
      reads this
    {
      && |next| == |prev| == NBUF + 1
      && Permutation(order, NBUF)
      && Linked(next, prev, Ring(order))
      && (forall i :: 0 <= i < |releases| ==> releases[i] < NBUF)
      && Permutation(InitialOrder(), NBUF)
      && order == After(InitialOrder(), releases)
    }

    ghost predicate Valid()
      reads this
    {
      ValidList() && Coherent(disk, mem, bufs, slot)
    }

    ghost function Busy(): (r: set<nat>)
      reads this
    {
      BusySet(bufs, slot)
    }

    ghost function Dirty(): (r: set<nat>)
      reads this
    {
      DirtySet(bufs, slot)
    }

    /** The locked sectors and the buffers their holders were given. */
    ghost function Locked(): (r: map<nat, nat>)
      reads this
    {
      LockedMap(bufs, slot)
    }

    /** b was returned by a bread of sector s and has not been released. */
    ghost predicate Loaded(b: nat, s: nat)
      reads this
    {
      LoadedIn(bufs, slot, b, s)
    }

    lemma Sizes()
      requires Valid()
      ensures |mem| == |disk|
    {
    }

    /** A sector that is neither locked nor dirty is the same in the flat map and on the disk. */
    lemma Synced(s: nat)
      requires Valid() && s < |disk| && s !in Busy() && s !in Dirty()
      ensures |mem| == |disk| && mem[s] == disk[s]
    {
    }

    /** binit. */
    constructor (image: Disk)
      ensures Valid() && disk == image && mem == image && trace == [] && Busy() == {} && Dirty() == {}
    {
      disk := image;
      bufs := seq(NBUF, _ => Buf(NODEV, 0, false, false, false, Zero()));
      mem, slot, trace, releases := image, map[], [], [];
      var nx: seq<nat>, pv: seq<nat> := seq(NBUF + 1, _ => HEAD), seq(NBUF + 1, _ => HEAD);
      ghost var ord: seq<nat> := [];
      var b: nat := 0;
      while b < NBUF
        invariant 0 <= b <= NBUF && |nx| == |pv| == NBUF + 1
        invariant ord == seq(b, i requires 0 <= i < b => b - 1 - i)
        invariant Linked(nx, pv, Ring(ord))
      {
        LinkFront(nx, pv, Ring(ord), b);
        assert [HEAD, b] + Ring(ord)[1..] == Ring([b] + ord);
        assert nx[HEAD] == Ring(ord)[1] by { assert Ring(ord)[0] == HEAD; }
        var first: nat := nx[HEAD];
        nx := nx[b := first];
        pv := pv[b := HEAD];
        pv := pv[first := b];
        nx := nx[HEAD := b];
        ord := [b] + ord;
        b := b + 1;
      }
      next, prev := nx, pv;
      order := ord;
      InitialPermutation();
    }

    /** bget, up to the point where it returns, sleeps or panics: all under bcache.lock. */
    method Bget(s: nat) returns (r: Got)
      requires Valid() && s < |disk|
      modifies this`bufs, this`slot
      ensures Valid()
      ensures s in old(slot) && !old(bufs[slot[s]].busy) ==>
                && r == Held(old(slot[s])) && slot == old(slot)
                && bufs == old(bufs)[r.b := old(bufs)[r.b].(busy := true)]
      ensures s in old(slot) && old(bufs[slot[s]].busy) ==>
                r == MustSleep(old(slot[s])) && slot == old(slot) && bufs == old(bufs)
      ensures s !in old(slot) ==> !r.MustSleep?
      ensures s !in old(slot) && r.Held? ==>
                && r.b < NBUF && !Pinned(old(bufs)[r.b])
                && slot == Remap(old(slot), old(bufs)[r.b], s, r.b)
                && bufs == old(bufs)[r.b := Buf(ROOTDEV, s, true, false, false, old(bufs)[r.b].data)]
                && (forall c :: 0 <= c < NBUF && !Pinned(old(bufs)[c]) && c != r.b ==> MoreRecent(releases, c, r.b))
      ensures r.NoBuffers? <==> s !in old(slot) && (forall c :: 0 <= c < NBUF ==> Pinned(old(bufs)[c]))
      ensures r.NoBuffers? ==> slot == old(slot) && bufs == old(bufs)
    {
      ghost var ring := Ring(order);
      assert ring[0] == ring[NBUF + 1] == HEAD;
      var b := next[HEAD];
      ghost var k := 1;
      while b != HEAD
        invariant 1 <= k <= NBUF + 1 && b == ring[k]
        invariant forall i :: 1 <= i < k ==> !(bufs[ring[i]].dev == ROOTDEV && bufs[ring[i]].sector == s)
        decreases NBUF + 1 - k
      {
        assert ring[k] == order[k - 1];
        assert BufOk(mem, bufs[b], slot, b);
        if bufs[b].dev == ROOTDEV && bufs[b].sector == s {
          if !bufs[b].busy {
            bufs := bufs[b := bufs[b].(busy := true)];
            return Held(b);
          }
          return MustSleep(b);
        }
        assert ring[k + 1] == next[b];
        b := next[b];
        k := k + 1;
      }
      assert s !in slot by {
        forall t | t in slot
          ensures t != s
        {
          var i := IndexOf(order, slot[t]);
          assert ring[i + 1] == slot[t];
        }
      }
      b := Recycle(s);
      if b == HEAD {
        return NoBuffers;
      }
      return Held(b);
    }

    /** The second loop of bget: from the tail towards the head, the first clean idle buffer. */
    method Recycle(s: nat) returns (b: nat)
      requires Valid() && s < |disk| && s !in slot
      modifies this`bufs, this`slot
      ensures Valid()
      ensures b == HEAD ==> slot == old(slot) && bufs == old(bufs)
      ensures b == HEAD <==> forall c :: 0 <= c < NBUF ==> Pinned(old(bufs)[c])
      ensures b != HEAD ==>
                && b < NBUF && !Pinned(old(bufs)[b])
                && slot == Remap(old(slot), old(bufs)[b], s, b)
                && bufs == old(bufs)[b := Buf(ROOTDEV, s, true, false, false, old(bufs)[b].data)]
                && (forall c :: 0 <= c < NBUF && !Pinned(old(bufs)[c]) && c != b ==> MoreRecent(releases, c, b))
    {
      ghost var ring := Ring(order);
      assert ring[0] == ring[NBUF + 1] == HEAD;
      b := prev[HEAD];
      ghost var k := NBUF;
      while b != HEAD
        invariant 0 <= k <= NBUF && b == ring[k]
        invariant forall i :: k <= i < NBUF ==> Pinned(bufs[order[i]])
        decreases k
      {
        assert ring[k] == order[k - 1];
        if !bufs[b].busy && !bufs[b].dirty {
          LeastRecent(k - 1);
          RecycleCoherent(b, s);
          slot := Remap(slot, bufs[b], s, b);
          bufs := bufs[b := Buf(ROOTDEV, s, true, false, false, bufs[b].data)];
          return;
        }
        assert ring[k - 1] == prev[b];
        b := prev[b];
        k := k - 1;
      }
      forall c | 0 <= c < NBUF
        ensures Pinned(bufs[c])
      {
        var i := IndexOf(order, c);
      }
    }

    /** Every idle clean buffer other than the k-th, if all behind it are pinned, is more recent. */
    lemma LeastRecent(k: nat)
      requires ValidList() && |bufs| == NBUF && k < NBUF
      requires forall i :: k < i < NBUF ==> Pinned(bufs[order[i]])
      ensures forall c :: 0 <= c < NBUF && !Pinned(bufs[c]) && c != order[k] ==> MoreRecent(releases, c, order[k])
    {
      NearerIsMoreRecent(InitialOrder(), releases);
      hide After;
      hide LastRelease;
      hide MoreRecent;
      hide IndexOf;
      forall c | 0 <= c < NBUF && !Pinned(bufs[c]) && c != order[k]
        ensures MoreRecent(releases, c, order[k])
      {
        var i := IndexOf(order, c);
        assert i < k;
      }
    }

    lemma RecycleCoherent(b: nat, s: nat)
      requires Valid() && s < |disk| && s !in slot && b < NBUF && !Pinned(bufs[b])
      ensures Coherent(disk, mem, bufs[b := Buf(ROOTDEV, s, true, false, false, bufs[b].data)],
              Remap(slot, bufs[b], s, b))
    {
      assert BufOk(mem, bufs[b], slot, b);
      var slot' := Remap(slot, bufs[b], s, b);
      var bufs' := bufs[b := Buf(ROOTDEV, s, true, false, false, bufs[b].data)];
      forall c | 0 <= c < NBUF
        ensures BufOk(mem, bufs'[c], slot', c)
      {
        assert BufOk(mem, bufs[c], slot, c);
      }
    }

    /** memide.c's iderw. */
    method Iderw(b: nat)
      requires Valid() && b < NBUF && bufs[b].busy && (bufs[b].dirty || !bufs[b].valid)
      modifies this`bufs, this`disk, this`trace
      ensures Valid() && bufs[b].busy && bufs[b].valid && !bufs[b].dirty && bufs[b].sector == old(bufs[b].sector)
      ensures bufs == old(bufs)[b := bufs[b]]
      ensures old(bufs[b].dirty) ==>
                && bufs[b].data == old(bufs[b].data)
                && disk == old(disk)[bufs[b].sector := bufs[b].data] && trace == old(trace) + [disk]
      ensures !old(bufs[b].dirty) ==> disk == old(disk) && trace == old(trace)
    {
      assert BufOk(mem, bufs[b], slot, b);
      var s := bufs[b].sector;
      if bufs[b].dirty {
        bufs := bufs[b := bufs[b].(dirty := false)];
        disk := disk[s := bufs[b].data];
        trace := trace + [disk];
      } else {
        bufs := bufs[b := bufs[b].(data := disk[s])];
      }
      bufs := bufs[b := bufs[b].(valid := true)];
      assert forall c :: 0 <= c < NBUF && c != b ==> BufOk(mem, old(bufs)[c], slot, c);
    }

    /** bread: whatever was evicted meanwhile, the data is that of the flat map. */
    method Bread(s: nat) returns (r: Got)
      requires Valid() && s < |disk|
      modifies this`bufs, this`slot, this`disk, this`trace
      ensures Valid() && disk == old(disk) && trace == old(trace)
      ensures r.NoBuffers? <==> s !in old(slot) && old(AllPinned(bufs))
      ensures r.MustSleep? <==> s in old(Busy())
      ensures r.NoBuffers? <==> s !in old(slot) && |old(Busy() + Dirty())| >= NBUF
      ensures s !in old(Busy()) && (s in old(Dirty()) || |old(Busy() + Dirty())| < NBUF) ==> r.Held?
      ensures r.Held? ==> Locked() == old(Locked())[s := r.b] && Busy() == old(Busy()) + {s} && Dirty() == old(Dirty())
      ensures r.Held? ==> Loaded(r.b, s)
      ensures forall b, t :: old(Loaded(b, t)) ==> Loaded(b, t)
      ensures !r.Held? ==> bufs == old(bufs) && slot == old(slot)
    {
      hide MoreRecent, ValidList, BusySet, DirtySet, LockedMap, Coherent;
      ghost var before := bufs;
      BreadStart(disk, mem, bufs, slot, s);
      r := Bget(s);
      if r.Held? {
        HeldOk(disk, mem, bufs, slot, r.b);
        if !bufs[r.b].valid {
          Iderw(r.b);
        }
        assert bufs == before[r.b := bufs[r.b]];
        BreadSets(before, old(slot), bufs, slot, r.b, s);
      }
    }

    lemma BreadSets(bufs0: seq<Buf>, slot0: map<nat, nat>, bufs1: seq<Buf>, slot1: map<nat, nat>, b: nat, s: nat)
      requires b < NBUF && |bufs0| == |bufs1| == NBUF && BufOk(mem, bufs0[b], slot0, b) && Injective(bufs0, slot0)
      requires bufs1 == bufs0[b := bufs1[b]] && bufs1[b].busy
      requires if s in slot0 then slot0[s] == b && slot1 == slot0 && bufs1[b].dirty == bufs0[b].dirty && !bufs0[b].busy
               else !Pinned(bufs0[b]) && slot1 == Remap(slot0, bufs0[b], s, b) && !bufs1[b].dirty
      ensures BusySet(bufs1, slot1) == BusySet(bufs0, slot0) + {s}
      ensures DirtySet(bufs1, slot1) == DirtySet(bufs0, slot0)
      ensures LockedMap(bufs1, slot1) == LockedMap(bufs0, slot0)[s := b]
      ensures forall c, t :: LoadedIn(bufs0, slot0, c, t) ==> LoadedIn(bufs1, slot1, c, t)
    {
      hide Remap, BufOk, Injective, InDirty;
      forall t
        ensures InBusy(bufs1, slot1, t) <==> InBusy(bufs0, slot0, t) || t == s
        ensures InDirty(bufs1, slot1, t) <==> InDirty(bufs0, slot0, t)
        ensures InBusy(bufs0, slot0, t) && t != s ==> slot1[t] == slot0[t]
        ensures s in slot1 && slot1[s] == b
      {
        BreadOne(bufs0, slot0, bufs1, slot1, b, s, t);
      }
      SetsSame(bufs0, slot0, bufs1, slot1, s);
    }

    /** Sector t after a bread of sector s into buffer b. */
    lemma BreadOne(bufs0: seq<Buf>, slot0: map<nat, nat>, bufs1: seq<Buf>, slot1: map<nat, nat>, b: nat, s: nat, t: nat)
      requires b < NBUF && |bufs0| == |bufs1| == NBUF && BufOk(mem, bufs0[b], slot0, b) && Injective(bufs0, slot0)
      requires bufs1 == bufs0[b := bufs1[b]] && bufs1[b].busy
      requires if s in slot0 then slot0[s] == b && slot1 == slot0 && bufs1[b].dirty == bufs0[b].dirty && !bufs0[b].busy
               else !Pinned(bufs0[b]) && slot1 == Remap(slot0, bufs0[b], s, b) && !bufs1[b].dirty
      ensures InBusy(bufs1, slot1, t) <==> InBusy(bufs0, slot0, t) || t == s
      ensures InDirty(bufs1, slot1, t) <==> InDirty(bufs0, slot0, t)
      ensures InBusy(bufs0, slot0, t) && t != s ==> slot1[t] == slot0[t]
      ensures s in slot1 && slot1[s] == b
      ensures LoadedIn(bufs0, slot0, b, t) ==> t == s
    {
    }

    /** The holder reads b->data. */
    function Data(b: nat, ghost s: nat): (data: Block)
      requires Valid() && Loaded(b, s)
      reads this
      ensures s < |mem| && data == mem[s]
    {
      assert BufOk(mem, bufs[b], slot, b);
      bufs[b].data
    }

    lemma ModifyCoherent(b: nat, data: Block, s: nat)
      requires Valid() && Loaded(b, s)
      ensures s in slot && slot[s] == b < |bufs| && bufs[b].sector == s < |mem|
      ensures forall t :: t in slot && slot[t] == slot[s] ==> t == s
      ensures Coherent(disk, mem[s := data], bufs[b := bufs[b].(data := data)], slot)
      ensures bufs[b].dirty <==> s in Dirty()
      ensures s in Busy() && s in Locked() && Locked()[s] == b
    {
      assert BufOk(mem, bufs[b], slot, b);
      assert forall c :: 0 <= c < NBUF && c != b ==> BufOk(mem, bufs[c], slot, c);
    }

    /** The holder overwrites b->data. */
    method Modify(b: nat, data: Block, ghost s: nat)
      requires Valid() && Loaded(b, s)
      modifies this`bufs, this`mem
      ensures Valid() && s < |old(mem)| && mem == old(mem)[s := data]
      ensures Locked() == old(Locked()) && Busy() == old(Busy()) && Dirty() == old(Dirty())
      ensures forall b, t :: old(Loaded(b, t)) ==> Loaded(b, t)
    {
      hide BusySet, DirtySet, LockedMap, Coherent, After, Linked, Permutation;
      ModifyCoherent(b, data, s);
      FlagSets(bufs, slot, s, bufs[b].(data := data));
      bufs := bufs[b := bufs[b].(data := data)];
      mem := mem[bufs[b].sector := data];
      assert old(Locked())[s := b] == old(Locked()) && old(Busy()) + {s} == old(Busy());
      assert s in old(Dirty()) ==> old(Dirty()) + {s} == old(Dirty());
      assert s !in old(Dirty()) ==> old(Dirty()) - {s} == old(Dirty());
    }

    /** The pinning part of log_write: b->flags |= B_DIRTY. */
    method MarkDirty(b: nat, ghost s: nat)
      requires Valid() && Loaded(b, s)
      modifies this`bufs
      ensures Valid() && Locked() == old(Locked()) && Busy() == old(Busy()) && Dirty() == old(Dirty()) + {s}
      ensures forall b, t :: old(Loaded(b, t)) ==> Loaded(b, t)
      ensures b < |bufs| && bufs[b].dirty
    {
      assert BufOk(mem, bufs[b], slot, b);
      bufs := bufs[b := bufs[b].(dirty := true)];
      assert forall c :: 0 <= c < NBUF && c != b ==> BufOk(mem, old(bufs)[c], slot, c);
    }

    /** bwrite. */
    method Bwrite(b: nat, ghost s: nat)
      requires Valid() && Loaded(b, s)
      modifies this`bufs, this`disk, this`trace
      ensures Valid() && s < |mem| == |old(disk)|
      ensures disk == old(disk)[s := mem[s]] && trace == old(trace) + [disk]
      ensures Locked() == old(Locked()) && Busy() == old(Busy()) && Dirty() == old(Dirty()) - {s}
      ensures forall b, t :: old(Loaded(b, t)) ==> Loaded(b, t)
    {
      MarkDirty(b, s);
      assert BufOk(mem, bufs[b], slot, b);
      ghost var before := bufs;
      Iderw(b);
      FlagSets(before, slot, s, bufs[b]);
    }

    /** brelse. A changed buffer must have been given to bwrite or log_write first. */
    method Brelse(b: nat, ghost s: nat)
      requires Valid() && Loaded(b, s)
      requires s in Dirty() || (s < |mem| == |disk| && mem[s] == disk[s])
      modifies this`bufs, this`next, this`prev, this`order, this`releases
      ensures Valid() && b in old(order)
      ensures order == ToFront(old(order), b) && releases == old(releases) + [b]
      ensures Locked() == old(Locked()) - {s} && Busy() == old(Busy()) - {s} && Dirty() == old(Dirty())
      ensures forall c, t :: t != s && old(Loaded(c, t)) ==> Loaded(c, t)
    {
      hide Coherent, ToFront, BusySet, DirtySet, LockedMap;
      ReleaseCoherent(b, s);
      FlagSets(bufs, slot, s, bufs[b].(busy := false));
      bufs := bufs[b := bufs[b].(busy := false)];
      MoveToFront(b);
    }

    lemma ReleaseCoherent(b: nat, s: nat)
      requires Valid() && Loaded(b, s)
      requires s in Dirty() || (s < |mem| == |disk| && mem[s] == disk[s])
      ensures b < NBUF == |bufs| && bufs[b].sector == s
      ensures Coherent(disk, mem, bufs[b := bufs[b].(busy := false)], slot)
      ensures s in slot && slot[s] == b && (bufs[b].dirty <==> s in Dirty())
      ensures forall t :: t in slot && slot[t] == slot[s] ==> t == s
    {
    }

    /** The relinking part of brelse. */
    method MoveToFront(b: nat)
      requires ValidList() && b < NBUF
      modifies this`next, this`prev, this`order, this`releases
      ensures ValidList() && b in old(order)
      ensures order == ToFront(old(order), b) && releases == old(releases) + [b]
    {
      Relink(next, prev, order, b);
      prev := prev[next[b] := prev[b]];
      next := next[prev[b] := next[b]];
      next := next[b := next[HEAD]];
      prev := prev[b := HEAD];
      prev := prev[next[b] := b];
      next := next[HEAD := b];
      ToFrontAt(order, b, NBUF);
      order := ToFront(order, b);
      releases := releases + [b];
      assert releases[..|releases| - 1] == old(releases);
    }
  }
}
