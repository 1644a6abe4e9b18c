/** vm.c and kalloc.c: two-level page tables kept in page frames, seen as values. Frames are numbered; a virtual page
    is given by its directory index i and its table index j. */
module PageTables {

  const NPDENTRIES := 1024
  const NPTENTRIES := 1024
  const USERPDES := 512            // directory entries below KERNBASE

  /** A page table or directory entry. */
  datatype Entry = Entry(present: bool, frame: nat, flags: nat)

  /** How the kernel uses a frame: as bytes, or as a table of entries. */
  datatype Frame = Bytes(data: seq<int>) | Table(es: seq<Entry>)

  type Memory = map<nat, Frame>

  const NONE := Entry(false, 0, 0)

  function Zeroed(): (f: Frame) {
    Table(seq(NPTENTRIES, _ => NONE))
  }

  predicate IsTable(m: Memory, f: nat) {
    f in m && m[f].Table? && |m[f].es| == NPTENTRIES
  }

  predicate IsBytes(m: Memory, f: nat) {
    f in m && m[f].Bytes?
  }

  predicate HasTable(m: Memory, d: nat, i: nat) {
    IsTable(m, d) && i < NPDENTRIES && m[d].es[i].present
  }

  /** The page table entry for (i, j), absent when there is no page table. */
  function Pte(m: Memory, d: nat, i: nat, j: nat): (e: Entry) {
    if HasTable(m, d, i) && IsTable(m, m[d].es[i].frame) && j < NPTENTRIES then m[m[d].es[i].frame].es[j] else NONE
  }

  ghost predicate Mapped(m: Memory, d: nat, i: nat, j: nat) {
    i < USERPDES && j < NPTENTRIES && Pte(m, d, i, j).present
  }

  // ----- what the hardware lets a process do -----

  const PTE_W := 2
  const PTE_U := 4

  predicate Bit(flags: nat, b: nat)
    requires b > 0
  {
    flags / b % 2 == 1
  }

  /** Page (i, j) is there, and both levels of the table allow b: PTE_W, to write, or PTE_U, to access in user mode. */
  ghost predicate Allows(m: Memory, d: nat, i: nat, j: nat, b: nat)
    requires b > 0
  {
    HasTable(m, d, i) && Pte(m, d, i, j).present && Bit(m[d].es[i].flags, b) && Bit(Pte(m, d, i, j).flags, b)
  }

  /** Directory d and its page tables are intact, the directory withholds nothing, and no user frame is mapped twice. */
  ghost predicate Sound(m: Memory, d: nat) {
    && IsTable(m, d)
    && (forall i :: 0 <= i < NPDENTRIES && m[d].es[i].present ==>
         IsTable(m, m[d].es[i].frame) && m[d].es[i].frame != d && m[d].es[i].flags == 7)
    && (forall i, k :: 0 <= i < k < NPDENTRIES && m[d].es[i].present && m[d].es[k].present ==>
         m[d].es[i].frame != m[d].es[k].frame)
    && (forall i, j :: Mapped(m, d, i, j) ==> IsBytes(m, Pte(m, d, i, j).frame))
    && (forall i, j, k, l ::
          Mapped(m, d, i, j) && Mapped(m, d, k, l) && Pte(m, d, i, j).frame == Pte(m, d, k, l).frame ==>
            i == k && j == l)
  }

  /** So the page table entry alone decides. */
  lemma PteDecides(m: Memory, d: nat, i: nat, j: nat, b: nat)
    requires Sound(m, d) && (b == PTE_W || b == PTE_U)
    ensures Allows(m, d, i, j, b) <==> Pte(m, d, i, j).present && Bit(Pte(m, d, i, j).flags, b)
  {
  }

  ghost predicate IsTableOf(m: Memory, d: nat, f: nat) {
    IsTable(m, d) && exists i :: 0 <= i < NPDENTRIES && m[d].es[i].present && m[d].es[i].frame == f
  }

  ghost predicate IsPageOf(m: Memory, d: nat, f: nat) {
    exists i, j :: Mapped(m, d, i, j) && Pte(m, d, i, j).frame == f
  }

  /** Frame f belongs to the address space of d: the directory, a page table, or a user page. */
  ghost predicate Owns(m: Memory, d: nat, f: nat) {
    f == d || IsTableOf(m, d, f) || IsPageOf(m, d, f)
  }

  /** The free list has no duplicates, and nothing on it belongs to d. */
  ghost predicate FreeOk(m: Memory, free: seq<nat>, d: nat) {
    && (forall i, k :: 0 <= i < k < |free| ==> free[i] != free[k])
    && (forall i :: 0 <= i < |free| ==> IsBytes(m, free[i]) && !Owns(m, d, free[i]))
  }

  // ----- a new page table -----

  ghost function WithTable(m: Memory, d: nat, i: nat, t: nat): (r: Memory)
    requires IsTable(m, d) && i < NPDENTRIES
  {
    m[t := Zeroed()][d := Table(m[d].es[i := Entry(true, t, 7)])]
  }

  lemma TablePtes(m: Memory, d: nat, i: nat, t: nat, k: nat, l: nat)
    requires Sound(m, d) && i < NPDENTRIES && !HasTable(m, d, i) && IsBytes(m, t) && !Owns(m, d, t)
    ensures Pte(WithTable(m, d, i, t), d, k, l) == Pte(m, d, k, l)
  {
  }

  /** Where an address space is the same page by page. */
  ghost predicate SamePtes(m: Memory, m': Memory, d: nat) {
    forall k: nat, l: nat :: Pte(m', d, k, l) == Pte(m, d, k, l)
  }

  lemma SamePages(m: Memory, m': Memory, d: nat, f: nat)
    requires SamePtes(m, m', d)
    ensures IsPageOf(m', d, f) <==> IsPageOf(m, d, f)
  {
  }

  lemma TableSound(m: Memory, d: nat, i: nat, t: nat)
    requires Sound(m, d) && i < NPDENTRIES && !HasTable(m, d, i) && IsBytes(m, t) && !Owns(m, d, t)
    ensures Sound(WithTable(m, d, i, t), d) && SamePtes(m, WithTable(m, d, i, t), d)
  {
    hide Pte;
    var m' := WithTable(m, d, i, t);
    assert IsTable(m', d) && m'[d].es == m[d].es[i := Entry(true, t, 7)];
    forall k: nat, l: nat
      ensures Pte(m', d, k, l) == Pte(m, d, k, l)
      ensures Mapped(m', d, k, l) ==> Mapped(m, d, k, l) && Pte(m, d, k, l).frame != t
    {
      TablePtes(m, d, i, t, k, l);
    }
    forall k | 0 <= k < NPDENTRIES && m[d].es[k].present
      ensures m[d].es[k].frame != t
    {
    }
  }

  lemma TableOwns(m: Memory, d: nat, i: nat, t: nat, f: nat)
    requires Sound(m, d) && i < NPDENTRIES && !HasTable(m, d, i) && IsBytes(m, t) && !Owns(m, d, t)
    ensures Owns(WithTable(m, d, i, t), d, f) <==> Owns(m, d, f) || f == t
  {
    hide Pte, Mapped, IsPageOf;
    var m' := WithTable(m, d, i, t);
    TableSound(m, d, i, t);
    SamePages(m, m', d, f);
    assert m'[d].es == m[d].es[i := Entry(true, t, 7)];
    assert m'[d].es[i].frame == t;
    if IsTableOf(m, d, f) {
      var k :| 0 <= k < NPDENTRIES && m[d].es[k].present && m[d].es[k].frame == f;
      assert m'[d].es[k].frame == f;
    }
  }

  // ----- a page table entry -----

  ghost function WithPte(m: Memory, d: nat, i: nat, j: nat, e: Entry): (r: Memory)
    requires HasTable(m, d, i) && IsTable(m, m[d].es[i].frame) && j < NPTENTRIES
  {
    var t := m[d].es[i].frame;
    m[t := Table(m[t].es[j := e])]
  }

  lemma PtePtes(m: Memory, d: nat, i: nat, j: nat, e: Entry, k: nat, l: nat)
    requires Sound(m, d) && HasTable(m, d, i) && j < NPTENTRIES
    ensures Pte(WithPte(m, d, i, j, e), d, k, l) == if k == i && l == j then e else Pte(m, d, k, l)
  {
  }

  lemma MapSound(m: Memory, d: nat, i: nat, j: nat, e: Entry)
    requires Sound(m, d) && HasTable(m, d, i) && j < NPTENTRIES
    requires i < USERPDES && e.present ==> IsBytes(m, e.frame) && !Owns(m, d, e.frame)
    ensures Sound(WithPte(m, d, i, j, e), d)
  {
    hide Pte;
    var m' := WithPte(m, d, i, j, e);
    assert m'[d] == m[d];
    forall k: nat, l: nat
      ensures Pte(m', d, k, l) == if k == i && l == j then e else Pte(m, d, k, l)
      ensures Mapped(m', d, k, l) ==> (k == i && l == j && e.present && i < USERPDES) || Mapped(m, d, k, l)
    {
      PtePtes(m, d, i, j, e, k, l);
    }
    forall k: nat, l: nat | Mapped(m', d, k, l)
      ensures IsBytes(m', Pte(m', d, k, l).frame)
    {
      assert (k == i && l == j) || Mapped(m, d, k, l);
    }
  }

  lemma MapTables(m: Memory, d: nat, i: nat, j: nat, e: Entry, f: nat)
    requires Sound(m, d) && HasTable(m, d, i) && j < NPTENTRIES
    ensures IsTableOf(WithPte(m, d, i, j, e), d, f) <==> IsTableOf(m, d, f)
  {
  }

  /** Mapping a user page adds its frame to the address space; a kernel page adds none. */
  lemma MapOwns(m: Memory, d: nat, i: nat, j: nat, e: Entry, f: nat)
    requires Sound(m, d) && HasTable(m, d, i) && j < NPTENTRIES && e.present
             && !(i < USERPDES && Pte(m, d, i, j).present)
    ensures Owns(WithPte(m, d, i, j, e), d, f) <==> Owns(m, d, f) || (i < USERPDES && f == e.frame)
  {
    hide Pte, IsTableOf;
    var m' := WithPte(m, d, i, j, e);
    MapTables(m, d, i, j, e, f);
    forall k: nat, l: nat
      ensures Pte(m', d, k, l) == if k == i && l == j then e else Pte(m, d, k, l)
    {
      PtePtes(m, d, i, j, e, k, l);
    }
    PagesChange(m, m', d, i, j, f);
  }

  lemma PagesChange(m: Memory, m': Memory, d: nat, i: nat, j: nat, f: nat)
    requires i < NPDENTRIES && j < NPTENTRIES && forall k: nat, l: nat :: k != i || l != j ==>
               Pte(m', d, k, l) == Pte(m, d, k, l)
    ensures IsPageOf(m', d, f) <==>
            || (Mapped(m', d, i, j) && Pte(m', d, i, j).frame == f)
            || exists k: nat, l: nat :: (k != i || l != j) && Mapped(m, d, k, l) && Pte(m, d, k, l).frame == f
    ensures IsPageOf(m, d, f) <==>
            || (Mapped(m, d, i, j) && Pte(m, d, i, j).frame == f)
            || exists k: nat, l: nat :: (k != i || l != j) && Mapped(m, d, k, l) && Pte(m, d, k, l).frame == f
  {
  }

  /** Clearing a user page takes exactly its frame out of the address space. */
  lemma ClearOwns(m: Memory, d: nat, i: nat, j: nat, f: nat)
    requires Sound(m, d) && HasTable(m, d, i) && Mapped(m, d, i, j)
    ensures Owns(WithPte(m, d, i, j, NONE), d, f) <==> Owns(m, d, f) && f != Pte(m, d, i, j).frame
  {
    hide Pte;
    var m' := WithPte(m, d, i, j, NONE);
    MapTables(m, d, i, j, NONE, f);
    forall k: nat, l: nat
      ensures Pte(m', d, k, l) == if k == i && l == j then NONE else Pte(m, d, k, l)
    {
      PtePtes(m, d, i, j, NONE, k, l);
    }
    PagesChange(m, m', d, i, j, f);
  }

  // ----- frames that hold bytes, and other address spaces -----

  /** Writing a frame of bytes changes no address space. */
  lemma BytesKeep(m: Memory, d: nat, f: nat, data: seq<int>)
    requires Sound(m, d) && IsBytes(m, f)
    ensures Sound(m[f := Bytes(data)], d) && SamePtes(m, m[f := Bytes(data)], d)
    ensures forall g :: Owns(m[f := Bytes(data)], d, g) <==> Owns(m, d, g)
  {
    var m' := m[f := Bytes(data)];
    forall k: nat, l: nat
      ensures Pte(m', d, k, l) == Pte(m, d, k, l)
      ensures Mapped(m', d, k, l) <==> Mapped(m, d, k, l)
    {
    }
    hide Pte, Mapped;
    forall g
      ensures Owns(m', d, g) <==> Owns(m, d, g)
    {
      SamePages(m, m', d, g);
      assert m'[d] == m[d];
    }
  }

  /** An address space none of whose frames changes is unchanged. */
  lemma SpaceKept(m: Memory, m': Memory, d: nat)
    requires Sound(m, d) && forall f :: Owns(m, d, f) ==> f in m && f in m' && m'[f] == m[f]
    ensures Sound(m', d) && SamePtes(m, m', d)
    ensures forall g :: Owns(m', d, g) <==> Owns(m, d, g)
  {
    assert Owns(m, d, d);
    forall k: nat, l: nat
      ensures Pte(m', d, k, l) == Pte(m, d, k, l)
      ensures Mapped(m', d, k, l) <==> Mapped(m, d, k, l)
    {
      if HasTable(m, d, k) {
        assert IsTableOf(m, d, m[d].es[k].frame);
      }
    }
    forall k: nat, l: nat | Mapped(m, d, k, l)
      ensures IsBytes(m', Pte(m, d, k, l).frame)
    {
      assert IsPageOf(m, d, Pte(m, d, k, l).frame);
    }
    forall i | 0 <= i < NPDENTRIES && m[d].es[i].present
      ensures IsTable(m', m[d].es[i].frame)
    {
      assert IsTableOf(m, d, m[d].es[i].frame);
    }
    hide Pte, Mapped;
    forall g
      ensures Owns(m', d, g) <==> Owns(m, d, g)
    {
      SamePages(m, m', d, g);
    }
  }
}
