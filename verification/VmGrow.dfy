/** vm.c: allocuvm, which grows the user part of an address space. */
module VmGrow {
  import opened PageTables
  import opened VmCode

  const PGSIZE := 4096
  const KERNBASE := 0x8000_0000

  /** A page after memset(mem, 0, PGSIZE). */
  function Clear(): (f: Frame)
    ensures f.Bytes? && |f.data| == PGSIZE && forall k :: 0 <= k < PGSIZE ==> f.data[k] == 0
  {
    Bytes(seq(PGSIZE, _ => 0))
  }

  /** PTE_W|PTE_U */
  const WRITABLE := 6

  /** The number of pages of sz bytes, PGROUNDUP(sz) / PGSIZE. */
  function Pages(sz: nat): (n: nat) {
    (sz + PGSIZE - 1) / PGSIZE
  }

  /** The user pages that are mapped are the first n. */
  ghost predicate Contiguous(m: Memory, d: nat, n: nat) {
    forall k: nat, l: nat :: k < USERPDES && l < NPTENTRIES ==> (Mapped(m, d, k, l) <==> Num(k, l) < n)
  }

  // ----- one page -----

  /** What mapping one more page keeps of the frames: none comes from nowhere, none vanishes but those in lost. */
  ghost predicate FramesKept(m: Memory, free: seq<nat>, m': Memory, free': seq<nat>, d: nat, lost: set<nat>) {
    && Sound(m', d) && FreeOk(m', free', d)
    && (forall f :: Owns(m', d, f) || In(f, free') || f in lost <==> Owns(m, d, f) || In(f, free))
    && (forall f :: f in lost ==> !Owns(m', d, f) && !In(f, free'))
    && (forall f :: f in m && !Owns(m, d, f) && !In(f, free) ==> f in m' && m'[f] == m[f])
    && (forall f :: IsPageOf(m, d, f) ==> f in m && f in m' && m'[f] == m[f])
  }

  lemma FramesKeptTwice(m: Memory, free: seq<nat>, m1: Memory, free1: seq<nat>, m2: Memory, free2: seq<nat>, d: nat,
                        lost: set<nat>)
    requires FramesKept(m, free, m1, free1, d, {}) && FramesKept(m1, free1, m2, free2, d, lost)
    requires forall f :: IsPageOf(m, d, f) ==> IsPageOf(m1, d, f)
    ensures FramesKept(m, free, m2, free2, d, lost)
  {
    hide Owns, Sound, FreeOk, In, IsPageOf;
  }

  /** kalloc and memset: the first free frame, cleared, is in nobody's hands. */
  lemma TakeFrame(m: Memory, free: seq<nat>, d: nat)
    requires Sound(m, d) && FreeOk(m, free, d) && free != []
    ensures var x, m1 := free[0], m[free[0] := Clear()];
            && FramesKept(m, free, m1, free[1..], d, {x}) && SamePtes(m, m1, d) && IsBytes(m1, x) && x != d
            && d in m && m1[d] == m[d] && (forall f :: Owns(m1, d, f) <==> Owns(m, d, f))
  {
    hide Owns, Pte;
    var x, m1, free1 := free[0], m[free[0] := Clear()], free[1..];
    HeadIsBytes(m, free, d);
    NotItself(m, d, x);
    BytesKeep(m, d, x, Clear().data);
    forall f
      ensures In(f, free) <==> f == x || In(f, free1)
      ensures !In(x, free1)
    {
    }
    forall k | 0 <= k < |free1|
      ensures IsBytes(m1, free1[k]) && !Owns(m1, d, free1[k])
    {
      assert free1[k] == free[k + 1];
    }
    forall f | IsPageOf(m, d, f)
      ensures f in m && f in m1 && m1[f] == m[f]
    {
      PageIsBytes(m, d, f);
    }
  }

  /** walkpgdir takes the next free frame for a page table; x stays in nobody's hands. */
  lemma TakeTableKept(m: Memory, free: seq<nat>, d: nat, i: nat, x: nat)
    requires Sound(m, d) && FreeOk(m, free, d) && i < NPDENTRIES && !HasTable(m, d, i) && free != []
    requires IsBytes(m, x) && !Owns(m, d, x) && !In(x, free)
    ensures var m' := WithTable(m, d, i, free[0]);
            && FramesKept(m, free, m', free[1..], d, {}) && SamePtes(m, m', d) && HasTable(m', d, i)
            && x in m' && m'[x] == m[x] && !Owns(m', d, x) && !In(x, free[1..])
            && (forall k: nat :: HasTable(m', d, k) <==> HasTable(m, d, k) || k == i)
  {
    hide Owns, Pte;
    var t, m', free' := free[0], WithTable(m, d, i, free[0]), free[1..];
    TakeTable(m, free, d, i);
    HeadIsBytes(m, free, d);
    NotItself(m, d, t);
    NotItself(m, d, x);
    NewTable(m, d, i, t);
    OwnsItself(m, d);
    forall f
      ensures In(f, free) <==> f == t || In(f, free')
    {
    }
    forall f | IsPageOf(m, d, f)
      ensures f in m && f in m' && m'[f] == m[f]
    {
      PageIsBytes(m, d, f);
      assert f != d && f != t;
    }
  }

  /** mappages stores the entry for the page. */
  lemma MapKept(m: Memory, free: seq<nat>, d: nat, i: nat, j: nat, x: nat)
    requires Sound(m, d) && FreeOk(m, free, d) && HasTable(m, d, i) && IsTable(m, m[d].es[i].frame)
    requires i < USERPDES && j < NPTENTRIES && !Pte(m, d, i, j).present
    requires IsBytes(m, x) && !Owns(m, d, x) && !In(x, free)
    ensures var e := Entry(true, x, WRITABLE);
            var m' := WithPte(m, d, i, j, e);
            && Sound(m', d) && FreeOk(m', free, d) && PteSet(m, m', d, i, j, e) && x in m' && m'[x] == m[x]
            && (forall f :: Owns(m', d, f) <==> Owns(m, d, f) || f == x)
            && (forall f :: f in m && !Owns(m, d, f) ==> f in m' && m'[f] == m[f])
            && (forall f :: IsPageOf(m, d, f) ==> f in m && f in m' && m'[f] == m[f])
            && (forall k: nat :: HasTable(m', d, k) <==> HasTable(m, d, k))
  {
    hide Owns, Pte;
    var e := Entry(true, x, WRITABLE);
    var m' := WithPte(m, d, i, j, e);
    SetPte(m, free, d, i, j, e);
    OwnsTables(m, d, i);
    DirectoryApart(m, d, i);
    forall f | IsPageOf(m, d, f)
      ensures f in m && f in m' && m'[f] == m[f]
    {
      PageIsBytes(m, d, f);
    }
    forall k: nat
      ensures HasTable(m', d, k) <==> HasTable(m, d, k)
    {
      SameTables(m, m', d, k);
    }
  }

  /** One round of allocuvm's loop that finds all the frames it needs. */
  lemma AddPage(m: Memory, free: seq<nat>, d: nat, i: nat, j: nat)
    requires Sound(m, d) && FreeOk(m, free, d) && free != [] && (HasTable(m, d, i) || |free| > 1)
    requires i < USERPDES && j < NPTENTRIES && !Pte(m, d, i, j).present
    ensures var x, m1 := free[0], m[free[0] := Clear()];
            && IsTable(m1, d)
            && var (m2, free2) := Tabled(m1, free[1..], d, i);
               && HasTable(m2, d, i) && IsTable(m2, m2[d].es[i].frame)
               && var m3 := WithPte(m2, d, i, j, Entry(true, x, WRITABLE));
                  && FramesKept(m, free, m3, free2, d, {}) && PteSet(m, m3, d, i, j, Entry(true, x, WRITABLE))
                  && x in m3 && m3[x] == Clear()
                  && (forall k: nat :: HasTable(m3, d, k) <==> HasTable(m, d, k) || k == i)
  {
    hide Owns, Pte, FreeOk, IsPageOf, In;
    var x, m1, free1 := free[0], m[free[0] := Clear()], free[1..];
    TakeFrame(m, free, d);
    forall k: nat
      ensures HasTable(m1, d, k) <==> HasTable(m, d, k)
    {
      SameTables(m, m1, d, k);
    }
    var (m2, free2) := Tabled(m1, free1, d, i);
    if !HasTable(m1, d, i) {
      TakeTableKept(m1, free1, d, i, x);
    }
    DirectoryApart(m2, d, i);
    assert Pte(m2, d, i, j) == Pte(m1, d, i, j) == Pte(m, d, i, j);
    MapKept(m2, free2, d, i, j, x);
    SamePagesAll(m, m1, d);
    SamePagesAll(m1, m2, d);
  }

  lemma SamePagesAll(m: Memory, m': Memory, d: nat)
    ensures SamePtes(m, m', d) ==> forall f :: IsPageOf(m', d, f) <==> IsPageOf(m, d, f)
  {
    if SamePtes(m, m', d) {
      forall f
        ensures IsPageOf(m', d, f) <==> IsPageOf(m, d, f)
      {
        SamePages(m, m', d, f);
      }
    }
  }

  // ----- from page o to page a -----

  ghost predicate NewPage(m: Memory, d: nat, k: nat, l: nat) {
    var e := Pte(m, d, k, l);
    e.present && e.flags == WRITABLE && e.frame in m && m[e.frame] == Clear()
  }

  predicate InRange(o: nat, a: nat, k: nat, l: nat) {
    k < USERPDES && l < NPTENTRIES && o <= Num(k, l) < a
  }

  /** Some page of o..a lies in the region of directory entry k. */
  predicate Covers(o: nat, a: nat, k: nat) {
    o < a && o < Num(k + 1, 0) && Num(k, 0) < a
  }

  /** Pages o..a are new and cleared, every other page is as it was, and only their page tables have been added. */
  ghost predicate Grown(m0: Memory, free0: seq<nat>, m: Memory, free: seq<nat>, d: nat, o: nat, a: nat,
                        lost: set<nat>) {
    && FramesKept(m0, free0, m, free, d, lost)
    && (forall k: nat, l: nat :: if InRange(o, a, k, l) then NewPage(m, d, k, l)
       else Pte(m, d, k, l) == Pte(m0, d, k, l))
    && (forall k: nat :: HasTable(m, d, k) <==> HasTable(m0, d, k) || Covers(o, a, k))
  }

  /** Page b, reached by a loop from page o on, needs a page table. */
  ghost predicate NeedsTable(m0: Memory, d: nat, o: nat, b: nat) {
    (b == o || b % NPTENTRIES == 0) && !HasTable(m0, d, b / NPTENTRIES)
  }

  /** The frames that pages o..a take: one each, and the missing page tables. */
  ghost function GrowNeed(m0: Memory, d: nat, o: nat, a: nat): (n: nat) {
    if a <= o then 0 else GrowNeed(m0, d, o, a - 1) + 1 + if NeedsTable(m0, d, o, a - 1) then 1 else 0
  }

  lemma {:induction false} NeedGrows(m0: Memory, d: nat, o: nat, a: nat, n: nat)
    requires o <= a < n
    ensures GrowNeed(m0, d, o, n) >= GrowNeed(m0, d, o, a) + 1 + if NeedsTable(m0, d, o, n - 1) then 1 else 0
    decreases n
  {
    hide NeedsTable;
    if a < n - 1 {
      NeedGrows(m0, d, o, a, n - 1);
    }
  }

  lemma GrownNone(m: Memory, free: seq<nat>, d: nat, o: nat)
    requires Sound(m, d) && FreeOk(m, free, d)
    ensures Grown(m, free, m, free, d, o, o, {})
  {
    hide Owns, Pte;
    forall f | IsPageOf(m, d, f)
      ensures f in m
    {
      PageIsBytes(m, d, f);
    }
  }

  lemma CoversNext(o: nat, a: nat, k: nat)
    requires o <= a
    ensures Covers(o, a + 1, k) <==> Covers(o, a, k) || k == a / NPTENTRIES
    ensures Covers(o, a, a / NPTENTRIES) <==> o < a && a % NPTENTRIES != 0
  {
  }

  lemma InRangeNext(o: nat, a: nat, k: nat, l: nat)
    requires o <= a && a / NPTENTRIES < USERPDES
    ensures InRange(o, a + 1, k, l) <==> InRange(o, a, k, l) || (k == a / NPTENTRIES && l == a % NPTENTRIES)
  {
  }

  /** Whether page a needs a table is what the loop finds. */
  lemma TableNeeded(m0: Memory, free0: seq<nat>, m: Memory, free: seq<nat>, d: nat, o: nat, a: nat)
    requires Grown(m0, free0, m, free, d, o, a, {}) && o <= a
    ensures HasTable(m, d, a / NPTENTRIES) <==> !NeedsTable(m0, d, o, a)
  {
    hide FramesKept, Pte;
    CoversNext(o, a, a / NPTENTRIES);
  }

  /** One page more. */
  lemma GrownStep(m0: Memory, free0: seq<nat>, m: Memory, free: seq<nat>, m': Memory, free': seq<nat>, d: nat,
                  o: nat, a: nat, x: nat)
    requires Grown(m0, free0, m, free, d, o, a, {}) && o <= a && a / NPTENTRIES < USERPDES && Contiguous(m0, d, o)
    requires FramesKept(m, free, m', free', d, {}) && x in m' && m'[x] == Clear()
    requires PteSet(m, m', d, a / NPTENTRIES, a % NPTENTRIES, Entry(true, x, WRITABLE))
    requires !Mapped(m, d, a / NPTENTRIES, a % NPTENTRIES)
    requires forall k: nat :: HasTable(m', d, k) <==> HasTable(m, d, k) || k == a / NPTENTRIES
    ensures Grown(m0, free0, m', free', d, o, a + 1, {})
  {
    hide Pte, FramesKept;
    forall k: nat, l: nat
      ensures if InRange(o, a + 1, k, l) then NewPage(m', d, k, l) else Pte(m', d, k, l) == Pte(m0, d, k, l)
    {
      InRangeNext(o, a, k, l);
      if InRange(o, a, k, l) {
        NewPageKept(m, free, m', free', d, k, l);
      }
    }
    forall k: nat
      ensures HasTable(m', d, k) <==> HasTable(m0, d, k) || Covers(o, a + 1, k)
    {
      CoversNext(o, a, k);
    }
    PagesStay(m0, free0, m, free, d, o, a);
    FramesKeptTwice(m0, free0, m, free, m', free', d, {});
  }

  lemma NewPageKept(m: Memory, free: seq<nat>, m': Memory, free': seq<nat>, d: nat, k: nat, l: nat)
    requires FramesKept(m, free, m', free', d, {}) && NewPage(m, d, k, l) && k < USERPDES && l < NPTENTRIES
    requires Pte(m', d, k, l) == Pte(m, d, k, l)
    ensures NewPage(m', d, k, l)
  {
    hide Pte, Owns, Sound, FreeOk;
    assert Mapped(m, d, k, l);
    assert IsPageOf(m, d, Pte(m, d, k, l).frame);
  }

  /** Pages that were mapped behind page o's start stay mapped: there are none in o..a. */
  lemma PagesStay(m0: Memory, free0: seq<nat>, m: Memory, free: seq<nat>, d: nat, o: nat, a: nat)
    requires Grown(m0, free0, m, free, d, o, a, {})
    requires forall k: nat, l: nat :: InRange(o, a, k, l) ==> !Mapped(m0, d, k, l)
    ensures forall f :: IsPageOf(m0, d, f) ==> IsPageOf(m, d, f)
  {
    hide Pte, FramesKept;
    forall f | IsPageOf(m0, d, f)
      ensures IsPageOf(m, d, f)
    {
      var k, l :| Mapped(m0, d, k, l) && Pte(m0, d, k, l).frame == f;
      assert Mapped(m, d, k, l);
    }
  }

  lemma GrownContiguous(m0: Memory, free0: seq<nat>, m: Memory, free: seq<nat>, d: nat, o: nat, a: nat, lost: set<nat>)
    requires Grown(m0, free0, m, free, d, o, a, lost) && Contiguous(m0, d, o) && o <= a
    ensures Contiguous(m, d, a)
  {
    hide Pte, FramesKept;
    forall k: nat, l: nat | k < USERPDES && l < NPTENTRIES
      ensures Mapped(m, d, k, l) <==> Num(k, l) < a
    {
      assert Mapped(m0, d, k, l) <==> Num(k, l) < o;
    }
  }

  /** One round of allocuvm's loop. mappages fails when there is no frame for the page table. */
  method GrowPage(vm: Vm, d: nat, i: nat, j: nat) returns (r: Copied, ghost x: nat)
    requires Sound(vm.mem, d) && FreeOk(vm.mem, vm.free, d) && i < USERPDES && j < NPTENTRIES
    requires !Pte(vm.mem, d, i, j).present
    modifies vm
    ensures r.NoFrame? <==> old(vm.free) == []
    ensures r.NoFrame? ==> vm.mem == old(vm.mem) && vm.free == old(vm.free)
    ensures r.NoTable? <==> !HasTable(old(vm.mem), d, i) && |old(vm.free)| == 1
    ensures r.NoTable? ==> vm.free == [] && FramesKept(old(vm.mem), old(vm.free), vm.mem, vm.free, d, {x})
    ensures r.NoTable? ==> SamePtes(old(vm.mem), vm.mem, d)
    ensures r.NoTable? ==> forall k: nat :: HasTable(vm.mem, d, k) <==> HasTable(old(vm.mem), d, k)
    ensures r.Done? ==> FramesKept(old(vm.mem), old(vm.free), vm.mem, vm.free, d, {})
    ensures r.Done? ==> PteSet(old(vm.mem), vm.mem, d, i, j, Entry(true, x, WRITABLE))
    ensures r.Done? ==> x in vm.mem && vm.mem[x] == Clear()
    ensures r.Done? ==> forall k: nat :: HasTable(vm.mem, d, k) <==> HasTable(old(vm.mem), d, k) || k == i
    ensures r.Done? ==> |vm.free| + 1 + (if HasTable(old(vm.mem), d, i) then 0 else 1) == |old(vm.free)|
  {
    hide Pte, Owns, FramesKept, SamePtes, PteSet, Sound, FreeOk;
    x := 0;
    var got := vm.Kalloc();
    if got.None? {
      return NoFrame, 0;
    }
    x := got.value;
    TakeFrame(vm.mem, old(vm.free), d);
    TakenSound(vm.mem, old(vm.free), d);
    vm.mem := vm.mem[got.value := Clear()];
    forall k: nat
      ensures HasTable(vm.mem, d, k) <==> HasTable(old(vm.mem), d, k)
    {
      SameTables(old(vm.mem), vm.mem, d, k);
    }
    var table := vm.Walkpgdir(d, i, true);
    if table.None? {
      return NoTable, x;
    }
    AddPage(old(vm.mem), old(vm.free), d, i, j);
    vm.mem := vm.mem[table.value := Table(vm.mem[table.value].es[j := Entry(true, got.value, WRITABLE)])];
    return Done, x;
  }

  lemma TakenSound(m: Memory, free: seq<nat>, d: nat)
    requires Sound(m, d) && FreeOk(m, free, d) && free != []
    ensures Sound(m[free[0] := Clear()], d) && FreeOk(m[free[0] := Clear()], free[1..], d)
  {
    TakeFrame(m, free, d);
  }

  /** A page whose frame was taken and then not mapped. */
  lemma GrownLost(m0: Memory, free0: seq<nat>, m: Memory, free: seq<nat>, m': Memory, free': seq<nat>, d: nat,
                  o: nat, a: nat, x: nat)
    requires Grown(m0, free0, m, free, d, o, a, {}) && Contiguous(m0, d, o)
    requires FramesKept(m, free, m', free', d, {x}) && SamePtes(m, m', d)
    requires forall k: nat :: HasTable(m', d, k) <==> HasTable(m, d, k)
    ensures Grown(m0, free0, m', free', d, o, a, {x})
  {
    hide Pte, FramesKept;
    forall k: nat, l: nat
      ensures if InRange(o, a, k, l) then NewPage(m', d, k, l) else Pte(m', d, k, l) == Pte(m0, d, k, l)
    {
      assert Pte(m', d, k, l) == Pte(m, d, k, l);
      if InRange(o, a, k, l) {
        NewPageStays(m, free, m', free', d, k, l, x);
      }
    }
    PagesStay(m0, free0, m, free, d, o, a);
    FramesKeptTwice(m0, free0, m, free, m', free', d, {x});
  }

  lemma NewPageStays(m: Memory, free: seq<nat>, m': Memory, free': seq<nat>, d: nat, k: nat, l: nat, x: nat)
    requires FramesKept(m, free, m', free', d, {x}) && NewPage(m, d, k, l) && k < USERPDES && l < NPTENTRIES
    requires Pte(m', d, k, l) == Pte(m, d, k, l)
    ensures NewPage(m', d, k, l)
  {
    hide Pte, Owns, Sound, FreeOk;
    assert Mapped(m, d, k, l);
    assert IsPageOf(m, d, Pte(m, d, k, l).frame);
  }

  // ----- allocuvm -----

  /** Midway through the loop: either all is well up to page a, or the page before it got no page table and its frame is
      lost, which leaves no free frame. */
  ghost predicate Growing(m0: Memory, free0: seq<nat>, m: Memory, free: seq<nat>, d: nat, o: nat, a: nat,
                          lost: set<nat>) {
    if lost == {} then Grown(m0, free0, m, free, d, o, a, {}) && |free| + GrowNeed(m0, d, o, a) == |free0|
    else
      && o < a && free == [] && |lost| == 1 && Grown(m0, free0, m, free, d, o, a - 1, lost)
      && |free0| + 1 == GrowNeed(m0, d, o, a) && NeedsTable(m0, d, o, a - 1)
  }

  /** Pages behind the last one that exists are not mapped. */
  lemma NextUnmapped(m: Memory, d: nat, b: nat, a: nat)
    requires Contiguous(m, d, b) && b <= a < Num(USERPDES, 0)
    ensures a / NPTENTRIES < USERPDES && !Pte(m, d, a / NPTENTRIES, a % NPTENTRIES).present
  {
    assert Num(a / NPTENTRIES, a % NPTENTRIES) == a;
    assert !Mapped(m, d, a / NPTENTRIES, a % NPTENTRIES);
  }

  method GrowRound(vm: Vm, d: nat, o: nat, a: nat, ghost m0: Memory, ghost free0: seq<nat>, ghost lost: set<nat>)
    returns (ok: bool, ghost lost': set<nat>)
    requires Growing(m0, free0, vm.mem, vm.free, d, o, a, lost) && o <= a < Num(USERPDES, 0) && Contiguous(m0, d, o)
    modifies vm
    ensures ok ==> Growing(m0, free0, vm.mem, vm.free, d, o, a + 1, lost')
    ensures !ok ==> vm.free == [] && lost' == lost && Growing(m0, free0, vm.mem, vm.free, d, o, a, lost)
  {
    hide Pte, Owns, FramesKept, Contiguous, PteSet, NeedsTable, SamePtes, Num, InRange, Covers, Grown;
    var i, j := a / NPTENTRIES, a % NPTENTRIES;
    ghost var b, m, free := if lost == {} then a else a - 1, vm.mem, vm.free;
    assert Sound(m, d) && FreeOk(m, free, d) by { GrownSound(m0, free0, m, free, d, o, b, lost); }
    GrownContiguous(m0, free0, m, free, d, o, b, lost);
    NextUnmapped(m, d, b, a);
    if lost == {} {
      TableNeeded(m0, free0, m, free, d, o, a);
    }
    hide Sound, FreeOk;
    var r, x := GrowPage(vm, d, i, j);
    match r {
      case NoFrame => return false, lost;
      case NoTable =>
        GrownLost(m0, free0, m, free, vm.mem, vm.free, d, o, a, x);
        return true, {x};
      case Done =>
        NotMapped(m, d, i, j);
        GrownStep(m0, free0, m, free, vm.mem, vm.free, d, o, a, x);
        return true, {};
    }
  }

  lemma GrownSound(m0: Memory, free0: seq<nat>, m: Memory, free: seq<nat>, d: nat, o: nat, a: nat, lost: set<nat>)
    requires Grown(m0, free0, m, free, d, o, a, lost)
    ensures Sound(m, d) && FreeOk(m, free, d)
  {
  }

  ghost predicate AllZero(m: Memory, f: nat) {
    f in m && m[f].Bytes? && |m[f].data| == PGSIZE && forall k :: 0 <= k < PGSIZE ==> m[f].data[k] == 0
  }

  /** A process may read and write every page that it grew by and finds zeroes there, and what it may do with the others
      is as before. */
  lemma GrownUsable(m0: Memory, free0: seq<nat>, m: Memory, free: seq<nat>, d: nat, o: nat, a: nat, lost: set<nat>,
                    k: nat, l: nat, b: nat)
    requires Sound(m0, d) && Grown(m0, free0, m, free, d, o, a, lost) && (b == PTE_W || b == PTE_U)
    ensures Allows(m, d, k, l, b) <==> InRange(o, a, k, l) || Allows(m0, d, k, l, b)
    ensures InRange(o, a, k, l) ==> AllZero(m, Pte(m, d, k, l).frame)
  {
    hide Sound, Pte, FramesKept;
    GrownSound(m0, free0, m, free, d, o, a, lost);
    PteDecides(m0, d, k, l, b);
    PteDecides(m, d, k, l, b);
    assert InRange(o, a, k, l) ==> NewPage(m, d, k, l);
  }

  /** A child may do with every user page what its parent may do with it. */
  lemma CopiedUsable(m0: Memory, free0: seq<nat>, m: Memory, free: seq<nat>, p: nat, d: nat, n: nat, i: nat, j: nat,
                     b: nat)
    requires Sound(m0, p) && Built(m0, free0, m, free, d, {}) && Progress(m0, m, p, d, n)
    requires i < USERPDES && j < NPTENTRIES && (b == PTE_W || b == PTE_U)
    ensures Allows(m, d, i, j, b) <==> Num(i, j) < n && Allows(m0, p, i, j, b)
  {
    hide Sound, Pte, Owns, Num;
    PteDecides(m0, p, i, j, b);
    PteDecides(m, d, i, j, b);
    assert if Num(i, j) < n then CopiedAt(m0, m, p, d, i, j) else !Pte(m, d, i, j).present;
  }

  lemma NotMapped(m: Memory, d: nat, i: nat, j: nat)
    requires !Pte(m, d, i, j).present
    ensures !Mapped(m, d, i, j)
  {
  }

  /** The pages are as they were; the frames of those that had been added are free again. */
  ghost predicate Undone(m0: Memory, free0: seq<nat>, m: Memory, free: seq<nat>, d: nat, o: nat, lost: set<nat>) {
    && Sound(m, d) && FreeOk(m, free, d) && Contiguous(m, d, o)
    && (forall k: nat, l: nat :: k < USERPDES && l < NPTENTRIES && Num(k, l) < o ==>
         Pte(m, d, k, l) == Pte(m0, d, k, l))
    && (forall f :: Owns(m, d, f) || In(f, free) || f in lost <==> Owns(m0, d, f) || In(f, free0))
    && (forall f :: f in m0 && !Owns(m0, d, f) && !In(f, free0) ==> f in m && m[f] == m0[f])
  }

  /** deallocuvm takes back what the loop has added. */
  lemma GrowUndone(m0: Memory, free0: seq<nat>, m1: Memory, free1: seq<nat>, m: Memory, free: seq<nat>, d: nat,
                   o: nat, b: nat, n: nat, lost: set<nat>)
    requires Grown(m0, free0, m1, free1, d, o, b, lost) && Contiguous(m0, d, o) && o <= b <= n <= Num(USERPDES, 0)
    requires Freed(m1, free1, m, free, d, o / NPTENTRIES, o % NPTENTRIES, n)
    ensures Undone(m0, free0, m, free, d, o, lost)
  {
    GrownContiguous(m0, free0, m1, free1, d, o, b, lost);
    UndonePages(m0, free0, m1, free1, m, free, d, o, b, n, lost);
    hide Pte, Sound, FreeOk, Goes, Contiguous;
    UndoneFrames(m0, free0, m1, free1, m, free, d, o, b, n, lost);
  }

  lemma UndonePages(m0: Memory, free0: seq<nat>, m1: Memory, free1: seq<nat>, m: Memory, free: seq<nat>, d: nat,
                    o: nat, b: nat, n: nat, lost: set<nat>)
    requires Grown(m0, free0, m1, free1, d, o, b, lost) && Contiguous(m1, d, b) && o <= b <= n
    requires Freed(m1, free1, m, free, d, o / NPTENTRIES, o % NPTENTRIES, n)
    ensures Contiguous(m, d, o)
    ensures forall k: nat, l: nat :: k < USERPDES && l < NPTENTRIES && Num(k, l) < o ==>
              Pte(m, d, k, l) == Pte(m0, d, k, l)
  {
    hide Pte, FramesKept, Sound, FreeOk, Missed;
    var li, lj := o / NPTENTRIES, o % NPTENTRIES;
    assert Num(li, lj) == o;
    forall k: nat, l: nat | k < USERPDES && l < NPTENTRIES
      ensures Mapped(m, d, k, l) <==> Num(k, l) < o
      ensures Num(k, l) < o ==> Pte(m, d, k, l) == Pte(m0, d, k, l)
    {
      assert Mapped(m1, d, k, l) <==> Num(k, l) < b;
      if Mapped(m1, d, k, l) {
        ContiguousMissesNone(m1, d, b, li, lj, k, l);
      }
      assert Goes(m1, d, li, lj, n, k, l) <==> o <= Num(k, l) < b;
    }
  }

  lemma UndoneFrames(m0: Memory, free0: seq<nat>, m1: Memory, free1: seq<nat>, m: Memory, free: seq<nat>, d: nat,
                     o: nat, b: nat, n: nat, lost: set<nat>)
    requires Grown(m0, free0, m1, free1, d, o, b, lost)
    requires Freed(m1, free1, m, free, d, o / NPTENTRIES, o % NPTENTRIES, n)
    ensures Sound(m, d) && FreeOk(m, free, d)
    ensures forall f :: Owns(m, d, f) || In(f, free) || f in lost <==> Owns(m0, d, f) || In(f, free0)
    ensures forall f :: f in m0 && !Owns(m0, d, f) && !In(f, free0) ==> f in m && m[f] == m0[f]
  {
    hide Pte, Sound, FreeOk, Goes, Owns, In, IsPageOf, Num, InRange, Covers;
  }

  lemma ContiguousOnce(m: Memory, d: nat, a: nat, b: nat)
    requires Contiguous(m, d, a) && Contiguous(m, d, b) && a <= b <= Num(USERPDES, 0)
    ensures a == b
  {
    var k, l := a / NPTENTRIES, a % NPTENTRIES;
    assert Num(k, l) == a && l < NPTENTRIES;
    assert k < USERPDES ==> (Mapped(m, d, k, l) <==> Num(k, l) < a);
    assert k < USERPDES ==> (Mapped(m, d, k, l) <==> Num(k, l) < b);
  }

  /** The last page gets a frame and no page table. */
  ghost predicate LastLost(m: Memory, free: seq<nat>, d: nat, o: nat, n: nat) {
    o < n && GrowNeed(m, d, o, n) == |free| + 1 && NeedsTable(m, d, o, n - 1)
  }

  /** allocuvm. Where the frames suffice, memory is contiguous up to newsz; otherwise it fails and takes everything
      back, but for the page tables and, perhaps, one lost frame; except that if only the page table of the last page
      finds no frame, it reports success with that page missing. */
  method Allocuvm(vm: Vm, d: nat, oldsz: nat, newsz: nat) returns (r: nat, ghost lost: set<nat>)
    requires Sound(vm.mem, d) && FreeOk(vm.mem, vm.free, d) && Contiguous(vm.mem, d, Pages(oldsz))
    modifies vm
    ensures newsz >= KERNBASE || newsz < oldsz ==> vm.mem == old(vm.mem) && vm.free == old(vm.free)
    ensures newsz >= KERNBASE ==> r == 0
    ensures newsz < oldsz && newsz < KERNBASE ==> r == oldsz
    ensures oldsz <= newsz < KERNBASE ==>
              var m, free, o, n := old(vm.mem), old(vm.free), Pages(oldsz), Pages(newsz);
              if GrowNeed(m, d, o, n) <= |free| then
                r == newsz && lost == {} && Grown(m, free, vm.mem, vm.free, d, o, n, {})
              else if LastLost(m, free, d, o, n) then
                r == newsz && |lost| == 1 && Grown(m, free, vm.mem, vm.free, d, o, n - 1, lost)
              else r == 0 && |lost| <= 1 && Undone(m, free, vm.mem, vm.free, d, o, lost)
    ensures oldsz <= newsz < KERNBASE ==>
              (Contiguous(vm.mem, d, Pages(newsz)) <==>
                GrowNeed(old(vm.mem), d, Pages(oldsz), Pages(newsz)) <= |old(vm.free)|)
  {
    hide Pte, Owns, Contiguous, Sound, FreeOk, NeedsTable, GrowNeed, Undone, Freed, Grown;
    lost := {};
    if newsz >= KERNBASE {
      return 0, {};
    }
    if newsz < oldsz {
      return oldsz, {};
    }
    ghost var m0, free0, o, n := vm.mem, vm.free, Pages(oldsz), Pages(newsz);
    assert o <= n <= Num(USERPDES, 0);
    hide Pages, Num;
    GrownNone(m0, free0, d, o);
    NoNeed(m0, d, o);
    var a := Pages(oldsz);
    while a < Pages(newsz)
      invariant o <= a <= n && Growing(m0, free0, vm.mem, vm.free, d, o, a, lost)
    {
      var ok;
      ok, lost := GrowRound(vm, d, Pages(oldsz), a, m0, free0, lost);
      if !ok {
        NeedGrows(m0, d, o, a, n);
        ghost var b, m1, free1 := if lost == {} then a else a - 1, vm.mem, vm.free;
        assert Sound(m1, d) && FreeOk(m1, free1, d) by { GrownSound(m0, free0, m1, free1, d, o, b, lost); }
        vm.Deallocuvm(d, Pages(oldsz), Pages(newsz));
        GrowUndone(m0, free0, m1, free1, vm.mem, vm.free, d, o, b, n, lost);
        NotUpTo(m0, free0, vm.mem, vm.free, d, o, lost, n);
        return 0, lost;
      }
      a := a + 1;
    }
    ghost var b := if lost == {} then n else n - 1;
    GrownContiguous(m0, free0, vm.mem, vm.free, d, o, b, lost);
    if Contiguous(vm.mem, d, n) {
      ContiguousOnce(vm.mem, d, b, n);
    }
    return newsz, lost;
  }

  lemma NotUpTo(m0: Memory, free0: seq<nat>, m: Memory, free: seq<nat>, d: nat, o: nat, lost: set<nat>, n: nat)
    requires Undone(m0, free0, m, free, d, o, lost) && o < n <= Num(USERPDES, 0)
    ensures !Contiguous(m, d, n)
  {
    if Contiguous(m, d, n) {
      ContiguousOnce(m, d, o, n);
    }
  }

  lemma NoNeed(m: Memory, d: nat, o: nat)
    ensures GrowNeed(m, d, o, o) == 0
  {
  }

  /** An empty address space and one free frame: growing it to one page is reported as done, and no page is there. */
  method GrowHole() returns (r: nat, vm: Vm)
    ensures r == PGSIZE && Contiguous(vm.mem, 0, 0) && vm.free == []
  {
    var m: Memory := map[0 := Zeroed(), 1 := JUNK];
    vm := new Vm(m, [1]);
    EmptySpace(m);
    assert GrowNeed(m, 0, 0, 1) == 2 by { assert GrowNeed(m, 0, 0, 0) == 0; }
    ghost var lost;
    r, lost := Allocuvm(vm, 0, 0, PGSIZE);
    GrownContiguous(m, [1], vm.mem, vm.free, 0, 0, 0, lost);
    NoneFree(m, vm.mem, vm.free, lost);
  }

  lemma EmptySpace(m: Memory)
    requires m == map[0 := Zeroed(), 1 := JUNK]
    ensures Sound(m, 0) && FreeOk(m, [1], 0) && Contiguous(m, 0, 0) && forall k: nat :: !HasTable(m, 0, k)
    ensures forall f :: Owns(m, 0, f) <==> f == 0
  {
    assert forall k: nat :: !HasTable(m, 0, k);
  }

  lemma NoneFree(m: Memory, m': Memory, free: seq<nat>, lost: set<nat>)
    requires m == map[0 := Zeroed(), 1 := JUNK] && FramesKept(m, [1], m', free, 0, lost) && |lost| == 1
    ensures free == []
  {
    EmptySpace(m);
    hide Sound;
    OwnsItself(m', 0);
    var x :| x in lost;
    assert |free| > 0 ==> In(free[0], free);
  }
}
