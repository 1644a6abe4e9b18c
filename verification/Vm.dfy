/** vm.c over kalloc.c: walkpgdir, mappages, setupkvm, copyuvm, deallocuvm and freevm. */
module VmCode {
  import opened Common
  import opened PageTables

  const JUNK := Bytes([1])

  /** A mapping of setupkvm: a kernel page and the physical frame behind it. */
  datatype KernelPage = KernelPage(i: nat, j: nat, frame: nat, flags: nat)

  predicate In(f: nat, s: seq<nat>) {
    f in s
  }

  /** Free frames are distinct and hold no tables. */
  ghost predicate Pool(m: Memory, free: seq<nat>) {
    && (forall i, k :: 0 <= i < k < |free| ==> free[i] != free[k])
    && (forall i :: 0 <= i < |free| ==> IsBytes(m, free[i]))
  }

  ghost predicate Suffix(free0: seq<nat>, free: seq<nat>) {
    |free| <= |free0| && free == free0[|free0| - |free|..]
  }

  /** Address space d has been built from the frames taken from free0, except those in spare, and from nothing else, and
      no other frame has changed. */
  ghost predicate Built(m0: Memory, free0: seq<nat>, m: Memory, free: seq<nat>, d: nat, spare: set<nat>) {
    && Sound(m, d) && FreeOk(m, free, d) && Suffix(free0, free) && Pool(m0, free0)
    && (forall f :: Owns(m, d, f) <==> In(f, free0) && !In(f, free) && f !in spare)
    && (forall f :: f in m0 && !In(f, free0) ==> f in m && m[f] == m0[f])
    && (forall f :: In(f, free0) ==> f in m)
  }

  ghost predicate NoUserPages(m: Memory, d: nat) {
    forall k: nat :: k < USERPDES ==> !HasTable(m, d, k)
  }

  lemma PopSuffix(free0: seq<nat>, free: seq<nat>, f: nat)
    requires Suffix(free0, free) && free != [] && forall i, k :: 0 <= i < k < |free0| ==> free0[i] != free0[k]
    ensures Suffix(free0, free[1..]) && In(free[0], free0) && !In(free[0], free[1..])
    ensures In(f, free) <==> f == free[0] || In(f, free[1..])
  {
  }

  /** The first frame of free becomes an empty directory. */
  lemma NewDirectory(m: Memory, free: seq<nat>)
    requires Pool(m, free) && free != []
    ensures var m' := m[free[0] := Zeroed()];
            Built(m, free, m', free[1..], free[0], {}) && NoUserPages(m', free[0])
              && forall i :: !HasTable(m', free[0], i)
  {
  }

  lemma TakeTable(m: Memory, free: seq<nat>, d: nat, i: nat)
    requires Sound(m, d) && FreeOk(m, free, d) && i < NPDENTRIES && !HasTable(m, d, i) && free != []
    ensures var m' := WithTable(m, d, i, free[0]);
            && Sound(m', d) && FreeOk(m', free[1..], d) && SamePtes(m, m', d) && HasTable(m', d, i)
            && (forall f :: Owns(m', d, f) <==> Owns(m, d, f) || f == free[0])
            && (forall f :: f in m && f != d && f != free[0] ==> f in m' && m'[f] == m[f])
  {
    hide Pte, Owns;
    var t := free[0];
    var m' := WithTable(m, d, i, t);
    assert IsBytes(m, t) && !Owns(m, d, t);
    NotItself(m, d, t);
    TableSound(m, d, i, t);
    forall f
      ensures Owns(m', d, f) <==> Owns(m, d, f) || f == t
    {
      TableOwns(m, d, i, t, f);
    }
    forall k | 0 <= k < |free[1..]|
      ensures IsBytes(m', free[1..][k]) && !Owns(m', d, free[1..][k])
    {
      assert free[1..][k] == free[k + 1];
      NotItself(m, d, free[k + 1]);
    }
  }

  lemma NotItself(m: Memory, d: nat, f: nat)
    requires !Owns(m, d, f)
    ensures f != d
  {
  }

  lemma SetPte(m: Memory, free: seq<nat>, d: nat, i: nat, j: nat, e: Entry)
    requires Sound(m, d) && FreeOk(m, free, d) && HasTable(m, d, i) && j < NPTENTRIES && e.present
             && !Pte(m, d, i, j).present
    requires i < USERPDES ==> IsBytes(m, e.frame) && !Owns(m, d, e.frame) && e.frame !in free
    ensures var m' := WithPte(m, d, i, j, e);
            && Sound(m', d) && FreeOk(m', free, d)
            && (forall f :: Owns(m', d, f) <==> Owns(m, d, f) || (i < USERPDES && f == e.frame))
            && (forall f :: f in m && f != m[d].es[i].frame ==> f in m' && m'[f] == m[f])
            && (forall k: nat, l: nat :: Pte(m', d, k, l) == if k == i && l == j then e else Pte(m, d, k, l))
  {
    var m' := WithPte(m, d, i, j, e);
    MapSound(m, d, i, j, e);
    forall f
      ensures Owns(m', d, f) <==> Owns(m, d, f) || (i < USERPDES && f == e.frame)
    {
      MapOwns(m, d, i, j, e, f);
    }
    forall k: nat, l: nat
      ensures Pte(m', d, k, l) == if k == i && l == j then e else Pte(m, d, k, l)
    {
      PtePtes(m, d, i, j, e, k, l);
    }
    hide Owns, Pte;
  }

  /** The address space under construction takes a page table. */
  lemma BuiltTable(m0: Memory, free0: seq<nat>, m: Memory, free: seq<nat>, d: nat, spare: set<nat>, i: nat)
    requires Built(m0, free0, m, free, d, spare) && (forall f :: f in spare ==> !In(f, free)) && IsTable(m, d)
             && i < NPDENTRIES && !HasTable(m, d, i) && free != []
    ensures Built(m0, free0, WithTable(m, d, i, free[0]), free[1..], d, spare)
  {
    hide Owns, Sound, FreeOk, SamePtes;
    var m' := WithTable(m, d, i, free[0]);
    TakeTable(m, free, d, i);
    OwnsItself(m, d);
    forall f
      ensures In(f, free) <==> f == free[0] || In(f, free[1..])
      ensures !In(free[0], free[1..]) && In(free[0], free0) && Suffix(free0, free[1..])
    {
      PopSuffix(free0, free, f);
    }
    hide In, Suffix;
    forall f | f in m0 && !In(f, free0)
      ensures f in m' && m'[f] == m0[f]
    {
      assert f != free[0] && f != d;
    }
  }

  lemma OwnsItself(m: Memory, d: nat)
    ensures Owns(m, d, d)
  {
  }

  /** A page table of d is owned by d. */
  lemma OwnsTables(m: Memory, d: nat, i: nat)
    requires HasTable(m, d, i)
    ensures Owns(m, d, m[d].es[i].frame)
  {
  }

  /** The address space under construction gets a kernel page. */
  lemma BuiltKernel(m0: Memory, free0: seq<nat>, m: Memory, free: seq<nat>, d: nat, i: nat, j: nat, e: Entry)
    requires Built(m0, free0, m, free, d, {}) && HasTable(m, d, i) && IsTable(m, m[d].es[i].frame) && j < NPTENTRIES
             && e.present
    requires i >= USERPDES && !Pte(m, d, i, j).present
    ensures Built(m0, free0, WithPte(m, d, i, j, e), free, d, {})
    ensures NoUserPages(m, d) ==> NoUserPages(WithPte(m, d, i, j, e), d)
  {
    hide Owns, Sound, FreeOk, Suffix, Pte;
    SetPte(m, free, d, i, j, e);
    OwnsTables(m, d, i);
    assert In(m[d].es[i].frame, free0);
    OwnsItself(m, d);
    DirectoryApart(m, d, i);
    forall k: nat
      ensures HasTable(WithPte(m, d, i, j, e), d, k) <==> HasTable(m, d, k)
    {
    }
  }

  lemma PteAt(m: Memory, d: nat, i: nat, j: nat)
    requires HasTable(m, d, i) && IsTable(m, m[d].es[i].frame) && j < NPTENTRIES
    ensures Pte(m, d, i, j) == m[m[d].es[i].frame].es[j]
  {
  }

  lemma DirectoryApart(m: Memory, d: nat, i: nat)
    requires Sound(m, d) && HasTable(m, d, i)
    ensures m[d].es[i].frame != d && IsTable(m, m[d].es[i].frame)
  {
  }

  lemma UserTablesKept(m: Memory, d: nat, i: nat, t: nat)
    requires IsTable(m, d) && USERPDES <= i < NPDENTRIES && t != d
    ensures NoUserPages(m, d) ==> NoUserPages(WithTable(m, d, i, t), d)
  {
    forall k: nat | k < USERPDES
      ensures HasTable(WithTable(m, d, i, t), d, k) <==> HasTable(m, d, k)
    {
    }
  }

  lemma NoTables(m: Memory, d: nat)
    requires forall i :: !HasTable(m, d, i)
    ensures forall i: nat, j: nat :: !Pte(m, d, i, j).present
  {
  }

  /** The pages of kmap lie above KERNBASE and are distinct. */
  ghost predicate KernelMap(kmap: seq<KernelPage>) {
    && (forall k :: 0 <= k < |kmap| ==> USERPDES <= kmap[k].i < NPDENTRIES && kmap[k].j < NPTENTRIES)
    && (forall k, l :: 0 <= k < l < |kmap| ==> kmap[k].i != kmap[l].i || kmap[k].j != kmap[l].j)
  }

  /** The entries of the page directory that the first k mappings need. */
  ghost function Directories(kmap: seq<KernelPage>, k: nat): (r: set<nat>)
    requires k <= |kmap|
  {
    set l | 0 <= l < k :: kmap[l].i
  }

  /** How many frames the first k mappings take: the page directory, and a page table for each of its entries. */
  ghost function FramesFor(kmap: seq<KernelPage>, k: nat): (n: nat)
    requires k <= |kmap|
  {
    1 + |Directories(kmap, k)|
  }

  /** How many frames setupkvm takes. */
  ghost function KernelNeed(kmap: seq<KernelPage>): (n: nat) {
    FramesFor(kmap, |kmap|)
  }

  lemma NextDirectory(kmap: seq<KernelPage>, k: nat)
    requires k < |kmap|
    ensures forall i :: i in Directories(kmap, k + 1) <==> i in Directories(kmap, k) || i == kmap[k].i
    ensures FramesFor(kmap, k + 1) == FramesFor(kmap, k)
            + (if kmap[k].i in Directories(kmap, k) then 0 else 1) <= KernelNeed(kmap)
  {
    var d, i := Directories(kmap, k), kmap[k].i;
    assert Directories(kmap, k + 1) == d + {i};
    assert i in d ==> d + {i} == d;
    assert i !in d ==> |d + {i}| == |d| + 1;
    SubsetSize(Directories(kmap, k + 1), Directories(kmap, |kmap|));
  }

  lemma NoDirectories(kmap: seq<KernelPage>)
    ensures Directories(kmap, 0) == {} && FramesFor(kmap, 0) == 1 <= KernelNeed(kmap)
  {
    assert Directories(kmap, 0) == {};
    SubsetSize({}, Directories(kmap, |kmap|));
  }

  lemma BuiltElsewhere(m0: Memory, free0: seq<nat>, m: Memory, free: seq<nat>, d: nat)
    requires Built(m0, free0, m, free, d, {})
    ensures forall f :: f in m0 && !In(f, free0) ==> f in m && m[f] == m0[f]
  {
  }

  ghost predicate Listed(kmap: seq<KernelPage>, n: nat, i: nat, j: nat) {
    exists k :: 0 <= k < n && k < |kmap| && kmap[k].i == i && kmap[k].j == j
  }

  /** Only the entry of (i, j) has changed, to e. */
  ghost predicate PteSet(m: Memory, m': Memory, d: nat, i: nat, j: nat, e: Entry) {
    forall k: nat, l: nat :: Pte(m', d, k, l) == if k == i && l == j then e else Pte(m, d, k, l)
  }

  // ----- copying -----

  /** Take a frame for a page and fill it. */
  lemma BuiltTakes(m0: Memory, free0: seq<nat>, m: Memory, free: seq<nat>, d: nat, data: seq<int>)
    requires Built(m0, free0, m, free, d, {}) && free != []
    ensures Built(m0, free0, m[free[0] := Bytes(data)], free[1..], d, {free[0]})
            && SamePtes(m, m[free[0] := Bytes(data)], d)
    ensures In(free[0], free0) && !In(free[0], free[1..])
  {
    hide Owns, Sound, Pte;
    var x := free[0];
    assert IsBytes(m, x);
    BytesKeep(m, d, x, data);
    forall f
      ensures In(f, free) <==> f == x || In(f, free[1..])
      ensures !In(x, free[1..]) && In(x, free0) && Suffix(free0, free[1..])
    {
      PopSuffix(free0, free, f);
    }
    forall k | 0 <= k < |free[1..]|
      ensures IsBytes(m[x := Bytes(data)], free[1..][k]) && !Owns(m, d, free[1..][k])
    {
      assert free[1..][k] == free[k + 1];
    }
  }

  /** Map the spare frame as a user page. */
  lemma BuiltUser(m0: Memory, free0: seq<nat>, m: Memory, free: seq<nat>, d: nat, i: nat, j: nat, e: Entry)
    requires Built(m0, free0, m, free, d, {e.frame}) && HasTable(m, d, i) && IsTable(m, m[d].es[i].frame)
             && j < NPTENTRIES
    requires i < USERPDES && e.present && !Pte(m, d, i, j).present && IsBytes(m, e.frame) && In(e.frame, free0)
             && !In(e.frame, free)
    ensures Built(m0, free0, WithPte(m, d, i, j, e), free, d, {})
  {
    hide Owns, Sound, FreeOk, Suffix, Pte;
    SetPte(m, free, d, i, j, e);
    OwnsTables(m, d, i);
    assert In(m[d].es[i].frame, free0);
  }

  function Num(i: nat, j: nat): (a: nat) {
    i * NPTENTRIES + j
  }

  /** Page (i, j) of d has the flags and bytes that page (i, j) of p had in m0. */
  ghost predicate CopiedAt(m0: Memory, m: Memory, p: nat, d: nat, i: nat, j: nat) {
    var e0, e := Pte(m0, p, i, j), Pte(m, d, i, j);
    e0.present && e.present && e.flags == e0.flags && IsBytes(m0, e0.frame) && e.frame in m
      && m[e.frame] == m0[e0.frame]
  }

  /** The first a user pages have been copied and there are no others. */
  ghost predicate Progress(m0: Memory, m: Memory, p: nat, d: nat, a: nat) {
    && (forall i: nat, j: nat :: i < USERPDES && j < NPTENTRIES ==>
          if Num(i, j) < a then CopiedAt(m0, m, p, d, i, j) else !Pte(m, d, i, j).present)
    && (forall i: nat :: i < USERPDES ==> (HasTable(m, d, i) <==> Num(i, 0) < a))
  }

  lemma ProgressStart(m0: Memory, m: Memory, p: nat, d: nat)
    requires NoUserPages(m, d)
    ensures Progress(m0, m, p, d, 0)
  {
  }

  lemma ProgressStep(m0: Memory, m: Memory, m': Memory, p: nat, d: nat, i: nat, j: nat, e: Entry)
    requires Progress(m0, m, p, d, Num(i, j)) && i < USERPDES && j < NPTENTRIES && PteSet(m, m', d, i, j, e)
    requires forall f :: IsPageOf(m, d, f) ==> f in m && f in m' && m'[f] == m[f]
    requires forall k: nat :: HasTable(m', d, k) <==> HasTable(m, d, k) || k == i
    requires CopiedAt(m0, m', p, d, i, j)
    ensures Progress(m0, m', p, d, Num(i, j) + 1)
  {
  }

  // ----- freeing -----

  /** The frame of page (i, j) freed and its entry cleared. */
  ghost function Cleared(m: Memory, d: nat, i: nat, j: nat): (r: Memory)
    requires HasTable(m, d, i) && IsTable(m, m[d].es[i].frame) && j < NPTENTRIES
  {
    var t := m[d].es[i].frame;
    m[m[t].es[j].frame := JUNK][t := Table(m[t].es[j := NONE])]
  }

  lemma ClearStep(m: Memory, free: seq<nat>, d: nat, i: nat, j: nat)
    requires Sound(m, d) && FreeOk(m, free, d) && HasTable(m, d, i) && Mapped(m, d, i, j)
    ensures IsTable(m, m[d].es[i].frame) && m[d].es[i].frame != Pte(m, d, i, j).frame
    ensures var m', x := Cleared(m, d, i, j), Pte(m, d, i, j).frame;
            && Sound(m', d) && FreeOk(m', [x] + free, d) && PteSet(m, m', d, i, j, NONE) && d in m' && m'[d] == m[d]
            && (forall f :: Owns(m', d, f) <==> Owns(m, d, f) && f != x)
            && (forall f :: f in m && !Owns(m, d, f) ==> f in m' && m'[f] == m[f])
            && (forall f :: f in m ==> f in m') && Owns(m, d, x) && !In(x, free)
  {
    var x := Pte(m, d, i, j).frame;
    var m1 := m[x := JUNK];
    assert IsBytes(m, x) && IsPageOf(m, d, x);
    BytesKeep(m, d, x, [1]);
    assert m1[d] == m[d] && HasTable(m1, d, i) && Pte(m1, d, i, j) == Pte(m, d, i, j);
    assert Mapped(m1, d, i, j);
    var m' := WithPte(m1, d, i, j, NONE);
    assert m' == Cleared(m, d, i, j);
    MapSound(m1, d, i, j, NONE);
    forall f
      ensures Owns(m', d, f) <==> Owns(m, d, f) && f != x
    {
      ClearOwns(m1, d, i, j, f);
    }
    forall k: nat, l: nat
      ensures Pte(m', d, k, l) == if k == i && l == j then NONE else Pte(m, d, k, l)
    {
      PtePtes(m1, d, i, j, NONE, k, l);
    }
    OwnsTables(m, d, i);
    hide Owns, Pte, Mapped;
  }

  /** Page (i, j) is jumped over when freeing starts at page (li, lj): the start lies inside a 4 MB region without a
      page table, the first page table behind it is that of i, and the jumps of whole regions land behind j. */
  ghost predicate Missed(m: Memory, d: nat, li: nat, lj: nat, i: nat, j: nat) {
    0 < lj && li < i && HasTable(m, d, i) && j < lj && forall k: nat :: li <= k < i ==> !HasTable(m, d, k)
  }

  /** Page (i, j) is freed when pages from (li, lj) up to number b are. */
  ghost predicate Goes(m: Memory, d: nat, li: nat, lj: nat, b: nat, i: nat, j: nat) {
    Mapped(m, d, i, j) && Num(li, lj) <= Num(i, j) < b && !Missed(m, d, li, lj, i, j)
  }

  ghost predicate Reached(m: Memory, d: nat, li: nat, lj: nat, a: nat) {
    exists k: nat :: li <= k && HasTable(m, d, k) && Num(k, lj) < a
  }

  ghost predicate Skipping(m: Memory, d: nat, li: nat, lj: nat, i: nat, j: nat) {
    j == lj && forall k: nat :: li <= k < i ==> !HasTable(m, d, k)
  }

  /** Where the loop of deallocuvm can be: still jumping in step with its start, or past the first page table. */
  ghost predicate Cursor(m: Memory, d: nat, li: nat, lj: nat, i: nat, j: nat) {
    && Num(li, lj) <= Num(i, j) && j < NPTENTRIES && lj < NPTENTRIES
    && (Skipping(m, d, li, lj, i, j) || (Reached(m, d, li, lj, Num(i, j)) && (j == 0 || HasTable(m, d, i))))
  }

  /** Jumping over a region without a page table passes no page that goes. */
  lemma JumpGoes(m: Memory, d: nat, li: nat, lj: nat, ci: nat, cj: nat, b: nat, i: nat, j: nat)
    requires Cursor(m, d, li, lj, ci, cj) && !HasTable(m, d, ci) && Num(ci, cj) <= b <= Num(ci + 1, cj)
    ensures Goes(m, d, li, lj, b, i, j) <==> Goes(m, d, li, lj, Num(ci, cj), i, j)
  {
  }

  lemma JumpCursor(m: Memory, d: nat, li: nat, lj: nat, i: nat, j: nat)
    requires Cursor(m, d, li, lj, i, j) && !HasTable(m, d, i)
    ensures Cursor(m, d, li, lj, i + 1, j)
  {
  }

  lemma StepCursor(m: Memory, d: nat, li: nat, lj: nat, i: nat, j: nat)
    requires Cursor(m, d, li, lj, i, j) && HasTable(m, d, i)
    ensures if j + 1 < NPTENTRIES then Cursor(m, d, li, lj, i, j + 1) else Cursor(m, d, li, lj, i + 1, 0)
  {
  }

  lemma StepGoes(m: Memory, d: nat, li: nat, lj: nat, ci: nat, cj: nat, i: nat, j: nat)
    requires Cursor(m, d, li, lj, ci, cj) && j < NPTENTRIES
    ensures Goes(m, d, li, lj, Num(ci, cj) + 1, i, j) <==>
            Goes(m, d, li, lj, Num(ci, cj), i, j) || (i == ci && j == cj && Mapped(m, d, ci, cj))
  {
  }

  /** From (m0, free0) exactly the pages that go, up to number b, have been freed. */
  ghost predicate Freed(m0: Memory, free0: seq<nat>, m: Memory, free: seq<nat>, d: nat, li: nat, lj: nat, b: nat) {
    && Sound(m, d) && FreeOk(m, free, d) && d in m && d in m0 && m[d] == m0[d]
    && (forall i: nat, j: nat :: j < NPTENTRIES ==> Pte(m, d, i, j) == if Goes(m0, d, li, lj, b, i, j) then NONE
       else Pte(m0, d, i, j))
    && (forall f :: Owns(m, d, f) || In(f, free) <==> Owns(m0, d, f) || In(f, free0))
    && (forall f :: f in m0 && !Owns(m0, d, f) && !In(f, free0) ==> f in m && m[f] == m0[f])
    && (forall f :: Owns(m0, d, f) || In(f, free0) ==> f in m)
  }

  lemma NextPage(a: nat)
    ensures var i, j := a / NPTENTRIES, a % NPTENTRIES;
            if j + 1 < NPTENTRIES then (a + 1) / NPTENTRIES == i && (a + 1) % NPTENTRIES == j + 1
            else (a + 1) / NPTENTRIES == i + 1 && (a + 1) % NPTENTRIES == 0
  {
  }

  lemma FreedNone(m: Memory, free: seq<nat>, d: nat, li: nat, lj: nat)
    requires Sound(m, d) && FreeOk(m, free, d) && lj < NPTENTRIES
    ensures Freed(m, free, m, free, d, li, lj, Num(li, lj)) && Cursor(m, d, li, lj, li, lj)
  {
  }

  lemma OwnedExist(m: Memory, d: nat, f: nat)
    requires Sound(m, d) && Owns(m, d, f)
    ensures f in m
  {
  }

  lemma FreedJump(m0: Memory, free0: seq<nat>, m: Memory, free: seq<nat>, d: nat, li: nat, lj: nat, i: nat, j: nat,
                  hi: nat)
    requires Freed(m0, free0, m, free, d, li, lj, Num(i, j)) && Cursor(m0, d, li, lj, i, j) && !HasTable(m, d, i)
             && Num(i, j) < hi
    ensures Freed(m0, free0, m, free, d, li, lj, Min(Num(i + 1, j), hi)) && Cursor(m0, d, li, lj, i + 1, j)
  {
    hide Owns, Pte, Goes, Cursor, Sound;
    SameTables(m0, m, d, i);
    forall k: nat, l: nat
      ensures Goes(m0, d, li, lj, Min(Num(i + 1, j), hi), k, l) <==> Goes(m0, d, li, lj, Num(i, j), k, l)
    {
      JumpGoes(m0, d, li, lj, i, j, Min(Num(i + 1, j), hi), k, l);
    }
    JumpCursor(m0, d, li, lj, i, j);
  }

  lemma SameTables(m: Memory, m': Memory, d: nat, i: nat)
    requires d in m && d in m' && m[d] == m'[d]
    ensures HasTable(m, d, i) <==> HasTable(m', d, i)
  {
  }

  /** Page (i, j), whose table exists, is freed if it is mapped. */
  lemma FreedStep(m0: Memory, free0: seq<nat>, m: Memory, free: seq<nat>, d: nat, li: nat, lj: nat, i: nat, j: nat)
    requires Freed(m0, free0, m, free, d, li, lj, Num(i, j)) && Cursor(m0, d, li, lj, i, j) && HasTable(m, d, i)
             && i < USERPDES
    ensures IsTable(m, m[d].es[i].frame) && j < NPTENTRIES
    ensures if Pte(m, d, i, j).present
            then m[d].es[i].frame != Pte(m, d, i, j).frame &&
                 Freed(m0, free0, Cleared(m, d, i, j), [Pte(m, d, i, j).frame] + free, d, li, lj, Num(i, j) + 1)
            else Freed(m0, free0, m, free, d, li, lj, Num(i, j) + 1)
    ensures if j + 1 < NPTENTRIES then Cursor(m0, d, li, lj, i, j + 1) else Cursor(m0, d, li, lj, i + 1, 0)
  {
    hide Owns, Pte, Goes, FreeOk;
    SameTables(m0, m, d, i);
    StepCursor(m0, d, li, lj, i, j);
    DirectoryApart(m, d, i);
    NotYet(m0, m, d, li, lj, i, j);
    if Pte(m, d, i, j).present {
      FreedClear(m0, free0, m, free, d, li, lj, i, j);
    } else {
      forall k: nat, l: nat | l < NPTENTRIES
        ensures Goes(m0, d, li, lj, Num(i, j) + 1, k, l) <==> Goes(m0, d, li, lj, Num(i, j), k, l)
      {
        StepGoes(m0, d, li, lj, i, j, k, l);
      }
    }
  }

  /** The page under the cursor is as it was at the start. */
  lemma NotYet(m0: Memory, m: Memory, d: nat, li: nat, lj: nat, i: nat, j: nat)
    requires j < NPTENTRIES && i < USERPDES
    requires forall k: nat, l: nat :: l < NPTENTRIES ==>
               Pte(m, d, k, l) == if Goes(m0, d, li, lj, Num(i, j), k, l) then NONE else Pte(m0, d, k, l)
    ensures Pte(m, d, i, j) == Pte(m0, d, i, j) && (Mapped(m0, d, i, j) <==> Pte(m, d, i, j).present)
            && (Mapped(m, d, i, j) <==> Mapped(m0, d, i, j))
  {
  }

  lemma FreedClear(m0: Memory, free0: seq<nat>, m: Memory, free: seq<nat>, d: nat, li: nat, lj: nat, i: nat, j: nat)
    requires Freed(m0, free0, m, free, d, li, lj, Num(i, j)) && Cursor(m0, d, li, lj, i, j) && HasTable(m, d, i)
    requires Mapped(m, d, i, j) && Mapped(m0, d, i, j) && IsTable(m, m[d].es[i].frame) && j < NPTENTRIES
    ensures m[d].es[i].frame != Pte(m, d, i, j).frame
    ensures Freed(m0, free0, Cleared(m, d, i, j), [Pte(m, d, i, j).frame] + free, d, li, lj, Num(i, j) + 1)
  {
    hide Owns, Pte, Goes, FreeOk, Mapped, Cursor, Sound, Cleared;
    var m', x := Cleared(m, d, i, j), Pte(m, d, i, j).frame;
    ClearStep(m, free, d, i, j);
    forall k: nat, l: nat | l < NPTENTRIES
      ensures Goes(m0, d, li, lj, Num(i, j) + 1, k, l) <==> Goes(m0, d, li, lj, Num(i, j), k, l) || (k == i && l == j)
    {
      StepGoes(m0, d, li, lj, i, j, k, l);
    }
    assert forall f :: In(f, [x] + free) <==> f == x || In(f, free);
  }

  /** f is one of the first n page tables of d. */
  ghost predicate TableBelow(m: Memory, d: nat, n: nat, f: nat) {
    IsTable(m, d) && exists k :: 0 <= k < n && k < NPDENTRIES && m[d].es[k].present && m[d].es[k].frame == f
  }

  lemma TableAt(m: Memory, d: nat, i: nat, f: nat)
    requires IsTable(m, d) && i < NPDENTRIES
    ensures TableBelow(m, d, i + 1, f) <==> TableBelow(m, d, i, f) || (m[d].es[i].present && f == m[d].es[i].frame)
  {
    if TableBelow(m, d, i + 1, f) {
      var k :| 0 <= k < i + 1 && k < NPDENTRIES && m[d].es[k].present && m[d].es[k].frame == f;
      assert k == i || TableBelow(m, d, i, f);
    }
    if TableBelow(m, d, i, f) {
      var k :| 0 <= k < i && k < NPDENTRIES && m[d].es[k].present && m[d].es[k].frame == f;
      assert TableBelow(m, d, i + 1, f);
    }
    if m[d].es[i].present && f == m[d].es[i].frame {
      assert TableBelow(m, d, i + 1, f);
    }
  }

  lemma TableNext(m: Memory, free: seq<nat>, d: nat, i: nat)
    requires Sound(m, d) && FreeOk(m, free, d) && i < NPDENTRIES
    ensures m[d].Table? && |m[d].es| == NPDENTRIES
    ensures forall f :: TableBelow(m, d, i + 1, f) <==>
              TableBelow(m, d, i, f) || (m[d].es[i].present && f == m[d].es[i].frame)
    ensures m[d].es[i].present ==>
              !TableBelow(m, d, i, m[d].es[i].frame) && !In(m[d].es[i].frame, free) && m[d].es[i].frame != d
  {
    var e := m[d].es[i];
    if e.present {
      assert IsTableOf(m, d, e.frame) && Owns(m, d, e.frame);
    }
    forall f
      ensures TableBelow(m, d, i + 1, f) <==> TableBelow(m, d, i, f) || (e.present && f == e.frame)
    {
      TableAt(m, d, i, f);
    }
  }

  lemma TablesAre(m: Memory, free: seq<nat>, d: nat)
    requires Sound(m, d) && FreeOk(m, free, d)
    ensures forall f :: TableBelow(m, d, NPDENTRIES, f) <==> IsTableOf(m, d, f)
    ensures !In(d, free) && !IsTableOf(m, d, d)
  {
  }

  lemma PushPool(m: Memory, free: seq<nat>, x: nat)
    requires Pool(m, free) && !In(x, free)
    ensures Pool(m[x := JUNK], [x] + free)
    ensures forall f :: In(f, [x] + free) <==> f == x || In(f, free)
  {
  }

  /** Started at page 0 the loop of deallocuvm jumps over nothing. */
  lemma NoPagesLeft(m0: Memory, free0: seq<nat>, m: Memory, free: seq<nat>, d: nat)
    requires Freed(m0, free0, m, free, d, 0, 0, Num(USERPDES, 0))
    ensures forall f :: Owns(m, d, f) <==> f == d || IsTableOf(m, d, f)
    ensures Pool(m, free)
  {
    forall i: nat, j: nat
      ensures !Mapped(m, d, i, j)
    {
      if i < USERPDES && j < NPTENTRIES {
        assert Num(i, j) < Num(USERPDES, 0);
        assert Goes(m0, d, 0, 0, Num(USERPDES, 0), i, j) || !Pte(m0, d, i, j).present;
      }
    }
    hide Pte, Mapped;
  }

  datatype Copied = Done | NoFrame | NoTable

  /** The parent's page is still what it was when the copy began. */
  lemma ParentKept(m0: Memory, free0: seq<nat>, m: Memory, free: seq<nat>, p: nat, d: nat, i: nat, j: nat)
    requires Built(m0, free0, m, free, d, {}) && Sound(m0, p) && FreeOk(m0, free0, p) && Mapped(m0, p, i, j)
    ensures Sound(m, p) && FreeOk(m, free, p) && HasTable(m, p, i) && i < USERPDES && j < NPTENTRIES
    ensures IsTable(m, m[p].es[i].frame) && m[m[p].es[i].frame].es[j] == Pte(m0, p, i, j) && Pte(m0, p, i, j).present
    ensures var f := Pte(m0, p, i, j).frame; IsBytes(m, f) && IsBytes(m0, f) && m[f] == m0[f] && !In(f, free)
  {
    hide Owns;
    forall f | Owns(m0, p, f)
      ensures f in m0 && f in m && m[f] == m0[f] && !In(f, free0)
    {
      OwnedExist(m0, p, f);
    }
    SpaceKept(m0, m, p);
    assert Pte(m, p, i, j) == Pte(m0, p, i, j);
    PageOwned(m0, p, i, j);
    SuffixIn(free0, free);
  }

  lemma PageOwned(m: Memory, d: nat, i: nat, j: nat)
    requires Mapped(m, d, i, j)
    ensures Owns(m, d, Pte(m, d, i, j).frame)
  {
  }

  lemma SuffixIn(free0: seq<nat>, free: seq<nat>)
    requires Suffix(free0, free)
    ensures forall f :: In(f, free) ==> In(f, free0)
    ensures forall k :: 0 <= k < |free| ==> free[k] == free0[|free0| - |free| + k]
  {
  }

  ghost predicate Source(m0: Memory, p: nat, i: nat, j: nat, data: seq<int>) {
    && i < USERPDES && j < NPTENTRIES && Pte(m0, p, i, j).present
    && IsBytes(m0, Pte(m0, p, i, j).frame) && m0[Pte(m0, p, i, j).frame] == Bytes(data)
  }

  lemma CopyTakes(m0: Memory, free0: seq<nat>, m: Memory, free: seq<nat>, p: nat, d: nat, i: nat, j: nat,
                  data: seq<int>)
    requires Built(m0, free0, m, free, d, {}) && Progress(m0, m, p, d, Num(i, j)) && free != []
    requires i < USERPDES && j < NPTENTRIES
    ensures var m1, free1 := m[free[0] := Bytes(data)], free[1..];
            && Sound(m1, d) && FreeOk(m1, free1, d) && (HasTable(m1, d, i) <==> j > 0)
            && Built(m0, free0, m1, free1, d, {free[0]}) && In(free[0], free0) && !In(free[0], free1)
            && SamePtes(m, m1, d) && m1[d] == m[d]
  {
    hide Owns, Pte;
    BuiltTakes(m0, free0, m, free, d, data);
    assert IsBytes(m, free[0]);
    var m1 := m[free[0] := Bytes(data)];
    SameTables(m, m1, d, i);
  }

  /** The memory once the page table for i is there: m1, or m1 with a table taken from free1. */
  ghost function Tabled(m1: Memory, free1: seq<nat>, d: nat, i: nat): (r: (Memory, seq<nat>))
    requires IsTable(m1, d) && i < NPDENTRIES
  {
    if HasTable(m1, d, i) || free1 == [] then (m1, free1) else (WithTable(m1, d, i, free1[0]), free1[1..])
  }

  lemma CopyMaps(m0: Memory, free0: seq<nat>, m: Memory, free: seq<nat>, p: nat, d: nat, i: nat, j: nat, data: seq<int>)
    requires Built(m0, free0, m, free, d, {}) && Progress(m0, m, p, d, Num(i, j)) && free != []
             && Source(m0, p, i, j, data)
    requires j > 0 || |free| > 1
    ensures var m1 := m[free[0] := Bytes(data)];
            && IsTable(m1, d)
            && var (m2, free2) := Tabled(m1, free[1..], d, i);
               && HasTable(m2, d, i) && IsTable(m2, m2[d].es[i].frame)
               && var m3 := WithPte(m2, d, i, j, Entry(true, free[0], Pte(m0, p, i, j).flags));
                  Built(m0, free0, m3, free2, d, {}) && Progress(m0, m3, p, d, Num(i, j) + 1)
  {
    hide Owns, Pte, FreeOk, Progress, IsPageOf;
    var x, e := free[0], Entry(true, free[0], Pte(m0, p, i, j).flags);
    var m1 := m[x := Bytes(data)];
    assert IsTable(m, d) && IsBytes(m, x) by { HeadIsBytes(m, free, d); }
    CopyTables(m0, free0, m, free, p, d, i, j, data);
    var (m2, free2) := Tabled(m1, free[1..], d, i);
    Unmapped(m0, m, p, d, i, j);
    BuiltUser(m0, free0, m2, free2, d, i, j, e);
    SetPte(m2, free2, d, i, j, e);
    var m3 := WithPte(m2, d, i, j, e);
    forall k: nat
      ensures HasTable(m3, d, k) <==> HasTable(m, d, k) || k == i
    {
      DirectoryApart(m2, d, i);
      SameTables(m2, m3, d, k);
    }
    forall f | IsPageOf(m, d, f)
      ensures f in m && f in m3 && m3[f] == m[f]
    {
      PageIsBytes(m, d, f);
    }
    assert Pte(m3, d, i, j) == e;
    assert m3[x] == Bytes(data);
    assert CopiedAt(m0, m3, p, d, i, j);
    ProgressStep(m0, m, m3, p, d, i, j, e);
  }

  lemma HeadIsBytes(m: Memory, free: seq<nat>, d: nat)
    requires FreeOk(m, free, d) && free != []
    ensures IsBytes(m, free[0]) && !Owns(m, d, free[0])
  {
  }

  lemma PageIsBytes(m: Memory, d: nat, f: nat)
    requires Sound(m, d) && IsPageOf(m, d, f)
    ensures IsBytes(m, f) && Owns(m, d, f)
  {
  }

  lemma Unmapped(m0: Memory, m: Memory, p: nat, d: nat, i: nat, j: nat)
    requires Progress(m0, m, p, d, Num(i, j)) && i < USERPDES && j < NPTENTRIES
    ensures !Pte(m, d, i, j).present && (HasTable(m, d, i) <==> j > 0)
  {
  }

  /** The frame for the page has been filled and its table is there. */
  lemma CopyTables(m0: Memory, free0: seq<nat>, m: Memory, free: seq<nat>, p: nat, d: nat, i: nat, j: nat,
                   data: seq<int>)
    requires Built(m0, free0, m, free, d, {}) && Progress(m0, m, p, d, Num(i, j)) && free != []
    requires i < USERPDES && j < NPTENTRIES && (j > 0 || |free| > 1)
    ensures var x, m1 := free[0], m[free[0] := Bytes(data)];
            && IsTable(m1, d)
            && var (m2, free2) := Tabled(m1, free[1..], d, i);
               && Built(m0, free0, m2, free2, d, {x}) && SamePtes(m, m2, d) && HasTable(m2, d, i)
               && IsTable(m2, m2[d].es[i].frame) && x in m2 && m2[x] == Bytes(data) && In(x, free0) && !In(x, free2)
               && (forall k: nat :: HasTable(m2, d, k) <==> HasTable(m, d, k) || k == i)
               && (forall f :: IsPageOf(m, d, f) ==> f in m && f in m2 && m2[f] == m[f])
  {
    hide Owns, Pte, Progress, IsPageOf;
    var x, m1, free1 := free[0], m[free[0] := Bytes(data)], free[1..];
    CopyTakes(m0, free0, m, free, p, d, i, j, data);
    HeadIsBytes(m, free, d);
    var (m2, free2) := Tabled(m1, free1, d, i);
    forall f | IsPageOf(m, d, f)
      ensures f in m && f in m1 && m1[f] == m[f] && IsBytes(m1, f) && !In(f, free1)
    {
      PageIsBytes(m, d, f);
      SuffixIn(free, free1);
    }
    forall k: nat
      ensures HasTable(m1, d, k) <==> HasTable(m, d, k)
    {
      SameTables(m, m1, d, k);
    }
    if !HasTable(m1, d, i) {
      BuiltTable(m0, free0, m1, free1, d, {x}, i);
      TakeTable(m1, free1, d, i);
      HeadIsBytes(m1, free1, d);
      PopSuffix(free0, free1, x);
      NewTable(m1, d, i, free1[0]);
    }
    DirectoryApart(m2, d, i);
  }

  lemma NewTable(m: Memory, d: nat, i: nat, t: nat)
    requires IsTable(m, d) && i < NPDENTRIES && t != d
    ensures forall k: nat :: HasTable(WithTable(m, d, i, t), d, k) <==> HasTable(m, d, k) || k == i
  {
  }

  class Vm {
    var mem: Memory
    var free: seq<nat>

    constructor (m: Memory, fl: seq<nat>)
      ensures mem == m && free == fl
    {
      mem, free := m, fl;
    }

    method Kalloc() returns (r: Option<nat>)
      modifies this`free
      ensures r.None? <==> old(free) == []
      ensures r.None? ==> free == old(free)
      ensures r.Some? ==> r.value == old(free)[0] && free == old(free)[1..]
    {
      if free == [] {
        return None;
      }
      r := Some(free[0]);
      free := free[1..];
    }

    method Kfree(f: nat)
      modifies this
      ensures mem == old(mem)[f := JUNK] && free == [f] + old(free)
    {
      mem := mem[f := JUNK];
      free := [f] + free;
    }

    method Walkpgdir(d: nat, i: nat, alloc: bool) returns (t: Option<nat>)
      requires Sound(mem, d) && FreeOk(mem, free, d) && i < NPDENTRIES
      modifies this
      ensures HasTable(old(mem), d, i) ==> mem == old(mem) && free == old(free) && t == Some(mem[d].es[i].frame)
      ensures !HasTable(old(mem), d, i) && (!alloc || old(free) == []) ==>
                mem == old(mem) && free == old(free) && t == None
      ensures !HasTable(old(mem), d, i) && alloc && old(free) != [] ==>
                t == Some(old(free)[0]) && free == old(free)[1..] && mem == WithTable(old(mem), d, i, old(free)[0])
    {
      if mem[d].es[i].present {
        return Some(mem[d].es[i].frame);
      }
      if !alloc {
        return None;
      }
      t := Kalloc();
      if t.None? {
        return;
      }
      mem := mem[t.value := Zeroed()];
      mem := mem[d := Table(mem[d].es[i := Entry(true, t.value, 7)])];
    }

    /** mappages for one page of an address space under construction. */
    method MapKernelPage(d: nat, kp: KernelPage, ghost m0: Memory, ghost free0: seq<nat>) returns (ok: bool)
      requires Built(m0, free0, mem, free, d, {}) && NoUserPages(mem, d)
      requires USERPDES <= kp.i < NPDENTRIES && kp.j < NPTENTRIES && !Pte(mem, d, kp.i, kp.j).present
      modifies this
      ensures ok ==> Built(m0, free0, mem, free, d, {}) && NoUserPages(mem, d)
      ensures ok ==> PteSet(old(mem), mem, d, kp.i, kp.j, Entry(true, kp.frame, kp.flags))
      ensures ok ==> forall k: nat :: HasTable(mem, d, k) <==> HasTable(old(mem), d, k) || k == kp.i
      ensures ok ==> |free| + (if HasTable(old(mem), d, kp.i) then 0 else 1) == |old(free)|
      ensures !ok ==> mem == old(mem) && free == old(free) == [] && !HasTable(mem, d, kp.i)
    {
      hide Owns, Pte;
      var i, j, e := kp.i, kp.j, Entry(true, kp.frame, kp.flags);
      var t := Walkpgdir(d, i, true);
      if t.None? {
        return false;
      }
      if !HasTable(old(mem), d, i) {
        TakeTable(old(mem), old(free), d, i);
        BuiltTable(m0, free0, old(mem), old(free), d, {}, i);
        UserTablesKept(old(mem), d, i, old(free)[0]);
      }
      DirectoryApart(mem, d, i);
      BuiltKernel(m0, free0, mem, free, d, i, j, e);
      SetPte(mem, free, d, i, j, e);
      mem := mem[t.value := Table(mem[t.value].es[j := e])];
      return true;
    }

    /** deallocuvm: free the pages from number lo up to but not including hi. */
    method Deallocuvm(d: nat, lo: nat, hi: nat)
      requires Sound(mem, d) && FreeOk(mem, free, d) && lo <= hi <= Num(USERPDES, 0)
      modifies this
      ensures Freed(old(mem), old(free), mem, free, d, lo / NPTENTRIES, lo % NPTENTRIES, hi)
    {
      hide Owns, Pte, Mapped, Cursor, Goes;
      ghost var m0, free0, li, lj := mem, free, lo / NPTENTRIES, lo % NPTENTRIES;
      var a := lo;
      FreedNone(m0, free0, d, li, lj);
      while a < hi
        invariant lo <= a && Cursor(m0, d, li, lj, a / NPTENTRIES, a % NPTENTRIES)
        invariant Freed(m0, free0, mem, free, d, li, lj, Min(a, hi))
      {
        var i, j := a / NPTENTRIES, a % NPTENTRIES;
        assert a == Num(i, j) && i < USERPDES;
        var t := Walkpgdir(d, i, false);
        if t.None? {
          FreedJump(m0, free0, mem, free, d, li, lj, i, j, hi);
          a := a + (NPTENTRIES - 1);
          assert (a + 1) / NPTENTRIES == i + 1 && (a + 1) % NPTENTRIES == j;
        } else {
          FreedStep(m0, free0, mem, free, d, li, lj, i, j);
          PteAt(mem, d, i, j);
          NextPage(a);
          if mem[t.value].es[j].present {
            var x := mem[t.value].es[j].frame;
            Kfree(x);
            mem := mem[t.value := Table(mem[t.value].es[j := NONE])];
          }
        }
        a := a + 1;
      }
    }

    /** freevm returns exactly the frames of the address space to the free list. */
    method Freevm(d: nat)
      requires Sound(mem, d) && FreeOk(mem, free, d)
      modifies this
      ensures Pool(mem, free)
      ensures forall f :: In(f, free) <==> In(f, old(free)) || Owns(old(mem), d, f)
      ensures forall f :: f in old(mem) && !Owns(old(mem), d, f) && !In(f, old(free)) ==>
                f in mem && mem[f] == old(mem)[f]
    {
      hide Pte, Mapped, Goes, Missed, IsTableOf, Owns, In;
      Deallocuvm(d, 0, Num(USERPDES, 0));
      ghost var m1, free1 := mem, free;
      NoPagesLeft(old(mem), old(free), m1, free1, d);
      for i := 0 to NPDENTRIES
        invariant d in mem && mem[d] == m1[d] && Pool(mem, free)
        invariant forall f :: In(f, free) <==> In(f, free1) || TableBelow(m1, d, i, f)
        invariant forall f :: f in m1 && !TableBelow(m1, d, i, f) ==> f in mem && mem[f] == m1[f]
      {
        TableNext(m1, free1, d, i);
        if mem[d].es[i].present {
          var x := mem[d].es[i].frame;
          PushPool(mem, free, x);
          Kfree(x);
        }
      }
      TablesAre(m1, free1, d);
      PushPool(mem, free, d);
      Kfree(d);
    }

    /** copyuvm for page (i, j). */
    method CopyPage(p: nat, d: nat, i: nat, j: nat, ghost m0: Memory, ghost free0: seq<nat>)
      returns (r: Copied, ghost x: nat)
      requires Built(m0, free0, mem, free, d, {}) && Sound(m0, p) && FreeOk(m0, free0, p) && Mapped(m0, p, i, j)
      requires Progress(m0, mem, p, d, Num(i, j))
      modifies this
      ensures r.Done? ==> Built(m0, free0, mem, free, d, {}) && Progress(m0, mem, p, d, Num(i, j) + 1)
      ensures r.Done? ==> |free| + 1 + (if j == 0 then 1 else 0) == |old(free)|
      ensures r.NoFrame? ==> mem == old(mem) && free == old(free) == []
      ensures r.NoTable? ==>
                Built(m0, free0, mem, [], d, {x}) && In(x, free0) && !In(x, free) && free == []
                && |old(free)| == 1 && j == 0
    {
      hide Pte, Built, Progress, Owns, Mapped, Sound, FreeOk;
      x := 0;
      ParentKept(m0, free0, mem, free, p, d, i, j);
      var t := Walkpgdir(p, i, false);
      var pte := mem[t.value].es[j];
      var got := Kalloc();
      if got.None? {
        return NoFrame, 0;
      }
      x := got.value;
      var data := mem[pte.frame].data;
      CopyTakes(m0, free0, mem, old(free), p, d, i, j, data);
      mem := mem[got.value := Bytes(data)];
      var table := Walkpgdir(d, i, true);
      if table.None? {
        return NoTable, x;
      }
      CopyMaps(m0, free0, old(mem), old(free), p, d, i, j, data);
      mem := mem[table.value := Table(mem[table.value].es[j := Entry(true, got.value, pte.flags)])];
      return Done, x;
    }

    /** Every mapping of setupkvm is made, or memory has run out completely. */
    method Setupkvm(kmap: seq<KernelPage>) returns (r: Option<nat>)
      requires Pool(mem, free) && KernelMap(kmap)
      modifies this
      ensures r.Some? ==> Built(old(mem), old(free), mem, free, r.value, {}) && NoUserPages(mem, r.value)
      ensures r.Some? ==> forall k :: 0 <= k < |kmap| ==>
                Pte(mem, r.value, kmap[k].i, kmap[k].j) == Entry(true, kmap[k].frame, kmap[k].flags)
      ensures r.Some? <==> KernelNeed(kmap) <= |old(free)|
      ensures r.Some? ==> |free| == |old(free)| - KernelNeed(kmap)
      ensures r.None? ==> free == [] && forall f :: f in old(mem) && !In(f, old(free)) ==>
                f in mem && mem[f] == old(mem)[f]
    {
      hide Owns, Pte, Built, NoUserPages, Directories, FramesFor, HasTable;
      ghost var m0, free0 := mem, free;
      NoDirectories(kmap);
      var top := Kalloc();
      if top.None? {
        return None;
      }
      var d := top.value;
      NewDirectory(m0, free0);
      mem := mem[d := Zeroed()];
      NoTables(mem, d);
      for k := 0 to |kmap|
        invariant Built(m0, free0, mem, free, d, {}) && NoUserPages(mem, d)
        invariant |free0| == |free| + FramesFor(kmap, k)
        invariant forall i: nat :: HasTable(mem, d, i) <==> i in Directories(kmap, k)
        invariant forall l :: 0 <= l < k ==>
                    Pte(mem, d, kmap[l].i, kmap[l].j) == Entry(true, kmap[l].frame, kmap[l].flags)
        invariant forall i: nat, j: nat :: !Listed(kmap, k, i, j) ==> !Pte(mem, d, i, j).present
      {
        NextDirectory(kmap, k);
        var ok := MapKernelPage(d, kmap[k], m0, free0);
        if !ok {
          BuiltElsewhere(m0, free0, mem, free, d);
          return None;
        }
      }
      return Some(d);
    }

    /** copyuvm of the first n pages. It succeeds exactly when there are frames for the kernel's part, the pages and
        their page tables. Where it fails, lost are the frames that are then neither free nor in use. */
    method Copyuvm(p: nat, n: nat, kmap: seq<KernelPage>) returns (r: Option<nat>, ghost lost: set<nat>)
      requires Sound(mem, p) && FreeOk(mem, free, p) && KernelMap(kmap) && n <= Num(USERPDES, 0)
      requires forall i: nat, j: nat :: j < NPTENTRIES && Num(i, j) < n ==> Mapped(mem, p, i, j)
      modifies this
      ensures r.Some? <==> KernelNeed(kmap) + Need(n) <= |old(free)|
      ensures r.Some? ==>
                Built(old(mem), old(free), mem, free, r.value, {}) && Progress(old(mem), mem, p, r.value, n)
                && lost == {}
      ensures r.None? ==> Pool(mem, free) && forall f :: In(f, free) <==> In(f, old(free)) && f !in lost
      ensures r.None? && |old(free)| < KernelNeed(kmap) ==> forall f :: f in lost <==> In(f, old(free))
      ensures r.None? && |old(free)| >= KernelNeed(kmap) ==>
                (lost != {} <==> (|old(free)| - KernelNeed(kmap)) % (NPTENTRIES + 1) == 1) && |lost| <= 1
      ensures forall f :: f in lost ==> In(f, old(free))
      ensures forall f :: f in old(mem) && !In(f, old(free)) ==> f in mem && mem[f] == old(mem)[f]
    {
      hide Pte, Built, Progress, Owns, Mapped, Sound, FreeOk, In, Pool, KernelNeed;
      ghost var m0, free0 := mem, free;
      lost := {};
      IsPool(mem, free, p);
      var top := Setupkvm(kmap);
      if top.None? {
        AllLost(mem, free0);
        return None, AsSet(free0);
      }
      var d := top.value;
      ghost var left := |free|;
      ProgressStart(m0, mem, p, d);
      var a := 0;
      while a < n
        invariant a <= n && Built(m0, free0, mem, free, d, {}) && Progress(m0, mem, p, d, a) && |free| + Need(a) == left
      {
        var i, j := a / NPTENTRIES, a % NPTENTRIES;
        assert a == Num(i, j);
        NeedNext(a, n, left);
        var res, x := CopyPage(p, d, i, j, m0, free0);
        if !res.Done? {
          lost := if res.NoTable? then {x} else {};
          BuiltSpace(m0, free0, mem, free, d, lost);
          Freevm(d);
          return None, lost;
        }
        a := a + 1;
      }
      BuiltElsewhere(m0, free0, mem, free, d);
      return Some(d), {};
    }

    /** copyuvm, and freevm of the copy where there is one: the free frames are again those that were free, except the
        ones that copyuvm lost, and no other frame has changed. */
    method CopyThenFree(p: nat, n: nat, kmap: seq<KernelPage>) returns (copied: bool, ghost lost: set<nat>)
      requires Sound(mem, p) && FreeOk(mem, free, p) && KernelMap(kmap) && n <= Num(USERPDES, 0)
      requires forall i: nat, j: nat :: j < NPTENTRIES && Num(i, j) < n ==> Mapped(mem, p, i, j)
      modifies this
      ensures copied <==> KernelNeed(kmap) + Need(n) <= |old(free)|
      ensures copied ==> lost == {}
      ensures Pool(mem, free) && forall f :: In(f, free) <==> In(f, old(free)) && f !in lost
      ensures forall f :: f in old(mem) && !In(f, old(free)) ==> f in mem && mem[f] == old(mem)[f]
    {
      hide Pte, Built, Progress, Owns, Mapped, Sound, FreeOk, In, Pool, KernelNeed;
      ghost var m0, free0 := mem, free;
      var r;
      r, lost := Copyuvm(p, n, kmap);
      if r.Some? {
        BuiltSpace(m0, free0, mem, free, r.value, {});
        Freevm(r.value);
      }
      copied := r.Some?;
    }

    /** With one frame left behind setupkvm, copying any program of a page or more fails, and that frame is gone. */
    method CopyLoses(p: nat, n: nat, kmap: seq<KernelPage>) returns (copied: bool, ghost x: nat)
      requires Sound(mem, p) && FreeOk(mem, free, p) && KernelMap(kmap) && 0 < n <= Num(USERPDES, 0)
      requires forall i: nat, j: nat :: j < NPTENTRIES && Num(i, j) < n ==> Mapped(mem, p, i, j)
      requires |free| == KernelNeed(kmap) + 1
      modifies this
      ensures !copied && In(x, old(free)) && !In(x, free)
    {
      hide Pte, Built, Progress, Owns, Mapped, Sound, FreeOk, In, Pool, KernelNeed;
      var r;
      ghost var lost;
      assert Need(n) > 1;
      r, lost := Copyuvm(p, n, kmap);
      copied := r.Some?;
      x :| x in lost;
    }
  }

  /** Frames needed for a pages and their page tables. */
  function Need(a: nat): (k: nat) {
    (NPTENTRIES + 1) * (a / NPTENTRIES) + if a % NPTENTRIES == 0 then 0 else a % NPTENTRIES + 1
  }

  lemma NeedNext(a: nat, n: nat, left: nat)
    requires a < n
    ensures Need(a + 1) == Need(a) + 1 + (if a % NPTENTRIES == 0 then 1 else 0)
    ensures Need(a + 1) <= Need(n)
    ensures left == Need(a) ==> left % (NPTENTRIES + 1) != 1
    ensures left == Need(a) + 1 && a % NPTENTRIES == 0 ==> left % (NPTENTRIES + 1) == 1
  {
    NextPage(a);
    var i, j, k := a / NPTENTRIES, a % NPTENTRIES, n / NPTENTRIES;
    assert i <= k && Need(a) == 1025 * i + (if j == 0 then 0 else j + 1);
    Remainder(i, if j == 0 then 0 else j + 1);
    Remainder(i, 1);
  }

  lemma Remainder(i: nat, r: nat)
    requires r < 1025
    ensures (1025 * i + r) % 1025 == r
  {
  }

  ghost function AsSet(s: seq<nat>): (r: set<nat>) {
    set i | 0 <= i < |s| :: s[i]
  }

  lemma AllLost(m: Memory, free0: seq<nat>)
    ensures Pool(m, []) && forall f :: (f in AsSet(free0) <==> In(f, free0)) && !In(f, [])
  {
  }

  lemma IsPool(m: Memory, free: seq<nat>, d: nat)
    requires FreeOk(m, free, d)
    ensures Pool(m, free)
  {
  }

  /** What Built says about the frames: those of d, the free ones and the spare ones are those that were free before. */
  lemma BuiltSpace(m0: Memory, free0: seq<nat>, m: Memory, free: seq<nat>, d: nat, spare: set<nat>)
    requires Built(m0, free0, m, free, d, spare) && (forall f :: f in spare ==> !In(f, free))
    ensures Sound(m, d) && FreeOk(m, free, d)
    ensures forall f :: In(f, free) || Owns(m, d, f) <==> In(f, free0) && f !in spare
    ensures forall f :: f in m0 && !In(f, free0) ==> f in m && m[f] == m0[f]
  {
  }

  // ----- what deallocuvm leaves behind -----

  /** After freeing from page (li, lj) to number b, no page in between is left exactly when none of them is jumped
      over. */
  lemma FreesAllExactly(m0: Memory, free0: seq<nat>, m: Memory, free: seq<nat>, d: nat, li: nat, lj: nat, b: nat)
    requires Freed(m0, free0, m, free, d, li, lj, b)
    ensures (forall i: nat, j: nat :: Mapped(m, d, i, j) ==> !(Num(li, lj) <= Num(i, j) < b)) <==>
            (forall i: nat, j: nat :: Mapped(m0, d, i, j) && Missed(m0, d, li, lj, i, j) ==>
              !(Num(li, lj) <= Num(i, j) < b))
  {
  }

  /** In an address space whose user memory starts at 0 without gaps no page is jumped over. */
  lemma ContiguousMissesNone(m: Memory, d: nat, n: nat, li: nat, lj: nat, i: nat, j: nat)
    requires forall k: nat, l: nat :: k < USERPDES && l < NPTENTRIES ==> (Mapped(m, d, k, l) <==> Num(k, l) < n)
    requires lj < NPTENTRIES && Mapped(m, d, i, j)
    ensures !Missed(m, d, li, lj, i, j)
  {
    if li < i {
      assert Num(li, 0) < Num(i, j);
      assert Mapped(m, d, li, 0);
    }
  }

  /** With a gap one can be: freeing from page 1 on leaves the page that starts the second 4 MB region. */
  lemma MissedExample() returns (m: Memory)
    ensures Sound(m, 0) && Mapped(m, 0, 1, 0) && Missed(m, 0, 0, 1, 1, 0) && Num(0, 1) <= Num(1, 0)
  {
    var dir := Table(Zeroed().es[1 := Entry(true, 1, 7)]);
    var table := Table(Zeroed().es[0 := Entry(true, 2, 7)]);
    m := map[0 := dir, 1 := table, 2 := Bytes([])];
    assert HasTable(m, 0, 1) && !HasTable(m, 0, 0);
    forall i, j
      ensures Mapped(m, 0, i, j) <==> i == 1 && j == 0
    {
    }
    assert Pte(m, 0, 1, 0) == Entry(true, 2, 7);
  }
}
