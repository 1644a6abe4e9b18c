/** umalloc.c: malloc, free and morecore over a heap that grows by sbrk. Addresses and sizes are in
    units of sizeof(Header) == 8 bytes. */
module Umalloc {
  import opened Common
  import opened Blocks
  import opened FreeList

  const MINCORE := 4096     // units

  /** nunits as computed in 32-bit unsigned arithmetic. */
  function NUnits(nbytes: nat): (n: nat) {
    (nbytes + 8 - 1) % U32 / 8 + 1
  }

  /** The units beyond the header hold the request exactly when the sum does not wrap around. */
  lemma EnoughExactly(nbytes: nat)
    requires nbytes < U32
    ensures (NUnits(nbytes) - 1) * 8 >= nbytes <==> nbytes + 7 < U32
  {
  }

  /** And then no smaller number of units would. */
  lemma LeastUnits(nbytes: nat, n: nat)
    requires nbytes + 7 < U32 && 0 < n < NUnits(nbytes)
    ensures (n - 1) * 8 < nbytes
  {
  }

  /** The int that sbrk receives for nu units. */
  function SbrkArgument(nu: nat): (n: int) {
    var w := nu * 8 % U32;
    if w < 0x8000_0000 then w else w - U32
  }

  /** sbrk is asked for the nu units that morecore then uses exactly when nu is below 2^28. */
  lemma SbrkAskedExactly(nu: nat)
    requires nu < U32
    ensures SbrkArgument(nu) == nu * 8 <==> nu < 0x1000_0000
  {
  }

  /** The units that sbrk really gives when it is asked for nu: none where it reads its argument as zero or negative. */
  function Given(nu: nat): (n: nat) {
    if SbrkArgument(nu) > 0 then SbrkArgument(nu) / 8 else 0
  }

  lemma GivenExactly(nu: nat)
    requires 0 < nu < U32
    ensures Given(nu) == nu <==> nu < 0x1000_0000
  {
    SbrkAskedExactly(nu);
  }

  /** proc->sz, in units, after a successful sbrk for nu units at size sz: growproc gives what the argument says; a
      negative argument shrinks the process, unless the sum wraps around, which deallocuvm takes for no change. */
  function SizeAfter(sz: nat, nu: nat): (n: nat) {
    var arg := SbrkArgument(nu);
    if arg >= 0 || sz * 8 + arg > 0 then (sz * 8 + arg) / 8 else sz
  }

  /** The process has the units that morecore believes in exactly when they are fewer than 2^28. */
  lemma SizeExactly(sz: nat, nu: nat)
    requires 0 < nu < U32
    ensures SizeAfter(sz, nu) >= sz + nu <==> nu < 0x1000_0000
    ensures nu < 0x1000_0000 ==> SizeAfter(sz, nu) == sz + nu
    ensures Given(nu) <= nu
  {
    SbrkAskedExactly(nu);
  }

  /** Where free must put a block at address a: behind the last free block below it. */
  ghost function FindPosition(fl: seq<Blk>, a: nat): (k: nat)
    requires |fl| > 0 && fl[0].addr < a
    ensures k < |fl| && fl[k].addr < a && (k + 1 < |fl| ==> a <= fl[k + 1].addr)
  {
    if |fl| == 1 || a <= fl[1].addr then 0 else 1 + FindPosition(fl[1..], a)
  }

  /** The allocated blocks: headers intact, inside the heap, sharing nothing with each other or the free list. */
  ghost predicate AllocOk(base: nat, brk: nat, mem: map<nat, Header>, fl: seq<Blk>, alloc: map<nat, nat>) {
    && (forall a :: a in alloc ==>
          && base < a && alloc[a] > 0 && a + alloc[a] <= brk
          && a in mem && mem[a].size == alloc[a]
          && ApartFromAll(Blk(a, alloc[a]), fl))
    && (forall a, c :: a in alloc && c in alloc && a != c ==> Apart(Blk(a, alloc[a]), Blk(c, alloc[c])))
  }

  ghost predicate InHeap(fl: seq<Blk>, brk: nat) {
    forall i :: 0 <= i < |fl| ==> fl[i].addr + fl[i].size <= brk
  }

  /** The heap's invariant: an address-ordered, coalesced circular free list and intact allocated blocks. */
  ghost predicate Consistent(base: nat, brk: nat, mem: map<nat, Header>, fl: seq<Blk>, alloc: map<nat, nat>) {
    Sorted(fl, base) && Linked(mem, fl) && InHeap(fl, brk) && AllocOk(base, brk, mem, fl, alloc)
  }

  ghost function Units(fl: seq<Blk>, alloc: map<nat, nat>): (n: nat) {
    Total(fl) + Sum(alloc)
  }

  // ----- returning a block keeps the invariant -----

  /** The free list once the block b has been returned. */
  ghost function Returned(fl: seq<Blk>, b: Blk): (r: seq<Blk>)
    requires |fl| > 0 && fl[0].addr < b.addr
  {
    Insert(fl, FindPosition(fl, b.addr), b)
  }

  lemma InsertInHeap(fl: seq<Blk>, brk: nat, k: nat, b: Blk)
    requires k < |fl| && InHeap(fl, brk) && b.addr + b.size <= brk
    ensures InHeap(Insert(fl, k, b), brk)
  {
  }

  /** No other allocated header is written. */
  lemma OthersIntact(base: nat, brk: nat, mem: map<nat, Header>, fl: seq<Blk>, alloc: map<nat, nat>, k: nat, bp: nat,
                     a: nat)
    requires Sorted(fl, base) && Linked(mem, fl) && AllocOk(base, brk, mem, fl, alloc) && k < |fl|
    requires bp in alloc && a in alloc && a != bp
    ensures fl[k].addr in mem && mem[fl[k].addr].ptr in mem && a != fl[k].addr
    ensures a in Coalesced(mem, fl[k].addr, bp) && Coalesced(mem, fl[k].addr, bp)[a] == mem[a]
  {
    assert LinkAt(mem, fl, k) && Apart(Blk(a, alloc[a]), fl[k]);
    if k + 1 < |fl| {
      assert LinkAt(mem, fl, k + 1);
    } else {
      assert LinkAt(mem, fl, 0);
    }
  }

  lemma FreeKeepsAlloc(base: nat, brk: nat, mem: map<nat, Header>, fl: seq<Blk>, alloc: map<nat, nat>, k: nat, bp: nat)
    requires Consistent(base, brk, mem, fl, alloc) && bp in alloc && Position(fl, k, Blk(bp, alloc[bp]))
    requires fl[k].addr in mem && mem[fl[k].addr].ptr in mem
    ensures AllocOk(base, brk, Coalesced(mem, fl[k].addr, bp), Insert(fl, k, Blk(bp, alloc[bp])), alloc - {bp})
  {
    hide Insert;
    hide Coalesced;
    hide Sorted;
    hide Linked;
    hide ApartFromAll;
    var mem' := Coalesced(mem, fl[k].addr, bp);
    forall a | a in alloc && a != bp
      ensures a in mem' && mem'[a] == mem[a]
      ensures ApartFromAll(Blk(a, alloc[a]), Insert(fl, k, Blk(bp, alloc[bp])))
    {
      OthersIntact(base, brk, mem, fl, alloc, k, bp, a);
      InsertApart(fl, base, k, Blk(bp, alloc[bp]), Blk(a, alloc[a]));
    }
  }

  lemma FreeKeeps(base: nat, brk: nat, mem: map<nat, Header>, fl: seq<Blk>, alloc: map<nat, nat>, k: nat, bp: nat)
    requires Consistent(base, brk, mem, fl, alloc) && bp in alloc && Position(fl, k, Blk(bp, alloc[bp]))
    ensures fl[k].addr in mem && mem[fl[k].addr].ptr in mem && bp in mem
    ensures var fl' := Insert(fl, k, Blk(bp, alloc[bp]));
            && Consistent(base, brk, Coalesced(mem, fl[k].addr, bp), fl', alloc - {bp})
            && Units(fl', alloc - {bp}) == Units(fl, alloc)
            && k < |fl'| && fl'[k].addr == fl[k].addr
  {
    hide Insert;
    hide Coalesced;
    hide Sorted;
    hide Linked;
    hide ApartFromAll;
    hide InHeap;
    hide Total;
    hide Sum;
    var b := Blk(bp, alloc[bp]);
    InsertSorted(fl, base, k, b);
    CoalescedLinked(mem, fl, base, k, b);
    InsertInHeap(fl, brk, k, b);
    FreeKeepsAlloc(base, brk, mem, fl, alloc, k, bp);
    InsertTotal(fl, k, b);
    SumRemove(alloc, bp);
  }

  // ----- taking a block keeps the invariant -----

  /** The assignments of malloc at a block p that is large enough, with prevp before it. */
  function Cut(mem: map<nat, Header>, prevp: nat, p: nat, n: nat): (r: map<nat, Header>)
    requires prevp in mem && p in mem && n <= mem[p].size
  {
    if mem[p].size == n then mem[prevp := Header(mem[p].ptr, mem[prevp].size)]
    else
      var rest := mem[p].size - n;
      var q := p + rest;
      mem[p := Header(mem[p].ptr, rest)][q := Header(if q in mem then mem[q].ptr else 0, n)]
  }

  lemma TakeInHeap(fl: seq<Blk>, brk: nat, k: nat, n: nat)
    requires k < |fl| && n <= fl[k].size && InHeap(fl, brk)
    ensures InHeap(Take(fl, k, n), brk)
  {
  }

  lemma TakeLinked(mem: map<nat, Header>, fl: seq<Blk>, base: nat, k: nat, n: nat)
    requires Sorted(fl, base) && Linked(mem, fl) && 0 < k < |fl| && 0 < n <= fl[k].size
    ensures fl[k - 1].addr in mem && fl[k].addr in mem && mem[fl[k].addr].size == fl[k].size
    ensures Linked(Cut(mem, fl[k - 1].addr, fl[k].addr, n), Take(fl, k, n))
  {
    assert LinkAt(mem, fl, k - 1) && LinkAt(mem, fl, k);
    var mem' := Cut(mem, fl[k - 1].addr, fl[k].addr, n);
    if fl[k].size == n {
      RemoveLinked(mem, mem', fl, base, k);
    } else {
      var r := Take(fl, k, n);
      forall i | 0 <= i < |r|
        ensures LinkAt(mem', r, i)
      {
        assert i != k ==> r[i] == fl[i];
        assert LinkAt(mem, fl, i);
        assert i < k ==> Below(fl[i], fl[k]);
        assert i > k ==> Below(fl[k], fl[i]);
        assert AddrOf(r, i + 1) == AddrOf(fl, i + 1);
      }
    }
  }

  lemma CutIntact(base: nat, brk: nat, mem: map<nat, Header>, fl: seq<Blk>, alloc: map<nat, nat>, k: nat, n: nat,
                  a: nat)
    requires Sorted(fl, base) && Linked(mem, fl) && AllocOk(base, brk, mem, fl, alloc)
    requires 0 < k < |fl| && 0 < n <= fl[k].size && a in alloc
    ensures fl[k - 1].addr in mem && fl[k].addr in mem && mem[fl[k].addr].size == fl[k].size
    ensures var mem' := Cut(mem, fl[k - 1].addr, fl[k].addr, n);
            a in mem' && mem'[a] == mem[a] && a != Tail(fl[k], n).addr
  {
    assert LinkAt(mem, fl, k - 1) && LinkAt(mem, fl, k);
    assert Apart(Blk(a, alloc[a]), fl[k]) && Apart(Blk(a, alloc[a]), fl[k - 1]);
  }

  lemma CutTail(base: nat, mem: map<nat, Header>, fl: seq<Blk>, k: nat, n: nat)
    requires Sorted(fl, base) && Linked(mem, fl) && 0 < k < |fl| && 0 < n <= fl[k].size
    ensures fl[k - 1].addr in mem && fl[k].addr in mem && mem[fl[k].addr].size == fl[k].size
    ensures var mem', q := Cut(mem, fl[k - 1].addr, fl[k].addr, n), Tail(fl[k], n).addr;
            q in mem' && mem'[q].size == n && base < q
  {
    assert LinkAt(mem, fl, k - 1) && LinkAt(mem, fl, k) && Below(fl[k - 1], fl[k]);
  }

  lemma TakeKeepsAlloc(base: nat, brk: nat, mem: map<nat, Header>, fl: seq<Blk>, alloc: map<nat, nat>, k: nat, n: nat)
    requires Consistent(base, brk, mem, fl, alloc) && 0 < k < |fl| && 0 < n <= fl[k].size
    requires fl[k - 1].addr in mem && fl[k].addr in mem && mem[fl[k].addr].size == fl[k].size
    ensures Tail(fl[k], n).addr !in alloc
    ensures AllocOk(base, brk, Cut(mem, fl[k - 1].addr, fl[k].addr, n), Take(fl, k, n), alloc[Tail(fl[k], n).addr := n])
  {
    hide Take;
    hide Cut;
    hide Sorted;
    hide Linked;
    hide ApartFromAll;
    var mem' := Cut(mem, fl[k - 1].addr, fl[k].addr, n);
    CutTail(base, mem, fl, k, n);
    TakenApart(fl, base, k, n);
    forall a | a in alloc
      ensures a in mem' && mem'[a] == mem[a] && a != Tail(fl[k], n).addr
      ensures ApartFromAll(Blk(a, alloc[a]), Take(fl, k, n)) && Apart(Blk(a, alloc[a]), Tail(fl[k], n))
    {
      CutIntact(base, brk, mem, fl, alloc, k, n, a);
      TakeApart(fl, k, n, Blk(a, alloc[a]));
    }
  }

  lemma TakeKeeps(base: nat, brk: nat, mem: map<nat, Header>, fl: seq<Blk>, alloc: map<nat, nat>, k: nat, n: nat)
    requires Consistent(base, brk, mem, fl, alloc) && 0 < k < |fl| && 0 < n <= fl[k].size
    ensures fl[k - 1].addr in mem && fl[k].addr in mem && mem[fl[k].addr].size == fl[k].size
    ensures var mem', fl', q := Cut(mem, fl[k - 1].addr, fl[k].addr, n), Take(fl, k, n), Tail(fl[k], n).addr;
            && Consistent(base, brk, mem', fl', alloc[q := n]) && q !in alloc
            && Units(fl', alloc[q := n]) == Units(fl, alloc)
            && k - 1 < |fl'| && fl'[k - 1] == fl[k - 1]
  {
    hide Sorted;
    hide Linked;
    hide InHeap;
    hide AllocOk;
    hide Cut;
    hide Total;
    hide Sum;
    TakeSorted(fl, base, k, n);
    TakeLinked(mem, fl, base, k, n);
    TakeInHeap(fl, brk, k, n);
    TakeKeepsAlloc(base, brk, mem, fl, alloc, k, n);
    TakeTotal(fl, k, n);
    SumUpdate(alloc, Tail(fl[k], n).addr, n);
    assert alloc - {Tail(fl[k], n).addr} == alloc;
  }

  // ----- free undoes malloc -----

  lemma PositionIs(fl: seq<Blk>, base: nat, a: nat, k: nat)
    requires Sorted(fl, base) && k < |fl| && fl[k].addr < a && (k + 1 < |fl| ==> a < fl[k + 1].addr)
    ensures fl[0].addr < a && FindPosition(fl, a) == k
  {
  }

  /** Returning a block right after it was taken gives back the very same free list. */
  lemma FreeUndoesMalloc(fl: seq<Blk>, base: nat, k: nat, n: nat)
    requires Sorted(fl, base) && 0 < k < |fl| && 0 < n <= fl[k].size
    ensures |Take(fl, k, n)| > 0 && Take(fl, k, n)[0].addr < Tail(fl[k], n).addr
    ensures Returned(Take(fl, k, n), Tail(fl[k], n)) == fl
  {
    var r, b := Take(fl, k, n), Tail(fl[k], n);
    TakeSorted(fl, base, k, n);
    assert Below(fl[k - 1], fl[k]);
    assert k + 1 < |fl| ==> Below(fl[k], fl[k + 1]);
    if fl[k].size == n {
      assert r[k - 1] == fl[k - 1] && (k < |r| ==> r[k] == fl[k + 1]);
      PositionIs(r, base, b.addr, k - 1);
      TakenBack(fl, k, n, k - 1);
    } else {
      assert r[k] == Blk(fl[k].addr, fl[k].size - n) && (k + 1 < |r| ==> r[k + 1] == fl[k + 1]);
      PositionIs(r, base, b.addr, k);
      TakenBack(fl, k, n, k);
    }
  }

  lemma TakenBack(fl: seq<Blk>, k: nat, n: nat, j: nat)
    requires 0 < k < |fl| && 0 < n <= fl[k].size && j == (if fl[k].size == n then k - 1 else k)
    requires Below(fl[k - 1], fl[k]) && (k + 1 < |fl| ==> Below(fl[k], fl[k + 1]))
    ensures j < |Take(fl, k, n)| && Insert(Take(fl, k, n), j, Tail(fl[k], n)) == fl
  {
  }

  // ----- memory from sbrk -----

  /** A region at or above the break, with its size written to its header, is like an allocated block. */
  lemma GrowKeeps(base: nat, brk: nat, mem: map<nat, Header>, fl: seq<Blk>, alloc: map<nat, nat>, g: nat, h: Header)
    requires Consistent(base, brk, mem, fl, alloc) && base < brk <= g && h.size > 0
    ensures Consistent(base, g + h.size, mem[g := h], fl, alloc[g := h.size]) && g !in alloc
    ensures Units(fl, alloc[g := h.size]) == Units(fl, alloc) + h.size
  {
    hide Total;
    hide Sum;
    var mem' := mem[g := h];
    forall i | 0 <= i < |fl|
      ensures LinkAt(mem', fl, i) && Apart(Blk(g, h.size), fl[i])
    {
      assert LinkAt(mem, fl, i);
    }
    assert g !in alloc;
    SumUpdate(alloc, g, h.size);
    assert alloc - {g} == alloc;
  }

  ghost predicate HasFit(fl: seq<Blk>, n: nat) {
    exists i :: 0 <= i < |fl| && fl[i].size >= n
  }

  /** After a block has been returned, some free block is at least as large. */
  lemma ReturnedHolds(fl: seq<Blk>, k: nat, b: Blk, n: nat)
    requires k < |fl| && n <= b.size
    ensures HasFit(Insert(fl, k, b), n)
  {
    var r := Insert(fl, k, b);
    if MeetsLower(fl, k, b) {
      assert r[k].size >= b.size;
    } else {
      assert r[k + 1].size >= b.size;
    }
  }

  /** The i-th position of a ring of n, for i below 2n. */
  function Cyc(i: nat, n: nat): (j: nat) {
    if i < n then i else i - n
  }

  /** The i-th block after position f of the circular list. */
  ghost function Ahead(fl: seq<Blk>, f: nat, i: nat): (b: Blk)
    requires f < |fl| && i <= |fl|
  {
    fl[Cyc(f + i, |fl|)]
  }

  /** The c blocks that follow position f of the circular list are all too small for n units. */
  ghost predicate TooSmall(fl: seq<Blk>, f: nat, c: nat, n: nat) {
    f < |fl| && c <= |fl| && forall i :: 1 <= i <= c ==> Ahead(fl, f, i).size < n
  }

  lemma AllTooSmall(fl: seq<Blk>, f: nat, n: nat)
    requires TooSmall(fl, f, |fl|, n)
    ensures forall i :: 0 <= i < |fl| ==> fl[i].size < n
  {
    forall i | 0 <= i < |fl|
      ensures fl[i].size < n
    {
      assert Ahead(fl, f, if i > f then i - f else i - f + |fl|) == fl[i];
    }
  }

  /** Next fit: position k is the first one after f that can hold n units. */
  ghost predicate NextFit(fl: seq<Blk>, f: nat, k: nat, n: nat) {
    && k < |fl| && fl[k].size >= n
    && exists c :: 0 <= c < |fl| && TooSmall(fl, f, c, n) && k == Cyc(f + c + 1, |fl|)
  }

  ghost predicate Served(fl: seq<Blk>, f: nat, k: nat, n: nat, fl': seq<Blk>, r: nat) {
    NextFit(fl, f, k, n) && fl' == Take(fl, k, n) && r == Tail(fl[k], n).addr + 1
  }

  /** What serving a request means: the block handed out is the upper end of block k, whose rest stays, and every block
      passed on the way from position f to k is too small. */
  lemma ServedIs(fl: seq<Blk>, f: nat, k: nat, n: nat, fl': seq<Blk>, r: nat, j: nat)
    requires Served(fl, f, k, n, fl', r) && n > 0
    ensures k < |fl| && n <= fl[k].size && r - 1 + n == fl[k].addr + fl[k].size
    ensures n < fl[k].size ==> fl' == fl[k := Blk(fl[k].addr, fl[k].size - n)]
    ensures n == fl[k].size ==> fl' == fl[..k] + fl[k + 1..]
    ensures j < |fl| && (if f < k then f < j < k else j > f || j < k) ==> fl[j].size < n
  {
    var c :| 0 <= c < |fl| && TooSmall(fl, f, c, n) && k == Cyc(f + c + 1, |fl|);
    if j < |fl| && (if f < k then f < j < k else j > f || j < k) {
      var i := if j > f then j - f else j - f + |fl|;
      assert Ahead(fl, f, i) == fl[j];
    }
  }

  /** The list malloc starts from: its first call makes it from the static header. */
  ghost function Initial(base: nat, fl: seq<Blk>): (r: seq<Blk>) {
    if fl == [] then [Blk(base, 0)] else fl
  }

  ghost predicate Above(base: nat, fl: seq<Blk>, g: nat) {
    Initial(base, fl)[0].addr < g
  }

  ghost function Extended(base: nat, fl: seq<Blk>, g: nat, n: nat): (r: seq<Blk>)
    requires Above(base, fl, g)
  {
    Returned(Initial(base, fl), Blk(g, Request(n)))
  }

  ghost function ExtendedAt(base: nat, fl: seq<Blk>, g: nat): (k: nat)
    requires Above(base, fl, g)
  {
    FindPosition(Initial(base, fl), g)
  }

  lemma FirstList(base: nat, brk: nat, mem: map<nat, Header>, n: nat)
    requires base < brk && base in mem && mem[base] == Header(base, 0) && n > 0
    ensures Consistent(base, brk, mem, [Blk(base, 0)], map[]) && Units([Blk(base, 0)], map[]) == 0
    ensures !HasFit([], n) && !HasFit([Blk(base, 0)], n)
  {
    TotalOne(Blk(base, 0));
  }

  lemma ScanStart(base: nat, mem: map<nat, Header>, fl: seq<Blk>, f: nat, n: nat)
    requires Linked(mem, fl) && f < |fl|
    ensures TooSmall(fl, f, 0, n) && Ahead(fl, f, 0) == fl[f] && fl[f].addr in mem
    ensures var b := Ahead(fl, f, 1); mem[fl[f].addr].ptr == b.addr && b.addr in mem && mem[b.addr].size == b.size
  {
    assert LinkAt(mem, fl, f) && LinkAt(mem, fl, Cyc(f + 1, |fl|));
  }

  /** A block that is too small: the scan moves on, or has been all the way round. */
  lemma ScanStep(base: nat, mem: map<nat, Header>, fl: seq<Blk>, f: nat, c: nat, n: nat)
    requires Sorted(fl, base) && Linked(mem, fl) && f < |fl| && c < |fl|
    requires TooSmall(fl, f, c, n) && Ahead(fl, f, c + 1).size < n
    ensures TooSmall(fl, f, c + 1, n)
    ensures Ahead(fl, f, c + 1).addr == fl[f].addr <==> c + 1 == |fl|
    ensures c + 1 == |fl| ==> !HasFit(fl, n)
    ensures c + 1 < |fl| ==>
              var a, b := Ahead(fl, f, c + 1), Ahead(fl, f, c + 2);
              a.addr in mem && mem[a.addr].ptr == b.addr && b.addr in mem && mem[b.addr].size == b.size
  {
    var j := Cyc(f + c + 1, |fl|);
    assert LinkAt(mem, fl, j);
    assert j < f ==> Below(fl[j], fl[f]);
    assert f < j ==> Below(fl[f], fl[j]);
    if c + 1 < |fl| {
      assert LinkAt(mem, fl, Cyc(f + c + 2, |fl|));
    } else {
      AllTooSmall(fl, f, n);
    }
  }

  lemma Found(base: nat, fl: seq<Blk>, f: nat, c: nat, n: nat)
    requires Sorted(fl, base) && f < |fl| && c < |fl| && n > 0
    requires TooSmall(fl, f, c, n) && Ahead(fl, f, c + 1).size >= n
    ensures var k := Cyc(f + c + 1, |fl|);
            && 0 < k < |fl| && n <= fl[k].size && fl[k] == Ahead(fl, f, c + 1) && fl[k - 1] == Ahead(fl, f, c)
            && NextFit(fl, f, k, n) && HasFit(fl, n)
  {
  }

  function Request(nu: nat): (n: nat) {
    if nu < MINCORE then MINCORE else nu
  }

  /** What morecore asks sbrk for when malloc serves a request. */
  lemma Asked(nbytes: Word)
    ensures var n := NUnits(nbytes);
            && 0 < n <= Request(n) < U32 && Request(n) == (if n < 4096 then 4096 else n)
            && (Given(Request(n)) == Request(n) <==> Request(n) < 0x1000_0000)
  {
    GivenExactly(Request(NUnits(nbytes)));
  }

  class Heap {
    const base: nat             // address of the static header
    var freep: nat              // 0 before the first malloc
    var mem: map<nat, Header>
    ghost var fl: seq<Blk>
    ghost var f: nat            // position of freep
    ghost var alloc: map<nat, nat>
    ghost var brk: nat
    ghost var obtained: nat     // units obtained from sbrk

    constructor (b: nat)
      requires b > 0
      ensures Valid() && Conserved() && base == b && freep == 0 && alloc == map[] && obtained == 0 && brk == b + 1
    {
      base, freep, mem, fl, f, alloc, brk, obtained := b, 0, map[], [], 0, map[], b + 1, 0;
    }

    ghost predicate Valid()
      reads this
    {
      && 0 < base < brk
      && if freep == 0 then fl == [] && alloc == map[] else Ready()
    }

    ghost predicate Ready()
      reads this
    {
      && 0 < base < brk && freep != 0
      && Consistent(base, brk, mem, fl, alloc)
      && f < |fl| && fl[f].addr == freep
    }

    /** Free and allocated units together are what sbrk gave. */
    ghost predicate Conserved()
      reads this
    {
      obtained == Units(fl, alloc)
    }

    /** The search loop of free: it stops at the one position where bp belongs. */
    method FindPlace(bp: nat) returns (p: nat)
      requires Sorted(fl, base) && Linked(mem, fl) && f < |fl| && fl[f].addr == freep && base < bp
      requires forall i :: 0 <= i < |fl| ==> fl[i].addr != bp
      ensures p == fl[FindPosition(fl, bp)].addr
    {
      ghost var k: nat := FindPosition(fl, bp);
      p := freep;
      ghost var j: nat := f;
      assert LinkAt(mem, fl, j);
      while !(bp > p && bp < mem[p].ptr)
        invariant j < |fl| && p == fl[j].addr && LinkAt(mem, fl, j)
        decreases if j <= k then k - j else k - j + |fl|
      {
        AtOrAway(fl, base, bp, j, k);
        if p >= mem[p].ptr && (bp > p || bp < mem[p].ptr) {
          break;
        }
        p := mem[p].ptr;
        j := if j + 1 < |fl| then j + 1 else 0;
        assert LinkAt(mem, fl, j);
      }
      AtOrAway(fl, base, bp, j, k);
    }

    method Free(ap: nat)
      requires Ready() && ap > 0 && ap - 1 in alloc
      modifies this
      ensures Ready() && alloc == old(alloc) - {ap - 1} && obtained == old(obtained) && brk == old(brk)
      ensures Units(fl, alloc) == old(Units(fl, alloc))
      ensures |old(fl)| > 0 && old(fl)[0].addr < ap - 1 && fl == Returned(old(fl), Blk(ap - 1, old(alloc[ap - 1])))
      ensures f == FindPosition(old(fl), ap - 1)
    {
      hide AllocOk, InHeap, Sorted, Linked, Units, Insert;
      var bp := ap - 1;
      FreeStart(base, brk, mem, fl, alloc, bp);
      var p := FindPlace(bp);
      ghost var k := FindPosition(fl, bp);
      FreeKeeps(base, brk, mem, fl, alloc, k, bp);
      ghost var mem0 := mem;
      if bp + mem[bp].size == mem[p].ptr {
        mem := mem[bp := Header(mem[mem[p].ptr].ptr, mem[bp].size + mem[mem[p].ptr].size)];
      } else {
        mem := mem[bp := Header(mem[p].ptr, mem[bp].size)];
      }
      if p + mem[p].size == bp {
        mem := mem[p := Header(mem[bp].ptr, mem[p].size + mem[bp].size)];
      } else {
        mem := mem[p := Header(bp, mem[p].size)];
      }
      CoalescedIs(mem0, mem, p, bp);
      NotNull(fl, base, k);
      freep := p;
      f := k;
      fl := Returned(fl, Blk(bp, alloc[bp]));
      alloc := alloc - {bp};
    }

    /** grant is what sbrk answers: the address behind everything it gave before, or a refusal. morecore takes it for
        the address of Request(nu) fresh units, whatever was given. */
    method Morecore(nu: nat, grant: Option<nat>) returns (p: nat)
      requires Ready()
      requires grant.Some? ==> grant.value >= brk
      modifies this
      ensures Ready() && alloc == old(alloc)
      ensures grant.None? ==> p == 0 && fl == old(fl) && f == old(f) && obtained == old(obtained) && brk == old(brk)
      ensures grant.Some? ==> p == freep && brk == grant.value + Request(nu)
      ensures grant.Some? ==> brk == grant.value + if nu < 4096 then 4096 else nu
      ensures obtained == old(obtained) + if grant.Some? then Given(Request(nu)) else 0
      ensures Units(fl, alloc) == old(Units(fl, alloc)) + if grant.Some? then Request(nu) else 0
      ensures grant.Some? ==>
                |old(fl)| > 0 && old(fl)[0].addr < grant.value && fl == Returned(old(fl), Blk(grant.value, Request(nu)))
      ensures grant.Some? ==> f == FindPosition(old(fl), grant.value)
    {
      hide AllocOk, InHeap, Sorted, Linked, Units, Insert;
      var n := Request(nu);
      if grant.None? {
        return 0;
      }
      var hp := grant.value;
      GrowKeeps(base, brk, mem, fl, alloc, hp, Header(if hp in mem then mem[hp].ptr else 0, n));
      mem := mem[hp := Header(if hp in mem then mem[hp].ptr else 0, n)];
      ghost var alloc0 := alloc;
      alloc := alloc[hp := n];
      brk := hp + n;
      obtained := obtained + Given(n);
      Free(hp + 1);
      assert alloc == alloc0;
      return freep;
    }

    /** The assignments of malloc once block k of the list is large enough. */
    method Carve(prevp: nat, p: nat, n: nat, ghost k: nat) returns (r: nat)
      requires Ready() && 0 < k < |fl| && 0 < n <= fl[k].size
      requires prevp == fl[k - 1].addr && p == fl[k].addr
      modifies this
      ensures Ready() && brk == old(brk) && obtained == old(obtained) && f == k - 1
      ensures Units(fl, alloc) == old(Units(fl, alloc))
      ensures fl == Take(old(fl), k, n) && r == Tail(old(fl)[k], n).addr + 1
      ensures r - 1 !in old(alloc) && alloc == old(alloc)[r - 1 := n]
    {
      hide AllocOk, InHeap, Sorted, Linked, Units, Take;
      TakeKeeps(base, brk, mem, fl, alloc, k, n);
      NotNull(fl, base, k - 1);
      ghost var mem0 := mem;
      var q := p;
      if mem[p].size == n {
        mem := mem[prevp := Header(mem[p].ptr, mem[prevp].size)];
      } else {
        mem := mem[p := Header(mem[p].ptr, mem[p].size - n)];
        q := p + mem[p].size;
        mem := mem[q := Header(if q in mem then mem[q].ptr else 0, n)];
      }
      assert mem == Cut(mem0, prevp, p, n);
      fl, f := Take(fl, k, n), k - 1;
      alloc := alloc[q := n];
      freep := prevp;
      return q + 1;
    }

    /** The first call of malloc makes a list of the static header alone. */
    method Start(ghost n: nat) returns (prevp: nat)
      requires Valid() && 0 < n
      modifies this`freep, this`mem, this`fl, this`f
      ensures Ready() && prevp == freep && fl == Initial(base, old(fl)) && (old(fl) != [] ==> f == old(f))
      ensures (HasFit(fl, n) <==> HasFit(old(fl), n)) && (old(fl) == [] ==> !HasFit(fl, n))
      ensures Units(fl, alloc) == old(Units(fl, alloc))
    {
      hide AllocOk, InHeap, Sorted, Linked, Units, HasFit;
      prevp := freep;
      if prevp == 0 {
        freep, prevp := base, base;
        mem := mem[base := Header(base, 0)];
        fl, f := [Blk(base, 0)], 0;
        FirstList(base, brk, mem, n);
        NoUnits();
      } else {
        assert fl != [];
      }
    }

    /** The block is cut from the first block behind freep that can hold it, in the list as it was or, only
        when no block could, in the list joined by what one call of sbrk granted. */
    method Malloc(nbytes: Word, grant: Option<nat>) returns (r: nat, grew: bool, ghost k: nat)
      requires Valid()
      requires grant.Some? ==> grant.value >= brk
      modifies this
      ensures Ready()
      ensures grew || r == 0 <==> !HasFit(old(fl), NUnits(nbytes))
      ensures r == 0 <==> !grew && !HasFit(old(fl), NUnits(nbytes))
      ensures r == 0 ==> grant.None? && alloc == old(alloc) && fl == Initial(base, old(fl))
      ensures grew ==> grant.Some? && brk == grant.value + Request(NUnits(nbytes))
      ensures grew ==> brk == grant.value + if NUnits(nbytes) < 4096 then 4096 else NUnits(nbytes)
      ensures !grew ==> brk == old(brk)
      ensures obtained == old(obtained) + if grew then Given(Request(NUnits(nbytes))) else 0
      ensures Units(fl, alloc) == old(Units(fl, alloc)) + if grew then Request(NUnits(nbytes)) else 0
      ensures old(Conserved()) ==> (Conserved() <==> !grew || Request(NUnits(nbytes)) < 0x1000_0000)
      ensures r != 0 ==> r - 1 !in old(alloc) && alloc == old(alloc)[r - 1 := NUnits(nbytes)]
      ensures r != 0 ==> Served(if grew then Extended(base, old(fl), grant.value, NUnits(nbytes)) else old(fl),
                                if grew then ExtendedAt(base, old(fl), grant.value) else old(f),
                                k, NUnits(nbytes), fl, r)
    {
      hide AllocOk, InHeap, Sorted, Linked, Units, Insert, TooSmall, HasFit, Ahead, Take, NextFit, Given, Request,
           NUnits;
      Asked(nbytes);
      var nunits := NUnits(nbytes);
      var prevp := Start(nunits);
      ghost var fl0, f0 := fl, f;
      grew := false;
      ghost var c: nat := 0;
      ScanStart(base, mem, fl, f, nunits);
      var p := mem[prevp].ptr;
      while mem[p].size < nunits
        invariant Ready() && alloc == old(alloc)
        invariant c < |fl| && TooSmall(fl, f, c, nunits)
        invariant prevp == Ahead(fl, f, c).addr && p == Ahead(fl, f, c + 1).addr
        invariant p in mem && mem[p].size == Ahead(fl, f, c + 1).size
        invariant !grew ==> fl == fl0 && f == f0 && brk == old(brk) && obtained == old(obtained)
        invariant grew ==>
                    && grant.Some? && brk == grant.value + Request(nunits)
                    && obtained == old(obtained) + Given(Request(nunits))
        invariant Units(fl, alloc) == old(Units(fl, alloc)) + if grew then Request(nunits) else 0
        invariant grew ==> !HasFit(fl0, nunits) && HasFit(fl, nunits)
        invariant grew ==> Above(base, fl0, grant.value)
        invariant grew ==> fl == Extended(base, fl0, grant.value, nunits) && f == ExtendedAt(base, fl0, grant.value)
        decreases !grew, |fl| - c
      {
        ScanStep(base, mem, fl, f, c, nunits);
        if p == freep {
          assert !grew;
          p := Morecore(nunits, grant);
          if p == 0 {
            return 0, false, 0;
          }
          grew := true;
          c := 0;
          ReturnedHolds(fl0, FindPosition(fl0, grant.value), Blk(grant.value, Request(nunits)), nunits);
          ScanStart(base, mem, fl, f, nunits);
        } else {
          c := c + 1;
        }
        prevp := p;
        p := mem[p].ptr;
      }
      k := Cyc(f + c + 1, |fl|);
      Found(base, fl, f, c, nunits);
      r := Carve(prevp, p, nunits, k);
    }
  }

  /** A process whose sbrk only malloc calls: sbrk answers with the size of the process. */
  class Process {
    const heap: Heap
    var size: nat                 // proc->sz in units
    ghost var asked: seq<nat>     // the units for which sbrk was asked with success

    /** The static header lies below the size that the process starts with. */
    constructor (b: nat, sz: nat)
      requires 0 < b < sz
      ensures Valid() && Sane() && fresh(heap) && asked == [] && size == sz
      ensures heap.fl == [] && heap.alloc == map[]
    {
      heap := new Heap(b);
      size, asked := sz, [];
    }

    /** Every request that made malloc call sbrk was below 2^28 units. */
    ghost predicate Sane()
      reads this
    {
      forall k :: 0 <= k < |asked| ==> asked[k] < 0x1000_0000
    }

    /** The address that sbrk answers next lies behind every block, and no unit has come from nowhere, exactly while the
        requests have been sane. */
    ghost predicate Valid()
      reads this, heap
    {
      && heap.Valid()
      && (heap.brk <= size <==> Sane())
      && (heap.Conserved() <==> Sane())
      && heap.obtained <= Units(heap.fl, heap.alloc)
    }

    /** malloc; ok says whether sbrk succeeds if it is called. */
    method Malloc(nbytes: Word, ok: bool) returns (r: nat)
      requires Valid() && (ok ==> Sane())
      modifies this, heap
      ensures Valid() && heap.Ready()
      ensures var n := NUnits(nbytes);
              if HasFit(old(heap.fl), n) || !ok then asked == old(asked) && size == old(size)
              else asked == old(asked) + [Request(n)] && size == SizeAfter(old(size), Request(n))
      ensures r == 0 <==> !HasFit(old(heap.fl), NUnits(nbytes)) && !ok
      ensures heap.alloc == if r == 0 then old(heap.alloc) else old(heap.alloc)[r - 1 := NUnits(nbytes)]
      ensures r != 0 ==> r - 1 !in old(heap.alloc)
    {
      hide HasFit, Given, Request, NUnits, SizeAfter, Units, Served, Consistent, Extended, ExtendedAt;
      ghost var asked0 := asked;
      Asked(nbytes);
      var grew;
      ghost var k;
      r, grew, k := heap.Malloc(nbytes, if ok then Some(size) else None);
      if grew {
        SizeExactly(size, Request(NUnits(nbytes)));
        size := SizeAfter(size, Request(NUnits(nbytes)));
        asked := asked + [Request(NUnits(nbytes))];
        assert asked[|asked0|] == Request(NUnits(nbytes)) && asked[..|asked0|] == asked0;
      }
    }

    method Free(ap: nat)
      requires Valid() && heap.Ready() && ap > 0 && ap - 1 in heap.alloc
      modifies heap
      ensures Valid() && heap.Ready() && heap.alloc == old(heap.alloc) - {ap - 1}
    {
      heap.Free(ap);
    }
  }

  /** A request of 2^31 bytes: sbrk, asked for a negative number, answers with an address; malloc hands out units that
      nobody gave, and the next address that sbrk answers lies below the end of that block. */
  method HugeRequest(b: nat, sz: nat) returns (p: Process, r: nat)
    requires 0 < b < sz
    ensures r != 0 && !p.heap.Conserved() && p.size < p.heap.brk
  {
    p := new Process(b, sz);
    assert !HasFit([], NUnits(0x8000_0000));
    r := p.Malloc(0x8000_0000, true);
    assert p.asked[0] >= 0x1000_0000;
  }

  lemma NoUnits()
    ensures Units([], map[]) == 0
  {
  }

  lemma NotNull(fl: seq<Blk>, base: nat, k: nat)
    requires Sorted(fl, base) && 0 < base && k < |fl|
    ensures fl[k].addr > 0
  {
  }

  lemma FreeStart(base: nat, brk: nat, mem: map<nat, Header>, fl: seq<Blk>, alloc: map<nat, nat>, bp: nat)
    requires Consistent(base, brk, mem, fl, alloc) && bp in alloc
    ensures base < bp && |fl| > 0 && fl[0].addr < bp && bp in mem && mem[bp].size == alloc[bp]
    ensures forall i :: 0 <= i < |fl| ==> fl[i].addr != bp
    ensures Position(fl, FindPosition(fl, bp), Blk(bp, alloc[bp]))
  {
  }

  lemma CoalescedIs(mem: map<nat, Header>, mem': map<nat, Header>, p: nat, bp: nat)
    requires p in mem && bp in mem && mem[p].ptr in mem
    requires var m1 := if bp + mem[bp].size == mem[p].ptr
                       then mem[bp := Header(mem[mem[p].ptr].ptr, mem[bp].size + mem[mem[p].ptr].size)]
                       else mem[bp := Header(mem[p].ptr, mem[bp].size)];
             mem' == if p + m1[p].size == bp then m1[p := Header(m1[bp].ptr, m1[p].size + m1[bp].size)]
                     else m1[p := Header(bp, m1[p].size)]
    ensures mem' == Coalesced(mem, p, bp)
  {
  }

  /** How the tests of free's loop come out at position j, when bp belongs behind position k. */
  lemma AtOrAway(fl: seq<Blk>, base: nat, bp: nat, j: nat, k: nat)
    requires Sorted(fl, base) && j < |fl| && k < |fl| && base < bp
    requires fl[k].addr < bp && (k + 1 < |fl| ==> bp < fl[k + 1].addr)
    ensures var next := AddrOf(fl, j + 1);
            j == k <==> (fl[j].addr < bp < next || (fl[j].addr >= next && (bp > fl[j].addr || bp < next)))
  {
  }
}
