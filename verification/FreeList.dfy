/** The free list of umalloc.c as a value: blocks in address order, the static header base first. */
module FreeList {

  /** A block of size units (one unit is sizeof(Header)) whose header is at unit address addr. */
  datatype Blk = Blk(addr: nat, size: nat)

  /** Address order, no overlap, and no two free blocks adjacent; base is first and has size 0. */
  ghost predicate Sorted(fl: seq<Blk>, base: nat) {
    && |fl| > 0 && fl[0] == Blk(base, 0)
    && (forall i :: 1 <= i < |fl| ==> base < fl[i].addr && fl[i].size > 0)
    && (forall i, j :: 0 <= i < j < |fl| ==> Below(fl[i], fl[j]))
  }

  /** a ends before b begins, with room between them. */
  predicate Below(a: Blk, b: Blk) {
    a.addr + a.size < b.addr
  }

  /** Blocks a and b share no unit. */
  predicate Apart(a: Blk, b: Blk) {
    a.addr + a.size <= b.addr || b.addr + b.size <= a.addr
  }

  ghost predicate ApartFromAll(b: Blk, fl: seq<Blk>) {
    forall i :: 0 <= i < |fl| ==> Apart(b, fl[i])
  }

  ghost function Total(fl: seq<Blk>): (n: nat) {
    if fl == [] then 0 else Total(fl[..|fl| - 1]) + fl[|fl| - 1].size
  }

  lemma {:induction false} TotalSplit(a: seq<Blk>, b: seq<Blk>)
    ensures Total(a + b) == Total(a) + Total(b)
  {
    if b == [] {
      assert a + b == a;
    } else {
      assert (a + b)[..|a + b| - 1] == a + b[..|b| - 1];
      TotalSplit(a, b[..|b| - 1]);
    }
  }

  lemma TotalOne(b: Blk)
    ensures Total([b]) == b.size
  {
  }

  // ----- returning a block -----

  /** The search of free ends at position k: b belongs right behind fl[k]. */
  ghost predicate Position(fl: seq<Blk>, k: nat, b: Blk) {
    k < |fl| && fl[k].addr < b.addr && (k + 1 < |fl| ==> b.addr < fl[k + 1].addr)
  }

  ghost predicate MeetsUpper(fl: seq<Blk>, k: nat, b: Blk)
    requires k < |fl|
  {
    k + 1 < |fl| && b.addr + b.size == fl[k + 1].addr
  }

  /** b joined to the free block above it, if they touch. */
  ghost function JoinUpper(fl: seq<Blk>, k: nat, b: Blk): (r: Blk)
    requires k < |fl|
  {
    if MeetsUpper(fl, k, b) then Blk(b.addr, b.size + fl[k + 1].size) else b
  }

  ghost function RestAbove(fl: seq<Blk>, k: nat, b: Blk): (r: seq<Blk>)
    requires k < |fl|
  {
    if MeetsUpper(fl, k, b) then fl[k + 2..] else fl[k + 1..]
  }

  ghost predicate MeetsLower(fl: seq<Blk>, k: nat, b: Blk)
    requires k < |fl|
  {
    fl[k].addr + fl[k].size == b.addr
  }

  /** The free list after b has been put behind position k and joined to its neighbours. */
  ghost function Insert(fl: seq<Blk>, k: nat, b: Blk): (r: seq<Blk>)
    requires k < |fl|
  {
    var up := JoinUpper(fl, k, b);
    if MeetsLower(fl, k, b)
    then fl[..k] + [Blk(fl[k].addr, fl[k].size + up.size)] + RestAbove(fl, k, b)
    else fl[..k + 1] + [up] + RestAbove(fl, k, b)
  }

  /** x lies strictly between what remains of fl when drop blocks from position at on are taken out. */
  ghost predicate FitsAt(fl: seq<Blk>, base: nat, at: nat, drop: nat, x: Blk) {
    && 0 < at && at + drop <= |fl| && x.size > 0 && base < x.addr
    && Below(fl[at - 1], x) && forall i :: at + drop <= i < |fl| ==> Below(x, fl[i])
  }

  /** The block that Insert makes lies strictly between the free blocks around it. */
  lemma InsertBetween(fl: seq<Blk>, base: nat, k: nat, b: Blk)
    requires Sorted(fl, base) && Position(fl, k, b) && b.size > 0 && ApartFromAll(b, fl) && base < b.addr
    ensures var up, high := JoinUpper(fl, k, b), if MeetsUpper(fl, k, b) then 1 else 0;
            if MeetsLower(fl, k, b) then FitsAt(fl, base, k, 1 + high, Blk(fl[k].addr, fl[k].size + up.size))
            else FitsAt(fl, base, k + 1, high, up)
  {
  }

  /** fl with drop blocks from position at on replaced by x. */
  ghost function Edit(fl: seq<Blk>, at: nat, drop: nat, x: Blk): (r: seq<Blk>)
    requires at + drop <= |fl|
  {
    fl[..at] + [x] + fl[at + drop..]
  }

  lemma EditSorted(fl: seq<Blk>, base: nat, at: nat, drop: nat, x: Blk)
    requires Sorted(fl, base) && FitsAt(fl, base, at, drop, x)
    ensures Sorted(Edit(fl, at, drop, x), base)
  {
    var r := Edit(fl, at, drop, x);
    assert forall i :: 0 <= i < at ==> Below(fl[i], x) by {
      assert forall i :: 0 <= i < at - 1 ==> Below(fl[i], fl[at - 1]);
    }
    hide Below;
    forall i, j | 0 <= i < j < |r|
      ensures Below(r[i], r[j])
    {
      assert i != at ==> r[i] == fl[if i < at then i else i - 1 + drop];
      assert j != at ==> r[j] == fl[if j < at then j else j - 1 + drop];
    }
    forall i | 1 <= i < |r|
      ensures base < r[i].addr && r[i].size > 0
    {
      assert i != at ==> r[i] == fl[if i < at then i else i - 1 + drop];
    }
  }

  lemma InsertSorted(fl: seq<Blk>, base: nat, k: nat, b: Blk)
    requires k < |fl| && Sorted(fl, base) && Position(fl, k, b) && b.size > 0 && ApartFromAll(b, fl) && base < b.addr
    ensures Sorted(Insert(fl, k, b), base)
  {
    hide *;
    InsertBetween(fl, base, k, b);
    InsertIsEdit(fl, k, b);
    var up := JoinUpper(fl, k, b);
    var high := if MeetsUpper(fl, k, b) then 1 else 0;
    if MeetsLower(fl, k, b) {
      EditSorted(fl, base, k, 1 + high, Blk(fl[k].addr, fl[k].size + up.size));
    } else {
      EditSorted(fl, base, k + 1, high, up);
    }
  }

  lemma InsertIsEdit(fl: seq<Blk>, k: nat, b: Blk)
    requires k < |fl|
    ensures var up, high := JoinUpper(fl, k, b), if MeetsUpper(fl, k, b) then 1 else 0;
            Insert(fl, k, b) ==
            if MeetsLower(fl, k, b) then Edit(fl, k, 1 + high, Blk(fl[k].addr, fl[k].size + up.size))
                                else Edit(fl, k + 1, high, up)
    ensures k < |Insert(fl, k, b)| && Insert(fl, k, b)[k].addr == fl[k].addr
  {
  }

  lemma TotalAround(fl: seq<Blk>, k: nat)
    requires k < |fl|
    ensures Total(fl) == Total(fl[..k]) + fl[k].size + Total(fl[k + 1..])
    ensures Total(fl[..k + 1]) == Total(fl[..k]) + fl[k].size
  {
    assert fl == fl[..k] + [fl[k]] + fl[k + 1..];
    TotalThree(fl[..k], fl[k], fl[k + 1..]);
    assert fl[..k + 1] == fl[..k] + [fl[k]];
    TotalSplit(fl[..k], [fl[k]]);
    TotalOne(fl[k]);
  }

  lemma InsertTotal(fl: seq<Blk>, k: nat, b: Blk)
    requires k < |fl|
    ensures Total(Insert(fl, k, b)) == Total(fl) + b.size
  {
    hide Total;
    var up, rest := JoinUpper(fl, k, b), RestAbove(fl, k, b);
    RestTotal(fl, k, b);
    TotalAround(fl, k);
    hide RestAbove;
    hide JoinUpper;
    TotalThree(fl[..k], Blk(fl[k].addr, fl[k].size + up.size), rest);
    TotalThree(fl[..k + 1], up, rest);
  }

  lemma TotalThree(a: seq<Blk>, b: Blk, c: seq<Blk>)
    ensures Total(a + [b] + c) == Total(a) + b.size + Total(c)
  {
    TotalSplit(a + [b], c);
    TotalSplit(a, [b]);
    TotalOne(b);
  }

  lemma RestTotal(fl: seq<Blk>, k: nat, b: Blk)
    requires k < |fl|
    ensures JoinUpper(fl, k, b).size + Total(RestAbove(fl, k, b)) == Total(fl[k + 1..]) + b.size
  {
    if MeetsUpper(fl, k, b) {
      assert fl[k + 1..] == [fl[k + 1]] + fl[k + 2..];
      TotalSplit([fl[k + 1]], fl[k + 2..]);
      TotalOne(fl[k + 1]);
    }
  }

  /** A block that shares nothing with b or any free block shares nothing with the new list. */
  lemma InsertApart(fl: seq<Blk>, base: nat, k: nat, b: Blk, x: Blk)
    requires Sorted(fl, base) && Position(fl, k, b) && b.size > 0 && ApartFromAll(b, fl)
    requires x.size > 0 && Apart(x, b) && ApartFromAll(x, fl)
    ensures ApartFromAll(x, Insert(fl, k, b))
  {
    var r := Insert(fl, k, b);
    assert Apart(x, fl[k]) && Apart(x, b);
    if k + 1 < |fl| {
      assert Apart(x, fl[k + 1]);
    }
    assert Apart(x, JoinUpper(fl, k, b));
  }

  // ----- taking a block -----

  /** The list after n units have been cut from the tail of block k, or block k removed if it fits. */
  ghost function Take(fl: seq<Blk>, k: nat, n: nat): (r: seq<Blk>)
    requires k < |fl| && n <= fl[k].size
  {
    if fl[k].size == n then fl[..k] + fl[k + 1..]
    else fl[..k] + [Blk(fl[k].addr, fl[k].size - n)] + fl[k + 1..]
  }

  /** What was cut off. */
  function Tail(b: Blk, n: nat): (r: Blk)
    requires n <= b.size
  {
    Blk(b.addr + b.size - n, n)
  }

  lemma TakeSorted(fl: seq<Blk>, base: nat, k: nat, n: nat)
    requires |fl| > 0 && Sorted(fl, base) && 0 < k < |fl| && 0 < n <= fl[k].size
    ensures Sorted(Take(fl, k, n), base)
  {
    hide FitsAt, Sorted, Edit;
    if fl[k].size == n {
      RemoveSorted(fl, base, k);
    } else {
      TailFits(fl, base, k, n);
      EditSorted(fl, base, k, 1, Blk(fl[k].addr, fl[k].size - n));
    }
  }

  lemma RemoveSorted(fl: seq<Blk>, base: nat, k: nat)
    requires Sorted(fl, base) && 0 < k < |fl|
    ensures Sorted(fl[..k] + fl[k + 1..], base)
  {
    hide Below;
    var r := fl[..k] + fl[k + 1..];
    assert forall i :: 0 <= i < |r| ==> r[i] == fl[if i < k then i else i + 1];
  }

  lemma TailFits(fl: seq<Blk>, base: nat, k: nat, n: nat)
    requires Sorted(fl, base) && 0 < k < |fl| && 0 < n < fl[k].size
    ensures FitsAt(fl, base, k, 1, Blk(fl[k].addr, fl[k].size - n))
    ensures Take(fl, k, n) == Edit(fl, k, 1, Blk(fl[k].addr, fl[k].size - n))
  {
  }

  lemma TakeTotal(fl: seq<Blk>, k: nat, n: nat)
    requires k < |fl| && n <= fl[k].size
    ensures Total(fl) == Total(Take(fl, k, n)) + n
  {
    hide Total;
    TotalAround(fl, k);
    if fl[k].size == n {
      TotalSplit(fl[..k], fl[k + 1..]);
    } else {
      TotalThree(fl[..k], Blk(fl[k].addr, fl[k].size - n), fl[k + 1..]);
    }
  }

  /** The block taken shares nothing with the rest of the list. */
  lemma TakenApart(fl: seq<Blk>, base: nat, k: nat, n: nat)
    requires Sorted(fl, base) && 0 < k < |fl| && 0 < n <= fl[k].size
    ensures ApartFromAll(Tail(fl[k], n), Take(fl, k, n))
  {
  }

  /** What shared nothing with the list shares nothing with the smaller list nor with the block taken. */
  lemma TakeApart(fl: seq<Blk>, k: nat, n: nat, x: Blk)
    requires k < |fl| && 0 < n <= fl[k].size && ApartFromAll(x, fl)
    ensures ApartFromAll(x, Take(fl, k, n)) && Apart(x, Tail(fl[k], n))
  {
  }

  // ----- the links in memory -----

  datatype Header = Header(ptr: nat, size: nat)

  /** Address of position j of the circular list. */
  ghost function AddrOf(fl: seq<Blk>, j: nat): (a: nat)
    requires |fl| > 0
  {
    if j < |fl| then fl[j].addr else fl[0].addr
  }

  /** The headers in memory form the circular list fl. */
  ghost predicate Linked(mem: map<nat, Header>, fl: seq<Blk>) {
    |fl| > 0 && forall i :: 0 <= i < |fl| ==> LinkAt(mem, fl, i)
  }

  ghost predicate LinkAt(mem: map<nat, Header>, fl: seq<Blk>, i: nat)
    requires |fl| > 0 && i < |fl|
  {
    fl[i].addr in mem && mem[fl[i].addr] == Header(AddrOf(fl, i + 1), fl[i].size)
  }

  /** Linking x in between two positions, with the headers between them dropped. */
  lemma EditLinked(mem: map<nat, Header>, mem': map<nat, Header>, fl: seq<Blk>, base: nat, at: nat, drop: nat, x: Blk)
    requires Sorted(fl, base) && Linked(mem, fl) && FitsAt(fl, base, at, drop, x)
    requires fl[at - 1].addr in mem' && mem'[fl[at - 1].addr] == Header(x.addr, fl[at - 1].size)
    requires x.addr in mem' && mem'[x.addr] == Header(AddrOf(fl, at + drop), x.size)
    requires forall i :: 0 <= i < |fl| && i != at - 1 && !(at <= i < at + drop) ==>
               fl[i].addr in mem && fl[i].addr in mem' && mem'[fl[i].addr] == mem[fl[i].addr]
    ensures Linked(mem', Edit(fl, at, drop, x))
  {
    var r := Edit(fl, at, drop, x);
    forall i | 0 <= i < |r|
      ensures LinkAt(mem', r, i)
    {
      if i < at - 1 {
        assert r[i] == fl[i] && r[i + 1] == fl[i + 1] && LinkAt(mem, fl, i);
        assert Below(fl[i], fl[at - 1]);
      } else if i == at - 1 {
        assert r[i] == fl[i] && r[i + 1] == x;
      } else if i == at {
        assert r[i] == x && (i + 1 < |r| ==> r[i + 1] == fl[at + drop]);
      } else {
        var o := i - 1 + drop;
        assert r[i] == fl[o] && LinkAt(mem, fl, o);
        assert Below(fl[at - 1], fl[o]) && Below(x, fl[o]);
        assert i + 1 < |r| ==> r[i + 1] == fl[o + 1];
      }
    }
  }

  /** Unlinking position k. */
  lemma RemoveLinked(mem: map<nat, Header>, mem': map<nat, Header>, fl: seq<Blk>, base: nat, k: nat)
    requires Sorted(fl, base) && Linked(mem, fl) && 0 < k < |fl|
    requires mem' == mem[fl[k - 1].addr := Header(AddrOf(fl, k + 1), fl[k - 1].size)]
    ensures Linked(mem', fl[..k] + fl[k + 1..])
  {
    var r := fl[..k] + fl[k + 1..];
    forall i | 0 <= i < |r|
      ensures LinkAt(mem', r, i)
    {
      if i < k - 1 {
        assert r[i] == fl[i] && r[i + 1] == fl[i + 1] && LinkAt(mem, fl, i);
        assert Below(fl[i], fl[k - 1]);
      } else if i == k - 1 {
        assert r[i] == fl[i] && (i + 1 < |r| ==> r[i + 1] == fl[k + 1]);
      } else {
        assert r[i] == fl[i + 1] && LinkAt(mem, fl, i + 1);
        assert Below(fl[k - 1], fl[i + 1]);
        assert i + 1 < |r| ==> r[i + 1] == fl[i + 2];
      }
    }
  }

  /** The assignments of free after its search has stopped at position k. */
  ghost function Coalesced(mem: map<nat, Header>, p: nat, bp: nat): (r: map<nat, Header>)
    requires p in mem && bp in mem && mem[p].ptr in mem
  {
    var mem1 :=
      if bp + mem[bp].size == mem[p].ptr
      then mem[bp := Header(mem[mem[p].ptr].ptr, mem[bp].size + mem[mem[p].ptr].size)]
      else mem[bp := Header(mem[p].ptr, mem[bp].size)];
    if p + mem1[p].size == bp
    then mem1[p := Header(mem1[bp].ptr, mem1[p].size + mem1[bp].size)]
    else mem1[p := Header(bp, mem1[p].size)]
  }

  lemma CoalescedLinked(mem: map<nat, Header>, fl: seq<Blk>, base: nat, k: nat, b: Blk)
    requires Sorted(fl, base) && Linked(mem, fl) && Position(fl, k, b) && b.size > 0 && ApartFromAll(b, fl)
             && base < b.addr
    requires b.addr in mem && mem[b.addr].size == b.size
    ensures fl[k].addr in mem && mem[fl[k].addr].ptr in mem
    ensures Linked(Coalesced(mem, fl[k].addr, b.addr), Insert(fl, k, b))
    ensures k < |Insert(fl, k, b)| && Insert(fl, k, b)[k].addr == fl[k].addr
  {
    hide ApartFromAll, Coalesced, Edit, Sorted, Below, Insert, Linked;
    InsertBetween(fl, base, k, b);
    CoalescedHeaders(mem, fl, base, k, b);
    InsertIsEdit(fl, k, b);
    var mem', up := Coalesced(mem, fl[k].addr, b.addr), JoinUpper(fl, k, b);
    var high := if MeetsUpper(fl, k, b) then 1 else 0;
    if MeetsLower(fl, k, b) {
      LinkedAt(mem, fl, k - 1);
      EditLinked(mem, mem', fl, base, k, 1 + high, Blk(fl[k].addr, fl[k].size + up.size));
    } else {
      EditLinked(mem, mem', fl, base, k + 1, high, up);
    }
  }

  lemma LinkedAt(mem: map<nat, Header>, fl: seq<Blk>, i: nat)
    requires Linked(mem, fl) && i < |fl|
    ensures fl[i].addr in mem && mem[fl[i].addr] == Header(AddrOf(fl, i + 1), fl[i].size)
  {
    assert LinkAt(mem, fl, i);
  }

  /** What those assignments leave in the headers of the list and of the new block. */
  lemma CoalescedHeaders(mem: map<nat, Header>, fl: seq<Blk>, base: nat, k: nat, b: Blk)
    requires Sorted(fl, base) && Linked(mem, fl) && Position(fl, k, b) && b.size > 0 && ApartFromAll(b, fl)
             && base < b.addr
    requires b.addr in mem && mem[b.addr].size == b.size
    ensures fl[k].addr in mem && mem[fl[k].addr].ptr in mem
    ensures var mem', up := Coalesced(mem, fl[k].addr, b.addr), JoinUpper(fl, k, b);
            var high := if MeetsUpper(fl, k, b) then 1 else 0;
            && fl[k].addr in mem' && b.addr in mem'
            && (if MeetsLower(fl, k, b) then mem'[fl[k].addr] == Header(AddrOf(fl, k + 1 + high), fl[k].size + up.size)
                else
                  && mem'[fl[k].addr] == Header(b.addr, fl[k].size)
                  && mem'[b.addr] == Header(AddrOf(fl, k + 1 + high), up.size))
            && (forall i :: 0 <= i < |fl| && i != k ==>
                 fl[i].addr in mem && fl[i].addr in mem' && mem'[fl[i].addr] == mem[fl[i].addr])
  {
    assert LinkAt(mem, fl, k) && LinkAt(mem, fl, 0);
    assert k + 1 < |fl| ==> LinkAt(mem, fl, k + 1);
    assert MeetsUpper(fl, k, b) <==> b.addr + b.size == mem[fl[k].addr].ptr;
    var mem' := Coalesced(mem, fl[k].addr, b.addr);
    forall i | 0 <= i < |fl| && i != k
      ensures fl[i].addr in mem && fl[i].addr in mem' && mem'[fl[i].addr] == mem[fl[i].addr]
    {
      assert LinkAt(mem, fl, i) && Apart(b, fl[i]);
      assert if i < k then Below(fl[i], fl[k]) else Below(fl[k], fl[i]);
    }
  }

  // ----- which units are free -----

  predicate InBlk(b: Blk, u: nat) {
    b.addr <= u < b.addr + b.size
  }

  ghost predicate FreeUnit(fl: seq<Blk>, u: nat) {
    exists i :: 0 <= i < |fl| && InBlk(fl[i], u)
  }

  lemma FreeJoin(a: seq<Blk>, b: seq<Blk>, u: nat)
    ensures FreeUnit(a + b, u) <==> FreeUnit(a, u) || FreeUnit(b, u)
  {
    if i :| 0 <= i < |a| && InBlk(a[i], u) {
      assert InBlk((a + b)[i], u);
    }
    if i :| 0 <= i < |b| && InBlk(b[i], u) {
      assert InBlk((a + b)[|a| + i], u);
    }
  }

  lemma FreeOne(b: Blk, u: nat)
    ensures FreeUnit([b], u) <==> InBlk(b, u)
  {
    assert [b][0] == b;
  }

  /** Blocks a, one block, blocks b. */
  lemma FreeParts(a: seq<Blk>, x: Blk, b: seq<Blk>, u: nat)
    ensures FreeUnit(a + [x] + b, u) <==> FreeUnit(a, u) || InBlk(x, u) || FreeUnit(b, u)
  {
    hide FreeUnit, InBlk;
    FreeJoin(a + [x], b, u);
    FreeJoin(a, [x], u);
    FreeOne(x, u);
  }

  /** Returning a block makes exactly its units free, wherever it goes and whatever it joins. */
  lemma InsertFrees(fl: seq<Blk>, k: nat, b: Blk, u: nat)
    requires k < |fl|
    ensures FreeUnit(Insert(fl, k, b), u) <==> FreeUnit(fl, u) || InBlk(b, u)
  {
    hide FreeUnit;
    var rest := fl[k + 1..];
    assert fl == fl[..k] + [fl[k]] + rest && fl[..k + 1] == fl[..k] + [fl[k]];
    FreeParts(fl[..k], fl[k], rest, u);
    if MeetsUpper(fl, k, b) {
      assert rest == [] + [fl[k + 1]] + fl[k + 2..];
      FreeParts([], fl[k + 1], fl[k + 2..], u);
      NoneFree(u);
    }
    var up, above := JoinUpper(fl, k, b), RestAbove(fl, k, b);
    FreeParts(fl[..k], Blk(fl[k].addr, fl[k].size + up.size), above, u);
    FreeJoin(fl[..k], [fl[k]], u);
    FreeOne(fl[k], u);
    FreeParts(fl[..k + 1], up, above, u);
  }

  lemma NoneFree(u: nat)
    ensures !FreeUnit([], u)
  {
  }

  /** Taking n units from block k takes exactly its last n units from the free ones. */
  lemma TakeFrees(fl: seq<Blk>, base: nat, k: nat, n: nat, u: nat)
    requires Sorted(fl, base) && k < |fl| && n <= fl[k].size
    ensures FreeUnit(Take(fl, k, n), u) <==>
              FreeUnit(fl, u) && !(fl[k].addr + fl[k].size - n <= u < fl[k].addr + fl[k].size)
  {
    hide FreeUnit;
    var x := Blk(fl[k].addr, fl[k].size - n);
    assert fl == fl[..k] + [fl[k]] + fl[k + 1..];
    FreeParts(fl[..k], fl[k], fl[k + 1..], u);
    FreeParts(fl[..k], x, fl[k + 1..], u);
    FreeJoin(fl[..k], fl[k + 1..], u);
    if InBlk(fl[k], u) {
      OnlyThere(fl, base, k, u);
    }
  }

  /** A unit of block k is in no other block. */
  lemma OnlyThere(fl: seq<Blk>, base: nat, k: nat, u: nat)
    requires Sorted(fl, base) && k < |fl| && InBlk(fl[k], u)
    ensures !FreeUnit(fl[..k], u) && !FreeUnit(fl[k + 1..], u)
  {
    forall i | 0 <= i < |fl| && i != k
      ensures !InBlk(fl[i], u)
    {
      assert if i < k then Below(fl[i], fl[k]) else Below(fl[k], fl[i]);
    }
  }
}
