/** pipe.c: a ring of PIPESIZE bytes between two 32-bit counters that wrap around. */
module PipeCode {
  import opened Blocks
  import opened Common

  const PIPESIZE := 512

  type Counter = Word

  datatype Ring = Ring(data: seq<Byte>, nread: Counter, nwrite: Counter)

  predicate IsRing(r: Ring) {
    |r.data| == PIPESIZE
  }

  /** The test of pipewrite, in unsigned arithmetic. */
  predicate Full(r: Ring) {
    r.nwrite == (r.nread + PIPESIZE) % U32
  }

  predicate Empty(r: Ring) {
    r.nread == r.nwrite
  }

  function Put(r: Ring, b: Byte): (r': Ring)
    requires IsRing(r)
  {
    Ring(r.data[r.nwrite % PIPESIZE := b], r.nread, (r.nwrite + 1) % U32)
  }

  /** What the ring holds: c, oldest byte first. */
  ghost predicate Holds(r: Ring, c: seq<Byte>) {
    && IsRing(r) && |c| <= PIPESIZE && r.nwrite == (r.nread + |c|) % U32
    && forall k :: 0 <= k < |c| ==> r.data[(r.nread + k) % PIPESIZE] == c[k]
  }

  /** PIPESIZE divides 2^32, so wrapping a counter does not move its place in the ring. */
  lemma WrapKeepsPlace(x: nat)
    ensures x % U32 % PIPESIZE == x % PIPESIZE
  {
  }

  lemma Advance(x: nat)
    ensures (x % U32 + 1) % U32 == (x + 1) % U32
  {
  }

  /** Positions less than PIPESIZE apart are different. */
  lemma PlacesDiffer(x: nat, i: nat, j: nat)
    requires i < j < i + PIPESIZE
    ensures (x + i) % PIPESIZE != (x + j) % PIPESIZE
  {
  }

  /** The counters tell a full ring from an empty one, also after they wrapped. */
  lemma Tests(r: Ring, c: seq<Byte>)
    requires Holds(r, c)
    ensures Full(r) <==> |c| == PIPESIZE
    ensures Empty(r) <==> |c| == 0
  {
  }

  lemma PutHolds(r: Ring, c: seq<Byte>, b: Byte)
    requires Holds(r, c) && |c| < PIPESIZE
    ensures Holds(Put(r, b), c + [b])
  {
    var r', c' := Put(r, b), c + [b];
    Advance(r.nread + |c|);
    WrapKeepsPlace(r.nread + |c|);
    forall k | 0 <= k < |c'|
      ensures r'.data[(r'.nread + k) % PIPESIZE] == c'[k]
    {
      if k < |c| {
        PlacesDiffer(r.nread, k, |c|);
      }
    }
  }

  lemma GetHolds(r: Ring, c: seq<Byte>)
    requires Holds(r, c) && |c| > 0
    ensures r.data[r.nread % PIPESIZE] == c[0]
    ensures Holds(r.(nread := (r.nread + 1) % U32), c[1..])
  {
  }

  // ----- pipewrite and piperead between two sleeps -----

  datatype Outcome = Done(n: nat) | Failed | MustSleep

  /** Store bytes of src from position i on until the ring is full. */
  ghost function PutWhile(r: Ring, src: seq<Byte>, i: nat): (x: (Ring, nat))
    requires IsRing(r)
    ensures IsRing(x.0)
    decreases |src| - i
  {
    if i >= |src| || Full(r) then (r, i) else PutWhile(Put(r, src[i]), src, i + 1)
  }

  function Next(r: Ring): (r': Ring) {
    r.(nread := (r.nread + 1) % U32)
  }

  /** Fetch up to n bytes until the ring is empty. */
  ghost function GetWhile(r: Ring, n: nat): (x: (Ring, seq<Byte>))
    requires IsRing(r)
    ensures IsRing(x.0)
    decreases n
  {
    if n == 0 || Empty(r) then (r, [])
    else
      var rest := GetWhile(Next(r), n - 1);
      (rest.0, [r.data[r.nread % PIPESIZE]] + rest.1)
  }

  lemma {:induction false} PutWhileHolds(r: Ring, c: seq<Byte>, src: seq<Byte>, i: nat)
    requires Holds(r, c) && i <= |src|
    ensures var (r', j) := PutWhile(r, src, i);
            j == Min(|src|, i + PIPESIZE - |c|) && i <= j && Holds(r', c + src[i..j])
    decreases |src| - i
  {
    Tests(r, c);
    if i >= |src| || Full(r) {
      assert c + src[i..i] == c;
    } else {
      PutHolds(r, c, src[i]);
      PutWhileHolds(Put(r, src[i]), c + [src[i]], src, i + 1);
      var j := PutWhile(r, src, i).1;
      assert c + [src[i]] + src[i + 1..j] == c + src[i..j];
    }
  }

  lemma {:induction false} GetWhileHolds(r: Ring, c: seq<Byte>, n: nat)
    requires Holds(r, c)
    ensures var (r', bs) := GetWhile(r, n);
            bs == c[..Min(n, |c|)] && Holds(r', c[Min(n, |c|)..])
    decreases n
  {
    Tests(r, c);
    if n == 0 || Empty(r) {
      assert c[0..] == c;
    } else {
      GetHolds(r, c);
      GetWhileHolds(Next(r), c[1..], n - 1);
      var m := Min(n, |c|);
      assert c[1..][m - 1..] == c[m..];
      assert [c[0]] + c[1..][..m - 1] == c[..m];
    }
  }

  lemma GetStep(r: Ring, n: nat, bs: seq<Byte>)
    requires IsRing(r) && n > 0 && !Empty(r)
    ensures GetWhile(r, n).0 == GetWhile(Next(r), n - 1).0
    ensures bs + GetWhile(r, n).1 == bs + [r.data[r.nread % PIPESIZE]] + GetWhile(Next(r), n - 1).1
  {
  }

  lemma GetStop(r: Ring, n: nat)
    requires IsRing(r) && (n == 0 || Empty(r))
    ensures GetWhile(r, n) == (r, [])
  {
  }

  /** pipewrite by a process that is (or is not) killed, from position i to the next sleep or return. */
  ghost predicate WriteRel(r: Ring, readopen: bool, src: seq<Byte>, i: nat, killed: bool, r': Ring, i': nat,
                           out: Outcome) {
    && IsRing(r) && PutWhile(r, src, i) == (r', i')
    && out == if i' >= |src| then Done(|src|) else if !readopen || killed then Failed else MustSleep
  }

  /** piperead of up to n bytes, to the next sleep or return. */
  ghost predicate ReadRel(r: Ring, writeopen: bool, n: nat, killed: bool, r': Ring, bs: seq<Byte>, out: Outcome) {
    && IsRing(r)
    && if Empty(r) && writeopen then r' == r && bs == [] && out == if killed then Failed else MustSleep
       else GetWhile(r, n) == (r', bs) && out == Done(|bs|)
  }

  class Pipe {
    const data: array<Byte>
    var nread: Counter
    var nwrite: Counter
    var readopen: bool
    var writeopen: bool

    /** pipealloc: the page holds whatever it held before. */
    constructor (page: array<Byte>)
      requires page.Length == PIPESIZE
      ensures data == page && IsRing(View()) && Empty(View()) && readopen && writeopen
    {
      data, nread, nwrite, readopen, writeopen := page, 0, 0, true, true;
    }

    function View(): (r: Ring)
      reads this, data
    {
      Ring(data[..], nread, nwrite)
    }

    method WriteTurn(src: seq<Byte>, i0: nat, killed: bool) returns (i: nat, out: Outcome, woke: bool)
      requires data.Length == PIPESIZE && i0 <= |src|
      modifies this, data
      ensures WriteRel(old(View()), readopen, src, i0, killed, View(), i, out)
      ensures forall c :: old(Holds(View(), c)) ==>
                i == Min(|src|, i0 + PIPESIZE - |c|) && Holds(View(), c + src[i0..i])
      ensures out == if i == |src| then Done(|src|) else if readopen && !killed then MustSleep else Failed
      ensures woke <==> !out.Failed?
      ensures readopen == old(readopen) && writeopen == old(writeopen)
    {
      i := i0;
      forall c | Holds(View(), c)
        ensures PutWhile(View(), src, i0).1 == Min(|src|, i0 + PIPESIZE - |c|)
        ensures i0 <= PutWhile(View(), src, i0).1
        ensures Holds(PutWhile(View(), src, i0).0, c + src[i0..PutWhile(View(), src, i0).1])
      {
        PutWhileHolds(View(), c, src, i0);
      }
      while i < |src|
        invariant i0 <= i <= |src| && PutWhile(View(), src, i) == PutWhile(old(View()), src, i0)
        invariant readopen == old(readopen) && writeopen == old(writeopen)
      {
        if nwrite == (nread + PIPESIZE) % U32 {
          if !readopen || killed {
            return i, Failed, false;
          }
          return i, MustSleep, true;
        }
        ghost var before := View();
        data[nwrite % PIPESIZE] := src[i];
        nwrite := (nwrite + 1) % U32;
        assert View() == Put(before, src[i]);
        i := i + 1;
      }
      return i, Done(|src|), true;
    }

    method ReadTurn(n: nat, killed: bool) returns (bs: seq<Byte>, out: Outcome, woke: bool)
      requires data.Length == PIPESIZE
      modifies this
      ensures ReadRel(old(View()), writeopen, n, killed, View(), bs, out)
      ensures forall c :: old(Holds(View(), c)) ==>
                if c == [] && writeopen then bs == [] && out == if killed then Failed else MustSleep
                else bs == c[..Min(n, |c|)] && out == Done(Min(n, |c|))
      ensures forall c :: old(Holds(View(), c)) ==> Holds(View(), c[Min(n, |c|)..])
      ensures woke <==> out.Done?
      ensures readopen == old(readopen) && writeopen == old(writeopen)
    {
      hide GetWhile;
      forall c | Holds(View(), c)
        ensures Empty(View()) <==> c == []
        ensures GetWhile(View(), n).1 == c[..Min(n, |c|)]
        ensures Holds(GetWhile(View(), n).0, c[Min(n, |c|)..]) && c[0..] == c
      {
        Tests(View(), c);
        GetWhileHolds(View(), c, n);
      }
      if nread == nwrite && writeopen {
        return [], if killed then Failed else MustSleep, false;
      }
      bs := [];
      var i := 0;
      while i < n && nread != nwrite
        invariant i <= n && readopen == old(readopen) && writeopen == old(writeopen)
        invariant GetWhile(old(View()), n).0 == GetWhile(View(), n - i).0
        invariant |bs| == i && GetWhile(old(View()), n).1 == bs + GetWhile(View(), n - i).1
      {
        var b := data[nread % PIPESIZE];
        GetStep(View(), n - i, bs);
        bs := bs + [b];
        nread := (nread + 1) % U32;
        i := i + 1;
      }
      GetStop(View(), n - i);
      ghost var all := GetWhile(old(View()), n);
      assert all.0 == View() && all.1 == bs && all == (all.0, all.1);
      return bs, Done(|bs|), true;
    }
  }
}
