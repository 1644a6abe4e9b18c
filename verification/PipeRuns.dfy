/** All runs of any number of readers and writers of one pipe. An event is what a process does between taking
    the pipe's lock and giving it up, by return or by sleep. kill does not take the pipe's lock: one that comes between
    a process's test of killed and its sleep (late) marks the process without waking it. */
module PipeRuns {
  import opened Blocks
  import opened Common
  import opened PipeCode

  /** Where a process is: outside the pipe code, in pipewrite with i bytes stored, or in piperead. */
  datatype Pc = Idle | Writer(src: seq<Byte>, i: nat, asleep: bool) | Reader(n: nat, asleep: bool)

  datatype Sys = Sys(ring: Ring, readopen: bool, writeopen: bool, pc: seq<Pc>, killed: seq<bool>,
                     written: seq<Byte>, read: seq<Byte>)

  datatype Event =
    | BeginWrite(p: nat, src: seq<Byte>)
    | BeginRead(p: nat, n: nat)
    | Write(p: nat, i: nat, out: Outcome)
    | Read(p: nat, bs: seq<Byte>, out: Outcome)
    | CloseRead
    | CloseWrite
    | Kill(p: nat, late: bool)

  ghost predicate Start(s: Sys) {
    && IsRing(s.ring) && s.ring.nread == s.ring.nwrite == 0 && s.readopen && s.writeopen
    && |s.pc| == |s.killed| && s.written == s.read == []
    && forall p :: 0 <= p < |s.pc| ==> s.pc[p] == Idle && !s.killed[p]
  }

  function WokenReader(pc: Pc): (r: Pc) {
    if pc.Reader? then Reader(pc.n, false) else pc
  }

  function WokenWriter(pc: Pc): (r: Pc) {
    if pc.Writer? then Writer(pc.src, pc.i, false) else pc
  }

  /** wakeup(&p->nread) */
  ghost function WakeReaders(pc: seq<Pc>): (r: seq<Pc>)
    ensures |r| == |pc|
  {
    seq(|pc|, p requires 0 <= p < |pc| => WokenReader(pc[p]))
  }

  /** wakeup(&p->nwrite) */
  ghost function WakeWriters(pc: seq<Pc>): (r: seq<Pc>)
    ensures |r| == |pc|
  {
    seq(|pc|, p requires 0 <= p < |pc| => WokenWriter(pc[p]))
  }

  /** A process in pipewrite or piperead keeps its end of the pipe open, so an end is closed only by the last user. */
  ghost predicate Next(s: Sys, e: Event, s': Sys) {
    && |s.pc| == |s.killed|
    && match e
       case BeginWrite(p, src) => p < |s.pc| && s.pc[p].Idle? && s.writeopen
         && s' == s.(pc := s.pc[p := Writer(src, 0, false)])
       case BeginRead(p, n) => p < |s.pc| && s.pc[p].Idle? && s.readopen && s' == s.(pc := s.pc[p := Reader(n, false)])
       case Write(p, i, out) =>
         && p < |s.pc| && s.pc[p].Writer? && !s.pc[p].asleep
         && WriteRel(s.ring, s.readopen, s.pc[p].src, s.pc[p].i, s.killed[p], s'.ring, i, out)
         && s.pc[p].i <= i <= |s.pc[p].src|
         && s' == s.(ring := s'.ring, written := s.written + s.pc[p].src[s.pc[p].i..i],
                     pc := if out.Failed? then s.pc[p := Idle]
                           else WakeReaders(s.pc)[p := if out.MustSleep? then Writer(s.pc[p].src, i, true) else Idle])
       case Read(p, bs, out) =>
         && p < |s.pc| && s.pc[p].Reader? && !s.pc[p].asleep
         && ReadRel(s.ring, s.writeopen, s.pc[p].n, s.killed[p], s'.ring, bs, out)
         && s' == s.(ring := s'.ring, read := s.read + bs,
                     pc := if out.Done? then WakeWriters(s.pc)[p := Idle]
                           else s.pc[p := if out.MustSleep? then Reader(s.pc[p].n, true) else Idle])
       case CloseRead =>
         && s.readopen && (forall p :: 0 <= p < |s.pc| ==> !s.pc[p].Reader?)
         && s' == s.(readopen := false, pc := WakeWriters(s.pc))
       case CloseWrite =>
         && s.writeopen && (forall p :: 0 <= p < |s.pc| ==> !s.pc[p].Writer?)
         && s' == s.(writeopen := false, pc := WakeReaders(s.pc))
       case Kill(p, late) =>
         && p < |s.pc|
         && s' == s.(killed := s.killed[p := true],
                     pc := if late then s.pc else s.pc[p := WokenReader(WokenWriter(s.pc[p]))])
  }

  // ----- the invariants -----

  /** What was read is what was written first, and the ring holds the rest. */
  ghost predicate Fifo(s: Sys) {
    |s.read| <= |s.written| && s.read == s.written[..|s.read|] && Holds(s.ring, s.written[|s.read|..])
  }

  /** A writer in pipewrite has an open end; asleep, it has bytes left, the ring is full and somebody can read. */
  ghost predicate WriterOk(s: Sys, p: nat)
    requires p < |s.pc| == |s.killed|
  {
    && (s.pc[p].Writer? ==> s.writeopen && s.pc[p].i <= |s.pc[p].src|)
    && (s.pc[p].Reader? ==> s.readopen)
    && (s.pc[p].Writer? && s.pc[p].asleep ==> s.pc[p].i < |s.pc[p].src| && Full(s.ring) && s.readopen)
  }

  ghost predicate Inv(s: Sys) {
    |s.pc| == |s.killed| && Fifo(s) && forall p :: 0 <= p < |s.pc| ==> WriterOk(s, p)
  }

  ghost predicate ReaderAsleep(s: Sys, p: nat) {
    p < |s.pc| && s.pc[p].Reader? && s.pc[p].asleep
  }

  /** Asleep in piperead, a process waits for a byte that is not there yet and may still come. */
  ghost predicate ReadersOk(s: Sys) {
    forall p :: 0 <= p < |s.pc| && ReaderAsleep(s, p) ==> Empty(s.ring) && s.writeopen
  }

  lemma WriteKeeps(s: Sys, e: Event, s': Sys)
    requires Inv(s) && e.Write? && Next(s, e, s')
    ensures Inv(s')
  {
    hide PutWhile, Holds, Full;
    var c, w := s.written[|s.read|..], s.pc[e.p];
    assert WriterOk(s, e.p);
    PutWhileHolds(s.ring, c, w.src, w.i);
    Tests(s'.ring, c + w.src[w.i..e.i]);
    Tests(s.ring, c);
    assert s'.written[|s.read|..] == c + w.src[w.i..e.i];
    assert s'.written[..|s.read|] == s.written[..|s.read|];
    forall p | 0 <= p < |s.pc|
      ensures WriterOk(s', p)
    {
      assert WriterOk(s, p);
    }
  }

  lemma ReadKeeps(s: Sys, e: Event, s': Sys)
    requires Inv(s) && e.Read? && Next(s, e, s')
    ensures Inv(s')
  {
    hide GetWhile, Holds, Full, Empty;
    var c, n := s.written[|s.read|..], s.pc[e.p].n;
    GetWhileHolds(s.ring, c, n);
    if e.out.Done? {
      var m := Min(n, |c|);
      assert c[m..] == s.written[|s.read| + m..];
      assert s.read + c[..m] == s.written[..|s.read| + m];
    }
    forall p | 0 <= p < |s.pc|
      ensures WriterOk(s', p)
    {
      assert WriterOk(s, p);
    }
  }

  lemma NextKeeps(s: Sys, e: Event, s': Sys)
    requires Inv(s) && Next(s, e, s')
    ensures Inv(s')
  {
    if e.Write? {
      WriteKeeps(s, e, s');
    } else if e.Read? {
      ReadKeeps(s, e, s');
    } else {
      hide Holds, Full;
      forall p | 0 <= p < |s.pc|
        ensures WriterOk(s', p)
      {
        assert WriterOk(s, p);
      }
    }
  }

  /** The step that strands readers: a killed writer with more bytes left than fit into the empty ring fills it and
      returns without waking the readers that sleep. */
  ghost predicate Strands(s: Sys, e: Event) {
    && e.Write? && e.p < |s.pc| == |s.killed| && s.pc[e.p].Writer? && s.killed[e.p]
    && |s.pc[e.p].src| - s.pc[e.p].i > PIPESIZE
    && exists q :: 0 <= q < |s.pc| && ReaderAsleep(s, q)
  }

  lemma WriteReaders(s: Sys, e: Event, s': Sys)
    requires Inv(s) && ReadersOk(s) && e.Write? && Next(s, e, s')
    ensures ReadersOk(s') <==> !Strands(s, e)
  {
    hide PutWhile, Holds, Full, Empty;
    var c, w := s.written[|s.read|..], s.pc[e.p];
    assert WriterOk(s, e.p);
    PutWhileHolds(s.ring, c, w.src, w.i);
    Tests(s'.ring, c + w.src[w.i..e.i]);
    Tests(s.ring, c);
    if e.out.Failed? {
      forall q | 0 <= q < |s.pc|
        ensures ReaderAsleep(s, q) <==> ReaderAsleep(s', q)
        ensures ReaderAsleep(s, q) ==> s.readopen && Empty(s.ring) && s.writeopen
      {
        assert WriterOk(s, q);
      }
    } else {
      assert forall q :: 0 <= q < |s.pc| ==> !ReaderAsleep(s', q);
    }
  }

  /** A step keeps every sleeping reader rightly asleep exactly when it is not the stranding one. */
  lemma ReadersKept(s: Sys, e: Event, s': Sys)
    requires Inv(s) && ReadersOk(s) && Next(s, e, s')
    ensures ReadersOk(s') <==> !Strands(s, e)
  {
    if e.Write? {
      WriteReaders(s, e, s');
    } else {
      hide GetWhile, Holds, Full;
      forall q | 0 <= q < |s'.pc| && ReaderAsleep(s', q)
        ensures Empty(s'.ring) && s'.writeopen
      {
        if ReaderAsleep(s, q) && e.Read? && e.out.Done? {
          GetNothing(s.ring, s.pc[e.p].n);
        } else if !ReaderAsleep(s, q) {
          assert e.Read? && e.p == q;
        }
      }
    }
  }

  lemma GetNothing(r: Ring, n: nat)
    requires IsRing(r) && Empty(r)
    ensures GetWhile(r, n) == (r, [])
  {
  }

  // ----- whole runs -----

  ghost predicate Run(es: seq<Event>, ss: seq<Sys>) {
    |ss| == |es| + 1 && Start(ss[0]) && forall k :: 0 <= k < |es| ==> NextAt(es, ss, k)
  }

  ghost predicate NextAt(es: seq<Event>, ss: seq<Sys>, k: nat) {
    k < |es| && k + 1 < |ss| && Next(ss[k], es[k], ss[k + 1])
  }

  lemma {:induction false} RunInv(es: seq<Event>, ss: seq<Sys>, k: nat)
    requires Run(es, ss) && k < |ss|
    ensures Inv(ss[k])
  {
    hide Next;
    if k > 0 {
      hide Inv;
      RunInv(es, ss, k - 1);
      assert NextAt(es, ss, k - 1);
      NextKeeps(ss[k - 1], es[k - 1], ss[k]);
    }
  }

  /** At any point of any run the bytes read are a prefix of the bytes written, and at most PIPESIZE are missing. */
  lemma ReadsArePrefix(es: seq<Event>, ss: seq<Sys>, k: nat)
    requires Run(es, ss) && k < |ss|
    ensures ss[k].read <= ss[k].written && |ss[k].written| - |ss[k].read| <= PIPESIZE
  {
    RunInv(es, ss, k);
  }

  /** At any point of any run, whoever sleeps in pipewrite faces a full pipe whose read end is open. */
  lemma SleepingWriter(es: seq<Event>, ss: seq<Sys>, k: nat, p: nat)
    requires Run(es, ss) && k < |ss| && p < |ss[k].pc| && ss[k].pc[p].Writer? && ss[k].pc[p].asleep
    ensures |ss[k].written| - |ss[k].read| == PIPESIZE && ss[k].readopen
  {
    RunInv(es, ss, k);
    assert WriterOk(ss[k], p);
    Tests(ss[k].ring, ss[k].written[|ss[k].read|..]);
  }

  // ----- what the calls return -----

  /** Bytes written and not yet read. */
  function Unread(s: Sys): (n: int) {
    |s.written| - |s.read|
  }

  /** A turn of piperead in any run: what it returns and what it adds to the bytes read. */
  lemma ReadReturns(es: seq<Event>, ss: seq<Sys>, k: nat)
    requires Run(es, ss) && k < |es| && es[k].Read? && es[k].p < |ss[k].pc| == |ss[k].killed|
             && ss[k].pc[es[k].p].Reader?
    ensures var s, s', out := ss[k], ss[k + 1], es[k].out;
            var n, m := s.pc[es[k].p].n, |s'.read| - |s.read|;
            && s'.written == s.written && s.read <= s'.read <= s.written
            && (out.Done? <==> Unread(s) > 0 || !s.writeopen)
            && (out.Done? ==> out.n == m == Min(n, Unread(s)))
            && (out.Done? && n > 0 ==> (out.n == 0 <==> Unread(s) == 0 && !s.writeopen))
            && (!out.Done? ==> m == 0 && out == if s.killed[es[k].p] then Failed else MustSleep)
  {
    hide GetWhile, Holds, Empty;
    RunInv(es, ss, k);
    assert NextAt(es, ss, k);
    var c := ss[k].written[|ss[k].read|..];
    Tests(ss[k].ring, c);
    GetWhileHolds(ss[k].ring, c, ss[k].pc[es[k].p].n);
  }

  /** A turn of pipewrite in any run: it stores what fits, and tells the three ways in which it can end. */
  lemma WriteReturns(es: seq<Event>, ss: seq<Sys>, k: nat)
    requires Run(es, ss) && k < |es| && es[k].Write? && es[k].p < |ss[k].pc| == |ss[k].killed|
             && ss[k].pc[es[k].p].Writer?
    ensures var s, s', out, w := ss[k], ss[k + 1], es[k].out, ss[k].pc[es[k].p];
            var left, room := |w.src| - w.i, PIPESIZE - Unread(s);
            && left >= 0 && room >= 0 && s'.read == s.read
            && s'.written == s.written + w.src[w.i..w.i + Min(left, room)]
            && (out.Done? <==> left <= room) && (out.Done? ==> out.n == |w.src|)
            && (!out.Done? ==> Unread(s') == PIPESIZE)
            && (out.Failed? <==> left > room && (!s.readopen || s.killed[es[k].p]))
  {
    hide PutWhile, Holds, Full;
    RunInv(es, ss, k);
    assert NextAt(es, ss, k);
    var w := ss[k].pc[es[k].p];
    assert WriterOk(ss[k], es[k].p);
    PutWhileHolds(ss[k].ring, ss[k].written[|ss[k].read|..], w.src, w.i);
  }

  /** What process p stored between the states a and b. */
  ghost function StoredBy(es: seq<Event>, ss: seq<Sys>, p: nat, a: nat, b: nat): (bs: seq<Byte>)
    requires a <= b <= |es| && |ss| == |es| + 1
    decreases b
  {
    if a == b then []
    else
      StoredBy(es, ss, p, a, b - 1) +
      if es[b - 1].Write? && es[b - 1].p == p && |ss[b - 1].written| <= |ss[b].written|
      then ss[b].written[|ss[b - 1].written|..] else []
  }

  /** p is in one call of pipewrite from just after event a until just before event b. */
  ghost predicate Writing(ss: seq<Sys>, p: nat, a: nat, b: nat) {
    a < b < |ss| && forall l :: a < l <= b ==> p < |ss[l].pc| && ss[l].pc[p].Writer?
  }

  lemma {:induction false} StoredSoFar(es: seq<Event>, ss: seq<Sys>, p: nat, src: seq<Byte>, a: nat, b: nat)
    requires Run(es, ss) && Writing(ss, p, a, b) && es[a] == BeginWrite(p, src)
    ensures var w := ss[b].pc[p];
            w.src == src && w.i <= |src| && StoredBy(es, ss, p, a, b) == src[..w.i]
    decreases b
  {
    hide Next;
    assert NextAt(es, ss, b - 1);
    if b == a + 1 {
      CallStarts(ss[a], p, src, ss[b]);
      assert StoredBy(es, ss, p, a, a) == [];
    } else {
      StoredSoFar(es, ss, p, src, a, b - 1);
      StoredStep(es, ss, p, b - 1);
    }
  }

  lemma CallStarts(s: Sys, p: nat, src: seq<Byte>, s': Sys)
    requires Next(s, BeginWrite(p, src), s')
    ensures p < |s'.pc| && s'.pc[p] == Writer(src, 0, false)
  {
  }

  lemma StoredStep(es: seq<Event>, ss: seq<Sys>, p: nat, l: nat)
    requires Run(es, ss) && l < |es| && NextAt(es, ss, l) && p < |ss[l].pc| && ss[l].pc[p].Writer?
    requires p < |ss[l + 1].pc| && ss[l + 1].pc[p].Writer? && ss[l].pc[p].i <= |ss[l].pc[p].src|
    ensures var w, w' := ss[l].pc[p], ss[l + 1].pc[p];
            && w'.src == w.src && w.i <= w'.i <= |w.src|
            && StoredBy(es, ss, p, l, l + 1) == w.src[w.i..w'.i]
  {
    hide ReadRel;
  }

  /** A pipewrite that returns a count returns the number of bytes it was given, and has stored exactly those bytes
      since it was called, through however many sleeps. */
  lemma WholeWrite(es: seq<Event>, ss: seq<Sys>, p: nat, src: seq<Byte>, a: nat, b: nat)
    requires Run(es, ss) && b < |es| && Writing(ss, p, a, b) && es[a] == BeginWrite(p, src)
    requires es[b].Write? && es[b].p == p && es[b].out.Done?
    ensures es[b].out.n == |src| && StoredBy(es, ss, p, a, b + 1) == src
  {
    StoredSoFar(es, ss, p, src, a, b);
    RunInv(es, ss, b);
    WriteReturns(es, ss, b);
    var i := ss[b].pc[p].i;
    assert src[..i] + src[i..] == src;
  }

  lemma {:induction false} RunReaders(es: seq<Event>, ss: seq<Sys>, k: nat)
    requires Run(es, ss) && k < |ss| && forall l :: 0 <= l < |es| ==> !Strands(ss[l], es[l])
    ensures ReadersOk(ss[k])
  {
    hide Next, Inv;
    if k > 0 {
      hide ReadersOk;
      RunReaders(es, ss, k - 1);
      RunInv(es, ss, k - 1);
      assert NextAt(es, ss, k - 1);
      ReadersKept(ss[k - 1], es[k - 1], ss[k]);
    }
  }

  lemma {:induction false} NobodyKilled(es: seq<Event>, ss: seq<Sys>, k: nat, p: nat)
    requires Run(es, ss) && k < |ss| && forall l :: 0 <= l < |es| ==> !es[l].Kill?
    ensures |ss[k].pc| == |ss[k].killed| && (p < |ss[k].killed| ==> !ss[k].killed[p])
  {
    if k > 0 {
      NobodyKilled(es, ss, k - 1, p);
      assert NextAt(es, ss, k - 1);
    }
  }

  /** In a run without kill, whoever sleeps in piperead faces an empty pipe whose write end is open. */
  lemma SleepingReader(es: seq<Event>, ss: seq<Sys>, k: nat, p: nat)
    requires Run(es, ss) && k < |ss| && p < |ss[k].pc| && ss[k].pc[p].Reader? && ss[k].pc[p].asleep
    requires forall l :: 0 <= l < |es| ==> !es[l].Kill?
    ensures ss[k].written == ss[k].read && ss[k].writeopen
  {
    forall l | 0 <= l < |es|
      ensures !Strands(ss[l], es[l])
    {
      if es[l].Write? {
        NobodyKilled(es, ss, l, es[l].p);
      }
    }
    RunReaders(es, ss, k);
    RunInv(es, ss, k);
    assert ReaderAsleep(ss[k], p);
    Tests(ss[k].ring, ss[k].written[|ss[k].read|..]);
  }

  /** With kill it is not so: from any start, five steps strand a reader beside a full pipe. */
  lemma StrandedReader(s: Sys, src: seq<Byte>) returns (es: seq<Event>, ss: seq<Sys>)
    requires Start(s) && |s.pc| == 2 && |src| == PIPESIZE + 1
    ensures Run(es, ss) && ss[0] == s && |es| == 5
    ensures ReaderAsleep(ss[5], 0) && |ss[5].written| - |ss[5].read| == PIPESIZE
  {
    hide PutWhile, Holds;
    var s1 := s.(pc := s.pc[0 := Reader(1, false)]);
    var s2 := s.(pc := s.pc[0 := Reader(1, true)]);
    var s3 := s2.(pc := s2.pc[1 := Writer(src, 0, false)]);
    var s4 := s3.(killed := s3.killed[1 := true]);
    NothingHeld(s.ring);
    PutWhileHolds(s.ring, [], src, 0);
    var s5 := s4.(ring := PutWhile(s.ring, src, 0).0, pc := s4.pc[1 := Idle], written := src[..PIPESIZE]);
    es := [BeginRead(0, 1), Read(0, [], MustSleep), BeginWrite(1, src), Kill(1, false), Write(1, PIPESIZE, Failed)];
    ss := [s, s1, s2, s3, s4, s5];
    assert Next(s, es[0], s1);
    assert Next(s1, es[1], s2);
    assert Next(s2, es[2], s3);
    assert Next(s3, es[3], s4);
    assert Next(s4, es[4], s5);
    assert NextAt(es, ss, 0) && NextAt(es, ss, 1) && NextAt(es, ss, 2) && NextAt(es, ss, 3) && NextAt(es, ss, 4);
  }

  lemma NothingHeld(r: Ring)
    requires IsRing(r) && r.nread == r.nwrite
    ensures Holds(r, [])
  {
  }
}
