/** When log_write can panic: runs in which every operation calls it at most b times. */
module LogBudget {
  import opened Common
  import opened Blocks
  import opened LogDisk
  import opened LogRuns

  ghost predicate Within(b: nat, s: Sys) {
    forall op :: op in s.calls ==> s.calls[op] <= b
  }

  /** es leads to s, and no operation has called log_write more than b times. */
  ghost predicate ReachesWithin(g: Geometry, d0: Disk, b: nat, es: seq<Event>, s: Sys)
    decreases |es|
  {
    && Within(b, s)
    && if es == [] then s == Initial(d0)
       else exists p :: ReachesWithin(g, d0, b, Front(es), p) && Step(g, p, Last(es), s)
  }

  lemma {:induction false} WithinReaches(g: Geometry, d0: Disk, b: nat, es: seq<Event>, s: Sys)
    requires ReachesWithin(g, d0, b, es, s)
    ensures Reaches(g, d0, es, s)
    decreases |es|
  {
    if es != [] {
      var p :| ReachesWithin(g, d0, b, Front(es), p) && Step(g, p, Last(es), s);
      WithinReaches(g, d0, b, Front(es), p);
    }
  }

  // ----- the reservation -----

  /** The calls that outstanding operations may still make. */
  ghost function Left(b: nat, calls: map<Op, nat>): (r: map<Op, nat>) {
    map op | op in calls :: if calls[op] <= b then b - calls[op] else 0
  }

  /** The most sectors that can be logged when operations keep to b <= MAXOPBLOCKS calls: the reservation of begin_op
      admits LOGSIZE, less what the two last admitted operations reserve in vain. */
  function Most(b: nat): (n: int) {
    LOGSIZE - 2 * (MAXOPBLOCKS - b)
  }

  /** What is logged plus what outstanding operations may still log. */
  ghost predicate Reserved(b: nat, s: Sys) {
    |s.lh| + Sum(Left(b, s.calls)) <= Most(b)
  }

  function Times(n: nat, b: nat): (r: nat) {
    if n == 0 then 0 else b + Times(n - 1, b)
  }

  lemma {:induction false} SumCapped(b: nat, m: map<Op, nat>)
    requires forall op :: op in m ==> m[op] <= b
    ensures Sum(m) <= Times(|m|, b)
    decreases |m|
  {
    if m != map[] {
      var p :| p in m && Sum(m) == m[p] + Sum(m - {p});
      SumCapped(b, m - {p});
      assert |m - {p}| == |m| - 1 by {
        assert (m - {p}).Keys == m.Keys - {p};
      }
    }
  }

  lemma LeftOfFew(b: nat, calls: map<Op, nat>)
    requires |calls| <= 2
    ensures Sum(Left(b, calls)) <= if |calls| == 0 then 0 else if |calls| == 1 then b else 2 * b
  {
    assert Left(b, calls).Keys == calls.Keys;
    SumCapped(b, Left(b, calls));
    assert Times(1, b) == b && Times(2, b) == 2 * b;
  }

  lemma LeftUpdate(b: nat, calls: map<Op, nat>, op: Op, n: nat)
    requires n <= b
    ensures Sum(Left(b, calls[op := n])) == b - n + Sum(Left(b, calls) - {op})
  {
    SumUpdate(Left(b, calls), op, b - n);
    assert Left(b, calls[op := n]) == Left(b, calls)[op := b - n];
  }

  lemma LeftRemove(b: nat, calls: map<Op, nat>, op: Op)
    requires op in calls && calls[op] <= b
    ensures Left(b, calls - {op}) == Left(b, calls) - {op}
    ensures Sum(Left(b, calls)) == b - calls[op] + Sum(Left(b, calls) - {op})
  {
    SumRemove(Left(b, calls), op);
  }

  lemma BeginReserves(b: nat, s: Sys, op: Op)
    requires b <= MAXOPBLOCKS && Reserved(b, s) && Alone(s) && !s.phase.Recovering? && op !in s.calls
    ensures Reserved(b, Begun(s, op))
  {
    hide Sum, Left;
    if !Blocked(s) {
      LeftUpdate(b, s.calls, op, 0);
      LeftAbsent(b, s.calls, op);
      LeftOfFew(b, s.calls);
    }
  }

  lemma LeftAbsent(b: nat, calls: map<Op, nat>, op: Op)
    requires op !in calls
    ensures Left(b, calls) - {op} == Left(b, calls)
  {
  }

  lemma LogWriteReserves(b: nat, s: Sys, op: Op, sector: Word, data: Block)
    requires Reserved(b, s) && op in s.calls && s.calls[op] < b && sector < |s.mem|
    ensures Reserved(b, Logged(s, op, sector, data))
  {
    hide Sum;
    LeftUpdate(b, s.calls, op, s.calls[op] + 1);
    LeftRemove(b, s.calls, op);
  }

  lemma StepReserves(g: Geometry, d0: Disk, b: nat, s: Sys, e: Event, s': Sys)
    requires Setting(g, d0) && Inv(g, d0, s) && Step(g, s, e, s')
    requires b <= MAXOPBLOCKS && Within(b, s) && Within(b, s') && Reserved(b, s)
    ensures Reserved(b, s')
  {
    hide Sum, Durable, Shape, SectorWritten, Left;
    match e {
      case Begin(op) => BeginReserves(b, s, op);
      case LogWrite(op, sector, data) =>
        assert s'.calls[op] <= b;
        LogWriteReserves(b, s, op, sector, data);
      case End(op) => LeftRemove(b, s.calls, op);
      case Sector => SectorFields(g, s);
      case Finish =>
      case Crash => NothingLeft(b);
    }
  }

  lemma NothingLeft(b: nat)
    ensures Sum(Left(b, map[])) == 0
  {
    assert Left(b, map[]) == map[];
  }

  lemma SectorFields(g: Geometry, s: Sys)
    requires !s.phase.Running? && g.start < |s.base| && s.phase.k < Writes(g, s)
    requires if s.phase.Committing? then Fits(g, |s.base|, s.lh) && |s.mem| == |s.base| else WellFormed(g, s.base)
    ensures SectorWritten(g, s).lh == s.lh && SectorWritten(g, s).calls == s.calls
  {
  }

  lemma {:induction false} ReachesReserved(g: Geometry, d0: Disk, b: nat, es: seq<Event>, s: Sys)
    requires Setting(g, d0) && b <= MAXOPBLOCKS && ReachesWithin(g, d0, b, es, s)
    ensures Reserved(b, s)
    decreases |es|
  {
    hide Inv, Step, Sum, Reserved;
    if es == [] {
      InitialReserved(b, d0);
    } else {
      var p :| ReachesWithin(g, d0, b, Front(es), p) && Step(g, p, Last(es), s);
      ReachesReserved(g, d0, b, Front(es), p);
      WithinReaches(g, d0, b, Front(es), p);
      ReachableInv(g, d0, Front(es), p);
      StepReserves(g, d0, b, p, Last(es), s);
    }
  }

  lemma InitialReserved(b: nat, d0: Disk)
    ensures Reserved(b, Initial(d0))
  {
    NothingLeft(b);
  }

  /** An operation may call log_write, by its budget, and would panic. */
  ghost predicate Panics(g: Geometry, b: nat, s: Sys, op: Op) {
    op in s.calls && s.calls[op] < b && LogFull(g, s)
  }

  /** log_write never panics in runs within b <= MAXOPBLOCKS if the log area is larger than Most(b). */
  lemma NoPanic(g: Geometry, d0: Disk, b: nat, es: seq<Event>, s: Sys, op: Op)
    requires Setting(g, d0) && b <= MAXOPBLOCKS && ReachesWithin(g, d0, b, es, s) && Most(b) < g.size
    ensures !Panics(g, b, s, op)
  {
    ReachesReserved(g, d0, b, es, s);
    hide Sum;
    if op in s.calls && s.calls[op] < b {
      LeftRemove(b, s.calls, op);
    }
  }

  // ----- runs that panic -----

  lemma ExtendWithin(g: Geometry, d0: Disk, b: nat, es: seq<Event>, s: Sys, e: Event, s': Sys)
    requires ReachesWithin(g, d0, b, es, s) && Step(g, s, e, s') && Within(b, s')
    ensures ReachesWithin(g, d0, b, es + [e], s')
  {
    assert Front(es + [e]) == es && Last(es + [e]) == e;
  }

  /** The first n sectors are logged, and nothing else has happened to the phase or to the sizes. */
  ghost predicate Filled(d0: Disk, s: Sys, n: nat) {
    && s.phase.Running? && s.waiting == {} && |s.mem| == |s.base| == |d0|
    && |s.lh| == n && forall i :: 0 <= i < n ==> s.lh[i] == i
  }

  /** n sectors logged by operations 1 to n, which have ended; operation 0 has yet to log anything. */
  ghost predicate Gathered(d0: Disk, s: Sys, n: nat) {
    Filled(d0, s, n) && s.calls == map[0 := 0] && forall op :: op in s.begun ==> op <= n
  }

  lemma Starts(g: Geometry, d0: Disk, b: nat) returns (es: seq<Event>, s: Sys)
    requires Setting(g, d0)
    ensures ReachesWithin(g, d0, b, es, s) && Gathered(d0, s, 0)
  {
    hide SectorWritten;
    var s0 := Initial(d0);
    assert ReachesWithin(g, d0, b, [], s0);
    s := Begun(s0, 0);
    assert Step(g, s0, Begin(0), s);
    ExtendWithin(g, d0, b, [], s0, Begin(0), s);
    es := [] + [Begin(0)];
  }

  /** A log_write of the next sector. */
  lemma FillStep(g: Geometry, d0: Disk, s: Sys, n: nat, op: Op)
    requires Filled(d0, s, n) && op in s.calls && !LogFull(g, s) && n < g.start < |d0|
    ensures n < LOGSIZE
    ensures var s' := Logged(s, op, n, s.mem[n]); Step(g, s, LogWrite(op, n, s.mem[n]), s') && Filled(d0, s', n + 1)
  {
    hide SectorWritten, WellFormed, Fits, Ended;
  }

  lemma OpenStep(g: Geometry, d0: Disk, s: Sys, n: nat, op: Op)
    requires Filled(d0, s, n) && n <= MAXOPBLOCKS && s.calls == map[0 := 0] && op !in s.begun && g.start < |d0|
    ensures Step(g, s, Begin(op), Begun(s, op)) && Filled(d0, Begun(s, op), n)
            && Begun(s, op).calls == map[0 := 0][op := 0]
    ensures Begun(s, op).begun == s.begun + {op}
  {
    hide SectorWritten, WellFormed, Fits, Ended;
    assert |s.calls| == 1 by {
      assert s.calls.Keys == {0};
    }
  }

  lemma EndStep(g: Geometry, d0: Disk, s: Sys, n: nat, op: Op)
    requires Filled(d0, s, n) && op != 0 && s.calls == map[0 := 0][op := 1] && g.start < |d0|
    ensures Step(g, s, End(op), Ended(s, op)) && Filled(d0, Ended(s, op), n) && Ended(s, op).calls == map[0 := 0]
    ensures Ended(s, op).begun == s.begun
  {
    hide SectorWritten, WellFormed, Fits;
    assert s.calls - {op} == map[0 := 0];
    assert map[0 := 0] != map[] by {
      assert 0 in map[0 := 0];
    }
  }

  /** Operations that log one sector each and end while operation 0 goes on. */
  lemma {:induction false} Gathers(g: Geometry, d0: Disk, b: nat, n: nat) returns (es: seq<Event>, s: Sys)
    requires Setting(g, d0) && 0 < b && n <= MAXOPBLOCKS && n < g.size && LOGSIZE <= g.start
    ensures ReachesWithin(g, d0, b, es, s) && Gathered(d0, s, n)
    decreases n
  {
    hide ReachesWithin, Step;
    if n == 0 {
      es, s := Starts(g, d0, b);
    } else {
      var es0, s0 := Gathers(g, d0, b, n - 1);
      es, s := GatherOne(g, d0, b, es0, s0, n);
    }
  }

  lemma GatherOne(g: Geometry, d0: Disk, b: nat, es0: seq<Event>, s0: Sys, n: nat) returns (es: seq<Event>, s: Sys)
    requires Setting(g, d0) && 0 < b && 0 < n <= MAXOPBLOCKS && n < g.size && LOGSIZE <= g.start
    requires ReachesWithin(g, d0, b, es0, s0) && Gathered(d0, s0, n - 1)
    ensures ReachesWithin(g, d0, b, es, s) && Gathered(d0, s, n)
  {
    hide ReachesWithin, Step, Begun, Ended;
    OpenStep(g, d0, s0, n - 1, n);
    var s1 := Begun(s0, n);
    ExtendWithin(g, d0, b, es0, s0, Begin(n), s1);
    FillStep(g, d0, s1, n - 1, n);
    var e2 := LogWrite(n, n - 1, s1.mem[n - 1]);
    var s2 := Logged(s1, n, n - 1, s1.mem[n - 1]);
    assert s2.calls == map[0 := 0][n := 1];
    ExtendWithin(g, d0, b, es0 + [Begin(n)], s1, e2, s2);
    EndStep(g, d0, s2, n, n);
    s := Ended(s2, n);
    ExtendWithin(g, d0, b, es0 + [Begin(n)] + [e2], s2, End(n), s);
    es := es0 + [Begin(n)] + [e2] + [End(n)];
  }

  /** The calls of operations 0 and 11 after they have logged j sectors together. */
  ghost function Shared(b: nat, j: nat): (r: map<Op, nat>) {
    map[0 := Min(j, b) as nat][MAXOPBLOCKS + 1 := (j - Min(j, b)) as nat]
  }

  /** Two operations log on top of MAXOPBLOCKS sectors of operations that have ended. */
  lemma {:induction false} Fills(g: Geometry, d0: Disk, b: nat, j: nat) returns (es: seq<Event>, s: Sys)
    requires Setting(g, d0) && 0 < b && j <= 2 * b && MAXOPBLOCKS + j < g.size && MAXOPBLOCKS + j <= LOGSIZE <= g.start
    ensures ReachesWithin(g, d0, b, es, s) && Filled(d0, s, MAXOPBLOCKS + j) && s.calls == Shared(b, j)
    decreases j
  {
    hide ReachesWithin, Step;
    if j == 0 {
      var es0, s0 := Gathers(g, d0, b, MAXOPBLOCKS);
      OpenStep(g, d0, s0, MAXOPBLOCKS, MAXOPBLOCKS + 1);
      s := Begun(s0, MAXOPBLOCKS + 1);
      ExtendWithin(g, d0, b, es0, s0, Begin(MAXOPBLOCKS + 1), s);
      es := es0 + [Begin(MAXOPBLOCKS + 1)];
    } else {
      var es0, s0 := Fills(g, d0, b, j - 1);
      var n, op := MAXOPBLOCKS + j - 1, if j <= b then 0 else MAXOPBLOCKS + 1;
      FillStep(g, d0, s0, n, op);
      var e := LogWrite(op, n, s0.mem[n]);
      s := Logged(s0, op, n, s0.mem[n]);
      ExtendWithin(g, d0, b, es0, s0, e, s);
      es := es0 + [e];
    }
  }

  /** The panic is reached whenever the log area is at most Most(b) or operations may exceed the reservation. */
  lemma Panic(g: Geometry, d0: Disk, b: nat) returns (es: seq<Event>, s: Sys, op: Op)
    requires Setting(g, d0) && 0 < b && LOGSIZE <= g.start && (g.size <= Most(b) || b > MAXOPBLOCKS)
    ensures ReachesWithin(g, d0, b, es, s) && Panics(g, b, s, op)
  {
    var k := Min(LOGSIZE, g.size - 1);
    if k <= MAXOPBLOCKS {
      es, s := Gathers(g, d0, b, k);
      op := 0;
    } else {
      es, s := Fills(g, d0, b, k - MAXOPBLOCKS);
      op := if k - MAXOPBLOCKS < b then 0 else MAXOPBLOCKS + 1;
    }
  }

  ghost predicate PanicReachable(g: Geometry, d0: Disk, b: nat) {
    exists es, s, op :: ReachesWithin(g, d0, b, es, s) && Panics(g, b, s, op)
  }

  /** log_write's panic is reachable, by operations that call it at most b times each, exactly when the log area is no
      larger than Most(b) or b exceeds the reservation of begin_op. With b == MAXOPBLOCKS the bound is LOGSIZE. */
  lemma PanicExactly(g: Geometry, d0: Disk, b: nat)
    requires Setting(g, d0) && 0 < b && LOGSIZE <= g.start
    ensures PanicReachable(g, d0, b) <==> g.size <= Most(b) || b > MAXOPBLOCKS
  {
    hide ReachesWithin, Panics;
    if g.size <= Most(b) || b > MAXOPBLOCKS {
      var es, s, op := Panic(g, d0, b);
      assert ReachesWithin(g, d0, b, es, s) && Panics(g, b, s, op);
    } else {
      forall es, s, op | ReachesWithin(g, d0, b, es, s)
        ensures !Panics(g, b, s, op)
      {
        NoPanic(g, d0, b, es, s, op);
      }
    }
  }
}
