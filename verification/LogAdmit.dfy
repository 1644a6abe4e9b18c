/** Whom begin_op admits, told by what operations could do afterwards. */
module LogAdmit {
  import opened Common
  import opened Blocks
  import opened LogDisk
  import opened LogRuns

  // ----- log_writes that operations may still make -----

  /** es are log_writes that lead from s to s'; every operation keeps to its budget in b, of which b' is left. */
  ghost predicate WritesOn(g: Geometry, s: Sys, b: map<Op, nat>, es: seq<Event>, s': Sys, b': map<Op, nat>)
    decreases |es|
  {
    if es == [] then s' == s && b' == b
    else
      && es[0].LogWrite? && s.phase.Running? && g.start < |s.base| && Enabled(g, s, es[0])
      && es[0].op in b && b[es[0].op] > 0
      && WritesOn(g, Logged(s, es[0].op, es[0].sector, es[0].data), b[es[0].op := b[es[0].op] - 1], es[1..], s', b')
  }

  /** An operation that still may call log_write would panic. */
  ghost predicate Overrun(g: Geometry, s: Sys, b: map<Op, nat>) {
    LogFull(g, s) && exists op :: op in b && b[op] > 0
  }

  /** Operations that keep to their budgets can reach that panic. */
  ghost predicate CanOverrun(g: Geometry, s: Sys, b: map<Op, nat>) {
    exists es, s', b' :: WritesOn(g, s, b, es, s', b') && Overrun(g, s', b')
  }

  /** MAXOPBLOCKS more calls for every outstanding operation. */
  ghost function FullBudgets(calls: map<Op, nat>): (b: map<Op, nat>) {
    map op | op in calls :: MAXOPBLOCKS
  }

  lemma {:induction false} FullSum(calls: map<Op, nat>)
    ensures Sum(FullBudgets(calls)) == MAXOPBLOCKS * |calls|
    decreases |calls|
  {
    var b := FullBudgets(calls);
    assert b.Keys == calls.Keys;
    if b != map[] {
      var p :| p in b && Sum(b) == b[p] + Sum(b - {p});
      FullSum(calls - {p});
      assert FullBudgets(calls - {p}) == b - {p};
      assert (calls - {p}).Keys == calls.Keys - {p};
    } else {
      assert |calls| == 0;
    }
  }

  lemma {:induction false} Positive(b: map<Op, nat>) returns (op: Op)
    requires Sum(b) > 0
    ensures op in b && b[op] > 0
    decreases |b|
  {
    var p :| p in b && Sum(b) == b[p] + Sum(b - {p});
    if b[p] > 0 {
      op := p;
    } else {
      assert (b - {p}).Keys == b.Keys - {p};
      op := Positive(b - {p});
    }
  }

  lemma {:induction false} FewElements(lh: seq<Word>, n: nat)
    requires forall w: Word :: w < n ==> w in lh
    requires n <= U32
    ensures n <= |lh|
    decreases n
  {
    if n > 0 {
      var last: Word := n - 1;
      assert last in lh;
      var k :| 0 <= k < |lh| && lh[k] == last;
      var rest := lh[..k] + lh[k + 1..];
      forall w: Word | w < n - 1
        ensures w in rest
      {
        assert w in lh;
        var j :| 0 <= j < |lh| && lh[j] == w;
        assert rest[if j < k then j else j - 1] == w;
      }
      FewElements(rest, n - 1);
    }
  }

  lemma FreshSector(lh: seq<Word>, n: nat) returns (w: Word)
    requires |lh| < n <= U32
    ensures w < n && w !in lh
  {
    if forall w: Word :: w < n ==> w in lh {
      FewElements(lh, n);
    }
    w :| w < n && w !in lh;
  }

  /** How many sectors log_write takes before it panics. */
  function Room(g: Geometry): (n: int) {
    Min(LOGSIZE, g.size - 1)
  }

  /** With more calls allowed than the log has room for, the panic can be reached. */
  lemma {:induction false} Fill(g: Geometry, s: Sys, b: map<Op, nat>)
    returns (es: seq<Event>, s': Sys, b': map<Op, nat>)
    requires s.phase.Running? && g.start < |s.base| && |s.mem| == |s.base| && b.Keys <= s.calls.Keys
    requires LOGSIZE <= g.start && |s.lh| <= Room(g) && |s.lh| + Sum(b) > Room(g)
    ensures WritesOn(g, s, b, es, s', b') && Overrun(g, s', b')
    decreases LOGSIZE - |s.lh|
  {
    var op := Positive(b);
    if |s.lh| == Room(g) {
      es, s', b' := [], s, b;
    } else {
      var w := FreshSector(s.lh, LOGSIZE);
      var e := LogWrite(op, w, Zero());
      assert Home(g, |s.mem|, w);
      SumRemove(b, op);
      SumUpdate(b, op, b[op] - 1);
      es, s', b' := Fill(g, Logged(s, op, w, Zero()), b[op := b[op] - 1]);
      es := [e] + es;
    }
  }

  /** With no more calls allowed than the log has room for, it cannot. */
  lemma {:induction false} NoOverrun(g: Geometry, s: Sys, b: map<Op, nat>, es: seq<Event>, s': Sys, b': map<Op, nat>)
    requires WritesOn(g, s, b, es, s', b') && |s.lh| + Sum(b) <= Room(g)
    ensures !Overrun(g, s', b')
    decreases |es|
  {
    if es == [] {
      forall op | op in b' && b'[op] > 0
        ensures !LogFull(g, s')
      {
        SumRemove(b', op);
      }
    } else {
      var op := es[0].op;
      SumRemove(b, op);
      SumUpdate(b, op, b[op] - 1);
      NoOverrun(g, Logged(s, op, es[0].sector, es[0].data), b[op := b[op] - 1], es[1..], s', b');
    }
  }

  // ----- begin_op -----

  /** With op let in, it and every outstanding operation calling log_write MAXOPBLOCKS more times can reach
      the panic. */
  ghost predicate OneMoreOverruns(g: Geometry, s: Sys, op: Op) {
    CanOverrun(g, s.(calls := s.calls[op := 0]), FullBudgets(s.calls[op := 0]))
  }

  lemma NotOutstanding(g: Geometry, d0: Disk, es: seq<Event>, s: Sys, op: Op)
    requires Setting(g, d0) && Reaches(g, d0, es, s) && op !in s.begun
    ensures op !in s.calls && |s.lh| <= Room(g) && g.start < |s.base| == |s.mem|
  {
    ReachableInv(g, d0, es, s);
  }

  /** The arithmetic of the reservation, as a fact about runs. */
  lemma RoomDecides(g: Geometry, d0: Disk, es: seq<Event>, s: Sys, op: Op)
    requires Setting(g, d0) && Reaches(g, d0, es, s) && s.phase.Running? && op !in s.begun && LOGSIZE <= g.start
    ensures OneMoreOverruns(g, s, op) <==> |s.lh| + (|s.calls| + 1) * MAXOPBLOCKS > Room(g)
  {
    hide Sum;
    NotOutstanding(g, d0, es, s, op);
    var s1 := s.(calls := s.calls[op := 0]);
    var b := FullBudgets(s1.calls);
    FullSum(s1.calls);
    assert s1.calls.Keys == s.calls.Keys + {op};
    if |s.lh| + (|s.calls| + 1) * MAXOPBLOCKS > Room(g) {
      var fs, s', b' := Fill(g, s1, b);
    } else {
      forall fs, s', b' | WritesOn(g, s1, b, fs, s', b')
        ensures !Overrun(g, s', b')
      {
        NoOverrun(g, s1, b, fs, s', b');
      }
    }
  }

  /** In every reachable state begin_op puts an operation to sleep only while a commit runs or where one operation more
      could make log_write panic; with a log area of more than LOGSIZE blocks, exactly then. */
  lemma AdmitsExactly(g: Geometry, d0: Disk, es: seq<Event>, s: Sys, op: Op, s': Sys)
    requires Setting(g, d0) && Reaches(g, d0, es, s) && Step(g, s, Begin(op), s') && LOGSIZE <= g.start
    ensures op !in s'.calls ==> !s.phase.Running? || OneMoreOverruns(g, s, op)
    ensures LOGSIZE < g.size ==> (op in s'.calls <==> s.phase.Running? && !OneMoreOverruns(g, s, op))
    ensures if op in s'.calls then s'.calls == s.calls[op := 0] && op !in s'.waiting
            else s'.calls == s.calls && s'.waiting == s.waiting + {op}
  {
    NotOutstanding(g, d0, es, s, op);
    if s.phase.Running? {
      RoomDecides(g, d0, es, s, op);
    }
  }

  /** Whoever sleeps in begin_op while no commit runs does so because one operation more could overrun the log. */
  lemma SleepersOverrun(g: Geometry, d0: Disk, es: seq<Event>, s: Sys, op: Op)
    requires Setting(g, d0) && Reaches(g, d0, es, s) && s.phase.Running? && s.waiting != {} && op !in s.begun
    requires LOGSIZE <= g.start
    ensures OneMoreOverruns(g, s, op)
  {
    ReachableInv(g, d0, es, s);
    RoomDecides(g, d0, es, s, op);
  }

  /** Every admission in every run leaves room for MAXOPBLOCKS calls of each outstanding operation. */
  ghost predicate AdmissionsSafe(g: Geometry, d0: Disk) {
    forall es, s, op, s' ::
      Reaches(g, d0, es, s) && Step(g, s, Begin(op), s') && op in s'.calls ==> !OneMoreOverruns(g, s, op)
  }

  /** They do exactly when the log area has more than LOGSIZE blocks; the area that mkfs lays out has LOGSIZE. */
  lemma AdmissionsSafeExactly(g: Geometry, d0: Disk)
    requires Setting(g, d0) && LOGSIZE <= g.start
    ensures AdmissionsSafe(g, d0) <==> LOGSIZE < g.size
  {
    if LOGSIZE < g.size {
      forall es, s, op, s' | Reaches(g, d0, es, s) && Step(g, s, Begin(op), s') && op in s'.calls
        ensures !OneMoreOverruns(g, s, op)
      {
        AdmitsExactly(g, d0, es, s, op, s');
      }
    } else {
      var op := LOGSIZE / MAXOPBLOCKS - 1;
      var es, s := ManyAtOnce(g, d0, op);
      RoomDecides(g, d0, es, s, op);
      NotOutstanding(g, d0, es, s, op);
      assert Step(g, s, Begin(op), Begun(s, op));
    }
  }

  // ----- how many operations at once -----

  /** No run has more than LOGSIZE / MAXOPBLOCKS operations outstanding. */
  lemma {:induction false} MostAtOnce(g: Geometry, d0: Disk, es: seq<Event>, s: Sys)
    requires Setting(g, d0) && Reaches(g, d0, es, s)
    ensures |s.calls| <= LOGSIZE / MAXOPBLOCKS
    decreases |es|
  {
    hide Inv;
    if es != [] {
      var p :| Reaches(g, d0, Front(es), p) && Step(g, p, Last(es), s);
      MostAtOnce(g, d0, Front(es), p);
      CallsStep(g, p, Last(es), s);
    }
  }

  lemma KeysMore(m: map<Op, nat>, op: Op, v: nat)
    ensures |m[op := v]| == |m| + if op in m then 0 else 1
  {
    assert m[op := v].Keys == m.Keys + {op};
  }

  lemma KeysLess(m: map<Op, nat>, op: Op)
    ensures |m - {op}| <= |m|
  {
    assert (m - {op}).Keys == m.Keys - {op};
  }

  /** A begin_op that finds room. */
  lemma LetIn(s: Sys, op: Op)
    requires op !in s.calls && s.phase.Running? && |s.lh| + (|s.calls| + 1) * MAXOPBLOCKS <= LOGSIZE
    ensures var r := Begun(s, op);
            && |r.calls| == |s.calls| + 1 && r.calls.Keys == s.calls.Keys + {op} && r.begun == s.begun + {op}
            && r.waiting == s.waiting - {op} && r.lh == s.lh && r.phase == s.phase
  {
    KeysMore(s.calls, op, 0);
  }

  lemma BegunKeeps(s: Sys, op: Op)
    requires |s.calls| <= LOGSIZE / MAXOPBLOCKS
    ensures |Begun(s, op).calls| <= LOGSIZE / MAXOPBLOCKS
  {
    KeysMore(s.calls, op, 0);
  }

  lemma EndedKeeps(s: Sys, op: Op)
    ensures |Ended(s, op).calls| <= |s.calls|
  {
    KeysLess(s.calls, op);
  }

  lemma LoggedKeeps(s: Sys, op: Op, sector: Word, data: Block)
    requires op in s.calls && sector < |s.mem|
    ensures |Logged(s, op, sector, data).calls| == |s.calls|
  {
    KeysMore(s.calls, op, s.calls[op] + 1);
  }

  lemma CallsStep(g: Geometry, s: Sys, e: Event, s': Sys)
    requires Step(g, s, e, s') && |s.calls| <= LOGSIZE / MAXOPBLOCKS
    ensures |s'.calls| <= LOGSIZE / MAXOPBLOCKS
  {
    hide RecoverImage, CommitImage, WellFormed, Fits, Writes, Begun, Ended, Logged;
    match e {
      case Begin(op) => BegunKeeps(s, op);
      case LogWrite(op, sector, data) => LoggedKeeps(s, op, sector, data);
      case End(op) => EndedKeeps(s, op);
      case _ =>
    }
  }

  /** And a run has that many: LOGSIZE / MAXOPBLOCKS processes call begin_op one after another. */
  lemma {:induction false} ManyAtOnce(g: Geometry, d0: Disk, n: nat) returns (es: seq<Event>, s: Sys)
    requires Setting(g, d0) && n <= LOGSIZE / MAXOPBLOCKS
    ensures Reaches(g, d0, es, s) && |s.calls| == n && s.waiting == {}
    ensures s.lh == [] && s.phase.Running? && s.begun == s.calls.Keys && forall op :: op in s.begun ==> op < n
  {
    hide Inv, WellFormed, Fits, Begun, SectorWritten, Finished, Logged, Ended, Writes;
    if n == 0 {
      es, s := [], Initial(d0);
    } else {
      var es1, s1 := ManyAtOnce(g, d0, n - 1);
      NotOutstanding(g, d0, es1, s1, n - 1);
      LetIn(s1, n - 1);
      s := Begun(s1, n - 1);
      es := es1 + [Begin(n - 1)];
      assert Front(es) == es1 && Last(es) == Begin(n - 1);
      assert Step(g, s1, Begin(n - 1), s);
    }
  }
}
