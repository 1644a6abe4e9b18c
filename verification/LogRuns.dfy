/** Whole runs of the log: any interleaving of begin_op, log_write and end_op by any number of
    processes with the sector writes of commit and recovery, and a crash at any point. */
module LogRuns {
  import opened Common
  import opened Blocks
  import opened LogDisk
  import opened LogCode

  type Op = nat     // one activation of a file-system call

  datatype Write = Write(op: Op, sector: Word, data: Block)

  datatype Phase =
    | Running
    | Committing(k: nat)      // k sector writes of commit are on the disk
    | Recovering(k: nat)      // k sector writes of recover_from_log are on the disk

  /** mem is what the cache presents; base the disk when the commit or recovery began.
      current, groups, issued and ended record the history. */
  datatype Sys = Sys(
    disk: Disk, mem: Disk, base: Disk,
    lh: seq<Word>,
    calls: map<Op, nat>,      // outstanding operations, with the log_writes each has made
    waiting: set<Op>,         // asleep in begin_op
    phase: Phase,
    begun: set<Op>, ended: set<Op>,
    current: seq<Write>, groups: seq<seq<Write>>, issued: seq<Write>)

  datatype Event =
    | Begin(op: Op)
    | LogWrite(op: Op, sector: Word, data: Block)
    | End(op: Op)
    | Sector
    | Finish
    | Crash

  predicate Blocked(s: Sys) {
    !Admits(|s.lh|, |s.calls|, s.phase.Committing?)
  }

  /** Number of sector writes of the commit or recovery in progress. */
  ghost function Writes(g: Geometry, s: Sys): (n: nat)
    requires !s.phase.Running? && g.start < |s.base|
  {
    if s.phase.Recovering? then HeaderCount(s.base[g.start]) + 1
    else if s.lh == [] then 0 else 2 * |s.lh| + 2
  }

  /** log_write panics: the log is full, whether or not the sector is in it already. */
  predicate LogFull(g: Geometry, s: Sys) {
    |s.lh| >= LOGSIZE || |s.lh| >= g.size - 1
  }

  ghost predicate Enabled(g: Geometry, s: Sys, e: Event)
    requires g.start < |s.base|
  {
    match e
    case Begin(op) => !s.phase.Recovering? && op !in s.begun
    case LogWrite(op, sector, _) => op in s.calls && !LogFull(g, s) && Home(g, |s.mem|, sector)
    case End(op) => op in s.calls
    case Sector => !s.phase.Running? && s.phase.k < Writes(g, s)
    case Finish => !s.phase.Running? && s.phase.k == Writes(g, s)
    case Crash => true
  }

  function Begun(s: Sys, op: Op): (r: Sys) {
    if Blocked(s) then s.(waiting := s.waiting + {op})
    else s.(calls := s.calls[op := 0], begun := s.begun + {op}, waiting := s.waiting - {op})
  }

  function Logged(s: Sys, op: Op, sector: Word, data: Block): (r: Sys)
    requires op in s.calls && sector < |s.mem|
  {
    s.(mem := s.mem[sector := data], lh := Absorb(s.lh, sector), calls := s.calls[op := s.calls[op] + 1],
       current := s.current + [Write(op, sector, data)], issued := s.issued + [Write(op, sector, data)])
  }

  function Ended(s: Sys, op: Op): (r: Sys) {
    var calls := s.calls - {op};
    if calls == map[] then s.(calls := calls, ended := s.ended + {op}, phase := Committing(0), base := s.disk)
    else s.(calls := calls, ended := s.ended + {op}, waiting := {})
  }

  ghost function SectorWritten(g: Geometry, s: Sys): (r: Sys)
    requires !s.phase.Running? && g.start < |s.base| && s.phase.k < Writes(g, s)
    requires if s.phase.Committing? then Fits(g, |s.base|, s.lh) && |s.mem| == |s.base| else WellFormed(g, s.base)
  {
    var k := s.phase.k + 1;
    if s.phase.Recovering? then s.(disk := RecoverImage(g, s.base, k), phase := Recovering(k))
    else
      var s' := s.(disk := CommitImage(g, s.base, s.lh, s.mem, k), phase := Committing(k));
      if k == |s.lh| + 1 then s'.(groups := s.groups + [s.current], current := []) else s'
  }

  function Finished(s: Sys): (r: Sys) {
    if s.phase.Recovering? then s.(mem := s.disk, phase := Running)
    else s.(lh := [], phase := Running, waiting := {})
  }

  function Crashed(s: Sys): (r: Sys) {
    s.(base := s.disk, mem := s.disk, lh := [], calls := map[], waiting := {}, phase := Recovering(0), current := [])
  }

  ghost function Next(g: Geometry, s: Sys, e: Event): (r: Sys)
    requires g.start < |s.base| && Enabled(g, s, e)
    requires !s.phase.Running? ==>
               if s.phase.Committing? then Fits(g, |s.base|, s.lh) && |s.mem| == |s.base| else WellFormed(g, s.base)
  {
    match e
    case Begin(op) => Begun(s, op)
    case LogWrite(op, sector, data) => Logged(s, op, sector, data)
    case End(op) => Ended(s, op)
    case Sector => SectorWritten(g, s)
    case Finish => Finished(s)
    case Crash => Crashed(s)
  }

  // ----- effects of writes -----

  function Applied(d: Disk, ws: seq<Write>): (r: Disk)
    requires forall i :: 0 <= i < |ws| ==> ws[i].sector < |d|
    ensures |r| == |d|
  {
    if ws == [] then d
    else var last := |ws| - 1; Applied(d, ws[..last])[ws[last].sector := ws[last].data]
  }

  ghost predicate InRange(ws: seq<Write>, len: nat) {
    forall i :: 0 <= i < |ws| ==> ws[i].sector < len
  }

  ghost predicate AllInRange(groups: seq<seq<Write>>, len: nat) {
    forall i :: 0 <= i < |groups| ==> InRange(groups[i], len)
  }

  /** The disk that a sequence of transactions describes. */
  ghost function Effect(d: Disk, groups: seq<seq<Write>>): (r: Disk)
    requires AllInRange(groups, |d|)
    ensures |r| == |d|
  {
    if groups == [] then d
    else
      var last := |groups| - 1;
      assert InRange(groups[last], |d|);
      Applied(Effect(d, groups[..last]), groups[last])
  }

  /** The writes of one operation within a history. */
  ghost function Of(op: Op, ws: seq<Write>): (r: seq<Write>)
  {
    if ws == [] then []
    else
      var last := |ws| - 1;
      Of(op, ws[..last]) + if ws[last].op == op then [ws[last]] else []
  }

  // ----- the invariant -----

  /** The log area lies on the disk and is empty. */
  ghost predicate Setting(g: Geometry, d0: Disk) {
    && 0 < g.size && g.start + g.size <= |d0|
    && HeaderCount(d0[g.start]) == 0
  }

  ghost predicate Shape(g: Geometry, d0: Disk, s: Sys) {
    && |s.disk| == |s.mem| == |s.base| == |d0|
    && Fits(g, |d0|, s.lh) && Distinct(s.lh)
    && InRange(s.current, |d0|) && AllInRange(s.groups, |d0|)
  }

  /** A commit or recovery runs alone, and without outstanding operations nothing is logged. */
  ghost predicate Alone(s: Sys) {
    && (s.calls == map[] && s.phase.Running? ==> s.lh == [] && s.current == [])
    && (!s.phase.Running? ==> s.calls == map[])
    && (s.lh == [] && s.phase.Committing? ==> s.current == [])
    && (s.current == [] || s.lh != [])
  }

  /** Data on the disk and in the cache against the committed history. */
  ghost predicate Durable(g: Geometry, d0: Disk, s: Sys)
    requires Setting(g, d0) && Shape(g, d0, s)
  {
    var e := Effect(d0, s.groups);
    match s.phase
    case Running =>
      && HeaderCount(s.disk[g.start]) == 0
      && SameHome(g, s.disk, e)
      && SameHome(g, s.mem, Applied(e, s.current))
      && (forall t :: Home(g, |d0|, t) && t !in s.lh ==> s.mem[t] == s.disk[t])
    case Committing(k) =>
      && HeaderCount(s.base[g.start]) == 0
      && k <= Writes(g, s)
      && s.disk == (if s.lh == [] then s.base else CommitImage(g, s.base, s.lh, s.mem, k))
      && (forall t :: Home(g, |d0|, t) && t !in s.lh ==> s.mem[t] == s.base[t])
      && SameHome(g, s.mem, Applied(e, s.current))
      && (if k <= |s.lh| then SameHome(g, s.base, e) else s.current == [])
    case Recovering(k) =>
      && WellFormed(g, s.base)
      && k <= Writes(g, s)
      && s.disk == RecoverImage(g, s.base, k)
      && SameHome(g, Recover(g, s.base), e)
      && s.current == [] && s.lh == []
  }

  /** Operations are all in or all out of a commit. */
  ghost predicate Whole(s: Sys) {
    && s.calls.Keys <= s.begun && s.ended <= s.begun && s.calls.Keys !! s.ended
    && (forall i, j :: 0 <= i < |s.groups| && 0 <= j < |s.groups[i]| ==>
          var op := s.groups[i][j].op; op in s.ended && Of(op, s.groups[i]) == Of(op, s.issued))
    && (forall j :: 0 <= j < |s.current| ==>
          var op := s.current[j].op; (op in s.ended || op in s.calls) && Of(op, s.current) == Of(op, s.issued))
    && (forall op :: op in s.calls ==> Of(op, s.current) == Of(op, s.issued))
    && (forall j :: 0 <= j < |s.issued| ==> s.issued[j].op in s.begun)
    && (forall i, k, op :: 0 <= i < k < |s.groups| ==> !(Mentions(s.groups[i], op) && Mentions(s.groups[k], op)))
    && (forall i, op :: 0 <= i < |s.groups| ==> !(Mentions(s.groups[i], op) && Mentions(s.current, op)))
  }

  ghost predicate Mentions(ws: seq<Write>, op: Op) {
    exists j :: 0 <= j < |ws| && ws[j].op == op
  }

  /** Whoever sleeps in begin_op has a reason to. */
  ghost predicate NoLostWakeup(s: Sys) {
    s.waiting != {} ==> Blocked(s)
  }

  ghost predicate Inv(g: Geometry, d0: Disk, s: Sys)
    requires Setting(g, d0)
  {
    Shape(g, d0, s) && Alone(s) && Durable(g, d0, s) && Whole(s) && NoLostWakeup(s)
  }

  // ----- histories of operations -----

  lemma EffectNext(d: Disk, groups: seq<seq<Write>>, ws: seq<Write>)
    requires AllInRange(groups, |d|) && InRange(ws, |d|)
    ensures AllInRange(groups + [ws], |d|)
    ensures Effect(d, groups + [ws]) == Applied(Effect(d, groups), ws)
  {
  }

  lemma OfNext(op: Op, ws: seq<Write>, w: Write)
    ensures Of(op, ws + [w]) == Of(op, ws) + if w.op == op then [w] else []
  {
  }

  lemma {:induction false} OfAbsent(op: Op, ws: seq<Write>)
    requires forall j :: 0 <= j < |ws| ==> ws[j].op != op
    ensures Of(op, ws) == []
  {
    if ws != [] {
      OfAbsent(op, ws[..|ws| - 1]);
    }
  }

  // ----- every event keeps the invariant -----

  lemma BeginKeeps(g: Geometry, d0: Disk, s: Sys, op: Op)
    requires Setting(g, d0) && Inv(g, d0, s) && Enabled(g, s, Begin(op))
    ensures Inv(g, d0, Begun(s, op))
  {
    hide Effect, Applied, SameHome, CommitImage, RecoverImage, Whole, Fits, Distinct, InRange, AllInRange, WellFormed;
    BeginKeepsWhole(s, op);
  }

  lemma BeginKeepsWhole(s: Sys, op: Op)
    requires Whole(s) && op !in s.begun
    ensures Whole(Begun(s, op)) && op !in s.calls
  {
    OfAbsent(op, s.current);
    OfAbsent(op, s.issued);
    hide Of;
  }

  lemma LogWriteKeepsWhole(s: Sys, op: Op, sector: Word, data: Block)
    requires Whole(s) && op in s.calls && sector < |s.mem|
    ensures Whole(Logged(s, op, sector, data))
  {
    var w := Write(op, sector, data);
    var s' := Logged(s, op, sector, data);
    forall p
      ensures Of(p, s'.current) == Of(p, s.current) + if p == op then [w] else []
      ensures Of(p, s'.issued) == Of(p, s.issued) + if p == op then [w] else []
    {
      OfNext(p, s.current, w);
      OfNext(p, s.issued, w);
    }
    forall p
      ensures Mentions(s'.current, p) ==> Mentions(s.current, p) || p == op
    {
      if Mentions(s'.current, p) && p != op {
        var j :| 0 <= j < |s'.current| && s'.current[j].op == p;
        assert s.current[j].op == p;
      }
    }
    forall i | 0 <= i < |s.groups|
      ensures !Mentions(s.groups[i], op)
    {
    }
    hide Of;
  }

  lemma LogWriteKeeps(g: Geometry, d0: Disk, s: Sys, op: Op, sector: Word, data: Block)
    requires Setting(g, d0) && Inv(g, d0, s) && Enabled(g, s, LogWrite(op, sector, data))
    ensures Inv(g, d0, Logged(s, op, sector, data))
  {
    hide CommitImage;
    hide Effect;
    hide Whole;
    LogWriteKeepsWhole(s, op, sector, data);
    assert |s.calls[op := s.calls[op] + 1]| == |s.calls| by {
      assert s.calls[op := s.calls[op] + 1].Keys == s.calls.Keys;
    }
    LogWriteKeepsDurable(g, d0, s, op, sector, data);
    hide Durable;
  }

  lemma LogWriteKeepsDurable(g: Geometry, d0: Disk, s: Sys, op: Op, sector: Word, data: Block)
    requires Setting(g, d0) && Shape(g, d0, s) && Durable(g, d0, s) && s.phase.Running?
    requires op in s.calls && Home(g, |s.mem|, sector) && !LogFull(g, s)
    ensures Shape(g, d0, Logged(s, op, sector, data)) && Durable(g, d0, Logged(s, op, sector, data))
  {
  }

  lemma EndKeeps(g: Geometry, d0: Disk, s: Sys, op: Op)
    requires Setting(g, d0) && Inv(g, d0, s) && Enabled(g, s, End(op))
    ensures Inv(g, d0, Ended(s, op))
  {
    hide Effect;
    hide Applied;
    hide SameHome;
    hide Of;
  }

  /** The transaction merged into the home sectors is what the cache holds. */
  lemma MergedIsMem(g: Geometry, base: Disk, lh: seq<Word>, mem: Disk)
    requires |mem| == |base|
    requires forall t :: Home(g, |base|, t) && t !in lh ==> mem[t] == base[t]
    ensures SameHome(g, Merged(base, lh, mem), mem)
  {
  }

  lemma CommitSectorKeeps(g: Geometry, d0: Disk, s: Sys)
    requires Setting(g, d0) && Inv(g, d0, s) && s.phase.Committing? && s.phase.k < Writes(g, s)
    ensures Inv(g, d0, SectorWritten(g, s))
  {
    hide CommitImage;
    hide Applied;
    hide Effect;
    hide Of;
    var s' := SectorWritten(g, s);
    if s.phase.k == |s.lh| {
      EffectNext(d0, s.groups, s.current);
      assert Applied(Effect(d0, s'.groups), []) == Effect(d0, s'.groups) by {
        AppliedNone(Effect(d0, s'.groups));
      }
      WholeAfterCommit(s);
    }
  }

  lemma AppliedNone(d: Disk)
    ensures Applied(d, []) == d
  {
  }

  /** With no operation outstanding, the group that commits holds whole operations. */
  lemma WholeAfterCommit(s: Sys)
    requires Whole(s) && s.calls == map[]
    ensures Whole(s.(groups := s.groups + [s.current], current := []))
  {
  }

  lemma RecoverySectorKeeps(g: Geometry, d0: Disk, s: Sys)
    requires Setting(g, d0) && Inv(g, d0, s) && s.phase.Recovering? && s.phase.k < Writes(g, s)
    ensures Inv(g, d0, SectorWritten(g, s))
  {
  }

  lemma FinishKeeps(g: Geometry, d0: Disk, s: Sys)
    requires Setting(g, d0) && Inv(g, d0, s) && !s.phase.Running? && s.phase.k == Writes(g, s)
    ensures Inv(g, d0, Finished(s))
  {
    hide Effect;
    hide Of;
    hide GetWord;
    hide Merged;
    var e := Effect(d0, s.groups);
    AppliedNone(e);
    hide Applied;
    if s.phase.Recovering? {
      hide CommitImage;
      RecoverWellFormed(g, s.base, s.phase.k);
    } else if s.lh != [] {
      CommitDone(g, s.base, s.lh, s.mem);
      hide CommitImage;
      MergedIsMem(g, s.base, s.lh, s.mem);
    }
  }

  /** What any crash now, followed by a recovery that completes, leaves in the home sectors. */
  lemma RecoversToCommitted(g: Geometry, d0: Disk, s: Sys)
    requires Setting(g, d0) && Inv(g, d0, s)
    ensures WellFormed(g, s.disk)
    ensures SameHome(g, Recover(g, s.disk), Effect(d0, s.groups))
  {
    hide Effect;
    hide Of;
    hide GetWord;
    hide Merged;
    AppliedNone(Effect(d0, s.groups));
    hide Applied;
    match s.phase {
      case Running =>
        RecoverEmpty(g, s.disk);
      case Committing(k) =>
        if s.lh == [] {
          RecoverEmpty(g, s.disk);
        } else {
          CommitCrash(g, s.base, s.lh, s.mem, k);
          hide CommitImage;
          MergedIsMem(g, s.base, s.lh, s.mem);
        }
      case Recovering(k) =>
        RecoverCrash(g, s.base, k);
    }
  }

  lemma RecoverEmpty(g: Geometry, d: Disk)
    requires 0 < g.size && g.start + g.size <= |d| && HeaderCount(d[g.start]) == 0
    ensures WellFormed(g, d) && SameHome(g, Recover(g, d), d)
  {
  }

  lemma CrashKeeps(g: Geometry, d0: Disk, s: Sys)
    requires Setting(g, d0) && Inv(g, d0, s)
    ensures Inv(g, d0, Crashed(s))
  {
    hide GetWord;
    hide SameHome;
    hide Recover;
    hide CommitImage;
    hide Effect;
    hide Applied;
    hide WellFormed;
    RecoversToCommitted(g, d0, s);
    CrashKeepsWhole(s);
    hide Whole;
    CrashStarts(g, s.disk);
    hide RecoverImage;
  }

  lemma CrashStarts(g: Geometry, d: Disk)
    requires WellFormed(g, d)
    ensures RecoverImage(g, d, 0) == d
  {
  }

  lemma CrashKeepsWhole(s: Sys)
    requires Whole(s)
    ensures Whole(Crashed(s))
  {
  }

  // ----- runs -----

  function Initial(d0: Disk): (s: Sys) {
    Sys(d0, d0, d0, [], map[], {}, Running, {}, {}, [], [], [])
  }

  ghost predicate Step(g: Geometry, s: Sys, e: Event, s': Sys) {
    && g.start < |s.base| && Enabled(g, s, e)
    && (!s.phase.Running? ==>
          if s.phase.Committing? then Fits(g, |s.base|, s.lh) && |s.mem| == |s.base| else WellFormed(g, s.base))
    && s' == Next(g, s, e)
  }

  function Front(es: seq<Event>): (r: seq<Event>)
    requires es != []
  {
    es[..|es| - 1]
  }

  function Last(es: seq<Event>): (e: Event)
    requires es != []
  {
    es[|es| - 1]
  }

  /** es leads from the initial state over the disk d0 to s. */
  ghost predicate Reaches(g: Geometry, d0: Disk, es: seq<Event>, s: Sys)
    decreases |es|
  {
    if es == [] then s == Initial(d0)
    else exists p :: Reaches(g, d0, Front(es), p) && Step(g, p, Last(es), s)
  }

  lemma InitialInv(g: Geometry, d0: Disk)
    requires Setting(g, d0)
    ensures Inv(g, d0, Initial(d0))
  {
  }

  lemma StepKeeps(g: Geometry, d0: Disk, s: Sys, e: Event, s': Sys)
    requires Setting(g, d0) && Inv(g, d0, s) && Step(g, s, e, s')
    ensures Inv(g, d0, s')
  {
    hide Inv;
    match e {
      case Begin(op) => BeginKeeps(g, d0, s, op);
      case LogWrite(op, sector, data) => LogWriteKeeps(g, d0, s, op, sector, data);
      case End(op) => EndKeeps(g, d0, s, op);
      case Sector =>
        if s.phase.Committing? {
          CommitSectorKeeps(g, d0, s);
        } else {
          RecoverySectorKeeps(g, d0, s);
        }
      case Finish => FinishKeeps(g, d0, s);
      case Crash => CrashKeeps(g, d0, s);
    }
  }

  lemma {:induction false} ReachableInv(g: Geometry, d0: Disk, es: seq<Event>, s: Sys)
    requires Setting(g, d0) && Reaches(g, d0, es, s)
    ensures Inv(g, d0, s)
    decreases |es|
  {
    hide Inv;
    hide Step;
    if es == [] {
      InitialInv(g, d0);
    } else {
      var p :| Reaches(g, d0, Front(es), p) && Step(g, p, Last(es), s);
      ReachableInv(g, d0, Front(es), p);
      StepKeeps(g, d0, p, Last(es), s);
    }
  }

  /** Crash safety over whole runs: at every moment of every run, including the middle of a commit
      or of a recovery, recovery leaves exactly the committed transactions in the home sectors. */
  lemma CrashSafety(g: Geometry, d0: Disk, es: seq<Event>, s: Sys)
    requires Setting(g, d0) && Reaches(g, d0, es, s)
    ensures AllInRange(s.groups, |d0|) && WellFormed(g, s.disk)
    ensures SameHome(g, Recover(g, s.disk), Effect(d0, s.groups))
  {
    ReachableInv(g, d0, es, s);
    RecoversToCommitted(g, d0, s);
  }

  /** Every committed transaction holds all the writes of each operation it holds any of. */
  lemma WholeOperations(g: Geometry, d0: Disk, es: seq<Event>, s: Sys, i: nat, op: Op)
    requires Setting(g, d0) && Reaches(g, d0, es, s)
    requires i < |s.groups| && Of(op, s.groups[i]) != []
    ensures op in s.ended && Of(op, s.groups[i]) == Of(op, s.issued)
    ensures forall k :: 0 <= k < |s.groups| && k != i ==> Of(op, s.groups[k]) == []
  {
    hide Durable;
    ReachableInv(g, d0, es, s);
    hide Of;
    var j := OfPresent(op, s.groups[i]);
    assert Mentions(s.groups[i], op);
    forall k | 0 <= k < |s.groups| && k != i
      ensures Of(op, s.groups[k]) == []
    {
      assert !Mentions(s.groups[k], op);
      OfAbsent(op, s.groups[k]);
    }
  }

  lemma {:induction false} OfPresent(op: Op, ws: seq<Write>) returns (j: nat)
    requires Of(op, ws) != []
    ensures j < |ws| && ws[j].op == op
  {
    if ws[|ws| - 1].op == op {
      j := |ws| - 1;
    } else {
      j := OfPresent(op, ws[..|ws| - 1]);
    }
  }

  // ----- durability -----

  /** What has been committed is never taken back, not by crashes either. */
  lemma {:induction false} GroupsGrow(g: Geometry, d0: Disk, es: seq<Event>, s: Sys, es': seq<Event>, s': Sys)
    requires Reaches(g, d0, es, s) && Reaches(g, d0, es', s') && es <= es'
    ensures s.groups <= s'.groups
    decreases |es'|
  {
    hide Step;
    if es == es' {
      Deterministic(g, d0, es, s, s');
    } else {
      var p :| Reaches(g, d0, Front(es'), p) && Step(g, p, Last(es'), s');
      GroupsGrow(g, d0, es, s, Front(es'), p);
      assert p.groups <= s'.groups by { StepGrows(g, p, Last(es'), s'); }
    }
  }

  lemma StepGrows(g: Geometry, s: Sys, e: Event, s': Sys)
    requires Step(g, s, e, s')
    ensures s.groups <= s'.groups
  {
  }

  lemma {:induction false} Deterministic(g: Geometry, d0: Disk, es: seq<Event>, s: Sys, t: Sys)
    requires Reaches(g, d0, es, s) && Reaches(g, d0, es, t)
    ensures s == t
    decreases |es|
  {
    hide Next, Enabled;
    if es != [] {
      var p :| Reaches(g, d0, Front(es), p) && Step(g, p, Last(es), s);
      var q :| Reaches(g, d0, Front(es), q) && Step(g, q, Last(es), t);
      Deterministic(g, d0, Front(es), p, q);
    }
  }

  /** The writes of an operation that has ended are all in one committed group, or all waiting for the next commit. */
  ghost predicate Held(s: Sys, op: Op) {
    && op in s.ended && op in s.begun && op !in s.calls
    && (Of(op, s.current) == Of(op, s.issued) || Committed(s, op, Of(op, s.issued)))
  }

  /** Some committed group holds just these writes of an operation. */
  ghost predicate Committed(s: Sys, op: Op, ws: seq<Write>) {
    exists i :: 0 <= i < |s.groups| && Of(op, s.groups[i]) == ws
  }

  lemma HeldStep(g: Geometry, d0: Disk, s: Sys, e: Event, s': Sys, op: Op)
    requires Setting(g, d0) && Inv(g, d0, s) && Step(g, s, e, s') && Held(s, op) && !e.Crash?
    ensures Held(s', op) && Of(op, s'.issued) == Of(op, s.issued)
  {
    hide Inv, Of, SectorWritten;
    if Committed(s, op, Of(op, s.issued)) {
      CommittedStays(g, s, e, s', op, Of(op, s.issued));
    }
    match e {
      case LogWrite(o, sector, data) =>
        OfNext(op, s.current, Write(o, sector, data));
        OfNext(op, s.issued, Write(o, sector, data));
      case Sector => HeldSector(g, d0, s, s', op);
      case _ =>
    }
  }

  lemma CommittedStays(g: Geometry, s: Sys, e: Event, s': Sys, op: Op, ws: seq<Write>)
    requires Step(g, s, e, s') && Committed(s, op, ws)
    ensures Committed(s', op, ws)
  {
    hide Of;
    var i :| 0 <= i < |s.groups| && Of(op, s.groups[i]) == ws;
    StepGrows(g, s, e, s');
    assert s'.groups[i] == s.groups[i];
  }

  lemma HeldSector(g: Geometry, d0: Disk, s: Sys, s': Sys, op: Op)
    requires Setting(g, d0) && Inv(g, d0, s) && Step(g, s, Sector, s') && Held(s, op)
    ensures Held(s', op) && s'.issued == s.issued
  {
    hide Of, CommitImage, RecoverImage, Inv;
    if Committed(s, op, Of(op, s.issued)) {
      CommittedStays(g, s, Sector, s', op, Of(op, s.issued));
    } else if s'.groups != s.groups {
      assert s'.groups[|s.groups|] == s.current;
    }
  }

  /** An operation that ended, with no crash since. */
  lemma {:induction false} EndedHeld(g: Geometry, d0: Disk, es: seq<Event>, s: Sys, k: nat, op: Op)
    requires Setting(g, d0) && Reaches(g, d0, es, s) && k < |es| && es[k] == End(op)
    requires forall j :: k < j < |es| ==> !es[j].Crash?
    ensures Held(s, op)
    decreases |es|
  {
    hide Held, Step, Inv;
    var p :| Reaches(g, d0, Front(es), p) && Step(g, p, Last(es), s);
    ReachableInv(g, d0, Front(es), p);
    if k == |es| - 1 {
      EndHolds(g, d0, p, op, s);
    } else {
      EndedHeld(g, d0, Front(es), p, k, op);
      HeldStep(g, d0, p, Last(es), s, op);
    }
  }

  lemma EndHolds(g: Geometry, d0: Disk, s: Sys, op: Op, s': Sys)
    requires Setting(g, d0) && Inv(g, d0, s) && Step(g, s, End(op), s')
    ensures Held(s', op)
  {
    hide Of, Durable;
  }

  /** Durability: once an operation has ended and, without a crash since, the log has come to rest, its writes are in a
      committed group, and stay there through everything that follows, crashes included. */
  lemma Durability(g: Geometry, d0: Disk, es: seq<Event>, s: Sys, k: nat, op: Op, es': seq<Event>, s': Sys)
    requires Setting(g, d0) && Reaches(g, d0, es, s) && k < |es| && es[k] == End(op)
    requires (forall j :: k < j < |es| ==> !es[j].Crash?) && s.phase.Running? && s.calls == map[]
    requires Reaches(g, d0, es', s') && es <= es'
    ensures Of(op, s.issued) == [] || Committed(s', op, Of(op, s.issued))
  {
    hide Of, Step, Durable, Whole;
    EndedHeld(g, d0, es, s, k, op);
    ReachableInv(g, d0, es, s);
    assert Of(op, []) == [] by { OfAbsent(op, []); }
    if Committed(s, op, Of(op, s.issued)) {
      var i :| 0 <= i < |s.groups| && Of(op, s.groups[i]) == Of(op, s.issued);
      GroupsGrow(g, d0, es, s, es', s');
      assert s'.groups[i] == s.groups[i];
    }
  }

  /** Commits run with no operation outstanding, so an operation that ends finds no commit running, and the list of
      logged sectors has no duplicates. */
  lemma CommitsAlone(g: Geometry, d0: Disk, es: seq<Event>, s: Sys)
    requires Setting(g, d0) && Reaches(g, d0, es, s)
    ensures !s.phase.Running? ==> s.calls == map[]
    ensures Distinct(s.lh) && |s.lh| <= LOGSIZE && |s.lh| < g.size
  {
    ReachableInv(g, d0, es, s);
  }

  /** Whoever sleeps in begin_op is still held up, and by something that will wake it: a commit
      in progress or an operation that has yet to end. */
  lemma SleepersHaveACause(g: Geometry, d0: Disk, es: seq<Event>, s: Sys)
    requires Setting(g, d0) && Reaches(g, d0, es, s) && s.waiting != {}
    ensures Blocked(s) && (s.phase.Committing? || s.calls != map[])
  {
    ReachableInv(g, d0, es, s);
  }
}
