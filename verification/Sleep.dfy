/** The sleep/wakeup protocol of proc.c for one lock lk that guards any number of channels, any number of
    processes, and an interleaving as fine as single lock operations and single slots of wakeup1's scan. */
module SleepWakeup {
  import opened Common

  /** Who holds ptable.lock: nobody, a scheduler, or a process. */
  datatype Holder = Free | Scheduler | Process(p: nat)

  /** What a process is doing. In(owes): it holds lk and has made the conditions of the channels owes true
      without having called wakeup on them since. */
  datatype Pc =
    | Outside                                  // neither lock held
    | Spin                                     // in acquire(lk)
    | In(owes: set<nat>)
    | WakeSpin(c: nat, owes: set<nat>)         // in wakeup(c), before ptable.lock
    | Scan(c: nat, next: nat, owes: set<nat>)  // in wakeup1(c), about to look at slot next
    | SleepSpin(c: nat)                        // in sleep(c, lk), before ptable.lock
    | SleepBoth(c: nat)                        // holding both locks
    | SleepSolo(c: nat)                        // lk released
    | Asleep(c: nat)                           // SLEEPING, in sched
    | Runnable(c: nat)                         // woken, still in sched
    | Tidy                                     // running again, holding ptable.lock

  /** cond[c] is the condition the waiters of channel c loop on. */
  datatype Sys = Sys(lk: Option<nat>, ptable: Holder, cond: seq<bool>, pc: seq<Pc>)

  datatype Event =
    | CallAcquire(p: nat)
    | Acquire(p: nat)
    | Change(p: nat, cond: seq<bool>)
    | Release(p: nat)
    | CallWakeup(p: nat, c: nat)
    | WakeAcquire(p: nat)
    | ScanSlot(p: nat)
    | WakeRelease(p: nat)
    | CallSleep(p: nat, c: nat)
    | SleepAcquire(p: nat)
    | SleepRelease(p: nat)
    | Switch(p: nat)
    | SchedulerAcquire
    | SchedulerRelease
    | Dispatch(p: nat)
    | TidyRelease(p: nat)
    | Kill(p: nat)

  ghost predicate Start(s: Sys) {
    s.lk == None && s.ptable == Free && forall p :: 0 <= p < |s.pc| ==> s.pc[p] == Outside
  }

  /** What the holder of lk owes after changing the conditions from old to new. */
  ghost function Owed(owes: set<nat>, old_: seq<bool>, new_: seq<bool>): (r: set<nat>) {
    set c: nat | c < |new_| && new_[c] && (c in owes || (c < |old_| && !old_[c]))
  }

  /** The discipline is in two guards: lk is given up, by release or by sleep, only when nothing is owed, and a
      process sleeps on a channel only when it saw its condition false under lk. */
  ghost predicate Next(s: Sys, e: Event, s': Sys) {
    match e
    case CallAcquire(p) => p < |s.pc| && s.pc[p] == Outside && s' == s.(pc := s.pc[p := Spin])
    case Acquire(p) => p < |s.pc| && s.pc[p] == Spin && s.lk == None && s' == s.(lk := Some(p), pc := s.pc[p := In({})])
    case Change(p, cond) =>
      && p < |s.pc| && s.pc[p].In? && |cond| == |s.cond|
      && s' == s.(cond := cond, pc := s.pc[p := In(Owed(s.pc[p].owes, s.cond, cond))])
    case Release(p) =>
      p < |s.pc| && s.pc[p] == In({}) && s' == s.(lk := None, pc := s.pc[p := Outside])
    case CallWakeup(p, c) =>
      p < |s.pc| && s.pc[p].In? && c < |s.cond| && s' == s.(pc := s.pc[p := WakeSpin(c, s.pc[p].owes)])
    case WakeAcquire(p) =>
      && p < |s.pc| && s.pc[p].WakeSpin? && s.ptable == Free
      && s' == s.(ptable := Process(p), pc := s.pc[p := Scan(s.pc[p].c, 0, s.pc[p].owes)])
    case ScanSlot(p) =>
      && p < |s.pc| && s.pc[p].Scan? && s.pc[p].next < |s.pc|
      && var q, c := s.pc[p].next, s.pc[p].c;
         var pc1 := s.pc[p := s.pc[p].(next := q + 1)];
         s' == s.(pc := if s.pc[q] == Asleep(c) then pc1[q := Runnable(c)] else pc1)
    case WakeRelease(p) =>
      && p < |s.pc| && s.pc[p].Scan? && s.pc[p].next == |s.pc|
      && s' == s.(ptable := Free, pc := s.pc[p := In(s.pc[p].owes - {s.pc[p].c})])
    case CallSleep(p, c) =>
      p < |s.pc| && s.pc[p] == In({}) && c < |s.cond| && !s.cond[c] && s' == s.(pc := s.pc[p := SleepSpin(c)])
    case SleepAcquire(p) =>
      && p < |s.pc| && s.pc[p].SleepSpin? && s.ptable == Free
      && s' == s.(ptable := Process(p), pc := s.pc[p := SleepBoth(s.pc[p].c)])
    case SleepRelease(p) =>
      p < |s.pc| && s.pc[p].SleepBoth? && s' == s.(lk := None, pc := s.pc[p := SleepSolo(s.pc[p].c)])
    case Switch(p) =>
      p < |s.pc| && s.pc[p].SleepSolo? && s' == s.(ptable := Scheduler, pc := s.pc[p := Asleep(s.pc[p].c)])
    case SchedulerAcquire => s.ptable == Free && s' == s.(ptable := Scheduler)
    case SchedulerRelease => s.ptable == Scheduler && s' == s.(ptable := Free)
    case Dispatch(p) =>
      p < |s.pc| && s.ptable == Scheduler && s.pc[p].Runnable? && s' == s.(ptable := Process(p), pc := s.pc[p := Tidy])
    case TidyRelease(p) =>
      p < |s.pc| && s.pc[p] == Tidy && s' == s.(ptable := Free, pc := s.pc[p := Spin])
    case Kill(p) =>
      p < |s.pc| && s.ptable == Free && s.pc[p].Asleep? && s' == s.(pc := s.pc[p := Runnable(s.pc[p].c)])
  }

  // ----- the invariant -----

  ghost predicate HoldsLk(pc: Pc) {
    pc.In? || pc.WakeSpin? || pc.Scan? || pc.SleepSpin? || pc.SleepBoth?
  }

  ghost predicate HoldsPtable(pc: Pc) {
    pc.Scan? || pc.SleepBoth? || pc.SleepSolo? || pc.Tidy?
  }

  /** A process on its way to sleep on c: the next wakeup of c has to reach it. */
  ghost predicate Committed(pc: Pc, c: nat) {
    pc == SleepSolo(c) || pc == Asleep(c)
  }

  /** The holder of lk still has to wake slot p, if it sleeps on c. */
  ghost predicate WillWake(pc: Pc, c: nat, p: nat) {
    && (pc.In? || pc.WakeSpin? || pc.Scan?) && c in pc.owes
    && (pc.Scan? && pc.c == c ==> pc.next <= p)
  }

  ghost predicate Exclusive(s: Sys, p: nat)
    requires p < |s.pc|
  {
    (HoldsLk(s.pc[p]) <==> s.lk == Some(p)) && (HoldsPtable(s.pc[p]) <==> s.ptable == Process(p))
  }

  ghost predicate Chans(s: Sys, p: nat)
    requires p < |s.pc|
  {
    && (s.pc[p].In? || s.pc[p].WakeSpin? || s.pc[p].Scan? ==> forall c :: c in s.pc[p].owes ==>
         c < |s.cond| && s.cond[c])
    && (s.pc[p].SleepSpin? || s.pc[p].SleepBoth? ==> s.pc[p].c < |s.cond| && !s.cond[s.pc[p].c])
  }

  /** Whoever is committed to sleep on a channel whose condition holds is still going to be woken by the holder of
      lk. */
  ghost predicate Covered(s: Sys, p: nat, c: nat)
    requires p < |s.pc|
  {
    Committed(s.pc[p], c) && c < |s.cond| && s.cond[c] ==>
      s.lk.Some? && s.lk.value < |s.pc| && WillWake(s.pc[s.lk.value], c, p)
  }

  ghost predicate Inv(s: Sys) {
    && (s.lk.Some? ==> s.lk.value < |s.pc|) && (s.ptable.Process? ==> s.ptable.p < |s.pc|)
    && (forall p :: 0 <= p < |s.pc| ==> Exclusive(s, p))
    && (forall p :: 0 <= p < |s.pc| ==> Chans(s, p))
    && (forall p, c :: 0 <= p < |s.pc| && 0 <= c < |s.cond| ==> Covered(s, p, c))
  }

  lemma NextKeeps(s: Sys, e: Event, s': Sys)
    requires Inv(s) && Next(s, e, s')
    ensures Inv(s')
  {
    hide Covered;
    forall p | 0 <= p < |s.pc|
      ensures Exclusive(s', p) && Chans(s', p)
    {
      HoldersKeep(s, e, s', p);
    }
    forall p, c | 0 <= p < |s.pc| && 0 <= c < |s.cond|
      ensures Covered(s', p, c)
    {
      CoveredKeeps(s, e, s', p, c);
    }
  }

  lemma HoldersKeep(s: Sys, e: Event, s': Sys, p: nat)
    requires Inv(s) && Next(s, e, s') && p < |s.pc|
    ensures Exclusive(s', p) && Chans(s', p)
  {
    hide Covered;
    assert Exclusive(s, p) && Chans(s, p);
    if !e.SchedulerAcquire? && !e.SchedulerRelease? {
      assert Exclusive(s, e.p) && Chans(s, e.p);
    }
  }

  lemma CoveredKeeps(s: Sys, e: Event, s': Sys, p: nat, c: nat)
    requires Inv(s) && Next(s, e, s') && p < |s.pc| && c < |s.cond|
    ensures Covered(s', p, c)
  {
    assert Covered(s, p, c) && Exclusive(s, p) && Chans(s, p);
    if s.lk.Some? {
      assert Exclusive(s, s.lk.value);
    }
    if !e.SchedulerAcquire? && !e.SchedulerRelease? {
      assert Exclusive(s, e.p) && Chans(s, e.p);
    }
  }

  ghost predicate Run(es: seq<Event>, ss: seq<Sys>) {
    |ss| == |es| + 1 && Start(ss[0]) && forall k :: 0 <= k < |es| ==> NextAt(es, ss, k)
  }

  ghost predicate NextAt(es: seq<Event>, ss: seq<Sys>, k: nat) {
    k < |es| && k + 1 < |ss| && Next(ss[k], es[k], ss[k + 1])
  }

  lemma {:induction false} RunInv(es: seq<Event>, ss: seq<Sys>, k: nat)
    requires Run(es, ss) && k < |ss|
    ensures Inv(ss[k])
  {
    hide Next;
    if k > 0 {
      hide Inv;
      RunInv(es, ss, k - 1);
      assert NextAt(es, ss, k - 1);
      NextKeeps(ss[k - 1], es[k - 1], ss[k]);
    }
  }

  /** No lost wakeup: whenever lk is free, nobody sleeps on a channel whose condition holds. */
  lemma NoLostWakeup(es: seq<Event>, ss: seq<Sys>, k: nat, p: nat, c: nat)
    requires Run(es, ss) && k < |ss| && p < |ss[k].pc| && c < |ss[k].cond|
    requires ss[k].lk == None && ss[k].pc[p] == Asleep(c)
    ensures !ss[k].cond[c]
  {
    RunInv(es, ss, k);
    assert Covered(ss[k], p, c);
  }

  /** The guard of Release cannot be weakened: giving lk up with owes outstanding loses a wakeup exactly when
      somebody is committed to sleep on an owed channel. */
  lemma ReleaseExactly(s: Sys, p: nat)
    requires Inv(s) && p < |s.pc| && s.pc[p].In?
    ensures var s' := s.(lk := None, pc := s.pc[p := Outside]);
            (forall q, c :: 0 <= q < |s.pc| && 0 <= c < |s.cond| ==> Covered(s', q, c)) <==>
            (forall q, c :: 0 <= q < |s.pc| && 0 <= c < |s.cond| && c in s.pc[p].owes ==> !Committed(s.pc[q], c))
  {
    var s' := s.(lk := None, pc := s.pc[p := Outside]);
    assert Exclusive(s, p) && Chans(s, p);
    forall q, c | 0 <= q < |s.pc| && 0 <= c < |s.cond|
      ensures Covered(s', q, c) <==> !(c in s.pc[p].owes && Committed(s.pc[q], c))
    {
      assert Covered(s, q, c);
    }
  }
}
