/** The scan of the sleep/wakeup protocol is the wakeup1 of the process table. */
module SleepScan {
  import opened SleepWakeup
  import P = ProcTable

  /** The table shows the processes: a slot is SLEEPING, on the channel, exactly when its process is asleep on it, and a
      woken one is RUNNABLE. */
  ghost predicate Shows(pc: seq<Pc>, t: seq<P.Proc>) {
    |t| == |pc| && forall q :: 0 <= q < |pc| ==> ShowsSlot(pc[q], t[q])
  }

  ghost predicate ShowsSlot(pc: Pc, r: P.Proc) {
    && (r.state.SLEEPING? <==> pc.Asleep?)
    && (pc.Asleep? || pc.Runnable? ==> r.chan == P.Other(pc.c))
    && (pc.Runnable? ==> r.state.RUNNABLE?)
  }

  /** What wakeup1 leaves in a slot. */
  ghost predicate WakesSlot(r: P.Proc, c: P.Chan, r': P.Proc) {
    r' == if r.state.SLEEPING? && r.chan == c then r.(state := P.RUNNABLE) else r
  }

  ghost predicate NoneAsleep(pc: seq<Pc>, c: nat) {
    forall q :: 0 <= q < |pc| ==> pc[q] != Asleep(c)
  }

  /** p is in wakeup1(c) in all states from a on up to b. */
  ghost predicate Scanning(ss: seq<Sys>, p: nat, c: nat, a: nat, b: nat) {
    a <= b < |ss| && forall l :: a <= l <= b ==> p < |ss[l].pc| && ss[l].pc[p].Scan? && ss[l].pc[p].c == c
  }

  ghost predicate Parked(pc: Pc) {
    pc.Asleep? || pc.Runnable?
  }

  /** Where a parked process is when the scan of c has reached slot next. */
  function Reached(pc: Pc, c: nat, q: nat, next: nat): (r: Pc) {
    if pc == Asleep(c) && q < next then Runnable(c) else pc
  }

  /** While one process scans, only its scan moves parked processes. */
  lemma ScanStep(s: Sys, e: Event, s': Sys, p: nat, q: nat)
    requires Inv(s) && Next(s, e, s') && p < |s.pc| && s.pc[p].Scan? && q < |s.pc|
    requires p < |s'.pc| && s'.pc[p].Scan? && s'.pc[p].c == s.pc[p].c
    ensures |s'.pc| == |s.pc| && (s'.pc[p].next == s.pc[p].next || s'.pc[p].next == s.pc[p].next + 1)
    ensures Parked(s.pc[q]) || Parked(s'.pc[q]) ==>
              s'.pc[q] == if q == s.pc[p].next < s'.pc[p].next then Reached(s.pc[q], s.pc[p].c, q, q + 1) else s.pc[q]
  {
    hide Covered, Chans;
    assert Exclusive(s, p) && Exclusive(s, q);
    if !e.SchedulerAcquire? && !e.SchedulerRelease? {
      assert Exclusive(s, e.p);
    }
  }

  /** Between the states a and b of a run in which p scans for c, the slots the scan passed were woken and no others. */
  lemma {:induction false} ScanSoFar(es: seq<Event>, ss: seq<Sys>, p: nat, c: nat, a: nat, b: nat, q: nat)
    requires Run(es, ss) && Scanning(ss, p, c, a, b) && ss[a].pc[p].next == 0 && q < |ss[a].pc|
    ensures |ss[b].pc| == |ss[a].pc|
    ensures Parked(ss[a].pc[q]) || Parked(ss[b].pc[q]) ==>
              ss[b].pc[q] == Reached(ss[a].pc[q], c, q, ss[b].pc[p].next)
    decreases b
  {
    hide Next, Inv;
    if a < b {
      ScanSoFar(es, ss, p, c, a, b - 1, q);
      RunInv(es, ss, b - 1);
      assert NextAt(es, ss, b - 1);
      ScanStep(ss[b - 1], es[b - 1], ss[b], p, q);
    }
  }

  lemma ScanEnds(s: Sys, e: Event, s': Sys, p: nat)
    requires Next(s, e, s') && (e == WakeAcquire(p) || e == WakeRelease(p))
    ensures p < |s.pc| == |s'.pc| && forall q :: 0 <= q < |s.pc| && q != p ==> s'.pc[q] == s.pc[q]
    ensures !Parked(s.pc[p]) && !Parked(s'.pc[p])
    ensures if e.WakeAcquire? then s'.pc[p].Scan? && s'.pc[p].next == 0
            else s.pc[p].Scan? && s.pc[p].next == |s.pc|
  {
  }

  /** A whole wakeup(c) of a run, however it interleaves with other processes, does to the table what wakeup1 does:
      a table that shows the processes before it and goes through wakeup1 shows the processes after it. */
  lemma WakeupIsWakeup1(es: seq<Event>, ss: seq<Sys>, p: nat, c: nat, a: nat, b: nat, t: seq<P.Proc>, t': seq<P.Proc>)
    requires Run(es, ss) && a < b < |es| && es[a] == WakeAcquire(p) && es[b] == WakeRelease(p)
    requires Scanning(ss, p, c, a + 1, b) && Shows(ss[a].pc, t)
    requires |t'| == |t| && forall q :: 0 <= q < |t| ==> WakesSlot(t[q], P.Other(c), t'[q])
    ensures Shows(ss[b + 1].pc, t')
    ensures NoneAsleep(ss[b + 1].pc, c)
  {
    hide Next;
    assert NextAt(es, ss, a) && NextAt(es, ss, b);
    ScanEnds(ss[a], es[a], ss[a + 1], p);
    ScanEnds(ss[b], es[b], ss[b + 1], p);
    forall q | 0 <= q < |ss[b + 1].pc|
      ensures |ss[b + 1].pc| == |t'| && ShowsSlot(ss[b + 1].pc[q], t'[q]) && ss[b + 1].pc[q] != Asleep(c)
    {
      ScanSoFar(es, ss, p, c, a + 1, b, 0);
      ScanSoFar(es, ss, p, c, a + 1, b, q);
      assert WakesSlot(t[q], P.Other(c), t'[q]) && ShowsSlot(ss[a].pc[q], t[q]);
    }
  }
}
