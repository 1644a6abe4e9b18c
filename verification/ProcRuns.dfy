/** All runs of fork, exit, wait, sleep, wakeup and kill by any number of processes. Every event is one
    section that holds ptable.lock, except the stores of fork that take no lock, which are events of their own. */
module ProcRuns {
  import opened Common
  import opened ProcTable

  /** Where in the kernel the owner of a slot is: the slot has no owner yet, ordinary code, inside fork with
      the embryo np (its parent field stored or not), inside wait, inside another sleep, past exit. */
  datatype Place = Nowhere | Normal | Forking(np: nat, linked: bool) | Waiting | Blocked | Gone

  datatype Sys = Sys(t: seq<Proc>, at: seq<Place>, nextpid: nat, init: nat)

  datatype Event =
    | ForkAlloc(p: nat, np: Option<nat>)
    | ForkFail(p: nat)
    | ForkLink(p: nat)
    | ForkRun(p: nat)
    | Exit(p: nat)
    | Wait(p: nat, r: WaitResult, j: nat)
    | Schedule(p: nat)
    | Yield(p: nat)
    | Sleep(p: nat, addr: nat)
    | Wakeup(c: Chan)
    | Kill(pid: nat, found: Option<nat>)
    | Fault(p: nat)

  /** The table after userinit. */
  ghost predicate Start(s: Sys) {
    && |s.t| == |s.at| > 0 && s.init == 0 && s.nextpid == 2
    && s.t[0] == Proc(RUNNABLE, 1, None, Null, false) && s.at[0] == Normal
    && forall i :: 1 <= i < |s.t| ==> s.t[i] == Proc(UNUSED, 0, None, Null, false) && s.at[i] == Nowhere
  }

  ghost predicate Runs(s: Sys, p: nat, at: Place) {
    p < |s.t| == |s.at| && s.t[p].state.RUNNING? && s.at[p] == at
  }

  ghost predicate InFork(s: Sys, p: nat, linked: bool) {
    p < |s.t| == |s.at| && s.t[p].state.RUNNING? && s.at[p].Forking? && s.at[p].linked == linked && s.at[p].np < |s.t|
  }

  ghost predicate Next(s: Sys, e: Event, s': Sys) {
    && |s.t| == |s.at| && s'.init == s.init
    && match e
       case ForkAlloc(p, np) =>
         && Runs(s, p, Normal) && AllocRel(s.t, s.nextpid, np, s'.t)
         && s'.nextpid == s.nextpid + (if np.Some? then 1 else 0)
         && s'.at == if np.Some? then s.at[p := Forking(np.value, false)] else s.at
       case ForkFail(p) =>
         && InFork(s, p, false)
         && s' == s.(t := s.t[s.at[p].np := s.t[s.at[p].np].(state := UNUSED)], at := s.at[p := Normal])
       case ForkLink(p) =>
         && InFork(s, p, false)
         && s' == s.(t := s.t[s.at[p].np := s.t[s.at[p].np].(parent := Some(p))],
            at := s.at[p := Forking(s.at[p].np, true)])
       case ForkRun(p) =>
         && InFork(s, p, true)
         && s' == s.(t := s.t[s.at[p].np := s.t[s.at[p].np].(state := RUNNABLE)],
            at := s.at[p := Normal][s.at[p].np := Normal])
       case Exit(p) =>
         Runs(s, p, Normal) && p != s.init && s' == s.(t := Exited(s.t, p, s.init), at := s.at[p := Gone])
       case Wait(p, r, j) =>
         && (Runs(s, p, Normal) || Runs(s, p, Waiting)) && s'.nextpid == s.nextpid
         && WaitRel(s.t, p, r, j, s'.t)
         && s'.at == if r.Reaped? then s.at[p := Normal][j := Nowhere]
                     else if r.Failed? then s.at[p := Normal] else s.at[p := Waiting]
       case Schedule(p) =>
         && p < |s.t| && s.t[p].state.RUNNABLE?
         && s' == s.(t := s.t[p := s.t[p].(state := RUNNING, chan := Null)],
                     at := if s.at[p].Blocked? then s.at[p := Normal] else s.at)
       case Yield(p) =>
         p < |s.t| && s.t[p].state.RUNNING? && s' == s.(t := s.t[p := s.t[p].(state := RUNNABLE)])
       case Sleep(p, addr) =>
         && Runs(s, p, Normal)
         && s' == s.(t := s.t[p := s.t[p].(state := SLEEPING, chan := Other(addr))], at := s.at[p := Blocked])
       case Wakeup(c) =>
         s' == s.(t := Woken(s.t, c))
       case Kill(pid, found) =>
         KillRel(s.t, pid, found, s'.t) && s'.at == s.at && s'.nextpid == s.nextpid
       case Fault(p) =>
         Runs(s, p, Normal) && s' == s.(t := s.t[p := s.t[p].(killed := true)])
  }

  // ----- the invariant -----

  ghost predicate Alive(s: Sys, q: nat) {
    q < |s.t| && !s.t[q].state.UNUSED? && !s.t[q].state.EMBRYO? && !s.t[q].state.ZOMBIE?
  }

  ghost predicate Shape(s: Sys, i: nat)
    requires i < |s.t| == |s.at|
  {
    && (s.t[i].state.UNUSED? || s.t[i].state.EMBRYO? <==> s.at[i] == Nowhere)
    && (s.t[i].state.ZOMBIE? <==> s.at[i] == Gone)
    && (s.t[i].state.SLEEPING? ==>
          if s.at[i] == Waiting then s.t[i].chan == Slot(i) else s.at[i] == Blocked && s.t[i].chan.Other?)
    && (s.at[i].Forking? ==>
          && s.at[i].np < |s.t| && s.t[s.at[i].np].state.EMBRYO? && s.t[i].pid < s.t[s.at[i].np].pid
          && s.t[s.at[i].np].parent == if s.at[i].linked then Some(i) else None)
  }

  /** A non-null parent is alive, and was born earlier unless it is init. */
  ghost predicate Family(s: Sys, i: nat)
    requires i < |s.t|
  {
    && (s.t[i].state.UNUSED? || i == s.init ==> s.t[i].parent.None?)
    && (!s.t[i].state.UNUSED? && !s.t[i].state.EMBRYO? && i != s.init ==> s.t[i].parent.Some?)
    && (s.t[i].parent.Some? ==> Alive(s, s.t[i].parent.value) &&
                                (s.t[i].parent.value != s.init ==> s.t[s.t[i].parent.value].pid < s.t[i].pid))
    && (!s.t[i].state.UNUSED? ==> 1 <= s.t[i].pid < s.nextpid)
  }

  /** A process asleep in wait has something to wait for, and it has not happened yet. */
  ghost predicate NothingMissed(s: Sys, i: nat)
    requires i < |s.t| == |s.at|
  {
    s.t[i].state.SLEEPING? && s.at[i] == Waiting ==>
      !HasZombie(s.t, i, |s.t|) && HasChild(s.t, i) && !s.t[i].killed
  }

  ghost predicate Distinct(s: Sys, i: nat, j: nat)
    requires i < |s.t| == |s.at| && j < |s.t|
  {
    && (s.t[i].state != UNUSED && s.t[j].state != UNUSED && i != j ==> s.t[i].pid != s.t[j].pid)
    && (s.at[i].Forking? && s.at[j].Forking? && i != j ==> s.at[i].np != s.at[j].np)
  }

  ghost predicate Inv(s: Sys) {
    && |s.t| == |s.at| && Alive(s, s.init)
    && (forall i :: 0 <= i < |s.t| ==> Shape(s, i))
    && (forall i :: 0 <= i < |s.t| ==> Family(s, i))
    && (forall i :: 0 <= i < |s.t| ==> NothingMissed(s, i))
    && (forall i, j :: 0 <= i < |s.t| && 0 <= j < |s.t| ==> Distinct(s, i, j))
  }

  lemma StartInv(s: Sys)
    requires Start(s)
    ensures Inv(s)
  {
  }

  // ----- every event keeps it -----

  ghost predicate Asleep(s: Sys, i: nat) {
    i < |s.t| == |s.at| && s.t[i].state.SLEEPING? && s.at[i] == Waiting
  }

  /** Slot j is no less a child of i than before, and no new zombie child. */
  ghost predicate KidKept(t: seq<Proc>, t': seq<Proc>, i: nat, j: nat) {
    && j < |t| == |t'|
    && (IsChild(t[j], i) ==> IsChild(t'[j], i))
    && (ZombieChild(t', i, j) ==> ZombieChild(t, i, j))
  }

  /** What wait by w looks for depends only on who its children are and which of them are zombies. */
  lemma SameKids(t: seq<Proc>, t': seq<Proc>, w: nat)
    requires |t| == |t'|
    requires forall i :: 0 <= i < |t| ==> KidKept(t, t', w, i)
    ensures HasChild(t, w) ==> HasChild(t', w)
    ensures HasZombie(t', w, |t|) ==> HasZombie(t, w, |t|)
  {
    if HasChild(t, w) {
      var i :| 0 <= i < |t| && IsChild(t[i], w);
      assert KidKept(t, t', w, i);
    }
    if HasZombie(t', w, |t|) {
      var i :| 0 <= i < |t| && ZombieChild(t', w, i);
      assert KidKept(t, t', w, i);
    }
  }

  /** NothingMissed is kept by an event that puts nobody to sleep, takes no child from a waiter, makes no
      zombie child of one and marks none as killed. */
  lemma WaitersKept(s: Sys, s': Sys)
    requires Inv(s) && |s'.t| == |s'.at| == |s.t|
    requires forall i :: 0 <= i < |s.t| && Asleep(s', i) ==> Asleep(s, i) && !s'.t[i].killed
    requires forall i, j :: 0 <= i < |s.t| && 0 <= j < |s.t| && Asleep(s', i) ==> KidKept(s.t, s'.t, i, j)
    ensures forall i :: 0 <= i < |s.t| ==> NothingMissed(s', i)
  {
    forall i | 0 <= i < |s.t|
      ensures NothingMissed(s', i)
    {
      assert NothingMissed(s, i);
      if Asleep(s', i) {
        assert forall j :: 0 <= j < |s.t| ==> KidKept(s.t, s'.t, i, j);
        SameKids(s.t, s'.t, i);
      }
    }
  }

  lemma ForkAllocKeeps(s: Sys, e: Event, s': Sys)
    requires Inv(s) && e.ForkAlloc? && Next(s, e, s')
    ensures Inv(s')
  {
    if e.np.Some? {
      var np := e.np.value;
      assert Shape(s, np) && Family(s, np) && Family(s, e.p);
      forall i | 0 <= i < |s.t|
        ensures Shape(s', i) && Family(s', i)
      {
        assert Shape(s, i) && Family(s, i);
        assert s.t[i].parent.Some? ==> s.t[i].parent.value != np;
      }
      forall i, j | 0 <= i < |s.t| && 0 <= j < |s.t|
        ensures Distinct(s', i, j)
      {
        assert Distinct(s, i, j) && Shape(s, i) && Shape(s, j) && Family(s, i) && Family(s, j);
      }
      forall i | 0 <= i < |s.t| && Asleep(s', i)
        ensures Asleep(s, i) && !s'.t[i].killed
      {
        assert NothingMissed(s, i);
      }
      forall i, j | 0 <= i < |s.t| && 0 <= j < |s.t| && Asleep(s', i)
        ensures KidKept(s.t, s'.t, i, j)
      {
      }
      WaitersKept(s, s');
    } else {
      assert s' == s;
    }
  }

  lemma ForkFailKeeps(s: Sys, e: Event, s': Sys)
    requires Inv(s) && e.ForkFail? && Next(s, e, s')
    ensures Inv(s')
  {
    var p := e.p;
    assert Shape(s, p);
    forall i | 0 <= i < |s.t|
      ensures Shape(s', i) && Family(s', i)
    {
      assert Shape(s, i) && Family(s, i) && Distinct(s, i, p);
    }
    forall i, j | 0 <= i < |s.t| && 0 <= j < |s.t|
      ensures Distinct(s', i, j)
    {
      assert Distinct(s, i, j);
    }
    forall i | 0 <= i < |s.t| && Asleep(s', i)
      ensures Asleep(s, i) && !s'.t[i].killed
    {
      assert NothingMissed(s, i);
    }
    forall i, j | 0 <= i < |s.t| && 0 <= j < |s.t| && Asleep(s', i)
      ensures KidKept(s.t, s'.t, i, j)
    {
    }
    WaitersKept(s, s');
  }

  lemma ForkLinkKeeps(s: Sys, e: Event, s': Sys)
    requires Inv(s) && e.ForkLink? && Next(s, e, s')
    ensures Inv(s')
  {
    var p := e.p;
    assert Shape(s, p);
    forall i | 0 <= i < |s.t|
      ensures Shape(s', i) && Family(s', i)
    {
      assert Shape(s, i) && Family(s, i) && Distinct(s, i, p);
    }
    forall i, j | 0 <= i < |s.t| && 0 <= j < |s.t|
      ensures Distinct(s', i, j)
    {
      assert Distinct(s, i, j);
    }
    forall i | 0 <= i < |s.t| && Asleep(s', i)
      ensures Asleep(s, i) && !s'.t[i].killed
    {
      assert NothingMissed(s, i);
    }
    forall i, j | 0 <= i < |s.t| && 0 <= j < |s.t| && Asleep(s', i)
      ensures KidKept(s.t, s'.t, i, j)
    {
    }
    WaitersKept(s, s');
  }

  lemma ForkRunKeeps(s: Sys, e: Event, s': Sys)
    requires Inv(s) && e.ForkRun? && Next(s, e, s')
    ensures Inv(s')
  {
    var p := e.p;
    assert Shape(s, p);
    forall i | 0 <= i < |s.t|
      ensures Shape(s', i) && Family(s', i)
    {
      assert Shape(s, i) && Family(s, i) && Distinct(s, i, p);
    }
    forall i, j | 0 <= i < |s.t| && 0 <= j < |s.t|
      ensures Distinct(s', i, j)
    {
      assert Distinct(s, i, j);
    }
    forall i | 0 <= i < |s.t| && Asleep(s', i)
      ensures Asleep(s, i) && !s'.t[i].killed
    {
      assert NothingMissed(s, i);
    }
    forall i, j | 0 <= i < |s.t| && 0 <= j < |s.t| && Asleep(s', i)
      ensures KidKept(s.t, s'.t, i, j)
    {
    }
    WaitersKept(s, s');
  }

  lemma ExitKeeps(s: Sys, e: Event, s': Sys)
    requires Inv(s) && e.Exit? && Next(s, e, s')
    ensures Inv(s')
  {
    hide HasZombie;
    ExitShape(s, e, s');
    forall i, j | 0 <= i < |s.t| && 0 <= j < |s.t|
      ensures Distinct(s', i, j)
    {
      assert Distinct(s, i, j);
    }
    ExitWakes(s, e, s');
  }

  lemma ExitShape(s: Sys, e: Event, s': Sys)
    requires Inv(s) && e.Exit? && Next(s, e, s')
    ensures forall i :: 0 <= i < |s.t| ==> Shape(s', i) && Family(s', i)
  {
    hide Shape, Family;
    forall i | 0 <= i < |s.t|
      ensures Shape(s', i) && Family(s', i)
    {
      ExitShapeAt(s, e, s', i);
      ExitFamilyAt(s, e, s', i);
    }
  }

  lemma ExitShapeAt(s: Sys, e: Event, s': Sys, i: nat)
    requires Inv(s) && e.Exit? && Next(s, e, s') && i < |s.t|
    ensures Shape(s', i)
  {
    hide HasZombie, Distinct, NothingMissed, Family;
    assert Shape(s, e.p) && Shape(s, i);
  }

  lemma ExitFamilyAt(s: Sys, e: Event, s': Sys, i: nat)
    requires Inv(s) && e.Exit? && Next(s, e, s') && i < |s.t|
    ensures Family(s', i)
  {
    hide HasZombie, Distinct, NothingMissed, Shape;
    assert Family(s, i);
  }

  /** Nobody whose child dies, or who inherits a dead child, stays asleep in wait. */
  lemma ExitWakes(s: Sys, e: Event, s': Sys)
    requires Inv(s) && e.Exit? && Next(s, e, s')
    ensures forall i :: 0 <= i < |s.t| ==> NothingMissed(s', i)
  {
    var p := e.p;
    assert Family(s, p) && !IsChild(s.t[p], p);
    forall i | 0 <= i < |s.t| && Asleep(s', i)
      ensures Asleep(s, i) && !s'.t[i].killed && !IsChild(s.t[p], i)
      ensures i == s.init ==> !HasZombie(s.t, p, |s.t|)
    {
      assert NothingMissed(s, i) && Shape(s, i);
    }
    forall i, j | 0 <= i < |s.t| && 0 <= j < |s.t| && Asleep(s', i)
      ensures KidKept(s.t, s'.t, i, j)
    {
      assert i != p && !IsChild(s.t[p], i);
      assert s'.t[j].parent == Adopt(s.t[j], p, s.init).parent;
      assert s'.t[j].state.ZOMBIE? ==> j == p || s.t[j].state.ZOMBIE?;
      assert i == s.init ==> !ZombieChild(s.t, p, j);
    }
    WaitersKept(s, s');
  }

  lemma WaitKeeps(s: Sys, e: Event, s': Sys)
    requires Inv(s) && e.Wait? && Next(s, e, s')
    ensures Inv(s')
  {
    assert Shape(s, e.p);
    forall i | 0 <= i < |s.t|
      ensures Shape(s', i) && Family(s', i)
    {
      assert Shape(s, i) && Family(s, i);
    }
    forall i, j | 0 <= i < |s.t| && 0 <= j < |s.t|
      ensures Distinct(s', i, j)
    {
      assert Distinct(s, i, j);
    }
    if e.r.MustSleep? {
      SleepsForAReason(s, e, s');
    } else {
      forall i | 0 <= i < |s.t| && Asleep(s', i)
        ensures Asleep(s, i) && !s'.t[i].killed && i != e.p
      {
        assert NothingMissed(s, i);
      }
      forall i, j | 0 <= i < |s.t| && 0 <= j < |s.t| && Asleep(s', i)
        ensures KidKept(s.t, s'.t, i, j)
      {
      }
      WaitersKept(s, s');
    }
  }

  lemma SleepsForAReason(s: Sys, e: Event, s': Sys)
    requires Inv(s) && e.Wait? && e.r.MustSleep? && Next(s, e, s')
    ensures forall i :: 0 <= i < |s.t| ==> NothingMissed(s', i)
  {
    forall i | 0 <= i < |s.t|
      ensures NothingMissed(s', i)
    {
      assert NothingMissed(s, i);
      assert forall j :: 0 <= j < |s.t| ==> KidKept(s.t, s'.t, i, j);
      SameKids(s.t, s'.t, i);
    }
  }

  lemma OneSlotShape(s: Sys, e: Event, s': Sys)
    requires Inv(s) && (e.Schedule? || e.Yield? || e.Sleep? || e.Fault?) && Next(s, e, s')
    ensures forall i :: 0 <= i < |s.t| ==> Shape(s', i) && Family(s', i)
  {
    hide Distinct, NothingMissed;
    forall i | 0 <= i < |s.t|
      ensures Shape(s', i) && Family(s', i)
    {
      assert Shape(s, i) && Family(s, i);
    }
  }

  lemma OneSlotKeeps(s: Sys, e: Event, s': Sys)
    requires Inv(s) && (e.Schedule? || e.Yield? || e.Sleep? || e.Fault?) && Next(s, e, s')
    ensures Inv(s')
  {
    hide Shape, Family;
    OneSlotShape(s, e, s');
    forall i, j | 0 <= i < |s.t| && 0 <= j < |s.t|
      ensures Distinct(s', i, j)
    {
      assert Distinct(s, i, j);
    }
    forall i | 0 <= i < |s.t| && Asleep(s', i)
      ensures Asleep(s, i) && !s'.t[i].killed
    {
      assert NothingMissed(s, i);
    }
    forall i, j | 0 <= i < |s.t| && 0 <= j < |s.t| && Asleep(s', i)
      ensures KidKept(s.t, s'.t, i, j)
    {
    }
    WaitersKept(s, s');
  }

  lemma WakeKeeps(s: Sys, e: Event, s': Sys)
    requires Inv(s) && (e.Wakeup? || e.Kill?) && Next(s, e, s')
    ensures Inv(s')
  {
    forall i | 0 <= i < |s.t|
      ensures Shape(s', i) && Family(s', i)
    {
      assert Shape(s, i) && Family(s, i);
    }
    forall i, j | 0 <= i < |s.t| && 0 <= j < |s.t|
      ensures Distinct(s', i, j)
    {
      assert Distinct(s, i, j);
    }
    forall i | 0 <= i < |s.t| && Asleep(s', i)
      ensures Asleep(s, i) && !s'.t[i].killed
    {
      assert NothingMissed(s, i);
    }
    forall i, j | 0 <= i < |s.t| && 0 <= j < |s.t| && Asleep(s', i)
      ensures KidKept(s.t, s'.t, i, j)
    {
    }
    WaitersKept(s, s');
  }

  lemma NextKeeps(s: Sys, e: Event, s': Sys)
    requires Inv(s) && Next(s, e, s')
    ensures Inv(s')
  {
    hide Inv, Next;
    match e
    case ForkAlloc(_, _) => ForkAllocKeeps(s, e, s');
    case ForkFail(_) => ForkFailKeeps(s, e, s');
    case ForkLink(_) => ForkLinkKeeps(s, e, s');
    case ForkRun(_) => ForkRunKeeps(s, e, s');
    case Exit(_) => ExitKeeps(s, e, s');
    case Wait(_, _, _) => WaitKeeps(s, e, s');
    case Wakeup(_) => WakeKeeps(s, e, s');
    case Kill(_, _) => WakeKeeps(s, e, s');
    case _ => OneSlotKeeps(s, e, s');
  }

  // ----- whole runs -----

  /** A run: events from the table after userinit on, with every state on the way. */
  ghost predicate Run(es: seq<Event>, ss: seq<Sys>) {
    |ss| == |es| + 1 && Start(ss[0]) && forall k :: 0 <= k < |es| ==> NextAt(es, ss, k)
  }

  ghost predicate NextAt(es: seq<Event>, ss: seq<Sys>, k: nat) {
    k < |es| && k + 1 < |ss| && Next(ss[k], es[k], ss[k + 1])
  }

  lemma {:induction false} RunInv(es: seq<Event>, ss: seq<Sys>, k: nat)
    requires Run(es, ss) && k < |ss|
    ensures Inv(ss[k])
  {
    hide Inv, Next;
    if k == 0 {
      StartInv(ss[0]);
    } else {
      RunInv(es, ss, k - 1);
      assert NextAt(es, ss, k - 1);
      NextKeeps(ss[k - 1], es[k - 1], ss[k]);
    }
  }

  /** In every reachable state a non-null parent pointer names a process that is neither unused nor a zombie. */
  lemma ParentsAlive(es: seq<Event>, ss: seq<Sys>, k: nat, i: nat)
    requires Run(es, ss) && k < |ss| && i < |ss[k].t| && ss[k].t[i].parent.Some?
    ensures var q := ss[k].t[i].parent.value; q < |ss[k].t| && !ss[k].t[q].state.UNUSED? && !ss[k].t[q].state.ZOMBIE?
  {
    RunInv(es, ss, k);
    assert Family(ss[k], i);
  }

  /** In every reachable state a process asleep in wait has no zombie child, and has a child that has yet to exit. */
  lemma NoLostExit(es: seq<Event>, ss: seq<Sys>, k: nat, i: nat)
    requires Run(es, ss) && k < |ss| && i < |ss[k].t| == |ss[k].at|
    requires ss[k].t[i].state.SLEEPING? && ss[k].at[i] == Waiting
    ensures forall j :: 0 <= j < |ss[k].t| && IsChild(ss[k].t[j], i) ==> !ss[k].t[j].state.ZOMBIE?
    ensures exists j :: 0 <= j < |ss[k].t| && IsChild(ss[k].t[j], i)
  {
    RunInv(es, ss, k);
    assert NothingMissed(ss[k], i);
    forall j | 0 <= j < |ss[k].t| && IsChild(ss[k].t[j], i)
      ensures !ss[k].t[j].state.ZOMBIE?
    {
      assert !ZombieChild(ss[k].t, i, j);
    }
  }

  /** A zombie's parent is there to reap it, and not asleep in wait. */
  lemma ZombiesReapable(es: seq<Event>, ss: seq<Sys>, k: nat, i: nat)
    requires Run(es, ss) && k < |ss| && i < |ss[k].t| && ss[k].t[i].state.ZOMBIE?
    ensures ss[k].t[i].parent.Some? && ss[k].t[i].parent.value < |ss[k].t| == |ss[k].at|
    ensures var q := ss[k].t[i].parent.value; Alive(ss[k], q) && !Asleep(ss[k], q)
  {
    var s := ss[k];
    RunInv(es, ss, k);
    assert Family(s, i);
    var q := s.t[i].parent.value;
    assert NothingMissed(s, q) && ZombieChild(s.t, q, i);
  }

  /** The n-th ancestor of i. */
  ghost function Ancestor(s: Sys, i: nat, n: nat): (r: nat)
    decreases n
  {
    if n == 0 || i >= |s.t| || s.t[i].parent.None? then i else Ancestor(s, s.t[i].parent.value, n - 1)
  }

  /** Parent pointers never form a cycle: from every process they lead to init. */
  lemma {:induction false} LeadsToInit(s: Sys, i: nat) returns (n: nat)
    requires Inv(s) && i < |s.t| && !s.t[i].state.UNUSED? && !s.t[i].state.EMBRYO?
    ensures Ancestor(s, i, n) == s.init
    decreases if i == s.init then 0 else s.t[i].pid
  {
    if i == s.init {
      n := 0;
    } else {
      assert Family(s, i);
      var q := s.t[i].parent.value;
      assert Family(s, q);
      var m := LeadsToInit(s, q);
      n := m + 1;
    }
  }

  // ----- a pid is reaped once -----

  /** The pid was given out and nobody has it any more. */
  ghost predicate Retired(s: Sys, pid: nat) {
    pid < s.nextpid && forall i :: 0 <= i < |s.t| ==> s.t[i].state.UNUSED? || s.t[i].pid != pid
  }

  lemma RetiredStays(s: Sys, e: Event, s': Sys, pid: nat)
    requires Inv(s) && Next(s, e, s') && Retired(s, pid)
    ensures Retired(s', pid)
  {
    forall i | 0 <= i < |s'.t|
      ensures s'.t[i].state.UNUSED? || s'.t[i].pid != pid
    {
      assert Shape(s, i);
      assert e.ForkRun? && s.at[e.p].np == i ==> Shape(s, e.p);
    }
  }

  lemma ReapRetires(s: Sys, e: Event, s': Sys)
    requires Inv(s) && Next(s, e, s') && e.Wait? && e.r.Reaped?
    ensures Retired(s', e.r.pid) && !Retired(s, e.r.pid)
  {
    var j := e.j;
    assert Family(s, j);
    forall i | 0 <= i < |s.t|
      ensures s'.t[i].state.UNUSED? || s'.t[i].pid != e.r.pid
    {
      assert Distinct(s, i, j);
    }
  }

  lemma {:induction false} RetiredFrom(es: seq<Event>, ss: seq<Sys>, k: nat, l: nat, pid: nat)
    requires Run(es, ss) && k <= l < |ss| && Retired(ss[k], pid)
    ensures Retired(ss[l], pid)
  {
    hide Inv, Next, Retired;
    if k < l {
      RetiredFrom(es, ss, k, l - 1, pid);
      RunInv(es, ss, l - 1);
      assert NextAt(es, ss, l - 1);
      RetiredStays(ss[l - 1], es[l - 1], ss[l], pid);
    }
  }

  /** No pid is returned by wait twice in a run. */
  lemma ReapedOnce(es: seq<Event>, ss: seq<Sys>, k: nat, l: nat)
    requires Run(es, ss) && k < l < |es|
    requires es[k].Wait? && es[k].r.Reaped? && es[l].Wait? && es[l].r.Reaped?
    ensures es[k].r.pid != es[l].r.pid
  {
    hide Inv, Next, Retired;
    RunInv(es, ss, k);
    RunInv(es, ss, l);
    assert NextAt(es, ss, k) && NextAt(es, ss, l);
    ReapRetires(ss[k], es[k], ss[k + 1]);
    ReapRetires(ss[l], es[l], ss[l + 1]);
    RetiredFrom(es, ss, k + 1, l, es[k].r.pid);
  }

  // ----- pids, in used and unused slots -----

  /** No pid is ahead of nextpid, and none but 0 is in two slots. */
  ghost predicate Pids(s: Sys) {
    && (forall i :: 0 <= i < |s.t| ==> s.t[i].pid < s.nextpid)
    && (forall i, j :: 0 <= i < j < |s.t| && s.t[i].pid == s.t[j].pid ==> s.t[i].pid == 0)
  }

  lemma PidsKept(s: Sys, e: Event, s': Sys)
    requires Pids(s) && Next(s, e, s')
    ensures Pids(s')
  {
    hide HasZombie, HasChild;
    forall i | 0 <= i < |s'.t|
      ensures s'.t[i].pid == s.t[i].pid || s'.t[i].pid == 0 ||
              (e.ForkAlloc? && e.np == Some(i) && s'.t[i].pid == s.nextpid < s'.nextpid)
      ensures |s'.t| == |s.t| && s.nextpid <= s'.nextpid
    {
    }
  }

  lemma {:induction false} RunPids(es: seq<Event>, ss: seq<Sys>, k: nat)
    requires Run(es, ss) && k < |ss|
    ensures Pids(ss[k])
  {
    hide Next;
    if k > 0 {
      hide Pids;
      RunPids(es, ss, k - 1);
      assert NextAt(es, ss, k - 1);
      PidsKept(ss[k - 1], es[k - 1], ss[k]);
    }
  }

  ghost predicate Absent(s: Sys, pid: nat) {
    pid < s.nextpid && forall i :: 0 <= i < |s.t| ==> s.t[i].pid != pid
  }

  lemma AbsentStays(s: Sys, e: Event, s': Sys, pid: nat)
    requires Next(s, e, s') && Absent(s, pid) && pid != 0
    ensures Absent(s', pid)
  {
    hide HasZombie, HasChild;
    forall i | 0 <= i < |s'.t|
      ensures s'.t[i].pid != pid
    {
      assert |s'.t| == |s.t|;
      assert s.t[i].pid != pid;
    }
  }

  lemma {:induction false} AbsentFrom(es: seq<Event>, ss: seq<Sys>, k: nat, l: nat, pid: nat)
    requires Run(es, ss) && k <= l < |ss| && Absent(ss[k], pid) && pid != 0
    ensures Absent(ss[l], pid)
  {
    hide Next, Absent;
    if k < l {
      AbsentFrom(es, ss, k, l - 1, pid);
      assert NextAt(es, ss, l - 1);
      AbsentStays(ss[l - 1], es[l - 1], ss[l], pid);
    }
  }

  lemma ReapRemoves(s: Sys, e: Event, s': Sys)
    requires Inv(s) && Pids(s) && Next(s, e, s') && e.Wait? && e.r.Reaped?
    ensures e.r.pid != 0 && Absent(s', e.r.pid)
  {
    hide HasZombie, HasChild;
    assert Family(s, e.j);
    forall i | 0 <= i < |s'.t|
      ensures s'.t[i].pid != e.r.pid
    {
      assert i != e.j ==> s'.t[i].pid == s.t[i].pid;
    }
  }

  /** Once wait has returned a pid, no slot, used or not, has it at any later point of the run. */
  lemma ReapedPidGone(es: seq<Event>, ss: seq<Sys>, k: nat, l: nat, i: nat)
    requires Run(es, ss) && k < l < |ss| && es[k].Wait? && es[k].r.Reaped? && i < |ss[l].t|
    ensures ss[l].t[i].pid != es[k].r.pid
  {
    hide Inv, Next, Pids;
    RunInv(es, ss, k);
    RunPids(es, ss, k);
    assert NextAt(es, ss, k);
    ReapRemoves(ss[k], es[k], ss[k + 1]);
    AbsentFrom(es, ss, k + 1, l, es[k].r.pid);
  }

  /** Whoever has the pid is marked as killed. */
  ghost predicate Marked(s: Sys, pid: nat) {
    pid < s.nextpid && forall i :: 0 <= i < |s.t| && s.t[i].pid == pid ==> s.t[i].killed
  }

  lemma MarkedStays(s: Sys, e: Event, s': Sys, pid: nat)
    requires Next(s, e, s') && Marked(s, pid) && pid != 0
    ensures Marked(s', pid)
  {
    hide HasZombie, HasChild;
    forall i | 0 <= i < |s'.t| && s'.t[i].pid == pid
      ensures s'.t[i].killed
    {
      assert |s'.t| == |s.t|;
      assert s.t[i].pid == pid;
    }
  }

  lemma {:induction false} MarkedFrom(es: seq<Event>, ss: seq<Sys>, k: nat, l: nat, pid: nat)
    requires Run(es, ss) && k <= l < |ss| && Marked(ss[k], pid) && pid != 0
    ensures Marked(ss[l], pid)
  {
    hide Next, Marked;
    if k < l {
      MarkedFrom(es, ss, k, l - 1, pid);
      assert NextAt(es, ss, l - 1);
      MarkedStays(ss[l - 1], es[l - 1], ss[l], pid);
    }
  }

  /** kill of a pid that a slot has finds that slot; the process does not sleep after it, and is marked from then on for
      as long as any slot has the pid. */
  lemma KillSticks(es: seq<Event>, ss: seq<Sys>, k: nat, l: nat, i: nat, j: nat)
    requires Run(es, ss) && k < l < |ss| && es[k].Kill? && i < |ss[k].t| && es[k].pid == ss[k].t[i].pid != 0
    requires j < |ss[l].t|
    ensures es[k].found == Some(i) && |ss[k + 1].t| == |ss[k].t| && !ss[k + 1].t[i].state.SLEEPING?
    ensures ss[l].t[j].pid == es[k].pid ==> ss[l].t[j].killed
  {
    hide Inv;
    RunPids(es, ss, k);
    assert NextAt(es, ss, k);
    assert Marked(ss[k + 1], es[k].pid);
    MarkedFrom(es, ss, k + 1, l, es[k].pid);
  }

  // ----- fork -----

  /** When fork makes its child runnable, the child's parent is the caller, and no other slot, used or not, has
      its pid. */
  lemma ForkedChild(es: seq<Event>, ss: seq<Sys>, k: nat) returns (c: nat)
    requires Run(es, ss) && k < |es| && es[k].ForkRun?
    ensures c < |ss[k].t| == |ss[k + 1].t| && ss[k].t[c].state.EMBRYO?
    ensures ss[k + 1].t[c].state.RUNNABLE? && ss[k + 1].t[c].parent == Some(es[k].p) && ss[k + 1].t[c].pid != 0
    ensures SolePid(ss[k + 1].t, c)
  {
    assert NextAt(es, ss, k);
    c := ss[k].at[es[k].p].np;
    RunInv(es, ss, k);
    RunPids(es, ss, k);
    assert Shape(ss[k], es[k].p) && Family(ss[k], c);
  }

  ghost predicate SolePid(t: seq<Proc>, c: nat) {
    c < |t| && forall i :: 0 <= i < |t| && i != c ==> t[i].pid != t[c].pid
  }

  // ----- the stores of fork that take no lock -----

  /** fork's store to the parent field may fall anywhere in exit's critical section: before it and after it
      give the same table. */
  lemma LinkCommutesWithExit(s: Sys, p: nat, q: nat)
    requires Inv(s) && Runs(s, p, Normal) && p != s.init && InFork(s, q, false)
    ensures var np := s.at[q].np;
            && Exited(s.t, p, s.init)[np] == s.t[np]
            && Exited(s.t[np := s.t[np].(parent := Some(q))], p, s.init) ==
               Exited(s.t, p, s.init)[np := s.t[np].(parent := Some(q))]
  {
    var np := s.at[q].np;
    var t1 := s.t[np := s.t[np].(parent := Some(q))];
    assert Shape(s, q) && Shape(s, p) && p != q && np != p;
    assert HasZombie(t1, p, |t1|) <==> HasZombie(s.t, p, |s.t|) by {
      assert forall i :: 0 <= i < |t1| ==> (ZombieChild(t1, p, i) <==> ZombieChild(s.t, p, i));
    }
  }

  // ----- a process may be born killed -----

  ghost predicate SlotsClean(t: seq<Proc>) {
    forall i :: 0 <= i < |t| ==> t[i].state.UNUSED? ==> !t[i].killed
  }

  /** The two steps that leave a mark on an unused slot: kill finds one, or fork gives up an embryo that was killed. */
  ghost predicate LeavesMark(s: Sys, e: Event) {
    || (e.Kill? && e.found.Some? && e.found.value < |s.t| && s.t[e.found.value].state.UNUSED?)
    || (e.ForkFail? && InFork(s, e.p, false) && s.t[s.at[e.p].np].killed)
  }

  /** allocproc does not clear killed, so a new process starts unmarked only while unused slots are unmarked; every step
      keeps them so exactly when it is not one of those two. */
  lemma CleanExactly(s: Sys, e: Event, s': Sys)
    requires Inv(s) && Next(s, e, s') && SlotsClean(s.t)
    ensures SlotsClean(s'.t) <==> !LeavesMark(s, e)
  {
    hide NothingMissed, Family, Distinct, HasZombie;
    if e.Kill? && LeavesMark(s, e) {
      assert s'.t[e.found.value].killed && s'.t[e.found.value].state.UNUSED?;
    } else if LeavesMark(s, e) {
      var np := s.at[e.p].np;
      assert s'.t[np].killed && s'.t[np].state.UNUSED?;
    } else {
      forall i | 0 <= i < |s'.t| && s'.t[i].state.UNUSED?
        ensures !s'.t[i].killed
      {
        assert Shape(s, i);
        assert s.t[i].state.UNUSED? ==> !s.t[i].killed;
      }
    }
  }

  lemma {:induction false} RunClean(es: seq<Event>, ss: seq<Sys>, k: nat)
    requires Run(es, ss) && k < |ss| && forall l :: 0 <= l < |es| ==> !LeavesMark(ss[l], es[l])
    ensures SlotsClean(ss[k].t)
  {
    hide Inv, Next, LeavesMark;
    if k > 0 {
      RunClean(es, ss, k - 1);
      RunInv(es, ss, k - 1);
      assert NextAt(es, ss, k - 1);
      CleanExactly(ss[k - 1], es[k - 1], ss[k]);
    }
  }

  /** In a run without those steps no process is allocated with the mark of an earlier one. */
  lemma BornUnmarked(es: seq<Event>, ss: seq<Sys>, k: nat)
    requires Run(es, ss) && k < |es| && es[k].ForkAlloc? && es[k].np.Some?
    requires forall l :: 0 <= l < |es| ==> !LeavesMark(ss[l], es[l])
    ensures es[k].np.value < |ss[k + 1].t| && !ss[k + 1].t[es[k].np.value].killed
  {
    hide LeavesMark;
    RunClean(es, ss, k);
    assert NextAt(es, ss, k);
  }

  /** A process forked into a marked slot. */
  lemma ForksMarked(s: Sys) returns (s1: Sys, s2: Sys, s3: Sys)
    requires |s.t| == |s.at| == 2 && s.t[0].state.RUNNING? && s.at[0] == Normal && s.t[1].state.UNUSED? && s.t[1].killed
    ensures Next(s, ForkAlloc(0, Some(1)), s1) && Next(s1, ForkLink(0), s2) && Next(s2, ForkRun(0), s3)
    ensures |s3.t| == 2 && s3.t[1].state.RUNNABLE? && s3.t[1].killed
  {
    s1 := Sys(s.t[1 := s.t[1].(state := EMBRYO, pid := s.nextpid)], s.at[0 := Forking(1, false)], s.nextpid + 1,
              s.init);
    s2 := s1.(t := s1.t[1 := s1.t[1].(parent := Some(0))], at := s1.at[0 := Forking(1, true)]);
    s3 := s2.(t := s2.t[1 := s2.t[1].(state := RUNNABLE)], at := s2.at[0 := Normal][1 := Normal]);
  }

  /** kill(0) finds an unused slot, and the next process forked there is born killed. */
  lemma BornKilled(s: Sys) returns (es: seq<Event>, ss: seq<Sys>)
    requires Start(s) && |s.t| == 2
    ensures Run(es, ss) && ss[0] == s && var l := ss[|es|]; |l.t| == 2 && l.t[1].state.RUNNABLE? && l.t[1].killed
  {
    var s1 := s.(t := s.t[1 := Proc(UNUSED, 0, None, Null, true)]);
    var s2 := s1.(t := s1.t[0 := s1.t[0].(state := RUNNING)]);
    assert Next(s, Kill(0, Some(1)), s1) && Next(s1, Schedule(0), s2);
    var s3, s4, s5 := ForksMarked(s2);
    hide Next;
    es := [Kill(0, Some(1)), Schedule(0), ForkAlloc(0, Some(1)), ForkLink(0), ForkRun(0)];
    ss := [s, s1, s2, s3, s4, s5];
    assert NextAt(es, ss, 0) && NextAt(es, ss, 1) && NextAt(es, ss, 2) && NextAt(es, ss, 3) && NextAt(es, ss, 4);
  }

  /** An embryo is killed and its fork fails: the next process forked there is born killed, although kill found a slot
      in use. */
  lemma BornKilledAgain(s: Sys) returns (es: seq<Event>, ss: seq<Sys>)
    requires Start(s) && |s.t| == 2
    ensures Run(es, ss) && ss[0] == s && var l := ss[|es|]; |l.t| == 2 && l.t[1].state.RUNNABLE? && l.t[1].killed
    ensures forall k :: 0 <= k < |es| && es[k].Kill? ==>
              |ss[k].t| == 2 && es[k].found == Some(1) && !ss[k].t[1].state.UNUSED?
  {
    hide Next;
    var s1, s2, s3, s4 := EmbryoKilled(s);
    var s5, s6, s7 := ForksMarked(s4);
    es := [Schedule(0), ForkAlloc(0, Some(1)), Kill(2, Some(1)), ForkFail(0), ForkAlloc(0, Some(1)), ForkLink(0),
           ForkRun(0)];
    ss := [s, s1, s2, s3, s4, s5, s6, s7];
    assert NextAt(es, ss, 0) && NextAt(es, ss, 1) && NextAt(es, ss, 2) && NextAt(es, ss, 3);
    assert NextAt(es, ss, 4) && NextAt(es, ss, 5) && NextAt(es, ss, 6);
  }

  lemma EmbryoKilled(s: Sys) returns (s1: Sys, s2: Sys, s3: Sys, s4: Sys)
    requires Start(s) && |s.t| == 2
    ensures Next(s, Schedule(0), s1) && Next(s1, ForkAlloc(0, Some(1)), s2)
    ensures Next(s2, Kill(2, Some(1)), s3) && Next(s3, ForkFail(0), s4) && |s2.t| == 2 && s2.t[1].state.EMBRYO?
    ensures |s4.t| == |s4.at| == 2 && s4.t[0].state.RUNNING? && s4.at[0] == Normal && s4.t[1].state.UNUSED?
            && s4.t[1].killed
  {
    s1 := s.(t := s.t[0 := s.t[0].(state := RUNNING)]);
    s2 := Sys(s1.t[1 := Proc(EMBRYO, 2, None, Null, false)], s1.at[0 := Forking(1, false)], 3, 0);
    s3 := s2.(t := s2.t[1 := Proc(EMBRYO, 2, None, Null, true)]);
    s4 := s3.(t := s3.t[1 := Proc(UNUSED, 2, None, Null, true)], at := s3.at[0 := Normal]);
  }
}
