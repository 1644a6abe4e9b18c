/** proc.c: the process table and the table scans that run with ptable.lock held. */
module ProcTable {
  import opened Common

  datatype ProcState = UNUSED | EMBRYO | SLEEPING | RUNNABLE | RUNNING | ZOMBIE

  /** A sleep channel: null, the address of a table slot, or any other kernel address. */
  datatype Chan = Null | Slot(i: nat) | Other(addr: nat)

  datatype Proc = Proc(state: ProcState, pid: nat, parent: Option<nat>, chan: Chan, killed: bool)

  datatype WaitResult = Reaped(pid: nat) | Failed | MustSleep

  function ChanOf(p: Option<nat>): (c: Chan) {
    if p.None? then Null else Slot(p.value)
  }

  // ----- what the scans do to a table, slot by slot -----

  function WakeIf(p: Proc, wake: bool): (r: Proc) {
    if wake && p.state.SLEEPING? then p.(state := RUNNABLE) else p
  }

  ghost function Woken(t: seq<Proc>, c: Chan): (r: seq<Proc>)
    ensures |r| == |t|
  {
    seq(|t|, i requires 0 <= i < |t| => WakeIf(t[i], t[i].chan == c))
  }

  predicate IsChild(p: Proc, cur: nat) {
    p.parent == Some(cur)
  }

  ghost predicate ZombieChild(t: seq<Proc>, cur: nat, i: nat) {
    i < |t| && IsChild(t[i], cur) && t[i].state.ZOMBIE?
  }

  ghost predicate HasZombie(t: seq<Proc>, cur: nat, below: nat) {
    exists i :: 0 <= i < below && ZombieChild(t, cur, i)
  }

  ghost predicate HasChild(t: seq<Proc>, cur: nat) {
    exists i :: 0 <= i < |t| && IsChild(t[i], cur)
  }

  function Adopt(p: Proc, cur: nat, init: nat): (r: Proc) {
    if IsChild(p, cur) then p.(parent := Some(init)) else p
  }

  /** The table after cur has exited: its children belong to init, its parent is awake, and so is init
      if it inherited a zombie. */
  ghost function Exited(t: seq<Proc>, cur: nat, init: nat): (r: seq<Proc>)
    requires cur < |t|
    ensures |r| == |t|
  {
    seq(|t|, i requires 0 <= i < |t| =>
      if i == cur then Adopt(t[i], cur, init).(state := ZOMBIE)
      else WakeIf(Adopt(t[i], cur, init),
                  t[i].chan == ChanOf(t[cur].parent) || (t[i].chan == Slot(init) && HasZombie(t, cur, |t|))))
  }

  /** The loop of exit over the first k slots. */
  ghost function Passed(t: seq<Proc>, cur: nat, init: nat, k: nat, i: nat): (r: Proc)
    requires i < |t|
  {
    WakeIf(if i < k then Adopt(t[i], cur, init) else t[i], t[i].chan == Slot(init) && HasZombie(t, cur, k))
  }

  function Emptied(p: Proc): (r: Proc) {
    p.(state := UNUSED, pid := 0, parent := None, killed := false)
  }

  ghost predicate FirstZombie(t: seq<Proc>, cur: nat, j: nat) {
    ZombieChild(t, cur, j) && !HasZombie(t, cur, j)
  }

  /** One pass of wait by cur: the first zombie child is reaped; without one, cur sleeps on its own slot
      if it has children and has not been killed. */
  ghost predicate WaitRel(t: seq<Proc>, cur: nat, r: WaitResult, j: nat, t': seq<Proc>) {
    && cur < |t|
    && (r.Reaped? <==> HasZombie(t, cur, |t|))
    && (r.Reaped? ==> FirstZombie(t, cur, j) && r.pid == t[j].pid && t' == t[j := Emptied(t[j])])
    && (r.Failed? ==> (!HasChild(t, cur) || t[cur].killed) && t' == t)
    && (r.MustSleep? ==>
         HasChild(t, cur) && !t[cur].killed && t' == t[cur := t[cur].(chan := Slot(cur), state := SLEEPING)])
  }

  /** allocproc under the lock: the first unused slot, if any, becomes an embryo with a fresh pid. */
  ghost predicate AllocRel(t: seq<Proc>, pid: nat, np: Option<nat>, t': seq<Proc>) {
    if np.None? then t' == t && forall i :: 0 <= i < |t| ==> !t[i].state.UNUSED?
    else
      && np.value < |t| && t[np.value].state.UNUSED? && (forall i :: 0 <= i < np.value ==> !t[i].state.UNUSED?)
      && t' == t[np.value := t[np.value].(state := EMBRYO, pid := pid)]
  }

  /** kill marks the first slot with that pid, whatever its state, and wakes it if it sleeps. */
  ghost predicate KillRel(t: seq<Proc>, pid: nat, found: Option<nat>, t': seq<Proc>) {
    if found.None? then t' == t && forall i :: 0 <= i < |t| ==> t[i].pid != pid
    else
      && found.value < |t| && t[found.value].pid == pid && (forall i :: 0 <= i < found.value ==> t[i].pid != pid)
      && t' == t[found.value := WakeIf(t[found.value].(killed := true), true)]
  }

  /** exit, slot by slot: who is handed to init, who wakes, and that nothing else changes. */
  lemma ExitedSlot(t: seq<Proc>, cur: nat, init: nat, i: nat)
    requires cur < |t| && i < |t|
    ensures var r, wakes := Exited(t, cur, init)[i],
                            (t[i].chan == ChanOf(t[cur].parent) || (t[i].chan == Slot(init) &&
                             exists k :: 0 <= k < |t| && t[k].parent == Some(cur) && t[k].state == ZOMBIE));
            && r.pid == t[i].pid && r.chan == t[i].chan && r.killed == t[i].killed
            && r.parent == (if t[i].parent == Some(cur) then Some(init) else t[i].parent)
            && r.state == if i == cur then ZOMBIE
                          else if t[i].state == SLEEPING && wakes then RUNNABLE else t[i].state
  {
    assert HasZombie(t, cur, |t|) <==> exists k :: 0 <= k < |t| && t[k].parent == Some(cur) && t[k].state == ZOMBIE by {
      if k :| 0 <= k < |t| && t[k].parent == Some(cur) && t[k].state == ZOMBIE {
        assert ZombieChild(t, cur, k);
      }
    }
  }

  class Ptable {
    const proc: array<Proc>
    const initproc: nat
    var nextpid: nat

    constructor (table: array<Proc>, init: nat)
      ensures proc == table && initproc == init && nextpid == 1
    {
      proc, initproc, nextpid := table, init, 1;
    }

    method Wakeup1(c: Chan)
      modifies proc
      ensures proc[..] == Woken(old(proc[..]), c)
      ensures forall i :: 0 <= i < proc.Length ==> !(proc[i].state.SLEEPING? && proc[i].chan == c)
      ensures forall i :: 0 <= i < proc.Length ==>
                if old(proc[i]).state.SLEEPING? && old(proc[i]).chan == c
                then proc[i] == old(proc[i]).(state := RUNNABLE) else proc[i] == old(proc[i])
    {
      for k := 0 to proc.Length
        invariant forall i :: 0 <= i < proc.Length ==>
                    proc[i] == if i < k then WakeIf(old(proc[i]), old(proc[i]).chan == c) else old(proc[i])
      {
        if proc[k].state.SLEEPING? && proc[k].chan == c {
          proc[k] := proc[k].(state := RUNNABLE);
        }
      }
    }

    /** exit from the point where ptable.lock is held up to sched; nothing happens when init exits (a panic). */
    method Exit(cur: nat) returns (ok: bool)
      requires cur < proc.Length
      modifies proc
      ensures ok <==> cur != initproc
      ensures proc[..] == if ok then Exited(old(proc[..]), cur, initproc) else old(proc[..])
    {
      if cur == initproc {
        return false;
      }
      ghost var t := proc[..];
      Wakeup1(ChanOf(proc[cur].parent));
      ghost var t1 := proc[..];
      for k := 0 to proc.Length
        invariant forall i :: 0 <= i < proc.Length ==> proc[i] == Passed(t1, cur, initproc, k, i)
      {
        HasZombieNext(t1, cur, k);
        if IsChild(proc[k], cur) {
          proc[k] := proc[k].(parent := Some(initproc));
          if proc[k].state.ZOMBIE? {
            Wakeup1(Slot(initproc));
          }
        }
      }
      proc[cur] := proc[cur].(state := ZOMBIE);
      WokenKeepsZombies(t, ChanOf(t[cur].parent), cur);
      return true;
    }

    /** One pass of wait over the table. */
    method WaitPass(cur: nat) returns (r: WaitResult, ghost j: nat)
      requires cur < proc.Length
      modifies proc
      ensures WaitRel(old(proc[..]), cur, r, j, proc[..])
      ensures r.Reaped? ==>
                j < proc.Length && old(proc[j]).parent == Some(cur) && old(proc[j]).state == ZOMBIE
                && old(proc[j]).pid == r.pid
                && proc[j].state == UNUSED && proc[j].pid == 0 && proc[j].parent == None && !proc[j].killed
    {
      var havekids := false;
      for k := 0 to proc.Length
        invariant proc[..] == old(proc[..])
        invariant !HasZombie(proc[..], cur, k)
        invariant havekids <==> exists i :: 0 <= i < k && IsChild(proc[..][i], cur)
      {
        if IsChild(proc[k], cur) {
          havekids := true;
          if proc[k].state.ZOMBIE? {
            j := k;
            assert ZombieChild(proc[..], cur, k);
            var pid := proc[k].pid;
            proc[k] := Emptied(proc[k]);
            return Reaped(pid), k;
          }
        }
      }
      if !havekids || proc[cur].killed {
        return Failed, 0;
      }
      proc[cur] := proc[cur].(chan := Slot(cur), state := SLEEPING);
      return MustSleep, 0;
    }

    method Allocproc() returns (np: Option<nat>)
      modifies proc, this
      ensures AllocRel(old(proc[..]), old(nextpid), np, proc[..])
      ensures nextpid == old(nextpid) + if np.Some? then 1 else 0
    {
      for k := 0 to proc.Length
        invariant proc[..] == old(proc[..]) && nextpid == old(nextpid)
        invariant forall i :: 0 <= i < k ==> !proc[..][i].state.UNUSED?
      {
        if proc[k].state.UNUSED? {
          proc[k] := proc[k].(state := EMBRYO, pid := nextpid);
          nextpid := nextpid + 1;
          return Some(k);
        }
      }
      return None;
    }

    method Kill(pid: nat) returns (found: Option<nat>)
      modifies proc
      ensures KillRel(old(proc[..]), pid, found, proc[..])
      ensures found.Some? ==>
                found.value < proc.Length && proc[found.value].pid == pid && proc[found.value].killed
                && proc[found.value].state ==
                   if old(proc[found.value]).state == SLEEPING then RUNNABLE else old(proc[found.value]).state
    {
      for k := 0 to proc.Length
        invariant proc[..] == old(proc[..])
        invariant forall i :: 0 <= i < k ==> proc[..][i].pid != pid
      {
        if proc[k].pid == pid {
          proc[k] := proc[k].(killed := true);
          if proc[k].state.SLEEPING? {
            proc[k] := proc[k].(state := RUNNABLE);
          }
          return Some(k);
        }
      }
      return None;
    }
  }

  lemma HasZombieNext(t: seq<Proc>, cur: nat, k: nat)
    requires k < |t|
    ensures HasZombie(t, cur, k + 1) <==> HasZombie(t, cur, k) || ZombieChild(t, cur, k)
  {
  }

  /** Waking changes nobody's parent and nobody's death. */
  lemma WokenKeepsZombies(t: seq<Proc>, c: Chan, cur: nat)
    ensures HasZombie(Woken(t, c), cur, |t|) <==> HasZombie(t, cur, |t|)
  {
    assert forall i :: 0 <= i < |t| ==> (ZombieChild(Woken(t, c), cur, i) <==> ZombieChild(t, cur, i));
  }
}
