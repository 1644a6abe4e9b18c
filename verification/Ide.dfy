/** ide.c: the request queue, and the synchronous memide.c that it refines. */
module IdeQueue {
  import opened Common
  import opened Blocks

  datatype Buf = Buf(sector: nat, busy: bool, valid: bool, dirty: bool, data: Block)

  type Disk = seq<Block>

  /** What idestart gives to the disk. */
  datatype Request = Fetch(sector: nat) | Store(sector: nat, data: Block)

  function RequestOf(b: Buf): (r: Request) {
    if b.dirty then Store(b.sector, b.data) else Fetch(b.sector)
  }

  /** waiting: buffers whose call of iderw has not returned; sent and done: all requests made and completed, in
      order. */
  datatype Sys = Sys(disk: Disk, bufs: seq<Buf>, queue: seq<nat>, active: Option<Request>, waiting: set<nat>,
                     sent: seq<nat>, done: seq<nat>)

  /** memide.c's iderw, all at once. */
  function MemRw(disk: Disk, bufs: seq<Buf>, b: nat): (r: (Disk, seq<Buf>))
    requires b < |bufs| && bufs[b].sector < |disk|
  {
    var x := bufs[b];
    if x.dirty then (disk[x.sector := x.data], bufs[b := x.(valid := true, dirty := false)])
    else (disk, bufs[b := x.(valid := true, data := disk[x.sector])])
  }

  /** iderw's panics do not strike: the buffer is busy and there is something to do. */
  predicate CanSubmit(bufs: seq<Buf>, b: nat) {
    b < |bufs| && bufs[b].busy && !(bufs[b].valid && !bufs[b].dirty)
  }

  function StartNext(bufs: seq<Buf>, queue: seq<nat>): (r: Option<Request>) {
    if queue != [] && queue[0] < |bufs| then Some(RequestOf(bufs[queue[0]])) else None
  }

  function Performed(disk: Disk, r: Request): (d: Disk) {
    if r.Store? && r.sector < |disk| then disk[r.sector := r.data] else disk
  }

  /** ideintr for a queue that is not empty: the disk has performed the active request. */
  function Interrupted(s: Sys): (r: Sys)
    requires s.queue != [] && s.queue[0] < |s.bufs| && s.bufs[s.queue[0]].sector < |s.disk| && s.active.Some?
  {
    var b := s.queue[0];
    var disk := Performed(s.disk, s.active.value);
    var x := s.bufs[b];
    var x' := Buf(x.sector, x.busy, true, false, if x.dirty || |disk| <= x.sector then x.data else disk[x.sector]);
    var bufs := s.bufs[b := x'];
    Sys(disk, bufs, s.queue[1..], StartNext(bufs, s.queue[1..]), s.waiting, s.sent, s.done + [b])
  }

  datatype Event =
    | Submit(b: nat)
    | Interrupt
    | Return(b: nat)
    | Change(b: nat, x: Buf)

  /** A buffer belongs to the process that made it busy, so while a call on it is under way nobody else changes it, and
      the buffer cache never has two buffers for one sector. */
  ghost predicate Next(s: Sys, e: Event, s': Sys) {
    match e
    case Submit(b) =>
      && CanSubmit(s.bufs, b) && s.bufs[b].sector < |s.disk| && b !in s.waiting
      && (forall c :: c in s.waiting && c < |s.bufs| ==> s.bufs[c].sector != s.bufs[b].sector)
      && s' == s.(queue := s.queue + [b], waiting := s.waiting + {b}, sent := s.sent + [b],
                  active := if s.queue == [] then Some(RequestOf(s.bufs[b])) else s.active)
    case Interrupt =>
      if s.queue == [] then s' == s
      else s.queue[0] < |s.bufs| && s.bufs[s.queue[0]].sector < |s.disk| && s.active.Some? && s' == Interrupted(s)
    case Return(b) =>
      b in s.waiting && b < |s.bufs| && s.bufs[b].valid && !s.bufs[b].dirty && s' == s.(waiting := s.waiting - {b})
    case Change(b, x) =>
      b < |s.bufs| && b !in s.waiting && s' == s.(bufs := s.bufs[b := x])
  }

  ghost predicate Start(s: Sys) {
    s.queue == s.sent == s.done == [] && s.active == None && s.waiting == {}
  }

  /** Waiting buffers are either queued with work to do, or in step with the disk. */
  ghost predicate Waits(s: Sys, b: nat)
    requires b < |s.bufs|
  {
    && s.bufs[b].sector < |s.disk| && s.bufs[b].busy
    && (b in s.queue <==> !(s.bufs[b].valid && !s.bufs[b].dirty))
    && (b !in s.queue ==> s.bufs[b].data == s.disk[s.bufs[b].sector])
  }

  ghost predicate Inv(s: Sys) {
    && Distinct(s.queue) && (forall i :: 0 <= i < |s.queue| ==> s.queue[i] in s.waiting)
    && (forall b :: b in s.waiting ==> b < |s.bufs|)
    && (forall b :: b in s.waiting ==> Waits(s, b))
    && (forall b, c :: b in s.waiting && c in s.waiting && b != c ==> s.bufs[b].sector != s.bufs[c].sector)
    && s.active == StartNext(s.bufs, s.queue)
    && s.sent == s.done + s.queue
  }

  /** An interrupt completes the head of the queue exactly as memide.c would do it in one step. */
  lemma InterruptIsMemide(s: Sys, s': Sys)
    requires Inv(s) && s.queue != [] && Next(s, Interrupt, s')
    ensures s.queue[0] < |s.bufs| && s.bufs[s.queue[0]].sector < |s.disk|
    ensures (s'.disk, s'.bufs) == MemRw(s.disk, s.bufs, s.queue[0])
  {
  }

  /** If the machine stops, the disk is as memide.c leaves it before or after the request at the head of the queue. */
  lemma StopIsMemide(s: Sys)
    requires Inv(s) && s.active.Some?
    ensures s.queue != [] && s.queue[0] < |s.bufs| && s.bufs[s.queue[0]].sector < |s.disk|
    ensures Performed(s.disk, s.active.value) == MemRw(s.disk, s.bufs, s.queue[0]).0
  {
  }

  lemma InterruptKeeps(s: Sys, s': Sys)
    requires Inv(s) && s.queue != [] && Next(s, Interrupt, s')
    ensures Inv(s')
  {
    hide Waits, Distinct, Next, StartNext;
    InterruptFields(s, s');
    TailDistinct(s.queue);
    TailWaits(s.queue, s.waiting);
    forall c | c in s.waiting
      ensures Waits(s', c)
    {
      WaitsAfter(s, s', c);
    }
    HeadDone(s.done, s.queue);
  }

  lemma InterruptFields(s: Sys, s': Sys)
    requires s.queue != [] && Next(s, Interrupt, s')
    ensures s'.waiting == s.waiting && s'.queue == s.queue[1..] && s'.sent == s.sent && s'.done == s.done + [s.queue[0]]
    ensures s'.active == StartNext(s'.bufs, s'.queue) && |s'.bufs| == |s.bufs|
    ensures forall b :: 0 <= b < |s.bufs| ==> s'.bufs[b].sector == s.bufs[b].sector
  {
  }

  lemma HeadDone(done: seq<nat>, q: seq<nat>)
    requires q != []
    ensures done + q == done + [q[0]] + q[1..]
  {
  }

  lemma TailWaits(q: seq<nat>, waiting: set<nat>)
    requires q != [] && forall i :: 0 <= i < |q| ==> q[i] in waiting
    ensures forall i :: 0 <= i < |q[1..]| ==> q[1..][i] in waiting
  {
  }

  lemma TailDistinct(q: seq<nat>)
    requires Distinct(q) && q != []
    ensures Distinct(q[1..]) && q[0] !in q[1..] && q == [q[0]] + q[1..]
  {
  }

  lemma WaitsAfter(s: Sys, s': Sys, c: nat)
    requires Inv(s) && s.queue != [] && Next(s, Interrupt, s') && c in s.waiting
    ensures Waits(s', c)
  {
  }

  lemma NextKeeps(s: Sys, e: Event, s': Sys)
    requires Inv(s) && Next(s, e, s')
    ensures Inv(s')
  {
    if e.Interrupt? && s.queue != [] {
      InterruptKeeps(s, s');
    } else if e.Submit? {
      forall c | c in s'.waiting
        ensures Waits(s', c)
      {
        assert c != e.b ==> Waits(s, c);
      }
      assert s.done + (s.queue + [e.b]) == s.done + s.queue + [e.b];
    } else {
      forall c | c in s'.waiting
        ensures Waits(s', c)
      {
        assert Waits(s, c);
      }
    }
  }

  ghost predicate Run(es: seq<Event>, ss: seq<Sys>) {
    |ss| == |es| + 1 && Start(ss[0]) && forall k :: 0 <= k < |es| ==> NextAt(es, ss, k)
  }

  ghost predicate NextAt(es: seq<Event>, ss: seq<Sys>, k: nat) {
    k < |es| && k + 1 < |ss| && Next(ss[k], es[k], ss[k + 1])
  }

  lemma {:induction false} RunInv(es: seq<Event>, ss: seq<Sys>, k: nat)
    requires Run(es, ss) && k < |ss|
    ensures Inv(ss[k])
  {
    hide Next;
    if k > 0 {
      hide Inv;
      RunInv(es, ss, k - 1);
      assert NextAt(es, ss, k - 1);
      NextKeeps(ss[k - 1], es[k - 1], ss[k]);
    }
  }

  /** An atomic iderw of memide.c, or nothing. */
  ghost predicate MemStep(disk: Disk, bufs: seq<Buf>, disk': Disk, bufs': seq<Buf>) {
    || (disk' == disk && bufs' == bufs)
    || exists b ::
         0 <= b < |bufs| && CanSubmit(bufs, b) && bufs[b].sector < |disk| && (disk', bufs') == MemRw(disk, bufs, b)
  }

  /** Apart from the changes that owners make to their buffers, every step of the queued driver does to disk and
      buffers what an atomic iderw of memide.c does, or nothing; requests complete in the order in which they were
      made; and when iderw returns, the buffer and its sector hold the same bytes. */
  lemma QueueRefinesMemide(es: seq<Event>, ss: seq<Sys>, k: nat)
    requires Run(es, ss) && k < |es|
    ensures es[k].Change? || MemStep(ss[k].disk, ss[k].bufs, ss[k + 1].disk, ss[k + 1].bufs)
    ensures ss[k].done <= ss[k].sent
    ensures es[k].Return? ==>
              && es[k].b < |ss[k].bufs|
              && var x := ss[k].bufs[es[k].b]; x.sector < |ss[k].disk| && x.data == ss[k].disk[x.sector]
  {
    var s, e, s' := ss[k], es[k], ss[k + 1];
    RunInv(es, ss, k);
    assert NextAt(es, ss, k);
    if e.Interrupt? && s.queue != [] {
      InterruptIsMemide(s, s');
      assert s.queue[0] in s.waiting && Waits(s, s.queue[0]);
    }
    if e.Return? {
      assert Waits(s, e.b);
    }
  }

  // ----- one call of iderw from beginning to end -----

  /** What the sector of x holds after iderw, if it held d before. */
  function Target(x: Buf, d: Block): (r: Block) {
    if x.dirty then x.data else d
  }

  /** A call for buffer b is under way that found it as x and its sector holding d. */
  ghost predicate Calling(s: Sys, b: nat, x: Buf, d: Block) {
    && b in s.waiting && b < |s.bufs| && s.bufs[b].sector == x.sector < |s.disk|
    && if b in s.queue then s.bufs[b] == x && s.disk[x.sector] == d
       else s.disk[x.sector] == s.bufs[b].data == Target(x, d)
  }

  lemma CallingStep(s: Sys, e: Event, s': Sys, b: nat, x: Buf, d: Block)
    requires Inv(s) && Next(s, e, s') && Calling(s, b, x, d) && b in s'.waiting
    ensures Calling(s', b, x, d)
  {
    assert Waits(s, b);
    if e.Interrupt? && s.queue != [] {
      InterruptIsMemide(s, s');
      assert s.queue[0] in s.waiting && Waits(s, s.queue[0]);
      assert s.queue == [s.queue[0]] + s.queue[1..];
      assert s.queue[0] == b ==> b !in s.queue[1..];
    }
  }

  /** b is under way in all states behind k up to l. */
  ghost predicate UnderWay(ss: seq<Sys>, b: nat, k: nat, l: nat) {
    k < l < |ss| && forall m :: k < m <= l ==> b in ss[m].waiting
  }

  lemma {:induction false} CallingUpTo(es: seq<Event>, ss: seq<Sys>, b: nat, k: nat, l: nat)
    requires Run(es, ss) && UnderWay(ss, b, k, l) && es[k] == Submit(b)
    ensures b < |ss[k].bufs| && ss[k].bufs[b].sector < |ss[k].disk|
    ensures Calling(ss[l], b, ss[k].bufs[b], ss[k].disk[ss[k].bufs[b].sector])
    decreases l
  {
    assert NextAt(es, ss, l - 1) && NextAt(es, ss, k);
    if k < l - 1 {
      CallingUpTo(es, ss, b, k, l - 1);
      RunInv(es, ss, l - 1);
      CallingStep(ss[l - 1], es[l - 1], ss[l], b, ss[k].bufs[b], ss[k].disk[ss[k].bufs[b].sector]);
    }
  }

  /** When iderw returns, the sector holds what the buffer held at the call if that was dirty, and otherwise what it
      held itself; and the buffer holds the same. */
  lemma CallDoes(es: seq<Event>, ss: seq<Sys>, b: nat, k: nat, l: nat)
    requires Run(es, ss) && l < |es| && UnderWay(ss, b, k, l) && es[k] == Submit(b) && es[l] == Return(b)
    ensures b < |ss[k].bufs| && b < |ss[l].bufs| && ss[k].bufs[b].sector == ss[l].bufs[b].sector < |ss[k].disk|
    ensures var x, y := ss[k].bufs[b], ss[l].bufs[b];
            && x.sector < |ss[l].disk| && ss[l].disk[x.sector] == y.data
            && y.data == if x.dirty then x.data else ss[k].disk[x.sector]
  {
    CallingUpTo(es, ss, b, k, l);
    RunInv(es, ss, l);
    assert NextAt(es, ss, l);
    assert Waits(ss[l], b);
  }

  // ----- the code: a queue linked through the buffers -----

  ghost predicate Linked(head: Option<nat>, qnext: seq<Option<nat>>, queue: seq<nat>) {
    && head == (if queue == [] then None else Some(queue[0]))
    && forall i :: 0 <= i < |queue| ==> LinkAt(qnext, queue, i)
  }

  ghost predicate LinkAt(qnext: seq<Option<nat>>, queue: seq<nat>, i: nat)
    requires i < |queue|
  {
    queue[i] < |qnext| && qnext[queue[i]] == if i + 1 < |queue| then Some(queue[i + 1]) else None
  }

  lemma AppendLinked(head: Option<nat>, qnext: seq<Option<nat>>, queue: seq<nat>, b: nat)
    requires Linked(head, qnext, queue) && Distinct(queue) && b !in queue && b < |qnext|
    ensures var q1 := qnext[b := None];
            && (queue != [] ==> queue[|queue| - 1] < |qnext|)
            && Distinct(queue + [b])
            && if queue == [] then Linked(Some(b), q1, [b])
               else Linked(head, q1[queue[|queue| - 1] := Some(b)], queue + [b])
  {
    if queue != [] {
      var n, last := |queue|, queue[|queue| - 1];
      assert LinkAt(qnext, queue, n - 1);
      var q2, r := qnext[b := None][last := Some(b)], queue + [b];
      forall i | 0 <= i < |r|
        ensures LinkAt(q2, r, i)
      {
        if i < n - 1 {
          assert LinkAt(qnext, queue, i) && queue[i] != last && queue[i] != b;
        }
      }
    }
  }

  class Ide {
    var disk: Disk
    var bufs: seq<Buf>
    var idequeue: Option<nat>
    var qnext: seq<Option<nat>>
    var active: Option<Request>
    ghost var s: Sys

    constructor (d: Disk, bs: seq<Buf>)
      ensures Valid() && Start(s) && disk == d && bufs == bs
    {
      disk, bufs, idequeue, qnext, active := d, bs, None, seq(|bs|, _ => None), None;
      s := Sys(d, bs, [], None, {}, [], []);
    }

    ghost predicate Valid()
      reads this
    {
      && Inv(s) && s.disk == disk && s.bufs == bufs && s.active == active
      && |qnext| == |bufs| && Linked(idequeue, qnext, s.queue)
    }

    /** The loop of iderw that walks to the end of the queue. */
    method Append(b: nat)
      requires |qnext| == |bufs| && Linked(idequeue, qnext, s.queue) && Distinct(s.queue) && b !in s.queue && b < |bufs|
      modifies this`idequeue, this`qnext
      ensures |qnext| == |bufs| && Linked(idequeue, qnext, s.queue + [b])
    {
      ghost var queue := s.queue;
      AppendLinked(idequeue, qnext, queue, b);
      if idequeue.None? {
        qnext := qnext[b := None];
        idequeue := Some(b);
        assert queue + [b] == [b];
        return;
      }
      ghost var i := 0;
      var at := idequeue.value;
      assert LinkAt(qnext, queue, 0);
      while qnext[at].Some?
        invariant 0 <= i < |queue| && at == queue[i] && LinkAt(qnext, queue, i)
        decreases |queue| - i
      {
        at := qnext[at].value;
        i := i + 1;
        assert LinkAt(qnext, queue, i);
      }
      qnext := qnext[b := None];
      qnext := qnext[at := Some(b)];
    }

    /** iderw up to its first sleep. */
    method Iderw(b: nat)
      requires Valid() && CanSubmit(bufs, b) && bufs[b].sector < |disk| && b !in s.waiting
      requires forall c :: c in s.waiting && c < |bufs| ==> bufs[c].sector != bufs[b].sector
      modifies this
      ensures Valid() && Next(old(s), Submit(b), s)
    {
      Append(b);
      ghost var s0 := s;
      s := s.(queue := s.queue + [b], waiting := s.waiting + {b}, sent := s.sent + [b],
              active := if s.queue == [] then Some(RequestOf(s.bufs[b])) else s.active);
      NextKeeps(s0, Submit(b), s);
      if idequeue == Some(b) {
        active := Some(RequestOf(bufs[b]));
      }
    }

    /** ideintr. The disk has done what it was asked to do, or nothing was asked. */
    method Ideintr()
      requires Valid()
      modifies this
      ensures Valid() && Next(old(s), Interrupt, s)
    {
      ghost var s0 := s;
      if idequeue.None? {
        return;
      }
      var b := idequeue.value;
      assert s.queue[0] in s.waiting && Waits(s, b) && LinkAt(qnext, s.queue, 0);
      disk := Performed(disk, active.value);
      idequeue := qnext[b];
      var x := bufs[b];
      var data := if x.dirty then x.data else disk[x.sector];
      bufs := bufs[b := Buf(x.sector, x.busy, true, false, data)];
      PopLinked(old(idequeue), qnext, s.queue);
      active := None;
      if idequeue.Some? {
        active := Some(RequestOf(bufs[idequeue.value]));
      }
      s := Interrupted(s);
      InterruptKeeps(s0, s);
    }
  }

  lemma PopLinked(head: Option<nat>, qnext: seq<Option<nat>>, queue: seq<nat>)
    requires Linked(head, qnext, queue) && queue != []
    ensures queue[0] < |qnext| && Linked(qnext[queue[0]], qnext, queue[1..])
  {
    assert LinkAt(qnext, queue, 0);
    forall i | 0 <= i < |queue[1..]|
      ensures LinkAt(qnext, queue[1..], i)
    {
      assert LinkAt(qnext, queue, i + 1);
    }
  }
}
