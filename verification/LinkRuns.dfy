/** All runs of create, link and unlink. */
module LinkRuns {
  import opened Common
  import opened LinkState

  datatype Event =
    | Create(d: nat, name: string, ip: nat, dir: bool)
    | LinkBegin(p: nat, i: nat)
    | LinkEnter(p: nat, d: nat, name: string)
    | LinkUndo(p: nat)
    | Unlink(d: nat, k: nat)
    | Forget(i: nat)

  ghost predicate IsDir(t: Tree, d: nat) {
    d in t && t[d].dir
  }

  ghost predicate EmptyDir(n: Node) {
    forall k :: 2 <= k < |n.entries| ==> n.entries[k].inum == 0
  }

  /** No slot of d beyond the first two names anything. */
  ghost predicate Bare(t: Tree, d: nat) {
    forall k: nat, x: nat :: k >= 2 && x != 0 ==> !Names(t, d, k, x)
  }

  /** unlink found the name in slot k of d and does not refuse. */
  ghost predicate CanUnlink(t: Tree, d: nat, k: nat) {
    && IsDir(t, d) && k < |t[d].entries| && t[d].entries[k].inum in t && Plain(t[d].entries[k].name)
    && var ip := t[d].entries[k].inum;
       t[ip].dir ==> EmptyDir(t[ip])
  }

  /** Nothing here asks whether the directory d has been unlinked meanwhile: the code does not. */
  ghost predicate Next(s: Sys, e: Event, s': Sys) {
    match e
    case Create(d, name, ip, dir) =>
      && IsDir(s.t, d) && Absent(s.t[d].entries, name) && ip != 0 && ip !in s.t
      && s' == Sys(Created(s.t, d, name, ip, dir), s.pend,
                   if dir && d in s.depth then s.depth[ip := s.depth[d] + 1] else s.depth)
    case LinkBegin(p, i) =>
      p !in s.pend && i in s.t && !s.t[i].dir && s' == s.(t := Raised(s.t, i), pend := s.pend[p := i])
    case LinkEnter(p, d, name) =>
      && p in s.pend && IsDir(s.t, d) && Absent(s.t[d].entries, name)
      && s' == s.(t := Entered(s.t, d, name, s.pend[p]), pend := s.pend - {p})
    case LinkUndo(p) =>
      && p in s.pend && s.pend[p] in s.t && s.t[s.pend[p]].nlink > 0
      && s' == s.(t := Lowered(s.t, s.pend[p]), pend := s.pend - {p})
    case Unlink(d, k) =>
      && CanUnlink(s.t, d, k)
      && var ip := s.t[d].entries[k].inum;
         ip != d && s.t[d].nlink > 0 && s.t[ip].nlink > 0 && s' == s.(t := Unlinked(s.t, d, k))
    case Forget(i) =>
      i in s.t && s.t[i].nlink == 0 && s' == s.(t := s.t - {i})
  }

  // ----- who names whom after each operation -----

  lemma PlainName(t: Tree, d: nat, name: string)
    requires 0 !in t && IsDir(t, d) && Slots(t, d) && Absent(t[d].entries, name)
    ensures Plain(name)
  {
  }

  lemma CreateNames(t: Tree, d: nat, name: string, ip: nat, dir: bool, c: nat, l: nat, i: nat)
    requires Live(t, d) && Plain(name) && ip !in t && i != 0
    ensures Names(Created(t, d, name, ip, dir), c, l, i) <==>
            || Names(t, c, l, i)
            || (c == d && l == FreeSlot(t[d].entries) && i == ip)
            || (dir && c == ip && l == 1 && i == d)
  {
  }

  lemma EnterNames(t: Tree, d: nat, name: string, f: nat, c: nat, l: nat, i: nat)
    requires Live(t, d) && Plain(name) && i != 0
    ensures Names(Entered(t, d, name, f), c, l, i) <==>
              Names(t, c, l, i) || (c == d && l == FreeSlot(t[d].entries) && i == f)
  {
  }

  /** Whatever is named exists. */
  lemma NamedExists(s: Sys, c: nat, l: nat, i: nat)
    requires Inv(s) && i != 0 && Names(s.t, c, l, i)
    ensures i in s.t
  {
    hide Counted, Refs, Unique, Deep, OnlyEntry;
    assert Slots(s.t, c) && Parented(s.t, c);
  }

  lemma BareIsEmpty(s: Sys, d: nat)
    requires Inv(s) && Live(s.t, d)
    ensures Bare(s.t, d) <==> EmptyDir(s.t[d])
  {
    hide Counted, Refs, Unique, Parented, Deep;
    assert Slots(s.t, d);
    if k :| 2 <= k < |s.t[d].entries| && s.t[d].entries[k].inum != 0 {
      assert Names(s.t, d, k, s.t[d].entries[k].inum);
    }
  }

  // ----- create -----

  /** The name goes into a free slot, so nothing else is displaced. */
  lemma FreeIsFree(t: Tree, d: nat, i: nat)
    requires d in t && i != 0
    ensures !Names(t, d, FreeSlot(t[d].entries), i)
  {
  }

  lemma CreateCounts(s: Sys, e: Event, s': Sys, i: nat)
    requires Inv(s) && e.Create? && Next(s, e, s') && Live(s.t, e.d) && Plain(e.name) && i in s'.t
    ensures Counted(s', i)
  {
    hide Names, Slots, Parented, Unique, Deep, Created, Refs;
    var t, d, ip, slot := s.t, e.d, e.ip, FreeSlot(s.t[e.d].entries);
    CreateLinks(t, d, e.name, ip, e.dir, i);
    forall c: nat, l: nat
      ensures Names(s'.t, c, l, i) <==>
              Names(t, c, l, i) || (c == d && l == slot && i == ip) || (e.dir && c == ip && l == 1 && i == d)
      ensures Names(t, c, l, i) ==> i in t && c in t
    {
      CreateNames(t, d, e.name, ip, e.dir, c, l, i);
      NamesIn(t, c, l, i);
      if Names(t, c, l, i) {
        NamedExists(s, c, l, i);
      }
    }
    if i == ip {
      OneMoreRef(t, s'.t, i, d, slot);
      NoRefs(t, i);
      assert Pending(s.pend, i) == {};
    } else if e.dir && i == d {
      OneMoreRef(t, s'.t, i, ip, 1);
    } else {
      SameRefs(t, s'.t, i);
    }
  }

  lemma NamesIn(t: Tree, c: nat, l: nat, i: nat)
    ensures Names(t, c, l, i) ==> c in t
  {
  }

  lemma CreateLinks(t: Tree, d: nat, name: string, ip: nat, dir: bool, i: nat)
    requires d in t && ip !in t
    ensures var t' := Created(t, d, name, ip, dir);
            && (i in t' <==> i in t || i == ip)
            && (i in t' ==> t'[i].nlink == if i == ip then 1 else if dir && i == d then t[i].nlink + 1 else t[i].nlink)
  {
  }

  lemma NoRefs(t: Tree, i: nat)
    ensures Refs(t, i) == {} || exists c: nat, l: nat :: Names(t, c, l, i)
  {
  }

  lemma PutUnique(es: seq<Entry>, name: string, i: nat)
    requires Unique(es) && Absent(es, name)
    ensures Unique(Put(es, FreeSlot(es), Entry(i, name)))
  {
  }

  lemma PutSlots(t: Tree, t': Tree, d: nat, name: string, i: nat)
    requires Live(t, d) && Slots(t, d) && Plain(name) && d in t' && t'[d].dir && t'[d].nlink > 0
    requires t'[d].entries == Put(t[d].entries, FreeSlot(t[d].entries), Entry(i, name)) && i in t'
    requires 0 !in t && forall j :: j in t ==> j in t'
    ensures Slots(t', d) && t'[d].entries[1] == t[d].entries[1]
  {
  }

  /** An only entry stays the only one while who names the directory by a plain entry does not change. */
  lemma StillOnly(t: Tree, t': Tree, i: nat)
    requires i != 0 && i in t && i in t' && Parented(t, i) && Live(t, i) && |t[i].entries| >= 2
    requires t'[i].entries != [] && |t'[i].entries| >= 2 && t'[i].entries[1] == t[i].entries[1]
    requires forall c: nat, l: nat :: l >= 2 ==> (Names(t', c, l, i) <==> Names(t, c, l, i))
    requires i != ROOTINO && Live(t, t[i].entries[1].inum) ==> Live(t', t[i].entries[1].inum)
    ensures Parented(t', i)
  {
    hide Names, Live;
    if i != ROOTINO {
      var k :| OnlyEntry(t, i, t[i].entries[1].inum, k);
      assert OnlyEntry(t', i, t[i].entries[1].inum, k);
    }
  }

  lemma CreateShape(s: Sys, e: Event, s': Sys, i: nat)
    requires Inv(s) && e.Create? && Next(s, e, s') && Live(s.t, e.d) && Plain(e.name) && i in s'.t
    ensures Slots(s'.t, i) && Unique(s'.t[i].entries) && Deep(s', i)
  {
    hide Counted, Refs, OnlyEntry, Names;
    assert Slots(s.t, e.d) && Unique(s.t[e.d].entries) && Parented(s.t, e.d) && Deep(s, e.d);
    if i == e.d {
      PutUnique(s.t[i].entries, e.name, e.ip);
      PutSlots(s.t, s'.t, i, e.name, e.ip);
    } else if i != e.ip {
      assert Slots(s.t, i) && Unique(s.t[i].entries) && Deep(s, i) && Parented(s.t, i);
    }
  }

  lemma CreateParents(s: Sys, e: Event, s': Sys, i: nat)
    requires Inv(s) && e.Create? && Next(s, e, s') && Live(s.t, e.d) && Plain(e.name) && i in s'.t
    ensures Parented(s'.t, i)
  {
    hide Counted, Refs, Names, Unique, Deep, OnlyEntry;
    var t, d, ip, slot := s.t, e.d, e.ip, FreeSlot(s.t[e.d].entries);
    assert Slots(t, d) && t[d].entries[0].inum != 0 && t[d].entries[1].inum != 0;
    forall c: nat, l: nat
      ensures Names(s'.t, c, l, i) <==>
              Names(t, c, l, i) || (c == d && l == slot && i == ip) || (e.dir && c == ip && l == 1 && i == d)
      ensures Names(t, c, l, i) ==> i in t
    {
      CreateNames(t, d, e.name, ip, e.dir, c, l, i);
      if Names(t, c, l, i) {
        NamedExists(s, c, l, i);
      }
    }
    if i == ip {
      OnlyHere(s'.t, ip, d, slot);
    } else {
      assert Slots(t, i) && Parented(t, i);
      if Live(t, i) && i != d {
        StillOnly(t, s'.t, i);
      } else if i == d {
        PutSlots(t, s'.t, i, e.name, ip);
        StillOnly(t, s'.t, i);
      }
    }
  }

  lemma OnlyHere(t: Tree, ip: nat, d: nat, slot: nat)
    requires slot >= 2 && forall c: nat, l: nat :: l >= 2 ==> (Names(t, c, l, ip) <==> c == d && l == slot)
    ensures OnlyEntry(t, ip, d, slot)
  {
  }

  lemma CreateKeeps(s: Sys, e: Event, s': Sys)
    requires Inv(s) && e.Create? && Next(s, e, s') && Live(s.t, e.d)
    ensures Inv(s')
  {
    hide Counted, Refs, Names, Unique, Deep, OnlyEntry, Slots, Parented;
    assert Slots(s.t, e.d);
    PlainName(s.t, e.d, e.name);
    forall i | i in s'.t
      ensures Slots(s'.t, i) && Unique(s'.t[i].entries) && Deep(s', i) && Parented(s'.t, i) && Counted(s', i)
    {
      CreateShape(s, e, s', i);
      CreateParents(s, e, s', i);
      CreateCounts(s, e, s', i);
    }
  }

  // ----- link -----

  /** A change of a file's link count moves no name. */
  lemma FileCountOnly(t: Tree, f: nat, n: nat, i: nat)
    requires f in t && !t[f].dir && i in t && i != 0
    requires Slots(t, i) && Parented(t, i)
    ensures var t' := t[f := t[f].(nlink := n)];
            && Slots(t', i) && Parented(t', i) && Refs(t', i) == Refs(t, i) && (Live(t', i) <==> Live(t, i))
  {
    var t' := t[f := t[f].(nlink := n)];
    assert forall c: nat, l: nat :: Names(t', c, l, i) <==> Names(t, c, l, i);
    SameRefs(t, t', i);
    if Live(t, i) {
      StillOnly(t, t', i);
    }
  }

  lemma PendingMore(pend: map<nat, nat>, p: nat, i: nat, j: nat)
    requires p !in pend
    ensures |Pending(pend[p := i], j)| == |Pending(pend, j)| + if j == i then 1 else 0
  {
    var a, b := Pending(pend, j), Pending(pend[p := i], j);
    forall q
      ensures q in b <==> q in a || (q == p && j == i)
    {
    }
    hide Pending;
    assert b == if j == i then a + {p} else a;
  }

  lemma PendingLess(pend: map<nat, nat>, p: nat, j: nat)
    requires p in pend
    ensures |Pending(pend - {p}, j)| == |Pending(pend, j)| - if j == pend[p] then 1 else 0
  {
    PendingMore(pend - {p}, p, pend[p], j);
    assert (pend - {p})[p := pend[p]] == pend;
  }

  lemma LinkBeginKeeps(s: Sys, e: Event, s': Sys)
    requires Inv(s) && e.LinkBegin? && Next(s, e, s')
    ensures Inv(s')
  {
    hide Refs, Unique, Slots, Parented, Pending, Names;
    forall i | i in s'.t
      ensures Slots(s'.t, i) && Unique(s'.t[i].entries) && Deep(s', i) && Parented(s'.t, i) && Counted(s', i)
    {
      assert Slots(s.t, i) && Parented(s.t, i) && Counted(s, i) && Unique(s.t[i].entries) && Deep(s, i);
      FileCountOnly(s.t, e.i, s.t[e.i].nlink + 1, i);
      PendingMore(s.pend, e.p, e.i, i);
    }
  }

  lemma LinkUndoKeeps(s: Sys, e: Event, s': Sys)
    requires Inv(s) && e.LinkUndo? && Next(s, e, s')
    ensures Inv(s')
  {
    hide Refs, Unique, Slots, Parented, Pending, Names;
    var f := s.pend[e.p];
    forall i | i in s'.t
      ensures Slots(s'.t, i) && Unique(s'.t[i].entries) && Deep(s', i) && Parented(s'.t, i) && Counted(s', i)
    {
      assert Slots(s.t, i) && Parented(s.t, i) && Counted(s, i) && Unique(s.t[i].entries) && Deep(s, i);
      FileCountOnly(s.t, f, s.t[f].nlink - 1, i);
      PendingLess(s.pend, e.p, i);
    }
  }

  lemma EnterKeepsOne(s: Sys, e: Event, s': Sys, i: nat)
    requires Inv(s) && e.LinkEnter? && Next(s, e, s') && Live(s.t, e.d) && Plain(e.name) && i in s.t
    ensures Slots(s'.t, i) && Unique(s'.t[i].entries) && Parented(s'.t, i) && Counted(s', i) && Deep(s', i)
  {
    hide Refs, Names, Pending, OnlyEntry;
    var t, d, f, slot := s.t, e.d, s.pend[e.p], FreeSlot(s.t[e.d].entries);
    assert Slots(t, d) && Slots(t, i) && Parented(t, i) && Unique(t[i].entries) && Deep(s, i) && Counted(s, i);
    PutSlots(t, s'.t, d, e.name, f);
    forall c: nat, l: nat
      ensures Names(s'.t, c, l, i) <==> Names(t, c, l, i) || (c == d && l == slot && i == f)
    {
      EnterNames(t, d, e.name, f, c, l, i);
    }
    PendingLess(s.pend, e.p, i);
    if i == f {
      FreeIsFree(t, d, f);
      OneMoreRef(t, s'.t, f, d, slot);
    } else {
      SameRefs(t, s'.t, i);
      if i == d {
        PutUnique(t[i].entries, e.name, f);
      }
      if Live(t, i) {
        StillOnly(t, s'.t, i);
      }
    }
  }

  lemma LinkEnterKeeps(s: Sys, e: Event, s': Sys)
    requires Inv(s) && e.LinkEnter? && Next(s, e, s') && Live(s.t, e.d)
    ensures Inv(s')
  {
    hide Counted, Refs, Names, Unique, Deep, Slots, Parented;
    assert Slots(s.t, e.d);
    PlainName(s.t, e.d, e.name);
    forall i | i in s'.t
      ensures Slots(s'.t, i) && Unique(s'.t[i].entries) && Deep(s', i) && Parented(s'.t, i) && Counted(s', i)
    {
      EnterKeepsOne(s, e, s', i);
    }
  }

  // ----- the last reference to an unlinked inode goes away -----

  lemma ForgetKeeps(s: Sys, e: Event, s': Sys)
    requires Inv(s) && e.Forget? && Next(s, e, s')
    ensures Inv(s')
  {
    hide Refs, OnlyEntry;
    var f := e.i;
    assert Counted(s, f);
    forall p | p in s.pend
      ensures s.pend[p] != f
    {
      assert p in Pending(s.pend, s.pend[p]);
    }
    forall i | i in s'.t
      ensures Slots(s'.t, i) && Unique(s'.t[i].entries) && Deep(s', i) && Parented(s'.t, i) && Counted(s', i)
    {
      assert Slots(s.t, i) && Parented(s.t, i) && Counted(s, i) && Unique(s.t[i].entries) && Deep(s, i);
      ForgetOne(s, f, i);
    }
  }

  lemma ForgetOne(s: Sys, f: nat, i: nat)
    requires Inv(s) && f in s.t && s.t[f].nlink == 0 && i in s.t && i != f
    ensures Refs(s.t - {f}, i) == Refs(s.t, i) && Slots(s.t - {f}, i) && Parented(s.t - {f}, i)
  {
    hide Counted, Refs, OnlyEntry, Unique, Deep;
    var t, t' := s.t, s.t - {f};
    assert Slots(t, i) && Parented(t, i);
    assert forall c: nat, l: nat :: Names(t', c, l, i) <==> Names(t, c, l, i);
    SameRefs(t, t', i);
    if Live(t, i) {
      StillOnly(t, t', i);
    }
    forall k | 2 <= k < |t[i].entries| && t[i].entries[k].inum != 0
      ensures t[i].entries[k].inum in t'
    {
      assert Names(t, i, k, t[i].entries[k].inum);
      Uncounted(s, f, i, k);
    }
  }

  /** An inode without links is named by no live directory. */
  lemma Uncounted(s: Sys, f: nat, c: nat, l: nat)
    requires Inv(s) && f in s.t && s.t[f].nlink == 0
    ensures !Names(s.t, c, l, f)
  {
    hide Names, Slots, Unique, Parented, Deep;
    assert Counted(s, f);
    RefsAre(s.t, f);
    assert (c, l) !in Refs(s.t, f);
  }

  // ----- unlink -----

  /** A live directory has a name that is not a child's "..". */
  lemma HasOwnName(s: Sys, d: nat, c: nat)
    requires Inv(s) && Live(s.t, d) && c != d && Names(s.t, c, 1, d)
    ensures s.t[d].nlink >= 2
  {
    hide Slots, Unique, Deep, Names;
    assert Slots(s.t, d) && Parented(s.t, d) && Counted(s, d);
    RefsAre(s.t, d);
    DotDot(s.t, d);
    if d == ROOTINO {
      TwoRefs(s.t, d, c, 1, d, 1);
    } else {
      var k :| OnlyEntry(s.t, d, s.t[d].entries[1].inum, k);
      TwoRefs(s.t, d, c, 1, s.t[d].entries[1].inum, k);
    }
  }

  lemma DotDot(t: Tree, d: nat)
    requires Live(t, d) && Slots(t, d)
    ensures |t[d].entries| >= 2 && Names(t, d, 1, t[d].entries[1].inum)
  {
  }

  lemma TwoRefs(t: Tree, i: nat, a: nat, k: nat, b: nat, l: nat)
    requires Names(t, a, k, i) && Names(t, b, l, i) && (a != b || k != l)
    ensures |Refs(t, i)| >= 2
  {
    RefsAre(t, i);
    var two := {(a, k), (b, l)};
    assert two <= Refs(t, i);
    SubsetSize(two, Refs(t, i));
  }

  /** An empty live directory other than the root has one name, in its parent. */
  lemma EmptyHasOne(s: Sys, d: nat, k: nat, ip: nat, c: nat, l: nat)
    requires Inv(s) && Names(s.t, d, k, ip) && k >= 2 && Live(s.t, ip) && EmptyDir(s.t[ip])
    ensures ip != ROOTINO && s.t[ip].entries != [] && |s.t[ip].entries| >= 2 && s.t[ip].entries[1].inum == d
    ensures Names(s.t, c, l, ip) <==> c == d && l == k
  {
    hide Counted, Unique, Deep;
    assert Slots(s.t, ip) && Parented(s.t, ip) && ip != 0;
    if Names(s.t, c, l, ip) {
      assert Slots(s.t, c) && Parented(s.t, c);
    }
  }

  lemma UnlinkFacts(s: Sys, d: nat, k: nat)
    requires Inv(s) && CanUnlink(s.t, d, k)
    ensures var ip := s.t[d].entries[k].inum;
            && k >= 2 && ip != 0 && Names(s.t, d, k, ip) && ip != d && s.t[ip].nlink > 0
            && (s.t[ip].dir ==> s.t[ip].nlink == 1 && Live(s.t, ip) && s.t[d].nlink >= 2)
  {
    hide Unique, Deep, Parented, Refs;
    var t, ip := s.t, s.t[d].entries[k].inum;
    assert Slots(t, d) && Counted(s, ip);
    assert Names(t, d, k, ip);
    RefsAre(t, ip);
    assert (d, k) in Refs(t, ip);
    if t[ip].dir {
      assert Slots(t, ip);
      forall c: nat, l: nat
        ensures Names(t, c, l, ip) <==> c == d && l == k
      {
        EmptyHasOne(s, d, k, ip, c, l);
      }
      OneRef(t, ip, d, k);
      assert Pending(s.pend, ip) == {};
      DotDot(t, ip);
      EmptyHasOne(s, d, k, ip, d, k);
      HasOwnName(s, d, ip);
    }
  }

  lemma OneRef(t: Tree, i: nat, d: nat, k: nat)
    requires forall c: nat, l: nat :: Names(t, c, l, i) <==> c == d && l == k
    ensures |Refs(t, i)| == 1
  {
    RefsAre(t, i);
    forall x | x in Refs(t, i)
      ensures x == (d, k)
    {
      assert x == (x.0, x.1);
    }
    assert Refs(t, i) == {(d, k)};
  }

  lemma UnlinkNames(t: Tree, d: nat, k: nat, c: nat, l: nat, i: nat)
    requires Live(t, d) && k < |t[d].entries| && i != 0
    requires var ip := t[d].entries[k].inum;
             && ip in t && ip != d && t[ip].nlink > 0 && (t[ip].dir ==> t[ip].nlink == 1 && t[d].nlink >= 2)
    ensures var ip := t[d].entries[k].inum;
            Names(Unlinked(t, d, k), c, l, i) <==>
            Names(t, c, l, i) && !(c == d && l == k) && !(t[ip].dir && c == ip)
  {
  }

  lemma UnlinkCounts(s: Sys, e: Event, s': Sys, i: nat)
    requires Inv(s) && e.Unlink? && Next(s, e, s') && i in s.t
    ensures Counted(s', i)
  {
    hide Refs, Names, Slots, Unique, Parented, Deep, Unlinked, CanUnlink, EmptyDir;
    var t, d, k := s.t, e.d, e.k;
    UnlinkLinks(s, e, s', i);
    var ip := t[d].entries[k].inum;
    UnlinkFacts(s, d, k);
    forall c: nat, l: nat
      ensures Names(s'.t, c, l, i) <==> Names(t, c, l, i) && !(c == d && l == k) && !(t[ip].dir && c == ip)
      ensures Names(t, d, k, i) ==> i == ip
      ensures t[ip].dir && Names(t, ip, l, i) ==> l == 1 && i == d
      ensures t[ip].dir ==> Names(t, ip, 1, d)
    {
      UnlinkNames(t, d, k, c, l, i);
      OneTarget(t, d, k, i, ip);
      if t[ip].dir {
        EmptyNames(s, d, k, ip, l, i);
      }
    }
    assert Counted(s, i);
    if i == ip {
      OneMoreRef(s'.t, t, i, d, k);
    } else if t[ip].dir && i == d {
      OneMoreRef(s'.t, t, i, ip, 1);
    } else {
      SameRefs(s'.t, t, i);
    }
  }

  lemma OneTarget(t: Tree, d: nat, k: nat, i: nat, j: nat)
    requires Names(t, d, k, j)
    ensures Names(t, d, k, i) ==> i == j
  {
  }

  lemma EmptyNames(s: Sys, d: nat, k: nat, ip: nat, l: nat, i: nat)
    requires Inv(s) && CanUnlink(s.t, d, k) && ip == s.t[d].entries[k].inum && s.t[ip].dir && i != 0
    ensures Names(s.t, ip, l, i) ==> l == 1 && i == d
    ensures Names(s.t, ip, 1, d)
  {
    hide Counted, Refs, Unique, Deep, OnlyEntry;
    UnlinkFacts(s, d, k);
    EmptyHasOne(s, d, k, ip, d, k);
    assert Slots(s.t, ip);
  }

  lemma UnlinkLinks(s: Sys, e: Event, s': Sys, i: nat)
    requires e.Unlink? && Next(s, e, s')
    ensures CanUnlink(s.t, e.d, e.k) && s.t[e.d].nlink > 0 && Live(s.t, e.d)
    ensures e.k < |s.t[e.d].entries| && s.t[e.d].entries[e.k].inum in s.t && s.t[e.d].entries[e.k].inum != e.d
    ensures var ip := s.t[e.d].entries[e.k].inum;
            && s.t[ip].nlink > 0 && s' == s.(t := Unlinked(s.t, e.d, e.k))
            && (i in s'.t <==> i in s.t)
            && (i in s.t ==> && s'.t[i].dir == s.t[i].dir
                             && s'.t[i].nlink == s.t[i].nlink - (if i == ip || (s.t[ip].dir && i == e.d) then 1 else 0)
                             && s'.t[i].entries == if i == e.d then s.t[i].entries[e.k := Entry(0, "")]
                                else s.t[i].entries)
  {
  }

  lemma UnlinkShape(s: Sys, e: Event, s': Sys, i: nat)
    requires Inv(s) && e.Unlink? && Next(s, e, s') && i in s.t
    ensures Slots(s'.t, i) && Unique(s'.t[i].entries) && Deep(s', i)
  {
    hide Refs, Names, Parented, Unlinked, Counted, OnlyEntry;
    UnlinkLinks(s, e, s', i);
    UnlinkFacts(s, e.d, e.k);
    assert Slots(s.t, i) && Unique(s.t[i].entries) && Deep(s, i);
    forall j | j in s.t
      ensures j in s'.t
    {
      UnlinkLinks(s, e, s', j);
    }
  }

  lemma UnlinkParents(s: Sys, e: Event, s': Sys, i: nat)
    requires Inv(s) && e.Unlink? && Next(s, e, s') && i in s.t
    ensures Parented(s'.t, i)
  {
    hide Refs, Names, Unlinked, Counted, OnlyEntry, Unique, Deep, CanUnlink, EmptyDir;
    var t, d, k := s.t, e.d, e.k;
    UnlinkLinks(s, e, s', i);
    UnlinkFacts(s, d, k);
    var ip := t[d].entries[k].inum;
    assert Slots(t, i) && Parented(t, i) && Slots(t, d);
    if Live(s'.t, i) {
      forall c: nat, l: nat | l >= 2
        ensures Names(s'.t, c, l, i) <==> Names(t, c, l, i)
      {
        UnlinkNames(t, d, k, c, l, i);
        OneTarget(t, d, k, i, ip);
        if t[ip].dir {
          EmptyNames(s, d, k, ip, l, i);
        }
        KeptOrDead(s, e, s', i);
      }
      KeptOrDead(s, e, s', i);
      StillOnly(t, s'.t, i);
    }
  }

  /** A directory that stays live is not the one removed, and its parent is not either. */
  lemma KeptOrDead(s: Sys, e: Event, s': Sys, i: nat)
    requires Inv(s) && e.Unlink? && Next(s, e, s') && i in s.t && Live(s'.t, i)
    ensures var ip := s.t[e.d].entries[e.k].inum;
            && i != ip && Live(s.t, i) && |s.t[i].entries| >= 2
            && (i != ROOTINO ==> Live(s'.t, s.t[i].entries[1].inum))
  {
    hide Refs, Unlinked, Counted, Unique, Deep;
    var t, d, k := s.t, e.d, e.k;
    UnlinkLinks(s, e, s', i);
    UnlinkFacts(s, d, k);
    var ip := t[d].entries[k].inum;
    assert Slots(t, i) && Parented(t, i);
    var p := t[i].entries[1].inum;
    UnlinkLinks(s, e, s', p);
    if i != ROOTINO {
      var l :| OnlyEntry(t, i, p, l);
      if t[ip].dir {
        EmptyNames(s, d, k, ip, l, i);
      }
    }
  }

  lemma UnlinkKeeps(s: Sys, e: Event, s': Sys)
    requires Inv(s) && e.Unlink? && Next(s, e, s')
    ensures Inv(s')
  {
    hide Refs, Names, Unlinked, Counted, OnlyEntry, Unique, Deep, CanUnlink, EmptyDir, Slots, Parented;
    forall i
      ensures i in s'.t <==> i in s.t
      ensures i in s.t ==> s'.t[i].dir == s.t[i].dir
    {
      UnlinkLinks(s, e, s', i);
    }
    UnlinkFacts(s, e.d, e.k);
    RootStays(s, e, s');
    forall i | i in s'.t
      ensures Slots(s'.t, i) && Unique(s'.t[i].entries) && Deep(s', i) && Parented(s'.t, i) && Counted(s', i)
    {
      UnlinkShape(s, e, s', i);
      UnlinkParents(s, e, s', i);
      UnlinkCounts(s, e, s', i);
    }
  }

  lemma RootStays(s: Sys, e: Event, s': Sys)
    requires Inv(s) && e.Unlink? && Next(s, e, s')
    ensures Live(s'.t, ROOTINO)
  {
    hide Refs, Unlinked, Counted, OnlyEntry, Unique, Deep;
    UnlinkLinks(s, e, s', ROOTINO);
    UnlinkFacts(s, e.d, e.k);
    assert Parented(s.t, ROOTINO) && Slots(s.t, ROOTINO);
  }

  // ----- exactly when the invariant is kept -----

  /** A name is entered into a directory that has been unlinked. */
  ghost predicate AddsToDead(s: Sys, e: Event) {
    (e.Create? || e.LinkEnter?) && !Live(s.t, e.d)
  }

  lemma NextKeeps(s: Sys, e: Event, s': Sys)
    requires Inv(s) && Next(s, e, s') && !AddsToDead(s, e)
    ensures Inv(s')
  {
    hide Inv, Next;
    match e
    case Create(_, _, _, _) => CreateKeeps(s, e, s');
    case LinkBegin(_, _) => LinkBeginKeeps(s, e, s');
    case LinkEnter(_, _, _) => LinkEnterKeeps(s, e, s');
    case LinkUndo(_) => LinkUndoKeeps(s, e, s');
    case Unlink(_, _) => UnlinkKeeps(s, e, s');
    case Forget(_) => ForgetKeeps(s, e, s');
  }

  /** The slot used for a new name in an unlinked directory. */
  lemma DeadSlot(s: Sys, d: nat, name: string, i: nat)
    requires Inv(s) && IsDir(s.t, d) && !Live(s.t, d) && i != 0
    ensures var es := s.t[d].entries;
            var k := FreeSlot(es);
            var r := Put(es, k, Entry(i, name));
            k >= 2 && k < |r| && r[k].inum == i && forall l :: 2 <= l < |r| && l != k ==> r[l].inum == 0
  {
    hide Counted, Refs, Unique, Deep, Parented;
    assert Slots(s.t, d);
    var es, k := s.t[d].entries, FreeSlot(s.t[d].entries);
    assert es[0].inum != 0 && es[1].inum != 0;
    var r := Put(es, k, Entry(i, name));
    forall l | 2 <= l < |r| && l != k
      ensures r[l].inum == 0
    {
      assert r[l] == es[l];
    }
  }

  lemma DeadUnnamed(s: Sys, e: Event, s': Sys, c: nat, l: nat)
    requires Inv(s) && e.Create? && Next(s, e, s') && !Live(s.t, e.d) && l >= 2
    ensures !Names(s'.t, c, l, e.d)
  {
    hide Counted, Refs, Unique, Deep, Parented, Slots;
    Uncounted(s, e.d, c, l);
    DeadSlot(s, e.d, e.name, e.ip);
  }

  /** What the file system promises: every link count is right, and every live directory has its one parent. */
  ghost predicate Right(s: Sys) {
    forall i :: i in s.t ==> Counted(s, i) && Parented(s.t, i)
  }

  /** A file made in an unlinked directory has a link count of one and no name. */
  lemma DeadFile(s: Sys, e: Event, s': Sys)
    requires Inv(s) && e.Create? && !e.dir && Next(s, e, s') && !Live(s.t, e.d)
    ensures e.ip in s'.t && s'.t[e.ip].nlink == 1 && Refs(s'.t, e.ip) == {} && !Counted(s', e.ip)
  {
    hide Slots, Unique, Parented, Deep, Refs;
    forall c: nat, l: nat
      ensures !Names(s'.t, c, l, e.ip)
    {
      assert Names(s'.t, c, l, e.ip) ==> Names(s.t, c, l, e.ip);
      if Names(s.t, c, l, e.ip) {
        NamedExists(s, c, l, e.ip);
      }
    }
    NoRefs(s'.t, e.ip);
    assert Pending(s'.pend, e.ip) == {};
  }

  /** A link entered into an unlinked directory leaves the file's link count one too high. */
  lemma DeadLink(s: Sys, e: Event, s': Sys)
    requires Inv(s) && e.LinkEnter? && Next(s, e, s') && !Live(s.t, e.d)
    ensures s.pend[e.p] in s'.t && !Counted(s', s.pend[e.p])
  {
    hide Slots, Unique, Parented, Deep, Refs, Pending;
    var f := s.pend[e.p];
    assert Counted(s, f);
    assert forall c: nat, l: nat :: Names(s'.t, c, l, f) <==> Names(s.t, c, l, f);
    SameRefs(s.t, s'.t, f);
    PendingLess(s.pend, e.p, f);
  }

  /** A directory made in an unlinked directory brings that one back without a parent. */
  lemma DeadParent(s: Sys, e: Event, s': Sys)
    requires Inv(s) && e.Create? && e.dir && Next(s, e, s') && !Live(s.t, e.d)
    ensures e.d in s'.t && !Parented(s'.t, e.d)
  {
    hide Counted, Refs, Unique, Deep, Names;
    assert Slots(s.t, e.d);
    DeadSlot(s, e.d, e.name, e.ip);
    forall c: nat, l: nat | l >= 2
      ensures !Names(s'.t, c, l, e.d)
    {
      DeadUnnamed(s, e, s', c, l);
    }
  }

  lemma AddToDeadBreaks(s: Sys, e: Event, s': Sys)
    requires Inv(s) && Next(s, e, s') && AddsToDead(s, e)
    ensures !Right(s')
  {
    hide Inv, Next, Counted, Parented, Live;
    if e.LinkEnter? {
      DeadLink(s, e, s');
    } else if e.dir {
      DeadParent(s, e, s');
    } else {
      DeadFile(s, e, s');
    }
  }

  /** An operation keeps link counts and the directory tree right exactly when it enters no name into an unlinked
      directory. */
  lemma KeptExactly(s: Sys, e: Event, s': Sys)
    requires Inv(s) && Next(s, e, s')
    ensures Right(s') <==> !AddsToDead(s, e)
    ensures Inv(s') <==> Right(s')
  {
    hide Next, AddsToDead;
    if AddsToDead(s, e) {
      AddToDeadBreaks(s, e, s');
    } else {
      NextKeeps(s, e, s');
    }
  }

  // ----- whole runs from a fresh file system -----

  /** n files, numbered behind the root. */
  ghost function FileNodes(n: nat): (t: Tree)
    ensures forall i :: i in t <==> 2 <= i < 2 + n
    ensures forall i :: i in t ==> t[i] == Node(false, 1, [])
  {
    if n == 0 then map[] else FileNodes(n - 1)[n + 1 := Node(false, 1, [])]
  }

  /** The root directory that mkfs writes, with one entry for each file copied in. */
  ghost function RootEntries(names: seq<string>): (es: seq<Entry>)
    ensures |es| == |names| + 2
  {
    [Entry(ROOTINO, "."), Entry(ROOTINO, "..")] + seq(|names|, i requires 0 <= i < |names| => Entry(2 + i, names[i]))
  }

  ghost predicate Start(s: Sys, names: seq<string>) {
    && (forall i :: 0 <= i < |names| ==> Plain(names[i]))
    && (forall i, j :: 0 <= i < j < |names| ==> names[i] != names[j])
    && s == Sys(FileNodes(|names|)[ROOTINO := Node(true, 1, RootEntries(names))], map[], map[ROOTINO := 0])
  }

  lemma StartInv(s: Sys, names: seq<string>)
    requires Start(s, names)
    ensures Inv(s)
  {
    hide Counted, Refs, Names;
    assert s.t[ROOTINO].entries == RootEntries(names);
    forall i | i in s.t
      ensures Counted(s, i) && (i == ROOTINO ==> Parented(s.t, i))
    {
      StartCounts(s, names, i);
    }
  }

  lemma StartCounts(s: Sys, names: seq<string>, i: nat)
    requires Start(s, names) && i in s.t
    ensures Counted(s, i) && (i == ROOTINO ==> Parented(s.t, i))
  {
    hide Refs;
    assert s.t[ROOTINO].entries == RootEntries(names);
    var k := if i == ROOTINO then 1 else i;
    assert forall c: nat, l: nat :: Names(s.t, c, l, i) <==> c == ROOTINO && l == k;
    OneRef(s.t, i, ROOTINO, k);
    assert Pending(s.pend, i) == {};
  }

  ghost predicate Run(es: seq<Event>, ss: seq<Sys>, names: seq<string>) {
    |ss| == |es| + 1 && Start(ss[0], names) && forall k :: 0 <= k < |es| ==> NextAt(es, ss, k)
  }

  ghost predicate NextAt(es: seq<Event>, ss: seq<Sys>, k: nat) {
    k < |es| && k + 1 < |ss| && Next(ss[k], es[k], ss[k + 1]) && !AddsToDead(ss[k], es[k])
  }

  lemma {:induction false} RunInv(es: seq<Event>, ss: seq<Sys>, names: seq<string>, k: nat)
    requires Run(es, ss, names) && k < |ss|
    ensures Inv(ss[k])
  {
    hide Inv, Next, Start, AddsToDead;
    if k == 0 {
      StartInv(ss[0], names);
    } else {
      RunInv(es, ss, names, k - 1);
      assert NextAt(es, ss, k - 1);
      NextKeeps(ss[k - 1], es[k - 1], ss[k]);
    }
  }

  /** In every run, an inode's link count is the number of entries other than "." that name it in directories not yet
      unlinked, plus the links of it in progress. */
  lemma LinkCounts(es: seq<Event>, ss: seq<Sys>, names: seq<string>, k: nat, i: nat)
    requires Run(es, ss, names) && k < |ss| && i in ss[k].t
    ensures ss[k].t[i].nlink == |Refs(ss[k].t, i)| + |Pending(ss[k].pend, i)|
  {
    RunInv(es, ss, names, k);
    assert Counted(ss[k], i);
  }

  /** In every run, a directory that is not unlinked and not the root is named by exactly one entry besides the ".." of
      its children, and that entry is in the directory its own ".." names. */
  lemma OneParent(es: seq<Event>, ss: seq<Sys>, names: seq<string>, k: nat, d: nat)
    requires Run(es, ss, names) && k < |ss| && Live(ss[k].t, d) && d != ROOTINO
    ensures |ss[k].t[d].entries| >= 2 && exists l :: OnlyEntry(ss[k].t, d, ss[k].t[d].entries[1].inum, l)
  {
    RunInv(es, ss, names, k);
    assert Slots(ss[k].t, d) && Parented(ss[k].t, d);
  }

  /** The n-th directory on the way up from d. */
  ghost function Up(t: Tree, d: nat, n: nat): (r: nat)
    decreases n
  {
    if n == 0 || d !in t || |t[d].entries| < 2 then d else Up(t, t[d].entries[1].inum, n - 1)
  }

  lemma StepUp(s: Sys, d: nat)
    requires Inv(s) && Live(s.t, d)
    ensures d in s.t && |s.t[d].entries| >= 2 && d in s.depth
    ensures var p := s.t[d].entries[1].inum;
            if d == ROOTINO then p == ROOTINO else Live(s.t, p) && p in s.depth && s.depth[d] == s.depth[p] + 1
  {
    hide Counted, Unique, OnlyEntry, Names;
    assert Slots(s.t, d) && Parented(s.t, d) && Deep(s, d);
  }

  /** The live directories form a tree: ".." leads from each of them to the root. */
  lemma {:induction false} LeadsToRoot(s: Sys, d: nat)
    requires Inv(s) && Live(s.t, d)
    ensures d in s.depth && Up(s.t, d, s.depth[d]) == ROOTINO
    decreases if d in s.depth then s.depth[d] else 0
  {
    hide Inv, Live;
    StepUp(s, d);
    if d == ROOTINO {
      RootUp(s, s.depth[d]);
    } else {
      LeadsToRoot(s, s.t[d].entries[1].inum);
    }
  }

  lemma {:induction false} RootUp(s: Sys, n: nat)
    requires Inv(s) && Live(s.t, ROOTINO)
    ensures Up(s.t, ROOTINO, n) == ROOTINO
  {
    hide Inv, Live;
    StepUp(s, ROOTINO);
    if n > 0 {
      RootUp(s, n - 1);
    }
  }

  // ----- a directory is used after it was unlinked -----

  /** From a fresh file system: make a directory, remove it, and make a file in it, as a process whose current directory
      it was can do. The file ends up with a link count of one and no name. */
  lemma UsedAfterUnlink(s: Sys) returns (es: seq<Event>, ss: seq<Sys>, e: Event, s': Sys)
    requires Start(s, [])
    ensures Run(es, ss, []) && ss[0] == s && Next(ss[|es|], e, s') && AddsToDead(ss[|es|], e) && !Right(s')
    ensures e.Create? && e.ip in s'.t && s'.t[e.ip].nlink == 1 && Refs(s'.t, e.ip) == {}
  {
    var s1, s2 := MadeAndRemoved(s);
    e := Create(2, "f", 3, false);
    s' := s2.(t := Created(s2.t, 2, "f", 3, false));
    es, ss := [Create(ROOTINO, "d", 2, true), Unlink(ROOTINO, 2)], [s, s1, s2];
    hide Created, FileNodes, RootEntries;
    assert NextAt(es, ss, 0) && NextAt(es, ss, 1);
    RunInv(es, ss, [], 2);
    DeadFile(s2, e, s');
    AddToDeadBreaks(s2, e, s');
  }

  lemma MadeAndRemoved(s: Sys) returns (s1: Sys, s2: Sys)
    requires Start(s, [])
    ensures Next(s, Create(ROOTINO, "d", 2, true), s1) && !AddsToDead(s, Create(ROOTINO, "d", 2, true))
    ensures Next(s1, Unlink(ROOTINO, 2), s2)
    ensures IsDir(s2.t, 2) && s2.t[2].nlink == 0 && Absent(s2.t[2].entries, "f") && 3 !in s2.t
  {
    var root := [Entry(ROOTINO, "."), Entry(ROOTINO, "..")];
    assert RootEntries([]) == root && s.t == map[ROOTINO := Node(true, 1, root)];
    assert FreeSlot(root) == 2 by {
      assert root[1..][1..] == [];
    }
    s1 := Sys(Created(s.t, ROOTINO, "d", 2, true), s.pend, s.depth[2 := 1]);
    assert s1.t[ROOTINO] == Node(true, 2, root + [Entry(2, "d")]);
    assert s1.t[2] == Node(true, 1, [Entry(2, "."), Entry(ROOTINO, "..")]);
    s2 := s1.(t := Unlinked(s1.t, ROOTINO, 2));
  }
}
