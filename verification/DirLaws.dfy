/** What directories promise through whole sequences of operations. */
module DirLaws {
  import opened LinkState
  import opened LinkRuns
  import opened DirCode

  // ----- removing a directory -----

  ghost predicate CanHappen(s: Sys, e: Event) {
    exists s' :: Next(s, e, s')
  }

  /** In every reachable state, unlink of a plain name succeeds exactly when the name is not a directory's, or when no
      slot of that directory beyond the first two names anything. */
  lemma UnlinkSucceeds(es: seq<Event>, ss: seq<Sys>, names: seq<string>, n: nat, d: nat, k: nat)
    requires Run(es, ss, names) && n < |ss| && IsDir(ss[n].t, d) && k < |ss[n].t[d].entries|
    requires ss[n].t[d].entries[k].inum != 0 && Plain(ss[n].t[d].entries[k].name)
    ensures var t, ip := ss[n].t, ss[n].t[d].entries[k].inum;
            && ip in t
            && (CanHappen(ss[n], Unlink(d, k)) <==>
                (t[ip].dir ==> forall l: nat, x: nat :: l >= 2 && x != 0 ==> !Names(t, ip, l, x)))
  {
    RunInv(es, ss, names, n);
    UnlinkHappens(ss[n], d, k);
  }

  lemma UnlinkHappens(s: Sys, d: nat, k: nat)
    requires Inv(s) && IsDir(s.t, d) && k < |s.t[d].entries|
    requires s.t[d].entries[k].inum != 0 && Plain(s.t[d].entries[k].name)
    ensures s.t[d].entries[k].inum in s.t
    ensures CanHappen(s, Unlink(d, k)) <==>
            (IsDir(s.t, s.t[d].entries[k].inum) ==> Bare(s.t, s.t[d].entries[k].inum))
  {
    hide Inv, EmptyDir, Names;
    PlainFound(s, d, k);
    var ip := s.t[d].entries[k].inum;
    FoundExists(s, d, s.t[d].entries[k].name, k);
    FoundLive(s, d, s.t[d].entries[k].name, k);
    if s.t[ip].dir {
      BareIsEmpty(s, ip);
    }
    if CanUnlink(s.t, d, k) {
      UnlinkNext(s, d, k);
    }
  }

  /** Names are unique, so a used slot is the one that lookup finds. */
  lemma PlainFound(s: Sys, d: nat, k: nat)
    requires Inv(s) && IsDir(s.t, d) && k < |s.t[d].entries| && s.t[d].entries[k].inum != 0
    ensures Found(s.t[d].entries, s.t[d].entries[k].name, k)
  {
    hide Slots, Parented, Deep, Counted;
    assert Unique(s.t[d].entries);
  }

  /** Slot j of p names the directory d, which is empty. With a name made in d it cannot be unlinked; with that name
      unlinked it can again. */
  lemma EmptyAgain(s: Sys, p: nat, j: nat, d: nat, made: Event, s1: Sys, k: nat, s2: Sys)
    requires Inv(s) && Live(s.t, d) && Names(s.t, p, j, d) && j >= 2 && Bare(s.t, d)
    requires made.Create? && made.d == d && Next(s, made, s1)
    requires Names(s1.t, d, k, made.ip) && Next(s1, Unlink(d, k), s2)
    ensures CanHappen(s, Unlink(p, j)) && !CanHappen(s1, Unlink(p, j)) && CanHappen(s2, Unlink(p, j))
  {
    hide Inv, Next, Names, Bare;
    NextKeeps(s, made, s1);
    NextKeeps(s1, Unlink(d, k), s2);
    MadeIn(s, d, made, s1, k);
    NameOf(s, p, j, d);
    KeptName(s, p, j, d, made, s1, k, s2);
    NameOf(s1, p, j, d);
    NameOf(s2, p, j, d);
    UnlinkHappens(s, p, j);
    UnlinkHappens(s1, p, j);
    UnlinkHappens(s2, p, j);
  }

  lemma NameOf(s: Sys, p: nat, j: nat, d: nat)
    requires Inv(s) && Names(s.t, p, j, d) && j >= 2 && d != 0
    ensures IsDir(s.t, p) && j < |s.t[p].entries| && s.t[p].entries[j].inum == d && Plain(s.t[p].entries[j].name)
    ensures d in s.t
  {
    hide Unique, Parented, Deep, Counted;
    assert Slots(s.t, p);
  }

  lemma MadeIn(s: Sys, d: nat, made: Event, s1: Sys, k: nat)
    requires Inv(s) && Live(s.t, d) && made.Create? && made.d == d && Next(s, made, s1) && Names(s1.t, d, k, made.ip)
    ensures IsDir(s.t, d) && d != 0 && made.ip != 0 && made.ip !in s.t && Plain(made.name) && made.ip != d && k >= 2
    ensures s1.t == Created(s.t, d, made.name, made.ip, made.dir) && k == FreeSlot(s.t[d].entries) && IsDir(s1.t, d)
  {
    hide Unique, Parented, Deep, Counted;
    assert Slots(s.t, d);
    PlainName(s.t, d, made.name);
    CreateNames(s.t, d, made.name, made.ip, made.dir, d, k, made.ip);
    if Names(s.t, d, k, made.ip) {
      NamedExists(s, d, k, made.ip);
    }
  }

  lemma KeptName(s: Sys, p: nat, j: nat, d: nat, made: Event, s1: Sys, k: nat, s2: Sys)
    requires Inv(s) && Live(s.t, d) && Names(s.t, p, j, d) && j >= 2 && Bare(s.t, d)
    requires made.Create? && made.d == d && Next(s, made, s1) && Inv(s1)
    requires Names(s1.t, d, k, made.ip) && Next(s1, Unlink(d, k), s2)
    ensures Names(s1.t, p, j, d) && Names(s2.t, p, j, d) && !Bare(s1.t, d) && Bare(s2.t, d) && IsDir(s1.t, d)
    ensures IsDir(s2.t, d)
  {
    hide Inv, Created, Unlinked, Names;
    MadeIn(s, d, made, s1, k);
    assert CanUnlink(s1.t, d, k);
    UnlinkFacts(s1, d, k);
    OneTarget(s1.t, d, k, made.ip, s1.t[d].entries[k].inum);
    forall c: nat, l: nat, x: nat | x != 0
      ensures Names(s2.t, c, l, x) <==>
              Names(s1.t, c, l, x) && !(c == d && l == k) && !(s1.t[made.ip].dir && c == made.ip)
      ensures Names(s1.t, c, l, x) <==>
              || Names(s.t, c, l, x)
              || (c == d && l == k && x == made.ip)
              || (made.dir && c == made.ip && l == 1 && x == d)
    {
      UnlinkNames(s1.t, d, k, c, l, x);
      CreateNames(s.t, d, made.name, made.ip, made.dir, c, l, x);
    }
    NamesIn(s.t, p, j, d);
    StillDir(s1.t, d, k);
  }

  lemma StillDir(t: Tree, d: nat, k: nat)
    requires IsDir(t, d) && k < |t[d].entries| && t[d].entries[k].inum in t && t[d].entries[k].inum != d
    requires t[d].nlink > 0 && t[t[d].entries[k].inum].nlink > 0
    ensures IsDir(Unlinked(t, d, k), d)
  {
  }

  // ----- lookup after the operations -----

  /** What dirlookup finds. */
  ghost predicate Resolves(t: Tree, d: nat, name: string, i: nat) {
    d in t && In(t[d].entries, name, i)
  }

  ghost predicate In(es: seq<Entry>, name: string, i: nat) {
    exists k: nat :: Found(es, name, k) && es[k].inum == i
  }

  lemma PutIn(es: seq<Entry>, name: string, i: nat, n: string, x: nat)
    requires Absent(es, name) && i != 0
    ensures In(Put(es, FreeSlot(es), Entry(i, name)), n, x) <==> if n == name then x == i else In(es, n, x)
  {
    var slot := FreeSlot(es);
    var r := Put(es, slot, Entry(i, name));
    assert |es| <= |r| && r[slot] == Entry(i, name) && forall j :: 0 <= j < |r| && j != slot ==>
             j < |es| && r[j] == es[j];
    assert Found(r, name, slot) && r[slot].inum == i;
    if n != name {
      if k: nat :| Found(r, n, k) && r[k].inum == x {
        assert Found(es, n, k) && es[k].inum == x;
      }
      if k: nat :| Found(es, n, k) && es[k].inum == x {
        assert Found(r, n, k) && r[k].inum == x;
      }
    }
  }

  lemma FreedIn(es: seq<Entry>, k: nat, n: string, x: nat)
    requires Unique(es) && k < |es| && es[k].inum != 0
    ensures In(es[k := Entry(0, "")], n, x) <==> n != es[k].name && In(es, n, x)
  {
    var r := es[k := Entry(0, "")];
    if j: nat :| Found(r, n, j) && r[j].inum == x {
      assert Found(es, n, j) && es[j].inum == x;
    }
    if j: nat :| Found(es, n, j) && es[j].inum == x && n != es[k].name {
      assert Found(r, n, j) && r[j].inum == x;
    }
  }

  lemma DotsIn(ip: nat, d: nat, n: string, x: nat)
    requires ip != 0 && d != 0
    ensures In([Entry(ip, "."), Entry(d, "..")], n, x) <==> (n == "." && x == ip) || (n == ".." && x == d)
  {
    var es := [Entry(ip, "."), Entry(d, "..")];
    assert Found(es, ".", 0) && Found(es, "..", 1);
  }

  /** After create, the new name leads to the new inode, a new directory has its two names, and every other name in
      every directory leads where it led. */
  lemma CreateResolves(t: Tree, d: nat, name: string, ip: nat, dir: bool, c: nat, n: string, x: nat)
    requires IsDir(t, d) && d != 0 && Absent(t[d].entries, name) && ip !in t && ip != 0
    ensures Resolves(Created(t, d, name, ip, dir), c, n, x) <==>
            if c == ip then dir && ((n == "." && x == ip) || (n == ".." && x == d))
            else if c == d && n == name then x == ip
            else Resolves(t, c, n, x)
  {
    hide Found, Put, FreeSlot;
    PutIn(t[d].entries, name, ip, n, x);
    DotsIn(ip, d, n, x);
    NothingIn(n, x);
  }

  lemma NothingIn(n: string, x: nat)
    ensures !In([], n, x)
  {
  }

  /** The same for the second half of link. */
  lemma LinkResolves(t: Tree, d: nat, name: string, f: nat, c: nat, n: string, x: nat)
    requires IsDir(t, d) && Absent(t[d].entries, name) && f != 0
    ensures Resolves(Entered(t, d, name, f), c, n, x) <==>
            if c == d && n == name then x == f else Resolves(t, c, n, x)
  {
    hide In, Put, FreeSlot;
    PutIn(t[d].entries, name, f, n, x);
  }

  /** After unlink the name leads nowhere, and every other name leads where it led. */
  lemma UnlinkResolves(s: Sys, d: nat, k: nat, s': Sys, c: nat, n: string, x: nat)
    requires Inv(s) && Next(s, Unlink(d, k), s')
    ensures Resolves(s'.t, c, n, x) <==> !(c == d && n == s.t[d].entries[k].name) && Resolves(s.t, c, n, x)
  {
    hide Slots, Parented, Deep, Counted, In, EmptyDir;
    UnlinkFacts(s, d, k);
    assert Unique(s.t[d].entries);
    FreedIn(s.t[d].entries, k, n, x);
  }
}
