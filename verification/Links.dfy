/** Directories and link counts: the state that sys_link, sys_unlink and create of sysfile.c change, with a directory's
    content as its sequence of entries. */
module LinkState {

  const ROOTINO := 1

  /** inum 0 marks a free slot. */
  datatype Entry = Entry(inum: nat, name: string)

  datatype Node = Node(dir: bool, nlink: nat, entries: seq<Entry>)

  type Tree = map<nat, Node>

  /** pend[p] is the inode whose link count process p has raised in sys_link without having entered the name yet;
      depth records how far below the root a directory was made. */
  datatype Sys = Sys(t: Tree, pend: map<nat, nat>, depth: map<nat, nat>)

  /** A directory that has not been unlinked. */
  ghost predicate Live(t: Tree, d: nat) {
    d in t && t[d].dir && t[d].nlink > 0
  }

  /** Slot k of the live directory d names i by an entry other than ".". */
  ghost predicate Names(t: Tree, d: nat, k: nat, i: nat) {
    Live(t, d) && k < |t[d].entries| && t[d].entries[k].inum == i && t[d].entries[k].name != "."
  }

  ghost function Refs(t: Tree, i: nat): (r: set<(nat, nat)>) {
    set d: nat, k: nat | d in t && 0 <= k < |t[d].entries| && Names(t, d, k, i) :: (d, k)
  }

  ghost function Pending(pend: map<nat, nat>, i: nat): (r: set<nat>) {
    set p | p in pend && pend[p] == i
  }

  // ----- the invariant -----

  predicate Plain(name: string) {
    name != "." && name != ".."
  }

  /** "." and ".." come first; the other used slots of a directory have plain names of existing inodes, and there are
      none once the directory has been unlinked. */
  ghost predicate Slots(t: Tree, d: nat)
    requires d in t
  {
    if !t[d].dir then t[d].entries == []
    else
      && |t[d].entries| >= 2 && t[d].entries[0] == Entry(d, ".") && t[d].entries[1].name == ".."
         && t[d].entries[1].inum != 0
      && forall k :: 2 <= k < |t[d].entries| && t[d].entries[k].inum != 0 ==>
           Plain(t[d].entries[k].name) && t[d].nlink > 0 && t[d].entries[k].inum in t
  }

  ghost predicate Unique(es: seq<Entry>) {
    forall k, l :: 0 <= k < l < |es| && es[k].inum != 0 && es[l].inum != 0 ==> es[k].name != es[l].name
  }

  /** Slot k of p is the only plain entry that names d. */
  ghost predicate OnlyEntry(t: Tree, d: nat, p: nat, k: nat) {
    Names(t, p, k, d) && k >= 2 && forall e: nat, l: nat :: Names(t, e, l, d) && l >= 2 ==> e == p && l == k
  }

  /** A live directory's ".." is its one parent; the root is its own and has no plain entry. */
  ghost predicate Parented(t: Tree, d: nat) {
    Live(t, d) && |t[d].entries| >= 2 ==>
      if d == ROOTINO then t[d].entries[1].inum == ROOTINO && forall e: nat, l: nat :: Names(t, e, l, d) ==> l < 2
      else Live(t, t[d].entries[1].inum) && exists k :: OnlyEntry(t, d, t[d].entries[1].inum, k)
  }

  ghost predicate Deep(s: Sys, d: nat) {
    Live(s.t, d) && |s.t[d].entries| >= 2 ==>
      d in s.depth && (d == ROOTINO
        || (s.t[d].entries[1].inum in s.depth && s.depth[d] == s.depth[s.t[d].entries[1].inum] + 1))
  }

  ghost predicate Counted(s: Sys, i: nat)
    requires i in s.t
  {
    s.t[i].nlink == |Refs(s.t, i)| + |Pending(s.pend, i)|
  }

  ghost predicate Inv(s: Sys) {
    && 0 !in s.t && Live(s.t, ROOTINO)
    && (forall i :: i in s.t ==> Slots(s.t, i))
    && (forall i :: i in s.t ==> Unique(s.t[i].entries))
    && (forall i :: i in s.t ==> Parented(s.t, i))
    && (forall i :: i in s.t ==> Deep(s, i))
    && (forall i :: i in s.t ==> Counted(s, i))
    && (forall p :: p in s.pend ==> s.pend[p] in s.t && !s.t[s.pend[p]].dir)
  }

  // ----- the operations -----

  /** The first free slot, or the end. */
  ghost function FreeSlot(es: seq<Entry>): (k: nat)
    ensures k <= |es| && (k < |es| ==> es[k].inum == 0) && forall j :: 0 <= j < k ==> es[j].inum != 0
  {
    if es == [] || es[0].inum == 0 then 0 else 1 + FreeSlot(es[1..])
  }

  ghost function Put(es: seq<Entry>, k: nat, e: Entry): (r: seq<Entry>)
    requires k <= |es|
  {
    if k < |es| then es[k := e] else es + [e]
  }

  /** No used slot has the name. */
  ghost predicate Absent(es: seq<Entry>, name: string) {
    forall k :: 0 <= k < |es| && es[k].inum != 0 ==> es[k].name != name
  }

  /** create of a new inode ip named name in directory d. */
  ghost function Created(t: Tree, d: nat, name: string, ip: nat, dir: bool): (r: Tree)
    requires d in t && d != ip
  {
    var es := t[d].entries;
    t[ip := Node(dir, 1, if dir then [Entry(ip, "."), Entry(d, "..")] else [])]
     [d := Node(t[d].dir, t[d].nlink + (if dir then 1 else 0), Put(es, FreeSlot(es), Entry(ip, name)))]
  }

  ghost function Raised(t: Tree, i: nat): (r: Tree)
    requires i in t
  {
    t[i := t[i].(nlink := t[i].nlink + 1)]
  }

  ghost function Lowered(t: Tree, i: nat): (r: Tree)
    requires i in t && t[i].nlink > 0
  {
    t[i := t[i].(nlink := t[i].nlink - 1)]
  }

  ghost function Entered(t: Tree, d: nat, name: string, i: nat): (r: Tree)
    requires d in t
  {
    t[d := t[d].(entries := Put(t[d].entries, FreeSlot(t[d].entries), Entry(i, name)))]
  }

  /** unlink of slot k of directory d, which names ip. */
  ghost function Unlinked(t: Tree, d: nat, k: nat): (r: Tree)
    requires d in t && k < |t[d].entries| && t[d].entries[k].inum in t && t[d].entries[k].inum != d
    requires t[d].nlink > 0 && t[t[d].entries[k].inum].nlink > 0
  {
    var ip := t[d].entries[k].inum;
    var n := t[d];
    t[d := Node(n.dir, n.nlink - (if t[ip].dir then 1 else 0), n.entries[k := Entry(0, "")])]
     [ip := t[ip].(nlink := t[ip].nlink - 1)]
  }

  // ----- counting -----

  lemma AddOne<T>(a: set<T>, b: set<T>, x: T)
    requires x !in a && b == a + {x}
    ensures |b| == |a| + 1
  {
  }

  lemma SameRefs(t: Tree, t': Tree, i: nat)
    requires forall d: nat, k: nat :: Names(t, d, k, i) <==> Names(t', d, k, i)
    ensures Refs(t, i) == Refs(t', i)
  {
  }

  lemma RefsAre(t: Tree, i: nat)
    ensures forall d: nat, k: nat :: (d, k) in Refs(t, i) <==> Names(t, d, k, i)
  {
  }

  lemma OneMoreRef(t: Tree, t': Tree, i: nat, e: nat, l: nat)
    requires !Names(t, e, l, i)
    requires forall d: nat, k: nat :: Names(t', d, k, i) <==> Names(t, d, k, i) || (d == e && k == l)
    ensures |Refs(t', i)| == |Refs(t, i)| + 1
  {
    hide Names;
    RefsAre(t, i);
    RefsAre(t', i);
    forall x | x in Refs(t', i) || x in Refs(t, i) + {(e, l)}
      ensures x in Refs(t', i) && x in Refs(t, i) + {(e, l)}
    {
      assert x == (x.0, x.1);
    }
    AddOne(Refs(t, i), Refs(t', i), (e, l));
  }
}
