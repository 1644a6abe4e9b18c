/** fs.c and sysfile.c: directory search and update, create, link and unlink on the table of inodes. */
module DirCode {
  import opened Common
  import opened LinkState
  import opened LinkRuns

  /** Slot k is the first used one with the name. */
  ghost predicate Found(es: seq<Entry>, name: string, k: nat) {
    && k < |es| && es[k].inum != 0 && es[k].name == name
    && forall j :: 0 <= j < k ==> es[j].inum == 0 || es[j].name != name
  }

  /** Slot k is the first free one, or the end. */
  ghost predicate FirstFree(es: seq<Entry>, k: nat) {
    k <= |es| && (k < |es| ==> es[k].inum == 0) && forall j :: 0 <= j < k ==> es[j].inum != 0
  }

  class Directories {
    var inodes: Tree

    constructor (t: Tree)
      ensures inodes == t
    {
      inodes := t;
    }

    method Dirlookup(d: nat, name: string) returns (k: Option<nat>)
      requires IsDir(inodes, d)
      ensures k.None? <==> Absent(inodes[d].entries, name)
      ensures k.Some? ==> Found(inodes[d].entries, name, k.value)
    {
      var off := 0;
      while off < |inodes[d].entries|
        invariant off <= |inodes[d].entries|
        invariant forall j :: 0 <= j < off ==> inodes[d].entries[j].inum == 0 || inodes[d].entries[j].name != name
      {
        var de := inodes[d].entries[off];
        if de.inum != 0 && de.name == name {
          return Some(off);
        }
        off := off + 1;
      }
      return None;
    }

    method Dirlink(d: nat, name: string, inum: nat) returns (ok: bool)
      requires IsDir(inodes, d)
      modifies this
      ensures ok <==> Absent(old(inodes[d].entries), name)
      ensures inodes == if ok then Entered(old(inodes), d, name, inum) else old(inodes)
      ensures ok ==> forall k: nat :: FirstFree(old(inodes[d].entries), k) ==>
                inodes[d].entries == if k < |old(inodes[d].entries)| then old(inodes[d].entries)[k := Entry(inum, name)]
                                     else old(inodes[d].entries) + [Entry(inum, name)]
    {
      var present := Dirlookup(d, name);
      if present.Some? {
        return false;
      }
      var es := inodes[d].entries;
      var off := 0;
      while off < |es| && es[off].inum != 0
        invariant off <= |es| && FreeSlot(es) == off + FreeSlot(es[off..])
      {
        off := off + 1;
      }
      var es' := if off < |es| then es[off := Entry(inum, name)] else es + [Entry(inum, name)];
      inodes := inodes[d := inodes[d].(entries := es')];
      return true;
    }

    method Isdirempty(d: nat) returns (empty: bool)
      requires d in inodes
      ensures empty <==> EmptyDir(inodes[d])
      ensures empty <==> forall k :: 2 <= k < |inodes[d].entries| ==> inodes[d].entries[k].inum == 0
    {
      var off := 2;
      while off < |inodes[d].entries|
        invariant forall k :: 2 <= k < off && k < |inodes[d].entries| ==> inodes[d].entries[k].inum == 0
      {
        if inodes[d].entries[off].inum != 0 {
          return false;
        }
        off := off + 1;
      }
      return true;
    }

    /** create for a file or a directory; newip is the inode that ialloc finds. Nothing changes when the name exists. */
    method Create(d: nat, name: string, dir: bool, newip: nat) returns (ip: Option<nat>)
      requires IsDir(inodes, d) && newip !in inodes && newip != 0
      modifies this
      ensures Absent(old(inodes[d].entries), name) ==>
                ip == Some(newip) && inodes == Created(old(inodes), d, name, newip, dir)
      ensures !Absent(old(inodes[d].entries), name) ==> inodes == old(inodes)
      ensures forall k: nat :: Found(old(inodes[d].entries), name, k) ==>
                var i := old(inodes)[d].entries[k].inum;
                ip == if !dir && i in inodes && !inodes[i].dir then Some(i) else None
    {
      var there := Dirlookup(d, name);
      if there.Some? {
        var i := inodes[d].entries[there.value].inum;
        return if !dir && i in inodes && !inodes[i].dir then Some(i) else None;
      }
      ghost var t := inodes;
      NoSlots(newip);
      inodes := inodes[newip := Node(dir, 1, [])];
      if dir {
        inodes := inodes[d := inodes[d].(nlink := inodes[d].nlink + 1)];
        var dot := Dirlink(newip, ".", newip);
        assert inodes[newip].entries == [Entry(newip, ".")];
        var dotdot := Dirlink(newip, "..", d);
        assert inodes[newip].entries == [Entry(newip, "."), Entry(d, "..")];
      }
      assert inodes[d].entries == t[d].entries;
      var ok := Dirlink(d, name, newip);
      assert inodes == Created(t, d, name, newip, dir);
      return Some(newip);
    }

    /** The first half of sys_link: the count goes up before the name is there. */
    method LinkBegin(ip: nat) returns (ok: bool)
      requires ip in inodes
      modifies this
      ensures ok <==> !old(inodes)[ip].dir
      ensures inodes == if ok then Raised(old(inodes), ip) else old(inodes)
    {
      if inodes[ip].dir {
        return false;
      }
      inodes := inodes[ip := inodes[ip].(nlink := inodes[ip].nlink + 1)];
      return true;
    }

    /** The second half of sys_link; d is what nameiparent found. */
    method LinkFinish(ip: nat, d: Option<nat>, name: string) returns (ok: bool)
      requires ip in inodes && inodes[ip].nlink > 0 && (d.Some? ==> IsDir(inodes, d.value))
      modifies this
      ensures ok <==> d.Some? && Absent(old(inodes)[d.value].entries, name)
      ensures inodes == if ok then Entered(old(inodes), d.value, name, ip) else Lowered(old(inodes), ip)
    {
      if d.Some? {
        ok := Dirlink(d.value, name, ip);
        if ok {
          return true;
        }
      }
      inodes := inodes[ip := inodes[ip].(nlink := inodes[ip].nlink - 1)];
      return false;
    }

    /** unlink of name in d, in any state that runs reach: the panic on a link count below one is out of reach. */
    method Unlink(d: nat, name: string, ghost s: Sys) returns (ok: bool, ghost k: nat)
      requires IsDir(inodes, d) && s.t == inodes && Inv(s)
      modifies this
      ensures ok ==> Plain(name) && Found(old(inodes)[d].entries, name, k) && CanUnlink(old(inodes), d, k)
      ensures ok ==> Next(s, LinkRuns.Unlink(d, k), s.(t := inodes))
      ensures ok <==>
              && Plain(name) && Found(old(inodes)[d].entries, name, k)
              && (IsDir(old(inodes), old(inodes)[d].entries[k].inum) ==>
                    forall l: nat, x: nat :: l >= 2 && x != 0 ==>
                      !Names(old(inodes), old(inodes)[d].entries[k].inum, l, x))
      ensures !ok ==>
                inodes == old(inodes)
                && (!Plain(name) || Absent(inodes[d].entries, name) || HoldsFullDir(inodes, d, name, k))
    {
      hide Inv, Next, Found, Absent, EmptyDir;
      k := 0;
      if name == "." || name == ".." {
        return false, 0;
      }
      var off := Dirlookup(d, name);
      if off.None? {
        NotFound(inodes[d].entries, name, 0);
        return false, 0;
      }
      var at := off.value;
      k := at;
      var ip := inodes[d].entries[at].inum;
      FoundExists(s, d, name, k);
      FoundLive(s, d, name, k);
      if inodes[ip].dir {
        BareIsEmpty(s, ip);
        var empty := Isdirempty(ip);
        if !empty {
          return false, k;
        }
      }
      UnlinkNext(s, d, k);
      assert inodes[ip].nlink >= 1;
      inodes := inodes[d := inodes[d].(entries := inodes[d].entries[at := Entry(0, "")])];
      if inodes[ip].dir {
        inodes := inodes[d := inodes[d].(nlink := inodes[d].nlink - 1)];
      }
      inodes := inodes[ip := inodes[ip].(nlink := inodes[ip].nlink - 1)];
      assert inodes == Unlinked(s.t, d, k);
      return true, k;
    }
  }

  /** The name belongs to a directory that is not empty. */
  ghost predicate HoldsFullDir(t: Tree, d: nat, name: string, k: nat)
    requires d in t
  {
    && Found(t[d].entries, name, k) && t[d].entries[k].inum in t
    && t[t[d].entries[k].inum].dir && !EmptyDir(t[t[d].entries[k].inum])
  }

  lemma NotFound(es: seq<Entry>, name: string, k: nat)
    requires Absent(es, name)
    ensures !Found(es, name, k)
  {
  }

  lemma NoSlots(i: nat)
    requires i != 0
    ensures FreeSlot([]) == 0 && FreeSlot([Entry(i, ".")]) == 1
    ensures Put([], 0, Entry(i, ".")) == [Entry(i, ".")]
  {
  }

  lemma FoundExists(s: Sys, d: nat, name: string, k: nat)
    requires Inv(s) && IsDir(s.t, d) && Plain(name) && Found(s.t[d].entries, name, k)
    ensures k < |s.t[d].entries| && s.t[d].entries[k].inum in s.t && Plain(s.t[d].entries[k].name)
  {
    hide Counted, Unique, Parented, Deep;
    assert Slots(s.t, d);
  }

  /** A directory that has an entry has not been unlinked. */
  lemma FoundLive(s: Sys, d: nat, name: string, k: nat)
    requires Inv(s) && IsDir(s.t, d) && Plain(name) && Found(s.t[d].entries, name, k)
    ensures var ip := s.t[d].entries[k].inum; IsDir(s.t, ip) ==> Live(s.t, ip)
  {
    hide Unique, Parented, Deep, Refs;
    FoundExists(s, d, name, k);
    var ip := s.t[d].entries[k].inum;
    assert Slots(s.t, d) && Counted(s, ip) && Names(s.t, d, k, ip);
    RefsAre(s.t, ip);
    assert (d, k) in Refs(s.t, ip);
  }

  lemma UnlinkNext(s: Sys, d: nat, k: nat)
    requires Inv(s) && CanUnlink(s.t, d, k)
    ensures var ip := s.t[d].entries[k].inum;
            && ip != d && s.t[d].nlink > 0 && s.t[ip].nlink > 0 && (s.t[ip].dir ==> s.t[d].nlink >= 2)
            && Next(s, LinkRuns.Unlink(d, k), s.(t := Unlinked(s.t, d, k)))
  {
    UnlinkFacts(s, d, k);
  }
}
