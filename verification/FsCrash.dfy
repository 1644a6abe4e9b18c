/** What a crash at any moment of any run of the log does to the file system on the disk. */
module FsCrash {
  import opened Blocks
  import opened FsState
  import opened FsDisk
  import opened LogDisk
  import opened LogRuns

  /** The disk was sound at first, and memory is sound whenever end_op of the last operation starts a commit. */
  ghost predicate SoundAtCommits(l: Layout, g: Geometry, d0: Disk, es: seq<Event>) {
    && Sound(l, d0)
    && forall n: nat, p: Sys :: n <= |es| && Reaches(g, d0, es[..n], p) && p.phase == Committing(0) ==> Sound(l, p.mem)
  }

  /** After n events of the run nothing has happened yet, or the last operation has just ended, and memory is d. */
  ghost predicate RestAt(g: Geometry, d0: Disk, es: seq<Event>, n: nat, p: Sys, d: Disk) {
    && n <= |es| && Reaches(g, d0, es[..n], p) && (n == 0 || p.phase == Committing(0))
    && SameHome(g, p.mem, d)
  }

  /** The moment at which a commit in progress began. */
  lemma {:induction false} CommitBegan(g: Geometry, d0: Disk, es: seq<Event>, s: Sys) returns (n: nat, p: Sys)
    requires Setting(g, d0) && Reaches(g, d0, es, s) && s.phase.Committing?
    ensures n <= |es| && Reaches(g, d0, es[..n], p) && p.phase == Committing(0) && p.mem == s.mem
    decreases |es|
  {
    hide SectorWritten, Inv, Step, Setting;
    if s.phase.k == 0 {
      n, p := |es|, s;
      assert es[..n] == es;
    } else {
      var q :| Reaches(g, d0, Front(es), q) && Step(g, q, Last(es), s);
      ReachableInv(g, d0, Front(es), q);
      CommitGoesOn(g, d0, q, Last(es), s);
      n, p := CommitBegan(g, d0, Front(es), q);
      assert Front(es)[..n] == es[..n];
    }
  }

  lemma CommitGoesOn(g: Geometry, d0: Disk, q: Sys, e: Event, s: Sys)
    requires Setting(g, d0) && Inv(g, d0, q) && Step(g, q, e, s) && s.phase.Committing? && s.phase.k > 0
    ensures q.phase.Committing? && q.mem == s.mem
  {
    hide Durable, Whole;
  }

  /** What has been committed is what memory was at some moment of rest. */
  lemma {:induction false} CommittedAtRest(g: Geometry, d0: Disk, es: seq<Event>, s: Sys) returns (n: nat, p: Sys)
    requires Setting(g, d0) && Reaches(g, d0, es, s)
    ensures AllInRange(s.groups, |d0|) && RestAt(g, d0, es, n, p, Effect(d0, s.groups))
    decreases |es|
  {
    hide Step, Effect, Inv, Setting;
    if es == [] {
      assert Effect(d0, []) == d0 by { NothingCommitted(d0); }
      n, p := 0, s;
      assert es[..0] == es;
    } else {
      var q :| Reaches(g, d0, Front(es), q) && Step(g, q, Last(es), s);
      ReachableInv(g, d0, Front(es), q);
      CommitStep(g, d0, q, Last(es), s);
      if s.groups == q.groups {
        n, p := CommittedAtRest(g, d0, Front(es), q);
      } else {
        n, p := CommitBegan(g, d0, Front(es), q);
      }
      assert Front(es)[..n] == es[..n];
    }
  }

  lemma NothingCommitted(d0: Disk)
    ensures Effect(d0, []) == d0
  {
  }

  /** The only step that commits makes memory, with no operation under way, the committed disk. */
  lemma CommitStep(g: Geometry, d0: Disk, p: Sys, e: Event, s: Sys)
    requires Setting(g, d0) && Inv(g, d0, p) && Step(g, p, e, s)
    ensures AllInRange(s.groups, |d0|)
    ensures s.groups != p.groups ==>
              p.calls == map[] && p.phase.Committing? && SameHome(g, p.mem, Effect(d0, s.groups))
  {
    hide Effect, Applied, Whole, Of, GetWord, CommitImage, RecoverImage;
    EffectNext(d0, p.groups, p.current);
  }

  lemma SameHomeBack(g: Geometry, a: Disk, b: Disk)
    requires SameHome(g, a, b)
    ensures SameHome(g, b, a)
  {
  }

  /** Whatever has been committed is sound, and its files are those of a moment of rest. */
  lemma CommittedSound(l: Layout, g: Geometry, d0: Disk, es: seq<Event>, s: Sys) returns (n: nat, p: Sys)
    requires Setting(g, d0) && Reaches(g, d0, es, s) && g.start == l.size - l.nlog && SoundAtCommits(l, g, d0, es)
    ensures AllInRange(s.groups, |d0|) && Sound(l, Effect(d0, s.groups))
    ensures RestAt(g, d0, es, n, p, Effect(d0, s.groups))
    ensures Sound(l, p.mem) && Files(l, p.mem) == Files(l, Effect(d0, s.groups))
  {
    hide Sound, Effect, Files;
    n, p := CommittedAtRest(g, d0, es, s);
    assert n == 0 ==> p.mem == d0 by { assert n == 0 ==> es[..n] == []; }
    assert Sound(l, p.mem);
    SoundSameHome(l, g, p.mem, Effect(d0, s.groups));
  }

  /** A crash at any moment of any run: what recovery makes of the disk is sound, and every file holds what it held in
      memory at one and the same moment of rest. */
  lemma RecoveredSound(l: Layout, g: Geometry, d0: Disk, es: seq<Event>, s: Sys) returns (n: nat, p: Sys)
    requires Setting(g, d0) && Reaches(g, d0, es, s) && g.start == l.size - l.nlog && SoundAtCommits(l, g, d0, es)
    ensures WellFormed(g, s.disk) && Sound(l, Recover(g, s.disk))
    ensures RestAt(g, d0, es, n, p, Recover(g, s.disk))
    ensures Sound(l, p.mem) && Files(l, Recover(g, s.disk)) == Files(l, p.mem)
  {
    hide Sound, Effect, Setting, Recover, WellFormed, Files;
    CrashSafety(g, d0, es, s);
    n, p := CommittedSound(l, g, d0, es, s);
    var r := Recover(g, s.disk);
    SameHomeBack(g, r, Effect(d0, s.groups));
    SoundSameHome(l, g, Effect(d0, s.groups), r);
    SameHomeTwice(g, p.mem, Effect(d0, s.groups), r);
  }

  lemma SameHomeTwice(g: Geometry, a: Disk, b: Disk, c: Disk)
    requires SameHome(g, a, b) && SameHome(g, b, c)
    ensures SameHome(g, a, c)
  {
  }

  /** Memory is sound whenever no operation is under way, after recoveries too. */
  lemma IdleSound(l: Layout, g: Geometry, d0: Disk, es: seq<Event>, s: Sys)
    requires Setting(g, d0) && Reaches(g, d0, es, s) && g.start == l.size - l.nlog && SoundAtCommits(l, g, d0, es)
    requires s.calls == map[] && !s.phase.Recovering?
    ensures Sound(l, s.mem)
    ensures s.phase.Running? ==> AllInRange(s.groups, |d0|) && SameHome(g, s.mem, Effect(d0, s.groups))
  {
    hide Sound, Effect;
    if s.phase.Committing? {
      var n, p := CommitBegan(g, d0, es, s);
    } else {
      ReachableInv(g, d0, es, s);
      IdleMemory(g, d0, s);
      var n, p := CommittedSound(l, g, d0, es, s);
      SameHomeBack(g, s.mem, Effect(d0, s.groups));
      SoundSameHome(l, g, Effect(d0, s.groups), s.mem);
    }
  }

  lemma IdleMemory(g: Geometry, d0: Disk, s: Sys)
    requires Setting(g, d0) && Inv(g, d0, s) && s.calls == map[] && s.phase.Running?
    ensures AllInRange(s.groups, |d0|) && SameHome(g, s.mem, Effect(d0, s.groups))
  {
    hide Whole, Effect;
    AppliedNone(Effect(d0, s.groups));
  }
}
