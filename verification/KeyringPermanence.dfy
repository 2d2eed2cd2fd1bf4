/**
 * When an installed keyring is there to stay: exactly when it existed from the start, or
 * its creator has passed the point from which it can still take it back.
 */
module KeyringPermanence {
  import opened Prelude
  import opened Keyring
  import opened KeyringSafety

  /** Nothing has failed so far, so the attempt will end by returning True. */
  predicate Succeeding(p: Proc) {
    p.faults.primary == NoError && !p.faults.rollbackFailed && !p.faults.cleanupFailed && !p.faults.closeFailed
  }

  /** Whether a process whose link is in place can still reach a call that removes it. */
  predicate CanTakeBack(p: Proc) {
    match p.pc
    case Install(_) => true
    case Undo(u) => u.RStat? || u.RUnlink? || u.PStat? || u.PUnlink? || Succeeding(p)
    case Control(k) => (k.Decide? && Succeeding(p)) || k == AssertParent(ReturnedTrue)
    case _ => false
  }

  /** The process whose file the destination is. */
  predicate Owns(s: Sys, pid: Pid) {
    pid in s.procs && s.procs[pid].linked && Dest in s.dir && s.procs[pid].file == Some(s.dir[Dest])
  }

  // ----- It stays -----

  /** A process that can no longer take its link back keeps it, whatever it does next. */
  lemma KeepsLink(cfg: Config, pid: Pid, s: Local, c: Choice)
    requires Before(cfg, pid, s) && s.proc.linked && !CanTakeBack(s.proc)
    ensures var t := StepLocal(cfg, pid, s, c);
            t.proc.linked && !CanTakeBack(t.proc) && t.proc.file == s.proc.file && Same(t.dir, Dest, s.proc.file.value)
  {
    assert OwnInv(cfg, pid, s) && PcInv(cfg, pid, s);
  }

  /** The steps of the others leave the destination alone. */
  lemma OthersKeepIt(cfg: Config, base: Base, s: Sys, owner: Pid, pid: Pid, c: Choice)
    requires Inv(cfg, base, s) && Owns(s, owner) && pid != owner
    ensures var t := Step(cfg, s, pid, c); Owns(t, owner) && t.dir[Dest] == s.dir[Dest] && t.procs[owner] == s.procs[owner]
  {
    if pid in s.procs {
      var l := At(s, pid);
      LocalStep(cfg, pid, l, c);
      assert ProcInv(cfg, pid, l) && ProcInv(cfg, owner, At(s, owner));
      assert s.procs[pid].file != s.procs[owner].file;
    }
  }

  /** What can be relied on from now on: the destination is this file, complete, and stays. */
  lemma {:induction false} StaysForever(cfg: Config, base: Base, s: Sys, owner: Pid, later: Schedule)
    requires Inv(cfg, base, s) && Owns(s, owner) && !CanTakeBack(s.procs[owner])
    ensures var t := Run(cfg, s, later); Owns(t, owner) && t.dir[Dest] == s.dir[Dest] && t.dir[Dest] in t.files && Complete(cfg, owner, t.files[t.dir[Dest]])
    decreases |later|
  {
    if later == [] {
      assert ProcInv(cfg, owner, At(s, owner));
    } else {
      var (pid, c) := later[0];
      var t := Step(cfg, s, pid, c);
      InvStep(cfg, base, s, pid, c);
      if pid == owner {
        assert ProcInv(cfg, owner, At(s, owner));
        KeepsLink(cfg, owner, At(s, owner), c);
      } else {
        OthersKeepIt(cfg, base, s, owner, pid, c);
      }
      StaysForever(cfg, base, t, owner, later[1..]);
    }
  }

  /** A keyring that existed before the initializers ran is never removed or replaced. */
  lemma ExistingStays(cfg: Config, s: Sys, schedule: Schedule)
    requires Initial(s) && Dest in s.dir
    ensures var t := Run(cfg, s, schedule);
            && Same(t.dir, Dest, s.dir[Dest]) && s.dir[Dest] in t.files
            && t.files[s.dir[Dest]].content == s.files[s.dir[Dest]].content
  {
    InvInitial(cfg, s);
    InvRun(cfg, BaseOf(s), s, schedule);
  }

  // ----- It can go -----

  /** How far a process is from removing its link. */
  function Distance(p: Proc): nat {
    match p.pc
    case Install(_) => 9
    case Undo(u) =>
      if u.RUnlink? || u.PUnlink? then 1 else if u.RStat? || u.PStat? then 2 else if u.CUnlink? then 5 else 6
    case Control(k) => if k.Decide? then 4 else 3
    case _ => 0
  }

  /** The calls that lead there: installing and the last check fail, undoing works. */
  function Sabotage(p: Proc): Choice { Choice(p.pc.Undo? || p.pc == Control(Decide), false, 0) }

  lemma OneCloser(cfg: Config, pid: Pid, s: Local)
    requires Before(cfg, pid, s) && s.proc.linked && CanTakeBack(s.proc)
    ensures var t := StepLocal(cfg, pid, s, Sabotage(s.proc));
            || Dest !in t.dir
            || (t.proc.linked && CanTakeBack(t.proc) && Distance(t.proc) < Distance(s.proc) && t.proc.file == s.proc.file && Same(t.dir, Dest, s.proc.file.value))
  {
    assert OwnInv(cfg, pid, s) && PcInv(cfg, pid, s);
  }

  lemma {:induction false} CanGo(cfg: Config, base: Base, s: Sys, owner: Pid) returns (later: Schedule)
    requires Inv(cfg, base, s) && Owns(s, owner) && CanTakeBack(s.procs[owner])
    ensures Dest !in Run(cfg, s, later).dir
    decreases Distance(s.procs[owner])
  {
    var c := Sabotage(s.procs[owner]);
    assert ProcInv(cfg, owner, At(s, owner));
    OneCloser(cfg, owner, At(s, owner));
    InvStep(cfg, base, s, owner, c);
    var t := Step(cfg, s, owner, c);
    if Dest !in t.dir {
      later := [(owner, c)];
      assert Run(cfg, s, later) == Run(cfg, t, later[1..]) == t;
    } else {
      var rest := CanGo(cfg, base, t, owner);
      later := [(owner, c)] + rest;
      assert later[1..] == rest;
    }
  }

  // ----- Exactly when -----

  /** From this state on, no schedule and no failure removes the destination. */
  ghost predicate Permanent(cfg: Config, s: Sys) { forall later: Schedule :: Dest in Run(cfg, s, later).dir }

  lemma OneOwner(cfg: Config, base: Base, s: Sys, p: Pid, q: Pid)
    requires Inv(cfg, base, s) && Owns(s, p) && Owns(s, q)
    ensures p == q
  {
  }

  /**
   * In every reachable state the destination is permanent exactly when it existed from
   * the start, or its creator can no longer reach a call that takes it back; where it
   * is permanent it also keeps its inode.
   */
  lemma PermanentIff(cfg: Config, s: Sys, schedule: Schedule)
    requires Initial(s)
    ensures var t := Run(cfg, s, schedule);
            && (Permanent(cfg, t) <==> Dest in s.dir || exists owner :: Owns(t, owner) && !CanTakeBack(t.procs[owner]))
            && (Permanent(cfg, t) ==> Dest in t.dir && forall later: Schedule :: Same(Run(cfg, t, later).dir, Dest, t.dir[Dest]))
  {
    var t := Run(cfg, s, schedule);
    var base := BaseOf(s);
    InvInitial(cfg, s);
    InvRun(cfg, base, s, schedule);
    if Dest in s.dir {
      forall later: Schedule
        ensures Same(Run(cfg, t, later).dir, Dest, t.dir[Dest])
      {
        InvRun(cfg, base, t, later);
      }
    } else if owner :| Owns(t, owner) && !CanTakeBack(t.procs[owner]) {
      forall later: Schedule
        ensures Same(Run(cfg, t, later).dir, Dest, t.dir[Dest])
      {
        StaysForever(cfg, base, t, owner, later);
      }
    } else {
      NotPermanent(cfg, base, t);
    }
  }

  lemma NotPermanent(cfg: Config, base: Base, t: Sys)
    requires Inv(cfg, base, t) && base.Absent?
    requires forall owner :: Owns(t, owner) ==> CanTakeBack(t.procs[owner])
    ensures !Permanent(cfg, t)
  {
    if Dest in t.dir {
      var owner :| owner in t.procs && t.procs[owner].linked && t.procs[owner].file == Some(t.dir[Dest]);
      assert Owns(t, owner);
      var later := CanGo(cfg, base, t, owner);
      assert Dest !in Run(cfg, t, later).dir;
    } else {
      var nothing: Schedule := [];
      assert Run(cfg, t, nothing) == t;
    }
  }
}
