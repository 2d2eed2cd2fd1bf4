/** Without faults or interference the protocol does its job: first create, then keep. */
module KeyringProgress {
  import opened Prelude
  import opened Keyring
  import opened KeyringSafety

  /** `steps` moves of one process, every call succeeding and writes taking `count` bytes. */
  function Solo(pid: Pid, count: nat, steps: nat): (schedule: Schedule)
    ensures |schedule| == steps
  {
    if steps == 0 then [] else [(pid, Choice(true, false, count))] + Solo(pid, count, steps - 1)
  }

  function Repeat<T>(f: T -> T, x: T, n: nat): T
    decreases n
  {
    if n == 0 then x else Repeat(f, f(x), n - 1)
  }

  lemma {:induction false} RepeatAdd<T>(f: T -> T, x: T, a: nat, b: nat)
    ensures Repeat(f, x, a + b) == Repeat(f, Repeat(f, x, a), b)
    decreases a
  {
    if a > 0 {
      RepeatAdd(f, f(x), a - 1, b);
    }
  }

  function Mover(cfg: Config, pid: Pid, count: nat): Local -> Local {
    (l: Local) => StepLocal(cfg, pid, l, Choice(true, false, count))
  }

  function Iterate(cfg: Config, pid: Pid, l: Local, count: nat, steps: nat): Local {
    Repeat(Mover(cfg, pid, count), l, steps)
  }

  lemma {:induction false} SoloIsIterate(cfg: Config, s: Sys, pid: Pid, count: nat, steps: nat)
    requires pid in s.procs
    ensures var t := Run(cfg, s, Solo(pid, count, steps));
            pid in t.procs && At(t, pid) == Iterate(cfg, pid, At(s, pid), count, steps)
    decreases steps
  {
    if steps > 0 {
      var t := Step(cfg, s, pid, Choice(true, false, count));
      assert Solo(pid, count, steps)[1..] == Solo(pid, count, steps - 1);
      SoloIsIterate(cfg, t, pid, count, steps - 1);
    }
  }

  lemma OneStep(cfg: Config, pid: Pid, l: Local, count: nat)
    ensures Iterate(cfg, pid, l, count, 1) == StepLocal(cfg, pid, l, Choice(true, false, count))
  {
    assert Repeat(Mover(cfg, pid, count), Mover(cfg, pid, count)(l), 0) == Mover(cfg, pid, count)(l);
  }

  /** Starting up on an empty directory, as far as the open temporary file. */
  lemma Opens(cfg: Config, pid: Pid, l: Local, count: nat)
    requires l.proc == FRESH && l.dir == map[] && l.next !in l.files && ValidPayload(cfg, cfg.payload(pid))
    ensures var t := Iterate(cfg, pid, l, count, 4);
            && t.proc.pc == Write(TFstat1) && t.proc.file == Some(l.next) && t.proc.created && t.proc.descriptorOpen
            && t.proc.attempt == 0 && !t.proc.linked && t.proc.faults == NO_FAULTS
            && t.dir == map[Temp(pid, 0) := l.next] && t.files == l.files[l.next := File([], false, 0)]
  {
    var c := Choice(true, false, count);
    var a := StepLocal(cfg, pid, l, c);
    assert a.proc.pc == Validate(VOpen(false));
    var b := StepLocal(cfg, pid, a, c);
    assert b.proc.pc == Write(NewPayload);
    var d := StepLocal(cfg, pid, b, c);
    assert d.proc == Restart(0);
    var e := StepLocal(cfg, pid, d, c);
    assert Iterate(cfg, pid, l, count, 4) == Iterate(cfg, pid, a, count, 3) == Iterate(cfg, pid, b, count, 2)
        == Iterate(cfg, pid, d, count, 1);
    OneStep(cfg, pid, d, count);
  }

  /** Writing and closing the temporary file. */
  lemma Writes(cfg: Config, pid: Pid, l: Local, count: nat)
    requires ValidPayload(cfg, cfg.payload(pid)) && count == |cfg.payload(pid)|
    requires l.proc.pc == Write(TFstat1) && l.proc.file.Some? && l.proc.file.value in l.files
    requires l.files[l.proc.file.value].content == []
    ensures var t := Iterate(cfg, pid, l, count, 7);
            && t.proc == l.proc.(pc := Install(TLink), snapshot := l.proc.file, descriptorOpen := false)
            && t.dir == l.dir && t.files.Keys == l.files.Keys
            && Complete(cfg, pid, t.files[l.proc.file.value])
  {
    var c := Choice(true, false, count);
    var i := l.proc.file.value;
    var l1 := StepLocal(cfg, pid, l, c);
    var l2 := StepLocal(cfg, pid, l1, c);
    assert l2.proc.pc == Write(TWrite) && l2.files[i].mode600 && l2.files[i].content == [];
    var l3 := StepLocal(cfg, pid, l2, c);
    assert [] + cfg.payload(pid)[0..count] == cfg.payload(pid);
    assert l3.proc.pc == Write(TWrite) && Complete(cfg, pid, l3.files[i]);
    var l4 := StepLocal(cfg, pid, l3, c);
    assert l4.proc.pc == Write(TFsync) && l4.files == l3.files;
    var l5 := StepLocal(cfg, pid, l4, c);
    var l6 := StepLocal(cfg, pid, l5, c);
    assert l6.proc.pc == Write(TClose);
    assert Iterate(cfg, pid, l, count, 7) == Iterate(cfg, pid, l1, count, 6) == Iterate(cfg, pid, l2, count, 5)
        == Iterate(cfg, pid, l3, count, 4) == Iterate(cfg, pid, l4, count, 3) == Iterate(cfg, pid, l5, count, 2)
        == Iterate(cfg, pid, l6, count, 1);
    OneStep(cfg, pid, l6, count);
  }

  /** Ready to link: a whole temporary file, closed, and nothing failed. */
  predicate ReadyToLink(pid: Pid, l: Local) {
    && l.proc.pc == Install(TLink) && l.proc.snapshot.Some? && l.proc.created && !l.proc.descriptorOpen
    && l.proc.faults == NO_FAULTS
    && l.dir == map[Temp(pid, l.proc.attempt) := l.proc.snapshot.value] && l.proc.snapshot.value in l.files
  }

  /** Linking and tidying up. */
  lemma Links(cfg: Config, pid: Pid, l: Local, count: nat)
    requires ReadyToLink(pid, l)
    ensures var t := Iterate(cfg, pid, l, count, 4);
            && t.proc.pc == Undo(CStat) && t.proc.snapshot == l.proc.snapshot && t.proc.attempt == l.proc.attempt
            && t.proc.faults == NO_FAULTS && t.dir == map[Dest := l.proc.snapshot.value]
  {
    var c := Choice(true, false, count);
    var l1 := StepLocal(cfg, pid, l, c);
    var l2 := StepLocal(cfg, pid, l1, c);
    assert l2.proc.pc == Install(TSyncDir) && l2.dir == map[Dest := l.proc.snapshot.value];
    var l3 := StepLocal(cfg, pid, l2, c);
    assert Iterate(cfg, pid, l, count, 4) == Iterate(cfg, pid, l1, count, 3) == Iterate(cfg, pid, l2, count, 2)
        == Iterate(cfg, pid, l3, count, 1);
    OneStep(cfg, pid, l3, count);
  }

  /** Finding nothing to clean up, and returning. */
  lemma Concludes(cfg: Config, pid: Pid, l: Local, count: nat)
    requires l.proc.pc == Undo(CStat) && l.proc.snapshot.Some? && l.proc.faults == NO_FAULTS && Temp(pid, l.proc.attempt) !in l.dir
    ensures var t := Iterate(cfg, pid, l, count, 4); t.proc.pc == Control(Finished(ReturnedTrue)) && t.dir == l.dir
  {
    var c := Choice(true, false, count);
    var l1 := StepLocal(cfg, pid, l, c);
    var l2 := StepLocal(cfg, pid, l1, c);
    assert l2.proc.pc == Control(AssertParent(ReturnedTrue));
    var l3 := StepLocal(cfg, pid, l2, c);
    assert Iterate(cfg, pid, l, count, 4) == Iterate(cfg, pid, l1, count, 3) == Iterate(cfg, pid, l2, count, 2)
        == Iterate(cfg, pid, l3, count, 1);
    OneStep(cfg, pid, l3, count);
  }

  /** Linking, tidying up and returning. */
  lemma Installs(cfg: Config, pid: Pid, l: Local, count: nat)
    requires ReadyToLink(pid, l)
    ensures var t := Iterate(cfg, pid, l, count, 8);
            t.proc.pc == Control(Finished(ReturnedTrue)) && t.dir == map[Dest := l.proc.snapshot.value]
  {
    RepeatAdd(Mover(cfg, pid, count), l, 4, 4);
    Links(cfg, pid, l, count);
    Concludes(cfg, pid, Iterate(cfg, pid, l, count, 4), count);
  }

  lemma CreatesLocally(cfg: Config, pid: Pid, l: Local, count: nat)
    requires l.proc == FRESH && l.dir == map[] && l.next !in l.files
    requires ValidPayload(cfg, cfg.payload(pid)) && count == |cfg.payload(pid)|
    ensures var t := Iterate(cfg, pid, l, count, 19);
            t.proc.pc == Control(Finished(ReturnedTrue)) && t.dir == map[Dest := l.next]
  {
    var f := Mover(cfg, pid, count);
    Opens(cfg, pid, l, count);
    var a := Iterate(cfg, pid, l, count, 4);
    Writes(cfg, pid, a, count);
    var b := Iterate(cfg, pid, a, count, 7);
    Installs(cfg, pid, b, count);
    RepeatAdd(f, l, 4, 15);
    RepeatAdd(f, a, 7, 8);
  }

  /** On an empty directory a lone initializer creates the keyring and returns True. */
  lemma SoloCreates(cfg: Config, s: Sys, pid: Pid)
    requires Initial(s) && Dest !in s.dir && pid in s.procs && ValidPayload(cfg, cfg.payload(pid))
    ensures var t := Run(cfg, s, Solo(pid, |cfg.payload(pid)|, 19));
            && Returned(t, pid, ReturnedTrue)
            && t.dir.Keys == {Dest} && t.dir[Dest] in t.files && Complete(cfg, pid, t.files[t.dir[Dest]])
  {
    var count := |cfg.payload(pid)|;
    var schedule := Solo(pid, count, 19);
    assert s.dir == map[];
    CreatesLocally(cfg, pid, At(s, pid), count);
    SoloIsIterate(cfg, s, pid, count, 19);
    InvInitial(cfg, s);
    InvRun(cfg, BaseOf(s), s, schedule);
    var t := Run(cfg, s, schedule);
    assert OwnInv(cfg, pid, At(t, pid)) && PcInv(cfg, pid, At(t, pid));
  }

  lemma Reads(cfg: Config, pid: Pid, l: Local, count: nat)
    requires l.proc == FRESH && Dest in l.dir && l.dir[Dest] in l.files && ValidPayload(cfg, l.files[l.dir[Dest]].content)
    ensures var t := Iterate(cfg, pid, l, count, 6);
            t.proc.pc == Validate(VChmod) && t.proc.view.target == l.dir[Dest] && t.dir == l.dir && t.files == l.files
  {
    var c := Choice(true, false, count);
    var l1 := StepLocal(cfg, pid, l, c);
    var l2 := StepLocal(cfg, pid, l1, c);
    assert l2.proc.pc == Validate(VFstat) && l2.proc.view.target == l.dir[Dest];
    var l3 := StepLocal(cfg, pid, l2, c);
    var l4 := StepLocal(cfg, pid, l3, c);
    assert l4.proc.pc == Validate(VRead);
    var l5 := StepLocal(cfg, pid, l4, c);
    assert Iterate(cfg, pid, l, count, 6) == Iterate(cfg, pid, l1, count, 5) == Iterate(cfg, pid, l2, count, 4)
        == Iterate(cfg, pid, l3, count, 3) == Iterate(cfg, pid, l4, count, 2) == Iterate(cfg, pid, l5, count, 1);
    OneStep(cfg, pid, l5, count);
  }

  lemma Secures(cfg: Config, pid: Pid, l: Local, count: nat)
    requires l.proc.pc == Validate(VChmod) && Same(l.dir, Dest, l.proc.view.target) && l.proc.view.target in l.files
    ensures var t := Iterate(cfg, pid, l, count, 4);
            t.proc.pc == Control(Finished(ReturnedFalse)) && t.dir == l.dir && t.files == Chmod(l.files, l.proc.view.target)
  {
    var c := Choice(true, false, count);
    var l1 := StepLocal(cfg, pid, l, c);
    var l2 := StepLocal(cfg, pid, l1, c);
    assert l2.proc.pc == Control(AssertParent(ReturnedFalse));
    var l3 := StepLocal(cfg, pid, l2, c);
    assert Iterate(cfg, pid, l, count, 4) == Iterate(cfg, pid, l1, count, 3) == Iterate(cfg, pid, l2, count, 2)
        == Iterate(cfg, pid, l3, count, 1);
    OneStep(cfg, pid, l3, count);
  }

  /** On a directory that holds a valid keyring a lone initializer keeps it and returns False. */
  lemma SoloKeeps(cfg: Config, s: Sys, pid: Pid, count: nat)
    requires pid in s.procs && s.procs[pid] == FRESH
    requires Dest in s.dir && s.dir[Dest] in s.files && ValidPayload(cfg, s.files[s.dir[Dest]].content)
    ensures var t := Run(cfg, s, Solo(pid, count, 10));
            && Returned(t, pid, ReturnedFalse) && t.dir == s.dir && t.dir[Dest] in t.files
            && t.files[t.dir[Dest]].content == s.files[s.dir[Dest]].content && t.files[t.dir[Dest]].mode600
  {
    var l := At(s, pid);
    SoloIsIterate(cfg, s, pid, count, 10);
    RepeatAdd(Mover(cfg, pid, count), l, 6, 4);
    Reads(cfg, pid, l, count);
    Secures(cfg, pid, Iterate(cfg, pid, l, count, 6), count);
  }

  // ----- What returning False does not promise -----

  lemma {:induction false} RunAppend(cfg: Config, s: Sys, a: Schedule, b: Schedule)
    ensures Run(cfg, s, a + b) == Run(cfg, Run(cfg, s, a), b)
    decreases |a|
  {
    if a == [] {
      assert a + b == b;
    } else {
      assert (a + b)[0] == a[0] && (a + b)[1..] == a[1..] + b;
      RunAppend(cfg, Step(cfg, s, a[0].0, a[0].1), a[1..], b);
    }
  }

  lemma {:induction false} SoloLeavesOthers(cfg: Config, s: Sys, pid: Pid, count: nat, steps: nat, other: Pid)
    requires pid in s.procs && other in s.procs && other != pid
    ensures var t := Run(cfg, s, Solo(pid, count, steps)); other in t.procs && t.procs[other] == s.procs[other]
    decreases steps
  {
    if steps > 0 {
      var t := Step(cfg, s, pid, Choice(true, false, count));
      assert Solo(pid, count, steps)[1..] == Solo(pid, count, steps - 1);
      SoloLeavesOthers(cfg, t, pid, count, steps - 1, other);
    }
  }

  lemma LinksFirst(cfg: Config, pid: Pid, l: Local, count: nat)
    requires l.proc == FRESH && l.dir == map[] && l.next !in l.files
    requires ValidPayload(cfg, cfg.payload(pid)) && count == |cfg.payload(pid)|
    ensures var t := Iterate(cfg, pid, l, count, 13);
            && t.proc.pc == Install(TSyncDir) && t.proc.linked && t.proc.snapshot == Some(l.next) && t.proc.created
            && !t.proc.descriptorOpen && t.proc.attempt == 0
            && t.dir == map[Dest := l.next] && l.next in t.files && Complete(cfg, pid, t.files[l.next])
  {
    var f := Mover(cfg, pid, count);
    var c := Choice(true, false, count);
    Opens(cfg, pid, l, count);
    var a := Iterate(cfg, pid, l, count, 4);
    Writes(cfg, pid, a, count);
    var b := Iterate(cfg, pid, a, count, 7);
    var l1 := StepLocal(cfg, pid, b, c);
    assert Iterate(cfg, pid, b, count, 2) == Iterate(cfg, pid, l1, count, 1);
    OneStep(cfg, pid, l1, count);
    RepeatAdd(f, l, 4, 9);
    RepeatAdd(f, a, 7, 2);
  }

  /** The directory sync of a linked file fails for good: three steps later the destination is gone. */
  function RollBack(pid: Pid): Schedule {
    [(pid, Choice(false, false, 0)), (pid, Choice(true, false, 0)), (pid, Choice(true, false, 0))]
  }

  lemma RollsBack(cfg: Config, s: Sys, pid: Pid)
    requires pid in s.procs && s.procs[pid].pc == Install(TSyncDir) && s.procs[pid].linked
    requires s.procs[pid].snapshot.Some? && Same(s.dir, Dest, s.procs[pid].snapshot.value)
    ensures Dest !in Run(cfg, s, RollBack(pid)).dir
  {
    var r := RollBack(pid);
    var s1 := Step(cfg, s, pid, r[0].1);
    assert s1.procs[pid].pc == Undo(RStat) && s1.dir == s.dir;
    var s2 := Step(cfg, s1, pid, r[1].1);
    assert s2.procs[pid].pc == Undo(RUnlink) && s2.dir == s.dir;
    var s3 := Step(cfg, s2, pid, r[2].1);
    assert Dest !in s3.dir;
    var r1: Schedule := r[1..];
    var r2: Schedule := r1[1..];
    assert r1[0] == r[1] && r2[0] == r[2] && r2[1..] == [];
    assert Run(cfg, s, r) == Run(cfg, s1, r1) == Run(cfg, s2, r2) == Run(cfg, s3, r2[1..]) == s3;
  }

  /**
   * Returning False promises no permanence: `q` validates the file that `p` has just
   * linked and returns False, then `p` fails to sync the directory and takes it back.
   */
  lemma FalseIsNoPromise(cfg: Config, s: Sys, p: Pid, q: Pid)
    requires Initial(s) && Dest !in s.dir && p in s.procs && q in s.procs && p != q
    requires ValidPayload(cfg, cfg.payload(p))
    ensures exists first: Schedule, later: Schedule ::
              && Returned(Run(cfg, s, first), q, ReturnedFalse) && Dest in Run(cfg, s, first).dir
              && Dest !in Run(cfg, Run(cfg, s, first), later).dir
  {
    var count := |cfg.payload(p)|;
    assert s.dir == map[];
    LinksFirst(cfg, p, At(s, p), count);
    SoloIsIterate(cfg, s, p, count, 13);
    SoloLeavesOthers(cfg, s, p, count, 13, q);
    var t := Run(cfg, s, Solo(p, count, 13));
    SoloKeeps(cfg, t, q, count);
    SoloLeavesOthers(cfg, t, q, count, 10, p);
    RunAppend(cfg, s, Solo(p, count, 13), Solo(q, count, 10));
    var first := Solo(p, count, 13) + Solo(q, count, 10);
    var u := Run(cfg, t, Solo(q, count, 10));
    assert Run(cfg, s, first) == u;
    RollsBack(cfg, u, p);
    assert Dest !in Run(cfg, Run(cfg, s, first), RollBack(p)).dir;
  }
}
