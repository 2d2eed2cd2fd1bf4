/**
 * What becomes of one initializer: every failed call cleaned up and retried or reported,
 * the loser of a race served by the winner's file, writes of any size, and validation
 * decided exactly.
 */
module KeyringOutcomes {
  import opened Prelude
  import opened Keyring
  import opened KeyringSafety
  import opened KeyringProgress

  // ----- Left alone, a process comes to a program counter -----

  function Good(count: nat): Choice { Choice(true, false, count) }

  /** Alone, with every call succeeding, the process reaches this point with this directory. */
  ghost predicate ComesTo(cfg: Config, pid: Pid, l: Local, count: nat, pc: Pc, dir: map<Name, Inode>, attempt: nat) {
    exists n: nat :: var t := Iterate(cfg, pid, l, count, n); t.proc.pc == pc && t.dir == dir && t.proc.attempt == attempt
  }

  lemma Here(cfg: Config, pid: Pid, l: Local, count: nat)
    ensures ComesTo(cfg, pid, l, count, l.proc.pc, l.dir, l.proc.attempt)
  {
    assert Iterate(cfg, pid, l, count, 0) == l;
  }

  lemma Next(cfg: Config, pid: Pid, l: Local, count: nat, pc: Pc, dir: map<Name, Inode>, attempt: nat)
    requires ComesTo(cfg, pid, StepLocal(cfg, pid, l, Good(count)), count, pc, dir, attempt)
    ensures ComesTo(cfg, pid, l, count, pc, dir, attempt)
  {
    var m := StepLocal(cfg, pid, l, Good(count));
    var n: nat :| var t := Iterate(cfg, pid, m, count, n); t.proc.pc == pc && t.dir == dir && t.proc.attempt == attempt;
    assert Iterate(cfg, pid, l, count, n + 1) == Iterate(cfg, pid, m, count, n);
  }

  lemma After(cfg: Config, pid: Pid, l: Local, count: nat, steps: nat, pc: Pc, dir: map<Name, Inode>, attempt: nat)
    requires ComesTo(cfg, pid, Iterate(cfg, pid, l, count, steps), count, pc, dir, attempt)
    ensures ComesTo(cfg, pid, l, count, pc, dir, attempt)
  {
    var m := Iterate(cfg, pid, l, count, steps);
    var n: nat :| var t := Iterate(cfg, pid, m, count, n); t.proc.pc == pc && t.dir == dir && t.proc.attempt == attempt;
    RepeatAdd(Mover(cfg, pid, count), l, steps, n);
    assert Iterate(cfg, pid, l, count, steps + n) == Iterate(cfg, pid, m, count, n);
  }

  // ----- A failed call -----

  /** Where a creation attempt leads when it failed and could clean up. */
  function Verdict(primary: Primary): Pc {
    match primary
    case NoError => Control(AssertParent(ReturnedTrue))
    case DestinationAppeared => Validate(VOpen(true))
    case Retryable => Control(Backoff)
    case Fatal => Control(CloseParent(Raised))
  }

  predicate Untroubled(p: Proc) { !p.faults.closeFailed && !p.faults.rollbackFailed && !p.faults.cleanupFailed }

  lemma Decides(cfg: Config, pid: Pid, l: Local, count: nat)
    requires l.proc.pc == Control(Decide) && Untroubled(l.proc)
    ensures ComesTo(cfg, pid, l, count, Verdict(l.proc.faults.primary), l.dir, l.proc.attempt)
  {
    Here(cfg, pid, StepLocal(cfg, pid, l, Good(count)), count);
    Next(cfg, pid, l, count, Verdict(l.proc.faults.primary), l.dir, l.proc.attempt);
  }

  /** The directory without this attempt's temporary name. */
  function Tidy(pid: Pid, l: Local): map<Name, Inode> { l.dir - {Temp(pid, l.proc.attempt)} }

  /** Its temporary name, if it is there, is its own file. */
  predicate OwnTemp(pid: Pid, l: Local) {
    HasTemp(pid, l) ==> l.proc.snapshot == Some(l.dir[Temp(pid, l.proc.attempt)])
  }

  lemma Tidies(cfg: Config, pid: Pid, l: Local, count: nat)
    requires l.proc.pc == Undo(CStat) && l.proc.snapshot.Some? && Untroubled(l.proc) && OwnTemp(pid, l)
    ensures ComesTo(cfg, pid, l, count, Verdict(l.proc.faults.primary), Tidy(pid, l), l.proc.attempt)
  {
    var m := StepLocal(cfg, pid, l, Good(count));
    if HasTemp(pid, l) {
      assert m == l.(proc := l.proc.(pc := Undo(CUnlink)));
      var k := StepLocal(cfg, pid, m, Good(count));
      assert k.proc == l.proc.(pc := Control(Decide)) && k.dir == Tidy(pid, l);
      Decides(cfg, pid, k, count);
      Next(cfg, pid, m, count, Verdict(l.proc.faults.primary), Tidy(pid, l), l.proc.attempt);
    } else {
      assert m == l.(proc := l.proc.(pc := Control(Decide))) && l.dir == Tidy(pid, l);
      Decides(cfg, pid, m, count);
    }
    Next(cfg, pid, l, count, Verdict(l.proc.faults.primary), Tidy(pid, l), l.proc.attempt);
  }

  lemma Closes(cfg: Config, pid: Pid, l: Local, count: nat)
    requires l.proc.pc == Undo(CClose) && l.proc.snapshot.Some? && Untroubled(l.proc) && OwnTemp(pid, l)
    ensures ComesTo(cfg, pid, l, count, Verdict(l.proc.faults.primary), Tidy(pid, l), l.proc.attempt)
  {
    var m := StepLocal(cfg, pid, l, Good(count));
    assert m.proc == l.proc.(pc := Undo(CStat), descriptorOpen := false) && m.dir == l.dir;
    Tidies(cfg, pid, m, count);
    Next(cfg, pid, l, count, Verdict(l.proc.faults.primary), Tidy(pid, l), l.proc.attempt);
  }

  /** Clean-up from wherever it has to begin. */
  lemma CleansUp(cfg: Config, pid: Pid, l: Local, q: Proc, count: nat)
    requires l.proc == CleanUp(q) && q.created && Untroubled(q) && q.file.Some?
    requires q.snapshot == None ==> q.descriptorOpen
    requires q.snapshot == None || q.snapshot == q.file
    requires HasTemp(pid, l) ==> q.file == Some(l.dir[Temp(pid, l.proc.attempt)])
    ensures ComesTo(cfg, pid, l, count, Verdict(q.faults.primary), Tidy(pid, l), q.attempt)
  {
    if q.descriptorOpen && q.snapshot == None {
      var m := StepLocal(cfg, pid, l, Good(count));
      assert m.proc == q.(pc := Undo(CClose), snapshot := q.file) && m.dir == l.dir;
      Closes(cfg, pid, m, count);
      Next(cfg, pid, l, count, Verdict(q.faults.primary), Tidy(pid, l), q.attempt);
    } else if q.descriptorOpen {
      Closes(cfg, pid, l, count);
    } else {
      Tidies(cfg, pid, l, count);
    }
  }

  /** Taking the link back, then cleaning up. */
  lemma RollsBackAlone(cfg: Config, pid: Pid, l: Local, count: nat)
    requires l.proc.pc == Undo(RStat) && l.proc.created && !l.proc.descriptorOpen && Untroubled(l.proc)
    requires l.proc.snapshot.Some? && l.proc.snapshot == l.proc.file && Same(l.dir, Dest, l.proc.snapshot.value) && OwnTemp(pid, l)
    ensures ComesTo(cfg, pid, l, count, Verdict(l.proc.faults.primary), Tidy(pid, l) - {Dest}, l.proc.attempt)
  {
    var m := StepLocal(cfg, pid, l, Good(count));
    assert m == l.(proc := l.proc.(pc := Undo(RUnlink)));
    var k := StepLocal(cfg, pid, m, Good(count));
    var q := l.proc.(linked := false);
    assert k.proc == q.(pc := Undo(CStat)) && k.dir == l.dir - {Dest};
    Tidies(cfg, pid, k, count);
    assert Tidy(pid, k) == Tidy(pid, l) - {Dest};
    Next(cfg, pid, m, count, Verdict(l.proc.faults.primary), Tidy(pid, l) - {Dest}, l.proc.attempt);
    Next(cfg, pid, l, count, Verdict(l.proc.faults.primary), Tidy(pid, l) - {Dest}, l.proc.attempt);
  }

  /** A call of a creation attempt is due: the temporary file is being made, written or installed. */
  predicate Creating(cfg: Config, pid: Pid, l: Local) {
    match l.proc.pc
    case Write(NewPayload) => false
    case Write(TWrite) => l.proc.file.Some? && l.proc.file.value in l.files && |l.files[l.proc.file.value].content| < |cfg.payload(pid)|
    case Write(_) => true
    case Install(_) => true
    case _ => false
  }

  /** The names a failed attempt has to give back: its temporary one, and the destination it linked. */
  function GivenBack(pid: Pid, l: Local): map<Name, Inode> {
    if l.proc.linked then Tidy(pid, l) - {Dest} else Tidy(pid, l)
  }

  /** What a failed call counts as: only after the file was made, and not at its close, may it be retried. */
  predicate MayRetry(l: Local, retryable: bool) { retryable && l.proc.created && l.proc.pc != Write(TClose) }

  /**
   * Whichever call of a creation attempt fails, a process that can clean up gives back
   * every name it made; then it retries if the failure may be retried, and otherwise
   * reports it.
   */
  lemma FailedCall(cfg: Config, pid: Pid, l: Local, retryable: bool, lost: nat, count: nat)
    requires ProcInv(cfg, pid, l) && Creating(cfg, pid, l)
    ensures ComesTo(cfg, pid, StepLocal(cfg, pid, l, Choice(false, retryable, lost)), count,
                    Control(if MayRetry(l, retryable) then Backoff else CloseParent(Raised)), GivenBack(pid, l), l.proc.attempt)
  {
    var c := Choice(false, retryable, lost);
    var t := StepLocal(cfg, pid, l, c);
    if l.proc.pc == Write(TClose) {
      FailedClose(cfg, pid, l, c, count);
    } else if l.proc.pc == Write(TOpen) {
      assert t.proc == l.proc.(faults := l.proc.faults.(primary := Fatal), pc := Control(Decide));
      assert Tidy(pid, l) == l.dir;
      Decides(cfg, pid, t, count);
    } else {
      FailedMade(cfg, pid, l, c, count);
    }
  }

  /** A failed close is never retried: it is reported even when nothing else went wrong. */
  lemma FailedClose(cfg: Config, pid: Pid, l: Local, c: Choice, count: nat)
    requires ProcInv(cfg, pid, l) && l.proc.pc == Write(TClose) && !c.ok
    ensures ComesTo(cfg, pid, StepLocal(cfg, pid, l, c), count, Control(CloseParent(Raised)), Tidy(pid, l), l.proc.attempt)
  {
    var t := StepLocal(cfg, pid, l, c);
    var m := StepLocal(cfg, pid, t, Good(count));
    assert m.proc.pc == Undo(CUnlink) && m.dir == l.dir && m.proc.faults.closeFailed;
    var k := StepLocal(cfg, pid, m, Good(count));
    assert k.proc.pc == Control(Decide) && k.dir == Tidy(pid, l) && k.proc.faults.closeFailed;
    var goal := Control(CloseParent(Raised));
    Here(cfg, pid, StepLocal(cfg, pid, k, Good(count)), count);
    Next(cfg, pid, k, count, goal, Tidy(pid, l), l.proc.attempt);
    Next(cfg, pid, m, count, goal, Tidy(pid, l), l.proc.attempt);
    Next(cfg, pid, t, count, goal, Tidy(pid, l), l.proc.attempt);
  }

  lemma FailedMade(cfg: Config, pid: Pid, l: Local, c: Choice, count: nat)
    requires ProcInv(cfg, pid, l) && Creating(cfg, pid, l) && !c.ok && l.proc.pc != Write(TClose) && l.proc.pc != Write(TOpen)
    ensures ComesTo(cfg, pid, StepLocal(cfg, pid, l, c), count,
                    Control(if c.retryable then Backoff else CloseParent(Raised)), GivenBack(pid, l), l.proc.attempt)
  {
    var t := StepLocal(cfg, pid, l, c);
    var primary := if c.retryable then Retryable else Fatal;
    var q := l.proc.(faults := l.proc.faults.(primary := primary));
    assert t == l.(proc := FailOs(l.proc, c));
    if l.proc.linked {
      assert t.proc == q.(pc := Undo(RStat));
      RollsBackAlone(cfg, pid, t, count);
    } else {
      assert t.proc == CleanUp(q);
      CleansUp(cfg, pid, t, q, count);
    }
  }

  // ----- Clean-up that fails -----

  /** A call of the clean-up or of a rollback is due. */
  predicate Undoing(l: Local) { l.proc.pc.Undo? }

  /** Once clean-up is in trouble the run is reported as failed, whatever comes next. */
  lemma TroubleIsReported(cfg: Config, pid: Pid, l: Local, c: Choice)
    requires l.proc.pc == Control(Decide) && !Untroubled(l.proc)
    ensures StepLocal(cfg, pid, l, c) == l.(proc := l.proc.(pc := Control(CloseParent(Raised))))
  {
  }

  /** A call of the clean-up that fails leaves its mark, or reports the failure at once. */
  lemma FailedCleanUp(cfg: Config, pid: Pid, l: Local, c: Choice)
    requires ProcInv(cfg, pid, l) && Undoing(l) && !c.ok
    ensures var t := StepLocal(cfg, pid, l, c);
            t.dir == l.dir && (!Untroubled(t.proc) || t.proc.pc == Control(CloseParent(Raised)))
  {
  }

  /** On the way to the verdict with a mark, or there already. */
  predicate Doomed(p: Proc) { p.pc == Control(CloseParent(Raised)) || (!Untroubled(p) && (p.pc.Undo? || p.pc == Control(Decide))) }

  /** The marks stay until the verdict. */
  lemma TroubleStays(cfg: Config, pid: Pid, l: Local, u: UPc, c: Choice)
    requires l.proc.pc == Undo(u) && !Untroubled(l.proc)
    ensures Doomed(StepUndo(pid, u, l, c).proc)
  {
    match u
    case RStat => CleanUpDooms(l.proc.(linked := false));
    case RUnlink => CleanUpDooms(l.proc.(linked := false));
    case _ =>
  }

  lemma CleanUpDooms(p: Proc)
    requires !Untroubled(p)
    ensures Doomed(CleanUp(p))
  {
  }

  // ----- Writes of any size -----

  /** Written in pieces of whatever size, the file is complete when it is synced. */
  lemma {:induction false} WritesOn(cfg: Config, pid: Pid, l: Local, count: nat) returns (steps: nat)
    requires count > 0 && l.proc.pc == Write(TWrite) && l.proc.file.Some? && l.proc.file.value in l.files
    requires l.files[l.proc.file.value].content <= cfg.payload(pid)
    ensures var t := Iterate(cfg, pid, l, count, steps);
            && t.proc == l.proc.(pc := Write(TFsync)) && t.dir == l.dir && t.files.Keys == l.files.Keys && t.next == l.next
            && t.files[l.proc.file.value].content == cfg.payload(pid)
            && t.files[l.proc.file.value].mode600 == l.files[l.proc.file.value].mode600
    decreases |cfg.payload(pid)| - |l.files[l.proc.file.value].content|
  {
    var i := l.proc.file.value;
    var content, payload := l.files[i].content, cfg.payload(pid);
    var m := StepLocal(cfg, pid, l, Good(count));
    if |content| == |payload| {
      steps := 1;
      OneStep(cfg, pid, l, count);
    } else {
      var end := if |content| + count <= |payload| then |content| + count else |payload|;
      assert m.files[i].content == content + payload[|content|..end] == payload[..end];
      var rest := WritesOn(cfg, pid, m, count);
      steps := 1 + rest;
      assert Iterate(cfg, pid, l, count, steps) == Iterate(cfg, pid, m, count, rest);
    }
  }

  /** From an opened temporary file to a closed one. */
  lemma FillsFile(cfg: Config, pid: Pid, l: Local, count: nat) returns (steps: nat)
    requires count > 0 && l.proc.pc == Write(TFstat1) && l.proc.file.Some? && l.proc.file.value in l.files
    requires l.files[l.proc.file.value].content == []
    ensures var t := Iterate(cfg, pid, l, count, steps);
            && t.proc == l.proc.(pc := Install(TLink), snapshot := l.proc.file, descriptorOpen := false)
            && t.dir == l.dir && t.files.Keys == l.files.Keys && Complete(cfg, pid, t.files[l.proc.file.value])
  {
    var l1 := StepLocal(cfg, pid, l, Good(count));
    var l2 := StepLocal(cfg, pid, l1, Good(count));
    assert l2.proc == l.proc.(pc := Write(TWrite), snapshot := l.proc.file);
    var n := WritesOn(cfg, pid, l2, count);
    var w := Iterate(cfg, pid, l2, count, n);
    SyncsAndCloses(cfg, pid, w, count);
    steps := 2 + n + 3;
    assert Iterate(cfg, pid, l, count, 2) == Iterate(cfg, pid, l1, count, 1);
    OneStep(cfg, pid, l1, count);
    RepeatAdd(Mover(cfg, pid, count), l, 2, n + 3);
    RepeatAdd(Mover(cfg, pid, count), l2, n, 3);
  }

  lemma SyncsAndCloses(cfg: Config, pid: Pid, l: Local, count: nat)
    requires l.proc.pc == Write(TFsync) && l.proc.file.Some? && l.proc.file.value in l.files
    requires Complete(cfg, pid, l.files[l.proc.file.value])
    ensures Iterate(cfg, pid, l, count, 3) ==
            l.(proc := l.proc.(pc := Install(TLink), snapshot := l.proc.file, descriptorOpen := false))
  {
    var l1 := StepLocal(cfg, pid, l, Good(count));
    var l2 := StepLocal(cfg, pid, l1, Good(count));
    assert Iterate(cfg, pid, l, count, 3) == Iterate(cfg, pid, l1, count, 2) == Iterate(cfg, pid, l2, count, 1);
    OneStep(cfg, pid, l2, count);
  }

  /** A creation attempt about to begin where no keyring and no other name is. */
  predicate Beginning(l: Local) {
    l.proc == Restart(l.proc.attempt) && l.dir == map[] && l.next !in l.files
  }

  /** Alone and without failures every attempt creates the keyring, in writes of any size. */
  lemma AttemptCreates(cfg: Config, pid: Pid, l: Local, count: nat)
    requires count > 0 && Beginning(l)
    ensures ComesTo(cfg, pid, l, count, Control(Finished(ReturnedTrue)), map[Dest := l.next], l.proc.attempt)
  {
    var m := StepLocal(cfg, pid, l, Good(count));
    assert m.proc.pc == Write(TFstat1) && m.dir == map[Temp(pid, l.proc.attempt) := l.next];
    var n := FillsFile(cfg, pid, m, count);
    var k := Iterate(cfg, pid, m, count, n);
    assert ReadyToLink(pid, k);
    Installs(cfg, pid, k, count);
    InstallsAttempt(cfg, pid, k, count);
    var goal := Control(Finished(ReturnedTrue));
    Here(cfg, pid, Iterate(cfg, pid, k, count, 8), count);
    After(cfg, pid, k, count, 8, goal, map[Dest := l.next], l.proc.attempt);
    After(cfg, pid, m, count, n, goal, map[Dest := l.next], l.proc.attempt);
    Next(cfg, pid, l, count, goal, map[Dest := l.next], l.proc.attempt);
  }

  /** Installing does not change the number of the attempt. */
  lemma InstallsAttempt(cfg: Config, pid: Pid, l: Local, count: nat)
    requires ReadyToLink(pid, l)
    ensures Iterate(cfg, pid, l, count, 8).proc.attempt == l.proc.attempt
  {
    Links(cfg, pid, l, count);
    var m := Iterate(cfg, pid, l, count, 4);
    RepeatAdd(Mover(cfg, pid, count), l, 4, 4);
    var l1 := StepLocal(cfg, pid, m, Good(count));
    var l2 := StepLocal(cfg, pid, l1, Good(count));
    var l3 := StepLocal(cfg, pid, l2, Good(count));
    assert l1.proc.attempt == l2.proc.attempt == l3.proc.attempt == m.proc.attempt;
    assert Iterate(cfg, pid, m, count, 4) == Iterate(cfg, pid, l1, count, 3) == Iterate(cfg, pid, l2, count, 2)
        == Iterate(cfg, pid, l3, count, 1);
    OneStep(cfg, pid, l3, count);
  }

  /**
   * A retryable failure is retried: whichever call of the first or second attempt fails,
   * the next attempt, undisturbed, creates the keyring.  After the third it is reported.
   */
  lemma RetryCreates(cfg: Config, pid: Pid, l: Local, retryable: bool, lost: nat, count: nat)
    requires ProcInv(cfg, pid, l) && Creating(cfg, pid, l) && MayRetry(l, retryable) && count > 0
    requires GivenBack(pid, l) == map[] && forall i :: i in l.files ==> i < l.next
    ensures exists n: nat ::
              var t := Iterate(cfg, pid, StepLocal(cfg, pid, l, Choice(false, retryable, lost)), count, n);
              if l.proc.attempt + 1 < CREATE_ATTEMPTS
              then t.proc.pc == Control(Finished(ReturnedTrue)) && t.dir.Keys == {Dest}
              else t.proc.pc == Control(Finished(Raised)) && t.dir == map[]
  {
    var t := StepLocal(cfg, pid, l, Choice(false, retryable, lost));
    FailedCall(cfg, pid, l, retryable, lost, count);
    var n: nat :| var u := Iterate(cfg, pid, t, count, n);
                  u.proc.pc == Control(Backoff) && u.dir == map[] && u.proc.attempt == l.proc.attempt;
    var u := Iterate(cfg, pid, t, count, n);
    FreshInodes(cfg, pid, t, count, n);
    var v := StepLocal(cfg, pid, u, Good(count));
    if l.proc.attempt + 1 < CREATE_ATTEMPTS {
      assert v == u.(proc := Restart(l.proc.attempt + 1));
      AttemptCreates(cfg, pid, v, count);
      Next(cfg, pid, u, count, Control(Finished(ReturnedTrue)), map[Dest := v.next], v.proc.attempt);
      After(cfg, pid, t, count, n, Control(Finished(ReturnedTrue)), map[Dest := v.next], v.proc.attempt);
    } else {
      var w := StepLocal(cfg, pid, v, Good(count));
      assert w.proc.pc == Control(Finished(Raised)) && w.dir == map[];
      Here(cfg, pid, w, count);
      Next(cfg, pid, v, count, Control(Finished(Raised)), map[], w.proc.attempt);
      Next(cfg, pid, u, count, Control(Finished(Raised)), map[], w.proc.attempt);
      After(cfg, pid, t, count, n, Control(Finished(Raised)), map[], w.proc.attempt);
    }
  }

  predicate InodesBelow(l: Local) { forall i :: i in l.files ==> i < l.next }

  lemma InodesStep(cfg: Config, pid: Pid, l: Local, c: Choice)
    requires InodesBelow(l)
    ensures InodesBelow(StepLocal(cfg, pid, l, c))
  {
    match l.proc.pc
    case Write(w) => InodesWrite(cfg, pid, l, w, c);
    case Install(i) => InodesInstall(pid, l, i, c);
    case Undo(u) => InodesUndo(pid, l, u, c);
    case Validate(v) => InodesValidate(cfg, l, v, c);
    case Control(_) =>
  }

  lemma InodesWrite(cfg: Config, pid: Pid, l: Local, w: WPc, c: Choice)
    requires InodesBelow(l)
    ensures InodesBelow(StepWrite(cfg, pid, w, l, c))
  {
  }

  lemma InodesInstall(pid: Pid, l: Local, i: IPc, c: Choice)
    requires InodesBelow(l)
    ensures InodesBelow(StepInstall(pid, i, l, c))
  {
  }

  lemma InodesUndo(pid: Pid, l: Local, u: UPc, c: Choice)
    requires InodesBelow(l)
    ensures InodesBelow(StepUndo(pid, u, l, c))
  {
  }

  lemma InodesValidate(cfg: Config, l: Local, v: VPc, c: Choice)
    requires InodesBelow(l)
    ensures InodesBelow(StepValidate(cfg, v, l, c))
  {
  }

  lemma {:induction false} FreshInodes(cfg: Config, pid: Pid, l: Local, count: nat, n: nat)
    requires InodesBelow(l)
    ensures InodesBelow(Iterate(cfg, pid, l, count, n))
    decreases n
  {
    if n > 0 {
      InodesStep(cfg, pid, l, Good(count));
      FreshInodes(cfg, pid, StepLocal(cfg, pid, l, Good(count)), count, n - 1);
    }
  }

  /** From the very start, on an empty directory, in writes of any size. */
  lemma SoloCreatesInPieces(cfg: Config, s: Sys, pid: Pid, count: nat)
    requires Initial(s) && Dest !in s.dir && pid in s.procs && ValidPayload(cfg, cfg.payload(pid)) && count > 0
    ensures exists n: nat :: Returned(Run(cfg, s, Solo(pid, count, n)), pid, ReturnedTrue)
                             && Run(cfg, s, Solo(pid, count, n)).dir == map[Dest := s.next]
  {
    assert s.dir == map[];
    var l := At(s, pid);
    var l1 := StepLocal(cfg, pid, l, Good(count));
    var l2 := StepLocal(cfg, pid, l1, Good(count));
    var l3 := StepLocal(cfg, pid, l2, Good(count));
    assert l3 == l.(proc := Restart(0));
    var goal := Control(Finished(ReturnedTrue));
    AttemptCreates(cfg, pid, l3, count);
    Next(cfg, pid, l2, count, goal, map[Dest := s.next], 0);
    Next(cfg, pid, l1, count, goal, map[Dest := s.next], 0);
    Next(cfg, pid, l, count, goal, map[Dest := s.next], 0);
    var n: nat :| var t := Iterate(cfg, pid, l, count, n); t.proc.pc == goal && t.dir == map[Dest := s.next] && t.proc.attempt == 0;
    SoloIsIterate(cfg, s, pid, count, n);
  }

  /** When the directory turns out to have changed after the keyring was installed, the keyring is taken back. */
  lemma ParentChanged(cfg: Config, pid: Pid, l: Local, c: Choice, count: nat)
    requires ProcInv(cfg, pid, l) && l.proc.pc == Control(AssertParent(ReturnedTrue)) && !c.ok
    ensures ComesTo(cfg, pid, StepLocal(cfg, pid, l, c), count, Control(CloseParent(Raised)), l.dir - {Dest}, l.proc.attempt)
  {
    var t := StepLocal(cfg, pid, l, c);
    assert t == l.(proc := l.proc.(pc := Undo(PStat)));
    var m := StepLocal(cfg, pid, t, Good(count));
    assert m == l.(proc := l.proc.(pc := Undo(PUnlink)));
    var k := StepLocal(cfg, pid, m, Good(count));
    Here(cfg, pid, k, count);
    Next(cfg, pid, m, count, Control(CloseParent(Raised)), l.dir - {Dest}, l.proc.attempt);
    Next(cfg, pid, t, count, Control(CloseParent(Raised)), l.dir - {Dest}, l.proc.attempt);
  }

  // ----- A failed clean-up is reported, whatever the others do -----

  predicate Failing(p: Proc) { Doomed(p) || p.pc == Control(Finished(Raised)) }

  lemma FailingStep(cfg: Config, pid: Pid, l: Local, c: Choice)
    requires Failing(l.proc)
    ensures Failing(StepLocal(cfg, pid, l, c).proc)
  {
    match l.proc.pc
    case Undo(u) => TroubleStays(cfg, pid, l, u, c);
    case Control(_) =>
  }

  /** In every later state of every run such a process is still on its way to raising, or has raised. */
  lemma {:induction false} FailingStays(cfg: Config, s: Sys, pid: Pid, schedule: Schedule)
    requires pid in s.procs && Failing(s.procs[pid])
    ensures pid in Run(cfg, s, schedule).procs && Failing(Run(cfg, s, schedule).procs[pid])
    decreases |schedule|
  {
    if schedule != [] {
      var (q, c) := schedule[0];
      if q == pid {
        FailingStep(cfg, pid, At(s, pid), c);
      }
      FailingStays(cfg, Step(cfg, s, q, c), pid, schedule[1..]);
    }
  }

  // ----- Validation -----

  /** A process on its own, meeting these answers. */
  function Play(cfg: Config, pid: Pid, l: Local, answers: seq<Choice>): Local
    decreases |answers|
  {
    if answers == [] then l else Play(cfg, pid, StepLocal(cfg, pid, l, answers[0]), answers[1..])
  }

  /** The calls that validation still makes, the check of the directory and its close included. */
  function CallsLeft(v: VPc): nat {
    match v
    case VOpen(_) => 9
    case VFstat => 8
    case VStat1 => 7
    case VRead => 6
    case VStat2 => 5
    case VChmod => 4
    case VStat3 => 3
  }

  predicate AllSucceed(answers: seq<Choice>, n: nat) { forall k :: 0 <= k < n && k < |answers| ==> answers[k].ok }

  /** What has been seen so far of the file at the destination. */
  predicate Viewing(cfg: Config, l: Local, v: VPc, i: Inode) {
    && Same(l.dir, Dest, i) && i in l.files
    && (!v.VOpen? ==> l.proc.view.target == i)
    && (v.VStat1? || v.VRead? || v.VStat2? ==> l.proc.view.stamp == l.files[i].stamp)
    && (v.VStat2? ==> l.proc.view.seen == l.files[i].content)
    && (v.VChmod? || v.VStat3? ==> ValidPayload(cfg, l.files[i].content))
  }

  lemma AllSucceedStep(answers: seq<Choice>, n: nat)
    requires answers != [] && n > 0
    ensures AllSucceed(answers, n) <==> answers[0].ok && AllSucceed(answers[1..], n - 1)
  {
    if answers[0].ok && AllSucceed(answers[1..], n - 1) {
      assert forall k :: 0 < k < n && k < |answers| ==> answers[k] == answers[1..][k - 1];
    }
    if AllSucceed(answers, n) {
      assert forall k :: 0 <= k < |answers[1..]| ==> answers[1..][k] == answers[k + 1];
    }
  }

  lemma {:induction false} RaisedEnds(cfg: Config, pid: Pid, l: Local, answers: seq<Choice>)
    requires (l.proc.pc == Control(CloseParent(Raised)) && answers != []) || l.proc.pc == Control(Finished(Raised))
    ensures Play(cfg, pid, l, answers).proc.pc == Control(Finished(Raised)) && Play(cfg, pid, l, answers).dir == l.dir
    decreases |answers|
  {
    if answers != [] {
      RaisedEnds(cfg, pid, StepLocal(cfg, pid, l, answers[0]), answers[1..]);
    }
  }

  lemma {:induction false} FinishedPlays(cfg: Config, pid: Pid, l: Local, answers: seq<Choice>)
    requires l.proc.pc.Control? && l.proc.pc.k.Finished?
    ensures Play(cfg, pid, l, answers) == l
    decreases |answers|
  {
    if answers != [] {
      FinishedPlays(cfg, pid, l, answers[1..]);
    }
  }

  lemma ReturnsFalse(cfg: Config, pid: Pid, l: Local, answers: seq<Choice>)
    requires l.proc.pc == Control(AssertParent(ReturnedFalse)) && |answers| >= 2
    ensures var t := Play(cfg, pid, l, answers);
            t.proc.pc == Control(Finished(if AllSucceed(answers, 2) then ReturnedFalse else Raised)) && t.dir == l.dir
  {
    var m := StepLocal(cfg, pid, l, answers[0]);
    AllSucceedStep(answers, 2);
    AllSucceedStep(answers[1..], 1);
    if answers[0].ok {
      var k := StepLocal(cfg, pid, m, answers[1..][0]);
      FinishedPlays(cfg, pid, k, answers[1..][1..]);
      assert Play(cfg, pid, l, answers) == Play(cfg, pid, m, answers[1..]) == Play(cfg, pid, k, answers[1..][1..]);
    } else {
      RaisedEnds(cfg, pid, m, answers[1..]);
    }
  }

  function NextLook(v: VPc): VPc
    requires !v.VStat3?
  {
    match v
    case VOpen(_) => VFstat
    case VFstat => VStat1
    case VStat1 => VRead
    case VRead => VStat2
    case VStat2 => VChmod
    case VChmod => VStat3
  }

  /** One call of validation, undisturbed: it goes on, or it raises because it failed or the payload is not valid. */
  lemma Looks(cfg: Config, pid: Pid, l: Local, v: VPc, i: Inode, c: Choice)
    requires l.proc.pc == Validate(v) && Viewing(cfg, l, v, i)
    ensures var t := StepLocal(cfg, pid, l, c);
            && t.dir == l.dir
            && (!c.ok ==> t.proc.pc == Control(CloseParent(Raised)))
            && (c.ok && v.VStat3? ==> t.proc.pc == Control(AssertParent(ReturnedFalse)))
            && (c.ok && !v.VStat3? && t.proc.pc == Validate(NextLook(v)) ==>
                  Viewing(cfg, t, NextLook(v), i) && t.files[i].content == l.files[i].content)
            && (c.ok && !v.VStat3? && t.proc.pc != Validate(NextLook(v)) ==>
                  t.proc.pc == Control(CloseParent(Raised)) && !ValidPayload(cfg, l.files[i].content))
            && (v.VChmod? || v.VStat3? ==> ValidPayload(cfg, l.files[i].content))
  {
  }

  /**
   * Alone with an existing keyring, whatever fails: an initializer returns False exactly
   * when every call succeeds and the payload is valid, and raises otherwise; the
   * directory stays as it is.
   */
  lemma {:induction false} ValidationIff(cfg: Config, pid: Pid, l: Local, v: VPc, i: Inode, answers: seq<Choice>)
    requires l.proc.pc == Validate(v) && Viewing(cfg, l, v, i) && |answers| >= CallsLeft(v)
    ensures var t := Play(cfg, pid, l, answers);
            && t.proc.pc == Control(Finished(if AllSucceed(answers, CallsLeft(v)) && ValidPayload(cfg, l.files[i].content) then ReturnedFalse else Raised))
            && t.dir == l.dir
    decreases CallsLeft(v)
  {
    var m := StepLocal(cfg, pid, l, answers[0]);
    Looks(cfg, pid, l, v, i, answers[0]);
    AllSucceedStep(answers, CallsLeft(v));
    if m.proc.pc == Control(CloseParent(Raised)) {
      RaisedEnds(cfg, pid, m, answers[1..]);
    } else if v.VStat3? {
      ReturnsFalse(cfg, pid, m, answers[1..]);
    } else {
      ValidationIff(cfg, pid, m, NextLook(v), i, answers[1..]);
    }
  }

  /** The same from the very start, with the call that opens the directory. */
  lemma ExistingIff(cfg: Config, pid: Pid, l: Local, answers: seq<Choice>)
    requires l.proc == FRESH && Dest in l.dir && l.dir[Dest] in l.files && |answers| >= 10
    ensures var t := Play(cfg, pid, l, answers);
            && t.proc.pc == Control(Finished(if AllSucceed(answers, 10) && ValidPayload(cfg, l.files[l.dir[Dest]].content) then ReturnedFalse else Raised))
            && t.dir == l.dir
  {
    var m := StepLocal(cfg, pid, l, answers[0]);
    AllSucceedStep(answers, 10);
    if answers[0].ok {
      ValidationIff(cfg, pid, m, VOpen(false), l.dir[Dest], answers[1..]);
    } else {
      RaisedEnds(cfg, pid, m, answers[1..]);
    }
  }

  /** A file that was touched while it was being read is refused, even if its payload is valid. */
  lemma TouchedIsRefused(cfg: Config, pid: Pid, l: Local, c: Choice)
    requires l.proc.pc == Validate(VStat2) && l.proc.view.target in l.files
    requires l.files[l.proc.view.target].stamp != l.proc.view.stamp || !Same(l.dir, Dest, l.proc.view.target)
    ensures StepLocal(cfg, pid, l, c) == l.(proc := l.proc.(pc := Control(CloseParent(Raised))))
  {
  }

  /** Each of the three looks at the name refuses a keyring that was removed or replaced since it was opened. */
  lemma MovedIsRefused(cfg: Config, pid: Pid, l: Local, v: VPc, c: Choice)
    requires l.proc.pc == Validate(v) && (v.VStat1? || v.VStat2? || v.VStat3?) && !Same(l.dir, Dest, l.proc.view.target)
    ensures StepLocal(cfg, pid, l, c) == l.(proc := l.proc.(pc := Control(CloseParent(Raised))))
  {
  }

  /** Without a keyring the first look goes on to create one, and the look after a lost race reports that it is gone. */
  lemma NothingThere(cfg: Config, pid: Pid, l: Local, second: bool, c: Choice)
    requires l.proc.pc == Validate(VOpen(second)) && Dest !in l.dir
    ensures StepLocal(cfg, pid, l, c) ==
            l.(proc := l.proc.(pc := if c.ok && !second then Write(NewPayload) else Control(CloseParent(Raised))))
  {
  }

  // ----- The loser of a race -----

  lemma {:induction false} PlayIsIterate(cfg: Config, pid: Pid, l: Local, count: nat, n: nat)
    ensures Play(cfg, pid, l, seq(n, k => Good(count))) == Iterate(cfg, pid, l, count, n)
    decreases n
  {
    if n > 0 {
      var answers := seq(n, k => Good(count));
      assert answers[1..] == seq(n - 1, k => Good(count));
      PlayIsIterate(cfg, pid, StepLocal(cfg, pid, l, Good(count)), count, n - 1);
    }
  }

  /** The process's steps leave the content of other files alone. */
  lemma {:induction false} OtherContent(cfg: Config, pid: Pid, l: Local, count: nat, n: nat, i: Inode)
    requires Before(cfg, pid, l) && i in l.files && l.proc.file != Some(i)
    ensures var t := Iterate(cfg, pid, l, count, n); i in t.files && t.files[i].content == l.files[i].content
    decreases n
  {
    if n > 0 {
      var m := StepLocal(cfg, pid, l, Good(count));
      LocalStep(cfg, pid, l, Good(count));
      InodesStep(cfg, pid, l, Good(count));
      OtherContent(cfg, pid, m, count, n - 1, i);
    }
  }

  /**
   * An initializer that finds another's keyring where it was about to link its own
   * removes its temporary file, validates that keyring, and returns False.
   */
  lemma LoserKeeps(cfg: Config, pid: Pid, l: Local, count: nat)
    requires Before(cfg, pid, l) && l.proc.pc == Install(TLink)
    requires Dest in l.dir && l.dir[Dest] in l.files && l.proc.file != Some(l.dir[Dest]) && ValidPayload(cfg, l.files[l.dir[Dest]].content)
    ensures ComesTo(cfg, pid, l, count, Control(Finished(ReturnedFalse)), Tidy(pid, l), l.proc.attempt)
  {
    var i := l.dir[Dest];
    var m := StepLocal(cfg, pid, l, Good(count));
    var q := l.proc.(faults := l.proc.faults.(primary := DestinationAppeared));
    assert m == l.(proc := CleanUp(q));
    CleansUp(cfg, pid, m, q, count);
    LocalStep(cfg, pid, l, Good(count));
    var n: nat :| var t := Iterate(cfg, pid, m, count, n);
                  t.proc.pc == Validate(VOpen(true)) && t.dir == Tidy(pid, l) && t.proc.attempt == l.proc.attempt;
    OtherContent(cfg, pid, m, count, n, i);
    var t := Iterate(cfg, pid, m, count, n);
    assert Dest in Tidy(pid, l) && Tidy(pid, l)[Dest] == i;
    ValidatesAlone(cfg, pid, t, count, i);
    After(cfg, pid, m, count, n, Control(Finished(ReturnedFalse)), Tidy(pid, l), l.proc.attempt);
    Next(cfg, pid, l, count, Control(Finished(ReturnedFalse)), Tidy(pid, l), l.proc.attempt);
  }

  lemma ValidatesAlone(cfg: Config, pid: Pid, l: Local, count: nat, i: Inode)
    requires l.proc.pc == Validate(VOpen(true)) && Same(l.dir, Dest, i) && i in l.files && ValidPayload(cfg, l.files[i].content)
    ensures ComesTo(cfg, pid, l, count, Control(Finished(ReturnedFalse)), l.dir, l.proc.attempt)
  {
    ValidationIff(cfg, pid, l, VOpen(true), i, seq(9, k => Good(count)));
    PlayIsIterate(cfg, pid, l, count, 9);
    SameAttempt(cfg, pid, l, count, 9);
  }

  /** Validating an existing keyring, and the rest of the way to returning False. */
  predicate Looking(l: Local) {
    match l.proc.pc
    case Validate(_) => Dest in l.dir
    case Control(AssertParent(outcome)) => outcome != ReturnedTrue
    case Control(CloseParent(_)) => true
    case Control(Finished(_)) => true
    case _ => false
  }

  lemma StillLooking(cfg: Config, pid: Pid, l: Local, c: Choice)
    requires Looking(l)
    ensures var t := StepLocal(cfg, pid, l, c); Looking(t) && t.proc.attempt == l.proc.attempt
  {
    if l.proc.pc.Validate? {
      LooksOn(cfg, l, l.proc.pc.v, c);
    }
  }

  lemma LooksOn(cfg: Config, l: Local, v: VPc, c: Choice)
    requires Dest in l.dir
    ensures var t := StepValidate(cfg, v, l, c); Looking(t) && t.proc.attempt == l.proc.attempt
  {
  }

  /** Validating does not begin another attempt. */
  lemma {:induction false} SameAttempt(cfg: Config, pid: Pid, l: Local, count: nat, n: nat)
    requires Looking(l)
    ensures Iterate(cfg, pid, l, count, n).proc.attempt == l.proc.attempt
    decreases n
  {
    if n > 0 {
      StillLooking(cfg, pid, l, Good(count));
      SameAttempt(cfg, pid, StepLocal(cfg, pid, l, Good(count)), count, n - 1);
    }
  }

  // ----- What is installed is valid -----

  /** A process has gone past the check of the payload it generated. */
  predicate PastCheck(p: Proc) {
    || (p.pc.Write? && p.pc.w != NewPayload) || p.pc.Install? || (p.pc.Undo? && !p.pc.u.PStat? && !p.pc.u.PUnlink?)
    || p.pc == Control(Decide) || p.pc == Control(Backoff) || p.created || p.linked
  }

  predicate Checked(cfg: Config, pid: Pid, p: Proc) { PastCheck(p) ==> ValidPayload(cfg, cfg.payload(pid)) }

  lemma CheckedStep(cfg: Config, pid: Pid, l: Local, c: Choice)
    requires Checked(cfg, pid, l.proc)
    ensures Checked(cfg, pid, StepLocal(cfg, pid, l, c).proc)
  {
    match l.proc.pc
    case Write(w) => CheckedWrite(cfg, pid, l, w, c);
    case Undo(u) => CheckedUndo(cfg, pid, l, u, c);
    case Validate(v) => CheckedValidate(cfg, pid, l, v, c);
    case _ =>
  }

  lemma CheckedWrite(cfg: Config, pid: Pid, l: Local, w: WPc, c: Choice)
    requires l.proc.pc == Write(w) && Checked(cfg, pid, l.proc)
    ensures Checked(cfg, pid, StepWrite(cfg, pid, w, l, c).proc)
  {
  }

  lemma CheckedUndo(cfg: Config, pid: Pid, l: Local, u: UPc, c: Choice)
    requires l.proc.pc == Undo(u) && Checked(cfg, pid, l.proc)
    ensures Checked(cfg, pid, StepUndo(pid, u, l, c).proc)
  {
  }

  lemma CheckedValidate(cfg: Config, pid: Pid, l: Local, v: VPc, c: Choice)
    requires l.proc.pc == Validate(v) && Checked(cfg, pid, l.proc)
    ensures Checked(cfg, pid, StepValidate(cfg, v, l, c).proc)
  {
  }

  predicate AllChecked(cfg: Config, s: Sys) { forall pid :: pid in s.procs ==> Checked(cfg, pid, s.procs[pid]) }

  lemma {:induction false} AllCheckedRun(cfg: Config, s: Sys, schedule: Schedule)
    requires AllChecked(cfg, s)
    ensures AllChecked(cfg, Run(cfg, s, schedule))
    decreases |schedule|
  {
    if schedule != [] {
      var (pid, c) := schedule[0];
      if pid in s.procs {
        CheckedStep(cfg, pid, At(s, pid), c);
      }
      AllCheckedRun(cfg, Step(cfg, s, pid, c), schedule[1..]);
    }
  }

  /** No run ever installs a keyring that validation would refuse. */
  lemma InstalledIsValid(cfg: Config, s: Sys, schedule: Schedule)
    requires Initial(s) && Dest !in s.dir
    ensures var t := Run(cfg, s, schedule);
            Dest in t.dir ==> t.dir[Dest] in t.files && ValidPayload(cfg, t.files[t.dir[Dest]].content)
  {
    InvInitial(cfg, s);
    InvRun(cfg, BaseOf(s), s, schedule);
    AllCheckedRun(cfg, s, schedule);
    var t := Run(cfg, s, schedule);
    if Dest in t.dir {
      var pid :| pid in t.procs && t.procs[pid].linked && t.procs[pid].file == Some(t.dir[Dest]);
      assert OwnInv(cfg, pid, At(t, pid));
    }
  }
}
