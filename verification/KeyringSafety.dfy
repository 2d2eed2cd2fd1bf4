/**
 * Safety of the keyring installation, over every interleaving and every failure.
 *
 * The proof is rely-guarantee: what a process knows of itself (`ProcInv`) survives
 * the others because each step only does what `Guarantee` allows.
 */
module KeyringSafety {
  import opened Prelude
  import opened Keyring

  predicate Complete(cfg: Config, pid: Pid, f: File) {
    f.content == cfg.payload(pid) && f.mode600
  }

  predicate HasTemp(pid: Pid, l: Local) { Temp(pid, l.proc.attempt) in l.dir }

  predicate Idle(pid: Pid, l: Local) { !l.proc.linked && !HasTemp(pid, l) }

  predicate Clean(p: Proc) {
    p.faults == NO_FAULTS
  }

  predicate HasFile(l: Local) { l.proc.file.Some? && l.proc.file.value in l.files }

  /** The temporary file exists, is open, and nothing has failed. */
  predicate Draft(pid: Pid, l: Local) {
    && l.proc.created && l.proc.descriptorOpen && !l.proc.linked && Clean(l.proc)
    && HasFile(l) && HasTemp(pid, l)
  }

  predicate Full(cfg: Config, pid: Pid, l: Local) {
    HasFile(l) && l.proc.snapshot.Some? && Complete(cfg, pid, l.files[l.proc.file.value])
  }

  /** After clean-up began: success keeps the link, failure gave it back or says it could not. */
  predicate Settled(p: Proc) {
    && (p.faults.primary == NoError ==> p.linked && !p.faults.rollbackFailed)
    && (p.faults.primary != NoError && !p.faults.rollbackFailed ==> !p.linked)
  }

  /** What the program counter tells. */
  predicate PcInv(cfg: Config, pid: Pid, l: Local) {
    match l.proc.pc
    case Validate(v) => Idle(pid, l) && (v.VChmod? || v.VStat3? ==> ValidPayload(cfg, l.proc.view.seen))
    case Write(w) => WriteInv(cfg, pid, w, l)
    case Install(i) => InstallInv(cfg, pid, i, l)
    case Undo(u) => UndoInv(pid, u, l)
    case Control(k) => ControlInv(cfg, pid, k, l)
  }

  predicate WriteInv(cfg: Config, pid: Pid, w: WPc, l: Local) {
    var p := l.proc;
    match w
    case NewPayload => Idle(pid, l)
    case TOpen => Idle(pid, l) && Clean(p) && !p.created && !p.descriptorOpen && p.snapshot == None
    case TFstat1 => Draft(pid, l) && p.snapshot == None && l.files[p.file.value].content == []
    case TChmod => Draft(pid, l) && p.snapshot.Some? && l.files[p.file.value].content == []
    case TWrite =>
      Draft(pid, l) && p.snapshot.Some? && l.files[p.file.value].mode600 && l.files[p.file.value].content <= cfg.payload(pid)
    case _ => Draft(pid, l) && Full(cfg, pid, l)
  }

  predicate InstallInv(cfg: Config, pid: Pid, i: IPc, l: Local) {
    var p := l.proc;
    && Clean(p) && p.created && !p.descriptorOpen && Full(cfg, pid, l)
    && (p.linked <==> !i.TLink?)
    && (HasTemp(pid, l) <==> i.TLink? || i.TUnlink?)
  }

  predicate UndoInv(pid: Pid, u: UPc, l: Local) {
    var p := l.proc;
    var f := p.faults;
    if u.PStat? || u.PUnlink? then p.linked && !HasTemp(pid, l)
    else
      && p.created
      && (u.RStat? || u.RUnlink? ==> p.linked && f.primary != NoError && !f.rollbackFailed && !f.cleanupFailed && !p.descriptorOpen)
      && (u.CFstat? || u.CClose? ==> !p.linked && f.primary != NoError && !f.rollbackFailed)
      && (u.CFstat? ==> p.snapshot == None && !f.cleanupFailed)
      && (u.CClose? ==> f.cleanupFailed || p.snapshot.Some?)
      && (u.CStat? || u.CUnlink? ==> p.snapshot.Some? && !f.cleanupFailed && Settled(p))
  }

  predicate ControlInv(cfg: Config, pid: Pid, k: KPc, l: Local) {
    match k
    case OpenParent => Idle(pid, l)
    case Decide => Settled(l.proc) && (l.proc.faults.cleanupFailed || !HasTemp(pid, l))
    case Backoff => Idle(pid, l)
    case AssertParent(outcome) => Returning(cfg, pid, l, outcome)
    case CloseParent(outcome) => Returning(cfg, pid, l, outcome)
    case Finished(outcome) => Returning(cfg, pid, l, outcome)
  }

  predicate Returning(cfg: Config, pid: Pid, l: Local, outcome: Outcome) {
    match outcome
    case ReturnedTrue => l.proc.linked && !HasTemp(pid, l)
    case ReturnedFalse => Idle(pid, l) && ValidPayload(cfg, l.proc.view.seen)
    case Raised => true
  }

  /** What a process knows about its own files, whatever its program counter. */
  ghost predicate OwnInv(cfg: Config, pid: Pid, l: Local) {
    var p := l.proc;
    && p.attempt < CREATE_ATTEMPTS
    && (p.file.Some? ==> HasFile(l))
    && (p.snapshot.Some? ==> p.snapshot == p.file)
    && (p.created ==> p.file.Some?)
    && (p.linked ==> Full(cfg, pid, l) && Same(l.dir, Dest, p.file.value))
    && (forall a :: Temp(pid, a) in l.dir ==> a == p.attempt && p.file == Some(l.dir[Temp(pid, a)]))
  }

  ghost predicate ProcInv(cfg: Config, pid: Pid, l: Local) { OwnInv(cfg, pid, l) && PcInv(cfg, pid, l) }

  /** What a step of one process may do to the directory shared with the others. */
  ghost predicate Guarantee(pid: Pid, s: Local, t: Local) {
    && s.next <= t.next
    && (forall name :: name in s.dir || name in t.dir ==>
          || (name in s.dir && name in t.dir && s.dir[name] == t.dir[name])
          || (name.Temp? && name.pid == pid)
          || name == Dest)
    && (forall i :: i in s.files ==>
          && i in t.files
          && (s.files[i].mode600 ==> t.files[i].mode600)
          && (t.files[i].content == s.files[i].content || (s.proc.file == Some(i) && !s.proc.linked)))
    && (forall i :: i in t.files && i !in s.files ==> i == s.next && s.next < t.next)
    && (t.proc.file == s.proc.file || t.proc.file == None || (t.proc.file == Some(s.next) && s.next < t.next))
  }

  /** The destination entry changes only by this process linking its file, or unlinking it. */
  predicate DestGuarantee(s: Local, t: Local) {
    || ((Dest in s.dir <==> Dest in t.dir) && (Dest in s.dir ==> s.dir[Dest] == t.dir[Dest]) && (s.proc.linked <==> t.proc.linked))
    || (Dest !in s.dir && Dest in t.dir && t.proc.linked && !s.proc.linked && t.proc.file == s.proc.file)
    || (Dest in s.dir && Dest !in t.dir && s.proc.linked && !t.proc.linked)
  }

  ghost predicate Steps(cfg: Config, pid: Pid, s: Local, t: Local) {
    ProcInv(cfg, pid, t) && Guarantee(pid, s, t) && DestGuarantee(s, t)
  }

  ghost predicate Before(cfg: Config, pid: Pid, s: Local) {
    ProcInv(cfg, pid, s) && forall i :: i in s.files ==> i < s.next
  }

  predicate SameOwn(p: Proc, q: Proc) {
    q.attempt == p.attempt && q.file == p.file && q.linked == p.linked && q.created == p.created
    && (q.snapshot == p.snapshot || q.snapshot == p.file)
  }

  /** A step that leaves the shared state alone keeps everything but the program counter's part. */
  lemma Quiet(cfg: Config, pid: Pid, s: Local, t: Local)
    requires Before(cfg, pid, s)
    requires t == s.(proc := t.proc) && SameOwn(s.proc, t.proc)
    ensures OwnInv(cfg, pid, t) && Guarantee(pid, s, t) && DestGuarantee(s, t)
  {
  }

  /** So does a step that starts over with nothing on disk. */
  lemma QuietRestart(cfg: Config, pid: Pid, s: Local, attempt: nat)
    requires Before(cfg, pid, s) && Idle(pid, s) && attempt < CREATE_ATTEMPTS
    ensures var t := s.(proc := Restart(attempt)); OwnInv(cfg, pid, t) && Guarantee(pid, s, t) && DestGuarantee(s, t)
    ensures !HasTemp(pid, s.(proc := Restart(attempt)))
  {
  }

  /** A step that leaves the shared state alone, as far as the program counter allows. */
  predicate LeavesAlone(s: Local, t: Local) { t == s.(proc := t.proc) && SameOwn(s.proc, t.proc) }

  lemma QuietSteps(cfg: Config, pid: Pid, s: Local, t: Local)
    requires Before(cfg, pid, s) && LeavesAlone(s, t) && PcInv(cfg, pid, t)
    ensures Steps(cfg, pid, s, t)
  {
    Quiet(cfg, pid, s, t);
  }

  lemma LookLocal(cfg: Config, pid: Pid, v: VPc, s: Local, c: Choice)
    requires Before(cfg, pid, s) && s.proc.pc == Validate(v) && (v.VOpen? || v.VFstat? || v.VStat1?)
    ensures Steps(cfg, pid, s, StepValidate(cfg, v, s, c))
  {
    QuietSteps(cfg, pid, s, StepValidate(cfg, v, s, c));
  }

  lemma CheckLocal(cfg: Config, pid: Pid, v: VPc, s: Local, c: Choice)
    requires Before(cfg, pid, s) && s.proc.pc == Validate(v) && (v.VRead? || v.VStat2? || v.VStat3?)
    ensures Steps(cfg, pid, s, StepValidate(cfg, v, s, c))
  {
    QuietSteps(cfg, pid, s, StepValidate(cfg, v, s, c));
  }

  lemma SecureLocal(cfg: Config, pid: Pid, s: Local, c: Choice)
    requires Before(cfg, pid, s) && s.proc.pc == Validate(VChmod)
    ensures Steps(cfg, pid, s, StepValidate(cfg, VChmod, s, c))
  {
  }

  lemma WriteLocal(cfg: Config, pid: Pid, w: WPc, s: Local, c: Choice)
    requires Before(cfg, pid, s) && s.proc.pc == Write(w) && !w.NewPayload? && !w.TOpen? && !w.TChmod? && !w.TWrite?
    ensures Steps(cfg, pid, s, StepWrite(cfg, pid, w, s, c))
  {
    QuietSteps(cfg, pid, s, StepWrite(cfg, pid, w, s, c));
  }

  lemma NewPayloadLocal(cfg: Config, pid: Pid, s: Local, c: Choice)
    requires Before(cfg, pid, s) && s.proc.pc == Write(NewPayload)
    ensures Steps(cfg, pid, s, StepWrite(cfg, pid, NewPayload, s, c))
  {
    if ValidPayload(cfg, cfg.payload(pid)) {
      QuietRestart(cfg, pid, s, 0);
    }
  }

  lemma OpenLocal(cfg: Config, pid: Pid, s: Local, c: Choice)
    requires Before(cfg, pid, s) && s.proc.pc == Write(TOpen)
    ensures Steps(cfg, pid, s, StepWrite(cfg, pid, TOpen, s, c))
  {
  }

  lemma ChmodLocal(cfg: Config, pid: Pid, s: Local, c: Choice)
    requires Before(cfg, pid, s) && s.proc.pc == Write(TChmod)
    ensures Steps(cfg, pid, s, StepWrite(cfg, pid, TChmod, s, c))
  {
  }

  /** More bytes of the payload, into a file that no one else has linked. */
  lemma BytesApart(cfg: Config, pid: Pid, s: Local, c: Choice)
    requires Before(cfg, pid, s) && s.proc.pc == Write(TWrite)
    requires StepWrite(cfg, pid, TWrite, s, c).files != s.files
    ensures var t := StepWrite(cfg, pid, TWrite, s, c); Guarantee(pid, s, t) && DestGuarantee(s, t)
  {
  }

  lemma BytesLocal(cfg: Config, pid: Pid, s: Local, c: Choice)
    requires Before(cfg, pid, s) && s.proc.pc == Write(TWrite)
    requires StepWrite(cfg, pid, TWrite, s, c).files != s.files
    ensures Steps(cfg, pid, s, StepWrite(cfg, pid, TWrite, s, c))
  {
    BytesApart(cfg, pid, s, c);
    var t := StepWrite(cfg, pid, TWrite, s, c);
    assert t == s.(files := t.files) && t.files.Keys == s.files.Keys;
  }

  lemma AppendLocal(cfg: Config, pid: Pid, s: Local, c: Choice)
    requires Before(cfg, pid, s) && s.proc.pc == Write(TWrite)
    ensures Steps(cfg, pid, s, StepWrite(cfg, pid, TWrite, s, c))
  {
    var t := StepWrite(cfg, pid, TWrite, s, c);
    if t.files == s.files {
      QuietSteps(cfg, pid, s, t);
    } else {
      BytesLocal(cfg, pid, s, c);
    }
  }

  lemma LinkLocal(cfg: Config, pid: Pid, s: Local, c: Choice)
    requires Before(cfg, pid, s) && s.proc.pc == Install(TLink)
    ensures Steps(cfg, pid, s, StepInstall(pid, TLink, s, c))
  {
  }

  lemma TidyLocal(cfg: Config, pid: Pid, s: Local, c: Choice)
    requires Before(cfg, pid, s) && s.proc.pc == Install(TUnlink)
    ensures Steps(cfg, pid, s, StepInstall(pid, TUnlink, s, c))
  {
  }

  lemma ConfirmLocal(cfg: Config, pid: Pid, i: IPc, s: Local, c: Choice)
    requires Before(cfg, pid, s) && s.proc.pc == Install(i) && (i.TSyncDir? || i.TStatDest?)
    ensures Steps(cfg, pid, s, StepInstall(pid, i, s, c))
  {
    QuietSteps(cfg, pid, s, StepInstall(pid, i, s, c));
  }

  lemma AnyInstall(cfg: Config, pid: Pid, i: IPc, s: Local, c: Choice)
    requires Before(cfg, pid, s) && s.proc.pc == Install(i)
    ensures Steps(cfg, pid, s, StepInstall(pid, i, s, c))
  {
    match i
    case TLink => LinkLocal(cfg, pid, s, c);
    case TUnlink => TidyLocal(cfg, pid, s, c);
    case _ => ConfirmLocal(cfg, pid, i, s, c);
  }

  lemma CloseLocal(cfg: Config, pid: Pid, u: UPc, s: Local, c: Choice)
    requires Before(cfg, pid, s) && s.proc.pc == Undo(u) && (u.CFstat? || u.CClose?)
    ensures Steps(cfg, pid, s, StepUndo(pid, u, s, c))
  {
    QuietSteps(cfg, pid, s, StepUndo(pid, u, s, c));
  }

  lemma StatLocal(cfg: Config, pid: Pid, u: UPc, s: Local, c: Choice)
    requires Before(cfg, pid, s) && s.proc.pc == Undo(u) && (u.CStat? || u.PStat?)
    ensures Steps(cfg, pid, s, StepUndo(pid, u, s, c))
  {
    QuietSteps(cfg, pid, s, StepUndo(pid, u, s, c));
  }

  lemma RollBackStatLocal(cfg: Config, pid: Pid, s: Local, c: Choice)
    requires Before(cfg, pid, s) && s.proc.pc == Undo(RStat)
    ensures Steps(cfg, pid, s, StepUndo(pid, RStat, s, c))
  {
    QuietSteps(cfg, pid, s, StepUndo(pid, RStat, s, c));
  }

  lemma RollBackLocal(cfg: Config, pid: Pid, s: Local, c: Choice)
    requires Before(cfg, pid, s) && s.proc.pc == Undo(RUnlink)
    ensures Steps(cfg, pid, s, StepUndo(pid, RUnlink, s, c))
  {
  }

  lemma TakeBackLocal(cfg: Config, pid: Pid, s: Local, c: Choice)
    requires Before(cfg, pid, s) && s.proc.pc == Undo(PUnlink)
    ensures Steps(cfg, pid, s, StepUndo(pid, PUnlink, s, c))
  {
  }

  /** Removing the temporary name changes nothing else that is known. */
  lemma DropTemp(cfg: Config, pid: Pid, s: Local, q: Proc)
    requires Before(cfg, pid, s) && HasTemp(pid, s) && SameOwn(s.proc, q)
    ensures var temp := Temp(pid, s.proc.attempt);
            var t := Local(s.dir - {temp}, Touch(s.files, s.dir[temp]), s.next, q);
            OwnInv(cfg, pid, t) && Guarantee(pid, s, t) && DestGuarantee(s, t) && !HasTemp(pid, t)
  {
  }

  lemma UnlinkTempLocal(cfg: Config, pid: Pid, s: Local, c: Choice)
    requires Before(cfg, pid, s) && s.proc.pc == Undo(CUnlink)
    ensures Steps(cfg, pid, s, StepUndo(pid, CUnlink, s, c))
  {
    var t := StepUndo(pid, CUnlink, s, c);
    if c.ok && HasTemp(pid, s) {
      DropTemp(cfg, pid, s, t.proc);
    } else {
      QuietSteps(cfg, pid, s, t);
    }
  }

  lemma OpenParentLocal(cfg: Config, pid: Pid, s: Local, c: Choice)
    requires Before(cfg, pid, s) && s.proc.pc == Control(OpenParent)
    ensures Steps(cfg, pid, s, StepControl(OpenParent, s, c))
  {
    QuietSteps(cfg, pid, s, StepControl(OpenParent, s, c));
  }

  lemma DecideLocal(cfg: Config, pid: Pid, s: Local, c: Choice)
    requires Before(cfg, pid, s) && s.proc.pc == Control(Decide)
    ensures Steps(cfg, pid, s, StepControl(Decide, s, c))
  {
    var faults := s.proc.faults;
    var t := StepControl(Decide, s, c);
    if faults.cleanupFailed || faults.rollbackFailed || faults.closeFailed || faults.primary == Fatal {
      assert t == s.(proc := Raise(s.proc));
    }
    QuietSteps(cfg, pid, s, t);
  }

  lemma ReturnLocal(cfg: Config, pid: Pid, k: KPc, s: Local, c: Choice)
    requires Before(cfg, pid, s) && s.proc.pc == Control(k) && (k.AssertParent? || k.CloseParent? || k.Finished?)
    ensures Steps(cfg, pid, s, StepControl(k, s, c))
  {
    QuietSteps(cfg, pid, s, StepControl(k, s, c));
  }

  lemma BackoffLocal(cfg: Config, pid: Pid, s: Local, c: Choice)
    requires Before(cfg, pid, s) && s.proc.pc == Control(Backoff)
    ensures Steps(cfg, pid, s, StepControl(Backoff, s, c))
  {
    if s.proc.attempt + 1 < CREATE_ATTEMPTS {
      QuietRestart(cfg, pid, s, s.proc.attempt + 1);
    } else {
      Quiet(cfg, pid, s, StepControl(Backoff, s, c));
    }
  }

  lemma AnyWrite(cfg: Config, pid: Pid, w: WPc, s: Local, c: Choice)
    requires Before(cfg, pid, s) && s.proc.pc == Write(w)
    ensures Steps(cfg, pid, s, StepWrite(cfg, pid, w, s, c))
  {
    if w.NewPayload? {
      NewPayloadLocal(cfg, pid, s, c);
    } else if w.TOpen? {
      OpenLocal(cfg, pid, s, c);
    } else if w.TChmod? {
      ChmodLocal(cfg, pid, s, c);
    } else if w.TWrite? {
      AppendLocal(cfg, pid, s, c);
    } else {
      WriteLocal(cfg, pid, w, s, c);
    }
  }

  lemma AnyUndo(cfg: Config, pid: Pid, u: UPc, s: Local, c: Choice)
    requires Before(cfg, pid, s) && s.proc.pc == Undo(u)
    ensures Steps(cfg, pid, s, StepUndo(pid, u, s, c))
  {
    match u
    case CUnlink => UnlinkTempLocal(cfg, pid, s, c);
    case RStat => RollBackStatLocal(cfg, pid, s, c);
    case RUnlink => RollBackLocal(cfg, pid, s, c);
    case PUnlink => TakeBackLocal(cfg, pid, s, c);
    case CFstat => CloseLocal(cfg, pid, u, s, c);
    case CClose => CloseLocal(cfg, pid, u, s, c);
    case _ => StatLocal(cfg, pid, u, s, c);
  }

  lemma AnyControl(cfg: Config, pid: Pid, k: KPc, s: Local, c: Choice)
    requires Before(cfg, pid, s) && s.proc.pc == Control(k)
    ensures Steps(cfg, pid, s, StepControl(k, s, c))
  {
    if k.Backoff? {
      BackoffLocal(cfg, pid, s, c);
    } else if k.OpenParent? {
      OpenParentLocal(cfg, pid, s, c);
    } else if k.Decide? {
      DecideLocal(cfg, pid, s, c);
    } else {
      ReturnLocal(cfg, pid, k, s, c);
    }
  }

  /** Every step keeps what its process knows and does to the rest only what is allowed. */
  lemma LocalStep(cfg: Config, pid: Pid, s: Local, c: Choice)
    requires Before(cfg, pid, s)
    ensures Steps(cfg, pid, s, StepLocal(cfg, pid, s, c))
  {
    match s.proc.pc
    case Validate(v) =>
      if v.VChmod? {
        SecureLocal(cfg, pid, s, c);
      } else if v.VOpen? || v.VFstat? || v.VStat1? {
        LookLocal(cfg, pid, v, s, c);
      } else {
        CheckLocal(cfg, pid, v, s, c);
      }
    case Write(w) => AnyWrite(cfg, pid, w, s, c);
    case Install(i) => AnyInstall(cfg, pid, i, s, c);
    case Undo(u) => AnyUndo(cfg, pid, u, s, c);
    case Control(k) => AnyControl(cfg, pid, k, s, c);
  }

  // ----- All processes together -----

  /** The destination that existed before any initializer ran, if one did. */
  datatype Base = Absent | Existing(inode: Inode, content: bytes)

  ghost predicate Owned(s: Sys)
    requires Dest in s.dir
  {
    exists pid :: pid in s.procs && s.procs[pid].linked && s.procs[pid].file == Some(s.dir[Dest])
  }

  ghost predicate Distinct(s: Sys) {
    forall p, q :: p in s.procs && q in s.procs && p != q && s.procs[p].file.Some? ==> s.procs[p].file != s.procs[q].file
  }

  ghost predicate Inv(cfg: Config, base: Base, s: Sys) {
    && (forall i :: i in s.files ==> i < s.next)
    && (forall pid :: pid in s.procs ==> ProcInv(cfg, pid, At(s, pid)))
    && Distinct(s)
    && (base.Absent? && Dest in s.dir ==> Owned(s))
    && (base.Existing? ==>
        && Same(s.dir, Dest, base.inode) && base.inode in s.files && s.files[base.inode].content == base.content
        && forall pid :: pid in s.procs ==> s.procs[pid].file != Some(base.inode))
  }

  /** A process that does not move keeps its knowledge. */
  lemma Rely(cfg: Config, mover: Pid, s: Local, t: Local, other: Pid, q: Proc)
    requires mover != other && Guarantee(mover, s, t) && DestGuarantee(s, t)
    requires OwnInv(cfg, mover, s)
    requires ProcInv(cfg, other, s.(proc := q))
    requires q.file.Some? ==> q.file != s.proc.file
    ensures ProcInv(cfg, other, t.(proc := q))
  {
    assert HasTemp(other, s.(proc := q)) <==> HasTemp(other, t.(proc := q));
  }

  lemma InvStep(cfg: Config, base: Base, s: Sys, pid: Pid, c: Choice)
    requires Inv(cfg, base, s)
    ensures Inv(cfg, base, Step(cfg, s, pid, c))
  {
    if pid in s.procs {
      var l := At(s, pid);
      var m := StepLocal(cfg, pid, l, c);
      var t := Step(cfg, s, pid, c);
      LocalStep(cfg, pid, l, c);
      forall q | q in t.procs
        ensures ProcInv(cfg, q, At(t, q))
      {
        if q == pid {
          assert At(t, q) == m;
        } else {
          assert At(s, q) == l.(proc := s.procs[q]) && At(t, q) == m.(proc := s.procs[q]);
          Rely(cfg, pid, l, m, q, s.procs[q]);
        }
      }
      FilesStayDistinct(cfg, s, pid, m);
      DestinationStays(cfg, base, s, pid, m);
    }
  }

  lemma FilesStayDistinct(cfg: Config, s: Sys, pid: Pid, m: Local)
    requires pid in s.procs && Distinct(s) && Guarantee(pid, At(s, pid), m)
    requires forall q :: q in s.procs ==> ProcInv(cfg, q, At(s, q))
    requires forall i :: i in s.files ==> i < s.next
    ensures Distinct(Sys(m.dir, m.files, m.next, s.procs[pid := m.proc]))
    ensures forall i :: i in m.files ==> i < m.next
  {
    forall q | q in s.procs && s.procs[q].file.Some?
      ensures s.procs[q].file.value < s.next
    {
      assert OwnInv(cfg, q, At(s, q)) && HasFile(At(s, q));
    }
  }

  lemma DestinationStays(cfg: Config, base: Base, s: Sys, pid: Pid, m: Local)
    requires Inv(cfg, base, s) && pid in s.procs
    requires Steps(cfg, pid, At(s, pid), m)
    ensures var t := Sys(m.dir, m.files, m.next, s.procs[pid := m.proc]);
            && (base.Absent? && Dest in t.dir ==> Owned(t))
            && (base.Existing? ==>
                && Same(t.dir, Dest, base.inode) && base.inode in t.files && t.files[base.inode].content == base.content
                && forall q :: q in t.procs ==> t.procs[q].file != Some(base.inode))
  {
    var t := Sys(m.dir, m.files, m.next, s.procs[pid := m.proc]);
    assert OwnInv(cfg, pid, At(s, pid)) && OwnInv(cfg, pid, m);
    if base.Absent? && Dest in t.dir {
      if Dest !in s.dir || m.proc.linked {
        assert t.procs[pid].linked && t.procs[pid].file == Some(t.dir[Dest]);
      } else {
        var q :| q in s.procs && s.procs[q].linked && s.procs[q].file == Some(s.dir[Dest]);
        assert q != pid;
        assert t.procs[q].linked && t.procs[q].file == Some(t.dir[Dest]);
      }
    }
  }

  function BaseOf(s: Sys): Base
    requires Initial(s)
  {
    if Dest in s.dir then Existing(s.dir[Dest], s.files[s.dir[Dest]].content) else Absent
  }

  lemma InvInitial(cfg: Config, s: Sys)
    requires Initial(s)
    ensures Inv(cfg, BaseOf(s), s)
  {
  }

  lemma {:induction false} InvRun(cfg: Config, base: Base, s: Sys, schedule: Schedule)
    requires Inv(cfg, base, s)
    ensures Inv(cfg, base, Run(cfg, s, schedule))
    decreases |schedule|
  {
    if schedule != [] {
      InvStep(cfg, base, s, schedule[0].0, schedule[0].1);
      InvRun(cfg, base, Step(cfg, s, schedule[0].0, schedule[0].1), schedule[1..]);
    }
  }

  predicate Returned(s: Sys, pid: Pid, outcome: Outcome) {
    pid in s.procs && s.procs[pid].pc == Control(Finished(outcome))
  }

  /**
   * Whenever the destination exists it holds a complete file: one initializer's
   * whole payload, secured, or the file that was there from the start, which is never
   * removed.
   */
  lemma DestinationComplete(cfg: Config, s: Sys, schedule: Schedule)
    requires Initial(s)
    ensures var t := Run(cfg, s, schedule);
            Dest in t.dir ==>
              && t.dir[Dest] in t.files
              && if Dest in s.dir
                 then t.dir[Dest] == s.dir[Dest] && t.files[t.dir[Dest]].content == s.files[s.dir[Dest]].content
                 else exists pid :: pid in t.procs && Complete(cfg, pid, t.files[t.dir[Dest]])
    ensures Dest in s.dir ==> Dest in Run(cfg, s, schedule).dir
  {
    InvInitial(cfg, s);
    InvRun(cfg, BaseOf(s), s, schedule);
    var t := Run(cfg, s, schedule);
    if Dest in t.dir && Dest !in s.dir {
      var pid :| pid in t.procs && t.procs[pid].linked && t.procs[pid].file == Some(t.dir[Dest]);
      assert OwnInv(cfg, pid, At(t, pid));
    }
  }

  /** At most one initializer returns True, and none when the keyring already existed. */
  lemma AtMostOneCreates(cfg: Config, s: Sys, schedule: Schedule, p: Pid, q: Pid)
    requires Initial(s)
    requires Returned(Run(cfg, s, schedule), p, ReturnedTrue) && Returned(Run(cfg, s, schedule), q, ReturnedTrue)
    ensures p == q && Dest !in s.dir
  {
    InvInitial(cfg, s);
    InvRun(cfg, BaseOf(s), s, schedule);
    var t := Run(cfg, s, schedule);
    assert ProcInv(cfg, p, At(t, p)) && ProcInv(cfg, q, At(t, q));
  }

  lemma {:induction false} FinishedStays(cfg: Config, s: Sys, schedule: Schedule, pid: Pid, outcome: Outcome)
    requires Returned(s, pid, outcome)
    ensures Run(cfg, s, schedule).procs.Keys == s.procs.Keys
    ensures Run(cfg, s, schedule).procs[pid] == s.procs[pid]
    decreases |schedule|
  {
    if schedule != [] {
      var t := Step(cfg, s, schedule[0].0, schedule[0].1);
      assert t.procs.Keys == s.procs.Keys;
      FinishedStays(cfg, t, schedule[1..], pid, outcome);
    }
  }

  /** After an initializer returned True, the destination is its file forever, whatever the others do. */
  lemma CreatedForever(cfg: Config, s: Sys, first: Schedule, later: Schedule, pid: Pid)
    requires Initial(s) && Returned(Run(cfg, s, first), pid, ReturnedTrue)
    ensures var t := Run(cfg, s, first);
            var u := Run(cfg, t, later);
            && Dest in t.dir && Dest in u.dir && u.dir[Dest] == t.dir[Dest]
            && u.dir[Dest] in u.files && Complete(cfg, pid, u.files[u.dir[Dest]])
  {
    InvInitial(cfg, s);
    var t := Run(cfg, s, first);
    InvRun(cfg, BaseOf(s), s, first);
    InvRun(cfg, BaseOf(s), t, later);
    FinishedStays(cfg, t, later, pid, ReturnedTrue);
    assert ProcInv(cfg, pid, At(t, pid)) && ProcInv(cfg, pid, At(Run(cfg, t, later), pid));
  }

  /**
   * Whenever a creation attempt signals a retryable failure, the process owns no
   * temporary name, of this or an earlier attempt, and the destination is not its file.
   */
  lemma RetryIsClean(cfg: Config, s: Sys, schedule: Schedule, pid: Pid)
    requires Initial(s)
    requires var t := Run(cfg, s, schedule); pid in t.procs && t.procs[pid].pc == Control(Backoff)
    ensures var t := Run(cfg, s, schedule);
            && (forall a :: Temp(pid, a) !in t.dir)
            && (Dest in t.dir ==> Some(t.dir[Dest]) != t.procs[pid].file)
            && t.procs[pid].attempt < CREATE_ATTEMPTS
  {
    InvInitial(cfg, s);
    InvRun(cfg, BaseOf(s), s, schedule);
    var t := Run(cfg, s, schedule);
    assert ProcInv(cfg, pid, At(t, pid));
    if BaseOf(s).Absent? && Dest in t.dir {
      var q :| q in t.procs && t.procs[q].linked && t.procs[q].file == Some(t.dir[Dest]);
      assert q != pid;
    }
  }

  /** An initializer that returns False has read a valid payload and leaves no temporary name. */
  lemma FalseHasValidated(cfg: Config, s: Sys, schedule: Schedule, pid: Pid)
    requires Initial(s) && Returned(Run(cfg, s, schedule), pid, ReturnedFalse)
    ensures ValidPayload(cfg, Run(cfg, s, schedule).procs[pid].view.seen)
    ensures forall a :: Temp(pid, a) !in Run(cfg, s, schedule).dir
  {
    InvInitial(cfg, s);
    InvRun(cfg, BaseOf(s), s, schedule);
    assert ProcInv(cfg, pid, At(Run(cfg, s, schedule), pid));
  }
}
