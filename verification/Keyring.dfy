/**
 * First-write installation of the credential keyring.
 *
 * Any number of initializers race on one directory.  Each writes a private
 * temporary file, hard-links it to the destination name, and on any failure
 * removes what it created.  The model is one system call per step: a schedule
 * picks, at every step, which process moves and whether its call succeeds.
 */
module Keyring {
  import opened Prelude

  const MAX_KEYRING_BYTES: nat := 64 * 1024
  const CREATE_ATTEMPTS: nat := 3

  type Inode = nat
  type Pid = nat

  /** The destination, and one temporary name per process and attempt. */
  datatype Name = Dest | Temp(pid: Pid, attempt: nat)

  /** `stamp` stands for the change time: every write, chmod, link and unlink moves it. */
  datatype File = File(content: bytes, mode600: bool, stamp: nat)

  /** The payload each process generates, and the validation of a payload's text. */
  datatype Config = Config(payload: Pid -> bytes, valid: bytes -> bool)

  datatype Outcome = ReturnedTrue | ReturnedFalse | Raised

  datatype Primary = NoError | DestinationAppeared | Retryable | Fatal

  /** Program counters, grouped: validating, writing, installing, undoing, and the rest. */
  datatype Pc = Validate(v: VPc) | Write(w: WPc) | Install(i: IPc) | Undo(u: UPc) | Control(k: KPc)

  datatype VPc = VOpen(second: bool) | VFstat | VStat1 | VRead | VStat2 | VChmod | VStat3

  datatype WPc = NewPayload | TOpen | TFstat1 | TChmod | TWrite | TFsync | TFstat2 | TClose

  datatype IPc = TLink | TUnlink | TSyncDir | TStatDest

  datatype UPc = RStat | RUnlink | CFstat | CClose | CStat | CUnlink | PStat | PUnlink

  datatype KPc = OpenParent | Decide | Backoff | AssertParent(outcome: Outcome) | CloseParent(outcome: Outcome) | Finished(outcome: Outcome)

  /** What went wrong in the current creation attempt. */
  datatype Faults = Faults(primary: Primary, closeFailed: bool, rollbackFailed: bool, cleanupFailed: bool)

  /** What validation has seen of the destination. */
  datatype View = View(target: Inode, stamp: nat, seen: bytes)

  /**
   * One initializer.  `file` is what its temporary descriptor refers to, `snapshot`
   * its recorded identity, `linked` that its destination link is in place.
   */
  datatype Proc = Proc(
    pc: Pc,
    attempt: nat,
    file: Option<Inode>,
    snapshot: Option<Inode>,
    created: bool,
    descriptorOpen: bool,
    linked: bool,
    faults: Faults,
    view: View)

  /** What one step may do to the shared directory and to the process. */
  datatype Local = Local(dir: map<Name, Inode>, files: map<Inode, File>, next: Inode, proc: Proc)

  /** A scheduler's choice: does the call succeed, is its errno retryable, how much is written. */
  datatype Choice = Choice(ok: bool, retryable: bool, count: nat)

  const NO_FAULTS := Faults(NoError, false, false, false)

  const FRESH := Proc(Control(OpenParent), 0, None, None, false, false, false, NO_FAULTS, View(0, 0, []))

  /** The checks of _validate_payload: a bounded size, and the abstract rest. */
  predicate ValidPayload(cfg: Config, payload: bytes) {
    0 < |payload| <= MAX_KEYRING_BYTES && cfg.valid(payload)
  }

  function Touch(files: map<Inode, File>, i: Inode): map<Inode, File> {
    if i in files then files[i := files[i].(stamp := files[i].stamp + 1)] else files
  }

  function Chmod(files: map<Inode, File>, i: Inode): map<Inode, File> {
    if i in files then files[i := files[i].(mode600 := true, stamp := files[i].stamp + 1)] else files
  }

  function Append(files: map<Inode, File>, i: Inode, data: bytes): map<Inode, File> {
    if i in files then files[i := files[i].(content := files[i].content + data, stamp := files[i].stamp + 1)] else files
  }

  /** Names the same inode. */
  predicate Same(dir: map<Name, Inode>, name: Name, i: Inode) { name in dir && dir[name] == i }

  /** A call failed inside the creation: roll the destination back if it was linked, then clean up. */
  function Fail(p: Proc, primary: Primary): Proc {
    if p.linked then p.(faults := p.faults.(primary := primary), pc := Undo(RStat)) else CleanUp(p.(faults := p.faults.(primary := primary)))
  }

  function CleanUp(p: Proc): Proc {
    if p.descriptorOpen then p.(pc := if p.snapshot == None then Undo(CFstat) else Undo(CClose))
    else if p.created then p.(pc := Undo(CStat))
    else p.(pc := Control(Decide))
  }

  function FailOs(p: Proc, c: Choice): Proc {
    Fail(p, if c.retryable && p.created then Retryable else Fatal)
  }

  function Raise(p: Proc): Proc { p.(pc := Control(CloseParent(Raised))) }

  /** Validation of an existing destination. */
  function StepValidate(cfg: Config, v: VPc, s: Local, c: Choice): Local {
    var p := s.proc;
    match v
    case VOpen(second) =>
      if !c.ok then s.(proc := Raise(p))
      else if Dest !in s.dir then s.(proc := if second then Raise(p) else p.(pc := Write(NewPayload)))
      else s.(proc := p.(pc := Validate(VFstat), view := p.view.(target := s.dir[Dest])))
    case VFstat =>
      if !c.ok || p.view.target !in s.files then s.(proc := Raise(p))
      else s.(proc := p.(pc := Validate(VStat1), view := p.view.(stamp := s.files[p.view.target].stamp)))
    case VStat1 =>
      if !c.ok || !Same(s.dir, Dest, p.view.target) || p.view.target !in s.files
         || !(0 < |s.files[p.view.target].content| <= MAX_KEYRING_BYTES)
      then s.(proc := Raise(p))
      else s.(proc := p.(pc := Validate(VRead)))
    case VRead =>
      if !c.ok || p.view.target !in s.files then s.(proc := Raise(p))
      else s.(proc := p.(pc := Validate(VStat2), view := p.view.(seen := s.files[p.view.target].content)))
    case VStat2 =>
      if !c.ok || !Same(s.dir, Dest, p.view.target) || p.view.target !in s.files
         || s.files[p.view.target].stamp != p.view.stamp || !ValidPayload(cfg, p.view.seen)
      then s.(proc := Raise(p))
      else s.(proc := p.(pc := Validate(VChmod)))
    case VChmod =>
      if !c.ok || p.view.target !in s.files then s.(proc := Raise(p))
      else s.(files := Chmod(s.files, p.view.target), proc := p.(pc := Validate(VStat3)))
    case VStat3 =>
      if !c.ok || !Same(s.dir, Dest, p.view.target) then s.(proc := Raise(p))
      else s.(proc := p.(pc := Control(AssertParent(ReturnedFalse))))
  }

  /** Writing the temporary file. */
  function StepWrite(cfg: Config, pid: Pid, w: WPc, s: Local, c: Choice): Local {
    var p := s.proc;
    match w
    case NewPayload => s.(proc := if ValidPayload(cfg, cfg.payload(pid)) then Restart(0) else Raise(p))
    case TOpen =>
      if !c.ok || Temp(pid, p.attempt) in s.dir then s.(proc := FailOs(p, c))
      else
        Local(s.dir[Temp(pid, p.attempt) := s.next], s.files[s.next := File([], false, 0)], s.next + 1,
              p.(pc := Write(TFstat1), file := Some(s.next), created := true, descriptorOpen := true))
    case TFstat1 => s.(proc := if c.ok then p.(pc := Write(TChmod), snapshot := p.file) else FailOs(p, c))
    case TChmod =>
      if !c.ok || p.file == None || p.file.value !in s.files then s.(proc := FailOs(p, c))
      else s.(files := Chmod(s.files, p.file.value), proc := p.(pc := Write(TWrite)))
    case TWrite =>
      var payload := cfg.payload(pid);
      if p.file == None || p.file.value !in s.files then s.(proc := FailOs(p, c))
      else
        var written := |s.files[p.file.value].content|;
        if written >= |payload| then s.(proc := p.(pc := Write(TFsync)))
        else if !c.ok then s.(proc := FailOs(p, c))
        else if c.count == 0 then s.(proc := Fail(p, Fatal))
        else
          var end := if written + c.count <= |payload| then written + c.count else |payload|;
          s.(files := Append(s.files, p.file.value, payload[written..end]))
    case TFsync => s.(proc := if c.ok then p.(pc := Write(TFstat2)) else FailOs(p, c))
    case TFstat2 =>
      if !c.ok || p.file == None || p.file.value !in s.files then s.(proc := FailOs(p, c))
      else if !s.files[p.file.value].mode600 || |s.files[p.file.value].content| != |cfg.payload(pid)|
      then s.(proc := Fail(p.(snapshot := p.file), Fatal))
      else s.(proc := p.(snapshot := p.file, pc := Write(TClose)))
    case TClose =>
      var q := p.(descriptorOpen := false);
      s.(proc := if c.ok then q.(pc := Install(TLink)) else Fail(q.(faults := p.faults.(closeFailed := true)), Fatal))
  }

  function Restart(attempt: nat): Proc {
    FRESH.(pc := Write(TOpen), attempt := attempt)
  }

  /** Installing: link, remove the temporary name, sync, confirm. */
  function StepInstall(pid: Pid, i: IPc, s: Local, c: Choice): Local {
    var p := s.proc;
    var temp := Temp(pid, p.attempt);
    match i
    case TLink =>
      if !c.ok then s.(proc := FailOs(p, c))
      else if temp !in s.dir then s.(proc := Fail(p, Fatal))
      else if Dest in s.dir then s.(proc := Fail(p, DestinationAppeared))
      else s.(dir := s.dir[Dest := s.dir[temp]], files := Touch(s.files, s.dir[temp]), proc := p.(pc := Install(TUnlink), linked := true))
    case TUnlink =>
      if !c.ok then s.(proc := FailOs(p, c))
      else if temp !in s.dir then s.(proc := Fail(p, Fatal))
      else s.(dir := s.dir - {temp}, files := Touch(s.files, s.dir[temp]), proc := p.(pc := Install(TSyncDir)))
    case TSyncDir => s.(proc := if c.ok then p.(pc := Install(TStatDest)) else FailOs(p, c))
    case TStatDest =>
      if !c.ok then s.(proc := FailOs(p, c))
      else if Dest !in s.dir || p.snapshot != Some(s.dir[Dest]) then s.(proc := Fail(p, Fatal))
      else s.(proc := CleanUp(p))
  }

  /** Removing a name only if it still is the process's own file. */
  function StepUndo(pid: Pid, u: UPc, s: Local, c: Choice): Local {
    var p := s.proc;
    var temp := Temp(pid, p.attempt);
    match u
    case RStat =>
      if c.ok && Dest !in s.dir then s.(proc := CleanUp(p.(linked := false)))
      else if !c.ok || p.snapshot != Some(s.dir[Dest]) then s.(proc := CleanUp(p.(faults := p.faults.(rollbackFailed := true))))
      else s.(proc := p.(pc := Undo(RUnlink)))
    case RUnlink =>
      if !c.ok then s.(proc := CleanUp(p.(faults := p.faults.(rollbackFailed := true))))
      else if Dest !in s.dir then s.(proc := CleanUp(p.(linked := false)))
      else s.(dir := s.dir - {Dest}, files := Touch(s.files, s.dir[Dest]), proc := CleanUp(p.(linked := false)))
    case CFstat =>
      if c.ok then s.(proc := p.(snapshot := p.file, pc := Undo(CClose)))
      else s.(proc := p.(faults := p.faults.(cleanupFailed := true), pc := Undo(CClose)))
    case CClose =>
      var q := p.(descriptorOpen := false, faults := p.faults.(closeFailed := p.faults.closeFailed || !c.ok));
      s.(proc := q.(pc := if p.faults.cleanupFailed then Control(Decide) else Undo(CStat)))
    case CStat =>
      if p.snapshot == None then s.(proc := p.(faults := p.faults.(cleanupFailed := true), pc := Control(Decide)))
      else if c.ok && temp !in s.dir then s.(proc := p.(pc := Control(Decide)))
      else if !c.ok || p.snapshot != Some(s.dir[temp]) then s.(proc := p.(faults := p.faults.(cleanupFailed := true), pc := Control(Decide)))
      else s.(proc := p.(pc := Undo(CUnlink)))
    case CUnlink =>
      if !c.ok then s.(proc := p.(faults := p.faults.(cleanupFailed := true), pc := Control(Decide)))
      else if temp !in s.dir then s.(proc := p.(pc := Control(Decide)))
      else s.(dir := s.dir - {temp}, files := Touch(s.files, s.dir[temp]), proc := p.(pc := Control(Decide)))
    case PStat =>
      if c.ok && p.snapshot.Some? && Same(s.dir, Dest, p.snapshot.value)
      then s.(proc := p.(pc := Undo(PUnlink)))
      else s.(proc := Raise(p))
    case PUnlink =>
      if !c.ok || Dest !in s.dir then s.(proc := Raise(p))
      else s.(dir := s.dir - {Dest}, files := Touch(s.files, s.dir[Dest]), proc := Raise(p.(linked := false)))
  }

  /** Steps that do not touch the directory's entries. */
  function StepControl(k: KPc, s: Local, c: Choice): Local {
    var p := s.proc;
    match k
    case OpenParent => s.(proc := if c.ok then p.(pc := Validate(VOpen(false))) else p.(pc := Control(Finished(Raised))))
    case Decide =>
      if p.faults.cleanupFailed || p.faults.rollbackFailed || p.faults.closeFailed then s.(proc := Raise(p))
      else
        (match p.faults.primary
         case NoError => s.(proc := p.(pc := Control(AssertParent(ReturnedTrue))))
         case DestinationAppeared => s.(proc := p.(pc := Validate(VOpen(true))))
         case Fatal => s.(proc := Raise(p))
         case Retryable => s.(proc := p.(pc := Control(Backoff))))
    case Backoff => s.(proc := if p.attempt + 1 >= CREATE_ATTEMPTS then Raise(p) else Restart(p.attempt + 1))
    case AssertParent(outcome) =>
      if c.ok then s.(proc := p.(pc := Control(CloseParent(outcome))))
      else if outcome == ReturnedTrue then s.(proc := p.(pc := Undo(PStat)))
      else s.(proc := Raise(p))
    case CloseParent(outcome) => s.(proc := p.(pc := Control(Finished(if c.ok then outcome else Raised))))
    case Finished(_) => s
  }

  function StepLocal(cfg: Config, pid: Pid, s: Local, c: Choice): Local {
    match s.proc.pc
    case Validate(v) => StepValidate(cfg, v, s, c)
    case Write(w) => StepWrite(cfg, pid, w, s, c)
    case Install(i) => StepInstall(pid, i, s, c)
    case Undo(u) => StepUndo(pid, u, s, c)
    case Control(k) => StepControl(k, s, c)
  }

  // ----- The system -----

  datatype Sys = Sys(dir: map<Name, Inode>, files: map<Inode, File>, next: Inode, procs: map<Pid, Proc>)

  function At(s: Sys, pid: Pid): Local
    requires pid in s.procs
  {
    Local(s.dir, s.files, s.next, s.procs[pid])
  }

  function Step(cfg: Config, s: Sys, pid: Pid, c: Choice): Sys {
    if pid !in s.procs then s
    else
      var l := StepLocal(cfg, pid, At(s, pid), c);
      Sys(l.dir, l.files, l.next, s.procs[pid := l.proc])
  }

  type Schedule = seq<(Pid, Choice)>

  function Run(cfg: Config, s: Sys, schedule: Schedule): Sys
    decreases |schedule|
  {
    if schedule == [] then s else Run(cfg, Step(cfg, s, schedule[0].0, schedule[0].1), schedule[1..])
  }

  /** Every process about to start, and no temporary file; the destination may already exist. */
  predicate Initial(s: Sys) {
    && (forall pid :: pid in s.procs ==> s.procs[pid] == FRESH)
    && (forall name :: name in s.dir ==> name == Dest && s.dir[name] in s.files)
    && (forall i :: i in s.files ==> i < s.next)
  }
}
