/**
 Pausing a running vcpu.

 One thread runs the vcpu.  Any number of internal services and any amount of
 manual traffic try to stop it.  The Go lock protects `isRunning`, `isPaused`
 and `paused`; a second mutex, taken only for the short sections of the C code,
 protects `armed` (the C field `running`) and `cancel`.  Each section under the
 C mutex is one step; a section under the Go lock is split where it calls into
 C or waits.  Waits on a condition end only by a broadcast.
 */
module VcpuPause {
  import opened RegisterCache

  datatype Rc = Ok | Interrupted | Again | Failed

  /** Where the vcpu thread is. */
  datatype Pc =
    | Flushing              // top of Run, registers not yet flushed
    | WantLock              // flushed, about to take the Go lock
    | Checking              // holds the Go lock, about to test for pauses
    | Sleeping              // waits on resume_event
    | Roused                // resume_event was broadcast, wants the Go lock back
    | Entering              // released the Go lock, about to take the C mutex
    | Armed                 // marked running, signal blocked, about to call KVM_RUN
    | InGuest
    | Leaving(rc: Rc)       // KVM_RUN returned, still marked running
    | Unmasking(rc: Rc)     // no longer marked running, signal still blocked
    | Handling              // Run returned, the exit is being handled
    | Stopped               // the thread has given up

  /** An internal pauser between its Pause and its Unpause. */
  datatype Pauser =
    | Interrupting          // holds the Go lock, about to call kvm_run_interrupt
    | Waiting               // waits on pause_event
    | Notified              // pause_event was broadcast, wants the Go lock back
    | Holding               // Pause returned
    | Writing               // Pause returned, in the middle of SetRegisters

  datatype Owner = Free | Thread | Internal(id: nat) | Manual

  /** The control state: who is where, and the shared flags. */
  datatype Control = Control(
    pc: Pc,
    lock: Owner,
    isRunning: bool, isPaused: bool, paused: nat,
    pausers: map<nat, Pauser>,
    armed: bool, cancel: bool, signal: bool
  )

  /** The register state; `peeked` and `failed` are history. */
  datatype File = File(
    regs: Group, sregs: Group,
    peeked: bool,            // a pauser read a register since the thread's last flush
    failed: bool             // some register ioctl failed
  )

  datatype State = State(c: Control, f: File)

  datatype ThreadAct =
    | VFlush(sregsOk: bool, regsOk: bool) | VLock | VSleep | VGo
    | VCancelled | VArm | VArmFail | VEnter | VRefused
    | VExit(rc: Rc, regsAfter: Regs, sregsAfter: Regs)
    | VClear | VUnmask
    | VRead(special: bool) | VWrite(special: bool, reg: int, val: int) | VHandled | VAbandon

  datatype PauserAct =
    | PEnter | PInterrupt | PReturn | PUnpause
    | PRead(special: bool) | PWrite(special: bool, reg: int, val: int) | PFlush | PAbort

  datatype ManualAct = MPause | MInterrupt | MUnpause

  datatype Action = ByThread(t: ThreadAct) | ByPauser(id: nat, p: PauserAct) | ByOperator(m: ManualAct)
  {
    /** Steps by which the vcpu thread moves through Run. */
    predicate Moves() { ByThread? && !t.VRead? && !t.VWrite? }
  }

  function Fresh(file: Regs): Group { Group(file, file, false, false, map[]) }

  function Init(regs: Regs, sregs: Regs): State {
    State(Control(Flushing, Free, false, false, 0, map[], false, false, false),
          File(Fresh(regs), Fresh(sregs), false, false))
  }

  predicate At(c: Control, id: nat, p: Pauser) { id in c.pausers && c.pausers[id] == p }

  predicate Holds(c: Control, id: nat) { At(c, id, Holding) || At(c, id, Writing) }

  /** The flush at the top of Run does not get through. */
  predicate FlushFails(f: File, sregsOk: bool, regsOk: bool) {
    (f.sregs.dirty && !sregsOk) || (f.regs.dirty && !regsOk)
  }

  predicate ThreadCan(c: Control, t: ThreadAct) {
    match t
    case VFlush(_, _) => c.pc.Flushing?
    case VLock => (c.pc.WantLock? || c.pc.Roused?) && c.lock.Free?
    case VSleep => c.pc.Checking? && (c.isPaused || c.paused > 0)
    case VGo => c.pc.Checking? && !(c.isPaused || c.paused > 0)
    case VCancelled => c.pc.Entering? && c.cancel
    case VArm => c.pc.Entering? && !c.cancel
    case VArmFail => c.pc.Entering? && !c.cancel
    case VEnter => c.pc.Armed? && !c.signal
    case VRefused => c.pc.Armed? && c.signal
    case VExit(_, _, _) => c.pc.InGuest?
    case VClear => c.pc.Leaving?
    case VUnmask => c.pc.Unmasking?
    case VRead(_) => c.pc.Handling?
    case VWrite(_, _, _) => c.pc.Handling?
    case VHandled => c.pc.Handling?
    case VAbandon => c.pc.Handling?
  }

  predicate PauserCan(c: Control, id: nat, p: PauserAct) {
    match p
    case PEnter => id !in c.pausers && c.lock.Free?
    case PInterrupt => At(c, id, Interrupting) && c.lock == Internal(id)
    case PReturn => At(c, id, Notified) && c.lock.Free?
    case PUnpause => At(c, id, Holding) && c.lock.Free?
    case PRead(_) => Holds(c, id)
    case PWrite(_, _, _) => Holds(c, id)
    case PFlush => At(c, id, Writing)
    case PAbort => Holds(c, id)
  }

  predicate ManualCan(c: Control, m: ManualAct) {
    match m
    case MPause => c.lock.Free? && !c.isPaused
    case MInterrupt => c.lock.Manual?
    case MUnpause => c.lock.Free? && c.isPaused
  }

  predicate Enabled(c: Control, a: Action) {
    match a
    case ByThread(t) => ThreadCan(c, t)
    case ByPauser(id, p) => PauserCan(c, id, p)
    case ByOperator(m) => ManualCan(c, m)
  }

  /** pause_event.Broadcast */
  function NotifyAll(ps: map<nat, Pauser>): (r: map<nat, Pauser>) {
    map id | id in ps :: if ps[id].Waiting? then Notified else ps[id]
  }

  /** resume_event.Broadcast */
  function Rouse(pc: Pc): Pc { if pc.Sleeping? then Roused else pc }

  /** kvm_run_interrupt */
  function Interrupt(c: Control): Control {
    if c.armed then c.(signal := true) else c.(cancel := true)
  }

  /** Where Run goes after kvm_run returned `rc`. */
  function AfterRun(rc: Rc): Pc {
    if rc.Interrupted? || rc.Again? then Flushing else if rc.Failed? then Stopped else Handling
  }

  function PauseStep(c: Control, id: nat): Control {
    var d := c.(paused := c.paused + 1);
    if !c.isRunning then d.(pausers := c.pausers[id := Holding])
    else if d.paused == 1 then d.(pausers := c.pausers[id := Interrupting], lock := Internal(id))
    else d.(pausers := c.pausers[id := Waiting])
  }

  /** Unpause of a caller whose Pause returned; NotPaused leaves the state alone. */
  function UnpauseStep(c: Control, id: nat): Control {
    if c.paused == 0 then c else
      var d := c.(paused := c.paused - 1, pausers := c.pausers - {id});
      if d.isPaused || d.paused > 0 then d else d.(pc := Rouse(c.pc))
  }

  function ThreadStep(c: Control, t: ThreadAct, flushFails: bool): Control {
    match t
    case VFlush(_, _) => c.(pc := if flushFails then Stopped else WantLock)
    case VLock => c.(pc := Checking, lock := Thread)
    case VSleep => c.(isRunning := false, pausers := NotifyAll(c.pausers), lock := Free, pc := Sleeping)
    case VGo => c.(isRunning := true, lock := Free, pc := Entering)
    case VCancelled => c.(cancel := false, pc := Flushing)
    case VArm => c.(armed := true, pc := Armed)
    case VArmFail => c.(pc := Stopped)
    case VEnter => c.(pc := InGuest)
    case VRefused => c.(pc := Leaving(Interrupted))
    case VExit(rc, _, _) => c.(pc := Leaving(rc))
    case VClear => c.(armed := false, cancel := false, pc := if c.pc.Leaving? then Unmasking(c.pc.rc) else c.pc)
    case VUnmask => c.(signal := false, pc := if c.pc.Unmasking? then AfterRun(c.pc.rc) else c.pc)
    case VRead(_) => c
    case VWrite(_, _, _) => c
    case VHandled => c.(pc := Flushing)
    case VAbandon => c.(pc := Stopped)
  }

  function PauserStep(c: Control, id: nat, p: PauserAct): Control {
    match p
    case PEnter => PauseStep(c, id)
    case PInterrupt => Interrupt(c).(pausers := c.pausers[id := Waiting], lock := Free)
    case PReturn => c.(pausers := c.pausers[id := Holding])
    case PUnpause => UnpauseStep(c, id)
    case PRead(_) => c
    case PWrite(_, _, _) => c.(pausers := c.pausers[id := Writing])
    case PFlush => c.(pausers := c.pausers[id := Holding])
    case PAbort => c.(pausers := c.pausers[id := Holding])
  }

  function ManualStep(c: Control, m: ManualAct): Control {
    match m
    case MPause => c.(isPaused := true, lock := if c.isRunning then Manual else Free)
    case MInterrupt => Interrupt(c).(lock := Free)
    case MUnpause => c.(isPaused := false, pc := if c.paused > 0 then c.pc else Rouse(c.pc))
  }

  function FlushStep(f: File, sregsOk: bool, regsOk: bool): File {
    if f.sregs.dirty && !sregsOk then f.(failed := true)
    else if f.regs.dirty && !regsOk then f.(failed := true, sregs := Flush(f.sregs))
    else f.(sregs := Flush(f.sregs), regs := Flush(f.regs), peeked := false)
  }

  function ReadStep(f: File, special: bool): File {
    if special then f.(sregs := Refresh(f.sregs, false)) else f.(regs := Refresh(f.regs, false))
  }

  function WriteStep(f: File, special: bool, reg: int, val: int): File {
    if special then f.(sregs := Write(f.sregs, reg, val)) else f.(regs := Write(f.regs, reg, val))
  }

  function ThreadTouch(f: File, t: ThreadAct): File {
    match t
    case VFlush(sregsOk, regsOk) => FlushStep(f, sregsOk, regsOk)
    case VExit(_, r, sr) => f.(regs := GuestRuns(f.regs, r), sregs := GuestRuns(f.sregs, sr))
    case VRead(special) => ReadStep(f, special)
    case VWrite(special, reg, val) => WriteStep(f, special, reg, val)
    case _ => f
  }

  function PauserTouch(f: File, p: PauserAct): File {
    match p
    case PRead(special) => ReadStep(f, special).(peeked := true)
    case PWrite(special, reg, val) => WriteStep(f, special, reg, val)
    case PFlush => f.(sregs := Flush(f.sregs), regs := Flush(f.regs))
    case PAbort => f.(failed := true)
    case _ => f
  }

  predicate Fails(f: File, t: ThreadAct) { t.VFlush? && FlushFails(f, t.sregsOk, t.regsOk) }

  function Do(s: State, a: Action): State {
    match a
    case ByThread(t) => State(ThreadStep(s.c, t, Fails(s.f, t)), ThreadTouch(s.f, t))
    case ByPauser(id, p) => State(PauserStep(s.c, id, p), PauserTouch(s.f, p))
    case ByOperator(m) => State(ManualStep(s.c, m), s.f)
  }

  // ----- What every step keeps

  /** The thread is inside kvm_run or handling what came out of it. */
  predicate Out(pc: Pc) {
    pc.Entering? || pc.Armed? || pc.InGuest? || pc.Leaving? || pc.Unmasking? || pc.Handling?
  }

  predicate Locks(c: Control) {
    && (c.lock.Thread? <==> c.pc.Checking?)
    && (forall id | id in c.pausers && c.pausers[id].Interrupting? :: c.lock == Internal(id))
    && (c.lock.Internal? ==> At(c, c.lock.id, Interrupting))
    && (c.armed <==> c.pc.Armed? || c.pc.InGuest? || c.pc.Leaving?)
    && (c.armed ==> !c.cancel)
    && (c.signal ==> c.armed || c.pc.Unmasking?)
  }

  predicate Running(c: Control) {
    && (Out(c.pc) ==> c.isRunning)
    && (c.pc.Sleeping? || c.pc.Roused? ==> !c.isRunning)
    && (forall id | id in c.pausers ::
          if c.pausers[id].Interrupting? || c.pausers[id].Waiting? then c.isRunning else !c.isRunning)
    && (c.pc.Sleeping? ==> c.isPaused || c.paused > 0)
  }

  predicate Counted(c: Control) { c.paused == |c.pausers| }

  /** Somebody has told, or is about to tell, the thread to come out. */
  predicate Told(c: Control) {
    c.paused > 0 && (c.pc.Entering? || c.pc.Armed? || c.pc.InGuest?) ==>
      (if c.pc.Entering? then c.cancel else c.signal) || c.lock.Internal?
  }

  predicate ControlInv(c: Control) { Locks(c) && Running(c) && Counted(c) && Told(c) }

  lemma SomePauser(c: Control, id: nat)
    requires Counted(c) && id in c.pausers
    ensures c.paused > 0
  {
    assert |c.pausers.Keys| == |c.pausers|;
  }

  lemma PutCount(ps: map<nat, Pauser>, id: nat, p: Pauser)
    ensures |ps[id := p]| == |ps| + if id in ps then 0 else 1
  {
    assert ps[id := p].Keys == ps.Keys + {id};
    assert |ps.Keys + {id}| == |ps.Keys| + if id in ps then 0 else 1;
  }

  lemma NotifyCount(ps: map<nat, Pauser>)
    ensures |NotifyAll(ps)| == |ps|
  {
    assert NotifyAll(ps).Keys == ps.Keys;
    assert |NotifyAll(ps).Keys| == |NotifyAll(ps)|;
  }

  lemma DropCount(ps: map<nat, Pauser>, id: nat)
    requires id in ps
    ensures |ps| > 0 && |ps - {id}| == |ps| - 1
  {
    assert (ps - {id}).Keys == ps.Keys - {id};
    assert |(ps - {id}).Keys| == |ps - {id}|;
  }

  lemma ThreadKeeps(c: Control, t: ThreadAct, b: bool)
    requires ControlInv(c) && ThreadCan(c, t)
    ensures ControlInv(ThreadStep(c, t, b))
  {
    hide Locks, Running, Counted, Told, ThreadStep, ThreadCan;
    ThreadLocks(c, t, b);
    ThreadRunning(c, t, b);
    ThreadCounted(c, t, b);
    ThreadTold(c, t, b);
  }

  lemma ThreadRunning(c: Control, t: ThreadAct, b: bool)
    requires ControlInv(c) && ThreadCan(c, t)
    ensures Running(ThreadStep(c, t, b))
  {
    hide Told;
    if t.VGo? { forall id | id in c.pausers ensures false { SomePauser(c, id); } }
  }

  lemma ThreadTold(c: Control, t: ThreadAct, b: bool)
    requires ControlInv(c) && ThreadCan(c, t)
    ensures Told(ThreadStep(c, t, b))
  {
    hide Running, Counted, NotifyAll;
  }

  lemma ThreadCounted(c: Control, t: ThreadAct, b: bool)
    requires Counted(c)
    ensures Counted(ThreadStep(c, t, b))
  {
    hide NotifyAll;
    NotifyCount(c.pausers);
  }

  lemma ThreadLocks(c: Control, t: ThreadAct, b: bool)
    requires ControlInv(c) && ThreadCan(c, t)
    ensures Locks(ThreadStep(c, t, b))
  {
  }

  lemma PauserKeeps(c: Control, id: nat, p: PauserAct)
    requires ControlInv(c) && PauserCan(c, id, p)
    ensures ControlInv(PauserStep(c, id, p))
  {
    PauserCounted(c, id, p);
    PauserLocks(c, id, p);
    PauserRunning(c, id, p);
  }

  lemma PauserCounted(c: Control, id: nat, p: PauserAct)
    requires Counted(c) && PauserCan(c, id, p)
    ensures Counted(PauserStep(c, id, p))
  {
    match p
    case PEnter => PutCount(c.pausers, id, PauserStep(c, id, p).pausers[id]);
    case PInterrupt => PutCount(c.pausers, id, Waiting);
    case PReturn => PutCount(c.pausers, id, Holding);
    case PWrite(_, _, _) => PutCount(c.pausers, id, Writing);
    case PFlush => PutCount(c.pausers, id, Holding);
    case PAbort => PutCount(c.pausers, id, Holding);
    case PUnpause => DropCount(c.pausers, id);
    case PRead(_) =>
  }

  lemma PauserLocks(c: Control, id: nat, p: PauserAct)
    requires ControlInv(c) && PauserCan(c, id, p)
    ensures Locks(PauserStep(c, id, p))
  {
  }

  lemma PauserRunning(c: Control, id: nat, p: PauserAct)
    requires ControlInv(c) && PauserCan(c, id, p)
    ensures Running(PauserStep(c, id, p)) && Told(PauserStep(c, id, p))
  {
  }

  lemma ManualKeeps(c: Control, m: ManualAct)
    requires ControlInv(c) && ManualCan(c, m)
    ensures ControlInv(ManualStep(c, m))
  {
  }

  /** Unflushed writes are legitimate here: their author has not finished. */
  ghost predicate Busy(c: Control) {
    c.pc.Handling? || c.pc.Flushing? || c.pc.Stopped? || exists id :: At(c, id, Writing)
  }

  /** The places at which the copies of the registers agree with KVM. */
  predicate Settled(c: Control, f: File) {
    || !c.isRunning || c.pc.WantLock? || c.pc.Checking? || c.pc.Entering? || c.pc.Armed? || c.pc.InGuest?
    || (Out(c.pc) && !f.peeked && !f.failed)
  }

  ghost predicate FileInv(c: Control, f: File) {
    && WellFormed(f.regs) && WellFormed(f.sregs)
    && (Settled(c, f) ==> Coherent(f.regs) && Coherent(f.sregs))
    && (!f.failed && (f.regs.dirty || f.sregs.dirty) ==> Busy(c))
    && (!f.failed && !f.peeked && (f.regs.cached || f.sregs.cached) ==> Busy(c))
  }

  ghost predicate Inv(s: State) { ControlInv(s.c) && FileInv(s.c, s.f) }

  lemma GroupFacts(g: Group)
    ensures WellFormed(g) ==> Coherent(Flush(g)) && !Flush(g).dirty && !Flush(g).cached
    ensures Coherent(g) ==> Coherent(Refresh(g, false))
    ensures forall reg, val :: Coherent(g) ==> Coherent(Write(g, reg, val))
  {
    if WellFormed(g) { FlushSettles(g); }
    if Coherent(g) {
      ReadIsCurrent(g);
      forall reg, val ensures Coherent(Write(g, reg, val)) { WriteUpdatesCurrent(g, reg, val); }
    }
  }

  /** Nobody is writing registers while the thread is out. */
  lemma NoWriterOutside(c: Control)
    requires ControlInv(c) && Out(c.pc)
    ensures forall id :: !At(c, id, Writing)
  {
  }

  /** Only a flush makes an unsettled file settled, and what is busy stays busy. */
  lemma ThreadSettled(c: Control, f: File, t: ThreadAct, b: bool)
    requires ControlInv(c) && ThreadCan(c, t) && !t.VFlush?
    ensures Settled(ThreadStep(c, t, b), ThreadTouch(f, t)) ==> Settled(c, f)
    ensures Busy(c) ==> Busy(ThreadStep(c, t, b))
    ensures t.VExit? ==> !Busy(c) && (Settled(ThreadStep(c, t, b), ThreadTouch(f, t)) ==> !f.peeked && !f.failed)
    ensures t.VRead? || t.VWrite? ==> Busy(c)
  {
    if t.VExit? { NoWriterOutside(c); }
    if exists id :: At(c, id, Writing) {
      var id :| At(c, id, Writing);
      SomePauser(c, id);
      assert At(ThreadStep(c, t, b), id, Writing);
    }
  }

  lemma ThreadFlushes(s: State, t: ThreadAct)
    requires Inv(s) && ThreadCan(s.c, t) && t.VFlush?
    ensures FileInv(ThreadStep(s.c, t, Fails(s.f, t)), ThreadTouch(s.f, t))
  {
    GroupFacts(s.f.regs);
    GroupFacts(s.f.sregs);
  }

  lemma ThreadFile(s: State, t: ThreadAct)
    requires Inv(s) && ThreadCan(s.c, t)
    ensures FileInv(ThreadStep(s.c, t, Fails(s.f, t)), ThreadTouch(s.f, t))
  {
    hide ControlInv, ThreadStep, Busy, ThreadCan, FlushFails, Settled;
    if t.VFlush? {
      ThreadFlushes(s, t);
    } else {
      GroupFacts(s.f.regs);
      GroupFacts(s.f.sregs);
      ThreadSettled(s.c, s.f, t, Fails(s.f, t));
    }
  }

  /** A pauser's step leaves the thread's settledness alone. */
  lemma PauserSettled(c: Control, f: File, id: nat, p: PauserAct)
    requires ControlInv(c) && PauserCan(c, id, p)
    ensures Settled(PauserStep(c, id, p), PauserTouch(f, p)) ==> Settled(c, f)
  {
    hide Locks, Running, Counted, Told;
  }

  lemma PauserBusy(c: Control, id: nat, p: PauserAct)
    requires PauserCan(c, id, p)
    ensures Busy(c) ==> p.PFlush? || p.PAbort? || Busy(PauserStep(c, id, p))
    ensures p.PWrite? ==> Busy(PauserStep(c, id, p))
  {
    var d := PauserStep(c, id, p);
    if p.PWrite? { assert At(d, id, Writing); }
    if exists w :: At(c, w, Writing) {
      var w :| At(c, w, Writing);
      assert p.PFlush? || p.PAbort? || At(d, w, Writing);
    }
  }

  lemma PauserFile(s: State, id: nat, p: PauserAct)
    requires Inv(s) && PauserCan(s.c, id, p)
    ensures FileInv(PauserStep(s.c, id, p), PauserTouch(s.f, p))
  {
    hide ControlInv, PauserStep, Busy, Settled, PauserCan;
    GroupFacts(s.f.regs);
    GroupFacts(s.f.sregs);
    PauserSettled(s.c, s.f, id, p);
    PauserBusy(s.c, id, p);
  }

  lemma ManualFile(s: State, m: ManualAct)
    requires Inv(s) && ManualCan(s.c, m)
    ensures FileInv(ManualStep(s.c, m), s.f)
  {
    if exists w :: At(s.c, w, Writing) {
      var w :| At(s.c, w, Writing);
      assert At(ManualStep(s.c, m), w, Writing);
    }
  }

  lemma InvStep(s: State, a: Action)
    requires Inv(s) && Enabled(s.c, a)
    ensures Inv(Do(s, a))
  {
    hide ControlInv, FileInv, ThreadStep, PauserStep, ManualStep, ThreadTouch, PauserTouch, ThreadCan, PauserCan, ManualCan;
    match a
    case ByThread(t) => ThreadKeeps(s.c, t, Fails(s.f, t)); ThreadFile(s, t);
    case ByPauser(id, p) => PauserKeeps(s.c, id, p); PauserFile(s, id, p);
    case ByOperator(m) => ManualKeeps(s.c, m); ManualFile(s, m);
  }

  // ----- Runs

  /** A run: the states passed through and the action between each two of them. */
  ghost predicate IsRun(trace: seq<State>, acts: seq<Action>) {
    && |trace| == |acts| + 1
    && (exists regs, sregs :: trace[0] == Init(regs, sregs))
    && (forall i | 0 <= i < |acts| :: Enabled(trace[i].c, acts[i]) && trace[i + 1] == Do(trace[i], acts[i]))
  }

  lemma {:induction false} RunKeepsInv(trace: seq<State>, acts: seq<Action>, i: nat)
    requires IsRun(trace, acts) && i < |trace|
    ensures Inv(trace[i])
  {
    if i == 0 {
      var regs, sregs :| trace[0] == Init(regs, sregs);
    } else {
      RunKeepsInv(trace, acts, i - 1);
      assert Enabled(trace[i - 1].c, acts[i - 1]);
      InvStep(trace[i - 1], acts[i - 1]);
    }
  }

  /** Between the return of an internal Pause and its Unpause the thread is never
      in the guest, on its way there, or handling an exit; the count is the number
      of internal pausers, so their Unpause is never refused. */
  lemma PauseSafety(trace: seq<State>, acts: seq<Action>, i: nat, id: nat)
    requires IsRun(trace, acts) && i < |trace| && Holds(trace[i].c, id)
    ensures !Out(trace[i].c.pc) && !trace[i].c.isRunning
    ensures trace[i].c.paused == |trace[i].c.pausers| > 0
  {
    RunKeepsInv(trace, acts, i);
    SomePauser(trace[i].c, id);
  }

  /** While an internal pause is outstanding and the thread is between releasing the
      Go lock and leaving KVM_RUN, a cancel or a signal is pending for it, or the
      first pauser still holds the Go lock and is about to send one. */
  lemma NoLostInterrupt(trace: seq<State>, acts: seq<Action>, i: nat, id: nat)
    requires IsRun(trace, acts) && i < |trace| && id in trace[i].c.pausers
    ensures var c := trace[i].c;
            c.lock.Internal? || ((c.pc.Entering? ==> c.cancel) && (c.pc.Armed? || c.pc.InGuest? ==> c.signal))
  {
    RunKeepsInv(trace, acts, i);
    SomePauser(trace[i].c, id);
  }

  /** Steps of its own the thread can still make while an internal pause is outstanding. */
  function Rank(pc: Pc): nat {
    match pc
    case Entering => 9
    case Armed => 8
    case InGuest => 7
    case Leaving(_) => 6
    case Unmasking(_) => 5
    case Handling => 4
    case Flushing => 3
    case WantLock => 2
    case Roused => 2
    case Checking => 1
    case Sleeping => 0
    case Stopped => 0
  }

  lemma ThreadRank(c: Control, t: ThreadAct, b: bool)
    requires ThreadCan(c, t) && c.paused > 0
    ensures Rank(ThreadStep(c, t, b).pc) + (if ByThread(t).Moves() then 1 else 0) <= Rank(c.pc)
  {
    hide NotifyAll;
    match t
    case VUnmask => assert c.pc.Unmasking?;
    case VClear => assert c.pc.Leaving?;
    case _ =>
  }

  lemma PauserRank(c: Control, id: nat, p: PauserAct)
    requires PauserStep(c, id, p).paused > 0
    ensures PauserStep(c, id, p).pc == c.pc
  {
  }

  lemma RankOfStep(s: State, a: Action)
    requires Enabled(s.c, a) && s.c.paused > 0 && Do(s, a).c.paused > 0
    ensures Rank(Do(s, a).c.pc) + (if a.Moves() then 1 else 0) <= Rank(s.c.pc)
  {
    hide Rank, ThreadTouch, PauserTouch, ThreadStep, PauserStep, ThreadCan, PauserCan;
    match a
    case ByThread(t) => ThreadRank(s.c, t, Fails(s.f, t));
    case ByPauser(id, p) => PauserRank(s.c, id, p);
    case ByOperator(m) =>
  }

  function CountMoves(acts: seq<Action>): nat {
    if acts == [] then 0 else CountMoves(acts[..|acts| - 1]) + if acts[|acts| - 1].Moves() then 1 else 0
  }

  /** Once an internal pause is outstanding the thread makes at most nine more steps
      through Run, whatever the other parties do meanwhile. */
  lemma {:induction false} PauseTakesEffect(trace: seq<State>, acts: seq<Action>, i: nat, j: nat)
    requires IsRun(trace, acts) && i <= j < |trace|
    requires forall k | i <= k <= j :: trace[k].c.paused > 0
    ensures CountMoves(acts[i..j]) + Rank(trace[j].c.pc) <= Rank(trace[i].c.pc) <= 9
  {
    hide Enabled, Do, Init;
    if i < j {
      PauseTakesEffect(trace, acts, i, j - 1);
      assert Enabled(trace[j - 1].c, acts[j - 1]) && trace[j - 1 + 1] == Do(trace[j - 1], acts[j - 1]);
      RankOfStep(trace[j - 1], acts[j - 1]);
      assert acts[i..j][..j - i - 1] == acts[i..j - 1];
    }
  }

  /** A pauser never waits for a thread that is itself asleep, and unless the thread
      has stopped either it can move or the owner of the Go lock can. */
  lemma NoDeadlock(trace: seq<State>, acts: seq<Action>, i: nat, id: nat)
    requires IsRun(trace, acts) && i < |trace| && At(trace[i].c, id, Waiting)
    ensures var c := trace[i].c;
            && !c.pc.Sleeping?
            && (c.pc.Stopped? || (exists t :: ByThread(t).Moves() && ThreadCan(c, t))
                || (c.lock.Internal? && PauserCan(c, c.lock.id, PInterrupt))
                || (c.lock.Manual? && ManualCan(c, MInterrupt)))
  {
    RunKeepsInv(trace, acts, i);
    var c := trace[i].c;
    var t := match c.pc
      case Flushing => VFlush(true, true)
      case WantLock => VLock
      case Roused => VLock
      case Checking => if c.isPaused || c.paused > 0 then VSleep else VGo
      case Entering => if c.cancel then VCancelled else VArm
      case Armed => if c.signal then VRefused else VEnter
      case InGuest => VExit(Again, map[], map[])
      case Leaving(_) => VClear
      case Unmasking(_) => VUnmask
      case _ => VHandled;
    assert ByThread(t).Moves();
    assert c.pc.Stopped? || c.lock.Internal? || c.lock.Manual? || ThreadCan(c, t);
  }

  /** A register read by a pauser that holds the vcpu is KVM's value with the writes
      not yet flushed on top of it. */
  lemma HolderReadsCurrent(trace: seq<State>, acts: seq<Action>, i: nat, id: nat)
    requires IsRun(trace, acts) && i < |trace| && Holds(trace[i].c, id)
    ensures var f := trace[i].f;
            && Refresh(f.regs, false).cache == f.regs.Current()
            && Refresh(f.sregs, false).cache == f.sregs.Current()
  {
    RunKeepsInv(trace, acts, i);
    ReadIsCurrent(trace[i].f.regs);
    ReadIsCurrent(trace[i].f.sregs);
  }

  /** Unless a register ioctl failed, the guest is never entered with unflushed writes. */
  lemma NoDirtyEntry(trace: seq<State>, acts: seq<Action>, i: nat)
    requires IsRun(trace, acts) && i < |trace| && trace[i].c.pc.InGuest? && !trace[i].f.failed
    ensures !trace[i].f.regs.dirty && !trace[i].f.sregs.dirty
    ensures trace[i].f.regs.Current() == trace[i].f.regs.kvm && trace[i].f.sregs.Current() == trace[i].f.sregs.kvm
  {
    RunKeepsInv(trace, acts, i);
    NoWriterOutside(trace[i].c);
    var f := trace[i].f;
    assert f.regs.kvm + map[] == f.regs.kvm && f.sregs.kvm + map[] == f.sregs.kvm;
  }

  // ----- Running on

  /** A run goes on with steps of the vcpu thread alone. */
  ghost predicate Continues(trace: seq<State>, acts: seq<Action>, trace': seq<State>, acts': seq<Action>) {
    && IsRun(trace', acts') && acts <= acts' && trace <= trace'
    && forall k | |acts| <= k < |acts'| :: acts'[k].ByThread?
  }

  /** Nobody wants the vcpu to stop. */
  predicate Wanted(c: Control) { c.pausers == map[] && c.paused == 0 && !c.isPaused && c.lock.Free? }

  lemma Move(trace: seq<State>, acts: seq<Action>, t: ThreadAct) returns (trace': seq<State>, acts': seq<Action>)
    requires IsRun(trace, acts) && ThreadCan(trace[|acts|].c, t)
    ensures Continues(trace, acts, trace', acts') && trace'[|acts'|] == Do(trace[|acts|], ByThread(t))
  {
    var after := Do(trace[|acts|], ByThread(t));
    Extend(trace, acts, ByThread(t), after);
    trace', acts' := trace + [after], acts + [ByThread(t)];
  }

  lemma ContinuesOn(t0: seq<State>, a0: seq<Action>, t1: seq<State>, a1: seq<Action>, t2: seq<State>, a2: seq<Action>)
    requires Continues(t0, a0, t1, a1) && Continues(t1, a1, t2, a2)
    ensures Continues(t0, a0, t2, a2)
  {
    hide IsRun;
    forall k | |a0| <= k < |a2| ensures a2[k].ByThread? { if k < |a1| { assert a2[k] == a1[k]; } }
  }

  /** From the top of Run the thread gets past the test for pauses. */
  lemma PassesTest(trace: seq<State>, acts: seq<Action>) returns (trace': seq<State>, acts': seq<Action>)
    requires IsRun(trace, acts) && Wanted(trace[|acts|].c)
    requires var pc := trace[|acts|].c.pc; pc.Flushing? || pc.WantLock? || pc.Roused?
    ensures Continues(trace, acts, trace', acts') && |trace'| == |acts'| + 1
    ensures var c, d := trace[|acts|].c, trace'[|acts'|].c;
            d.pc.Entering? && Wanted(d) && d.cancel == c.cancel && d.signal == c.signal
  {
    hide IsRun, Continues;
    trace', acts' := Stay(trace, acts);
    if trace[|acts|].c.pc.Flushing? {
      trace', acts' := Then(trace, acts, trace', acts', VFlush(true, true));
    }
    trace', acts' := Then(trace, acts, trace', acts', VLock);
    trace', acts' := Then(trace, acts, trace', acts', VGo);
  }

  lemma Stay(trace: seq<State>, acts: seq<Action>) returns (trace': seq<State>, acts': seq<Action>)
    requires IsRun(trace, acts)
    ensures trace' == trace && acts' == acts && Continues(trace, acts, trace', acts') && |trace'| == |acts'| + 1
  {
    trace', acts' := trace, acts;
  }

  lemma Then(t0: seq<State>, a0: seq<Action>, trace: seq<State>, acts: seq<Action>, t: ThreadAct)
    returns (trace': seq<State>, acts': seq<Action>)
    requires Continues(t0, a0, trace, acts) && |trace| == |acts| + 1 && ThreadCan(trace[|acts|].c, t)
    ensures Continues(t0, a0, trace', acts') && |trace'| == |acts'| + 1
    ensures trace'[|acts'|] == Do(trace[|acts|], ByThread(t))
  {
    trace', acts' := Move(trace, acts, t);
    ContinuesOn(t0, a0, trace, acts, trace', acts');
  }

  lemma EntersGuest(trace: seq<State>, acts: seq<Action>) returns (trace': seq<State>, acts': seq<Action>)
    requires IsRun(trace, acts) && Wanted(trace[|acts|].c) && trace[|acts|].c.pc.Entering? && !trace[|acts|].c.signal
    ensures Continues(trace, acts, trace', acts') && |trace'| == |acts'| + 1 && trace'[|acts'|].c.pc.InGuest?
  {
    trace', acts' := Stay(trace, acts);
    if trace[|acts|].c.cancel {
      var t1, a1 := Then(trace, acts, trace', acts', VCancelled);
      trace', acts' := PassesTest(t1, a1);
      ContinuesOn(trace, acts, t1, a1, trace', acts');
    }
    hide IsRun, Continues;
    trace', acts' := Then(trace, acts, trace', acts', VArm);
    trace', acts' := Then(trace, acts, trace', acts', VEnter);
  }

  /** What is left of a stay in the guest is brought to its end. */
  lemma ComesToTop(trace: seq<State>, acts: seq<Action>) returns (trace': seq<State>, acts': seq<Action>)
    requires IsRun(trace, acts) && Wanted(trace[|acts|].c)
    requires var pc := trace[|acts|].c.pc;
             (pc.Leaving? && !pc.rc.Failed?) || (pc.Unmasking? && !pc.rc.Failed?) || pc.Handling?
    requires var c := trace[|acts|].c; c.signal ==> c.armed || c.pc.Unmasking?
    requires var c := trace[|acts|].c; c.armed ==> c.pc.Leaving?
    ensures Continues(trace, acts, trace', acts') && |trace'| == |acts'| + 1
    ensures var d := trace'[|acts'|].c; d.pc.Flushing? && Wanted(d) && !d.signal
  {
    trace', acts' := Stay(trace, acts);
    hide IsRun, Continues;
    if trace[|acts|].c.pc.Leaving? { trace', acts' := Then(trace, acts, trace', acts', VClear); }
    if trace'[|acts'|].c.pc.Unmasking? { trace', acts' := Then(trace, acts, trace', acts', VUnmask); }
    if trace'[|acts'|].c.pc.Handling? { trace', acts' := Then(trace, acts, trace', acts', VHandled); }
  }

  /** With nobody pausing it the thread can always get into the guest by its own steps,
      whatever interrupt is still on its way, unless it has ended or is about to. */
  lemma RunsWhenWanted(trace: seq<State>, acts: seq<Action>) returns (trace': seq<State>, acts': seq<Action>)
    requires IsRun(trace, acts) && Wanted(trace[|acts|].c)
    requires var pc := trace[|acts|].c.pc; !pc.Stopped? && !(pc.Leaving? && pc.rc.Failed?) && !(pc.Unmasking? && pc.rc.Failed?)
    ensures Continues(trace, acts, trace', acts') && |trace'| == |acts'| + 1 && trace'[|acts'|].c.pc.InGuest?
  {
    RunKeepsInv(trace, acts, |acts|);
    var c := trace[|acts|].c;
    trace', acts' := Stay(trace, acts);
    if c.pc.InGuest? { return; }
    if c.pc.Armed? {
      trace', acts' := Then(trace, acts, trace', acts', if c.signal then VRefused else VEnter);
      if !c.signal { return; }
    }
    trace', acts' := FromAnywhere(trace, acts, trace', acts');
  }

  lemma FromAnywhere(t0: seq<State>, a0: seq<Action>, trace: seq<State>, acts: seq<Action>)
    returns (trace': seq<State>, acts': seq<Action>)
    requires Continues(t0, a0, trace, acts) && |trace| == |acts| + 1 && Wanted(trace[|acts|].c)
    requires var pc := trace[|acts|].c.pc; !pc.Stopped? && !(pc.Leaving? && pc.rc.Failed?) && !(pc.Unmasking? && pc.rc.Failed?)
    requires !trace[|acts|].c.pc.InGuest? && !trace[|acts|].c.pc.Armed?
    ensures Continues(t0, a0, trace', acts') && |trace'| == |acts'| + 1 && trace'[|acts'|].c.pc.InGuest?
  {
    RunKeepsInv(trace, acts, |acts|);
    var t1, a1 := trace, acts;
    var c := trace[|acts|].c;
    assert !c.pc.Checking? && !c.pc.Sleeping?;
    if c.pc.Leaving? || c.pc.Unmasking? || c.pc.Handling? {
      t1, a1 := ComesToTop(trace, acts);
      ContinuesOn(t0, a0, trace, acts, t1, a1);
    }
    if !t1[|a1|].c.pc.Entering? {
      var t2, a2 := PassesTest(t1, a1);
      ContinuesOn(t0, a0, t1, a1, t2, a2);
      t1, a1 := t2, a2;
    }
    trace', acts' := EntersGuest(t1, a1);
    ContinuesOn(t0, a0, t1, a1, trace', acts');
  }

  // ----- Register writes

  function GroupOf(f: File, special: bool): Group { if special then f.sregs else f.regs }

  /** What a read of the group gives. */
  function Shown(g: Group): Regs { if g.cached then g.cache else g.kvm }

  /** A pauser or the exit handler writes a register. */
  predicate Writes(a: Action, special: bool, reg: int, val: int) {
    a == ByThread(VWrite(special, reg, val)) || (a.ByPauser? && a.p == PWrite(special, reg, val))
  }

  predicate Reads(a: Action, special: bool) {
    a == ByThread(VRead(special)) || (a.ByPauser? && a.p == PRead(special))
  }

  /** Steps that change what registers hold: writes, and a stay in the guest. */
  predicate Changes(a: Action) {
    (a.ByThread? && (a.t.VWrite? || a.t.VExit?)) || (a.ByPauser? && a.p.PWrite?)
  }

  /** A write changes the named register of the named group, if the group has it, and
      nothing else; it is not in KVM yet. */
  lemma WriteChangesOneRegister(trace: seq<State>, acts: seq<Action>, i: nat, special: bool, reg: int, val: int)
    requires IsRun(trace, acts) && i < |acts| && Writes(acts[i], special, reg, val)
    ensures var g, h := GroupOf(trace[i].f, special), GroupOf(trace[i + 1].f, special);
            && h.Current() == (if reg in Shown(g) then g.Current()[reg := val] else g.Current())
            && Shown(h) == (if reg in Shown(g) then Shown(g)[reg := val] else Shown(g))
            && h.dirty && h.kvm == g.kvm
    ensures GroupOf(trace[i + 1].f, !special) == GroupOf(trace[i].f, !special)
    ensures acts[i].ByPauser? ==> Shown(GroupOf(trace[i].f, special)) == GroupOf(trace[i].f, special).Current()
  {
    assert Enabled(trace[i].c, acts[i]) && trace[i + 1] == Do(trace[i], acts[i]);
    WriteInGroup(GroupOf(trace[i].f, special), reg, val);
    WriteTouches(trace[i], acts[i], special, reg, val);
    hide Do, IsRun, Write, Shown;
    if acts[i].ByPauser? { HolderShowsCurrent(trace, acts, i, acts[i].id, special); }
  }

  lemma WriteInGroup(g: Group, reg: int, val: int)
    ensures var h := Write(g, reg, val);
            && h.Current() == (if reg in Shown(g) then g.Current()[reg := val] else g.Current())
            && Shown(h) == (if reg in Shown(g) then Shown(g)[reg := val] else Shown(g))
            && h.dirty && h.kvm == g.kvm && h.cached
  {
  }

  lemma WriteTouches(s: State, a: Action, special: bool, reg: int, val: int)
    requires Writes(a, special, reg, val)
    ensures GroupOf(Do(s, a).f, special) == Write(GroupOf(s.f, special), reg, val)
    ensures GroupOf(Do(s, a).f, !special) == GroupOf(s.f, !special)
  {
    hide Write, ThreadStep, PauserStep, Fails;
  }

  lemma HolderShowsCurrent(trace: seq<State>, acts: seq<Action>, i: nat, id: nat, special: bool)
    requires IsRun(trace, acts) && i < |trace| && Holds(trace[i].c, id)
    ensures Shown(GroupOf(trace[i].f, special)) == GroupOf(trace[i].f, special).Current()
  {
    hide IsRun, Holds;
    HolderReadsCurrent(trace, acts, i, id);
  }

  /** A read shows the group and changes neither group's values. */
  lemma ReadChangesNothing(trace: seq<State>, acts: seq<Action>, i: nat, special: bool)
    requires IsRun(trace, acts) && i < |acts| && Reads(acts[i], special)
    ensures var g, h := GroupOf(trace[i].f, special), GroupOf(trace[i + 1].f, special);
            h == g.(cached := true, cache := Shown(g))
    ensures GroupOf(trace[i + 1].f, !special) == GroupOf(trace[i].f, !special)
  {
    assert trace[i + 1] == Do(trace[i], acts[i]);
  }

  /** A pauser's flush puts both groups into KVM. */
  lemma FlushReachesKvm(trace: seq<State>, acts: seq<Action>, i: nat, id: nat, special: bool)
    requires IsRun(trace, acts) && i < |acts| && acts[i] == ByPauser(id, PFlush)
    ensures var g, h := GroupOf(trace[i].f, special), GroupOf(trace[i + 1].f, special);
            h.kvm == g.Current() && !h.dirty && !h.cached
  {
    assert Enabled(trace[i].c, acts[i]) && trace[i + 1] == Do(trace[i], acts[i]);
    RunKeepsInv(trace, acts, i);
    FlushSettles(GroupOf(trace[i].f, special));
  }

  /** The group holds `val` in `reg`, in a copy that is still to be flushed or in KVM. */
  predicate Carries(g: Group, reg: int, val: int) {
    if g.dirty then g.cached && reg in g.cache && g.cache[reg] == val
    else reg in g.kvm && g.kvm[reg] == val && (g.cached ==> g.cache == g.kvm)
  }

  lemma CarriesStep(s: State, a: Action, special: bool, reg: int, val: int)
    requires Carries(GroupOf(s.f, special), reg, val) && !Changes(a)
    ensures Carries(GroupOf(Do(s, a).f, special), reg, val)
  {
    hide ThreadStep, PauserStep, ManualStep, Fails;
  }

  lemma RunLength(trace: seq<State>, acts: seq<Action>)
    requires IsRun(trace, acts)
    ensures |trace| == |acts| + 1
  {
  }

  lemma StepOf(trace: seq<State>, acts: seq<Action>, k: nat)
    requires IsRun(trace, acts) && k < |acts|
    ensures |trace| == |acts| + 1 && trace[k + 1] == Do(trace[k], acts[k]) && Enabled(trace[k].c, acts[k])
  {
  }

  lemma {:induction false} CarriesOn(trace: seq<State>, acts: seq<Action>, i: nat, j: nat, special: bool, reg: int, val: int)
    requires IsRun(trace, acts) && i <= j < |trace| && Carries(GroupOf(trace[i].f, special), reg, val)
    requires forall k | i <= k < j :: !Changes(acts[k])
    ensures Carries(GroupOf(trace[j].f, special), reg, val)
    decreases j - i
  {
    hide IsRun, Do, Carries, GroupOf, Changes, Enabled;
    if i < j {
      var k := j - 1;
      RunLength(trace, acts);
      StepOf(trace, acts, k);
      CarriesOn(trace, acts, i, j - 1, special, reg, val);
      CarriesStep(trace[j - 1], acts[j - 1], special, reg, val);
    }
  }

  /** Until the next write or stay in the guest every read shows the value written, and
      unless a register ioctl failed the guest is entered with it. */
  lemma WriteReachesGuest(trace: seq<State>, acts: seq<Action>, i: nat, j: nat, special: bool, reg: int, val: int)
    requires IsRun(trace, acts) && i < j < |trace| && Writes(acts[i], special, reg, val)
    requires reg in Shown(GroupOf(trace[i].f, special)) && forall k | i < k < j :: !Changes(acts[k])
    ensures var g := GroupOf(trace[j].f, special);
            && reg in Shown(g) && Shown(g)[reg] == val
            && (trace[j].c.pc.InGuest? && !trace[j].f.failed ==> reg in g.kvm && g.kvm[reg] == val)
  {
    WriteChangesOneRegister(trace, acts, i, special, reg, val);
    hide IsRun;
    CopyAfterWrite(trace, acts, i, special, reg, val);
    CarriesOn(trace, acts, i + 1, j, special, reg, val);
    if trace[j].c.pc.InGuest? && !trace[j].f.failed { NoDirtyEntry(trace, acts, j); }
  }

  lemma CopyAfterWrite(trace: seq<State>, acts: seq<Action>, i: nat, special: bool, reg: int, val: int)
    requires IsRun(trace, acts) && i < |acts| && Writes(acts[i], special, reg, val)
    ensures GroupOf(trace[i + 1].f, special).cached
  {
    assert trace[i + 1] == Do(trace[i], acts[i]);
  }

  lemma CurrentStep(s: State, a: Action, special: bool)
    requires Coherent(GroupOf(s.f, special)) && !Changes(a)
    ensures Coherent(GroupOf(Do(s, a).f, special))
    ensures GroupOf(Do(s, a).f, special).Current() == GroupOf(s.f, special).Current()
  {
    hide ThreadStep, PauserStep, ManualStep, Fails, Coherent;
    var g := GroupOf(s.f, special);
    CoherentIsWellFormed(g);
    FlushSettles(g);
    ReadIsCurrent(g);
  }

  lemma CoherentIsWellFormed(g: Group)
    requires Coherent(g)
    ensures WellFormed(g)
  {
  }

  lemma {:induction false} CurrentStays(trace: seq<State>, acts: seq<Action>, i: nat, j: nat, special: bool)
    requires IsRun(trace, acts) && i <= j < |trace| && Coherent(GroupOf(trace[i].f, special))
    requires forall k | i <= k < j :: !Changes(acts[k])
    ensures Coherent(GroupOf(trace[j].f, special))
    ensures GroupOf(trace[j].f, special).Current() == GroupOf(trace[i].f, special).Current()
    decreases j - i
  {
    hide IsRun, Do, Coherent, GroupOf, Changes, Enabled;
    if i < j {
      var k := j - 1;
      RunLength(trace, acts);
      StepOf(trace, acts, k);
      CurrentStays(trace, acts, i, j - 1, special);
      CurrentStep(trace[j - 1], acts[j - 1], special);
    }
  }

  /** The guest is entered with all the registers a holder left, in both groups: no step
      but a write or a stay in the guest changes any of them. */
  lemma HolderLeavesRegisters(trace: seq<State>, acts: seq<Action>, i: nat, j: nat, id: nat, special: bool)
    requires IsRun(trace, acts) && i <= j < |trace| && Holds(trace[i].c, id)
    requires forall k | i <= k < j :: !Changes(acts[k])
    requires trace[j].c.pc.InGuest? && !trace[j].f.failed
    ensures GroupOf(trace[j].f, special).kvm == GroupOf(trace[i].f, special).Current()
  {
    RunKeepsInv(trace, acts, i);
    CurrentStays(trace, acts, i, j, special);
    NoDirtyEntry(trace, acts, j);
  }

  /** What the exit handler reads first in a group where the guest left `after`. */
  function HandlerRead(s: State, special: bool, after: Regs): Regs {
    var exit := if special then VExit(Ok, s.f.regs.kvm, after) else VExit(Ok, after, s.f.sregs.kvm);
    Refresh(GroupOf(Do(Do(Do(s, ByThread(exit)), ByThread(VClear)), ByThread(VUnmask)).f, special), false).cache
  }

  /** The exit handler is not so lucky: whatever the guest did, it reads the guest's
      registers of a group if and only if no copy of the group was valid when the guest
      was entered, and a copy is valid only after a pauser's read. */
  lemma HandlerReadsGuestExactlyWhenNoCopy(trace: seq<State>, acts: seq<Action>, i: nat, special: bool)
    requires IsRun(trace, acts) && i < |trace| && trace[i].c.pc.InGuest? && !trace[i].f.failed
    ensures (forall after :: HandlerRead(trace[i], special, after) == after) <==> !GroupOf(trace[i].f, special).cached
    ensures GroupOf(trace[i].f, special).cached ==> trace[i].f.peeked
  {
    hide IsRun, HandlerRead, Inv;
    RunKeepsInv(trace, acts, i);
    CopyIsPeeked(trace[i], special);
    var s, g := trace[i], GroupOf(trace[i].f, special);
    forall after ensures HandlerRead(s, special, after) == if g.cached then g.cache else after {
      HandlerReadIs(s, special, after);
    }
    if g.cached {
      var other := if 0 in g.cache then g.cache - {0} else g.cache[0 := 0];
      assert HandlerRead(s, special, other) == g.cache;
      assert 0 in other <==> 0 !in g.cache;
    }
  }

  lemma HandlerReadIs(s: State, special: bool, after: Regs)
    requires s.c.pc.InGuest?
    ensures var g := GroupOf(s.f, special); HandlerRead(s, special, after) == if g.cached then g.cache else after
  {
    var exit := if special then VExit(Ok, s.f.regs.kvm, after) else VExit(Ok, after, s.f.sregs.kvm);
    var t := Do(s, ByThread(exit));
    assert GroupOf(t.f, special) == GuestRuns(GroupOf(s.f, special), after);
    assert Do(Do(t, ByThread(VClear)), ByThread(VUnmask)).f == t.f;
  }

  lemma CopyIsPeeked(s: State, special: bool)
    requires Inv(s) && s.c.pc.InGuest? && !s.f.failed
    ensures GroupOf(s.f, special).cached ==> s.f.peeked
  {
    NoWriterOutside(s.c);
  }

  lemma Extend(trace: seq<State>, acts: seq<Action>, a: Action, after: State)
    requires IsRun(trace, acts) && Enabled(trace[|acts|].c, a) && after == Do(trace[|acts|], a)
    ensures IsRun(trace + [after], acts + [a])
  {
    assert (trace + [after])[0] == trace[0];
  }

  /** A run in which it happens: a pauser reads after the flush, the guest runs, and
      the handler is served the value from before. */
  lemma StaleHandlerRead() returns (trace: seq<State>, acts: seq<Action>)
    ensures IsRun(trace, acts) && trace[|acts|].c.pc.Handling? && !trace[|acts|].f.failed
    ensures var g := trace[|acts|].f.regs; g.kvm == map[0 := 2] && Refresh(g, false).cache == map[0 := 1]
  {
    var one, two := map[0 := 1], map[0 := 2];
    var s := Init(one, map[]);
    trace, acts := [s], [];
    trace, acts := One(trace, acts, ByThread(VFlush(true, true)));
    trace, acts := PeekOnce(trace, acts, one);
    trace, acts := One(trace, acts, ByThread(VLock));
    trace, acts := One(trace, acts, ByThread(VGo));
    trace, acts := RoundThroughGuest(trace, acts, two);
  }

  lemma One(trace: seq<State>, acts: seq<Action>, a: Action) returns (trace': seq<State>, acts': seq<Action>)
    requires IsRun(trace, acts) && Enabled(trace[|acts|].c, a)
    ensures IsRun(trace', acts') && trace'[|acts'|] == Do(trace[|acts|], a)
  {
    Extend(trace, acts, a, Do(trace[|acts|], a));
    trace', acts' := trace + [Do(trace[|acts|], a)], acts + [a];
  }

  /** A pauser comes, reads a register and goes while the thread is about to lock. */
  lemma PeekOnce(trace: seq<State>, acts: seq<Action>, file: Regs) returns (trace': seq<State>, acts': seq<Action>)
    requires IsRun(trace, acts)
    requires var c := trace[|acts|].c; c.pausers == map[] && c.lock.Free? && !c.isRunning && c.paused == 0 && c.pc.WantLock?
    requires trace[|acts|].f.regs == Fresh(file)
    ensures IsRun(trace', acts') && trace'[|acts'|].c == trace[|acts|].c
    ensures trace'[|acts'|].f == trace[|acts|].f.(regs := Group(file, file, true, false, map[]), peeked := true)
  {
    trace', acts' := One(trace, acts, ByPauser(7, PEnter));
    trace', acts' := One(trace', acts', ByPauser(7, PRead(false)));
    trace', acts' := One(trace', acts', ByPauser(7, PUnpause));
    assert trace'[|acts'|].c.pausers == map[];
  }

  /** One undisturbed visit to the guest that ends in an exit to handle. */
  lemma RoundThroughGuest(trace: seq<State>, acts: seq<Action>, after: Regs) returns (trace': seq<State>, acts': seq<Action>)
    requires IsRun(trace, acts)
    requires var c := trace[|acts|].c; c.pc.Entering? && !c.cancel && !c.signal
    ensures IsRun(trace', acts') && trace'[|acts'|].c.pc.Handling?
    ensures trace'[|acts'|].f.regs == GuestRuns(trace[|acts|].f.regs, after)
    ensures trace'[|acts'|].f.failed == trace[|acts|].f.failed
  {
    trace', acts' := One(trace, acts, ByThread(VArm));
    trace', acts' := One(trace', acts', ByThread(VEnter));
    trace', acts' := One(trace', acts', ByThread(VExit(Ok, after, map[])));
    trace', acts' := One(trace', acts', ByThread(VClear));
    trace', acts' := One(trace', acts', ByThread(VUnmask));
  }

  // ----- Ways out of the loop

  /** The thread gives up exactly where a flush or an entry fails, the guest reports a
      failure, or the handler abandons it. */
  lemma StopsExactly(s: State, t: ThreadAct)
    requires Enabled(s.c, ByThread(t))
    ensures Do(s, ByThread(t)).c.pc.Stopped? <==>
            match t
            case VFlush(sregsOk, regsOk) => (s.f.sregs.dirty && !sregsOk) || (s.f.regs.dirty && !regsOk)
            case VUnmask => s.c.pc == Unmasking(Failed)
            case _ => t.VArmFail? || t.VAbandon?
  {
    hide ThreadTouch, NotifyAll;
  }

  /** Nobody else moves the thread, except out of its sleep. */
  lemma OthersOnlyRouse(s: State, a: Action)
    requires Enabled(s.c, a) && !a.ByThread?
    ensures var c := Do(s, a).c;
            c.pc == s.c.pc || (s.c.pc.Sleeping? && c.pc.Roused? && c.paused == 0 && !c.isPaused)
  {
    hide PauserTouch, ThreadStep, ThreadCan, NotifyAll;
    match a {
      case ByPauser(id, p) => PauserOnlyRouses(s.c, id, p);
      case ByOperator(m) =>
    }
  }

  lemma PauserOnlyRouses(c: Control, id: nat, p: PauserAct)
    ensures var d := PauserStep(c, id, p);
            d.pc == c.pc || (c.pc.Sleeping? && d.pc.Roused? && d.paused == 0 && !d.isPaused)
  {
  }

  /** The exit of a guest is handled exactly when the run neither failed nor was broken
      off; a run that was broken off begins again. */
  lemma ExitLeadsTo(s: State)
    requires s.c.pc.Unmasking?
    ensures Enabled(s.c, ByThread(VUnmask))
    ensures var pc := Do(s, ByThread(VUnmask)).c.pc;
            && (pc.Flushing? <==> s.c.pc.rc.Interrupted? || s.c.pc.rc.Again?)
            && (pc.Handling? <==> !s.c.pc.rc.Interrupted? && !s.c.pc.rc.Again? && !s.c.pc.rc.Failed?)
            && (pc.Stopped? <==> s.c.pc.rc.Failed?)
  {
  }

  /** How the last call of KVM_RUN among these steps came back; a signal that was pending
      breaks it off. */
  function LastReturn(acts: seq<Action>): Rc {
    if acts == [] then Ok
    else
      match acts[|acts| - 1]
      case ByThread(VExit(rc, _, _)) => rc
      case ByThread(VRefused) => Interrupted
      case _ => LastReturn(acts[..|acts| - 1])
  }

  /** In every run, what the thread carries away from KVM_RUN is how that call came back,
      and it handles an exit only if the guest did leave with one. */
  lemma {:induction false} HandlesRealExits(trace: seq<State>, acts: seq<Action>)
    requires IsRun(trace, acts)
    ensures var pc := trace[|acts|].c.pc;
            && (pc.Leaving? || pc.Unmasking? ==> pc.rc == LastReturn(acts))
            && (pc.Handling? ==> LastReturn(acts) == Ok)
    decreases |acts|
  {
    if acts != [] {
      var n := |acts| - 1;
      assert IsRun(trace[..n + 1], acts[..n]);
      HandlesRealExits(trace[..n + 1], acts[..n]);
      ReturnStep(trace[n], acts[n], acts);
    }
  }

  lemma ReturnStep(s: State, a: Action, acts: seq<Action>)
    requires acts != [] && acts[|acts| - 1] == a && Enabled(s.c, a)
    requires s.c.pc.Leaving? || s.c.pc.Unmasking? ==> s.c.pc.rc == LastReturn(acts[..|acts| - 1])
    requires s.c.pc.Handling? ==> LastReturn(acts[..|acts| - 1]) == Ok
    ensures var pc := Do(s, a).c.pc;
            && (pc.Leaving? || pc.Unmasking? ==> pc.rc == LastReturn(acts))
            && (pc.Handling? ==> LastReturn(acts) == Ok)
  {
    hide ThreadStep, ThreadCan, ThreadTouch, PauserTouch, PauserStep, PauserCan, ManualStep, ManualCan;
    match a {
      case ByThread(t) => ThreadReturns(s.c, t, Fails(s.f, t), LastReturn(acts[..|acts| - 1]));
      case _ => OthersOnlyRouse(s, a);
    }
  }

  lemma ThreadReturns(c: Control, t: ThreadAct, fails: bool, before: Rc)
    requires ThreadCan(c, t) && (c.pc.Leaving? || c.pc.Unmasking? ==> c.pc.rc == before) && (c.pc.Handling? ==> before == Ok)
    ensures var pc := ThreadStep(c, t, fails).pc;
            var after := match t case VExit(rc, _, _) => rc case VRefused => Interrupted case _ => before;
            (pc.Leaving? || pc.Unmasking? ==> pc.rc == after) && (pc.Handling? ==> after == Ok)
  {
    hide NotifyAll;
    match t {
      case VExit(_, _, _) =>
      case VRefused =>
      case VClear =>
      case VUnmask =>
      case _ =>
    }
  }
}
