/** Stopping a running analysis: the process controller, whose methods run under
    one lock, the worker that runs two commands, and any number of stop requests. */
module Cancellation {
  import opened Tokens

  /** A child process: not started, running, or ended; and whether it was sent
      a termination signal while it ran. */
  datatype Process = Fresh | Alive(terminated: bool) | Exited(terminated: bool)

  /** What sending the signal after a poll does. */
  function Signalled(p: Process): Process {
    if p.Alive? then Alive(true) else p
  }

  /** The controller's fields and the state of every command's process. */
  datatype Control = Control(process: Option<nat>, stop: bool, procs: seq<Process>)

  function Signal(c: Control, k: nat): Control {
    if k < |c.procs| then c.(procs := c.procs[k := Signalled(c.procs[k])]) else c
  }

  function AttachEffect(c: Control, k: nat): Control {
    var c' := c.(process := Some(k));
    if c.stop then Signal(c', k) else c'
  }

  function DetachEffect(c: Control, k: nat): Control {
    if c.process == Some(k) then c.(process := None) else c
  }

  function StopEffect(c: Control): Control {
    var c' := c.(stop := true);
    if c.process.Some? then Signal(c', c.process.value) else c'
  }

  class Popen {
    var state: Process

    constructor ()
      ensures state == Alive(false)
    {
      state := Alive(false);
    }

    predicate Running()
      reads this
    {
      state.Alive?
    }

    method Terminate()
      modifies this
      ensures state == Signalled(old(state))
    {
      if state.Alive? {
        state := Alive(true);
      }
    }
  }

  ghost predicate Distinct(ps: seq<Popen>) {
    forall i, j :: 0 <= i < j < |ps| ==> ps[i] != ps[j]
  }

  ghost function Position(ps: seq<Popen>, p: Popen): (k: nat)
    requires p in ps
    ensures k < |ps| && ps[k] == p
  {
    if ps[0] == p then 0 else 1 + Position(ps[1..], p)
  }

  /** The controller's methods, each as its lock lets it run: without interference.
      The processes started so far are passed along for the specification only. */
  class ProcessController {
    var process: Popen?
    var stopRequested: bool

    /** A stop request has reached the attached process. */
    predicate Served()
      reads this, process
    {
      stopRequested && process != null && process.state.Alive? ==> process.state.terminated
    }

    /** The attached process is among those listed, each of them once. */
    ghost predicate Lists(ps: seq<Popen>)
      reads this
    {
      Distinct(ps) && (process != null ==> process in ps)
    }

    /** The controller as the state machine sees it. */
    ghost function View(ps: seq<Popen>): Control
      requires Lists(ps)
      reads this, ps
    {
      Control(if process == null then None else Some(Position(ps, process)), stopRequested,
        seq(|ps|, i requires 0 <= i < |ps| reads ps => ps[i].state))
    }

    constructor ()
      ensures process == null && !stopRequested && Served() && Lists([])
    {
      process, stopRequested := null, false;
    }

    method Attach(p: Popen, ghost ps: seq<Popen>)
      requires Lists(ps) && p in ps
      modifies this, p
      ensures process == p && stopRequested == old(stopRequested)
      ensures p.state == if stopRequested then Signalled(old(p.state)) else old(p.state)
      ensures Served()
      ensures Lists(ps) && View(ps) == AttachEffect(old(View(ps)), Position(ps, p))
    {
      process := p;
      if stopRequested && p.Running() {
        p.Terminate();
      }
    }

    method Detach(p: Popen, ghost ps: seq<Popen>)
      requires Served() && Lists(ps) && p in ps
      modifies this
      ensures process == (if old(process) == p then null else old(process)) && stopRequested == old(stopRequested)
      ensures Served()
      ensures Lists(ps) && View(ps) == DetachEffect(old(View(ps)), Position(ps, p))
    {
      if process == p {
        process := null;
      }
    }

    method RequestStop(ghost ps: seq<Popen>)
      requires Lists(ps)
      modifies this, process
      ensures stopRequested && process == old(process)
      ensures process != null ==> process.state == Signalled(old(process.state))
      ensures Served()
      ensures Lists(ps) && View(ps) == StopEffect(old(View(ps)))
    {
      stopRequested := true;
      if process != null && process.Running() {
        process.Terminate();
      }
    }
  }

  datatype Outcome = Succeeded | Stopped | Failed

  /** Where the worker is in command k, 0 or 1. Steps marked "held" hold the lock. */
  datatype WorkerAt =
    | Before(k: nat)
    | AttachWait(k: nat)
    | AttachStore(k: nat)      // held
    | AttachTest(k: nat)       // held
    | AttachPoll(k: nat)       // held
    | AttachSignal(k: nat)     // held
    | AttachLeave(k: nat)      // held
    | Streaming(k: nat)
    | DetachWait(k: nat, raised: bool)
    | DetachTest(k: nat, raised: bool)   // held
    | DetachLeave(k: nat, raised: bool)  // held
    | CheckWait(k: nat)
    | CheckRead(k: nat)                  // held
    | CheckLeave(k: nat, stopped: bool)  // held
    | Decide(k: nat, stopped: bool)
    | Finished(outcome: Outcome)

  /** Where a stop request is. */
  datatype StopAt =
    | NotAsked
    | StopWait
    | StopSet               // held
    | StopTest              // held
    | StopPoll(k: nat)      // held
    | StopSignal(k: nat)    // held
    | StopLeave             // held
    | Answered

  predicate WorkerHolds(w: WorkerAt) {
    w.AttachStore? || w.AttachTest? || w.AttachPoll? || w.AttachSignal? || w.AttachLeave?
    || w.DetachTest? || w.DetachLeave? || w.CheckRead? || w.CheckLeave?
  }

  predicate StopHolds(p: StopAt) {
    p.StopSet? || p.StopTest? || p.StopPoll? || p.StopSignal? || p.StopLeave?
  }

  datatype Holder = Nobody | Worker | Stopper(i: nat)

  /** entry records the controller as it was when the lock was last taken. */
  datatype State = State(control: Control, entry: Control, lock: Holder, worker: WorkerAt, stoppers: seq<StopAt>)

  ghost predicate Init(s: State) {
    && s.control == Control(None, false, [Fresh, Fresh])
    && s.entry == s.control
    && s.lock == Nobody && s.worker == Before(0)
    && forall i :: 0 <= i < |s.stoppers| ==> s.stoppers[i] == NotAsked
  }

  /** The one step of a worker that neither starts a command, reads its output
      nor decides how to go on; a waiting worker takes the free lock. */
  function WorkerMove(s: State): State {
    var c := s.control;
    match s.worker
    case AttachWait(k) => s.(lock := Worker, entry := c, worker := AttachStore(k))
    case AttachStore(k) => s.(worker := AttachTest(k), control := c.(process := Some(k)))
    case AttachTest(k) => s.(worker := if c.stop then AttachPoll(k) else AttachLeave(k))
    case AttachPoll(k) =>
      s.(worker := if k < |c.procs| && c.procs[k].Alive? then AttachSignal(k) else AttachLeave(k))
    case AttachSignal(k) => s.(worker := AttachLeave(k), control := Signal(c, k))
    case AttachLeave(k) => s.(lock := Nobody, worker := Streaming(k))
    case DetachWait(k, raised) => s.(lock := Worker, entry := c, worker := DetachTest(k, raised))
    case DetachTest(k, raised) => s.(worker := DetachLeave(k, raised), control := DetachEffect(c, k))
    case DetachLeave(k, raised) => s.(lock := Nobody, worker := if raised then Finished(Failed) else CheckWait(k))
    case CheckWait(k) => s.(lock := Worker, entry := c, worker := CheckRead(k))
    case CheckRead(k) => s.(worker := CheckLeave(k, c.stop))
    case CheckLeave(k, stopped) => s.(lock := Nobody, worker := Decide(k, stopped))
    case _ => s
  }

  predicate WorkerStep(s: State, t: State) {
    var c := s.control;
    match s.worker
    case Before(k) =>
      || t == s.(worker := Finished(Failed))
      || (k < |c.procs| && t == s.(worker := AttachWait(k), control := c.(procs := c.procs[k := Alive(false)])))
    case Streaming(k) =>
      || t == s.(worker := DetachWait(k, true))
      || (k < |c.procs| && c.procs[k].Exited? && t == s.(worker := DetachWait(k, false)))
    case Decide(k, stopped) =>
      || t == s.(worker := Finished(Failed))
      || t == s.(worker := if stopped then Finished(Stopped) else if k == 0 then Before(1) else Finished(Succeeded))
    case Finished(_) => false
    case _ =>
      && (s.worker.AttachWait? || s.worker.DetachWait? || s.worker.CheckWait? ==> s.lock == Nobody)
      && t == WorkerMove(s)
  }

  function StopMove(s: State, i: nat): State
    requires i < |s.stoppers|
  {
    var c := s.control;
    match s.stoppers[i]
    case NotAsked => s.(stoppers := s.stoppers[i := StopWait])
    case StopWait => s.(lock := Stopper(i), entry := c, stoppers := s.stoppers[i := StopSet])
    case StopSet => s.(stoppers := s.stoppers[i := StopTest], control := c.(stop := true))
    case StopTest => s.(stoppers := s.stoppers[i := if c.process.Some? then StopPoll(c.process.value) else StopLeave])
    case StopPoll(k) =>
      s.(stoppers := s.stoppers[i := if k < |c.procs| && c.procs[k].Alive? then StopSignal(k) else StopLeave])
    case StopSignal(k) => s.(stoppers := s.stoppers[i := StopLeave], control := Signal(c, k))
    case StopLeave => s.(lock := Nobody, stoppers := s.stoppers[i := Answered])
    case Answered => s
  }

  predicate StopStep(s: State, t: State, i: nat)
    requires i < |s.stoppers|
  {
    && s.stoppers[i] != Answered && (s.stoppers[i] == StopWait ==> s.lock == Nobody)
    && t == StopMove(s, i)
  }

  /** A process ends by itself, at any moment. */
  predicate ExitStep(s: State, t: State, k: nat) {
    var c := s.control;
    k < |c.procs| && c.procs[k].Alive? && t == s.(control := c.(procs := c.procs[k := Exited(c.procs[k].terminated)]))
  }

  ghost predicate Next(s: State, t: State) {
    || WorkerStep(s, t)
    || (exists i: nat :: i < |s.stoppers| && StopStep(s, t, i))
    || (exists k: nat :: ExitStep(s, t, k))
  }

  ghost predicate IsRun(run: seq<State>) {
    |run| > 0 && Init(run[0]) && forall i :: 0 < i < |run| ==> Next(run[i - 1], run[i])
  }

  // ----- the invariant -----

  /** Exactly the actor that is between taking and leaving holds the lock. */
  ghost predicate LockOk(s: State) {
    && (WorkerHolds(s.worker) <==> s.lock == Worker)
    && (forall i: nat :: i < |s.stoppers| ==> (StopHolds(s.stoppers[i]) <==> s.lock == Stopper(i)))
    && (s.lock.Stopper? ==> s.lock.i < |s.stoppers|)
  }

  /** The command whose process the controller must have attached. */
  function Attached(w: WorkerAt): Option<nat> {
    match w
    case AttachTest(k) => Some(k)
    case AttachPoll(k) => Some(k)
    case AttachSignal(k) => Some(k)
    case AttachLeave(k) => Some(k)
    case Streaming(k) => Some(k)
    case DetachWait(k, _) => Some(k)
    case DetachTest(k, _) => Some(k)
    case _ => None
  }

  function Command(w: WorkerAt): nat {
    if w.Finished? then 0 else w.k
  }

  /** The attached process is the one of the command the worker is running. */
  ghost predicate AttachOk(s: State) {
    && |s.control.procs| == 2 && Command(s.worker) < 2
    && s.control.process == Attached(s.worker)
    && (Attached(s.worker).Some? || s.worker.AttachWait? || s.worker.AttachStore? ==>
          s.control.procs[Command(s.worker)] != Fresh)
    && (s.worker.Before? ==> s.control.procs[s.worker.k] == Fresh)
    && (Command(s.worker) == 0 && !s.worker.Finished? ==> s.control.procs[1] == Fresh)
  }

  /** What the steps under the lock already know. */
  ghost predicate LocalOk(s: State) {
    && (s.worker.AttachPoll? || s.worker.AttachSignal? ==> s.control.stop)
    && forall i: nat :: i < |s.stoppers| ==>
         var p := s.stoppers[i];
         && ((StopHolds(p) && !p.StopSet?) || p.Answered? ==> s.control.stop)
         && (p.StopPoll? || p.StopSignal? ==> s.control.process == Some(p.k))
  }

  /** The holder of the lock is about to look at process k. */
  predicate AboutToSignal(s: State, k: nat) {
    match s.lock
    case Nobody => false
    case Worker => s.worker == AttachTest(k) || s.worker == AttachPoll(k) || s.worker == AttachSignal(k)
    case Stopper(i) =>
      i < |s.stoppers| && (s.stoppers[i] == StopTest || s.stoppers[i] == StopPoll(k) || s.stoppers[i] == StopSignal(k))
  }

  predicate Unserved(c: Control, k: nat) {
    c.stop && c.process == Some(k) && k < |c.procs| && c.procs[k].Alive? && !c.procs[k].terminated
  }

  /** An attached running process that was not yet sent the signal, though a stop
      was requested, is about to be. */
  ghost predicate ServedOk(s: State) {
    forall k: nat :: Unserved(s.control, k) ==> AboutToSignal(s, k)
  }

  ghost predicate Inv(s: State) {
    LockOk(s) && AttachOk(s) && LocalOk(s) && ServedOk(s)
  }

  lemma InitInv(s: State)
    requires Init(s)
    ensures Inv(s)
  {
  }

  lemma WorkerKeepsLockOk(s: State, t: State)
    requires LockOk(s) && WorkerStep(s, t)
    ensures LockOk(t)
  {
  }

  lemma WorkerKeepsAttachOk(s: State, t: State)
    requires AttachOk(s) && WorkerStep(s, t)
    ensures AttachOk(t)
  {
  }

  lemma WorkerKeepsLocalOk(s: State, t: State)
    requires LockOk(s) && LocalOk(s) && WorkerStep(s, t)
    ensures LocalOk(t)
  {
  }

  lemma WorkerKeepsServedOk(s: State, t: State)
    requires LockOk(s) && AttachOk(s) && ServedOk(s) && WorkerStep(s, t)
    ensures ServedOk(t)
  {
    forall k: nat | Unserved(t.control, k) ensures AboutToSignal(t, k) {
      if Unserved(s.control, k) { assert AboutToSignal(s, k); }
    }
  }

  lemma WorkerKeepsInv(s: State, t: State)
    requires Inv(s) && WorkerStep(s, t)
    ensures Inv(t)
  {
    hide LockOk, AttachOk, LocalOk, ServedOk, WorkerStep;
    WorkerKeepsLockOk(s, t);
    WorkerKeepsAttachOk(s, t);
    WorkerKeepsLocalOk(s, t);
    WorkerKeepsServedOk(s, t);
  }

  lemma StopKeepsServedOk(s: State, t: State, i: nat)
    requires Inv(s) && i < |s.stoppers| && StopStep(s, t, i)
    ensures ServedOk(t)
  {
    forall k: nat | Unserved(t.control, k) ensures AboutToSignal(t, k) {
      if Unserved(s.control, k) { assert AboutToSignal(s, k); }
    }
  }

  lemma StopKeepsInv(s: State, t: State, i: nat)
    requires Inv(s) && i < |s.stoppers| && StopStep(s, t, i)
    ensures Inv(t)
  {
    hide ServedOk;
    StopKeepsServedOk(s, t, i);
  }

  lemma ExitKeepsInv(s: State, t: State, k: nat)
    requires Inv(s) && ExitStep(s, t, k)
    ensures Inv(t)
  {
    forall j: nat | Unserved(t.control, j) ensures AboutToSignal(t, j) {
      assert Unserved(s.control, j);
    }
  }
}
