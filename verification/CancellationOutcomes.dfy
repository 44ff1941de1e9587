/** Why a run of the cancellation protocol ended as it did. */
module CancellationOutcomes {
  import opened Cancellation
  import opened CancellationRuns

  /** The step with which a command goes wrong by itself: it cannot be started,
      reading its output raises, or its result is not a good one. */
  predicate Breaks(s: State, t: State) {
    || ((s.worker.Before? || s.worker.Decide?) && t.worker == Finished(Failed))
    || (s.worker.Streaming? && t.worker == DetachWait(s.worker.k, true))
  }

  /** A command has gone wrong and the worker is on its way out. */
  predicate Leaving(w: WorkerAt) {
    w == Finished(Failed) || ((w.DetachWait? || w.DetachTest? || w.DetachLeave?) && w.raised)
  }

  /** The worker has found the stop flag set. */
  predicate Noticed(w: WorkerAt) {
    w == Finished(Stopped) || ((w.CheckLeave? || w.Decide?) && w.stopped)
  }

  lemma LeavingOnlyByBreak(s: State, t: State)
    requires Next(s, t) && Leaving(t.worker) && !Leaving(s.worker)
    ensures Breaks(s, t)
  {
    OnlyWorkerMovesWorker(s, t);
    hide Next;
  }

  lemma NoticedOnlyByCheck(s: State, t: State)
    requires Next(s, t) && Noticed(t.worker) && !Noticed(s.worker)
    ensures s.worker.CheckRead? && s.control.stop
  {
    OnlyWorkerMovesWorker(s, t);
    hide Next;
  }

  /** A run fails only after a command went wrong. */
  lemma {:induction false} FailureHasCause(run: seq<State>, j: nat)
    requires IsRun(run) && j < |run| && Leaving(run[j].worker)
    ensures exists i :: 0 < i <= j && Breaks(run[i - 1], run[i])
  {
    hide Next, Breaks;
    if Leaving(run[j - 1].worker) {
      FailureHasCause(run, j - 1);
    } else {
      LeavingOnlyByBreak(run[j - 1], run[j]);
    }
  }

  /** A run is stopped only after a check between or behind the commands read
      the flag while it was set. */
  lemma {:induction false} StopHasCause(run: seq<State>, j: nat)
    requires IsRun(run) && j < |run| && Noticed(run[j].worker)
    ensures exists i :: 0 <= i < j && run[i].worker.CheckRead? && run[i].control.stop
  {
    hide Next;
    if Noticed(run[j - 1].worker) {
      StopHasCause(run, j - 1);
    } else {
      NoticedOnlyByCheck(run[j - 1], run[j]);
    }
  }

  /** A finished run in which no command went wrong and no check found the flag
      set has succeeded. */
  lemma UnhinderedSucceeds(run: seq<State>, j: nat)
    requires IsRun(run) && j < |run| && run[j].worker.Finished?
    requires forall i :: 0 < i <= j ==> !Breaks(run[i - 1], run[i])
    requires forall i :: 0 <= i < j && run[i].worker.CheckRead? ==> !run[i].control.stop
    ensures run[j].worker == Finished(Succeeded)
  {
    hide IsRun, Breaks;
    match run[j].worker.outcome
    case Failed => FailureHasCause(run, j);
    case Stopped => StopHasCause(run, j);
    case Succeeded =>
  }

  // ----- the processes at the end -----

  /** The worker has read all of command k's output and waited for its end. */
  predicate Behind(w: WorkerAt, k: nat) {
    match w
    case Finished(outcome) => outcome == Succeeded
    case Before(j) => k < j
    case AttachWait(j) => k < j
    case AttachStore(j) => k < j
    case AttachTest(j) => k < j
    case AttachPoll(j) => k < j
    case AttachSignal(j) => k < j
    case AttachLeave(j) => k < j
    case Streaming(j) => k < j
    case DetachWait(j, raised) => k < j || (k == j && !raised)
    case DetachTest(j, raised) => k < j || (k == j && !raised)
    case DetachLeave(j, raised) => k < j || (k == j && !raised)
    case CheckWait(j) => k <= j
    case CheckRead(j) => k <= j
    case CheckLeave(j, _) => k <= j
    case Decide(j, _) => k <= j
  }

  /** Processes the worker is behind have ended; only a stop sends signals. */
  ghost predicate EndedOk(s: State) {
    && |s.control.procs| == 2
    && (Behind(s.worker, 0) ==> s.control.procs[0].Exited?)
    && (Behind(s.worker, 1) ==> s.control.procs[1].Exited?)
    && forall k :: 0 <= k < 2 && !s.control.procs[k].Fresh? && s.control.procs[k].terminated ==> s.control.stop
  }

  lemma WorkerKeepsEndedOk(s: State, t: State)
    requires LocalOk(s) && AttachOk(s) && EndedOk(s) && WorkerStep(s, t)
    ensures EndedOk(t)
  {
  }

  lemma NextKeepsEndedOk(s: State, t: State)
    requires Inv(s) && EndedOk(s) && Next(s, t)
    ensures EndedOk(t)
  {
    if WorkerStep(s, t) {
      WorkerKeepsEndedOk(s, t);
    } else if i: nat :| i < |s.stoppers| && StopStep(s, t, i) {
      hide WorkerStep;
      assert t.worker == s.worker;
    } else {
      hide WorkerStep;
      var k: nat :| ExitStep(s, t, k);
    }
  }

  /** In every run: the processes of the commands the worker has got behind have
      ended, both of them after a success; and a process was sent the signal only
      if a stop was requested. */
  lemma ProcessesHaveEnded(run: seq<State>, i: nat)
    requires IsRun(run) && i < |run|
    ensures var c := run[i].control;
            && |c.procs| == 2
            && (forall k :: 0 <= k < 2 && Behind(run[i].worker, k) ==> c.procs[k].Exited?)
            && (run[i].worker == Finished(Succeeded) ==> c.procs[0].Exited? && c.procs[1].Exited?)
            && forall k :: 0 <= k < 2 && (c.procs[k] == Alive(true) || c.procs[k] == Exited(true)) ==> c.stop
  {
    RunKeepsEndedOk(run, i);
  }

  lemma {:induction false} RunKeepsEndedOk(run: seq<State>, i: nat)
    requires IsRun(run) && i < |run|
    ensures EndedOk(run[i])
  {
    hide Inv, Next, Behind;
    if i == 0 {
      NotBehindAtFirst(run[0]);
    } else {
      RunKeepsEndedOk(run, i - 1);
      RunKeepsInv(run, i - 1);
      hide EndedOk;
      NextKeepsEndedOk(run[i - 1], run[i]);
    }
  }

  lemma NotBehindAtFirst(s: State)
    requires Init(s)
    ensures EndedOk(s)
  {
  }
}
