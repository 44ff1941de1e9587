/** What holds in every run of the cancellation protocol. */
module CancellationRuns {
  import opened Tokens
  import opened Cancellation

  lemma NextKeepsInv(s: State, t: State)
    requires Inv(s) && Next(s, t)
    ensures Inv(t)
  {
    hide Inv, WorkerStep, StopStep, ExitStep;
    if WorkerStep(s, t) {
      WorkerKeepsInv(s, t);
    } else if i: nat :| i < |s.stoppers| && StopStep(s, t, i) {
      StopKeepsInv(s, t, i);
    } else {
      var k: nat :| ExitStep(s, t, k);
      ExitKeepsInv(s, t, k);
    }
  }

  lemma {:induction false} RunKeepsInv(run: seq<State>, i: nat)
    requires IsRun(run) && i < |run|
    ensures Inv(run[i])
  {
    hide Inv, Next;
    if i == 0 {
      InitInv(run[0]);
    } else {
      RunKeepsInv(run, i - 1);
      NextKeepsInv(run[i - 1], run[i]);
    }
  }

  /** In every interleaving, whenever the lock is free and a stop was requested,
      the attached process has ended or was sent the signal; what is attached is
      the process of the command the worker is running; and an answered request
      has set the flag. */
  lemma StopReachesProcess(run: seq<State>, i: nat)
    requires IsRun(run) && i < |run|
    ensures var c := run[i].control;
            && c.process == Attached(run[i].worker)
            && (forall j :: 0 <= j < |run[i].stoppers| && run[i].stoppers[j] == Answered ==> c.stop)
            && (run[i].lock == Nobody && c.stop && c.process.Some? ==>
                  c.process.value < |c.procs| &&
                    (c.procs[c.process.value].Exited? || c.procs[c.process.value] == Alive(true)))
  {
    RunKeepsInv(run, i);
    var c := run[i].control;
    if run[i].lock == Nobody && c.stop && c.process.Some? {
      var k := c.process.value;
      assert !AboutToSignal(run[i], k);
      assert !Unserved(c, k);
    }
  }

  // ----- a stop before a check -----

  /** The worker has read the stop flag after command k and found it unset. */
  predicate Cleared(w: WorkerAt, k: nat) {
    || w == CheckLeave(k, false)
    || w == Decide(k, false)
    || w == Finished(Succeeded)
    || (!w.Finished? && w.k > k)
  }

  ghost predicate StoppedInTime(s: State, k: nat) {
    s.control.stop && !Cleared(s.worker, k)
  }

  lemma StoppedInTimeStays(s: State, t: State, k: nat)
    requires k < 2 && Command(s.worker) < 2 && StoppedInTime(s, k) && Next(s, t)
    ensures StoppedInTime(t, k)
  {
    if WorkerStep(s, t) {
    } else if i: nat :| i < |s.stoppers| && StopStep(s, t, i) {
    } else {
      var j: nat :| ExitStep(s, t, j);
    }
  }

  /** A stop that lands before the worker's check after command k: no later
      state has passed that check, so the run never ends in success. */
  lemma {:induction false} EarlyStopNeverSucceeds(run: seq<State>, i: nat, j: nat, k: nat)
    requires IsRun(run) && i <= j < |run| && k < 2
    requires run[i].control.stop && !Cleared(run[i].worker, k)
    ensures run[j].control.stop && !Cleared(run[j].worker, k) && run[j].worker != Finished(Succeeded)
  {
    hide Next;
    if i < j {
      EarlyStopNeverSucceeds(run, i, j - 1, k);
      RunKeepsInv(run, j - 1);
      StoppedInTimeStays(run[j - 1], run[j], k);
    }
  }

  /** Stop requests and processes leave the worker where it is. */
  lemma OnlyWorkerMovesWorker(s: State, t: State)
    requires Next(s, t)
    ensures WorkerStep(s, t) || t.worker == s.worker
  {
    if i: nat :| i < |s.stoppers| && StopStep(s, t, i) {
      assert t.worker == s.worker;
    }
  }

  lemma ClearedOnlyByCheck(s: State, t: State, k: nat)
    requires k < 2 && Command(s.worker) < 2 && Next(s, t) && Cleared(t.worker, k) && !Cleared(s.worker, k)
    ensures s.worker == CheckRead(k) && !s.control.stop
  {
    OnlyWorkerMovesWorker(s, t);
    hide Next;
  }

  /** A worker that has passed the check after command k, so in particular one
      that ended in success, has read the flag there while it was unset; a stop that
      lands later changes nothing. */
  lemma {:induction false} PassedUnstopped(run: seq<State>, j: nat, k: nat)
    requires IsRun(run) && j < |run| && k < 2 && Cleared(run[j].worker, k)
    ensures exists i :: 0 <= i < j && run[i].worker == CheckRead(k) && !run[i].control.stop
  {
    hide Next, Cleared;
    StartIsNotCleared(run[0], k);
    if j > 0 {
      RunKeepsInv(run, j - 1);
      hide LockOk, LocalOk, ServedOk;
      if Cleared(run[j - 1].worker, k) {
        PassedUnstopped(run, j - 1, k);
      } else {
        ClearedOnlyByCheck(run[j - 1], run[j], k);
      }
    }
  }

  lemma StartIsNotCleared(s: State, k: nat)
    requires Init(s)
    ensures !Cleared(s.worker, k)
  {
  }

  ghost predicate SecondUnstarted(s: State) {
    StoppedInTime(s, 0) && |s.control.procs| == 2 && s.control.procs[1] == Fresh
  }

  lemma SecondUnstartedStays(s: State, t: State)
    requires Inv(s) && SecondUnstarted(s) && Next(s, t)
    ensures SecondUnstarted(t)
  {
    StoppedInTimeStays(s, t, 0);
    if WorkerStep(s, t) {
      assert t.control.procs == s.control.procs || s.worker.k == 0;
    } else if i: nat :| i < |s.stoppers| && StopStep(s, t, i) {
      assert t.control.procs[1] == Fresh;
    } else {
      var j: nat :| ExitStep(s, t, j);
    }
  }

  /** A stop that lands before the check between the commands: the second
      command is never started. */
  lemma {:induction false} EarlyStopSkipsSecond(run: seq<State>, i: nat, j: nat)
    requires IsRun(run) && i <= j < |run|
    requires SecondUnstarted(run[i])
    ensures SecondUnstarted(run[j])
  {
    hide Next, Inv, SecondUnstarted;
    if i < j {
      EarlyStopSkipsSecond(run, i, j - 1);
      RunKeepsInv(run, j - 1);
      SecondUnstartedStays(run[j - 1], run[j]);
    }
  }

  // ----- the lock makes each method one step -----

  /** What the world may do to a process meanwhile: start it, or let it end. */
  predicate Aged(now: Process, was: Process) {
    now == was || now.Exited? || (was.Fresh? && now == Alive(false))
  }

  ghost predicate Same(now: Control, was: Control) {
    && now.process == was.process && now.stop == was.stop && |now.procs| == |was.procs|
    && forall j :: 0 <= j < |now.procs| ==> Aged(now.procs[j], was.procs[j])
  }

  /** The controller as the holder's method so far would leave it, had nothing
      else happened since the lock was taken. */
  function WorkerGoal(w: WorkerAt, e: Control): Control {
    match w
    case AttachTest(k) => e.(process := Some(k))
    case AttachPoll(k) => e.(process := Some(k))
    case AttachSignal(k) => e.(process := Some(k))
    case AttachLeave(k) => AttachEffect(e, k)
    case DetachLeave(k, _) => DetachEffect(e, k)
    case _ => e
  }

  function StopGoal(p: StopAt, e: Control): Control {
    match p
    case StopTest => e.(stop := true)
    case StopPoll(_) => e.(stop := true)
    case StopSignal(_) => e.(stop := true)
    case StopLeave => StopEffect(e)
    case _ => e
  }

  /** While the lock is held, the controller differs from the holder's goal only
      by the ageing of processes; a flag read under the lock is the flag at entry. */
  ghost predicate Atomic(s: State) {
    && (s.lock == Worker ==> Same(s.control, WorkerGoal(s.worker, s.entry)))
    && (s.lock.Stopper? && s.lock.i < |s.stoppers| ==> Same(s.control, StopGoal(s.stoppers[s.lock.i], s.entry)))
    && (s.worker.CheckLeave? ==> s.worker.stopped == s.entry.stop)
    && EntryOk(s)
  }

  /** The process the holder may signal had been started when it took the lock. */
  ghost predicate EntryOk(s: State) {
    && (s.lock == Worker && Command(s.worker) < |s.entry.procs| && Attached(s.worker).Some? ==>
      s.entry.procs[Command(s.worker)] != Fresh)
    && (s.lock == Worker && Command(s.worker) < |s.entry.procs| && s.worker.AttachStore? ==>
      s.entry.procs[Command(s.worker)] != Fresh)
    && (s.lock.Stopper? && s.entry.process.Some? && s.entry.process.value < |s.entry.procs| ==>
          s.entry.procs[s.entry.process.value] != Fresh)
  }

  lemma SameAges(a: Control, b: Control, c: Control)
    requires Same(a, b) && Same(b, c)
    ensures Same(a, c)
  {
    forall j | 0 <= j < |a.procs| ensures Aged(a.procs[j], c.procs[j]) {
      assert Aged(a.procs[j], b.procs[j]) && Aged(b.procs[j], c.procs[j]);
    }
  }

  /** A step of anyone but the holder only ages processes. */
  lemma WorkerAges(s: State, t: State)
    requires Inv(s) && WorkerStep(s, t) && s.lock.Stopper?
    ensures Same(t.control, s.control) && t.lock == s.lock && t.entry == s.entry && t.stoppers == s.stoppers &&
      !t.worker.CheckLeave?
  {
  }

  lemma WorkerSection(s: State, t: State)
    requires Inv(s) && Atomic(s) && WorkerStep(s, t) && WorkerHolds(s.worker) && t.lock == Worker
    ensures Same(t.control, WorkerGoal(t.worker, t.entry)) &&
      (t.worker.CheckLeave? ==> t.worker.stopped == t.entry.stop)
  {
  }

  lemma WorkerKeepsEntryOk(s: State, t: State)
    requires Inv(s) && EntryOk(s) && WorkerStep(s, t)
    ensures EntryOk(t)
  {
  }

  lemma WorkerKeepsAtomic(s: State, t: State)
    requires Inv(s) && Atomic(s) && WorkerStep(s, t)
    ensures Atomic(t)
  {
    WorkerKeepsEntryOk(s, t);
    hide EntryOk;
    if s.lock.Stopper? {
      WorkerAges(s, t);
      hide WorkerStep, Inv;
      if s.lock.i < |s.stoppers| { SameAges(t.control, s.control, StopGoal(s.stoppers[s.lock.i], s.entry)); }
    } else if WorkerHolds(s.worker) && t.lock == Worker {
      WorkerSection(s, t);
    }
  }

  lemma StopKeepsAtomic(s: State, t: State, i: nat)
    requires Inv(s) && Atomic(s) && i < |s.stoppers| && StopStep(s, t, i)
    ensures Atomic(t)
  {
  }

  lemma ExitKeepsAtomic(s: State, t: State, k: nat)
    requires Inv(s) && Atomic(s) && ExitStep(s, t, k)
    ensures Atomic(t)
  {
    assert Same(t.control, s.control);
    hide Inv, ExitStep;
    if s.lock == Worker {
      SameAges(t.control, s.control, WorkerGoal(s.worker, s.entry));
    } else if s.lock.Stopper? && s.lock.i < |s.stoppers| {
      SameAges(t.control, s.control, StopGoal(s.stoppers[s.lock.i], s.entry));
    }
  }

  lemma {:induction false} RunKeepsAtomic(run: seq<State>, i: nat)
    requires IsRun(run) && i < |run|
    ensures Atomic(run[i])
  {
    hide Inv, WorkerStep, StopStep, ExitStep, Atomic;
    if i == 0 {
      assert Atomic(run[0]) by { AtomicAtFirst(run[0]); }
    } else {
      var s, t := run[i - 1], run[i];
      RunKeepsInv(run, i - 1);
      RunKeepsAtomic(run, i - 1);
      if WorkerStep(s, t) {
        WorkerKeepsAtomic(s, t);
      } else if j: nat :| j < |s.stoppers| && StopStep(s, t, j) {
        StopKeepsAtomic(s, t, j);
      } else {
        var k: nat :| ExitStep(s, t, k);
        ExitKeepsAtomic(s, t, k);
      }
    }
  }

  lemma AtomicAtFirst(s: State)
    requires Init(s)
    ensures Atomic(s)
  {
  }

  /** The lock makes every method one step: when its holder is about to leave,
      the controller is what the whole method makes of it from the moment the lock
      was taken, whatever was interleaved; processes may only have started or ended. */
  lemma MethodsAreAtomic(run: seq<State>, i: nat)
    requires IsRun(run) && i < |run|
    ensures var s := run[i];
      && (s.worker.AttachLeave? ==> Same(s.control, AttachEffect(s.entry, s.worker.k)))
      && (s.worker.DetachLeave? ==> Same(s.control, DetachEffect(s.entry, s.worker.k)))
      && (s.worker.CheckLeave? ==> Same(s.control, s.entry) && s.worker.stopped == s.entry.stop)
      && forall j :: 0 <= j < |s.stoppers| && s.stoppers[j] == StopLeave ==> Same(s.control, StopEffect(s.entry))
  {
    RunKeepsInv(run, i);
    RunKeepsAtomic(run, i);
  }

  // ----- progress -----

  function WorkerRank(w: WorkerAt): nat {
    var base := if w.Finished? || w.k > 0 then 0 else 20;
    match w
    case Finished(_) => 0
    case Before(_) => base + 15
    case AttachWait(_) => base + 14
    case AttachStore(_) => base + 13
    case AttachTest(_) => base + 12
    case AttachPoll(_) => base + 11
    case AttachSignal(_) => base + 10
    case AttachLeave(_) => base + 9
    case Streaming(_) => base + 8
    case DetachWait(_, _) => base + 7
    case DetachTest(_, _) => base + 6
    case DetachLeave(_, _) => base + 5
    case CheckWait(_) => base + 4
    case CheckRead(_) => base + 3
    case CheckLeave(_, _) => base + 2
    case Decide(_, _) => base + 1
  }

  function StopRank(p: StopAt): nat {
    match p
    case NotAsked => 7
    case StopWait => 6
    case StopSet => 5
    case StopTest => 4
    case StopPoll(_) => 3
    case StopSignal(_) => 2
    case StopLeave => 1
    case Answered => 0
  }

  function StopRanks(ps: seq<StopAt>): nat {
    if ps == [] then 0 else StopRank(ps[0]) + StopRanks(ps[1..])
  }

  function ProcessRank(p: Process): nat {
    match p
    case Fresh => 2
    case Alive(_) => 1
    case Exited(_) => 0
  }

  /** How many steps are left at most. */
  function Rank(s: State): nat
    requires |s.control.procs| == 2
  {
    WorkerRank(s.worker) + StopRanks(s.stoppers) + ProcessRank(s.control.procs[0]) + ProcessRank(s.control.procs[1])
  }

  lemma {:induction false} StopRanksUpdate(ps: seq<StopAt>, i: nat, p: StopAt)
    requires i < |ps|
    ensures StopRanks(ps[i := p]) + StopRank(ps[i]) == StopRanks(ps) + StopRank(p)
  {
    if i == 0 {
      assert ps[0 := p][1..] == ps[1..];
    } else {
      StopRanksUpdate(ps[1..], i - 1, p);
      assert ps[i := p][1..] == ps[1..][i - 1 := p];
    }
  }

  lemma StopStepRank(s: State, t: State, i: nat)
    requires i < |s.stoppers| && StopStep(s, t, i) && |s.control.procs| == 2
    ensures |t.control.procs| == 2 && Rank(t) < Rank(s)
  {
    StopRanksUpdate(s.stoppers, i, t.stoppers[i]);
    assert t.stoppers == s.stoppers[i := t.stoppers[i]];
  }

  /** What a worker step does to the processes: it starts or signals one, or leaves them alone. */
  lemma WorkerStepProcesses(s: State, t: State)
    requires AttachOk(s) && WorkerStep(s, t)
    ensures |s.control.procs| == 2 && |t.control.procs| == 2 && t.stoppers == s.stoppers
    ensures s.worker.Before? ==>
      ProcessRank(t.control.procs[0]) + ProcessRank(t.control.procs[1]) <=
      ProcessRank(s.control.procs[0]) + ProcessRank(s.control.procs[1])
    ensures !s.worker.Before? ==>
      && ProcessRank(t.control.procs[0]) <= ProcessRank(s.control.procs[0])
      && ProcessRank(t.control.procs[1]) <= ProcessRank(s.control.procs[1])
  {
  }

  lemma WorkerStepRanks(s: State, t: State)
    requires AttachOk(s) && WorkerStep(s, t)
    ensures WorkerRank(t.worker) < WorkerRank(s.worker)
  {
    hide Signal, DetachEffect;
  }

  lemma WorkerStepRank(s: State, t: State)
    requires AttachOk(s) && WorkerStep(s, t)
    ensures |t.control.procs| == 2 && Rank(t) < Rank(s)
  {
    hide StopRanks, AttachOk, WorkerStep, WorkerRank, ProcessRank;
    WorkerStepProcesses(s, t);
    WorkerStepRanks(s, t);
    RankParts(s);
    RankParts(t);
  }

  lemma RankParts(s: State)
    requires |s.control.procs| == 2
    ensures Rank(s) ==
      WorkerRank(s.worker) + StopRanks(s.stoppers) + ProcessRank(s.control.procs[0]) + ProcessRank(s.control.procs[1])
  {
  }

  lemma NextLowersRank(s: State, t: State)
    requires Inv(s) && Next(s, t)
    ensures |t.control.procs| == 2 && Rank(t) < Rank(s)
  {
    hide WorkerStep, StopStep, Rank;
    if WorkerStep(s, t) {
      WorkerStepRank(s, t);
    } else if i: nat :| i < |s.stoppers| && StopStep(s, t, i) {
      StopStepRank(s, t, i);
    } else {
      var k: nat :| ExitStep(s, t, k);
      ExitStepRank(s, t, k);
    }
  }

  lemma ExitStepRank(s: State, t: State, k: nat)
    requires |s.control.procs| == 2 && ExitStep(s, t, k)
    ensures |t.control.procs| == 2 && Rank(t) < Rank(s)
  {
    hide StopRanks;
  }

  /** Every interleaving is finite, with a bound known at the start. */
  lemma {:induction false} RunsEnd(run: seq<State>, i: nat)
    requires IsRun(run) && i < |run|
    ensures |run[i].control.procs| == 2 && Rank(run[i]) + i <= Rank(run[0])
  {
    hide Next, Rank;
    RunKeepsInv(run, i);
    if i > 0 {
      RunsEnd(run, i - 1);
      RunKeepsInv(run, i - 1);
      NextLowersRank(run[i - 1], run[i]);
    }
  }

  ghost predicate CanStep(s: State) {
    exists t :: Next(s, t)
  }

  lemma WorkerCanStep(s: State)
    requires Inv(s) && !s.worker.Finished? && (s.lock == Nobody || WorkerHolds(s.worker))
    ensures CanStep(s)
  {
    var c := s.control;
    var w := s.worker;
    if w.Before? {
      var t := s.(worker := AttachWait(w.k), control := c.(procs := c.procs[w.k := Alive(false)]));
      assert WorkerStep(s, t) && Next(s, t);
    } else if w.Streaming? {
      if c.procs[w.k].Alive? {
        var t := s.(control := c.(procs := c.procs[w.k := Exited(c.procs[w.k].terminated)]));
        assert ExitStep(s, t, w.k) && Next(s, t);
      } else {
        var t := s.(worker := DetachWait(w.k, false));
        assert WorkerStep(s, t) && Next(s, t);
      }
    } else {
      var t := if w.Decide? then s.(worker := Finished(Failed)) else WorkerMove(s);
      assert WorkerStep(s, t) && Next(s, t);
    }
  }

  lemma StopperCanStep(s: State, i: nat)
    requires Inv(s) && i < |s.stoppers| && s.stoppers[i] != Answered
    requires s.lock == Nobody || StopHolds(s.stoppers[i])
    ensures CanStep(s)
  {
    var t := StopMove(s, i);
    assert StopStep(s, t, i) && Next(s, t);
  }

  /** No deadlock: a state of a run from which no step is possible is one where
      the worker has finished and every stop request was answered. */
  lemma StuckIsDone(run: seq<State>, i: nat)
    requires IsRun(run) && i < |run| && !CanStep(run[i])
    ensures run[i].worker.Finished? && forall j :: 0 <= j < |run[i].stoppers| ==> run[i].stoppers[j] == Answered
  {
    RunKeepsInv(run, i);
    var s := run[i];
    hide CanStep, Next;
    if s.lock.Stopper? {
      StopperCanStep(s, s.lock.i);
    } else if !s.worker.Finished? {
      WorkerCanStep(s);
    } else {
      forall j | 0 <= j < |s.stoppers| ensures s.stoppers[j] == Answered {
        if s.stoppers[j] != Answered { StopperCanStep(s, j); }
      }
    }
  }
}
