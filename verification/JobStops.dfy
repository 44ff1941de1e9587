/** A background job and the analysis it runs, side by side: what a stop request does
    to the job. */
module JobStops {
  import C = Cancellation
  import R = CancellationRuns
  import J = Jobs

  datatype State = State(job: J.State, analysis: C.State)

  ghost predicate Init(s: State) {
    J.Init(s.job) && C.Init(s.analysis)
  }

  /** A step of the job, its snapshots or its readers. The worker leaves the analysis as
      that ended: with a summary if it succeeded, with an error if it raised. */
  ghost predicate JobStep(s: State, t: State) {
    && t.analysis == s.analysis && J.Next(s.job, t.job)
    && (s.job.worker.Analyze? && t.job.worker.SetSummary? ==> s.analysis.worker == C.Finished(C.Succeeded))
    && (s.job.worker.Analyze? && t.job.worker.SetError? ==>
          s.analysis.worker.Finished? && s.analysis.worker.outcome != C.Succeeded)
  }

  /** A step of the analysis or of a stop request. Only the worker that runs the
      analysis moves it on. */
  ghost predicate AnalysisStep(s: State, t: State) {
    && t.job == s.job && C.Next(s.analysis, t.analysis)
    && (t.analysis.worker != s.analysis.worker ==> s.job.worker.Analyze?)
  }

  ghost predicate Next(s: State, t: State) {
    JobStep(s, t) || AnalysisStep(s, t)
  }

  ghost predicate IsRun(run: seq<State>) {
    |run| > 0 && Init(run[0]) && forall i :: 0 < i < |run| ==> Next(run[i - 1], run[i])
  }

  /** The job is on its way to success, or has ended with it. */
  predicate Succeeding(j: J.State) {
    j.worker.SetSummary? || j.worker.SetSuccess? || j.worker.StampSuccess? || j.worker.PutSummary?
    || j.job.status == J.Success
  }

  ghost predicate Inv(s: State) {
    && J.Inv(s.job) && C.Inv(s.analysis)
    && (Succeeding(s.job) ==> s.analysis.worker == C.Finished(C.Succeeded))
  }

  /** Stops, readers and snapshots leave the worker and the job's fields alone. */
  lemma OnlyWorkerMovesJob(s: J.State, t: J.State)
    requires J.Next(s, t)
    ensures J.WorkerStep(s, t) || (t.worker == s.worker && t.job == s.job)
  {
    if i: nat :| i < |s.readers| && J.ReaderStep(s, t, i) {
      assert t.worker == s.worker && t.job == s.job;
    }
  }

  lemma JobSucceedsByAnalysis(s: J.State, t: J.State)
    requires J.Inv(s) && J.Next(s, t) && Succeeding(t) && !Succeeding(s)
    ensures s.worker.Analyze? && t.worker.SetSummary?
  {
    OnlyWorkerMovesJob(s, t);
    hide J.PutsOk, J.SnapshotsOk, J.Put, J.Next;
    J.PutKeepsJob(s);
  }

  lemma FinishedStays(s: C.State, t: C.State)
    requires C.Next(s, t) && s.worker.Finished?
    ensures t.worker == s.worker
  {
    R.OnlyWorkerMovesWorker(s, t);
    hide C.Next;
  }

  lemma NextKeepsInv(s: State, t: State)
    requires Inv(s) && Next(s, t)
    ensures Inv(t)
  {
    hide J.Inv, C.Inv, J.Next, C.Next, Succeeding;
    if JobStep(s, t) {
      J.NextKeepsInv(s.job, t.job);
      if Succeeding(t.job) && !Succeeding(s.job) { JobSucceedsByAnalysis(s.job, t.job); }
    } else {
      R.NextKeepsInv(s.analysis, t.analysis);
      if Succeeding(s.job) { FinishedStays(s.analysis, t.analysis); }
    }
  }

  lemma {:induction false} RunKeepsInv(run: seq<State>, i: nat)
    requires IsRun(run) && i < |run|
    ensures Inv(run[i])
  {
    hide Inv, Next;
    if i == 0 {
      InitInv(run[0]);
    } else {
      RunKeepsInv(run, i - 1);
      NextKeepsInv(run[i - 1], run[i]);
    }
  }

  lemma InitInv(s: State)
    requires Init(s)
    ensures Inv(s)
  {
    J.InitInv(s.job);
    C.InitInv(s.analysis);
    hide J.Inv, C.Inv, C.Init;
  }

  lemma CommandIsOne(s: C.State)
    requires C.Inv(s)
    ensures C.Command(s.worker) < 2
  {
  }

  /** A stop that was requested before the second check stays in time. */
  lemma {:induction false} StopHolds(run: seq<State>, i: nat, j: nat)
    requires IsRun(run) && i <= j < |run| && R.StoppedInTime(run[i].analysis, 1)
    ensures R.StoppedInTime(run[j].analysis, 1)
    decreases j - i
  {
    hide J.Next, C.Next, C.Inv, J.Inv, R.StoppedInTime;
    if i < j {
      StopHolds(run, i, j - 1);
      RunKeepsInv(run, j - 1);
      if !JobStep(run[j - 1], run[j]) {
        CommandIsOne(run[j - 1].analysis);
        R.StoppedInTimeStays(run[j - 1].analysis, run[j].analysis, 1);
      }
    }
  }

  /** A job whose stop lands before the second check never shows success; when it ends
      regularly its status is failure, it has an error, and its one terminal event, the
      last, says so. */
  lemma StoppedJobFails(run: seq<State>, i: nat, j: nat)
    requires IsRun(run) && i <= j < |run| && R.StoppedInTime(run[i].analysis, 1)
    ensures var s := run[j].job;
      && s.job.status != J.Success
      && (s.worker == J.Done ==>
            && s.job.status == J.Failure && s.job.error.Some?
            && s.puts != [] && s.puts[|s.puts| - 1] == J.ErrorEvent(s.job.error.value, s.job.summary)
            && J.NoTerminal(s.puts[..|s.puts| - 1]))
  {
    StopHolds(run, i, j);
    RunKeepsInv(run, j);
    hide J.SnapshotsOk, C.Inv, Next;
  }

  /** The two sides lose no step: the job, its snapshots and readers step as they do alone,
      except that it leaves the analysis only as that ended; and the analysis steps as it
      does alone while its job is analysing, stop requests at any time. */
  lemma NoStepIsLost(s: State)
    ensures forall j :: J.Next(s.job, j) && !(s.job.worker.Analyze? && !j.worker.Analyze?) ==> Next(s, s.(job := j))
    ensures forall j :: J.Next(s.job, j) && s.job.worker.Analyze? && j.worker.SetSummary? ==>
      (s.analysis.worker == C.Finished(C.Succeeded) <==> Next(s, s.(job := j)))
    ensures forall j :: J.Next(s.job, j) && s.job.worker.Analyze? && j.worker.SetError? ==>
      (s.analysis.worker == C.Finished(C.Stopped) || s.analysis.worker == C.Finished(C.Failed) <==>
        Next(s, s.(job := j)))
    ensures forall a :: C.Next(s.analysis, a) && (s.job.worker.Analyze? || a.worker == s.analysis.worker) ==>
      Next(s, s.(analysis := a))
  {
    hide J.Next, C.Next;
    forall j | J.Next(s.job, j) && s.job.worker.Analyze? && !j.worker.Analyze?
      ensures !AnalysisStep(s, s.(job := j))
    {
      assert s.(job := j).job != s.job;
    }
  }
}
