/** A background job: its worker assigns the job's fields one by one and puts
    events on a queue, while readers take events, snapshots read the fields one by
    one and stop requests put their own log line. */
module Jobs {
  import opened Tokens

  datatype Status = Queued | Running | Success | Failure

  datatype Report = Report(json: string)

  datatype Event =
    | StatusEvent(status: Status)
    | LogEvent(line: string)
    | SummaryEvent(summary: Report)
    | ErrorEvent(message: string, partial: Option<Report>)
    | StopLog                     // put by a stop request
    | Elapsed(status: Status)     // made up by a reader when the queue stays empty

  /** An event after which a reader leaves. */
  predicate Terminal(e: Event) { e.SummaryEvent? || e.ErrorEvent? }

  predicate ByWorker(e: Event) { !e.StopLog? && !e.Elapsed? }

  datatype Job = Job(status: Status, summary: Option<Report>, error: Option<string>, finished: bool)

  /** The worker's next action; the last two are its ends. It dies when reading
      the summary file of a failed run raises in its turn. */
  datatype WorkerAt =
    | SetRunning
    | PutStatus
    | Analyze
    | SetSummary(summary: Report)
    | SetSuccess(summary: Report)
    | StampSuccess(summary: Report)
    | PutSummary(summary: Report)
    | SetError(message: string)
    | SetFailure(message: string)
    | StampFailure(message: string)
    | ReadSummary(message: string)
    | PutError(message: string)
    | Done
    | Died

  datatype ReaderAt = Waiting | TimedOut | Left | Broken(lost: Event)

  datatype Reader = Reader(at: ReaderAt, written: seq<Event>)

  /** A snapshot reads status, then summary, then error. */
  datatype SnapshotAt =
    | Asked
    | GotStatus(status: Status)
    | GotSummary(status: Status, summary: Option<Report>)
    | Taken(status: Status, summary: Option<Report>, error: Option<string>)

  /** puts records the worker's events in order. */
  datatype State = State(job: Job, worker: WorkerAt, queue: seq<Event>, puts: seq<Event>, readers: seq<Reader>,
      snapshots: seq<SnapshotAt>)

  ghost predicate Init(s: State) {
    && s.job == Job(Queued, None, None, false) && s.worker == SetRunning && s.queue == [] && s.puts == []
    && (forall i :: 0 <= i < |s.readers| ==> s.readers[i] == Reader(Waiting, []))
    && (forall i :: 0 <= i < |s.snapshots| ==> s.snapshots[i] == Asked)
  }

  function Put(s: State, e: Event, next: WorkerAt): State {
    s.(queue := s.queue + [e], puts := s.puts + [e], worker := next)
  }

  predicate WorkerStep(s: State, t: State) {
    var j := s.job;
    match s.worker
    case SetRunning => t == s.(job := j.(status := Running), worker := PutStatus)
    case PutStatus => t == Put(s, StatusEvent(Running), Analyze)
    case Analyze =>
      || (t.puts != [] && t.puts[|t.puts| - 1].LogEvent? && t == Put(s, t.puts[|t.puts| - 1], Analyze))
      || ((t.worker.SetSummary? || t.worker.SetError?) && t == s.(worker := t.worker))
    case SetSummary(r) => t == s.(job := j.(summary := Some(r)), worker := SetSuccess(r))
    case SetSuccess(r) => t == s.(job := j.(status := Success), worker := StampSuccess(r))
    case StampSuccess(r) => t == s.(job := j.(finished := true), worker := PutSummary(r))
    case PutSummary(r) => t == Put(s, SummaryEvent(r), Done)
    case SetError(m) => t == s.(job := j.(error := Some(m)), worker := SetFailure(m))
    case SetFailure(m) => t == s.(job := j.(status := Failure), worker := StampFailure(m))
    case StampFailure(m) => t == s.(job := j.(finished := true), worker := ReadSummary(m))
    case ReadSummary(m) =>
      || t == s.(job := j.(summary := t.job.summary), worker := PutError(m))
      || t == s.(worker := Died)
    case PutError(m) => t == Put(s, ErrorEvent(m, j.summary), Done)
    case Done => false
    case Died => false
  }

  predicate ReaderStep(s: State, t: State, i: nat)
    requires i < |s.readers|
  {
    var r := s.readers[i];
    match r.at
    case Waiting =>
      if s.queue == [] then t == s.(readers := s.readers[i := r.(at := TimedOut)])
      else
        var e := s.queue[0];
        || t == s.(queue := s.queue[1..],
          readers := s.readers[i := Reader(if Terminal(e) then Left else Waiting, r.written + [e])])
        || t == s.(queue := s.queue[1..], readers := s.readers[i := r.(at := Broken(e))])
    case TimedOut => t == s.(readers := s.readers[i := Reader(Waiting, r.written + [Elapsed(s.job.status)])])
    case Left => false
    case Broken(_) => false
  }

  predicate SnapshotStep(s: State, t: State, i: nat)
    requires i < |s.snapshots|
  {
    match s.snapshots[i]
    case Asked => t == s.(snapshots := s.snapshots[i := GotStatus(s.job.status)])
    case GotStatus(st) => t == s.(snapshots := s.snapshots[i := GotSummary(st, s.job.summary)])
    case GotSummary(st, sm) => t == s.(snapshots := s.snapshots[i := Taken(st, sm, s.job.error)])
    case Taken(_, _, _) => false
  }

  predicate StopStep(s: State, t: State) {
    t == s.(queue := s.queue + [StopLog])
  }

  ghost predicate Next(s: State, t: State) {
    || WorkerStep(s, t)
    || StopStep(s, t)
    || (exists i: nat :: i < |s.readers| && ReaderStep(s, t, i))
    || (exists i: nat :: i < |s.snapshots| && SnapshotStep(s, t, i))
  }

  ghost predicate IsRun(run: seq<State>) {
    |run| > 0 && Init(run[0]) && forall i :: 0 < i < |run| ==> Next(run[i - 1], run[i])
  }

  // ----- the job's fields -----

  /** The fields at every point of the worker. */
  ghost predicate JobOk(s: State) {
    var j := s.job;
    match s.worker
    case SetRunning => j == Job(Queued, None, None, false)
    case PutStatus => j == Job(Running, None, None, false)
    case Analyze => j == Job(Running, None, None, false)
    case SetSummary(_) => j == Job(Running, None, None, false)
    case SetSuccess(r) => j == Job(Running, Some(r), None, false)
    case StampSuccess(r) => j == Job(Success, Some(r), None, false)
    case PutSummary(r) => j == Job(Success, Some(r), None, true)
    case SetError(_) => j == Job(Running, None, None, false)
    case SetFailure(m) => j == Job(Running, None, Some(m), false)
    case StampFailure(m) => j == Job(Failure, None, Some(m), false)
    case ReadSummary(m) => j == Job(Failure, None, Some(m), true)
    case PutError(m) => j == Job(Failure, j.summary, Some(m), true)
    case Done => j.finished && if j.error.None? then j.status == Success && j.summary.Some? else j.status == Failure
    case Died => j.finished && j.status == Failure && j.error.Some? && j.summary.None?
  }

  /** What a snapshot under way has read is still so where it matters. */
  ghost predicate SnapshotOk(j: Job, p: SnapshotAt) {
    match p
    case Asked => true
    case GotStatus(st) => st == Success || st == Failure ==> j.status == st
    case GotSummary(st, sm) =>
      (st == Success || st == Failure ==> j.status == st) && (st == Success ==> sm == j.summary)
    case Taken(st, sm, er) =>
      && (st == Success ==> j.status == Success && sm == j.summary && sm.Some? && er == None)
      && (st == Failure ==> j.status == Failure && er == j.error && er.Some?)
  }

  ghost predicate SnapshotsOk(s: State) {
    forall i :: 0 <= i < |s.snapshots| ==> SnapshotOk(s.job, s.snapshots[i])
  }

  /** The event that ends the job, from the job's final fields. */
  function LastEvent(j: Job): Event {
    if j.error.Some? then ErrorEvent(j.error.value, j.summary)
    else if j.summary.Some? then SummaryEvent(j.summary.value)
    else StopLog
  }

  ghost predicate NoTerminal(es: seq<Event>) {
    forall e :: e in es ==> !Terminal(e)
  }

  /** No terminal event before the end; at a regular end the last event and no
      other is terminal, and it carries the job's final fields. */
  ghost predicate PutsOk(s: State) {
    && (forall e :: e in s.puts ==> ByWorker(e))
    && if s.worker != Done then NoTerminal(s.puts)
       else
         var last := |s.puts| - 1;
         s.puts != [] && NoTerminal(s.puts[..last]) && s.puts[last] == LastEvent(s.job) && Terminal(s.puts[last])
  }

  ghost predicate Inv(s: State) {
    JobOk(s) && SnapshotsOk(s) && PutsOk(s)
  }

  lemma InitInv(s: State)
    requires Init(s)
    ensures Inv(s)
  {
  }

  lemma WorkerKeepsJobOk(s: State, t: State)
    requires JobOk(s) && WorkerStep(s, t)
    ensures JobOk(t)
  {
    hide Put;
    PutKeepsJob(s);
  }

  lemma PutKeepsJob(s: State)
    ensures forall e, w :: Put(s, e, w).job == s.job && Put(s, e, w).worker == w
    ensures forall e, w :: Put(s, e, w).snapshots == s.snapshots && Put(s, e, w).readers == s.readers
  {
  }

  lemma WorkerKeepsSnapshotsOk(s: State, t: State)
    requires JobOk(s) && SnapshotsOk(s) && WorkerStep(s, t)
    ensures SnapshotsOk(t)
  {
    hide Put;
    PutKeepsJob(s);
    forall i | 0 <= i < |t.snapshots| ensures SnapshotOk(t.job, t.snapshots[i]) {
      assert SnapshotOk(s.job, s.snapshots[i]);
    }
  }

  lemma WorkerKeepsPutsOk(s: State, t: State)
    requires JobOk(s) && PutsOk(s) && WorkerStep(s, t)
    ensures PutsOk(t)
  {
    if s.worker.PutSummary? || s.worker.PutError? {
      LastPutKeepsPutsOk(s, t);
    } else {
      hide JobOk, WorkerStep;
      OrdinaryPut(s, t);
    }
  }

  /** Any other step puts at most one event, and no terminal one. */
  lemma OrdinaryPut(s: State, t: State)
    requires WorkerStep(s, t) && !s.worker.PutSummary? && !s.worker.PutError?
    ensures s.worker != Done && t.worker != Done
    ensures t.puts == s.puts || exists e :: !Terminal(e) && ByWorker(e) && t.puts == s.puts + [e]
  {
    if t.puts != s.puts {
      var e := t.puts[|t.puts| - 1];
      assert t == Put(s, e, t.worker);
    }
  }

  lemma LastPutKeepsPutsOk(s: State, t: State)
    requires JobOk(s) && PutsOk(s) && WorkerStep(s, t) && (s.worker.PutSummary? || s.worker.PutError?)
    ensures PutsOk(t)
  {
    assert t.puts[..|t.puts| - 1] == s.puts;
  }

  lemma SnapshotKeepsInv(s: State, t: State, i: nat)
    requires Inv(s) && i < |s.snapshots| && SnapshotStep(s, t, i)
    ensures Inv(t)
  {
    hide PutsOk;
    assert PutsOk(t) by { PutsOkDepends(s, t); }
    assert SnapshotOk(s.job, s.snapshots[i]);
  }

  lemma PutsOkDepends(s: State, t: State)
    requires PutsOk(s) && t.worker == s.worker && t.puts == s.puts && t.job == s.job
    ensures PutsOk(t)
  {
  }

  lemma ReaderKeepsInv(s: State, t: State, i: nat)
    requires Inv(s) && i < |s.readers| && ReaderStep(s, t, i)
    ensures Inv(t)
  {
    hide PutsOk;
    assert t.job == s.job && t.worker == s.worker && t.puts == s.puts && t.snapshots == s.snapshots;
    PutsOkDepends(s, t);
  }

  lemma NextKeepsInv(s: State, t: State)
    requires Inv(s) && Next(s, t)
    ensures Inv(t)
  {
    hide JobOk, SnapshotsOk, PutsOk, WorkerStep, ReaderStep, SnapshotStep;
    if WorkerStep(s, t) {
      WorkerKeepsJobOk(s, t);
      WorkerKeepsSnapshotsOk(s, t);
      WorkerKeepsPutsOk(s, t);
    } else if StopStep(s, t) {
      StopKeepsInv(s, t);
    } else if i: nat :| i < |s.readers| && ReaderStep(s, t, i) {
      ReaderKeepsInv(s, t, i);
    } else {
      var i: nat :| i < |s.snapshots| && SnapshotStep(s, t, i);
      SnapshotKeepsInv(s, t, i);
    }
  }

  lemma StopKeepsInv(s: State, t: State)
    requires Inv(s) && StopStep(s, t)
    ensures Inv(t)
  {
    hide PutsOk;
    PutsOkDepends(s, t);
  }

  lemma {:induction false} RunKeepsInv(run: seq<State>, i: nat)
    requires IsRun(run) && i < |run|
    ensures Inv(run[i])
  {
    hide Inv, Next;
    if i == 0 {
      InitInv(run[0]);
    } else {
      RunKeepsInv(run, i - 1);
      NextKeepsInv(run[i - 1], run[i]);
    }
  }

  // ----- status and snapshots -----

  function Stage(st: Status): nat {
    match st
    case Queued => 0
    case Running => 1
    case Success => 2
    case Failure => 2
  }

  lemma StatusAdvances(s: State, t: State)
    requires Inv(s) && Next(s, t)
    ensures t.job.status == s.job.status || Stage(t.job.status) == Stage(s.job.status) + 1
  {
    hide PutsOk, SnapshotsOk, Put;
    PutKeepsJob(s);
    if WorkerStep(s, t) {
    } else if StopStep(s, t) {
    } else if i: nat :| i < |s.readers| && ReaderStep(s, t, i) {
    } else {
      var i: nat :| i < |s.snapshots| && SnapshotStep(s, t, i);
    }
  }

  /** The status only moves forward from queued over running to one terminal
      value, one stage at a time, and then stays. */
  lemma {:induction false} StatusOnlyAdvances(run: seq<State>, i: nat, j: nat)
    requires IsRun(run) && i <= j < |run|
    ensures Stage(run[i].job.status) <= Stage(run[j].job.status) <= Stage(run[i].job.status) + (j - i)
    ensures Stage(run[i].job.status) == 2 ==> run[j].job.status == run[i].job.status
  {
    hide Inv, Next;
    if i < j {
      StatusOnlyAdvances(run, i, j - 1);
      RunKeepsInv(run, j - 1);
      StatusAdvances(run[j - 1], run[j]);
    }
  }

  /** A snapshot reads field by field while the worker goes on; even so one that
      shows success shows the summary and no error, and one that shows failure
      shows the error, and its status is the job's final one. */
  lemma SnapshotsAgree(run: seq<State>, i: nat, k: nat)
    requires IsRun(run) && i < |run| && k < |run[i].snapshots| && run[i].snapshots[k].Taken?
    ensures var p, j := run[i].snapshots[k], run[i].job;
            && (p.status == Success ==>
              p.summary.Some? && p.error == None && p.summary == j.summary && j.status == Success)
            && (p.status == Failure ==> p.error.Some? && p.error == j.error && j.status == Failure)
  {
    RunKeepsInv(run, i);
    hide JobOk, PutsOk;
    assert SnapshotOk(run[i].job, run[i].snapshots[k]);
  }

  /** The worker's events hold a terminal one exactly when it ended regularly;
      then it is the last and carries the final fields. The one other end is the
      failed run whose summary file cannot be read. */
  lemma OneTerminalEvent(run: seq<State>, i: nat)
    requires IsRun(run) && i < |run|
    ensures var s := run[i];
            && ((exists e :: e in s.puts && Terminal(e)) <==> s.worker == Done)
            && (s.worker == Done ==>
                  && s.puts != [] && NoTerminal(s.puts[..|s.puts| - 1]) && s.puts[|s.puts| - 1] == LastEvent(s.job)
                  && (s.job.status == Success <==> s.puts[|s.puts| - 1].SummaryEvent?))
            && (s.worker == Died ==> s.job.status == Failure)
  {
    RunKeepsInv(run, i);
    var s := run[i];
    if s.worker == Done {
      assert s.puts[|s.puts| - 1] in s.puts;
    }
  }

  /** A run of eight states in which the worker dies: the analysis fails and then
      reading its summary file raises in its turn. */
  function DyingRun(message: string): seq<State> {
    var puts := [StatusEvent(Running)];
    var failing := Job(Running, None, Some(message), false);
    [ State(Job(Queued, None, None, false), SetRunning, [], [], [], []),
      State(Job(Running, None, None, false), PutStatus, [], [], [], []),
      State(Job(Running, None, None, false), Analyze, puts, puts, [], []),
      State(Job(Running, None, None, false), SetError(message), puts, puts, [], []),
      State(failing, SetFailure(message), puts, puts, [], []),
      State(failing.(status := Failure), StampFailure(message), puts, puts, [], []),
      State(failing.(status := Failure, finished := true), ReadSummary(message), puts, puts, [], []),
      State(failing.(status := Failure, finished := true), Died, puts, puts, [], []) ]
  }

  lemma DyingSteps(message: string, i: nat)
    requires 0 < i < 8
    ensures WorkerStep(DyingRun(message)[i - 1], DyingRun(message)[i])
  {
  }

  /** The worker has another step. */
  ghost predicate NextOfWorker(s: State) { exists t :: WorkerStep(s, t) }

  lemma EndsAtDied(s: State)
    requires s.worker == Died
    ensures !NextOfWorker(s)
  {
  }

  /** A job can end without a terminal event: its worker dies and puts no more. */
  lemma JobCanEndSilently(message: string)
    ensures var run := DyingRun(message);
      IsRun(run) && run[7].worker == Died && run[7].job.finished && NoTerminal(run[7].puts) && !NextOfWorker(run[7])
  {
    hide WorkerStep;
    var run := DyingRun(message);
    forall i | 0 < i < |run| ensures Next(run[i - 1], run[i]) {
      DyingSteps(message, i);
    }
    assert run[7].puts == [StatusEvent(Running)];
    EndsAtDied(run[7]);
  }

  // ----- the worker's way -----

  /** How far the worker has come. */
  function Progress(w: WorkerAt): nat {
    match w
    case SetRunning => 0
    case PutStatus => 1
    case Analyze => 2
    case SetSummary(_) => 3
    case SetSuccess(_) => 4
    case StampSuccess(_) => 5
    case PutSummary(_) => 6
    case SetError(_) => 3
    case SetFailure(_) => 4
    case StampFailure(_) => 5
    case ReadSummary(_) => 6
    case PutError(_) => 7
    case Done => 8
    case Died => 8
  }

  /** Every step of the worker leads on, except that it may log any number of lines while
      the analysis runs; and it has a step until it ends. */
  lemma WorkerLeadsOn(s: State)
    ensures forall t :: WorkerStep(s, t) ==>
      Progress(t.worker) > Progress(s.worker) || (s.worker == t.worker == Analyze && |t.puts| == |s.puts| + 1)
    ensures NextOfWorker(s) <==> s.worker != Done && s.worker != Died
  {
    forall t | WorkerStep(s, t)
      ensures Progress(t.worker) > Progress(s.worker) || (s.worker == t.worker == Analyze && |t.puts| == |s.puts| + 1)
    {
      StepLeadsOn(s, t);
    }
    if s.worker != Done && s.worker != Died {
      var t := SomeStep(s);
    }
  }

  lemma StepLeadsOn(s: State, t: State)
    requires WorkerStep(s, t)
    ensures Progress(t.worker) > Progress(s.worker) || (s.worker == t.worker == Analyze && |t.puts| == |s.puts| + 1)
  {
    hide Put;
    PutKeepsJob(s);
    PutAdds(s);
  }

  lemma PutAdds(s: State)
    ensures forall e, w :: |Put(s, e, w).puts| == |s.puts| + 1
  {
  }

  lemma SomeStep(s: State) returns (t: State)
    requires s.worker != Done && s.worker != Died
    ensures WorkerStep(s, t)
  {
    var j := s.job;
    match s.worker
    case SetRunning => t := s.(job := j.(status := Running), worker := PutStatus);
    case PutStatus => t := Put(s, StatusEvent(Running), Analyze);
    case Analyze => t := s.(worker := SetError(""));
    case SetSummary(r) => t := s.(job := j.(summary := Some(r)), worker := SetSuccess(r));
    case SetSuccess(r) => t := s.(job := j.(status := Success), worker := StampSuccess(r));
    case StampSuccess(r) => t := s.(job := j.(finished := true), worker := PutSummary(r));
    case PutSummary(r) => t := Put(s, SummaryEvent(r), Done);
    case SetError(m) => t := s.(job := j.(error := Some(m)), worker := SetFailure(m));
    case SetFailure(m) => t := s.(job := j.(status := Failure), worker := StampFailure(m));
    case StampFailure(m) => t := s.(job := j.(finished := true), worker := ReadSummary(m));
    case ReadSummary(m) => t := s.(worker := Died);
    case PutError(m) => t := Put(s, ErrorEvent(m, j.summary), Done);
  }

  /** The worker's events in order: that the job runs, then log lines, then the one that
      ends the job. */
  ghost predicate PutsInOrder(s: State) {
    var n := if s.worker == Done then |s.puts| - 1 else |s.puts|;
    && (s.worker == SetRunning || s.worker == PutStatus <==> s.puts == [])
    && (s.puts != [] ==> n > 0 && s.puts[0] == StatusEvent(Running))
    && forall k :: 0 < k < n ==> s.puts[k].LogEvent?
  }

  lemma StepKeepsOrder(s: State, t: State)
    requires PutsInOrder(s) && Next(s, t)
    ensures PutsInOrder(t)
  {
    if WorkerStep(s, t) {
    } else if StopStep(s, t) {
    } else if i: nat :| i < |s.readers| && ReaderStep(s, t, i) {
    } else {
      var i: nat :| i < |s.snapshots| && SnapshotStep(s, t, i);
    }
  }

  /** In every interleaving the worker's events come in that order. */
  lemma {:induction false} EventsInOrder(run: seq<State>, i: nat)
    requires IsRun(run) && i < |run|
    ensures PutsInOrder(run[i])
  {
    hide Next, PutsInOrder;
    if i == 0 {
      NothingPut(run[0]);
    } else {
      EventsInOrder(run, i - 1);
      StepKeepsOrder(run[i - 1], run[i]);
    }
  }

  lemma NothingPut(s: State)
    requires Init(s)
    ensures PutsInOrder(s)
  {
  }

  // ----- snapshots and readers lead on -----

  function SnapshotStage(p: SnapshotAt): nat {
    match p
    case Asked => 0
    case GotStatus(_) => 1
    case GotSummary(_, _) => 2
    case Taken(_, _, _) => 3
  }

  /** A snapshot has a step until it is taken, and every step reads the next field. */
  lemma SnapshotLeadsOn(s: State, i: nat)
    requires i < |s.snapshots|
    ensures s.snapshots[i].Taken? <==> !exists t :: SnapshotStep(s, t, i)
    ensures forall t :: SnapshotStep(s, t, i) ==>
      |t.snapshots| == |s.snapshots| && SnapshotStage(t.snapshots[i]) == SnapshotStage(s.snapshots[i]) + 1
  {
    var p := s.snapshots[i];
    if !p.Taken? {
      var q := match p
        case Asked => GotStatus(s.job.status)
        case GotStatus(st) => GotSummary(st, s.job.summary)
        case GotSummary(st, sm) => Taken(st, sm, s.job.error)
        case Taken(_, _, _) => p;
      assert SnapshotStep(s, s.(snapshots := s.snapshots[i := q]), i);
    }
  }

  /** A reader that finds nothing to take reports the job's status and waits again; one that
      takes an event writes it. It has a step until it has left or lost its connection. */
  lemma ReaderLeadsOn(s: State, i: nat)
    requires i < |s.readers|
    ensures s.readers[i].at == Left || s.readers[i].at.Broken? <==> !exists t :: ReaderStep(s, t, i)
    ensures forall t :: ReaderStep(s, t, i) ==>
      var (r, r') := (s.readers[i], t.readers[i]);
      && (r.at == TimedOut ==> r' == Reader(Waiting, r.written + [Elapsed(s.job.status)]) && t.queue == s.queue)
      && (r.at == Waiting && s.queue == [] ==> r'.at == TimedOut && r'.written == r.written)
      && (r.at == Waiting && s.queue != [] ==>
            && t.queue == s.queue[1..]
            && (r'.written == r.written + [s.queue[0]] || (r'.written == r.written && r'.at == Broken(s.queue[0]))))
  {
    var r := s.readers[i];
    match r.at
    case Waiting =>
      if s.queue == [] {
        assert ReaderStep(s, s.(readers := s.readers[i := r.(at := TimedOut)]), i);
      } else {
        assert ReaderStep(s, s.(queue := s.queue[1..], readers := s.readers[i := r.(at := Broken(s.queue[0]))]), i);
      }
    case TimedOut =>
      assert ReaderStep(s, s.(readers := s.readers[i := Reader(Waiting, r.written + [Elapsed(s.job.status)])]), i);
    case Left =>
    case Broken(_) =>
  }
}
