/** Which reader gets which of a job's events. */
module JobReaders {
  import opened Jobs

  /** The worker's events of a list, in order. */
  function FromWorker(es: seq<Event>): seq<Event> {
    if es == [] then []
    else
      var last := es[|es| - 1];
      FromWorker(es[..|es| - 1]) + if ByWorker(last) then [last] else []
  }

  lemma FromWorkerPut(es: seq<Event>, e: Event)
    ensures FromWorker(es + [e]) == FromWorker(es) + if ByWorker(e) then [e] else []
  {
    assert (es + [e])[..|es|] == es;
  }

  lemma {:induction false} FromWorkerTake(es: seq<Event>)
    requires es != []
    ensures FromWorker(es) == (if ByWorker(es[0]) then [es[0]] else []) + FromWorker(es[1..])
  {
    var n := |es| - 1;
    if n > 0 {
      FromWorkerTake(es[..n]);
      assert es[..n][1..] == es[1..][..n - 1];
      assert es[1..][n - 1] == es[n];
    }
  }

  lemma {:induction false} FromWorkerKeeps(es: seq<Event>, e: Event)
    ensures e in FromWorker(es) <==> e in es && ByWorker(e)
  {
    if es != [] {
      var n := |es| - 1;
      FromWorkerKeeps(es[..n], e);
      assert es == es[..n] + [es[n]];
    }
  }

  /** The events a reader has taken off the queue, with those it made up. */
  function Seen(r: Reader): seq<Event> {
    if r.at.Broken? then r.written + [r.at.lost] else r.written
  }

  /** A reader has left exactly when it wrote a terminal event, its last one. */
  ghost predicate ReaderOk(r: Reader) {
    if r.at != Left then NoTerminal(r.written)
    else r.written != [] && Terminal(r.written[|r.written| - 1])
  }

  ghost predicate ReadersOk(s: State) {
    forall i :: 0 <= i < |s.readers| ==> ReaderOk(s.readers[i])
  }

  function Times(es: seq<Event>, e: Event): nat {
    multiset(es)[e]
  }

  lemma TimesPut(es: seq<Event>, d: Event, e: Event)
    ensures Times(es + [d], e) == Times(es, e) + if d == e then 1 else 0
  {
  }

  lemma TimesTake(es: seq<Event>, e: Event)
    requires es != []
    ensures Times(es, e) == Times(es[1..], e) + if es[0] == e then 1 else 0
  {
    assert es == [es[0]] + es[1..];
  }

  /** How often readers have taken an event, all together. */
  function SeenTimes(rs: seq<Reader>, e: Event): nat {
    if rs == [] then 0 else Times(Seen(rs[0]), e) + SeenTimes(rs[1..], e)
  }

  /** Every event of the worker was taken by exactly one reader or is still queued. */
  ghost predicate Delivered(s: State) {
    forall e :: ByWorker(e) ==> SeenTimes(s.readers, e) + Times(s.queue, e) == Times(s.puts, e)
  }

  /** A sole reader has seen the worker's events in order. */
  ghost predicate Ordered(s: State) {
    |s.readers| == 1 ==> FromWorker(Seen(s.readers[0])) + FromWorker(s.queue) == s.puts
  }

  lemma {:induction false} SeenTimesUpdate(rs: seq<Reader>, i: nat, r: Reader, e: Event)
    requires i < |rs|
    ensures SeenTimes(rs[i := r], e) + Times(Seen(rs[i]), e) == SeenTimes(rs, e) + Times(Seen(r), e)
  {
    hide Times, Seen;
    if i == 0 {
      assert rs[0 := r][1..] == rs[1..];
    } else {
      SeenTimesUpdate(rs[1..], i - 1, r, e);
      assert rs[i := r][1..] == rs[1..][i - 1 := r];
    }
  }

  /** What one step does to what is queued, put and seen by reader i. */
  lemma ReaderTakes(s: State, t: State, i: nat) returns (d: seq<Event>)
    requires i < |s.readers| && ReaderStep(s, t, i)
    ensures |t.readers| == |s.readers| && t.readers == s.readers[i := t.readers[i]] && t.puts == s.puts
    ensures FromWorker(Seen(t.readers[i])) == FromWorker(Seen(s.readers[i])) + d
    ensures FromWorker(s.queue) == d + FromWorker(t.queue)
  {
    var r, r' := s.readers[i], t.readers[i];
    d := [];
    if r.at == TimedOut {
      FromWorkerPut(r.written, Elapsed(s.job.status));
      assert FromWorker(s.queue) == [] + FromWorker(t.queue);
      assert FromWorker(Seen(r')) == FromWorker(Seen(r)) + [];
    } else if s.queue == [] {
      assert FromWorker(s.queue) == [] + FromWorker(t.queue);
      assert FromWorker(Seen(r')) == FromWorker(Seen(r)) + [];
    } else {
      var e := s.queue[0];
      d := if ByWorker(e) then [e] else [];
      FromWorkerTake(s.queue);
      FromWorkerPut(r.written, e);
      assert Seen(r') == r.written + [e];
    }
  }

  lemma ReaderTakesTimes(s: State, t: State, i: nat, e: Event)
    requires i < |s.readers| && ReaderStep(s, t, i) && ByWorker(e)
    ensures Times(Seen(t.readers[i]), e) + Times(t.queue, e) == Times(Seen(s.readers[i]), e) + Times(s.queue, e)
  {
    hide Times;
    var r, r' := s.readers[i], t.readers[i];
    if r.at == TimedOut {
      TimesPut(r.written, Elapsed(s.job.status), e);
    } else if s.queue != [] {
      TimesTake(s.queue, e);
      TimesPut(r.written, s.queue[0], e);
      assert Seen(r') == r.written + [s.queue[0]];
    }
  }

  lemma Moved<T>(left: seq<T>, d: seq<T>, right: seq<T>, left': seq<T>, right': seq<T>)
    requires left' == left + d && right' == d + right
    ensures left' + right == left + right'
  {
    assert (left + d) + right == left + (d + right);
  }

  lemma Added<T>(left: seq<T>, right: seq<T>, d: seq<T>, whole: seq<T>)
    requires left + right == whole
    ensures left + (right + d) == whole + d
  {
    assert left + (right + d) == (left + right) + d;
  }

  lemma ReaderKeepsOrdered(s: State, t: State, i: nat)
    requires i < |s.readers| && ReaderStep(s, t, i) && Ordered(s)
    ensures Ordered(t)
  {
    var d := ReaderTakes(s, t, i);
    hide ReaderStep, FromWorker, Seen;
    if |s.readers| == 1 {
      assert i == 0;
      Moved(FromWorker(Seen(s.readers[0])), d, FromWorker(t.queue), FromWorker(Seen(t.readers[0])),
        FromWorker(s.queue));
    }
  }

  lemma ReaderKeepsDelivered(s: State, t: State, i: nat)
    requires i < |s.readers| && ReaderStep(s, t, i) && Delivered(s)
    ensures Delivered(t)
  {
    var _ := ReaderTakes(s, t, i);
    forall e | ByWorker(e) ensures SeenTimes(t.readers, e) + Times(t.queue, e) == Times(t.puts, e) {
      ReaderTakesTimes(s, t, i, e);
      SeenTimesUpdate(s.readers, i, t.readers[i], e);
    }
  }

  lemma WorkerPuts(s: State, t: State)
    requires PutsOk(t) && WorkerStep(s, t)
    ensures t.readers == s.readers
    ensures (t.queue == s.queue && t.puts == s.puts)
         || exists e :: ByWorker(e) && t.queue == s.queue + [e] && t.puts == s.puts + [e]
  {
    if t.puts != s.puts {
      var e := t.puts[|t.puts| - 1];
      assert t == Put(s, e, t.worker) && e in t.puts;
    }
  }

  lemma PutKeepsOrdered(s: State, t: State, e: Event)
    requires ByWorker(e) && t.readers == s.readers && t.queue == s.queue + [e] && t.puts == s.puts + [e] && Ordered(s)
    ensures Ordered(t)
  {
    FromWorkerPut(s.queue, e);
    hide FromWorker, Seen;
    if |s.readers| == 1 {
      Added(FromWorker(Seen(s.readers[0])), FromWorker(s.queue), [e], s.puts);
    }
  }

  lemma PutKeepsDelivered(s: State, t: State, e: Event)
    requires t.readers == s.readers && t.queue == s.queue + [e] && t.puts == s.puts + [e] && Delivered(s)
    ensures Delivered(t)
  {
    hide Times, SeenTimes;
    forall x | ByWorker(x) ensures SeenTimes(t.readers, x) + Times(t.queue, x) == Times(t.puts, x) {
      TimesPut(s.queue, e, x);
      TimesPut(s.puts, e, x);
    }
  }

  lemma WorkerKeepsDelivery(s: State, t: State)
    requires PutsOk(t) && WorkerStep(s, t) && Delivered(s) && Ordered(s)
    ensures Delivered(t) && Ordered(t)
  {
    WorkerPuts(s, t);
    hide WorkerStep, PutsOk, FromWorker, Seen, Times, SeenTimes;
    if t.puts != s.puts {
      var e :| ByWorker(e) && t.queue == s.queue + [e] && t.puts == s.puts + [e];
      PutKeepsOrdered(s, t, e);
      PutKeepsDelivered(s, t, e);
    }
  }

  lemma StopKeepsDelivery(s: State, t: State)
    requires StopStep(s, t) && Delivered(s) && Ordered(s)
    ensures Delivered(t) && Ordered(t)
  {
    FromWorkerPut(s.queue, StopLog);
    hide FromWorker, Times;
    forall e | ByWorker(e) ensures SeenTimes(t.readers, e) + Times(t.queue, e) == Times(t.puts, e) {
      TimesPut(s.queue, StopLog, e);
    }
  }

  lemma ReaderKeepsReadersOk(s: State, t: State, i: nat)
    requires i < |s.readers| && ReaderStep(s, t, i) && ReadersOk(s)
    ensures ReadersOk(t)
  {
    assert ReaderOk(s.readers[i]);
    assert t.readers == s.readers[i := t.readers[i]];
  }

  lemma InitDelivered(s: State)
    requires Init(s)
    ensures Delivered(s) && Ordered(s) && ReadersOk(s)
  {
    forall e ensures SeenTimes(s.readers, e) == 0 { NothingSeen(s.readers, e); }
  }

  lemma {:induction false} NothingSeen(rs: seq<Reader>, e: Event)
    requires forall i :: 0 <= i < |rs| ==> rs[i] == Reader(Waiting, [])
    ensures SeenTimes(rs, e) == 0
  {
    if rs != [] { NothingSeen(rs[1..], e); }
  }

  lemma NextKeepsDelivery(s: State, t: State)
    requires Inv(s) && Next(s, t) && Delivered(s) && Ordered(s) && ReadersOk(s)
    ensures Delivered(t) && Ordered(t) && ReadersOk(t)
  {
    NextKeepsInv(s, t);
    hide WorkerStep, ReaderStep, JobOk, PutsOk, SnapshotsOk;
    if WorkerStep(s, t) {
      WorkerKeepsDelivery(s, t);
      WorkerPuts(s, t);
    } else if StopStep(s, t) {
      StopKeepsDelivery(s, t);
    } else if i: nat :| i < |s.readers| && ReaderStep(s, t, i) {
      ReaderKeepsDelivered(s, t, i);
      ReaderKeepsOrdered(s, t, i);
      ReaderKeepsReadersOk(s, t, i);
    } else {
      var i: nat :| i < |s.snapshots| && SnapshotStep(s, t, i);
      assert t.queue == s.queue && t.puts == s.puts && t.readers == s.readers;
    }
  }

  lemma {:induction false} RunDelivers(run: seq<State>, i: nat)
    requires IsRun(run) && i < |run|
    ensures Delivered(run[i]) && Ordered(run[i]) && ReadersOk(run[i])
  {
    hide Inv, Next, Delivered, Ordered, ReadersOk;
    if i == 0 {
      InitDelivered(run[0]);
    } else {
      RunDelivers(run, i - 1);
      RunKeepsInv(run, i - 1);
      NextKeepsDelivery(run[i - 1], run[i]);
    }
  }

  lemma {:induction false} SeenTimesHolds(rs: seq<Reader>, i: nat, e: Event)
    requires i < |rs|
    ensures Times(Seen(rs[i]), e) <= SeenTimes(rs, e)
  {
    if i > 0 {
      SeenTimesHolds(rs[1..], i - 1, e);
    }
  }

  lemma {:induction false} SeenTimesHoldsTwo(rs: seq<Reader>, i: nat, j: nat, e: Event)
    requires i < j < |rs|
    ensures Times(Seen(rs[i]), e) + Times(Seen(rs[j]), e) <= SeenTimes(rs, e)
  {
    hide Times, Seen;
    if i == 0 {
      SeenTimesHolds(rs[1..], j - 1, e);
    } else {
      SeenTimesHoldsTwo(rs[1..], i - 1, j - 1, e);
    }
  }

  /** A reader that left took the last event of a job that ended regularly. */
  lemma LeftReaderTookLast(s: State, i: nat)
    requires Delivered(s) && ReadersOk(s) && PutsOk(s) && i < |s.readers| && s.readers[i].at == Left
    ensures s.worker == Done && s.puts != [] && var r := s.readers[i];
            r.written[|r.written| - 1] == s.puts[|s.puts| - 1] && Times(Seen(r), s.puts[|s.puts| - 1]) >= 1
  {
    var r := s.readers[i];
    assert ReaderOk(r);
    var e := r.written[|r.written| - 1];
    assert e in r.written;
    SeenTimesHolds(s.readers, i, e);
    hide SeenTimes, LastEvent;
    assert Times(s.puts, e) >= 1;
    assert e in s.puts;
    assert s.worker == Done ==> s.puts == s.puts[..|s.puts| - 1] + [s.puts[|s.puts| - 1]];
  }

  lemma OnlyOneLast(s: State)
    requires PutsOk(s) && s.worker == Done
    ensures s.puts != [] && Times(s.puts, s.puts[|s.puts| - 1]) == 1
  {
    hide LastEvent;
    var n := |s.puts| - 1;
    var e := s.puts[n];
    assert s.puts == s.puts[..n] + [e];
    assert e !in s.puts[..n];
  }

  /** Readers share one queue: however many there are, at most one of them ever
      leaves; the others wait on. */
  lemma AtMostOneReaderLeaves(run: seq<State>, n: nat, i: nat, j: nat)
    requires IsRun(run) && n < |run| && i < j < |run[n].readers|
    ensures run[n].readers[i].at == Left ==> run[n].readers[j].at != Left
  {
    RunDelivers(run, n);
    RunKeepsInv(run, n);
    var s := run[n];
    hide Ordered, JobOk, SnapshotsOk, Times, SeenTimes, Seen, LastEvent, NoTerminal;
    if s.readers[i].at == Left {
      LeftReaderTookLast(s, i);
      OnlyOneLast(s);
      var e := s.puts[|s.puts| - 1];
      assert e in s.puts;
      SeenTimesHoldsTwo(s.readers, i, j, e);
      if s.readers[j].at == Left {
        LeftReaderTookLast(s, j);
        assert false;
      }
    }
  }

  lemma LastTakenIsAll(seen: seq<Event>, puts: seq<Event>)
    requires seen <= puts && seen != [] && Terminal(seen[|seen| - 1]) && NoTerminal(puts[..|puts| - 1])
    ensures seen == puts
  {
    NoTerminalAt(puts, |puts| - 1, |seen| - 1);
  }

  lemma NoTerminalAt(es: seq<Event>, n: nat, k: nat)
    requires k < |es| && n <= |es| && NoTerminal(es[..n])
    ensures k < n ==> !Terminal(es[k])
  {
    if k < n { assert es[..n][k] in es[..n]; }
  }

  lemma LastOfWorker(es: seq<Event>)
    requires es != [] && ByWorker(es[|es| - 1])
    ensures FromWorker(es) != [] && FromWorker(es)[|FromWorker(es)| - 1] == es[|es| - 1]
  {
  }

  lemma LeftReaderHasAll(s: State)
    requires |s.readers| == 1 && s.readers[0].at == Left
    requires Delivered(s) && Ordered(s) && ReadersOk(s) && PutsOk(s)
    ensures s.worker == Done && FromWorker(s.readers[0].written) == s.puts
  {
    LeftReaderTookLast(s, 0);
    var r := s.readers[0];
    assert ReaderOk(r);
    hide LastEvent, Delivered, SeenTimes, Times, FromWorker;
    LastOfWorker(r.written);
    LastTakenIsAll(FromWorker(r.written), s.puts);
  }

  lemma WaitingReaderWillSee(s: State)
    requires |s.readers| == 1 && s.readers[0].at != Left && !s.readers[0].at.Broken? && s.worker == Done
    requires Ordered(s) && ReadersOk(s) && PutsOk(s)
    ensures LastEvent(s.job) in s.queue && Terminal(LastEvent(s.job))
  {
    var r := s.readers[0];
    assert ReaderOk(r);
    hide LastEvent, FromWorker;
    var e := s.puts[|s.puts| - 1];
    FromWorkerKeeps(r.written, e);
    FromWorkerKeeps(s.queue, e);
    assert e in FromWorker(r.written) + FromWorker(s.queue);
  }

  /** A sole reader whose connection holds gets the worker's events in order.
      When it leaves it has them all, and the job is over; and as long as it has not
      left a job that ended regularly, the terminal event is waiting for it. */
  lemma SoleReaderGetsAll(run: seq<State>, i: nat)
    requires IsRun(run) && i < |run| && |run[i].readers| == 1 && !run[i].readers[0].at.Broken?
    ensures var s := run[i]; var r := s.readers[0];
            && FromWorker(r.written) + FromWorker(s.queue) == s.puts
            && (r.at == Left ==> s.worker == Done && FromWorker(r.written) == s.puts)
            && (r.at != Left && s.worker == Done ==> LastEvent(s.job) in s.queue && Terminal(LastEvent(s.job)))
  {
    hide JobOk, SnapshotsOk, PutsOk, LastEvent, Delivered, ReadersOk, FromWorker;
    RunDelivers(run, i);
    RunKeepsInv(run, i);
    var s := run[i];
    if s.readers[0].at == Left {
      LeftReaderHasAll(s);
    } else if s.worker == Done {
      WaitingReaderWillSee(s);
    }
  }

  // ----- leaving -----

  /** The position of the first terminal event; the length when there is none. */
  function TerminalAt(es: seq<Event>): (p: nat)
    ensures p <= |es| && (p < |es| ==> Terminal(es[p]))
  {
    if es == [] || Terminal(es[0]) then 0 else 1 + TerminalAt(es[1..])
  }

  lemma {:induction false} TerminalIsFound(es: seq<Event>, e: Event)
    requires e in es && Terminal(e)
    ensures TerminalAt(es) < |es|
  {
    if !Terminal(es[0]) { TerminalIsFound(es[1..], e); }
  }

  lemma {:induction false} TerminalAppend(es: seq<Event>, e: Event)
    requires TerminalAt(es) < |es|
    ensures TerminalAt(es + [e]) == TerminalAt(es)
  {
    if !Terminal(es[0]) {
      assert (es + [e])[1..] == es[1..] + [e];
      TerminalAppend(es[1..], e);
    }
  }

  /** How many events were taken off the queue between two states of a run. */
  function Takes(run: seq<State>, i: nat, j: nat): nat
    requires i <= j < |run|
    decreases j - i
  {
    if i == j then 0
    else Takes(run, i, j - 1) + if |run[j].queue| < |run[j - 1].queue| then 1 else 0
  }

  /** The sole reader of an ended job: either it has left, or a terminal event is
      still to come, `ahead` events away. */
  ghost predicate Leaving(s: State, ahead: int) {
    && |s.readers| == 1 && s.worker == Done
    && if s.readers[0].at == Left then ahead == -1
       else TerminalAt(s.queue) == ahead && ahead < |s.queue|
  }

  lemma LeavingStep(s: State, t: State, ahead: int)
    requires Next(s, t) && Leaving(s, ahead) && |t.readers| == 1
    requires !s.readers[0].at.Broken? && !t.readers[0].at.Broken?
    ensures Leaving(t, if |t.queue| < |s.queue| then ahead - 1 else ahead)
  {
    hide TerminalAt;
    if StopStep(s, t) {
      if s.readers[0].at != Left { TerminalAppend(s.queue, StopLog); }
    } else if i: nat :| i < |s.readers| && ReaderStep(s, t, i) {
      assert i == 0;
      if s.readers[0].at == Waiting { TerminalFirst(s.queue); }
    } else {
      var i: nat :| i < |s.snapshots| && SnapshotStep(s, t, i);
    }
  }

  lemma TerminalFirst(es: seq<Event>)
    requires es != []
    ensures TerminalAt(es) == if Terminal(es[0]) then 0 else 1 + TerminalAt(es[1..])
  {
  }

  lemma ReadersStay(s: State, t: State)
    requires Next(s, t)
    ensures |t.readers| == |s.readers|
    ensures forall i :: 0 <= i < |s.readers| && s.readers[i].at.Broken? ==> t.readers[i].at.Broken?
  {
    if WorkerStep(s, t) {
    } else if StopStep(s, t) {
    } else if i: nat :| i < |s.readers| && ReaderStep(s, t, i) {
    } else {
      var i: nat :| i < |s.snapshots| && SnapshotStep(s, t, i);
    }
  }

  lemma {:induction false} LeavingInRun(run: seq<State>, i: nat, j: nat)
    requires IsRun(run) && i <= j < |run| && |run[j].readers| == 1 && !run[j].readers[0].at.Broken?
    requires Leaving(run[i], TerminalAt(run[i].queue)) && run[i].readers[0].at != Left
    ensures Leaving(run[j], TerminalAt(run[i].queue) - Takes(run, i, j))
    decreases j - i
  {
    hide Next, Leaving, TerminalAt;
    if i < j {
      ReadersStay(run[j - 1], run[j]);
      LeavingInRun(run, i, j - 1);
      LeavingStep(run[j - 1], run[j], TerminalAt(run[i].queue) - Takes(run, i, j - 1));
    }
  }

  lemma {:induction false} UnbrokenBefore(run: seq<State>, i: nat, j: nat)
    requires IsRun(run) && i <= j < |run| && |run[j].readers| == 1 && !run[j].readers[0].at.Broken?
    ensures |run[i].readers| == 1 && !run[i].readers[0].at.Broken?
    decreases j - i
  {
    hide Next;
    if i < j {
      ReadersStay(run[j - 1], run[j]);
      UnbrokenBefore(run, i, j - 1);
    }
  }

  /** The sole reader of a job that ended regularly leaves with the take that
      brings it the terminal event: with that event p-th in the queue, after
      p + 1 takes, no sooner and no later; and until then there is something to take. */
  lemma SoleReaderLeaves(run: seq<State>, i: nat, j: nat)
    requires IsRun(run) && i <= j < |run| && |run[j].readers| == 1 && !run[j].readers[0].at.Broken?
    requires run[i].worker == Done && run[i].readers != [] && run[i].readers[0].at != Left
    ensures var (p, taken) := (TerminalAt(run[i].queue), Takes(run, i, j));
      && p < |run[i].queue| && taken <= p + 1
      && (run[j].readers[0].at == Left <==> taken == p + 1)
      && (taken <= p ==> run[j].queue != [])
  {
    hide Next, Terminal, TerminalAt, LastEvent;
    UnbrokenBefore(run, i, j);
    SoleReaderGetsAll(run, i);
    TerminalIsFound(run[i].queue, LastEvent(run[i].job));
    LeavingInRun(run, i, j);
  }

  /** No reader ever leaves a job whose worker died. */
  lemma NobodyLeavesDeadJob(run: seq<State>, n: nat, i: nat)
    requires IsRun(run) && n < |run| && i < |run[n].readers| && run[n].worker == Died
    ensures run[n].readers[i].at != Left
  {
    hide JobOk, SnapshotsOk, PutsOk, Delivered, ReadersOk, Ordered;
    RunDelivers(run, n);
    RunKeepsInv(run, n);
    if run[n].readers[i].at == Left { LeftReaderTookLast(run[n], i); }
  }
}
