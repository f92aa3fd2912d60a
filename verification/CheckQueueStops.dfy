/**
 Calls on a check queue are answered: Wait always has a way to its return, and StopWorkerThreads to
 the end of its joins, after which the queue can be used again.
 */
module CheckQueueStops {
  import opened CheckQueue

  /** A call of Wait can always be answered, and then a new round has begun. */
  lemma {:induction false} WaitIsAnswered(s: State, nBatchSize: nat, verdict: Verdicts)
    returns (run: seq<Action>, r: State)
    requires Inv(s, verdict) && Enabled(s, CallWait)
    ensures IsRun(s, run, r, nBatchSize, verdict) && |run| > 1 && run[0] == CallWait
    ensures |r.threads| > 0 && r.threads[0].Outside? && r.added == []
  {
    StepKeeps(s, CallWait, nBatchSize, verdict);
    var n := Next(s, CallWait, nBatchSize, verdict);
    var rest;
    rest, r := RoundCompletes(n, nBatchSize, verdict);
    run := [CallWait] + rest;
    assert run[1..] == rest;
  }

  /** A step followed by a run. */
  lemma {:induction false} RunFrom(
    s: State, a: Action, n: State, rest: seq<Action>, r: State, nBatchSize: nat, verdict: Verdicts)
    requires Inv(s, verdict) && Enabled(s, a) && s.nTotal >= 0 && s.nIdle >= 0 && (a.Resume? ==> s.nIdle > 0)
    requires n == Next(s, a, nBatchSize, verdict) && Inv(n, verdict) && IsRun(n, rest, r, nBatchSize, verdict)
    ensures IsRun(s, [a] + rest, r, nBatchSize, verdict)
  {
    assert ([a] + rest)[1..] == rest;
  }

  // ---------------------------------------------------------------- stopping

  /** How many steps a worker is from its exit once it has been asked to stop. */
  function StepsToExit(th: Thread): nat {
    match th
    case Working(batch, next, _) => (if next < |batch| then |batch| - next else 0) + 1
    case Asleep => 2
    case Woken => 1
    case Starting => 1
    case _ => 0
  }

  /** The next thing a worker does on its way out. */
  function NextToExit(th: Thread, t: nat): Action {
    match th
    case Working(batch, next, _) => if next < |batch| then Evaluate(t) else HandBack(t)
    case Asleep => Wake(t)
    case Woken => Resume(t)
    case _ => Enter(t)
  }

  /** Only thread t is different, and the queue is as before. */
  ghost predicate OnlyThread(s: State, r: State, t: nat) {
    && t < |s.threads| == |r.threads| && r.threads == s.threads[t := r.threads[t]]
    && r.stop == s.stop && r.queue == s.queue && r.added == s.added
  }

  lemma {:induction false} StepToExit(s: State, t: nat, nBatchSize: nat, verdict: Verdicts)
    requires Inv(s, verdict) && s.stop && 0 < t < |s.threads| && !s.threads[t].Exited?
    ensures var a := NextToExit(s.threads[t], t);
      && Enabled(s, a) && s.nTotal >= 0 && s.nIdle >= 0 && (a.Resume? ==> s.nIdle > 0)
      && var r := Next(s, a, nBatchSize, verdict);
         && Inv(r, verdict) && OnlyThread(s, r, t)
         && StepsToExit(r.threads[t]) < StepsToExit(s.threads[t])
         && (StepsToExit(r.threads[t]) == 0 ==> r.threads[t].Exited?)
  {
    var a := NextToExit(s.threads[t], t);
    assert ThreadOk(s.threads[t], s.added, verdict);
    StepKeeps(s, a, nBatchSize, verdict);
    ExitStep(s, t, a, nBatchSize, verdict);
  }

  lemma {:induction false} ExitStep(s: State, t: nat, a: Action, nBatchSize: nat, verdict: Verdicts)
    requires s.stop && 0 < t < |s.threads| && !s.threads[t].Exited? && !s.threads[t].Outside? && s.threads[0].Outside?
    requires a == NextToExit(s.threads[t], t) && Enabled(s, a)
    requires s.nTotal >= 0 && s.nIdle >= 0 && (a.Resume? ==> s.nIdle > 0)
    ensures var r := Next(s, a, nBatchSize, verdict);
      && OnlyThread(s, r, t) && StepsToExit(r.threads[t]) < StepsToExit(s.threads[t])
      && (StepsToExit(r.threads[t]) == 0 ==> r.threads[t].Exited?)
  {
  }

  /** The steps of the first n threads together. */
  function AllToExit(ths: seq<Thread>, n: nat): nat
    requires n <= |ths|
  {
    if n == 0 then 0 else AllToExit(ths, n - 1) + StepsToExit(ths[n - 1])
  }

  lemma {:induction false} FewerToExit(ths: seq<Thread>, t: nat, th: Thread, n: nat)
    requires t < |ths| && n <= |ths| && StepsToExit(th) < StepsToExit(ths[t])
    ensures var after := ths[t := th];
      if t < n then AllToExit(after, n) < AllToExit(ths, n) else AllToExit(after, n) == AllToExit(ths, n)
  {
    if n > 0 {
      FewerToExit(ths, t, th, n - 1);
    }
  }

  /** Once the workers have been asked to stop, they get to their exits, and the joins come to an end. */
  lemma {:induction false} WorkersExit(s: State, nBatchSize: nat, verdict: Verdicts)
    returns (run: seq<Action>, r: State)
    requires Inv(s, verdict) && s.stop
    ensures IsRun(s, run, r, nBatchSize, verdict) && run != [] && run[|run| - 1] == JoinWorkers
    ensures r.threads == [Outside] && !r.stop && r.queue == s.queue && r.added == s.added
    decreases AllToExit(s.threads, |s.threads|)
  {
    if t :| 0 < t < |s.threads| && !s.threads[t].Exited? {
      var a := NextToExit(s.threads[t], t);
      StepToExit(s, t, nBatchSize, verdict);
      var n := Next(s, a, nBatchSize, verdict);
      FewerToExit(s.threads, t, n.threads[t], |s.threads|);
      var rest;
      rest, r := WorkersExit(n, nBatchSize, verdict);
      run := [a] + rest;
      RunFrom(s, a, n, rest, r, nBatchSize, verdict);
    } else {
      StepKeeps(s, JoinWorkers, nBatchSize, verdict);
      r := Next(s, JoinWorkers, nBatchSize, verdict);
      run := [JoinWorkers];
      RunFrom(s, JoinWorkers, r, [], r, nBatchSize, verdict);
      assert [JoinWorkers] + [] == run;
    }
  }

  /**
   StopWorkerThreads always gets through: every worker can reach its exit whatever it was doing, and
   then the joins leave a queue without workers that can be used again, its checks still in place.
   */
  lemma {:induction false} StopCompletes(s: State, nBatchSize: nat, verdict: Verdicts)
    returns (run: seq<Action>, r: State)
    requires Inv(s, verdict) && Enabled(s, RequestStop)
    ensures IsRun(s, run, r, nBatchSize, verdict) && |run| > 1 && run[0] == RequestStop && run[|run| - 1] == JoinWorkers
    ensures r.threads == [Outside] && !r.stop && r.queue == s.queue && r.added == s.added
  {
    StepKeeps(s, RequestStop, nBatchSize, verdict);
    var n := Next(s, RequestStop, nBatchSize, verdict);
    var rest;
    rest, r := WorkersExit(n, nBatchSize, verdict);
    run := [RequestStop] + rest;
    RunFrom(s, RequestStop, n, rest, r, nBatchSize, verdict);
  }
}
