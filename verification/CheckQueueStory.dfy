/**
 What a run of the check queue did, told from its actions alone: which checks each round was given,
 which were handed back and tested, how many workers there are. Over every run the queue agrees
 with the story, and every answer Wait has given is right about the checks of its round.
 */
module CheckQueueStory {
  import opened CheckQueue

  /** The checks given to a round, those handed back in it, and those tested. */
  datatype Round = Round(checks: seq<Check>, back: multiset<Check>, tested: multiset<Check>)

  datatype Story = Story(open: Round, closed: seq<Round>, workers: nat, stopping: bool)

  const NO_ROUND := Round([], multiset{}, multiset{})

  function Beginning(): Story {
    Story(NO_ROUND, [], 0, false)
  }

  predicate InWait(s: State) {
    |s.threads| > 0 && !s.threads[0].Outside?
  }

  /** What an action adds to the round: the checks of an Add, a batch handed back, a check tested. */
  function Grown(g: Round, s: State, a: Action): Round {
    match a
    case Add(checks) => Round(g.checks + checks, g.back, g.tested)
    case HandBack(t) =>
      if t < |s.threads| && s.threads[t].Working?
      then Round(g.checks, g.back + multiset(s.threads[t].batch), g.tested) else g
    case Evaluate(t) =>
      if t < |s.threads| && s.threads[t].Working? && s.threads[t].ok && s.threads[t].next < |s.threads[t].batch|
      then Round(g.checks, g.back, g.tested + multiset{s.threads[t].batch[s.threads[t].next]}) else g
    case _ => g
  }

  function Workers(n: nat, a: Action): nat {
    match a
    case StartWorkers(m) => m
    case JoinWorkers => 0
    case _ => n
  }

  /** The story after an action that leads from s to r; a round ends when the master comes out of Wait. */
  function Tell(h: Story, s: State, a: Action, r: State): Story {
    var g := Grown(h.open, s, a);
    var n := Workers(h.workers, a);
    var stopping := a.RequestStop? || (h.stopping && !a.JoinWorkers?);
    if InWait(s) && !InWait(r) then Story(NO_ROUND, h.closed + [g], n, stopping)
    else Story(g, h.closed, n, stopping)
  }

  ghost function Told(h: Story, s: State, run: seq<Action>, nBatchSize: nat, verdict: Verdicts): Story
    requires Inv(s, verdict)
    decreases |run|
  {
    if run == [] || !Enabled(s, run[0]) then h
    else
      StepKeeps(s, run[0], nBatchSize, verdict);
      var r := Next(s, run[0], nBatchSize, verdict);
      Told(Tell(h, s, run[0], r), r, run[1..], nBatchSize, verdict)
  }

  /** The queue keeps to the story. */
  ghost predicate Agrees(s: State, h: Story) {
    && s.added == h.open.checks && s.finished == h.open.back && s.evaluated == h.open.tested
    && |s.threads| == h.workers + 1 && s.stop == h.stopping
    && |s.answers| == |h.closed|
  }

  /**
   An answer of Wait is right about a round: every check is handed back as often as it was given,
   none is tested more often, the answer is true exactly if all pass, and then each was tested.
   */
  ghost predicate Right(answer: bool, g: Round, verdict: Verdicts) {
    && g.back == multiset(g.checks) && g.tested <= multiset(g.checks)
    && (answer <==> AllPass(g.checks, verdict))
    && (answer ==> g.tested == multiset(g.checks))
  }

  ghost predicate AllRight(answers: seq<bool>, closed: seq<Round>, verdict: Verdicts) {
    |answers| == |closed| && forall i :: 0 <= i < |answers| ==> Right(answers[i], closed[i], verdict)
  }

  predicate InLoop(a: Action) {
    a.Enter? || a.Resume? || a.HandBack?
  }

  /** m is s with what the action hands back, and nothing else that the story knows of. */
  ghost predicate Arrived(s: State, a: Action, h: Story, m: State)
    requires InLoop(a)
  {
    var g := Grown(h.open, s, a);
    && a.t < |s.threads| == |m.threads|
    && m.added == g.checks && m.finished == g.back && m.evaluated == g.tested
    && m.stop == s.stop && m.answers == s.answers
    && (a.t != 0 ==> m.threads[0].Outside? == s.threads[0].Outside?)
    && (a.t == 0 ==> !s.threads[0].Outside?)
  }

  lemma {:induction false} ArriveTold(s: State, a: Action, h: Story)
    requires Enabled(s, a) && InLoop(a) && Agrees(s, h)
    ensures Arrived(s, a, h, Arrive(s, a))
  {
  }

  /** From the head of the loop Wait returns the status. */
  ghost predicate Returned(m: State, r: State) {
    && |r.threads| == |m.threads| > 0 && r.stop == m.stop && r.threads[0].Outside?
    && r.added == [] && r.finished == r.evaluated == multiset{} && r.answers == m.answers + [m.allOk]
  }

  /** From the head of the loop the round goes on. */
  ghost predicate WentOn(m: State, t: nat, r: State) {
    && |r.threads| == |m.threads| > 0 && r.stop == m.stop
    && r.added == m.added && r.finished == m.finished && r.evaluated == m.evaluated && r.answers == m.answers
    && (if t == 0 then !r.threads[0].Outside? else r.threads[0].Outside? == m.threads[0].Outside?)
  }

  lemma {:induction false} HeadTold(m: State, t: nat, nBatchSize: nat)
    requires t < |m.threads| && m.nTotal >= 0 && m.nIdle >= 0 && (t == 0 ==> !m.stop)
    ensures var r := LoopHead(m, t, nBatchSize);
      if t == 0 && m.queue == [] && m.nTodo == 0 then Returned(m, r) else WentOn(m, t, r)
  {
  }

  lemma {:induction false} ReturnTold(s: State, a: Action, h: Story, m: State, r: State, verdict: Verdicts)
    requires InLoop(a) && Agrees(s, h) && AllRight(s.answers, h.closed, verdict)
    requires a.t == 0 && Arrived(s, a, h, m) && Returned(m, r)
    requires m.finished == multiset(m.added) && m.evaluated <= multiset(m.added)
    requires (m.allOk <==> AllPass(m.added, verdict)) && (m.allOk ==> m.evaluated == multiset(m.added))
    ensures var k := Tell(h, s, a, r); Agrees(r, k) && AllRight(r.answers, k.closed, verdict)
  {
    assert Right(m.allOk, Grown(h.open, s, a), verdict);
  }

  lemma {:induction false} GoOnTold(s: State, a: Action, h: Story, m: State, r: State)
    requires InLoop(a) && Agrees(s, h) && Arrived(s, a, h, m) && WentOn(m, a.t, r)
    ensures var k := Tell(h, s, a, r); Agrees(r, k) && k.closed == h.closed && r.answers == s.answers
  {
  }

  lemma {:induction false} LoopTold(s: State, a: Action, h: Story, nBatchSize: nat, verdict: Verdicts)
    requires Inv(s, verdict) && Enabled(s, a) && InLoop(a) && Agrees(s, h) && AllRight(s.answers, h.closed, verdict)
    requires s.nTotal >= 0 && s.nIdle >= 0 && (a.Resume? ==> s.nIdle > 0)
    ensures var r := Next(s, a, nBatchSize, verdict); var k := Tell(h, s, a, r);
      Agrees(r, k) && AllRight(r.answers, k.closed, verdict)
  {
    ArriveKeeps(s, a, verdict);
    ArriveTold(s, a, h);
    var m := Arrive(s, a);
    HeadKeeps(m, a.t, nBatchSize, verdict);
    HeadTold(m, a.t, nBatchSize);
    var r := LoopHead(m, a.t, nBatchSize);
    if a.t == 0 && m.queue == [] && m.nTodo == 0 {
      AllDone(m, verdict);
      ReturnTold(s, a, h, m, r, verdict);
    } else {
      GoOnTold(s, a, h, m, r);
    }
  }

  lemma {:induction false} StepTold(s: State, a: Action, h: Story, nBatchSize: nat, verdict: Verdicts)
    requires Inv(s, verdict) && Enabled(s, a) && Agrees(s, h) && AllRight(s.answers, h.closed, verdict)
    requires s.nTotal >= 0 && s.nIdle >= 0 && (a.Resume? ==> s.nIdle > 0)
    ensures var r := Next(s, a, nBatchSize, verdict); var k := Tell(h, s, a, r);
      Agrees(r, k) && AllRight(r.answers, k.closed, verdict)
  {
    if InLoop(a) {
      LoopTold(s, a, h, nBatchSize, verdict);
    }
  }

  lemma {:induction false} RunTold(
    s: State, h: Story, run: seq<Action>, r: State, nBatchSize: nat, verdict: Verdicts)
    requires Inv(s, verdict) && IsRun(s, run, r, nBatchSize, verdict)
    requires Agrees(s, h) && AllRight(s.answers, h.closed, verdict)
    ensures var k := Told(h, s, run, nBatchSize, verdict); Agrees(r, k) && AllRight(r.answers, k.closed, verdict)
    decreases |run|
  {
    if run != [] {
      StepKeeps(s, run[0], nBatchSize, verdict);
      StepTold(s, run[0], h, nBatchSize, verdict);
      var n := Next(s, run[0], nBatchSize, verdict);
      RunTold(n, Tell(h, s, run[0], n), run[1..], r, nBatchSize, verdict);
    }
  }

  /**
   Over every run of a new queue, whatever the interleaving: the checks of the open round are those
   the run has added since Wait last returned, and each answer Wait has given is true exactly if all
   checks the run added in its round pass, each handed back as often as it was added.
   */
  lemma {:induction false} EveryWaitIsRight(
    s: State, run: seq<Action>, r: State, nBatchSize: nat, verdict: Verdicts)
    requires s == Init() && Inv(s, verdict) && IsRun(s, run, r, nBatchSize, verdict)
    ensures var k := Told(Beginning(), s, run, nBatchSize, verdict);
      Agrees(r, k) && AllRight(r.answers, k.closed, verdict)
  {
    RunTold(s, Beginning(), run, r, nBatchSize, verdict);
  }

  /** The queue is a stack: a worker that comes next takes from the end of what was added last. */
  lemma {:induction false} LastAddedTakenFirst(
    s: State, checks: seq<Check>, t: nat, nBatchSize: nat, verdict: Verdicts)
    requires Inv(s, verdict) && Enabled(s, Add(checks)) && s.nTotal >= 0 && s.nIdle >= 0
    requires 0 < t < |s.threads| && s.threads[t].Starting? && s.queue + checks != []
    ensures var n := Next(s, Add(checks), nBatchSize, verdict);
      && Enabled(n, Enter(t)) && n.nTotal >= 0 && n.nIdle >= 0
      && var r := Next(n, Enter(t), nBatchSize, verdict);
         && r.threads[t].Working? && r.threads[t].batch != [] && r.queue + r.threads[t].batch == s.queue + checks
  {
    var n := Next(s, Add(checks), nBatchSize, verdict);
    TakesFairShare(Arrive(n, Enter(t)), t, nBatchSize);
  }

  /** What a thread can do next. */
  function NextOf(th: Thread, t: nat): Action {
    match th
    case Working(batch, next, _) => if next < |batch| then Evaluate(t) else HandBack(t)
    case Asleep => Wake(t)
    case Woken => Resume(t)
    case _ => Enter(t)
  }

  /**
   Runs leave nothing out: a thread can go on in whatever state it is, and the master may call
   anything whenever it is outside and no stop is under way, start workers when there are none and no
   round is open, and join them when they are done.
   */
  lemma {:induction false} NothingLeftOut(s: State, h: Story, t: nat, checks: seq<Check>, n: nat, verdict: Verdicts)
    requires Inv(s, verdict) && Agrees(s, h) && t < |s.threads|
    ensures !s.threads[t].Outside? && !s.threads[t].Exited? ==> Enabled(s, NextOf(s.threads[t], t))
    ensures !InWait(s) && !h.stopping ==> Enabled(s, Add(checks)) && Enabled(s, CallWait) && Enabled(s, RequestStop)
    ensures !InWait(s) && !h.stopping && h.workers == 0 && h.open.checks == [] ==> Enabled(s, StartWorkers(n))
    ensures h.stopping && (forall u :: 0 < u < |s.threads| ==> s.threads[u].Exited?) ==> Enabled(s, JoinWorkers)
  {
    assert ThreadOk(s.threads[t], s.added, verdict);
  }
}
