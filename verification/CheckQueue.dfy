/**
 CCheckQueue as a state machine. Every critical section of `Loop`, `Add` and the thread
 management calls is one atomic step, as is every evaluation of a check outside the lock.
 Threads are interleaved arbitrarily; thread 0 is the master, the others are workers.
 */
module CheckQueue {
  import opened Numbers

  /** A verification job; its verdict is given by an arbitrary function. */
  datatype Check = Check(id: nat)
  type Verdicts = Check -> bool

  datatype Thread =
    | Outside                                         // the master when it is not in Wait
    | Starting                                        // about to enter Loop's first critical section
    | Asleep                                          // blocked in cond.wait
    | Woken                                           // released from cond.wait, not yet holding the mutex
    | Working(batch: seq<Check>, next: nat, ok: bool) // evaluating its batch outside the lock
    | Exited                                          // a worker that saw a stop request

  /**
   The guarded fields and the threads, plus what a round is judged by: the checks added
   since the last verdict, those whose batch was handed back, those actually evaluated, and
   what Wait has returned so far. CheckQueueStory.dfy proves these to be what a run did.
   */
  datatype State = State(
    queue: seq<Check>, nIdle: int, nTotal: int, nTodo: int, allOk: bool, stop: bool,
    threads: seq<Thread>,
    added: seq<Check>, finished: multiset<Check>, evaluated: multiset<Check>,
    answers: seq<bool>)

  datatype Action =
    | Add(checks: seq<Check>)      // master: CCheckQueue::Add
    | CallWait                     // master: CCheckQueue::Wait
    | StartWorkers(n: nat)         // master: StartWorkerThreads
    | RequestStop                  // master: StopWorkerThreads, up to the joins
    | JoinWorkers                  // master: the rest of StopWorkerThreads
    | Wake(t: nat)                 // a notification or a spurious wakeup
    | Enter(t: nat)                // Loop's first critical section
    | Resume(t: nat)               // cond.wait returns with the mutex held
    | Evaluate(t: nat)             // one check of a batch
    | HandBack(t: nat)             // the critical section after a batch

  function Init(): State {
    State([], 0, 0, 0, true, false, [Outside], [], multiset{}, multiset{}, [])
  }

  function Min(a: nat, b: nat): nat {
    if a < b then a else b
  }

  /**
   How many checks a thread takes: never none, and otherwise as many as fit both the batch size
   and an equal share of the queue for every thread that can help and one more.
   */
  function BatchSize(queued: nat, nTotal: int, nIdle: int, nBatchSize: nat): (n: nat)
    requires queued > 0 && nTotal >= 0 && nIdle >= 0
    ensures 1 <= n <= queued && FairShare(n, queued, nTotal + nIdle + 1, nBatchSize)
  {
    var helpers := nTotal + nIdle + 1;
    var share := queued / helpers;
    var capped := Min(nBatchSize, share);
    DivFacts(queued, helpers);
    ShareIsFair(queued, helpers, share, nBatchSize);
    if capped < 1 then 1 else capped
  }

  /** The largest number within both limits, or one. */
  ghost predicate FairShare(n: nat, queued: nat, helpers: nat, nBatchSize: nat) {
    && (n > 1 ==> n <= nBatchSize && n * helpers <= queued)
    && (n < nBatchSize ==> queued < n * helpers + helpers)
  }

  ghost predicate DivBounds(a: nat, d: nat, q: nat) {
    q <= a && q * d <= a < q * d + d
  }

  lemma {:induction false} DivFacts(a: nat, d: nat)
    requires d > 0
    ensures DivBounds(a, d, a / d)
  {
    var q, r := a / d, a % d;
    assert a == q * d + r && 0 <= r;
    MulAtLeast(q, d);
  }

  lemma {:induction false} ShareIsFair(queued: nat, helpers: nat, share: nat, nBatchSize: nat)
    requires queued > 0 && helpers > 0 && DivBounds(queued, helpers, share)
    ensures var capped := Min(nBatchSize, share); var n := if capped < 1 then 1 else capped;
      1 <= n <= queued && FairShare(n, queued, helpers, nBatchSize)
  {
    if nBatchSize < share {
      MulMono(nBatchSize, share, helpers);
    }
    if share == 0 {
      assert queued < helpers;
    }
  }

  /** What a thread takes at the head of the loop: the end of the queue, its fair share of it. */
  lemma {:induction false} TakesFairShare(s: State, t: nat, nBatchSize: nat)
    requires t < |s.threads| && s.nTotal >= 0 && s.nIdle >= 0 && !s.stop && s.queue != []
    ensures var r := LoopHead(s, t, nBatchSize);
      && r.threads[t].Working? && r.threads[t].next == 0 && r.threads[t].ok == s.allOk
      && var n := |r.threads[t].batch|;
         && 1 <= n && FairShare(n, |s.queue|, s.nTotal + s.nIdle + 1, nBatchSize)
         && r.queue + r.threads[t].batch == s.queue
  {
  }

  ghost predicate Enabled(s: State, a: Action) {
    match a
    case Add(_) => |s.threads| > 0 && s.threads[0].Outside? && !s.stop
    case CallWait => |s.threads| > 0 && s.threads[0].Outside? && !s.stop
    case StartWorkers(_) => |s.threads| == 1 && s.threads[0].Outside? && !s.stop && s.added == []
    case RequestStop => |s.threads| > 0 && s.threads[0].Outside? && !s.stop
    case JoinWorkers => |s.threads| > 0 && s.stop && forall t :: 0 < t < |s.threads| ==> s.threads[t].Exited?
    case Wake(t) => t < |s.threads| && s.threads[t].Asleep?
    case Enter(t) => t < |s.threads| && s.threads[t].Starting?
    case Resume(t) => t < |s.threads| && s.threads[t].Woken?
    case Evaluate(t) => t < |s.threads| && s.threads[t].Working? && s.threads[t].next < |s.threads[t].batch|
    case HandBack(t) => t < |s.threads| && s.threads[t].Working? && s.threads[t].next == |s.threads[t].batch|
  }

  /** From the head of Loop's inner while to where the thread gives up the mutex. */
  function LoopHead(s: State, t: nat, nBatchSize: nat): State
    requires t < |s.threads| && s.nTotal >= 0 && s.nIdle >= 0
  {
    if s.stop then s.(threads := s.threads[t := Exited])
    else if s.queue == [] then
      if t == 0 && s.nTodo == 0 then
        // the verdict is s.allOk; the status is reset for the next round
        s.(nTotal := s.nTotal - 1, allOk := true, threads := s.threads[t := Outside],
           added := [], finished := multiset{}, evaluated := multiset{}, answers := s.answers + [s.allOk])
      else s.(nIdle := s.nIdle + 1, threads := s.threads[t := Asleep])
    else Take(s, t, |s.queue| - BatchSize(|s.queue|, s.nTotal, s.nIdle, nBatchSize))
  }

  /** The master is told when a worker hands back the last outstanding check. */
  function NotifyMaster(ths: seq<Thread>, t: nat, nTodo: int): seq<Thread> {
    if nTodo == 0 && t != 0 && |ths| > 0 && ths[0].Asleep? then ths[0 := Woken] else ths
  }

  /** The state in which a thread, its batch and its idle count returned, reaches the head of the inner loop. */
  function Arrive(s: State, a: Action): State
    requires (a.Enter? || a.Resume? || a.HandBack?) && a.t < |s.threads| && (a.HandBack? ==> s.threads[a.t].Working?)
  {
    match a
    case Enter(_) => s.(nTotal := s.nTotal + 1)
    case Resume(t) => s.(nIdle := s.nIdle - 1, threads := s.threads[t := Starting])
    case HandBack(t) => Settle(s.(threads := NotifyMaster(s.threads, t, s.nTodo - |s.threads[t].batch|)), t)
  }

  /** The clean-up after a batch. */
  function Settle(s: State, t: nat): State
    requires t < |s.threads| && s.threads[t].Working?
  {
    var th := s.threads[t];
    s.(allOk := s.allOk && th.ok, nTodo := s.nTodo - |th.batch|,
       threads := s.threads[t := Starting], finished := s.finished + multiset(th.batch))
  }

  /** A thread takes all but the first `keep` checks of the queue. */
  function Take(s: State, t: nat, keep: nat): State
    requires t < |s.threads| && keep <= |s.queue|
  {
    s.(queue := s.queue[..keep], threads := s.threads[t := Working(s.queue[keep..], 0, s.allOk)])
  }

  /** A thread evaluates its next check, or passes it over once something has failed. */
  function Examine(s: State, t: nat, verdict: Verdicts): State
    requires t < |s.threads| && s.threads[t].Working? && s.threads[t].next < |s.threads[t].batch|
  {
    var th := s.threads[t];
    var check := th.batch[th.next];
    s.(threads := s.threads[t := Working(th.batch, th.next + 1, th.ok && verdict(check))],
       evaluated := if th.ok then s.evaluated + multiset{check} else s.evaluated)
  }

  ghost function Next(s: State, a: Action, nBatchSize: nat, verdict: Verdicts): State
    requires Enabled(s, a)
    requires s.nTotal >= 0 && s.nIdle >= 0 && (a.Resume? ==> s.nIdle > 0)
  {
    match a
    case Add(checks) => s.(queue := s.queue + checks, nTodo := s.nTodo + |checks|, added := s.added + checks)
    case CallWait => s.(threads := s.threads[0 := Starting])
    case StartWorkers(n) => s.(nIdle := 0, nTotal := 0, allOk := true, threads := s.threads + seq(n, i => Starting))
    case RequestStop => s.(stop := true)
    case JoinWorkers => s.(stop := false, threads := s.threads[..1])
    case Wake(t) => s.(threads := s.threads[t := Woken])
    case Evaluate(t) => Examine(s, t, verdict)
    case _ => LoopHead(Arrive(s, a), a.t, nBatchSize)
  }

  /** A check is evaluated unless its thread has already seen a failure; the failure stays. */
  lemma {:induction false} ExaminesUntilFailure(s: State, t: nat, verdict: Verdicts)
    requires t < |s.threads| && s.threads[t].Working? && s.threads[t].next < |s.threads[t].batch|
    ensures var th, r := s.threads[t], Examine(s, t, verdict); var check := th.batch[th.next];
      && (th.ok ==> r.evaluated == s.evaluated + multiset{check} && r.threads[t].ok == verdict(check))
      && (!th.ok ==> r.evaluated == s.evaluated && !r.threads[t].ok)
      && r.threads[t].batch == th.batch && r.threads[t].next == th.next + 1
  {
  }

  // ---------------------------------------------------------------- sums over threads

  /** How often a check occurs in a list. */
  function Times(checks: seq<Check>, c: Check): nat {
    multiset(checks)[c]
  }

  /**
   Threads added up: occurrences of one check in their batches and in the parts of these
   they are done with, checks in flight, idle threads, looping threads, remaining work.
   */
  datatype Tally = Tally(held: nat, passed: nat, flight: nat, idle: nat, looping: nat, weight: nat)

  function TallyOf(th: Thread, c: Check): Tally {
    match th
    case Working(batch, next, _) =>
      var n := Min(next, |batch|);
      Tally(Times(batch, c), Times(batch[..n], c), |batch|, 0, 1, |batch| - n + 3)
    case Asleep => Tally(0, 0, 0, 1, 1, 0)
    case Woken => Tally(0, 0, 0, 1, 1, 1)
    case Starting => Tally(0, 0, 0, 0, 0, 1)
    case _ => Tally(0, 0, 0, 0, 0, 0)
  }

  function Plus(a: Tally, b: Tally): Tally {
    Tally(a.held + b.held, a.passed + b.passed, a.flight + b.flight,
          a.idle + b.idle, a.looping + b.looping, a.weight + b.weight)
  }

  function SumTo(ths: seq<Thread>, share: Thread -> Tally, n: nat): Tally
    requires n <= |ths|
  {
    if n == 0 then Tally(0, 0, 0, 0, 0, 0) else Plus(SumTo(ths, share, n - 1), share(ths[n - 1]))
  }

  function Share(c: Check): Thread -> Tally {
    th => TallyOf(th, c)
  }

  function Sum(ths: seq<Thread>, c: Check): Tally {
    SumTo(ths, Share(c), |ths|)
  }

  lemma {:induction false} SumPrefix(ths: seq<Thread>, other: seq<Thread>, share: Thread -> Tally, n: nat)
    requires n <= |ths| && n <= |other| && forall i :: 0 <= i < n ==> ths[i] == other[i]
    ensures SumTo(ths, share, n) == SumTo(other, share, n)
  {
    if n > 0 {
      SumPrefix(ths, other, share, n - 1);
    }
  }

  /** Tally `now` is tally `was` with the share `from` replaced by the share `to`. */
  ghost predicate Moved(was: Tally, now: Tally, from: Tally, to: Tally) {
    && Plus(now, from) == Plus(was, to)
    && was.held >= from.held && was.flight >= from.flight
    && was.idle >= from.idle && was.looping >= from.looping && was.weight >= from.weight
  }

  lemma {:induction false} SumToUpdate(ths: seq<Thread>, t: nat, th: Thread, share: Thread -> Tally, n: nat)
    requires t < n <= |ths|
    ensures Moved(SumTo(ths, share, n), SumTo(ths[t := th], share, n), share(ths[t]), share(th))
  {
    var after := ths[t := th];
    if n == t + 1 {
      SumPrefix(after, ths, share, t);
    } else {
      assert after[n - 1] == ths[n - 1];
      SumToUpdate(ths, t, th, share, n - 1);
      MovedMore(SumTo(ths, share, n - 1), SumTo(after, share, n - 1), share(ths[t]), share(th), share(ths[n - 1]));
    }
  }

  lemma {:induction false} MovedMore(was: Tally, now: Tally, from: Tally, to: Tally, more: Tally)
    requires Moved(was, now, from, to)
    ensures Moved(Plus(was, more), Plus(now, more), from, to)
  {
  }

  /** Changing one thread takes its old share out of the sums and puts the new one in. */
  lemma {:induction false} SumUpdate(ths: seq<Thread>, t: nat, th: Thread, c: Check)
    requires t < |ths|
    ensures Moved(Sum(ths, c), Sum(ths[t := th], c), TallyOf(ths[t], c), TallyOf(th, c))
  {
    SumToUpdate(ths, t, th, Share(c), |ths|);
  }

  // ---------------------------------------------------------------- the invariant

  ghost predicate AllPass(checks: seq<Check>, verdict: Verdicts) {
    forall c :: c in checks ==> verdict(c)
  }

  ghost predicate ThreadOk(th: Thread, added: seq<Check>, verdict: Verdicts) {
    th.Working? ==>
      && 0 < |th.batch| && th.next <= |th.batch|
      && (if th.ok then AllPass(th.batch[..th.next], verdict) else !AllPass(added, verdict))
  }

  /** Which states threads may be in, and what they and the status say about the checks. */
  ghost predicate Shape(s: State, verdict: Verdicts) {
    && |s.threads| > 0
    && !s.threads[0].Exited?
    && (s.stop ==> s.threads[0].Outside?)
    && (forall t :: 0 < t < |s.threads| ==> !s.threads[t].Outside?)
    && (forall t :: 0 <= t < |s.threads| ==> ThreadOk(s.threads[t], s.added, verdict))
    && (if s.allOk then forall c :: s.finished[c] > 0 ==> verdict(c) else !AllPass(s.added, verdict))
    && (s.threads[0].Asleep? ==> s.queue == [] && s.nTodo > 0)
  }

  ghost predicate Untroubled(s: State) {
    s.allOk && forall t :: 0 <= t < |s.threads| && s.threads[t].Working? ==> s.threads[t].ok
  }

  /**
   Every added check is queued, in flight or handed back; nTodo and nIdle count what they say, and
   nTotal no less; no check is evaluated twice, and while nothing has failed none is skipped.
   */
  ghost predicate Counted(s: State, y: Tally, c: Check) {
    && Times(s.added, c) == Times(s.queue, c) + y.held + s.finished[c]
    && s.nTodo == |s.queue| + y.flight
    && s.nIdle == y.idle && s.nTotal >= y.looping
    && s.evaluated[c] <= s.finished[c] + y.passed
    && (Untroubled(s) ==> s.evaluated[c] == s.finished[c] + y.passed)
  }

  ghost predicate Inv(s: State, verdict: Verdicts) {
    Shape(s, verdict) && forall c :: Counted(s, Sum(s.threads, c), c)
  }

  // ---------------------------------------------------------------- steps keep the invariant

  /** One thread changes; nothing that failed is forgotten. */
  ghost predicate OneThread(s: State, r: State, t: nat) {
    && t < |s.threads| && |r.threads| == |s.threads| && r.threads == s.threads[t := r.threads[t]]
    && (r.allOk ==> s.allOk && (s.threads[t].Working? ==> s.threads[t].ok))
  }

  lemma {:induction false} StaysUntroubled(s: State, r: State, t: nat)
    requires OneThread(s, r, t)
    ensures Untroubled(r) ==> Untroubled(s)
  {
    forall u | Untroubled(r) && 0 <= u < |s.threads| && s.threads[u].Working? ensures s.threads[u].ok {
      assert u != t ==> r.threads[u] == s.threads[u];
    }
  }

  /** A thread without a batch is replaced by another without one. */
  lemma {:induction false} QuietCounts(s: State, r: State, t: nat, y: Tally, y': Tally, c: Check)
    requires OneThread(s, r, t) && !s.threads[t].Working? && !r.threads[t].Working?
    requires Counted(s, y, c) && Moved(y, y', TallyOf(s.threads[t], c), TallyOf(r.threads[t], c))
    requires r.added == s.added && r.queue == s.queue && r.nTodo == s.nTodo
    requires r.finished == s.finished && r.evaluated == s.evaluated
    requires r.nIdle - s.nIdle == TallyOf(r.threads[t], c).idle - TallyOf(s.threads[t], c).idle
    requires r.nTotal >= y'.looping
    ensures Counted(r, y', c)
  {
    StaysUntroubled(s, r, t);
  }

  /** A finished batch goes from in flight to handed back. */
  lemma {:induction false} SettleCounts(s: State, t: nat, y: Tally, y': Tally, c: Check)
    requires Enabled(s, HandBack(t)) && Counted(s, y, c)
    requires Moved(y, y', TallyOf(s.threads[t], c), TallyOf(Starting, c))
    ensures Counted(Settle(s, t), y', c)
    ensures Settle(s, t).nTotal > y'.looping
  {
    StaysUntroubled(s, Settle(s, t), t);
    assert s.threads[t].batch[..s.threads[t].next] == s.threads[t].batch;
  }

  lemma {:induction false} TakeCounts(s: State, t: nat, keep: nat, y: Tally, y': Tally, c: Check)
    requires t < |s.threads| && s.threads[t].Starting? && keep < |s.queue|
    requires Counted(s, y, c) && s.nTotal > y.looping
    requires Moved(y, y', TallyOf(Starting, c), TallyOf(Working(s.queue[keep..], 0, s.allOk), c))
    ensures Counted(Take(s, t, keep), y', c)
  {
    StaysUntroubled(s, Take(s, t, keep), t);
    assert s.queue == s.queue[..keep] + s.queue[keep..];
  }

  lemma {:induction false} EvaluateCounts(s: State, t: nat, y: Tally, y': Tally, c: Check, verdict: Verdicts)
    requires Enabled(s, Evaluate(t)) && Counted(s, y, c)
    requires Moved(y, y', TallyOf(s.threads[t], c), TallyOf(Examine(s, t, verdict).threads[t], c))
    ensures Counted(Examine(s, t, verdict), y', c)
  {
    var th := s.threads[t];
    StaysUntroubled(s, Examine(s, t, verdict).(allOk := s.allOk && th.ok), t);
    assert th.batch[..th.next + 1] == th.batch[..th.next] + [th.batch[th.next]];
  }

  lemma {:induction false} SettleShape(s: State, t: nat, verdict: Verdicts)
    requires Shape(s, verdict) && Enabled(s, HandBack(t)) && s.nTodo >= |s.threads[t].batch|
    requires s.nTodo == |s.threads[t].batch| && t != 0 ==> !s.threads[0].Asleep?
    ensures Shape(Settle(s, t), verdict)
  {
    var th := s.threads[t];
    assert ThreadOk(th, s.added, verdict) && th.batch[..th.next] == th.batch;
    assert forall c :: c in multiset(th.batch) ==> c in th.batch;
  }

  lemma {:induction false} EvaluateShape(s: State, t: nat, verdict: Verdicts)
    requires Shape(s, verdict) && Enabled(s, Evaluate(t))
    requires s.threads[t].batch[s.threads[t].next] in s.added
    ensures Shape(Examine(s, t, verdict), verdict)
  {
    var th := s.threads[t];
    assert ThreadOk(th, s.added, verdict);
    assert th.batch[..th.next + 1] == th.batch[..th.next] + [th.batch[th.next]];
    assert ThreadOk(Examine(s, t, verdict).threads[t], s.added, verdict);
  }

  /** A thread that holds the mutex at the head of the inner loop. */
  ghost predicate AtHead(s: State, t: nat) {
    t < |s.threads| && s.threads[t].Starting? && forall c :: s.nTotal > Sum(s.threads, c).looping
  }

  ghost predicate NoneWorking(ths: seq<Thread>, n: nat)
    requires n <= |ths|
  {
    forall t :: 0 <= t < n ==> !ths[t].Working?
  }

  /** With no check in flight, no thread is working. */
  lemma {:induction false} NothingInFlight(ths: seq<Thread>, c: Check, n: nat)
    requires n <= |ths| && SumTo(ths, Share(c), n).flight == 0
    requires forall t :: 0 <= t < |ths| && ths[t].Working? ==> 0 < |ths[t].batch|
    ensures NoneWorking(ths, n) && SumTo(ths, Share(c), n).held == SumTo(ths, Share(c), n).passed == 0
  {
    if n > 0 {
      assert TallyOf(ths[n - 1], c).flight == 0;
      NothingInFlight(ths, c, n - 1);
    }
  }

  lemma {:induction false} LoopHeadShape(s: State, t: nat, nBatchSize: nat, verdict: Verdicts)
    requires Shape(s, verdict) && t < |s.threads| && s.threads[t].Starting? && s.nTotal >= 0 && s.nIdle >= 0
    requires s.nTodo >= 0 && (s.nTodo == 0 ==> NoneWorking(s.threads, |s.threads|))
    ensures Shape(LoopHead(s, t, nBatchSize), verdict)
  {
    var r := LoopHead(s, t, nBatchSize);
    assert ThreadOk(r.threads[t], r.added, verdict);
    forall u | 0 <= u < |r.threads| ensures ThreadOk(r.threads[u], r.added, verdict) {
      assert u != t ==> ThreadOk(s.threads[u], s.added, verdict);
    }
  }

  lemma {:induction false} LoopHeadCounts(s: State, t: nat, nBatchSize: nat, y: Tally, y': Tally, c: Check)
    requires t < |s.threads| && s.threads[t].Starting? && Counted(s, y, c) && s.nTotal > y.looping
    requires s.nTodo == 0 ==> y.held == y.passed == 0
    requires Moved(y, y', TallyOf(Starting, c), TallyOf(LoopHead(s, t, nBatchSize).threads[t], c))
    ensures Counted(LoopHead(s, t, nBatchSize), y', c)
  {
    if s.stop || (s.queue == [] && !(t == 0 && s.nTodo == 0)) {
      QuietCounts(s, LoopHead(s, t, nBatchSize), t, y, y', c);
    } else if s.queue != [] {
      TakeCounts(s, t, |s.queue| - BatchSize(|s.queue|, s.nTotal, s.nIdle, nBatchSize), y, y', c);
    }
  }

  lemma {:induction false} HeadKeeps(s: State, t: nat, nBatchSize: nat, verdict: Verdicts)
    requires Inv(s, verdict) && AtHead(s, t)
    ensures s.nTotal >= 0 && s.nIdle >= 0
    ensures Inv(LoopHead(s, t, nBatchSize), verdict)
  {
    assert Counted(s, Sum(s.threads, Check(0)), Check(0));
    var r := LoopHead(s, t, nBatchSize);
    if s.nTodo == 0 {
      NothingInFlight(s.threads, Check(0), |s.threads|);
    }
    forall c ensures Counted(r, Sum(r.threads, c), c) {
      assert Counted(s, Sum(s.threads, c), c);
      if s.nTodo == 0 {
        NothingInFlight(s.threads, c, |s.threads|);
      }
      SumUpdate(s.threads, t, r.threads[t], c);
      assert r.threads == s.threads[t := r.threads[t]];
      LoopHeadCounts(s, t, nBatchSize, Sum(s.threads, c), Sum(r.threads, c), c);
    }
    LoopHeadShape(s, t, nBatchSize, verdict);
  }

  lemma {:induction false} WakeKeeps(s: State, t: nat, verdict: Verdicts)
    requires Inv(s, verdict) && Enabled(s, Wake(t))
    ensures Inv(s.(threads := s.threads[t := Woken]), verdict)
  {
    var r := s.(threads := s.threads[t := Woken]);
    forall c ensures Counted(r, Sum(r.threads, c), c) {
      SumUpdate(s.threads, t, Woken, c);
      QuietCounts(s, r, t, Sum(s.threads, c), Sum(r.threads, c), c);
    }
  }

  lemma {:induction false} ResumeArrives(s: State, t: nat, verdict: Verdicts)
    requires Inv(s, verdict) && Enabled(s, Resume(t))
    ensures s.nIdle > 0 && Inv(Arrive(s, Resume(t)), verdict) && AtHead(Arrive(s, Resume(t)), t)
  {
    var r := Arrive(s, Resume(t));
    forall c ensures s.nIdle > 0 && Counted(r, Sum(r.threads, c), c) && r.nTotal > Sum(r.threads, c).looping {
      assert Counted(s, Sum(s.threads, c), c);
      SumUpdate(s.threads, t, Starting, c);
      QuietCounts(s, r, t, Sum(s.threads, c), Sum(r.threads, c), c);
    }
    assert Counted(s, Sum(s.threads, Check(0)), Check(0));
    SumUpdate(s.threads, t, Starting, Check(0));
  }

  lemma {:induction false} SettleKeeps(s: State, t: nat, verdict: Verdicts)
    requires Inv(s, verdict) && Enabled(s, HandBack(t))
    requires s.nTodo == |s.threads[t].batch| && t != 0 ==> !s.threads[0].Asleep?
    ensures Inv(Settle(s, t), verdict) && AtHead(Settle(s, t), t)
  {
    var r := Settle(s, t);
    forall c ensures Counted(r, Sum(r.threads, c), c) && r.nTotal > Sum(r.threads, c).looping
                     && s.nTodo >= |s.threads[t].batch|
    {
      assert Counted(s, Sum(s.threads, c), c);
      SumUpdate(s.threads, t, Starting, c);
      SettleCounts(s, t, Sum(s.threads, c), Sum(r.threads, c), c);
    }
    assert Counted(r, Sum(r.threads, Check(0)), Check(0));
    SettleShape(s, t, verdict);
  }

  lemma {:induction false} HandBackArrives(s: State, t: nat, verdict: Verdicts)
    requires Inv(s, verdict) && Enabled(s, HandBack(t))
    ensures Inv(Arrive(s, HandBack(t)), verdict) && AtHead(Arrive(s, HandBack(t)), t)
  {
    var n := s.(threads := NotifyMaster(s.threads, t, s.nTodo - |s.threads[t].batch|));
    if n != s {
      WakeKeeps(s, 0, verdict);
    }
    SettleKeeps(n, t, verdict);
  }

  /** Every critical section starts from a state in which the invariant holds at the loop head. */
  lemma {:induction false} ArriveKeeps(s: State, a: Action, verdict: Verdicts)
    requires Inv(s, verdict) && Enabled(s, a) && (a.Enter? || a.Resume? || a.HandBack?)
    ensures a.Resume? ==> s.nIdle > 0
    ensures Inv(Arrive(s, a), verdict) && AtHead(Arrive(s, a), a.t)
  {
    match a
    case Enter(t) =>
      forall c ensures Counted(Arrive(s, a), Sum(s.threads, c), c) && s.nTotal >= Sum(s.threads, c).looping {
        assert Counted(s, Sum(s.threads, c), c);
        assert Untroubled(Arrive(s, a)) ==> Untroubled(s);
      }
    case Resume(t) => ResumeArrives(s, t, verdict);
    case HandBack(t) => HandBackArrives(s, t, verdict);
  }

  lemma {:induction false} EvaluateKeeps(s: State, t: nat, verdict: Verdicts)
    requires Inv(s, verdict) && Enabled(s, Evaluate(t))
    ensures Inv(Examine(s, t, verdict), verdict)
  {
    var r := Examine(s, t, verdict);
    var check := s.threads[t].batch[s.threads[t].next];
    forall c ensures Counted(r, Sum(r.threads, c), c) {
      SumUpdate(s.threads, t, r.threads[t], c);
      EvaluateCounts(s, t, Sum(s.threads, c), Sum(r.threads, c), c, verdict);
    }
    SumUpdate(s.threads, t, r.threads[t], check);
    HeldIsAdded(s, Sum(s.threads, check), t, check);
    EvaluateShape(s, t, verdict);
  }

  lemma {:induction false} HeldIsAdded(s: State, y: Tally, t: nat, check: Check)
    requires Counted(s, y, check) && t < |s.threads| && y.held >= TallyOf(s.threads[t], check).held
    requires s.threads[t].Working? && check in s.threads[t].batch
    ensures check in s.added
  {
    assert check in multiset(s.threads[t].batch);
    assert check in multiset(s.added);
  }

  lemma {:induction false} AddKeeps(s: State, checks: seq<Check>, verdict: Verdicts)
    requires Inv(s, verdict) && Enabled(s, Add(checks))
    ensures Inv(s.(queue := s.queue + checks, nTodo := s.nTodo + |checks|, added := s.added + checks), verdict)
  {
    var r := s.(queue := s.queue + checks, nTodo := s.nTodo + |checks|, added := s.added + checks);
    forall c ensures Counted(r, Sum(r.threads, c), c) {
      assert Counted(s, Sum(s.threads, c), c);
      assert Untroubled(r) ==> Untroubled(s);
    }
    forall t | 0 <= t < |r.threads| ensures ThreadOk(r.threads[t], r.added, verdict) {
      assert ThreadOk(s.threads[t], s.added, verdict);
    }
  }

  const NOTHING := Tally(0, 0, 0, 0, 0, 0)

  lemma {:induction false} SumSilent(ths: seq<Thread>, share: Thread -> Tally, n: nat)
    requires 0 < n <= |ths| && forall t :: 0 < t < n ==> share(ths[t]) == NOTHING
    ensures SumTo(ths, share, n) == SumTo(ths[..1], share, 1)
  {
    if n == 1 {
      SumPrefix(ths, ths[..1], share, 1);
    } else {
      SumSilent(ths, share, n - 1);
    }
  }

  lemma {:induction false} JoinKeeps(s: State, verdict: Verdicts)
    requires Inv(s, verdict) && Enabled(s, JoinWorkers)
    ensures Inv(s.(stop := false, threads := s.threads[..1]), verdict)
  {
    var r := s.(stop := false, threads := s.threads[..1]);
    assert Untroubled(r) ==> Untroubled(s);
    forall c ensures Counted(r, Sum(r.threads, c), c) {
      SumJoined(s.threads, c);
      JoinCounts(s, r, Sum(s.threads, c), c);
    }
  }

  lemma {:induction false} SumJoined(ths: seq<Thread>, c: Check)
    requires |ths| > 0 && forall t :: 0 < t < |ths| ==> ths[t].Exited?
    ensures Sum(ths[..1], c) == Sum(ths, c)
  {
    SumSilent(ths, Share(c), |ths|);
  }

  lemma {:induction false} JoinCounts(s: State, r: State, y: Tally, c: Check)
    requires Counted(s, y, c) && r == s.(stop := false, threads := r.threads) && (Untroubled(r) ==> Untroubled(s))
    ensures Counted(r, y, c)
  {
  }

  predicate Blank(y: Tally) {
    y.held == y.passed == y.flight == y.idle == y.looping == 0
  }

  lemma {:induction false} SumBlank(ths: seq<Thread>, share: Thread -> Tally, n: nat)
    requires n <= |ths| && forall t :: 0 <= t < n ==> Blank(share(ths[t]))
    ensures Blank(SumTo(ths, share, n))
  {
    if n > 0 {
      SumBlank(ths, share, n - 1);
    }
  }

  lemma {:induction false} StartKeeps(s: State, ths: seq<Thread>, verdict: Verdicts)
    requires Inv(s, verdict) && Enabled(s, StartWorkers(0))
    requires |ths| > 0 && ths[0].Outside? && forall t :: 0 < t < |ths| ==> ths[t].Starting?
    ensures Inv(s.(nIdle := 0, nTotal := 0, allOk := true, threads := ths), verdict)
  {
    var r := s.(nIdle := 0, nTotal := 0, allOk := true, threads := ths);
    forall c ensures Counted(r, Sum(r.threads, c), c) && s.finished[c] == 0 {
      SumBlank(s.threads, Share(c), |s.threads|);
      SumBlank(ths, Share(c), |ths|);
      BlankCounts(s, r, Sum(s.threads, c), Sum(ths, c), c);
    }
  }

  lemma {:induction false} BlankCounts(s: State, r: State, y: Tally, y': Tally, c: Check)
    requires Counted(s, y, c) && Blank(y) && Blank(y') && s.added == []
    requires r == s.(nIdle := 0, nTotal := 0, allOk := true, threads := r.threads)
    ensures Counted(r, y', c) && s.finished[c] == 0
  {
  }

  lemma {:induction false} CallWaitKeeps(s: State, verdict: Verdicts)
    requires Inv(s, verdict) && Enabled(s, CallWait)
    ensures Inv(s.(threads := s.threads[0 := Starting]), verdict)
  {
    var r := s.(threads := s.threads[0 := Starting]);
    forall c ensures Counted(r, Sum(r.threads, c), c) {
      assert Counted(s, Sum(s.threads, c), c);
      SumUpdate(s.threads, 0, Starting, c);
      QuietCounts(s, r, 0, Sum(s.threads, c), Sum(r.threads, c), c);
    }
  }

  lemma {:induction false} RequestStopKeeps(s: State, verdict: Verdicts)
    requires Inv(s, verdict) && Enabled(s, RequestStop)
    ensures Inv(s.(stop := true), verdict)
  {
    var r := s.(stop := true);
    assert Untroubled(r) ==> Untroubled(s);
    forall c ensures Counted(r, Sum(r.threads, c), c) {
      assert Counted(s, Sum(s.threads, c), c);
    }
  }

  /** Every step of every thread keeps the invariant. */
  lemma {:induction false} StepKeeps(s: State, a: Action, nBatchSize: nat, verdict: Verdicts)
    requires Inv(s, verdict) && Enabled(s, a)
    ensures s.nTotal >= 0 && s.nIdle >= 0 && (a.Resume? ==> s.nIdle > 0)
    ensures Inv(Next(s, a, nBatchSize, verdict), verdict)
  {
    assert Counted(s, Sum(s.threads, Check(0)), Check(0));
    match a
    case Add(checks) => AddKeeps(s, checks, verdict);
    case CallWait => CallWaitKeeps(s, verdict);
    case StartWorkers(n) => StartKeeps(s, s.threads + seq(n, i => Starting), verdict);
    case RequestStop => RequestStopKeeps(s, verdict);
    case JoinWorkers => JoinKeeps(s, verdict);
    case Wake(t) => WakeKeeps(s, t, verdict);
    case Evaluate(t) => EvaluateKeeps(s, t, verdict);
    case _ =>
      ArriveKeeps(s, a, verdict);
      HeadKeeps(Arrive(s, a), a.t, nBatchSize, verdict);
  }

  lemma {:induction false} InitKeeps(s: State, verdict: Verdicts)
    requires s == Init()
    ensures Inv(s, verdict)
  {
    forall c ensures Counted(s, Sum(s.threads, c), c) {
      SumBlank(s.threads, Share(c), |s.threads|);
      InitCounts(s, Sum(s.threads, c), c);
    }
  }

  lemma {:induction false} InitCounts(s: State, y: Tally, c: Check)
    requires s == Init() && Blank(y)
    ensures Counted(s, y, c)
  {
  }

  // ---------------------------------------------------------------- whole runs

  /** A run: any interleaving of enabled steps. */
  ghost predicate IsRun(s: State, run: seq<Action>, r: State, nBatchSize: nat, verdict: Verdicts)
    requires Inv(s, verdict)
    decreases |run|
  {
    if run == [] then r == s
    else
      && Enabled(s, run[0])
      && (StepKeeps(s, run[0], nBatchSize, verdict);
          IsRun(Next(s, run[0], nBatchSize, verdict), run[1..], r, nBatchSize, verdict))
  }

  /** Whatever the interleaving, the invariant holds in every state a queue ever reaches. */
  lemma {:induction false} RunKeeps(s: State, run: seq<Action>, r: State, nBatchSize: nat, verdict: Verdicts)
    requires Inv(s, verdict) && IsRun(s, run, r, nBatchSize, verdict)
    ensures Inv(r, verdict)
    decreases |run|
  {
    if run != [] {
      StepKeeps(s, run[0], nBatchSize, verdict);
      RunKeeps(Next(s, run[0], nBatchSize, verdict), run[1..], r, nBatchSize, verdict);
    }
  }

  /** nTotal is the number of looping threads, and `n` more. */
  ghost predicate Exact(s: State, n: nat) {
    forall c :: s.nTotal == Sum(s.threads, c).looping + n
  }

  lemma {:induction false} ExactUpdate(s: State, r: State, t: nat, n: nat, n': nat)
    requires Exact(s, n) && t < |s.threads| == |r.threads| && r.threads == s.threads[t := r.threads[t]]
    requires forall c :: r.nTotal - s.nTotal
                         == TallyOf(r.threads[t], c).looping - TallyOf(s.threads[t], c).looping + n' - n
    ensures Exact(r, n')
  {
    forall c ensures r.nTotal == Sum(r.threads, c).looping + n' {
      SumUpdate(s.threads, t, r.threads[t], c);
    }
  }

  lemma {:induction false} ArriveExact(s: State, a: Action)
    requires Exact(s, 0) && Enabled(s, a) && (a.Enter? || a.Resume? || a.HandBack?)
    ensures Exact(Arrive(s, a), 1) && Arrive(s, a).threads[a.t].Starting? && Arrive(s, a).stop == s.stop
  {
    match a
    case Enter(t) =>
    case Resume(t) => ExactUpdate(s, Arrive(s, a), t, 0, 1);
    case HandBack(t) =>
      var m := s.(threads := NotifyMaster(s.threads, t, s.nTodo - |s.threads[t].batch|));
      if m != s {
        ExactUpdate(s, m, 0, 0, 0);
      }
      ExactUpdate(m, Settle(m, t), t, 0, 1);
  }

  lemma {:induction false} HeadExact(s: State, t: nat, nBatchSize: nat)
    requires Exact(s, 1) && t < |s.threads| && s.threads[t].Starting? && !s.stop && s.nTotal >= 0 && s.nIdle >= 0
    ensures Exact(LoopHead(s, t, nBatchSize), 0)
  {
    ExactUpdate(s, LoopHead(s, t, nBatchSize), t, 1, 0);
  }

  lemma {:induction false} StartExact(s: State)
    requires s.nTotal == 0 && |s.threads| > 0 && s.threads[0].Outside?
    requires forall t :: 0 < t < |s.threads| ==> s.threads[t].Starting?
    ensures Exact(s, 0)
  {
    forall c ensures Sum(s.threads, c).looping == 0 {
      SumBlank(s.threads, Share(c), |s.threads|);
    }
  }

  lemma {:induction false} StepExact(s: State, a: Action, nBatchSize: nat, verdict: Verdicts)
    requires Inv(s, verdict) && Enabled(s, a) && !s.stop && Exact(s, 0) && !a.RequestStop?
    ensures s.nTotal >= 0 && s.nIdle >= 0 && (a.Resume? ==> s.nIdle > 0)
    ensures var r := Next(s, a, nBatchSize, verdict); !r.stop && Exact(r, 0)
  {
    StepKeeps(s, a, nBatchSize, verdict);
    var r := Next(s, a, nBatchSize, verdict);
    if a.Enter? || a.Resume? || a.HandBack? {
      ArriveKeeps(s, a, verdict);
      ArriveExact(s, a);
      HeadKeeps(Arrive(s, a), a.t, nBatchSize, verdict);
      HeadExact(Arrive(s, a), a.t, nBatchSize);
    } else if a.CallWait? {
      ExactUpdate(s, r, 0, 0, 0);
    } else if a.StartWorkers? {
      StartExact(r);
    } else if a.Wake? || a.Evaluate? {
      ExactUpdate(s, r, a.t, 0, 0);
    }
  }

  /**
   From the start of the workers until they are asked to stop, nTotal is exactly the number of
   looping threads, in every state that is reached.
   */
  lemma {:induction false} TotalIsExact(s: State, run: seq<Action>, r: State, nBatchSize: nat, verdict: Verdicts)
    requires Inv(s, verdict) && IsRun(s, run, r, nBatchSize, verdict)
    requires !s.stop && Exact(s, 0) && RequestStop !in run
    ensures !r.stop && Exact(r, 0)
    decreases |run|
  {
    if run != [] {
      assert run[0] in run;
      StepKeeps(s, run[0], nBatchSize, verdict);
      StepExact(s, run[0], nBatchSize, verdict);
      TotalIsExact(Next(s, run[0], nBatchSize, verdict), run[1..], r, nBatchSize, verdict);
    }
  }

  /** The step with which Wait returns, and what it returns. */
  predicate Returns(s: State, a: Action)
    requires (a.Enter? || a.Resume? || a.HandBack?) && a.t < |s.threads| && (a.HandBack? ==> s.threads[a.t].Working?)
  {
    a.t == 0 && !s.stop && Arrive(s, a).queue == [] && Arrive(s, a).nTodo == 0
  }

  /**
   When Wait returns, every check added since the last verdict has been handed back exactly
   once, and the verdict is true exactly when all of them pass; a true verdict means that
   each was evaluated exactly once.
   */
  lemma {:induction false} WaitVerdict(s: State, a: Action, verdict: Verdicts)
    requires Inv(s, verdict) && Enabled(s, a) && (a.Enter? || a.Resume? || a.HandBack?) && Returns(s, a)
    ensures Arrive(s, a).allOk <==> AllPass(s.added, verdict)
    ensures Arrive(s, a).finished == multiset(s.added)
    ensures Arrive(s, a).allOk ==> s.evaluated == multiset(s.added)
    ensures s.evaluated <= multiset(s.added)
  {
    ArriveKeeps(s, a, verdict);
    AllDone(Arrive(s, a), verdict);
  }

  /** Every time a check was added, it has been finished. */
  lemma {:induction false} NothingLeft(m: State, c: Check, verdict: Verdicts)
    requires Inv(m, verdict) && m.nTodo == 0
    ensures m.finished[c] == multiset(m.added)[c] && m.evaluated[c] <= multiset(m.added)[c]
    ensures NoneWorking(m.threads, |m.threads|) && (Untroubled(m) ==> m.evaluated[c] == multiset(m.added)[c])
  {
    assert Counted(m, Sum(m.threads, c), c);
    NothingInFlight(m.threads, c, |m.threads|);
  }

  lemma {:induction false} AllDone(m: State, verdict: Verdicts)
    requires Inv(m, verdict) && m.nTodo == 0
    ensures m.finished == multiset(m.added) && m.evaluated <= multiset(m.added)
    ensures m.allOk <==> AllPass(m.added, verdict)
    ensures m.allOk ==> m.evaluated == multiset(m.added)
  {
    NothingLeft(m, Check(0), verdict);
    forall c ensures m.finished[c] == multiset(m.added)[c] && m.evaluated[c] <= multiset(m.added)[c]
                     && (Untroubled(m) ==> m.evaluated[c] == multiset(m.added)[c])
    {
      NothingLeft(m, c, verdict);
    }
    assert forall c :: c in m.added <==> c in multiset(m.added);
  }

  // ---------------------------------------------------------------- progress

  lemma {:induction false} SomeoneWorks(ths: seq<Thread>, c: Check, n: nat) returns (t: nat)
    requires n <= |ths| && SumTo(ths, Share(c), n).flight > 0
    ensures t < n && ths[t].Working?
  {
    if TallyOf(ths[n - 1], c).flight > 0 {
      t := n - 1;
    } else {
      t := SomeoneWorks(ths, c, n - 1);
    }
  }

  /** While the master sleeps, some worker holds a batch it will hand back. */
  lemma {:induction false} SleepingMasterIsAwaited(s: State, verdict: Verdicts) returns (t: nat)
    requires Inv(s, verdict) && s.threads[0].Asleep?
    ensures 0 < t < |s.threads| && s.threads[t].Working? && s.nTodo > 0
  {
    assert Counted(s, Sum(s.threads, Check(0)), Check(0));
    t := SomeoneWorks(s.threads, Check(0), |s.threads|);
  }

  /** Steps that need no idle worker: the master's own and those of threads with a batch. */
  predicate Busy(a: Action) {
    a.Evaluate? || a.HandBack? || ((a.Enter? || a.Resume?) && a.t == 0)
  }

  /** Until Wait returns, such a step is always possible; with no workers the master has it. */
  lemma {:induction false} BusyStepExists(s: State, verdict: Verdicts) returns (a: Action)
    requires Inv(s, verdict) && !s.threads[0].Outside?
    ensures Enabled(s, a) && Busy(a)
    ensures |s.threads| == 1 ==> a.t == 0
  {
    match s.threads[0]
    case Starting => a := Enter(0);
    case Woken => a := Resume(0);
    case Working(batch, next, _) =>
      assert ThreadOk(s.threads[0], s.added, verdict);
      a := if next < |batch| then Evaluate(0) else HandBack(0);
    case Asleep =>
      var t := SleepingMasterIsAwaited(s, verdict);
      assert ThreadOk(s.threads[t], s.added, verdict);
      a := if s.threads[t].next < |s.threads[t].batch| then Evaluate(t) else HandBack(t);
  }

  /** The work a round still has in it. */
  ghost function Rank(s: State): nat {
    4 * |s.queue| + Sum(s.threads, Check(0)).weight
  }

  lemma {:induction false} ArriveRank(s: State, a: Action)
    requires Enabled(s, a) && (a.Enter? || a.Resume? || a.HandBack?)
    ensures Rank(Arrive(s, a)) <= Rank(s)
  {
    match a
    case Enter(_) =>
    case Resume(t) => SumUpdate(s.threads, t, Starting, Check(0));
    case HandBack(t) =>
      var ths := NotifyMaster(s.threads, t, s.nTodo - |s.threads[t].batch|);
      SumUpdate(s.threads, 0, Woken, Check(0));
      SumUpdate(ths, t, Starting, Check(0));
  }

  lemma {:induction false} LoopHeadRank(s: State, t: nat, nBatchSize: nat)
    requires t < |s.threads| && s.threads[t].Starting? && s.nTotal >= 0 && s.nIdle >= 0
    ensures Rank(LoopHead(s, t, nBatchSize)) < Rank(s)
  {
    SumUpdate(s.threads, t, LoopHead(s, t, nBatchSize).threads[t], Check(0));
  }

  /** Every step of a thread in Loop uses up work; only a wakeup gives a little back. */
  lemma {:induction false} RankDrops(s: State, a: Action, nBatchSize: nat, verdict: Verdicts)
    requires Inv(s, verdict) && Enabled(s, a) && s.nTotal >= 0 && s.nIdle >= 0 && (a.Resume? ==> s.nIdle > 0)
    requires a.Enter? || a.Resume? || a.HandBack? || a.Evaluate? || a.Wake?
    ensures if a.Wake? then Rank(Next(s, a, nBatchSize, verdict)) == Rank(s) + 1
            else Rank(Next(s, a, nBatchSize, verdict)) < Rank(s)
  {
    if a.Wake? {
      SumUpdate(s.threads, a.t, Woken, Check(0));
    } else if a.Evaluate? {
      SumUpdate(s.threads, a.t, Examine(s, a.t, verdict).threads[a.t], Check(0));
    } else {
      ArriveRank(s, a);
      ArriveKeeps(s, a, verdict);
      HeadKeeps(Arrive(s, a), a.t, nBatchSize, verdict);
      LoopHeadRank(Arrive(s, a), a.t, nBatchSize);
    }
  }

  /** The step with which Wait returns begins a new round. */
  lemma {:induction false} ReturnClears(s: State, a: Action, nBatchSize: nat, verdict: Verdicts)
    requires Inv(s, verdict) && !s.threads[0].Outside? && Enabled(s, a) && Busy(a)
    requires s.nTotal >= 0 && s.nIdle >= 0 && (a.Resume? ==> s.nIdle > 0)
    ensures Next(s, a, nBatchSize, verdict).threads[0].Outside? ==> Next(s, a, nBatchSize, verdict).added == []
  {
  }

  /**
   From every state of a round there is a way to Wait's return on which no idle worker takes
   part: the busy threads alone finish it, within a number of steps fixed by the work left.
   */
  lemma {:induction false} RoundCompletes(s: State, nBatchSize: nat, verdict: Verdicts)
    returns (run: seq<Action>, r: State)
    requires Inv(s, verdict) && !s.threads[0].Outside?
    ensures IsRun(s, run, r, nBatchSize, verdict) && |r.threads| > 0 && r.threads[0].Outside? && r.added == []
    ensures forall i :: 0 <= i < |run| ==> Busy(run[i])
    ensures |run| <= Rank(s)
    decreases Rank(s)
  {
    var a := BusyStepExists(s, verdict);
    StepKeeps(s, a, nBatchSize, verdict);
    RankDrops(s, a, nBatchSize, verdict);
    var n := Next(s, a, nBatchSize, verdict);
    if n.threads[0].Outside? {
      ReturnClears(s, a, nBatchSize, verdict);
      run, r := [a], n;
      assert IsRun(n, run[1..], r, nBatchSize, verdict);
    } else {
      run, r := RoundCompletes(n, nBatchSize, verdict);
      assert ([a] + run)[1..] == run;
      run := [a] + run;
    }
  }

  function Wakes(run: seq<Action>): nat {
    if run == [] then 0 else (if run[0].Wake? then 1 else 0) + Wakes(run[1..])
  }

  /** And no interleaving can keep a round going: its length is bounded by the work and the wakeups. */
  lemma {:induction false} RoundIsBounded(s: State, run: seq<Action>, r: State, nBatchSize: nat, verdict: Verdicts)
    requires Inv(s, verdict) && IsRun(s, run, r, nBatchSize, verdict)
    requires forall i :: 0 <= i < |run| ==>
               run[i].Enter? || run[i].Resume? || run[i].HandBack? || run[i].Evaluate? || run[i].Wake?
    ensures |run| + Rank(r) <= Rank(s) + 2 * Wakes(run)
    decreases |run|
  {
    if run != [] {
      StepKeeps(s, run[0], nBatchSize, verdict);
      RankDrops(s, run[0], nBatchSize, verdict);
      RoundIsBounded(Next(s, run[0], nBatchSize, verdict), run[1..], r, nBatchSize, verdict);
    }
  }
}
