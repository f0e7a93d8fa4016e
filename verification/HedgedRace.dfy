/**
 The hedged request race of nodeclient.go as a step system: one select loop, one worker per launched
 candidate, a reply channel with room for every candidate, a hedge timer and the request deadline.
 Candidates are named by their position in the peer list. A label that is not enabled leaves the state
 alone, so every label sequence is a run and the theorems below range over all of them.
 */
module HedgedRace {
  import opened Seqs

  // Milliseconds.
  const HEDGE_DELAY: nat := 2000

  /** The deadline of a request, and how long after it a timer tick may still fall due and be taken: select
      may pick a ready tick although the context has ended. Any lag is allowed. */
  datatype Budget = Budget(deadline: nat, lag: nat)

  function LastTick(budget: Budget): nat {
    budget.deadline + budget.lag
  }

  datatype Attempt = Bytes(bt: string) | Failure(err: string)
  datatype Reply = Reply(peer: nat, result: Attempt)

  datatype Outcome =
    | Waiting
    | Won(peer: nat, bt: string)
    | TimedOut
    | AllFailed(err: string)

  datatype Label =
    | Finish(peer: nat, result: Attempt) // a worker's attempt ends: it sends on the channel
    | Receive                            // the loop takes a reply
    | Hedge                              // the loop takes the timer tick
    | Deadline                           // the loop sees the context expire
    | Pass(ms: nat)                      // time passes

  /** next, inFlight and lastErr are the loop's variables. replies holds every reply sent so far, in order;
      the first taken of them have been received, so the channel holds the rest. failures, hedges and
      handled are history. */
  datatype Race = Race(
    next: nat,
    inFlight: int,
    lastErr: Option<string>,
    replies: seq<Reply>,
    taken: nat,
    failures: nat,
    hedges: nat,
    handled: nat,
    clock: nat,
    hedgeAt: nat,
    outcome: Outcome)

  const NO_REACHABLE := "no reachable member nodes"

  ghost predicate HasReplied(s: Race, i: nat) {
    exists k :: 0 <= k < |s.replies| && s.replies[k].peer == i
  }

  /** A launched worker that has not sent its reply. */
  ghost predicate Running(s: Race, i: nat) {
    i < s.next && !HasReplied(s, i)
  }

  function LaunchNext(n: nat, s: Race): Race {
    if s.next < n then s.(next := s.next + 1, inFlight := s.inFlight + 1) else s
  }

  /** The loop's exit test. */
  function ExitIfIdle(s: Race): Race {
    if s.inFlight > 0 then s
    else s.(outcome := AllFailed(if s.lastErr.Some? then s.lastErr.value else NO_REACHABLE))
  }

  function Start(n: nat): Race {
    ExitIfIdle(LaunchNext(n, Race(0, 0, None, [], 0, 0, 0, 0, 0, HEDGE_DELAY, Waiting)))
  }

  /** A send needs room on the channel. Of the ready select cases any may be taken. */
  ghost predicate Enabled(n: nat, budget: Budget, s: Race, l: Label) {
    match l
    case Finish(i, _) => Running(s, i) && |s.replies| - s.taken < n
    case Receive => s.outcome.Waiting? && s.taken < |s.replies|
    case Hedge => s.outcome.Waiting? && s.hedgeAt <= s.clock && s.hedgeAt <= LastTick(budget)
    case Deadline => s.outcome.Waiting? && budget.deadline <= s.clock
    case Pass(_) => true
  }

  /** The loop has taken reply r off the channel. */
  function Received(n: nat, s: Race, r: Reply): Race {
    var t := s.(taken := s.taken + 1, inFlight := s.inFlight - 1, handled := s.handled + 1);
    match r.result
    case Bytes(bt) => t.(outcome := Won(r.peer, bt))
    case Failure(e) => ExitIfIdle(LaunchNext(n, t.(lastErr := Some(e), failures := t.failures + 1)))
  }

  function Hedged(n: nat, s: Race): Race {
    LaunchNext(n, s.(hedges := s.hedges + 1, handled := s.handled + 1, hedgeAt := s.clock + HEDGE_DELAY))
  }

  ghost function Step(n: nat, budget: Budget, s: Race, l: Label): Race {
    if !Enabled(n, budget, s, l) then s else
      match l
      case Finish(i, r) => s.(replies := s.replies + [Reply(i, r)])
      case Receive => Received(n, s, s.replies[s.taken])
      case Hedge => Hedged(n, s)
      case Deadline => s.(outcome := TimedOut, handled := s.handled + 1)
      case Pass(ms) => s.(clock := s.clock + ms)
  }

  ghost function Exec(n: nat, budget: Budget, run: seq<Label>): Race {
    if run == [] then Start(n)
    else Step(n, budget, Exec(n, budget, run[..|run| - 1]), run[|run| - 1])
  }

  lemma ExecSnoc(n: nat, budget: Budget, run: seq<Label>, l: Label)
    ensures Exec(n, budget, run + [l]) == Step(n, budget, Exec(n, budget, run), l)
  {
    assert (run + [l])[..|run|] == run;
  }

  // ---- Invariants of every run ----

  /** Replies come from distinct launched candidates, and all but a winning one were failures. */
  ghost predicate Answers(s: Race) {
    && s.taken <= |s.replies|
    && (forall k :: 0 <= k < |s.replies| ==> s.replies[k].peer < s.next)
    && (forall j, k :: 0 <= j < k < |s.replies| ==> s.replies[j].peer != s.replies[k].peer)
    && (forall k :: 0 <= k < s.failures && k < |s.replies| ==> s.replies[k].result.Failure?)
    && s.taken == s.failures + (if s.outcome.Won? then 1 else 0)
    && (s.failures > 0 ==> s.lastErr == Some(s.replies[s.failures - 1].result.err))
    && (s.failures == 0 ==> s.lastErr.None?)
  }

  ghost predicate Counted(n: nat, budget: Budget, s: Race) {
    && s.next == Min(n, 1 + s.failures + s.hedges)
    && s.inFlight == s.next - s.taken
    && s.handled == s.taken + s.hedges + (if s.outcome.TimedOut? then 1 else 0)
    && (s.outcome.TimedOut? ==> budget.deadline <= s.clock)
    && 2000 * (s.hedges + 1) <= s.hedgeAt
    && (s.hedges > 0 ==> 2000 * s.hedges <= LastTick(budget))
  }

  ghost predicate Decided(n: nat, s: Race) {
    match s.outcome
    case Waiting => s.inFlight > 0
    case TimedOut => s.inFlight > 0
    case Won(i, bt) => 0 < s.taken <= |s.replies| && s.replies[s.taken - 1] == Reply(i, Bytes(bt))
    case AllFailed(e) =>
      s.next == n == s.failures && e == (if s.lastErr.Some? then s.lastErr.value else NO_REACHABLE)
  }

  ghost predicate Inv(n: nat, budget: Budget, s: Race) {
    Answers(s) && Counted(n, budget, s) && Decided(n, s)
  }

  lemma SendKeepsInv(n: nat, budget: Budget, s: Race, i: nat, r: Attempt)
    requires Inv(n, budget, s) && Running(s, i)
    ensures Inv(n, budget, s.(replies := s.replies + [Reply(i, r)]))
  {
    var t := s.(replies := s.replies + [Reply(i, r)]);
    assert forall k :: 0 <= k < |s.replies| ==> t.replies[k] == s.replies[k];
  }

  lemma ReceiveKeepsInv(n: nat, budget: Budget, s: Race)
    requires Inv(n, budget, s) && s.outcome.Waiting? && s.taken < |s.replies|
    ensures Inv(n, budget, Received(n, s, s.replies[s.taken]))
  {
    ReceiveKeepsAnswers(n, budget, s);
    ReceiveKeepsCounts(n, budget, s);
  }

  lemma ReceiveKeepsAnswers(n: nat, budget: Budget, s: Race)
    requires Inv(n, budget, s) && s.outcome.Waiting? && s.taken < |s.replies|
    ensures Answers(Received(n, s, s.replies[s.taken]))
  {
    var t := Received(n, s, s.replies[s.taken]);
    assert t.replies == s.replies && t.taken == s.taken + 1;
  }

  lemma ReceiveKeepsCounts(n: nat, budget: Budget, s: Race)
    requires Inv(n, budget, s) && s.outcome.Waiting? && s.taken < |s.replies|
    ensures var t := Received(n, s, s.replies[s.taken]); Counted(n, budget, t) && Decided(n, t)
  {
  }

  lemma HedgeKeepsInv(n: nat, budget: Budget, s: Race)
    requires Inv(n, budget, s) && Enabled(n, budget, s, Hedge)
    ensures Inv(n, budget, Hedged(n, s))
  {
    var t := Hedged(n, s);
    assert t.replies == s.replies && t.taken == s.taken;
    assert Answers(t);
  }

  lemma StepKeepsInv(n: nat, budget: Budget, s: Race, l: Label)
    requires Inv(n, budget, s)
    ensures Inv(n, budget, Step(n, budget, s, l))
  {
    match l {
      case Finish(i, r) => SendStep(n, budget, s, i, r);
      case Receive => LoopStep(n, budget, s, l);
      case Hedge => LoopStep(n, budget, s, l);
      case Deadline => DeadlineStep(n, budget, s);
      case Pass(ms) => PassStep(n, budget, s, ms);
    }
  }

  lemma SendStep(n: nat, budget: Budget, s: Race, i: nat, r: Attempt)
    requires Inv(n, budget, s)
    ensures Inv(n, budget, Step(n, budget, s, Finish(i, r)))
  {
    if Running(s, i) {
      SendKeepsInv(n, budget, s, i, r);
    }
  }

  lemma LoopStep(n: nat, budget: Budget, s: Race, l: Label)
    requires Inv(n, budget, s) && (l.Receive? || l.Hedge?)
    ensures Inv(n, budget, Step(n, budget, s, l))
  {
    if Enabled(n, budget, s, l) {
      if l.Receive? {
        ReceiveKeepsInv(n, budget, s);
      } else {
        HedgeKeepsInv(n, budget, s);
      }
    }
  }

  lemma DeadlineStep(n: nat, budget: Budget, s: Race)
    requires Inv(n, budget, s)
    ensures Inv(n, budget, Step(n, budget, s, Deadline))
  {
    var t := Step(n, budget, s, Deadline);
    assert t.replies == s.replies && t.taken == s.taken && t.next == s.next && t.failures == s.failures;
    assert Answers(t);
  }

  lemma PassStep(n: nat, budget: Budget, s: Race, ms: nat)
    requires Inv(n, budget, s)
    ensures Inv(n, budget, Step(n, budget, s, Pass(ms)))
  {
    var t := s.(clock := s.clock + ms);
    assert Step(n, budget, s, Pass(ms)) == t;
    assert Answers(t);
  }

  lemma {:induction false} RunInv(n: nat, budget: Budget, run: seq<Label>)
    ensures Inv(n, budget, Exec(n, budget, run))
  {
    if run != [] {
      RunInv(n, budget, run[..|run| - 1]);
      StepKeepsInv(n, budget, Exec(n, budget, run[..|run| - 1]), run[|run| - 1]);
    }
  }

  function Senders(replies: seq<Reply>): (r: seq<nat>)
    ensures |r| == |replies| && forall k :: 0 <= k < |r| ==> r[k] == replies[k].peer
  {
    seq(|replies|, k requires 0 <= k < |replies| => replies[k].peer)
  }

  lemma RepliesFit(n: nat, budget: Budget, s: Race)
    requires Inv(n, budget, s)
    ensures |s.replies| <= s.next
  {
    var all := AllBelow(s.next);
    NoDupFits(Senders(s.replies), all);
  }

  /** Distinct candidates, one of them missing, are fewer than all. */
  lemma MissingMeansFewer(n: nat, budget: Budget, s: Race, i: nat)
    requires Inv(n, budget, s) && Running(s, i)
    ensures |s.replies| < s.next
  {
    var all := AllBelow(s.next);
    assert i !in Senders(s.replies);
    NoDupFits(Senders(s.replies), all - {i});
  }

  // ---- What every run guarantees ----

  /** In every reachable state: candidates are launched in list order, inFlight counts the launched but
      unanswered ones, and while candidates remain exactly one attempt more than the hedges fired is in
      flight. */
  lemma {:induction false} LaunchesInClosedForm(n: nat, budget: Budget, run: seq<Label>)
    ensures var s := Exec(n, budget, run);
            && s.next == Min(n, 1 + s.failures + s.hedges)
            && s.inFlight == s.next - s.taken
            && (s.inFlight == 0 && !s.outcome.Won? ==> s.next == n)
            && (s.outcome.Waiting? && s.next < n ==> s.inFlight == 1 + s.hedges)
  {
    RunInv(n, budget, run);
  }

  /** A finishing worker always finds room on the channel, also after the loop has returned. */
  lemma WorkersNeverBlock(n: nat, budget: Budget, run: seq<Label>, i: nat, r: Attempt)
    requires Running(Exec(n, budget, run), i)
    ensures Enabled(n, budget, Exec(n, budget, run), Finish(i, r))
  {
    RunInv(n, budget, run);
    MissingMeansFewer(n, budget, Exec(n, budget, run), i);
  }

  /** The context's error is returned only once the deadline has passed, with attempts still in flight. */
  lemma TimesOutAtDeadline(n: nat, budget: Budget, run: seq<Label>)
    requires Exec(n, budget, run).outcome.TimedOut?
    ensures var s := Exec(n, budget, run); budget.deadline <= s.clock && s.inFlight > 0
  {
    RunInv(n, budget, run);
  }

  /** The bytes returned are the reply a launched candidate sent. */
  lemma WinnerAnswered(n: nat, budget: Budget, run: seq<Label>)
    requires Exec(n, budget, run).outcome.Won?
    ensures var s := Exec(n, budget, run);
            s.outcome.peer < s.next <= n && Reply(s.outcome.peer, Bytes(s.outcome.bt)) in s.replies
  {
    RunInv(n, budget, run);
  }

  /** The final error means that every candidate answered with an error, and it carries one of theirs. */
  lemma FinalErrorMeansAllFailed(n: nat, budget: Budget, run: seq<Label>)
    requires Exec(n, budget, run).outcome.AllFailed?
    ensures var s := Exec(n, budget, run);
            && (forall i: nat :: i < n ==> HasReplied(s, i))
            && (forall r :: r in s.replies ==> r.result.Failure?)
            && (if n == 0 then s.outcome.err == NO_REACHABLE
                else exists r :: r in s.replies && r.result == Failure(s.outcome.err))
  {
    RunInv(n, budget, run);
    var s := Exec(n, budget, run);
    RepliesFit(n, budget, s);
    forall i: nat | i < n ensures HasReplied(s, i) {
      if !HasReplied(s, i) {
        MissingMeansFewer(n, budget, s, i);
      }
    }
    if n > 0 {
      assert s.replies[n - 1] in s.replies;
    }
  }

  /** One attempt more than the hedges fired is in flight at most, one hedge per two seconds fires until the last
      tick, and the loop handles every reply and hedge at most once. Within the request timeout, and unless a
      tick is taken a second or more after it, these are 12 hedges, 13 attempts and n + 12 events. */
  lemma BoundedEffort(n: nat, budget: Budget, run: seq<Label>)
    ensures var s := Exec(n, budget, run);
            && 2000 * s.hedges <= budget.deadline + budget.lag
            && s.inFlight <= 1 + s.hedges
            && s.handled <= n + s.hedges + (if s.outcome.TimedOut? then 1 else 0)
    ensures budget.deadline <= 25000 && budget.lag < 1000 ==>
              var s := Exec(n, budget, run);
              s.hedges <= 12 && s.inFlight <= 13 && s.handled <= n + 12
  {
    RunInv(n, budget, run);
    RepliesFit(n, budget, Exec(n, budget, run));
  }

  /** A run in which nobody answers and k hedges fire, each when it is due. */
  function Ticking(k: nat): seq<Label> {
    if k == 0 then [] else Ticking(k - 1) + [Pass(HEDGE_DELAY), Hedge]
  }

  lemma {:induction false} TickingHedges(n: nat, budget: Budget, k: nat)
    requires n > 0 && HEDGE_DELAY * k <= LastTick(budget)
    ensures var s := Exec(n, budget, Ticking(k));
            s.outcome.Waiting? && s.hedges == k && s.clock == HEDGE_DELAY * k && s.hedgeAt == HEDGE_DELAY * (k + 1)
  {
    if k > 0 {
      TickingHedges(n, budget, k - 1);
      var before := Ticking(k - 1);
      ExecSnoc(n, budget, before, Pass(HEDGE_DELAY));
      ExecSnoc(n, budget, before + [Pass(HEDGE_DELAY)], Hedge);
      assert Ticking(k) == before + [Pass(HEDGE_DELAY)] + [Hedge];
    }
  }

  /** The bound on the hedges is exact: some run fires k exactly when the kth tick falls due by the last tick. */
  lemma HedgesIff(n: nat, budget: Budget, k: nat)
    requires n > 0
    ensures (exists run :: Exec(n, budget, run).hedges >= k) <==> 2000 * k <= budget.deadline + budget.lag
  {
    if HEDGE_DELAY * k <= LastTick(budget) {
      TickingHedges(n, budget, k);
    }
    forall run | Exec(n, budget, run).hedges >= k ensures HEDGE_DELAY * k <= LastTick(budget) {
      RunInv(n, budget, run);
    }
  }
}
