/**
 The gateway's shared delivery semaphore (publish.go, inbox.go): fan-outs over follower lists wait for
 tokens, Accepts and forwards take one only if it is free, and every delivery gives its token back when it
 ends. Any number of these run at once; a label that is not enabled changes nothing, so every label sequence
 is a run.
 */
module Delivery {
  import opened Seqs

  const MAX_INFLIGHT: nat := 16

  type Actor = string

  /** A token is held by one delivery of a fan-out, to the follower at position i, or by one inbound job. */
  datatype Holder = Fan(fan: nat, i: nat) | Job(id: nat)

  datatype Phase = Listing | Draining | Returned

  /** One deliverToFollowers call: the loop's position, its context, where it is. ended is history. */
  datatype Fanout = Fanout(actors: seq<Actor>, pos: nat, cancelled: bool, phase: Phase, ended: seq<nat>)

  datatype State = State(tokens: int, holders: set<Holder>, fans: map<nat, Fanout>, jobs: set<nat>, refused: set<nat>)

  datatype Label =
    | Begin(fan: nat, actors: seq<Actor>)
    | Acquire(fan: nat)            // the select sends on the semaphore and a worker starts
    | Cancel(fan: nat)             // the caller's context ends
    | GiveUp(fan: nat)             // the select sees it
    | Finish(fan: nat)             // the list is exhausted
    | Return(fan: nat)             // the wait group is down to zero
    | TryAcquire(job: nat)         // an inbound activity: take a token or answer "busy"
    | End(holder: Holder)          // a delivery ends, however it went

  function Init(): State {
    State(0, {}, map[], {}, {})
  }

  predicate Waiting(s: State, f: nat) {
    f in s.fans && s.fans[f].phase.Listing? && s.fans[f].pos < |s.fans[f].actors|
  }

  predicate Outstanding(s: State, f: nat) {
    exists h :: h in s.holders && h.Fan? && h.fan == f
  }

  predicate Enabled(s: State, l: Label) {
    match l
    case Begin(f, _) => f !in s.fans
    case Acquire(f) => Waiting(s, f) && s.tokens < MAX_INFLIGHT
    case Cancel(f) => f in s.fans
    case GiveUp(f) => Waiting(s, f) && s.fans[f].cancelled
    case Finish(f) => f in s.fans && s.fans[f].phase.Listing? && s.fans[f].pos == |s.fans[f].actors|
    case Return(f) => f in s.fans && s.fans[f].phase.Draining? && !Outstanding(s, f)
    case TryAcquire(j) => j !in s.jobs
    case End(h) => h in s.holders
  }

  function Step(s: State, l: Label): State {
    if !Enabled(s, l) then s else
      match l
      case Begin(f, actors) => s.(fans := s.fans[f := Fanout(actors, 0, false, Listing, [])])
      case Acquire(f) =>
        var fo := s.fans[f];
        s.(tokens := s.tokens + 1, holders := s.holders + {Fan(f, fo.pos)}, fans := s.fans[f := fo.(pos := fo.pos + 1)])
      case Cancel(f) => s.(fans := s.fans[f := s.fans[f].(cancelled := true)])
      case GiveUp(f) => s.(fans := s.fans[f := s.fans[f].(phase := Draining)])
      case Finish(f) => s.(fans := s.fans[f := s.fans[f].(phase := Draining)])
      case Return(f) => s.(fans := s.fans[f := s.fans[f].(phase := Returned)])
      case TryAcquire(j) =>
        if s.tokens < MAX_INFLIGHT then
          s.(tokens := s.tokens + 1, holders := s.holders + {Job(j)}, jobs := s.jobs + {j})
        else s.(jobs := s.jobs + {j}, refused := s.refused + {j})
      case End(h) =>
        var t := s.(tokens := s.tokens - 1, holders := s.holders - {h});
        if h.Fan? && h.fan in s.fans then
          t.(fans := s.fans[h.fan := s.fans[h.fan].(ended := s.fans[h.fan].ended + [h.i])])
        else t
  }

  function Exec(run: seq<Label>): State {
    if run == [] then Init() else Step(Exec(run[..|run| - 1]), run[|run| - 1])
  }

  // ---- Invariants of every run ----

  /** The deliveries of fan-out f are the followers before its position: each is either under way or over,
      and over once. */
  ghost predicate Delivered(s: State, f: nat)
    requires f in s.fans
  {
    var fo := s.fans[f];
    && fo.pos <= |fo.actors|
    && NoDup(fo.ended)
    && (forall i :: i in fo.ended ==> i < fo.pos && Fan(f, i) !in s.holders)
    && (forall i: nat :: Fan(f, i) in s.holders ==> i < fo.pos)
    && (forall i: nat :: i < fo.pos ==> Fan(f, i) in s.holders || i in fo.ended)
    && (fo.phase.Draining? || fo.phase.Returned? ==> fo.pos == |fo.actors| || fo.cancelled)
    && (fo.phase.Returned? ==> forall i: nat :: Fan(f, i) !in s.holders)
  }

  ghost predicate Inv(s: State) {
    && s.tokens == |s.holders| <= MAX_INFLIGHT
    && s.refused <= s.jobs
    && (forall h :: h in s.holders ==> if h.Fan? then h.fan in s.fans else h.id in s.jobs && h.id !in s.refused)
    && (forall f :: f in s.fans ==> Delivered(s, f))
  }

  lemma AcquireKeepsInv(s: State, f: nat)
    requires Inv(s) && Enabled(s, Acquire(f))
    ensures Inv(Step(s, Acquire(f)))
  {
    var t := Step(s, Acquire(f));
    assert Delivered(s, f);
    assert Fan(f, s.fans[f].pos) !in s.holders;
    forall g | g in t.fans ensures Delivered(t, g) {
      assert Delivered(s, g);
    }
  }

  lemma EndKeepsInv(s: State, h: Holder)
    requires Inv(s) && h in s.holders
    ensures Inv(Step(s, End(h)))
  {
    var t := Step(s, End(h));
    forall g | g in t.fans ensures Delivered(t, g) {
      assert Delivered(s, g);
    }
  }

  lemma OtherKeepsInv(s: State, l: Label)
    requires Inv(s) && Enabled(s, l) && !l.Acquire? && !l.End?
    ensures Inv(Step(s, l))
  {
    var t := Step(s, l);
    forall g | g in t.fans ensures Delivered(t, g) {
      if g in s.fans {
        assert Delivered(s, g);
        if l == Return(g) {
          assert !Outstanding(s, g);
        }
      } else {
        assert forall i: nat :: Fan(g, i) !in s.holders;
      }
    }
  }

  lemma {:induction false} RunInv(run: seq<Label>)
    ensures Inv(Exec(run))
  {
    if run != [] {
      var s, l := Exec(run[..|run| - 1]), run[|run| - 1];
      RunInv(run[..|run| - 1]);
      if Enabled(s, l) {
        match l
        case Acquire(f) => AcquireKeepsInv(s, f);
        case End(h) => EndKeepsInv(s, h);
        case _ => OtherKeepsInv(s, l);
      }
    }
  }

  // ---- What every run guarantees ----

  /** Tokens held are deliveries running, never more than the capacity. */
  lemma TokensAreDeliveries(run: seq<Label>)
    ensures var s := Exec(run); s.tokens == |s.holders| && 0 <= s.tokens <= 16
  {
    RunInv(run);
  }

  /** A fan-out that waits is never stuck: it can take a token, or the end of any delivery lets it. */
  lemma NoDeadlock(run: seq<Label>, f: nat)
    requires Waiting(Exec(run), f)
    ensures var s := Exec(run);
            Enabled(s, Acquire(f)) ||
              (s.holders != {} && forall h :: h in s.holders ==> Enabled(Step(s, End(h)), Acquire(f)))
  {
    RunInv(run);
    var s := Exec(run);
    if s.tokens == MAX_INFLIGHT {
      assert s.holders != {};
    }
  }

  /** An inbound job is refused only while all tokens are out, and a refused one never runs. */
  lemma RefusedOnlyWhenFull(run: seq<Label>, j: nat)
    ensures var s := Exec(run); j !in s.jobs ==>
              (j in Step(s, TryAcquire(j)).refused <==> |s.holders| == 16)
    ensures var s := Exec(run); j in s.refused ==> Job(j) !in s.holders
  {
    RunInv(run);
  }

  /** A returned fan-out has attempted each listed follower exactly once, or, when cancelled, exactly those
      of a prefix of the list, and none of its deliveries is still running. */
  lemma FanoutIsComplete(run: seq<Label>, f: nat)
    requires f in Exec(run).fans && Exec(run).fans[f].phase.Returned?
    ensures var s := Exec(run); var fo := s.fans[f];
            && !Outstanding(s, f)
            && fo.pos <= |fo.actors| && (fo.pos == |fo.actors| || fo.cancelled)
            && |fo.ended| == fo.pos && NoDup(fo.ended)
            && (forall i: nat :: i < fo.pos <==> i in fo.ended)
  {
    RunInv(run);
    var s := Exec(run);
    var fo := s.fans[f];
    assert Delivered(s, f);
    var all := AllBelow(fo.pos);
    NoDupFits(fo.ended, all);
    NoDupCard(fo.ended);
    SubsetCard(all, Elems(fo.ended));
  }

  // ---- Whatever has happened, everything can still end ----

  /** Steps of the goroutines already there: none starts, fails or is cancelled. */
  predicate OnGoing(l: Label) {
    l.Acquire? || l.Finish? || l.Return? || l.End?
  }

  function Open(s: State): set<nat> {
    set f | f in s.fans && !s.fans[f].phase.Returned?
  }

  function Rank(p: Phase): nat {
    match p
    case Listing => 2
    case Draining => 1
    case Returned => 0
  }

  /** A state some ongoing steps later: nobody is newly open. */
  ghost predicate Later(s: State, t: State) {
    s.fans.Keys == t.fans.Keys && Open(t) <= Open(s)
  }

  lemma OnGoingStep(s: State, l: Label)
    requires OnGoing(l)
    ensures Later(s, Step(s, l))
  {
  }

  lemma EndOne(s: State, h: Holder)
    requires h in s.holders
    ensures |Step(s, End(h)).holders| < |s.holders|
    ensures forall f :: f in s.fans ==>
              var t := Step(s, End(h)).fans;
              f in t && t[f].phase == s.fans[f].phase && t[f].pos == s.fans[f].pos && t[f].actors == s.fans[f].actors
  {
    assert Step(s, End(h)).holders == s.holders - {h};
  }

  lemma AppendStep(run: seq<Label>, l: Label, rest: seq<Label>)
    ensures Exec(run + [l]) == Step(Exec(run), l) && run + ([l] + rest) == run + [l] + rest
  {
    assert (run + [l])[..|run|] == run;
  }

  /** The next ongoing step towards the end of fan-out f. */
  function NextFor(s: State, f: nat): Label
    requires f in s.fans
  {
    match s.fans[f].phase
    case Draining => Return(f)
    case _ => if s.fans[f].pos < |s.fans[f].actors| then Acquire(f) else Finish(f)
  }

  lemma NextForMoves(s: State, f: nat)
    requires Inv(s) && f in s.fans && !s.fans[f].phase.Returned? && s.holders == {}
    ensures var t := Step(s, NextFor(s, f));
            && OnGoing(NextFor(s, f)) && f in t.fans && t.fans[f].pos <= |t.fans[f].actors|
            && (Rank(t.fans[f].phase) < Rank(s.fans[f].phase)
                || (t.fans[f].phase == s.fans[f].phase
                    && |t.fans[f].actors| - t.fans[f].pos < |s.fans[f].actors| - s.fans[f].pos))
  {
    assert Delivered(s, f);
    assert !Outstanding(s, f);
  }

  lemma DrainFan(run: seq<Label>, f: nat) returns (more: seq<Label>)
    requires f in Exec(run).fans && Exec(run).fans[f].pos <= |Exec(run).fans[f].actors|
    ensures (forall l :: l in more ==> OnGoing(l)) && Later(Exec(run), Exec(run + more))
    ensures var t := Exec(run + more); t.fans[f].phase.Returned? && t.holders == {}
    decreases Rank(Exec(run).fans[f].phase), |Exec(run).fans[f].actors| - Exec(run).fans[f].pos, |Exec(run).holders|
  {
    var s := Exec(run);
    RunInv(run);
    if s.holders == {} && s.fans[f].phase.Returned? {
      more := [];
      assert run + more == run;
    } else {
      var l;
      if s.holders != {} {
        var h :| h in s.holders;
        EndOne(s, h);
        l := End(h);
      } else {
        NextForMoves(s, f);
        l := NextFor(s, f);
      }
      AppendStep(run, l, []);
      OnGoingStep(s, l);
      var rest := DrainFan(run + [l], f);
      AppendStep(run, l, rest);
      more := [l] + rest;
    }
  }

  lemma DrainHolders(run: seq<Label>) returns (more: seq<Label>)
    ensures (forall l :: l in more ==> OnGoing(l)) && Later(Exec(run), Exec(run + more))
    ensures Exec(run + more).holders == {}
    decreases |Exec(run).holders|
  {
    var s := Exec(run);
    if s.holders == {} {
      more := [];
      assert run + more == run;
    } else {
      var h :| h in s.holders;
      EndOne(s, h);
      AppendStep(run, End(h), []);
      OnGoingStep(s, End(h));
      var rest := DrainHolders(run + [End(h)]);
      AppendStep(run, End(h), rest);
      more := [End(h)] + rest;
    }
  }

  lemma CloseOne(run: seq<Label>) returns (more: seq<Label>)
    requires Open(Exec(run)) != {}
    ensures (forall l :: l in more ==> OnGoing(l)) && Later(Exec(run), Exec(run + more))
    ensures |Open(Exec(run + more))| < |Open(Exec(run))|
  {
    var f :| f in Open(Exec(run));
    RunInv(run);
    assert Delivered(Exec(run), f);
    more := DrainFan(run, f);
    FewerOpen(Open(Exec(run + more)), Open(Exec(run)), f);
  }

  /** From every reachable state, with any number of fan-outs waiting and all tokens out, the goroutines there can
      finish without anybody's help: every delivery ends, every fan-out returns, every token is back. */
  lemma EverythingCanEnd(run: seq<Label>) returns (more: seq<Label>)
    ensures forall l :: l in more ==> OnGoing(l)
    ensures var t := Exec(run + more);
            t.fans.Keys == Exec(run).fans.Keys && Open(t) == {} && t.holders == {} && t.tokens == 0
    decreases |Open(Exec(run))|
  {
    if Open(Exec(run)) == {} {
      more := DrainHolders(run);
      RunInv(run + more);
    } else {
      var first := CloseOne(run);
      var rest := EverythingCanEnd(run + first);
      more := first + rest;
      assert run + more == run + first + rest;
    }
  }

  lemma FewerOpen(a: set<nat>, b: set<nat>, f: nat)
    requires a <= b && f in b && f !in a
    ensures |a| < |b|
  {
    SubsetCard(a, b - {f});
  }

  // ---- The fan-out as the code runs it ----

  /** What steps of others leave of fan-out f: its loop's state, and no new deliveries of its own. */
  ghost predicate SameLoop(s: State, t: State, f: nat) {
    && f in s.fans && f in t.fans
    && t.fans[f].actors == s.fans[f].actors && t.fans[f].pos == s.fans[f].pos && t.fans[f].phase == s.fans[f].phase
    && (s.fans[f].cancelled ==> t.fans[f].cancelled)
    && forall i: nat :: Fan(f, i) in t.holders ==> Fan(f, i) in s.holders
  }

  /** Steps that are not those of fan-out f's own loop. */
  predicate Foreign(l: Label, f: nat) {
    match l
    case Acquire(g) => g != f
    case GiveUp(g) => g != f
    case Finish(g) => g != f
    case Return(g) => g != f
    case _ => true
  }

  lemma ForeignKeepsLoop(s: State, l: Label, f: nat)
    requires f in s.fans && Foreign(l, f)
    ensures SameLoop(s, Step(s, l), f)
  {
  }

  function Running(s: State, f: nat): set<Holder> {
    set h | h in s.holders && h.Fan? && h.fan == f
  }

  class Gateway {
    var s: State
    ghost var run: seq<Label>

    ghost predicate Valid()
      reads this
    {
      s == Exec(run)
    }

    constructor ()
      ensures Valid() && run == []
    {
      s, run := Init(), [];
    }

    method Do(l: Label)
      requires Valid()
      modifies this
      ensures Valid() && s == Step(old(s), l) && run == old(run) + [l]
    {
      s := Step(s, l);
      run := run + [l];
      assert run[..|run| - 1] == old(run);
    }

    /** Any number of steps of other goroutines, this fan-out's deliveries and its context included. */
    method Others(f: nat)
      requires Valid() && f in s.fans
      modifies this
      ensures Valid() && SameLoop(old(s), s, f)
    {
      var n :| 0 <= n;
      for i := 0 to n
        invariant Valid() && SameLoop(old(s), s, f)
      {
        var l: Label := *;
        if Foreign(l, f) {
          ForeignKeepsLoop(s, l, f);
          Do(l);
        }
      }
    }

    /** The select blocks until a token is free or the context ends; a delivery that ends frees a token. */
    method Await(f: nat)
      requires Valid() && Waiting(s, f)
      modifies this
      ensures Valid() && SameLoop(old(s), s, f) && (s.tokens < MAX_INFLIGHT || s.fans[f].cancelled)
    {
      Others(f);
      if s.tokens >= MAX_INFLIGHT && !s.fans[f].cancelled {
        RunInv(run);
        var h :| h in s.holders;
        ForeignKeepsLoop(s, End(h), f);
        Do(End(h));
      }
    }

    /** Every listed follower is attempted exactly once, or those of a prefix when the context ended, and all
        of these deliveries are over on return. */
    method DeliverToFollowers(f: nat, actors: seq<Actor>)
      requires Valid() && f !in s.fans
      modifies this
      ensures Valid() && f in s.fans && s.fans[f].actors == actors && s.fans[f].phase.Returned? && !Outstanding(s, f)
      ensures var fo := s.fans[f];
              && fo.pos <= |actors| && (fo.pos < |actors| ==> fo.cancelled)
              && NoDup(fo.ended) && forall i: nat :: i in fo.ended <==> i < fo.pos
    {
      Do(Begin(f, actors));
      while s.fans[f].phase.Listing?
        invariant Valid() && f in s.fans && s.fans[f].actors == actors && !s.fans[f].phase.Returned?
        invariant s.fans[f].pos <= |actors|
        decreases |actors| - s.fans[f].pos, s.fans[f].phase.Listing?
      {
        if s.fans[f].pos == |actors| {
          Do(Finish(f));
          break;
        }
        Await(f);
        if
        case s.tokens < MAX_INFLIGHT => Do(Acquire(f));
        case s.fans[f].cancelled => Do(GiveUp(f));
      }
      WaitAll(f);
      Do(Return(f));
      FanoutIsComplete(run, f);
    }

    /** The wait group: done when none of f's deliveries runs. */
    method WaitAll(f: nat)
      requires Valid() && f in s.fans && s.fans[f].phase.Draining?
      modifies this
      ensures Valid() && SameLoop(old(s), s, f) && !Outstanding(s, f)
    {
      while Running(s, f) != {}
        invariant Valid() && SameLoop(old(s), s, f)
        decreases |Running(s, f)|
      {
        ghost var before := s;
        Others(f);
        RunningShrinks(before, s, f);
        if Running(s, f) != {} {
          var h :| h in Running(s, f);
          ghost var mid := s;
          ForeignKeepsLoop(s, End(h), f);
          Do(End(h));
          EndShrinks(mid, h, f);
        }
      }
      assert forall h :: h in s.holders && h.Fan? && h.fan == f ==> h in Running(s, f);
    }
  }

  lemma RunningShrinks(s: State, t: State, f: nat)
    requires SameLoop(s, t, f)
    ensures |Running(t, f)| <= |Running(s, f)|
  {
    assert forall h :: h in Running(t, f) ==> h == Fan(f, h.i) && h in s.holders;
    SubsetCard(Running(t, f), Running(s, f));
  }

  lemma EndShrinks(s: State, h: Holder, f: nat)
    requires h in Running(s, f)
    ensures |Running(Step(s, End(h)), f)| < |Running(s, f)|
  {
    assert Running(Step(s, End(h)), f) == Running(s, f) - {h};
  }
}
