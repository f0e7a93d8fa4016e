/** Federating the owner's own follows by comparing successive reads of the followings (outbound.go). */
module FollowPoller {
  import opened Seqs
  import opened Codecs

  type ActorUrl = string

  datatype Event = Follow(actor: ActorUrl) | Unfollow(actor: ActorUrl)

  /** One listed id and what resolving it yields. */
  datatype Following = Following(id: string, resolved: Option<ActorUrl>)

  /** The Fediverse actors a read of the followings names; what does not resolve is not there. */
  function Current(followings: seq<Following>): set<ActorUrl> {
    set f | f in followings && IsBridgedUserID(f.id) && f.resolved.Some? :: f.resolved.value
  }

  lemma CurrentIs(followings: seq<Following>, a: ActorUrl)
    ensures a in Current(followings) <==>
            exists f :: f in followings && ((|f.id| >= 3 && f.id[..3] == "ap:") || '@' in f.id) && f.resolved == Some(a)
  {
    forall f | f in followings ensures IsBridgedUserID(f.id) <==> (|f.id| >= 3 && f.id[..3] == "ap:") || '@' in f.id {
      BridgedIff(f.id);
    }
  }

  function Apply(actors: set<ActorUrl>, e: Event): set<ActorUrl> {
    match e
    case Follow(a) => actors + {a}
    case Unfollow(a) => actors - {a}
  }

  /** What a remote side that saw the baseline and all events believes. */
  function Replay(told: set<ActorUrl>, log: seq<Event>): set<ActorUrl>
    decreases log
  {
    if log == [] then told else Replay(Apply(told, log[0]), log[1..])
  }

  /** Every follow was of an actor not followed at that point, every unfollow of one that was. */
  predicate Coherent(told: set<ActorUrl>, log: seq<Event>)
    decreases log
  {
    log == [] || ((log[0].Follow? <==> log[0].actor !in told) && Coherent(Apply(told, log[0]), log[1..]))
  }

  lemma {:induction false} ReplayConcat(told: set<ActorUrl>, a: seq<Event>, b: seq<Event>)
    ensures Replay(told, a + b) == Replay(Replay(told, a), b)
    ensures Coherent(told, a + b) <==> Coherent(told, a) && Coherent(Replay(told, a), b)
    decreases a
  {
    if a == [] {
      assert a + b == b;
    } else {
      assert (a + b)[1..] == a[1..] + b;
      ReplayConcat(Apply(told, a[0]), a[1..], b);
    }
  }

  /** Events about others change nothing about an actor. */
  lemma {:induction false} Untouched(told: set<ActorUrl>, log: seq<Event>, a: ActorUrl)
    requires forall e :: e in log ==> e.actor != a
    ensures a in Replay(told, log) <==> a in told
    decreases log
  {
    if log != [] {
      assert log[0] in log;
      Untouched(Apply(told, log[0]), log[1..], a);
    }
  }

  /** After one event of an actor and others' events, the next event of that actor is of the other kind. */
  lemma NextIsOpposite(told: set<ActorUrl>, e: Event, between: seq<Event>, f: Event, rest: seq<Event>)
    requires e.actor == f.actor && forall d :: d in between ==> d.actor != e.actor
    requires Coherent(told, [e] + (between + ([f] + rest)))
    ensures e.Follow? != f.Follow?
  {
    var at, tail := Apply(told, e), [f] + rest;
    assert ([e] + (between + tail))[1..] == between + tail;
    assert Coherent(at, between + tail);
    ReplayConcat(at, between, tail);
    Untouched(at, between, e.actor);
    assert Coherent(Replay(at, between), tail) && tail[0] == f;
  }

  lemma SplitTwice(log: seq<Event>, i: nat, j: nat)
    requires i < j < |log|
    ensures log == log[..i] + ([log[i]] + (log[i + 1..j] + ([log[j]] + log[j + 1..])))
  {
    assert log[j..] == [log[j]] + log[j + 1..];
    assert log[i + 1..] == log[i + 1..j] + log[j..];
    assert log[i..] == [log[i]] + log[i + 1..];
  }

  /** Follows and unfollows of one actor alternate. */
  lemma EventsAlternate(told: set<ActorUrl>, log: seq<Event>, i: nat, j: nat)
    requires Coherent(told, log) && i < j < |log| && log[i].actor == log[j].actor
    requires forall k :: i < k < j ==> log[k].actor != log[i].actor
    ensures log[i].Follow? != log[j].Follow?
  {
    var between, rest := log[i + 1..j], log[j + 1..];
    var suffix := [log[i]] + (between + ([log[j]] + rest));
    SplitTwice(log, i, j);
    ReplayConcat(told, log[..i], suffix);
    NextIsOpposite(Replay(told, log[..i]), log[i], between, log[j], rest);
  }

  /** The events are one for each of the actors, all of one kind. */
  ghost predicate Announces(events: seq<Event>, actors: set<ActorUrl>, follow: bool) {
    && (forall e :: e in events ==> e.Follow? == follow && e.actor in actors)
    && (forall i, j :: 0 <= i < j < |events| ==> events[i].actor != events[j].actor)
    && |events| == |actors|
  }

  function Changed(told: set<ActorUrl>, actors: set<ActorUrl>, follow: bool): set<ActorUrl> {
    if follow then told + actors else told - actors
  }

  /** Following applies to actors not followed so far, unfollowing to followed ones. */
  predicate Due(told: set<ActorUrl>, actors: set<ActorUrl>, follow: bool) {
    if follow then actors !! told else actors <= told
  }

  lemma ChangeOneFirst(told: set<ActorUrl>, actors: set<ActorUrl>, e: Event)
    requires Due(told, actors, e.Follow?) && e.actor in actors
    ensures Due(Apply(told, e), actors - {e.actor}, e.Follow?) && (e.Follow? <==> e.actor !in told)
    ensures Changed(Apply(told, e), actors - {e.actor}, e.Follow?) == Changed(told, actors, e.Follow?)
  {
  }

  lemma {:induction false} AnnouncedReplay(told: set<ActorUrl>, events: seq<Event>, actors: set<ActorUrl>, follow: bool)
    requires Announces(events, actors, follow) && Due(told, actors, follow)
    ensures Coherent(told, events) && Replay(told, events) == Changed(told, actors, follow)
    decreases events
  {
    if events == [] {
      assert actors == {};
    } else {
      var e := events[0];
      WithoutFirst(events, actors, follow);
      ChangeOneFirst(told, actors, e);
      AnnouncedReplay(Apply(told, e), events[1..], actors - {e.actor}, follow);
    }
  }

  lemma WithoutFirst(events: seq<Event>, actors: set<ActorUrl>, follow: bool)
    requires Announces(events, actors, follow) && events != []
    ensures var e := events[0];
            e.Follow? == follow && e.actor in actors && Announces(events[1..], actors - {e.actor}, follow)
  {
    var e, rest := events[0], events[1..];
    assert e in events;
    forall d | d in rest ensures d.Follow? == follow && d.actor in actors - {e.actor} {
      assert d in events;
    }
  }

  /** The events of one poll take what was known to what is current, and the whole log stays coherent. */
  lemma RoundReplay(baseline: set<ActorUrl>, log: seq<Event>, current: set<ActorUrl>, follows: seq<Event>,
                    unfollows: seq<Event>)
    requires Coherent(baseline, log)
    requires Announces(follows, current - Replay(baseline, log), true)
    requires Announces(unfollows, Replay(baseline, log) - current, false)
    ensures Coherent(baseline, log + follows + unfollows) && Replay(baseline, log + follows + unfollows) == current
  {
    var before := Replay(baseline, log);
    ReplayConcat(baseline, log, follows);
    ReplayConcat(baseline, log + follows, unfollows);
    AnnouncedReplay(before, follows, current - before, true);
    AnnouncedReplay(before + (current - before), unfollows, before - current, false);
    assert before + (current - before) - (before - current) == current;
  }

  class FollowPoller {
    var known: Option<set<ActorUrl>>
    var log: seq<Event>
    ghost var baseline: set<ActorUrl>

    /** Replaying the emitted events on the baseline gives exactly the known set. */
    ghost predicate Valid()
      reads this
    {
      if known.None? then log == [] else Coherent(baseline, log) && Replay(baseline, log) == known.value
    }

    constructor ()
      ensures Valid() && known.None?
    {
      known, log, baseline := None, [], {};
    }

    method ReadCurrent(followings: seq<Following>) returns (current: set<ActorUrl>)
      ensures current == Current(followings)
    {
      current := {};
      for i := 0 to |followings|
        invariant current == Current(followings[..i])
      {
        var f := followings[i];
        assert followings[..i + 1] == followings[..i] + [f];
        if IsBridgedUserID(f.id) && f.resolved.Some? {
          current := current + {f.resolved.value};
        }
      }
      assert followings[..|followings|] == followings;
    }

    /** The callbacks for some actors, in the arbitrary order of a map iteration. */
    method Announce(actors: set<ActorUrl>, follow: bool) returns (events: seq<Event>)
      ensures Announces(events, actors, follow)
    {
      events := [];
      var left := actors;
      while left != {}
        invariant left <= actors && Announces(events, actors - left, follow)
        decreases left
      {
        var a :| a in left;
        assert actors - (left - {a}) == actors - left + {a};
        events := events + [if follow then Follow(a) else Unfollow(a)];
        left := left - {a};
      }
    }

    /** One poll; read is None when the request, the node or the decoding failed. follows and unfollows are
        the callbacks it fires. */
    method Poll(read: Option<seq<Following>>) returns (follows: seq<Event>, unfollows: seq<Event>)
      requires Valid()
      modifies this
      ensures Valid() && log == old(log) + follows + unfollows
      ensures old(known).Some? ==> known.Some? && baseline == old(baseline)
      ensures read.None? ==> known == old(known) && follows + unfollows == []
      ensures read.Some? && old(known).None? ==> known == Some(Current(read.value)) && follows + unfollows == []
      ensures read.Some? && old(known).Some? ==>
                var current, before := Current(read.value), old(known).value;
                if current == {} && before != {} then known == old(known) && follows + unfollows == []
                else
                  && known == Some(current) && Announces(follows, current - before, true)
                  && Announces(unfollows, before - current, false)
      ensures old(known).Some? && old(known).value != {} ==> known.value != {}
    {
      follows, unfollows := [], [];
      if read.None? {
        return;
      }
      var current := ReadCurrent(read.value);
      if known.None? {
        known, baseline := Some(current), current;
        return;
      }
      var before := known.value;
      if current == {} && before != {} {
        return;
      }
      follows := Announce(current - before, true);
      unfollows := Announce(before - current, false);
      RoundReplay(baseline, log, current, follows, unfollows);
      log := log + follows + unfollows;
      known := Some(current);
    }
  }
}
