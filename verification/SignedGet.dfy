/**
 Coalesced fetches of server.go: a short-lived cache in front of a single-flight group, with a second cache
 look-up inside the flight. Any number of callers interleave; a label that is not enabled changes nothing,
 so every label sequence is a run.
 */
module SignedGet {
  import opened Seqs

  const CACHE_TTL: nat := 1000 // milliseconds

  type Key = string
  datatype Result = Ok(resp: string) | Err(err: string)
  datatype Cached = Cached(resp: string, expires: int)

  /** A flight is created, may go upstream, and has landed once its function returned. */
  datatype Flight = Rechecking | Fetching | Landed(result: Result, at: int)

  datatype Caller = Queued(key: Key) | Joined(key: Key) | Done(key: Key, result: Result, at: int)

  datatype Event =
    | Started(key: Key, at: int)
    | Fetched(key: Key, at: int, result: Result)
    | Evicted(key: Key)

  /** log is history: upstream fetches begun and ended, entries pushed out of the cache. */
  datatype State = State(now: int, cache: map<Key, Cached>, flights: map<Key, Flight>,
                         callers: map<nat, Caller>, log: seq<Event>)

  datatype Label =
    | Call(caller: nat, key: Key)       // the look-up before the flight
    | Join(caller: nat)                 // enter the single-flight group
    | Recheck(key: Key)                 // the look-up inside the flight
    | Upstream(key: Key, result: Result) // the fetch returns
    | Deliver(key: Key)                 // the flight ends, its callers return
    | Evict(key: Key)                   // the cache is full
    | Expire(key: Key)                  // the cache drops an entry whose time is up
    | Pass(ms: nat)

  function Init(): State {
    State(0, map[], map[], map[], [])
  }

  // The contract of the cache: an entry is served until it expires.
  predicate Hit(s: State, k: Key) {
    k in s.cache && s.now <= s.cache[k].expires
  }

  predicate Enabled(s: State, l: Label) {
    match l
    case Call(c, _) => c !in s.callers
    case Join(c) => c in s.callers && s.callers[c].Queued?
    case Recheck(k) => k in s.flights && s.flights[k].Rechecking?
    case Upstream(k, _) => k in s.flights && s.flights[k].Fetching?
    case Deliver(k) => k in s.flights && s.flights[k].Landed?
    case Evict(k) => k in s.cache
    case Expire(k) => k in s.cache && s.cache[k].expires < s.now
    case Pass(_) => true
  }

  function Step(s: State, l: Label): State {
    if !Enabled(s, l) then s else
      match l
      case Call(c, k) =>
        s.(callers := s.callers[c := if Hit(s, k) then Done(k, Ok(s.cache[k].resp), s.now) else Queued(k)])
      case Join(c) =>
        var k := s.callers[c].key;
        s.(callers := s.callers[c := Joined(k)],
           flights := if k in s.flights then s.flights else s.flights[k := Rechecking])
      case Recheck(k) =>
        if Hit(s, k) then s.(flights := s.flights[k := Landed(Ok(s.cache[k].resp), s.now)])
        else s.(flights := s.flights[k := Fetching], log := s.log + [Started(k, s.now)])
      case Upstream(k, r) =>
        s.(flights := s.flights[k := Landed(r, s.now)], log := s.log + [Fetched(k, s.now, r)],
           cache := if r.Ok? then s.cache[k := Cached(r.resp, s.now + CACHE_TTL)] else s.cache)
      case Deliver(k) =>
        s.(flights := s.flights - {k},
           callers := map c | c in s.callers ::
                        if s.callers[c] != Joined(k) then s.callers[c]
                        else Done(k, s.flights[k].result, s.flights[k].at))
      case Evict(k) => s.(cache := s.cache - {k}, log := s.log + [Evicted(k)])
      case Expire(k) => s.(cache := s.cache - {k})
      case Pass(ms) => s.(now := s.now + ms)
  }

  function Exec(run: seq<Label>): State {
    if run == [] then Init() else Step(Exec(run[..|run| - 1]), run[|run| - 1])
  }

  // ---- The history ----

  predicate IsStart(e: Event, k: Key) { e.Started? && e.key == k }

  predicate IsEnd(e: Event, k: Key) { e.Fetched? && e.key == k }

  /** Upstream fetches of k that have begun but not ended. */
  function Open(log: seq<Event>, k: Key): int {
    if log == [] then 0
    else Open(log[..|log| - 1], k) +
         (if IsStart(log[|log| - 1], k) then 1 else if IsEnd(log[|log| - 1], k) then -1 else 0)
  }

  /** A fetch of k returned r at most a second before the moment at. */
  ghost predicate Answered(log: seq<Event>, k: Key, r: Result, at: int) {
    exists i :: 0 <= i < |log| && log[i].Fetched? && log[i].key == k && log[i].result == r
      && log[i].at <= at <= log[i].at + 1000
  }

  /** A cached response was fetched for k, at most a second before it expires. */
  ghost predicate CachedFrom(log: seq<Event>, k: Key, c: Cached) {
    exists i :: 0 <= i < |log| && log[i].Fetched? && log[i].key == k && log[i].result == Ok(c.resp)
      && c.expires <= log[i].at + 1000
  }

  /** A result of k, fetched at event i, has been pushed out of the cache later. */
  ghost predicate EvictedAfter(log: seq<Event>, i: nat, k: Key) {
    exists j :: i < j < |log| && log[j] == Evicted(k)
  }

  ghost predicate IsSuccess(e: Event, k: Key) {
    e.Fetched? && e.key == k && e.result.Ok?
  }

  /** A fetch starts only when every earlier success of its key is more than the TTL old or was evicted. */
  ghost predicate Spaced(log: seq<Event>) {
    forall i, j :: 0 <= i < j < |log| && log[j].Started? && IsSuccess(log[i], log[j].key) ==>
      log[i].at + CACHE_TTL < log[j].at || exists m :: i < m < j && log[m] == Evicted(log[j].key)
  }

  /** A success younger than the TTL and not evicted is in the cache. */
  ghost predicate Remembered(s: State) {
    forall i :: 0 <= i < |s.log| && s.log[i].Fetched? && s.log[i].result.Ok? ==>
      var e := s.log[i];
      e.at <= s.now &&
      (s.now <= e.at + CACHE_TTL && !EvictedAfter(s.log, i, e.key) ==>
       e.key in s.cache && e.at + CACHE_TTL <= s.cache[e.key].expires)
  }

  /** Everything handed out or kept for a key came from a fetch of that key, and only successes are kept. */
  ghost predicate Sourced(s: State) {
    && (forall i :: 0 <= i < |s.log| && s.log[i].Fetched? ==> s.log[i].at <= s.now)
    && (forall k :: k in s.cache ==> CachedFrom(s.log, k, s.cache[k]))
    && (forall k :: k in s.flights && s.flights[k].Landed? ==> Answered(s.log, k, s.flights[k].result, s.flights[k].at))
    && (forall c :: c in s.callers && s.callers[c].Done? ==>
          Answered(s.log, s.callers[c].key, s.callers[c].result, s.callers[c].at))
  }

  function InFlight(s: State, k: Key): int {
    if k in s.flights && s.flights[k].Fetching? then 1 else 0
  }

  ghost predicate Single(s: State) {
    forall k :: Open(s.log, k) == InFlight(s, k)
  }

  /** Whoever joined is waiting for a flight that exists. */
  ghost predicate Attended(s: State) {
    forall c :: c in s.callers && s.callers[c].Joined? ==> s.callers[c].key in s.flights
  }

  ghost predicate Inv(s: State) {
    Single(s) && Spaced(s.log) && Remembered(s) && Sourced(s) && Attended(s)
  }

  lemma AnsweredGrows(log: seq<Event>, e: Event)
    ensures forall k, r, at :: Answered(log, k, r, at) ==> Answered(log + [e], k, r, at)
    ensures forall k, c :: CachedFrom(log, k, c) ==> CachedFrom(log + [e], k, c)
  {
    assert forall i :: 0 <= i < |log| ==> (log + [e])[i] == log[i];
    forall k, c | CachedFrom(log, k, c) ensures CachedFrom(log + [e], k, c) {
      var i :| 0 <= i < |log| && log[i].Fetched? && log[i].key == k && log[i].result == Ok(c.resp)
               && c.expires <= log[i].at + 1000;
      assert (log + [e])[i] == log[i];
    }
    forall k, r, at | Answered(log, k, r, at) ensures Answered(log + [e], k, r, at) {
      var i :| 0 <= i < |log| && log[i].Fetched? && log[i].key == k && log[i].result == r
               && log[i].at <= at <= log[i].at + 1000;
      assert (log + [e])[i] == log[i];
    }
  }

  /** What a look-up finds was fetched at most a second before. */
  lemma HitIsFresh(s: State, k: Key)
    requires Sourced(s) && Hit(s, k)
    ensures Answered(s.log, k, Ok(s.cache[k].resp), s.now)
  {
  }

  lemma OpenSnoc(log: seq<Event>, e: Event, k: Key)
    ensures Open(log + [e], k) == Open(log, k) + (if IsStart(e, k) then 1 else if IsEnd(e, k) then -1 else 0)
  {
    assert (log + [e])[..|log|] == log;
  }

  lemma SingleKept(s: State, l: Label)
    requires Single(s)
    ensures Single(Step(s, l))
  {
    var t := Step(s, l);
    forall k ensures Open(t.log, k) == InFlight(t, k) {
      assert Open(s.log, k) == InFlight(s, k);
      LogGrowsByOne(s, l, k);
    }
  }

  lemma LogGrowsByOne(s: State, l: Label, k: Key)
    ensures var t := Step(s, l); Open(t.log, k) - Open(s.log, k) == InFlight(t, k) - InFlight(s, k)
  {
    if Enabled(s, l) {
      if l.Recheck? || l.Upstream? || l.Evict? {
        LogStep(s, l, k);
      } else {
        QuietStep(s, l, k);
      }
    }
  }

  lemma LogStep(s: State, l: Label, k: Key)
    requires Enabled(s, l) && (l.Recheck? || l.Upstream? || l.Evict?)
    ensures var t := Step(s, l); Open(t.log, k) - Open(s.log, k) == InFlight(t, k) - InFlight(s, k)
  {
    match l {
      case Recheck(key) => OpenSnoc(s.log, Started(key, s.now), k);
      case Upstream(key, r) => OpenSnoc(s.log, Fetched(key, s.now, r), k);
      case Evict(key) => OpenSnoc(s.log, Evicted(key), k);
    }
  }

  lemma QuietStep(s: State, l: Label, k: Key)
    requires Enabled(s, l) && !l.Recheck? && !l.Upstream? && !l.Evict?
    ensures Step(s, l).log == s.log && InFlight(Step(s, l), k) == InFlight(s, k)
  {
  }

  lemma AttendedKept(s: State, l: Label)
    requires Attended(s)
    ensures Attended(Step(s, l))
  {
  }

  lemma SourcedKept(s: State, l: Label)
    requires Sourced(s)
    ensures Sourced(Step(s, l))
  {
    if Enabled(s, l) {
      match l {
        case Call(_, k) => if Hit(s, k) { HitIsFresh(s, k); }
        case Recheck(k) => SourcedRecheck(s, k);
        case Upstream(k, r) => SourcedUpstream(s, k, r);
        case Evict(k) => AnsweredGrows(s.log, Evicted(k));
        case _ =>
      }
    }
  }

  lemma SourcedRecheck(s: State, k: Key)
    requires Sourced(s) && Enabled(s, Recheck(k))
    ensures Sourced(Step(s, Recheck(k)))
  {
    AnsweredGrows(s.log, Started(k, s.now));
    if Hit(s, k) {
      HitIsFresh(s, k);
    }
  }

  lemma SourcedUpstream(s: State, k: Key, r: Result)
    requires Sourced(s) && Enabled(s, Upstream(k, r))
    ensures Sourced(Step(s, Upstream(k, r)))
  {
    var e := Fetched(k, s.now, r);
    var log := s.log + [e];
    AnsweredGrows(s.log, e);
    assert log[|s.log|] == e;
    assert Answered(log, k, r, s.now);
    assert r.Ok? ==> CachedFrom(log, k, Cached(r.resp, s.now + CACHE_TTL));
  }

  lemma SpacedKept(s: State, l: Label)
    requires Spaced(s.log) && Remembered(s)
    ensures Spaced(Step(s, l).log)
  {
    var t := Step(s, l);
    if t.log != s.log {
      assert t.log == s.log + [t.log[|s.log|]];
      forall i, j | 0 <= i < j < |t.log| && t.log[j].Started? && IsSuccess(t.log[i], t.log[j].key)
        ensures t.log[i].at + CACHE_TTL < t.log[j].at || exists m :: i < m < j && t.log[m] == Evicted(t.log[j].key)
      {
        assert t.log[i] == s.log[i];
        if j < |s.log| {
          assert t.log[j] == s.log[j];
          if !(s.log[i].at + CACHE_TTL < s.log[j].at) {
            var m :| i < m < j && s.log[m] == Evicted(s.log[j].key);
            assert t.log[m] == Evicted(t.log[j].key);
          }
        } else if EvictedAfter(s.log, i, l.key) {
          var m :| i < m < |s.log| && s.log[m] == Evicted(l.key);
          assert t.log[m] == Evicted(t.log[j].key);
        }
      }
    }
  }

  lemma RememberedKept(s: State, l: Label)
    requires Remembered(s)
    ensures Remembered(Step(s, l))
  {
    var t := Step(s, l);
    forall i | 0 <= i < |t.log| && t.log[i].Fetched? && t.log[i].result.Ok?
      ensures var e := t.log[i];
              e.at <= t.now &&
              (t.now <= e.at + CACHE_TTL && !EvictedAfter(t.log, i, e.key) ==>
               e.key in t.cache && e.at + CACHE_TTL <= t.cache[e.key].expires)
    {
      if i < |s.log| {
        assert t.log[i] == s.log[i];
        if EvictedAfter(s.log, i, s.log[i].key) {
          var j :| i < j < |s.log| && s.log[j] == Evicted(s.log[i].key);
          assert t.log[j] == s.log[j];
        } else if l == Evict(s.log[i].key) && Enabled(s, l) {
          assert t.log[|s.log|] == Evicted(s.log[i].key);
        }
      }
    }
  }

  lemma {:induction false} RunInv(run: seq<Label>)
    ensures Inv(Exec(run))
  {
    if run != [] {
      var s, l := Exec(run[..|run| - 1]), run[|run| - 1];
      RunInv(run[..|run| - 1]);
      StepKeepsInv(s, l);
    }
  }

  lemma StepKeepsInv(s: State, l: Label)
    requires Inv(s)
    ensures Inv(Step(s, l))
  {
    SingleKept(s, l);
    SpacedKept(s, l);
    RememberedKept(s, l);
    SourcedKept(s, l);
    AttendedKept(s, l);
  }

  // ---- What every run guarantees ----

  /** At most one upstream fetch per key is in flight. */
  lemma OneFetchPerKey(run: seq<Label>, k: Key)
    ensures 0 <= Open(Exec(run).log, k) <= 1
  {
    RunInv(run);
  }

  /** After a success no fetch of that key starts until the TTL has passed or the entry was evicted. */
  lemma QuietAfterSuccess(run: seq<Label>, i: int, j: int)
    requires var log := Exec(run).log; 0 <= i < j < |log| && log[j].Started? && IsSuccess(log[i], log[j].key)
    ensures var log := Exec(run).log;
            log[i].at + 1000 < log[j].at || exists m :: i < m < j && log[m] == Evicted(log[j].key)
  {
    RunInv(run);
  }

  /** Every caller gets the result of a fetch of its own key, errors included, made at most a second before the
      moment of its look-up or of its flight's landing; only successes are cached, for at most a second. */
  lemma ResultsAreOwn(run: seq<Label>)
    ensures var s := Exec(run);
            && (forall c :: c in s.callers && s.callers[c].Done? ==>
                  Answered(s.log, s.callers[c].key, s.callers[c].result, s.callers[c].at))
            && (forall k :: k in s.cache ==> CachedFrom(s.log, k, s.cache[k]))
  {
    RunInv(run);
  }

  /** No caller is left behind: while one waits, its flight can move. */
  lemma {:induction false} WaitersAreServed(run: seq<Label>, c: nat, r: Result)
    requires c in Exec(run).callers && Exec(run).callers[c].Joined?
    ensures var s := Exec(run); var k := s.callers[c].key;
            Enabled(s, Recheck(k)) || Enabled(s, Upstream(k, r)) || Enabled(s, Deliver(k))
  {
    RunInv(run);
  }

  // ---- One caller as the code runs it ----

  /** How far a caller that waits for key k is from its result. */
  function Distance(s: State, c: nat, k: Key): nat {
    if c !in s.callers || s.callers[c].Done? then 0
    else if k !in s.flights || s.flights[k].Rechecking? then 3
    else if s.flights[k].Fetching? then 2 else 1
  }

  ghost predicate WaitsOrDone(s: State, c: nat, k: Key) {
    c in s.callers && s.callers[c].key == k && !s.callers[c].Queued?
    && (s.callers[c].Joined? ==> k in s.flights)
  }

  lemma QueuedStays(s: State, l: Label, c: nat)
    requires c in s.callers && s.callers[c].Queued? && l != Join(c)
    ensures c in Step(s, l).callers && Step(s, l).callers[c] == s.callers[c]
  {
  }

  /** No step takes a waiting caller farther from its result. */
  lemma NearerByAny(s: State, l: Label, c: nat, k: Key)
    requires WaitsOrDone(s, c, k)
    ensures WaitsOrDone(Step(s, l), c, k) && Distance(Step(s, l), c, k) <= Distance(s, c, k)
  {
  }

  class Fetcher {
    var s: State
    ghost var run: seq<Label>

    ghost predicate Valid()
      reads this
    {
      s == Exec(run)
    }

    constructor ()
      ensures Valid() && run == []
    {
      s, run := Init(), [];
    }

    method Do(l: Label)
      requires Valid()
      modifies this
      ensures Valid() && s == Step(old(s), l) && run == old(run) + [l]
    {
      s := Step(s, l);
      run := run + [l];
      assert run[..|run| - 1] == old(run);
    }

    /** Any number of steps of others before caller c enters the flight group. */
    method OthersFirst(c: nat)
      requires Valid() && c in s.callers && s.callers[c].Queued?
      modifies this
      ensures Valid() && c in s.callers && s.callers[c] == old(s).callers[c]
    {
      var n :| 0 <= n;
      for i := 0 to n
        invariant Valid() && c in s.callers && s.callers[c] == old(s).callers[c]
      {
        var l: Label := *;
        if l != Join(c) {
          QueuedStays(s, l, c);
          Do(l);
        }
      }
    }

    /** Any number of steps of others while caller c waits. */
    method Others(c: nat, k: Key)
      requires Valid() && WaitsOrDone(s, c, k)
      modifies this
      ensures Valid() && WaitsOrDone(s, c, k) && Distance(s, c, k) <= Distance(old(s), c, k)
    {
      var n :| 0 <= n;
      for i := 0 to n
        invariant Valid() && WaitsOrDone(s, c, k) && Distance(s, c, k) <= Distance(old(s), c, k)
      {
        var l: Label := *;
        NearerByAny(s, l, c, k);
        Do(l);
      }
    }

    /** The flight's function moves on. */
    method Fly(c: nat, k: Key)
      requires Valid() && WaitsOrDone(s, c, k) && s.callers[c].Joined?
      modifies this
      ensures Valid() && WaitsOrDone(s, c, k) && Distance(s, c, k) < Distance(old(s), c, k)
    {
      match s.flights[k] {
        case Rechecking => Do(Recheck(k));
        case Fetching =>
          var answer: Result := *;
          Do(Upstream(k, answer));
        case Landed(_, _) => Do(Deliver(k));
      }
    }

    /** The call comes back with the result of a fetch of its own key: from the cache, from its own flight or
        from the one it joined. */
    method SignedGet(c: nat, k: Key) returns (r: Result, ghost at: int)
      requires Valid() && c !in s.callers
      modifies this
      ensures Valid() && Answered(s.log, k, r, at)
      ensures if k in old(s).cache && old(s).now <= old(s).cache[k].expires
              then r == Ok(old(s).cache[k].resp) && s.log == old(s).log && at == old(s).now
              else c in s.callers && s.callers[c] == Done(k, r, at)
    {
      Do(Call(c, k));
      if s.callers[c].Queued? {
        OthersFirst(c);
        Do(Join(c));
        while s.callers[c].Joined?
          invariant Valid() && WaitsOrDone(s, c, k)
          decreases Distance(s, c, k)
        {
          Others(c, k);
          if s.callers[c].Joined? {
            Fly(c, k);
          }
        }
      }
      RunInv(run);
      r, at := s.callers[c].result, s.callers[c].at;
    }
  }
}
