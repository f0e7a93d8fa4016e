/** Recovery of limiters that stay locked: the drain loop's ticks (rate-limit.go). */
module StuckLimiters {
  import opened Seqs

  type IP = string

  // ---- Watching one limiter, tick by tick ----

  datatype Look = Look(now: int, locked: bool)

  predicate Overdue(since: Option<int>, l: Look, window: int) {
    l.locked && since.Some? && l.now - since.value >= window
  }

  /** The time remembered after a tick; a replacement forgets it. */
  function Watch(since: Option<int>, l: Look, window: int): Option<int> {
    if !l.locked || Overdue(since, l, window) then None
    else if since.None? then Some(l.now)
    else since
  }

  function WatchAfter(looks: seq<Look>, window: int): Option<int> {
    if looks == [] then None else Watch(WatchAfter(looks[..|looks| - 1], window), looks[|looks| - 1], window)
  }

  /** The tick at position m replaces the limiter. */
  predicate Fires(looks: seq<Look>, window: int, m: nat)
    requires m < |looks|
  {
    Overdue(WatchAfter(looks[..m], window), looks[m], window)
  }

  /** How often the limiter has been replaced. */
  function Swaps(looks: seq<Look>, window: int): nat {
    if looks == [] then 0
    else Swaps(looks[..|looks| - 1], window) + (if Fires(looks, window, |looks| - 1) then 1 else 0)
  }

  ghost predicate LockedFor(looks: seq<Look>, i: nat, j: nat)
    requires j < |looks|
  {
    forall k :: i <= k <= j ==> looks[k].locked
  }

  lemma WatchSnoc(looks: seq<Look>, window: int, m: nat)
    requires m < |looks|
    ensures WatchAfter(looks[..m + 1], window) == Watch(WatchAfter(looks[..m], window), looks[m], window)
    ensures Swaps(looks[..m + 1], window) == Swaps(looks[..m], window) + (if Fires(looks, window, m) then 1 else 0)
  {
    assert looks[..m + 1][..m] == looks[..m];
  }

  /** A remembered time is that of a tick since which the limiter was locked at every tick and not replaced. */
  lemma {:induction false} TimeMarksStreak(looks: seq<Look>, window: int, m: nat) returns (j: nat)
    requires m < |looks| && WatchAfter(looks[..m + 1], window).Some?
    ensures j <= m && Some(looks[j].now) == WatchAfter(looks[..m + 1], window) && LockedFor(looks, j, m)
    ensures forall k :: j <= k <= m ==> !Fires(looks, window, k)
    ensures Swaps(looks[..j], window) == Swaps(looks[..m + 1], window)
  {
    WatchSnoc(looks, window, m);
    if WatchAfter(looks[..m], window).Some? {
      if m > 0 {
        j := TimeMarksStreak(looks, window, m - 1);
      }
    } else {
      j := m;
    }
  }

  /** A limiter is replaced only when it was itself locked at every tick over a span of at least one window. */
  lemma FiresOnlyWhenStuck(looks: seq<Look>, window: int, m: nat) returns (j: nat)
    requires m < |looks| && window > 0 && Fires(looks, window, m)
    ensures j < m && LockedFor(looks, j, m) && looks[m].now - looks[j].now >= window
    ensures Some(looks[j].now) == WatchAfter(looks[..m], window)
    ensures forall k :: j <= k < m ==> !Fires(looks, window, k)
    ensures Swaps(looks[..j], window) == Swaps(looks[..m], window)
  {
    j := TimeMarksStreak(looks, window, m - 1);
  }

  ghost predicate TicksEvery(looks: seq<Look>, d: int) {
    forall k :: 0 <= k < |looks| - 1 ==> 0 <= looks[k + 1].now - looks[k].now <= d
  }

  lemma {:induction false} Ascending(looks: seq<Look>, d: int, i: nat, j: nat)
    requires TicksEvery(looks, d) && i <= j < |looks|
    ensures looks[i].now <= looks[j].now
  {
    if i < j {
      Ascending(looks, d, i, j - 1);
      var k := j - 1;
      assert looks[k + 1].now - looks[k].now >= 0;
    }
  }

  /** Reading on from tick k with a remembered time, the replacement comes less than d after the window. */
  lemma {:induction false} ReplacementFollows(looks: seq<Look>, window: int, d: int, k: nat, last: nat) returns (m: nat)
    requires TicksEvery(looks, d) && k < last < |looks| && LockedFor(looks, k, last)
    requires var since := WatchAfter(looks[..k + 1], window);
             since.Some? && looks[k].now - since.value < window <= looks[last].now - since.value
    ensures k < m <= last && Fires(looks, window, m)
    ensures looks[m].now - WatchAfter(looks[..k + 1], window).value < window + d
    decreases last - k
  {
    if Fires(looks, window, k + 1) {
      m := k + 1;
    } else {
      WatchSnoc(looks, window, k + 1);
      m := ReplacementFollows(looks, window, d, k + 1, last);
    }
  }

  /** With ticks at most d apart, a limiter that stays locked from time t on is replaced by t + window + 2d.
      first is the first tick after t, last a tick late enough. */
  lemma StuckIsReset(looks: seq<Look>, window: int, d: int, t: int, first: nat, last: nat) returns (m: nat)
    requires window > 0 && TicksEvery(looks, d) && first <= last < |looks|
    requires t <= looks[first].now <= t + d && t + window + d <= looks[last].now
    requires LockedFor(looks, first, last)
    ensures first <= m <= last && Fires(looks, window, m) && looks[m].now <= t + window + 2 * d
  {
    WatchSnoc(looks, window, first);
    if Fires(looks, window, first) {
      m := first;
    } else {
      if WatchAfter(looks[..first], window).Some? && first > 0 {
        var j := TimeMarksStreak(looks, window, first - 1);
        Ascending(looks, d, j, first);
      }
      m := ReplacementFollows(looks, window, d, first, last);
    }
  }

  // ---- The client limiters ----

  /** A client's limiters are numbered in the order they are made. */
  datatype Limiter = Limiter(ip: IP, serial: nat)

  /** Requests of clients and entries the cache drops, for capacity or age. */
  datatype Traffic = Client(ip: IP) | Evict(ip: IP)

  /** The serial of each cached client's limiter, and how many limiters were ever made for a client. */
  datatype Pool = Pool(clients: map<IP, nat>, made: map<IP, nat>)

  function Made(p: Pool, ip: IP): nat {
    if ip in p.made then p.made[ip] else 0
  }

  function MakeFor(p: Pool, ip: IP): Pool {
    Pool(p.clients[ip := Made(p, ip)], p.made[ip := Made(p, ip) + 1])
  }

  function ServeOne(p: Pool, t: Traffic): Pool {
    match t
    case Client(ip) => if ip in p.clients then p else MakeFor(p, ip)
    case Evict(ip) => p.(clients := p.clients - {ip})
  }

  function Serve(p: Pool, ts: seq<Traffic>): Pool
    decreases ts
  {
    if ts == [] then p else Serve(ServeOne(p, ts[0]), ts[1..])
  }

  function Replace(p: Pool, stuck: set<IP>): Pool {
    Pool(map ip | ip in p.clients :: if ip in stuck then Made(p, ip) else p.clients[ip],
         map ip | ip in p.made.Keys + stuck :: Made(p, ip) + (if ip in stuck then 1 else 0))
  }

  /** What happened before a tick, the keys it was given, its time, and the limiters that are locked. */
  datatype Tick = Tick(traffic: seq<Traffic>, keys: set<IP>, now: int, locked: set<Limiter>)

  /** The clients found locked. */
  function LockedAmong(p: Pool, keys: set<IP>, locked: set<Limiter>): set<IP> {
    set ip | ip in keys && IsLocked(p, ip, locked)
  }

  function Stuck(since: map<IP, int>, found: set<IP>, now: int, window: int): set<IP> {
    set ip | ip in found && ip in since && now - since[ip] >= window
  }

  function NextSince(since: map<IP, int>, found: set<IP>, now: int, window: int): map<IP, int> {
    map ip | ip in found && ip !in Stuck(since, found, now, window) :: if ip in since then since[ip] else now
  }

  predicate IsLocked(p: Pool, ip: IP, locked: set<Limiter>) {
    ip in p.clients && Limiter(ip, p.clients[ip]) in locked
  }

  /** What the check of one client does. */
  function Checked(s: State, ip: IP, locked: set<Limiter>, now: int, window: int): State {
    if !IsLocked(s.pool, ip, locked) then s
    else if ip !in s.since then s.(since := s.since[ip := now])
    else if now - s.since[ip] >= window then State(MakeFor(s.pool, ip), s.since - {ip})
    else s
  }

  datatype State = State(pool: Pool, since: map<IP, int>)

  function Ticked(s: State, t: Tick, window: int): State {
    var p := Serve(s.pool, t.traffic);
    var found := LockedAmong(p, t.keys, t.locked);
    State(Replace(p, Stuck(s.since, found, t.now, window)), NextSince(s.since, found, t.now, window))
  }

  function Exec(run: seq<Tick>, window: int): State {
    if run == [] then State(Pool(map[], map[]), map[])
    else Ticked(Exec(run[..|run| - 1], window), run[|run| - 1], window)
  }

  /** The limiters in service when the tick at position m comes. */
  function At(run: seq<Tick>, window: int, m: nat): Pool
    requires m < |run|
  {
    Serve(Exec(run[..m], window).pool, run[m].traffic)
  }

  function FoundAt(run: seq<Tick>, window: int, m: nat): set<IP>
    requires m < |run|
  {
    LockedAmong(At(run, window, m), run[m].keys, run[m].locked)
  }

  /** The clients whose limiter the tick at position m replaces. */
  function ReplacedAt(run: seq<Tick>, window: int, m: nat): set<IP>
    requires m < |run|
  {
    Stuck(Exec(run[..m], window).since, FoundAt(run, window, m), run[m].now, window)
  }

  function LooksAt(run: seq<Tick>, window: int, ip: IP): (looks: seq<Look>)
    ensures |looks| == |run|
    ensures forall k :: 0 <= k < |run| ==> looks[k] == Look(run[k].now, ip in FoundAt(run, window, k))
  {
    seq(|run|, k requires 0 <= k < |run| => Look(run[k].now, ip in FoundAt(run, window, k)))
  }

  lemma FoundOfPrefix(run: seq<Tick>, window: int, k: nat, n: nat)
    requires k < n <= |run|
    ensures FoundAt(run[..n], window, k) == FoundAt(run, window, k)
  {
    assert run[..n][..k] == run[..k];
  }

  lemma LooksOfPrefix(run: seq<Tick>, window: int, ip: IP, n: nat)
    requires n <= |run|
    ensures LooksAt(run[..n], window, ip) == LooksAt(run, window, ip)[..n]
  {
    forall k | 0 <= k < n ensures FoundAt(run[..n], window, k) == FoundAt(run, window, k) {
      FoundOfPrefix(run, window, k, n);
    }
  }

  /** Each client is watched like a single limiter, over every run. */
  lemma {:induction false} ClientIsWatched(run: seq<Tick>, window: int, ip: IP)
    ensures var since := Exec(run, window).since;
            WatchAfter(LooksAt(run, window, ip), window) == if ip in since then Some(since[ip]) else None
  {
    if run != [] {
      var n := |run| - 1;
      ClientIsWatched(run[..n], window, ip);
      LooksOfPrefix(run, window, ip, n);
    }
  }

  lemma ReplacedIffFires(run: seq<Tick>, window: int, m: nat, ip: IP)
    requires m < |run|
    ensures ip in ReplacedAt(run, window, m) <==> Fires(LooksAt(run, window, ip), window, m)
  {
    ClientIsWatched(run[..m], window, ip);
    LooksOfPrefix(run, window, ip, m);
  }

  /** After every tick each remembered time belongs to a client found locked at this tick and is less than one
      window old. */
  lemma {:induction false} SinceIsFresh(run: seq<Tick>, window: int, ip: IP)
    requires run != [] && window > 0 && ip in Exec(run, window).since
    ensures ip in FoundAt(run, window, |run| - 1) && run[|run| - 1].now - Exec(run, window).since[ip] < window
  {
  }

  ghost predicate DrainsEvery(run: seq<Tick>, d: int) {
    forall k :: 0 <= k < |run| - 1 ==> 0 <= run[k + 1].now - run[k].now <= d
  }

  lemma LooksEvery(run: seq<Tick>, window: int, ip: IP, d: int)
    requires DrainsEvery(run, d)
    ensures TicksEvery(LooksAt(run, window, ip), d)
  {
    var looks := LooksAt(run, window, ip);
    forall k | 0 <= k < |looks| - 1 ensures 0 <= looks[k + 1].now - looks[k].now <= d {
      var next := k + 1;
      assert looks[next].now - looks[k].now == run[next].now - run[k].now;
    }
  }

  /** With ticks at most d apart, a client found locked at every tick from time t on has its limiter replaced by
      t + window + 2d. */
  lemma StuckIsReplaced(run: seq<Tick>, window: int, d: int, ip: IP, t: int, first: nat, last: nat) returns (m: nat)
    requires window > 0 && first <= last < |run|
    requires DrainsEvery(run, d)
    requires t <= run[first].now <= t + d && t + window + d <= run[last].now
    requires forall k :: first <= k <= last ==> ip in FoundAt(run, window, k)
    ensures first <= m <= last && ip in ReplacedAt(run, window, m) && run[m].now <= t + window + 2 * d
    ensures NewLimiter(run, window, m, ip)
  {
    var looks := LooksAt(run, window, ip);
    LooksEvery(run, window, ip, d);
    assert LockedFor(looks, first, last);
    m := StuckIsReset(looks, window, d, t, first, last);
    ReplacedIffFires(run, window, m, ip);
    ReplacedIsNew(run, window, m, ip);
  }

  /** The tick at position m puts a new limiter in the place of the client's. */
  ghost predicate NewLimiter(run: seq<Tick>, window: int, m: nat, ip: IP)
    requires m < |run|
  {
    var before, after := At(run, window, m).clients, Exec(run[..m + 1], window).pool.clients;
    ip in before && ip in after && after[ip] > before[ip] && after[ip] >= Made(At(run, window, m), ip)
  }

  /** The tick changes the limiters of exactly the clients it replaces, and each gets a new one. */
  lemma ReplacedIsNew(run: seq<Tick>, window: int, m: nat, ip: IP)
    requires m < |run|
    ensures var before, after := At(run, window, m).clients, Exec(run[..m + 1], window).pool.clients;
            && after.Keys == before.Keys
            && (ip in ReplacedAt(run, window, m) ==> NewLimiter(run, window, m, ip))
            && (ip in before && ip !in ReplacedAt(run, window, m) ==> after[ip] == before[ip])
  {
    assert run[..m + 1][..m] == run[..m];
    PoolIsNumbered(run[..m], window);
    ServeFacts(Exec(run[..m], window).pool, run[m].traffic, ip);
  }

  // ---- Whose lock it was ----

  ghost predicate Numbered(p: Pool) {
    forall ip :: ip in p.clients ==> p.clients[ip] < Made(p, ip)
  }

  ghost predicate Evicted(ts: seq<Traffic>, ip: IP) {
    Evict(ip) in ts
  }

  /** Requests alone keep a client's limiter; one dropped and made again has a higher number. */
  lemma {:induction false} ServeFacts(p: Pool, ts: seq<Traffic>, ip: IP)
    requires Numbered(p)
    ensures var q := Serve(p, ts);
            && Numbered(q) && Made(q, ip) >= Made(p, ip)
            && (ip in p.clients && !Evicted(ts, ip) ==> ip in q.clients && q.clients[ip] == p.clients[ip])
            && (ip in q.clients && (ip !in p.clients || Evicted(ts, ip)) ==> q.clients[ip] >= Made(p, ip))
    decreases ts
  {
    if ts != [] {
      ServeFacts(ServeOne(p, ts[0]), ts[1..], ip);
    }
  }

  lemma {:induction false} PoolIsNumbered(run: seq<Tick>, window: int)
    ensures Numbered(Exec(run, window).pool)
  {
    if run != [] {
      var s, t := Exec(run[..|run| - 1], window), run[|run| - 1];
      PoolIsNumbered(run[..|run| - 1], window);
      ServeFacts(s.pool, t.traffic, "");
    }
  }

  ghost predicate EvictedBetween(run: seq<Tick>, ip: IP, j: nat, m: nat)
    requires m < |run|
  {
    exists k :: j < k <= m && Evicted(run[k].traffic, ip)
  }

  lemma NextTick(run: seq<Tick>, window: int, ip: IP, m: nat)
    requires 0 < m < |run| && ip in At(run, window, m - 1).clients && ip in At(run, window, m).clients
    requires ip !in ReplacedAt(run, window, m - 1)
    ensures var a, b := At(run, window, m - 1).clients[ip], At(run, window, m).clients[ip];
            if Evicted(run[m].traffic, ip) then a < b else a == b
  {
    var p := At(run, window, m - 1);
    PoolIsNumbered(run[..m - 1], window);
    ServeFacts(Exec(run[..m - 1], window).pool, run[m - 1].traffic, ip);
    assert run[..m][..m - 1] == run[..m - 1];
    assert Exec(run[..m], window).pool == Replace(p, ReplacedAt(run, window, m - 1));
    PoolIsNumbered(run[..m], window);
    ServeFacts(Exec(run[..m], window).pool, run[m].traffic, ip);
  }

  /** Between ticks that find the client and do not replace its limiter, only an eviction changes it. */
  lemma {:induction false} SameUnlessEvicted(run: seq<Tick>, window: int, ip: IP, j: nat, m: nat)
    requires j <= m < |run| && (forall k :: j <= k <= m ==> ip in At(run, window, k).clients)
    requires forall k :: j <= k < m ==> ip !in ReplacedAt(run, window, k)
    ensures var a, b := At(run, window, j).clients[ip], At(run, window, m).clients[ip];
            if EvictedBetween(run, ip, j, m) then a < b else a == b
  {
    if j < m {
      SameUnlessEvicted(run, window, ip, j, m - 1);
      NextTick(run, window, ip, m);
      EvictedSnoc(run, ip, j, m);
    }
  }

  lemma EvictedSnoc(run: seq<Tick>, ip: IP, j: nat, m: nat)
    requires j < m < |run|
    ensures EvictedBetween(run, ip, j, m) <==> EvictedBetween(run, ip, j, m - 1) || Evicted(run[m].traffic, ip)
  {
  }

  /** The limiter in service for ip at tick m was in service, and locked, at tick k. */
  ghost predicate LockedThen(run: seq<Tick>, window: int, ip: IP, m: nat, k: nat)
    requires m < |run| && k < |run|
  {
    var at, last := At(run, window, k).clients, At(run, window, m).clients;
    ip in at && ip in last && at[ip] == last[ip] && Limiter(ip, at[ip]) in run[k].locked
  }

  /** A limiter is replaced only when its client was found locked at every tick over a span of at least one
      window, from the remembered tick j on; and it was itself locked at all of these ticks exactly when the
      cache has not dropped the client since tick j. */
  lemma ReplacedOnlyWhenStuck(run: seq<Tick>, window: int, m: nat, ip: IP) returns (j: nat)
    requires m < |run| && window > 0 && ip in ReplacedAt(run, window, m)
    ensures NewLimiter(run, window, m, ip)
    ensures j < m && ip in Exec(run[..m], window).since && run[j].now == Exec(run[..m], window).since[ip]
    ensures (forall k :: j <= k <= m ==> ip in FoundAt(run, window, k)) && run[m].now - run[j].now >= window
    ensures (forall k :: j <= k <= m ==> LockedThen(run, window, ip, m, k)) <==> !EvictedBetween(run, ip, j, m)
  {
    var looks := LooksAt(run, window, ip);
    ReplacedIsNew(run, window, m, ip);
    ReplacedIffFires(run, window, m, ip);
    j := FiresOnlyWhenStuck(looks, window, m);
    ClientIsWatched(run[..m], window, ip);
    LooksOfPrefix(run, window, ip, m);
    forall k | j <= k <= m ensures ip in FoundAt(run, window, k) {
      assert looks[k].locked;
    }
    forall k | j <= k < m ensures ip !in ReplacedAt(run, window, k) {
      ReplacedIffFires(run, window, k, ip);
    }
    LockedItselfIff(run, window, ip, j, m);
  }

  lemma FoundIsLocked(run: seq<Tick>, window: int, k: nat, ip: IP)
    requires k < |run| && ip in FoundAt(run, window, k)
    ensures ip in At(run, window, k).clients && Limiter(ip, At(run, window, k).clients[ip]) in run[k].locked
  {
  }

  lemma LockedItselfIff(run: seq<Tick>, window: int, ip: IP, j: nat, m: nat)
    requires j <= m < |run| && (forall k :: j <= k <= m ==> ip in FoundAt(run, window, k))
    requires forall k :: j <= k < m ==> ip !in ReplacedAt(run, window, k)
    ensures (forall k :: j <= k <= m ==> LockedThen(run, window, ip, m, k)) <==> !EvictedBetween(run, ip, j, m)
  {
    forall k | j <= k <= m
      ensures ip in At(run, window, k).clients && Limiter(ip, At(run, window, k).clients[ip]) in run[k].locked
    {
      FoundIsLocked(run, window, k, ip);
    }
    SameUnlessEvicted(run, window, ip, j, m);
    if EvictedBetween(run, ip, j, m) {
      assert !LockedThen(run, window, ip, m, j);
    } else {
      forall k | j <= k <= m ensures LockedThen(run, window, ip, m, k) {
        SameUnlessEvicted(run, window, ip, k, m);
      }
    }
  }

  /** A limiter can be replaced after one locked tick: when the cache dropped its client since the remembered
      tick, the time remembered is that of an earlier limiter. */
  lemma YoungLimiterReplaced(window: int, ip: IP) returns (run: seq<Tick>)
    requires window > 0
    ensures |run| == 2 && ip in ReplacedAt(run, window, 1) && ip in At(run, window, 1).clients
    ensures !LockedThen(run, window, ip, 1, 0) && Made(At(run, window, 0), ip) == At(run, window, 1).clients[ip]
  {
    var first := Tick([Client(ip)], {ip}, 0, {Limiter(ip, 0)});
    var second := Tick([Evict(ip), Client(ip)], {ip}, window, {Limiter(ip, 1)});
    run := [first, second];
    var empty := Pool(map[], map[]);
    assert run[..0] == [] && run[..1] == [first] && run[..1][..0] == [];
    assert Serve(empty, first.traffic) == MakeFor(empty, ip) by {
      assert first.traffic[1..] == [];
    }
    assert At(run, window, 0) == MakeFor(empty, ip);
    var s := Exec([first], window);
    assert s == Ticked(State(empty, map[]), first, window);
    assert LockedAmong(MakeFor(empty, ip), {ip}, first.locked) == {ip} && Stuck(map[], {ip}, 0, window) == {};
    assert s.since == map[ip := 0];
    assert s.pool.clients == map[ip := 0] && Made(s.pool, ip) == 1;
    ServeTwo(s.pool, Evict(ip), Client(ip));
    var p := ServeOne(s.pool, Evict(ip));
    assert Made(p, ip) == 1 && ServeOne(p, Client(ip)) == MakeFor(p, ip);
    assert At(run, window, 1) == MakeFor(p, ip);
  }

  lemma ServeTwo(p: Pool, a: Traffic, b: Traffic)
    ensures Serve(p, [a, b]) == ServeOne(ServeOne(p, a), b)
  {
    var q := ServeOne(p, a);
    assert [a, b][1..] == [b] && Serve(p, [a, b]) == Serve(q, [b]);
    assert [b][1..] == [] && Serve(q, [b]) == Serve(ServeOne(q, b), []);
  }

  // ---- The limiters and their drain ----

  /** Limiters are named by serial numbers; a tick is told which of them are locked. */
  class RateLimiters {
    const window: int
    var global: nat
    var globalSince: Option<int>
    var clients: map<IP, nat>
    var made: map<IP, nat>
    var lockedSince: map<IP, int>
    ghost var looks: seq<Look>
    ghost var run: seq<Tick>
    ghost var pending: seq<Traffic>

    /** The fields are what the ticks so far and the traffic since the last one leave. */
    ghost predicate Valid()
      reads this
    {
      ValidGlobal() && ValidClients()
    }

    ghost predicate ValidGlobal()
      reads this`global, this`globalSince, this`looks
    {
      globalSince == WatchAfter(looks, window) && global == Swaps(looks, window)
    }

    ghost predicate ValidClients()
      reads this`clients, this`made, this`lockedSince, this`run, this`pending
    {
      lockedSince == Exec(run, window).since && Pool(clients, made) == Serve(Exec(run, window).pool, pending)
    }

    constructor (window: int)
      ensures Valid() && this.window == window && looks == [] && run == [] && pending == []
    {
      this.window := window;
      global, globalSince, clients, made, lockedSince := 0, None, map[], map[], map[];
      looks, run, pending := [], [], [];
    }

    /** Get or create. */
    method ClientLimiter(ip: IP) returns (l: Limiter)
      requires Valid()
      modifies this`clients, this`made, this`pending
      ensures Valid() && pending == old(pending) + [Client(ip)]
      ensures ip in clients && l == Limiter(ip, clients[ip])
      ensures ip in old(clients) ==> clients == old(clients)
      ensures ip !in old(clients) ==> clients == old(clients)[ip := clients[ip]]
      ensures ip !in old(clients) && ip in old(made) ==> clients[ip] >= old(made)[ip]
    {
      ServeSnoc(Exec(run, window).pool, pending, Client(ip));
      if ip !in clients {
        var serial := if ip in made then made[ip] else 0;
        clients, made := clients[ip := serial], made[ip := serial + 1];
      }
      pending := pending + [Client(ip)];
      l := Limiter(ip, clients[ip]);
    }

    /** The cache drops an entry, for capacity or age. */
    method Drop(ip: IP)
      requires Valid()
      modifies this`clients, this`pending
      ensures Valid() && pending == old(pending) + [Evict(ip)] && clients == old(clients) - {ip}
    {
      ServeSnoc(Exec(run, window).pool, pending, Evict(ip));
      clients := clients - {ip};
      pending := pending + [Evict(ip)];
    }

    method ResetGlobalIfStuck(since: Option<int>, isLocked: bool, now: int) returns (r: Option<int>)
      modifies this`global
      ensures r == Watch(since, Look(now, isLocked), window)
      ensures global == old(global) + (if isLocked && since.Some? && now - since.value >= window then 1 else 0)
    {
      if !isLocked {
        return None;
      }
      if since.None? {
        return Some(now);
      }
      if now - since.value >= window {
        global := global + 1;
        return None;
      }
      return since;
    }

    method ResetIfStuck(ip: IP, locked: set<Limiter>, now: int) returns (isLocked: bool)
      modifies this`clients, this`made, this`lockedSince
      ensures isLocked == IsLocked(old(Pool(clients, made)), ip, locked)
      ensures State(Pool(clients, made), lockedSince) ==
              Checked(old(State(Pool(clients, made), lockedSince)), ip, locked, now, window)
    {
      isLocked := IsLocked(Pool(clients, made), ip, locked);
      if !isLocked {
        return;
      }
      if ip !in lockedSince {
        lockedSince := lockedSince[ip := now];
      } else if now - lockedSince[ip] >= window {
        var serial := if ip in made then made[ip] else 0;
        clients, made := clients[ip := serial], made[ip := serial + 1];
        lockedSince := lockedSince - {ip};
      }
    }

    /** keys is the cache's key list, which may name entries that have left the cache since. */
    method ResetStuckClients(keys: seq<IP>, locked: set<Limiter>, now: int)
      requires NoDup(keys)
      modifies this`clients, this`made, this`lockedSince
      ensures var found := LockedAmong(old(Pool(clients, made)), Elems(keys), locked);
              && Pool(clients, made) == Replace(old(Pool(clients, made)), Stuck(old(lockedSince), found, now, window))
              && lockedSince == NextSince(old(lockedSince), found, now, window)
      ensures clients.Keys == old(clients).Keys
      ensures forall ip :: ip in clients ==>
                var locking := ip in keys && Limiter(ip, old(clients)[ip]) in locked;
                if locking && ip in old(lockedSince) && now - old(lockedSince)[ip] >= window
                then (ip in old(made) ==> clients[ip] >= old(made)[ip])
                     && (old(Numbered(Pool(clients, made))) ==> clients[ip] > old(clients)[ip]) && ip !in lockedSince
                else clients[ip] == old(clients)[ip] && (ip in lockedSince <==> locking)
    {
      ghost var p, since := Pool(clients, made), lockedSince;
      ghost var found := LockedAmong(p, Elems(keys), locked);
      ghost var stuck := Stuck(since, found, now, window);
      var present: set<IP> := {};
      SweepNone(State(p, since), found, now, window);
      for i := 0 to |keys|
        invariant present == found * Elems(keys[..i])
        invariant Swept(State(p, since), found, now, window, Elems(keys[..i]), State(Pool(clients, made), lockedSince))
      {
        var ip := keys[i];
        assert ip !in keys[..i] && keys[..i + 1] == keys[..i] + [ip];
        assert Elems(keys[..i + 1]) == Elems(keys[..i]) + {ip};
        SweepOne(State(p, since), Elems(keys), locked, now, window, Elems(keys[..i]),
                 State(Pool(clients, made), lockedSince), ip);
        var isLocked := ResetIfStuck(ip, locked, now);
        if isLocked {
          present := present + {ip};
        }
      }
      assert keys[..|keys|] == keys;
      assert present == found && stuck * Elems(keys) == stuck;
      NextSinceIs(since, found, now, window, lockedSince);
      SweepIs(p, since, Elems(keys), locked, now, window);
      lockedSince := map ip | ip in lockedSince && ip in present :: lockedSince[ip];
    }

    /** The two halves of the drain loop's body. */
    method DrainGlobal(isLocked: bool, now: int)
      requires ValidGlobal()
      modifies this`global, this`globalSince, this`looks
      ensures ValidGlobal() && looks == old(looks) + [Look(now, isLocked)]
    {
      LookSnoc(looks, Look(now, isLocked), window);
      looks := looks + [Look(now, isLocked)];
      globalSince := ResetGlobalIfStuck(globalSince, isLocked, now);
    }

    method DrainClients(keys: seq<IP>, locked: set<Limiter>, now: int)
      requires ValidClients() && NoDup(keys)
      modifies this`clients, this`made, this`lockedSince, this`run, this`pending
      ensures ValidClients() && run == old(run) + [Tick(old(pending), Elems(keys), now, locked)] && pending == []
    {
      ghost var t := Tick(pending, Elems(keys), now, locked);
      TickSnoc(run, t, window);
      run, pending := run + [t], [];
      ResetStuckClients(keys, locked, now);
    }

    /** One turn of the drain loop. */
    method DrainTick(keys: seq<IP>, globalLocked: bool, locked: set<Limiter>, now: int)
      requires Valid() && NoDup(keys)
      modifies this
      ensures Valid() && looks == old(looks) + [Look(now, globalLocked)]
      ensures run == old(run) + [Tick(old(pending), Elems(keys), now, locked)] && pending == []
    {
      DrainGlobal(globalLocked, now);
      DrainClients(keys, locked, now);
    }
  }

  lemma {:induction false} ServeSnoc(p: Pool, ts: seq<Traffic>, t: Traffic)
    ensures Serve(p, ts + [t]) == ServeOne(Serve(p, ts), t)
    decreases ts
  {
    if ts == [] {
      assert [t][1..] == [];
    } else {
      assert (ts + [t])[1..] == ts[1..] + [t];
      ServeSnoc(ServeOne(p, ts[0]), ts[1..], t);
    }
  }

  lemma LookSnoc(looks: seq<Look>, l: Look, window: int)
    ensures WatchAfter(looks + [l], window) == Watch(WatchAfter(looks, window), l, window)
    ensures Swaps(looks + [l], window) ==
            Swaps(looks, window) + (if Overdue(WatchAfter(looks, window), l, window) then 1 else 0)
  {
    assert (looks + [l])[..|looks|] == looks;
  }

  lemma TickSnoc(run: seq<Tick>, t: Tick, window: int)
    ensures Exec(run + [t], window) == Ticked(Exec(run, window), t, window)
    ensures Serve(Exec(run + [t], window).pool, []) == Exec(run + [t], window).pool
  {
    assert (run + [t])[..|run|] == run;
  }

  /** The clients checked so far have been recovered, the others are as they were. */
  ghost predicate Swept(s: State, found: set<IP>, now: int, window: int, done: set<IP>, t: State) {
    var stuck := Stuck(s.since, found, now, window);
    && t.pool == Replace(s.pool, stuck * done)
    && (forall ip :: ip in t.since <==> if ip in done && ip in found then ip !in stuck else ip in s.since)
    && (forall ip :: ip in t.since ==> t.since[ip] == if ip in s.since then s.since[ip] else now)
  }

  lemma SweepNone(s: State, found: set<IP>, now: int, window: int)
    ensures Swept(s, found, now, window, {}, s)
  {
    assert Stuck(s.since, found, now, window) * {} == {};
    assert Replace(s.pool, {}).clients == s.pool.clients && Replace(s.pool, {}).made == s.pool.made;
  }

  lemma SweepOne(s: State, keys: set<IP>, locked: set<Limiter>, now: int, window: int, done: set<IP>, t: State, ip: IP)
    requires ip in keys && ip !in done && Swept(s, LockedAmong(s.pool, keys, locked), now, window, done, t)
    ensures IsLocked(t.pool, ip, locked) <==> ip in LockedAmong(s.pool, keys, locked)
    ensures Swept(s, LockedAmong(s.pool, keys, locked), now, window, done + {ip}, Checked(t, ip, locked, now, window))
  {
    var found := LockedAmong(s.pool, keys, locked);
    var stuck := Stuck(s.since, found, now, window);
    ReplaceOne(s.pool, stuck * done, ip);
    assert stuck * (done + {ip}) == if ip in stuck then stuck * done + {ip} else stuck * done;
    assert ip in t.since <==> ip in s.since;
  }

  lemma ReplaceOne(p: Pool, done: set<IP>, ip: IP)
    requires ip !in done
    ensures var q := Replace(p, done);
            && (ip in q.clients <==> ip in p.clients) && (ip in p.clients ==> q.clients[ip] == p.clients[ip])
            && (ip in p.clients ==> Replace(p, done + {ip}) == MakeFor(q, ip))
  {
    if ip in p.clients {
      var q := Replace(p, done);
      assert Made(q, ip) == Made(p, ip);
      assert Replace(p, done + {ip}).clients == MakeFor(q, ip).clients;
      assert Replace(p, done + {ip}).made == MakeFor(q, ip).made;
    }
  }

  /** A sweep read without its own functions: who gets a new limiter, and whose lock time is remembered. */
  lemma SweepIs(p: Pool, since: map<IP, int>, keys: set<IP>, locked: set<Limiter>, now: int, window: int)
    ensures var found := LockedAmong(p, keys, locked);
            var q, after := Replace(p, Stuck(since, found, now, window)).clients, NextSince(since, found, now, window);
            && q.Keys == p.clients.Keys
            && forall ip :: ip in q ==>
                 var locking := ip in keys && Limiter(ip, p.clients[ip]) in locked;
                 if locking && ip in since && now - since[ip] >= window
                 then (ip in p.made ==> q[ip] >= p.made[ip]) && (Numbered(p) ==> q[ip] > p.clients[ip]) && ip !in after
                 else q[ip] == p.clients[ip] && (ip in after <==> locking)
  {
  }

  lemma NextSinceIs(since: map<IP, int>, found: set<IP>, now: int, window: int, after: map<IP, int>)
    requires forall ip :: ip in after <==> if ip in found then ip !in Stuck(since, found, now, window) else ip in since
    requires forall ip :: ip in after ==> after[ip] == if ip in since then since[ip] else now
    ensures (map ip | ip in after && ip in found :: after[ip]) == NextSince(since, found, now, window)
  {
  }
}
