/** The node client's request paths: candidate list, hedged race, owner cache (nodeclient.go, discovery.go). */
module NodeClient {
  import opened Seqs
  import opened Recency
  import opened HedgedRace

  type PeerId = string

  const MAX_CANDIDATES: nat := 64
  const OWNER_CACHE_SIZE: nat := 1024

  // ---- The candidate list as a function ----

  predicate Eligible(self: PeerId, relays: set<PeerId>, p: PeerId) {
    p != "" && p != self && p !in relays
  }

  function AddCandidate(self: PeerId, relays: set<PeerId>, out: seq<PeerId>, p: PeerId): seq<PeerId> {
    if Eligible(self, relays, p) && p !in out then out + [p] else out
  }

  /** The eligible peers of ps, each once, in order of first appearance. */
  function Collected(self: PeerId, relays: set<PeerId>, ps: seq<PeerId>): seq<PeerId> {
    if ps == [] then []
    else AddCandidate(self, relays, Collected(self, relays, ps[..|ps| - 1]), ps[|ps| - 1])
  }

  function Candidates(self: PeerId, relays: set<PeerId>, good: seq<PeerId>, table: seq<PeerId>): seq<PeerId> {
    Take(Collected(self, relays, good + table), MAX_CANDIDATES)
  }

  lemma {:induction false} CollectedIsExact(self: PeerId, relays: set<PeerId>, ps: seq<PeerId>)
    ensures NoDup(Collected(self, relays, ps))
    ensures forall p :: p in Collected(self, relays, ps) <==> p in ps && Eligible(self, relays, p)
  {
    if ps != [] {
      CollectedIsExact(self, relays, ps[..|ps| - 1]);
      assert ps == ps[..|ps| - 1] + [ps[|ps| - 1]];
    }
  }

  lemma {:induction false} CollectedGrows(self: PeerId, relays: set<PeerId>, a: seq<PeerId>, b: seq<PeerId>)
    ensures Collected(self, relays, a) <= Collected(self, relays, a + b)
    ensures forall p :: p in Collected(self, relays, a + b)[|Collected(self, relays, a)|..] ==> p !in a
  {
    if b == [] {
      assert a + b == a;
    } else {
      var init := b[..|b| - 1];
      CollectedGrows(self, relays, a, init);
      CollectedIsExact(self, relays, a);
      assert (a + b)[..|a + b| - 1] == a + init;
    }
  }

  /** Candidates are distinct, at most 64, never self, a relay or empty; they come from the two lists, every
      known-good peer before any other; and nothing eligible is missing unless 64 were found. */
  lemma CandidatesAreExact(self: PeerId, relays: set<PeerId>, good: seq<PeerId>, table: seq<PeerId>)
    ensures var out := Candidates(self, relays, good, table);
            && NoDup(out) && |out| <= 64
            && (forall p :: p in out ==> p != "" && p != self && p !in relays && (p in good || p in table))
            && (forall i, j :: 0 <= i < j < |out| && out[j] in good ==> out[i] in good)
            && (|out| < 64 ==>
                  forall p :: p != "" && p != self && p !in relays && (p in good || p in table) ==> p in out)
  {
    var all := Collected(self, relays, good + table);
    CollectedIsExact(self, relays, good + table);
    CollectedGrows(self, relays, good, table);
    CollectedIsExact(self, relays, good);
    var k := |Collected(self, relays, good)|;
    forall j | 0 <= j < |all| ensures all[j] in good <==> j < k {
      if j >= k {
        assert all[j] == all[k..][j - k];
      }
    }
    assert forall p :: p in Candidates(self, relays, good, table) ==> p in all;
  }

  /** Candidates keep the order of the lists: an earlier one is met before a later one. */
  lemma {:induction false} CandidatesKeepOrder(self: PeerId, relays: set<PeerId>, ps: seq<PeerId>, i: nat, j: nat)
    returns (k: nat)
    requires i < j < |Collected(self, relays, ps)|
    ensures var out := Collected(self, relays, ps); k < |ps| && ps[k] == out[i] && out[j] !in ps[..k + 1]
  {
    var init := ps[..|ps| - 1];
    var before := Collected(self, relays, init);
    if j < |before| {
      k := CandidatesKeepOrder(self, relays, init, i, j);
      assert init[..k + 1] == ps[..k + 1];
    } else {
      CollectedIsExact(self, relays, init);
      CollectedIsExact(self, relays, ps);
      assert before[i] in before && before[i] in init;
      k :| 0 <= k < |init| && init[k] == before[i];
      assert ps[..k + 1] == init[..k + 1];
      assert Collected(self, relays, ps)[j] == ps[|ps| - 1] && ps[|ps| - 1] !in before;
    }
  }

  /** The list after any run of remember calls: the latest answerers, latest first, cut at 64. A peer is
      listed exactly while fewer than 64 other peers answered since it last did, behind exactly those. */
  lemma RememberedIsRecency(uses: seq<PeerId>, a: nat)
    requires a < |uses| && uses[a] !in uses[a + 1..]
    ensures var good, later := RecentBounded(uses, MAX_CANDIDATES), |Elems(uses[a + 1..])|;
            && NoDup(good) && |good| <= 64
            && (uses[a] in good <==> later < 64)
            && (later < 64 ==> later < |good| && good[later] == uses[a])
  {
    BoundedIsPrefix(uses, MAX_CANDIDATES);
    RecentNoDup(uses);
    StackDistance(uses, a);
  }

  /** The peer that answered last is the next request's first candidate, if it may serve data at all. */
  lemma LastWinnerGoesFirst(self: PeerId, relays: set<PeerId>, uses: seq<PeerId>, p: PeerId, table: seq<PeerId>)
    requires p != "" && p != self && p !in relays
    ensures var out := Candidates(self, relays, RecentBounded(uses + [p], MAX_CANDIDATES), table);
            out != [] && out[0] == p
  {
    var good := RecentBounded(uses + [p], MAX_CANDIDATES);
    assert good[0] == p;
    assert [p] + (good[1..] + table) == good + table;
    assert Collected(self, relays, [p]) == [p];
    CollectedGrows(self, relays, [p], good[1..] + table);
  }

  // ---- The client ----

  class NodeClient {
    const self: PeerId
    const relays: set<PeerId>
    var good: seq<PeerId>
    var owner: map<string, PeerId>
    ghost var uses: seq<PeerId>

    ghost predicate Valid()
      reads this
    {
      good == RecentBounded(uses, MAX_CANDIDATES)
    }

    constructor (self: PeerId, relays: set<PeerId>)
      ensures Valid() && uses == [] && owner == map[]
      ensures this.self == self && this.relays == relays
    {
      this.self, this.relays := self, relays;
      good, owner, uses := [], map[], [];
    }

    method Remember(p: PeerId)
      requires Valid()
      modifies this`good, this`uses
      ensures Valid() && uses == old(uses) + [p]
      ensures good != [] && good[0] == p
    {
      var out, before := [p], good;
      for i := 0 to |before|
        invariant out == Touch(before[..i], p)
        invariant uses == old(uses)
      {
        WithoutConcat(before[..i], [before[i]], p);
        assert before[..i + 1] == before[..i] + [before[i]];
        if before[i] != p {
          out := out + [before[i]];
        }
      }
      assert before[..|before|] == before;
      if |out| > MAX_CANDIDATES {
        out := out[..MAX_CANDIDATES];
      }
      good := out;
      uses := uses + [p];
      assert uses[..|uses| - 1] == old(uses);
    }

    method MemberCandidates(table: seq<PeerId>) returns (out: seq<PeerId>)
      ensures out == Candidates(self, relays, good, table)
    {
      var seen: set<PeerId> := {};
      var listed := good + table;
      out := [];
      for i := 0 to |listed|
        invariant out == Collected(self, relays, listed[..i]) && seen == Elems(out)
      {
        assert listed[..i + 1][..i] == listed[..i];
        if Eligible(self, relays, listed[i]) && listed[i] !in seen {
          seen := seen + {listed[i]};
          out := out + [listed[i]];
        }
      }
      assert listed[..|listed|] == listed;
      if |out| > MAX_CANDIDATES {
        out := out[..MAX_CANDIDATES];
      }
    }

    /** Requests that run at the same time: whoever answers them is remembered in between. */
    method Others() returns (ghost others: seq<PeerId>)
      requires Valid()
      modifies this`good, this`uses
      ensures Valid() && uses == old(uses) + others
    {
      others := [];
      var n :| 0 <= n;
      for i := 0 to n
        invariant Valid() && uses == old(uses) + others
      {
        var p: PeerId := *;
        Remember(p);
        others := others + [p];
      }
    }

    /** The hedged race; run records the schedule, so the method is one run of the step system, and others who
        answered other requests meanwhile. */
    method TryMembers(peers: seq<PeerId>, budget: Budget)
      returns (out: Outcome, ghost run: seq<Label>, ghost others: seq<PeerId>)
      requires Valid()
      modifies this`good, this`uses
      ensures Valid()
      ensures !out.Waiting? && out == Exec(|peers|, budget, run).outcome
      ensures out.Won? ==> out.peer < |peers| && uses == old(uses) + others + [peers[out.peer]]
      ensures out.Won? ==> good != [] && good[0] == peers[out.peer]
      ensures out.Won? ==> Reply(out.peer, Bytes(out.bt)) in Exec(|peers|, budget, run).replies
      ensures !out.Won? ==> uses == old(uses) + others
    {
      out, run, others := Race(|peers|, budget);
      if out.Won? {
        WinnerAnswered(|peers|, budget, run);
        Remember(peers[out.peer]);
      }
    }

    /** The select loop, while other requests go on. */
    method Race(n: nat, budget: Budget) returns (out: Outcome, ghost run: seq<Label>, ghost others: seq<PeerId>)
      requires Valid()
      modifies this`good, this`uses
      ensures Valid() && uses == old(uses) + others
      ensures !out.Waiting? && out == Exec(n, budget, run).outcome && (out.Won? ==> out.peer < n)
    {
      var v := LaunchLocals(n, START);
      StartAgrees(n, budget);
      run, others := [], [];
      while v.inFlight > 0
        invariant Agrees(Exec(n, budget, run), v)
        invariant Valid() && uses == old(uses) + others
        decreases n - v.taken, HedgesLeft(budget, v), |v.running|, WaitLeft(budget, v)
      {
        ghost var l, more;
        v, out, l, more := Turn(n, budget, v, run);
        run, others := run + [l], others + more;
        if !out.Waiting? {
          return;
        }
      }
      out := AllFailed(if v.lastErr.Some? then v.lastErr.value else NO_REACHABLE);
      LoopEnds(n, budget, run, v);
    }

    /** One turn of the loop, after others went on. */
    method Turn(n: nat, budget: Budget, v: Locals, ghost run: seq<Label>)
      returns (w: Locals, out: Outcome, ghost l: Label, ghost others: seq<PeerId>)
      requires Valid() && Agrees(Exec(n, budget, run), v) && v.inFlight > 0
      modifies this`good, this`uses
      ensures Valid() && uses == old(uses) + others
      ensures out.Waiting? ==> Agrees(Exec(n, budget, run + [l]), w)
      ensures out.Waiting? ==> Nearer(n, budget, v, w) && v.taken <= w.taken <= n
      ensures !out.Waiting? ==> out == Exec(n, budget, run + [l]).outcome && (out.Won? ==> out.peer < n)
    {
      LocalsInRange(n, budget, run, v);
      others := Others();
      w, out, l := Round(n, budget, v, run);
    }

    /** The candidates of a request: table is the routing table now, refreshed the one after waiting for a refresh
        while others go on. */
    method ListPeers(table: seq<PeerId>, refreshed: seq<PeerId>) returns (peers: seq<PeerId>, ghost others: seq<PeerId>)
      requires Valid()
      modifies this`good, this`uses
      ensures Valid() && uses == old(uses) + others
      ensures var now := Candidates(self, relays, old(good), table);
              peers == if now != [] then now
                       else Candidates(self, relays, RecentBounded(old(uses) + others, 64), refreshed)
      ensures forall p :: p in peers ==> p != "" && p != self && p !in relays
      ensures forall p :: p in table && p != "" && p != self && p !in relays ==> peers != []
      ensures forall p :: p in peers ==> p in old(good) || p in others || p in table || p in refreshed
    {
      others := [];
      peers := MemberCandidates(table);
      CandidatesAreExact(self, relays, good, table);
      if peers == [] {
        others := Others();
        BoundedFrom(old(uses), others, MAX_CANDIDATES);
        peers := MemberCandidates(refreshed);
        CandidatesAreExact(self, relays, good, refreshed);
      }
    }

    /** One route request. A failure adds nothing to what others did, those while waiting for a refresh and those
        during the race. */
    method Request(table: seq<PeerId>, refreshed: seq<PeerId>, budget: Budget)
      returns (r: Option<string>, ghost waited: seq<PeerId>, ghost others: seq<PeerId>, ghost t: Tried)
      requires Valid()
      modifies this`good, this`uses
      ensures Valid() && (r.Some? ==> good != [])
      ensures var now := Candidates(self, relays, old(good), table);
              t.peers == if now != [] then now
                         else Candidates(self, relays, RecentBounded(old(uses) + waited, 64), refreshed)
      ensures forall p :: p in table && p != "" && p != self && p !in relays ==> t.peers != []
      ensures Asked(t, budget, r) && (r.Some? ==> Replied(t, budget, good[0], r.value))
      ensures r.None? ==> uses == old(uses) + waited + others
      ensures r.Some? ==> uses == old(uses) + waited + others + [good[0]]
      ensures old(uses) <= uses && (r.Some? ==> |uses| > |old(uses)| && good[0] == uses[|uses| - 1])
      ensures r.Some? ==> good[0] != "" && good[0] != self && good[0] !in relays
      ensures r.Some? ==> good[0] in old(good) || good[0] in waited || good[0] in table || good[0] in refreshed
    {
      var peers;
      peers, waited := ListPeers(table, refreshed);
      others, t := [], Tried(peers, []);
      if peers == [] {
        return None, waited, others, t;
      }
      var out;
      ghost var run;
      out, run, others := TryMembers(peers, budget);
      t := Tried(peers, run);
      assert out.Won? ==> peers[out.peer] in peers;
      r := if out.Won? then Some(out.bt) else None;
    }

    /** The cache makes room by dropping another user's entry. */
    method CacheOwner(userID: string, p: PeerId)
      requires |owner| <= OWNER_CACHE_SIZE
      modifies this`owner
      ensures userID in owner && owner[userID] == p && OthersKept(old(owner), owner, userID)
    {
      if userID !in owner && |owner| == OWNER_CACHE_SIZE {
        var oldest :| oldest in owner;
        WithoutKey(owner, oldest);
        owner := owner - {oldest};
      }
      WithKey(owner, userID, p);
      owner := owner[userID := p];
    }

    method ForgetOwner(userID: string)
      requires |owner| <= OWNER_CACHE_SIZE
      modifies this`owner
      ensures owner == old(owner) - {userID} && OthersKept(old(owner), owner, userID)
    {
      WithoutKey(owner, userID);
      owner := owner - {userID};
    }

    /** The user's own node, from the cache unless the entry has expired, or read out of a user document by nodeOf.
        doc is the document when it was asked for, and t that request. */
    method OwnerNode(userID: string, expired: bool, nodeOf: string -> Option<PeerId>, table: seq<PeerId>,
                     refreshed: seq<PeerId>, budget: Budget)
      returns (p: Option<PeerId>, ghost doc: Option<string>, ghost t: Tried)
      requires Valid() && |owner| <= OWNER_CACHE_SIZE
      modifies this
      ensures Valid() && old(uses) <= uses && OthersKept(old(owner), owner, userID)
      ensures p == if userID in owner then Some(owner[userID]) else None
      ensures p == NodeFrom(old(owner), userID, expired, nodeOf, doc)
      ensures userID !in old(owner) || expired ==>
                FromReply(t, budget, doc)
                && forall p :: p in table && p != "" && p != self && p !in relays ==> t.peers != []
    {
      doc, t := None, Tried([], []);
      if userID in owner && !expired {
        p := Some(owner[userID]);
        return;
      }
      var answer;
      ghost var waited, others;
      answer, waited, others, t := Request(table, refreshed, budget);
      doc := answer;
      p := if answer.Some? then nodeOf(answer.value) else None;
      if p.None? {
        ForgetOwner(userID);
      } else {
        CacheOwner(userID, p.value);
      }
    }

    /** Asking the user's own node, which is forgotten when it fails. */
    method DirectRequest(userID: string, expired: bool, nodeOf: string -> Option<PeerId>, attempt: PeerId -> Attempt,
                         table: seq<PeerId>, refreshed: seq<PeerId>, budget: Budget)
      returns (r: Option<string>, ghost doc: Option<string>, ghost t: Tried)
      requires Valid() && |owner| <= OWNER_CACHE_SIZE
      modifies this
      ensures Valid() && old(uses) <= uses && OthersKept(old(owner), owner, userID)
      ensures var node := NodeFrom(old(owner), userID, expired, nodeOf, doc);
              r == if node.Some? && attempt(node.value).Bytes? then Some(attempt(node.value).bt) else None
      ensures userID !in old(owner) || expired ==>
                FromReply(t, budget, doc)
                && forall p :: p in table && p != "" && p != self && p !in relays ==> t.peers != []
      ensures r.Some? <==> userID in owner
      ensures r.Some? ==> NodeFrom(old(owner), userID, expired, nodeOf, doc) == Some(owner[userID])
      ensures r.Some? ==> |uses| > |old(uses)| && good != [] && good[0] == owner[userID] == uses[|uses| - 1]
    {
      var node;
      node, doc, t := OwnerNode(userID, expired, nodeOf, table, refreshed, budget);
      if node.None? {
        return None, doc, t;
      }
      KeptTwice(old(owner), owner, owner - {userID}, userID);
      r := AskOwner(userID, attempt);
    }

    /** A request to the user's own node, falling back to the broadcast. attempt is what a node asked directly
        answers. The owner stays cached exactly when it answered itself, and whoever answered last is tried first
        next time. lookup is the request for the user's document, and t the broadcast. */
    method RequestUser(userID: string, expired: bool, nodeOf: string -> Option<PeerId>, attempt: PeerId -> Attempt,
                       table: seq<PeerId>, refreshed: seq<PeerId>, budget: Budget)
      returns (r: Option<string>, direct: bool, ghost doc: Option<string>, ghost lookup: Tried, ghost t: Tried)
      requires Valid() && |owner| <= OWNER_CACHE_SIZE
      modifies this
      ensures Valid() && old(uses) <= uses && OthersKept(old(owner), owner, userID)
      ensures userID !in old(owner) || expired ==>
                FromReply(lookup, budget, doc)
                && forall p :: p in table && p != "" && p != self && p !in relays ==> lookup.peers != []
      ensures var node := if userID in old(owner) && !expired then Some(old(owner)[userID])
                          else if doc.Some? then nodeOf(doc.value) else None;
              && (direct <==> node.Some? && attempt(node.value).Bytes?)
              && (direct ==> r == Some(attempt(node.value).bt) && userID in owner && owner[userID] == node.value)
      ensures direct <==> userID in owner
      ensures r.Some? ==> |uses| > |old(uses)| && good != [] && good[0] == uses[|uses| - 1]
      ensures direct ==> good[0] == owner[userID]
      ensures !direct ==> Asked(t, budget, r) && (r.Some? ==> Replied(t, budget, good[0], r.value))
      ensures !direct ==> forall p :: p in table && p != "" && p != self && p !in relays ==> t.peers != []
      ensures !direct && r.Some? ==> good[0] != "" && good[0] != self && good[0] !in relays
    {
      r, doc, lookup := DirectRequest(userID, expired, nodeOf, attempt, table, refreshed, budget);
      direct, t := r.Some?, Tried([], []);
      if !direct {
        ghost var waited, others;
        r, waited, others, t := Request(table, refreshed, budget);
      }
    }

    /** The attempt at the owner alone; a failure forgets it. */
    method AskOwner(userID: string, attempt: PeerId -> Attempt) returns (r: Option<string>)
      requires Valid() && userID in owner && |owner| <= OWNER_CACHE_SIZE
      modifies this
      ensures Valid() && old(uses) <= uses
      ensures match attempt(old(owner)[userID])
              case Bytes(bt) => r == Some(bt) && owner == old(owner) && |uses| > |old(uses)| && good != []
                                && good[0] == owner[userID] == uses[|uses| - 1]
              case Failure(_) => r == None && owner == old(owner) - {userID}
    {
      var _ := Others();
      match attempt(owner[userID]) {
        case Bytes(bt) =>
          Remember(owner[userID]);
          r := Some(bt);
        case Failure(_) =>
          ForgetOwner(userID);
          r := None;
      }
    }
  }

  /** The candidates a request tried and the race it made of them. */
  datatype Tried = Tried(peers: seq<PeerId>, run: seq<Label>)

  /** What a request returns: nothing without candidates, and otherwise bytes exactly when the race was won. */
  ghost predicate Asked(t: Tried, budget: Budget, r: Option<string>) {
    if t.peers == [] then r.None?
    else !Exec(|t.peers|, budget, t.run).outcome.Waiting? && (r.Some? <==> Exec(|t.peers|, budget, t.run).outcome.Won?)
  }

  /** In the race candidate p replied with these bytes. */
  ghost predicate Replied(t: Tried, budget: Budget, p: PeerId, bt: string) {
    exists i :: 0 <= i < |t.peers| && t.peers[i] == p && Reply(i, Bytes(bt)) in Exec(|t.peers|, budget, t.run).replies
  }

  ghost predicate FromReply(t: Tried, budget: Budget, doc: Option<string>) {
    Asked(t, budget, doc) && (doc.Some? ==> exists p :: Replied(t, budget, p, doc.value))
  }

  /** The node of a user: the cached one unless it expired, or what the user's document says. */
  function NodeFrom(owner: map<string, PeerId>, userID: string, expired: bool, nodeOf: string -> Option<PeerId>,
                    doc: Option<string>): Option<PeerId>
  {
    if userID in owner && !expired then Some(owner[userID]) else if doc.Some? then nodeOf(doc.value) else None
  }

  /** An owner cache changed for one user: it stays within its capacity, other entries are as they were or gone,
      and they go only when the cache was full and the user is new. */
  ghost predicate OthersKept(before: map<string, PeerId>, after: map<string, PeerId>, userID: string) {
    && |after| <= OWNER_CACHE_SIZE
    && (forall u :: u != userID && u in after ==> u in before && after[u] == before[u])
    && (|before| < OWNER_CACHE_SIZE || userID in before ==> forall u :: u != userID && u in before ==> u in after)
  }

  lemma KeptTwice(before: map<string, PeerId>, mid: map<string, PeerId>, after: map<string, PeerId>, userID: string)
    requires OthersKept(before, mid, userID) && after == mid - {userID} && |before| <= OWNER_CACHE_SIZE
    ensures OthersKept(before, after, userID)
  {
    WithoutKey(mid, userID);
  }

  lemma WithoutKey(m: map<string, PeerId>, k: string)
    ensures |m - {k}| == if k in m then |m| - 1 else |m|
  {
    assert (m - {k}).Keys == m.Keys - {k};
    assert |(m - {k}).Keys| == if k in m then |m.Keys| - 1 else |m.Keys|;
  }

  lemma WithKey(m: map<string, PeerId>, k: string, p: PeerId)
    ensures |m[k := p]| == if k in m then |m| else |m| + 1
  {
    assert m[k := p].Keys == m.Keys + {k};
  }

  // ---- The loop's variables are those of the step system ----

  datatype Locals = Locals(next: nat, inFlight: int, lastErr: Option<string>, running: set<nat>,
                           replies: seq<Reply>, taken: nat, clock: nat, hedgeAt: nat)

  ghost predicate Agrees(s: Race, v: Locals) {
    && (s.outcome.Waiting? || (s.inFlight <= 0 && s.outcome.AllFailed?))
    && s.next == v.next && s.inFlight == v.inFlight && s.lastErr == v.lastErr
    && s.replies == v.replies && s.taken == v.taken && s.clock == v.clock && s.hedgeAt == v.hedgeAt
    && forall i: nat :: i in v.running <==> Running(s, i)
  }

  function LaunchLocals(n: nat, v: Locals): Locals {
    if v.next < n then v.(running := v.running + {v.next}, next := v.next + 1, inFlight := v.inFlight + 1) else v
  }

  lemma LocalsInRange(n: nat, budget: Budget, run: seq<Label>, v: Locals)
    requires Agrees(Exec(n, budget, run), v)
    ensures v.taken <= |v.replies| <= v.next <= n
    ensures forall k :: 0 <= k < |v.replies| ==> v.replies[k].peer < n
    ensures Exec(n, budget, run).outcome.Waiting? <==> v.inFlight > 0
  {
    RunInv(n, budget, run);
    RepliesFit(n, budget, Exec(n, budget, run));
  }

  const START := Locals(0, 0, None, {}, [], 0, 0, HEDGE_DELAY)

  lemma StartAgrees(n: nat, budget: Budget)
    ensures Agrees(Exec(n, budget, []), LaunchLocals(n, START))
  {
  }

  lemma LoopEnds(n: nat, budget: Budget, run: seq<Label>, v: Locals)
    requires Agrees(Exec(n, budget, run), v) && v.inFlight <= 0
    ensures Exec(n, budget, run).outcome == AllFailed(if v.lastErr.Some? then v.lastErr.value else NO_REACHABLE)
  {
    RunInv(n, budget, run);
  }

  lemma LaunchAgrees(n: nat, s: Race, v: Locals)
    requires Agrees(s.(outcome := Waiting), v)
    requires forall k :: 0 <= k < |s.replies| ==> s.replies[k].peer < s.next
    ensures Agrees(ExitIfIdle(LaunchNext(n, s.(outcome := Waiting))), LaunchLocals(n, v))
  {
    var t, w := ExitIfIdle(LaunchNext(n, s.(outcome := Waiting))), LaunchLocals(n, v);
    forall i: nat ensures i in w.running <==> Running(t, i) {
      assert HasReplied(t, i) <==> HasReplied(s.(outcome := Waiting), i);
    }
  }

  lemma SendAgrees(n: nat, budget: Budget, run: seq<Label>, v: Locals, i: nat, r: Attempt)
    requires Agrees(Exec(n, budget, run), v) && i in v.running
    ensures Agrees(Exec(n, budget, run + [Finish(i, r)]),
                   v.(running := v.running - {i}, replies := v.replies + [Reply(i, r)]))
  {
    WorkersNeverBlock(n, budget, run, i, r);
    ExecSnoc(n, budget, run, Finish(i, r));
    var s, t := Exec(n, budget, run), Exec(n, budget, run + [Finish(i, r)]);
    forall j: nat ensures j in v.running - {i} <==> Running(t, j) {
      assert t.replies[|s.replies|].peer == i;
      assert forall k :: 0 <= k < |s.replies| ==> t.replies[k] == s.replies[k];
      assert HasReplied(t, j) <==> HasReplied(s, j) || j == i;
    }
  }

  lemma ReceiveAgrees(n: nat, budget: Budget, run: seq<Label>, v: Locals)
    requires Agrees(Exec(n, budget, run), v) && v.taken < |v.replies| && v.inFlight > 0
    ensures var t, r := Exec(n, budget, run + [Receive]), v.replies[v.taken];
            match r.result
            case Bytes(bt) => t.outcome == Won(r.peer, bt)
            case Failure(e) =>
              Agrees(t, LaunchLocals(n, v.(taken := v.taken + 1, inFlight := v.inFlight - 1, lastErr := Some(e))))
  {
    RunInv(n, budget, run);
    ExecSnoc(n, budget, run, Receive);
    var s, r := Exec(n, budget, run), v.replies[v.taken];
    if r.result.Failure? {
      var e := Some(r.result.err);
      var u := s.(taken := s.taken + 1, inFlight := s.inFlight - 1, handled := s.handled + 1,
                lastErr := e, failures := s.failures + 1);
      SameRunning(s, u);
      LaunchAgrees(n, u, v.(taken := v.taken + 1, inFlight := v.inFlight - 1, lastErr := e));
    }
  }

  lemma HedgeAgrees(n: nat, budget: Budget, run: seq<Label>, v: Locals)
    requires Agrees(Exec(n, budget, run), v) && v.hedgeAt <= v.clock && v.hedgeAt <= LastTick(budget) && v.inFlight > 0
    ensures Agrees(Exec(n, budget, run + [Hedge]), LaunchLocals(n, v).(hedgeAt := v.clock + HEDGE_DELAY))
  {
    RunInv(n, budget, run);
    ExecSnoc(n, budget, run, Hedge);
    var s := Exec(n, budget, run);
    var u := s.(hedges := s.hedges + 1, handled := s.handled + 1, hedgeAt := s.clock + HEDGE_DELAY);
    SameRunning(s, u);
    LaunchAgrees(n, u, v.(hedgeAt := v.clock + HEDGE_DELAY));
  }

  lemma PassAgrees(n: nat, budget: Budget, run: seq<Label>, v: Locals, ms: nat)
    requires Agrees(Exec(n, budget, run), v)
    ensures Agrees(Exec(n, budget, run + [Pass(ms)]), v.(clock := v.clock + ms))
  {
    ExecSnoc(n, budget, run, Pass(ms));
    SameRunning(Exec(n, budget, run), Exec(n, budget, run + [Pass(ms)]));
  }

  lemma SameRunning(s: Race, t: Race)
    requires s.next == t.next && s.replies == t.replies
    ensures forall i: nat :: Running(s, i) == Running(t, i)
  {
    forall i: nat ensures Running(s, i) == Running(t, i) {
      assert HasReplied(s, i) == HasReplied(t, i);
    }
  }

  function HedgesLeft(budget: Budget, v: Locals): int {
    if v.hedgeAt <= LastTick(budget) then LastTick(budget) + 1 - v.hedgeAt else 0
  }

  function WaitLeft(budget: Budget, v: Locals): int {
    if v.clock < LastTick(budget) then LastTick(budget) - v.clock else 0
  }

  /** A round brings the race nearer its end: a reply taken, a hedge fired, a reply sent, or time passed. */
  predicate Nearer(n: nat, budget: Budget, v: Locals, w: Locals) {
    || w.taken > v.taken
    || (w.taken == v.taken && HedgesLeft(budget, w) < HedgesLeft(budget, v))
    || (w.taken == v.taken && HedgesLeft(budget, w) == HedgesLeft(budget, v) && |w.running| < |v.running|)
    || (w.taken == v.taken && HedgesLeft(budget, w) == HedgesLeft(budget, v) && w.running == v.running
        && WaitLeft(budget, w) < WaitLeft(budget, v))
  }

  /** A worker sends its reply. */
  method RoundSend(n: nat, budget: Budget, v: Locals, ghost run: seq<Label>) returns (w: Locals, ghost l: Label)
    requires Agrees(Exec(n, budget, run), v) && v.running != {}
    ensures Agrees(Exec(n, budget, run + [l]), w) && Nearer(n, budget, v, w) && w.taken == v.taken
  {
    var i :| i in v.running;
    var r: Attempt := *;
    l := Finish(i, r);
    SendAgrees(n, budget, run, v, i, r);
    w := v.(replies := v.replies + [Reply(i, r)], running := v.running - {i});
  }

  /** The loop takes a reply. */
  method RoundReceive(n: nat, budget: Budget, v: Locals, ghost run: seq<Label>) returns (w: Locals, out: Outcome)
    requires Agrees(Exec(n, budget, run), v) && v.inFlight > 0 && v.taken < |v.replies| <= n
    ensures match v.replies[v.taken].result
            case Bytes(bt) => out == Won(v.replies[v.taken].peer, bt) == Exec(n, budget, run + [Receive]).outcome
            case Failure(_) => out == Waiting && Agrees(Exec(n, budget, run + [Receive]), w) && w.taken == v.taken + 1
  {
    ReceiveAgrees(n, budget, run, v);
    w, out := v, Waiting;
    match v.replies[v.taken].result {
      case Bytes(bt) =>
        out := Won(v.replies[v.taken].peer, bt);
      case Failure(e) =>
        w := LaunchLocals(n, v.(taken := v.taken + 1, inFlight := v.inFlight - 1, lastErr := Some(e)));
    }
  }

  /** One round of the loop. The select takes any ready case, workers finish in any order with any result and
      time passes in between; the outcome is Waiting when the loop goes on. */
  method Round(n: nat, budget: Budget, v: Locals, ghost run: seq<Label>)
    returns (w: Locals, out: Outcome, ghost l: Label)
    requires Agrees(Exec(n, budget, run), v) && v.inFlight > 0
    ensures out.Waiting? ==> Agrees(Exec(n, budget, run + [l]), w) && Nearer(n, budget, v, w) && w.taken <= n
    ensures !out.Waiting? ==> !out.AllFailed? && out == Exec(n, budget, run + [l]).outcome
    ensures out.Won? ==> out.peer < n
  {
    LocalsInRange(n, budget, run, v);
    w, out := v, Waiting;
    if
    case v.running != {} =>
      w, l := RoundSend(n, budget, v, run);
    case v.taken < |v.replies| =>
      w, out := RoundReceive(n, budget, v, run);
      l := Receive;
    case v.hedgeAt <= v.clock && v.hedgeAt <= LastTick(budget) =>
      l := Hedge;
      HedgeAgrees(n, budget, run, v);
      w := LaunchLocals(n, v).(hedgeAt := v.clock + HEDGE_DELAY);
    case budget.deadline <= v.clock =>
      l := Deadline;
      ExecSnoc(n, budget, run, Deadline);
      out := TimedOut;
    case v.clock < LastTick(budget) =>
      var ms: nat :| ms > 0;
      l := Pass(ms);
      PassAgrees(n, budget, run, v, ms);
      w := v.(clock := v.clock + ms);
  }
}
