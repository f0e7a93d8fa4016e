/**
 Who is being federated: the scanner's follower reads and the starts made by accepted follows (outbound.go).
 start and stop hold the mutex and only the scanner touches the counts, so any interleaving is a sequence
 of the labels below.
 */
module Federation {
  import opened Seqs
  import opened Paging

  const EMPTY_SCANS_TO_STOP: nat := 2

  type UserId = string

  datatype Read = Failed | Empty | NonEmpty
  datatype Label = Followed(user: UserId) | ReadOf(user: UserId, outcome: Read)

  // ---- One label at a time ----

  /** A poller group is named by its position in launched, the history of groups created and for whom.
      started holds the group whose cancel function is stored; cancelled is the history of cancel calls. */
  datatype Fed = Fed(started: map<UserId, nat>, emptyScans: map<UserId, nat>,
                     launched: seq<UserId>, cancelled: seq<nat>)

  function Started(s: Fed, u: UserId): Fed {
    if u == "" || u in s.started then s
    else s.(started := s.started[u := |s.launched|], launched := s.launched + [u])
  }

  function Stopped(s: Fed, u: UserId): Fed {
    if u !in s.started then s
    else s.(started := s.started - {u}, cancelled := s.cancelled + [s.started[u]])
  }

  function Count(s: Fed, u: UserId): nat {
    if u in s.emptyScans then s.emptyScans[u] else 0
  }

  function Step(s: Fed, l: Label): Fed {
    match l
    case Followed(u) => Started(s, u)
    case ReadOf(u, Failed) => s
    case ReadOf(u, NonEmpty) => Started(s.(emptyScans := s.emptyScans - {u}), u)
    case ReadOf(u, Empty) =>
      var t := s.(emptyScans := s.emptyScans[u := Count(s, u) + 1]);
      if Count(t, u) >= EMPTY_SCANS_TO_STOP then Stopped(t, u) else t
  }

  function Exec(h: seq<Label>): Fed {
    if h == [] then Fed(map[], map[], [], []) else Step(Exec(h[..|h| - 1]), h[|h| - 1])
  }

  // ---- The history, read without the state ----

  /** Empty reads of u since its last non-empty one; failed reads and starts neither count nor reset. */
  function EmptyReads(h: seq<Label>, u: UserId): nat {
    if h == [] then 0
    else
      var before := EmptyReads(h[..|h| - 1], u);
      match h[|h| - 1]
      case ReadOf(v, Empty) => if v == u then before + 1 else before
      case ReadOf(v, NonEmpty) => if v == u then 0 else before
      case _ => before
  }

  predicate Starts(l: Label, u: UserId) {
    u != "" && (l == Followed(u) || l == ReadOf(u, NonEmpty))
  }

  /** The label at position j is the second or a later empty read of u. */
  predicate Stops(h: seq<Label>, j: nat, u: UserId)
    requires j < |h|
  {
    h[j] == ReadOf(u, Empty) && EmptyReads(h[..j + 1], u) >= EMPTY_SCANS_TO_STOP
  }

  /** Some label starts u and none after it stops u. */
  ghost predicate StartedLast(h: seq<Label>, u: UserId) {
    exists i :: 0 <= i < |h| && Starts(h[i], u) && forall j :: i < j < |h| ==> !Stops(h, j, u)
  }

  lemma StopsInPrefix(h: seq<Label>, l: Label, j: nat, u: UserId)
    requires j < |h|
    ensures Stops(h + [l], j, u) == Stops(h, j, u)
  {
    assert (h + [l])[..j + 1] == h[..j + 1];
  }

  lemma StartedLastSnoc(h: seq<Label>, l: Label, u: UserId)
    ensures StartedLast(h + [l], u) <==> Starts(l, u) || (StartedLast(h, u) && !Stops(h + [l], |h|, u))
  {
    var g := h + [l];
    assert g[|h|] == l && forall i :: 0 <= i < |h| ==> g[i] == h[i];
    forall j | 0 <= j < |h| ensures Stops(g, j, u) == Stops(h, j, u) {
      StopsInPrefix(h, l, j, u);
    }
    if Starts(l, u) {
      assert Starts(g[|h|], u);
    }
    if StartedLast(h, u) && !Stops(g, |h|, u) {
      var i :| 0 <= i < |h| && Starts(h[i], u) && forall j :: i < j < |h| ==> !Stops(h, j, u);
      assert Starts(g[i], u) && forall j :: i < j < |g| ==> !Stops(g, j, u);
    }
    if StartedLast(g, u) && !Starts(l, u) {
      var i :| 0 <= i < |g| && Starts(g[i], u) && forall j :: i < j < |g| ==> !Stops(g, j, u);
      assert Starts(h[i], u) && forall j :: i < j < |h| ==> !Stops(h, j, u);
    }
  }

  /** The count is the number of empty reads since the last non-empty one. */
  lemma {:induction false} CountIsEmptyReads(h: seq<Label>, u: UserId)
    ensures Count(Exec(h), u) == EmptyReads(h, u)
  {
    if h != [] {
      CountIsEmptyReads(h[..|h| - 1], u);
    }
  }

  /** Over every history a user is federated exactly when something started it and no second or later empty
      read came after. */
  lemma {:induction false} FederatedIff(h: seq<Label>, u: UserId)
    ensures u in Exec(h).started <==> StartedLast(h, u)
  {
    if h != [] {
      var before, l := h[..|h| - 1], h[|h| - 1];
      assert h == before + [l];
      FederatedIff(before, u);
      CountIsEmptyReads(before, u);
      CountIsEmptyReads(h, u);
      StartedLastSnoc(before, l, u);
      assert h[..|before| + 1] == h;
      NoNamelessUser(before);
    }
  }

  lemma {:induction false} NoNamelessUser(h: seq<Label>)
    ensures "" !in Exec(h).started
  {
    if h != [] {
      NoNamelessUser(h[..|h| - 1]);
    }
  }

  /** A start does not reset the count: one empty read undoes a follow exactly when an empty read came before
      it with no non-empty one since. */
  lemma OneReadUndoesFollow(h: seq<Label>, u: UserId)
    requires u != ""
    ensures u in Exec(h + [Followed(u), ReadOf(u, Empty)]).started <==> EmptyReads(h, u) == 0
  {
    var g := h + [Followed(u)];
    var full := h + [Followed(u), ReadOf(u, Empty)];
    assert full[..|full| - 1] == g && g[..|g| - 1] == h;
    CountIsEmptyReads(g, u);
    assert u in Exec(g).started;
  }

  // ---- Poller groups ----

  /** The stored groups are exactly the groups not yet cancelled, each stored for the user it serves. */
  ghost predicate Groups(s: Fed) {
    && (forall u :: u in s.started ==>
          s.started[u] < |s.launched| && s.launched[s.started[u]] == u && s.started[u] !in s.cancelled)
    && (forall g :: 0 <= g < |s.launched| && g !in s.cancelled ==>
          s.launched[g] in s.started && s.started[s.launched[g]] == g)
    && (forall g :: g in s.cancelled ==> g < |s.launched|)
    && NoDup(s.cancelled)
  }

  lemma StepKeepsGroups(s: Fed, l: Label)
    requires Groups(s)
    ensures Groups(Step(s, l))
  {
    StartKeepsGroups(s, l.user);
    match l {
      case Followed(u) =>
      case ReadOf(u, outcome) =>
        var counted := s.(emptyScans := s.emptyScans[u := Count(s, u) + 1]);
        StartKeepsGroups(s.(emptyScans := s.emptyScans - {u}), u);
        StopKeepsGroups(counted, u);
    }
  }

  lemma StartKeepsGroups(s: Fed, u: UserId)
    requires Groups(s)
    ensures Groups(Started(s, u))
  {
  }

  lemma StopKeepsGroups(s: Fed, u: UserId)
    requires Groups(s)
    ensures Groups(Stopped(s, u))
  {
  }

  /** Each user has at most one live poller group, the stored one, and every group is cancelled at most once. */
  lemma {:induction false} OneGroupPerUser(h: seq<Label>)
    ensures Groups(Exec(h))
    ensures var s := Exec(h);
            forall f, g :: 0 <= f < g < |s.launched| && s.launched[f] == s.launched[g] ==>
              f in s.cancelled || g in s.cancelled
  {
    if h != [] {
      OneGroupPerUser(h[..|h| - 1]);
      StepKeepsGroups(Exec(h[..|h| - 1]), h[|h| - 1]);
    }
  }

  // ---- The scanner ----

  datatype User = User(id: UserId, network: string)

  const MASTODON := "mastodon"

  /** Not bridged from Mastodon. */
  predicate Native(u: User) {
    u.network != MASTODON
  }

  function Scanned(users: seq<User>): seq<UserId> {
    if users == [] then []
    else if Native(users[0]) then [users[0].id] + Scanned(users[1..])
    else Scanned(users[1..])
  }

  /** Whose followers a history reads, in order. */
  function ReadUsers(h: seq<Label>): seq<UserId> {
    if h == [] then []
    else ReadUsers(h[..|h| - 1]) + (if h[|h| - 1].ReadOf? then [h[|h| - 1].user] else [])
  }

  lemma ReadUsersSnoc(h: seq<Label>, l: Label)
    ensures ReadUsers(h + [l]) == ReadUsers(h) + (if l.ReadOf? then [l.user] else [])
  {
    assert (h + [l])[..|h|] == h;
  }

  lemma {:induction false} ScannedSnoc(users: seq<User>, i: nat)
    requires i < |users|
    ensures Scanned(users[..i + 1]) ==
            Scanned(users[..i]) + (if users[i].network == MASTODON then [] else [users[i].id])
  {
    if i > 0 {
      ScannedSnoc(users[1..], i - 1);
      assert users[..i + 1][1..] == users[1..][..i] && users[..i][1..] == users[1..][..i - 1];
    }
  }

  class OutboundFederation {
    var started: map<UserId, nat>
    var emptyScans: map<UserId, nat>
    var launched: seq<UserId>
    var cancelled: seq<nat>
    ghost var history: seq<Label>

    ghost predicate Valid()
      reads this
    {
      Fed(started, emptyScans, launched, cancelled) == Exec(history)
    }

    constructor ()
      ensures Valid() && history == []
    {
      started, emptyScans, launched, cancelled, history := map[], map[], [], [], [];
    }

    method Start(u: UserId)
      modifies this`started, this`launched
      ensures Fed(started, emptyScans, launched, cancelled) ==
              Started(old(Fed(started, emptyScans, launched, cancelled)), u)
    {
      if u == "" {
        return;
      }
      if u in started {
        return;
      }
      started := started[u := |launched|];
      launched := launched + [u];
    }

    method Stop(u: UserId)
      modifies this`started, this`cancelled
      ensures Fed(started, emptyScans, launched, cancelled) ==
              Stopped(old(Fed(started, emptyScans, launched, cancelled)), u)
    {
      if u !in started {
        return;
      }
      cancelled := cancelled + [started[u]];
      started := started - {u};
    }

    /** An accepted follow, from another goroutine. */
    method OnFollowed(u: UserId)
      requires Valid()
      modifies this
      ensures Valid() && history == old(history) + [Followed(u)]
    {
      Start(u);
      history := history + [Followed(u)];
      assert history[..|history| - 1] == old(history);
    }

    /** The scan of one user, after its follower list was read: None for a failed read. */
    method Reconcile(u: UserId, urls: Option<seq<string>>)
      requires Valid()
      modifies this
      ensures Valid()
      ensures history ==
              old(history) + [ReadOf(u, if urls.None? then Failed else if urls.value == [] then Empty else NonEmpty)]
    {
      ghost var l := ReadOf(u, if urls.None? then Failed else if urls.value == [] then Empty else NonEmpty);
      history := history + [l];
      assert history[..|history| - 1] == old(history);
      if urls.None? {
        return;
      }
      if |urls.value| > 0 {
        emptyScans := emptyScans - {u};
        Start(u);
        return;
      }
      emptyScans := emptyScans[u := (if u in emptyScans then emptyScans[u] else 0) + 1];
      if emptyScans[u] >= EMPTY_SCANS_TO_STOP {
        Stop(u);
      }
    }

    /** Reading and reconciling one listed user; the read may yield anything, and someone may be followed
        meanwhile. */
    method ScanUser(user: User)
      requires Valid()
      modifies this
      ensures Valid() && old(history) <= history
      ensures ReadUsers(history) == ReadUsers(old(history)) + (if user.network == MASTODON then [] else [user.id])
    {
      if * {
        var other: UserId := *;
        ReadUsersSnoc(history, Followed(other));
        OnFollowed(other);
      }
      if user.network == MASTODON {
        return;
      }
      var u := user.id;
      var failed: bool, list: seq<string> := *, *;
      var urls := if failed then None else Some(list);
      ghost var outcome := if urls.None? then Failed else if urls.value == [] then Empty else NonEmpty;
      ReadUsersSnoc(history, ReadOf(u, outcome));
      Reconcile(u, urls);
    }

    /** One page: every user not bridged from Mastodon is read once per listing, whatever the reads yield
        and whoever is followed meanwhile. */
    method ScanPage(users: seq<User>)
      requires Valid()
      modifies this
      ensures Valid() && old(history) <= history
      ensures ReadUsers(history) == ReadUsers(old(history)) + Scanned(users)
    {
      for i := 0 to |users|
        invariant Valid() && old(history) <= history
        invariant ReadUsers(history) == ReadUsers(old(history)) + Scanned(users[..i])
      {
        ScannedSnoc(users, i);
        ScanUser(users[i]);
      }
      assert users[..|users|] == users;
    }

    /** One turn of the scan loop: request i, sent with a cursor; None ends the scan. */
    method ScanNext(server: Server<User>, i: nat, cursor: string) returns (next: Option<string>)
      requires Valid() && i < MAX_PAGES
      modifies this
      ensures Valid() && old(history) <= history
      ensures Ahead(ReadUsers(history), server, i + 1, next) == Ahead(old(ReadUsers(history)), server, i, Some(cursor))
    {
      ScanStep(ReadUsers(history), server, i, cursor);
      var answer := server(i, cursor);
      if answer.None? {
        return None;
      }
      ScanPage(answer.value.items);
      return if LastPage(answer.value, cursor) then None else Some(answer.value.cursor);
    }

    /** One scan against any server, which may fail at any page: the users of the pages the walk reads are
        read in order, up to the first failure. */
    method Scan(server: Server<User>) returns (requests: nat)
      requires Valid()
      modifies this
      ensures Valid() && old(history) <= history
      ensures requests == Walk(server, 0, "").requests <= 100
      ensures ReadUsers(history) == WhenDone(old(ReadUsers(history)), server, 0, "")
    {
      WalkIsBounded(server, 0, "");
      ghost var whole := Ahead(ReadUsers(history), server, 0, Some(""));
      var next := Some("");
      requests := 0;
      while requests < MAX_PAGES && next.Some?
        invariant requests <= MAX_PAGES && Valid() && old(history) <= history
        invariant Ahead(ReadUsers(history), server, requests, next) == whole
      {
        next := ScanNext(server, requests, next.value);
        requests := requests + 1;
      }
      AheadOfNothing(ReadUsers(history), server, requests, next);
    }
  }

  /** The users read when the rest of a walk has been scanned too. */
  ghost function WhenDone(read: seq<UserId>, server: Server<User>, i: nat, cursor: string): seq<UserId> {
    read + Scanned(Concat(Walk(server, i, cursor).pages))
  }

  /** The users read and the requests made when the scan goes on with a cursor, or stops. */
  ghost function Ahead(read: seq<UserId>, server: Server<User>, i: nat, next: Option<string>): (seq<UserId>, nat) {
    match next
    case None => (read, i)
    case Some(cursor) => (WhenDone(read, server, i, cursor), Walk(server, i, cursor).requests)
  }

  lemma AheadOfNothing(read: seq<UserId>, server: Server<User>, i: nat, next: Option<string>)
    requires i >= MAX_PAGES || next.None?
    ensures Ahead(read, server, i, next) == (read, i)
  {
    assert read + [] == read;
  }

  lemma ScanStep(read: seq<UserId>, server: Server<User>, i: nat, cursor: string)
    requires i < MAX_PAGES
    ensures Ahead(read, server, i, Some(cursor)) ==
            match server(i, cursor)
            case None => (read, i + 1)
            case Some(p) =>
              Ahead(read + Scanned(p.items), server, i + 1, if LastPage(p, cursor) then None else Some(p.cursor))
  {
    assert read + [] == read;
    if server(i, cursor).Some? {
      var p := server(i, cursor).value;
      if LastPage(p, cursor) {
        assert Concat([p.items]) == p.items + Concat([p.items][1..]) == p.items;
      } else {
        var rest := Walk(server, i + 1, p.cursor).pages;
        assert ([p.items] + rest)[1..] == rest;
        ScannedConcat(p.items, Concat(rest));
        assert read + (Scanned(p.items) + Scanned(Concat(rest))) == read + Scanned(p.items) + Scanned(Concat(rest));
      }
    }
  }

  lemma ScannedOne(u: User)
    ensures Scanned([u]) == if u.network != "mastodon" then [u.id] else []
  {
    assert [u][1..] == [];
  }

  lemma {:induction false} ReadOncePerListing(users: seq<User>, id: UserId)
    ensures multiset(Scanned(users))[id] == |Filter(users, (u: User) => u.network != "mastodon" && u.id == id)|
  {
    if users != [] {
      var rest := users[1..];
      ReadOncePerListing(rest, id);
      if Native(users[0]) {
        assert Scanned(users) == [users[0].id] + Scanned(rest);
      }
    }
  }

  /** Against a server of a fixed user list a scan reads, in order, exactly the native users of its first 100
      pages, of the whole list when there are no more: each once per listing. */
  lemma ScanReadsWholeList(server: Server<User>, pages: seq<seq<User>>, cursors: seq<string>, id: UserId)
    requires Serves(server, pages, cursors)
    ensures var all := Concat(pages[..Min(|pages|, 100)]);
            && Scanned(Concat(Walk(server, 0, "").pages)) == Scanned(all)
            && multiset(Scanned(all))[id] == |Filter(all, (u: User) => u.network != "mastodon" && u.id == id)|
    ensures |pages| <= 100 ==> Scanned(Concat(Walk(server, 0, "").pages)) == Scanned(Concat(pages))
  {
    var m := Min(|pages|, MAX_PAGES);
    WalkReadsAll(server, pages, cursors, 0);
    assert pages[0..m] == pages[..m];
    ReadOncePerListing(Concat(pages[..m]), id);
    if |pages| <= MAX_PAGES {
      assert pages[..|pages|] == pages;
    }
  }

  lemma {:induction false} ScannedConcat(a: seq<User>, b: seq<User>)
    ensures Scanned(a + b) == Scanned(a) + Scanned(b)
  {
    if a == [] {
      assert a + b == b;
    } else {
      var rest := a[1..];
      ScannedConcat(rest, b);
      assert a + b == [a[0]] + (rest + b) && (a + b)[1..] == rest + b;
    }
  }
}
