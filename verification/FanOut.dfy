/**
 The bounded worker pools that render one page of remote items (mastodon-bridge.go). Workers are started in
 order, at most eight at a time, finish in any order and write their own slot; the page must read as if the
 items had been rendered one after the other.
 */
module FanOut {
  import opened Seqs
  import opened Documents

  const MAX_CONCURRENT: nat := 8

  // ---- The serial form ----

  /** The tweets that rendering yielded, in order. */
  function Present(results: seq<Option<Tweet>>): seq<Tweet> {
    if results == [] then []
    else if results[0].Some? then [results[0].value] + Present(results[1..])
    else Present(results[1..])
  }

  lemma {:induction false} PresentSnoc(results: seq<Option<Tweet>>, i: nat)
    requires i < |results|
    ensures Present(results[..i + 1]) == Present(results[..i]) + (if results[i].Some? then [results[i].value] else [])
  {
    if i > 0 {
      PresentSnoc(results[1..], i - 1);
      assert results[..i + 1][1..] == results[1..][..i] && results[..i][1..] == results[1..][..i - 1];
    }
  }

  /** Outbox items that are no objects yield nothing, whatever rendering them would give. */
  function ObjectsOnly(items: seq<Json>, rendered: seq<Option<Tweet>>): (r: seq<Option<Tweet>>)
    requires |items| == |rendered|
    ensures |r| == |items|
    ensures forall i :: 0 <= i < |items| ==> r[i] == if items[i].Obj? then rendered[i] else None
  {
    seq(|items|, i requires 0 <= i < |items| => if items[i].Obj? then rendered[i] else None)
  }

  // ---- The pool ----

  /** One run of the pool, whatever the schedule. worker tells which items get a worker; rendered holds what
      rendering each item yields, fetches included. peak is the largest number of workers running at once. */
  method RunPool(worker: seq<bool>, rendered: seq<Option<Tweet>>) returns (slots: array<Option<Tweet>>, peak: nat)
    requires |worker| == |rendered|
    ensures fresh(slots) && slots.Length == |worker|
    ensures forall i :: 0 <= i < |worker| ==> slots[i] == if worker[i] then rendered[i] else None
    ensures peak <= 8
  {
    slots := new Option<Tweet>[|worker|](_ => None);
    var next: nat, running: set<nat> := 0, {};
    peak := 0;
    while next < |worker| || running != {}
      invariant next <= |worker| && |running| <= peak <= MAX_CONCURRENT
      invariant forall i :: i in running ==> i < next && worker[i]
      invariant forall i :: next <= i < |worker| ==> slots[i] == None
      invariant forall i: nat :: i < next && i !in running ==> slots[i] == if worker[i] then rendered[i] else None
      decreases |worker| - next, |running|
    {
      if
      case next < |worker| && !worker[next] =>
        next := next + 1;
      case next < |worker| && worker[next] && |running| < MAX_CONCURRENT =>
        running, next := running + {next}, next + 1;
        peak := if peak < |running| then |running| else peak;
      case running != {} =>
        var i :| i in running;
        slots[i], running := rendered[i], running - {i};
    }
  }

  method Collect(slots: array<Option<Tweet>>) returns (tweets: seq<Tweet>)
    ensures tweets == Present(slots[..])
  {
    tweets := [];
    for i := 0 to slots.Length
      invariant tweets == Present(slots[..i])
    {
      PresentSnoc(slots[..], i);
      assert slots[..][..i + 1] == slots[..i + 1] && slots[..][..i] == slots[..i];
      if slots[i].Some? {
        tweets := tweets + [slots[i].value];
      }
    }
    assert slots[..slots.Length] == slots[..];
  }

  method ResolveTimelineItems(items: seq<Json>, rendered: seq<Option<Tweet>>) returns (tweets: seq<Tweet>, peak: nat)
    requires |items| == |rendered|
    ensures tweets == Present(ObjectsOnly(items, rendered)) && peak <= 8
  {
    var slots;
    slots, peak := RunPool(seq(|items|, i requires 0 <= i < |items| => items[i].Obj?), rendered);
    assert slots[..] == ObjectsOnly(items, rendered);
    tweets := Collect(slots);
  }

  /** Every reply item gets a worker; one that turns out to be no note renders to nothing. */
  method ResolveReplyItems(items: seq<Json>, rendered: seq<Option<Tweet>>) returns (tweets: seq<Tweet>, peak: nat)
    requires |items| == |rendered|
    ensures tweets == Present(rendered) && peak <= 8
  {
    var slots;
    slots, peak := RunPool(seq(|items|, _ => true), rendered);
    assert slots[..] == rendered;
    tweets := Collect(slots);
  }

  // ---- The in-place filter behind it ----

  predicate TopLevel(t: Tweet) {
    !HasParent(t)
  }

  /** Compaction over the slice's own backing array: the first n slots hold the kept tweets in order, the
      slots behind them keep what they held. */
  method TopLevelOnly(ts: array<Tweet>) returns (n: nat)
    modifies ts
    ensures n <= ts.Length
    ensures ts[..n] == Filter(old(ts[..]), TopLevel)
    ensures forall k :: n <= k < ts.Length ==> ts[k] == old(ts[k])
  {
    n := 0;
    ghost var before, kept := ts[..], [];
    for i := 0 to ts.Length
      invariant n == |kept| <= i && kept == Filter(before[..i], TopLevel)
      invariant forall k :: 0 <= k < n ==> ts[k] == kept[k]
      invariant forall k :: n <= k < ts.Length ==> ts[k] == before[k]
    {
      FilterSnoc(before, i);
      if TopLevel(ts[i]) {
        kept := kept + [ts[i]];
        ts[n] := ts[i];
        n := n + 1;
      }
    }
    assert before[..ts.Length] == before && ts[..n] == kept;
  }

  lemma FilterSnoc(ts: seq<Tweet>, i: nat)
    requires i < |ts|
    ensures Filter(ts[..i + 1], TopLevel) == Filter(ts[..i], TopLevel) + (if TopLevel(ts[i]) then [ts[i]] else [])
  {
    FilterConcat(ts[..i], [ts[i]], TopLevel);
    assert ts[..i + 1] == ts[..i] + [ts[i]];
  }

  /** A profile page read from an outbox: the parentless tweets of the serial rendering, in order. */
  method ApTweets(items: seq<Json>, rendered: seq<Option<Tweet>>) returns (page: seq<Tweet>)
    requires |items| == |rendered|
    ensures page == Filter(Present(ObjectsOnly(items, rendered)),
                           (t: Tweet) => t.parentId.None? || t.parentId.value == "")
  {
    var tweets, _ := ResolveTimelineItems(items, rendered);
    var ts := new Tweet[|tweets|](i requires 0 <= i < |tweets| => tweets[i]);
    assert ts[..] == tweets;
    var n := TopLevelOnly(ts);
    page := ts[..n];
    FilterSame(tweets, TopLevel, (t: Tweet) => t.parentId.None? || t.parentId.value == "");
  }
}
