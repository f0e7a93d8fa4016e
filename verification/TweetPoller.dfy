/** The tweet poller and its bounded, expiring seen-set (tweetpoller.go). */
module TweetPoller {
  import opened Seqs
  import opened Recency
  import opened Documents

  // Milliseconds and entries.
  const SEEN_TTL: int := 86400000
  const SEEN_SIZE: nat := 8192

  // ---- The contract of the library's expirable LRU ----

  datatype Entry = Entry(key: string, expires: int)

  function Keys(s: seq<Entry>): (r: seq<string>)
    ensures |r| == |s| && forall i :: 0 <= i < |s| ==> r[i] == s[i].key
  {
    seq(|s|, i requires 0 <= i < |s| => s[i].key)
  }

  function Drop(s: seq<Entry>, key: string): seq<Entry> {
    if s == [] then []
    else if s[0].key == key then Drop(s[1..], key)
    else [s[0]] + Drop(s[1..], key)
  }

  /** The library may remove any entries whose time is up, at any moment, and no others. */
  function Reap(s: seq<Entry>, dead: set<string>, now: int): seq<Entry> {
    if s == [] then []
    else if s[0].key in dead && s[0].expires <= now then Reap(s[1..], dead, now)
    else [s[0]] + Reap(s[1..], dead, now)
  }

  /** Add: refresh, move to the front, push the oldest out beyond the capacity. */
  function Put(s: seq<Entry>, key: string, now: int): seq<Entry> {
    Take([Entry(key, now + SEEN_TTL)] + Drop(s, key), SEEN_SIZE)
  }

  // ---- One loop iteration ----

  predicate Publishable(t: Tweet, owner: string) {
    t.userId == owner && t.retweetedBy.None? && !HasParent(t)
  }

  /** One iteration over a fetched tweet: the clock reading and the keys the library drops just before.
      The seeding loop adds without asking and never publishes. */
  datatype Visit = Visit(t: Tweet, now: int, dead: set<string>, seeding: bool)

  predicate Known(s: seq<Entry>, v: Visit) {
    v.t.id in Keys(Reap(s, v.dead, v.now))
  }

  function After(s: seq<Entry>, v: Visit): seq<Entry> {
    Put(Reap(s, v.dead, v.now), v.t.id, v.now)
  }

  function SeenAfter(s: seq<Entry>, vs: seq<Visit>): seq<Entry>
    decreases vs
  {
    if vs == [] then s else SeenAfter(After(s, vs[0]), vs[1..])
  }

  predicate Publishes(owner: string, s: seq<Entry>, v: Visit) {
    !v.seeding && !Known(s, v) && Publishable(v.t, owner)
  }

  function Published(owner: string, s: seq<Entry>, vs: seq<Visit>): seq<string>
    decreases vs
  {
    if vs == [] then []
    else (if Publishes(owner, s, vs[0]) then [vs[0].t.id] else []) + Published(owner, After(s, vs[0]), vs[1..])
  }

  // ---- The poller ----

  class TweetPoller {
    const owner: string
    var seen: seq<Entry>
    var published: seq<string>
    ghost var visits: seq<Visit>

    ghost predicate Valid()
      reads this
    {
      seen == SeenAfter([], visits) && published == Published(owner, [], visits)
    }

    constructor (owner: string)
      ensures Valid() && visits == [] && this.owner == owner
    {
      this.owner := owner;
      seen, published, visits := [], [], [];
    }

    /** The seeding loop of run; a failed fetch is None and seeds nothing. */
    method Seed(fetched: Option<seq<Visit>>)
      requires Valid()
      requires fetched.Some? ==> forall v :: v in fetched.value ==> v.seeding
      modifies this
      ensures Valid()
      ensures visits == old(visits) + fetched.GetOr([])
      ensures published == old(published)
    {
      var tweets := fetched.GetOr([]);
      for i := 0 to |tweets|
        invariant Valid() && visits == old(visits) + tweets[..i] && published == old(published)
      {
        SeedTweet(tweets[i]);
      }
      assert tweets[..|tweets|] == tweets;
    }

    method SeedTweet(v: Visit)
      requires Valid() && v.seeding
      modifies this
      ensures Valid() && visits == old(visits) + [v] && published == old(published)
    {
      AppendVisits(owner, [], visits, v);
      seen := Put(Reap(seen, v.dead, v.now), v.t.id, v.now);
      visits := visits + [v];
    }

    method Poll(fetched: Option<seq<Visit>>)
      requires Valid()
      requires fetched.Some? ==> forall v :: v in fetched.value ==> !v.seeding
      modifies this
      ensures Valid()
      ensures visits == old(visits) + fetched.GetOr([])
      ensures old(published) <= published
      ensures forall id :: id in published[|old(published)|..] ==>
                exists v :: v in fetched.GetOr([]) && v.t.id == id && v.t.userId == owner && v.t.retweetedBy.None?
                         && (v.t.parentId.None? || v.t.parentId.value == "")
    {
      var tweets := fetched.GetOr([]);
      ghost var added := [];
      for i := 0 to |tweets|
        invariant Valid() && visits == old(visits) + tweets[..i] && published == old(published) + added
        invariant forall id :: id in added ==>
                    exists v :: v in tweets && v.t.id == id && v.t.userId == owner && v.t.retweetedBy.None?
                             && (v.t.parentId.None? || v.t.parentId.value == "")
      {
        ghost var more := PollTweet(tweets[i]);
        added := added + more;
      }
      assert tweets[..|tweets|] == tweets;
    }

    method PollTweet(v: Visit) returns (ghost more: seq<string>)
      requires Valid() && !v.seeding
      modifies this
      ensures Valid() && visits == old(visits) + [v] && published == old(published) + more
      ensures more == [] || more == [v.t.id]
      ensures more != [] <==>
              !old(Known(seen, v)) && v.t.userId == owner && v.t.retweetedBy.None?
              && (v.t.parentId.None? || v.t.parentId.value == "")
    {
      more := if Publishes(owner, seen, v) then [v.t.id] else [];
      AppendVisits(owner, [], visits, v);
      seen := Reap(seen, v.dead, v.now);
      visits := visits + [v];
      if v.t.id in Keys(seen) {
        seen := Put(seen, v.t.id, v.now);
        return;
      }
      seen := Put(seen, v.t.id, v.now);
      if Publishable(v.t, owner) {
        published := published + [v.t.id];
      }
    }
  }

  lemma {:induction false} AppendVisits(owner: string, s: seq<Entry>, vs: seq<Visit>, v: Visit)
    ensures SeenAfter(s, vs + [v]) == After(SeenAfter(s, vs), v)
    ensures Published(owner, s, vs + [v]) ==
            Published(owner, s, vs) + (if Publishes(owner, SeenAfter(s, vs), v) then [v.t.id] else [])
    decreases vs
  {
    if vs == [] {
      assert [v][1..] == [];
    } else {
      assert (vs + [v])[1..] == vs[1..] + [v];
      AppendVisits(owner, After(s, vs[0]), vs[1..], v);
    }
  }

  // ---- A key that is refreshed in time stays ----

  function Ids(vs: seq<Visit>): set<string> {
    set v | v in vs :: v.t.id
  }

  ghost predicate Distinct(s: seq<Entry>) {
    forall i, j :: 0 <= i < j < |s| ==> s[i].key != s[j].key
  }

  /** x is held until expires, and only keys of others stand before it. */
  ghost predicate Held(s: seq<Entry>, x: string, expires: int, others: set<string>) {
    exists p :: 0 <= p < |s| && s[p] == Entry(x, expires) && forall i :: 0 <= i < p ==> s[i].key in others
  }

  lemma {:induction false} DropKeeps(s: seq<Entry>, key: string, p: nat) returns (q: nat)
    requires p < |s| && s[p].key != key
    ensures q <= p && q < |Drop(s, key)| && Drop(s, key)[q] == s[p]
    ensures forall i :: 0 <= i < q ==> Drop(s, key)[i] in s[..p]
  {
    if p == 0 {
      q := 0;
    } else {
      var rest := DropKeeps(s[1..], key, p - 1);
      q := if s[0].key == key then rest else rest + 1;
      assert forall e :: e in s[1..][..p - 1] ==> e in s[..p];
    }
  }

  lemma {:induction false} ReapKeeps(s: seq<Entry>, dead: set<string>, now: int, p: nat) returns (q: nat)
    requires p < |s| && now < s[p].expires
    ensures q <= p && q < |Reap(s, dead, now)| && Reap(s, dead, now)[q] == s[p]
    ensures forall i :: 0 <= i < q ==> Reap(s, dead, now)[i] in s[..p]
  {
    if p == 0 {
      q := 0;
    } else {
      var rest := ReapKeeps(s[1..], dead, now, p - 1);
      q := if s[0].key in dead && s[0].expires <= now then rest else rest + 1;
      assert forall e :: e in s[1..][..p - 1] ==> e in s[..p];
    }
  }

  lemma {:induction false} DropDistinct(s: seq<Entry>, key: string)
    requires Distinct(s)
    ensures Distinct(Drop(s, key)) && forall e :: e in Drop(s, key) ==> e in s && e.key != key
  {
    if s != [] {
      assert forall e :: e in s[1..] ==> e.key != s[0].key;
      DropDistinct(s[1..], key);
    }
  }

  lemma {:induction false} ReapDistinct(s: seq<Entry>, dead: set<string>, now: int)
    requires Distinct(s)
    ensures Distinct(Reap(s, dead, now)) && forall e :: e in Reap(s, dead, now) ==> e in s
  {
    if s != [] {
      assert forall e :: e in s[1..] ==> e.key != s[0].key;
      ReapDistinct(s[1..], dead, now);
    }
  }

  lemma ReapedKeys(s: seq<Entry>, dead: set<string>, now: int)
    requires Distinct(s)
    ensures forall k :: k in Keys(Reap(s, dead, now)) ==> k in Keys(s)
  {
    ReapDistinct(s, dead, now);
    forall k | k in Keys(Reap(s, dead, now)) ensures k in Keys(s) {
      var e :| e in Reap(s, dead, now) && e.key == k;
      var j :| 0 <= j < |s| && s[j] == e;
      assert Keys(s)[j] == k;
    }
  }

  lemma AfterDistinct(s: seq<Entry>, v: Visit)
    requires Distinct(s)
    ensures Distinct(After(s, v))
    ensures forall k :: k in Keys(After(s, v)) ==> k in Keys(s) || k == v.t.id
  {
    ReapDistinct(s, v.dead, v.now);
    DropDistinct(Reap(s, v.dead, v.now), v.t.id);
  }

  /** Adding key to a list that holds x at r behind few others keeps x within the capacity. */
  lemma PutKeeps(s: seq<Entry>, key: string, now: int, r: nat, others: set<string>)
    requires r < |s| && Distinct(s) && forall e :: e in s ==> e.key != key
    requires forall i :: 0 <= i < r ==> s[i].key in others
    requires |others + {key}| < SEEN_SIZE
    ensures Held(Take([Entry(key, now + SEEN_TTL)] + s, SEEN_SIZE), s[r].key, s[r].expires, others + {key})
  {
    var t := [Entry(key, now + SEEN_TTL)] + s;
    var front := Keys(t)[..r + 1];
    assert NoDup(front) by {
      assert forall i :: 1 <= i < |t| ==> Keys(t)[i] == s[i - 1].key;
    }
    NoDupFits(front, others + {key});
    assert Take(t, SEEN_SIZE)[r + 1] == s[r];
    assert forall i :: 1 <= i < r + 1 ==> Take(t, SEEN_SIZE)[i] == s[i - 1];
  }

  /** Another tweet is visited: x stays, unless it has expired or too many others came since. */
  lemma OtherVisit(s: seq<Entry>, v: Visit, x: string, expires: int, others: set<string>)
    requires Distinct(s) && Held(s, x, expires, others)
    requires v.t.id != x && v.now < expires && |others + {v.t.id}| < SEEN_SIZE
    ensures Held(After(s, v), x, expires, others + {v.t.id})
  {
    var p :| 0 <= p < |s| && s[p] == Entry(x, expires) && forall i :: 0 <= i < p ==> s[i].key in others;
    var reaped := Reap(s, v.dead, v.now);
    var q := ReapKeeps(s, v.dead, v.now, p);
    ReapDistinct(s, v.dead, v.now);
    var r := DropKeeps(reaped, v.t.id, q);
    DropDistinct(reaped, v.t.id);
    var dropped := Drop(reaped, v.t.id);
    forall i | 0 <= i < r ensures dropped[i].key in others {
      var j :| 0 <= j < q && reaped[j] == dropped[i];
      assert reaped[j] in s[..p];
    }
    PutKeeps(dropped, v.t.id, v.now, r, others);
  }

  lemma SameVisit(s: seq<Entry>, v: Visit)
    ensures Held(After(s, v), v.t.id, v.now + SEEN_TTL, {})
  {
    assert After(s, v)[0] == Entry(v.t.id, v.now + SEEN_TTL);
  }

  lemma HeldIsKnown(s: seq<Entry>, v: Visit, expires: int, others: set<string>)
    requires Held(s, v.t.id, expires, others) && v.now < expires
    ensures Known(s, v)
  {
    var p :| 0 <= p < |s| && s[p] == Entry(v.t.id, expires);
    var q := ReapKeeps(s, v.dead, v.now, p);
    assert Keys(Reap(s, v.dead, v.now))[q] == v.t.id;
  }

  // ---- Runs ----

  /** Between two visits of x at most SEEN_SIZE distinct ids are visited, x included. others are the ids
      visited since the last visit of x, None before the first. */
  predicate FewBetween(vs: seq<Visit>, x: string, others: Option<set<string>>) {
    vs == [] ||
    var id := vs[0].t.id;
    if id == x then (others.Some? ==> |others.value| < SEEN_SIZE) && FewBetween(vs[1..], x, Some({}))
    else FewBetween(vs[1..], x, if others.Some? then Some(others.value + {id}) else None)
  }

  /** Every later visit of x comes within a day of the one before, which entered it. */
  predicate InTime(vs: seq<Visit>, x: string, expires: Option<int>) {
    vs == [] ||
    if vs[0].t.id == x then
      (expires.Some? ==> vs[0].now < expires.value) && InTime(vs[1..], x, Some(vs[0].now + 24 * 60 * 60 * 1000))
    else InTime(vs[1..], x, expires)
  }

  ghost predicate Ordered(vs: seq<Visit>) {
    forall i, j :: 0 <= i < j < |vs| ==> vs[i].now <= vs[j].now
  }

  lemma {:induction false} FewAhead(vs: seq<Visit>, x: string, others: set<string>)
    requires FewBetween(vs, x, Some(others)) && x in Ids(vs)
    ensures |others| < SEEN_SIZE
  {
    var id := vs[0].t.id;
    if id != x {
      assert x in Ids(vs[1..]);
      FewAhead(vs[1..], x, others + {id});
      SubsetCard(others, others + {id});
    }
  }

  lemma {:induction false} InTimeAhead(vs: seq<Visit>, x: string, expires: int)
    requires InTime(vs, x, Some(expires)) && x in Ids(vs) && Ordered(vs)
    ensures vs[0].now < expires
  {
    if vs[0].t.id != x {
      assert x in Ids(vs[1..]);
      InTimeAhead(vs[1..], x, expires);
      assert vs[0].now <= vs[1].now;
    }
  }

  lemma {:induction false} UnvisitedUnpublished(owner: string, s: seq<Entry>, vs: seq<Visit>, x: string)
    requires x !in Ids(vs)
    ensures x !in Published(owner, s, vs)
    decreases vs
  {
    if vs != [] {
      assert vs[0] in vs;
      assert forall v :: v in vs[1..] ==> v in vs;
      UnvisitedUnpublished(owner, After(s, vs[0]), vs[1..], x);
    }
  }

  /** Once x is held it is never published again, whatever is evicted or expires meanwhile. */
  lemma {:induction false} NeverAgain(owner: string, s: seq<Entry>, vs: seq<Visit>, x: string, expires: int,
                                      others: set<string>)
    requires Distinct(s) && Held(s, x, expires, others) && x !in others
    requires FewBetween(vs, x, Some(others)) && InTime(vs, x, Some(expires)) && Ordered(vs)
    ensures x !in Published(owner, s, vs)
    decreases vs
  {
    if x !in Ids(vs) {
      UnvisitedUnpublished(owner, s, vs, x);
    } else {
      var v, rest := vs[0], vs[1..];
      AfterDistinct(s, v);
      if v.t.id == x {
        HeldIsKnown(s, v, expires, others);
        SameVisit(s, v);
        NeverAgain(owner, After(s, v), rest, x, v.now + SEEN_TTL, {});
      } else {
        assert x in Ids(rest);
        FewAhead(rest, x, others + {v.t.id});
        InTimeAhead(vs, x, expires);
        OtherVisit(s, v, x, expires, others);
        NeverAgain(owner, After(s, v), rest, x, expires, others + {v.t.id});
      }
    }
  }

  function FirstVisit(vs: seq<Visit>, x: string): (v: Visit)
    requires x in Ids(vs)
    ensures v in vs && v.t.id == x
  {
    if vs[0].t.id == x then vs[0]
    else
      assert x in Ids(vs[1..]);
      FirstVisit(vs[1..], x)
  }

  /** How often x was published is settled at its first visit: never when that was the seeding loop, once
      or never afterwards according to the tweet. */
  lemma {:induction false} FirstVisitDecides(owner: string, s: seq<Entry>, vs: seq<Visit>, x: string)
    requires Distinct(s) && x !in Keys(s) && x in Ids(vs)
    requires FewBetween(vs, x, None) && InTime(vs, x, None) && Ordered(vs)
    ensures var first := FirstVisit(vs, x);
            multiset(Published(owner, s, vs))[x] ==
            if !first.seeding && first.t.userId == owner && first.t.retweetedBy.None?
               && (first.t.parentId.None? || first.t.parentId.value == "")
            then 1 else 0
    decreases vs
  {
    var v, rest := vs[0], vs[1..];
    AfterDistinct(s, v);
    ReapDistinct(s, v.dead, v.now);
    if v.t.id == x {
      ReapedKeys(s, v.dead, v.now);
      SameVisit(s, v);
      NeverAgain(owner, After(s, v), rest, x, v.now + SEEN_TTL, {});
    } else {
      assert x in Ids(rest);
      FirstVisitDecides(owner, After(s, v), rest, x);
    }
  }

  // ---- Pages ----

  function Flatten(pages: seq<seq<Visit>>): seq<Visit> {
    if pages == [] then [] else pages[0] + Flatten(pages[1..])
  }

  /** Once an id is on a page it is on all later ones. */
  ghost predicate Stays(pages: seq<seq<Visit>>, x: string) {
    forall i, j :: 0 <= i < j < |pages| && x in Ids(pages[i]) ==> x in Ids(pages[j])
  }

  /** Two successive pages together hold at most 8192 distinct ids. */
  ghost predicate PagesFit(pages: seq<seq<Visit>>) {
    && (forall i :: 0 <= i < |pages| ==> |Ids(pages[i])| <= 8192)
    && (forall i :: 0 <= i < |pages| - 1 ==> |Ids(pages[i]) + Ids(pages[i + 1])| <= 8192)
  }

  /** Reading through cur, what is left of page: since its last visit x is followed only by ids of this page,
      or of this page and the one before when its visit on this page is still to come. */
  lemma {:induction false} PagesGiveFew(cur: seq<Visit>, page: seq<Visit>, rest: seq<seq<Visit>>, x: string,
                                        others: Option<set<string>>, before: set<string>)
    requires forall v :: v in cur ==> v in page
    requires Stays([page] + rest, x) && PagesFit([page] + rest) && |before + Ids(page)| <= SEEN_SIZE
    requires others.Some? ==> x in Ids(page) && x !in others.value
    requires others.Some? ==> others.value <= Ids(page) || (x in Ids(cur) && others.value <= before + Ids(page))
    requires others.None? ==> x in Ids(cur) || x !in Ids(page)
    ensures FewBetween(cur + Flatten(rest), x, others)
    decreases |rest|, |cur|
  {
    if cur == [] {
      if rest != [] {
        assert Flatten(rest) == rest[0] + Flatten(rest[1..]);
        assert cur + Flatten(rest) == rest[0] + Flatten(rest[1..]);
        assert [page] + rest == [page, rest[0]] + rest[1..];
        assert ([page] + rest)[1..] == [rest[0]] + rest[1..];
        PagesTail(page, rest, x);
        PagesGiveFew(rest[0], rest[0], rest[1..], x, others, Ids(page));
      }
    } else {
      var id := cur[0].t.id;
      assert cur[0] in cur && id in Ids(page);
      assert (cur + Flatten(rest))[1..] == cur[1..] + Flatten(rest);
      if id == x {
        if others.Some? {
          assert others.value <= (before + Ids(page)) - {x};
          SubsetCard(others.value, (before + Ids(page)) - {x});
        }
        PagesGiveFew(cur[1..], page, rest, x, Some({}), before);
      } else {
        assert x in Ids(cur) ==> x in Ids(cur[1..]);
        PagesGiveFew(cur[1..], page, rest, x, if others.Some? then Some(others.value + {id}) else None, before);
      }
    }
  }

  lemma PagesTail(page: seq<Visit>, rest: seq<seq<Visit>>, x: string)
    requires rest != [] && Stays([page] + rest, x) && PagesFit([page] + rest)
    ensures Stays(rest, x) && PagesFit(rest) && |Ids(page) + Ids(rest[0])| <= SEEN_SIZE
    ensures x in Ids(page) ==> x in Ids(rest[0])
    ensures [rest[0]] + rest[1..] == rest
  {
    var all := [page] + rest;
    assert all[0] == page && all[1] == rest[0];
    StaysTail(all, x);
    FitTail(all);
    assert all[1..] == rest;
  }

  lemma StaysTail(pages: seq<seq<Visit>>, x: string)
    requires pages != [] && Stays(pages, x)
    ensures Stays(pages[1..], x)
  {
  }

  lemma FitTail(pages: seq<seq<Visit>>)
    requires pages != [] && PagesFit(pages)
    ensures PagesFit(pages[1..])
  {
    var rest := pages[1..];
    assert forall i :: 0 <= i < |rest| ==> rest[i] == pages[i + 1];
    forall i | 0 <= i < |rest| - 1 ensures |Ids(rest[i]) + Ids(rest[i + 1])| <= SEEN_SIZE {
      var k := i + 1;
      assert |Ids(pages[k]) + Ids(pages[k + 1])| <= SEEN_SIZE;
    }
  }

  /** Over every run of fetches whose successive pages fit the seen-set together: a tweet that stays in the
      feed, re-added within the TTL, is published exactly once if it was publishable when first seen by a
      poll, and never if the seed held it. Failed fetches yield no visits. */
  lemma PublishedExactlyOnce(owner: string, pages: seq<seq<Visit>>, x: string)
    requires Stays(pages, x) && PagesFit(pages)
    requires x in Ids(Flatten(pages)) && Ordered(Flatten(pages)) && InTime(Flatten(pages), x, None)
    ensures var first := FirstVisit(Flatten(pages), x);
            multiset(Published(owner, [], Flatten(pages)))[x] ==
            if !first.seeding && first.t.userId == owner && first.t.retweetedBy.None?
               && (first.t.parentId.None? || first.t.parentId.value == "")
            then 1 else 0
  {
    assert pages != [];
    assert [pages[0]] + pages[1..] == pages;
    PagesGiveFew(pages[0], pages[0], pages[1..], x, None, {});
    assert {} + Ids(pages[0]) == Ids(pages[0]);
    FirstVisitDecides(owner, [], Flatten(pages), x);
  }

  // ---- The capacity condition is exact ----

  function IdSeq(vs: seq<Visit>): (r: seq<string>)
    ensures |r| == |vs| && forall i :: 0 <= i < |vs| ==> r[i] == vs[i].t.id
  {
    seq(|vs|, i requires 0 <= i < |vs| => vs[i].t.id)
  }

  lemma {:induction false} KeysOfDrop(s: seq<Entry>, key: string)
    ensures Keys(Drop(s, key)) == Without(Keys(s), key)
  {
    if s != [] {
      KeysOfDrop(s[1..], key);
      assert Keys(s)[1..] == Keys(s[1..]);
    }
  }

  lemma {:induction false} NothingReaped(s: seq<Entry>, now: int)
    ensures Reap(s, {}, now) == s
  {
    if s != [] {
      NothingReaped(s[1..], now);
    }
  }

  lemma KeysOfPut(s: seq<Entry>, key: string, now: int)
    ensures Keys(Put(s, key, now)) == TouchBounded(Keys(s), key, SEEN_SIZE)
  {
    KeysOfDrop(s, key);
    assert Keys([Entry(key, now + SEEN_TTL)] + Drop(s, key)) == Touch(Keys(s), key);
  }

  lemma {:induction false} SeenIsRecency(vs: seq<Visit>)
    requires forall v :: v in vs ==> v.dead == {}
    ensures Keys(SeenAfter([], vs)) == RecentBounded(IdSeq(vs), SEEN_SIZE)
  {
    if vs != [] {
      var init, v := vs[..|vs| - 1], vs[|vs| - 1];
      assert vs == init + [v] && v in vs;
      assert forall w :: w in init ==> w in vs;
      SeenIsRecency(init);
      AppendVisits("", [], init, v);
      NothingReaped(SeenAfter([], init), v.now);
      KeysOfPut(SeenAfter([], init), v.t.id, v.now);
      assert IdSeq(vs)[..|vs| - 1] == IdSeq(init);
    }
  }

  /** While nothing expires, a tweet last visited at position a is still known at its next visit exactly when
      fewer than SEEN_SIZE other ids were visited in between; otherwise it counts as new again. */
  lemma KnownIffFewBetween(vs: seq<Visit>, a: nat, next: Visit)
    requires forall v :: v in vs ==> v.dead == {}
    requires next.dead == {} && a < |vs| && next.t.id == vs[a].t.id && vs[a].t.id !in IdSeq(vs)[a + 1..]
    ensures Known(SeenAfter([], vs), next) <==> |Elems(IdSeq(vs)[a + 1..])| < 8192
  {
    SeenIsRecency(vs);
    NothingReaped(SeenAfter([], vs), next.now);
    HeldIffFewLaterUses(IdSeq(vs), a, SEEN_SIZE);
  }
}
