/** Cursor walks over a node's paged routes: the follower list and the user scan (nodefollowers.go, outbound.go). */
module Paging {
  import opened Seqs
  import opened Codecs

  const MAX_PAGES: nat := 100

  datatype Page<T> = Page(items: seq<T>, cursor: string)

  /** A server's answers: to the nth request of a walk, sent with a cursor. None stands for any failure. */
  type Server<!T> = (nat, string) -> Option<Page<T>>

  datatype Walked<T> = Walked(pages: seq<seq<T>>, requests: nat, ok: bool)

  predicate LastPage<T(==)>(p: Page<T>, cursor: string) {
    p.items == [] || p.cursor == "" || p.cursor == cursor
  }

  /** The pages a walk reads from request i on. */
  function Walk<T(==)>(server: Server<T>, i: nat, cursor: string): Walked<T>
    decreases MAX_PAGES - i
  {
    if i >= MAX_PAGES then Walked([], i, true)
    else match server(i, cursor)
      case None => Walked([], i + 1, false)
      case Some(p) =>
        if LastPage(p, cursor) then Walked([p.items], i + 1, true)
        else
          var rest := Walk(server, i + 1, p.cursor);
          Walked([p.items] + rest.pages, rest.requests, rest.ok)
  }

  function Concat<T>(pages: seq<seq<T>>): seq<T> {
    if pages == [] then [] else pages[0] + Concat(pages[1..])
  }

  /** Against any server a walk makes at most 100 requests, and it ends well only on a last page or after
      the hundredth. */
  lemma {:induction false} WalkIsBounded<T>(server: Server<T>, i: nat, cursor: string)
    requires i <= MAX_PAGES
    ensures var w := Walk(server, i, cursor); i <= w.requests <= 100 && |w.pages| <= w.requests - i
    decreases MAX_PAGES - i
  {
    if i < MAX_PAGES && server(i, cursor).Some? && !LastPage(server(i, cursor).value, cursor) {
      WalkIsBounded(server, i + 1, server(i, cursor).value.cursor);
    }
  }

  /** A walk fails on a failed page. It ends after an empty page, a page without a cursor, a page that repeats the
      cursor it was asked with, and the hundredth, and goes on after any other. */
  lemma WalkStopsIff<T>(server: Server<T>, i: nat, cursor: string)
    ensures i >= 100 ==> Walk(server, i, cursor) == Walked([], i, true)
    ensures i < 100 ==>
              match server(i, cursor)
              case None => Walk(server, i, cursor) == Walked([], i + 1, false)
              case Some(p) =>
                var rest := Walk(server, i + 1, p.cursor);
                Walk(server, i, cursor) ==
                if p.items == [] || p.cursor == "" || p.cursor == cursor then Walked([p.items], i + 1, true)
                else Walked([p.items] + rest.pages, rest.requests, rest.ok)
  {
  }

  /** The server answers request i, sent with cursors[i], with page i and the next cursor; an empty cursor or
      an empty page marks the end. */
  ghost predicate Serves<T>(server: Server<T>, pages: seq<seq<T>>, cursors: seq<string>) {
    && |cursors| == |pages| + 1 && |pages| > 0
    && cursors[0] == "" && (cursors[|pages|] == "" || pages[|pages| - 1] == [])
    && (forall i :: 0 <= i < |pages| - 1 ==> pages[i] != [])
    && (forall i :: 0 < i < |pages| ==> cursors[i] != "" && cursors[i] != cursors[i - 1])
    && (forall i: nat :: i < |pages| ==> server(i, cursors[i]) == Some(Page(pages[i], cursors[i + 1])))
  }

  /** Against such a server the walk reads exactly the first 100 pages, so all of them when there are no more. */
  lemma {:induction false} WalkReadsAll<T>(server: Server<T>, pages: seq<seq<T>>, cursors: seq<string>, i: nat)
    requires Serves(server, pages, cursors) && i < |pages| && i <= MAX_PAGES
    ensures var m := Min(|pages|, MAX_PAGES); i <= m && Walk(server, i, cursors[i]) == Walked(pages[i..m], m, true)
    decreases MAX_PAGES - i
  {
    var m := Min(|pages|, MAX_PAGES);
    if i < MAX_PAGES {
      assert server(i, cursors[i]) == Some(Page(pages[i], cursors[i + 1]));
      if i + 1 == |pages| {
        assert pages[i..m] == [pages[i]];
      } else {
        assert cursors[i + 1] != cursors[i];
        WalkReadsAll(server, pages, cursors, i + 1);
        assert pages[i..m] == [pages[i]] + pages[i + 1..m];
      }
    }
  }

  // ---- The follower list ----

  /** What one listed id contributes: the actor url of a Fediverse follower that resolves. */
  function Deliverable(resolve: string -> Option<string>, id: string): Option<string> {
    if IsBridgedUserID(id) then resolve(id) else None
  }

  function Urls(resolve: string -> Option<string>, ids: seq<string>): seq<string> {
    if ids == [] then []
    else
      var u := Deliverable(resolve, ids[0]);
      if u.Some? then [u.value] + Urls(resolve, ids[1..]) else Urls(resolve, ids[1..])
  }

  lemma {:induction false} UrlsConcat(resolve: string -> Option<string>, a: seq<string>, b: seq<string>)
    ensures Urls(resolve, a + b) == Urls(resolve, a) + Urls(resolve, b)
  {
    if a == [] {
      assert a + b == b;
    } else {
      var rest := a[1..];
      UrlsConcat(resolve, rest, b);
      assert a + b == [a[0]] + (rest + b) && (a + b)[1..] == rest + b;
    }
  }

  /** What one listed id contributes, and with UrlsConcat any list: an "ap:" id or a handle that resolves, and
      nothing else. */
  lemma UrlsOne(resolve: string -> Option<string>, id: string)
    ensures Urls(resolve, [id]) ==
            if ((|id| >= 3 && id[..3] == "ap:") || '@' in id) && resolve(id).Some? then [resolve(id).value] else []
  {
    assert [id][1..] == [];
    BridgedIff(id);
  }

  method AddUrls(resolve: string -> Option<string>, urls: seq<string>, ids: seq<string>) returns (r: seq<string>)
    ensures r == urls + Urls(resolve, ids)
  {
    r := urls;
    for i := 0 to |ids|
      invariant r == urls + Urls(resolve, ids[..i])
    {
      UrlsConcat(resolve, ids[..i], [ids[i]]);
      assert ids[..i + 1] == ids[..i] + [ids[i]];
      if !IsBridgedUserID(ids[i]) {
        continue;
      }
      match resolve(ids[i])
      case None =>
      case Some(u) => r := r + [u];
    }
    assert ids[..|ids|] == ids;
  }

  /** What a list read so far becomes when the rest of the walk is read. */
  function Finished(resolve: string -> Option<string>, urls: seq<string>, rest: Walked<string>): Option<seq<string>> {
    if rest.ok then Some(urls + Urls(resolve, Concat(rest.pages))) else None
  }

  lemma FinishedStep(server: Server<string>, resolve: string -> Option<string>, i: nat, cursor: string,
                     urls: seq<string>)
    requires i < MAX_PAGES && server(i, cursor).Some?
    ensures var p := server(i, cursor).value;
            Finished(resolve, urls, Walk(server, i, cursor)) ==
            if LastPage(p, cursor) then Some(urls + Urls(resolve, p.items))
            else Finished(resolve, urls + Urls(resolve, p.items), Walk(server, i + 1, p.cursor))
    ensures var p := server(i, cursor).value;
            Walk(server, i, cursor).requests ==
            if LastPage(p, cursor) then i + 1 else Walk(server, i + 1, p.cursor).requests
  {
    var p := server(i, cursor).value;
    var rest := Walk(server, i + 1, p.cursor).pages;
    if LastPage(p, cursor) {
      assert Concat([p.items]) == p.items + Concat([p.items][1..]) == p.items;
    } else {
      assert ([p.items] + rest)[1..] == rest;
      UrlsConcat(resolve, p.items, Concat(rest));
      assert urls + (Urls(resolve, p.items) + Urls(resolve, Concat(rest)))
          == urls + Urls(resolve, p.items) + Urls(resolve, Concat(rest));
    }
  }

  lemma FinishedFromStart(resolve: string -> Option<string>, w: Walked<string>)
    ensures Finished(resolve, [], w) == if w.ok then Some(Urls(resolve, Concat(w.pages))) else None
  {
    assert [] + Urls(resolve, Concat(w.pages)) == Urls(resolve, Concat(w.pages));
  }

  lemma FinishedAtEnd(server: Server<string>, resolve: string -> Option<string>, i: nat, cursor: string,
                      urls: seq<string>)
    requires i >= MAX_PAGES || server(i, cursor).None?
    ensures Finished(resolve, urls, Walk(server, i, cursor)) == (if i >= MAX_PAGES then Some(urls) else None)
    ensures Walk(server, i, cursor).requests == if i >= MAX_PAGES then i else i + 1
  {
    assert urls + [] == urls;
  }

  /** The first failed page fails the whole list. requests counts the page requests made. */
  method List(server: Server<string>, resolve: string -> Option<string>) returns (r: Option<seq<string>>, requests: nat)
    ensures var w := Walk(server, 0, "");
            r == (if w.ok then Some(Urls(resolve, Concat(w.pages))) else None) && requests == w.requests
    ensures requests <= 100
  {
    FinishedFromStart(resolve, Walk(server, 0, ""));
    ghost var whole, total := Finished(resolve, [], Walk(server, 0, "")), Walk(server, 0, "").requests;
    var cursor, urls: seq<string> := "", [];
    requests := 0;
    while requests < MAX_PAGES
      invariant requests <= MAX_PAGES && Walk(server, requests, cursor).requests == total
      invariant Finished(resolve, urls, Walk(server, requests, cursor)) == whole
    {
      var answer := server(requests, cursor);
      if answer.None? {
        FinishedAtEnd(server, resolve, requests, cursor, urls);
        return None, requests + 1;
      }
      FinishedStep(server, resolve, requests, cursor, urls);
      requests := requests + 1;
      urls := AddUrls(resolve, urls, answer.value.items);
      if LastPage(answer.value, cursor) {
        return Some(urls), requests;
      }
      cursor := answer.value.cursor;
    }
    FinishedAtEnd(server, resolve, requests, cursor, urls);
    r := Some(urls);
  }

  /** Against a server that serves a fixed list page by page, List's result is the deliverable followers of
      its first 100 pages in order: the whole list when it has no more. */
  lemma ListReadsWholeList(server: Server<string>, resolve: string -> Option<string>, pages: seq<seq<string>>,
                           cursors: seq<string>)
    requires Serves(server, pages, cursors)
    ensures var w := Walk(server, 0, "");
            w.ok && w.requests == Min(|pages|, 100)
            && Urls(resolve, Concat(w.pages)) == Urls(resolve, Concat(pages[..Min(|pages|, 100)]))
    ensures |pages| <= 100 ==> Urls(resolve, Concat(Walk(server, 0, "").pages)) == Urls(resolve, Concat(pages))
  {
    WalkReadsAll(server, pages, cursors, 0);
    assert pages[0..Min(|pages|, 100)] == pages[..Min(|pages|, 100)];
    if |pages| <= MAX_PAGES {
      assert pages[..|pages|] == pages;
    }
  }
}
