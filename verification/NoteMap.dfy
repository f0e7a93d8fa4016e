/** Rendering an ActivityPub note as a Warpnet tweet (mastodon-map.go). */
module NoteMap {
  import opened Seqs
  import opened Strings
  import opened Documents
  import opened Codecs
  import opened QuoteText

  /** url.Parse, and replacing line-break tags and stripping the others from HTML. */
  datatype Lib = Lib(parse: string -> Option<Url>, stripTags: string -> string)

  function HtmlToText(lib: Lib, html: string): (t: string)
    ensures Trimmed(t)
  {
    TrimSpace(lib.stripTags(html))
  }

  // ---- Quote properties ----

  function QuoteProperty(note: Json, key: string): GoString {
    var u := AsString(Field(note, key));
    if u == "" then AsString(Field(Field(note, key), "href")) else u
  }

  function FirstHttps(note: Json, keys: seq<string>): GoString {
    if keys == [] then ""
    else
      var u := QuoteProperty(note, keys[0]);
      if HasPrefix(u, HTTPS) then u else FirstHttps(note, keys[1..])
  }

  function QuotedNoteURL(note: Json): GoString {
    FirstHttps(note, ["quoteUri", "quoteUrl", "_misskey_quote", "quote"])
  }

  /** The quoted url is the first of the four properties, each a string, an object's id or its href, that holds an
      https url; without one there is none. */
  lemma QuotedNoteURLIs(note: Json)
    ensures var a, b := QuoteProperty(note, "quoteUri"), QuoteProperty(note, "quoteUrl");
            var c, d := QuoteProperty(note, "_misskey_quote"), QuoteProperty(note, "quote");
            QuotedNoteURL(note) ==
            if HasPrefix(a, "https://") then a else if HasPrefix(b, "https://") then b
            else if HasPrefix(c, "https://") then c else if HasPrefix(d, "https://") then d else ""
  {
    FirstHttpsCons(note, "quote", []);
    FirstHttpsCons(note, "_misskey_quote", ["quote"]);
    FirstHttpsCons(note, "quoteUrl", ["_misskey_quote", "quote"]);
    FirstHttpsCons(note, "quoteUri", ["quoteUrl", "_misskey_quote", "quote"]);
    assert ["quote"] + [] == ["quote"];
    assert ["_misskey_quote"] + ["quote"] == ["_misskey_quote", "quote"];
    assert ["quoteUrl"] + ["_misskey_quote", "quote"] == ["quoteUrl", "_misskey_quote", "quote"];
    assert ["quoteUri"] + ["quoteUrl", "_misskey_quote", "quote"]
        == ["quoteUri", "quoteUrl", "_misskey_quote", "quote"];
  }

  lemma FirstHttpsCons(note: Json, key: string, rest: seq<string>)
    ensures FirstHttps(note, [key] + rest) ==
            if HasPrefix(QuoteProperty(note, key), "https://") then QuoteProperty(note, key) else FirstHttps(note, rest)
  {
    assert ([key] + rest)[1..] == rest;
  }

  lemma QuotePropertyIs(note: Json, key: string, u: GoString)
    requires u != ""
    ensures Field(note, key) == Str(u) ==> QuoteProperty(note, key) == u
    ensures Field(note, key).Obj? && Field(Field(note, key), "id") == Str(u) ==> QuoteProperty(note, key) == u
    ensures var v := Field(note, key);
            v.Obj? && Field(v, "id").Null? && Field(v, "href") == Str(u) ==> QuoteProperty(note, key) == u
  {
  }

  function Split(s: string, c: char): (parts: seq<string>)
    ensures parts != []
    decreases |s|
  {
    var i := Index(s, [c]);
    if i < 0 then [s] else [s[..i]] + Split(s[i + 1..], c)
  }

  function TrimBoth(p: string): string {
    if p != "" && p[0] == '/' then TrimBoth(p[1..]) else TrimSlashes(p)
  }

  /** The author a status url names, "" when it names none. */
  function StatusAuthorHandle(lib: Lib, statusURL: string): string {
    var u := lib.parse(statusURL);
    if u.None? || u.value.host == "" then ""
    else
      var segs := Split(TrimBoth(u.value.path), '/');
      if |segs| >= 3 && segs[0] == "users" && segs[1] != "" && segs[2] == "statuses" then segs[1] + "@" + u.value.host
      else if |segs| >= 2 && |segs[0]| > 1 && segs[0][0] == '@' then segs[0][1..] + "@" + u.value.host
      else ""
  }

  lemma SplitHead(a: string, b: string)
    requires '/' !in a
    ensures Split(a + "/" + b, '/') == [a] + Split(b, '/')
  {
    CutAtFirst(a, "/", b);
    var s := a + "/" + b;
    var i := Index(s, "/");
    assert Cut(s, "/") == Some((s[..i], s[i + 1..]));
  }

  lemma SplitWhole(a: string)
    requires '/' !in a
    ensures Split(a, '/') == [a]
  {
    IndexHits(a, '/');
  }

  lemma TrimOneSlash(p: string)
    requires Bare(p)
    ensures TrimBoth("/" + p) == p
  {
    assert ("/" + p)[1..] == p;
  }

  /** A path that neither starts nor ends in a slash. */
  predicate Bare(p: string) {
    p != "" && p[0] != '/' && p[|p| - 1] != '/'
  }

  lemma BareJoin(a: string, b: string)
    requires a != "" && '/' !in a && Bare(b)
    ensures Bare(a + "/" + b)
  {
    LastOf(a + "/", b);
    assert (a + "/" + b)[0] == a[0] && a[0] in a;
  }

  lemma TwoSegments(a: string, b: string)
    requires a != "" && b != "" && '/' !in a && '/' !in b
    ensures Bare(a + "/" + b) && Split(a + "/" + b, '/') == [a, b]
  {
    assert b[0] in b && b[|b| - 1] in b;
    BareJoin(a, b);
    SplitHead(a, b);
    SplitWhole(b);
  }

  lemma FourSegments(a: string, b: string, c: string, d: string)
    requires a != "" && b != "" && c != "" && d != "" && '/' !in a && '/' !in b && '/' !in c && '/' !in d
    ensures Split(TrimBoth("/" + (a + "/" + (b + "/" + (c + "/" + d)))), '/') == [a, b, c, d]
  {
    TwoSegments(c, d);
    BeforeTwo(a, b, c + "/" + d, [c, d]);
    assert [a, b] + [c, d] == [a, b, c, d];
  }

  lemma BeforeTwo(a: string, b: string, rest: string, segs: seq<string>)
    requires a != "" && b != "" && '/' !in a && '/' !in b && Bare(rest) && Split(rest, '/') == segs
    ensures Split(TrimBoth("/" + (a + "/" + (b + "/" + rest))), '/') == [a, b] + segs
  {
    BareJoin(b, rest);
    BareJoin(a, b + "/" + rest);
    TrimOneSlash(a + "/" + (b + "/" + rest));
    SplitHead(b, rest);
    SplitHead(a, b + "/" + rest);
  }

  lemma UsersSegments(name: string, id: string)
    requires name != "" && id != "" && '/' !in name && '/' !in id
    ensures Split(TrimBoth("/users/" + name + "/statuses/" + id), '/') == ["users", name, "statuses", id]
  {
    UsersPath(name, id);
    FourSegments("users", name, "statuses", id);
  }

  lemma LastOf(a: string, b: string)
    requires b != ""
    ensures (a + b)[|a + b| - 1] == b[|b| - 1] && b[|b| - 1] in b
  {
  }

  lemma AtSegments(name: string, id: string)
    requires name != "" && id != "" && '/' !in name && '/' !in id
    ensures Split(TrimBoth("/@" + name + "/" + id), '/') == ["@" + name, id]
  {
    assert "/@" + name + "/" + id == "/" + ("@" + name + "/" + id);
    TwoSegments("@" + name, id);
    TrimOneSlash("@" + name + "/" + id);
  }

  lemma HandleBySegments(lib: Lib, url: string, u: Url, segs: seq<string>)
    requires lib.parse(url) == Some(u) && u.host != "" && Split(TrimBoth(u.path), '/') == segs
    ensures |segs| == 4 && segs[0] == "users" && segs[1] != "" && segs[2] == "statuses" ==>
              StatusAuthorHandle(lib, url) == segs[1] + "@" + u.host
    ensures |segs| == 2 && |segs[0]| > 1 && segs[0][0] == '@' ==>
              StatusAuthorHandle(lib, url) == segs[0][1..] + "@" + u.host
  {
  }

  /** A status url of either form names its author. */
  lemma StatusAuthorIs(lib: Lib, url: string, u: Url, name: string, id: string)
    requires lib.parse(url) == Some(u) && u.host != "" && name != "" && id != "" && '/' !in name && '/' !in id
    requires u.path == "/users/" + name + "/statuses/" + id || u.path == "/@" + name + "/" + id
    ensures StatusAuthorHandle(lib, url) == name + "@" + u.host
  {
    if u.path == "/@" + name + "/" + id {
      AtSegments(name, id);
      assert ("@" + name)[1..] == name;
      HandleBySegments(lib, url, u, ["@" + name, id]);
    } else {
      UsersSegments(name, id);
      HandleBySegments(lib, url, u, ["users", name, "statuses", id]);
    }
  }

  lemma UsersPath(name: string, id: string)
    ensures "/users/" + name + "/statuses/" + id == "/" + ("users" + "/" + (name + "/" + ("statuses" + "/" + id)))
  {
    assert "/statuses/" + id == "/" + ("statuses" + "/" + id);
    Assoc("/users/", name, "/statuses/" + id);
    Assoc("/users/" + name, "/statuses/", id);
    assert "/users/" + (name + ("/" + ("statuses" + "/" + id)))
        == "/" + ("users" + "/" + (name + ("/" + ("statuses" + "/" + id))));
  }

  function AuthorOf(lib: Lib, statusURL: string): Option<string> {
    var handle := StatusAuthorHandle(lib, statusURL);
    if handle != "" then Some(handle) else None
  }

  // ---- What a text says about itself ----

  datatype Reading = Quotes(url: string, comment: string) | Answers(url: string, comment: string) | Unmarked

  /** How a note's text is read, given its quote property ("" without one). */
  function ReadText(property: string, text: string): Reading {
    var quote, prefix := SplitREQuote(text), SplitREPrefix(text);
    if property != "" then Quotes(property, NonEmptyOr(StripQuoteFallback(text), text))
    else if quote.Some? && quote.value.1 != "" then Quotes(quote.value.0, quote.value.1)
    else if prefix.Some? then Answers(prefix.value.0, NonEmptyOr(Some(prefix.value.1), text))
    else Unmarked
  }

  function NonEmptyOr(s: Option<string>, default: string): string {
    if s.Some? && s.value != "" then s.value else default
  }

  /** Without a property, a text quotes exactly when it ends in a quote under a comment. */
  lemma QuotesIff(text: string, url: string, comment: string)
    ensures ReadText("", text) == Quotes(url, comment) <==> comment != "" && EndsInQuote(text, url, comment)
  {
    SplitREQuoteIff(text, url, comment);
  }

  ghost predicate HasQuote(text: string) {
    exists url, comment :: comment != "" && EndsInQuote(text, url, comment)
  }

  lemma HasQuoteIff(text: string)
    ensures HasQuote(text) <==> ReadText("", text).Quotes?
  {
    if HasQuote(text) {
      var url, comment :| comment != "" && EndsInQuote(text, url, comment);
      QuotesIff(text, url, comment);
    }
    if ReadText("", text).Quotes? {
      QuotesIff(text, ReadText("", text).url, ReadText("", text).comment);
    }
  }

  /** It answers exactly when it does not quote and opens with the mark; the text after the url is the answer,
      or all of it when nothing is there. */
  lemma AnswersIff(text: string, url: string, rest: string)
    ensures StartsWithQuote(text, url, rest) && !HasQuote(text) ==>
              ReadText("", text) == Answers(url, if rest == "" then text else rest)
    ensures ReadText("", text).Answers? ==>
              && !HasQuote(text)
              && StartsWithQuote(text, SplitREPrefix(text).value.0, SplitREPrefix(text).value.1)
  {
    HasQuoteIff(text);
    SplitREPrefixIff(text, url, rest);
    if ReadText("", text).Answers? {
      SplitREPrefixIff(text, SplitREPrefix(text).value.0, SplitREPrefix(text).value.1);
    }
  }

  /** Reading undoes writing a quote under its comment. */
  lemma QuoteReadsBack(url: string, comment: string)
    requires IsHttps(url) && Trimmed(comment) && comment != ""
    ensures ReadText("", comment + "\n" + RE + url) == Quotes(url, comment)
  {
    QuoteRoundTrip(comment, url);
  }

  /** Reading undoes writing the answered url above a text, exactly when that text does not end in a quote
      itself. */
  lemma AnswerReadsBackIff(url: string, comment: string)
    requires IsHttps(url) && Trimmed(comment) && comment != ""
    ensures ReadText("", RE + (url + " " + comment)) == Answers(url, comment) <==> SplitREQuote(comment).None?
  {
    var text := RE + (url + " " + comment);
    WrittenIsPrefix(url, comment, " ");
    OnlyQuoteIsBelow(url, comment);
    PrefixRead(text, url, comment);
  }

  lemma OnlyQuoteIsBelow(url: string, comment: string)
    requires IsHttps(url) && Trimmed(comment) && comment != ""
    ensures var quote := SplitREQuote(RE + (url + " " + comment));
            quote.Some? && quote.value.1 != "" <==> SplitREQuote(comment).Some?
  {
    WrittenIsPrefix(url, comment, " ");
    NoQuoteInRest(url, " ", comment);
    var below := SplitREQuote(comment);
    if below.Some? {
      QuoteAfterHead(url, " ", comment, below.value.0, below.value.1);
    }
  }

  lemma PrefixRead(text: string, url: string, comment: string)
    requires SplitREPrefix(text) == Some((url, comment)) && comment != ""
    ensures ReadText("", text) == Answers(url, comment) <==>
            !(SplitREQuote(text).Some? && SplitREQuote(text).value.1 != "")
  {
  }

  // ---- Notes ----

  /** A tweet that answers nothing is its own root; an answer's root is its parent. */
  predicate Threaded(t: Tweet) {
    t.rootId == (if t.parentId.Some? then t.parentId.value else t.id) && t.rootId != ""
  }

  function ImageUrl(attachment: Json): Option<string> {
    var u := AsString(Field(attachment, "url"));
    if attachment.Obj? && HasPrefix(StringOnly(Field(attachment, "mediaType")), "image/") && u != "" then
      Some(u)
    else None
  }

  /** With a quote property the note quotes it, and its text loses a fallback unless nothing else is there. */
  lemma PropertyQuotes(property: string, text: string, rest: string)
    requires property != ""
    ensures ReadText(property, text).Quotes? && ReadText(property, text).url == property
    ensures StripQuoteFallback(text) == Some(rest) && rest != "" ==> ReadText(property, text).comment == rest
    ensures StripQuoteFallback(text).None? || StripQuoteFallback(text) == Some("") ==>
              ReadText(property, text).comment == text
  {
  }

  lemma ImageUrlIs(attachment: Json, u: GoString)
    ensures ImageUrl(attachment) == Some(u) <==>
            && attachment.Obj? && u != "" && AsString(Field(attachment, "url")) == u
            && Field(attachment, "mediaType").Str? && HasPrefix(Field(attachment, "mediaType").text, "image/")
  {
  }

  lemma AnsweredIsHttps(property: string, text: string)
    ensures ReadText(property, text).Answers? ==> ReadText(property, text).url != ""
  {
  }

  method NoteToTweet(lib: Lib, authorHandle: string, note: Json) returns (r: Option<Tweet>)
    ensures r.Some? <==> TypeOf(note) == "Note" && AsString(Field(note, "id")) != ""
    ensures r.Some? ==> Threaded(r.value) && r.value.id == AsString(Field(note, "id")) && r.value.network == "mastodon"
    ensures r.Some? ==> r.value.userId == r.value.username
    ensures r.Some? ==> r.value.userId == if authorHandle != "" then authorHandle
            else HandleFromActorURL(lib.parse, AsString(Field(note, "attributedTo")))
    ensures r.Some? ==>
              var text, parent := HtmlToText(lib, AsString(Field(note, "content"))), AsString(Field(note, "inReplyTo"));
              var reading := ReadText(QuotedNoteURL(note), text);
              && r.value.quotedTweetId == (if reading.Quotes? then Some(reading.url) else None)
              && r.value.parentId ==
                  (if parent != "" then Some(parent) else if reading.Answers? then Some(reading.url) else None)
              && r.value.text ==
                  (if reading.Quotes? || (reading.Answers? && parent == "") then reading.comment else text)
              && (r.value.text == "" <==> text == "")
    ensures r.Some? ==>
              r.value.quotedUserId ==
              if r.value.quotedTweetId.None? then None else AuthorOf(lib, r.value.quotedTweetId.value)
    ensures r.Some? ==> r.value.imageKeys == FilterMap(AsSlice(Field(note, "attachment")), ImageUrl)
    ensures r.Some? ==> r.value.retweetedBy.None? && r.value.parentUserId.None?
  {
    if TypeOf(note) != "Note" || AsString(Field(note, "id")) == "" {
      return None;
    }
    var id, parent := AsString(Field(note, "id")), AsString(Field(note, "inReplyTo"));
    var username := authorHandle;
    if username == "" {
      username := HandleFromActorURL(lib.parse, AsString(Field(note, "attributedTo")));
    }
    var text := HtmlToText(lib, AsString(Field(note, "content")));
    var t := NO_TWEET.(id := id, rootId := id, text := text, userId := username, username := username,
                      network := "mastodon");
    if parent != "" {
      t := t.(rootId := parent, parentId := Some(parent));
    }
    t := Heed(lib, t, QuotedNoteURL(note));
    var images := Images(AsSlice(Field(note, "attachment")));
    return Some(t.(imageKeys := images));
  }

  /** What the quote property and the text's own conventions make of a fresh tweet. */
  method Heed(lib: Lib, t: Tweet, property: string) returns (r: Tweet)
    requires t.quotedTweetId.None? && t.quotedUserId.None? && Threaded(t) && t.id != ""
    ensures var reading := ReadText(property, t.text);
            && r == t.(rootId := r.rootId, parentId := r.parentId, text := r.text,
                       quotedTweetId := r.quotedTweetId, quotedUserId := r.quotedUserId)
            && r.quotedTweetId == (if reading.Quotes? then Some(reading.url) else None)
            && r.quotedUserId == (if reading.Quotes? then AuthorOf(lib, reading.url) else None)
            && r.parentId == (if reading.Answers? && t.parentId.None? then Some(reading.url) else t.parentId)
            && r.text == (if reading.Quotes? || (reading.Answers? && t.parentId.None?) then reading.comment else t.text)
    ensures Threaded(r) && (r.text == "" <==> t.text == "")
  {
    r := t;
    var quote, prefix := SplitREQuote(t.text), SplitREPrefix(t.text);
    AnsweredIsHttps(property, t.text);
    ReadingOfNothing(property);
    if property != "" {
      r := SetQuoted(lib, r, property);
      var comment := StripQuoteFallback(t.text);
      if comment.Some? && comment.value != "" {
        r := r.(text := comment.value);
      }
    } else if quote.Some? && quote.value.1 != "" {
      r := SetQuoted(lib, r, quote.value.0).(text := quote.value.1);
    } else if t.parentId.None? && prefix.Some? {
      r := r.(rootId := prefix.value.0, parentId := Some(prefix.value.0));
      if prefix.value.1 != "" {
        r := r.(text := prefix.value.1);
      }
    }
  }

  /** An empty text is read as plain, or as a quote for the property's sake. */
  lemma ReadingOfNothing(property: string)
    ensures StripQuoteFallback("").None? && (property == "" ==> ReadText(property, "").Unmarked?)
  {
  }

  function SetQuoted(lib: Lib, t: Tweet, qURL: string): Tweet {
    t.(quotedTweetId := Some(qURL),
       quotedUserId := if AuthorOf(lib, qURL).Some? then AuthorOf(lib, qURL) else t.quotedUserId)
  }

  method Images(attachments: seq<Json>) returns (keys: seq<string>)
    ensures keys == FilterMap(attachments, ImageUrl)
  {
    keys := [];
    for i := 0 to |attachments|
      invariant keys == FilterMap(attachments[..i], ImageUrl)
    {
      FilterMapConcat(attachments[..i], [attachments[i]], ImageUrl);
      assert attachments[..i + 1] == attachments[..i] + [attachments[i]];
      var key := ImageUrl(attachments[i]);
      if key.Some? {
        keys := keys + [key.value];
      }
    }
    assert attachments[..|attachments|] == attachments;
  }
}
