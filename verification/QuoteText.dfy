/** The "RE: <status url>" text conventions for quotes and replies (mastodon-map.go), on ASCII text. */
module QuoteText {
  import opened Seqs
  import opened Strings

  // ---- Whitespace ----

  predicate IsSpace(c: char) {
    c == ' ' || '\t' <= c <= '\r'
  }

  lemma SpacesAre(c: char)
    ensures IsSpace(c) <==> c as int in {0x09, 0x0a, 0x0b, 0x0c, 0x0d, 0x20}
  {
  }

  predicate NoSpace(s: string) {
    forall i :: 0 <= i < |s| ==> !IsSpace(s[i])
  }

  predicate AllSpace(s: string) {
    forall i :: 0 <= i < |s| ==> IsSpace(s[i])
  }

  predicate Trimmed(s: string) {
    s == "" || (!IsSpace(s[0]) && !IsSpace(s[|s| - 1]))
  }

  /** The length of the leading run of non-spaces (strings.IndexFunc), |s| when there is no space. */
  function WordLength(s: string): (n: nat)
    ensures n <= |s| && forall i :: 0 <= i < n ==> !IsSpace(s[i])
    ensures n < |s| ==> IsSpace(s[n])
  {
    if s == "" || IsSpace(s[0]) then 0 else 1 + WordLength(s[1..])
  }

  /** The number of leading spaces. */
  function Lead(s: string): (n: nat)
    ensures n <= |s| && forall i :: 0 <= i < n ==> IsSpace(s[i])
    ensures n < |s| ==> !IsSpace(s[n])
  {
    if s != "" && IsSpace(s[0]) then 1 + Lead(s[1..]) else 0
  }

  /** Where the trailing spaces start. */
  function Tail(s: string): (n: nat)
    ensures n <= |s| && forall i :: n <= i < |s| ==> IsSpace(s[i])
    ensures n > 0 ==> !IsSpace(s[n - 1])
  {
    if s != "" && IsSpace(s[|s| - 1]) then Tail(s[..|s| - 1]) else |s|
  }

  /** strings.TrimSpace */
  function TrimSpace(s: string): (t: string)
    ensures Trimmed(t)
  {
    var t := s[Lead(s)..];
    t[..Tail(t)]
  }

  /** Trimming recovers a trimmed text from any surrounding whitespace. */
  lemma TrimDropsAround(l: string, s: string, r: string)
    requires AllSpace(l) && AllSpace(r) && Trimmed(s)
    ensures TrimSpace(l + s + r) == s
  {
    var whole := l + s + r;
    var a := Lead(whole);
    assert forall i :: 0 <= i < |l| ==> whole[i] == l[i];
    assert forall i :: |l + s| <= i < |whole| ==> whole[i] == r[i - |l + s|];
    if s != "" {
      assert whole[|l|] == s[0] && whole[|l + s| - 1] == s[|s| - 1];
      assert a == |l|;
      assert whole[a..] == s + r;
      assert forall i :: |s| <= i < |s + r| ==> (s + r)[i] == r[i - |s|];
      assert (s + r)[|s| - 1] == s[|s| - 1];
      assert Tail(s + r) == |s|;
    }
  }

  lemma TrimOfTrimmed(s: string)
    requires Trimmed(s)
    ensures TrimSpace(s) == s
  {
    TrimDropsAround("", s, "");
    assert "" + s + "" == s;
  }

  lemma Assoc(a: string, b: string, c: string)
    ensures a + b + c == a + (b + c)
  {
  }

  // ---- A trailing "RE: <url>" ----

  const RE := "RE: "
  const HTTPS := "https://"
  const RE_HTTPS := "RE: https://"

  /** The quoted url and the comment before it (splitREQuote). */
  function SplitREQuote(text: string): Option<(string, string)> {
    var trimmed := TrimSpace(text);
    var i := LastIndex(trimmed, RE_HTTPS);
    if i < 0 || (i > 0 && !IsSpace(trimmed[i - 1])) then None
    else
      var url := trimmed[i + |RE|..];
      if WordLength(url) < |url| then None else Some((url, TrimSpace(trimmed[..i])))
  }

  predicate IsHttps(url: string) {
    HasPrefix(url, HTTPS) && NoSpace(url)
  }

  lemma HttpsNotEmpty(url: string)
    requires IsHttps(url)
    ensures url != "" && Trimmed(url)
  {
  }

  lemma WordLengthIsAll(s: string)
    ensures WordLength(s) == |s| <==> NoSpace(s)
  {
  }

  /** A quote mark, at the start or after a space, from which the url runs to the end. */
  ghost predicate QuoteAt(t: string, i: int) {
    0 <= i <= |t| - 4 && t[i..i + 4] == RE && (i > 0 ==> IsSpace(t[i - 1])) && IsHttps(t[i + 4..])
  }

  lemma MarkIs(t: string, i: nat)
    ensures OccursAt(t, RE_HTTPS, i) <==> i + 4 <= |t| && t[i..i + 4] == RE && HasPrefix(t[i + 4..], HTTPS)
  {
    assert RE_HTTPS == RE + HTTPS;
    if OccursAt(t, RE_HTTPS, i) {
      assert t[i..i + 12][..4] == t[i..i + 4] && t[i..i + 12][4..] == t[i + 4..][..8];
      assert RE_HTTPS[..4] == RE && RE_HTTPS[4..] == HTTPS;
    }
    if i + 4 <= |t| && t[i..i + 4] == RE && HasPrefix(t[i + 4..], HTTPS) {
      assert t[i..i + 12] == t[i..i + 4] + t[i + 4..][..8];
    }
  }

  lemma SpaceInMark(t: string, i: nat)
    requires i + 4 <= |t| && t[i..i + 4] == RE
    ensures t[i] == 'R' && t[i + 1] == 'E' && t[i + 2] == ':' && t[i + 3] == ' '
  {
    var m := t[i..i + 4];
    assert m[0] == t[i] && m[1] == t[i + 1] && m[2] == t[i + 2] && m[3] == t[i + 3];
  }

  /** The last mark is the one the url follows. */
  lemma QuoteAtIsLast(t: string, i: int)
    requires QuoteAt(t, i)
    ensures LastIndex(t, RE_HTTPS) == i
  {
    MarkIs(t, i);
    var j := LastIndex(t, RE_HTTPS);
    MarkIs(t, j);
    SpaceInMark(t, j);
    assert forall k :: i + 4 <= k < |t| ==> t[k] == t[i + 4..][k - i - 4];
  }

  lemma SplitAtQuote(text: string, i: int)
    requires QuoteAt(TrimSpace(text), i)
    ensures SplitREQuote(text) == Some((TrimSpace(text)[i + 4..], TrimSpace(TrimSpace(text)[..i])))
  {
    QuoteAtIsLast(TrimSpace(text), i);
    WordLengthIsAll(TrimSpace(text)[i + 4..]);
  }

  lemma SplitMeansQuoteAt(text: string) returns (i: int)
    requires SplitREQuote(text).Some?
    ensures QuoteAt(TrimSpace(text), i)
  {
    var t := TrimSpace(text);
    i := LastIndex(t, RE_HTTPS);
    MarkIs(t, i);
    WordLengthIsAll(t[i + 4..]);
  }

  /** The trimmed text is the comment, whitespace unless there is no comment, and "RE: <url>". */
  ghost predicate QuoteShape(t: string, url: string, comment: string, gap: string) {
    && IsHttps(url) && Trimmed(comment) && AllSpace(gap) && (gap == "" ==> comment == "")
    && t == comment + gap + (RE + url)
  }

  ghost predicate EndsInQuote(text: string, url: string, comment: string) {
    exists gap :: QuoteShape(TrimSpace(text), url, comment, gap)
  }

  /** A text parses as a quote exactly when it has the shape, and into those parts. */
  lemma SplitREQuoteIff(text: string, url: string, comment: string)
    ensures SplitREQuote(text) == Some((url, comment)) <==> EndsInQuote(text, url, comment)
  {
    if SplitREQuote(text) == Some((url, comment)) {
      var gap := QuoteHasShape(text, url, comment);
    }
    if EndsInQuote(text, url, comment) {
      var gap :| QuoteShape(TrimSpace(text), url, comment, gap);
      ShapeIsQuote(text, url, comment, gap);
    }
  }

  lemma QuoteHasShape(text: string, url: string, comment: string) returns (gap: string)
    requires SplitREQuote(text) == Some((url, comment))
    ensures QuoteShape(TrimSpace(text), url, comment, gap)
  {
    var t := TrimSpace(text);
    var i := SplitMeansQuoteAt(text);
    SplitAtQuote(text, i);
    SplitAtMark(t, i);
    gap := CommentAndGap(t[..i]);
  }

  lemma SplitAtMark(t: string, i: nat)
    requires i + 4 <= |t| && t[i..i + 4] == RE
    ensures t == t[..i] + (RE + t[i + 4..])
    ensures i > 0 ==> t[..i][0] == t[0] && t[..i][|t[..i]| - 1] == t[i - 1]
  {
    assert t[i..] == t[i..i + 4] + t[i + 4..];
    assert t == t[..i] + t[i..];
  }

  /** A text that starts with no space is its trimmed form and whitespace. */
  lemma CommentAndGap(before: string) returns (gap: string)
    requires before != "" ==> !IsSpace(before[0]) && IsSpace(before[|before| - 1])
    ensures AllSpace(gap) && before == TrimSpace(before) + gap && (gap == "" ==> TrimSpace(before) == "")
  {
    var n := Tail(before);
    gap := before[n..];
    assert Lead(before) == 0 && before[0..] == before;
  }

  lemma ShapeIsQuote(text: string, url: string, comment: string, gap: string)
    requires QuoteShape(TrimSpace(text), url, comment, gap)
    ensures SplitREQuote(text) == Some((url, comment))
  {
    ShapeAt(TrimSpace(text), url, comment, gap);
    SplitAtQuote(text, |comment + gap|);
  }

  lemma ShapeAt(t: string, url: string, comment: string, gap: string)
    requires QuoteShape(t, url, comment, gap)
    ensures var n := |comment + gap|; QuoteAt(t, n) && t[n + 4..] == url && TrimSpace(t[..n]) == comment
  {
    TrimDropsGap(comment, gap);
    QuoteAtHead(comment + gap, url);
  }

  lemma TrimDropsGap(comment: string, gap: string)
    requires Trimmed(comment) && AllSpace(gap) && (gap == "" ==> comment == "")
    ensures TrimSpace(comment + gap) == comment
    ensures comment + gap != "" ==> IsSpace((comment + gap)[|comment + gap| - 1])
  {
    TrimDropsAround("", comment, gap);
    assert "" + comment + gap == comment + gap;
    assert gap != "" ==> (comment + gap)[|comment + gap| - 1] == gap[|gap| - 1];
  }

  lemma QuoteAtHead(head: string, url: string)
    requires IsHttps(url) && (head != "" ==> IsSpace(head[|head| - 1]))
    ensures var t := head + (RE + url); QuoteAt(t, |head|) && t[|head| + 4..] == url && t[..|head|] == head
  {
    var mark := RE + url;
    var t := head + mark;
    assert t[|head|..] == mark && mark[..4] == RE && mark[4..] == url;
    assert t[|head|..|head| + 4] == t[|head|..][..4];
    assert t[|head| + 4..] == t[|head|..][4..];
    assert head != "" ==> t[|head| - 1] == head[|head| - 1];
  }

  /** A quote under a comment is trimmed as it stands. */
  lemma ShapeIsTrimmed(url: string, comment: string, gap: string)
    requires IsHttps(url) && Trimmed(comment) && (comment == "" ==> gap == "")
    ensures TrimSpace(comment + gap + (RE + url)) == comment + gap + (RE + url)
  {
    var text := comment + gap + (RE + url);
    HttpsNotEmpty(url);
    assert text[|text| - 1] == url[|url| - 1];
    assert text[0] == if comment == "" then 'R' else comment[0];
    TrimOfTrimmed(text);
  }

  lemma WrittenIsQuote(url: string, comment: string, gap: string)
    requires IsHttps(url) && Trimmed(comment) && comment != "" && AllSpace(gap) && gap != ""
    ensures SplitREQuote(comment + gap + (RE + url)) == Some((url, comment))
  {
    ShapeIsTrimmed(url, comment, gap);
    ShapeIsQuote(comment + gap + (RE + url), url, comment, gap);
  }

  /** Reading undoes writing a quote under its comment. */
  lemma QuoteRoundTrip(comment: string, url: string)
    requires Trimmed(comment) && comment != "" && IsHttps(url)
    ensures SplitREQuote(comment + "\n" + "RE: " + url) == Some((url, comment))
  {
    Assoc(comment + "\n", RE, url);
    WrittenIsQuote(url, comment, "\n");
  }

  // ---- A leading "re: <url>" ----

  /** strings.EqualFold with "re:". */
  predicate FoldsToRE(s: string) {
    |s| == 3 && (s[0] == 'r' || s[0] == 'R') && (s[1] == 'e' || s[1] == 'E') && s[2] == ':'
  }

  lemma FoldsIff(s: string)
    ensures FoldsToRE(s) <==> s in {"re:", "Re:", "rE:", "RE:"}
  {
    assert |s| == 3 ==> s == [s[0], s[1], s[2]];
  }

  /** The status url and the text after it (splitREPrefix). */
  function SplitREPrefix(text: string): Option<(string, string)> {
    var trimmed := TrimSpace(text);
    if |trimmed| < 3 || !FoldsToRE(trimmed[..3]) then None
    else
      var after := TrimSpace(trimmed[3..]);
      var n := WordLength(after);
      if HasPrefix(after[..n], HTTPS) then Some((after[..n], TrimSpace(after[n..]))) else None
  }

  /** The trimmed text is "re:" in any case, optional whitespace, the url, and the rest after whitespace. */
  ghost predicate PrefixShape(t: string, url: string, rest: string, gap: string, sep: string) {
    && IsHttps(url) && Trimmed(rest) && AllSpace(gap) && AllSpace(sep) && (sep == "" <==> rest == "")
    && |t| >= 3 && t[..3] in {"re:", "Re:", "rE:", "RE:"} && t[3..] == gap + (url + sep + rest)
  }

  ghost predicate StartsWithQuote(text: string, url: string, rest: string) {
    exists gap, sep :: PrefixShape(TrimSpace(text), url, rest, gap, sep)
  }

  lemma SplitREPrefixIff(text: string, url: string, rest: string)
    ensures SplitREPrefix(text) == Some((url, rest)) <==> StartsWithQuote(text, url, rest)
  {
    if SplitREPrefix(text) == Some((url, rest)) {
      var gap, sep := PrefixHasShape(text, url, rest);
    }
    if StartsWithQuote(text, url, rest) {
      var gap, sep :| PrefixShape(TrimSpace(text), url, rest, gap, sep);
      ShapeIsPrefix(text, url, rest, gap, sep);
    }
  }

  lemma PrefixHasShape(text: string, url: string, rest: string) returns (gap: string, sep: string)
    requires SplitREPrefix(text) == Some((url, rest))
    ensures PrefixShape(TrimSpace(text), url, rest, gap, sep)
  {
    var t, more := TrimSpace(text), "";
    FoldsIff(t[..3]);
    gap := GapAndRest(t[3..]);
    sep, more := WordAndRest(TrimSpace(t[3..]));
  }

  /** A text that ends in no space is whitespace and its trimmed form. */
  lemma GapAndRest(s: string) returns (gap: string)
    requires s != "" ==> !IsSpace(s[|s| - 1])
    ensures AllSpace(gap) && s == gap + TrimSpace(s) && (TrimSpace(s) == "" ==> gap == "")
    ensures s != "" && IsSpace(s[0]) ==> gap != ""
  {
    var n := Lead(s);
    var rest := s[n..];
    gap := s[..n];
    assert rest != "" ==> rest[|rest| - 1] == s[|s| - 1];
    assert Tail(rest) == |rest| && rest[..|rest|] == rest;
  }

  /** A trimmed text is a word, whitespace if there is more, and a trimmed rest. */
  lemma WordAndRest(after: string) returns (sep: string, rest: string)
    requires Trimmed(after)
    ensures var word := after[..WordLength(after)];
            && NoSpace(word) && AllSpace(sep) && rest == TrimSpace(after[|word|..]) && (sep == "" <==> rest == "")
            && after == word + sep + rest
  {
    var n := WordLength(after);
    var tail := after[n..];
    assert tail != "" ==> tail[|tail| - 1] == after[|after| - 1] && tail[0] == after[n];
    sep := GapAndRest(tail);
    rest := TrimSpace(tail);
    Assoc(after[..n], sep, rest);
  }

  lemma WordEnds(word: string, tail: string)
    requires NoSpace(word) && (tail == "" || IsSpace(tail[0]))
    ensures WordLength(word + tail) == |word| && (word + tail)[..|word|] == word && (word + tail)[|word|..] == tail
  {
    var s := word + tail;
    assert tail != "" ==> s[|word|] == tail[0];
    assert forall i :: 0 <= i < |word| ==> s[i] == word[i];
  }

  lemma PrefixBodyIsTrimmed(url: string, sep: string, rest: string)
    requires IsHttps(url) && Trimmed(rest) && (sep == "" <==> rest == "")
    ensures Trimmed(url + sep + rest)
  {
    var body := url + sep + rest;
    HttpsNotEmpty(url);
    assert body[0] == url[0] && body[|body| - 1] == if rest == "" then url[|url| - 1] else rest[|rest| - 1];
  }

  lemma ShapeIsPrefix(text: string, url: string, rest: string, gap: string, sep: string)
    requires PrefixShape(TrimSpace(text), url, rest, gap, sep)
    ensures SplitREPrefix(text) == Some((url, rest))
  {
    var t, after, tail := TrimSpace(text), url + sep + rest, sep + rest;
    FoldsIff(t[..3]);
    PrefixBodyIsTrimmed(url, sep, rest);
    TrimDropsAround(gap, after, "");
    assert gap + after + "" == t[3..];
    Assoc(url, sep, rest);
    assert tail != "" ==> tail[0] == sep[0];
    WordEnds(url, tail);
    TrimDropsAround(sep, rest, "");
    assert sep + rest + "" == tail;
  }

  /** A quote above a comment, as the convention writes it. */
  lemma WrittenIsPrefix(url: string, rest: string, sep: string)
    requires IsHttps(url) && Trimmed(rest) && AllSpace(sep) && (sep == "" <==> rest == "")
    ensures var text := RE + (url + sep + rest); TrimSpace(text) == text && SplitREPrefix(text) == Some((url, rest))
  {
    var body := url + sep + rest;
    var text := RE + body;
    PrefixBodyIsTrimmed(url, sep, rest);
    assert text[0] == 'R' && text[|text| - 1] == body[|body| - 1];
    TrimOfTrimmed(text);
    assert text[..3] == "RE:";
    assert text[3..] == " " + body;
    ShapeIsPrefix(text, url, rest, " ", sep);
  }

  /** Reading undoes writing a quote above its comment. */
  lemma PrefixRoundTrip(url: string, rest: string)
    requires IsHttps(url) && Trimmed(rest) && rest != ""
    ensures SplitREPrefix("RE: " + url + " " + rest) == Some((url, rest))
  {
    WrittenIsPrefix(url, rest, " ");
    Assoc(RE, url, " ");
    Assoc(RE, url + " ", rest);
  }

  // ---- Stripping either form ----

  /** What remains of the text without its quote fallback (stripQuoteFallback). */
  function StripQuoteFallback(text: string): Option<string> {
    var quote, prefix := SplitREQuote(text), SplitREPrefix(text);
    if quote.Some? then Some(quote.value.1)
    else if prefix.Some? then Some(prefix.value.1)
    else None
  }

  /** With a fallback above and one below the comment, only the one below is a quote. */
  lemma QuoteAfterHead(url: string, sep: string, rest: string, u: string, c: string)
    requires IsHttps(url) && AllSpace(sep) && sep != "" && Trimmed(rest) && SplitREQuote(rest) == Some((u, c))
    ensures SplitREQuote(RE + (url + sep + rest)) == Some((u, if c == "" then RE + url else RE + url + sep + c))
  {
    TrimOfTrimmed(rest);
    var gap := QuoteHasShape(rest, u, c);
    Regroup(url, sep, c, gap, RE + u);
    HeadIsTrimmed(url);
    if c == "" {
      WrittenIsQuote(u, RE + url, sep + gap);
    } else {
      TrimmedJoin(RE + url, sep, c);
      WrittenIsQuote(u, RE + url + sep + c, gap);
    }
  }

  lemma HeadIsTrimmed(url: string)
    requires IsHttps(url)
    ensures Trimmed(RE + url)
  {
    var head := RE + url;
    assert head[0] == 'R' && head[|head| - 1] == url[|url| - 1];
  }

  lemma TrimmedJoin(a: string, sep: string, b: string)
    requires Trimmed(a) && a != "" && Trimmed(b) && b != ""
    ensures Trimmed(a + sep + b)
  {
    var s := a + sep + b;
    assert s[0] == a[0] && s[|s| - 1] == b[|b| - 1];
  }

  lemma Regroup(url: string, sep: string, c: string, gap: string, quote: string)
    ensures RE + (url + sep + (c + gap + quote)) == RE + url + sep + c + gap + quote
    ensures c == "" ==> RE + url + sep + c + gap + quote == RE + url + (sep + gap) + quote
  {
    Assoc(url, sep, c + gap + quote);
    Assoc(c, gap, quote);
    Assoc(RE + url + sep, c, gap + quote);
    Assoc(RE + url + sep + c, gap, quote);
    Assoc(RE, url, sep);
    Assoc(RE, url + sep, c + gap + quote);
    assert c == "" ==> RE + url + sep + c == RE + url + sep;
    Assoc(RE + url, sep, gap);
  }

  /** A mark with a url to the end of the text cannot start in the leading url and the space after it. */
  lemma QuoteIsInRest(url: string, sep: string, rest: string, i: int)
    requires IsHttps(url) && AllSpace(sep) && sep != "" && rest != ""
    ensures QuoteAt(RE + (url + sep + rest), i) ==> i >= |RE + (url + sep)|
  {
    var text, last := RE + (url + sep + rest), |RE + (url + sep)| - 1;
    assert text[last] == sep[|sep| - 1];
    assert |sep| > 1 ==> text[last - 1] == sep[|sep| - 2];
    assert text[|url| + 2] == url[|url| - 2];
    assert text[|url| + 1] == url[|url| - 3] && text[|url|] == url[|url| - 4];
    if QuoteAt(text, i) {
      SpaceInMark(text, i);
      assert forall k :: i + 4 <= k < |text| ==> text[k] == text[i + 4..][k - i - 4];
    }
  }

  lemma QuoteWithoutHead(head: string, rest: string, i: int)
    requires Trimmed(rest) && i >= |head| && QuoteAt(head + rest, i)
    ensures SplitREQuote(rest).Some?
  {
    var text, j := head + rest, i - |head|;
    assert text[i..i + 4] == rest[j..j + 4] && text[i + 4..] == rest[j + 4..];
    assert j > 0 ==> text[i - 1] == rest[j - 1];
    TrimOfTrimmed(rest);
    SplitAtQuote(rest, j);
  }

  lemma NoQuoteInRest(url: string, sep: string, rest: string)
    requires IsHttps(url) && AllSpace(sep) && sep != "" && Trimmed(rest) && rest != ""
    requires TrimSpace(RE + (url + sep + rest)) == RE + (url + sep + rest)
    ensures SplitREQuote(RE + (url + sep + rest)).Some? ==> SplitREQuote(rest).Some?
  {
    var text := RE + (url + sep + rest);
    if SplitREQuote(text).Some? {
      var i := SplitMeansQuoteAt(text);
      QuoteIsInRest(url, sep, rest, i);
      Assoc(RE, url + sep, rest);
      QuoteWithoutHead(RE + (url + sep), rest, i);
    }
  }

  /** A fallback above a comment is stripped to the comment, unless the comment ends in a fallback itself:
      then that one goes and the one above stays. */
  lemma LeadingFallbackStripped(url: string, sep: string, rest: string)
    requires IsHttps(url) && AllSpace(sep) && sep != "" && Trimmed(rest) && rest != ""
    ensures StripQuoteFallback(RE + (url + sep + rest)) ==
            match SplitREQuote(rest)
            case None => Some(rest)
            case Some((_, c)) => Some(if c == "" then RE + url else RE + url + sep + c)
  {
    var text := RE + (url + sep + rest);
    WrittenIsPrefix(url, rest, sep);
    match SplitREQuote(rest) {
      case Some((u, c)) =>
        QuoteAfterHead(url, sep, rest, u, c);
      case None =>
        NoQuoteInRest(url, sep, rest);
    }
  }

  lemma BareFallback(url: string)
    requires IsHttps(url)
    ensures Trimmed(RE + url) && RE + url != "" && SplitREQuote(RE + url) == Some((url, ""))
  {
    HeadIsTrimmed(url);
    TrimOfTrimmed(RE + url);
    assert "" + "" + (RE + url) == RE + url;
    ShapeIsQuote(RE + url, url, "", "");
  }

  lemma FallbackAboveStays(url: string, below: string)
    requires IsHttps(url) && Trimmed(below) && below != ""
    requires SplitREQuote(below).Some? && SplitREQuote(below).value.1 == ""
    ensures StripQuoteFallback(RE + (url + " " + below)) == Some(RE + url)
  {
    LeadingFallbackStripped(url, " ", below);
  }

  /** Of two fallbacks and nothing else the one above stays: it is not stripped to what stands below it. */
  lemma TwoFallbacks(url: string, other: string)
    requires IsHttps(url) && IsHttps(other)
    ensures StripQuoteFallback(RE + (url + " " + (RE + other))) == Some(RE + url)
  {
    BareFallback(other);
    FallbackAboveStays(url, RE + other);
  }

  /** A quote fallback under a comment is always stripped to the comment. */
  lemma TrailingFallbackStripped(comment: string, url: string)
    requires Trimmed(comment) && comment != "" && IsHttps(url)
    ensures StripQuoteFallback(comment + "\n" + RE + url) == Some(comment)
  {
    QuoteRoundTrip(comment, url);
  }
}
