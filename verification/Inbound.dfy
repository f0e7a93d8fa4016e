/** Translating inbound activities into Warpnet commands, and what a run of them leaves on a node (inbound.go,
    inbox.go). */
module Inbound {
  import opened Seqs
  import opened Strings
  import opened Documents
  import opened Codecs
  import opened QuoteText
  import opened NoteMap
  import opened StatusIds

  datatype Command =
    | React(tweetId: string, userId: string, ownerId: string)
    | Unreact(tweetId: string, userId: string, ownerId: string)
    | Retweet(t: Tweet)
    | Unretweet(tweetId: string, retweeterId: string)
    | PostTweet(t: Tweet)
    | Follow(followerId: string, followingId: string)
    | Unfollow(followerId: string, followingId: string)

  // ---- Translation ----

  function StringField(v: Json, key: string): GoString {
    AsString(Field(v, key))
  }

  function IngestedNoteID(note: Json, token: string): string {
    if StringField(note, "id") != "" then StringField(note, "id")
    else if StringField(note, "url") != "" then StringField(note, "url")
    else token
  }

  /** The status a note quotes: its property, or the url under its comment. */
  function QuotedURL(obj: Json, text: string): string {
    var quote := SplitREQuote(text);
    if QuotedNoteURL(obj) == "" && quote.Some? && quote.value.1 != "" then quote.value.0 else QuotedNoteURL(obj)
  }

  function QuoteTweet(site: Site, actor: GoString, tweetId: string, owner: string, text: string): Tweet {
    var who := BridgedUserID(site.lib.parse, actor);
    NO_TWEET.(id := tweetId, userId := who, username := HandleFromActorURL(site.lib.parse, actor), text := text,
              retweetedBy := Some(who), quotedTweetId := Some(tweetId), quotedUserId := Some(owner))
  }

  function ReplyTweet(site: Site, actor: GoString, noteId: string, parentId: string, owner: string,
                      text: string): Tweet {
    NO_TWEET.(id := noteId, parentId := Some(parentId), parentUserId := Some(owner), rootId := parentId, text := text,
              userId := BridgedUserID(site.lib.parse, actor), username := HandleFromActorURL(site.lib.parse, actor))
  }

  function TranslateCreate(site: Site, token: string, actor: GoString, obj: Json): Option<Command> {
    var text := HtmlToText(site.lib, StringField(obj, "content"));
    var noteId := IngestedNoteID(obj, token);
    var parent := ParseLocalStatus(site, StringField(obj, "inReplyTo"));
    var quoted := ParseLocalStatus(site, QuotedURL(obj, text));
    var prefix := SplitREPrefix(text);
    var answered := if prefix.Some? then ParseLocalStatus(site, prefix.value.0) else None;
    if parent.Some? then
      Some(PostTweet(ReplyTweet(site, actor, noteId, parent.value.1, parent.value.0, text)))
    else if quoted.Some? then
      Some(Retweet(QuoteTweet(site, actor, quoted.value.1, quoted.value.0, NonEmptyOr(StripQuoteFallback(text), text))))
    else if answered.Some? then
      Some(PostTweet(ReplyTweet(site, actor, noteId, answered.value.1, answered.value.0,
                                 NonEmptyOr(Some(prefix.value.1), text))))
    else None
  }

  function TranslateUndo(site: Site, who: string, obj: Json): Option<Command> {
    var typ := TypeOf(obj);
    var status := ParseLocalStatus(site, StringField(obj, "object"));
    var followed := UserFromActorURL(StringField(obj, "object"));
    if typ == "Follow" then if followed == "" then None else Some(Unfollow(who, followed))
    else if status.None? then None
    else if typ == "Like" then Some(Unreact(status.value.1, status.value.0, who))
    else if typ == "Announce" then Some(Unretweet(status.value.1, who))
    else None
  }

  function TranslateInbound(site: Site, token: string, raw: Json): Option<Command> {
    var actor, typ, obj := StringOnly(Field(raw, "actor")), TypeOf(raw), Field(raw, "object");
    var who := BridgedUserID(site.lib.parse, actor);
    var status := ParseLocalStatus(site, StringField(raw, "object"));
    if actor == "" then None
    else if typ == "Like" then
      if status.Some? then Some(React(status.value.1, status.value.0, who)) else None
    else if typ == "Announce" then
      if status.Some? then
        Some(Retweet(NO_TWEET.(id := status.value.1, rootId := status.value.1,
                               userId := status.value.0, retweetedBy := Some(who))))
      else None
    else if typ == "Create" then
      if obj.Obj? then TranslateCreate(site, token, actor, obj) else None
    else if typ == "Undo" then
      if obj.Obj? then TranslateUndo(site, who, obj) else None
    else None
  }

  // ---- What a node keeps ----

  datatype Kind = Reaction | Boost | Following
  datatype Key = Key(kind: Kind, subject: string, actor: string)

  /** Setting or clearing a key, or neither. */
  type Change = Option<(Key, bool)>

  /** What a command does to the keys; replies and quotes are posts of their own. */
  function Effect(c: Command): Change {
    match c
    case React(tweetId, _, ownerId) => Some((Key(Reaction, tweetId, ownerId), true))
    case Unreact(tweetId, _, ownerId) => Some((Key(Reaction, tweetId, ownerId), false))
    case Retweet(t) =>
      if t.quotedTweetId.None? && t.retweetedBy.Some? then Some((Key(Boost, t.id, t.retweetedBy.value), true)) else None
    case Unretweet(tweetId, retweeterId) => Some((Key(Boost, tweetId, retweeterId), false))
    case PostTweet(_) => None
    case Follow(follower, following) => Some((Key(Following, following, follower), true))
    case Unfollow(follower, following) => Some((Key(Following, following, follower), false))
  }

  function Update(keys: set<Key>, change: Change): set<Key> {
    match change
    case None => keys
    case Some((key, true)) => keys + {key}
    case Some((key, false)) => keys - {key}
  }

  function KeysAfter(changes: seq<Change>): set<Key> {
    if changes == [] then {} else Update(KeysAfter(changes[..|changes| - 1]), changes[|changes| - 1])
  }

  ghost predicate LastSet(changes: seq<Change>, key: Key, i: nat) {
    && i < |changes| && changes[i] == Some((key, true))
    && forall j :: i < j < |changes| ==> changes[j] != Some((key, false))
  }

  lemma {:induction false} KeptIffLastSet(changes: seq<Change>, key: Key)
    ensures key in KeysAfter(changes) <==> exists i :: LastSet(changes, key, i)
  {
    if changes != [] {
      var n := |changes| - 1;
      var init := changes[..n];
      KeptIffLastSet(init, key);
      assert LastSet(changes, key, n) <==> changes[n] == Some((key, true));
      forall i: nat | i < n
        ensures LastSet(changes, key, i) <==> changes[n] != Some((key, false)) && LastSet(init, key, i)
      {
        assert forall j :: 0 <= j < n ==> init[j] == changes[j];
      }
    }
  }

  /** An activity the gateway took to its end; user is the inbox's own, "" for the shared one, and token the
      random stand-in for a missing note id. */
  datatype Received = Received(user: string, raw: Json, token: string)

  function FollowedUser(r: Received): string {
    var named := UserFromActorURL(StringField(r.raw, "object"));
    if named == "" then r.user else named
  }

  function Handled(site: Site, hosted: string -> bool, r: Received): Option<Command> {
    var typ, actor := TypeOf(r.raw), StringField(r.raw, "actor");
    if typ == "Follow" then
      if hosted(FollowedUser(r)) && actor != "" then
        Some(Follow(BridgedUserID(site.lib.parse, actor), FollowedUser(r)))
      else None
    else if typ == "Delete" then None
    else TranslateInbound(site, r.token, r.raw)
  }

  function EffectOf(site: Site, hosted: string -> bool, r: Received): Change {
    var c := Handled(site, hosted, r);
    if c.Some? then Effect(c.value) else None
  }

  function Changes(site: Site, hosted: string -> bool, run: seq<Received>): (changes: seq<Change>)
    ensures |changes| == |run| && forall i :: 0 <= i < |run| ==> changes[i] == EffectOf(site, hosted, run[i])
  {
    seq(|run|, i requires 0 <= i < |run| => EffectOf(site, hosted, run[i]))
  }

  /** The reactions, boosts and follows a run of activities leaves. */
  function Node(site: Site, hosted: string -> bool, run: seq<Received>): set<Key> {
    KeysAfter(Changes(site, hosted, run))
  }

  lemma NodeSnoc(site: Site, hosted: string -> bool, run: seq<Received>, r: Received)
    ensures Node(site, hosted, run + [r]) == Update(Node(site, hosted, run), EffectOf(site, hosted, r))
  {
    var changes := Changes(site, hosted, run + [r]);
    assert changes[..|run|] == Changes(site, hosted, run);
  }

  /** Over every run, the node holds exactly the keys that some activity set and none cleared since. */
  lemma HeldIffLastSet(site: Site, hosted: string -> bool, run: seq<Received>, key: Key)
    ensures key in Node(site, hosted, run) <==>
            exists i: nat :: i < |run| && EffectOf(site, hosted, run[i]) == Some((key, true))
              && forall j :: i < j < |run| ==> EffectOf(site, hosted, run[j]) != Some((key, false))
  {
    var changes := Changes(site, hosted, run);
    KeptIffLastSet(changes, key);
    if key in Node(site, hosted, run) {
      var i: nat :| LastSet(changes, key, i);
      assert EffectOf(site, hosted, run[i]) == Some((key, true));
    }
    if i: nat :| i < |run| && EffectOf(site, hosted, run[i]) == Some((key, true))
                 && forall j :: i < j < |run| ==> EffectOf(site, hosted, run[j]) != Some((key, false)) {
      assert LastSet(changes, key, i);
    }
  }

  // ---- Do and undo ----

  /** undo is the Undo of act by the same actor. */
  predicate Undoes(undo: Json, act: Json) {
    && TypeOf(undo) == "Undo" && Field(undo, "object") == act
    && Field(undo, "actor") == Field(act, "actor")
  }

  lemma LikeOrBoost(site: Site, hosted: string -> bool, r: Received)
    requires TypeOf(r.raw) in {"Like", "Announce"}
    ensures var status, actor := ParseLocalStatus(site, StringField(r.raw, "object")),
                StringOnly(Field(r.raw, "actor"));
            EffectOf(site, hosted, r) ==
            if actor == "" || status.None? then None
            else Some((Key(if TypeOf(r.raw) == "Like" then Reaction else Boost, status.value.1,
                           BridgedUserID(site.lib.parse, actor)), true))
  {
  }

  lemma UndoneLikeOrBoost(site: Site, hosted: string -> bool, r: Received)
    requires TypeOf(r.raw) == "Undo" && TypeOf(Field(r.raw, "object")) in {"Like", "Announce"}
    ensures var obj, actor := Field(r.raw, "object"), StringOnly(Field(r.raw, "actor"));
            var status := ParseLocalStatus(site, StringField(obj, "object"));
            EffectOf(site, hosted, r) ==
            if actor == "" || status.None? then None
            else Some((Key(if TypeOf(obj) == "Like" then Reaction else Boost, status.value.1,
                           BridgedUserID(site.lib.parse, actor)), false))
  {
  }

  /** A like or boost and its Undo are handled or ignored together, and address the same key. */
  lemma UndoHitsTheSameKey(site: Site, hosted: string -> bool, act: Received, undo: Received)
    requires Undoes(undo.raw, act.raw) && TypeOf(act.raw) in {"Like", "Announce"}
    ensures match EffectOf(site, hosted, act)
            case Some((key, did)) => did && EffectOf(site, hosted, undo) == Some((key, false))
            case None => EffectOf(site, hosted, undo) == None
  {
    LikeOrBoost(site, hosted, act);
    UndoneLikeOrBoost(site, hosted, undo);
  }

  lemma FollowAndUndo(site: Site, hosted: string -> bool, act: Received, undo: Received)
    requires Undoes(undo.raw, act.raw) && TypeOf(act.raw) == "Follow" && EffectOf(site, hosted, act).Some?
    ensures var key := Key(Following, FollowedUser(act), BridgedUserID(site.lib.parse, StringField(act.raw, "actor")));
            && EffectOf(site, hosted, act) == Some((key, true))
            && EffectOf(site, hosted, undo) ==
               if Field(act.raw, "actor").Str? && UserFromActorURL(StringField(act.raw, "object")) != "" then
                 Some((key, false))
               else None
  {
  }

  /** An accepted Follow and its Undo address the same pair exactly when the actor is a plain string and the
      object names a user; otherwise the Undo is ignored and the follow stays. */
  lemma UndoFollowIff(site: Site, hosted: string -> bool, run: seq<Received>, act: Received, undo: Received)
    requires Undoes(undo.raw, act.raw) && TypeOf(act.raw) == "Follow" && EffectOf(site, hosted, act).Some?
    ensures var key := EffectOf(site, hosted, act).value.0;
            key in Node(site, hosted, run + [act]) &&
            (key !in Node(site, hosted, run + [act] + [undo]) <==>
             Field(act.raw, "actor").Str? && UserFromActorURL(StringField(act.raw, "object")) != "")
  {
    FollowAndUndo(site, hosted, act, undo);
    NodeSnoc(site, hosted, run, act);
    NodeSnoc(site, hosted, run + [act], undo);
  }

  /** A Follow whose actor is an object and whose object names nobody, and its Undo. */
  function ObjectFollow(): Json {
    Obj(map["type" := Str("Follow"), "actor" := Obj(map["id" := Str("x")]), "object" := Str("")])
  }

  function ObjectUndo(): Json {
    Obj(map["type" := Str("Undo"), "actor" := Obj(map["id" := Str("x")]), "object" := ObjectFollow()])
  }

  lemma ObjectFollowFields()
    ensures TypeOf(ObjectFollow()) == "Follow" && Undoes(ObjectUndo(), ObjectFollow())
    ensures StringField(ObjectFollow(), "actor") == "x" && !Field(ObjectFollow(), "actor").Str?
    ensures UserFromActorURL(StringField(ObjectFollow(), "object")) == ""
  {
  }

  lemma NodeOfTwo(site: Site, hosted: string -> bool, a: Received, b: Received, key: Key)
    requires EffectOf(site, hosted, a) == Some((key, true)) && EffectOf(site, hosted, b) == None
    ensures Node(site, hosted, [a, b]) == {key}
  {
    NodeSnoc(site, hosted, [], a);
    NodeSnoc(site, hosted, [a], b);
    assert [] + [a] == [a] && [a] + [b] == [a, b];
  }

  /** Taken by bob's own inbox, such a follow outlives its Undo. */
  lemma FollowOutlivesUndo(site: Site, hosted: string -> bool)
    requires hosted("bob")
    ensures Node(site, hosted, [Received("bob", ObjectFollow(), ""), Received("bob", ObjectUndo(), "")]) ==
            {Key(Following, "bob", BridgedUserID(site.lib.parse, "x"))}
  {
    var act, undo := Received("bob", ObjectFollow(), ""), Received("bob", ObjectUndo(), "");
    ObjectFollowFields();
    FollowAndUndo(site, hosted, act, undo);
    NodeOfTwo(site, hosted, act, undo, Key(Following, "bob", BridgedUserID(site.lib.parse, "x")));
  }

  /** After an Undo the key is gone, whatever came before. */
  lemma UndoErases(site: Site, hosted: string -> bool, run: seq<Received>, act: Received, undo: Received)
    requires Undoes(undo.raw, act.raw) && TypeOf(act.raw) in {"Like", "Announce"}
    requires EffectOf(site, hosted, act).Some?
    ensures var key := EffectOf(site, hosted, act).value.0;
            Node(site, hosted, run + [undo]) == Node(site, hosted, run) - {key}
    ensures Node(site, hosted, run + [act] + [undo]) == Node(site, hosted, run) - {EffectOf(site, hosted, act).value.0}
  {
    UndoHitsTheSameKey(site, hosted, act, undo);
    NodeSnoc(site, hosted, run, undo);
    NodeSnoc(site, hosted, run, act);
    NodeSnoc(site, hosted, run + [act], undo);
  }

  // ---- Notes about our statuses ----

  /** The command posts the note as a reply by who to the owner's tweet. */
  ghost predicate PostsReply(c: Option<Command>, site: Site, actor: GoString, obj: Json, token: string, owner: string,
                             parentId: string, text: string)
  {
    && c.Some? && c.value.PostTweet?
    && c.value.t.id == (if StringField(obj, "id") != "" then StringField(obj, "id")
                        else if StringField(obj, "url") != "" then StringField(obj, "url") else token)
    && c.value.t.parentId == Some(parentId) && c.value.t.parentUserId == Some(owner) && c.value.t.rootId == parentId
    && c.value.t.text == text && c.value.t.userId == BridgedUserID(site.lib.parse, actor)
    && c.value.t.username == HandleFromActorURL(site.lib.parse, actor)
    && c.value.t.retweetedBy.None? && c.value.t.quotedTweetId.None?
  }

  /** The command posts a quote by who of the owner's tweet. */
  ghost predicate PostsQuote(c: Option<Command>, site: Site, actor: GoString, owner: string, tweetId: string,
                             text: string)
  {
    && c.Some? && c.value.Retweet? && c.value.t.id == tweetId && c.value.t.text == text
    && c.value.t.quotedTweetId == Some(tweetId) && c.value.t.quotedUserId == Some(owner)
    && c.value.t.userId == BridgedUserID(site.lib.parse, actor)
    && c.value.t.retweetedBy == Some(BridgedUserID(site.lib.parse, actor))
    && c.value.t.username == HandleFromActorURL(site.lib.parse, actor) && c.value.t.parentId.None?
  }

  /** raw is an activity of this type by the actor about one of our statuses. */
  ghost predicate About(site: Site, raw: Json, typ: string, actor: GoString, user: string, id: string, tail: string) {
    && PlainHost(site.host) && Plain(user) && Plain(id) && IsTail(tail) && actor != ""
    && TypeOf(raw) == typ && Field(raw, "actor") == Str(actor)
    && StringField(raw, "object") == NoteURL(site, user, id) + tail
  }

  /** A like of one of our statuses is the actor's reaction to the owner's tweet, and not the reverse; a boost is
      the owner's tweet retweeted by the actor. */
  lemma LikeAndBoostTranslate(site: Site, token: string, raw: Json, actor: GoString, user: string, id: string,
                              tail: string)
    ensures About(site, raw, "Like", actor, user, id, tail) ==>
              TranslateInbound(site, token, raw) == Some(React(id, user, BridgedUserID(site.lib.parse, actor)))
    ensures About(site, raw, "Announce", actor, user, id, tail) ==>
              var c := TranslateInbound(site, token, raw);
              && c.Some? && c.value.Retweet? && c.value.t.id == id && c.value.t.rootId == id && c.value.t.userId == user
              && c.value.t.retweetedBy == Some(BridgedUserID(site.lib.parse, actor)) && c.value.t.quotedTweetId.None?
  {
    if About(site, raw, TypeOf(raw), actor, user, id, tail) {
      StatusReadsBackIff(site, user, id, tail);
    }
  }

  /** Undoing a like, a boost and a follow. */
  lemma UndoTranslates(site: Site, token: string, raw: Json, actor: GoString, user: string, id: string, tail: string)
    requires TypeOf(raw) == "Undo" && Field(raw, "actor") == Str(actor) && actor != ""
    ensures var obj, c := Field(raw, "object"), TranslateInbound(site, token, raw);
            var who := BridgedUserID(site.lib.parse, actor);
            && (About(site, obj, "Like", actor, user, id, tail) ==> c == Some(Unreact(id, user, who)))
            && (About(site, obj, "Announce", actor, user, id, tail) ==> c == Some(Unretweet(id, who)))
            && (TypeOf(obj) == "Follow" && '/' !in site.host && site.host != "users" && Plain(user) ==>
                  (StringField(obj, "object") == UserURL(site, user) ==> c == Some(Unfollow(who, user))))
  {
    var obj := Field(raw, "object");
    if About(site, obj, TypeOf(obj), actor, user, id, tail) {
      StatusReadsBackIff(site, user, id, tail);
    }
    if '/' !in site.host && Plain(user) {
      ActorURLReadsBackIff(site, user);
    }
  }

  /** A note is taken apart by what it is about. */
  lemma CreateTranslates(site: Site, token: string, raw: Json, actor: GoString)
    requires TypeOf(raw) == "Create" && Field(raw, "actor") == Str(actor) && actor != "" && Field(raw, "object").Obj?
    ensures TranslateInbound(site, token, raw) == TranslateCreate(site, token, actor, Field(raw, "object"))
  {
  }

  /** A note that is no reply to us and whose quote property names one of our statuses is a quote of the native
      tweet, without its text fallback unless nothing else is there. */
  lemma PropertyQuotesNatively(site: Site, token: string, actor: GoString, obj: Json, user: string, id: string,
                               tail: string)
    requires PlainHost(site.host) && Plain(user) && Plain(id) && IsTail(tail)
    requires ParseLocalStatus(site, StringField(obj, "inReplyTo")).None?
    requires QuotedNoteURL(obj) == NoteURL(site, user, id) + tail
    ensures var text := HtmlToText(site.lib, StringField(obj, "content"));
            var stripped := StripQuoteFallback(text);
            PostsQuote(TranslateCreate(site, token, actor, obj), site, actor, user, id,
                       if stripped.Some? && stripped.value != "" then stripped.value else text)
  {
    StatusReadsBackIff(site, user, id, tail);
    assert QuotedNoteURL(obj) != "";
  }

  /** A note in reply to one of our statuses becomes a reply to the native tweet, however the status url was
      decorated. */
  lemma ReplyThreadsNatively(site: Site, token: string, actor: GoString, obj: Json, user: string, id: string,
                             tail: string)
    requires PlainHost(site.host) && Plain(user) && Plain(id) && IsTail(tail)
    requires StringField(obj, "inReplyTo") == NoteURL(site, user, id) + tail
    ensures TranslateCreate(site, token, actor, obj) ==
            Some(PostTweet(ReplyTweet(site, actor, IngestedNoteID(obj, token), id, user,
                                 HtmlToText(site.lib, StringField(obj, "content")))))
    ensures PostsReply(TranslateCreate(site, token, actor, obj), site, actor, obj, token, user, id,
                       HtmlToText(site.lib, StringField(obj, "content")))
  {
    StatusReadsBackIff(site, user, id, tail);
  }

  predicate NoSpaces(site: Site, user: string, id: string) {
    NoSpace(site.host) && NoSpace(user) && NoSpace(id)
  }

  lemma NoteURLIsHttps(site: Site, user: string, id: string)
    requires NoSpaces(site, user, id)
    ensures IsHttps(NoteURL(site, user, id))
  {
    var rest := site.host + PATH_USERS + user + PATH_STATUSES + id;
    assert NoSpace(rest);
    assert NoteURL(site, user, id) == HTTPS + rest;
  }

  lemma PlainReadsBack(site: Site, user: string, id: string)
    requires PlainHost(site.host) && Plain(user) && Plain(id)
    ensures ParseLocalStatus(site, NoteURL(site, user, id)) == Some((user, id))
  {
    StatusReadsBackIff(site, user, id, "");
    assert NoteURL(site, user, id) + "" == NoteURL(site, user, id);
  }

  lemma CreateByText(site: Site, token: string, actor: GoString, obj: Json, text: string)
    requires ParseLocalStatus(site, StringField(obj, "inReplyTo")).None? && QuotedNoteURL(obj) == ""
    requires HtmlToText(site.lib, StringField(obj, "content")) == text
    ensures var quote, prefix := SplitREQuote(text), SplitREPrefix(text);
            var quoted := if quote.Some? && quote.value.1 != "" then ParseLocalStatus(site, quote.value.0) else None;
            var answered := if prefix.Some? then ParseLocalStatus(site, prefix.value.0) else None;
            TranslateCreate(site, token, actor, obj) ==
            if quoted.Some? then Some(Retweet(QuoteTweet(site, actor, quoted.value.1, quoted.value.0, quote.value.1)))
            else if answered.Some? then
              Some(PostTweet(ReplyTweet(site, actor, IngestedNoteID(obj, token), answered.value.1, answered.value.0,
                                        NonEmptyOr(Some(prefix.value.1), text))))
            else None
  {
    NothingQuoted(site);
  }

  lemma NothingQuoted(site: Site)
    ensures ParseLocalStatus(site, "").None?
  {
  }

  /** A note that ends in the url of one of our statuses under a comment becomes a quote of the native tweet
      with the comment. */
  lemma QuoteThreadsNatively(site: Site, token: string, actor: GoString, obj: Json, user: string, id: string,
                             comment: string)
    requires PlainHost(site.host) && Plain(user) && Plain(id)
    requires NoSpaces(site, user, id) && Trimmed(comment) && comment != ""
    requires ParseLocalStatus(site, StringField(obj, "inReplyTo")).None? && QuotedNoteURL(obj) == ""
    requires HtmlToText(site.lib, StringField(obj, "content")) == comment + "\n" + RE + NoteURL(site, user, id)
    ensures PostsQuote(TranslateCreate(site, token, actor, obj), site, actor, user, id, comment)
  {
    NoteURLIsHttps(site, user, id);
    QuoteRoundTrip(comment, NoteURL(site, user, id));
    PlainReadsBack(site, user, id);
    CreateByText(site, token, actor, obj, comment + "\n" + RE + NoteURL(site, user, id));
  }

  /** A note that opens with the url of one of our statuses above a comment becomes a reply to the native
      tweet with the comment, exactly when the comment does not end in a quote of a status of ours. */
  lemma AnswerThreadsNativelyIff(site: Site, token: string, actor: GoString, obj: Json, user: string, id: string,
                                 comment: string)
    requires PlainHost(site.host) && Plain(user) && Plain(id)
    requires NoSpaces(site, user, id) && Trimmed(comment) && comment != ""
    requires ParseLocalStatus(site, StringField(obj, "inReplyTo")).None? && QuotedNoteURL(obj) == ""
    requires HtmlToText(site.lib, StringField(obj, "content")) == RE + (NoteURL(site, user, id) + " " + comment)
    ensures TranslateCreate(site, token, actor, obj) ==
            Some(PostTweet(ReplyTweet(site, actor, IngestedNoteID(obj, token), id, user, comment))) <==>
            SplitREQuote(comment).None? || ParseLocalStatus(site, SplitREQuote(comment).value.0).None?
    ensures SplitREQuote(comment).None? || ParseLocalStatus(site, SplitREQuote(comment).value.0).None? ==>
              PostsReply(TranslateCreate(site, token, actor, obj), site, actor, obj, token, user, id, comment)
  {
    var url := NoteURL(site, user, id);
    NoteURLIsHttps(site, user, id);
    QuoteUnderAnswer(url, comment);
    PlainReadsBack(site, user, id);
    AnswerByText(site, token, actor, obj, RE + (url + " " + comment), url, comment, user, id);
  }

  lemma AnswerByText(site: Site, token: string, actor: GoString, obj: Json, text: string, url: string,
                     comment: string, user: string, id: string)
    requires ParseLocalStatus(site, StringField(obj, "inReplyTo")).None? && QuotedNoteURL(obj) == ""
    requires HtmlToText(site.lib, StringField(obj, "content")) == text && comment != ""
    requires SplitREPrefix(text) == Some((url, comment)) && ParseLocalStatus(site, url) == Some((user, id))
    ensures var quote := SplitREQuote(text);
            TranslateCreate(site, token, actor, obj) ==
            Some(PostTweet(ReplyTweet(site, actor, IngestedNoteID(obj, token), id, user, comment))) <==>
            !(quote.Some? && quote.value.1 != "" && ParseLocalStatus(site, quote.value.0).Some?)
  {
    CreateByText(site, token, actor, obj, text);
  }

  lemma QuoteUnderAnswer(url: string, comment: string)
    requires IsHttps(url) && Trimmed(comment) && comment != ""
    ensures var text, below := RE + (url + " " + comment), SplitREQuote(comment);
            var quote := SplitREQuote(text);
            && SplitREPrefix(text) == Some((url, comment))
            && (quote.Some? && quote.value.1 != "" <==> below.Some?)
            && (below.Some? ==> quote.value.0 == below.value.0)
  {
    WrittenIsPrefix(url, comment, " ");
    OnlyQuoteIsBelow(url, comment);
    var below := SplitREQuote(comment);
    if below.Some? {
      QuoteAfterHead(url, " ", comment, below.value.0, below.value.1);
    }
  }

  // ---- The inbox ----

  class Inbox {
    const site: Site
    const hosted: string -> bool
    var node: set<Key>
    ghost var run: seq<Received>

    /** The node holds what the run of completed activities leaves. */
    ghost predicate Valid()
      reads this
    {
      node == Node(site, hosted, run)
    }

    constructor (site: Site, hosted: string -> bool)
      ensures Valid() && node == {} && this.site == site && this.hosted == hosted
    {
      this.site, this.hosted, node, run := site, hosted, {}, [];
    }

    /** keyID is the verified signing key, None when verification failed; busy means that the pool is full,
        done that the Accept and the node call succeeded. */
    method HandleInbox(user: string, raw: Json, token: string, keyID: Option<string>, busy: bool, done: bool)
      returns (status: nat)
      requires Valid()
      modifies this
      ensures Valid()
      ensures run == old(run) || run == old(run) + [Received(user, raw, token)]
      ensures var r := Received(user, raw, token);
              node == if status == 202 && done && Handled(site, hosted, r).Some?
              then Update(old(node), EffectOf(site, hosted, r)) else old(node)
      ensures var named := UserFromActorURL(StringField(raw, "object"));
              status ==
              if keyID.None? then 401
              else if Before(keyID.value, "#") != StringField(raw, "actor") then 403
              else if TypeOf(raw) == "Follow" then
                if !hosted(if named != "" then named else user) then 404 else if busy then 503 else 202
              else if TypeOf(raw) != "Delete" && TranslateInbound(site, token, raw).Some? && busy then 503
              else 202
    {
      if keyID.None? {
        return 401;
      }
      var typ, actor := TypeOf(raw), StringField(raw, "actor");
      if Before(keyID.value, "#") != actor {
        return 403;
      }
      ghost var r := Received(user, raw, token);
      var command := None;
      if typ == "Follow" {
        var localUser := UserFromActorURL(StringField(raw, "object"));
        if localUser == "" {
          localUser := user;
        }
        if !hosted(localUser) {
          return 404;
        }
        if busy {
          return 503;
        }
        if actor != "" {
          command := Some(Follow(BridgedUserID(site.lib.parse, actor), localUser));
        }
      } else if typ != "Delete" {
        command := TranslateInbound(site, token, raw);
        if command.Some? && busy {
          return 503;
        }
      }
      assert command == Handled(site, hosted, r);
      if command.Some? && done {
        NodeSnoc(site, hosted, run, r);
        node, run := Update(node, Effect(command.value)), run + [r];
      }
      return 202;
    }
  }
}
