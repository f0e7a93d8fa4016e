/** The deterministic status and reply ids, the parsers that read them back, and restoring native ids
    (mastodon-bridge.go, notes.go, inbound.go, server.go). */
module StatusIds {
  import opened Seqs
  import opened Strings
  import opened Documents
  import opened Codecs
  import opened NoteMap
  import opened QuoteText

  const PATH_USERS := "/users/"
  const PATH_STATUSES := "/statuses/"
  const PARENT_QUERY := "parent="

  /** The gateway's host, and the libraries: parsing urls and HTML, the host name of a host, encoding a query
      value, and the parent value of a raw query; then the prefix of a retweet's id, the test-only switch that
      lifts the target checks, and the hosts those checks refuse. */
  datatype Site = Site(host: string, lib: Lib, hostname: string -> string,
                       escape: string -> string, parentIn: string -> string,
                       retweetPrefix: string, allowPrivate: bool, isBlocked: string -> bool)

  // ---- Printing ----

  function BaseURL(site: Site): string {
    "https://" + site.host
  }

  function UserURL(site: Site, user: string): string {
    BaseURL(site) + PATH_USERS + user
  }

  function NoteURL(site: Site, user: string, id: string): string {
    UserURL(site, user) + PATH_STATUSES + id
  }

  function ReplyQuery(site: Site, parent: string): string {
    PARENT_QUERY + site.escape(parent)
  }

  function ReplyURL(site: Site, user: string, id: string, parent: string): string {
    NoteURL(site, user, id) + "?" + ReplyQuery(site, parent)
  }

  // ---- Parsing ----

  /** The part of a path behind /users/: a user, /statuses/ and an id up to the next slash. */
  function OwnerAndId(rest: string): Option<(string, string)> {
    var cut := Cut(rest, PATH_STATUSES);
    if cut.None? || cut.value.0 == "" || cut.value.1 == "" then None
    else Some((cut.value.0, Before(cut.value.1, "/")))
  }

  function WithoutQuery(url: string): string {
    Before(Before(url, "#"), "?")
  }

  function ParseLocalStatus(site: Site, statusURL: string): Option<(string, string)> {
    var rest := CutPrefix(WithoutQuery(statusURL), BaseURL(site) + PATH_USERS);
    if rest.Some? then OwnerAndId(rest.value) else None
  }

  function Lower(c: char): char {
    if 'A' <= c <= 'Z' then c - 'A' + 'a' else c
  }

  /** strings.EqualFold on ASCII. */
  predicate EqualFold(a: string, b: string) {
    |a| == |b| && forall i :: 0 <= i < |a| ==> Lower(a[i]) == Lower(b[i])
  }

  predicate IsSelfHost(site: Site, host: string) {
    site.host != "" && EqualFold(host, site.host)
  }

  /** Letter case does not matter in host names. */
  lemma SelfHostIgnoresCase(site: Site, host: string)
    requires site.host != "" && |host| == |site.host|
    requires forall i :: 0 <= i < |host| ==>
               host[i] == site.host[i] || ('A' <= host[i] <= 'Z' && site.host[i] as int == host[i] as int + 32)
    ensures IsSelfHost(site, host)
  {
  }

  function OwnStatusRef(site: Site, rawURL: string): Option<(string, string)> {
    var u := site.lib.parse(rawURL);
    if u.None? || u.value.host == "" || !IsSelfHost(site, site.hostname(u.value.host)) then None
    else
      var rest := CutPrefix(u.value.path, PATH_USERS);
      if rest.Some? then OwnerAndId(rest.value) else None
  }

  function UserFromActorURL(u: string): string {
    var cut := Cut(u, PATH_USERS);
    if cut.None? then "" else Before(cut.value.1, "/")
  }

  predicate PlainHost(host: string) {
    '?' !in host && '#' !in host
  }

  /** A path segment that needs no encoding. */
  predicate Plain(segment: string) {
    segment != "" && '/' !in segment && '?' !in segment && '#' !in segment
  }

  predicate IsQueryTail(tail: string) {
    tail == "" || tail[0] == '?' || tail[0] == '#'
  }

  /** What may follow an id: nothing, a sub-path, a query or a fragment. */
  predicate IsTail(tail: string) {
    tail == "" || tail[0] == '/' || tail[0] == '?' || tail[0] == '#'
  }

  lemma OwnerAndIdOf(user: string, id: string)
    requires Plain(user)
    ensures OwnerAndId(user + PATH_STATUSES + id) == if id == "" then None else Some((user, Before(id, "/")))
  {
    CutAtFirst(user, PATH_STATUSES, id);
  }

  lemma WithoutQueryPast(a: string, b: string)
    requires '?' !in a && '#' !in a
    ensures WithoutQuery(a + b) == a + WithoutQuery(b)
  {
    BeforePast(a, b, '#');
    BeforePast(a, Before(b, "#"), '?');
  }

  lemma WithoutQueryOf(a: string, tail: string)
    requires '?' !in a && '#' !in a && IsQueryTail(tail)
    ensures WithoutQuery(a + tail) == a
  {
    WithoutQueryPast(a, tail);
    if tail != "" {
      BeforeAtOnce(tail, '#');
      BeforeAtOnce(Before(tail, "#"), '?');
    }
  }

  lemma BeforeAtOnce(s: string, c: char)
    ensures s != "" && s[0] == c ==> Before(s, [c]) == ""
    ensures s != "" && s[0] != c ==> Before(s, [c]) != "" && Before(s, [c])[0] == s[0]
    ensures s == "" ==> Before(s, [c]) == ""
  {
    if s != "" {
      assert s[..1] == [s[0]];
      assert s == [s[0]] + s[1..];
      if s[0] != c {
        BeforeCons(s[0], s[1..], c);
      }
    }
  }

  /** Whatever parses has an id without slash, query or fragment. */
  lemma ParsedIsCut(site: Site, statusURL: string)
    ensures var r := ParseLocalStatus(site, statusURL);
            r.Some? ==> r.value.0 != "" && '/' !in r.value.1 && '?' !in r.value.1 && '#' !in r.value.1
  {
    var url := WithoutQuery(statusURL);
    BeforeHasNone(statusURL, '#');
    BeforeHasNone(Before(statusURL, "#"), '?');
    var rest := CutPrefix(url, BaseURL(site) + PATH_USERS);
    if rest.Some? && OwnerAndId(rest.value).Some? {
      BeforeHasNone(Cut(rest.value, PATH_STATUSES).value.1, '/');
    }
  }

  lemma PrefixIsPlain(site: Site, user: string)
    requires PlainHost(site.host) && Plain(user)
    ensures '?' !in UserURL(site, user) + PATH_STATUSES && '#' !in UserURL(site, user) + PATH_STATUSES
  {
  }

  lemma ParseOf(site: Site, user: string, x: string)
    requires PlainHost(site.host) && Plain(user)
    ensures ParseLocalStatus(site, UserURL(site, user) + PATH_STATUSES + x) ==
            if WithoutQuery(x) == "" then None else Some((user, Before(WithoutQuery(x), "/")))
  {
    var w, base := WithoutQuery(x), BaseURL(site) + PATH_USERS;
    PrefixIsPlain(site, user);
    WithoutQueryPast(UserURL(site, user) + PATH_STATUSES, x);
    assert UserURL(site, user) + PATH_STATUSES + w == base + (user + PATH_STATUSES + w);
    assert (base + (user + PATH_STATUSES + w))[|base|..] == user + PATH_STATUSES + w;
    OwnerAndIdOf(user, w);
  }

  /** Cutting query, fragment and sub-path off leaves a plain id. */
  lemma TailIsCut(id: string, tail: string)
    requires '/' !in id && '?' !in id && '#' !in id && IsTail(tail)
    ensures Before(WithoutQuery(id + tail), "/") == id
    ensures WithoutQuery(id + tail) == "" <==> id == "" && (tail == "" || tail[0] != '/')
  {
    var rest := WithoutQuery(tail);
    BeforeAtOnce(tail, '#');
    BeforeAtOnce(Before(tail, "#"), '?');
    assert rest == "" || rest[0] == '/';
    WithoutQueryPast(id, tail);
    BeforePast(id, rest, '/');
    BeforeAtOnce(rest, '/');
  }

  /** A printed status url, with any sub-path, query or fragment behind it, reads back as its user and id
      exactly when the id is a plain segment, or empty before a sub-path. */
  lemma StatusReadsBackIff(site: Site, user: string, id: string, tail: string)
    requires PlainHost(site.host) && Plain(user) && IsTail(tail)
    ensures ParseLocalStatus(site, NoteURL(site, user, id) + tail) == Some((user, id)) <==>
            Plain(id) || (id == "" && tail != "" && tail[0] == '/')
  {
    var head := UserURL(site, user) + PATH_STATUSES;
    assert NoteURL(site, user, id) + tail == head + (id + tail);
    ParseOf(site, user, id + tail);
    ParsedIsCut(site, head + (id + tail));
    if '/' !in id && '?' !in id && '#' !in id {
      TailIsCut(id, tail);
    }
  }

  /** The two parsers agree on every url of this host, whatever follows the path. */
  lemma ParsersAgree(site: Site, path: string, tail: string)
    requires PlainHost(site.host) && site.host != "" && '?' !in path && '#' !in path
    requires IsQueryTail(tail)
    requires site.lib.parse(BaseURL(site) + path + tail) == Some(Url("https", site.host, path))
    requires site.hostname(site.host) == site.host
    ensures OwnStatusRef(site, BaseURL(site) + path + tail) == ParseLocalStatus(site, BaseURL(site) + path + tail)
  {
    var base := BaseURL(site);
    WithoutQueryOf(base + path, tail);
    assert HasPrefix(base + path, base + PATH_USERS) <==> HasPrefix(path, PATH_USERS) by {
      if |path| >= |PATH_USERS| {
        assert (base + path)[..|base + PATH_USERS|] == base + path[..|PATH_USERS|];
        assert (base + path)[|base|..|base + PATH_USERS|] == path[..|PATH_USERS|];
        assert (base + PATH_USERS)[|base|..] == PATH_USERS;
      }
    }
    if HasPrefix(path, PATH_USERS) {
      assert (base + path)[|base + PATH_USERS|..] == path[|PATH_USERS|..];
    }
  }

  /** Our actor urls read back as their user, except on a host called "users". */
  lemma ActorURLReadsBackIff(site: Site, user: string)
    requires '/' !in site.host && Plain(user)
    ensures UserFromActorURL(UserURL(site, user)) == user <==> site.host != "users" || user == "users"
  {
    var base := BaseURL(site);
    var s := base + PATH_USERS + user;
    ActorURLIndex(site, user);
    NothingToCut(user, '/');
    if site.host == "users" {
      assert s[14..] == "users" + "/" + user;
      CutAtFirst("users", "/", user);
    } else {
      assert s[|base| + |PATH_USERS|..] == user;
    }
  }

  lemma CharsOfPath(s: string, i: int)
    ensures OccursAt(s, PATH_USERS, i) ==>
              s[i] == '/' && s[i + 1] == 'u' && s[i + 2] == 's' && s[i + 3] == 'e'
              && s[i + 4] == 'r' && s[i + 5] == 's' && s[i + 6] == '/'
  {
    if OccursAt(s, PATH_USERS, i) {
      var t := s[i..i + 7];
      assert t[0] == s[i] && t[1] == s[i + 1] && t[2] == s[i + 2] && t[3] == s[i + 3];
      assert t[4] == s[i + 4] && t[5] == s[i + 5] && t[6] == s[i + 6];
    }
  }

  lemma HostIsUsers(host: string, rest: string)
    requires '/' !in host && rest != "" && rest[0] == '/' && |host + rest| >= 6
    requires (host + rest)[..6] == "users/"
    ensures host == "users"
  {
    var tail := host + rest;
    assert forall k :: 0 <= k < 6 ==> tail[k] == "users/"[k];
    assert tail[|host|] == '/';
    assert forall k :: 0 <= k < |host| ==> tail[k] == host[k] && host[k] in host;
    assert tail[5] == '/' && tail[0] == 'u' && tail[1] == 's' && tail[2] == 'e' && tail[3] == 'r' && tail[4] == 's';
    assert |host| == 5;
    assert host == tail[..|host|];
  }

  /** A path can only start at the slash before a host called "users" or at the end of the host. */
  lemma EarlierPath(host: string, rest: string, i: int)
    requires '/' !in host && rest != "" && rest[0] == '/'
    requires OccursAt("https://" + (host + rest), PATH_USERS, i) && i < 8 + |host|
    ensures i == 7 && host == "users"
  {
    var tail := host + rest;
    var s := "https://" + tail;
    assert forall k :: 8 <= k < 8 + |host| ==> s[k] == host[k - 8];
    assert forall k :: 0 <= k < 8 ==> s[k] == "https://"[k];
    CharsOfPath(s, i);
    if i == 7 {
      assert s[7..14][1..] == tail[..6];
      assert PATH_USERS[1..] == "users/";
      HostIsUsers(host, rest);
    }
  }

  lemma ActorURLIndex(site: Site, user: string)
    requires '/' !in site.host
    ensures Index(UserURL(site, user), PATH_USERS) == if site.host == "users" then 7 else |BaseURL(site)|
  {
    var base, rest := BaseURL(site), PATH_USERS + user;
    OccursBetween(base, PATH_USERS, user);
    Assoc("https://" + site.host, PATH_USERS, user);
    Assoc("https://", site.host, rest);
    var i := Index(UserURL(site, user), PATH_USERS);
    if site.host == "users" {
      UsersHost(user);
    }
    if i < |base| {
      EarlierPath(site.host, rest, i);
    }
  }

  lemma UsersHost(user: string)
    ensures OccursAt("https://" + "users" + PATH_USERS + user, PATH_USERS, 7)
  {
    var head := "https://" + "users" + PATH_USERS;
    assert head == "https:/" + PATH_USERS + "users/";
    assert (head + user)[7..14] == head[7..14];
    assert head[7..14] == ("https:/" + PATH_USERS)[7..];
  }

  lemma OccursBetween(a: string, b: string, c: string)
    ensures OccursAt(a + b + c, b, |a|)
  {
  }

  // ---- Replies: federated, deleted and served ids ----

  /** The url library reads a printed status url of this host as host and path. */
  ghost predicate ParsesPlainly(site: Site, user: string, id: string, tail: string) {
    && PlainHost(site.host) && site.host != "" && site.hostname(site.host) == site.host
    && site.lib.parse(NoteURL(site, user, id) + tail) ==
       Some(Url("https", site.host, PATH_USERS + user + PATH_STATUSES + id))
  }

  lemma OwnRefReadsBack(site: Site, user: string, id: string, tail: string)
    requires Plain(user) && Plain(id) && ParsesPlainly(site, user, id, tail)
    requires IsQueryTail(tail)
    ensures OwnStatusRef(site, NoteURL(site, user, id) + tail) == Some((user, id))
  {
    var path := PATH_USERS + user + PATH_STATUSES + id;
    assert NoteURL(site, user, id) == BaseURL(site) + path;
    ParsersAgree(site, path, tail);
    StatusReadsBackIff(site, user, id, tail);
  }

  /** The parent a reply or its deletion is addressed to. */
  function ParentOf(parentId: Option<string>, rootId: string): string {
    if parentId.Some? && parentId.value != "" then parentId.value else rootId
  }

  predicate IsSelfURL(site: Site, url: string) {
    var u := site.lib.parse(url);
    u.Some? && IsSelfHost(site, site.hostname(u.value.host))
  }

  /** The guard on every outbound fetch: never this gateway, and only https to a host that is not refused. */
  predicate MayFetch(site: Site, url: string) {
    var u := site.lib.parse(url);
    !IsSelfURL(site, url) &&
    (site.allowPrivate ||
     (u.Some? && u.value.scheme == "https" && site.hostname(u.value.host) != ""
      && !site.isBlocked(site.hostname(u.value.host))))
  }

  function Target(site: Site, objectURL: string): string {
    if HasPrefix(objectURL, site.retweetPrefix) then objectURL[|site.retweetPrefix|..] else objectURL
  }

  /** The inbox of the author of an object; fetch stands for reading the object and its author over the network. */
  function AuthorInbox(site: Site, fetch: string -> Option<string>, objectURL: string): Option<string> {
    if MayFetch(site, Target(site, objectURL)) then fetch(Target(site, objectURL)) else None
  }

  /** The tweet id of a federated reply; token is the random stand-in for a missing one. */
  function TweetIdOf(ev: Tweet, token: string): string {
    if ev.id == "" then token else ev.id
  }

  function FederatedID(site: Site, ev: Tweet, token: string): string {
    ReplyURL(site, ev.userId, TweetIdOf(ev, token), ParentOf(ev.parentId, ev.rootId))
  }

  /** What is posted to a remote inbox: the id of the note created or deleted, and the parent it answers. */
  datatype Post = Post(inbox: string, noteId: string, inReplyTo: string)

  /** Federating a reply; None when its parent's author cannot be found. */
  function Reply(site: Site, fetch: string -> Option<string>, ev: Tweet, token: string): Option<Post> {
    var parent := ParentOf(ev.parentId, ev.rootId);
    var inbox := AuthorInbox(site, fetch, parent);
    if inbox.Some? then Some(Post(inbox.value, FederatedID(site, ev, token), parent)) else None
  }

  datatype DeleteEvent = DeleteEvent(tweetId: string, userId: string, parentId: string, rootId: string)

  function TombstoneID(site: Site, ev: DeleteEvent): string {
    ReplyURL(site, ev.userId, ev.tweetId, ParentOf(Some(ev.parentId), ev.rootId))
  }

  function Delete(site: Site, fetch: string -> Option<string>, ev: DeleteEvent): Option<Post> {
    var parent := ParentOf(Some(ev.parentId), ev.rootId);
    var inbox := AuthorInbox(site, fetch, parent);
    if inbox.Some? then Some(Post(inbox.value, TombstoneID(site, ev), "")) else None
  }

  /** The parent of a reply that is federated is no status of this gateway; and it is not empty, nothing being
      fetched from an empty url. */
  lemma FederatedParentIsForeign(site: Site, fetch: string -> Option<string>, ev: Tweet, token: string)
    requires Reply(site, fetch, ev, token).Some?
    ensures OwnStatusRef(site, Target(site, ParentOf(ev.parentId, ev.rootId))).None?
    ensures !site.allowPrivate ==>
              var u := site.lib.parse(Target(site, ParentOf(ev.parentId, ev.rootId)));
              u.Some? && u.value.scheme == "https" && site.hostname(u.value.host) != ""
    ensures fetch("").None? ==> ParentOf(ev.parentId, ev.rootId) != ""
  {
    if ParentOf(ev.parentId, ev.rootId) == "" {
      assert Target(site, "") == "";
    }
  }

  /** p is what a reply or deletion answers: its parent, or the root when it names no parent. */
  predicate Answers(parentId: Option<string>, rootId: string, p: string) {
    if parentId.Some? && parentId.value != "" then p == parentId.value else p == rootId
  }

  /** p's author is asked for, and i is the inbox found there: a retweet's id is read without its prefix. */
  ghost predicate FoundAt(site: Site, fetch: string -> Option<string>, p: string, i: string) {
    && MayFetch(site, if HasPrefix(p, site.retweetPrefix) then p[|site.retweetPrefix|..] else p)
    && fetch(if HasPrefix(p, site.retweetPrefix) then p[|site.retweetPrefix|..] else p) == Some(i)
  }

  /** A reply goes to the inbox of the author of what it answers, in reply to that, under the printed id of the
      tweet or its random stand-in; it is sent exactly when that inbox is found. */
  lemma ReplyGoesToParent(site: Site, fetch: string -> Option<string>, ev: Tweet, token: string, p: string, i: string)
    requires Answers(ev.parentId, ev.rootId, p)
    ensures FoundAt(site, fetch, p, i) ==>
              var id := if ev.id != "" then ev.id else token;
              Reply(site, fetch, ev, token) ==
              Some(Post(i, "https://" + site.host + "/users/" + ev.userId + "/statuses/" + id +
                           "?" + ("parent=" + site.escape(p)), p))
    ensures Reply(site, fetch, ev, token).Some? ==> FoundAt(site, fetch, p, Reply(site, fetch, ev, token).value.inbox)
  {
  }

  /** A deletion goes to the inbox of the author of what the deleted reply answered and names that reply's id. */
  lemma DeleteGoesToParent(site: Site, fetch: string -> Option<string>, ev: DeleteEvent, p: string, i: string)
    requires if ev.parentId != "" then p == ev.parentId else p == ev.rootId
    ensures FoundAt(site, fetch, p, i) ==>
              Delete(site, fetch, ev) ==
              Some(Post(i, "https://" + site.host + "/users/" + ev.userId + "/statuses/" + ev.tweetId +
                           "?" + ("parent=" + site.escape(p)), ""))
    ensures Delete(site, fetch, ev).Some? ==> FoundAt(site, fetch, p, Delete(site, fetch, ev).value.inbox)
  {
  }

  /** Reply ids determine their parts. */
  lemma ReplyURLInjective(site: Site, user: string, id: string, parent: string, user2: string, id2: string,
                          parent2: string)
    requires PlainHost(site.host) && Plain(user) && Plain(id) && Plain(user2) && Plain(id2)
    requires site.escape(parent) == site.escape(parent2) ==> parent == parent2
    ensures ReplyURL(site, user, id, parent) == ReplyURL(site, user2, id2, parent2) <==>
            user == user2 && id == id2 && parent == parent2
  {
    var q, q2 := "?" + ReplyQuery(site, parent), "?" + ReplyQuery(site, parent2);
    var n, n2 := NoteURL(site, user, id), NoteURL(site, user2, id2);
    assert ReplyURL(site, user, id, parent) == n + q && ReplyURL(site, user2, id2, parent2) == n2 + q2;
    StatusReadsBackIff(site, user, id, q);
    StatusReadsBackIff(site, user2, id2, q2);
    if n + q == n2 + q2 {
      assert n == n2;
      assert (n + q)[|n|..] == q && (n2 + q2)[|n|..] == q2;
      assert q[1..][|PARENT_QUERY|..] == site.escape(parent) && q2[1..][|PARENT_QUERY|..] == site.escape(parent2);
    }
  }

  /** A deletion names the federated note exactly when it has the reply's user, id and parent. */
  lemma TombstoneNamesReplyIff(site: Site, ev: Tweet, token: string, del: DeleteEvent)
    requires PlainHost(site.host) && Plain(ev.userId) && Plain(TweetIdOf(ev, token))
    requires Plain(del.userId) && Plain(del.tweetId)
    requires site.escape(ParentOf(ev.parentId, ev.rootId)) == site.escape(ParentOf(Some(del.parentId), del.rootId)) ==>
             ParentOf(ev.parentId, ev.rootId) == ParentOf(Some(del.parentId), del.rootId)
    ensures TombstoneID(site, del) == FederatedID(site, ev, token) <==>
            && del.userId == ev.userId && del.tweetId == TweetIdOf(ev, token)
            && ParentOf(Some(del.parentId), del.rootId) == ParentOf(ev.parentId, ev.rootId)
  {
    ReplyURLInjective(site, del.userId, del.tweetId, ParentOf(Some(del.parentId), del.rootId),
                      ev.userId, TweetIdOf(ev, token), ParentOf(ev.parentId, ev.rootId));
  }

  /** While the remote side answers alike, deleting a reply reaches the inbox the reply went to and names its
      note, and is refused when the reply was. */
  lemma DeleteFollowsReply(site: Site, fetch: string -> Option<string>, ev: Tweet, token: string)
    ensures var parent := if ev.parentId.Some? then ev.parentId.value else "";
            var del := DeleteEvent(TweetIdOf(ev, token), ev.userId, parent, ev.rootId);
            var posted, deleted := Reply(site, fetch, ev, token), Delete(site, fetch, del);
            && (posted.Some? <==> deleted.Some?)
            && (posted.Some? ==>
                  deleted.value.inbox == posted.value.inbox && deleted.value.noteId == posted.value.noteId)
  {
  }

  // ---- Serving a status ----

  datatype Note = Note(id: string, inReplyTo: string)

  /** The parent of a native tweet (replyParentID). */
  function ReplyParentID(t: Tweet): string {
    if HasParent(t) then t.parentId.value else if t.rootId != t.id then t.rootId else ""
  }

  function BuildNote(site: Site, user: string, t: Tweet): Note {
    var parent := ReplyParentID(t);
    Note(NoteURL(site, user, t.id), if parent != "" then NoteURL(site, user, parent) else "")
  }

  /** The status a path below /users/ names, None for every other resource (handleUsers). */
  function StatusPath(path: string): Option<(string, string)> {
    var rest := CutPrefix(path, PATH_USERS);
    var parts := Split(if rest.Some? then rest.value else path, '/');
    if |parts| >= 3 && parts[1] == "statuses" && parts[2] != "" && !(|parts| >= 4 && parts[3] == "replies")
    then Some((parts[0], parts[2])) else None
  }

  /** Dereferencing a url by its decoded path and its query; hosted tells the users the gateway knows, lookup is
      the node's answer for a
      user, id and parent. */
  function Served(site: Site, hosted: string -> bool, lookup: (string, string, string) -> Option<Tweet>,
                  path: string, query: string): Option<Note>
  {
    var status, parent := StatusPath(path), site.parentIn(query);
    if status.None? || !hosted(status.value.0) then None
    else
      var (user, id) := status.value;
      var t := lookup(user, id, parent);
      if t.None? || t.value.id == "" then None
      else if parent == "" then Some(BuildNote(site, user, t.value))
      else Some(Note(ReplyURL(site, user, t.value.id, parent), parent))
  }

  lemma StatusPathIs(user: string, id: string)
    ensures PATH_USERS + user + PATH_STATUSES + id == PATH_USERS + (user + "/" + ("statuses" + "/" + id))
  {
    assert PATH_STATUSES + id == "/" + ("statuses" + "/" + id);
    Assoc(PATH_USERS, user, PATH_STATUSES + id);
    Assoc(PATH_USERS + user, PATH_STATUSES, id);
    Assoc(user, "/", "statuses" + "/" + id);
  }

  lemma CutPrefixOf(a: string, b: string)
    ensures CutPrefix(a + b, a) == Some(b)
  {
  }

  lemma SplitStatus(user: string, id: string)
    requires '/' !in user && '/' !in id
    ensures Split(user + "/" + ("statuses" + "/" + id), '/') == [user, "statuses", id]
  {
    SplitHead(user, "statuses" + "/" + id);
    SplitHead("statuses", id);
    SplitWhole(id);
  }

  lemma StatusPathOf(user: string, id: string)
    requires Plain(user) && Plain(id)
    ensures StatusPath(PATH_USERS + user + PATH_STATUSES + id) == Some((user, id))
  {
    StatusPathIs(user, id);
    CutPrefixOf(PATH_USERS, user + "/" + ("statuses" + "/" + id));
    SplitStatus(user, id);
  }

  /** A status asked for without a parent is served under its own id, in reply to its parent, to its root when it
      names no parent, and to nothing when it is its own root. */
  lemma PlainStatusServed(site: Site, hosted: string -> bool, lookup: (string, string, string) -> Option<Tweet>,
                          user: string, id: string, query: string, t: Tweet)
    requires Plain(user) && Plain(id) && hosted(user) && site.parentIn(query) == ""
    requires lookup(user, id, "") == Some(t)
    ensures var note := Served(site, hosted, lookup, PATH_USERS + user + PATH_STATUSES + id, query);
            if t.id == "" then note == None else
            && note.Some? && note.value.id == NoteURL(site, user, t.id)
            && (t.parentId.Some? && t.parentId.value != "" ==>
                  note.value.inReplyTo == NoteURL(site, user, t.parentId.value))
            && (t.parentId.None? || t.parentId.value == "" ==>
                  note.value.inReplyTo ==
                  if t.rootId != "" && t.rootId != t.id then NoteURL(site, user, t.rootId) else "")
  {
    StatusPathOf(user, id);
  }

  lemma SplitPair(a: string, b: string)
    requires '/' !in a && '/' !in b
    ensures Split(a + "/" + b, '/') == [a, b]
  {
    SplitHead(a, b);
    SplitWhole(b);
  }

  lemma SplitBeforeTwo(a: string, b: string, rest: string, segs: seq<string>)
    requires '/' !in a && '/' !in b && Split(rest, '/') == segs
    ensures Split(a + "/" + (b + "/" + rest), '/') == [a, b] + segs
  {
    SplitHead(b, rest);
    SplitHead(a, b + "/" + rest);
  }

  lemma SplitSubPath(user: string, id: string, sub: string)
    requires '/' !in user && '/' !in id && '/' !in sub
    ensures Split(user + "/" + ("statuses" + "/" + (id + "/" + sub)), '/') == [user, "statuses", id, sub]
  {
    SplitPair(id, sub);
    SplitBeforeTwo(user, "statuses", id + "/" + sub, [id, sub]);
    assert [user, "statuses"] + [id, sub] == [user, "statuses", id, sub];
  }

  lemma SubPathIs(user: string, id: string, sub: string)
    ensures PATH_USERS + user + PATH_STATUSES + id + "/" + sub
         == PATH_USERS + (user + "/" + ("statuses" + "/" + (id + "/" + sub)))
  {
    StatusPathIs(user, id + "/" + sub);
    Assoc(id, "/", sub);
    Assoc(PATH_USERS + user + PATH_STATUSES, id, "/" + sub);
    Assoc(PATH_USERS + user + PATH_STATUSES + id, "/", sub);
  }

  /** The replies of a status are another resource; any other sub-path is the status itself. */
  lemma SubPathOf(user: string, id: string, sub: string)
    requires Plain(user) && Plain(id) && '/' !in sub
    ensures StatusPath(PATH_USERS + user + PATH_STATUSES + id + "/" + sub) ==
            if sub == "replies" then None else Some((user, id))
  {
    SubPathIs(user, id, sub);
    CutPrefixOf(PATH_USERS, user + "/" + ("statuses" + "/" + (id + "/" + sub)));
    SplitSubPath(user, id, sub);
  }

  lemma SameReplyURL(site: Site, user: string, id: string, other: string, parent: string)
    ensures ReplyURL(site, user, id, parent) == ReplyURL(site, user, other, parent) <==> id == other
  {
    var head, tail := UserURL(site, user) + PATH_STATUSES, "?" + ReplyQuery(site, parent);
    assert ReplyURL(site, user, id, parent) == head + id + tail;
    assert ReplyURL(site, user, other, parent) == head + other + tail;
    if head + id + tail == head + other + tail {
      assert (head + id + tail)[|head|..|head + id|] == id && (head + other + tail)[|head|..|head + other|] == other;
    }
  }

  /** Every reply that is federated, and whose id the url library reads as it was printed, dereferences to itself:
      its id serves a note with that very id in reply to
      that very parent, exactly when the gateway knows the user and the node finds the reply under its id. */
  lemma ReplyDereferencesIff(site: Site, fetch: string -> Option<string>, hosted: string -> bool,
                             lookup: (string, string, string) -> Option<Tweet>, ev: Tweet, token: string)
    requires Plain(ev.userId) && Plain(TweetIdOf(ev, token)) && fetch("").None?
    requires Reply(site, fetch, ev, token).Some?
    requires site.parentIn(ReplyQuery(site, ParentOf(ev.parentId, ev.rootId))) == ParentOf(ev.parentId, ev.rootId)
    requires var path := PATH_USERS + ev.userId + PATH_STATUSES + TweetIdOf(ev, token);
             site.lib.parse(FederatedID(site, ev, token)) == Some(Url("https", site.host, path))
    ensures var user, id, posted := ev.userId, TweetIdOf(ev, token), Reply(site, fetch, ev, token).value;
            var found := lookup(user, id, posted.inReplyTo);
            var path, query := site.lib.parse(posted.noteId).value.path, ReplyQuery(site, posted.inReplyTo);
            && posted.noteId == NoteURL(site, user, id) + "?" + query
            && (Served(site, hosted, lookup, path, query) == Some(Note(posted.noteId, posted.inReplyTo)) <==>
                hosted(user) && found.Some? && found.value.id == id)
  {
    var user, id, parent := ev.userId, TweetIdOf(ev, token), ParentOf(ev.parentId, ev.rootId);
    FederatedParentIsForeign(site, fetch, ev, token);
    StatusPathOf(user, id);
    var found := lookup(user, id, parent);
    if found.Some? {
      SameReplyURL(site, user, found.value.id, id, parent);
    }
  }

  // ---- Back to native ids ----

  function Nativized(site: Site, t: Tweet, displayName: string): Tweet {
    var own := OwnStatusRef(site, t.id);
    var parent := if t.parentId.Some? then OwnStatusRef(site, t.parentId.value) else None;
    var u := if parent.Some? then t.(parentId := Some(parent.value.1)) else t;
    if own.None? then u
    else u.(id := own.value.1, userId := own.value.0, network := "",
           username := if displayName != "" then displayName else own.value.0)
  }

  class TweetRef {
    var t: Tweet

    constructor (t: Tweet)
      ensures this.t == t
    {
      this.t := t;
    }

    method NativizeOwnStatus(site: Site, account: Json)
      modifies this
      ensures t == Nativized(site, old(t), AsString(Field(account, "display_name")))
    {
      if t.parentId.Some? {
        var parent := OwnStatusRef(site, t.parentId.value);
        if parent.Some? {
          t := t.(parentId := Some(parent.value.1));
        }
      }
      var own := OwnStatusRef(site, t.id);
      if own.None? {
        return;
      }
      t := t.(id := own.value.1, userId := own.value.0, network := "", username := own.value.0);
      var name := AsString(Field(account, "display_name"));
      if name != "" {
        t := t.(username := name);
      }
    }
  }

  /** One item of a reply listing: rendered, then nativized. */
  method ReadReply(site: Site, note: Json) returns (r: Option<Tweet>)
    ensures r.Some? <==> TypeOf(note) == "Note" && AsString(Field(note, "id")) != ""
    ensures r.Some? ==>
              var id, own := AsString(Field(note, "id")), OwnStatusRef(site, AsString(Field(note, "id")));
              && r.value.id == (if own.Some? then own.value.1 else id)
              && (own.Some? ==> r.value.userId == own.value.0 && r.value.username == own.value.0)
              && r.value.network == (if own.Some? then "" else "mastodon")
    ensures r.Some? ==>
              var answered := AsString(Field(note, "inReplyTo"));
              var own := OwnStatusRef(site, answered);
              answered != "" ==>
                r.value.parentId == Some(if own.Some? then own.value.1 else answered) && r.value.rootId == answered
  {
    r := NoteToTweet(site.lib, HandleFromActorURL(site.lib.parse, AsString(Field(note, "attributedTo"))), note);
    if r.Some? {
      var ref := new TweetRef(r.value);
      ref.NativizeOwnStatus(site, Null);
      r := Some(ref.t);
    }
  }

  /** A status with the id of a federated reply has its native id and author again; its parent becomes bare when
      it is a status of ours, and stays as it is when it is foreign or missing. Nothing else changes. */
  lemma NativizeRestores(site: Site, t: Tweet, name: string, ev: Tweet, token: string)
    requires Plain(ev.userId) && Plain(TweetIdOf(ev, token)) && t.id == FederatedID(site, ev, token)
    requires ParsesPlainly(site, ev.userId, TweetIdOf(ev, token),
                          "?" + ReplyQuery(site, ParentOf(ev.parentId, ev.rootId)))
    ensures var u := Nativized(site, t, name);
            && u == t.(id := TweetIdOf(ev, token), userId := ev.userId, network := "",
                       username := if name != "" then name else ev.userId, parentId := u.parentId)
            && (t.parentId.None? || OwnStatusRef(site, t.parentId.value).None? ==> u.parentId == t.parentId)
            && (forall user, id, tail ::
                  ParsesPlainly(site, user, id, tail) && Plain(user) && Plain(id) && IsQueryTail(tail) ==>
                  (t.parentId == Some(NoteURL(site, user, id) + tail) ==> u.parentId == Some(id)))
  {
    var query := "?" + ReplyQuery(site, ParentOf(ev.parentId, ev.rootId));
    assert t.id == NoteURL(site, ev.userId, TweetIdOf(ev, token)) + query;
    OwnRefReadsBack(site, ev.userId, TweetIdOf(ev, token), query);
    forall user, id, tail | ParsesPlainly(site, user, id, tail) && Plain(user) && Plain(id) && IsQueryTail(tail)
      ensures OwnStatusRef(site, NoteURL(site, user, id) + tail) == Some((user, id))
    {
      OwnRefReadsBack(site, user, id, tail);
    }
  }

  /** A reply that was federated and comes back in reply to the parent it was posted under: the node's own id
      and author again, the parent's url untouched. */
  lemma FederatedReplyComesBack(site: Site, fetch: string -> Option<string>, t: Tweet, name: string, ev: Tweet,
                                token: string)
    requires Reply(site, fetch, ev, token).Some? && Plain(ev.userId) && Plain(TweetIdOf(ev, token))
    requires t.id == Reply(site, fetch, ev, token).value.noteId
    requires t.parentId == Some(Reply(site, fetch, ev, token).value.inReplyTo)
    requires ParsesPlainly(site, ev.userId, TweetIdOf(ev, token),
                          "?" + ReplyQuery(site, ParentOf(ev.parentId, ev.rootId)))
    requires var parent := ParentOf(ev.parentId, ev.rootId);
             Target(site, parent) != parent ==> OwnStatusRef(site, parent).None?
    ensures Nativized(site, t, name) ==
            t.(id := TweetIdOf(ev, token), userId := ev.userId, network := "",
               username := if name != "" then name else ev.userId)
  {
    FederatedParentIsForeign(site, fetch, ev, token);
    NativizeRestores(site, t, name, ev, token);
  }

  /** Restoring twice is restoring once, bare ids being no urls with a host. */
  lemma NativizeIdempotent(site: Site, t: Tweet, name: string)
    requires forall r :: '/' !in r && site.lib.parse(r).Some? ==> site.lib.parse(r).value.host == ""
    ensures Nativized(site, Nativized(site, t, name), name) == Nativized(site, t, name)
  {
    var u := Nativized(site, t, name);
    OwnRefIsBare(site, t.id);
    if t.parentId.Some? {
      OwnRefIsBare(site, t.parentId.value);
    }
  }

  lemma OwnRefIsBare(site: Site, url: string)
    ensures OwnStatusRef(site, url).Some? ==> '/' !in OwnStatusRef(site, url).value.1
  {
    var u := site.lib.parse(url);
    if OwnStatusRef(site, url).Some? {
      BeforeHasNone(Cut(CutPrefix(u.value.path, PATH_USERS).value, PATH_STATUSES).value.1, '/');
    }
  }
}
