# A verified model of the Warpnet-Fediverse gateway

The gateway connects a Warpnet member network to the Fediverse. This project models the parts of it whose
correctness rests on counters, bounded caches, orderings and parsers, and proves what they promise over all
inputs, all runs and all schedules.

How the model is laid out:

- Protocols with concurrency (`HedgedRace`, `SignedGet`, `Delivery`, and the history of `Federation`) are step
  systems. `Step` is total: a label that is not enabled changes nothing. So every sequence of labels is a run,
  and a theorem about `Exec(run)` ranges over every interleaving, failure and timing.
- Code that changes things step by step (`NodeClient`, `TweetPoller`, `TaskQueue`, `RateLimiters`,
  `OutboundFederation`, `FollowPoller`, `TweetRef`, `Inbox`, the fan-out of `Delivery.Gateway`, the call of
  `SignedGet.Fetcher`, the worker pool and the in-place filter in
  `FanOut`, `Paging.List`) is imperative: classes with the source's fields and loops, nondeterministic where the
  source leaves the order open, and proved against the step system or a specification function. A ghost history
  ties each object to the run it has made.
- Parsers and printers (`QuoteText`, `NoteMap`, `StatusIds`, `Codecs`) are functions, each with the lemma that
  says exactly which texts it accepts or when reading undoes writing.

`Seqs`, `Strings`, `Recency` and `Documents` hold what the others share: sequences, the string operations of the
Go library, move-to-front lists, and JSON documents and tweets.

Where the code does something else than its comments say, the model follows the code:

- The comment at `outbound.go:257-259` counts consecutive scans; the code counts empty *reads*, a failed read
  neither counts nor resets, a user listed twice is read twice, and a start through an accepted follow does not
  reset the count (`OneReadUndoesFollow` says exactly when one empty read undoes a fresh follow).
- `tweetpoller.go:73` seeds nothing when the fetch fails, so history is not replayed only for tweets that a
  successful seed held (`PublishedExactlyOnce` speaks of the first visit of each tweet).
- A following that does not resolve is missing from the current set (`outbound.go:174-178`) and is unfollowed if
  it was known.
- The quote fallback above a comment is not stripped when the comment itself ends in one
  (`LeadingFallbackStripped`), and a note answering one status is taken for a quote when its text ends in the url
  of another (`AnswerReadsBackIff`, `AnswerThreadsNativelyIff`).
- Restoring native ids leaves the root as it is (`mastodon-bridge.go:536-553`). For our own replies that is the
  parent's url, which is always foreign (`FederatedParentIsForeign`); a root that names a status of ours in url form
  can only come from a remote listing of somebody else's note that answers one of ours.
- `parseLocalStatus` accepts a url with an empty id before a sub-path (`StatusReadsBackIff`).
- The drain remembers lock times per client address, not per limiter (`rate-limit.go:242-252`), so a limiter can be
  replaced after one locked tick when the cache dropped its predecessor (`ReplacedOnlyWhenStuck`,
  `YoungLimiterReplaced`).
- An Undo of a Follow is ignored when the actor is an object or when the follow named no user, although the
  Follow itself is accepted (`UndoFollowIff`).

## Model

| member | source | states |
|---|---|---|
| HedgedRace.LaunchesInClosedForm | nodeclient.go:273-307 | In every reachable state candidates 0..next-1 are launched, next is min(peers, 1 + failures + hedges), inFlight is launches minus replies taken, inFlight 0 without a winner means every candidate was launched, and while candidates remain exactly 1 + hedges attempts are in flight |
| HedgedRace.WorkersNeverBlock | nodeclient.go:266-271 | A finishing worker always finds room on the reply channel, also after the request has returned |
| HedgedRace.WinnerAnswered | nodeclient.go:294-300 | The bytes returned are a reply that a launched candidate sent |
| HedgedRace.TimesOutAtDeadline | nodeclient.go:292-293 | The context's error is returned only once the deadline has passed, with attempts still in flight |
| HedgedRace.FinalErrorMeansAllFailed | nodeclient.go:301-311 | The final error is returned only when every candidate replied with an error, and carries one of those errors |
| HedgedRace.BoundedEffort | nodeclient.go:72-82 | A hedge fires at most once per two seconds until the last tick, at most 1 + hedges attempts are in flight and every reply and hedge is handled once; within the request timeout, and unless a tick is taken a second or more late, these are 12 hedges, 13 attempts and peers + 12 events |
| HedgedRace.HedgesIff | nodeclient.go:282-307 | The bound is exact: some run fires k hedges exactly when the kth tick falls due by the last tick taken |
| HedgedRace.RunInv | nodeclient.go:257-312 | The race invariant over every run: replies come from distinct launched candidates, all failures but a last winning one, and the outcome matches them |
| NodeClient.CandidatesAreExact | discovery.go:42-74 | The candidates are distinct, at most 64, never self, a relay or empty, known-good ones first, and complete unless 64 were found |
| NodeClient.CandidatesKeepOrder | discovery.go:60-70 | Candidates keep the order of the lists they come from |
| NodeClient.RememberedIsRecency | discovery.go:91-105 | After any run of remember calls the list is duplicate-free and at most 64 long; a peer is listed exactly while fewer than 64 others answered since, at exactly that position |
| NodeClient.LastWinnerGoesFirst | discovery.go:91-105 | The peer that answered last is the next request's first candidate if it is eligible |
| NodeClient.NodeClient.Remember | discovery.go:91-105 | The filtering loop yields the move-to-front list of all uses so far, cut at 64 |
| NodeClient.NodeClient.MemberCandidates | discovery.go:42-74 | The two loops over known-good and routing-table peers yield the candidate list |
| NodeClient.Round | nodeclient.go:286-307 | One turn of the select, whichever ready case it takes, is one step of the race and brings it nearer its end |
| NodeClient.NodeClient.Race | nodeclient.go:286-311 | The select loop, while other requests go on, terminates and is a run of the race |
| NodeClient.NodeClient.TryMembers | nodeclient.go:257-312 | While other requests go on, a winner and only a winner adds itself to the known-good list and is its head on return; the bytes are the reply it sent |
| NodeClient.NodeClient.ListPeers | nodeclient.go:235-244 | The candidates of the routing table now, or when there are none those after waiting for a refresh |
| NodeClient.NodeClient.Request | nodeclient.go:231-249 | Bytes are returned exactly when the race of the listed candidates was won, and are the reply that its winner, an eligible listed or known peer and now first in the list, sent; a failure adds nothing to what other requests did meanwhile |
| NodeClient.NodeClient.OwnerNode | nodeclient.go:339-360 | The owner is the cached one unless it expired, and otherwise what the user document, a reply in the race of a request, says; it is cached exactly when found |
| NodeClient.NodeClient.RequestUser | nodeclient.go:320-366 | The answer is the owner's exactly when the owner is found and answers, and then the owner stays cached; otherwise it is a reply in the race of a broadcast, and the owner is forgotten; whoever answered last is tried first next; another user's entry is unchanged, or dropped when the full cache takes a new user |
| Recency.BoundedIsPrefix | discovery.go:91-105 | Cutting a move-to-front list after every use gives the same list as cutting the unbounded one once |
| Recency.StackDistance | tweetpoller.go:39-47 | A key stands behind exactly the distinct keys used since its last use |
| TweetPoller.TweetPoller.Seed | tweetpoller.go:72-77 | Seeding marks every fetched tweet and publishes nothing; a failed fetch seeds nothing |
| TweetPoller.TweetPoller.Poll | tweetpoller.go:90-130 | A poll visits each fetched tweet once in order, publishes what the specification of the visits publishes, and only ids of fetched tweets that are the owner's, no retweets and without a parent |
| TweetPoller.TweetPoller.PollTweet | tweetpoller.go:93-105 | A tweet is published exactly when it is not known, is the owner's, no retweet and without a parent |
| TweetPoller.PublishedExactlyOnce | tweetpoller.go:39-47 | If any two successive pages together hold at most 8192 ids and re-adds come within a day, a tweet that stays in the feed is published exactly once if at its first poll it was the owner's, no retweet and without a parent, and never if the seed held it, whatever is evicted in the middle of a poll |
| TweetPoller.NeverAgain | tweetpoller.go:90-106 | A held tweet is never published again, whatever other keys come, expire or are reaped |
| TweetPoller.FirstVisitDecides | tweetpoller.go:72-106 | How often a tweet is published is settled at its first visit |
| TweetPoller.PagesGiveFew | tweetpoller.go:39-47 | Pages that fit the seen-set pairwise leave fewer than 8192 other ids between two visits of a tweet that stays |
| TweetPoller.KnownIffFewBetween | tweetpoller.go:94-98 | While nothing expires a tweet is still known exactly when fewer than 8192 other ids were visited since |
| SignedGet.OneFetchPerKey | server.go:755-780 | In every reachable state at most one upstream fetch per key is in flight |
| SignedGet.QuietAfterSuccess | server.go:746-786 | After a successful fetch none starts for that key until more than the TTL has passed or the entry was evicted |
| SignedGet.ResultsAreOwn | server.go:741-786 | Every caller gets the result of a fetch of its own key, made at most a second before its look-up or its flight's landing; only successes are cached, for at most a second |
| SignedGet.HitIsFresh | server.go:741-752 | What a look-up finds was fetched for that key at most a second before |
| SignedGet.WaitersAreServed | server.go:755-786 | While a caller waits, its flight exists and can move |
| SignedGet.Fetcher.SignedGet | server.go:746-786 | A call, among arbitrary steps of others before and after it joins a flight, comes back with the result of a fetch of its own key made at most a second before its look-up or its flight's landing; a cached entry is returned without any fetch |
| SignedGet.NearerByAny | server.go:755-780 | No step of anybody takes a waiting caller farther from its result |
| SignedGet.RunInv | server.go:746-786 | The cache and flight invariant over every interleaving of callers, flights, evictions, expiries and time |
| FanOut.RunPool | mastodon-bridge.go:355-376 | Whatever the schedule of at most eight workers, each slot holds what rendering its own item yields |
| FanOut.ResolveTimelineItems | mastodon-bridge.go:355-384 | The result is the in-order filter-map of the object items |
| FanOut.ResolveReplyItems | mastodon-bridge.go:739-775 | The result is the in-order filter-map of all items |
| FanOut.TopLevelOnly | mastodon-bridge.go:341-349 | The in-place compaction leaves exactly the parentless tweets in order in front and the rest of the array as it was |
| FanOut.ApTweets | mastodon-bridge.go:329-337 | A page is exactly the tweets of the serial rendering without a parent or with an empty one, in order |
| FanOut.PresentSnoc | mastodon-bridge.go:377-383 | Reading the slots one by one yields the present results in order |
| Delivery.TokensAreDeliveries | publish.go:95-107 | Tokens held are deliveries running, over all fan-outs, Accepts and forwards, and never exceed the capacity |
| Delivery.NoDeadlock | publish.go:95-118 | A waiting fan-out can take a token, or all tokens are out and the end of any delivery lets it |
| Delivery.EverythingCanEnd | publish.go:94-118 | From every reachable state the goroutines there can finish without new requests or cancellations: every delivery ends, every fan-out returns and every token is back |
| Delivery.RefusedOnlyWhenFull | inbox.go:102-112 | An inbound job is refused exactly while all tokens are out, and a refused one never runs |
| Delivery.FanoutIsComplete | publish.go:94-118 | A returned fan-out has attempted each listed follower exactly once, or exactly those of a prefix when cancelled, and none of its deliveries still runs |
| Delivery.Gateway.DeliverToFollowers | publish.go:94-118 | The loop, its select and the final wait, among arbitrary steps of others: terminates once its deliveries do, with each follower attempted exactly once, or those of a prefix when cancelled, and all of them over |
| Delivery.Gateway.WaitAll | publish.go:94-118 | The wait group is done only when no delivery of this fan-out runs, and waiting ends |
| Delivery.RunInv | publish.go:82-118 | The token and delivery invariant over every run |
| RateLimit.TaskQueue.CutOffBefore | rate-limit.go:133-144 | Drops exactly the first min(max(start, 0), len) tasks |
| RateLimit.TaskQueue.TaskByIndex | rate-limit.go:121-131 | Reads the task at the position, the nearest one when out of range |
| RateLimit.LimitKeepsAccount | rate-limit.go:103-109 | With this cut a call keeps the 32-bit total equal to the queue's weight, and the subtraction does not underflow while the weight fits |
| RateLimit.LibraryCutBreaksIff | rate-limit.go:103-109 | With the library's cut the account breaks exactly when every task has expired and the total was not zero |
| RateLimit.AccountHoldsForever | rate-limit.go:103-151 | After every run of calls from an empty queue the total is the queue's weight modulo 2^32 |
| RateLimit.WindowLimiter.Book | rate-limit.go:103-151 | A limiter that reads the queue task by task, subtracts the expired weights, cuts and appends makes exactly one such call on the queue, and keeps the account |
| StuckLimiters.RateLimiters.ResetGlobalIfStuck | rate-limit.go:217-229 | The remembered time after a tick, and a fresh global limiter exactly when locked for a window |
| StuckLimiters.RateLimiters.ClientLimiter | rate-limit.go:173-186 | Get-or-create: a cached client keeps its limiter, any other gets a fresh one |
| StuckLimiters.RateLimiters.ResetStuckClients | rate-limit.go:234-259 | The cached clients stay; exactly those found locked with a remembered time at least a window old get a limiter numbered above any made for them before; the times remembered are those of the other locked ones |
| StuckLimiters.RateLimiters.DrainTick | rate-limit.go:198-213 | One turn of the drain loop: the global limiter and the clients, over every interleaving with requests and evictions, are those of the run of ticks |
| StuckLimiters.TimeMarksStreak | rate-limit.go:217-229 | A remembered time is that of a tick since which the watched limiter was locked at every tick and not replaced |
| StuckLimiters.FiresOnlyWhenStuck | rate-limit.go:217-229 | Over every run the global limiter is replaced only when that same limiter was locked at every tick over a span of at least one window |
| StuckLimiters.StuckIsReset | rate-limit.go:188-229 | With ticks at most d apart a global limiter locked from time t on is replaced by t + window + 2d |
| StuckLimiters.SinceIsFresh | rate-limit.go:253-258 | After every tick a remembered time belongs to an IP locked now and is less than a window old |
| StuckLimiters.ReplacedIsNew | rate-limit.go:247-252 | A tick changes the limiters of exactly the clients it replaces, and each of these gets a new one |
| StuckLimiters.ReplacedOnlyWhenStuck | rate-limit.go:242-252 | A client's limiter is replaced only when the client was found locked at every tick over a span of at least one window; the replaced limiter was itself locked at all of them exactly when the cache has not dropped the client since the remembered tick |
| StuckLimiters.SameUnlessEvicted | rate-limit.go:173-186 | Between ticks that find a client and do not replace its limiter, the limiter changes exactly when the cache dropped the client |
| StuckLimiters.YoungLimiterReplaced | rate-limit.go:242-252 | A run in which a limiter is replaced after one locked tick, because the time remembered for its client is that of an evicted limiter |
| StuckLimiters.StuckIsReplaced | rate-limit.go:188-213 | With ticks at most d apart a client found locked from time t on has a new limiter in service by t + window + 2d |
| StuckLimiters.ClientIsWatched | rate-limit.go:234-259 | Over every run of ticks, requests and evictions, each client is watched exactly like the global limiter |
| Federation.OutboundFederation.Start | outbound.go:71-92 | Starting is idempotent per user and creates one poller group |
| Federation.OutboundFederation.Stop | outbound.go:95-105 | Stopping cancels the stored group once and forgets it |
| Federation.OutboundFederation.Reconcile | outbound.go:300-322 | One follower read is one step: failed, empty or non-empty |
| Federation.OutboundFederation.ScanPage | outbound.go:299-323 | A page reads each listed non-bridged user once per listing, in order, whoever is followed meanwhile |
| Federation.OutboundFederation.Scan | outbound.go:280-329 | Against any server, failing at any page, at most 100 listing requests, reading in order the native users of the pages the walk reads |
| Federation.ScanReadsWholeList | outbound.go:280-329 | Against a server of a fixed list a scan reads exactly its native users in order, each once per listing, up to the 100th page |
| Federation.CountIsEmptyReads | outbound.go:305-321 | The count of a user is the number of empty reads since its last non-empty one |
| Federation.FederatedIff | outbound.go:71-105 | A user is federated exactly when a follow or non-empty read started it and no second or later empty read came since |
| Federation.OneReadUndoesFollow | outbound.go:318-321 | One empty read undoes a fresh follow exactly when an empty read came before it with no non-empty one since |
| Federation.OneGroupPerUser | outbound.go:71-105 | Each user has at most one live poller group, the stored one, and every group is cancelled at most once |
| FollowPoller.FollowPoller.Poll | outbound.go:153-203 | Replaying the emitted events on the baseline gives exactly the known set; failed polls and vanished lists change nothing; known never becomes empty again |
| FollowPoller.CurrentIs | outbound.go:166-179 | The current actors are exactly those that a listed "ap:" id or handle resolves to |
| FollowPoller.RoundReplay | outbound.go:190-202 | In any iteration order a round's events follow only actors not followed, unfollow only followed ones, and take what was known to what is current |
| FollowPoller.EventsAlternate | outbound.go:190-199 | Follows and unfollows of one actor alternate |
| FollowPoller.AnnouncedReplay | outbound.go:190-199 | One event per actor, in any order, changes the replayed set by exactly those actors |
| Paging.WalkIsBounded | nodefollowers.go:102-141 | Against any server a cursor walk makes at most 100 requests |
| Paging.WalkStopsIff | nodefollowers.go:106-138 | A walk fails on a failed page, ends after the hundredth, an empty page, a page without a cursor and one that repeats the cursor it was asked with, and goes on after any other |
| Paging.UrlsOne | nodefollowers.go:122-133 | A listed id contributes its actor url exactly when it is an "ap:" id or a handle and resolves |
| Paging.WalkReadsAll | nodefollowers.go:106-138 | Against a server of a fixed list the walk reads exactly its first 100 pages, so all when there are no more |
| Paging.List | nodefollowers.go:102-141 | The loop returns the resolvable bridged ids of the walked pages in order, nothing when any page failed |
| Paging.ListReadsWholeList | nodefollowers.go:102-141 | Against such a server the list is exactly the resolvable bridged followers of all pages, in order |
| QuoteText.SpacesAre | mastodon-map.go:202-206 | Whitespace is the six ASCII space characters |
| QuoteText.SplitREQuoteIff | mastodon-map.go:195-210 | A text parses as a trailing quote exactly when its trimmed form is comment, whitespace, "RE: " and a whitespace-free https url, and into those parts |
| QuoteText.QuoteRoundTrip | mastodon-map.go:195-210 | Parsing undoes writing "RE: url" on a line under a trimmed non-empty comment |
| QuoteText.SplitREPrefixIff | mastodon-map.go:225-242 | A text parses as a leading quote exactly when it is "re:" in any case, whitespace, an https url and a trimmed rest |
| QuoteText.PrefixRoundTrip | mastodon-map.go:229-242 | Parsing undoes writing "RE: url rest" for a trimmed non-empty rest |
| QuoteText.TrailingFallbackStripped | mastodon-map.go:212-223 | A fallback under a comment is always stripped to the comment |
| QuoteText.LeadingFallbackStripped | mastodon-map.go:212-223 | A fallback above a comment is stripped to the comment, unless the comment ends in one: then that one goes and the one above stays |
| QuoteText.TwoFallbacks | mastodon-map.go:212-223 | The failing family: of two fallbacks and nothing else the one above stays |
| NoteMap.QuotesIff | mastodon-map.go:107-114 | Without a quote property a text quotes exactly when it ends in a quote under a non-empty comment |
| NoteMap.AnswersIff | mastodon-map.go:115-123 | It answers exactly when it does not quote and opens with the mark; the rest is the text, or all of it when nothing follows |
| NoteMap.QuoteReadsBack | mastodon-map.go:112-114 | Reading undoes writing a quote under its comment, never mistaking it for an answer |
| NoteMap.PropertyQuotes | mastodon-map.go:107-111 | With a quote property the note quotes it, and its text loses a fallback unless nothing else is there |
| NoteMap.QuotedNoteURLIs | mastodon-map.go:154-165 | The quoted url is the first https url among the four properties, in their order |
| NoteMap.StatusAuthorIs | mastodon-map.go:180-193 | A status url of the /users/name/statuses/id or the /@name/id form names its author |
| NoteMap.AnswerReadsBackIff | mastodon-map.go:112-123 | Reading undoes writing the answered url above a text exactly when that text does not end in a quote |
| NoteMap.NoteToTweet | mastodon-map.go:79-140 | Only notes with an id render; the root is the tweet itself when parentless and its parent otherwise; quote, parent, text, quoted author and images are as the text conventions say, and a text is never stripped to nothing |
| NoteMap.Heed | mastodon-map.go:107-123 | What the quote property and the conventions make of a fresh tweet, threading included |
| NoteMap.Images | mastodon-map.go:127-138 | The image keys are the urls of the image attachments, in order |
| NoteMap.ImageUrlIs | mastodon-map.go:128-137 | An attachment is an image exactly when it is an object with an image media type and a url |
| StatusIds.StatusReadsBackIff | inbound.go:185-203 | A printed status url, with any sub-path, query or fragment, reads back as its user and id exactly when the id is a plain segment, or empty before a sub-path |
| StatusIds.ParsersAgree | mastodon-bridge.go:558-575 | ownStatusRef and parseLocalStatus agree on every url of this host that parses plainly |
| StatusIds.SelfHostIgnoresCase | server.go:626-628 | Letter case does not matter in host names |
| StatusIds.OwnRefReadsBack | mastodon-bridge.go:555-575 | ownStatusRef recovers user and id from printed status and reply urls |
| StatusIds.ActorURLReadsBackIff | server.go:963-974 | An own actor url reads back as its user exactly when the host is not called "users" or the user is |
| StatusIds.ReplyURLInjective | mastodon-bridge.go:1010-1014 | Reply ids are equal exactly when user, id and parent are |
| StatusIds.ReplyGoesToParent | mastodon-bridge.go:989-1029 | A reply goes to the inbox of the author of its parent, or of its root when it names none, in reply to that and under the printed id with that parent; it is sent exactly when the inbox is found |
| StatusIds.DeleteGoesToParent | mastodon-bridge.go:1034-1060 | A deletion goes to the inbox of the author of the same parent or root and names the printed id with it |
| StatusIds.TombstoneNamesReplyIff | mastodon-bridge.go:1034-1060 | A deletion's tombstone names the federated note exactly when it has the reply's user, id (the random one when the node gave none) and parent |
| StatusIds.DeleteFollowsReply | mastodon-bridge.go:989-1060 | While the remote side answers alike, the deletion of a reply reaches the same inbox and names the same note, and is refused when the reply was |
| StatusIds.FederatedParentIsForeign | server.go:604-649 | The parent of a reply that is federated is never a status of this gateway and never empty, and outside tests it is an https url with a host |
| StatusIds.ReplyDereferencesIff | notes.go:108-140 | Every federated reply whose id the url library reads as printed dereferences, by the decoded path, to itself with its own parent, exactly when the gateway knows the user and the node finds the reply under its id |
| StatusIds.PlainStatusServed | notes.go:45-88 | A status asked for without a parent is served under its own id, in reply to its parent, to its root when it names none, and to nothing when it is its own root |
| StatusIds.StatusPathOf | server.go:296-327 | The route of a decoded status path is its user and id |
| StatusIds.SubPathOf | server.go:315-327 | The replies of a status are another resource, any other sub-path is the status itself |
| StatusIds.TweetRef.NativizeOwnStatus | mastodon-bridge.go:536-553 | The update in place yields the nativized tweet |
| StatusIds.NativizeRestores | mastodon-bridge.go:531-553 | A status with the id that Reply printed has its native id and author again; a parent of ours becomes bare, a foreign or missing one stays, and nothing else changes |
| StatusIds.FederatedReplyComesBack | mastodon-bridge.go:531-553 | A reply that was federated and comes back under its parent is native again with the parent's url untouched |
| StatusIds.NativizeIdempotent | mastodon-bridge.go:536-553 | Restoring twice is restoring once |
| StatusIds.ReadReply | mastodon-bridge.go:477-487 | A listed reply of our own comes back under its native id, author and parent; a foreign one under its url |
| Codecs.DecodeEncode | followers.go:62-84 | base64url decoding undoes encoding for every byte string (section 5 of RFC 4648) |
| Codecs.Rfc4648 | followers.go:62-64 | The corners of the base64url alphabet and the example strings of RFC 4648 |
| Codecs.ActorIDRoundTrip | followers.go:59-84 | An actor id gives its url back and holds no slash, plus or padding |
| Codecs.MediaRefRoundTrip | mediaproxy.go:41-54 | A media reference gives its parts back exactly when the user id does not hold the separator |
| Codecs.BridgedIsRecognised | inbound.go:228-234 | Every user id made for an actor url is recognised as a Fediverse account's |
| Codecs.BridgedIff | followers.go:70-72 | A Fediverse account's id is an "ap:" id or holds an at sign |
| Codecs.EncodedWithoutHandle | inbound.go:228-234 | An actor url that gives no handle is encoded as it is, reversibly |
| Codecs.TwoUrlsOneHandle | inbound.go:236-249 | The /users/name and /@name urls of an account give one user id |
| Inbound.HeldIffLastSet | inbound.go:50-181 | Over every run a node holds exactly the reaction, boost and follow keys that some activity set and none cleared since |
| Inbound.LikeAndBoostTranslate | inbound.go:57-85 | A like of one of our statuses is the actor's reaction to the owner's tweet, not the reverse; a boost is the owner's tweet retweeted by the actor |
| Inbound.UndoTranslates | inbound.go:147-178 | Undoing a like, a boost and a follow names the tweet, its owner and the actor, or the follower and the followed |
| Inbound.UndoHitsTheSameKey | inbound.go:147-178 | A Like or Announce and its Undo are handled or ignored together and address the same key |
| Inbound.UndoErases | inbound.go:147-178 | After an Undo the key is gone and every other one is as before, whatever came before |
| Inbound.UndoFollowIff | inbox.go:85-91 | A Follow and its Undo address the same pair exactly when the actor is a plain string and the object names a user; otherwise the follow stays |
| Inbound.FollowOutlivesUndo | inbox.go:85-91 | The failing run: a Follow with an object as actor, taken by bob's own inbox, outlives its Undo |
| Inbound.FollowAndUndo | inbound.go:153-160 | The pair that a Follow stores and the one its Undo removes |
| Inbound.ReplyThreadsNatively | inbound.go:92-146 | A note in reply to one of our statuses becomes a reply with the note's id, parent, parent's owner, root, text and author in their places, however the url is decorated |
| Inbound.PropertyQuotesNatively | inbound.go:94-118 | A note whose quote property names one of our statuses becomes a quote of the native tweet without its text fallback |
| Inbound.QuoteThreadsNatively | inbound.go:94-118 | A note ending in one of our status urls under a comment becomes a quote of the native tweet with the comment |
| Inbound.AnswerThreadsNativelyIff | inbound.go:119-132 | A note opening with one of our status urls becomes a reply with the comment exactly when the comment does not end in a quote of a status of ours |
| Inbound.Inbox.HandleInbox | inbox.go:51-147 | The status answered in each case, and the node always holds what the run of completed activities leaves: refused, unverified and unfinished ones change nothing |

## Left out

- The remote side, HTTP serving and clients, libp2p, DHT, TLS, logging and tracing: peers, servers and resolvers
  are arbitrary functions, parameters or nondeterministic choices.
- HTTP signatures, keys and crypto: the inbox is told whether verification succeeded.
- url parsing, HTML stripping and query encoding are parameters; the lemmas name the facts they need of them.
  Percent-decoded paths are covered only as far as the parse parameter yields them.
- The library's rate limiter, single-flight group and expiring LRU are modelled by their contracts: the LRU's
  Contains neither checks expiry nor touches recency, entries vanish only when expired or on overflow.
- The single-flight group is modelled with one shared context: a caller whose own context ends still waits.
- signedGet without a cache: every caller would fetch once per flight.
- Retries inside one upstream fetch count as part of it.
- perPeerTimeout is one reason for a worker to fail.
- HedgedRace.BoundedEffort: how late after the deadline a due tick may still be taken is a parameter, because select
  may prefer a ready tick to the ended context; nothing in the code bounds a delayed loop.
- Delivery.NoDeadlock: that a delivery never asks for a second token is built into the labels. The bodies of the
  workers (publish.go:101-116, inbox.go:103-106, inbox.go:135-140) hold no send on the semaphore, and an Accept
  starts its pollers and profile update in goroutines of their own (outbound.go:81-91).
- StuckLimiters.RateLimiters.ResetStuckClients: requests and evictions happen between ticks; an entry that leaves the
  cache between its check and its replacement inside one tick is not modelled.
- RateLimit.WindowLimiter.Book: the library's limiter is taken as the comment on the queue describes it.
- StatusIds.ReplyDereferencesIff: that nothing can be fetched from an empty url, and that the query library reads
  back what it wrote, are hypotheses.
- StatusIds.FederatedReplyComesBack: that an id with the retweet prefix is no url of this host is a hypothesis.
- Whitespace and case folding outside ASCII in the text conventions, where the code looks at one byte
  (mastodon-map.go:202).
- Timestamps of tweets and notes, and rendering of content, attachments and recipients: no property depends on
  them.
- FanOut.RunPool: what rendering an item yields, fetches included, is given per item and does not depend on the
  schedule.
- Inbound.HeldIffLastSet: which tables a node keeps for quotes and replies is not modelled; they touch none of the
  three key sets.
- Inbound.Inbox.HandleInbox: the Accept, the store and the forward happen at one point of the run; their ordering
  and tokens are the subject of Delivery.
- NodeClient.NodeClient.RequestUser: concurrent calls share the known-good list but do not interleave on the owner
  cache, and an entry of another user that expires during the call still counts as held.
- NodeClient.NodeClient.TryMembers: the head of the known-good list is the winner when remember returns; a
  concurrent winner may take its place before the caller goes on.
- NodeClient.NodeClient.Request: that an answerer is first in the list holds when remember returns, as for
  TryMembers.
- Codecs.DecodeEncode: nothing is said about malformed input, where the Go decoder is more lenient.
- apReplies, contextReplies, restStatusToTweet: accumulating loops over remote pages whose item handling is that
  of ReadReply and FanOut.
- memFollowerStore, actor, badge, nodeinfo and collection documents, the log ring, route weights: easy or
  straight-line members.
