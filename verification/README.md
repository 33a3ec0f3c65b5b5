# Verified model of the Cyandie backend's stateful services

The backend keeps two representations of most things in step: SQL rows and Redis keys, per-connection maps
and stored rows, bytes and frames. This project models the services that do so and proves what they keep,
over every run and, where goroutines share data, over every interleaving.

- `Codec.dfy`, `SharedSend.dfy`: the chat protocol's frames, decoding from a chunked reader, and several
  goroutines sending on one connection.
- `Friends.dfy`, `FriendsRuns.dfy`, `BlockCache.dfy`: friend requests, blocks and their Redis cache, online
  keys and notifications; runs of calls; Block and Unblock interleaved step by step.
- `Chat.dfy`, `ChatServer.dfy`, `ChatSteps.dfy`, `ChatBlocks.dfy`, `ChatPresence.dfy`: the TCP chat server with
  handlers one at a time, the same in place on connection objects, its goroutines interleaved, and the friends
  service as its block checker and as its presence.
- `Leaderboard.dfy`: the score log against one Redis sorted set per board.
- `RateLimit.dfy`: the fixed-window counter.
- `Platforms.dfy`: platform identities bound to accounts.

Each service is a class whose methods change its fields as the Go code does. A method's contract equates the
state before and after through a function of a state datatype (`Store`, `State`, `Boards`, `Accounts`), and
the lemmas are about those functions: invariants over all runs, refinement of one form by another, round
trips, and exact conditions. In the step systems a step that is not enabled leaves the state as it is, so
every list of steps is a schedule.

Where the code and its documents disagree the model follows the code, and a lemma says exactly when the two
agree:

- docs/superpowers/specs/2026-05-13-phase6-social-presence-design.md:7 wants a block to stop requests in both
  directions; the code looks at one (`FriendsRuns.RowAcrossBlockIff`; a run: `FriendsRuns.BlockedFriends`).
- The same document (:133, :246) wants every friend told when a user comes online; the code addresses each
  friendship's `friend_id` (`FriendsRuns.ToldIffAsked`; a run: `FriendsRuns.FriendIsNotTold`).
- The same document (:161-170), and the comment at internal/chat/service.go:208, refuse a message whose receiver
  has blocked the sender; the handler passes the two ids the other way round (`ChatBlocks.IntentIff`,
  `ChatBlocks.BlockerReceivesIff`; a run: `ChatBlocks.BlockerHears`).
- The same document (:167-168) falls back to the database when the cached set lacks an entry; the code takes that
  for the answer and reads the database only when Redis fails. Results of SADD are ignored, also while the cache
  is loaded, and Redis may lose its keys, so entries can be lacking (`FriendsRuns.RowAgainstBlockIff`,
  `FriendsRuns.NeverAgainstBlockIff`; a run: `FriendsRuns.ColdCacheLetsThrough`).
- docs/superpowers/specs/2026-05-12-rate-limiting-timeout-design.md:13 calls the limiter a sliding window; it is
  a fixed one (`RateLimit.SlidingLimitIff`; arrivals: `RateLimit.StraddlingBursts`).
- migrations/005_leaderboard.sql:6 gives boards the default strategy `highest`; submissions always overwrite
  (`Leaderboard.KeepsHighestIff`; a run: `Leaderboard.HighestIsOverwritten`).

Four things one would expect hold only under a condition, which is exact:

- Cache and table of blocks agree on a pair (`BlockCache.AgreeIff`; a schedule: `BlockCache.OverlapDiverges`).
- A room held by a connection has its user's membership row (`Chat.AlwaysBackedIff`, `ChatSteps.AlwaysBackedIff`;
  runs: `Chat.EachWayUnbacks`, `ChatSteps.SecondConnectionUnbacks`).
- A board shows the latest scores (`Leaderboard.LostScoresIff`).
- The ranks on a page are those of its entries (`Leaderboard.RanksAreTrueIff`; an input: `Leaderboard.NegativeOffset`).

Modelling conventions. Ids are numbers standing for canonical UUIDs, whose lower-case texts compare as the
numbers do. Rows that SQL lists by update time are kept in that order. A database call fails only for a
missing or duplicate row; Redis reads may fail where a parameter says so. Time in the limiter is in
nanoseconds since Go's zero time and windows last a second or more; EXPIRE counts whole seconds. A room string
is a UUID, if it parses, and a spelling. A stored chat message also records the connection and room string it
was sent with.

## Model

| member | source | states |
|---|---|---|
| Codec.EncodeFrame | internal/chat/codec.go:20-26 | the buffer filled in place is the big-endian header, length modulo 2^32, and the value |
| Codec.ReadFull | internal/chat/codec.go:30-42 | filling a buffer from any chunking of the stream: the result depends on the bytes only, and a stream that is too short is used up |
| Codec.DecodeFrame | internal/chat/codec.go:28-47 | header, bound, value and the three error paths, whatever the chunks, with exactly the bytes consumed |
| Codec.ReadLoop | internal/chat/server.go:141-152 | the handler gets exactly the frames of the stream up to the first error, in order, and the loop ends |
| Codec.Layout | internal/chat/codec.go:20-26 | the bytes on the wire: two of type, four of length modulo 2^32, the most significant first, then the value |
| Codec.RoundTripIff | internal/chat/codec.go:20-47 | a frame comes back from its encoding, whatever follows, if and only if its value has at most 1048576 bytes |
| Codec.OversizeIsRefused | internal/chat/codec.go:37-39 | a value over the bound that the length field can express is refused by its size |
| Codec.CutIsRefused | internal/chat/codec.go:30-44 | an encoding cut anywhere gives an error, never a partial frame |
| Codec.DecodeIsInverse | internal/chat/codec.go:28-47 | the bytes a decoded frame consumed are that frame's encoding |
| Codec.StreamIsConsumed | internal/chat/codec.go:20-47 | concatenated encodings decode to the list of frames and every byte is consumed |
| Codec.StreamSplits | internal/chat/server.go:141-152 | any stream is the encoding of the frames handled and a rest that starts with none; each frame takes at least 6 bytes |
| Codec.StreamIsLongest | internal/chat/server.go:141-152 | every list of frames whose encoding starts the stream is a prefix of the frames handled |
| SharedSend.PeerSeesWholeFrames | internal/chat/server.go:155-160 | for every schedule of callers, partial writes and a failing write, the peer decodes exactly the completed frames and each caller's are in its order |
| SharedSend.SendGetsThrough | internal/chat/server.go:155-160 | a caller that finds the mutex free gets its next frame onto the wire whole, however the write is cut in two |
| SharedSend.FailureSilences | internal/chat/server.go:155-160 | after a failed write nothing more reaches the wire or counts as sent, whatever is scheduled |
| Friends.FriendsService.SendRequest | internal/friends/service.go:39-79 | the new tables and the result, each refusal in the code's order |
| Friends.FriendsService.AcceptRequest | internal/friends/service.go:81-99 | the row accepted and moved to the front, or not found |
| Friends.FriendsService.RejectRequest | internal/friends/service.go:101-115 | the row deleted, or not found |
| Friends.FriendsService.RemoveFriend | internal/friends/service.go:344-367 | the pair's row deleted in either direction and the other party told, or an internal error |
| Friends.FriendsService.Block | internal/friends/service.go:214-259 | relation stored, friendship deleted, cache extended, target told; a duplicate changes nothing |
| Friends.FriendsService.Unblock | internal/friends/service.go:261-284 | relation and cache entry removed; an unknown relation changes nothing |
| Friends.FriendsService.IsBlocked | internal/friends/service.go:286-316 | with a coherent cache the answer is the table's; a wrong answer comes only from Redis, for a stale or a lacking entry |
| Friends.FriendsService.LoadBlockCache | internal/friends/service.go:329-341 | adding the relations one at a time, in any order, adds exactly the table to the cache |
| Friends.FriendsService.SetOnline | internal/friends/service.go:143-165 | key set or refreshed, friend ids announced only when it was not there |
| Friends.FriendsService.SetOffline | internal/friends/service.go:167-187 | key removed, friend ids told only when it was there |
| Friends.FriendsService.GetOnlineFriends | internal/friends/service.go:189-212 | the loop returns the other party of each accepted row that is online |
| FriendsRuns.SendSucceedsIff | internal/friends/service.go:39-79 | exactly when a request succeeds, whether or not Redis can be read; it is then a pending row with a new id, ahead of the others; each refusal in order, changing nothing |
| FriendsRuns.AcceptChangesOneRow | internal/friends/service.go:81-99 | accepting changes one row's status and no other row |
| FriendsRuns.AcceptedComesFirst | internal/friends/service.go:81-99 | the accepted row is the answer and the latest row, the others keep their order; not found changes nothing |
| FriendsRuns.RejectDeletesOneRow | internal/friends/service.go:101-115 | rejecting takes exactly the row asked for out of the list, or finds none and changes nothing |
| FriendsRuns.AcceptedSeeEachOther | internal/friends/service.go:39-99 | after a request and its acceptance each is listed as the other's online friend exactly while online |
| FriendsRuns.RemoveDeletesPair | internal/friends/service.go:344-367 | removal succeeds exactly when the two are joined, takes that row only out of the list and tells the other party; otherwise an internal error and no change |
| FriendsRuns.UnblockUndoesBlock | internal/friends/service.go:214-284 | unblocking restores relation and cache, not the friendship |
| FriendsRuns.BlockIsExact | internal/friends/service.go:214-259 | exactly when a block succeeds, the one relation added to table and cache, the target told, and each refusal, changing nothing |
| FriendsRuns.UnblockIsExact | internal/friends/service.go:261-284 | exactly that relation leaves table and cache, or the unblock fails and changes nothing |
| FriendsRuns.LoadAddsWhatIsMissing | internal/friends/service.go:326-341 | loading into any cache, partly filled or stale, adds what is missing and removes nothing; lookups then answer as the designed one did before |
| FriendsRuns.RunKeepsInv | internal/friends/service.go:39-115 | in every reachable state: one row per unordered pair, no self row, cache equal to the table, no row from a blocked user to its blocker |
| FriendsRuns.RunLivesOn | internal/friends/service.go:69-115 | each row id only goes pending, accepted, deleted, between the same two users |
| FriendsRuns.BlockRemovesPair | internal/friends/service.go:236-246 | a block removes the pair's row whoever asked, and no other |
| FriendsRuns.RowAcrossBlockIff | internal/friends/service.go:52-58 | exactly which call puts a row across a block: a blocker asking the user it has blocked |
| FriendsRuns.BlockedFriends | internal/friends/service.go:52-58 | a run after which a block stands beside an accepted friendship |
| FriendsRuns.RowAgainstBlockIff | internal/friends/service.go:52-74 | whatever the cache holds: exactly which call puts a row from a blocked user to its blocker, namely a request the designed lookup refuses and the code's, reading Redis without the entry, does not |
| FriendsRuns.NeverAgainstBlockIff | internal/friends/service.go:286-316 | over every run from any cache, no such row ever exists if and only if no such request is made |
| FriendsRuns.ColdCacheLetsThrough | internal/friends/service.go:329-341 | with the cached sets lost a blocked user's request is stored, and loading the cache does not remove it |
| FriendsRuns.OnlineFriendsExactlyOnce | internal/friends/service.go:189-212 | in every reachable state each online friend is listed exactly once, whoever sent the request |
| FriendsRuns.OnlineIsTold | internal/friends/service.go:149-164 | coming online lasts 300 s and is told to exactly the friend ids of the accepted rows, once; to nobody when online already |
| FriendsRuns.OfflineIsTold | internal/friends/service.go:172-186 | going offline is told to exactly the same users if the user was online, and to nobody otherwise |
| FriendsRuns.ToldIffAsked | internal/friends/service.go:155-160 | the note that a user has come online is addressed to a friend if and only if that user had sent the request, and to the user itself if and only if some friend had |
| FriendsRuns.FriendIsNotTold | internal/friends/service.go:155-160 | a run in which a user comes online, its friend is not told and it is told itself |
| FriendsRuns.TraceAlternates | internal/friends/service.go:143-187 | for each user over every run online alternates with offline or expiry, none unmatched |
| FriendsRuns.HeartbeatsNeverExpire | internal/friends/service.go:149-163 | heartbeats less than 300 s apart with no SetOffline never expire and never announce again |
| FriendsRuns.LateHeartbeatIff | internal/friends/service.go:149-163 | the next heartbeat announces the user again if and only if it comes 300 s or more later |
| BlockCache.TableIsLastWrite | internal/friends/service.go:227-274 | for every schedule the table holds what the last successful database step on the pair did |
| BlockCache.CacheIsLastDelivery | internal/friends/service.go:248-282 | for every schedule the cache holds what the last Redis write on the pair to arrive did |
| BlockCache.AgreeIff | internal/friends/service.go:227-282 | from a coherent start and for every schedule, calls overlapping and writes lost or not, cache and table agree on a pair if and only if those two did the same |
| BlockCache.QuietAgreeIff | internal/friends/service.go:227-282 | no write lost and no call in flight: they agree if and only if nothing was written or the last two effects are both blocks or both unblocks |
| BlockCache.InOrderAgrees | internal/friends/service.go:227-282 | calls may overlap as they like, if the call that wrote the table last is the last to write the cache |
| BlockCache.QuietPairsAgree | internal/friends/service.go:227-316 | under any interleaving of database and Redis steps, one call per pair and no lost write, IsBlocked is the table's answer for pairs with no call in flight, whichever Redis reads fail |
| BlockCache.DeliveredIffCoherent | internal/friends/service.go:248-282 | a call leaves its pair coherent if and only if its Redis write is delivered |
| BlockCache.OverlapDiverges | internal/friends/service.go:227-281 | a schedule of two calls in which the last table write is an unblock and the last cache write a block: the cache stays wrong |
| BlockCache.AloneIsAtomic | internal/friends/service.go:214-284 | uninterrupted steps do what the atomic call does to table and cache |
| ChatServer.Connection.JoinRoom | internal/chat/server.go:35-42 | the room is added to the connection's set, nothing else changes |
| ChatServer.Connection.LeaveRoom | internal/chat/server.go:44-50 | the room is taken out of the connection's set, nothing else changes |
| ChatServer.Connection.Send | internal/chat/server.go:155-160 | one more item in the stream while writes succeed |
| ChatServer.TCPServer.Accept | internal/chat/server.go:94-105 | a new connection without user or rooms is filed under its id, in place of any entry there |
| ChatServer.TCPServer.Broadcast | internal/chat/server.go:162-170 | exactly the other connections that are logged in and whose room set has the room get the frame, once; the others stay |
| ChatServer.TCPServer.GetConnection | internal/chat/server.go:172-181 | some connection with the user id asked for, and none only if there is none; the empty id finds one that has not logged in |
| ChatServer.ChatService.HandleDisconnect | internal/chat/service.go:61-66 | the connection leaves the table and its user, if any, goes offline |
| ChatServer.ChatService.HandleAuth | internal/chat/service.go:94-121 | user and username set and confirmed, or an error and no change of either |
| ChatServer.ChatService.HandleHeartbeat | internal/chat/service.go:78-82 | acknowledged, and the user set online under its username when there is one |
| ChatServer.ChatService.HandleJoinRoom | internal/chat/service.go:123-152 | row, room set and reply, and each error path |
| ChatServer.ChatService.HandleLeaveRoom | internal/chat/service.go:154-184 | row, room set and reply, and each error path |
| ChatServer.ChatService.IsBlockedIn | internal/chat/service.go:209-222 | the member loop answers whether some other stored member makes the checker, asked sender first, say yes |
| ChatServer.ChatService.HandleSendMessage | internal/chat/service.go:186-250 | message stored and broadcast, or the error of the first condition that fails |
| ChatServer.ChatService.HandleInviteRoom | internal/chat/service.go:252-298 | a stored member's invitation goes to one connection with the target's user id, if there is one |
| ChatServer.ChatService.HandleMessage | internal/chat/service.go:68-92 | each message type reaches its handler |
| Chat.ListenerReceivesLog | internal/chat/service.go:203-249 | with handlers one at a time, a connection that stays in a room receives exactly the messages stored for it meanwhile, in log order, minus its own |
| Chat.PostReachesExactly | internal/chat/server.go:162-170 | a stored message is written to exactly the other connections that are logged in, in its room and can be written to; nothing else about any connection changes |
| Chat.OutsiderReceivesNothing | internal/chat/server.go:162-170 | over any run in which a connection is never in a room it receives nothing of that room |
| Chat.OthersSeeOnlyRoomAndInvitations | internal/chat/service.go:68-92 | a client's message changes another connection by at most the message posted to a room both are in, or its invitation |
| Chat.AcceptedIsNew | internal/chat/server.go:94-105 | an accepted connection has no user, rooms or output; the others stay |
| Chat.ClosedIsGone | internal/chat/server.go:125-135 | a closed connection is gone, its user set offline, the others stay |
| Chat.BrokenLinkIsSilent | internal/chat/server.go:155-160 | once its link has broken a connection's stream never grows, over any run |
| Chat.AuthAnswers | internal/chat/service.go:94-121 | each answer to a login, and that user and username change exactly with a valid token |
| Chat.NameTravels | internal/chat/service.go:78-121 | the name given on logging in is the one later heartbeats and invitations carry |
| Chat.JoinAnswers | internal/chat/service.go:123-152 | each answer to a request to join, an unparsed room meaning the nil room; room set and rows change exactly with the good one |
| Chat.LeaveAnswers | internal/chat/service.go:154-184 | each answer to a request to leave, likewise |
| Chat.SendAnswers | internal/chat/service.go:186-234 | each refusal of a send and its condition; let through, the message is stored as sent and the sender not answered |
| Chat.InviteAnswers | internal/chat/service.go:252-281 | each refusal of an invitation and its condition |
| Chat.OthersAreIgnored | internal/chat/service.go:75-92 | a message of any other type changes nothing |
| Chat.RefusedIff | internal/chat/service.go:197-234 | a send is stored if and only if room check, block check and room row let it through; refused, it touches no log, no other connection and no stream of messages |
| Chat.JoinIff | internal/chat/service.go:134-151 | joining succeeds if and only if the room exists and the user has no row there, on any connection |
| Chat.LeaveUndoesJoin | internal/chat/service.go:134-175 | leaving gives rows and room set back as they were before joining |
| Chat.InvitationReachesTarget | internal/chat/service.go:269-297 | exactly which stream an invitation changes: the connection picked, if it has the target's user id and the inviter is a stored member; with an empty target, a connection that has not logged in |
| Chat.UnbacksIff | internal/chat/service.go:94-184 | exactly which events take the row from a held room: leaving it where the same user holds it on another connection or under another spelling, and logging in again as a user without the row |
| Chat.AlwaysBackedIff | internal/chat/service.go:94-184 | over every run all held rooms have their rows all along if and only if no event is one of these |
| Chat.EachWayUnbacks | internal/chat/service.go:94-175 | a run for each of the three ways, after which a connection listens to a room its user is no member of |
| ChatSteps.EachSenderOnceInOrder | internal/chat/server.go:162-170 | under every interleaving, messages of one sending connection reach each stream at most once and in send order |
| ChatSteps.SenderStaysInRoom | internal/chat/service.go:203-249 | the sender's membership cannot change between its check and the end of its broadcast |
| ChatSteps.DeliveredOnlyInRoom | internal/chat/server.go:162-170 | under every interleaving each room message in a stream follows a look of its broadcast that found the connection logged in and in the room |
| ChatSteps.OutsiderReceivesNothing | internal/chat/server.go:162-170 | under every interleaving a connection never in a room receives nothing of it |
| ChatSteps.NothingMissing | internal/chat/service.go:186-250 | none of a sender's messages to a room is missing at a receiver that stays in it and whose writes succeed |
| ChatSteps.UnbacksIff | internal/chat/service.go:94-184 | with goroutines interleaved: exactly which steps take the row from a room held or being entered |
| ChatSteps.AlwaysBackedIff | internal/chat/service.go:94-184 | over every interleaving all these rooms have their rows all along if and only if no step is one of these |
| ChatSteps.ListenersAreMembers | internal/chat/service.go:123-184 | one connection per user, one login each, canonical rooms: at handler boundaries every room held is backed by a row |
| ChatSteps.SecondConnectionUnbacks | internal/chat/service.go:154-175 | an interleaving with two connections of one user, by such a step to a held room without its row |
| ChatSteps.UninterruptedSend | internal/chat/service.go:186-250 | the interleaved steps of a send, uninterrupted and in any order of the table, do what the atomic handler does |
| ChatSteps.UninterruptedJoin | internal/chat/service.go:123-152 | the interleaved steps of a join, uninterrupted, do what the atomic handler does |
| ChatSteps.UninterruptedLeave | internal/chat/service.go:154-184 | and those of a leave |
| ChatSteps.OneStepHandlers | internal/chat/service.go:61-121 | logins, heartbeats and disconnects are the atomic handlers |
| ChatBlocks.RefusedForOwnBlocks | internal/chat/service.go:212-220 | with the friends service behind it and a coherent cache, the check says yes exactly when the sender has blocked another stored member |
| ChatBlocks.RefusedIffSenderBlocks | internal/chat/service.go:197-220 | in rooms of any size a send with nothing else against it is refused exactly when the sender has blocked another stored member |
| ChatBlocks.BlockerReceivesIff | internal/chat/service.go:208-249 | a listener, whether or not it has blocked the sender, receives the message exactly when the sender has blocked no other stored member |
| ChatBlocks.IntentIff | internal/chat/service.go:208-216 | the refusal is the intended one, for a member who has blocked the sender, exactly when both or neither kind of block exists between the sender and the other members |
| ChatBlocks.BlockerHears | internal/chat/service.go:208-216 | a run in which a user receives what a user it has blocked sends |
| ChatPresence.NoticesAlternate | internal/chat/service.go:61-82 | whatever clients send and whoever else calls, the online and offline notices of each user that the chat server gives rise to alternate |
| ChatPresence.FirstBeatAnnounces | internal/chat/service.go:78-121 | the first heartbeat after a login announces the user, under the name it logged in with, to exactly those its accepted friendships address |
| ChatPresence.OfflineWhileLoggedInIff | internal/chat/service.go:61-66 | what the server serves takes a user offline that is still logged in exactly when it closes one of several connections of that user |
| ChatPresence.CloseOneOfTwo | internal/chat/service.go:61-66 | a run in which a user is said to be offline while another connection of it listens |
| Leaderboard.LeaderboardService.SubmitScore | internal/leaderboard/service.go:31-59 | invalid scores, unknown boards and users refused; otherwise logged, put on the board unless ZADD fails, and answered Ok either way |
| Leaderboard.LeaderboardService.GetRanking | internal/leaderboard/service.go:61-83 | the page loop numbers the entries of the range from offset + 1 |
| Leaderboard.LeaderboardService.GetUserRank | internal/leaderboard/service.go:85-107 | the entry is the user's item at index rank - 1 of the board's sorted set; not found means no board or no item of the user |
| Leaderboard.RankCountsBetter | internal/leaderboard/service.go:92-105 | a rank is the number of members that come before: higher score, or same score and higher id |
| Leaderboard.LoggedIff | internal/leaderboard/service.go:31-59 | exactly which submissions are answered Ok, whether or not Redis hears of them; these and no others are logged; each refusal and that it changes nothing |
| Leaderboard.OthersMoveByOne | internal/leaderboard/service.go:55-56 | a submission keeps the order of all others and moves each by at most one rank |
| Leaderboard.KeepsHighestIff | internal/leaderboard/service.go:55-56 | the board shows the better of old and new score if and only if the new one is not worse |
| Leaderboard.HighestIsOverwritten | internal/leaderboard/service.go:55-56 | a run of two submissions after which a board shows the lower |
| Leaderboard.BoardsShowLatest | internal/leaderboard/service.go:41-58 | after any submissions, ZADD succeeding, each board maps exactly the users in its log to their latest score |
| Leaderboard.LostScoresIff | internal/leaderboard/service.go:47-58 | whichever ZADDs are lost, a board shows the latest scores if and only if each user's last logged submission reached Redis or repeated the score there |
| Leaderboard.OtherBoardsUntouched | internal/leaderboard/service.go:55-56 | boards not submitted to stay as they were |
| Leaderboard.PageIsExact | internal/leaderboard/service.go:61-83 | which entries a page has, how many, and that an unknown board is not found |
| Leaderboard.RanksAreTrueIff | internal/leaderboard/handler.go:39-46 | for any offset the handler passes on, the entries carry the ranks they have if and only if the offset is not negative or the page is empty |
| Leaderboard.NegativeOffset | internal/leaderboard/service.go:67-82 | an offset of -2 gives the last two of three the ranks -1 and 0 |
| Leaderboard.PagesAreTheRanking | internal/leaderboard/service.go:61-83 | the pages put together are every user once, ranks 1 to n, scores never increasing |
| Leaderboard.UserRankIff | internal/leaderboard/service.go:61-107 | a user's entry has rank r if and only if it heads the page at offset r - 1 |
| RateLimit.RateLimiter.Handle | internal/core/middleware/ratelimit.go:35-68 | one request: counter, expiry, headers, refusal, and admission when Redis fails |
| RateLimit.IdentitiesAreSeparate | internal/core/middleware/ratelimit.go:72-77 | two requests share an identity exactly when user, or for anonymous requests address, agree |
| RateLimit.KeyNamesWindowIff | internal/core/middleware/ratelimit.go:38 | the Unix second of its start names a window if and only if windows last a second or more |
| RateLimit.UnixStart | internal/core/middleware/ratelimit.go:38 | the second in a key counts from 1970 |
| RateLimit.AdmissionsAreExact | internal/core/middleware/ratelimit.go:40-67 | under any interleaving of increments and expiries, min(limit, counted) requests of a window are admitted plus those whose increment failed, and the count is never reset while the time to live of the first hit cannot have passed |
| RateLimit.ExactForTwoWindows | internal/core/middleware/ratelimit.go:46-48 | with windows of whole seconds that holds for two windows from the first one's start |
| RateLimit.RequestIsItsEvents | internal/core/middleware/ratelimit.go:38-68 | a request is served exactly when its increment is admitted and does to the counters what its increment and first expiry do; with a failed increment it is served without headers and changes nothing |
| RateLimit.CountRestartsIff | internal/core/middleware/ratelimit.go:40-48 | a counter starts at one again exactly from the end of its time to live on |
| RateLimit.FailuresLeaveNoTrace | internal/core/middleware/ratelimit.go:40-44 | over every run the counters are those of the run without the requests whose increment failed |
| RateLimit.OneWindow | internal/core/middleware/ratelimit.go:38-67 | over every run, in an aligned window exactly the first `limit` counted requests are served and all whose increment failed; the counter lasts for its time to live from the first |
| RateLimit.ResponseIsExact | internal/core/middleware/ratelimit.go:40-65 | limit, remaining and Retry-After follow from how many requests the window has counted; no headers when the increment failed |
| RateLimit.IntervalBound | internal/core/middleware/ratelimit.go:32-69 | an interval of at most k windows' length sees at most (k + 1) times the limit served, beside requests whose increment failed |
| RateLimit.SlidingLimitIff | internal/core/middleware/ratelimit.go:38 | an interval one window long is held to the limit, whatever arrives and beside failed increments, if and only if it starts on a window boundary or the limit is not positive |
| Platforms.PlatformService.HandleCallback | internal/platforms/service.go:31-86 | existing owner, or new user and binding, and each failure |
| Platforms.PlatformService.BindPlatform | internal/platforms/service.go:88-129 | binding added, or each failure |
| Platforms.PlatformService.UnbindPlatform | internal/platforms/service.go:131-171 | both loops: bindings of the platform removed, unless none or the last way to log in |
| Platforms.UnbindIff | internal/platforms/service.go:139-160 | unbinding succeeds if and only if the platform is bound and a way to log in remains |
| Platforms.UnbindRemoves | internal/platforms/service.go:131-171 | exactly when unbinding succeeds, that then all the user's bindings to the platform and no others are gone, and which refusal has which reason and changes nothing |
| Platforms.UnboundIsFree | internal/platforms/service.go:162-168 | an unbound identity is nobody's: it does not sign the user in, and any user can bind it and is then signed in by it |
| Platforms.BindIff | internal/platforms/service.go:106-126 | binding succeeds if and only if nobody has the identity, which then is the user's; one binding is added and nothing else changes; refused, nothing does |
| Platforms.BoundIsRefused | internal/platforms/service.go:106-126 | an identity of somebody else is refused as bound, one's own as a binding that cannot be created |
| Platforms.LoginIsNeverLost | internal/platforms/service.go:150-160 | over every run a user with a credential or binding keeps one |
| Platforms.CallbackIff | internal/platforms/service.go:47-85 | exactly when a callback signs somebody in, whether as a new user with which name and binding, that the identity is theirs afterwards, and each refusal |
| Platforms.NoAnswerNoChange | internal/platforms/service.go:31-104 | an unknown platform or a provider that fails is refused as such and changes nothing |
| Platforms.RegisteredCanLogIn | internal/auth/service.go:55-84 | registration makes one user with a credential, or none when the name is taken |
| Platforms.EveryUserCanLogIn | internal/platforms/service.go:31-171 | in every state reachable from no accounts every user can log in and every identity is bound at most once |
| Platforms.OwnerIsKept | internal/platforms/service.go:106-113 | an identity keeps its owner over every run in which the owner does not unbind the platform |
| Platforms.CallbackReturnsSameUser | internal/platforms/service.go:47-58 | later callbacks for an identity return the same user and create nothing |

## Left out

- HTTP handlers, JSON, routing, configuration, logging and wiring: plumbing around the services.
- Protobuf marshalling, JWT, bcrypt and the OAuth calls: library or network; envelopes, tokens and provider answers are parameters.
- UUID parsing errors: ids are taken to be canonical, except room strings.
- A missing Redis client or notifier (`rdb == nil`, `notifier == nil`): the server always wires both.
- Database failures other than missing or duplicate rows, and cascading deletes of users and rooms, which nothing in the repository performs.
- Friend calls interleaved with each other: only Block and Unblock are split into their steps; the other invariants are over atomic calls.
- Platform calls interleaved with each other: the last-login check and the delete are separate statements, so the invariant is stated for atomic calls only.
- The authentication timer and read deadlines: they only close connections, which the model lets happen at any handler boundary.
- A connection whose table entry was replaced by one with the same id, which two accepts in one nanosecond would give: its goroutine runs on, but the model does not follow it. In the interleaved model ids are never in use twice.
- Logging in without a token validator, a fallback the server never wires.
- Memory visibility of `conn.UserID`, which is written without the lock under which other goroutines read it: reads and writes are taken to be atomic.
- ListFriends, ListPendingRequests, ListBlockedUsers, ListRecentContacts, ListBindings, GetAuthURL: they only read.
- Refresh-token rotation, request timeouts, admin and users services.
- The text of rate-limit keys: identity, group and window are kept apart, as the fixed group names make them.
- Leaderboard.LeaderboardService.SubmitScore: models finite scores as reals, so the rounding and the negative zero of float64 do not appear.
- Leaderboard.LeaderboardService.GetRanking: does not model the wrap-around of offset + limit near 2^63.
