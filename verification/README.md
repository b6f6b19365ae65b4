# A model of the sandboard server, with proofs

This project models the logic of the `sandboard` board server (Rust, with a TypeScript client) and
proves what its protocols keep over whole runs. `dafny verify dfyconfig.toml` checks everything.

| module | what it models |
|---|---|
| `EventFeed` | publishing events, the bounded replay buffer, and the SSE handler that splices a replay onto a lagging broadcast, as a transition system over every interleaving; what holds when publishers take turns |
| `ConcurrentFeed` | the same system with any number of publishers: what a client is sent, and exactly when that is every event in order |
| `Board` | the items, the changes made under the state lock, the blocker summaries that every shown item carries, and exactly which changes their event tells |
| `Marks`, `Replica`, `InOrderReplica` | the browser's reducer over numbered events, for any order of the numbers; exactly when its copy ends equal to the board |
| `Publishing` | change, description, number, append and send as separate steps of any number of publishers, over `ConcurrentFeed`; for which runs a reconnecting or reset client ends equal to the board |
| `Reload` | when the browser loads a snapshot, what a snapshot with items after k changes and number t repairs, and what the next poll heals |
| `Lifecycle`, `Scheduling` | the card state machine with its guards and the restore remapping; whole boards of tasks linked by `blocked_by` |
| `OAuthServer`, `Resources` | one-time codes bound by PKCE, refresh chains, the bearer gate, for any normal form of resources; the code's, with its loopback spellings, is `Resources.NormalizerOf` |
| `AuthorizeQuery`, `PercentCodec`, `Base64Url` | the printed authorize query, its percent codec, the form payload and the parser |
| `ReviewPoll` | review cursors and tip changes over runs of poll ticks |
| `TokenCache` | the installation token: cached expiry, sealed token, gateway token |
| `RepoAccess`, `RepoAccessView` | the index of repositories by installation, its refresh and routing; the grouped and sorted view |
| `Slug`, `Shell`, `Engine`, `PolicyMerge`, `Session`, `Relay` | stable ids, quoting against the shell grammar, engine command lines, policy fragments, the signed session cookie, the relay slot |
| `Text`, `Sequences`, `Wrappers` | the parts of Rust's strings, lists, `Option` and `Result` the others need |

Code that updates state in place is a class or a loop with invariants, and each such method equals a
specification function; the theorems are about that function. What the outside answers (GitHub, the
gateway, JSON, hashing, signatures, UTF-8 and URI parsing) is a parameter.

## What the proofs found

Each of these is a lemma; the code is modelled as it is.

- **Concurrent publishers can leave a browser wrong, in three ways.** A publish is five steps (change, read
  the blockers, take a number, append, send), and nothing makes publishers take turns. In
  `ConcurrentFeed.OvertakingLosesAnEvent` a later number is buffered first and the live filter drops the
  earlier one; in `SwappedSendsDropAnEvent` a later number is sent first and the client's own duplicate check
  drops the earlier one; in `Publishing.SwappedNumbersKeepTheOlderWrite` two writes of one item take their
  numbers in the other order, everything is delivered in order, and the older write stays on the screen. The
  first two show a gap, on which the browser reloads; the third does not. `Publishing.ReconnectFollowsIff` is
  the exact condition for a reconnecting client's reducer, `ResetRecoversIff` for one that was reset.
- **An event does not always tell the whole change.** Every published item carries a summary of its blockers,
  taken from other items, but a change publishes only the changed item: when a blocker is finished, renamed or
  created, the items that wait for it keep the old summary (`Board.FinishedBlockerIsNotCarried`). Deleting an
  item removes its subtree and strips it from other items' blockers but publishes one Delete.
  `Board.EventCarriesChangeIff` says exactly when an event tells its change, `InOrderReplica.ReplicaRefinesIff`
  that a copy stays equal exactly then.
- **A snapshot's number is read after its items.** With items after k changes and number t > k the events
  between are dropped as duplicates: `Reload.LateNumberLosesAnItem`. `Reload.RepairsIff` is what a snapshot
  repairs for any order of events, `RaceConvergesIff` for events in order: it must not be dropped as stale, and
  k must be at least t and at least the last event that came before it.
- **What the browser does about a loss.** It reloads on a gap, a reset and a reconnect, and every four seconds.
  A reload on a gap is started exactly when an event older than the newest applied one was not applied
  (`Reload.ReloadsIffHole`); the loss of the newest event, a swapped number and an untold change show no gap.
  `Reload.PollHeals`: whatever happened, the first snapshot read after the last publication makes the browser
  equal to the board; `StaysHealedIff` says which late response can undo that until the next one.
- **A client can be reset although everything it misses is retained**, when its next event was overtaken:
  `ConcurrentFeed.ReplaysIff`, `ResetThoughRetained`. When publishers take turns that cannot happen
  (`EventFeed.ResetIffLost`).
- **A card can run without having been claimed**, after an escalation from Shaping or after being closed and
  reopened; in no other way. `Lifecycle.HolderClaimedIff`, `RunsAfterEscalation`, `RunsAfterReopening`.
- **`machine::check` does not ask for a definition of done at a claim**; a plain transition out of Retired
  skips shaping; restoring is refused for one kind of card. `Lifecycle.ClaimAcceptedIff`,
  `PlainExitSkipsShaping`, `RestoreAcceptedIff`.
- **`blocked_by` may form a circle**; a pool drains exactly when it does not. `Scheduling.DrainsIffAcyclic`.
- **The review cursor follows each observation, also downwards**, so a pull request that answers 404 once
  has all its reviews applied again. `ReviewPoll.AppliedPerReturn` counts, for any run, how often each review
  is applied; `CursorIsSafeIff`, `EmptyAnswerReappliesAll`.
- **The cached expiry can outlive the sealed token** in exactly one kind of step, which needs an expiry that
  goes back. `TokenCache.StaysHonestIff`; in `ShorterMintIsReused` a token with 100 seconds left is then
  handed out as fresh.
- **The sweeper can confirm a gateway that holds a dead token.** The poller mints and seals without pushing
  and so refreshes the cached expiry; the sweeper then sees a fresh cache and a gateway with a `GH_TOKEN`
  key and answers `Ok(true)`. `TokenCache.StaysCoveredIff` is the exact step, `SweeperMissesDeadToken` a run.
- **Stopping a relay does not stop its session.** Aborting the relay task only drops the handles of the pump
  and server tasks it spawned. `Relay.SessionsStayOwnedIff`, `SwitchLeavesTwoSessions`; the comment at
  `src/cockpit_mcp_tunnel.rs:346-347` says that stopping ends the session.
- **A host literally named `loopback` is taken for the loopback address**, and the scheme of a resource does
  not count. `Resources.SameHostIff`, `SameNormalFormIff`.
- **A policy fragment whose `network_policies` is not a mapping is read as a bare body**, so that key becomes
  a policy name. `PolicyMerge.MalformedFragmentBringsItsKeys`.
- **A repository listing ends at its 5000th row**, without an error. `RepoAccess.ListingEndsAt5000`.

## Model

| member | source | states |
|---|---|---|
| EventFeed.EventLog.constructor | src/store.rs:541-562 | a new log has counted nothing and holds nothing |
| EventFeed.EventLog.NextSeq | src/store.rs:789-791 | numbers are handed out one after the other |
| EventFeed.EventLog.Record | src/store.rs:797-806 | the new event is kept, the oldest is dropped from a full buffer |
| EventFeed.EventLog.CatchUpFrom | src/store.rs:808-835 | a Reset with the counter exactly for a number above it, or below it with an empty buffer or an oldest event more than one above; otherwise the loop gives all retained events above the number |
| EventFeed.RunKeepsInv | src/sse.rs:41-77 | supporting: when publishers take turns every interleaving keeps: buffer and queue are contiguous, and the frames after the last Reset are exactly b+1 .. e |
| EventFeed.StreamIsContiguous | src/sse.rs:41-82 | supporting: when publishers take turns, lag allowed: the frames after the last Reset are consecutive, start at or below that Reset's number, and reach everything sent once the queue is drained |
| EventFeed.ReplayIsExact | src/sse.rs:41-77 | supporting: when publishers take turns, without a Reset the client gets lastSeq+1, lastSeq+2, … with no gap and no duplicate, up to the newest event once drained |
| EventFeed.ResetIffLost | src/store.rs:808-835 | when publishers take turns: a client is reset if and only if its mark is ahead of the counter, or behind it and nothing was appended yet or some event above its mark was dropped from the buffer |
| ConcurrentFeed.FromStart | src/store.rs:789-835 | in every run, any number of publishers: each reserved number is waiting for its append or its send or was sent, once; buffered numbers are distinct; the queue is the end of what was sent; and nothing reserved after the counter was read, or above a Reset, is lost without a lag |
| ConcurrentFeed.DeliveredExactly | src/sse.rs:41-77 | without a lag the handler delivers exactly the arrivals above its live filter, in the order they were sent |
| ConcurrentFeed.ReplaysIff | src/store.rs:808-835 | any number of publishers: a client is replayed to if and only if its mark is the counter, or below it and the oldest retained event is at most one above; one that is reset although nothing it misses was dropped has its next event overtaken |
| ConcurrentFeed.ResetThoughRetained | src/store.rs:797-833 | a run in which a client at 1 is reset although events 2 and 3 are retained |
| ConcurrentFeed.ReplayThenArrivals | src/sse.rs:41-82 | a reconnecting client is sent exactly the retained events above its mark as they stand in the buffer, then the arrivals above the newest of them |
| ConcurrentFeed.CoversIffSafe | src/sse.rs:41-68 | nothing is missing from that if and only if, before the splice, no number above the mark was unappended behind a newer buffered one, and none was evicted unless newer and still on its way |
| ConcurrentFeed.ReconnectAppliesAllIff | src/sse.rs:41-82 | any number of publishers: the client applies exactly lastSeq+1 .. newest, in order, if and only if the splice was safe and the replay and the arrivals above it are in order |
| ConcurrentFeed.SerialReconnectIsSafe | src/sse.rs:41-82 | publishers that take turns always meet that condition |
| ConcurrentFeed.ResetIsComplete | src/sse.rs:48-77 | any number of publishers, lag allowed: every event above the last Reset's number is among the frames after it |
| ConcurrentFeed.ResetAppliesAllIff | src/sse.rs:48-77 | after a Reset and a snapshot at t the client applies exactly t+1 .. newest, in order, if and only if the arrivals above t are in order |
| ConcurrentFeed.OvertakingLosesAnEvent | src/store.rs:789-806 | a run of two publishers in which a reconnecting client is never sent event 2 although nothing lagged and no Reset was sent |
| ConcurrentFeed.SwappedSendsDropAnEvent | src/store.rs:797-806 | a run in which the client is sent 3 before 2 and applies only 3 |
| Board.EventCarriesChangeIff | src/store.rs:902-914 | merging a change's event, with the blocker summaries it carries, gives what the board shows if and only if a put item is named as a blocker by no other or keeps its presence, title and state, and a delete takes a single item that no other names |
| Board.FinishedBlockerIsNotCarried | src/store.rs:1225-1245 | a blocker goes from Running to Done: the board shows it done, a client that merges the event still shows it running |
| Replica.ConsumeIsApplied | web/src/useBoard.ts:113-143 | feeding a client any list of events merges those above its rising mark, and no others |
| Replica.ResetSetsMark | web/src/useBoard.ts:113-143 | any client, any frames: a Reset sets the mark to its number, lower or higher, and keeps what is shown; the events after it are merged above the mark that rises from there |
| Replica.EqualIffFinalStretch | web/src/useBoard.ts:113-143 | events numbered and described in any order: a client that holds the board after k changes ends equal to it, for every board, if and only if the changes it applies are m, m+1, … up to the last, in that order, with m at most k |
| Replica.EqualWhenItemsFollow | web/src/useBoard.ts:127-136 | for one history and item by item: it ends equal when the last event merged for each item is that of the item's last change, in whatever order the others come |
| InOrderReplica.ReplicaRefinesIff | src/events.rs:9-38 | a copy equal to the board at event a equals it at every event up to b if and only if every change in between is told by its event |
| InOrderReplica.ReducerConverges | web/src/useBoard.ts:113-143 | events at or below the client's mark change nothing, and from there on the copy follows the board |
| InOrderReplica.ReconnectKeepsReplica | src/sse.rs:43-82 | when publishers take turns, feed and client end to end without a Reset: a client in step when it reconnects is in step with the last event delivered, and with the newest once drained |
| InOrderReplica.StaleSuffixConverges | src/sse.rs:70-74 | the board after t changes followed by events k+1 .. newest with k at or below t gives the whole board, although events up to t are merged again |
| Publishing.RunKeepsOrdered | src/store.rs:837-847 | in every run each number belongs to one change, which was described after it was made and before it got the number |
| Publishing.ReconnectEqualIff | src/sse.rs:43-82 | any number of publishers: a reconnecting client that holds the board after k changes ends equal to it, for every board, if and only if the changes of the events it applies are a final stretch that starts at or before k |
| Publishing.ReconnectFollowsIff | src/store.rs:1225-1245 | change and number as separate steps, any number of publishers: a reconnecting client ends equal to the board, for every board, if and only if the splice was safe, the replay and the arrivals above it are in order, and the numbers above the mark were taken in the order of the changes |
| Publishing.SerialReconnectFollows | src/sse.rs:43-82 | publishers that take turns from the change to the send always meet that condition |
| Publishing.ResetRecoversIff | src/sse.rs:48-77 | any number of publishers: a client, whatever it held and whatever its mark, reduces the frames it is sent, the Reset among them, then a snapshot with items after k changes and number t, then the rest; it ends equal, for every board, if and only if the snapshot is not dropped at the mark that rose from the Reset and the changes applied after it are a final stretch that starts at or before k |
| Publishing.FreshSnapshotRecoversIff | src/store.rs:6523-6570 | the snapshot comes right after the Reset: with k = t, if and only if the arrivals above t are in order and their numbers follow the changes; given that, for any k, if and only if t is at most k |
| Publishing.SerialResetRecoversIff | src/sse.rs:48-77 | publishers that take turns, lag allowed: after the last Reset come b+1 .. newest, and a snapshot after event m of them repairs the client, whatever it held before, if and only if it is not dropped, t is at most k and m is at most k |
| Publishing.WithoutReloadIff | web/src/useBoard.ts:282-290 | numbers that follow the changes and no gap: the client ends equal to the board, for every board, if and only if the newest event was not lost |
| Publishing.SwappedNumbersKeepTheOlderWrite | src/store.rs:837-847 | a run that meets every other condition and shows no gap, in which two writes of one item take their numbers in the other order and the client ends with the older |
| Reload.RepairsIff | web/src/useBoard.ts:84-112 | any order of events before and after it: a snapshot repairs every client with a given mark, for every board, if and only if it is not dropped as stale and the changes applied after it are a final stretch that starts at or before its items |
| Reload.RepairsResetIff | web/src/useBoard.ts:84-117 | the same for every client that has reduced frames with a last Reset r: the snapshot is measured against the mark that rose from r |
| Reload.RaceConvergesIff | src/store.rs:6523-6570 | events in order, m of them before the snapshot: it repairs every client if and only if it is not dropped and its items are as new as m and as its own number |
| Reload.LateNumberLosesAnItem | src/store.rs:6551-6567 | a run in which the number is read after one more event than the items, and the client never gets that event |
| Reload.NoReloadIff | web/src/useBoard.ts:150-152 | no gap shows if and only if the applied events have no hole |
| Reload.ReloadsIffHole | web/src/useBoard.ts:282-290 | a gap shows if and only if an event older than the newest applied one was not applied |
| Reload.ReloadsFromNothingIff | web/src/useBoard.ts:150-152 | a client with mark 0 starts at its first event; what it missed before that shows no gap |
| Reload.BehindUnlessReload | web/src/useBoard.ts:282-290 | events in the order of the changes, lost or repeated or reordered on the way: a client that sees no gap holds the board as it was after its mark |
| Reload.PollHeals | web/src/useBoard.ts:184-193 | after any events, resets, snapshots and disconnects, the first snapshot read after the last publication makes the browser equal to the board |
| Reload.StaysHealedIff | web/src/useBoard.ts:84-112 | a further snapshot leaves it equal, for every board, if and only if it is dropped or holds all changes |
| Lifecycle.UnresolvedIff | src/store.rs:1149-1161 | no blocker is unresolved if and only if each one on the board is terminal; the list holds exactly the others |
| Lifecycle.AcceptedIff | src/machine.rs:8-72 | for each state the exact set of states from which a card may go there, with the guard at the node |
| Lifecycle.RefusalMeans | src/machine.rs:128-160 | supporting: a refusal names a missing edge, or on an edge the one guard that fails |
| Lifecycle.HolderClaimedIff | src/machine.rs:8-72 | in every run a card that is Running or Splitting last left waiting by a claim, as a leaf with its blockers on the board finished, or by an escalation from Shaping, or by being closed; it was claimed since if and only if it left by the claim |
| Lifecycle.RunsAfterEscalation | src/machine.rs:22-58 | a run of any leaf to Running by way of an escalation from Shaping, without a claim |
| Lifecycle.RunsAfterReopening | src/machine.rs:22-68 | a run of any leaf to Running by way of Done and Review, without a claim |
| Lifecycle.ClaimIsGuarded | src/machine.rs:129-157 | in every run a card enters Claimed from the pool, as a leaf, with all its blockers on the board terminal at that step; and with a definition of done, unless an edit left a pooled leaf without one |
| Lifecycle.DoneWasShaped | src/machine.rs:7-80 | in every run nothing is pooled, claimed or done before it was shaped |
| Lifecycle.PriorIsLastState | src/store.rs:5545-5551 | the prior state read from the history is the state the card really had before it was retired |
| Lifecycle.RestoreSucceedsIff | src/machine.rs:82-101 | in every run, edits included, restoring is accepted if and only if the card is not a leaf without a definition of done retired from Backlog; the target is never held by an agent and is the state retired from whenever that is Draft, Shaping, Backlog, Review or Done |
| Lifecycle.RestoreAcceptedIff | src/machine.rs:82-157 | for any card and prior state: restoring is refused exactly for a leaf without a definition of done that was retired from Backlog |
| Lifecycle.ClaimAcceptedIff | src/machine.rs:120-157 | a claim is accepted if and only if the card is a pooled leaf whose blockers on the board are terminal; no definition of done is asked for |
| Lifecycle.PlainExitSkipsShaping | src/machine.rs:7-80 | supporting: a draft can be retired and moved to Done, an edge it does not have itself |
| Lifecycle.NoDeadEnd | src/machine.rs:7-157 | from every state at most three accepted transitions lead to Done, and every card can be retired |
| Scheduling.SomethingCanMove | src/machine.rs:129-157 | with no circle of blockers, as long as anything is unfinished some task can be claimed, started or finished, whatever is in flight |
| Scheduling.RunEffect | src/machine.rs:129-157 | however the moves of tasks interleave, a run makes and breaks no circle, started tasks wait for nothing, and each task that left the pool took one claim |
| Scheduling.StuckMeansDrained | src/machine.rs:129-157 | with any tasks in flight, a run that cannot go on has finished every task, in as many claims as there were tasks |
| Scheduling.RunsEnd | src/machine.rs:129-157 | no run takes more than three moves a task, circles or not |
| Scheduling.Drain | src/machine.rs:129-157 | such a complete run exists |
| Scheduling.DrainsIffAcyclic | src/machine.rs:129-157 | a pool can be drained if and only if no unfinished tasks wait for each other in a circle |
| OAuthServer.OAuthStore.constructor | src/mcp_oauth.rs:158-165 | a new store holds no code |
| OAuthServer.ApprovedIff | src/mcp_oauth.rs:672-724 | a request is approved if and only if it asks for a code with an S256 challenge, for a client and one of its redirect URIs, for this server in either spelling, and for no other scope word; what is stored is what was asked, for ten minutes |
| OAuthServer.FieldOrIs | src/mcp_oauth.rs:703-709 | supporting: a blank field stands for its default, any other for its text between the spaces |
| OAuthServer.OAuthStore.Approve | src/mcp_oauth.rs:926-981 | an accepted approval stores one record under the new code and leaves every other code alone; a refused one changes nothing |
| OAuthServer.OAuthStore.TokenAuthorizationCode | src/mcp_oauth.rs:1056-1114 | the code is taken out before anything is checked, and the answer is that of its record |
| OAuthServer.StoredMeansApproved | src/mcp_oauth.rs:960-974 | a stored record was put there by an earlier approval with no complete attempt on the code in between |
| OAuthServer.SuccessMatchesApproval | src/mcp_oauth.rs:1073-1113 | over any interleaving a success presents the approved client id and redirect URI and a verifier whose S256 transform is the approved challenge, before expiry, and speaks for the approving user |
| OAuthServer.CodeSurvives | src/mcp_oauth.rs:960-974 | from its approval until the first complete attempt on it a code stays in the store, whatever other requests do |
| OAuthServer.FirstAttemptSucceedsIff | src/mcp_oauth.rs:1073-1113 | that first attempt succeeds if and only if it comes by the expiry with the approved client, redirect URI and verifier and an acceptable resource |
| OAuthServer.ProtocolSucceeds | src/mcp_oauth.rs:926-1114 | a registered client that asks, is approved and comes back with its verifier in time gets its tokens, at any origin |
| OAuthServer.SecondAttemptFails | src/mcp_oauth.rs:1073-1080 | after its approval a code gets one complete attempt, successful or not |
| OAuthServer.AtMostOneSuccess | src/mcp_oauth.rs:960-1113 | two successes never present the same code |
| OAuthServer.GateIff | src/mcp_oauth.rs:406-448 | supporting: the gate accepts exactly genuine, unexpired access tokens with the scope, for this server; no refresh token passes |
| OAuthServer.RefreshSucceedsIff | src/mcp_oauth.rs:382-402 | for every token and form: a refresh succeeds if and only if the token has the server's key, is not expired beyond the tolerance, is a refresh token of the scope for the presenting client, and the resource is the granted one or this server; user, client and resource are carried over |
| OAuthServer.TokensTraceBack | src/mcp_oauth.rs:1056-1149 | in every run, whatever tokens are presented, tokens speak for the user and client of an approval, by way of the exchange of its code |
| OAuthServer.ChainKeeps | src/mcp_oauth.rs:1116-1174 | along any chain of refreshes user and client never change, and each token is for a server at one of the origins the chain has been at |
| OAuthServer.ExchangeStartsChain | src/mcp_oauth.rs:1056-1114 | the tokens of a code exchange carry the approving user and client and a resource served at one of the two origins |
| OAuthServer.ChainPassesGate | src/mcp_oauth.rs:406-448 | a code exchange and any number of refreshes at one origin: every access token passes the gate there until it expires |
| OAuthServer.LifetimeOf | src/mcp_oauth.rs:323-404 | supporting: an access token is good for an hour; a refresh token for exactly thirty days and the tolerance, and for its own client only |
| Resources.AltsAgree | src/mcp_oauth.rs:419-429 | the authorize endpoint and the gate accept the same second spelling of an origin |
| Resources.SameNormalFormIff | src/mcp_oauth.rs:241-261 | two URIs are equivalent if and only if normalised hosts, ports and paths without final slashes agree; the scheme does not count |
| Resources.SameHostIff | src/mcp_oauth.rs:245-261 | supporting: two hosts normalise alike if and only if they are equal or both are a loopback spelling or the word `loopback` |
| Resources.EquivalentIff | src/mcp_oauth.rs:240-261 | identifiers are equivalent, spaces aside, if and only if hosts are equal or both spell the loopback and ports and paths agree but for final slashes; unparsable ones if and only if they are equal |
| Resources.GateAltIs | src/mcp_oauth.rs:421-428 | the other spelling replaces the first `localhost`, or where there is none the first `127.0.0.1`, and nothing else |
| Resources.CanonicalIs | src/mcp_oauth.rs:236-238 | the resource of an origin is the origin without its final slashes, and `/mcp` |
| AuthorizeQuery.AuthorizeQueryString | src/mcp_oauth.rs:745-765 | the buffer loop prints the non-empty fields in order |
| AuthorizeQuery.ParseAuthorizePayload | src/mcp_oauth.rs:857-891 | the parsing loops give what the pieces assign, later ones over earlier ones |
| AuthorizeQuery.PayloadTextIs | src/mcp_oauth.rs:857-862 | supporting: a payload is read as the text it encodes, spaces aside, or as it is if it encodes no valid text |
| AuthorizeQuery.LastPieceDecides | src/mcp_oauth.rs:873-891 | in any payload a field has the decoded value of the last piece that names it, and none if no piece does |
| AuthorizeQuery.PayloadRoundTrip | src/mcp_oauth.rs:745-924 | printing a query, encoding it for the form and parsing the form gives the query back, empty fields read as absent |
| PercentCodec.Encode | src/mcp_oauth.rs:767-778 | the loop gives the encoding of section 2.1 of RFC 3986 |
| PercentCodec.EncodeByteIs | src/mcp_oauth.rs:767-778 | supporting: letters, digits and `-_.~` stand for themselves, any other byte becomes `%` and two upper-case hexadecimal digits |
| PercentCodec.Decode | src/mcp_oauth.rs:893-924 | the index loop gives the decoding, byte for byte, malformed escapes included |
| PercentCodec.RoundTrip | src/mcp_oauth.rs:767-924 | decoding undoes encoding for every byte string |
| PercentCodec.EncodedIsClean | src/mcp_oauth.rs:767-778 | an encoded string holds unreserved characters and `%` only, so no `&`, `=` or `+` |
| PercentCodec.AnySpellingDecodes | src/mcp_oauth.rs:893-924 | decoding undoes every encoder that writes each byte plainly, as an escape with digits of either case, or a space as `+` |
| PercentCodec.MalformedEscapeStays | src/mcp_oauth.rs:893-924 | a percent sign that two hexadecimal digits do not follow stands for itself |
| Base64Url.RoundTrip64 | src/mcp_oauth.rs:857-866 | base64url without padding decodes back, for every byte string |
| Base64Url.DecodesIff | src/mcp_oauth.rs:857-866 | a text decodes to s if and only if it is the encoding of s |
| ReviewPoll.PollBoard.ApplyNewReviews | src/github_poll.rs:168-207 | the cursor becomes the largest id seen and the actionable reviews above the old one are applied by increasing id; none when there was no cursor |
| ReviewPoll.CursorOf | src/store.rs:2421-2442 | supporting: the cursor of the trimmed repository becomes the largest id observed; a repository that is blank or begins with `#` keeps none |
| ReviewPoll.PollBoard.Tick | src/github_poll.rs:137-162 | the two loops over targets and repositories, each in order, skipping what could not be fetched |
| ReviewPoll.PollBoard.SetTip | src/store.rs:2407-2419 | blank repositories and tips are not recorded |
| ReviewPoll.TipOf | src/store.rs:2407-2419 | supporting: a tip is recorded between its spaces under the repository between its own, and not if either is blank |
| ReviewPoll.ActionableIff | src/store.rs:6389-6397 | for every string: a review counts if and only if its state is `CHANGES_REQUESTED`, `COMMENTED` or `COMMENT`, in any case and with any whitespace around it |
| ReviewPoll.VerdictCountsIff | src/store.rs:6389-6397 | of the forge's five review states exactly changes requested and commented count, however they are spelled |
| ReviewPoll.ToApplyContent | src/github_poll.rs:168-207 | one observation applies exactly the reviews above the cursor that ask for changes or comment, each once, by increasing id |
| ReviewPoll.ObservationsCompose | src/github_poll.rs:168-207 | what two observations of a growing list apply is what one look at the newer list would apply |
| ReviewPoll.AppliedExactlyOnce | src/github_poll.rs:168-207 | over any run on a growing list, with gaps anywhere, the applied reviews are those of the last list that ask for changes or comment and that the first observation did not hold, each once, by increasing id |
| ReviewPoll.RunIsPerPr | src/github_poll.rs:137-207 | a run of ticks over many pull requests is for each of them its own run |
| ReviewPoll.CursorIsSafeIff | src/store.rs:2426-2442 | after an observation nothing at or below the old cursor can be applied again if and only if the observed maximum is at least that cursor |
| ReviewPoll.AppliedPerReturn | src/github_poll.rs:168-207 | over any run, whatever the lists do, a review is applied once for each time the observed maximum comes back up over its id, from an answer of smaller ids only, to a list that holds it |
| ReviewPoll.EmptyAnswerReappliesAll | src/github_poll.rs:320-364 | one empty answer in between makes the same list applied in full |
| ReviewPoll.EachChangeAnnouncedOnce | src/github_poll.rs:137-162 | each tip change after the first observation is announced exactly once, and nothing else is |
| TokenCache.GitHubAppBoard.EnsureDesiredRow | src/github_app.rs:732-776 | the row keeps its other credentials, takes the new token and drops the old key; it fails without a change when the map cannot be opened or sealed |
| TokenCache.GitHubAppBoard.EnsureProvider | src/github_app.rs:595-654 | confirm, repair or mint, seal, push and cache, in that order, with the state each failure leaves and exactly when Ok(true) and Ok(false) are answered |
| TokenCache.GitHubAppBoard.HostInstallationToken | src/github_app.rs:846-885 | reuse or mint, seal and cache, without a push, with the state each failure leaves |
| TokenCache.WithTokenSeals | src/github_app.rs:709-776 | the token read back from the row is the one written, and no other credential changed |
| TokenCache.SealedIs | src/github_app.rs:709-730 | supporting: the reused token is the one under `GH_TOKEN`, or under `GITHUB_TOKEN` where that is missing or empty |
| TokenCache.EnsureDecides | src/github_app.rs:595-654 | a sweep with a configured App: a cache more than ten minutes fresh and a gateway in order are left alone, a sealed token repairs the gateway, everything else mints, and each failure leaves what was done before it |
| TokenCache.HostDecides | src/github_app.rs:846-885 | the poller's call reuses a sealed token while the cache is fresh and mints otherwise, and never touches the gateway |
| TokenCache.StaysHonestIff | src/github_app.rs:595-885 | any event keeps the cached expiry at or below the sealed token's own, for the installation set now, unless it is exactly an unpushed mint of a token that expires before the cached expiry |
| TokenCache.ShorterMintIsReused | src/github_app.rs:613-654 | a run in which that step happens and the poller is handed, as fresh, a token with 100 seconds left |
| TokenCache.RunsStayHonest | src/github_app.rs:595-885 | over any run in which mint expiries never go back, with failures at GitHub, sealing and gateway, that holds throughout |
| TokenCache.HandedTokenIsLive | src/github_app.rs:150-157 | after any such run a reused token has more than ten minutes left and is for the installation set now, a minted one is the fresh one, and it is what the row then holds |
| TokenCache.StaysCoveredIff | src/github_app.rs:846-885 | any event keeps the gateway's token as long-lived as the cached expiry, unless the poller mints a longer-lived token past a gateway that needs no push |
| TokenCache.EnsuredMeansLiveAtGateway | src/github_app.rs:590-654 | unless that happened in the run, Ok(true) means the gateway holds a token with more than ten minutes left or the one just minted |
| TokenCache.SweeperMissesDeadToken | src/github_app.rs:613-618 | a run in which Ok(true) is answered while the gateway's token is long expired |
| RepoAccess.ApplyInstallationRepos | src/github_app.rs:284-307 | an installation is recorded once, and its valid names are inserted in order |
| RepoAccess.NameOfIff | src/github_app.rs:293-297 | a listed repository gets the key between the spaces of its name, if that has a slash |
| RepoAccess.AccessBoard.Refresh | src/github_app.rs:381-436 | the new index is stored only if every installation answered; any failure leaves installations and repositories as they were and records the first error |
| RepoAccess.BuiltGet | src/github_app.rs:284-307 | after a refresh each key holds what its last lister said, and nothing else is a key |
| RepoAccess.RouteCoveredIff | src/github_app.rs:999-1008 | a name is covered if and only if some installation listed a valid name equal ignoring ASCII case; the route is the last lister of that very name, else of the least such name |
| RepoAccess.FirstIgnoringCaseIff | src/github_app.rs:116-128 | the search ignoring case stops at the first matching key in order |
| RepoAccess.ListRepositories | src/github_app.rs:313-375 | the paging loop gives the named rows page by page up to the first short one or the 50th, or the first page's failure |
| RepoAccess.NamedOneIs | src/github_app.rs:346-361 | supporting: a row is kept under the trimmed name, and skipped without one |
| RepoAccess.ListingFailsIff | src/github_app.rs:325-371 | the listing fails if and only if some page fails that only full pages came before |
| RepoAccess.ListingEndsAt5000 | src/github_app.rs:325-371 | a list served without failure is returned up to its 5000th row |
| RepoAccessView.GithubRepoAccessView | src/api.rs:1080-1123 | the pushing and sorting loops give the grouped view |
| RepoAccessView.ViewGroups | src/api.rs:1096-1123 | groups are sorted by login and id, repositories by name, and each group is the whole of its installation's rows or empty |
| RepoAccessView.ViewConserves | src/api.rs:1096-1123 | for every cache each cached repository is shown exactly once |
| RepoAccessView.RefreshedView | src/api.rs:1080-1123 | for a refreshed cache no group is made up: one per installation, distinct ids, exactly its rows, each showing its own installation |
| RepoAccessView.BuiltIsClosed | src/github_app.rs:284-307 | a refreshed cache knows each installation once and the installation of every row |
| RepoAccessView.ReposAlreadySorted | src/api.rs:1119-1121 | sorting the repositories inside a group changes nothing, since rows arrive in key order |
| Slug.Slugify | src/model.rs:1245-1265 | the buffer loop gives the slug |
| Slug.SlugifiedIffCanonical | src/model.rs:1245-1265 | a slug is non-empty lower-case alphanumeric words joined by single hyphens, slugify leaves exactly those alone, and it is idempotent |
| Slug.SlugOfParts | src/model.rs:1245-1265 | any text, read as words and gaps: the words in lower case, a hyphen exactly where whitespace, `-` or `_` separates two, none for other punctuation or at the ends |
| Slug.TakenBound | src/mcp_client_oauth.rs:200-206 | a catalog cannot hold more candidates than it has entries |
| Slug.FreshServerId | src/mcp_client_oauth.rs:196-208 | the search ends for every finite catalog at the first candidate that is not in it |
| Shell.QuotedIsOneWord | src/engine.rs:305-307 | for every string and both ways of escaping a quote the shell reads back one word, the string |
| Shell.RunQuoted | src/antigravity.rs:78-80 | inside any unquoted context the quoted form appends exactly the string to the current word |
| Shell.JoinedWords | src/engine.rs:364-365 | complete pieces joined by a space read as the words of the first and then those of the second |
| Shell.ParamIsOneWord | src/engine.rs:173-182 | a quoted parameter is one word whatever it holds |
| Engine.CommandLine | src/engine.rs:328-366 | the pushes give the parts in order, or an error for an unknown engine |
| Engine.LookupIff | src/engine.rs:204-210 | an id finds exactly the registered engine it names, spaces aside |
| Engine.ModelOfEngine | src/engine.rs:289-326 | which model each engine is told: none for Claude and Pi, the chosen one or its default for Antigravity, the chosen one for the rest |
| Engine.ModelIsTwoWords | src/engine.rs:310-319 | the model segment is exactly `--model` and the trimmed model |
| Engine.CommandLineReadsAsArgv | src/engine.rs:328-366 | for every registered engine and every model string the shell reads exactly the intended arguments |
| PolicyMerge.MergePolicyFragments | src/mcp_policy.rs:8-38 | the loop merges the non-blank fragments in order and stops at the first error |
| PolicyMerge.MergeNetworkPolicies | src/mcp_policy.rs:58-72 | the insertion loop is a right-biased union of the policies |
| PolicyMerge.EntriesOfIs | src/mcp_policy.rs:67-71 | supporting: of the inserted pairs each key keeps the last value |
| PolicyMerge.BatchesCompose | src/mcp_policy.rs:8-38 | two batches are one batch, errors included |
| PolicyMerge.MergedContent | src/mcp_policy.rs:8-72 | every other key of the base is untouched, and the policies are the base's overridden by the fragments |
| PolicyMerge.LastWriter | src/mcp_policy.rs:58-72 | a policy name keeps the value of its last writer |
| PolicyMerge.MergedOkIff | src/mcp_policy.rs:8-72 | merging succeeds if and only if there is nothing to merge, or base and fragments are mappings and the base's policies, if any, are one |
| PolicyMerge.PolicyOfLastGiver | src/mcp_policy.rs:8-72 | after a merge each policy has the value of the last fragment that gives it one, under its `network_policies` or as a bare body, else the base's own; there are no others, and no other key changed |
| PolicyMerge.MergeIsIdempotent | src/mcp_policy.rs:8-72 | merging the same list twice equals once |
| PolicyMerge.MalformedFragmentBringsItsKeys | src/mcp_policy.rs:40-56 | exactly when a fragment with a malformed `network_policies` is read as a bare body |
| Session.ConstantTimeEqIff | src/auth.rs:249-254 | the fold answers exactly equality |
| Session.DecodesExactly | src/auth.rs:227-247 | a key accepts exactly the signed encodings of an unexpired payload that names a login |
| Session.SessionRoundTripIff | src/auth.rs:215-247 | a cookie gives its user back if and only if the login is not blank and its lifetime has not passed |
| Relay.RunKeepsInv | src/cockpit_mcp_tunnel.rs:278-351 | however callers interleave, every live relay is the one in the slot or the one in the lock holder's hand |
| Relay.AtMostOneRelay | src/cockpit_mcp_tunnel.rs:278-351 | in every reachable state at most one relay task is live |
| Relay.AnswersMean | src/cockpit_mcp_tunnel.rs:278-351 | a stop or a failed start leaves no live relay, a successful ensure leaves the asked sandbox's relay in the slot |
| Relay.AnsweredAtOnceIff | src/cockpit_mcp_tunnel.rs:283-299 | in every reachable state a caller is answered at once, with success, if and only if a live relay of the sandbox it asks for is in the slot; with failure if and only if it names none |
| Relay.CallerStepsMean | src/cockpit_mcp_tunnel.rs:278-351 | a stop ends exactly the relay taken out of the slot; what each caller is answered; a caller dropped while it probes frees the lock and leaves its relay in the slot |
| Relay.SessionsStayOwnedIff | src/cockpit_mcp_tunnel.rs:336-344 | a step leaves a session running under no relay if and only if it stops a relay whose session is open |
| Relay.SwitchLeavesTwoSessions | src/cockpit_mcp_tunnel.rs:278-344 | for any two sandboxes a run from the start leaves two sessions running, one under no relay |

## Left out

- StreamIsContiguous: for publishers that take turns, which the code does not enforce; for any number of them `ConcurrentFeed.ReplayThenArrivals` is what is sent, `ReconnectAppliesAllIff` and `ResetAppliesAllIff` when that is every event in order.
- ReplayIsExact: likewise; the exact condition for any number of publishers is `ReconnectAppliesAllIff`.
- RunKeepsInv: likewise; what any number of publishers keep is `ConcurrentFeed.FromStart`.
- ReconnectKeepsReplica: likewise, and for changes told by their events; the exact conditions are `Publishing.ReconnectFollowsIff` and `InOrderReplica.ReplicaRefinesIff`.
- ReconnectFollowsIff: is about the reducer alone, as are the other results of `Publishing` and `Replica`; the browser that also reloads is `Reload`.
- ReducerConverges: and the other results on copies are for changes their events tell, from the first one applied on; which those are is `Board.EventCarriesChangeIff`.
- EqualWhenItemsFollow: one direction, for one history; over all histories the exact condition is `EqualIffFinalStretch`.
- ReloadsIffHole: the mark that the gap check reads is taken to be the reducer's; the browser updates it after rendering, so a gap can also be seen where there is none.
- PollHeals: that a load is answered is not modelled; a failed one leaves the copy as it is.
- Edits that publish nothing themselves (the fields `report`, `halt`, `escalate` and `unpark` clear before their transition) count as part of the publication that follows; when that transition is refused they stay unpublished until the next poll.
- The engine and the resolved model that a snapshot overlays on its items, goal rollups and story lines are not part of the compared items; a restart of the server's counter.
- RestoreSucceedsIff: and `HolderClaimedIff` are for cards that leave Retired only by restoring; a plain transition out of it is `PlainExitSkipsShaping`.
- AppliedExactlyOnce: needs lists that only grow with new ids above all earlier ones; what happens otherwise is `AppliedPerReturn`.
- RunIsPerPr: for targets that are distinct and trimmed and do not begin with `#`, as a set of parsed URLs gives them; collecting the targets from card states and parsing pull request URLs are not modelled.
- AtMostOneSuccess: random codes are taken not to repeat.
- TokensTraceBack: a token that bears the server's key is taken to be one it issued; web session cookies use the same key in another format.
- SameNormalFormIff: for hosts without a slash and with a colon only inside brackets, and paths that are empty or begin with a slash, as a URI parser gives them.
- RunsStayHonest: for calls that do not overlap; two mints in flight at once are not modelled.
- AtMostOneRelay: a relay aborted in the middle of a step is taken to stop at once, and calls are taken to be dropped only while they wait.
- Atomic counters are sequentially consistent and unbounded; `u64` saturation is modelled where the code saturates, the `u32` counter of the id search is not bounded.
- SHA-256, HMAC, JWT signing, sealing, Argon2, random tokens, JSON, YAML text, UTF-8 and URI parsing are parameters or taken as lawful; a signature verifies only what its key signed.
- The tolerance of 60 seconds for token expiry is the default of the JWT library; each request reads its clock once.
- Client registration, client metadata documents, static clients, cockpit seat tokens and the discovery endpoints.
- HTTP routing, gateway calls, sandbox scripts, WebSocket relaying, the pump loop and the user interface.
- Merge completion, conditional requests and the warning throttle of the poll loop; reviews beyond the first page are never fetched by the code.
- Routed per-installation providers, the escalation of uncovered repositories and the card's repository lookup.
- The fixed texts of an engine are given word by word; the environment exports of the engines.
- Cockpit session guards, column mapping, default settings and presence flags: settled by reading one branch.
- Persistence, leases, parking, the supervisor and the rest of the store.
