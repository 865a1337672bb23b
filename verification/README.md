# A verified model of the tentserv chat server

This project models the parts of the chat server that keep state in two places or change it in
several steps, and proves what those parts promise over whole runs. Each area has

* a specification: a `State` datatype, one function per operation, and `Step`/`Run` over events;
* classes with the tables, caches, slices and counters as fields, whose methods work as the
  server's do and are proved equal to the specification functions;
* lemmas about every run, for any number of events in any order the area allows.

| files | what they are about |
|---|---|
| `SessionSpec`, `SessionManager`, `SessionRefinement`, `SessionGuarantees`, `SessionAgreement`, `SessionFinality`, `SessionSwitching` | sessions in Redis and PostgreSQL |
| `DeliverySpec`, `Delivery`, `DeliveryGuarantees`, `DeliveryOutcomes` | acknowledged delivery: dispatcher, retry scheduler, waiters, acknowledgements |
| `HubSpec`, `Hub`, `HubGuarantees` | the WebSocket hub and its per-user index of connections |
| `Paging`, `PagingGuarantees` | message pages with a `before_id` cursor |
| `RateLimits`, `RateLimitGuarantees` | the global and the per-address rate limiter |
| `SenderKeys`, `SenderKeyGuarantees`, `SenderKeyRequests`, `SenderKeyRuns` | sender keys, who fetched which chain, requests for keys |
| `Friendships`, `FriendshipGuarantees` | the rows between two users, and the search result's friendship map |
| `Rooms`, `RoomGuarantees`, `RoomOutcomes` | rooms, members, join requests and invitations |
| `Common` | `Option` and two small definitions |

`dafny verify dfyconfig.toml` checks everything.

## Main results

**Sessions.** `FindByToken` never reads the session row. Still, over every run of the six timed
operations with an advancing clock, cache and rows together answer exactly like one table that
stores the current access token (`CacheRefinesTable`), so a token is accepted if and only if the
row that holds its refresh token is neither revoked nor expired (`AcceptedIffRowIsActive`). The
invariant behind it is that no cache entry outlives its row's `expires_at`; the revoke-all scans
need it because they list unexpired rows only. `SwitchUser` breaks that invariant: it renews the
cache entry and leaves `expires_at` alone. With it, live access keys and live id keys are still
inverse maps that agree with the rows (`CacheAgreesWithRows`), and a run of all seven operations
keeps every accepted token backed by an unrevoked row if and only if no revoke-all in it meets a
cached session that has outlived its row (`StaysSoundIff`); `SwitchUserOutlivesRow` is a run of
four operations in which one does, for either revoke-all. Single use of refresh tokens, the end
of an old pair and the finality of `Revoke` hold with `SwitchUser` as well (`SessionFinality`);
the one exception, a `Revoke` at the very instant of expiry, is exact
(`RevokeAtExpiryLeavesRefresh`). `SwitchUser` itself changes the user of one row and of what
`FindByToken` answers from then on, and nothing else (`SwitchOutcome`, `FoundAsSwitched`).

**Delivery.** In any interleaving an item is delivered exactly when an acknowledgement of its id
was sent to a waiting goroutine, apart from those still on their way to the update; one sent
before the push's timeout always is. Two pushes for
one item never overlap in any timely run if and only if goroutines lose at most 25 s beyond the
5 s timeout, which is what 30 s of pending age leaves (`NoOverlapIff`). Every push, retries
included, sends what the one `Dispatch` of its delivery was given (`SendsWhatWasDispatched`).

**Hub.** The slices behind the index are modelled over shared backing arrays and cut in place.
After any run each user's list is exactly that user's live connections in registration order,
and each channel has been closed once if its client is gone and never otherwise. A connection
receives exactly the messages sent to it while fewer than 256 were waiting, in sending order
(`DrainedInOrder`).

**Paging.** A walk with `before_id` terminates, never produces cursor 0, and shows every message
that survives exactly once, whatever is inserted, edited or deleted between the pages. Any
answer, the initial page included, shows exactly the undeleted rows it was built from
(`InfosShowUndeleted`).

**Rate limits.** The global limiter's stored set is always the distinct stamps of the last
window, although the key expires; the per-address limiter admits up to `Limit + 1` requests in a
half-open window, that bound is reached, and a refusal lasts until exactly one window after the
last accepted request. A request is accepted if and only if the chain of accepted requests that
reaches it without a gap of a window holds at most `Limit` of them (`IpAcceptedIff`).

**Sender keys.** Late, reordered acknowledgements leave the maximum per pair; the two halves of
the status answer are converse to each other; a recorded fetch leaves exactly the senders with a
newer key pending; every recorded chain was really served. Both lists of the status are given
exactly, row by row (`StatusReceiversExact`, `StatusSendersExact`). Every fulfilled request was notified
while its provider had a key, but a request repeated between the message and the mark is marked
with it: it was notified since it was last made exactly in runs without such a request
(`NotifiedSinceIff`, `RepeatedRequestIsSwallowed`).

**Friendships and rooms.** The rows between two users implement a machine with four relations (none, requested, friends,
blocked). A run stays within them if and only if no invitation block in it hits two friends
(`StaysRegularIff`), and accepting a request meets a unique violation exactly for a request to
oneself (`AcceptAbortsIff`). No room with a positive limit is ever overfull, an
invitation is resolved at most once, and every active member has a reason to be one. What each
use case answers and changes, case by case, is in `RoomOutcomes` and `AnswersExactly`.

## Assumptions

* Tokens are fresh, and SHA-256 is injective. Random values and the clock are parameters; an
  operation happens at one instant, and `FindByToken`'s background write belongs to its step.
* A Redis key is gone from the instant at which its time to live has passed. Rate-limit windows
  are whole seconds, because Redis expires keys by the second; the model counts microseconds.
* Redis and PostgreSQL do not fail, and stored JSON parses. A result set without `ORDER BY` may
  come in any order. A failed insert leaves no gap in the ids.
* In a PostgreSQL transaction a unique violation makes every later statement fail.
* Each friendship and room use case, each case of the hub's loop, each `SendToUser`, each fetch of
  sender keys and each status call is one step: the several queries of
  `get_sender_keys.go:66-79` and `get_sender_key_distribution_status.go:103-138` read one state of
  the tables. A retry scan with the start of its goroutines is one step. A push goroutine, a
  `ResolveAck` call and a notifier of requesters take several.
* A push goroutine that has registered is parked in its `select` before its timer fires
  (`hub.go:113-119`). If it stalled for the whole timeout between the two, both channels would be
  ready and Go could pick either.
* Each WebSocket client registers once.

## Where the code and its comments differ

The model follows the code.

* `accept_friendship_usecase.go:79-85` means to treat a duplicate key as success; inside a
  transaction PostgreSQL refuses everything after it, and the accept is rolled back. The case
  arises for exactly one kind of row, a user's own pending request to itself, which nothing in
  `apply_friendship_usecase.go:25-56` or the table forbids (`AcceptAbortsIff`,
  `AcceptingOneselfAborts`).
* `remove_friendship_usecase.go:37` admits both users of a row, so a blocked user can remove the
  block, and can also replace it by a block of its own (`BlockEndsIff`).
* `postgres_e2ee.sql:55` says that a re-key increments the chain id; `upload_sender_key.go:78-82`
  never sets it, so a member's second upload violates UNIQUE (chat_member_id, chain_id). The
  repository lemmas hold for any chain numbers; `EveryRecordIsAccepted` is about the code as it stands.
* `create_sender_key_request.go:64` says that the provider is checked to be in the room; it is
  looked up by id alone.
* `postgres_e2ee.sql:87` says that a fulfilled request is deleted; it is only marked.
* `hub.go:127` says that `ResolveAck` closes the channel; it sends on it.
* `respond_to_invitation.go:113-123` is meant to record the block as a friendship; it changes
  whichever row `FindBetweenUsers` returned, so the invitee need not become the blocker (`InvitationBlockBlocksIff`).
* `chat_invitation_repo.go:32-36` filters on `expires_at`, but no use case sets that column, so
  the filter is always true.
* `session_repo.go:79-97` and `99-116` list unexpired rows only, while the updates that follow
  them revoke expired rows too.

## Model

| member | source | states |
|---|---|---|
| `SessionRefinement.CacheRefinesTable` | internal/infrastructure/auth/session/session_manager.go:96-233 | Main result: in every run of Create, FindByToken, Refresh, Revoke, RevokeAllForUser and RevokeAll over a clock that does not go back, with fresh tokens, cache and rows give the same answers as one table with the current token pair per session |
| `SessionRefinement.SimStep` | internal/infrastructure/auth/session/session_manager.go:47-233 | Each operation keeps the simulation between cache, rows and the single table (each valid session cached under both keys with the row's own expiry, nothing else live) and answers as the table does |
| `SessionRefinement.SameHolder` | internal/infrastructure/auth/session/session_manager.go:96-102 | A token has a live cache entry exactly when some valid session has it as its access token, and the entry is that session |
| `SessionRefinement.SimRevokeSet` | internal/infrastructure/persistence/postgres/session/session_repo.go:79-116 | Purging only the unexpired sessions of a set and revoking the whole set leaves no live entry for any of them |
| `SessionRefinement.RelinkSlot` | internal/infrastructure/auth/session/session_manager.go:144-186 | Dropping a session's old keys, rewriting its row and caching the new token leaves it reachable under exactly the new token |
| `SessionGuarantees.AcceptedIffRowIsActive` | internal/infrastructure/auth/session/session_manager.go:96-129 | FindByToken accepts a token in a run if and only if some row that is neither revoked nor expired holds the refresh token generated with it |
| `SessionGuarantees.FoundMatchesRow` | internal/infrastructure/auth/session/session_manager.go:96-129 | The session it returns has an active row and the same account, user, device and refresh token as the row; its expiry has moved to now plus the expiration |
| `SessionFinality.RefusedStaysRefused` | internal/infrastructure/auth/session/session_manager.go:94-102 | In runs of all seven operations: an issued access token that was refused once is refused for the rest of the run |
| `SessionFinality.RefreshRetiresOldPair` | internal/infrastructure/auth/session/session_manager.go:133-189 | In runs of all seven operations: after a successful refresh the old access token and the old refresh token are denied for the rest of the run |
| `SessionFinality.RefreshTokensAreSingleUse` | internal/infrastructure/auth/session/session_manager.go:133-189 | In runs of all seven operations no refresh token succeeds twice |
| `SessionFinality.RevokeIsFinal` | internal/infrastructure/auth/session/session_manager.go:192-209 | In runs of all seven operations: after Revoke of an access token neither it nor its refresh token is accepted again, unless the token is not cached and an unrevoked row with the refresh token expires at that very instant |
| `SessionFinality.RevokeAtExpiryLeavesRefresh` | internal/infrastructure/auth/session/session_manager.go:140-142 | In the excepted case Revoke does nothing, and a Refresh right after it succeeds, in every such run |
| `SessionFinality.RevokeAllIsFinal` | internal/infrastructure/auth/session/session_manager.go:224-233 | After RevokeAll no refresh token issued before it is accepted again, and no access token either if the scans up to it reached every cached session they should, as they always do without SwitchUser |
| `SessionFinality.TimedScansReached` | internal/infrastructure/persistence/postgres/session/session_repo.go:79-116 | Without SwitchUser every scan reaches every cached session it should |
| `SessionFinality.CoveredAt` | internal/infrastructure/auth/session/session_manager.go:265-274 | In runs of all seven operations every active row has a live id key that lasts at least as long as the row |
| `SessionFinality.RevokeAllForUserIsFinal` | internal/infrastructure/auth/session/session_manager.go:212-221 | After RevokeAllForUser the current refresh token of each of the account's rows is never accepted again, even if the scan skipped the row as expired; the access token of its pair neither, under the same condition |
| `SessionAgreement.CacheAgreesWithRows` | internal/infrastructure/auth/session/session_manager.go:236-282 | In every reachable state, SwitchUser included: live access keys and live id keys are inverse maps, and each cached session agrees with its row in account, user, device and tokens |
| `SessionAgreement.RevokeAllForUserSoundIff` | internal/infrastructure/auth/session/session_manager.go:212-221 | From a state in which every accepted token has an unrevoked row, RevokeAllForUser keeps that if and only if no cached session of the account has outlived its row |
| `SessionAgreement.RevokeAllSoundIff` | internal/infrastructure/auth/session/session_manager.go:224-233 | RevokeAll keeps it if and only if no cached session at all has outlived its row |
| `SessionAgreement.SoundStepIff` | internal/infrastructure/auth/session/session_manager.go:47-260 | Each of the seven operations keeps it, the two revoke-alls exactly under their condition |
| `SessionAgreement.StaysSoundIff` | internal/infrastructure/auth/session/session_manager.go:47-260 | In every legal run, SwitchUser included, every accepted token has an unrevoked row after every event, if and only if no revoke-all in the run met a cached session that had outlived its row |
| `SessionAgreement.AcceptedAreNotRevoked` | internal/infrastructure/auth/session/session_manager.go:94-102 | At any instant after such a run, whatever token is in the cache has an unrevoked row |
| `SessionAgreement.SwitchUserOutlivesRow` | internal/infrastructure/auth/session/session_manager.go:254-259 | For either revoke-all, a run of create, switch, revoke-all and find in which the token is still accepted although its row is revoked |
| `SessionSwitching.SwitchOutcome` | internal/infrastructure/auth/session/session_manager.go:236-260 | In every legal run of all seven operations SwitchUser answers Done if and only if the token is cached and live; then the row of its session has the new user, every other column and row is as it was, and both cache keys of the session carry the new user and a new expiry. Otherwise it is denied and nothing changes |
| `SessionSwitching.FoundAsSwitched` | internal/infrastructure/auth/session/session_manager.go:254-259 | After a successful SwitchUser, until the next one of the same token, every session that FindByToken returns for the token has the new user |
| `SessionSwitching.FoundMirrorsRow` | internal/infrastructure/auth/session/session_manager.go:96-129 | With SwitchUser in the run, too, the session that FindByToken returns agrees with its row in account, user, device, creation time and refresh token |
| `SessionSwitching.UserChangesBySwitch` | internal/infrastructure/persistence/postgres/session/session_repo.go:187-196 | The user of a row changes only by a SwitchUser of a token that is cached for that session, and to the user it names |
| `SessionManager.SessionManager.Create` | internal/infrastructure/auth/session/session_manager.go:47-92 | Adds a row and both cache keys and returns the pair; a refresh hash already present changes nothing and is reported |
| `SessionManager.SessionManager.FindByToken` | internal/infrastructure/auth/session/session_manager.go:96-129 | Answers from the cache alone; on success both keys and the row get the new expiry, otherwise nothing changes |
| `SessionManager.SessionManager.Refresh` | internal/infrastructure/auth/session/session_manager.go:133-189 | Refuses unknown, revoked and expired refresh tokens without a change; otherwise old keys go, the row rotates, the new token is cached |
| `SessionManager.SessionManager.Revoke` | internal/infrastructure/auth/session/session_manager.go:192-209 | Removes both keys and revokes the row of a cached token; an unknown token changes nothing |
| `SessionManager.SessionManager.RevokeAllForUser` | internal/infrastructure/auth/session/session_manager.go:212-221 | Purges the keys of the account's unexpired sessions, in whatever order they are listed, and revokes all its rows |
| `SessionManager.SessionManager.RevokeAll` | internal/infrastructure/auth/session/session_manager.go:224-233 | The same for every account |
| `SessionManager.SessionManager.SwitchUser` | internal/infrastructure/auth/session/session_manager.go:236-260 | Changes the user in the row and the cached session and renews both keys; the row's expiry stays |
| `SessionManager.SessionManager.SetCache` | internal/infrastructure/auth/session/session_manager.go:265-274 | Stores the session under its access key and the hash under its id key, with the same expiry |
| `SessionManager.SessionManager.DeleteBySessionID` | internal/infrastructure/auth/session/session_manager.go:277-282 | Removes the id key, and the access key it leads to if the id key is live |
| `SessionManager.SessionManager.DeleteAll` | internal/infrastructure/auth/session/session_manager.go:217-219 | The loop over the listed ids purges exactly that set, whatever its order |
| `SessionManager.PurgeTwice` | internal/infrastructure/auth/session/session_manager.go:217-219 | Purging one more id after others equals purging them together |
| `SessionManager.SessionRepository.Create` | internal/infrastructure/persistence/postgres/session/session_repo.go:22-37 | A new row with the next id, or a unique violation and no change |
| `SessionManager.SessionRepository.FindByRefreshTokenHash` | internal/infrastructure/persistence/postgres/session/session_repo.go:59-77 | The one row with the hash, or none |
| `SessionManager.SessionRepository.FindActiveIDsByAccountID` | internal/infrastructure/persistence/postgres/session/session_repo.go:79-97 | Exactly the ids of the account's unrevoked, unexpired rows, each once |
| `SessionManager.SessionRepository.FindAllActiveIDs` | internal/infrastructure/persistence/postgres/session/session_repo.go:99-116 | Exactly the ids of all unrevoked, unexpired rows, each once |
| `SessionManager.SessionRepository.UpdateRefreshToken` | internal/infrastructure/persistence/postgres/session/session_repo.go:118-129 | Rotates hash and expiry of the row, unless another row has the new hash; an unknown id is no error and changes nothing |
| `SessionManager.SessionRepository.UpdateExpiresAt` | internal/infrastructure/persistence/postgres/session/session_repo.go:131-141 | Moves one row's expiry and changes nothing else |
| `SessionManager.SessionRepository.UpdateUserID` | internal/infrastructure/persistence/postgres/session/session_repo.go:187-196 | Changes one row's user and nothing else |
| `SessionManager.SessionRepository.Revoke` | internal/infrastructure/persistence/postgres/session/session_repo.go:154-163 | Revokes one row |
| `SessionManager.SessionRepository.RevokeAllForAccount` | internal/infrastructure/persistence/postgres/session/session_repo.go:165-174 | Revokes every row of the account, expired ones too |
| `SessionManager.SessionRepository.RevokeAll` | internal/infrastructure/persistence/postgres/session/session_repo.go:176-185 | Afterwards every row is revoked |
| `DeliveryGuarantees.DeliveredIffAcknowledged` | internal/interface/ws/hub.go:96-138 | In every interleaving an acknowledgement has reached a waiting goroutine if and only if the item is delivered or the acknowledgement is on its way; delivered implies acknowledged |
| `DeliveryGuarantees.AckFlow` | internal/interface/ws/hub.go:113-138 | One step neither loses an acknowledgement that landed nor invents one, and never undoes a delivery |
| `DeliveryGuarantees.DeliveredForever` | internal/infrastructure/persistence/postgres/deliveryqueue/repo.go:51-74 | A delivered item stays delivered for the rest of the run |
| `DeliveryGuarantees.ScanRetriesOrIsDone` | internal/infrastructure/push/scheduler.go:43-53 | A scan more than 30 s after the enqueue starts exactly one push for an item that is not delivered, and none for any other item |
| `DeliveryGuarantees.NoOverlapIff` | internal/infrastructure/push/scheduler.go:14-17 | Pushes for one delivery never overlap in any timely run if and only if the slack is at most pendingAge minus pushTimeout |
| `DeliveryGuarantees.OverlapWithMoreSlack` | internal/infrastructure/push/scheduler.go:14-17 | With more slack there is a run in which two goroutines for one item coexist |
| `DeliveryGuarantees.RegisterNeverOverwrites` | internal/interface/ws/hub.go:99-101 | In timely runs no channel is registered over that of a push that has not returned |
| `DeliveryGuarantees.AckBeforeTimeoutDelivers` | internal/interface/ws/hub.go:113-138 | An acknowledgement sent on a push's channel less than 5 s after the push registered (or later, if its timer has not fired) makes that push, and no other, return true; past its deadline the item is delivered |
| `DeliveryGuarantees.NotTimedOutYet` | internal/interface/ws/hub.go:119-123 | Before its timeout a push that has registered is waiting or has been acknowledged |
| `DeliveryGuarantees.AckFindsPush` | internal/interface/ws/hub.go:99-131 | In timely runs an acknowledgement that arrives between the push's registration and its return finds that push's channel |
| `DeliveryGuarantees.TimedStep` | internal/infrastructure/push/scheduler.go:29-53 | Each timely step keeps: one goroutine per delivery, none older than its deadline, each registered one owning its entry |
| `DeliveryOutcomes.SendsWhatWasDispatched` | internal/infrastructure/push/db_dispatcher.go:32-47 | In every run each push of a delivery, the first and every retry, sends to exactly the user and with exactly the payload that the Dispatch which created the delivery was given |
| `DeliveryOutcomes.DispatchedRow` | internal/infrastructure/persistence/postgres/deliveryqueue/repo.go:32-49 | The row a Dispatch makes keeps its user, payload and creation time in every later state |
| `DeliveryOutcomes.RowWasDispatched` | internal/infrastructure/push/db_dispatcher.go:32-40 | Every row of the queue was made by a Dispatch of its user and payload |
| `DeliveryOutcomes.AnsweredExchange` | internal/interface/ws/hub.go:97-138 | A push whose client answers ends with the row delivered at that instant, and with goroutine, channel entry and acknowledgement gone |
| `DeliveryOutcomes.AnswerWakes` | internal/interface/ws/hub.go:97-138 | The acknowledgement of a push that has registered finds its channel and wakes it |
| `DeliveryOutcomes.UnansweredExchange` | internal/interface/ws/hub.go:119-124 | A push whose client does not answer cannot time out earlier than 5 s after it registered; then its goroutine and entry are gone and the row is unchanged |
| `DeliveryOutcomes.DeliveryTimeIsLastMark` | internal/infrastructure/persistence/postgres/deliveryqueue/repo.go:51-74 | In every run a row is delivered if and only if it has a delivery time, and that is the instant at which a goroutine of the delivery last marked it |
| `Delivery.DeliveryService.Enqueue` | internal/infrastructure/persistence/postgres/deliveryqueue/repo.go:32-49 | A new pending item with the next id, the user, type and payload, created now and not delivered |
| `Delivery.DeliveryService.MarkDelivered` | internal/infrastructure/persistence/postgres/deliveryqueue/repo.go:51-74 | Sets status and delivery time of an existing item; reports a missing one and changes nothing |
| `Delivery.DeliveryService.FindPendingOlderThan` | internal/infrastructure/persistence/postgres/deliveryqueue/repo.go:76-101 | Exactly the pending items created before now minus the age, each once |
| `Delivery.DeliveryService.Dispatch` | internal/infrastructure/push/db_dispatcher.go:32-42 | Enqueues the item and starts one push goroutine for it |
| `Delivery.DeliveryService.Retry` | internal/infrastructure/push/scheduler.go:43-53 | Starts one push goroutine per due item, in whatever order the scan lists them |
| `Delivery.DeliveryService.SpawnEach` | internal/infrastructure/push/scheduler.go:50-52 | The loop starts one goroutine per listed item |
| `Delivery.DeliveryService.Register` | internal/interface/ws/hub.go:97-111 | Enters the goroutine's channel for its delivery id, replacing what was there, and hands the item's typed message with that id to its user's connections |
| `Delivery.DeliveryService.LookUpChannel` | internal/interface/ws/hub.go:129-131 | The lookup under the lock finds the channel registered for the id, or nothing |
| `Delivery.DeliveryService.SendAck` | internal/interface/ws/hub.go:132-137 | The send wakes the channel's goroutine if it is still waiting, and otherwise changes nothing |
| `Delivery.DeliveryService.TimerFires` | internal/interface/ws/hub.go:119-119 | A waiting goroutine whose timeout has passed takes the timeout branch |
| `Delivery.DeliveryService.FinishPush` | internal/interface/ws/hub.go:114-124 | Removes the entry of its delivery id and returns whether it was acknowledged |
| `Delivery.DeliveryService.Track` | internal/infrastructure/push/db_dispatcher.go:47-52 | After a true result the item becomes delivered and the goroutine ends |
| `HubGuarantees.IndexIsLiveClients` | internal/interface/ws/hub.go:49-92 | After any run a user has a list exactly when the user is named and has a live client; the list is duplicate-free and is that user's live clients in registration order |
| `HubGuarantees.ClosedExactlyOnce` | internal/interface/ws/hub.go:63-72 | A registered client's channel was closed once if it is no longer live, and never if it is |
| `HubGuarantees.SendReachesLiveClients` | internal/interface/ws/hub.go:84-92 | SendToUser puts the message once, at the end, into the channel of each live connection of the user that holds fewer than 256 messages; full channels, all other channels, the index and the client set stay as they were |
| `HubGuarantees.BroadcastReachesLiveClients` | internal/interface/ws/hub.go:74-77 | The same for every live connection |
| `HubGuarantees.DrainedInOrder` | internal/interface/ws/client.go:76-111 | Main result: after every run a client's write pump has taken exactly the messages that were sent to the client while its buffer had room, in sending order, except for those still queued, of which there are at most 256 |
| `HubGuarantees.ChannelStep` | internal/interface/ws/client.go:76-111 | One event: what leaves a channel, followed by what stays, is what was there followed by what arrives |
| `HubGuarantees.IndexedAreLive` | internal/interface/ws/hub.go:84-92 | Every client in a user's list is live and belongs to that user |
| `HubGuarantees.LiveOfRemove` | internal/interface/ws/hub.go:147-158 | Removing the first occurrence of a client from its user's list is removing it from the live clients, order kept |
| `HubGuarantees.OfferEachOnce` | internal/interface/ws/hub.go:89-91 | Walking a duplicate-free list offers the message exactly once to each member |
| `HubGuarantees.InvHolds` | internal/interface/ws/hub.go:49-80 | The invariant behind these results holds after every run that registers each client once, with the write pumps draining in between |
| `HubGuarantees.StepKeepsInv` | internal/interface/ws/hub.go:49-92 | Every event keeps it |
| `Hub.AppendTo` | internal/interface/ws/hub.go:56-56 | append: the old elements and then the new one, in the same array if it has room |
| `Hub.CutAt` | internal/interface/ws/hub.go:151-151 | append(clients[:i], clients[i+1:]...): the same array without element i, the tail shifted down in place |
| `Hub.CutFirst` | internal/interface/ws/hub.go:148-154 | The search loop and the cut remove the first occurrence, or nothing |
| `Hub.UserClients.Add` | internal/interface/ws/hub.go:56-56 | The user's list grows by the client at its end; no other list changes, and no two users share an array |
| `Hub.UserClients.Remove` | internal/interface/ws/hub.go:147-158 | The client leaves its user's list in place; a list that becomes empty is dropped; other lists stay |
| `Hub.Hub.Register` | internal/interface/ws/hub.go:52-57 | The client becomes live, and is indexed if it has a user |
| `Hub.Hub.Unregister` | internal/interface/ws/hub.go:63-72 | A live client is removed, its channel closed and its index entry cut; for any other client nothing happens |
| `Hub.Hub.Broadcast` | internal/interface/ws/hub.go:74-77 | Every live client is offered the message once, in any order; nothing else changes |
| `Hub.Hub.SendToUser` | internal/interface/ws/hub.go:84-92 | Each listed client is offered the message once, which Client.Send queues or drops; needs open channels, which IndexedAreLive provides |
| `Hub.Hub.Drain` | internal/interface/ws/client.go:76-89 | The write pump takes the oldest message of its client and nothing else changes |
| `Hub.SendEach` | internal/interface/ws/hub.go:89-91 | The range loop offers the message along the slice, in order |
| `HubSpec.Client.Send` | internal/interface/ws/client.go:105-111 | With fewer than 256 messages queued the message is added at the end; otherwise the queue stays as it was |
| `HubSpec.Client.Receive` | internal/interface/ws/client.go:78-89 | Returns the oldest queued message, also from a closed channel |
| `PagingGuarantees.WalkShowsSurvivors` | internal/application/chat/usecase/get_chat_room_messages.go:80-121 | A finished walk has shown every message below the starting cursor that was not deleted meanwhile, whatever else changed between the pages |
| `PagingGuarantees.ShownAtMostOnce` | internal/infrastructure/persistence/postgres/chat/chat_message_repo.go:101-108 | No id is shown twice: ids ascend within a page and each page lies wholly below the one before |
| `PagingGuarantees.WalkTerminates` | internal/application/chat/usecase/get_chat_room_messages.go:118-121 | The walk reaches a page with HasMore false after at most (before - 1) / limit full pages |
| `PagingGuarantees.CursorsStayPositive` | internal/application/chat/usecase/get_chat_room_messages.go:81-91 | The oldest id of every page is positive and below the cursor, so no continuation asks for before_id 0 |
| `PagingGuarantees.ShownIsReal` | internal/infrastructure/persistence/postgres/chat/chat_message_repo.go:101-108 | Whatever a page shows was in the room, undeleted and below the starting cursor when it was served |
| `PagingGuarantees.PageShape` | internal/infrastructure/persistence/postgres/chat/chat_message_repo.go:95-134 | A page holds the newest matching rows, strictly ascending, and leaves out a match only below a full page |
| `PagingGuarantees.NextCursor` | internal/application/chat/usecase/get_chat_room_messages.go:89-91 | A full page moves the cursor down by at least the limit and keeps it positive |
| `PagingGuarantees.ClientSeesPage` | internal/application/chat/usecase/get_chat_room_messages.go:96-116 | The loop that skips deleted messages skips none on a continuation page, so the client sees every row of it, field by field |
| `Paging.ReverseInPlace` | internal/infrastructure/persistence/postgres/chat/chat_message_repo.go:128-131 | The two-index swap loop leaves the array reversed |
| `Paging.Clamp` | internal/application/chat/usecase/get_chat_room_messages.go:62-68 | 0 becomes 20, more than 100 becomes 100, anything between is kept |
| `Paging.GetMessages` | internal/application/chat/usecase/get_chat_room_messages.go:43-122 | Refuses users who are no participants, and participants who are not active members, each with its own error; otherwise shows exactly the undeleted rows of the page for the clamped limit, in order, each with its own fields and its sender's participant, and says whether the page was full |
| `Paging.InfosShowUndeleted` | internal/application/chat/usecase/get_chat_room_messages.go:96-116 | For any rows, deleted ones among them: the answer has one entry for each undeleted row, in order, and no other; an entry carries its row's sender, content, kind, reply, edit mark and time, and the participant of the last member row with the sender's id, or 0 |
| `Paging.ParticipantFound` | internal/application/chat/usecase/get_chat_room_messages.go:75-78 | The lookup gives the participant of the last member row with the id, and 0 for an id without one |
| `Paging.ParticipantMap` | internal/application/chat/usecase/get_chat_room_messages.go:75-78 | The loop builds the lookup from member id to participant id |
| `Paging.ToInfos` | internal/application/chat/usecase/get_chat_room_messages.go:96-116 | The loop that skips deleted messages builds the list that InfosShowUndeleted describes |
| `Paging.ChatMessageRepository.FindByRoomBefore` | internal/infrastructure/persistence/postgres/chat/chat_message_repo.go:95-134 | A fresh array with the page below the cursor, oldest first |
| `Paging.ChatMessageRepository.FindByRoom` | internal/infrastructure/persistence/postgres/chat/chat_message_repo.go:63-93 | The database's answer for the newest rows by created_at, unchanged |
| `Paging.ChatMessageRepository.Create` | internal/infrastructure/persistence/postgres/chat/chat_message_repo.go:214-227 | Appends a row with the next id and keeps ids ascending |
| `Paging.ChatMessageRepository.SoftDelete` | internal/infrastructure/persistence/postgres/chat/chat_message_repo.go:245-256 | Marks the row with the id deleted and changes nothing else |
| `Paging.ChatMessageRepository.Update` | internal/infrastructure/persistence/postgres/chat/chat_message_repo.go:229-243 | Rewrites the content and edit mark of one row and changes nothing else |
| `RateLimitGuarantees.StoredIsLastWindow` | internal/infrastructure/redis/security/rate_limit_cache_repo.go:56-82 | After any non-decreasing sequence of calls the key holds exactly the distinct stamps of the last window, accepted or not, and expires one window after the last call |
| `RateLimitGuarantees.AcceptedIff` | internal/infrastructure/shared/security/rate_limiter.go:27-41 | A call is accepted if and only if the window ending with it holds at most Limit distinct stamps |
| `RateLimitGuarantees.AcceptedInAnyWindow` | internal/infrastructure/shared/security/rate_limiter.go:27-41 | Any window of the configured length, wherever it ends, holds at most Limit distinct stamps of accepted calls |
| `RateLimitGuarantees.AcceptedPerAddress` | internal/infrastructure/shared/security/rate_limiter.go:43-63 | Any half-open window holds at most Limit + 1 accepted calls of one address |
| `RateLimitGuarantees.IpAcceptedIff` | internal/infrastructure/shared/security/rate_limiter.go:43-63 | Over any calls: a call is accepted if and only if the unbroken chain of accepted calls that reaches it, each less than a window after the one before, holds at most Limit calls |
| `RateLimitGuarantees.CounterIsChain` | internal/infrastructure/redis/security/rate_limit_cache_repo.go:27-50 | At any instant the live counter is the length of that chain |
| `RateLimitGuarantees.BurstIsAccepted` | internal/infrastructure/shared/security/rate_limiter.go:43-63 | That bound is reached: Limit + 1 calls at one instant are all accepted |
| `RateLimitGuarantees.RefusedUntilWindowPasses` | internal/infrastructure/shared/security/rate_limiter.go:43-63 | After a refusal the next call is accepted if and only if it comes one window or more after the last accepted one |
| `RateLimitGuarantees.CounterInv` | internal/infrastructure/redis/security/rate_limit_cache_repo.go:27-50 | The key expires one window after the last accepted call, and its counter covers the accepted calls of every window still open |
| `RateLimits.RateLimitRepository.IncrementSliding` | internal/infrastructure/redis/security/rate_limit_cache_repo.go:56-82 | Drops stamps that left the window, adds this one, renews the key and returns how many are stored; other keys stay |
| `RateLimits.RateLimitRepository.Increment` | internal/infrastructure/redis/security/rate_limit_cache_repo.go:27-40 | One more than the live count, with a renewed expiry |
| `RateLimits.RateLimitRepository.Get` | internal/infrastructure/redis/security/rate_limit_cache_repo.go:42-50 | The stored count of a key that exists and has not expired; zero for any other key |
| `RateLimits.RateLimiter.CheckGlobal` | internal/infrastructure/shared/security/rate_limiter.go:27-41 | Stores the stamp in any case, and allows the call if no more than Limit are stored |
| `RateLimits.RateLimiter.CheckIP` | internal/infrastructure/shared/security/rate_limiter.go:43-63 | Refuses without writing above Limit; otherwise counts and allows; other addresses' keys stay |
| `SenderKeyGuarantees.AppliedIsMax` | internal/infrastructure/persistence/postgres/e2ee/sender_key_distribution_repo.go:28-54 | Whatever batches are applied, each pair holds the maximum of what it held and what the accepted batches offer for it |
| `SenderKeyGuarantees.OrderDoesNotMatter` | internal/infrastructure/persistence/postgres/e2ee/sender_key_distribution_repo.go:28-54 | Any permutation of the batches leaves the same table |
| `SenderKeyGuarantees.StatusIsSymmetric` | internal/application/e2ee/usecase/get_sender_key_distribution_status.go:79-138 | For any tables and two members of one room, a is in b's PendingFromMembers exactly when b is in a's PendingReceivers and a is not deleted |
| `SenderKeyGuarantees.PendingFromIsDuplicateFree` | internal/application/e2ee/usecase/get_sender_key_distribution_status.go:113-137 | The nested loop reports no member twice |
| `SenderKeyGuarantees.PendingReceiversIff` | internal/infrastructure/persistence/postgres/e2ee/sender_key_distribution_repo.go:58-87 | Some row up to k with that id meets the condition of the query |
| `SenderKeyGuarantees.PendingReceiversExact` | internal/infrastructure/persistence/postgres/e2ee/sender_key_distribution_repo.go:64-73 | The query selects an id if and only if some other undeleted row of the sender's own room has it and no record of that sender and id is at the chain or later |
| `SenderKeyGuarantees.PendingReceiversDistinct` | internal/infrastructure/persistence/postgres/e2ee/sender_key_distribution_repo.go:64-73 | Each id once |
| `SenderKeyGuarantees.UnknownSender` | internal/infrastructure/persistence/postgres/e2ee/sender_key_distribution_repo.go:66-66 | A sender without a member row has nobody pending |
| `SenderKeyGuarantees.StatusReceiversExact` | internal/application/e2ee/usecase/get_sender_key_distribution_status.go:79-101 | The first list of the status: the other undeleted members of the caller's room that have not fetched the caller's latest key |
| `SenderKeyGuarantees.StatusSendersExact` | internal/application/e2ee/usecase/get_sender_key_distribution_status.go:103-138 | The second list: the other undeleted members of the room whose latest key the caller, itself undeleted, has not fetched |
| `SenderKeyGuarantees.ServedKeysExact` | internal/application/e2ee/usecase/get_sender_keys.go:66-79 | The keys served for a room are those of its member rows, deleted ones included, and no others |
| `SenderKeyGuarantees.PendingFromIff` | internal/application/e2ee/usecase/get_sender_key_distribution_status.go:103-138 | The loop reports exactly the other undeleted members with a key whose pending receivers include the caller |
| `SenderKeyGuarantees.PendingAfterRecord` | internal/application/e2ee/usecase/get_sender_keys.go:76-119 | After a recorded fetch an active member is still reported exactly if its latest key is newer than what the fetch saw and than any earlier record |
| `SenderKeyGuarantees.NothingPendingAfterRecord` | internal/application/e2ee/usecase/get_sender_keys.go:76-119 | With no key added since the fetch, nothing is pending |
| `SenderKeyGuarantees.OnlyNewKeyPending` | internal/application/e2ee/usecase/get_sender_keys.go:76-119 | A key with a larger chain added between read and record leaves exactly its sender pending |
| `SenderKeyGuarantees.RecordRefusedIff` | internal/application/e2ee/usecase/get_sender_keys.go:106-118 | The database refuses the record of a fetch if and only if some other member had two keys |
| `SenderKeyGuarantees.BatchIff` | internal/application/e2ee/usecase/get_sender_keys.go:106-116 | The batch holds exactly one tuple for each served key that is not the receiver's own |
| `SenderKeyRuns.RecordedIsMaxOfWritten` | internal/application/e2ee/usecase/get_sender_keys.go:97-119 | In every interleaving of uploads, fetches and delayed records each pair holds the maximum of the chains written for it |
| `SenderKeyRuns.RecordedWasServedAndGrows` | internal/application/e2ee/usecase/get_sender_keys.go:92-118 | A recorded chain was really served to that receiver by an earlier fetch, so it never exceeds the largest one served, and it never decreases |
| `SenderKeyRuns.EveryRecordIsAccepted` | internal/application/e2ee/usecase/upload_sender_key.go:78-84 | As uploads leave the chain zero, a member has at most one key and no record is ever refused |
| `SenderKeyRuns.FulfilledHasKey` | internal/application/e2ee/usecase/upload_sender_key.go:84-89 | In every interleaving a fulfilled request's provider has a stored key |
| `SenderKeyRuns.FulfilledWasNotified` | internal/application/e2ee/usecase/upload_sender_key.go:121-135 | In every interleaving a fulfilled request was marked by a goroutine of its provider that had sent the requester the message before, at a moment when the provider had a key; since that mark it has not been made again |
| `SenderKeyRuns.NotifiedSinceIff` | internal/application/e2ee/usecase/upload_sender_key.go:131-134 | In a run, whatever is fulfilled or about to be was notified since it was last made, at every moment, if and only if no request is let through between a message and its mark |
| `SenderKeyRuns.RepeatedRequestIsSwallowed` | internal/application/e2ee/usecase/upload_sender_key.go:131-134 | A run in which a repeated request falls in between and ends fulfilled with nothing sent after it |
| `SenderKeyRuns.MarkingWasNotified` | internal/application/e2ee/usecase/upload_sender_key.go:121-134 | A goroutine about to mark a request has sent its requester the message and done nothing since |
| `SenderKeyRuns.UploadAnswersRequests` | internal/application/e2ee/usecase/upload_sender_key.go:84-136 | A first upload stores the key and starts a goroutine which, if nothing interrupts it, fulfils exactly the member's pending requests whose requesters can be reached, as the method NotifyRequesters does |
| `SenderKeyRuns.AloneFulfils` | internal/application/e2ee/usecase/upload_sender_key.go:121-135 | From any point of its list, a goroutine that runs alone fulfils exactly the reachable requesters left in it and changes nothing else |
| `SenderKeyRuns.RequestsStay` | internal/infrastructure/persistence/postgres/e2ee/sender_key_request_repo.go:29-46 | A request row never disappears |
| `SenderKeys.FindLatest` | internal/infrastructure/persistence/postgres/e2ee/sender_key_repo.go:32-54 | The member's largest chain, or none if and only if the member has no key |
| `SenderKeys.E2eeStore.Add` | internal/infrastructure/persistence/postgres/e2ee/sender_key_repo.go:87-105 | Adds the key unless member and chain are already there |
| `SenderKeys.E2eeStore.UploadSenderKey` | internal/application/e2ee/usecase/upload_sender_key.go:55-86 | Refuses non-members, keys that do not decode to 32 bytes and messages that do not decode; otherwise inserts with chain zero, which fails for a member that has that key |
| `SenderKeys.E2eeStore.Latest` | internal/infrastructure/persistence/postgres/e2ee/sender_key_repo.go:32-54 | The member's largest chain, or none without a key |
| `SenderKeys.E2eeStore.UpsertBatch` | internal/infrastructure/persistence/postgres/e2ee/sender_key_distribution_repo.go:30-54 | Nothing for an empty batch; an error and no change if a pair occurs twice; otherwise the maximum merge |
| `SenderKeys.E2eeStore.StatusPendingReceivers` | internal/application/e2ee/usecase/get_sender_key_distribution_status.go:79-101 | The list that StatusReceiversExact describes: the receivers still missing the caller's latest key; none without a key |
| `SenderKeys.E2eeStore.StatusPendingFromMembers` | internal/application/e2ee/usecase/get_sender_key_distribution_status.go:103-138 | The loop with its inner search and break returns, in member order, the list that StatusSendersExact describes |
| `SenderKeys.E2eeStore.Status` | internal/application/e2ee/usecase/get_sender_key_distribution_status.go:47-77 | Refuses non-members; otherwise both lists |
| `SenderKeys.E2eeStore.GetSenderKeys` | internal/application/e2ee/usecase/get_sender_keys.go:51-95 | Refuses non-members; otherwise one item per served key, in order, and the batch for the background write |
| `SenderKeys.E2eeStore.RecordDistributions` | internal/application/e2ee/usecase/get_sender_keys.go:97-116 | The loop leaves out the receiver's own key and keeps the others in order |
| `SenderKeyRequests.RequestStore.Upsert` | internal/infrastructure/persistence/postgres/e2ee/sender_key_request_repo.go:29-46 | The row of the pair is pending, new or again; other rows stay |
| `SenderKeyRequests.RequestStore.FindPendingByProvider` | internal/infrastructure/persistence/postgres/e2ee/sender_key_request_repo.go:48-82 | Exactly the requesters with a pending request to the provider, each once |
| `SenderKeyRequests.RequestStore.Fulfil` | internal/infrastructure/persistence/postgres/e2ee/sender_key_request_repo.go:84-99 | Fulfils the pair's row if it exists; other rows stay |
| `SenderKeyRequests.RequestStore.CreateRequest` | internal/application/e2ee/usecase/create_sender_key_request.go:45-123 | Succeeds if and only if caller and provider are undeleted members, and then upserts the row and pushes to the provider's user, if both have one |
| `SenderKeyRequests.RequestStore.NotifyRequesters` | internal/application/e2ee/usecase/upload_sender_key.go:101-136 | Run alone, sends one message to each pending requester that can still be reached, fulfils exactly those requests, and touches no other |
| `FriendshipGuarantees.StepRefinesPair` | internal/application/friendship/usecase/accept_friendship_usecase.go:58-98 | Each operation moves the relation of the two users it is about as the machine of four relations (none, requested, friends, blocked) says, with the same answer, and leaves every other relation alone |
| `FriendshipGuarantees.RunIsRegular` | internal/application/friendship/usecase/block_user_usecase.go:32-59 | After any run of all seven operations without an invitation block between friends, the rows between two users are none, one pending, one blocked or two accepted |
| `FriendshipGuarantees.StaysRegularIff` | internal/application/chat/usecase/respond_to_invitation.go:112-124 | In every possible run all relations stay regular throughout if and only if no invitation block in it hits two users who are friends at that point |
| `FriendshipGuarantees.StepRegularIff` | internal/application/chat/usecase/respond_to_invitation.go:112-124 | One event keeps all relations regular if and only if it is not such a block |
| `FriendshipGuarantees.SixOperationsNeverDo` | internal/application/friendship/usecase/block_user_usecase.go:32-59 | Runs of apply, accept, block, unblock, remove and cancel are all of that kind |
| `FriendshipGuarantees.InvitationBlockSplitsFriends` | internal/application/chat/usecase/respond_to_invitation.go:115-120 | Apply, accept and an invitation block leave one blocked and one accepted row between the two |
| `FriendshipGuarantees.BlockEndsIff` | internal/application/friendship/usecase/remove_friendship_usecase.go:37-49 | A block by a on b ends if and only if a unblocks, either of them removes the row, or b blocks a, which replaces it |
| `FriendshipGuarantees.BetweenSameStatus` | internal/infrastructure/persistence/postgres/friendship/friendship_repo.go:119-139 | All rows between two users have the same status, so it does not matter which one FindBetweenUsers returns |
| `FriendshipGuarantees.SearchMapIff` | internal/application/user/usecase/search_users_usecase.go:108-122 | The map gives another user a status if and only if some row between the two has it |
| `FriendshipGuarantees.SearchMapIgnoresOrder` | internal/application/user/usecase/search_users_usecase.go:108-122 | The map is the same for every order of the rows |
| `FriendshipGuarantees.AcceptAbortsIff` | internal/application/friendship/usecase/accept_friendship_usecase.go:79-85 | In every run, invitation blocks included, accepting an existing row meets a unique violation if and only if the row is the accepter's own pending request to itself |
| `FriendshipGuarantees.AcceptingOneselfAborts` | internal/application/friendship/usecase/apply_friendship_usecase.go:32-55 | A user can apply to itself, and accepting that request aborts |
| `FriendshipGuarantees.InvitationBlockRegularIff` | internal/application/chat/usecase/respond_to_invitation.go:112-124 | An invitation block keeps the relation regular if and only if the two are not friends |
| `FriendshipGuarantees.InvitationBlockBlocksIff` | internal/application/chat/usecase/respond_to_invitation.go:112-124 | It makes the invitee the blocker if and only if there was no row or the row was the invitee's own request or block |
| `FriendshipGuarantees.ApplyEffect` | internal/application/friendship/usecase/apply_friendship_usecase.go:32-55 | Apply succeeds if and only if neither direction has a row, and then only the applicant's direction becomes pending |
| `FriendshipGuarantees.AcceptEffect` | internal/application/friendship/usecase/accept_friendship_usecase.go:58-98 | Accept succeeds exactly for the addressee of a pending row without a reverse row, and then both directions are accepted |
| `FriendshipGuarantees.BlockEffect` | internal/application/friendship/usecase/block_user_usecase.go:32-61 | Block succeeds unless already blocked by the actor; then the actor's direction is blocked and the other one empty, and after a block of oneself there is no row at all |
| `FriendshipGuarantees.UnblockEffect` | internal/application/friendship/usecase/unblock_user_usecase.go:24-44 | Unblock removes the actor's own block and nothing else |
| `FriendshipGuarantees.RemoveEffect` | internal/application/friendship/usecase/remove_friendship_usecase.go:29-51 | Remove is open to both users of the row and empties both directions |
| `FriendshipGuarantees.CancelEffect` | internal/application/friendship/usecase/cancel_sent_request_usecase.go:23-48 | Cancel removes the actor's own pending row and nothing else |
| `FriendshipGuarantees.AnswersExactly` | internal/application/friendship/usecase/accept_friendship_usecase.go:58-77 | Each operation answers with the error of the first check that fails, ErrNotFound for an unknown row included; a failing one changes nothing, and a successful one of the six always changes the table |
| `Friendships.FriendshipService.Apply` | internal/application/friendship/usecase/apply_friendship_usecase.go:25-56 | A pending row from the caller, unless either direction has a row; then the existing-friendship error and no change |
| `Friendships.FriendshipService.Accept` | internal/application/friendship/usecase/accept_friendship_usecase.go:58-100 | Only the addressee of a pending row succeeds: that row and a new reverse row end accepted; a reverse row that is already there leaves everything as it was |
| `Friendships.FriendshipService.Block` | internal/application/friendship/usecase/block_user_usecase.go:25-62 | The caller's row ends blocked, created if need be, and the other user's row is gone, which for oneself is the same row; a second block is refused without a change |
| `Friendships.FriendshipService.Unblock` | internal/application/friendship/usecase/unblock_user_usecase.go:24-44 | The caller's blocked row is deleted; without one, an error and no change |
| `Friendships.FriendshipService.Remove` | internal/application/friendship/usecase/remove_friendship_usecase.go:23-52 | Either user of the row deletes it and its reverse; others are refused without a change |
| `Friendships.FriendshipService.Cancel` | internal/application/friendship/usecase/cancel_sent_request_usecase.go:23-48 | The sender of a pending row deletes it; anyone else or any other status is refused without a change |
| `Friendships.FriendshipService.BlockInviter` | internal/application/chat/usecase/respond_to_invitation.go:112-124 | Blocks the row that was found, or creates a blocked one |
| `Friendships.FriendshipService.BuildFriendshipMap` | internal/application/user/usecase/search_users_usecase.go:108-122 | The loop fills the map; a later row overwrites an earlier one |
| `Friendships.FriendshipService.FindByUserIDAndFriendID` | internal/infrastructure/persistence/postgres/friendship/friendship_repo.go:100-117 | The one row of that direction, or none |
| `Friendships.FriendshipService.CreateWithStatus` | internal/infrastructure/persistence/postgres/friendship/friendship_repo.go:68-79 | A new row, or a unique violation and no change |
| `Friendships.FriendshipService.UpdateStatus` | internal/infrastructure/persistence/postgres/friendship/friendship_repo.go:225-237 | Changes the status of one row |
| `Friendships.FriendshipService.Delete` | internal/infrastructure/persistence/postgres/friendship/friendship_repo.go:213-223 | Removes one row |
| `RoomGuarantees.RoomsNeverOverfull` | dev-doc/sql/postgres_chat.sql:68-101 | In every run, with restoring upserts and soft deletes, no room with a positive limit has more active non-system members than the limit |
| `RoomGuarantees.ResolvedForever` | internal/application/chat/usecase/respond_to_invitation.go:79-81 | An invitation that is no longer pending never changes again |
| `RoomGuarantees.InvitesStep` | internal/application/chat/usecase/respond_to_invitation.go:79-153 | An existing invitation changes only from pending, by its invitee or, for a join request, by an owner or admin; acceptance makes the invitee an active member; a new join request comes from a participant with nothing pending for the room |
| `RoomGuarantees.OneRequestPerRoom` | internal/application/chat/usecase/join_chat_room.go:111-117 | In every run a participant has at most one pending join request per room |
| `RoomGuarantees.MembershipIsJustified` | internal/application/chat/usecase/create_chat_room.go:167-205 | Over every run of the use cases an accepted invitation's invitee is an active member, and every active member created the room, is one of the two friends it was made for, is an agent or system participant, or has an accepted invitation |
| `RoomGuarantees.MembersStay` | internal/infrastructure/persistence/postgres/chat/chat_member_repo.go:95-111 | No use case ends a membership or changes a role |
| `RoomGuarantees.LimitIsFixed` | dev-doc/sql/postgres_chat.sql:75-79 | No step changes a room's limit |
| `RoomGuarantees.CountedAfterAdd` | dev-doc/sql/postgres_chat.sql:81-87 | An insert or restore adds at most the one participant to the counted members, and none if it is a system one |
| `RoomOutcomes.AddOutcome` | dev-doc/sql/postgres_chat.sql:68-101 | An insert succeeds if and only if room and participant exist and the room has no positive limit or fewer undeleted non-system members than it; then exactly that row is written, a restored one with its old role |
| `RoomOutcomes.RespondOutcome` | internal/application/chat/usecase/respond_to_invitation.go:53-170 | For the invitee of a pending invitation: accept admits it as a regular member and marks the invitation accepted, or changes nothing if it is a member already or there is no place; reject and block only set the status; any other action changes nothing |
| `RoomOutcomes.RespondRefused` | internal/application/chat/usecase/respond_to_invitation.go:57-97 | Every other answer to an invitation fails with the error of the first check that does not hold and changes nothing |
| `RoomOutcomes.ApproveOutcome` | internal/application/chat/usecase/approve_join_request.go:96-142 | For an owner or admin and a pending join request: approving admits the asker as a regular member and marks the request accepted, not approving only rejects it |
| `RoomOutcomes.ApproveRefused` | internal/application/chat/usecase/approve_join_request.go:62-94 | Every other answer to a join request fails with the error of the first check that does not hold and changes nothing |
| `RoomOutcomes.JoinOutcome` | internal/application/chat/usecase/join_chat_room.go:90-140 | A user outside the room with nothing pending there gets one pending join request; an agent or system participant becomes a regular member if there is a place |
| `RoomOutcomes.JoinRefused` | internal/application/chat/usecase/join_chat_room.go:64-88 | An unknown room, an unknown caller and a member are refused without a change |
| `RoomOutcomes.CreateOutcome` | internal/application/chat/usecase/create_chat_room.go:65-219 | Creating a room stops with the first check that fails, or the room the pair already shares, and changes nothing; otherwise it adds the room, its caller as owner, and one pending invitation for each listed participant, in list order |
| `RoomOutcomes.InvitedInOrder` | internal/application/chat/usecase/create_chat_room.go:187-205 | The loop adds exactly one pending invitation for each listed participant, with consecutive ids in list order |
| `RoomOutcomes.FriendRoomOutcome` | internal/application/friendship/usecase/accept_friendship_usecase.go:100-135 | New friends get a direct room for two with both as regular members, unless one is no participant or they share a direct room, and then nothing changes |
| `RoomOutcomes.SharedIff` | internal/application/friendship/usecase/accept_friendship_usecase.go:114-115 | The lookup finds a room if and only if some direct room has both as undeleted members |
| `Rooms.ChatStore.AddMember` | internal/infrastructure/persistence/postgres/chat/chat_member_repo.go:94-111 | Raises for a full room, also when the row exists; otherwise inserts, or restores the row and keeps its role |
| `Rooms.ChatStore.SoftDelete` | internal/infrastructure/persistence/postgres/chat/chat_member_repo.go:130-141 | Marks the member row deleted and changes nothing else |
| `Rooms.ChatStore.CreateInvite` | internal/infrastructure/persistence/postgres/chat/chat_invitation_repo.go:48-64 | A new row with the next id |
| `Rooms.ChatStore.UpdateStatus` | internal/infrastructure/persistence/postgres/chat/chat_invitation_repo.go:160-171 | Changes one invitation's status; an unknown id changes nothing |
| `Rooms.ChatStore.CreateRoom` | internal/application/chat/usecase/create_chat_room.go:65-219 | Room, owner and one invitation per listed user, the existing direct room for a pair that has one, or nothing at all with the error of the first step that fails |
| `Rooms.ChatStore.Join` | internal/application/chat/usecase/join_chat_room.go:52-140 | Agents and system participants are added; users get a pending join request unless they are members or have anything pending |
| `Rooms.ChatStore.Respond` | internal/application/chat/usecase/respond_to_invitation.go:53-170 | Only the invitee of a pending invitation may answer; accepting adds the member and resolves it, or changes nothing; a block also names the inviter to be blocked |
| `Rooms.ChatStore.Approve` | internal/application/chat/usecase/approve_join_request.go:49-142 | Only an owner or admin of the room may answer a pending join request |
| `Rooms.ChatStore.Admit` | internal/application/chat/usecase/respond_to_invitation.go:138-155 | Adds the invitee and marks the invitation accepted, or changes nothing |
| `Rooms.ChatStore.MakeFriendRoom` | internal/application/friendship/usecase/accept_friendship_usecase.go:100-135 | A room for two with both friends as members, unless one is no participant or they share a direct room |
| `Rooms.ChatStore.FindDirectByParticipants` | internal/application/friendship/usecase/accept_friendship_usecase.go:114-115 | Finds a room if and only if some direct room has both as active members |

## Left out

- HTTP handlers, DTOs, error translation, middleware, Swagger, bootstrap, WebSocket reading, writing and pinging, e-mail, files, images and the language-model client: plumbing and I/O.
- Hashing, signatures, UUIDs, base64 and JSON: foreign code; only injectivity and freshness are used.
- The lookups from the calling user to a participant and a member row: their answer is a parameter, and a missing row is refused as the code does.
- Errors of Redis and PostgreSQL, and `last_used_at`, `joined_at`, `updated_at`, `distributed_at` and `created_at` where nothing depends on them.
- One-time and signed prekeys, message bundles, profiles, devices, registration, JWT: thin, or not fixed by the code.
- `FindByToken`'s background write as a step of its own, and finer interleavings of two session operations.
- Delivery: failures of `MarkDelivered` and of a scan. A message sent by a push reaches the hub as a `SendToUser` step there; the two models are not joined.
- Hub: steps finer than a case of the loop. The channel is closed before the index is updated (`internal/interface/ws/hub.go:65-71`), and `SendToUser` iterates over a slice that shares its array with the index, so the results do not hold at that grain.
- Hub.Hub.Register: does not start the optional `onConnect` hook, which is given the user and touches neither the client set nor the index.
- Paging: the initial page (`before_id` 0) is part of `GetMessages` but not of the walk; it orders by `created_at` and counts deleted rows. The other queries are left out.
- Paging.ChatMessageRepository.FindByRoom: takes the database's answer as a parameter, because ties in `created_at` may come in any order; the offset is 0, as its one caller passes it.
- Rate limits: concurrent `CheckIP` calls (the check and the increment are two commands), `Reset`, and windows that are not whole seconds.
- Friendships: `FindBetweenUsers` is modelled by what it may return; listings of friends and requests, and concurrent use cases, are left out.
- Rooms: names, descriptions and room deletion are left out. The invited users are given as a list of participants, with `None` for a user without one.
- Rooms.ChatStore.CreateRoom: takes the friendship lookup of a direct room with one invited user as a parameter, because friendships are a model of their own.
- Rooms.ChatStore.Respond: names the inviter that a block answer blocks as a friend; what that does to the friendship rows is in `Friendships` (`BlockInviter`), and the two models are not joined.
- SenderKeys.E2eeStore.UploadSenderKey: the key bytes are not stored, because no result depends on them; the background notification is an event of `SenderKeyRuns`.
- SenderKeys.E2eeStore.Status: lists members in table order, while its queries have no ORDER BY; the lemmas about the two lists are about membership only.
- SenderKeys.E2eeStore.GetSenderKeys: an item is its owner's id only, for the same reason.
- RoomGuarantees.MembershipIsJustified: covers runs of the use cases only, because no use case soft-deletes a member; the repository's `SoftDelete` is in `RoomsNeverOverfull`, `ResolvedForever` and `OneRequestPerRoom`.
- Hub.Hub.SendToUser: needs every listed client to be live; a send on a closed Go channel panics, and `IndexedAreLive` shows that it never happens at this grain.
- DeliveryGuarantees.AckBeforeTimeoutDelivers: counts a push that has registered as parked in its `select`, so a stall of the whole timeout in front of the `select` is not covered.
