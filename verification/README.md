# Realtime gateway and client text: a verified model

The project models the distributed core of a team chat and a few of its client's
text algorithms, and proves what they are there to guarantee.

- **Huddles** (`HuddleRoom`, `HuddleLaws`, `HuddleNode`, `HuddleRuns`, `HuddleFrames`,
  `HuddleBounds`, `HuddleLapse`). The member set and the transport key in Redis with their deadlines,
  the join script, the unchecked refresh of the heartbeat, and one gateway's
  connections. The cap holds because whoever is subscribed is a member, which every
  step keeps.
- **App deliveries** (`AppDelivery`, `AppSockets`). One table of envelopes claimed under
  a lease by any number of gateways. A claim's snapshot and its update are two steps, so
  other gateways, acknowledgements and the expiry sweep run in between. Beside it the
  in-memory sockets with their rotation and bounded queues.
- **Connections, events and replay** (`Registry`, `Routing`, `RegistryRuns`,
  `EventReach`, `StreamId`, `Replay`, `ReplayLog`, `ReplayQueue`). Two maps kept in step
  by hand, queues of 256, one routing table for live delivery and replay, and a log that
  is trimmed, by length and by age, around the probe and the read.
- **Flood guard and revocation** (`TokenBucket`, `Revocation`). The bucket over exact
  time; one overwriting revocation record per user with a time to live.
- **Text** (`TextSearch`, `QueryWords`, `Fold`, `Keywords`, `KeywordEditor`,
  `Mention`, `Highlight`, `HighlightExact`, `HighlightShown`, `StableSort`, `Csv`,
  `Escape`) and the **message cache** (`MessageCache`, `ReplyLedger`).

State that the program changes in place is a class here, and each of its methods is
proved equal to a function of the old state; what matters is then proved of those
functions, step by step in the caller's terms and over whole runs.

## What the model brings out

- A huddle limit of zero (`HUDDLE_SFU_MAX_PARTICIPANTS=0`) makes the refusal code `-0`,
  which is read as an acceptance: cap and roster hold if and only if the limit is at
  least one.
- A member set that lapses lets the heartbeat re-add users one by one without a check:
  then no cap holds at all, and nobody is told of the departures.
- In-order delivery to apps depends on rows becoming visible in the order of their
  numbers, and the three-second spacing on the expiry sweep not overtaking a slow claim.
  Over any run each condition is exact, and runs that break each are given.
- A replay cursor without its sequence part passes the age probe unread, and an empty
  log is taken to have lost nothing, so `Caught` can be answered over a gap. With only
  appends between probe and read such unread cursors are the one gap an occupied log
  leaves; with the trimmer by age at work no cursor is safe. The comment at
  `backend/realtime/src/replay.rs:97` promises otherwise. A replay whose frames do not
  fit the queue drops the connection and still answers `Caught`.
- Three event types act beyond the audience they are handled for; none of them is in the
  log.
- A revocation record must outlive the token's life plus the leeway with which tokens
  are still accepted after they expire. The code adds no leeway to the larger of the two
  configured lifetimes.
- A keyword of combining marks alone is accepted, folds to nothing, and is then looked
  for without end in every message shown.
- An empty keyword match claimed where a longer highlight begins makes the span loop go
  back over text it has already shown. It takes a character that folds to more units
  than a keyword has, such as one of two units with half of it as the keyword.
- A table without rows, or a row without cells, prints as one empty cell. An empty reply
  id is never forgotten by the ledger, which then grows without bound. A patch may give
  a message an id already on another page.

## Model

| member | source | states |
|---|---|---|
| `HuddleLaws.JoinAnswer` | backend/realtime/src/connection_manager.rs:879-936 | A newcomer is refused, with the limit named, exactly where as many are there as the transport in force admits, and then nothing changes; otherwise the user is a member, both keys live two minutes more, the arrival is published, and the huddle is on the SFU if it was or there are now more than the threshold, a promotion being announced exactly then. |
| `HuddleLaws.RefusalIsReportedIff` | backend/realtime/src/connection_manager.rs:907-930 | A refusal by the script reaches the caller as a refusal if and only if the limit in force is not zero: the code `-0` reads as an acceptance. |
| `HuddleLaws.JoinKeepsCap` | backend/realtime/src/connection_manager.rs:869-936 | One join keeps the cap of the transport it leaves the huddle on. |
| `HuddleLaws.JoinKeepsFaith` | backend/realtime/src/ws_handler.rs:463-470 | A join keeps the roster folded from the published events equal to the member set. |
| `HuddleLaws.LeaveKeeps` | backend/realtime/src/connection_manager.rs:938-949 | A leave takes out its user alone, publishes a departure exactly for a member, and keeps cap and roster. |
| `HuddleLaws.RefreshKeeps` | backend/realtime/src/connection_manager.rs:869-877 | The heartbeat adds without checking; for a user who is a member it changes no membership and keeps cap and roster. |
| `HuddleLaws.TransportOutlivesKept` | backend/realtime/src/connection_manager.rs:869-949 | No command leaves the transport key a deadline earlier than the member set's. |
| `HuddleLaws.SpreadRefresh` | backend/realtime/src/connection_manager.rs:869-877 | Issued at one instant the three commands of a refresh are the model's refresh; spread over time they keep a promoted huddle on the SFU exactly when its transport key lives to see the last of them, and their user in it exactly when the member set, if occupied, lives to see the second and the third comes within two minutes. |
| `HuddleLaws.DeparturesAlternate` | backend/realtime/src/ws_handler.rs:492-505 | In any log whose departures are of users on the roster, two departures of one user have that user's arrival between them. |
| `HuddleNode.Gateway.HuddleJoin` | backend/realtime/src/ws_handler.rs:441-490 | The handler of `huddle.join` performs the join step on subscriptions, keys and published events, and answers what the script decided. |
| `HuddleNode.Gateway.HuddleLeave` | backend/realtime/src/ws_handler.rs:492-507 | The handler of `huddle.leave` performs the leave step of the model, on subscriptions, member set and published events; what that step does is `LeavingFrees` and `LeavingTouches`. |
| `HuddleNode.Gateway.Disconnect` | backend/realtime/src/ws_handler.rs:243-263 | Cleanup performs, in a loop over the connection's huddles in any order, the cleanup step of the model; what that step does is `LeavingFrees` and `LeavingTouches`. |
| `HuddleFrames.LeavingFrees` | backend/realtime/src/ws_handler.rs:492-507 | After a leave or a cleanup, in each huddle it concerns: if another connection still holds it for the user the room is unchanged; if not, the user is not live there, everybody else is as before, and the log has gained exactly their departure if they were live. |
| `HuddleFrames.LeavingTouches` | backend/realtime/src/ws_handler.rs:243-263 | A leave touches one subscription of one connection, a cleanup takes the connection away; all other connections and rooms stay. |
| `HuddleFrames.JoiningTouches` | backend/realtime/src/ws_handler.rs:441-490 | A join that is not allowed changes nothing, a refused one subscribes nobody, an accepted one adds the huddle to the one connection; other rooms stay. |
| `HuddleFrames.ConnectionsCome` | backend/realtime/src/connection_manager.rs:204-243 | A new connection is in no huddle; a dropped one is gone and no room changes. |
| `HuddleFrames.HeartbeatHolds` | backend/realtime/src/connection_manager.rs:869-877 | A heartbeat puts its user into each huddle of its connection for two minutes from then, keeps the transport key if it is live, publishes nothing, and changes no other room. |
| `HuddleFrames.MembersAreHeld` | backend/realtime/src/ws_handler.rs:243-263 | After every run without a lapse a member of a huddle has a connection subscribed to it, unless one of theirs was dropped while subscribed or they joined on one already gone. |
| `HuddleNode.Gateway.RefreshConn` | backend/realtime/src/connection_manager.rs:972-976 | The heartbeat loop refreshes exactly the huddles the connection is subscribed to. |
| `HuddleRuns.StepKeepsInv` | backend/realtime/src/ws_handler.rs:243-507 | Every step of a gateway keeps: whoever is subscribed is a member, the cap, the roster, and the transport key outliving the members. |
| `HuddleRuns.CapOverRuns` | backend/realtime/src/connection_manager.rs:879-936 | After every run of connects, joins, rejoins, leaves, heartbeats, drops and cleanups in which no occupied set lapses, a huddle never holds more than its cap: 8 without an SFU; with one, the threshold while on mesh and the larger of the SFU limit and threshold + 1 once promoted. |
| `HuddleRuns.RosterOverRuns` | backend/realtime/src/ws_handler.rs:452-505 | After every such run the roster folded from the published events is the member set, and departures of one user alternate with arrivals. |
| `HuddleRuns.TransportOutlivesOverRuns` | backend/realtime/src/connection_manager.rs:869-936 | After every run, whatever lapses, the transport key's deadline is never earlier than the member set's. |
| `HuddleRuns.NoFallbackWhileOccupied` | backend/realtime/src/connection_manager.rs:869-936 | Once promoted, a huddle with live members at every step stays on the SFU and announces no second promotion. |
| `HuddleRuns.PromotionNeedsNoKey` | backend/realtime/src/connection_manager.rs:907-936 | A step announces a promotion only where there is no transport key, and leaves one. |
| `HuddleRuns.AnnouncedOncePerKey` | backend/realtime/src/connection_manager.rs:907-936 | Over any run, as from one right after an announcement, another is made only if the key was gone at some step: at most one announcement in the life of a key. |
| `HuddleLapse.LapseOverfills` | backend/realtime/src/connection_manager.rs:869-877 | With lapses possible no bound holds, whatever the configuration: for every number some legal run leaves a huddle with as many members. |
| `HuddleLapse.LapseKeepsRoster` | backend/realtime/src/connection_manager.rs:938-949 | A lapse publishes no departure: for every number some legal run leaves the set empty and as many users on the roster. |
| `HuddleBounds.CapIsReached` | backend/realtime/src/connection_manager.rs:879-936 | Every member count up to the cap is reached by a legal run, on the transport the threshold says, so no smaller bound holds. |
| `HuddleBounds.CapHoldsIff` | backend/realtime/src/config.rs:47-63 | The cap holds over every such run if and only if the configured SFU limit is at least one. |
| `HuddleBounds.RosterHoldsIff` | backend/realtime/src/config.rs:47-63 | So does the equality of roster and member set. |
| `AppDelivery.InsertKeepsOrderIff` | backend/api/src/app_events/repo.rs:66-80 | An insert keeps every group's claims in order, those under way included, if and only if no pending row of its group with a higher number has been started yet. |
| `AppDelivery.LateInsertBreaksOrder` | backend/api/src/app_events/repo.rs:66-80 | Otherwise a row behind the head of its group has been claimed, at once or when the claim under way is done. |
| `AppDelivery.LateInsertArises` | backend/realtime/src/app_socket.rs:168-192 | A legal run leads there. |
| `AppDelivery.ClaimedAtHeadOnly` | backend/realtime/src/app_socket.rs:168-192 | A claim takes a pending row only when every row before it in its group is delivered or failed, however old the snapshot it works from. |
| `AppDelivery.OneLiveLease` | backend/realtime/src/app_socket.rs:168-192 | Two pending rows of one group are never both out on a lease. |
| `AppDelivery.StepKeepsFifo` | backend/realtime/src/app_socket.rs:143-219 | Every step of any gateway, acknowledgement or sweep keeps the order, inserts being in order. |
| `AppDelivery.SweepKeepsSpacingIff` | backend/api/src/app_events/repo.rs:152-161 | The expiry sweep leaves every envelope's claims more than three seconds apart, with any claim under way done, if and only if it overtakes no claim begun within the row's last lease. |
| `AppDelivery.OvertakenClaimBreaksSpacing` | backend/api/src/app_events/repo.rs:152-161 | A claim it overtakes takes the row again within three seconds of the last time. |
| `AppDelivery.OvertakenClaimArises` | backend/realtime/src/app_socket.rs:168-192 | A legal run leads there: two gateways claim one envelope at once, and the sweep comes between their updates. |
| `AppDelivery.OrderOverRunsIff` | backend/realtime/src/app_socket.rs:168-192 | In any run the claims stay in order at every moment if and only if the inserts are in order. |
| `AppDelivery.SpacingOverRunsIff` | backend/realtime/src/app_socket.rs:143-192 | In any run the claims stay spaced at every moment if and only if no sweep overtakes one. |
| `AppDelivery.StepKeepsRetry` | backend/realtime/src/app_socket.rs:143-192 | Every other step keeps it unconditionally. |
| `AppDelivery.DeliveryOrder` | backend/realtime/src/app_socket.rs:168-192 | Over every run with any number of gateways: a pending row that is not the head of its group has never been claimed, and at most one pending row of a group is leased. |
| `AppDelivery.AttemptsBounded` | backend/realtime/src/app_socket.rs:15-192 | Over every run: the claims of an envelope lie more than three seconds apart, within its life, are as many as its attempts, and number n only if 3 (n - 1) is less than its time to live. |
| `AppDelivery.AcknowledgedIsFinal` | backend/realtime/src/app_socket.rs:143-151 | Whatever follows, an acknowledged envelope is neither claimed nor changed again. |
| `AppDelivery.AckSettles` | backend/realtime/src/app_socket.rs:143-160 | An acknowledgement settles its envelope exactly when it comes from the envelope's app, and touches no other row. |
| `AppDelivery.GroupMoves` | backend/realtime/src/app_socket.rs:168-192 | No group with a pending row is stuck: its head is out on a lease, or a gateway with a socket of its app may claim it, or the expiry sweep settles it. |
| `AppDelivery.PickedIff` | backend/realtime/src/app_socket.rs:168-184 | A gateway can pick a row exactly if it is the oldest of its app and channel still unsettled, its app has a socket here and is in socket mode, it has not expired and is on no lease. |
| `AppDelivery.PicksIff` | backend/realtime/src/app_socket.rs:168-184 | A claim picks at most a hundred rows, each of which it could pick alone, and none while one is under way. |
| `AppDelivery.ClaimLeases` | backend/realtime/src/app_socket.rs:185-192 | The update leases for three seconds from the snapshot exactly the rows picked that are undelivered and on no lease reaching past it, and counts one attempt more; other rows stay. |
| `AppDelivery.InsertedIs` | backend/api/src/app_events/repo.rs:66-80 | A new envelope is undelivered and unclaimed and expires after its time to live; other rows stay. |
| `AppDelivery.SweepFails` | backend/api/src/app_events/repo.rs:152-161 | A sweep fails exactly the undelivered envelopes that have expired and are on no lease, and those that failed before stay failed. |
| `AppDelivery.FailedHaveExpired` | backend/api/src/app_events/repo.rs:152-161 | After every run an envelope that failed has expired. |
| `AppSockets.SendReaches` | backend/realtime/src/app_socket.rs:127-141 | A frame is queued if and only if some socket of the app is open with fewer than 256 frames: at the end of the first such socket's queue from the start of the rotation, and nowhere else; the rotation moves on by one whenever the app has a socket. |
| `AppSockets.RotationIsFair` | backend/realtime/src/app_socket.rs:134-140 | While all sockets have room, successive frames land on as many different sockets, in turn. |
| `AppSockets.Sockets.Add` | backend/realtime/src/app_socket.rs:86-94 | The socket joins the end of its app's list; the others stay. |
| `AppSockets.Sockets.Remove` | backend/realtime/src/app_socket.rs:96-111 | Exactly the sockets with that id leave, and an app left with none goes. |
| `AppSockets.Sockets.CheckAlive` | backend/realtime/src/app_socket.rs:221-259 | Exactly the sockets the table still knows stay, in order, and apps left with none go. |
| `AppSockets.Sockets.SendToApp` | backend/realtime/src/app_socket.rs:127-141 | The rotating loop does what the sending function says and answers whether a socket could be reached. |
| `AppSockets.Sockets.DeliverOnce` | backend/realtime/src/app_socket.rs:163-219 | Exactly the envelopes the claim takes are offered, once each. Every app's sockets gain frames of its own envelopes only, at most one for each, at the ends of their queues and numbered by the attempts before the claim; all of them where one socket has room for all; and nothing where none of its envelopes was taken. |
| `AppSockets.SendAllSpreads` | backend/realtime/src/app_socket.rs:206-214 | So it is for any batch of rows whose attempts a claim has just counted. |
| `AppSockets.WhereSplits` | backend/realtime/src/app_socket.rs:96-111 | What is kept of a list of sockets keeps its order. |
| `AppSockets.Deliveries.Take` | backend/realtime/src/app_socket.rs:185-192 | The update leases exactly the picked rows still undelivered and free. |
| `Registry.AddKeepsIndexIff` | backend/realtime/src/connection_manager.rs:204-226 | Adding a connection leaves the user index right if and only if its id is new or was the same user's. |
| `Registry.ConnectionManager.AddConnection` | backend/realtime/src/connection_manager.rs:204-226 | The new connection is there with nothing subscribed; "first" is answered exactly when the user had none. |
| `Registry.ConnectionManager.RemoveConnection` | backend/realtime/src/connection_manager.rs:228-243 | The connection is gone from both maps; the owner is answered, and "last" exactly when they have none left. |
| `Registry.ConnectionManager.Enqueue` | backend/realtime/src/connection_manager.rs:324-348 | The message is appended to a queue with room, up to 256; otherwise nothing is queued and the owner is answered. |
| `Registry.ConnectionManager.FanOutTo` | backend/realtime/src/connection_manager.rs:361-381 | Every connection of the audience that matches has the message at the end of its queue if it is open with fewer than 256 there, and is gone if not; no other changes; the index still agrees. |
| `Registry.ConnectionManager.SendToUser` | backend/realtime/src/connection_manager.rs:410-420 | Going by the index reaches exactly the user's connections in the audience. |
| `Registry.ConnectionManager.ChangeForUser` | backend/realtime/src/connection_manager.rs:281-303 | The loop over the index changes every connection of the user and no other. |
| `Registry.ConnectionManager.JoinChannels` | backend/realtime/src/ws_handler.rs:375-403 | Exactly the channels the membership check allowed are added to that one connection. |
| `Routing.HandleEventFor` | backend/realtime/src/event_consumer.rs:124-530 | Handling an event performs its plan: the same sends and subscription changes in the same order, for any audience; what that comes to for each connection is `EventReaches`, `EventPassesBy`, `PresenceReaches` and `EndOfSessionReaches`. |
| `EventReach.EventReaches` | backend/realtime/src/event_consumer.rs:124-530 | Event by event, for every type but the three that reach beyond their audience: a connection in the audience is queued exactly the frames that are for it, by its own subscriptions and user, in order, keeps its subscriptions but one to a place its user was removed from, and is gone if its queue does not take them all. |
| `EventReach.EventPassesBy` | backend/realtime/src/event_consumer.rs:124-530 | A connection outside the audience is queued nothing by such an event, and loses only the subscription a removal takes from its user. |
| `EventReach.PresenceReaches` | backend/realtime/src/event_consumer.rs:277-297 | A presence change reaches exactly the connections subscribed to one of the workspaces listed, whoever the audience is. |
| `EventReach.EndOfSessionReaches` | backend/realtime/src/event_consumer.rs:512-525 | A suspension queues the close frame 4001 on every connection of the user that has room, a revocation on all but those of the spared session; every other connection stays as it is. |
| `Routing.RespectsIff` | backend/realtime/src/event_consumer.rs:277-525 | Handled for one connection, an event leaves every other queue alone, whatever the registry and the payload, unless it is one of exactly three types: presence.changed, user.suspended and session.revoked. |
| `Routing.ReplayRefinesLive` | backend/realtime/src/event_consumer.rs:121-130 | For every event, handling it for one connection leaves that connection as handling it for everyone would, overflow part-way included; for every event the log carries no other queue changes. |
| `RegistryRuns.RunAll` | backend/realtime/src/connection_manager.rs:204-420 | Over every run of adds, removes, joins, events, replies, drains and hang-ups the two maps agree and no queue exceeds 256. |
| `RegistryRuns.RemovalSilencesChannel` | backend/realtime/src/event_consumer.rs:449-459 | From the moment a removal from a channel is processed, no connection of that user is queued a frame routed by that channel, live or replayed, until a join the membership check allowed on that connection. |
| `RegistryRuns.RemovalSilencesWorkspace` | backend/realtime/src/event_consumer.rs:460-474 | From the moment a removal from a workspace is processed, no connection of that user holds the workspace or is queued a frame routed by it, until that very connection subscribes to it again. |
| `RegistryRuns.ReplyReaches` | backend/realtime/src/connection_manager.rs:361-420 | A message of the gateway's own is queued on exactly the connections of the audience in the workspace or huddle it is for, on those of the one user, of those who share a workspace, on the one connection, or on all. |
| `StreamId.FormatReadsBack` | backend/realtime/src/replay.rs:37-42 | Every 64-bit stream id reads back as itself. |
| `StreamId.SignedReadsBack` | backend/realtime/src/replay.rs:37-42 | A plus sign before either number is read past. |
| `StreamId.ParsedFits` | backend/realtime/src/replay.rs:37-42 | Whatever is read as an id has a dash and two numbers of 64 bits. |
| `StreamId.OlderIsLess` | backend/realtime/src/replay.rs:44-49 | Text ids compare as the pairs of numbers they spell. |
| `Replay.ReplayWorkspace` | backend/realtime/src/replay.rs:88-165 | A refetch is told if and only if a read failed, the store refuses the cursor, the oldest entry's id is above the place the probe reads in the cursor, or more than 1 000 of the entries read have ids above the place, and then nothing is queued; otherwise the count, the last id and the queues are those of the shown entries in order. |
| `Replay.RefetchIff` | backend/realtime/src/replay.rs:97-127 | So it is said of ids as numbers, for every probe, read and cursor. |
| `ReplayLog.ReadIsCompleteIff` | backend/realtime/src/replay.rs:109-127 | The read holds everything appended after the cursor if and only if the newest entry trimmed by then is not after it. |
| `ReplayLog.NothingMissed` | backend/realtime/src/replay.rs:97-127 | With the probe finding the cursor in the log and at most 1 000 entries read, no entry after the cursor was trimmed in between. |
| `ReplayLog.CaughtIsComplete` | backend/realtime/src/replay.rs:88-165 | For a cursor the probe can read: whatever is appended and trimmed by length between probe and read, a replay that answers `Caught` worked through everything appended after the cursor up to the read. |
| `ReplayLog.SafeWhileAppendingIff` | backend/realtime/src/replay.rs:97-127 | Over every log that arises from the empty one, with appends between an occupied probe and the read, and whatever texts the store understands beyond the probe: `Caught` is answered only over a complete backlog if and only if the probe understands the cursor, or the store refuses it, or at most one id can follow it. |
| `ReplayLog.SafeWhileExpiringIff` | backend/api/src/messaging/stream_trim.rs:19-64 | With the trimmer by age at work between an occupied probe and the read, that holds of no cursor but one that is refused and the greatest id there is. |
| `ReplayLog.EveryLogArises` | backend/api/src/messaging/stream_trim.rs:40-51 | Every log, trimmed anywhere, is what some run of appends and cuts by age leaves. |
| `Replay.HandsEveryEventOnce` | backend/realtime/src/replay.rs:129-159 | What is handed over is, in id order and once each, exactly the decodable entries after the cursor that are not rings. |
| `ReplayQueue.ReplayQueues` | backend/realtime/src/replay.rs:129-159 | The asking connection survives a replay if and only if its queue of 256 takes every frame the entries hold for it, and then exactly those are queued, in order; otherwise it is dropped though `Caught` is answered. |
| `ReplayQueue.ReplayEndsAsLive` | backend/realtime/src/event_consumer.rs:121-141 | After a whole replay the connection is as the same events would have left it on the live path, whatever positions the live frames carried, or none: the same messages queued in order, or gone alike. |
| `Replay.NothingTwice` | backend/realtime/src/replay.rs:138-164 | A further replay from the returned position hands over nothing the first one did, whatever the log has become. |
| `Replay.NothingLeft` | backend/realtime/src/replay.rs:138-164 | On the same log a further replay hands over nothing. |
| `Replay.AnswerReadsBack` | backend/realtime/src/replay.rs:161-164 | The id a replay answers reads back as the place it stopped. |
| `ReplayLog.UnreadCursorMisses` | backend/realtime/src/replay.rs:97-115 | Every other cursor passes the probe unread but not the range: on a log that arises, `Caught` is answered although an entry was lost. |
| `ReplayLog.BareMillisMisses` | backend/realtime/src/replay.rs:37-49 | So it is for every bare millisecond, which the probe cannot read for want of a sequence part. |
| `ReplayLog.ExpiryBetweenMisses` | backend/api/src/messaging/stream_trim.rs:40-51 | For every cursor but the greatest id, the probe can find the client's own place and the next entry expire before the read. |
| `ReplayLog.ExpiredLogMisses` | backend/realtime/src/replay.rs:100-107 | For every cursor but the greatest id, an emptied log that arises answers `Caught` with nothing although an entry was lost. |
| `TokenBucket.InboundState.Allow` | backend/realtime/src/ws_handler.rs:49-60 | One decision on the bucket, refilled up to the burst. |
| `TokenBucket.InboundState.AllowAll` | backend/realtime/src/ws_handler.rs:161-177 | The decisions on all frames of a connection are those of the specification. |
| `TokenBucket.LevelIsLeastRoom` | backend/realtime/src/ws_handler.rs:49-60 | The bucket always holds the least room left over all windows ending now, and some window attains it. |
| `TokenBucket.RefusedIff` | backend/realtime/src/ws_handler.rs:49-60 | A frame is refused if and only if accepting it would give some window ending with it more than 40 + 20 d frames. |
| `TokenBucket.RateConformance` | backend/realtime/src/ws_handler.rs:23-24 | In every window of d seconds at most 40 + 20 d frames are accepted. |
| `Revocation.RevocationState` | backend/api/src/middleware.rs:240-267 | The state is unknown exactly when every lookup fails; otherwise the first answer decides: no record is valid, an unreadable one revoked, and a record revokes exactly tokens issued no later than its second but for the session it spares. |
| `Revocation.Sessions.RevokeSessions` | backend/api/src/sessions.rs:28-91 | Refresh tokens go but the one of the session asking to be spared, the event names that session or none, and the record holds the second and the spared session for the larger of the two lifetimes. |
| `Revocation.SparedIsAccepted` | backend/api/src/sessions.rs:58-83 | The session that signs the others out is not rejected afterwards by its own revocation. |
| `Revocation.AllAreRejected` | backend/api/src/sessions.rs:28-73 | With nobody spared, every session issued so far is rejected for either lifetime. |
| `Revocation.SparedOverRuns` | backend/api/src/sessions.rs:28-83 | Over any run of revocations that all spare it, an accepted session stays accepted. |
| `Revocation.TtlSufficesIff` | backend/api/src/sessions.rs:62-73 | A revocation rejects a session for as long as it is owed, whenever it is made, if and only if its time to live exceeds the token's life and leeway together. |
| `Revocation.RevokedStaysRejected` | backend/api/src/sessions.rs:28-73 | A revoked session stays rejected until it expires, over every run of further revocations that overwrite the record, each sparing only a session accepted at that moment. |
| `Revocation.LaterTokenIsValid` | backend/api/src/middleware.rs:160-181 | While the record lives it rejects exactly the tokens issued up to its second, minus the spared session. |
| `Revocation.Sessions.Restore` | backend/api/src/sessions.rs:93-95 | Afterwards no session of the user is rejected. |
| `StableSort.SortKeeps` | frontend/src/lib/mentionHighlight.ts:79-79 | Sorted by key, with the same elements. |
| `StableSort.SortStable` | frontend/src/lib/mentionHighlight.ts:79-79 | Elements of one key keep their order. |
| `TextSearch.ScanCovers` | frontend/src/lib/mentionHighlight.ts:50-60 | Every occurrence is visited by the scan or begins within a step after one that is. |
| `TextSearch.ScanSteps` | frontend/src/lib/mentionHighlight.ts:50-60 | Two places a scan visits are at least a step apart. |
| `TextSearch.IndexOfIsLeast` | frontend/src/lib/mentionHighlight.ts:50-60 | The place found is the least one, from the place asked on, where the needle stands unit by unit. |
| `TextSearch.SearchEndsIff` | frontend/src/lib/keywords.ts:34-41 | Turn by turn, the search loop ends if and only if there is something to look for. |
| `TextSearch.TurnsAreScan` | frontend/src/lib/keywords.ts:34-41 | When it does, its turns visit exactly what the scan lists. |
| `TextSearch.Occurrences` | frontend/src/lib/keywords.ts:34-41 | The places the loop visits in its turns, and an answer of nothing exactly where it never ends. |
| `Fold.OffsetTable` | frontend/src/lib/fold.ts:7-19 | For any per-character fold the offset table is non-decreasing, one longer than the folded text, and ends at the text's length. |
| `Fold.OffsetsTell` | frontend/src/lib/fold.ts:11-16 | The place given for a folded unit starts a character whose fold holds that unit. |
| `Fold.CharStands` | frontend/src/lib/fold.ts:11-16 | The fold of every character, a surrogate pair being one, stands whole in the folded text, and each unit of it has the place of the character. |
| `Fold.FoldWithOffsets` | frontend/src/lib/fold.ts:7-19 | The loop builds the folded text and its offset table. |
| `Fold.FragmentRange` | frontend/src/lib/fold.ts:21-27 | The first occurrence of the fragment, in the original text, if and only if there is one and the fragment is not empty. |
| `Fold.MergeRanges` | frontend/src/lib/fold.ts:44-50 | Merging in place keeps exactly the covered positions and leaves gaps between the ranges. |
| `Fold.FoundProper` | frontend/src/lib/fold.ts:37-43 | The found ranges cover exactly the positions under a visited match of some word. |
| `Fold.WordRanges` | frontend/src/lib/fold.ts:29-52 | The ranges are sorted, apart and in bounds; in folded coordinates they cover exactly the matches of the words of the query, and each end is mapped back through the offset table. |
| `QueryWords.WordsOfIff` | frontend/src/lib/fold.ts:30-35 | The words searched for are exactly the stretches between spaces, less the quotes, parentheses and punctuation listed for either end, that leave two units or more, and none twice. |
| `Keywords.HangsIff` | frontend/src/lib/keywords.ts:33-42 | The keyword search hangs, on every text alike, if and only if some folded keyword is empty. |
| `Keywords.KeywordRanges` | frontend/src/lib/keywords.ts:28-44 | The loop finds exactly the specified ranges, and an answer of nothing exactly where it hangs. |
| `KeywordEditor.StoredHangsIff` | frontend/src/stores/keywords.ts:9-12 | With the keywords the store hands on, it hangs if and only if a listed keyword folds to nothing. |
| `KeywordEditor.StoredInOrder` | frontend/src/stores/keywords.ts:9-12 | The store hands on the folds of all listed keywords, the longer before the shorter. |
| `KeywordEditor.AcceptedIff` | frontend/src/lib/keywords.ts:17-26 | On a list the editor keeps, at most fifty keywords of two to 64 characters, no two folding alike and none beginning as a mention or channel does, what is typed is accepted exactly if with it the list is one again. |
| `KeywordEditor.AcceptedKeywordHangs` | frontend/src/lib/keywords.ts:17-26 | Two combining accents pass the editor as a keyword of two characters, fold to nothing, and hang the highlighter on every text. |
| `Keywords.KeywordMatchesAre` | frontend/src/lib/keywords.ts:33-42 | The ranges are exactly the places where a keyword stands as a whole word of the folded text, overlapping ones included. |
| `Keywords.KeywordMatchesFit` | frontend/src/lib/keywords.ts:28-44 | What is found lies within the text, whatever folding does. |
| `Mention.EveryCandidateCounts` | frontend/src/lib/mentionHighlight.ts:42-46 | Every candidate is claimed, or overlaps a claim made before its turn. |
| `Mention.ClaimedApart` | frontend/src/lib/mentionHighlight.ts:39-46 | Claims never overlap and are all candidates. |
| `Mention.CandidatesAre` | frontend/src/lib/mentionHighlight.ts:50-71 | The candidates are exactly the visited occurrences with the boundaries they need. |
| `Mention.VisitedAre` | frontend/src/lib/mentionHighlight.ts:50-60 | The visited occurrences of a needle do not overlap, and any other begins inside one of them. |
| `Mention.LongerMentionWins` | frontend/src/lib/mentionHighlight.ts:48-61 | A mention turned away gave way to an earlier mention that is highlighted and at least as long. |
| `Mention.SpansPartitionIff` | frontend/src/lib/mentionHighlight.ts:80-88 | The spans put together are the text if and only if no claim begins before the one sorted ahead of it ends; the highlighted spans are the claims. |
| `Mention.SortChainedIff` | frontend/src/lib/mentionHighlight.ts:79-79 | Claims that do not overlap end up one after another if and only if no empty claim was made where a longer one already began. |
| `Highlight.ClaimsFit` | frontend/src/lib/mentionHighlight.ts:39-75 | Every claim lies within the text, claims do not overlap, and only a keyword match can be empty. |
| `Highlight.HighlightPartitionsIff` | frontend/src/lib/mentionHighlight.ts:29-89 | No folded keyword being empty, the span texts concatenate to the input if and only if no empty keyword match was claimed where a longer claim already began; the highlighted spans are always the claims in order. |
| `Highlight.HighlightPartitions` | frontend/src/lib/mentionHighlight.ts:29-89 | They do, whoever is mentioned, whenever no character of the text folds to more units than a keyword has. |
| `Highlight.AcceptedKeywordsStumble` | frontend/src/lib/mentionHighlight.ts:80-88 | Two keywords the editor accepts for which the spans say a text twice: a character of two units and half of it, each with a combining accent that folding drops. |
| `HighlightExact.AlwaysPartitionsIff` | frontend/src/lib/mentionHighlight.ts:29-89 | No keyword match being empty where an earlier, longer one begins, the span texts concatenate to the input for every list of mentions and every reader if and only if no keyword match is empty where a mention may begin. |
| `HighlightExact.OneKeywordPartitionsIff` | frontend/src/lib/mentionHighlight.ts:29-89 | With one keyword this holds without the proviso. |
| `HighlightShown.HighlightsAre` | frontend/src/lib/mentionHighlight.ts:39-75 | Each highlight is a mention in the reader's or another's kind, a call of here, everyone or channel, or a keyword standing as a whole word, from end to end and between the boundaries it needs; no two share a unit. |
| `HighlightShown.MentionShown` | frontend/src/lib/mentionHighlight.ts:48-61 | A mention at a boundary is highlighted, as the reader's own if it names them or a group of theirs, or shares a unit with a highlighted mention at least as long. |
| `HighlightShown.BroadcastShown` | frontend/src/lib/mentionHighlight.ts:63-73 | A call between boundaries is highlighted as the reader's own, or shares a unit with a highlighted mention or call. |
| `HighlightShown.KeywordShown` | frontend/src/lib/mentionHighlight.ts:75-75 | A keyword standing as a whole word is highlighted, or shares a unit with another highlight. |
| `HighlightShown.PlainSpans` | frontend/src/lib/mentionHighlight.ts:80-88 | But for an empty text, plain spans are never empty and never next to each other. |
| `Highlight.HighlightMentions` | frontend/src/lib/mentionHighlight.ts:29-89 | The method with its loops, sort and early returns computes exactly the specified spans, and answers nothing exactly where the keyword search hangs. |
| `Csv.ReadsBack` | frontend/src/lib/csv.ts:5-13 | What any table reads back as under section 2 of RFC 4180: its guarded cells, with one empty cell for a row without cells and for a table without rows. |
| `Csv.RoundTripIff` | frontend/src/lib/csv.ts:11-13 | Reading the printed file gives back exactly the guarded cells, whatever quotes, commas and line breaks they hold, if and only if there is a row and every row has a cell. |
| `Csv.Guarded` | frontend/src/lib/csv.ts:3-7 | No string cell is shown as the start of a formula. |
| `Csv.PlainStaysPlain` | frontend/src/lib/csv.ts:3-9 | What no spreadsheet takes for a formula is shown as it is, and a cell without quotes, commas and line breaks stands bare. |
| `Csv.GuardTellsApartIff` | frontend/src/lib/csv.ts:3-7 | Two strings look alike after guarding only if they are equal or one is the other's guarded form. |
| `Escape.UnescapeEscape` | frontend/src/lib/i18n.ts:28-46 | Unescaping an escaped string gives the string back. |
| `Escape.WrittenAs` | frontend/src/lib/i18n.ts:28-42 | Each of the eight characters is written as its entity, any other as itself, one after another. |
| `Escape.EscapedIsWell` | frontend/src/lib/i18n.ts:40-42 | Escaped text holds none of the seven other characters and every ampersand in it starts one of the eight entities. |
| `Escape.EscapeUnescapeIff` | frontend/src/lib/i18n.ts:40-46 | Escaping undoes unescaping on exactly those texts. |
| `MessageCache.PatchActsIff` | frontend/src/lib/messageCache.ts:57-74 | Patching keeps ids unique if and only if the message is not given another message's id, and then it acts on the map. |
| `MessageCache.PatchKeepsPlaces` | frontend/src/lib/messageCache.ts:57-74 | A patch leaves every message in its place on its page, and all but the one it names alone. |
| `MessageCache.RemoveActs` | frontend/src/lib/messageCache.ts:76-92 | Removing acts on the map and keeps ids unique. |
| `MessageCache.RemoveClosesUp` | frontend/src/lib/messageCache.ts:76-92 | Removing takes the message out of its place; what was behind it on the page moves up, and nothing else moves. |
| `MessageCache.DeleteActs` | frontend/src/lib/messageCache.ts:100-109 | Deleting leaves a stub of a thread's start that has replies and removes any other message. |
| `MessageCache.UpsertActsIff` | frontend/src/lib/messageCache.ts:23-55 | Upserting keeps ids unique, and puts the message into the map if and only if there is a page. |
| `MessageCache.UpsertReplaces` | frontend/src/lib/messageCache.ts:31-43 | A message that is there is replaced in its place, whatever the edge and the order. |
| `MessageCache.UpsertLeads` | frontend/src/lib/messageCache.ts:45-54 | Unsorted, a new message stands ahead of its page, the first or the last as asked. |
| `MessageCache.UpsertSorts` | frontend/src/lib/messageCache.ts:45-54 | A sorted insert leaves its page newest first, messages of one age in order with the new one ahead, and every other page alone. |
| `MessageCache.ApplyActsIff` | frontend/src/lib/messageCache.ts:23-109 | Each operation keeps ids unique exactly when a patch takes no other message's id, and then does to the map what it should. |
| `MessageCache.CacheRefinesMap` | frontend/src/lib/messageCache.ts:12-109 | Over every run of such operations the pages stand for what the same run makes of a plain map. |
| `ReplyLedger.Ledger.ClaimReplyCount` | frontend/src/lib/messageCache.ts:114-122 | An id is claimed exactly when the ledger does not hold it. |
| `ReplyLedger.LastAcceptedIff` | frontend/src/lib/messageCache.ts:111-122 | After every run the ledger holds exactly the last 500 ids it accepted if and only if the empty id is not among the earlier ones. |
| `ReplyLedger.CountedAgainOnlyAfter` | frontend/src/lib/messageCache.ts:114-122 | No id is counted twice while fewer than 500 others are accepted in between, and the empty id never. |
| `ReplyLedger.CountedAgainAfter` | frontend/src/lib/messageCache.ts:117-120 | Once it is beyond the last 500, an id is counted again. |
| `ReplyLedger.GrowsWithoutBound` | frontend/src/lib/messageCache.ts:117-120 | For every number some run that offers the empty id first leaves a larger ledger. |

## Left out

- HuddleRuns.CapOverRuns: assumes that no occupied member set reaches its deadline when a step is taken; `LapseOverfills` shows what a lapse costs.
- HuddleRuns.RosterOverRuns: the same; `LapseKeepsRoster` shows it.
- AppDelivery.DeliveryOrder: assumes inserts in order, the exact condition being `OrderOverRunsIff`.
- AppDelivery.AttemptsBounded: assumes sweeps that overtake no slow claim, the exact condition being `SpacingOverRunsIff`.
- ReplayLog.CaughtIsComplete: assumes an occupied log, a cursor the probe can read and no cut by age in between; the two exact conditions beside it show why.
- Highlight.HighlightPartitions: one way only; `AlwaysPartitionsIff` is exact over all mentions where keyword matches do not stumble over each other, and `HighlightPartitionsIff` for one list of mentions.
- A search that never ends is an answer of nothing here, where the program simply does not return.
- Huddles of one user on several gateways, and Redis errors: the model is one gateway with a Redis that answers.
- Each client frame, heartbeat and cleanup is one instant; only the three refresh commands are also taken apart (`SpreadRefresh`).
- A slow client's close frame, the disconnect frames of a socket check, and everything after a frame is queued: writers, sockets and pings.
- The claim's choice of at most 100 heads is any such choice; the row's kind, body and the app's failure note are not kept, nor the HTTP delivery worker, purging and admission tickets.
- The rotation counter does not wrap at the machine's word size.
- JSON, SQL and Redis as transports: a payload is the fields the gateway reads and a remainder; whether it decodes is a flag; frames are named by kind and payload.
- Presence, activity and typing; what presence events and member removal do to presence.
- How Redis reads a cursor is given with the cursor, and agrees with the gateway where that can read it.
- Rounding of the bucket's 32-bit floats, and the coalescing of typing frames.
- Errors while deleting refresh tokens, writing the record or publishing, which the program logs and passes over; restoring a user is not part of the revocation runs.
- Unicode: folding of a character, word and space classes are parameters; the fold of a whole query or fragment and its trimming are taken as given.
- Lone surrogates in cells and escaped text, which both are copied unchanged; number formatting of cells; the byte order mark and the download itself.
- An absent cache, which every cache operation returns as it is; page fields other than the messages; comparison functions other than newest first.
- Page code, desktop shell, authorization tables, rate classes and configuration beyond the huddle limits: thin or easy.
