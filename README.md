# Anonymous one-on-one chat: a Dafny model of the matchmaking core

This project models the server core of `chat_anonymous`: the connection handler, the room service, the rate limiter and the room record. Strangers connect over a WebSocket. Each one sends a JOIN with a display name and is paired with whoever is waiting. Chat frames are then relayed to the partner. When either side leaves, the other is told and disconnected.

The model has one module per source file. Each stateful Java class becomes a Dafny class with the same fields. Each class has a `Model()` value and a spec function of that value for every operation. Each method is proved equal to its spec function. The properties are proved as lemmas about those functions.

- `RoomModel` (`room.dfy`) models the room record. `Room.Other` gives the member that is not a given session, computed as the service does it.
- `RoomServices` (`room_service.dfy`) models the room service.
  - Its state is the FIFO waiting queue, the `queueSize` counter, the set of queued ids, the room table and the session-to-room map.
  - `matchOrEnqueue` polls the queue and drops closed entries lazily. It pairs the asker with the first open waiter, or else enqueues the asker.
  - `removeAndGetPartner` leaves a queued session's entry in place and only forgets its id. A room member takes its whole room down.
  - A registry invariant `Inv` holds throughout: rooms and map entries agree, a session is never both waiting and in a room, and the counter equals the queue length.
  - `Inv` also says the queue holds at most one entry, because every new asker drains it. So the MAX_QUEUE_SIZE (5000) check can never fire: QUEUE_FULL is unreachable.
- `RateLimiting` (`rate_limiter.dfy`) models the rate limiter.
  - Each session gets a token bucket of 5 tokens. The bucket is created full on first use.
  - Before each attempt the bucket is hard-reset to full once strictly more than 1 s has passed since its last refill. It is not refilled in proportion to the elapsed time.
  - One token is then taken, if there is one.
  - The clock is the parameter `now`, in nanoseconds.
- `ChatHandler` (`chat_handler.dfy`) models the WebSocket handler.
  - The whole server state is a `System` value: the registry, the buckets, the display names, and the transport's `open` and `closed` sessions.
  - Each callback is a step function that returns the new state and the transport actions it performed, in order: `Send(id, msg)` or `Close(id, status)`.
  - The callbacks are: connection established, the zombie timer, an inbound text frame, and connection closed.
  - Inbound frames arrive already parsed: `Malformed`, `Ping`, `Join(name)`, or `Other(raw)` for chat.
  - Display names pass a matcher for the pattern `^[^<>{}\[\]\\/]{1,50}$`. It is proved equal to a deny-list of eight characters plus a length of 1 to 50.
  - The engine invariant `SysInv` adds eight facts to `Inv`:
    - every bucket holds 0 to 5 tokens;
    - no session is both open and closed;
    - every queue entry belongs to a session that was opened;
    - a stale queue entry belongs to a closed session;
    - queued sessions have names;
    - paired sessions have names;
    - names belong to sessions that were opened;
    - no room pairs a session with itself.
  - From `SysInv` it follows that a first JOIN never meets the ERROR or QUEUE_FULL outcome, and never pairs a session with itself.
  - The `Traced` lemmas show that every message and every close targets a session that is open at that moment.

## Model

All source paths are under `backend/src/main/java/com/anonymous/chat/`.

| member | source | states |
|---|---|---|
| RoomModel.Room.Other | backend/src/main/java/com/anonymous/chat/service/RoomService.java:101 | The result is a member of the room. For a member `s`, the room is exactly `{s, result}`. The first member's partner is the second. |
| RoomModel.OtherIsInvolution | backend/src/main/java/com/anonymous/chat/service/RoomService.java:120-122 | The partner of a member's partner is that member. |
| RoomServices.InitialInv | backend/src/main/java/com/anonymous/chat/service/RoomService.java:24-34 | A freshly constructed service satisfies the registry invariant. |
| RoomServices.FirstOpen | backend/src/main/java/com/anonymous/chat/service/RoomService.java:53-60 | The number of entries the poll loop discards: every entry before it is closed, and the entry at it, if any, is open. |
| RoomServices.AddRoom | backend/src/main/java/com/anonymous/chat/service/RoomService.java:81-91 | After `createRoom` each of the two sessions has the other as its partner. The queue, the counter and the queued set are unchanged. |
| RoomServices.Polled | backend/src/main/java/com/anonymous/chat/service/RoomService.java:53-60 | Polling `n` entries removes exactly the first `n` entries from the front of the queue and lowers the counter by `n`. The queued set only shrinks, and the rooms are unchanged. |
| RoomServices.Match | backend/src/main/java/com/anonymous/chat/service/RoomService.java:39-79 | `matchOrEnqueue` returns a partner exactly when the outcome is MATCHED. |
| RoomServices.PartnerOf | backend/src/main/java/com/anonymous/chat/service/RoomService.java:93-102 | A partner exists exactly when the session maps to a room id under which a room is stored. The partner is then a member of that room. |
| RoomServices.Remove | backend/src/main/java/com/anonymous/chat/service/RoomService.java:104-128 | After removal the session is not queued, and not in a room unless it was queued. The queue and the counter are untouched (lazy removal). No room is created. A partner, when returned, is the session's partner before the call. |
| RoomServices.MatchGuards | backend/src/main/java/com/anonymous/chat/service/RoomService.java:43-49 | An already-queued session gets WAITING and a session already in a room gets ERROR. Neither changes any state. |
| RoomServices.MatchServesFirstOpenEntry | backend/src/main/java/com/anonymous/chat/service/RoomService.java:51-77 | Lazy cleanup in FIFO order. The partner is the first open entry. The closed entries before it are dropped and leave the queued set. The entries behind it keep their order. If no entry is open, all entries are dropped and the outcome is WAITING, with the asker alone in the queue, or QUEUE_FULL, with an empty queue. |
| RoomServices.MatchKeepsCounter | backend/src/main/java/com/anonymous/chat/service/RoomService.java:53-77 | Each poll decrements the counter and each offer increments it, so a counter equal to the queue length stays equal. |
| RoomServices.QueueFullUnreachable | backend/src/main/java/com/anonymous/chat/service/RoomService.java:68-72 | With a counter equal to the queue length, the capacity check only ever reads 0, so QUEUE_FULL never occurs. |
| RoomServices.MatchPairsBothWays | backend/src/main/java/com/anonymous/chat/service/RoomService.java:62-91 | On MATCHED the room is stored under the new id with the asker first and the waiter second. Both sessions map to it, each one's partner is the other, and the waiter is no longer queued. |
| RoomServices.MatchPreservesInv | backend/src/main/java/com/anonymous/chat/service/RoomService.java:39-91 | Matching keeps the registry invariant, given a room id not yet in use. |
| RoomServices.PartnerIsSymmetric | backend/src/main/java/com/anonymous/chat/service/RoomService.java:93-102 | Under the invariant, if `b` is the partner of `a`, then `a` is the partner of `b`. |
| RoomServices.RemoveQueued | backend/src/main/java/com/anonymous/chat/service/RoomService.java:107-114 | Removing a queued session only drops its id from the queued set. Its queue entry and the counter stay, and no partner is returned. |
| RoomServices.RemoveMember | backend/src/main/java/com/anonymous/chat/service/RoomService.java:116-125 | Removing a room member returns exactly its partner. The room and both map entries are gone, and every other entry stays. |
| RoomServices.RemoveForgets | backend/src/main/java/com/anonymous/chat/service/RoomService.java:104-128 | After removal the session is neither queued nor in a room. |
| RoomServices.RemoveIsIdempotent | backend/src/main/java/com/anonymous/chat/service/RoomService.java:104-128 | A second removal of the same session returns no partner and changes nothing. |
| RoomServices.RemovePreservesInv | backend/src/main/java/com/anonymous/chat/service/RoomService.java:104-128 | Removal keeps the registry invariant. |
| RoomServices.CounterBoundsWaiters | backend/src/main/java/com/anonymous/chat/service/RoomService.java:110-113 | The counter may over-count the waiting sessions but never under-counts them. |
| RoomServices.FirstJoinerWaits | backend/src/main/java/com/anonymous/chat/service/RoomService.java:68-77 | On an empty service the first asker is enqueued alone and gets WAITING. |
| RoomServices.SecondJoinerMatches | backend/src/main/java/com/anonymous/chat/service/RoomService.java:51-66 | The next asker is paired with an open waiter. The queue empties, and the room joins the asker and the waiter in that order. |
| RoomServices.RoomService.constructor | backend/src/main/java/com/anonymous/chat/service/RoomService.java:24-34 | The fields start empty, with the counter at 0, and the invariant holds. |
| RoomServices.RoomService.MatchOrEnqueue | backend/src/main/java/com/anonymous/chat/service/RoomService.java:39-79 | The fields and the result equal `Match` of the old state. It keeps the invariant when the room id is fresh. |
| RoomServices.RoomService.PollUntilOpen | backend/src/main/java/com/anonymous/chat/service/RoomService.java:51-60 | The poll loop stops at the first open entry and returns it, with exactly the entries up to and including it polled. When no entry is open it polls them all and returns none. |
| RoomServices.RoomService.CreateRoom | backend/src/main/java/com/anonymous/chat/service/RoomService.java:81-91 | Returns the new room and stores it, mapping both sessions to its id. |
| RoomServices.RoomService.GetPartner | backend/src/main/java/com/anonymous/chat/service/RoomService.java:93-102 | Returns the other member of the session's room, or none when the session has no room or the room is missing. Under the invariant, a partner exists exactly when the session is mapped, and the partner's partner is the session. |
| RoomServices.RoomService.RemoveAndGetPartner | backend/src/main/java/com/anonymous/chat/service/RoomService.java:104-128 | The fields and the result equal `Remove` of the old state, and the invariant is kept. |
| RateLimiting.NewBucket | backend/src/main/java/com/anonymous/chat/security/RateLimiter.java:28-29 | A new bucket is within bounds, and an attempt at its creation time succeeds and leaves 4 tokens. |
| RateLimiting.Refilled | backend/src/main/java/com/anonymous/chat/security/RateLimiter.java:41-50 | A refill either leaves the bucket as it is or makes it full and stamped `now`. The stamp never moves back and the bounds are kept. |
| RateLimiting.Consume | backend/src/main/java/com/anonymous/chat/security/RateLimiter.java:32-39 | The token count stays within 0 to 5, and a bucket that has just granted an attempt is not full. |
| RateLimiting.LimiterConsume | backend/src/main/java/com/anonymous/chat/security/RateLimiter.java:18-21 | Every bucket in the table stays within 0 to 5 tokens. |
| RateLimiting.ConsumeRun | backend/src/main/java/com/anonymous/chat/security/RateLimiter.java:32-39 | A run of attempts gives one outcome per attempt. |
| RateLimiting.RefillIsHardReset | backend/src/main/java/com/anonymous/chat/security/RateLimiter.java:41-50 | Past one interval (strictly more than 1 s), the bucket becomes full and is restamped with `now`. At exactly one interval or less it is untouched. |
| RateLimiting.ConsumeTakesOneToken | backend/src/main/java/com/anonymous/chat/security/RateLimiter.java:32-39 | An attempt succeeds exactly when the refilled bucket has a token, and then takes one. A failed attempt leaves the bucket as it was. |
| RateLimiting.BurstThenSilence | backend/src/main/java/com/anonymous/chat/security/RateLimiter.java:32-50 | Within one interval of the last refill, attempt `i` succeeds exactly when `i` is less than the tokens held. |
| RateLimiting.FiveThenReject | backend/src/main/java/com/anonymous/chat/security/RateLimiter.java:12-50 | A new bucket, hit six times within a second, accepts five attempts and rejects the sixth. |
| RateLimiting.FullAfterInterval | backend/src/main/java/com/anonymous/chat/security/RateLimiter.java:41-50 | After more than one interval an attempt always succeeds and leaves 4 tokens stamped `now`. |
| RateLimiting.LimiterTouchesOnlyCaller | backend/src/main/java/com/anonymous/chat/security/RateLimiter.java:16-21 | Buckets are per session: an attempt changes only the caller's entry. A caller without a bucket gets a full one and succeeds. |
| RateLimiting.LimiterRejectChangesNothing | backend/src/main/java/com/anonymous/chat/security/RateLimiter.java:18-39 | A rejected attempt leaves the whole table unchanged. |
| RateLimiting.RemoveRestartsBucket | backend/src/main/java/com/anonymous/chat/security/RateLimiter.java:18-25 | After `removeSession`, the session's next attempt starts from a new full bucket. |
| RateLimiting.TokenBucket.constructor | backend/src/main/java/com/anonymous/chat/security/RateLimiter.java:28-29 | A bucket starts with 5 tokens, stamped with its creation time. |
| RateLimiting.TokenBucket.TryConsume | backend/src/main/java/com/anonymous/chat/security/RateLimiter.java:32-39 | The result and the new fields equal `Consume` of the old fields. |
| RateLimiting.TokenBucket.Refill | backend/src/main/java/com/anonymous/chat/security/RateLimiter.java:41-50 | The new fields equal `Refilled` of the old fields. |
| RateLimiting.RateLimiter.constructor | backend/src/main/java/com/anonymous/chat/security/RateLimiter.java:16 | The table starts empty. |
| RateLimiting.RateLimiter.TryConsume | backend/src/main/java/com/anonymous/chat/security/RateLimiter.java:18-21 | Creates the bucket on first use. The result and the table equal `LimiterConsume` of the old table. No two sessions share a bucket object. |
| RateLimiting.RateLimiter.BucketFor | backend/src/main/java/com/anonymous/chat/security/RateLimiter.java:20 | `computeIfAbsent`: returns the session's bucket, creating a full one stamped `now` only when there is none. No other session's entry changes, and no other session shares the bucket. |
| RateLimiting.RateLimiter.RemoveSession | backend/src/main/java/com/anonymous/chat/security/RateLimiter.java:23-25 | The table loses exactly the session's entry. |
| ChatHandler.PatternIsDenyList | backend/src/main/java/com/anonymous/chat/handler/ChatWebSocketHandler.java:25-26 | The pattern matcher accepts exactly the inputs within the length bounds whose every character is outside the excluded class. |
| ChatHandler.NameMatchesIffValid | backend/src/main/java/com/anonymous/chat/handler/ChatWebSocketHandler.java:25-26 | A name passes exactly when it has 1 to 50 characters and none of `< > { } [ ] \ /`. |
| ChatHandler.NameExamples | backend/src/main/java/com/anonymous/chat/handler/ChatWebSocketHandler.java:25-26 | "Bob" and "Tom & Jerry!" pass and "<script>" fails. The rule is a deny-list, not the "alphanumeric only" that the error text at line 102 announces. |
| ChatHandler.NameLengthLimits | backend/src/main/java/com/anonymous/chat/handler/ChatWebSocketHandler.java:25-26 | The empty name fails, a 50-character name passes, and a 51-character name fails. |
| ChatHandler.InitialSysInv | backend/src/main/java/com/anonymous/chat/handler/ChatWebSocketHandler.java:28-42 | The initial engine satisfies the engine invariant. |
| ChatHandler.MatchUserKeepsInv | backend/src/main/java/com/anonymous/chat/handler/ChatWebSocketHandler.java:129-151 | In the running engine, the first JOIN of an open, newly named session gets only WAITING or MATCHED. A match is with a different, open session, and the invariant is kept. |
| ChatHandler.HandleTextKeepsInv | backend/src/main/java/com/anonymous/chat/handler/ChatWebSocketHandler.java:67-127 | Handling any frame from an open session keeps the engine invariant. |
| ChatHandler.AfterClosedKeepsInv | backend/src/main/java/com/anonymous/chat/handler/ChatWebSocketHandler.java:153-169 | Close cleanup keeps the engine invariant. |
| ChatHandler.ZombieKeepsInv | backend/src/main/java/com/anonymous/chat/handler/ChatWebSocketHandler.java:54-64 | The zombie timer keeps the engine invariant. |
| ChatHandler.EstablishedKeepsInv | backend/src/main/java/com/anonymous/chat/handler/ChatWebSocketHandler.java:50-65 | Opening a never-seen session keeps the engine invariant. |
| ChatHandler.MatchUserTraced | backend/src/main/java/com/anonymous/chat/handler/ChatWebSocketHandler.java:129-176 | `matchUser` writes only to sessions open at that moment, and only to the joiner and its partner. It closes only the joiner, and only after a message to the joiner comes first. |
| ChatHandler.HandleTextTraced | backend/src/main/java/com/anonymous/chat/handler/ChatWebSocketHandler.java:67-127 | Every message and close caused by a frame targets a session that is open at that moment, and the open set is what the closes leave. |
| ChatHandler.AfterClosedTraced | backend/src/main/java/com/anonymous/chat/handler/ChatWebSocketHandler.java:153-176 | Close cleanup writes to and closes only sessions open at that moment, and every action targets the partner that `removeAndGetPartner` returned. |
| ChatHandler.ZombieTraced | backend/src/main/java/com/anonymous/chat/handler/ChatWebSocketHandler.java:54-64 | The zombie timer closes only an open session. |
| ChatHandler.RejectedFrameIsDropped | backend/src/main/java/com/anonymous/chat/handler/ChatWebSocketHandler.java:68-71 | A frame without a token is dropped. There is no action and no change at all, including the bucket. |
| ChatHandler.PingAndMalformed | backend/src/main/java/com/anonymous/chat/handler/ChatWebSocketHandler.java:75-92 | Once admitted, a PING gets exactly one PONG and nothing else changes. A malformed frame closes the session with BAD_DATA and leaves the names and the registry alone. |
| ChatHandler.InvalidNameIsRejected | backend/src/main/java/com/anonymous/chat/handler/ChatWebSocketHandler.java:95-104 | An invalid name (the given one, or "Stranger" when none is given) gets exactly one ERROR. No name is bound and the registry is untouched. |
| ChatHandler.SecondJoinIsNoOp | backend/src/main/java/com/anonymous/chat/handler/ChatWebSocketHandler.java:106-109 | A valid JOIN from an already named session does nothing, so the first name stays. |
| ChatHandler.ChatRouting | backend/src/main/java/com/anonymous/chat/handler/ChatWebSocketHandler.java:114-127 | A nameless sender is closed with POLICY_VIOLATION. A named sender with an open partner has its frame relayed unchanged to that partner. Otherwise the sender gets "No partner connected". |
| ChatHandler.MatchUserOutcomes | backend/src/main/java/com/anonymous/chat/handler/ChatWebSocketHandler.java:129-151 | The exact messages for each outcome. MATCHED: INITIATOR with the joiner's name to the partner, then PEER with the partner's name to the joiner. WAITING: WAITING. QUEUE_FULL and ERROR: an ERROR, then close with SERVER_ERROR. |
| ChatHandler.FirstJoinMatchesOrWaits | backend/src/main/java/com/anonymous/chat/handler/ChatWebSocketHandler.java:95-151 | In the running engine a first valid JOIN binds the name. It then ends in WAITING, or in a two-way pairing with a different open, named session, where each side hears the other's name. |
| ChatHandler.AfterClosedNotifiesPartner | backend/src/main/java/com/anonymous/chat/handler/ChatWebSocketHandler.java:153-169 | Closing a paired session drops its bucket, its name and both room entries. Its open partner hears PARTNER_DISCONNECTED and is then closed NORMAL. |
| ChatHandler.PartnerCloseIsSilent | backend/src/main/java/com/anonymous/chat/handler/ChatWebSocketHandler.java:153-169 | The partner's own close, reported next, notifies nobody. |
| ChatHandler.AfterClosedIsIdempotent | backend/src/main/java/com/anonymous/chat/handler/ChatWebSocketHandler.java:153-169 | Running the close cleanup twice acts and changes nothing the second time. |
| ChatHandler.ZombieClosesOnlyNameless | backend/src/main/java/com/anonymous/chat/handler/ChatWebSocketHandler.java:54-64 | The timer closes a session with POLICY_VIOLATION exactly when it is still open and has no name. |
| ChatHandler.TwoStrangersMeet | backend/src/main/java/com/anonymous/chat/handler/ChatWebSocketHandler.java:67-169 | A full session: Alice waits and Bob is paired with her, each hearing the other's name. Alice's "hi" reaches Bob. Bob's close tells Alice and closes her. |
| ChatHandler.ChatWebSocketHandler.constructor | backend/src/main/java/com/anonymous/chat/handler/ChatWebSocketHandler.java:38-42 | Takes the injected services. Starts with no names and no sessions, and the invariant holds. |
| ChatHandler.ChatWebSocketHandler.SendJson | backend/src/main/java/com/anonymous/chat/handler/ChatWebSocketHandler.java:171-176 | The actions are those of `Emit`: the message is written only when the session is open, and nothing else changes. |
| ChatHandler.ChatWebSocketHandler.CloseSession | backend/src/main/java/com/anonymous/chat/handler/ChatWebSocketHandler.java:117 | Closes the session: it moves from open to closed and a Close action is emitted. |
| ChatHandler.ChatWebSocketHandler.AfterConnectionEstablished | backend/src/main/java/com/anonymous/chat/handler/ChatWebSocketHandler.java:50-65 | The session becomes open, and the invariant is kept. |
| ChatHandler.ChatWebSocketHandler.ZombieCheck | backend/src/main/java/com/anonymous/chat/handler/ChatWebSocketHandler.java:55-64 | The state and actions equal `Zombie` of the old state, and the invariant is kept. |
| ChatHandler.ChatWebSocketHandler.HandleTextMessage | backend/src/main/java/com/anonymous/chat/handler/ChatWebSocketHandler.java:67-93 | The state and actions equal `HandleText` of the old state, and the invariant is kept. |
| ChatHandler.ChatWebSocketHandler.Dispatch | backend/src/main/java/com/anonymous/chat/handler/ChatWebSocketHandler.java:75-92 | Handles an admitted frame as `DispatchStep` says: PONG, join, chat, or close with BAD_DATA. |
| ChatHandler.ChatWebSocketHandler.HandleJoin | backend/src/main/java/com/anonymous/chat/handler/ChatWebSocketHandler.java:95-112 | The state and actions equal `JoinStep` of the old state. |
| ChatHandler.ChatWebSocketHandler.HandleChat | backend/src/main/java/com/anonymous/chat/handler/ChatWebSocketHandler.java:114-127 | The state and actions equal `ChatStep` of the old state. |
| ChatHandler.ChatWebSocketHandler.MatchUser | backend/src/main/java/com/anonymous/chat/handler/ChatWebSocketHandler.java:129-151 | The state and actions equal `MatchStep` of the old state. |
| ChatHandler.ChatWebSocketHandler.Announce | backend/src/main/java/com/anonymous/chat/handler/ChatWebSocketHandler.java:132-150 | The `switch` on the outcome: the state and actions equal `AnnounceStep` of the old state. |
| ChatHandler.ChatWebSocketHandler.AfterConnectionClosed | backend/src/main/java/com/anonymous/chat/handler/ChatWebSocketHandler.java:153-169 | The state and actions equal `AfterClosed` of the old state, and the invariant is kept. |
| ChatHandler.ChatWebSocketHandler.Forget | backend/src/main/java/com/anonymous/chat/handler/ChatWebSocketHandler.java:154-159 | The session is closed, and its bucket and name are dropped, as `Forgotten` says. The limiter's invariant is kept. |
| ChatHandler.ChatWebSocketHandler.NotifyPartner | backend/src/main/java/com/anonymous/chat/handler/ChatWebSocketHandler.java:161-165 | An open partner hears PARTNER_DISCONNECTED and is closed NORMAL. Otherwise nothing happens. |

## Left out

- **Concurrency.** The concurrent maps, the `synchronized` blocks, the queue lock and the scheduler thread are not modelled. Every callback runs to completion, one at a time. The at-most-one-waiter part of `Inv` relies on this.
- **JSON.** Jackson parsing and serialisation are not modelled. An inbound payload is already a `Frame`: `Malformed` when the parser throws, `Join(None)` when `name` is missing or null, and `Other(raw)` for any other `type`, including JSON that is not an object. Replies are `OutMsg` values, not JSON text.
- **I/O failures.** An `IOException` from a send or a close is not modelled. In the source, one thrown inside the frame handler is caught and closes the sender with BAD_DATA, and one thrown during close cleanup is swallowed. In the model, sends and closes always succeed.
- **Logging.** All logging is left out.
- **Shutdown.** The `@PreDestroy` scheduler shutdown is left out.
- **Zombie timer delay.** `Zombie` is a step the environment may take at any time after the connection opens. The 5-second delay is not modelled.
- **Closing.** The transport's own closing of a connection is modelled as the first part of `AfterClosed`.
- **Room ids.** `UUID.randomUUID()` is the parameter `roomId`. Invariant preservation assumes it is not already in use; UUID collisions are not modelled.
- **The clock.** `System.nanoTime()` is the parameter `now`. The source reads the clock twice on a session's first attempt, once when creating the bucket and once when refilling. The model uses one reading for both.
- **Integer width.** The `long` nanosecond subtraction, the `int` token count and the `AtomicInteger` counter are unbounded integers. Overflow is not modelled.
- **Session identity.** The handler keys names by the session object, and the room service keys by the session id. The model uses one id for both.
- **Room getters.** `Room`'s getters are the datatype's destructors and have no separate members.
- **Regex detail.** Java regex details outside this pattern's character class and bounds are not modelled. Strings, names included, are sequences of Unicode code points, and the length bound counts code points, as Java's regex does. A Java `String` can also hold a lone surrogate, which a Dafny string cannot.
- config/WebSocketConfig.java is not part of this model; it sets the endpoint and the message size limit.
- ChatHandler.ChatWebSocketHandler.constructor: requires the injected services to be empty, as they are when the container creates them.
- RateLimiting.RateLimiter.TryConsume: requires the limiter's representation invariant `Valid()`. The constructor establishes it and every method keeps it.
- ChatHandler.ChatWebSocketHandler.HandleTextMessage: requires the sender to be open, because the container delivers frames only on open connections. It also requires `roomId` to be unused, standing for a fresh UUID.
- RoomServices.RoomService.MatchOrEnqueue: promises to keep `Valid()` only when `roomId` is not already an active room, standing for a fresh UUID.
