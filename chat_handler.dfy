/**
 * The connection protocol of handler/ChatWebSocketHandler.java.
 *
 * Connections are session ids. The transport's view of them is two sets: `open` and
 * `closed` (closed for good). Inbound frames arrive already parsed (`Frame`), with
 * `Malformed` for a payload the JSON parser refuses. Each callback of the handler is a
 * step that updates the state and returns the transport actions it performed, in order:
 * `Send(id, msg)` for a message written to a session and `Close(id, status)` for a
 * close. A close takes effect at once: later sends in the same step see the session
 * closed. The transport calls `afterConnectionClosed` later, as a step of its own.
 *
 * `System` is the whole state as a value and the step functions (`HandleText`,
 * `AfterClosed`, `Zombie`, `Established`) specify the callbacks; the class
 * `ChatWebSocketHandler` implements them over a `RoomService` and a `RateLimiter`
 * object and is proved equal to them.
 */
module ChatHandler {
  import opened Wrappers
  import opened RoomModel
  import opened RoomServices
  import opened RateLimiting

  // ---------------------------------------------------------------------------
  // Frames, responses and actions
  // ---------------------------------------------------------------------------

  /** An inbound text frame. `Other` is any frame whose `type` is neither PING nor JOIN; it keeps its raw text. */
  datatype Frame = Malformed | Ping | Join(name: Option<string>) | Other(payload: string)

  datatype Role = Initiator | Peer

  /** The outbound messages. `Relay` is a chat frame passed on exactly as it arrived. */
  datatype OutMsg =
    | Pong
    | WaitingMsg
    | MatchedMsg(role: Role, partnerName: string)
    | Relay(payload: string)
    | PartnerDisconnected
    | ErrorMsg(text: string)

  datatype CloseStatus = Normal | PolicyViolation | BadData | ServerError

  datatype Action = Send(to: SessionId, msg: OutMsg) | Close(to: SessionId, status: CloseStatus)

  const INVALID_NAME := "Invalid name. Alphanumeric only, max 50 chars."
  const NO_PARTNER := "No partner connected"
  const QUEUE_FULL_TEXT := "Queue full"
  const SYSTEM_ERROR_TEXT := "System error"
  /** The name a JOIN without a `name` field gets. */
  const DEFAULT_JOIN_NAME := "Stranger"
  /** The name used for a session without one when a match is announced. */
  const ANONYMOUS := "Anonymous"

  // ---------------------------------------------------------------------------
  // The display-name check
  // ---------------------------------------------------------------------------

  /** The characters NAME_PATTERN's class excludes. */
  const FORBIDDEN: set<char> := {'<', '>', '{', '}', '[', ']', '\\', '/'}
  const MAX_NAME_LENGTH: int := 50

  /**
   * A matcher for `^[^<>{}\[\]\\/]{min,max}$` run over the whole input: at least `min`
   * and at most `max` characters, none of them excluded by the class, then the end.
   */
  function PatternMatches(s: string, min: int, max: int): bool
    decreases |s|
  {
    if s == [] then min <= 0
    else max > 0 && s[0] !in FORBIDDEN && PatternMatches(s[1..], min - 1, max - 1)
  }

  /** `NAME_PATTERN.matcher(name).matches()`. */
  predicate NameMatches(name: string) {
    PatternMatches(name, 1, MAX_NAME_LENGTH)
  }

  /** The rule the pattern states: a deny-list of eight characters and a length of 1 to 50. */
  predicate ValidName(name: string) {
    && 1 <= |name| <= MAX_NAME_LENGTH
    && forall i :: 0 <= i < |name| ==> name[i] !in FORBIDDEN
  }

  lemma {:induction false} PatternIsDenyList(s: string, min: int, max: int)
    requires 0 <= max
    ensures PatternMatches(s, min, max) <==>
      (min <= |s| <= max && forall i :: 0 <= i < |s| ==> s[i] !in FORBIDDEN)
    decreases |s|
  {
    if s != [] {
      if max > 0 {
        PatternIsDenyList(s[1..], min - 1, max - 1);
        assert forall i :: 1 <= i < |s| ==> s[i] == s[1..][i - 1];
      }
    }
  }

  /** The name check accepts exactly the names of 1 to 50 characters with no excluded character. */
  lemma NameMatchesIffValid(name: string)
    ensures NameMatches(name) <==> ValidName(name)
  {
    PatternIsDenyList(name, 1, MAX_NAME_LENGTH);
  }

  /**
   * "Bob" passes and "<script>" does not. The check is a deny-list, not the
   * "alphanumeric only" its error message announces: spaces and punctuation outside
   * the eight characters pass.
   */
  lemma NameExamples()
    ensures NameMatches("Bob")
    ensures NameMatches("Tom & Jerry!")
    ensures !NameMatches("<script>")
  {
    NameMatchesIffValid("Bob");
    NameMatchesIffValid("Tom & Jerry!");
    NameMatchesIffValid("<script>");
    assert "<script>"[0] == '<';
  }

  /** The length bounds: the empty name fails, 50 characters pass, 51 fail. */
  lemma NameLengthLimits()
    ensures !NameMatches("")
    ensures NameMatches(seq(50, i => 'a'))
    ensures !NameMatches(seq(51, i => 'a'))
  {
    NameMatchesIffValid(seq(50, i => 'a'));
    NameMatchesIffValid(seq(51, i => 'a'));
  }

  // ---------------------------------------------------------------------------
  // State and step helpers
  // ---------------------------------------------------------------------------

  /**
   * The engine's state: the room service, the rate limiter's table, the display names,
   * and the transport's open and closed sessions.
   */
  datatype System = System(
    reg: Registry,
    buckets: map<SessionId, Bucket>,
    userNames: map<SessionId, string>,
    open: set<SessionId>,
    closed: set<SessionId>)

  /** A state and the actions performed so far. */
  datatype Step = Step(sys: System, acts: seq<Action>)

  function NameOr(names: map<SessionId, string>, s: SessionId, default: string): string {
    if s in names then names[s] else default
  }

  /** `sendJson`: write only if the session is open. */
  function Emit(st: Step, to: SessionId, msg: OutMsg): Step {
    if to in st.sys.open then st.(acts := st.acts + [Send(to, msg)]) else st
  }

  /** `sendMessage` called directly, without the open check. */
  function Deliver(st: Step, to: SessionId, msg: OutMsg): Step {
    st.(acts := st.acts + [Send(to, msg)])
  }

  /** `session.close(status)`. */
  function CloseConn(st: Step, to: SessionId, status: CloseStatus): Step {
    Step(st.sys.(open := st.sys.open - {to}, closed := st.sys.closed + {to}), st.acts + [Close(to, status)])
  }

  // ---------------------------------------------------------------------------
  // The callbacks
  // ---------------------------------------------------------------------------

  /** `matchUser`: ask the room service, then tell the session(s) the outcome. */
  function MatchStep(sys: System, s: SessionId, roomId: RoomId): Step {
    var (reg', r) := Match(sys.reg, s, sys.open, roomId);
    AnnounceStep(sys.(reg := reg'), s, r)
  }

  /** The `switch` of `matchUser`: tell the session(s) the outcome `r`. */
  function AnnounceStep(sys: System, s: SessionId, r: MatchResult): Step
    requires r.kind == Matched ==> r.partner.Some?
  {
    var st := Step(sys, []);
    match r.kind
    case Matched =>
      var p := r.partner.value;
      var myName := NameOr(sys.userNames, s, ANONYMOUS);
      var partnerName := NameOr(sys.userNames, p, ANONYMOUS);
      Emit(Emit(st, p, MatchedMsg(Initiator, myName)), s, MatchedMsg(Peer, partnerName))
    case Waiting => Emit(st, s, WaitingMsg)
    case QueueFull => CloseConn(Emit(st, s, ErrorMsg(QUEUE_FULL_TEXT)), s, ServerError)
    case Error => CloseConn(Emit(st, s, ErrorMsg(SYSTEM_ERROR_TEXT)), s, ServerError)
  }

  /** `handleJoin`: check the name, bind it once, and match. */
  function JoinStep(sys: System, s: SessionId, name: Option<string>, roomId: RoomId): Step {
    var rawName := name.GetOr(DEFAULT_JOIN_NAME);
    if !NameMatches(rawName) then Emit(Step(sys, []), s, ErrorMsg(INVALID_NAME))
    else if s in sys.userNames then Step(sys, [])
    else MatchStep(sys.(userNames := sys.userNames[s := rawName]), s, roomId)
  }

  /** `handleChat`: a nameless session is closed; otherwise relay to an open partner or report none. */
  function ChatStep(sys: System, s: SessionId, payload: string): Step {
    var st := Step(sys, []);
    if s !in sys.userNames then CloseConn(st, s, PolicyViolation)
    else
      var partner := PartnerOf(sys.reg, s);
      if partner.Some? && partner.value in sys.open then Deliver(st, partner.value, Relay(payload))
      else Emit(st, s, ErrorMsg(NO_PARTNER))
  }

  /**
   * `handleTextMessage`: every frame first spends a token; a frame without one is dropped.
   * Then a malformed frame closes the session, PING is answered, JOIN joins and
   * anything else is chat. `now` is the clock and `roomId` the id a new room would get.
   */
  function HandleText(sys: System, s: SessionId, frame: Frame, now: int, roomId: RoomId): Step {
    var (ok, buckets') := LimiterConsume(sys.buckets, s, now);
    var sys1 := sys.(buckets := buckets');
    if !ok then Step(sys1, []) else DispatchStep(sys1, s, frame, roomId)
  }

  /** The body of `handleTextMessage` once the frame is admitted. */
  function DispatchStep(sys: System, s: SessionId, frame: Frame, roomId: RoomId): Step {
    match frame
    case Malformed => CloseConn(Step(sys, []), s, BadData)
    case Ping => Deliver(Step(sys, []), s, Pong)
    case Join(name) => JoinStep(sys, s, name, roomId)
    case Other(payload) => ChatStep(sys, s, payload)
  }

  /**
   * `afterConnectionClosed`: the transport has closed `s`; drop its bucket and its name,
   * take it out of the room service, and if it had a partner that is still open, tell
   * the partner and close it.
   */
  function AfterClosed(sys: System, s: SessionId): Step {
    var sys1 := Forgotten(sys, s);
    var (reg', partner) := Remove(sys1.reg, s);
    NotifyStep(sys1.(reg := reg'), partner)
  }

  /** The start of `afterConnectionClosed`: `s` is closed, and its bucket and its name are dropped. */
  function Forgotten(sys: System, s: SessionId): System {
    sys.(open := sys.open - {s}, closed := sys.closed + {s},
         buckets := sys.buckets - {s}, userNames := sys.userNames - {s})
  }

  /** The end of `afterConnectionClosed`: an open partner hears PARTNER_DISCONNECTED and is closed NORMAL. */
  function NotifyStep(sys: System, partner: Option<SessionId>): Step {
    var st := Step(sys, []);
    if partner.Some? && partner.value in sys.open then
      CloseConn(Emit(st, partner.value, PartnerDisconnected), partner.value, Normal)
    else st
  }

  /** The zombie timer: close a session that is still open and has not joined. */
  function Zombie(sys: System, s: SessionId): Step {
    if s in sys.open && s !in sys.userNames then CloseConn(Step(sys, []), s, PolicyViolation)
    else Step(sys, [])
  }

  /** A new connection opens. */
  function Established(sys: System, s: SessionId): System {
    sys.(open := sys.open + {s})
  }

  // ---------------------------------------------------------------------------
  // The engine invariant
  // ---------------------------------------------------------------------------

  function InitialSystem(): System {
    System(Initial(), map[], map[], {}, {})
  }

  /**
   * Beyond the room service's own invariant and the buckets' bounds: a session is never
   * open and closed at once; every session the engine knows has been opened; a queue
   * entry that no longer counts as queued belongs to a closed session; every queued or
   * paired session has a name; and no room pairs a session with itself.
   */
  ghost predicate SysInv(sys: System) {
    && Inv(sys.reg)
    && AllInBounds(sys.buckets)
    && sys.open !! sys.closed
    && Elems(sys.reg.waitingQueue) <= sys.open + sys.closed
    && (forall x :: x in sys.reg.waitingQueue && x !in sys.reg.queuedSessionIds ==> x !in sys.open)
    && sys.reg.queuedSessionIds <= sys.userNames.Keys
    && sys.reg.sessionRoomMap.Keys <= sys.userNames.Keys
    && sys.userNames.Keys <= sys.open + sys.closed
    && (forall rid :: rid in sys.reg.activeRooms ==>
          sys.reg.activeRooms[rid].session1 != sys.reg.activeRooms[rid].session2)
  }

  lemma InitialSysInv()
    ensures SysInv(InitialSystem())
  {
  }

  lemma CloseConnKeepsInv(st: Step, to: SessionId, status: CloseStatus)
    requires SysInv(st.sys)
    ensures SysInv(CloseConn(st, to, status).sys)
  {
  }

  /**
   * A first JOIN of an open session never meets ERROR or QUEUE_FULL, never pairs the
   * session with itself, and keeps the invariant.
   */
  lemma MatchUserKeepsInv(sys: System, s: SessionId, roomId: RoomId)
    requires SysInv(sys)
    requires s in sys.open && s in sys.userNames
    requires s !in sys.reg.queuedSessionIds && s !in sys.reg.sessionRoomMap
    requires roomId !in sys.reg.activeRooms
    ensures var r := Match(sys.reg, s, sys.open, roomId).1;
      && (r.kind == Waiting || r.kind == Matched)
      && (r.kind == Matched ==> r.partner.value != s && r.partner.value in sys.open)
    ensures SysInv(MatchStep(sys, s, roomId).sys)
  {
    var (reg', r) := Match(sys.reg, s, sys.open, roomId);
    QueueFullUnreachable(sys.reg, s, sys.open, roomId);
    if r.kind == Matched {
      MatchedKeepsInv(sys, s, roomId);
      assert MatchStep(sys, s, roomId).sys == sys.(reg := reg');
    } else {
      EnqueuedKeepsInv(sys, s, roomId);
    }
  }

  lemma MatchedKeepsInv(sys: System, s: SessionId, roomId: RoomId)
    requires SysInv(sys)
    requires s in sys.open && s in sys.userNames
    requires s !in sys.reg.queuedSessionIds && s !in sys.reg.sessionRoomMap
    requires roomId !in sys.reg.activeRooms
    requires Match(sys.reg, s, sys.open, roomId).1.kind == Matched
    ensures var r := Match(sys.reg, s, sys.open, roomId).1;
      r.partner.value != s && r.partner.value in sys.open
    ensures SysInv(sys.(reg := Match(sys.reg, s, sys.open, roomId).0))
  {
    var reg := sys.reg;
    var (reg', r) := Match(reg, s, sys.open, roomId);
    MatchPreservesInv(reg, s, sys.open, roomId);
    var q := reg.waitingQueue;
    var k := FirstOpen(q, sys.open);
    assert r.partner == Some(q[k]);
    assert q[k] in q;
    assert q[k] != s;
    PolledShort(reg, k + 1);
    forall rid | rid in reg'.activeRooms
      ensures reg'.activeRooms[rid].session1 != reg'.activeRooms[rid].session2
    {
      if rid != roomId {
        assert reg'.activeRooms[rid] == reg.activeRooms[rid];
      }
    }
  }

  lemma EnqueuedKeepsInv(sys: System, s: SessionId, roomId: RoomId)
    requires SysInv(sys)
    requires s in sys.open && s in sys.userNames
    requires s !in sys.reg.queuedSessionIds && s !in sys.reg.sessionRoomMap
    requires roomId !in sys.reg.activeRooms
    requires Match(sys.reg, s, sys.open, roomId).1.kind == Waiting
    ensures SysInv(MatchStep(sys, s, roomId).sys)
  {
    var reg := sys.reg;
    var (reg', r) := Match(reg, s, sys.open, roomId);
    MatchPreservesInv(reg, s, sys.open, roomId);
    var q := reg.waitingQueue;
    assert FirstOpen(q, sys.open) == |q|;
    if q != [] {
      PolledShort(reg, |q|);
    }
    assert reg'.waitingQueue == [s];
    assert SysInv(sys.(reg := reg'));
  }

  lemma JoinKeepsInv(sys: System, s: SessionId, name: Option<string>, roomId: RoomId)
    requires SysInv(sys) && s in sys.open
    requires roomId !in sys.reg.activeRooms
    ensures SysInv(JoinStep(sys, s, name, roomId).sys)
  {
    var rawName := name.GetOr(DEFAULT_JOIN_NAME);
    if NameMatches(rawName) && s !in sys.userNames {
      MatchUserKeepsInv(sys.(userNames := sys.userNames[s := rawName]), s, roomId);
    }
  }

  lemma ChatKeepsInv(sys: System, s: SessionId, payload: string)
    requires SysInv(sys)
    ensures SysInv(ChatStep(sys, s, payload).sys)
  {
    CloseConnKeepsInv(Step(sys, []), s, PolicyViolation);
  }

  /** Handling a frame from an open session keeps the invariant. */
  lemma HandleTextKeepsInv(sys: System, s: SessionId, frame: Frame, now: int, roomId: RoomId)
    requires SysInv(sys) && s in sys.open
    requires roomId !in sys.reg.activeRooms
    ensures SysInv(HandleText(sys, s, frame, now, roomId).sys)
  {
    var (ok, buckets') := LimiterConsume(sys.buckets, s, now);
    var sys1 := sys.(buckets := buckets');
    assert SysInv(sys1);
    if ok {
      match frame
      case Malformed => CloseConnKeepsInv(Step(sys1, []), s, BadData);
      case Ping =>
      case Join(name) => JoinKeepsInv(sys1, s, name, roomId);
      case Other(payload) => ChatKeepsInv(sys1, s, payload);
    }
  }

  /** The cleanup after a close keeps the invariant. */
  lemma AfterClosedKeepsInv(sys: System, s: SessionId)
    requires SysInv(sys)
    ensures SysInv(AfterClosed(sys, s).sys)
  {
    var sys1 := Forgotten(sys, s);
    var (reg', partner) := Remove(sys1.reg, s);
    RemovePreservesInv(sys1.reg, s);
    RemoveForgets(sys1.reg, s);
    if s in sys.reg.sessionRoomMap {
      RemoveMember(sys1.reg, s);
    }
    var sys2 := sys1.(reg := reg');
    forall rid | rid in reg'.activeRooms
      ensures reg'.activeRooms[rid].session1 != reg'.activeRooms[rid].session2
    {
      assert reg'.activeRooms[rid] == sys.reg.activeRooms[rid];
    }
    assert SysInv(sys2);
    if partner.Some? && partner.value in sys2.open {
      CloseConnKeepsInv(Emit(Step(sys2, []), partner.value, PartnerDisconnected), partner.value, Normal);
    }
  }

  lemma ZombieKeepsInv(sys: System, s: SessionId)
    requires SysInv(sys)
    ensures SysInv(Zombie(sys, s).sys)
  {
    CloseConnKeepsInv(Step(sys, []), s, PolicyViolation);
  }

  /** Opening a session never seen before keeps the invariant. */
  lemma EstablishedKeepsInv(sys: System, s: SessionId)
    requires SysInv(sys)
    requires s !in sys.open && s !in sys.closed
    ensures SysInv(Established(sys, s))
  {
    assert s !in Elems(sys.reg.waitingQueue);
  }

  // ---------------------------------------------------------------------------
  // No message to a closed session
  // ---------------------------------------------------------------------------

  /** The open sessions after performing `acts` from `open`. */
  function OpenAfter(open: set<SessionId>, acts: seq<Action>): set<SessionId>
    decreases |acts|
  {
    if acts == [] then open
    else
      var before := OpenAfter(open, acts[..|acts| - 1]);
      match acts[|acts| - 1]
      case Send(_, _) => before
      case Close(t, _) => before - {t}
  }

  /** Every action targets a session that is open when the action is performed. */
  predicate Delivered(open: set<SessionId>, acts: seq<Action>)
    decreases |acts|
  {
    acts == [] ||
    (Delivered(open, acts[..|acts| - 1]) && acts[|acts| - 1].to in OpenAfter(open, acts[..|acts| - 1]))
  }

  /** The step's actions were all performed on open sessions, and its open set is what they leave. */
  predicate Traced(open: set<SessionId>, st: Step) {
    Delivered(open, st.acts) && st.sys.open == OpenAfter(open, st.acts)
  }

  lemma AppendTraced(open: set<SessionId>, st: Step, a: Action, st': Step)
    requires Traced(open, st)
    requires a.to in st.sys.open
    requires st'.acts == st.acts + [a]
    requires st'.sys.open == if a.Close? then st.sys.open - {a.to} else st.sys.open
    ensures Traced(open, st')
  {
    assert st'.acts[..|st'.acts| - 1] == st.acts;
  }

  lemma EmitTraced(open: set<SessionId>, st: Step, to: SessionId, msg: OutMsg)
    requires Traced(open, st)
    ensures Traced(open, Emit(st, to, msg))
  {
    if to in st.sys.open {
      AppendTraced(open, st, Send(to, msg), Emit(st, to, msg));
    }
  }

  /**
   * `matchUser` writes to open sessions only, and to no one but the joining session and
   * its partner; it closes only the joining session, and only after writing to it.
   */
  lemma MatchUserTraced(sys: System, s: SessionId, roomId: RoomId)
    requires s in sys.open
    ensures Traced(sys.open, MatchStep(sys, s, roomId))
    ensures var r := Match(sys.reg, s, sys.open, roomId).1;
      forall a :: a in MatchStep(sys, s, roomId).acts ==> a.to == s || Some(a.to) == r.partner
    ensures var acts := MatchStep(sys, s, roomId).acts;
      forall a :: a in acts && a.Close? ==> a.to == s && acts[0].Send? && acts[0].to == s
  {
    var (reg', r) := Match(sys.reg, s, sys.open, roomId);
    MatchUserTargets(sys, s, roomId);
    var st := Step(sys.(reg := reg'), []);
    assert Traced(sys.open, st);
    match r.kind
    case Matched =>
      var p := r.partner.value;
      EmitTraced(sys.open, st, p, MatchedMsg(Initiator, NameOr(sys.userNames, s, ANONYMOUS)));
      EmitTraced(sys.open, Emit(st, p, MatchedMsg(Initiator, NameOr(sys.userNames, s, ANONYMOUS))),
                 s, MatchedMsg(Peer, NameOr(sys.userNames, p, ANONYMOUS)));
    case Waiting => EmitTraced(sys.open, st, s, WaitingMsg);
    case QueueFull =>
      EmitTraced(sys.open, st, s, ErrorMsg(QUEUE_FULL_TEXT));
      var st1 := Emit(st, s, ErrorMsg(QUEUE_FULL_TEXT));
      AppendTraced(sys.open, st1, Close(s, ServerError), CloseConn(st1, s, ServerError));
    case Error =>
      EmitTraced(sys.open, st, s, ErrorMsg(SYSTEM_ERROR_TEXT));
      var st1 := Emit(st, s, ErrorMsg(SYSTEM_ERROR_TEXT));
      AppendTraced(sys.open, st1, Close(s, ServerError), CloseConn(st1, s, ServerError));
  }

  lemma MatchUserTargets(sys: System, s: SessionId, roomId: RoomId)
    requires s in sys.open
    ensures var r := Match(sys.reg, s, sys.open, roomId).1;
      forall a :: a in MatchStep(sys, s, roomId).acts ==> a.to == s || Some(a.to) == r.partner
    ensures var acts := MatchStep(sys, s, roomId).acts;
      forall a :: a in acts && a.Close? ==> a.to == s && acts[0].Send? && acts[0].to == s
  {
    MatchUserOutcomes(sys, s, roomId);
  }

  /** Handling a frame from an open session never writes to or closes a closed session. */
  lemma HandleTextTraced(sys: System, s: SessionId, frame: Frame, now: int, roomId: RoomId)
    requires s in sys.open
    ensures Traced(sys.open, HandleText(sys, s, frame, now, roomId))
  {
    var (ok, buckets') := LimiterConsume(sys.buckets, s, now);
    var sys1 := sys.(buckets := buckets');
    var st := Step(sys1, []);
    assert Traced(sys.open, st);
    if ok {
      match frame
      case Malformed => AppendTraced(sys.open, st, Close(s, BadData), CloseConn(st, s, BadData));
      case Ping => AppendTraced(sys.open, st, Send(s, Pong), Deliver(st, s, Pong));
      case Join(name) =>
        var rawName := name.GetOr(DEFAULT_JOIN_NAME);
        if !NameMatches(rawName) {
          EmitTraced(sys.open, st, s, ErrorMsg(INVALID_NAME));
        } else if s !in sys1.userNames {
          MatchUserTraced(sys1.(userNames := sys1.userNames[s := rawName]), s, roomId);
        }
      case Other(payload) =>
        var partner := PartnerOf(sys1.reg, s);
        if s !in sys1.userNames {
          AppendTraced(sys.open, st, Close(s, PolicyViolation), CloseConn(st, s, PolicyViolation));
        } else if partner.Some? && partner.value in sys1.open {
          AppendTraced(sys.open, st, Send(partner.value, Relay(payload)), Deliver(st, partner.value, Relay(payload)));
        } else {
          EmitTraced(sys.open, st, s, ErrorMsg(NO_PARTNER));
        }
    }
  }

  /** The cleanup after a close writes to and closes only the partner it got back, while it is open. */
  lemma AfterClosedTraced(sys: System, s: SessionId)
    ensures Traced(sys.open - {s}, AfterClosed(sys, s))
    ensures forall a :: a in AfterClosed(sys, s).acts ==> Some(a.to) == Remove(Forgotten(sys, s).reg, s).1
  {
    var sys1 := Forgotten(sys, s);
    var (reg', partner) := Remove(sys1.reg, s);
    var st := Step(sys1.(reg := reg'), []);
    assert Traced(sys.open - {s}, st);
    if partner.Some? && partner.value in st.sys.open {
      var p := partner.value;
      EmitTraced(sys.open - {s}, st, p, PartnerDisconnected);
      AppendTraced(sys.open - {s}, Emit(st, p, PartnerDisconnected), Close(p, Normal),
                   CloseConn(Emit(st, p, PartnerDisconnected), p, Normal));
    }
  }

  lemma ZombieTraced(sys: System, s: SessionId)
    ensures Traced(sys.open, Zombie(sys, s))
  {
    var st := Step(sys, []);
    assert Traced(sys.open, st);
    if s in sys.open && s !in sys.userNames {
      AppendTraced(sys.open, st, Close(s, PolicyViolation), CloseConn(st, s, PolicyViolation));
    }
  }

  // ---------------------------------------------------------------------------
  // What each frame does
  // ---------------------------------------------------------------------------

  /** A frame the rate limiter refuses is dropped: no action, no change, not even to the bucket. */
  lemma RejectedFrameIsDropped(sys: System, s: SessionId, frame: Frame, now: int, roomId: RoomId)
    requires !LimiterConsume(sys.buckets, s, now).0
    ensures HandleText(sys, s, frame, now, roomId) == Step(sys, [])
  {
    LimiterRejectChangesNothing(sys.buckets, s, now);
  }

  /**
   * Once admitted: PING gets exactly one PONG and a malformed frame closes the session
   * with BAD_DATA, and neither touches anything but the bucket.
   */
  lemma PingAndMalformed(sys: System, s: SessionId, now: int, roomId: RoomId)
    requires LimiterConsume(sys.buckets, s, now).0
    ensures var sys1 := sys.(buckets := LimiterConsume(sys.buckets, s, now).1);
      && HandleText(sys, s, Ping, now, roomId) == Step(sys1, [Send(s, Pong)])
      && HandleText(sys, s, Malformed, now, roomId).acts == [Close(s, BadData)]
      && HandleText(sys, s, Malformed, now, roomId).sys.userNames == sys.userNames
      && HandleText(sys, s, Malformed, now, roomId).sys.reg == sys.reg
  {
  }

  /** An invalid name gets exactly one ERROR; no name is bound and the room service is not asked. */
  lemma InvalidNameIsRejected(sys: System, s: SessionId, name: Option<string>, roomId: RoomId)
    requires s in sys.open
    requires !ValidName(name.GetOr(DEFAULT_JOIN_NAME))
    ensures JoinStep(sys, s, name, roomId) == Step(sys, [Send(s, ErrorMsg(INVALID_NAME))])
  {
    NameMatchesIffValid(name.GetOr(DEFAULT_JOIN_NAME));
  }

  /** A second valid JOIN from a named session is a no-op: the first name stays and nothing is matched. */
  lemma SecondJoinIsNoOp(sys: System, s: SessionId, name: Option<string>, roomId: RoomId)
    requires s in sys.userNames
    requires ValidName(name.GetOr(DEFAULT_JOIN_NAME))
    ensures JoinStep(sys, s, name, roomId) == Step(sys, [])
  {
    NameMatchesIffValid(name.GetOr(DEFAULT_JOIN_NAME));
  }

  /**
   * Chat routing: a nameless session is closed with POLICY_VIOLATION; a named one with
   * an open partner has its frame passed on unchanged to that partner; otherwise the
   * sender gets an ERROR and stays open. Nothing else changes.
   */
  lemma ChatRouting(sys: System, s: SessionId, payload: string)
    requires s in sys.open
    ensures var st := ChatStep(sys, s, payload);
      var partner := PartnerOf(sys.reg, s);
      if s !in sys.userNames then
        st.acts == [Close(s, PolicyViolation)] && s !in st.sys.open
      else if partner.Some? && partner.value in sys.open then
        st == Step(sys, [Send(partner.value, Relay(payload))])
      else
        st == Step(sys, [Send(s, ErrorMsg(NO_PARTNER))])
  {
  }

  /**
   * The outcome of a first JOIN, for every result of `matchOrEnqueue`: on MATCHED the
   * waiting partner hears INITIATOR with the joiner's name and the joiner hears PEER
   * with the partner's name; on WAITING the joiner hears WAITING; on QUEUE_FULL and
   * ERROR the joiner hears an ERROR and is closed with SERVER_ERROR.
   */
  lemma MatchUserOutcomes(sys: System, s: SessionId, roomId: RoomId)
    requires s in sys.open
    ensures var r := Match(sys.reg, s, sys.open, roomId).1;
      var acts := MatchStep(sys, s, roomId).acts;
      match r.kind
      case Matched =>
        acts == [Send(r.partner.value, MatchedMsg(Initiator, NameOr(sys.userNames, s, ANONYMOUS))),
                 Send(s, MatchedMsg(Peer, NameOr(sys.userNames, r.partner.value, ANONYMOUS)))]
      case Waiting => acts == [Send(s, WaitingMsg)]
      case QueueFull => acts == [Send(s, ErrorMsg(QUEUE_FULL_TEXT)), Close(s, ServerError)]
      case Error => acts == [Send(s, ErrorMsg(SYSTEM_ERROR_TEXT)), Close(s, ServerError)]
  {
  }

  /**
   * In the running engine a first JOIN with a valid name binds the name and ends in
   * WAITING or in a match with a different, open session that was waiting; the two
   * announcements carry each other's names.
   */
  lemma FirstJoinMatchesOrWaits(sys: System, s: SessionId, name: string, roomId: RoomId)
    requires SysInv(sys) && s in sys.open && s !in sys.userNames
    requires roomId !in sys.reg.activeRooms
    requires ValidName(name)
    ensures var st := JoinStep(sys, s, Some(name), roomId);
      && st.sys.userNames == sys.userNames[s := name]
      && (st.acts == [Send(s, WaitingMsg)] ||
          exists p :: p != s && p in sys.open && p in sys.userNames &&
            PartnerOf(st.sys.reg, s) == Some(p) && PartnerOf(st.sys.reg, p) == Some(s) &&
            st.acts == [Send(p, MatchedMsg(Initiator, name)), Send(s, MatchedMsg(Peer, sys.userNames[p]))])
  {
    NameMatchesIffValid(name);
    var sys1 := sys.(userNames := sys.userNames[s := name]);
    assert s !in sys.reg.queuedSessionIds && s !in sys.reg.sessionRoomMap;
    assert JoinStep(sys, s, Some(name), roomId) == MatchStep(sys1, s, roomId);
    MatchUserKeepsInv(sys1, s, roomId);
    MatchUserOutcomes(sys1, s, roomId);
    var r := Match(sys.reg, s, sys.open, roomId).1;
    if r.kind == Matched {
      MatchedWaiterIsNamed(sys, s, roomId);
      assert r.partner.value != s;
    }
  }

  /** The waiter a first JOIN is matched with has a name, and the two are each other's partners. */
  lemma MatchedWaiterIsNamed(sys: System, s: SessionId, roomId: RoomId)
    requires SysInv(sys)
    requires s !in sys.reg.queuedSessionIds && s !in sys.reg.sessionRoomMap
    requires Match(sys.reg, s, sys.open, roomId).1.kind == Matched
    ensures var (reg', r) := Match(sys.reg, s, sys.open, roomId);
      && r.partner.value in sys.userNames
      && PartnerOf(reg', s) == r.partner && PartnerOf(reg', r.partner.value) == Some(s)
  {
    var p := Match(sys.reg, s, sys.open, roomId).1.partner.value;
    MatchPairsBothWays(sys.reg, s, sys.open, roomId);
    MatchServesFirstOpenEntry(sys.reg, s, sys.open, roomId);
    assert p in sys.reg.waitingQueue && p in sys.open;
    assert p in sys.reg.queuedSessionIds;
  }

  /**
   * Closing a paired session: its bucket and name go, and an open partner hears
   * PARTNER_DISCONNECTED and is then closed NORMAL.
   */
  lemma AfterClosedNotifiesPartner(sys: System, s: SessionId)
    requires SysInv(sys)
    requires PartnerOf(sys.reg, s).Some?
    requires PartnerOf(sys.reg, s).value in sys.open
    ensures var p := PartnerOf(sys.reg, s).value;
      var st := AfterClosed(sys, s);
      && p != s
      && st.acts == [Send(p, PartnerDisconnected), Close(p, Normal)]
      && s !in st.sys.buckets && s !in st.sys.userNames
      && PartnerOf(st.sys.reg, s) == None && PartnerOf(st.sys.reg, p) == None
  {
    var p := PartnerOf(sys.reg, s).value;
    var rid := sys.reg.sessionRoomMap[s];
    assert s in sys.reg.activeRooms[rid].Members();
    RemoveMember(sys.reg, s);
  }

  /**
   * The partner's own close, which the transport reports next, notifies nobody: its
   * room mapping went with the first close.
   */
  lemma PartnerCloseIsSilent(sys: System, s: SessionId)
    requires SysInv(sys)
    requires PartnerOf(sys.reg, s).Some?
    ensures var p := PartnerOf(sys.reg, s).value;
      AfterClosed(AfterClosed(sys, s).sys, p).acts == []
  {
    var p := PartnerOf(sys.reg, s).value;
    var rid := sys.reg.sessionRoomMap[s];
    assert s in sys.reg.activeRooms[rid].Members();
    RemoveMember(sys.reg, s);
    assert p in sys.reg.sessionRoomMap;
    assert p !in sys.reg.queuedSessionIds;
  }

  /** Cleaning up twice is the same as once: no second notification, no further change. */
  lemma AfterClosedIsIdempotent(sys: System, s: SessionId)
    requires SysInv(sys)
    ensures var st := AfterClosed(sys, s);
      AfterClosed(st.sys, s) == Step(st.sys, [])
  {
    var sys1 := Forgotten(sys, s);
    RemoveForgets(sys1.reg, s);
    var st := AfterClosed(sys, s);
    assert st.sys.reg == Remove(sys1.reg, s).0;
    assert Forgotten(st.sys, s) == st.sys;
    assert Remove(st.sys.reg, s) == (st.sys.reg, None);
  }

  /** The zombie timer closes a session with POLICY_VIOLATION exactly when it is open and nameless. */
  lemma ZombieClosesOnlyNameless(sys: System, s: SessionId)
    ensures Zombie(sys, s).acts ==
      if s in sys.open && s !in sys.userNames then [Close(s, PolicyViolation)] else []
    ensures s in sys.userNames ==> Zombie(sys, s) == Step(sys, [])
  {
  }

  /**
   * Two strangers: "a" joins as Alice and waits; "b" joins as Bob and is paired with
   * her, each hearing the other's name; Alice's chat frame reaches Bob unchanged; when
   * Bob's connection closes, Alice is told and closed.
   */
  lemma TwoStrangersMeet(now: int)
    ensures var sys0 := Established(Established(InitialSystem(), "a"), "b");
      var st1 := HandleText(sys0, "a", Join(Some("Alice")), now, "r1");
      var st2 := HandleText(st1.sys, "b", Join(Some("Bob")), now, "r1");
      var st3 := HandleText(st2.sys, "a", Other("hi"), now, "r2");
      var st4 := AfterClosed(st3.sys, "b");
      && st1.acts == [Send("a", WaitingMsg)]
      && st2.acts == [Send("a", MatchedMsg(Initiator, "Bob")), Send("b", MatchedMsg(Peer, "Alice"))]
      && st3.acts == [Send("b", Relay("hi"))]
      && st4.acts == [Send("a", PartnerDisconnected), Close("a", Normal)]
      && st4.sys.open == {}
  {
    var sys0 := Established(Established(InitialSystem(), "a"), "b");
    assert sys0 == System(Initial(), map[], map[], {"a", "b"}, {});
    AliceWaits(now);
    BobMeetsAlice(now);
    AliceSaysHi(now);
    BobLeaves(now);
  }

  function AliceWaiting(now: int): System {
    System(Registry(["a"], 1, {"a"}, map[], map[]), map["a" := Bucket(4, now)],
           map["a" := "Alice"], {"a", "b"}, {})
  }

  function Paired(now: int): System {
    System(Registry([], 0, {}, map["r1" := Room("r1", "b", "a")], map["b" := "r1", "a" := "r1"]),
           map["a" := Bucket(4, now), "b" := Bucket(4, now)],
           map["a" := "Alice", "b" := "Bob"], {"a", "b"}, {})
  }

  lemma AliceWaits(now: int)
    ensures HandleText(System(Initial(), map[], map[], {"a", "b"}, {}), "a", Join(Some("Alice")), now, "r1")
      == Step(AliceWaiting(now), [Send("a", WaitingMsg)])
  {
    NameMatchesIffValid("Alice");
    assert LimiterConsume(map[], "a", now) == (true, map["a" := Bucket(4, now)]);
    FirstJoinerWaits("a", {"a", "b"}, "r1");
  }

  lemma BobMeetsAlice(now: int)
    ensures HandleText(AliceWaiting(now), "b", Join(Some("Bob")), now, "r1")
      == Step(Paired(now), [Send("a", MatchedMsg(Initiator, "Bob")), Send("b", MatchedMsg(Peer, "Alice"))])
  {
    BobAdmitted(now);
    var sys1 := AliceWaiting(now).(buckets := Paired(now).buckets);
    assert HandleText(AliceWaiting(now), "b", Join(Some("Bob")), now, "r1") == DispatchStep(sys1, "b", Join(Some("Bob")), "r1");
    assert DispatchStep(sys1, "b", Join(Some("Bob")), "r1") == JoinStep(sys1, "b", Some("Bob"), "r1");
    BobJoins(now);
    BobPaired(now);
  }

  lemma BobJoins(now: int)
    ensures var sys1 := AliceWaiting(now).(buckets := Paired(now).buckets);
      JoinStep(sys1, "b", Some("Bob"), "r1") == MatchStep(sys1.(userNames := Paired(now).userNames), "b", "r1")
  {
    NameMatchesIffValid("Bob");
    assert AliceWaiting(now).userNames["b" := "Bob"] == Paired(now).userNames;
  }

  lemma BobAdmitted(now: int)
    ensures LimiterConsume(AliceWaiting(now).buckets, "b", now) == (true, Paired(now).buckets)
  {
    assert "b" !in AliceWaiting(now).buckets;
  }

  lemma BobPaired(now: int)
    ensures MatchStep(AliceWaiting(now).(buckets := Paired(now).buckets).(userNames := Paired(now).userNames), "b", "r1")
      == Step(Paired(now), [Send("a", MatchedMsg(Initiator, "Bob")), Send("b", MatchedMsg(Peer, "Alice"))])
  {
    SecondJoinerMatches("a", "b", {"a", "b"}, "r1");
  }

  lemma AliceSaysHi(now: int)
    ensures HandleText(Paired(now), "a", Other("hi"), now, "r2")
      == Step(Paired(now).(buckets := map["a" := Bucket(3, now), "b" := Bucket(4, now)]), [Send("b", Relay("hi"))])
  {
    assert Consume(Bucket(4, now), now) == (true, Bucket(3, now));
    assert Paired(now).buckets["a" := Bucket(3, now)] == map["a" := Bucket(3, now), "b" := Bucket(4, now)];
    assert LimiterConsume(Paired(now).buckets, "a", now) == (true, map["a" := Bucket(3, now), "b" := Bucket(4, now)]);
    assert PartnerOf(Paired(now).reg, "a") == Some("b");
  }

  lemma BobLeaves(now: int)
    ensures var sys := Paired(now).(buckets := map["a" := Bucket(3, now), "b" := Bucket(4, now)]);
      AfterClosed(sys, "b") == Step(
        System(Registry([], 0, {}, map[], map[]), map["a" := Bucket(3, now)], map["a" := "Alice"], {}, {"b", "a"}),
        [Send("a", PartnerDisconnected), Close("a", Normal)])
  {
    var reg := Paired(now).reg;
    assert Remove(reg, "b") == (Registry([], 0, {}, map[], map[]), Some("a"));
    assert map["a" := Bucket(3, now), "b" := Bucket(4, now)] - {"b"} == map["a" := Bucket(3, now)];
    assert map["a" := "Alice", "b" := "Bob"] - {"b"} == map["a" := "Alice"];
  }

  // ---------------------------------------------------------------------------
  // The handler object
  // ---------------------------------------------------------------------------

  class ChatWebSocketHandler {
    const roomService: RoomService
    const rateLimiter: RateLimiter
    var userNames: map<SessionId, string>
    var open: set<SessionId>
    var closed: set<SessionId>

    ghost function Model(): System
      reads this, roomService, rateLimiter
    {
      System(roomService.Model(), rateLimiter.Model, userNames, open, closed)
    }

    ghost predicate Valid()
      reads this, roomService, rateLimiter, rateLimiter.buckets.Values
    {
      rateLimiter.Valid() && SysInv(Model())
    }

    constructor (roomService: RoomService, rateLimiter: RateLimiter)
      requires roomService.Model() == Initial()
      requires rateLimiter.Valid() && rateLimiter.Model == map[]
      ensures this.roomService == roomService && this.rateLimiter == rateLimiter
      ensures Valid() && Model() == InitialSystem()
    {
      this.roomService := roomService;
      this.rateLimiter := rateLimiter;
      userNames := map[];
      open, closed := {}, {};
      new;
      InitialSysInv();
    }

    /** `sendJson`: the message is written only if the session is open. */
    method SendJson(to: SessionId, msg: OutMsg) returns (a: seq<Action>)
      ensures Step(Model(), a) == Emit(Step(Model(), []), to, msg)
    {
      a := if to in open then [Send(to, msg)] else [];
    }

    /** `session.close(status)`. */
    method CloseSession(to: SessionId, status: CloseStatus) returns (a: seq<Action>)
      modifies this
      ensures open == old(open) - {to} && closed == old(closed) + {to}
      ensures userNames == old(userNames)
      ensures a == [Close(to, status)]
    {
      open, closed := open - {to}, closed + {to};
      a := [Close(to, status)];
    }

    /** The transport has opened a new session. */
    method AfterConnectionEstablished(s: SessionId)
      requires Valid()
      requires s !in open && s !in closed
      modifies this
      ensures Valid()
      ensures Model() == Established(old(Model()), s)
    {
      open := open + {s};
      EstablishedKeepsInv(old(Model()), s);
    }

    /** The zombie timer for `s` has fired. */
    method ZombieCheck(s: SessionId) returns (acts: seq<Action>)
      requires Valid()
      modifies this
      ensures Valid()
      ensures Step(Model(), acts) == Zombie(old(Model()), s)
    {
      acts := [];
      if s in open && s !in userNames {
        acts := CloseSession(s, PolicyViolation);
      }
      ZombieKeepsInv(old(Model()), s);
    }

    method HandleTextMessage(s: SessionId, frame: Frame, now: int, roomId: RoomId) returns (acts: seq<Action>)
      requires Valid()
      requires s in open
      requires roomId !in roomService.activeRooms
      modifies this, roomService, rateLimiter, rateLimiter.buckets.Values
      ensures Valid()
      ensures Step(Model(), acts) == HandleText(old(Model()), s, frame, now, roomId)
    {
      ghost var sys := Model();
      var ok := rateLimiter.TryConsume(s, now);
      ghost var sys1 := Model();
      assert sys1 == sys.(buckets := LimiterConsume(sys.buckets, s, now).1);
      HandleTextKeepsInv(sys, s, frame, now, roomId);
      if !ok {
        return [];
      }
      acts := Dispatch(s, frame, roomId);
    }

    method Dispatch(s: SessionId, frame: Frame, roomId: RoomId) returns (acts: seq<Action>)
      modifies this, roomService
      ensures Step(Model(), acts) == DispatchStep(old(Model()), s, frame, roomId)
    {
      match frame
      case Malformed =>
        acts := CloseSession(s, BadData);
      case Ping =>
        acts := [Send(s, Pong)];
      case Join(name) =>
        acts := HandleJoin(s, name, roomId);
      case Other(payload) =>
        acts := HandleChat(s, payload);
    }

    method HandleJoin(s: SessionId, name: Option<string>, roomId: RoomId) returns (acts: seq<Action>)
      modifies this, roomService
      ensures Step(Model(), acts) == JoinStep(old(Model()), s, name, roomId)
    {
      var rawName := name.GetOr(DEFAULT_JOIN_NAME);
      if !NameMatches(rawName) {
        acts := SendJson(s, ErrorMsg(INVALID_NAME));
        return;
      }
      if s in userNames {
        return [];
      }
      userNames := userNames[s := rawName];
      acts := MatchUser(s, roomId);
    }

    method HandleChat(s: SessionId, payload: string) returns (acts: seq<Action>)
      modifies this
      ensures Step(Model(), acts) == ChatStep(old(Model()), s, payload)
    {
      if s !in userNames {
        acts := CloseSession(s, PolicyViolation);
        return;
      }
      var partner := roomService.GetPartner(s);
      if partner.Some? && partner.value in open {
        acts := [Send(partner.value, Relay(payload))];
      } else {
        acts := SendJson(s, ErrorMsg(NO_PARTNER));
      }
    }

    method MatchUser(s: SessionId, roomId: RoomId) returns (acts: seq<Action>)
      modifies this, roomService
      ensures Step(Model(), acts) == MatchStep(old(Model()), s, roomId)
    {
      var result := roomService.MatchOrEnqueue(s, open, roomId);
      acts := Announce(s, result);
    }

    method Announce(s: SessionId, result: MatchResult) returns (acts: seq<Action>)
      requires result.kind == Matched ==> result.partner.Some?
      modifies this
      ensures Step(Model(), acts) == AnnounceStep(old(Model()), s, result)
    {
      match result.kind
      case Matched =>
        var partner := result.partner.value;
        var myName := NameOr(userNames, s, ANONYMOUS);
        var partnerName := NameOr(userNames, partner, ANONYMOUS);
        var a1 := SendJson(partner, MatchedMsg(Initiator, myName));
        var a2 := SendJson(s, MatchedMsg(Peer, partnerName));
        acts := a1 + a2;
      case Waiting =>
        acts := SendJson(s, WaitingMsg);
      case QueueFull =>
        var a1 := SendJson(s, ErrorMsg(QUEUE_FULL_TEXT));
        var a2 := CloseSession(s, ServerError);
        acts := a1 + a2;
      case Error =>
        var a1 := SendJson(s, ErrorMsg(SYSTEM_ERROR_TEXT));
        var a2 := CloseSession(s, ServerError);
        acts := a1 + a2;
    }

    /** The transport reports that `s` is closed. */
    method AfterConnectionClosed(s: SessionId) returns (acts: seq<Action>)
      requires Valid()
      modifies this, roomService, rateLimiter
      ensures Valid()
      ensures Step(Model(), acts) == AfterClosed(old(Model()), s)
    {
      ghost var sys := Model();
      Forget(s);
      var partner := roomService.RemoveAndGetPartner(s);
      assert Model() == Forgotten(sys, s).(reg := Remove(Forgotten(sys, s).reg, s).0);
      acts := NotifyPartner(partner);
      AfterClosedKeepsInv(sys, s);
    }

    method Forget(s: SessionId)
      requires rateLimiter.Valid()
      modifies this, rateLimiter
      ensures rateLimiter.Valid()
      ensures Model() == Forgotten(old(Model()), s)
    {
      open, closed := open - {s}, closed + {s};
      rateLimiter.RemoveSession(s);
      userNames := userNames - {s};
    }

    method NotifyPartner(partner: Option<SessionId>) returns (acts: seq<Action>)
      modifies this
      ensures Step(Model(), acts) == NotifyStep(old(Model()), partner)
    {
      acts := [];
      if partner.Some? && partner.value in open {
        var a1 := SendJson(partner.value, PartnerDisconnected);
        var a2 := CloseSession(partner.value, Normal);
        acts := a1 + a2;
      }
    }
  }
}
