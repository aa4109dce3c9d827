/**
 * The matchmaking queue and room registry of service/RoomService.java.
 *
 * The service keeps five pieces of state: the FIFO `waitingQueue` of sessions, the counter
 * `queueSize`, the set `queuedSessionIds` of sessions still waiting, and the two maps
 * `activeRooms` (room id to room) and `sessionRoomMap` (session id to room id).
 * `Registry` is that state as a value; the functions `Match`, `PartnerOf` and `Remove`
 * specify the three public operations, and the class `RoomService` implements them on
 * fields, proved equal to the functions.
 */
module RoomServices {
  import opened Wrappers
  import opened RoomModel

  /** The capacity bound checked before a session is enqueued. */
  const MAX_QUEUE_SIZE: int := 5000

  datatype MatchType = Waiting | Matched | Error | QueueFull

  /** What `matchOrEnqueue` returns: the outcome, and the partner when it is `Matched`. */
  datatype MatchResult = MatchResult(kind: MatchType, partner: Option<SessionId>)

  datatype Registry = Registry(
    waitingQueue: seq<SessionId>,
    queueSize: int,
    queuedSessionIds: set<SessionId>,
    activeRooms: map<RoomId, Room>,
    sessionRoomMap: map<SessionId, RoomId>)

  /** The state of a freshly constructed service. */
  function Initial(): Registry {
    Registry([], 0, {}, map[], map[])
  }

  function Elems(q: seq<SessionId>): set<SessionId> {
    set x | x in q
  }

  // ---------------------------------------------------------------------------
  // The invariant
  // ---------------------------------------------------------------------------

  /** Every session mapped to a room id finds that room, and is one of its members. */
  ghost predicate SessionsFindTheirRoom(reg: Registry) {
    forall s :: s in reg.sessionRoomMap ==>
      reg.sessionRoomMap[s] in reg.activeRooms && s in reg.activeRooms[reg.sessionRoomMap[s]].Members()
  }

  /** Every stored room is filed under its own id, and both its members map back to it. */
  ghost predicate RoomsMapBothMembers(reg: Registry) {
    forall rid :: rid in reg.activeRooms ==>
      var room := reg.activeRooms[rid];
      && room.roomId == rid
      && room.session1 in reg.sessionRoomMap && reg.sessionRoomMap[room.session1] == rid
      && room.session2 in reg.sessionRoomMap && reg.sessionRoomMap[room.session2] == rid
  }

  /**
   * What holds between calls when each call runs as one atomic step:
   * the counter equals the length of the queue; the queue holds at most one entry
   * (a call either drains it or pops the one live waiter); every id in
   * `queuedSessionIds` is in the queue; no queue entry and no queued id is in a room;
   * and the two maps agree with each other.
   */
  ghost predicate Inv(reg: Registry) {
    && reg.queueSize == |reg.waitingQueue|
    && |reg.waitingQueue| <= 1
    && reg.queuedSessionIds <= Elems(reg.waitingQueue)
    && (forall x :: x in reg.waitingQueue ==> x !in reg.sessionRoomMap)
    && reg.queuedSessionIds !! reg.sessionRoomMap.Keys
    && SessionsFindTheirRoom(reg)
    && RoomsMapBothMembers(reg)
  }

  lemma InitialInv()
    ensures Inv(Initial())
  {
  }

  // ---------------------------------------------------------------------------
  // matchOrEnqueue
  // ---------------------------------------------------------------------------

  /**
   * The number of entries the poll loop discards before it meets an open one:
   * the index of the first open entry of `q`, or `|q|` when none is open.
   */
  function FirstOpen(q: seq<SessionId>, open: set<SessionId>): (k: nat)
    ensures k <= |q|
    ensures forall i :: 0 <= i < k ==> q[i] !in open
    ensures k < |q| ==> q[k] in open
  {
    if q == [] then 0
    else if q[0] in open then 0
    else 1 + FirstOpen(q[1..], open)
  }

  /**
   * `createRoom`: store a new room under `roomId` and map both sessions to it. Each
   * session then has the other as its partner, and the queue is left alone.
   */
  function AddRoom(reg: Registry, roomId: RoomId, s1: SessionId, s2: SessionId): (reg': Registry)
    ensures PartnerOf(reg', s1) == Some(s2) && PartnerOf(reg', s2) == Some(s1)
    ensures reg'.waitingQueue == reg.waitingQueue && reg'.queueSize == reg.queueSize
    ensures reg'.queuedSessionIds == reg.queuedSessionIds
  {
    reg.(activeRooms := reg.activeRooms[roomId := Room(roomId, s1, s2)],
         sessionRoomMap := reg.sessionRoomMap[s1 := roomId][s2 := roomId])
  }

  /**
   * The state after the first `n` entries of the queue have been polled: they leave the
   * front of the queue and the queued set, the counter drops by one for each, and the
   * rooms are untouched.
   */
  function Polled(reg: Registry, n: nat): (reg': Registry)
    requires n <= |reg.waitingQueue|
    ensures reg.waitingQueue == reg.waitingQueue[..n] + reg'.waitingQueue
    ensures reg'.queueSize == reg.queueSize - n
    ensures reg'.queuedSessionIds <= reg.queuedSessionIds
    ensures reg'.activeRooms == reg.activeRooms && reg'.sessionRoomMap == reg.sessionRoomMap
  {
    reg.(waitingQueue := reg.waitingQueue[n..],
         queueSize := reg.queueSize - n,
         queuedSessionIds := reg.queuedSessionIds - Elems(reg.waitingQueue[..n]))
  }

  /**
   * `matchOrEnqueue(session)` with the openness of every session given as `open` and
   * the random room id given as `roomId`. A session already queued gets WAITING and a
   * session already in a room gets ERROR, both without any change. Otherwise closed
   * entries are polled and dropped until an open one is found, which becomes the
   * partner in a new room; when the queue runs dry, the session is enqueued unless
   * the counter has reached MAX_QUEUE_SIZE.
   */
  function Match(reg: Registry, s: SessionId, open: set<SessionId>, roomId: RoomId): (res: (Registry, MatchResult))
    ensures res.1.kind == Matched <==> res.1.partner.Some?
  {
    if s in reg.queuedSessionIds then (reg, MatchResult(Waiting, None))
    else if s in reg.sessionRoomMap then (reg, MatchResult(Error, None))
    else
      var q := reg.waitingQueue;
      var k := FirstOpen(q, open);
      if k < |q| then
        (AddRoom(Polled(reg, k + 1), roomId, s, q[k]), MatchResult(Matched, Some(q[k])))
      else
        var drained := Polled(reg, |q|);
        if drained.queueSize >= MAX_QUEUE_SIZE then (drained, MatchResult(QueueFull, None))
        else
          (drained.(waitingQueue := drained.waitingQueue + [s],
                    queueSize := drained.queueSize + 1,
                    queuedSessionIds := drained.queuedSessionIds + {s}),
           MatchResult(Waiting, None))
  }

  // ---------------------------------------------------------------------------
  // getPartner and removeAndGetPartner
  // ---------------------------------------------------------------------------

  /**
   * `getPartner(session)`: the other member of the session's room. There is none when
   * the session maps to no room id, or to an id with no room stored under it.
   */
  function PartnerOf(reg: Registry, s: SessionId): (p: Option<SessionId>)
    ensures p.Some? <==> s in reg.sessionRoomMap && reg.sessionRoomMap[s] in reg.activeRooms
    ensures p.Some? ==> p.value in reg.activeRooms[reg.sessionRoomMap[s]].Members()
  {
    if s !in reg.sessionRoomMap then None
    else
      var rid := reg.sessionRoomMap[s];
      if rid !in reg.activeRooms then None
      else Some(reg.activeRooms[rid].Other(s))
  }

  /**
   * `removeAndGetPartner(session)`. A queued session only leaves `queuedSessionIds`;
   * its queue entry stays and is dropped lazily by a later poll, and `queueSize` keeps
   * counting it. A room member takes its room down: the room and both session entries
   * go, and the other member is returned.
   */
  function Remove(reg: Registry, s: SessionId): (res: (Registry, Option<SessionId>))
    ensures s !in res.0.queuedSessionIds
    ensures s !in reg.queuedSessionIds ==> s !in res.0.sessionRoomMap
    ensures res.0.waitingQueue == reg.waitingQueue && res.0.queueSize == reg.queueSize
    ensures res.0.activeRooms.Keys <= reg.activeRooms.Keys
    ensures res.1.Some? ==> res.1 == PartnerOf(reg, s)
  {
    if s in reg.queuedSessionIds then
      (reg.(queuedSessionIds := reg.queuedSessionIds - {s}), None)
    else if s !in reg.sessionRoomMap then (reg, None)
    else
      var rid := reg.sessionRoomMap[s];
      var rest := reg.sessionRoomMap - {s};
      if rid !in reg.activeRooms then (reg.(sessionRoomMap := rest), None)
      else
        var p := reg.activeRooms[rid].Other(s);
        (reg.(activeRooms := reg.activeRooms - {rid}, sessionRoomMap := rest - {p}), Some(p))
  }

  // ---------------------------------------------------------------------------
  // Properties of matchOrEnqueue
  // ---------------------------------------------------------------------------

  /** The two guards: a queued session gets WAITING and a session in a room gets ERROR, and nothing changes. */
  lemma MatchGuards(reg: Registry, s: SessionId, open: set<SessionId>, roomId: RoomId)
    ensures s in reg.queuedSessionIds ==> Match(reg, s, open, roomId) == (reg, MatchResult(Waiting, None))
    ensures s !in reg.queuedSessionIds && s in reg.sessionRoomMap ==>
      Match(reg, s, open, roomId) == (reg, MatchResult(Error, None))
  {
  }

  /**
   * Lazy cleanup in FIFO order: every entry polled before the partner was closed and
   * left `queuedSessionIds`; the partner is the first open entry and is itself open;
   * the entries behind it stay queued in their order. When no entry was open, all were
   * dropped and the result is WAITING or QUEUE_FULL.
   */
  lemma MatchServesFirstOpenEntry(reg: Registry, s: SessionId, open: set<SessionId>, roomId: RoomId)
    requires s !in reg.queuedSessionIds && s !in reg.sessionRoomMap
    ensures var (reg', r) := Match(reg, s, open, roomId);
      var q := reg.waitingQueue;
      if r.kind == Matched then
        exists k :: 0 <= k < |q| && r.partner == Some(q[k]) && q[k] in open
          && (forall i :: 0 <= i < k ==> q[i] !in open)
          && reg'.waitingQueue == q[k + 1..]
          && reg'.queuedSessionIds == reg.queuedSessionIds - Elems(q[..k + 1])
      else
        && (forall i :: 0 <= i < |q| ==> q[i] !in open)
        && (r.kind == Waiting || r.kind == QueueFull)
        && reg'.queuedSessionIds - {s} == reg.queuedSessionIds - Elems(q)
        && reg'.waitingQueue == (if r.kind == Waiting then [s] else [])
  {
    var k := FirstOpen(reg.waitingQueue, open);
    if k < |reg.waitingQueue| {
      assert Match(reg, s, open, roomId).1.partner == Some(reg.waitingQueue[k]);
    } else {
      assert Polled(reg, k).waitingQueue == [];
    }
  }

  /** The counter moves in step with the queue: each poll takes one off, each offer adds one. */
  lemma MatchKeepsCounter(reg: Registry, s: SessionId, open: set<SessionId>, roomId: RoomId)
    requires reg.queueSize == |reg.waitingQueue|
    ensures Match(reg, s, open, roomId).0.queueSize == |Match(reg, s, open, roomId).0.waitingQueue|
  {
  }

  /**
   * QUEUE_FULL cannot happen: the poll loop only gives up on an empty queue, so the
   * capacity check reads a counter of 0.
   */
  lemma QueueFullUnreachable(reg: Registry, s: SessionId, open: set<SessionId>, roomId: RoomId)
    requires reg.queueSize == |reg.waitingQueue|
    ensures Match(reg, s, open, roomId).1.kind != QueueFull
  {
    var q := reg.waitingQueue;
    var k := FirstOpen(q, open);
    if s !in reg.queuedSessionIds && s !in reg.sessionRoomMap && k == |q| {
      assert Polled(reg, |q|).queueSize == 0;
    }
  }

  /**
   * A match stores the room under the new id and pairs the two sessions both ways:
   * each one's partner is the other, and the partner no longer counts as queued.
   */
  lemma MatchPairsBothWays(reg: Registry, s: SessionId, open: set<SessionId>, roomId: RoomId)
    requires Match(reg, s, open, roomId).1.kind == Matched
    ensures var (reg', r) := Match(reg, s, open, roomId);
      var p := r.partner.value;
      && reg'.activeRooms[roomId] == Room(roomId, s, p)
      && reg'.sessionRoomMap[s] == roomId && reg'.sessionRoomMap[p] == roomId
      && PartnerOf(reg', s) == Some(p)
      && PartnerOf(reg', p) == Some(s)
      && p !in reg'.queuedSessionIds
  {
    var q := reg.waitingQueue;
    var k := FirstOpen(q, open);
    assert q[..k + 1][k] == q[k];
    assert q[k] in Elems(q[..k + 1]);
  }

  /** Polling a prefix of a queue of at most one entry empties it (or leaves it as it was). */
  lemma PolledShort(reg: Registry, n: nat)
    requires Inv(reg) && 0 < n <= |reg.waitingQueue|
    ensures Polled(reg, n).waitingQueue == []
    ensures Polled(reg, n).queuedSessionIds == {}
    ensures Polled(reg, n).queueSize == 0
  {
    assert reg.waitingQueue[..n] == reg.waitingQueue;
  }

  /** `matchOrEnqueue` keeps the invariant, given a room id not yet in use. */
  lemma MatchPreservesInv(reg: Registry, s: SessionId, open: set<SessionId>, roomId: RoomId)
    requires Inv(reg)
    requires roomId !in reg.activeRooms
    ensures Inv(Match(reg, s, open, roomId).0)
  {
    var q := reg.waitingQueue;
    if s in reg.queuedSessionIds || s in reg.sessionRoomMap {
      return;
    }
    var k := FirstOpen(q, open);
    if k < |q| {
      PolledShort(reg, k + 1);
      var p := q[k];
      var polled := Polled(reg, k + 1);
      var reg' := AddRoom(polled, roomId, s, p);
      assert reg' == Match(reg, s, open, roomId).0;
      assert p !in reg.sessionRoomMap;
      forall t | t in reg'.sessionRoomMap
        ensures reg'.sessionRoomMap[t] in reg'.activeRooms
        ensures t in reg'.activeRooms[reg'.sessionRoomMap[t]].Members()
      {
        if t != s && t != p {
          assert reg.sessionRoomMap[t] != roomId;
        }
      }
      forall rid | rid in reg'.activeRooms
        ensures reg'.activeRooms[rid].roomId == rid
        ensures reg'.activeRooms[rid].session1 in reg'.sessionRoomMap
        ensures reg'.sessionRoomMap[reg'.activeRooms[rid].session1] == rid
        ensures reg'.activeRooms[rid].session2 in reg'.sessionRoomMap
        ensures reg'.sessionRoomMap[reg'.activeRooms[rid].session2] == rid
      {
        if rid != roomId {
          var room := reg.activeRooms[rid];
          assert room.session1 != s && room.session1 != p;
          assert room.session2 != s && room.session2 != p;
        }
      }
    } else if 0 < |q| {
      PolledShort(reg, |q|);
    }
  }

  // ---------------------------------------------------------------------------
  // Properties of getPartner and removeAndGetPartner
  // ---------------------------------------------------------------------------

  /** Pair symmetry: if `b` is the partner of `a`, then `a` is the partner of `b`. */
  lemma PartnerIsSymmetric(reg: Registry, a: SessionId, b: SessionId)
    requires Inv(reg)
    requires PartnerOf(reg, a) == Some(b)
    ensures PartnerOf(reg, b) == Some(a)
  {
    var rid := reg.sessionRoomMap[a];
    var room := reg.activeRooms[rid];
    assert a in room.Members();
    assert reg.sessionRoomMap[b] == rid;
  }

  /** A queued session leaves `queuedSessionIds` and nothing else changes; no partner is returned. */
  lemma RemoveQueued(reg: Registry, s: SessionId)
    requires s in reg.queuedSessionIds
    ensures Remove(reg, s) == (reg.(queuedSessionIds := reg.queuedSessionIds - {s}), None)
  {
  }

  /**
   * A room member takes its room down: it gets back exactly its partner, the room is
   * gone, neither member maps to a room any more, and every other entry stays.
   */
  lemma RemoveMember(reg: Registry, s: SessionId)
    requires Inv(reg)
    requires s in reg.sessionRoomMap
    ensures var (reg', p) := Remove(reg, s);
      && p.Some? && PartnerOf(reg, s) == p
      && reg.sessionRoomMap[s] !in reg'.activeRooms
      && s !in reg'.sessionRoomMap && p.value !in reg'.sessionRoomMap
      && reg'.sessionRoomMap == reg.sessionRoomMap - {s, p.value}
      && reg'.activeRooms == reg.activeRooms - {reg.sessionRoomMap[s]}
      && reg'.waitingQueue == reg.waitingQueue && reg'.queuedSessionIds == reg.queuedSessionIds
  {
    assert s !in reg.queuedSessionIds;
  }

  /** After removal a session is neither queued nor in a room. */
  lemma RemoveForgets(reg: Registry, s: SessionId)
    requires Inv(reg)
    ensures s !in Remove(reg, s).0.queuedSessionIds
    ensures s !in Remove(reg, s).0.sessionRoomMap
  {
    if s in reg.queuedSessionIds {
      assert s !in reg.sessionRoomMap;
    }
  }

  /** Removal is idempotent: a second call returns no partner and changes nothing. */
  lemma RemoveIsIdempotent(reg: Registry, s: SessionId)
    requires Inv(reg)
    ensures var reg' := Remove(reg, s).0;
      Remove(reg', s) == (reg', None)
  {
    RemoveForgets(reg, s);
  }

  /** `removeAndGetPartner` keeps the invariant. */
  lemma RemovePreservesInv(reg: Registry, s: SessionId)
    requires Inv(reg)
    ensures Inv(Remove(reg, s).0)
  {
    if s in reg.queuedSessionIds || s !in reg.sessionRoomMap {
      return;
    }
    var rid := reg.sessionRoomMap[s];
    var room := reg.activeRooms[rid];
    var p := room.Other(s);
    var reg' := Remove(reg, s).0;
    forall t | t in reg'.sessionRoomMap
      ensures reg'.sessionRoomMap[t] in reg'.activeRooms
      ensures t in reg'.activeRooms[reg'.sessionRoomMap[t]].Members()
    {
      assert t in reg.sessionRoomMap && t != s && t != p;
      assert room.Members() == {s, p};
      assert reg.sessionRoomMap[t] != rid;
    }
    forall r | r in reg'.activeRooms
      ensures reg'.activeRooms[r].session1 in reg'.sessionRoomMap
      ensures reg'.activeRooms[r].session2 in reg'.sessionRoomMap
    {
      var other := reg.activeRooms[r];
      assert reg.sessionRoomMap[other.session1] == r != rid;
      assert reg.sessionRoomMap[other.session2] == r;
      assert reg.sessionRoomMap[s] == rid && reg.sessionRoomMap[p] == rid;
    }
  }

  /**
   * The counter may over-count the sessions still waiting (a session that left while
   * queued keeps its entry until a poll drops it), but it never under-counts them.
   */
  lemma CounterBoundsWaiters(reg: Registry)
    requires Inv(reg)
    ensures |reg.queuedSessionIds| <= reg.queueSize
  {
    if reg.waitingQueue != [] {
      var x := reg.waitingQueue[0];
      assert Elems(reg.waitingQueue) == {x};
      assert reg.queuedSessionIds == {} || reg.queuedSessionIds == {x};
    }
  }

  /** On an empty service the first session to ask waits, alone in the queue. */
  lemma FirstJoinerWaits(s: SessionId, open: set<SessionId>, roomId: RoomId)
    ensures Match(Initial(), s, open, roomId) == (Registry([s], 1, {s}, map[], map[]), MatchResult(Waiting, None))
  {
    var reg := Initial();
    assert FirstOpen(reg.waitingQueue, open) == 0;
    assert Polled(reg, 0) == reg by {
      assert Elems(reg.waitingQueue[..0]) == {};
    }
    assert reg.waitingQueue + [s] == [s];
    assert Match(reg, s, open, roomId).1 == MatchResult(Waiting, None);
    assert Match(reg, s, open, roomId).0.waitingQueue == [s];
    assert Match(reg, s, open, roomId).0.queueSize == 1;
    assert Match(reg, s, open, roomId).0.queuedSessionIds == {s};
  }

  /**
   * The next session to ask is paired with an open waiter: the queue empties and the
   * room joins the asker (first) and the waiter (second).
   */
  lemma SecondJoinerMatches(a: SessionId, b: SessionId, open: set<SessionId>, roomId: RoomId)
    requires a != b && a in open
    ensures Match(Registry([a], 1, {a}, map[], map[]), b, open, roomId) ==
      (Registry([], 0, {}, map[roomId := Room(roomId, b, a)], map[b := roomId, a := roomId]),
       MatchResult(Matched, Some(a)))
  {
    var reg := Registry([a], 1, {a}, map[], map[]);
    assert FirstOpen([a], open) == 0;
    assert Polled(reg, 1) == Registry([], 0, {}, map[], map[]) by {
      assert Elems([a]) == {a};
    }
  }

  // ---------------------------------------------------------------------------
  // The service object
  // ---------------------------------------------------------------------------

  class RoomService {
    var waitingQueue: seq<SessionId>
    var queueSize: int
    var queuedSessionIds: set<SessionId>
    var activeRooms: map<RoomId, Room>
    var sessionRoomMap: map<SessionId, RoomId>

    /** The service's state as a value. */
    function Model(): Registry
      reads this
    {
      Registry(waitingQueue, queueSize, queuedSessionIds, activeRooms, sessionRoomMap)
    }

    ghost predicate Valid()
      reads this
    {
      Inv(Model())
    }

    constructor ()
      ensures Model() == Initial() && Valid()
    {
      waitingQueue, queueSize, queuedSessionIds := [], 0, {};
      activeRooms, sessionRoomMap := map[], map[];
    }

    /** Pairs `session` with the first open waiter, or enqueues it. */
    method MatchOrEnqueue(session: SessionId, open: set<SessionId>, roomId: RoomId) returns (r: MatchResult)
      modifies this
      ensures (Model(), r) == Match(old(Model()), session, open, roomId)
      ensures old(Valid()) && roomId !in old(activeRooms) ==> Valid()
    {
      if session in queuedSessionIds {
        return MatchResult(Waiting, None);
      }
      if session in sessionRoomMap {
        return MatchResult(Error, None);
      }
      ghost var reg := old(Model());
      var found := PollUntilOpen(open);
      if found.Some? {
        var room := CreateRoom(session, found.value, roomId);
        r := MatchResult(Matched, found);
      } else if queueSize >= MAX_QUEUE_SIZE {
        r := MatchResult(QueueFull, None);
      } else {
        waitingQueue := waitingQueue + [session];
        queueSize := queueSize + 1;
        queuedSessionIds := queuedSessionIds + {session};
        r := MatchResult(Waiting, None);
      }
      if old(Valid()) && roomId !in old(activeRooms) {
        MatchPreservesInv(reg, session, open, roomId);
      }
    }

    /**
     * The poll loop of `matchOrEnqueue`: entries are taken off the front of the queue,
     * and out of the queued set, until one is open; that one is returned.
     */
    method PollUntilOpen(open: set<SessionId>) returns (found: Option<SessionId>)
      modifies this
      ensures var q := old(waitingQueue);
        var k := FirstOpen(q, open);
        && (found.Some? <==> k < |q|)
        && (found.Some? ==> found.value == q[k] && Model() == Polled(old(Model()), k + 1))
        && (found.None? ==> Model() == Polled(old(Model()), |q|))
    {
      ghost var q, ids, size := waitingQueue, queuedSessionIds, queueSize;
      ghost var n := 0;
      found := None;
      while waitingQueue != []
        invariant 0 <= n <= |q|
        invariant waitingQueue == q[n..] && queueSize == size - n
        invariant queuedSessionIds == ids - Elems(q[..n])
        invariant activeRooms == old(activeRooms) && sessionRoomMap == old(sessionRoomMap)
        invariant forall i :: 0 <= i < n ==> q[i] !in open
        invariant found.Some? ==> 0 < n && found == Some(q[n - 1]) && q[n - 1] in open
        decreases |waitingQueue|
      {
        var candidate := waitingQueue[0];
        waitingQueue := waitingQueue[1..];
        queueSize := queueSize - 1;
        assert q[..n + 1] == q[..n] + [candidate];
        assert Elems(q[..n + 1]) == Elems(q[..n]) + {candidate};
        n := n + 1;
        queuedSessionIds := queuedSessionIds - {candidate};
        if candidate in open {
          found := Some(candidate);
          break;
        }
      }
      if found.Some? {
        assert FirstOpen(q, open) == n - 1;
      } else {
        assert FirstOpen(q, open) == |q| == n;
      }
    }

    /** Stores a new room under `roomId` and maps both sessions to it. */
    method CreateRoom(session1: SessionId, session2: SessionId, roomId: RoomId) returns (room: Room)
      modifies this
      ensures room == Room(roomId, session1, session2)
      ensures Model() == AddRoom(old(Model()), roomId, session1, session2)
    {
      room := Room(roomId, session1, session2);
      activeRooms := activeRooms[roomId := room];
      sessionRoomMap := sessionRoomMap[session1 := roomId];
      sessionRoomMap := sessionRoomMap[session2 := roomId];
    }

    /** The other member of the session's room, or `None` when it is not in a room. */
    method GetPartner(session: SessionId) returns (partner: Option<SessionId>)
      ensures partner == PartnerOf(Model(), session)
      ensures Valid() ==> (partner.Some? <==> session in sessionRoomMap)
      ensures Valid() && partner.Some? ==> PartnerOf(Model(), partner.value) == Some(session)
    {
      if session !in sessionRoomMap {
        return None;
      }
      var roomId := sessionRoomMap[session];
      if roomId !in activeRooms {
        return None;
      }
      var room := activeRooms[roomId];
      partner := Some(if room.session1 == session then room.session2 else room.session1);
      if Valid() {
        PartnerIsSymmetric(Model(), session, partner.value);
      }
    }

    /** Takes `session` out of the waiting bookkeeping or out of its room. */
    method RemoveAndGetPartner(session: SessionId) returns (partner: Option<SessionId>)
      modifies this
      ensures (Model(), partner) == Remove(old(Model()), session)
      ensures old(Valid()) ==> Valid()
    {
      if old(Valid()) {
        RemovePreservesInv(Model(), session);
      }
      if session in queuedSessionIds {
        queuedSessionIds := queuedSessionIds - {session};
        return None;
      }
      partner := None;
      if session in sessionRoomMap {
        var roomId := sessionRoomMap[session];
        sessionRoomMap := sessionRoomMap - {session};
        if roomId in activeRooms {
          var room := activeRooms[roomId];
          activeRooms := activeRooms - {roomId};
          var p := if room.session1 == session then room.session2 else room.session1;
          sessionRoomMap := sessionRoomMap - {p};
          partner := Some(p);
        }
      }
    }
  }
}
