/**
 * The room value of model/Room.java: an immutable triple of a room id and the two
 * sessions it joins. Its getters (`getRoomId`, `getSession1`, `getSession2`) are the
 * datatype's destructors, and value semantics give the immutability of its final fields.
 */
module RoomModel {

  /** A WebSocket session, identified by its id. */
  type SessionId = string

  /** A room id (a random UUID string in the running system). */
  type RoomId = string

  /**
   * The constructor takes its arguments as they are: nothing here says the two members
   * differ or are open; the room service and the handler establish that.
   */
  datatype Room = Room(roomId: RoomId, session1: SessionId, session2: SessionId) {

    /** The sessions the room joins. */
    function Members(): set<SessionId> {
      {session1, session2}
    }

    /**
     * The member that is not `s`, computed as RoomService does in two places: the
     * second session if `s` is the first one, the first session otherwise.
     */
    function Other(s: SessionId): (p: SessionId)
      ensures p in Members()
      ensures s in Members() ==> Members() == {s, p}
      ensures s == session1 ==> p == session2
    {
      if session1 == s then session2 else session1
    }
  }

  /** Asking the partner of the partner leads back to the member one started from. */
  lemma OtherIsInvolution(room: Room, s: SessionId)
    requires s in room.Members()
    ensures room.Other(room.Other(s)) == s
  {
  }
}
