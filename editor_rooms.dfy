/**
 * The realtime editor's room registry and connection protocol (app.js,
 * `editorRooms` and the `joinRoom`, `textChange` and `disconnect` handlers
 * with their helper `leaveRoom`), stated on values: each handler runs to
 * completion on the event loop, so it is one step from a state to the next
 * state together with the messages it emits.
 */
module EditorRooms {
  import opened EditorStore

  /** A socket id. */
  type ConnId = string

  /** A room id as the registry keys it (already normalized). */
  type RoomId = string

  /** The record `editorRooms` holds per room. */
  datatype Room = Room(content: string, users: set<ConnId>)

  /** The server-to-client events of the editor protocol. */
  datatype Event =
    | InitialContent(content: string)
    | UserCountUpdate(count: nat)
    | RoomInfo(roomId: RoomId)
    | TextUpdate(content: string)

  /** One emitted event and the sockets it reaches. */
  datatype Emit = Emit(to: set<ConnId>, event: Event)

  /**
   * The process-wide registry, the `currentRoom` of every open connection
   * that has joined a room, and the `Editor` directory.
   */
  datatype State = State(rooms: map<RoomId, Room>, current: map<ConnId, RoomId>, store: Store)

  /** What one handler leaves behind: the new state and what it emitted, in order. */
  datatype Step = Step(next: State, out: seq<Emit>)

  /** The state at process start: no room is live yet, not even the default one. */
  function Init(store: Store): (s: State)
    ensures Consistent(s) && s.store == store
    ensures s.rooms == map[] && s.current == map[]
  {
    State(map[], map[], store)
  }

  /**
   * The registry agrees with the connections: a connection is in a room's
   * user set exactly when that room is its current room; a live room other
   * than the default one has users; and no room is keyed by the empty id.
   */
  ghost predicate Consistent(s: State)
  {
    && (forall r, c :: r in s.rooms && c in s.rooms[r].users ==> c in s.current && s.current[c] == r)
    && (forall c :: c in s.current ==> s.current[c] in s.rooms && c in s.rooms[s.current[c]].users)
    && (forall r :: r in s.rooms && r != DefaultRoom ==> s.rooms[r].users != {})
    && "" !in s.rooms
  }

  /** `editorRooms.get(r).users.size`, or 0 once the room is gone. */
  function UserCount(s: State, r: RoomId): nat
  {
    if r in s.rooms then |s.rooms[r].users| else 0
  }

  /** The connections whose current room is that of `c`, other than `c`. */
  function Peers(s: State, c: ConnId): (peers: set<ConnId>)
    requires c in s.current
    ensures c !in peers && peers <= s.current.Keys
    ensures forall d :: d in peers ==> s.current[d] == s.current[c]
    ensures forall d :: d in s.current && d != c && s.current[d] == s.current[c] ==> d in peers
  {
    set d | d in s.current && s.current[d] == s.current[c] && d != c
  }

  // ---------------------------------------------------------------------------
  // leaveRoom
  // ---------------------------------------------------------------------------

  /**
   * `leaveRoom(socket, r)`: when `r` is live, drops `c` from its users,
   * reports the new count to the sockets still in the socket.io room (the
   * leaver is among them when it leaves in order to join another room,
   * since `socket.leave` comes after the emit, but not on disconnect), and
   * deletes the room if it is now empty and is not the default room.
   */
  function Leave(s: State, c: ConnId, r: RoomId, stillConnected: bool): (t: Step)
    ensures t.next.current == s.current && t.next.store == s.store
    ensures r !in s.rooms ==> t == Step(s, [])
    ensures r in s.rooms ==>
      var left := s.rooms[r].users - {c};
      && (r in t.next.rooms <==> left != {} || r == DefaultRoom)
      && (r in t.next.rooms ==> t.next.rooms[r] == Room(s.rooms[r].content, left))
      && t.out == [Emit(left + (if stillConnected then {c} else {}), UserCountUpdate(UserCount(t.next, r)))]
    ensures forall q :: q != r ==> (q in t.next.rooms <==> q in s.rooms)
    ensures forall q :: q != r && q in s.rooms ==> t.next.rooms[q] == s.rooms[q]
    ensures DefaultRoom in s.rooms ==> DefaultRoom in t.next.rooms
  {
    if r !in s.rooms then Step(s, [])
    else
      var left := s.rooms[r].users - {c};
      var to := left + (if stillConnected then {c} else {});
      var out := [Emit(to, UserCountUpdate(|left|))];
      if |left| == 0 && r != DefaultRoom then
        Step(s.(rooms := s.rooms - {r}), out)
      else
        Step(s.(rooms := s.rooms[r := Room(s.rooms[r].content, left)]), out)
  }

  /** The `if (currentRoom) leaveRoom(socket, currentRoom)` of the join handler. */
  function LeaveCurrent(s: State, c: ConnId): (t: Step)
    ensures c !in s.current ==> t == Step(s, [])
    ensures c in s.current ==> t == Leave(s, c, s.current[c], true)
  {
    if c in s.current then Leave(s, c, s.current[c], true) else Step(s, [])
  }

  // ---------------------------------------------------------------------------
  // joinRoom
  // ---------------------------------------------------------------------------

  /**
   * The `joinRoom` handler: leave the current room, normalize the id, create
   * the room from the stored content if it is not live, add `c`, then send
   * `c` the content, everyone in the room the new count, and `c` the room id.
   */
  function Join(s: State, c: ConnId, roomId: string, readOk: bool): (t: Step)
    ensures var r := NormalizeRoom(roomId);
      && t.next.current == s.current[c := r]
      && t.next.store == s.store
      && r in t.next.rooms && c in t.next.rooms[r].users
      && |t.out| >= 3
      && t.out[|t.out| - 3] == Emit({c}, InitialContent(t.next.rooms[r].content))
      && t.out[|t.out| - 2] == Emit(t.next.rooms[r].users, UserCountUpdate(UserCount(t.next, r)))
      && t.out[|t.out| - 1] == Emit({c}, RoomInfo(r))
      && t.out[..|t.out| - 3] == LeaveCurrent(s, c).out
    // a room that was not live starts from the stored content, with `c` alone
    ensures NormalizeRoom(roomId) !in s.rooms ==>
      t.next.rooms[NormalizeRoom(roomId)] == Room(LoadContent(s.store, NormalizeRoom(roomId), readOk), {c})
    // a live room that `c` was not in keeps its content and gains `c`
    ensures var r := NormalizeRoom(roomId);
      r in s.rooms && (c !in s.current || s.current[c] != r) ==>
      t.next.rooms[r] == Room(s.rooms[r].content, s.rooms[r].users + {c})
    // the default room is never torn down
    ensures DefaultRoom in s.rooms ==> DefaultRoom in t.next.rooms
  {
    var left := LeaveCurrent(s, c);
    var entered := Enter(left.next, c, roomId, readOk);
    var t := Step(entered.next, left.out + entered.out);
    assert t.out[..|t.out| - 3] == left.out;
    t
  }

  /**
   * The rest of the `joinRoom` handler, once the connection has left its
   * room: record the room, create it from the stored content when it is not
   * live, add the connection and send the three notifications.
   */
  function Enter(s: State, c: ConnId, roomId: string, readOk: bool): (t: Step)
    ensures var r := NormalizeRoom(roomId);
      && t.next.current == s.current[c := r] && t.next.store == s.store
      && t.next.rooms.Keys == s.rooms.Keys + {r}
      && (forall q :: q in s.rooms && q != r ==> t.next.rooms[q] == s.rooms[q])
      && t.next.rooms[r].content == (if r in s.rooms then s.rooms[r].content else LoadContent(s.store, r, readOk))
      && t.next.rooms[r].users == (if r in s.rooms then s.rooms[r].users else {}) + {c}
      && t.out == [Emit({c}, InitialContent(t.next.rooms[r].content)),
                   Emit(t.next.rooms[r].users, UserCountUpdate(|t.next.rooms[r].users|)),
                   Emit({c}, RoomInfo(r))]
  {
    var r := NormalizeRoom(roomId);
    var room := if r in s.rooms then s.rooms[r] else Room(LoadContent(s.store, r, readOk), {});
    var users := room.users + {c};
    Step(State(s.rooms[r := Room(room.content, users)], s.current[c := r], s.store),
         [Emit({c}, InitialContent(room.content)),
          Emit(users, UserCountUpdate(|users|)),
          Emit({c}, RoomInfo(r))])
  }

  /**
   * Re-joining the current room leaves it first: a room other than the
   * default one that the connection was alone in is deleted and rebuilt from
   * its file; any other room keeps its text.
   */
  lemma RejoinContent(s: State, c: ConnId, roomId: string, readOk: bool)
    requires c in s.current && s.current[c] == NormalizeRoom(roomId)
    ensures var r := NormalizeRoom(roomId);
      Join(s, c, roomId, readOk).next.rooms[r].content ==
        if r in s.rooms && (s.rooms[r].users - {c} != {} || r == DefaultRoom) then s.rooms[r].content
        else LoadContent(s.store, r, readOk)
  {
  }

  /** Joining keeps the registry consistent with the connections. */
  lemma JoinConsistent(s: State, c: ConnId, roomId: string, readOk: bool)
    requires Consistent(s)
    ensures Consistent(Join(s, c, roomId, readOk).next)
  {
    var left := LeaveCurrent(s, c);
    var r := NormalizeRoom(roomId);
    var room := if r in left.next.rooms then left.next.rooms[r] else Room(LoadContent(left.next.store, r, readOk), {});
    JoinKeepsConsistent(s, c, r, left, room);
  }

  /** Rejoining the current room leaves its user set as it was. */
  lemma RejoinKeepsUsers(s: State, c: ConnId, roomId: string, readOk: bool)
    requires Consistent(s) && c in s.current && s.current[c] == NormalizeRoom(roomId)
    ensures Join(s, c, roomId, readOk).next.rooms[NormalizeRoom(roomId)].users == s.rooms[NormalizeRoom(roomId)].users
  {
    var r := NormalizeRoom(roomId);
    var s1 := LeaveCurrent(s, c).next;
    if r in s1.rooms {
      assert s1.rooms[r].users == s.rooms[r].users - {c};
    }
  }

  /** After leaving its current room, a connection is in no room and the rest is as before. */
  lemma LeaveCurrentFrees(s: State, c: ConnId)
    requires Consistent(s)
    ensures var s1 := LeaveCurrent(s, c).next;
      && s1.current == s.current && s1.store == s.store
      && (forall q :: q in s1.rooms ==> c !in s1.rooms[q].users)
      && (forall q, d :: q in s1.rooms && d in s1.rooms[q].users ==> d in s.current && s.current[d] == q)
      && (forall d :: d in s.current && d != c ==> s.current[d] in s1.rooms && d in s1.rooms[s.current[d]].users)
      && (forall q :: q in s1.rooms && q != DefaultRoom ==> s1.rooms[q].users != {})
      && "" !in s1.rooms
  {
    if c in s.current {
      var r := s.current[c];
      var s1 := Leave(s, c, r, true).next;
      forall q | q in s1.rooms ensures c !in s1.rooms[q].users {
        if q != r {
          assert s1.rooms[q] == s.rooms[q];
        }
      }
      forall q, d | q in s1.rooms && d in s1.rooms[q].users
        ensures d in s.current && s.current[d] == q
      {
        assert q in s.rooms && d in s.rooms[q].users;
      }
      forall d | d in s.current && d != c
        ensures s.current[d] in s1.rooms && d in s1.rooms[s.current[d]].users
      {
        var q := s.current[d];
        assert q in s.rooms && d in s.rooms[q].users;
        if q == r {
          assert d in s.rooms[r].users - {c};
        }
      }
    }
  }

  lemma JoinKeepsConsistent(s: State, c: ConnId, r: RoomId, left: Step, room: Room)
    requires Consistent(s) && r != ""
    requires left == LeaveCurrent(s, c)
    requires r in left.next.rooms ==> room == left.next.rooms[r]
    requires r !in left.next.rooms ==> room.users == {}
    ensures Consistent(State(left.next.rooms[r := Room(room.content, room.users + {c})],
                             left.next.current[c := r], left.next.store))
  {
    LeaveCurrentFrees(s, c);
    var s1 := left.next;
    var t := State(s1.rooms[r := Room(room.content, room.users + {c})], s1.current[c := r], s1.store);
    forall q, d | q in t.rooms && d in t.rooms[q].users
      ensures d in t.current && t.current[d] == q
    {
      if d != c {
        assert q in s1.rooms && d in s1.rooms[q].users;
      }
    }
    forall d | d in t.current
      ensures t.current[d] in t.rooms && d in t.rooms[t.current[d]].users
    {
      if d != c {
        var q := s.current[d];
        assert q in s1.rooms && d in s1.rooms[q].users;
      }
    }
    forall q | q in t.rooms && q != DefaultRoom ensures t.rooms[q].users != {} {
      if q != r {
        assert t.rooms[q] == s1.rooms[q];
      }
    }
  }

  // ---------------------------------------------------------------------------
  // textChange
  // ---------------------------------------------------------------------------

  /**
   * The `textChange` handler: nothing happens unless `c` has a current room
   * that is live; otherwise that room's content becomes the payload (last
   * write wins), the payload is written to the room's file, and it is sent
   * to every other socket of the room.
   */
  function TextChange(s: State, c: ConnId, content: string, writeOk: bool): (t: Step)
    ensures !(c in s.current && s.current[c] in s.rooms) ==> t == Step(s, [])
    ensures c in s.current && s.current[c] in s.rooms ==>
      var r := s.current[c];
      && t.next.rooms.Keys == s.rooms.Keys
      && t.next.rooms[r] == Room(content, s.rooms[r].users)
      && (forall q :: q in s.rooms && q != r ==> t.next.rooms[q] == s.rooms[q])
      && t.next.store == SaveContent(s.store, r, content, writeOk)
      && t.next.current == s.current
      && t.out == [Emit(s.rooms[r].users - {c}, TextUpdate(content))]
  {
    if c in s.current && s.current[c] in s.rooms then
      var r := s.current[c];
      var room := s.rooms[r];
      Step(State(s.rooms[r := Room(content, room.users)], s.current, SaveContent(s.store, r, content, writeOk)),
           [Emit(room.users - {c}, TextUpdate(content))])
    else
      Step(s, [])
  }

  // ---------------------------------------------------------------------------
  // disconnect
  // ---------------------------------------------------------------------------

  /**
   * The `disconnect` handler: a connection that has joined a room leaves it;
   * the connection, and with it its `currentRoom`, is gone afterwards.
   */
  function Disconnect(s: State, c: ConnId): (t: Step)
    ensures c !in s.current ==> t == Step(s, [])
    ensures c in s.current ==>
      var l := Leave(s, c, s.current[c], false);
      t == Step(l.next.(current := s.current - {c}), l.out)
    ensures c !in t.next.current && t.next.store == s.store
  {
    if c in s.current then
      var l := Leave(s, c, s.current[c], false);
      Step(l.next.(current := s.current - {c}), l.out)
    else
      Step(s, [])
  }

  /** Disconnecting keeps the registry consistent, and the connection is in no room afterwards. */
  lemma DisconnectConsistent(s: State, c: ConnId)
    requires Consistent(s)
    ensures var t := Disconnect(s, c).next;
      Consistent(t) && forall q :: q in t.rooms ==> c !in t.rooms[q].users
  {
    if c in s.current {
      var r := s.current[c];
      // the rooms are those left by `leaveRoom`, whatever it sends
      assert Leave(s, c, r, false).next == LeaveCurrent(s, c).next;
      LeaveCurrentFrees(s, c);
    }
  }

  /** Editing keeps the registry consistent with the connections. */
  lemma TextChangeConsistent(s: State, c: ConnId, content: string, writeOk: bool)
    requires Consistent(s)
    ensures Consistent(TextChange(s, c, content, writeOk).next)
  {
  }

  // ---------------------------------------------------------------------------
  // Properties
  // ---------------------------------------------------------------------------

  /** A connection is in at most one room's user set. */
  lemma AtMostOneRoom(s: State, c: ConnId, r1: RoomId, r2: RoomId)
    requires Consistent(s)
    requires r1 in s.rooms && c in s.rooms[r1].users
    requires r2 in s.rooms && c in s.rooms[r2].users
    ensures r1 == r2
  {
    assert s.current[c] == r1;
    assert s.current[c] == r2;
  }

  /**
   * The `editorRooms.has(currentRoom)` test of `textChange` never fails for a
   * joined connection: its current room is always live and holds it.
   */
  lemma CurrentRoomIsLive(s: State, c: ConnId)
    requires Consistent(s) && c in s.current
    ensures s.current[c] in s.rooms && c in s.rooms[s.current[c]].users
  {
  }

  /**
   * A text update reaches exactly the other connections whose current room
   * is the sender's: never the sender, never a connection of another room.
   */
  lemma {:induction false} TextUpdateReachesPeers(s: State, c: ConnId, content: string, writeOk: bool)
    requires Consistent(s) && c in s.current
    ensures TextChange(s, c, content, writeOk).out == [Emit(Peers(s, c), TextUpdate(content))]
  {
    var r := s.current[c];
    assert s.rooms[r].users - {c} == Peers(s, c);
  }

  /** Every count a leave reports is the size of the room's user set afterwards. */
  lemma LeaveReportsCount(s: State, c: ConnId, r: RoomId, stillConnected: bool)
    ensures forall e :: e in Leave(s, c, r, stillConnected).out ==>
      e.event == UserCountUpdate(UserCount(Leave(s, c, r, stillConnected).next, r))
  {
  }

  /** Live rooms hold what their file holds (all reads and writes succeeding). */
  ghost predicate Durable(s: State)
  {
    forall r :: r in s.rooms ==> s.rooms[r].content == LoadContent(s.store, r, true)
  }

  /** A successful join keeps every live room in step with its file. */
  lemma DurableAfterJoin(s: State, c: ConnId, roomId: string)
    requires Durable(s)
    ensures Durable(Join(s, c, roomId, true).next)
  {
    var r := NormalizeRoom(roomId);
    var s1 := LeaveCurrent(s, c).next;
    // leaving keeps the text of every room it keeps
    assert forall q :: q in s1.rooms ==> q in s.rooms && s1.rooms[q].content == s.rooms[q].content;
    var t := Enter(s1, c, roomId, true).next;
    assert t == Join(s, c, roomId, true).next;
    forall q | q in t.rooms ensures t.rooms[q].content == LoadContent(t.store, q, true) {
      if q in s1.rooms {
        assert t.rooms[q].content == s1.rooms[q].content;
      }
    }
  }

  /** A successful save keeps every live room in step with its file. */
  lemma DurableAfterTextChange(s: State, c: ConnId, content: string)
    requires Consistent(s) && Durable(s)
    ensures Durable(TextChange(s, c, content, true).next)
  {
    var t := TextChange(s, c, content, true).next;
    if c in s.current && s.current[c] in s.rooms {
      var r := s.current[c];
      forall q | q in t.rooms ensures t.rooms[q].content == LoadContent(t.store, q, true) {
        if q != r {
          SaveIsolated(s.store, r, q, content, true, true);
        }
      }
    }
  }

  /** Leaving keeps every live room in step with its file. */
  lemma DurableAfterDisconnect(s: State, c: ConnId)
    requires Durable(s)
    ensures Durable(Disconnect(s, c).next)
  {
    if c in s.current {
      var r := s.current[c];
      var t := Disconnect(s, c).next;
      forall q | q in t.rooms ensures t.rooms[q].content == LoadContent(t.store, q, true) {
        assert q in s.rooms && t.rooms[q].content == s.rooms[q].content;
      }
    }
  }

  /**
   * Persistence outlives the registry: after `c1` joins room `roomId`, edits
   * it to `content` and disconnects, a connection `c2` joining the same room
   * is sent `content`, whether the room stayed live or was deleted and is
   * reloaded from its file.
   */
  lemma {:induction false} ContentSurvivesTeardown(s: State, c1: ConnId, c2: ConnId, roomId: string, content: string, readOk: bool)
    requires Consistent(s) && c1 != c2
    ensures var s1 := Join(s, c1, roomId, readOk).next;
      var s2 := TextChange(s1, c1, content, true).next;
      var s3 := Disconnect(s2, c1).next;
      var t := Join(s3, c2, roomId, true);
      t.out[|t.out| - 3] == Emit({c2}, InitialContent(content))
  {
    var r := NormalizeRoom(roomId);
    var s1 := Join(s, c1, roomId, readOk).next;
    var s2 := TextChange(s1, c1, content, true).next;
    var s3 := Disconnect(s2, c1).next;
    assert s2.rooms[r].content == content;
    assert s2.store[StorageKey(r)] == content;
    assert r in s3.rooms ==> s3.rooms[r].content == content;
    JoinSeesContent(s3, c2, roomId, content);
  }

  /** A join is sent `content` when both the live room, if any, and its file hold it. */
  lemma JoinSeesContent(s: State, c: ConnId, roomId: string, content: string)
    requires var r := NormalizeRoom(roomId);
      && (r in s.rooms ==> s.rooms[r].content == content)
      && StorageKey(r) in s.store && s.store[StorageKey(r)] == content
    ensures var t := Join(s, c, roomId, true);
      t.out[|t.out| - 3] == Emit({c}, InitialContent(content))
  {
    var r := NormalizeRoom(roomId);
    if c in s.current && s.current[c] == r {
      RejoinContent(s, c, roomId, true);
    }
  }

  /**
   * The default room outlives its last participant: once `c` leaves it,
   * the next connection to join it is sent the content it had, even if
   * reading the file would fail.
   */
  lemma {:induction false} DefaultRoomKeepsContent(s: State, c: ConnId, c2: ConnId, readOk: bool)
    requires Consistent(s) && c in s.current && s.current[c] == DefaultRoom && c2 != c
    ensures var s1 := Disconnect(s, c).next;
      var t := Join(s1, c2, "", readOk);
      && DefaultRoom in s1.rooms
      && t.out[|t.out| - 3] == Emit({c2}, InitialContent(s.rooms[DefaultRoom].content))
  {
    var s1 := Disconnect(s, c).next;
    assert s1.rooms[DefaultRoom].content == s.rooms[DefaultRoom].content;
    if c2 in s1.current && s1.current[c2] == DefaultRoom {
      assert c2 in s1.rooms[DefaultRoom].users;
    }
  }

  /** Joining the same room twice in a row counts the connection once. */
  lemma {:induction false} RejoinCountsOnce(s: State, c: ConnId, roomId: string, readOk: bool)
    requires Consistent(s) && c !in s.current
    ensures var r := NormalizeRoom(roomId);
      var t1 := Join(s, c, roomId, readOk);
      var t2 := Join(t1.next, c, roomId, readOk);
      && UserCount(t2.next, r) == UserCount(t1.next, r)
      && (r !in s.rooms ==> UserCount(t2.next, r) == 1)
  {
  }

  // ---------------------------------------------------------------------------
  // Re-joining the current room (see Findings)
  // ---------------------------------------------------------------------------

  /**
   * As written, a connection alone in room "r" that joins "r" again loses the
   * text held in memory: the room is deleted by the leave and rebuilt from a
   * file that is missing here, so the connection is sent "".
   */
  lemma RejoinAloneReloads()
    ensures var s := State(map["r" := Room("hello", {"c"})], map["c" := "r"], map[]);
      var t := Join(s, "c", "r", false);
      && Consistent(s)
      && t.out[|t.out| - 3] == Emit({"c"}, InitialContent(""))
  {
    var s := State(map["r" := Room("hello", {"c"})], map["c" := "r"], map[]);
    assert NormalizeRoom("r") == "r";
    assert s.rooms["r"].users - {"c"} == {};
    RejoinContent(s, "c", "r", false);
  }

  /**
   * The loss needs a failed write or read: when every live room matches its
   * file and the read succeeds, the rebuilt room has the text it had.
   */
  lemma RejoinKeepsContentWhenDurable(s: State, c: ConnId, roomId: string)
    requires Consistent(s) && Durable(s)
    requires c in s.current && s.current[c] == NormalizeRoom(roomId)
    ensures Join(s, c, roomId, true).next.rooms[NormalizeRoom(roomId)].content == s.rooms[NormalizeRoom(roomId)].content
  {
    var r := NormalizeRoom(roomId);
    assert r in s.rooms;
    RejoinContent(s, c, roomId, true);
  }

  /**
   * The join handler with the leave skipped when the connection is already in
   * the room it joins (`if (currentRoom && currentRoom !== roomId)`, the id
   * normalized first); every other join is as before.
   */
  function JoinKeepingRoom(s: State, c: ConnId, roomId: string, readOk: bool): (t: Step)
    ensures c in s.current && s.current[c] == NormalizeRoom(roomId) ==> t == Enter(s, c, roomId, readOk)
    ensures !(c in s.current && s.current[c] == NormalizeRoom(roomId)) ==> t == Join(s, c, roomId, readOk)
  {
    if c in s.current && s.current[c] == NormalizeRoom(roomId) then Enter(s, c, roomId, readOk)
    else Join(s, c, roomId, readOk)
  }

  /**
   * With the correction, re-joining the current room changes nothing in the
   * registry and re-delivers the room's text and count, whatever the I/O
   * outcome; every join keeps the registry consistent.
   */
  lemma JoinKeepingRoomResends(s: State, c: ConnId, roomId: string, readOk: bool)
    requires Consistent(s)
    ensures Consistent(JoinKeepingRoom(s, c, roomId, readOk).next)
    ensures var r := NormalizeRoom(roomId);
      var t := JoinKeepingRoom(s, c, roomId, readOk);
      c in s.current && s.current[c] == r ==>
        && t.next == s
        && t.out == [Emit({c}, InitialContent(s.rooms[r].content)),
                     Emit(s.rooms[r].users, UserCountUpdate(|s.rooms[r].users|)),
                     Emit({c}, RoomInfo(r))]
  {
    var r := NormalizeRoom(roomId);
    if c in s.current && s.current[c] == r {
      var t := Enter(s, c, roomId, readOk).next;
      assert s.rooms[r].users + {c} == s.rooms[r].users;
      assert t.current == s.current;
      assert t.rooms == s.rooms;
    } else {
      JoinConsistent(s, c, roomId, readOk);
    }
  }
}
