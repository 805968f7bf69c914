/**
 * The socket handlers of app.js as they run: one registry object whose maps
 * the handlers update in place. Each handler is proved to make exactly the
 * step that module EditorRooms describes, and to keep the registry
 * consistent with the connections.
 */
module EditorRegistry {
  import opened EditorStore
  import opened EditorRooms

  class Registry {
    /** `editorRooms`: room id to its content and user set. */
    var rooms: map<RoomId, Room>
    /** The `currentRoom` of each connection that has joined a room. */
    var current: map<ConnId, RoomId>
    /** The `Editor` directory. */
    var store: Store

    function Snapshot(): State
      reads this
    {
      State(rooms, current, store)
    }

    ghost predicate Valid()
      reads this
    {
      Consistent(Snapshot())
    }

    /** Process start: an empty registry over the files already on disk. */
    constructor (saved: Store)
      ensures Valid() && Snapshot() == Init(saved)
    {
      rooms, current, store := map[], map[], saved;
    }

    /** `leaveRoom(socket, roomId)`. */
    method LeaveRoom(c: ConnId, r: RoomId, stillConnected: bool) returns (out: seq<Emit>)
      modifies this
      ensures Snapshot() == Leave(old(Snapshot()), c, r, stillConnected).next
      ensures out == Leave(old(Snapshot()), c, r, stillConnected).out
    {
      out := [];
      if r in rooms {
        var room := rooms[r];
        rooms := rooms[r := Room(room.content, room.users - {c})];
        var size := |rooms[r].users|;
        out := [Emit(rooms[r].users + (if stillConnected then {c} else {}), UserCountUpdate(size))];
        if size == 0 && r != DefaultRoom {
          rooms := rooms - {r};
        }
      }
    }

    /** `autoSaveEditorContent(roomId, content)`. */
    method AutoSave(r: RoomId, content: string, writeOk: bool)
      modifies this
      ensures store == SaveContent(old(store), r, content, writeOk)
      ensures rooms == old(rooms) && current == old(current)
    {
      if writeOk {
        store := store[StorageKey(r) := content];
      }
    }

    /** `socket.on('joinRoom', ...)`. */
    method OnJoinRoom(c: ConnId, roomId: string, readOk: bool) returns (out: seq<Emit>)
      requires Valid()
      modifies this
      ensures Valid()
      ensures Snapshot() == Join(old(Snapshot()), c, roomId, readOk).next
      ensures out == Join(old(Snapshot()), c, roomId, readOk).out
    {
      ghost var pre := Snapshot();
      JoinConsistent(pre, c, roomId, readOk);
      out := [];
      if c in current {
        out := LeaveRoom(c, current[c], true);
      }
      assert Snapshot() == LeaveCurrent(pre, c).next && out == LeaveCurrent(pre, c).out;
      var more := EnterRoom(c, roomId, readOk);
      out := out + more;
    }

    /** The statements of the `joinRoom` handler after `leaveRoom`, in the source's order. */
    method EnterRoom(c: ConnId, roomId: string, readOk: bool) returns (out: seq<Emit>)
      modifies this
      ensures Snapshot() == Enter(old(Snapshot()), c, roomId, readOk).next
      ensures out == Enter(old(Snapshot()), c, roomId, readOk).out
    {
      var r := NormalizeRoom(roomId);
      current := current[c := r];
      if r !in rooms {
        var saved := LoadContent(store, r, readOk);
        rooms := rooms[r := Room(saved, {})];
      }
      var room := rooms[r];
      rooms := rooms[r := Room(room.content, room.users + {c})];
      var size := |rooms[r].users|;
      out := [Emit({c}, InitialContent(rooms[r].content)),
              Emit(rooms[r].users, UserCountUpdate(size)),
              Emit({c}, RoomInfo(r))];
    }

    /** `socket.on('textChange', ...)`. */
    method OnTextChange(c: ConnId, content: string, writeOk: bool) returns (out: seq<Emit>)
      requires Valid()
      modifies this
      ensures Valid()
      ensures Snapshot() == TextChange(old(Snapshot()), c, content, writeOk).next
      ensures out == TextChange(old(Snapshot()), c, content, writeOk).out
    {
      TextChangeConsistent(Snapshot(), c, content, writeOk);
      out := [];
      if c in current && current[c] in rooms {
        var r := current[c];
        var room := rooms[r];
        rooms := rooms[r := Room(content, room.users)];
        AutoSave(r, content, writeOk);
        out := [Emit(rooms[r].users - {c}, TextUpdate(rooms[r].content))];
      }
    }

    /** `socket.on('disconnect', ...)`. */
    method OnDisconnect(c: ConnId) returns (out: seq<Emit>)
      requires Valid()
      modifies this
      ensures Valid()
      ensures Snapshot() == Disconnect(old(Snapshot()), c).next
      ensures out == Disconnect(old(Snapshot()), c).out
    {
      ghost var pre := Snapshot();
      DisconnectConsistent(pre, c);
      out := [];
      if c in current {
        out := LeaveRoom(c, current[c], false);
        ghost var left := Leave(pre, c, pre.current[c], false);
        assert Snapshot() == left.next;
        current := current - {c};
        assert Snapshot() == left.next.(current := pre.current - {c});
      }
    }
  }
}
