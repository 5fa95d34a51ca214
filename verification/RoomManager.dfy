/** The room objects and their manager, which change in place, against the values of module Rooms. */
module RoomManagers {
  import opened Wrappers
  import opened Rooms
  import Decimal

  class GameRoom {
    const ownerId: string
    const maxPlayers: int
    var state: Status
    var players: seq<string>
    var deadline: Option<int>

    ghost function View(): Room
      reads this
    {
      Room(ownerId, state, players, maxPlayers, deadline)
    }

    constructor (ownerId: string, maxPlayers: int)
      ensures View() == Room(ownerId, Idle, [ownerId], maxPlayers, None)
    {
      this.ownerId, this.maxPlayers := ownerId, maxPlayers;
      state, players, deadline := Idle, [ownerId], None;
    }

    method AddPlayer(id: string) returns (r: Result)
      modifies this
      ensures r == AddVerdict(old(View()), id) && View() == Added(old(View()), id)
      ensures r == OK <==> old(state in {Idle, InWaiting} && |players| < maxPlayers && id !in players)
      ensures players == if r == OK then old(players) + [id] else old(players)
    {
      if state != Idle && state != InWaiting {
        return Failure(RoomNotJoinable);
      }
      if |players| >= maxPlayers {
        return Failure(RoomFull);
      }
      var found := HasPlayer(id);
      if found {
        return Failure(PlayerAlreadyInRoom);
      }
      players := players + [id];
      return OK;
    }

    method RemovePlayer(id: string) returns (r: Result)
      modifies this
      ensures r == if id in old(players) then OK else Failure(PlayerNotInRoom)
      ensures View() == Removed(old(View()), id)
    {
      var i := 0;
      while i < |players| && players[i] != id
        invariant i <= |players| && forall j :: 0 <= j < i ==> players[j] != id
      {
        i := i + 1;
      }
      assert i == Find(players, id);
      if i == |players| {
        return Failure(PlayerNotInRoom);
      }
      players := players[..i] + players[i + 1..];
      if players == [] {
        state := Destroyed;
      }
      return OK;
    }

    method HasPlayer(id: string) returns (found: bool)
      ensures found == (id in players)
    {
      for i := 0 to |players|
        invariant id !in players[..i]
      {
        if players[i] == id {
          return true;
        }
      }
      return false;
    }

    method SetState(newState: Status)
      modifies this
      ensures View() == old(View()).(state := newState)
    {
      state := newState;
    }

    /** The timeout callback registered by CreateRoom. */
    method OnTimeout()
      modifies this`state
      ensures state == if old(state).Playing? then Playing else Destroyed
    {
      if state == Playing {
        return;
      }
      state := Destroyed;
    }

    /** timer().Tick() for the timeout timer. */
    method DriveTimer(now: int)
      modifies this
      ensures View() == Expired(old(View()), now)
    {
      if deadline.Some? && deadline.value <= now {
        deadline := None;
        OnTimeout();
      }
    }
  }

  class RoomManager {
    var rooms: map<string, GameRoom>
    var playerRoom: map<string, string>
    var counter: nat

    /** Each id has a room object of its own. */
    ghost predicate Valid()
      reads this
    {
      forall a, b :: a in rooms && b in rooms && a != b ==> rooms[a] != rooms[b]
    }

    ghost function View(): Lobby
      reads this, rooms.Values
    {
      Lobby(map rid | rid in rooms :: rooms[rid].View(), playerRoom, counter)
    }

    constructor ()
      ensures Valid() && View() == EMPTY && rooms == map[]
    {
      rooms, playerRoom, counter := map[], map[], 1;
    }

    method GenerateRoomId() returns (rid: string)
      modifies this`counter
      ensures rid == Decimal.RoomName(old(counter)) && counter == old(counter) + 1
    {
      rid := Decimal.RoomName(counter);
      counter := counter + 1;
    }

    method CreateRoom(id: string, maxPlayers: int, timeoutMs: int, now: int) returns (r: Result)
      requires Valid()
      modifies this
      ensures Valid() && r == CreateVerdict(old(View()), id)
      ensures View() == Created(old(View()), id, maxPlayers, timeoutMs, now)
      ensures forall rid :: rid in rooms ==> (rid in old(rooms) && rooms[rid] == old(rooms)[rid]) || fresh(rooms[rid])
    {
      hide Decimal.RoomName;
      ghost var s := View();
      if id in playerRoom {
        return Failure(PlayerAlreadyInRoom);
      }
      var rid := GenerateRoomId();
      var room := NewRoom(id, maxPlayers, timeoutMs, now);
      playerRoom := playerRoom[id := rid];
      assert View().rooms == s.rooms;
      assert room !in rooms.Values;
      PutRoom(rid, room);
      return Success(rid);
    }

    method PutRoom(rid: string, room: GameRoom)
      requires Valid() && room !in rooms.Values
      modifies this`rooms
      ensures Valid() && rooms == old(rooms)[rid := room] && View() == Put(old(View()), rid, room.View())
    {
      ghost var s := View();
      assert forall other :: other in rooms ==> rooms[other] in rooms.Values;
      rooms := rooms[rid := room];
      assert View().rooms == s.rooms[rid := room.View()];
    }

    /** The new room with its timeout timer, if it is to have one. */
    static method NewRoom(id: string, maxPlayers: int, timeoutMs: int, now: int) returns (room: GameRoom)
      ensures fresh(room)
      ensures room.View() == Room(id, Idle, [id], maxPlayers, if timeoutMs > 0 then Some(now + timeoutMs) else None)
    {
      room := new GameRoom(id, maxPlayers);
      if timeoutMs > 0 {
        room.deadline := Some(now + timeoutMs);
      }
    }

    method JoinRoom(rid: string, id: string) returns (r: Result)
      requires Valid()
      modifies this`playerRoom, rooms.Values
      ensures Valid() && r == JoinVerdict(old(View()), rid, id) && View() == Joined(old(View()), rid, id)
      ensures r == OK ==> rid in old(View()).rooms && old(View()).rooms[rid].state in {Idle, InWaiting}
    {
      hide AddVerdict, Added;
      ghost var s := View();
      if rid !in rooms {
        return Failure(RoomNotFound);
      }
      if id in playerRoom && playerRoom[id] != rid {
        return Failure(PlayerAlreadyInRoom);
      }
      var room := rooms[rid];
      r := room.AddPlayer(id);
      assert View().rooms == s.rooms[rid := room.View()];
      if r.Failure? {
        AddRefused(s.rooms[rid], id);
        assert View().rooms == s.rooms;
        return r;
      }
      playerRoom := playerRoom[id := rid];
      return OK;
    }

    method LeaveRoom(rid: string, id: string) returns (r: Result)
      requires Valid()
      modifies this`playerRoom, rooms.Values
      ensures Valid() && r == LeaveVerdict(old(View()), rid, id) && View() == Left(old(View()), rid, id)
    {
      hide Removed;
      ghost var s := View();
      if rid !in rooms {
        return Failure(RoomNotFound);
      }
      var room := rooms[rid];
      r := room.RemovePlayer(id);
      assert View().rooms == s.rooms[rid := room.View()];
      if r.Failure? {
        RemoveRefused(s.rooms[rid], id);
        assert View().rooms == s.rooms;
        return r;
      }
      playerRoom := playerRoom - {id};
      return OK;
    }

    method StartGame(rid: string, requester: string) returns (r: Result)
      requires Valid()
      modifies rooms.Values
      ensures Valid() && r == StartVerdict(old(View()), rid, requester)
      ensures View() == Started(old(View()), rid, requester)
    {
      ghost var s := View();
      if rid !in rooms {
        return Failure(RoomNotFound);
      }
      var room := rooms[rid];
      if requester != room.ownerId {
        return Failure(NotOwner);
      }
      if room.state != InWaiting {
        return Failure(WrongRoomState);
      }
      room.SetState(Playing);
      assert View().rooms == s.rooms[rid := room.View()];
      return OK;
    }

    /** GetRoom(rid)->SetState(state), where there is such a room. */
    method SetRoomState(rid: string, state: Status)
      requires Valid()
      modifies rooms.Values
      ensures Valid() && View() == WithState(old(View()), rid, state)
    {
      ghost var s := View();
      if rid in rooms {
        var room := rooms[rid];
        room.SetState(state);
        assert View().rooms == s.rooms[rid := room.View()];
      }
    }

    method ClearRoomPlayers(room: GameRoom)
      modifies this`playerRoom
      ensures playerRoom == old(playerRoom) - Elements(room.players)
    {
      for i := 0 to |room.players|
        invariant playerRoom == old(playerRoom) - Elements(room.players[..i])
      {
        assert Elements(room.players[..i + 1]) == Elements(room.players[..i]) + {room.players[i]};
        playerRoom := playerRoom - {room.players[i]};
      }
      assert room.players[..|room.players|] == room.players;
    }

    /** ClearRoomPlayers and erase. */
    method EraseRoom(rid: string)
      requires Valid() && rid in rooms
      modifies this
      ensures Valid() && rooms.Keys == old(rooms.Keys) - {rid} && View() == Dropped(old(View()), rid)
    {
      hide Elements;
      ghost var s := View();
      ClearRoomPlayers(rooms[rid]);
      rooms := rooms - {rid};
      assert View().rooms == s.rooms - {rid};
    }

    method RemoveRoom(rid: string) returns (removed: bool)
      requires Valid()
      modifies this
      ensures Valid() && removed == (rid in old(rooms)) && View() == Dropped(old(View()), rid)
    {
      removed := rid in rooms;
      if removed {
        EraseRoom(rid);
      }
    }

    /** The loop body of CleanupDestroyed. */
    method EraseIfDestroyed(rid: string, ghost s: Lobby, ghost gone: set<string>) returns (n: nat)
      requires Valid() && rid in rooms && rid in s.rooms && rid !in gone && View() == Erased(s, gone)
      modifies this
      ensures Valid() && rooms.Keys >= old(rooms.Keys) - {rid}
      ensures n == if s.rooms[rid].state.Destroyed? then 1 else 0
      ensures View() == Erased(s, if n == 1 then gone + {rid} else gone)
    {
      assert View().rooms[rid] == s.rooms[rid];
      n := 0;
      if rooms[rid].state == Destroyed {
        hide *;
        ErasedNext(s, gone, rid);
        EraseRoom(rid);
        n := 1;
      }
    }

    /** The loop visits the rooms in whatever order the hash map has. */
    method CleanupDestroyed() returns (removed: nat)
      requires Valid()
      modifies this
      ensures Valid() && View() == Cleaned(old(View())) && removed == |DestroyedIn(old(View()))|
    {
      ghost var s := View();
      var todo := rooms.Keys;
      ghost var gone: set<string> := {};
      ErasedNone(s);
      assert todo == s.rooms.Keys;
      hide *;
      removed := 0;
      while todo != {}
        invariant todo <= s.rooms.Keys && todo <= rooms.Keys && todo !! gone && removed == |gone|
        invariant forall rid :: rid in s.rooms ==> (rid in gone <==> rid !in todo && s.rooms[rid].state.Destroyed?)
        invariant gone <= s.rooms.Keys && Valid() && View() == Erased(s, gone)
        decreases |todo|
      {
        var rid :| rid in todo;
        todo := todo - {rid};
        var n := EraseIfDestroyed(rid, s, gone);
        removed := removed + n;
        gone := if n == 1 then gone + {rid} else gone;
      }
      CleanedErases(s, gone);
    }

    static lemma CleanedErases(s: Lobby, gone: set<string>)
      requires gone <= s.rooms.Keys
      requires forall rid :: rid in s.rooms ==> (rid in gone <==> s.rooms[rid].state.Destroyed?)
      ensures gone == DestroyedIn(s) && Cleaned(s) == Erased(s, gone)
    {
    }

    method CheckRoomTimeout(now: int) returns (removed: nat)
      requires Valid()
      modifies this, rooms.Values
      ensures Valid() && View() == TimedOut(old(View()), now)
      ensures removed == |DestroyedIn(AllExpired(old(View()), now))|
    {
      hide Expired;
      ghost var s := View();
      var todo := rooms.Keys;
      while todo != {}
        invariant todo <= rooms.Keys && Valid() && rooms == old(rooms)
        invariant playerRoom == s.playerRoom && counter == s.counter
        invariant forall rid :: rid in rooms ==>
                    rooms[rid].View() == if rid in todo then s.rooms[rid] else Expired(s.rooms[rid], now)
        modifies rooms.Values
        decreases |todo|
      {
        var rid :| rid in todo;
        todo := todo - {rid};
        var room := rooms[rid];
        room.DriveTimer(now);
      }
      assert View().rooms == AllExpired(s, now).rooms;
      removed := CleanupDestroyed();
    }
  }

  /** The two requests of the room service that set a room's state themselves. */
  class RoomService {
    const manager: RoomManager

    constructor (manager: RoomManager)
      ensures this.manager == manager
    {
      this.manager := manager;
    }

    /** A room created by request holds four unless told otherwise, and waits for players at once. */
    method CreateRoom(id: string, maxPlayers: int, now: int) returns (r: Result)
      requires manager.Valid()
      modifies manager, manager.rooms.Values
      ensures manager.Valid() && r == CreateVerdict(old(manager.View()), id)
      ensures var s := Created(old(manager.View()), id, if maxPlayers > 0 then maxPlayers else 4, 300000, now);
              manager.View() == if r.Success? then Opened(s, r.roomId) else s
    {
      hide Decimal.RoomName;
      r := manager.CreateRoom(id, if maxPlayers > 0 then maxPlayers else 4, 300000, now);
      if r.Success? {
        manager.SetRoomState(r.roomId, InWaiting);
      }
    }

    method StopGame(rid: string) returns (r: Result)
      requires manager.Valid()
      modifies manager.rooms.Values
      ensures manager.Valid() && manager.View() == WithState(old(manager.View()), rid, Finished)
      ensures r == if rid in old(manager.rooms) then OK else Failure(RoomNotFound)
    {
      if rid !in manager.rooms {
        return Failure(RoomNotFound);
      }
      manager.SetRoomState(rid, Finished);
      return OK;
    }
  }

  lemma AddRefused(r: Room, id: string)
    requires AddVerdict(r, id).Failure?
    ensures Added(r, id) == r
  {
  }

  lemma RemoveRefused(r: Room, id: string)
    requires id !in r.players
    ensures Removed(r, id) == r
  {
  }
}
