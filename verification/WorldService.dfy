/**
 The world server: the class whose methods change the world in place and send the notifications.  Each public method
 is proved to take the world's value to the one the functions of module World give, whatever order the unordered
 maps are walked in.
 */
module WorldServer {
  import opened Wrappers
  import opened World
  import opened Scene
  import Decimal

  datatype MoveResult = MoveResult(success: bool, error: string, x: real, y: real, z: real)
  datatype GatherResult = GatherResult(success: bool, error: string, resourceId: string, kind: int, x: real, y: real,
                                       z: real, remaining: int, wood: int, stone: int)
  datatype BuildingResult = BuildingResult(success: bool, error: string, buildingId: string, ownerId: string,
                                           kind: int, at: Pose, wood: int, stone: int)
  datatype CraftResult = CraftResult(success: bool, error: string, inv: Inventory)
  datatype EditResult = EditResult(success: bool, error: string, wood: int, stone: int, dirt: int, copper: int)

  const NO_GATHER := GatherResult(false, "", "", 0, 0.0, 0.0, 0.0, 0, 0, 0)
  const NO_BUILDING := BuildingResult(false, "", "", "", 0, Pose(0.0, 0.0, 0.0, 0.0), 0, 0)
  const NO_CRAFT := CraftResult(false, "", Inventory(0, 0, 0, 0, 0))
  const NO_EDIT := EditResult(false, "", 0, 0, 0, 0)

  lemma PostUnion(w: State, a: set<string>, b: set<string>, m: Message)
    requires a !! b
    ensures Post(Post(w, a, m), b, m) == Post(w, a + b, m)
  {
    assert Post(Post(w, a, m), b, m).inbox == Post(w, a + b, m).inbox;
  }

  /** Serving one more of the players still to be visited. */
  lemma PostNext(w: State, to: set<string>, todo: set<string>, id: string, m: Message)
    requires id in todo
    ensures Post(w, to - (todo - {id}), m) ==
            if id in to then Post(Post(w, to - todo, m), {id}, m) else Post(w, to - todo, m)
  {
    assert to - (todo - {id}) == if id in to then (to - todo) + {id} else to - todo;
    if id in to {
      PostUnion(w, to - todo, {id}, m);
    }
  }

  lemma PostNobody(w: State, m: Message)
    ensures Post(w, {}, m) == w
  {
    assert Post(w, {}, m).inbox == w.inbox;
  }

  class WorldService {
    var players: map<string, Player>
    var resources: map<string, Resource>
    var buildings: seq<Building>
    var nextBuildingId: nat
    var voxels: map<string, map<string, VoxelEdit>>
    /** What send_ was called with, per player online. */
    ghost var inbox: map<string, seq<Message>>

    ghost function View(): State
      reads this
    {
      State(players, resources, buildings, nextBuildingId, voxels, inbox)
    }

    constructor ()
      ensures View() == State(map[], map[], [], 1, map[], map[])
    {
      players, resources, buildings, nextBuildingId, voxels, inbox := map[], map[], [], 1, map[], map[];
    }

    // ---- scene ----

    method SeedDefaultScene()
      modifies this
      ensures View() == Seeded(old(View()))
      ensures resources.Keys == {"tree_1", "tree_2", "tree_3", "tree_4", "rock_1", "rock_2", "rock_3"}
      ensures forall id :: id in resources ==> resources[id].id == id
      ensures forall id :: id in resources ==>
                if resources[id].kind == RESOURCE_WOOD then resources[id].remaining == 6
                else resources[id].kind == RESOURCE_STONE && resources[id].remaining == 5
    {
      buildings, nextBuildingId := [], 1;
      resources := map[
        "tree_1" := Resource("tree_1", RESOURCE_WOOD, -6.0, 0.0, -5.0, 6),
        "tree_2" := Resource("tree_2", RESOURCE_WOOD, 7.0, 0.0, -4.0, 6),
        "tree_3" := Resource("tree_3", RESOURCE_WOOD, -9.0, 0.0, 7.0, 6),
        "tree_4" := Resource("tree_4", RESOURCE_WOOD, 10.0, 0.0, 8.0, 6),
        "rock_1" := Resource("rock_1", RESOURCE_STONE, -4.0, 0.0, 8.0, 5),
        "rock_2" := Resource("rock_2", RESOURCE_STONE, 5.0, 0.0, 6.0, 5),
        "rock_3" := Resource("rock_3", RESOURCE_STONE, 9.0, 0.0, -9.0, 5)];
    }

    method LoadScene(s: SceneSnapshot)
      modifies this
      ensures View() == Load(old(View()), s)
    {
      resources := ReadResources(s.resources);
      buildings := [];
      for i := 0 to |s.buildings|
        invariant buildings == s.buildings[..i]
        invariant unchanged(this`players, this`nextBuildingId, this`voxels, this`inbox)
        invariant resources == LoadResources(s.resources)
      {
        buildings := buildings + [s.buildings[i]];
      }
      nextBuildingId := if s.nextBuildingId > 0 then s.nextBuildingId else 1;
      voxels := ReadVoxels(s.voxels);
    }

    static method ReadResources(rs: seq<Resource>) returns (m: map<string, Resource>)
      ensures m == LoadResources(rs)
    {
      m := map[];
      for i := 0 to |rs|
        invariant m == LoadResources(rs[..i])
      {
        assert rs[..i + 1][..i] == rs[..i];
        if rs[i].id !in m {
          m := m[rs[i].id := rs[i]];
        }
      }
      assert rs[..|rs|] == rs;
    }

    static method ReadVoxels(vs: seq<SceneVoxel>) returns (m: map<string, map<string, VoxelEdit>>)
      ensures m == LoadVoxels(vs)
    {
      hide KeyOf;
      m := map[];
      for i := 0 to |vs|
        invariant m == LoadVoxels(vs[..i])
      {
        assert vs[..i + 1][..i] == vs[..i];
        var v := vs[i];
        var edits := if v.roomId in m then m[v.roomId] else map[];
        m := m[v.roomId := edits[KeyOf(v.edit) := v.edit]];
      }
      assert vs[..|vs|] == vs;
    }

    method ExportScene() returns (s: SceneSnapshot)
      ensures IsExport(View(), s)
    {
      var rs: seq<Resource> := [];
      var ids := resources.Keys;
      while ids != {}
        invariant ids <= resources.Keys
        invariant forall r :: r in rs <==> exists id :: id in resources.Keys - ids && resources[id] == r
        decreases |ids|
      {
        var id :| id in ids;
        ghost var before := rs;
        rs, ids := rs + [resources[id]], ids - {id};
        assert forall r :: r in rs <==> r in before || r == resources[id];
      }
      assert forall r :: r in rs <==> r in resources.Values;
      var vs: seq<SceneVoxel> := [];
      var rooms := voxels.Keys;
      while rooms != {}
        invariant rooms <= voxels.Keys
        invariant forall v :: v in vs <==> v.roomId !in rooms && StoredIn(View(), v)
        decreases |rooms|
      {
        var room :| room in rooms;
        rooms := rooms - {room};
        var edits := ListEdits(voxels[room]);
        ghost var before := vs;
        var more := seq(|edits|, i requires 0 <= i < |edits| => SceneVoxel(room, edits[i]));
        vs := vs + more;
        forall v ensures v in more <==> v.roomId == room && v.edit in voxels[room].Values {
          if v.roomId == room && v.edit in edits {
            var i :| 0 <= i < |edits| && edits[i] == v.edit;
            assert more[i] == v;
          }
        }
        assert forall v :: v in vs <==> v in before || v in more;
      }
      s := SceneSnapshot(rs, buildings, vs, nextBuildingId);
    }

    static method ListEdits(edits: map<string, VoxelEdit>) returns (es: seq<VoxelEdit>)
      ensures forall e :: e in es <==> e in edits.Values
    {
      es := [];
      var keys := edits.Keys;
      while keys != {}
        invariant keys <= edits.Keys
        invariant forall e :: e in es <==> exists key :: key in edits.Keys - keys && edits[key] == e
        decreases |keys|
      {
        var key :| key in keys;
        ghost var before := es;
        es, keys := es + [edits[key]], keys - {key};
        assert forall e :: e in es <==> e in before || e == edits[key];
      }
    }

    // ---- sending ----

    /** send_: one notification to one player. */
    ghost method Send(to: string, m: Message)
      modifies this`inbox
      ensures View() == Post(old(View()), {to}, m)
    {
      inbox := Post(View(), {to}, m).inbox;
    }

    /** Whether a notice to a room, sparing `except`, goes to player id. */
    predicate Hears(id: string, room: string, except: Option<string>)
      reads this`players
      requires id in players
    {
      players[id].roomId == room && except != Some(id)
    }

    /** The loop shared by the room broadcasts; `to` are the players that hear it. */
    method SendToHearers(room: string, except: Option<string>, ghost to: set<string>, ghost m: Message)
      requires to <= players.Keys && forall id :: id in players ==> (id in to <==> Hears(id, room, except))
      modifies this`inbox
      ensures View() == Post(old(View()), to, m)
    {
      hide Post, Hears;
      var todo := players.Keys;
      ghost var w := View();
      PostNobody(w, m);
      assert to - todo == {};
      while todo != {}
        invariant todo <= players.Keys && View() == Post(w, to - todo, m)
        decreases |todo|
      {
        var id :| id in todo;
        PostNext(w, to, todo, id, m);
        todo := todo - {id};
        if Hears(id, room, except) {
          Send(id, m);
        }
      }
      assert to - todo == to;
    }

    /** A notice to everyone in the room but `except`. */
    method SendToRoom(room: string, except: Option<string>, ghost m: Message)
      modifies this`inbox
      ensures var to := RoomMates(old(View()), room) - (if except.Some? then {except.value} else {});
              View() == Post(old(View()), to, m)
    {
      hide Post;
      SendToHearers(room, except, RoomMates(View(), room) - (if except.Some? then {except.value} else {}), m);
    }

    method SendToAll(ghost m: Message)
      modifies this`inbox
      ensures View() == Post(old(View()), players.Keys, m)
    {
      hide Post;
      var todo := players.Keys;
      ghost var w := View();
      PostNobody(w, m);
      assert w.players.Keys - todo == {};
      while todo != {}
        invariant todo <= players.Keys && View() == Post(w, w.players.Keys - todo, m)
        decreases |todo|
      {
        var id :| id in todo;
        PostNext(w, w.players.Keys, todo, id, m);
        todo := todo - {id};
        Send(id, m);
      }
      assert w.players.Keys - todo == w.players.Keys;
    }

    method SendWorldStateTo(to: string)
      modifies this
      ensures View() == SendWorldState(old(View()), to)
    {
      var transforms: set<Transform> := {};
      var edits: set<VoxelEdit> := {};
      var inventory: Option<Inventory> := None;
      if to in players {
        var room := players[to].roomId;
        var todo := players.Keys;
        while todo != {}
          invariant todo <= players.Keys
          invariant transforms == set id | id in RoomMates(View(), room) - todo :: Look(players[id])
          decreases |todo|
        {
          var id :| id in todo;
          todo := todo - {id};
          if players[id].roomId == room {
            transforms := transforms + {Look(players[id])};
            assert RoomMates(View(), room) - todo == (RoomMates(View(), room) - (todo + {id})) + {id};
          } else {
            assert RoomMates(View(), room) - todo == RoomMates(View(), room) - (todo + {id});
          }
        }
        assert RoomMates(View(), room) - todo == RoomMates(View(), room);
        if room !in voxels {
          voxels := voxels[room := map[]];
        }
        edits := voxels[room].Values;
        inventory := Some(players[to].inv);
      }
      ghost var w1 := View();
      assert RoomMates(w1, if to in players then players[to].roomId else "") ==
             RoomMates(old(View()), if to in players then players[to].roomId else "");
      Send(to, WorldStateNtf(transforms, resources.Values, buildings, edits, inventory));
    }

    // ---- requests ----

    method EnterWithState(id: string, name: string, now: int, pose: Pose, inv: Inventory, ghost reset: bool)
      modifies this
      ensures View() == Enter(old(View()), id, name, now, pose, inv, reset)
    {
      var roomId, mapId, appearance := "lobby", 0, 0;
      if id in players {
        roomId, mapId, appearance := players[id].roomId, players[id].mapId, players[id].appearance;
      }
      var p := Player(id, name, roomId, mapId, pose, appearance, inv, now, INITIAL_MOVE_ALLOWANCE,
                      now - MIN_BROADCAST_INTERVAL_MS);
      players := players[id := p];
      inbox := if reset || id !in inbox then inbox[id := []] else inbox;
      ghost var w1 := Joined(old(View()), id, name, now, pose, inv, reset);
      assert View() == w1;
      hide Joined;
      SendWorldStateTo(id);
      SendToRoom(p.roomId, Some(id), PlayerEnterNtf(Look(p)));
    }

    /** Enter: an online player keeps its place and belongings, a new one gets a spot on the spawn grid. */
    method EnterOnGrid(id: string, name: string, now: int, ghost reset: bool)
      modifies this
      ensures var w := old(View());
              View() == if id in w.players then Enter(w, id, name, now, w.players[id].pose, w.players[id].inv, reset)
                        else Enter(w, id, name, now,
                                   Pose((|w.players| % 4) as real * 2.0, 0.0, (|w.players| / 4) as real * 2.0, 0.0),
                                   Inventory(6, 3, 12, 0, 0), reset)
    {
      hide Enter;
      if id in players {
        EnterWithState(id, name, now, players[id].pose, players[id].inv, reset);
      } else {
        var x, z := (|players| % 4) as real * 2.0, (|players| / 4) as real * 2.0;
        EnterWithState(id, name, now, Pose(x, 0.0, z, 0.0), Inventory(6, 3, 12, 0, 0), reset);
      }
    }

    method LeaveWorld(id: string)
      modifies this
      ensures View() == Leave(old(View()), id)
    {
      if id in players {
        var room := players[id].roomId;
        players := players - {id};
        inbox := inbox - {id};
        assert RoomMates(View(), room) - {} == RoomMates(View(), room);
        SendToRoom(room, None, PlayerLeaveNtf(id));
      }
    }

    method ChangeRoom(id: string, room: string, mapId: int, now: int, hash: nat) returns (ok: bool)
      modifies this
      ensures ok == RoomChangeAllowed(old(View()), id, room, mapId)
      ensures View() == SelectRoom(old(View()), id, room, mapId, now, hash)
    {
      if id !in players || room == "" || mapId < 0 || mapId > 2 {
        return false;
      }
      assert RoomMates(View(), players[id].roomId) - {} == RoomMates(View(), players[id].roomId);
      SendToRoom(players[id].roomId, None, PlayerLeaveNtf(id));
      var p := players[id];
      p := p.(roomId := room, mapId := mapId, pose := Pose((hash % 5) as real - 2.0, 0.0, 0.0, p.pose.yaw),
              lastMoveMs := now, moveAllowance := INITIAL_MOVE_ALLOWANCE);
      players := players[id := p];
      assert View() == Moved(old(View()), id, room, mapId, now, hash);
      hide Moved;
      SendWorldStateTo(id);
      SendToRoom(room, Some(id), PlayerEnterNtf(Look(p)));
      return true;
    }

    method TryMove(id: string, target: Pose, now: int, appearance: int, dist: real) returns (r: MoveResult)
      requires id in players ==> IsDistance(dist, ClampPose(target), players[id].pose)
      modifies this
      ensures View() == Move(old(View()), id, target, now, appearance, dist)
      ensures var v := MoveVerdict(old(View()), id, target, now, dist);
              r.success == v.Granted? && r.error == (if v.Refused? then v.error else "")
      ensures id in players ==> (r.x, r.y, r.z) == (players[id].pose.x, players[id].pose.y, players[id].pose.z)
      ensures r.success ==> id in players && players[id].pose == target
      ensures !r.success && id in old(players) ==> id in players && players[id].pose == old(players)[id].pose
    {
      if id !in players {
        return MoveResult(false, "player is not in world", 0.0, 0.0, 0.0);
      }
      var p := players[id];
      var clamped := ClampPose(target);
      var dt := MaxInt(now - p.lastMoveMs, 0);
      var allowance := MinReal(MOVE_BURST_ALLOWANCE, p.moveAllowance + MAX_SPEED * dt as real / 1000.0);
      ghost var was := p;
      p := p.(moveAllowance := allowance, lastMoveMs := now);
      if clamped != target || dist > allowance {
        players := players[id := p];
        var error := if clamped != target then "position outside world" else "movement too fast";
        return MoveResult(false, error, p.pose.x, p.pose.y, p.pose.z);
      }
      p := p.(moveAllowance := MaxReal(0.0, allowance - dist), pose := clamped,
              appearance := if appearance < 0 then 0 else if appearance > 3 then 3 else appearance);
      var announce := now - p.lastBroadcastMs >= MIN_BROADCAST_INTERVAL_MS;
      if announce {
        p := p.(lastBroadcastMs := now);
      }
      players := players[id := p];
      assert p == AfterMove(was, target, now, appearance, dist);
      assert announce == Announces(was, target, now, dist);
      hide AfterMove, Announces;
      if announce {
        SendToRoom(p.roomId, Some(id), WorldStateNtf({Look(p)}, {}, [], {}, None));
      }
      return MoveResult(true, "", p.pose.x, p.pose.y, p.pose.z);
    }

    method TryGather(id: string, rid: string) returns (r: GatherResult)
      modifies this
      ensures View() == Gather(old(View()), id, rid)
      ensures var v := GatherVerdict(old(View()), id, rid);
              r.success == v.Granted? && r.error == (if v.Refused? then v.error else "")
      ensures id !in players ==> r == NO_GATHER.(error := "player is not in world")
      ensures id in players && rid !in resources ==> r == NO_GATHER.(error := "resource not found")
      ensures id in players && rid in resources ==>
                var x := resources[rid];
                r == GatherResult(r.success, r.error, x.id, x.kind, x.x, x.y, x.z, x.remaining, players[id].inv.wood,
                                  players[id].inv.stone)
    {
      hide Post;
      if id !in players {
        return NO_GATHER.(error := "player is not in world");
      }
      if rid !in resources {
        return NO_GATHER.(error := "resource not found");
      }
      var p, x := players[id], resources[rid];
      r := GatherResult(false, "", x.id, x.kind, x.x, x.y, x.z, x.remaining, p.inv.wood, p.inv.stone);
      if x.remaining <= 0 {
        return r.(error := "resource depleted");
      }
      if DistanceSq(p.pose.x, p.pose.y, p.pose.z, x.x, x.y, x.z) > INTERACT_DISTANCE * INTERACT_DISTANCE {
        return r.(error := "resource is too far away");
      }
      x := x.(remaining := x.remaining - 1);
      if x.kind == RESOURCE_WOOD {
        p := p.(inv := p.inv.(wood := p.inv.wood + 1));
      }
      if x.kind == RESOURCE_STONE {
        p := p.(inv := p.inv.(stone := p.inv.stone + 1));
      }
      resources, players := resources[rid := x], players[id := p];
      SendToAll(ResourceChangedNtf(x));
      return r.(success := true, remaining := x.remaining, wood := p.inv.wood, stone := p.inv.stone);
    }

    method TryPlaceBuilding(id: string, kind: int, target: Pose) returns (r: BuildingResult)
      modifies this
      ensures View() == Build(old(View()), id, kind, target)
      ensures var v := BuildVerdict(old(View()), id, kind, target);
              r.success == v.Granted? && r.error == (if v.Refused? then v.error else "")
      ensures id !in players ==> r == NO_BUILDING.(error := "player is not in world")
      ensures id in players ==>
                var name := if r.success then Decimal.BuildingName(old(nextBuildingId)) else "";
                r == BuildingResult(r.success, r.error, name, id, kind, Snapped(target), players[id].inv.wood,
                                    players[id].inv.stone)
      ensures r.success ==> r.buildingId == Decimal.BuildingName(old(nextBuildingId))
      ensures r.success ==>
                && id in old(players)
                && r.wood == old(players)[id].inv.wood - (if kind == 1 then 2 else if kind == 2 then 3 else 0)
                && r.stone == old(players)[id].inv.stone - (if kind == 3 then 3 else 0)
    {
      hide Post, Decimal.BuildingName, Near, Snapped;
      if id !in players {
        return NO_BUILDING.(error := "player is not in world");
      }
      var p, at := players[id], Snapped(target);
      r := BuildingResult(false, "", "", id, kind, at, p.inv.wood, p.inv.stone);
      var woodCost, stoneCost := 0, 0;
      if kind == BUILDING_FLOOR {
        woodCost := 2;
      } else if kind == BUILDING_WALL {
        woodCost := 3;
      } else if kind == BUILDING_CAMPFIRE {
        stoneCost := 3;
      } else {
        return r.(error := "unknown building type");
      }
      if DistanceSq(p.pose.x, p.pose.y, p.pose.z, at.x, at.y, at.z) > 8.0 * 8.0 {
        return r.(error := "build location is too far away");
      }
      if p.inv.wood < woodCost || p.inv.stone < stoneCost {
        return r.(error := "not enough resources");
      }
      for i := 0 to |buildings|
        invariant !Occupied(buildings[..i], at)
      {
        if Near(buildings[i], at) {
          return r.(error := "build location is occupied");
        }
        assert buildings[..i + 1] == buildings[..i] + [buildings[i]];
      }
      assert buildings[..|buildings|] == buildings;
      p := p.(inv := p.inv.(wood := p.inv.wood - woodCost, stone := p.inv.stone - stoneCost));
      var b := Building(Decimal.BuildingName(nextBuildingId), id, kind, at);
      players := players[id := p];
      nextBuildingId := nextBuildingId + 1;
      buildings := buildings + [b];
      SendToAll(BuildingPlacedNtf(b));
      return r.(success := true, buildingId := b.id, wood := p.inv.wood, stone := p.inv.stone);
    }

    method TryCraft(id: string, recipe: int) returns (r: CraftResult)
      modifies this
      ensures View() == Craft(old(View()), id, recipe)
      ensures var v := CraftVerdict(old(View()), id, recipe);
              r.success == v.Granted? && r.error == (if v.Refused? then v.error else "")
      ensures r.success ==> id in players && r.inv == players[id].inv
    {
      if id !in players {
        return NO_CRAFT.(error := "player is not in world");
      }
      var woodCost, stoneCost, copperCost, required := 2, 0, 0, 0;
      if recipe == 1 {
        required := 0;
      } else if recipe == 2 {
        stoneCost, required := 5, 1;
      } else if recipe == 3 {
        copperCost, required := 5, 2;
      } else {
        return NO_CRAFT.(error := "invalid recipe");
      }
      var inv := players[id].inv;
      if inv.toolLevel >= recipe {
        return NO_CRAFT.(error := "tool already crafted");
      }
      if inv.toolLevel < required {
        return NO_CRAFT.(error := "previous tool required");
      }
      if inv.wood < woodCost || inv.stone < stoneCost || inv.copper < copperCost {
        return NO_CRAFT.(error := "not enough material");
      }
      inv := inv.(wood := inv.wood - woodCost, stone := inv.stone - stoneCost, copper := inv.copper - copperCost,
                  toolLevel := recipe);
      players := players[id := players[id].(inv := inv)];
      return CraftResult(true, "", inv);
    }

    /** A removal yields its block, a placement uses one up. */
    static method Exchange(before: Inventory, action: int, kind: int) returns (inv: Inventory)
      requires action != 1 ==> PlaceStock(before, kind).Some?
      ensures inv == AfterEdit(before, action, kind)
    {
      inv := before;
      if action == 1 {
        if kind == 1 || kind == 2 {
          inv := inv.(dirt := inv.dirt + 1);
        } else if kind == 3 {
          inv := inv.(stone := inv.stone + 1);
        } else if kind == 4 {
          inv := inv.(wood := inv.wood + 1);
        } else if kind == 5 {
          inv := inv.(copper := inv.copper + 1);
        }
      } else if kind == 2 {
        inv := inv.(dirt := inv.dirt - 1);
      } else if kind == 3 {
        inv := inv.(stone := inv.stone - 1);
      } else {
        inv := inv.(wood := inv.wood - 1);
      }
    }

    method ApplyVoxelEdit(id: string, x: int, y: int, z: int, action: int, blockType: int) returns (r: EditResult)
      modifies this
      ensures View() == EditVoxel(old(View()), id, x, y, z, action, blockType)
      ensures var v := EditVerdict(old(View()), id, x, y, z, action, blockType);
              r.success == v.Granted? && r.error == (if v.Refused? then v.error else "")
      ensures r.success ==> id in players
      ensures r.success ==> players[id].inv == Inventory(r.wood, r.stone, r.dirt, r.copper, players[id].inv.toolLevel)
    {
      hide Decimal.VoxelKey, AfterEdit, Post;
      if id !in players {
        return NO_EDIT.(error := "player is not in world");
      }
      var p := players[id];
      var dx, dz := x as real - p.pose.x, z as real - p.pose.z;
      if dx * dx + dz * dz > 25.0 {
        return NO_EDIT.(error := "block is too far away");
      }
      if (action != 1 && action != 2) || blockType < 0 || blockType > 5 || y < -1 || y > 4 {
        return NO_EDIT.(error := "invalid voxel edit");
      }
      var key := Decimal.VoxelKey(x, y, z);
      if p.roomId !in voxels {
        voxels := voxels[p.roomId := map[]];
      }
      ghost var w1 := View();
      assert EditPrecheck(old(View()), id, x, y, z, action, blockType).Granted?;
      assert w1 == Touch(old(View()), p.roomId);
      var edits := voxels[p.roomId];
      if action == 1 && key in edits && edits[key].action == 1 {
        return NO_EDIT.(error := "block already removed");
      }
      if action == 2 && key in edits && edits[key].action == 2 {
        return NO_EDIT.(error := "block occupied");
      }
      var kind := blockType;
      if action == 1 {
        if key in edits && edits[key].action == 2 {
          kind := edits[key].blockType;
        }
      } else {
        var stock := PlaceStock(p.inv, blockType);
        if stock.None? {
          return NO_EDIT.(error := "unsupported place material");
        }
        if stock.value <= 0 {
          return NO_EDIT.(error := "not enough material");
        }
      }
      var inv := Exchange(p.inv, action, kind);
      var e := VoxelEdit(x, y, z, action, kind);
      assert EditVerdict(old(View()), id, x, y, z, action, blockType).Granted?;
      assert kind == EffectiveType(old(View()), p.roomId, x, y, z, action, blockType);
      players := players[id := p.(inv := inv)];
      voxels := voxels[p.roomId := edits[key := e]];
      hide EditVerdict, EditPrecheck, EffectiveType, AfterEdit, Post;
      ghost var w2 := View();
      assert RoomMates(w2, p.roomId) - {} == RoomMates(w2, p.roomId);
      SendToRoom(p.roomId, None, VoxelEditNtf(e));
      return EditResult(true, "", inv.wood, inv.stone, inv.dirt, inv.copper);
    }
  }
}
