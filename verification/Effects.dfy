/**
 What each request of the world server comes to, said without the functions that compute it: when exactly it is
 granted and why it is refused, how the world afterwards differs from the world before, and who is told what.
 Limits and prices stand here as numbers.
 */
module WorldEffects {
  import opened Wrappers
  import opened World
  import Decimal

  // ---- what stays ----

  /** Nobody else's record changes. */
  ghost predicate OthersSame(w: State, w': State, id: string) {
    forall p :: p != id ==>
      (p in w'.players <==> p in w.players) && (p in w.players ==> w'.players[p] == w.players[p])
  }

  ghost predicate SceneSame(w: State, w': State) {
    w'.resources == w.resources && w'.buildings == w.buildings && w'.nextBuildingId == w.nextBuildingId
  }

  /** Each of `to` that is online gets the notification, once, and nobody gets anything else. */
  ghost predicate Told(w: State, w': State, to: iset<string>, m: Message) {
    && w'.inbox.Keys == w.inbox.Keys
    && forall p :: p in w.inbox ==> w'.inbox[p] == w.inbox[p] + if p in to then [m] else []
  }

  /** The others in the room. */
  ghost function Neighbours(w: State, room: string, id: string): iset<string> {
    iset p | p in w.players && w.players[p].roomId == room && p != id
  }

  ghost function InRoom(w: State, room: string): iset<string> {
    iset p | p in w.players && w.players[p].roomId == room
  }

  ghost function Everyone(w: State): iset<string> {
    iset p | p in w.players
  }

  // ---- moving ----

  /** The milliseconds a move's allowance grows for. */
  function Elapsed(p: Player, now: int): real {
    if now > p.lastMoveMs then (now - p.lastMoveMs) as real else 0.0
  }

  predicate InWorld(t: Pose) {
    -500.0 <= t.x <= 500.0 && -500.0 <= t.y <= 500.0 && -500.0 <= t.z <= 500.0
  }

  /** The distance is within the burst of 15 and within the allowance refilled at 15 a second. */
  predicate WithinAllowance(p: Player, now: int, dist: real) {
    dist <= 15.0 && 1000.0 * (dist - p.moveAllowance) <= 15.0 * Elapsed(p, now)
  }

  lemma MoveGrantedExactly(w: State, id: string, t: Pose, now: int, dist: real)
    ensures var v := MoveVerdict(w, id, t, now, dist);
            && (v.Granted? <==> id in w.players && InWorld(t) && WithinAllowance(w.players[id], now, dist))
            && (v == Refused("player is not in world") <==> id !in w.players)
            && (v == Refused("position outside world") <==> id in w.players && !InWorld(t))
            && (v == Refused("movement too fast") <==>
                  id in w.players && InWorld(t) && !WithinAllowance(w.players[id], now, dist))
  {
    assert "player is not in world"[1] == 'l' && "position outside world"[1] == 'o' && "movement too fast"[2] == 'v';
  }

  /**
   A granted move puts the player at the target, a refused one leaves it where it was; either way the clock moves and
   the allowance is refilled up to 15, less what was travelled.  A move is announced to the others of the room, with
   the pose the player then has, when 50 ms have passed since the last announcement.
   */
  lemma MoveEffect(w: State, id: string, t: Pose, now: int, appearance: int, dist: real)
    requires id in w.players
    ensures var w' := Step(w, DoMove(id, t, now, appearance, dist));
            var granted := InWorld(t) && WithinAllowance(w.players[id], now, dist);
            && id in w'.players && OthersSame(w, w', id) && SceneSame(w, w') && w'.voxels == w.voxels
            && var p, q := w.players[id], w'.players[id];
               var tells := granted && now - p.lastBroadcastMs >= 50;
            && q == p.(pose := if granted then t else p.pose, moveAllowance := q.moveAllowance, lastMoveMs := now,
                       appearance := q.appearance, lastBroadcastMs := if tells then now else p.lastBroadcastMs)
            && (var full := p.moveAllowance + 15.0 * Elapsed(p, now) / 1000.0;
                q.moveAllowance + (if granted then dist else 0.0) == if full < 15.0 then full else 15.0)
            && (granted ==> 0 <= q.appearance <= 3 && (0 <= appearance <= 3 ==> q.appearance == appearance)
                            && (appearance < 0 ==> q.appearance == 0) && (appearance > 3 ==> q.appearance == 3))
            && (!granted ==> q.appearance == p.appearance)
            && Told(w, w', if tells then Neighbours(w, p.roomId, id) else iset{},
                    WorldStateNtf({Transform(p.playerId, p.name, t, q.appearance)}, {}, [], {}, None))
  {
    MoveGrantedExactly(w, id, t, now, dist);
    var p := w.players[id];
    assert JudgeMove(p, t, now, dist) == MoveVerdict(w, id, t, now, dist);
    assert MaxInt(now - p.lastMoveMs, 0) as real == Elapsed(p, now);
    hide JudgeMove, MoveVerdict;
  }

  // ---- gathering ----

  predicate InReach(p: Pose, r: Resource) {
    (p.x - r.x) * (p.x - r.x) + (p.y - r.y) * (p.y - r.y) + (p.z - r.z) * (p.z - r.z) <= 16.0
  }

  lemma GatherGrantedExactly(w: State, id: string, rid: string)
    ensures var v := GatherVerdict(w, id, rid);
            var known := id in w.players && rid in w.resources;
            && (v.Granted? <==>
                  known && w.resources[rid].remaining > 0 && InReach(w.players[id].pose, w.resources[rid]))
            && (v == Refused("player is not in world") <==> id !in w.players)
            && (v == Refused("resource not found") <==> id in w.players && rid !in w.resources)
            && (v == Refused("resource depleted") <==> known && w.resources[rid].remaining <= 0)
            && (v == Refused("resource is too far away") <==>
                  known && w.resources[rid].remaining > 0 && !InReach(w.players[id].pose, w.resources[rid]))
  {
    assert "player is not in world"[0] == 'p' && "resource not found"[9] == 'n' && "resource depleted"[9] == 'd'
           && "resource is too far away"[9] == 'i';
  }

  /** A granted gather takes one from the resource, gives one wood or stone to the player, and everyone is told. */
  lemma GatherEffect(w: State, id: string, rid: string)
    ensures var w' := Step(w, DoGather(id, rid));
            if id in w.players && rid in w.resources && w.resources[rid].remaining > 0
               && InReach(w.players[id].pose, w.resources[rid]) then
              var p, r := w.players[id], w.resources[rid];
              var less := r.(remaining := r.remaining - 1);
              && id in w'.players && OthersSame(w, w', id)
              && w'.players[id] == p.(inv := p.inv.(wood := p.inv.wood + if r.kind == 1 then 1 else 0,
                                                    stone := p.inv.stone + if r.kind == 2 then 1 else 0))
              && w'.resources == w.resources[rid := less]
              && w'.buildings == w.buildings && w'.nextBuildingId == w.nextBuildingId && w'.voxels == w.voxels
              && Told(w, w', Everyone(w), ResourceChangedNtf(less))
            else w' == w
  {
    GatherGrantedExactly(w, id, rid);
  }

  // ---- building ----

  /** r is the whole number nearest to v; halfway, the one further from zero. */
  predicate Nearest(r: real, v: real) {
    && r == r.Floor as real && -0.5 <= r - v <= 0.5
    && (r - v == 0.5 ==> v > 0.0) && (r - v == -0.5 ==> v < 0.0)
  }

  /** Whole coordinates, and quarter turns. */
  predicate OnGrid(at: Pose, target: Pose) {
    && Nearest(at.x, target.x) && Nearest(at.y, target.y) && Nearest(at.z, target.z)
    && Nearest(at.yaw / 90.0, target.yaw / 90.0)
  }

  lemma RoundNearest(v: real)
    ensures Nearest(Round(v), v)
  {
    if v >= 0.0 {
      var n := (v + 0.5).Floor;
      assert (n as real).Floor == n && n as real <= v + 0.5 < n as real + 1.0;
    } else {
      var n := (0.5 - v).Floor;
      assert -(n as real) == (-n) as real && ((-n) as real).Floor == -n && n as real <= 0.5 - v < n as real + 1.0;
    }
  }

  lemma NearestUnique(r: real, s: real, v: real)
    requires Nearest(r, v) && Nearest(s, v)
    ensures r == s
  {
    var a, b := r.Floor, s.Floor;
    assert a as real == r && b as real == s && -1.0 <= r - s <= 1.0;
    assert a - b == 1 ==> r - v == 0.5 && s - v == -0.5;
    assert b - a == 1 ==> s - v == 0.5 && r - v == -0.5;
  }

  /** There is one such pose, and it is where a building goes. */
  lemma SnappedExactly(target: Pose, at: Pose)
    ensures OnGrid(at, target) <==> at == Snapped(target)
  {
    RoundNearest(target.x);
    RoundNearest(target.y);
    RoundNearest(target.z);
    RoundNearest(target.yaw / 90.0);
    var s := Snapped(target);
    assert s.yaw / 90.0 == Round(target.yaw / 90.0);
    if OnGrid(at, target) {
      hide Round;
      NearestUnique(at.x, s.x, target.x);
      NearestUnique(at.y, s.y, target.y);
      NearestUnique(at.z, s.z, target.z);
      NearestUnique(at.yaw / 90.0, s.yaw / 90.0, target.yaw / 90.0);
      assert at.yaw == (at.yaw / 90.0) * 90.0 && s.yaw == (s.yaw / 90.0) * 90.0;
    }
  }

  function Square(p: Pose, q: Pose): real {
    (p.x - q.x) * (p.x - q.x) + (p.y - q.y) * (p.y - q.y) + (p.z - q.z) * (p.z - q.z)
  }

  /** A floor costs two wood, a wall three, a campfire three stone. */
  predicate Affords(inv: Inventory, kind: int) {
    && inv.wood >= (if kind == 1 then 2 else if kind == 2 then 3 else 0)
    && inv.stone >= (if kind == 3 then 3 else 0)
  }

  /** A building stands nearer than 0.8. */
  predicate SpotTaken(bs: seq<Building>, at: Pose) {
    exists b :: b in bs && Square(b.pose, at) < 0.64
  }

  lemma SquareMeans(p: Pose, q: Pose)
    ensures DistanceSq(p.x, p.y, p.z, q.x, q.y, q.z) == Square(p, q)
  {
  }

  lemma NearMeans(b: Building, at: Pose)
    ensures Near(b, at) <==> Square(b.pose, at) < 0.64
  {
    SquareMeans(b.pose, at);
    hide DistanceSq, Square;
  }

  lemma TakenMeans(bs: seq<Building>, at: Pose)
    ensures SpotTaken(bs, at) <==> Occupied(bs, at)
  {
    hide Near, Square;
    if SpotTaken(bs, at) {
      var b :| b in bs && Square(b.pose, at) < 0.64;
      var i :| 0 <= i < |bs| && bs[i] == b;
      NearMeans(b, at);
    }
    if Occupied(bs, at) {
      var i :| 0 <= i < |bs| && Near(bs[i], at);
      NearMeans(bs[i], at);
      assert bs[i] in bs;
    }
  }

  lemma BuildGrantedExactly(w: State, id: string, kind: int, target: Pose, at: Pose)
    requires OnGrid(at, target)
    ensures var v := BuildVerdict(w, id, kind, target);
            var known := id in w.players && 1 <= kind <= 3;
            var near := known && Square(w.players[id].pose, at) <= 64.0;
            && (v.Granted? <==> near && Affords(w.players[id].inv, kind) && !SpotTaken(w.buildings, at))
            && (v == Refused("player is not in world") <==> id !in w.players)
            && (v == Refused("unknown building type") <==> id in w.players && !known)
            && (v == Refused("build location is too far away") <==> known && !near)
            && (v == Refused("not enough resources") <==> near && !Affords(w.players[id].inv, kind))
            && (v == Refused("build location is occupied") <==>
                  near && Affords(w.players[id].inv, kind) && SpotTaken(w.buildings, at))
  {
    SnappedExactly(target, at);
    TakenMeans(w.buildings, at);
    if id in w.players {
      SquareMeans(w.players[id].pose, at);
    }
    hide Snapped, Occupied, SpotTaken, OnGrid, DistanceSq, Square;
    assert "player is not in world"[0] == 'p' && "unknown building type"[0] == 'u' && "not enough resources"[0] == 'n'
           && "build location is too far away"[18] == 't' && "build location is occupied"[18] == 'o';
  }

  /** A granted building stands on the grid under the next id and is paid for, and everyone is told. */
  lemma BuildEffect(w: State, id: string, kind: int, target: Pose, at: Pose)
    requires OnGrid(at, target)
    ensures var w' := Step(w, DoBuild(id, kind, target));
            if id in w.players && 1 <= kind <= 3 && Square(w.players[id].pose, at) <= 64.0
               && Affords(w.players[id].inv, kind) && !SpotTaken(w.buildings, at) then
              var p := w.players[id];
              var b := Building(Decimal.BuildingName(w.nextBuildingId), id, kind, at);
              && id in w'.players && OthersSame(w, w', id)
              && w'.players[id] ==
                 p.(inv := p.inv.(wood := p.inv.wood - (if kind == 1 then 2 else if kind == 2 then 3 else 0),
                                  stone := p.inv.stone - (if kind == 3 then 3 else 0)))
              && w'.buildings == w.buildings + [b] && w'.nextBuildingId == w.nextBuildingId + 1
              && w'.resources == w.resources && w'.voxels == w.voxels
              && Told(w, w', Everyone(w), BuildingPlacedNtf(b))
            else w' == w
  {
    BuildGrantedExactly(w, id, kind, target, at);
    SnappedExactly(target, at);
    hide BuildVerdict, Snapped, SpotTaken, OnGrid, Decimal.BuildingName;
  }

  // ---- crafting ----

  /** Every tool costs two wood, the second five stone besides, the third five copper. */
  predicate CanCraft(inv: Inventory, recipe: int) {
    inv.wood >= 2 && inv.stone >= (if recipe == 2 then 5 else 0) && inv.copper >= (if recipe == 3 then 5 else 0)
  }

  /** A tool can be made only by those who have the tool right below it. */
  lemma CraftGrantedExactly(w: State, id: string, recipe: int)
    ensures var v := CraftVerdict(w, id, recipe);
            var known := id in w.players && 1 <= recipe <= 3;
            && (v.Granted? <==>
                  known && w.players[id].inv.toolLevel == recipe - 1 && CanCraft(w.players[id].inv, recipe))
            && (v == Refused("player is not in world") <==> id !in w.players)
            && (v == Refused("invalid recipe") <==> id in w.players && !known)
            && (v == Refused("tool already crafted") <==> known && w.players[id].inv.toolLevel >= recipe)
            && (v == Refused("previous tool required") <==> known && w.players[id].inv.toolLevel < recipe - 1)
            && (v == Refused("not enough material") <==>
                  known && w.players[id].inv.toolLevel == recipe - 1 && !CanCraft(w.players[id].inv, recipe))
  {
    assert "player is not in world"[1] == 'l' && "invalid recipe"[0] == 'i' && "tool already crafted"[0] == 't'
           && "previous tool required"[0] == 'p' && "previous tool required"[1] == 'r'
           && "not enough material"[0] == 'n';
  }

  /** A granted craft takes the materials and raises the tool by one level; nobody is told. */
  lemma CraftEffect(w: State, id: string, recipe: int)
    ensures var w' := Step(w, DoCraft(id, recipe));
            if id in w.players && 1 <= recipe <= 3 && w.players[id].inv.toolLevel == recipe - 1
               && CanCraft(w.players[id].inv, recipe) then
              var p := w.players[id];
              && id in w'.players && OthersSame(w, w', id) && SceneSame(w, w') && w'.voxels == w.voxels
              && w'.inbox == w.inbox
              && w'.players[id] ==
                 p.(inv := Inventory(p.inv.wood - 2, p.inv.stone - (if recipe == 2 then 5 else 0), p.inv.dirt,
                                     p.inv.copper - (if recipe == 3 then 5 else 0), p.inv.toolLevel + 1))
            else w' == w
  {
    CraftGrantedExactly(w, id, recipe);
  }

  // ---- voxels ----

  /** What the room has stored at the coordinate. */
  function StoredAt(w: State, room: string, x: int, y: int, z: int): Option<VoxelEdit> {
    var key := Decimal.VoxelKey(x, y, z);
    if room in w.voxels && key in w.voxels[room] then Some(w.voxels[room][key]) else None
  }

  predicate Removed(e: Option<VoxelEdit>) { e.Some? && e.value.action == 1 }

  predicate Occupying(e: Option<VoxelEdit>) { e.Some? && e.value.action == 2 }

  /** In reach on the ground plane. */
  predicate BlockInReach(p: Pose, x: int, z: int) {
    (x as real - p.x) * (x as real - p.x) + (z as real - p.z) * (z as real - p.z) <= 25.0
  }

  predicate SaneEdit(y: int, action: int, blockType: int) {
    (action == 1 || action == 2) && 0 <= blockType <= 5 && -1 <= y <= 4
  }

  /** Dirt, stone and wood can be placed by those who have some. */
  predicate HasBlock(inv: Inventory, blockType: int) {
    (blockType == 2 && inv.dirt > 0) || (blockType == 3 && inv.stone > 0) || (blockType == 4 && inv.wood > 0)
  }

  lemma EditGrantedExactly(w: State, id: string, x: int, y: int, z: int, action: int, blockType: int)
    ensures var v := EditVerdict(w, id, x, y, z, action, blockType);
            var near := id in w.players && BlockInReach(w.players[id].pose, x, z);
            var sane := near && SaneEdit(y, action, blockType);
            var e := if sane then StoredAt(w, w.players[id].roomId, x, y, z) else None;
            && (v.Granted? <==>
                  sane && if action == 1 then !Removed(e) else !Occupying(e) && HasBlock(w.players[id].inv, blockType))
            && (v == Refused("player is not in world") <==> id !in w.players)
            && (v == Refused("block is too far away") <==> id in w.players && !near)
            && (v == Refused("invalid voxel edit") <==> near && !sane)
            && (v == Refused("block already removed") <==> sane && action == 1 && Removed(e))
            && (v == Refused("block occupied") <==> sane && action == 2 && Occupying(e))
            && (v == Refused("unsupported place material") <==>
                  sane && action == 2 && !Occupying(e) && !(2 <= blockType <= 4))
            && (v == Refused("not enough material") <==>
                  sane && action == 2 && !Occupying(e) && 2 <= blockType <= 4
                  && !HasBlock(w.players[id].inv, blockType))
  {
    hide Decimal.VoxelKey;
    assert "player is not in world"[0] == 'p' && "invalid voxel edit"[0] == 'i'
           && "unsupported place material"[0] == 'u' && "not enough material"[0] == 'n'
           && "block is too far away"[6] == 'i' && "block already removed"[6] == 'a' && "block occupied"[6] == 'o';
  }

  /** What a removed block becomes in the inventory: grass and dirt are dirt, then stone, wood and copper. */
  function Taken(inv: Inventory, kind: int): Inventory {
    Inventory(inv.wood + (if kind == 4 then 1 else 0), inv.stone + (if kind == 3 then 1 else 0),
              inv.dirt + (if kind == 1 || kind == 2 then 1 else 0), inv.copper + (if kind == 5 then 1 else 0),
              inv.toolLevel)
  }

  function Spent(inv: Inventory, kind: int): Inventory {
    Inventory(inv.wood - (if kind == 4 then 1 else 0), inv.stone - (if kind == 3 then 1 else 0),
              inv.dirt - (if kind == 2 then 1 else 0), inv.copper, inv.toolLevel)
  }

  /** The edits of a room afterwards: those before, and the new one under its key. */
  ghost predicate EditStored(w: State, w': State, room: string, x: int, y: int, z: int, e: VoxelEdit) {
    && w'.voxels.Keys == w.voxels.Keys + {room}
    && (forall other :: other in w.voxels && other != room ==> w'.voxels[other] == w.voxels[other])
    && w'.voxels[room] == (if room in w.voxels then w.voxels[room] else map[])[Decimal.VoxelKey(x, y, z) := e]
  }

  /**
   A granted removal yields the block that was placed there, or the one the client names if none was; a granted
   placement uses one up.  The edit is stored, and the room is told, the editor included.  A refused edit changes
   nothing but that the room may have an empty edit map.
   */
  lemma EditEffect(w: State, id: string, x: int, y: int, z: int, action: int, blockType: int)
    ensures var w' := Step(w, DoEdit(id, x, y, z, action, blockType));
            if EditVerdict(w, id, x, y, z, action, blockType).Granted? && id in w.players then
              var p := w.players[id];
              var was := StoredAt(w, p.roomId, x, y, z);
              var kind := if action == 1 && Occupying(was) then was.value.blockType else blockType;
              var e := VoxelEdit(x, y, z, action, kind);
              && id in w'.players && OthersSame(w, w', id) && SceneSame(w, w')
              && w'.players[id] == p.(inv := if action == 1 then Taken(p.inv, kind) else Spent(p.inv, kind))
              && EditStored(w, w', p.roomId, x, y, z, e)
              && Told(w, w', InRoom(w, p.roomId), VoxelEditNtf(e))
            else
              && w'.players == w.players && SceneSame(w, w') && w'.inbox == w.inbox
              && forall room :: EditsOf(w', room) == EditsOf(w, room)
  {
    hide Decimal.VoxelKey;
    if EditVerdict(w, id, x, y, z, action, blockType).Granted? && id in w.players {
      EditYield(w, id, x, y, z, action, blockType);
      EditPlayers(w, id, x, y, z, action, blockType);
      EditMaps(w, id, x, y, z, action, blockType);
      EditTold(w, id, x, y, z, action, blockType);
      hide *;
    }
  }

  lemma EditPlayers(w: State, id: string, x: int, y: int, z: int, action: int, blockType: int)
    requires EditVerdict(w, id, x, y, z, action, blockType).Granted? && id in w.players
    ensures var w' := EditVoxel(w, id, x, y, z, action, blockType);
            var kind := EffectiveType(w, w.players[id].roomId, x, y, z, action, blockType);
            && id in w'.players && OthersSame(w, w', id) && SceneSame(w, w')
            && w'.players[id] == w.players[id].(inv := AfterEdit(w.players[id].inv, action, kind))
  {
    assert EditPrecheck(w, id, x, y, z, action, blockType).Granted?;
    hide Decimal.VoxelKey, EditVerdict, EditPrecheck, EffectiveType, AfterEdit, RoomMates;
  }

  lemma EditMaps(w: State, id: string, x: int, y: int, z: int, action: int, blockType: int)
    requires EditVerdict(w, id, x, y, z, action, blockType).Granted? && id in w.players
    ensures var w' := EditVoxel(w, id, x, y, z, action, blockType);
            var kind := EffectiveType(w, w.players[id].roomId, x, y, z, action, blockType);
            EditStored(w, w', w.players[id].roomId, x, y, z, VoxelEdit(x, y, z, action, kind))
  {
    assert EditPrecheck(w, id, x, y, z, action, blockType).Granted?;
    hide Decimal.VoxelKey, EditVerdict, EditPrecheck, EffectiveType, AfterEdit, RoomMates;
  }

  lemma EditTold(w: State, id: string, x: int, y: int, z: int, action: int, blockType: int)
    requires EditVerdict(w, id, x, y, z, action, blockType).Granted? && id in w.players
    ensures var w' := EditVoxel(w, id, x, y, z, action, blockType);
            var kind := EffectiveType(w, w.players[id].roomId, x, y, z, action, blockType);
            Told(w, w', InRoom(w, w.players[id].roomId), VoxelEditNtf(VoxelEdit(x, y, z, action, kind)))
  {
    assert EditPrecheck(w, id, x, y, z, action, blockType).Granted?;
    hide Decimal.VoxelKey, EditVerdict, EditPrecheck, EffectiveType, AfterEdit;
  }

  lemma EditYield(w: State, id: string, x: int, y: int, z: int, action: int, blockType: int)
    requires EditVerdict(w, id, x, y, z, action, blockType).Granted? && id in w.players
    ensures var p := w.players[id];
            var was := StoredAt(w, p.roomId, x, y, z);
            var kind := if action == 1 && Occupying(was) then was.value.blockType else blockType;
            && EffectiveType(w, p.roomId, x, y, z, action, blockType) == kind
            && AfterEdit(p.inv, action, kind) == if action == 1 then Taken(p.inv, kind) else Spent(p.inv, kind)
  {
    EditGrantedExactly(w, id, x, y, z, action, blockType);
    hide Decimal.VoxelKey, EditVerdict;
  }

  // ---- entering, leaving, changing rooms ----

  ghost function EditsSeen(w: State, room: string): set<VoxelEdit> {
    if room in w.voxels then w.voxels[room].Values else {}
  }

  /** The state notification of player id: everyone in its room, all shared records, its own inventory. */
  ghost predicate TellsState(w: State, id: string, m: Message) {
    && id in w.players && m.WorldStateNtf?
    && (forall t :: t in m.players <==>
          exists p :: p in w.players && w.players[p].roomId == w.players[id].roomId && t == Seen(w.players[p]))
    && m.resources == w.resources.Values && m.placed == w.buildings
    && m.edits == EditsSeen(w, w.players[id].roomId) && m.inventory == Some(w.players[id].inv)
  }

  function Seen(p: Player): Transform {
    Transform(p.playerId, p.name, p.pose, p.appearance)
  }

  ghost predicate VoxelsSame(w: State, w': State) {
    forall room :: EditsOf(w', room) == EditsOf(w, room)
  }

  lemma SnapshotTells(w: State, id: string)
    requires id in w.players
    ensures TellsState(w, id, Snapshot(w, id))
  {
    var m := Snapshot(w, id);
    forall t | t in m.players
      ensures exists p :: p in w.players && w.players[p].roomId == w.players[id].roomId && t == Seen(w.players[p])
    {
      var p :| p in RoomMates(w, w.players[id].roomId) && t == Look(w.players[p]);
    }
    forall p | p in w.players && w.players[p].roomId == w.players[id].roomId ensures Seen(w.players[p]) in m.players {
      assert p in RoomMates(w, w.players[id].roomId) && Seen(w.players[p]) == Look(w.players[p]);
    }
  }

  /** The arriving player is told the state, the others of its room that it has come. */
  lemma ArriveTold(w: State, id: string) returns (m: Message)
    requires id in w.players
    ensures var w' := Arrive(w, id);
            && w'.players == w.players && SceneSame(w, w') && VoxelsSame(w, w') && TellsState(w', id, m)
            && w'.inbox.Keys == w.inbox.Keys
            && forall p :: p in w.inbox ==>
                 w'.inbox[p] == w.inbox[p] + if p == id then [m]
                                             else if p in Neighbours(w, w.players[id].roomId, id)
                                               then [PlayerEnterNtf(Seen(w.players[id]))] else []
  {
    var w1 := Touch(w, w.players[id].roomId);
    m := Snapshot(w1, id);
    SnapshotTells(w1, id);
    assert Seen(w.players[id]) == Look(w.players[id]);
    hide Snapshot, TellsState;
    var w' := Arrive(w, id);
    assert w' == w1.(inbox := w'.inbox);
    TellsSame(w1, w', id, m);
  }

  lemma TellsSame(w: State, w': State, id: string, m: Message)
    requires TellsState(w, id, m) && w' == w.(inbox := w'.inbox)
    ensures TellsState(w', id, m)
  {
  }

  lemma JoinedOnly(w: State, id: string, name: string, now: int, pose: Pose, inv: Inventory, reset: bool)
    ensures var w1 := Joined(w, id, name, now, pose, inv, reset);
            && w1 == w.(players := w1.players, inbox := w1.inbox) && id in w1.players && OthersSame(w, w1, id)
            && w1.inbox == w.inbox[id := if reset || id !in w.inbox then [] else w.inbox[id]]
            && w1.players[id] ==
               Player(id, name, if id in w.players then w.players[id].roomId else "lobby",
                      if id in w.players then w.players[id].mapId else 0, pose,
                      if id in w.players then w.players[id].appearance else 0, inv, now, 1.0, now - 50)
  {
  }

  /**
   An entering player has the name, pose and inventory it comes with, an allowance of 1 and its announcements due at
   once; if it was online it keeps room, map and looks, otherwise it comes to the lobby.  It is told the state, the
   others of its room that it has come.
   */
  lemma EnterEffect(w: State, id: string, name: string, now: int, pose: Pose, inv: Inventory, reset: bool)
    returns (m: Message)
    ensures var w' := Step(w, DoEnter(id, name, now, pose, inv, reset));
            && id in w'.players && OthersSame(w, w', id) && SceneSame(w, w') && VoxelsSame(w, w')
            && TellsState(w', id, m) && w'.inbox.Keys == w.inbox.Keys + {id}
            && var q, known := w'.players[id], id in w.players;
            && q == Player(id, name, if known then w.players[id].roomId else "lobby",
                           if known then w.players[id].mapId else 0, pose,
                           if known then w.players[id].appearance else 0, inv, now, 1.0, now - 50)
            && w'.inbox[id] == (if reset || id !in w.inbox then [] else w.inbox[id]) + [m]
            && forall p :: p in w.inbox && p != id ==>
                 w'.inbox[p] == w.inbox[p] + if p in Neighbours(w, q.roomId, id) then [PlayerEnterNtf(Seen(q))] else []
  {
    var w1 := Joined(w, id, name, now, pose, inv, reset);
    assert Step(w, DoEnter(id, name, now, pose, inv, reset)) == Arrive(w1, id);
    hide *;
    JoinedOnly(w, id, name, now, pose, inv, reset);
    m := ArriveTold(w1, id);
    SameThrough(w, w1, Arrive(w1, id), id);
  }

  /** First the player's record and the logs change, then the logs and perhaps the room's empty edit map. */
  lemma SameThrough(w: State, w1: State, w': State, id: string)
    requires OthersSame(w, w1, id) && w1 == w.(players := w1.players, inbox := w1.inbox)
    requires w'.players == w1.players && SceneSame(w1, w') && VoxelsSame(w1, w')
    ensures OthersSame(w, w', id) && SceneSame(w, w') && VoxelsSame(w, w')
    ensures forall room :: Neighbours(w1, room, id) == Neighbours(w, room, id)
  {
    forall room ensures Neighbours(w1, room, id) == Neighbours(w, room, id) {
    }
  }

  /** A leaving player is gone, and exactly its room is told. */
  lemma LeaveEffect(w: State, id: string)
    ensures var w' := Step(w, DoLeave(id));
            if id in w.players then
              && w'.players == w.players - {id} && SceneSame(w, w') && w'.voxels == w.voxels
              && w'.inbox.Keys == w.inbox.Keys - {id}
              && forall p :: p in w.inbox && p != id ==>
                   w'.inbox[p] == w.inbox[p] +
                     if p in Neighbours(w, w.players[id].roomId, id) then [PlayerLeaveNtf(id)] else []
            else w' == w
  {
  }

  /**
   A room change, granted to an online player for a room with a name and a map from 0 to 2, puts the player on the
   spawn line of the room with its looks, belongings and announcement clock as they were; the old room, the mover
   included, is told of the leave, the mover the state, and the new room the arrival.
   */
  lemma SelectRoomEffect(w: State, id: string, room: string, mapId: int, now: int, hash: nat) returns (m: Message)
    ensures var w' := Step(w, DoSelectRoom(id, room, mapId, now, hash));
            if id in w.players && room != "" && 0 <= mapId <= 2 then
              var p := w.players[id];
              && id in w'.players && OthersSame(w, w', id) && SceneSame(w, w') && VoxelsSame(w, w')
              && TellsState(w', id, m) && w'.inbox.Keys == w.inbox.Keys
              && var q := w'.players[id];
              && q == p.(roomId := room, mapId := mapId, pose := Pose(q.pose.x, 0.0, 0.0, p.pose.yaw),
                         lastMoveMs := now, moveAllowance := 1.0)
              && q.pose.x in {-2.0, -1.0, 0.0, 1.0, 2.0} && (exists n: nat :: hash == 5 * n + (q.pose.x.Floor + 2))
              && forall o :: o in w.inbox ==>
                   w'.inbox[o] == w.inbox[o] + (if o in InRoom(w, p.roomId) then [PlayerLeaveNtf(id)] else [])
                     + if o == id then [m]
                       else if o in Neighbours(w, room, id) then [PlayerEnterNtf(Seen(q))] else []
            else w' == w
  {
    if id in w.players && room != "" && 0 <= mapId <= 2 {
      var w1 := Moved(w, id, room, mapId, now, hash);
      SpawnLine(hash);
      MovedOnly(w, id, room, mapId, now, hash);
      assert Step(w, DoSelectRoom(id, room, mapId, now, hash)) == Arrive(w1, id);
      hide *;
      m := ArriveTold(w1, id);
      SameThrough(w, w1, Arrive(w1, id), id);
    } else {
      m := PlayerLeaveNtf(id);
    }
  }

  lemma MovedOnly(w: State, id: string, room: string, mapId: int, now: int, hash: nat)
    requires id in w.players
    ensures var w1 := Moved(w, id, room, mapId, now, hash);
            && w1 == w.(players := w1.players, inbox := w1.inbox) && id in w1.players && OthersSame(w, w1, id)
            && Told(w, w1, InRoom(w, w.players[id].roomId), PlayerLeaveNtf(id))
            && w1.players[id] ==
               w.players[id].(roomId := room, mapId := mapId,
                              pose := Pose((hash % 5) as real - 2.0, 0.0, 0.0, w.players[id].pose.yaw),
                              lastMoveMs := now, moveAllowance := 1.0)
  {
  }

  lemma SpawnLine(hash: nat)
    ensures var x := (hash % 5) as real - 2.0;
            x in {-2.0, -1.0, 0.0, 1.0, 2.0} && exists n: nat :: hash == 5 * n + (x.Floor + 2)
  {
    var k := hash % 5;
    assert hash == 5 * (hash / 5) + k;
    assert (k as real - 2.0).Floor == k - 2;
  }
}
