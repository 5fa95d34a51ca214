/**
 The value of the shared world and what each request does to it: players, resources, buildings, voxel edits, and
 the notifications put on the wire to every online player.  The class WorldService changes its fields in place and
 is proved against these functions.

 Coordinates are exact reals; distances are compared by their squares.
 */
module World {
  import opened Wrappers
  import Decimal

  const MAX_SPEED := 15.0
  const MOVE_BURST_ALLOWANCE := 15.0
  const INITIAL_MOVE_ALLOWANCE := 1.0
  const BOUND := 500.0
  const INTERACT_DISTANCE := 4.0
  const MIN_BROADCAST_INTERVAL_MS := 50

  const RESOURCE_WOOD := 1
  const RESOURCE_STONE := 2
  const BUILDING_FLOOR := 1
  const BUILDING_WALL := 2
  const BUILDING_CAMPFIRE := 3

  // ---- data ----

  datatype Pose = Pose(x: real, y: real, z: real, yaw: real)

  datatype Inventory = Inventory(wood: int, stone: int, dirt: int, copper: int, toolLevel: int)

  datatype Player = Player(
    playerId: string, name: string, roomId: string, mapId: int, pose: Pose, appearance: int, inv: Inventory,
    lastMoveMs: int, moveAllowance: real, lastBroadcastMs: int)

  datatype Resource = Resource(id: string, kind: int, x: real, y: real, z: real, remaining: int)

  datatype Building = Building(id: string, ownerId: string, kind: int, pose: Pose)

  datatype VoxelEdit = VoxelEdit(x: int, y: int, z: int, action: int, blockType: int)

  datatype Transform = Transform(playerId: string, name: string, pose: Pose, appearance: int)

  /** A notification; its repeated fields other than the buildings come from unordered maps and so are sets. */
  datatype Message =
    | WorldStateNtf(players: set<Transform>, resources: set<Resource>, placed: seq<Building>,
                    edits: set<VoxelEdit>, inventory: Option<Inventory>)
    | PlayerEnterNtf(transform: Transform)
    | PlayerLeaveNtf(playerId: string)
    | ResourceChangedNtf(resource: Resource)
    | BuildingPlacedNtf(building: Building)
    | VoxelEditNtf(edit: VoxelEdit)

  /** inbox[p] lists the notifications sent to the online player p since the session of p began. */
  datatype State = State(
    players: map<string, Player>, resources: map<string, Resource>, buildings: seq<Building>, nextBuildingId: nat,
    voxels: map<string, map<string, VoxelEdit>>, inbox: map<string, seq<Message>>)

  datatype Verdict = Granted | Refused(error: string)

  // ---- arithmetic ----

  function Clamp(v: real, lo: real, hi: real): real {
    if v < lo then lo else if v > hi then hi else v
  }

  /** std::round: half away from zero. */
  function Round(v: real): real {
    if v >= 0.0 then (v + 0.5).Floor as real else -((0.5 - v).Floor as real)
  }

  function DistanceSq(x1: real, y1: real, z1: real, x2: real, y2: real, z2: real): real {
    (x1 - x2) * (x1 - x2) + (y1 - y2) * (y1 - y2) + (z1 - z2) * (z1 - z2)
  }

  function MaxInt(a: int, b: int): int { if a > b then a else b }
  function MaxReal(a: real, b: real): real { if a > b then a else b }
  function MinReal(a: real, b: real): real { if a < b then a else b }

  // ---- reading the state ----

  function Look(p: Player): Transform {
    Transform(p.playerId, p.name, p.pose, p.appearance)
  }

  function RoomMates(w: State, room: string): set<string> {
    set id | id in w.players && w.players[id].roomId == room
  }

  function EditsOf(w: State, room: string): map<string, VoxelEdit> {
    if room in w.voxels then w.voxels[room] else map[]
  }

  /** What SendWorldStateTo tells player `to`. */
  function Snapshot(w: State, to: string): Message {
    if to in w.players then
      var p := w.players[to];
      WorldStateNtf(set id | id in RoomMates(w, p.roomId) :: Look(w.players[id]),
                    w.resources.Values, w.buildings, EditsOf(w, p.roomId).Values, Some(p.inv))
    else
      WorldStateNtf({}, w.resources.Values, w.buildings, {}, None)
  }

  // ---- effects shared by the requests ----

  /** One more notification to each online player in `to`. */
  function Post(w: State, to: set<string>, m: Message): (r: State)
    ensures r == w.(inbox := r.inbox) && r.inbox.Keys == w.inbox.Keys
  {
    w.(inbox := map id | id in w.inbox :: if id in to then w.inbox[id] + [m] else w.inbox[id])
  }

  /** operator[] on the voxel map creates the room's entry. */
  function Touch(w: State, room: string): (r: State)
    ensures r == w.(voxels := r.voxels)
  {
    if room in w.voxels then w else w.(voxels := w.voxels[room := map[]])
  }

  function PutPlayer(w: State, id: string, p: Player): State {
    w.(players := w.players[id := p])
  }

  function SendWorldState(w: State, to: string): (r: State)
    ensures r == w.(voxels := r.voxels, inbox := r.inbox)
  {
    var w1 := if to in w.players then Touch(w, w.players[to].roomId) else w;
    Post(w1, {to}, Snapshot(w1, to))
  }

  // ---- entering, leaving, changing rooms ----

  function Entered(w: State, id: string, name: string, now: int, pose: Pose, inv: Inventory): Player {
    var room := if id in w.players then w.players[id].roomId else "lobby";
    var mapId := if id in w.players then w.players[id].mapId else 0;
    var appearance := if id in w.players then w.players[id].appearance else 0;
    Player(id, name, room, mapId, pose, appearance, inv, now, INITIAL_MOVE_ALLOWANCE, now - MIN_BROADCAST_INTERVAL_MS)
  }

  /** The snapshot to an arriving player, then the enter notice to the others of the room. */
  function Arrive(w: State, id: string): (r: State)
    requires id in w.players
    ensures r == w.(voxels := r.voxels, inbox := r.inbox)
  {
    var w1 := SendWorldState(w, id);
    Post(w1, RoomMates(w1, w.players[id].roomId) - {id}, PlayerEnterNtf(Look(w.players[id])))
  }

  /** Enter before the player arrives.  `reset` says whether the client starts an empty copy (a new connection). */
  function Joined(w: State, id: string, name: string, now: int, pose: Pose, inv: Inventory, reset: bool): State {
    var w1 := PutPlayer(w, id, Entered(w, id, name, now, pose, inv));
    if reset || id !in w.inbox then w1.(inbox := w1.inbox[id := []]) else w1
  }

  /** EnterWithState. */
  function Enter(w: State, id: string, name: string, now: int, pose: Pose, inv: Inventory, reset: bool): State {
    Arrive(Joined(w, id, name, now, pose, inv, reset), id)
  }

  function Leave(w: State, id: string): State {
    if id !in w.players then w else
    var room := w.players[id].roomId;
    var w1 := w.(players := w.players - {id}, inbox := w.inbox - {id});
    Post(w1, RoomMates(w1, room), PlayerLeaveNtf(id))
  }

  predicate RoomChangeAllowed(w: State, id: string, room: string, mapId: int) {
    id in w.players && room != "" && 0 <= mapId <= 2
  }

  /** SelectRoom before the player arrives: the old room, the mover included, is told of the leave. */
  function Moved(w: State, id: string, room: string, mapId: int, now: int, hash: nat): State
    requires id in w.players
  {
    var was := w.players[id];
    var p := was.(roomId := room, mapId := mapId, pose := Pose((hash % 5) as real - 2.0, 0.0, 0.0, was.pose.yaw),
                  lastMoveMs := now, moveAllowance := INITIAL_MOVE_ALLOWANCE);
    PutPlayer(Post(w, RoomMates(w, was.roomId), PlayerLeaveNtf(id)), id, p)
  }

  /** SelectRoom; `hash` is std::hash of the player id. */
  function SelectRoom(w: State, id: string, room: string, mapId: int, now: int, hash: nat): State {
    if !RoomChangeAllowed(w, id, room, mapId) then w else
    Arrive(Moved(w, id, room, mapId, now, hash), id)
  }

  // ---- moving ----

  /** The allowance a player has at time `now`, before the move is judged. */
  function Refilled(p: Player, now: int): real {
    MinReal(MOVE_BURST_ALLOWANCE, p.moveAllowance + MAX_SPEED * MaxInt(now - p.lastMoveMs, 0) as real / 1000.0)
  }

  /** d is the distance std::sqrt would give exactly. */
  ghost predicate IsDistance(d: real, a: Pose, b: Pose) {
    d >= 0.0 && d * d == DistanceSq(a.x, a.y, a.z, b.x, b.y, b.z)
  }

  function ClampPose(p: Pose): Pose {
    Pose(Clamp(p.x, -BOUND, BOUND), Clamp(p.y, -BOUND, BOUND), Clamp(p.z, -BOUND, BOUND), p.yaw)
  }

  function MoveVerdict(w: State, id: string, target: Pose, now: int, dist: real): Verdict {
    if id !in w.players then Refused("player is not in world") else JudgeMove(w.players[id], target, now, dist)
  }

  function JudgeMove(p: Player, target: Pose, now: int, dist: real): Verdict {
    if ClampPose(target) != target then Refused("position outside world")
    else if dist > Refilled(p, now) then Refused("movement too fast")
    else Granted
  }

  /** Whether an accepted move is announced to the room. */
  predicate Announces(p: Player, target: Pose, now: int, dist: real) {
    JudgeMove(p, target, now, dist).Granted? && now - p.lastBroadcastMs >= MIN_BROADCAST_INTERVAL_MS
  }

  /** The player after TryMove.  A refused move still refills the allowance and moves the clock. */
  function AfterMove(p: Player, target: Pose, now: int, appearance: int, dist: real): Player {
    var q := p.(moveAllowance := Refilled(p, now), lastMoveMs := now);
    if JudgeMove(p, target, now, dist).Refused? then q else
    q.(moveAllowance := MaxReal(0.0, q.moveAllowance - dist), pose := target,
       appearance := if appearance < 0 then 0 else if appearance > 3 then 3 else appearance,
       lastBroadcastMs := if Announces(p, target, now, dist) then now else p.lastBroadcastMs)
  }

  /** TryMove; `dist` is the distance from the player to the clamped target. */
  function Move(w: State, id: string, target: Pose, now: int, appearance: int, dist: real): State {
    if id !in w.players then w else
    var p := w.players[id];
    var q := AfterMove(p, target, now, appearance, dist);
    var w1 := PutPlayer(w, id, q);
    if Announces(p, target, now, dist) then
      Post(w1, RoomMates(w1, q.roomId) - {id}, WorldStateNtf({Look(q)}, {}, [], {}, None))
    else w1
  }

  // ---- gathering, building, crafting ----

  function GatherVerdict(w: State, id: string, rid: string): Verdict {
    if id !in w.players then Refused("player is not in world")
    else if rid !in w.resources then Refused("resource not found")
    else
      var p, r := w.players[id].pose, w.resources[rid];
      if r.remaining <= 0 then Refused("resource depleted")
      else if DistanceSq(p.x, p.y, p.z, r.x, r.y, r.z) > INTERACT_DISTANCE * INTERACT_DISTANCE then
        Refused("resource is too far away")
      else Granted
  }

  function Gather(w: State, id: string, rid: string): State {
    if !GatherVerdict(w, id, rid).Granted? then w else
    var p, r := w.players[id], w.resources[rid];
    var r' := r.(remaining := r.remaining - 1);
    var inv' := p.inv.(wood := p.inv.wood + (if r.kind == RESOURCE_WOOD then 1 else 0),
                       stone := p.inv.stone + (if r.kind == RESOURCE_STONE then 1 else 0));
    var w1 := PutPlayer(w, id, p.(inv := inv')).(resources := w.resources[rid := r']);
    Post(w1, w1.players.Keys, ResourceChangedNtf(r'))
  }

  function WoodCost(kind: int): int {
    if kind == BUILDING_FLOOR then 2 else if kind == BUILDING_WALL then 3 else 0
  }

  function StoneCost(kind: int): int {
    if kind == BUILDING_CAMPFIRE then 3 else 0
  }

  function Snapped(p: Pose): Pose {
    Pose(Round(p.x), Round(p.y), Round(p.z), Round(p.yaw / 90.0) * 90.0)
  }

  predicate Occupied(buildings: seq<Building>, at: Pose) {
    exists i :: 0 <= i < |buildings| && Near(buildings[i], at)
  }

  predicate Near(b: Building, at: Pose) {
    DistanceSq(b.pose.x, b.pose.y, b.pose.z, at.x, at.y, at.z) < 0.8 * 0.8
  }

  function BuildVerdict(w: State, id: string, kind: int, target: Pose): Verdict {
    if id !in w.players then Refused("player is not in world")
    else if kind != BUILDING_FLOOR && kind != BUILDING_WALL && kind != BUILDING_CAMPFIRE then
      Refused("unknown building type")
    else
      var p, at := w.players[id], Snapped(target);
      if DistanceSq(p.pose.x, p.pose.y, p.pose.z, at.x, at.y, at.z) > 8.0 * 8.0 then
        Refused("build location is too far away")
      else if p.inv.wood < WoodCost(kind) || p.inv.stone < StoneCost(kind) then Refused("not enough resources")
      else if Occupied(w.buildings, at) then Refused("build location is occupied")
      else Granted
  }

  function Build(w: State, id: string, kind: int, target: Pose): State {
    if !BuildVerdict(w, id, kind, target).Granted? then w else
    var p := w.players[id];
    var b := Building(Decimal.BuildingName(w.nextBuildingId), id, kind, Snapped(target));
    var inv' := p.inv.(wood := p.inv.wood - WoodCost(kind), stone := p.inv.stone - StoneCost(kind));
    var w1 := PutPlayer(w, id, p.(inv := inv')).(
      buildings := w.buildings + [b], nextBuildingId := w.nextBuildingId + 1);
    Post(w1, w1.players.Keys, BuildingPlacedNtf(b))
  }

  function CraftVerdict(w: State, id: string, recipe: int): Verdict {
    if id !in w.players then Refused("player is not in world")
    else if recipe < 1 || recipe > 3 then Refused("invalid recipe")
    else
      var inv := w.players[id].inv;
      if inv.toolLevel >= recipe then Refused("tool already crafted")
      else if inv.toolLevel < recipe - 1 then Refused("previous tool required")
      else if inv.wood < 2 || inv.stone < (if recipe == 2 then 5 else 0)
              || inv.copper < (if recipe == 3 then 5 else 0) then Refused("not enough material")
      else Granted
  }

  function Craft(w: State, id: string, recipe: int): State {
    if !CraftVerdict(w, id, recipe).Granted? then w else
    var p := w.players[id];
    var inv' := p.inv.(wood := p.inv.wood - 2, stone := p.inv.stone - (if recipe == 2 then 5 else 0),
                       copper := p.inv.copper - (if recipe == 3 then 5 else 0), toolLevel := recipe);
    PutPlayer(w, id, p.(inv := inv'))
  }

  // ---- voxels ----

  /** The edit already stored at a coordinate. */
  function Previous(w: State, room: string, x: int, y: int, z: int): Option<VoxelEdit> {
    var key := Decimal.VoxelKey(x, y, z);
    if key in EditsOf(w, room) then Some(EditsOf(w, room)[key]) else None
  }

  function PlaceStock(inv: Inventory, blockType: int): Option<int> {
    if blockType == 2 then Some(inv.dirt)
    else if blockType == 3 then Some(inv.stone)
    else if blockType == 4 then Some(inv.wood)
    else None
  }

  /** The checks made before the room's edit map is looked up. */
  function EditPrecheck(w: State, id: string, x: int, y: int, z: int, action: int, blockType: int): Verdict {
    if id !in w.players then Refused("player is not in world")
    else
      var p := w.players[id].pose;
      var dx, dz := x as real - p.x, z as real - p.z;
      if dx * dx + dz * dz > 25.0 then Refused("block is too far away")
      else if (action != 1 && action != 2) || blockType < 0 || blockType > 5 || y < -1 || y > 4 then
        Refused("invalid voxel edit")
      else Granted
  }

  function EditVerdict(w: State, id: string, x: int, y: int, z: int, action: int, blockType: int): Verdict {
    var pre := EditPrecheck(w, id, x, y, z, action, blockType);
    if pre.Refused? then pre else
    var p := w.players[id];
    var prev := Previous(w, p.roomId, x, y, z);
    if action == 1 then
      if prev.Some? && prev.value.action == 1 then Refused("block already removed") else Granted
    else if prev.Some? && prev.value.action == 2 then Refused("block occupied")
    else match PlaceStock(p.inv, blockType)
      case None => Refused("unsupported place material")
      case Some(n) => if n <= 0 then Refused("not enough material") else Granted
  }

  /** The block a removal yields: the placed one if one was placed, else the one the client names. */
  function EffectiveType(w: State, room: string, x: int, y: int, z: int, action: int, blockType: int): int {
    var prev := Previous(w, room, x, y, z);
    if action == 1 && prev.Some? && prev.value.action == 2 then prev.value.blockType else blockType
  }

  function AfterEdit(inv: Inventory, action: int, kind: int): Inventory {
    if action == 1 then
      if kind == 1 || kind == 2 then inv.(dirt := inv.dirt + 1)
      else if kind == 3 then inv.(stone := inv.stone + 1)
      else if kind == 4 then inv.(wood := inv.wood + 1)
      else if kind == 5 then inv.(copper := inv.copper + 1)
      else inv
    else
      if kind == 2 then inv.(dirt := inv.dirt - 1)
      else if kind == 3 then inv.(stone := inv.stone - 1)
      else if kind == 4 then inv.(wood := inv.wood - 1)
      else inv
  }

  function EditVoxel(w: State, id: string, x: int, y: int, z: int, action: int, blockType: int): State {
    if EditPrecheck(w, id, x, y, z, action, blockType).Refused? then w else
    var p := w.players[id];
    var w1 := Touch(w, p.roomId);
    if EditVerdict(w, id, x, y, z, action, blockType).Refused? then w1 else
    var kind := EffectiveType(w, p.roomId, x, y, z, action, blockType);
    var e := VoxelEdit(x, y, z, action, kind);
    var edits := w1.voxels[p.roomId][Decimal.VoxelKey(x, y, z) := e];
    var w2 := PutPlayer(w1, id, p.(inv := AfterEdit(p.inv, action, kind))).(voxels := w1.voxels[p.roomId := edits]);
    Post(w2, RoomMates(w2, p.roomId), VoxelEditNtf(e))
  }

  // ---- runs ----

  datatype Op =
    | DoEnter(id: string, name: string, now: int, pose: Pose, inv: Inventory, reset: bool)
    | DoLeave(id: string)
    | DoSelectRoom(id: string, room: string, mapId: int, now: int, hash: nat)
    | DoMove(id: string, pose: Pose, now: int, appearance: int, dist: real)
    | DoGather(id: string, rid: string)
    | DoBuild(id: string, kind: int, pose: Pose)
    | DoCraft(id: string, recipe: int)
    | DoEdit(id: string, vx: int, vy: int, vz: int, action: int, blockType: int)

  function Step(w: State, op: Op): State {
    match op
    case DoEnter(id, name, now, pose, inv, reset) => Enter(w, id, name, now, pose, inv, reset)
    case DoLeave(id) => Leave(w, id)
    case DoSelectRoom(id, room, mapId, now, hash) => SelectRoom(w, id, room, mapId, now, hash)
    case DoMove(id, pose, now, appearance, dist) => Move(w, id, pose, now, appearance, dist)
    case DoGather(id, rid) => Gather(w, id, rid)
    case DoBuild(id, kind, pose) => Build(w, id, kind, pose)
    case DoCraft(id, recipe) => Craft(w, id, recipe)
    case DoEdit(id, x, y, z, action, blockType) => EditVoxel(w, id, x, y, z, action, blockType)
  }

  function Run(w: State, ops: seq<Op>): State {
    if ops == [] then w else Step(Run(w, ops[..|ops| - 1]), ops[|ops| - 1])
  }

  /** Records sit under their own ids, ids of buildings are distinct and below the counter, edits under their keys. */
  ghost predicate WellFormed(w: State) {
    && (forall id :: id in w.players ==> w.players[id].playerId == id)
    && (forall id :: id in w.resources ==> w.resources[id].id == id)
    && (forall i, j :: 0 <= i < j < |w.buildings| ==> w.buildings[i].id != w.buildings[j].id)
    && (forall i, k: nat :: 0 <= i < |w.buildings| && w.nextBuildingId <= k ==>
          w.buildings[i].id != Decimal.BuildingName(k))
    && (forall room, key :: room in w.voxels && key in w.voxels[room] ==> KeyFits(w.voxels[room][key], key))
    && w.inbox.Keys == w.players.Keys
  }

  ghost predicate KeyFits(e: VoxelEdit, key: string) {
    Decimal.VoxelKey(e.x, e.y, e.z) == key
  }

  /** A world with a loaded scene and nobody online. */
  ghost predicate Loaded(w: State) {
    WellFormed(w) && w.players == map[]
  }
}
