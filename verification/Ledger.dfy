/**
 The material ledger.  What players hold, what their tools and buildings cost, what resources still contain and what
 lies placed as blocks adds up, material by material, to a total that requests only move around.  The one source of
 new material is the first removal of a block nobody has edited, which each coordinate of a room grants once.
 */
module Ledger {
  import opened Wrappers
  import opened World
  import opened Sums
  import Decimal

  datatype Material = Wood | Stone | Dirt | Copper

  function Held(inv: Inventory, m: Material): int {
    match m
    case Wood => inv.wood
    case Stone => inv.stone
    case Dirt => inv.dirt
    case Copper => inv.copper
  }

  /** What a tool of this level cost along the chain of recipes. */
  function ToolCost(level: int, m: Material): int {
    match m
    case Wood => if level <= 0 then 0 else if level >= 3 then 6 else 2 * level
    case Stone => if level >= 2 then 5 else 0
    case Dirt => 0
    case Copper => if level >= 3 then 5 else 0
  }

  function Worth(inv: Inventory, m: Material): int {
    Held(inv, m) + ToolCost(inv.toolLevel, m)
  }

  function MaterialOf(blockType: int): Option<Material> {
    if blockType == 1 || blockType == 2 then Some(Dirt)
    else if blockType == 3 then Some(Stone)
    else if blockType == 4 then Some(Wood)
    else if blockType == 5 then Some(Copper)
    else None
  }

  function Placed(e: VoxelEdit, m: Material): int {
    if e.action == 2 && MaterialOf(e.blockType) == Some(m) then 1 else 0
  }

  function Remaining(r: Resource, m: Material): int {
    if (m == Wood && r.kind == RESOURCE_WOOD) || (m == Stone && r.kind == RESOURCE_STONE) then r.remaining else 0
  }

  /** What stands in a building: two wood in a floor, three in a wall, three stone in a campfire. */
  function BuildCost(kind: int, m: Material): int {
    match m
    case Wood => if kind == 1 then 2 else if kind == 2 then 3 else 0
    case Stone => if kind == 3 then 3 else 0
    case Dirt => 0
    case Copper => 0
  }

  // ---- the four parts ----

  ghost function Worths(players: map<string, Player>, m: Material): map<string, int> {
    map id | id in players :: Worth(players[id].inv, m)
  }

  ghost function Stocks(resources: map<string, Resource>, m: Material): map<string, int> {
    map id | id in resources :: Remaining(resources[id], m)
  }

  ghost function BuiltIn(bs: seq<Building>, m: Material): int {
    if bs == [] then 0 else BuiltIn(bs[..|bs| - 1], m) + BuildCost(bs[|bs| - 1].kind, m)
  }

  ghost function Blocks(edits: map<string, VoxelEdit>, m: Material): map<string, int> {
    map key | key in edits :: Placed(edits[key], m)
  }

  ghost function RoomBlocks(voxels: map<string, map<string, VoxelEdit>>, m: Material): map<string, int> {
    map room | room in voxels :: MapSum(Blocks(voxels[room], m))
  }

  ghost function Total(w: State, m: Material): int {
    MapSum(Worths(w.players, m)) + MapSum(Stocks(w.resources, m)) + BuiltIn(w.buildings, m)
    + MapSum(RoomBlocks(w.voxels, m))
  }

  // ---- how one change moves a part ----

  lemma PlayerChange(players: map<string, Player>, id: string, p: Player, m: Material)
    ensures MapSum(Worths(players[id := p], m)) ==
            MapSum(Worths(players, m)) - (if id in players then Worth(players[id].inv, m) else 0) + Worth(p.inv, m)
  {
    assert Worths(players[id := p], m) == Worths(players, m)[id := Worth(p.inv, m)];
    MapSumUpdate(Worths(players, m), id, Worth(p.inv, m));
  }

  lemma PlayerGone(players: map<string, Player>, id: string, m: Material)
    requires id in players
    ensures MapSum(Worths(players - {id}, m)) == MapSum(Worths(players, m)) - Worth(players[id].inv, m)
  {
    assert Worths(players - {id}, m) == Worths(players, m) - {id};
    MapSumRemove(Worths(players, m), id);
  }

  lemma ResourceChange(resources: map<string, Resource>, rid: string, r: Resource, m: Material)
    requires rid in resources
    ensures MapSum(Stocks(resources[rid := r], m)) ==
            MapSum(Stocks(resources, m)) - Remaining(resources[rid], m) + Remaining(r, m)
  {
    assert Stocks(resources[rid := r], m) == Stocks(resources, m)[rid := Remaining(r, m)];
    MapSumUpdate(Stocks(resources, m), rid, Remaining(r, m));
  }

  lemma BuildingAdded(bs: seq<Building>, b: Building, m: Material)
    ensures BuiltIn(bs + [b], m) == BuiltIn(bs, m) + BuildCost(b.kind, m)
  {
    assert (bs + [b])[..|bs|] == bs;
  }

  lemma TouchKeeps(w: State, room: string, m: Material)
    ensures MapSum(RoomBlocks(Touch(w, room).voxels, m)) == MapSum(RoomBlocks(w.voxels, m))
  {
    if room !in w.voxels {
      var none: map<string, VoxelEdit> := map[];
      assert Blocks(none, m) == map[];
      assert MapSum(Blocks(none, m)) == 0;
      assert RoomBlocks(w.voxels[room := none], m) == RoomBlocks(w.voxels, m)[room := 0];
      MapSumUpdate(RoomBlocks(w.voxels, m), room, 0);
    }
  }

  lemma BlockChange(voxels: map<string, map<string, VoxelEdit>>, room: string, key: string, e: VoxelEdit, m: Material)
    requires room in voxels
    ensures MapSum(RoomBlocks(voxels[room := voxels[room][key := e]], m)) ==
            MapSum(RoomBlocks(voxels, m)) - (if key in voxels[room] then Placed(voxels[room][key], m) else 0)
            + Placed(e, m)
  {
    var edits := voxels[room];
    var edits' := edits[key := e];
    assert Blocks(edits', m) == Blocks(edits, m)[key := Placed(e, m)];
    MapSumUpdate(Blocks(edits, m), key, Placed(e, m));
    var sum' := MapSum(Blocks(edits', m));
    assert RoomBlocks(voxels[room := edits'], m) == RoomBlocks(voxels, m)[room := sum'];
    MapSumUpdate(RoomBlocks(voxels, m), room, sum');
  }

  // ---- the flow of one request ----

  /** The first removal at a coordinate: no block was placed there and none was removed. */
  predicate Mints(w: State, op: Op) {
    && op.DoEdit? && op.action == 1
    && EditVerdict(w, op.id, op.vx, op.vy, op.vz, op.action, op.blockType).Granted?
    && var prev := Previous(w, w.players[op.id].roomId, op.vx, op.vy, op.vz);
       prev.None? || prev.value.action != 2
  }

  /** What a request brings into the world from outside: a player's belongings, or a minted block. */
  ghost function Inflow(w: State, op: Op, m: Material): int {
    match op
    case DoEnter(id, _, _, _, inv, _) => Worth(inv, m) - (if id in w.players then Worth(w.players[id].inv, m) else 0)
    case DoLeave(id) => if id in w.players then -Worth(w.players[id].inv, m) else 0
    case DoEdit(_, _, _, _, _, blockType) => if Mints(w, op) && MaterialOf(blockType) == Some(m) then 1 else 0
    case _ => 0
  }

  lemma EnterLedger(w: State, id: string, name: string, now: int, pose: Pose, inv: Inventory, reset: bool, m: Material)
    ensures Total(Enter(w, id, name, now, pose, inv, reset), m) ==
            Total(w, m) + Worth(inv, m) - (if id in w.players then Worth(w.players[id].inv, m) else 0)
  {
    var p := Entered(w, id, name, now, pose, inv);
    var w1 := Joined(w, id, name, now, pose, inv, reset);
    PlayerChange(w.players, id, p, m);
    TouchKeeps(w1, p.roomId, m);
  }

  lemma LeaveLedger(w: State, id: string, m: Material)
    ensures Total(Leave(w, id), m) == Total(w, m) - (if id in w.players then Worth(w.players[id].inv, m) else 0)
  {
    if id in w.players {
      PlayerGone(w.players, id, m);
    }
  }

  lemma SelectRoomLedger(w: State, id: string, room: string, mapId: int, now: int, hash: nat, m: Material)
    ensures Total(SelectRoom(w, id, room, mapId, now, hash), m) == Total(w, m)
  {
    if RoomChangeAllowed(w, id, room, mapId) {
      var w1 := Moved(w, id, room, mapId, now, hash);
      PlayerChange(w.players, id, w1.players[id], m);
      TouchKeeps(w1, room, m);
    }
  }

  lemma MoveLedger(w: State, id: string, target: Pose, now: int, appearance: int, dist: real, m: Material)
    ensures Total(Move(w, id, target, now, appearance, dist), m) == Total(w, m)
  {
    if id in w.players {
      var q := AfterMove(w.players[id], target, now, appearance, dist);
      assert q.inv == w.players[id].inv;
      hide AfterMove, Announces;
      PlayerChange(w.players, id, q, m);
    }
  }

  lemma GatherLedger(w: State, id: string, rid: string, m: Material)
    ensures Total(Gather(w, id, rid), m) == Total(w, m)
  {
    if GatherVerdict(w, id, rid).Granted? {
      var w' := Gather(w, id, rid);
      PlayerChange(w.players, id, w'.players[id], m);
      ResourceChange(w.resources, rid, w'.resources[rid], m);
    }
  }

  lemma BuildLedger(w: State, id: string, kind: int, target: Pose, m: Material)
    ensures Total(Build(w, id, kind, target), m) == Total(w, m)
  {
    if BuildVerdict(w, id, kind, target).Granted? {
      hide Snapped, Decimal.BuildingName;
      var w' := Build(w, id, kind, target);
      PlayerChange(w.players, id, w'.players[id], m);
      BuildingAdded(w.buildings, w'.buildings[|w.buildings|], m);
    }
  }

  lemma CraftLedger(w: State, id: string, recipe: int, m: Material)
    ensures Total(Craft(w, id, recipe), m) == Total(w, m)
  {
    if CraftVerdict(w, id, recipe).Granted? {
      PlayerChange(w.players, id, Craft(w, id, recipe).players[id], m);
    }
  }

  /** An accepted edit changes one block and one inventory, and they balance but for a minted block. */
  lemma EditBalance(w: State, id: string, x: int, y: int, z: int, action: int, blockType: int, m: Material)
    requires EditVerdict(w, id, x, y, z, action, blockType).Granted?
    ensures var inv, room := w.players[id].inv, w.players[id].roomId;
            var prev := Previous(w, room, x, y, z);
            var kind := EffectiveType(w, room, x, y, z, action, blockType);
            Worth(AfterEdit(inv, action, kind), m) - Worth(inv, m) + Placed(VoxelEdit(x, y, z, action, kind), m)
            - (if prev.Some? then Placed(prev.value, m) else 0)
            == if Mints(w, DoEdit(id, x, y, z, action, blockType)) && MaterialOf(blockType) == Some(m) then 1 else 0
  {
    hide Decimal.VoxelKey;
  }

  lemma EditParts(w: State, id: string, x: int, y: int, z: int, action: int, blockType: int, m: Material)
    requires id in w.players && EditPrecheck(w, id, x, y, z, action, blockType).Granted?
    requires EditVerdict(w, id, x, y, z, action, blockType).Granted?
    ensures var inv, room := w.players[id].inv, w.players[id].roomId;
            var prev := Previous(w, room, x, y, z);
            var kind := EffectiveType(w, room, x, y, z, action, blockType);
            Total(EditVoxel(w, id, x, y, z, action, blockType), m) == Total(w, m)
            + Worth(AfterEdit(inv, action, kind), m) - Worth(inv, m) + Placed(VoxelEdit(x, y, z, action, kind), m)
            - (if prev.Some? then Placed(prev.value, m) else 0)
  {
    hide Decimal.VoxelKey, EditVerdict, EditPrecheck, EffectiveType, AfterEdit, Worth, Placed;
    var p := w.players[id];
    var kind := EffectiveType(w, p.roomId, x, y, z, action, blockType);
    var w1, key, e := Touch(w, p.roomId), Decimal.VoxelKey(x, y, z), VoxelEdit(x, y, z, action, kind);
    TouchKeeps(w, p.roomId, m);
    BlockChange(w1.voxels, p.roomId, key, e, m);
    PlayerChange(w.players, id, p.(inv := AfterEdit(p.inv, action, kind)), m);
  }

  lemma EditLedger(w: State, id: string, x: int, y: int, z: int, action: int, blockType: int, m: Material)
    ensures Total(EditVoxel(w, id, x, y, z, action, blockType), m) ==
            Total(w, m) + (if Mints(w, DoEdit(id, x, y, z, action, blockType)) && MaterialOf(blockType) == Some(m)
                           then 1 else 0)
  {
    hide Decimal.VoxelKey, EffectiveType, AfterEdit, Worth, Placed;
    if EditPrecheck(w, id, x, y, z, action, blockType).Granted? {
      if EditVerdict(w, id, x, y, z, action, blockType).Granted? {
        EditBalance(w, id, x, y, z, action, blockType, m);
        EditParts(w, id, x, y, z, action, blockType, m);
      } else {
        TouchKeeps(w, w.players[id].roomId, m);
      }
    }
  }

  lemma StepLedger(w: State, op: Op, m: Material)
    ensures Total(Step(w, op), m) == Total(w, m) + Inflow(w, op, m)
  {
    match op
    case DoEnter(id, name, now, pose, inv, reset) => EnterLedger(w, id, name, now, pose, inv, reset, m);
    case DoLeave(id) => LeaveLedger(w, id, m);
    case DoSelectRoom(id, room, mapId, now, hash) => SelectRoomLedger(w, id, room, mapId, now, hash, m);
    case DoMove(id, pose, now, appearance, dist) => MoveLedger(w, id, pose, now, appearance, dist, m);
    case DoGather(id, rid) => GatherLedger(w, id, rid, m);
    case DoBuild(id, kind, pose) => BuildLedger(w, id, kind, pose, m);
    case DoCraft(id, recipe) => CraftLedger(w, id, recipe, m);
    case DoEdit(id, x, y, z, action, blockType) => EditLedger(w, id, x, y, z, action, blockType, m);
  }

  // ---- over runs ----

  ghost function TotalInflow(w: State, ops: seq<Op>, m: Material): int {
    if ops == [] then 0 else
    TotalInflow(w, ops[..|ops| - 1], m) + Inflow(Run(w, ops[..|ops| - 1]), ops[|ops| - 1], m)
  }

  /** Material is conserved over every run: the total moves by what entered, left and was minted. */
  lemma {:induction false} Conservation(w: State, ops: seq<Op>, m: Material)
    ensures Total(Run(w, ops), m) == Total(w, m) + TotalInflow(w, ops, m)
  {
    if ops != [] {
      Conservation(w, ops[..|ops| - 1], m);
      StepLedger(Run(w, ops[..|ops| - 1]), ops[|ops| - 1], m);
    }
  }

  // ---- each coordinate mints once ----

  /** The edit stored under the key is a removal or a placement; a loaded scene may hold others. */
  predicate Settled(w: State, room: string, key: string) {
    key in EditsOf(w, room) && (EditsOf(w, room)[key].action == 1 || EditsOf(w, room)[key].action == 2)
  }

  /** What is settled in w is settled in w', whatever else the scene holds. */
  ghost predicate EditsGrow(w: State, w': State) {
    forall room, key :: Settled(w, room, key) ==> Settled(w', room, key)
  }

  lemma TouchGrows(w: State, room: string)
    ensures EditsGrow(w, Touch(w, room))
  {
  }

  lemma ArriveGrows(w: State, w1: State, id: string)
    requires id in w1.players && w1.voxels == w.voxels
    ensures EditsGrow(w, Arrive(w1, id))
  {
    TouchGrows(w, w1.players[id].roomId);
  }

  lemma EditGrows(w: State, id: string, x: int, y: int, z: int, action: int, blockType: int)
    ensures EditsGrow(w, EditVoxel(w, id, x, y, z, action, blockType))
  {
    hide Decimal.VoxelKey, EditVerdict, EffectiveType, AfterEdit, RoomMates;
    if EditPrecheck(w, id, x, y, z, action, blockType).Granted? {
      assert id in w.players && (action == 1 || action == 2);
      hide EditPrecheck;
      TouchGrows(w, w.players[id].roomId);
    }
  }

  lemma StepGrows(w: State, op: Op)
    ensures EditsGrow(w, Step(w, op))
  {
    hide Arrive, EditVoxel, AfterMove, Announces, Snapped, BuildVerdict, CraftVerdict, GatherVerdict,
         Decimal.BuildingName;
    match op
    case DoEnter(id, name, now, pose, inv, reset) => ArriveGrows(w, Joined(w, id, name, now, pose, inv, reset), id);
    case DoSelectRoom(id, room, mapId, now, hash) =>
      if RoomChangeAllowed(w, id, room, mapId) {
        ArriveGrows(w, Moved(w, id, room, mapId, now, hash), id);
      }
    case DoEdit(id, x, y, z, action, blockType) => EditGrows(w, id, x, y, z, action, blockType);
    case _ =>
  }

  lemma {:induction false} RunGrows(w: State, ops: seq<Op>, n: nat)
    requires n <= |ops|
    ensures EditsGrow(Run(w, ops[..n]), Run(w, ops))
    decreases |ops|
  {
    hide Step, Settled;
    if n < |ops| {
      var before := ops[..|ops| - 1];
      assert before[..n] == ops[..n];
      RunGrows(w, before, n);
      StepGrows(Run(w, before), ops[|ops| - 1]);
    } else {
      assert ops[..n] == ops;
    }
  }

  lemma MintSettles(w: State, op: Op)
    requires Mints(w, op)
    ensures !Settled(w, w.players[op.id].roomId, Decimal.VoxelKey(op.vx, op.vy, op.vz))
    ensures Settled(Step(w, op), w.players[op.id].roomId, Decimal.VoxelKey(op.vx, op.vy, op.vz))
  {
    assert EditPrecheck(w, op.id, op.vx, op.vy, op.vz, op.action, op.blockType).Granted?;
    assert EditVerdict(w, op.id, op.vx, op.vy, op.vz, op.action, op.blockType).Granted?;
    hide Decimal.VoxelKey, EffectiveType, AfterEdit, EditPrecheck, Post, RoomMates;
  }

  lemma NextRun(w: State, ops: seq<Op>, i: nat)
    requires i < |ops|
    ensures Run(w, ops[..i + 1]) == Step(Run(w, ops[..i]), ops[i])
  {
    hide Step;
    assert ops[..i + 1][..i] == ops[..i];
  }

  lemma MintStays(w: State, ops: seq<Op>, i: nat)
    requires i < |ops| && Mints(Run(w, ops[..i]), ops[i])
    ensures Settled(Run(w, ops), Run(w, ops[..i]).players[ops[i].id].roomId,
                    Decimal.VoxelKey(ops[i].vx, ops[i].vy, ops[i].vz))
  {
    assert ops[i].DoEdit? && ops[i].id in Run(w, ops[..i]).players;
    hide *;
    NextRun(w, ops, i);
    MintSettles(Run(w, ops[..i]), ops[i]);
    RunGrows(w, ops, i + 1);
    SettledStays(Run(w, ops[..i + 1]), Run(w, ops), Run(w, ops[..i]).players[ops[i].id].roomId,
                 Decimal.VoxelKey(ops[i].vx, ops[i].vy, ops[i].vz));
  }

  lemma SettledStays(w: State, w': State, room: string, key: string)
    requires EditsGrow(w, w') && Settled(w, room, key)
    ensures Settled(w', room, key)
  {
  }

  /** Two mints of one run are never at the same coordinate of the same room, whatever world it starts from. */
  lemma MintOnce(w: State, ops: seq<Op>, i: nat, j: nat)
    requires i < j < |ops|
    requires Mints(Run(w, ops[..i]), ops[i]) && Mints(Run(w, ops[..j]), ops[j])
    requires ops[i].vx == ops[j].vx && ops[i].vy == ops[j].vy && ops[i].vz == ops[j].vz
    ensures Run(w, ops[..i]).players[ops[i].id].roomId != Run(w, ops[..j]).players[ops[j].id].roomId
  {
    assert ops[i].DoEdit? && ops[j].DoEdit?;
    assert ops[i].id in Run(w, ops[..i]).players && ops[j].id in Run(w, ops[..j]).players;
    hide *;
    assert ops[..j][..i] == ops[..i] && ops[..j][i] == ops[i];
    MintStays(w, ops[..j], i);
    MintSettles(Run(w, ops[..j]), ops[j]);
  }

  // ---- inventories stay non-negative ----

  predicate NonNegative(inv: Inventory) {
    inv.wood >= 0 && inv.stone >= 0 && inv.dirt >= 0 && inv.copper >= 0
  }

  ghost predicate AllNonNegative(w: State) {
    forall id :: id in w.players ==> NonNegative(w.players[id].inv)
  }

  lemma EditNonNegative(w: State, id: string, x: int, y: int, z: int, action: int, blockType: int)
    requires EditVerdict(w, id, x, y, z, action, blockType).Granted? && NonNegative(w.players[id].inv)
    ensures NonNegative(AfterEdit(w.players[id].inv, action,
                                  EffectiveType(w, w.players[id].roomId, x, y, z, action, blockType)))
  {
    hide Decimal.VoxelKey, EditsOf;
  }

  lemma StepNonNegative(w: State, op: Op)
    requires AllNonNegative(w) && (op.DoEnter? ==> NonNegative(op.inv))
    ensures AllNonNegative(Step(w, op))
  {
    hide Decimal.VoxelKey, Decimal.BuildingName, Announces, Snapped, Post, Touch, SendWorldState, Arrive, RoomMates,
         JudgeMove, Refilled, EffectiveType, AfterEdit, EditVerdict, Occupied;
    match op
    case DoEdit(id, x, y, z, action, blockType) =>
      if EditVerdict(w, id, x, y, z, action, blockType).Granted? && id in w.players {
        hide NonNegative;
        EditNonNegative(w, id, x, y, z, action, blockType);
      }
    case _ =>
  }

  lemma {:induction false} RunNonNegative(w: State, ops: seq<Op>)
    requires AllNonNegative(w) && forall i :: 0 <= i < |ops| && ops[i].DoEnter? ==> NonNegative(ops[i].inv)
    ensures AllNonNegative(Run(w, ops))
  {
    if ops != [] {
      RunNonNegative(w, ops[..|ops| - 1]);
      StepNonNegative(Run(w, ops[..|ops| - 1]), ops[|ops| - 1]);
    }
  }
}
