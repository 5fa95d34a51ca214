/**
 Replica agreement.  A client folds the notifications it receives into its own copy of the world: a snapshot or an
 enter adds or replaces records, another player's leave removes that player, and its own leave (sent by SelectRoom
 to the whole old room, the mover included) clears what belonged to the room.  In every state a run can reach, that
 copy agrees with the server.
 */
module Replica {
  import opened Wrappers
  import opened World
  import Decimal

  datatype Coord = Coord(x: int, y: int, z: int)

  datatype Copy = Copy(
    members: map<string, Transform>, voxels: map<Coord, VoxelEdit>, resources: map<string, Resource>,
    buildings: map<string, Building>)

  const EMPTY := Copy(map[], map[], map[], map[])

  function PlayerKey(t: Transform): string { t.playerId }
  function ResourceKey(r: Resource): string { r.id }
  function BuildingKey(b: Building): string { b.id }
  function EditKey(e: VoxelEdit): Coord { Coord(e.x, e.y, e.z) }

  ghost predicate DistinctKeys<K(!new), V(!new)>(vs: set<V>, key: V -> K) {
    forall v, u :: v in vs && u in vs && key(v) == key(u) ==> v == u
  }

  ghost function Pick<K(!new), V(!new)>(vs: set<V>, key: V -> K, k: K): (v: V)
    requires exists v :: v in vs && key(v) == k
    ensures v in vs && key(v) == k
  {
    var v :| v in vs && key(v) == k; v
  }

  /** Records of vs added to m, each under its own key. */
  ghost function Upsert<K(!new), V(!new)>(m: map<K, V>, vs: set<V>, key: V -> K): (r: map<K, V>)
    ensures r.Keys == m.Keys + (set v | v in vs :: key(v))
    ensures forall k :: k in m && (forall v :: v in vs ==> key(v) != k) ==> r[k] == m[k]
    ensures DistinctKeys(vs, key) ==> forall v :: v in vs ==> r[key(v)] == v
  {
    map k | k in m.Keys + (set v | v in vs :: key(v)) ::
      if exists v :: v in vs && key(v) == k then Pick(vs, key, k) else m[k]
  }

  ghost function Deliver(c: string, r: Copy, m: Message): Copy {
    match m
    case WorldStateNtf(ps, rs, bs, es, _) =>
      r.(members := Upsert(r.members, ps, PlayerKey), resources := Upsert(r.resources, rs, ResourceKey),
         buildings := Upsert(r.buildings, (set b | b in bs), BuildingKey), voxels := Upsert(r.voxels, es, EditKey))
    case PlayerEnterNtf(t) => r.(members := r.members[t.playerId := t])
    case PlayerLeaveNtf(id) =>
      if id == c then r.(members := map[], voxels := map[]) else r.(members := r.members - {id})
    case ResourceChangedNtf(x) => r.(resources := r.resources[x.id := x])
    case BuildingPlacedNtf(b) => r.(buildings := r.buildings[b.id := b])
    case VoxelEditNtf(e) => r.(voxels := r.voxels[EditKey(e) := e])
  }

  ghost function Fold(c: string, log: seq<Message>): Copy {
    if log == [] then EMPTY else Deliver(c, Fold(c, log[..|log| - 1]), log[|log| - 1])
  }

  lemma FoldAppend(c: string, log: seq<Message>, m: Message)
    ensures Fold(c, log + [m]) == Deliver(c, Fold(c, log), m)
  {
    assert (log + [m])[..|log|] == log;
  }

  // ---- agreement ----

  ghost predicate AgreeMembers(w: State, room: string, r: Copy) {
    && r.members.Keys == RoomMates(w, room)
    && forall id :: id in r.members ==> r.members[id].playerId == id && r.members[id].name == w.players[id].name
  }

  /** The edits of a room by coordinate. */
  ghost function ByCoord(edits: map<string, VoxelEdit>): map<Coord, VoxelEdit> {
    Upsert(map[], edits.Values, EditKey)
  }

  ghost function ById(bs: seq<Building>): map<string, Building> {
    Upsert(map[], (set b | b in bs), BuildingKey)
  }

  /** The copy of an online player: members of the player's room by name, the room's edits, all the rest. */
  ghost predicate Agrees(w: State, c: string, r: Copy)
    requires c in w.players
  {
    var room := w.players[c].roomId;
    && AgreeMembers(w, room, r)
    && r.voxels == ByCoord(EditsOf(w, room))
    && r.resources == w.resources
    && r.buildings == ById(w.buildings)
  }

  // ---- one notification ----

  /** Nothing in the copy is foreign to the server's state. */
  ghost predicate NoStrangers(w: State, c: string, r: Copy)
    requires c in w.players
  {
    var room := w.players[c].roomId;
    && r.members.Keys <= RoomMates(w, room)
    && r.voxels.Keys <= ByCoord(EditsOf(w, room)).Keys
    && r.resources.Keys <= w.resources.Keys
    && r.buildings.Keys <= ById(w.buildings).Keys
  }

  /** Adding records to a map whose keys they already cover replaces it. */
  lemma UpsertCovers<K(!new), V(!new)>(m: map<K, V>, vs: set<V>, key: V -> K)
    requires DistinctKeys(vs, key) && m.Keys <= (set v | v in vs :: key(v))
    ensures Upsert(m, vs, key) == Upsert(map[], vs, key)
  {
    var a, b := Upsert(m, vs, key), Upsert(map[], vs, key);
    forall k | k in a ensures a[k] == b[k] {
      var v :| v in vs && key(v) == k;
      assert a[key(v)] == v && b[key(v)] == v;
    }
  }

  /** Adding one record changes the map at its own key only. */
  lemma UpsertOne<K(!new), V(!new)>(vs: set<V>, vs': set<V>, v: V, key: V -> K)
    requires DistinctKeys(vs, key) && DistinctKeys(vs', key)
    requires v in vs' && forall u :: u in vs' ==> u == v || u in vs
    requires forall u :: u in vs ==> u in vs' || key(u) == key(v)
    ensures Upsert(map[], vs', key) == Upsert(map[], vs, key)[key(v) := v]
  {
    var a, b := Upsert(map[], vs', key), Upsert(map[], vs, key)[key(v) := v];
    forall k | k in a ensures k in b && a[k] == b[k] {
      var u :| u in vs' && key(u) == k;
      assert a[key(u)] == u && a[key(v)] == v;
      if u != v {
        assert u in vs && Upsert(map[], vs, key)[key(u)] == u;
      }
    }
    forall k | k in b ensures k in a {
      if k != key(v) {
        var u :| u in vs && key(u) == k;
      }
    }
  }

  ghost predicate FitEdits(edits: map<string, VoxelEdit>) {
    forall key :: key in edits ==> KeyFits(edits[key], key)
  }

  lemma FitDistinct(edits: map<string, VoxelEdit>)
    requires FitEdits(edits)
    ensures DistinctKeys(edits.Values, EditKey)
  {
    var vs := edits.Values;
    forall v, u | v in vs && u in vs && EditKey(v) == EditKey(u) ensures v == u {
      var k :| k in edits && edits[k] == v;
      var l :| l in edits && edits[l] == u;
      assert KeyFits(edits[k], k) && KeyFits(edits[l], l);
    }
  }

  /** The server's text keys and the client's coordinates name the same edits. */
  lemma ByCoordMeaning(edits: map<string, VoxelEdit>, p: Coord)
    requires FitEdits(edits)
    ensures var key := Decimal.VoxelKey(p.x, p.y, p.z);
            (p in ByCoord(edits) <==> key in edits) && (key in edits ==> ByCoord(edits)[p] == edits[key])
  {
    FitDistinct(edits);
    var key := Decimal.VoxelKey(p.x, p.y, p.z);
    if key in edits {
      var e := edits[key];
      assert KeyFits(e, key);
      Decimal.VoxelKeyInjective(e.x, e.y, e.z, p.x, p.y, p.z);
      assert e in edits.Values && EditKey(e) == p;
    }
    assert forall k :: k in edits && EditKey(edits[k]) == p ==> KeyFits(edits[k], k) && k == key;
  }

  lemma VoxelUpdate(edits: map<string, VoxelEdit>, e: VoxelEdit)
    requires FitEdits(edits)
    ensures ByCoord(edits[Decimal.VoxelKey(e.x, e.y, e.z) := e]) == ByCoord(edits)[EditKey(e) := e]
  {
    var key := Decimal.VoxelKey(e.x, e.y, e.z);
    var edits' := edits[key := e];
    assert KeyFits(e, key);
    assert FitEdits(edits');
    FitDistinct(edits);
    FitDistinct(edits');
    assert edits'[key] == e;
    forall u | u in edits'.Values && u != e ensures u in edits.Values {
      var k :| k in edits' && edits'[k] == u;
      assert edits[k] == u;
    }
    forall u | u in edits.Values && u !in edits'.Values ensures EditKey(u) == EditKey(e) {
      var k :| k in edits && edits[k] == u;
      assert edits'[k] in edits'.Values;
      assert KeyFits(edits[k], k);
      Decimal.VoxelKeyInjective(u.x, u.y, u.z, e.x, e.y, e.z);
    }
    UpsertOne(edits.Values, edits'.Values, e, EditKey);
  }

  lemma BuildingUpdate(bs: seq<Building>, b: Building)
    requires forall i, j :: 0 <= i < j < |bs| ==> bs[i].id != bs[j].id
    requires forall i :: 0 <= i < |bs| ==> bs[i].id != b.id
    ensures ById(bs + [b]) == ById(bs)[b.id := b]
  {
    UpsertOne((set x | x in bs), (set x | x in bs + [b]), b, BuildingKey);
  }

  lemma SnapshotMembers(w: State, room: string, r: Copy)
    requires WellFormed(w) && r.members.Keys <= RoomMates(w, room)
    ensures AgreeMembers(w, room, r.(members :=
              Upsert(r.members, set id | id in RoomMates(w, room) :: Look(w.players[id]), PlayerKey)))
  {
    var mates := RoomMates(w, room);
    var ts := set id | id in mates :: Look(w.players[id]);
    var m := Upsert(r.members, ts, PlayerKey);
    forall id | id in mates ensures id in m && m[id] == Look(w.players[id]) {
      var t := Look(w.players[id]);
      assert t in ts && PlayerKey(t) == id;
    }
    forall id | id in m ensures id in mates {
      if id !in r.members {
        var t :| t in ts && PlayerKey(t) == id;
      }
    }
    assert m.Keys == mates;
  }

  lemma SnapshotResources(w: State, r: Copy)
    requires WellFormed(w) && r.resources.Keys <= w.resources.Keys
    ensures Upsert(r.resources, w.resources.Values, ResourceKey) == w.resources
  {
    var m := Upsert(r.resources, w.resources.Values, ResourceKey);
    forall id | id in w.resources ensures id in m && m[id] == w.resources[id] {
      assert w.resources[id] in w.resources.Values && ResourceKey(w.resources[id]) == id;
    }
    assert m.Keys == w.resources.Keys;
  }

  lemma SnapshotBuildings(w: State, r: Copy)
    requires WellFormed(w) && r.buildings.Keys <= ById(w.buildings).Keys
    ensures Upsert(r.buildings, (set b | b in w.buildings), BuildingKey) == ById(w.buildings)
  {
    UpsertCovers(r.buildings, (set b | b in w.buildings), BuildingKey);
  }

  /** A snapshot brings any copy without strangers into agreement: a fresh one, or one that lags. */
  lemma SnapshotAgrees(w: State, c: string, r: Copy)
    requires WellFormed(w) && c in w.players && NoStrangers(w, c, r)
    ensures Agrees(w, c, Deliver(c, r, Snapshot(w, c)))
  {
    var room := w.players[c].roomId;
    SnapshotMembers(w, room, r);
    assert FitEdits(EditsOf(w, room));
    FitDistinct(EditsOf(w, room));
    UpsertCovers(r.voxels, EditsOf(w, room).Values, EditKey);
    SnapshotResources(w, r);
    SnapshotBuildings(w, r);
  }

  // ---- every request keeps the state well formed ----

  lemma SendWellFormed(w: State, to: string)
    requires WellFormed(w)
    ensures WellFormed(SendWorldState(w, to))
  {
  }

  lemma EnterWellFormed(w: State, id: string, name: string, now: int, pose: Pose, inv: Inventory, reset: bool)
    requires WellFormed(w)
    ensures WellFormed(Enter(w, id, name, now, pose, inv, reset))
  {
    JoinedWellFormed(w, id, name, now, pose, inv, reset);
    SendWellFormed(Joined(w, id, name, now, pose, inv, reset), id);
  }

  lemma MovedWellFormed(w: State, id: string, room: string, mapId: int, now: int, hash: nat)
    requires WellFormed(w) && id in w.players
    ensures WellFormed(Moved(w, id, room, mapId, now, hash))
  {
  }

  lemma SelectRoomWellFormed(w: State, id: string, room: string, mapId: int, now: int, hash: nat)
    requires WellFormed(w)
    ensures WellFormed(SelectRoom(w, id, room, mapId, now, hash))
  {
    if RoomChangeAllowed(w, id, room, mapId) {
      MovedWellFormed(w, id, room, mapId, now, hash);
      SendWellFormed(Moved(w, id, room, mapId, now, hash), id);
    }
  }

  lemma BuildWellFormed(w: State, id: string, kind: int, target: Pose)
    requires WellFormed(w)
    ensures WellFormed(Build(w, id, kind, target))
  {
    hide Post, RoomMates, Decimal.VoxelKey, Occupied, Snapped, KeyFits;
    var w' := Build(w, id, kind, target);
    var b := Decimal.BuildingName(w.nextBuildingId);
    forall k: nat | w.nextBuildingId + 1 <= k ensures b != Decimal.BuildingName(k) {
      if b == Decimal.BuildingName(k) {
        Decimal.BuildingNameInjective(w.nextBuildingId, k);
      }
    }
  }

  lemma PrecheckOnline(w: State, id: string, x: int, y: int, z: int, action: int, blockType: int)
    requires EditPrecheck(w, id, x, y, z, action, blockType).Granted?
    ensures id in w.players
  {
  }

  lemma EditWellFormed(w: State, id: string, x: int, y: int, z: int, action: int, blockType: int)
    requires WellFormed(w)
    ensures WellFormed(EditVoxel(w, id, x, y, z, action, blockType))
  {
    hide Decimal.VoxelKey, EditVerdict, EditPrecheck, AfterEdit, EffectiveType, Post, RoomMates;
    if EditPrecheck(w, id, x, y, z, action, blockType).Granted? {
      PrecheckOnline(w, id, x, y, z, action, blockType);
      var e := VoxelEdit(x, y, z, action, EffectiveType(w, w.players[id].roomId, x, y, z, action, blockType));
      assert KeyFits(e, Decimal.VoxelKey(x, y, z));
    }
  }

  lemma LeaveWellFormed(w: State, id: string)
    requires WellFormed(w)
    ensures WellFormed(Leave(w, id))
  {
    hide Post, RoomMates, KeyFits, Decimal.VoxelKey, Decimal.BuildingName;
  }

  lemma PutWellFormed(w: State, id: string, p: Player)
    requires WellFormed(w) && id in w.players && p.playerId == id
    ensures WellFormed(PutPlayer(w, id, p))
  {
    hide KeyFits, Decimal.VoxelKey, Decimal.BuildingName;
  }

  lemma PostWellFormed(w: State, to: set<string>, m: Message)
    requires WellFormed(w)
    ensures WellFormed(Post(w, to, m))
  {
    hide Post, KeyFits, Decimal.VoxelKey, Decimal.BuildingName;
  }

  lemma MoveWellFormed(w: State, id: string, target: Pose, now: int, appearance: int, dist: real)
    requires WellFormed(w)
    ensures WellFormed(Move(w, id, target, now, appearance, dist))
  {
    assert forall p :: p in w.players ==> w.players[p].playerId == p;
    hide JudgeMove, Announces, Refilled, WellFormed, PutPlayer, Post, RoomMates;
    if id in w.players {
      var p := w.players[id];
      var q := AfterMove(p, target, now, appearance, dist);
      PutWellFormed(w, id, q);
      var w1 := PutPlayer(w, id, q);
      PostWellFormed(w1, RoomMates(w1, q.roomId) - {id}, WorldStateNtf({Look(q)}, {}, [], {}, None));
    }
  }

  lemma GatherWellFormed(w: State, id: string, rid: string)
    requires WellFormed(w)
    ensures WellFormed(Gather(w, id, rid))
  {
    hide Post, RoomMates, KeyFits, Decimal.VoxelKey, Decimal.BuildingName, DistanceSq;
  }

  lemma CraftWellFormed(w: State, id: string, recipe: int)
    requires WellFormed(w)
    ensures WellFormed(Craft(w, id, recipe))
  {
    assert forall p :: p in w.players ==> w.players[p].playerId == p;
    hide WellFormed, PutPlayer;
    if CraftVerdict(w, id, recipe).Granted? {
      PutWellFormed(w, id, Craft(w, id, recipe).players[id]) by {
        assert Craft(w, id, recipe).players[id].playerId == id;
      }
    }
  }

  lemma StepWellFormed(w: State, op: Op)
    requires WellFormed(w)
    ensures WellFormed(Step(w, op))
  {
    hide WellFormed, Enter, Leave, SelectRoom, Move, Gather, Build, Craft, EditVoxel;
    match op
    case DoEnter(id, name, now, pose, inv, reset) => EnterWellFormed(w, id, name, now, pose, inv, reset);
    case DoLeave(id) => LeaveWellFormed(w, id);
    case DoSelectRoom(id, room, mapId, now, hash) => SelectRoomWellFormed(w, id, room, mapId, now, hash);
    case DoMove(id, pose, now, appearance, dist) => MoveWellFormed(w, id, pose, now, appearance, dist);
    case DoGather(id, rid) => GatherWellFormed(w, id, rid);
    case DoBuild(id, kind, pose) => BuildWellFormed(w, id, kind, pose);
    case DoCraft(id, recipe) => CraftWellFormed(w, id, recipe);
    case DoEdit(id, x, y, z, action, blockType) => EditWellFormed(w, id, x, y, z, action, blockType);
  }

  // ---- every request keeps agreement ----

  ghost function CopyOf(w: State, c: string): Copy
    requires c in w.inbox
  {
    Fold(c, w.inbox[c])
  }

  /** Player c is online and its copy agrees. */
  ghost predicate InStep(w: State, c: string) {
    c in w.players && c in w.inbox && Agrees(w, c, CopyOf(w, c))
  }

  lemma PostCopy(w: State, to: set<string>, m: Message, c: string)
    requires c in w.inbox
    ensures c in Post(w, to, m).inbox
    ensures CopyOf(Post(w, to, m), c) == if c in to then Deliver(c, CopyOf(w, c), m) else CopyOf(w, c)
  {
    FoldAppend(c, w.inbox[c], m);
  }

  lemma JoinedWellFormed(w: State, id: string, name: string, now: int, pose: Pose, inv: Inventory, reset: bool)
    requires WellFormed(w)
    ensures WellFormed(Joined(w, id, name, now, pose, inv, reset))
  {
  }

  /** m was appended to the logs of the players in `to` and to no other. */
  ghost predicate Appended(w: State, w': State, to: set<string>, m: Message) {
    && w'.inbox.Keys == w.inbox.Keys
    && forall c :: c in w.inbox ==> w'.inbox[c] == if c in to then w.inbox[c] + [m] else w.inbox[c]
  }

  lemma AppendedCopy(w: State, w': State, to: set<string>, m: Message, c: string)
    requires Appended(w, w', to, m) && c in w.inbox
    ensures c in w'.inbox
    ensures CopyOf(w', c) == if c in to then Deliver(c, CopyOf(w, c), m) else CopyOf(w, c)
  {
    FoldAppend(c, w.inbox[c], m);
  }

  /** The same records as w; only the logs differ. */
  ghost predicate SameWorld(w: State, w': State) {
    && w'.players == w.players && w'.resources == w.resources && w'.buildings == w.buildings
    && (forall room :: EditsOf(w', room) == EditsOf(w, room))
  }

  lemma SendEffect(w: State, to: string)
    requires to in w.players
    ensures var w' := SendWorldState(w, to); SameWorld(w, w') && Appended(w, w', {to}, Snapshot(w, to))
  {
    var w1 := Touch(w, w.players[to].roomId);
    assert RoomMates(w1, w.players[to].roomId) == RoomMates(w, w.players[to].roomId);
    assert Snapshot(w1, to) == Snapshot(w, to);
  }

  lemma ArrivePlayers(w: State, id: string)
    requires id in w.players
    ensures Arrive(w, id).players == w.players
  {
  }

  lemma ArriveEffect(w: State, id: string, c: string)
    requires id in w.players && c in w.inbox
    ensures var w' := Arrive(w, id); var mates := RoomMates(w, w.players[id].roomId);
            && SameWorld(w, w') && c in w'.inbox
            && CopyOf(w', c) == if c == id then Deliver(c, CopyOf(w, c), Snapshot(w, id))
                                else if c in mates then Deliver(c, CopyOf(w, c), PlayerEnterNtf(Look(w.players[id])))
                                else CopyOf(w, c)
  {
    hide Fold, Deliver, Snapshot, SendWorldState;
    SendEffect(w, id);
    var w1 := SendWorldState(w, id);
    var to := RoomMates(w1, w.players[id].roomId) - {id};
    var m := PlayerEnterNtf(Look(w.players[id]));
    assert Appended(w1, Arrive(w, id), to, m);
    assert RoomMates(w1, w.players[id].roomId) == RoomMates(w, w.players[id].roomId);
    AppendedCopy(w, w1, {id}, Snapshot(w, id), c);
    AppendedCopy(w1, Arrive(w, id), to, m, c);
  }

  /** The arriving player's own copy. */
  lemma ArriverInStep(w: State, id: string)
    requires WellFormed(w) && id in w.players && id in w.inbox && NoStrangers(w, id, CopyOf(w, id))
    ensures InStep(Arrive(w, id), id)
  {
    ArriveEffect(w, id, id);
    SnapshotAgrees(w, id, CopyOf(w, id));
    var w' := Arrive(w, id);
    var room := w.players[id].roomId;
    hide Arrive, WellFormed, Snapshot, Deliver, Fold, ByCoord, ById, EditsOf, NoStrangers;
    assert RoomMates(w', room) == RoomMates(w, room);
  }

  /** w' differs from w in at most the record of player id. */
  ghost predicate OthersSame(w: State, w': State, id: string) {
    && (forall c :: c != id ==> (c in w'.players <==> c in w.players))
    && (forall c :: c != id && c in w.players ==> w'.players[c] == w.players[c])
  }

  /** The copy r has the members of the room, player id aside. */
  ghost predicate AgreeOthers(w: State, room: string, r: Copy, id: string) {
    && (forall p :: p != id ==> (p in r.members <==> p in RoomMates(w, room)))
    && (forall p :: p != id && p in r.members ==> r.members[p].playerId == p && r.members[p].name == w.players[p].name)
  }

  lemma MembersGain(w: State, w': State, room: string, r: Copy, t: Transform)
    requires AgreeOthers(w, room, r, t.playerId) && OthersSame(w, w', t.playerId)
    requires t.playerId in w'.players && w'.players[t.playerId].roomId == room && w'.players[t.playerId].name == t.name
    ensures AgreeMembers(w', room, r.(members := r.members[t.playerId := t]))
  {
    assert RoomMates(w', room) == RoomMates(w, room) + {t.playerId};
  }

  lemma MembersLack(w: State, w': State, room: string, r: Copy, id: string)
    requires AgreeOthers(w, room, r, id) && OthersSame(w, w', id) && id !in r.members
    requires id in w'.players ==> w'.players[id].roomId != room
    ensures AgreeMembers(w', room, r)
  {
    assert RoomMates(w', room) == RoomMates(w, room) - {id};
  }

  /** Another player of the same world when id arrives in its room or elsewhere. */
  lemma BystanderInStep(w: State, w1: State, id: string, c: string)
    requires c in w.players && c != id && id in w1.players && w1.players[id].playerId == id && OthersSame(w, w1, id)
    requires c in w1.inbox
    requires CopyOf(w1, c).resources == w1.resources && CopyOf(w1, c).buildings == ById(w1.buildings)
    requires CopyOf(w1, c).voxels == ByCoord(EditsOf(w1, w.players[c].roomId))
    requires AgreeOthers(w, w.players[c].roomId, CopyOf(w1, c), id)
    requires id in CopyOf(w1, c).members ==> w1.players[id].roomId == w.players[c].roomId
    ensures InStep(Arrive(w1, id), c)
  {
    var room := w.players[c].roomId;
    var w2 := Arrive(w1, id);
    var t := Look(w1.players[id]);
    ArriveEffect(w1, id, c);
    hide Fold, ByCoord, ById, EditsOf, Arrive, Snapshot, Upsert, AgreeMembers, AgreeOthers;
    if w1.players[id].roomId == room {
      MembersGain(w, w2, room, CopyOf(w1, c), t);
    } else {
      MembersLack(w, w2, room, CopyOf(w1, c), id);
    }
  }

  lemma EnterAgrees(w: State, c: string, id: string, name: string, now: int, pose: Pose, inv: Inventory, reset: bool)
    requires WellFormed(w) && (c in w.players ==> InStep(w, c))
    ensures var w' := Enter(w, id, name, now, pose, inv, reset); c in w'.players ==> InStep(w', c)
  {
    hide ByCoord, ById, Fold, Upsert, Deliver, Arrive;
    var w1 := Joined(w, id, name, now, pose, inv, reset);
    JoinedEffect(w, id, name, now, pose, inv, reset);
    JoinedWellFormed(w, id, name, now, pose, inv, reset);
    assert w.inbox.Keys == w.players.Keys;
    hide Joined, WellFormed;
    ArrivePlayers(w1, id);
    if c == id {
      FreshCopy(id);
      JoinedNoStrangers(w, w1, id);
      ArriverInStep(w1, id);
    } else if c in w.players {
      assert CopyOf(w1, c) == CopyOf(w, c);
      BystanderInStep(w, w1, id, c);
    }
  }

  lemma JoinedEffect(w: State, id: string, name: string, now: int, pose: Pose, inv: Inventory, reset: bool)
    requires WellFormed(w)
    ensures var w1 := Joined(w, id, name, now, pose, inv, reset);
            && OthersSame(w, w1, id) && w1.resources == w.resources && w1.buildings == w.buildings
            && w1.voxels == w.voxels && id in w1.players && w1.players[id].playerId == id
            && (id in w.players ==> w1.players[id].roomId == w.players[id].roomId)
            && w1.inbox.Keys == w1.players.Keys
            && (forall c :: c in w.inbox && c != id ==> w1.inbox[c] == w.inbox[c])
            && (w1.inbox[id] == [] || (id in w.inbox && w1.inbox[id] == w.inbox[id]))
  {
  }

  lemma JoinedNoStrangers(w: State, w1: State, id: string)
    requires id in w.players ==> InStep(w, id)
    requires OthersSame(w, w1, id) && w1.resources == w.resources && w1.buildings == w.buildings
    requires w1.voxels == w.voxels && id in w1.players && id in w1.inbox
    requires id in w.players ==> w1.players[id].roomId == w.players[id].roomId
    requires CopyOf(w1, id) == EMPTY || (id in w.players && id in w.inbox && CopyOf(w1, id) == CopyOf(w, id))
    ensures NoStrangers(w1, id, CopyOf(w1, id))
  {
    hide Fold, ByCoord, ById;
    if CopyOf(w1, id) != EMPTY {
      var room := w.players[id].roomId;
      assert RoomMates(w1, room) == RoomMates(w, room);
      assert EditsOf(w1, room) == EditsOf(w, room);
    }
  }

  lemma FreshCopy(c: string)
    ensures Fold(c, []) == EMPTY
  {
  }

  lemma LeaveAgrees(w: State, c: string, id: string)
    requires WellFormed(w) && (c in w.players ==> InStep(w, c))
    ensures c in Leave(w, id).players ==> InStep(Leave(w, id), c)
  {
    hide ByCoord, ById, Fold, Upsert, AgreeMembers;
    if id in w.players && c in w.players && c != id {
      var from := w.players[id].roomId;
      var w1 := w.(players := w.players - {id}, inbox := w.inbox - {id});
      var w2 := Leave(w, id);
      PostCopy(w1, RoomMates(w1, from), PlayerLeaveNtf(id), c);
      LeaverGone(w, c, id, CopyOf(w, c));
      MembersLack(w, w2, w.players[c].roomId, CopyOf(w2, c), id);
    }
  }

  lemma MovedEffect(w: State, id: string, room: string, mapId: int, now: int, hash: nat)
    requires RoomChangeAllowed(w, id, room, mapId) && w.players[id].playerId == id
    ensures var w1 := Moved(w, id, room, mapId, now, hash);
            && OthersSame(w, w1, id)
            && id in w1.players && w1.players[id].playerId == id && w1.players[id].roomId == room
            && w1.resources == w.resources && w1.buildings == w.buildings && w1.voxels == w.voxels
            && Appended(w, w1, RoomMates(w, w.players[id].roomId), PlayerLeaveNtf(id))
  {
  }

  /** After the leave notice to the old room, no bystander's copy lists the mover. */
  lemma LeaverGone(w: State, c: string, id: string, r: Copy)
    requires c in w.players && id in w.players && c != id && AgreeMembers(w, w.players[c].roomId, r)
    ensures var r' := if c in RoomMates(w, w.players[id].roomId) then r.(members := r.members - {id}) else r;
            AgreeOthers(w, w.players[c].roomId, r', id) && id !in r'.members
  {
  }

  /** The mover's own leave notice clears its copy of the old room. */
  lemma ClearedNoStrangers(w: State, w1: State, id: string)
    requires InStep(w, id) && id in w1.players && id in w1.inbox
    requires w1.resources == w.resources && w1.buildings == w.buildings
    requires CopyOf(w1, id) == Deliver(id, CopyOf(w, id), PlayerLeaveNtf(id))
    ensures NoStrangers(w1, id, CopyOf(w1, id))
  {
    hide Fold, ByCoord, ById, AgreeMembers, EditsOf;
  }

  /** The arrival of a player that has moved. */
  lemma MoverArrives(w: State, c: string, id: string, room: string, mapId: int, now: int, hash: nat)
    requires WellFormed(w) && RoomChangeAllowed(w, id, room, mapId) && c in w.players && InStep(w, c)
    ensures InStep(Arrive(Moved(w, id, room, mapId, now, hash), id), c)
  {
    hide ByCoord, ById, Fold, Upsert, AgreeMembers, Arrive;
    assert w.players[id].playerId == id && w.inbox.Keys == w.players.Keys;
    MovedWellFormed(w, id, room, mapId, now, hash);
    MovedEffect(w, id, room, mapId, now, hash);
    var w1 := Moved(w, id, room, mapId, now, hash);
    hide Moved, WellFormed;
    var from := w.players[id].roomId;
    AppendedCopy(w, w1, RoomMates(w, from), PlayerLeaveNtf(id), c);
    if c == id {
      ClearedNoStrangers(w, w1, id);
      ArriverInStep(w1, id);
    } else {
      LeaverGone(w, c, id, CopyOf(w, c));
      BystanderInStep(w, w1, id, c);
    }
  }

  lemma MovedPlayers(w: State, id: string, room: string, mapId: int, now: int, hash: nat)
    requires id in w.players
    ensures Moved(w, id, room, mapId, now, hash).players.Keys == w.players.Keys
  {
  }

  lemma SelectRoomAgrees(w: State, c: string, id: string, room: string, mapId: int, now: int, hash: nat)
    requires WellFormed(w) && (c in w.players ==> InStep(w, c))
    ensures var w' := SelectRoom(w, id, room, mapId, now, hash); c in w'.players ==> InStep(w', c)
  {
    hide Moved, Arrive, InStep, WellFormed;
    if RoomChangeAllowed(w, id, room, mapId) {
      MovedPlayers(w, id, room, mapId, now, hash);
      ArrivePlayers(Moved(w, id, room, mapId, now, hash), id);
      if c in w.players {
        MoverArrives(w, c, id, room, mapId, now, hash);
      }
    }
  }

  /** A pose notification replaces one member's transform and nothing else. */
  lemma PoseUpsert(c: string, r: Copy, t: Transform)
    ensures Deliver(c, r, WorldStateNtf({t}, {}, [], {}, None)) == r.(members := r.members[t.playerId := t])
  {
    var ps := {t};
    var m := Upsert(r.members, ps, PlayerKey);
    assert t in ps && PlayerKey(t) == t.playerId;
    assert m == r.members[t.playerId := t];
    var es: set<VoxelEdit>, rs: set<Resource>, bs: seq<Building> := {}, {}, [];
    assert Upsert(r.voxels, es, EditKey) == r.voxels;
    assert Upsert(r.resources, rs, ResourceKey) == r.resources;
    assert (set b | b in bs) == {};
    assert Upsert(r.buildings, (set b | b in bs), BuildingKey) == r.buildings;
  }

  /** Nobody came, left, moved to another room or changed name. */
  ghost predicate SameSeats(w: State, w': State) {
    && w'.players.Keys == w.players.Keys
    && forall id :: id in w.players ==>
         w'.players[id].roomId == w.players[id].roomId && w'.players[id].name == w.players[id].name
  }

  ghost predicate SameNames(r: Copy, r': Copy) {
    && r'.members.Keys == r.members.Keys
    && forall id :: id in r.members ==>
         r'.members[id].playerId == r.members[id].playerId && r'.members[id].name == r.members[id].name
  }

  lemma StaysInStep(w: State, w': State, c: string)
    requires InStep(w, c) && SameSeats(w, w') && c in w'.inbox && SameNames(CopyOf(w, c), CopyOf(w', c))
    requires CopyOf(w', c).voxels == ByCoord(EditsOf(w', w.players[c].roomId))
    requires CopyOf(w', c).resources == w'.resources && CopyOf(w', c).buildings == ById(w'.buildings)
    ensures InStep(w', c)
  {
    hide Fold, ByCoord, ById, EditsOf;
    assert RoomMates(w', w.players[c].roomId) == RoomMates(w, w.players[c].roomId);
  }

  lemma SeatsRooms(w: State, w': State, room: string)
    requires SameSeats(w, w')
    ensures RoomMates(w', room) == RoomMates(w, room)
  {
  }

  lemma PutSeats(w: State, id: string, p: Player)
    requires id in w.players && p.roomId == w.players[id].roomId && p.name == w.players[id].name
    ensures SameSeats(w, PutPlayer(w, id, p))
  {
  }

  lemma MoveEffect(w: State, id: string, target: Pose, now: int, appearance: int, dist: real)
    requires id in w.players && w.players[id].playerId == id
    ensures var w' := Move(w, id, target, now, appearance, dist);
            && SameSeats(w, w')
            && w'.resources == w.resources && w'.buildings == w.buildings && w'.voxels == w.voxels
            && var t := Look(w'.players[id]);
               t.playerId == id && t.name == w.players[id].name
               && (w'.inbox == w.inbox ||
                   Appended(w, w', RoomMates(w, w.players[id].roomId) - {id}, WorldStateNtf({t}, {}, [], {}, None)))
  {
    var p := w.players[id];
    var q := AfterMove(p, target, now, appearance, dist);
    assert q.roomId == p.roomId && q.name == p.name && q.playerId == id;
    hide AfterMove, Announces;
    PutSeats(w, id, q);
    SeatsRooms(w, PutPlayer(w, id, q), p.roomId);
  }

  lemma PoseNames(w: State, c: string, t: Transform)
    requires InStep(w, c) && t.playerId in RoomMates(w, w.players[c].roomId) && t.name == w.players[t.playerId].name
    ensures SameNames(CopyOf(w, c), CopyOf(w, c).(members := CopyOf(w, c).members[t.playerId := t]))
  {
    hide Fold, ByCoord, ById;
  }

  lemma MoveAgrees(w: State, c: string, id: string, target: Pose, now: int, appearance: int, dist: real)
    requires WellFormed(w) && (c in w.players ==> InStep(w, c))
    ensures var w' := Move(w, id, target, now, appearance, dist); c in w'.players ==> InStep(w', c)
  {
    hide ByCoord, ById, Fold, Deliver, Upsert;
    if id in w.players {
      assert w.players[id].playerId == id;
      MoveEffect(w, id, target, now, appearance, dist);
      var w' := Move(w, id, target, now, appearance, dist);
      hide Move, WellFormed;
      assert w'.players.Keys == w.players.Keys;
      hide SameSeats;
      if c in w.players {
        var t := Look(w'.players[id]);
        var to := RoomMates(w, w.players[id].roomId) - {id};
        if w'.inbox != w.inbox {
          AppendedCopy(w, w', to, WorldStateNtf({t}, {}, [], {}, None), c);
          PoseUpsert(c, CopyOf(w, c), t);
          if c in to {
            PoseNames(w, c, t);
          }
        }
        hide AgreeMembers;
        StaysInStep(w, w', c);
      }
    }
  }

  lemma GatherEffect(w: State, id: string, rid: string)
    requires GatherVerdict(w, id, rid).Granted? && w.resources[rid].id == rid && w.inbox.Keys == w.players.Keys
    ensures var w' := Gather(w, id, rid);
            && SameSeats(w, w') && w'.buildings == w.buildings && w'.voxels == w.voxels
            && rid in w'.resources && w'.resources[rid].id == rid
            && w'.resources == w.resources[rid := w'.resources[rid]]
            && Appended(w, w', w.players.Keys, ResourceChangedNtf(w'.resources[rid]))
  {
    hide GatherVerdict, Post;
    var w' := Gather(w, id, rid);
    var w1 := w'.(inbox := w.inbox);
    assert id in w.players && rid in w.resources by { GatherFinds(w, id, rid); }
    PostAppends(w1, w1.players.Keys, ResourceChangedNtf(w'.resources[rid]));
  }

  lemma GatherFinds(w: State, id: string, rid: string)
    requires GatherVerdict(w, id, rid).Granted?
    ensures id in w.players && rid in w.resources
  {
  }

  lemma PostAppends(w: State, to: set<string>, m: Message)
    ensures Appended(w, Post(w, to, m), to, m)
  {
  }

  lemma GatherAgrees(w: State, c: string, id: string, rid: string)
    requires WellFormed(w) && (c in w.players ==> InStep(w, c))
    ensures c in Gather(w, id, rid).players ==> InStep(Gather(w, id, rid), c)
  {
    hide ByCoord, ById, Fold, AgreeMembers, Upsert;
    if GatherVerdict(w, id, rid).Granted? {
      GatherEffect(w, id, rid);
      var w' := Gather(w, id, rid);
      hide Gather, WellFormed, GatherVerdict;
      assert w'.players.Keys == w.players.Keys;
      hide SameSeats;
      if c in w.players {
        AppendedCopy(w, w', w.players.Keys, ResourceChangedNtf(w'.resources[rid]), c);
        StaysInStep(w, w', c);
      }
    }
  }

  lemma BuildEffect(w: State, id: string, kind: int, target: Pose)
    requires WellFormed(w) && BuildVerdict(w, id, kind, target).Granted?
    ensures var w' := Build(w, id, kind, target);
            && SameSeats(w, w') && w'.resources == w.resources && w'.voxels == w.voxels
            && |w'.buildings| == |w.buildings| + 1
            && var b := w'.buildings[|w.buildings|];
               ById(w'.buildings) == ById(w.buildings)[b.id := b]
               && Appended(w, w', w.players.Keys, BuildingPlacedNtf(b))
  {
    assert id in w.players && w.inbox.Keys == w.players.Keys;
    hide ById, BuildVerdict, Snapped;
    var w' := Build(w, id, kind, target);
    PutSeats(w, id, w'.players[id]);
    BuildingUpdate(w.buildings, w'.buildings[|w.buildings|]);
  }

  lemma BuildAgrees(w: State, c: string, id: string, kind: int, target: Pose)
    requires WellFormed(w) && (c in w.players ==> InStep(w, c))
    ensures c in Build(w, id, kind, target).players ==> InStep(Build(w, id, kind, target), c)
  {
    hide ByCoord, ById, Fold, AgreeMembers, Upsert, BuildVerdict;
    if BuildVerdict(w, id, kind, target).Granted? {
      BuildEffect(w, id, kind, target);
      var w' := Build(w, id, kind, target);
      hide Build, WellFormed;
      assert w'.players.Keys == w.players.Keys;
      hide SameSeats;
      if c in w.players {
        AppendedCopy(w, w', w.players.Keys, BuildingPlacedNtf(w'.buildings[|w.buildings|]), c);
        StaysInStep(w, w', c);
      }
    }
  }

  lemma CraftAgrees(w: State, c: string, id: string, recipe: int)
    requires WellFormed(w) && (c in w.players ==> InStep(w, c))
    ensures c in Craft(w, id, recipe).players ==> InStep(Craft(w, id, recipe), c)
  {
    hide ByCoord, ById, Fold, Upsert, AgreeMembers;
    if c in w.players {
      assert SameSeats(w, Craft(w, id, recipe));
      hide SameSeats, CraftVerdict, WellFormed;
      StaysInStep(w, Craft(w, id, recipe), c);
    }
  }

  lemma EditSeats(w: State, id: string, x: int, y: int, z: int, action: int, blockType: int)
    requires id in w.players
    ensures var w' := EditVoxel(w, id, x, y, z, action, blockType);
            SameSeats(w, w') && w'.resources == w.resources && w'.buildings == w.buildings
  {
    hide Decimal.VoxelKey, EffectiveType, AfterEdit, EditVerdict, EditPrecheck;
  }

  lemma EditMaps(w: State, id: string, x: int, y: int, z: int, action: int, blockType: int)
    requires id in w.players && EditPrecheck(w, id, x, y, z, action, blockType).Granted?
    ensures var w' := EditVoxel(w, id, x, y, z, action, blockType); var room := w.players[id].roomId;
            && (forall r :: r != room ==> EditsOf(w', r) == EditsOf(w, r))
            && EditsOf(w', room) ==
               if EditVerdict(w, id, x, y, z, action, blockType).Refused? then EditsOf(w, room)
               else EditsOf(w, room)[Decimal.VoxelKey(x, y, z) :=
                      VoxelEdit(x, y, z, action, EffectiveType(w, room, x, y, z, action, blockType))]
  {
    hide Decimal.VoxelKey, EffectiveType, AfterEdit, EditVerdict, EditPrecheck, RoomMates;
  }

  lemma EditLogs(w: State, id: string, x: int, y: int, z: int, action: int, blockType: int)
    requires id in w.players && EditPrecheck(w, id, x, y, z, action, blockType).Granted?
    ensures var w' := EditVoxel(w, id, x, y, z, action, blockType); var room := w.players[id].roomId;
            if EditVerdict(w, id, x, y, z, action, blockType).Refused? then w'.inbox == w.inbox
            else
              Appended(w, w', RoomMates(w, room),
                       VoxelEditNtf(VoxelEdit(x, y, z, action, EffectiveType(w, room, x, y, z, action, blockType))))
  {
    EditSeats(w, id, x, y, z, action, blockType);
    hide Decimal.VoxelKey, EffectiveType, AfterEdit, EditVerdict, EditPrecheck;
    if EditVerdict(w, id, x, y, z, action, blockType).Granted? {
      var w' := EditVoxel(w, id, x, y, z, action, blockType);
      var w2 := w'.(inbox := w.inbox);
      SeatsRooms(w, w', w.players[id].roomId);
      assert RoomMates(w2, w.players[id].roomId) == RoomMates(w', w.players[id].roomId);
    }
  }

  lemma EditAgrees(w: State, c: string, id: string, x: int, y: int, z: int, action: int, blockType: int)
    requires WellFormed(w) && (c in w.players ==> InStep(w, c))
    ensures var w' := EditVoxel(w, id, x, y, z, action, blockType); c in w'.players ==> InStep(w', c)
  {
    hide ByCoord, ById, Fold, AgreeMembers, Upsert, Decimal.VoxelKey, EffectiveType, EditPrecheck, EditVerdict;
    if EditPrecheck(w, id, x, y, z, action, blockType).Granted? {
      assert w.inbox.Keys == w.players.Keys;
      PrecheckOnline(w, id, x, y, z, action, blockType);
      EditSeats(w, id, x, y, z, action, blockType);
      EditMaps(w, id, x, y, z, action, blockType);
      EditLogs(w, id, x, y, z, action, blockType);
      var w' := EditVoxel(w, id, x, y, z, action, blockType);
      var room := w.players[id].roomId;
      assert FitEdits(EditsOf(w, room));
      hide EditVoxel, WellFormed, EditsOf;
      assert w'.players.Keys == w.players.Keys;
      hide SameSeats;
      if c in w.players {
        if EditVerdict(w, id, x, y, z, action, blockType).Granted? {
          var e := VoxelEdit(x, y, z, action, EffectiveType(w, room, x, y, z, action, blockType));
          AppendedCopy(w, w', RoomMates(w, room), VoxelEditNtf(e), c);
          VoxelUpdate(EditsOf(w, room), e);
        }
        StaysInStep(w, w', c);
      }
    }
  }

  lemma StepAgrees(w: State, c: string, op: Op)
    requires WellFormed(w) && (c in w.players ==> InStep(w, c))
    ensures c in Step(w, op).players ==> InStep(Step(w, op), c)
  {
    match op
    case DoEnter(id, name, now, pose, inv, reset) => EnterAgrees(w, c, id, name, now, pose, inv, reset);
    case DoLeave(id) => LeaveAgrees(w, c, id);
    case DoSelectRoom(id, room, mapId, now, hash) => SelectRoomAgrees(w, c, id, room, mapId, now, hash);
    case DoMove(id, pose, now, appearance, dist) => MoveAgrees(w, c, id, pose, now, appearance, dist);
    case DoGather(id, rid) => GatherAgrees(w, c, id, rid);
    case DoBuild(id, kind, pose) => BuildAgrees(w, c, id, kind, pose);
    case DoCraft(id, recipe) => CraftAgrees(w, c, id, recipe);
    case DoEdit(id, x, y, z, action, blockType) => EditAgrees(w, c, id, x, y, z, action, blockType);
  }

  /** Over every run from a loaded scene, the copy of every online player agrees with the server. */
  lemma {:induction false} ReplicaAgreement(w: State, ops: seq<Op>, c: string)
    requires Loaded(w)
    ensures WellFormed(Run(w, ops))
    ensures c in Run(w, ops).players ==> InStep(Run(w, ops), c)
  {
    if ops != [] {
      ReplicaAgreement(w, ops[..|ops| - 1], c);
      StepWellFormed(Run(w, ops[..|ops| - 1]), ops[|ops| - 1]);
      StepAgrees(Run(w, ops[..|ops| - 1]), c, ops[|ops| - 1]);
    }
  }

  /**
   The Godot client of the repository removes only the named player on a leave notice.  Folded that way, the copy
   of a player that changes rooms keeps everyone it left behind: it has the right members exactly when the player
   stayed in its room or was alone there.
   */
  lemma WithoutClearing(w: State, id: string, room: string, mapId: int, now: int, hash: nat, r: Copy)
    requires WellFormed(w) && RoomChangeAllowed(w, id, room, mapId)
    requires r.members.Keys == RoomMates(w, w.players[id].roomId)
    ensures var w1 := Moved(w, id, room, mapId, now, hash); var from := w.players[id].roomId;
            var r' := Deliver(id, r.(members := r.members - {id}), Snapshot(w1, id));
            r'.members.Keys == RoomMates(w1, room) <==> from == room || RoomMates(w, from) == {id}
  {
    hide Upsert, Arrive;
    assert w.players[id].playerId == id;
    assert forall p :: p in w.players ==> w.players[p].playerId == p;
    hide WellFormed;
    MovedRooms(w, id, room, mapId, now, hash);
    var w1, from := Moved(w, id, room, mapId, now, hash), w.players[id].roomId;
    hide Moved;
    SnapshotMemberKeys(w1, id, r.(members := r.members - {id}));
    RoomsDisjoint(w, from, room, id);
    hide RoomMates, Deliver, Snapshot;
    StaleSet(RoomMates(w, from), RoomMates(w, room), id, from == room);
  }

  /** Two players in the lobby, one changes rooms: its copy, folded that way, keeps the other. */
  lemma LeftBehind(w0: State, a: string, b: string, pose: Pose, inv: Inventory, now: int, room: string, hash: nat)
    requires Loaded(w0) && a != b && room != "" && room != "lobby"
    ensures var w := Run(w0, [DoEnter(a, a, now, pose, inv, true), DoEnter(b, b, now, pose, inv, true)]);
            && RoomChangeAllowed(w, b, room, 0) && b in w.inbox
            && var w1, r := Moved(w, b, room, 0, now, hash), CopyOf(w, b);
               a in Deliver(b, r.(members := r.members - {b}), Snapshot(w1, b)).members && a !in RoomMates(w1, room)
  {
    var ops := [DoEnter(a, a, now, pose, inv, true), DoEnter(b, b, now, pose, inv, true)];
    InLobby(w0, a, b, pose, inv, now);
    ReplicaAgreement(w0, ops, b);
    hide Run, Loaded, Upsert, Snapshot, Deliver, CopyOf, Moved, WellFormed, RoomMates;
    KeptBehind(Run(w0, ops), a, b, room, now, hash, CopyOf(Run(w0, ops), b));
  }

  lemma KeptBehind(w: State, a: string, b: string, room: string, now: int, hash: nat, r: Copy)
    requires WellFormed(w) && a != b && a in w.players && b in w.players
    requires w.players[a].roomId == w.players[b].roomId != room && r.members.Keys == RoomMates(w, w.players[b].roomId)
    ensures var w1 := Moved(w, b, room, 0, now, hash);
            b in w1.players && a !in RoomMates(w1, room)
            && a in Deliver(b, r.(members := r.members - {b}), Snapshot(w1, b)).members
  {
    assert forall p :: p in w.players ==> w.players[p].playerId == p;
    hide WellFormed;
    MovedRooms(w, b, room, 0, now, hash);
    var w1 := Moved(w, b, room, 0, now, hash);
    hide Moved;
    SnapshotMemberKeys(w1, b, r.(members := r.members - {b}));
    hide Deliver, Snapshot;
  }

  lemma InLobby(w0: State, a: string, b: string, pose: Pose, inv: Inventory, now: int)
    requires w0.players == map[] && a != b
    ensures var w := Run(w0, [DoEnter(a, a, now, pose, inv, true), DoEnter(b, b, now, pose, inv, true)]);
            a in w.players && b in w.players && w.players[a].roomId == "lobby" && w.players[b].roomId == "lobby"
  {
    var ops := [DoEnter(a, a, now, pose, inv, true), DoEnter(b, b, now, pose, inv, true)];
    assert ops[..1][..0] == [] && Run(w0, ops[..1][..0]) == w0;
    assert Run(w0, ops[..1]) == Enter(w0, a, a, now, pose, inv, true);
    hide Arrive;
  }

  lemma RoomsDisjoint(w: State, from: string, room: string, id: string)
    requires id in w.players && w.players[id].roomId == from
    ensures id in RoomMates(w, from)
    ensures from != room ==> RoomMates(w, from) !! RoomMates(w, room)
  {
  }

  lemma StaleSet(a: set<string>, b: set<string>, id: string, same: bool)
    requires id in a && (if same then a == b else a !! b)
    ensures (a - {id}) + (b + {id}) == b + {id} <==> same || a == {id}
  {
    if !same && a != {id} {
      var p :| p in a && p != id;
      assert p in (a - {id}) + (b + {id}) && p !in b + {id};
    }
  }

  lemma MovedRooms(w: State, id: string, room: string, mapId: int, now: int, hash: nat)
    requires id in w.players
    ensures RoomMates(Moved(w, id, room, mapId, now, hash), room) == RoomMates(w, room) + {id}
    ensures Moved(w, id, room, mapId, now, hash).players.Keys == w.players.Keys
    ensures Moved(w, id, room, mapId, now, hash).players[id].roomId == room
    ensures Moved(w, id, room, mapId, now, hash).players[id].playerId == w.players[id].playerId
    ensures forall p :: p in w.players && p != id ==> Moved(w, id, room, mapId, now, hash).players[p] == w.players[p]
  {
  }

  lemma SnapshotMemberKeys(w: State, id: string, r: Copy)
    requires id in w.players && forall p :: p in w.players ==> w.players[p].playerId == p
    ensures Deliver(id, r, Snapshot(w, id)).members.Keys == r.members.Keys + RoomMates(w, w.players[id].roomId)
  {
    var mates := RoomMates(w, w.players[id].roomId);
    var ts := set p | p in mates :: Look(w.players[p]);
    assert (set t | t in ts :: PlayerKey(t)) == mates by {
      forall p | p in mates ensures p in (set t | t in ts :: PlayerKey(t)) {
        assert Look(w.players[p]) in ts;
      }
    }
  }
}
