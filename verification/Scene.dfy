/** Saving the scene and loading it back: resources, buildings, the building counter and the voxel edits. */
module Scene {
  import opened World
  import Decimal

  datatype SceneVoxel = SceneVoxel(roomId: string, edit: VoxelEdit)

  datatype SceneSnapshot = SceneSnapshot(
    resources: seq<Resource>, buildings: seq<Building>, voxels: seq<SceneVoxel>, nextBuildingId: nat)

  /** emplace: the first record of an id stays. */
  function LoadResources(rs: seq<Resource>): map<string, Resource> {
    if rs == [] then map[] else
    var m, r := LoadResources(rs[..|rs| - 1]), rs[|rs| - 1];
    if r.id in m then m else m[r.id := r]
  }

  function KeyOf(e: VoxelEdit): string {
    Decimal.VoxelKey(e.x, e.y, e.z)
  }

  /** operator[]: the last edit of a key stays. */
  function LoadVoxels(vs: seq<SceneVoxel>): map<string, map<string, VoxelEdit>> {
    if vs == [] then map[] else
    var m, v := LoadVoxels(vs[..|vs| - 1]), vs[|vs| - 1];
    m[v.roomId := (if v.roomId in m then m[v.roomId] else map[])[KeyOf(v.edit) := v.edit]]
  }

  function Load(w: State, s: SceneSnapshot): State {
    w.(resources := LoadResources(s.resources), buildings := s.buildings, voxels := LoadVoxels(s.voxels),
       nextBuildingId := if s.nextBuildingId > 0 then s.nextBuildingId else 1)
  }

  /** The first record of the id. */
  ghost predicate FirstAt(rs: seq<Resource>, id: string, i: nat) {
    i < |rs| && rs[i].id == id && forall j :: 0 <= j < i ==> rs[j].id != id
  }

  /** The last edit of the coordinate in the room. */
  ghost predicate LastAt(vs: seq<SceneVoxel>, room: string, key: string, i: nat) {
    && i < |vs| && At(vs[i], room, key)
    && forall j :: i < j < |vs| ==> !At(vs[j], room, key)
  }

  predicate At(v: SceneVoxel, room: string, key: string) {
    v.roomId == room && Decimal.VoxelKey(v.edit.x, v.edit.y, v.edit.z) == key
  }

  /** Of several records of one resource the first is loaded. */
  lemma {:induction false} FirstLoaded(rs: seq<Resource>, id: string)
    ensures id in LoadResources(rs) <==> exists i: nat :: FirstAt(rs, id, i)
    ensures forall i: nat :: FirstAt(rs, id, i) ==> LoadResources(rs)[id] == rs[i]
  {
    if rs != [] {
      var before, r := rs[..|rs| - 1], rs[|rs| - 1];
      FirstLoaded(before, id);
      assert forall i: nat :: i < |before| ==> (FirstAt(rs, id, i) <==> FirstAt(before, id, i));
      if id in LoadResources(before) {
        var i: nat :| FirstAt(before, id, i);
        assert FirstAt(rs, id, i);
      } else {
        NoneFirst(before, id);
        assert r.id == id ==> FirstAt(rs, id, |before|);
      }
    }
  }

  lemma {:induction false} NoneFirst(rs: seq<Resource>, id: string)
    requires forall i: nat :: !FirstAt(rs, id, i)
    ensures forall i :: 0 <= i < |rs| ==> rs[i].id != id
  {
    if k :| 0 <= k < |rs| && rs[k].id == id {
      var i: nat := 0;
      while rs[i].id != id
        invariant i <= k && forall j :: 0 <= j < i ==> rs[j].id != id
        decreases k - i
      {
        i := i + 1;
      }
      assert FirstAt(rs, id, i);
    }
  }

  predicate Holds(l: map<string, map<string, VoxelEdit>>, room: string, key: string) {
    room in l && key in l[room]
  }

  lemma LastGrows(vs: seq<SceneVoxel>, v: SceneVoxel, room: string, key: string)
    ensures At(v, room, key) ==>
              forall i: nat :: LastAt(vs + [v], room, key, i) <==> i == |vs|
    ensures !At(v, room, key) ==>
              forall i: nat :: LastAt(vs + [v], room, key, i) <==> LastAt(vs, room, key, i)
  {
    hide At;
    var all := vs + [v];
    assert all[|vs|] == v && forall i: nat :: i < |vs| ==> all[i] == vs[i];
  }

  lemma HoldsMore(vs: seq<SceneVoxel>, v: SceneVoxel, room: string, key: string)
    ensures var l, l' := LoadVoxels(vs), LoadVoxels(vs + [v]);
            && (Holds(l', room, key) <==> At(v, room, key) || Holds(l, room, key))
            && (Holds(l', room, key) ==> l'[room][key] == if At(v, room, key) then v.edit else l[room][key])
  {
    assert (vs + [v])[..|vs|] == vs;
    hide Decimal.VoxelKey;
  }

  /** Of several edits of one coordinate of a room the last is loaded. */
  lemma {:induction false} LastLoaded(vs: seq<SceneVoxel>, room: string, key: string)
    ensures Holds(LoadVoxels(vs), room, key) <==> exists i: nat :: LastAt(vs, room, key, i)
    ensures forall i: nat :: LastAt(vs, room, key, i) ==>
              Holds(LoadVoxels(vs), room, key) && LoadVoxels(vs)[room][key] == vs[i].edit
  {
    if vs != [] {
      var before, v := vs[..|vs| - 1], vs[|vs| - 1];
      assert vs == before + [v];
      LastLoaded(before, room, key);
      LastGrows(before, v, room, key);
      HoldsMore(before, v, room, key);
      assert forall i: nat :: LastAt(before, room, key, i) ==> i < |before|;
      hide LastAt, At, LoadVoxels;
      assert At(v, room, key) ==> LastAt(vs, room, key, |before|);
    } else {
      assert LoadVoxels(vs) == map[];
    }
  }

  /** The rest of the scene: buildings as listed, a counter of at least 1, players and logs as they were. */
  lemma LoadedRest(w: State, s: SceneSnapshot)
    ensures var l := Load(w, s);
            && l.players == w.players && l.inbox == w.inbox && l.buildings == s.buildings && l.nextBuildingId >= 1
            && (s.nextBuildingId >= 1 ==> l.nextBuildingId == s.nextBuildingId)
            && (s.nextBuildingId == 0 ==> l.nextBuildingId == 1)
            && l.resources == LoadResources(s.resources) && l.voxels == LoadVoxels(s.voxels)
  {
  }

  /** s lists the scene of w; what comes from unordered maps may stand in any order. */
  ghost predicate IsExport(w: State, s: SceneSnapshot) {
    && (forall r :: r in s.resources <==> r in w.resources.Values)
    && s.buildings == w.buildings
    && (forall v :: v in s.voxels <==> StoredIn(w, v))
    && s.nextBuildingId == w.nextBuildingId
  }

  ghost predicate StoredIn(w: State, v: SceneVoxel) {
    v.roomId in w.voxels && v.edit in w.voxels[v.roomId].Values
  }

  lemma {:induction false} LoadedResources(rs: seq<Resource>, m: map<string, Resource>)
    requires forall r :: r in rs ==> r.id in m && m[r.id] == r
    ensures LoadResources(rs).Keys == (set r | r in rs :: r.id)
    ensures forall id :: id in LoadResources(rs) ==> id in m && LoadResources(rs)[id] == m[id]
  {
    if rs != [] {
      var before, last := rs[..|rs| - 1], rs[|rs| - 1];
      assert rs == before + [last];
      LoadedResources(before, m);
      assert (set r | r in rs :: r.id) == (set r | r in before :: r.id) + {last.id};
    }
  }

  ghost predicate FitsKey(voxels: map<string, map<string, VoxelEdit>>, v: SceneVoxel) {
    v.roomId in voxels && KeyOf(v.edit) in voxels[v.roomId] && voxels[v.roomId][KeyOf(v.edit)] == v.edit
  }

  /** Loading edits that stand in m under their own keys rebuilds the part of m they come from. */
  lemma {:induction false} LoadedVoxels(vs: seq<SceneVoxel>, m: map<string, map<string, VoxelEdit>>)
    requires forall v :: v in vs ==> FitsKey(m, v)
    ensures var l := LoadVoxels(vs);
            && (forall room, key :: room in l && key in l[room] ==>
                  room in m && key in m[room] && l[room][key] == m[room][key])
            && (forall v :: v in vs ==> v.roomId in l && KeyOf(v.edit) in l[v.roomId])
            && (forall room :: room in l ==> l[room] != map[])
  {
    hide KeyOf;
    if vs != [] {
      var before, last := vs[..|vs| - 1], vs[|vs| - 1];
      assert vs == before + [last];
      LoadedVoxels(before, m);
      assert FitsKey(m, last);
      var room := last.roomId;
      assert KeyOf(last.edit) in LoadVoxels(vs)[room];
    }
  }

  /** Loading an export gives back the resources, the buildings, the counter and every room that has edits. */
  lemma SceneRoundTrip(w: State, w0: State, s: SceneSnapshot)
    requires WellFormed(w) && w.nextBuildingId > 0 && IsExport(w, s)
    ensures var l := Load(w0, s);
            && l.resources == w.resources && l.buildings == w.buildings && l.nextBuildingId == w.nextBuildingId
            && l.voxels == map room | room in w.voxels && w.voxels[room] != map[] :: w.voxels[room]
  {
    forall r | r in s.resources ensures r.id in w.resources && w.resources[r.id] == r {
      assert r in w.resources.Values;
    }
    LoadedResources(s.resources, w.resources);
    forall id | id in w.resources ensures id in LoadResources(s.resources) {
      assert w.resources[id] in s.resources;
    }
    assert LoadResources(s.resources).Keys == w.resources.Keys;
    VoxelRoundTrip(w, s.voxels);
  }

  ghost predicate VoxelsFit(voxels: map<string, map<string, VoxelEdit>>) {
    forall room, key :: room in voxels && key in voxels[room] ==> KeyFits(voxels[room][key], key)
  }

  lemma StoredFits(w: State, v: SceneVoxel)
    requires VoxelsFit(w.voxels) && StoredIn(w, v)
    ensures FitsKey(w.voxels, v)
  {
    hide KeyFits;
    var key :| key in w.voxels[v.roomId] && w.voxels[v.roomId][key] == v.edit;
    assert KeyFits(w.voxels[v.roomId][key], key);
    KeyOfFits(v.edit, key);
  }

  lemma VoxelRoundTrip(w: State, vs: seq<SceneVoxel>)
    requires VoxelsFit(w.voxels) && forall v :: v in vs <==> StoredIn(w, v)
    ensures LoadVoxels(vs) == map room | room in w.voxels && w.voxels[room] != map[] :: w.voxels[room]
  {
    hide KeyOf, VoxelsFit, StoredIn, FitsKey, LoadVoxels;
    forall v | v in vs ensures FitsKey(w.voxels, v) {
      StoredFits(w, v);
    }
    LoadedVoxels(vs, w.voxels);
    forall room | room in w.voxels && w.voxels[room] != map[]
      ensures room in LoadVoxels(vs) && LoadVoxels(vs)[room] == w.voxels[room]
    {
      RoomRoundTrip(w, vs, room);
    }
    LoadedRooms(LoadVoxels(vs), w.voxels);
  }

  lemma LoadedRooms(l: map<string, map<string, VoxelEdit>>, m: map<string, map<string, VoxelEdit>>)
    requires forall room :: room in l ==>
               l[room] != map[] && forall key :: key in l[room] ==> room in m && key in m[room]
    requires forall room :: room in m && m[room] != map[] ==> room in l && l[room] == m[room]
    ensures l == map room | room in m && m[room] != map[] :: m[room]
  {
    forall room | room in l ensures room in m && m[room] != map[] {
      var key :| key in l[room];
    }
  }

  lemma RoomRoundTrip(w: State, vs: seq<SceneVoxel>, room: string)
    requires VoxelsFit(w.voxels) && forall v :: v in vs <==> StoredIn(w, v)
    requires room in w.voxels && w.voxels[room] != map[]
    requires var l := LoadVoxels(vs);
             (room in l ==>
                forall key :: key in l[room] ==> key in w.voxels[room] && l[room][key] == w.voxels[room][key])
             && (forall v :: v in vs ==> v.roomId in l && KeyOf(v.edit) in l[v.roomId])
    ensures room in LoadVoxels(vs) && LoadVoxels(vs)[room] == w.voxels[room]
  {
    hide KeyOf, KeyFits, LoadVoxels;
    var l := LoadVoxels(vs);
    forall key | key in w.voxels[room] ensures room in l && key in l[room] {
      var v := SceneVoxel(room, w.voxels[room][key]);
      assert StoredIn(w, v);
      assert v in vs;
      assert KeyFits(v.edit, key);
      KeyOfFits(v.edit, key);
    }
    var some :| some in w.voxels[room];
    assert l[room].Keys == w.voxels[room].Keys;
  }

  lemma KeyOfFits(e: VoxelEdit, key: string)
    requires KeyFits(e, key)
    ensures KeyOf(e) == key
  {
  }

  // ---- loading makes a world the runs can start from ----

  lemma {:induction false} ResourcesUnderIds(rs: seq<Resource>)
    ensures forall id :: id in LoadResources(rs) ==> LoadResources(rs)[id].id == id
  {
    if rs != [] {
      ResourcesUnderIds(rs[..|rs| - 1]);
    }
  }

  lemma {:induction false} EditsUnderKeys(vs: seq<SceneVoxel>)
    ensures VoxelsFit(LoadVoxels(vs))
  {
    if vs != [] {
      hide KeyOf;
      EditsUnderKeys(vs[..|vs| - 1]);
      OwnKey(vs[|vs| - 1].edit);
    }
  }

  lemma OwnKey(e: VoxelEdit)
    ensures KeyFits(e, KeyOf(e))
  {
  }

  /** The ids of the snapshot's buildings are distinct, and none is one the counter still has to give. */
  ghost predicate BuildingIdsFit(s: SceneSnapshot) {
    && (forall i, j :: 0 <= i < j < |s.buildings| ==> s.buildings[i].id != s.buildings[j].id)
    && (forall i, k: nat :: 0 <= i < |s.buildings| && (if s.nextBuildingId > 0 then s.nextBuildingId else 1) <= k ==>
          s.buildings[i].id != Decimal.BuildingName(k))
  }

  /** With nobody online, a loaded snapshot is a world to start from exactly when its building ids fit its counter. */
  lemma LoadedExactly(w: State, s: SceneSnapshot)
    requires w.players == map[] && w.inbox == map[]
    ensures Loaded(Load(w, s)) <==> BuildingIdsFit(s)
  {
    ResourcesUnderIds(s.resources);
    EditsUnderKeys(s.voxels);
    hide LoadResources, LoadVoxels, Decimal.BuildingName, KeyFits;
  }

  /** A snapshot that loads into another world: it holds the building whose id its counter gives next. */
  lemma UnfitCounter(w: State, b: Building)
    requires w.players == map[] && w.inbox == map[] && b.id == "building_1"
    ensures var s := SceneSnapshot([], [b], [], 0); !BuildingIdsFit(s) && !Loaded(Load(w, s))
  {
    var s := SceneSnapshot([], [b], [], 0);
    assert Decimal.Digits(1) == "1";
    assert s.buildings[0].id == Decimal.BuildingName(1);
    LoadedExactly(w, s);
    hide Loaded, Load;
  }

  // ---- the default scene ----

  const SEEDED: map<string, Resource> := map[
    "tree_1" := Resource("tree_1", RESOURCE_WOOD, -6.0, 0.0, -5.0, 6),
    "tree_2" := Resource("tree_2", RESOURCE_WOOD, 7.0, 0.0, -4.0, 6),
    "tree_3" := Resource("tree_3", RESOURCE_WOOD, -9.0, 0.0, 7.0, 6),
    "tree_4" := Resource("tree_4", RESOURCE_WOOD, 10.0, 0.0, 8.0, 6),
    "rock_1" := Resource("rock_1", RESOURCE_STONE, -4.0, 0.0, 8.0, 5),
    "rock_2" := Resource("rock_2", RESOURCE_STONE, 5.0, 0.0, 6.0, 5),
    "rock_3" := Resource("rock_3", RESOURCE_STONE, 9.0, 0.0, -9.0, 5)]

  function Seeded(w: State): State {
    w.(resources := SEEDED, buildings := [], nextBuildingId := 1)
  }

  /** Seeding leaves the voxel edits alone: a seeded world is one to start from exactly when these were in order. */
  lemma SeededExactly(w: State)
    requires w.players == map[] && w.inbox == map[]
    ensures Loaded(Seeded(w)) <==> VoxelsFit(w.voxels)
  {
    hide KeyFits, Decimal.BuildingName;
  }
}
