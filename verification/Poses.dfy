/**
 The poses in client copies.  They may lag behind the server's, since moves are announced at most every 50 ms, but
 they are never made up: whatever a copy shows of a player, the server's player once looked like that, and after an
 announced move the copies of the room show what is so now.
 */
module Poses {
  import opened Wrappers
  import opened World
  import opened WorldEffects
  import Decimal
  import Replica

  /** The server's player has just this look. */
  ghost predicate True(w: State, t: Transform) {
    t.playerId in w.players && t == Seen(w.players[t.playerId])
  }

  ghost predicate Truthful(w: State, m: Message) {
    match m
    case WorldStateNtf(ps, _, _, _, _) => forall t :: t in ps ==> True(w, t)
    case PlayerEnterNtf(t) => True(w, t)
    case _ => true
  }

  /** Each look of the copy was in the copy r before, or is the player's now. */
  ghost predicate OldOrTrue(w: State, r: Replica.Copy, r': Replica.Copy) {
    forall id :: id in r'.members ==>
      (id in r.members && r'.members[id] == r.members[id]) || TrueOf(w, id, r'.members[id])
  }

  ghost predicate TrueOf(w: State, id: string, t: Transform) {
    id == t.playerId && True(w, t)
  }

  lemma DeliverShows(w: State, c: string, r: Replica.Copy, m: Message)
    requires Truthful(w, m)
    ensures OldOrTrue(w, r, Replica.Deliver(c, r, m))
  {
    var r' := Replica.Deliver(c, r, m);
    hide True;
    if m.WorldStateNtf? {
      forall id | id in r'.members
        ensures (id in r.members && r'.members[id] == r.members[id]) || TrueOf(w, id, r'.members[id])
      {
        if exists t :: t in m.players && Replica.PlayerKey(t) == id {
          assert r'.members[id] == Replica.Pick(m.players, Replica.PlayerKey, id);
        }
      }
    }
  }

  lemma {:induction false} FoldShows(w: State, c: string, log: seq<Message>, more: seq<Message>)
    requires forall m :: m in more ==> Truthful(w, m)
    ensures OldOrTrue(w, Replica.Fold(c, log), Replica.Fold(c, log + more))
    decreases |more|
  {
    hide Truthful, True;
    if more == [] {
      assert log + more == log;
    } else {
      var before, last := more[..|more| - 1], more[|more| - 1];
      assert last in more && log + more == (log + before) + [last];
      FoldShows(w, c, log, before);
      Replica.FoldAppend(c, log + before, last);
      DeliverShows(w, c, Replica.Fold(c, log + before), last);
      hide Replica.Deliver;
    }
  }

  lemma StateTruthful(w: State, id: string, m: Message)
    requires WellFormed(w) && TellsState(w, id, m)
    ensures Truthful(w, m)
  {
  }

  /** What one request adds to the notifications of player c, who is online after it, is true then. */
  ghost predicate AddsTruth(w: State, w': State, c: string, base: seq<Message>, more: seq<Message>) {
    && c in w'.inbox && w'.inbox[c] == base + more
    && (base == [] || (c in w.inbox && base == w.inbox[c]))
    && forall m :: m in more ==> Truthful(w', m)
  }

  lemma ToldTruth(w: State, w': State, to: iset<string>, m: Message, c: string)
    returns (base: seq<Message>, more: seq<Message>)
    requires Told(w, w', to, m) && Truthful(w', m) && c in w'.inbox
    ensures AddsTruth(w, w', c, base, more)
  {
    hide Truthful;
    base, more := w.inbox[c], if c in to then [m] else [];
  }

  lemma MoveTruth(w: State, id: string, t: Pose, now: int, appearance: int, dist: real, c: string)
    returns (base: seq<Message>, more: seq<Message>)
    requires WellFormed(w) && id in w.players && c in w.players
    ensures AddsTruth(w, Step(w, DoMove(id, t, now, appearance, dist)), c, base, more)
  {
    MoveEffect(w, id, t, now, appearance, dist);
    hide Step, InWorld, WithinAllowance, Neighbours;
    var p, q := w.players[id], Step(w, DoMove(id, t, now, appearance, dist)).players[id];
    var tells := InWorld(t) && WithinAllowance(p, now, dist) && now - p.lastBroadcastMs >= 50;
    if tells {
      base, more := ToldTruth(w, Step(w, DoMove(id, t, now, appearance, dist)), Neighbours(w, p.roomId, id),
                              WorldStateNtf({Transform(p.playerId, p.name, t, q.appearance)}, {}, [], {}, None), c);
    } else {
      base, more := w.inbox[c], [];
    }
  }

  lemma AnyMoveTruth(w: State, id: string, t: Pose, now: int, appearance: int, dist: real, c: string)
    returns (base: seq<Message>, more: seq<Message>)
    requires WellFormed(w) && c in Step(w, DoMove(id, t, now, appearance, dist)).players
    ensures AddsTruth(w, Step(w, DoMove(id, t, now, appearance, dist)), c, base, more)
  {
    if id in w.players {
      MoveEffect(w, id, t, now, appearance, dist);
      hide Step, AddsTruth, WellFormed, Told;
      base, more := MoveTruth(w, id, t, now, appearance, dist, c);
    } else {
      base, more := w.inbox[c], [];
    }
  }

  /** The log of player c when id comes into the world, as EnterEffect tells it. */
  lemma EnterLog(w: State, w': State, id: string, reset: bool, m: Message, c: string)
    returns (base: seq<Message>, more: seq<Message>)
    requires w.inbox.Keys == w.players.Keys && WellFormed(w') && c in w'.players && id in w'.players
    requires OthersSame(w, w', id) && TellsState(w', id, m)
    requires w'.inbox.Keys == w.inbox.Keys + {id}
    requires w'.inbox[id] == (if reset || id !in w.inbox then [] else w.inbox[id]) + [m]
    requires forall p :: p in w.inbox && p != id ==>
               w'.inbox[p] == w.inbox[p] + if p in Neighbours(w, w'.players[id].roomId, id)
                                           then [PlayerEnterNtf(Seen(w'.players[id]))] else []
    ensures AddsTruth(w, w', c, base, more)
  {
    StateTruthful(w', id, m);
    ArrivalTruthful(w', id);
    hide WellFormed, Truthful, TellsState, Neighbours;
    base := if c == id && (reset || c !in w.inbox) then [] else w.inbox[c];
    more := if c == id then [m]
            else if c in Neighbours(w, w'.players[id].roomId, id) then [PlayerEnterNtf(Seen(w'.players[id]))] else [];
  }

  lemma EnterTruth(w: State, op: Op, c: string) returns (base: seq<Message>, more: seq<Message>)
    requires WellFormed(w) && op.DoEnter? && WellFormed(Step(w, op)) && c in Step(w, op).players
    ensures AddsTruth(w, Step(w, op), c, base, more)
  {
    assert w.inbox.Keys == w.players.Keys;
    hide *;
    var m := EnterEffect(w, op.id, op.name, op.now, op.pose, op.inv, op.reset);
    base, more := EnterLog(w, Step(w, op), op.id, op.reset, m, c);
  }

  /** The log of player c when id changes rooms, as SelectRoomEffect tells it. */
  lemma RoomLog(w: State, w': State, id: string, room: string, m: Message, c: string) returns (more: seq<Message>)
    requires WellFormed(w') && c in w'.inbox && c in w.inbox && id in w.players && id in w'.players
    requires TellsState(w', id, m)
    requires w'.inbox[c] == w.inbox[c] + (if c in InRoom(w, w.players[id].roomId) then [PlayerLeaveNtf(id)] else [])
               + if c == id then [m]
                 else if c in Neighbours(w, room, id) then [PlayerEnterNtf(Seen(w'.players[id]))] else []
    ensures AddsTruth(w, w', c, w.inbox[c], more)
  {
    StateTruthful(w', id, m);
    ArrivalTruthful(w', id);
    LeaveTruthful(w', id);
    hide *;
    var left := if c in InRoom(w, w.players[id].roomId) then [PlayerLeaveNtf(id)] else [];
    var came := if c == id then [m]
                else if c in Neighbours(w, room, id) then [PlayerEnterNtf(Seen(w'.players[id]))] else [];
    more := left + came;
    Chained(w, w', c, left, came);
  }

  lemma SelectRoomTruth(w: State, op: Op, c: string) returns (base: seq<Message>, more: seq<Message>)
    requires WellFormed(w) && op.DoSelectRoom? && WellFormed(Step(w, op)) && c in Step(w, op).players
    ensures AddsTruth(w, Step(w, op), c, base, more)
  {
    hide Step, Neighbours, InRoom, TellsState, SceneSame, VoxelsSame, OthersSame, Truthful;
    var m := SelectRoomEffect(w, op.id, op.room, op.mapId, op.now, op.hash);
    assert c in Step(w, op).inbox;
    if op.id in w.players && op.room != "" && 0 <= op.mapId <= 2 {
      assert c in w.inbox && op == DoSelectRoom(op.id, op.room, op.mapId, op.now, op.hash);
      hide *;
      base := w.inbox[c];
      more := RoomLog(w, Step(w, op), op.id, op.room, m, c);
    } else {
      base, more := w.inbox[c], [];
    }
  }

  lemma Chained(w: State, w': State, c: string, a: seq<Message>, b: seq<Message>)
    requires c in w.inbox && c in w'.inbox && w'.inbox[c] == w.inbox[c] + a + b
    requires forall m :: m in a ==> Truthful(w', m)
    requires forall m :: m in b ==> Truthful(w', m)
    ensures AddsTruth(w, w', c, w.inbox[c], a + b)
  {
    hide Truthful;
    assert w.inbox[c] + a + b == w.inbox[c] + (a + b);
  }

  lemma ArrivalTruthful(w: State, id: string)
    requires WellFormed(w) && id in w.players
    ensures Truthful(w, PlayerEnterNtf(Seen(w.players[id])))
  {
  }

  lemma LeaveTruthful(w: State, id: string)
    ensures Truthful(w, PlayerLeaveNtf(id))
  {
  }

  lemma ToldOrSame(w: State, w': State, told: bool, to: iset<string>, m: Message, c: string)
    returns (base: seq<Message>, more: seq<Message>)
    requires if told then Told(w, w', to, m) else w'.inbox == w.inbox
    requires c in w'.inbox && Truthful(w', m)
    ensures AddsTruth(w, w', c, base, more)
  {
    hide Truthful;
    base, more := w.inbox[c], if told && c in to then [m] else [];
  }

  lemma EditTruth(w: State, op: Op, c: string) returns (base: seq<Message>, more: seq<Message>)
    requires op.DoEdit? && c in Step(w, op).inbox
    ensures AddsTruth(w, Step(w, op), c, base, more)
  {
    hide Step, EditVerdict, InRoom, EditStored, OthersSame, Told;
    EditEffect(w, op.id, op.vx, op.vy, op.vz, op.action, op.blockType);
    if EditVerdict(w, op.id, op.vx, op.vy, op.vz, op.action, op.blockType).Granted? && op.id in w.players {
      var p := w.players[op.id];
      var was := StoredAt(w, p.roomId, op.vx, op.vy, op.vz);
      var kind := if op.action == 1 && Occupying(was) then was.value.blockType else op.blockType;
      var m := VoxelEditNtf(VoxelEdit(op.vx, op.vy, op.vz, op.action, kind));
      base, more := ToldOrSame(w, Step(w, op), true, InRoom(w, p.roomId), m, c);
    } else {
      base, more := ToldOrSame(w, Step(w, op), false, iset{}, PlayerLeaveNtf(""), c);
    }
  }

  lemma LeaveTruth(w: State, id: string, c: string) returns (base: seq<Message>, more: seq<Message>)
    requires c in Step(w, DoLeave(id)).inbox
    ensures AddsTruth(w, Step(w, DoLeave(id)), c, base, more)
  {
    LeaveEffect(w, id);
    hide Step, Neighbours;
    base := w.inbox[c];
    more := if id in w.players && c in Neighbours(w, w.players[id].roomId, id) then [PlayerLeaveNtf(id)] else [];
  }

  lemma GatherTruth(w: State, id: string, rid: string, c: string) returns (base: seq<Message>, more: seq<Message>)
    requires c in Step(w, DoGather(id, rid)).inbox
    ensures AddsTruth(w, Step(w, DoGather(id, rid)), c, base, more)
  {
    hide Step, InReach, OthersSame, Told;
    GatherEffect(w, id, rid);
    if id in w.players && rid in w.resources && w.resources[rid].remaining > 0
       && InReach(w.players[id].pose, w.resources[rid]) {
      var less := w.resources[rid].(remaining := w.resources[rid].remaining - 1);
      base, more := ToldOrSame(w, Step(w, DoGather(id, rid)), true, Everyone(w), ResourceChangedNtf(less), c);
    } else {
      base, more := ToldOrSame(w, Step(w, DoGather(id, rid)), false, iset{}, PlayerLeaveNtf(""), c);
    }
  }

  lemma BuildTruth(w: State, id: string, kind: int, target: Pose, c: string)
    returns (base: seq<Message>, more: seq<Message>)
    requires c in Step(w, DoBuild(id, kind, target)).inbox
    ensures AddsTruth(w, Step(w, DoBuild(id, kind, target)), c, base, more)
  {
    hide Step, Square, Affords, SpotTaken, Snapped, OnGrid, OthersSame, Told, Decimal.BuildingName;
    var at := Snapped(target);
    SnappedExactly(target, at);
    BuildEffect(w, id, kind, target, at);
    var b := Building(Decimal.BuildingName(w.nextBuildingId), id, kind, at);
    if id in w.players && 1 <= kind <= 3 && Square(w.players[id].pose, at) <= 64.0
       && Affords(w.players[id].inv, kind) && !SpotTaken(w.buildings, at) {
      base, more := ToldOrSame(w, Step(w, DoBuild(id, kind, target)), true, Everyone(w), BuildingPlacedNtf(b), c);
    } else {
      base, more := ToldOrSame(w, Step(w, DoBuild(id, kind, target)), false, iset{}, PlayerLeaveNtf(""), c);
    }
  }

  lemma CraftTruth(w: State, id: string, recipe: int, c: string) returns (base: seq<Message>, more: seq<Message>)
    requires c in Step(w, DoCraft(id, recipe)).inbox
    ensures AddsTruth(w, Step(w, DoCraft(id, recipe)), c, base, more)
  {
    hide Step, CanCraft, OthersSame;
    CraftEffect(w, id, recipe);
    base, more := ToldOrSame(w, Step(w, DoCraft(id, recipe)), false, iset{}, PlayerLeaveNtf(""), c);
  }

  lemma StepTruth(w: State, op: Op, c: string) returns (base: seq<Message>, more: seq<Message>)
    requires WellFormed(w) && WellFormed(Step(w, op)) && c in Step(w, op).players
    ensures AddsTruth(w, Step(w, op), c, base, more)
  {
    assert c in Step(w, op).inbox;
    hide *;
    match op
    case DoEnter(_, _, _, _, _, _) => base, more := EnterTruth(w, op, c);
    case DoSelectRoom(_, _, _, _, _) => base, more := SelectRoomTruth(w, op, c);
    case DoMove(id, t, now, appearance, dist) => base, more := AnyMoveTruth(w, id, t, now, appearance, dist, c);
    case DoEdit(_, _, _, _, _, _) => base, more := EditTruth(w, op, c);
    case DoLeave(id) => base, more := LeaveTruth(w, id, c);
    case DoGather(id, rid) => base, more := GatherTruth(w, id, rid, c);
    case DoBuild(id, kind, pose) => base, more := BuildTruth(w, id, kind, pose, c);
    case DoCraft(id, recipe) => base, more := CraftTruth(w, id, recipe, c);
  }

  /** The look a player had at some moment of a run. */
  ghost predicate Had(w: State, ops: seq<Op>, id: string, t: Transform) {
    exists i :: 0 <= i <= |ops| && TrueOf(Run(w, ops[..i]), id, t)
  }

  lemma HadLater(w: State, ops: seq<Op>, op: Op, id: string, t: Transform)
    requires Had(w, ops, id, t)
    ensures Had(w, ops + [op], id, t)
  {
    hide Run, TrueOf;
    var i :| 0 <= i <= |ops| && TrueOf(Run(w, ops[..i]), id, t);
    assert (ops + [op])[..i] == ops[..i];
  }

  lemma HadNow(w: State, ops: seq<Op>, id: string, t: Transform)
    requires TrueOf(Run(w, ops), id, t)
    ensures Had(w, ops, id, t)
  {
    hide Run, TrueOf;
    assert ops[..|ops|] == ops;
  }

  /** What one request leaves in the copy of player c was there before or is so now. */
  lemma StepShows(w: State, op: Op, c: string)
    requires WellFormed(w) && c in Step(w, op).players
    ensures c in Step(w, op).inbox
    ensures var w' := Step(w, op);
            OldOrTrue(w', if c in w.inbox then Replica.CopyOf(w, c) else Replica.EMPTY, Replica.CopyOf(w', c))
  {
    Replica.StepWellFormed(w, op);
    var base, more := StepTruth(w, op, c);
    hide Step, Truthful, True, Replica.Deliver;
    FoldShows(Step(w, op), c, base, more);
    assert base == [] ==> Replica.Fold(c, base) == Replica.EMPTY;
  }

  lemma OneOfTwo(w: State, r: Replica.Copy, r': Replica.Copy, id: string)
    requires OldOrTrue(w, r, r') && id in r'.members
    ensures TrueOf(w, id, r'.members[id]) || (id in r.members && r.members[id] == r'.members[id])
  {
    hide TrueOf;
  }

  lemma Logged(w: State, c: string)
    requires WellFormed(w)
    ensures c in w.players <==> c in w.inbox
  {
  }

  /** Whatever a copy shows of a player, the server's player once looked like that. */
  lemma {:induction false} LooksOnceTrue(w: State, ops: seq<Op>, c: string, id: string)
    requires Loaded(w) && c in Run(w, ops).players
    ensures c in Run(w, ops).inbox
    ensures var r := Replica.CopyOf(Run(w, ops), c); id in r.members ==> Had(w, ops, id, r.members[id])
  {
    assert ops == [] ==> c !in w.players && Run(w, ops) == w;
    assert ops != [] ==> Run(w, ops) == Step(Run(w, ops[..|ops| - 1]), ops[|ops| - 1]);
    hide *;
    if ops != [] {
      var before, op := ops[..|ops| - 1], ops[|ops| - 1];
      assert ops == before + [op];
      Replica.ReplicaAgreement(w, before, c);
      StepShows(Run(w, before), op, c);
      Logged(Run(w, before), c);
      var r := Replica.CopyOf(Run(w, ops), c);
      if id in r.members {
        var r0 := if c in Run(w, before).inbox then Replica.CopyOf(Run(w, before), c) else Replica.EMPTY;
        OneOfTwo(Run(w, ops), r0, r, id);
        if TrueOf(Run(w, ops), id, r.members[id]) {
          HadNow(w, ops, id, r.members[id]);
        } else if c in Run(w, before).inbox {
          LooksOnceTrue(w, before, c, id);
          HadLater(w, before, op, id, r.members[id]);
        } else {
          NothingShown(id);
        }
      }
    }
  }

  lemma NothingShown(id: string)
    ensures id !in Replica.EMPTY.members
  {
  }

  /** After an announced move every other player of the room sees the mover as it now is. */
  lemma AnnouncedShown(w: State, id: string, t: Pose, now: int, appearance: int, dist: real, c: string)
    requires WellFormed(w) && id in w.players && InWorld(t) && WithinAllowance(w.players[id], now, dist)
    requires now - w.players[id].lastBroadcastMs >= 50 && c in Neighbours(w, w.players[id].roomId, id)
    ensures var w' := Step(w, DoMove(id, t, now, appearance, dist));
            && c in w'.inbox && id in w'.players && w'.players[id].pose == t
            && var r := Replica.CopyOf(w', c); id in r.members && r.members[id] == Seen(w'.players[id])
  {
    MoveEffect(w, id, t, now, appearance, dist);
    var w' := Step(w, DoMove(id, t, now, appearance, dist));
    hide Step, InWorld, WithinAllowance;
    var m := WorldStateNtf({Seen(w'.players[id])}, {}, [], {}, None);
    assert w'.inbox[c] == w.inbox[c] + [m];
    hide Told, OthersSame;
    Replica.FoldAppend(c, w.inbox[c], m);
    assert Seen(w'.players[id]) in m.players && Replica.PlayerKey(Seen(w'.players[id])) == id;
  }
}
