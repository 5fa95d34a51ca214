/**
 What the movement allowance promises over whole runs: how far a player can have travelled, where it can be, and how
 often its pose is announced.
 */
module SpeedBound {
  import opened World
  import Decimal
  import WorldEffects

  /** Enter and Leave of the player, and its room changes, start a new stretch of movement. */
  predicate Restarts(op: Op, id: string) {
    (op.DoEnter? || op.DoLeave? || op.DoSelectRoom?) && op.id == id
  }

  predicate AcceptsMove(w: State, op: Op, id: string) {
    op.DoMove? && op.id == id && MoveVerdict(w, id, op.pose, op.now, op.dist).Granted?
  }

  /** The distance of an accepted TryMove. */
  function StepTravel(w: State, op: Op, id: string): real {
    if AcceptsMove(w, op, id) then op.dist else 0.0
  }

  function Travelled(w: State, ops: seq<Op>, id: string): real {
    if ops == [] then 0.0 else
    Travelled(w, ops[..|ops| - 1], id) + StepTravel(Run(w, ops[..|ops| - 1]), ops[|ops| - 1], id)
  }

  /** A stretch without restarts in which TryMove measures true distances and its clock does not run backwards. */
  ghost predicate Stretch(w: State, ops: seq<Op>, id: string) {
    forall i :: 0 <= i < |ops| ==> StretchStep(Run(w, ops[..i]), ops[i], id)
  }

  ghost predicate StretchStep(w: State, op: Op, id: string) {
    && !Restarts(op, id)
    && (op.DoMove? && op.id == id && id in w.players ==>
          op.now >= w.players[id].lastMoveMs && IsDistance(op.dist, ClampPose(op.pose), w.players[id].pose))
  }

  /** Operations of the others, and everything but moves, leave the player's movement record alone. */
  lemma MovementUntouched(w: State, op: Op, id: string)
    requires id in w.players && !Restarts(op, id) && !(op.DoMove? && op.id == id)
    ensures id in Step(w, op).players
    ensures var p, q := w.players[id], Step(w, op).players[id];
            p.moveAllowance == q.moveAllowance && p.lastMoveMs == q.lastMoveMs && p.pose == q.pose
            && p.lastBroadcastMs == q.lastBroadcastMs
  {
    hide EditVerdict, EditPrecheck, EffectiveType, Occupied, DistanceSq, PlaceStock, BuildVerdict, GatherVerdict,
         CraftVerdict, AfterEdit, Snapped, Decimal.VoxelKey, Decimal.BuildingName, Post, Touch, SendWorldState, Arrive,
         RoomMates, Move;
    match op
    case DoMove(other, pose, now, appearance, dist) => MoveOther(w, other, pose, now, appearance, dist, id);
    case _ =>
  }

  lemma MoveOther(w: State, other: string, pose: Pose, now: int, appearance: int, dist: real, id: string)
    requires id in w.players && id != other
    ensures var w' := Move(w, other, pose, now, appearance, dist);
            id in w'.players && w'.players[id] == w.players[id]
  {
    hide AfterMove, Announces, Post, RoomMates;
  }

  lemma MoveStep(w: State, op: Op, id: string)
    requires id in w.players && op.DoMove? && op.id == id && StretchStep(w, op, id)
    requires w.players[id].moveAllowance >= 0.0
    ensures id in Step(w, op).players
    ensures var p, q := w.players[id], Step(w, op).players[id];
            && q.lastMoveMs == op.now && 0.0 <= q.moveAllowance <= 15.0
            && StepTravel(w, op, id) + q.moveAllowance
               <= p.moveAllowance + 15.0 * (op.now - p.lastMoveMs) as real / 1000.0
  {
    hide RoomMates, DistanceSq;
  }

  /** What was travelled plus what is still allowed never exceeds the first allowance plus 15 a second. */
  lemma {:induction false} TravelBudget(w: State, ops: seq<Op>, id: string)
    requires id in w.players && w.players[id].moveAllowance >= 0.0 && Stretch(w, ops, id)
    ensures id in Run(w, ops).players
    ensures var p, q := w.players[id], Run(w, ops).players[id];
            q.moveAllowance >= 0.0
            && Travelled(w, ops, id) + q.moveAllowance
               <= p.moveAllowance + 15.0 * (q.lastMoveMs - p.lastMoveMs) as real / 1000.0
  {
    if ops != [] {
      var before, op := ops[..|ops| - 1], ops[|ops| - 1];
      forall i | 0 <= i < |before| ensures StretchStep(Run(w, before[..i]), before[i], id) {
        assert before[..i] == ops[..i] && before[i] == ops[i];
      }
      hide Step, IsDistance;
      TravelBudget(w, before, id);
      assert StretchStep(Run(w, ops[..|before|]), ops[|before|], id);
      if op.DoMove? && op.id == id {
        MoveStep(Run(w, before), op, id);
      } else {
        MovementUntouched(Run(w, before), op, id);
      }
    }
  }

  /** Between the TryMove `first` and the end of a stretch that follows it, at most 15 + 15 x elapsed seconds. */
  lemma SpeedLimit(w: State, first: Op, ops: seq<Op>, id: string)
    requires id in w.players && w.players[id].moveAllowance >= 0.0
    requires first.DoMove? && first.id == id && StretchStep(w, first, id) && Stretch(Step(w, first), ops, id)
    ensures var w1 := Step(w, first);
            id in w1.players && id in Run(w1, ops).players
            && Travelled(w1, ops, id) <= 15.0 +
               15.0 * (Run(w1, ops).players[id].lastMoveMs - first.now) as real / 1000.0
  {
    MoveStep(w, first, id);
    hide Step;
    TravelBudget(Step(w, first), ops, id);
  }

  // ---- where the player can be ----

  /** b is at most d away from a. */
  predicate Within(a: Pose, b: Pose, d: real) {
    d >= 0.0 && DistanceSq(b.x, b.y, b.z, a.x, a.y, a.z) <= d * d
  }

  lemma Product(x: real, y: real)
    requires x > 0.0 && y > 0.0
    ensures x * y > 0.0
  {
  }

  lemma SquareRoot(s: real, t: real)
    requires s * s <= t * t && t >= 0.0
    ensures s <= t
  {
    if s > t {
      SquareMore(s, t);
    }
  }

  lemma SquareMore(s: real, t: real)
    requires s > t >= 0.0
    ensures s * s > t * t
  {
    Product(s - t, s + t);
    assert s * s - t * t == (s - t) * (s + t);
  }

  lemma SquaresTogether(p: real, q: real, a: real, b: real)
    requires 0.0 <= p <= a * a && 0.0 <= q <= b * b
    ensures p * q <= (a * b) * (a * b)
  {
    assert p * q <= p * (b * b) by { assert p * (b * b - q) >= 0.0; }
    assert p * (b * b) <= (a * a) * (b * b) by { assert (a * a - p) * (b * b) >= 0.0; }
  }

  /** The inequality of Cauchy and Schwarz, by the identity of Lagrange. */
  lemma Cauchy(u1: real, u2: real, u3: real, v1: real, v2: real, v3: real)
    ensures var s := u1 * v1 + u2 * v2 + u3 * v3;
            s * s <= (u1 * u1 + u2 * u2 + u3 * u3) * (v1 * v1 + v2 * v2 + v3 * v3)
  {
    var s := u1 * v1 + u2 * v2 + u3 * v3;
    var x, y, z := u1 * v2 - u2 * v1, u1 * v3 - u3 * v1, u2 * v3 - u3 * v2;
    assert (u1 * u1 + u2 * u2 + u3 * u3) * (v1 * v1 + v2 * v2 + v3 * v3) - s * s == x * x + y * y + z * z;
  }

  /** Legs of at most d and e make a way of at most d + e. */
  lemma Triangle(a: Pose, b: Pose, c: Pose, d: real, e: real)
    requires Within(a, b, d) && Within(b, c, e)
    ensures Within(a, c, d + e)
  {
    Legs(b.x - a.x, b.y - a.y, b.z - a.z, c.x - b.x, c.y - b.y, c.z - b.z, d, e);
    Joined(b.x - a.x, c.x - b.x, c.x - a.x);
    Joined(b.y - a.y, c.y - b.y, c.y - a.y);
    Joined(b.z - a.z, c.z - b.z, c.z - a.z);
  }

  lemma Joined(u: real, v: real, w: real)
    requires u + v == w
    ensures (u + v) * (u + v) == w * w
  {
  }

  lemma Legs(u1: real, u2: real, u3: real, v1: real, v2: real, v3: real, d: real, e: real)
    requires d >= 0.0 && e >= 0.0
    requires u1 * u1 + u2 * u2 + u3 * u3 <= d * d && v1 * v1 + v2 * v2 + v3 * v3 <= e * e
    ensures (u1 + v1) * (u1 + v1) + (u2 + v2) * (u2 + v2) + (u3 + v3) * (u3 + v3) <= (d + e) * (d + e)
  {
    var s := u1 * v1 + u2 * v2 + u3 * v3;
    Cauchy(u1, u2, u3, v1, v2, v3);
    SquaresTogether(u1 * u1 + u2 * u2 + u3 * u3, v1 * v1 + v2 * v2 + v3 * v3, d, e);
    assert d * e >= 0.0;
    SquareRoot(s, d * e);
    assert (u1 + v1) * (u1 + v1) + (u2 + v2) * (u2 + v2) + (u3 + v3) * (u3 + v3)
           == (u1 * u1 + u2 * u2 + u3 * u3) + 2.0 * s + (v1 * v1 + v2 * v2 + v3 * v3);
    assert (d + e) * (d + e) == d * d + 2.0 * (d * e) + e * e;
  }

  /** In a stretch every request moves the player by exactly the distance counted for it. */
  lemma StepMoves(w: State, op: Op, id: string)
    requires id in w.players && StretchStep(w, op, id)
    ensures id in Step(w, op).players
    ensures IsDistance(StepTravel(w, op, id), Step(w, op).players[id].pose, w.players[id].pose)
  {
    if op.DoMove? && op.id == id {
      WorldEffects.MoveEffect(w, id, op.pose, op.now, op.appearance, op.dist);
      WorldEffects.MoveGrantedExactly(w, id, op.pose, op.now, op.dist);
      assert MoveVerdict(w, id, op.pose, op.now, op.dist).Granted? ==> ClampPose(op.pose) == op.pose;
    } else {
      MovementUntouched(w, op, id);
    }
    hide Step, MoveVerdict, WorldEffects.Told, WorldEffects.OthersSame;
  }

  lemma StepWithin(w: State, op: Op, id: string)
    requires id in w.players && StretchStep(w, op, id)
    ensures id in Step(w, op).players
    ensures Within(w.players[id].pose, Step(w, op).players[id].pose, StepTravel(w, op, id))
  {
    StepMoves(w, op, id);
    hide Step, StepTravel, StretchStep;
  }

  lemma StretchInit(w: State, ops: seq<Op>, id: string)
    requires ops != [] && Stretch(w, ops, id)
    ensures Stretch(w, ops[..|ops| - 1], id) && StretchStep(Run(w, ops[..|ops| - 1]), ops[|ops| - 1], id)
  {
    hide Run, StretchStep;
    var before := ops[..|ops| - 1];
    assert StretchStep(Run(w, ops[..|before|]), ops[|before|], id);
    forall i | 0 <= i < |before| ensures StretchStep(Run(w, before[..i]), before[i], id) {
      assert before[..i] == ops[..i] && before[i] == ops[i];
    }
  }

  lemma NowhereYet(a: Pose)
    ensures Within(a, a, 0.0)
  {
  }

  /** No stretch takes a player further from where it began than the distances accepted in it add up to. */
  lemma {:induction false} Displacement(w: State, ops: seq<Op>, id: string)
    requires id in w.players && Stretch(w, ops, id)
    ensures id in Run(w, ops).players
    ensures Within(w.players[id].pose, Run(w, ops).players[id].pose, Travelled(w, ops, id))
  {
    hide Step, Stretch, StretchStep, StepTravel, Within;
    if ops != [] {
      var before, op := ops[..|ops| - 1], ops[|ops| - 1];
      StretchInit(w, ops, id);
      Displacement(w, before, id);
      StepWithin(Run(w, before), op, id);
      Triangle(w.players[id].pose, Run(w, before).players[id].pose, Run(w, ops).players[id].pose,
               Travelled(w, before, id), StepTravel(Run(w, before), op, id));
    } else {
      NowhereYet(w.players[id].pose);
    }
  }

  // ---- the allowances of reachable states ----

  ghost predicate AllAllowed(w: State) {
    forall id :: id in w.players ==> w.players[id].moveAllowance >= 0.0
  }

  lemma MoveAllowed(w: State, id: string, pose: Pose, now: int, appearance: int, dist: real)
    requires AllAllowed(w)
    ensures AllAllowed(Move(w, id, pose, now, appearance, dist))
  {
    hide Post, RoomMates;
  }

  lemma StepAllowed(w: State, op: Op)
    requires AllAllowed(w)
    ensures AllAllowed(Step(w, op))
  {
    hide EffectiveType, AfterEdit, Snapped, Decimal.VoxelKey, Decimal.BuildingName, Post, Touch, SendWorldState, Arrive,
         RoomMates, DistanceSq, PlaceStock, Previous, Occupied, Move;
    match op
    case DoMove(id, pose, now, appearance, dist) => MoveAllowed(w, id, pose, now, appearance, dist);
    case _ =>
  }

  /** In every state a run from a loaded scene reaches, no allowance is negative. */
  lemma {:induction false} RunAllowed(w: State, ops: seq<Op>)
    requires Loaded(w)
    ensures AllAllowed(Run(w, ops))
  {
    if ops != [] {
      hide Step, AllAllowed;
      RunAllowed(w, ops[..|ops| - 1]);
      StepAllowed(Run(w, ops[..|ops| - 1]), ops[|ops| - 1]);
    }
  }

  /** The speed limit from any state a run from a loaded scene reaches. */
  lemma RunSpeedLimit(w: State, before: seq<Op>, first: Op, ops: seq<Op>, id: string)
    requires Loaded(w) && id in Run(w, before).players && first.DoMove? && first.id == id
    requires StretchStep(Run(w, before), first, id) && Stretch(Step(Run(w, before), first), ops, id)
    ensures var w1 := Step(Run(w, before), first);
            id in w1.players && id in Run(w1, ops).players
            && Travelled(w1, ops, id) <= 15.0 +
               15.0 * (Run(w1, ops).players[id].lastMoveMs - first.now) as real / 1000.0
  {
    RunAllowed(w, before);
    hide Run, Step, Stretch, StretchStep, Travelled;
    SpeedLimit(Run(w, before), first, ops, id);
  }

  /** So from any reachable state nobody gets further than 15 + 15 x elapsed seconds from where a move left it. */
  lemma RunReach(w: State, before: seq<Op>, first: Op, ops: seq<Op>, id: string)
    requires Loaded(w) && id in Run(w, before).players && first.DoMove? && first.id == id
    requires StretchStep(Run(w, before), first, id) && Stretch(Step(Run(w, before), first), ops, id)
    ensures var w1 := Step(Run(w, before), first);
            && id in w1.players && id in Run(w1, ops).players
            && Within(w1.players[id].pose, Run(w1, ops).players[id].pose,
                      15.0 + 15.0 * (Run(w1, ops).players[id].lastMoveMs - first.now) as real / 1000.0)
  {
    hide *;
    RunSpeedLimit(w, before, first, ops, id);
    ReachOf(Step(Run(w, before), first), ops, id,
            15.0 + 15.0 * (Run(Step(Run(w, before), first), ops).players[id].lastMoveMs - first.now) as real / 1000.0);
  }

  lemma ReachOf(w: State, ops: seq<Op>, id: string, reach: real)
    requires id in w.players && Stretch(w, ops, id) && Travelled(w, ops, id) <= reach
    ensures id in Run(w, ops).players && Within(w.players[id].pose, Run(w, ops).players[id].pose, reach)
  {
    hide *;
    Displacement(w, ops, id);
    WithinMore(w.players[id].pose, Run(w, ops).players[id].pose, Travelled(w, ops, id), reach);
  }

  lemma WithinMore(a: Pose, b: Pose, d: real, e: real)
    requires Within(a, b, d) && d <= e
    ensures Within(a, b, e)
  {
    assert d * d <= e * e;
  }

  // ---- position ----

  predicate Inside(p: Pose) {
    -500.0 <= p.x <= 500.0 && -500.0 <= p.y <= 500.0 && -500.0 <= p.z <= 500.0
  }

  ghost predicate AllInside(w: State) {
    forall id :: id in w.players ==> Inside(w.players[id].pose)
  }

  lemma MoveInside(w: State, id: string, pose: Pose, now: int, appearance: int, dist: real)
    requires AllInside(w)
    ensures AllInside(Move(w, id, pose, now, appearance, dist))
  {
    hide Refilled, Post, RoomMates;
  }

  lemma StepInside(w: State, op: Op)
    requires AllInside(w) && (op.DoEnter? ==> Inside(op.pose))
    ensures AllInside(Step(w, op))
  {
    hide EffectiveType, AfterEdit, Snapped, Decimal.VoxelKey, Decimal.BuildingName, Post, Touch, SendWorldState, Arrive,
         RoomMates, DistanceSq, PlaceStock, Previous, Occupied, Move;
    match op
    case DoMove(id, pose, now, appearance, dist) => MoveInside(w, id, pose, now, appearance, dist);
    case _ =>
  }

  /** Nobody who entered inside the world ever stands outside it. */
  lemma {:induction false} RunInside(w: State, ops: seq<Op>)
    requires AllInside(w) && forall i :: 0 <= i < |ops| && ops[i].DoEnter? ==> Inside(ops[i].pose)
    ensures AllInside(Run(w, ops))
  {
    if ops != [] {
      RunInside(w, ops[..|ops| - 1]);
      StepInside(Run(w, ops[..|ops| - 1]), ops[|ops| - 1]);
    }
  }

  // ---- pose announcements ----

  predicate AnnouncesPose(w: State, op: Op, id: string) {
    op.DoMove? && op.id == id && id in w.players && Announces(w.players[id], op.pose, op.now, op.dist)
  }

  /** Enter and Leave start the broadcast clock anew; a room change does not. */
  predicate Reenters(op: Op, id: string) {
    (op.DoEnter? || op.DoLeave?) && op.id == id
  }

  lemma RoomChangeKeepsClock(w: State, op: Op, id: string)
    requires id in w.players && op.DoSelectRoom? && op.id == id
    ensures id in Step(w, op).players && Step(w, op).players[id].lastBroadcastMs == w.players[id].lastBroadcastMs
  {
    hide Post, Touch, SendWorldState, Arrive, RoomMates;
  }

  lemma AnnounceStep(w: State, op: Op, id: string)
    requires id in w.players && !Reenters(op, id)
    ensures id in Step(w, op).players
    ensures Step(w, op).players[id].lastBroadcastMs ==
            if AnnouncesPose(w, op, id) then op.now else w.players[id].lastBroadcastMs
  {
    if op.DoMove? && op.id == id {
      hide JudgeMove, Refilled, Post, RoomMates;
    } else if op.DoSelectRoom? && op.id == id {
      RoomChangeKeepsClock(w, op, id);
    } else {
      MovementUntouched(w, op, id);
    }
  }

  lemma {:induction false} LastAnnounce(w: State, ops: seq<Op>, id: string)
    requires id in w.players && forall i :: 0 <= i < |ops| ==> !Reenters(ops[i], id)
    ensures id in Run(w, ops).players
    ensures Run(w, ops).players[id].lastBroadcastMs >= w.players[id].lastBroadcastMs
  {
    hide Step, Announces;
    if ops != [] {
      var before := ops[..|ops| - 1];
      LastAnnounce(w, before, id);
      AnnounceStep(Run(w, before), ops[|ops| - 1], id);
      if AnnouncesPose(Run(w, before), ops[|ops| - 1], id) {
        AnnounceGap(Run(w, before), ops[|ops| - 1], id);
      }
    }
  }

  lemma AnnounceGap(w: State, op: Op, id: string)
    requires AnnouncesPose(w, op, id)
    ensures op.now - w.players[id].lastBroadcastMs >= 50
  {
  }

  /** Announcements of one player's pose are at least 50 ms apart, whatever the clock does and across room changes. */
  lemma AnnouncementsSpaced(w: State, first: Op, ops: seq<Op>, second: Op, id: string)
    requires AnnouncesPose(w, first, id) && forall i :: 0 <= i < |ops| ==> !Reenters(ops[i], id)
    requires AnnouncesPose(Run(Step(w, first), ops), second, id)
    ensures second.now - first.now >= 50
  {
    AnnounceStep(w, first, id);
    LastAnnounce(Step(w, first), ops, id);
    AnnounceGap(Run(Step(w, first), ops), second, id);
  }
}
