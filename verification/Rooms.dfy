/**
 Rooms and the index from players to rooms, as values: what each request does, and what holds in every state a run of
 requests can reach.
 */
module Rooms {
  import opened Wrappers
  import Decimal

  datatype Status = Idle | InWaiting | Playing | Finished | Destroyed

  datatype Error = RoomNotFound | RoomFull | RoomNotJoinable | PlayerAlreadyInRoom | PlayerNotInRoom | NotOwner
                 | WrongRoomState

  datatype Result = Success(roomId: string) | Failure(code: Error)

  const OK := Success("")

  /** deadline: when the room's timeout timer falls due, until it has fired. */
  datatype Room = Room(owner: string, state: Status, players: seq<string>, maxPlayers: int, deadline: Option<int>)

  datatype Lobby = Lobby(rooms: map<string, Room>, playerRoom: map<string, string>, counter: nat)

  const EMPTY := Lobby(map[], map[], 1)

  // ---- one room ----

  function AddVerdict(r: Room, id: string): (v: Result)
    ensures v.Success? ==> v == OK
  {
    if !r.state.Idle? && !r.state.InWaiting? then Failure(RoomNotJoinable)
    else if |r.players| >= r.maxPlayers then Failure(RoomFull)
    else if id in r.players then Failure(PlayerAlreadyInRoom)
    else OK
  }

  function Added(r: Room, id: string): Room {
    if AddVerdict(r, id).Failure? then r else r.(players := r.players + [id])
  }

  /** std::find */
  function Find(ps: seq<string>, id: string): (i: nat)
    ensures i <= |ps| && (i < |ps| ==> ps[i] == id)
    ensures forall j :: 0 <= j < i ==> ps[j] != id
  {
    if ps == [] || ps[0] == id then 0 else 1 + Find(ps[1..], id)
  }

  function Removed(r: Room, id: string): Room {
    var i := Find(r.players, id);
    if i == |r.players| then r else
    var ps := r.players[..i] + r.players[i + 1..];
    r.(players := ps, state := if ps == [] then Destroyed else r.state)
  }

  /** The room's timer driven at time `now`: a game under way is not timed out. */
  function Expired(r: Room, now: int): Room {
    if r.deadline.Some? && r.deadline.value <= now then
      r.(deadline := None, state := if r.state.Playing? then Playing else Destroyed)
    else r
  }

  // ---- requests ----

  function Put(s: Lobby, rid: string, r: Room): Lobby {
    s.(rooms := s.rooms[rid := r])
  }

  function CreateVerdict(s: Lobby, id: string): Result {
    if id in s.playerRoom then Failure(PlayerAlreadyInRoom) else Success(Decimal.RoomName(s.counter))
  }

  function Created(s: Lobby, id: string, maxPlayers: int, timeoutMs: int, now: int): Lobby {
    if id in s.playerRoom then s else
    var rid := Decimal.RoomName(s.counter);
    var r := Room(id, Idle, [id], maxPlayers, if timeoutMs > 0 then Some(now + timeoutMs) else None);
    Lobby(s.rooms[rid := r], s.playerRoom[id := rid], s.counter + 1)
  }

  function JoinVerdict(s: Lobby, rid: string, id: string): Result {
    if rid !in s.rooms then Failure(RoomNotFound)
    else if id in s.playerRoom && s.playerRoom[id] != rid then Failure(PlayerAlreadyInRoom)
    else AddVerdict(s.rooms[rid], id)
  }

  function Joined(s: Lobby, rid: string, id: string): Lobby {
    if JoinVerdict(s, rid, id).Failure? then s
    else Put(s, rid, Added(s.rooms[rid], id)).(playerRoom := s.playerRoom[id := rid])
  }

  function LeaveVerdict(s: Lobby, rid: string, id: string): Result {
    if rid !in s.rooms then Failure(RoomNotFound)
    else if id !in s.rooms[rid].players then Failure(PlayerNotInRoom)
    else OK
  }

  function Left(s: Lobby, rid: string, id: string): Lobby {
    if LeaveVerdict(s, rid, id).Failure? then s
    else Put(s, rid, Removed(s.rooms[rid], id)).(playerRoom := s.playerRoom - {id})
  }

  function StartVerdict(s: Lobby, rid: string, requester: string): Result {
    if rid !in s.rooms then Failure(RoomNotFound)
    else if requester != s.rooms[rid].owner then Failure(NotOwner)
    else if !s.rooms[rid].state.InWaiting? then Failure(WrongRoomState)
    else OK
  }

  function WithState(s: Lobby, rid: string, state: Status): Lobby {
    if rid in s.rooms then Put(s, rid, s.rooms[rid].(state := state)) else s
  }

  function Started(s: Lobby, rid: string, requester: string): Lobby {
    if StartVerdict(s, rid, requester).Failure? then s else WithState(s, rid, Playing)
  }

  /** The room service opens a room it has created, so that others can join and the owner can start. */
  function Opened(s: Lobby, rid: string): Lobby {
    if rid in s.rooms && s.rooms[rid].state.Idle? then WithState(s, rid, InWaiting) else s
  }

  function Elements(ps: seq<string>): set<string> {
    set id | id in ps
  }

  /** RemoveRoom: the room and the index entries of its players. */
  function Dropped(s: Lobby, rid: string): Lobby {
    if rid !in s.rooms then s
    else s.(rooms := s.rooms - {rid}, playerRoom := s.playerRoom - Elements(s.rooms[rid].players))
  }

  function AllExpired(s: Lobby, now: int): Lobby {
    s.(rooms := map rid | rid in s.rooms :: Expired(s.rooms[rid], now))
  }

  function DestroyedIn(s: Lobby): set<string> {
    set rid | rid in s.rooms && s.rooms[rid].state.Destroyed?
  }

  /** The players of destroyed rooms. */
  function Orphans(s: Lobby, gone: set<string>): set<string> {
    set rid, id | rid in gone && rid in s.rooms && id in s.rooms[rid].players :: id
  }

  /** The rooms of `gone` and the index entries of their players are out. */
  function Erased(s: Lobby, gone: set<string>): Lobby {
    s.(rooms := s.rooms - gone, playerRoom := s.playerRoom - Orphans(s, gone))
  }

  function Cleaned(s: Lobby): Lobby {
    Erased(s, DestroyedIn(s))
  }

  /** Erasing room after room. */
  lemma ErasedNext(s: Lobby, gone: set<string>, rid: string)
    requires rid in s.rooms && rid !in gone
    ensures Dropped(Erased(s, gone), rid) == Erased(s, gone + {rid})
  {
    assert Orphans(s, gone + {rid}) == Orphans(s, gone) + Elements(s.rooms[rid].players);
    assert s.rooms - (gone + {rid}) == s.rooms - gone - {rid};
    hide Orphans, Elements;
  }

  lemma ErasedNone(s: Lobby)
    ensures Erased(s, {}) == s
  {
    assert Orphans(s, {}) == {};
  }

  function TimedOut(s: Lobby, now: int): Lobby {
    Cleaned(AllExpired(s, now))
  }

  /** OnMatchFound: a room for two that waits, and the second player joins. */
  function Matched(s: Lobby, p1: string, p2: string, now: int): Lobby {
    if CreateVerdict(s, p1).Failure? then s else
    var rid := CreateVerdict(s, p1).roomId;
    Joined(WithState(Created(s, p1, 2, 300000, now), rid, InWaiting), rid, p2)
  }

  // ---- runs ----

  datatype Op =
    | Create(id: string, maxPlayers: int, timeoutMs: int, now: int)
    | Open(rid: string)
    | Join(rid: string, id: string)
    | Leave(rid: string, id: string)
    | Start(rid: string, id: string)
    | Remove(rid: string)
    | Cleanup
    | CheckTimeout(now: int)
    | StopGame(rid: string)
    | MatchFound(p1: string, p2: string, now: int)

  function Step(s: Lobby, op: Op): Lobby {
    match op
    case Create(id, maxPlayers, timeoutMs, now) => Created(s, id, maxPlayers, timeoutMs, now)
    case Open(rid) => Opened(s, rid)
    case Join(rid, id) => Joined(s, rid, id)
    case Leave(rid, id) => Left(s, rid, id)
    case Start(rid, id) => Started(s, rid, id)
    case Remove(rid) => Dropped(s, rid)
    case Cleanup => Cleaned(s)
    case CheckTimeout(now) => TimedOut(s, now)
    case StopGame(rid) => WithState(s, rid, Finished)
    case MatchFound(p1, p2, now) => Matched(s, p1, p2, now)
  }

  function Run(s: Lobby, ops: seq<Op>): Lobby {
    if ops == [] then s else Step(Run(s, ops[..|ops| - 1]), ops[|ops| - 1])
  }

  // ---- the invariant ----

  predicate NoDuplicates(ps: seq<string>) {
    forall i, j :: 0 <= i < j < |ps| ==> ps[i] != ps[j]
  }

  predicate RoomFits(r: Room) {
    NoDuplicates(r.players) && |r.players| <= (if r.maxPlayers > 1 then r.maxPlayers else 1)
  }

  /** The id was given out before the counter reached n. */
  ghost predicate Issued(rid: string, n: nat) {
    exists k: nat :: k < n && rid == Decimal.RoomName(k)
  }

  /** The index and the rooms agree, so nobody is in two rooms; rooms hold no more than they may; ids were issued. */
  ghost predicate Indexed(s: Lobby) {
    && (forall id :: id in s.playerRoom ==> s.playerRoom[id] in s.rooms && id in s.rooms[s.playerRoom[id]].players)
    && (forall rid, id :: rid in s.rooms && id in s.rooms[rid].players ==>
          id in s.playerRoom && s.playerRoom[id] == rid)
    && (forall rid :: rid in s.rooms ==> RoomFits(s.rooms[rid]) && Issued(rid, s.counter))
  }

  lemma IssuedLater(rid: string, n: nat, m: nat)
    requires Issued(rid, n) && n <= m
    ensures Issued(rid, m)
  {
  }

  lemma NextFresh(n: nat)
    ensures !Issued(Decimal.RoomName(n), n) && Issued(Decimal.RoomName(n), n + 1)
  {
    if Issued(Decimal.RoomName(n), n) {
      var k: nat :| k < n && Decimal.RoomName(n) == Decimal.RoomName(k);
      Decimal.RoomNameInjective(n, k);
    }
  }

  lemma SkipOne(ps: seq<string>, i: nat)
    requires NoDuplicates(ps) && i < |ps|
    ensures NoDuplicates(ps[..i] + ps[i + 1..])
    ensures forall p :: p in ps[..i] + ps[i + 1..] <==> p in ps && p != ps[i]
  {
    var a, b := ps[..i], ps[i + 1..];
    assert forall j :: 0 <= j < |a + b| ==> (a + b)[j] == ps[if j < i then j else j + 1];
    assert ps == a + [ps[i]] + b;
    assert forall j :: 0 <= j < |b| ==> b[j] == ps[i + 1 + j] && b[j] != ps[i];
    assert forall j :: 0 <= j < |a| ==> a[j] != ps[i];
  }

  lemma RemovedFits(r: Room, id: string)
    requires RoomFits(r)
    ensures RoomFits(Removed(r, id))
    ensures forall p :: p in Removed(r, id).players <==> p in r.players && p != id
  {
    var i := Find(r.players, id);
    if i < |r.players| {
      SkipOne(r.players, i);
    } else {
      assert id !in r.players;
    }
    hide NoDuplicates;
  }

  /** A player comes into room rid, new or not. */
  lemma LargerIndexed(s: Lobby, rid: string, r: Room, id: string, counter: nat)
    requires Indexed(s) && RoomFits(r) && Issued(rid, counter) && s.counter <= counter
    requires id in s.playerRoom ==> s.playerRoom[id] == rid
    requires forall p :: p in r.players <==> p == id || (rid in s.rooms && p in s.rooms[rid].players)
    ensures Indexed(Lobby(s.rooms[rid := r], s.playerRoom[id := rid], counter))
  {
    AllIssued(s, counter);
    hide Issued, RoomFits;
    var s' := Lobby(s.rooms[rid := r], s.playerRoom[id := rid], counter);
    forall p | p in s'.playerRoom ensures s'.playerRoom[p] in s'.rooms && p in s'.rooms[s'.playerRoom[p]].players {
    }
    forall other, p | other in s'.rooms && p in s'.rooms[other].players
      ensures p in s'.playerRoom && s'.playerRoom[p] == other
    {
    }
  }

  lemma AllIssued(s: Lobby, counter: nat)
    requires Indexed(s) && s.counter <= counter
    ensures forall rid :: rid in s.rooms ==> Issued(rid, counter)
  {
    forall rid | rid in s.rooms ensures Issued(rid, counter) {
      IssuedLater(rid, s.counter, counter);
    }
  }

  lemma CreatedIndexed(s: Lobby, id: string, maxPlayers: int, timeoutMs: int, now: int)
    requires Indexed(s)
    ensures Indexed(Created(s, id, maxPlayers, timeoutMs, now))
    ensures Decimal.RoomName(s.counter) !in s.rooms
  {
    NextFresh(s.counter);
    assert Decimal.RoomName(s.counter) !in s.rooms;
    hide Decimal.RoomName, Issued, Indexed;
    if id !in s.playerRoom {
      var r := Room(id, Idle, [id], maxPlayers, if timeoutMs > 0 then Some(now + timeoutMs) else None);
      LargerIndexed(s, Decimal.RoomName(s.counter), r, id, s.counter + 1);
    }
  }

  lemma JoinedIndexed(s: Lobby, rid: string, id: string)
    requires Indexed(s)
    ensures Indexed(Joined(s, rid, id))
  {
    assert rid in s.rooms ==> RoomFits(s.rooms[rid]) && Issued(rid, s.counter);
    hide Indexed, Issued;
    if JoinVerdict(s, rid, id).Success? {
      LargerIndexed(s, rid, Added(s.rooms[rid], id), id, s.counter);
    }
  }

  lemma SmallerIndexed(s: Lobby, rid: string, r: Room, id: string)
    requires Indexed(s) && rid in s.rooms && id in s.rooms[rid].players && RoomFits(r)
    requires forall p :: p in r.players <==> p in s.rooms[rid].players && p != id
    ensures Indexed(Lobby(s.rooms[rid := r], s.playerRoom - {id}, s.counter))
  {
    hide Issued, RoomFits;
    assert s.playerRoom[id] == rid;
  }

  lemma LeftIndexed(s: Lobby, rid: string, id: string)
    requires Indexed(s)
    ensures Indexed(Left(s, rid, id))
  {
    assert rid in s.rooms ==> RoomFits(s.rooms[rid]);
    hide Indexed, RoomFits, Removed;
    if rid in s.rooms && id in s.rooms[rid].players {
      RemovedFits(s.rooms[rid], id);
      SmallerIndexed(s, rid, Removed(s.rooms[rid], id), id);
    }
  }

  /** Changes of a room that leave its players alone. */
  lemma PutIndexed(s: Lobby, rid: string, r: Room)
    requires Indexed(s) && rid in s.rooms
    requires r.players == s.rooms[rid].players && r.maxPlayers == s.rooms[rid].maxPlayers
    ensures Indexed(Put(s, rid, r))
  {
    hide Issued;
  }

  lemma DroppedIndexed(s: Lobby, rid: string)
    requires Indexed(s)
    ensures Indexed(Dropped(s, rid))
  {
    hide Issued, RoomFits;
    if rid in s.rooms {
      var gone := Elements(s.rooms[rid].players);
      assert forall id :: id in gone ==> id in s.playerRoom && s.playerRoom[id] == rid;
      assert forall id :: id in s.playerRoom && s.playerRoom[id] == rid ==> id in gone;
      hide Elements;
      var s' := Lobby(s.rooms - {rid}, s.playerRoom - gone, s.counter);
      assert Dropped(s, rid) == s';
      hide Dropped;
      assert Indexed(s');
    }
  }

  lemma ExpiredIndexed(s: Lobby, now: int)
    requires Indexed(s)
    ensures Indexed(AllExpired(s, now))
  {
    hide Issued;
  }

  lemma CleanedIndexed(s: Lobby)
    requires Indexed(s)
    ensures Indexed(Cleaned(s))
  {
    hide Issued, RoomFits;
    var gone := DestroyedIn(s);
    assert forall rid, id :: rid in gone && id in s.rooms[rid].players ==> id in Orphans(s, gone);
    assert forall id :: id in Orphans(s, gone) ==> id in s.playerRoom && s.playerRoom[id] in gone;
    hide Orphans, DestroyedIn;
  }

  lemma MatchedIndexed(s: Lobby, p1: string, p2: string, now: int)
    requires Indexed(s)
    ensures Indexed(Matched(s, p1, p2, now))
  {
    hide Indexed, Decimal.RoomName, Joined, Created, Put;
    var s1, rid := Created(s, p1, 2, 300000, now), Decimal.RoomName(s.counter);
    CreatedIndexed(s, p1, 2, 300000, now);
    if rid in s1.rooms {
      PutIndexed(s1, rid, s1.rooms[rid].(state := InWaiting));
    }
    JoinedIndexed(WithState(s1, rid, InWaiting), rid, p2);
  }

  lemma StepIndexed(s: Lobby, op: Op)
    requires Indexed(s)
    ensures Indexed(Step(s, op))
  {
    hide Indexed, Joined, Left, Dropped, Cleaned, AllExpired, Created, Matched, Put;
    match op
    case Create(id, maxPlayers, timeoutMs, now) => CreatedIndexed(s, id, maxPlayers, timeoutMs, now);
    case Open(rid) => if rid in s.rooms { PutIndexed(s, rid, s.rooms[rid].(state := InWaiting)); }
    case Join(rid, id) => JoinedIndexed(s, rid, id);
    case Leave(rid, id) => LeftIndexed(s, rid, id);
    case Start(rid, id) => if rid in s.rooms { PutIndexed(s, rid, s.rooms[rid].(state := Playing)); }
    case Remove(rid) => DroppedIndexed(s, rid);
    case Cleanup => CleanedIndexed(s);
    case CheckTimeout(now) =>
      ExpiredIndexed(s, now);
      CleanedIndexed(AllExpired(s, now));
    case StopGame(rid) => if rid in s.rooms { PutIndexed(s, rid, s.rooms[rid].(state := Finished)); }
    case MatchFound(p1, p2, now) => MatchedIndexed(s, p1, p2, now);
  }

  /** In every reachable state the index is exact. */
  lemma {:induction false} RunIndexed(ops: seq<Op>)
    ensures Indexed(Run(EMPTY, ops))
  {
    if ops != [] {
      hide Step, Indexed;
      RunIndexed(ops[..|ops| - 1]);
      StepIndexed(Run(EMPTY, ops[..|ops| - 1]), ops[|ops| - 1]);
    } else {
      assert EMPTY.rooms == map[] && EMPTY.playerRoom == map[];
    }
  }

  // ---- emptied rooms ----

  /** A room without players is destroyed, or was marked finished by StopGame. */
  ghost predicate EmptyGone(s: Lobby, finishedToo: bool) {
    forall rid :: rid in s.rooms && s.rooms[rid].players == [] ==>
      s.rooms[rid].state.Destroyed? || (finishedToo && s.rooms[rid].state.Finished?)
  }

  /** StopGame on a room nobody is in any more. */
  predicate StopsEmpty(s: Lobby, op: Op) {
    op.StopGame? && op.rid in s.rooms && s.rooms[op.rid].players == []
  }

  lemma StepEmptyGone(s: Lobby, op: Op, finishedToo: bool)
    requires EmptyGone(s, finishedToo) && (StopsEmpty(s, op) ==> finishedToo)
    requires Decimal.RoomName(s.counter) !in s.rooms
    ensures EmptyGone(Step(s, op), finishedToo)
  {
    hide Decimal.RoomName;
  }

  /** An emptied room is destroyed after a request exactly when the request is not a StopGame on an empty room. */
  lemma StepEmptyExactly(s: Lobby, op: Op)
    requires Indexed(s) && EmptyGone(s, false)
    ensures EmptyGone(Step(s, op), false) <==> !StopsEmpty(s, op)
  {
    FreshRoom(s);
    if StopsEmpty(s, op) {
      var r := Step(s, op).rooms[op.rid];
      assert r.players == [] && r.state.Finished?;
    } else {
      StepEmptyGone(s, op, false);
    }
  }

  lemma {:induction false} EmptyUpTo(ops: seq<Op>, n: nat)
    requires n <= |ops|
    ensures (forall i :: 0 <= i <= n ==> EmptyGone(Run(EMPTY, ops[..i]), false)) <==>
            (forall i :: 0 <= i < n ==> !StopsEmpty(Run(EMPTY, ops[..i]), ops[i]))
  {
    NothingEmpty();
    hide Step, EmptyGone, StopsEmpty;
    if n > 0 {
      EmptyUpTo(ops, n - 1);
      NextMoment(ops, n - 1);
      hide Run;
      if EmptyGone(Run(EMPTY, ops[..n - 1]), false) {
        RunIndexed(ops[..n - 1]);
        StepEmptyExactly(Run(EMPTY, ops[..n - 1]), ops[n - 1]);
      }
    } else {
      assert ops[..0] == [];
    }
  }

  lemma NextMoment(ops: seq<Op>, n: nat)
    requires n < |ops|
    ensures Run(EMPTY, ops[..n + 1]) == Step(Run(EMPTY, ops[..n]), ops[n])
  {
    hide Step;
    assert ops[..n + 1][..n] == ops[..n];
  }

  /**
   Emptied rooms are destroyed at every moment of a run exactly when no StopGame of the run names a room that is empty
   by then.
   */
  lemma RunEmptyExactly(ops: seq<Op>)
    ensures (forall i :: 0 <= i <= |ops| ==> EmptyGone(Run(EMPTY, ops[..i]), false)) <==>
            (forall i :: 0 <= i < |ops| ==> !StopsEmpty(Run(EMPTY, ops[..i]), ops[i]))
  {
    EmptyUpTo(ops, |ops|);
  }

  lemma NothingEmpty()
    ensures EmptyGone(Run(EMPTY, []), false)
  {
    assert EMPTY.rooms == map[];
  }

  /** Whatever is stopped, an emptied room is destroyed or finished. */
  lemma {:induction false} RunEmptyGone(ops: seq<Op>)
    ensures EmptyGone(Run(EMPTY, ops), true)
  {
    if ops != [] {
      var before, op := ops[..|ops| - 1], ops[|ops| - 1];
      hide Step, StopsEmpty;
      RunEmptyGone(before);
      RunIndexed(before);
      FreshRoom(Run(EMPTY, before));
      StepEmptyGone(Run(EMPTY, before), op, true);
    }
  }

  lemma FreshRoom(s: Lobby)
    requires Indexed(s)
    ensures Decimal.RoomName(s.counter) !in s.rooms
  {
    NextFresh(s.counter);
    hide Decimal.RoomName;
  }

  /** The room is gone, or nobody is in it; its id is not given out again. */
  ghost predicate Abandoned(s: Lobby, rid: string) {
    Issued(rid, s.counter) && (rid in s.rooms ==> s.rooms[rid].players == [])
  }

  lemma StepAbandoned(s: Lobby, op: Op, rid: string)
    requires Indexed(s) && EmptyGone(s, true) && Abandoned(s, rid)
    ensures Abandoned(Step(s, op), rid)
  {
    NextFresh(s.counter);
    IssuedLater(rid, s.counter, s.counter + 1);
    assert Decimal.RoomName(s.counter) !in s.rooms;
    hide Decimal.RoomName, Issued, RoomFits;
  }

  /** Nobody ever enters an emptied room again, nor a later room under its id. */
  lemma {:induction false} EmptiedForGood(before: seq<Op>, ops: seq<Op>, rid: string)
    requires rid in Run(EMPTY, before).rooms && Run(EMPTY, before).rooms[rid].players == []
    ensures Abandoned(Run(EMPTY, before + ops), rid)
    decreases |ops|
  {
    RunIndexed(before);
    if ops == [] {
      assert before + ops == before;
    } else {
      var prior := before + ops[..|ops| - 1];
      assert (before + ops)[..|before + ops| - 1] == prior;
      hide Step, Issued;
      EmptiedForGood(before, ops[..|ops| - 1], rid);
      RunIndexed(prior);
      RunEmptyGone(prior);
      StepAbandoned(Run(EMPTY, prior), ops[|ops| - 1], rid);
    }
  }

  // ---- timeouts ----

  /** CheckRoomTimeout removes the destroyed rooms and those past their deadline that are not playing, and no other. */
  lemma TimeoutSweeps(s: Lobby, now: int)
    ensures var s' := TimedOut(s, now);
            && (forall rid :: rid in s'.rooms ==> !s'.rooms[rid].state.Destroyed?)
            && (forall rid :: rid in s.rooms ==>
                  (rid !in s'.rooms <==>
                     s.rooms[rid].state.Destroyed?
                     || (s.rooms[rid].deadline.Some? && s.rooms[rid].deadline.value <= now
                         && !s.rooms[rid].state.Playing?)))
  {
  }

  /** StopGame on an emptied room turns DESTROYED into FINISHED, and the cleanup then keeps the room. */
  lemma StopRevives(p: string)
    ensures var s := Run(EMPTY, [Create(p, 4, 0, 0), Leave("room_001", p), StopGame("room_001"), Cleanup]);
            "room_001" in s.rooms && s.rooms["room_001"].players == []
  {
    var ops := [Create(p, 4, 0, 0), Leave("room_001", p), StopGame("room_001"), Cleanup];
    assert Decimal.RoomName(1) == "room_001" by {
      assert Decimal.Digits(1) == "1" && "0" + "1" == "01" && "0" + "01" == "001";
      assert Decimal.Pad3("01") == Decimal.Pad3("001") == "001";
      assert Decimal.Pad3("1") == Decimal.Pad3("01");
    }
    hide Decimal.RoomName;
    var s1 := Created(EMPTY, p, 4, 0, 0);
    var s2 := Left(s1, "room_001", p);
    assert s2.rooms["room_001"].players == [];
    var s3 := WithState(s2, "room_001", Finished);
    assert ops[..3][..2] == ops[..2] && ops[..2][..1] == ops[..1] && ops[..1][..0] == [];
    hide Created, Left, Cleaned, WithState;
    assert Run(EMPTY, ops[..1]) == s1;
    assert Run(EMPTY, ops[..2]) == s2;
    assert Run(EMPTY, ops[..3]) == s3;
  }
}
