/**
 The life of a room: who may come in and when, what each request does to the room it names, and which changes a room
 goes through.  Once its game is under way, nobody comes in any more.
 */
module RoomLives {
  import opened Wrappers
  import opened Rooms
  import Decimal

  /** Rooms people can still come into. */
  predicate Joinable(r: Room) {
    r.state == Idle || r.state == InWaiting
  }

  predicate HasSeat(r: Room) {
    |r.players| < r.maxPlayers
  }

  predicate Elsewhere(s: Lobby, rid: string, id: string) {
    id in s.playerRoom && s.playerRoom[id] != rid
  }

  // ---- the requests on one room ----

  /** A join succeeds for a player in no room exactly when the room is joinable and has a seat. */
  lemma JoinGrantedExactly(s: Lobby, rid: string, id: string)
    requires Indexed(s)
    ensures var v := JoinVerdict(s, rid, id);
            var known := rid in s.rooms; var here := known && !Elsewhere(s, rid, id);
            var open := here && Joinable(s.rooms[rid]); var free := open && HasSeat(s.rooms[rid]);
            && (v == OK <==> free && id !in s.playerRoom)
            && (v == Failure(RoomNotFound) <==> !known)
            && (v == Failure(PlayerAlreadyInRoom) <==> (known && Elsewhere(s, rid, id)) || (free && id in s.playerRoom))
            && (v == Failure(RoomNotJoinable) <==> here && !open)
            && (v == Failure(RoomFull) <==> open && !free)
  {
    assert rid in s.rooms ==> (id in s.rooms[rid].players <==> id in s.playerRoom && s.playerRoom[id] == rid);
    hide Indexed;
  }

  /** What the room itself answers: not joinable before full before in it already. */
  lemma AddGrantedExactly(r: Room, id: string)
    ensures var v := AddVerdict(r, id);
            && (v == OK <==> Joinable(r) && HasSeat(r) && id !in r.players)
            && (v == Failure(RoomNotJoinable) <==> !Joinable(r))
            && (v == Failure(RoomFull) <==> Joinable(r) && !HasSeat(r))
            && (v == Failure(PlayerAlreadyInRoom) <==> Joinable(r) && HasSeat(r) && id in r.players)
            && Added(r, id) == if v == OK then r.(players := r.players + [id]) else r
  {
  }

  /** The player comes last in the room and is indexed to it; a refused join changes nothing. */
  lemma JoinEffect(s: Lobby, rid: string, id: string)
    requires Indexed(s)
    ensures var s' := Step(s, Join(rid, id));
            if rid in s.rooms && id !in s.playerRoom && Joinable(s.rooms[rid]) && HasSeat(s.rooms[rid]) then
              s' == Lobby(s.rooms[rid := s.rooms[rid].(players := s.rooms[rid].players + [id])],
                          s.playerRoom[id := rid], s.counter)
            else s' == s
  {
    JoinGrantedExactly(s, rid, id);
    hide Indexed;
  }

  /** b is a without the one at position i. */
  predicate OneGone(a: seq<string>, b: seq<string>, id: string, i: nat) {
    i < |a| && a[i] == id && b == a[..i] + a[i + 1..]
  }

  /** A player of the room goes, the others keep their order, and an emptied room is destroyed. */
  lemma LeaveEffect(s: Lobby, rid: string, id: string) returns (i: nat)
    ensures var s' := Step(s, Leave(rid, id)); var v := LeaveVerdict(s, rid, id);
            if rid in s.rooms && id in s.rooms[rid].players then
              var r := s.rooms[rid];
              && v == OK && s'.playerRoom == s.playerRoom - {id} && s'.counter == s.counter && rid in s'.rooms
              && s'.rooms == s.rooms[rid := r.(players := s'.rooms[rid].players, state := s'.rooms[rid].state)]
              && OneGone(r.players, s'.rooms[rid].players, id, i)
              && s'.rooms[rid].state == if |r.players| == 1 then Destroyed else r.state
            else s' == s && v == Failure(if rid in s.rooms then PlayerNotInRoom else RoomNotFound)
  {
    i := if rid in s.rooms then Find(s.rooms[rid].players, id) else 0;
  }

  /** Only the owner starts the game, and only of a room that waits. */
  lemma StartEffect(s: Lobby, rid: string, id: string)
    ensures var s' := Step(s, Start(rid, id)); var v := StartVerdict(s, rid, id);
            var known := rid in s.rooms; var own := known && s.rooms[rid].owner == id;
            var waits := own && s.rooms[rid].state == InWaiting;
            && s' == (if waits then s.(rooms := s.rooms[rid := s.rooms[rid].(state := Playing)]) else s)
            && (v == OK <==> waits) && (v == Failure(RoomNotFound) <==> !known)
            && (v == Failure(NotOwner) <==> known && !own) && (v == Failure(WrongRoomState) <==> own && !waits)
  {
  }

  /** A new room has its owner in it and nobody else, and is timed out after its timeout if that is positive. */
  lemma CreateEffect(s: Lobby, id: string, maxPlayers: int, timeoutMs: int, now: int)
    requires Indexed(s)
    ensures var s' := Step(s, Create(id, maxPlayers, timeoutMs, now)); var v := CreateVerdict(s, id);
            if id in s.playerRoom then s' == s && v == Failure(PlayerAlreadyInRoom)
            else
              && v.Success? && v.roomId !in s.rooms && v.roomId == Decimal.RoomName(s.counter)
              && s' == Lobby(s.rooms[v.roomId := Room(id, Idle, [id], maxPlayers,
                                                     if timeoutMs > 0 then Some(now + timeoutMs) else None)],
                             s.playerRoom[id := v.roomId], s.counter + 1)
  {
    FreshRoom(s);
    hide Indexed, Decimal.RoomName;
  }

  /** A match opens a waiting room for two with a timeout of five minutes, unless the first player is in a room. */
  lemma MatchEffect(s: Lobby, p1: string, p2: string, now: int)
    requires Indexed(s)
    ensures var s' := Step(s, MatchFound(p1, p2, now)); var rid := Decimal.RoomName(s.counter);
            var both := p2 !in s.playerRoom && p1 != p2;
            if p1 in s.playerRoom then s' == s
            else
              && rid !in s.rooms
              && var r := Room(p1, InWaiting, [p1] + (if both then [p2] else []), 2, Some(now + 300000));
                 s' == Lobby(s.rooms[rid := r],
                             if both then s.playerRoom[p1 := rid][p2 := rid] else s.playerRoom[p1 := rid],
                             s.counter + 1)
  {
    if p1 !in s.playerRoom {
      FreshRoom(s);
      var rid := Decimal.RoomName(s.counter);
      CreatedIndexed(s, p1, 2, 300000, now);
      CreateEffect(s, p1, 2, 300000, now);
      var s1 := Created(s, p1, 2, 300000, now);
      var r1 := Room(p1, InWaiting, [p1], 2, Some(now + 300000));
      var s2 := WithState(s1, rid, InWaiting);
      assert s2 == Lobby(s.rooms[rid := r1], s.playerRoom[p1 := rid], s.counter + 1);
      PutIndexed(s1, rid, s1.rooms[rid].(state := InWaiting));
      hide Indexed, Decimal.RoomName, Joined, Created, WithState;
      assert Matched(s, p1, p2, now) == Joined(s2, rid, p2);
      hide Matched;
      SecondJoins(s, s2, rid, r1, p1, p2);
    }
  }

  lemma SecondJoins(s: Lobby, s2: Lobby, rid: string, r1: Room, p1: string, p2: string)
    requires Indexed(s2) && Joinable(r1) && r1.players == [p1] && r1.maxPlayers == 2
    requires s2 == Lobby(s.rooms[rid := r1], s.playerRoom[p1 := rid], s.counter + 1)
    ensures var both := p2 !in s.playerRoom && p1 != p2;
            Joined(s2, rid, p2) ==
            Lobby(s.rooms[rid := r1.(players := [p1] + if both then [p2] else [])],
                  if both then s.playerRoom[p1 := rid][p2 := rid] else s.playerRoom[p1 := rid], s.counter + 1)
  {
    assert Step(s2, Join(rid, p2)) == Joined(s2, rid, p2) && HasSeat(r1) && s2.rooms[rid] == r1;
    hide *;
    JoinEffect(s2, rid, p2);
    assert (p2 in s2.playerRoom <==> p2 in s.playerRoom || p1 == p2);
    if p2 !in s.playerRoom && p1 != p2 {
      var r2 := r1.(players := [p1] + [p2]);
      assert s.rooms[rid := r1][rid := r2] == s.rooms[rid := r2];
    } else {
      assert [p1] + [] == [p1] && r1 == r1.(players := [p1] + []);
    }
  }

  /** Due by then and not under way. */
  predicate Overdue(r: Room, now: int) {
    r.deadline.Some? && r.deadline.value <= now && r.state != Playing
  }

  /** Exactly these rooms go, with the index entries of their players; the others stay as they are. */
  ghost predicate Gone(s: Lobby, s': Lobby, out: iset<string>) {
    && s'.counter == s.counter
    && (forall rid :: rid in s'.rooms <==> rid in s.rooms && rid !in out)
    && (forall id :: id in s'.playerRoom <==> id in s.playerRoom && s.playerRoom[id] !in out)
    && (forall id :: id in s'.playerRoom ==> s'.playerRoom[id] == s.playerRoom[id])
  }

  lemma RemoveEffect(s: Lobby, rid: string)
    requires Indexed(s)
    ensures var s' := Step(s, Remove(rid));
            Gone(s, s', iset{rid}) && forall other :: other in s'.rooms ==> s'.rooms[other] == s.rooms[other]
  {
    hide Issued, RoomFits;
    if rid in s.rooms {
      assert forall id :: id in Elements(s.rooms[rid].players) <==> id in s.playerRoom && s.playerRoom[id] == rid;
    }
  }

  lemma ErasedGone(s: Lobby, gone: set<string>)
    requires Indexed(s) && gone <= s.rooms.Keys
    ensures Gone(s, Erased(s, gone), iset rid | rid in gone)
    ensures forall rid :: rid in Erased(s, gone).rooms ==> Erased(s, gone).rooms[rid] == s.rooms[rid]
  {
    hide Issued, RoomFits;
    assert forall rid, id :: rid in gone && id in s.rooms[rid].players ==> id in Orphans(s, gone);
    assert forall id :: id in Orphans(s, gone) <==> id in s.playerRoom && s.playerRoom[id] in gone;
    hide Orphans;
  }

  /** The cleanup takes the destroyed rooms. */
  lemma CleanupEffect(s: Lobby)
    requires Indexed(s)
    ensures var s' := Step(s, Cleanup);
            && Gone(s, s', iset rid | rid in s.rooms && s.rooms[rid].state == Destroyed)
            && forall rid :: rid in s'.rooms ==> s'.rooms[rid] == s.rooms[rid]
  {
    ErasedGone(s, DestroyedIn(s));
    assert (iset rid | rid in DestroyedIn(s)) == iset rid | rid in s.rooms && s.rooms[rid].state == Destroyed;
    hide Indexed, Erased, DestroyedIn;
  }

  /** The timeout check takes the destroyed and the overdue rooms; a game under way merely loses its timer. */
  lemma CheckTimeoutEffect(s: Lobby, now: int)
    requires Indexed(s)
    ensures var s' := Step(s, CheckTimeout(now));
            && Gone(s, s', iset rid | rid in s.rooms && (s.rooms[rid].state == Destroyed || Overdue(s.rooms[rid], now)))
            && forall rid :: rid in s'.rooms ==>
                 var r := s.rooms[rid];
                 s'.rooms[rid] == if r.deadline.Some? && r.deadline.value <= now then r.(deadline := None) else r
  {
    var s1 := AllExpired(s, now);
    ExpiredIndexed(s, now);
    ExpiredRooms(s, now);
    hide Indexed, Cleaned, Gone, AllExpired, Expired, ExpiredTo;
    CleanedFrom(s, s1, now);
  }

  ghost predicate ExpiredTo(s: Lobby, s1: Lobby, now: int) {
    && s1.rooms.Keys == s.rooms.Keys && s1 == s.(rooms := s1.rooms)
    && forall rid :: rid in s.rooms ==> RoomExpired(s.rooms[rid], s1.rooms[rid], now)
  }

  predicate RoomExpired(r: Room, r1: Room, now: int) {
    && (r1.state == Destroyed <==> r.state == Destroyed || Overdue(r, now))
    && (r1.state != Destroyed ==>
          r1 == if r.deadline.Some? && r.deadline.value <= now then r.(deadline := None) else r)
  }

  lemma ExpiredRooms(s: Lobby, now: int)
    ensures ExpiredTo(s, AllExpired(s, now), now)
  {
  }

  lemma CleanedFrom(s: Lobby, s1: Lobby, now: int)
    requires ExpiredTo(s, s1, now) && Indexed(s1)
    ensures var s' := Cleaned(s1);
            && Gone(s, s', iset rid | rid in s.rooms && (s.rooms[rid].state == Destroyed || Overdue(s.rooms[rid], now)))
            && forall rid :: rid in s'.rooms ==>
                 var r := s.rooms[rid];
                 s'.rooms[rid] == if r.deadline.Some? && r.deadline.value <= now then r.(deadline := None) else r
  {
    CleanupEffect(s1);
    hide Indexed, Cleaned, Overdue;
    var out := iset rid | rid in s.rooms && (s.rooms[rid].state == Destroyed || Overdue(s.rooms[rid], now));
    assert (iset rid | rid in s1.rooms && s1.rooms[rid].state == Destroyed) == out;
    GoneFrom(s, s1, Cleaned(s1), out);
  }

  lemma GoneFrom(s: Lobby, s1: Lobby, s': Lobby, out: iset<string>)
    requires s1 == s.(rooms := s1.rooms) && s1.rooms.Keys == s.rooms.Keys && Gone(s1, s', out)
    ensures Gone(s, s', out) && forall rid :: rid in s'.rooms ==> rid in s.rooms && rid !in out
  {
  }

  // ---- the life of a room ----

  /** What a request can make of a room that stays: its list, and its state. */
  ghost predicate Lives(s: Lobby, op: Op, rid: string, r: Room, r': Room) {
    && r'.owner == r.owner && r'.maxPlayers == r.maxPlayers
    && (r'.players == r.players
        || (op.Join? && op.rid == rid && Joinable(r) && HasSeat(r) && op.id !in s.playerRoom
            && r'.players == r.players + [op.id])
        || (op.Leave? && op.rid == rid && exists i: nat :: OneGone(r.players, r'.players, op.id, i)))
    && (r'.state == r.state
        || (op == Open(rid) && r.state == Idle && r'.state == InWaiting)
        || (op == Start(rid, r.owner) && r.state == InWaiting && r'.state == Playing)
        || (op == StopGame(rid) && r'.state == Finished)
        || (op.Leave? && op.rid == rid && r.players == [op.id] && r'.state == Destroyed))
  }

  lemma MatchedOthers(s: Lobby, p1: string, p2: string, now: int, rid: string)
    requires Indexed(s) && rid in s.rooms
    ensures rid in Matched(s, p1, p2, now).rooms && Matched(s, p1, p2, now).rooms[rid] == s.rooms[rid]
  {
    FreshRoom(s);
    hide Indexed, Decimal.RoomName;
  }

  lemma StepLives(s: Lobby, op: Op, rid: string)
    requires Indexed(s) && rid in s.rooms && rid in Step(s, op).rooms
    ensures Lives(s, op, rid, s.rooms[rid], Step(s, op).rooms[rid])
  {
    hide Indexed, JoinVerdict, Joined, Left, Started, Created, Matched, TimedOut, Cleaned, Dropped, Gone;
    match op
    case Create(id, maxPlayers, timeoutMs, now) => CreateEffect(s, id, maxPlayers, timeoutMs, now);
    case Join(_, id) => JoinEffect(s, op.rid, id);
    case Leave(_, id) => var i := LeaveEffect(s, op.rid, id);
    case Start(_, id) => StartEffect(s, op.rid, id);
    case Remove(_) => RemoveEffect(s, op.rid);
    case Cleanup => CleanupEffect(s);
    case CheckTimeout(now) => CheckTimeoutEffect(s, now);
    case MatchFound(p1, p2, now) => MatchedOthers(s, p1, p2, now, rid);
    case _ =>
  }

  // ---- nobody comes late ----

  /** The game of room rid is under way or over, or the room is gone; nobody is in it who is not in `who`. */
  ghost predicate Shut(s: Lobby, rid: string, who: set<string>) {
    && Issued(rid, s.counter)
    && (rid in s.rooms ==> !Joinable(s.rooms[rid]) && forall id :: id in s.rooms[rid].players ==> id in who)
  }

  lemma StillGone(s: Lobby, op: Op, rid: string)
    requires Indexed(s) && Issued(rid, s.counter) && rid !in s.rooms
    ensures Issued(rid, Step(s, op).counter) && rid !in Step(s, op).rooms
  {
    FreshRoom(s);
    NextFresh(s.counter);
    IssuedLater(rid, s.counter, s.counter + 1);
    hide Decimal.RoomName, Issued, Indexed;
  }

  lemma StepShut(s: Lobby, op: Op, rid: string, who: set<string>)
    requires Indexed(s) && Shut(s, rid, who)
    ensures Shut(Step(s, op), rid, who)
  {
    if rid !in s.rooms {
      StillGone(s, op, rid);
    } else {
      IssuedLater(rid, s.counter, s.counter + 1);
      CounterGrows(s, op);
      if rid in Step(s, op).rooms {
        StepLives(s, op, rid);
        hide Step, Indexed, Issued;
        var r, r' := s.rooms[rid], Step(s, op).rooms[rid];
        forall id | id in r'.players ensures id in r.players {
        }
      }
    }
  }

  lemma CounterGrows(s: Lobby, op: Op)
    ensures Step(s, op).counter == s.counter || Step(s, op).counter == s.counter + 1
  {
    hide Decimal.RoomName;
  }

  /** Once a room can no longer be joined, nobody is ever in it who was not in it then, nor in another of its id. */
  lemma {:induction false} NobodyLate(before: seq<Op>, ops: seq<Op>, rid: string)
    requires rid in Run(EMPTY, before).rooms && !Joinable(Run(EMPTY, before).rooms[rid])
    ensures Shut(Run(EMPTY, before + ops), rid, Elements(Run(EMPTY, before).rooms[rid].players))
    decreases |ops|
  {
    RunIndexed(before);
    if ops == [] {
      assert before + ops == before;
    } else {
      var prior := before + ops[..|ops| - 1];
      assert (before + ops)[..|before + ops| - 1] == prior;
      hide Step, Issued, Shut;
      NobodyLate(before, ops[..|ops| - 1], rid);
      RunIndexed(prior);
      StepShut(Run(EMPTY, prior), ops[|ops| - 1], rid, Elements(Run(EMPTY, before).rooms[rid].players));
    }
  }

  /** In any run, a join gets somebody into a room exactly when it is joinable, has a seat, and they are in no room. */
  lemma ComesInExactly(ops: seq<Op>, rid: string, id: string)
    requires var s := Run(EMPTY, ops); rid in s.rooms && id !in s.rooms[rid].players
    ensures var s, s' := Run(EMPTY, ops), Run(EMPTY, ops + [Join(rid, id)]);
            && rid in s'.rooms
            && (id in s'.rooms[rid].players <==>
                  Joinable(s.rooms[rid]) && HasSeat(s.rooms[rid]) && id !in s.playerRoom)
  {
    assert (ops + [Join(rid, id)])[..|ops|] == ops;
    RunIndexed(ops);
    JoinEffect(Run(EMPTY, ops), rid, id);
    hide Indexed, Step;
  }

  /** A stop makes a known room finished whatever it was; a room that was idle is opened. */
  lemma SetEffects(s: Lobby, rid: string)
    ensures Step(s, StopGame(rid)) ==
            if rid in s.rooms then s.(rooms := s.rooms[rid := s.rooms[rid].(state := Finished)]) else s
    ensures Step(s, Open(rid)) ==
            if rid in s.rooms && s.rooms[rid].state == Idle
            then s.(rooms := s.rooms[rid := s.rooms[rid].(state := InWaiting)]) else s
  {
  }
}
