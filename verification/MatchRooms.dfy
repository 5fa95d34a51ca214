/**
 From matches to rooms.  Each pair the queue gives up is put in a room of its own; whoever is left stays queued; when
 the pair has not started within 30 seconds the room is dropped and both are queued again.
 */
module MatchRooms {
  import opened Wrappers
  import opened Pairing
  import opened MatchQueues
  import opened Rooms
  import opened RoomManagers
  import RoomLives
  import Decimal

  // ---- one pair ----

  /** The two have room rid to themselves, which waits. */
  ghost predicate Together(s: Lobby, rid: string, p1: string, p2: string) {
    && rid in s.rooms && s.rooms[rid].players == [p1, p2] && s.rooms[rid].state.InWaiting?
    && p1 in s.playerRoom && s.playerRoom[p1] == rid && p2 in s.playerRoom && s.playerRoom[p2] == rid
  }

  predicate Free(s: Lobby, p: string) {
    p !in s.playerRoom
  }

  lemma MatchedFree(s: Lobby, p1: string, p2: string, now: int)
    requires Indexed(s) && Free(s, p1) && Free(s, p2) && p1 != p2
    ensures var rid := Decimal.RoomName(s.counter);
            && rid !in s.rooms
            && Matched(s, p1, p2, now) ==
               Lobby(s.rooms[rid := Room(p1, InWaiting, [p1, p2], 2, Some(now + 300000))],
                     s.playerRoom[p1 := rid][p2 := rid], s.counter + 1)
  {
    FreshRoom(s);
    hide Decimal.RoomName, Indexed;
    var rid := Decimal.RoomName(s.counter);
    var r1 := Room(p1, InWaiting, [p1], 2, Some(now + 300000));
    var s1 := WithState(Created(s, p1, 2, 300000, now), rid, InWaiting);
    assert s1 == Lobby(s.rooms[rid := r1], s.playerRoom[p1 := rid], s.counter + 1);
    assert AddVerdict(r1, p2) == OK && Added(r1, p2) == r1.(players := [p1, p2]);
    assert Matched(s, p1, p2, now) == Joined(s1, rid, p2);
    hide Created, WithState, Added, AddVerdict, Matched;
  }

  /** The second player is elsewhere: the first waits in the new room alone. */
  lemma MatchedBusy(s: Lobby, p1: string, p2: string, now: int)
    requires Indexed(s) && Free(s, p1) && (!Free(s, p2) || p1 == p2)
    ensures var rid := Decimal.RoomName(s.counter); var s' := Matched(s, p1, p2, now);
            rid in s'.rooms && s'.rooms[rid].players == [p1]
  {
    FreshRoom(s);
    assert !Free(s, p2) ==> s.playerRoom[p2] in s.rooms;
    hide Decimal.RoomName, Indexed;
  }

  /** OnMatchFound seats the pair in the next new room exactly when both are free and distinct. */
  lemma SeatedExactly(s: Lobby, p1: string, p2: string, now: int)
    requires Indexed(s)
    ensures Together(Matched(s, p1, p2, now), Decimal.RoomName(s.counter), p1, p2) <==>
            Free(s, p1) && Free(s, p2) && p1 != p2
  {
    FreshRoom(s);
    if Free(s, p1) {
      if Free(s, p2) && p1 != p2 {
        MatchedFree(s, p1, p2, now);
      } else {
        MatchedBusy(s, p1, p2, now);
      }
      hide Matched, Decimal.RoomName, Indexed;
    }
  }

  // ---- all pairs of one TryMatch ----

  /** The callbacks of one TryMatch, one after another. */
  function Seated(s: Lobby, calls: seq<Call>, now: int): Lobby {
    if calls == [] then s
    else
      var last := calls[|calls| - 1];
      Matched(Seated(s, calls[..|calls| - 1], now), last.p1, last.p2, now)
  }

  /** Nobody occurs in two calls, or twice in one. */
  ghost predicate CallsDisjoint(calls: seq<Call>) {
    && (forall k :: 0 <= k < |calls| ==> calls[k].p1 != calls[k].p2)
    && (forall k, l :: 0 <= k < l < |calls| ==> !Names(calls[k], calls[l].p1) && !Names(calls[k], calls[l].p2))
  }

  predicate Names(c: Call, p: string) {
    c.p1 == p || c.p2 == p
  }

  /** The id the k-th pair's room gets. */
  function RidOf(s: Lobby, k: nat): string {
    Decimal.RoomName(s.counter + k)
  }

  ghost predicate Called(calls: seq<Call>, p: string) {
    exists k :: 0 <= k < |calls| && Names(calls[k], p)
  }

  /** After the calls: each pair has a fresh room to itself, and nobody else's place has changed. */
  ghost predicate AllSeated(s: Lobby, s': Lobby, calls: seq<Call>) {
    Indexed(s') && s'.counter == s.counter + |calls| && PairsTogether(s, s', calls) && OthersStay(s, s', calls)
  }

  lemma StaysTogether(s: Lobby, s': Lobby, rid: string, r: Room, new1: string, new2: string, at: string, p1: string,
                      p2: string)
    requires Together(s, at, p1, p2) && rid !in s.rooms && p1 != new1 && p1 != new2 && p2 != new1 && p2 != new2
    requires s' == Lobby(s.rooms[rid := r], s.playerRoom[new1 := rid][new2 := rid], s.counter + 1)
    ensures Together(s', at, p1, p2)
  {
  }

  lemma CallsSplit(calls: seq<Call>, last: Call)
    requires CallsDisjoint(calls + [last])
    ensures CallsDisjoint(calls) && last.p1 != last.p2
    ensures forall k :: 0 <= k < |calls| ==> !Names(calls[k], last.p1) && !Names(calls[k], last.p2)
    ensures forall p :: Called(calls + [last], p) <==> Called(calls, p) || Names(last, p)
  {
    var all := calls + [last];
    assert all[|calls|] == last && forall k :: 0 <= k < |calls| ==> all[k] == calls[k];
  }

  ghost predicate PairsTogether(s: Lobby, s': Lobby, calls: seq<Call>) {
    forall k :: 0 <= k < |calls| ==>
      RidOf(s, k) !in s.rooms && Together(s', RidOf(s, k), calls[k].p1, calls[k].p2)
  }

  ghost predicate OthersStay(s: Lobby, s': Lobby, calls: seq<Call>) {
    forall p :: !Called(calls, p) ==>
      (p in s'.playerRoom <==> p in s.playerRoom) && (p in s.playerRoom ==> s'.playerRoom[p] == s.playerRoom[p])
  }

  lemma PairsNext(s: Lobby, s1: Lobby, s2: Lobby, calls: seq<Call>, last: Call, r: Room)
    requires PairsTogether(s, s1, calls)
    requires forall k :: 0 <= k < |calls| ==> !Names(calls[k], last.p1) && !Names(calls[k], last.p2)
    requires RidOf(s, |calls|) !in s.rooms && RidOf(s, |calls|) !in s1.rooms
    requires r.players == [last.p1, last.p2] && r.state.InWaiting?
    requires s2 == Lobby(s1.rooms[RidOf(s, |calls|) := r],
                         s1.playerRoom[last.p1 := RidOf(s, |calls|)][last.p2 := RidOf(s, |calls|)], s1.counter + 1)
    ensures PairsTogether(s, s2, calls + [last])
  {
    var all, rid := calls + [last], RidOf(s, |calls|);
    hide RidOf;
    forall k | 0 <= k < |all| ensures RidOf(s, k) !in s.rooms && Together(s2, RidOf(s, k), all[k].p1, all[k].p2) {
      if k < |calls| {
        assert all[k] == calls[k];
        StaysTogether(s1, s2, rid, r, last.p1, last.p2, RidOf(s, k), calls[k].p1, calls[k].p2);
      }
    }
  }

  lemma OthersNext(s: Lobby, s1: Lobby, s2: Lobby, calls: seq<Call>, last: Call, rid: string)
    requires OthersStay(s, s1, calls) && s2.playerRoom == s1.playerRoom[last.p1 := rid][last.p2 := rid]
    requires forall p :: Called(calls + [last], p) <==> Called(calls, p) || Names(last, p)
    ensures OthersStay(s, s2, calls + [last])
  {
    hide Called;
  }

  lemma SeatNext(s: Lobby, s1: Lobby, calls: seq<Call>, last: Call, now: int)
    requires AllSeated(s, s1, calls) && CallsDisjoint(calls + [last])
    requires Free(s, last.p1) && Free(s, last.p2) && RidOf(s, |calls|) !in s.rooms
    ensures AllSeated(s, Matched(s1, last.p1, last.p2, now), calls + [last])
  {
    hide Matched, Indexed, Called, CallsDisjoint, PairsTogether, OthersStay, Free, Decimal.RoomName;
    CallsSplit(calls, last);
    StillFree(s, s1, calls, last.p1);
    StillFree(s, s1, calls, last.p2);
    MatchedFree(s1, last.p1, last.p2, now);
    MatchedIndexed(s1, last.p1, last.p2, now);
    var s2, rid := Matched(s1, last.p1, last.p2, now), RidOf(s, |calls|);
    PairsNext(s, s1, s2, calls, last, s2.rooms[rid]);
    OthersNext(s, s1, s2, calls, last, rid);
  }

  lemma StillFree(s: Lobby, s1: Lobby, calls: seq<Call>, p: string)
    requires OthersStay(s, s1, calls) && Free(s, p)
    requires forall k :: 0 <= k < |calls| ==> !Names(calls[k], p)
    ensures Free(s1, p)
  {
    assert !Called(calls, p);
  }

  lemma {:induction false} SeatAll(s: Lobby, calls: seq<Call>, now: int)
    requires Indexed(s) && CallsDisjoint(calls) && forall p :: Called(calls, p) ==> Free(s, p)
    ensures AllSeated(s, Seated(s, calls, now), calls)
  {
    if calls == [] {
      assert AllSeated(s, s, calls);
    } else {
      var before, last := calls[..|calls| - 1], calls[|calls| - 1];
      assert before + [last] == calls;
      CallsSplit(before, last);
      hide AllSeated, Matched, Indexed, CallsDisjoint, Called;
      SeatAll(s, before, now);
      LaterFresh(s, |before|);
      SeatNext(s, Seated(s, before, now), before, last, now);
    }
  }

  lemma LaterFresh(s: Lobby, k: nat)
    requires Indexed(s)
    ensures RidOf(s, k) !in s.rooms
  {
    if RidOf(s, k) in s.rooms {
      IssuedLater(RidOf(s, k), s.counter, s.counter + k);
      NextFresh(s.counter + k);
    }
  }

  // ---- the partition ----

  lemma QueueCallsDisjoint(q: seq<Entry>, starts: seq<nat>)
    requires UniqueIds(q) && forall k :: 0 <= k < |starts| ==> starts[k] + 1 < |q|
    requires forall k, l :: 0 <= k < l < |starts| ==> starts[k] + 2 <= starts[l]
    ensures CallsDisjoint(CallsFor(q, starts))
  {
  }

  lemma NamedAt(q: seq<Entry>, starts: seq<nat>, k: nat, i: nat)
    requires UniqueIds(q) && forall k :: 0 <= k < |starts| ==> starts[k] + 1 < |q|
    requires k < |starts| && i < |q|
    ensures Names(CallsFor(q, starts)[k], q[i].playerId) <==> starts[k] == i || starts[k] + 1 == i
  {
  }

  lemma CalledCovered(q: seq<Entry>, starts: seq<nat>, i: nat)
    requires UniqueIds(q) && (forall k :: 0 <= k < |starts| ==> starts[k] + 1 < |q|) && i < |q|
    ensures Called(CallsFor(q, starts), q[i].playerId) <==> Covered(starts, i)
  {
    hide CallsFor, UniqueIds, Names;
    forall k | 0 <= k < |starts|
      ensures Names(CallsFor(q, starts)[k], q[i].playerId) <==> starts[k] == i || starts[k] + 1 == i
    {
      NamedAt(q, starts, k, i);
    }
    if Covered(starts, i) {
      var k :| 0 <= k < |starts| && (starts[k] == i || starts[k] + 1 == i);
      assert Names(CallsFor(q, starts)[k], q[i].playerId);
    }
  }

  /**
   Partition.  If nobody queued is in a room, then after one TryMatch with its callbacks everyone who was queued is
   either still queued and in no room, or out of the queue and in a fresh waiting room with the partner alone; the
   index is exact and nobody else has moved.
   */
  lemma Partition(cfg: Pairing.Config, q: seq<Entry>, now: int, s: Lobby)
    requires Proper(q) && Indexed(s) && forall i :: 0 <= i < |q| ==> Free(s, q[i].playerId)
    ensures var starts := Scan(cfg, q, now, 0);
            && (forall k :: 0 <= k < |starts| ==> starts[k] + 1 < |q|)
            && var calls := CallsFor(q, starts); var q' := Unpaired(q, starts, 0); var s' := Seated(s, calls, now);
               && AllSeated(s, s', calls)
               && (forall i :: 0 <= i < |q| ==>
                     if Called(calls, q[i].playerId) then q[i] !in q' else q[i] in q' && Free(s', q[i].playerId))
  {
    var starts := Scan(cfg, q, now, 0);
    ScanTakes(cfg, q, now, 0);
    hide Scan, Sorted, Compatible, Covered, RangeAt;
    QueueCallsDisjoint(q, starts);
    forall i | 0 <= i < |q| ensures Called(CallsFor(q, starts), q[i].playerId) <==> Covered(starts, i) {
      CalledCovered(q, starts, i);
    }
    var calls := CallsFor(q, starts);
    CalledQueued(q, starts);
    hide CallsFor;
    SeatAll(s, calls, now);
    UnpairedMembers(q, starts, 0);
    forall i | 0 <= i < |q| ensures q[i] in Unpaired(q, starts, 0) <==> !Covered(starts, i) {
      LeftOverOnce(q, starts, i);
    }
  }

  lemma CalledQueued(q: seq<Entry>, starts: seq<nat>)
    requires forall k :: 0 <= k < |starts| ==> starts[k] + 1 < |q|
    ensures forall p :: Called(CallsFor(q, starts), p) ==> exists i :: 0 <= i < |q| && q[i].playerId == p
  {
    forall p | Called(CallsFor(q, starts), p) ensures exists i :: 0 <= i < |q| && q[i].playerId == p {
      var k :| 0 <= k < |starts| && Names(CallsFor(q, starts)[k], p);
      assert q[starts[k]].playerId == p || q[starts[k] + 1].playerId == p;
    }
  }

  lemma LeftOverOnce(q: seq<Entry>, starts: seq<nat>, i: nat)
    requires UniqueIds(q) && i < |q|
    ensures LeftOver(q, starts, 0, q[i]) <==> !Covered(starts, i)
  {
    hide Covered;
  }

  // ---- the timeout ----

  function TimeoutLobby(s: Lobby, rid: string): Lobby {
    if rid in s.rooms && !s.rooms[rid].state.Playing? then Dropped(s, rid) else s
  }

  /** A timeout leaves a player it queues again in no room exactly when that player is not in another room by then. */
  lemma TimeoutExactly(s: Lobby, rid: string, p: string)
    requires Indexed(s) && rid in s.rooms && !s.rooms[rid].state.Playing?
    ensures Indexed(TimeoutLobby(s, rid)) && rid !in TimeoutLobby(s, rid).rooms
    ensures Free(TimeoutLobby(s, rid), p) <==> Free(s, p) || s.playerRoom[p] == rid
  {
    DroppedIndexed(s, rid);
    hide RoomFits, Issued;
  }

  /** The timeout takes exactly the pair's room and the entries into it, and nothing if the game is under way. */
  lemma TimeoutEffect(s: Lobby, rid: string)
    requires Indexed(s)
    ensures var s' := TimeoutLobby(s, rid);
            if rid in s.rooms && s.rooms[rid].state != Playing then
              RoomLives.Gone(s, s', iset{rid})
              && forall other :: other in s'.rooms ==> s'.rooms[other] == s.rooms[other]
            else s' == s
  {
    RoomLives.RemoveEffect(s, rid);
    hide Indexed, Dropped, RoomLives.Gone;
  }

  /** A matched player who leaves and opens another room is still there when the timeout queues it again. */
  lemma RequeuedElsewhere(p1: string, p2: string)
    requires p1 != p2
    ensures var s := Run(EMPTY, [MatchFound(p1, p2, 0), Leave("room_001", p1), Create(p1, 4, 0, 1)]);
            && "room_001" in s.rooms && !s.rooms["room_001"].state.Playing?
            && !Free(TimeoutLobby(s, "room_001"), p1)
  {
    var ops := [MatchFound(p1, p2, 0), Leave("room_001", p1), Create(p1, 4, 0, 1)];
    FirstRooms();
    assert ops[..2][..1] == ops[..1] && ops[..1][..0] == [];
    assert Run(EMPTY, ops[..1]) == Matched(EMPTY, p1, p2, 0);
    RunIndexed([]);
    MatchedFree(EMPTY, p1, p2, 0);
    hide Decimal.RoomName;
    var s1 := Run(EMPTY, ops[..1]);
    assert s1.rooms["room_001"].players == [p1, p2];
    hide Matched;
    var s2 := Run(EMPTY, ops[..2]);
    assert s2 == Left(s1, "room_001", p1);
    assert [p1, p2][..0] + [p1, p2][1..] == [p2];
    assert s2.rooms["room_001"].players == [p2] && Free(s2, p1);
    hide Left;
    var s3 := Run(EMPTY, ops);
    assert s3 == Created(s2, p1, 4, 0, 1);
  }

  lemma FirstRooms()
    ensures Decimal.RoomName(1) == "room_001" && Decimal.RoomName(2) != "room_001"
  {
    assert Decimal.Digits(1) == "1" && "0" + "1" == "01" && "0" + "01" == "001";
    assert Decimal.Pad3("01") == Decimal.Pad3("001") == "001";
    assert Decimal.Pad3("1") == Decimal.Pad3("01");
    if Decimal.RoomName(2) == Decimal.RoomName(1) {
      Decimal.RoomNameInjective(1, 2);
    }
  }

  // ---- the class ----

  /** The timer OnMatchFound sets. */
  datatype Timeout = Timeout(dueMs: int, rid: string, call: Call)

  /** The timers the callbacks of one TryMatch set: one for each pair whose first player is free by then. */
  function TimeoutsFor(s: Lobby, calls: seq<Call>, now: int): seq<Timeout> {
    if calls == [] then []
    else
      var before, last := calls[..|calls| - 1], calls[|calls| - 1];
      var s1 := Seated(s, before, now);
      TimeoutsFor(s, before, now)
      + if Free(s1, last.p1) then [Timeout(now + 30000, Decimal.RoomName(s1.counter), last)] else []
  }

  /** q is the queue `was` after the timeout entered both players again. */
  ghost predicate Requeued(was: seq<Entry>, q: seq<Entry>, call: Call, now: int) {
    exists mid: seq<Entry> :: Entered(was, mid, call.p1, call.s1, now) && Entered(mid, q, call.p2, call.s2, now)
  }

  /** q is the queue `was` after the player entered it: before its equals if new, else sorted again. */
  ghost predicate Entered(was: seq<Entry>, q: seq<Entry>, id: string, score: real, now: int) {
    var e := Entry(id, score, if Queued(was, id) then was[IndexOf(was, id)].enqueuedMs else now);
    && Proper(q) && (forall x :: x in q <==> x == e || (x in was && x.playerId != id))
    && (!Queued(was, id) ==> Inserted(was, e, q))
  }

  /** One TryMatch on q with its callbacks leaves q' queued and takes the rooms from s to s'. */
  ghost predicate MatchOutcome(cfg: Pairing.Config, q: seq<Entry>, now: int, q': seq<Entry>, s: Lobby, s': Lobby) {
    var starts := Scan(cfg, q, now, 0);
    && (forall k :: 0 <= k < |starts| ==> starts[k] + 1 < |q|)
    && q' == Unpaired(q, starts, 0) && s' == Seated(s, CallsFor(q, starts), now)
  }

  class GameService {
    const rooms: RoomManager
    const queue: MatchQueue
    var timeouts: seq<Timeout>

    ghost predicate Valid()
      reads this, rooms, queue
    {
      rooms.Valid() && queue.Valid()
    }

    constructor (rooms: RoomManager, queue: MatchQueue)
      requires rooms.Valid() && queue.Valid()
      ensures Valid() && this.rooms == rooms && this.queue == queue && timeouts == []
    {
      this.rooms, this.queue, timeouts := rooms, queue, [];
    }

    method OnMatchFound(call: Call, now: int)
      requires Valid()
      modifies this`timeouts, rooms, rooms.rooms.Values
      ensures Valid() && rooms.View() == Matched(old(rooms.View()), call.p1, call.p2, now)
      ensures forall rid :: rid in rooms.rooms ==>
                (rid in old(rooms.rooms) && rooms.rooms[rid] == old(rooms.rooms)[rid]) || fresh(rooms.rooms[rid])
      ensures timeouts == if Free(old(rooms.View()), call.p1)
                          then old(timeouts) + [Timeout(now + 30000, Decimal.RoomName(old(rooms.counter)), call)]
                          else old(timeouts)
    {
      hide Joined, WithState, Decimal.RoomName;
      var r := rooms.CreateRoom(call.p1, 2, 300000, now);
      if r.Failure? {
        return;
      }
      rooms.SetRoomState(r.roomId, InWaiting);
      var _ := rooms.JoinRoom(r.roomId, call.p2);
      timeouts := timeouts + [Timeout(now + 30000, r.roomId, call)];
    }

    /** The callback of that timer. */
    method OnMatchTimeout(t: Timeout, now: int)
      requires Valid()
      modifies rooms, queue
      ensures Valid() && rooms.View() == TimeoutLobby(old(rooms.View()), t.rid)
      ensures var s := old(rooms.View());
              if t.rid in s.rooms && !s.rooms[t.rid].state.Playing? then
                Queued(queue.queue, t.call.p1) && Queued(queue.queue, t.call.p2)
                && Requeued(old(queue.queue), queue.queue, t.call, now)
              else queue.queue == old(queue.queue)
    {
      hide Dropped, Proper;
      ghost var s := rooms.View();
      if t.rid in rooms.rooms && rooms.rooms[t.rid].state != Playing {
        assert s.rooms[t.rid].state == rooms.rooms[t.rid].state;
        var _ := rooms.RemoveRoom(t.rid);
        hide *;
        Requeue(t.call, now);
      }
    }

    method Requeue(call: Call, now: int)
      requires queue.Valid()
      modifies queue
      ensures queue.Valid() && Queued(queue.queue, call.p1) && Queued(queue.queue, call.p2)
      ensures Requeued(old(queue.queue), queue.queue, call, now)
    {
      hide Proper, Queued, IndexOf, Inserted;
      ghost var was := queue.queue;
      queue.EnterQueue(call.p1, call.s1, now);
      ghost var mid := queue.queue;
      assert Entered(was, mid, call.p1, call.s1, now);
      ghost var e :| e in queue.queue && e.playerId == call.p1;
      queue.EnterQueue(call.p2, call.s2, now);
      assert Entered(mid, queue.queue, call.p2, call.s2, now);
      assert exists x :: x in queue.queue && x.playerId == call.p2;
      assert call.p1 != call.p2 ==> e in queue.queue;
      QueuedIn(queue.queue, call.p1);
      QueuedIn(queue.queue, call.p2);
    }

    static lemma QueuedIn(q: seq<Entry>, id: string)
      requires exists e :: e in q && e.playerId == id
      ensures Queued(q, id)
    {
    }

    /** The EnterMatch request: queue the player, match, and call back for each pair. */
    method EnterMatch(id: string, score: real, now: int)
      requires Valid()
      modifies this`timeouts, rooms, rooms.rooms.Values, queue
      ensures Valid()
      ensures exists q ::
                Entered(old(queue.queue), q, id, score, now)
                && MatchOutcome(queue.cfg, q, now, queue.queue, old(rooms.View()), rooms.View())
                && timeouts == old(timeouts)
                   + TimeoutsFor(old(rooms.View()), CallsFor(q, Scan(queue.cfg, q, now, 0)), now)
    {
      hide Matched, Scan, Unpaired, CallsFor, Proper, Inserted, Queued, IndexOf, Seated, TimeoutsFor;
      queue.EnterQueue(id, score, now);
      ghost var q := queue.queue;
      assert Entered(old(queue.queue), q, id, score, now);
      var _, calls := queue.TryMatch(now);
      SeatPairs(calls, now);
    }

    method SeatPairs(calls: seq<Call>, now: int)
      requires Valid()
      modifies this`timeouts, rooms, rooms.rooms.Values
      ensures Valid() && rooms.View() == Seated(old(rooms.View()), calls, now)
      ensures timeouts == old(timeouts) + TimeoutsFor(old(rooms.View()), calls, now)
    {
      hide Matched, Decimal.RoomName;
      ghost var s := rooms.View();
      for k := 0 to |calls|
        invariant Valid() && rooms.View() == Seated(s, calls[..k], now)
        invariant timeouts == old(timeouts) + TimeoutsFor(s, calls[..k], now)
        invariant forall rid :: rid in rooms.rooms ==>
                    (rid in old(rooms.rooms) && rooms.rooms[rid] == old(rooms.rooms)[rid]) || fresh(rooms.rooms[rid])
      {
        OnMatchFound(calls[k], now);
        assert calls[..k + 1][..k] == calls[..k];
      }
      assert calls[..|calls|] == calls;
    }
  }
}
