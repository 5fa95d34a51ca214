/**
 The queue and the rooms over whole runs: entering and leaving the queue, batch matches, timeouts and room requests in
 any order.  Nobody is queued and in a room at once exactly as long as no request queues a player who is in a room or
 seats one who is queued.
 */
module MatchRuns {
  import opened Pairing
  import opened MatchQueues
  import opened Rooms
  import opened MatchRooms
  import Decimal

  datatype Service = Service(queue: seq<Entry>, lobby: Lobby)

  datatype Request =
    | Enter(id: string, score: real, now: int)
    | MatchAll(now: int)
    | Cancel(id: string)
    | Expire(timeout: Timeout, now: int)
    | RoomRequest(op: Rooms.Op)

  /** The timeout finds its room, and no game under way in it. */
  predicate Fires(s: Lobby, t: Timeout) {
    t.rid in s.rooms && !s.rooms[t.rid].state.Playing?
  }

  /** One request; the order std::sort gives to equal scores is left open. */
  ghost predicate Next(cfg: Pairing.Config, s: Service, request: Request, s': Service) {
    match request
    case Enter(id, score, now) => Entered(s.queue, s'.queue, id, score, now) && s'.lobby == s.lobby
    case MatchAll(now) => MatchOutcome(cfg, s.queue, now, s'.queue, s.lobby, s'.lobby)
    case Cancel(id) =>
      s' == if Queued(s.queue, id) then s.(queue := Without(s.queue, IndexOf(s.queue, id))) else s
    case Expire(t, now) =>
      if Fires(s.lobby, t) then Requeued(s.queue, s'.queue, t.call, now) && s'.lobby == TimeoutLobby(s.lobby, t.rid)
      else s' == s
    case RoomRequest(op) => s' == s.(lobby := Step(s.lobby, op))
  }

  ghost predicate Good(s: Service) {
    Proper(s.queue) && Indexed(s.lobby)
  }

  /** Nobody is queued and in a room. */
  ghost predicate Separate(s: Service) {
    forall e :: e in s.queue ==> Free(s.lobby, e.playerId)
  }

  // ---- which requests break it ----

  /** The room request puts p, who is in no room, into one. */
  predicate Seats(s: Lobby, op: Rooms.Op, p: string) {
    match op
    case Create(id, _, _, _) => p == id
    case Join(rid, id) => p == id && JoinVerdict(s, rid, id).Success?
    case MatchFound(p1, p2, _) => Free(s, p1) && (p == p1 || p == p2)
    case _ => false
  }

  ghost predicate Collides(s: Service, request: Request) {
    match request
    case Enter(id, _, _) => !Free(s.lobby, id)
    case Expire(t, _) =>
      Fires(s.lobby, t) && (Elsewhere(s.lobby, t.rid, t.call.p1) || Elsewhere(s.lobby, t.rid, t.call.p2))
    case RoomRequest(op) => exists e :: e in s.queue && Seats(s.lobby, op, e.playerId)
    case _ => false
  }

  predicate Elsewhere(s: Lobby, rid: string, p: string) {
    !Free(s, p) && s.playerRoom[p] != rid
  }

  lemma SeatsExactly(s: Lobby, op: Rooms.Op, p: string)
    requires Indexed(s) && Free(s, p)
    ensures Free(Step(s, op), p) <==> !Seats(s, op, p)
  {
    hide Decimal.RoomName, Issued, RoomFits;
    match op
    case MatchFound(p1, p2, now) => MatchSeats(s, p1, p2, now, p);
    case _ =>
  }

  lemma MatchSeats(s: Lobby, p1: string, p2: string, now: int, p: string)
    requires Indexed(s) && Free(s, p)
    ensures Free(Matched(s, p1, p2, now), p) <==> !(Free(s, p1) && (p == p1 || p == p2))
  {
    hide Decimal.RoomName, Indexed;
    if Free(s, p1) {
      if Free(s, p2) && p1 != p2 {
        MatchedFree(s, p1, p2, now);
        hide Matched;
      }
    }
  }

  lemma RoomsSeparate(s: Service, op: Rooms.Op)
    requires Good(s) && Separate(s)
    ensures Separate(s.(lobby := Step(s.lobby, op))) <==> !Collides(s, RoomRequest(op))
  {
    hide Step, Seats, Proper, Indexed;
    assert Indexed(s.lobby);
    forall e | e in s.queue ensures Free(Step(s.lobby, op), e.playerId) <==> !Seats(s.lobby, op, e.playerId) {
      SeatsExactly(s.lobby, op, e.playerId);
    }
  }

  lemma EnterSeparate(s: Service, q: seq<Entry>, id: string, score: real, now: int)
    requires Separate(s) && Entered(s.queue, q, id, score, now)
    ensures Separate(s.(queue := q)) <==> Free(s.lobby, id)
  {
    EnteredWho(s.queue, q, id, score, now);
    hide Entered;
  }

  /** Who is queued after a timeout: the two, and nobody who was not before. */
  lemma RequeuedWho(was: seq<Entry>, q: seq<Entry>, call: Call, now: int)
    requires Requeued(was, q, call, now)
    ensures Proper(q) && forall e :: e in q ==> e.playerId == call.p1 || e.playerId == call.p2 || e in was
    ensures (exists e :: e in q && e.playerId == call.p1) && exists e :: e in q && e.playerId == call.p2
  {
    var mid: seq<Entry> :|
      Entered(was, mid, call.p1, call.s1, now) && Entered(mid, q, call.p2, call.s2, now);
    EnteredWho(was, mid, call.p1, call.s1, now);
    EnteredWho(mid, q, call.p2, call.s2, now);
    assert Proper(q);
    hide Proper, Entered;
    var e1 :| e1 in mid && e1.playerId == call.p1;
    assert call.p1 != call.p2 ==> e1 in q;
  }

  lemma EnteredWho(was: seq<Entry>, q: seq<Entry>, id: string, score: real, now: int)
    requires Entered(was, q, id, score, now)
    ensures (exists e :: e in q && e.playerId == id) && forall e :: e in q ==> e.playerId == id || e in was
    ensures forall e :: e in was && e.playerId != id ==> e in q
  {
    hide Proper;
    var e := Entry(id, score, if Queued(was, id) then was[IndexOf(was, id)].enqueuedMs else now);
    assert e in q;
    hide Queued, IndexOf;
  }

  lemma ExpireSeparate(s: Service, t: Timeout, q: seq<Entry>, now: int)
    requires Good(s) && Separate(s) && Fires(s.lobby, t) && Requeued(s.queue, q, t.call, now)
    ensures Separate(Service(q, TimeoutLobby(s.lobby, t.rid))) <==> !Collides(s, Expire(t, now))
    ensures Good(Service(q, TimeoutLobby(s.lobby, t.rid)))
  {
    hide Requeued, Proper, TimeoutLobby, Indexed, Elsewhere, Free;
    RequeuedWho(s.queue, q, t.call, now);
    TimeoutExactly(s.lobby, t.rid, t.call.p1);
    forall p ensures Free(TimeoutLobby(s.lobby, t.rid), p) <==> !Elsewhere(s.lobby, t.rid, p) {
      FreeAfter(s.lobby, t.rid, p);
    }
    StayFree(s.lobby, t.rid);
  }

  lemma FreeAfter(s: Lobby, rid: string, p: string)
    requires Indexed(s) && rid in s.rooms && !s.rooms[rid].state.Playing?
    ensures Free(TimeoutLobby(s, rid), p) <==> !Elsewhere(s, rid, p)
  {
    TimeoutExactly(s, rid, p);
    hide TimeoutLobby, Indexed;
  }

  lemma StayFree(s: Lobby, rid: string)
    ensures forall p :: Free(s, p) ==> !Elsewhere(s, rid, p)
  {
  }

  lemma MatchSeparate(cfg: Pairing.Config, s: Service, now: int, s': Service)
    requires Good(s) && Separate(s) && MatchOutcome(cfg, s.queue, now, s'.queue, s.lobby, s'.lobby)
    ensures Separate(s')
  {
    var starts := Scan(cfg, s.queue, now, 0);
    assert forall i :: 0 <= i < |s.queue| ==> s.queue[i] in s.queue;
    Partition(cfg, s.queue, now, s.lobby);
    UnpairedMembers(s.queue, starts, 0);
    hide Scan, Unpaired, Seated, CallsFor, AllSeated, Called, Proper, Indexed;
    forall e | e in s'.queue ensures Free(s'.lobby, e.playerId) {
      assert LeftOver(s.queue, starts, 0, e);
      var i :| 0 <= i < |s.queue| && s.queue[i] == e;
    }
  }

  lemma {:induction false} SeatedIndexed(s: Lobby, calls: seq<Call>, now: int)
    requires Indexed(s)
    ensures Indexed(Seated(s, calls, now))
  {
    hide Indexed, Matched;
    if calls != [] {
      SeatedIndexed(s, calls[..|calls| - 1], now);
      var last := calls[|calls| - 1];
      MatchedIndexed(Seated(s, calls[..|calls| - 1], now), last.p1, last.p2, now);
    }
  }

  // ---- one request and whole runs ----

  /** Every request keeps the queue sorted with unique ids and the room index exact. */
  lemma NextGood(cfg: Pairing.Config, s: Service, request: Request, s': Service)
    requires Good(s) && Next(cfg, s, request, s')
    ensures Good(s')
  {
    hide Indexed, Sorted, UniqueIds, Step, Unpaired, Seated, CallsFor, Scan, Without, IndexOf;
    match request
    case Enter(id, score, now) =>
    case MatchAll(now) =>
      var starts := Scan(cfg, s.queue, now, 0);
      UnpairedProper(s.queue, starts, 0);
      SeatedIndexed(s.lobby, CallsFor(s.queue, starts), now);
    case Cancel(id) => if Queued(s.queue, id) { WithoutProper(s.queue, IndexOf(s.queue, id)); }
    case Expire(t, now) => if Fires(s.lobby, t) { TimeoutExactly(s.lobby, t.rid, t.call.p1); }
    case RoomRequest(op) => StepIndexed(s.lobby, op);
  }

  /** From a state where nobody is in both, a request leads to another exactly when it does not collide. */
  lemma NextSeparate(cfg: Pairing.Config, s: Service, request: Request, s': Service)
    requires Good(s) && Separate(s) && Next(cfg, s, request, s')
    ensures Separate(s') <==> !Collides(s, request)
  {
    hide Good, Separate, Step, Entered, Requeued, MatchOutcome, TimeoutLobby, Seats;
    match request
    case Enter(id, score, now) =>
      EnterSeparate(s, s'.queue, id, score, now);
      assert s' == s.(queue := s'.queue);
    case MatchAll(now) => MatchSeparate(cfg, s, now, s');
    case Cancel(id) => CancelSeparate(s, id);
    case Expire(t, now) =>
      if Fires(s.lobby, t) {
        ExpireSeparate(s, t, s'.queue, now);
        assert s' == Service(s'.queue, TimeoutLobby(s.lobby, t.rid));
      }
    case RoomRequest(op) => RoomsSeparate(s, op);
  }

  lemma CancelSeparate(s: Service, id: string)
    requires Good(s) && Separate(s)
    ensures Queued(s.queue, id) ==> Separate(s.(queue := Without(s.queue, IndexOf(s.queue, id))))
  {
    hide Indexed, Sorted, UniqueIds, Free;
    if Queued(s.queue, id) {
      WithoutProper(s.queue, IndexOf(s.queue, id));
      hide Without;
    }
  }

  ghost predicate IsRun(cfg: Pairing.Config, states: seq<Service>, requests: seq<Request>) {
    && |states| == |requests| + 1
    && forall i :: 0 <= i < |requests| ==> Next(cfg, states[i], requests[i], states[i + 1])
  }

  lemma {:induction false} RunGood(cfg: Pairing.Config, states: seq<Service>, requests: seq<Request>, n: nat)
    requires IsRun(cfg, states, requests) && Good(states[0]) && n < |states|
    ensures Good(states[n])
  {
    if n > 0 {
      hide Next, Good;
      RunGood(cfg, states, requests, n - 1);
      NextGood(cfg, states[n - 1], requests[n - 1], states[n]);
    }
  }

  lemma {:induction false} SeparateUpTo(cfg: Pairing.Config, states: seq<Service>, requests: seq<Request>, n: nat)
    requires IsRun(cfg, states, requests) && Good(states[0]) && Separate(states[0]) && n < |states|
    ensures (forall i :: 0 <= i <= n ==> Separate(states[i])) <==>
            (forall i :: 0 <= i < n ==> !Collides(states[i], requests[i]))
  {
    hide Next, Good, Separate, Collides;
    if n > 0 {
      SeparateUpTo(cfg, states, requests, n - 1);
      if forall i :: 0 <= i <= n - 1 ==> Separate(states[i]) {
        RunGood(cfg, states, requests, n - 1);
        NextSeparate(cfg, states[n - 1], requests[n - 1], states[n]);
      }
    }
  }

  /**
   Over every run from the empty service, nobody is ever queued and in a room at once exactly when no request collides:
   none queues a player who is in a room, and none seats a player who is queued.
   */
  lemma RunSeparate(cfg: Pairing.Config, states: seq<Service>, requests: seq<Request>)
    requires IsRun(cfg, states, requests) && states[0] == Service([], EMPTY)
    ensures (forall i :: 0 <= i < |states| ==> Separate(states[i])) <==>
            (forall i :: 0 <= i < |requests| ==> !Collides(states[i], requests[i]))
  {
    RunIndexed([]);
    assert Good(states[0]) && Separate(states[0]);
    hide Next, Good, Separate, Collides;
    SeparateUpTo(cfg, states, requests, |requests|);
  }
}
