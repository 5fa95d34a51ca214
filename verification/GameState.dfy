/**
 The lockstep simulation.  One tick is a function of the inputs as a map and of the positions as a map: neither the
 order in which the inputs are walked nor the order in which the players are listed shows in the result.
 */
module GameStates {
  import opened ByteOrder
  import opened StringOrder

  datatype MoveDir = NONE | UP | DOWN | LEFT | RIGHT
  datatype Point = Point(x: int, y: int)
  datatype PlayerPos = PlayerPos(playerId: string, at: Point)
  datatype GameState = GameState(frameNo: nat, players: seq<PlayerPos>)
  type Inputs = map<string, Bytes>

  const ORIGIN := Point(0, 0)

  function ParseMoveDir(input: Bytes): MoveDir {
    if input == [] then NONE
    else match input[0] as int
      case 1 => UP
      case 2 => DOWN
      case 3 => LEFT
      case 4 => RIGHT
      case _ => NONE
  }

  function Moved(p: Point, dir: MoveDir, step: int): Point {
    match dir
    case UP => p.(y := p.y - step)
    case DOWN => p.(y := p.y + step)
    case LEFT => p.(x := p.x - step)
    case RIGHT => p.(x := p.x + step)
    case NONE => p
  }

  // ---- players as a list and as a map ----

  function Positions(ps: seq<PlayerPos>): map<string, Point> {
    if ps == [] then map[] else Positions(ps[1..])[ps[0].playerId := ps[0].at]
  }

  predicate Distinct(ps: seq<PlayerPos>) {
    ps == [] || (ps[0].playerId !in Positions(ps[1..]) && Distinct(ps[1..]))
  }

  /** Every player of the list comes after the id. */
  predicate Above(id: string, ps: seq<PlayerPos>) {
    forall i :: 0 <= i < |ps| ==> Less(id, ps[i].playerId)
  }

  /** In strictly ascending order of id. */
  predicate Ordered(ps: seq<PlayerPos>) {
    ps == [] || (Above(ps[0].playerId, ps[1..]) && Ordered(ps[1..]))
  }

  predicate Lists(ps: seq<PlayerPos>, id: string) {
    exists i :: 0 <= i < |ps| && ps[i].playerId == id
  }

  lemma {:induction false} InPositions(ps: seq<PlayerPos>, id: string)
    ensures id in Positions(ps) <==> Lists(ps, id)
  {
    if ps != [] {
      InPositions(ps[1..], id);
      if Lists(ps, id) && ps[0].playerId != id {
        var i :| 0 <= i < |ps| && ps[i].playerId == id;
        assert ps[1..][i - 1].playerId == id;
      }
      if Lists(ps[1..], id) {
        var i :| 0 <= i < |ps[1..]| && ps[1..][i].playerId == id;
        assert ps[i + 1].playerId == id;
      }
    }
  }

  lemma AboveNot(ps: seq<PlayerPos>, id: string)
    requires Above(id, ps)
    ensures id !in Positions(ps)
  {
    InPositions(ps, id);
    LessIrreflexive(id);
  }

  lemma {:induction false} OrderedDistinct(ps: seq<PlayerPos>)
    requires Ordered(ps)
    ensures Distinct(ps)
  {
    if ps != [] {
      AboveNot(ps[1..], ps[0].playerId);
      OrderedDistinct(ps[1..]);
    }
  }

  lemma SortedFirst(a: seq<PlayerPos>, b: seq<PlayerPos>)
    requires Ordered(a) && Ordered(b) && a != [] && b != [] && Positions(a) == Positions(b)
    ensures a[0] == b[0]
  {
    InPositions(b, a[0].playerId);
    InPositions(a, b[0].playerId);
    var i :| 0 <= i < |b| && b[i].playerId == a[0].playerId;
    var j :| 0 <= j < |a| && a[j].playerId == b[0].playerId;
    if i > 0 && j > 0 {
      assert a[1..][j - 1] == a[j] && b[1..][i - 1] == b[i];
      LessAsymmetric(b[0].playerId, b[i].playerId);
    }
    assert Positions(a)[a[0].playerId] == Positions(b)[b[0].playerId];
  }

  /** A map has one ordered list. */
  lemma {:induction false} OrderedUnique(a: seq<PlayerPos>, b: seq<PlayerPos>)
    requires Ordered(a) && Ordered(b) && Positions(a) == Positions(b)
    ensures a == b
  {
    if a != [] && b != [] {
      SortedFirst(a, b);
      AboveNot(a[1..], a[0].playerId);
      AboveNot(b[1..], b[0].playerId);
      assert Positions(a[1..]) == Positions(a) - {a[0].playerId} == Positions(b[1..]);
      OrderedUnique(a[1..], b[1..]);
      assert a == [a[0]] + a[1..] && b == [b[0]] + b[1..];
    }
    assert a != [] ==> a[0].playerId in Positions(a);
    assert b != [] ==> b[0].playerId in Positions(b);
  }

  function Insert(ps: seq<PlayerPos>, p: PlayerPos): seq<PlayerPos> {
    if ps == [] || !Less(ps[0].playerId, p.playerId) then [p] + ps else [ps[0]] + Insert(ps[1..], p)
  }

  lemma {:induction false} InsertOrdered(ps: seq<PlayerPos>, p: PlayerPos)
    requires Ordered(ps) && p.playerId !in Positions(ps)
    ensures Ordered(Insert(ps, p)) && Positions(Insert(ps, p)) == Positions(ps)[p.playerId := p.at]
    ensures forall id :: Above(id, ps) && Less(id, p.playerId) ==> Above(id, Insert(ps, p))
  {
    if ps == [] {
      assert Insert(ps, p)[1..] == [];
    } else if Less(ps[0].playerId, p.playerId) {
      var rest := Insert(ps[1..], p);
      InsertOrdered(ps[1..], p);
      assert Insert(ps, p)[1..] == rest;
      forall id | Above(id, ps) && Less(id, p.playerId) ensures Above(id, Insert(ps, p)) {
        assert Less(id, ps[0].playerId);
        assert forall i :: 0 <= i < |ps[1..]| ==> ps[1..][i] == ps[i + 1];
        assert Above(id, ps[1..]);
        assert forall i :: 0 < i < |Insert(ps, p)| ==> Insert(ps, p)[i] == rest[i - 1];
      }
    } else {
      LessTotal(ps[0].playerId, p.playerId);
      assert Insert(ps, p)[1..] == ps;
      forall i | 0 <= i < |ps| ensures Less(p.playerId, ps[i].playerId) {
        if i > 0 {
          assert ps[1..][i - 1] == ps[i];
          LessTransitive(p.playerId, ps[0].playerId, ps[i].playerId);
        }
      }
    }
  }

  /** The ordered list of a map of positions. */
  ghost function Listing(m: map<string, Point>): (r: seq<PlayerPos>)
    ensures Ordered(r) && Positions(r) == m
    decreases |m|
  {
    if m == map[] then []
    else
      var id :| id in m;
      var rest := m - {id};
      assert rest.Keys == m.Keys - {id};
      assert rest[id := m[id]] == m;
      InsertOrdered(Listing(rest), PlayerPos(id, m[id]));
      Insert(Listing(rest), PlayerPos(id, m[id]))
  }

  // ---- the meaning of a tick ----

  function Order(inputs: Inputs, id: string): MoveDir {
    if id in inputs then ParseMoveDir(inputs[id]) else NONE
  }

  /** Everyone known or heard from, moved as told; newcomers start at the origin. */
  ghost function TickMap(inputs: Inputs, m: map<string, Point>): map<string, Point> {
    map id | id in m.Keys + inputs.Keys :: Moved(if id in m then m[id] else ORIGIN, Order(inputs, id), 1)
  }

  ghost function Tick(inputs: Inputs, s: GameState): (r: GameState)
    ensures Ordered(r.players) && Positions(r.players) == TickMap(inputs, Positions(s.players))
    ensures r.frameNo == s.frameNo + 1
  {
    GameState(s.frameNo + 1, Listing(TickMap(inputs, Positions(s.players))))
  }

  // ---- the code ----

  method ApplyMove(p: PlayerPos, dir: MoveDir, step: int) returns (q: PlayerPos)
    ensures q == p.(at := Moved(p.at, dir, step))
  {
    q := p;
    match dir
    case UP => q := q.(at := q.at.(y := q.at.y - step));
    case DOWN => q := q.(at := q.at.(y := q.at.y + step));
    case LEFT => q := q.(at := q.at.(x := q.at.x - step));
    case RIGHT => q := q.(at := q.at.(x := q.at.x + step));
    case NONE =>
  }

  method EnsurePlayerExists(players: seq<PlayerPos>, id: string) returns (r: seq<PlayerPos>)
    ensures r == if Lists(players, id) then players else players + [PlayerPos(id, ORIGIN)]
  {
    for i := 0 to |players|
      invariant forall j :: 0 <= j < i ==> players[j].playerId != id
    {
      if players[i].playerId == id {
        return players;
      }
    }
    r := players + [PlayerPos(id, ORIGIN)];
  }

  /** Stands for std::sort by id; only this contract of it is used. */
  method SortById(players: seq<PlayerPos>) returns (r: seq<PlayerPos>)
    ensures Distinct(players) ==> Ordered(r) && Positions(r) == Positions(players)
  {
    r := [];
    var n := |players|;
    assert players[n..] == [];
    while n > 0
      invariant n <= |players|
      invariant Distinct(players) ==> Distinct(players[n..]) && Ordered(r) && Positions(r) == Positions(players[n..])
    {
      n := n - 1;
      assert players[n..][1..] == players[n + 1..] && players[n..][0] == players[n];
      if Distinct(players) {
        DistinctTail(players, n);
        InsertOrdered(r, players[n]);
      }
      r := Insert(r, players[n]);
    }
    assert players[0..] == players;
  }

  lemma {:induction false} DistinctTail(ps: seq<PlayerPos>, n: nat)
    requires Distinct(ps) && n <= |ps|
    ensures Distinct(ps[n..])
  {
    if n > 0 {
      DistinctTail(ps[1..], n - 1);
      assert ps[1..][n - 1..] == ps[n..];
    } else {
      assert ps[0..] == ps;
    }
  }

  lemma {:induction false} AppendMap(ps: seq<PlayerPos>, p: PlayerPos)
    requires Distinct(ps) && p.playerId !in Positions(ps)
    ensures Distinct(ps + [p]) && Positions(ps + [p]) == Positions(ps)[p.playerId := p.at]
  {
    if ps == [] {
      assert (ps + [p])[1..] == [];
    } else {
      assert (ps + [p])[1..] == ps[1..] + [p];
      AppendMap(ps[1..], p);
    }
  }

  /** m with everyone of `heard` added at the origin. */
  ghost function Joined(m: map<string, Point>, heard: set<string>): map<string, Point> {
    map id | id in m.Keys + heard :: if id in m then m[id] else ORIGIN
  }

  lemma JoinedNobody(m: map<string, Point>)
    ensures Joined(m, {}) == m
  {
  }

  lemma JoinOne(ps: seq<PlayerPos>, m: map<string, Point>, heard: set<string>, id: string)
    requires Distinct(ps) && Positions(ps) == Joined(m, heard)
    ensures var ps' := if Lists(ps, id) then ps else ps + [PlayerPos(id, ORIGIN)];
            Distinct(ps') && Positions(ps') == Joined(m, heard + {id})
  {
    InPositions(ps, id);
    if Lists(ps, id) {
      assert Joined(m, heard + {id}) == Joined(m, heard);
    } else {
      AppendMap(ps, PlayerPos(id, ORIGIN));
      assert Joined(m, heard + {id}) == Joined(m, heard)[id := ORIGIN];
    }
  }

  /** Step 2 of the tick: the inputs are walked in whatever order the hash map has. */
  method EnsureAll(players: seq<PlayerPos>, heard: set<string>) returns (r: seq<PlayerPos>)
    ensures Distinct(players) ==> Distinct(r) && Positions(r) == Joined(Positions(players), heard)
  {
    hide *;
    r := players;
    var todo := heard;
    ghost var m, served: set<string> := Positions(players), {};
    JoinedNobody(m);
    while todo != {}
      invariant served + todo == heard
      invariant Distinct(players) ==> Distinct(r) && Positions(r) == Joined(m, served)
      decreases |todo|
    {
      var id :| id in todo;
      if Distinct(players) {
        JoinOne(r, m, served, id);
      }
      r := EnsurePlayerExists(r, id);
      todo, served := todo - {id}, served + {id};
    }
    assert served == heard;
  }

  method TickLogic(inputs: Inputs, current: GameState) returns (next: GameState)
    ensures next.frameNo == current.frameNo + 1
    ensures Distinct(current.players) ==> next == Tick(inputs, current)
  {
    hide Positions, Listing, Distinct, Ordered, Lists, Joined, TickMap, MovedPlayers;
    var players := EnsureAll(current.players, inputs.Keys);
    players := SortById(players);
    if Distinct(current.players) {
      TickEnds(inputs, Positions(current.players), players);
    }
    players := MoveAll(inputs, players);
    next := GameState(current.frameNo + 1, players);
  }

  lemma TickEnds(inputs: Inputs, m: map<string, Point>, sorted: seq<PlayerPos>)
    requires Ordered(sorted) && Positions(sorted) == Joined(m, inputs.Keys)
    ensures MovedPlayers(inputs, sorted) == Listing(TickMap(inputs, m))
  {
    hide Less, Listing, Joined, MovedPlayers, TickMap, MapMoves, Positions, Ordered;
    MovedMap(inputs, sorted);
    JoinedMoved(inputs, m);
    OrderedUnique(MovedPlayers(inputs, sorted), Listing(TickMap(inputs, m)));
  }

  /** Everyone with an input moves. */
  function MovedPlayers(inputs: Inputs, ps: seq<PlayerPos>): seq<PlayerPos> {
    seq(|ps|, i requires 0 <= i < |ps| => ps[i].(at := Moved(ps[i].at, Order(inputs, ps[i].playerId), 1)))
  }

  /** Step 4 of the tick: in list order. */
  method MoveAll(inputs: Inputs, sorted: seq<PlayerPos>) returns (players: seq<PlayerPos>)
    ensures players == MovedPlayers(inputs, sorted)
  {
    players := sorted;
    for i := 0 to |players|
      invariant |players| == |sorted|
      invariant forall j :: 0 <= j < i ==> players[j] == MovedPlayers(inputs, sorted)[j]
      invariant forall j :: i <= j < |sorted| ==> players[j] == sorted[j]
    {
      if players[i].playerId in inputs {
        var p := ApplyMove(players[i], ParseMoveDir(inputs[players[i].playerId]), 1);
        players := players[i := p];
      }
    }
  }

  ghost function MapMoves(inputs: Inputs, m: map<string, Point>): map<string, Point> {
    map id | id in m :: Moved(m[id], Order(inputs, id), 1)
  }

  lemma {:induction false} MovedMap(inputs: Inputs, ps: seq<PlayerPos>)
    requires Ordered(ps)
    ensures Ordered(MovedPlayers(inputs, ps))
    ensures Positions(MovedPlayers(inputs, ps)) == MapMoves(inputs, Positions(ps))
  {
    hide Moved, Order, Less;
    if ps != [] {
      MovedMap(inputs, ps[1..]);
      assert MovedPlayers(inputs, ps)[1..] == MovedPlayers(inputs, ps[1..]);
    }
  }

  lemma JoinedMoved(inputs: Inputs, m: map<string, Point>)
    ensures MapMoves(inputs, Joined(m, inputs.Keys)) == TickMap(inputs, m)
  {
    hide Moved, Order;
  }

  // ---- what follows ----

  lemma {:induction false} MemberMap(ps: seq<PlayerPos>, p: PlayerPos)
    requires Distinct(ps)
    ensures p in ps <==> p.playerId in Positions(ps) && Positions(ps)[p.playerId] == p.at
  {
    if ps != [] {
      MemberMap(ps[1..], p);
      assert p in ps <==> p == ps[0] || p in ps[1..];
      InPositions(ps[1..], ps[0].playerId);
    }
  }

  /** States that list the same distinct players in any order step to the same state. */
  lemma OrderIndependent(inputs: Inputs, s: GameState, t: GameState)
    requires s.frameNo == t.frameNo && Distinct(s.players) && Distinct(t.players)
    requires forall p :: p in s.players <==> p in t.players
    ensures Tick(inputs, s) == Tick(inputs, t)
  {
    var m, n := Positions(s.players), Positions(t.players);
    forall id | id in m ensures id in n && n[id] == m[id] {
      MemberMap(s.players, PlayerPos(id, m[id]));
      MemberMap(t.players, PlayerPos(id, m[id]));
    }
    forall id | id in n ensures id in m {
      MemberMap(s.players, PlayerPos(id, n[id]));
      MemberMap(t.players, PlayerPos(id, n[id]));
    }
    assert m == n;
  }

  function Abs(n: int): nat { if n < 0 then -n else n }

  function Manhattan(p: Point, q: Point): nat { Abs(p.x - q.x) + Abs(p.y - q.y) }

  /** Nobody vanishes, and in one tick nobody gets further than one step from where it was or appeared. */
  lemma OneStep(inputs: Inputs, s: GameState, id: string)
    requires id in Positions(Tick(inputs, s).players)
    ensures Positions(s.players).Keys <= Positions(Tick(inputs, s).players).Keys
    ensures var was := if id in Positions(s.players) then Positions(s.players)[id] else ORIGIN;
            Manhattan(was, Positions(Tick(inputs, s).players)[id]) <= 1
  {
    hide Positions, Ordered, ParseMoveDir, Tick;
  }

  /** The first byte of what a player sent in a frame, 0 if it sent nothing. */
  function FirstByte(inputs: Inputs, id: string): int {
    if id in inputs && inputs[id] != [] then inputs[id][0] as int else 0
  }

  /**
   Where one tick takes a player: byte 1 is one up, which is towards smaller y, 2 one down, 3 one left, 4 one right, and
   anything else or nothing leaves it where it is.  Whoever is heard of for the first time starts from (0, 0).
   */
  lemma TickMoves(inputs: Inputs, s: GameState, id: string)
    ensures var next := Positions(Tick(inputs, s).players);
            && (id in next <==> id in Positions(s.players) || id in inputs)
            && (id in next ==>
                  var p := if id in Positions(s.players) then Positions(s.players)[id] else Point(0, 0);
                  var b := FirstByte(inputs, id);
                  && next[id].x == p.x + (if b == 3 then -1 else if b == 4 then 1 else 0)
                  && next[id].y == p.y + (if b == 1 then -1 else if b == 2 then 1 else 0))
  {
    hide Positions, Ordered, Tick;
  }

  /** The state after the frames, the first one first. */
  ghost function Replay(s: GameState, frames: seq<Inputs>): (r: GameState)
    ensures r.frameNo == s.frameNo + |frames|
    decreases |frames|
  {
    if frames == [] then s else Tick(frames[|frames| - 1], Replay(s, frames[..|frames| - 1]))
  }

  lemma {:induction false} ReplayAppend(s: GameState, a: seq<Inputs>, b: seq<Inputs>)
    ensures Replay(s, a + b) == Replay(Replay(s, a), b)
    decreases |b|
  {
    hide Tick;
    if b == [] {
      assert a + b == a;
    } else {
      var n := |a + b| - 1;
      assert (a + b)[..n] == a + b[..|b| - 1];
      ReplayAppend(s, a, b[..|b| - 1]);
    }
  }

  /** After n ticks from an empty state everyone is within n steps of the origin. */
  lemma {:induction false} ReplayReach(s: GameState, frames: seq<Inputs>, id: string)
    requires s.players == [] && id in Positions(Replay(s, frames).players)
    ensures Manhattan(ORIGIN, Positions(Replay(s, frames).players)[id]) <= |frames|
    decreases |frames|
  {
    if frames != [] {
      hide Positions, Ordered, Tick;
      var before := frames[..|frames| - 1];
      OneStep(frames[|frames| - 1], Replay(s, before), id);
      if id in Positions(Replay(s, before).players) {
        ReplayReach(s, before, id);
      }
    }
  }

  /** In how many of the frames the player sent this byte first. */
  function Sent(frames: seq<Inputs>, id: string, b: int): nat {
    if frames == [] then 0
    else Sent(frames[..|frames| - 1], id, b) + if FirstByte(frames[|frames| - 1], id) == b then 1 else 0
  }

  /** Whether the player sent anything, were it an empty input. */
  predicate Heard(frames: seq<Inputs>, id: string) {
    frames != [] && (id in frames[|frames| - 1] || Heard(frames[..|frames| - 1], id))
  }

  lemma {:induction false} Unheard(frames: seq<Inputs>, id: string, b: int)
    requires !Heard(frames, id) && b != 0
    ensures Sent(frames, id, b) == 0
  {
    if frames != [] {
      Unheard(frames[..|frames| - 1], id, b);
    }
  }

  /** Where the simulation has a player: exactly those heard of, at their rights less lefts and downs less ups. */
  lemma {:induction false} ReplayWhere(s: GameState, frames: seq<Inputs>, id: string)
    requires s.players == []
    ensures var at := Positions(Replay(s, frames).players);
            && (id in at <==> Heard(frames, id))
            && (id in at ==> at[id] == Point(Sent(frames, id, 4) - Sent(frames, id, 3),
                                             Sent(frames, id, 2) - Sent(frames, id, 1)))
    decreases |frames|
  {
    if frames != [] {
      hide Positions, Ordered, Tick, FirstByte;
      var before, last := frames[..|frames| - 1], frames[|frames| - 1];
      ReplayWhere(s, before, id);
      TickMoves(last, Replay(s, before), id);
      if !Heard(before, id) {
        Unheard(before, id, 1);
        Unheard(before, id, 2);
        Unheard(before, id, 3);
        Unheard(before, id, 4);
      }
    }
  }
}
