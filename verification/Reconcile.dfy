/**
 Correcting a client's prediction: listing where it differs from the server, and pulling it towards the server a
 fraction at a time.  Positions are integers, so every pull is cut towards zero, and that decides where it stops.
 The factor is an exact real.
 */
module Reconciliation {
  import opened GameStates

  // ---- one axis ----

  /** static_cast<int32_t>: towards zero. */
  function Truncate(v: real): int {
    if v >= 0.0 then v.Floor else -((-v).Floor)
  }

  function Pull(x: int, t: int, alpha: real): int {
    Truncate(x as real + Gain(x, t, alpha))
  }

  function Gain(x: int, t: int, alpha: real): real {
    (t - x) as real * alpha
  }

  /** The error in units of 1/alpha. */
  function Weight(x: int, t: int, alpha: real): real {
    Abs(t - x) as real * alpha
  }

  function Pulls(x: int, t: int, alpha: real, n: nat): int {
    if n == 0 then x else Pull(Pulls(x, t, alpha, n - 1), t, alpha)
  }

  /** Nearer to zero than the target, on its side of zero. */
  predicate Inner(x: int, t: int) { 0 <= x < t || t < x <= 0 }

  /** At the target, or beyond it from zero. */
  predicate Outer(x: int, t: int) { 0 <= t <= x || x <= t <= 0 }

  predicate Between(y: int, x: int, t: int) { x <= y <= t || t <= y <= x }

  lemma Mirror(x: int, t: int, alpha: real)
    ensures Pull(-x, -t, alpha) == -Pull(x, t, alpha) && Weight(-x, -t, alpha) == Weight(x, t, alpha)
  {
    assert Gain(-x, -t, alpha) == -Gain(x, t, alpha);
    assert Abs(-t - -x) == Abs(t - x);
    hide Gain;
  }

  lemma GainPart(x: int, t: int, alpha: real)
    requires x < t && 0.0 < alpha <= 1.0
    ensures 0.0 < Gain(x, t, alpha) <= (t - x) as real && (alpha < 1.0 ==> Gain(x, t, alpha) < (t - x) as real)
    ensures Weight(x, t, alpha) == Gain(x, t, alpha)
  {
    Part((t - x) as real, alpha);
  }

  lemma Part(d: real, alpha: real)
    requires d > 0.0 && 0.0 < alpha <= 1.0
    ensures 0.0 < d * alpha <= d && (alpha < 1.0 ==> d * alpha < d)
  {
    assert d * alpha + d * (1.0 - alpha) == d;
    assert d * (1.0 - alpha) >= 0.0;
  }

  /** Cutting a point g above x, in an interval that ends at t. */
  lemma Cut(x: int, t: int, g: real)
    requires x < t && 0.0 < g <= (t - x) as real
    ensures var y := Truncate(x as real + g);
            && x <= y <= t && (y == x <==> x >= 0 && g < 1.0)
            && (g < (t - x) as real && t > 0 ==> y < t) && (t <= 0 ==> y <= 0)
  {
    var v := x as real + g;
    if v >= 0.0 {
      assert v.Floor as real <= v < v.Floor as real + 1.0;
    } else {
      assert (-v).Floor as real <= -v < (-v).Floor as real + 1.0;
    }
  }

  /** One pull upwards. */
  lemma PullUp(x: int, t: int, alpha: real)
    requires x < t && 0.0 < alpha <= 1.0
    ensures x <= Pull(x, t, alpha) <= t
    ensures Pull(x, t, alpha) == x <==> x >= 0 && Weight(x, t, alpha) < 1.0
    ensures alpha < 1.0 && t > 0 ==> Pull(x, t, alpha) < t
    ensures t <= 0 ==> Pull(x, t, alpha) <= 0
  {
    hide Truncate, Gain, Weight;
    GainPart(x, t, alpha);
    Cut(x, t, Gain(x, t, alpha));
  }

  lemma PullSame(t: int, alpha: real)
    ensures Pull(t, t, alpha) == t && Weight(t, t, alpha) == 0.0
  {
    assert Gain(t, t, alpha) == 0.0;
  }

  /** y is v without its fraction, nearer to zero. */
  predicate WholePart(y: int, v: real) {
    (v >= 0.0 ==> 0.0 <= y as real <= v < y as real + 1.0) && (v <= 0.0 ==> y as real - 1.0 < v <= y as real <= 0.0)
  }

  /** The fraction alpha of the way from x to t. */
  function Partway(x: int, t: int, alpha: real): real {
    x as real + alpha * (t - x) as real
  }

  /** A pull goes the fraction alpha of the way, and what that gives is cut to a whole number. */
  lemma PullExactly(x: int, t: int, alpha: real, y: int)
    ensures Pull(x, t, alpha) == y <==> WholePart(y, Partway(x, t, alpha))
  {
    var v := Partway(x, t, alpha);
    assert Gain(x, t, alpha) == alpha * (t - x) as real;
    hide Gain;
    assert Pull(x, t, alpha) == Truncate(v);
    if v >= 0.0 {
      assert v.Floor as real <= v < v.Floor as real + 1.0;
    } else {
      assert (-v).Floor as real <= -v < (-v).Floor as real + 1.0;
    }
  }

  /** One pull never overshoots, so the error never grows. */
  lemma NoOvershoot(x: int, t: int, alpha: real)
    requires 0.0 < alpha <= 1.0
    ensures Between(Pull(x, t, alpha), x, t) && Abs(t - Pull(x, t, alpha)) <= Abs(t - x)
  {
    hide Pull, Weight;
    if x < t {
      PullUp(x, t, alpha);
    } else if x > t {
      Mirror(x, t, alpha);
      PullUp(-x, -t, alpha);
    } else {
      PullSame(t, alpha);
    }
  }

  /** Exactly where a pull changes nothing: at the target, or within 1/alpha on the inner side of it. */
  lemma Stuck(x: int, t: int, alpha: real)
    requires 0.0 < alpha <= 1.0
    ensures Pull(x, t, alpha) == x <==> x == t || (Inner(x, t) && Weight(x, t, alpha) < 1.0)
  {
    hide Pull, Weight;
    if x < t {
      PullUp(x, t, alpha);
    } else if x > t {
      Mirror(x, t, alpha);
      PullUp(-x, -t, alpha);
    } else {
      PullSame(t, alpha);
    }
  }

  /** While the error times alpha is at least one, each pull shrinks the error. */
  lemma Shrinks(x: int, t: int, alpha: real)
    requires 0.0 < alpha <= 1.0 && Weight(x, t, alpha) >= 1.0
    ensures Abs(t - Pull(x, t, alpha)) < Abs(t - x)
  {
    hide Pull, Weight;
    Stuck(x, t, alpha);
    PullSame(t, alpha);
    NoOvershoot(x, t, alpha);
  }

  /** A client at or beyond the target stays so, and comes strictly nearer until it is there. */
  lemma OuterNearer(x: int, t: int, alpha: real)
    requires 0.0 < alpha <= 1.0 && Outer(x, t)
    ensures Outer(Pull(x, t, alpha), t) && (x != t ==> Abs(t - Pull(x, t, alpha)) < Abs(t - x))
  {
    hide Pull, Weight;
    Stuck(x, t, alpha);
    NoOvershoot(x, t, alpha);
  }

  /** With alpha below one, a client not at or beyond the target never gets there. */
  lemma NeverOuter(x: int, t: int, alpha: real)
    requires 0.0 < alpha < 1.0 && !Outer(x, t)
    ensures !Outer(Pull(x, t, alpha), t)
  {
    hide Pull, Weight;
    NoOvershoot(x, t, alpha);
    if x < t {
      PullUp(x, t, alpha);
    } else {
      Mirror(x, t, alpha);
      PullUp(-x, -t, alpha);
    }
  }

  lemma {:induction false} PullsOuter(x: int, t: int, alpha: real, n: nat)
    requires 0.0 < alpha <= 1.0 && Outer(x, t)
    ensures var y := Pulls(x, t, alpha, n); Outer(y, t) && (y == t || Abs(t - y) + n <= Abs(t - x))
  {
    hide Pull;
    if n > 0 {
      PullsOuter(x, t, alpha, n - 1);
      OuterNearer(Pulls(x, t, alpha, n - 1), t, alpha);
      Stuck(t, t, alpha);
    }
  }

  lemma {:induction false} PullsNeverOuter(x: int, t: int, alpha: real, n: nat)
    requires 0.0 < alpha < 1.0 && !Outer(x, t)
    ensures !Outer(Pulls(x, t, alpha, n), t)
  {
    hide Pull;
    if n > 0 {
      PullsNeverOuter(x, t, alpha, n - 1);
      NeverOuter(Pulls(x, t, alpha, n - 1), t, alpha);
    }
  }

  lemma FullPull(x: int, t: int)
    ensures Pull(x, t, 1.0) == t
  {
  }

  /** Repeated pulls reach the target exactly when alpha is one or the client starts at or beyond it. */
  lemma Reaches(x: int, t: int, alpha: real)
    requires 0.0 < alpha <= 1.0
    ensures (exists n: nat :: n > 0 && Pulls(x, t, alpha, n) == t) <==> alpha == 1.0 || Outer(x, t)
  {
    if alpha == 1.0 {
      FullPull(x, t);
      assert Pulls(x, t, alpha, 1) == Pull(Pulls(x, t, alpha, 0), t, alpha);
    } else if Outer(x, t) {
      PullsOuter(x, t, alpha, Abs(t - x) + 1);
    } else {
      forall n: nat ensures Pulls(x, t, alpha, n) != t {
        PullsNeverOuter(x, t, alpha, n);
      }
    }
  }

  lemma {:induction false} PullsShrink(x: int, t: int, alpha: real, n: nat)
    requires 0.0 < alpha <= 1.0
    ensures var y := Pulls(x, t, alpha, n);
            Between(y, x, t) && (Pull(y, t, alpha) == y || Abs(t - y) + n <= Abs(t - x))
  {
    hide Pull;
    if n > 0 {
      var y := Pulls(x, t, alpha, n - 1);
      PullsShrink(x, t, alpha, n - 1);
      NoOvershoot(y, t, alpha);
    }
  }

  /** After as many pulls as the first error, nothing moves any more, and the error is below 1/alpha. */
  lemma Settles(x: int, t: int, alpha: real, n: nat)
    requires 0.0 < alpha <= 1.0 && n >= Abs(t - x)
    ensures var y := Pulls(x, t, alpha, n);
            Pull(y, t, alpha) == y && Weight(y, t, alpha) < 1.0 && Between(y, x, t)
  {
    hide Pull, Weight, Pulls;
    var y := Pulls(x, t, alpha, n);
    PullsShrink(x, t, alpha, n);
    Stuck(y, t, alpha);
    PullSame(t, alpha);
  }

  // ---- whole states ----

  function PullPoint(p: Point, t: Point, alpha: real): Point {
    Point(Pull(p.x, t.x, alpha), Pull(p.y, t.y, alpha))
  }

  /** The first player with the id, if there is one. */
  function Find(ps: seq<PlayerPos>, id: string): (i: nat)
    ensures i <= |ps| && (i < |ps| ==> ps[i].playerId == id)
    ensures forall j :: 0 <= j < i ==> ps[j].playerId != id
  {
    if ps == [] || ps[0].playerId == id then 0 else 1 + Find(ps[1..], id)
  }

  function PullOne(client: seq<PlayerPos>, ap: PlayerPos, alpha: real): seq<PlayerPos> {
    var i := Find(client, ap.playerId);
    if i == |client| then client + [ap]
    else client[i := client[i].(at := PullPoint(client[i].at, ap.at, alpha))]
  }

  function PullAll(client: seq<PlayerPos>, auth: seq<PlayerPos>, alpha: real): seq<PlayerPos> {
    if auth == [] then client
    else PullOne(PullAll(client, auth[..|auth| - 1], alpha), auth[|auth| - 1], alpha)
  }

  method ReconcileState(client: GameState, auth: GameState, alpha: real) returns (r: GameState)
    ensures r == GameState(auth.frameNo, PullAll(client.players, auth.players, alpha))
  {
    hide Pull;
    var players := client.players;
    for n := 0 to |auth.players|
      invariant players == PullAll(client.players, auth.players[..n], alpha)
    {
      var ap := auth.players[n];
      assert auth.players[..n + 1][..n] == auth.players[..n];
      var i := 0;
      while i < |players| && players[i].playerId != ap.playerId
        invariant i <= |players| && forall j :: 0 <= j < i ==> players[j].playerId != ap.playerId
      {
        i := i + 1;
      }
      assert i == Find(players, ap.playerId);
      if i == |players| {
        players := players + [ap];
      } else {
        var x := Pull(players[i].at.x, ap.at.x, alpha);
        var y := Pull(players[i].at.y, ap.at.y, alpha);
        players := players[i := players[i].(at := Point(x, y))];
      }
    }
    assert auth.players[..|auth.players|] == auth.players;
    r := GameState(auth.frameNo, players);
  }

  lemma {:induction false} UpdateMap(ps: seq<PlayerPos>, i: nat, at: Point)
    requires Distinct(ps) && i < |ps|
    ensures Distinct(ps[i := ps[i].(at := at)])
    ensures Positions(ps[i := ps[i].(at := at)]) == Positions(ps)[ps[i].playerId := at]
    ensures ps[i].playerId in Positions(ps) && Positions(ps)[ps[i].playerId] == ps[i].at
  {
    var qs := ps[i := ps[i].(at := at)];
    if i == 0 {
      assert qs[1..] == ps[1..];
    } else {
      UpdateMap(ps[1..], i - 1, at);
      assert qs[1..] == ps[1..][i - 1 := ps[1..][i - 1].(at := at)];
    }
  }

  lemma PullOneMap(client: seq<PlayerPos>, ap: PlayerPos, alpha: real)
    requires Distinct(client)
    ensures Distinct(PullOne(client, ap, alpha))
    ensures var m := Positions(client);
            Positions(PullOne(client, ap, alpha)) ==
            m[ap.playerId := if ap.playerId in m then PullPoint(m[ap.playerId], ap.at, alpha) else ap.at]
  {
    hide PullPoint, Positions, Distinct;
    var i := Find(client, ap.playerId);
    InPositions(client, ap.playerId);
    if i == |client| {
      AppendMap(client, ap);
    } else {
      UpdateMap(client, i, PullPoint(client[i].at, ap.at, alpha));
    }
  }

  /** The client's positions after one reconciliation, as a map. */
  ghost function PulledMap(m: map<string, Point>, auth: map<string, Point>, alpha: real): map<string, Point> {
    map id | id in m.Keys + auth.Keys ::
      if id !in auth then m[id] else if id in m then PullPoint(m[id], auth[id], alpha) else auth[id]
  }

  lemma PulledOne(m: map<string, Point>, auth: map<string, Point>, id: string, at: Point, alpha: real)
    requires id !in auth
    ensures PulledMap(m, auth[id := at], alpha) ==
            PulledMap(m, auth, alpha)[id := if id in m then PullPoint(m[id], at, alpha) else at]
    ensures id in PulledMap(m, auth, alpha) <==> id in m
    ensures id in m ==> PulledMap(m, auth, alpha)[id] == m[id]
  {
    hide PullPoint;
  }

  lemma PulledNone(client: seq<PlayerPos>, alpha: real)
    ensures PulledMap(Positions(client), Positions([]), alpha) == Positions(client)
  {
  }

  /**
   One reconciliation pulls each player both sides know once, on each axis, puts a player new to the client where
   the server has it, and leaves players the server does not know alone.
   */
  lemma {:induction false} PullAllMap(client: seq<PlayerPos>, auth: seq<PlayerPos>, alpha: real)
    requires Distinct(client) && Distinct(auth)
    ensures Distinct(PullAll(client, auth, alpha))
    ensures Positions(PullAll(client, auth, alpha)) == PulledMap(Positions(client), Positions(auth), alpha)
  {
    hide Positions, Distinct, PullPoint, PullOne, PulledMap;
    if auth == [] {
      PulledNone(client, alpha);
    } else {
      var before, ap := auth[..|auth| - 1], auth[|auth| - 1];
      assert before + [ap] == auth;
      DistinctInit(before, ap);
      PullAllMap(client, before, alpha);
      PullOneMap(PullAll(client, before, alpha), ap, alpha);
      AppendMap(before, ap);
      PulledOne(Positions(client), Positions(before), ap.playerId, ap.at, alpha);
    }
  }

  /** Where one reconciliation puts each player, on either axis. */
  lemma ReconciledExactly(client: seq<PlayerPos>, auth: seq<PlayerPos>, alpha: real, id: string)
    requires Distinct(client) && Distinct(auth)
    ensures var m, a, r := Positions(client), Positions(auth), Positions(PullAll(client, auth, alpha));
            && (id in r <==> id in m || id in a)
            && (id in m && id !in a ==> r[id] == m[id])
            && (id in a && id !in m ==> r[id] == a[id])
            && (id in m && id in a ==>
                  && WholePart(r[id].x, Partway(m[id].x, a[id].x, alpha))
                  && WholePart(r[id].y, Partway(m[id].y, a[id].y, alpha)))
  {
    PullAllMap(client, auth, alpha);
    var m, a, r := Positions(client), Positions(auth), Positions(PullAll(client, auth, alpha));
    hide Pull, WholePart, Partway, Positions, PullAll, Distinct;
    if id in m && id in a {
      assert r[id] == Point(Pull(m[id].x, a[id].x, alpha), Pull(m[id].y, a[id].y, alpha));
      hide PulledMap, PullPoint;
      PullExactly(m[id].x, a[id].x, alpha, r[id].x);
      PullExactly(m[id].y, a[id].y, alpha, r[id].y);
    }
  }

  lemma {:induction false} DistinctInit(ps: seq<PlayerPos>, p: PlayerPos)
    requires Distinct(ps + [p])
    ensures Distinct(ps) && p.playerId !in Positions(ps)
  {
    if ps != [] {
      assert (ps + [p])[1..] == ps[1..] + [p];
      DistinctInit(ps[1..], p);
      AppendMap(ps[1..], p);
    }
  }

  // ---- comparison ----

  datatype PlayerCorrection = PlayerCorrection(playerId: string, server: Point, client: Point, delta: Point)

  /** Where a state has a player; players it does not have count as (0, 0). */
  function Seen(ps: seq<PlayerPos>, id: string): Point {
    var i := Find(ps, id);
    if i < |ps| then ps[i].at else ORIGIN
  }

  predicate Differs(sp: PlayerPos, predicted: seq<PlayerPos>) {
    Find(predicted, sp.playerId) == |predicted| || Seen(predicted, sp.playerId) != sp.at
  }

  function Corrections(auth: seq<PlayerPos>, predicted: seq<PlayerPos>): seq<PlayerCorrection> {
    if auth == [] then [] else
    var sp := auth[|auth| - 1];
    var c := Seen(predicted, sp.playerId);
    Corrections(auth[..|auth| - 1], predicted)
    + (if Differs(sp, predicted) then
         [PlayerCorrection(sp.playerId, sp.at, c, Point(sp.at.x - c.x, sp.at.y - c.y))]
       else [])
  }

  method FindPlayerPos(ps: seq<PlayerPos>, id: string, x: int, y: int) returns (found: bool, x': int, y': int)
    ensures found == (Find(ps, id) < |ps|)
    ensures Point(x', y') == if found then ps[Find(ps, id)].at else Point(x, y)
  {
    for i := 0 to |ps|
      invariant forall j :: 0 <= j < i ==> ps[j].playerId != id
    {
      if ps[i].playerId == id {
        return true, ps[i].at.x, ps[i].at.y;
      }
    }
    return false, x, y;
  }

  method CompareStates(auth: GameState, predicted: GameState) returns (r: seq<PlayerCorrection>)
    ensures r == Corrections(auth.players, predicted.players)
  {
    r := [];
    for n := 0 to |auth.players|
      invariant r == Corrections(auth.players[..n], predicted.players)
    {
      var sp := auth.players[n];
      assert auth.players[..n + 1][..n] == auth.players[..n];
      var found, cx, cy := FindPlayerPos(predicted.players, sp.playerId, 0, 0);
      if !found || cx != sp.at.x || cy != sp.at.y {
        r := r + [PlayerCorrection(sp.playerId, sp.at, Point(cx, cy), Point(sp.at.x - cx, sp.at.y - cy))];
      }
    }
    assert auth.players[..|auth.players|] == auth.players;
  }

  /** There is nothing to correct exactly when the prediction has every player of the server where the server does. */
  lemma {:induction false} NothingToCorrect(auth: seq<PlayerPos>, predicted: seq<PlayerPos>)
    requires Distinct(predicted)
    ensures Corrections(auth, predicted) == [] <==>
            forall p :: p in auth ==> p.playerId in Positions(predicted) && Positions(predicted)[p.playerId] == p.at
  {
    if auth != [] {
      var before, sp := auth[..|auth| - 1], auth[|auth| - 1];
      NothingToCorrect(before, predicted);
      InPositions(predicted, sp.playerId);
      var i := Find(predicted, sp.playerId);
      if i < |predicted| {
        UpdateMap(predicted, i, ORIGIN);
      }
      hide Positions, Distinct;
      assert auth == before + [sp];
      assert forall p :: p in auth <==> p in before || p == sp;
    }
  }

  /** c is what to tell about the player p of the server: where both have it, and the way from one to the other. */
  predicate Corrects(c: PlayerCorrection, p: PlayerPos, predicted: map<string, Point>) {
    && c.playerId == p.playerId && c.server == p.at
    && c.client == (if p.playerId in predicted then predicted[p.playerId] else Point(0, 0))
    && c.client.x + c.delta.x == c.server.x && c.client.y + c.delta.y == c.server.y
  }

  predicate Wrong(p: PlayerPos, predicted: map<string, Point>) {
    p.playerId !in predicted || predicted[p.playerId] != p.at
  }

  /** The k-th correction is about the server's player at position from[k]. */
  ghost predicate ListedFrom(cs: seq<PlayerCorrection>, auth: seq<PlayerPos>, predicted: map<string, Point>,
                             from: seq<nat>) {
    && |from| == |cs|
    && (forall k :: 0 <= k < |cs| ==> from[k] < |auth| && Corrects(cs[k], auth[from[k]], predicted))
    && (forall k, l :: 0 <= k < l < |from| ==> from[k] < from[l])
    && (forall i :: 0 <= i < |auth| ==> (i in from <==> Wrong(auth[i], predicted)))
  }

  lemma SeenAt(predicted: seq<PlayerPos>, p: PlayerPos)
    requires Distinct(predicted)
    ensures Differs(p, predicted) <==> Wrong(p, Positions(predicted))
    ensures var m := Positions(predicted);
            Seen(predicted, p.playerId) == if p.playerId in m then m[p.playerId] else Point(0, 0)
  {
    InPositions(predicted, p.playerId);
    var i := Find(predicted, p.playerId);
    if i < |predicted| {
      UpdateMap(predicted, i, ORIGIN);
    }
    hide Positions, Distinct;
  }

  /** The corrections are one for each server player the prediction has wrong, in the server's order. */
  lemma {:induction false} CorrectionsExactly(auth: seq<PlayerPos>, predicted: seq<PlayerPos>)
    returns (from: seq<nat>)
    requires Distinct(predicted)
    ensures ListedFrom(Corrections(auth, predicted), auth, Positions(predicted), from)
  {
    if auth == [] {
      from := [];
    } else {
      var before, sp := auth[..|auth| - 1], auth[|auth| - 1];
      from := CorrectionsExactly(before, predicted);
      SeenAt(predicted, sp);
      hide Positions, Distinct, Differs, Wrong, Seen, ListedFrom;
      var cs, m := Corrections(before, predicted), Positions(predicted);
      assert auth == before + [sp];
      if Wrong(sp, m) {
        var c := Corrections(auth, predicted)[|cs|];
        assert Corrections(auth, predicted) == cs + [c];
        ListedMore(cs, before, m, from, sp, c);
        from := from + [|before|];
      } else {
        assert Corrections(auth, predicted) == cs;
        ListedSame(cs, before, m, from, sp);
      }
    }
  }

  lemma ListedMore(cs: seq<PlayerCorrection>, auth: seq<PlayerPos>, m: map<string, Point>, from: seq<nat>, p: PlayerPos,
                   c: PlayerCorrection)
    requires ListedFrom(cs, auth, m, from) && Wrong(p, m) && Corrects(c, p, m)
    ensures ListedFrom(cs + [c], auth + [p], m, from + [|auth|])
  {
    hide Corrects, Wrong;
    var from' := from + [|auth|];
    assert forall k :: 0 <= k < |from| ==> from[k] < |auth| && from'[k] == from[k];
    assert forall i :: i in from' <==> i in from || i == |auth|;
    assert forall i :: 0 <= i < |auth| ==> (auth + [p])[i] == auth[i];
  }

  lemma ListedSame(cs: seq<PlayerCorrection>, auth: seq<PlayerPos>, m: map<string, Point>, from: seq<nat>, p: PlayerPos)
    requires ListedFrom(cs, auth, m, from) && !Wrong(p, m)
    ensures ListedFrom(cs, auth + [p], m, from)
  {
    hide Corrects, Wrong;
    assert forall k :: 0 <= k < |from| ==> from[k] < |auth|;
    assert |auth| !in from;
    assert forall i :: 0 <= i < |auth| ==> (auth + [p])[i] == auth[i];
  }
}
