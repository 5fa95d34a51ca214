/**
 What the batch match promises.  On a queue sorted by score, the scan from the left that pairs neighbours takes as many
 pairs as any choice of neighbours could, and when everyone accepts the same difference, as many as any pairing at all.
 */
module Pairing {
  datatype Entry = Entry(playerId: string, score: real, enqueuedMs: int)

  datatype Config = Config(maxWaitSec: int, rangeInit: real, rangePerSec: real)

  /** CurrentEloRange at time `now`: it widens with the wait, up to a limit. */
  function RangeAt(cfg: Config, enqueuedMs: int, now: int): real {
    var waited := (now - enqueuedMs) as real / 1000.0;
    if waited >= cfg.maxWaitSec as real then cfg.rangeInit + cfg.rangePerSec * cfg.maxWaitSec as real
    else cfg.rangeInit + cfg.rangePerSec * waited
  }

  function Gap(a: Entry, b: Entry): real {
    if a.score < b.score then b.score - a.score else a.score - b.score
  }

  /** Each accepts the difference. */
  predicate Compatible(cfg: Config, a: Entry, b: Entry, now: int) {
    Gap(a, b) <= RangeAt(cfg, a.enqueuedMs, now) && Gap(a, b) <= RangeAt(cfg, b.enqueuedMs, now)
  }

  /** Ranges widen with the wait, so a pair once compatible stays compatible. */
  lemma CompatibleStays(cfg: Config, a: Entry, b: Entry, now: int, later: int)
    requires cfg.rangePerSec >= 0.0 && now <= later && Compatible(cfg, a, b, now)
    ensures Compatible(cfg, a, b, later)
  {
    RangeWidens(cfg, a.enqueuedMs, now, later);
    RangeWidens(cfg, b.enqueuedMs, now, later);
  }

  /** The range grows with the wait up to its value at the longest wait that counts. */
  lemma RangeWidens(cfg: Config, enqueuedMs: int, now: int, later: int)
    requires cfg.rangePerSec >= 0.0 && now <= later
    ensures RangeAt(cfg, enqueuedMs, now) <= RangeAt(cfg, enqueuedMs, later)
            <= cfg.rangeInit + cfg.rangePerSec * cfg.maxWaitSec as real
  {
    var w, v, max := (now - enqueuedMs) as real / 1000.0, (later - enqueuedMs) as real / 1000.0, cfg.maxWaitSec as real;
    assert w <= v;
    Scaled(cfg.rangePerSec, if w < max then w else max, if v < max then v else max);
    Scaled(cfg.rangePerSec, if v < max then v else max, max);
  }

  lemma Scaled(k: real, x: real, y: real)
    requires k >= 0.0 && x <= y
    ensures k * x <= k * y
  {
  }

  /** The milliseconds of waiting that count: no more than the longest wait. */
  function Waited(cfg: Config, e: Entry, now: int): int {
    if now - e.enqueuedMs >= 1000 * cfg.maxWaitSec then 1000 * cfg.maxWaitSec else now - e.enqueuedMs
  }

  /** The score difference is within the first range and what the wait has added to it, per second. */
  predicate Accepts(cfg: Config, e: Entry, diff: real, now: int) {
    1000.0 * (diff - cfg.rangeInit) <= cfg.rangePerSec * Waited(cfg, e, now) as real
  }

  lemma RangeExactly(cfg: Config, e: Entry, diff: real, now: int)
    ensures diff <= RangeAt(cfg, e.enqueuedMs, now) <==> Accepts(cfg, e, diff, now)
  {
    var waited := (now - e.enqueuedMs) as real / 1000.0;
    assert waited >= cfg.maxWaitSec as real <==> now - e.enqueuedMs >= 1000 * cfg.maxWaitSec;
    var counted := if waited >= cfg.maxWaitSec as real then cfg.maxWaitSec as real else waited;
    assert 1000.0 * counted == Waited(cfg, e, now) as real;
    assert RangeAt(cfg, e.enqueuedMs, now) == cfg.rangeInit + cfg.rangePerSec * counted;
    Thousand(cfg.rangePerSec, counted);
  }

  lemma Thousand(k: real, x: real)
    ensures k * (1000.0 * x) == 1000.0 * (k * x)
  {
  }

  /** Two players can be paired exactly when each accepts the difference of their scores after its wait. */
  lemma CompatibleExactly(cfg: Config, a: Entry, b: Entry, now: int)
    ensures Compatible(cfg, a, b, now) <==>
            && Accepts(cfg, a, a.score - b.score, now) && Accepts(cfg, a, b.score - a.score, now)
            && Accepts(cfg, b, a.score - b.score, now) && Accepts(cfg, b, b.score - a.score, now)
  {
    RangeExactly(cfg, a, a.score - b.score, now);
    RangeExactly(cfg, a, b.score - a.score, now);
    RangeExactly(cfg, b, a.score - b.score, now);
    RangeExactly(cfg, b, b.score - a.score, now);
    hide RangeAt, Accepts;
  }

  /** Queued together, they can be paired from a moment on that the difference of their scores decides, or never. */
  lemma QueuedTogether(cfg: Config, a: Entry, b: Entry, now: int)
    requires a.enqueuedMs == b.enqueuedMs && a.score <= b.score && a.enqueuedMs <= now && cfg.rangePerSec > 0.0
    ensures now - a.enqueuedMs <= 1000 * cfg.maxWaitSec ==>
              (Compatible(cfg, a, b, now) <==>
                 1000.0 * (b.score - a.score - cfg.rangeInit) <= cfg.rangePerSec * (now - a.enqueuedMs) as real)
    ensures now - a.enqueuedMs >= 1000 * cfg.maxWaitSec ==>
              (Compatible(cfg, a, b, now) <==>
                 b.score - a.score <= cfg.rangeInit + cfg.rangePerSec * cfg.maxWaitSec as real)
  {
    RangeExactly(cfg, a, b.score - a.score, now);
    RangeExactly(cfg, b, b.score - a.score, now);
    Thousand(cfg.rangePerSec, cfg.maxWaitSec as real);
    assert Gap(a, b) == b.score - a.score;
    hide RangeAt;
  }

  predicate Sorted(q: seq<Entry>) {
    forall i, j :: 0 <= i < j < |q| ==> q[i].score <= q[j].score
  }

  predicate UniqueIds(q: seq<Entry>) {
    forall i, j :: 0 <= i < j < |q| ==> q[i].playerId != q[j].playerId
  }

  // ---- the scan ----

  predicate Adjacent(cfg: Config, q: seq<Entry>, now: int, i: nat) {
    i + 1 < |q| && Compatible(cfg, q[i], q[i + 1], now)
  }

  /** Where the pairs start that the scan takes from position i on. */
  function Scan(cfg: Config, q: seq<Entry>, now: int, i: nat): seq<nat>
    decreases |q| - i
  {
    if i + 1 >= |q| then []
    else if Adjacent(cfg, q, now, i) then [i] + Scan(cfg, q, now, i + 2)
    else Scan(cfg, q, now, i + 1)
  }

  /** Disjoint compatible pairs of neighbours at or after position i. */
  ghost predicate Neighbours(cfg: Config, q: seq<Entry>, now: int, i: nat, ps: seq<nat>) {
    && (forall k :: 0 <= k < |ps| ==> ps[k] >= i && Adjacent(cfg, q, now, ps[k]))
    && (forall k, l :: 0 <= k < l < |ps| ==> ps[k] + 2 <= ps[l])
  }

  lemma {:induction false} ScanTakes(cfg: Config, q: seq<Entry>, now: int, i: nat)
    ensures Neighbours(cfg, q, now, i, Scan(cfg, q, now, i))
    decreases |q| - i
  {
    hide Compatible;
    if i + 1 < |q| {
      if Adjacent(cfg, q, now, i) {
        ScanTakes(cfg, q, now, i + 2);
      } else {
        ScanTakes(cfg, q, now, i + 1);
      }
    }
  }

  /** No choice of neighbours has more pairs than the scan takes. */
  lemma {:induction false} ScanMostNeighbours(cfg: Config, q: seq<Entry>, now: int, i: nat, ps: seq<nat>)
    requires Neighbours(cfg, q, now, i, ps)
    ensures |ps| <= |Scan(cfg, q, now, i)|
    decreases |q| - i
  {
    hide Compatible;
    if ps != [] && i + 1 < |q| {
      assert Adjacent(cfg, q, now, ps[0]) && forall k :: 0 < k < |ps| ==> ps[0] + 2 <= ps[k];
      if Adjacent(cfg, q, now, i) {
        ScanMostNeighbours(cfg, q, now, i + 2, ps[1..]);
      } else {
        ScanMostNeighbours(cfg, q, now, i + 1, ps);
      }
    }
    assert ps != [] ==> Adjacent(cfg, q, now, ps[0]);
  }

  // ---- against all pairings ----

  /** Disjoint compatible pairs of any two positions at or after i. */
  ghost predicate AnyPairs(cfg: Config, q: seq<Entry>, now: int, i: nat, ps: set<(nat, nat)>) {
    && (forall p :: p in ps ==> i <= p.0 < p.1 < |q| && Compatible(cfg, q[p.0], q[p.1], now))
    && (forall p, r :: p in ps && r in ps && p != r ==> Apart(p, r))
  }

  predicate Apart(p: (nat, nat), r: (nat, nat)) {
    p.0 != r.0 && p.0 != r.1 && p.1 != r.0 && p.1 != r.1
  }

  ghost predicate EqualRanges(cfg: Config, q: seq<Entry>, now: int, range: real) {
    forall k :: 0 <= k < |q| ==> RangeAt(cfg, q[k].enqueuedMs, now) == range
  }

  lemma PairsWithin(cfg: Config, q: seq<Entry>, now: int, range: real, a: nat, b: nat)
    requires Sorted(q) && EqualRanges(cfg, q, now, range) && a < b < |q|
    ensures Compatible(cfg, q[a], q[b], now) <==> q[b].score - q[a].score <= range
  {
  }

  predicate Touches(p: (nat, nat), i: nat) {
    p.0 == i || p.1 == i
  }

  /** A first position without a compatible neighbour is in no pair at all. */
  lemma Unpairable(cfg: Config, q: seq<Entry>, now: int, range: real, i: nat, ps: set<(nat, nat)>)
    requires Sorted(q) && EqualRanges(cfg, q, now, range) && AnyPairs(cfg, q, now, i, ps)
    requires i + 1 < |q| && !Adjacent(cfg, q, now, i)
    ensures AnyPairs(cfg, q, now, i + 1, ps)
  {
    forall p | p in ps ensures p.0 >= i + 1 {
      PairsWithin(cfg, q, now, range, p.0, p.1);
      PairsWithin(cfg, q, now, range, i, i + 1);
    }
  }

  /** The partners of two neighbours are close enough to each other. */
  lemma PartnersClose(cfg: Config, q: seq<Entry>, now: int, range: real, i: nat, x: nat, y: nat)
    requires Sorted(q) && EqualRanges(cfg, q, now, range)
    requires i + 2 <= x < |q| && i + 2 <= y < |q| && x != y
    requires Compatible(cfg, q[i], q[x], now) && Compatible(cfg, q[i + 1], q[y], now)
    ensures Compatible(cfg, q[if x < y then x else y], q[if x < y then y else x], now)
  {
    PairsWithin(cfg, q, now, range, i, x);
    PairsWithin(cfg, q, now, range, i + 1, y);
    PairsWithin(cfg, q, now, range, if x < y then x else y, if x < y then y else x);
    assert q[i].score <= q[i + 1].score <= q[x].score && q[i + 1].score <= q[y].score;
  }

  /** Leaving out the pairs that touch the first two positions. */
  lemma WithoutPairs(cfg: Config, q: seq<Entry>, now: int, i: nat, ps: set<(nat, nat)>, gone: set<(nat, nat)>)
    requires AnyPairs(cfg, q, now, i, ps)
    requires forall s :: s in ps && s !in gone ==> !Touches(s, i) && !Touches(s, i + 1)
    ensures AnyPairs(cfg, q, now, i + 2, ps - gone)
  {
    hide Compatible, Apart;
  }

  lemma WithPair(cfg: Config, q: seq<Entry>, now: int, i: nat, ps: set<(nat, nat)>, s: (nat, nat))
    requires AnyPairs(cfg, q, now, i, ps) && i <= s.0 < s.1 < |q| && Compatible(cfg, q[s.0], q[s.1], now)
    requires forall p :: p in ps ==> Apart(p, s) && Apart(s, p)
    ensures AnyPairs(cfg, q, now, i, ps + {s})
  {
    hide Compatible, Apart;
  }

  /**
   Exchange.  When the first two positions are compatible, any pairing can give up one pair and go on without them: if
   both were paired elsewhere, their partners are close enough to be paired with each other.
   */
  lemma Exchange(cfg: Config, q: seq<Entry>, now: int, range: real, i: nat, ps: set<(nat, nat)>)
    returns (rest: set<(nat, nat)>)
    requires Sorted(q) && EqualRanges(cfg, q, now, range) && AnyPairs(cfg, q, now, i, ps)
    requires Adjacent(cfg, q, now, i)
    ensures AnyPairs(cfg, q, now, i + 2, rest) && |ps| <= |rest| + 1
  {
    var touching := set s | s in ps && (Touches(s, i) || Touches(s, i + 1));
    rest := ps - touching;
    WithoutPairs(cfg, q, now, i, ps, touching);
    assert |ps| == |rest| + |touching| by { SplitSize(ps, touching); }
    hide Compatible, EqualRanges, Sorted, Apart, Touches;
    if |touching| > 1 {
      var p, r := TwoTouching(cfg, q, now, i, ps, touching);
      PartnersClose(cfg, q, now, range, i, p.1, r.1);
      assert forall s :: s in rest ==> Apart(p, s) && Apart(r, s);
      rest := PartnersJoined(cfg, q, now, i + 2, rest, p, r);
    }
  }

  lemma PartnersJoined(cfg: Config, q: seq<Entry>, now: int, i: nat, ps: set<(nat, nat)>, p: (nat, nat),
                       r: (nat, nat))
    returns (more: set<(nat, nat)>)
    requires AnyPairs(cfg, q, now, i, ps) && forall s :: s in ps ==> Apart(p, s) && Apart(r, s)
    requires i <= p.1 < |q| && i <= r.1 < |q| && p.1 != r.1
    requires Compatible(cfg, q[if p.1 < r.1 then p.1 else r.1], q[if p.1 < r.1 then r.1 else p.1], now)
    ensures AnyPairs(cfg, q, now, i, more) && |more| == |ps| + 1
  {
    hide Compatible, AnyPairs;
    var both := if p.1 < r.1 then (p.1, r.1) else (r.1, p.1);
    assert forall s :: s in ps ==> Apart(s, both) && Apart(both, s) && s != both;
    WithPair(cfg, q, now, i, ps, both);
    more := ps + {both};
  }

  lemma SplitSize<T>(a: set<T>, b: set<T>)
    requires b <= a
    ensures |a| == |a - b| + |b|
  {
    assert a == (a - b) + b;
  }

  /** More than one pair touches the first two positions: then exactly two do, one at each. */
  lemma TwoTouching(cfg: Config, q: seq<Entry>, now: int, i: nat, ps: set<(nat, nat)>, touching: set<(nat, nat)>)
    returns (p: (nat, nat), r: (nat, nat))
    requires AnyPairs(cfg, q, now, i, ps) && i + 1 < |q| && |touching| > 1
    requires touching == set s | s in ps && (Touches(s, i) || Touches(s, i + 1))
    ensures p in ps && r in ps && p.0 == i && r.0 == i + 1 && p.1 >= i + 2 && r.1 >= i + 2 && p.1 != r.1
    ensures touching == {p, r} && |touching| == 2
  {
    hide Compatible;
    var a :| a in touching;
    assert |touching - {a}| > 0;
    var b :| b in touching - {a};
    assert Apart(a, b) && Apart(b, a);
    p, r := if Touches(a, i) then a else b, if Touches(a, i) then b else a;
    assert forall s :: s in ps && s != a ==> Apart(a, s);
    assert forall s :: s in ps && s != b ==> Apart(b, s);
    assert forall s :: s in touching ==> s == a || s == b;
    assert touching == {p, r};
  }

  /** With equal ranges no pairing whatever has more pairs than the scan takes. */
  lemma {:induction false} ScanMostPairs(cfg: Config, q: seq<Entry>, now: int, range: real, i: nat,
                                         ps: set<(nat, nat)>)
    requires Sorted(q) && EqualRanges(cfg, q, now, range) && AnyPairs(cfg, q, now, i, ps)
    ensures |ps| <= |Scan(cfg, q, now, i)|
    decreases |q| - i
  {
    if i + 1 >= |q| {
      assert forall p :: p in ps ==> i <= p.0 < p.1 < |q|;
      assert ps == {};
    } else {
      hide Compatible, EqualRanges, AnyPairs, Sorted;
      if Adjacent(cfg, q, now, i) {
        var rest := Exchange(cfg, q, now, range, i, ps);
        ScanMostPairs(cfg, q, now, range, i + 2, rest);
      } else {
        Unpairable(cfg, q, now, range, i, ps);
        ScanMostPairs(cfg, q, now, range, i + 1, ps);
      }
    }
  }

  /** With unequal ranges it need not be: here the outer two are compatible, and no neighbours are. */
  lemma UnequalRanges()
    ensures exists cfg, q, now, ps: set<(nat, nat)> ::
              Sorted(q) && UniqueIds(q) && AnyPairs(cfg, q, now, 0, ps) && |ps| > |Scan(cfg, q, now, 0)|
  {
    var cfg := Config(30, 0.5, 1.0);
    var q := [Entry("a", 0.0, 0), Entry("b", 1.0, 10000), Entry("c", 2.0, 0)];
    var ps: set<(nat, nat)> := {(0, 2)};
    assert RangeAt(cfg, 0, 10000) == 10.5 && RangeAt(cfg, 10000, 10000) == 0.5;
    assert AnyPairs(cfg, q, 10000, 0, ps);
    assert !Adjacent(cfg, q, 10000, 0) && !Adjacent(cfg, q, 10000, 1);
    assert Scan(cfg, q, 10000, 1) == [] && Scan(cfg, q, 10000, 0) == [];
    assert |ps| == 1;
    assert "a" != "b" && "b" != "c" && "a" != "c";
  }
}
