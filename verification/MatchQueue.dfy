/** The match queue: entries sorted by score, each player once, matched singly or by a scan of the whole queue. */
module MatchQueues {
  import opened Wrappers
  import opened Pairing

  /** What on_match_ is called with. */
  datatype Call = Call(p1: string, s1: real, p2: string, s2: real)

  function CallFor(a: Entry, b: Entry): Call {
    Call(a.playerId, a.score, b.playerId, b.score)
  }

  /** The calls for the pairs of neighbours that start at these positions. */
  function CallsFor(q: seq<Entry>, starts: seq<nat>): (r: seq<Call>)
    requires forall k :: 0 <= k < |starts| ==> starts[k] + 1 < |q|
    ensures |r| == |starts|
  {
    seq(|starts|, k requires 0 <= k < |starts| => CallFor(q[starts[k]], q[starts[k] + 1]))
  }

  function NamesOf(calls: seq<Call>): seq<(string, string)> {
    seq(|calls|, k requires 0 <= k < |calls| => (calls[k].p1, calls[k].p2))
  }

  /** Position k belongs to a pair that starts at one of these positions. */
  predicate Covered(starts: seq<nat>, k: nat) {
    k in starts || (k > 0 && k - 1 in starts)
  }

  /** The entries of q from position i on that are in no pair, in order. */
  function Unpaired(q: seq<Entry>, starts: seq<nat>, i: nat): seq<Entry>
    decreases |q| - i
  {
    if i >= |q| then []
    else (if Covered(starts, i) then [] else [q[i]]) + Unpaired(q, starts, i + 1)
  }

  ghost predicate Proper(q: seq<Entry>) {
    Sorted(q) && UniqueIds(q)
  }

  /** e stands at an unpaired position from i on. */
  ghost predicate LeftOver(q: seq<Entry>, starts: seq<nat>, i: nat, e: Entry) {
    exists k :: i <= k < |q| && q[k] == e && !Covered(starts, k)
  }

  lemma {:induction false} UnpairedMembers(q: seq<Entry>, starts: seq<nat>, i: nat)
    ensures forall e :: e in Unpaired(q, starts, i) <==> LeftOver(q, starts, i, e)
    decreases |q| - i
  {
    hide Covered;
    if i < |q| {
      UnpairedMembers(q, starts, i + 1);
      var rest := Unpaired(q, starts, i + 1);
      forall e
        ensures LeftOver(q, starts, i, e) <==> LeftOver(q, starts, i + 1, e) || (e == q[i] && !Covered(starts, i))
      {
        if k :| i <= k < |q| && q[k] == e && !Covered(starts, k) {
          assert k == i || LeftOver(q, starts, i + 1, e);
        }
      }
    }
  }

  lemma ConsProper(x: Entry, rest: seq<Entry>)
    requires Proper(rest) && forall e :: e in rest ==> x.score <= e.score && x.playerId != e.playerId
    ensures Proper([x] + rest)
  {
  }

  /** What is left is a part of the queue, in order. */
  lemma {:induction false} UnpairedProper(q: seq<Entry>, starts: seq<nat>, i: nat)
    requires Proper(q)
    ensures Proper(Unpaired(q, starts, i))
    decreases |q| - i
  {
    if i < |q| {
      UnpairedProper(q, starts, i + 1);
      UnpairedMembers(q, starts, i + 1);
      var rest := Unpaired(q, starts, i + 1);
      forall e | e in rest ensures q[i].score <= e.score && q[i].playerId != e.playerId {
        assert LeftOver(q, starts, i + 1, e);
      }
      hide Covered, Proper, LeftOver;
      ConsProper(q[i], rest);
      assert [] + rest == rest;
    } else {
      assert Unpaired(q, starts, i) == [];
    }
  }

  function IndexOf(q: seq<Entry>, id: string): (i: nat)
    ensures i <= |q| && (i < |q| ==> q[i].playerId == id)
    ensures forall j :: 0 <= j < i ==> q[j].playerId != id
  {
    if q == [] || q[0].playerId == id then 0 else 1 + IndexOf(q[1..], id)
  }

  function Queued(q: seq<Entry>, id: string): bool {
    IndexOf(q, id) < |q|
  }

  /** e is an opponent the player at i accepts. */
  predicate Candidate(cfg: Config, q: seq<Entry>, now: int, i: nat, k: nat)
    requires i < |q|
  {
    k < |q| && k != i && Gap(q[k], q[i]) <= RangeAt(cfg, q[i].enqueuedMs, now)
  }

  function Without(q: seq<Entry>, k: nat): seq<Entry>
    requires k < |q|
  {
    q[..k] + q[k + 1..]
  }

  /** r is q with some entries left out, or with their places shifted by f; order and uniqueness carry over. */
  lemma PartProper(q: seq<Entry>, r: seq<Entry>, f: nat -> nat)
    requires Proper(q) && forall j: nat :: j < |r| ==> f(j) < |q| && r[j] == q[f(j)]
    requires forall i: nat, j: nat :: i < j < |r| ==> f(i) < f(j)
    ensures Proper(r)
  {
  }

  lemma WithoutProper(q: seq<Entry>, k: nat)
    requires Proper(q) && k < |q|
    ensures Proper(Without(q, k)) && forall e :: e in Without(q, k) <==> e in q && e != q[k]
  {
    var r := Without(q, k);
    PartProper(q, r, j => if j < k then j else j + 1);
    var a, b := q[..k], q[k + 1..];
    assert forall j :: 0 <= j < k ==> a[j].playerId != q[k].playerId;
    assert forall j :: 0 <= j < |b| ==> b[j] == q[k + 1 + j] && b[j].playerId != q[k].playerId;
    hide Proper, Sorted, UniqueIds;
    assert q == a + [q[k]] + b;
  }

  lemma InsertProper(q: seq<Entry>, e: Entry, k: nat)
    requires Proper(q) && k <= |q| && !Queued(q, e.playerId)
    requires (forall j :: 0 <= j < k ==> q[j].score <= e.score) && forall j :: k <= j < |q| ==> e.score <= q[j].score
    ensures var r := q[..k] + [e] + q[k..]; Proper(r) && forall x :: x in r <==> x in q || x == e
  {
    var r := q[..k] + [e] + q[k..];
    assert q == q[..k] + q[k..];
    InsertSorted(q, e, k);
    InsertUnique(q, e, k);
  }

  lemma InsertSorted(q: seq<Entry>, e: Entry, k: nat)
    requires Sorted(q) && k <= |q|
    requires (forall j :: 0 <= j < k ==> q[j].score <= e.score) && forall j :: k <= j < |q| ==> e.score <= q[j].score
    ensures Sorted(q[..k] + [e] + q[k..])
  {
    var r := q[..k] + [e] + q[k..];
    assert forall j :: 0 <= j < |r| ==> r[j] == if j < k then q[j] else if j == k then e else q[j - 1];
  }

  lemma InsertUnique(q: seq<Entry>, e: Entry, k: nat)
    requires UniqueIds(q) && k <= |q| && !Queued(q, e.playerId)
    ensures UniqueIds(q[..k] + [e] + q[k..])
  {
    var r := q[..k] + [e] + q[k..];
    assert forall j :: 0 <= j < |q| ==> q[j].playerId != e.playerId;
    hide IndexOf, Queued;
    assert forall j :: 0 <= j < |r| ==> r[j] == if j < k then q[j] else if j == k then e else q[j - 1];
  }

  lemma IndexOfAt(q: seq<Entry>, k: nat)
    requires UniqueIds(q) && k < |q|
    ensures IndexOf(q, q[k].playerId) == k
  {
    var i := IndexOf(q, q[k].playerId);
  }

  /** Erasing position i, if paired, from a queue whose later positions are dealt with. */
  lemma EraseStep(was: seq<Entry>, starts: seq<nat>, i: nat, q: seq<Entry>)
    requires i < |was| && q == was[..i + 1] + Unpaired(was, starts, i + 1)
    ensures (if Covered(starts, i) then q[..i] + q[i + 1..] else q) == was[..i] + Unpaired(was, starts, i)
  {
    hide Covered;
    var rest := Unpaired(was, starts, i + 1);
    assert was[..i + 1] == was[..i] + [was[i]];
    assert q[..i] == was[..i] && q[i + 1..] == rest;
    assert was[..i] + ([was[i]] + rest) == q;
    assert was[..i] + ([] + rest) == q[..i] + q[i + 1..];
  }

  /** The call is made of the entries that bear the names. */
  predicate LooksUp(q: seq<Entry>, names: (string, string), call: Call) {
    Queued(q, names.0) && Queued(q, names.1) && call == CallFor(q[IndexOf(q, names.0)], q[IndexOf(q, names.1)])
  }

  lemma LookedUp(q: seq<Entry>, i: nat, call: Call)
    requires UniqueIds(q) && i + 1 < |q| && LooksUp(q, (q[i].playerId, q[i + 1].playerId), call)
    ensures call == CallFor(q[i], q[i + 1])
  {
    IndexOfAt(q, i);
    IndexOfAt(q, i + 1);
  }

  /** Looking the names of pairs up by id gives the scores of the pairs. */
  lemma CallsLooked(q: seq<Entry>, starts: seq<nat>, calls: seq<Call>)
    requires UniqueIds(q) && forall k :: 0 <= k < |starts| ==> starts[k] + 1 < |q|
    requires |calls| == |starts|
    requires forall k :: 0 <= k < |calls| ==> LooksUp(q, NamesOf(CallsFor(q, starts))[k], calls[k])
    ensures calls == CallsFor(q, starts)
  {
    hide UniqueIds, LooksUp;
    forall k | 0 <= k < |calls| ensures calls[k] == CallsFor(q, starts)[k] {
      assert NamesOf(CallsFor(q, starts))[k] == (q[starts[k]].playerId, q[starts[k] + 1].playerId);
      LookedUp(q, starts[k], calls[k]);
    }
  }

  lemma NamesAppend(q: seq<Entry>, taken: seq<nat>, i: nat)
    requires i + 1 < |q| && forall k :: 0 <= k < |taken| ==> taken[k] + 1 < |q|
    ensures NamesOf(CallsFor(q, taken + [i])) == NamesOf(CallsFor(q, taken)) + [(q[i].playerId, q[i + 1].playerId)]
  {
  }

  lemma CoveredAppend(taken: seq<nat>, i: nat)
    ensures forall k :: Covered(taken + [i], k) <==> Covered(taken, k) || k == i || k == i + 1
  {
    assert forall k :: k in taken + [i] <==> k in taken || k == i;
  }

  /** r is q with e before all entries whose score is not less than its own. */
  ghost predicate Inserted(q: seq<Entry>, e: Entry, r: seq<Entry>) {
    exists k :: 0 <= k <= |q| && r == q[..k] + [e] + q[k..]
                && (forall j :: 0 <= j < k ==> q[j].score < e.score)
                && forall j :: k <= j < |q| ==> e.score <= q[j].score
  }

  /** q without the entries at i and k, the others in order. */
  function WithoutBoth(q: seq<Entry>, i: nat, k: nat): seq<Entry>
    requires i < |q| && k < |q| && i != k
  {
    if i > k then Without(Without(q, i), k) else Without(Without(q, k), i)
  }

  /** Each call names the two of its pair, each with its own score, as does the list handed back. */
  ghost predicate CallsNeighbours(q: seq<Entry>, starts: seq<nat>, matched: seq<(string, string)>, calls: seq<Call>) {
    && |matched| == |starts| && |calls| == |starts|
    && forall k :: 0 <= k < |starts| ==>
         starts[k] + 1 < |q|
         && var a, b := q[starts[k]], q[starts[k] + 1];
            matched[k] == (a.playerId, b.playerId) && calls[k] == Call(a.playerId, a.score, b.playerId, b.score)
  }

  class MatchQueue {
    var queue: seq<Entry>
    const cfg: Config

    ghost predicate Valid()
      reads this
    {
      Proper(queue)
    }

    constructor (cfg: Config)
      ensures Valid() && queue == [] && this.cfg == cfg
    {
      queue, this.cfg := [], cfg;
    }

    method FindIndex(id: string) returns (i: int)
      ensures i == if Queued(queue, id) then IndexOf(queue, id) else -1
    {
      for k := 0 to |queue|
        invariant forall j :: 0 <= j < k ==> queue[j].playerId != id
      {
        if queue[k].playerId == id {
          return k;
        }
      }
      return -1;
    }

    /** Stands for std::sort by score. */
    static method SortByScore(q: seq<Entry>) returns (r: seq<Entry>)
      requires UniqueIds(q)
      ensures Proper(r) && forall e :: e in r <==> e in q
    {
      r := [];
      for n := 0 to |q|
        invariant Proper(r) && forall e :: e in r <==> e in q[..n]
      {
        var k := LowerBound(r, q[n].score);
        assert forall j :: 0 <= j < |r| ==> r[j] in q[..n] && r[j].playerId != q[n].playerId;
        InsertProper(r, q[n], k);
        assert q[..n + 1] == q[..n] + [q[n]];
        r := r[..k] + [q[n]] + r[k..];
      }
      assert q[..|q|] == q;
    }

    /** std::lower_bound by score. */
    static method LowerBound(q: seq<Entry>, score: real) returns (i: nat)
      requires Sorted(q)
      ensures i <= |q| && (forall j :: 0 <= j < i ==> q[j].score < score)
      ensures forall j :: i <= j < |q| ==> score <= q[j].score
    {
      i := 0;
      var hi := |q|;
      while i < hi
        invariant i <= hi <= |q|
        invariant (forall j :: 0 <= j < i ==> q[j].score < score) && forall j :: hi <= j < |q| ==> score <= q[j].score
      {
        var mid := (i + hi) / 2;
        if q[mid].score < score {
          i := mid + 1;
        } else {
          hi := mid;
        }
      }
    }

    method EnterQueue(id: string, score: real, now: int)
      requires Valid()
      modifies this
      ensures Valid()
      ensures var was := old(queue);
              var e := Entry(id, score, if Queued(was, id) then was[IndexOf(was, id)].enqueuedMs else now);
              (forall x :: x in queue <==> x == e || (x in was && x.playerId != id))
              && (!Queued(was, id) ==> Inserted(was, e, queue))
    {
      var idx := FindIndex(id);
      if idx >= 0 {
        var q := queue[idx := queue[idx].(score := score)];
        assert forall j :: 0 <= j < |q| ==> q[j].playerId == queue[j].playerId;
        Replaced(queue, idx, score);
        queue := SortByScore(q);
        return;
      }
      var e := Entry(id, score, now);
      var k := LowerBound(queue, score);
      InsertProper(queue, e, k);
      queue := queue[..k] + [e] + queue[k..];
    }

    static lemma Replaced(q: seq<Entry>, i: nat, score: real)
      requires UniqueIds(q) && i < |q|
      ensures var r := q[i := q[i].(score := score)];
              forall x :: x in r <==> x == r[i] || (x in q && x.playerId != q[i].playerId)
    {
      var r := q[i := q[i].(score := score)];
      forall x | x in q && x.playerId != q[i].playerId ensures x in r {
        var k :| 0 <= k < |q| && q[k] == x;
        assert r[k] == x;
      }
      forall x | x in r ensures x == r[i] || (x in q && x.playerId != q[i].playerId) {
        var k :| 0 <= k < |r| && r[k] == x;
        assert k != i ==> q[k] == x && q[k].playerId != q[i].playerId;
      }
    }

    method CancelMatch(id: string)
      requires Valid()
      modifies this
      ensures Valid()
      ensures queue == if Queued(old(queue), id) then Without(old(queue), IndexOf(old(queue), id)) else old(queue)
    {
      var idx := FindIndex(id);
      if idx >= 0 {
        WithoutProper(queue, idx);
        queue := Without(queue, idx);
      }
    }

    /** The opponent's id with the callback made, or nothing. */
    method FindMatch(id: string, now: int) returns (opponent: Option<string>, call: Option<Call>)
      requires Valid()
      modifies this
      ensures Valid() && (opponent.Some? <==> call.Some?)
      ensures opponent.None? ==>
                queue == old(queue) &&
                (Queued(queue, id) ==> forall k: nat :: !Candidate(cfg, queue, now, IndexOf(queue, id), k))
      ensures opponent.Some? ==>
                var was := old(queue); var i, k := IndexOf(was, id), IndexOf(was, opponent.value);
                && i < |was| && k < |was| && Candidate(cfg, was, now, i, k)
                && (forall l: nat :: Candidate(cfg, was, now, i, l) ==>
                      if l < k then Gap(was[k], was[i]) < Gap(was[l], was[i])
                      else Gap(was[k], was[i]) <= Gap(was[l], was[i]))
                && call == Some(Call(id, was[i].score, opponent.value, was[k].score))
                && (forall x :: x in queue <==> x in was && x != was[i] && x != was[k])
                && queue == WithoutBoth(was, i, k)
    {
      hide Sorted, RangeAt, IndexOf;
      var idx := FindIndex(id);
      if idx < 0 {
        return None, None;
      }
      var best := -1;
      for k := 0 to |queue|
        invariant -1 <= best < k
        invariant best >= 0 ==> Candidate(cfg, queue, now, idx, best)
        invariant forall l: nat :: l < k && Candidate(cfg, queue, now, idx, l) ==>
                    best >= 0 && Gap(queue[best], queue[idx]) <= Gap(queue[l], queue[idx])
                    && (l < best ==> Gap(queue[best], queue[idx]) < Gap(queue[l], queue[idx]))
      {
        if k != idx && Gap(queue[k], queue[idx]) <= RangeAt(cfg, queue[idx].enqueuedMs, now)
           && (best < 0 || Gap(queue[k], queue[idx]) < Gap(queue[best], queue[idx])) {
          best := k;
        }
      }
      if best < 0 {
        return None, None;
      }
      opponent, call := Some(queue[best].playerId), Some(CallFor(queue[idx], queue[best]));
      IndexOfAt(queue, best);
      WithoutProper(queue, if idx > best then idx else best);
      WithoutProper(Without(queue, if idx > best then idx else best), if idx > best then best else idx);
      if idx > best {
        queue := Without(queue, idx);
        queue := Without(queue, best);
      } else {
        queue := Without(queue, best);
        queue := Without(queue, idx);
      }
    }

    /**
     All calls of on_match_ are made after the pairs have left the queue.  In the source the loop also tests whether
     position i is already paired, which it never is, since the loop skips the partner.
     */
    method TryMatch(now: int) returns (matched: seq<(string, string)>, calls: seq<Call>)
      requires Valid()
      modifies this
      ensures Valid()
      ensures var was := old(queue); var starts := Scan(cfg, was, now, 0);
              && (forall k :: 0 <= k < |starts| ==> starts[k] + 1 < |was|)
              && calls == CallsFor(was, starts) && matched == NamesOf(calls)
              && queue == Unpaired(was, starts, 0)
              && CallsNeighbours(was, starts, matched, calls)
    {
      hide Sorted, UniqueIds, Scan, Covered, Compatible, Unpaired, IndexOf, CallFor;
      ghost var was, starts := queue, Scan(cfg, queue, now, 0);
      ScanTakes(cfg, queue, now, 0);
      UnpairedProper(queue, starts, 0);
      var paired: seq<bool>;
      matched, paired := ScanQueue(now);
      QueuedNames(was, starts);
      calls := LookUp(matched);
      CallsLooked(was, starts, calls);
      CallsMeaning(was, starts);
      hide CallsFor, NamesOf, CallsNeighbours, LooksUp;
      UnpairedEnd(was, starts);
      for i := |queue| downto 0
        invariant |paired| == |was| && queue == was[..i] + Unpaired(was, starts, i)
      {
        EraseStep(was, starts, i, queue);
        if paired[i] {
          queue := queue[..i] + queue[i + 1..];
        }
      }
      assert queue == Unpaired(was, starts, 0);
    }

    static lemma CallsMeaning(q: seq<Entry>, starts: seq<nat>)
      requires forall k :: 0 <= k < |starts| ==> starts[k] + 1 < |q|
      ensures CallsNeighbours(q, starts, NamesOf(CallsFor(q, starts)), CallsFor(q, starts))
    {
    }

    static lemma UnpairedEnd(q: seq<Entry>, starts: seq<nat>)
      ensures q == q[..|q|] + Unpaired(q, starts, |q|)
    {
    }

    static lemma QueuedNames(q: seq<Entry>, starts: seq<nat>)
      requires UniqueIds(q) && forall k :: 0 <= k < |starts| ==> starts[k] + 1 < |q|
      ensures forall k :: 0 <= k < |starts| ==>
                Queued(q, NamesOf(CallsFor(q, starts))[k].0) && Queued(q, NamesOf(CallsFor(q, starts))[k].1)
    {
      forall k | 0 <= k < |starts|
        ensures Queued(q, NamesOf(CallsFor(q, starts))[k].0) && Queued(q, NamesOf(CallsFor(q, starts))[k].1)
      {
        IndexOfAt(q, starts[k]);
        IndexOfAt(q, starts[k] + 1);
      }
    }

    /** The first loop of TryMatch. */
    method ScanQueue(now: int) returns (matched: seq<(string, string)>, paired: seq<bool>)
      requires Valid()
      ensures var starts := Scan(cfg, queue, now, 0);
              && (forall k :: 0 <= k < |starts| ==> starts[k] + 1 < |queue|)
              && matched == NamesOf(CallsFor(queue, starts))
              && |paired| == |queue| && forall k :: 0 <= k < |queue| ==> paired[k] == Covered(starts, k)
    {
      hide Covered, Sorted, UniqueIds, NamesOf, CallsFor;
      ghost var starts := Scan(cfg, queue, now, 0);
      ScanTakes(cfg, queue, now, 0);
      matched, paired := [], seq(|queue|, k => false);
      ghost var taken: seq<nat> := [];
      NothingTaken(queue);
      var i := 0;
      while i + 1 < |queue|
        invariant 0 <= i && starts == taken + Scan(cfg, queue, now, i)
        invariant forall k :: 0 <= k < |taken| ==> taken[k] + 1 < |queue|
        invariant matched == NamesOf(CallsFor(queue, taken))
        invariant |paired| == |queue| && forall k :: 0 <= k < |queue| ==> paired[k] == Covered(taken, k)
        decreases |queue| - i
      {
        if Compatible(cfg, queue[i], queue[i + 1], now) {
          NamesAppend(queue, taken, i);
          CoveredAppend(taken, i);
          matched := matched + [(queue[i].playerId, queue[i + 1].playerId)];
          paired := paired[i := true][i + 1 := true];
          taken := taken + [i];
          i := i + 1;
        }
        i := i + 1;
      }
      assert taken == starts;
    }

    static lemma NothingTaken(q: seq<Entry>)
      ensures NamesOf(CallsFor(q, [])) == [] && forall k :: !Covered([], k)
    {
    }

    /** The second loop of TryMatch: the scores are looked up by id. */
    method LookUp(matched: seq<(string, string)>) returns (calls: seq<Call>)
      requires Valid()
      requires forall k :: 0 <= k < |matched| ==> Queued(queue, matched[k].0) && Queued(queue, matched[k].1)
      ensures |calls| == |matched|
      ensures forall k :: 0 <= k < |calls| ==> LooksUp(queue, matched[k], calls[k])
    {
      calls := [];
      for n := 0 to |matched|
        invariant |calls| == n
        invariant forall k :: 0 <= k < n ==> LooksUp(queue, matched[k], calls[k])
      {
        var s1 := ScoreOf(matched[n].0);
        var s2 := ScoreOf(matched[n].1);
        calls := calls + [Call(matched[n].0, s1, matched[n].1, s2)];
      }
    }

    method ScoreOf(id: string) returns (score: real)
      requires Valid() && Queued(queue, id)
      ensures score == queue[IndexOf(queue, id)].score
    {
      score := 0.0;
      for k := 0 to |queue|
        invariant IndexOf(queue, id) < k ==> score == queue[IndexOf(queue, id)].score
      {
        if queue[k].playerId == id {
          score := queue[k].score;
        }
      }
    }
  }
}
