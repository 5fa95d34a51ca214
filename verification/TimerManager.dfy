/**
 The timer manager: a binary min-heap on the deadline, cancelled lazily.  Which timers a Tick fires, and what is left,
 is said of the timers as a set.
 */
module Timers {
  import opened Wrappers
  import opened TimerStores

  // ---- the heap ----

  function Parent(i: nat): nat
    requires i > 0
  {
    (i - 1) / 2
  }

  predicate Below(h: seq<Timer>, i: nat)
    requires 0 < i < |h|
  {
    h[Parent(i)].deadline <= h[i].deadline
  }

  predicate Heap(h: seq<Timer>) {
    forall i :: 0 < i < |h| ==> Below(h, i)
  }

  lemma {:induction false} RootLeast(h: seq<Timer>, i: nat)
    requires Heap(h) && i < |h|
    ensures h[0].deadline <= h[i].deadline
  {
    if i > 0 {
      assert Below(h, i);
      RootLeast(h, Parent(i));
    }
  }

  function Swapped(h: seq<Timer>, i: nat, j: nat): seq<Timer>
    requires i < |h| && j < |h|
  {
    h[i := h[j]][j := h[i]]
  }

  lemma SwapKeeps(h: seq<Timer>, i: nat, j: nat)
    requires i < |h| && j < |h| && i != j
    ensures multiset(Swapped(h, i, j)) == multiset(h)
  {
  }

  /** The order holds but perhaps between i and its parent, and the children of i would fit under that parent. */
  predicate HeapUp(h: seq<Timer>, i: nat) {
    && i < |h|
    && (forall j :: 0 < j < |h| && j != i ==> Below(h, j))
    && (i > 0 ==> forall j :: 0 < j < |h| && Parent(j) == i ==> h[Parent(i)].deadline <= h[j].deadline)
  }

  /** The order holds but perhaps between i and its children, and they would fit under its parent. */
  predicate HeapDown(h: seq<Timer>, i: nat) {
    && i < |h|
    && (forall j :: 0 < j < |h| && Parent(j) != i ==> Below(h, j))
    && (i > 0 ==> forall j :: 0 < j < |h| && Parent(j) == i ==> h[Parent(i)].deadline <= h[j].deadline)
  }

  lemma UpStep(h: seq<Timer>, i: nat)
    requires HeapUp(h, i) && i > 0 && h[Parent(i)].deadline > h[i].deadline
    ensures HeapUp(Swapped(h, i, Parent(i)), Parent(i))
  {
    var p := Parent(i);
    var g := Swapped(h, i, p);
    forall j | 0 < j < |g| && j != p ensures Below(g, j) {
      if Parent(j) == i {
        assert h[p].deadline <= h[j].deadline;
      } else if j != i {
        assert Below(h, j);
      }
    }
    if p > 0 {
      assert Below(h, p);
      forall j | 0 < j < |g| && Parent(j) == p ensures g[Parent(p)].deadline <= g[j].deadline {
        if j != i {
          assert Below(h, j);
        }
      }
    }
  }

  lemma DownStep(h: seq<Timer>, i: nat, c: nat)
    requires HeapDown(h, i) && 0 < c < |h| && Parent(c) == i && h[i].deadline > h[c].deadline
    requires forall j :: 0 < j < |h| && Parent(j) == i ==> h[c].deadline <= h[j].deadline
    ensures HeapDown(Swapped(h, i, c), c)
  {
    var g := Swapped(h, i, c);
    forall j | 0 < j < |g| && Parent(j) != c ensures Below(g, j) {
      if Parent(j) == i {
        assert h[c].deadline <= h[j].deadline;
      } else if j == i {
        assert h[Parent(i)].deadline <= h[c].deadline;
      } else {
        assert Below(h, j);
      }
    }
    forall j | 0 < j < |g| && Parent(j) == c ensures g[Parent(c)].deadline <= g[j].deadline {
      assert Below(h, j);
    }
  }

  /** std::push_heap: the last timer moves up to its place. */
  method PushHeap(h: seq<Timer>) returns (r: seq<Timer>)
    requires h != [] && Heap(h[..|h| - 1])
    ensures Heap(r) && multiset(r) == multiset(h)
  {
    r := h;
    var i: nat := |h| - 1;
    forall j | 0 < j < |h| - 1 ensures Below(h, j) {
      assert Below(h[..|h| - 1], j);
    }
    while i > 0 && r[Parent(i)].deadline > r[i].deadline
      invariant HeapUp(r, i) && multiset(r) == multiset(h)
      decreases i
    {
      UpStep(r, i);
      SwapKeeps(r, i, Parent(i));
      r := Swapped(r, i, Parent(i));
      i := Parent(i);
    }
  }

  /** The child with the earlier deadline, if there is one. */
  function LesserChild(h: seq<Timer>, i: nat): Option<nat> {
    var l := 2 * i + 1;
    if l >= |h| then None
    else if l + 1 < |h| && h[l + 1].deadline < h[l].deadline then Some(l + 1)
    else Some(l)
  }

  lemma LesserLeast(h: seq<Timer>, i: nat)
    ensures var c := LesserChild(h, i);
            if c.None? then forall j :: 0 < j < |h| ==> Parent(j) != i
            else 0 < c.value < |h| && Parent(c.value) == i && c.value > i
                 && forall j :: 0 < j < |h| && Parent(j) == i ==> h[c.value].deadline <= h[j].deadline
  {
    forall j | 0 < j < |h| && Parent(j) == i ensures j == 2 * i + 1 || j == 2 * i + 2 {
    }
  }

  /** std::pop_heap and pop_back: the first timer leaves, the last takes its place and moves down. */
  method PopHeap(h: seq<Timer>) returns (r: seq<Timer>)
    requires h != [] && Heap(h)
    ensures Heap(r) && multiset(r) == multiset(h) - multiset{h[0]}
  {
    var n := |h| - 1;
    Replaced(h);
    if n == 0 {
      return [];
    }
    r := h[..n][0 := h[n]];
    ghost var start := r;
    var i: nat := 0;
    var c := LesserChild(r, i);
    LesserLeast(r, i);
    while c.Some? && r[i].deadline > r[c.value].deadline
      invariant HeapDown(r, i) && multiset(r) == multiset(start)
      invariant c == LesserChild(r, i)
      decreases |r| - i
    {
      LesserLeast(r, i);
      DownStep(r, i, c.value);
      SwapKeeps(r, i, c.value);
      r := Swapped(r, i, c.value);
      i := c.value;
      c := LesserChild(r, i);
    }
    LesserLeast(r, i);
    assert forall j :: 0 < j < |r| && Parent(j) == i ==> Below(r, j);
  }

  lemma Replaced(h: seq<Timer>)
    requires h != [] && Heap(h)
    ensures var n := |h| - 1;
            if n == 0 then multiset(h) == multiset{h[0]}
            else HeapDown(h[..n][0 := h[n]], 0) && multiset(h[..n][0 := h[n]]) == multiset(h) - multiset{h[0]}
  {
    var n := |h| - 1;
    assert h == h[..n] + [h[n]];
    if n > 0 {
      var g := h[..n][0 := h[n]];
      forall j | 0 < j < |g| && Parent(j) != 0 ensures Below(g, j) {
        assert Below(h, j);
      }
    }
  }

  // ---- timers as a set ----

  /** Every timer once, and no id twice. */
  ghost predicate Unique(h: multiset<Timer>) {
    && (forall t :: h[t] <= 1)
    && (forall t, u :: t in h && u in h && t.id == u.id ==> t == u)
  }

  lemma Twice(h: seq<Timer>, i: nat, j: nat)
    requires i < j < |h| && h[i] == h[j]
    ensures multiset(h)[h[i]] >= 2
  {
    assert h == h[..i] + [h[i]] + h[i + 1..j] + [h[j]] + h[j + 1..];
  }

  lemma OneOf(h: seq<Timer>, i: nat)
    requires Unique(multiset(h)) && i < |h|
    ensures forall j :: 0 <= j < |h| && j != i ==> h[j].id != h[i].id
  {
    forall j | 0 <= j < |h| && j != i ensures h[j] != h[i] {
      if h[j] == h[i] {
        Twice(h, if i < j then i else j, if i < j then j else i);
      }
    }
    assert forall j :: 0 <= j < |h| ==> h[j] in multiset(h);
  }

  /** Cancelling the timer at i is marking its id. */
  lemma CancelMarks(h: seq<Timer>, i: nat)
    requires Unique(multiset(h)) && i < |h|
    ensures var g := h[i := Cancelled(h[i])]; forall j :: 0 <= j < |h| ==> g[j] == Mark(h[j], {h[i].id})
  {
    OneOf(h, i);
    hide Unique;
  }

  lemma NothingMarked(h: seq<Timer>, id: nat)
    requires forall j :: 0 <= j < |h| ==> h[j].id != id
    ensures forall j :: 0 <= j < |h| ==> Mark(h[j], {id}) == h[j]
  {
  }

  lemma CancelValid(h: seq<Timer>, i: nat)
    requires Heap(h) && Unique(multiset(h)) && i < |h|
    ensures var g := h[i := Cancelled(h[i])]; Heap(g) && Unique(multiset(g))
  {
    var g := h[i := Cancelled(h[i])];
    forall j | 0 < j < |g| ensures Below(g, j) {
      assert Below(h, j);
    }
    OneOf(h, i);
    assert multiset(g) == multiset(h) - multiset{h[i]} + multiset{g[i]};
    assert forall t :: t in multiset(h) <==> t in h;
    assert Cancelled(h[i]) in multiset(h) ==> Cancelled(h[i]) == h[i];
  }

  lemma PopValid(h: seq<Timer>, g: seq<Timer>)
    requires h != [] && Unique(multiset(h)) && multiset(g) == multiset(h) - multiset{h[0]}
    ensures Unique(multiset(g)) && (forall t :: t in g <==> t in h && t != h[0])
    ensures forall t :: t in g ==> t.id != h[0].id
  {
    assert h[0] in multiset(h);
    assert forall t :: t in g <==> t in multiset(g);
    assert forall t :: t in h <==> t in multiset(h);
  }

  /** Nothing is due before the root is. */
  lemma LaterAll(h: seq<Timer>, least: int)
    requires Heap(h) && (h != [] ==> h[0].deadline >= least)
    ensures forall t :: t in h ==> t.deadline >= least
  {
    forall i | 0 <= i < |h| ensures h[i].deadline >= least {
      RootLeast(h, i);
    }
  }

  ghost function Elems(h: seq<Timer>): set<Timer> {
    set t | t in h
  }

  /** The heap holds the timers of the store whose ids are not gone; those are due. */
  ghost predicate Mirrors(s: Store, heap: seq<Timer>, nextId: nat, gone: set<nat>, now: int) {
    && s.nextId == nextId && (forall id :: id in gone ==> id < nextId)
    && (forall t :: t in heap ==> t in s.pool && t.id !in gone)
    && (forall t :: t in s.pool ==> t in heap || (t.id in gone && t.deadline <= now))
  }

  lemma ElemsGrow(h: seq<Timer>, g: seq<Timer>, t: Timer)
    requires multiset(g) == multiset(h) + multiset{t}
    ensures Elems(g) == Elems(h) + {t}
  {
    assert forall u :: u in g <==> u in multiset(g);
    assert forall u :: u in h <==> u in multiset(h);
  }

  lemma ElemsMarked(h: seq<Timer>, g: seq<Timer>, id: nat)
    requires |g| == |h| && forall i :: 0 <= i < |g| ==> g[i] == Mark(h[i], {id})
    ensures Elems(g) == Marked(Elems(h), id)
  {
    hide Mark;
    forall t | t in Marked(Elems(h), id) ensures t in g {
      var u :| u in h && t == Mark(u, {id});
      var i :| 0 <= i < |h| && h[i] == u;
      assert g[i] == t;
    }
  }

  /** A call has the same effect on the store and on what the heap holds of it. */
  lemma ActMirrors(s: Store, r: Store, action: Action, gone: set<nat>, now: int)
    requires MirrorsSet(s, r, gone, now)
    ensures MirrorsSet(Acted(s, action, now), Acted(r, action, now), gone, now)
  {
    if action.CancelTimer? {
      var a, b := Marked(s.pool, action.id), Marked(r.pool, action.id);
      forall t | t in a && t !in b ensures t.id in gone && t.deadline <= now {
        MarkedFrom(s.pool, r.pool, action.id, t);
      }
    }
  }

  ghost predicate MirrorsSet(s: Store, r: Store, gone: set<nat>, now: int) {
    && s.nextId == r.nextId && (forall id :: id in gone ==> id < s.nextId)
    && (forall t :: t in r.pool ==> t in s.pool && t.id !in gone)
    && (forall t :: t in s.pool ==> t in r.pool || (t.id in gone && t.deadline <= now))
  }

  lemma {:induction false} ActAllMirrors(s: Store, r: Store, todo: seq<Action>, gone: set<nat>, now: int)
    requires MirrorsSet(s, r, gone, now)
    ensures MirrorsSet(ActedAll(s, todo, now), ActedAll(r, todo, now), gone, now)
  {
    hide Acted, MirrorsSet;
    if todo != [] {
      var before := todo[..|todo| - 1];
      ActAllMirrors(s, r, before, gone, now);
      ActMirrors(ActedAll(s, before, now), ActedAll(r, before, now), todo[|todo| - 1], gone, now);
    }
  }

  lemma MirrorsElems(s: Store, heap: seq<Timer>, nextId: nat, gone: set<nat>, now: int)
    ensures Mirrors(s, heap, nextId, gone, now) <==> MirrorsSet(s, Store(Elems(heap), nextId), gone, now)
  {
  }

  /** Taking the root, which is due, off the heap. */
  lemma PopMirrors(s: Store, h: seq<Timer>, g: seq<Timer>, nextId: nat, gone: set<nat>, now: int)
    requires Mirrors(s, h, nextId, gone, now) && h != [] && h[0].deadline <= now && h[0].id < nextId
    requires (forall t :: t in g <==> t in h && t != h[0]) && forall t :: t in g ==> t.id != h[0].id
    ensures Mirrors(s, g, nextId, gone + {h[0].id}, now)
  {
  }

  /** A callback runs on what is left of the heap. */
  lemma RunMirrors(s: Store, h: seq<Timer>, hId: nat, g: seq<Timer>, gId: nat, todo: seq<Action>, gone: set<nat>,
                   now: int)
    requires Mirrors(s, h, hId, gone, now) && Store(Elems(g), gId) == ActedAll(Store(Elems(h), hId), todo, now)
    ensures Mirrors(ActedAll(s, todo, now), g, gId, gone, now)
  {
    hide Mirrors, MirrorsSet, Elems;
    MirrorsElems(s, h, hId, gone, now);
    ActAllMirrors(s, Store(Elems(h), hId), todo, gone, now);
    MirrorsElems(ActedAll(s, todo, now), g, gId, gone, now);
  }

  /** With nothing due left in the heap, the heap holds exactly what is not due. */
  lemma MirrorsEnd(s: Store, heap: seq<Timer>, nextId: nat, gone: set<nat>, now: int)
    requires Mirrors(s, heap, nextId, gone, now) && forall t :: t in heap ==> t.deadline > now
    ensures Store(Elems(heap), nextId) == NotDue(s, now)
  {
  }

  // ---- the loop of Tick ----

  /** The ids that fired are gone, and of the timers gone, only they are live. */
  ghost predicate GoneFired(s: Store, fired: set<nat>, gone: set<nat>) {
    fired <= gone && (forall id :: id in gone ==> id < s.nextId)
    && forall t :: t in s.pool && t.id in gone && Live(t) ==> t.id in fired
  }

  lemma ActGone(s: Store, action: Action, fired: set<nat>, gone: set<nat>, now: int)
    requires GoneFired(s, fired, gone)
    ensures GoneFired(Acted(s, action, now), fired, gone)
  {
  }

  lemma {:induction false} ActAllGone(s: Store, todo: seq<Action>, fired: set<nat>, gone: set<nat>, now: int)
    requires GoneFired(s, fired, gone)
    ensures GoneFired(ActedAll(s, todo, now), fired, gone)
  {
    hide GoneFired, Acted;
    if todo != [] {
      ActAllGone(s, todo[..|todo| - 1], fired, gone, now);
      ActGone(ActedAll(s, todo[..|todo| - 1], now), todo[|todo| - 1], fired, gone, now);
    }
  }

  /** The root is the only timer of the store under its id, so it fires, or is not live, and is gone. */
  lemma RootGone(s: Store, h: seq<Timer>, nextId: nat, fired: set<nat>, gone: set<nat>, now: int)
    requires Mirrors(s, h, nextId, gone, now) && GoneFired(s, fired, gone) && Unique(multiset(h)) && h != []
    requires h[0].id < nextId
    ensures var id := h[0].id;
            GoneFired(s, if Live(h[0]) then fired + {id} else fired, gone + {id})
  {
    forall t | t in s.pool && t.id == h[0].id ensures t == h[0] {
      assert t in multiset(h) && h[0] in multiset(h);
    }
  }

  /** If the root is due and live, it is the next to fire. */
  lemma RootNext(s: Store, fired: seq<Timer>, h: seq<Timer>, nextId: nat, gone: set<nat>, now: int)
    requires Mirrors(s, h, nextId, gone, now) && GoneFired(s, Ids(fired), gone)
    requires Heap(h) && h != [] && Live(h[0]) && h[0].deadline <= now
    ensures FiresNext(s, fired, h[0], now)
  {
    hide Ids, Heap;
    LaterAll(h, h[0].deadline);
  }

  /** With nothing due left in the heap, nothing due is left to fire. */
  lemma NoneDue(s: Store, fired: seq<Timer>, h: seq<Timer>, nextId: nat, gone: set<nat>, now: int,
                actions: Behaviour)
    requires Mirrors(AfterFiring(s, fired, now, actions), h, nextId, gone, now)
    requires GoneFired(AfterFiring(s, fired, now, actions), Ids(fired), gone)
    requires forall t :: t in h ==> t.deadline > now
    ensures AllFired(s, fired, now, actions)
  {
    hide Ids, AfterFiring;
  }

  lemma TickStarts(h: seq<Timer>, nextId: nat, now: int, actions: Behaviour)
    ensures var s := Store(Elems(h), nextId);
            && AfterFiring(s, [], now, actions) == s && Ids([]) == {} && Firing(s, [], now, actions)
            && Mirrors(s, h, nextId, {}, now) && GoneFired(s, {}, {})
  {
  }

  lemma ElemsUnique(h: seq<Timer>, nextId: nat)
    requires Unique(multiset(h)) && forall t :: t in h ==> t.id < nextId
    ensures Numbered(Store(Elems(h), nextId))
  {
    assert forall t :: t in h <==> t in multiset(h);
  }

  class TimerManager {
    var heap: seq<Timer>
    var nextId: nat
    /** What each callback does. */
    const actions: Behaviour

    ghost predicate Valid()
      reads this
    {
      && Heap(heap) && Unique(multiset(heap))
      && (forall t :: t in heap ==> t.id < nextId)
    }

    ghost function Stored(): Store
      reads this
    {
      Store(Elems(heap), nextId)
    }

    constructor (actions: Behaviour)
      ensures Valid() && heap == [] && nextId == 1 && this.actions == actions
    {
      heap, nextId, this.actions := [], 1, actions;
    }

    method Schedule(now: int, delay: int, callback: Option<nat>) returns (id: nat)
      requires Valid()
      modifies this
      ensures Valid() && id == old(nextId) && nextId == id + 1
      ensures multiset(heap) == multiset(old(heap)) + multiset{Timer(id, now + delay, callback, false)}
    {
      id := nextId;
      nextId := nextId + 1;
      var t := Timer(id, now + delay, callback, false);
      assert (heap + [t])[..|heap|] == heap;
      assert t !in multiset(heap);
      heap := PushHeap(heap + [t]);
      assert forall u :: u in heap <==> u in multiset(heap);
    }

    method Cancel(id: nat)
      requires Valid()
      modifies this`heap
      ensures Valid() && |heap| == |old(heap)|
      ensures forall i :: 0 <= i < |heap| ==> heap[i] == Mark(old(heap)[i], {id})
    {
      hide *;
      for i := 0 to |heap|
        invariant heap == old(heap) && Valid() && forall j :: 0 <= j < i ==> heap[j].id != id
      {
        if heap[i].id == id {
          MarkAt(i);
          return;
        }
      }
      NothingMarked(heap, id);
    }

    /** The timer at i is marked and lets go of its callback. */
    method MarkAt(i: nat)
      requires Valid() && i < |heap|
      modifies this`heap
      ensures Valid() && |heap| == |old(heap)|
      ensures forall j :: 0 <= j < |heap| ==> heap[j] == Mark(old(heap)[j], {old(heap)[i].id})
    {
      hide Heap, Unique, Mark;
      CancelMarks(heap, i);
      CancelValid(heap, i);
      assert forall j :: 0 <= j < |heap| ==> heap[j] in heap;
      heap := heap[i := Cancelled(heap[i])];
      assert forall j :: 0 <= j < |heap| ==> heap[j].id == old(heap)[j].id;
    }

    method CleanCancelled()
      requires Valid()
      modifies this`heap
      ensures Valid() && (forall t :: t in heap ==> t in old(heap))
      ensures (forall t :: t in old(heap) && !t.cancelled ==> t in heap) && (heap != [] ==> !heap[0].cancelled)
    {
      hide Heap, Unique;
      while |heap| > 0 && heap[0].cancelled
        invariant Valid() && (forall t :: t in heap ==> t in old(heap))
        invariant forall t :: t in old(heap) && !t.cancelled ==> t in heap
        decreases |multiset(heap)|
      {
        ghost var before := heap;
        heap := PopHeap(heap);
        PopValid(before, heap);
        assert before[0] in multiset(before);
      }
    }

    /** One call a callback makes. */
    method Act(action: Action, now: int)
      requires Valid()
      modifies this
      ensures Valid() && nextId >= old(nextId)
      ensures Stored() == Acted(old(Stored()), action, now)
    {
      hide Heap, Unique, Elems, Marked;
      ghost var before := heap;
      match action {
        case ScheduleTimer(lag, delay, cb) =>
          var id := Schedule(now + lag, delay, Some(cb));
          ElemsGrow(before, heap, Timer(id, now + lag + delay, Some(cb), false));
        case CancelTimer(id) =>
          Cancel(id);
          ElemsMarked(before, heap, id);
      }
    }

    /** A callback runs: it schedules and cancels as it likes. */
    method RunCallback(callback: nat, now: int)
      requires Valid()
      modifies this
      ensures Valid() && nextId >= old(nextId)
      ensures Stored() == ActedAll(old(Stored()), actions(callback), now)
    {
      var todo := actions(callback);
      assert ActedAll(Stored(), todo[..0], now) == Stored();
      hide Heap, Unique, Elems, Acted, ActedAll;
      for i := 0 to |todo|
        invariant Valid() && nextId >= old(nextId)
        invariant Stored() == ActedAll(old(Stored()), todo[..i], now)
      {
        ActedLast(old(Stored()), todo, i, now);
        Act(todo[i], now);
      }
      assert todo[..|todo|] == todo;
    }

    /** One round of the loop of Tick: the timer at the top goes, and fires unless it was cancelled. */
    method FireTop(now: int, ghost s: Store, fired: seq<Timer>, ghost gone: set<nat>)
      returns (fired': seq<Timer>, ghost gone': set<nat>)
      requires Valid() && heap != [] && heap[0].deadline <= now
      requires Firing(s, fired, now, actions)
      requires Mirrors(AfterFiring(s, fired, now, actions), heap, nextId, gone, now)
      requires GoneFired(AfterFiring(s, fired, now, actions), Ids(fired), gone)
      modifies this
      ensures Valid() && Firing(s, fired', now, actions)
      ensures Mirrors(AfterFiring(s, fired', now, actions), heap, nextId, gone', now)
      ensures GoneFired(AfterFiring(s, fired', now, actions), Ids(fired'), gone')
      ensures |fired'| > |fired| || (fired' == fired && |heap| < |old(heap)|)
    {
      hide Heap, Unique, Firing, FiresNext, AfterFiring, ActedAll, Elems, GoneFired, Ids;
      var t := heap[0];
      ghost var h, r := heap, AfterFiring(s, fired, now, actions);
      RootGone(r, h, nextId, Ids(fired), gone, now);
      if Live(t) {
        RootNext(r, fired, h, nextId, gone, now);
        FiringNext(s, fired, t, now, actions);
      }
      gone' := gone + {t.id};
      heap := PopHeap(heap);
      PopValid(h, heap);
      PopMirrors(r, h, heap, nextId, gone, now);
      assert |multiset(heap)| == |multiset(h)| - 1;
      hide Mirrors;
      if !t.cancelled && t.callback.Some? {
        ghost var g, id, todo := heap, nextId, actions(t.callback.value);
        RunCallback(t.callback.value, now);
        fired' := fired + [t];
        IdsNext(fired, t);
        AfterNext(s, fired, t, now, actions);
        RunMirrors(r, g, id, heap, nextId, todo, gone', now);
        ActAllGone(r, todo, Ids(fired'), gone', now);
      } else {
        fired' := fired;
      }
    }

    static lemma IdsNext(fired: seq<Timer>, t: Timer)
      ensures Ids(fired + [t]) == Ids(fired) + {t.id}
    {
    }

    /**
     The source returns how many timers fired; here they are listed.  Each in its turn is the earliest of those that
     wait by then, nothing due is left waiting, and what is left in the heap is all that is not due, whatever callbacks
     schedule and cancel.  If they schedule for later only, the timers fired are those due from the start.
     */
    method Tick(now: int) returns (fired: seq<Timer>)
      requires Valid() && Ends(Stored(), now, actions)
      modifies this
      ensures Valid()
      ensures Firing(old(Stored()), fired, now, actions) && AllFired(old(Stored()), fired, now, actions)
      ensures RestExactly(NotDue(AfterFiring(old(Stored()), fired, now, actions), now), Stored())
      ensures Forward(actions) ==>
                && FiredWell(Elems(old(heap)), fired, now, actions) && FiredAll(Elems(old(heap)), fired, now, actions)
                && RestKept(Elems(old(heap)), Elems(heap), now, AllCancels(fired, actions))
    {
      hide Heap, Unique, FiredAll, RestKept, FiredWell, Forward, AllCancels, AfterFiring, Elems, NotDue, RestExactly,
           Firing, AllFired, GoneFired, Ids, Numbered, AtMost, Mirrors;
      ghost var was := Stored();
      ElemsUnique(heap, nextId);
      CleanCancelled();
      ghost var s, gone: set<nat> := Stored(), {};
      Dropped(old(heap), heap, nextId);
      EndsClean(was, s, now, actions);
      ghost var most: nat :| AtMost(s, most, now, actions);
      fired := [];
      TickStarts(heap, nextId, now, actions);
      while |heap| > 0 && heap[0].deadline <= now
        invariant Valid() && Firing(s, fired, now, actions) && |fired| <= most
        invariant Mirrors(AfterFiring(s, fired, now, actions), heap, nextId, gone, now)
        invariant GoneFired(AfterFiring(s, fired, now, actions), Ids(fired), gone)
        decreases most - |fired|, |heap|
      {
        fired, gone := FireTop(now, s, fired, gone);
        Bounded(s, most, fired, now, actions);
      }
      LaterAll(heap, now + 1);
      NoneDue(s, fired, heap, nextId, gone, now, actions);
      MirrorsEnd(AfterFiring(s, fired, now, actions), heap, nextId, gone, now);
      TickDone(was, s, fired, Stored(), now, actions);
    }

    static lemma Bounded(s: Store, most: nat, fired: seq<Timer>, now: int, actions: Behaviour)
      requires AtMost(s, most, now, actions) && Firing(s, fired, now, actions)
      ensures |fired| <= most
    {
    }

    static lemma Dropped(h: seq<Timer>, g: seq<Timer>, nextId: nat)
      requires (forall t :: t in g ==> t in h) && forall t :: t in h && !t.cancelled ==> t in g
      ensures RestExactly(Store(Elems(h), nextId), Store(Elems(g), nextId))
    {
    }
  }

  /** What a firing of the timers left by CleanCancelled says of those there were before. */
  lemma TickDone(was: Store, s: Store, fired: seq<Timer>, rest: Store, now: int, actions: Behaviour)
    requires RestExactly(was, s) && Numbered(was)
    requires Firing(s, fired, now, actions) && AllFired(s, fired, now, actions)
    requires rest == NotDue(AfterFiring(s, fired, now, actions), now)
    ensures Firing(was, fired, now, actions) && AllFired(was, fired, now, actions)
    ensures RestExactly(NotDue(AfterFiring(was, fired, now, actions), now), rest)
    ensures Forward(actions) ==>
              && FiredWell(was.pool, fired, now, actions) && FiredAll(was.pool, fired, now, actions)
              && RestKept(was.pool, rest.pool, now, AllCancels(fired, actions))
  {
    hide Firing, AllFired, AfterFiring, Numbered, FiredWell, FiredAll, AllCancels, Forward;
    FiringClean(was, s, fired, now, actions);
    FiringLess(was, s, fired, now, actions);
    if Forward(actions) {
      ForwardWell(was, fired, now, actions);
      ForwardAll(was, fired, now, actions);
      ForwardRest(s, fired, now, actions);
    }
  }
}
