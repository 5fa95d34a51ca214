/**
 What timers do, as values.  A callback is a number; what it does when it runs, scheduling and cancelling, is an
 arbitrary function of that number.  Time is in milliseconds.  A Tick reads the clock once and fires due timers, the
 earliest deadline first, among them those its own callbacks schedule.
 */
module TimerStores {
  import opened Wrappers

  datatype Timer = Timer(id: nat, deadline: int, callback: Option<nat>, cancelled: bool)

  /** lag: how much later than Tick's reading of the clock the callback makes the call. */
  datatype Action = ScheduleTimer(lag: nat, delay: int, callback: nat) | CancelTimer(id: nat)

  type Behaviour = nat -> seq<Action>

  function Cancelled(t: Timer): Timer {
    t.(cancelled := true, callback := None)
  }

  predicate Live(t: Timer) {
    !t.cancelled && t.callback.Some?
  }

  /** The timers after the ids in `ids` were cancelled. */
  function Mark(t: Timer, ids: set<nat>): Timer {
    if t.id in ids then Cancelled(t) else t
  }

  /** The timers that exist, and the id of the next one. */
  datatype Store = Store(pool: set<Timer>, nextId: nat)

  ghost function Marked(pool: set<Timer>, id: nat): set<Timer> {
    set t | t in pool :: Mark(t, {id})
  }

  /** One call a callback makes. */
  ghost function Acted(s: Store, action: Action, now: int): Store {
    match action
    case ScheduleTimer(lag, delay, cb) =>
      Store(s.pool + {Timer(s.nextId, now + lag + delay, Some(cb), false)}, s.nextId + 1)
    case CancelTimer(id) => s.(pool := Marked(s.pool, id))
  }

  ghost function ActedAll(s: Store, todo: seq<Action>, now: int): Store {
    if todo == [] then s else Acted(ActedAll(s, todo[..|todo| - 1], now), todo[|todo| - 1], now)
  }

  /** What the callbacks of the fired timers, run one after another, make of the timers there were. */
  ghost function AfterFiring(s: Store, fired: seq<Timer>, now: int, actions: Behaviour): Store {
    if fired == [] then s
    else
      var before, last := AfterFiring(s, fired[..|fired| - 1], now, actions), fired[|fired| - 1];
      if last.callback.Some? then ActedAll(before, actions(last.callback.value), now) else before
  }

  // ---- what a Tick may fire ----

  ghost function Ids(fired: seq<Timer>): set<nat> {
    set t | t in fired :: t.id
  }

  /** t is live and has not fired. */
  ghost predicate Waiting(s: Store, fired: seq<Timer>, t: Timer) {
    t in s.pool && Live(t) && t.id !in Ids(fired)
  }

  /** t is due, and nothing that waits has an earlier deadline. */
  ghost predicate FiresNext(s: Store, fired: seq<Timer>, t: Timer, now: int) {
    Waiting(s, fired, t) && t.deadline <= now && forall u :: Waiting(s, fired, u) ==> t.deadline <= u.deadline
  }

  /** Each timer in its turn is the next to fire of those that the callbacks before it leave. */
  ghost predicate Firing(s: Store, fired: seq<Timer>, now: int, actions: Behaviour) {
    forall i :: 0 <= i < |fired| ==> FiresNext(AfterFiring(s, fired[..i], now, actions), fired[..i], fired[i], now)
  }

  /** Nothing due is left to fire. */
  ghost predicate AllFired(s: Store, fired: seq<Timer>, now: int, actions: Behaviour) {
    forall t :: Waiting(AfterFiring(s, fired, now, actions), fired, t) ==> t.deadline > now
  }

  /** No firing goes on for ever. */
  ghost predicate Ends(s: Store, now: int, actions: Behaviour) {
    exists n: nat :: AtMost(s, n, now, actions)
  }

  ghost predicate AtMost(s: Store, n: nat, now: int, actions: Behaviour) {
    forall fired :: Firing(s, fired, now, actions) ==> |fired| <= n
  }

  /** rest is s, but that cancelled timers may have been dropped. */
  ghost predicate RestExactly(s: Store, rest: Store) {
    rest.nextId == s.nextId && rest.pool <= s.pool && forall t :: t in s.pool && t !in rest.pool ==> t.cancelled
  }

  ghost function NotDue(s: Store, now: int): Store {
    s.(pool := set t | t in s.pool && t.deadline > now)
  }

  /** Ids were given out by the counter, none twice. */
  ghost predicate Numbered(s: Store) {
    (forall t :: t in s.pool ==> t.id < s.nextId)
    && forall t, u :: t in s.pool && u in s.pool && t.id == u.id ==> t == u
  }

  lemma ActedLast(s: Store, todo: seq<Action>, i: nat, now: int)
    requires i < |todo|
    ensures ActedAll(s, todo[..i + 1], now) == Acted(ActedAll(s, todo[..i], now), todo[i], now)
  {
    assert todo[..i + 1][..i] == todo[..i];
    hide Acted;
  }

  lemma AfterNext(s: Store, fired: seq<Timer>, t: Timer, now: int, actions: Behaviour)
    requires t.callback.Some?
    ensures AfterFiring(s, fired + [t], now, actions) ==
            ActedAll(AfterFiring(s, fired, now, actions), actions(t.callback.value), now)
  {
    assert (fired + [t])[..|fired|] == fired;
  }

  lemma FiringNext(s: Store, fired: seq<Timer>, t: Timer, now: int, actions: Behaviour)
    requires Firing(s, fired, now, actions) && FiresNext(AfterFiring(s, fired, now, actions), fired, t, now)
    ensures Firing(s, fired + [t], now, actions)
  {
    hide AfterFiring, FiresNext;
    var all := fired + [t];
    assert all[..|fired|] == fired;
    assert forall i :: 0 <= i < |fired| ==> all[..i] == fired[..i] && all[i] == fired[i];
  }

  lemma FiringPrefix(s: Store, fired: seq<Timer>, n: nat, now: int, actions: Behaviour)
    requires Firing(s, fired, now, actions) && n <= |fired|
    ensures Firing(s, fired[..n], now, actions)
  {
    hide AfterFiring, FiresNext;
    assert forall i :: 0 <= i < n ==> fired[..n][..i] == fired[..i] && fired[..n][i] == fired[i];
  }

  // ---- cancelled timers dropped before make no difference ----

  /** A timer that is in one marked pool and not in the other comes from one that is in the first pool alone. */
  lemma MarkedFrom(a: set<Timer>, b: set<Timer>, id: nat, t: Timer)
    requires t in Marked(a, id) && t !in Marked(b, id)
    ensures exists u :: u in a && u !in b && t == Mark(u, {id})
  {
    hide Mark;
    var u :| u in a && t == Mark(u, {id});
    assert Mark(u, {id}) !in Marked(b, id);
  }

  lemma ActLess(a: Store, b: Store, action: Action, now: int)
    requires RestExactly(a, b)
    ensures RestExactly(Acted(a, action, now), Acted(b, action, now))
  {
    if action.CancelTimer? {
      var more, less := Marked(a.pool, action.id), Marked(b.pool, action.id);
      forall t | t in more && t !in less ensures t.cancelled {
        MarkedFrom(a.pool, b.pool, action.id, t);
      }
    }
  }

  lemma {:induction false} ActAllLess(a: Store, b: Store, todo: seq<Action>, now: int)
    requires RestExactly(a, b)
    ensures RestExactly(ActedAll(a, todo, now), ActedAll(b, todo, now))
  {
    hide Acted, RestExactly;
    if todo != [] {
      var before := todo[..|todo| - 1];
      ActAllLess(a, b, before, now);
      ActLess(ActedAll(a, before, now), ActedAll(b, before, now), todo[|todo| - 1], now);
    }
  }

  lemma {:induction false} FiringLess(a: Store, b: Store, fired: seq<Timer>, now: int, actions: Behaviour)
    requires RestExactly(a, b)
    ensures RestExactly(AfterFiring(a, fired, now, actions), AfterFiring(b, fired, now, actions))
  {
    hide ActedAll, RestExactly;
    if fired != [] {
      var before, last := fired[..|fired| - 1], fired[|fired| - 1];
      FiringLess(a, b, before, now, actions);
      if last.callback.Some? {
        ActAllLess(AfterFiring(a, before, now, actions), AfterFiring(b, before, now, actions),
                   actions(last.callback.value), now);
      }
    }
  }

  lemma WaitingLess(a: Store, b: Store, fired: seq<Timer>)
    requires RestExactly(a, b)
    ensures forall t :: Waiting(a, fired, t) <==> Waiting(b, fired, t)
  {
    hide Ids;
  }

  /** The same firings, and the same ones are complete. */
  lemma FiringClean(a: Store, b: Store, fired: seq<Timer>, now: int, actions: Behaviour)
    requires RestExactly(a, b)
    ensures Firing(a, fired, now, actions) <==> Firing(b, fired, now, actions)
    ensures AllFired(a, fired, now, actions) <==> AllFired(b, fired, now, actions)
  {
    hide AfterFiring, Waiting, RestExactly;
    forall i | 0 <= i <= |fired|
      ensures forall t :: Waiting(AfterFiring(a, fired[..i], now, actions), fired[..i], t) <==>
                          Waiting(AfterFiring(b, fired[..i], now, actions), fired[..i], t)
    {
      FiringLess(a, b, fired[..i], now, actions);
      WaitingLess(AfterFiring(a, fired[..i], now, actions), AfterFiring(b, fired[..i], now, actions), fired[..i]);
    }
    assert fired[..|fired|] == fired;
  }

  lemma EndsClean(a: Store, b: Store, now: int, actions: Behaviour)
    requires RestExactly(a, b) && Ends(a, now, actions)
    ensures Ends(b, now, actions)
  {
    hide Firing, RestExactly;
    var n: nat :| AtMost(a, n, now, actions);
    forall fired | Firing(b, fired, now, actions) ensures |fired| <= n {
      FiringClean(a, b, fired, now, actions);
    }
    assert AtMost(b, n, now, actions);
  }

  // ---- callbacks that schedule for later only ----

  /** Whatever a callback schedules falls due after the clock reading of the Tick that runs it. */
  ghost predicate Forward(actions: Behaviour) {
    forall cb, i :: 0 <= i < |actions(cb)| && actions(cb)[i].ScheduleTimer? ==>
      actions(cb)[i].lag + actions(cb)[i].delay >= 1
  }

  function CancelsOf(actions: seq<Action>): set<nat> {
    set i | 0 <= i < |actions| && actions[i].CancelTimer? :: actions[i].id
  }

  function CancelsBy(t: Timer, actions: Behaviour): set<nat> {
    if t.callback.Some? then CancelsOf(actions(t.callback.value)) else {}
  }

  function AllCancels(fired: seq<Timer>, actions: Behaviour): set<nat> {
    if fired == [] then {}
    else AllCancels(fired[..|fired| - 1], actions) + CancelsBy(fired[|fired| - 1], actions)
  }

  /** The timers fired are due and live, each once, in order of deadline, none cancelled by one fired before. */
  ghost predicate FiredWell(start: set<Timer>, fired: seq<Timer>, now: int, actions: Behaviour) {
    && (forall i :: 0 <= i < |fired| ==> fired[i] in start && Live(fired[i]) && fired[i].deadline <= now)
    && (forall i, j :: 0 <= i < j < |fired| ==>
          fired[i].deadline <= fired[j].deadline && fired[i].id != fired[j].id
          && fired[j].id !in CancelsBy(fired[i], actions))
  }

  /** One of the timers fired, with no later deadline, cancels t. */
  ghost predicate CancelledBefore(fired: seq<Timer>, t: Timer, actions: Behaviour) {
    exists i :: 0 <= i < |fired| && fired[i].deadline <= t.deadline && t.id in CancelsBy(fired[i], actions)
  }

  /** No due live timer is passed over unless the callback of a timer due no later cancelled it. */
  ghost predicate FiredAll(start: set<Timer>, fired: seq<Timer>, now: int, actions: Behaviour) {
    forall t :: t in start && Live(t) && t.deadline <= now ==> t in fired || CancelledBefore(fired, t, actions)
  }

  /** What is left falls due later, and is all of what was not due, with the cancellations marked. */
  ghost predicate RestKept(start: set<Timer>, rest: set<Timer>, now: int, cancels: set<nat>) {
    && (forall t :: t in rest ==> t.deadline > now)
    && (forall t :: t in start && t.deadline > now && !t.cancelled ==> Mark(t, cancels) in rest)
  }

  /** How timers change: the ids in `cancels` are marked, and what is new is later than now. */
  ghost predicate Evolves(a: set<Timer>, b: set<Timer>, now: int, cancels: set<nat>) {
    && (forall t :: t in a ==> Mark(t, cancels) in b)
    && (forall t :: t in b && t.deadline <= now ==> Stems(t, a, cancels))
  }

  ghost predicate Stems(t: Timer, a: set<Timer>, cancels: set<nat>) {
    exists t0 :: t0 in a && t == Mark(t0, cancels)
  }

  lemma EvolveNothing(a: set<Timer>, now: int)
    ensures Evolves(a, a, now, {})
  {
    forall t | t in a ensures Stems(t, a, {}) {
      assert t == Mark(t, {});
    }
  }

  lemma ActEvolves(a: set<Timer>, s: Store, action: Action, now: int, cancels: set<nat>)
    requires Evolves(a, s.pool, now, cancels) && (action.ScheduleTimer? ==> action.lag + action.delay >= 1)
    ensures Evolves(a, Acted(s, action, now).pool, now,
                    if action.CancelTimer? then cancels + {action.id} else cancels)
  {
    if action.CancelTimer? {
      var all, b := cancels + {action.id}, Marked(s.pool, action.id);
      forall t | t in a ensures Mark(t, all) in b {
        assert Mark(t, all) == Mark(Mark(t, cancels), {action.id});
      }
      forall t | t in b && t.deadline <= now ensures Stems(t, a, all) {
        var u :| u in s.pool && t == Mark(u, {action.id});
        var t0 :| t0 in a && u == Mark(t0, cancels);
        assert t == Mark(t0, all);
      }
    }
  }

  lemma CancelsNext(todo: seq<Action>)
    requires todo != []
    ensures var before, last := todo[..|todo| - 1], todo[|todo| - 1];
            CancelsOf(todo) == if last.CancelTimer? then CancelsOf(before) + {last.id} else CancelsOf(before)
  {
    var before, last := todo[..|todo| - 1], todo[|todo| - 1];
    assert forall j :: 0 <= j < |before| ==> todo[j] == before[j];
    if last.CancelTimer? {
      assert last.id in CancelsOf(todo);
    }
  }

  lemma {:induction false} ActAllEvolves(a: set<Timer>, s: Store, todo: seq<Action>, now: int, cancels: set<nat>)
    requires Evolves(a, s.pool, now, cancels)
    requires forall i :: 0 <= i < |todo| && todo[i].ScheduleTimer? ==> todo[i].lag + todo[i].delay >= 1
    ensures Evolves(a, ActedAll(s, todo, now).pool, now, cancels + CancelsOf(todo))
  {
    hide Evolves, Acted, CancelsOf;
    if todo == [] {
      assert cancels + CancelsOf(todo) == cancels by { NothingCancelled(); }
    } else {
      var before, last := todo[..|todo| - 1], todo[|todo| - 1];
      ActAllEvolves(a, s, before, now, cancels);
      ActEvolves(a, ActedAll(s, before, now), last, now, cancels + CancelsOf(before));
      CancelsNext(todo);
      assert last.CancelTimer? ==> cancels + CancelsOf(before) + {last.id} == cancels + CancelsOf(todo);
    }
  }

  lemma NothingCancelled()
    ensures CancelsOf([]) == {}
  {
  }

  lemma {:induction false} AfterEvolves(s: Store, fired: seq<Timer>, now: int, actions: Behaviour)
    requires Forward(actions)
    ensures Evolves(s.pool, AfterFiring(s, fired, now, actions).pool, now, AllCancels(fired, actions))
  {
    hide Evolves, ActedAll, CancelsOf;
    if fired == [] {
      EvolveNothing(s.pool, now);
    } else {
      var before, last := fired[..|fired| - 1], fired[|fired| - 1];
      AfterEvolves(s, before, now, actions);
      if last.callback.Some? {
        ActAllEvolves(s.pool, AfterFiring(s, before, now, actions), actions(last.callback.value), now,
                      AllCancels(before, actions));
      } else {
        assert AllCancels(fired, actions) == AllCancels(before, actions);
      }
    }
  }

  lemma {:induction false} CancelsIn(fired: seq<Timer>, i: nat, j: nat, actions: Behaviour)
    requires i < j <= |fired|
    ensures AllCancels(fired[..i], actions) + CancelsBy(fired[i], actions) <= AllCancels(fired[..j], actions)
  {
    hide CancelsBy;
    assert fired[..j][..j - 1] == fired[..j - 1];
    if i < j - 1 {
      CancelsIn(fired, i, j - 1, actions);
    }
  }

  /** A timer fired was there from the start, and nothing fired before it cancelled it. */
  lemma FiredStarts(s: Store, fired: seq<Timer>, i: nat, now: int, actions: Behaviour)
    requires Forward(actions) && Firing(s, fired, now, actions) && i < |fired|
    ensures fired[i] in s.pool && Live(fired[i]) && fired[i].deadline <= now && fired[i].id !in Ids(fired[..i])
    ensures fired[i].id !in AllCancels(fired[..i], actions)
  {
    hide AfterFiring, AllCancels, Ids;
    AfterEvolves(s, fired[..i], now, actions);
    assert FiresNext(AfterFiring(s, fired[..i], now, actions), fired[..i], fired[i], now);
    var t0 :| t0 in s.pool && fired[i] == Mark(t0, AllCancels(fired[..i], actions));
  }

  lemma StillWaiting(s: Store, fired: seq<Timer>, t: Timer, now: int, actions: Behaviour)
    requires Forward(actions) && t in s.pool && Live(t) && t.id !in AllCancels(fired, actions) && t.id !in Ids(fired)
    ensures Waiting(AfterFiring(s, fired, now, actions), fired, t)
  {
    hide AfterFiring, AllCancels, Ids;
    AfterEvolves(s, fired, now, actions);
    assert Mark(t, AllCancels(fired, actions)) == t;
  }

  /** A timer nobody has cancelled or fired by then fires no earlier than the next one. */
  lemma NoneEarlier(s: Store, fired: seq<Timer>, i: nat, t: Timer, now: int, actions: Behaviour)
    requires Forward(actions) && Firing(s, fired, now, actions) && i < |fired|
    requires t in s.pool && Live(t) && t.id !in AllCancels(fired[..i], actions) && t.id !in Ids(fired[..i])
    ensures fired[i].deadline <= t.deadline
  {
    hide AfterFiring, AllCancels, Ids;
    StillWaiting(s, fired[..i], t, now, actions);
    assert FiresNext(AfterFiring(s, fired[..i], now, actions), fired[..i], fired[i], now);
  }

  lemma ForwardWell(s: Store, fired: seq<Timer>, now: int, actions: Behaviour)
    requires Forward(actions) && Firing(s, fired, now, actions)
    ensures FiredWell(s.pool, fired, now, actions)
  {
    hide Forward, Firing, AllCancels, CancelsBy, Live;
    forall i | 0 <= i < |fired| ensures fired[i] in s.pool && Live(fired[i]) && fired[i].deadline <= now {
      FiredStarts(s, fired, i, now, actions);
    }
    forall i, j | 0 <= i < j < |fired|
      ensures fired[i].deadline <= fired[j].deadline && fired[i].id != fired[j].id
      ensures fired[j].id !in CancelsBy(fired[i], actions)
    {
      FiredStarts(s, fired, j, now, actions);
      CancelsIn(fired, i, j, actions);
      assert fired[..j][i] == fired[i] && forall t :: t in fired[..i] ==> t in fired[..j];
      NoneEarlier(s, fired, i, fired[j], now, actions);
    }
  }

  /** The first timer fired that cancels the id. */
  lemma {:induction false} FirstCancel(fired: seq<Timer>, id: nat, actions: Behaviour) returns (i: nat)
    requires id in AllCancels(fired, actions)
    ensures i < |fired| && id in CancelsBy(fired[i], actions) && id !in AllCancels(fired[..i], actions)
  {
    hide CancelsBy;
    i := |fired| - 1;
    if id in AllCancels(fired[..i], actions) {
      var before := fired[..i];
      i := FirstCancel(before, id, actions);
      assert before[..i] == fired[..i];
    }
  }

  lemma ForwardAll(s: Store, fired: seq<Timer>, now: int, actions: Behaviour)
    requires Forward(actions) && Numbered(s)
    requires Firing(s, fired, now, actions) && AllFired(s, fired, now, actions)
    ensures FiredAll(s.pool, fired, now, actions)
  {
    hide Forward, Firing, AllCancels, CancelsBy;
    ForwardWell(s, fired, now, actions);
    forall t | t in s.pool && Live(t) && t.deadline <= now && t !in fired ensures CancelledBefore(fired, t, actions) {
      assert t.id !in Ids(fired);
      if t.id !in AllCancels(fired, actions) {
        StillWaiting(s, fired, t, now, actions);
      }
      var i := FirstCancel(fired, t.id, actions);
      assert forall u :: u in fired[..i] ==> u in fired;
      NoneEarlier(s, fired, i, t, now, actions);
    }
  }

  lemma ForwardRest(s: Store, fired: seq<Timer>, now: int, actions: Behaviour)
    requires Forward(actions)
    ensures RestKept(s.pool, NotDue(AfterFiring(s, fired, now, actions), now).pool, now, AllCancels(fired, actions))
  {
    hide AfterFiring, AllCancels;
    AfterEvolves(s, fired, now, actions);
  }

  // ---- when a Tick ends ----

  /** What is scheduled is due by the clock reading of the Tick under way. */
  predicate DueNow(action: Action) {
    action.ScheduleTimer? && action.lag + action.delay <= 0
  }

  /** Chains of callbacks that schedule each other for now, from cb on, are shorter than n. */
  predicate Settles(actions: Behaviour, cb: nat, n: nat)
    decreases n
  {
    n > 0 && forall i :: 0 <= i < |actions(cb)| && DueNow(actions(cb)[i]) ==>
      Settles(actions, actions(cb)[i].callback, n - 1)
  }

  /** t is due and waits; done are the ids that have fired. */
  ghost predicate DueStill(s: Store, done: set<nat>, now: int, t: Timer) {
    t in s.pool && t.id !in done && Live(t) && t.deadline <= now
  }

  ghost predicate AllSettle(s: Store, done: set<nat>, now: int, actions: Behaviour, n: nat) {
    forall t :: DueStill(s, done, now, t) ==> Settles(actions, t.callback.value, n)
  }

  /** How many callbacks run once cb does, if its chains are shorter than n. */
  function Work(actions: Behaviour, cb: nat, n: nat): nat
    decreases n, 0
  {
    if n == 0 then 0 else 1 + Spawned(actions, actions(cb), n - 1)
  }

  function Spawned(actions: Behaviour, todo: seq<Action>, n: nat): nat
    decreases n, |todo| + 1
  {
    if todo == [] then 0
    else Spawned(actions, todo[..|todo| - 1], n) + Extra(actions, todo[|todo| - 1], n)
  }

  function Extra(actions: Behaviour, action: Action, n: nat): nat
    decreases n, 1
  {
    if DueNow(action) then Work(actions, action.callback, n) else 0
  }

  ghost predicate DueUnder(s: Store, done: set<nat>, now: int, id: nat, t: Timer) {
    DueStill(s, done, now, t) && t.id == id
  }

  ghost function Weight(s: Store, done: set<nat>, now: int, actions: Behaviour, n: nat, id: nat): nat {
    if t :| DueUnder(s, done, now, id, t) then Work(actions, t.callback.value, n) else 0
  }

  /** The callbacks still to run for the timers with ids below k. */
  ghost function Load(s: Store, done: set<nat>, now: int, actions: Behaviour, n: nat, k: nat): nat {
    if k == 0 then 0
    else Load(s, done, now, actions, n, k - 1) + Weight(s, done, now, actions, n, k - 1)
  }

  lemma {:induction false} WorkStable(actions: Behaviour, cb: nat, m: nat, n: nat)
    requires Settles(actions, cb, m) && m <= n
    ensures Settles(actions, cb, n) && Work(actions, cb, m) == Work(actions, cb, n)
    decreases m
  {
    var todo := actions(cb);
    forall i | 0 <= i < |todo| && DueNow(todo[i])
      ensures Settles(actions, todo[i].callback, n - 1)
              && Work(actions, todo[i].callback, m - 1) == Work(actions, todo[i].callback, n - 1)
    {
      WorkStable(actions, todo[i].callback, m - 1, n - 1);
    }
    SpawnedSame(actions, todo, m - 1, n - 1);
  }

  lemma {:induction false} SpawnedSame(actions: Behaviour, todo: seq<Action>, m: nat, n: nat)
    requires forall i :: 0 <= i < |todo| && DueNow(todo[i]) ==>
               Work(actions, todo[i].callback, m) == Work(actions, todo[i].callback, n)
    ensures Spawned(actions, todo, m) == Spawned(actions, todo, n)
  {
    hide Work, DueNow;
    if todo != [] {
      SpawnedSame(actions, todo[..|todo| - 1], m, n);
    }
  }

  lemma WeightAt(s: Store, done: set<nat>, now: int, actions: Behaviour, n: nat, t: Timer)
    requires Numbered(s) && DueStill(s, done, now, t)
    ensures Weight(s, done, now, actions, n, t.id) == Work(actions, t.callback.value, n)
  {
    hide Work;
    assert DueUnder(s, done, now, t.id, t);
  }

  lemma WeightNone(s: Store, done: set<nat>, now: int, actions: Behaviour, n: nat, id: nat)
    requires forall t :: t in s.pool && t.id == id ==> !DueStill(s, done, now, t)
    ensures Weight(s, done, now, actions, n, id) == 0
  {
    hide Work;
  }

  /** What is due in r and has not fired was so in s. */
  lemma WeightLess(s: Store, r: Store, done: set<nat>, done': set<nat>, now: int, actions: Behaviour, n: nat, id: nat)
    requires Numbered(s) && Numbered(r)
    requires forall t :: DueStill(r, done', now, t) && t.id == id ==> DueStill(s, done, now, t)
    ensures Weight(r, done', now, actions, n, id) <= Weight(s, done, now, actions, n, id)
  {
    hide Numbered, DueStill, Work, Weight;
    if t :| DueStill(r, done', now, t) && t.id == id {
      WeightAt(r, done', now, actions, n, t);
      WeightAt(s, done, now, actions, n, t);
    } else {
      WeightNone(r, done', now, actions, n, id);
    }
  }

  lemma {:induction false} LoadLess(s: Store, r: Store, done: set<nat>, done': set<nat>, now: int, actions: Behaviour,
                                    n: nat, k: nat)
    requires Numbered(s) && Numbered(r)
    requires forall t :: DueStill(r, done', now, t) && t.id < k ==> DueStill(s, done, now, t)
    ensures Load(r, done', now, actions, n, k) <= Load(s, done, now, actions, n, k)
  {
    hide Numbered, DueStill, Weight;
    if k > 0 {
      LoadLess(s, r, done, done', now, actions, n, k - 1);
      WeightLess(s, r, done, done', now, actions, n, k - 1);
    }
  }

  lemma DoneOnce(s: Store, done: set<nat>, now: int, t: Timer)
    ensures forall u :: DueStill(s, done + {t.id}, now, u) ==> DueStill(s, done, now, u) && u.id != t.id
  {
  }

  /** When t fires, what is left is less by the work of t. */
  lemma {:induction false} LoadFired(s: Store, done: set<nat>, now: int, actions: Behaviour, n: nat, t: Timer, k: nat)
    requires Numbered(s) && DueStill(s, done, now, t) && t.id < k
    ensures Load(s, done + {t.id}, now, actions, n, k) + Work(actions, t.callback.value, n)
            <= Load(s, done, now, actions, n, k)
  {
    hide Numbered, DueStill, Weight, Work;
    var done' := done + {t.id};
    DoneOnce(s, done, now, t);
    if t.id == k - 1 {
      LoadLess(s, s, done, done', now, actions, n, k - 1);
      WeightAt(s, done, now, actions, n, t);
      WeightNone(s, done', now, actions, n, t.id);
    } else {
      LoadFired(s, done, now, actions, n, t, k - 1);
      WeightLess(s, s, done, done', now, actions, n, k - 1);
    }
  }

  lemma ActNumbered(s: Store, action: Action, now: int)
    requires Numbered(s)
    ensures Numbered(Acted(s, action, now)) && s.nextId <= Acted(s, action, now).nextId
  {
  }

  /** What is due after a call was due before, or was scheduled by it. */
  lemma ActDue(s: Store, done: set<nat>, action: Action, now: int, t: Timer)
    requires DueStill(Acted(s, action, now), done, now, t)
    ensures DueStill(s, done, now, t) || (DueNow(action) && t.callback == Some(action.callback) && t.id == s.nextId)
  {
  }

  lemma ActLoad(s: Store, done: set<nat>, action: Action, now: int, actions: Behaviour, n: nat)
    requires Numbered(s)
    ensures var r := Acted(s, action, now);
            Load(r, done, now, actions, n, r.nextId) <= Load(s, done, now, actions, n, s.nextId)
                                                        + Extra(actions, action, n)
  {
    var r := Acted(s, action, now);
    ActNumbered(s, action, now);
    forall t | DueStill(r, done, now, t) && t.id < s.nextId ensures DueStill(s, done, now, t) {
      ActDue(s, done, action, now, t);
    }
    LoadLess(s, r, done, done, now, actions, n, s.nextId);
    if action.ScheduleTimer? {
      NewWeight(s, done, action, now, actions, n);
    }
    hide Numbered, DueStill, Weight, Work;
  }

  lemma NewWeight(s: Store, done: set<nat>, action: Action, now: int, actions: Behaviour, n: nat)
    requires Numbered(s) && action.ScheduleTimer?
    ensures Weight(Acted(s, action, now), done, now, actions, n, s.nextId) <= Extra(actions, action, n)
  {
    var r := Acted(s, action, now);
    ActNumbered(s, action, now);
    hide Work, Weight;
    if t :| DueStill(r, done, now, t) && t.id == s.nextId {
      ActDue(s, done, action, now, t);
      WeightAt(r, done, now, actions, n, t);
    } else {
      WeightNone(r, done, now, actions, n, s.nextId);
    }
  }

  /** Calls that leave all work settled add no more than what they schedule for now. */
  lemma {:induction false} ActAllLoad(s: Store, done: set<nat>, todo: seq<Action>, now: int, actions: Behaviour,
                                      n: nat)
    requires Numbered(s) && AllSettle(s, done, now, actions, n)
    requires forall i :: 0 <= i < |todo| && DueNow(todo[i]) ==> Settles(actions, todo[i].callback, n)
    ensures var r := ActedAll(s, todo, now);
            && Numbered(r) && s.nextId <= r.nextId && AllSettle(r, done, now, actions, n)
            && Load(r, done, now, actions, n, r.nextId) <= Load(s, done, now, actions, n, s.nextId)
                                                           + Spawned(actions, todo, n)
  {
    hide Numbered, AllSettle, Acted, Load, Extra, Settles, DueNow;
    if todo != [] {
      var before, last := todo[..|todo| - 1], todo[|todo| - 1];
      ActAllLoad(s, done, before, now, actions, n);
      var r := ActedAll(s, before, now);
      ActNumbered(r, last, now);
      ActLoad(r, done, last, now, actions, n);
      ActSettle(r, done, last, now, actions, n);
    }
  }

  lemma ActSettle(s: Store, done: set<nat>, action: Action, now: int, actions: Behaviour, n: nat)
    requires AllSettle(s, done, now, actions, n)
    requires DueNow(action) ==> Settles(actions, action.callback, n)
    ensures AllSettle(Acted(s, action, now), done, now, actions, n)
  {
    hide Settles, Acted, DueStill, DueNow;
    forall t | DueStill(Acted(s, action, now), done, now, t)
      ensures t.callback.Some? && Settles(actions, t.callback.value, n)
    {
      ActDue(s, done, action, now, t);
      StillHasCallback(Acted(s, action, now), done, now, t);
    }
  }

  lemma StillHasCallback(s: Store, done: set<nat>, now: int, t: Timer)
    requires DueStill(s, done, now, t)
    ensures t.callback.Some?
  {
  }

  /** Firing one timer leaves strictly less to run. */
  lemma FireShrinks(s: Store, done: set<nat>, t: Timer, now: int, actions: Behaviour, n: nat)
    requires Numbered(s) && AllSettle(s, done, now, actions, n) && DueStill(s, done, now, t)
    ensures t.callback.Some?
    ensures var r, done' := ActedAll(s, actions(t.callback.value), now), done + {t.id};
            && Numbered(r) && AllSettle(r, done', now, actions, n)
            && Load(r, done', now, actions, n, r.nextId) < Load(s, done, now, actions, n, s.nextId)
  {
    var todo, done' := actions(t.callback.value), done + {t.id};
    assert t.id < s.nextId && Settles(actions, t.callback.value, n);
    assert AllSettle(s, done', now, actions, n);
    LoadFired(s, done, now, actions, n, t, s.nextId);
    forall i | 0 <= i < |todo| && DueNow(todo[i])
      ensures Settles(actions, todo[i].callback, n)
              && Work(actions, todo[i].callback, n - 1) == Work(actions, todo[i].callback, n)
    {
      WorkStable(actions, todo[i].callback, n - 1, n);
    }
    SpawnedSame(actions, todo, n - 1, n);
    ActAllLoad(s, done', todo, now, actions, n);
    hide Numbered, AllSettle, Load, ActedAll, Settles, Spawned, DueStill;
  }

  /** A firing leaves all work settled, and its length and what is left to run are together no more than at first. */
  lemma {:induction false} FiringShrinks(s: Store, fired: seq<Timer>, now: int, actions: Behaviour, n: nat)
    requires Numbered(s) && AllSettle(s, {}, now, actions, n) && Firing(s, fired, now, actions)
    ensures var r := AfterFiring(s, fired, now, actions);
            && Numbered(r) && AllSettle(r, Ids(fired), now, actions, n)
            && |fired| + Load(r, Ids(fired), now, actions, n, r.nextId) <= Load(s, {}, now, actions, n, s.nextId)
  {
    hide Numbered, AllSettle, Load, AfterFiring;
    if fired == [] {
      assert AfterFiring(s, fired, now, actions) == s by { NothingFired(s, now, actions); }
      assert Ids(fired) == {};
    } else {
      var before, t := fired[..|fired| - 1], fired[|fired| - 1];
      FiringPrefix(s, fired, |before|, now, actions);
      FiringShrinks(s, before, now, actions, n);
      var r := AfterFiring(s, before, now, actions);
      assert FiresNext(r, before, t, now);
      FireShrinks(r, Ids(before), t, now, actions, n);
      assert fired == before + [t];
      AfterNext(s, before, t, now, actions);
      assert Ids(fired) == Ids(before) + {t.id};
    }
  }

  lemma NothingFired(s: Store, now: int, actions: Behaviour)
    ensures AfterFiring(s, [], now, actions) == s
  {
  }

  /** A Tick ends, whatever is cancelled, if all chains of the callbacks due are shorter than some n. */
  lemma SettledEnds(s: Store, now: int, actions: Behaviour, n: nat)
    requires Numbered(s) && AllSettle(s, {}, now, actions, n)
    ensures Ends(s, now, actions)
  {
    hide Numbered, AllSettle, Firing, Load;
    var most := Load(s, {}, now, actions, n, s.nextId);
    forall fired | Firing(s, fired, now, actions) ensures |fired| <= most {
      FiringShrinks(s, fired, now, actions, n);
    }
    assert AtMost(s, most, now, actions);
  }

  /** So it ends if callbacks schedule for later only. */
  lemma ForwardEnds(s: Store, now: int, actions: Behaviour)
    requires Numbered(s) && Forward(actions)
    ensures Ends(s, now, actions)
  {
    forall cb ensures Settles(actions, cb, 1) {
      assert forall i :: 0 <= i < |actions(cb)| ==> !DueNow(actions(cb)[i]);
    }
    SettledEnds(s, now, actions, 1);
  }

  // ---- when a Tick does not end ----

  ghost predicate NoCancels(actions: Behaviour) {
    forall cb, i :: 0 <= i < |actions(cb)| ==> actions(cb)[i].ScheduleTimer?
  }

  ghost predicate Unsettled(actions: Behaviour, cb: nat) {
    forall n: nat :: !Settles(actions, cb, n)
  }

  /** Something due waits whose chains have no bound. */
  ghost predicate EndlessDue(s: Store, done: set<nat>, now: int, actions: Behaviour) {
    exists t :: DueStill(s, done, now, t) && Unsettled(actions, t.callback.value)
  }

  /** If each call for now settles, they all do below one bound. */
  lemma {:induction false} CommonBound(actions: Behaviour, todo: seq<Action>) returns (n: nat)
    requires forall i :: 0 <= i < |todo| && DueNow(todo[i]) ==> !Unsettled(actions, todo[i].callback)
    ensures forall i :: 0 <= i < |todo| && DueNow(todo[i]) ==> Settles(actions, todo[i].callback, n)
  {
    hide Settles;
    n := 0;
    if todo != [] {
      var last := todo[|todo| - 1];
      n := CommonBound(actions, todo[..|todo| - 1]);
      var m := n;
      if DueNow(last) {
        var k: nat :| Settles(actions, last.callback, k);
        n := if m > k then m else k;
        WorkStable(actions, last.callback, k, n);
      }
      forall i | 0 <= i < |todo| - 1 && DueNow(todo[i]) ensures Settles(actions, todo[i].callback, n) {
        assert todo[i] == todo[..|todo| - 1][i];
        WorkStable(actions, todo[i].callback, m, n);
      }
    }
  }

  /** A callback whose chains have no bound schedules one for now whose chains have none either. */
  lemma UnsettledNext(actions: Behaviour, cb: nat) returns (i: nat)
    requires Unsettled(actions, cb)
    ensures i < |actions(cb)| && DueNow(actions(cb)[i]) && Unsettled(actions, actions(cb)[i].callback)
  {
    var todo := actions(cb);
    if forall i :: 0 <= i < |todo| && DueNow(todo[i]) ==> !Unsettled(actions, todo[i].callback) {
      var n := CommonBound(actions, todo);
      assert Settles(actions, cb, n + 1);
    }
    i :| 0 <= i < |todo| && DueNow(todo[i]) && Unsettled(actions, todo[i].callback);
  }

  /** Without cancelling, calls keep what there is and add what they schedule. */
  lemma {:induction false} ActAllAdds(s: Store, todo: seq<Action>, now: int)
    requires forall i :: 0 <= i < |todo| ==> todo[i].ScheduleTimer?
    ensures var r := ActedAll(s, todo, now);
            && s.pool <= r.pool && r.nextId == s.nextId + |todo|
            && forall i :: 0 <= i < |todo| ==>
                 Timer(s.nextId + i, now + todo[i].lag + todo[i].delay, Some(todo[i].callback), false) in r.pool
  {
    if todo != [] {
      var before := todo[..|todo| - 1];
      ActAllAdds(s, before, now);
      assert forall i :: 0 <= i < |before| ==> todo[i] == before[i];
    }
  }

  /** Whatever has fired, something due with unbounded chains waits still. */
  lemma FireUnsettled(s: Store, done: set<nat>, t: Timer, now: int, actions: Behaviour)
    requires NoCancels(actions) && Numbered(s) && EndlessDue(s, done, now, actions) && t in s.pool && t.callback.Some?
    requires forall id :: id in done + {t.id} ==> id < s.nextId
    ensures var r := ActedAll(s, actions(t.callback.value), now);
            EndlessDue(r, done + {t.id}, now, actions) && s.nextId <= r.nextId
  {
    var todo, done' := actions(t.callback.value), done + {t.id};
    var r := ActedAll(s, todo, now);
    hide Unsettled, Settles;
    ActAllAdds(s, todo, now);
    var u :| DueStill(s, done, now, u) && Unsettled(actions, u.callback.value);
    if u.id == t.id {
      var i := UnsettledNext(actions, t.callback.value);
      var v := Timer(s.nextId + i, now + todo[i].lag + todo[i].delay, Some(todo[i].callback), false);
      assert v in r.pool && DueStill(r, done', now, v);
    } else {
      assert DueStill(r, done', now, u);
    }
  }

  lemma {:induction false} FiringUnsettled(s: Store, fired: seq<Timer>, now: int, actions: Behaviour)
    requires NoCancels(actions) && Numbered(s) && EndlessDue(s, {}, now, actions) && Firing(s, fired, now, actions)
    ensures var r := AfterFiring(s, fired, now, actions);
            && Numbered(r) && EndlessDue(r, Ids(fired), now, actions) && forall id :: id in Ids(fired) ==> id < r.nextId
  {
    hide NoCancels, EndlessDue, AfterFiring;
    if fired == [] {
      assert AfterFiring(s, fired, now, actions) == s by { NothingFired(s, now, actions); }
      assert Ids(fired) == {};
    } else {
      var before, t := fired[..|fired| - 1], fired[|fired| - 1];
      FiringPrefix(s, fired, |before|, now, actions);
      FiringUnsettled(s, before, now, actions);
      var r := AfterFiring(s, before, now, actions);
      assert FiresNext(r, before, t, now);
      FireUnsettled(r, Ids(before), t, now, actions);
      ActAllNumbered(r, actions(t.callback.value), now);
      assert fired == before + [t];
      AfterNext(s, before, t, now, actions);
      assert Ids(fired) == Ids(before) + {t.id};
    }
  }

  lemma {:induction false} ActAllNumbered(s: Store, todo: seq<Action>, now: int)
    requires Numbered(s)
    ensures Numbered(ActedAll(s, todo, now))
  {
    hide Numbered, Acted;
    if todo != [] {
      ActAllNumbered(s, todo[..|todo| - 1], now);
      ActNumbered(ActedAll(s, todo[..|todo| - 1], now), todo[|todo| - 1], now);
    }
  }

  /** One of finitely many timers has the least deadline. */
  lemma {:induction false} Earliest(ts: set<Timer>) returns (t: Timer)
    requires ts != {}
    ensures t in ts && forall u :: u in ts ==> t.deadline <= u.deadline
    decreases |ts|
  {
    t :| t in ts;
    if ts != {t} {
      var u := Earliest(ts - {t});
      if u.deadline < t.deadline {
        t := u;
      }
    }
  }

  /** While something due waits, something fires next. */
  lemma SomeFires(s: Store, fired: seq<Timer>, now: int) returns (t: Timer)
    requires exists u :: DueStill(s, Ids(fired), now, u)
    ensures FiresNext(s, fired, t, now)
  {
    hide Ids;
    var u :| DueStill(s, Ids(fired), now, u);
    var ts := set v | v in s.pool && Waiting(s, fired, v);
    assert u in ts;
    t := Earliest(ts);
  }

  lemma {:induction false} FiresOn(s: Store, now: int, actions: Behaviour, n: nat) returns (fired: seq<Timer>)
    requires NoCancels(actions) && Numbered(s) && EndlessDue(s, {}, now, actions)
    ensures |fired| == n && Firing(s, fired, now, actions)
  {
    hide NoCancels, Numbered, AfterFiring, FiresNext;
    fired := [];
    if n > 0 {
      fired := FiresOn(s, now, actions, n - 1);
      FiringUnsettled(s, fired, now, actions);
      hide Firing;
      var t := SomeFires(AfterFiring(s, fired, now, actions), fired, now);
      FiringNext(s, fired, t, now, actions);
      fired := fired + [t];
    }
  }

  lemma {:induction false} PoolBound(ts: set<Timer>, actions: Behaviour) returns (n: nat)
    requires forall t :: t in ts ==> t.callback.Some? && !Unsettled(actions, t.callback.value)
    ensures forall t :: t in ts ==> Settles(actions, t.callback.value, n)
    decreases |ts|
  {
    hide Settles;
    n := 0;
    if t :| t in ts {
      var m := PoolBound(ts - {t}, actions);
      var k: nat :| Settles(actions, t.callback.value, k);
      n := if m > k then m else k;
      WorkStable(actions, t.callback.value, k, n);
      forall u | u in ts && u != t ensures Settles(actions, u.callback.value, n) {
        WorkStable(actions, u.callback.value, m, n);
      }
    }
  }

  /** When nobody cancels, a Tick ends exactly when the chains of all callbacks due have a common bound. */
  lemma EndsExactly(s: Store, now: int, actions: Behaviour)
    requires Numbered(s) && NoCancels(actions)
    ensures Ends(s, now, actions) <==> exists n: nat :: AllSettle(s, {}, now, actions, n)
  {
    hide Numbered, NoCancels, Firing, Settles;
    if n: nat :| AllSettle(s, {}, now, actions, n) {
      SettledEnds(s, now, actions, n);
    } else {
      var ts := set t | t in s.pool && DueStill(s, {}, now, t);
      if EndlessDue(s, {}, now, actions) {
        if n: nat :| AtMost(s, n, now, actions) {
          var fired := FiresOn(s, now, actions, n + 1);
        }
      } else {
        var n := PoolBound(ts, actions);
        assert AllSettle(s, {}, now, actions, n);
      }
    }
  }

  /** What is scheduled for now always has a smaller rank: callbacks cannot come back to themselves. */
  ghost predicate Ranked(actions: Behaviour, rank: nat -> nat) {
    forall cb, i :: 0 <= i < |actions(cb)| && DueNow(actions(cb)[i]) ==> rank(actions(cb)[i].callback) < rank(cb)
  }

  lemma {:induction false} RankedSettles(actions: Behaviour, rank: nat -> nat, cb: nat)
    requires Ranked(actions, rank)
    ensures Settles(actions, cb, rank(cb) + 1)
    decreases rank(cb)
  {
    var todo := actions(cb);
    forall i | 0 <= i < |todo| && DueNow(todo[i]) ensures Settles(actions, todo[i].callback, rank(cb)) {
      RankedSettles(actions, rank, todo[i].callback);
      WorkStable(actions, todo[i].callback, rank(todo[i].callback) + 1, rank(cb));
    }
  }

  /** A Tick ends if callbacks are ranked, as when one without delay schedules only such as are due later. */
  lemma RankedEnds(s: Store, now: int, actions: Behaviour, rank: nat -> nat)
    requires Numbered(s) && Ranked(actions, rank)
    ensures Ends(s, now, actions)
  {
    var ts := set t | t in s.pool && DueStill(s, {}, now, t);
    forall t | t in ts ensures t.callback.Some? && !Unsettled(actions, t.callback.value) {
      RankedSettles(actions, rank, t.callback.value);
    }
    var n := PoolBound(ts, actions);
    assert AllSettle(s, {}, now, actions, n);
    SettledEnds(s, now, actions, n);
  }

  /** A callback that schedules itself again without delay, while the clock stands still. */
  function Again(cb: nat): seq<Action> {
    [ScheduleTimer(0, 0, cb)]
  }

  lemma {:induction false} AgainUnsettled(cb: nat, n: nat)
    ensures !Settles(Again, cb, n)
  {
    if n > 0 {
      assert DueNow(Again(cb)[0]);
      AgainUnsettled(cb, n - 1);
    }
  }

  /** With one timer of that kind due, firings of every length exist: such a Tick would never end. */
  lemma EndlessTick(s: Store, t: Timer, now: int, n: nat) returns (fired: seq<Timer>)
    requires Numbered(s) && t in s.pool && Live(t) && t.deadline <= now
    ensures |fired| == n && Firing(s, fired, now, Again) && !Ends(s, now, Again)
  {
    hide Firing, Settles;
    forall n: nat ensures !Settles(Again, t.callback.value, n) {
      AgainUnsettled(t.callback.value, n);
    }
    assert DueStill(s, {}, now, t);
    EndsExactly(s, now, Again);
    fired := FiresOn(s, now, Again, n);
  }
}
