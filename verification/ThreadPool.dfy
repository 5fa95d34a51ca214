/**
 The thread pool as interleaved steps, each one critical section, notification or wakeup.  A run is any sequence of
 steps; a step that is not enabled does nothing, so every interleaving of callers and workers is a run.
 */
module ThreadPools {
  /** A task, told apart from others by a number; a caller may submit the same one twice. */
  datatype Task = Task(number: nat)

  /** Ready: about to take the lock and test the wait condition.  Waiting: asleep in cv_.wait. */
  datatype Worker = Ready | Waiting | Running(task: Task) | Exited

  /** notifies and broadcasts count the calls that have released the lock and not yet notified. */
  datatype Pool = Pool(
    tasks: seq<Task>, stop: bool, workers: seq<Worker>, notifies: nat, broadcasts: nat,
    accepted: seq<Task>, taken: seq<Task>, ran: multiset<Task>)

  datatype Step =
    | Enqueue(task: Task)
    | NotifyOne(i: nat)
    | Shutdown
    | NotifyAll
    | Spurious(i: nat)
    | Test(i: nat)
    | Finish(i: nat)

  function NewPool(n: nat): Pool {
    Pool([], false, seq(n, i => Ready), 0, 0, [], [], multiset{})
  }

  /** notify_one wakes some sleeper if there is one. */
  predicate Enabled(p: Pool, s: Step) {
    match s
    case Enqueue(_) => true
    case NotifyOne(i) => p.notifies > 0 && (Waiting in p.workers ==> i < |p.workers| && p.workers[i].Waiting?)
    case Shutdown => true
    case NotifyAll => p.broadcasts > 0
    case Spurious(i) => i < |p.workers| && p.workers[i].Waiting?
    case Test(i) => i < |p.workers| && p.workers[i].Ready?
    case Finish(i) => i < |p.workers| && p.workers[i].Running?
  }

  function Awake(w: Worker): Worker {
    if w.Waiting? then Ready else w
  }

  function Woken(ws: seq<Worker>): seq<Worker> {
    seq(|ws|, i requires 0 <= i < |ws| => Awake(ws[i]))
  }

  /** The wait condition and what follows it, under the lock. */
  function Tested(p: Pool, i: nat): Pool
    requires i < |p.workers|
  {
    if p.tasks == [] && !p.stop then p.(workers := p.workers[i := Waiting])
    else if p.tasks == [] then p.(workers := p.workers[i := Exited])
    else p.(workers := p.workers[i := Running(p.tasks[0])], tasks := p.tasks[1..], taken := p.taken + [p.tasks[0]])
  }

  function Do(p: Pool, s: Step): Pool
    requires Enabled(p, s)
  {
    match s
    case Enqueue(t) =>
      if p.stop then p
      else p.(tasks := p.tasks + [t], accepted := p.accepted + [t], notifies := p.notifies + 1)
    case NotifyOne(i) =>
      p.(notifies := p.notifies - 1,
         workers := if Waiting in p.workers then p.workers[i := Ready] else p.workers)
    case Shutdown => if p.stop then p else p.(stop := true, broadcasts := p.broadcasts + 1)
    case NotifyAll => p.(broadcasts := p.broadcasts - 1, workers := Woken(p.workers))
    case Spurious(i) => p.(workers := p.workers[i := Ready])
    case Test(i) => Tested(p, i)
    case Finish(i) => p.(workers := p.workers[i := Ready], ran := p.ran + multiset{p.workers[i].task})
  }

  function Next(p: Pool, s: Step): Pool {
    if Enabled(p, s) then Do(p, s) else p
  }

  function Run(p: Pool, steps: seq<Step>): Pool {
    if steps == [] then p else Next(Run(p, steps[..|steps| - 1]), steps[|steps| - 1])
  }

  // ---- counting workers ----

  function Count(ws: seq<Worker>, w: Worker): (n: nat)
    ensures n > 0 <==> w in ws
  {
    assert w in multiset(ws) <==> w in ws;
    multiset(ws)[w]
  }

  function Flies(w: Worker): multiset<Task> {
    if w.Running? then multiset{w.task} else multiset{}
  }

  function InFlight(ws: seq<Worker>): multiset<Task> {
    if ws == [] then multiset{} else InFlight(ws[1..]) + Flies(ws[0])
  }

  lemma {:induction false} FlightChange(ws: seq<Worker>, i: nat, w: Worker)
    requires i < |ws|
    ensures InFlight(ws[i := w]) + Flies(ws[i]) == InFlight(ws) + Flies(w)
  {
    hide Flies;
    var rest := InFlight(ws[1..]);
    if i == 0 {
      assert ws[i := w][1..] == ws[1..];
      assert (rest + Flies(w)) + Flies(ws[0]) == (rest + Flies(ws[0])) + Flies(w);
    } else {
      FlightChange(ws[1..], i - 1, w);
      assert ws[i := w][1..] == ws[1..][i - 1 := w];
      var rest' := InFlight(ws[i := w][1..]);
      assert (rest' + Flies(ws[0])) + Flies(ws[i]) == (rest' + Flies(ws[i])) + Flies(ws[0]);
      assert (rest + Flies(w)) + Flies(ws[0]) == (rest + Flies(ws[0])) + Flies(w);
    }
  }

  lemma Unchanged(ws: seq<Worker>, i: nat, w: Worker)
    requires i < |ws| && !ws[i].Running? && !w.Running?
    ensures InFlight(ws[i := w]) == InFlight(ws)
  {
    FlightChange(ws, i, w);
    var now := InFlight(ws[i := w]);
    assert now + Flies(ws[i]) == now && InFlight(ws) + Flies(w) == InFlight(ws);
  }

  lemma TakesOff(ws: seq<Worker>, i: nat, t: Task)
    requires i < |ws| && !ws[i].Running?
    ensures InFlight(ws[i := Running(t)]) == InFlight(ws) + multiset{t}
  {
    FlightChange(ws, i, Running(t));
    var now := InFlight(ws[i := Running(t)]);
    assert now + Flies(ws[i]) == now;
  }

  lemma Lands(ws: seq<Worker>, i: nat)
    requires i < |ws| && ws[i].Running?
    ensures InFlight(ws) == InFlight(ws[i := Ready]) + multiset{ws[i].task}
  {
    FlightChange(ws, i, Ready);
    assert InFlight(ws) + Flies(Ready) == InFlight(ws);
  }

  lemma {:induction false} WokenFlight(ws: seq<Worker>)
    ensures InFlight(Woken(ws)) == InFlight(ws)
  {
    if ws != [] {
      WokenFlight(ws[1..]);
      assert Woken(ws)[1..] == Woken(ws[1..]);
    }
  }

  lemma {:induction false} WokenCount(ws: seq<Worker>)
    ensures Count(Woken(ws), Ready) == Count(ws, Ready) + Count(ws, Waiting)
    ensures Waiting !in Woken(ws)
    ensures Exited in Woken(ws) ==> Exited in ws
  {
    if ws != [] {
      WokenCount(ws[1..]);
      assert Woken(ws) == [Awake(ws[0])] + Woken(ws[1..]) && ws == [ws[0]] + ws[1..];
    }
  }

  // ---- what every run keeps ----

  /** Tasks are taken in the order they were accepted, and each taken task has run or is in flight, once. */
  ghost predicate OnceInOrder(p: Pool) {
    p.accepted == p.taken + p.tasks && multiset(p.taken) == p.ran + InFlight(p.workers)
  }

  /** No wakeup is lost: while anyone sleeps, each queued task has a Ready worker or a notification on its way. */
  ghost predicate WakeupsKept(p: Pool) {
    && (Waiting in p.workers ==> |p.tasks| <= p.notifies + Count(p.workers, Ready))
    && (Waiting in p.workers && p.stop ==> p.broadcasts > 0)
    && (Exited in p.workers ==> p.stop && p.tasks == [])
  }

  lemma NextOnce(p: Pool, s: Step)
    requires OnceInOrder(p)
    ensures OnceInOrder(Next(p, s))
  {
    hide Woken, InFlight;
    if Enabled(p, s) {
      match s
      case NotifyOne(i) => if Waiting in p.workers { Unchanged(p.workers, i, Ready); }
      case NotifyAll => WokenFlight(p.workers);
      case Spurious(i) => Unchanged(p.workers, i, Ready);
      case Test(i) => TestOnce(p, i);
      case Finish(i) => Lands(p.workers, i);
      case _ =>
    }
  }

  lemma TestOnce(p: Pool, i: nat)
    requires OnceInOrder(p) && i < |p.workers| && p.workers[i].Ready?
    ensures OnceInOrder(Tested(p, i))
  {
    hide InFlight;
    if p.tasks != [] {
      TakesOff(p.workers, i, p.tasks[0]);
      assert p.tasks == [p.tasks[0]] + p.tasks[1..];
      assert multiset(p.taken + [p.tasks[0]]) == multiset(p.taken) + multiset{p.tasks[0]};
    } else {
      Unchanged(p.workers, i, if p.stop then Exited else Waiting);
    }
  }

  lemma NextWakes(p: Pool, s: Step)
    requires WakeupsKept(p)
    ensures WakeupsKept(Next(p, s))
  {
    if Enabled(p, s) {
      match s
      case NotifyOne(i) => if Waiting in p.workers { ChangeAll(p.workers, i, Ready); }
      case NotifyAll => WokenCount(p.workers);
      case Spurious(i) => ChangeAll(p.workers, i, Ready);
      case Test(i) => ChangeAll(p.workers, i, Tested(p, i).workers[i]);
      case Finish(i) => ChangeAll(p.workers, i, Ready);
      case _ =>
    }
  }

  lemma ChangeAll(ws: seq<Worker>, i: nat, w: Worker)
    requires i < |ws|
    ensures Count(ws[i := w], Ready) ==
            Count(ws, Ready) - (if ws[i] == Ready then 1 else 0) + if w == Ready then 1 else 0
    ensures Waiting in ws[i := w] ==> Waiting in ws || w == Waiting
    ensures Exited in ws[i := w] ==> Exited in ws || w == Exited
  {
  }

  lemma {:induction false} RunSafe(n: nat, steps: seq<Step>)
    ensures OnceInOrder(Run(NewPool(n), steps)) && WakeupsKept(Run(NewPool(n), steps))
    ensures |Run(NewPool(n), steps).workers| == n
  {
    if steps == [] {
      NobodyRuns(NewPool(n).workers);
    } else {
      hide Next, OnceInOrder, WakeupsKept;
      var p := Run(NewPool(n), steps[..|steps| - 1]);
      RunSafe(n, steps[..|steps| - 1]);
      NextOnce(p, steps[|steps| - 1]);
      NextWakes(p, steps[|steps| - 1]);
      SameCrew(p, steps[|steps| - 1]);
    }
  }

  lemma SameCrew(p: Pool, s: Step)
    ensures |Next(p, s).workers| == |p.workers|
  {
  }

  lemma {:induction false} NobodyRuns(ws: seq<Worker>)
    requires forall i :: 0 <= i < |ws| ==> ws[i].Ready?
    ensures InFlight(ws) == multiset{}
  {
    if ws != [] {
      NobodyRuns(ws[1..]);
    }
  }

  /** The tasks of the enqueues before the first shutdown, in order. */
  function Submitted(steps: seq<Step>): seq<Task> {
    if steps == [] then [] else
    var before, last := steps[..|steps| - 1], steps[|steps| - 1];
    Submitted(before) + if last.Enqueue? && Shutdown !in before then [last.task] else []
  }

  /** Over every interleaving the pool accepts exactly what was enqueued before the shutdown. */
  lemma {:induction false} AcceptedExactly(n: nat, steps: seq<Step>)
    ensures Run(NewPool(n), steps).accepted == Submitted(steps)
    ensures Run(NewPool(n), steps).stop <==> Shutdown in steps
  {
    if steps != [] {
      var before, last := steps[..|steps| - 1], steps[|steps| - 1];
      assert steps == before + [last];
      AcceptedExactly(n, before);
      assert Shutdown in steps <==> Shutdown in before || last == Shutdown;
    }
  }

  /** In every reachable state with a queued task, some worker is awake or a notification is on its way. */
  lemma NoLostWakeup(n: nat, steps: seq<Step>)
    requires n > 0
    ensures var p := Run(NewPool(n), steps);
            |p.workers| == n &&
            (p.tasks != [] && p.notifies == 0 ==>
               exists i :: 0 <= i < n && (p.workers[i].Ready? || p.workers[i].Running?))
  {
    RunSafe(n, steps);
    var p := Run(NewPool(n), steps);
    hide Run;
    if p.tasks != [] && p.notifies == 0 {
      var w := p.workers[0];
      if w.Waiting? {
        assert Count(p.workers, Ready) > 0;
        var i :| 0 <= i < |p.workers| && p.workers[i] == Ready;
      } else {
        assert w != Exited;
      }
    }
  }

  // ---- progress ----

  /** A step of a worker or of a call under way, as opposed to a new call or a spurious wakeup. */
  predicate Internal(s: Step) {
    s.NotifyOne? || s.NotifyAll? || s.Test? || s.Finish?
  }

  function Effort(w: Worker): nat {
    match w
    case Ready => 1
    case Running(_) => 2
    case _ => 0
  }

  function Efforts(ws: seq<Worker>): nat {
    if ws == [] then 0 else Efforts(ws[1..]) + Effort(ws[0])
  }

  /** What is left to do. */
  function Measure(p: Pool): nat {
    2 * |p.tasks| + 2 * p.notifies + (|p.workers| + 1) * p.broadcasts + Efforts(p.workers)
  }

  lemma {:induction false} EffortChange(ws: seq<Worker>, i: nat, w: Worker)
    requires i < |ws|
    ensures Efforts(ws[i := w]) == Efforts(ws) - Effort(ws[i]) + Effort(w)
  {
    if i == 0 {
      assert ws[i := w][1..] == ws[1..];
    } else {
      EffortChange(ws[1..], i - 1, w);
      assert ws[i := w][1..] == ws[1..][i - 1 := w];
    }
  }

  lemma {:induction false} WokenEffort(ws: seq<Worker>)
    ensures Efforts(Woken(ws)) <= Efforts(ws) + |ws|
  {
    if ws != [] {
      WokenEffort(ws[1..]);
      assert Woken(ws)[1..] == Woken(ws[1..]);
    }
  }

  /** Every internal step leaves strictly less to do, so without new calls the pool comes to rest. */
  lemma InternalShrinks(p: Pool, s: Step)
    requires Enabled(p, s) && Internal(s)
    ensures Measure(Do(p, s)) < Measure(p)
  {
    match s
    case NotifyOne(i) => if Waiting in p.workers { EffortChange(p.workers, i, Ready); }
    case NotifyAll =>
      WokenEffort(p.workers);
      assert (|p.workers| + 1) * (p.broadcasts - 1) == (|p.workers| + 1) * p.broadcasts - (|p.workers| + 1);
    case Test(i) => EffortChange(p.workers, i, Tested(p, i).workers[i]);
    case Finish(i) => EffortChange(p.workers, i, Ready);
  }

  /** A run of internal steps is no longer than what there was to do. */
  lemma {:induction false} InternalRunsEnd(p: Pool, steps: seq<Step>)
    requires forall i :: 0 <= i < |steps| ==> Internal(steps[i]) && Enabled(Run(p, steps[..i]), steps[i])
    ensures |steps| + Measure(Run(p, steps)) <= Measure(p)
  {
    hide Measure, Internal, Enabled;
    if steps != [] {
      var before := steps[..|steps| - 1];
      forall i | 0 <= i < |before| ensures Internal(before[i]) && Enabled(Run(p, before[..i]), before[i]) {
        assert before[..i] == steps[..i] && before[i] == steps[i];
      }
      InternalRunsEnd(p, before);
      InternalShrinks(Run(p, before), steps[|before|]);
    }
  }

  /** At rest: no internal step is enabled. */
  ghost predicate AtRest(p: Pool) {
    forall s :: Internal(s) ==> !Enabled(p, s)
  }

  lemma RestWorkers(p: Pool)
    requires AtRest(p) && WakeupsKept(p)
    ensures p.notifies == 0 && p.broadcasts == 0
    ensures forall i :: 0 <= i < |p.workers| ==> p.workers[i].Waiting? || p.workers[i].Exited?
  {
    assert !Enabled(p, NotifyAll);
    if Waiting in p.workers {
      var i :| 0 <= i < |p.workers| && p.workers[i] == Waiting;
      assert !Enabled(p, NotifyOne(i));
    } else {
      assert !Enabled(p, NotifyOne(0));
    }
    forall i | 0 <= i < |p.workers| ensures p.workers[i].Waiting? || p.workers[i].Exited? {
      assert !Enabled(p, Test(i)) && !Enabled(p, Finish(i));
    }
  }

  lemma {:induction false} IdleFlies(ws: seq<Worker>)
    requires forall i :: 0 <= i < |ws| ==> ws[i].Waiting? || ws[i].Exited?
    ensures InFlight(ws) == multiset{} && Count(ws, Ready) == 0
  {
    if ws != [] {
      IdleFlies(ws[1..]);
    }
  }

  /** A pool at rest has run every accepted task exactly once, and if it was shut down all its workers are gone. */
  lemma RestMeansDone(n: nat, steps: seq<Step>)
    requires n > 0 && AtRest(Run(NewPool(n), steps))
    ensures var p := Run(NewPool(n), steps);
            |p.workers| == n && p.tasks == [] && p.ran == multiset(p.accepted)
            && (p.stop ==> forall i :: 0 <= i < n ==> p.workers[i].Exited?)
  {
    RunSafe(n, steps);
    var p := Run(NewPool(n), steps);
    hide Run, AtRest;
    RestWorkers(p);
    IdleFlies(p.workers);
    assert p.workers[0] in p.workers;
    assert p.tasks == [];
    assert p.accepted == p.taken;
  }

  /** Once every worker has exited after Shutdown, every task accepted has run and none is left. */
  lemma ExitedMeansDone(n: nat, steps: seq<Step>)
    requires n > 0 && forall w :: w in Run(NewPool(n), steps).workers ==> w.Exited?
    ensures var p := Run(NewPool(n), steps); p.stop && p.tasks == [] && p.ran == multiset(p.accepted)
  {
    RunSafe(n, steps);
    var p := Run(NewPool(n), steps);
    hide Run;
    IdleFlies(p.workers);
    assert p.workers[0] in p.workers;
    assert p.accepted == p.taken;
  }

  /** Without a worker nothing is ever taken. */
  lemma {:induction false} NobodyTakes(steps: seq<Step>)
    ensures var p := Run(NewPool(0), steps); p.workers == [] && p.taken == [] && p.ran == multiset{}
  {
    if steps != [] {
      NobodyTakes(steps[..|steps| - 1]);
    }
  }

  /** A pool at rest has run all it accepted exactly when it has a worker or accepted nothing. */
  lemma RestDoneExactly(n: nat, steps: seq<Step>)
    requires AtRest(Run(NewPool(n), steps))
    ensures var p := Run(NewPool(n), steps);
            p.ran == multiset(p.accepted) <==> n > 0 || p.accepted == []
  {
    var p := Run(NewPool(n), steps);
    if n > 0 {
      RestMeansDone(n, steps);
    } else {
      NobodyTakes(steps);
      hide Run, AtRest;
      assert p.accepted != [] ==> p.accepted[0] in multiset(p.accepted);
    }
  }

  /** Without a worker a shutdown can leave an accepted task unrun. */
  lemma NoWorkers(t: Task)
    ensures var p := Run(NewPool(0), [Enqueue(t), Shutdown]); p.stop && p.accepted == [t] && p.ran == multiset{}
  {
    var steps := [Enqueue(t), Shutdown];
    assert steps[..1] == [Enqueue(t)] && steps[..1][..0] == [];
    assert Run(NewPool(0), steps[..1][..0]) == NewPool(0);
  }

  // ---- the class ----

  /** What a worker does on leaving the critical section of its loop. */
  datatype Decision = Sleep | Leave | Take(task: Task)

  /**
   The code under the mutex, one method to a critical section.  Where the threads stand and which calls are between
   unlocking and notifying is kept in ghost fields.
   */
  class ThreadPool {
    var tasks: seq<Task>
    var stop: bool
    ghost var workers: seq<Worker>
    ghost var notifies: nat
    ghost var broadcasts: nat
    ghost var accepted: seq<Task>
    ghost var taken: seq<Task>
    ghost var ran: multiset<Task>

    ghost function View(): Pool
      reads this
    {
      Pool(tasks, stop, workers, notifies, broadcasts, accepted, taken, ran)
    }

    constructor (n: nat)
      ensures View() == NewPool(n)
    {
      tasks, stop := [], false;
      workers, notifies, broadcasts := NewPool(n).workers, 0, 0;
      accepted, taken, ran := [], [], multiset{};
    }

    method EnqueueSection(task: Task)
      modifies this
      ensures View() == Next(old(View()), Enqueue(task))
    {
      if stop {
        return;
      }
      tasks := tasks + [task];
      accepted, notifies := accepted + [task], notifies + 1;
    }

    method ShutdownSection()
      modifies this
      ensures View() == Next(old(View()), Shutdown)
    {
      if stop {
        return;
      }
      stop := true;
      broadcasts := broadcasts + 1;
    }

    /** Worker i holds the lock and tests the wait condition. */
    method LoopSection(ghost i: nat) returns (d: Decision)
      requires i < |workers| && workers[i].Ready?
      modifies this
      ensures View() == Next(old(View()), Test(i))
      ensures workers[i] == match d case Sleep => Waiting case Leave => Exited case Take(t) => Running(t)
    {
      if tasks == [] && !stop {
        workers := workers[i := Waiting];
        return Sleep;
      }
      if stop && tasks == [] {
        workers := workers[i := Exited];
        return Leave;
      }
      var task := tasks[0];
      tasks := tasks[1..];
      workers, taken := workers[i := Running(task)], taken + [task];
      return Take(task);
    }
  }
}
