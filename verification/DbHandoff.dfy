/**
 The hand-off between the database thread and the event loop.  Tasks go to the thread through a queue under a mutex;
 what they complete goes back through the loop's list of callbacks and its eventfd.  Steps are critical sections,
 notifications and system calls; a run is any sequence of them, and a step that is not enabled does nothing.
 */
module DbHandoff {
  /** A callback handed to RunInLoop, by the database thread or by another. */
  datatype Fn = FromDb(n: nat) | FromElsewhere(n: nat)

  /** A database task and the callbacks it posts to the loop. */
  datatype Task = Task(number: nat, posts: seq<nat>)

  /** Posting: between adding a callback and writing the eventfd. */
  datatype Thread = Absent | Ready | Waiting | Running(rest: seq<nat>) | Posting(rest: seq<nat>) | Exited

  /** Where the thread that calls EventLoop::Run stands. */
  datatype LoopPc = Idle | Deciding | Polling | Reading | Swapping | Executing(batch: seq<Fn>) | Ended

  /** writers counts the calls of RunInLoop and Stop by other threads that have yet to write the eventfd. */
  datatype System = System(
    q: seq<Task>, stop: bool, thread: Thread, notifies: nat, broadcasts: nat,
    running: bool, pc: LoopPc, efd: nat, pending: seq<Fn>, writers: nat,
    accepted: seq<Task>, started: seq<Task>, posted: seq<Fn>, executed: seq<Fn>)

  const NEW := System([], false, Absent, 0, 0, false, Idle, 0, [], 0, [], [], [], [])

  datatype Step =
    | Start | Stop | Join | Post(task: Task) | NotifyOne | NotifyAll | Spurious | Test | Push | Signal | Finish
    | OtherPush(n: nat) | OtherSignal
    | LoopRun | LoopStop | Decide | PollWakeup | PollOther | ReadEventfd | Swap | Execute | EndBatch

  predicate Enabled(s: System, step: Step) {
    match step
    case Join => s.thread.Exited?
    case NotifyOne => s.notifies > 0
    case NotifyAll => s.broadcasts > 0
    case Spurious => s.thread.Waiting?
    case Test => s.thread.Ready?
    case Push => s.thread.Running? && s.thread.rest != []
    case Signal => s.thread.Posting?
    case Finish => s.thread == Running([])
    case OtherSignal => s.writers > 0
    case LoopRun => s.pc.Idle?
    case Decide => s.pc.Deciding?
    case PollWakeup => s.pc.Polling? && s.efd > 0
    case PollOther => s.pc.Polling?
    case ReadEventfd => s.pc.Reading?
    case Swap => s.pc.Swapping?
    case Execute => s.pc.Executing? && s.pc.batch != []
    case EndBatch => s.pc == Executing([])
    case _ => true
  }

  function Wake(t: Thread): Thread {
    if t.Waiting? then Ready else t
  }

  /** The wait condition of WorkerLoop and what follows it, under the lock. */
  function Tested(s: System): System {
    if s.q == [] && !s.stop then s.(thread := Waiting)
    else if s.q == [] then s.(thread := Exited)
    else s.(thread := Running(s.q[0].posts), q := s.q[1..], started := s.started + [s.q[0]])
  }

  function RunInLoop(s: System, fn: Fn): System {
    s.(pending := s.pending + [fn], posted := s.posted + [fn])
  }

  function Do(s: System, step: Step): System
    requires Enabled(s, step)
  {
    match step
    case Start => if s.thread.Absent? then s.(stop := false, thread := Ready) else s
    case Stop => if s.thread.Absent? then s else s.(stop := true, broadcasts := s.broadcasts + 1)
    case Join => s.(thread := Absent)
    case Post(t) =>
      if s.stop then s else s.(q := s.q + [t], accepted := s.accepted + [t], notifies := s.notifies + 1)
    case NotifyOne => s.(notifies := s.notifies - 1, thread := Wake(s.thread))
    case NotifyAll => s.(broadcasts := s.broadcasts - 1, thread := Wake(s.thread))
    case Spurious => s.(thread := Ready)
    case Test => Tested(s)
    case Push => RunInLoop(s, FromDb(s.thread.rest[0])).(thread := Posting(s.thread.rest[1..]))
    case Signal => s.(thread := Running(s.thread.rest), efd := s.efd + 1)
    case Finish => s.(thread := Ready)
    case OtherPush(n) => RunInLoop(s, FromElsewhere(n)).(writers := s.writers + 1)
    case OtherSignal => s.(writers := s.writers - 1, efd := s.efd + 1)
    case LoopRun => s.(running := true, pc := Deciding)
    case LoopStop => s.(running := false, writers := s.writers + 1)
    case Decide => s.(pc := if s.running then Polling else Ended)
    case PollWakeup => s.(pc := Reading)
    case PollOther => s.(pc := Deciding)
    case ReadEventfd => s.(efd := 0, pc := Swapping)
    case Swap => s.(pc := Executing(s.pending), pending := [])
    case Execute => s.(executed := s.executed + [s.pc.batch[0]], pc := Executing(s.pc.batch[1..]))
    case EndBatch => s.(pc := Deciding)
  }

  function Next(s: System, step: Step): System {
    if Enabled(s, step) then Do(s, step) else s
  }

  function Run(s: System, steps: seq<Step>): System {
    if steps == [] then s else Next(Run(s, steps[..|steps| - 1]), steps[|steps| - 1])
  }

  // ---- order ----

  function Batch(pc: LoopPc): seq<Fn> {
    if pc.Executing? then pc.batch else []
  }

  function Rest(t: Thread): seq<nat> {
    if t.Running? || t.Posting? then t.rest else []
  }

  /** The callbacks that came from the database thread, in order. */
  function DbPart(fns: seq<Fn>): seq<nat> {
    if fns == [] then []
    else DbPart(fns[..|fns| - 1]) + if fns[|fns| - 1].FromDb? then [fns[|fns| - 1].n] else []
  }

  /** What these tasks post when run one after another. */
  function AllPosts(tasks: seq<Task>): seq<nat> {
    if tasks == [] then [] else AllPosts(tasks[..|tasks| - 1]) + tasks[|tasks| - 1].posts
  }

  /** Tasks start in the order accepted, and what they post so far is in the order they post it. */
  ghost predicate DbOrder(s: System) {
    s.accepted == s.started + s.q && DbPart(s.posted) + Rest(s.thread) == AllPosts(s.started)
  }

  /** Callbacks run in the order posted; none is lost or doubled on the way. */
  ghost predicate LoopOrder(s: System) {
    s.posted == s.executed + Batch(s.pc) + s.pending
  }

  /** The tasks posted in a run, in order. */
  function PostsOf(steps: seq<Step>): seq<Task> {
    if steps == [] then [] else
    PostsOf(steps[..|steps| - 1]) + if steps[|steps| - 1].Post? then [steps[|steps| - 1].task] else []
  }

  /** The callbacks other threads handed to the loop in a run, in order. */
  function PushesOf(steps: seq<Step>): seq<nat> {
    if steps == [] then [] else
    PushesOf(steps[..|steps| - 1]) + if steps[|steps| - 1].OtherPush? then [steps[|steps| - 1].n] else []
  }

  function ElsewherePart(fns: seq<Fn>): seq<nat> {
    if fns == [] then []
    else ElsewherePart(fns[..|fns| - 1]) + if fns[|fns| - 1].FromElsewhere? then [fns[|fns| - 1].n] else []
  }

  /** One request: a task is accepted exactly unless stopped, and what stops is Stop on a thread that is there. */
  lemma PostExactly(s: System, step: Step)
    ensures Next(s, step).accepted == s.accepted + (if step.Post? && !s.stop then [step.task] else [])
    ensures Next(s, step).stop ==
            if step == Stop && s.thread != Absent then true
            else if step == Start && s.thread == Absent then false else s.stop
  {
  }

  /**
   Over every interleaving the loop is given all callbacks of the other threads, and the database thread, while nobody
   stops it, accepts all tasks.
   */
  lemma {:induction false} AcceptedExactly(steps: seq<Step>)
    ensures ElsewherePart(Run(NEW, steps).posted) == PushesOf(steps)
    ensures Stop !in steps ==> Run(NEW, steps).accepted == PostsOf(steps) && !Run(NEW, steps).stop
  {
    if steps != [] {
      var before, last := steps[..|steps| - 1], steps[|steps| - 1];
      assert steps == before + [last];
      AcceptedExactly(before);
      var s := Run(NEW, before);
      PostExactly(s, last);
      assert Stop in steps <==> Stop in before || last == Stop;
      ElsewhereStep(s, last);
      hide Next, ElsewherePart;
    }
  }

  lemma ElsewhereStep(s: System, step: Step)
    ensures ElsewherePart(Next(s, step).posted) ==
            ElsewherePart(s.posted) + (if step.OtherPush? then [step.n] else [])
  {
    if step.OtherPush? {
      assert (s.posted + [FromElsewhere(step.n)])[..|s.posted|] == s.posted;
    } else if step.Push? && Enabled(s, step) {
      assert (s.posted + [FromDb(s.thread.rest[0])])[..|s.posted|] == s.posted;
    }
  }

  lemma DbPartAppend(fns: seq<Fn>, fn: Fn)
    ensures DbPart(fns + [fn]) == DbPart(fns) + if fn.FromDb? then [fn.n] else []
  {
    assert (fns + [fn])[..|fns|] == fns;
  }

  lemma AllPostsAppend(tasks: seq<Task>, t: Task)
    ensures AllPosts(tasks + [t]) == AllPosts(tasks) + t.posts
  {
    assert (tasks + [t])[..|tasks|] == tasks;
  }

  lemma NextDbOrder(s: System, step: Step)
    requires DbOrder(s)
    ensures DbOrder(Next(s, step))
  {
    hide DbPart, AllPosts;
    if Enabled(s, step) {
      match step
      case Post(t) => if !s.stop { assert s.accepted + [t] == s.started + (s.q + [t]); }
      case Test => TestInOrder(s);
      case Push => PushInOrder(s);
      case OtherPush(n) => DbPartAppend(s.posted, FromElsewhere(n));
      case _ =>
    }
  }

  lemma TestInOrder(s: System)
    requires DbOrder(s) && s.thread.Ready?
    ensures DbOrder(Tested(s))
  {
    hide DbPart, AllPosts;
    if s.q != [] {
      assert s.q == [s.q[0]] + s.q[1..];
      assert s.accepted == s.started + [s.q[0]] + s.q[1..];
      AllPostsAppend(s.started, s.q[0]);
    }
  }

  lemma PushInOrder(s: System)
    requires DbOrder(s) && Enabled(s, Push)
    ensures DbOrder(Do(s, Push))
  {
    hide DbPart, AllPosts;
    var rest := s.thread.rest;
    DbPartAppend(s.posted, FromDb(rest[0]));
    assert DbPart(s.posted) + [rest[0]] + rest[1..] == DbPart(s.posted) + rest;
  }

  lemma NextLoopOrder(s: System, step: Step)
    requires LoopOrder(s)
    ensures LoopOrder(Next(s, step))
  {
    if Enabled(s, step) {
      match step
      case Push => assert LoopOrder(RunInLoop(s, FromDb(s.thread.rest[0])));
      case OtherPush(n) => assert LoopOrder(RunInLoop(s, FromElsewhere(n)));
      case Execute => assert s.pc.batch == [s.pc.batch[0]] + s.pc.batch[1..];
      case _ =>
    }
  }

  // ---- wakeups ----

  /** A sleeping thread with something to do, and a callback waiting for the loop, have a wakeup on its way. */
  ghost predicate WakeupsKept(s: System) {
    && (s.thread.Waiting? && s.q != [] ==> s.notifies > 0)
    && (s.thread.Waiting? && s.stop ==> s.broadcasts > 0)
    && (s.pending != [] ==> s.efd > 0 || s.writers > 0 || s.thread.Posting? || s.pc.Swapping?)
  }

  /** A thread that was stopped and is gone left nothing behind; one never started has taken nothing. */
  ghost predicate LeftNothing(s: System) {
    && (s.thread.Exited? ==> s.stop && s.q == [])
    && (s.thread.Absent? ==> if s.stop then s.q == [] else s.started == [])
  }

  lemma NextLeaves(s: System, step: Step)
    requires LeftNothing(s)
    ensures LeftNothing(Next(s, step))
  {
  }

  lemma NextWakes(s: System, step: Step)
    requires WakeupsKept(s)
    ensures WakeupsKept(Next(s, step))
  {
  }

  lemma {:induction false} RunSafe(steps: seq<Step>)
    ensures DbOrder(Run(NEW, steps)) && LoopOrder(Run(NEW, steps)) && WakeupsKept(Run(NEW, steps))
    ensures LeftNothing(Run(NEW, steps))
  {
    if steps == [] {
      assert DbPart(NEW.posted) == [] && AllPosts(NEW.started) == [];
    } else {
      hide Next, DbOrder, LoopOrder, WakeupsKept, LeftNothing;
      RunSafe(steps[..|steps| - 1]);
      NextDbOrder(Run(NEW, steps[..|steps| - 1]), steps[|steps| - 1]);
      NextLoopOrder(Run(NEW, steps[..|steps| - 1]), steps[|steps| - 1]);
      NextWakes(Run(NEW, steps[..|steps| - 1]), steps[|steps| - 1]);
      NextLeaves(Run(NEW, steps[..|steps| - 1]), steps[|steps| - 1]);
    }
  }

  // ---- progress ----

  /** Steps of the two threads and of calls under way, as opposed to new calls and other events of the poll. */
  predicate Internal(step: Step) {
    match step
    case Start | Stop | Join | Post(_) | Spurious | OtherPush(_) | LoopRun | LoopStop | PollOther => false
    case _ => true
  }

  function TaskLoad(q: seq<Task>): nat {
    if q == [] then 0 else 2 + 10 * |q[0].posts| + TaskLoad(q[1..])
  }

  function ThreadLoad(t: Thread): nat {
    match t
    case Ready => 1
    case Running(rest) => 2 + 10 * |rest|
    case Posting(rest) => 10 + 10 * |rest|
    case _ => 0
  }

  function LoopLoad(pc: LoopPc, efd: nat): nat {
    match pc
    case Reading => 5
    case _ =>
      (if efd > 0 then 6 else 0)
      + match pc
        case Swapping => 3
        case Executing(batch) => 2 + |batch|
        case Deciding => 1
        case _ => 0
  }

  function Measure(s: System): nat {
    TaskLoad(s.q) + ThreadLoad(s.thread) + 2 * s.notifies + 2 * s.broadcasts + 7 * s.writers + |s.pending|
    + LoopLoad(s.pc, s.efd)
  }

  /** Every internal step leaves strictly less to do, so without new calls both threads come to rest. */
  lemma InternalShrinks(s: System, step: Step)
    requires Enabled(s, step) && Internal(step)
    ensures Measure(Do(s, step)) < Measure(s)
  {
  }

  /** A run of internal steps is no longer than what there was to do. */
  lemma {:induction false} InternalRunsEnd(s: System, steps: seq<Step>)
    requires forall i :: 0 <= i < |steps| ==> Internal(steps[i]) && Enabled(Run(s, steps[..i]), steps[i])
    ensures |steps| + Measure(Run(s, steps)) <= Measure(s)
  {
    hide Measure, Internal, Enabled, Do;
    if steps != [] {
      var before := steps[..|steps| - 1];
      forall i | 0 <= i < |before| ensures Internal(before[i]) && Enabled(Run(s, before[..i]), before[i]) {
        assert before[..i] == steps[..i] && before[i] == steps[i];
      }
      InternalRunsEnd(s, before);
      InternalShrinks(Run(s, before), steps[|before|]);
    }
  }

  ghost predicate AtRest(s: System) {
    forall step :: Internal(step) ==> !Enabled(s, step)
  }

  lemma Stuck(s: System, step: Step)
    requires AtRest(s) && Internal(step)
    ensures !Enabled(s, step)
  {
  }

  lemma Resting(s: System)
    requires AtRest(s)
    ensures s.notifies == 0 && s.broadcasts == 0 && s.writers == 0
    ensures s.thread.Absent? || s.thread.Waiting? || s.thread.Exited?
    ensures s.pc.Idle? || s.pc.Ended? || (s.pc.Polling? && s.efd == 0)
  {
    hide AtRest;
    Stuck(s, NotifyOne);
    Stuck(s, NotifyAll);
    Stuck(s, OtherSignal);
    ThreadResting(s);
    LoopResting(s);
  }

  lemma ThreadResting(s: System)
    requires AtRest(s)
    ensures s.thread.Absent? || s.thread.Waiting? || s.thread.Exited?
  {
    hide AtRest;
    Stuck(s, Test);
    Stuck(s, Push);
    Stuck(s, Signal);
    Stuck(s, Finish);
  }

  lemma LoopResting(s: System)
    requires AtRest(s)
    ensures s.pc.Idle? || s.pc.Ended? || (s.pc.Polling? && s.efd == 0)
  {
    hide AtRest;
    Stuck(s, Decide);
    Stuck(s, PollWakeup);
    Stuck(s, ReadEventfd);
    Stuck(s, Swap);
    Stuck(s, Execute);
    Stuck(s, EndBatch);
  }

  /**
   End to end.  When both threads are at rest and the loop is running, every callback posted has run, in order and
   once; and if the database thread exists or was stopped, every task accepted has run and the callbacks of all of them
   have run on the loop, in order and once.  Tasks are left over exactly when the thread was never started.
   */
  lemma RestMeansDelivered(steps: seq<Step>)
    requires AtRest(Run(NEW, steps)) && !Run(NEW, steps).pc.Idle? && !Run(NEW, steps).pc.Ended?
    ensures var s := Run(NEW, steps);
            && s.executed == s.posted
            && (!s.thread.Absent? || s.stop ==>
                  s.q == [] && s.started == s.accepted && DbPart(s.executed) == AllPosts(s.accepted))
            && (s.started == s.accepted <==> !s.thread.Absent? || s.stop || s.accepted == [])
  {
    RunSafe(steps);
    Resting(Run(NEW, steps));
    hide Run, AtRest, DbPart, AllPosts;
  }

  /** A thread that was stopped and has exited, joined or not, left no accepted task behind. */
  lemma ExitedMeansDrained(steps: seq<Step>)
    requires Run(NEW, steps).thread.Exited? || (Run(NEW, steps).thread.Absent? && Run(NEW, steps).stop)
    ensures var s := Run(NEW, steps); s.started == s.accepted && DbPart(s.posted) == AllPosts(s.accepted)
  {
    RunSafe(steps);
    hide Run, DbPart, AllPosts;
  }

  // ---- when a stop takes effect ----

  /** Some LoopStop comes after the loop was run. */
  ghost predicate StoppedAfterRun(steps: seq<Step>) {
    exists i, j :: 0 <= i < j < |steps| && steps[i].LoopRun? && steps[j].LoopStop?
  }

  lemma StoppedAppend(before: seq<Step>, last: Step)
    ensures StoppedAfterRun(before + [last]) <==> StoppedAfterRun(before) || (last.LoopStop? && LoopRun in before)
  {
    var steps := before + [last];
    assert forall i :: 0 <= i < |before| ==> steps[i] == before[i];
    if i, j :| 0 <= i < j < |steps| && steps[i].LoopRun? && steps[j].LoopStop? {
      assert steps[i] in before;
    }
    if LoopRun in before && last.LoopStop? {
      var i :| 0 <= i < |before| && before[i] == LoopRun;
      assert steps[i].LoopRun? && steps[|before|].LoopStop?;
    }
  }

  /** A poll that a stop should end has the eventfd signalled or a write on its way; a loop that ended was stopped. */
  ghost predicate StopKept(s: System) {
    && (s.pc.Polling? && !s.running ==> s.efd > 0 || s.writers > 0)
    && (s.pc.Ended? ==> !s.running)
  }

  /** The loop has been run if LoopRun occurred, and is marked running unless a LoopStop came after that. */
  ghost predicate RunningExactly(s: System, steps: seq<Step>) {
    && (LoopRun in steps <==> !s.pc.Idle?)
    && (LoopRun in steps ==> (s.running <==> !StoppedAfterRun(steps)))
  }

  lemma NextStop(s: System, step: Step)
    requires StopKept(s)
    ensures StopKept(Next(s, step))
  {
  }

  lemma NextRunning(s: System, before: seq<Step>, last: Step)
    requires RunningExactly(s, before)
    ensures RunningExactly(Next(s, last), before + [last])
  {
    StoppedAppend(before, last);
    assert LoopRun in before + [last] <==> LoopRun in before || last == LoopRun;
    if i, j :| 0 <= i < j < |before| && before[i].LoopRun? && before[j].LoopStop? {
      assert before[i] in before;
    }
    hide StoppedAfterRun;
  }

  lemma {:induction false} RunStops(steps: seq<Step>)
    ensures StopKept(Run(NEW, steps)) && RunningExactly(Run(NEW, steps), steps)
  {
    if steps != [] {
      hide Next, StopKept, RunningExactly;
      var before := steps[..|steps| - 1];
      assert before + [steps[|before|]] == steps;
      RunStops(before);
      NextStop(Run(NEW, before), steps[|before|]);
      NextRunning(Run(NEW, before), before, steps[|before|]);
    }
  }

  /**
   A stop is lost exactly when no LoopStop comes after the run.  Once the loop was run and all is at rest, it has ended
   if some stop came after, and polls otherwise, whatever stops came before.
   */
  lemma EndsExactly(steps: seq<Step>)
    requires LoopRun in steps && AtRest(Run(NEW, steps))
    ensures Run(NEW, steps).pc.Ended? <==> StoppedAfterRun(steps)
    ensures Run(NEW, steps).pc.Polling? <==> !StoppedAfterRun(steps)
  {
    RunStops(steps);
    Resting(Run(NEW, steps));
    hide Run, AtRest, StoppedAfterRun;
  }

  /** Stops before the run are overwritten: however many there were, the loop then runs. */
  lemma StopBeforeRun(before: seq<Step>)
    requires LoopRun !in before
    ensures Run(NEW, [LoopStop] + before + [LoopRun]).running
  {
    var steps := [LoopStop] + before + [LoopRun];
    RunStops(steps);
    assert forall k :: 0 <= k < |before| ==> before[k] != LoopRun;
    assert forall k :: 0 < k <= |before| ==> steps[k] == before[k - 1];
    assert steps[|before| + 1] == LoopRun;
    hide Run, StopKept;
  }

  // ---- the code under the two mutexes ----

  datatype Decision = Sleep | Leave | Take(task: Task)

  /**
   The shared fields of a DbWorker (q, stop) and of its EventLoop (running, pending), one method to a critical
   section.  Where the threads stand, the eventfd and what was done so far are kept in ghost fields.
   */
  class Handoff {
    var q: seq<Task>
    var stop: bool
    var running: bool
    var pending: seq<Fn>
    ghost var thread: Thread
    ghost var pc: LoopPc
    ghost var notifies: nat
    ghost var broadcasts: nat
    ghost var efd: nat
    ghost var writers: nat
    ghost var accepted: seq<Task>
    ghost var started: seq<Task>
    ghost var posted: seq<Fn>
    ghost var executed: seq<Fn>

    ghost function View(): System
      reads this
    {
      System(q, stop, thread, notifies, broadcasts, running, pc, efd, pending, writers, accepted, started, posted,
             executed)
    }

    constructor ()
      ensures View() == NEW
    {
      q, stop, running, pending := [], false, false, [];
      thread, pc, notifies, broadcasts, efd, writers := Absent, Idle, 0, 0, 0, 0;
      accepted, started, posted, executed := [], [], [], [];
    }

    method PostSection(task: Task)
      modifies this
      ensures View() == Next(old(View()), Post(task))
    {
      if stop {
        return;
      }
      q := q + [task];
      accepted, notifies := accepted + [task], notifies + 1;
    }

    /** The critical section of Stop when there is a thread to stop. */
    method StopSection()
      requires !thread.Absent?
      modifies this
      ensures View() == Next(old(View()), Stop)
    {
      stop := true;
      broadcasts := broadcasts + 1;
    }

    /** WorkerLoop holds the lock and tests the wait condition. */
    method WorkerSection() returns (d: Decision)
      requires thread.Ready?
      modifies this
      ensures View() == Next(old(View()), Test)
      ensures thread == match d case Sleep => Waiting case Leave => Exited case Take(t) => Running(t.posts)
    {
      if q == [] && !stop {
        thread := Waiting;
        return Sleep;
      }
      if stop && q == [] {
        thread := Exited;
        return Leave;
      }
      d := Take(q[0]);
      thread, started := Running(q[0].posts), started + [q[0]];
      q := q[1..];
    }

    /** The critical section of RunInLoop on the database thread, which has fn to post next. */
    method RunInLoopSection(fn: Fn)
      requires thread.Running? && thread.rest != [] && fn == FromDb(thread.rest[0])
      modifies this
      ensures View() == Next(old(View()), Push)
    {
      pending := pending + [fn];
      posted, thread := posted + [fn], Posting(thread.rest[1..]);
    }

    /** The critical section of Run: the callbacks are swapped out. */
    method SwapSection() returns (callbacks: seq<Fn>)
      requires pc.Swapping?
      modifies this
      ensures View() == Next(old(View()), Swap) && pc == Executing(callbacks)
    {
      callbacks, pending := pending, [];
      pc := Executing(callbacks);
    }

    /** The first statement of Run. */
    method RunStart()
      requires pc.Idle?
      modifies this
      ensures View() == Next(old(View()), LoopRun)
    {
      running := true;
      pc := Deciding;
    }

    /** EventLoop::Stop up to the write of the eventfd. */
    method LoopStopSection()
      modifies this
      ensures View() == Next(old(View()), LoopStop)
    {
      running := false;
      writers := writers + 1;
    }
  }
}
