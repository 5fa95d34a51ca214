/**
 Response routing.  Calls take numbers, store a promise under their request id, send, and may find that the send
 failed; replies and pushes arrive in any order.  Steps are atomic operations and critical sections, and a run is
 any sequence of them.  A call is named by its place in the sequence of all calls, counted from 1.
 */
module RpcClients {
  import opened ByteOrder

  const IDS := 0x1_0000_0000

  datatype Stage = Allocated | Stored | Sent

  /**
   pending maps a request id to the call whose promise is stored there; resolved gives the value of a future; sets
   counts set_value, and broken lists the calls whose promise was destroyed unset.
   */
  datatype Rpc = Rpc(
    next: nat, stages: map<nat, Stage>, pending: map<U32, nat>, resolved: map<nat, Bytes>, sets: multiset<nat>,
    broken: set<nat>)

  const NEW := Rpc(1, map[], map[], map[], multiset{}, {})

  datatype Step =
    | Allocate
    | Store(call: nat)
    | Send(call: nat, ok: bool)
    | Reply(id: U32, isError: bool, body: Bytes)

  /** What fetch_add on a 32-bit counter gives the call. */
  function IdOf(call: nat): U32 {
    call % IDS
  }

  /** set_value on the promise stored under an id, and erase. */
  function Resolve(s: Rpc, id: U32, value: Bytes): Rpc
    requires id in s.pending
  {
    var call := s.pending[id];
    s.(pending := s.pending - {id}, resolved := s.resolved[call := value], sets := s.sets + multiset{call})
  }

  predicate AtStage(s: Rpc, call: nat, stage: Stage) {
    call in s.stages && s.stages[call] == stage
  }

  function Next(s: Rpc, step: Step): Rpc {
    match step
    case Allocate => s.(next := s.next + 1, stages := s.stages[s.next := Allocated])
    case Store(call) =>
      if !AtStage(s, call, Allocated) then s else
      var id := IdOf(call);
      s.(stages := s.stages[call := Stored], pending := s.pending[id := call],
         broken := if id in s.pending then s.broken + {s.pending[id]} else s.broken)
    case Send(call, ok) =>
      if !AtStage(s, call, Stored) then s else
      var s1 := s.(stages := s.stages[call := Sent]);
      if !ok && IdOf(call) in s.pending then Resolve(s1, IdOf(call), []) else s1
    case Reply(id, isError, body) =>
      if id in s.pending then Resolve(s, id, if isError then [] else body) else s
  }

  function Run(steps: seq<Step>): Rpc {
    if steps == [] then NEW else Next(Run(steps[..|steps| - 1]), steps[|steps| - 1])
  }

  // ---- what every run keeps ----

  predicate HasPromise(s: Rpc, call: nat) {
    call in s.stages && !s.stages[call].Allocated?
  }

  predicate IsPending(s: Rpc, call: nat) {
    IdOf(call) in s.pending && s.pending[IdOf(call)] == call
  }

  ghost predicate Routed(s: Rpc) {
    && s.next >= 1 && (forall call :: call in s.stages <==> 1 <= call < s.next)
    && (forall id :: id in s.pending ==> HasPromise(s, s.pending[id]) && IdOf(s.pending[id]) == id)
    && (forall call :: HasPromise(s, call) ==> (call in s.resolved <==> !IsPending(s, call)))
    && (forall call :: call in s.resolved ==> HasPromise(s, call))
    && (forall call :: s.sets[call] == if call in s.resolved then 1 else 0)
    && s.broken == {}
  }

  lemma IdsDiffer(a: nat, b: nat)
    ensures IdOf(a) == IdOf(b) <==> (a - b) % IDS == 0
    ensures a < IDS && b < IDS ==> (IdOf(a) == IdOf(b) <==> a == b)
  {
    assert a == IDS * (a / IDS) + IdOf(a) && b == IDS * (b / IDS) + IdOf(b);
    if IdOf(a) == IdOf(b) {
      assert a - b == IDS * (a / IDS - b / IDS);
    }
  }

  lemma ResolveRouted(s: Rpc, id: U32, value: Bytes)
    requires Routed(s) && s.next <= IDS && id in s.pending
    ensures Routed(Resolve(s, id, value))
  {
    hide IdOf;
  }

  lemma StoreRouted(s: Rpc, call: nat)
    requires Routed(s) && s.next <= IDS && AtStage(s, call, Allocated)
    ensures IdOf(call) !in s.pending && Routed(Next(s, Store(call)))
  {
    if IdOf(call) in s.pending {
      IdsDiffer(call, s.pending[IdOf(call)]);
    }
    var s' := Next(s, Store(call));
    forall other | other in s.stages && other != call ensures IdOf(other) != IdOf(call) {
      IdsDiffer(other, call);
    }
    hide IdOf;
    assert !HasPromise(s, call);
    assert forall other :: HasPromise(s', other) <==> HasPromise(s, other) || other == call;
    assert forall other :: HasPromise(s, other) ==> (IsPending(s', other) <==> IsPending(s, other));
  }

  lemma AllocateRouted(s: Rpc)
    requires Routed(s)
    ensures Routed(Next(s, Allocate))
  {
    hide IdOf;
    var s' := Next(s, Allocate);
    assert s.next !in s.stages;
    assert forall call :: HasPromise(s', call) <==> HasPromise(s, call);
    assert forall call :: IsPending(s', call) <==> IsPending(s, call);
  }

  lemma SentRouted(s: Rpc, call: nat)
    requires Routed(s) && AtStage(s, call, Stored)
    ensures Routed(s.(stages := s.stages[call := Sent]))
  {
    hide IdOf;
    var s1 := s.(stages := s.stages[call := Sent]);
    assert forall c :: HasPromise(s1, c) <==> HasPromise(s, c);
    assert forall c :: IsPending(s1, c) <==> IsPending(s, c);
  }

  lemma NextRouted(s: Rpc, step: Step)
    requires Routed(s) && Next(s, step).next <= IDS
    ensures Routed(Next(s, step))
  {
    NextGrows(s, step);
    hide IdOf, Routed, Resolve;
    match step
    case Allocate => AllocateRouted(s);
    case Store(call) => if AtStage(s, call, Allocated) { StoreRouted(s, call); }
    case Send(call, ok) =>
      if AtStage(s, call, Stored) {
        SentRouted(s, call);
        if !ok && IdOf(call) in s.pending {
          ResolveRouted(s.(stages := s.stages[call := Sent]), IdOf(call), []);
        }
      }
    case Reply(id, isError, body) => if id in s.pending { ResolveRouted(s, id, if isError then [] else body); }
  }

  lemma NextGrows(s: Rpc, step: Step)
    ensures s.next <= Next(s, step).next
  {
  }

  /** With fewer than 2^32 calls: the unresolved futures are the pending calls, and no promise is set twice or lost. */
  lemma {:induction false} RunRouted(steps: seq<Step>)
    requires Run(steps).next <= IDS
    ensures Routed(Run(steps))
  {
    if steps != [] {
      var s := Run(steps[..|steps| - 1]);
      hide Next, Routed;
      NextGrows(s, steps[|steps| - 1]);
      RunRouted(steps[..|steps| - 1]);
      NextRouted(s, steps[|steps| - 1]);
    } else {
      assert forall call: nat :: NEW.sets[call] == 0;
    }
  }

  /** The step that answers a call, and what it answers. */
  predicate Answers(step: Step, call: nat, value: Bytes) {
    || (step.Reply? && step.id == IdOf(call) && value == if step.isError then [] else step.body)
    || (step.Send? && step.call == call && !step.ok && value == [])
  }

  /** A step resolves at most one call, and only with its own answer; resolved values never change. */
  lemma StepRoutes(s: Rpc, step: Step, call: nat)
    requires Routed(s) && s.next <= IDS
    ensures var s' := Next(s, step);
            && (call in s.resolved ==> call in s'.resolved && s'.resolved[call] == s.resolved[call])
            && (call in s'.resolved && call !in s.resolved ==>
                  IsPending(s, call) && Answers(step, call, s'.resolved[call]))
  {
    hide IdOf;
    if step.Send? && AtStage(s, step.call, Stored) && !step.ok && IdOf(step.call) in s.pending {
      var holder := s.pending[IdOf(step.call)];
      SameCall(s, holder, step.call);
    }
    assert forall id :: id in s.pending ==> s.pending[id] !in s.resolved;
  }

  /** The step that resolves the call while it is pending: a frame with its id, or its own failed send. */
  predicate Concerns(s: Rpc, step: Step, call: nat) {
    || (step.Reply? && step.id == call % 0x1_0000_0000)
    || (step.Send? && step.call == call && !step.ok && AtStage(s, call, Stored))
  }

  /** A pending call is resolved by a step exactly when the step concerns it, and then with the answer of that step. */
  lemma ResolvedExactly(s: Rpc, step: Step, call: nat)
    requires Routed(s) && s.next <= IDS && HasPromise(s, call) && IsPending(s, call)
    ensures call in Next(s, step).resolved <==> Concerns(s, step, call)
    ensures Concerns(s, step, call) ==>
              Next(s, step).resolved[call] == if step.Reply? && !step.isError then step.body else []
  {
    StepRoutes(s, step, call);
    assert IdOf(call) == call % 0x1_0000_0000;
    if step.Send? && AtStage(s, step.call, Stored) && IdOf(step.call) == IdOf(call) {
      SameCall(s, step.call, call);
    }
    hide IdOf;
  }

  lemma SameCall(s: Rpc, a: nat, b: nat)
    requires Routed(s) && s.next <= IDS && a in s.stages && b in s.stages && IdOf(a) == IdOf(b)
    ensures a == b
  {
    IdsDiffer(a, b);
  }

  /** Step i answers the call with the value, and the call was pending then. */
  ghost predicate AnsweredAt(steps: seq<Step>, i: nat, call: nat, value: Bytes) {
    i < |steps| && IsPending(Run(steps[..i]), call) && Answers(steps[i], call, value)
  }

  lemma AnsweredLonger(before: seq<Step>, last: Step, i: nat, call: nat, value: Bytes)
    requires AnsweredAt(before, i, call, value)
    ensures AnsweredAt(before + [last], i, call, value)
  {
    hide Answers, IsPending, Run;
    assert (before + [last])[..i] == before[..i];
  }

  lemma AnsweredLast(before: seq<Step>, last: Step, call: nat)
    requires Routed(Run(before)) && Run(before).next <= IDS
    requires call !in Run(before).resolved && call in Next(Run(before), last).resolved
    ensures AnsweredAt(before + [last], |before|, call, Next(Run(before), last).resolved[call])
  {
    StepRoutes(Run(before), last, call);
    hide *;
    assert (before + [last])[..|before|] == before;
    hide AnsweredAt;
    Answered(before + [last], |before|, call, Next(Run(before), last).resolved[call]);
  }

  lemma Answered(steps: seq<Step>, i: nat, call: nat, value: Bytes)
    requires i < |steps| && IsPending(Run(steps[..i]), call) && Answers(steps[i], call, value)
    ensures AnsweredAt(steps, i, call, value)
  {
  }

  /** What a call returns is the answer of one step taken while the call was pending: no reply reaches another call. */
  lemma {:induction false} RunRoutes(steps: seq<Step>, call: nat) returns (i: nat)
    requires Run(steps).next <= IDS && call in Run(steps).resolved
    ensures AnsweredAt(steps, i, call, Run(steps).resolved[call])
  {
    assert NEW.resolved == map[];
    hide Next, Routed, AnsweredAt;
    if steps != [] {
      var before, last := steps[..|steps| - 1], steps[|steps| - 1];
      assert steps == before + [last];
      NextGrows(Run(before), last);
      RunRouted(before);
      if call in Run(before).resolved {
        StepRoutes(Run(before), last, call);
        i := RunRoutes(before, call);
        AnsweredLonger(before, last, i, call, Run(before).resolved[call]);
      } else {
        i := |before|;
        AnsweredLast(before, last, call);
      }
    }
  }

  /** A pushed frame, with id 0, changes nothing. */
  lemma PushIgnored(steps: seq<Step>, isError: bool, body: Bytes)
    requires Run(steps).next <= IDS
    ensures Next(Run(steps), Reply(0, isError, body)) == Run(steps)
  {
    RunRouted(steps);
    NeverZero(Run(steps));
    hide Run, Routed, Resolve;
  }

  lemma NeverZero(s: Rpc)
    requires Routed(s) && s.next <= IDS
    ensures 0 !in s.pending
  {
    assert forall id :: id in s.pending ==> HasPromise(s, s.pending[id]) && IdOf(s.pending[id]) == id;
    assert forall call :: HasPromise(s, call) ==> IdOf(call) == call != 0;
  }

  // ---- when ids repeat ----

  /** After 2^32 further calls the ids repeat: a promise still pending is then destroyed unset. */
  lemma Overwritten(s: Rpc, call: nat)
    requires IsPending(s, call) && AtStage(s, call + IDS, Allocated)
    ensures call in Next(s, Store(call + IDS)).broken
  {
    IdsDiffer(call, call + IDS);
  }

  ghost predicate PendingKeyed(s: Rpc) {
    forall id :: id in s.pending ==> IdOf(s.pending[id]) == id
  }

  /** In every run, of whatever length, promises are stored under the ids of their calls. */
  lemma {:induction false} RunKeyed(steps: seq<Step>)
    ensures PendingKeyed(Run(steps))
  {
    hide IdOf;
    if steps != [] {
      RunKeyed(steps[..|steps| - 1]);
    }
  }

  /** Storing a promise destroys another exactly when that one is pending and a multiple of 2^32 calls away. */
  lemma DestroyedExactly(s: Rpc, call: nat, victim: nat)
    requires PendingKeyed(s) && AtStage(s, call, Allocated) && victim !in s.broken
    ensures victim in Next(s, Store(call)).broken <==> IsPending(s, victim) && (call - victim) % IDS == 0
  {
    IdsDiffer(call, victim);
    hide IdOf;
  }

  /** s' is s after n more calls took their numbers. */
  ghost predicate Allocates(s: Rpc, s': Rpc, n: nat) {
    && s'.next == s.next + n && s'.pending == s.pending && s'.broken == s.broken
    && forall call :: s.next <= call < s'.next ==> AtStage(s', call, Allocated)
  }

  lemma AllocateOne(s: Rpc, s1: Rpc, n: nat)
    requires Allocates(s, s1, n)
    ensures Allocates(s, Next(s1, Allocate), n + 1)
  {
    var s2 := Next(s1, Allocate);
    forall call | s.next <= call < s2.next ensures AtStage(s2, call, Allocated) {
      assert call < s1.next ==> AtStage(s1, call, Allocated);
    }
  }

  lemma {:induction false} AllocateMany(steps: seq<Step>, n: nat)
    ensures Allocates(Run(steps), Run(steps + seq(n, i => Allocate)), n)
    decreases n
  {
    var all := steps + seq(n, i => Allocate);
    if n == 0 {
      assert all == steps;
    } else {
      hide Next, Allocates, Run;
      AllocateMany(steps, n - 1);
      var before := steps + seq(n - 1, i => Allocate);
      assert all == before + [Allocate];
      LastStep(before, Allocate);
      AllocateOne(Run(steps), Run(before), n - 1);
    }
  }

  /** A run that comes to it: the first call is never answered, and the call that gets its id again destroys it. */
  lemma OverwrittenRun() returns (steps: seq<Step>)
    ensures Run(steps).next == IDS + 2 && 1 in Run(steps).broken
  {
    var first := [Allocate, Store(1)];
    assert first[..1] == [Allocate] && first[..1][..0] == [];
    assert Run(first[..1]) == NEW.(next := 2, stages := map[1 := Allocated]);
    assert Run(first).pending == map[1 := 1] && Run(first).next == 2;
    var many := first + seq(IDS, i => Allocate);
    AllocateMany(first, IDS);
    steps := many + [Store(1 + IDS)];
    assert steps[..|many|] == many;
    hide Run;
    assert IsPending(Run(many), 1);
    Overwritten(Run(many), 1);
    LastStep(many, Store(1 + IDS));
  }

  lemma LastStep(before: seq<Step>, last: Step)
    ensures Run(before + [last]) == Next(Run(before), last)
  {
    assert (before + [last])[..|before|] == before;
    hide Next;
  }

  // ---- the class ----

  /** A promise in the table is named by the number of its call; resolved holds the values set on promises. */
  class RpcClient {
    var nextRequestId: U32
    var pending: map<U32, nat>
    var resolved: map<nat, Bytes>
    ghost var next: nat
    ghost var stages: map<nat, Stage>
    ghost var sets: multiset<nat>
    ghost var broken: set<nat>

    ghost function View(): Rpc
      reads this
    {
      Rpc(next, stages, pending, resolved, sets, broken)
    }

    ghost predicate Valid()
      reads this
    {
      nextRequestId == IdOf(next)
    }

    constructor ()
      ensures Valid() && View() == NEW
    {
      nextRequestId, pending, resolved := 1, map[], map[];
      next, stages, sets, broken := 1, map[], multiset{}, {};
    }

    /** fetch_add */
    method AllocateId() returns (id: U32)
      requires Valid()
      modifies this
      ensures Valid() && View() == Next(old(View()), Allocate) && id == IdOf(old(next))
    {
      id := nextRequestId;
      nextRequestId := (nextRequestId + 1) % IDS;
      NextId(next);
      stages, next := stages[next := Allocated], next + 1;
    }

    static lemma NextId(n: nat)
      ensures (IdOf(n) + 1) % IDS == IdOf(n + 1)
    {
      IdsDiffer(IdOf(n) + 1, n + 1);
      assert n == IDS * (n / IDS) + IdOf(n);
      assert (IdOf(n) + 1) - (n + 1) == IDS * -(n / IDS);
    }

    /** The promise of the call goes into the table; one that was there is destroyed. */
    method StoreSection(call: nat, id: U32)
      requires Valid() && AtStage(View(), call, Allocated) && id == IdOf(call)
      modifies this
      ensures Valid() && View() == Next(old(View()), Store(call))
    {
      if id in pending {
        broken := broken + {pending[id]};
      }
      pending := pending[id := call];
      stages := stages[call := Stored];
    }

    /** set_value */
    method SetValue(call: nat, value: Bytes)
      modifies this`resolved, this`sets
      ensures resolved == old(resolved)[call := value] && sets == old(sets) + multiset{call}
    {
      resolved, sets := resolved[call := value], sets + multiset{call};
    }

    /** send() returned; a negative result fails the call unless it was answered meanwhile. */
    method SentSection(ghost call: nat, id: U32, ok: bool)
      requires Valid() && AtStage(View(), call, Stored) && id == IdOf(call)
      modifies this
      ensures Valid() && View() == Next(old(View()), Send(call, ok))
    {
      stages := stages[call := Sent];
      if !ok && id in pending {
        SetValue(pending[id], []);
        pending := pending - {id};
      }
    }

    /** The response callback. */
    method OnResponse(id: U32, isError: bool, body: Bytes) returns (answered: bool)
      requires Valid()
      modifies this
      ensures Valid() && View() == Next(old(View()), Reply(id, isError, body))
      ensures answered == (id in old(pending))
    {
      answered := id in pending;
      if answered {
        if isError {
          SetValue(pending[id], []);
        } else {
          SetValue(pending[id], body);
        }
        pending := pending - {id};
      }
    }
  }
}
