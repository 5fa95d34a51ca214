/**
 The frame loop: numbered frames, each with the inputs collected for it, a bounded history from which slow clients
 catch up, and the timer chain that drives it.
 */
module FrameSync {
  import opened Wrappers
  import opened ByteOrder
  import opened FrameDeques
  import opened GameStates
  import opened InputBuffers

  type FrameRecord = Entry<Inputs>

  /** log[i] holds the inputs frame i + 1 was given. */
  datatype Sync = Sync(frameNo: nat, pending: Pending, log: seq<Inputs>)

  datatype Op = Write(f: nat, id: string, input: Bytes) | Advance

  const NEW := Sync(0, map[], [])

  ghost function Received(w: Sync, f: nat, id: string, input: Bytes, max: nat): Sync {
    w.(pending := KeepLargest(Written(w.pending, f, id, input), max))
  }

  function Advanced(w: Sync): Sync {
    var n := w.frameNo + 1;
    Sync(n, w.pending - {n}, w.log + [InputsAt(w.pending, n)])
  }

  ghost function Step(max: nat, w: Sync, op: Op): Sync {
    match op
    case Write(f, id, input) => Received(w, f, id, input, max)
    case Advance => Advanced(w)
  }

  ghost function Run(max: nat, ops: seq<Op>): (w: Sync)
    ensures |w.log| == w.frameNo
  {
    if ops == [] then NEW else Step(max, Run(max, ops[..|ops| - 1]), ops[|ops| - 1])
  }

  // ---- delivery ----

  /** What the players wrote for frame f, the last value of each. */
  function Writes(ops: seq<Op>, f: nat): Inputs {
    if ops == [] then map[] else
    var before, op := Writes(ops[..|ops| - 1], f), ops[|ops| - 1];
    if op.Write? && op.f == f then before[op.id := op.input] else before
  }

  /** No write made more frames wait beyond the current one than the buffer holds. */
  ghost predicate Fits(max: nat, ops: seq<Op>) {
    ops == [] ||
    (Fits(max, ops[..|ops| - 1]) && StepFits(max, Run(max, ops[..|ops| - 1]), ops[|ops| - 1]))
  }

  ghost predicate StepFits(max: nat, w: Sync, op: Op) {
    op.Write? ==> |Later(Written(w.pending, op.f, op.id, op.input), w.frameNo)| <= max
  }

  /** The next of the frames to come. */
  lemma NextComing(m: Pending, n: nat) returns (f: nat)
    requires Later(m, n) != {}
    ensures f in Later(m, n) && Later(m, f) == Later(m, n) - {f}
  {
    var coming := map g | g in Later(m, n) :: 0;
    assert forall g :: g in Later(m, n) ==> g in coming;
    f :| f in Later(m, n);
    assert f in coming;
    f := First(coming);
    assert forall g :: g in Later(m, n) ==> f <= g;
  }

  lemma LaterShrinks(m: Pending, n: nat, f: nat)
    requires f in m && f > n
    ensures |Later(m, f)| < |Later(m, n)|
  {
    assert f in Later(m, n) && Later(m, f) <= Later(m, n) && f !in Later(m, f);
    ProperSubsetSize(Later(m, f), Later(m, n));
  }

  /** Exactly when an eviction spares every frame still to come: when no more of them wait than the buffer holds. */
  lemma SparesComing(m: Pending, max: nat, n: nat)
    ensures (forall f :: f in m && f > n ==> f in KeepLargest(m, max)) <==> |Later(m, n)| <= max
  {
    if |Later(m, n)| <= max {
      forall f | f in m && f > n ensures f in KeepLargest(m, max) {
        hide KeepLargest, Later;
        LaterShrinks(m, n, f);
        Kept(m, max, f);
      }
    } else {
      var f := NextComing(m, n);
      assert f in m && f > n && |Later(m, f)| == |Later(m, n)| - 1;
      hide KeepLargest, Later;
      Kept(m, max, f);
    }
  }

  ghost predicate SubMap(a: Inputs, b: Inputs) {
    forall id :: id in a ==> id in b && a[id] == b[id]
  }

  lemma WaitStep(max: nat, w: Sync, op: Op, f: nat, written: Inputs)
    requires StepFits(max, w, op) && f > Step(max, w, op).frameNo && InputsAt(w.pending, f) == written
    ensures InputsAt(Step(max, w, op).pending, f) ==
            if op.Write? && op.f == f then written[op.id := op.input] else written
  {
    if op.Write? {
      SparesComing(Written(w.pending, op.f, op.id, op.input), max, w.frameNo);
    }
  }

  lemma NothingSubMap(b: Inputs)
    ensures SubMap(map[], b)
  {
  }

  /** While everything fits, what waits for a frame to come is what was written for it. */
  lemma {:induction false} Waiting(max: nat, ops: seq<Op>, f: nat)
    requires Fits(max, ops) && f > Run(max, ops).frameNo
    ensures InputsAt(Run(max, ops).pending, f) == Writes(ops, f)
  {
    if ops != [] {
      hide KeepLargest, Later;
      var before, op := ops[..|ops| - 1], ops[|ops| - 1];
      Waiting(max, before, f);
      WaitStep(max, Run(max, before), op, f, Writes(before, f));
    }
  }

  /** Whatever is evicted, nothing else ever waits for a frame than the last values written for it. */
  lemma {:induction false} WaitingWritten(max: nat, ops: seq<Op>, f: nat)
    requires f > Run(max, ops).frameNo
    ensures f in Run(max, ops).pending ==> SubMap(Run(max, ops).pending[f], Writes(ops, f))
  {
    if ops != [] {
      WaitingWritten(max, ops[..|ops| - 1], f);
    }
  }

  lemma {:induction false} LogGrows(max: nat, ops: seq<Op>, n: nat)
    requires n <= |ops|
    ensures Run(max, ops[..n]).log <= Run(max, ops).log
    decreases |ops|
  {
    if n < |ops| {
      var before := ops[..|ops| - 1];
      assert before[..n] == ops[..n];
      LogGrows(max, before, n);
    } else {
      assert ops[..n] == ops;
    }
  }

  /** The record of a frame, once its tick has come, stays what it was. */
  lemma RecordOf(max: nat, ops: seq<Op>, j: nat)
    requires j < |ops| && ops[j].Advance?
    ensures var w := Run(max, ops[..j]); w.frameNo < |Run(max, ops).log|
    ensures var w := Run(max, ops[..j]); Run(max, ops).log[w.frameNo] == InputsAt(w.pending, w.frameNo + 1)
  {
    var now := ops[..j + 1];
    assert now[..j] == ops[..j] && now[j] == ops[j];
    AfterLast(max, now);
    hide Run, Step, Received;
    LogGrows(max, ops, j + 1);
  }

  lemma AfterLast(max: nat, ops: seq<Op>)
    requires ops != [] && ops[|ops| - 1].Advance?
    ensures Run(max, ops) == Advanced(Run(max, ops[..|ops| - 1]))
  {
    hide Advanced;
  }

  /**
   Delivery.  While frames to come fit the buffer, frame f is given, for each player, the last value that player
   wrote for f before tick f; a value written for f at tick f or later is in no frame.
   */
  lemma Delivery(max: nat, ops: seq<Op>, j: nat)
    requires j < |ops| && ops[j].Advance? && Fits(max, ops[..j])
    ensures var n := Run(max, ops[..j]).frameNo;
            n < |Run(max, ops).log| && Run(max, ops).log[n] == Writes(ops[..j], n + 1)
  {
    hide Run, Step, Writes, Fits, InputsAt;
    RecordOf(max, ops, j);
    Waiting(max, ops[..j], Run(max, ops[..j]).frameNo + 1);
  }

  /** Even when frames are dropped, a frame is given nothing but values written for it before its tick. */
  lemma NeverLate(max: nat, ops: seq<Op>, j: nat)
    requires j < |ops| && ops[j].Advance?
    ensures var n := Run(max, ops[..j]).frameNo;
            n < |Run(max, ops).log| && SubMap(Run(max, ops).log[n], Writes(ops[..j], n + 1))
  {
    hide Run, Step, Writes, SubMap;
    RecordOf(max, ops, j);
    var f := Run(max, ops[..j]).frameNo + 1;
    WaitingWritten(max, ops[..j], f);
    NothingSubMap(Writes(ops[..j], f));
  }

  // ---- history and catch-up ----

  function Max(a: int, b: int): int { if a > b then a else b }
  function Min(a: int, b: int): int { if a < b then a else b }

  /** The records of frames a + 1 .. b. */
  function Records(log: seq<Inputs>, a: nat, b: nat): seq<FrameRecord>
    requires a <= b <= |log|
  {
    seq(b - a, i requires 0 <= i < b - a => Entry(a + i + 1, log[a + i]))
  }

  /** The last `size` frames. */
  function Window(log: seq<Inputs>, size: nat): seq<FrameRecord> {
    Records(log, Max(0, |log| - size), |log|)
  }

  /** What a client at frame c is sent: of the next three frames, those still in the history. */
  function Batch(log: seq<Inputs>, size: nat, c: nat): seq<FrameRecord> {
    var from, to := Max(c, |log| - size), Min(c + 3, |log|);
    if from < to then Records(log, from, to) else []
  }

  /** At most three frames, and three when three are there. */
  lemma BatchSize(log: seq<Inputs>, size: nat, c: nat)
    ensures |Batch(log, size, c)| <= 3
    ensures |Batch(log, size, c)| == 3 <==> |log| - size <= c && c + 3 <= |log|
  {
  }

  /** The limit of two that the header documents does not hold. */
  lemma ThreeFrames()
    ensures exists log, size, c :: |Batch(log, size, c)| == 3
  {
    var log: seq<Inputs> := [map[], map[], map[]];
    assert |Batch(log, 120, 0)| == 3;
  }

  /** A batch is the whole of the next three frames exactly when the client is no older than the history. */
  lemma BatchComplete(log: seq<Inputs>, size: nat, c: nat)
    requires c < |log|
    ensures Batch(log, size, c) == Records(log, c, Min(c + 3, |log|)) <==> c >= |log| - size
  {
    var all := Records(log, c, Min(c + 3, |log|));
    assert |all| > 0 && all[0].frameNo == c + 1;
  }

  // ---- the timer chain ----

  /** running_, and how many callbacks of RescheduleTick wait in the timer. */
  datatype Clock = Clock(running: bool, scheduled: nat)

  datatype ClockOp = Start | Stop | Fire

  function ClockStep(c: Clock, op: ClockOp): Clock {
    match op
    case Start => if c.running then c else Clock(true, c.scheduled + 1)
    case Stop => c.(running := false)
    case Fire => if c.running || c.scheduled == 0 then c else c.(scheduled := c.scheduled - 1)
  }

  function ClockRun(c: Clock, ops: seq<ClockOp>): Clock {
    if ops == [] then c else ClockStep(ClockRun(c, ops[..|ops| - 1]), ops[|ops| - 1])
  }

  /** Every Start that takes effect finds no callback left over from before. */
  predicate CleanStarts(c: Clock, ops: seq<ClockOp>) {
    ops == [] ||
    (CleanStarts(c, ops[..|ops| - 1]) &&
     var before := ClockRun(c, ops[..|ops| - 1]);
     ops[|ops| - 1].Start? && !before.running ==> before.scheduled == 0)
  }

  /** With clean starts there is one tick chain while running and at most one left over while stopped. */
  lemma {:induction false} OneChain(ops: seq<ClockOp>)
    requires CleanStarts(Clock(false, 0), ops)
    ensures var c := ClockRun(Clock(false, 0), ops); c.scheduled <= 1 && (c.running ==> c.scheduled == 1)
  {
    if ops != [] {
      OneChain(ops[..|ops| - 1]);
    }
  }

  /** At every moment of the run there is one chain if the clock is running. */
  ghost predicate AlwaysOneChain(ops: seq<ClockOp>) {
    forall n :: 0 <= n <= |ops| ==>
      var c := ClockRun(Clock(false, 0), ops[..n]); c.running ==> c.scheduled == 1
  }

  /** There is one chain whenever the clock runs exactly when every start that takes effect is clean. */
  lemma {:induction false} OneChainExactly(ops: seq<ClockOp>)
    ensures AlwaysOneChain(ops) <==> CleanStarts(Clock(false, 0), ops)
  {
    if ops == [] {
      assert forall n :: 0 <= n <= |ops| ==> ops[..n] == [];
    } else {
      var before := ops[..|ops| - 1];
      OneChainExactly(before);
      assert forall n :: 0 <= n <= |before| ==> ops[..n] == before[..n];
      assert ops[..|ops|] == ops && before[..|before|] == before;
      assert AlwaysOneChain(ops) <==>
             AlwaysOneChain(before) && var c := ClockRun(Clock(false, 0), ops); c.running ==> c.scheduled == 1;
      if CleanStarts(Clock(false, 0), before) {
        OneChain(before);
      }
    }
  }

  /** While nobody stops a running clock, its chains neither end nor multiply. */
  lemma {:induction false} ChainsPersist(c: Clock, ops: seq<ClockOp>)
    requires c.running && Stop !in ops
    ensures ClockRun(c, ops) == c
  {
    if ops != [] {
      assert ops[|ops| - 1] in ops;
      ChainsPersist(c, ops[..|ops| - 1]);
    }
  }

  /** Stop and Start again before the callback fires: until the next Stop every interval ticks twice. */
  lemma TwoChains(later: seq<ClockOp>)
    requires Stop !in later
    ensures ClockRun(Clock(false, 0), [Start, Stop, Start]) == Clock(true, 2)
    ensures ClockRun(ClockRun(Clock(false, 0), [Start, Stop, Start]), later) == Clock(true, 2)
  {
    var ops := [Start, Stop, Start];
    assert ops[..2] == [Start, Stop] && ops[..2][..1] == [Start] && ops[..1][..0] == [];
    assert ClockRun(Clock(false, 0), ops[..1][..0]) == Clock(false, 0);
    assert ops[..1] == ops[..2][..1];
    assert ClockRun(Clock(false, 0), ops[..1]) == Clock(true, 1);
    assert ClockRun(Clock(false, 0), ops[..2]) == Clock(false, 1);
    ChainsPersist(Clock(true, 2), later);
  }

  lemma AppendRecord(log: seq<Inputs>, inputs: Inputs, size: nat)
    ensures var h := Window(log, size) + [Entry(|log| + 1, inputs)]; var log' := log + [inputs];
            Min(size, |log'|) <= |h| <= |log'| && h == Records(log', |log'| - |h|, |log'|)
  {
  }

  // ---- the class ----

  class FrameSyncManager {
    const inputBuffer: InputBuffer
    const maxHistorySize: nat
    var frameNo: nat
    var running: bool
    var history: seq<FrameRecord>
    var scheduled: nat
    ghost var log: seq<Inputs>

    ghost predicate Valid()
      reads this, inputBuffer
    {
      inputBuffer.Valid() && |log| == frameNo && history == Window(log, maxHistorySize)
    }

    ghost function View(): Sync
      reads this, inputBuffer
    {
      Sync(frameNo, inputBuffer.Contents(), log)
    }

    ghost function Timer(): Clock
      reads this
    {
      Clock(running, scheduled)
    }

    constructor (inputBuffer: InputBuffer, historySize: nat)
      requires inputBuffer.Valid() && inputBuffer.Contents() == map[]
      ensures Valid() && View() == NEW && Timer() == Clock(false, 0)
      ensures this.inputBuffer == inputBuffer && maxHistorySize == historySize
    {
      this.inputBuffer, maxHistorySize := inputBuffer, historySize;
      frameNo, running, history, scheduled, log := 0, false, [], 0, [];
    }

    method StartSync()
      modifies this`running, this`scheduled
      ensures Timer() == ClockStep(old(Timer()), Start)
    {
      if running {
        return;
      }
      running := true;
      scheduled := scheduled + 1;
    }

    method StopSync()
      modifies this`running
      ensures Timer() == ClockStep(old(Timer()), Stop)
    {
      running := false;
    }

    /** The callback of RescheduleTick, taken out of the timer by the time it runs. */
    method OnTimer()
      requires Valid() && scheduled > 0
      modifies this, inputBuffer
      ensures Valid() && Timer() == ClockStep(old(Timer()), Fire)
      ensures View() == if old(running) then Advanced(old(View())) else old(View())
    {
      scheduled := scheduled - 1;
      if !running {
        return;
      }
      var _, _ := Tick();
      scheduled := scheduled + 1;
    }

    method OnPlayerInput(f: nat, id: string, input: Bytes)
      requires Valid()
      modifies inputBuffer
      ensures Valid() && View() == Received(old(View()), f, id, input, inputBuffer.maxFrames)
    {
      inputBuffer.AddInput(f, id, input);
    }

    /** The number of inputs, and what frame_callback_ is called with if it is called. */
    method Tick() returns (n: nat, called: Option<Inputs>)
      requires Valid()
      modifies this, inputBuffer
      ensures Valid() && View() == Advanced(old(View())) && Timer() == old(Timer())
      ensures var inputs := InputsAt(old(inputBuffer.Contents()), frameNo);
              n == |inputs| && called == if n == 0 then None else Some(inputs)
    {
      hide AsMap, Window, InputsAt, Sorted;
      frameNo := frameNo + 1;
      var inputs := inputBuffer.GetInput(frameNo);
      Remember(inputs);
      called := if |inputs| == 0 then None else Some(inputs);
      n := |inputs|;
    }

    /** The part of Tick that keeps the history. */
    method Remember(inputs: Inputs)
      requires history == Window(log, maxHistorySize) && frameNo == |log| + 1
      modifies this`history, this`log
      ensures log == old(log) + [inputs] && history == Window(log, maxHistorySize)
    {
      hide Window, Records, Min;
      AppendRecord(log, inputs, maxHistorySize);
      history := history + [Entry(frameNo, inputs)];
      log := log + [inputs];
      history := TrimHistory(history, maxHistorySize, log);
    }

    /** The loop of Tick that drops expired history. */
    static method TrimHistory(h: seq<FrameRecord>, size: nat, ghost log: seq<Inputs>) returns (r: seq<FrameRecord>)
      requires Min(size, |log|) <= |h| <= |log| && h == Records(log, |log| - |h|, |log|)
      ensures r == Window(log, size)
    {
      r := h;
      while |r| > size
        invariant Min(size, |log|) <= |r| <= |log| && r == Records(log, |log| - |r|, |log|)
      {
        r := r[1..];
      }
    }

    method GetCatchUpFrames(clientFrameNo: nat) returns (result: seq<FrameRecord>)
      requires Valid()
      ensures result == Batch(log, maxHistorySize, clientFrameNo)
    {
      result := [];
      if clientFrameNo >= frameNo {
        return;
      }
      var start, end := clientFrameNo + 1, Min(clientFrameNo + 3, frameNo);
      ghost var base := Max(0, |log| - maxHistorySize);
      ghost var from := Max(clientFrameNo, base);
      for i := 0 to |history|
        invariant base + i <= Max(base, end)
        invariant result == if from < base + i then Records(log, from, base + i) else []
      {
        if history[i].frameNo >= start && history[i].frameNo <= end {
          result := result + [history[i]];
        }
        if history[i].frameNo > end {
          break;
        }
      }
    }
  }
}
