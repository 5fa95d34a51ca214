/**
 Reconnecting.  The server plays each frame as the snapshot store documents it: Tick, then tickLogic on the inputs of
 the frame, then SaveSnapshot.  A client that comes back with a retained snapshot asks for catch-up frames and
 replays them, batch after batch, until it stands where the server stands.
 */
module Reconnect {
  import opened FrameDeques
  import opened GameStates
  import opened Snapshots
  import opened FrameSync

  const START := GameState(0, [])

  datatype Config = Config(maxFrames: nat, historySize: nat, maxSnapshots: nat)

  datatype Server = Server(sync: Sync, state: GameState, saved: Saved)

  /** One frame of the server. */
  ghost function Played(cfg: Config, w: Server): Server {
    var sync := Advanced(w.sync);
    var state := Tick(sync.log[|w.sync.log|], w.state);
    Server(sync, state, KeepLargest(w.saved[sync.frameNo := state], cfg.maxSnapshots))
  }

  ghost function ServerStep(cfg: Config, w: Server, op: Op): Server {
    match op
    case Write(f, id, input) => w.(sync := Received(w.sync, f, id, input, cfg.maxFrames))
    case Advance => Played(cfg, w)
  }

  ghost function ServerRun(cfg: Config, ops: seq<Op>): Server {
    if ops == [] then Server(NEW, START, map[])
    else ServerStep(cfg, ServerRun(cfg, ops[..|ops| - 1]), ops[|ops| - 1])
  }

  // ---- what every run keeps ----

  /** The state is the replay of the log, and the snapshots are its last states. */
  ghost predicate Sound(cfg: Config, w: Server) {
    && |w.sync.log| == w.sync.frameNo && w.state == Replay(START, w.sync.log)
    && SavedLast(w.saved, w.sync.log, cfg.maxSnapshots)
  }

  ghost predicate SavedLast(saved: Saved, log: seq<Inputs>, max: nat) {
    && (forall k: nat :: k in saved <==> 0 < k <= |log| && |log| - k < max)
    && (forall k :: k in saved && k <= |log| ==> saved[k] == Replay(START, log[..k]))
  }

  lemma {:induction false} IntervalSize(a: int, b: int, s: set<nat>)
    requires forall k: nat :: k in s <==> a < k <= b
    requires -1 <= a <= b
    ensures |s| == b - a
    decreases b - a
  {
    if a == b {
      assert s == {};
    } else {
      IntervalSize(a, b - 1, s - {b});
    }
  }

  /** Keeping the largest of consecutive frames keeps the last ones. */
  lemma KeepsLast(m: Saved, n: nat, max: nat)
    requires forall k: nat :: k in m <==> 0 < k <= n && n - k <= max
    ensures forall k: nat :: k in KeepLargest(m, max) <==> 0 < k <= n && n - k < max
  {
    forall k | k in m ensures k in KeepLargest(m, max) <==> n - k < max {
      Kept(m, max, k);
      IntervalSize(k, n, Later(m, k));
    }
  }

  lemma SaveNext(saved: Saved, log: seq<Inputs>, max: nat, inputs: Inputs)
    requires SavedLast(saved, log, max)
    ensures var log' := log + [inputs];
            SavedLast(KeepLargest(saved[|log'| := Replay(START, log')], max), log', max)
  {
    hide Replay, KeepLargest;
    var log' := log + [inputs];
    var m := saved[|log'| := Replay(START, log')];
    KeepsLast(m, |log'|, max);
    forall k | k in m ensures m[k] == Replay(START, log'[..k]) {
      if k == |log'| {
        assert log'[..k] == log';
      } else {
        assert log'[..k] == log[..k];
      }
    }
  }

  lemma StepSound(cfg: Config, w: Server, op: Op)
    requires Sound(cfg, w)
    ensures Sound(cfg, ServerStep(cfg, w, op))
  {
    hide KeepLargest, SavedLast, Tick;
    if op.Advance? {
      var inputs := Advanced(w.sync).log[|w.sync.log|];
      assert Advanced(w.sync).log == w.sync.log + [inputs];
      assert (w.sync.log + [inputs])[..|w.sync.log|] == w.sync.log;
      SaveNext(w.saved, w.sync.log, cfg.maxSnapshots, inputs);
    }
  }

  lemma {:induction false} RunSound(cfg: Config, ops: seq<Op>)
    ensures Sound(cfg, ServerRun(cfg, ops))
  {
    if ops == [] {
      assert NEW.log == [];
    } else {
      hide ServerStep, Sound;
      RunSound(cfg, ops[..|ops| - 1]);
      StepSound(cfg, ServerRun(cfg, ops[..|ops| - 1]), ops[|ops| - 1]);
    }
  }

  // ---- the client ----

  datatype Client = Client(at: nat, state: GameState)

  function InputsOf(batch: seq<FrameRecord>): seq<Inputs> {
    seq(|batch|, i requires 0 <= i < |batch| => batch[i].value)
  }

  /** One exchange: ask, replay what comes, remember the last frame. */
  ghost function Exchange(log: seq<Inputs>, size: nat, c: Client): Client {
    var batch := Batch(log, size, c.at);
    if batch == [] then c else Client(batch[|batch| - 1].frameNo, Replay(c.state, InputsOf(batch)))
  }

  ghost function Exchanges(log: seq<Inputs>, size: nat, c: Client, rounds: nat): Client {
    if rounds == 0 then c else Exchange(log, size, Exchanges(log, size, c, rounds - 1))
  }

  /** The client's state is the server's of the frame it stands at. */
  ghost predicate Synchronous(log: seq<Inputs>, c: Client) {
    c.at <= |log| && c.state == Replay(START, log[..c.at])
  }

  lemma ExchangeAdvances(log: seq<Inputs>, size: nat, c: Client)
    requires Synchronous(log, c) && c.at >= |log| - size
    ensures Synchronous(log, Exchange(log, size, c)) && Exchange(log, size, c).at == Min(c.at + 3, |log|)
  {
    hide Replay;
    var batch := Batch(log, size, c.at);
    if batch != [] {
      var to := Min(c.at + 3, |log|);
      assert InputsOf(batch) == log[c.at..to];
      ReplayAppend(START, log[..c.at], log[c.at..to]);
      assert log[..c.at] + log[c.at..to] == log[..to];
    }
  }

  lemma {:induction false} ExchangesAdvance(log: seq<Inputs>, size: nat, c: Client, rounds: nat)
    requires Synchronous(log, c) && c.at >= |log| - size
    ensures var d := Exchanges(log, size, c, rounds); Synchronous(log, d) && d.at == Min(c.at + 3 * rounds, |log|)
  {
    hide Exchange, Replay;
    if rounds > 0 {
      ExchangesAdvance(log, size, c, rounds - 1);
      ExchangeAdvances(log, size, Exchanges(log, size, c, rounds - 1));
    } else {
      assert c.at <= |log|;
    }
  }

  /** A client that has missed a frame has played fewer frames than its number says. */
  lemma ExchangeBehind(log: seq<Inputs>, size: nat, c: Client)
    requires (c.at < |log| - size && c.state.frameNo <= c.at) || c.state.frameNo < c.at <= |log|
    ensures var d := Exchange(log, size, c);
            d == c || d.state.frameNo < d.at <= |log|
  {
  }

  lemma {:induction false} ExchangesBehind(log: seq<Inputs>, size: nat, c: Client, rounds: nat)
    requires Synchronous(log, c) && c.at < |log| - size
    ensures var d := Exchanges(log, size, c, rounds); d == c || d.state.frameNo < d.at <= |log|
  {
    if rounds > 0 {
      ExchangesBehind(log, size, c, rounds - 1);
      assert c.state.frameNo == c.at;
      hide Exchange, Synchronous;
      ExchangeBehind(log, size, Exchanges(log, size, c, rounds - 1));
    }
  }

  /** ceil((n - k) / 3) */
  function RoundsNeeded(n: nat, k: nat): nat {
    if n <= k then 0 else (n - k + 2) / 3
  }

  /**
   Rejoining from the snapshot of frame k: the client reaches the live state in exactly the rounds it takes to carry
   the missing frames three at a time, if no missing frame has left the history; otherwise it never does.
   */
  lemma Rejoin(cfg: Config, ops: seq<Op>, k: nat)
    requires k in ServerRun(cfg, ops).saved
    ensures var w := ServerRun(cfg, ops); var n := w.sync.frameNo; var c := Client(k, w.saved[k]);
            && k <= n
            && (k >= n - cfg.historySize ==>
                  Exchanges(w.sync.log, cfg.historySize, c, RoundsNeeded(n, k)) == Client(n, w.state))
            && (k < n - cfg.historySize ==>
                  forall rounds: nat :: Exchanges(w.sync.log, cfg.historySize, c, rounds).state != w.state)
            && (forall rounds: nat :: rounds < RoundsNeeded(n, k) ==>
                  Exchanges(w.sync.log, cfg.historySize, c, rounds).state != w.state)
  {
    var w := ServerRun(cfg, ops);
    RunSound(cfg, ops);
    var log, n, c := w.sync.log, w.sync.frameNo, Client(k, w.saved[k]);
    assert Synchronous(log, c) && w.state.frameNo == n && c.state.frameNo == k;
    assert w.state == Replay(START, log) && log[..n] == log;
    hide ServerRun, Sound, Exchange, Exchanges, Replay, Tick;
    if k >= n - cfg.historySize {
      forall rounds: nat ensures var d := Exchanges(log, cfg.historySize, c, rounds);
                                 Synchronous(log, d) && d.at == Min(k + 3 * rounds, n)
      {
        ExchangesAdvance(log, cfg.historySize, c, rounds);
      }
      assert Min(k + 3 * RoundsNeeded(n, k), n) == n;
      Early(log, cfg.historySize, c, n);
    } else {
      forall rounds: nat ensures Exchanges(log, cfg.historySize, c, rounds).state != w.state {
        ExchangesBehind(log, cfg.historySize, c, rounds);
      }
    }
  }

  lemma Early(log: seq<Inputs>, size: nat, c: Client, n: nat)
    requires n == |log| && c.at <= n
    requires forall rounds: nat :: var d := Exchanges(log, size, c, rounds);
               Synchronous(log, d) && d.at == Min(c.at + 3 * rounds, n)
    ensures forall rounds: nat :: rounds < RoundsNeeded(n, c.at) ==>
              Exchanges(log, size, c, rounds).state.frameNo < n
  {
    hide Exchanges;
    forall rounds: nat | rounds < RoundsNeeded(n, c.at) ensures Exchanges(log, size, c, rounds).state.frameNo < n {
      var d := Exchanges(log, size, c, rounds);
      assert d.at < n && d.state == Replay(START, log[..d.at]);
    }
  }

  lemma OldestSaved(saved: Saved, n: nat, cfg: Config)
    requires forall k: nat :: k in saved <==> 0 < k <= n && n - k < cfg.maxSnapshots
    ensures (forall k :: k in saved ==> k >= n - cfg.historySize) <==>
            cfg.maxSnapshots <= cfg.historySize + 1 || n <= cfg.historySize + 1
  {
    if cfg.maxSnapshots > cfg.historySize + 1 && n > cfg.historySize + 1 {
      var oldest: nat := Max(1, n - cfg.maxSnapshots + 1);
      assert oldest in saved;
    }
  }

  /** From the snapshot of frame k some number of exchanges reaches the live state. */
  ghost predicate LeadsBack(cfg: Config, w: Server, k: nat)
    requires k in w.saved
  {
    exists rounds: nat :: Exchanges(w.sync.log, cfg.historySize, Client(k, w.saved[k]), rounds).state == w.state
  }

  /** Every retained snapshot leads back exactly when the history reaches back to the oldest of them. */
  lemma EverySnapshotRejoins(cfg: Config, ops: seq<Op>)
    ensures var w := ServerRun(cfg, ops);
            (forall k :: k in w.saved ==> LeadsBack(cfg, w, k)) <==>
            cfg.maxSnapshots <= cfg.historySize + 1 || w.sync.frameNo <= cfg.historySize + 1
  {
    var w := ServerRun(cfg, ops);
    var n := w.sync.frameNo;
    RunSound(cfg, ops);
    hide ServerRun, Exchanges, Replay, Tick;
    forall k | k in w.saved ensures LeadsBack(cfg, w, k) <==> k >= n - cfg.historySize {
      Rejoin(cfg, ops, k);
    }
    assert (forall k :: k in w.saved ==> LeadsBack(cfg, w, k)) <==>
           (forall k :: k in w.saved ==> k >= n - cfg.historySize);
    OldestSaved(w.saved, n, cfg);
  }
}
