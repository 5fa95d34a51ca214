/** The snapshot store: the most recent states by frame. */
module Snapshots {
  import opened Wrappers
  import opened FrameDeques
  import opened GameStates

  type Saved = map<nat, GameState>

  class SnapshotManager {
    var snapshots: seq<Entry<GameState>>
    const maxSnapshots: nat

    ghost predicate Valid()
      reads this
    {
      Sorted(snapshots)
    }

    ghost function Contents(): Saved
      reads this
    {
      AsMap(snapshots)
    }

    constructor (maxSnapshots: nat)
      ensures Valid() && Contents() == map[] && this.maxSnapshots == maxSnapshots
    {
      snapshots := [];
      this.maxSnapshots := maxSnapshots;
    }

    method SaveSnapshot(f: nat, state: GameState)
      requires Valid()
      modifies this
      ensures Valid() && Contents() == KeepLargest(old(Contents())[f := state], maxSnapshots)
    {
      hide AsMap, KeepLargest;
      var i := LowerBound(snapshots, f);
      Found(snapshots, f, i);
      if i < |snapshots| && snapshots[i].frameNo == f {
        ReplaceAt(snapshots, i, state);
        snapshots := snapshots[i := snapshots[i].(value := state)];
      } else {
        InsertAt(snapshots, Entry(f, state), i);
        snapshots := snapshots[..i] + [Entry(f, state)] + snapshots[i..];
      }
      snapshots := PopExcess(snapshots, maxSnapshots);
    }

    /** The pointer GetSnapshot returns, null as None. */
    method GetSnapshot(f: nat) returns (r: Option<GameState>)
      requires Valid()
      ensures r == if f in Contents() then Some(Contents()[f]) else None
    {
      hide AsMap;
      var i := LowerBound(snapshots, f);
      Found(snapshots, f, i);
      if i < |snapshots| && snapshots[i].frameNo == f {
        return Some(snapshots[i].value);
      }
      return None;
    }

    method RestoreFromSnapshot(f: nat) returns (r: GameState)
      requires Valid()
      ensures r == if f in Contents() then Contents()[f] else GameState(0, [])
    {
      var snap := GetSnapshot(f);
      if snap.Some? {
        return snap.value;
      }
      return GameState(0, []);
    }
  }
}
