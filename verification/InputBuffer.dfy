/** The jitter buffer: player inputs by frame, the oldest frames dropped when there are too many. */
module InputBuffers {
  import opened ByteOrder
  import opened FrameDeques
  import opened GameStates

  type Pending = map<nat, Inputs>

  function InputsAt(m: Pending, f: nat): Inputs {
    if f in m then m[f] else map[]
  }

  function Written(m: Pending, f: nat, id: string, input: Bytes): Pending {
    m[f := InputsAt(m, f)[id := input]]
  }

  class InputBuffer {
    var buffer: seq<Entry<Inputs>>
    const maxFrames: nat

    ghost predicate Valid()
      reads this
    {
      Sorted(buffer)
    }

    ghost function Contents(): Pending
      reads this
    {
      AsMap(buffer)
    }

    constructor (maxFrames: nat)
      ensures Valid() && Contents() == map[] && this.maxFrames == maxFrames
    {
      buffer := [];
      this.maxFrames := maxFrames;
    }

    method AddInput(f: nat, id: string, input: Bytes)
      requires Valid()
      modifies this
      ensures Valid() && Contents() == KeepLargest(Written(old(Contents()), f, id, input), maxFrames)
    {
      hide AsMap, KeepLargest;
      var i := LowerBound(buffer, f);
      Found(buffer, f, i);
      if i < |buffer| && buffer[i].frameNo == f {
        ReplaceAt(buffer, i, buffer[i].value[id := input]);
        buffer := buffer[i := buffer[i].(value := buffer[i].value[id := input])];
      } else {
        var fi := Entry(f, map[id := input]);
        InsertAt(buffer, fi, i);
        buffer := buffer[..i] + [fi] + buffer[i..];
      }
      buffer := PopExcess(buffer, maxFrames);
    }

    /** The inputs of a frame, which leaves the buffer. */
    method GetInput(f: nat) returns (inputs: Inputs)
      requires Valid()
      modifies this
      ensures Valid() && inputs == InputsAt(old(Contents()), f) && Contents() == old(Contents()) - {f}
    {
      hide AsMap;
      var i := LowerBound(buffer, f);
      Found(buffer, f, i);
      if i == |buffer| || buffer[i].frameNo != f {
        return map[];
      }
      inputs := buffer[i].value;
      EraseAt(buffer, i);
      buffer := buffer[..i] + buffer[i + 1..];
    }

    method ClearUpTo(f: nat)
      requires Valid()
      modifies this
      ensures Valid() && Contents() == map g | g in old(Contents()) && g >= f :: old(Contents())[g]
    {
      hide AsMap;
      while |buffer| > 0 && buffer[0].frameNo < f
        invariant Valid()
        invariant forall g :: g in Contents() ==> g in old(Contents()) && Contents()[g] == old(Contents())[g]
        invariant forall g :: g in old(Contents()) && g >= f ==> g in Contents()
      {
        FirstOf(buffer);
        buffer := buffer[1..];
      }
      forall g | g in Contents() ensures g >= f {
        InMap(buffer, g);
      }
    }

    method Clear()
      modifies this
      ensures Valid() && Contents() == map[]
    {
      buffer := [];
    }
  }
}
