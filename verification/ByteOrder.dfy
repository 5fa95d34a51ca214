/**
 Byte order.  A host integer is converted by moving its bytes with masks and shifts and is then copied out of
 little-endian memory, so what reaches the wire is the big-endian text of the integer; reading does the same
 backwards.
 */
module ByteOrder {
  type Byte = b: int | 0 <= b < 0x100
  type Bytes = seq<Byte>
  type U16 = x: int | 0 <= x < 0x1_0000
  type U32 = x: int | 0 <= x < 0x1_0000_0000
  type U64 = x: int | 0 <= x < 0x1_0000_0000_0000_0000

  /** (x >> 8i) & 0xFF */
  function ByteAt(x: nat, i: nat): Byte {
    if i == 0 then x % 0x100 else ByteAt(x / 0x100, i - 1)
  }

  // ---- conversions of common.h ----

  function HostToNetwork16(h: U16): int {
    ByteAt(h, 0) as int * 0x100 + ByteAt(h, 1) as int
  }

  function HostToNetwork32(h: U32): int {
    ByteAt(h, 0) as int * 0x100_0000 + ByteAt(h, 1) as int * 0x1_0000 + ByteAt(h, 2) as int * 0x100
    + ByteAt(h, 3) as int
  }

  function HostToNetwork64(h: U64): int {
    ByteAt(h, 0) as int * 0x100_0000_0000_0000 + ByteAt(h, 1) as int * 0x1_0000_0000_0000
    + ByteAt(h, 2) as int * 0x100_0000_0000 + ByteAt(h, 3) as int * 0x1_0000_0000
    + ByteAt(h, 4) as int * 0x100_0000 + ByteAt(h, 5) as int * 0x1_0000
    + ByteAt(h, 6) as int * 0x100 + ByteAt(h, 7) as int
  }

  // ---- little-endian memory ----

  /** The n bytes of x as they lie in memory. */
  function Store(x: nat, n: nat): (s: Bytes)
    ensures |s| == n
  {
    if n == 0 then [] else [x % 0x100] + Store(x / 0x100, n - 1)
  }

  /** The integer that lies in memory as s. */
  function Load(s: Bytes): nat {
    if s == [] then 0 else s[0] as int + 0x100 * Load(s[1..])
  }

  function Limit(n: nat): nat {
    if n == 0 then 1 else 0x100 * Limit(n - 1)
  }

  lemma {:induction false} LoadStore(x: nat, n: nat)
    requires x < Limit(n)
    ensures Load(Store(x, n)) == x
  {
    if n > 0 {
      LoadStore(x / 0x100, n - 1);
      assert Store(x, n)[1..] == Store(x / 0x100, n - 1);
    }
  }

  lemma {:induction false} StoreLoad(s: Bytes)
    ensures Load(s) < Limit(|s|) && Store(Load(s), |s|) == s
  {
    if s != [] {
      StoreLoad(s[1..]);
      LowByte(s[0], Load(s[1..]));
    }
  }

  lemma LowByte(b: Byte, high: nat)
    ensures var x := b as int + 0x100 * high; x % 0x100 == b as int && x / 0x100 == high
  {
  }

  function Reversed(s: Bytes): (r: Bytes)
    ensures |r| == |s| && forall i :: 0 <= i < |s| ==> r[i] == s[|s| - 1 - i]
  {
    seq(|s|, i requires 0 <= i < |s| => s[|s| - 1 - i])
  }

  lemma StoreBytes(x: nat, n: nat)
    ensures forall i :: 0 <= i < n ==> Store(x, n)[i] == ByteAt(x, i)
  {
    if n > 0 {
      StoreBytes(x / 0x100, n - 1);
      forall i | 0 <= i < n ensures Store(x, n)[i] == ByteAt(x, i) {
        assert i > 0 ==> Store(x, n)[i] == Store(x / 0x100, n - 1)[i - 1];
      }
    }
  }

  lemma LoadTwo(a: Byte, b: Byte)
    ensures Load([a, b]) == a as int + 0x100 * b as int
  {
    var s: Bytes := [a, b];
    assert s[1..] == [b];
    var r: Bytes := [b];
    assert r[1..] == [] && Load(r) == b as int;
  }

  lemma LoadFour(s: Bytes)
    requires |s| == 4
    ensures Load(s) == s[0] as int + 0x100 * s[1] as int + 0x1_0000 * s[2] as int + 0x100_0000 * s[3] as int
  {
    LoadTwo(s[2], s[3]);
    assert s[1..][1..] == [s[2], s[3]];
  }

  lemma LoadEight(s: Bytes)
    requires |s| == 8
    ensures Load(s) == Load(s[..4]) + 0x1_0000_0000 * Load(s[4..])
  {
    LoadFour(s[..4]);
    assert s[1..][1..] == s[2..] && s[2..][1..] == s[3..] && s[3..][1..] == s[4..];
    assert Load(s[3..]) == s[3] as int + 0x100 * Load(s[4..]);
    assert Load(s[2..]) == s[2] as int + 0x100 * Load(s[3..]);
    assert Load(s[1..]) == s[1] as int + 0x100 * Load(s[2..]);
  }

  /** The conversions turn the bytes of the integer around. */
  lemma Swap16(h: U16)
    ensures HostToNetwork16(h) == Load(Reversed(Store(h, 2)))
  {
    StoreBytes(h, 2);
    LoadTwo(ByteAt(h, 1), ByteAt(h, 0));
    assert Reversed(Store(h, 2)) == [ByteAt(h, 1), ByteAt(h, 0)];
  }

  lemma Swap32(h: U32)
    ensures HostToNetwork32(h) == Load(Reversed(Store(h, 4)))
  {
    StoreBytes(h, 4);
    hide ByteAt, Store, Load;
    LoadFour(Reversed(Store(h, 4)));
  }

  lemma Swap64(h: U64)
    ensures HostToNetwork64(h) == Load(Reversed(Store(h, 8)))
  {
    StoreBytes(h, 8);
    hide ByteAt, Store, Load;
    var r := Reversed(Store(h, 8));
    LoadEight(r);
    LoadFour(r[..4]);
    LoadFour(r[4..]);
  }

  lemma Limits()
    ensures Limit(2) == 0x1_0000 && Limit(4) == 0x1_0000_0000 && Limit(8) == 0x1_0000_0000_0000_0000
  {
    assert Limit(1) == 0x100 && Limit(2) == 0x1_0000 && Limit(3) == 0x100_0000 && Limit(4) == 0x1_0000_0000;
    assert Limit(5) == 0x100_0000_0000 && Limit(6) == 0x1_0000_0000_0000 && Limit(7) == 0x100_0000_0000_0000;
  }

  // ---- a field on the wire ----

  /** Writing: convert, then copy from memory. */
  function Put16(x: U16): Bytes { Store(HostToNetwork16(x), 2) }
  function Put32(x: U32): Bytes { Store(HostToNetwork32(x), 4) }
  function Put64(x: U64): Bytes { Store(HostToNetwork64(x), 8) }

  /** Reading: copy into memory, then convert. */
  function Get16(s: Bytes): U16
    requires |s| == 2
  {
    Fits(s);
    Swap16(Load(s));
    Fits(Reversed(Store(Load(s), 2)));
    HostToNetwork16(Load(s))
  }

  function Get32(s: Bytes): U32
    requires |s| == 4
  {
    Fits(s);
    Swap32(Load(s));
    Fits(Reversed(Store(Load(s), 4)));
    HostToNetwork32(Load(s))
  }

  function Get64(s: Bytes): U64
    requires |s| == 8
  {
    Fits(s);
    Swap64(Load(s));
    Fits(Reversed(Store(Load(s), 8)));
    HostToNetwork64(Load(s))
  }

  lemma Fits(s: Bytes)
    ensures |s| == 2 ==> Load(s) < 0x1_0000
    ensures |s| == 4 ==> Load(s) < 0x1_0000_0000
    ensures |s| == 8 ==> Load(s) < 0x1_0000_0000_0000_0000
  {
    StoreLoad(s);
    Limits();
  }

  /** The number a text of bytes spells, most significant byte first. */
  function BigEndian(s: Bytes): nat {
    Load(Reversed(s))
  }

  lemma ReversedTwice(s: Bytes)
    ensures Reversed(Reversed(s)) == s
  {
  }

  /** A written field is the big-endian text of its value, and reading a text gives the value it spells. */
  lemma Field16(x: U16, s: Bytes)
    requires |s| == 2
    ensures Put16(x) == Reversed(Store(x, 2)) && BigEndian(Put16(x)) == x && Get16(s) == BigEndian(s)
  {
    Limits();
    Swap16(x);
    StoreLoad(Reversed(Store(x, 2)));
    ReversedTwice(Store(x, 2));
    LoadStore(x, 2);
    Fits(s);
    Swap16(Load(s));
    StoreLoad(s);
  }

  lemma Field32(x: U32, s: Bytes)
    requires |s| == 4
    ensures Put32(x) == Reversed(Store(x, 4)) && BigEndian(Put32(x)) == x && Get32(s) == BigEndian(s)
  {
    hide HostToNetwork32;
    Limits();
    Swap32(x);
    StoreLoad(Reversed(Store(x, 4)));
    ReversedTwice(Store(x, 4));
    LoadStore(x, 4);
    Fits(s);
    Swap32(Load(s));
    StoreLoad(s);
  }

  lemma Field64(x: U64, s: Bytes)
    requires |s| == 8
    ensures Put64(x) == Reversed(Store(x, 8)) && BigEndian(Put64(x)) == x && Get64(s) == BigEndian(s)
  {
    hide HostToNetwork64;
    Limits();
    Swap64(x);
    StoreLoad(Reversed(Store(x, 8)));
    ReversedTwice(Store(x, 8));
    LoadStore(x, 8);
    Fits(s);
    Swap64(Load(s));
    StoreLoad(s);
  }

  lemma Spelling(s: Bytes, t: Bytes)
    requires |s| == |t| && BigEndian(s) == BigEndian(t)
    ensures s == t
  {
    StoreLoad(Reversed(s));
    StoreLoad(Reversed(t));
    ReversedTwice(s);
    ReversedTwice(t);
  }

  /** Reading undoes writing and writing undoes reading, at each width. */
  lemma RoundTrip16(x: U16, s: Bytes)
    requires |s| == 2
    ensures |Put16(x)| == 2 && Get16(Put16(x)) == x && Put16(Get16(s)) == s
  {
    Field16(x, Put16(x));
    Field16(Get16(s), s);
    Spelling(Put16(Get16(s)), s);
  }

  lemma RoundTrip32(x: U32, s: Bytes)
    requires |s| == 4
    ensures |Put32(x)| == 4 && Get32(Put32(x)) == x && Put32(Get32(s)) == s
  {
    hide HostToNetwork32;
    Field32(x, Put32(x));
    Field32(Get32(s), s);
    Spelling(Put32(Get32(s)), s);
  }

  lemma RoundTrip64(x: U64, s: Bytes)
    requires |s| == 8
    ensures |Put64(x)| == 8 && Get64(Put64(x)) == x && Put64(Get64(s)) == s
  {
    hide HostToNetwork64;
    Field64(x, Put64(x));
    Field64(Get64(s), s);
    Spelling(Put64(Get64(s)), s);
  }
}
