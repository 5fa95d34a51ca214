/**
 Decimal texts: std::to_string, the zero-padded counter of RoomManager::GenerateRoomId, the "x:y:z" key of a voxel
 and the "building_N" id.  Each of them names its number: two texts are equal only when the numbers are.
 */
module Decimal {

  function DigitChar(d: nat): char
    requires d < 10
  {
    '0' + d as char
  }

  /** std::to_string of a non-negative integer. */
  function Digits(n: nat): (s: string)
    ensures |s| > 0
    ensures forall i :: 0 <= i < |s| ==> '0' <= s[i] <= '9'
  {
    if n < 10 then [DigitChar(n)] else Digits(n / 10) + [DigitChar(n % 10)]
  }

  /** std::to_string of a signed integer. */
  function Signed(n: int): (s: string)
  {
    if n < 0 then "-" + Digits(-n) else Digits(n)
  }

  /** Reads a text of digits back as a number. */
  function Parse(s: string): nat
    requires forall i :: 0 <= i < |s| ==> '0' <= s[i] <= '9'
  {
    if s == [] then 0 else Parse(s[..|s| - 1]) * 10 + (s[|s| - 1] - '0') as nat
  }

  lemma {:induction false} ParseDigits(n: nat)
    ensures Parse(Digits(n)) == n
  {
    if n >= 10 {
      ParseDigits(n / 10);
      assert Digits(n)[..|Digits(n)| - 1] == Digits(n / 10);
    } else {
      assert Parse([]) == 0;
    }
  }

  lemma ReadSigned(n: int)
    ensures |Signed(n)| > 0
    ensures n < 0 <==> Signed(n)[0] == '-'
    ensures var s := if n < 0 then Signed(n)[1..] else Signed(n);
            (forall i :: 0 <= i < |s| ==> '0' <= s[i] <= '9') && Parse(s) == if n < 0 then -n else n
  {
    var m := if n < 0 then -n else n;
    ParseDigits(m);
    if n < 0 {
      assert Signed(n)[1..] == Digits(m);
    }
  }

  lemma SignedInjective(a: int, b: int)
    requires Signed(a) == Signed(b)
    ensures a == b
  {
    ReadSigned(a);
    ReadSigned(b);
  }

  /** std::setfill('0') << std::setw(3). */
  function Pad3(s: string): (r: string)
    decreases 3 - |s|
  {
    if |s| >= 3 then s else Pad3("0" + s)
  }

  lemma {:induction false} ParseSkipsLeadingZero(s: string)
    requires forall i :: 0 <= i < |s| ==> '0' <= s[i] <= '9'
    ensures Parse("0" + s) == Parse(s)
  {
    if s == [] {
      assert "0" + s == "0" && Parse("0"[..0]) == 0;
    } else {
      ParseSkipsLeadingZero(s[..|s| - 1]);
      assert ("0" + s)[..|s|] == "0" + s[..|s| - 1];
    }
  }

  lemma {:induction false} ParsePad3(s: string)
    requires forall i :: 0 <= i < |s| ==> '0' <= s[i] <= '9'
    ensures forall i :: 0 <= i < |Pad3(s)| ==> '0' <= Pad3(s)[i] <= '9'
    ensures Parse(Pad3(s)) == Parse(s)
    decreases 3 - |s|
  {
    if |s| < 3 {
      ParseSkipsLeadingZero(s);
      ParsePad3("0" + s);
    }
  }

  /** The id RoomManager gives to its n-th room: room_001, room_002, ... */
  function RoomName(n: nat): string {
    "room_" + Pad3(Digits(n))
  }

  lemma RoomNameInjective(a: nat, b: nat)
    requires RoomName(a) == RoomName(b)
    ensures a == b
  {
    assert RoomName(a)[5..] == Pad3(Digits(a)) && RoomName(b)[5..] == Pad3(Digits(b));
    ParsePad3(Digits(a));
    ParsePad3(Digits(b));
    ParseDigits(a);
    ParseDigits(b);
  }

  function BuildingName(n: nat): string {
    "building_" + Digits(n)
  }

  lemma BuildingNameInjective(a: nat, b: nat)
    requires BuildingName(a) == BuildingName(b)
    ensures a == b
  {
    assert BuildingName(a)[9..] == Digits(a) && BuildingName(b)[9..] == Digits(b);
    ParseDigits(a);
    ParseDigits(b);
  }

  /** The key under which a voxel edit is stored. */
  function VoxelKey(x: int, y: int, z: int): string {
    Signed(x) + ":" + Signed(y) + ":" + Signed(z)
  }

  lemma SignedHasNoColon(n: int)
    ensures ':' !in Signed(n)
  {
  }

  /** A text cut at its first colon has one reading. */
  lemma FirstColonUnique(a: string, b: string, restA: string, restB: string)
    requires a + ":" + restA == b + ":" + restB
    requires ':' !in a && ':' !in b
    ensures a == b && restA == restB
  {
    var s := a + ":" + restA;
    assert s[|a|] == ':' && s[|b|] == ':';
    assert forall i :: 0 <= i < |a| ==> s[i] == a[i] != ':';
    assert forall i :: 0 <= i < |b| ==> s[i] == b[i] != ':';
    assert |a| == |b|;
    assert a == s[..|a|] && b == s[..|b|];
    assert restA == s[|a| + 1..] && restB == s[|b| + 1..];
  }

  /** Distinct coordinates never share a key. */
  lemma VoxelKeyInjective(x: int, y: int, z: int, x': int, y': int, z': int)
    requires VoxelKey(x, y, z) == VoxelKey(x', y', z')
    ensures x == x' && y == y' && z == z'
  {
    var sx, sy, sz, sx', sy', sz' := Signed(x), Signed(y), Signed(z), Signed(x'), Signed(y'), Signed(z');
    assert ':' !in sx && ':' !in sx' && ':' !in sy && ':' !in sy' by {
      SignedHasNoColon(x);
      SignedHasNoColon(x');
      SignedHasNoColon(y);
      SignedHasNoColon(y');
    }
    ThreeParts(sx, sy, sz, sx', sy', sz');
    SignedInjective(x, x');
    SignedInjective(y, y');
    SignedInjective(z, z');
  }

  lemma ThreeParts(a: string, b: string, c: string, a': string, b': string, c': string)
    requires a + ":" + b + ":" + c == a' + ":" + b' + ":" + c'
    requires ':' !in a && ':' !in a' && ':' !in b && ':' !in b'
    ensures a == a' && b == b' && c == c'
  {
    assert a + ":" + b + ":" + c == a + ":" + (b + ":" + c);
    assert a' + ":" + b' + ":" + c' == a' + ":" + (b' + ":" + c');
    FirstColonUnique(a, a', b + ":" + c, b' + ":" + c');
    FirstColonUnique(b, b', c, c');
  }
}
