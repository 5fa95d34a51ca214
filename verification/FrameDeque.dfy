/**
 Deques of records sorted by frame number, as the input buffer and the snapshot store keep them, against the maps
 they stand for.
 */
module FrameDeques {
  datatype Entry<+V> = Entry(frameNo: nat, value: V)

  predicate Sorted<V>(s: seq<Entry<V>>) {
    forall i, j :: 0 <= i < j < |s| ==> s[i].frameNo < s[j].frameNo
  }

  ghost function AsMap<V>(s: seq<Entry<V>>): map<nat, V> {
    if s == [] then map[] else AsMap(s[1..])[s[0].frameNo := s[0].value]
  }

  // ---- searching ----

  /** Where frame f is or would be: the first record that is not before it. */
  predicate IsLowerBound<V>(s: seq<Entry<V>>, f: nat, i: nat) {
    && i <= |s|
    && (forall j :: 0 <= j < i ==> s[j].frameNo < f)
    && (forall j :: i <= j < |s| ==> f <= s[j].frameNo)
  }

  method LowerBound<V>(s: seq<Entry<V>>, f: nat) returns (i: nat)
    requires Sorted(s)
    ensures IsLowerBound(s, f, i)
  {
    i := 0;
    var hi := |s|;
    while i < hi
      invariant i <= hi <= |s|
      invariant forall j :: 0 <= j < i ==> s[j].frameNo < f
      invariant forall j :: hi <= j < |s| ==> f <= s[j].frameNo
    {
      var mid := (i + hi) / 2;
      if s[mid].frameNo < f {
        i := mid + 1;
      } else {
        hi := mid;
      }
    }
  }

  lemma {:induction false} InMap<V>(s: seq<Entry<V>>, f: nat)
    ensures f in AsMap(s) <==> exists i :: 0 <= i < |s| && s[i].frameNo == f
  {
    if s != [] {
      InMap(s[1..], f);
      assert forall i :: 0 <= i < |s[1..]| ==> s[1..][i] == s[i + 1];
      assert forall i :: 0 < i < |s| ==> s[i] == s[1..][i - 1];
    }
  }

  lemma {:induction false} AtIndex<V>(s: seq<Entry<V>>, i: nat)
    requires Sorted(s) && i < |s|
    ensures s[i].frameNo in AsMap(s) && AsMap(s)[s[i].frameNo] == s[i].value
  {
    if i > 0 {
      AtIndex(s[1..], i - 1);
    }
  }

  /** A lower bound tells whether the frame is there. */
  lemma Found<V>(s: seq<Entry<V>>, f: nat, i: nat)
    requires Sorted(s) && IsLowerBound(s, f, i)
    ensures f in AsMap(s) <==> i < |s| && s[i].frameNo == f
    ensures f in AsMap(s) ==> AsMap(s)[f] == s[i].value
  {
    InMap(s, f);
    if i < |s| {
      AtIndex(s, i);
    }
  }

  lemma Absent<V>(s: seq<Entry<V>>, f: nat)
    requires forall i :: 0 <= i < |s| ==> s[i].frameNo != f
    ensures f !in AsMap(s)
  {
    InMap(s, f);
  }

  // ---- changing ----

  lemma {:induction false} Concat<V>(a: seq<Entry<V>>, b: seq<Entry<V>>)
    ensures AsMap(a + b) == AsMap(b) + AsMap(a)
  {
    if a == [] {
      assert a + b == b;
    } else {
      assert (a + b)[1..] == a[1..] + b;
      Concat(a[1..], b);
    }
  }

  /** A deque cut at a record. */
  lemma Cut<V>(a: seq<Entry<V>>, e: Entry<V>, b: seq<Entry<V>>)
    ensures AsMap(a + [e] + b) == AsMap(b)[e.frameNo := e.value] + AsMap(a)
  {
    Concat(a, [e] + b);
    assert ([e] + b)[1..] == b;
    assert a + [e] + b == a + ([e] + b);
  }

  lemma InsertMap<V>(s: seq<Entry<V>>, e: Entry<V>, i: nat)
    requires i <= |s| && forall j :: 0 <= j < |s| ==> s[j].frameNo != e.frameNo
    ensures AsMap(s[..i] + [e] + s[i..]) == AsMap(s)[e.frameNo := e.value]
  {
    hide AsMap;
    Cut(s[..i], e, s[i..]);
    Concat(s[..i], s[i..]);
    assert s == s[..i] + s[i..];
    Absent(s[..i], e.frameNo);
  }

  lemma InsertAt<V>(s: seq<Entry<V>>, e: Entry<V>, i: nat)
    requires Sorted(s) && IsLowerBound(s, e.frameNo, i) && (i < |s| ==> s[i].frameNo != e.frameNo)
    ensures Sorted(s[..i] + [e] + s[i..]) && AsMap(s[..i] + [e] + s[i..]) == AsMap(s)[e.frameNo := e.value]
  {
    hide AsMap;
    InsertMap(s, e, i);
    var r := s[..i] + [e] + s[i..];
    assert forall j :: 0 <= j < |r| ==> r[j] == if j < i then s[j] else if j == i then e else s[j - 1];
  }

  lemma ReplaceMap<V>(s: seq<Entry<V>>, i: nat, v: V)
    requires i < |s| && forall j :: 0 <= j < i ==> s[j].frameNo != s[i].frameNo
    ensures AsMap(s[i := s[i].(value := v)]) == AsMap(s)[s[i].frameNo := v]
  {
    hide AsMap;
    Cut(s[..i], s[i], s[i + 1..]);
    Cut(s[..i], s[i].(value := v), s[i + 1..]);
    assert s == s[..i] + [s[i]] + s[i + 1..];
    assert s[i := s[i].(value := v)] == s[..i] + [s[i].(value := v)] + s[i + 1..];
    Absent(s[..i], s[i].frameNo);
  }

  lemma ReplaceAt<V>(s: seq<Entry<V>>, i: nat, v: V)
    requires Sorted(s) && i < |s|
    ensures var r := s[i := s[i].(value := v)]; Sorted(r) && AsMap(r) == AsMap(s)[s[i].frameNo := v]
  {
    ReplaceMap(s, i, v);
  }

  lemma EraseMap<V>(s: seq<Entry<V>>, i: nat)
    requires i < |s| && forall j :: 0 <= j < |s| && j != i ==> s[j].frameNo != s[i].frameNo
    ensures AsMap(s[..i] + s[i + 1..]) == AsMap(s) - {s[i].frameNo}
  {
    hide AsMap;
    Cut(s[..i], s[i], s[i + 1..]);
    Concat(s[..i], s[i + 1..]);
    assert s == s[..i] + [s[i]] + s[i + 1..];
    Absent(s[..i], s[i].frameNo);
    Absent(s[i + 1..], s[i].frameNo);
  }

  lemma EraseAt<V>(s: seq<Entry<V>>, i: nat)
    requires Sorted(s) && i < |s|
    ensures Sorted(s[..i] + s[i + 1..]) && AsMap(s[..i] + s[i + 1..]) == AsMap(s) - {s[i].frameNo}
  {
    hide AsMap;
    EraseMap(s, i);
    var r := s[..i] + s[i + 1..];
    assert forall j :: 0 <= j < |r| ==> r[j] == if j < i then s[j] else s[j + 1];
  }

  // ---- evicting the oldest ----

  /** The least frame of a map. */
  ghost function First<V>(m: map<nat, V>): (f: nat)
    requires m != map[]
    ensures f in m && forall g :: g in m ==> f <= g
    decreases |m|
  {
    var f :| f in m;
    var rest := m - {f};
    assert rest.Keys == m.Keys - {f};
    if rest == map[] then
      assert forall g :: g in m && g != f ==> g in rest;
      f
    else
      var g := First(rest);
      assert forall h :: h in m && h != f ==> h in rest;
      if f < g then f else g
  }

  /** The oldest frames dropped until at most k are left. */
  ghost function KeepLargest<V>(m: map<nat, V>, k: nat): (r: map<nat, V>)
    ensures |r| <= k
    ensures forall f :: f in r ==> f in m && r[f] == m[f]
    decreases |m|
  {
    if |m| <= k then m else
    assert (m - {First(m)}).Keys == m.Keys - {First(m)};
    KeepLargest(m - {First(m)}, k)
  }

  ghost function Later<V>(m: map<nat, V>, f: nat): set<nat> {
    set g | g in m && g > f
  }

  lemma LaterSize<V>(m: map<nat, V>, f: nat)
    requires f in m
    ensures |Later(m, f)| < |m|
  {
    assert Later(m, f) < m.Keys;
    ProperSubsetSize(Later(m, f), m.Keys);
  }

  lemma {:induction false} SubsetSize<T>(a: set<T>, b: set<T>)
    requires a <= b
    ensures |a| <= |b|
    decreases a
  {
    if a != {} {
      var x :| x in a;
      SubsetSize(a - {x}, b - {x});
    }
  }

  lemma ProperSubsetSize<T>(a: set<T>, b: set<T>)
    requires a < b
    ensures |a| < |b|
  {
    var x :| x in b && x !in a;
    SubsetSize(a, b - {x});
  }

  /** What is kept: the frames with fewer than k later ones. */
  lemma {:induction false} Kept<V>(m: map<nat, V>, k: nat, f: nat)
    requires f in m
    ensures f in KeepLargest(m, k) <==> |Later(m, f)| < k
    decreases |m|
  {
    if |m| <= k {
      LaterSize(m, f);
    } else {
      var first := First(m);
      var rest := m - {first};
      assert rest.Keys == m.Keys - {first};
      if f == first {
        assert Later(m, f) == rest.Keys;
      } else {
        assert Later(rest, f) == Later(m, f);
        Kept(rest, k, f);
      }
    }
  }

  lemma {:induction false} Size<V>(s: seq<Entry<V>>)
    requires Sorted(s)
    ensures |AsMap(s)| == |s|
  {
    if s != [] {
      Size(s[1..]);
      Absent(s[1..], s[0].frameNo);
      assert AsMap(s).Keys == AsMap(s[1..]).Keys + {s[0].frameNo};
    }
  }

  lemma FirstOf<V>(s: seq<Entry<V>>)
    requires Sorted(s) && s != []
    ensures AsMap(s) != map[] && First(AsMap(s)) == s[0].frameNo
    ensures Sorted(s[1..]) && AsMap(s[1..]) == AsMap(s) - {s[0].frameNo}
  {
    InMap(s, First(AsMap(s)));
    assert s[0].frameNo in AsMap(s);
    Absent(s[1..], s[0].frameNo);
  }

  /** The eviction loop of both stores: pop_front while there are too many. */
  method PopExcess<V>(s: seq<Entry<V>>, k: nat) returns (r: seq<Entry<V>>)
    requires Sorted(s)
    ensures Sorted(r) && AsMap(r) == KeepLargest(AsMap(s), k)
  {
    r := s;
    while |r| > k
      invariant Sorted(r) && KeepLargest(AsMap(r), k) == KeepLargest(AsMap(s), k)
    {
      Size(r);
      FirstOf(r);
      r := r[1..];
    }
    Size(r);
  }
}
