/**
 Cutting a byte stream into frames.  The cut of a stream does not depend on the pieces in which it arrived, a bad head
 is never passed, and well-delimited pieces that decode to nothing are skipped without losing the next frame.
 */
module Stream {
  import opened Wrappers
  import opened ByteOrder
  import opened Protocol

  /** How many bytes TryPopFrame takes from the front, if it takes any. */
  function Pop(s: Bytes): (r: Option<nat>)
    ensures r.Some? ==> FRAME_HEADER_SIZE <= r.value <= |s|
  {
    if |s| < 6 || Get16(s[..2]) != PROTOCOL_MAGIC then None
    else
      var n := Get32(s[2..6]);
      if n < FRAME_HEADER_SIZE || n > MAX_FRAME_SIZE || |s| < n then None else Some(n)
  }

  /** The pieces popped from a stream one after the other. */
  function Pieces(s: Bytes): seq<Bytes>
    decreases |s|
  {
    match Pop(s)
    case None => []
    case Some(n) => [s[..n]] + Pieces(s[n..])
  }

  /** What is left when nothing more can be popped. */
  function Rest(s: Bytes): (r: Bytes)
    ensures Pop(r).None?
    decreases |s|
  {
    match Pop(s)
    case None => s
    case Some(n) => Rest(s[n..])
  }

  /** The frames of a list of pieces; a piece that decodes to nothing is dropped. */
  ghost function Frames(pieces: seq<Bytes>): seq<Frame> {
    if pieces == [] then [] else
    (match Meaning(pieces[0]) case Some(f) => [f] case None => []) + Frames(pieces[1..])
  }

  /** What a receiver that has read the stream s hands to its callback. */
  ghost function Delivery(s: Bytes): seq<Frame> {
    Frames(Pieces(s))
  }

  function Concat(pieces: seq<Bytes>): Bytes {
    if pieces == [] then [] else pieces[0] + Concat(pieces[1..])
  }

  lemma ConcatAppend(a: seq<Bytes>, b: seq<Bytes>)
    ensures Concat(a + b) == Concat(a) + Concat(b)
  {
    if a == [] {
      assert a + b == b;
    } else {
      assert (a + b)[1..] == a[1..] + b;
      ConcatAppend(a[1..], b);
    }
  }

  lemma FramesAppend(a: seq<Bytes>, b: seq<Bytes>)
    ensures Frames(a + b) == Frames(a) + Frames(b)
  {
    if a == [] {
      assert a + b == b;
    } else {
      assert (a + b)[1..] == a[1..] + b;
      FramesAppend(a[1..], b);
    }
  }

  /** More bytes do not change a head that can already be popped. */
  lemma PopMonotone(a: Bytes, b: Bytes)
    requires Pop(a).Some?
    ensures Pop(a + b) == Pop(a)
  {
    hide Get16, Get32;
    assert (a + b)[..2] == a[..2] && (a + b)[2..6] == a[2..6];
  }

  /** Cutting loses and invents nothing. */
  lemma {:induction false} CutConserves(s: Bytes)
    ensures Concat(Pieces(s)) + Rest(s) == s
    decreases |s|
  {
    hide Pop;
    match Pop(s)
    case None =>
    case Some(n) =>
      CutConserves(s[n..]);
      assert s == s[..n] + s[n..];
  }

  /** Cutting what has arrived and later cutting the rest with new bytes is cutting the whole stream. */
  lemma {:induction false} CutAppend(a: Bytes, b: Bytes)
    ensures Pieces(a + b) == Pieces(a) + Pieces(Rest(a) + b)
    ensures Rest(a + b) == Rest(Rest(a) + b)
    decreases |a|
  {
    hide Get16, Get32;
    match Pop(a)
    case None =>
      assert [] + Pieces(a + b) == Pieces(a + b);
    case Some(n) =>
      PopMonotone(a, b);
      assert (a + b)[n..] == a[n..] + b && (a + b)[..n] == a[..n];
      CutAppend(a[n..], b);
  }

  lemma DeliveryAppend(a: Bytes, b: Bytes)
    ensures Delivery(a + b) == Delivery(a) + Delivery(Rest(a) + b)
  {
    CutAppend(a, b);
    FramesAppend(Pieces(a), Pieces(Rest(a) + b));
  }

  // ---- a bad head ----

  /** Six bytes that cannot start a frame: the magic is wrong or the length is out of range. */
  predicate BadHead(s: Bytes) {
    |s| >= 6 &&
    (Get16(s[..2]) != PROTOCOL_MAGIC || Get32(s[2..6]) < FRAME_HEADER_SIZE || Get32(s[2..6]) > MAX_FRAME_SIZE)
  }

  /** A bad head stays for ever, and nothing behind it is ever delivered. */
  lemma BadHeadAbsorbs(s: Bytes, more: Bytes)
    requires BadHead(s)
    ensures BadHead(s + more) && Pieces(s + more) == [] && Rest(s + more) == s + more && Delivery(s + more) == []
  {
    hide Get16, Get32;
    assert (s + more)[..2] == s[..2] && (s + more)[2..6] == s[2..6];
  }

  /** A stream stops being cut exactly because its rest is short of a head, short of its frame, or bad. */
  lemma WhyRest(s: Bytes)
    ensures var r := Rest(s);
            |r| < 6 || BadHead(r) || (Get16(r[..2]) == PROTOCOL_MAGIC && |r| < Get32(r[2..6]) <= MAX_FRAME_SIZE)
  {
    hide Get16, Get32;
  }

  // ---- well-delimited pieces ----

  /** The piece says its own length; whether it decodes is another matter. */
  predicate Delimited(piece: Bytes) {
    Pop(piece) == Some(|piece|)
  }

  lemma {:induction false} CutDelimited(pieces: seq<Bytes>, tail: Bytes)
    requires forall p :: p in pieces ==> Delimited(p)
    ensures Pieces(Concat(pieces) + tail) == pieces + Pieces(tail)
    ensures Rest(Concat(pieces) + tail) == Rest(tail)
  {
    hide Pop;
    if pieces == [] {
      assert Concat(pieces) + tail == tail && pieces + Pieces(tail) == Pieces(tail);
    } else {
      var p, more := pieces[0], Concat(pieces[1..]) + tail;
      var s := Concat(pieces) + tail;
      assert s == p + more;
      assert Delimited(p);
      PopMonotone(p, more);
      assert s[..|p|] == p && s[|p|..] == more;
      CutDelimited(pieces[1..], tail);
      assert pieces == [p] + pieces[1..];
    }
  }

  lemma EncodedDelimited(f: Frame)
    requires Encodable(f)
    ensures Delimited(Encoded(f))
  {
    hide Encoded, Get16, Get32;
    ReadBack(f);
  }

  /** Pieces that do not decode drop out; the frames around them arrive, in order. */
  lemma SkipUndecodable(pieces: seq<Bytes>)
    requires forall p :: p in pieces ==> Delimited(p)
    ensures Delivery(Concat(pieces)) == Frames(pieces) && Rest(Concat(pieces)) == []
  {
    hide Pop;
    CutDelimited(pieces, []);
    assert Concat(pieces) + [] == Concat(pieces);
    assert Pop([]).None? by { EmptyHasNoHead(); }
    assert pieces + [] == pieces;
  }

  lemma EmptyHasNoHead()
    ensures Pop([]).None? && Pieces([]) == [] && Rest([]) == []
  {
  }

  // ---- frames sent and received ----

  function AllEncoded(fs: seq<Frame>): seq<Bytes> {
    seq(|fs|, i requires 0 <= i < |fs| => Encoded(fs[i]))
  }

  lemma FramesOfEncoded(fs: seq<Frame>)
    requires forall f :: f in fs ==> Encodable(f)
    ensures Frames(AllEncoded(fs)) == fs
  {
    hide Encoded;
    if fs != [] {
      assert AllEncoded(fs)[1..] == AllEncoded(fs[1..]);
      FramesOfEncoded(fs[1..]);
      EncodedInjective(fs[0], Meaning(Encoded(fs[0])).value);
      assert fs == [fs[0]] + fs[1..];
    }
  }

  /**
   Any list of encodable frames, sent through any splitting of the bytes: what has been delivered when a prefix of the
   wire has been read is a prefix of what was sent, and all of it once every byte has been read.
   */
  lemma EndToEnd(sent: seq<Frame>, queued: Bytes, wire: Bytes, unsent: Bytes, received: Bytes)
    requires forall f :: f in sent ==> Encodable(f)
    requires queued == Concat(AllEncoded(sent)) && wire + unsent == queued && received <= wire
    ensures Delivery(received) <= sent
    ensures received == queued ==> Delivery(received) == sent && Rest(received) == []
  {
    hide Encoded, Pop;
    var pieces := AllEncoded(sent);
    forall p | p in pieces ensures Delimited(p) {
      var i :| 0 <= i < |pieces| && pieces[i] == p;
      EncodedDelimited(sent[i]);
    }
    SkipUndecodable(pieces);
    FramesOfEncoded(sent);
    var later := wire[|received|..] + unsent;
    assert received + later == queued;
    DeliveryAppend(received, later);
  }
}
