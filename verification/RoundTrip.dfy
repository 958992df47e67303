/**
 * Encoding a proof and decoding it again, and proofs put end to end
 * (internal/akdtree/synth_test.go:91-150, internal/akdtree/decode.go:26-207).
 */
module RoundTrip {
  import opened Basics
  import opened Labels
  import opened AkdTree
  import opened Varint
  import opened Frames
  import opened Decoding

  // ----- messages end to end

  function Append(x: Option<seq<Chunk>>, y: Option<seq<Chunk>>): Option<seq<Chunk>> {
    if x.None? || y.None? then None else Some(x.value + y.value)
  }

  /** The records of a message keep their framing when more bytes follow it. */
  lemma {:induction false} WalkPrefix(a: Bytes, b: Bytes, pos: nat)
    requires pos <= |a| && WalkFrom(a, pos).Some?
    ensures WalkFrom(a + b, pos) == Append(WalkFrom(a, pos), WalkFrom(a + b, |a|))
    decreases |a| - pos
  {
    var ab := a + b;
    assert ab[..|a|] == a;
    if pos < |a| {
      WalkStep(a, pos);
      FrameStable(a, ab, pos);
      WalkStep(ab, pos);
      var r := FrameAt(a, pos).r;
      WalkPrefix(a, b, r.end);
      assert ab[r.body..r.end] == a[r.body..r.end];
      var x, y := WalkFrom(a, r.end), WalkFrom(ab, |a|);
      if x.Some? && y.Some? { assert ChunkOf(a, r) + (x.value + y.value) == (ChunkOf(a, r) + x.value) + y.value; }
    } else {
      var y := WalkFrom(ab, |a|);
      if y.Some? { assert [] + y.value == y.value; }
    }
  }

  lemma {:induction false} ReadSuffix(a: Bytes, b: Bytes, p: nat)
    requires p <= |b|
    ensures Read(a + b, |a| + p) == Read(b, p)
  {
    assert forall j | p <= j < |b| :: b[j] == (a + b)[|a| + p + (j - p)];
    ReadMoves(b, p, a + b, |a| + p, |b| - p, 0);
  }

  /** Bytes in front of a message move its records and do nothing else. */
  lemma {:induction false} FrameSuffix(a: Bytes, b: Bytes, p: nat)
    requires p <= |b|
    ensures var f, g := FrameAt(b, p), FrameAt(a + b, |a| + p);
            if f.Framed? then g == Framed(Shift(f.r, p, |a| + p)) else g == f
  {
    ReadSuffix(a, b, p);
    var key := Read(b, p);
    if key.Value? { ReadSuffix(a, b, p + key.n); }
  }

  lemma {:induction false} ChunkMoves(a: Bytes, b: Bytes, r: Rec)
    requires r.start <= r.body <= r.end <= |b|
    ensures ChunkOf(a + b, Shift(r, r.start, |a| + r.start)) == ChunkOf(b, r)
  {
    assert (a + b)[|a| + r.body..|a| + r.end] == b[r.body..r.end];
  }

  lemma {:induction false} WalkGlues(data: Bytes, p: nat, r: Rec)
    requires p < |data| && FrameAt(data, p) == Framed(r)
    ensures Glued(data, p, ChunkOf(data, r), r.end)
  {
    WalkStep(data, p);
  }

  /** Bytes in front make no difference to walk. */
  ghost predicate SameWalk(a: Bytes, b: Bytes, p: nat)
    requires p <= |b|
  {
    WalkFrom(a + b, |a| + p) == WalkFrom(b, p)
  }

  lemma {:induction false} FrameMoved(a: Bytes, b: Bytes, p: nat, r: Rec)
    requires p < |b| && FrameAt(b, p) == Framed(r)
    ensures FrameAt(a + b, |a| + p) == Framed(Shift(r, p, |a| + p)) && r.start == p <= r.body <= r.end <= |b|
  {
    FrameSuffix(a, b, p);
  }

  lemma {:induction false} ChunkMoved(a: Bytes, b: Bytes, p: nat, r: Rec)
    requires p < |b| && FrameAt(b, p) == Framed(r)
    ensures var q := Shift(r, p, |a| + p);
            && r.start == p <= r.body <= r.end <= |b|
            && FrameAt(a + b, |a| + p) == Framed(q) && ChunkOf(a + b, q) == ChunkOf(b, r) && q.end == |a| + r.end
  {
    FrameMoved(a, b, p, r);
    ChunkMoves(a, b, r);
  }

  lemma {:induction false} GluedMoved(a: Bytes, b: Bytes, p: nat, r: Rec)
    requires p < |b| && FrameAt(b, p) == Framed(r)
    ensures r.start <= r.body <= r.end <= |b| && Glued(a + b, |a| + p, ChunkOf(b, r), |a| + r.end)
  {
    ChunkMoved(a, b, p, r);
    WalkGlues(a + b, |a| + p, Shift(r, p, |a| + p));
  }

  lemma {:induction false} SuffixStep(a: Bytes, b: Bytes, p: nat, r: Rec)
    requires p < |b| && FrameAt(b, p) == Framed(r) && SameWalk(a, b, r.end)
    ensures SameWalk(a, b, p)
  {
    WalkGlues(b, p, r);
    GluedMoved(a, b, p, r);
    GluedAlike(a, b, p, ChunkOf(b, r), r.end);
  }

  lemma {:induction false} GluedAlike(a: Bytes, b: Bytes, p: nat, c: seq<Chunk>, next: nat)
    requires Glued(b, p, c, next) && Glued(a + b, |a| + p, c, |a| + next) && SameWalk(a, b, next)
    ensures SameWalk(a, b, p)
  {
  }

  lemma {:induction false} SuffixStop(a: Bytes, b: Bytes, p: nat)
    requires p < |b| && !FrameAt(b, p).Framed?
    ensures SameWalk(a, b, p)
  {
    FrameSuffix(a, b, p);
    WalkStep(b, p);
    WalkStep(a + b, |a| + p);
  }

  lemma {:induction false} WalkSuffix(a: Bytes, b: Bytes, p: nat)
    requires p <= |b|
    ensures SameWalk(a, b, p)
    decreases |b| - p
  {
    if p < |b| {
      var f := FrameAt(b, p);
      if f.Framed? {
        WalkSuffix(a, b, f.r.end);
        SuffixStep(a, b, p, f.r);
      } else {
        SuffixStop(a, b, p);
      }
    }
  }

  lemma {:induction false} WalkOfBoth(a: Bytes, b: Bytes)
    requires Walk(a).Some?
    ensures Walk(a + b) == Append(Walk(a), Walk(b))
  {
    WalkPrefix(a, b, 0);
    WalkSuffix(a, b, 0);
  }

  function JoinProofs(p: Option<Proof>, q: Option<Proof>): Option<Proof> {
    if p.None? || q.None? then None
    else Some(Proof(p.value.inserted + q.value.inserted, p.value.kept + q.value.kept))
  }

  lemma {:induction false} PlaceJoinsFirst(field: nat, e: Option<Element>, p: Option<Proof>, q: Option<Proof>)
    ensures Place(field, e, JoinProofs(p, q)) == JoinProofs(Place(field, e, p), q)
  {
    if e.Some? && p.Some? && q.Some? {
      assert [e.value] + (p.value.inserted + q.value.inserted) == ([e.value] + p.value.inserted) + q.value.inserted;
      assert [e.value] + (p.value.kept + q.value.kept) == ([e.value] + p.value.kept) + q.value.kept;
    }
  }

  lemma {:induction false} ChunksOfBoth(x: seq<Chunk>, y: seq<Chunk>)
    ensures DecodeChunks(x + y) == JoinProofs(DecodeChunks(x), DecodeChunks(y))
  {
    if x == [] {
      assert x + y == y;
      var q := DecodeChunks(y);
      assert q.Some? ==> [] + q.value.inserted == q.value.inserted && [] + q.value.kept == q.value.kept;
    } else {
      assert (x + y)[0] == x[0] && (x + y)[1..] == x[1..] + y;
      ChunksOfBoth(x[1..], y);
      PlaceJoinsFirst(x[0].field, DecodeElement(x[0].body), DecodeChunks(x[1..]), DecodeChunks(y));
    }
  }

  /** Two accepted proofs put end to end decode to their elements put end to end. */
  lemma {:induction false} DecodeOfBoth(a: Bytes, b: Bytes)
    requires Decode(a).Some? && Decode(b).Some?
    ensures Decode(a + b) == Some(Proof(Decode(a).value.inserted + Decode(b).value.inserted,
                                        Decode(a).value.kept + Decode(b).value.kept))
  {
    WalkOfBoth(a, b);
    ChunksOfBoth(Walk(a).value, Walk(b).value);
  }

  // ----- the encoder

  function EncodeField(field: nat, body: Bytes): Bytes {
    VarintBytes(8 * field + 2) + VarintBytes(|body|) + body
  }

  function EncodeVarintField(field: nat, v: nat): Bytes {
    VarintBytes(8 * field) + VarintBytes(v)
  }

  /** A label without its trailing zero bytes. */
  function Minimise(b: Bytes): Bytes {
    if b == [] || b[|b| - 1] != 0 then b else Minimise(b[..|b| - 1])
  }

  function EncodeLabel(e: Element): Bytes {
    EncodeField(1, Minimise(e.path)) + EncodeVarintField(2, e.len)
  }

  function EncodeElement(e: Element): Bytes {
    EncodeField(1, EncodeLabel(e)) + EncodeField(2, e.value)
  }

  function EncodeElements(field: nat, s: seq<Element>): Bytes {
    if s == [] then [] else EncodeField(field, EncodeElement(s[0])) + EncodeElements(field, s[1..])
  }

  function EncodeProof(p: Proof): Bytes {
    EncodeElements(1, p.inserted) + EncodeElements(2, p.kept)
  }

  // ----- fields

  /** A field on its own is one record. */
  lemma {:induction false} FieldFrames(field: nat, body: Bytes)
    requires 8 * field + 2 < TWO_64 && |body| < TWO_64
    ensures var d := EncodeField(field, body);
            FrameAt(d, 0) == Framed(Rec(field, 2, 0, |d| - |body|, |d|))
  {
    var d := EncodeField(field, body);
    var n := |VarintBytes(8 * field + 2)|;
    assert d[0..n] == VarintBytes(8 * field + 2);
    assert d[n..n + |VarintBytes(|body|)|] == VarintBytes(|body|);
    VarintRoundTrip(d, 0, 8 * field + 2);
    VarintRoundTrip(d, n, |body|);
    assert (8 * field + 2) / 8 == field && (8 * field + 2) % 8 == 2;
  }

  lemma {:induction false} WalkField(field: nat, body: Bytes)
    requires 8 * field + 2 < TWO_64 && |body| < TWO_64
    ensures Walk(EncodeField(field, body)) == Some([Chunk(field, body)])
  {
    var d := EncodeField(field, body);
    FieldFrames(field, body);
    WalkStep(d, 0);
    assert d[|d| - |body|..|d|] == body;
    assert [Chunk(field, body)] + [] == [Chunk(field, body)];
  }

  lemma {:induction false} VarintFieldFrames(field: nat, v: nat)
    requires 8 * field < TWO_64 && v < TWO_64
    ensures var d := EncodeVarintField(field, v);
            && FrameAt(d, 0) == Framed(Rec(field, 0, 0, |d|, |d|))
            && Read(d, 0).Value?
            && Read(d, Read(d, 0).n) == Value(v, |d| - Read(d, 0).n)
  {
    var d := EncodeVarintField(field, v);
    var n := |VarintBytes(8 * field)|;
    assert d[0..n] == VarintBytes(8 * field);
    assert d[n..n + |VarintBytes(v)|] == VarintBytes(v);
    VarintRoundTrip(d, 0, 8 * field);
    VarintRoundTrip(d, n, v);
    assert (8 * field) / 8 == field && (8 * field) % 8 == 0;
  }

  // ----- one element

  lemma {:induction false} MinimiseIsPrefix(b: Bytes)
    ensures |Minimise(b)| <= |b| && b == Minimise(b) + Repeat(0, |b| - |Minimise(b)|)
  {
    if b != [] && b[|b| - 1] == 0 { MinimiseIsPrefix(b[..|b| - 1]); }
  }

  /** Copying a minimised label over zeros restores it. */
  lemma {:induction false} OverlayRestores(path: Label)
    ensures |Minimise(path)| <= 32 && Overlay(Repeat(0, 32), Minimise(path)) == path
  {
    MinimiseIsPrefix(path);
  }

  lemma {:induction false} LabelWalks(e: Element)
    ensures Walk(EncodeLabel(e)) == Some([Chunk(1, Minimise(e.path))])
    ensures LabelLenFrom(EncodeLabel(e), 0, 0) == Some(e.len)
  {
    var a, b := EncodeField(1, Minimise(e.path)), EncodeVarintField(2, e.len);
    OverlayRestores(e.path);
    WalkField(1, Minimise(e.path));
    VarintFieldFrames(2, e.len);
    WalkStep(b, 0);
    WalkOfBoth(a, b);
    assert [Chunk(1, Minimise(e.path))] + [] == [Chunk(1, Minimise(e.path))];
    LabelLenOf(e, a, b);
  }

  lemma {:induction false} LabelLenPast(body: Bytes, b: Bytes)
    requires |body| <= 32
    ensures var a := EncodeField(1, body); LabelLenFrom(a + b, 0, 0) == LabelLenFrom(a + b, |a|, 0)
  {
    var a := EncodeField(1, body);
    FieldFrames(1, body);
    assert (a + b)[..|a|] == a;
    FrameStable(a, a + b, 0);
    LabelLenStep(a + b, 0, 0);
  }

  lemma {:induction false} LabelLenLast(a: Bytes, len: nat)
    requires len < 0x1_0000_0000
    ensures LabelLenFrom(a + EncodeVarintField(2, len), |a|, 0) == Some(len)
  {
    var b := EncodeVarintField(2, len);
    VarintFieldFrames(2, len);
    FrameSuffix(a, b, 0);
    ReadSuffix(a, b, 0);
    ReadSuffix(a, b, Read(b, 0).n);
    LabelLenStep(a + b, |a|, 0);
  }

  lemma {:induction false} LabelLenOf(e: Element, a: Bytes, b: Bytes)
    requires a == EncodeField(1, Minimise(e.path)) && b == EncodeVarintField(2, e.len)
    ensures LabelLenFrom(a + b, 0, 0) == Some(e.len)
  {
    OverlayRestores(e.path);
    LabelLenPast(Minimise(e.path), b);
    LabelLenLast(a, e.len);
  }

  lemma {:induction false} VarintIsShort(v: nat)
    requires v < TWO_64
    ensures |VarintBytes(v)| <= 10
  {
    RoomAtStart();
    VarintLength(v, 0);
  }

  lemma {:induction false} VarintLength(v: nat, i: nat)
    requires i <= 9 && v < Room(i)
    ensures i + |VarintBytes(v)| <= 10
    decreases 9 - i
  {
    if v >= 128 {
      assert i < 9;
      VarintLength(v / 128, i + 1);
    }
  }

  lemma {:induction false} EncodingsAreShort(e: Element)
    ensures |EncodeLabel(e)| < TWO_64 && |EncodeElement(e)| < TWO_64
  {
    OverlayRestores(e.path);
    VarintIsShort(8 * 1 + 2);
    VarintIsShort(|Minimise(e.path)|);
    VarintIsShort(8 * 2);
    VarintIsShort(e.len);
    VarintIsShort(|EncodeLabel(e)|);
    VarintIsShort(8 * 2 + 2);
    VarintIsShort(|e.value|);
  }

  lemma {:induction false} ElementWalks(e: Element)
    ensures Walk(EncodeElement(e)) == Some([Chunk(1, EncodeLabel(e)), Chunk(2, e.value)])
  {
    EncodingsAreShort(e);
    WalkField(1, EncodeLabel(e));
    WalkField(2, e.value);
    WalkOfBoth(EncodeField(1, EncodeLabel(e)), EncodeField(2, e.value));
    var l, v := Chunk(1, EncodeLabel(e)), Chunk(2, e.value);
    assert [l] + [v] == [l, v];
  }

  lemma {:induction false} LabelChunkRestores(e: Element)
    ensures LabelChunks([Chunk(1, Minimise(e.path))], Repeat(0, 32)) == Some(e.path)
  {
    OverlayRestores(e.path);
    var cs := [Chunk(1, Minimise(e.path))];
    assert cs[1..] == [];
    assert LabelChunks([], e.path) == Some(e.path);
  }

  lemma {:induction false} TwoChunks(l: Chunk, v: Chunk, inner: seq<Chunk>, path: Label, p: Parsed, n: nat)
    requires l.field == 1 && v.field == 2 && |v.body| == 32
    requires Walk(l.body) == Some(inner) && LabelChunks(inner, p.path) == Some(path)
    requires LabelLenFrom(l.body, 0, 0) == Some(n)
    ensures ElementChunks([l, v], p) == Some(Parsed(path, v.body, true, true))
    ensures LenChunks([l, v], 0) == Some(n)
  {
    assert [l, v][1..] == [v] && [v][1..] == [];
    assert LenChunks([v], n) == LenChunks([], n) == Some(n);
    var q := Parsed(path, p.value, true, p.sawValue);
    assert ElementChunks([v], q) == ElementChunks([], Parsed(path, v.body, true, true));
    assert ElementChunks([l, v], p) == ElementChunks([v], q);
  }

  /** An element decodes to itself. */
  lemma {:induction false} ElementRoundTrip(e: Element)
    ensures DecodeElement(EncodeElement(e)) == Some(e)
  {
    ElementWalks(e);
    LabelWalks(e);
    LabelChunkRestores(e);
    TwoChunks(Chunk(1, EncodeLabel(e)), Chunk(2, e.value), [Chunk(1, Minimise(e.path))], e.path,
              Parsed(Repeat(0, 32), Repeat(0, 32), false, false), e.len);
  }

  // ----- the whole proof

  function AsField(field: nat, s: seq<Element>): Option<Proof> {
    Some(if field == 1 then Proof(s, []) else Proof([], s))
  }

  lemma {:induction false} OneElement(field: nat, e: Element)
    requires field == 1 || field == 2
    ensures Decode(EncodeField(field, EncodeElement(e))) == AsField(field, [e])
  {
    var body := EncodeElement(e);
    EncodingsAreShort(e);
    WalkField(field, body);
    ElementRoundTrip(e);
    PlaceOne([Chunk(field, body)], e);
  }

  lemma {:induction false} PlaceOne(cs: seq<Chunk>, e: Element)
    requires |cs| == 1 && (cs[0].field == 1 || cs[0].field == 2) && DecodeElement(cs[0].body) == Some(e)
    ensures DecodeChunks(cs) == AsField(cs[0].field, [e])
  {
    assert cs[1..] == [];
    assert DecodeChunks(cs[1..]) == Some(Proof([], []));
    assert [e] + [] == [e];
  }

  lemma {:induction false} JoinFields(field: nat, e: Element, s: seq<Element>, a: Bytes, b: Bytes)
    requires Decode(a) == AsField(field, [e]) && Decode(b) == AsField(field, s)
    ensures Decode(a + b) == AsField(field, [e] + s)
  {
    DecodeOfBoth(a, b);
    assert forall x: seq<Element> {:trigger [] + x} :: [] + x == x;
  }

  lemma {:induction false} ElementsRoundTrip(field: nat, s: seq<Element>)
    requires field == 1 || field == 2
    ensures Decode(EncodeElements(field, s)) == AsField(field, s)
  {
    if s == [] {
      assert DecodeChunks([]) == Some(Proof([], []));
    } else {
      OneElement(field, s[0]);
      ElementsRoundTrip(field, s[1..]);
      var a, b := EncodeField(field, EncodeElement(s[0])), EncodeElements(field, s[1..]);
      JoinFields(field, s[0], s[1..], a, b);
      assert [s[0]] + s[1..] == s;
      assert EncodeElements(field, s) == a + b;
    }
  }

  /** Decode undoes the encoder on every two lists of elements. */
  lemma {:induction false} ProofRoundTrip(p: Proof)
    ensures Decode(EncodeProof(p)) == Some(p)
  {
    ElementsRoundTrip(1, p.inserted);
    ElementsRoundTrip(2, p.kept);
    DecodeOfBoth(EncodeElements(1, p.inserted), EncodeElements(2, p.kept));
    assert p.inserted + [] == p.inserted && [] + p.kept == p.kept;
  }
}
