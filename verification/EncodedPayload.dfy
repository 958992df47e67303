/**
 * The payload of an encoded proof (internal/akdtree/ranges.go:182-253): what PayloadOffset counts in it
 * is the label and value bytes that were encoded, in order.
 */
module EncodedPayload {
  import opened Basics
  import opened AkdTree
  import opened Varint
  import opened Frames
  import opened Decoding
  import opened RoundTrip
  import opened Ranges
  import opened Payload
  import opened PayloadBytes

  /** Each element's label, without its trailing zero bytes, and its value. */
  function PayloadOf(s: seq<Element>): Bytes {
    if s == [] then [] else Minimise(s[0].path) + s[0].value + PayloadOf(s[1..])
  }

  function SpanBytes(data: Bytes, ss: seq<Range>): Bytes
    requires forall i | 0 <= i < |ss| :: ss[i].start <= ss[i].end <= |data|
  {
    if ss == [] then [] else data[ss[0].start..ss[0].end] + SpanBytes(data, ss[1..])
  }

  /** The spans lie in the data and hold these bytes, one after another. */
  ghost predicate Hold(data: Bytes, ss: seq<Range>, x: Bytes) {
    (forall i | 0 <= i < |ss| :: ss[i].start <= ss[i].end <= |data|) && SpanBytes(data, ss) == x
  }

  lemma {:induction false} HoldBoth(data: Bytes, a: seq<Range>, b: seq<Range>, x: Bytes, y: Bytes)
    requires Hold(data, a, x) && Hold(data, b, y)
    ensures Hold(data, a + b, x + y)
    decreases |a|
  {
    if a == [] {
      assert a + b == b && x + y == y;
    } else {
      var z := SpanBytes(data, a[1..]);
      HoldBoth(data, a[1..], b, z, y);
      assert (a + b)[0] == a[0] && (a + b)[1..] == a[1..] + b;
      assert data[a[0].start..a[0].end] + (z + y) == x + y;
    }
  }

  lemma {:induction false} HoldOne(data: Bytes, pos: nat, x: Bytes)
    requires StandsAt(data, pos, x)
    ensures Hold(data, [Range(pos, pos + |x|)], x)
  {
    var ss := [Range(pos, pos + |x|)];
    assert ss[1..] == [] && SpanBytes(data, []) == [] && x + [] == x;
  }

  // ----- one field where it stands

  lemma {:induction false} RecordStands(data: Bytes, pos: nat, d: Bytes, r: Rec)
    requires StandsAt(data, pos, d) && d != [] && FrameAt(d, 0) == Framed(r) && r.end == |d|
    ensures FrameAt(data, pos) == Framed(Rec(r.field, r.wire, pos, pos + r.body, pos + r.end))
  {
    forall j | 0 <= j < |d| ensures d[j] == data[pos + j] { assert data[pos..pos + |d|][j] == d[j]; }
    FrameMoves(d, 0, data, pos);
  }

  lemma {:induction false} FieldStands(data: Bytes, pos: nat, field: nat, body: Bytes) returns (at: nat)
    requires 8 * field + 2 < TWO_64 && |body| < TWO_64 && StandsAt(data, pos, EncodeField(field, body))
    ensures FrameAt(data, pos) == Framed(Rec(field, 2, pos, at, at + |body|)) && StandsAt(data, at, body)
    ensures at + |body| == pos + |EncodeField(field, body)|
  {
    var d := EncodeField(field, body);
    FieldFrames(field, body);
    RecordStands(data, pos, d, FrameAt(d, 0).r);
    PartsStand(data, pos, VarintBytes(8 * field + 2) + VarintBytes(|body|), body);
    at := pos + |d| - |body|;
  }

  lemma {:induction false} NumberStands(data: Bytes, pos: nat, field: nat, v: nat)
    requires 8 * field < TWO_64 && v < TWO_64 && StandsAt(data, pos, EncodeVarintField(field, v))
    ensures var n := |EncodeVarintField(field, v)|; FrameAt(data, pos) == Framed(Rec(field, 0, pos, pos + n, pos + n))
  {
    var d := EncodeVarintField(field, v);
    VarintFieldFrames(field, v);
    RecordStands(data, pos, d, FrameAt(d, 0).r);
  }

  // ----- the loops

  /** The loop finds these spans from pos on, and they hold x. */
  ghost predicate Gives(level: Level, data: Bytes, pos: nat, hi: nat, ss: seq<Range>, x: Bytes) {
    hi <= |data| && Collect(level, data, pos, hi) == Some(ss) && Hold(data, ss, x)
  }

  ghost predicate Yields(level: Level, data: Bytes, r: Rec, ss: seq<Range>, x: Bytes) {
    r.body <= r.end <= |data| && Pick(level, data, r) == Some(ss) && Hold(data, ss, x)
  }

  lemma {:induction false} GivesOn(level: Level, data: Bytes, pos: nat, hi: nat, r: Rec, a: seq<Range>, x: Bytes,
          b: seq<Range>, y: Bytes)
    requires pos < hi <= |data| && FrameAt(data, pos) == Framed(r)
    requires Yields(level, data, r, a, x) && Gives(level, data, r.end, hi, b, y)
    ensures Gives(level, data, pos, hi, a + b, x + y)
  {
    HoldBoth(data, a, b, x, y);
  }

  lemma {:induction false} GivesNothing(level: Level, data: Bytes, hi: nat)
    requires hi <= |data|
    ensures Gives(level, data, hi, hi, [], [])
  {
  }

  // ----- one element

  /** A number, last in its NodeLabel, holds no payload. */
  lemma {:induction false} NumberGives(data: Bytes, pos: nat, v: nat, hi: nat)
    requires v < TWO_64 && StandsAt(data, pos, EncodeVarintField(2, v)) && hi == pos + |EncodeVarintField(2, v)|
    ensures Gives(InLabel, data, pos, hi, [], [])
  {
    NumberStands(data, pos, 2, v);
    GivesNothing(InLabel, data, hi);
    GivesOn(InLabel, data, pos, hi, FrameAt(data, pos).r, [], [], [], []);
  }

  /** The label_val before it does. */
  lemma {:induction false} LabelGives(data: Bytes, pos: nat, x: Bytes, hi: nat) returns (ss: seq<Range>)
    requires |x| < TWO_64 && StandsAt(data, pos, EncodeField(1, x)) && pos + |EncodeField(1, x)| <= hi
    requires Gives(InLabel, data, pos + |EncodeField(1, x)|, hi, [], [])
    ensures Gives(InLabel, data, pos, hi, ss, x)
  {
    var at := FieldStands(data, pos, 1, x);
    HoldOne(data, at, x);
    ss := [Range(at, at + |x|)];
    GivesOn(InLabel, data, pos, hi, FrameAt(data, pos).r, ss, x, [], []);
    assert ss + [] == ss && x + [] == x;
  }

  lemma {:induction false} LabelPayload(data: Bytes, pos: nat, e: Element) returns (ss: seq<Range>)
    requires StandsAt(data, pos, EncodeLabel(e))
    ensures Gives(InLabel, data, pos, pos + |EncodeLabel(e)|, ss, Minimise(e.path))
  {
    var a, b, hi := EncodeField(1, Minimise(e.path)), EncodeVarintField(2, e.len), pos + |EncodeLabel(e)|;
    OverlayRestores(e.path);
    PartsStand(data, pos, a, b);
    NumberGives(data, pos + |a|, e.len, hi);
    ss := LabelGives(data, pos, Minimise(e.path), hi);
  }

  /** A value, last in its element. */
  lemma {:induction false} ValueGives(data: Bytes, pos: nat, v: Digest, hi: nat) returns (ss: seq<Range>)
    requires StandsAt(data, pos, EncodeField(2, v)) && hi == pos + |EncodeField(2, v)|
    ensures Gives(InElement, data, pos, hi, ss, v)
  {
    var at := FieldStands(data, pos, 2, v);
    HoldOne(data, at, v);
    ss := [Range(at, at + |v|)];
    GivesNothing(InElement, data, hi);
    GivesOn(InElement, data, pos, hi, FrameAt(data, pos).r, ss, v, [], []);
    assert ss + [] == ss && v + [] == v;
  }

  lemma {:induction false} ElementStands(data: Bytes, pos: nat, e: Element) returns (at: nat, mid: nat)
    requires StandsAt(data, pos, EncodeElement(e))
    ensures StandsAt(data, at, EncodeLabel(e)) && StandsAt(data, mid, EncodeField(2, e.value))
    ensures FrameAt(data, pos) == Framed(Rec(1, 2, pos, at, mid)) && mid == at + |EncodeLabel(e)|
    ensures mid + |EncodeField(2, e.value)| == pos + |EncodeElement(e)|
  {
    EncodingsAreShort(e);
    PartsStand(data, pos, EncodeField(1, EncodeLabel(e)), EncodeField(2, e.value));
    at := FieldStands(data, pos, 1, EncodeLabel(e));
    mid := at + |EncodeLabel(e)|;
  }

  /** A NodeLabel, and what gives z after it. */
  lemma {:induction false} LabelFirst(data: Bytes, pos: nat, at: nat, mid: nat, hi: nat, e: Element, zs: seq<Range>,
          z: Bytes) returns (ss: seq<Range>)
    requires StandsAt(data, at, EncodeLabel(e)) && mid == at + |EncodeLabel(e)| && pos < hi <= |data|
    requires FrameAt(data, pos) == Framed(Rec(1, 2, pos, at, mid)) && Gives(InElement, data, mid, hi, zs, z)
    ensures Gives(InElement, data, pos, hi, ss, Minimise(e.path) + z)
  {
    var xs := LabelPayload(data, at, e);
    GivesOn(InElement, data, pos, hi, Rec(1, 2, pos, at, mid), xs, Minimise(e.path), zs, z);
    ss := xs + zs;
  }

  lemma {:induction false} ElementPayload(data: Bytes, pos: nat, hi: nat, e: Element) returns (ss: seq<Range>, x: Bytes)
    requires StandsAt(data, pos, EncodeElement(e)) && hi == pos + |EncodeElement(e)|
    ensures Gives(InElement, data, pos, hi, ss, x) && x == Minimise(e.path) + e.value
  {
    var at, mid := ElementStands(data, pos, e);
    var zs := ValueGives(data, mid, e.value, hi);
    ss := LabelFirst(data, pos, at, mid, hi, e, zs, e.value);
    x := Minimise(e.path) + e.value;
  }

  // ----- all of them

  function Mine(field: nat, g: nat, x: Bytes): Bytes {
    if field == g then x else []
  }

  lemma {:induction false} FieldPayload(data: Bytes, pos: nat, field: nat, g: nat, e: Element)
          returns (r: Rec, ss: seq<Range>, x: Bytes)
    requires g <= 2 && StandsAt(data, pos, EncodeField(g, EncodeElement(e)))
    ensures pos < |data| && FrameAt(data, pos) == Framed(r) && r.end == pos + |EncodeField(g, EncodeElement(e))|
    ensures Yields(AtTop(field), data, r, ss, x) && x == Mine(field, g, Minimise(e.path) + e.value)
  {
    EncodingsAreShort(e);
    var at := FieldStands(data, pos, g, EncodeElement(e));
    r, ss, x := FrameAt(data, pos).r, [], [];
    if field == g { ss, x := ElementPayload(data, at, r.end, e); }
  }

  lemma {:induction false} MineAdds(field: nat, g: nat, s: seq<Element>, y: Bytes)
    requires s != []
    ensures Mine(field, g, Minimise(s[0].path) + s[0].value) + (Mine(field, g, PayloadOf(s[1..])) + y)
            == Mine(field, g, PayloadOf(s)) + y
  {
    var x, z := Minimise(s[0].path) + s[0].value, PayloadOf(s[1..]);
    if field == g { assert x + (z + y) == (x + z) + y; } else { assert [] + ([] + y) == [] + y; }
  }

  lemma {:induction false} ElementsStand(data: Bytes, pos: nat, g: nat, s: seq<Element>)
    requires s != [] && StandsAt(data, pos, EncodeElements(g, s))
    ensures var a, b := EncodeField(g, EncodeElement(s[0])), EncodeElements(g, s[1..]);
            StandsAt(data, pos, a) && StandsAt(data, pos + |a|, b) && |EncodeElements(g, s)| == |a| + |b|
  {
    PartsStand(data, pos, EncodeField(g, EncodeElement(s[0])), EncodeElements(g, s[1..]));
  }

  /** The first element's field, and the others after it. */
  lemma {:induction false} FirstField(data: Bytes, pos: nat, field: nat, g: nat, s: seq<Element>)
          returns (r: Rec, xs: seq<Range>, x: Bytes)
    requires g <= 2 && s != [] && StandsAt(data, pos, EncodeElements(g, s))
    ensures pos < |data| && FrameAt(data, pos) == Framed(r) && StandsAt(data, r.end, EncodeElements(g, s[1..]))
    ensures r.end + |EncodeElements(g, s[1..])| == pos + |EncodeElements(g, s)|
    ensures Yields(AtTop(field), data, r, xs, x) && x == Mine(field, g, Minimise(s[0].path) + s[0].value)
  {
    ElementsStand(data, pos, g, s);
    r, xs, x := FieldPayload(data, pos, field, g, s[0]);
  }

  /** The elements' fields from pos to end, before what gives y. */
  lemma {:induction false} ElementsPayload(data: Bytes, pos: nat, end: nat, field: nat, g: nat, s: seq<Element>,
          rest: seq<Range>, y: Bytes) returns (ss: seq<Range>, x: Bytes)
    requires g <= 2 && StandsAt(data, pos, EncodeElements(g, s)) && end == pos + |EncodeElements(g, s)|
    requires Gives(AtTop(field), data, end, |data|, rest, y)
    ensures Gives(AtTop(field), data, pos, |data|, ss, x) && x == Mine(field, g, PayloadOf(s)) + y
    decreases |s|
  {
    if s == [] {
      ss, x := rest, y;
      assert Mine(field, g, PayloadOf(s)) == [];
    } else {
      var r, xs, w := FirstField(data, pos, field, g, s);
      var zs, z := ElementsPayload(data, r.end, end, field, g, s[1..], rest, y);
      GivesOn(AtTop(field), data, pos, |data|, r, xs, w, zs, z);
      ss, x := xs + zs, w + z;
      MineAdds(field, g, s, y);
    }
  }

  lemma {:induction false} MineOfBoth(field: nat, x: Bytes, y: Bytes)
    requires field == 1 || field == 2
    ensures Mine(field, 1, x) + (Mine(field, 2, y) + []) == if field == 1 then x else y
  {
    if field == 1 { assert x + ([] + []) == x; } else { assert [] + (y + []) == y; }
  }

  lemma {:induction false} ProofPayload(p: Proof, field: nat) returns (ss: seq<Range>)
    requires field == 1 || field == 2
    ensures var data := EncodeProof(p);
            Gives(AtTop(field), data, 0, |data|, ss, PayloadOf(if field == 1 then p.inserted else p.kept))
  {
    var data, a := EncodeProof(p), EncodeElements(1, p.inserted);
    assert data[0..|data|] == data;
    PartsStand(data, 0, a, EncodeElements(2, p.kept));
    GivesNothing(AtTop(field), data, |data|);
    var ys, y := ElementsPayload(data, |a|, |data|, field, 2, p.kept, [], []);
    var zs, z := ElementsPayload(data, 0, |a|, field, 1, p.inserted, ys, y);
    ss := zs;
    MineOfBoth(field, PayloadOf(p.inserted), PayloadOf(p.kept));
  }

  // ----- the bytes at the offsets

  ghost predicate AtOffsets(data: Bytes, ps: seq<nat>, x: Bytes) {
    |ps| == |x| && forall i | 0 <= i < |ps| :: ps[i] < |data| && data[ps[i]] == x[i]
  }

  lemma {:induction false} OffsetsHold(data: Bytes, ss: seq<Range>, x: Bytes)
    requires Hold(data, ss, x)
    ensures Proper(ss) && AtOffsets(data, Positions(ss), x)
    decreases |ss|
  {
    if ss != [] {
      var s, y := ss[0], SpanBytes(data, ss[1..]);
      OffsetsHold(data, ss[1..], y);
      assert x == data[s.start..s.end] + y;
      assert Positions(ss) == Run(s) + Positions(ss[1..]);
    }
  }

  /** Over an encoded proof PayloadOffset counts exactly the bytes of its labels and values, and finds the
      n-th of them, in the order they were encoded. */
  lemma {:induction false} PayloadIsWhatWasEncoded(p: Proof, field: nat, n: int)
    requires field == 1 || field == 2
    ensures var data, x := EncodeProof(p), PayloadOf(if field == 1 then p.inserted else p.kept);
            var t := AfterLoop(Tally(0, 0, false), AtTop(field), data, 0, |data|, n);
            && t.Some? && t.value.total == |x| && (t.value.found <==> 0 <= n < |x|)
            && (t.value.found ==> t.value.offset < |data| && data[t.value.offset] == x[n])
  {
    var ss := ProofPayload(p, field);
    OffsetsHold(EncodeProof(p), ss, PayloadOf(if field == 1 then p.inserted else p.kept));
    CountLocates(Tally(0, 0, false), ss, n);
  }
}
