/**
 * The bytes PayloadOffset ranges over: exactly the label and value bytes of the field's elements,
 * each once, in order.
 */
module PayloadBytes {
  import opened Basics
  import opened Frames
  import opened Ranges
  import opened Payload

  /** Byte k of the message b is payload: it is inside a label_val or a value. */
  ghost predicate PayloadFrom(level: Level, b: Bytes, p: nat, k: int)
    requires p <= |b|
    decreases Rank(level), 1
  {
    Scan(b, p).Some? && exists i :: 0 <= i < |Scan(b, p).value| && PayloadIn(level, b, Scan(b, p).value[i], k)
  }

  ghost predicate PayloadIn(level: Level, b: Bytes, r: Rec, k: int)
    decreases Rank(level), 0
  {
    && r.wire == 2 && r.body <= k < r.end <= |b|
    && match level
       case InLabel => r.field == 1
       case InElement =>
         r.field == 2 || (r.field == 1 && PayloadFrom(InLabel, b[r.body..r.end], 0, k - r.body))
       case AtTop(f) => r.field == f && PayloadFrom(InElement, b[r.body..r.end], 0, k - r.body)
  }

  /** The message from p on is framed, and so are the messages inside it that hold payload. */
  ghost predicate Nested(level: Level, b: Bytes, p: nat)
    requires p <= |b|
    decreases Rank(level), 1
  {
    Scan(b, p).Some? && forall i | 0 <= i < |Scan(b, p).value| :: NestedIn(level, b, Scan(b, p).value[i])
  }

  ghost predicate NestedIn(level: Level, b: Bytes, r: Rec)
    decreases Rank(level), 0
  {
    && r.body <= r.end <= |b|
    && match level
       case InLabel => true
       case InElement => r.wire == 2 && r.field == 1 ==> Nested(InLabel, b[r.body..r.end], 0)
       case AtTop(f) => r.wire == 2 && r.field == f ==> Nested(InElement, b[r.body..r.end], 0)
  }

  /** The spans are in order between lo and hi and cover exactly the payload bytes of b, which
      stands at base. */
  ghost predicate Maps(ss: seq<Range>, lo: nat, hi: nat, level: Level, b: Bytes, p: nat, base: nat)
    requires p <= |b|
  {
    Ordered(ss, lo, hi) && forall x: nat :: Covered(ss, x) <==> PayloadFrom(level, b, p, x - base)
  }

  ghost predicate MapsRec(ss: seq<Range>, lo: nat, hi: nat, level: Level, b: Bytes, r: Rec, base: nat) {
    Ordered(ss, lo, hi) && forall x: nat :: Covered(ss, x) <==> PayloadIn(level, b, r, x - base)
  }

  lemma {:induction false} CoveredOne(s: Range, x: nat)
    ensures Covered([s], x) <==> s.start <= x < s.end
  {
    assert [s][0] == s;
  }

  lemma {:induction false} CoveredBoth(a: seq<Range>, b: seq<Range>, x: nat)
    ensures Covered(a + b, x) <==> Covered(a, x) || Covered(b, x)
  {
    if Covered(a, x) {
      var i :| 0 <= i < |a| && a[i].start <= x < a[i].end;
      assert (a + b)[i] == a[i];
    }
    if Covered(b, x) {
      var i :| 0 <= i < |b| && b[i].start <= x < b[i].end;
      assert (a + b)[|a| + i] == b[i];
    }
  }

  lemma {:induction false} OrderedBoth(a: seq<Range>, b: seq<Range>, lo: nat, mid: nat, hi: nat)
    requires Ordered(a, lo, mid) && Ordered(b, mid, hi) && lo <= mid <= hi
    ensures Ordered(a + b, lo, hi)
  {
  }

  lemma {:induction false} PayloadStep(level: Level, b: Bytes, p: nat, k: int)
    requires p < |b| && Scan(b, p).Some?
    ensures var r := FrameAt(b, p).r;
            PayloadFrom(level, b, p, k) <==> PayloadIn(level, b, r, k) || PayloadFrom(level, b, r.end, k)
  {
    var r := FrameAt(b, p).r;
    var rs, rest := Scan(b, p).value, Scan(b, r.end).value;
    assert rs == [r] + rest;
    if PayloadIn(level, b, r, k) { assert rs[0] == r; }
    if PayloadFrom(level, b, r.end, k) {
      var i :| 0 <= i < |rest| && PayloadIn(level, b, rest[i], k);
      assert rs[i + 1] == rest[i];
    }
  }

  lemma {:induction false} NestedStep(level: Level, b: Bytes, p: nat)
    requires p < |b| && Nested(level, b, p)
    ensures FrameAt(b, p).Framed?
    ensures NestedIn(level, b, FrameAt(b, p).r) && Nested(level, b, FrameAt(b, p).r.end)
  {
    var r := FrameAt(b, p).r;
    var rs, rest := Scan(b, p).value, Scan(b, r.end).value;
    assert rs == [r] + rest && rs[0] == r;
    forall i | 0 <= i < |rest| ensures NestedIn(level, b, rest[i]) {
      assert rs[i + 1] == rest[i];
    }
  }

  /** A record inside a slice is the same record, moved, in the whole. */
  lemma {:induction false} FrameInside(data: Bytes, lo: nat, hi: nat, p: nat)
    requires lo <= hi <= |data| && p <= hi - lo && FrameAt(data[lo..hi], p).Framed?
    ensures FrameAt(data, lo + p) == Framed(Shift(FrameAt(data[lo..hi], p).r, p, lo + p))
  {
    var b := data[lo..hi];
    assert forall j | 0 <= j < |b| :: b[j] == data[lo + p + (j - p)];
    FrameMoves(b, p, data, lo + p);
  }

  lemma {:induction false} SliceOfSlice(data: Bytes, lo: nat, hi: nat, a: nat, b: nat)
    requires lo <= hi <= |data| && a <= b <= hi - lo
    ensures data[lo..hi][a..b] == data[lo + a..lo + b]
  {
    var x, y := data[lo..hi][a..b], data[lo + a..lo + b];
    forall i | 0 <= i < b - a ensures x[i] == y[i] {
      assert x[i] == data[lo..hi][a + i] == data[lo + a + i];
    }
    assert x == y;
  }

  /** The level of the messages inside a record that are searched for payload, if any are. */
  function Inner(level: Level, r: Rec): Option<Level> {
    match level
    case InLabel => None
    case InElement => if r.wire == 2 && r.field == 1 then Some(InLabel) else None
    case AtTop(f) => if r.wire == 2 && r.field == f then Some(InElement) else None
  }

  lemma {:induction false} PayloadBounds(level: Level, b: Bytes, p: nat, k: int)
    requires p <= |b| && PayloadFrom(level, b, p, k)
    ensures 0 <= k < |b|
  {
    var i :| 0 <= i < |Scan(b, p).value| && PayloadIn(level, b, Scan(b, p).value[i], k);
  }

  /** The spans of a record that are those of the message in its body. */
  lemma {:induction false} InnerMaps(level: Level, b: Bytes, r: Rec, ss: seq<Range>, base: nat)
    requires r.start <= r.body <= r.end <= |b| && Inner(level, r).Some?
    requires var l, q := Inner(level, r).value, base + r.body;
             Maps(ss, q, base + r.end, l, b[r.body..r.end], 0, q)
    ensures MapsRec(ss, base + r.body, base + r.end, level, b, r, base)
  {
    var l, q, c := Inner(level, r).value, base + r.body, b[r.body..r.end];
    forall x: nat ensures Covered(ss, x) <==> PayloadIn(level, b, r, x - base) {
      assert Covered(ss, x) <==> PayloadFrom(l, c, 0, x - q);
      assert x - base - r.body == x - q;
      if PayloadFrom(l, c, 0, x - q) { PayloadBounds(l, c, 0, x - q); }
    }
  }

  lemma {:induction false} PlainMaps(level: Level, b: Bytes, r: Rec, ss: seq<Range>, base: nat)
    requires r.start <= r.body <= r.end <= |b| && Inner(level, r).None?
    requires ss == if r.wire == 2 && ((level.InLabel? && r.field == 1) || (level.InElement? && r.field == 2))
                   then [Range(base + r.body, base + r.end)] else []
    ensures MapsRec(ss, base + r.body, base + r.end, level, b, r, base)
  {
    forall x: nat ensures Covered(ss, x) <==> PayloadIn(level, b, r, x - base) {
      CoveredOne(Range(base + r.body, base + r.end), x);
    }
  }

  /** The spans of one record. */
  lemma {:induction false} PickMaps(level: Level, data: Bytes, lo: nat, hi: nat, r: Rec)
    requires lo <= hi <= |data| && r.start <= r.body <= r.end <= hi - lo && NestedIn(level, data[lo..hi], r)
    ensures var q := Shift(r, r.start, lo + r.start);
            && Pick(level, data, q).Some?
            && MapsRec(Pick(level, data, q).value, lo + r.body, lo + r.end, level, data[lo..hi], r, lo)
    decreases Rank(level), 0
  {
    var b, q := data[lo..hi], Shift(r, r.start, lo + r.start);
    var l := Inner(level, r);
    if l.Some? {
      SliceOfSlice(data, lo, hi, r.body, r.end);
      CollectMaps(l.value, data, q.body, q.end, 0);
      InnerMaps(level, b, r, Collect(l.value, data, q.body, q.end).value, lo);
    } else {
      PlainMaps(level, b, r, Pick(level, data, q).value, lo);
    }
  }

  lemma {:induction false} JoinCovers(level: Level, b: Bytes, p: nat, r: Rec, x: seq<Range>, y: seq<Range>, lo: nat,
          k: nat)
    requires p < |b| && FrameAt(b, p) == Framed(r) && Scan(b, p).Some?
    requires Covered(x, k) <==> PayloadIn(level, b, r, k - lo)
    requires Covered(y, k) <==> PayloadFrom(level, b, r.end, k - lo)
    ensures Covered(x + y, k) <==> PayloadFrom(level, b, p, k - lo)
  {
    CoveredBoth(x, y, k);
    PayloadStep(level, b, p, k - lo);
  }

  lemma {:induction false} JoinMaps(level: Level, b: Bytes, p: nat, r: Rec, x: seq<Range>, y: seq<Range>, lo: nat,
          hi: nat)
    requires p < |b| && FrameAt(b, p) == Framed(r) && Scan(b, p).Some? && lo + |b| == hi
    requires MapsRec(x, lo + r.body, lo + r.end, level, b, r, lo)
    requires Maps(y, lo + r.end, hi, level, b, r.end, lo)
    ensures Maps(x + y, lo + p, hi, level, b, p, lo)
  {
    OrderedBoth(x, y, lo + p, lo + r.end, hi);
    forall k: nat ensures Covered(x + y, k) <==> PayloadFrom(level, b, p, k - lo) {
      JoinCovers(level, b, p, r, x, y, lo, k);
    }
  }

  /** The loop from lo+p on does not err, and its spans are the payload bytes of the slice. */
  ghost predicate Collected(level: Level, data: Bytes, lo: nat, hi: nat, p: nat)
    requires lo <= hi <= |data| && p <= hi - lo
  {
    var ss := Collect(level, data, lo + p, hi);
    ss.Some? && Maps(ss.value, lo + p, hi, level, data[lo..hi], p, lo)
  }

  lemma {:induction false} CollectedAtEnd(level: Level, data: Bytes, lo: nat, hi: nat)
    requires lo <= hi <= |data|
    ensures Collected(level, data, lo, hi, hi - lo)
  {
    assert Collect(level, data, hi, hi) == Some([]);
  }

  lemma {:induction false} CollectsOn(level: Level, data: Bytes, lo: nat, hi: nat, p: nat, r: Rec)
    requires lo <= hi <= |data| && p < hi - lo && FrameAt(data[lo..hi], p) == Framed(r)
    ensures r.start == p <= r.body <= r.end <= hi - lo
    ensures Collect(level, data, lo + p, hi)
            == Both(Pick(level, data, Shift(r, r.start, lo + r.start)), Collect(level, data, lo + r.end, hi))
  {
    FrameInside(data, lo, hi, p);
  }

  lemma {:induction false} CollectedStep(level: Level, data: Bytes, lo: nat, hi: nat, p: nat, r: Rec)
    requires lo <= hi <= |data| && p < hi - lo && FrameAt(data[lo..hi], p) == Framed(r) && Scan(data[lo..hi], p).Some?
    requires var q := Shift(r, r.start, lo + r.start);
             && Pick(level, data, q).Some?
             && MapsRec(Pick(level, data, q).value, lo + r.body, lo + r.end, level, data[lo..hi], r, lo)
    requires Collected(level, data, lo, hi, r.end)
    ensures Collected(level, data, lo, hi, p)
  {
    CollectsOn(level, data, lo, hi, p, r);
    var x, y := Pick(level, data, Shift(r, r.start, lo + r.start)).value, Collect(level, data, lo + r.end, hi).value;
    JoinMaps(level, data[lo..hi], p, r, x, y, lo, hi);
  }

  /** Over a framed message, at any level: the loops do not err. */
  lemma {:induction false} CollectMaps(level: Level, data: Bytes, lo: nat, hi: nat, p: nat)
    requires lo <= hi <= |data| && p <= hi - lo && Nested(level, data[lo..hi], p)
    ensures Collected(level, data, lo, hi, p)
    decreases Rank(level), 1, hi - lo - p
  {
    if p < hi - lo {
      NestedStep(level, data[lo..hi], p);
      var r := FrameAt(data[lo..hi], p).r;
      PickMaps(level, data, lo, hi, r);
      CollectMaps(level, data, lo, hi, r.end);
      CollectedStep(level, data, lo, hi, p, r);
    } else {
      CollectedAtEnd(level, data, lo, hi);
    }
  }

  // ----- the whole proof

  /** The field's payload bytes, in the order PayloadOffset counts them. */
  function FieldPositions(data: Bytes, field: nat): Option<seq<nat>> {
    var ss := Collect(AtTop(field), data, 0, |data|);
    if ss.None? then None else CollectIsProper(AtTop(field), data, 0, |data|); Some(Positions(ss.value))
  }

  /** On a framed proof PayloadOffset does not err; it counts every payload byte of the field once,
      in ascending order, and finds the n-th exactly when there is one. */
  lemma {:induction false} PayloadOffsetLocates(data: Bytes, field: nat, n: int)
    requires Nested(AtTop(field), data, 0)
    ensures FieldPositions(data, field).Some?
    ensures var t := AfterLoop(Tally(0, 0, false), AtTop(field), data, 0, |data|, n);
            var ps := FieldPositions(data, field).value;
            && Ascending(ps, 0, |data|)
            && (forall x: nat :: x in ps <==> PayloadFrom(AtTop(field), data, 0, x))
            && t == Some(if 0 <= n < |ps| then Tally(ps[n], |ps|, true) else Tally(0, |ps|, false))
  {
    assert data[0..|data|] == data;
    CollectMaps(AtTop(field), data, 0, |data|, 0);
    var ss := Collect(AtTop(field), data, 0, |data|).value;
    PositionsAscend(ss, 0, |data|);
    CountLocates(Tally(0, 0, false), ss, n);
    forall x: nat ensures x in Positions(ss) <==> PayloadFrom(AtTop(field), data, 0, x) {
      PositionsCover(ss, x);
      assert Covered(ss, x) <==> PayloadFrom(AtTop(field), data, 0, x - 0);
    }
  }
}
