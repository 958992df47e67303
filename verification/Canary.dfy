/**
 * Corrupting one payload byte (internal/akdtree/ranges.go:182-198): the proof still decodes, to the
 * same elements but for one byte of one of them.
 */
module Canary {
  import opened Basics
  import opened Labels
  import opened AkdTree
  import opened Varint
  import opened Frames
  import opened Payload
  import opened PayloadBytes
  import opened Decoding

  // ----- records stand end to end

  lemma {:induction false} RecordsAbut(b: Bytes, pos: nat)
    requires pos <= |b| && Scan(b, pos).Some?
    ensures var rs := Scan(b, pos).value;
            && (forall i | 0 <= i < |rs| :: pos <= rs[i].start < rs[i].body <= rs[i].end <= |b|)
            && (forall i, j | 0 <= i < j < |rs| :: rs[i].end <= rs[j].start)
    decreases |b| - pos
  {
    if pos < |b| { RecordsAbut(b, FrameAt(b, pos).r.end); }
  }

  /** Byte k is in no record's header. */
  ghost predicate OutsideHeaders(rs: seq<Rec>, k: nat) {
    forall i | 0 <= i < |rs| :: !(rs[i].start <= k < rs[i].body)
  }

  lemma {:induction false} BodyIsOutside(b: Bytes, m: nat, k: nat)
    requires Scan(b, 0).Some? && m < |Scan(b, 0).value|
    requires var r := Scan(b, 0).value[m]; r.body <= k < r.end
    ensures OutsideHeaders(Scan(b, 0).value, k)
  {
    RecordsAbut(b, 0);
  }

  // ----- a byte of a body changes

  /** A change outside the headers leaves every record framed as it was. */
  lemma {:induction false} ScanSurvives(b: Bytes, pos: nat, k: nat, v: byte)
    requires pos <= |b| && k < |b| && Scan(b, pos).Some? && OutsideHeaders(Scan(b, pos).value, k)
    ensures Scan(b[k := v], pos) == Scan(b, pos)
    decreases |b| - pos
  {
    if pos < |b| {
      FrameSurvives(b, pos, k, v);
      var r := FrameAt(b, pos).r;
      var rs, rest := Scan(b, pos).value, Scan(b, r.end).value;
      assert rs == [r] + rest;
      forall i | 0 <= i < |rest| ensures !(rest[i].start <= k < rest[i].body) { assert rs[i + 1] == rest[i]; }
      ScanSurvives(b, r.end, k, v);
    }
  }

  lemma {:induction false} FrameSurvives(b: Bytes, pos: nat, k: nat, v: byte)
    requires pos < |b| && k < |b| && Scan(b, pos).Some? && OutsideHeaders(Scan(b, pos).value, k)
    ensures FrameAt(b, pos).Framed? && FrameAt(b[k := v], pos) == FrameAt(b, pos)
    ensures !(pos <= k < FrameAt(b, pos).r.body)
  {
    var r := FrameAt(b, pos).r;
    assert Scan(b, pos).value[0] == r;
    assert forall j | pos <= j < r.body :: b[j] == b[k := v][pos + (j - pos)];
    FrameMoves(b, pos, b[k := v], pos);
  }

  /** Such a change does not alter label_len either. */
  lemma {:induction false} LabelLenSurvives(b: Bytes, pos: nat, k: nat, v: byte, out: nat)
    requires pos <= |b| && k < |b| && Scan(b, pos).Some? && OutsideHeaders(Scan(b, pos).value, k)
    ensures LabelLenFrom(b[k := v], pos, out) == LabelLenFrom(b, pos, out)
    decreases |b| - pos
  {
    if pos < |b| {
      FrameSurvives(b, pos, k, v);
      LabelLenStep(b, pos, out);
      LabelLenStep(b[k := v], pos, out);
      var r := FrameAt(b, pos).r;
      LenAfterSurvives(b, pos, k, v, out);
      var rs, rest := Scan(b, pos).value, Scan(b, r.end).value;
      assert rs == [r] + rest;
      forall i | 0 <= i < |rest| ensures !(rest[i].start <= k < rest[i].body) { assert rs[i + 1] == rest[i]; }
      LabelLenSurvives(b, r.end, k, v, LenAfter(b, r, out));
    }
  }

  lemma {:induction false} LenAfterSurvives(b: Bytes, pos: nat, k: nat, v: byte, out: nat)
    requires pos < |b| && k < |b| && FrameAt(b, pos).Framed? && !(pos <= k < FrameAt(b, pos).r.body)
    ensures LenAfter(b[k := v], FrameAt(b, pos).r, out) == LenAfter(b, FrameAt(b, pos).r, out)
  {
    var r, c := FrameAt(b, pos).r, b[k := v];
    if r.wire == 0 {
      var n := Read(b, pos).n;
      assert forall j | pos <= j < r.body :: b[j] == c[pos + (j - pos)];
      ReadSame(b, pos, c, pos, r.body - pos);
      assert forall j | pos + n <= j < r.body :: b[j] == c[pos + n + (j - (pos + n))];
      ReadSame(b, pos + n, c, pos + n, r.body - (pos + n));
    }
  }

  // ----- chunks and records

  /** How many length-delimited records come before the m-th. */
  function ChunkIndex(rs: seq<Rec>, m: nat): nat
    requires m <= |rs|
  {
    if m == 0 then 0 else (if rs[0].wire == 2 then 1 else 0) + ChunkIndex(rs[1..], m - 1)
  }

  ghost predicate InBounds(b: Bytes, rs: seq<Rec>) {
    forall i | 0 <= i < |rs| :: rs[i].body <= rs[i].end <= |b|
  }

  lemma {:induction false} ChunkAt(b: Bytes, rs: seq<Rec>, m: nat)
    requires InBounds(b, rs) && m < |rs| && rs[m].wire == 2
    ensures var j := ChunkIndex(rs, m);
            j < |Chunks(b, rs)| && Chunks(b, rs)[j] == Chunk(rs[m].field, b[rs[m].body..rs[m].end])
  {
    if m > 0 { ChunkAt(b, rs[1..], m - 1); }
  }

  /** Changing byte k, which lies in the body of record m alone, changes that chunk alone. */
  lemma {:induction false} ChunkChanges(b: Bytes, rs: seq<Rec>, m: nat, k: nat, v: byte)
    requires InBounds(b, rs) && m < |rs| && rs[m].wire == 2 && rs[m].body <= k < rs[m].end
    requires forall i | 0 <= i < |rs| && i != m :: !(rs[i].body <= k < rs[i].end)
    ensures var j := ChunkIndex(rs, m);
            && j < |Chunks(b, rs)|
            && Chunks(b[k := v], rs)
               == Chunks(b, rs)[j := Chunk(rs[m].field, b[rs[m].body..rs[m].end][k - rs[m].body := v])]
  {
    var c := b[k := v];
    if m == 0 {
      assert c[rs[0].body..rs[0].end] == b[rs[0].body..rs[0].end][k - rs[0].body := v];
      ChunksUnchanged(b, rs[1..], k, v);
    } else {
      ChunkAt(b, rs, m);
      assert c[rs[0].body..rs[0].end] == b[rs[0].body..rs[0].end];
      ChunkChanges(b, rs[1..], m - 1, k, v);
    }
  }

  lemma {:induction false} ChunksUnchanged(b: Bytes, rs: seq<Rec>, k: nat, v: byte)
    requires InBounds(b, rs) && k < |b| && forall i | 0 <= i < |rs| :: !(rs[i].body <= k < rs[i].end)
    ensures Chunks(b[k := v], rs) == Chunks(b, rs)
  {
    if rs != [] {
      assert b[k := v][rs[0].body..rs[0].end] == b[rs[0].body..rs[0].end];
      ChunksUnchanged(b, rs[1..], k, v);
    }
  }

  /** A byte of one body changes: walk sees the same fields, one body different in that byte. */
  lemma {:induction false} WalkSurvives(b: Bytes, m: nat, k: nat, v: byte) returns (j: nat)
    requires Scan(b, 0).Some? && m < |Scan(b, 0).value| && k < |b|
    requires var r := Scan(b, 0).value[m]; r.wire == 2 && r.body <= k < r.end
    ensures Scan(b[k := v], 0) == Scan(b, 0)
    ensures OutsideHeaders(Scan(b, 0).value, k)
    ensures var r := Scan(b, 0).value[m];
            && r.end <= |b| && Walk(b).Some? && j < |Walk(b).value|
            && Walk(b).value[j] == Chunk(r.field, b[r.body..r.end])
            && Walk(b[k := v]) == Some(Walk(b).value[j := Chunk(r.field, b[r.body..r.end][k - r.body := v])])
  {
    var rs := Scan(b, 0).value;
    BodyIsOutside(b, m, k);
    RecordsAbut(b, 0);
    ScanSurvives(b, 0, k, v);
    WalkIsScan(b, 0);
    WalkIsScan(b[k := v], 0);
    ChunkAt(b, rs, m);
    ChunkChanges(b, rs, m, k, v);
    j := ChunkIndex(rs, m);
  }

  // ----- one byte of an element

  /** A byte of an element: of its label or of its value. */
  datatype Site = InPath(k: nat) | InValue(k: nat)

  function Patch(p: Parsed, s: Site, v: byte): Parsed
    requires s.k < 32
  {
    match s
    case InPath(k) => p.(path := p.path[k := v])
    case InValue(k) => p.(value := p.value[k := v])
  }

  function Put(e: Element, s: Site, v: byte): Element
    requires s.k < 32
  {
    match s
    case InPath(k) => e.(path := e.path[k := v])
    case InValue(k) => e.(value := e.value[k := v])
  }

  function ByteAt(e: Element, s: Site): byte
    requires s.k < 32
  {
    match s
    case InPath(k) => e.path[k]
    case InValue(k) => e.value[k]
  }

  // A byte already altered stays so, or is written over.

  lemma {:induction false} LabelNear(cs: seq<Chunk>, path: Label, k: nat, v: byte)
    requires k < 32 && LabelChunks(cs, path).Some?
    ensures var q, c := LabelChunks(cs, path), LabelChunks(cs, path[k := v]);
            c == q || c == Some(q.value[k := v])
  {
    if cs != [] {
      if cs[0].field == 1 {
        var lb := cs[0].body;
        assert k < |lb| ==> Overlay(path[k := v], lb) == Overlay(path, lb);
        assert k >= |lb| ==> Overlay(path[k := v], lb) == Overlay(path, lb)[k := v];
        LabelNear(cs[1..], Overlay(path, lb), k, v);
      } else {
        LabelNear(cs[1..], path, k, v);
      }
    }
  }

  lemma {:induction false} ElementNear(cs: seq<Chunk>, p: Parsed, s: Site, v: byte)
    requires s.k < 32 && ElementChunks(cs, p).Some?
    ensures var q, c := ElementChunks(cs, p), ElementChunks(cs, Patch(p, s, v));
            c == q || c == Some(Patch(q.value, s, v))
  {
    if cs != [] {
      var p1 := ParseField(cs[0], p).value;
      if cs[0].field == 1 && s.InPath? {
        LabelNear(Walk(cs[0].body).value, p.path, s.k, v);
      }
      var c1 := ParseField(cs[0], Patch(p, s, v));
      assert c1 == Some(p1) || c1 == Some(Patch(p1, s, v));
      ElementNear(cs[1..], p1, s, v);
    }
  }

  // ----- one byte of a field

  lemma {:induction false} LabelChange(cs: seq<Chunk>, i: nat, k: nat, v: byte, path: Label)
    requires LabelChunks(cs, path).Some? && i < |cs| && cs[i].field == 1 && k < |cs[i].body|
    ensures k < 32
    ensures var q, c := LabelChunks(cs, path), LabelChunks(cs[i := Chunk(1, cs[i].body[k := v])], path);
            c == q || c == Some(q.value[k := v])
  {
    var ds := cs[i := Chunk(1, cs[i].body[k := v])];
    if i == 0 {
      var lb := cs[0].body;
      assert Overlay(path, lb[k := v]) == Overlay(path, lb)[k := v];
      LabelNear(cs[1..], Overlay(path, lb), k, v);
    } else {
      assert ds[1..] == cs[1..][i - 1 := Chunk(1, cs[i].body[k := v])];
      LabelChange(cs[1..], i - 1, k, v, if cs[0].field == 1 then Overlay(path, cs[0].body) else path);
    }
  }

  /** body is the field's body with one payload byte changed from w to v, and s is the byte of the element
      that is read from there. */
  ghost predicate Corrupts(c: Chunk, body: Bytes, s: Site, w: byte, v: byte) {
    if s.InValue? then c.field == 2 && s.k < |c.body| && c.body[s.k] == w && body == c.body[s.k := v]
    else
      && c.field == 1 && Walk(c.body).Some?
      && exists j :: 0 <= j < |Walk(c.body).value| && CorruptsLabel(c.body, body, j, s.k, w, v)
  }

  /** The j-th field of the NodeLabel is a label_val, and its byte k, once w, becomes v. */
  ghost predicate CorruptsLabel(was: Bytes, body: Bytes, j: nat, k: nat, w: byte, v: byte)
    requires Walk(was).Some? && j < |Walk(was).value|
  {
    var lb := Walk(was).value[j];
    && lb.field == 1 && k < |lb.body| && lb.body[k] == w
    && Walk(body) == Some(Walk(was).value[j := Chunk(1, lb.body[k := v])])
    && forall out: nat :: LabelLenFrom(body, 0, out) == LabelLenFrom(was, 0, out)
  }

  lemma {:induction false} FieldChange(c: Chunk, body: Bytes, s: Site, w: byte, v: byte, p: Parsed)
    requires Corrupts(c, body, s, w, v) && ParseField(c, p).Some?
    ensures s.k < 32
    ensures var q, d := ParseField(c, p), ParseField(Chunk(c.field, body), p);
            d == q || d == Some(Patch(q.value, s, v))
  {
    if s.InPath? {
      var inner := Walk(c.body).value;
      var j :| 0 <= j < |inner| && CorruptsLabel(c.body, body, j, s.k, w, v);
      LabelChange(inner, j, s.k, v, p.path);
    }
  }

  lemma {:induction false} ElementChange(cs: seq<Chunk>, i: nat, body: Bytes, s: Site, w: byte, v: byte, p: Parsed)
    requires ElementChunks(cs, p).Some? && i < |cs| && Corrupts(cs[i], body, s, w, v)
    ensures s.k < 32
    ensures var q, d := ElementChunks(cs, p), ElementChunks(cs[i := Chunk(cs[i].field, body)], p);
            d == q || d == Some(Patch(q.value, s, v))
  {
    var ds := cs[i := Chunk(cs[i].field, body)];
    if i == 0 {
      FieldChange(cs[0], body, s, w, v, p);
      ElementNear(cs[1..], ParseField(cs[0], p).value, s, v);
    } else {
      assert ds[1..] == cs[1..][i - 1 := Chunk(cs[i].field, body)];
      ElementChange(cs[1..], i - 1, body, s, w, v, ParseField(cs[0], p).value);
    }
  }

  lemma {:induction false} LenChange(cs: seq<Chunk>, i: nat, body: Bytes, s: Site, w: byte, v: byte, out: nat)
    requires i < |cs| && Corrupts(cs[i], body, s, w, v)
    ensures LenChunks(cs[i := Chunk(cs[i].field, body)], out) == LenChunks(cs, out)
  {
    var ds := cs[i := Chunk(cs[i].field, body)];
    if i == 0 {
      assert ds[1..] == cs[1..];
    } else {
      assert ds[1..] == cs[1..][i - 1 := Chunk(cs[i].field, body)];
      if cs[0].field != 1 {
        LenChange(cs[1..], i - 1, body, s, w, v, out);
      } else {
        var n := LabelLenFrom(cs[0].body, 0, out);
        if n.Some? { LenChange(cs[1..], i - 1, body, s, w, v, n.value); }
      }
    }
  }

  // ----- exactly one byte, where each part stands once

  lemma {:induction false} NoneLeft(cs: seq<Chunk>, i: nat, field: nat)
    requires i < |cs| && cs[i].field == field && Count(cs, field) == 1
    ensures i == 0 ==> Count(cs[1..], field) == 0
    ensures i > 0 ==> cs[0].field != field && Count(cs[1..], field) == 1
  {
    if i > 0 { Counted(cs[1..], i - 1); }
  }

  lemma {:induction false} Counted(cs: seq<Chunk>, i: nat)
    requires i < |cs|
    ensures Count(cs, cs[i].field) > 0
  {
    if i > 0 { Counted(cs[1..], i - 1); }
  }

  lemma {:induction false} CountKept(cs: seq<Chunk>, i: nat, body: Bytes, field: nat)
    requires i < |cs|
    ensures Count(cs[i := Chunk(cs[i].field, body)], field) == Count(cs, field)
  {
    if i > 0 {
      assert cs[i := Chunk(cs[i].field, body)][1..] == cs[1..][i - 1 := Chunk(cs[i].field, body)];
      CountKept(cs[1..], i - 1, body, field);
    }
  }

  lemma {:induction false} PathKept(cs: seq<Chunk>, path: Label)
    requires Count(cs, 1) == 0
    ensures LabelChunks(cs, path) == Some(path)
  {
    if cs != [] { PathKept(cs[1..], path); }
  }

  lemma {:induction false} OnlyLabel(cs: seq<Chunk>, i: nat, path: Label)
    requires i < |cs| && cs[i].field == 1 && Count(cs, 1) == 1 && LabelChunks(cs, path).Some?
    ensures |cs[i].body| <= 32 && LabelChunks(cs, path).value == Overlay(path, cs[i].body)
  {
    NoneLeft(cs, i, 1);
    if i == 0 { PathKept(cs[1..], Overlay(path, cs[0].body)); } else { OnlyLabel(cs[1..], i - 1, path); }
  }

  lemma {:induction false} ElementKept(cs: seq<Chunk>, p: Parsed)
    requires ElementChunks(cs, p).Some?
    ensures Count(cs, 1) == 0 ==> ElementChunks(cs, p).value.path == p.path
    ensures Count(cs, 2) == 0 ==> ElementChunks(cs, p).value.value == p.value
  {
    if cs != [] { ElementKept(cs[1..], ParseField(cs[0], p).value); }
  }

  lemma {:induction false} OnlyValue(cs: seq<Chunk>, i: nat, p: Parsed)
    requires i < |cs| && cs[i].field == 2 && Count(cs, 2) == 1 && ElementChunks(cs, p).Some?
    ensures ElementChunks(cs, p).value.value == cs[i].body
  {
    NoneLeft(cs, i, 2);
    var p1 := ParseField(cs[0], p).value;
    if i == 0 { ElementKept(cs[1..], p1); } else { OnlyValue(cs[1..], i - 1, p1); }
  }

  lemma {:induction false} OnlyPath(cs: seq<Chunk>, i: nat, j: nat, p: Parsed)
    requires i < |cs| && cs[i].field == 1 && Count(cs, 1) == 1 && ElementChunks(cs, p).Some?
    requires Walk(cs[i].body).Some? && j < |Walk(cs[i].body).value| && Walk(cs[i].body).value[j].field == 1
    requires Count(Walk(cs[i].body).value, 1) == 1
    ensures Prefix(Walk(cs[i].body).value[j].body, ElementChunks(cs, p).value.path)
  {
    NoneLeft(cs, i, 1);
    var p1 := ParseField(cs[0], p).value;
    if i == 0 {
      OnlyLabel(Walk(cs[0].body).value, j, p.path);
      ElementKept(cs[1..], p1);
    } else {
      OnlyPath(cs[1..], i - 1, j, p1);
    }
  }

  /** The element holds one NodeLabel with one label_val, and one value. */
  ghost predicate Plain(body: Bytes) {
    && Walk(body).Some? && Count(Walk(body).value, 1) == 1 && Count(Walk(body).value, 2) == 1
    && forall i | 0 <= i < |Walk(body).value| && Walk(body).value[i].field == 1 ::
         Walk(Walk(body).value[i].body).Some? && Count(Walk(Walk(body).value[i].body).value, 1) == 1
  }

  // ----- one element

  /** The record a payload byte is in, as walk hands it over, before and after. */
  lemma {:induction false} PayloadReplaced(level: Level, b: Bytes, x: nat, v: byte) returns (r: Rec, i: nat)
    requires x < |b| && PayloadFrom(level, b, 0, x)
    ensures PayloadIn(level, b, r, x) && r.body <= x < r.end <= |b|
    ensures Walk(b).Some? && i < |Walk(b).value| && Walk(b).value[i] == Chunk(r.field, b[r.body..r.end])
    ensures Walk(b[x := v]) == Some(Walk(b).value[i := Chunk(r.field, b[r.body..r.end][x - r.body := v])])
    ensures Scan(b, 0).Some? && OutsideHeaders(Scan(b, 0).value, x)
  {
    var rs := Scan(b, 0).value;
    var m :| 0 <= m < |rs| && PayloadIn(level, b, rs[m], x);
    i := WalkSurvives(b, m, x, v);
    r := rs[m];
  }

  lemma {:induction false} LabelCorrupts(b: Bytes, x: nat, v: byte) returns (j: nat, k: nat)
    requires x < |b| && PayloadFrom(InLabel, b, 0, x)
    ensures Walk(b).Some? && j < |Walk(b).value| && CorruptsLabel(b, b[x := v], j, k, b[x], v)
  {
    var r;
    r, j := PayloadReplaced(InLabel, b, x, v);
    k := x - r.body;
    forall out: nat ensures LabelLenFrom(b[x := v], 0, out) == LabelLenFrom(b, 0, out) {
      LabelLenSurvives(b, 0, x, v, out);
    }
  }

  lemma {:induction false} RecordCorrupts(b: Bytes, r: Rec, x: nat, v: byte) returns (s: Site)
    requires x < |b| && PayloadIn(InElement, b, r, x)
    ensures r.body <= x < r.end <= |b|
    ensures var c := b[r.body..r.end]; Corrupts(Chunk(r.field, c), c[x - r.body := v], s, b[x], v)
  {
    var k := x - r.body;
    s := InValue(k);
    assert b[r.body..r.end][k] == b[x];
    if r.field == 1 {
      var j, k1 := LabelCorrupts(b[r.body..r.end], k, v);
      s := InPath(k1);
    }
  }

  lemma {:induction false} FieldCorrupts(b: Bytes, x: nat, v: byte) returns (i: nat, body: Bytes, s: Site)
    requires x < |b| && PayloadFrom(InElement, b, 0, x)
    ensures Walk(b).Some? && i < |Walk(b).value|
    ensures Walk(b[x := v]) == Some(Walk(b).value[i := Chunk(Walk(b).value[i].field, body)])
    ensures Corrupts(Walk(b).value[i], body, s, b[x], v)
  {
    var r;
    r, i := PayloadReplaced(InElement, b, x, v);
    s := RecordCorrupts(b, r, x, v);
    body := b[r.body..r.end][x - r.body := v];
  }

  lemma {:induction false} ElementSurvives(b: Bytes, x: nat, v: byte) returns (s: Site)
    requires x < |b| && PayloadFrom(InElement, b, 0, x) && DecodeElement(b).Some?
    ensures s.k < 32
    ensures var e, d := DecodeElement(b).value, DecodeElement(b[x := v]);
            && (d == Some(e) || d == Some(Put(e, s, v)))
            && (Plain(b) ==> d == Some(Put(e, s, v)) && ByteAt(e, s) == b[x])
  {
    var i, body;
    i, body, s := FieldCorrupts(b, x, v);
    var cs, p0 := Walk(b).value, Parsed(Repeat(0, 32), Repeat(0, 32), false, false);
    ElementChange(cs, i, body, s, b[x], v, p0);
    LenChange(cs, i, body, s, b[x], v, 0);
    if Plain(b) { ElementExact(cs, i, body, s, b[x], v, p0); }
  }

  lemma {:induction false} ElementExact(cs: seq<Chunk>, i: nat, body: Bytes, s: Site, w: byte, v: byte, p: Parsed)
    requires ElementChunks(cs, p).Some? && i < |cs| && Corrupts(cs[i], body, s, w, v)
    requires Count(cs, 1) == 1 && Count(cs, 2) == 1
    requires cs[i].field == 1 ==> Walk(cs[i].body).Some? && Count(Walk(cs[i].body).value, 1) == 1
    ensures s.k < 32
    ensures var q, d := ElementChunks(cs, p).value, ElementChunks(cs[i := Chunk(cs[i].field, body)], p);
            && d == Some(Patch(q, s, v))
            && (if s.InPath? then q.path[s.k] else q.value[s.k]) == w
  {
    var ds := cs[i := Chunk(cs[i].field, body)];
    ElementChange(cs, i, body, s, w, v, p);
    CountKept(cs, i, body, 1);
    CountKept(cs, i, body, 2);
    if s.InValue? {
      OnlyValue(cs, i, p);
      OnlyValue(ds, i, p);
    } else {
      var inner := Walk(cs[i].body).value;
      var j :| 0 <= j < |inner| && CorruptsLabel(cs[i].body, body, j, s.k, w, v);
      CountKept(inner, j, inner[j].body[s.k := v], 1);
      OnlyPath(cs, i, j, p);
      OnlyPath(ds, i, j, p);
      PrefixAt(inner[j].body, ElementChunks(cs, p).value.path, s.k);
      PrefixAt(inner[j].body[s.k := v], ElementChunks(ds, p).value.path, s.k);
    }
    var q := ElementChunks(cs, p).value;
    assert s.InPath? && q.path[s.k] == v ==> q.path[s.k := v] == q.path;
    assert s.InValue? && q.value[s.k] == v ==> q.value[s.k := v] == q.value;
  }

  lemma {:induction false} PrefixAt(a: Bytes, b: Bytes, k: nat)
    requires Prefix(a, b) && k < |a|
    ensures a[k] == b[k]
  {
    assert b[..|a|][k] == b[k];
  }

  // ----- the whole proof

  function Listed(p: Proof, field: nat): seq<Element> {
    if field == 1 then p.inserted else p.kept
  }

  /** P with element i of one list replaced. */
  function Replaced(p: Proof, field: nat, i: nat, e: Element): Proof
    requires i < |Listed(p, field)|
  {
    if field == 1 then p.(inserted := p.inserted[i := e]) else p.(kept := p.kept[i := e])
  }

  lemma {:induction false} ElementReplaced(cs: seq<Chunk>, i: nat, body: Bytes)
    requires i < |cs| && cs[i].field in {1, 2} && DecodeChunks(cs).Some? && DecodeElement(body).Some?
    ensures var f, n := cs[i].field, Count(cs[..i], cs[i].field);
            && n < |Listed(DecodeChunks(cs).value, f)|
            && DecodeElement(cs[i].body) == Some(Listed(DecodeChunks(cs).value, f)[n])
            && DecodeChunks(cs[i := Chunk(f, body)])
               == Some(Replaced(DecodeChunks(cs).value, f, n, DecodeElement(body).value))
  {
    var ds := cs[i := Chunk(cs[i].field, body)];
    if i == 0 {
      assert ds[1..] == cs[1..];
      var es := Listed(DecodeChunks(cs[1..]).value, cs[0].field);
      var e, d := DecodeElement(cs[0].body).value, DecodeElement(body).value;
      assert ([e] + es)[0 := d] == [d] + es;
    } else {
      assert ds[1..] == cs[1..][i - 1 := Chunk(cs[i].field, body)];
      assert cs[..i][0] == cs[0] && cs[..i][1..] == cs[1..][..i - 1];
      ElementReplaced(cs[1..], i - 1, body);
      var f, c, d := cs[i].field, DecodeElement(cs[0].body), DecodeElement(body).value;
      PlaceReplaced(cs[0].field, c, DecodeChunks(cs[1..]), f, Count(cs[1..][..i - 1], f), d);
    }
  }

  lemma {:induction false} PlaceReplaced(g: nat, c: Option<Element>, rest: Option<Proof>, f: nat, n: nat, d: Element)
    requires Place(g, c, rest).Some? && f in {1, 2} && n < |Listed(rest.value, f)|
    ensures var n1, p := if g == f then n + 1 else n, Place(g, c, rest);
            && n1 < |Listed(p.value, f)| && Listed(p.value, f)[n1] == Listed(rest.value, f)[n]
            && Place(g, c, Some(Replaced(rest.value, f, n, d))) == Some(Replaced(p.value, f, n1, d))
  {
    var es := Listed(rest.value, f);
    assert ([c.value] + es)[n + 1 := d] == [c.value] + es[n := d];
  }

  /** Every element of the field in the proof is plain. */
  ghost predicate AllPlain(data: Bytes, field: nat) {
    Walk(data).Some? && forall i | 0 <= i < |Walk(data).value| && Walk(data).value[i].field == field ::
                          Plain(Walk(data).value[i].body)
  }

  /** With byte x set to v the proof decodes to the same elements, or to the same but for byte s of
      element i; and to the latter, that byte having been byte x, where elements are plain. */
  ghost predicate AlteredAt(data: Bytes, field: nat, x: nat, v: byte, i: nat, s: Site)
    requires Decode(data).Some? && x < |data| && s.k < 32 && i < |Listed(Decode(data).value, field)|
  {
    var p, d := Decode(data).value, Decode(data[x := v]);
    var e := Listed(p, field)[i];
    && (d == Some(p) || d == Some(Replaced(p, field, i, Put(e, s, v))))
    && (AllPlain(data, field) ==> ByteAt(e, s) == data[x] && d == Some(Replaced(p, field, i, Put(e, s, v))))
  }

  /** Altering a payload byte of an accepted proof moves no record and leaves every element in its
      place; the proof still decodes, with at most that one byte of one element different, and with
      exactly that byte different where elements carry their parts once. */
  lemma {:induction false} PayloadIsInert(data: Bytes, field: nat, x: nat, v: byte) returns (i: nat, s: Site)
    requires field in {1, 2} && Decode(data).Some? && x < |data| && PayloadFrom(AtTop(field), data, 0, x)
    ensures Scan(data[x := v], 0) == Scan(data, 0)
    ensures s.k < 32 && i < |Listed(Decode(data).value, field)|
    ensures AlteredAt(data, field, x, v, i, s)
  {
    var j, k := TopChunk(data, field, x, v);
    var cs := Walk(data).value;
    var b := cs[j].body;
    EachDecodes(cs, j);
    s := ElementSurvives(b, k, v);
    i := Count(cs[..j], field);
    ElementReplaced(cs, j, b[k := v]);
    ReplacedSame(Decode(data).value, field, i);
  }

  /** The element a payload byte belongs to, and where in it that byte is. */
  lemma {:induction false} TopChunk(data: Bytes, field: nat, x: nat, v: byte) returns (j: nat, k: nat)
    requires x < |data| && PayloadFrom(AtTop(field), data, 0, x)
    ensures Scan(data[x := v], 0) == Scan(data, 0) && Walk(data).Some? && j < |Walk(data).value|
    ensures var c := Walk(data).value[j];
            && c.field == field && k < |c.body| && c.body[k] == data[x] && PayloadFrom(InElement, c.body, 0, k)
            && Walk(data[x := v]) == Some(Walk(data).value[j := Chunk(field, c.body[k := v])])
  {
    var rs := Scan(data, 0).value;
    var m :| 0 <= m < |rs| && PayloadIn(AtTop(field), data, rs[m], x);
    j := WalkSurvives(data, m, x, v);
    k := x - rs[m].body;
  }

  lemma {:induction false} ReplacedSame(p: Proof, field: nat, i: nat)
    requires i < |Listed(p, field)|
    ensures Replaced(p, field, i, Listed(p, field)[i]) == p
  {
    assert p.inserted[..] == p.inserted;
  }

  lemma {:induction false} EachDecodes(cs: seq<Chunk>, j: nat)
    requires j < |cs| && DecodeChunks(cs).Some?
    ensures DecodeElement(cs[j].body).Some?
  {
    if j > 0 { EachDecodes(cs[1..], j - 1); }
  }

  // ----- PayloadOffset on an accepted proof

  lemma {:induction false} EachParses(cs: seq<Chunk>, j: nat, p: Parsed)
    requires j < |cs| && ElementChunks(cs, p).Some? && cs[j].field == 1
    ensures Walk(cs[j].body).Some?
  {
    if j > 0 { EachParses(cs[1..], j - 1, ParseField(cs[0], p).value); }
  }

  lemma {:induction false} ElementIsNested(b: Bytes)
    requires DecodeElement(b).Some?
    ensures Nested(InElement, b, 0)
  {
    WalkIsScan(b, 0);
    RecordsAbut(b, 0);
    var rs := Scan(b, 0).value;
    forall i | 0 <= i < |rs| ensures NestedIn(InElement, b, rs[i]) {
      var r := rs[i];
      if r.wire == 2 && r.field == 1 {
        ChunkAt(b, rs, i);
        EachParses(Walk(b).value, ChunkIndex(rs, i), Parsed(Repeat(0, 32), Repeat(0, 32), false, false));
        LabelIsNested(b[r.body..r.end]);
      }
    }
  }

  lemma {:induction false} LabelIsNested(b: Bytes)
    requires Walk(b).Some?
    ensures Nested(InLabel, b, 0)
  {
    WalkIsScan(b, 0);
  }

  /** What Decode accepts is framed at every level that holds payload. */
  lemma {:induction false} DecodedIsNested(data: Bytes, field: nat)
    requires Decode(data).Some?
    ensures Nested(AtTop(field), data, 0)
  {
    WalkIsScan(data, 0);
    RecordsAbut(data, 0);
    var rs := Scan(data, 0).value;
    forall i | 0 <= i < |rs| ensures NestedIn(AtTop(field), data, rs[i]) {
      var r := rs[i];
      if r.wire == 2 && r.field == field {
        ChunkAt(data, rs, i);
        EachDecodes(Walk(data).value, ChunkIndex(rs, i));
        ElementIsNested(data[r.body..r.end]);
      }
    }
  }

  /** What the canary counts on: on a proof Decode accepts, PayloadOffset finds the n-th payload
      byte exactly when there is one, and whatever that byte becomes the proof still decodes, to
      elements that differ in at most that byte, and in exactly it where elements are plain. */
  lemma {:induction false} CorruptedProofDecodes(data: Bytes, field: nat, n: int, v: byte) returns (i: nat, s: Site)
    requires field in {1, 2} && Decode(data).Some?
    ensures var t := AfterLoop(Tally(0, 0, false), AtTop(field), data, 0, |data|, n);
            && t.Some? && (t.value.found <==> 0 <= n < t.value.total)
            && (t.value.found ==>
                  && t.value.offset < |data| && s.k < 32 && i < |Listed(Decode(data).value, field)|
                  && Scan(data[t.value.offset := v], 0) == Scan(data, 0)
                  && AlteredAt(data, field, t.value.offset, v, i, s))
  {
    DecodedIsNested(data, field);
    PayloadOffsetLocates(data, field, n);
    i, s := 0, InPath(0);
    var ps := FieldPositions(data, field).value;
    if 0 <= n < |ps| {
      assert ps[n] in ps;
      i, s := PayloadIsInert(data, field, ps[n], v);
    }
  }
}
