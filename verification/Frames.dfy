/**
 * Framing (internal/akdtree/ranges.go:24-104, internal/akdtree/decode.go:71-111): where each
 * record of a message starts, where its body is, and where it ends. The format is the Protocol
 * Buffers encoding, sections "Base 128 Varints" and "Message Structure".
 */
module Frames {
  import opened Basics
  import opened Varint

  /** One record: its field number, wire type, first byte, first body byte, and end. */
  datatype Rec = Rec(field: nat, wire: nat, start: nat, body: nat, end: nat)

  /** Framed, or only partly there, or not a record at all. */
  datatype Frame = Framed(r: Rec) | Partial | Malformed

  /** The record at pos, as nextRecord frames it. */
  function FrameAt(data: Bytes, pos: nat): (f: Frame)
    requires pos <= |data|
    ensures f.Framed? ==> f.r.start == pos < f.r.body <= f.r.end <= |data|
    ensures f.Framed? ==> (f.r.wire == 2 || f.r.body == f.r.end) && f.r.wire in {0, 1, 2, 5}
  {
    match Read(data, pos)
    case Short => Partial
    case Overlong => Malformed
    case Value(key, n) =>
      var field, wire, p := key / 8, key % 8, pos + n;
      if wire == 2 then
        match Read(data, p)
        case Short => Partial
        case Overlong => Malformed
        case Value(l, m) =>
          if |data| - (p + m) < l then Partial else Framed(Rec(field, 2, pos, p + m, p + m + l))
      else if wire == 0 then
        match Read(data, p)
        case Short => Partial
        case Overlong => Malformed
        case Value(_, m) => Framed(Rec(field, 0, pos, p + m, p + m))
      else if wire == 5 then
        if |data| - p < 4 then Partial else Framed(Rec(field, 5, pos, p + 4, p + 4))
      else if wire == 1 then
        if |data| - p < 8 then Partial else Framed(Rec(field, 1, pos, p + 8, p + 8))
      else Malformed
  }

  /** All records from pos to the end of data, when data holds nothing else. */
  function Scan(data: Bytes, pos: nat): (r: Option<seq<Rec>>)
    requires pos <= |data|
    decreases |data| - pos
  {
    if pos == |data| then Some([])
    else
      match FrameAt(data, pos)
      case Partial => None
      case Malformed => None
      case Framed(r) =>
        match Scan(data, r.end)
        case None => None
        case Some(rs) => Some([r] + rs)
  }

  // ----- the second framer

  /** A length-delimited field: its number and its body. */
  datatype Chunk = Chunk(field: nat, body: Bytes)

  /** walk from pos on: the calls its callback receives, or None where it errs. The source
      re-slices data past each record; here the offset moves instead. */
  function WalkFrom(data: Bytes, pos: nat): Option<seq<Chunk>>
    requires pos <= |data|
    decreases |data| - pos
  {
    if pos == |data| then Some([])
    else
      var key := Read(data, pos);
      if !key.Value? then None
      else
        var p, field := pos + key.n, key.v / 8;
        match key.v % 8
        case 2 =>
          var l := Read(data, p);
          if !l.Value? || |data| - (p + l.n) < l.v then None
          else
            var body, next := p + l.n, p + l.n + l.v;
            var more := WalkFrom(data, next);
            if more.None? then None else Some([Chunk(field, data[body..next])] + more.value)
        case 0 =>
          var v := Read(data, p);
          if !v.Value? then None else WalkFrom(data, p + v.n)
        case 5 => if |data| - p < 4 then None else WalkFrom(data, p + 4)
        case 1 => if |data| - p < 8 then None else WalkFrom(data, p + 8)
        case _ => None
  }

  function Walk(data: Bytes): Option<seq<Chunk>> {
    WalkFrom(data, 0)
  }

  /** The length-delimited records, with their bodies. */
  function Chunks(data: Bytes, rs: seq<Rec>): seq<Chunk>
    requires forall i | 0 <= i < |rs| :: rs[i].body <= rs[i].end <= |data|
  {
    if rs == [] then [] else ChunkOf(data, rs[0]) + Chunks(data, rs[1..])
  }

  lemma {:induction false} ScanBounds(data: Bytes, pos: nat)
    requires pos <= |data| && Scan(data, pos).Some?
    ensures var rs := Scan(data, pos).value;
            && (forall i | 0 <= i < |rs| :: pos <= rs[i].start < rs[i].body <= rs[i].end <= |data|)
            && (forall i | 0 <= i < |rs| :: rs[i].wire in {0, 1, 2, 5})
            && (rs == [] <==> pos == |data|)
    decreases |data| - pos
  {
    if pos < |data| { ScanBounds(data, FrameAt(data, pos).r.end); }
  }

  function ChunkOf(data: Bytes, r: Rec): seq<Chunk>
    requires r.body <= r.end <= |data|
  {
    if r.wire == 2 then [Chunk(r.field, data[r.body..r.end])] else []
  }

  /** One turn of walk's loop is one record. */
  lemma {:induction false} WalkStep(data: Bytes, pos: nat)
    requires pos < |data|
    ensures match FrameAt(data, pos)
            case Framed(r) =>
              var more := WalkFrom(data, r.end);
              WalkFrom(data, pos) == if more.None? then None else Some(ChunkOf(data, r) + more.value)
            case _ => WalkFrom(data, pos) == None
  {
    assert forall m: seq<Chunk> :: [] + m == m;
  }

  /** The two framers agree: walk accepts the rest of a message exactly when framing it record by
      record consumes it, and hands its callback those records' bodies. */
  lemma {:induction false} WalkIsScan(data: Bytes, pos: nat)
    requires pos <= |data|
    ensures match Scan(data, pos)
            case None => WalkFrom(data, pos) == None
            case Some(rs) =>
              (forall i | 0 <= i < |rs| :: rs[i].body <= rs[i].end <= |data|)
              && WalkFrom(data, pos) == Some(Chunks(data, rs))
    decreases |data| - pos
  {
    if pos < |data| {
      WalkStep(data, pos);
      var f := FrameAt(data, pos);
      if f.Framed? {
        WalkIsScan(data, f.r.end);
        if Scan(data, pos).Some? { ScanBounds(data, pos); }
      }
    }
  }

  // ----- which bytes framing depends on

  function Shift(r: Rec, p: nat, q: nat): Rec
    requires p == r.start && p <= r.body && p <= r.end
  {
    Rec(r.field, r.wire, q, q + (r.body - p), q + (r.end - p))
  }

  lemma {:induction false} ReadSame(a: Bytes, p: nat, b: Bytes, q: nat, n: nat)
    requires p + n <= |a| && q + n <= |b| && SameFrom(a, p, b, q, n)
    requires Read(a, p).Value? && Read(a, p).n <= n
    ensures Read(b, q) == Read(a, p)
  {
    var m := Read(a, p).n;
    ReadMoves(a, p, b, q, m, 0);
  }

  /** A record's framing depends on its header bytes alone, and on there being room for its body:
      not on where it stands, what its body holds, or what follows. */
  lemma {:induction false} FrameMoves(a: Bytes, p: nat, b: Bytes, q: nat)
    requires p <= |a| && q <= |b| && FrameAt(a, p).Framed?
    requires var r := FrameAt(a, p).r; q + (r.end - p) <= |b| && SameFrom(a, p, b, q, r.body - p)
    ensures FrameAt(b, q) == Framed(Shift(FrameAt(a, p).r, p, q))
  {
    var r := FrameAt(a, p).r;
    ReadSame(a, p, b, q, r.body - p);
    var n := Read(a, p).n;
    if r.wire == 2 || r.wire == 0 {
      ReadSame(a, p + n, b, q + n, r.body - p - n);
    }
  }

  /** A record that is all there is framed the same when more bytes arrive, and one that is
      malformed stays malformed. */
  lemma {:induction false} FrameStable(a: Bytes, b: Bytes, pos: nat)
    requires Prefix(a, b) && pos <= |a| && !FrameAt(a, pos).Partial?
    ensures FrameAt(b, pos) == FrameAt(a, pos)
  {
    assert forall k | 0 <= k < |a| :: a[k] == b[..|a|][k] == b[k];
    var key := Read(a, pos);
    ReadStable(a, b, pos);
    if key.Value? {
      var p := pos + key.n;
      if !Read(a, p).Short? { ReadStable(a, b, p); }
    }
  }

  // ----- what is not all there

  function Zeros(n: nat): (b: Bytes)
    ensures |b| == n && forall i | 0 <= i < n :: b[i] == 0
  {
    seq(n, _ => 0)
  }

  lemma {:induction false} ZerosAdd(data: Bytes, m: nat, n: nat)
    ensures (data + Zeros(m)) + Zeros(n) == data + Zeros(m + n)
  {
  }

  /** A zero settles a varint cut short: it is the end of it, or one byte too many. */
  lemma {:induction false} ZeroSettles(data: Bytes, pos: nat, i: nat)
    requires pos + i <= |data| && i <= 10 && ReadFrom(data, pos, i).Short?
    ensures !ReadFrom(data + Zeros(1), pos, i).Short?
    decreases |data| - i
  {
    if pos + i < |data| { ZeroSettles(data, pos, i + 1); }
  }

  /** A varint that is there reads the same with more bytes after it. */
  lemma {:induction false} ReadsOn(data: Bytes, more: Bytes, pos: nat)
    requires pos <= |data| && !Read(data, pos).Short?
    ensures Read(data + more, pos) == Read(data, pos)
  {
    assert (data + more)[..|data|] == data;
    ReadStable(data, data + more, pos);
  }

  /** Zeros settle a record whose body or whose four or eight bytes are missing. */
  lemma {:induction false} BodySettles(data: Bytes, pos: nat) returns (n: nat)
    requires pos <= |data| && FrameAt(data, pos).Partial? && Read(data, pos).Value?
    requires var key := Read(data, pos); key.v % 8 in {0, 2} ==> !Read(data, pos + key.n).Short?
    ensures !FrameAt(data + Zeros(n), pos).Partial?
  {
    var key := Read(data, pos);
    n := 8;
    if key.v % 8 == 2 {
      n := Read(data, pos + key.n).v;
      ReadsOn(data, Zeros(n), pos + key.n);
    }
    ReadsOn(data, Zeros(n), pos);
  }

  /** And one whose length or number is cut short. */
  lemma {:induction false} ValueSettles(data: Bytes, pos: nat) returns (n: nat)
    requires pos <= |data| && FrameAt(data, pos).Partial? && Read(data, pos).Value?
    ensures !FrameAt(data + Zeros(n), pos).Partial?
  {
    var key := Read(data, pos);
    if key.v % 8 in {0, 2} && Read(data, pos + key.n).Short? {
      ZeroSettles(data, pos + key.n, 0);
      ReadsOn(data, Zeros(1), pos);
      n := 0;
      if FrameAt(data + Zeros(1), pos).Partial? { n := BodySettles(data + Zeros(1), pos); }
      ZerosAdd(data, 1, n);
      assert (data + Zeros(1)) + Zeros(0) == data + Zeros(1);
      n := 1 + n;
    } else {
      n := BodySettles(data, pos);
    }
  }

  /** And one whose key is. */
  lemma {:induction false} Settles(data: Bytes, pos: nat) returns (n: nat)
    requires pos <= |data| && FrameAt(data, pos).Partial?
    ensures !FrameAt(data + Zeros(n), pos).Partial?
  {
    if Read(data, pos).Short? {
      ZeroSettles(data, pos, 0);
      n := 0;
      if FrameAt(data + Zeros(1), pos).Partial? { n := ValueSettles(data + Zeros(1), pos); }
      ZerosAdd(data, 1, n);
      assert (data + Zeros(1)) + Zeros(0) == data + Zeros(1);
      n := 1 + n;
    } else {
      n := ValueSettles(data, pos);
    }
  }

  /** Partial means read more: exactly when some bytes put after the data would have the record framed
      otherwise. */
  lemma {:induction false} PartialIsUnsettled(data: Bytes, pos: nat)
    requires pos <= |data|
    ensures FrameAt(data, pos).Partial? <==> exists more :: FrameAt(data + more, pos) != FrameAt(data, pos)
  {
    if FrameAt(data, pos).Partial? {
      var n := Settles(data, pos);
      assert FrameAt(data + Zeros(n), pos) != FrameAt(data, pos);
    } else {
      forall more ensures FrameAt(data + more, pos) == FrameAt(data, pos) {
        assert (data + more)[..|data|] == data;
        FrameStable(data, data + more, pos);
      }
    }
  }
}
