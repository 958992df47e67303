/**
 * Messages: Fields, Parse and what is read from their results (internal/pbwire/pbwire.go:19-69,
 * 85-184, 200-210).
 */
module PbFields {
  import opened Basics
  import opened Varint
  import opened Frames
  import opened Pbwire

  /** One field occurrence. */
  datatype Field = Field(num: nat, wire: nat, varint: nat, bytes: Bytes)

  datatype Item = Item(f: Field, end: nat)

  // ----- Fields, the strict parser

  /** The turn of its loop at offset i. */
  function FieldAt(b: Bytes, i: nat): (r: Option<Item>)
    requires i <= |b|
    ensures r.Some? ==> i < r.value.end <= |b|
  {
    var k := Read(b, i);
    if !k.Value? then None
    else
      var num, wire, p := k.v / 8, k.v % 8, i + k.n;
      if num == 0 || num > 0x1fff_ffff then None
      else if wire == 0 then
        var v := Read(b, p);
        if v.Value? then Some(Item(Field(num, 0, v.v, []), p + v.n)) else None
      else if wire == 2 then
        var n := Read(b, p);
        if !n.Value? || n.v > |b| - (p + n.n) then None
        else Some(Item(Field(num, 2, 0, b[p + n.n..p + n.n + n.v]), p + n.n + n.v))
      else if wire == 1 || wire == 5 then
        var w := if wire == 5 then 4 else 8;
        if |b| - p < w then None else Some(Item(Field(num, wire, 0, b[p..p + w]), p + w))
      else None
  }

  function FieldsFrom(b: Bytes, i: nat): Option<seq<Field>>
    requires i <= |b|
    decreases |b| - i
  {
    if i == |b| then Some([])
    else
      var x := FieldAt(b, i);
      if x.None? then None
      else
        var more := FieldsFrom(b, x.value.end);
        if more.None? then None else Some([x.value.f] + more.value)
  }

  lemma {:induction false} FieldIsFrame(b: Bytes, i: nat)
    requires i < |b|
    ensures var f, x := FrameAt(b, i), FieldAt(b, i);
            && (x.Some? <==> f.Framed? && 0 < f.r.field < 0x2000_0000)
            && (x.Some? ==> x.value.f.num == f.r.field && x.value.f.wire == f.r.wire && x.value.end == f.r.end)
  {
  }

  predicate Numbered(rs: seq<Rec>) {
    forall j | 0 <= j < |rs| :: 0 < rs[j].field < 0x2000_0000
  }

  /** The fields are those of the records. */
  predicate Matches(fs: seq<Field>, rs: seq<Rec>) {
    |fs| == |rs| && forall j | 0 <= j < |fs| :: fs[j].num == rs[j].field && fs[j].wire == rs[j].wire
  }

  /** The strict framer accepts exactly the messages the other framers accept whose field numbers
      are from 1 to 2^29-1, and returns one field a record. */
  lemma {:induction false} FieldsIsScan(b: Bytes, i: nat)
    requires i <= |b|
    ensures FieldsFrom(b, i).Some? <==> Scan(b, i).Some? && Numbered(Scan(b, i).value)
    ensures FieldsFrom(b, i).Some? ==> Matches(FieldsFrom(b, i).value, Scan(b, i).value)
    decreases |b| - i
  {
    if i < |b| {
      FieldIsFrame(b, i);
      var f := FrameAt(b, i);
      if f.Framed? {
        FieldsIsScan(b, f.r.end);
        var more := Scan(b, f.r.end);
        if more.Some? {
          assert Numbered([f.r] + more.value) <==> 0 < f.r.field < 0x2000_0000 && Numbered(more.value) by {
            assert ([f.r] + more.value)[0] == f.r && ([f.r] + more.value)[1..] == more.value;
            assert forall j | 0 <= j < |more.value| :: more.value[j] == ([f.r] + more.value)[j + 1];
          }
        }
      }
    }
  }

  method Fields(b: Bytes) returns (out: Option<seq<Field>>)
    ensures out == FieldsFrom(b, 0)
  {
    var i: nat, acc: seq<Field> := 0, [];
    assert FieldsFrom(b, 0).Some? ==> acc + FieldsFrom(b, 0).value == FieldsFrom(b, 0).value;
    while i < |b|
      invariant i <= |b|
      invariant var more := FieldsFrom(b, i);
                FieldsFrom(b, 0) == if more.None? then None else Some(acc + more.value)
      decreases |b| - i
    {
      var x := NextField(b, i);
      if x.None? {
        return None;
      }
      ghost var more := FieldsFrom(b, x.value.end);
      assert more.Some? ==> acc + ([x.value.f] + more.value) == (acc + [x.value.f]) + more.value;
      acc, i := acc + [x.value.f], x.value.end;
    }
    assert acc + [] == acc;
    return Some(acc);
  }

  /** The body of the loop of Fields. */
  method NextField(b: Bytes, i: nat) returns (r: Option<Item>)
    requires i < |b|
    ensures r == FieldAt(b, i)
  {
    var k, p := StrictUvarint(b, i);
    if k.None? {
      return None;
    }
    var num, wire := k.value / 8, k.value % 8;
    if num == 0 || num > 0x1fff_ffff {
      return None;
    }
    match wire {
      case 0 =>
        var v, q := StrictUvarint(b, p);
        return if v.None? then None else Some(Item(Field(num, 0, v.value, []), q));
      case 2 =>
        var n, q := StrictUvarint(b, p);
        if n.None? || n.value > |b| - q {
          return None;
        }
        return Some(Item(Field(num, 2, 0, b[q..q + n.value]), q + n.value));
      case _ =>
        if wire != 1 && wire != 5 {
          return None;
        }
        var w := if wire == 5 then 4 else 8;
        return if |b| - p < w then None else Some(Item(Field(num, wire, 0, b[p..p + w]), p + w));
    }
  }

  // ----- writing

  function Or(x: nat, y: nat): nat {
    if x == 0 then y else if y == 0 then x
    else 2 * Or(x / 2, y / 2) + if x % 2 == 1 || y % 2 == 1 then 1 else 0
  }

  lemma {:induction false} OrSplits(x: nat, y: nat)
    ensures Or(x, y) == 2 * Or(x / 2, y / 2) + if x % 2 == 1 || y % 2 == 1 then 1 else 0
  {
  }

  /** Or with a byte, bit by bit: above it the bits are those of x. */
  lemma {:induction false} OrFits(x: Uint64, y: byte)
    ensures Or(x, y) < TWO_64
  {
    var a, b := x, y;
    ghost var p := 1;
    for i := 0 to 8
      invariant 0 <= a && 0 <= b && p == [1, 2, 4, 8, 16, 32, 64, 128, 256][i]
      invariant p * b <= y && p * a <= x && Or(x, y) < p * (Or(a, b) + 1)
    {
      OrSplits(a, b);
      a, b, p := a / 2, b / 2, 2 * p;
    }
    assert b == 0;
  }

  /** The tag in 64 bits: the number moved up three, or the wire type. */
  function TagOf(field: int, wire: byte): Uint64 {
    OrFits(8 * field % TWO_64, wire);
    Or(8 * field % TWO_64, wire)
  }

  /** A tag of a three-bit wire type is the number's lowest sixty-one bits and the wire type, side by
      side. */
  lemma {:induction false} TagIsBeside(field: int, wire: byte)
    requires wire < 8
    ensures TagOf(field, wire) == 8 * (field % 0x2000_0000_0000_0000) + wire
  {
    OrBeside(field % 0x2000_0000_0000_0000, wire);
    assert 8 * field % TWO_64 == 8 * (field % 0x2000_0000_0000_0000);
  }

  /** A tag gives number and wire type back, exactly when the wire type has three bits and
      the number at most sixty-one. */
  lemma {:induction false} TagHolds(field: int, wire: byte)
    ensures TagOf(field, wire) / 8 == field && TagOf(field, wire) % 8 == wire
            <==> 0 <= field < 0x2000_0000_0000_0000 && wire < 8
  {
    var low, t := field % 0x2000_0000_0000_0000, TagOf(field, wire);
    if wire < 8 {
      TagIsBeside(field, wire);
      assert t == 8 * low + wire && t / 8 == low;
    } else {
      assert t % 8 < 8;
    }
  }

  lemma {:induction false} OrBeside(field: nat, wire: nat)
    requires wire < 8
    ensures Or(8 * field, wire) == 8 * field + wire
  {
    var a, b := wire / 2, wire / 2 / 2;
    OrSplits(8 * field, wire);
    OrSplits(4 * field, a);
    OrSplits(2 * field, b);
    assert 8 * field / 2 == 4 * field && 4 * field / 2 == 2 * field && 2 * field / 2 == field;
    assert Or(field, b / 2) == field;
  }

  method AppendTag(b: Bytes, field: int, wire: byte) returns (r: Bytes)
    ensures r == b + VarintBytes(TagOf(field, wire))
  {
    r := AppendVarint(b, TagOf(field, wire));
  }

  function Tag(f: Field): Bytes {
    VarintBytes(8 * f.num + f.wire)
  }

  function Body(f: Field): Bytes {
    if f.wire == 0 then VarintBytes(f.varint)
    else if f.wire == 2 then VarintBytes(|f.bytes|) + f.bytes
    else f.bytes
  }

  /** A field with a tag, then its value. */
  function Encode(f: Field): Bytes {
    Tag(f) + Body(f)
  }

  function EncodeAll(fs: seq<Field>): Bytes {
    if fs == [] then [] else Encode(fs[0]) + EncodeAll(fs[1..])
  }

  /** What a Field may hold. */
  predicate Valid(f: Field) {
    && 0 < f.num < 0x2000_0000 && f.varint < TWO_64
    && match f.wire
       case 0 => f.bytes == []
       case 1 => f.varint == 0 && |f.bytes| == 8
       case 2 => f.varint == 0 && |f.bytes| < TWO_64
       case 5 => f.varint == 0 && |f.bytes| == 4
       case _ => false
  }

  lemma {:induction false} TagReadsBack(b: Bytes, i: nat, f: Field)
    requires Valid(f) && StandsAt(b, i, Tag(f))
    ensures Read(b, i).Value? && Read(b, i).n == |Tag(f)|
    ensures Read(b, i).v / 8 == f.num && Read(b, i).v % 8 == f.wire
  {
    VarintRoundTrip(b, i, 8 * f.num + f.wire);
  }

  lemma {:induction false} BodyReadsBack(b: Bytes, p: nat, f: Field)
    requires Valid(f) && StandsAt(b, p, Body(f))
    ensures f.wire == 0 ==> Read(b, p) == Value(f.varint, |Body(f)|)
    ensures f.wire == 2 ==> var n := |Body(f)| - |f.bytes|;
                            Read(b, p) == Value(|f.bytes|, n) && StandsAt(b, p + n, f.bytes)
  {
    if f.wire == 0 {
      VarintRoundTrip(b, p, f.varint);
    } else if f.wire == 2 {
      PartsStand(b, p, VarintBytes(|f.bytes|), f.bytes);
      VarintRoundTrip(b, p, |f.bytes|);
    }
  }

  lemma {:induction false} FieldReadsBack(b: Bytes, i: nat, f: Field)
    requires Valid(f) && StandsAt(b, i, Encode(f))
    ensures FieldAt(b, i) == Some(Item(f, i + |Encode(f)|))
  {
    PartsStand(b, i, Tag(f), Body(f));
    TagReadsBack(b, i, f);
    BodyReadsBack(b, i + |Tag(f)|, f);
  }

  /** The fields are written from i to the end of b. */
  ghost predicate Written(b: Bytes, i: nat, fs: seq<Field>) {
    StandsAt(b, i, EncodeAll(fs)) && i + |EncodeAll(fs)| == |b|
  }

  lemma {:induction false} FirstReadsBack(b: Bytes, i: nat, fs: seq<Field>) returns (next: nat)
    requires fs != [] && Valid(fs[0]) && Written(b, i, fs)
    ensures i < |b| && FieldAt(b, i) == Some(Item(fs[0], next)) && Written(b, next, fs[1..])
  {
    PartsStand(b, i, Encode(fs[0]), EncodeAll(fs[1..]));
    FieldReadsBack(b, i, fs[0]);
    next := i + |Encode(fs[0])|;
  }

  lemma {:induction false} FieldsReadBack(b: Bytes, i: nat, fs: seq<Field>)
    requires forall k | 0 <= k < |fs| :: Valid(fs[k])
    requires Written(b, i, fs)
    ensures i <= |b| && FieldsFrom(b, i) == Some(fs)
    decreases |fs|
  {
    if fs == [] {
      assert EncodeAll(fs) == [];
    } else {
      var next := FirstReadsBack(b, i, fs);
      FieldsReadBack(b, next, fs[1..]);
      FieldsStep(b, i, Item(fs[0], next), fs[1..]);
      assert fs == [fs[0]] + fs[1..];
    }
  }

  lemma {:induction false} FieldsStep(b: Bytes, i: nat, x: Item, rest: seq<Field>)
    requires i < |b| && FieldAt(b, i) == Some(x) && FieldsFrom(b, x.end) == Some(rest)
    ensures FieldsFrom(b, i) == Some([x.f] + rest)
  {
  }

  /** Fields reads back every list of fields that was written. */
  lemma {:induction false} FieldsInvertEncoding(fs: seq<Field>)
    requires forall k | 0 <= k < |fs| :: Valid(fs[k])
    ensures FieldsFrom(EncodeAll(fs), 0) == Some(fs)
  {
    assert EncodeAll(fs)[0..|EncodeAll(fs)|] == EncodeAll(fs);
    FieldsReadBack(EncodeAll(fs), 0, fs);
  }

  /** And whatever Fields accepts, those are lists that can be written. */
  lemma {:induction false} FieldsAreValid(b: Bytes, i: nat)
    requires i <= |b| && FieldsFrom(b, i).Some? && |b| < TWO_64
    ensures forall f | f in FieldsFrom(b, i).value :: Valid(f)
    decreases |b| - i
  {
    if i < |b| {
      var x := FieldAt(b, i).value;
      var p := i + Read(b, i).n;
      if x.f.wire == 0 { ReadFits(b, p); }
      FieldsAreValid(b, x.end);
    }
  }
}
