/**
 * Parse, the lenient parser, and what callers read from its result
 * (internal/pbwire/pbwire.go:19-69, 85-106), against Fields.
 */
module PbMessage {
  import opened Basics
  import opened Varint
  import opened Frames
  import opened Pbwire
  import opened PbFields

  /** Field numbers to their values, in order of appearance. */
  type Message = map<nat, seq<Bytes>>

  /** A lookup in the map; a missing field has no values. */
  function Get(m: Message, field: nat): seq<Bytes> {
    if field in m then m[field] else []
  }

  // ----- int arithmetic

  /** The 64-bit signed number with these low bits. */
  function Wrap(x: int): int {
    var m := x % 0x1_0000_0000_0000_0000;
    if m < 0x8000_0000_0000_0000 then m else m - 0x1_0000_0000_0000_0000
  }

  /** The guard before a body of n bytes at ni is sliced: ni+int(n) is past the end or wraps. */
  predicate Overruns(b: Bytes, ni: nat, n: nat) {
    var end := Wrap(ni + Wrap(n));
    end > |b| || end < ni
  }

  /** It stops exactly the lengths that do not fit. */
  lemma {:induction false} OverrunsExactly(b: Slice, ni: nat, n: nat)
    requires ni <= |b| && n < TWO_64
    ensures Overruns(b, ni, n) <==> n > |b| - ni
  {
    assert n < 0x8000_0000_0000_0000 ==> Wrap(n) == n;
    assert n >= 0x8000_0000_0000_0000 ==> Wrap(n) == n - 0x1_0000_0000_0000_0000;
  }

  lemma {:induction false} LooseFits(b: Bytes, pos: nat, n: nat)
    requires pos + n <= |b| && n <= 10 && LooseFrom(b, pos, n).Some?
    ensures n <= 9 && LooseFrom(b, pos, n).value.v < Room(n)
    decreases |b| - n
  {
    if n < 10 { RoomLeast(n); }
    if n < 9 && b[pos + n] >= 128 { LooseFits(b, pos, n + 1); }
  }

  lemma {:induction false} LooseIsUint64(b: Bytes, pos: nat)
    requires pos <= |b| && Loose(b, pos).Some?
    ensures Loose(b, pos).value.v < TWO_64
  {
    LooseFits(b, pos, 0);
    RoomAtStart();
  }

  // ----- Parse

  datatype Entry = Entry(field: nat, value: Bytes)

  /** What one turn of the loop appends, if anything, and where it leaves off. */
  datatype Turn = Turn(es: seq<Entry>, end: nat)

  /** The n lowest bytes of v, big-endian. */
  function BigEndian(v: nat, n: nat): (b: Bytes)
    ensures |b| == n
  {
    if n == 0 then [] else BigEndian(v / 256, n - 1) + [v % 256]
  }

  /** What follows a tag, at p. */
  function ValueAt(b: Slice, field: nat, wire: nat, p: nat): (r: Option<Turn>)
    requires p <= |b|
    ensures r.Some? ==> p <= r.value.end <= |b|
  {
    match wire
    case 0 =>
      var v := Loose(b, p);
      if v.None? then None else Some(Turn([Entry(field, BigEndian(v.value.v, 8))], p + v.value.n))
    case 2 =>
      var n := Loose(b, p);
      if n.None? || |b| - (p + n.value.n) < n.value.v then None
      else
        var q := p + n.value.n;
        Some(Turn([Entry(field, b[q..q + n.value.v])], q + n.value.v))
    case 5 => if p + 4 > |b| then None else Some(Turn([], p + 4))
    case 1 => if p + 8 > |b| then None else Some(Turn([], p + 8))
    case _ => None
  }

  /** The turn at offset i, or None where Parse returns what it has. */
  function TurnAt(b: Slice, i: nat): (r: Option<Turn>)
    requires i <= |b|
    ensures r.Some? ==> i < r.value.end <= |b|
  {
    var k := Loose(b, i);
    if k.None? then None else ValueAt(b, k.value.v / 8, k.value.v % 8, i + k.value.n)
  }

  function EntriesFrom(b: Slice, i: nat): seq<Entry>
    requires i <= |b|
    decreases |b| - i
  {
    if i == |b| then []
    else
      var t := TurnAt(b, i);
      if t.None? then [] else t.value.es + EntriesFrom(b, t.value.end)
  }

  function Add(m: Message, e: Entry): Message {
    m[e.field := Get(m, e.field) + [e.value]]
  }

  function AddAll(m: Message, es: seq<Entry>): Message
    decreases |es|
  {
    if es == [] then m else AddAll(Add(m, es[0]), es[1..])
  }

  lemma {:induction false} AddBoth(m: Message, x: seq<Entry>, y: seq<Entry>)
    ensures AddAll(m, x + y) == AddAll(AddAll(m, x), y)
    decreases |x|
  {
    if x == [] {
      assert x + y == y;
    } else {
      assert (x + y)[1..] == x[1..] + y;
      AddBoth(Add(m, x[0]), x[1..], y);
    }
  }

  method Parse(b: Slice) returns (out: Message)
    ensures out == AddAll(map[], EntriesFrom(b, 0))
  {
    var i: nat := 0;
    out := map[];
    while i < |b|
      invariant i <= |b| && AddAll(map[], EntriesFrom(b, 0)) == AddAll(out, EntriesFrom(b, i))
      decreases |b| - i
    {
      var t := NextTurn(b, i);
      if t.None? {
        return;
      }
      AddBoth(out, t.value.es, EntriesFrom(b, t.value.end));
      if |t.value.es| == 1 {
        out := Add(out, t.value.es[0]);
      }
      i := t.value.end;
    }
  }

  /** The body of the loop of Parse. */
  method NextTurn(b: Slice, i: nat) returns (t: Option<Turn>)
    requires i < |b|
    ensures t == TurnAt(b, i)
    ensures t.Some? ==> |t.value.es| <= 1
  {
    var k, p := Uvarint(b, i);
    if k.None? {
      return None;
    }
    var field := k.value / 8;
    match k.value % 8 {
      case 0 =>
        var v, q := Uvarint(b, p);
        return if v.None? then None else Some(Turn([Entry(field, BigEndian(v.value, 8))], q));
      case 2 =>
        var n, q := Uvarint(b, p);
        if n.None? {
          return None;
        }
        LooseIsUint64(b, p);
        OverrunsExactly(b, q, n.value);
        if Overruns(b, q, n.value) {
          return None;
        }
        return Some(Turn([Entry(field, b[q..q + n.value])], q + n.value));
      case 5 => return if p + 4 > |b| then None else Some(Turn([], p + 4));
      case 1 => return if p + 8 > |b| then None else Some(Turn([], p + 8));
      case _ => return None;
    }
  }

  // ----- what the map holds

  /** The values of one field, in order. */
  function Values(es: seq<Entry>, field: nat): seq<Bytes> {
    if es == [] then [] else (if es[0].field == field then [es[0].value] else []) + Values(es[1..], field)
  }

  lemma {:induction false} AddAllGroups(m: Message, es: seq<Entry>, field: nat)
    ensures Get(AddAll(m, es), field) == Get(m, field) + Values(es, field)
    decreases |es|
  {
    if es != [] { AddAllGroups(Add(m, es[0]), es[1..], field); }
  }

  /** What Parse stores for a field. */
  function StoredOne(f: Field): seq<Entry> {
    if f.wire == 0 then [Entry(f.num, BigEndian(f.varint, 8))]
    else if f.wire == 2 then [Entry(f.num, f.bytes)]
    else []
  }

  /** The varint and length-delimited fields, as Parse stores them. */
  function Stored(fs: seq<Field>): seq<Entry> {
    if fs == [] then [] else StoredOne(fs[0]) + Stored(fs[1..])
  }

  lemma {:induction false} TurnIsField(b: Slice, i: nat)
    requires i < |b| && FieldAt(b, i).Some?
    ensures TurnAt(b, i) == Some(Turn(StoredOne(FieldAt(b, i).value.f), FieldAt(b, i).value.end))
  {
    LooseIsStrict(b, i);
    LooseIsStrict(b, i + Read(b, i).n);
  }

  /** A varint the strict reader refuses and the lenient one takes. */
  predicate OnlyLoose(b: Slice, pos: nat)
    requires pos <= |b|
  {
    Loose(b, pos).Some? && !Read(b, pos).Value?
  }

  /** A turn of Parse keeps a whole record, of whatever number: its body, or its number in eight bytes,
      or nothing if it is of fixed length; and where there is no whole record it stops, unless one of
      its two varints is one only the lenient reader takes. */
  lemma {:induction false} TurnIsFrame(b: Slice, i: nat)
    requires i < |b|
    ensures FrameAt(b, i).Framed? ==>
              var r, v := FrameAt(b, i).r, Read(b, i + Read(b, i).n);
              TurnAt(b, i) == Some(Turn(if r.wire == 2 then [Entry(r.field, b[r.body..r.end])]
                                        else if r.wire == 0 then [Entry(r.field, BigEndian(v.v, 8))]
                                        else [], r.end))
    ensures !FrameAt(b, i).Framed? && TurnAt(b, i).Some? ==>
              OnlyLoose(b, i) || OnlyLoose(b, i + Loose(b, i).value.n)
  {
    LooseIsStrict(b, i);
    if Loose(b, i).Some? { LooseIsStrict(b, i + Loose(b, i).value.n); }
  }

  lemma {:induction false} EntriesAreStored(b: Slice, i: nat)
    requires i <= |b| && FieldsFrom(b, i).Some?
    ensures EntriesFrom(b, i) == Stored(FieldsFrom(b, i).value)
    decreases |b| - i
  {
    if i < |b| {
      TurnIsField(b, i);
      var x := FieldAt(b, i).value;
      EntriesAreStored(b, x.end);
      var fs, rest := FieldsFrom(b, i).value, FieldsFrom(b, x.end).value;
      assert fs[0] == x.f && fs[1..] == rest;
    }
  }

  /** Whenever the strict parser accepts, the lenient one groups the same varint and bytes values,
      in the same order, and nothing else. */
  lemma {:induction false} ParseGroupsFields(b: Slice, field: nat)
    requires FieldsFrom(b, 0).Some?
    ensures Get(AddAll(map[], EntriesFrom(b, 0)), field) == Values(Stored(FieldsFrom(b, 0).value), field)
  {
    EntriesAreStored(b, 0);
    var es := EntriesFrom(b, 0);
    AddAllGroups(map[], es, field);
    assert Get(map[], field) + Values(es, field) == Values(es, field);
  }

  // ----- reading a value

  function First(m: Message, field: nat): Option<Bytes> {
    var v := Get(m, field);
    if |v| > 0 then Some(v[0]) else None
  }

  function ReadUint64(m: Message, field: nat): nat {
    var v := First(m, field);
    if v.None? || |v.value| != 8 then 0 else FromBigEndian(v.value)
  }

  function Pow256(n: nat): nat
    decreases n
  {
    if n == 0 then 1 else 256 * Pow256(n - 1)
  }

  lemma {:induction false} BigEndianReads(v: nat, n: nat)
    requires v < Pow256(n)
    ensures FromBigEndian(BigEndian(v, n)) == v
    decreases n
  {
    if n > 0 {
      BigEndianReads(v / 256, n - 1);
      assert BigEndian(v, n)[..n - 1] == BigEndian(v / 256, n - 1);
    }
  }

  lemma {:induction false} EightBytes()
    ensures Pow256(8) == TWO_64
  {
    assert Pow256(2) == 0x1_0000 && Pow256(4) == 0x1_0000 * Pow256(2);
    assert Pow256(6) == 0x1_0000 * Pow256(4) && Pow256(8) == 0x1_0000 * Pow256(6);
  }

  /** The first field of that number that Parse keeps. */
  function FirstKept(fs: seq<Field>, num: nat): Option<Field> {
    if fs == [] then None
    else if fs[0].num == num && fs[0].wire in {0, 2} then Some(fs[0])
    else FirstKept(fs[1..], num)
  }

  lemma {:induction false} FirstIsFirst(fs: seq<Field>, num: nat)
    ensures var v, f := Values(Stored(fs), num), FirstKept(fs, num);
            && (v == [] <==> f.None?)
            && (f.Some? ==> f.value in fs && f.value.wire in {0, 2})
            && (f.Some? ==> v[0] == if f.value.wire == 0 then BigEndian(f.value.varint, 8) else f.value.bytes)
  {
    if fs != [] {
      FirstIsFirst(fs[1..], num);
      assert forall x: seq<Entry> {:trigger [] + x} :: [] + x == x;
      if fs[0].wire in {0, 2} {
        var e := Entry(fs[0].num, if fs[0].wire == 0 then BigEndian(fs[0].varint, 8) else fs[0].bytes);
        var all := Stored(fs);
        assert all == [e] + Stored(fs[1..]) && all[0] == e && all[1..] == Stored(fs[1..]);
      }
    }
  }

  /** Uint64 of a parsed message: the number sent in the first varint or bytes field of that number
      if that is a varint. If it is bytes, the result is 0 unless there are eight of them, and then
      they are taken for a number: the two are not told apart. */
  lemma {:induction false} Uint64Reads(b: Slice, num: nat)
    requires FieldsFrom(b, 0).Some?
    ensures var n, f := ReadUint64(AddAll(map[], EntriesFrom(b, 0)), num), FirstKept(FieldsFrom(b, 0).value, num);
            n == if f.None? then 0
                 else if f.value.wire == 0 then f.value.varint
                 else if |f.value.bytes| == 8 then FromBigEndian(f.value.bytes)
                 else 0
  {
    ParseGroupsFields(b, num);
    var fs := FieldsFrom(b, 0).value;
    FirstIsFirst(fs, num);
    FieldsAreValid(b, 0);
    var f := FirstKept(fs, num);
    if f.Some? && f.value.wire == 0 {
      EightBytes();
      BigEndianReads(f.value.varint, 8);
    }
  }

  // ----- truncation

  lemma {:induction false} LooseStable(a: Bytes, b: Bytes, pos: nat, n: nat)
    requires Prefix(a, b) && pos + n <= |a| && n <= 10 && LooseFrom(a, pos, n).Some?
    ensures LooseFrom(b, pos, n) == LooseFrom(a, pos, n)
    decreases |a| - n
  {
    assert a[pos + n] == b[..|a|][pos + n];
    if a[pos + n] >= 128 { LooseStable(a, b, pos, n + 1); }
  }

  lemma {:induction false} TurnStable(a: Slice, b: Slice, i: nat)
    requires Prefix(a, b) && i < |a| && TurnAt(a, i).Some?
    ensures TurnAt(b, i) == TurnAt(a, i)
  {
    var k := Loose(a, i).value;
    LooseStable(a, b, i, 0);
    ValueStable(a, b, k.v / 8, k.v % 8, i + k.n);
  }

  lemma {:induction false} ValueStable(a: Slice, b: Slice, field: nat, wire: nat, p: nat)
    requires Prefix(a, b) && p <= |a| && ValueAt(a, field, wire, p).Some?
    ensures ValueAt(b, field, wire, p) == ValueAt(a, field, wire, p)
  {
    var n := Loose(a, p);
    if n.Some? {
      LooseStable(a, b, p, 0);
      var q := p + n.value.n;
      if n.value.v <= |a| - q {
        assert a[q..q + n.value.v] == b[..|a|][q..q + n.value.v] == b[q..q + n.value.v];
      }
    }
  }

  lemma {:induction false} EntriesArePrefix(a: Slice, b: Slice, i: nat)
    requires Prefix(a, b) && i <= |a|
    ensures Prefix(EntriesFrom(a, i), EntriesFrom(b, i))
    decreases |a| - i
  {
    if i < |a| && TurnAt(a, i).Some? {
      TurnStable(a, b, i);
      var t := TurnAt(a, i).value;
      EntriesArePrefix(a, b, t.end);
      PrefixUnder(t.es, EntriesFrom(a, t.end), EntriesFrom(b, t.end));
    }
  }

  lemma {:induction false} PrefixUnder<T>(x: seq<T>, a: seq<T>, b: seq<T>)
    requires Prefix(a, b)
    ensures Prefix(x + a, x + b)
  {
    assert (x + b)[..|x + a|] == x + b[..|a|];
  }

  lemma {:induction false} ValuesArePrefix(a: seq<Entry>, b: seq<Entry>, field: nat)
    requires Prefix(a, b)
    ensures Prefix(Values(a, field), Values(b, field))
    decreases |a|
  {
    if a != [] {
      assert a[0] == b[..|a|][0] && a[1..] == b[..|a|][1..] == b[1..][..|a| - 1];
      ValuesArePrefix(a[1..], b[1..], field);
      PrefixUnder(if a[0].field == field then [a[0].value] else [], Values(a[1..], field), Values(b[1..], field));
    }
  }

  /** A message cut short parses, quietly, to a prefix of what it said, field by field. */
  lemma {:induction false} TruncationIsPrefix(a: Slice, b: Slice, field: nat)
    requires Prefix(a, b)
    ensures Prefix(Get(AddAll(map[], EntriesFrom(a, 0)), field), Get(AddAll(map[], EntriesFrom(b, 0)), field))
  {
    EntriesArePrefix(a, b, 0);
    ValuesArePrefix(EntriesFrom(a, 0), EntriesFrom(b, 0), field);
    AddAllGroups(map[], EntriesFrom(a, 0), field);
    AddAllGroups(map[], EntriesFrom(b, 0), field);
  }
}
