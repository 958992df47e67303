/**
 * Base 128 varints of the Protocol Buffers encoding, read four ways: Go's binary.Uvarint, and the
 * strict and lenient readers and the writer of internal/pbwire/pbwire.go:71-83, 186-210.
 */
module Varint {
  import opened Basics

  const TWO_64: nat := 0x1_0000_0000_0000_0000

  type Uint64 = n: nat | n < 0x1_0000_0000_0000_0000

  /** What reading a varint yields: its value and length, or that the input ended inside it, or
      that it does not fit 64 bits. */
  datatype Varint = Value(v: nat, n: nat) | Short | Overlong

  /** binary.Uvarint on the bytes of b from pos on, when i of its bytes have been read: the value
      of the rest, and the length of the whole. */
  function ReadFrom(b: Bytes, pos: nat, i: nat): (r: Varint)
    requires pos + i <= |b| && i <= 10
    ensures r.Value? ==> i < r.n <= 10 && pos + r.n <= |b|
    decreases |b| - i
  {
    if pos + i == |b| then Short
    else if i == 10 then Overlong
    else if b[pos + i] < 128 then
      if i == 9 && b[pos + i] > 1 then Overlong else Value(b[pos + i], i + 1)
    else
      var d := ReadFrom(b, pos, i + 1);
      if d.Value? then Value(b[pos + i] - 128 + 128 * d.v, d.n) else d
  }

  /** binary.Uvarint(b[pos:]). */
  function Read(b: Bytes, pos: nat): (r: Varint)
    requires pos <= |b|
    ensures r.Value? ==> 0 < r.n <= 10 && pos + r.n <= |b|
  {
    ReadFrom(b, pos, 0)
  }

  /** The encoding's own example: 150 is written 96 01. */
  lemma {:induction false} OneHundredAndFifty()
    ensures Read([0x96, 0x01], 0) == Value(150, 2) && VarintBytes(150) == [0x96, 0x01]
  {
    assert ReadFrom([0x96, 0x01], 0, 1) == Value(1, 2);
    assert VarintBytes(1) == [1];
  }

  // ----- values fit 64 bits

  /** The values byte i and those after it can still contribute: 2 to the power 64-7i. */
  function Room(i: nat): nat
    requires i <= 9
    decreases 9 - i
  {
    if i == 9 then 2 else 128 * Room(i + 1)
  }

  lemma {:induction false} RoomAtStart()
    ensures Room(0) == TWO_64
  {
    assert Room(8) == 128 * Room(9);
    assert Room(6) == 128 * 128 * Room(8);
    assert Room(4) == 128 * 128 * Room(6);
    assert Room(2) == 128 * 128 * Room(4);
    assert Room(0) == 128 * 128 * Room(2);
  }

  lemma {:induction false} RoomLeast(i: nat)
    requires i <= 9
    ensures Room(i) >= 2 && (i < 9 ==> Room(i) >= 128)
    decreases 9 - i
  {
    if i < 9 { RoomLeast(i + 1); }
  }

  lemma {:induction false} FitsFrom(b: Bytes, pos: nat, i: nat)
    requires pos + i <= |b| && i <= 10 && ReadFrom(b, pos, i).Value?
    ensures i <= 9 && ReadFrom(b, pos, i).v < Room(i)
    decreases |b| - i
  {
    if i < 10 { RoomLeast(i); }
    if b[pos + i] >= 128 { FitsFrom(b, pos, i + 1); }
  }

  /** A varint that is read is a 64-bit number. */
  lemma {:induction false} ReadFits(b: Bytes, pos: nat)
    requires pos <= |b| && Read(b, pos).Value?
    ensures Read(b, pos).v < TWO_64
  {
    FitsFrom(b, pos, 0);
    RoomAtStart();
  }

  // ----- which bytes matter

  /** The bytes of a from p on and those of b from q on are the same, as far as both go on. */
  ghost predicate SameFrom(a: Bytes, p: nat, b: Bytes, q: nat, n: nat)
    requires p + n <= |a| && q + n <= |b|
  {
    forall j | p <= j < p + n :: a[j] == b[q + (j - p)]
  }

  /** A varint that was complete or too long reads the same wherever those bytes stand and
      whatever follows them. */
  lemma {:induction false} ReadMoves(a: Bytes, p: nat, b: Bytes, q: nat, n: nat, i: nat)
    requires p + n <= |a| && q + n <= |b| && SameFrom(a, p, b, q, n) && i <= n && i <= 10
    requires match ReadFrom(a, p, i)
             case Value(_, m) => m <= n
             case Overlong => p + n == |a|
             case Short => p + n == |a| && q + n == |b|
    ensures ReadFrom(b, q, i) == ReadFrom(a, p, i)
    decreases |a| - i
  {
    if i < n {
      assert a[p + i] == b[q + i];
      if i < 10 && a[p + i] >= 128 { ReadMoves(a, p, b, q, n, i + 1); }
    }
  }

  lemma {:induction false} ReadStable(a: Bytes, b: Bytes, pos: nat)
    requires Prefix(a, b) && pos <= |a| && !Read(a, pos).Short?
    ensures Read(b, pos) == Read(a, pos)
  {
    assert forall k | 0 <= k < |a| :: a[k] == b[..|a|][k] == b[k];
    ReadMoves(a, pos, b, pos, |a| - pos, 0);
  }

  // ----- writing

  /** The shortest varint of v. */
  function VarintBytes(v: nat): (b: Bytes)
    ensures |b| >= 1
  {
    if v < 128 then [v] else [v % 128 + 128] + VarintBytes(v / 128)
  }

  method AppendVarint(b: Bytes, v: Uint64) returns (r: Bytes)
    ensures r == b + VarintBytes(v)
  {
    var w: nat := v;
    r := b;
    while true
      invariant r + VarintBytes(w) == b + VarintBytes(v)
      decreases w
    {
      var c := w % 128;
      ghost var rest := VarintBytes(w);
      w := w / 128;
      if w != 0 { c := c + 128; }
      assert rest == if w == 0 then [c] else [c] + VarintBytes(w);
      r := r + [c];
      if w == 0 {
        return;
      }
    }
  }

  lemma {:induction false} ReadWritten(b: Bytes, pos: nat, v: nat, i: nat)
    requires i <= 9 && v < Room(i) && pos + i + |VarintBytes(v)| <= |b|
    requires b[pos + i..pos + i + |VarintBytes(v)|] == VarintBytes(v)
    ensures ReadFrom(b, pos, i) == Value(v, i + |VarintBytes(v)|)
    decreases 9 - i
  {
    var w := b[pos + i..pos + i + |VarintBytes(v)|];
    assert b[pos + i] == w[0];
    if v >= 128 {
      assert i < 9;
      assert b[pos + i + 1..pos + i + |VarintBytes(v)|] == w[1..] == VarintBytes(v / 128);
      ReadWritten(b, pos, v / 128, i + 1);
    }
  }

  /** Reading undoes writing, wherever the bytes stand and whatever follows. */
  lemma {:induction false} VarintRoundTrip(b: Bytes, pos: nat, v: Uint64)
    requires pos + |VarintBytes(v)| <= |b| && b[pos..pos + |VarintBytes(v)|] == VarintBytes(v)
    ensures Read(b, pos) == Value(v, |VarintBytes(v)|)
  {
    RoomAtStart();
    ReadWritten(b, pos, v, 0);
  }
}
