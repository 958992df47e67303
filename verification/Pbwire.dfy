/**
 * The general Protocol Buffers reader of internal/pbwire/pbwire.go: a strict parser and a lenient
 * one, each with its own varint reader.
 */
module Pbwire {
  import opened Basics
  import opened Varint

  /** A slice's length is an int. */
  type Slice = b: Bytes | |b| < 0x8000_0000_0000_0000 witness []

  // ----- varints

  function Place(n: nat): nat
    decreases n
  {
    if n == 0 then 1 else 128 * Place(n - 1)
  }

  /** A number moved up n digits. */
  function Scaled(n: nat, w: nat): nat {
    w * Place(n)
  }

  lemma {:induction false} Spread(n: nat, x: nat, d: nat)
    ensures Scaled(n, x + 128 * d) == Scaled(n, x) + Scaled(n + 1, d)
  {
    var p := Place(n);
    assert (x + 128 * d) * p == x * p + d * (128 * p);
  }

  lemma {:induction false} Under(v: nat, x: nat, p: nat)
    requires v < p && x < 128
    ensures v + x * p < 128 * p
  {
    assert x * p <= 127 * p;
  }

  /** v is the sum of the first n digits of the varint at i. */
  ghost predicate ReadSoFar(b: Bytes, i: nat, n: nat, v: nat)
    requires i + n <= |b| && n <= 10
  {
    match ReadFrom(b, i, n)
    case Value(w, m) => Read(b, i) == Value(v + Scaled(n, w), m)
    case _ => !Read(b, i).Value?
  }

  lemma {:induction false} ReadTurn(b: Bytes, i: nat, n: nat, v: nat)
    requires i + n < |b| && n < 10 && ReadSoFar(b, i, n, v)
    ensures var x := b[i + n];
            if n == 9 && x > 1 then !Read(b, i).Value?
            else if x < 128 then Read(b, i) == Value(v + Scaled(n, x), n + 1)
            else ReadSoFar(b, i, n + 1, v + Scaled(n, x % 128))
  {
    var x, d := b[i + n], ReadFrom(b, i, n + 1);
    if x >= 128 && d.Value? {
      assert ReadFrom(b, i, n) == Value(x % 128 + 128 * d.v, d.n);
      Spread(n, x % 128, d.v);
    }
  }

  /** strictUvarint. The bits or-ed in are above those already there, so or is plus. */
  method StrictUvarint(b: Bytes, i: nat) returns (r: Option<nat>, next: nat)
    requires i <= |b|
    ensures match Read(b, i)
            case Value(v, n) => r == Some(v) && next == i + n
            case _ => r == None
  {
    var v: nat, n: nat, place: nat := 0, 0, 1;
    next := i;
    while n < 10
      invariant n <= 10 && next == i + n <= |b| && place == Place(n) && v < place && ReadSoFar(b, i, n, v)
      invariant n == 10 ==> !Read(b, i).Value?
    {
      if next >= |b| {
        return None, next;
      }
      var x: nat := b[next];
      ReadTurn(b, i, n, v);
      Under(v, x % 128, place);
      next := next + 1;
      if n == 9 && x > 1 {
        return None, next;
      }
      v := v + x % 128 * place;
      if x < 128 {
        return Some(v), next;
      }
      place := 128 * place;
      n := n + 1;
    }
    return None, next;
  }

  /** A number and the offset after it. */
  datatype Number = Number(v: nat, n: nat)

  /** The lenient reader on the digits of the varint at pos from the n-th on. Of the tenth only the
      lowest bit is kept, as the rest are shifted out of 64. */
  function LooseFrom(b: Bytes, pos: nat, n: nat): (r: Option<Number>)
    requires pos + n <= |b| && n <= 10
    ensures r.Some? ==> n < r.value.n <= 10 && pos + r.value.n <= |b|
    decreases |b| - n
  {
    if pos + n == |b| || n == 10 then None
    else
      var x := b[pos + n];
      var digit := if n == 9 then x % 2 else x % 128;
      if x < 128 then Some(Number(digit, n + 1))
      else
        var d := LooseFrom(b, pos, n + 1);
        if d.None? then None else Some(Number(digit + 128 * d.value.v, d.value.n))
  }

  function Loose(b: Bytes, pos: nat): (r: Option<Number>)
    requires pos <= |b|
    ensures r.Some? ==> 0 < r.value.n <= 10 && pos + r.value.n <= |b|
  {
    LooseFrom(b, pos, 0)
  }

  /** What uvarint adds to its accumulator for the n-th byte: the digit shifted, cut to 64 bits. */
  function Shifted(x: byte, n: nat): nat {
    x % 128 * Place(n) % TWO_64
  }

  lemma {:induction false} PlaceIs(n: nat)
    requires n <= 9
    ensures 0 < Place(n)
    ensures n < 9 ==> 128 * Place(n) <= 0x8000_0000_0000_0000
    ensures n == 9 ==> Place(n) == 0x8000_0000_0000_0000
  {
    assert Place(1) == 128 && Place(2) == 0x4000 && Place(4) == 0x1000_0000;
    assert Place(6) == 128 * 128 * Place(4) && Place(8) == 128 * 128 * Place(6);
  }

  lemma {:induction false} ShiftedIs(x: byte, n: nat)
    requires n <= 9
    ensures Shifted(x, n) == Scaled(n, if n == 9 then x % 2 else x % 128)
  {
    PlaceIs(n);
    if n < 9 {
      Under(0, x % 128, Place(n));
    }
  }

  ghost predicate LooseSoFar(b: Bytes, i: nat, n: nat, v: nat)
    requires i + n <= |b| && n <= 10
  {
    var d := LooseFrom(b, i, n);
    Loose(b, i) == if d.None? then None else Some(Number(v + Scaled(n, d.value.v), d.value.n))
  }

  lemma {:induction false} LooseTurn(b: Bytes, i: nat, n: nat, v: nat)
    requires i + n < |b| && n < 10 && LooseSoFar(b, i, n, v)
    ensures var x := b[i + n];
            if x < 128 then Loose(b, i) == Some(Number(v + Shifted(x, n), n + 1))
            else LooseSoFar(b, i, n + 1, v + Shifted(x, n))
  {
    var x, d := b[i + n], LooseFrom(b, i, n + 1);
    ShiftedIs(x, n);
    if x >= 128 && d.Some? {
      assert n < 9;
      assert LooseFrom(b, i, n) == Some(Number(x % 128 + 128 * d.value.v, d.value.n));
      Spread(n, x % 128, d.value.v);
    }
  }

  /** uvarint. */
  method Uvarint(b: Bytes, i: nat) returns (r: Option<nat>, next: nat)
    requires i <= |b|
    ensures match Loose(b, i)
            case Some(d) => r == Some(d.v) && next == i + d.n
            case None => r == None
  {
    var s: nat, sh: nat := 0, 0;
    ghost var n: nat := 0;
    next := i;
    while true
      invariant sh == 7 * n && n <= 10 && next == i + n <= |b| && LooseSoFar(b, i, n, s)
      invariant n < 10 ==> s < Place(n)
      decreases 10 - n
    {
      if next >= |b| || sh > 63 {
        return None, next;
      }
      var x := b[next];
      LooseTurn(b, i, n, s);
      ShiftedIs(x, n);
      Under(s, x % 128, Place(n));
      next := next + 1;
      s := s + Shifted(x, sh / 7);
      if x < 128 {
        return Some(s), next;
      }
      sh := sh + 7;
      n := n + 1;
    }
  }

  /** The two readers agree on everything the strict one accepts. The lenient one accepts more: the
      ten-byte varints whose last byte is from 2 to 127, whose upper bits it drops. */
  lemma {:induction false} LooseFromStrict(b: Bytes, pos: nat, n: nat)
    requires pos + n <= |b| && n <= 10
    ensures var s, l := ReadFrom(b, pos, n), LooseFrom(b, pos, n);
            && (s.Value? ==> l == Some(Number(s.v, s.n)))
            && (l.Some? && !s.Value? <==>
                n <= 9 && pos + 10 <= |b| && (forall q | pos + n <= q < pos + 9 :: b[q] >= 128)
                && 2 <= b[pos + 9] < 128)
    decreases |b| - n
  {
    if n <= 9 && pos + n < |b| && b[pos + n] >= 128 {
      LooseFromStrict(b, pos, n + 1);
    }
  }

  lemma {:induction false} LooseIsStrict(b: Bytes, pos: nat)
    requires pos <= |b|
    ensures var s, l := Read(b, pos), Loose(b, pos);
            && (s.Value? ==> l == Some(Number(s.v, s.n)))
            && (l.Some? && !s.Value? <==>
                pos + 10 <= |b| && (forall q | pos <= q < pos + 9 :: b[q] >= 128) && 2 <= b[pos + 9] < 128)
  {
    LooseFromStrict(b, pos, 0);
  }
}
