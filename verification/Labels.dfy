/**
 * 256-bit node labels read most significant bit first (internal/akdtree/verify.go:162-234).
 */
module Labels {
  import opened Basics

  type Label = l: Bytes | |l| == 32 witness seq(32, _ => 0)

  /** Bit j of a byte, most significant first: the source's shift right by 7-j, masked. */
  function BitOf(b: byte, j: nat): bool
    requires j < 8
  {
    match j
    case 0 => b / 128 % 2 == 1
    case 1 => b / 64 % 2 == 1
    case 2 => b / 32 % 2 == 1
    case 3 => b / 16 % 2 == 1
    case 4 => b / 8 % 2 == 1
    case 5 => b / 4 % 2 == 1
    case 6 => b / 2 % 2 == 1
    case _ => b % 2 == 1
  }

  function TestBit(b: byte, j: nat): bool
    requires j < 8
    decreases 7 - j
  {
    if j == 7 then b % 2 == 1 else TestBit(b / 2, j + 1)
  }

  /** Bit i of a string of bytes. */
  function BitAt(s: Bytes, i: nat): bool
    requires i < 8 * |s|
    decreases i
  {
    if i < 8 then TestBit(s[0], i) else BitAt(s[1..], i - 8)
  }

  lemma {:induction false} TestBitIsShift(b: byte, j: nat)
    requires j < 8
    ensures TestBit(b, j) == BitOf(b, j)
    decreases 7 - j
  {
    if j < 7 {
      TestBitIsShift(b / 2, j + 1);
      HalveBit(b, j);
    }
  }

  lemma {:induction false} HalveBit(b: byte, j: nat)
    requires j < 7
    ensures BitOf(b / 2, j + 1) == BitOf(b, j)
  {
  }

  /** The source's reading of bit i: byte i/8, shifted right by 7-i%8, masked to one bit. */
  lemma {:induction false} BitAtIsShift(s: Bytes, i: nat)
    requires i < 8 * |s|
    ensures BitAt(s, i) == BitOf(s[i / 8], i % 8)
    decreases i
  {
    if i < 8 {
      TestBitIsShift(s[0], i);
    } else {
      BitAtIsShift(s[1..], i - 8);
      assert (i - 8) / 8 == i / 8 - 1 && (i - 8) % 8 == i % 8;
    }
  }

  /** The first k bits of a and b are the same. */
  ghost predicate Agree(a: Label, b: Label, k: nat)
    requires k <= 256
  {
    forall i | 0 <= i < k :: BitAt(a, i) == BitAt(b, i)
  }

  /** The number of leading bits a and b share, counting at most limit of them. */
  function SharedBits(a: Label, b: Label, limit: nat): (k: nat)
    requires limit <= 256
    ensures k <= limit && Agree(a, b, k)
    ensures k < limit ==> BitAt(a, k) != BitAt(b, k)
  {
    SharedFrom(a, b, limit, 0)
  }

  function SharedFrom(a: Label, b: Label, limit: nat, i: nat): (k: nat)
    requires i <= limit <= 256 && Agree(a, b, i)
    ensures i <= k <= limit && Agree(a, b, k)
    ensures k < limit ==> BitAt(a, k) != BitAt(b, k)
    decreases limit - i, a
  {
    if i == limit || BitAt(a, i) != BitAt(b, i) then i else SharedFrom(a, b, limit, i + 1)
  }

  /** Being the length of the shared part determines a number. */
  lemma {:induction false} SharedBitsUnique(a: Label, b: Label, limit: nat, k: nat)
    requires k <= limit <= 256 && Agree(a, b, k)
    requires k < limit ==> BitAt(a, k) != BitAt(b, k)
    ensures SharedBits(a, b, limit) == k
  {
    var s := SharedBits(a, b, limit);
  }

  /** bytes.Compare on two labels, from byte i on. */
  function CompareFrom(a: Label, b: Label, i: nat): int
    requires i <= 32
    decreases |a| - i
  {
    if i == 32 then 0
    else if a[i] < b[i] then -1
    else if a[i] > b[i] then 1
    else CompareFrom(a, b, i + 1)
  }

  function Compare(a: Label, b: Label): int {
    CompareFrom(a, b, 0)
  }

  // ----- byte order is bit order

  /** The top j+1 bits of a byte. */
  function Top(x: byte, j: nat): nat
    requires j < 8
  {
    match j
    case 0 => x / 128
    case 1 => x / 64
    case 2 => x / 32
    case 3 => x / 16
    case 4 => x / 8
    case 5 => x / 4
    case 6 => x / 2
    case _ => x
  }

  lemma {:induction false} TopStep(x: byte, j: nat)
    requires 0 < j < 8
    ensures Top(x, j) == 2 * Top(x, j - 1) + (if BitOf(x, j) then 1 else 0)
  {
    if j < 4 { TopStepHigh(x, j); } else { TopStepLow(x, j); }
  }

  lemma {:induction false} TopStepHigh(x: byte, j: nat)
    requires 0 < j < 4
    ensures Top(x, j) == 2 * Top(x, j - 1) + (if BitOf(x, j) then 1 else 0)
  {
    match j
    case 1 => assert x / 64 == 2 * (x / 128) + x / 64 % 2;
    case 2 => assert x / 32 == 2 * (x / 64) + x / 32 % 2;
    case 3 => assert x / 16 == 2 * (x / 32) + x / 16 % 2;
  }

  lemma {:induction false} TopStepLow(x: byte, j: nat)
    requires 4 <= j < 8
    ensures Top(x, j) == 2 * Top(x, j - 1) + (if BitOf(x, j) then 1 else 0)
  {
    match j
    case 4 => assert x / 8 == 2 * (x / 16) + x / 8 % 2;
    case 5 => assert x / 4 == 2 * (x / 8) + x / 4 % 2;
    case 6 => assert x / 2 == 2 * (x / 4) + x / 2 % 2;
    case 7 => assert x == 2 * (x / 2) + x % 2;
  }

  /** The smaller of two bytes has a 0 at the first bit, up to bit n, where they differ. */
  lemma {:induction false} ByteOrder(x: byte, y: byte, n: nat) returns (j: nat)
    requires n < 8 && Top(x, n) < Top(y, n)
    ensures j < 8 && !BitOf(x, j) && BitOf(y, j)
    ensures forall m | 0 <= m < j :: BitOf(x, m) == BitOf(y, m)
    ensures j <= n
  {
    if n == 0 {
      j := 0;
    } else {
      TopStep(x, n);
      TopStep(y, n);
      if Top(x, n - 1) < Top(y, n - 1) {
        j := ByteOrder(x, y, n - 1);
      } else {
        TopEqual(x, y, n - 1);
        j := n;
      }
    }
  }

  lemma {:induction false} TopEqual(x: byte, y: byte, n: nat)
    requires n < 8 && Top(x, n) == Top(y, n)
    ensures forall m | 0 <= m <= n :: BitOf(x, m) == BitOf(y, m)
  {
    if n > 0 {
      TopStep(x, n);
      TopStep(y, n);
      TopEqual(x, y, n - 1);
    }
  }

  lemma {:induction false} EqualBytesFrom(a: Label, b: Label, i: nat)
    requires i <= 32 && CompareFrom(a, b, i) == 0
    ensures a[i..] == b[i..]
    decreases 32 - i
  {
    if i < 32 {
      EqualBytesFrom(a, b, i + 1);
      assert a[i..] == [a[i]] + a[i + 1..] && b[i..] == [b[i]] + b[i + 1..];
    }
  }

  /** Where bytes.Compare finds its first different byte. */
  lemma {:induction false} DifferentByte(a: Label, b: Label, i: nat) returns (n: nat)
    requires i <= 32 && CompareFrom(a, b, i) != 0
    requires a[..i] == b[..i]
    ensures n < 32 && a[..n] == b[..n]
    ensures if CompareFrom(a, b, i) < 0 then a[n] < b[n] else b[n] < a[n]
    decreases 32 - i
  {
    if a[i] != b[i] {
      n := i;
    } else {
      assert a[..i + 1] == a[..i] + [a[i]] && b[..i + 1] == b[..i] + [b[i]];
      n := DifferentByte(a, b, i + 1);
    }
  }

  lemma {:induction false} EqualByteBits(a: Label, b: Label, n: nat)
    requires n <= 32 && a[..n] == b[..n]
    ensures Agree(a, b, 8 * n)
  {
    forall i | 0 <= i < 8 * n ensures BitAt(a, i) == BitAt(b, i) {
      BitAtIsShift(a, i);
      BitAtIsShift(b, i);
      assert a[i / 8] == a[..n][i / 8] && b[i / 8] == b[..n][i / 8];
    }
  }

  /** A smaller label has a 0 where the two first differ. */
  lemma {:induction false} SmallerHasZero(a: Label, b: Label) returns (k: nat)
    requires Compare(a, b) < 0
    ensures k < 256 && Agree(a, b, k) && !BitAt(a, k) && BitAt(b, k)
  {
    var n := DifferentByte(a, b, 0);
    var j := ByteOrder(a[n], b[n], 7);
    EqualByteBits(a, b, n);
    k := 8 * n + j;
    assert k / 8 == n && k % 8 == j;
    BitAtIsShift(a, k);
    BitAtIsShift(b, k);
    forall i | 0 <= i < k ensures BitAt(a, i) == BitAt(b, i) {
      if 8 * n <= i {
        BitAtIsShift(a, i);
        BitAtIsShift(b, i);
        assert i / 8 == n && i % 8 == i - 8 * n;
      }
    }
  }

  lemma {:induction false} CompareFlips(a: Label, b: Label, i: nat)
    requires i <= 32
    ensures CompareFrom(a, b, i) == -CompareFrom(b, a, i)
    decreases 32 - i
  {
    if i < 32 { CompareFlips(a, b, i + 1); }
  }

  lemma {:induction false} SameLabel(a: Label, b: Label)
    ensures Compare(a, b) == 0 <==> a == b
    ensures a == b <==> Agree(a, b, 256)
  {
    if Compare(a, b) == 0 {
      EqualBytesFrom(a, b, 0);
      assert a == a[0..] == b[0..] == b;
    } else if Compare(a, b) < 0 {
      var k := SmallerHasZero(a, b);
    } else {
      CompareFlips(a, b, 0);
      var k := SmallerHasZero(b, a);
    }
    CompareFlips(a, b, 0);
  }

  /** Byte order decided by the first different bit: what makes sorting by bytes sorting by path. */
  lemma {:induction false} OrderByBits(a: Label, b: Label)
    ensures var k := SharedBits(a, b, 256);
            && (Compare(a, b) == 0 <==> k == 256)
            && (Compare(a, b) < 0 <==> k < 256 && !BitAt(a, k))
            && (Compare(a, b) > 0 <==> k < 256 && BitAt(a, k))
  {
    SameLabel(a, b);
    if Compare(a, b) < 0 {
      var k := SmallerHasZero(a, b);
      SharedBitsUnique(a, b, 256, k);
    } else if Compare(a, b) > 0 {
      CompareFlips(a, b, 0);
      var k := SmallerHasZero(b, a);
      SharedBitsUnique(a, b, 256, k);
    } else {
      SharedBitsUnique(a, b, 256, 256);
    }
  }

  /** Between two labels sharing k bits, every label shares them. */
  lemma {:induction false} Between(a: Label, b: Label, c: Label, k: nat)
    requires k <= 256 && Agree(a, c, k)
    requires Compare(a, b) <= 0 && Compare(b, c) <= 0
    ensures Agree(a, b, k)
  {
    OrderByBits(a, b);
    OrderByBits(b, c);
    var m := SharedBits(a, b, 256);
    var n := SharedBits(b, c, 256);
  }

  /** Among labels sharing k bits, bit k never goes back from 1 to 0. */
  lemma {:induction false} BitRises(a: Label, b: Label, k: nat)
    requires k < 256 && Agree(a, b, k) && Compare(a, b) <= 0
    ensures BitAt(a, k) ==> BitAt(b, k)
  {
    OrderByBits(a, b);
    if BitAt(a, k) && !BitAt(b, k) {
      SharedBitsUnique(a, b, 256, k);
    }
  }

  lemma {:induction false} TransitiveFrom(a: Label, b: Label, c: Label, i: nat)
    requires i <= 32 && CompareFrom(a, b, i) <= 0 && CompareFrom(b, c, i) <= 0
    ensures CompareFrom(a, c, i) <= 0
    ensures CompareFrom(a, b, i) < 0 || CompareFrom(b, c, i) < 0 ==> CompareFrom(a, c, i) < 0
    decreases 32 - i
  {
    if i < 32 && a[i] == b[i] == c[i] { TransitiveFrom(a, b, c, i + 1); }
  }

  lemma {:induction false} CompareTransitive(a: Label, b: Label, c: Label)
    requires Compare(a, b) <= 0 && Compare(b, c) <= 0
    ensures Compare(a, c) <= 0
    ensures Compare(a, b) < 0 || Compare(b, c) < 0 ==> Compare(a, c) < 0
  {
    TransitiveFrom(a, b, c, 0);
  }

  // ----- truncation

  /** A byte with every bit after bit r cleared: the source's shift down and back up. */
  function KeepTop(b: byte, r: nat): byte
    requires r < 8
  {
    match r
    case 0 => b / 128 * 128
    case 1 => b / 64 * 64
    case 2 => b / 32 * 32
    case 3 => b / 16 * 16
    case 4 => b / 8 * 8
    case 5 => b / 4 * 4
    case 6 => b / 2 * 2
    case _ => b
  }

  /** n copies of b. */
  function Repeat(b: byte, n: nat): (s: Bytes)
    ensures |s| == n && forall i | 0 <= i < n :: s[i] == b
  {
    seq(n, _ => b)
  }

  function PrefixOf(path: Label, l: nat): Label {
    if l >= 256 then path
    else if l == 0 then Repeat(0, 32)
    else
      var last, rem := (l - 1) / 8, (l - 1) % 8;
      path[..last] + [KeepTop(path[last], rem)] + Repeat(0, 31 - last)
  }

  /** Every bit from k on is 0. */
  ghost predicate ZeroTail(l: Label, k: nat) {
    forall i | k <= i < 256 :: !BitAt(l, i)
  }

  function Weight(j: nat): nat
    requires j < 8
  {
    match j
    case 0 => 128
    case 1 => 64
    case 2 => 32
    case 3 => 16
    case 4 => 8
    case 5 => 4
    case 6 => 2
    case _ => 1
  }

  lemma {:induction false} KeepStep(x: byte, j: nat)
    requires 0 < j < 8
    ensures KeepTop(x, j) == KeepTop(x, j - 1) + (if BitOf(x, j) then Weight(j) else 0) <= x
  {
    TopStep(x, j);
    match j
    case 1 =>
    case 2 =>
    case 3 =>
    case 4 =>
    case 5 =>
    case 6 =>
    case _ =>
  }

  lemma {:induction false} KeepTwice(b: byte, r: nat)
    requires r < 8
    ensures KeepTop(KeepTop(b, r), r) == KeepTop(b, r) && Top(KeepTop(b, r), r) == Top(b, r)
  {
    var q := Top(b, r);
    match r
    case 0 => assert q * 128 / 128 == q;
    case 1 => assert q * 64 / 64 == q;
    case 2 => assert q * 32 / 32 == q;
    case 3 => assert q * 16 / 16 == q;
    case 4 => assert q * 8 / 8 == q;
    case 5 => assert q * 4 / 4 == q;
    case 6 => assert q * 2 / 2 == q;
    case _ =>
  }

  lemma {:induction false} LowBitsClear(c: byte, r: nat, m: nat)
    requires r < m < 8 && KeepTop(c, r) == c
    ensures !BitOf(c, m) && KeepTop(c, m) == c
  {
    if r + 1 < m { LowBitsClear(c, r, m - 1); }
    KeepStep(c, m);
  }

  lemma {:induction false} KeepTopBits(b: byte, r: nat, m: nat)
    requires r < 8 && m < 8
    ensures BitOf(KeepTop(b, r), m) == (m <= r && BitOf(b, m))
  {
    KeepTwice(b, r);
    if m <= r {
      TopEqual(b, KeepTop(b, r), r);
    } else {
      LowBitsClear(KeepTop(b, r), r, m);
    }
  }

  /** Truncating keeps the first l bits and clears the rest. */
  lemma {:induction false} PrefixOfBits(path: Label, l: nat)
    requires l <= 256
    ensures Agree(PrefixOf(path, l), path, l)
    ensures ZeroTail(PrefixOf(path, l), l)
  {
    forall i | 0 <= i < 256 ensures BitAt(PrefixOf(path, l), i) == (i < l && BitAt(path, i)) {
      BitAtIsShift(PrefixOf(path, l), i);
      BitAtIsShift(path, i);
      if 0 < l < 256 && i / 8 == (l - 1) / 8 {
        KeepTopBits(path[i / 8], (l - 1) % 8, i % 8);
      }
    }
  }

  /** A label is fixed by its first k bits once the rest are 0. */
  lemma {:induction false} ZeroTailUnique(a: Label, b: Label, k: nat)
    requires k <= 256 && Agree(a, b, k) && ZeroTail(a, k) && ZeroTail(b, k)
    ensures a == b
  {
    SameLabel(a, b);
  }
}
