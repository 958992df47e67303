/** Bytes, digests and the two result types every module shares. */
module Basics {

  type byte = x: int | 0 <= x < 256

  type Bytes = seq<byte>

  /** A 32-byte hash value. */
  type Digest = d: Bytes | |d| == 32 witness seq(32, _ => 0)

  /** The hash function is a parameter everywhere: each theorem holds for every one. */
  type Hash = Bytes -> Digest

  datatype Option<+T> = None | Some(value: T)

  datatype Result<+T, +E> = Ok(value: T) | Err(error: E)

  predicate Prefix<T(==)>(p: seq<T>, q: seq<T>) {
    |p| <= |q| && q[..|p|] == p
  }

  /** x stands at offset i of b. */
  ghost predicate StandsAt(b: Bytes, i: nat, x: Bytes) {
    i + |x| <= |b| && b[i..i + |x|] == x
  }

  lemma {:induction false} PartsStand(b: Bytes, i: nat, x: Bytes, y: Bytes)
    requires StandsAt(b, i, x + y)
    ensures StandsAt(b, i, x) && StandsAt(b, i + |x|, y)
  {
    forall k | 0 <= k < |x| ensures b[i..i + |x|][k] == x[k] {
      assert b[i..i + |x + y|][k] == (x + y)[k];
    }
    forall k | 0 <= k < |y| ensures b[i + |x|..i + |x| + |y|][k] == y[k] {
      assert b[i..i + |x + y|][|x| + k] == (x + y)[|x| + k];
    }
  }

  /** The number the bytes spell, most significant first. */
  function FromBigEndian(b: Bytes): nat {
    if b == [] then 0 else 256 * FromBigEndian(b[..|b| - 1]) + b[|b| - 1]
  }

  /** s with its i-th element taken out. */
  function Without<T>(s: seq<T>, i: nat): (t: seq<T>)
    requires i < |s|
    ensures |t| == |s| - 1
    ensures forall k | 0 <= k < |t| :: t[k] == s[if k < i then k else k + 1]
  {
    s[..i] + s[i + 1..]
  }

  function Min(a: int, b: int): int {
    if a < b then a else b
  }

  function Max(a: int, b: int): int {
    if a < b then b else a
  }

  function Smaller(a: real, b: real): real {
    if a < b then a else b
  }
}
