/**
 * The names of cached proofs (internal/audit/prefetch.go:153-180): the first digits of a hash of
 * the origin, a hyphen, the epoch in decimal, and ".proof".
 */
module CacheNames {
  import opened Basics

  /** Epochs are int64 and not negative. */
  type Epoch = e: nat | e < 0x8000_0000_0000_0000

  type Origin = string

  /** A file name: split at its last hyphen, ".proof" taken off; or one not of that form. */
  datatype Name = Named(prefix: string, digits: string) | Foreign(base: string)

  /** An origin's part of the name; which one is left open. */
  type Sum = Origin -> string

  function Decimal(n: nat): (s: string)
    ensures |s| > 0
  {
    if n < 10 then [Digit(n)] else Decimal(n / 10) + [Digit(n % 10)]
  }

  function Digit(d: nat): char
    requires d < 10
  {
    '0' + d as char
  }

  function DigitValue(c: char): (d: nat)
    requires '0' <= c <= '9'
  {
    (c - '0') as nat
  }

  /** The number the digits spell, if they are digits. */
  function ParseDigits(s: string): Option<nat> {
    if s == [] then None
    else
      var c := s[|s| - 1];
      if !('0' <= c <= '9') then None
      else if |s| == 1 then Some(DigitValue(c))
      else
        var more := ParseDigits(s[..|s| - 1]);
        if more.None? then None else Some(10 * more.value + DigitValue(c))
  }

  /** ParseInt(s, 10, 64) of a string with no hyphen in it: a plus sign and zeros may lead. */
  function ParseInt(s: string): Option<Epoch> {
    var n := ParseDigits(if s != [] && s[0] == '+' then s[1..] else s);
    if n.Some? && n.value < 0x8000_0000_0000_0000 then Some(n.value) else None
  }

  function CacheKey(sum: Sum, o: Origin, e: Epoch): Name {
    Named(sum(o), Decimal(e))
  }

  datatype Id = Id(origin: Origin, epoch: Epoch)

  /** byHash: the last of the origins whose hash it is. */
  function ByHash(sum: Sum, origins: seq<Origin>, prefix: string): Option<Origin>
    decreases |origins|
  {
    if origins == [] then None
    else if sum(origins[|origins| - 1]) == prefix then Some(origins[|origins| - 1])
    else ByHash(sum, origins[..|origins| - 1], prefix)
  }

  function SplitKey(sum: Sum, origins: seq<Origin>, k: Name): Option<Id> {
    if k.Foreign? then None
    else
      var o := ByHash(sum, origins, k.prefix);
      var e := ParseInt(k.digits);
      if o.None? || e.None? then None else Some(Id(o.value, e.value))
  }

  lemma {:induction false} DecimalReads(n: nat)
    ensures ParseDigits(Decimal(n)) == Some(n)
    ensures forall i | 0 <= i < |Decimal(n)| :: '0' <= Decimal(n)[i] <= '9'
  {
    if n >= 10 {
      DecimalReads(n / 10);
      var s := Decimal(n);
      assert s[..|s| - 1] == Decimal(n / 10) && s[|s| - 1] == Digit(n % 10);
      assert forall i | 0 <= i < |s| - 1 :: s[i] == Decimal(n / 10)[i];
    }
  }

  /** The digits are decimal. */
  lemma {:induction false} DigitsAreDecimal()
    ensures Decimal(120) == "120" && ParseInt("120") == ParseInt("+120") == Some(120) && ParseInt("12a").None?
  {
    assert Decimal(12) == "12";
    assert "12"[..1] == "1" && ParseDigits("12") == Some(12);
    assert "120"[..2] == "12" && ParseDigits("120") == Some(120);
    assert "+120"[1..] == "120";
  }

  /** The origins' hashes are not shared, neither among themselves nor with another origin in use. */
  ghost predicate Apart(sum: Sum, origins: seq<Origin>, used: set<Origin>) {
    && (forall o | o in origins :: o in used)
    && forall o, q | o in origins && q in used :: sum(o) == sum(q) ==> o == q
  }

  lemma {:induction false} ByHashFinds(sum: Sum, origins: seq<Origin>, prefix: string)
    ensures match ByHash(sum, origins, prefix)
            case Some(o) => o in origins && sum(o) == prefix
            case None => forall o | o in origins :: sum(o) != prefix
    decreases |origins|
  {
    if origins != [] {
      var n := |origins| - 1;
      ByHashFinds(sum, origins[..n], prefix);
      assert origins == origins[..n] + [origins[n]];
    }
  }

  /** A proof's name splits into its origin and epoch again. */
  lemma {:induction false} KeySplits(sum: Sum, origins: seq<Origin>, used: set<Origin>, o: Origin, e: Epoch)
    requires Apart(sum, origins, used) && o in used
    ensures SplitKey(sum, origins, CacheKey(sum, o, e)) == if o in origins then Some(Id(o, e)) else None
  {
    ByHashFinds(sum, origins, sum(o));
    DecimalReads(e);
    assert Decimal(e)[0] != '+';
  }

  /** Two proofs of which one is of a known origin have different names. */
  lemma {:induction false} KeysDiffer(sum: Sum, origins: seq<Origin>, used: set<Origin>, a: Id, b: Id)
    requires Apart(sum, origins, used) && a.origin in origins && b.origin in used
    requires CacheKey(sum, a.origin, a.epoch) == CacheKey(sum, b.origin, b.epoch)
    ensures a == b
  {
    DecimalReads(a.epoch);
    DecimalReads(b.epoch);
  }

  /** A name that splits is the name of the proof it splits into, unless its digits are written
      otherwise, with a sign or with zeros in front. */
  ghost predicate Canonical(sum: Sum, origins: seq<Origin>, k: Name) {
    var id := SplitKey(sum, origins, k);
    id.Some? ==> k == CacheKey(sum, id.value.origin, id.value.epoch)
  }

  /** Such names exist: "-007.proof" splits as "-7.proof" does. */
  lemma {:induction false} AliasSplits(sum: Sum, o: Origin)
    ensures SplitKey(sum, [o], Named(sum(o), "007")) == Some(Id(o, 7))
    ensures !Canonical(sum, [o], Named(sum(o), "007"))
  {
    assert ParseDigits("0") == Some(0);
    assert "00"[..1] == "0" && ParseDigits("00") == Some(0);
    assert "007"[..2] == "00" && ParseDigits("007") == Some(7);
    assert [o][..0] == [];
    assert |Decimal(7)| == 1;
  }
}
