/**
 * Exactly which sorted arrays Root rejects, with which error, and how deep it recurses
 * (internal/akdtree/verify.go:241-314).
 */
module Rejection {
  import opened Basics
  import opened Labels
  import opened AkdTree
  import opened Trie

  /** Of two elements in order whose labels share at least one bit, the earlier reaches past
      the shared bits and the later at least to their end. */
  ghost predicate Apart(a: Element, b: Element) {
    var n := SharedBits(a.path, b.path, 256);
    n == 0 || (n < a.len && n <= b.len)
  }

  ghost predicate AllApart(s: seq<Element>) {
    forall i, j | 0 <= i < j < |s| :: Apart(s[i], s[j])
  }

  lemma {:induction false} HalvesApart(s: seq<Element>, k: nat)
    requires k <= |s| && AllApart(s[..k]) && AllApart(s[k..])
    requires forall i, j | 0 <= i < k <= j < |s| :: Apart(s[i], s[j])
    ensures AllApart(s)
  {
    forall i, j | 0 <= i < j < |s| ensures Apart(s[i], s[j]) {
      if j < k { assert s[..k][i] == s[i] && s[..k][j] == s[j]; }
      if k <= i { assert s[k..][i - k] == s[i] && s[k..][j - k] == s[j]; }
    }
  }

  lemma {:induction false} ApartHalves(s: seq<Element>, k: nat)
    requires k <= |s| && AllApart(s)
    ensures AllApart(s[..k]) && AllApart(s[k..])
  {
  }

  /** Elements on the two sides of a split share exactly the bits before it. */
  lemma {:induction false} AcrossSplit(s: seq<Element>, k: nat, n: nat, i: nat, j: nat)
    requires k <= |s| && n < 256 && i < k <= j < |s|
    requires Under(s[..k], s[0].path, n, false) && Under(s[k..], s[0].path, n, true)
    ensures SharedBits(s[i].path, s[j].path, 256) == n
  {
    assert s[..k][i] == s[i] && s[k..][j - k] == s[j];
    SharedBitsUnique(s[i].path, s[j].path, 256, n);
  }

  /** Every element reaches depth n, those before k past it. */
  ghost predicate Reach(s: seq<Element>, k: nat, n: nat) {
    forall i | 0 <= i < |s| :: n <= s[i].len && (i < k ==> n < s[i].len)
  }

  lemma {:induction false} SplitReaches(s: seq<Element>, k: nat, n: nat)
    requires 0 < k < |s| && n < s[0].len && n <= s[|s| - 1].len
    requires (k >= 2 ==> Reach(s[..k], 0, n + 1)) && (|s| - k >= 2 ==> Reach(s[k..], 0, n + 1))
    ensures Reach(s, k, n)
  {
    forall i | 0 <= i < |s| ensures n <= s[i].len && (i < k ==> n < s[i].len) {
      if i < k { assert s[..k][i] == s[i]; } else { assert s[k..][i - k] == s[i]; }
    }
  }

  lemma {:induction false} SplitIsApart(s: seq<Element>, k: nat, n: nat)
    requires 0 < k < |s| && n < 256 && Reach(s, k, n) && AllApart(s[..k]) && AllApart(s[k..])
    requires Under(s[..k], s[0].path, n, false) && Under(s[k..], s[0].path, n, true)
    ensures AllApart(s)
  {
    forall i, j | 0 <= i < k <= j < |s| ensures Apart(s[i], s[j]) {
      AcrossSplit(s, k, n, i, j);
    }
    HalvesApart(s, k);
  }

  /** A range that builds has no two elements too close, */
  lemma {:induction false} BuiltIsApart(s: seq<Element>, d: nat, t: Tree)
    requires |s| > 0 && d <= 256 && Sorted(s) && Share(s, d) && Shape(s) == Ok(t)
    ensures AllApart(s) && (|s| >= 2 ==> Reach(s, 0, d))
    decreases |s|
  {
    if |s| >= 2 {
      var n, k := SplitFacts(s, d, t);
      BuiltIsApart(s[..k], n + 1, t.left);
      BuiltIsApart(s[k..], n + 1, t.right);
      SplitReaches(s, k, n);
      SplitIsApart(s, k, n);
    }
  }

  /** The ends of a range of two or more elements that are apart split it. */
  lemma {:induction false} ApartEnds(s: seq<Element>, d: nat) returns (n: nat, k: nat)
    requires |s| >= 2 && 0 < d <= 256 && Sorted(s) && Share(s, d) && AllApart(s)
    ensures d <= n < 256 && n == CommonPrefixLen(s[0], s[|s| - 1]) < s[0].len
    ensures k == Search(s, n, 0, |s|) && 0 < k < |s|
    ensures Share(s[..k], n + 1) && Share(s[k..], n + 1)
    ensures Sorted(s[..k]) && Sorted(s[k..]) && AllApart(s[..k]) && AllApart(s[k..])
  {
    var a, b := s[0], s[|s| - 1];
    n := SharedBits(a.path, b.path, 256);
    assert Apart(a, b);
    SharedBitsUnique(a.path, b.path, Min(a.len, b.len), n);
    RangeShares(s, n);
    assert Leq(a, b);
    BitRises(a.path, b.path, n);
    k := Search(s, n, 0, |s|);
    HalvesOf(s, n, k);
    ApartHalves(s, k);
  }

  /** and a range without two such elements builds. */
  lemma {:induction false} ApartIsBuilt(s: seq<Element>, d: nat)
    requires |s| > 0 && 0 < d <= 256 && Sorted(s) && Share(s, d) && AllApart(s)
    ensures Shape(s).Ok?
    decreases |s|
  {
    if |s| >= 2 {
      var n, k := ApartEnds(s, d);
      ApartIsBuilt(s[..k], n + 1);
      ApartIsBuilt(s[k..], n + 1);
    }
  }

  /** Root builds a tree over a sorted array exactly when no two of its elements are too close.
      No assumption is made on the bits past an element's length. */
  lemma {:induction false} RootAcceptsExactly(h: Hash, s: seq<Element>)
    requires Sorted(s)
    ensures Root(h, s).Ok? <==> AllApart(s)
  {
    RootHashesShape(h, s);
    if |s| > 0 {
      var k := Search(s, 0, 0, |s|);
      HalvesOf(s, 0, k);
      forall i, j | 0 <= i < k <= j < |s| ensures Apart(s[i], s[j]) {
        AcrossSplit(s, k, 0, i, j);
      }
      if AllApart(s) {
        ApartHalves(s, k);
        if 0 < k { ApartIsBuilt(s[..k], 1); }
        if k < |s| { ApartIsBuilt(s[k..], 1); }
      }
      if TopShape(s).Ok? {
        if 0 < k { BuiltIsApart(s[..k], 1, Shape(s[..k]).value); }
        if k < |s| { BuiltIsApart(s[k..], 1, Shape(s[k..]).value); }
        HalvesApart(s, k);
      }
    }
  }

  /** Of two elements whose labels share at least one bit, both reach past the shared bits: each has
      a bit of its own to be steered by. */
  ghost predicate Steered(a: Element, b: Element) {
    var n := SharedBits(a.path, b.path, 256);
    n == 0 || (n < a.len && n < b.len)
  }

  ghost predicate AllSteered(s: seq<Element>) {
    forall i, j | 0 <= i < j < |s| :: Steered(s[i], s[j])
  }

  // ----- labels whose unused bits are 0

  /** A label of at least one bit, with every bit past its length 0. */
  ghost predicate Normal(e: Element) {
    1 <= e.len && ZeroTail(e.path, e.len)
  }

  ghost predicate AllNormal(s: seq<Element>) {
    forall i | 0 <= i < |s| :: Normal(s[i])
  }

  /** The label of a is the label of b cut short, or the same label. */
  ghost predicate Covers(a: Element, b: Element) {
    a.len <= b.len && Agree(a.path, b.path, a.len)
  }

  ghost predicate PrefixFree(s: seq<Element>) {
    forall i, j | 0 <= i < |s| && 0 <= j < |s| && i != j :: !Covers(s[i], s[j])
  }

  lemma {:induction false} NormalApart(a: Element, b: Element)
    requires Normal(a) && Normal(b) && Leq(a, b)
    ensures Apart(a, b) <==> !Covers(a, b) && !Covers(b, a)
  {
    OrderByBits(a.path, b.path);
    var n := SharedBits(a.path, b.path, 256);
    assert n < 256 ==> BitAt(b.path, n);
    assert n < 256 && Covers(a, b) ==> a.len <= n;
    assert n < 256 && Covers(b, a) ==> b.len <= n;
  }

  lemma {:induction false} NormalIsSteered(a: Element, b: Element)
    requires Normal(a) && Normal(b) && Leq(a, b)
    ensures Apart(a, b) <==> Steered(a, b)
  {
    OrderByBits(a.path, b.path);
    var n := SharedBits(a.path, b.path, 256);
    assert n < 256 ==> BitAt(b.path, n);
  }

  /** The promise of the source: an element on an interior node, and nothing else, is rejected. */
  lemma {:induction false} RootRejectsCoveredElements(h: Hash, s: seq<Element>)
    requires Sorted(s) && AllNormal(s)
    ensures Root(h, s).Ok? <==> PrefixFree(s)
  {
    RootAcceptsExactly(h, s);
    forall i, j | 0 <= i < j < |s| ensures Apart(s[i], s[j]) <==> !Covers(s[i], s[j]) && !Covers(s[j], s[i]) {
      NormalApart(s[i], s[j]);
    }
  }

  /** Whatever the unused bits hold, a rejected array does hold an element covering another. */
  lemma {:induction false} RejectionHasACause(h: Hash, s: seq<Element>)
    requires Sorted(s) && Root(h, s).Err? && forall i | 0 <= i < |s| :: 1 <= s[i].len
    ensures !PrefixFree(s)
  {
    RootAcceptsExactly(h, s);
    var i, j :| 0 <= i < j < |s| && !Apart(s[i], s[j]);
    TooCloseCovers(s[i], s[j]);
  }

  lemma {:induction false} TooCloseCovers(a: Element, b: Element)
    requires !Apart(a, b)
    ensures Covers(a, b) || Covers(b, a)
  {
  }

  /** Its second bit set; as a label of one bit, past its length. */
  function DirtyLabel(): Label {
    [64] + Repeat(0, 31)
  }

  lemma {:induction false} DirtyLabelParts()
    ensures var p := Repeat(0, 32);
            Compare(p, DirtyLabel()) == -1 && SharedBits(p, DirtyLabel(), 256) == 1 && !BitAt(DirtyLabel(), 0)
  {
    var p, q := Repeat(0, 32), DirtyLabel();
    assert CompareFrom(p, q, 0) == -1;
    assert !BitAt(p, 0) && !BitAt(q, 0) && !BitAt(p, 1) && BitAt(q, 1);
    SharedBitsUnique(p, q, 256, 1);
  }

  /** The converse fails once unused bits are set: these two labels are 00...0 (256 bits) and 0
      (one bit, with a 1 after it); the second covers the first and Root accepts them. */
  lemma {:induction false} DirtyLabelAccepted(h: Hash, v: Digest, w: Digest)
    ensures var s := [Element(Repeat(0, 32), 256, v), Element(DirtyLabel(), 1, w)];
            Sorted(s) && Covers(s[1], s[0]) && Root(h, s).Ok?
  {
    DirtyLabelParts();
    RootAcceptsExactly(h, [Element(Repeat(0, 32), 256, v), Element(DirtyLabel(), 1, w)]);
  }

  // ----- the second error

  /** The later of two elements ends first, and inside the bits the two share. */
  ghost predicate Stuck(a: Element, b: Element) {
    b.len < a.len && b.len < SharedBits(a.path, b.path, 256)
  }

  /** A sorted range whose first element reaches past the common prefix fails to split exactly when
      its last element is stuck on its first. */
  lemma {:induction false} SplitFailsExactly(s: seq<Element>)
    requires |s| >= 2 && Sorted(s) && s[0].len != CommonPrefixLen(s[0], s[|s| - 1])
    ensures CommonPrefixLen(s[0], s[|s| - 1]) < 256
    ensures var k := Search(s, CommonPrefixLen(s[0], s[|s| - 1]), 0, |s|);
            k == 0 || k == |s| <==> Stuck(s[0], s[|s| - 1])
  {
    var a, b := s[0], s[|s| - 1];
    var n, m := CommonPrefixLen(a, b), SharedBits(a.path, b.path, 256);
    RangeShares(s, n);
    HalvesOf(s, n, Search(s, n, 0, |s|));
    assert Leq(a, b);
    OrderByBits(a.path, b.path);
    if BitAt(a.path, n) != BitAt(b.path, n) {
      SharedBitsUnique(a.path, b.path, 256, n);
    } else {
      assert n == b.len < a.len;
      assert m == n ==> m == 256;
      assert n <= m;
    }
  }

  /** A range of so many elements, from a to b, fails at its own node with this error: its first
      element ends there, or it reaches past and the last is stuck on it. */
  ghost predicate Blames(a: Element, b: Element, many: nat, e: RootError) {
    var n := CommonPrefixLen(a, b);
    if a.len == n then e == OnInteriorNode(n) else Stuck(a, b) && e == DoesNotSplit(many, n)
  }

  /** The range from lo to hi of s does. */
  ghost predicate Fails(s: seq<Element>, lo: nat, hi: nat, e: RootError) {
    lo + 2 <= hi <= |s| && Blames(s[lo], s[hi - 1], hi - lo, e)
  }

  ghost predicate FailsSomewhere(s: seq<Element>, e: RootError) {
    exists lo: nat, hi: nat :: Fails(s, lo, hi, e)
  }

  /** A half's failing range is one of the whole's. */
  lemma {:induction false} FailsInside(s: seq<Element>, k: nat, e: RootError)
    requires k <= |s| && (FailsSomewhere(s[..k], e) || FailsSomewhere(s[k..], e))
    ensures FailsSomewhere(s, e)
  {
    if FailsSomewhere(s[..k], e) {
      var lo: nat, hi: nat :| Fails(s[..k], lo, hi, e);
      assert Fails(s, lo, hi, e);
    } else {
      var lo: nat, hi: nat :| Fails(s[k..], lo, hi, e);
      assert Fails(s, k + lo, k + hi, e);
    }
  }

  /** A range that errs fails at its own node, or one of its halves errs alike. */
  lemma {:induction false} OwnError(s: seq<Element>, e: RootError) returns (k: nat)
    requires Sorted(s) && Shape(s) == Err(e)
    ensures |s| >= 2 && (Fails(s, 0, |s|, e) || (0 < k < |s| && (Shape(s[..k]) == Err(e) || Shape(s[k..]) == Err(e))))
  {
    var n := CommonPrefixLen(s[0], s[|s| - 1]);
    k := 0;
    if s[0].len != n {
      SplitFailsExactly(s);
      k := Search(s, n, 0, |s|);
    }
  }

  lemma {:induction false} HalvesSorted(s: seq<Element>, k: nat)
    requires Sorted(s) && k <= |s|
    ensures Sorted(s[..k]) && Sorted(s[k..])
  {
  }

  /** Which error a range gives: that of a range inside it that fails at its own node. */
  lemma {:induction false} ShapeErrorIs(s: seq<Element>, e: RootError)
    requires Sorted(s) && Shape(s) == Err(e)
    ensures FailsSomewhere(s, e)
    decreases |s|
  {
    var k := OwnError(s, e);
    if !Fails(s, 0, |s|, e) {
      HalvesSorted(s, k);
      if Shape(s[..k]) == Err(e) { ShapeErrorIs(s[..k], e); } else { ShapeErrorIs(s[k..], e); }
      FailsInside(s, k, e);
    }
  }

  /** The same of Root. */
  lemma {:induction false} RootErrorIs(h: Hash, s: seq<Element>, e: RootError)
    requires Sorted(s) && Root(h, s) == Err(e)
    ensures FailsSomewhere(s, e)
  {
    RootHashesShape(h, s);
    var k := Search(s, 0, 0, |s|);
    HalvesSorted(s, k);
    if Shape(s[..k]) == Err(e) { ShapeErrorIs(s[..k], e); } else { ShapeErrorIs(s[k..], e); }
    FailsInside(s, k, e);
  }

  ghost predicate NoneStuck(s: seq<Element>) {
    forall i, j | 0 <= i < j < |s| :: !Stuck(s[i], s[j])
  }

  lemma {:induction false} UnstuckBlames(s: seq<Element>, e: RootError)
    requires NoneStuck(s) && FailsSomewhere(s, e)
    ensures e.OnInteriorNode?
  {
    var lo: nat, hi: nat :| Fails(s, lo, hi, e);
    assert !Stuck(s[lo], s[hi - 1]);
  }

  /** So where no element is stuck on an earlier one, every split that is reached is proper: the
      range fails for an element on an interior node. */
  lemma {:induction false} EverySplitIsProper(s: seq<Element>)
    requires Sorted(s) && NoneStuck(s) && Shape(s).Err?
    ensures Shape(s).error.OnInteriorNode?
  {
    ShapeErrorIs(s, Shape(s).error);
    UnstuckBlames(s, Shape(s).error);
  }

  lemma {:induction false} RootErrsOnInteriorNodes(h: Hash, s: seq<Element>)
    requires Sorted(s) && NoneStuck(s) && Root(h, s).Err?
    ensures Root(h, s).error.OnInteriorNode?
  {
    RootErrorIs(h, s, Root(h, s).error);
    UnstuckBlames(s, Root(h, s).error);
  }

  /** Labels with zero unused bits are never stuck; an array with a stuck element is never accepted. */
  lemma {:induction false} StuckIsDirty(a: Element, b: Element)
    requires Leq(a, b) && Stuck(a, b)
    ensures !Normal(b) || !Normal(a)
    ensures !Apart(a, b)
  {
    OrderByBits(a.path, b.path);
    SameLabel(a.path, b.path);
    var m := SharedBits(a.path, b.path, 256);
    assert m < 256 ==> BitAt(b.path, m);
  }

  /** With unused bits set the other error is reached, though the input is sorted: the second of
      these labels is one bit long, and the bit after it does not tell it from the first. */
  lemma {:induction false} SortedInputDoesNotSplit(h: Hash, v: Digest, w: Digest)
    ensures var s := [Element(Repeat(0, 32), 256, v), Element([32] + Repeat(0, 31), 1, w)];
            Sorted(s) && Root(h, s) == Err(DoesNotSplit(2, 1))
  {
    var a, b := Element(Repeat(0, 32), 256, v), Element([32] + Repeat(0, 31), 1, w);
    assert CompareFrom(a.path, b.path, 0) == -1;
    assert !BitAt(a.path, 0) && !BitAt(b.path, 0) && !BitAt(a.path, 1) && !BitAt(b.path, 1);
    SharedBitsUnique(a.path, b.path, 1, 1);
    var s := [a, b];
    AllZeroes(s, 0, 0, 2);
    AllZeroes(s, 1, 0, 2);
    assert s[..2] == s;
    assert Subtree(h, s) == Err(DoesNotSplit(2, 1));
  }

  lemma {:induction false} AllZeroes(s: seq<Element>, bit: nat, lo: nat, hi: nat)
    requires lo <= hi <= |s| && bit < 256 && forall i | lo <= i < hi :: !BitAt(s[i].path, bit)
    ensures Search(s, bit, lo, hi) == hi
    decreases hi - lo
  {
    if lo < hi { AllZeroes(s, bit, (lo + hi) / 2 + 1, hi); }
  }

  // ----- the depth of the recursion

  /** How many calls of subtree are open at once below the one over s. The right half is not entered
      when the left errs. */
  function Depth(s: seq<Element>): nat
    decreases |s|
  {
    if |s| <= 1 then 0
    else
      var n := CommonPrefixLen(s[0], s[|s| - 1]);
      if s[0].len == n then 0
      else
        var k := Search(s, n, 0, |s|);
        if k == 0 || k == |s| then 0
        else if Shape(s[..k]).Err? || Depth(s[k..]) < Depth(s[..k]) then 1 + Depth(s[..k])
        else 1 + Depth(s[k..])
  }

  /** On every sorted range, whether it builds or errs, subtree recurses at most once a label bit. */
  lemma {:induction false} DepthIsBounded(s: seq<Element>, d: nat)
    requires d <= 256 && Sorted(s) && Share(s, d)
    ensures Depth(s) <= 256 - d
    decreases |s|
  {
    if |s| >= 2 {
      var n := CommonPrefixLen(s[0], s[|s| - 1]);
      if s[0].len != n {
        SplitFailsExactly(s);
        var k := Search(s, n, 0, |s|);
        if k != 0 && k != |s| {
          RangeShares(s, n);
          HalvesOf(s, n, k);
          assert Agree(s[0].path, s[|s| - 1].path, d);
          DepthIsBounded(s[..k], n + 1);
          DepthIsBounded(s[k..], n + 1);
        }
      }
    }
  }
}
