/**
 * The verifier object and the worker's composition (internal/akdtree/verify.go:169-187, 211-234,
 * 316-418; cmd/kt-worker/verify.go:128-154).
 */
module Verifying {
  import opened Basics
  import opened Labels
  import opened AkdTree
  import opened Ordering
  import opened Binding
  import opened Soundness

  // ----- common prefix, a byte at a time where it can be

  /** The source's loop: whole bytes while it is safe, then bits. */
  method CommonPrefix(a: Element, b: Element) returns (i: nat)
    ensures i == CommonPrefixLen(a, b)
  {
    var shorter := if b.len < a.len then b.len else a.len;
    i := 0;
    while i < shorter
      invariant i <= shorter && Agree(a.path, b.path, i)
    {
      if i % 8 == 0 && i + 8 <= shorter && a.path[i / 8] == b.path[i / 8] {
        SameByte(a.path, b.path, i / 8);
        i := i + 8;
        continue;
      }
      if BitAt(a.path, i) != BitAt(b.path, i) {
        break;
      }
      i := i + 1;
    }
    SharedBitsUnique(a.path, b.path, shorter, i);
  }

  lemma {:induction false} SameByte(a: Label, b: Label, n: nat)
    requires n < 32 && a[n] == b[n] && Agree(a, b, 8 * n)
    ensures Agree(a, b, 8 * n + 8)
  {
    forall i | 8 * n <= i < 8 * n + 8 ensures BitAt(a, i) == BitAt(b, i) {
      BitAtIsShift(a, i);
      BitAtIsShift(b, i);
    }
  }

  // ----- sorting

  /** x put in its place in a sorted array. */
  function Insert(s: seq<Element>, x: Element): (t: seq<Element>)
    ensures |t| == |s| + 1
  {
    if s == [] || !Less(x, s[|s| - 1]) then s + [x]
    else Insert(s[..|s| - 1], x) + [s[|s| - 1]]
  }

  function SortSeq(s: seq<Element>): (t: seq<Element>)
    ensures |t| == |s|
  {
    if s == [] then [] else Insert(SortSeq(s[..|s| - 1]), s[|s| - 1])
  }

  lemma {:induction false} SortedAppend(s: seq<Element>, y: Element)
    requires Sorted(s) && forall e | e in s :: Leq(e, y)
    ensures Sorted(s + [y])
  {
    assert forall i | 0 <= i < |s| :: s[i] in s;
  }

  lemma {:induction false} InsertSorts(s: seq<Element>, x: Element)
    requires Sorted(s)
    ensures Sorted(Insert(s, x)) && multiset(Insert(s, x)) == multiset(s) + multiset{x}
  {
    if s != [] {
      var n := |s| - 1;
      var last := s[n];
      assert s == s[..n] + [last];
      LeqTotal(x, last);
      if Less(x, last) {
        InsertSorts(s[..n], x);
        var t := Insert(s[..n], x);
        forall e | e in t ensures Leq(e, last) {
          assert e in multiset(t);
          assert e == x || e in s[..n];
        }
        SortedAppend(t, last);
      } else {
        forall e | e in s ensures Leq(e, x) {
          var i :| 0 <= i < |s| && s[i] == e;
          if i < n { LeqTransitive(e, last, x); }
        }
        SortedAppend(s, x);
      }
    }
  }

  lemma {:induction false} SortSeqSorts(s: seq<Element>)
    ensures Sorted(SortSeq(s)) && multiset(SortSeq(s)) == multiset(s)
  {
    if s != [] {
      var n := |s| - 1;
      SortSeqSorts(s[..n]);
      InsertSorts(SortSeq(s[..n]), s[n]);
      assert s == s[..n] + [s[n]];
    }
  }

  /** Elements from j on are above x, so it goes in before them. */
  ghost predicate GoesBefore(s: seq<Element>, x: Element, j: nat) {
    j <= |s| && Insert(s, x) == Insert(s[..j], x) + s[j..]
  }

  lemma {:induction false} GoesLower(s: seq<Element>, x: Element, j: nat)
    requires 0 < j && GoesBefore(s, x, j) && Less(x, s[j - 1])
    ensures GoesBefore(s, x, j - 1)
  {
    assert s[..j][..j - 1] == s[..j - 1] && s[j - 1..] == [s[j - 1]] + s[j..];
    assert Insert(s[..j], x) == Insert(s[..j - 1], x) + [s[j - 1]];
  }

  lemma {:induction false} GoesHere(s: seq<Element>, x: Element, j: nat)
    requires GoesBefore(s, x, j) && (j == 0 || !Less(x, s[j - 1]))
    ensures Insert(s, x) == s[..j] + [x] + s[j..]
  {
    assert Insert(s[..j], x) == s[..j] + [x];
  }

  /** s is was with the elements from j up to i moved one place up. */
  ghost predicate Opened(s: seq<Element>, was: seq<Element>, i: nat, j: nat) {
    && |s| == |was| && j <= i < |s|
    && (forall k | 0 <= k < j :: s[k] == was[k])
    && (forall k | j <= k < i :: s[k + 1] == was[k])
    && (forall k | i < k < |s| :: s[k] == was[k])
  }

  /** The element at i of was goes in at j or below it, and s has room at j. */
  ghost predicate Room(s: seq<Element>, was: seq<Element>, i: nat, j: nat) {
    Opened(s, was, i, j) && GoesBefore(was[..i], was[i], j)
  }

  lemma {:induction false} RoomAt(s: seq<Element>, i: nat)
    requires i < |s|
    ensures Room(s, s, i, i)
  {
    assert s[..i][..i] == s[..i] && s[..i][i..] == [];
  }

  lemma {:induction false} RoomBelow(s: seq<Element>, was: seq<Element>, i: nat, j: nat)
    requires Room(s, was, i, j) && 0 < j && Less(was[i], s[j - 1])
    ensures Room(s[j := s[j - 1]], was, i, j - 1)
  {
    assert was[..i][j - 1] == s[j - 1];
    GoesLower(was[..i], was[i], j);
  }

  /** Moves the elements above the one at i one place up. */
  method MakeRoom(a: array<Element>, i: nat) returns (j: nat)
    requires i < a.Length
    modifies a
    ensures Room(a[..], old(a[..]), i, j) && (j == 0 || !Less(old(a[i]), old(a[j - 1])))
  {
    var x := a[i];
    ghost var was := a[..];
    j := i;
    RoomAt(was, i);
    while j > 0 && Less(x, a[j - 1])
      invariant Room(a[..], was, i, j)
    {
      RoomBelow(a[..], was, i, j);
      ghost var now := a[..];
      a[j] := a[j - 1];
      assert a[..] == now[j := now[j - 1]];
      j := j - 1;
    }
  }

  /** Moves the element at i down to its place among the sorted elements before it. */
  method InsertAt(a: array<Element>, i: nat)
    requires i < a.Length
    modifies a
    ensures a[..i + 1] == Insert(old(a[..i]), old(a[i])) && a[i + 1..] == old(a[i + 1..])
  {
    var x := a[i];
    ghost var was, done := a[..], a[..i];
    var j := MakeRoom(a, i);
    assert was[..i] == done;
    a[j] := x;
    GoesHere(done, x, j);
    Placed(a[..], done, x, j);
    assert a[..][..i + 1] == a[..i + 1];
  }

  lemma {:induction false} Placed(s: seq<Element>, done: seq<Element>, x: Element, j: nat)
    requires j <= |done| < |s| && s[j] == x
    requires forall k | 0 <= k < j :: s[k] == done[k]
    requires forall k | j <= k < |done| :: s[k + 1] == done[k]
    ensures s[..|done| + 1] == done[..j] + [x] + done[j..]
  {
    var t := done[..j] + [x] + done[j..];
    forall k | 0 <= k < |t| ensures s[k] == t[k] {
      if k > j { assert s[(k - 1) + 1] == done[k - 1]; }
    }
  }

  /** slices.SortFunc: a sorted arrangement of the same elements, in place. */
  method Sort(a: array<Element>)
    modifies a
    ensures Sorted(a[..]) && multiset(a[..]) == multiset(old(a[..]))
  {
    ghost var was := a[..];
    var i := 0;
    while i < a.Length
      invariant i <= a.Length
      invariant a[..i] == SortSeq(was[..i]) && a[i..] == was[i..]
    {
      assert was[..i + 1][..i] == was[..i] && was[..i + 1][i] == was[i] == a[i..][0];
      assert a[i + 1..] == a[i..][1..] == was[i..][1..] == was[i + 1..];
      InsertAt(a, i);
      i := i + 1;
    }
    assert a[..] == a[..i] && was[..i] == was;
    SortSeqSorts(was);
  }

  // ----- merging

  function MergeSeq(a: seq<Element>, b: seq<Element>): (m: seq<Element>)
    ensures |m| == |a| + |b|
  {
    if a == [] then b
    else if b == [] then a
    else if Less(a[0], b[0]) then [a[0]] + MergeSeq(a[1..], b)
    else [b[0]] + MergeSeq(a, b[1..])
  }

  /** The merge holds all of both, in order. */
  ghost predicate Merged(a: seq<Element>, b: seq<Element>) {
    Sorted(MergeSeq(a, b)) && multiset(MergeSeq(a, b)) == multiset(a) + multiset(b)
  }

  /** An element no greater than any of two sorted sequences goes before their merge. */
  lemma {:induction false} LeastFirst(x: Element, a: seq<Element>, b: seq<Element>)
    requires Sorted(a) && Sorted(b) && (a != [] ==> Leq(x, a[0])) && (b != [] ==> Leq(x, b[0])) && Merged(a, b)
    ensures Sorted([x] + MergeSeq(a, b))
    ensures multiset([x] + MergeSeq(a, b)) == multiset{x} + (multiset(a) + multiset(b))
  {
    AtMostMerged(x, a, b);
  }

  /** Merging two sorted arrays keeps all of both, in order. */
  lemma {:induction false} MergeSorts(a: seq<Element>, b: seq<Element>)
    requires Sorted(a) && Sorted(b)
    ensures Merged(a, b)
    decreases |a| + |b|
  {
    if a != [] && b != [] {
      LeqTotal(a[0], b[0]);
      if Less(a[0], b[0]) {
        MergeSorts(a[1..], b);
        LeastFirst(a[0], a[1..], b);
        HeadCounted(a);
      } else {
        MergeSorts(a, b[1..]);
        LeastFirst(b[0], a, b[1..]);
        HeadCounted(b);
      }
    }
  }

  lemma {:induction false} HeadCounted(a: seq<Element>)
    requires a != []
    ensures multiset(a) == multiset{a[0]} + multiset(a[1..])
  {
    assert a == [a[0]] + a[1..];
  }

  lemma {:induction false} AtMostMerged(x: Element, a: seq<Element>, b: seq<Element>)
    requires Sorted(a) && Sorted(b) && (a != [] ==> Leq(x, a[0])) && (b != [] ==> Leq(x, b[0]))
    requires multiset(MergeSeq(a, b)) == multiset(a) + multiset(b)
    ensures forall i | 0 <= i < |MergeSeq(a, b)| :: Leq(x, MergeSeq(a, b)[i])
  {
    var m := MergeSeq(a, b);
    forall i | 0 <= i < |m| ensures Leq(x, m[i]) {
      assert m[i] in multiset(m);
      if m[i] in a {
        var k :| 0 <= k < |a| && a[k] == m[i];
        if 0 < k { LeqTransitive(x, a[0], a[k]); }
      } else {
        var k :| 0 <= k < |b| && b[k] == m[i];
        if 0 < k { LeqTransitive(x, b[0], b[k]); }
      }
    }
  }

  /** Go's copy of a[i..] to out[k..]. */
  method CopyTail(out: array<Element>, k: nat, a: array<Element>, i: nat)
    requires out != a && i <= a.Length && k + (a.Length - i) <= out.Length
    modifies out
    ensures out[..k + (a.Length - i)] == old(out[..k]) + a[i..]
  {
    ghost var front := out[..k];
    forall m | 0 <= m < a.Length - i {
      out[k + m] := a[i + m];
    }
    assert out[..k] == front && out[k..k + (a.Length - i)] == a[i..];
  }

  method Put(out: array<Element>, k: nat, x: Element)
    requires k < out.Length
    modifies out
    ensures out[..k + 1] == old(out[..k]) + [x]
  {
    out[k] := x;
  }

  /** What is left of s from i and of t from j, merged after front, makes up the whole. */
  ghost predicate Merging(front: seq<Element>, s: seq<Element>, t: seq<Element>, i: nat, j: nat) {
    i <= |s| && j <= |t| && front + MergeSeq(s[i..], t[j..]) == MergeSeq(s, t)
  }

  lemma {:induction false} MergeStep(front: seq<Element>, s: seq<Element>, t: seq<Element>, i: nat, j: nat)
    requires Merging(front, s, t, i, j) && i < |s| && j < |t|
    ensures if Less(s[i], t[j]) then Merging(front + [s[i]], s, t, i + 1, j)
            else Merging(front + [t[j]], s, t, i, j + 1)
  {
    assert s[i..][1..] == s[i + 1..] && t[j..][1..] == t[j + 1..];
    var rest := if Less(s[i], t[j]) then MergeSeq(s[i + 1..], t[j..]) else MergeSeq(s[i..], t[j + 1..]);
    var x := if Less(s[i], t[j]) then s[i] else t[j];
    assert front + ([x] + rest) == (front + [x]) + rest;
  }

  lemma {:induction false} MergeEnd(front: seq<Element>, s: seq<Element>, t: seq<Element>, i: nat, j: nat)
    requires Merging(front, s, t, i, j) && (i == |s| || j == |t|)
    ensures (front + s[i..]) + t[j..] == MergeSeq(s, t)
  {
    assert s[i..] == [] || t[j..] == [];
    assert (front + s[i..]) + t[j..] == front + (s[i..] + t[j..]);
  }

  lemma {:induction false} MergeStart(s: seq<Element>, t: seq<Element>)
    ensures Merging([], s, t, 0, 0)
  {
    assert s[0..] == s && t[0..] == t && [] + MergeSeq(s, t) == MergeSeq(s, t);
  }

  /** The turn of the merging loop: the lesser head goes to out. */
  method MergeTurn(out: array<Element>, a: array<Element>, b: array<Element>, i: nat, j: nat) returns (x: nat, y: nat)
    requires out != a && out != b && i < a.Length && j < b.Length && i + j < out.Length
    requires Merging(out[..i + j], a[..], b[..], i, j)
    modifies out
    ensures x <= a.Length && y <= b.Length && x + y == i + j + 1
    ensures Merging(out[..x + y], a[..], b[..], x, y)
  {
    MergeStep(out[..i + j], a[..], b[..], i, j);
    if Less(a[i], b[j]) {
      Put(out, i + j, a[i]);
      return i + 1, j;
    }
    Put(out, i + j, b[j]);
    return i, j + 1;
  }

  /** Writes the ordered union of a and b into the front of out, with three indices. */
  method Merge(out: array<Element>, a: array<Element>, b: array<Element>)
    requires out != a && out != b && a.Length + b.Length <= out.Length
    modifies out
    ensures out[..a.Length + b.Length] == MergeSeq(a[..], b[..])
  {
    var i: nat, j: nat, k: nat := 0, 0, 0;
    MergeStart(a[..], b[..]);
    assert out[..0] == [];
    while i < a.Length && j < b.Length
      invariant i <= a.Length && j <= b.Length && k == i + j && Merging(out[..k], a[..], b[..], i, j)
      decreases a.Length + b.Length - k
    {
      i, j := MergeTurn(out, a, b, i, j);
      k := k + 1;
    }
    MergeTails(out, a, b, i, j);
  }

  /** What remains of either goes after what is merged; one of the two is empty. */
  method MergeTails(out: array<Element>, a: array<Element>, b: array<Element>, i: nat, j: nat)
    requires out != a && out != b && a.Length + b.Length <= out.Length
    requires i <= a.Length && j <= b.Length && (i == a.Length || j == b.Length)
    requires Merging(out[..i + j], a[..], b[..], i, j)
    modifies out
    ensures out[..a.Length + b.Length] == MergeSeq(a[..], b[..])
  {
    MergeEnd(out[..i + j], a[..], b[..], i, j);
    CopyTail(out, i + j, a, i);
    CopyTail(out, a.Length + j, b, j);
  }

  // ----- both roots

  datatype RootPair = RootPair(prev: Digest, curr: Digest)

  datatype RootsError = PreviousRoot(cause: RootError) | CurrentRoot(cause: RootError)

  type Epoch = e: nat | e < 0x1_0000_0000_0000_0000

  /** The inserted elements with each value committed to the epoch. */
  function Committed(h: Hash, s: seq<Element>, epoch: Epoch): (t: seq<Element>)
    ensures |t| == |s|
    ensures forall i | 0 <= i < |s| ::
              t[i] == Element(s[i].path, s[i].len, HashLeafWithCommitment(h, s[i].value, epoch))
  {
    if s == [] then []
    else [Element(s[0].path, s[0].len, HashLeafWithCommitment(h, s[0].value, epoch))] + Committed(h, s[1..], epoch)
  }

  /** The two roots a proof asserts: of the unchanged elements, and of those with the inserted
      elements committed to the epoch. */
  function RootsOf(h: Hash, kept: seq<Element>, inserted: seq<Element>, epoch: Epoch): Result<RootPair, RootsError> {
    var prev := Root(h, SortSeq(kept));
    if prev.Err? then Err(PreviousRoot(prev.error))
    else
      var curr := Root(h, SortSeq(kept + Committed(h, inserted, epoch)));
      if curr.Err? then Err(CurrentRoot(curr.error)) else Ok(RootPair(prev.value, curr.value))
  }

  lemma {:induction false} RootOfArrangement(h: Hash, s: seq<Element>, t: seq<Element>)
    requires Sorted(s) && multiset(s) == multiset(t)
    ensures Root(h, s) == Root(h, SortSeq(t))
  {
    SortSeqSorts(t);
    RootIsOrderIndependent(h, s, SortSeq(t));
  }

  lemma {:induction false} RootOfMerge(h: Hash, a: seq<Element>, b: seq<Element>)
    requires Sorted(a) && Sorted(b)
    ensures Root(h, MergeSeq(a, b)) == Root(h, SortSeq(a + b))
  {
    MergeSorts(a, b);
    assert multiset(a + b) == multiset(a) + multiset(b);
    RootOfArrangement(h, MergeSeq(a, b), a + b);
  }

  lemma {:induction false} SameUnion(h: Hash, a: seq<Element>, b: seq<Element>, c: seq<Element>, d: seq<Element>)
    requires multiset(a) == multiset(c) && multiset(b) == multiset(d)
    ensures Root(h, SortSeq(a + b)) == Root(h, SortSeq(c + d))
  {
    SortSeqSorts(a + b);
    assert multiset(a + b) == multiset(a) + multiset(b) && multiset(c + d) == multiset(c) + multiset(d);
    RootOfArrangement(h, SortSeq(a + b), c + d);
  }

  /** Sorts in place and rebuilds the root. */
  method SortedRoot(h: Hash, a: array<Element>) returns (r: Result<Digest, RootError>)
    modifies a
    ensures r == Root(h, SortSeq(old(a[..])))
    ensures Sorted(a[..]) && multiset(a[..]) == multiset(old(a[..]))
  {
    ghost var was := a[..];
    Sort(a);
    RootOfArrangement(h, a[..], was);
    return Root(h, a[..]);
  }

  class Verifier {
    /** Reused from one proof to the next; its contents mean nothing between calls. */
    var scratch: array<Element>

    constructor ()
      ensures fresh(scratch) && scratch.Length == 0
    {
      scratch := new Element[0];
    }

    /** Grows the scratch space when it is too small. */
    method Reserve(n: nat)
      modifies this
      ensures scratch.Length >= n && (scratch == old(scratch) || fresh(scratch))
    {
      if scratch.Length < n {
        scratch := new Element[n];
      }
    }

    /** The root over two sorted arrays, merged in the scratch space. */
    method MergedRoot(h: Hash, kept: array<Element>, inserted: array<Element>) returns (r: Result<Digest, RootError>)
      requires scratch != kept && scratch != inserted && Sorted(kept[..]) && Sorted(inserted[..])
      modifies this, scratch
      ensures r == Root(h, SortSeq(kept[..] + inserted[..]))
      ensures scratch == old(scratch) || fresh(scratch)
    {
      RootOfMerge(h, kept[..], inserted[..]);
      Reserve(kept.Length + inserted.Length);
      Merge(scratch, kept, inserted);
      var merged := scratch[..kept.Length + inserted.Length];
      return Root(h, merged);
    }

    /** Rebuilds both roots. The answer depends on the proof alone, not on what the scratch space
        holds from earlier calls. Both arrays are left sorted, the inserted one committed. */
    method Roots(h: Hash, kept: array<Element>, inserted: array<Element>, epoch: Epoch)
      returns (r: Result<RootPair, RootsError>)
      requires kept != inserted && scratch != kept && scratch != inserted
      modifies this, scratch, kept, inserted
      ensures r == RootsOf(h, old(kept[..]), old(inserted[..]), epoch)
      ensures Sorted(kept[..]) && multiset(kept[..]) == multiset(old(kept[..]))
      ensures r.Err? && r.error.PreviousRoot? ==> inserted[..] == old(inserted[..])
      ensures !(r.Err? && r.error.PreviousRoot?) ==>
                && Sorted(inserted[..])
                && multiset(inserted[..]) == multiset(Committed(h, old(inserted[..]), epoch))
      ensures scratch == old(scratch) || fresh(scratch)
    {
      ghost var u := kept[..];
      var prev := SortedRoot(h, kept);
      if prev.Err? {
        return Err(PreviousRoot(prev.error));
      }
      CommitAll(h, inserted, epoch);
      ghost var c := inserted[..];
      Sort(inserted);
      var curr := MergedRoot(h, kept, inserted);
      SameUnion(h, kept[..], inserted[..], u, c);
      if curr.Err? {
        return Err(CurrentRoot(curr.error));
      }
      return Ok(RootPair(prev.value, curr.value));
    }

    /** Whether the proof rebuilds the two given roots; an error is no verdict. */
    method VerifyAppendOnly(h: Hash, kept: array<Element>, inserted: array<Element>,
                            prevRoot: Digest, currRoot: Digest, epoch: Epoch)
      returns (r: Result<bool, RootsError>)
      requires kept != inserted && scratch != kept && scratch != inserted
      modifies this, scratch, kept, inserted
      ensures r == Verdict(h, old(kept[..]), old(inserted[..]), prevRoot, currRoot, epoch)
      ensures scratch == old(scratch) || fresh(scratch)
    {
      var roots := Roots(h, kept, inserted, epoch);
      if roots.Err? {
        return Err(roots.error);
      }
      return Ok(roots.value.prev == prevRoot && roots.value.curr == currRoot);
    }
  }

  function Verdict(h: Hash, kept: seq<Element>, inserted: seq<Element>, prevRoot: Digest, currRoot: Digest,
                   epoch: Epoch): Result<bool, RootsError>
  {
    var roots := RootsOf(h, kept, inserted, epoch);
    if roots.Err? then Err(roots.error) else Ok(roots.value == RootPair(prevRoot, currRoot))
  }

  method CommitAll(h: Hash, inserted: array<Element>, epoch: Epoch)
    modifies inserted
    ensures inserted[..] == Committed(h, old(inserted[..]), epoch)
  {
    ghost var was := inserted[..];
    for i := 0 to inserted.Length
      invariant forall k | 0 <= k < i :: inserted[k] == Committed(h, was, epoch)[k]
      invariant forall k | i <= k < inserted.Length :: inserted[k] == was[k]
    {
      inserted[i] := Element(inserted[i].path, inserted[i].len, HashLeafWithCommitment(h, inserted[i].value, epoch));
    }
  }

  /** The remote worker's composition: concatenate and sort again, instead of merging. */
  method WorkerVerify(h: Hash, inserted: array<Element>, kept: array<Element>, epoch: Epoch)
    returns (r: Result<RootPair, RootsError>)
    requires kept != inserted
    modifies kept
    ensures r == RootsOf(h, old(kept[..]), inserted[..], epoch)
  {
    ghost var u := kept[..];
    var prev := SortedRoot(h, kept);
    if prev.Err? {
      return Err(PreviousRoot(prev.error));
    }
    var list := AppendCommitted(h, kept[..], inserted, epoch);
    var both := new Element[|list|](i requires 0 <= i < |list| => list[i]);
    assert both[..] == list;
    var curr := SortedRoot(h, both);
    SameUnion(h, kept[..], Committed(h, inserted[..], epoch), u, Committed(h, inserted[..], epoch));
    if curr.Err? {
      return Err(CurrentRoot(curr.error));
    }
    return Ok(RootPair(prev.value, curr.value));
  }

  /** The worker's loop: the list, with each committed element appended. */
  method AppendCommitted(h: Hash, list: seq<Element>, inserted: array<Element>, epoch: Epoch)
          returns (both: seq<Element>)
    ensures both == list + Committed(h, inserted[..], epoch)
  {
    both := list;
    ghost var c := Committed(h, inserted[..], epoch);
    for i := 0 to inserted.Length
      invariant both == list + c[..i]
    {
      var e := inserted[i];
      both := both + [Element(e.path, e.len, HashLeafWithCommitment(h, e.value, epoch))];
    }
  }

  // ----- what acceptance means

  /** If VerifyAppendOnly accepts a proof against the roots of two trees of whole leaves, every leaf
      of the old tree is in the new one with its value, and each other leaf of the new tree lies
      under an inserted label; or the hash collides on strings hashed while rebuilding and building
      those trees. The elements of the proof may be anything Decode can return. */
  lemma {:induction false} AcceptedProofIsAppendOnly(h: Hash, kept: seq<Element>, inserted: seq<Element>,
          prevRoot: Digest,
                                  currRoot: Digest, epoch: Epoch, o: seq<Element>, n: seq<Element>)
    requires Verdict(h, kept, inserted, prevRoot, currRoot, epoch) == Ok(true)
    requires FullLeaves(o) && Root(h, SortSeq(o)) == Ok(prevRoot)
    requires FullLeaves(n) && Root(h, SortSeq(n)) == Ok(currRoot)
    ensures AppendOnly(o, n, inserted)
            || Collision(h, AllStrings(h, SortSeq(kept), SortSeq(kept + Committed(h, inserted, epoch)),
                                       SortSeq(o), SortSeq(n)))
  {
    var c := Committed(h, inserted, epoch);
    var u, w, so, sn := SortSeq(kept), SortSeq(kept + c), SortSeq(o), SortSeq(n);
    SortSeqSorts(kept);
    SortSeqSorts(kept + c);
    SortSeqSorts(o);
    SortSeqSorts(n);
    SortedIsFull(o);
    SortedIsFull(n);
    RootsProveAppendOnly(h, u, c, w, so, sn);
    if AppendOnly(so, sn, c) { UnsortedAppendOnly(h, inserted, epoch, o, n); }
  }

  /** Order and commitment do not matter to it. */
  lemma {:induction false} UnsortedAppendOnly(h: Hash, inserted: seq<Element>, epoch: Epoch, o: seq<Element>,
          n: seq<Element>)
    requires AppendOnly(SortSeq(o), SortSeq(n), Committed(h, inserted, epoch))
    ensures AppendOnly(o, n, inserted)
  {
    SortedMembers(o);
    SortedMembers(n);
    CommittedLabels(h, inserted, epoch);
  }

  lemma {:induction false} SortedMembers(s: seq<Element>)
    ensures forall e :: e in SortSeq(s) <==> e in s
  {
    SortSeqSorts(s);
    forall e ensures e in SortSeq(s) <==> e in s {
      assert e in s <==> e in multiset(s);
      assert e in SortSeq(s) <==> e in multiset(SortSeq(s));
    }
  }

  lemma {:induction false} SortedIsFull(s: seq<Element>)
    requires FullLeaves(s)
    ensures FullLeaves(SortSeq(s))
  {
    SortedMembers(s);
    forall i | 0 <= i < |SortSeq(s)| ensures SortSeq(s)[i].len == 256 {
      assert SortSeq(s)[i] in s;
    }
  }

  /** Committing a value leaves the label alone. */
  lemma {:induction false} CommittedLabels(h: Hash, s: seq<Element>, epoch: Epoch)
    ensures forall f, e | e in Committed(h, s, epoch) && LiesUnder(f, e) :: exists k :: k in s && LiesUnder(f, k)
  {
    forall f, e | e in Committed(h, s, epoch) && LiesUnder(f, e) ensures exists k :: k in s && LiesUnder(f, k) {
      var i :| 0 <= i < |s| && Committed(h, s, epoch)[i] == e;
      assert s[i] in s && LiesUnder(f, s[i]);
    }
  }
}
