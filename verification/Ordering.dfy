/**
 * What sorting fixes: two sorted arrangements of the same elements have the same labels in the
 * same places, so Root cannot tell them apart (internal/akdtree/verify.go:211-248).
 */
module Ordering {
  import opened Basics
  import opened Labels
  import opened AkdTree
  import opened Rejection

  predicate SameKey(a: Element, b: Element) {
    a.path == b.path && a.len == b.len
  }

  ghost predicate SameKeys(s: seq<Element>, t: seq<Element>) {
    |s| == |t| && forall i | 0 <= i < |s| :: SameKey(s[i], t[i])
  }

  lemma {:induction false} LeqTotal(a: Element, b: Element)
    ensures Leq(a, b) || Leq(b, a)
    ensures Leq(a, b) && Leq(b, a) ==> SameKey(a, b)
    ensures Less(a, b) <==> !Leq(b, a)
  {
    CompareFlips(a.path, b.path, 0);
    SameLabel(a.path, b.path);
  }

  lemma {:induction false} LeqTransitive(a: Element, b: Element, c: Element)
    requires Leq(a, b) && Leq(b, c)
    ensures Leq(a, c)
  {
    CompareTransitive(a.path, b.path, c.path);
    SameLabel(a.path, b.path);
    SameLabel(b.path, c.path);
    SameLabel(a.path, c.path);
  }

  // ----- keys of a sorted array

  datatype Key = Key(path: Label, len: LabelLen)

  function KeyOf(e: Element): Key {
    Key(e.path, e.len)
  }

  function Keys(s: seq<Element>): (k: seq<Key>)
    ensures |k| == |s| && forall i | 0 <= i < |s| :: k[i] == KeyOf(s[i])
  {
    if s == [] then [] else [KeyOf(s[0])] + Keys(s[1..])
  }

  // ----- taking elements out of lists

  lemma {:induction false} RemoveFrom<T>(s: seq<T>, i: nat)
    requires i < |s|
    ensures multiset(s) == multiset(Without(s, i)) + multiset{s[i]}
    ensures multiset(Without(s, i)) == multiset(s) - multiset{s[i]}
  {
    assert s == s[..i] + [s[i]] + s[i + 1..];
  }

  lemma {:induction false} KeysWithout(s: seq<Element>, i: nat)
    requires i < |s|
    ensures Keys(Without(s, i)) == Without(Keys(s), i)
  {
  }

  lemma {:induction false} PermutationStep<T>(s: seq<T>, t: seq<T>) returns (i: nat)
    requires multiset(s) == multiset(t) && |s| > 0
    ensures i < |t| && t[i] == s[0] && multiset(Without(s, 0)) == multiset(Without(t, i))
  {
    assert s[0] in multiset(t);
    i :| 0 <= i < |t| && t[i] == s[0];
    RemoveFrom(t, i);
    RemoveFrom(s, 0);
  }

  lemma {:induction false} KeysOfPermutation(s: seq<Element>, t: seq<Element>)
    requires multiset(s) == multiset(t)
    ensures multiset(Keys(s)) == multiset(Keys(t))
    decreases |s|
  {
    assert |multiset(s)| == |s| && |multiset(t)| == |t|;
    if |s| > 0 {
      var i := PermutationStep(s, t);
      KeysOfPermutation(Without(s, 0), Without(t, i));
      KeysWithout(s, 0);
      KeysWithout(t, i);
      RemoveFrom(Keys(s), 0);
      RemoveFrom(Keys(t), i);
      assert Keys(s)[0] == KeyOf(t[i]) == Keys(t)[i];
      assert multiset(Without(Keys(s), 0)) == multiset(Without(Keys(t), i));
    } else {
      assert s == [] && t == [];
    }
  }

  /** Keys are ordered as elements carrying them are. */
  predicate KeyLeq(a: Key, b: Key) {
    Leq(Element(a.path, a.len, Repeat(0, 32)), Element(b.path, b.len, Repeat(0, 32)))
  }

  lemma {:induction false} KeyLeqAntisymmetric(a: Key, b: Key)
    requires KeyLeq(a, b) && KeyLeq(b, a)
    ensures a == b
  {
    CompareFlips(a.path, b.path, 0);
    SameLabel(a.path, b.path);
  }

  lemma {:induction false} KeyLeqReflexive(a: Key)
    ensures KeyLeq(a, a)
  {
    SameLabel(a.path, a.path);
  }

  ghost predicate SortedKeys(k: seq<Key>) {
    forall i, j | 0 <= i < j < |k| :: KeyLeq(k[i], k[j])
  }

  lemma {:induction false} FirstIsLeast(k: seq<Key>, e: Key)
    requires |k| > 0 && SortedKeys(k) && e in multiset(k)
    ensures KeyLeq(k[0], e)
  {
    var i :| 0 <= i < |k| && k[i] == e;
    KeyLeqReflexive(e);
  }

  lemma {:induction false} SameHead(k: seq<Key>, l: seq<Key>)
    requires SortedKeys(k) && SortedKeys(l) && multiset(k) == multiset(l) && |k| > 0
    ensures |k| == |l| && k[0] == l[0] && multiset(k[1..]) == multiset(l[1..])
  {
    assert |k| == |multiset(k)| == |multiset(l)| == |l|;
    RemoveFrom(k, 0);
    RemoveFrom(l, 0);
    assert k[0] in multiset(k) && l[0] in multiset(l);
    FirstIsLeast(k, l[0]);
    FirstIsLeast(l, k[0]);
    KeyLeqAntisymmetric(k[0], l[0]);
    assert Without(k, 0) == k[1..] && Without(l, 0) == l[1..];
  }

  lemma {:induction false} SortedKeysEqual(k: seq<Key>, l: seq<Key>)
    requires SortedKeys(k) && SortedKeys(l) && multiset(k) == multiset(l)
    ensures k == l
    decreases |k|
  {
    if k == [] {
      assert |multiset(l)| == 0;
    } else {
      SameHead(k, l);
      SortedKeysEqual(k[1..], l[1..]);
      assert k == [k[0]] + k[1..] && l == [l[0]] + l[1..];
    }
  }

  /** Two sorted arrangements of the same elements agree on labels, place by place. */
  lemma {:induction false} SortedPermutations(s: seq<Element>, t: seq<Element>)
    requires Sorted(s) && Sorted(t) && multiset(s) == multiset(t)
    ensures SameKeys(s, t)
  {
    KeysOfPermutation(s, t);
    SortedKeysEqual(Keys(s), Keys(t));
    forall i | 0 <= i < |s| ensures SameKey(s[i], t[i]) {
      assert Keys(s)[i] == Keys(t)[i];
    }
  }

  // ----- Root sees only the arrangement's labels, and values where labels are unique

  lemma {:induction false} SearchByKeys(s: seq<Element>, t: seq<Element>, bit: nat, lo: nat, hi: nat)
    requires SameKeys(s, t) && lo <= hi <= |s| && bit < 256
    ensures Search(s, bit, lo, hi) == Search(t, bit, lo, hi)
    decreases hi - lo
  {
    if lo < hi {
      var mid := (lo + hi) / 2;
      assert SameKey(s[mid], t[mid]);
      SearchByKeys(s, t, bit, lo, mid);
      SearchByKeys(s, t, bit, mid + 1, hi);
    }
  }

  /** Both ranges build, or both fail alike. */
  ghost predicate FailAlike(h: Hash, s: seq<Element>, t: seq<Element>) {
    (Subtree(h, s).Ok? <==> Subtree(h, t).Ok?) && (Subtree(h, s).Err? ==> Subtree(h, s) == Subtree(h, t))
  }

  lemma {:induction false} SplitByKeys(s: seq<Element>, t: seq<Element>)
    requires SameKeys(s, t) && |s| >= 2
    ensures var n, m := CommonPrefixLen(s[0], s[|s| - 1]), CommonPrefixLen(t[0], t[|t| - 1]);
            n == m && s[0].len == t[0].len && (s[0].len != n ==> Search(s, n, 0, |s|) == Search(t, n, 0, |t|))
  {
    assert SameKey(s[0], t[0]) && SameKey(s[|s| - 1], t[|t| - 1]);
    var n := CommonPrefixLen(s[0], s[|s| - 1]);
    if s[0].len != n { SearchByKeys(s, t, n, 0, |s|); }
  }

  lemma {:induction false} ErrorsByKeys(h: Hash, s: seq<Element>, t: seq<Element>)
    requires SameKeys(s, t)
    ensures FailAlike(h, s, t)
    decreases |s|
  {
    if |s| >= 2 {
      SplitByKeys(s, t);
      var n := CommonPrefixLen(s[0], s[|s| - 1]);
      if s[0].len != n {
        var k := Search(s, n, 0, |s|);
        if k != 0 && k != |s| {
          ErrorsByKeys(h, s[..k], t[..k]);
          ErrorsByKeys(h, s[k..], t[k..]);
        }
      }
    }
  }

  lemma {:induction false} RootErrorsByKeys(h: Hash, s: seq<Element>, t: seq<Element>)
    requires SameKeys(s, t)
    ensures Root(h, s).Ok? <==> Root(h, t).Ok?
    ensures Root(h, s).Err? ==> Root(h, s) == Root(h, t)
  {
    if |s| > 0 {
      SearchByKeys(s, t, 0, 0, |s|);
      var k := Search(s, 0, 0, |s|);
      ErrorsByKeys(h, s[..k], t[..k]);
      ErrorsByKeys(h, s[k..], t[k..]);
    }
  }

  /** Elements far enough apart have different labels. */
  lemma {:induction false} ApartAreDistinct(s: seq<Element>, i: nat, j: nat)
    requires AllApart(s) && i < j < |s|
    ensures s[i].path != s[j].path
  {
    assert Apart(s[i], s[j]);
    SameLabel(s[i].path, s[j].path);
  }

  lemma {:induction false} UniqueKeysFixValues(s: seq<Element>, t: seq<Element>)
    requires SameKeys(s, t) && multiset(s) == multiset(t) && AllApart(s)
    ensures s == t
  {
    forall i | 0 <= i < |s| ensures s[i] == t[i] {
      assert t[i] in multiset(s);
      var j :| 0 <= j < |s| && s[j] == t[i];
      assert SameKey(s[i], t[i]);
      if i < j { ApartAreDistinct(s, i, j); }
      if j < i { ApartAreDistinct(s, j, i); }
    }
  }

  /** Root gives one answer, down to the error, on every sorted arrangement of the same elements,
      whatever the sort does with equal keys. */
  lemma {:induction false} RootIsOrderIndependent(h: Hash, s: seq<Element>, t: seq<Element>)
    requires Sorted(s) && Sorted(t) && multiset(s) == multiset(t)
    ensures Root(h, s) == Root(h, t)
  {
    SortedPermutations(s, t);
    RootErrorsByKeys(h, s, t);
    if Root(h, s).Ok? {
      RootAcceptsExactly(h, s);
      UniqueKeysFixValues(s, t);
    }
  }
}
