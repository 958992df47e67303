/**
 * Where Root computes what the reference computes, exactly (internal/akdtree/verify.go:211-314).
 */
module Refinement {
  import opened Basics
  import opened Labels
  import opened AkdTree
  import opened Trie
  import opened Rejection
  import opened Reference
  import opened Ordering

  // ----- tries built from sorted arrays drop nothing

  lemma {:induction false} ElementPast(s: seq<Element>, k: nat, n: nat, i: nat)
    requires 0 < k < |s| && i < |s| && 0 < n < 256 && AllSteered(s)
    requires Under(s[..k], s[0].path, n, false) && Under(s[k..], s[0].path, n, true)
    ensures n < s[i].len
  {
    var x, y := if i < k then i else 0, if i < k then k else i;
    AcrossSplit(s, k, n, x, y);
    assert Steered(s[x], s[y]);
  }

  /** In a sorted range of two or more steered elements that builds, all reach past the split. */
  lemma {:induction false} AllPast(s: seq<Element>, d: nat, t: Tree)
    requires |s| >= 2 && 0 < d <= 256 && Sorted(s) && Share(s, d) && Shape(s) == Ok(t) && AllSteered(s)
    ensures t.Node? && Past(s, t.plen)
  {
    var n, k := SplitFacts(s, d, t);
    forall i | 0 <= i < |s| ensures n < s[i].len {
      ElementPast(s, k, n, i);
    }
  }

  lemma {:induction false} ShapeSteers(s: seq<Element>, d: nat, t: Tree)
    requires |s| > 0 && 0 < d <= 256 && Sorted(s) && Share(s, d) && Shape(s) == Ok(t) && AllSteered(s)
    ensures Steers(t)
    decreases |s|
  {
    if |s| >= 2 {
      var n, k := SplitFacts(s, d, t);
      AllPast(s, d, t);
      ShapeSteers(s[..k], n + 1, t.left);
      ShapeSteers(s[k..], n + 1, t.right);
      ShapeIsWellFormed(s[..k], n + 1, t.left);
      ShapeIsWellFormed(s[k..], n + 1, t.right);
      SteersAbove(s, k, n, t);
    }
  }

  lemma {:induction false} SteersAbove(s: seq<Element>, k: nat, n: nat, t: Tree)
    requires k <= |s| && t.Node? && t.plen == n && Past(s, n)
    requires Leaves(t.left) == s[..k] && Leaves(t.right) == s[k..] && Steers(t.left) && Steers(t.right)
    ensures Steers(t)
  {
  }

  // ----- and neither do the reference's

  lemma {:induction false} PartMembers(s: seq<Element>, bit: nat, b: bool, e: Element)
    requires bit < 256
    ensures e in Part(s, bit, b) <==> e in s && BitAt(e.path, bit) == b
  {
    if s != [] {
      PartMembers(s[1..], bit, b, e);
      assert e in s <==> e == s[0] || e in s[1..];
    }
  }

  ghost predicate SharePath(s: seq<Element>, p: Label, d: nat)
    requires d <= 256
  {
    forall i | 0 <= i < |s| :: Agree(p, s[i].path, d)
  }

  /** The parts of a list sharing d bits. */
  lemma {:induction false} PartShares(s: seq<Element>, d: nat, b: bool, p: Label)
    requires d < 256 && SharePath(s, p, d)
    ensures Under(Part(s, d, b), p, d, b)
    ensures Part(s, d, b) != [] ==> SharePath(Part(s, d, b), Part(s, d, b)[0].path, d + 1)
  {
    var q := Part(s, d, b);
    forall i | 0 <= i < |q| ensures Agree(p, q[i].path, d) && BitAt(q[i].path, d) == b {
      PartMembers(s, d, b, q[i]);
      var j :| 0 <= j < |s| && s[j] == q[i];
    }
  }

  /** One part of a list, as the leaves of a child. */
  lemma {:induction false} ChildLeaves(s: seq<Element>, d: nat, p: Label, b: bool, t: Tree)
    requires d < 256 && SharePath(s, p, d) && !Dropped(s, d)
    requires multiset(Part(s, d, b)) == multiset(Leaves(t))
    ensures Under(Leaves(t), PrefixOf(p, d), d, b) && Past(Leaves(t), d)
  {
    PartShares(s, d, b, p);
    LeavesInherit(Part(s, d, b), t, p, d, b);
    PartPast(s, d, b);
    PastLeaves(Part(s, d, b), t, d);
  }

  lemma {:induction false} JoinLeaves(s: seq<Element>, d: nat, l: Tree, r: Tree)
    requires d < 256
    requires multiset(Part(s, d, false)) == multiset(Leaves(l)) && multiset(Part(s, d, true)) == multiset(Leaves(r))
    ensures multiset(s) == multiset(Leaves(l) + Leaves(r))
  {
    PartsOf(s, d);
  }

  lemma {:induction false} NodeSound(p: Label, d: nat, l: Tree, r: Tree)
    requires d < 256 && WellFormed(l, d + 1) && WellFormed(r, d + 1) && Steers(l) && Steers(r)
    requires Under(Leaves(l), PrefixOf(p, d), d, false) && Past(Leaves(l), d)
    requires Under(Leaves(r), PrefixOf(p, d), d, true) && Past(Leaves(r), d)
    ensures var t := Node(PrefixOf(p, d), d, l, r); WellFormed(t, d) && Steers(t)
  {
    PrefixOfBits(p, d);
  }

  /** The trie the reference builds is a well-formed one over its elements. */
  lemma {:induction false} NodeRepresents(s: seq<Element>, d: nat, p: Label, l: Tree, r: Tree)
    requires |s| > 0 && d < 256 && SharePath(s, p, d) && !Dropped(s, d)
    requires Represents(l, Part(s, d, false), d + 1) && Represents(r, Part(s, d, true), d + 1)
    ensures Represents(Node(PrefixOf(p, d), d, l, r), s, d)
  {
    ChildLeaves(s, d, p, false, l);
    ChildLeaves(s, d, p, true, r);
    JoinLeaves(s, d, l, r);
    NodeSound(p, d, l, r);
  }

  lemma {:induction false} PartPast(s: seq<Element>, d: nat, b: bool)
    requires d < 256 && !Dropped(s, d)
    ensures Past(Part(s, d, b), d)
  {
    var q := Part(s, d, b);
    forall i | 0 <= i < |q| ensures d < q[i].len {
      PartMembers(s, d, b, q[i]);
    }
  }

  lemma {:induction false} PastLeaves(a: seq<Element>, t: Tree, n: nat)
    requires multiset(a) == multiset(Leaves(t)) && Past(a, n)
    ensures Past(Leaves(t), n)
  {
    Members(a, Leaves(t));
    forall i | 0 <= i < |Leaves(t)| ensures n < Leaves(t)[i].len {
      assert Leaves(t)[i] in a;
    }
  }

  lemma {:induction false} LeavesInherit(a: seq<Element>, t: Tree, p: Label, n: nat, b: bool)
    requires n < 256 && multiset(a) == multiset(Leaves(t)) && Under(a, p, n, b)
    ensures Under(Leaves(t), PrefixOf(p, n), n, b)
  {
    Members(a, Leaves(t));
    PrefixOfBits(p, n);
    forall i | 0 <= i < |Leaves(t)|
      ensures Agree(PrefixOf(p, n), Leaves(t)[i].path, n) && BitAt(Leaves(t)[i].path, n) == b
    {
      assert Leaves(t)[i] in a;
      var j :| 0 <= j < |a| && a[j] == Leaves(t)[i];
    }
  }

  lemma {:induction false} PartWhole(s: seq<Element>, d: nat, b: bool)
    requires d < 256 && Part(s, d, !b) == []
    ensures multiset(Part(s, d, b)) == multiset(s)
  {
    PartsOf(s, d);
    assert multiset(Part(s, d, !b)) == multiset{};
  }

  lemma {:induction false} Shallower(t: Tree, q: seq<Element>, s: seq<Element>, d: nat)
    requires Represents(t, q, d + 1) && multiset(q) == multiset(s)
    ensures Represents(t, s, d)
  {
  }

  lemma {:induction false} BuildRepresents(s: seq<Element>, d: nat, t: Tree)
    requires |s| > 0 && d <= 256 && SharePath(s, s[0].path, d) && Build(s, d) == Some(t)
    ensures Represents(t, s, d)
    decreases 256 - d
  {
    if |s| > 1 {
      assert s[0] in s;
      var l, r := Part(s, d, false), Part(s, d, true);
      PartShares(s, d, false, s[0].path);
      PartShares(s, d, true, s[0].path);
      if l == [] {
        PartWhole(s, d, true);
        assert |multiset(r)| == |multiset(s)|;
        BuildRepresents(r, d + 1, t);
        Shallower(t, r, s, d);
      } else if r == [] {
        PartWhole(s, d, false);
        BuildRepresents(l, d + 1, t);
        Shallower(t, l, s, d);
      } else {
        BuildRepresents(l, d + 1, t.left);
        BuildRepresents(r, d + 1, t.right);
        NodeRepresents(s, d, s[0].path, t.left, t.right);
      }
    } else {
      assert s == [s[0]];
    }
  }

  // ----- the two agree

  lemma {:induction false} AcrossNode(t: Tree, d: nat, e: Element, f: Element)
    requires WellFormed(t, d) && Steers(t) && t.Node? && e in Leaves(t.left) && f in Leaves(t.right)
    ensures Leq(e, f) && Steered(e, f)
  {
    var i :| 0 <= i < |Leaves(t.left)| && Leaves(t.left)[i] == e;
    var j :| 0 <= j < |Leaves(t.right)| && Leaves(t.right)[j] == f;
    SharedBitsUnique(e.path, f.path, 256, t.plen);
    OrderByBits(e.path, f.path);
  }

  /** Read from left to right, a well-formed trie lists its elements in sorted order. */
  lemma {:induction false} LeavesAreSorted(t: Tree, d: nat)
    requires WellFormed(t, d) && Steers(t)
    ensures Sorted(Leaves(t)) && AllSteered(Leaves(t))
    decreases t
  {
    if t.Node? {
      Children(t, d);
      LeavesAreSorted(t.left, t.plen + 1);
      LeavesAreSorted(t.right, t.plen + 1);
      var l, r := Leaves(t.left), Leaves(t.right);
      forall i, j | 0 <= i < j < |l + r| ensures Leq((l + r)[i], (l + r)[j]) && Steered((l + r)[i], (l + r)[j]) {
        if i < |l| <= j { AcrossNode(t, d, l[i], r[j - |l|]); }
      }
    }
  }

  lemma {:induction false} Children(t: Tree, d: nat)
    requires WellFormed(t, d) && Steers(t) && t.Node?
    ensures WellFormed(t.left, t.plen + 1) && WellFormed(t.right, t.plen + 1)
    ensures Steers(t.left) && Steers(t.right)
  {
  }

  lemma {:induction false} SteeredByKeys(s: seq<Element>, t: seq<Element>)
    requires SameKeys(s, t) && AllSteered(t)
    ensures AllSteered(s)
  {
    forall i, j | 0 <= i < j < |s| ensures Steered(s[i], s[j]) {
      assert SameKey(s[i], t[i]) && SameKey(s[j], t[j]) && Steered(t[i], t[j]);
    }
  }

  lemma {:induction false} PermutationShares(s: seq<Element>, q: seq<Element>, d: nat)
    requires d <= 256 && Share(s, d) && multiset(q) == multiset(s) && |s| > 0
    ensures |q| > 0 && SharePath(q, q[0].path, d)
  {
    Members(q, s);
    forall i | 0 <= i < |q| ensures Agree(q[0].path, q[i].path, d) {
      assert q[0] in s && q[i] in s;
      var a :| 0 <= a < |s| && s[a] == q[0];
      var b :| 0 <= b < |s| && s[b] == q[i];
    }
  }

  /** One side of the root: the sorted range and any arrangement of its elements. */
  lemma {:induction false} SideAgrees(s: seq<Element>, q: seq<Element>)
    requires Sorted(s) && Share(s, 1) && multiset(q) == multiset(s)
    ensures Build(q, 1).Some? <==> AllSteered(s)
    ensures AllSteered(s) ==> Shape(s).Ok? && Build(q, 1) == Some(Shape(s).value)
  {
    Members(q, s);
    if |s| > 0 {
      if AllSteered(s) { SteeredBuilds(s, q); }
      if Build(q, 1).Some? {
        var t := Build(q, 1).value;
        PermutationShares(s, q, 1);
        BuildRepresents(q, 1, t);
        LeavesAreSorted(t, 1);
        SortedPermutations(s, Leaves(t));
        SteeredByKeys(s, Leaves(t));
      }
    }
  }

  lemma {:induction false} SteeredBuilds(s: seq<Element>, q: seq<Element>)
    requires |s| > 0 && Sorted(s) && Share(s, 1) && multiset(q) == multiset(s) && AllSteered(s)
    ensures Shape(s).Ok? && Build(q, 1) == Some(Shape(s).value)
  {
    forall i, j | 0 <= i < j < |s| ensures Apart(s[i], s[j]) { assert Steered(s[i], s[j]); }
    ApartIsBuilt(s, 1);
    ShapeIsWellFormed(s, 1, Shape(s).value);
    ShapeSteers(s, 1, Shape(s).value);
    BuildIsUnique(q, 1, Shape(s).value);
  }

  lemma {:induction false} UnderBits(s: seq<Element>, p: Label, n: nat, b: bool)
    requires n < 256 && Under(s, p, n, b)
    ensures forall e | e in s :: BitAt(e.path, n) == b
  {
    forall e | e in s ensures BitAt(e.path, n) == b {
      var i :| 0 <= i < |s| && s[i] == e;
    }
  }

  /** The two sides of the root. */
  lemma {:induction false} TopHalves(s: seq<Element>) returns (a: seq<Element>, b: seq<Element>)
    requires |s| > 0 && Sorted(s)
    ensures s == a + b && a == s[..Search(s, 0, 0, |s|)] && b == s[Search(s, 0, 0, |s|)..]
    ensures Share(a, 1) && Share(b, 1) && Sorted(a) && Sorted(b)
    ensures forall e | e in a :: !BitAt(e.path, 0)
    ensures forall e | e in b :: BitAt(e.path, 0)
  {
    var k := Search(s, 0, 0, |s|);
    a, b := s[..k], s[k..];
    HalvesOf(s, 0, k);
    UnderBits(a, s[0].path, 0, false);
    UnderBits(b, s[0].path, 0, true);
  }

  /** Elements on different sides of the root share no bits. */
  lemma {:induction false} SteeredSides(a: seq<Element>, b: seq<Element>)
    requires (forall e | e in a :: !BitAt(e.path, 0)) && forall e | e in b :: BitAt(e.path, 0)
    ensures AllSteered(a + b) <==> AllSteered(a) && AllSteered(b)
  {
    var s := a + b;
    assert forall i | 0 <= i < |a| :: s[i] == a[i];
    assert forall i | 0 <= i < |b| :: s[|a| + i] == b[i];
    forall i, j | 0 <= i < |a| <= j < |s| ensures Steered(s[i], s[j]) {
      assert s[i] in a && s[j] == b[j - |a|] && b[j - |a|] in b;
      SharedBitsUnique(s[i].path, s[j].path, 256, 0);
    }
  }

  /** The reference builds the sides separately, and both must build. */
  lemma {:induction false} TopAgrees(s: seq<Element>, p: seq<Element>)
    requires |s| > 0 && Sorted(s) && multiset(p) == multiset(s)
    ensures BuildTop(p).Some? <==> AllSteered(s)
    ensures AllSteered(s) ==> TopShape(s).Ok? && BuildTop(p) == Some(TopShape(s).value)
  {
    Members(p, s);
    var a, b := TopHalves(s);
    PartOfUnion(p, a, b, 0);
    SideAgrees(a, Part(p, 0, false));
    SideAgrees(b, Part(p, 0, true));
    SteeredSides(a, b);
  }

  /** The reference, handed the elements in any order, accepts exactly the arrays in which of every
      two elements both reach past the bits they share; and there Root gives the same digest. So the
      two agree on an array if and only if Root accepts no more than that. */
  lemma {:induction false} RootIsReference(h: Hash, s: seq<Element>, p: seq<Element>)
    requires Sorted(s) && multiset(p) == multiset(s)
    ensures ReferenceRoot(h, p).Some? <==> AllSteered(s)
    ensures AllSteered(s) ==> Root(h, s).Ok? && ReferenceRoot(h, p) == Some(Root(h, s).value)
    ensures (Root(h, s).Ok? <==> ReferenceRoot(h, p).Some?) <==> (AllApart(s) ==> AllSteered(s))
  {
    RootHashesShape(h, s);
    RootAcceptsExactly(h, s);
    Members(p, s);
    if |s| > 0 { TopAgrees(s, p); }
  }

  /** On labels whose unused bits are 0 the two always agree. */
  lemma {:induction false} NormalRootIsReference(h: Hash, s: seq<Element>, p: seq<Element>)
    requires Sorted(s) && AllNormal(s) && multiset(p) == multiset(s)
    ensures ReferenceRoot(h, p) == match Root(h, s)
                                   case Ok(d) => Some(d)
                                   case Err(_) => None
  {
    RootIsReference(h, s, p);
    forall i, j | 0 <= i < j < |s| ensures Apart(s[i], s[j]) <==> Steered(s[i], s[j]) {
      NormalIsSteered(s[i], s[j]);
    }
  }

  /** On others they need not: Root builds a tree here and the reference drops the second element,
      whose label ends where the two part. */
  lemma {:induction false} DirtyLabelDividesThem(h: Hash, v: Digest, w: Digest)
    ensures var s := [Element(Repeat(0, 32), 256, v), Element(DirtyLabel(), 1, w)];
            Sorted(s) && Root(h, s).Ok? && ReferenceRoot(h, s).None?
  {
    var a, b := Element(Repeat(0, 32), 256, v), Element(DirtyLabel(), 1, w);
    DirtyLabelAccepted(h, v, w);
    DirtyLabelParts();
    RootIsReference(h, [a, b], [a, b]);
    assert !Steered([a, b][0], [a, b][1]);
  }
}
