/**
 * The tree as the reference defines it (internal/akdtree/verify.go:41-49, 213-216): an unsorted
 * vector of elements, partitioned afresh at every bit. Root computes the same tree from one
 * sorted array, and a subtree may be replaced by the single element that carries its hash.
 */
module Reference {
  import opened Basics
  import opened Labels
  import opened AkdTree
  import opened Trie

  /** The elements of s whose given bit is b, in their order. */
  function Part(s: seq<Element>, bit: nat, b: bool): seq<Element>
    requires bit < 256
  {
    if s == [] then []
    else if BitAt(s[0].path, bit) == b then [s[0]] + Part(s[1..], bit, b)
    else Part(s[1..], bit, b)
  }

  /** Some element ends at or before depth d and would be dropped by the partition. */
  ghost predicate Dropped(s: seq<Element>, d: nat) {
    exists e :: e in s && e.len <= d
  }

  /** The subtree over s, whose elements share d bits; None when an element would be dropped. */
  ghost function Build(s: seq<Element>, d: nat): Option<Tree>
    requires d <= 256
    decreases 256 - d, s
  {
    if |s| == 0 then Some(Empty)
    else if |s| == 1 then Some(Leaf(s[0]))
    else if Dropped(s, d) then None
    else
      assert s[0] in s;
      var l, r := Part(s, d, false), Part(s, d, true);
      if l == [] then Build(r, d + 1)
      else if r == [] then Build(l, d + 1)
      else
        var lt, rt := Build(l, d + 1), Build(r, d + 1);
        if lt.None? || rt.None? then None
        else Some(Node(PrefixOf(s[0].path, d), d, lt.value, rt.value))
  }

  ghost function BuildTop(s: seq<Element>): Option<Top> {
    if |s| == 0 then Some(NoTree)
    else
      var l, r := Build(Part(s, 0, false), 1), Build(Part(s, 0, true), 1);
      if l.None? || r.None? then None else Some(Top(l.value, r.value))
  }

  ghost function ReferenceRoot(h: Hash, s: seq<Element>): Option<Digest> {
    match BuildTop(s)
    case None => None
    case Some(t) => Some(TopDigest(h, t))
  }

  // ----- partitions as multisets

  lemma {:induction false} PartCounts(s: seq<Element>, bit: nat, b: bool, e: Element)
    requires bit < 256
    ensures multiset(Part(s, bit, b))[e] == if BitAt(e.path, bit) == b then multiset(s)[e] else 0
  {
    if s != [] {
      PartCounts(s[1..], bit, b, e);
      assert s == [s[0]] + s[1..];
    }
  }

  lemma {:induction false} Members(s: seq<Element>, t: seq<Element>)
    requires multiset(s) == multiset(t)
    ensures |s| == |t| && forall e :: e in s <==> e in t
  {
    assert |multiset(s)| == |multiset(t)|;
    forall e ensures e in s <==> e in t {
      assert e in s <==> e in multiset(s);
      assert e in t <==> e in multiset(t);
    }
  }

  /** A list made of two lists that differ at a bit is partitioned back into them. */
  lemma {:induction false} PartOfUnion(s: seq<Element>, l: seq<Element>, r: seq<Element>, bit: nat)
    requires bit < 256 && multiset(s) == multiset(l + r)
    requires forall e | e in l :: !BitAt(e.path, bit)
    requires forall e | e in r :: BitAt(e.path, bit)
    ensures multiset(Part(s, bit, false)) == multiset(l)
    ensures multiset(Part(s, bit, true)) == multiset(r)
  {
    assert multiset(s) == multiset(l) + multiset(r);
    forall e
      ensures multiset(Part(s, bit, false))[e] == multiset(l)[e]
      ensures multiset(Part(s, bit, true))[e] == multiset(r)[e]
    {
      PartCounts(s, bit, false, e);
      PartCounts(s, bit, true, e);
      assert e in l <==> e in multiset(l);
      assert e in r <==> e in multiset(r);
    }
  }

  /** Partitioning loses nothing. */
  lemma {:induction false} PartsOf(s: seq<Element>, bit: nat)
    requires bit < 256
    ensures multiset(Part(s, bit, false)) + multiset(Part(s, bit, true)) == multiset(s)
  {
    forall e
      ensures multiset(Part(s, bit, false))[e] + multiset(Part(s, bit, true))[e] == multiset(s)[e]
    {
      PartCounts(s, bit, false, e);
      PartCounts(s, bit, true, e);
    }
  }

  // ----- tries without dropped elements

  /** Below every node, every element reaches past it. */
  ghost predicate Steers(t: Tree) {
    match t
    case Node(_, n, l, r) => Past(Leaves(l), n) && Past(Leaves(r), n) && Steers(l) && Steers(r)
    case _ => true
  }

  ghost predicate Past(s: seq<Element>, n: nat) {
    forall i | 0 <= i < |s| :: n < s[i].len
  }

  lemma {:induction false} LeavesOfNodes(t: Tree, d: nat)
    requires WellFormed(t, d)
    ensures |Leaves(t)| >= 1
    ensures t.Node? ==> |Leaves(t)| >= 2
    decreases t
  {
    if t.Node? {
      LeavesOfNodes(t.left, t.plen + 1);
      LeavesOfNodes(t.right, t.plen + 1);
    }
  }

  /** All leaves of a node agree with its label. */
  lemma {:induction false} UnderNode(t: Tree, d: nat, e: Element)
    requires WellFormed(t, d) && t.Node? && e in Leaves(t)
    ensures Agree(t.prefix, e.path, t.plen)
    ensures e in Leaves(t.left) <==> !BitAt(e.path, t.plen)
    ensures e in Leaves(t.right) <==> BitAt(e.path, t.plen)
  {
    if e in Leaves(t.left) {
      var i :| 0 <= i < |Leaves(t.left)| && Leaves(t.left)[i] == e;
    }
    if e in Leaves(t.right) {
      var i :| 0 <= i < |Leaves(t.right)| && Leaves(t.right)[i] == e;
    }
  }

  /** When every element has the same bit, one part is everything and the other is empty. */
  lemma {:induction false} OneSided(s: seq<Element>, bit: nat, b: bool)
    requires bit < 256 && forall e | e in s :: BitAt(e.path, bit) == b
    ensures Part(s, bit, b) == s
    ensures Part(s, bit, !b) == []
  {
    if s != [] {
      assert s[0] in s;
      OneSided(s[1..], bit, b);
    }
  }

  lemma {:induction false} SamePrefix(a: Label, p: Label, n: nat)
    requires n <= 256 && Agree(p, a, n) && ZeroTail(p, n)
    ensures PrefixOf(a, n) == p
  {
    PrefixOfBits(a, n);
    ZeroTailUnique(PrefixOf(a, n), p, n);
  }

  /** t is a well-formed trie at depth d over the elements of s. */
  ghost predicate Represents(t: Tree, s: seq<Element>, d: nat) {
    WellFormed(t, d) && Steers(t) && multiset(s) == multiset(Leaves(t))
  }

  /** What the elements under a node have in common. */
  lemma {:induction false} NodeElements(s: seq<Element>, d: nat, t: Tree)
    requires Represents(t, s, d) && t.Node?
    ensures |s| >= 2 && !Dropped(s, t.plen) && !Dropped(s, d)
    ensures forall e | e in s :: Agree(t.prefix, e.path, t.plen)
  {
    var l, r := Leaves(t.left), Leaves(t.right);
    Members(s, Leaves(t));
    LeavesOfNodes(t, d);
    forall e | e in s ensures t.plen < e.len && Agree(t.prefix, e.path, t.plen) {
      UnderNode(t, d, e);
      if e in l {
        var i :| 0 <= i < |l| && l[i] == e;
      } else {
        var i :| 0 <= i < |r| && r[i] == e;
      }
    }
  }

  lemma {:induction false} NodeParts(s: seq<Element>, d: nat, t: Tree)
    requires Represents(t, s, d) && t.Node? && t.plen == d
    ensures multiset(Part(s, d, false)) == multiset(Leaves(t.left))
    ensures multiset(Part(s, d, true)) == multiset(Leaves(t.right))
    ensures Part(s, d, false) != [] && Part(s, d, true) != []
  {
    LeavesOfNodes(t.left, d + 1);
    LeavesOfNodes(t.right, d + 1);
    var l, r := Leaves(t.left), Leaves(t.right);
    forall e | e in l ensures !BitAt(e.path, d) { var i :| 0 <= i < |l| && l[i] == e; }
    forall e | e in r ensures BitAt(e.path, d) { var i :| 0 <= i < |r| && r[i] == e; }
    PartOfUnion(s, l, r, d);
    Members(Part(s, d, false), l);
    Members(Part(s, d, true), r);
  }

  lemma {:induction false} BuildOneSided(s: seq<Element>, d: nat, b: bool)
    requires |s| >= 2 && d < 256 && !Dropped(s, d)
    requires forall e | e in s :: BitAt(e.path, d) == b
    ensures Build(s, d) == Build(s, d + 1)
  {
    OneSided(s, d, b);
  }

  lemma {:induction false} BuildOfParts(s: seq<Element>, d: nat, l: Tree, r: Tree)
    requires |s| >= 2 && d < 256 && !Dropped(s, d)
    requires Part(s, d, false) != [] && Part(s, d, true) != []
    requires Build(Part(s, d, false), d + 1) == Some(l) && Build(Part(s, d, true), d + 1) == Some(r)
    ensures Build(s, d) == Some(Node(PrefixOf(s[0].path, d), d, l, r))
  {
  }

  lemma {:induction false} StepDown(s: seq<Element>, d: nat, t: Tree)
    requires Represents(t, s, d) && t.Node? && d < t.plen
    ensures Represents(t, s, d + 1) && Build(s, d) == Build(s, d + 1)
  {
    NodeElements(s, d, t);
    BuildOneSided(s, d, BitAt(t.prefix, d));
  }

  lemma {:induction false} StepApart(s: seq<Element>, d: nat, t: Tree)
    requires Represents(t, s, d) && t.Node? && d == t.plen
    ensures Represents(t.left, Part(s, d, false), d + 1) && Represents(t.right, Part(s, d, true), d + 1)
  {
    NodeElements(s, d, t);
    NodeParts(s, d, t);
  }

  lemma {:induction false} StepTogether(s: seq<Element>, d: nat, t: Tree)
    requires Represents(t, s, d) && t.Node? && d == t.plen
    requires Build(Part(s, d, false), d + 1) == Some(t.left) && Build(Part(s, d, true), d + 1) == Some(t.right)
    ensures Build(s, d) == Some(t)
  {
    NodeElements(s, d, t);
    NodeParts(s, d, t);
    assert s[0] in s;
    SamePrefix(s[0].path, t.prefix, d);
    BuildOfParts(s, d, t.left, t.right);
  }

  lemma {:induction false} BuildLeaf(s: seq<Element>, d: nat, e: Element)
    requires d <= 256 && multiset(s) == multiset([e])
    ensures Build(s, d) == Some(Leaf(e))
  {
    Members(s, [e]);
    assert s[0] in s;
  }

  /** The reference builds every well-formed trie from its leaves, whatever their order. */
  lemma {:induction false} BuildIsUnique(s: seq<Element>, d: nat, t: Tree)
    requires d <= 256 && Represents(t, s, d)
    ensures Build(s, d) == Some(t)
    decreases 256 - d, 1
  {
    if t.Leaf? {
      BuildLeaf(s, d, t.e);
    } else if d < t.plen {
      StepDown(s, d, t);
      BuildIsUnique(s, d + 1, t);
    } else {
      BuildApart(s, d, t);
    }
  }

  lemma {:induction false} BuildApart(s: seq<Element>, d: nat, t: Tree)
    requires d < 256 && Represents(t, s, d) && t.Node? && d == t.plen
    ensures Build(s, d) == Some(t)
    decreases 256 - d, 0
  {
    StepApart(s, d, t);
    BuildIsUnique(Part(s, d, false), d + 1, t.left);
    BuildIsUnique(Part(s, d, true), d + 1, t.right);
    StepTogether(s, d, t);
  }
}
