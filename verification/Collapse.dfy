/**
 * A subtree may be replaced by the one element that carries its prefix, its length and its hash:
 * what an unchanged node of an append-only proof is (internal/akdtree/verify.go:41-49).
 */
module Collapse {
  import opened Basics
  import opened Labels
  import opened AkdTree
  import opened Trie
  import opened Rejection
  import opened Reference
  import opened Refinement

  /** The subtrees of t. */
  function Nodes(t: Tree): set<Tree> {
    match t
    case Node(_, _, l, r) => {t} + Nodes(l) + Nodes(r)
    case _ => {t}
  }

  function TopNodes(t: Top): set<Tree> {
    match t
    case NoTree => {}
    case Top(l, r) => Nodes(l) + Nodes(r)
  }

  /** The element that stands for the node x. */
  function StandIn(h: Hash, x: Tree): Element
    requires x.Node?
  {
    Element(x.prefix, x.plen, Val(h, x))
  }

  /** t with x cut down to one leaf. */
  function Cut(h: Hash, t: Tree, x: Tree): Tree
    requires x.Node?
  {
    if t == x then Leaf(StandIn(h, x))
    else match t
      case Node(p, n, l, r) => Node(p, n, Cut(h, l, x), Cut(h, r, x))
      case _ => t
  }

  lemma {:induction false} CutKeepsHash(h: Hash, t: Tree, x: Tree)
    requires x.Node?
    ensures HashOf(h, Cut(h, t, x)) == HashOf(h, t)
  {
    if t != x && t.Node? {
      CutKeepsHash(h, t.left, x);
      CutKeepsHash(h, t.right, x);
    }
  }

  lemma {:induction false} CutElsewhere(h: Hash, t: Tree, x: Tree)
    requires x.Node? && x !in Nodes(t)
    ensures Cut(h, t, x) == t
  {
    if t.Node? {
      CutElsewhere(h, t.left, x);
      CutElsewhere(h, t.right, x);
    }
  }

  /** Facts about a node somewhere in a well-formed trie. */
  lemma {:induction false} NodeWithin(t: Tree, d: nat, x: Tree)
    requires WellFormed(t, d) && x in Nodes(t) && x.Node?
    ensures d <= x.plen && WellFormed(x, d) && multiset(Leaves(x)) <= multiset(Leaves(t))
    ensures Steers(t) ==> Steers(x)
    decreases t
  {
    if t != x {
      if x in Nodes(t.left) {
        NodeWithin(t.left, t.plen + 1, x);
      } else {
        NodeWithin(t.right, t.plen + 1, x);
      }
    }
  }

  lemma {:induction false} LeafWithin(t: Tree, d: nat, x: Tree) returns (e: Element)
    requires WellFormed(t, d) && x in Nodes(t) && x.Node?
    ensures e in Leaves(x) && e in Leaves(t) && Agree(x.prefix, e.path, x.plen)
  {
    NodeWithin(t, d, x);
    LeavesOfNodes(x, d);
    e := Leaves(x)[0];
    UnderNode(x, d, e);
    assert e in multiset(Leaves(x));
    assert e in multiset(Leaves(t));
  }

  lemma {:induction false} LeafInside(t: Tree, d: nat, x: Tree, e: Element)
    requires WellFormed(t, d) && x in Nodes(t) && x.Node? && e in Leaves(x)
    ensures e in Leaves(t)
  {
    NodeWithin(t, d, x);
    assert e in multiset(Leaves(x));
    assert e in multiset(Leaves(t));
  }

  /** A node lies on one side only. */
  lemma {:induction false} OneSide(t: Tree, d: nat, x: Tree)
    requires WellFormed(t, d) && t.Node? && x.Node? && x in Nodes(t.left)
    ensures x !in Nodes(t.right)
  {
    var e := LeafWithin(t.left, t.plen + 1, x);
    UnderBits(Leaves(t.left), t.prefix, t.plen, false);
    UnderBits(Leaves(t.right), t.prefix, t.plen, true);
    if x in Nodes(t.right) {
      LeafInside(t.right, t.plen + 1, x, e);
      assert false;
    }
  }

  /** The stand-in of a node below t belongs where the node was. */
  lemma {:induction false} StandInFits(h: Hash, t: Tree, n: nat, x: Tree, p: Label, b: bool)
    requires n < 256 && WellFormed(t, n + 1) && x in Nodes(t) && x.Node? && Under(Leaves(t), p, n, b)
    ensures Agree(p, StandIn(h, x).path, n) && BitAt(StandIn(h, x).path, n) == b && n < StandIn(h, x).len
  {
    NodeWithin(t, n + 1, x);
    var e := LeafWithin(t, n + 1, x);
    var i :| 0 <= i < |Leaves(t)| && Leaves(t)[i] == e;
  }

  /** A child that lost some leaves and gained a fitting one still fits. */
  lemma {:induction false} ChildFits(a: seq<Element>, l: seq<Element>, gone: seq<Element>, c: Element, p: Label,
          n: nat, b: bool)
    requires n < 256 && multiset(a) == multiset(l) - multiset(gone) + multiset{c}
    requires Under(l, p, n, b) && Past(l, n)
    requires Agree(p, c.path, n) && BitAt(c.path, n) == b && n < c.len
    ensures Under(a, p, n, b) && Past(a, n)
  {
    forall i | 0 <= i < |a| ensures Agree(p, a[i].path, n) && BitAt(a[i].path, n) == b && n < a[i].len {
      assert a[i] in multiset(a);
      if a[i] != c {
        assert a[i] in multiset(l);
        var j :| 0 <= j < |l| && l[j] == a[i];
      }
    }
  }

  ghost predicate CutOf(h: Hash, t: Tree, d: nat, x: Tree, c: Tree)
    requires x.Node?
  {
    && WellFormed(c, d) && Steers(c)
    && multiset(Leaves(c)) == multiset(Leaves(t)) - multiset(Leaves(x)) + multiset{StandIn(h, x)}
  }

  lemma {:induction false} Exchange(a: multiset<Element>, b: multiset<Element>, gone: multiset<Element>, c: Element)
    requires gone <= a
    ensures (a - gone + multiset{c}) + b == (a + b) - gone + multiset{c}
    ensures b + (a - gone + multiset{c}) == (b + a) - gone + multiset{c}
  {
  }

  lemma {:induction false} NodeOver(p: Label, n: LabelLen, l: Tree, r: Tree, d: nat)
    requires d <= n < 256 && ZeroTail(p, n) && WellFormed(l, n + 1) && WellFormed(r, n + 1)
    requires Under(Leaves(l), p, n, false) && Past(Leaves(l), n) && Steers(l)
    requires Under(Leaves(r), p, n, true) && Past(Leaves(r), n) && Steers(r)
    ensures WellFormed(Node(p, n, l, r), d) && Steers(Node(p, n, l, r))
  {
  }

  lemma {:induction false} CutLeft(h: Hash, t: Tree, d: nat, x: Tree, c: Tree)
    requires WellFormed(t, d) && Steers(t) && t.Node? && x.Node? && x in Nodes(t.left)
    requires CutOf(h, t.left, t.plen + 1, x, c)
    ensures CutOf(h, t, d, x, Node(t.prefix, t.plen, c, t.right))
  {
    StandInFits(h, t.left, t.plen, x, t.prefix, false);
    ChildFits(Leaves(c), Leaves(t.left), Leaves(x), StandIn(h, x), t.prefix, t.plen, false);
    NodeOver(t.prefix, t.plen, c, t.right, d);
    NodeWithin(t.left, t.plen + 1, x);
    Exchange(multiset(Leaves(t.left)), multiset(Leaves(t.right)), multiset(Leaves(x)), StandIn(h, x));
  }

  lemma {:induction false} CutRight(h: Hash, t: Tree, d: nat, x: Tree, c: Tree)
    requires WellFormed(t, d) && Steers(t) && t.Node? && x.Node? && x in Nodes(t.right)
    requires CutOf(h, t.right, t.plen + 1, x, c)
    ensures CutOf(h, t, d, x, Node(t.prefix, t.plen, t.left, c))
  {
    StandInFits(h, t.right, t.plen, x, t.prefix, true);
    ChildFits(Leaves(c), Leaves(t.right), Leaves(x), StandIn(h, x), t.prefix, t.plen, true);
    NodeOver(t.prefix, t.plen, t.left, c, d);
    NodeWithin(t.right, t.plen + 1, x);
    Exchange(multiset(Leaves(t.right)), multiset(Leaves(t.left)), multiset(Leaves(x)), StandIn(h, x));
  }

  lemma {:induction false} CutIsWellFormed(h: Hash, t: Tree, d: nat, x: Tree)
    requires WellFormed(t, d) && Steers(t) && x in Nodes(t) && x.Node?
    ensures CutOf(h, t, d, x, Cut(h, t, x))
    decreases t
  {
    if t == x {
      assert Leaves(Cut(h, t, x)) == [StandIn(h, x)];
    } else if x in Nodes(t.left) {
      OneSide(t, d, x);
      CutElsewhere(h, t.right, x);
      Children(t, d);
      CutIsWellFormed(h, t.left, t.plen + 1, x);
      CutLeft(h, t, d, x, Cut(h, t.left, x));
    } else {
      CutElsewhere(h, t.left, x);
      Children(t, d);
      CutIsWellFormed(h, t.right, t.plen + 1, x);
      CutRight(h, t, d, x, Cut(h, t.right, x));
    }
  }

  // ----- at the root

  /** One side of the root is a trie over its elements, or empty. */
  ghost predicate SideOf(t: Tree, s: seq<Element>) {
    if s == [] then t == Empty else Represents(t, s, 1)
  }

  lemma {:induction false} BuildSide(t: Tree, s: seq<Element>, q: seq<Element>)
    requires SideOf(t, s) && multiset(q) == multiset(s)
    ensures Build(q, 1) == Some(t)
  {
    Members(q, s);
    if s != [] {
      BuildIsUnique(q, 1, t);
    }
  }

  lemma {:induction false} BuildSides(l: Tree, r: Tree, a: seq<Element>, b: seq<Element>, s: seq<Element>)
    requires SideOf(l, a) && SideOf(r, b) && multiset(s) == multiset(a + b)
    requires forall e | e in a :: !BitAt(e.path, 0)
    requires forall e | e in b :: BitAt(e.path, 0)
    ensures Build(Part(s, 0, false), 1) == Some(l) && Build(Part(s, 0, true), 1) == Some(r)
  {
    PartOfUnion(s, a, b, 0);
    BuildSide(l, a, Part(s, 0, false));
    BuildSide(r, b, Part(s, 0, true));
  }

  /** Root over the leaves of two sides hashes those sides. */
  lemma {:induction false} RootOfSides(h: Hash, l: Tree, r: Tree, a: seq<Element>, b: seq<Element>, s: seq<Element>)
    requires SideOf(l, a) && SideOf(r, b) && multiset(s) == multiset(a + b) && |s| > 0
    requires forall e | e in a :: !BitAt(e.path, 0)
    requires forall e | e in b :: BitAt(e.path, 0)
    requires Sorted(s) && AllNormal(s)
    ensures Root(h, s) == Ok(TopDigest(h, Top(l, r)))
  {
    BuildSides(l, r, a, b, s);
    NormalRootIsReference(h, s, s);
  }

  lemma {:induction false} BuiltIsSteered(s: seq<Element>, t: Tree)
    requires s != [] && Sorted(s) && AllNormal(s) && Share(s, 1) && Shape(s) == Ok(t)
    ensures AllSteered(s)
  {
    BuiltIsApart(s, 1, t);
    forall i, j | 0 <= i < j < |s| ensures Steered(s[i], s[j]) {
      NormalIsSteered(s[i], s[j]);
    }
  }

  lemma {:induction false} ShapeSide(s: seq<Element>, t: Tree)
    requires Sorted(s) && AllNormal(s) && Share(s, 1) && Shape(s) == Ok(t)
    ensures SideOf(t, s)
  {
    if s != [] {
      BuiltIsSteered(s, t);
      ShapeIsWellFormed(s, 1, t);
      ShapeSteers(s, 1, t);
    }
  }

  lemma {:induction false} ShapeSides(s: seq<Element>, t: Top) returns (a: seq<Element>, b: seq<Element>)
    requires Sorted(s) && AllNormal(s) && |s| > 0 && TopShape(s) == Ok(t)
    ensures s == a + b && t.Top? && SideOf(t.left, a) && SideOf(t.right, b)
    ensures forall e | e in a :: !BitAt(e.path, 0)
    ensures forall e | e in b :: BitAt(e.path, 0)
  {
    a, b := TopHalves(s);
    ShapeSide(a, t.left);
    ShapeSide(b, t.right);
  }

  /** Cutting a node on one side of the root. */
  lemma {:induction false} CutSide(h: Hash, t: Tree, a: seq<Element>, x: Tree, b: bool)
    requires SideOf(t, a) && x in Nodes(t) && x.Node? && forall e | e in a :: BitAt(e.path, 0) == b
    ensures var c := Cut(h, t, x);
            && SideOf(c, Leaves(c)) && Leaves(c) != []
            && multiset(Leaves(x)) <= multiset(a)
            && multiset(Leaves(c)) == multiset(a) - multiset(Leaves(x)) + multiset{StandIn(h, x)}
            && (forall e | e in Leaves(c) :: BitAt(e.path, 0) == b)
    ensures Normal(StandIn(h, x)) && HashOf(h, Cut(h, t, x)) == HashOf(h, t)
  {
    CutIsWellFormed(h, t, 1, x);
    CutKeepsHash(h, t, x);
    NodeWithin(t, 1, x);
    var e := LeafWithin(t, 1, x);
    assert e in multiset(a);
    var c := Leaves(Cut(h, t, x));
    assert StandIn(h, x) in multiset(c);
    forall f | f in c ensures BitAt(f.path, 0) == b {
      assert f in multiset(c);
      assert f == StandIn(h, x) || f in multiset(a);
    }
  }

  lemma {:induction false} StillNormal(s: seq<Element>, gone: multiset<Element>, c: Element, s2: seq<Element>)
    requires AllNormal(s) && Normal(c) && multiset(s2) == multiset(s) - gone + multiset{c}
    ensures AllNormal(s2) && |s2| > 0
  {
    assert c in multiset(s2);
    forall i | 0 <= i < |s2| ensures Normal(s2[i]) {
      assert s2[i] in multiset(s2);
      assert s2[i] == c || s2[i] in multiset(s);
    }
  }

  /** s without the leaves of x and with its stand-in. */
  ghost predicate Collapsed(h: Hash, s: seq<Element>, x: Tree, s2: seq<Element>)
    requires x.Node?
  {
    multiset(s2) == multiset(s) - multiset(Leaves(x)) + multiset{StandIn(h, x)}
  }

  lemma {:induction false} CollapseLeft(h: Hash, l: Tree, r: Tree, a: seq<Element>, b: seq<Element>, x: Tree,
          s2: seq<Element>)
    requires SideOf(l, a) && SideOf(r, b) && AllNormal(a + b) && x in Nodes(l) && x.Node?
    requires forall e | e in a :: !BitAt(e.path, 0)
    requires forall e | e in b :: BitAt(e.path, 0)
    requires Sorted(s2) && Collapsed(h, a + b, x, s2)
    ensures Root(h, s2) == Ok(TopDigest(h, Top(l, r)))
  {
    CutSide(h, l, a, x, false);
    StillNormal(a + b, multiset(Leaves(x)), StandIn(h, x), s2);
    Exchange(multiset(a), multiset(b), multiset(Leaves(x)), StandIn(h, x));
    RootOfSides(h, Cut(h, l, x), r, Leaves(Cut(h, l, x)), b, s2);
  }

  lemma {:induction false} CollapseRight(h: Hash, l: Tree, r: Tree, a: seq<Element>, b: seq<Element>, x: Tree,
          s2: seq<Element>)
    requires SideOf(l, a) && SideOf(r, b) && AllNormal(a + b) && x in Nodes(r) && x.Node?
    requires forall e | e in a :: !BitAt(e.path, 0)
    requires forall e | e in b :: BitAt(e.path, 0)
    requires Sorted(s2) && Collapsed(h, a + b, x, s2)
    ensures Root(h, s2) == Ok(TopDigest(h, Top(l, r)))
  {
    CutSide(h, r, b, x, true);
    StillNormal(a + b, multiset(Leaves(x)), StandIn(h, x), s2);
    Exchange(multiset(b), multiset(a), multiset(Leaves(x)), StandIn(h, x));
    RootOfSides(h, l, Cut(h, r, x), a, Leaves(Cut(h, r, x)), s2);
  }

  /** In any array that builds, all the elements under an interior node may be replaced by the one
      element carrying that node's prefix, length and hash: the root does not move. */
  lemma {:induction false} SubtreeStandsForItsLeaves(h: Hash, s: seq<Element>, t: Top, x: Tree, s2: seq<Element>)
    requires Sorted(s) && AllNormal(s) && TopShape(s) == Ok(t)
    requires x in TopNodes(t) && x.Node?
    requires Sorted(s2) && Collapsed(h, s, x, s2)
    ensures Root(h, s2) == Root(h, s)
  {
    RootHashesShape(h, s);
    var a, b := ShapeSides(s, t);
    if x in Nodes(t.left) {
      CollapseLeft(h, t.left, t.right, a, b, x, s2);
    } else {
      CollapseRight(h, t.left, t.right, a, b, x, s2);
    }
  }
}
