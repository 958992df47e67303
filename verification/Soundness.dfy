/**
 * What an accepted append-only proof proves (internal/akdtree/verify.go:337-394). The proof's own
 * elements are arbitrary: any lengths up to 256, any bits past them, any values.
 */
module Soundness {
  import opened Basics
  import opened Labels
  import opened AkdTree
  import opened Trie
  import opened Reference
  import opened Collapse
  import opened Binding

  /** x is the node that e names: same label, same hash. */
  ghost predicate Names(h: Hash, e: Element, x: Tree) {
    NodeLabel(x) == LabelString(e.path, e.len) && Val(h, x) == e.value
  }

  /** The leaf f lies under the label of e, which has at least one bit. */
  ghost predicate LiesUnder(f: Element, e: Element) {
    1 <= e.len && Agree(e.path, f.path, e.len)
  }

  /** Each leaf of a trie names a node of the tree the trie stands for. */
  lemma {:induction false} LeafNamesNode(h: Hash, t: Tree, o: Tree, e: Element) returns (x: Tree)
    requires Stands(h, t, o) && e in Leaves(t)
    ensures x in Nodes(o) && Names(h, e, x)
    decreases t
  {
    match t
    case Leaf(_) => x := o;
    case Node(_, _, l, r) =>
      if e in Leaves(l) {
        x := LeafNamesNode(h, l, o.left, e);
      } else {
        x := LeafNamesNode(h, r, o.right, e);
      }
  }

  /** Each leaf of the tree lies under a node that some leaf of the trie names. */
  lemma {:induction false} LeafIsNamed(h: Hash, t: Tree, o: Tree, f: Element) returns (e: Element, x: Tree)
    requires Stands(h, t, o) && f in Leaves(o)
    ensures e in Leaves(t) && x in Nodes(o) && Names(h, e, x) && f in Leaves(x)
    decreases t
  {
    match t
    case Leaf(g) => e, x := g, o;
    case Node(_, _, l, r) =>
      if f in Leaves(o.left) {
        e, x := LeafIsNamed(h, l, o.left, f);
      } else {
        e, x := LeafIsNamed(h, r, o.right, f);
      }
  }

  lemma {:induction false} NodeBuilt(o: Tree, d: nat, x: Tree)
    requires 1 <= d && WellFormed(o, d) && x in Nodes(o)
    ensures WellFormed(x, 1) && (forall f | f in Leaves(x) :: f in Leaves(o))
    decreases o
  {
    Weaker(o, d, 1);
    if x != o {
      if x in Nodes(o.left) {
        NodeBuilt(o.left, o.plen + 1, x);
      } else {
        NodeBuilt(o.right, o.plen + 1, x);
      }
    }
  }

  lemma {:induction false} NodeFull(o: Tree, x: Tree)
    requires Built(o) && Full(o) && x in Nodes(o)
    ensures Built(x) && Full(x) && (forall f | f in Leaves(x) :: f in Leaves(o))
  {
    if o.Empty? {
    } else {
      NodeBuilt(o, 1, x);
      forall i | 0 <= i < |Leaves(x)| ensures Leaves(x)[i].len == 256 {
        assert Leaves(x)[i] in Leaves(o);
      }
    }
  }

  /** Two nodes named by one element are equal. */
  lemma {:induction false} NamedTwice(h: Hash, o: Tree, n: Tree, x: Tree, y: Tree, e: Element, q: set<Bytes>)
    requires Built(o) && Full(o) && Built(n) && Full(n) && x in Nodes(o) && y in Nodes(n)
    requires Names(h, e, x) && Names(h, e, y)
    requires Hashed(h, o) <= q && Hashed(h, n) <= q
    ensures x == y || Collision(h, q)
  {
    NodeFull(o, x);
    NodeFull(n, y);
    HashedWithin(h, o, x);
    HashedWithin(h, n, y);
    HashBinds(h, x, y, q);
    if Stands(h, x, y) { FullStandsIsEqual(h, x, y); }
  }

  /** A leaf under a named node lies under the label that names it. */
  lemma {:induction false} NamedLeafLiesUnder(h: Hash, x: Tree, e: Element, f: Element)
    requires Built(x) && Full(x) && Names(h, e, x) && f in Leaves(x)
    ensures LiesUnder(f, e)
  {
    match x
    case Leaf(g) =>
      assert Leaves(x)[0].len == 256;
      LabelStringInjective(g.path, g.len, e.path, e.len);
    case Node(p, n, _, _) =>
      LabelStringInjective(p, n, e.path, e.len);
      UnderNode(x, 1, f);
  }

  // ----- both sides of the root

  /** Each element of the proof names a node of the tree. */
  lemma {:induction false} ElementNamesNode(h: Hash, t: Top, o: Top, e: Element) returns (x: Tree)
    requires TopStands(h, t, o) && TopBuilt(o) && TopFull(o) && e in TopLeaves(t)
    ensures x in TopNodes(o) && Names(h, e, x)
  {
    if e in Leaves(t.left) {
      x := LeafNamesNode(h, t.left, o.left, e);
    } else {
      x := LeafNamesNode(h, t.right, o.right, e);
    }
  }

  /** Each leaf of the tree lies under a node that some element of the proof names. */
  lemma {:induction false} LeafHasElement(h: Hash, t: Top, o: Top, f: Element) returns (e: Element, x: Tree)
    requires TopStands(h, t, o) && f in TopLeaves(o)
    ensures e in TopLeaves(t) && x in TopNodes(o) && Names(h, e, x) && f in Leaves(x)
  {
    if f in Leaves(o.left) {
      e, x := LeafIsNamed(h, t.left, o.left, f);
    } else {
      e, x := LeafIsNamed(h, t.right, o.right, f);
    }
  }

  lemma {:induction false} SideOfNode(h: Hash, o: Top, x: Tree) returns (s: Tree)
    requires TopBuilt(o) && TopFull(o) && x in TopNodes(o)
    ensures Built(s) && Full(s) && x in Nodes(s) && (s == o.left || s == o.right)
    ensures Hashed(h, s) <= TopHashed(h, o)
    ensures forall f | f in Leaves(x) :: f in TopLeaves(o)
    ensures Built(x) && Full(x)
  {
    s := if x in Nodes(o.left) then o.left else o.right;
    NodeFull(s, x);
  }

  lemma {:induction false} OneNodePerElement(h: Hash, o: Top, n: Top, x: Tree, y: Tree, e: Element, q: set<Bytes>)
    requires TopBuilt(o) && TopFull(o) && TopBuilt(n) && TopFull(n)
    requires x in TopNodes(o) && y in TopNodes(n) && Names(h, e, x) && Names(h, e, y)
    requires TopHashed(h, o) <= q && TopHashed(h, n) <= q
    ensures x == y || Collision(h, q)
  {
    var a := SideOfNode(h, o, x);
    var b := SideOfNode(h, n, y);
    NamedTwice(h, a, b, x, y, e, q);
  }

  /** A leaf under a node that is in both trees is in both. */
  lemma {:induction false} SharedNode(h: Hash, t: Top, o: Top, n: Top, e: Element, y: Tree, f: Element, q: set<Bytes>)
    requires TopBuilt(o) && TopFull(o) && TopBuilt(n) && TopFull(n) && TopStands(h, t, o)
    requires TopHashed(h, o) <= q && TopHashed(h, n) <= q
    requires e in TopLeaves(t) && y in TopNodes(n) && Names(h, e, y) && f in Leaves(y)
    ensures f in TopLeaves(o) || Collision(h, q)
  {
    var x := ElementNamesNode(h, t, o, e);
    OneNodePerElement(h, o, n, x, y, e, q);
    var s := SideOfNode(h, o, x);
  }

  // ----- the theorem

  /** The leaves of the old tree are all in the new one, unchanged, and every other leaf of the new
      tree lies under the label of an inserted element. */
  ghost predicate AppendOnly(old_: seq<Element>, new_: seq<Element>, inserted: seq<Element>) {
    && (forall f | f in old_ :: f in new_)
    && (forall f | f in new_ :: f in old_ || exists e :: e in inserted && LiesUnder(f, e))
  }

  /** The strings hashed while rebuilding both roots from the proof and while building both trees. */
  function AllStrings(h: Hash, u: seq<Element>, w: seq<Element>, o: seq<Element>, n: seq<Element>): set<Bytes> {
    RootStrings(h, u) + RootStrings(h, w) + RootStrings(h, o) + RootStrings(h, n)
  }

  lemma {:induction false} OldLeafKept(h: Hash, tu: Top, tw: Top, to: Top, tn: Top, f: Element, q: set<Bytes>)
    requires TopStands(h, tu, to) && TopStands(h, tw, tn)
    requires TopBuilt(to) && TopFull(to) && TopBuilt(tn) && TopFull(tn)
    requires TopHashed(h, to) <= q && TopHashed(h, tn) <= q
    requires (forall e | e in TopLeaves(tu) :: e in TopLeaves(tw)) && f in TopLeaves(to)
    ensures f in TopLeaves(tn) || Collision(h, q)
  {
    var e, x := LeafHasElement(h, tu, to, f);
    SharedNode(h, tw, tn, to, e, x, f, q);
  }

  lemma {:induction false} NewLeafAccounted(h: Hash, tu: Top, tw: Top, to: Top, tn: Top, f: Element,
          q: set<Bytes>) returns (e: Element)
    requires TopStands(h, tu, to) && TopStands(h, tw, tn)
    requires TopBuilt(to) && TopFull(to) && TopBuilt(tn) && TopFull(tn)
    requires TopHashed(h, to) <= q && TopHashed(h, tn) <= q && f in TopLeaves(tn)
    ensures e in TopLeaves(tw)
    ensures f in TopLeaves(to) || (e !in TopLeaves(tu) && LiesUnder(f, e)) || Collision(h, q)
  {
    var y: Tree;
    e, y := LeafHasElement(h, tw, tn, f);
    var s := SideOfNode(h, tn, y);
    NamedLeafLiesUnder(h, y, e, f);
    if e in TopLeaves(tu) {
      SharedNode(h, tu, to, tn, e, y, f, q);
    }
  }

  /** An array whose root is the root of a tree of whole leaves stands for that tree. */
  lemma {:induction false} ArrayStands(h: Hash, u: seq<Element>, o: seq<Element>, q: set<Bytes>) returns (t: Top,
          k: Top)
    requires Sorted(u) && Sorted(o) && FullLeaves(o) && Root(h, u).Ok? && Root(h, u) == Root(h, o)
    requires RootStrings(h, u) <= q && RootStrings(h, o) <= q
    ensures TopLeaves(t) == u && TopLeaves(k) == o && TopBuilt(k) && TopFull(k) && TopHashed(h, k) <= q
    ensures TopStands(h, t, k) || Collision(h, q)
  {
    RootHashesShape(h, u);
    RootHashesShape(h, o);
    t, k := TopShape(u).value, TopShape(o).value;
    ShapeKeepsAll(u, t);
    ShapeKeepsAll(o, k);
    RootBinds(h, t, k, q);
  }

  lemma {:induction false} OldLeavesKept(h: Hash, tu: Top, tw: Top, to: Top, tn: Top, q: set<Bytes>)
    requires TopStands(h, tu, to) && TopStands(h, tw, tn)
    requires TopBuilt(to) && TopFull(to) && TopBuilt(tn) && TopFull(tn)
    requires TopHashed(h, to) <= q && TopHashed(h, tn) <= q && !Collision(h, q)
    requires forall e | e in TopLeaves(tu) :: e in TopLeaves(tw)
    ensures forall f | f in TopLeaves(to) :: f in TopLeaves(tn)
  {
    forall f | f in TopLeaves(to) ensures f in TopLeaves(tn) {
      OldLeafKept(h, tu, tw, to, tn, f, q);
    }
  }

  lemma {:induction false} NewLeavesAccounted(h: Hash, tu: Top, tw: Top, to: Top, tn: Top, inserted: seq<Element>,
          q: set<Bytes>)
    requires TopStands(h, tu, to) && TopStands(h, tw, tn)
    requires TopBuilt(to) && TopFull(to) && TopBuilt(tn) && TopFull(tn)
    requires TopHashed(h, to) <= q && TopHashed(h, tn) <= q && !Collision(h, q)
    requires forall e | e in TopLeaves(tw) :: e in TopLeaves(tu) || e in inserted
    ensures forall f | f in TopLeaves(tn) :: f in TopLeaves(to) || exists e :: e in inserted && LiesUnder(f, e)
  {
    forall f | f in TopLeaves(tn)
      ensures f in TopLeaves(to) || exists e :: e in inserted && LiesUnder(f, e)
    {
      var e := NewLeafAccounted(h, tu, tw, to, tn, f, q);
    }
  }

  lemma {:induction false} UnionMembers(w: seq<Element>, u: seq<Element>, v: seq<Element>)
    requires multiset(w) == multiset(u) + multiset(v)
    ensures forall e | e in u :: e in w
    ensures forall e | e in w :: e in u || e in v
  {
    forall e ensures e in w <==> e in u || e in v {
      assert e in w <==> e in multiset(w);
    }
  }

  lemma {:induction false} StandsProveAppendOnly(h: Hash, tu: Top, tw: Top, to: Top, tn: Top, inserted: seq<Element>,
          q: set<Bytes>)
    requires TopStands(h, tu, to) && TopStands(h, tw, tn)
    requires TopBuilt(to) && TopFull(to) && TopBuilt(tn) && TopFull(tn)
    requires TopHashed(h, to) <= q && TopHashed(h, tn) <= q && !Collision(h, q)
    requires multiset(TopLeaves(tw)) == multiset(TopLeaves(tu)) + multiset(inserted)
    ensures AppendOnly(TopLeaves(to), TopLeaves(tn), inserted)
  {
    UnionMembers(TopLeaves(tw), TopLeaves(tu), inserted);
    OldLeavesKept(h, tu, tw, to, tn, q);
    NewLeavesAccounted(h, tu, tw, to, tn, inserted, q);
  }

  /** If the unchanged elements u rebuild the old root, and those with the inserted elements rebuild
      the new root, then the new tree extends the old one, or the hash collides on strings hashed
      along the way. */
  lemma {:induction false} RootsProveAppendOnly(h: Hash, u: seq<Element>, inserted: seq<Element>, w: seq<Element>,
                             o: seq<Element>, n: seq<Element>)
    requires Sorted(u) && Sorted(w) && multiset(w) == multiset(u) + multiset(inserted)
    requires Sorted(o) && Sorted(n) && FullLeaves(o) && FullLeaves(n)
    requires Root(h, u).Ok? && Root(h, u) == Root(h, o)
    requires Root(h, w).Ok? && Root(h, w) == Root(h, n)
    ensures AppendOnly(o, n, inserted) || Collision(h, AllStrings(h, u, w, o, n))
  {
    var q := AllStrings(h, u, w, o, n);
    var tu, to := ArrayStands(h, u, o, q);
    var tw, tn := ArrayStands(h, w, n, q);
    if !Collision(h, q) {
      StandsProveAppendOnly(h, tu, tw, to, tn, inserted, q);
    }
  }
}
