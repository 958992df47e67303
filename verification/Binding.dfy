/**
 * What a root commits to. Nothing is assumed of the hash: each theorem ends "or two different
 * strings, both hashed while building the trees in question, have the same hash".
 */
module Binding {
  import opened Basics
  import opened Labels
  import opened AkdTree
  import opened Trie
  import opened Refinement
  import opened Collapse

  // ----- the strings hashed to compute a root

  function Hashed(h: Hash, t: Tree): set<Bytes> {
    {NodeLabel(t)} +
    match t
    case Empty => {EMPTY_VALUE, h(EMPTY_VALUE) + h(LabelString(EMPTY_LABEL, 0))}
    case Leaf(_) => {}
    case Node(_, _, l, r) => ParentStrings(HashOf(h, l), HashOf(h, r), h) + Hashed(h, l) + Hashed(h, r)
  }

  function ParentStrings(l: NodeHash, r: NodeHash, h: Hash): set<Bytes> {
    {l.val + l.lab, r.val + r.lab, h(l.val + l.lab) + h(r.val + r.lab)}
  }

  function TopHashed(h: Hash, t: Top): set<Bytes> {
    var rootLabel := LabelString(ROOT_LABEL, 0);
    match t
    case NoTree => {rootLabel, EMPTY_VALUE, h(EMPTY_VALUE) + h(rootLabel)}
    case Top(l, r) =>
      {rootLabel, ParentHash(h, HashOf(h, l), HashOf(h, r)) + h(rootLabel)}
      + ParentStrings(HashOf(h, l), HashOf(h, r), h) + Hashed(h, l) + Hashed(h, r)
  }

  ghost predicate Collision(h: Hash, q: set<Bytes>) {
    exists x, y :: x in q && y in q && x != y && h(x) == h(y)
  }

  lemma {:induction false} Collide(h: Hash, q: set<Bytes>, x: Bytes, y: Bytes)
    requires x in q && y in q && x != y && h(x) == h(y)
    ensures Collision(h, q)
  {
  }

  lemma {:induction false} HashedWithin(h: Hash, t: Tree, x: Tree)
    requires x in Nodes(t)
    ensures Hashed(h, x) <= Hashed(h, t)
  {
    if x != t && t.Node? {
      if x in Nodes(t.left) { HashedWithin(h, t.left, x); } else { HashedWithin(h, t.right, x); }
    }
  }

  lemma {:induction false} LabelStringInjective(a: Label, m: LabelLen, b: Label, n: LabelLen)
    requires LabelString(a, m) == LabelString(b, n)
    ensures a == b && m == n
  {
    var x, y := LabelString(a, m), LabelString(b, n);
    assert x[..4] == Be32(m) && y[..4] == Be32(n) && x[4..] == a && y[4..] == b;
    assert x[2] == m / 256 % 256 && x[3] == m % 256;
    assert y[2] == n / 256 % 256 && y[3] == n % 256;
  }

  lemma {:induction false} PairInjective(a: Digest, b: Digest, c: Digest, d: Digest)
    requires a + b == c + d
    ensures a == c && b == d
  {
    assert (a + b)[..32] == a && (a + b)[32..] == b;
    assert (c + d)[..32] == c && (c + d)[32..] == d;
  }

  // ----- one trie standing for another

  /** A trie whose leaves may be hashes of whole subtrees of o. */
  ghost predicate Stands(h: Hash, t: Tree, o: Tree) {
    match t
    case Empty => o.Empty?
    case Leaf(e) => NodeLabel(o) == LabelString(e.path, e.len) && Val(h, o) == e.value
    case Node(p, n, l, r) => o.Node? && o.prefix == p && o.plen == n && Stands(h, l, o.left) && Stands(h, r, o.right)
  }

  /** Built by Subtree: absent, or well formed below the root. */
  ghost predicate Built(t: Tree) {
    t.Empty? || WellFormed(t, 1)
  }

  /** Every leaf is a whole 256-bit label. */
  ghost predicate Full(t: Tree) {
    forall i | 0 <= i < |Leaves(t)| :: Leaves(t)[i].len == 256
  }

  lemma {:induction false} SameParent(h: Hash, a: NodeHash, b: NodeHash, c: NodeHash, d: NodeHash, q: set<Bytes>)
    requires ParentHash(h, a, b) == ParentHash(h, c, d)
    requires ParentStrings(a, b, h) <= q && ParentStrings(c, d, h) <= q
    ensures (a == c && b == d) || Collision(h, q)
  {
    var x, y := h(a.val + a.lab) + h(b.val + b.lab), h(c.val + c.lab) + h(d.val + d.lab);
    if x != y {
      Collide(h, q, x, y);
    } else {
      PairInjective(h(a.val + a.lab), h(b.val + b.lab), h(c.val + c.lab), h(d.val + d.lab));
      if a.val + a.lab != c.val + c.lab {
        Collide(h, q, a.val + a.lab, c.val + c.lab);
      } else if b.val + b.lab != d.val + d.lab {
        Collide(h, q, b.val + b.lab, d.val + d.lab);
      } else {
        PairInjective(a.val, a.lab, c.val, c.lab);
        PairInjective(b.val, b.lab, d.val, d.lab);
      }
    }
  }

  /** Nodes with one label are of one kind, when the second is over full labels. */
  lemma {:induction false} SameKind(t: Tree, o: Tree)
    requires Built(t) && Built(o) && Full(o) && NodeLabel(t) == NodeLabel(o) && !t.Leaf?
    ensures t.Empty? <==> o.Empty?
    ensures t.Node? <==> o.Node?
    ensures t.Node? ==> t.prefix == o.prefix && t.plen == o.plen
  {
    assert o.Leaf? ==> Leaves(o)[0] == o.e;
    var a, m := if t.Node? then t.prefix else EMPTY_LABEL, if t.Node? then t.plen else 0;
    match o
    case Empty => LabelStringInjective(a, m, EMPTY_LABEL, 0);
    case Leaf(e) => LabelStringInjective(a, m, e.path, e.len);
    case Node(p, n, _, _) => LabelStringInjective(a, m, p, n);
  }

  lemma {:induction false} FullChildren(o: Tree)
    requires Full(o) && o.Node?
    ensures Full(o.left) && Full(o.right)
  {
    forall i | 0 <= i < |Leaves(o.left)| ensures Leaves(o.left)[i].len == 256 {
      assert Leaves(o)[i] == Leaves(o.left)[i];
    }
    forall i | 0 <= i < |Leaves(o.right)| ensures Leaves(o.right)[i].len == 256 {
      assert Leaves(o)[|Leaves(o.left)| + i] == Leaves(o.right)[i];
    }
  }

  lemma {:induction false} Weaker(t: Tree, d: nat, e: nat)
    requires WellFormed(t, d) && e <= d
    ensures WellFormed(t, e)
  {
  }

  /** Equal hashes and equal label hashes: the first trie stands for the second. */
  lemma {:induction false} HashBinds(h: Hash, t: Tree, o: Tree, q: set<Bytes>)
    requires Built(t) && Built(o) && Full(o) && HashOf(h, t) == HashOf(h, o)
    requires Hashed(h, t) <= q && Hashed(h, o) <= q
    ensures Stands(h, t, o) || Collision(h, q)
    decreases t
  {
    if NodeLabel(t) != NodeLabel(o) {
      Collide(h, q, NodeLabel(t), NodeLabel(o));
    } else if !t.Leaf? {
      SameKind(t, o);
      if t.Node? {
        SameParent(h, HashOf(h, t.left), HashOf(h, t.right), HashOf(h, o.left), HashOf(h, o.right), q);
        if !Collision(h, q) {
          Weaker(t.left, t.plen + 1, 1);
          Weaker(t.right, t.plen + 1, 1);
          Weaker(o.left, o.plen + 1, 1);
          Weaker(o.right, o.plen + 1, 1);
          FullChildren(o);
          HashBinds(h, t.left, o.left, q);
          HashBinds(h, t.right, o.right, q);
        }
      }
    }
  }

  /** Over full labels on both sides, standing for is being. */
  lemma {:induction false} FullStandsIsEqual(h: Hash, t: Tree, o: Tree)
    requires Built(t) && Built(o) && Full(t) && Full(o) && Stands(h, t, o)
    ensures t == o
    decreases t
  {
    match t
    case Empty =>
    case Leaf(e) =>
      assert Leaves(t)[0] == e;
      match o {
        case Empty => LabelStringInjective(e.path, e.len, EMPTY_LABEL, 0);
        case Leaf(f) => LabelStringInjective(e.path, e.len, f.path, f.len);
        case Node(p, n, _, _) => LabelStringInjective(e.path, e.len, p, n);
      }
    case Node(_, n, l, r) =>
      Weaker(l, n + 1, 1);
      Weaker(r, n + 1, 1);
      Weaker(o.left, n + 1, 1);
      Weaker(o.right, n + 1, 1);
      FullChildren(t);
      FullChildren(o);
      FullStandsIsEqual(h, l, o.left);
      FullStandsIsEqual(h, r, o.right);
  }

  // ----- roots

  ghost predicate TopStands(h: Hash, t: Top, o: Top) {
    match t
    case NoTree => o.NoTree?
    case Top(l, r) => o.Top? && Stands(h, l, o.left) && Stands(h, r, o.right)
  }

  ghost predicate TopBuilt(t: Top) {
    t.Top? ==> Built(t.left) && Built(t.right)
  }

  ghost predicate TopFull(t: Top) {
    t.Top? ==> Full(t.left) && Full(t.right)
  }

  function Inner(h: Hash, t: Top): Digest {
    match t
    case NoTree => h(EMPTY_VALUE)
    case Top(l, r) => ParentHash(h, HashOf(h, l), HashOf(h, r))
  }

  lemma {:induction false} SameInner(h: Hash, t: Top, o: Top, q: set<Bytes>)
    requires TopDigest(h, t) == TopDigest(h, o) && TopHashed(h, t) <= q && TopHashed(h, o) <= q
    ensures Inner(h, t) == Inner(h, o) || Collision(h, q)
  {
    var r := h(LabelString(ROOT_LABEL, 0));
    if Inner(h, t) + r != Inner(h, o) + r {
      Collide(h, q, Inner(h, t) + r, Inner(h, o) + r);
    } else {
      PairInjective(Inner(h, t), r, Inner(h, o), r);
    }
  }

  lemma {:induction false} RootBinds(h: Hash, t: Top, o: Top, q: set<Bytes>)
    requires TopBuilt(t) && TopBuilt(o) && TopFull(o) && TopDigest(h, t) == TopDigest(h, o)
    requires TopHashed(h, t) <= q && TopHashed(h, o) <= q
    ensures TopStands(h, t, o) || Collision(h, q)
  {
    SameInner(h, t, o, q);
    if Inner(h, t) == Inner(h, o) {
      match (t, o)
      case (NoTree, NoTree) =>
      case (NoTree, Top(l, r)) => InnerDiffers(h, l, r, q);
      case (Top(l, r), NoTree) => InnerDiffers(h, l, r, q);
      case (Top(l, r), Top(l', r')) =>
        SameParent(h, HashOf(h, l), HashOf(h, r), HashOf(h, l'), HashOf(h, r'), q);
        if !Collision(h, q) {
          HashBinds(h, l, l', q);
          HashBinds(h, r, r', q);
        }
    }
  }

  /** The empty tree's constant is the hash of one byte, any other root the hash of 64. */
  lemma {:induction false} InnerDiffers(h: Hash, l: Tree, r: Tree, q: set<Bytes>)
    requires EMPTY_VALUE in q && ParentStrings(HashOf(h, l), HashOf(h, r), h) <= q
    requires h(EMPTY_VALUE) == ParentHash(h, HashOf(h, l), HashOf(h, r))
    ensures Collision(h, q)
  {
    var a, b := HashOf(h, l), HashOf(h, r);
    var x := h(a.val + a.lab) + h(b.val + b.lab);
    assert |x| == 64 && |EMPTY_VALUE| == 1;
    Collide(h, q, EMPTY_VALUE, x);
  }

  // ----- arrays of full leaves

  ghost predicate FullLeaves(s: seq<Element>) {
    forall i | 0 <= i < |s| :: s[i].len == 256
  }

  lemma {:induction false} SideBuilt(s: seq<Element>, t: Tree)
    requires Sorted(s) && Share(s, 1) && Shape(s) == Ok(t)
    ensures Built(t) && Leaves(t) == s
  {
    if s != [] { ShapeIsWellFormed(s, 1, t); }
  }

  function TopLeaves(t: Top): seq<Element> {
    match t
    case NoTree => []
    case Top(l, r) => Leaves(l) + Leaves(r)
  }

  /** What TopShape makes of a sorted array: all of its elements, in order. */
  lemma {:induction false} ShapeKeepsAll(s: seq<Element>, t: Top)
    requires Sorted(s) && TopShape(s) == Ok(t)
    ensures TopBuilt(t) && TopLeaves(t) == s
    ensures FullLeaves(s) ==> TopFull(t)
  {
    if s != [] {
      var a, b := TopHalves(s);
      SideBuilt(a, t.left);
      SideBuilt(b, t.right);
    }
  }

  /** The strings hashed in computing the root of a sorted array that builds. */
  function RootStrings(h: Hash, s: seq<Element>): set<Bytes> {
    match TopShape(s)
    case Ok(t) => TopHashed(h, t)
    case Err(_) => {}
  }

  /** Two sets of whole leaves with one root are one set, or the hash collides on strings hashed
      while building the two trees. */
  lemma {:induction false} RootBindsItsLeaves(h: Hash, a: seq<Element>, b: seq<Element>)
    requires Sorted(a) && Sorted(b) && FullLeaves(a) && FullLeaves(b)
    requires Root(h, a).Ok? && Root(h, a) == Root(h, b)
    ensures a == b || Collision(h, RootStrings(h, a) + RootStrings(h, b))
  {
    RootHashesShape(h, a);
    RootHashesShape(h, b);
    var t, o := TopShape(a).value, TopShape(b).value;
    ShapeKeepsAll(a, t);
    ShapeKeepsAll(b, o);
    RootBinds(h, t, o, RootStrings(h, a) + RootStrings(h, b));
    if TopStands(h, t, o) && t.Top? {
      FullStandsIsEqual(h, t.left, o.left);
      FullStandsIsEqual(h, t.right, o.right);
    }
  }
}
