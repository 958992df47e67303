/**
 * The trie Root walks, as a value: what each range stands for, and when there is one.
 */
module Trie {
  import opened Basics
  import opened Labels
  import opened AkdTree

  datatype Tree =
    | Empty
    | Leaf(e: Element)
    | Node(prefix: Label, plen: LabelLen, left: Tree, right: Tree)

  datatype Top = NoTree | Top(left: Tree, right: Tree)

  function Leaves(t: Tree): seq<Element> {
    match t
    case Empty => []
    case Leaf(e) => [e]
    case Node(_, _, l, r) => Leaves(l) + Leaves(r)
  }

  /** The string hashed as the label of a node. */
  function NodeLabel(t: Tree): Bytes {
    match t
    case Empty => LabelString(EMPTY_LABEL, 0)
    case Leaf(e) => LabelString(e.path, e.len)
    case Node(p, n, _, _) => LabelString(p, n)
  }

  function Val(h: Hash, t: Tree): Digest
    decreases t, 0
  {
    match t
    case Empty => EmptyNodeHash(h)
    case Leaf(e) => e.value
    case Node(_, _, l, r) => ParentHash(h, HashOf(h, l), HashOf(h, r))
  }

  function HashOf(h: Hash, t: Tree): NodeHash
    decreases t, 1
  {
    NodeHash(Val(h, t), h(NodeLabel(t)))
  }

  function TopDigest(h: Hash, t: Top): Digest {
    var rootLabel := LabelValue(h, ROOT_LABEL, 0);
    match t
    case NoTree => Hash2(h, h(EMPTY_VALUE), rootLabel)
    case Top(l, r) => Hash2(h, ParentHash(h, HashOf(h, l), HashOf(h, r)), rootLabel)
  }

  /** The node covering s, built over the same ranges as Subtree. */
  function Shape(s: seq<Element>): Result<Tree, RootError>
    decreases |s|
  {
    if |s| == 0 then Ok(Empty)
    else if |s| == 1 then Ok(Leaf(s[0]))
    else
      var lcp := CommonPrefixLen(s[0], s[|s| - 1]);
      if s[0].len == lcp then Err(OnInteriorNode(lcp))
      else
        var split := Search(s, lcp, 0, |s|);
        if split == 0 || split == |s| then Err(DoesNotSplit(|s|, lcp))
        else
          var l, r := Shape(s[..split]), Shape(s[split..]);
          if l.Err? then Err(l.error)
          else if r.Err? then Err(r.error)
          else Ok(Node(PrefixOf(s[0].path, lcp), lcp, l.value, r.value))
  }

  function TopShape(s: seq<Element>): Result<Top, RootError> {
    if |s| == 0 then Ok(NoTree)
    else
      var split := Search(s, 0, 0, |s|);
      var l, r := Shape(s[..split]), Shape(s[split..]);
      if l.Err? then Err(l.error)
      else if r.Err? then Err(r.error)
      else Ok(Top(l.value, r.value))
  }

  // ----- Root is the hash of the shape

  lemma {:induction false} SubtreeHashesShape(h: Hash, s: seq<Element>)
    ensures Subtree(h, s) == match Shape(s)
                             case Err(e) => Err(e)
                             case Ok(t) => Ok(HashOf(h, t))
    decreases |s|
  {
    if |s| >= 2 {
      var lcp := CommonPrefixLen(s[0], s[|s| - 1]);
      if s[0].len != lcp {
        var split := Search(s, lcp, 0, |s|);
        if split != 0 && split != |s| {
          SubtreeHashesShape(h, s[..split]);
          SubtreeHashesShape(h, s[split..]);
        }
      }
    }
  }

  lemma {:induction false} RootHashesShape(h: Hash, s: seq<Element>)
    ensures Root(h, s) == match TopShape(s)
                          case Err(e) => Err(e)
                          case Ok(t) => Ok(TopDigest(h, t))
  {
    if |s| > 0 {
      var split := Search(s, 0, 0, |s|);
      SubtreeHashesShape(h, s[..split]);
      SubtreeHashesShape(h, s[split..]);
    }
  }

  // ----- ranges of a sorted array

  /** Every element shares its first d bits with every other. */
  ghost predicate Share(s: seq<Element>, d: nat)
    requires d <= 256
  {
    forall i, j | 0 <= i < |s| && 0 <= j < |s| :: Agree(s[i].path, s[j].path, d)
  }

  lemma {:induction false} RangeShares(s: seq<Element>, d: nat)
    requires d <= 256 && Sorted(s) && |s| > 0
    requires Agree(s[0].path, s[|s| - 1].path, d)
    ensures Share(s, d)
  {
    forall i | 0 <= i < |s| ensures Agree(s[0].path, s[i].path, d) {
      SameLabel(s[0].path, s[0].path);
      SameLabel(s[i].path, s[i].path);
      if 0 < i < |s| - 1 { Between(s[0].path, s[i].path, s[|s| - 1].path, d); }
    }
  }

  lemma {:induction false} BitsRise(s: seq<Element>, bit: nat, i: nat, j: nat)
    requires bit < 256 && Sorted(s) && Share(s, bit) && i <= j < |s|
    ensures BitAt(s[i].path, bit) ==> BitAt(s[j].path, bit)
  {
    if i < j { BitRises(s[i].path, s[j].path, bit); }
  }

  /** Over a sorted range sharing the bits before it, the binary search separates 0s from 1s. */
  lemma {:induction false} SearchSplits(s: seq<Element>, bit: nat, lo: nat, hi: nat)
    requires lo <= hi <= |s| && bit < 256 && Sorted(s) && Share(s, bit)
    requires forall i | 0 <= i < lo :: !BitAt(s[i].path, bit)
    requires forall i | hi <= i < |s| :: BitAt(s[i].path, bit)
    ensures var k := Search(s, bit, lo, hi);
            && (forall i | 0 <= i < k :: !BitAt(s[i].path, bit))
            && (forall i | k <= i < |s| :: BitAt(s[i].path, bit))
    decreases hi - lo
  {
    if lo < hi {
      var mid := (lo + hi) / 2;
      if BitAt(s[mid].path, bit) {
        forall i | mid <= i < |s| ensures BitAt(s[i].path, bit) { BitsRise(s, bit, mid, i); }
        SearchSplits(s, bit, lo, mid);
      } else {
        forall i | 0 <= i < mid + 1 ensures !BitAt(s[i].path, bit) { BitsRise(s, bit, i, mid); }
        SearchSplits(s, bit, mid + 1, hi);
      }
    }
  }

  // ----- well-formed tries

  /** Every element starts with the first n bits of p and then bit b. */
  ghost predicate Under(s: seq<Element>, p: Label, n: nat, b: bool)
    requires n < 256
  {
    forall i | 0 <= i < |s| :: Agree(p, s[i].path, n) && BitAt(s[i].path, n) == b
  }

  /** Each node sits at or below depth d, is labelled by the bits its leaves share, and
      sends a leaf left or right by the next bit. */
  ghost predicate WellFormed(t: Tree, d: nat) {
    match t
    case Empty => false
    case Leaf(_) => true
    case Node(p, n, l, r) =>
      && d <= n < 256 && ZeroTail(p, n)
      && Under(Leaves(l), p, n, false) && Under(Leaves(r), p, n, true)
      && WellFormed(l, n + 1) && WellFormed(r, n + 1)
  }

  lemma {:induction false} HalfShares(s: seq<Element>, d: nat, b: bool)
    requires d < 256 && Share(s, d) && forall i | 0 <= i < |s| :: BitAt(s[i].path, d) == b
    ensures Share(s, d + 1)
  {
  }

  /** The two halves of a sorted range sharing n bits. */
  lemma {:induction false} HalvesOf(s: seq<Element>, n: nat, k: nat)
    requires |s| > 0 && n < 256 && Sorted(s) && Share(s, n) && k == Search(s, n, 0, |s|)
    ensures Share(s[..k], n + 1) && Share(s[k..], n + 1)
    ensures Under(s[..k], s[0].path, n, false) && Under(s[k..], s[0].path, n, true)
    ensures Sorted(s[..k]) && Sorted(s[k..])
    ensures !BitAt(s[0].path, n) <==> 0 < k
    ensures BitAt(s[|s| - 1].path, n) <==> k < |s|
  {
    SearchSplits(s, n, 0, |s|);
    HalfShares(s[..k], n, false);
    HalfShares(s[k..], n, true);
  }

  /** Where a sorted range of two or more elements splits. */
  lemma {:induction false} SplitFacts(s: seq<Element>, d: nat, t: Tree) returns (lcp: nat, k: nat)
    requires |s| >= 2 && d <= 256 && Sorted(s) && Share(s, d) && Shape(s) == Ok(t)
    ensures lcp == CommonPrefixLen(s[0], s[|s| - 1]) && d <= lcp < 256
    ensures k == Search(s, lcp, 0, |s|) && 0 < k < |s|
    ensures Share(s[..k], lcp + 1) && Share(s[k..], lcp + 1)
    ensures Under(s[..k], s[0].path, lcp, false) && Under(s[k..], s[0].path, lcp, true)
    ensures Sorted(s[..k]) && Sorted(s[k..])
    ensures t.Node? && t.prefix == PrefixOf(s[0].path, lcp) && t.plen == lcp
    ensures Shape(s[..k]) == Ok(t.left) && Shape(s[k..]) == Ok(t.right)
  {
    lcp := CommonPrefixLen(s[0], s[|s| - 1]);
    k := Search(s, lcp, 0, |s|);
    RangeShares(s, lcp);
    HalvesOf(s, lcp, k);
    assert Agree(s[0].path, s[|s| - 1].path, d);
  }

  lemma {:induction false} UnderTruncated(s: seq<Element>, p: Label, n: nat, b: bool)
    requires n < 256 && Under(s, p, n, b)
    ensures Under(s, PrefixOf(p, n), n, b)
  {
    PrefixOfBits(p, n);
  }

  lemma {:induction false} NodeOfHalves(a: seq<Element>, b: seq<Element>, p: Label, d: nat, n: nat, l: Tree, r: Tree)
    requires d <= n < 256 && Under(a, p, n, false) && Under(b, p, n, true)
    requires Leaves(l) == a && WellFormed(l, n + 1) && Leaves(r) == b && WellFormed(r, n + 1)
    ensures WellFormed(Node(PrefixOf(p, n), n, l, r), d) && Leaves(Node(PrefixOf(p, n), n, l, r)) == a + b
  {
    PrefixOfBits(p, n);
    UnderTruncated(a, p, n, false);
    UnderTruncated(b, p, n, true);
  }

  lemma {:induction false} NodeIsWellFormed(s: seq<Element>, k: nat, d: nat, n: nat, l: Tree, r: Tree)
    requires 0 < k < |s| && d <= n < 256
    requires Under(s[..k], s[0].path, n, false) && Under(s[k..], s[0].path, n, true)
    requires Leaves(l) == s[..k] && WellFormed(l, n + 1) && Leaves(r) == s[k..] && WellFormed(r, n + 1)
    ensures WellFormed(Node(PrefixOf(s[0].path, n), n, l, r), d)
    ensures Leaves(Node(PrefixOf(s[0].path, n), n, l, r)) == s
  {
    NodeOfHalves(s[..k], s[k..], s[0].path, d, n, l, r);
    assert s[..k] + s[k..] == s;
  }

  /** What Shape makes of a sorted range whose labels share d bits. */
  lemma {:induction false} ShapeIsWellFormed(s: seq<Element>, d: nat, t: Tree)
    requires |s| > 0 && d <= 256 && Sorted(s) && Share(s, d) && Shape(s) == Ok(t)
    ensures WellFormed(t, d) && Leaves(t) == s
    decreases |s|
  {
    if |s| >= 2 {
      var lcp, k := SplitFacts(s, d, t);
      ShapeIsWellFormed(s[..k], lcp + 1, t.left);
      ShapeIsWellFormed(s[k..], lcp + 1, t.right);
      NodeIsWellFormed(s, k, d, lcp, t.left, t.right);
    }
  }
}
