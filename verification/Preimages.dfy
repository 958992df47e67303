/**
 * What is hashed, byte for byte (internal/akdtree/verify.go:96-160, 241-314): each statement here is
 * in bytes and the hash function alone.
 */
module Preimages {
  import opened Basics
  import opened Labels
  import opened AkdTree
  import opened Trie
  import opened Rejection
  import opened Reference
  import opened Refinement
  import opened Verifying

  // ----- numbers

  lemma {:induction false} SameNumber(a: Bytes, b: Bytes)
    requires |a| == |b| && FromBigEndian(a) == FromBigEndian(b)
    ensures a == b
    decreases |a|
  {
    if a != [] {
      var n := |a| - 1;
      SameNumber(a[..n], b[..n]);
      assert a == a[..n] + [a[n]] && b == b[..n] + [b[n]];
    }
  }

  lemma {:induction false} OneMore(a: Bytes, x: byte)
    ensures FromBigEndian(a + [x]) == 256 * FromBigEndian(a) + x
  {
    assert (a + [x])[..|a|] == a;
  }

  lemma {:induction false} FourMore(a: Bytes, n: nat)
    requires n < 0x1_0000_0000
    ensures FromBigEndian(a + Be32(n)) == 0x1_0000_0000 * FromBigEndian(a) + n
  {
    var b := Be32(n);
    Places(n);
    FourDigits(a, b[0], b[1], b[2], b[3]);
    assert b == [b[0], b[1], b[2], b[3]];
  }

  lemma {:induction false} FourDigits(a: Bytes, w: byte, x: byte, y: byte, z: byte)
    ensures FromBigEndian(a + [w, x, y, z])
            == 0x1_0000_0000 * FromBigEndian(a) + 0x100_0000 * w + 0x1_0000 * x + 256 * y + z
  {
    OneMore(a, w);
    OneMore(a + [w], x);
    OneMore(a + [w] + [x], y);
    OneMore(a + [w] + [x] + [y], z);
    assert a + [w, x, y, z] == a + [w] + [x] + [y] + [z];
  }

  lemma {:induction false} Places(n: nat)
    requires n < 0x1_0000_0000
    ensures var b := Be32(n);
            |b| == 4 && b[0] as int * 0x100_0000 + b[1] as int * 0x1_0000 + b[2] as int * 256 + b[3] == n
  {
    assert n / 0x1_0000 == n / 256 / 256 && n / 0x100_0000 == n / 256 / 256 / 256;
  }

  lemma {:induction false} FourBytes(n: nat)
    requires n < 0x1_0000_0000
    ensures |Be32(n)| == 4 && FromBigEndian(Be32(n)) == n
  {
    FourMore([], n);
    assert [] + Be32(n) == Be32(n);
  }

  // ----- labels and commitments

  /** The string a label of so many bits is hashed as: its length in four bytes, the most significant
      first, and its 32 bytes. */
  ghost predicate Spells(b: Bytes, path: Label, len: nat) {
    |b| == 36 && FromBigEndian(b[..4]) == len && b[4..] == path
  }

  /** The string is the one the label is hashed as, and there is no other. */
  lemma {:induction false} LabelIsSpelled(b: Bytes, path: Label, len: LabelLen)
    ensures Spells(b, path, len) <==> b == LabelString(path, len)
  {
    var c := LabelString(path, len);
    FourBytes(len);
    assert c[..4] == Be32(len) && c[4..] == path;
    if Spells(b, path, len) {
      SameNumber(b[..4], c[..4]);
      assert b == b[..4] + b[4..];
    }
  }

  /** An inserted value is committed by hashing it with its epoch, in eight bytes, the most significant
      first. */
  lemma {:induction false} CommitmentIsHashed(h: Hash, v: Digest, epoch: nat, b: Bytes)
    requires epoch < 0x1_0000_0000_0000_0000 && |b| == 8 && FromBigEndian(b) == epoch
    ensures HashLeafWithCommitment(h, v, epoch) == h(v + b)
  {
    var hi, lo := Be32(epoch / 0x1_0000_0000), Be32(epoch % 0x1_0000_0000);
    FourBytes(epoch / 0x1_0000_0000);
    FourMore(hi, epoch % 0x1_0000_0000);
    SameNumber(b, hi + lo);
    assert v + (hi + lo) == v + hi + lo;
  }

  // ----- trees

  ghost predicate LabelDigest(h: Hash, path: Label, len: nat, lab: Digest) {
    exists b: Bytes :: Spells(b, path, len) && lab == h(b)
  }

  /** The hash of a tree and of its label. A missing child has the hash of a zero byte for its value
      and 32 ones, of length 0, for its label; two children are each hashed with their label before
      they are hashed together. */
  ghost predicate Digested(h: Hash, t: Tree, val: Digest, lab: Digest) {
    match t
    case Empty => lab == h([0, 0, 0, 0] + seq(32, _ => 1)) && val == h(h([0]) + lab)
    case Leaf(e) => val == e.value && LabelDigest(h, e.path, e.len, lab)
    case Node(p, n, l, r) =>
      && LabelDigest(h, p, n, lab)
      && exists lv: Digest, ll: Digest, rv: Digest, rl: Digest ::
           Digested(h, l, lv, ll) && Digested(h, r, rv, rl) && val == h(h(lv + ll) + h(rv + rl))
  }

  lemma {:induction false} EmptyIsSpelled()
    ensures LabelString(EMPTY_LABEL, 0) == [0, 0, 0, 0] + seq(32, _ => 1)
    ensures LabelString(ROOT_LABEL, 0) == seq(36, _ => 0)
  {
    assert seq(36, _ => 0) == [0, 0, 0, 0] + Repeat(0, 32);
  }

  lemma {:induction false} LabelIsDigested(h: Hash, path: Label, len: LabelLen)
    ensures LabelDigest(h, path, len, LabelValue(h, path, len))
  {
    LabelIsSpelled(LabelString(path, len), path, len);
  }

  lemma {:induction false} TreeIsDigested(h: Hash, t: Tree)
    ensures Digested(h, t, HashOf(h, t).val, HashOf(h, t).lab)
    decreases t
  {
    match t
    case Empty => EmptyIsSpelled();
    case Leaf(e) => LabelIsDigested(h, e.path, e.len);
    case Node(p, n, l, r) =>
      LabelIsDigested(h, p, n);
      TreeIsDigested(h, l);
      TreeIsDigested(h, r);
      var x, y := HashOf(h, l), HashOf(h, r);
      assert Val(h, t) == h(h(x.val + x.lab) + h(y.val + y.lab));
  }

  /** The tree over the elements whose first bit is b: one that sorts them by their bits. */
  ghost predicate Side(t: Tree, b: bool) {
    (t.Empty? || WellFormed(t, 1)) && forall e | e in Leaves(t) :: BitAt(e.path, 0) == b
  }

  lemma {:induction false} SideOver(s: seq<Element>, t: Tree, b: bool)
    requires Sorted(s) && Share(s, 1) && Shape(s) == Ok(t) && forall e | e in s :: BitAt(e.path, 0) == b
    ensures Side(t, b) && Leaves(t) == s
  {
    if s != [] { ShapeIsWellFormed(s, 1, t); }
  }

  lemma {:induction false} TopSides(s: seq<Element>)
    requires s != [] && Sorted(s) && TopShape(s).Ok?
    ensures var t := TopShape(s).value;
            t.Top? && Leaves(t.left) + Leaves(t.right) == s && Side(t.left, false) && Side(t.right, true)
  {
    var a, b := TopHalves(s);
    SideOver(a, TopShape(s).value.left, false);
    SideOver(b, TopShape(s).value.right, true);
  }

  /** The root as a node, labelled by nothing. */
  function RootNode(l: Tree, r: Tree): Tree {
    Node(ROOT_LABEL, 0, l, r)
  }

  lemma {:induction false} RootNodeIsDigested(h: Hash, l: Tree, r: Tree)
    ensures var t, lab := RootNode(l, r), h(seq(36, _ => 0));
            Digested(h, t, Val(h, t), lab) && TopDigest(h, Top(l, r)) == h(Val(h, t) + lab)
  {
    EmptyIsSpelled();
    TreeIsDigested(h, RootNode(l, r));
  }

  /** The root of an array that builds, in bytes. It is the hash of a value with a label, the hash of
      36 zero bytes. Over no element the value is the hash of a zero byte; over some it is that of the
      node whose children are the tree over the elements that begin with a 0 and the tree over those
      that begin with a 1. */
  lemma {:induction false} RootInBytes(h: Hash, s: seq<Element>) returns (t: Tree, val: Digest)
    requires Sorted(s) && Root(h, s).Ok?
    ensures Root(h, s).value == h(val + h(seq(36, _ => 0)))
    ensures s == [] ==> val == h([0])
    ensures s != [] ==> t.Node? && Digested(h, t, val, h(seq(36, _ => 0)))
                        && Leaves(t.left) + Leaves(t.right) == s && Side(t.left, false) && Side(t.right, true)
  {
    RootHashesShape(h, s);
    EmptyIsSpelled();
    t, val := Empty, h([0]);
    if s != [] {
      TopSides(s);
      var top := TopShape(s).value;
      RootNodeIsDigested(h, top.left, top.right);
      t := RootNode(top.left, top.right);
      val := Val(h, t);
    }
  }

  // ----- the smallest trees

  /** What is hashed for a child that is missing. */
  ghost function Nothing(h: Hash): Bytes {
    var lab := h([0, 0, 0, 0] + seq(32, _ => 1));
    h(h([0]) + lab) + lab
  }

  lemma {:induction false} OneBit(s: seq<Element>, k: nat)
    requires k <= |s| && k == Search(s, 0, 0, |s|) && (k == 0 || k == |s|)
    ensures k == 0 ==> s[..k] == [] && s[k..] == s
    ensures k == |s| ==> s[..k] == s && s[k..] == []
  {
  }

  /** The root over one leaf: it is hashed with its label, and with the missing child on its other
      side. */
  lemma {:induction false} RootOfOne(h: Hash, e: Element, label_: Bytes)
    requires Spells(label_, e.path, e.len)
    ensures var x := h(e.value + h(label_));
            var both := if BitAt(e.path, 0) then h(Nothing(h)) + x else x + h(Nothing(h));
            Root(h, [e]) == Ok(h(h(both) + h(seq(36, _ => 0))))
  {
    LabelIsSpelled(label_, e.path, e.len);
    EmptyIsSpelled();
    OneBit([e], Search([e], 0, 0, 1));
  }

  /** The root over two leaves that differ in their first bit. */
  lemma {:induction false} RootOfTwo(h: Hash, a: Element, b: Element, first: Bytes, second: Bytes)
    requires !BitAt(a.path, 0) && BitAt(b.path, 0)
    requires Spells(first, a.path, a.len) && Spells(second, b.path, b.len)
    ensures Root(h, [a, b]) == Ok(h(h(h(a.value + h(first)) + h(b.value + h(second))) + h(seq(36, _ => 0))))
  {
    LabelIsSpelled(first, a.path, a.len);
    LabelIsSpelled(second, b.path, b.len);
    EmptyIsSpelled();
    var s := [a, b];
    assert Search(s, 0, 0, 2) == 1;
    assert s[..1] == [a] && s[1..] == [b];
  }

  /** Both roots of the first proof of a log, which inserts one element into an empty tree. */
  lemma {:induction false} FirstProofInBytes(h: Hash, e: Element, epoch: Epoch, label_: Bytes, number: Bytes)
    requires Spells(label_, e.path, e.len) && |number| == 8 && FromBigEndian(number) == epoch
    ensures var x := h(h(e.value + number) + h(label_));
            var both := if BitAt(e.path, 0) then h(Nothing(h)) + x else x + h(Nothing(h));
            RootsOf(h, [], [e], epoch)
            == Ok(RootPair(h(h([0]) + h(seq(36, _ => 0))), h(h(both) + h(seq(36, _ => 0)))))
  {
    CommitmentIsHashed(h, e.value, epoch, number);
    var c := Element(e.path, e.len, h(e.value + number));
    assert Committed(h, [e], epoch) == [c];
    RootOfOne(h, c, label_);
    EmptyIsSpelled();
    assert [] + [c] == [c] && [c][..0] == [];
    assert SortSeq([c]) == [c];
  }
}
