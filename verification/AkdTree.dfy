/**
 * The trie over proof elements and its hash (internal/akdtree/verify.go:67-314).
 *
 * Root and Subtree follow the source: one sorted array, recursion over index ranges, the
 * common prefix taken from the first and last element, the split found by binary search.
 */
module AkdTree {
  import opened Basics
  import opened Labels

  /** A label length, as far as Decode lets one through (internal/akdtree/decode.go:161). */
  type LabelLen = n: nat | n <= 256

  datatype Element = Element(path: Label, len: LabelLen, value: Digest)

  datatype RootError =
    | OnInteriorNode(bits: nat)
    | DoesNotSplit(count: nat, bits: nat)

  // ----- hashing

  function Be32(n: nat): Bytes
    requires n < 0x1_0000_0000
  {
    [n / 0x100_0000, n / 0x1_0000 % 256, n / 256 % 256, n % 256]
  }

  /** The 36 bytes a label is hashed as. */
  function LabelString(path: Label, len: LabelLen): Bytes {
    Be32(len) + path
  }

  function LabelValue(h: Hash, path: Label, len: LabelLen): Digest {
    h(LabelString(path, len))
  }

  function Hash2(h: Hash, a: Digest, b: Digest): Digest {
    h(a + b)
  }

  /** A node's hash and the hash of its label. */
  datatype NodeHash = NodeHash(val: Digest, lab: Digest)

  function ParentHash(h: Hash, l: NodeHash, r: NodeHash): Digest {
    Hash2(h, Hash2(h, l.val, l.lab), Hash2(h, r.val, r.lab))
  }

  const EMPTY_LABEL: Label := Repeat(1, 32)

  const EMPTY_VALUE: Bytes := [0]

  const ROOT_LABEL: Label := Repeat(0, 32)

  function EmptyNodeHash(h: Hash): Digest {
    Hash2(h, h(EMPTY_VALUE), LabelValue(h, EMPTY_LABEL, 0))
  }

  // ----- order

  predicate Leq(a: Element, b: Element) {
    var c := Compare(a.path, b.path);
    c < 0 || (c == 0 && a.len <= b.len)
  }

  predicate Less(a: Element, b: Element) {
    var c := Compare(a.path, b.path);
    if c != 0 then c < 0 else a.len < b.len
  }

  ghost predicate Sorted(s: seq<Element>) {
    forall i, j | 0 <= i < j < |s| :: Leq(s[i], s[j])
  }

  // ----- the build

  function CommonPrefixLen(a: Element, b: Element): (k: nat)
    ensures k <= a.len && k <= b.len && Agree(a.path, b.path, k)
    ensures k < a.len && k < b.len ==> BitAt(a.path, k) != BitAt(b.path, k)
  {
    SharedBits(a.path, b.path, Min(a.len, b.len))
  }

  /** sort.Search over lo..hi for the first element whose given bit is 1. */
  function Search(s: seq<Element>, bit: nat, lo: nat, hi: nat): (k: nat)
    requires lo <= hi <= |s| && bit < 256
    ensures lo <= k <= hi
    decreases hi - lo
  {
    if lo == hi then lo
    else
      var mid := (lo + hi) / 2;
      if BitAt(s[mid].path, bit) then Search(s, bit, lo, mid) else Search(s, bit, mid + 1, hi)
  }

  /** The hash and hashed label of the node covering s. */
  function Subtree(h: Hash, s: seq<Element>): Result<NodeHash, RootError>
    decreases |s|
  {
    if |s| == 0 then Ok(NodeHash(EmptyNodeHash(h), LabelValue(h, EMPTY_LABEL, 0)))
    else if |s| == 1 then Ok(NodeHash(s[0].value, LabelValue(h, s[0].path, s[0].len)))
    else
      var lcp := CommonPrefixLen(s[0], s[|s| - 1]);
      if s[0].len == lcp then Err(OnInteriorNode(lcp))
      else
        var split := Search(s, lcp, 0, |s|);
        if split == 0 || split == |s| then Err(DoesNotSplit(|s|, lcp))
        else
          var l, r := Subtree(h, s[..split]), Subtree(h, s[split..]);
          if l.Err? then Err(l.error)
          else if r.Err? then Err(r.error)
          else Ok(NodeHash(ParentHash(h, l.value, r.value), LabelValue(h, PrefixOf(s[0].path, lcp), lcp)))
  }

  function Root(h: Hash, s: seq<Element>): Result<Digest, RootError> {
    var rootLabel := LabelValue(h, ROOT_LABEL, 0);
    if |s| == 0 then Ok(Hash2(h, h(EMPTY_VALUE), rootLabel))
    else
      var split := Search(s, 0, 0, |s|);
      var l, r := Subtree(h, s[..split]), Subtree(h, s[split..]);
      if l.Err? then Err(l.error)
      else if r.Err? then Err(r.error)
      else Ok(Hash2(h, ParentHash(h, l.value, r.value), rootLabel))
  }

  /** The value an inserted element is committed to before the second build. */
  function HashLeafWithCommitment(h: Hash, v: Digest, epoch: nat): Digest
    requires epoch < 0x1_0000_0000_0000_0000
  {
    h(v + Be32(epoch / 0x1_0000_0000) + Be32(epoch % 0x1_0000_0000))
  }
}
