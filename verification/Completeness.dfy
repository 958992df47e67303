/**
 * The converse of soundness: a proof made by collapsing subtrees of the two trees is accepted
 * (internal/akdtree/verify.go:41-49, 337-394).
 */
module Completeness {
  import opened Basics
  import opened AkdTree
  import opened Trie
  import opened Rejection
  import opened Collapse
  import opened Verifying

  /** q is s with the elements under one interior node replaced by the node's own element. */
  ghost predicate CollapsesOnce(h: Hash, s: seq<Element>, q: seq<Element>) {
    && Sorted(s) && AllNormal(s) && Sorted(q)
    && exists t, x :: CollapsesAt(h, s, q, t, x)
  }

  ghost predicate CollapsesAt(h: Hash, s: seq<Element>, q: seq<Element>, t: Top, x: Tree) {
    TopShape(s) == Ok(t) && x in TopNodes(t) && x.Node? && Collapsed(h, s, x, q)
  }

  /** Each array of the chain is the one before it with one subtree collapsed. */
  ghost predicate Chain(h: Hash, arrays: seq<seq<Element>>) {
    |arrays| > 0 && forall i | 0 <= i < |arrays| - 1 :: CollapsesOnce(h, arrays[i], arrays[i + 1])
  }

  lemma {:induction false} ChainKeepsRoot(h: Hash, arrays: seq<seq<Element>>)
    requires Chain(h, arrays)
    ensures Root(h, arrays[|arrays| - 1]) == Root(h, arrays[0])
    decreases |arrays|
  {
    var n := |arrays| - 1;
    if n > 0 {
      assert CollapsesOnce(h, arrays[n - 1], arrays[n - 1 + 1]);
      var t, x :| CollapsesAt(h, arrays[n - 1], arrays[n], t, x);
      SubtreeStandsForItsLeaves(h, arrays[n - 1], t, x, arrays[n]);
      ChainKeepsRoot(h, arrays[..n]);
    }
  }

  /** If the unchanged elements are the old tree with subtrees collapsed, and with the committed
      inserted elements they are the new tree with subtrees collapsed, then VerifyAppendOnly accepts
      the proof for the roots of the two trees. */
  lemma {:induction false} HonestProofIsAccepted(h: Hash, kept: seq<Element>, inserted: seq<Element>, epoch: Epoch,
                             old_: seq<seq<Element>>, new_: seq<seq<Element>>)
    requires Chain(h, old_) && old_[|old_| - 1] == SortSeq(kept) && Root(h, old_[0]).Ok?
    requires Chain(h, new_) && new_[|new_| - 1] == SortSeq(kept + Committed(h, inserted, epoch)) && Root(h, new_[0]).Ok?
    ensures Verdict(h, kept, inserted, Root(h, old_[0]).value, Root(h, new_[0]).value, epoch) == Ok(true)
  {
    ChainKeepsRoot(h, old_);
    ChainKeepsRoot(h, new_);
  }
}
