/**
 * The verdict on one proof (internal/audit/goverify.go:106-173), and what it takes for the auditor
 * to accuse a log.
 */
module Accusation {
  import opened Basics
  import opened AkdTree
  import opened Varint
  import opened Decoding
  import opened Soundness
  import opened Binding
  import opened Verifying
  import opened Rejection
  import opened RoundTrip
  import opened Completeness
  import opened Auditing

  /** What the fetch brings: an error of the verifier, no bytes, or bytes and the published roots,
      each present if it is 64 hex digits. */
  datatype Fetched = Broken | Missing | Got(bytes: Bytes, prev: Option<Digest>, curr: Option<Digest>)

  /** VerifyCached. Only a proof that decodes, against roots that parse, with both roots rebuilt,
      can fail for "verify". */
  function Judge(h: Hash, f: Fetched, epoch: Epoch): Outcome {
    match f
    case Broken => Errs
    case Missing => Failed(Fetch)
    case Got(bytes, prev, curr) =>
      var p := Decode(bytes);
      if p.None? then Failed(Decoded)
      else if prev.None? || curr.None? then Failed(Fetch)
      else
        match Verdict(h, p.value.kept, p.value.inserted, prev.value, curr.value, epoch)
        case Err(_) => Failed(Decoded)
        case Ok(true) => Passed
        case Ok(false) => Failed(Verify)
  }

  /** VerifyCached's loops and arrays compute that. */
  method VerifyCached(h: Hash, f: Fetched, epoch: Epoch) returns (res: Outcome)
    ensures res == Judge(h, f, epoch)
  {
    if f.Broken? {
      return Errs;
    }
    if f.Missing? {
      return Failed(Fetch);
    }
    var ok, inserted, kept := DecodeProof(f.bytes);
    if !ok {
      return Failed(Decoded);
    }
    if f.prev.None? || f.curr.None? {
      return Failed(Fetch);
    }
    var v := new Verifier();
    var r := v.VerifyAppendOnly(h, kept, inserted, f.prev.value, f.curr.value, epoch);
    if r.Err? {
      return Failed(Decoded);
    }
    return if r.value then Passed else Failed(Verify);
  }

  // ----- the classification, on what was fetched

  /** The unchanged elements rebuild the one root, and with the inserted ones, committed, the other. */
  ghost predicate Rebuilds(h: Hash, p: Proof, prev: Digest, curr: Digest, epoch: Epoch) {
    && Root(h, SortSeq(p.kept)) == Ok(prev)
    && Root(h, SortSeq(p.kept + Committed(h, p.inserted, epoch))) == Ok(curr)
  }

  lemma {:induction false} VerdictRebuilds(h: Hash, p: Proof, prev: Digest, curr: Digest, epoch: Epoch)
    ensures Verdict(h, p.kept, p.inserted, prev, curr, epoch) == Ok(true) <==> Rebuilds(h, p, prev, curr, epoch)
  {
  }

  /** When a proof passes: exactly when the bytes came and decode, both published roots parse, and the
      elements rebuild both. */
  lemma {:induction false} PassesExactly(h: Hash, f: Fetched, epoch: Epoch)
    ensures Judge(h, f, epoch) == Passed <==>
            && f.Got? && f.prev.Some? && f.curr.Some? && Decode(f.bytes).Some?
            && Rebuilds(h, Decode(f.bytes).value, f.prev.value, f.curr.value, epoch)
  {
    if f.Got? && f.prev.Some? && f.curr.Some? && Decode(f.bytes).Some? {
      VerdictRebuilds(h, Decode(f.bytes).value, f.prev.value, f.curr.value, epoch);
    }
  }

  /** And when it does not: no verdict at all exactly when the verifier broke; "fetch" exactly when no
      bytes came, or bytes that decode but a published root that is no digest; "decode" exactly when
      the bytes do not decode, or the elements build no tree; and nothing else but "verify". */
  lemma {:induction false} OtherwiseExactly(h: Hash, f: Fetched, epoch: Epoch)
    ensures var o, p := Judge(h, f, epoch), if f.Got? then Decode(f.bytes) else None;
            && (o == Errs <==> f == Broken)
            && (o == Failed(Fetch) <==> f == Missing || (p.Some? && (f.prev.None? || f.curr.None?)))
            && (o == Failed(Decoded) <==>
                f.Got? && (p.None? || (f.prev.Some? && f.curr.Some? && Unbuildable(h, p.value, epoch))))
            && o in {Errs, Passed, Failed(Fetch), Failed(Decoded), Failed(Verify)}
  {
    if f.Got? && Decode(f.bytes).Some? { BuildsExactly(h, Decode(f.bytes).value, epoch); }
  }

  /** Among the unchanged elements, or among them and the inserted, two are too close: one sits where
      the other has still to branch. */
  ghost predicate Unbuildable(h: Hash, p: Proof, epoch: Epoch) {
    !AllApart(SortSeq(p.kept)) || !AllApart(SortSeq(p.kept + Committed(h, p.inserted, epoch)))
  }

  lemma {:induction false} BuildsExactly(h: Hash, p: Proof, epoch: Epoch)
    ensures RootsOf(h, p.kept, p.inserted, epoch).Err? <==> Unbuildable(h, p, epoch)
  {
    var c := p.kept + Committed(h, p.inserted, epoch);
    SortSeqSorts(p.kept);
    SortSeqSorts(c);
    RootAcceptsExactly(h, SortSeq(p.kept));
    RootAcceptsExactly(h, SortSeq(c));
  }

  /** End to end, the other way: the encoding of an honest proof, with the roots of its two trees,
      passes. */
  lemma {:induction false} HonestBytesPass(h: Hash, kept: seq<Element>, inserted: seq<Element>, epoch: Epoch,
          old_: seq<seq<Element>>, new_: seq<seq<Element>>)
    requires Chain(h, old_) && old_[|old_| - 1] == SortSeq(kept) && Root(h, old_[0]).Ok?
    requires Chain(h, new_) && new_[|new_| - 1] == SortSeq(kept + Committed(h, inserted, epoch)) && Root(h, new_[0]).Ok?
    ensures var data, prev, curr := EncodeProof(Proof(inserted, kept)), Root(h, old_[0]).value, Root(h, new_[0]).value;
            Judge(h, Got(data, Some(prev), Some(curr)), epoch) == Passed
  {
    var p := Proof(inserted, kept);
    ProofRoundTrip(p);
    HonestProofIsAccepted(h, kept, inserted, epoch, old_, new_);
    AcceptedPasses(h, EncodeProof(p), p, Root(h, old_[0]).value, Root(h, new_[0]).value, epoch);
  }

  lemma {:induction false} AcceptedPasses(h: Hash, bytes: Bytes, p: Proof, prev: Digest, curr: Digest, epoch: Epoch)
    requires Decode(bytes) == Some(p) && Verdict(h, p.kept, p.inserted, prev, curr, epoch) == Ok(true)
    ensures Judge(h, Got(bytes, Some(prev), Some(curr)), epoch) == Passed
  {
  }

  /** End to end: if a proof as fetched passes, and the published roots are those of two trees of
      whole leaves, the new tree holds every leaf of the old with its value, and its other leaves lie
      under labels the decoded proof inserts; or the hash collides on strings hashed on the way. */
  lemma {:induction false} PassedIsAppendOnly(h: Hash, f: Fetched, epoch: Epoch, o: seq<Element>, n: seq<Element>)
    requires Judge(h, f, epoch) == Passed
    requires FullLeaves(o) && Root(h, SortSeq(o)) == Ok(f.prev.value)
    requires FullLeaves(n) && Root(h, SortSeq(n)) == Ok(f.curr.value)
    ensures var p := Decode(f.bytes).value;
            AppendOnly(o, n, p.inserted)
            || Collision(h, AllStrings(h, SortSeq(p.kept), SortSeq(p.kept + Committed(h, p.inserted, epoch)),
                                       SortSeq(o), SortSeq(n)))
  {
    var p := Decode(f.bytes).value;
    AcceptedProofIsAppendOnly(h, p.kept, p.inserted, f.prev.value, f.curr.value, epoch, o, n);
  }

  /** uint64(epoch). */
  function EpochOf(e: int): (n: Epoch)
    ensures 0 <= e < TWO_64 ==> n == e
    ensures e < 0 && e + TWO_64 >= 0 ==> n == e + TWO_64
  {
    e % 0x1_0000_0000_0000_0000
  }

  /** The proof arrived and decoded, both published roots parsed, and the roots the proof rebuilds
      are not those. */
  ghost predicate Refutes(h: Hash, f: Fetched, epoch: Epoch) {
    && f.Got? && f.prev.Some? && f.curr.Some? && Decode(f.bytes).Some?
    && Differs(RootsOf(h, Decode(f.bytes).value.kept, Decode(f.bytes).value.inserted, epoch), f.prev.value,
               f.curr.value)
  }

  predicate Differs(roots: Result<RootPair, RootsError>, prev: Digest, curr: Digest) {
    roots.Ok? && roots.value != RootPair(prev, curr)
  }

  lemma {:induction false} JudgeRefutes(h: Hash, f: Fetched, epoch: Epoch)
    ensures Judge(h, f, epoch) == Failed(Verify) <==> Refutes(h, f, epoch)
  {
    if f.Got? {
      var p := Decode(f.bytes);
      if p.Some? && f.prev.Some? && f.curr.Some? {
        VerdictDiffers(h, p.value.kept, p.value.inserted, f.prev.value, f.curr.value, epoch);
      }
    }
  }

  lemma {:induction false} VerdictDiffers(h: Hash, kept: seq<Element>, inserted: seq<Element>, prev: Digest,
          curr: Digest, epoch: Epoch)
    ensures Verdict(h, kept, inserted, prev, curr, epoch) == Ok(false)
            <==> Differs(RootsOf(h, kept, inserted, epoch), prev, curr)
  {
  }

  /** The verifier's answers in a run are its verdicts on the proofs fetched then. */
  ghost predicate Judged(h: Hash, proof: int -> Fetched, env: Env) {
    forall e :: env.judge(e) == Judge(h, proof(e), EpochOf(e))
  }

  /** Over any runs, the auditor accuses the log only in a run, and of an epoch, whose proof as
      fetched in that run decoded and rebuilt other roots than those published: never for want of
      bytes, of a decodable proof or of a verdict. */
  lemma {:induction false} AccusationsAreRefutations(h: Hash, proofs: seq<int -> Fetched>, envs: seq<Env>, s: State)
    returns (i: nat, e: int)
    requires |proofs| == |envs| && forall j | 0 <= j < |envs| :: Judged(h, proofs[j], envs[j])
    requires s.fork.None? && RunsOf(envs, s).fork.Some?
    ensures i < |envs| && StateAt(envs, s, i).fork.None?
    ensures StateAt(envs, s, i + 1).fork == RunsOf(envs, s).fork == Some(e)
    ensures Refutes(h, proofs[i](e), EpochOf(e))
    decreases |envs|
  {
    var t := RunOf(envs[0], s);
    FirstStates(envs, s);
    RunForks(envs[0], s);
    if t.fork.Some? {
      i, e := 0, t.fork.value;
      ForkStays(envs[1..], t);
      assert Judged(h, proofs[0], envs[0]);
      JudgeRefutes(h, proofs[0](e), EpochOf(e));
    } else {
      i, e := AccusationsAreRefutations(h, proofs[1..], envs[1..], t);
      LaterState(envs, s, i);
      LaterState(envs, s, i + 1);
      i := i + 1;
    }
  }

  /** And the other side of it: over any runs, an epoch comes to be recorded as verified only in a run
      whose proof of it, as fetched then, decoded and rebuilt both published roots. */
  lemma {:induction false} VerifiedProofsRebuild(h: Hash, proofs: seq<int -> Fetched>, envs: seq<Env>, s: State, e: int)
    returns (i: nat)
    requires |proofs| == |envs| && forall j | 0 <= j < |envs| :: Judged(h, proofs[j], envs[j])
    requires Verified(RunsOf(envs, s), e) && !Verified(s, e)
    ensures i < |envs| && envs[i].selects(e) == Some(true) && envs[i].resolves(e)
    ensures var f := proofs[i](e);
            && f.Got? && f.prev.Some? && f.curr.Some? && Decode(f.bytes).Some?
            && Rebuilds(h, Decode(f.bytes).value, f.prev.value, f.curr.value, EpochOf(e))
  {
    i := VerifiedWerePassed(envs, s, e);
    assert Judged(h, proofs[i], envs[i]);
    PassesExactly(h, proofs[i](e), EpochOf(e));
  }
}
