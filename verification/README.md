# Verification of kt-witness

A Dafny model of the parts of kt-witness on which its verdicts rest: the append-only proof verifier,
the wire format under it, the pipeline that feeds it, and the two rate limiters. Each theorem holds
for every input, every run or every interleaving; hashes, clocks, the store, the beacon and the
network are parameters.

## The pieces

**The tree** (`Labels`, `AkdTree`, `Trie`, `Preimages`, `Rejection`, `Ordering`, `Reference`,
`Refinement`, `Collapse`, `Binding`, `Soundness`, `Verifier`, `Completeness`). `AkdTree.Root` is the
source's recursion over a sorted array, and `Preimages` says byte by byte what it hashes.
`Reference` is the definition the source says it must agree with: an unordered list partitioned at
every bit, rejected when an element is dropped. `Rejection` says exactly which inputs are rejected,
and with which error, with no assumption on the bits past a label's length, and then what that means
when those bits are zero. `Refinement` says exactly where the recursion and the reference agree:
always, when those bits are zero. `Collapse` and `Completeness` show that a node may stand for its
leaves, so that an honest proof is accepted; `Binding` and `Soundness` show that an accepted proof
is append-only. The hash is an arbitrary function from byte strings to 32 bytes, and no injectivity
is assumed: the security theorems end in "or two different strings, both hashed while building these
trees, have one hash". `Verifier` holds the loops: the byte-skipping prefix, the sort, the merge,
the object with its reused scratch space, and the worker's concatenate-and-sort, both proved to
return one function of the proof.

**The wire format** (`Varint`, `Frames`, `Ranges`, `Decode`, `RoundTrip`, `Payload`, `PayloadBytes`,
`EncodedPayload`, `Canary`, `Pbwire`, `PbFields`, `PbMessage`). The format is the Protocol Buffers
encoding, sections "Base 128 Varints" and "Message Structure". The source frames it in five loops;
they are proved to agree, and where the lenient parser accepts more the difference is stated
exactly. `Canary` proves what the corruption check counts on: a payload byte can be changed without
disturbing anything but itself.

**The pipeline** (`Cursors`, `CacheNames`, `Prefetch`, `PrefetchRuns`, `Auditor`, `Accusation`).
Each is a class with the source's fields and loops, its methods proved against functions of the
state, and the theorems are about any sequence of calls: of the two cursors, of the cache's lock
sections in any interleaving of goroutines, and of auditor runs cut short at any store call.

**The limiters** (`Rates`, `LinkCap`, `PushLimit`), over real numbers.

## What the proofs found

- Labels with bits set past their length (`Decode` lets them through) break three remarks in
  `internal/akdtree/verify.go`. Lines 20-31 and 281-285 have the reference reject whatever it drops, and
  `Root` agree with it; on the input of `Refinement.DirtyLabelDividesThem` the reference drops an element
  and `Root` accepts, and `Refinement.RootIsReference` gives the exact condition. Lines 285-286 say an
  element on an interior node can only be first in its range; `Rejection.DirtyLabelAccepted` is one that
  is not. Lines 297-299 say the split cannot fail on sorted input; in `Rejection.SortedInputDoesNotSplit`
  it does, and `Rejection.SplitFailsExactly` says when. Soundness does not depend on any of them:
  `Verifying.AcceptedProofIsAppendOnly` takes the proof's labels as they come.
- `cursors.backward` does not return when nothing below the forward cursor is unverified and the rest
  of its descent does not fill the budget. `Cursors.ReturnsExactly` gives the exact condition. Nor does
  it while the store fails its queries and there is history to sweep (`Cursors.FailingReturnsExactly`).
- `cursors.forward` passes unverified epochs without offering them exactly when the store fails with
  budget left (`Cursors.ForwardPasses`); the backward sweep still covers them.
- Until the auditor first records progress its start follows the tip, so an epoch it tried and could
  not check is passed over if the log grows (`Auditing.StartFollowsTip`), and a log that grows between
  runs can keep it from ever recording any (`Auditing.TipOutrunsAuditor`). `Auditing.GettingOnIsForced`
  says exactly when it is bound to get on.
- A recorded beacon round is stable only because the beacon answers what it is asked; the number in
  the answer is not compared with the number asked for (`Auditing.RoundChanges`,
  `Auditing.RoundIsReplaced`).
- `Prune` forgets readiness only for configured origins (`Prefetch.UnconfiguredStaysReady`), and a
  cache file named with leading zeros is taken for another (`CacheNames.AliasSplits`).
- A push client told to wait may be refused again though the clock never goes back: handlers read it
  before the limiter's lock, and may take the lock in the other order (`PushLimit.PromiseKeptExactly`,
  `PushLimit.OutOfOrderBreaksPromise`).
- A cache with two files of one name, in different directories, counts the bytes of both
  (`Prefetch.AdoptIsExact`).

## Model

| member | source | states |
|---|---|---|
| Labels.BitAtIsShift | internal/akdtree/verify.go:162-165 | the bit read by dividing is the bit the source's shift reads, most significant first |
| Labels.OrderByBits | internal/akdtree/verify.go:211-225 | byte order of labels is the order of their first differing bit |
| Labels.Between | internal/akdtree/verify.go:236-240 | a label between two others in order shares every bit they share, so first and last give the range's common prefix |
| Labels.BitRises | internal/akdtree/verify.go:293-295 | in a sorted range sharing the bits before it, a bit once 1 stays 1 |
| Labels.PrefixOfBits | internal/akdtree/verify.go:193-209 | truncation keeps the first bits and clears the rest |
| AkdTree.CommonPrefixLen | internal/akdtree/verify.go:167-191 | the labels agree that far, and differ at the next bit unless one of them ends there |
| Trie.SearchSplits | internal/akdtree/verify.go:293-295 | the binary search separates the elements with a 0 at the bit from those with a 1 |
| Trie.RootHashesShape | internal/akdtree/verify.go:241-314 | the array recursion computes the hash of a trie, and errs just where there is none |
| Trie.ShapeIsWellFormed | internal/akdtree/verify.go:264-314 | that trie sends each leaf left or right by its own bits, each node labelled by the bits its leaves share and zeros |
| Preimages.LabelIsSpelled | internal/akdtree/verify.go:118-124 | a label is hashed as 36 bytes and no others: its length, in four bytes read from the most significant, then its 32 bytes |
| Preimages.CommitmentIsHashed | internal/akdtree/verify.go:134-141 | an inserted value is committed as the hash of it followed by the eight bytes that read, from the most significant, as its epoch |
| Preimages.TreeIsDigested | internal/akdtree/verify.go:96-160 | the hash of a trie and of its label in bytes and the hash function alone: missing children, leaves, and nodes, each child hashed with its label, left before right |
| Preimages.RootInBytes | internal/akdtree/verify.go:236-262 | the root of every array that builds, likewise: over the trie of the elements that begin with a 0 and that of those that begin with a 1, or over nothing |
| Preimages.RootOfOne | internal/akdtree/verify.go:246-279 | the root of one leaf, in full |
| Preimages.RootOfTwo | internal/akdtree/verify.go:246-279 | the root of two leaves that differ in their first bit, in full |
| Preimages.FirstProofInBytes | internal/akdtree/verify.go:366-394 | both roots of a proof that inserts one element into an empty tree, in full |
| Rejection.RootAcceptsExactly | internal/akdtree/verify.go:281-303 | over any sorted array, whatever the unused bits, the build succeeds if and only if, of every two elements sharing a first bit, the earlier reaches past the bits they share and the later at least to their end |
| Rejection.RootRejectsCoveredElements | internal/akdtree/verify.go:281-291 | with zero unused bits, the build errs if and only if one label is a prefix of another |
| Rejection.RejectionHasACause | internal/akdtree/verify.go:281-291 | whatever the unused bits, a rejected array holds a label covering another |
| Rejection.DirtyLabelAccepted | internal/akdtree/verify.go:281-291 | an input with a covered label that is accepted: the converse fails once unused bits are set |
| Rejection.SplitFailsExactly | internal/akdtree/verify.go:293-303 | in a sorted range whose first element reaches past the common prefix the split fails if and only if the last is stuck on the first: shorter, and shorter than the bits the two share |
| Rejection.ShapeErrorIs | internal/akdtree/verify.go:281-313 | the error of a range is that of a range inside it failing at its own node: the interior-node error if its first element ends there, the split error, with its size and common prefix, if its last is stuck on its first |
| Rejection.RootErrorIs | internal/akdtree/verify.go:241-314 | the same of the whole root |
| Rejection.StuckIsDirty | internal/akdtree/verify.go:296-303 | with zero unused bits nothing is stuck, and an array with an element stuck on another is never accepted |
| Rejection.EverySplitIsProper | internal/akdtree/verify.go:293-303 | where no element is stuck a range that fails to build fails for an element on an interior node, never for its split |
| Rejection.RootErrsOnInteriorNodes | internal/akdtree/verify.go:296-303 | the same of the whole root |
| Rejection.SortedInputDoesNotSplit | internal/akdtree/verify.go:296-303 | a sorted input on which the split fails: the branch called impossible is reached |
| Rejection.DepthIsBounded | internal/akdtree/verify.go:305-313 | on every sorted range, erring or not, recursion goes no deeper than the label bits not yet shared |
| Ordering.SortedPermutations | internal/akdtree/verify.go:217-225 | two sorted arrangements of the same elements have the same labels and lengths in each place |
| Ordering.RootIsOrderIndependent | internal/akdtree/verify.go:211-225 | the root, or the error, is the same on every sorted arrangement, duplicate keys included |
| Reference.BuildIsUnique | internal/akdtree/verify.go:213-216 | partitioning the leaves of a well-formed trie bit by bit, in any order, gives back that trie |
| Refinement.RootIsReference | internal/akdtree/verify.go:211-314 | on any sorted array, with its elements handed over in any order, repeated partitioning accepts if and only if of every two elements both reach past the bits they share; there the one sort and range recursion give the same digest; the two agree if and only if the recursion accepts nothing more |
| Refinement.NormalRootIsReference | internal/akdtree/verify.go:211-314 | with zero unused bits the two always agree, accepting or rejecting |
| Refinement.DirtyLabelDividesThem | internal/akdtree/verify.go:281-291 | an input the recursion accepts and the reference rejects |
| Collapse.SubtreeStandsForItsLeaves | internal/akdtree/verify.go:266-314 | all elements under an interior node may be replaced by one carrying its prefix, length and hash, and the root does not move |
| Binding.HashBinds | internal/akdtree/verify.go:118-160 | a node whose hash and label hash equal those of a tree of whole leaves stands for a node of it, or the hash collides |
| Binding.RootBindsItsLeaves | internal/akdtree/verify.go:241-262 | two sets of 256-bit leaves with one root are one set, or the hash collides on strings hashed building them |
| Soundness.RootsProveAppendOnly | internal/akdtree/verify.go:328-394 | if unchanged elements rebuild the old root, and with the inserted ones the new, the new tree extends the old under inserted labels, or the hash collides |
| Verifying.CommonPrefix | internal/akdtree/verify.go:169-191 | the loop that skips equal bytes returns the common prefix length |
| Verifying.InsertAt | internal/akdtree/verify.go:217-225 | the element is put in its place among those sorted before it, the rest untouched |
| Verifying.Sort | internal/akdtree/verify.go:217-225 | the array is left sorted, with the same elements |
| Verifying.MergeSorts | internal/akdtree/verify.go:403-418 | the merge of two sorted sequences is sorted and holds all of both |
| Verifying.Merge | internal/akdtree/verify.go:404-418 | the three-index loop and its two copies leave the ordered union in the front of out |
| Verifying.Verifier.constructor | internal/akdtree/verify.go:324-326 | the scratch space begins empty |
| Verifying.Verifier.MergedRoot | internal/akdtree/verify.go:382-389 | the root over the union, whatever the scratch space held or how large it was |
| Verifying.Verifier.Roots | internal/akdtree/verify.go:366-394 | both roots as a function of the proof alone, over any history of calls; both arrays left sorted, the inserted one committed |
| Verifying.Verifier.VerifyAppendOnly | internal/akdtree/verify.go:337-343 | true exactly when both roots are rebuilt as given; an error is no verdict |
| Verifying.CommitAll | internal/akdtree/verify.go:377-379 | each inserted value is replaced by its commitment to the epoch |
| Verifying.WorkerVerify | cmd/kt-worker/verify.go:128-154 | concatenate and sort returns what merging returns, error for error, and leaves the inserted elements alone |
| Verifying.AppendCommitted | cmd/kt-worker/verify.go:142-147 | the unchanged elements followed by the committed inserted ones |
| Verifying.AcceptedProofIsAppendOnly | internal/akdtree/verify.go:337-394 | acceptance against the roots of two trees of whole leaves means every old leaf is kept with its value and each other new leaf lies under an inserted label, or the hash collides |
| Completeness.ChainKeepsRoot | internal/akdtree/verify.go:40-47 | any number of collapses leave the root |
| Completeness.HonestProofIsAccepted | internal/akdtree/verify.go:337-394 | a proof made by collapsing subtrees of the old and the new tree is accepted for their roots |
| Varint.ReadFits | internal/akdtree/ranges.go:57-63 | a varint that is read fits 64 bits |
| Varint.OneHundredAndFifty | internal/pbwire/pbwire.go:173-204 | 150 is read from, and written as, 96 01 |
| Varint.ReadStable | internal/akdtree/ranges.go:57-63 | a varint that was complete, or overlong, reads the same when bytes are appended |
| Varint.AppendVarint | internal/pbwire/pbwire.go:193-205 | the loop appends the shortest varint |
| Varint.VarintRoundTrip | internal/pbwire/pbwire.go:193-205 | reading gives back every 64-bit value written, wherever it stands and whatever follows |
| Frames.FrameMoves | internal/akdtree/ranges.go:56-104 | a record's framing depends on its header bytes and on room for its body, nothing else |
| Frames.FrameStable | internal/akdtree/ranges.go:52-56 | a complete record is framed the same when more bytes arrive, and a malformed one stays malformed |
| Frames.PartialIsUnsettled | internal/akdtree/ranges.go:52-60 | a record is reported partial if and only if some bytes put after the data would have it framed otherwise |
| Frames.WalkIsScan | internal/akdtree/decode.go:71-111 | walk accepts data exactly when framing record by record consumes it, and hands on those records' bodies |
| Ranges.ScanLeading | internal/akdtree/ranges.go:160-180 | the loop returns the end of the leading run of the field, whether another field begins there, or the error |
| Ranges.LeadIsExact | internal/akdtree/ranges.go:143-180 | from the offset to the end returned stand whole length-delimited records of the field; the run is over if and only if a whole length-delimited record of another field comes next, an error if and only if what comes next is malformed or of another wire type; else it is partial or the data ends |
| Ranges.LeadResumes | internal/akdtree/ranges.go:149-154 | resuming at the returned end on a longer prefix equals scanning it from the start |
| Ranges.FollowingIsScanning | internal/akdtree/ranges.go:151-154 | following any growing stream read by read equals one scan of all of it |
| Ranges.FieldRanges | internal/akdtree/ranges.go:119-141 | errs exactly when the message is not framed; else ordered, disjoint, non-adjacent ranges covering exactly the field's records |
| Decoding.WalkAll | internal/akdtree/decode.go:71-111 | the re-slicing loop makes the calls of walk, in order |
| Decoding.CountFields | internal/akdtree/decode.go:29-41 | the first pass counts the fields 1 and 2 |
| Decoding.CountsAreExact | internal/akdtree/decode.go:43-58 | the second pass appends exactly as many elements as the first counted |
| Decoding.FillBoth | internal/akdtree/decode.go:43-58 | the exactly sized arrays are filled to the end with the decoded elements in order, or the decode fails |
| Decoding.DecodeProof | internal/akdtree/decode.go:27-60 | the two passes accept and return just what decoding each field in turn does |
| Decoding.DecodesExactly | internal/akdtree/decode.go:26-66 | a proof is accepted if and only if it is framed and every length-delimited field, of whatever number, is an element; the lists are fields 1 and 2 in order |
| Decoding.ElementExactly | internal/akdtree/decode.go:113-207 | a body decodes to an element if and only if it is framed, has a NodeLabel and a value, each NodeLabel framed, each label_val at most 32 bytes and each value 32, and the length at most 256; value and length are the last given, each byte of the path the last written |
| Decoding.ReadLabelLen | internal/akdtree/decode.go:167-207 | the loop returns the last varint field 2, cut to 32 bits, or the value before |
| Decoding.LabelLenAccepts | internal/akdtree/decode.go:147-156 | the third framing loop accepts exactly the messages walk accepts |
| RoundTrip.DecodeOfBoth | internal/akdtree/decode.go:27-60 | decoding a concatenation of accepted proofs is the concatenation of what they decode to |
| RoundTrip.ElementRoundTrip | internal/akdtree/synth_test.go:97-120 | an element encoded with its trailing zero label bytes stripped decodes to itself |
| RoundTrip.ProofRoundTrip | internal/akdtree/synth_test.go:86-95 | every pair of lists of elements decodes to exactly itself |
| Payload.LabelLoop | internal/akdtree/ranges.go:227-243 | the innermost loop counts and locates as the spans of the NodeLabel do |
| Payload.ElementLoop | internal/akdtree/ranges.go:213-250 | the middle loop likewise, over an element |
| Payload.PayloadOffset | internal/akdtree/ranges.go:199-253 | the whole loop likewise, over the fields |
| Payload.CountLocates | internal/akdtree/ranges.go:237-248 | the running totals number the payload bytes and find the n-th exactly when there is one |
| Payload.PositionsAscend | internal/akdtree/ranges.go:182-186 | payload offsets go up in the order counted |
| PayloadBytes.PayloadOffsetLocates | internal/akdtree/ranges.go:182-198 | on a framed proof the numbering is an ascending bijection onto the label and value bytes of the field |
| EncodedPayload.PayloadIsWhatWasEncoded | internal/akdtree/ranges.go:182-198 | on every encoded proof the count is that of its labels' and values' bytes, labels without trailing zeros, and the n-th byte found is the n-th of those in order |
| Canary.WalkSurvives | internal/akdtree/ranges.go:192-196 | changing a body byte leaves every record and every other body as it was |
| Canary.LabelLenSurvives | internal/akdtree/ranges.go:186-188 | such a change does not touch label_len |
| Canary.ElementSurvives | internal/akdtree/decode.go:113-165 | an element with a payload byte changed still decodes, in at most that byte different, in exactly it if label and value stand once |
| Canary.DecodedIsNested | internal/akdtree/decode.go:113-165 | what Decode accepts is framed at every level PayloadOffset enters |
| Canary.PayloadIsInert | internal/akdtree/ranges.go:192-196 | the altered proof frames alike and decodes to the same lists but for one byte of one element |
| Canary.CorruptedProofDecodes | internal/akdtree/ranges.go:182-198 | on any accepted proof the n-th payload byte is found exactly when it exists, and altering it does only that |
| Pbwire.StrictUvarint | internal/pbwire/pbwire.go:173-190 | the strict loop reads just the varints of at most ten bytes and 64 bits |
| Pbwire.Uvarint | internal/pbwire/pbwire.go:68-83 | the lenient loop returns the digits' sum with the tenth byte's upper bits shifted out |
| Pbwire.LooseIsStrict | internal/pbwire/pbwire.go:68-83 | the two agree on all the strict one accepts; the lenient one accepts besides exactly the ten-byte varints ending in a byte from 2 to 127 |
| PbFields.Fields | internal/pbwire/pbwire.go:124-169 | the strict loop returns the message's fields in order, or fails |
| PbFields.NextField | internal/pbwire/pbwire.go:127-167 | one turn of it |
| PbFields.FieldsIsScan | internal/pbwire/pbwire.go:114-123 | it accepts exactly the messages the proof framers accept whose field numbers are 1 to 2^29-1, with the same numbers and wire types |
| PbFields.AppendTag | internal/pbwire/pbwire.go:207-210 | appends the varint of the number moved up three bits, cut to 64, or-ed with the wire type |
| PbFields.TagHolds | internal/pbwire/pbwire.go:207-210 | a tag gives back number and wire type if and only if the wire type has three bits and the number at most sixty-one |
| PbFields.TagIsBeside | internal/pbwire/pbwire.go:207-210 | a tag of a three-bit wire type is the number's lowest sixty-one bits and the wire type, side by side |
| PbFields.FieldsInvertEncoding | internal/pbwire/pbwire.go:124-210 | every list of fields written tag by tag is read back |
| PbFields.FieldsAreValid | internal/pbwire/pbwire.go:124-169 | whatever is accepted is such a list |
| PbMessage.OverrunsExactly | internal/pbwire/pbwire.go:45-47 | the wrapping comparison stops exactly the lengths that do not fit |
| PbMessage.Parse | internal/pbwire/pbwire.go:23-66 | the loop groups the entries found until it stops |
| PbMessage.NextTurn | internal/pbwire/pbwire.go:27-63 | one turn of it |
| PbMessage.TurnIsFrame | internal/pbwire/pbwire.go:27-63 | a turn keeps each whole record, of whatever number: its body, its number in eight bytes, or nothing if of fixed length; where there is none it stops, unless a varint is one only the lenient reader takes |
| PbMessage.ParseGroupsFields | internal/pbwire/pbwire.go:108-119 | whenever Fields accepts, Parse groups the same varint and bytes values in the same order |
| PbMessage.Uint64Reads | internal/pbwire/pbwire.go:85-104 | the number sent, if the first field of that number is a varint; what is read otherwise |
| PbMessage.TruncationIsPrefix | internal/pbwire/pbwire.go:114-119 | a message cut short parses, field by field, to a prefix of what it said |
| Cursors.FirstUnverified | internal/store/store.go:1109-1128 | the lowest unverified epoch of the range |
| Cursors.TurnTakes | cmd/kt-witness/workgen.go:326-359 | a turn of backward takes epochs off the front of the descent and no others |
| Cursors.TurnOffersWindow | cmd/kt-witness/workgen.go:326-359 | a turn offers the lowest unverified epochs of the stride below the sweep, from the place it had got to, up to the budget; it stays after the last of them only with the budget spent, else goes down by the stride having offered them all |
| Cursors.DescentIsByWindows | cmd/kt-witness/workgen.go:309-320 | a descent offers exactly the unverified epochs below the sweep, by windows of stride epochs downward, upward in each |
| Cursors.NeverReturns | cmd/kt-witness/workgen.go:326-335 | with nothing unverified below the forward cursor and the budget not filled, no number of turns ends the call |
| Cursors.ReturnsExactly | cmd/kt-witness/workgen.go:321-361 | backward returns if and only if the rest of the descent fills the budget, or something below the forward cursor is unverified, or there is nothing below it |
| Cursors.FailingReturnsExactly | cmd/kt-witness/workgen.go:326-359 | while the store fails every query backward returns if and only if there is no history below the forward cursor |
| Cursors.TurnMisses | cmd/kt-witness/workgen.go:343-359 | a turn leaves an unverified epoch behind unoffered if and only if a query fails with budget left and such an epoch still to come, and only in the window it was at; the next descent has it ahead again |
| Cursors.ForwardPasses | cmd/kt-witness/workgen.go:288-306 | the cursor never falls, and passes an epoch neither verified nor offered exactly when the store fails early |
| Cursors.ForwardFills | cmd/kt-witness/workgen.go:288-306 | with a working store a pass offers the lowest unverified epochs from the cursor to the tip, up to the budget, and leaves the cursor after the last, or at the tip if budget was left |
| Cursors.ForwardCovers | cmd/kt-witness/workgen.go:288-306 | over any run of calls every epoch passed was verified or offered when passed |
| Cursors.DescentOffersAll | cmd/kt-witness/workgen.go:309-320 | over any calls, with anything verified between them, an epoch ahead that stays unverified is offered before its descent ends |
| Cursors.DescentIsBounded | cmd/kt-witness/workgen.go:309-320 | while verified epochs stay so, an epoch ahead that stays unverified is offered by the time the calls have offered as many epochs as the descent had left to offer, which is no more than the history below the cursor |
| Cursors.Cursors.Init | cmd/kt-witness/workgen.go:271-286 | cursors are seeded once, from recorded progress above the floor, else from the floor and the forward cursor |
| Cursors.Cursors.Forward | cmd/kt-witness/workgen.go:288-306 | the first unverified epochs from the cursor, and where it is left, also when a query fails |
| Cursors.Cursors.Window | cmd/kt-witness/workgen.go:343-350 | the inner loop takes the window's first unverified epochs up to the budget, or up to a failing query |
| Cursors.Cursors.Descend | cmd/kt-witness/workgen.go:336-358 | one window: taken, then left or finished, also when a query fails |
| Cursors.Cursors.Turn | cmd/kt-witness/workgen.go:326-359 | one turn, wrap and failing query included |
| Cursors.Cursors.Backward | cmd/kt-witness/workgen.go:321-361 | terminates; what is offered followed by what is left is what was left followed by whole descents; the budget is filled when there is history to sweep |
| CacheNames.KeySplits | internal/audit/prefetch.go:154-178 | a proof's file name splits back into its origin and epoch, for configured origins only |
| CacheNames.KeysDiffer | internal/audit/prefetch.go:154-159 | different proofs have different names if one is of a configured origin |
| CacheNames.AliasSplits | internal/audit/prefetch.go:161-178 | a name that is not canonical and splits all the same |
| CacheNames.DigitsAreDecimal | internal/audit/prefetch.go:154-178 | the digits of a name are decimal, and may have a plus before them when read |
| Prefetch.AdoptTotals | internal/audit/prefetch.go:122-136 | after adoption the byte count is the sum of the cached sizes and of those of files displaced by a later one of their name |
| Prefetch.AdoptIsExact | internal/audit/prefetch.go:122-136 | so it is exact if and only if every file that another of its name follows is empty |
| Prefetch.AdoptAgreesExactly | internal/audit/prefetch.go:122-136 | after adoption ready agrees with cached if and only if every name that splits has its canonical form there too |
| Prefetch.AdmitsExactly | internal/audit/prefetch.go:300-306 | a fetch goes on if and only if its proof is neither held nor in flight and the bytes held are below the limit set, or ten gigabytes; only being in flight changes |
| Prefetch.StoreDelivers | internal/audit/prefetch.go:380-385 | the proof is held with its size, its epoch ready, its size counted, and nothing else changes |
| Prefetch.ReleaseForgets | internal/audit/prefetch.go:267-286 | a held proof is no longer held, ready or counted; one not held changes nothing |
| Prefetch.ClearForgets | internal/audit/prefetch.go:324-328 | the proof is no longer in flight, and nothing else changes |
| Prefetch.StoreKeeps | internal/audit/prefetch.go:380-385 | storing a download keeps the count exact and ready in agreement |
| Prefetch.ReleaseKeeps | internal/audit/prefetch.go:267-286 | so does releasing a proof |
| Prefetch.PruneKeeps | internal/audit/prefetch.go:414-476 | so does pruning, which drops oldest first, no more than it must, until within the cap or nothing is left to drop |
| Prefetch.PruneFits | internal/audit/prefetch.go:414-476 | given every proof held, pruning leaves at most the limit set, or ten gigabytes |
| Prefetch.UnconfiguredStaysReady | internal/audit/prefetch.go:434-470 | what pruning drops for an origin not configured stays ready |
| Prefetch.Prefetcher.constructor | internal/audit/prefetch.go:101-138 | the loop over files adopts them all |
| Prefetch.Prefetcher.FetchEnter | internal/audit/prefetch.go:293-306 | admitted exactly when not held, not in flight and below the cap; then in flight |
| Prefetch.Prefetcher.FetchStore | internal/audit/prefetch.go:380-385 | held, ready and counted |
| Prefetch.Prefetcher.FetchLeave | internal/audit/prefetch.go:324-328 | no longer in flight |
| Prefetch.Prefetcher.ReleaseProof | internal/audit/prefetch.go:267-286 | if held: not held, not ready, not counted |
| Prefetch.Prefetcher.PruneProofs | internal/audit/prefetch.go:419-476 | the loop over the entries, oldest first |
| Prefetch.Prefetcher.Ready | internal/audit/prefetch.go:203-232 | the lowest maximal run of at most n ready epochs from a point on, or none; all of it held when ready agrees |
| Prefetch.Prefetcher.Path | internal/audit/prefetch.go:247-260 | a path exactly when held |
| PrefetchRuns.StepKeeps | internal/audit/prefetch.go:293-392 | every lock section, by any goroutine, keeps the invariant |
| PrefetchRuns.StepBounded | internal/audit/prefetch.go:300-306 | and the bound on bytes |
| PrefetchRuns.FetchDelivers | internal/audit/prefetch.go:293-392 | an admitted fetch with a slot free can run to its end, and then the proof is held, ready and counted and nothing is in flight that was not |
| PrefetchRuns.FailureLeavesNothing | internal/audit/prefetch.go:318-360 | one whose download fails leaves everything as it was |
| PrefetchRuns.CacheIsSafe | internal/audit/prefetch.go:77-88 | in every interleaving: bytes is the sum of cached sizes, ready agrees with cached, no proof is fetched twice at once, slots are respected, and bytes stays under the limit set, ten gigabytes if none is, plus the downloads landed at most |
| Auditing.RoundIsCurrent | internal/audit/beacon.go:46-68 | the round asked for is the last emitted at or before the decision, every three seconds from 1692803367; the first before that |
| Auditing.Auditor.Run | internal/audit/auditor.go:90-258 | a run, cut short at any store call, as a function of what it met |
| Auditing.Auditor.RunFrom | internal/audit/auditor.go:122-257 | its loop |
| Auditing.Auditor.AuditEpoch | internal/audit/auditor.go:123-255 | the loop's body |
| Auditing.Auditor.DecideEpoch | internal/audit/auditor.go:123-173 | the decision and its time, kept if already recorded with a round |
| Auditing.Auditor.DeclineEpoch | internal/audit/auditor.go:175-185 | an epoch not selected is recorded all the same |
| Auditing.Auditor.CheckEpoch | internal/audit/auditor.go:187-255 | a selected epoch: recorded, then a fork, another try, or progress |
| Auditing.Auditor.MarkUnavailable | internal/audit/auditor.go:277-309 | progress only at the fifth attempt, recorded as unavailable |
| Auditing.TurnIsLocal | internal/audit/auditor.go:123-255 | one epoch's turn changes that record only, and moves progress only to it and only with it settled |
| Auditing.TurnRecords | internal/audit/auditor.go:123-309 | what a turn records when no store call fails, field by field, and whether progress moves, a fork is recorded and the loop goes on |
| Auditing.VerdictStays | internal/audit/auditor.go:207-240 | a verdict that is not a pass stays on record as it came when the store fails after it; when the store fails before, nothing changes |
| Auditing.TurnDates | internal/audit/auditor.go:137-171 | a record a turn changes carries the selection, the time kept from before or now, and the round the beacon gives for that time |
| Auditing.TurnVerifiesExactly | internal/audit/auditor.go:195-215 | a record says verified after a turn if and only if the turn recorded it with the epoch selected, resolved and passed, or did not record it and it said so before |
| Auditing.TurnAdvancesExactly | internal/audit/auditor.go:175-309 | progress moves if and only if the epoch is declined, passes, or could not be checked a fifth time, and the store takes all that; the record then says which, an epoch given up being sampled, not verified, unavailable and tried at least five times |
| Auditing.VerifiedWerePassed | internal/audit/auditor.go:195-215 | over any runs, an epoch comes to be recorded as verified only in a run that selected and resolved it and whose verifier passed its proof |
| Auditing.RunStaysWithin | internal/audit/auditor.go:107-122 | a run touches no record, and moves progress to no epoch, but after progress or from the tip, and no further than the tip or the number allowed a run; and nothing at all when the log is accused already, has no size, or the store cannot say |
| Auditing.RunAuditsAll | internal/audit/auditor.go:107-257 | with nothing failing and every selected epoch passing it records all of those, each verified if and only if selected, and leaves progress at the last |
| Auditing.RunCovers | internal/audit/auditor.go:107-122 | one run keeps progress rising, gains only settled epochs, and leaves all records at or below it |
| Auditing.ProgressIsSafe | internal/audit/auditor.go:90-309 | over any runs progress never falls, and every epoch from the tip at which the first run to record progress met the log, up to progress, is declined, verified, or unavailable after at least five attempts |
| Auditing.StartFollowsTip | internal/audit/auditor.go:107-115 | without progress a run touches no epoch below the tip |
| Auditing.TipOutrunsAuditor | internal/audit/auditor.go:107-115 | a failing run: new auditor, erring verifier, a log one epoch longer each time; no number of runs records progress or a fork |
| Auditing.GettingOnIsForced | internal/audit/auditor.go:107-122 | from any state, new or not, with a working store and beacon: progress or a fork is bound to come, whatever the verifier says, if and only if for some epoch the runs that consider it first bring its attempts to five |
| Auditing.FiveTriesSettle | internal/audit/auditor.go:260-304 | the sufficient half: five tries at one epoch record progress or a fork |
| Auditing.RoundChanges | internal/audit/auditor.go:137-151 | a turn changes a recorded round if and only if it gets to a decision, the store call that records it does not fail, and the beacon answers with another number than the recorded round |
| Auditing.RoundIsReplaced | internal/audit/auditor.go:137-171 | an instance: round 7 on record, 9 answered, 9 recorded |
| Auditing.RoundsArePinned | internal/audit/auditor.go:129-151 | with a beacon that answers what it is asked no run changes a recorded round other than 0, or its time |
| Auditing.TurnForks | internal/audit/auditor.go:213-237 | a turn records a fork exactly when a selected epoch resolves, fails for "verify", and the store takes it; progress stays |
| Auditing.RunForks | internal/audit/auditor.go:90-97 | forks come only of that failure, and after one no run changes anything |
| Auditing.FiveRunsSettle | internal/audit/auditor.go:260-304 | with progress recorded, progress or a fork is bound to come, whatever the verifier says, if and only if at least one run meets the log past progress and those that do bring the next epoch to five attempts |
| Accusation.VerifyCached | internal/audit/goverify.go:105-175 | decoding and verifying in place give the verdict as a function of what was fetched |
| Accusation.PassesExactly | internal/audit/goverify.go:140-174 | a proof passes if and only if its bytes decode, both published roots parse, and its elements rebuild both |
| Accusation.OtherwiseExactly | internal/audit/goverify.go:105-174 | no verdict, "fetch" and "decode" each if and only if the stated part is missing: the verifier, the bytes or a root, the decoding or the trees; and no other outcome but "verify" |
| Accusation.HonestBytesPass | internal/audit/goverify.go:105-175 | the encoding of a proof made by collapsing the two trees passes for their roots |
| Accusation.JudgeRefutes | internal/audit/goverify.go:140-174 | "verify" exactly when the decoded proof rebuilds roots other than the two published |
| Accusation.AccusationsAreRefutations | internal/audit/auditor.go:217-232 | over any runs, a fork on record was recorded by a run, and of an epoch, whose proof as that run fetched it decodes and rebuilds other roots than those published |
| Accusation.VerifiedProofsRebuild | internal/audit/auditor.go:195-215 | over any runs, an epoch comes to be recorded as verified only in a run whose proof of it, as fetched then, decoded and rebuilt both published roots |
| Accusation.PassedIsAppendOnly | internal/audit/goverify.go:105-175 | from fetched bytes: a passed proof between two published trees is append-only, or the hash collides |
| LinkCap.Limited | internal/netmeter/limit.go:89-96 | the burst is the larger of 64 KiB and a fiftieth of a second |
| LinkCap.Bucket.constructor | internal/netmeter/limit.go:93-98 | the bucket begins full |
| LinkCap.Bucket.Take | internal/netmeter/limit.go:120-136 | the balance is refilled up to the burst and charged, and the sleep is exactly the deficit |
| LinkCap.CompletionIsExact | internal/netmeter/limit.go:105-136 | a caller is let go after exactly the time the bytes the bucket does not hold take at the rate, so at once if and only if it holds them |
| LinkCap.IdleReaderIsNotHeld | internal/netmeter/limit.go:89-96 | at an idle bucket a chunk of 32 KB goes at once, whatever the limit |
| LinkCap.CompletionsAscend | internal/netmeter/limit.go:111-115 | callers are let go in the order of their calls |
| LinkCap.BytesAreCapped | internal/netmeter/limit.go:109-136 | between any two releases the bytes charged are at most the rate's for that time and what the first left, so at most one burst more |
| LinkCap.BacklogRunsAtRate | internal/netmeter/limit.go:111-115 | while callers queue, bytes go at exactly the rate |
| PushLimit.Limiter.Allow | internal/push/ratelimit.go:39-66 | the answer and the bucket left, other origins' buckets untouched |
| PushLimit.BalanceIsBounded | internal/push/ratelimit.go:53-64 | one call keeps the balance between nothing and the burst in force |
| PushLimit.RunIsBounded | internal/push/ratelimit.go:39-66 | over any run of calls, of any origins and with allowances that change, every balance stays between nothing and the burst of the allowance in force |
| PushLimit.OriginsAreIndependent | internal/push/ratelimit.go:18-27 | an origin's bucket is what its own calls alone make it |
| PushLimit.BudgetHolds | internal/push/ratelimit.go:39-66 | calls within any window are allowed at most min(qpd, 10) and what the window brings, even of a clock that goes back |
| PushLimit.BurstIsAllowed | internal/push/ratelimit.go:8-15 | an origin that is new, or idle for a day, is allowed exactly min(qpd, 10) calls at one moment |
| PushLimit.SpacedCallsAreAllowed | internal/push/ratelimit.go:39-66 | calls spread evenly over the day are all allowed |
| PushLimit.UnlimitedIsAllowed | internal/push/ratelimit.go:39-42 | without an allowance every call is allowed, and no bucket is touched |
| PushLimit.WaitIsExact | internal/push/ratelimit.go:60-63 | coming back after the advertised wait is allowed, a second or more before it is refused |
| PushLimit.PromiseKeptExactly | internal/push/ratelimit.go:53-63 | whatever the clock, a refused caller is allowed after the advertised wait if and only if the clock stood no further behind the bucket's time than the rounding up to whole seconds makes good |
| PushLimit.OutOfOrderBreaksPromise | internal/push/push.go:212 | two requests that read the clock before the lock and take it in the other order: the earlier is refused, and refused again after the wait it was told |

## Left out

- Verifying.Sort: sorts by insertion where the library sorts by pattern-defeating quicksort; only that the result is sorted and a permutation is used, and the root is proved not to depend on more.
- Verifying.WorkerVerify: begins with the decoded arrays; fetching, the `largest` compare-and-swap and `hexOf` are not modelled.
- Frames.FrameMoves: `nextRecord` returns its record here where the source writes it through a pointer, and error texts are not modelled.
- Decoding.WalkAll: the callback of `walk` is the list of its calls; `Decode` runs it after the framing pass has accepted, as the source's first pass does.
- Accusation.VerifyCached: `ParseDigest` is an optional digest, and the semaphore, timeout and fetch are one outcome.
- Pbwire.StrictUvarint: the bits or-ed into the accumulator lie above those in it, so or is written as plus, here and in `Uvarint`.
- Cursors.Cursors.Backward: the loop over turns is proved for a store that does not fail; the turns themselves, and the loop when every query fails, are not so limited. Epoch arithmetic does not overflow and history begins at 0 or above.
- Cursors.FirstUnverified: the store's scan is taken as what its comment says; the database walk is not modelled.
- Prefetch.Prefetcher.Ready: epochs are not negative; the source uses -1 for "none yet".
- Prefetch.Prefetcher.PruneProofs: the order by modification time, and which files could be read, are its argument.
- PrefetchRuns.CacheIsSafe: begins from files of one directory, no two of a name; the number of downloads in flight and their sizes are bounded by assumption, as the generator's room and the logs bound them; free-space checks, renames and removals on disk are outcomes.
- Auditing.Auditor.Run: rates, strategies, signatures, durations and retry times are not in the record; selection is an arbitrary boolean; no other writer changes the log's records between its reads, and the store does not trim them.
- LinkCap.Bucket.Take: real numbers for floating point and nanoseconds; a cancelled sleep keeps its charge, as in the source.
- PushLimit.Limiter.Allow: real numbers for floating point; `Retry-After` beyond the range of a duration is not modelled.
- Hash internals, signatures, HTTP, gRPC, the file system, the GPU path, flags and configuration.
- The store beyond the calls above, the witness protocol, the work queue, source adapters, signal audits, the server, exports and metrics.
- Corpus collection, log lists, the registry and the event ring, which would add only easy members; sampling rates, which are floating point.
