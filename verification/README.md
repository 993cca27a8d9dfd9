# A verified model of the BitVM header chain, big-integer scripts and windowed multiplication

The repository has three parts whose specification is short and whose implementation is not. The project models them and
proves that the implementation meets the specification.

**The header chain and its inclusion proofs** (`Mmr*`, `Merkle*`, `HeaderChain`, `Chain*`, `BackwardsEpoch`, `MedianTime`,
`CompactTarget`, `Transactions`, `Spv*`). A Merkle mountain range is kept in full on the native side and as peaks on the guest side; a "mid-state" Merkle tree
stands in for the standard one; `apply_blocks` runs the header rules. The specification is a list of leaves with its levels
and peaks (`MmrSpec`), a list of transaction hashes with its tree (`MerkleTree`), and a fold over the headers
(`HeaderChain.RunLoop`), which `ChainRules` in turn reads off the headers alone. The structs that the code updates in place are classes with the same fields, whose methods are proved
against these functions. The main results are completeness and soundness of `SPV::verify` over every accepted run.

**The big-integer scripts** (`ScriptMachine`, `Limbs`, `StackMoves`, `NumberMoves`, `Unsigned*`, `Signed*`, `BigMul`,
`Compare`, `BitConversion`, `DivideLimbs`, `TransformLimbs`, `NumberChecks`, `LimbIo`, `Field*`). Every Rust generator is a
function to a script, a sequence of instructions; `Exec` runs a script on a main stack and an alt stack and may fail, in
particular when an arithmetic operand has more than four bytes. The theorems are equations between final states: they hold for
every width and limb size, name the result as an integer, and say that the rest of both stacks is as before. Where the
original is meant to reject, the equation says exactly when it fails.

**Hinted multiplication and multi-scalar multiplication** (`Tmul*`, `FqStack`, `HintMoves`, `PointAddition`, `Msm*`). `Tmul`
is the algorithm over integers with the overflow guards; `TmulTables`, `TmulExtract`, `TmulRounds`, `TmulProgram` and
`TmulExact` show that the emitted script computes it. `PointAddition` runs the addition script with all its hints, `MsmChain`
the chain of additions of one scalar, and `MsmProgram` the whole script with its hints at the bottom of the stack.

Conventions. SHA-256 is a parameter `sha`, so every statement holds for every function from byte strings to digests. Binding
results end in "or exhibits a collision": a named function computes two different strings with the same digest from the data
at hand. A Rust panic is `None` or `false`. `On(w, v, r)` is the number v in the limbs of width w on top of the stack r;
`SignedOn` is the same in two's complement. Blocks of limbs above and between the operands (`top`, `mid`) are arbitrary.

## Model

| member | source | states |
|---|---|---|
| Mmr.MMRNative.Append | header-chain/src/mmr_native.rs:21-44 | The stored levels, updated in place along one spine, are again exactly all levels of the leaf list with the new leaf at its end. |
| Mmr.MMRNative.GetSubroots | header-chain/src/mmr_native.rs:47-56 | The last nodes of the levels of odd size, read from the top, are the peaks of the leaf list. |
| MmrPeaks.PeaksAreSubtreeRoots | header-chain/src/mmr_native.rs:27-56 | Peak k is the root of a perfect binary tree over one run of 2^h leaves: from the top down, the SHA-256 of the left root followed by the right root. |
| MmrPeaks.RunsTile | header-chain/src/mmr_native.rs:47-56 | The runs of the peaks follow one another from the first leaf to the last, and each is shorter than the one before. |
| MmrPeaks.TwoLeaves | header-chain/src/mmr_native.rs:21-44 | After two appends the only peak is the hash of the first leaf followed by the second. |
| Mmr.MMRNative.GenerateProof | header-chain/src/mmr_native.rs:59-86 | Panics exactly on an index that was not appended; otherwise returns the appended leaf with its path, the number of its peak and its place under that peak. The loop ends and never reads past a level. |
| Mmr.MMRNative.GetHelpersFromIndex | header-chain/src/mmr_native.rs:88-101 | The loop over subtree sizes finds how many taller peaks lie to the left of the leaf, and the leaf's offset in its own subtree. |
| Mmr.MMRNative.VerifyProof | header-chain/src/mmr_native.rs:103-111 | Panics exactly on a peak number that does not exist, and otherwise accepts exactly the proofs that fold to that peak. |
| Mmr.MMRGuest.Append | header-chain/src/mmr_guest.rs:23-33 | Panics exactly when the size has more trailing ones than there are peaks; otherwise the peaks are merged once per trailing one, and the size wraps at 2^32. |
| MmrPeaks.MergeWritten | header-chain/src/mmr_guest.rs:23-33 | On any list of peaks: each low one of the size hashes the last peak followed by the running hash. |
| MmrPeaks.TrailingOnesWritten | header-chain/src/mmr_guest.rs:23-33 | The number of pops is the exponent of the largest power of two that divides the new size. |
| Mmr.MMRGuest.VerifyProof | header-chain/src/mmr_guest.rs:36-51 | Accepts exactly when the peak exists and the fold of the leaf along the path is that peak. |
| MmrPeaks.FoldWritten | header-chain/src/mmr_native.rs:130-141 | Step i of the fold hashes the running hash followed by the sibling if bit i modulo 32 of the index is zero, and the other way round if it is one. |
| Mmr.AppendBoth | header-chain/src/mmr_guest.rs:23-33 | One append on each side keeps native levels and guest peaks describing the same leaves; the guest never pops an empty list. |
| Mmr.FeedBoth | header-chain/src/mmr_native.rs:21-56 | After any sequence of up to 2^32 - 1 appends, native subroots and guest peaks are both the peaks of that sequence. |
| Mmr.NativeProofVerifiesOnGuest | header-chain/src/mmr_guest.rs:36-51 | Every proof generated natively for any appended index is accepted by a guest fed the same leaves. |
| MmrSpec.MergeIsAppend | header-chain/src/mmr_guest.rs:23-33 | Merging a leaf into the peaks of a list gives the peaks of the longer list, and there are enough peaks to pop. |
| MmrSpec.ProofComplete | header-chain/src/mmr_guest.rs:36-51 | The generated proof of every leaf of every list is accepted against the peaks of that list. |
| MmrSpec.HeightIsTopDifferingBit | header-chain/src/mmr_native.rs:59-86 | The level at which proof generation stops is the position of the highest bit in which size and index differ. |
| MmrSpec.ProofBinds | header-chain/src/mmr_guest.rs:36-51 | An accepted proof whose path is as long as its subtree is high names the leaf that was appended at that subtree's offset plus the index modulo its size, or exhibits a collision of two 64-byte strings. |
| MmrBinding.AnyLengthBinds | header-chain/src/mmr_guest.rs:36-51 | Nothing is assumed of the path: if leaves and claimed leaf are hashes of 32-byte strings, as block hashes are, then an accepted path of any length has the right length and names the appended leaf, or exhibits a collision. |
| MmrBinding.ShorterPathProvesInnerNode | header-chain/src/mmr_native.rs:130-141 | For leaves of any other origin this fails: for every d up to the height, the ancestor d levels above a leaf is accepted as a leaf by the path without its first d steps. |
| MmrBinding.LongerPathProvesHalf | header-chain/src/mmr_native.rs:130-141 | It also fails upwards: if a leaf is the hash of a pair, a member of the pair is accepted as a leaf by a path that is one step longer. |
| MerkleTree.New | final-spv/src/merkle_tree.rs:21-79 | Both constructors panic exactly when some level, any number of steps above the leaves, holds two equal nodes at places i and i + 1 with i even; otherwise they return every level up to a single node. |
| MerkleTree.AboveWritten | final-spv/src/merkle_tree.rs:51-72 | Every node of the next level is the double SHA-256 of its left child followed by its right child, in the mid-state tree the single one of their hashes; an unpaired last child is its own right neighbour. |
| MerkleTree.TwoLeaves | final-spv/src/merkle_tree.rs:105-162 | Both trees over two leaves, written out. |
| MerkleTree.GenerateProof | final-spv/src/merkle_tree.rs:164-189 | Panics exactly on an index out of range; otherwise the siblings of the leaf's ancestors, or the last node itself on odd levels. |
| MerkleTree.IdxPathWritten | final-spv/src/merkle_tree.rs:164-184 | Entry d of the path is the neighbour, on level d, of the node above the leaf that shares its parent, or the node itself where there is none. |
| MerkleTree.IdxPathEnds | final-spv/src/merkle_tree.rs:164-184 | The path ends at the level that has a single node. |
| MerkleTree.GetRoot | final-spv/src/merkle_tree.rs:239-267 | The loop over index bits folds the txid with the path, each mid-state sibling hashed once more. |
| MerkleTree.FoldWritten | final-spv/src/merkle_tree.rs:239-267 | One step, for an even index: the double SHA-256 of the running hash followed by the hash of the sibling; for an odd one in the other order. |
| MerkleTree.TreesCommute | final-spv/src/merkle_tree.rs:105-162 | Whatever the standard constructor accepts, the mid-state constructor accepts, and every standard node is the hash of the mid-state node at the same place. |
| MerkleTree.RejectedOnlyByCollision | final-spv/src/merkle_tree.rs:105-162 | Conversely the mid-state constructor alone accepts a list only when two different digests hash alike. |
| MerkleTree.MidStateProofGivesStandardRoot | final-spv/src/merkle_tree.rs:239-267 | For every index, odd levels included, folding the txid along its mid-state path gives the root of the standard tree. |
| MerkleTree.RootBinds | final-spv/src/merkle_tree.rs:239-267 | A txid that folds to the standard root along a path as long as the tree is high is the txid at the place the index names, or exhibits a collision. |
| MerkleBinding.AnyLengthBinds | final-spv/src/merkle_tree.rs:239-267 | The same for a path of any length, when no transaction involved is encoded in exactly 64 bytes. |
| MerkleBinding.JoinedLeavesFoldToRoot | final-spv/src/merkle_tree.rs:239-267 | That condition on the claimed transaction is needed: two neighbouring txids, joined to a 64-byte string, fold to the root by the path without its first step. |
| MerkleBinding.SplitLeafFoldsToRoot | final-spv/src/merkle_tree.rs:239-267 | That condition on the block's transactions is needed: a 64-byte one, read as an inner node, lets a foreign txid fold to the root. |
| Spv.SpvComplete | final-spv/src/spv.rs:30-38 | For every accepted run from the initial chain state, every block of it and every transaction the block commits to, `verify` returns true on the natively generated proofs. |
| Spv.VerifyWritten | final-spv/src/spv.rs:30-38 | `verify` panics exactly when the double hash of the transaction's bytes does not fold to the header's root, and otherwise returns exactly whether the peak exists and the double hash of the header's bytes folds to it. |
| Spv.ProveAndVerify | final-spv/src/spv.rs:30-38 | The same, run on the objects: native range, chain state with its guest range, mid-state tree, and the two generated proofs. |
| Spv.HeaderBound | final-spv/src/spv.rs:30-38 | An accepted range proof, with a path of any length, makes the claimed header the header of the block it names, or exhibits a collision. |
| Spv.SpvSound | final-spv/src/spv.rs:30-38 | If `verify` returns true against an accepted run, the claimed header is that of the named block, and if this block commits to a list of transactions, the transaction is the one at the named place of it; or a collision is exhibited. Nothing is asked of either path or of any other block; only that neither the transaction nor one of that block is encoded in 64 bytes. |
| Transactions.DecodeEncoding | final-spv/src/transaction.rs:33-53 | A decoder that reads version, inputs, outputs and lock time in this order, numbers as little-endian, gives back the transaction from the bytes that are hashed. |
| Transactions.EncodingInjective | final-spv/src/transaction.rs:33-53 | So these bytes determine the transaction. |
| Spv.PairPassesAsTransaction | final-spv/src/spv.rs:30-38 | The condition on the transaction: one whose encoding joins two neighbouring txids of a block passes `verify` for that block. |
| SpvExamples.PairCanPass | final-spv/src/spv.rs:30-38 | It is needed: for every transaction of 64 bytes with different halves, on every network, there are a hash function, an accepted header and a block without that transaction such that it passes. |
| Spv.ForeignTransactionPasses | final-spv/src/spv.rs:30-38 | The condition on the block: one of its transactions whose encoding joins a foreign txid and a digest lets the foreign transaction pass. |
| SpvExamples.ForeignCanPass | final-spv/src/spv.rs:30-38 | It is needed: for every transaction of 64 bytes there are a hash function and an accepted header that commits to it alone such that another transaction passes. |
| Transactions.ShortLength | final-spv/src/transaction.rs:33-53 | There are such transactions: all with one input, one output and four script bytes. |
| SpvExamples.SomePair | final-spv/src/transaction.rs:33-53 | One of them has different halves. |
| ChainStateClass.ChainState.ApplyBlocks | header-chain/src/header_chain.rs:190-283 | The loop over the headers, with its byte-string targets and the guest range inside, panics exactly when the specified fold rejects, and otherwise leaves exactly its state in every field. |
| ChainStateClass.ChainState.ApplyBlock | header-chain/src/header_chain.rs:208-279 | One turn of that loop: the checks, the bookkeeping and the retarget at the end of an epoch. |
| ChainRules.AcceptanceExact | header-chain/src/header_chain.rs:190-283 | Without any state, from the headers alone: a list is accepted from the initial state if and only if each header names the hash of the one before, carries the compact target due, has a hash at most the target due and a time above the median of the last eleven, and the target after each epoch is one the encoder takes. What is due follows from the first and last times of the epochs; a testnet4 block more than 20 minutes late that opens no epoch is due the network's cap. |
| ChainRules.FieldsExact | header-chain/src/header_chain.rs:190-283 | After any accepted list every field is what the headers say: height, hash of the last, compact target due next, sum of the works due modulo 2^256, time of the first block of the epoch, the last eleven times, and the peaks over all block hashes. |
| ChainRules.ResumedFrom | header-chain/src/header_chain.rs:190-206 | A later call starts from these fields, from the target that the compact form decodes to (on regtest the cap), and on testnet4 from the last timestamp. |
| ChainRuns.AcceptedRun | header-chain/src/header_chain.rs:190-283 | After any accepted run from the initial state: each header links to the one before and carries the compact target its block was due, each hash is at most the target due, each timestamp is above the median before it, height counts blocks, work is the sum modulo 2^256, and the range holds the block hashes in order. |
| HeaderChain.HeaderWritten | header-chain/src/header_chain.rs:119-134 | Where each field stands in the 80 bytes of a header, numbers as little-endian words. |
| HeaderChain.BlockHashWritten | header-chain/src/header_chain.rs:119-134 | The block hash is the double SHA-256 of these bytes. |
| HeaderChain.WorkWritten | header-chain/src/header_chain.rs:355-360 | Work times the target plus one is at most 2^256 - 1, and no greater work is; the greatest target has work one. |
| HeaderChain.MinimumWork | header-chain/src/header_chain.rs:40-41 | The constant for late testnet4 blocks is the work of that network's cap. |
| ChainRuns.EveryBlockOk | header-chain/src/header_chain.rs:247-256 | The conditions of one block of an accepted run, stated against the state that its prefix leaves. |
| ChainRuns.RingHoldsLatest | header-chain/src/header_chain.rs:266 | Slot k mod 11 of the array is the timestamp of block k, for each of the last eleven blocks of any accepted run. |
| ChainRuns.MedianMonotone | header-chain/src/header_chain.rs:254-266 | The median never decreases over an accepted run from any state. |
| ChainRuns.MedianRisesExactly | header-chain/src/header_chain.rs:254-266 | For every state and every accepted list of any length, across any wrap of the height: the median rises if and only if six entries of the array exceed it once the slots of these blocks are filled. That depends on the stored times, the height and the number of blocks alone. |
| ChainRuns.MedianProgress | header-chain/src/header_chain.rs:254-266 | So it rises over six or more accepted blocks, if the height does not wrap within the first six. |
| ChainRuns.TenBlocksRaiseMedian | header-chain/src/header_chain.rs:254-266 | And over ten or more in any case. |
| ChainExamples.NineAcrossWrapMayNotRaiseMedian | header-chain/src/header_chain.rs:209-266 | Nine are not enough: a regtest run from the initial state whose median nine blocks across the wrap leave as it is. |
| MedianTime.SixRaiseMedian | header-chain/src/header_chain.rs:286-295 | Writing six valid timestamps into consecutive slots of any array of eleven raises the median. |
| MedianTime.MedianAbove | header-chain/src/header_chain.rs:286-290 | The median exceeds a bound exactly when at least six of the eleven entries do. |
| MedianTime.FiveMayNotRaiseMedian | header-chain/src/header_chain.rs:286-295 | Five are not enough. |
| CompactTarget.CheckHashValid | header-chain/src/header_chain.rs:345-353 | The bytewise loop decides whether the hash, read little-endian, is at most the target, read big-endian. |
| CompactTarget.BytesWritten | header-chain/src/header_chain.rs:345-353 | In these readings the first byte has the weight one, and the highest weight, respectively. |
| CompactTarget.EncodeTarget | header-chain/src/header_chain.rs:310-320 | The bytewise encoder agrees with the arithmetic one on all 32-byte targets, panics included. |
| CompactTarget.EncoderDomain | header-chain/src/header_chain.rs:310-320 | The encoder panics exactly on targets of fewer than 16 or of 256 bits. |
| CompactTarget.DecodeWritten | header-chain/src/header_chain.rs:297-308 | For all 32-bit values: the mantissa times 256 to the exponent, over 2^24, rounded down, modulo 2^256. |
| CompactTarget.EncodeThenDecode | header-chain/src/header_chain.rs:297-320 | For targets of 16 to 255 bits the mantissa is in 0x8000 to 0x7FFFFF, the exponent in 3 to 32, and decoding gives a target that is not larger, by less than one part in 2^15 and by less than the weight of the mantissa's last bit. |
| CompactTarget.DecodeThenEncode | header-chain/src/header_chain.rs:297-320 | Encoding undoes decoding on all compact values with such a mantissa and exponent. |
| ChainRuns.ReachableTargetsCapped | header-chain/src/header_chain.rs:272-279 | The compact target of every reachable state, on every network, decodes to at most the network's cap. |
| ChainRuns.CapsWritten | header-chain/src/header_chain.rs:43-102 | The caps of the four networks as a mantissa times a power of two. |
| ChainRuns.ProductFits | header-chain/src/header_chain.rs:336-342 | Up to the cap and the longest timespan the 256-bit product of target and timespan does not wrap, on every network that retargets. |
| ChainRuns.RetargetScales | header-chain/src/header_chain.rs:322-343 | On every reachable state the new target is the old one times the timespan, clamped to a quarter and four times the expected one, over the expected one, rounded down and capped, and lies between a quarter and four times the old one; for ordered timestamps, and for those so far in the wrong order that the 32-bit difference is short. |
| ChainRuns.TimespanExact | header-chain/src/header_chain.rs:327-332 | The timespan is the clamped difference if and only if the timestamps are such; in the wrong order it is always the clamp of a difference that is too large by 2^32. |
| BackwardsEpoch.BackwardsEpochRun | header-chain/src/header_chain.rs:272-279 | A whole mainnet epoch from the initial state whose first header is dated later than its last, by any number of seconds that fits: it is accepted, and its target becomes a quarter, as the clamped difference asks, if and only if that number is at least 2^32 - 302400; it stays at the cap if and only if it is at most 2^32 - 1209600. |
| ChainBatches.CompositionExact | header-chain/src/header_chain.rs:190-206 | For any state, any accepted xs and any ys: running xs and ys at once and running ys after xs give the same outcome if and only if the uncut run rejects ys, or every block that it checks against the target in force after xs also meets the compact form of that target, and these blocks weigh the same by either, modulo 2^256. |
| ChainBatches.NextBlockExact | header-chain/src/header_chain.rs:190-283 | The same for one block: it is rejected anyway, or does not use that target, or meets the compact form, whose work is the same. |
| ChainBatches.BatchComposition | header-chain/src/header_chain.rs:190-283 | So batches compose, whatever follows, when the target after xs is the one its compact form decodes to. |
| ChainBatches.NoRetargetComposes | header-chain/src/header_chain.rs:272-282 | In particular always on regtest, and on the other networks when xs closes no epoch. |
| ChainExamples.CutAtRetargetDiffers | header-chain/src/header_chain.rs:190-283 | They do not compose in general: cutting a mainnet run from the initial state after its first epoch makes the next block be rejected or, with a lower hash, be counted with a different total work. |
| UnsignedAdd.AddCorrect | bitvm/src/bigint/add.rs:37-65 | Consumes blocks a and b and leaves their sum modulo 2^n on top of everything that lay above, between and below them. |
| UnsignedAdd.DoubleCorrect | bitvm/src/bigint/add.rs:7-35 | Replaces block a by its double modulo 2^n, on top. |
| UnsignedSub.IncrementCorrect | bitvm/src/bigint/add.rs:67-92 | Adds one modulo 2^n, whatever the carries. |
| UnsignedSub.SubCorrect | bitvm/src/bigint/sub.rs:6-33 | Leaves the difference modulo 2^n. |
| UnsignedSub.NegCorrect | bitvm/src/bigint/sub.rs:35-63 | Leaves minus the number modulo 2^n. |
| BigMul.MulCorrect | bitvm/src/bigint/mul.rs:6-35 | Double-and-add over the bits on the alt stack leaves the product modulo 2^n. |
| Compare.LessThanCorrect | bitvm/src/bigint/cmp.rs:54-86 | Leaves whether block a is numerically smaller than block b. |
| Compare.DerivedComparisons | bitvm/src/bigint/cmp.rs:88-106 | The other three comparisons, each its own numeric relation. |
| Compare.EqualCorrect | bitvm/src/bigint/cmp.rs:14-28 | Leaves whether the two numbers are equal, so equal limbs mean equal integers. |
| Compare.EqualVerifyCorrect | bitvm/src/bigint/cmp.rs:5-12 | Fails exactly on different numbers. |
| SignedAdd.AddRefExact | bitvm/src/bigint/add.rs:261-299 | Adds a deeper block to the top one, in two's complement: succeeds exactly when the sum fits n bits, and then leaves it. |
| SignedAdd.AddRefStackExact | bitvm/src/bigint/add.rs:301-349 | The same with the number of the block taken from the stack. |
| SignedAdd.AddRefWithTopExact | bitvm/src/bigint/add.rs:221-259 | The same keeping both operands. |
| SignedDouble.DoubleExact | bitvm/src/bigint/add.rs:152-176 | Doubling succeeds exactly when the signed double fits, and then leaves it. |
| SignedDouble.DoubleKeepExact | bitvm/src/bigint/add.rs:178-198 | The same for any block, which stays where it is. |
| SignedShift.ShiftExact | bitvm/src/bigint/add.rs:200-219 | Shifting by any s succeeds exactly when the number times 2^s fits, and then leaves it. |
| SignedLimbs.NmulRun | bitvm/src/pseudo.rs:156-169 | The emitted doublings and additions multiply by n, as long as the product is a script number. |
| NumberMoves.NDupRun | bitvm/src/pseudo.rs:115-146 | The mix of double and triple duplications makes exactly n more copies, for every n. |
| NumberMoves.PushCopiesRun | bitvm/src/pseudo.rs:148-154 | Pushes exactly n copies of an element. |
| BitConversion.LimbToBeBitsRun | bitvm/src/bigint/bits.rs:179-193 | The bits of a limb of 1 to 31 bits, in one order. |
| BitConversion.LimbToLeBitsRun | bitvm/src/bigint/bits.rs:147-162 | And in the other. |
| BitConversion.BeBitsCorrect | bitvm/src/bigint/bits.rs:29-38 | All bits of the number on the alt stack, the lowest on top. |
| BitConversion.LeBitsCorrect | bitvm/src/bigint/bits.rs:40-48 | All bits of the number on the alt stack, the highest on top. |
| DivideLimbs.Div2RemCorrect | bitvm/src/bigint/inv.rs:12-24 | Leaves remainder and quotient of the division by two, through the chain of limb carries. |
| DivideLimbs.LimbDiv3Carry | bitvm/src/bigint/inv.rs:96-146 | The loop that counts ternary digits stops at the digits the limb needs, and the script is the one for that number. |
| DivideLimbs.Div3RemCorrect | bitvm/src/bigint/inv.rs:33-46 | Leaves remainder and quotient of the division by three. |
| StackMoves.ZipRun | bitvm/src/bigint/std.rs:147-171 | Interleaves the limbs of blocks a and b, in either order, and leaves all other cells in order below. |
| NumberMoves.CopyRun | bitvm/src/bigint/std.rs:194-210 | Both forms of the generator put a copy of block a on top. |
| NumberMoves.RollRun | bitvm/src/bigint/std.rs:212-223 | Moves block a to the top. |
| NumberMoves.DropRun | bitvm/src/bigint/std.rs:225-234 | Removes exactly one number. |
| NumberChecks.CheckValidityExact | bitvm/src/bigint/std.rs:346-364 | Accepts exactly those cells, of any integers, that spell a number below 2^n. |
| NumberChecks.ResizeCorrect | bitvm/src/bigint/std.rs:366-395 | Keeps the number when the width grows or shrinks, as long as it fits both. |
| TransformLimbs.GetTransformSteps | bitvm/src/bigint/std.rs:397-479 | The loop over the stack of limb sizes never reads an empty stack, ends, and emits the specified steps. |
| TransformLimbs.AllStepsCounts | bitvm/src/bigint/std.rs:397-479 | The windows of the steps add up to n; they drop as many limbs as the source has and start as many as the target has. |
| TransformLimbs.ExtractDigitsRun | bitvm/src/bigint/std.rs:632-662 | Splits the top limb into a window and the remaining low bits. |
| TransformLimbs.TransformCorrect | bitvm/src/bigint/std.rs:481-541 | For all n from 32 and all source and target sizes from 1 to 31 the script leaves the same number in limbs of the target size, without overflow. |
| LimbIo.PushU32Le | bitvm/src/bigint/std.rs:47-94 | The loop over words and bits panics exactly when the words spell a number that does not fit; otherwise the script pushes that number. |
| LimbIo.WordsWritten | bitvm/src/bigint/std.rs:47-94 | The first of the words has the weight one. |
| LimbIo.ReadU32Le | bitvm/src/bigint/std.rs:96-128 | The loop over bits gives words that spell the number on the stack. |
| LimbIo.PushThenRead | bitvm/src/bigint/std.rs:47-128 | Reading what was pushed gives back words of the same value. |
| LimbIo.BigintToU32Limbs | bitvm/src/bn254/fq.rs:470-485 | The words spell the n low bits of any big integer, and are as many as n needs, but at least one. |
| LimbIo.PushHint | bitvm/src/bn254/utils.rs:22-59 | Pushing a quotient hint pushes that quotient. |
| FieldAdd.AddModCorrect | bitvm/src/bn254/fp254impl.rs:160-263 | The dual track of sum and reduced sum, decided by the last borrow, leaves exactly the sum modulo p, for every p, with both stacks otherwise as before. |
| FieldAdd.DoubleModCorrect | bitvm/src/bn254/fp254impl.rs:403-498 | Exactly the double modulo p. |
| FieldSub.SubModCorrect | bitvm/src/bn254/fp254impl.rs:297-401 | Exactly the difference modulo p. |
| FieldSub.NegModCorrect | bitvm/src/bn254/fp254impl.rs:265-295 | Exactly minus the number modulo p, zero included. |
| FieldDiv.Div2ModCorrect | bitvm/src/bn254/fp254impl.rs:500-508 | Leaves a residue whose double is the operand modulo p. |
| FieldDiv.Div3ModCorrect | bitvm/src/bn254/fp254impl.rs:510-528 | Leaves a residue whose triple is the operand modulo p. |
| FieldDiv.DivisionUnique | bitvm/src/bn254/fp254impl.rs:500-528 | There is only one such residue. |
| FieldDiv.ConstantsMeetEquations | bitvm/src/bn254/fq.rs:15-34 | The constants of both fields satisfy the equations that halving and thirding rely on. |
| FieldDiv.LimbsOfModuli | bitvm/src/bn254/fr.rs:11-30 | The limbs listed for both moduli spell them. |
| FieldChecks.CheckElementExact | bitvm/src/bn254/fp254impl.rs:532-558 | Accepts exactly the cells, of any integers, that spell a number below p. |
| FieldChecks.IsElementExact | bitvm/src/bn254/fp254impl.rs:571-603 | Leaves whether the cells spell a number below p, without failing on any script numbers. |
| Tmul.TMulSound | bitvm/src/bn254/fq.rs:695-788 | Over integers, with the guards: any hint with which the multiplication succeeds is the true quotient, and the result is the sum of products modulo p. |
| Tmul.TMulComplete | bitvm/src/bn254/fq.rs:501-502 | With the true quotient no table entry, partial sum or shifted accumulator leaves the signed range of T, for every configuration that meets the width bound. |
| Tmul.FqMulExact | bitvm/src/bn254/fq.rs:795-798 | All four instantiations meet the bound: success exactly on reduced operands with the true quotient, and then the residue. |
| TmulTables.InitTableRun | bitvm/src/bn254/fq.rs:548-565 | The table script leaves all multiples of the operand up to 2^window - 1, and fails exactly when one overflows. |
| TmulExtract.VarWindowsRun | bitvm/src/bn254/fq.rs:584-693 | The window script, which keeps partly read limbs on the alt stack, leaves window k of every operand and changes nothing else on the main stack. |
| TmulRounds.LoopRun | bitvm/src/bn254/fq.rs:724-770 | The script of the main loop, from any round on, leaves the accumulator of the integer-level loop, and fails exactly when a guard there does. |
| TmulExact.ScriptRefines | bitvm/src/bn254/fq.rs:504-789 | The whole script computes the integer-level multiplication, and fails exactly when that does. |
| TmulExact.TMulScriptExact | bitvm/src/bn254/fq.rs:504-789 | For any modulus and any number of terms that meet the width bound: whatever integers the cells of the hint hold, the script succeeds exactly on reduced operands with the limbs of the true quotient, and then leaves the residue. |
| TmulExact.FqScriptExact | bitvm/src/bn254/fq.rs:795-798 | The same for the four multiplications of the library. |
| PointAddition.HintedMulRun | bitvm/src/bn254/fq.rs:100-130 | A multiplication that takes its hint from the bottom of the stack accepts exactly the true quotient and uses up exactly the hint. |
| PointAddition.HintedSquareRun | bitvm/src/bn254/fq.rs:420-437 | The same for the square. |
| PointAddition.CheckLineRun | bitvm/src/bn254/g1.rs:27-43 | With the true quotient, leaves whether the point is on the line; fails with any other. |
| PointAddition.CheckChordRun | bitvm/src/bn254/g1.rs:61-85 | Leaves whether both points are on the line. |
| PointAddition.AddChordRun | bitvm/src/bn254/g1.rs:349-376 | Leaves the reflected third point of the line, with exactly the two true quotients. |
| PointAddition.AddFiniteRun | bitvm/src/bn254/g1.rs:201-228 | Whatever integers the 54 cells in place of the hints hold: succeeds exactly when the first two groups spell a slope and an intercept, both points are on that line and all four quotients are true, and then leaves the third point reflected and uses up all cells. |
| PointAddition.AddPointsRun | bitvm/src/bn254/g1.rs:172-232 | The whole addition script: with an operand (0, 0) the other one, without any hint; otherwise the finite case. |
| MsmAddition.LibraryIsScripted | bitvm/src/bn254/g1.rs:172-232 | With the hints the library computes, the addition script replaces any two points, unless the addition is degenerate, by their group sum and uses up exactly these hints; if every chord has one slope only, it fails on any other cells in their place. |
| MsmAddition.PrimeGivesOneSlope | bitvm/src/bn254/g1.rs:172-232 | Every chord has one slope only, if the modulus is prime and points that share a coordinate are equal or opposite. |
| Msm.DfsRun | bitvm/src/bn254/msm.rs:78-104 | The tree of conditionals turns the bits of a into row a of the table, for every depth. |
| Msm.QueryRun | bitvm/src/bn254/msm.rs:145-180 | The query leaves exactly the bits of window i of the scalar, the lowest on top. |
| Msm.FqToBits | bitvm/src/bn254/utils.rs:62-77 | The chunks computed from the bit vector are the windows of the scalar. |
| MsmChain.GenerateLookupTables | bitvm/src/bn254/msm.rs:114-139 | The entries built up by repeated addition are the multiples: row a of table i is a times 2^(i window) times the base. |
| MsmChain.LookUpRun | bitvm/src/bn254/msm.rs:185-198 | The lookup replaces the scalar by the multiple of the base that its window i selects. |
| MsmChain.AccumulateAdditionChain | bitvm/src/bn254/msm.rs:204-271 | In any abelian group a chain exists exactly when for no window i the sum so far, the start plus v mod 2^(i window) times the base, is the window's multiple of 2^(i window) times the base, or its negative. It has one chunk per batch; chunk j ends at the sum after (j + 1) batch windows, the last one at the start plus the scalar times the base; and each chunk's script with its hints moves from the point of the one before to its own. If the addition scripts fail on any other hints, so do the chunks. |
| MsmChain.MultiScalarMul | bitvm/src/bn254/msm.rs:275-293 | Exists exactly under that condition for every scalar, started from the sum of the multiples before it; chain j ends at the sum of the first j + 1 multiples, and its scripts run from the sum before it. |
| MsmProgram.EqualVerifyRun | bitvm/src/bn254/g1.rs:487-493 | Comparing two points removes both and nothing else if they are equal, and fails if they differ in a coordinate. |
| MsmProgram.RowChecks | bitvm/src/bn254/msm.rs:43-64 | Whatever two points a chunk leaves, its row of the script fails unless they are the point the library computed and the one the chunk started from; then it leaves nothing, or after the last row the point. |
| MsmProgram.HintedMsm | bitvm/src/bn254/msm.rs:26-71 | It is generated exactly when, for every scalar and window, the sum so far is neither the next multiple nor its negative. With its hints at the bottom of the stack the whole script leaves exactly the sum of all multiples and uses up all hints; with any other cells in their place it fails, if every chord has one slope only. |
| MsmChain.ZeroFirstWindowIsRefused | bitvm/src/bn254/msm.rs:204-271 | A chain that starts from the identity is refused when the lowest window of the scalar is zero, since adding the identity to itself counts as degenerate. |
| MsmExistence.ZeroWindowPasses | bitvm/src/bn254/msm.rs:204-271 | A sum that is not the identity passes every zero window. |
| MsmExistence.ChainFromIdentityExact | bitvm/src/bn254/msm.rs:204-271 | With a base of order r, the chain from the identity exists for a scalar below r if and only if its lowest window is not zero. |

## Findings

What the proofs show to be false of the code, or true only under a condition, which is stated exactly.

- Batches do not compose across a retarget. `apply_blocks` goes on with the full 256-bit target, while a restart decodes the
  compact one; a block may be rejected after the cut, or counted with different work (`ChainExamples.CutAtRetargetDiffers`;
  exact condition in `ChainBatches.CompositionExact`).
- `MMRGuest::verify_proof` does not check the length of a path, so inner nodes pass as leaves
  (`MmrBinding.ShorterPathProvesInnerNode`, `MmrBinding.LongerPathProvesHalf`). For block hashes this is harmless
  (`MmrBinding.AnyLengthBinds`).
- `BlockInclusionProof::get_root` does not check it either. `SPV::verify` is sound when no transaction has 64 bytes
  (`Spv.SpvSound`), which `CircuitTransaction` does not exclude (`Transactions.ShortLength`). For every transaction of 64 bytes
  some hash function and block make it pass without being in the block, and let another pass in its place
  (`SpvExamples.PairCanPass`, `SpvExamples.ForeignCanPass`); with SHA-256 it takes a transaction that spells the identifiers. The
  comment at final-spv/src/merkle_tree.rs:100-104 says that hashing each sibling once more keeps inner nodes from being taken
  for transactions; it does not in the first case.
- The median of the last eleven timestamps may stand still over nine blocks across the wrap of the 32-bit height, because
  2^32 is not a multiple of eleven (`ChainExamples.NineAcrossWrapMayNotRaiseMedian`; exact condition in
  `ChainRuns.MedianRisesExactly`). Ten blocks always raise it.
- An epoch whose last timestamp lies before its first is not counted as short: the 32-bit difference wraps, and the epoch
  counts as up to four times too long, unless the timestamps are at least 2^32 - 302400 seconds apart
  (`ChainRuns.TimespanExact`; a run in `BackwardsEpoch.BackwardsEpochRun`).
- The multi-scalar multiplication refuses scalars whose lowest window is zero on the first base, although the sum is defined
  (`MsmChain.ZeroFirstWindowIsRefused`; it refuses no other scalar there, `MsmExistence.ChainFromIdentityExact`).
- Two comments disagree with the code, which the model follows: the multiplication does not add the modulus to a negative
  result, as the comment at bitvm/src/bn254/fq.rs:780 says, but rejects it; and `final_circuit` (final-spv/src/lib.rs:45-50)
  does not look at the boolean that `SPV::verify` returns, so all statements are about `verify` itself.

## Left out

- Integer overflow is modelled as in release builds: 32-bit heights, sizes and timestamp sums wrap, 256-bit work wraps. The
  panics of debug builds are not modelled.
- Ranges and runs of more than 2^32 - 1 leaves or blocks: statements about proofs stop there, since a leaf is named by a
  32-bit index; `ApplyBlocks`, the median and batch results do not stop.
- SHA-256 itself. Witnesses are not part of a transaction here, as its identifier does not cover them.
- Stack cells are integers: two encodings of the same number, such as a hint limb with padding, are not told apart, so the
  rule that numbers are encoded minimally is not modelled. Conditions are strict: they take only zero and one.
- The size of scripts and the limit of 1000 stack items. Where a script addresses cells by depth, the statements ask that the
  depth be a script number, or bound the stack well above what the generators use.
- Div2RemCorrect: asks for two bits in the head limb, since the generator computes a negative repetition count otherwise.
- Div3RemCorrect: asks for five bits in the head limb, for the same reason.
- ShiftExact: a shift by zero bits is not stated; the library does not emit it.
- VarWindowsRun: window widths from 2 to 6; the library uses 3 and 4.
- The negative signs that `fp_lc_mul` can be given: all four instantiations use positive ones.
- LibraryIsScripted: takes the group law as a premise, namely that the sum of two points is given by the chord through them.
  Associativity of the curve, and the tangent scripts for doubling, are not part of the model.
- PrimeGivesOneSlope: takes as premises that the modulus is prime and that points with the same coordinate are equal or
  opposite; only the rejection of wrong hints rests on them.
- The other hinted multiplications (by a constant, keeping elements, of two and four terms) move their operands and then use
  the scripts of `TmulExact.FqScriptExact`; the moves are not modelled.
- `double_allow_overflow`, `is_valid_bigint_with_limb_size`, `push_u64_le`, tests for zero and one, conversion to bits on the
  main stack: easy beside their modelled counterparts.
- The tower of extension fields, pairings, the segments of the Groth16 verifier, Winternitz signatures and Blake3.
- The memoised scripts (`OnceLock`), the virtual machine host, serialisation, the command line and all other input and output.
