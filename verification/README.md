# Authenticated storage: models and proofs

This project models four cores of the repository and proves what they promise.

- **LVMT** (`scalar`, `bits`, `node_index`, `prove_params`, `interpolation`, `version_node`, `amt`, `merkle`,
  `forest*`, `key_digits`, `lvmt*`, `version_tree`): a store that gives every key a slot in a forest of AMTs, pushes
  changed trees up at commit, dumps each epoch as a static Merkle tree, and proves keys level by level. Main results:
  after any history of commits every committed key's proof verifies, exactly while all versions of the nodes on its
  path are below 2^40; the roots do not depend on sharding; and what an accepted proof says, and does not say, about a
  key's value.
- **RainBlock trie** (`nibble`, `trie*`, `rain_mpt`): a Merkle Patricia trie (Appendices B to D of the Ethereum Yellow
  Paper) with lazily loaded and truncated lower layers. Main results: refinement of a finite map, one canonical form
  per map, exactly when a commit keeps every digest resolvable, shared encodings included, and no garbage in the store.
- **Journal databases** (`journal`, `early_merge`, `overlay_recent`, `ref_counted`): fork-aware stores over pending
  eras. Main results: counts equal what the journal implies after every step, every retained fork stays readable, and
  recovery from disk is right exactly when the eras are contiguous.
- **Buffered key-value store** (`kv_buffer`): overlay, flushing and store layers under locks. Main result: every
  interleaving of writes, flush steps and reads agrees with a plain map.

Pure code is modelled by functions and lemmas. Code that updates state is modelled by methods with loops and by classes,
each tied to a specification function or to an invariant. `dafny verify dfyconfig.toml` checks everything.

## How the code is read

- Curve points are their discrete logarithms modulo the BN254 order, and the pairing is multiplication. FFT and IFFT are
  their sums. Any domain generator with the right order is allowed.
- Hashes are injective: a leaf's digest stands for the leaf, a trie digest for the trie below it. Encoded lengths of
  trie nodes are computed by the RLP rules, since the 32-byte limit decides what is stored, and are those of the bytes.
- A panic of the source is a `None` result. Counters are unbounded; 40-bit packing, the 256-bit guard subtraction with
  its added constant, and bit reversal are written out. That counters have 64 bits is used in one place only: fewer
  wraps than the group order (`Amt.WrapsVanish`). Level numbers are not cut to eight bits; slots of committed keys have
  levels below 32.
- Trees live by value in one map from tree name to tree, since the source owns them by value layer by layer.
- Trie nodes are values with a status. A weak handle is a flag that any change to the node clears, which is when
  the source's handle stops upgrading. The three uncommitted statuses are one, since they differ only in what is cached.
- A journal call is modelled together with the write of its own batch. The repository's `commit_batch` writes once, after
  both `journal_under` and `mark_canonical`; that differs only when the era marked is the one just journalled, whose new
  record `mark_canonical` would not yet read back. In `overlay_recent` a key is identified with its 12-byte prefix. In
  the journal databases nodes are named by their content.

## What the code does that its documentation does not say

- Completeness of LVMT proofs needs no distinct keys: `verify` compares the packed version with the node's, never with
  the version stored for the key. Distinct keys are needed for slots to be unshared (`LvmtSlots.RunExact`).
- An old leaf of a key passes for the same reason (`LvmtFresh.OldValuesAccepted`): acceptance shows that the value was the
  key's at some time, and is current if its version is (`LvmtFresh.AcceptedRecorded`, `LvmtFresh.RunSound`).
- `tree_version`, and the version in a slot written twice in one batch, have no overflow check. When a 40-bit group
  wraps, the write guard borrows and adds the field's `R`, the residue of 2^256, instead of its `MODULUS`
  (`Amt.GuardDeltaExact`, `Amt.WrapMisses`). From then on the opening of that one node fails, with all keys below it,
  while the other nodes of the tree still open (`Amt.OpeningExact`, `Amt.DataOpens`); so the condition of acceptance is
  on all versions of the nodes on the path.
- A shard is tested on the plain index where data is kept and on the reversed index where openings are maintained
  (`LvmtShards.ShardTests`), so a shard other than the root keeps data it has no openings for (`LvmtShards.ShardMisses`).
- RainBlock commits can lose a node. A branch that loaded a child is listed for truncation; if a later delete merges its
  parents away it moves up unchanged, and the commit then truncates it although a new child lies above the stored layers.
  `TrieLost.ThreeLayersLose` gives the run; `TrieLayers.TwoLayers` and `TrieLayers.WithoutDeletes` the runs without it.
- The RainBlock store keeps a node once however often the trie holds it, and deletes it when one place changes
  (`TrieShared.SharedNodeLost`, against `TrieShared.SharedNodeKept`). `TrieLayers.CommitSafeExactly` is the exact
  condition that covers both ways to lose a node, `TrieRun.CommitKeeps` the one under which the whole invariant survives.
- Reopening a reference-counted database forgets counts that were journalled but not yet written
  (`RefCounted.RefCountedDb.Reopen`).
- A direct `write` of the buffered store is visible in two steps (`KvBuffer.DroppedAgrees`, `KvBuffer.DirectAgrees`).

## Model

| member | source | states |
|---|---|---|
| `Bits.ReverseBits` | asb-authdb/lvmt-db/src/amt/tree.rs:231-238 | the shift loop computes the bit reversal of an index |
| `Bits.AncestorIsShorterReversal` | asb-authdb/lvmt-db/src/amt/tree.rs:155-175 | the ancestor of a leaf's bit-reversed index is the bit reversal of the same index on fewer bits |
| `Bits.ReverseInjective` | asb-authdb/lvmt-db/src/amt/tree.rs:231-238 | on a fixed number of bits, bit reversal loses nothing |
| `NodeIndices.MaintainExact` | asb-authdb/lvmt-db/src/amt/node.rs:71-97 | for any shard root, a node is maintained if and only if it is the root or the sibling of a node on the path of some leaf under the shard root |
| `NodeIndices.OpenedIsMaintained` | asb-authdb/lvmt-db/src/amt/node.rs:71-97 | every node that the proof of a leaf inside the shard opens is maintained |
| `NodeIndices.PathExact` | asb-authdb/lvmt-db/src/amt/node.rs:71-97 | all siblings that the proof of a leaf opens are maintained if and only if the leaf lies below the shard root |
| `ProveParams.CommitmentSum` | asb-authdb/lvmt-db/src/crypto/prove_params.rs:209-214 | the inverse transform of the powers of tau at an index is the geometric sum of the root of unity |
| `ProveParams.QuotientSum` | asb-authdb/lvmt-db/src/crypto/prove_params.rs:216-243 | the quotient of an index at a depth, as a transform of shifted powers, is a geometric sum over one block |
| `ProveParams.VerificationKey` | asb-authdb/lvmt-db/src/crypto/prove_params.rs:245-268 | the verification point of a depth and index is the sum over the blocks of that depth |
| `ProveParams.IndexFactors` | asb-authdb/lvmt-db/src/crypto/prove_params.rs:182-268 | for every depth d and index t, the commitment of t equals the quotient at (d, t) times the verifier at (d, t mod 2^d) under the pairing |
| `ProveParams.GenQuotients` | asb-authdb/lvmt-db/src/crypto/prove_params.rs:216-243 | the coefficient loop and its transform give the quotients of a depth |
| `ProveParams.FillVerifyCoeff` | asb-authdb/lvmt-db/src/crypto/prove_params.rs:245-268 | the loop places the coefficients that the verifier's transform needs |
| `ProveParams.GenVerify` | asb-authdb/lvmt-db/src/crypto/prove_params.rs:245-268 | the filled coefficients transform to the verification points of a depth |
| `ProveParams.FromPp` | asb-authdb/lvmt-db/src/crypto/prove_params.rs:182-207 | parameters made from a power-of-tau string have the right shape, satisfy the pairing identity at every depth and index, have the generator as second base, and are regular when tau^n - 1 is invertible |
| `ProveParams.ParamsRegular` | asb-authdb/lvmt-db/src/crypto/prove_params.rs:209-214 | every commitment base is invertible when tau^n - 1 is, because the base of index t times n (w^-t tau - 1) is tau^n - 1 |
| `Interpolation.FftInverts` | asb-authdb/lvmt-db/src/crypto/prove_params.rs:209-214 | over a domain whose generator has -1 as its half power, the transform undoes the inverse transform |
| `Interpolation.BasesInterpolate` | asb-authdb/lvmt-db/src/crypto/prove_params.rs:209-214 | the commitment bases are the Lagrange basis at tau: weighted by the j-th powers of the domain they add up to the j-th power of tau |
| `VersionNode.AsFrInt` | asb-authdb/lvmt-db/src/multi_layer_amt/node.rs:49-65 | writing five-byte groups into a 32-byte buffer gives the number that packs the low 40 bits of each version |
| `VersionNode.VersionsFromFrInt` | asb-authdb/lvmt-db/src/multi_layer_amt/node.rs:67-75 | slicing five bytes out of a scalar reads one 40-bit group |
| `VersionNode.UnpackNode` | asb-authdb/lvmt-db/src/multi_layer_amt/node.rs:49-75 | reading a version back from a packed node gives it if and only if it is below 2^40 |
| `VersionNode.PackUpdate` | asb-authdb/lvmt-db/src/multi_layer_amt/node.rs:49-65 | changing one version moves the scalar by the change of its low 40 bits, at its place |
| `VersionNode.PackedBound` | asb-authdb/lvmt-db/src/multi_layer_amt/node.rs:49-65 | six packed versions have 240 bits and stay below the field order |
| `Amt.UpdateTree` | asb-authdb/lvmt-db/src/amt/tree.rs:139-175 | the loop over the ancestors adds the delta to the commitment and to exactly the maintained ancestors |
| `Amt.UpdateInnerAt` | asb-authdb/lvmt-db/src/amt/tree.rs:139-175 | an update changes a node if and only if it is a maintained ancestor of the leaf, and by how much |
| `Amt.UpdateRepresents` | asb-authdb/lvmt-db/src/amt/tree.rs:139-175 | after an update the commitment and every maintained node are the sums over their leaf sets with the new value |
| `Amt.GuardDeltaExact` | asb-authdb/lvmt-db/src/amt/write_guard.rs:38-48 | the guard's 256-bit change is the difference modulo the field order if and only if the scalar does not fall: a borrow adds the residue of 2^256, not the order |
| `Amt.RaiseBorrows` | asb-authdb/lvmt-db/src/amt/write_guard.rs:38-48 | counting one version up makes the scalar fall, and a group wrap, exactly when the low 40 bits of the version are all ones |
| `Amt.WrapMisses` | asb-authdb/lvmt-db/src/amt/write_guard.rs:38-48 | the write of subtree version 2^40 over 2^40 - 1 applies a change that is not the difference |
| `Amt.GuardCarries` | asb-authdb/lvmt-db/src/amt/write_guard.rs:38-48 | every step the store makes to a node moves its packed scalar plus one residue of 2^256 per wrap by exactly the guard's change |
| `Amt.WriteVersionsConsistent` | asb-authdb/lvmt-db/src/amt/write_guard.rs:38-48 | every guarded write that the store makes, wrapping or not, keeps commitment and maintained nodes equal to the sums over the packed data with one residue of 2^256 per wrap |
| `Amt.ProveIndex` | asb-authdb/lvmt-db/src/amt/tree.rs:177-193 | a full tree returns the siblings on the path, every other tree returns nothing |
| `Amt.Verify` | asb-authdb/lvmt-db/src/amt/tree.rs:195-227 | the verifier accepts exactly when the commitment splits and every pairing holds, and panics exactly on an opening longer than the depth whose earlier checks all pass; what the pairings exclude is `Amt.OpeningRigid` |
| `Amt.OpeningVerifies` | asb-authdb/lvmt-db/src/amt/tree.rs:177-227 | whatever values a fully maintained tree commits to, the opening of every index verifies against the commitment |
| `Amt.OpeningExact` | asb-authdb/lvmt-db/src/amt/tree.rs:177-227 | the opening of an index verifies for exactly the claims that agree with the value committed at that index, whatever stands at the others |
| `Amt.DataOpens` | asb-authdb/lvmt-db/src/amt/tree.rs:177-227 | the packed scalar of a node is accepted against its tree if and only if the wraps of that node vanish in the group |
| `Amt.OpeningRigid` | asb-authdb/lvmt-db/src/amt/tree.rs:195-227 | in any two accepted openings of an index, whatever their claims and commitments, the commitment and the proof point of a node determine each other |
| `Amt.ProofPointExact` | asb-authdb/lvmt-db/src/amt/tree.rs:214-225 | an accepted opening with another proof point in one node is accepted if and only if the point is the same |
| `KeyDigits.DigitBits` | asb-authdb/lvmt-db/src/multi_layer_amt/key.rs:19-54 | for every depth a level reads, as a number with the first bit highest, the bits of the key from the byte it starts in to its end |
| `KeyDigits.DigitIsByte` | asb-authdb/lvmt-db/src/multi_layer_amt/key.rs:19-54 | with a depth of eight, level l reads byte l of the key, and zero past its end |
| `KeyDigits.DigitIsOwnBits` | asb-authdb/lvmt-db/src/multi_layer_amt/key.rs:19-54 | with a depth of whole bytes a level reads exactly its own bits |
| `KeyDigits.SameTree` | asb-authdb/lvmt-db/src/multi_layer_amt/key.rs:19-54 | with a depth of whole bytes, keys visit the same trees down to a level if and only if they agree on the bits above it |
| `Merkle.Dump` | asb-authdb/lvmt-db/src/merkle/mod.rs:66-101 | the level loop returns the padded Merkle root and stores every level, or only the depth |
| `Merkle.Prove` | asb-authdb/lvmt-db/src/merkle/mod.rs:38-50 | the proof reads the sibling path back from the stored levels, with padding for absent entries |
| `Merkle.Verify` | asb-authdb/lvmt-db/src/merkle/mod.rs:52-64 | the verifier accepts exactly the proofs that fold to the root |
| `Merkle.ProofVerifies` | asb-authdb/lvmt-db/src/merkle/mod.rs:38-64 | for every position of a non-empty list the proof of the stored tree verifies if and only if the neighbouring leaf is not the all-zero word |
| `Merkle.AcceptedProofs` | asb-authdb/lvmt-db/src/merkle/mod.rs:52-64 | a proof of the tree's depth at a position in range is accepted if and only if it is for that leaf with that sibling path |
| `Merkle.RootInOrder` | asb-authdb/lvmt-db/src/merkle/mod.rs:66-101 | the root holds the leaves from left to right in the order of the list |
| `Merkle.AcceptedIsLeaf` | asb-authdb/lvmt-db/src/merkle/mod.rs:52-64 | whatever the length and position of a proof, the root of a tree of leaf digests accepts only a leaf of that tree |
| `Forest.TouchKeeps` | asb-authdb/lvmt-db/src/multi_layer_amt/tree.rs:72-116 | mutable access keeps the mark structure: a marked tree is listed by its parent up to the root, existing trees keep their content, new trees take their parent's stored root |
| `ForestContent.TouchContent` | asb-authdb/lvmt-db/src/multi_layer_amt/tree.rs:72-116 | mutable access keeps every tree consistent and every clean tree linked to its recorded leaf |
| `ForestContent.AllocateContent` | asb-authdb/lvmt-db/src/multi_layer_amt/tree.rs:152-174 | allocation returns a slot at version 0 that exists at the key's node, and keeps the forest's content |
| `ForestContent.IncKeyVerContent` | asb-authdb/lvmt-db/src/multi_layer_amt/tree.rs:118-150 | raising a key's version, through a wrap or not, keeps the forest's content and leaves the key's tree marked for the next commit |
| `ForestCommit.CommitClean` | asb-authdb/lvmt-db/src/multi_layer_amt/tree.rs:176-218 | a commit reaches every changed tree: afterwards nothing below is marked or dirty |
| `ForestCommit.CommitContent` | asb-authdb/lvmt-db/src/multi_layer_amt/tree.rs:176-218 | after a commit every tree's commitment is what its parent stores and agrees with its data and their wraps, and its recorded position is that of its leaf in the epoch's list |
| `Lvmt.HealthyCloses` | asb-authdb/lvmt-db/src/multi_layer_amt/tree.rs:176-239 | between operations every tree a commit will visit exists, so it never misses one |
| `Lvmt.CommitKeeps` | asb-authdb/lvmt-db/src/lvmt_db.rs:162-240 | every successful commit keeps the invariant: slots exist, trees are live, settled and consistent up to counted wraps, every key's leaf is recorded at its position |
| `Lvmt.Run` | asb-authdb/lvmt-db/src/lvmt_db.rs:162-240 | the invariant holds after any sequence of batches, repeated keys and wrapped versions included |
| `Lvmt.CommitReturnsRoot` | asb-authdb/lvmt-db/src/lvmt_db.rs:162-240 | in every shard a commit returns the commitment of the root tree that it leaves |
| `LvmtOrder.EpochOrdered` | asb-authdb/lvmt-db/src/lvmt_db.rs:162-240 | an epoch's leaves are one for each write, in order and with its value, then the changed trees in post-order of their names |
| `LvmtOrder.CommitOrdered` | asb-authdb/lvmt-db/src/multi_layer_amt/tree.rs:176-218 | a commit appends the leaves of changed trees in post-order: each after the trees below it, siblings by index |
| `LvmtOrder.EpochVersions` | asb-authdb/lvmt-db/src/lvmt_db.rs:162-240 | every write of a batch records one more than the key's version before the batch, however often the batch writes it; new keys start at one each time |
| `LvmtOrder.RunReads` | asb-authdb/lvmt-db/src/lvmt_db.rs:117-240 | over any run a key reads as the last value written to it |
| `LvmtProof.SubtreeRecorded` | asb-authdb/lvmt-db/src/lvmt_db.rs:243-301 | every tree on a key's path is recorded in the ledger at its current commitment, under the version and position that its parent holds |
| `LvmtProof.VersionsChecked` | asb-authdb/lvmt-db/src/lvmt_db.rs:387-410 | the version checks of a generated proof pass if and only if the versions on the path fit 40 bits |
| `LvmtProof.ProofOpens` | asb-authdb/lvmt-db/src/lvmt_db.rs:243-411 | for any parameters that factor, the proof of a committed key is accepted if and only if the claimed versions fit 40 bits and the wraps of every node on the path vanish in the group |
| `LvmtProof.ProofAccepted` | asb-authdb/lvmt-db/src/lvmt_db.rs:243-411 | in every state with the invariant the proof of every committed key is accepted if every version of the nodes on its path is below 2^40, and with regular parameters and 64-bit counters only if |
| `LvmtProof.RunComplete` | asb-authdb/lvmt-db/src/lvmt_db.rs:162-411 | completeness over whole runs: after any batches, the proof of every key ever committed claims its current value and version, and is accepted against the recorded roots under exactly that condition |
| `LvmtProof.PointExact` | asb-authdb/lvmt-db/src/lvmt_db.rs:303-411 | in an accepted key proof no proof point of any opening can be exchanged for another |
| `LvmtSlots.RunAccepted` | asb-authdb/lvmt-db/src/lvmt_db.rs:162-411 | while fewer than 2^40 leaves were ever dumped, every proof is accepted without further condition |
| `LvmtSlots.CommitTreeVersions` | asb-authdb/lvmt-db/src/multi_layer_amt/tree.rs:176-218 | a commit never changes a key version and raises a subtree version only together with a new leaf |
| `LvmtSlots.AllocateVersions` | asb-authdb/lvmt-db/src/multi_layer_amt/tree.rs:152-174 | allocation appends exactly one slot at version 0 to one node of the key's path |
| `LvmtSlots.AllocateFirst` | asb-authdb/lvmt-db/src/multi_layer_amt/tree.rs:152-174 | allocation takes the first level, of at most 32 that the key is long enough for, whose node has fewer than five slots, and panics exactly if there is none |
| `LvmtSlots.RaisePanics` | asb-authdb/lvmt-db/src/multi_layer_amt/tree.rs:118-150 | raising a key panics exactly when the key is too short, the slot is missing where data is kept, or the version has reached 2^40 - 1 |
| `LvmtSlots.RunExact` | asb-authdb/lvmt-db/src/multi_layer_amt/tree.rs:118-174 | over runs with distinct keys per batch, distinct keys never share a slot, every slot is one of five, and the stored version is the packed one |
| `LvmtFresh.AcceptedRecorded` | asb-authdb/lvmt-db/src/lvmt_db.rs:303-411 | soundness of every accepted proof, however made: the key's leaf and every subtree leaf it claims were recorded in the epochs it names |
| `LvmtFresh.ReplayAccepted` | asb-authdb/lvmt-db/src/lvmt_db.rs:303-411 | a leaf of the key ever recorded at the key's slot is accepted with the current openings exactly when the current value is, since the leaf's version is not compared with the opened one |
| `LvmtFresh.RunPast` | asb-authdb/lvmt-db/src/lvmt_db.rs:162-240 | over runs with distinct keys per batch, every recorded leaf of a key sits at the key's slot with a lower version, or is the current one |
| `LvmtFresh.RunSound` | asb-authdb/lvmt-db/src/lvmt_db.rs:303-411 | soundness over runs with distinct keys per batch: an accepted value sits at the key's slot with a version no higher than the current one, and with the current version it is the current value |
| `LvmtFresh.OldValuesAccepted` | asb-authdb/lvmt-db/src/lvmt_db.rs:303-411 | in such runs, below 2^40 leaves, every value a key ever had is accepted with its own leaf; it is the current value exactly when the leaf's version is the one opened at the bottom node |
| `LvmtShards.RaiseIsUpdate` | asb-authdb/lvmt-db/src/multi_layer_amt/tree.rs:118-150 | below 2^40 the direct addition and the guarded write are one and the same update of the commitment |
| `LvmtShards.CommitTreeTwin` | asb-authdb/lvmt-db/src/multi_layer_amt/tree.rs:176-218 | in two shards a commit visits the same trees and appends the same leaves |
| `LvmtShards.CommitTwin` | asb-authdb/lvmt-db/src/lvmt_db.rs:162-240 | a commit that succeeds in one shard succeeds in every other, with the same commitment and leaves |
| `LvmtShards.RootsAgree` | asb-authdb/lvmt-db/src/multi_layer_amt/tree.rs:118-150 | runs over the same batches with any two shard settings return the same commitments and dump the same leaves, epoch by epoch |
| `LvmtShards.ShardTests` | asb-authdb/lvmt-db/src/multi_layer_amt/tree.rs:133-137 | a shard keeps the data of the keys whose high index bits name it, and maintains the openings of those whose reversed low bits do |
| `LvmtShards.ShardMisses` | asb-authdb/lvmt-db/src/multi_layer_amt/tree.rs:308-316 | for every shard strictly between root and leaves some index passes the first test and fails the second |
| `LvmtShards.SubtreeShard` | asb-authdb/lvmt-db/src/multi_layer_amt/tree.rs:307-325 | the trees below a root leaf are kept with all their openings exactly where the shard keeps the data of their keys |
| `VersionTrees.SortMarks` | asb-authdb/lvmt-db/src/multi_layer_amt/tree.rs:176-218 | the marks of a tree, each once, in ascending order |
| `VersionTrees.VersionTree.GetTreeMut` | asb-authdb/lvmt-db/src/multi_layer_amt/tree.rs:72-116 | the loop to the first marked ancestor is the access function of the forest |
| `VersionTrees.VersionTree.AllocateVacantSlot` | asb-authdb/lvmt-db/src/multi_layer_amt/tree.rs:152-174 | the loop over levels is the allocation function, with its panics |
| `VersionTrees.VersionTree.IncKeyVer` | asb-authdb/lvmt-db/src/multi_layer_amt/tree.rs:118-150 | both branches are the increment function, with its panics |
| `VersionTrees.VersionTree.CommitTree` | asb-authdb/lvmt-db/src/multi_layer_amt/tree.rs:176-218 | the recursion over the marked children appends the leaves and leaves the forest that the commit function gives |
| `LvmtDbs.LvmtDb.constructor` | asb-authdb/lvmt-db/src/lvmt_db.rs:93-115 | a new store over an empty backend satisfies the invariant |
| `LvmtDbs.LvmtDb.Get` | asb-authdb/lvmt-db/src/lvmt_db.rs:117-146 | reads through the cache return the committed value |
| `LvmtDbs.LvmtDb.Set` | asb-authdb/lvmt-db/src/lvmt_db.rs:148-152 | a set is only queued |
| `LvmtDbs.LvmtDb.Commit` | asb-authdb/lvmt-db/src/lvmt_db.rs:162-240 | commits the queue as the batch function says, returns the root commitment and the epoch's Merkle root, and keeps the invariant, wrapped versions included |
| `LvmtDbs.LvmtDb.Prove` | asb-authdb/lvmt-db/src/lvmt_db.rs:243-301 | returns the proof of every committed key, for its value and version, accepted against the returned roots under exactly the condition of `LvmtProof.ProofAccepted`, and changes no tree |
| `LvmtDbs.Verify` | asb-authdb/lvmt-db/src/lvmt_db.rs:303-411 | returns true exactly on the proofs that pass every check, and panics exactly on those of a wrong shape that pass all checks made before the shape shows |
| `LvmtDbs.TouchInvariant` | asb-authdb/lvmt-db/src/lvmt_db.rs:413-427 | the mutable access that proving makes keeps the invariant of the store |
| `Nibbles.ToMptKey` | asb-authdb/rainblock-trie/src/nibble.rs:74-90 | the loop over pairs writes the hex-prefix encoding of a path and a node kind |
| `Nibbles.DecodeInverts` | asb-authdb/rainblock-trie/src/nibble.rs:63-90 | decoding inverts encoding, and the strings that decode and re-encode to themselves are exactly those with a valid first nibble and padding |
| `Nibbles.MptKeyFlags` | asb-authdb/rainblock-trie/src/nibble.rs:63-90 | the first byte is 32 for a leaf plus 16 and the first nibble for an odd path, and the other nibbles follow in pairs, high first |
| `Nibbles.FromBytesInjective` | asb-authdb/rainblock-trie/src/nibble.rs:55-61 | distinct byte keys have distinct paths |
| `Nibbles.NibbleAt` | asb-authdb/rainblock-trie/src/nibble.rs:20-33 | byte i of a key gives nibble 2i from its high half and 2i + 1 from its low half |
| `Tries.CanonicalUnique` | asb-authdb/rainblock-trie/src/rain_mpt.rs:308-557 | two canonical tries that represent the same map are equal |
| `TrieUpdates.PutFinds` | asb-authdb/rainblock-trie/src/rain_mpt.rs:93-127 | insertion changes the represented map at the key and nowhere else |
| `TrieUpdates.PutCanonical` | asb-authdb/rainblock-trie/src/rain_mpt.rs:308-462 | insertion with its splits keeps the canonical form |
| `TrieUpdates.SplitExtensionFinds` | asb-authdb/rainblock-trie/src/rain_mpt.rs:381-431 | splitting an extension keeps every old path and adds the new one |
| `TrieUpdates.SplitLeafFinds` | asb-authdb/rainblock-trie/src/rain_mpt.rs:433-462 | splitting a leaf leaves exactly the two paths |
| `TrieUpdates.DelFinds` | asb-authdb/rainblock-trie/src/rain_mpt.rs:232-246 | deletion removes the key from the represented map and nothing else |
| `TrieUpdates.DelCanonical` | asb-authdb/rainblock-trie/src/rain_mpt.rs:466-557 | deletion with its merges keeps the canonical form |
| `TrieUpdates.DelAbsent` | asb-authdb/rainblock-trie/src/rain_mpt.rs:232-246 | deleting an absent key leaves the trie as it is |
| `TrieStore.SmallChildren` | asb-authdb/rainblock-trie/src/trie_node_ext.rs:119-134 | a node whose encoding is below 32 bytes has only such children, since a hash alone takes 33 bytes |
| `TrieRlp.EncodeLength` | asb-authdb/rainblock-trie/src/trie_node.rs:201-223 | the computed length of a node is that of its bytes in the encoding of Appendix B, with short children in place and others by hash |
| `TrieRlp.SmallExactly` | asb-authdb/rainblock-trie/src/trie_node_ext.rs:119-136 | a node counts as short if and only if its encoding has fewer than 32 bytes |
| `TrieRlp.HeldByHash` | asb-authdb/rainblock-trie/src/child_ref.rs:144-159 | a parent's bytes hold a child in place if it is short, and as the 33-byte string of its hash otherwise |
| `TrieRlp.EncodeInjective` | asb-authdb/rainblock-trie/src/trie_node.rs:201-223 | with a collisionless hash, different tries have different encodings |
| `TrieRlp.LoadedByHash` | asb-authdb/rainblock-trie/src/child_ref.rs:160-172 | loading a branch leaves digests for exactly the children that its bytes hold by hash |
| `TrieRlp.CutByHash` | asb-authdb/rainblock-trie/src/trie_node_ext.rs:205-217 | truncation leaves a digest exactly for a child whose encoding has 32 bytes or more |
| `TrieRlp.PutByLength` | asb-authdb/rainblock-trie/src/trie_node_ext.rs:160-203 | a changed node at or below the border is stored by the commit if and only if its encoding has 32 bytes or more |
| `TrieStore.LoadSound` | asb-authdb/rainblock-trie/src/trie_node_ext.rs:59-74 | a node loaded from a complete store is sound at any depth, with short children inline and the rest by digest |
| `TrieStore.ExileSound` | asb-authdb/rainblock-trie/src/trie_node_ext.rs:219-239 | saving the nodes that reach the border depth makes a subtree sound one level further down |
| `TrieCommit.SealSound` | asb-authdb/rainblock-trie/src/trie_node_ext.rs:160-217 | commit and truncation of a subtree leave every digest resolvable over any store that keeps what is relied on, what is written and what is cut off |
| `TrieCommit.CommitSound` | asb-authdb/rainblock-trie/src/rain_mpt.rs:129-192 | a commit leaves the trie unchanged and every digest resolvable when what it cuts off above the border is kept and its deletes spare what is relied on |
| `TrieSafety.KeptExactly` | asb-authdb/rainblock-trie/src/rain_mpt.rs:271-304 | a node can be loaded with all below it if and only if the store has every long node of it |
| `TrieSafety.CommitSoundExactly` | asb-authdb/rainblock-trie/src/rain_mpt.rs:129-192 | the commit of any sound trie, shared encodings included, leaves it sound if and only if what it cuts off above the border is kept and no deleted node is still relied on without being stored again |
| `TrieSafety.CommitResolvesExactly` | asb-authdb/rainblock-trie/src/rain_mpt.rs:129-192 | after the commit of any sound trie every digest resolves if and only if what it cuts off above the border is kept and no deleted node lies behind a digest without being stored again |
| `TrieOps.WalkSound` | asb-authdb/rainblock-trie/src/rain_mpt.rs:271-304 | searching and loading keep the node invariant |
| `TriePut.PutExpand` | asb-authdb/rainblock-trie/src/rain_mpt.rs:93-127 | insertion on partly loaded nodes is insertion on the trie they stand for |
| `TriePut.PutSound` | asb-authdb/rainblock-trie/src/rain_mpt.rs:308-462 | insertion keeps every digest resolvable: what a split pushes down is saved |
| `TrieDel.DelExpand` | asb-authdb/rainblock-trie/src/rain_mpt.rs:466-557 | deletion on partly loaded nodes is deletion on the trie they stand for |
| `TrieDel.DelSound` | asb-authdb/rainblock-trie/src/rain_mpt.rs:466-557 | deletion keeps every digest resolvable: subtrees only move up |
| `TrieLive.WalkLive` | asb-authdb/rainblock-trie/src/rain_mpt.rs:271-304 | a search moves nodes from the store to memory and neither loses nor duplicates one |
| `TrieLive.PutLive` | asb-authdb/rainblock-trie/src/rain_mpt.rs:93-127 | conservation: an insertion puts exactly the unchanged nodes of its path on the delete list |
| `TrieLive.DelLive` | asb-authdb/rainblock-trie/src/rain_mpt.rs:466-557 | conservation: a deletion puts exactly the unchanged nodes of its path and the merged child on the delete list |
| `TrieRun.CommitKeeps` | asb-authdb/rainblock-trie/src/rain_mpt.rs:129-192 | a commit keeps the whole invariant if and only if it is safe by the test on the state before it, and never changes the trie |
| `TrieRun.DeadSafe` | asb-authdb/rainblock-trie/src/rain_mpt.rs:129-192 | a commit is safe if no deleted node is still live and no listed node has a changed child above the border |
| `TrieRun.RunRepresents` | asb-authdb/rainblock-trie/src/rain_mpt.rs:77-127 | refinement over runs: the trie represents exactly the map that the operations built |
| `TrieRun.RunsAgree` | asb-authdb/rainblock-trie/src/rain_mpt.rs:308-557 | history independence: runs that built the same map end in the same trie, whatever their order and number of layers |
| `TrieRun.RunResolves` | asb-authdb/rainblock-trie/src/rain_mpt.rs:129-192 | store safety over all runs whose commits are safe, shared encodings included: every digest in memory can be loaded with all below it |
| `TrieRun.RunTidy` | asb-authdb/rainblock-trie/src/rain_mpt.rs:129-192 | no garbage over runs: every long node in the store is a node of the trie as last committed |
| `TrieRun.IdleWrite` | asb-authdb/rainblock-trie/src/rain_mpt.rs:93-127 | writing the value that is there already is a search and changes nothing else |
| `TrieLayers.WithoutDeletes` | asb-authdb/rainblock-trie/src/rain_mpt.rs:93-192 | runs that delete nothing are safe with any number of layers, if no committed trie holds a long node twice |
| `TrieLayers.TwoLayers` | asb-authdb/rainblock-trie/src/rain_mpt.rs:129-192 | runs with at most two layers in memory are safe, deletes or not, if no committed trie holds a long node twice |
| `TrieLayers.CommitSafeExactly` | asb-authdb/rainblock-trie/src/rain_mpt.rs:129-192 | in every state of a run, every digest resolves after the commit if and only if what it cuts off above the border is kept and no deleted node lies behind a digest without being stored again |
| `TrieLayers.GuardedIsClear` | asb-authdb/rainblock-trie/src/rain_mpt.rs:152-156 | where memory and store share no encoding, what is cut off is kept if and only if no listed node above the border has a changed long child |
| `TrieLost.ThreeLayersLose` | asb-authdb/rainblock-trie/src/rain_mpt.rs:152-156 | a concrete run with three layers after which a commit leaves a digest that the store does not have |
| `TrieShared.SharedNodeKept` | asb-authdb/rainblock-trie/src/rain_mpt.rs:129-192 | a concrete run in which two keys share an encoding and every commit is safe |
| `TrieShared.SharedNodeLost` | asb-authdb/rainblock-trie/src/rain_mpt.rs:129-192 | a concrete run, with nothing listed above the border, in which two keys share an encoding and the commit loses the node of one |
| `RainMpt.MerklePatriciaTree.Search` | asb-authdb/rainblock-trie/src/rain_mpt.rs:271-304 | the loop returns the stack of loaded nodes and whether the key matched; no load ever misses |
| `RainMpt.MerklePatriciaTree.ResetPointers` | asb-authdb/rainblock-trie/src/rain_mpt.rs:248-256 | making the stack mutable lists exactly its unchanged nodes for deletion |
| `RainMpt.MerklePatriciaTree.RecoverPointers` | asb-authdb/rainblock-trie/src/rain_mpt.rs:258-269 | the loop from the bottom up rebuilds the root |
| `RainMpt.MerklePatriciaTree.Get` | asb-authdb/rainblock-trie/src/rain_mpt.rs:77-91 | returns the represented value, reading an empty one as absent |
| `RainMpt.MerklePatriciaTree.Put` | asb-authdb/rainblock-trie/src/rain_mpt.rs:93-127 | the stack algorithm is the insertion or deletion of the state machine, and keeps its invariant |
| `RainMpt.MerklePatriciaTree.Del` | asb-authdb/rainblock-trie/src/rain_mpt.rs:232-246 | the stack algorithm is the deletion of the state machine, and keeps its invariant |
| `RainMpt.MerklePatriciaTree.Commit` | asb-authdb/rainblock-trie/src/rain_mpt.rs:129-192 | writes the saved and changed bottom nodes after the deletes, truncates, and returns the root digest; it keeps the invariant if and only if the commit is safe |
| `RainMpt.CommitNode` | asb-authdb/rainblock-trie/src/trie_node_ext.rs:160-203 | the recursion commits the changed nodes and collects exactly those to be stored |
| `RainMpt.FindOnlyChild` | asb-authdb/rainblock-trie/src/child_ref.rs:193-206 | the loop finds the only child if there is exactly one |
| `RainMpt.RemoveMeans` | asb-authdb/rainblock-trie/src/rain_mpt.rs:466-557 | rewriting the end of the stack and merging with one extension is the recursive deletion of the whole trie |
| `KvBuffer.StepAgrees` | asb-backend/cfx-kvdb-rocksdb/src/lib.rs:497-573 | every step of a flush, every buffered write and every stage of a read keeps the three layers in agreement with a plain map, and a read that ends returns what the map holds |
| `KvBuffer.PlainIsLast` | asb-backend/cfx-kvdb-rocksdb/src/lib.rs:497-510 | in the plain map that all steps agree with, the last operation on a key decides what it holds |
| `KvBuffer.Linear` | asb-backend/cfx-kvdb-rocksdb/src/lib.rs:497-645 | linearity over every interleaving that the locks allow |
| `KvBuffer.DroppedAgrees` | asb-backend/cfx-kvdb-rocksdb/src/lib.rs:576-612 | after a direct write dropped a buffered entry, reads stay right if and only if the layers below hold the same |
| `KvBuffer.DirectAgrees` | asb-backend/cfx-kvdb-rocksdb/src/lib.rs:576-612 | a direct write takes effect at once if and only if no flush holds another state of its key |
| `KvBuffer.DirectWriteShowsThrough` | asb-backend/cfx-kvdb-rocksdb/src/lib.rs:576-612 | a concrete state in which a read during a direct write returns a value older than the buffered one |
| `KvBuffer.Database.WriteOps` | asb-backend/cfx-kvdb-rocksdb/src/lib.rs:497-510 | the loop over a transaction is the buffered-write step |
| `KvBuffer.Database.WriteFlushing` | asb-backend/cfx-kvdb-rocksdb/src/lib.rs:513-553 | building the batch in any order is the batch-write step |
| `KvBuffer.Database.Get` | asb-backend/cfx-kvdb-rocksdb/src/lib.rs:615-645 | an uninterrupted read returns the view through the three layers |
| `KvBuffer.Database.Flush` | asb-backend/cfx-kvdb-rocksdb/src/lib.rs:557-573 | a flush moves exactly the view into the store |
| `Journals.ForkNodesBound` | asb-authdb/parity-journaldb/src/earlymergedb.rs:67-102 | a node of a fork is archived or inserted by one of its pending records |
| `Journals.ForkNodesExactly` | asb-authdb/parity-journaldb/src/earlymergedb.rs:67-102 | a fork holds exactly the nodes that its archive or some record brings in and that no later record deletes |
| `Journals.JournalContiguous` | asb-authdb/parity-journaldb/src/earlymergedb.rs:425-499 | journalling into a pending era or the next one leaves no gap |
| `Journals.MarkContiguous` | asb-authdb/parity-journaldb/src/earlymergedb.rs:501-580 | marking the earliest pending era leaves no gap |
| `EarlyMerge.ExpungeKeyOk` | asb-authdb/parity-journaldb/src/earlymergedb.rs:218-271 | enacting a delete takes the key out of the archive if and only if it was archived, or neither archived nor pending |
| `EarlyMerge.FinaliseKeyOk` | asb-authdb/parity-journaldb/src/earlymergedb.rs:530-566 | finalising an insert moves it to the archive if and only if it was not archived |
| `EarlyMerge.InsertKeys` | asb-authdb/parity-journaldb/src/earlymergedb.rs:151-190 | the loop adds one pending reference to every inserted key and stores the new ones |
| `EarlyMerge.RevertKeys` | asb-authdb/parity-journaldb/src/earlymergedb.rs:218-271 | the loop takes one pending reference from every reverted key, without panicking |
| `EarlyMerge.ReplayKeys` | asb-authdb/parity-journaldb/src/earlymergedb.rs:192-216 | the loop adds one record to the counts that are read back |
| `EarlyMerge.ForkReadable` | asb-authdb/parity-journaldb/src/earlymergedb.rs:67-102 | every node of every retained fork is in the backing store, with the value that its name says |
| `EarlyMerge.RecoveryExact` | asb-authdb/parity-journaldb/src/earlymergedb.rs:311-339 | reading the journal back gives the counts in memory if and only if no record with inserts lies beyond a gap |
| `EarlyMerge.EarlyMergeDb.JournalUnder` | asb-authdb/parity-journaldb/src/earlymergedb.rs:425-499 | writes one record of the overlay's inserts and removals in the first free slot and keeps the reference invariant |
| `EarlyMerge.EarlyMergeDb.MarkCanonical` | asb-authdb/parity-journaldb/src/earlymergedb.rs:501-580 | merges the canonical record: its inserts are archived, its deletes are not; the backing store then holds exactly the archived and the still pending nodes, and the era is dropped |
| `EarlyMerge.EarlyMergeDb.Get` | asb-authdb/parity-journaldb/src/earlymergedb.rs:343-350 | every archived or pending node that the overlay does not hide reads as its content |
| `EarlyMerge.EarlyMergeDb.ReadRefs` | asb-authdb/parity-journaldb/src/earlymergedb.rs:311-339 | the scan from the latest era down replays exactly the visited records |
| `EarlyMerge.EarlyMergeDb.Reopen` | asb-authdb/parity-journaldb/src/earlymergedb.rs:118-129 | reopening restores the counts if and only if the journal has no gap that hides inserts |
| `OverlayRecent.InsertAll` | asb-authdb/parity-journaldb/src/overlayrecentdb.rs:369-376 | counting a record in keeps overlay counts equal to pending inserts and the size equal to that of the distinct nodes |
| `OverlayRecent.RemoveAll` | asb-authdb/parity-journaldb/src/overlayrecentdb.rs:458-465 | taking references out keeps counts and size exact, and the size never goes below zero |
| `OverlayRecent.RecoveredExactly` | asb-authdb/parity-journaldb/src/overlayrecentdb.rs:187-253 | what is rebuilt from disk is the journal in memory if and only if the eras are contiguous, and then overlay and size agree too |
| `OverlayRecent.OverlayRecentDb.Get` | asb-authdb/parity-journaldb/src/overlayrecentdb.rs:536-559 | every archived or pending node reads as its content, a node in no layer reads as absent, and the read cache stays in agreement with the backing store |
| `OverlayRecent.OverlayRecentDb.Emplace` | asb-authdb/parity-journaldb/src/overlayrecentdb.rs:568-570 | an insert counts once in the open transaction and sets the value of a node not counted there |
| `OverlayRecent.OverlayRecentDb.ForkReadable` | asb-authdb/parity-journaldb/src/overlayrecentdb.rs:536-559 | every node of every retained fork is archived or pending |
| `OverlayRecent.OverlayRecentDb.FlushPending` | asb-authdb/parity-journaldb/src/overlayrecentdb.rs:487-489 | a flush empties the map of nodes on their way to the store and keeps the invariant, so reads stay right |
| `OverlayRecent.OverlayRecentDb.JournalUnder` | asb-authdb/parity-journaldb/src/overlayrecentdb.rs:335-403 | writes one record to both journals and keeps the invariant |
| `OverlayRecent.OverlayRecentDb.MarkCanonical` | asb-authdb/parity-journaldb/src/overlayrecentdb.rs:405-485 | the backing store gains exactly what the canonical record inserts and loses exactly what it deletes and no pending record still inserts; the era is forgotten and the invariant kept |
| `OverlayRecent.OverlayRecentDb.ReadOverlay` | asb-authdb/parity-journaldb/src/overlayrecentdb.rs:187-253 | the scan from the latest era down rebuilds overlay, size and journal of the visited records |
| `OverlayRecent.OverlayRecentDb.Reopen` | asb-authdb/parity-journaldb/src/overlayrecentdb.rs:159-168 | reopening restores the journal if and only if the eras are contiguous |
| `RefCounted.CommitToDisk` | asb-authdb/parity-journaldb/src/overlaydb.rs:105-138 | the merge succeeds if and only if no count goes below zero, and then adds the overlay's counts to the stored ones |
| `RefCounted.RcChanges` | asb-authdb/parity-journaldb/memory-db/src/lib.rs:268-297 | inserting and removing in the memory overlay change one key's count by one |
| `RefCounted.PendingDrop` | asb-authdb/parity-journaldb/src/refcounteddb.rs:195-231 | settling a record takes exactly its inserts out of the pending count |
| `RefCounted.RefCountedDb.Emplace` | asb-authdb/parity-journaldb/src/refcounteddb.rs:94-102 | an insert keeps the conservation of counts and the values of all counted nodes |
| `RefCounted.RefCountedDb.Get` | asb-authdb/parity-journaldb/src/refcounteddb.rs:86-88 | a node reads as its content if it is counted on disk and in the overlay together, and as absent otherwise |
| `RefCounted.RefCountedDb.JournalUnder` | asb-authdb/parity-journaldb/src/refcounteddb.rs:151-193 | journalling moves the open inserts to the pending ones and keeps the conservation of counts |
| `RefCounted.RefCountedDb.MarkCanonical` | asb-authdb/parity-journaldb/src/refcounteddb.rs:195-231 | settles an era: the archive gains the canonical inserts less its deletes; it fails if and only if some key would be counted below zero, and otherwise the stored count is archive plus pending plus open inserts |
| `RefCounted.RefCountedDb.Reopen` | asb-authdb/parity-journaldb/src/refcounteddb.rs:69-86 | reopening leaves each key short by exactly its inserts since the counts were last written, less the open ones; counts stay conserved if and only if these are equal |

## Left out

- Reopening an LVMT store and `flush_root`: runs start from an empty backend.
- LVMT proofs with a shard other than the root: the source panics there, and `LvmtDbs.LvmtDb.Prove` asks for the root shard.
- LVMT proofs with `only_merkle_root`: no levels are stored, so no proof can be read back.
- The cached powers of parameters (`get_idents_pow`, `get_quotient_pow`, `warm_quotient`): they return the same scalings.
- The write-back cache of a column (`storage/access.rs`) and its key layout: entries of an epoch are a map.
- `DEPTHS` below 8: the digit of a level is modelled for depths from 8 to 128, as the key code computes it.
- Hash functions: only that they have 32 bytes and are injective matters here.
- RainBlock `flush_all` and loading a trie back with `new`: they add writes of the top layers only.
- The occupied-child part of `insert_on_branch`: a search never stops at a branch that has the child.
- RainMpt.MerklePatriciaTree.Get: an empty key is excluded, since the source panics on it.
- TrieRun.RunResolves: is about runs whose commits are safe; which commits are is exact (`TrieRun.CommitKeeps`), and for the others the source may panic on a missing node.
- LvmtProof.ProofAccepted: the only-if half asks for regular parameters (every commitment base invertible, which `ProveParams.ParamsRegular` derives from tau) and versions below 2^64; without them `LvmtProof.ProofOpens` is exact.
- Amt.WriteVersionsConsistent: asks for the steps the store makes (one version counted up, or a slot opened at zero); what any other guarded write does is `Amt.WriteRepresents`.
- EarlyMerge.EarlyMergeDb.JournalUnder: asks that inserted nodes are named by their content, as the hash database does.
- RefCounted.RefCountedDb.Emplace: asks the same of the inserted value.
- Amt.OpeningRigid: asks for regular parameters and an invertible second base, which `ProveParams.FromPp` ensures.
- Interpolation.FftInverts: asks that the half power of the generator is -1, which primitivity means in a prime field.
- TrieLayers.GuardedIsClear: asks that no changed in-memory node shares its encoding with a stored one; without that `TrieLayers.CommitSafeExactly` is exact.
- LvmtFresh.AcceptedRecorded: asks that the epochs named by the proof were dumped, since the verifier is given their roots.
- `inject` of the journal databases, `keys`, sizes in bytes, and the null node of the memory overlay.
- EarlyMerge.EarlyMergeDb.MarkCanonical: asks that the canonical record deletes archived keys and inserts unarchived ones, as the code's own warnings demand.
- Reads of `OverlayRecentDB` between `mark_canonical` and the write of its batch: they can cache a node that the batch deletes.
- Failed writes, corruption, closing and restoring of the RocksDB wrapper, columns and statistics.
- `AmtDB`, `ArchiveDB`, the LMPT, raw and MPT wrappers, benchmarks and command line.
