/** Key proofs: one level per tree on the key's path, each with an opening of the tree and a
    Merkle proof of the leaf that recorded it. */
module LvmtProof {
  import opened Basics
  import opened Scalar
  import opened Bits
  import opened NodeIndices
  import opened ProveParams
  import opened VersionNode
  import opened Amt
  import opened Forest
  import opened ForestContent
  import opened ForestCommit
  import opened Lvmt
  import Merkle

  /** The Merkle column: the stored entries of each epoch. */
  type Column = map<nat, map<nat, Hash>>

  datatype LevelProof = LevelProof(
    merkleEpoch: nat,
    merkleProof: Merkle.Proof<Leaf>,
    amtProof: seq<AmtNode>,
    commitment: Point,
    nodeFr: nat,
    nodeVersion: nat)

  datatype KeyProof = KeyProof(value: Option<seq<Byte>>, info: VerInfo, levels: seq<LevelProof>)

  // ----- proving -----

  function ProveMerkle(column: Column, pos: EpochPosition): Merkle.Proof<Leaf> {
    var entries := if pos.epoch in column then column[pos.epoch] else map[];
    var depth := Merkle.Lookup(entries, 0);
    Merkle.Proof(Merkle.PathOf(entries, if depth.Word? then depth.n else 0, pos.position), pos.position)
  }

  function ProveLevel(depths: nat, column: Column, tree: Tree, index: nat, pos: EpochPosition, version: nat): LevelProof
    requires tree.commitment.Some?
  {
    LevelProof(pos.epoch, ProveMerkle(column, pos), Prove(depths, tree, index),
               tree.commitment.value, Packed(DataAt(tree, index)), version)
  }

  /** The tree of a key at one of its levels. */
  ghost predicate OnPath(cfg: Config, f: Forest, key: Key, level: nat)
    requires ValidConfig(cfg)
  {
    var name := TreeAtLevel(cfg.pp.depths, key, level);
    name in f.trees && f.trees[name].tree.commitment.Some?
  }

  ghost function PathTree(cfg: Config, f: Forest, key: Key, level: nat): Tree
    requires ValidConfig(cfg) && OnPath(cfg, f, key, level)
  {
    f.trees[TreeAtLevel(cfg.pp.depths, key, level)].tree
  }

  ghost function PathNode(cfg: Config, f: Forest, key: Key, level: nat): Node
    requires ValidConfig(cfg) && OnPath(cfg, f, key, level)
  {
    DataAt(PathTree(cfg, f, key, level), IndexAtLevel(cfg.pp.depths, key, level))
  }

  /** The proof of one level: the bottom one rests on the key's leaf, the others on their subtree's. */
  ghost function LevelOf(cfg: Config, db: Db, column: Column, key: Key, level: nat): LevelProof
    requires ValidConfig(cfg) && key in db.keys && OnPath(cfg, db.forest, key, level)
    requires level == db.keys[key].version.level ==>
      db.keys[key].version.slot < |PathNode(cfg, db.forest, key, level).keyVersions|
  {
    var v, tree, node := db.keys[key], PathTree(cfg, db.forest, key, level), PathNode(cfg, db.forest, key, level);
    var index := IndexAtLevel(cfg.pp.depths, key, level);
    if level == v.version.level then
      ProveLevel(cfg.pp.depths, column, tree, index, v.position, node.keyVersions[v.version.slot])
    else
      ProveLevel(cfg.pp.depths, column, tree, index, node.treePosition, node.treeVersion)
  }

  ghost predicate Provable(cfg: Config, db: Db, key: Key)
    requires ValidConfig(cfg)
  {
    && key in db.keys
    && (forall level: nat :: level <= db.keys[key].version.level ==> OnPath(cfg, db.forest, key, level))
    && db.keys[key].version.slot < |PathNode(cfg, db.forest, key, db.keys[key].version.level).keyVersions|
  }

  ghost function ProveKey(cfg: Config, db: Db, column: Column, key: Key): (proof: KeyProof)
    requires ValidConfig(cfg) && Provable(cfg, db, key)
  {
    var v := db.keys[key];
    KeyProof(Some(v.value), v.version,
             seq(v.version.level + 1, l requires 0 <= l <= v.version.level => LevelOf(cfg, db, column, key, l)))
  }

  // ----- verifying -----

  ghost predicate AmtChecks(pp: AmtParams, key: Key, proof: KeyProof, l: nat)
    requires Shaped(pp) && ValidDepths(pp.depths) && l < |proof.levels|
  {
    var p := proof.levels[l];
    |p.amtProof| <= pp.depths && Amt.Verifies(pp, IndexAtLevel(pp.depths, key, l), p.nodeFr, p.commitment, p.amtProof)
  }

  ghost predicate LeafChecks(proof: KeyProof, l: nat, roots: nat -> Hash, leaf: Leaf)
    requires l < |proof.levels|
  {
    var p := proof.levels[l];
    Merkle.Verifies(roots(p.merkleEpoch), Merkle.Digest(leaf), p.merkleProof)
  }

  /** The leaf that level `l` claims for the tree below it. */
  ghost function ClaimedSubtree(depths: nat, key: Key, proof: KeyProof, l: nat): Leaf
    requires ValidDepths(depths) && l + 1 < |proof.levels|
  {
    TreeLeaf(TreeAtLevel(depths, key, l + 1), proof.levels[l].nodeVersion, proof.levels[l + 1].commitment)
  }

  /** The claimed versions are those packed in the opened scalars. */
  ghost predicate VersionChecks(proof: KeyProof)
    requires |proof.levels| >= 1
  {
    var last := |proof.levels| - 1;
    && FrVersion(proof.levels[last].nodeFr, proof.info.slot + 1) == proof.levels[last].nodeVersion
    && forall l :: 0 <= l < last ==> FrVersion(proof.levels[l].nodeFr, 0) == proof.levels[l].nodeVersion
  }

  /** Everything the verifier checks. */
  ghost predicate Accepts(pp: AmtParams, key: Key, proof: KeyProof, roots: nat -> Hash)
    requires Shaped(pp) && ValidDepths(pp.depths) && |proof.levels| >= 1
  {
    var last := |proof.levels| - 1;
    && (forall l :: 0 <= l <= last ==> AmtChecks(pp, key, proof, l))
    && (proof.value.Some? ==> LeafChecks(proof, last, roots, KeyLeaf(key, proof.info, proof.value.value)))
    && (forall l :: 0 <= l < last ==> LeafChecks(proof, l, roots, ClaimedSubtree(pp.depths, key, proof, l)))
    && VersionChecks(proof)
  }

  // ----- completeness -----

  /** A live tree's parent is live, and has heard of it. */
  lemma LiveUp(cfg: Config, db: Db, name: Name, index: nat)
    requires ValidConfig(cfg) && Invariant(cfg, db)
    requires name + [index] in db.forest.trees && Live(db.forest, name + [index])
    ensures name in db.forest.trees && db.forest.trees[name].tree.commitment.Some?
    ensures TreeVersion(db.forest, name, index) > 0 && Live(db.forest, name)
  {
    ParentOfChild(name, index);
    assert NodeContent(cfg, db.forest, db.history, [], None, name + [index]);
    assert NodeContent(cfg, db.forest, db.history, [], None, name);
  }

  /** Every level of the path lives in the forest and has reached its parent. */
  lemma {:induction false} PathLive(cfg: Config, db: Db, key: Key, bottom: nat, level: nat)
    requires ValidConfig(cfg) && Invariant(cfg, db) && level <= bottom
    requires TreeAtLevel(cfg.pp.depths, key, bottom) in db.forest.trees
    requires Live(db.forest, TreeAtLevel(cfg.pp.depths, key, bottom))
    ensures OnPath(cfg, db.forest, key, level)
    ensures level < bottom ==> OnPath(cfg, db.forest, key, level) && PathNode(cfg, db.forest, key, level).treeVersion > 0
    ensures Live(db.forest, TreeAtLevel(cfg.pp.depths, key, level))
    decreases bottom - level
  {
    var f, name := db.forest, TreeAtLevel(cfg.pp.depths, key, level);
    if level < bottom {
      PathLive(cfg, db, key, bottom, level + 1);
      LiveUp(cfg, db, name, IndexAtLevel(cfg.pp.depths, key, level));
    } else {
      assert NodeContent(cfg, f, db.history, [], None, name);
    }
  }

  lemma KeyProvable(cfg: Config, db: Db, key: Key)
    requires ValidConfig(cfg) && Invariant(cfg, db) && key in db.keys
    ensures Provable(cfg, db, key)
  {
    var v := db.keys[key];
    assert KeyRecorded(cfg, db.forest, db.history, [], key, v);
    forall level: nat | level <= v.version.level ensures OnPath(cfg, db.forest, key, level) {
      PathLive(cfg, db, key, v.version.level, level);
    }
  }

  /** The dumped epochs agree with the ledger, and the roots are theirs. */
  ghost predicate Dumped(history: Ledger, column: Column, roots: nat -> Hash) {
    forall e :: 0 <= e < |history| ==>
      e in column && Merkle.Stores(column[e], Hashes(history[e])) && roots(e) == Merkle.Root(Hashes(history[e]))
  }

  /** A leaf recorded in the ledger has a Merkle proof: digests are never the all-zero word. */
  lemma LeafProved(history: Ledger, column: Column, roots: nat -> Hash, pos: EpochPosition, leaf: Leaf)
    requires Dumped(history, column, roots) && Recorded(history, [], pos, leaf)
    ensures Merkle.Verifies(roots(pos.epoch), Merkle.Digest(leaf), ProveMerkle(column, pos))
  {
    var leaves := Hashes(history[pos.epoch]);
    Merkle.ProofVerifies(column[pos.epoch], leaves, pos.position);
    assert leaves[pos.position] == Merkle.Digest(leaf);
    assert FlipLow(pos.position) < |leaves| ==> leaves[FlipLow(pos.position)].Digest?;
  }

  /** The versions on the key's path that the verifier reads back from packed scalars. */
  ghost predicate VersionsFit(cfg: Config, db: Db, key: Key)
    requires ValidConfig(cfg) && Provable(cfg, db, key)
  {
    var info := db.keys[key].version;
    && PathNode(cfg, db.forest, key, info.level).keyVersions[info.slot] < VERSION_SPAN
    && forall l :: 0 <= l < info.level ==> PathNode(cfg, db.forest, key, l).treeVersion < VERSION_SPAN
  }

  /** At level `l` the wraps of the key's node vanish in the group. */
  ghost predicate OpensAt(cfg: Config, f: Forest, key: Key, l: nat)
    requires ValidConfig(cfg) && OnPath(cfg, f, key, l)
  {
    Scale(Wraps(Versions(PathNode(cfg, f, key, l))), cfg.pp.commitments[IndexAtLevel(cfg.pp.depths, key, l)]) == 0
  }

  ghost predicate PathOpens(cfg: Config, db: Db, key: Key)
    requires ValidConfig(cfg) && Provable(cfg, db, key)
  {
    forall l: nat :: l <= db.keys[key].version.level ==> OpensAt(cfg, db.forest, key, l)
  }

  /** Every version of every node on the key's path fits its 40 bits. */
  ghost predicate PathFits(cfg: Config, db: Db, key: Key)
    requires ValidConfig(cfg) && Provable(cfg, db, key)
  {
    forall l: nat :: l <= db.keys[key].version.level ==> AllFit(Versions(PathNode(cfg, db.forest, key, l)))
  }

  /** The versions on the key's path are unsigned 64-bit integers. */
  ghost predicate PathCounters(cfg: Config, db: Db, key: Key)
    requires ValidConfig(cfg) && Provable(cfg, db, key)
  {
    forall l: nat :: l <= db.keys[key].version.level ==> Counters64(PathNode(cfg, db.forest, key, l))
  }

  lemma AmtLevelChecks(cfg: Config, db: Db, column: Column, key: Key, l: nat)
    requires RootShard(cfg) && Factors(cfg.pp) && Invariant(cfg, db) && Provable(cfg, db, key)
    requires l <= db.keys[key].version.level && OnPath(cfg, db.forest, key, l)
    ensures AmtChecks(cfg.pp, key, ProveKey(cfg, db, column, key), l) <==> OpensAt(cfg, db.forest, key, l)
  {
    var tree, index := PathTree(cfg, db.forest, key, l), IndexAtLevel(cfg.pp.depths, key, l);
    assert NodeContent(cfg, db.forest, db.history, [], None, TreeAtLevel(cfg.pp.depths, key, l));
    DataOpens(cfg.pp, tree, index);
    assert ProveKey(cfg, db, column, key).levels[l] == LevelOf(cfg, db, column, key, l);
  }

  /** A path whose versions all fit opens, and its versions are read back. */
  lemma FitsOpens(cfg: Config, db: Db, key: Key)
    requires ValidConfig(cfg) && Provable(cfg, db, key) && PathFits(cfg, db, key)
    ensures VersionsFit(cfg, db, key) && PathOpens(cfg, db, key)
  {
    var info := db.keys[key].version;
    forall l: nat | l <= info.level
      ensures OpensAt(cfg, db.forest, key, l)
      ensures PathNode(cfg, db.forest, key, l).treeVersion < VERSION_SPAN
    {
      assert OnPath(cfg, db.forest, key, l);
      var vs := Versions(PathNode(cfg, db.forest, key, l));
      assert AllFit(vs) && vs[0] < VERSION_SPAN;
      WrapsNone(vs);
    }
    var vs := Versions(PathNode(cfg, db.forest, key, info.level));
    assert AllFit(vs) && vs[info.slot + 1] < VERSION_SPAN;
  }

  /** With regular parameters a path opens only if its versions all fit. */
  lemma OpensFits(cfg: Config, db: Db, key: Key)
    requires ValidConfig(cfg) && Regular(cfg.pp) && Invariant(cfg, db) && Provable(cfg, db, key)
    requires PathCounters(cfg, db, key) && PathOpens(cfg, db, key)
    ensures PathFits(cfg, db, key)
  {
    forall l: nat | l <= db.keys[key].version.level ensures AllFit(Versions(PathNode(cfg, db.forest, key, l))) {
      assert OnPath(cfg, db.forest, key, l) && OpensAt(cfg, db.forest, key, l);
      var node := PathNode(cfg, db.forest, key, l);
      assert Counters64(node) && WellFormedNode(node) by {
        assert WellFormedData(db.forest.trees[TreeAtLevel(cfg.pp.depths, key, l)].tree);
      }
      WrapsVanish(cfg.pp, IndexAtLevel(cfg.pp.depths, key, l), node);
    }
  }

  /** Each tree on the path is recorded in the ledger, at its current commitment, under the
      version and position its parent holds. */
  lemma SubtreeRecorded(cfg: Config, db: Db, key: Key, l: nat)
    requires RootShard(cfg) && Invariant(cfg, db) && Provable(cfg, db, key)
    requires l < db.keys[key].version.level
    ensures
      var node, child := PathNode(cfg, db.forest, key, l), TreeAtLevel(cfg.pp.depths, key, l + 1);
      Recorded(db.history, [], node.treePosition,
               TreeLeaf(child, node.treeVersion, PathTree(cfg, db.forest, key, l + 1).commitment.value))
  {
    var f, bottom := db.forest, db.keys[key].version.level;
    assert KeyRecorded(cfg, f, db.history, [], key, db.keys[key]);
    PathLive(cfg, db, key, bottom, l);
    var name, child := TreeAtLevel(cfg.pp.depths, key, l), TreeAtLevel(cfg.pp.depths, key, l + 1);
    ParentOfChild(name, IndexAtLevel(cfg.pp.depths, key, l));
    assert OnPath(cfg, f, key, l + 1);
    assert NodeContent(cfg, f, db.history, [], None, child);
    assert Linked(f, db.history, [], child);
  }

  lemma SubtreeLeafChecks(cfg: Config, db: Db, column: Column, roots: nat -> Hash, key: Key, l: nat)
    requires RootShard(cfg) && Invariant(cfg, db) && Provable(cfg, db, key) && Dumped(db.history, column, roots)
    requires l < db.keys[key].version.level
    ensures
      var proof := ProveKey(cfg, db, column, key);
      LeafChecks(proof, l, roots, ClaimedSubtree(cfg.pp.depths, key, proof, l))
  {
    SubtreeRecorded(cfg, db, key, l);
    assert OnPath(cfg, db.forest, key, l) && OnPath(cfg, db.forest, key, l + 1);
    var node, child := PathNode(cfg, db.forest, key, l), TreeAtLevel(cfg.pp.depths, key, l + 1);
    var proof := ProveKey(cfg, db, column, key);
    assert proof.levels[l] == LevelOf(cfg, db, column, key, l);
    assert proof.levels[l + 1] == LevelOf(cfg, db, column, key, l + 1);
    LeafProved(db.history, column, roots, node.treePosition,
               TreeLeaf(child, node.treeVersion, PathTree(cfg, db.forest, key, l + 1).commitment.value));
  }

  lemma KeyLeafChecks(cfg: Config, db: Db, column: Column, roots: nat -> Hash, key: Key)
    requires ValidConfig(cfg) && Invariant(cfg, db) && Provable(cfg, db, key) && Dumped(db.history, column, roots)
    ensures
      var proof, v := ProveKey(cfg, db, column, key), db.keys[key];
      LeafChecks(proof, v.version.level, roots, KeyLeaf(key, v.version, v.value))
  {
    var v := db.keys[key];
    assert KeyRecorded(cfg, db.forest, db.history, [], key, v);
    LeafProved(db.history, column, roots, v.position, KeyLeaf(key, v.version, v.value));
    assert ProveKey(cfg, db, column, key).levels[v.version.level] == LevelOf(cfg, db, column, key, v.version.level);
  }

  /** The version checks of a generated proof pass exactly when the versions fit. */
  lemma VersionsChecked(cfg: Config, db: Db, column: Column, key: Key)
    requires ValidConfig(cfg) && Provable(cfg, db, key)
    ensures VersionChecks(ProveKey(cfg, db, column, key)) <==> VersionsFit(cfg, db, key)
  {
    var proof, v := ProveKey(cfg, db, column, key), db.keys[key];
    var last := v.version.level;
    UnpackNode(PathNode(cfg, db.forest, key, last), v.version.slot + 1);
    assert proof.levels[last] == LevelOf(cfg, db, column, key, last);
    forall l: nat | l < last
      ensures proof.levels[l].nodeVersion == PathNode(cfg, db.forest, key, l).treeVersion
      ensures FrVersion(proof.levels[l].nodeFr, 0) == proof.levels[l].nodeVersion
         <==> PathNode(cfg, db.forest, key, l).treeVersion < VERSION_SPAN
    {
      assert OnPath(cfg, db.forest, key, l);
      UnpackNode(PathNode(cfg, db.forest, key, l), 0);
      assert proof.levels[l] == LevelOf(cfg, db, column, key, l);
    }
  }

  /** The proof of every key ever committed is accepted if and only if the claimed versions fit
      their 40 bits and no wrap of a node on the path shows in its commitment. */
  lemma ProofOpens(cfg: Config, db: Db, column: Column, roots: nat -> Hash, key: Key)
    requires RootShard(cfg) && Factors(cfg.pp) && Invariant(cfg, db) && key in db.keys
    requires Dumped(db.history, column, roots) && Provable(cfg, db, key)
    ensures Accepts(cfg.pp, key, ProveKey(cfg, db, column, key), roots)
       <==> VersionsFit(cfg, db, key) && PathOpens(cfg, db, key)
  {
    var proof, v := ProveKey(cfg, db, column, key), db.keys[key];
    var last := v.version.level;
    forall l: nat | l <= last
      ensures OnPath(cfg, db.forest, key, l) && (AmtChecks(cfg.pp, key, proof, l) <==> OpensAt(cfg, db.forest, key, l))
    {
      AmtLevelChecks(cfg, db, column, key, l);
    }
    KeyLeafChecks(cfg, db, column, roots, key);
    forall l | 0 <= l < last ensures LeafChecks(proof, l, roots, ClaimedSubtree(cfg.pp.depths, key, proof, l)) {
      SubtreeLeafChecks(cfg, db, column, roots, key, l);
    }
    VersionsChecked(cfg, db, column, key);
  }

  /** The proof is of this value, at this slot, with one level for each tree down to it. */
  predicate Claims(proof: KeyProof, v: Value) {
    proof.value == Some(v.value) && proof.info == v.version && |proof.levels| == v.version.level + 1
  }

  /** When the verifier accepts the proof of a key. */
  ghost predicate AcceptedExactly(cfg: Config, db: Db, key: Key, proof: KeyProof, roots: nat -> Hash)
    requires ValidConfig(cfg) && Provable(cfg, db, key) && |proof.levels| >= 1
  {
    && (Accepts(cfg.pp, key, proof, roots) <==> VersionsFit(cfg, db, key) && PathOpens(cfg, db, key))
    && (PathFits(cfg, db, key) ==> Accepts(cfg.pp, key, proof, roots))
    && (Regular(cfg.pp) && PathCounters(cfg, db, key) && Accepts(cfg.pp, key, proof, roots) ==> PathFits(cfg, db, key))
  }

  /** Completeness: the proof of every key ever committed is accepted if, and with regular
      parameters only if, every version of the nodes on its path fits 40 bits. */
  lemma ProofAccepted(cfg: Config, db: Db, column: Column, roots: nat -> Hash, key: Key)
    requires RootShard(cfg) && Factors(cfg.pp) && Invariant(cfg, db) && key in db.keys
    requires Dumped(db.history, column, roots)
    ensures Provable(cfg, db, key)
    ensures Claims(ProveKey(cfg, db, column, key), db.keys[key])
    ensures AcceptedExactly(cfg, db, key, ProveKey(cfg, db, column, key), roots)
  {
    KeyProvable(cfg, db, key);
    ProofOpens(cfg, db, column, roots, key);
    if PathFits(cfg, db, key) { FitsOpens(cfg, db, key); }
    if Regular(cfg.pp) && PathCounters(cfg, db, key) && PathOpens(cfg, db, key) { OpensFits(cfg, db, key); }
  }

  /** Completeness over runs: after any batches, in any order and with any repetitions. */
  lemma RunComplete(cfg: Config, batches: seq<seq<Write>>, column: Column, roots: nat -> Hash, key: Key)
    requires RootShard(cfg) && Factors(cfg.pp)
    requires Run(cfg, batches).Some? && key in Run(cfg, batches).value.keys
    requires Dumped(Run(cfg, batches).value.history, column, roots)
    ensures
      var db := Run(cfg, batches).value;
      && Provable(cfg, db, key) && Claims(ProveKey(cfg, db, column, key), db.keys[key])
      && AcceptedExactly(cfg, db, key, ProveKey(cfg, db, column, key), roots)
  {
    ProofAccepted(cfg, Run(cfg, batches).value, column, roots, key);
  }

  /** The proof with another proof point in one node of one opening. */
  function WithPoint(proof: KeyProof, l: nat, i: nat, x: Point): KeyProof
    requires l < |proof.levels| && i < |proof.levels[l].amtProof|
  {
    var p := proof.levels[l];
    proof.(levels := proof.levels[l := p.(amtProof := p.amtProof[i := p.amtProof[i].(proof := x)])])
  }

  /** In an accepted proof no point of an opening can be exchanged. */
  lemma PointExact(pp: AmtParams, key: Key, proof: KeyProof, roots: nat -> Hash, l: nat, i: nat, x: Point)
    requires Shaped(pp) && ValidDepths(pp.depths) && Factors(pp) && Regular(pp) && Unit(pp.g2)
    requires |proof.levels| >= 1 && Accepts(pp, key, proof, roots)
    requires l < |proof.levels| && i < |proof.levels[l].amtProof|
    ensures Accepts(pp, key, WithPoint(proof, l, i, x), roots) <==> x == proof.levels[l].amtProof[i].proof
  {
    var p, other := proof.levels[l], WithPoint(proof, l, i, x);
    assert AmtChecks(pp, key, proof, l);
    ProofPointExact(pp, IndexAtLevel(pp.depths, key, l), p.nodeFr, p.commitment, p.amtProof, i, x);
    if x == p.amtProof[i].proof {
      assert p.amtProof[i := p.amtProof[i].(proof := x)] == p.amtProof;
      assert other == proof;
    } else {
      assert !AmtChecks(pp, key, other, l);
    }
  }
}
