/** What an accepted key proof says, and what it does not: its leaves are in the ledger, but the
    verifier never compares the version in the key's leaf with the version opened at the bottom
    node, so an earlier leaf of the key passes as well. */
module LvmtFresh {
  import opened Basics
  import opened Scalar
  import opened Bits
  import opened ProveParams
  import opened VersionNode
  import opened Amt
  import opened Forest
  import opened ForestContent
  import opened ForestCommit
  import opened Lvmt
  import opened LvmtProof
  import opened LvmtSlots
  import Merkle

  // ----- what acceptance says -----

  lemma LeafRecorded(history: Ledger, column: Column, roots: nat -> Hash, epoch: nat, leaf: Leaf, proof: Merkle.Proof<Leaf>)
    returns (pos: EpochPosition)
    requires Dumped(history, column, roots) && epoch < |history|
    requires Merkle.Verifies(roots(epoch), Merkle.Digest(leaf), proof)
    ensures Recorded(history, [], pos, leaf) && pos.epoch == epoch
  {
    var i := Merkle.AcceptedIsLeaf(history[epoch], Hashes(history[epoch]), leaf, proof);
    pos := EpochPosition(epoch, i);
  }

  ghost predicate InLedger(history: Ledger, leaf: Leaf) {
    exists pos :: Recorded(history, [], pos, leaf)
  }

  /** Soundness for every proof, however made: what an accepted proof claims of the key and of every
      tree on its path was recorded in the epochs it names. */
  lemma AcceptedRecorded(
      pp: AmtParams, key: Key, proof: KeyProof, history: Ledger, column: Column, roots: nat -> Hash)
    requires Shaped(pp) && ValidDepths(pp.depths) && |proof.levels| >= 1 && Accepts(pp, key, proof, roots)
    requires Dumped(history, column, roots) && forall l :: 0 <= l < |proof.levels| ==> proof.levels[l].merkleEpoch < |history|
    ensures proof.value.Some? ==> InLedger(history, KeyLeaf(key, proof.info, proof.value.value))
    ensures forall l :: 0 <= l < |proof.levels| - 1 ==> InLedger(history, ClaimedSubtree(pp.depths, key, proof, l))
  {
    var last := |proof.levels| - 1;
    if proof.value.Some? {
      var leaf, p := KeyLeaf(key, proof.info, proof.value.value), proof.levels[last];
      var pos := LeafRecorded(history, column, roots, p.merkleEpoch, leaf, p.merkleProof);
    }
    forall l | 0 <= l < last ensures InLedger(history, ClaimedSubtree(pp.depths, key, proof, l)) {
      var p := proof.levels[l];
      assert LeafChecks(proof, l, roots, ClaimedSubtree(pp.depths, key, proof, l));
      var pos := LeafRecorded(history, column, roots, p.merkleEpoch, ClaimedSubtree(pp.depths, key, proof, l), p.merkleProof);
    }
  }

  // ----- replaying a leaf -----

  /** The current levels of a key, with some leaf and its Merkle proof at the bottom. */
  ghost function Replayed(
      cfg: Config, db: Db, column: Column, key: Key, info: VerInfo, value: seq<Byte>, pos: EpochPosition)
    : (proof: KeyProof)
    requires ValidConfig(cfg) && Provable(cfg, db, key)
    ensures |proof.levels| == db.keys[key].version.level + 1
  {
    var levels := ProveKey(cfg, db, column, key).levels;
    var last := |levels| - 1;
    KeyProof(Some(value), info,
             levels[last := levels[last].(merkleEpoch := pos.epoch, merkleProof := ProveMerkle(column, pos))])
  }

  /** The leaf sits where the key's slot is. */
  ghost predicate SamePlace(a: VerInfo, b: VerInfo) {
    a.level == b.level && a.slot == b.slot
  }

  lemma ReplayedLevels(
      cfg: Config, db: Db, column: Column, roots: nat -> Hash, key: Key, info: VerInfo, value: seq<Byte>,
      pos: EpochPosition, l: nat)
    requires ValidConfig(cfg) && Provable(cfg, db, key) && l <= db.keys[key].version.level
    ensures
      var proof, now := Replayed(cfg, db, column, key, info, value, pos), ProveKey(cfg, db, column, key);
      && (AmtChecks(cfg.pp, key, proof, l) <==> AmtChecks(cfg.pp, key, now, l))
      && (l < db.keys[key].version.level ==>
            (LeafChecks(proof, l, roots, ClaimedSubtree(cfg.pp.depths, key, proof, l))
             <==> LeafChecks(now, l, roots, ClaimedSubtree(cfg.pp.depths, key, now, l))))
  {
  }

  lemma ReplayedVersions(
      cfg: Config, db: Db, column: Column, key: Key, info: VerInfo, value: seq<Byte>, pos: EpochPosition)
    requires ValidConfig(cfg) && Provable(cfg, db, key) && SamePlace(info, db.keys[key].version)
    ensures VersionChecks(Replayed(cfg, db, column, key, info, value, pos)) <==> VersionChecks(ProveKey(cfg, db, column, key))
  {
    var proof, now := Replayed(cfg, db, column, key, info, value, pos), ProveKey(cfg, db, column, key);
    forall l | 0 <= l < |now.levels|
      ensures proof.levels[l].nodeFr == now.levels[l].nodeFr && proof.levels[l].nodeVersion == now.levels[l].nodeVersion
    {
    }
  }

  /** Whatever leaf of the key was ever recorded at the key's slot, its replay is accepted exactly
      when the proof of the current value is. */
  lemma ReplayAccepted(
      cfg: Config, db: Db, column: Column, roots: nat -> Hash, key: Key, info: VerInfo, value: seq<Byte>,
      pos: EpochPosition)
    requires ValidConfig(cfg) && Invariant(cfg, db) && Provable(cfg, db, key) && Dumped(db.history, column, roots)
    requires SamePlace(info, db.keys[key].version) && Recorded(db.history, [], pos, KeyLeaf(key, info, value))
    ensures Accepts(cfg.pp, key, Replayed(cfg, db, column, key, info, value, pos), roots)
       <==> Accepts(cfg.pp, key, ProveKey(cfg, db, column, key), roots)
  {
    var proof, now := Replayed(cfg, db, column, key, info, value, pos), ProveKey(cfg, db, column, key);
    var last := db.keys[key].version.level;
    forall l: nat | l <= last
      ensures AmtChecks(cfg.pp, key, proof, l) <==> AmtChecks(cfg.pp, key, now, l)
      ensures l < last ==>
        (LeafChecks(proof, l, roots, ClaimedSubtree(cfg.pp.depths, key, proof, l))
         <==> LeafChecks(now, l, roots, ClaimedSubtree(cfg.pp.depths, key, now, l)))
    {
      ReplayedLevels(cfg, db, column, roots, key, info, value, pos, l);
    }
    ReplayedVersions(cfg, db, column, key, info, value, pos);
    LeafProved(db.history, column, roots, pos, KeyLeaf(key, info, value));
    KeyLeafChecks(cfg, db, column, roots, key);
  }

  // ----- the leaves of a key -----

  /** A recorded leaf of a key is the current one, or sits at the same slot with a lower version. */
  ghost predicate Past(keys: map<Key, Value>, leaf: Leaf) {
    leaf.KeyLeaf? ==>
      && leaf.key in keys
      && var v := keys[leaf.key];
      && SamePlace(leaf.info, v.version) && leaf.info.version <= v.version.version
      && (leaf.info.version == v.version.version ==> leaf.value == v.value)
  }

  ghost predicate AllPast(keys: map<Key, Value>, leaves: seq<Leaf>) {
    forall i :: 0 <= i < |leaves| ==> Past(keys, leaves[i])
  }

  ghost predicate LedgerPast(keys: map<Key, Value>, hist: Ledger) {
    forall e :: 0 <= e < |hist| ==> AllPast(keys, hist[e])
  }

  /** A key's next version, above all it had. */
  ghost predicate Supersedes(keys: map<Key, Value>, key: Key, v: Value) {
    key in keys ==> SamePlace(v.version, keys[key].version) && v.version.version > keys[key].version.version
  }

  lemma PastGrows(keys: map<Key, Value>, leaves: seq<Leaf>, key: Key, v: Value)
    requires AllPast(keys, leaves) && Supersedes(keys, key, v)
    ensures AllPast(keys[key := v], leaves)
  {
    forall i | 0 <= i < |leaves| ensures Past(keys[key := v], leaves[i]) {
      assert Past(keys, leaves[i]);
    }
  }

  lemma IncSupersedes(cfg: Config, f: Forest, key: Key, before: VerInfo)
    requires ValidConfig(cfg) && Healthy(f)
    ensures
      var r := IncKeyVer(cfg, f, key, Some(before));
      r.Some? ==> r.value.1 == before.(version := before.version + 1)
  {
  }

  /** One write of a batch, for a key not yet written in it. */
  lemma WriteOnePast(cfg: Config, keys: map<Key, Value>, hist: Ledger, b: Batch, w: Write)
    requires ValidConfig(cfg) && Healthy(b.forest) && w.key !in b.written
    requires LedgerPast(keys + b.written, hist) && AllPast(keys + b.written, b.leaves)
    ensures
      var r := WriteOne(cfg, keys, |hist|, b, w);
      r.Some? ==> LedgerPast(keys + r.value.written, hist) && AllPast(keys + r.value.written, r.value.leaves)
  {
    var r := WriteOne(cfg, keys, |hist|, b, w);
    if r.Some? {
      if w.key in keys { IncSupersedes(cfg, b.forest, w.key, keys[w.key].version); }
      WrittenPast(keys, hist, b.written, b.leaves, w, r.value.written[w.key]);
    }
  }

  lemma WrittenPast(keys: map<Key, Value>, hist: Ledger, written: map<Key, Value>, leaves: seq<Leaf>, w: Write, v: Value)
    requires LedgerPast(keys + written, hist) && AllPast(keys + written, leaves)
    requires Supersedes(keys + written, w.key, v) && v.value == w.value
    ensures LedgerPast(keys + written[w.key := v], hist)
    ensures AllPast(keys + written[w.key := v], leaves + [KeyLeaf(w.key, v.version, w.value)])
  {
    UpdateMerged(keys, written, w.key, v);
    forall e | 0 <= e < |hist| ensures AllPast((keys + written)[w.key := v], hist[e]) {
      PastGrows(keys + written, hist[e], w.key, v);
    }
    PastGrows(keys + written, leaves, w.key, v);
  }

  lemma {:induction false} WriteAllPast(cfg: Config, keys: map<Key, Value>, hist: Ledger, b: Batch, ws: seq<Write>)
    requires ValidConfig(cfg) && Healthy(b.forest)
    requires DistinctKeys(ws) && forall i :: 0 <= i < |ws| ==> ws[i].key !in b.written
    requires LedgerPast(keys + b.written, hist) && AllPast(keys + b.written, b.leaves)
    ensures
      var r := WriteAll(cfg, keys, |hist|, b, ws);
      r.Some? ==> LedgerPast(keys + r.value.written, hist) && AllPast(keys + r.value.written, r.value.leaves)
    decreases |ws|
  {
    if ws != [] {
      WriteOnePast(cfg, keys, hist, b, ws[0]);
      var b1 := WriteOne(cfg, keys, |hist|, b, ws[0]);
      if b1.Some? { WriteAllPast(cfg, keys, hist, b1.value, ws[1..]); }
    }
  }

  /** A commit of the forest appends leaves of trees only. */
  ghost predicate OnlyTrees(p: Progress, p': Progress) {
    |p.leaves| <= |p'.leaves| && p'.leaves[..|p.leaves|] == p.leaves
    && forall i :: |p.leaves| <= i < |p'.leaves| ==> p'.leaves[i].TreeLeaf?
  }

  lemma OnlyTreesTransitive(p: Progress, p1: Progress, p2: Progress)
    requires OnlyTrees(p, p1) && OnlyTrees(p1, p2)
    ensures OnlyTrees(p, p2)
  {
    forall i | |p.leaves| <= i < |p2.leaves| ensures p2.leaves[i].TreeLeaf? {
      if i < |p1.leaves| { assert p2.leaves[..|p1.leaves|][i] == p1.leaves[i]; }
    }
    assert p2.leaves[..|p.leaves|] == p2.leaves[..|p1.leaves|][..|p.leaves|];
  }

  lemma {:induction false} CommitOnlyTrees(cfg: Config, p: Progress, name: Name, epoch: nat)
    requires Ready(cfg, p, name)
    ensures OnlyTrees(p, CommitTree(cfg, p, name, epoch).0)
    decreases p.forest.layers - |name|, |p.forest.trees[name].marks| + 1
  {
    var marks := p.forest.trees[name].marks;
    AscendingLength(marks);
    assert ClosedAt(cfg, p.forest, name);
    ChildrenOnlyTrees(cfg, p, name, Ascending(marks), epoch);
  }

  lemma {:induction false} ChildrenOnlyTrees(cfg: Config, p: Progress, name: Name, indices: seq<nat>, epoch: nat)
    requires ReadyFor(cfg, p, name, indices)
    ensures OnlyTrees(p, CommitChildren(cfg, p, name, indices, epoch))
    decreases p.forest.layers - |name|, |indices|
  {
    if indices != [] {
      var child := name + [indices[0]];
      assert indices[0] in Elements(indices);
      assert ClosedAt(cfg, p.forest, child);
      CommitOnlyTrees(cfg, p, child, epoch);
      var (p1, dirty, commitment) := CommitTree(cfg, p, child, epoch);
      var p2 := if dirty then ChildPushed(cfg, p1, name, indices[0], commitment, epoch) else p1;
      assert OnlyTrees(p1, p2);
      OnlyTreesTransitive(p, p1, p2);
      RestReady(cfg, p, p2, name, indices);
      ChildrenOnlyTrees(cfg, p2, name, indices[1..], epoch);
      OnlyTreesTransitive(p, p2, CommitChildren(cfg, p2, name, indices[1..], epoch));
    }
  }

  lemma TreesPast(keys: map<Key, Value>, p: Progress, p': Progress)
    requires AllPast(keys, p.leaves) && OnlyTrees(p, p')
    ensures AllPast(keys, p'.leaves)
  {
    forall i | 0 <= i < |p'.leaves| ensures Past(keys, p'.leaves[i]) {
      if i < |p.leaves| {
        assert p'.leaves[..|p.leaves|][i] == p.leaves[i];
        assert Past(keys, p.leaves[i]);
      }
    }
  }

  lemma CommitPast(cfg: Config, db: Db, ws: seq<Write>)
    requires RootShard(cfg) && Invariant(cfg, db) && DistinctKeys(ws) && LedgerPast(db.keys, db.history)
    ensures
      var r := CommitBatch(cfg, db, ws);
      r.Some? ==> LedgerPast(r.value.0.keys, r.value.0.history)
  {
    var hist, start := db.history, Batch(db.forest, map[], []);
    assert db.keys + map[] == db.keys;
    var b := WriteAll(cfg, db.keys, |hist|, start, ws);
    if b.Some? {
      WriteAllPast(cfg, db.keys, hist, start, ws);
      WriteAllNames(cfg, db.keys, |hist|, start, ws);
      var p := Progress(b.value.forest, b.value.leaves);
      HealthyCloses(cfg, p.forest);
      CommitOnlyTrees(cfg, p, [], |hist|);
      TreesPast(db.keys + b.value.written, p, CommitTree(cfg, p, [], |hist|).0);
    }
  }

  /** Over any run whose batches have distinct keys, every leaf of a key sits at the key's slot, and
      the version tells the current leaf from the others. */
  lemma {:induction false} RunPast(cfg: Config, batches: seq<seq<Write>>)
    requires RootShard(cfg) && forall i :: 0 <= i < |batches| ==> DistinctKeys(batches[i])
    ensures Run(cfg, batches).Some? ==> LedgerPast(Run(cfg, batches).value.keys, Run(cfg, batches).value.history)
  {
    if batches != [] {
      RunPast(cfg, batches[..|batches| - 1]);
      var before := Run(cfg, batches[..|batches| - 1]);
      if before.Some? { CommitPast(cfg, before.value, batches[|batches| - 1]); }
    }
  }

  /** Every value a key ever had stays provable: with its own old leaf it is accepted against the
      current commitments. It is the current value exactly when the leaf's version is the one
      opened at the bottom node, which the verifier does not check. */
  lemma OldValuesAccepted(
      cfg: Config, batches: seq<seq<Write>>, column: Column, roots: nat -> Hash, key: Key, info: VerInfo,
      value: seq<Byte>, pos: EpochPosition)
    requires RootShard(cfg) && Factors(cfg.pp) && forall i :: 0 <= i < |batches| ==> DistinctKeys(batches[i])
    requires Run(cfg, batches).Some? && Dumped(Run(cfg, batches).value.history, column, roots)
    requires TotalLeaves(Run(cfg, batches).value.history) < VERSION_SPAN
    requires Recorded(Run(cfg, batches).value.history, [], pos, KeyLeaf(key, info, value))
    ensures
      var db := Run(cfg, batches).value;
      && key in db.keys && Provable(cfg, db, key) && SamePlace(info, db.keys[key].version)
      && Accepts(cfg.pp, key, Replayed(cfg, db, column, key, info, value, pos), roots)
      && (info.version == PathNode(cfg, db.forest, key, info.level).keyVersions[info.slot]
          <==> info.version == db.keys[key].version.version)
      && (info.version == db.keys[key].version.version ==> value == db.keys[key].value)
  {
    var db := Run(cfg, batches).value;
    RunPast(cfg, batches);
    assert AllPast(db.keys, db.history[pos.epoch]) && Past(db.keys, db.history[pos.epoch][pos.position]);
    RunAccepted(cfg, batches, column, roots, key);
    ReplayAccepted(cfg, db, column, roots, key, info, value, pos);
    RunExact(cfg, batches);
    BottomVersion(cfg, db, key);
  }

  lemma BottomVersion(cfg: Config, db: Db, key: Key)
    requires ValidConfig(cfg) && Provable(cfg, db, key) && Exact(cfg, db.forest, db.keys)
    ensures
      var info := db.keys[key].version;
      PathNode(cfg, db.forest, key, info.level).keyVersions[info.slot] == info.version
  {
    assert ExactAt(cfg, db.forest, key, db.keys[key].version);
  }

  /** Soundness over runs: an accepted value was the key's, at the key's slot and with a version no
      higher than the current one; with the current version it is the current value. */
  lemma RunSound(
      cfg: Config, batches: seq<seq<Write>>, column: Column, roots: nat -> Hash, key: Key, proof: KeyProof)
    requires RootShard(cfg) && forall i :: 0 <= i < |batches| ==> DistinctKeys(batches[i])
    requires Run(cfg, batches).Some? && Dumped(Run(cfg, batches).value.history, column, roots)
    requires |proof.levels| >= 1 && proof.value.Some? && Accepts(cfg.pp, key, proof, roots)
    requires forall l :: 0 <= l < |proof.levels| ==> proof.levels[l].merkleEpoch < |Run(cfg, batches).value.history|
    ensures
      var db := Run(cfg, batches).value;
      && key in db.keys && SamePlace(proof.info, db.keys[key].version)
      && proof.info.version <= db.keys[key].version.version
      && (proof.info.version == db.keys[key].version.version ==> proof.value.value == db.keys[key].value)
  {
    var db := Run(cfg, batches).value;
    AcceptedRecorded(cfg.pp, key, proof, db.history, column, roots);
    RunPast(cfg, batches);
    var pos :| Recorded(db.history, [], pos, KeyLeaf(key, proof.info, proof.value.value));
    assert AllPast(db.keys, db.history[pos.epoch]) && Past(db.keys, db.history[pos.epoch][pos.position]);
  }
}
