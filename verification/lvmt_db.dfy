/** The store as the source runs it: an object over a version tree, the key column, the Merkle
    column and a read cache, whose every method keeps the invariant that makes proofs verify. */
module LvmtDbs {
  import opened Basics
  import opened Scalar
  import opened Bits
  import opened NodeIndices
  import opened ProveParams
  import opened VersionNode
  import opened Amt
  import opened Forest
  import opened ForestContent
  import opened ForestCommit
  import opened Lvmt
  import opened LvmtProof
  import opened VersionTrees
  import Merkle

  // ----- access leaves the content alone -----

  ghost predicate SameTrees(f: Forest, f': Forest) {
    forall n :: n in f.trees ==> n in f'.trees && f'.trees[n].tree == f.trees[n].tree
  }

  lemma TouchSame(cfg: Config, f: Forest, name: Name)
    requires Structured(f)
    ensures SameTrees(f, Touch(cfg, f, name))
  {
    var f' := Touch(cfg, f, name);
    TouchKeeps(cfg, f, name);
    forall n | n in f.trees ensures n in f'.trees && f'.trees[n].tree == f.trees[n].tree {
      assert NodeStructured(f, n) && Same(f.trees[n].tree, f'.trees[n].tree);
    }
  }

  /** Proving marks trees as visited; it keeps the invariant of the store. */
  lemma TouchInvariant(cfg: Config, db: Db, name: Name)
    requires RootShard(cfg) && Invariant(cfg, db) && ValidName(cfg, name)
    ensures Invariant(cfg, db.(forest := Touch(cfg, db.forest, name)))
  {
    var f, f' := db.forest, Touch(cfg, db.forest, name);
    TouchHealthy(cfg, f, name);
    TouchNames(cfg, f, name);
    TouchContent(cfg, f, db.history, [], name);
    TouchEvolves(cfg, f, name);
    KeysEvolve(cfg, f, f', db.history, [], [], db.keys);
    TouchKeeps(cfg, f, name);
    forall n | n in f'.trees && n != [] ensures !f'.trees[n].tree.dirty {
      if n in f.trees { assert Same(f.trees[n].tree, f'.trees[n].tree); } else { assert FreshTree(cfg, f', n); }
    }
  }

  /** A commit leaves the forest ready for the next one, in every shard. */
  lemma CommitReady(cfg: Config, db: Db, ws: seq<Write>)
    requires ValidConfig(cfg) && Healthy(db.forest) && NamesValid(cfg, db.forest)
    ensures
      var r := CommitBatch(cfg, db, ws);
      r.Some? ==> Healthy(r.value.0.forest) && NamesValid(cfg, r.value.0.forest)
  {
    var start := Batch(db.forest, map[], []);
    var b := WriteAll(cfg, db.keys, |db.history|, start, ws);
    if b.Some? {
      WriteAllNames(cfg, db.keys, |db.history|, start, ws);
      var p := Progress(b.value.forest, b.value.leaves);
      HealthyCloses(cfg, p.forest);
      StructuredPending(p.forest, []);
      CommitClean(cfg, p, [], |db.history|);
      CommitHealthy(cfg, p.forest, CommitTree(cfg, p, [], |db.history|).0.forest);
    }
  }

  function Cached(keys: map<Key, Value>, key: Key): Option<Value> {
    if key in keys then Some(keys[key]) else None
  }

  ghost predicate Coherent(cache: map<Key, Option<Value>>, keys: map<Key, Value>) {
    forall k :: k in cache ==> cache[k] == Cached(keys, k)
  }

  /** The invariant of a store in any shard. */
  ghost predicate Sound(cfg: Config, db: Db) {
    && ValidConfig(cfg) && Healthy(db.forest) && NamesValid(cfg, db.forest)
    && (RootShard(cfg) ==> Invariant(cfg, db))
  }

  lemma CommitSound(cfg: Config, db: Db, ws: seq<Write>)
    requires Sound(cfg, db)
    ensures
      var r := CommitBatch(cfg, db, ws);
      r.Some? ==> Sound(cfg, r.value.0)
  {
    CommitReady(cfg, db, ws);
    if RootShard(cfg) { CommitKeeps(cfg, db, ws); }
  }

  function RootAt(roots: seq<Hash>, epoch: nat): Hash {
    if epoch < |roots| then roots[epoch] else Merkle.Word(0)
  }

  /** The roots returned by past commits, as the verifier looks them up. */
  function Recall(roots: seq<Hash>): nat -> Hash {
    (epoch: nat) => RootAt(roots, epoch)
  }

  /** Every epoch's root was returned, and with full dumps its levels are stored. */
  ghost predicate Archived(history: Ledger, column: Column, roots: seq<Hash>, onlyRoot: bool) {
    && |roots| == |history|
    && (forall e :: 0 <= e < |history| ==> roots[e] == Merkle.Root(Hashes(history[e])))
    && (!onlyRoot ==> forall e :: 0 <= e < |history| ==> e in column && Merkle.Stores(column[e], Hashes(history[e])))
  }

  lemma ArchivedGrows(history: Ledger, column: Column, roots: seq<Hash>, onlyRoot: bool, leaves: seq<Leaf>, entries: map<nat, Hash>, root: Hash)
    requires Archived(history, column, roots, onlyRoot) && root == Merkle.Root(Hashes(leaves))
    requires !onlyRoot ==> Merkle.Stores(entries, Hashes(leaves))
    ensures Archived(history + [leaves], column[|history| := entries], roots + [root], onlyRoot)
  {
  }

  lemma WriteStep(cfg: Config, keys: map<Key, Value>, epoch: nat, b: Batch, ws: seq<Write>, i: nat)
    requires ValidConfig(cfg) && Healthy(b.forest) && i < |ws|
    ensures
      var b1 := WriteOne(cfg, keys, epoch, b, ws[i]);
      WriteAll(cfg, keys, epoch, b, ws[i..]) == if b1.None? then None else WriteAll(cfg, keys, epoch, b1.value, ws[i + 1..])
  {
    assert ws[i..][0] == ws[i] && ws[i..][1..] == ws[i + 1..];
  }

  lemma HashesAppend(leaves: seq<Leaf>, leaf: Leaf)
    ensures Hashes(leaves + [leaf]) == Hashes(leaves) + [Merkle.Digest(leaf)]
  {
  }

  lemma HashesConcat(a: seq<Leaf>, b: seq<Leaf>)
    ensures Hashes(a + b) == Hashes(a) + Hashes(b)
  {
  }

  class LvmtDb {
    const cfg: Config
    const onlyRoot: bool
    const versionTree: VersionTree
    var keys: map<Key, Value>
    var column: Column
    var epoch: nat
    var cache: map<Key, Option<Value>>
    var uncommitted: seq<Write>
    ghost var history: Ledger
    ghost var roots: seq<Hash>

    ghost function Model(): Db
      reads this, versionTree
    {
      Db(versionTree.Model(), keys, history)
    }

    ghost predicate Valid()
      reads this, versionTree
    {
      && versionTree.cfg == cfg && epoch == |history| && Coherent(cache, keys)
      && Sound(cfg, Model()) && Archived(history, column, roots, onlyRoot)
    }

    constructor (cfg: Config, onlyRoot: bool)
      requires ValidConfig(cfg)
      ensures Valid() && fresh(versionTree) && this.cfg == cfg && this.onlyRoot == onlyRoot
      ensures Model() == NewDb(cfg) && uncommitted == [] && roots == []
    {
      this.cfg, this.onlyRoot := cfg, onlyRoot;
      versionTree := new VersionTree(cfg);
      keys, column, epoch, cache, uncommitted, history, roots := map[], map[], 0, map[], [], [], [];
      new;
      if cfg.shard == Some(ROOT) { NewDbInvariant(cfg); } else { NewForestHealthy(cfg); }
    }

    /** Reads through the cache; what was set and not committed is not seen. */
    method Get(key: Key) returns (r: Option<seq<Byte>>)
      requires Valid()
      modifies this`cache
      ensures Valid()
      ensures r == if key in keys then Some(keys[key].value) else None
    {
      var maybe;
      if key in cache {
        maybe := cache[key];
      } else {
        maybe := Cached(keys, key);
        cache := cache[key := maybe];
      }
      return if maybe.Some? then Some(maybe.value.value) else None;
    }

    method Set(key: Key, value: seq<Byte>)
      requires Valid()
      modifies this`uncommitted
      ensures Valid() && uncommitted == old(uncommitted) + [Write(key, value)]
    {
      uncommitted := uncommitted + [Write(key, value)];
    }

    /** The version lookup of a commit: the cache first, then the key column. */
    method LookupVersion(key: Key) returns (r: Option<VerInfo>)
      requires Coherent(cache, keys)
      ensures r == StoredVersion(keys, key)
    {
      if key in cache { return if cache[key].Some? then Some(cache[key].value.version) else None; }
      return if key in keys then Some(keys[key].version) else None;
    }

    /** What the write loop needs of the store. */
    ghost predicate Writable()
      reads this, versionTree
    {
      && ValidConfig(cfg) && versionTree.cfg == cfg && Healthy(versionTree.Model())
      && Coherent(cache, keys)
    }

    /** Raises the version of one pending write. */
    method WriteKey(w: Write, position: nat, written: map<Key, Value>, ghost leaves: seq<Leaf>)
      returns (r: Option<(map<Key, Value>, VerInfo)>)
      requires Writable() && |leaves| == position
      modifies versionTree
      ensures
        var spec := WriteOne(cfg, keys, epoch, Batch(old(versionTree.Model()), written, leaves), w);
        if spec.None? then r.None?
        else r.Some? && Writable() && spec.value == Batch(versionTree.Model(), r.value.0, leaves + [KeyLeaf(w.key, r.value.1, w.value)])
    {
      var known := LookupVersion(w.key);
      var version := versionTree.IncKeyVer(w.key, known);
      if version.None? { return None; }
      return Some((written[w.key := Value(w.value, version.value, EpochPosition(epoch, position))], version.value));
    }

    /** Raises the versions of the pending writes, in order. */
    method WriteKeys(ws: seq<Write>) returns (r: Option<(map<Key, Value>, seq<Hash>)>, ghost leaves: seq<Leaf>)
      requires Writable()
      modifies versionTree
      ensures
        var spec := WriteAll(cfg, keys, epoch, Batch(old(versionTree.Model()), map[], []), ws);
        if spec.None? then r.None?
        else r.Some? && spec.value == Batch(versionTree.Model(), r.value.0, leaves) && r.value.1 == Hashes(leaves)
    {
      ghost var spec := WriteAll(cfg, keys, epoch, Batch(versionTree.Model(), map[], []), ws);
      var written: map<Key, Value>, hashes: seq<Hash> := map[], [];
      leaves := [];
      assert hashes == Hashes(leaves) && ws[0..] == ws;
      for position := 0 to |ws|
        invariant Writable() && hashes == Hashes(leaves) && |hashes| == position
        invariant WriteAll(cfg, keys, epoch, Batch(versionTree.Model(), written, leaves), ws[position..]) == spec
      {
        WriteStep(cfg, keys, epoch, Batch(versionTree.Model(), written, leaves), ws, position);
        var done := WriteKey(ws[position], position, written, leaves);
        if done.None? { return None, leaves; }
        var leaf := KeyLeaf(ws[position].key, done.value.1, ws[position].value);
        written := done.value.0;
        HashesAppend(leaves, leaf);
        hashes := hashes + [Merkle.Digest(leaf)];
        leaves := leaves + [leaf];
      }
      assert ws[|ws|..] == [];
      r := Some((written, hashes));
    }

    /** The writes and the commit of the forest. */
    method CommitForest(ws: seq<Write>) returns (r: Option<(map<Key, Value>, seq<Hash>, Point)>, ghost leaves: seq<Leaf>)
      requires Writable() && NamesValid(cfg, versionTree.Model()) && epoch == |history|
      modifies versionTree
      ensures
        var spec := CommitBatch(cfg, old(Model()), ws);
        if spec.None? then r.None?
        else
          && r.Some? && r.value.1 == Hashes(leaves)
          && spec.value == (Db(versionTree.Model(), keys + r.value.0, history + [leaves]), r.value.2)
    {
      ghost var before := versionTree.Model();
      var w;
      w, leaves := WriteKeys(ws);
      if w.None? { return None, leaves; }
      WriteAllNames(cfg, keys, epoch, Batch(before, map[], []), ws);
      HealthyCloses(cfg, versionTree.Model());
      var (written, hashes) := w.value;
      assert leaves + [] == leaves;
      var updates, dirty, amtRoot := versionTree.CommitTree([], epoch, |hashes|, [], leaves);
      HashesConcat(leaves, updates);
      r := Some((written, hashes + Hashes(updates), amtRoot));
      leaves := leaves + updates;
    }

    /** Commits the pending writes and returns the root commitment and the epoch's Merkle root;
        `None` stands for a panic. */
    method Commit() returns (r: Option<(Point, Hash)>)
      requires Valid()
      modifies this, versionTree
      ensures
        var spec := CommitBatch(cfg, old(Model()), old(uncommitted));
        if spec.None? then r.None?
        else
          && Valid() && Model() == spec.value.0 && uncommitted == []
          && r == Some((spec.value.1, Merkle.Root(Hashes(history[|history| - 1]))))
          && roots == old(roots) + [r.value.1]
    {
      ghost var before := Model();
      CommitSound(cfg, before, uncommitted);
      var w;
      ghost var leaves;
      w, leaves := CommitForest(uncommitted);
      if w.None? { return None; }
      var root := Seal(w.value.0, w.value.1, leaves, Db(versionTree.Model(), keys + w.value.0, history + [leaves]));
      r := Some((w.value.2, root));
    }

    /** Writes the key column, dumps the epoch and clears the cache. */
    method Seal(written: map<Key, Value>, hashes: seq<Hash>, ghost leaves: seq<Leaf>, ghost next: Db) returns (root: Hash)
      requires versionTree.cfg == cfg && epoch == |history| && Archived(history, column, roots, onlyRoot)
      requires Sound(cfg, next) && next == Db(versionTree.Model(), keys + written, history + [leaves])
      requires hashes == Hashes(leaves)
      modifies this
      ensures Valid() && Model() == next && uncommitted == []
      ensures root == Merkle.Root(Hashes(leaves)) && roots == old(roots) + [root]
    {
      var entries;
      entries, root := Merkle.Dump(hashes, onlyRoot);
      ArchivedGrows(history, column, roots, onlyRoot, leaves, entries, root);
      keys := keys + written;
      column := column[epoch := entries];
      history := history + [leaves];
      roots := roots + [root];
      epoch := epoch + 1;
      cache := map[];
      uncommitted := [];
    }

    /** One level of a proof, through mutable access to the tree. */
    method ProveNode(name: Name, index: nat) returns (r: Option<(Point, Node, seq<AmtNode>)>)
      requires Valid() && RootShard(cfg) && name in versionTree.trees && ValidName(cfg, name)
      modifies versionTree
      ensures Valid() && SameTrees(old(versionTree.Model()), versionTree.Model())
      ensures
        var tree := versionTree.trees[name].tree;
        tree.commitment.Some? && r == Some((tree.commitment.value, DataAt(tree, index), Amt.Prove(cfg.pp.depths, tree, index)))
    {
      TouchSame(cfg, versionTree.Model(), name);
      TouchInvariant(cfg, Model(), name);
      versionTree.GetTreeMut(name);
      var tree := versionTree.trees[name].tree;
      assert NodeContent(cfg, versionTree.Model(), history, [], None, name);
      var proof := ProveIndex(cfg.pp, tree, index);
      if proof.None? { return None; }
      return Some((tree.commitment.value, DataAt(tree, index), proof.value));
    }

    method ProveMerkleAt(pos: EpochPosition) returns (proof: Merkle.Proof<Leaf>)
      ensures proof == ProveMerkle(column, pos)
    {
      var entries: map<nat, Hash> := if pos.epoch in column then column[pos.epoch] else map[];
      if Merkle.Lookup(entries, 0).Word? {
        proof := Merkle.Prove(entries, pos.position);
      } else {
        proof := Merkle.Proof([], pos.position);
      }
    }

    /** One level of the proof of a key. */
    method ProveAtLevel(key: Key, level: nat, ghost db: Db) returns (p: LevelProof)
      requires Valid() && RootShard(cfg) && SameTrees(db.forest, versionTree.Model()) && db.keys == keys
      requires Provable(cfg, db, key) && level <= keys[key].version.level
      modifies versionTree
      ensures Valid() && SameTrees(db.forest, versionTree.Model())
      ensures OnPath(cfg, db.forest, key, level) && p == LevelOf(cfg, db, column, key, level)
    {
      assert OnPath(cfg, db.forest, key, level);
      ghost var node := PathNode(cfg, db.forest, key, level);
      var name, index := TreeAtLevel(cfg.pp.depths, key, level), IndexAtLevel(cfg.pp.depths, key, level);
      TreeNameValid(cfg, key, level);
      var answer := ProveNode(name, index);
      var (commitment, data, amtProof) := answer.value;
      assert data == node && WellFormedData(versionTree.trees[name].tree);
      var v := keys[key];
      var position := if level == v.version.level then v.position else data.treePosition;
      var version := if level == v.version.level then data.keyVersions[v.version.slot] else data.treeVersion;
      var merkleProof := ProveMerkleAt(position);
      var fr := AsFrInt(data);
      p := LevelProof(position.epoch, merkleProof, amtProof, commitment, fr, version);
    }

    /** The levels of the proof of a key, from the bottom up. */
    method ProveLevels(key: Key, ghost db: Db) returns (levels: seq<LevelProof>)
      requires Valid() && RootShard(cfg) && SameTrees(db.forest, versionTree.Model()) && db.keys == keys
      requires Provable(cfg, db, key)
      modifies versionTree
      ensures Valid() && SameTrees(db.forest, versionTree.Model())
      ensures levels == ProveKey(cfg, db, column, key).levels
    {
      ghost var spec := ProveKey(cfg, db, column, key).levels;
      levels := [];
      var level: int := keys[key].version.level;
      while level >= 0
        invariant -1 <= level <= keys[key].version.level
        invariant Valid() && SameTrees(db.forest, versionTree.Model())
        invariant levels == spec[level + 1..]
      {
        var p := ProveAtLevel(key, level, db);
        LevelsGrow(cfg, db, column, key, level, levels);
        levels := [p] + levels;
        level := level - 1;
      }
    }

    /** The proof of a committed key; `None` is the panic on a key that was never committed. */
    method Prove(key: Key) returns (r: Option<KeyProof>)
      requires Valid() && RootShard(cfg)
      modifies versionTree
      ensures Valid() && SameTrees(old(versionTree.Model()), versionTree.Model())
      ensures r.Some? <==> key in keys
      ensures r.Some? ==> Claims(r.value, keys[key])
      ensures r.Some? ==> Provable(cfg, old(Model()), key) && r.value == ProveKey(cfg, old(Model()), column, key)
      ensures r.Some? && !onlyRoot && Factors(cfg.pp) ==> Genuine(cfg, old(Model()), key, r.value, roots)
    {
      if key !in keys { return None; }
      ghost var db := Model();
      KeyProvable(cfg, db, key);
      if !onlyRoot && Factors(cfg.pp) { ArchivedProof(cfg, db, column, roots, key); }
      var levels := ProveLevels(key, db);
      r := Some(KeyProof(Some(keys[key].value), keys[key].version, levels));
    }
  }

  lemma LevelsGrow(cfg: Config, db: Db, column: Column, key: Key, level: nat, levels: seq<LevelProof>)
    requires ValidConfig(cfg) && Provable(cfg, db, key) && level <= db.keys[key].version.level
    requires levels == ProveKey(cfg, db, column, key).levels[level + 1..] && OnPath(cfg, db.forest, key, level)
    ensures [LevelOf(cfg, db, column, key, level)] + levels == ProveKey(cfg, db, column, key).levels[level..]
  {
    var spec := ProveKey(cfg, db, column, key).levels;
    assert spec[level] == LevelOf(cfg, db, column, key, level);
    assert spec[level..] == [spec[level]] + spec[level + 1..];
  }

  /** When the proof is accepted against the returned roots. */
  ghost predicate Genuine(cfg: Config, db: Db, key: Key, proof: KeyProof, roots: seq<Hash>)
    requires ValidConfig(cfg) && Provable(cfg, db, key)
  {
    |proof.levels| >= 1 && AcceptedExactly(cfg, db, key, proof, Recall(roots))
  }

  lemma ArchivedProof(cfg: Config, db: Db, column: Column, roots: seq<Hash>, key: Key)
    requires RootShard(cfg) && Factors(cfg.pp) && Invariant(cfg, db) && key in db.keys
    requires Archived(db.history, column, roots, false)
    ensures Provable(cfg, db, key) && Genuine(cfg, db, key, ProveKey(cfg, db, column, key), roots)
  {
    ProofAccepted(cfg, db, column, Recall(roots), key);
  }

  /** A new forest is healthy in every shard. */
  lemma NewForestHealthy(cfg: Config)
    ensures Healthy(NewForest(cfg)) && NamesValid(cfg, NewForest(cfg))
  {
    assert NodeStructured(NewForest(cfg), []);
  }

  // ----- verification -----

  /** Checking the opening of level `l` panics: the key has no digit there, or the opening is too long. */
  ghost predicate OpeningPanics(pp: AmtParams, key: Key, proof: KeyProof, l: nat)
    requires Shaped(pp) && ValidDepths(pp.depths) && l < |proof.levels|
  {
    var p := proof.levels[l];
    !Fits(pp.depths, key, l) || Amt.Overruns(pp, IndexAtLevel(pp.depths, key, l), p.nodeFr, p.commitment, p.amtProof)
  }

  ghost predicate OpensTo(pp: AmtParams, key: Key, proof: KeyProof, n: nat)
    requires Shaped(pp) && ValidDepths(pp.depths) && n <= |proof.levels|
  {
    forall l :: 0 <= l < n ==> AmtChecks(pp, key, proof, l)
  }

  /** Some opening panics, and those of the levels above it pass. */
  ghost predicate OpeningsPanic(pp: AmtParams, key: Key, proof: KeyProof)
    requires Shaped(pp) && ValidDepths(pp.depths)
  {
    exists l :: 0 <= l < |proof.levels| && OpeningPanics(pp, key, proof, l) && OpensTo(pp, key, proof, l)
  }

  /** The opening of every level, from the root's down. */
  method CheckOpenings(pp: AmtParams, key: Key, proof: KeyProof) returns (r: Option<bool>)
    requires Shaped(pp) && ValidDepths(pp.depths)
    ensures r.Some? ==> (r.value <==> OpensTo(pp, key, proof, |proof.levels|))
    ensures r.None? ==> OpeningsPanic(pp, key, proof)
    ensures r == Some(true) ==> forall l :: 0 <= l < |proof.levels| ==> !OpeningPanics(pp, key, proof, l)
    ensures r == Some(false) ==> !OpeningsPanic(pp, key, proof)
  {
    for l := 0 to |proof.levels|
      invariant OpensTo(pp, key, proof, l) && forall i :: 0 <= i < l ==> !OpeningPanics(pp, key, proof, i)
    {
      var p := proof.levels[l];
      if !Fits(pp.depths, key, l) {
        assert OpeningPanics(pp, key, proof, l);
        return None;
      }
      var ok := Amt.Verify(pp, IndexAtLevel(pp.depths, key, l), p.nodeFr, p.commitment, p.amtProof);
      if ok.None? {
        assert OpeningPanics(pp, key, proof, l);
        return None;
      }
      if !ok.value {
        assert !AmtChecks(pp, key, proof, l) && !OpeningPanics(pp, key, proof, l);
        return Some(false);
      }
    }
    return Some(true);
  }

  /** The leaf of every tree below the root. */
  method CheckSubtrees(depths: nat, key: Key, proof: KeyProof, roots: nat -> Hash) returns (ok: bool)
    requires ValidDepths(depths) && |proof.levels| >= 1
    ensures ok <==> forall l :: 0 <= l < |proof.levels| - 1 ==> LeafChecks(proof, l, roots, ClaimedSubtree(depths, key, proof, l))
  {
    for l := 0 to |proof.levels| - 1
      invariant forall i :: 0 <= i < l ==> LeafChecks(proof, i, roots, ClaimedSubtree(depths, key, proof, i))
    {
      var p := proof.levels[l];
      var leaf := TreeLeaf(TreeAtLevel(depths, key, l + 1), p.nodeVersion, proof.levels[l + 1].commitment);
      var valid := Merkle.Verify(roots(p.merkleEpoch), Merkle.Digest(leaf), p.merkleProof);
      if !valid {
        assert !LeafChecks(proof, l, roots, ClaimedSubtree(depths, key, proof, l));
        return false;
      }
    }
    return true;
  }

  method CheckVersions(proof: KeyProof) returns (ok: bool)
    requires |proof.levels| >= 1 && proof.info.slot < MAX_SLOTS
    ensures ok <==> VersionChecks(proof)
  {
    var last := |proof.levels| - 1;
    var version := VersionsFromFrInt(proof.levels[last].nodeFr, proof.info.slot + 1);
    if version != proof.levels[last].nodeVersion { return false; }
    for l := 0 to last
      invariant forall i :: 0 <= i < l ==> FrVersion(proof.levels[i].nodeFr, 0) == proof.levels[i].nodeVersion
    {
      version := VersionsFromFrInt(proof.levels[l].nodeFr, 0);
      if version != proof.levels[l].nodeVersion { return false; }
    }
    return true;
  }

  /** What the verifier checks before it reads versions. */
  ghost predicate LeavesCheck(pp: AmtParams, key: Key, proof: KeyProof, roots: nat -> Hash)
    requires Shaped(pp) && ValidDepths(pp.depths) && |proof.levels| >= 1
  {
    var last := |proof.levels| - 1;
    && (proof.value.Some? ==> LeafChecks(proof, last, roots, KeyLeaf(key, proof.info, proof.value.value)))
    && forall l :: 0 <= l < last ==> LeafChecks(proof, l, roots, ClaimedSubtree(pp.depths, key, proof, l))
  }

  /** Exactly the proofs on which the source panics. */
  ghost predicate VerifyPanics(pp: AmtParams, key: Key, proof: KeyProof, roots: nat -> Hash)
    requires Shaped(pp) && ValidDepths(pp.depths)
  {
    || OpeningsPanic(pp, key, proof)
    || |proof.levels| == 0
    || (proof.info.slot >= MAX_SLOTS && OpensTo(pp, key, proof, |proof.levels|) && LeavesCheck(pp, key, proof, roots))
  }

  /** The verifier; `None` is a panic, which only a proof of the wrong shape can cause. */
  method Verify(pp: AmtParams, key: Key, proof: KeyProof, roots: nat -> Hash) returns (r: Option<bool>)
    requires Shaped(pp) && ValidDepths(pp.depths)
    ensures r.None? <==> VerifyPanics(pp, key, proof, roots)
    ensures r.Some? ==> |proof.levels| >= 1 && (r.value <==> Accepts(pp, key, proof, roots))
  {
    var openings := CheckOpenings(pp, key, proof);
    if openings.None? { return None; }
    if !openings.value { return Some(false); }
    if |proof.levels| == 0 { return None; }
    var last := |proof.levels| - 1;
    if proof.value.Some? {
      var p, leaf := proof.levels[last], KeyLeaf(key, proof.info, proof.value.value);
      var valid := Merkle.Verify(roots(p.merkleEpoch), Merkle.Digest(leaf), p.merkleProof);
      if !valid { return Some(false); }
    }
    var subtrees := CheckSubtrees(pp.depths, key, proof, roots);
    if !subtrees { return Some(false); }
    if proof.info.slot >= MAX_SLOTS { return None; }
    var versions := CheckVersions(proof);
    return Some(versions);
  }
}
