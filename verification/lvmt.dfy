/** The LVMT store as a state machine: batches of key writes are committed epoch by epoch, each
    epoch's leaves are dumped as a Merkle tree, and a key is proved level by level. */
module Lvmt {
  import opened Basics
  import opened Scalar
  import opened Bits
  import opened NodeIndices
  import opened ProveParams
  import opened VersionNode
  import opened Amt
  import opened Forest
  import opened ForestContent
  import opened ForestCommit
  import Merkle

  datatype Value = Value(value: seq<Byte>, version: VerInfo, position: EpochPosition)

  /** The forest, the key column, and the leaves of every committed epoch. */
  datatype Db = Db(forest: Forest, keys: map<Key, Value>, history: Ledger)

  datatype Write = Write(key: Key, value: seq<Byte>)

  type Hash = Merkle.H256<Leaf>

  function Hashes(leaves: seq<Leaf>): (h: seq<Hash>)
    ensures |h| == |leaves|
  {
    seq(|leaves|, i requires 0 <= i < |leaves| => Merkle.Digest(leaves[i]))
  }

  // ----- commit -----

  datatype Batch = Batch(forest: Forest, written: map<Key, Value>, leaves: seq<Leaf>)

  function StoredVersion(keys: map<Key, Value>, key: Key): Option<VerInfo> {
    if key in keys then Some(keys[key].version) else None
  }

  ghost predicate NamesValid(cfg: Config, f: Forest) {
    forall n :: n in f.trees ==> ValidName(cfg, n)
  }

  /** One write of a batch; versions are looked up in the store as it was before the batch. */
  ghost function WriteOne(cfg: Config, keys: map<Key, Value>, epoch: nat, b: Batch, w: Write): (r: Option<Batch>)
    requires ValidConfig(cfg) && Healthy(b.forest)
    ensures r.Some? ==> Healthy(r.value.forest)
  {
    var inc := IncKeyVer(cfg, b.forest, w.key, StoredVersion(keys, w.key));
    if inc.None? then None
    else
      var (f, info) := inc.value;
      Some(Batch(f, b.written[w.key := Value(w.value, info, EpochPosition(epoch, |b.leaves|))],
                 b.leaves + [KeyLeaf(w.key, info, w.value)]))
  }

  ghost function WriteAll(cfg: Config, keys: map<Key, Value>, epoch: nat, b: Batch, ws: seq<Write>): (r: Option<Batch>)
    requires ValidConfig(cfg) && Healthy(b.forest)
    ensures r.Some? ==> Healthy(r.value.forest)
    decreases |ws|
  {
    if ws == [] then Some(b)
    else
      var b1 := WriteOne(cfg, keys, epoch, b, ws[0]);
      if b1.None? then None else WriteAll(cfg, keys, epoch, b1.value, ws[1..])
  }

  lemma TouchNames(cfg: Config, f: Forest, name: Name)
    requires Structured(f) && NamesValid(cfg, f) && ValidName(cfg, name)
    ensures NamesValid(cfg, Touch(cfg, f, name))
  {
    TouchKeeps(cfg, f, name);
  }

  lemma {:induction false} AllocateNames(cfg: Config, f: Forest, key: Key, level: nat)
    requires ValidConfig(cfg) && Healthy(f) && NamesValid(cfg, f)
    ensures Allocate(cfg, f, key, level).Some? ==> NamesValid(cfg, Allocate(cfg, f, key, level).value.0)
    decreases MAX_LEVEL - level
  {
    if level < MAX_LEVEL && Fits(cfg.pp.depths, key, level) {
      var name := TreeAtLevel(cfg.pp.depths, key, level);
      TreeNameValid(cfg, key, level);
      TouchNames(cfg, f, name);
      TouchHealthy(cfg, f, name);
      AllocateNames(cfg, Touch(cfg, f, name), key, level + 1);
    }
  }

  lemma IncKeyVerNames(cfg: Config, f: Forest, key: Key, version: Option<VerInfo>)
    requires ValidConfig(cfg) && Healthy(f) && NamesValid(cfg, f)
    ensures IncKeyVer(cfg, f, key, version).Some? ==> NamesValid(cfg, IncKeyVer(cfg, f, key, version).value.0)
  {
    AllocateNames(cfg, f, key, 0);
    var start := if version.None? then Allocate(cfg, f, key, 0) else Some((f, version.value));
    if start.Some? {
      var (f1, info) := start.value;
      TreeNameValid(cfg, key, info.level);
      TouchNames(cfg, f1, TreeAtLevel(cfg.pp.depths, key, info.level));
    }
  }

  lemma {:induction false} WriteAllNames(cfg: Config, keys: map<Key, Value>, epoch: nat, b: Batch, ws: seq<Write>)
    requires ValidConfig(cfg) && Healthy(b.forest) && NamesValid(cfg, b.forest)
    ensures WriteAll(cfg, keys, epoch, b, ws).Some? ==> NamesValid(cfg, WriteAll(cfg, keys, epoch, b, ws).value.forest)
    decreases |ws|
  {
    if ws != [] {
      IncKeyVerNames(cfg, b.forest, ws[0].key, StoredVersion(keys, ws[0].key));
      var b1 := WriteOne(cfg, keys, epoch, b, ws[0]);
      if b1.Some? { WriteAllNames(cfg, keys, epoch, b1.value, ws[1..]); }
    }
  }

  /** A healthy forest with valid names can be committed: no visit ever misses a tree. */
  lemma HealthyCloses(cfg: Config, f: Forest)
    requires Healthy(f) && NamesValid(cfg, f)
    ensures Closed(cfg, f)
  {
    forall n | n in f.trees ensures ClosedAt(cfg, f, n) {
      assert NodeStructured(f, n);
      forall i: nat | i in f.trees[n].marks ensures n + [i] in f.trees && i < Pow2(cfg.pp.depths) {
        assert ValidName(cfg, n + [i]);
        assert (n + [i])[|n|] == i;
      }
    }
  }

  /** Commits a batch; `None` is a panic of the source. */
  ghost function CommitBatch(cfg: Config, db: Db, ws: seq<Write>): (r: Option<(Db, Point)>)
    requires ValidConfig(cfg) && Healthy(db.forest) && NamesValid(cfg, db.forest)
  {
    var b := WriteAll(cfg, db.keys, |db.history|, Batch(db.forest, map[], []), ws);
    if b.None? then None
    else
      WriteAllNames(cfg, db.keys, |db.history|, Batch(db.forest, map[], []), ws);
      HealthyCloses(cfg, b.value.forest);
      var (p, _, commitment) := CommitTree(cfg, Progress(b.value.forest, b.value.leaves), [], |db.history|);
      Some((Db(p.forest, db.keys + b.value.written, db.history + [p.leaves]), commitment))
  }

  /** What a commit returns is the commitment of the root tree it leaves, in every shard. */
  lemma CommitReturnsRoot(cfg: Config, db: Db, ws: seq<Write>)
    requires ValidConfig(cfg) && Healthy(db.forest) && NamesValid(cfg, db.forest)
    ensures
      var r := CommitBatch(cfg, db, ws);
      r.Some? ==> [] in r.value.0.forest.trees && r.value.0.forest.trees[[]].tree.commitment == Some(r.value.1)
  {
    var start := Batch(db.forest, map[], []);
    var b := WriteAll(cfg, db.keys, |db.history|, start, ws);
    if b.Some? {
      WriteAllNames(cfg, db.keys, |db.history|, start, ws);
      HealthyCloses(cfg, b.value.forest);
      RootCommitment(cfg, Progress(b.value.forest, b.value.leaves), |db.history|);
    }
  }

  lemma RootCommitment(cfg: Config, p: Progress, epoch: nat)
    requires Ready(cfg, p, [])
    ensures
      var (p', _, commitment) := CommitTree(cfg, p, [], epoch);
      p'.forest.trees[[]].tree.commitment == Some(commitment)
  {
    var marks := p.forest.trees[[]].marks;
    AscendingLength(marks);
    assert ClosedAt(cfg, p.forest, []);
    assert ClosedAt(cfg, CommitChildren(cfg, p, [], Ascending(marks), epoch).forest, []);
  }

  // ----- the invariant over runs -----

  /** The key's entry: a slot in a live tree, and its leaf in the ledger. */
  ghost predicate KeyRecorded(cfg: Config, f: Forest, hist: Ledger, cur: seq<Leaf>, key: Key, v: Value)
    requires ValidConfig(cfg)
  {
    && HasSlot(cfg, f, key, v.version)
    && Live(f, TreeAtLevel(cfg.pp.depths, key, v.version.level))
    && Recorded(hist, cur, v.position, KeyLeaf(key, v.version, v.value))
  }

  ghost predicate KeysRecorded(cfg: Config, f: Forest, hist: Ledger, cur: seq<Leaf>, keys: map<Key, Value>)
    requires ValidConfig(cfg)
  {
    forall key {:trigger KeyRecorded(cfg, f, hist, cur, key, keys[key])} ::
      key in keys ==> KeyRecorded(cfg, f, hist, cur, key, keys[key])
  }

  /** No tree but the root's has changes its parent has not seen. */
  ghost predicate Settled(f: Forest) {
    forall n :: n in f.trees && n != [] ==> !f.trees[n].tree.dirty
  }

  ghost predicate Invariant(cfg: Config, db: Db)
    requires ValidConfig(cfg)
  {
    && Healthy(db.forest) && NamesValid(cfg, db.forest) && Settled(db.forest)
    && Content(cfg, db.forest, db.history, [], None)
    && KeysRecorded(cfg, db.forest, db.history, [], db.keys)
  }

  function NewDb(cfg: Config): Db {
    Db(NewForest(cfg), map[], [])
  }

  lemma NewDbInvariant(cfg: Config)
    requires RootShard(cfg)
    ensures Invariant(cfg, NewDb(cfg))
  {
    NewForestContent(cfg);
  }

  lemma KeyEvolves(cfg: Config, f: Forest, f': Forest, hist: Ledger, cur: seq<Leaf>, cur': seq<Leaf>, key: Key, v: Value)
    requires ValidConfig(cfg) && KeyRecorded(cfg, f, hist, cur, key, v) && Evolves(f, f', None) && cur <= cur'
    ensures KeyRecorded(cfg, f', hist, cur', key, v)
  {
    HasSlotEvolves(cfg, f, f', key, v.version);
    assert TreeEvolves(f, f', None, TreeAtLevel(cfg.pp.depths, key, v.version.level));
    RecordedGrows(hist, cur, cur', v.position, KeyLeaf(key, v.version, v.value));
  }

  lemma KeysEvolve(cfg: Config, f: Forest, f': Forest, hist: Ledger, cur: seq<Leaf>, cur': seq<Leaf>, keys: map<Key, Value>)
    requires ValidConfig(cfg) && KeysRecorded(cfg, f, hist, cur, keys) && Evolves(f, f', None) && cur <= cur'
    ensures KeysRecorded(cfg, f', hist, cur', keys)
  {
    forall key | key in keys ensures KeyRecorded(cfg, f', hist, cur', key, keys[key]) {
      assert KeyRecorded(cfg, f, hist, cur, key, keys[key]);
      KeyEvolves(cfg, f, f', hist, cur, cur', key, keys[key]);
    }
  }

  lemma ContentGrows(cfg: Config, f: Forest, hist: Ledger, cur: seq<Leaf>, cur': seq<Leaf>)
    requires Shaped(cfg.pp) && Content(cfg, f, hist, cur, None) && cur <= cur'
    ensures Content(cfg, f, hist, cur', None)
  {
    forall n | n in f.trees ensures NodeContent(cfg, f, hist, cur', None, n) {
      assert NodeContent(cfg, f, hist, cur, None, n);
      if n != [] && !f.trees[n].tree.dirty {
        var node := DataAt(f.trees[Parent(n)].tree, Last(n));
        if node.treeVersion > 0 {
          RecordedGrows(hist, cur, cur', node.treePosition, TreeLeaf(n, node.treeVersion, f.trees[n].tree.commitment.value));
        }
      }
    }
  }

  /** The state in the middle of a batch. */
  ghost predicate InBatch(cfg: Config, keys: map<Key, Value>, hist: Ledger, b: Batch)
    requires ValidConfig(cfg)
  {
    && Healthy(b.forest) && Content(cfg, b.forest, hist, b.leaves, None)
    && KeysRecorded(cfg, b.forest, hist, b.leaves, keys)
    && KeysRecorded(cfg, b.forest, hist, b.leaves, b.written)
  }

  lemma WriteOneKeeps(cfg: Config, keys: map<Key, Value>, hist: Ledger, b: Batch, w: Write)
    requires RootShard(cfg) && InBatch(cfg, keys, hist, b)
    ensures
      var r := WriteOne(cfg, keys, |hist|, b, w);
      r.Some? ==> InBatch(cfg, keys, hist, r.value)
  {
    var version := StoredVersion(keys, w.key);
    if version.Some? { assert KeyRecorded(cfg, b.forest, hist, b.leaves, w.key, keys[w.key]); }
    IncKeyVerContent(cfg, b.forest, hist, b.leaves, w.key, version);
    var inc := IncKeyVer(cfg, b.forest, w.key, version);
    if inc.Some? {
      var (f, info) := inc.value;
      var leaves := b.leaves + [KeyLeaf(w.key, info, w.value)];
      var v := Value(w.value, info, EpochPosition(|hist|, |b.leaves|));
      ContentGrows(cfg, f, hist, b.leaves, leaves);
      KeysEvolve(cfg, b.forest, f, hist, b.leaves, leaves, keys);
      KeysEvolve(cfg, b.forest, f, hist, b.leaves, leaves, b.written);
      assert KeyRecorded(cfg, f, hist, leaves, w.key, v);
      WrittenAdds(cfg, f, hist, leaves, b.written, w.key, v);
    }
  }

  lemma WrittenAdds(cfg: Config, f: Forest, hist: Ledger, cur: seq<Leaf>, keys: map<Key, Value>, key: Key, v: Value)
    requires ValidConfig(cfg) && KeysRecorded(cfg, f, hist, cur, keys) && KeyRecorded(cfg, f, hist, cur, key, v)
    ensures KeysRecorded(cfg, f, hist, cur, keys[key := v])
  {
    var keys' := keys[key := v];
    forall k | k in keys' ensures KeyRecorded(cfg, f, hist, cur, k, keys'[k]) {
      if k != key { assert KeyRecorded(cfg, f, hist, cur, k, keys[k]); }
    }
  }

  lemma {:induction false} WriteAllKeeps(cfg: Config, keys: map<Key, Value>, hist: Ledger, b: Batch, ws: seq<Write>)
    requires RootShard(cfg) && InBatch(cfg, keys, hist, b)
    ensures
      var r := WriteAll(cfg, keys, |hist|, b, ws);
      r.Some? ==> InBatch(cfg, keys, hist, r.value)
    decreases |ws|
  {
    if ws != [] {
      WriteOneKeeps(cfg, keys, hist, b, ws[0]);
      var b1 := WriteOne(cfg, keys, |hist|, b, ws[0]);
      if b1.Some? { WriteAllKeeps(cfg, keys, hist, b1.value, ws[1..]); }
    }
  }

  // Closing an epoch: its list joins the ledger.

  lemma RecordedSealed(hist: Ledger, cur: seq<Leaf>, pos: EpochPosition, leaf: Leaf)
    requires Recorded(hist, cur, pos, leaf)
    ensures Recorded(hist + [cur], [], pos, leaf)
  {
  }

  lemma ContentSealed(cfg: Config, f: Forest, hist: Ledger, cur: seq<Leaf>)
    requires Shaped(cfg.pp) && Content(cfg, f, hist, cur, None)
    ensures Content(cfg, f, hist + [cur], [], None)
  {
    forall n | n in f.trees ensures NodeContent(cfg, f, hist + [cur], [], None, n) {
      assert NodeContent(cfg, f, hist, cur, None, n);
      if n != [] && !f.trees[n].tree.dirty {
        var node := DataAt(f.trees[Parent(n)].tree, Last(n));
        if node.treeVersion > 0 {
          RecordedSealed(hist, cur, node.treePosition, TreeLeaf(n, node.treeVersion, f.trees[n].tree.commitment.value));
        }
      }
    }
  }

  lemma KeysSealed(cfg: Config, f: Forest, hist: Ledger, cur: seq<Leaf>, keys: map<Key, Value>, written: map<Key, Value>)
    requires ValidConfig(cfg)
    requires KeysRecorded(cfg, f, hist, cur, keys) && KeysRecorded(cfg, f, hist, cur, written)
    ensures KeysRecorded(cfg, f, hist + [cur], [], keys + written)
  {
    var all := keys + written;
    forall key | key in all ensures KeyRecorded(cfg, f, hist + [cur], [], key, all[key]) {
      if key in written {
        assert KeyRecorded(cfg, f, hist, cur, key, written[key]);
      } else {
        assert KeyRecorded(cfg, f, hist, cur, key, keys[key]);
      }
      RecordedSealed(hist, cur, all[key].position, KeyLeaf(key, all[key].version, all[key].value));
    }
  }

  /** A commit of the whole forest leaves it healthy and settled. */
  lemma RootCommit(cfg: Config, p: Progress, hist: Ledger)
    requires RootShard(cfg) && Healthy(p.forest) && NamesValid(cfg, p.forest) && Closed(cfg, p.forest)
    requires Content(cfg, p.forest, hist, p.leaves, None)
    ensures [] in p.forest.trees
    ensures
      var p' := CommitTree(cfg, p, [], |hist|).0;
      && Healthy(p'.forest) && NamesValid(cfg, p'.forest) && Settled(p'.forest)
      && Content(cfg, p'.forest, hist, p'.leaves, None) && Evolves(p.forest, p'.forest, None)
      && p.leaves <= p'.leaves
  {
    var f := p.forest;
    StructuredPending(f, []);
    CommitClean(cfg, p, [], |hist|);
    CommitContent(cfg, p, hist, []);
    CommitFrame(cfg, p, [], |hist|);
    var p' := CommitTree(cfg, p, [], |hist|).0;
    var f' := p'.forest;
    CommitHealthy(cfg, f, f');
  }

  /** Clean and closed is healthy. */
  lemma CommitHealthy(cfg: Config, f: Forest, f': Forest)
    requires Healthy(f) && NamesValid(cfg, f) && Closed(cfg, f') && f'.trees.Keys == f.trees.Keys
    requires [] in f'.trees && !f'.trees[[]].marked && CleanBelow(f', [])
    ensures NamesValid(cfg, f') && Settled(f') && Healthy(f')
  {
    forall n | n in f'.trees && n != [] ensures !f'.trees[n].tree.dirty && !f'.trees[n].marked {
      assert [] < n && Clean(f', n);
    }
    forall n | n in f'.trees ensures NodeStructured(f', n) {
      assert ClosedAt(cfg, f', n) && NodeStructured(f, n);
    }
    forall n | n in f'.trees ensures WellFormedData(f'.trees[n].tree) { assert ClosedAt(cfg, f', n); }
  }

  /** Every successful commit keeps the invariant. */
  lemma CommitKeeps(cfg: Config, db: Db, ws: seq<Write>)
    requires RootShard(cfg) && Invariant(cfg, db)
    ensures CommitBatch(cfg, db, ws).Some? ==> Invariant(cfg, CommitBatch(cfg, db, ws).value.0)
  {
    var hist, start := db.history, Batch(db.forest, map[], []);
    var b := WriteAll(cfg, db.keys, |hist|, start, ws);
    if b.Some? {
      WriteAllKeeps(cfg, db.keys, hist, start, ws);
      WriteAllNames(cfg, db.keys, |hist|, start, ws);
      var p := Progress(b.value.forest, b.value.leaves);
      HealthyCloses(cfg, p.forest);
      RootCommit(cfg, p, hist);
      var p' := CommitTree(cfg, p, [], |hist|).0;
      KeysEvolve(cfg, p.forest, p'.forest, hist, p.leaves, p'.leaves, db.keys);
      KeysEvolve(cfg, p.forest, p'.forest, hist, p.leaves, p'.leaves, b.value.written);
      ContentSealed(cfg, p'.forest, hist, p'.leaves);
      KeysSealed(cfg, p'.forest, hist, p'.leaves, db.keys, b.value.written);
    }
  }

  /** The state after a run of batches, if the run does not panic. */
  ghost function Run(cfg: Config, batches: seq<seq<Write>>): (r: Option<Db>)
    requires RootShard(cfg)
    ensures r.Some? ==> Invariant(cfg, r.value)
  {
    if batches == [] then
      NewDbInvariant(cfg);
      Some(NewDb(cfg))
    else
      var before := Run(cfg, batches[..|batches| - 1]);
      if before.None? then None
      else
        CommitKeeps(cfg, before.value, batches[|batches| - 1]);
        var r := CommitBatch(cfg, before.value, batches[|batches| - 1]);
        if r.None? then None else Some(r.value.0)
  }
}
