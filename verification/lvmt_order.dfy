/** The order of an epoch's leaves: the writes as they were given, then the changed trees, each after
    the trees below it and beside the others by index. */
module LvmtOrder {
  import opened Basics
  import opened Bits
  import opened ProveParams
  import opened VersionNode
  import opened Amt
  import opened Forest
  import opened ForestContent
  import opened ForestCommit
  import opened Lvmt

  /** Names in post-order: a name comes after its extensions, and siblings go by index. */
  ghost predicate Before(a: Name, b: Name) {
    b < a || exists i :: 0 <= i < |a| && i < |b| && a[..i] == b[..i] && a[i] < b[i]
  }

  /** Leaves of trees, in post-order. */
  ghost predicate Ordered(s: seq<Leaf>) {
    && (forall i :: 0 <= i < |s| ==> s[i].TreeLeaf?)
    && forall i, j :: 0 <= i < j < |s| ==> Before(s[i].name, s[j].name)
  }

  /** All names are below `name`, starting with one of the indices. */
  ghost predicate Below(s: seq<Leaf>, name: Name, indices: seq<nat>) {
    forall i :: 0 <= i < |s| ==> s[i].TreeLeaf? && Starts(s[i].name, name, indices)
  }

  ghost predicate Starts(n: Name, name: Name, indices: seq<nat>) {
    name < n && n[|name|] in indices
  }

  /** What a commit appended. */
  function Appended(p: Progress, p': Progress): seq<Leaf>
    requires p.leaves <= p'.leaves
  {
    p'.leaves[|p.leaves|..]
  }

  lemma AppendedJoin(p: Progress, p1: Progress, p2: Progress)
    requires p.leaves <= p1.leaves && p1.leaves <= p2.leaves
    ensures p.leaves <= p2.leaves && Appended(p, p2) == Appended(p, p1) + Appended(p1, p2)
  {
    assert p2.leaves == p1.leaves + p2.leaves[|p1.leaves|..];
  }

  /** The leaves of one child, then its own, then those of later children. */
  lemma OrderJoin(a: seq<Leaf>, own: seq<Leaf>, b: seq<Leaf>, name: Name, indices: seq<nat>, below: seq<nat>)
    requires indices != [] && IsSorted(indices)
    requires Ordered(a) && Below(a, name + [indices[0]], below)
    requires own == [] || (|own| == 1 && own[0].TreeLeaf? && own[0].name == name + [indices[0]])
    requires Ordered(b) && Below(b, name, indices[1..])
    ensures Ordered(a + own + b) && Below(a + own + b, name, indices)
  {
    var s := a + own + b;
    forall i | 0 <= i < |s| ensures s[i].TreeLeaf? && Starts(s[i].name, name, indices) {
      PlacedAt(a, own, b, name, indices, below, i);
    }
    forall i, j | 0 <= i < j < |s| ensures Before(s[i].name, s[j].name) {
      PlacedAt(a, own, b, name, indices, below, i);
      PlacedAt(a, own, b, name, indices, below, j);
      if i < |a| + |own| && j >= |a| + |own| {
        IndexBefore(s[i].name, s[j].name, name, indices);
      } else if i >= |a| + |own| {
        assert s[i] == b[i - |a| - |own|] && s[j] == b[j - |a| - |own|];
      } else if j < |a| {
        assert s[i] == a[i] && s[j] == a[j];
      } else {
        assert s[i] == a[i] && s[j] == own[0];
        assert Starts(a[i].name, name + [indices[0]], below);
      }
    }
  }

  lemma PlacedAt(a: seq<Leaf>, own: seq<Leaf>, b: seq<Leaf>, name: Name, indices: seq<nat>, below: seq<nat>, i: nat)
    requires indices != [] && i < |a + own + b|
    requires Below(a, name + [indices[0]], below) && Below(b, name, indices[1..])
    requires own == [] || (|own| == 1 && own[0].TreeLeaf? && own[0].name == name + [indices[0]])
    ensures
      var leaf := (a + own + b)[i];
      && leaf.TreeLeaf? && name < leaf.name
      && (if i < |a| + |own| then leaf.name[|name|] == indices[0] else leaf.name[|name|] in indices[1..])
  {
    if i < |a| {
      assert Starts(a[i].name, name + [indices[0]], below);
      assert (name + [indices[0]])[|name|] == indices[0];
    } else if i >= |a| + |own| {
      assert Starts(b[i - |a| - |own|].name, name, indices[1..]);
    }
  }

  lemma IndexBefore(a: Name, b: Name, name: Name, indices: seq<nat>)
    requires indices != [] && IsSorted(indices) && name < a && name < b
    requires a[|name|] == indices[0] && b[|name|] in indices[1..]
    ensures Before(a, b)
  {
    var i := |name|;
    assert a[..i] == name == b[..i];
  }

  lemma {:induction false} CommitOrdered(cfg: Config, p: Progress, name: Name, epoch: nat)
    requires Ready(cfg, p, name)
    ensures p.leaves <= CommitTree(cfg, p, name, epoch).0.leaves
    ensures
      var s := Appended(p, CommitTree(cfg, p, name, epoch).0);
      Ordered(s) && Below(s, name, Ascending(p.forest.trees[name].marks))
    decreases p.forest.layers - |name|, |p.forest.trees[name].marks| + 1
  {
    var marks := p.forest.trees[name].marks;
    AscendingLength(marks);
    AscendingSorted(marks);
    assert ClosedAt(cfg, p.forest, name);
    ChildrenOrdered(cfg, p, name, Ascending(marks), epoch);
  }

  lemma {:induction false} ChildrenOrdered(cfg: Config, p: Progress, name: Name, indices: seq<nat>, epoch: nat)
    requires ReadyFor(cfg, p, name, indices) && IsSorted(indices)
    ensures p.leaves <= CommitChildren(cfg, p, name, indices, epoch).leaves
    ensures
      var s := Appended(p, CommitChildren(cfg, p, name, indices, epoch));
      Ordered(s) && Below(s, name, indices)
    decreases p.forest.layers - |name|, |indices|
  {
    if indices != [] {
      var child := name + [indices[0]];
      assert indices[0] in Elements(indices);
      assert ClosedAt(cfg, p.forest, child);
      CommitOrdered(cfg, p, child, epoch);
      var (p1, dirty, commitment) := CommitTree(cfg, p, child, epoch);
      var p2 := if dirty then ChildPushed(cfg, p1, name, indices[0], commitment, epoch) else p1;
      RestReady(cfg, p, p2, name, indices);
      assert IsSorted(indices[1..]);
      ChildrenOrdered(cfg, p2, name, indices[1..], epoch);
      var p3 := CommitChildren(cfg, p2, name, indices[1..], epoch);
      AppendedJoin(p, p1, p2);
      AppendedJoin(p, p2, p3);
      OrderJoin(Appended(p, p1), Appended(p1, p2), Appended(p2, p3), name, indices, Ascending(p.forest.trees[child].marks));
    }
  }

  // ----- an epoch -----

  /** The leaves of the first writes of a batch, in order. */
  ghost predicate Writes(leaves: seq<Leaf>, ws: seq<Write>, from: nat)
    requires from + |ws| <= |leaves|
  {
    forall i :: 0 <= i < |ws| ==> WriteAt(leaves[from + i], ws[i])
  }

  ghost predicate WriteAt(leaf: Leaf, w: Write) {
    leaf.KeyLeaf? && leaf.key == w.key && leaf.value == w.value
  }

  lemma {:induction false} WriteAllInOrder(cfg: Config, keys: map<Key, Value>, epoch: nat, b: Batch, ws: seq<Write>)
    requires ValidConfig(cfg) && Healthy(b.forest)
    ensures
      var r := WriteAll(cfg, keys, epoch, b, ws);
      r.Some? ==> b.leaves <= r.value.leaves && |r.value.leaves| == |b.leaves| + |ws| && Writes(r.value.leaves, ws, |b.leaves|)
    decreases |ws|
  {
    if ws != [] {
      var b1 := WriteOne(cfg, keys, epoch, b, ws[0]);
      if b1.Some? {
        WriteAllInOrder(cfg, keys, epoch, b1.value, ws[1..]);
        var r := WriteAll(cfg, keys, epoch, b1.value, ws[1..]);
        if r.Some? { WritesStep(b.leaves, b1.value.leaves, r.value.leaves, ws); }
      }
    }
  }

  lemma WritesStep(a: seq<Leaf>, b: seq<Leaf>, c: seq<Leaf>, ws: seq<Write>)
    requires ws != [] && |b| == |a| + 1 && a <= b && b <= c && |c| == |a| + |ws|
    requires WriteAt(b[|a|], ws[0])
    requires Writes(c, ws[1..], |b|)
    ensures a <= c && Writes(c, ws, |a|)
  {
    forall i | 0 <= i < |ws| ensures WriteAt(c[|a| + i], ws[i]) {
      if i > 0 { assert WriteAt(c[|b| + (i - 1)], ws[1..][i - 1]); }
    }
  }

  /** An epoch's leaves: one for each write, as given and with its value, then the changed trees. */
  lemma EpochOrdered(cfg: Config, db: Db, ws: seq<Write>)
    requires ValidConfig(cfg) && Healthy(db.forest) && NamesValid(cfg, db.forest)
    ensures
      var r := CommitBatch(cfg, db, ws);
      r.Some? ==>
        && |r.value.0.history| == |db.history| + 1 && r.value.0.history[..|db.history|] == db.history
        && var leaves := r.value.0.history[|db.history|];
        && |ws| <= |leaves| && Writes(leaves, ws, 0) && Ordered(leaves[|ws|..])
  {
    var start := Batch(db.forest, map[], []);
    var b := WriteAll(cfg, db.keys, |db.history|, start, ws);
    WriteAllInOrder(cfg, db.keys, |db.history|, start, ws);
    if b.Some? {
      WriteAllNames(cfg, db.keys, |db.history|, start, ws);
      var p := Progress(b.value.forest, b.value.leaves);
      HealthyCloses(cfg, p.forest);
      CommitOrdered(cfg, p, [], |db.history|);
      WritesStay(p.leaves, CommitTree(cfg, p, [], |db.history|).0.leaves, ws);
    }
  }

  lemma WritesStay(a: seq<Leaf>, b: seq<Leaf>, ws: seq<Write>)
    requires |a| == |ws| && a <= b && Writes(a, ws, 0)
    ensures Writes(b, ws, 0)
  {
    forall i | 0 <= i < |ws| ensures WriteAt(b[0 + i], ws[i]) { assert WriteAt(a[0 + i], ws[i]); }
  }

  /** The version a write records: one more than the store's before the batch, however often the
      batch writes the key; a key the store does not have starts at one every time. */
  ghost predicate VersionOf(keys: map<Key, Value>, leaf: Leaf) {
    leaf.KeyLeaf? ==>
      if leaf.key in keys then leaf.info == keys[leaf.key].version.(version := keys[leaf.key].version.version + 1)
      else leaf.info.version == 1
  }

  lemma {:induction false} FreshVersion(cfg: Config, f: Forest, key: Key, level: nat)
    requires ValidConfig(cfg) && Healthy(f)
    ensures Allocate(cfg, f, key, level).Some? ==> Allocate(cfg, f, key, level).value.1.version == 0
    decreases MAX_LEVEL - level
  {
    if level < MAX_LEVEL && Fits(cfg.pp.depths, key, level) {
      AllocateStep(cfg, f, key, level);
      FreshVersion(cfg, Touch(cfg, f, TreeAtLevel(cfg.pp.depths, key, level)), key, level + 1);
    }
  }

  lemma WriteOneVersion(cfg: Config, keys: map<Key, Value>, epoch: nat, b: Batch, w: Write)
    requires ValidConfig(cfg) && Healthy(b.forest)
    ensures
      var r := WriteOne(cfg, keys, epoch, b, w);
      r.Some? ==> |r.value.leaves| == |b.leaves| + 1 && b.leaves <= r.value.leaves && VersionOf(keys, r.value.leaves[|b.leaves|])
  {
    if w.key !in keys { FreshVersion(cfg, b.forest, w.key, 0); }
  }

  lemma {:induction false} WriteAllVersions(cfg: Config, keys: map<Key, Value>, epoch: nat, b: Batch, ws: seq<Write>)
    requires ValidConfig(cfg) && Healthy(b.forest) && forall i :: 0 <= i < |b.leaves| ==> VersionOf(keys, b.leaves[i])
    ensures
      var r := WriteAll(cfg, keys, epoch, b, ws);
      r.Some? ==> forall i :: 0 <= i < |r.value.leaves| ==> VersionOf(keys, r.value.leaves[i])
    decreases |ws|
  {
    if ws != [] {
      WriteOneVersion(cfg, keys, epoch, b, ws[0]);
      var b1 := WriteOne(cfg, keys, epoch, b, ws[0]);
      if b1.Some? { WriteAllVersions(cfg, keys, epoch, b1.value, ws[1..]); }
    }
  }

  lemma EpochVersions(cfg: Config, db: Db, ws: seq<Write>)
    requires ValidConfig(cfg) && Healthy(db.forest) && NamesValid(cfg, db.forest)
    ensures
      var r := CommitBatch(cfg, db, ws);
      r.Some? ==>
        && |r.value.0.history| == |db.history| + 1
        && forall i :: 0 <= i < |r.value.0.history[|db.history|]| ==> VersionOf(db.keys, r.value.0.history[|db.history|][i])
  {
    var start := Batch(db.forest, map[], []);
    WriteAllVersions(cfg, db.keys, |db.history|, start, ws);
    var b := WriteAll(cfg, db.keys, |db.history|, start, ws);
    if b.Some? {
      WriteAllNames(cfg, db.keys, |db.history|, start, ws);
      var p := Progress(b.value.forest, b.value.leaves);
      HealthyCloses(cfg, p.forest);
      CommitOrdered(cfg, p, [], |db.history|);
      TreesUnversioned(db.keys, p.leaves, CommitTree(cfg, p, [], |db.history|).0.leaves);
    }
  }

  lemma TreesUnversioned(keys: map<Key, Value>, a: seq<Leaf>, b: seq<Leaf>)
    requires a <= b && Ordered(b[|a|..]) && forall i :: 0 <= i < |a| ==> VersionOf(keys, a[i])
    ensures forall i :: 0 <= i < |b| ==> VersionOf(keys, b[i])
  {
    forall i | 0 <= i < |b| ensures VersionOf(keys, b[i]) {
      if i < |a| { assert VersionOf(keys, a[i]); } else { assert b[i] == b[|a|..][i - |a|]; }
    }
  }

  // ----- what is read back -----

  /** The last value a batch gives a key, if any. */
  function LastWrite(ws: seq<Write>, key: Key): Option<seq<Byte>> {
    if ws == [] then None
    else if ws[|ws| - 1].key == key then Some(ws[|ws| - 1].value)
    else LastWrite(ws[..|ws| - 1], key)
  }

  function ValueAt(keys: map<Key, Value>, key: Key): Option<seq<Byte>> {
    if key in keys then Some(keys[key].value) else None
  }

  function Either(a: Option<seq<Byte>>, b: Option<seq<Byte>>): Option<seq<Byte>> {
    if a.Some? then a else b
  }

  lemma {:induction false} LastWriteFront(w: Write, ws: seq<Write>, key: Key)
    ensures LastWrite([w] + ws, key) == Either(LastWrite(ws, key), if w.key == key then Some(w.value) else None)
  {
    if ws == [] {
      assert [w] + ws == [w] && [w][..0] == [];
    } else {
      var front := ws[..|ws| - 1];
      LastWriteFront(w, front, key);
      assert ([w] + ws)[..|ws|] == [w] + front;
    }
  }

  lemma {:induction false} WriteAllReads(cfg: Config, keys: map<Key, Value>, epoch: nat, b: Batch, ws: seq<Write>, key: Key)
    requires ValidConfig(cfg) && Healthy(b.forest)
    ensures
      var r := WriteAll(cfg, keys, epoch, b, ws);
      r.Some? ==> ValueAt(r.value.written, key) == Either(LastWrite(ws, key), ValueAt(b.written, key))
    decreases |ws|
  {
    if ws != [] {
      var b1 := WriteOne(cfg, keys, epoch, b, ws[0]);
      if b1.Some? {
        WriteAllReads(cfg, keys, epoch, b1.value, ws[1..], key);
        LastWriteFront(ws[0], ws[1..], key);
        assert [ws[0]] + ws[1..] == ws;
      }
    }
  }

  /** After a commit a key reads as the last value its batch gave it, or as before. */
  lemma CommitReads(cfg: Config, db: Db, ws: seq<Write>, key: Key)
    requires ValidConfig(cfg) && Healthy(db.forest) && NamesValid(cfg, db.forest)
    ensures
      var r := CommitBatch(cfg, db, ws);
      r.Some? ==> ValueAt(r.value.0.keys, key) == Either(LastWrite(ws, key), ValueAt(db.keys, key))
  {
    var start := Batch(db.forest, map[], []);
    WriteAllReads(cfg, db.keys, |db.history|, start, ws, key);
    if WriteAll(cfg, db.keys, |db.history|, start, ws).Some? { WriteAllNames(cfg, db.keys, |db.history|, start, ws); }
  }

  /** All the writes of a run. */
  function AllWrites(batches: seq<seq<Write>>): seq<Write> {
    if batches == [] then [] else AllWrites(batches[..|batches| - 1]) + batches[|batches| - 1]
  }

  lemma {:induction false} LastWriteConcat(a: seq<Write>, b: seq<Write>, key: Key)
    ensures LastWrite(a + b, key) == Either(LastWrite(b, key), LastWrite(a, key))
  {
    if b == [] {
      assert a + b == a;
    } else {
      var front := b[..|b| - 1];
      LastWriteConcat(a, front, key);
      assert (a + b)[..|a + b| - 1] == a + front;
    }
  }

  /** The store is a map: over any run a key reads as the last value written to it. */
  lemma {:induction false} RunReads(cfg: Config, batches: seq<seq<Write>>, key: Key)
    requires RootShard(cfg)
    ensures Run(cfg, batches).Some? ==> ValueAt(Run(cfg, batches).value.keys, key) == LastWrite(AllWrites(batches), key)
  {
    if batches != [] {
      var front, last := batches[..|batches| - 1], batches[|batches| - 1];
      RunReads(cfg, front, key);
      var before := Run(cfg, front);
      if before.Some? {
        CommitReads(cfg, before.value, last, key);
        LastWriteConcat(AllWrites(front), last, key);
      }
    }
  }
}
