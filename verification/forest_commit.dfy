/** Commit visits every marked tree, leaves the forest clean, and keeps parents, children and
    ledger in step. */
module ForestCommit {
  import opened Basics
  import opened Scalar
  import opened Bits
  import opened NodeIndices
  import opened ProveParams
  import opened VersionNode
  import opened Amt
  import opened Forest
  import opened ForestContent

  /** Entry conditions of a commit at `name`. */
  ghost predicate Ready(cfg: Config, p: Progress, name: Name) {
    ValidConfig(cfg) && Closed(cfg, p.forest) && name in p.forest.trees
  }

  ghost predicate ReadyFor(cfg: Config, p: Progress, name: Name, indices: seq<nat>) {
    Ready(cfg, p, name) && ChildrenExist(cfg, p.forest, name, Elements(indices))
  }

  /** After one child the others still exist. */
  lemma RestReady(cfg: Config, p: Progress, p2: Progress, name: Name, indices: seq<nat>)
    requires indices != [] && ReadyFor(cfg, p, name, indices)
    requires Closed(cfg, p2.forest) && p2.forest.trees.Keys == p.forest.trees.Keys
    ensures ReadyFor(cfg, p2, name, indices[1..])
  {
    forall i | i in Elements(indices[1..]) ensures name + [i] in p2.forest.trees && i < Pow2(cfg.pp.depths) {
      assert i in Elements(indices);
    }
  }

  // ----- frame -----

  /** Only trees at or below `name` change, and leaves are only appended. */
  ghost predicate Framed(p: Progress, p': Progress, name: Name) {
    && p'.forest.trees.Keys == p.forest.trees.Keys
    && p.leaves <= p'.leaves
    && forall n :: n in p.forest.trees && !(name <= n) ==> p'.forest.trees[n] == p.forest.trees[n]
  }

  lemma {:induction false} CommitFrame(cfg: Config, p: Progress, name: Name, epoch: nat)
    requires Ready(cfg, p, name)
    ensures Framed(p, CommitTree(cfg, p, name, epoch).0, name)
    decreases p.forest.layers - |name|, |p.forest.trees[name].marks| + 1
  {
    var marks := p.forest.trees[name].marks;
    AscendingLength(marks);
    assert ClosedAt(cfg, p.forest, name);
    ChildrenFrame(cfg, p, name, Ascending(marks), epoch);
  }

  lemma {:induction false} ChildrenFrame(cfg: Config, p: Progress, name: Name, indices: seq<nat>, epoch: nat)
    requires ReadyFor(cfg, p, name, indices)
    ensures Framed(p, CommitChildren(cfg, p, name, indices, epoch), name)
    ensures CommitChildren(cfg, p, name, indices, epoch).forest.trees[name].marked == p.forest.trees[name].marked
    ensures CommitChildren(cfg, p, name, indices, epoch).forest.trees[name].marks == p.forest.trees[name].marks
    decreases p.forest.layers - |name|, |indices|
  {
    if indices != [] {
      var child := name + [indices[0]];
      assert indices[0] in Elements(indices);
      assert ClosedAt(cfg, p.forest, child);
      CommitFrame(cfg, p, child, epoch);
      var (p1, dirty, commitment) := CommitTree(cfg, p, child, epoch);
      assert !(child <= name);
      var p2 := if dirty then ChildPushed(cfg, p1, name, indices[0], commitment, epoch) else p1;
      assert Framed(p, p2, name);
      RestReady(cfg, p, p2, name, indices);
      ChildrenFrame(cfg, p2, name, indices[1..], epoch);
    }
  }

  // ----- clean -----

  ghost predicate Clean(f: Forest, n: Name)
    requires n in f.trees
  {
    !f.trees[n].marked && !f.trees[n].tree.dirty
  }

  ghost predicate CleanBelow(f: Forest, name: Name) {
    forall n {:trigger Clean(f, n)} :: n in f.trees && name < n ==> Clean(f, n)
  }

  /** Strictly below `name`, only trees marked in their parents are marked, and only marked ones dirty;
      the children of `name` itself are marked only if they are still to be visited. */
  ghost predicate Pending(f: Forest, name: Name, indices: set<nat>) {
    forall n {:trigger PendingAt(f, name, indices, n)} :: n in f.trees && name < n ==> PendingAt(f, name, indices, n)
  }

  ghost predicate PendingAt(f: Forest, name: Name, indices: set<nat>, n: Name)
    requires n in f.trees && name < n
  {
    && Parent(n) in f.trees
    && (f.trees[n].tree.dirty ==> f.trees[n].marked)
    && (f.trees[n].marked ==>
          if Parent(n) == name then Last(n) in indices
          else f.trees[Parent(n)].marked && Last(n) in f.trees[Parent(n)].marks)
  }

  lemma StructuredPending(f: Forest, name: Name)
    requires Structured(f) && name in f.trees
    ensures Pending(f, name, f.trees[name].marks)
  {
    forall n | n in f.trees && name < n ensures PendingAt(f, name, f.trees[name].marks, n) {
      assert NodeStructured(f, n);
    }
  }

  /** With no child left to visit, nothing below is marked or dirty. */
  lemma {:induction false} PendingNone(f: Forest, name: Name, n: Name)
    requires Pending(f, name, {}) && n in f.trees && name < n
    ensures Clean(f, n)
    decreases |n|
  {
    assert PendingAt(f, name, {}, n);
    if Parent(n) != name {
      assert name < Parent(n);
      PendingNone(f, name, Parent(n));
    }
  }

  lemma {:induction false} CommitClean(cfg: Config, p: Progress, name: Name, epoch: nat)
    requires Ready(cfg, p, name) && Pending(p.forest, name, p.forest.trees[name].marks)
    ensures
      var f' := CommitTree(cfg, p, name, epoch).0.forest;
      && !f'.trees[name].marked && (name != [] ==> !f'.trees[name].tree.dirty)
      && CleanBelow(f', name)
    decreases p.forest.layers - |name|, |p.forest.trees[name].marks| + 1
  {
    var marks := p.forest.trees[name].marks;
    AscendingLength(marks);
    assert ClosedAt(cfg, p.forest, name);
    assert Elements(Ascending(marks)) == marks;
    ChildrenClean(cfg, p, name, Ascending(marks), epoch);
    var f1, f' := CommitChildren(cfg, p, name, Ascending(marks), epoch).forest, CommitTree(cfg, p, name, epoch).0.forest;
    forall n | n in f'.trees && name < n ensures Clean(f', n) {
      assert n in f1.trees && Clean(f1, n);
    }
  }

  lemma {:induction false} ChildrenClean(cfg: Config, p: Progress, name: Name, indices: seq<nat>, epoch: nat)
    requires ReadyFor(cfg, p, name, indices) && Pending(p.forest, name, Elements(indices))
    ensures
      var f' := CommitChildren(cfg, p, name, indices, epoch).forest;
      CleanBelow(f', name)
    decreases p.forest.layers - |name|, |indices|
  {
    if indices == [] {
      assert Elements(indices) == {};
      forall n | n in p.forest.trees && name < n ensures Clean(p.forest, n) { PendingNone(p.forest, name, n); }
    } else {
      var child := name + [indices[0]];
      assert indices[0] in Elements(indices);
      assert ClosedAt(cfg, p.forest, child);
      ChildPending(p.forest, name, Elements(indices), child);
      CommitClean(cfg, p, child, epoch);
      CommitFrame(cfg, p, child, epoch);
      var (p1, dirty, commitment) := CommitTree(cfg, p, child, epoch);
      var p2 := if dirty then ChildPushed(cfg, p1, name, indices[0], commitment, epoch) else p1;
      CleanStays(p1.forest, p2.forest, name, child);
      RestPending(p.forest, p2.forest, name, indices);
      RestReady(cfg, p, p2, name, indices);
      ChildrenClean(cfg, p2, name, indices[1..], epoch);
    }
  }

  /** A change of the tree at `name` leaves the trees below alone. */
  lemma CleanStays(f: Forest, f': Forest, name: Name, child: Name)
    requires name < child && f'.trees.Keys == f.trees.Keys && CleanBelow(f, child)
    requires forall n :: n in f.trees && n != name ==> f'.trees[n] == f.trees[n]
    ensures CleanBelow(f', child)
  {
    forall n | n in f'.trees && child < n ensures Clean(f', n) {
      assert Clean(f, n);
    }
  }

  lemma ChildPending(f: Forest, name: Name, indices: set<nat>, child: Name)
    requires Pending(f, name, indices) && name < child && child in f.trees
    ensures Pending(f, child, f.trees[child].marks)
  {
    forall n | n in f.trees && child < n ensures PendingAt(f, child, f.trees[child].marks, n) {
      assert PendingAt(f, name, indices, n);
      assert child <= Parent(n);
    }
  }

  /** After a child's subtree is clean, the other children are still to be visited. */
  lemma RestPending(f: Forest, f2: Forest, name: Name, indices: seq<nat>)
    requires indices != [] && Pending(f, name, Elements(indices)) && f2.trees.Keys == f.trees.Keys
    requires name + [indices[0]] in f2.trees && Clean(f2, name + [indices[0]])
    requires CleanBelow(f2, name + [indices[0]])
    requires forall n :: n in f.trees && n != name && !(name + [indices[0]] <= n) ==> f2.trees[n] == f.trees[n]
    ensures Pending(f2, name, Elements(indices[1..]))
  {
    var child := name + [indices[0]];
    forall n | n in f2.trees && name < n ensures PendingAt(f2, name, Elements(indices[1..]), n) {
      assert PendingAt(f, name, Elements(indices), n);
      if child <= n {
        if |n| == |child| { assert n == child; }
        assert Clean(f2, n);
      } else if f2.trees[n].marked {
        ChildOfParent(n);
        if Parent(n) == name {
          assert Last(n) != indices[0];
          assert Last(n) in indices[1..];
        } else {
          assert child <= Parent(n) ==> child <= n;
        }
      }
    }
  }

  // ----- content -----

  /** What a commit at `name` guarantees about content: `name` itself is told to its parent later,
      if it changed. */
  ghost predicate CommitResult(cfg: Config, p: Progress, hist: Ledger, name: Name, r: (Progress, bool, Point))
    requires Shaped(cfg.pp)
  {
    var ex := if r.1 && name != [] then Some(name) else None;
    && name in r.0.forest.trees && r.0.forest.trees[name].tree.commitment == Some(r.2)
    && Content(cfg, r.0.forest, hist, r.0.leaves, ex)
    && Evolves(p.forest, r.0.forest, ex)
  }

  lemma RecordedGrows(hist: Ledger, cur: seq<Leaf>, cur': seq<Leaf>, pos: EpochPosition, leaf: Leaf)
    requires Recorded(hist, cur, pos, leaf) && cur <= cur'
    ensures Recorded(hist, cur', pos, leaf)
  {
  }

  /** The parent's tree after a child was pushed: consistent, dirty, and changed in one entry. */
  lemma PushUpEffect(cfg: Config, t: Tree, index: nat, commitment: Point, pos: EpochPosition)
    requires Shaped(cfg.pp) && Consistent(cfg.pp, t) && t.commitment.Some? && index < Pow2(cfg.pp.depths)
    ensures
      var t', node := PushUp(cfg, t, index, commitment, pos), DataAt(t, index);
      && t'.commitment.Some? && Consistent(cfg.pp, t') && t'.shard == t.shard && t'.dirty
      && t'.data == t.data[index := node.(treeVersion := node.treeVersion + 1, treePosition := pos)]
      && t'.subtreeRoots == t.subtreeRoots[index := commitment]
  {
    var t1, node := t.(subtreeRoots := t.subtreeRoots[index := commitment]), DataAt(t, index);
    var node' := node.(treeVersion := node.treeVersion + 1, treePosition := pos);
    SameDataConsistent(cfg.pp, t, t1);
    assert DataAt(t1, index) == node && Versions(node') == Versions(node)[0 := Versions(node)[0] + 1];
    CountedWrite(cfg.pp, t1, index, node', 0);
    WriteFrames(cfg.pp, t1, index, node');
  }

  ghost predicate Pushed(cfg: Config, p: Progress, p': Progress, hist: Ledger, name: Name, index: nat, commitment: Point)
    requires Shaped(cfg.pp) && name in p.forest.trees
  {
    && p'.forest.trees.Keys == p.forest.trees.Keys
    && (forall n :: n in p.forest.trees && n != name ==> p'.forest.trees[n] == p.forest.trees[n])
    && var t, t' := p.forest.trees[name].tree, p'.forest.trees[name].tree;
    && var node := DataAt(t, index);
    && t'.commitment.Some? && Consistent(cfg.pp, t') && t'.shard == t.shard && t'.dirty
    && t'.data == t.data[index := node.(treeVersion := node.treeVersion + 1,
                                        treePosition := EpochPosition(|hist|, |p.leaves|))]
    && t'.subtreeRoots == t.subtreeRoots[index := commitment]
    && p'.leaves == p.leaves + [TreeLeaf(name + [index], node.treeVersion + 1, commitment)]
  }

  /** Pushing an exempted child into its parent restores the content. */
  lemma PushedContent(cfg: Config, p: Progress, hist: Ledger, name: Name, index: nat, commitment: Point)
    requires Ready(cfg, p, name) && index < Pow2(cfg.pp.depths) && name + [index] in p.forest.trees
    requires Content(cfg, p.forest, hist, p.leaves, Some(name + [index]))
    requires p.forest.trees[name + [index]].tree.commitment == Some(commitment)
    ensures
      var p' := ChildPushed(cfg, p, name, index, commitment, |hist|);
      && Content(cfg, p'.forest, hist, p'.leaves, None) && Evolves(p.forest, p'.forest, None)
      && Live(p'.forest, name + [index])
  {
    var child := name + [index];
    assert NodeContent(cfg, p.forest, hist, p.leaves, Some(child), name);
    var p' := ChildPushed(cfg, p, name, index, commitment, |hist|);
    ChildPushedIsPushed(cfg, p, hist, name, index, commitment);
    forall n | n in p'.forest.trees ensures NodeContent(cfg, p'.forest, hist, p'.leaves, None, n) {
      assert NodeContent(cfg, p.forest, hist, p.leaves, Some(child), n);
      PushedNode(cfg, p, p', hist, name, index, commitment, n);
    }
    PushedEvolves(cfg, p, p', hist, name, index, commitment);
  }

  lemma ChildPushedIsPushed(cfg: Config, p: Progress, hist: Ledger, name: Name, index: nat, commitment: Point)
    requires Ready(cfg, p, name) && index < Pow2(cfg.pp.depths) && Consistent(cfg.pp, p.forest.trees[name].tree)
    ensures Pushed(cfg, p, ChildPushed(cfg, p, name, index, commitment, |hist|), hist, name, index, commitment)
  {
    assert ClosedAt(cfg, p.forest, name);
    PushUpEffect(cfg, p.forest.trees[name].tree, index, commitment, EpochPosition(|hist|, |p.leaves|));
  }

  lemma PushedEvolves(cfg: Config, p: Progress, p': Progress, hist: Ledger, name: Name, index: nat, commitment: Point)
    requires Shaped(cfg.pp) && name in p.forest.trees && name + [index] in p.forest.trees
    requires Pushed(cfg, p, p', hist, name, index, commitment)
    ensures Evolves(p.forest, p'.forest, None) && Live(p'.forest, name + [index])
  {
    ParentOfChild(name, index);
    forall n | n in p.forest.trees ensures n in p'.forest.trees && TreeEvolves(p.forest, p'.forest, None, n) {
    }
  }

  lemma PushedNode(cfg: Config, p: Progress, p': Progress, hist: Ledger, name: Name, index: nat, commitment: Point, n: Name)
    requires Shaped(cfg.pp) && name in p.forest.trees && name + [index] in p.forest.trees && n in p.forest.trees
    requires NodeContent(cfg, p.forest, hist, p.leaves, Some(name + [index]), n)
    requires p.forest.trees[name + [index]].tree.commitment == Some(commitment)
    requires Pushed(cfg, p, p', hist, name, index, commitment)
    ensures NodeContent(cfg, p'.forest, hist, p'.leaves, None, n)
  {
    var f, f', child := p.forest, p'.forest, name + [index];
    var t' := f'.trees[name].tree;
    ParentOfChild(name, index);
    if n == name {
      forall i: nat | n + [i] !in f'.trees ensures Vacant(t', i) {
        assert Vacant(f.trees[n].tree, i);
      }
    } else {
      assert f'.trees[n] == f.trees[n];
      assert Live(f, n) ==> Live(f', n);
      if n == child {
        assert Linked(f', hist, p'.leaves, n);
      } else if n != [] && !f.trees[n].tree.dirty {
        ChildOfParent(n);
        LinkStays(f, f', hist, p.leaves, p'.leaves, name, index, n);
      }
    }
  }

  lemma LinkStays(f: Forest, f': Forest, hist: Ledger, cur: seq<Leaf>, cur': seq<Leaf>, name: Name, index: nat, n: Name)
    requires n in f.trees && n in f'.trees && n != [] && n != name + [index] && n != name
    requires Parent(n) in f.trees && Parent(n) in f'.trees && f.trees[n].tree.commitment.Some?
    requires Linked(f, hist, cur, n) && cur <= cur' && f'.trees[n] == f.trees[n]
    requires Parent(n) != name ==> f'.trees[Parent(n)] == f.trees[Parent(n)]
    requires name in f.trees && name in f'.trees
    requires forall i: nat :: i != index ==>
      && DataAt(f'.trees[name].tree, i) == DataAt(f.trees[name].tree, i)
      && SubtreeRoot(f'.trees[name].tree, i) == SubtreeRoot(f.trees[name].tree, i)
    ensures Linked(f', hist, cur', n)
  {
    ChildOfParent(n);
    var node := DataAt(f.trees[Parent(n)].tree, Last(n));
    if node.treeVersion > 0 {
      RecordedGrows(hist, cur, cur', node.treePosition, TreeLeaf(n, node.treeVersion, f.trees[n].tree.commitment.value));
    }
  }

  /** Flushing a tree: it is exempt if it was dirty. */
  lemma FlushedContent(cfg: Config, p: Progress, hist: Ledger, name: Name)
    requires Ready(cfg, p, name) && Content(cfg, p.forest, hist, p.leaves, None)
    ensures
      var info := p.forest.trees[name];
      var tree := if name == [] then info.tree else info.tree.(dirty := false);
      var f' := p.forest.(trees := p.forest.trees[name := TreeInfo(tree, false, {})]);
      var ex := if info.tree.dirty && name != [] then Some(name) else None;
      Content(cfg, f', hist, p.leaves, ex) && Evolves(p.forest, f', ex)
  {
    var f, info := p.forest, p.forest.trees[name];
    var tree := if name == [] then info.tree else info.tree.(dirty := false);
    var f' := f.(trees := f.trees[name := TreeInfo(tree, false, {})]);
    var ex := if info.tree.dirty && name != [] then Some(name) else None;
    forall n | n in f'.trees ensures NodeContent(cfg, f', hist, p.leaves, ex, n) {
      assert NodeContent(cfg, f, hist, p.leaves, None, n);
      FlushedNode(cfg, f, f', hist, p.leaves, name, ex, n);
    }
    FlushedEvolves(f, f', name, ex);
  }

  lemma FlushedEvolves(f: Forest, f': Forest, name: Name, ex: Option<Name>)
    requires name in f.trees && ex == if f.trees[name].tree.dirty && name != [] then Some(name) else None
    requires f'.trees == f.trees[name := TreeInfo(
      if name == [] then f.trees[name].tree else f.trees[name].tree.(dirty := false), false, {})]
    ensures Evolves(f, f', ex)
  {
  }

  lemma FlushedNode(cfg: Config, f: Forest, f': Forest, hist: Ledger, cur: seq<Leaf>, name: Name, ex: Option<Name>, n: Name)
    requires Shaped(cfg.pp) && name in f.trees && n in f.trees && NodeContent(cfg, f, hist, cur, None, n)
    requires ex == if f.trees[name].tree.dirty && name != [] then Some(name) else None
    requires f'.trees == f.trees[name := TreeInfo(
      if name == [] then f.trees[name].tree else f.trees[name].tree.(dirty := false), false, {})]
    ensures NodeContent(cfg, f', hist, cur, ex, n)
  {
    var t, t' := f.trees[n].tree, f'.trees[n].tree;
    if n == name {
      SameDataConsistent(cfg.pp, t, t');
    }
    assert Live(f, n) ==> Live(f', n) || ex == Some(n);
    forall i: nat | n + [i] !in f'.trees ensures Vacant(t', i) {
      assert Vacant(t, i);
    }
  }

  lemma {:induction false} CommitContent(cfg: Config, p: Progress, hist: Ledger, name: Name)
    requires Ready(cfg, p, name) && Content(cfg, p.forest, hist, p.leaves, None)
    ensures CommitResult(cfg, p, hist, name, CommitTree(cfg, p, name, |hist|))
    decreases p.forest.layers - |name|, |p.forest.trees[name].marks| + 1
  {
    var marks := p.forest.trees[name].marks;
    AscendingLength(marks);
    assert ClosedAt(cfg, p.forest, name);
    ChildrenContent(cfg, p, hist, name, Ascending(marks));
    var p1 := CommitChildren(cfg, p, name, Ascending(marks), |hist|);
    FlushedContent(cfg, p1, hist, name);
    var r := CommitTree(cfg, p, name, |hist|);
    EvolvesExempt(p.forest, p1.forest, r.0.forest, if r.1 && name != [] then Some(name) else None);
    assert ClosedAt(cfg, p1.forest, name);
  }

  lemma EvolvesExempt(f: Forest, f1: Forest, f2: Forest, ex: Option<Name>)
    requires Evolves(f, f1, None) && Evolves(f1, f2, ex)
    ensures Evolves(f, f2, ex)
  {
    forall n | n in f.trees ensures n in f2.trees && TreeEvolves(f, f2, ex, n) {
      assert TreeEvolves(f, f1, None, n) && TreeEvolves(f1, f2, ex, n);
      forall i: nat
        ensures |DataAt(f2.trees[n].tree, i).keyVersions| >= |DataAt(f.trees[n].tree, i).keyVersions|
        ensures TreeVersion(f2, n, i) >= TreeVersion(f, n, i)
      {
        assert TreeVersion(f1, n, i) >= TreeVersion(f, n, i);
      }
    }
  }

  /** An exemption is lifted once the exempted tree is live again. */
  lemma EvolvesLifted(f: Forest, f1: Forest, f2: Forest, child: Name)
    requires Evolves(f, f1, Some(child)) && Evolves(f1, f2, None) && child in f2.trees && Live(f2, child)
    ensures Evolves(f, f2, None)
  {
    forall n | n in f.trees ensures n in f2.trees && TreeEvolves(f, f2, None, n) {
      assert TreeEvolves(f, f1, Some(child), n) && TreeEvolves(f1, f2, None, n);
      forall i: nat
        ensures |DataAt(f2.trees[n].tree, i).keyVersions| >= |DataAt(f.trees[n].tree, i).keyVersions|
        ensures TreeVersion(f2, n, i) >= TreeVersion(f, n, i)
      {
        assert TreeVersion(f1, n, i) >= TreeVersion(f, n, i);
      }
    }
  }

  lemma {:induction false} ChildrenContent(cfg: Config, p: Progress, hist: Ledger, name: Name, indices: seq<nat>)
    requires ReadyFor(cfg, p, name, indices) && Content(cfg, p.forest, hist, p.leaves, None)
    ensures
      var p' := CommitChildren(cfg, p, name, indices, |hist|);
      Content(cfg, p'.forest, hist, p'.leaves, None) && Evolves(p.forest, p'.forest, None)
    decreases p.forest.layers - |name|, |indices|
  {
    if indices != [] {
      var child := name + [indices[0]];
      assert indices[0] in Elements(indices);
      assert ClosedAt(cfg, p.forest, child);
      CommitContent(cfg, p, hist, child);
      var (p1, dirty, commitment) := CommitTree(cfg, p, child, |hist|);
      var p2 := if dirty then ChildPushed(cfg, p1, name, indices[0], commitment, |hist|) else p1;
      if dirty {
        PushedContent(cfg, p1, hist, name, indices[0], commitment);
        EvolvesLifted(p.forest, p1.forest, p2.forest, child);
      }
      RestReady(cfg, p, p2, name, indices);
      ChildrenContent(cfg, p2, hist, name, indices[1..]);
      EvolvesTransitive(p.forest, p2.forest, CommitChildren(cfg, p2, name, indices[1..], |hist|).forest);
    }
  }
}
