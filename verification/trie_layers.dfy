/** When commits are safe: runs that never delete, and runs with at most two layers in memory; and
    exactly, commit by commit. */
module TrieLayers {
  import opened Basics
  import opened Nibbles
  import opened Tries
  import opened TrieUpdates
  import opened TrieStore
  import opened TrieCommit
  import opened TrieSafety
  import opened TrieOps
  import opened TriePut
  import opened TrieDel
  import opened TrieLive
  import opened TrieRun

  // ----- runs without deletes -----

  /** Listed nodes lie on the last layer in memory or below. */
  ghost predicate Deep(top: nat, l: Link, depth: nat)
    decreases l
  {
    l.Held? ==>
      && (l.node.listed ==> depth + 1 >= top)
      && match l.node.body
        case LeafBody(_, _) => true
        case BranchBody(children, _) => forall i :: 0 <= i < |children| ==> Deep(top, children[i], depth + 1)
        case ExtensionBody(_, child) => Deep(top, child, depth + 1)
  }

  lemma {:induction false} DeepClear(top: nat, n: Node, depth: nat)
    requires Deep(top, Held(n), depth)
    ensures Clear(top, n, depth)
    decreases n
  {
    match n.body
    case LeafBody(_, _) =>
    case BranchBody(children, _) =>
      forall i | 0 <= i < |children| ensures LinkClear(top, children[i], depth + 1) && CutSafe(top, n, children[i], depth + 1) {
        assert Deep(top, children[i], depth + 1);
        if children[i].Held? { DeepClear(top, children[i].node, depth + 1); }
      }
    case ExtensionBody(_, child) => if child.Held? { DeepClear(top, child.node, depth + 1); }
  }

  /** A subtree that moves down keeps its listed nodes deep. */
  lemma {:induction false} DeepDown(top: nat, l: Link, depth: nat, lower: nat)
    requires Deep(top, l, depth) && depth <= lower
    ensures Deep(top, l, lower)
    decreases l
  {
    if l.Held? {
      match l.node.body
      case LeafBody(_, _) =>
      case BranchBody(children, _) =>
        forall i | 0 <= i < |children| ensures Deep(top, children[i], lower + 1) {
          DeepDown(top, children[i], depth + 1, lower + 1);
        }
      case ExtensionBody(_, child) => DeepDown(top, child, depth + 1, lower + 1);
    }
  }

  lemma {:induction false} ExileDeep(top: nat, l: Link, at: nat, depth: nat)
    requires Deep(top, l, depth)
    ensures Deep(top, ExileLink(top, l, at), depth)
    decreases l
  {
    if l.Held? && at < top {
      match l.node.body
      case LeafBody(_, _) =>
      case BranchBody(children, _) =>
        forall i | 0 <= i < |children| ensures Deep(top, ExileLink(top, children[i], at + 1), depth + 1) {
          ExileDeep(top, children[i], at + 1, depth + 1);
        }
      case ExtensionBody(_, child) => ExileDeep(top, child, at + 1, depth + 1);
    }
  }

  /** A node just read from the store, short or long, lists nothing. */
  lemma {:induction false} LoadDeep(top: nat, t: Trie, depth: nat)
    ensures Deep(top, Held(Load(t)), depth) && Deep(top, LoadBelow(t), depth)
    decreases t
  {
    var n := Load(t);
    match t
    case Leaf(_, _) =>
    case Branch(children, _) =>
      forall i | 0 <= i < |children| ensures Deep(top, n.body.children[i], depth + 1) {
        assert LoadLinks(children)[i] == LoadChild(children[i]);
        if children[i].Owned? { LoadDeep(top, children[i].node, depth + 1); }
      }
      DeepFlags(top, n, n.(committed := false, stored := false), depth);
    case Extension(_, child) =>
      LoadDeep(top, child, depth + 1);
      DeepFlags(top, n, n.(committed := false, stored := false), depth);
  }

  lemma DeepFlags(top: nat, n: Node, n': Node, depth: nat)
    requires Deep(top, Held(n), depth) && n'.body == n.body && n'.listed == n.listed
    ensures Deep(top, Held(n'), depth)
  {
  }

  lemma LoadedDeep(top: nat, l: Link, depth: nat)
    requires Deep(top, l, depth)
    ensures Deep(top, Loaded(l), depth)
  {
    if l.Digest? { LoadDeep(top, l.of, depth); }
  }

  lemma {:induction false} NewDeep(top: nat, t: Trie, depth: nat)
    ensures Deep(top, Held(New(t)), depth)
    decreases t
  {
    match t
    case Leaf(_, _) =>
    case Branch(children, _) =>
      forall i | 0 <= i < |children| ensures Deep(top, NewLinks(children)[i], depth + 1) {
        assert NewLinks(children)[i] == NewLink(children[i]);
        if children[i].Owned? { NewDeep(top, children[i].node, depth + 1); }
      }
    case Extension(_, child) => NewDeep(top, child, depth + 1);
  }

  lemma StepDeep(top: nat, n: Node, k: Path, l: Link, depth: nat, n': Node)
    requires Deep(top, Held(n), depth) && !Step(n, k).0.Nil? && Deep(top, l, depth + 1)
    requires n'.body == WithStep(n, k, l).body && (n'.listed ==> depth + 1 >= top)
    ensures Deep(top, Held(n'), depth)
  {
    if n.body.BranchBody? {
      forall i | 0 <= i < |n.body.children| ensures Deep(top, n'.body.children[i], depth + 1) {
        assert Deep(top, n.body.children[i], depth + 1);
      }
    }
  }

  lemma {:induction false} WalkDeep(top: nat, n: Node, k: Path, depth: nat)
    requires Deep(top, Held(n), depth)
    ensures Deep(top, Held(Walk(top, n, k, depth)), depth)
    decreases Expand(n)
  {
    var (l, rest) := Step(n, k);
    if !l.Nil? {
      StepBelow(n, k);
      assert Deep(top, l, depth + 1);
      LoadedDeep(top, l, depth + 1);
      var child := Loaded(l).node;
      WalkDeep(top, child, rest, depth + 1);
      StepDeep(top, n, k, Held(Walk(top, child, rest, depth + 1)), depth, Walk(top, n, k, depth));
    }
  }

  lemma PushedDownDeep(top: nat, rest: Path, child: Link, depth: nat)
    requires Deep(top, child, depth + 1)
    ensures
      var l := PushedDown(top, rest, child, depth);
      Deep(top, l, depth + 1) && Deep(top, l, depth + 2)
  {
    var below := if rest == [] then child else Held(Fresh(ExtensionBody(rest, ExileLink(top, Loaded(child), depth + 2))));
    if rest != [] {
      LoadedDeep(top, child, depth + 1);
      DeepDown(top, Loaded(child), depth + 1, depth + 2);
      ExileDeep(top, Loaded(child), depth + 2, depth + 2);
    }
    assert Deep(top, below, depth + 1);
    ExileDeep(top, below, depth + 2, depth + 1);
    DeepDown(top, ExileLink(top, below, depth + 2), depth + 1, depth + 2);
  }

  lemma ForkDeep(top: nat, c: Nibble, below: Link, rest: Path, v: Bytes, depth: nat)
    requires Deep(top, below, depth + 1)
    ensures Deep(top, Held(Fresh(ForkBody(c, below, rest, v))), depth)
  {
    var b := ForkBody(c, below, rest, v);
    forall i | 0 <= i < 16 ensures Deep(top, b.children[i], depth + 1) {
      assert b.children[i] in {Nil, below} || b.children[i] == Held(Fresh(LeafBody(rest[1..], v)));
    }
  }

  lemma WrapDeep(top: nat, p: Path, b: Body, depth: nat)
    requires Deep(top, Held(Fresh(b)), if p == [] then depth else depth + 1)
    ensures Deep(top, Held(Fresh(WrapBody(p, b))), depth)
  {
  }

  lemma SplitExtensionDeep(top: nat, key: Path, child: Link, k: Path, v: Bytes, depth: nat)
    requires Deep(top, child, depth + 1) && !(key <= k)
    ensures Deep(top, Held(Fresh(SplitExtensionBody(top, key, child, k, v, depth))), depth)
  {
    var i := Common(k, key, 0);
    ForkInside(key, k);
    PushedDownDeep(top, key[i + 1..], child, depth);
    var below := PushedDown(top, key[i + 1..], child, depth);
    ForkDeep(top, key[i], below, k[i..], v, if k[..i] == [] then depth else depth + 1);
    WrapDeep(top, k[..i], ForkBody(key[i], below, k[i..], v), depth);
  }

  lemma PutHereDeep(top: nat, n: Node, k: Path, v: Bytes, depth: nat)
    requires Deep(top, Held(n), depth) && Step(n, k).0.Nil?
    ensures Deep(top, Held(Fresh(PutHere(top, n, k, v, depth))), depth)
  {
    match n.body
    case LeafBody(key, value) => if key != k { NewDeep(top, SplitLeaf(key, value, k, v), depth); }
    case BranchBody(children, value) =>
      var b := PutHere(top, n, k, v, depth);
      forall i | 0 <= i < |children| ensures Deep(top, b.children[i], depth + 1) {
        assert Deep(top, children[i], depth + 1);
      }
    case ExtensionBody(key, child) => if !(key <= k) { SplitExtensionDeep(top, key, child, k, v, depth); }
  }

  lemma {:induction false} PutDeep(top: nat, n: Node, k: Path, v: Bytes, depth: nat)
    requires Deep(top, Held(n), depth) && Walked(n, k)
    ensures Deep(top, Held(PutNode(top, n, k, v, depth)), depth)
    decreases n
  {
    var (l, rest) := Step(n, k);
    StepHeld(n, k);
    if l.Held? {
      assert Deep(top, l, depth + 1);
      PutDeep(top, l.node, rest, v, depth + 1);
      StepDeep(top, n, k, Held(PutNode(top, l.node, rest, v, depth + 1)), depth, PutNode(top, n, k, v, depth));
    } else {
      PutHereDeep(top, n, k, v, depth);
    }
  }

  /** After a commit nothing is listed. */
  lemma {:induction false} PruneDeep(top: nat, n: Node, depth: nat)
    ensures Deep(top, Held(Prune(n)), depth)
    decreases n
  {
    match n.body
    case LeafBody(_, _) =>
    case BranchBody(children, _) =>
      forall i | 0 <= i < |children| ensures Deep(top, CutIf(n.listed, PruneLink(children[i])), depth + 1) {
        if children[i].Held? { PruneDeep(top, children[i].node, depth + 1); }
      }
    case ExtensionBody(_, child) =>
      if child.Held? { PruneDeep(top, child.node, depth + 1); }
      assert Prune(n).body.child == CutIf(n.listed, PruneLink(child));
  }

  lemma ApplyDeep(top: nat, s: State, op: Op)
    requires Valid(top, s) && Deep(top, s.root, 0) && (op.Write? ==> op.value != [])
    ensures Deep(top, Apply(top, s, op).root, 0)
  {
    if s.root.Held? {
      match op
      case Read(key) => WalkDeep(top, s.root.node, FromBytes(key), 0);
      case Write(key, value) =>
        var k := FromBytes(key);
        WalkDeep(top, s.root.node, k, 0);
        WalkWalks(top, s.root.node, k, 0);
        PutDeep(top, Walk(top, s.root.node, k, 0), k, value, 0);
      case Commit => PruneDeep(top, Seal(top, s.root.node, 0), 0);
    }
  }

  /** Every trie that was committed in the run had no long node twice. */
  ghost predicate Undoubled(ops: seq<Op>) {
    forall i, t :: 0 <= i < |ops| && ops[i].Commit? && Canonical(t) && Holds(t, Contents(ops[..i])) ==> Distinct(Owned(t))
  }

  /** The trie represents the map. */
  ghost predicate Holds(t: Trie, m: map<Bytes, Bytes>) {
    forall k: Path :: Find(t, k) == Lookup(m, k)
  }

  /** What was last committed represented the map of some commit. */
  ghost predicate LastHolds(ops: seq<Op>, s: State) {
    s.last.Owned? ==> exists i :: 0 <= i < |ops| && ops[i].Commit? && Canonical(s.last.node) && Holds(s.last.node, Contents(ops[..i]))
  }

  lemma LastDistinct(ops: seq<Op>, s: State)
    requires LastHolds(ops, s) && Undoubled(ops)
    ensures Distinct(s.last)
  {
    if s.last.Owned? {
      var i :| 0 <= i < |ops| && ops[i].Commit? && Canonical(s.last.node) && Holds(s.last.node, Contents(ops[..i]));
    }
  }

  /** One more operation: what was last committed stays, or is the trie of this commit. */
  lemma LastStep(top: nat, ops: seq<Op>, s: State, op: Op)
    requires Valid(top, s) && LastHolds(ops, s) && Represents(s, Contents(ops))
    ensures LastHolds(ops + [op], Apply(top, s, op))
  {
    var s', ops' := Apply(top, s, op), ops + [op];
    if op.Commit? {
      assert ops'[..|ops|] == ops;
      if s'.last.Owned? {
        var t := s'.last.node;
        assert Owned(t) == ExpandLink(s.root);
        forall k: Path ensures Find(t, k) == Lookup(Contents(ops), k) {
          assert FindRoot(ExpandLink(s.root), k) == Lookup(Contents(ops), k);
        }
        assert ops'[|ops|].Commit? && Holds(t, Contents(ops'[..|ops|]));
      }
    } else if s.last.Owned? {
      var i :| 0 <= i < |ops| && ops[i].Commit? && Canonical(s.last.node) && Holds(s.last.node, Contents(ops[..i]));
      assert ops'[i] == ops[i] && ops'[..i] == ops[..i];
    }
  }

  lemma UndoubledPrefix(ops: seq<Op>)
    requires ops != [] && Undoubled(ops)
    ensures Undoubled(ops[..|ops| - 1])
  {
    var front := ops[..|ops| - 1];
    forall i, t | 0 <= i < |front| && front[i].Commit? && Canonical(t) && Holds(t, Contents(front[..i])) ensures Distinct(Owned(t)) {
      assert ops[i] == front[i] && ops[..i] == front[..i];
    }
  }

  ghost predicate DeletesNothing(ops: seq<Op>) {
    forall i :: 0 <= i < |ops| && ops[i].Write? ==> ops[i].value != []
  }

  /** Without deletes every commit is safe, with any number of layers in memory. */
  lemma {:induction false} WithoutDeletes(top: nat, ops: seq<Op>)
    requires DeletesNothing(ops) && Undoubled(ops)
    ensures Run(top, ops).Some? && Deep(top, Run(top, ops).value.root, 0) && LastHolds(ops, Run(top, ops).value)
  {
    if ops != [] {
      var front, op := ops[..|ops| - 1], ops[|ops| - 1];
      UndoubledPrefix(ops);
      WithoutDeletes(top, front);
      var s := Run(top, front).value;
      if s.root.Held? { DeepClear(top, s.root.node, 0); }
      LastDistinct(front, s);
      DistinctSafe(top, s);
      ApplyDeep(top, s, op);
      RunRepresents(top, front);
      LastStep(top, front, s, op);
      assert front + [op] == ops;
    }
  }

  // ----- two layers in memory -----

  /** With at most two layers only the root is above the border. */
  lemma {:induction false} ShallowClear(top: nat, n: Node, depth: nat)
    requires top <= 2 && (depth == 0 && top == 2 ==> !n.listed)
    ensures Clear(top, n, depth)
    decreases n
  {
    match n.body
    case LeafBody(_, _) =>
    case BranchBody(children, _) =>
      forall i | 0 <= i < |children| ensures LinkClear(top, children[i], depth + 1) && CutSafe(top, n, children[i], depth + 1) {
        if children[i].Held? { ShallowClear(top, children[i].node, depth + 1); }
      }
    case ExtensionBody(_, child) => if child.Held? { ShallowClear(top, child.node, depth + 1); }
  }

  ghost predicate RootUnlisted(s: State) {
    s.root.Held? ==> !s.root.node.listed
  }

  /** The root is never listed: it loads no child into the bottom layers, and whatever takes its
      place is new. */
  lemma ApplyUnlisted(s: State, op: Op)
    requires Valid(2, s) && RootUnlisted(s)
    ensures RootUnlisted(Apply(2, s, op))
  {
    if s.root.Held? && !op.Commit? { WalkKeeps(2, s.root.node, FromBytes(op.key), 0); }
  }

  /** With at most two layers in memory every commit is safe, deletes or not. */
  lemma {:induction false} TwoLayers(top: nat, ops: seq<Op>)
    requires top <= 2 && Undoubled(ops)
    ensures Run(top, ops).Some? && LastHolds(ops, Run(top, ops).value)
    ensures top == 2 ==> RootUnlisted(Run(top, ops).value)
  {
    if ops != [] {
      var front, op := ops[..|ops| - 1], ops[|ops| - 1];
      UndoubledPrefix(ops);
      TwoLayers(top, front);
      var s := Run(top, front).value;
      if s.root.Held? { ShallowClear(top, s.root.node, 0); }
      LastDistinct(front, s);
      DistinctSafe(top, s);
      if top == 2 { ApplyUnlisted(s, op); }
      RunRepresents(top, front);
      LastStep(top, front, s, op);
      assert front + [op] == ops;
    }
  }

  // ----- what the condition is worth -----

  /** No changed node that only memory holds has the encoding of a stored one. */
  ghost predicate Unshared(db: set<Trie>, top: nat, l: Link, depth: nat)
    decreases l
  {
    l.Held? ==>
      && (!l.node.committed && !Small(Expand(l.node)) && depth < top ==> Expand(l.node) !in db)
      && match l.node.body
        case LeafBody(_, _) => true
        case BranchBody(children, _) => forall i :: 0 <= i < |children| ==> Unshared(db, top, children[i], depth + 1)
        case ExtensionBody(_, child) => Unshared(db, top, child, depth + 1)
  }

  /** A node that only memory holds is not kept under its encoding, and neither is any below a
      listed one: what is kept is clear. */
  lemma {:induction false} GuardedClear(db: set<Trie>, db': set<Trie>, top: nat, n: Node, depth: nat)
    requires Sound(db, top, n, depth) && Guarded(db', top, n, depth) && Unshared(db', top, Held(n), depth)
    ensures Clear(top, n, depth)
    decreases n
  {
    match n.body
    case LeafBody(_, _) =>
    case BranchBody(children, _) =>
      forall i | 0 <= i < |children| ensures LinkClear(top, children[i], depth + 1) && CutSafe(top, n, children[i], depth + 1) {
        assert LinkGuarded(db', top, children[i], depth + 1) && CutGuarded(db', top, n, children[i], depth + 1);
        assert Unshared(db', top, children[i], depth + 1) && LinkSound(db, top, children[i], depth + 1);
        if children[i].Held? { GuardedClear(db, db', top, children[i].node, depth + 1); }
      }
    case ExtensionBody(_, child) =>
      if child.Held? { GuardedClear(db, db', top, child.node, depth + 1); }
  }

  /** Exactly when a commit is safe: every digest resolves after it if and only if what it cuts off
      above the border is kept and no deleted node is left behind a digest. */
  lemma CommitSafeExactly(top: nat, s: State)
    requires Valid(top, s) && s.root.Held?
    ensures
      var s', n := Committed(top, s), s.root.node;
      && (Resolves(s'.db, s'.root) <==> Guarded(s'.db, top, n, 0) && Unstranded(s.dels, top, n))
      && (Clear(top, n, 0) ==> (Resolves(s'.db, s'.root) <==> Unstranded(s.dels, top, n)))
  {
    CommitResolvesExactly(s.db, s.dels, top, s.root.node);
    if Clear(top, s.root.node, 0) { ClearGuards(Committed(top, s).db, top, s.root.node, 0); }
  }

  /** Where memory and store share no encoding, what is cut off is kept if and only if no listed
      node above the border has a changed long child. */
  lemma GuardedIsClear(top: nat, s: State)
    requires Valid(top, s) && s.root.Held? && Unshared(Committed(top, s).db, top, s.root, 0)
    ensures Guarded(Committed(top, s).db, top, s.root.node, 0) <==> Clear(top, s.root.node, 0)
  {
    var db', n := Committed(top, s).db, s.root.node;
    if Clear(top, n, 0) { ClearGuards(db', top, n, 0); }
    if Guarded(db', top, n, 0) { GuardedClear(s.db, db', top, n, 0); }
  }
}
