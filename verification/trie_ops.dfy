/** Search, insertion and deletion on nodes in memory: children are loaded on the way, changed
    nodes leave their lists, and splits save what they push down. */
module TrieOps {
  import opened Basics
  import opened Nibbles
  import opened Tries
  import opened TrieUpdates
  import opened TrieStore
  import opened TrieCommit

  // ----- search -----

  /** The link a search follows, and what it leaves of the path. */
  function Step(n: Node, k: Path): (r: (Link, Path)) {
    match n.body
    case LeafBody(_, _) => (Nil, [])
    case BranchBody(children, _) => if k == [] || k[0] >= |children| then (Nil, []) else (children[k[0]], k[1..])
    case ExtensionBody(key, child) => if key <= k then (child, k[|key|..]) else (Nil, [])
  }

  /** The node with another link where the search went on. */
  function WithStep(n: Node, k: Path, l: Link): Node {
    match n.body
    case LeafBody(_, _) => n
    case BranchBody(children, value) =>
      if k == [] || k[0] >= |children| then n else n.(body := BranchBody(children[k[0] := l], value))
    case ExtensionBody(key, child) => n.(body := ExtensionBody(key, l))
  }

  function Loaded(l: Link): (l': Link)
    ensures ExpandLink(l') == ExpandLink(l)
  {
    if l.Digest? then Held(Load(l.of)) else l
  }

  /** The search went from the trie to this part of it. */
  lemma StepBelow(n: Node, k: Path)
    requires !Step(n, k).0.Nil?
    ensures ExpandLink(Step(n, k).0).node < Expand(n)
  {
    var l := Step(n, k).0;
    if n.body.BranchBody? {
      assert Expand(n).children[k[0]] == ExpandLink(l);
      assert ExpandLink(l) < Expand(n);
    }
  }

  lemma StepExpand(n: Node, k: Path, l: Link)
    requires !Step(n, k).0.Nil? && ExpandLink(l) == ExpandLink(Step(n, k).0)
    ensures Expand(WithStep(n, k, l)) == Expand(n)
  {
    if n.body.BranchBody? {
      assert ExpandLinks(n.body.children[k[0] := l]) == ExpandLinks(n.body.children);
    }
  }

  /** A search for a path: the nodes on the way are loaded, and a node whose child was loaded into
      the bottom layers is listed. */
  function Walk(top: nat, n: Node, k: Path, depth: nat): (n': Node)
    ensures Expand(n') == Expand(n)
    decreases Expand(n)
  {
    var (l, rest) := Step(n, k);
    if l.Nil? then n
    else
      StepBelow(n, k);
      var child := Loaded(l).node;
      var below := Held(Walk(top, child, rest, depth + 1));
      StepExpand(n, k, below);
      var n' := WithStep(n, k, below);
      n'.(listed := n.listed || (l.Digest? && depth + 1 >= top))
  }

  /** Everything on the search path is in memory. */
  ghost predicate Walked(n: Node, k: Path)
    decreases n
  {
    var (l, rest) := Step(n, k);
    StepHeld(n, k);
    l.Nil? || (l.Held? && Walked(l.node, rest))
  }

  lemma StepHeld(n: Node, k: Path)
    ensures Step(n, k).0.Held? ==> Step(n, k).0.node < n
  {
    var l := Step(n, k).0;
    if n.body.BranchBody? && l.Held? {
      assert l in n.body.children;
      assert l < n.body;
    }
  }

  lemma {:induction false} WalkWalks(top: nat, n: Node, k: Path, depth: nat)
    ensures Walked(Walk(top, n, k, depth), k)
    decreases Expand(n)
  {
    var (l, rest) := Step(n, k);
    if !l.Nil? {
      StepBelow(n, k);
      WalkWalks(top, Loaded(l).node, rest, depth + 1);
    }
  }

  /** Replacing a link and raising the flag of its parent. */
  lemma StepSound(db: set<Trie>, top: nat, n: Node, k: Path, l: Link, depth: nat, listed: bool)
    requires Sound(db, top, n, depth) && !Step(n, k).0.Nil? && ExpandLink(l) == ExpandLink(Step(n, k).0)
    requires LinkSound(db, top, l, depth + 1) && LinkFits(top, n.(listed := n.listed || listed), l, depth + 1)
    requires listed ==> depth + 1 >= top
    ensures Sound(db, top, WithStep(n, k, l).(listed := n.listed || listed), depth)
  {
    StepExpand(n, k, l);
    var n' := WithStep(n, k, l).(listed := n.listed || listed);
    assert Expand(n') == Expand(n);
    if n.body.BranchBody? {
      var children, links := n.body.children, n'.body.children;
      forall i | 0 <= i < |links| ensures LinkSound(db, top, links[i], depth + 1) && LinkFits(top, n', links[i], depth + 1) {
        assert LinkFits(top, n, children[i], depth + 1);
      }
    }
  }

  lemma LoadedSound(db: set<Trie>, top: nat, n: Node, l: Link, depth: nat)
    requires LinkSound(db, top, l, depth) && LinkFits(top, n, l, depth) && (l.Digest? ==> Shaped(l.of))
    ensures LinkSound(db, top, Loaded(l), depth) && LinkFits(top, n, Loaded(l), depth)
    ensures l.Digest? ==> Loaded(l).node.committed && Loaded(l).node.stored
  {
    if l.Digest? { LoadSound(db, top, l.of, depth); }
  }

  lemma StepShaped(n: Node, k: Path)
    requires Shaped(Expand(n)) && !Step(n, k).0.Nil?
    ensures Shaped(ExpandLink(Step(n, k).0).node)
  {
    if n.body.BranchBody? { assert Expand(n).children[k[0]] == ExpandLink(Step(n, k).0); }
  }

  /** What a search keeps of a node. */
  lemma WalkKeeps(top: nat, n: Node, k: Path, depth: nat)
    ensures
      var n' := Walk(top, n, k, depth);
      && n'.committed == n.committed && n'.stored == n.stored && n'.exiled == n.exiled
      && (n'.listed ==> n.listed || depth + 1 >= top) && (n.listed ==> n'.listed)
  {
  }

  lemma {:induction false} WalkSound(db: set<Trie>, top: nat, n: Node, k: Path, depth: nat)
    requires Sound(db, top, n, depth) && Shaped(Expand(n))
    ensures Sound(db, top, Walk(top, n, k, depth), depth)
    decreases Expand(n)
  {
    var (l, rest) := Step(n, k);
    if !l.Nil? {
      StepBelow(n, k);
      StepShaped(n, k);
      assert LinkSound(db, top, l, depth + 1) && LinkFits(top, n, l, depth + 1);
      LoadedSound(db, top, n, l, depth + 1);
      var child := Loaded(l).node;
      WalkSound(db, top, child, rest, depth + 1);
      WalkKeeps(top, child, rest, depth + 1);
      StepSound(db, top, n, k, Held(Walk(top, child, rest, depth + 1)), depth, l.Digest? && depth + 1 >= top);
    }
  }

}
