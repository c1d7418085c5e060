/** Insertion on nodes in memory. */
module TriePut {
  import opened Basics
  import opened Nibbles
  import opened Tries
  import opened TrieUpdates
  import opened TrieStore
  import opened TrieCommit
  import opened TrieOps

  // ----- new nodes -----

  function Fresh(b: Body): Node {
    Node(b, false, false, false, false)
  }

  /** The trie as new nodes. */
  function New(t: Trie): (n: Node)
    ensures Expand(n) == t && n == Fresh(n.body)
    decreases t
  {
    match t
    case Leaf(key, value) => Fresh(LeafBody(key, value))
    case Branch(children, value) =>
      var links := NewLinks(children);
      assert ExpandLinks(links) == children;
      Fresh(BranchBody(links, value))
    case Extension(key, child) => Fresh(ExtensionBody(key, Held(New(child))))
  }

  function NewLink(c: Child): (l: Link)
    ensures ExpandLink(l) == c
    decreases c
  {
    if c.Null? then Nil else Held(New(c.node))
  }

  function NewLinks(children: seq<Child>): (links: seq<Link>)
    ensures |links| == |children| && forall i :: 0 <= i < |children| ==> links[i] == NewLink(children[i])
    decreases children
  {
    seq(|children|, i requires 0 <= i < |children| => NewLink(children[i]))
  }

  lemma {:induction false} NewSound(db: set<Trie>, top: nat, t: Trie, depth: nat)
    requires Shaped(t)
    ensures Sound(db, top, New(t), depth)
    decreases t
  {
    match t
    case Leaf(_, _) =>
    case Branch(children, _) =>
      forall i | 0 <= i < |children| && children[i].Owned? ensures Sound(db, top, New(children[i].node), depth + 1) {
        NewSound(db, top, children[i].node, depth + 1);
      }
      var n := New(t);
      forall i | 0 <= i < |children|
        ensures LinkSound(db, top, n.body.children[i], depth + 1) && LinkFits(top, n, n.body.children[i], depth + 1)
      {
        assert n.body.children[i] == NewLink(children[i]);
      }
    case Extension(_, child) => NewSound(db, top, child, depth + 1);
  }

  lemma ExpandUpdate(links: seq<Link>, i: nat, l: Link)
    requires i < |links|
    ensures ExpandLinks(links[i := l]) == ExpandLinks(links)[i := ExpandLink(l)]
  {
  }

  // ----- splitting an extension -----

  /** The subtree that an extension leaves below a fork, one or two levels further down. */
  function PushedDown(top: nat, rest: Path, child: Link, depth: nat): (l: Link) {
    var below := if rest == [] then child else Held(Fresh(ExtensionBody(rest, ExileLink(top, Loaded(child), depth + 2))));
    ExileLink(top, below, depth + 2)
  }

  lemma PushedDownExpand(top: nat, rest: Path, child: Link, depth: nat)
    requires ExpandLink(child).Owned? && ExpandLink(child).node.Branch?
    ensures ExpandLink(PushedDown(top, rest, child, depth)) == Owned(Join(rest, ExpandLink(child).node))
  {
  }

  /** Pushed down, the subtree is sound at its new depth and above. */
  lemma PushedDownSound(db: set<Trie>, top: nat, n: Node, rest: Path, child: Link, depth: nat)
    requires LinkSound(db, top, child, depth + 1) && LinkFits(top, n, child, depth + 1)
    requires child != Nil && (child.Digest? ==> Shaped(child.of))
    ensures
      var l := PushedDown(top, rest, child, depth);
      && LinkSound(db, top, l, depth + 2) && LinkSound(db, top, l, depth + 1)
      && (forall b: Body :: LinkFits(top, Fresh(b), l, depth + 2) && LinkFits(top, Fresh(b), l, depth + 1))
  {
    var l := PushedDown(top, rest, child, depth);
    if rest == [] {
      ExileLinkFits(db, top, n, child, depth);
    } else {
      LoadedSound(db, top, n, child, depth + 1);
      ExileLinkFits(db, top, n, Loaded(child), depth);
      var ext := Fresh(ExtensionBody(rest, ExileLink(top, Loaded(child), depth + 2)));
      assert Sound(db, top, ext, depth + 1);
      ExileSound(db, top, ext, depth + 1);
    }
    RiseLinkSound(db, top, l, depth + 2, depth + 1);
  }

  /** One level further down, below a new node. */
  lemma ExileLinkFits(db: set<Trie>, top: nat, n: Node, l: Link, depth: nat)
    requires LinkSound(db, top, l, depth + 1) && LinkFits(top, n, l, depth + 1)
    ensures
      var l' := ExileLink(top, l, depth + 2);
      && LinkSound(db, top, l', depth + 2)
      && (forall b: Body :: LinkFits(top, Fresh(b), l', depth + 2) && LinkFits(top, Fresh(b), l', depth + 1))
  {
    if l.Held? { ExileSound(db, top, l.node, depth + 1); }
  }

  const NO_LINKS: seq<Link> := [Nil, Nil, Nil, Nil, Nil, Nil, Nil, Nil, Nil, Nil, Nil, Nil, Nil, Nil, Nil, Nil]

  /** The fork that replaces an extension: the subtree pushed down, and the new path. */
  function ForkBody(c: Nibble, below: Link, rest: Path, v: Bytes): Body {
    var links := NO_LINKS[c := below];
    if rest == [] then BranchBody(links, v)
    else BranchBody(links[rest[0] := Held(Fresh(LeafBody(rest[1..], v)))], [])
  }

  function WrapBody(p: Path, b: Body): Body {
    if p == [] then b else ExtensionBody(p, Held(Fresh(b)))
  }

  function SplitExtensionBody(top: nat, key: Path, child: Link, k: Path, v: Bytes, depth: nat): Body
    requires !(key <= k)
  {
    var n := Common(k, key, 0);
    ForkInside(key, k);
    WrapBody(k[..n], ForkBody(key[n], PushedDown(top, key[n + 1..], child, depth), k[n..], v))
  }

  lemma ForkExpand(c: Nibble, below: Link, rest: Path, v: Bytes)
    ensures
      var b := Hang(NO_CHILDREN[c := ExpandLink(below)], [], rest, Leaf(if rest == [] then [] else rest[1..], v), v);
      Expand(Fresh(ForkBody(c, below, rest, v))) == Branch(b.0, b.1)
  {
    var links := NO_LINKS[c := below];
    assert ExpandLinks(NO_LINKS) == NO_CHILDREN;
    assert ExpandLinks(links) == NO_CHILDREN[c := ExpandLink(below)];
    if rest != [] {
      var leaf := Held(Fresh(LeafBody(rest[1..], v)));
      ExpandUpdate(links, rest[0], leaf);
    }
  }

  lemma SplitExtensionExpand(top: nat, key: Path, child: Link, k: Path, v: Bytes, depth: nat)
    requires !(key <= k) && ExpandLink(child).Owned? && ExpandLink(child).node.Branch?
    ensures Expand(Fresh(SplitExtensionBody(top, key, child, k, v, depth))) == SplitExtension(key, ExpandLink(child).node, k, v)
  {
    var n := Common(k, key, 0);
    ForkInside(key, k);
    var below := PushedDown(top, key[n + 1..], child, depth);
    PushedDownExpand(top, key[n + 1..], child, depth);
    ForkExpand(key[n], below, k[n..], v);
  }

  lemma ForkSound(db: set<Trie>, top: nat, c: Nibble, below: Link, rest: Path, v: Bytes, depth: nat)
    requires LinkSound(db, top, below, depth + 1)
    requires forall b: Body :: LinkFits(top, Fresh(b), below, depth + 1)
    ensures Sound(db, top, Fresh(ForkBody(c, below, rest, v)), depth)
  {
    var n := Fresh(ForkBody(c, below, rest, v));
    forall i | 0 <= i < 16
      ensures LinkSound(db, top, n.body.children[i], depth + 1) && LinkFits(top, n, n.body.children[i], depth + 1)
    {
      assert n.body.children[i] in {Nil, below} || n.body.children[i] == Held(Fresh(LeafBody(rest[1..], v)));
    }
  }

  lemma SplitExtensionSound(db: set<Trie>, top: nat, n: Node, k: Path, v: Bytes, depth: nat)
    requires n.body.ExtensionBody? && !(n.body.key <= k) && Sound(db, top, n, depth)
    requires n.body.child.Digest? ==> Shaped(n.body.child.of)
    ensures Sound(db, top, Fresh(SplitExtensionBody(top, n.body.key, n.body.child, k, v, depth)), depth)
  {
    var key, child := n.body.key, n.body.child;
    var i := Common(k, key, 0);
    ForkInside(key, k);
    PushedDownSound(db, top, n, key[i + 1..], child, depth);
    var below := PushedDown(top, key[i + 1..], child, depth);
    ForkSound(db, top, key[i], below, k[i..], v, if i == 0 then depth else depth + 1);
    assert k[..i] == [] <==> i == 0;
  }

  // ----- insertion -----

  /** The node where the search stopped, after the insertion. */
  function PutHere(top: nat, n: Node, k: Path, v: Bytes, depth: nat): Body {
    match n.body
    case LeafBody(key, value) => if key == k then LeafBody(key, v) else New(SplitLeaf(key, value, k, v)).body
    case BranchBody(children, value) =>
      if k == [] then BranchBody(children, v)
      else if k[0] >= |children| then n.body
      else BranchBody(children[k[0] := Held(Fresh(LeafBody(k[1..], v)))], value)
    case ExtensionBody(key, child) =>
      if key <= k then n.body else SplitExtensionBody(top, key, child, k, v, depth)
  }

  /** Insertion below a node whose search path is in memory; the path becomes new. */
  ghost function PutNode(top: nat, n: Node, k: Path, v: Bytes, depth: nat): (n': Node)
    ensures n' == Fresh(n'.body)
    decreases n
  {
    var (l, rest) := Step(n, k);
    StepHeld(n, k);
    if l.Held? then Fresh(WithStep(n, k, Held(PutNode(top, l.node, rest, v, depth + 1))).body)
    else Fresh(PutHere(top, n, k, v, depth))
  }

  lemma PutHereExpand(top: nat, n: Node, k: Path, v: Bytes, depth: nat)
    requires Canonical(Expand(n)) && Step(n, k).0.Nil? && (n.body.ExtensionBody? ==> n.body.child != Nil)
    ensures Expand(Fresh(PutHere(top, n, k, v, depth))) == Put(Expand(n), k, v)
  {
    match n.body
    case LeafBody(key, value) =>
      if key != k { assert Expand(Fresh(New(SplitLeaf(key, value, k, v)).body)) == SplitLeaf(key, value, k, v); }
    case BranchBody(children, value) =>
      if k != [] {
        assert Expand(n).children[k[0]] == ExpandLink(children[k[0]]);
        var leaf := Held(Fresh(LeafBody(k[1..], v)));
        ExpandUpdate(children, k[0], leaf);
        assert ExpandLink(leaf) == Owned(Leaf(k[1..], v));
        assert Put(Expand(n), k, v) == Branch(ExpandLinks(children)[k[0] := Owned(Leaf(k[1..], v))], value);
      }
    case ExtensionBody(key, child) => SplitExtensionExpand(top, key, child, k, v, depth);
  }

  lemma StepCanonical(n: Node, k: Path)
    requires Canonical(Expand(n)) && !Step(n, k).0.Nil?
    ensures Canonical(ExpandLink(Step(n, k).0).node)
  {
    if n.body.BranchBody? { assert Expand(n).children[k[0]] == ExpandLink(Step(n, k).0); }
  }

  /** In memory, insertion is what it is on the trie. */
  lemma {:induction false} PutExpand(db: set<Trie>, top: nat, n: Node, k: Path, v: Bytes, depth: nat)
    requires Canonical(Expand(n)) && Walked(n, k) && Sound(db, top, n, depth)
    ensures Expand(PutNode(top, n, k, v, depth)) == Put(Expand(n), k, v)
    decreases n
  {
    var (l, rest) := Step(n, k);
    StepHeld(n, k);
    if l.Held? {
      StepCanonical(n, k);
      assert LinkSound(db, top, l, depth + 1);
      PutExpand(db, top, l.node, rest, v, depth + 1);
      var l' := Held(PutNode(top, l.node, rest, v, depth + 1));
      if n.body.BranchBody? {
        var children := n.body.children;
        assert Expand(n).children[k[0]] == ExpandLink(l);
        ExpandUpdate(children, k[0], l');
      }
    } else {
      PutHereExpand(top, n, k, v, depth);
    }
  }

  /** New bookkeeping on a node never asks more of its children. */
  lemma RenewSound(db: set<Trie>, top: nat, n: Node, depth: nat)
    requires Sound(db, top, n, depth)
    ensures Sound(db, top, Fresh(n.body), depth)
  {
    if n.body.BranchBody? {
      forall i | 0 <= i < |n.body.children| ensures LinkFits(top, Fresh(n.body), n.body.children[i], depth + 1) {
        assert LinkFits(top, n, n.body.children[i], depth + 1);
      }
    }
  }

  lemma RenewStepSound(db: set<Trie>, top: nat, n: Node, k: Path, c: Node, depth: nat)
    requires Sound(db, top, n, depth) && !Step(n, k).0.Nil? && Sound(db, top, c, depth + 1) && c == Fresh(c.body)
    ensures Sound(db, top, Fresh(WithStep(n, k, Held(c)).body), depth)
  {
    RenewSound(db, top, n, depth);
    var n' := Fresh(WithStep(n, k, Held(c)).body);
    if n.body.BranchBody? {
      forall i | 0 <= i < |n.body.children|
        ensures LinkSound(db, top, n'.body.children[i], depth + 1) && LinkFits(top, n', n'.body.children[i], depth + 1)
      {
        assert i != k[0] ==> LinkFits(top, Fresh(n.body), n.body.children[i], depth + 1);
      }
    }
  }

  lemma PutHereSound(db: set<Trie>, top: nat, n: Node, k: Path, v: Bytes, depth: nat)
    requires Canonical(Expand(n)) && Sound(db, top, n, depth) && Step(n, k).0.Nil? && v != []
    ensures Sound(db, top, Fresh(PutHere(top, n, k, v, depth)), depth)
  {
    RenewSound(db, top, n, depth);
    match n.body
    case LeafBody(key, value) =>
      if key != k {
        SplitLeafCanonical(key, value, k, v);
        CanonicalShaped(SplitLeaf(key, value, k, v));
        NewSound(db, top, SplitLeaf(key, value, k, v), depth);
      }
    case BranchBody(children, value) =>
      var n' := Fresh(PutHere(top, n, k, v, depth));
      forall i | 0 <= i < |children|
        ensures LinkSound(db, top, n'.body.children[i], depth + 1) && LinkFits(top, n', n'.body.children[i], depth + 1)
      {
        assert LinkFits(top, Fresh(n.body), children[i], depth + 1);
      }
    case ExtensionBody(key, child) =>
      assert Expand(n).child == Below(ExpandLink(child)) && child != Nil;
      CanonicalShaped(ExpandLink(child).node);
      SplitExtensionSound(db, top, n, k, v, depth);
  }

  /** Insertion keeps every digest resolvable: what a split pushes down is saved. */
  lemma {:induction false} PutSound(db: set<Trie>, top: nat, n: Node, k: Path, v: Bytes, depth: nat)
    requires Canonical(Expand(n)) && Walked(n, k) && Sound(db, top, n, depth) && v != []
    ensures Sound(db, top, PutNode(top, n, k, v, depth), depth)
    decreases n
  {
    var (l, rest) := Step(n, k);
    StepHeld(n, k);
    if l.Held? {
      StepCanonical(n, k);
      assert LinkSound(db, top, l, depth + 1);
      PutSound(db, top, l.node, rest, v, depth + 1);
      RenewStepSound(db, top, n, k, PutNode(top, l.node, rest, v, depth + 1), depth);
    } else {
      PutHereSound(db, top, n, k, v, depth);
    }
  }
}
