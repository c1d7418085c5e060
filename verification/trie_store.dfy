/** Trie nodes as they are held in memory over a hash-keyed store: which nodes are loaded, which
    have reached the store, and what a commit writes, drops and cuts off. */
module TrieStore {
  import opened Basics
  import opened Nibbles
  import opened Tries

  // ----- the length of an encoding -----

  function ByteCount(n: nat): (c: nat) {
    if n < 256 then 1 else 1 + ByteCount(n / 256)
  }

  /** The length of a string or list with its header, by Appendix B of the Yellow Paper. */
  function Headed(payload: nat): (len: nat)
    ensures len > payload
  {
    payload + (if payload <= 55 then 1 else 1 + ByteCount(payload))
  }

  function StringLength(s: Bytes): nat {
    if |s| == 1 && s[0] < 128 then 1 else Headed(|s|)
  }

  /** A hex-prefixed key: its first byte is below 64, so a single byte stands for itself. */
  function KeyLength(key: Path): nat {
    var bytes := |key| / 2 + 1;
    if bytes == 1 then 1 else Headed(bytes)
  }

  function EncodedLength(t: Trie): nat
    decreases t, 0
  {
    match t
    case Leaf(key, value) => Headed(KeyLength(key) + StringLength(value))
    case Branch(children, value) => Headed(ChildrenLength(children, 0) + StringLength(value))
    case Extension(key, child) => Headed(KeyLength(key) + Embedded(EncodedLength(child)))
  }

  /** A child is written out if it is short, and by its 32-byte hash otherwise. */
  function Embedded(len: nat): nat {
    if len < 32 then len else 33
  }

  function ChildLength(c: Child): nat
    decreases c, 0
  {
    match c
    case Null => 1
    case Owned(t) => Embedded(EncodedLength(t))
  }

  function ChildrenLength(children: seq<Child>, i: nat): nat
    requires i <= |children|
    decreases children, |children| - i
  {
    if i == |children| then 0 else ChildLength(children[i]) + ChildrenLength(children, i + 1)
  }

  /** Short nodes live inside their parents and never reach the store. */
  predicate Small(t: Trie) {
    EncodedLength(t) < 32
  }

  lemma {:induction false} ChildInSum(children: seq<Child>, n: nat, i: nat)
    requires n <= i < |children|
    ensures ChildLength(children[i]) <= ChildrenLength(children, n)
    decreases |children| - n
  {
    if i > n { ChildInSum(children, n + 1, i); }
  }

  /** The children of a short node are short. */
  lemma SmallChildren(t: Trie)
    requires Small(t)
    ensures t.Extension? ==> Small(t.child)
    ensures t.Branch? ==> forall i :: 0 <= i < |t.children| && t.children[i].Owned? ==> Small(t.children[i].node)
  {
    if t.Branch? {
      forall i | 0 <= i < |t.children| && t.children[i].Owned? ensures Small(t.children[i].node) {
        ChildInSum(t.children, 0, i);
      }
    }
  }

  // ----- nodes in memory -----

  /** A reference to a child: by digest only, or held in memory. A digest stands for the node it
      is the hash of. */
  datatype Link = Nil | Digest(of: Trie) | Held(node: Node)

  datatype Body =
    | LeafBody(key: Path, value: Bytes)
    | BranchBody(children: seq<Link>, value: Bytes)
    | ExtensionBody(key: Path, child: Link)

  /** A node with its bookkeeping: whether it is unchanged since it was committed or loaded,
      whether it is on the list of nodes to truncate, whether it is on the list of nodes to save,
      and whether it is in the store. A change to a node drops it from both lists. */
  datatype Node = Node(body: Body, committed: bool, listed: bool, exiled: bool, stored: bool)

  function Expand(n: Node): Trie
    decreases n
  {
    match n.body
    case LeafBody(key, value) => Leaf(key, value)
    case BranchBody(children, value) =>
      Branch(ExpandLinks(children), value)
    case ExtensionBody(key, child) => Extension(key, Below(ExpandLink(child)))
  }

  function ExpandLink(l: Link): Child
    decreases l
  {
    match l
    case Nil => Null
    case Digest(t) => Owned(t)
    case Held(n) => Owned(Expand(n))
  }

  function ExpandLinks(links: seq<Link>): (children: seq<Child>)
    ensures |children| == |links| && forall i :: 0 <= i < |links| ==> children[i] == ExpandLink(links[i])
    decreases links
  {
    seq(|links|, i requires 0 <= i < |links| => ExpandLink(links[i]))
  }

  /** An extension always has a child. */
  function Below(c: Child): Trie {
    if c.Null? then Leaf([], []) else c.node
  }

  /** The node and all that hangs below it can be loaded. */
  ghost predicate Kept(db: set<Trie>, t: Trie)
    decreases t
  {
    Small(t) || (t in db && match t
      case Leaf(_, _) => true
      case Branch(children, _) => forall i :: 0 <= i < |children| && children[i].Owned? ==> Kept(db, children[i].node)
      case Extension(_, child) => Kept(db, child))
  }

  /** The node is in the store, or will be after the next commit. */
  predicate Placed(n: Node) {
    n.stored || n.exiled
  }

  predicate Settled(n: Node) {
    n.committed && Placed(n)
  }

  /** What holds of a node at a depth: its digests resolve, unchanged nodes have unchanged children,
      and an unchanged child is in the store if it lies in the bottom layers, or its parent is in
      the store or to be truncated. */
  ghost predicate Sound(db: set<Trie>, top: nat, n: Node, depth: nat)
    decreases n
  {
    && (!n.committed ==> !n.stored)
    && (n.stored ==> Small(Expand(n)) || Expand(n) in db)
    && match n.body
      case LeafBody(_, _) => true
      case BranchBody(children, _) =>
        |children| == 16 && forall i :: 0 <= i < |children| ==>
          LinkSound(db, top, children[i], depth + 1) && LinkFits(top, n, children[i], depth + 1)
      case ExtensionBody(_, child) =>
        child != Nil && LinkSound(db, top, child, depth + 1) && LinkFits(top, n, child, depth + 1)
  }

  ghost predicate LinkSound(db: set<Trie>, top: nat, l: Link, depth: nat)
    decreases l
  {
    match l
    case Nil => true
    case Digest(t) => !Small(t) && Kept(db, t)
    case Held(c) => Sound(db, top, c, depth)
  }

  /** The child's bookkeeping against its parent's. */
  ghost predicate LinkFits(top: nat, n: Node, l: Link, depth: nat) {
    l.Held? ==>
      if Small(Expand(l.node)) then !l.node.committed
      else
        && (n.committed ==> l.node.committed)
        && (l.node.committed && (depth >= top || n.listed || Settled(n)) ==> Placed(l.node))
  }

  // ----- loading -----

  /** The node decoded from an encoding: short children come with it, the others by digest. */
  function Load(t: Trie): (n: Node)
    ensures Expand(n) == t
    decreases t, 1
  {
    match t
    case Leaf(key, value) => Node(LeafBody(key, value), true, false, false, true)
    case Branch(children, value) =>
      var links := LoadLinks(children);
      assert ExpandLinks(links) == children;
      Node(BranchBody(links, value), true, false, false, true)
    case Extension(key, child) => Node(ExtensionBody(key, LoadBelow(child)), true, false, false, true)
  }

  function LoadLinks(children: seq<Child>): (links: seq<Link>)
    ensures |links| == |children|
    ensures forall i :: 0 <= i < |children| ==> ExpandLink(links[i]) == children[i]
    ensures forall i :: 0 <= i < |children| ==> links[i] == LoadChild(children[i])
    decreases children
  {
    seq(|children|, i requires 0 <= i < |children| => LoadChild(children[i]))
  }

  function LoadChild(c: Child): (l: Link)
    ensures ExpandLink(l) == c
    decreases c
  {
    if c.Null? then Nil else LoadBelow(c.node)
  }

  function LoadBelow(t: Trie): (l: Link)
    ensures ExpandLink(l) == Owned(t)
    decreases t, 2
  {
    if Small(t) then Held(Load(t).(committed := false, stored := false)) else Digest(t)
  }

  /** A freshly loaded node is sound at any depth. */
  lemma {:induction false} LoadSound(db: set<Trie>, top: nat, t: Trie, depth: nat)
    requires Kept(db, t) && Shaped(t)
    ensures Sound(db, top, Load(t), depth)
    ensures Small(t) ==> Sound(db, top, Load(t).(committed := false, stored := false), depth)
    decreases t, 0
  {
    if Small(t) { SmallChildren(t); }
    var n := Load(t);
    match t
    case Leaf(_, _) =>
    case Branch(children, _) =>
      forall i | 0 <= i < |children|
        ensures LinkSound(db, top, n.body.children[i], depth + 1)
        ensures n.body.children[i].Held? ==> Small(Expand(n.body.children[i].node)) && !n.body.children[i].node.committed
      {
        assert n.body.children[i] == LoadChild(children[i]);
        if children[i].Owned? { LoadBelowSound(db, top, children[i].node, depth + 1); }
      }
    case Extension(_, child) => LoadBelowSound(db, top, child, depth + 1);
  }

  lemma {:induction false} LoadBelowSound(db: set<Trie>, top: nat, t: Trie, depth: nat)
    requires Kept(db, t) && Shaped(t)
    ensures LinkSound(db, top, LoadBelow(t), depth)
    ensures LoadBelow(t).Held? ==> Small(Expand(LoadBelow(t).node)) && !LoadBelow(t).node.committed
    decreases t, 1
  {
    LoadSound(db, top, t, depth);
  }

  /** Every branch has its sixteen children. */
  predicate Shaped(t: Trie)
    decreases t
  {
    match t
    case Leaf(_, _) => true
    case Branch(children, _) =>
      |children| == 16 && forall i :: 0 <= i < |children| && children[i].Owned? ==> Shaped(children[i].node)
    case Extension(_, child) => Shaped(child)
  }

  lemma {:induction false} CanonicalShaped(t: Trie)
    requires Canonical(t)
    ensures Shaped(t)
    decreases t
  {
    match t
    case Leaf(_, _) =>
    case Branch(children, _) =>
      forall i | 0 <= i < |children| && children[i].Owned? ensures Shaped(children[i].node) {
        CanonicalShaped(children[i].node);
      }
    case Extension(_, child) => CanonicalShaped(child);
  }

  // ----- moving between layers -----

  /** Nodes that a split pushes to depth `top` are put on the list of nodes to save. */
  function Exile(top: nat, n: Node, depth: nat): (n': Node)
    ensures Expand(n') == Expand(n) && n'.committed == n.committed && n'.stored == n.stored && n'.listed == n.listed
    decreases n
  {
    if depth > top then n
    else if depth == top then n.(exiled := true)
    else
      match n.body
      case LeafBody(_, _) => n
      case BranchBody(children, value) =>
        var links := ExileLinks(top, children, depth + 1);
        assert ExpandLinks(links) == ExpandLinks(children);
        n.(body := BranchBody(links, value))
      case ExtensionBody(key, child) => n.(body := ExtensionBody(key, ExileLink(top, child, depth + 1)))
  }

  function ExileLink(top: nat, l: Link, depth: nat): (l': Link)
    ensures ExpandLink(l') == ExpandLink(l)
    ensures l'.Nil? == l.Nil? && l'.Digest? == l.Digest? && l'.Held? == l.Held?
    decreases l
  {
    if l.Held? then Held(Exile(top, l.node, depth)) else l
  }

  function ExileLinks(top: nat, links: seq<Link>, depth: nat): (links': seq<Link>)
    ensures |links'| == |links|
    ensures forall i :: 0 <= i < |links| ==> links'[i] == ExileLink(top, links[i], depth)
    decreases links
  {
    seq(|links|, i requires 0 <= i < |links| => ExileLink(top, links[i], depth))
  }

  /** Saving the nodes at the border makes a subtree sound one level further down. */
  lemma {:induction false} ExileSound(db: set<Trie>, top: nat, n: Node, depth: nat)
    requires Sound(db, top, n, depth)
    ensures Sound(db, top, Exile(top, n, depth + 1), depth + 1)
    ensures depth + 1 == top ==> Exile(top, n, depth + 1).exiled
    ensures Placed(n) ==> Placed(Exile(top, n, depth + 1))
    decreases n
  {
    match n.body
    case LeafBody(_, _) =>
    case BranchBody(children, _) =>
      forall i | 0 <= i < |children|
        ensures
          var l := if depth + 1 < top then ExileLink(top, children[i], depth + 2) else children[i];
          LinkSound(db, top, l, depth + 2) && LinkFits(top, Exile(top, n, depth + 1), l, depth + 2)
      {
        ExileLinkSound(db, top, n, children[i], depth);
      }
    case ExtensionBody(_, child) => ExileLinkSound(db, top, n, child, depth);
  }

  lemma {:induction false} ExileLinkSound(db: set<Trie>, top: nat, n: Node, l: Link, depth: nat)
    requires LinkSound(db, top, l, depth + 1) && LinkFits(top, n, l, depth + 1)
    ensures
      var l' := if depth + 1 < top then ExileLink(top, l, depth + 2) else l;
      LinkSound(db, top, l', depth + 2) && LinkFits(top, Exile(top, n, depth + 1), l', depth + 2)
    decreases l
  {
    if l.Held? {
      ExileSound(db, top, l.node, depth + 1);
    }
  }

  /** A subtree that moves up stays sound. */
  lemma {:induction false} RiseSound(db: set<Trie>, top: nat, n: Node, depth: nat, higher: nat)
    requires Sound(db, top, n, depth) && higher <= depth
    ensures Sound(db, top, n, higher)
    decreases n
  {
    match n.body
    case LeafBody(_, _) =>
    case BranchBody(children, _) =>
      forall i | 0 <= i < |children| ensures LinkSound(db, top, children[i], higher + 1) {
        RiseLinkSound(db, top, children[i], depth + 1, higher + 1);
      }
    case ExtensionBody(_, child) => RiseLinkSound(db, top, child, depth + 1, higher + 1);
  }

  lemma {:induction false} RiseLinkSound(db: set<Trie>, top: nat, l: Link, depth: nat, higher: nat)
    requires LinkSound(db, top, l, depth) && higher <= depth
    ensures LinkSound(db, top, l, higher)
    decreases l
  {
    if l.Held? { RiseSound(db, top, l.node, depth, higher); }
  }

  // ----- commit -----

  /** Replaces the long children in memory by their digests. */
  function Cut(l: Link): (l': Link)
    ensures ExpandLink(l') == ExpandLink(l)
  {
    if l.Held? && !Small(Expand(l.node)) then Digest(Expand(l.node)) else l
  }

  function CutLinks(links: seq<Link>): (links': seq<Link>)
    ensures |links'| == |links| && forall i :: 0 <= i < |links| ==> links'[i] == Cut(links[i])
  {
    seq(|links|, i requires 0 <= i < |links| => Cut(links[i]))
  }

  function Truncate(b: Body): Body {
    match b
    case LeafBody(_, _) => b
    case BranchBody(children, value) => BranchBody(CutLinks(children), value)
    case ExtensionBody(key, child) => ExtensionBody(key, Cut(child))
  }

  /** The commit of a subtree: changed nodes become committed, those in the bottom layers are
      stored, and the last layer above them is cut off. */
  function Seal(top: nat, n: Node, depth: nat): (n': Node)
    ensures Expand(n') == Expand(n)
    decreases n
  {
    if n.committed then n
    else
      var body := SealBody(top, n.body, depth);
      var long := !Small(Expand(n));
      assert Expand(n.(body := body)) == Expand(n);
      var body' := if depth + 1 == top then Truncate(body) else body;
      assert Expand(n.(body := body')) == Expand(n) by { TruncateExpand(n.(body := body)); }
      Node(body', long || depth == 0, n.listed, false, long && depth >= top)
  }

  function SealBody(top: nat, b: Body, depth: nat): (b': Body)
    ensures forall n: Node :: n.body == b ==> Expand(n.(body := b')) == Expand(n)
    decreases b
  {
    match b
    case LeafBody(_, _) => b
    case BranchBody(children, value) =>
      var links := SealLinks(top, children, depth + 1);
      assert ExpandLinks(links) == ExpandLinks(children);
      BranchBody(links, value)
    case ExtensionBody(key, child) => ExtensionBody(key, SealLink(top, child, depth + 1))
  }

  function SealLink(top: nat, l: Link, depth: nat): (l': Link)
    ensures ExpandLink(l') == ExpandLink(l)
    decreases l
  {
    if l.Held? then Held(Seal(top, l.node, depth)) else l
  }

  function SealLinks(top: nat, links: seq<Link>, depth: nat): (links': seq<Link>)
    ensures |links'| == |links| && forall i :: 0 <= i < |links| ==> links'[i] == SealLink(top, links[i], depth)
    decreases links
  {
    seq(|links|, i requires 0 <= i < |links| => SealLink(top, links[i], depth))
  }

  lemma TruncateExpand(n: Node)
    ensures Expand(n.(body := Truncate(n.body))) == Expand(n)
  {
    if n.body.BranchBody? { assert ExpandLinks(CutLinks(n.body.children)) == ExpandLinks(n.body.children); }
  }

  /** Truncates the listed nodes and empties both lists. */
  function Prune(n: Node): (n': Node)
    ensures Expand(n') == Expand(n)
    decreases n
  {
    var body := PruneBody(n.body);
    assert Expand(n.(body := body)) == Expand(n);
    TruncateExpand(n.(body := body));
    Node(if n.listed then Truncate(body) else body, n.committed, false, false, n.committed && Placed(n))
  }

  function PruneBody(b: Body): (b': Body)
    ensures forall n: Node :: n.body == b ==> Expand(n.(body := b')) == Expand(n)
    decreases b
  {
    match b
    case LeafBody(_, _) => b
    case BranchBody(children, value) =>
      var links := PruneLinks(children);
      assert ExpandLinks(links) == ExpandLinks(children);
      BranchBody(links, value)
    case ExtensionBody(key, child) => ExtensionBody(key, PruneLink(child))
  }

  function PruneLink(l: Link): (l': Link)
    ensures ExpandLink(l') == ExpandLink(l)
    decreases l
  {
    if l.Held? then Held(Prune(l.node)) else l
  }

  function PruneLinks(links: seq<Link>): (links': seq<Link>)
    ensures |links'| == |links| && forall i :: 0 <= i < |links| ==> links'[i] == PruneLink(links[i])
    decreases links
  {
    seq(|links|, i requires 0 <= i < |links| => PruneLink(links[i]))
  }
}
