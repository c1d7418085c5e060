/** Why a commit leaves every digest resolvable: what it writes, what it may delete, and the one
    thing that can go wrong when a listed node has moved up. */
module TrieCommit {
  import opened Basics
  import opened Nibbles
  import opened Tries
  import opened TrieStore

  // ----- what a commit writes -----

  /** The nodes that the commit of a subtree stores. */
  function Puts(top: nat, n: Node, depth: nat): set<Trie>
    decreases n
  {
    if n.committed || Small(Expand(n)) then {}
    else
      (if depth >= top then {Expand(n)} else {})
      + match n.body
        case LeafBody(_, _) => {}
        case BranchBody(children, _) => LinksPuts(top, children, depth + 1)
        case ExtensionBody(_, child) => LinkPuts(top, child, depth + 1)
  }

  function LinkPuts(top: nat, l: Link, depth: nat): set<Trie>
    decreases l
  {
    if l.Held? then Puts(top, l.node, depth) else {}
  }

  function LinksPuts(top: nat, links: seq<Link>, depth: nat): set<Trie>
    decreases links
  {
    set i, t | 0 <= i < |links| && t in LinkPuts(top, links[i], depth) :: t
  }

  /** The nodes on the list of nodes to save. */
  function Exiles(n: Node): set<Trie>
    decreases n
  {
    (if n.exiled then {Expand(n)} else {})
    + match n.body
      case LeafBody(_, _) => {}
      case BranchBody(children, _) => set i, t | 0 <= i < |children| && t in LinkExiles(children[i]) :: t
      case ExtensionBody(_, child) => LinkExiles(child)
  }

  function LinkExiles(l: Link): set<Trie>
    decreases l
  {
    if l.Held? then Exiles(l.node) else {}
  }

  // ----- what the trie relies on -----

  /** How often a node occurs among the long nodes of a trie. */
  ghost function Subs(x: Trie, t: Trie): nat
    decreases t
  {
    if Small(t) then 0
    else
      (if x == t then 1 else 0)
      + match t
        case Leaf(_, _) => 0
        case Branch(children, _) => ChildrenSubs(x, children, 0)
        case Extension(_, child) => Subs(x, child)
  }

  ghost function ChildSubs(x: Trie, c: Child): nat
    decreases c
  {
    if c.Null? then 0 else Subs(x, c.node)
  }

  ghost function ChildrenSubs(x: Trie, children: seq<Child>, i: nat): nat
    requires i <= |children|
    decreases children, |children| - i
  {
    if i == |children| then 0 else ChildSubs(x, children[i]) + ChildrenSubs(x, children, i + 1)
  }

  /** How often a node occurs among those that are unchanged since the last commit, in memory or
      behind a digest. */
  ghost function Live(x: Trie, n: Node): nat
    decreases n
  {
    (if n.committed && x == Expand(n) then 1 else 0)
    + match n.body
      case LeafBody(_, _) => 0
      case BranchBody(children, _) => LinksLive(x, children, 0)
      case ExtensionBody(_, child) => LinkLive(x, child)
  }

  ghost function LinkLive(x: Trie, l: Link): nat
    decreases l
  {
    match l
    case Nil => 0
    case Digest(t) => Subs(x, t)
    case Held(n) => Live(x, n)
  }

  ghost function LinksLive(x: Trie, links: seq<Link>, i: nat): nat
    requires i <= |links|
    decreases links, |links| - i
  {
    if i == |links| then 0 else LinkLive(x, links[i]) + LinksLive(x, links, i + 1)
  }

  lemma {:induction false} LinkLiveInSum(x: Trie, links: seq<Link>, n: nat, i: nat)
    requires n <= i < |links|
    ensures LinkLive(x, links[i]) <= LinksLive(x, links, n)
    decreases |links| - n
  {
    if i > n { LinkLiveInSum(x, links, n + 1, i); }
  }

  lemma {:induction false} ChildSubsInSum(x: Trie, children: seq<Child>, n: nat, i: nat)
    requires n <= i < |children|
    ensures ChildSubs(x, children[i]) <= ChildrenSubs(x, children, n)
    decreases |children| - n
  {
    if i > n { ChildSubsInSum(x, children, n + 1, i); }
  }

  // ----- the hazard -----

  /** A listed node above the last in-memory layer has no changed child: its children would be cut
      off without having been stored. */
  ghost predicate Clear(top: nat, n: Node, depth: nat)
    decreases n
  {
    match n.body
    case LeafBody(_, _) => true
    case BranchBody(children, _) =>
      forall i :: 0 <= i < |children| ==> LinkClear(top, children[i], depth + 1) && CutSafe(top, n, children[i], depth + 1)
    case ExtensionBody(_, child) => LinkClear(top, child, depth + 1) && CutSafe(top, n, child, depth + 1)
  }

  ghost predicate LinkClear(top: nat, l: Link, depth: nat)
    decreases l
  {
    l.Held? ==> Clear(top, l.node, depth)
  }

  ghost predicate CutSafe(top: nat, n: Node, l: Link, depth: nat) {
    l.Held? && n.listed && depth < top ==> l.node.committed || Small(Expand(l.node))
  }

  /** The same, but that what is cut off may have been kept in the store under its encoding. */
  ghost predicate Guarded(db: set<Trie>, top: nat, n: Node, depth: nat)
    decreases n
  {
    match n.body
    case LeafBody(_, _) => true
    case BranchBody(children, _) =>
      forall i :: 0 <= i < |children| ==>
        LinkGuarded(db, top, children[i], depth + 1) && CutGuarded(db, top, n, children[i], depth + 1)
    case ExtensionBody(_, child) => LinkGuarded(db, top, child, depth + 1) && CutGuarded(db, top, n, child, depth + 1)
  }

  ghost predicate LinkGuarded(db: set<Trie>, top: nat, l: Link, depth: nat)
    decreases l
  {
    l.Held? ==> Guarded(db, top, l.node, depth)
  }

  ghost predicate CutGuarded(db: set<Trie>, top: nat, n: Node, l: Link, depth: nat) {
    CutSafe(top, n, l, depth) || Kept(db, Expand(l.node))
  }

  // ----- soundness of commit -----

  /** The node is long and marked as stored. */
  predicate Marked(x: Trie, n: Node) {
    n.stored && x == Expand(n) && !Small(x)
  }

  /** The trie needs the node in the store: a node in memory is marked as stored under it, or it
      lies behind a digest. */
  ghost predicate Relies(x: Trie, l: Link)
    decreases l
  {
    match l
    case Nil => false
    case Digest(t) => Subs(x, t) > 0
    case Held(n) =>
      || Marked(x, n)
      || match n.body
         case LeafBody(_, _) => false
         case BranchBody(children, _) => exists i :: 0 <= i < |children| && Relies(x, children[i])
         case ExtensionBody(_, child) => Relies(x, child)
  }

  /** The store after a commit: what is relied on survives, and what was to be written is there. */
  ghost predicate After(db: set<Trie>, db': set<Trie>, top: nat, n: Node, depth: nat) {
    (forall t :: Relies(t, Held(n)) && t in db ==> t in db') && Puts(top, n, depth) <= db' && Exiles(n) <= db'
  }

  ghost predicate LinkAfter(db: set<Trie>, db': set<Trie>, top: nat, l: Link, depth: nat) {
    && (forall t :: Relies(t, l) && t in db ==> t in db')
    && LinkPuts(top, l, depth) <= db' && LinkExiles(l) <= db'
  }

  /** What a commit owes a node it owes the node's children. */
  lemma AfterBranch(db: set<Trie>, db': set<Trie>, top: nat, n: Node, depth: nat, i: nat)
    requires n.body.BranchBody? && i < |n.body.children| && After(db, db', top, n, depth)
    requires Sound(db, top, n, depth)
    ensures LinkAfter(db, db', top, n.body.children[i], depth + 1)
  {
    var children := n.body.children;
    forall t | Relies(t, children[i]) && t in db ensures t in db' { assert Relies(t, Held(n)); }
    forall t | t in LinkPuts(top, children[i], depth + 1) ensures t in db' {
      PutsQuiet(db, top, n, children[i], depth);
      assert t in LinksPuts(top, children, depth + 1);
    }
    forall t | t in LinkExiles(children[i]) ensures t in db' { assert t in Exiles(n); }
  }

  lemma AfterExtension(db: set<Trie>, db': set<Trie>, top: nat, n: Node, depth: nat)
    requires n.body.ExtensionBody? && After(db, db', top, n, depth) && Sound(db, top, n, depth)
    ensures LinkAfter(db, db', top, n.body.child, depth + 1)
  {
    PutsQuiet(db, top, n, n.body.child, depth);
    forall t | Relies(t, n.body.child) && t in db ensures t in db' { assert Relies(t, Held(n)); }
  }

  /** A child of the node. */
  ghost predicate HasLink(n: Node, l: Link) {
    match n.body
    case LeafBody(_, _) => false
    case BranchBody(children, _) => l in children
    case ExtensionBody(_, child) => l == child
  }

  /** Nothing below an unchanged or short node is written. */
  lemma PutsQuiet(db: set<Trie>, top: nat, n: Node, l: Link, depth: nat)
    requires Sound(db, top, n, depth) && HasLink(n, l)
    ensures n.committed || Small(Expand(n)) ==> LinkPuts(top, l, depth + 1) == {}
  {
    if Small(Expand(n)) { SmallChildren(Expand(n)); }
    if n.body.BranchBody? {
      var i :| 0 <= i < |n.body.children| && n.body.children[i] == l;
      assert LinkFits(top, n, n.body.children[i], depth + 1);
      assert Expand(n).children[i] == ExpandLink(l);
    } else {
      assert Expand(n).child == Below(ExpandLink(l));
    }
  }

  lemma {:induction false} KeptSurvives(db: set<Trie>, db': set<Trie>, t: Trie)
    requires Kept(db, t) && forall s :: Subs(s, t) > 0 && s in db ==> s in db'
    ensures Kept(db', t)
    decreases t
  {
    if !Small(t) {
      match t
      case Leaf(_, _) =>
      case Branch(children, _) =>
        forall i | 0 <= i < |children| && children[i].Owned? ensures Kept(db', children[i].node) {
          forall s | Subs(s, children[i].node) > 0 && s in db ensures s in db' {
            ChildSubsInSum(s, children, 0, i);
            assert ChildSubs(s, children[i]) == Subs(s, children[i].node);
          }
          KeptSurvives(db, db', children[i].node);
        }
      case Extension(_, child) => KeptSurvives(db, db', child);
    }
  }

  /** An unchanged node that is stored or to be saved can be loaded afterwards, with all below it. */
  lemma {:induction false} SettledKept(db: set<Trie>, db': set<Trie>, top: nat, n: Node, depth: nat)
    requires Sound(db, top, n, depth) && Settled(n) && After(db, db', top, n, depth)
    ensures Kept(db', Expand(n))
    decreases n, 1
  {
    if !Small(Expand(n)) {
      assert Expand(n) in db' by { if n.exiled { assert Expand(n) in Exiles(n); } else { assert Relies(Expand(n), Held(n)); } }
      match n.body
      case LeafBody(_, _) =>
      case BranchBody(children, value) =>
        forall i | 0 <= i < |children| && ExpandLink(children[i]).Owned? ensures Kept(db', ExpandLink(children[i]).node) {
          AfterBranch(db, db', top, n, depth, i);
          SettledLinkKept(db, db', top, n, children[i], depth + 1);
        }
      case ExtensionBody(_, child) =>
        AfterExtension(db, db', top, n, depth);
        SettledLinkKept(db, db', top, n, child, depth + 1);
    }
  }

  lemma {:induction false} SettledLinkKept(db: set<Trie>, db': set<Trie>, top: nat, n: Node, l: Link, depth: nat)
    requires LinkSound(db, top, l, depth) && LinkFits(top, n, l, depth) && LinkAfter(db, db', top, l, depth)
    requires Settled(n) || (l.Held? && (depth >= top || n.listed) && l.node.committed) || l.Digest?
    ensures !l.Nil? ==> Kept(db', ExpandLink(l).node)
    decreases l, 0
  {
    match l
    case Nil =>
    case Digest(t) => KeptSurvives(db, db', t);
    case Held(c) => if !Small(Expand(c)) { SettledKept(db, db', top, c, depth); }
  }

  /** A changed node in the bottom layers is stored, with all below it. */
  lemma {:induction false} ChangedKept(db: set<Trie>, db': set<Trie>, top: nat, n: Node, depth: nat)
    requires Sound(db, top, n, depth) && !n.committed && depth >= top && After(db, db', top, n, depth)
    ensures Kept(db', Expand(n))
    decreases n, 1
  {
    if !Small(Expand(n)) {
      assert Expand(n) in Puts(top, n, depth);
      match n.body
      case LeafBody(_, _) =>
      case BranchBody(children, value) =>
        forall i | 0 <= i < |children| && ExpandLink(children[i]).Owned? ensures Kept(db', ExpandLink(children[i]).node) {
          AfterBranch(db, db', top, n, depth, i);
          BottomLinkKept(db, db', top, n, children[i], depth + 1);
        }
      case ExtensionBody(_, child) =>
        AfterExtension(db, db', top, n, depth);
        BottomLinkKept(db, db', top, n, child, depth + 1);
    }
  }

  /** Whatever hangs in the bottom layers can be loaded afterwards. */
  lemma {:induction false} BottomLinkKept(db: set<Trie>, db': set<Trie>, top: nat, n: Node, l: Link, depth: nat)
    requires LinkSound(db, top, l, depth) && LinkFits(top, n, l, depth) && LinkAfter(db, db', top, l, depth) && depth >= top
    ensures !l.Nil? ==> Kept(db', ExpandLink(l).node)
    decreases l, 0
  {
    if l.Held? && !l.node.committed {
      ChangedKept(db, db', top, l.node, depth);
    } else if !l.Nil? {
      SettledLinkKept(db, db', top, n, l, depth);
    }
  }

  function CutIf(cut: bool, l: Link): Link {
    if cut then Cut(l) else l
  }

  /** Emptying the lists of an unchanged or short subtree keeps it sound. */
  lemma {:induction false} PruneSound(db: set<Trie>, db': set<Trie>, top: nat, n: Node, depth: nat)
    requires Sound(db, top, n, depth) && (n.committed || Small(Expand(n))) && After(db, db', top, n, depth)
    ensures Sound(db', top, Prune(n), depth)
    decreases n, 1
  {
    if n.committed && !Small(Expand(n)) && Placed(n) {
      assert (n.stored ==> Relies(Expand(n), Held(n))) && (n.exiled ==> Expand(n) in Exiles(n));
    }
    if Small(Expand(n)) { SmallChildren(Expand(n)); }
    match n.body
    case LeafBody(_, _) =>
    case BranchBody(children, _) =>
      forall i | 0 <= i < |children|
        ensures
          var l := CutIf(n.listed, PruneLink(children[i]));
          LinkSound(db', top, l, depth + 1) && LinkFits(top, Prune(n), l, depth + 1)
      {
        AfterBranch(db, db', top, n, depth, i);
        assert Expand(n).children[i] == ExpandLink(children[i]);
        PruneLinkSound(db, db', top, n, children[i], depth + 1);
      }
    case ExtensionBody(_, child) =>
      AfterExtension(db, db', top, n, depth);
      assert Expand(n).child == Below(ExpandLink(child));
      PruneLinkSound(db, db', top, n, child, depth + 1);
  }

  lemma {:induction false} PruneLinkSound(db: set<Trie>, db': set<Trie>, top: nat, n: Node, l: Link, depth: nat)
    requires LinkSound(db, top, l, depth) && LinkFits(top, n, l, depth) && LinkAfter(db, db', top, l, depth)
    requires n.committed || (l.Held? ==> Small(Expand(l.node)))
    ensures
      var l' := CutIf(n.listed, PruneLink(l));
      LinkSound(db', top, l', depth) && LinkFits(top, Prune(n), l', depth)
    decreases l, 0
  {
    match l
    case Nil =>
    case Digest(t) => KeptSurvives(db, db', t);
    case Held(c) =>
      PruneSound(db, db', top, c, depth);
      if n.listed && !Small(Expand(c)) { SettledLinkKept(db, db', top, n, l, depth); }
  }

  /** The commit of a subtree leaves it sound over the new store. */
  lemma {:induction false} SealSound(db: set<Trie>, db': set<Trie>, top: nat, n: Node, depth: nat)
    requires Sound(db, top, n, depth) && Guarded(db', top, n, depth) && After(db, db', top, n, depth)
    ensures Sound(db', top, Prune(Seal(top, n, depth)), depth)
    decreases n, 1
  {
    if n.committed {
      PruneSound(db, db', top, n, depth);
    } else {
      var n' := Prune(Seal(top, n, depth));
      if !Small(Expand(n)) && depth >= top { assert Expand(n) in Puts(top, n, depth); }
      match n.body
      case LeafBody(_, _) =>
      case BranchBody(children, _) =>
        SealedChildren(top, n, depth);
        forall i | 0 <= i < |children|
          ensures LinkSound(db', top, n'.body.children[i], depth + 1) && LinkFits(top, n', n'.body.children[i], depth + 1)
        {
          AfterBranch(db, db', top, n, depth, i);
          SealLinkSound(db, db', top, n, n', children[i], depth + 1);
        }
      case ExtensionBody(_, child) =>
        AfterExtension(db, db', top, n, depth);
        SealLinkSound(db, db', top, n, n', child, depth + 1);
    }
  }

  function SealedLink(top: nat, n: Node, l: Link, depth: nat): Link {
    CutIf(n.listed, PruneLink(CutIf(depth == top, SealLink(top, l, depth))))
  }

  lemma SealedChildren(top: nat, n: Node, depth: nat)
    requires !n.committed && n.body.BranchBody?
    ensures
      var b := Prune(Seal(top, n, depth)).body;
      && b.BranchBody? && |b.children| == |n.body.children|
      && forall i :: 0 <= i < |b.children| ==> b.children[i] == SealedLink(top, n, n.body.children[i], depth + 1)
  {
    var sealed := SealBody(top, n.body, depth);
    var body := if depth + 1 == top then Truncate(sealed) else sealed;
    assert Seal(top, n, depth).body == body;
    forall i | 0 <= i < |body.children|
      ensures PruneBody(body).children[i] == PruneLink(CutIf(depth + 1 == top, SealLink(top, n.body.children[i], depth + 1)))
    {
      assert sealed.children[i] == SealLink(top, n.body.children[i], depth + 1);
      assert body.children[i] == CutIf(depth + 1 == top, sealed.children[i]);
    }
  }

  lemma SealedChild(top: nat, n: Node, depth: nat)
    requires !n.committed && n.body.ExtensionBody?
    ensures Prune(Seal(top, n, depth)).body == ExtensionBody(n.body.key, SealedLink(top, n, n.body.child, depth + 1))
  {
    var sealed := ExtensionBody(n.body.key, SealLink(top, n.body.child, depth + 1));
    assert SealBody(top, n.body, depth) == sealed;
    var cut := ExtensionBody(n.body.key, CutIf(depth + 1 == top, sealed.child));
    assert Seal(top, n, depth).body == cut;
    assert PruneBody(cut) == ExtensionBody(n.body.key, PruneLink(cut.child));
  }

  lemma {:induction false} SealLinkSound(db: set<Trie>, db': set<Trie>, top: nat, n: Node, n': Node, l: Link, depth: nat)
    requires LinkSound(db, top, l, depth) && LinkFits(top, n, l, depth) && LinkAfter(db, db', top, l, depth)
    requires LinkGuarded(db', top, l, depth) && CutGuarded(db', top, n, l, depth) && depth >= 1
    requires !n'.listed && (Settled(n') ==> depth >= top)
    ensures
      var l' := SealedLink(top, n, l, depth);
      LinkSound(db', top, l', depth) && LinkFits(top, n', l', depth)
    decreases l, 0
  {
    match l
    case Nil =>
    case Digest(t) => KeptSurvives(db, db', t);
    case Held(c) =>
      SealSound(db, db', top, c, depth);
      if !Small(Expand(c)) {
        if depth >= top {
          BottomLinkKept(db, db', top, n, l, depth);
        } else if n.listed && CutSafe(top, n, l, depth) {
          SettledLinkKept(db, db', top, n, l, depth);
        }
      }
  }

  // ----- the store after a commit -----

  /** Deletes are applied first, then the nodes saved, then the nodes written. */
  ghost function CommitStore(db: set<Trie>, dels: multiset<Trie>, top: nat, root: Node): set<Trie> {
    (set t | t in db && t !in dels) + Exiles(root) + Puts(top, root, 0)
  }

  /** No deleted node is still relied on, unless the commit stores it again. */
  ghost predicate Spared(dels: multiset<Trie>, top: nat, root: Node) {
    forall t :: t in dels && Relies(t, Held(root)) ==> t in Exiles(root) || t in Puts(top, root, 0)
  }

  /** A commit leaves every digest resolvable, and the trie unchanged, provided that what it cuts
      off above the border is kept and that the deletes spare what is relied on. */
  lemma CommitSound(db: set<Trie>, dels: multiset<Trie>, top: nat, root: Node)
    requires Sound(db, top, root, 0) && Guarded(CommitStore(db, dels, top, root), top, root, 0) && Spared(dels, top, root)
    ensures
      var root' := Prune(Seal(top, root, 0));
      Sound(CommitStore(db, dels, top, root), top, root', 0) && Expand(root') == Expand(root)
  {
    SealSound(db, CommitStore(db, dels, top, root), top, root, 0);
  }
}
