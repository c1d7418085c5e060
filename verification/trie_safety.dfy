/** Exactly when a commit is safe, whatever encodings the trie shares: what the store must hold for
    the digests in memory, what a commit still relies on, and what it may cut off. */
module TrieSafety {
  import opened Basics
  import opened Nibbles
  import opened Tries
  import opened TrieStore
  import opened TrieCommit

  // ----- what a store must hold -----

  lemma {:induction false} SumHasChild(x: Trie, children: seq<Child>, n: nat) returns (i: nat)
    requires n <= |children| && ChildrenSubs(x, children, n) > 0
    ensures n <= i < |children| && children[i].Owned? && Subs(x, children[i].node) > 0
    decreases |children| - n
  {
    if ChildSubs(x, children[n]) > 0 { i := n; } else { i := SumHasChild(x, children, n + 1); }
  }

  lemma {:induction false} KeptHas(db: set<Trie>, t: Trie, x: Trie)
    requires Kept(db, t) && Subs(x, t) > 0
    ensures x in db
    decreases t
  {
    if x != t {
      match t
      case Leaf(_, _) =>
      case Branch(children, _) =>
        var i := SumHasChild(x, children, 0);
        KeptHas(db, children[i].node, x);
      case Extension(_, child) => KeptHas(db, child, x);
    }
  }

  /** A node can be loaded with all below it exactly when the store has every long node of it. */
  lemma KeptExactly(db: set<Trie>, t: Trie)
    ensures Kept(db, t) <==> forall x :: Subs(x, t) > 0 ==> x in db
  {
    forall x | Kept(db, t) && Subs(x, t) > 0 ensures x in db { KeptHas(db, t, x); }
    if forall x :: Subs(x, t) > 0 ==> x in db { HasKept(db, t); }
  }

  lemma {:induction false} HasKept(db: set<Trie>, t: Trie)
    requires forall x :: Subs(x, t) > 0 ==> x in db
    ensures Kept(db, t)
    decreases t
  {
    if !Small(t) {
      assert Subs(t, t) > 0;
      match t
      case Leaf(_, _) =>
      case Branch(children, _) =>
        forall i | 0 <= i < |children| && children[i].Owned? ensures Kept(db, children[i].node) {
          forall x | Subs(x, children[i].node) > 0 ensures x in db {
            ChildSubsInSum(x, children, 0, i);
            assert ChildSubs(x, children[i]) == Subs(x, children[i].node);
          }
          HasKept(db, children[i].node);
        }
      case Extension(_, child) => HasKept(db, child);
    }
  }

  /** Every digest in memory can be loaded, and so can everything below it. */
  ghost predicate Resolves(db: set<Trie>, l: Link)
    decreases l
  {
    match l
    case Nil => true
    case Digest(t) => Kept(db, t)
    case Held(n) =>
      match n.body
      case LeafBody(_, _) => true
      case BranchBody(children, _) => forall i :: 0 <= i < |children| ==> Resolves(db, children[i])
      case ExtensionBody(_, child) => Resolves(db, child)
  }

  /** The node lies behind a digest. */
  ghost predicate Behind(x: Trie, l: Link)
    decreases l
  {
    match l
    case Nil => false
    case Digest(t) => Subs(x, t) > 0
    case Held(n) =>
      match n.body
      case LeafBody(_, _) => false
      case BranchBody(children, _) => exists i :: 0 <= i < |children| && Behind(x, children[i])
      case ExtensionBody(_, child) => Behind(x, child)
  }

  lemma {:induction false} ResolvesHas(db: set<Trie>, l: Link, x: Trie)
    requires Resolves(db, l) && Behind(x, l)
    ensures x in db
    decreases l
  {
    match l
    case Digest(t) => KeptHas(db, t, x);
    case Held(n) =>
      match n.body
      case BranchBody(children, _) =>
        var i :| 0 <= i < |children| && Behind(x, children[i]);
        ResolvesHas(db, children[i], x);
      case ExtensionBody(_, child) => ResolvesHas(db, child, x);
  }

  lemma {:induction false} HasResolves(db: set<Trie>, l: Link)
    requires forall x :: Behind(x, l) ==> x in db
    ensures Resolves(db, l)
    decreases l
  {
    match l
    case Nil =>
    case Digest(t) => HasKept(db, t);
    case Held(n) =>
      match n.body
      case LeafBody(_, _) =>
      case BranchBody(children, _) =>
        forall i | 0 <= i < |children| ensures Resolves(db, children[i]) {
          forall x | Behind(x, children[i]) ensures x in db { assert Behind(x, l); }
          HasResolves(db, children[i]);
        }
      case ExtensionBody(_, child) =>
        forall x | Behind(x, child) ensures x in db { assert Behind(x, l); }
        HasResolves(db, child);
  }

  lemma {:induction false} SoundResolves(db: set<Trie>, top: nat, l: Link, depth: nat)
    requires LinkSound(db, top, l, depth)
    ensures Resolves(db, l)
    decreases l
  {
    if l.Held? {
      match l.node.body
      case LeafBody(_, _) =>
      case BranchBody(children, _) =>
        forall i | 0 <= i < |children| ensures Resolves(db, children[i]) {
          SoundResolves(db, top, children[i], depth + 1);
        }
      case ExtensionBody(_, child) => SoundResolves(db, top, child, depth + 1);
    }
  }

  // ----- what is cut off -----

  /** Below a link, something is changed and about to be cut off. */
  ghost predicate Lost(top: nat, n: Node, l: Link, depth: nat) {
    !LinkClear(top, l, depth) || !CutSafe(top, n, l, depth)
  }

  lemma {:induction false} LossIsChanged(db: set<Trie>, top: nat, n: Node, l: Link, depth: nat)
    requires LinkSound(db, top, l, depth) && LinkFits(top, n, l, depth) && Lost(top, n, l, depth)
    ensures l.Held? && !l.node.committed && !Small(Expand(l.node)) && depth < top && !n.committed
    decreases l
  {
    if !LinkClear(top, l, depth) { UnclearIsChanged(db, top, l.node, depth); }
  }

  /** A node above a loss is changed, long, and above the border. */
  lemma {:induction false} UnclearIsChanged(db: set<Trie>, top: nat, n: Node, depth: nat)
    requires Sound(db, top, n, depth) && !Clear(top, n, depth)
    ensures !n.committed && !Small(Expand(n)) && depth + 1 < top
    decreases n
  {
    match n.body
    case LeafBody(_, _) =>
    case BranchBody(children, _) =>
      var i :| 0 <= i < |children| && Lost(top, n, children[i], depth + 1);
      LossIsChanged(db, top, n, children[i], depth + 1);
      assert Expand(n).children[i] == ExpandLink(children[i]);
      if Small(Expand(n)) { SmallChildren(Expand(n)); }
    case ExtensionBody(_, child) =>
      assert Lost(top, n, child, depth + 1);
      LossIsChanged(db, top, n, child, depth + 1);
      assert Expand(n).child == Below(ExpandLink(child));
      if Small(Expand(n)) { SmallChildren(Expand(n)); }
  }

  lemma {:induction false} ClearGuards(db: set<Trie>, top: nat, n: Node, depth: nat)
    requires Clear(top, n, depth)
    ensures Guarded(db, top, n, depth)
    decreases n
  {
    match n.body
    case LeafBody(_, _) =>
    case BranchBody(children, _) =>
      forall i | 0 <= i < |children|
        ensures LinkGuarded(db, top, children[i], depth + 1) && CutGuarded(db, top, n, children[i], depth + 1)
      {
        assert LinkClear(top, children[i], depth + 1) && CutSafe(top, n, children[i], depth + 1);
        if children[i].Held? { ClearGuards(db, top, children[i].node, depth + 1); }
      }
    case ExtensionBody(_, child) => if child.Held? { ClearGuards(db, top, child.node, depth + 1); }
  }

  lemma {:induction false} KeptGrows(db: set<Trie>, db': set<Trie>, t: Trie)
    requires Kept(db, t) && db <= db'
    ensures Kept(db', t)
  {
    KeptSurvives(db, db', t);
  }

  lemma {:induction false} GuardedGrows(db: set<Trie>, db': set<Trie>, top: nat, n: Node, depth: nat)
    requires Guarded(db, top, n, depth) && db <= db'
    ensures Guarded(db', top, n, depth)
    decreases n
  {
    match n.body
    case LeafBody(_, _) =>
    case BranchBody(children, _) =>
      forall i | 0 <= i < |children|
        ensures LinkGuarded(db', top, children[i], depth + 1) && CutGuarded(db', top, n, children[i], depth + 1)
      {
        assert LinkGuarded(db, top, children[i], depth + 1) && CutGuarded(db, top, n, children[i], depth + 1);
        LinkGuardedGrows(db, db', top, n, children[i], depth + 1);
      }
    case ExtensionBody(_, child) => LinkGuardedGrows(db, db', top, n, child, depth + 1);
  }

  lemma {:induction false} LinkGuardedGrows(db: set<Trie>, db': set<Trie>, top: nat, n: Node, l: Link, depth: nat)
    requires LinkGuarded(db, top, l, depth) && CutGuarded(db, top, n, l, depth) && db <= db'
    ensures LinkGuarded(db', top, l, depth) && CutGuarded(db', top, n, l, depth)
    decreases l
  {
    if l.Held? { GuardedGrows(db, db', top, l.node, depth); }
    if !CutSafe(top, n, l, depth) { KeptGrows(db, db', Expand(l.node)); }
  }

  /** The children of a kept node are kept. */
  lemma KeptChild(db: set<Trie>, n: Node, l: Link)
    requires Kept(db, Expand(n)) && HasLink(n, l) && !l.Nil?
    ensures Kept(db, ExpandLink(l).node)
  {
    if Small(Expand(n)) { SmallChildren(Expand(n)); }
    if n.body.BranchBody? {
      var i :| 0 <= i < |n.body.children| && n.body.children[i] == l;
      assert Expand(n).children[i] == ExpandLink(l);
    } else {
      assert Expand(n).child == Below(ExpandLink(l));
    }
  }

  /** Below a node that is kept as it stands, whatever is cut off is kept too. */
  lemma {:induction false} KeptGuards(db: set<Trie>, top: nat, n: Node, depth: nat)
    requires Kept(db, Expand(n))
    ensures Guarded(db, top, n, depth)
    decreases n
  {
    match n.body
    case LeafBody(_, _) =>
    case BranchBody(children, _) =>
      forall i | 0 <= i < |children|
        ensures LinkGuarded(db, top, children[i], depth + 1) && CutGuarded(db, top, n, children[i], depth + 1)
      {
        if children[i].Held? {
          KeptChild(db, n, children[i]);
          KeptGuards(db, top, children[i].node, depth + 1);
        }
      }
    case ExtensionBody(_, child) =>
      if child.Held? {
        KeptChild(db, n, child);
        KeptGuards(db, top, child.node, depth + 1);
      }
  }

  /** If every digest resolves after the commit, what it cut off was kept. */
  lemma {:induction false} ResolvesGuards(db: set<Trie>, db': set<Trie>, top: nat, n: Node, depth: nat)
    requires Sound(db, top, n, depth) && Resolves(db', Held(Prune(Seal(top, n, depth))))
    ensures Guarded(db', top, n, depth)
    decreases n
  {
    if Clear(top, n, depth) {
      ClearGuards(db', top, n, depth);
    } else {
      UnclearIsChanged(db, top, n, depth);
      var n' := Prune(Seal(top, n, depth));
      match n.body
      case LeafBody(_, _) =>
      case BranchBody(children, _) =>
        SealedChildren(top, n, depth);
        forall i | 0 <= i < |children|
          ensures LinkGuarded(db', top, children[i], depth + 1) && CutGuarded(db', top, n, children[i], depth + 1)
        {
          assert Resolves(db', n'.body.children[i]);
          ResolvesLinkGuards(db, db', top, n, children[i], depth + 1);
        }
      case ExtensionBody(_, child) =>
        SealedChild(top, n, depth);
        ResolvesLinkGuards(db, db', top, n, child, depth + 1);
    }
  }

  lemma {:induction false} ResolvesLinkGuards(db: set<Trie>, db': set<Trie>, top: nat, n: Node, l: Link, depth: nat)
    requires LinkSound(db, top, l, depth) && depth < top && Resolves(db', SealedLink(top, n, l, depth))
    ensures LinkGuarded(db', top, l, depth) && CutGuarded(db', top, n, l, depth)
    decreases l
  {
    if l.Held? {
      if n.listed && !Small(Expand(l.node)) {
        KeptGuards(db', top, l.node, depth);
      } else {
        ResolvesGuards(db, db', top, l.node, depth);
      }
    }
  }

  // ----- what is relied on -----

  lemma {:induction false} SoundHas(db: set<Trie>, top: nat, l: Link, depth: nat, x: Trie)
    requires LinkSound(db, top, l, depth) && Relies(x, l)
    ensures x in db
    decreases l
  {
    match l
    case Digest(t) => KeptHas(db, t, x);
    case Held(n) =>
      if !Marked(x, n) {
        match n.body
        case BranchBody(children, _) =>
          var i :| 0 <= i < |children| && Relies(x, children[i]);
          SoundHas(db, top, children[i], depth + 1, x);
        case ExtensionBody(_, child) => SoundHas(db, top, child, depth + 1, x);
      }
  }

  /** What a link relies on is one of its long nodes. */
  lemma {:induction false} ReliesSubs(x: Trie, l: Link)
    requires Relies(x, l)
    ensures !l.Nil? && Subs(x, ExpandLink(l).node) > 0
    decreases l
  {
    if l.Held? && !Marked(x, l.node) {
      var n := l.node;
      match n.body
      case BranchBody(children, _) =>
        var i :| 0 <= i < |children| && Relies(x, children[i]);
        ReliesSubs(x, children[i]);
        SubsUp(x, n, children[i]);
      case ExtensionBody(_, child) =>
        ReliesSubs(x, child);
        SubsUp(x, n, child);
    }
  }

  lemma SubsUp(x: Trie, n: Node, l: Link)
    requires HasLink(n, l) && !l.Nil? && Subs(x, ExpandLink(l).node) > 0
    ensures Subs(x, Expand(n)) > 0
  {
    if Small(Expand(n)) { SmallChildren(Expand(n)); }
    if n.body.BranchBody? {
      var i :| 0 <= i < |n.body.children| && n.body.children[i] == l;
      assert Expand(n).children[i] == ExpandLink(l);
      ChildSubsInSum(x, Expand(n).children, 0, i);
      assert ChildSubs(x, Expand(n).children[i]) == Subs(x, ExpandLink(l).node);
    } else {
      assert Expand(n).child == Below(ExpandLink(l));
    }
  }

  lemma ReliesCut(x: Trie, l: Link)
    requires Relies(x, l)
    ensures Relies(x, Cut(l))
  {
    ReliesSubs(x, l);
  }

  /** What was relied on before emptying the lists is relied on afterwards. */
  lemma {:induction false} PruneRelies(x: Trie, n: Node)
    requires Relies(x, Held(n)) && StoredCommitted(Held(n))
    ensures Relies(x, Held(Prune(n)))
    decreases n, 1
  {
    if !Marked(x, n) {
      match n.body
      case BranchBody(children, _) =>
        var i :| 0 <= i < |children| && Relies(x, children[i]);
        assert StoredCommitted(children[i]);
        PruneLinkRelies(x, n, children[i]);
        assert Prune(n).body.children[i] == CutIf(n.listed, PruneLink(children[i]));
      case ExtensionBody(_, child) =>
        PruneLinkRelies(x, n, child);
        assert Prune(n).body.child == CutIf(n.listed, PruneLink(child));
    }
  }

  lemma {:induction false} PruneLinkRelies(x: Trie, n: Node, l: Link)
    requires Relies(x, l) && StoredCommitted(l)
    ensures Relies(x, CutIf(n.listed, PruneLink(l)))
    decreases l, 0
  {
    if l.Held? { PruneRelies(x, l.node); }
    ReliesCut(x, PruneLink(l));
  }

  /** Only unchanged nodes are marked as stored. */
  ghost predicate StoredCommitted(l: Link)
    decreases l
  {
    l.Held? ==>
      && (l.node.stored ==> l.node.committed)
      && match l.node.body
        case LeafBody(_, _) => true
        case BranchBody(children, _) => forall i :: 0 <= i < |children| ==> StoredCommitted(children[i])
        case ExtensionBody(_, child) => StoredCommitted(child)
  }

  lemma {:induction false} SoundStored(db: set<Trie>, top: nat, l: Link, depth: nat)
    requires LinkSound(db, top, l, depth)
    ensures StoredCommitted(l)
    decreases l
  {
    if l.Held? {
      match l.node.body
      case LeafBody(_, _) =>
      case BranchBody(children, _) =>
        forall i | 0 <= i < |children| ensures StoredCommitted(children[i]) {
          SoundStored(db, top, children[i], depth + 1);
        }
      case ExtensionBody(_, child) => SoundStored(db, top, child, depth + 1);
    }
  }

  /** What was relied on before the commit is relied on after it. */
  lemma {:induction false} SealRelies(db: set<Trie>, top: nat, n: Node, depth: nat, x: Trie)
    requires Sound(db, top, n, depth) && Relies(x, Held(n))
    ensures Relies(x, Held(Prune(Seal(top, n, depth))))
    decreases n, 1
  {
    if n.committed {
      SoundStored(db, top, Held(n), depth);
      PruneRelies(x, n);
    } else {
      var n' := Prune(Seal(top, n, depth));
      match n.body
      case BranchBody(children, _) =>
        var i :| 0 <= i < |children| && Relies(x, children[i]);
        SealedChildren(top, n, depth);
        SealLinkRelies(db, top, n, children[i], depth + 1, x);
        assert Relies(x, n'.body.children[i]);
      case ExtensionBody(_, child) =>
        SealedChild(top, n, depth);
        SealLinkRelies(db, top, n, child, depth + 1, x);
    }
  }

  lemma {:induction false} SealLinkRelies(db: set<Trie>, top: nat, n: Node, l: Link, depth: nat, x: Trie)
    requires LinkSound(db, top, l, depth) && Relies(x, l)
    ensures Relies(x, SealedLink(top, n, l, depth))
    decreases l, 0
  {
    match l
    case Digest(_) =>
    case Held(c) =>
      SealRelies(db, top, c, depth, x);
      var sealed := Held(Prune(Seal(top, c, depth)));
      if depth == top && !Small(Expand(c)) {
        ReliesSubs(x, sealed);
      } else {
        ReliesCut(x, sealed);
      }
  }

  // ----- what belongs to the trie -----

  lemma {:induction false} LinksHaveLive(x: Trie, links: seq<Link>, n: nat) returns (i: nat)
    requires n <= |links| && LinksLive(x, links, n) > 0
    ensures n <= i < |links| && LinkLive(x, links[i]) > 0
    decreases |links| - n
  {
    if LinkLive(x, links[n]) > 0 { i := n; } else { i := LinksHaveLive(x, links, n + 1); }
  }

  /** A long node that is unchanged below a link is one of its nodes. */
  lemma {:induction false} LiveSubs(x: Trie, l: Link)
    requires !Small(x) && LinkLive(x, l) > 0
    ensures !l.Nil? && Subs(x, ExpandLink(l).node) > 0
    decreases l
  {
    if l.Held? && !(l.node.committed && x == Expand(l.node)) {
      var n := l.node;
      match n.body
      case BranchBody(children, _) =>
        var i := LinksHaveLive(x, children, 0);
        LiveSubs(x, children[i]);
        SubsUp(x, n, children[i]);
      case ExtensionBody(_, child) =>
        LiveSubs(x, child);
        SubsUp(x, n, child);
    }
  }

  lemma {:induction false} ExilesSubs(x: Trie, n: Node)
    requires !Small(x) && x in Exiles(n)
    ensures Subs(x, Expand(n)) > 0
    decreases n
  {
    if !(n.exiled && x == Expand(n)) {
      match n.body
      case BranchBody(children, _) =>
        var i :| 0 <= i < |children| && x in LinkExiles(children[i]);
        ExilesSubs(x, children[i].node);
        SubsUp(x, n, children[i]);
      case ExtensionBody(_, child) =>
        ExilesSubs(x, child.node);
        SubsUp(x, n, child);
    }
  }

  lemma {:induction false} PutsSubs(x: Trie, top: nat, n: Node, depth: nat)
    requires x in Puts(top, n, depth)
    ensures Subs(x, Expand(n)) > 0
    decreases n
  {
    if x != Expand(n) {
      match n.body
      case BranchBody(children, _) =>
        var i :| 0 <= i < |children| && x in LinkPuts(top, children[i], depth + 1);
        PutsSubs(x, top, children[i].node, depth + 1);
        SubsUp(x, n, children[i]);
      case ExtensionBody(_, child) =>
        PutsSubs(x, top, child.node, depth + 1);
        SubsUp(x, n, child);
    }
  }

  // ----- the exact conditions -----

  /** The commit keeps the trie loadable, now and for all later commits, exactly when what it cuts
      off above the border is kept and its deletes spare what is relied on. */
  lemma CommitSoundExactly(db: set<Trie>, dels: multiset<Trie>, top: nat, root: Node)
    requires Sound(db, top, root, 0)
    ensures
      var db' := CommitStore(db, dels, top, root);
      Sound(db', top, Prune(Seal(top, root, 0)), 0) <==> Guarded(db', top, root, 0) && Spared(dels, top, root)
  {
    var db', root' := CommitStore(db, dels, top, root), Prune(Seal(top, root, 0));
    if Guarded(db', top, root, 0) && Spared(dels, top, root) { CommitSound(db, dels, top, root); }
    if Sound(db', top, root', 0) {
      SoundResolves(db', top, Held(root'), 0);
      ResolvesGuards(db, db', top, root, 0);
      forall t | t in dels && Relies(t, Held(root)) ensures t in Exiles(root) || t in Puts(top, root, 0) {
        SealRelies(db, top, root, 0, t);
        SoundHas(db', top, Held(root'), 0, t);
      }
    }
  }

  /** No deleted node lies behind a digest, unless the commit stores it again. */
  ghost predicate Unstranded(dels: multiset<Trie>, top: nat, root: Node) {
    forall x :: x in dels && Behind(x, Held(Prune(Seal(top, root, 0)))) ==> x in Exiles(root) || x in Puts(top, root, 0)
  }

  /** Every digest resolves after the commit exactly when what it cuts off above the border is kept
      and no deleted node is left behind a digest. */
  lemma CommitResolvesExactly(db: set<Trie>, dels: multiset<Trie>, top: nat, root: Node)
    requires Sound(db, top, root, 0)
    ensures
      var db' := CommitStore(db, dels, top, root);
      Resolves(db', Held(Prune(Seal(top, root, 0)))) <==> Guarded(db', top, root, 0) && Unstranded(dels, top, root)
  {
    var db', root' := CommitStore(db, dels, top, root), Prune(Seal(top, root, 0));
    if Guarded(db', top, root, 0) && Unstranded(dels, top, root) {
      var all := db + Exiles(root) + Puts(top, root, 0);
      GuardedGrows(db', all, top, root, 0);
      SealSound(db, all, top, root, 0);
      SoundResolves(all, top, Held(root'), 0);
      forall x | Behind(x, Held(root')) ensures x in db' { ResolvesHas(all, Held(root'), x); }
      HasResolves(db', Held(root'));
    }
    if Resolves(db', Held(root')) {
      ResolvesGuards(db, db', top, root, 0);
      forall x | x in dels && Behind(x, Held(root')) ensures x in Exiles(root) || x in Puts(top, root, 0) {
        ResolvesHas(db', Held(root'), x);
      }
    }
  }
}
