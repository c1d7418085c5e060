/** Conservation: an operation neither loses nor duplicates unchanged nodes; each is still in the
    trie or on the list of nodes to delete. */
module TrieLive {
  import opened Basics
  import opened Nibbles
  import opened Tries
  import opened TrieUpdates
  import opened TrieStore
  import opened TrieCommit
  import opened TrieOps
  import opened TriePut
  import opened TrieDel

  ghost function BodyLive(x: Trie, b: Body): nat {
    match b
    case LeafBody(_, _) => 0
    case BranchBody(children, _) => LinksLive(x, children, 0)
    case ExtensionBody(_, child) => LinkLive(x, child)
  }

  /** What changing a node puts on the list of nodes to delete. */
  function Dropped(n: Node): multiset<Trie> {
    if n.committed then multiset{Expand(n)} else multiset{}
  }

  lemma LiveSplit(x: Trie, n: Node)
    ensures Live(x, n) == Dropped(n)[x] + BodyLive(x, n.body)
  {
  }

  lemma {:induction false} LinksLiveUpdate(x: Trie, links: seq<Link>, i: nat, l: Link, from: nat)
    requires from <= i < |links|
    ensures LinksLive(x, links[i := l], from) + LinkLive(x, links[i]) == LinksLive(x, links, from) + LinkLive(x, l)
    decreases i - from
  {
    if from < i {
      LinksLiveUpdate(x, links, i, l, from + 1);
    } else {
      LinksLiveSame(x, links, links[i := l], i + 1);
    }
  }

  lemma {:induction false} LinksLiveSame(x: Trie, a: seq<Link>, b: seq<Link>, from: nat)
    requires |a| == |b| && from <= |a| && forall i :: from <= i < |a| ==> LinkLive(x, a[i]) == LinkLive(x, b[i])
    ensures LinksLive(x, a, from) == LinksLive(x, b, from)
    decreases |a| - from
  {
    if from < |a| { LinksLiveSame(x, a, b, from + 1); }
  }

  lemma {:induction false} LinksLiveNone(x: Trie, links: seq<Link>, from: nat)
    requires from <= |links| && forall i :: from <= i < |links| ==> LinkLive(x, links[i]) == 0
    ensures LinksLive(x, links, from) == 0
    decreases |links| - from
  {
    if from < |links| { LinksLiveNone(x, links, from + 1); }
  }

  lemma StepLive(x: Trie, n: Node, k: Path, l: Link)
    requires !Step(n, k).0.Nil?
    ensures BodyLive(x, WithStep(n, k, l).body) + LinkLive(x, Step(n, k).0) == BodyLive(x, n.body) + LinkLive(x, l)
  {
    if n.body.BranchBody? { LinksLiveUpdate(x, n.body.children, k[0], l, 0); }
  }

  // ----- between commits -----

  /** Nothing is lost between memory and store: an unchanged subtree counts each of its long nodes
      once, and short nodes count with their parents. */
  lemma {:induction false} QuietLive(x: Trie, db: set<Trie>, top: nat, n: Node, depth: nat)
    requires Sound(db, top, n, depth)
    ensures n.committed && !Small(Expand(n)) ==> Live(x, n) == Subs(x, Expand(n))
    ensures Small(Expand(n)) ==> BodyLive(x, n.body) == 0
    decreases n, 1
  {
    if Small(Expand(n)) { SmallChildren(Expand(n)); }
    if n.committed || Small(Expand(n)) {
      match n.body
      case LeafBody(_, _) =>
      case BranchBody(children, _) =>
        forall i | 0 <= i < |children| ensures LinkLive(x, children[i]) == ChildSubs(x, ExpandLink(children[i])) {
          assert Expand(n).children[i] == ExpandLink(children[i]);
          QuietLinkLive(x, db, top, n, children[i], depth + 1);
        }
        LinksSubs(x, children, 0);
        if Small(Expand(n)) {
          forall i | 0 <= i < |children| ensures LinkLive(x, children[i]) == 0 {
            assert Expand(n).children[i] == ExpandLink(children[i]);
          }
          LinksLiveNone(x, children, 0);
        }
      case ExtensionBody(_, child) =>
        assert Expand(n).child == Below(ExpandLink(child));
        QuietLinkLive(x, db, top, n, child, depth + 1);
    }
  }

  lemma {:induction false} QuietLinkLive(x: Trie, db: set<Trie>, top: nat, n: Node, l: Link, depth: nat)
    requires LinkSound(db, top, l, depth) && LinkFits(top, n, l, depth)
    requires n.committed || (ExpandLink(l).Owned? ==> Small(ExpandLink(l).node))
    ensures LinkLive(x, l) == ChildSubs(x, ExpandLink(l))
    decreases l, 0
  {
    if l.Held? { QuietLive(x, db, top, l.node, depth); }
  }

  lemma {:induction false} LinksSubs(x: Trie, links: seq<Link>, from: nat)
    requires from <= |links| && forall i :: from <= i < |links| ==> LinkLive(x, links[i]) == ChildSubs(x, ExpandLink(links[i]))
    ensures LinksLive(x, links, from) == ChildrenSubs(x, ExpandLinks(links), from)
    decreases |links| - from
  {
    if from < |links| { LinksSubs(x, links, from + 1); }
  }

  // ----- loading and moving -----

  lemma LoadedLive(x: Trie, db: set<Trie>, top: nat, l: Link, depth: nat)
    requires LinkSound(db, top, l, depth) && (l.Digest? ==> Shaped(l.of))
    ensures LinkLive(x, Loaded(l)) == LinkLive(x, l)
  {
    if l.Digest? {
      LoadSound(db, top, l.of, depth);
      QuietLive(x, db, top, Load(l.of), depth);
    }
  }

  lemma {:induction false} ExileLive(x: Trie, top: nat, n: Node, depth: nat)
    ensures Live(x, Exile(top, n, depth)) == Live(x, n)
    decreases n
  {
    if depth < top {
      match n.body
      case LeafBody(_, _) =>
      case BranchBody(children, _) =>
        forall i | 0 <= i < |children| ensures LinkLive(x, ExileLink(top, children[i], depth + 1)) == LinkLive(x, children[i]) {
          ExileLinkLive(x, top, children[i], depth + 1);
        }
        LinksLiveSame(x, children, ExileLinks(top, children, depth + 1), 0);
      case ExtensionBody(_, child) => ExileLinkLive(x, top, child, depth + 1);
    }
  }

  lemma {:induction false} ExileLinkLive(x: Trie, top: nat, l: Link, depth: nat)
    ensures LinkLive(x, ExileLink(top, l, depth)) == LinkLive(x, l)
    decreases l
  {
    if l.Held? { ExileLive(x, top, l.node, depth); }
  }

  lemma {:induction false} NewLive(x: Trie, t: Trie)
    ensures Live(x, New(t)) == 0
    decreases t
  {
    match t
    case Leaf(_, _) =>
    case Branch(children, _) =>
      var links := NewLinks(children);
      forall i | 0 <= i < |links| ensures LinkLive(x, links[i]) == 0 {
        assert links[i] == NewLink(children[i]);
        if children[i].Owned? { NewLive(x, children[i].node); }
      }
      LinksLiveNone(x, links, 0);
    case Extension(_, child) => NewLive(x, child);
  }

  /** A search moves nodes from the store to memory and nothing else. */
  lemma {:induction false} WalkLive(x: Trie, db: set<Trie>, top: nat, n: Node, k: Path, depth: nat)
    requires Sound(db, top, n, depth) && Shaped(Expand(n))
    ensures Live(x, Walk(top, n, k, depth)) == Live(x, n)
    decreases Expand(n)
  {
    var (l, rest) := Step(n, k);
    if !l.Nil? {
      StepBelow(n, k);
      StepShaped(n, k);
      assert LinkSound(db, top, l, depth + 1) && LinkFits(top, n, l, depth + 1);
      LoadedSound(db, top, n, l, depth + 1);
      WalkLive(x, db, top, Loaded(l).node, rest, depth + 1);
      WalkedLive(x, db, top, n, k, depth);
    }
  }

  /** One step of the walk, given what it does below. */
  lemma WalkedLive(x: Trie, db: set<Trie>, top: nat, n: Node, k: Path, depth: nat)
    requires !Step(n, k).0.Nil? && LinkSound(db, top, Step(n, k).0, depth + 1)
    requires Step(n, k).0.Digest? ==> Shaped(Step(n, k).0.of)
    requires
      var child := Loaded(Step(n, k).0).node;
      Live(x, Walk(top, child, Step(n, k).1, depth + 1)) == Live(x, child)
    requires
      var child := Loaded(Step(n, k).0).node;
      Expand(Walk(top, child, Step(n, k).1, depth + 1)) == Expand(child)
    ensures Live(x, Walk(top, n, k, depth)) == Live(x, n)
  {
    var (l, rest) := Step(n, k);
    LoadedLive(x, db, top, l, depth + 1);
    var below := Held(Walk(top, Loaded(l).node, rest, depth + 1));
    StepLive(x, n, k, below);
    StepExpand(n, k, below);
    LiveSplit(x, n);
    LiveSplit(x, Walk(top, n, k, depth));
    assert BodyLive(x, WithStep(n, k, below).body) == BodyLive(x, n.body);
  }

  // ----- insertion -----

  /** The nodes on the search path that were unchanged. */
  ghost function PathDels(n: Node, k: Path): multiset<Trie>
    decreases n
  {
    var (l, rest) := Step(n, k);
    StepHeld(n, k);
    Dropped(n) + if l.Held? then PathDels(l.node, rest) else multiset{}
  }

  lemma PushedDownLive(x: Trie, db: set<Trie>, top: nat, rest: Path, child: Link, depth: nat)
    requires LinkSound(db, top, child, depth + 1) && (child.Digest? ==> Shaped(child.of))
    ensures LinkLive(x, PushedDown(top, rest, child, depth)) == LinkLive(x, child)
  {
    LoadedLive(x, db, top, child, depth + 1);
    ExileLinkLive(x, top, Loaded(child), depth + 2);
    var below := if rest == [] then child else Held(Fresh(ExtensionBody(rest, ExileLink(top, Loaded(child), depth + 2))));
    ExileLinkLive(x, top, below, depth + 2);
  }

  lemma ForkLive(x: Trie, c: Nibble, below: Link, rest: Path, v: Bytes)
    requires rest == [] || rest[0] != c
    ensures BodyLive(x, ForkBody(c, below, rest, v)) == LinkLive(x, below)
  {
    var links := NO_LINKS[c := below];
    LinksLiveNone(x, NO_LINKS, 0);
    LinksLiveUpdate(x, NO_LINKS, c, below, 0);
    if rest != [] { LinksLiveUpdate(x, links, rest[0], Held(Fresh(LeafBody(rest[1..], v))), 0); }
  }

  lemma WrapLive(x: Trie, p: Path, b: Body)
    ensures BodyLive(x, WrapBody(p, b)) == BodyLive(x, b)
  {
    LiveSplit(x, Fresh(b));
  }

  lemma PutHereLive(x: Trie, db: set<Trie>, top: nat, n: Node, k: Path, v: Bytes, depth: nat)
    requires Canonical(Expand(n)) && Sound(db, top, n, depth) && Step(n, k).0.Nil?
    ensures BodyLive(x, PutHere(top, n, k, v, depth)) == BodyLive(x, n.body)
  {
    match n.body
    case LeafBody(key, value) => if key != k { NewLive(x, SplitLeaf(key, value, k, v)); }
    case BranchBody(children, value) =>
      if k != [] { LinksLiveUpdate(x, children, k[0], Held(Fresh(LeafBody(k[1..], v))), 0); }
    case ExtensionBody(key, child) =>
      assert Expand(n).child == Below(ExpandLink(child)) && child != Nil;
      CanonicalShaped(ExpandLink(child).node);
      PutInsideLive(x, db, top, key, child, k, v, depth);
  }

  /** Splitting an extension. */
  lemma PutInsideLive(x: Trie, db: set<Trie>, top: nat, key: Path, child: Link, k: Path, v: Bytes, depth: nat)
    requires !(key <= k) && LinkSound(db, top, child, depth + 1) && (child.Digest? ==> Shaped(child.of))
    ensures BodyLive(x, SplitExtensionBody(top, key, child, k, v, depth)) == LinkLive(x, child)
  {
    var i := Common(k, key, 0);
    ForkInside(key, k);
    PushedDownLive(x, db, top, key[i + 1..], child, depth);
    var below := PushedDown(top, key[i + 1..], child, depth);
    ForkLive(x, key[i], below, k[i..], v);
    WrapLive(x, k[..i], ForkBody(key[i], below, k[i..], v));
  }

  /** Insertion: the unchanged nodes of the path go to the list, all others stay. */
  lemma {:induction false} PutLive(x: Trie, db: set<Trie>, top: nat, n: Node, k: Path, v: Bytes, depth: nat)
    requires Canonical(Expand(n)) && Walked(n, k) && Sound(db, top, n, depth)
    ensures Live(x, PutNode(top, n, k, v, depth)) + PathDels(n, k)[x] == Live(x, n)
    decreases n
  {
    var (l, rest) := Step(n, k);
    StepHeld(n, k);
    if l.Held? {
      StepCanonical(n, k);
      assert LinkSound(db, top, l, depth + 1);
      PutLive(x, db, top, l.node, rest, v, depth + 1);
      var c := PutNode(top, l.node, rest, v, depth + 1);
      StepLive(x, n, k, Held(c));
      assert PathDels(n, k)[x] == Dropped(n)[x] + PathDels(l.node, rest)[x];
      assert PutNode(top, n, k, v, depth) == Fresh(WithStep(n, k, Held(c)).body);
    } else {
      PutHereLive(x, db, top, n, k, v, depth);
      assert PathDels(n, k)[x] == Dropped(n)[x];
    }
    LiveSplit(x, n);
    LiveSplit(x, PutNode(top, n, k, v, depth));
  }

  // ----- deletion -----

  /** An only child that is merged into its parent is changed with it. */
  ghost function CollapseDels(children: seq<Link>, value: Bytes): multiset<Trie>
    requires |children| == 16
  {
    var i := OnlyChild(ExpandLinks(children));
    if value == [] && i < 16 && !Loaded(children[i]).node.body.BranchBody? then Dropped(Loaded(children[i]).node)
    else multiset{}
  }

  /** The child that a deletion merges away, where a branch on the path collapses. */
  ghost function MergeDels(n: Node, k: Path): multiset<Trie>
    requires Shaped(Expand(n))
    decreases n
  {
    var (l, rest) := Step(n, k);
    StepHeld(n, k);
    match n.body
    case LeafBody(_, _) => multiset{}
    case BranchBody(children, value) =>
      if !l.Held? then CollapseDels(children, [])
      else
        StepShaped(n, k);
        if DelNode(l.node, rest).Nil? then CollapseDels(children[k[0] := Nil], value) else MergeDels(l.node, rest)
    case ExtensionBody(_, _) =>
      if !l.Held? then multiset{}
      else
        StepShaped(n, k);
        MergeDels(l.node, rest)
  }

  /** The nodes that a deletion puts on the list. */
  ghost function DelDels(n: Node, k: Path): multiset<Trie>
    requires Shaped(Expand(n))
  {
    PathDels(n, k) + MergeDels(n, k)
  }

  /** Where nothing is left, nothing was merged. */
  lemma {:induction false} GoneMergesNothing(n: Node, k: Path)
    requires Shaped(Expand(n)) && DelNode(n, k).Nil?
    ensures MergeDels(n, k) == multiset{}
    decreases n
  {
    StepHeld(n, k);
    if n.body.ExtensionBody? && Step(n, k).0.Held? {
      StepShaped(n, k);
      GoneMergesNothing(Step(n, k).0.node, Step(n, k).1);
    }
  }

  lemma OnlyLinkLive(x: Trie, children: seq<Link>, i: nat)
    requires i < |children| && Occupied(ExpandLinks(children)) == {i}
    ensures LinksLive(x, children, 0) == LinkLive(x, children[i])
  {
    forall j | 0 <= j < |children| && j != i ensures children[j].Nil? {
      assert j !in Occupied(ExpandLinks(children));
    }
    LinksLiveUpdate(x, children, i, Nil, 0);
    LinksLiveNone(x, children[i := Nil], 0);
  }

  lemma CollapseLive(x: Trie, db: set<Trie>, top: nat, children: seq<Link>, value: Bytes, depth: nat)
    requires |children| == 16 && forall i :: 0 <= i < 16 && ExpandLink(children[i]).Owned? ==> Shaped(ExpandLink(children[i]).node)
    requires forall i :: 0 <= i < 16 ==> LinkSound(db, top, children[i], depth)
    ensures BodyLive(x, CollapseBody(children, value)) + CollapseDels(children, value)[x] == LinksLive(x, children, 0)
  {
    var i := OnlyChild(ExpandLinks(children));
    if value == [] && i < 16 {
      OnlyLinkLive(x, children, i);
      LoadedLive(x, db, top, children[i], depth);
    } else if value != [] && Occupied(ExpandLinks(children)) == {} {
      forall j | 0 <= j < |children| ensures children[j].Nil? { assert j !in Occupied(ExpandLinks(children)); }
      LinksLiveNone(x, children, 0);
    }
  }

  lemma JoinLive(x: Trie, p: Path, l: Link)
    requires l.Held? && !l.node.committed
    ensures BodyLive(x, JoinBody(p, l)) == Live(x, l.node)
  {
  }

  /** The step of a deletion at a branch, from what it does to the child. */
  lemma DelBranchLive(x: Trie, db: set<Trie>, top: nat, n: Node, k: Path, depth: nat)
    requires Shaped(Expand(n)) && Sound(db, top, n, depth) && n.body.BranchBody? && Step(n, k).0.Held?
    requires Shaped(Expand(Step(n, k).0.node))
    requires
      var (l, rest) := Step(n, k);
      LinkLive(x, DelNode(l.node, rest)) + DelDels(l.node, rest)[x] == Live(x, l.node)
    ensures LinkLive(x, DelNode(n, k)) + DelDels(n, k)[x] == Live(x, n)
  {
    var (l, rest) := Step(n, k);
    var children, value := n.body.children, n.body.value;
    var d := DelNode(l.node, rest);
    LinksLiveUpdate(x, children, k[0], d, 0);
    LiveSplit(x, n);
    assert PathDels(n, k)[x] == Dropped(n)[x] + PathDels(l.node, rest)[x];
    if d.Nil? {
      GoneMergesNothing(l.node, rest);
      var links := children[k[0] := Nil];
      LinksShaped(n, links);
      CollapseLive(x, db, top, links, value, depth + 1);
      var b := CollapseBody(links, value);
      assert DelNode(n, k) == Held(Fresh(b));
      LiveSplit(x, Fresh(b));
      assert MergeDels(n, k) == CollapseDels(links, value);
    } else {
      var b := BranchBody(children[k[0] := d], value);
      assert DelNode(n, k) == Held(Fresh(b));
      LiveSplit(x, Fresh(b));
      assert MergeDels(n, k) == MergeDels(l.node, rest);
    }
  }

  lemma DelExtensionLive(x: Trie, n: Node, k: Path)
    requires Shaped(Expand(n)) && n.body.ExtensionBody? && Step(n, k).0.Held? && Shaped(Expand(Step(n, k).0.node))
    requires
      var (l, rest) := Step(n, k);
      LinkLive(x, DelNode(l.node, rest)) + DelDels(l.node, rest)[x] == Live(x, l.node)
    ensures LinkLive(x, DelNode(n, k)) + DelDels(n, k)[x] == Live(x, n)
  {
    var (l, rest) := Step(n, k);
    var d := DelNode(l.node, rest);
    LiveSplit(x, n);
    assert PathDels(n, k)[x] == Dropped(n)[x] + PathDels(l.node, rest)[x];
    assert MergeDels(n, k) == MergeDels(l.node, rest);
    if d.Held? {
      JoinLive(x, n.body.key, d);
      LiveSplit(x, Fresh(JoinBody(n.body.key, d)));
    }
  }

  lemma LinksShaped(n: Node, links: seq<Link>)
    requires Shaped(Expand(n)) && n.body.BranchBody? && |links| == 16
    requires forall i :: 0 <= i < 16 ==> links[i] == Nil || links[i] == n.body.children[i]
    ensures forall i :: 0 <= i < 16 && ExpandLink(links[i]).Owned? ==> Shaped(ExpandLink(links[i]).node)
  {
    forall i | 0 <= i < 16 && ExpandLink(links[i]).Owned? ensures Shaped(ExpandLink(links[i]).node) {
      assert Expand(n).children[i] == ExpandLink(n.body.children[i]);
    }
  }

  /** Deletion: the unchanged nodes of the path and the merged child go to the list, all others stay. */
  lemma {:induction false} DelLive(x: Trie, db: set<Trie>, top: nat, n: Node, k: Path, depth: nat)
    requires Shaped(Expand(n)) && Walked(n, k) && Matched(Expand(n), k) && Sound(db, top, n, depth)
    ensures LinkLive(x, DelNode(n, k)) + DelDels(n, k)[x] == Live(x, n)
    decreases n
  {
    var (l, rest) := Step(n, k);
    StepHeld(n, k);
    LiveSplit(x, n);
    if l.Held? {
      StepShaped(n, k);
      StepMatched(n, k);
      assert LinkSound(db, top, l, depth + 1);
      DelLive(x, db, top, l.node, rest, depth + 1);
      if n.body.BranchBody? {
        DelBranchLive(x, db, top, n, k, depth);
      } else {
        DelExtensionLive(x, n, k);
      }
    } else if n.body.BranchBody? {
      LinksShaped(n, n.body.children);
      CollapseLive(x, db, top, n.body.children, [], depth + 1);
      LiveSplit(x, Fresh(CollapseBody(n.body.children, [])));
    }
  }

  lemma StepMatched(n: Node, k: Path)
    requires Matched(Expand(n), k) && Step(n, k).0.Held?
    ensures Matched(Expand(Step(n, k).0.node), Step(n, k).1)
  {
    var l := Step(n, k).0;
    if n.body.BranchBody? {
      assert Expand(n).children[k[0]] == ExpandLink(l);
    } else {
      assert Expand(n) == Extension(n.body.key, Expand(l.node));
    }
  }
}
