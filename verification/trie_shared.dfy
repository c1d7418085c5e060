/** Why no node of a committed trie may occur twice: the store holds a node once however often the
    trie does, and deletes it as soon as one of its places changes. */
module TrieShared {
  import opened Basics
  import opened Nibbles
  import opened Tries
  import opened TrieUpdates
  import opened TrieStore
  import opened TrieCommit
  import opened TrieOps
  import opened TriePut
  import opened TrieDel
  import opened TrieLive
  import opened TrieSafety
  import opened TrieRun
  import opened TrieLayers
  import opened TrieLost

  /** A digest below the root of a changed branch is still there after the commit. */
  lemma DigestBehind(top: nat, n: Node, i: nat, t: Trie)
    requires !n.committed && n.body.BranchBody? && i < |n.body.children| && n.body.children[i] == Digest(t) && !Small(t)
    ensures Behind(t, Held(Prune(Seal(top, n, 0))))
  {
    SealedChildren(top, n, 0);
    assert Behind(t, Prune(Seal(top, n, 0)).body.children[i]);
  }

  // One layer in memory, and two keys with one value whose leaves read alike.

  const LEFT: Bytes := [0]
  const RIGHT: Bytes := [16]
  const ALIKE: Trie := Stub(7)

  lemma ShortPaths()
    ensures FromBytes(LEFT) == [0, 0] && FromBytes(RIGHT) == [1, 0]
  {
    assert LEFT[1..] == [] && RIGHT[1..] == [];
  }

  const BOTH: Node := Fresh(Two(1, Held(Twig([0], 7)), 0, Held(Twig([0], 7))))
  const SEALED: Node := Done(Two(1, Digest(ALIKE), 0, Digest(ALIKE)))

  const Z1: State := State(Held(Twig([0, 0], 7)), multiset{}, {}, Null)
  const Z2: State := Z1.(root := Held(BOTH))
  ghost const Z3: State := Committed(1, Z2)

  lemma RunStep(top: nat, ops: seq<Op>, s: State, op: Op)
    requires Run(top, ops) == Some(s) && Harmless(top, s, op)
    ensures CanonicalRoot(s) && Run(top, ops + [op]) == Some(Apply(top, s, op))
  {
    assert (ops + [op])[..|ops|] == ops;
  }

  lemma WriteBoth()
    ensures Run(1, [] + [Write(LEFT, Long(7))] + [Write(RIGHT, Long(7))]) == Some(Z2)
  {
    ShortPaths();
    RunStep(1, [], EMPTY, Write(LEFT, Long(7)));
    assert Apply(1, EMPTY, Write(LEFT, Long(7))) == Z1;
    RunStep(1, [] + [Write(LEFT, Long(7))], Z1, Write(RIGHT, Long(7)));
    LeafWrite(1, Z1, [0, 0], Long(7), [1, 0], Long(7));
    SplitAtOnce([1, 0], Long(7), [0, 0], Long(7));
    NewTwo(1, Leaf([0], Long(7)), 0, Leaf([0], Long(7)));
  }

  lemma BothSealed()
    ensures Z3.root == Held(SEALED) && Z3.dels == multiset{} && Z3.last == Owned(Expand(BOTH))
  {
    LeafIsLong([0], 7);
    TwoIsLong(BOTH, 1, Held(Twig([0], 7)), 0, Held(Twig([0], 7)));
    SealedChildren(1, BOTH, 0);
    var n := Prune(Seal(1, BOTH, 0));
    CutLinks(n.body.children);
    assert n == Done(n.body) && n.body.value == [];
  }

  lemma CutLinks(links: seq<Link>)
    requires |links| == 16 && forall m :: 0 <= m < 16 ==> links[m] == SealedLink(1, BOTH, BOTH.body.children[m], 1)
    ensures links == SEALED.body.children
  {
    LeafIsLong([0], 7);
    forall m | 0 <= m < 16 ensures links[m] == SEALED.body.children[m] {
      TwoAt(1, Held(Twig([0], 7)), 0, Held(Twig([0], 7)), m);
      TwoAt(1, Digest(ALIKE), 0, Digest(ALIKE), m);
    }
  }

  lemma CommitBoth()
    ensures Run(1, [] + [Write(LEFT, Long(7))] + [Write(RIGHT, Long(7))] + [Commit]) == Some(Z3)
  {
    WriteBoth();
    BothClear();
    CommitStep(1, [] + [Write(LEFT, Long(7))] + [Write(RIGHT, Long(7))], Z2);
  }

  /** A commit with nothing to delete and nothing listed. */
  lemma CommitStep(top: nat, ops: seq<Op>, s: State)
    requires Run(top, ops) == Some(s) && RootClear(top, s) && s.dels == multiset{}
    ensures Run(top, ops + [Commit]) == Some(Committed(top, s))
  {
    DeadSafe(top, s);
    RunStep(top, ops, s, Commit);
  }

  lemma BothClear()
    ensures RootClear(1, Z2) && Z2.dels == multiset{}
  {
    assert Clear(1, BOTH, 0);
  }

  const AFTER: Node := Fresh(Two(1, Digest(ALIKE), 0, Held(Twig([0], 8))))

  /** Writing one of the two keys puts the node that both stand on up for deletion. */
  lemma WriteLeft()
    requires CanonicalRoot(Z3)
    ensures
      var s := Apply(1, Z3, Write(LEFT, Long(8)));
      s.root == Held(AFTER) && ALIKE in s.dels && s.last == Z3.last
  {
    ShortPaths();
    BothSealed();
    LeftSearched();
    LeftPut();
    LeftFound();
    assert Long(7)[0] != Long(8)[0];
    SearchedInsert(Z3, SEALED, SEARCHED, [0, 0], Long(8), AFTER);
  }

  lemma SearchedInsert(s: State, n: Node, w: Node, k: Path, v: Bytes, n': Node)
    requires s.root == Held(n) && Walk(1, n, k, 0) == w && Find(Expand(w), k) != v && PutNode(1, w, k, v, 0) == n'
    ensures Inserted(1, s, k, v) == s.(root := Held(n'), dels := s.dels + PathDels(w, k))
  {
  }

  const SEARCHED: Node := Done(Two(1, Digest(ALIKE), 0, Held(Load(ALIKE)))).(listed := true)

  lemma LeftStep(n: Node, l: Link)
    requires n.body == Two(1, Digest(ALIKE), 0, l)
    ensures Step(n, [0, 0]) == (l, [0])
    ensures forall m :: WithStep(n, [0, 0], m).body == Two(1, Digest(ALIKE), 0, m)
  {
    assert [0, 0][1..] == [0];
    forall m ensures WithStep(n, [0, 0], m).body == Two(1, Digest(ALIKE), 0, m) {
      assert NO_LINKS[1 := Digest(ALIKE)][0 := l][0 := m] == NO_LINKS[1 := Digest(ALIKE)][0 := m];
    }
  }

  lemma LeftSearched()
    ensures Walk(1, SEALED, [0, 0], 0) == SEARCHED
  {
    LeftStep(SEALED, Digest(ALIKE));
    assert Walk(1, Load(ALIKE), [0], 1) == Load(ALIKE);
  }

  lemma LeftFound()
    ensures Find(Expand(SEARCHED), [0, 0]) == Long(7)
  {
    assert Expand(SEARCHED).children[0] == ExpandLink(SEARCHED.body.children[0]) == Owned(ALIKE);
    assert [0, 0][1..] == [0];
  }

  lemma LeftPut()
    ensures PutNode(1, SEARCHED, [0, 0], Long(8), 0) == AFTER && ALIKE in PathDels(SEARCHED, [0, 0])
  {
    LeftStep(SEARCHED, Held(Load(ALIKE)));
    assert PutNode(1, Load(ALIKE), [0], Long(8), 1) == Twig([0], 8);
    assert PathDels(Load(ALIKE), [0]) == multiset{ALIKE};
  }

  lemma AfterStores()
    ensures ALIKE !in Puts(1, AFTER, 0) && ALIKE !in Exiles(AFTER)
  {
    assert Long(7)[0] != Long(8)[0];
    var links := AFTER.body.children;
    forall m | 0 <= m < 16 ensures ALIKE !in LinkPuts(1, links[m], 1) && ALIKE !in LinkExiles(links[m]) {
      TwoAt(1, Digest(ALIKE), 0, Held(Twig([0], 8)), m);
    }
  }

  /** The committed trie holds the shared node twice. */
  lemma NotDistinct()
    ensures !Distinct(Owned(Expand(BOTH)))
  {
    var t := Expand(BOTH);
    LeafIsLong([0], 7);
    TwoIsLong(BOTH, 1, Held(Twig([0], 7)), 0, Held(Twig([0], 7)));
    ExpandTwo(BOTH, 1, Twig([0], 7), 0, Twig([0], 7));
    SubsNone(ALIKE, 0);
    SubsUpdate(ALIKE, NO_CHILDREN, 1, Owned(ALIKE), 0);
    SubsUpdate(ALIKE, NO_CHILDREN[1 := Owned(ALIKE)], 0, Owned(ALIKE), 0);
    assert Whole(ALIKE, Owned(t)) == 2;
  }

  ghost predicate Loses(top: nat, s: State) {
    RootClear(top, s) && !Distinct(s.last) && !Resolves(Committed(top, s).db, Committed(top, s).root)
  }

  /** The branch links the node by digest, will not store it, and has nothing listed. */
  ghost predicate Links(top: nat, n: Node, i: nat, t: Trie) {
    && !n.committed && n.body.BranchBody? && i < |n.body.children| && n.body.children[i] == Digest(t) && !Small(t)
    && t !in Puts(top, n, 0) && t !in Exiles(n) && Clear(top, n, 0)
  }

  lemma AfterLinks()
    ensures Links(1, AFTER, 1, ALIKE)
  {
    AfterStores();
    LeafIsLong([0], 7);
    TwoAt(1, Digest(ALIKE), 0, Held(Twig([0], 8)), 1);
    assert Clear(1, AFTER, 0);
  }

  lemma LinksLost(top: nat, s: State, n: Node, i: nat, t: Trie)
    requires Valid(top, s) && s.root == Held(n) && Links(top, n, i, t) && t in s.dels && !Distinct(s.last)
    ensures Loses(top, s)
  {
    DigestBehind(top, n, i, t);
    CommitSafeExactly(top, s);
  }

  lemma WriteAfter(ops: seq<Op>) returns (s: State)
    requires Run(1, ops) == Some(Z3)
    ensures Run(1, ops + [Write(LEFT, Long(8))]) == Some(s) && Loses(1, s)
  {
    RunStep(1, ops, Z3, Write(LEFT, Long(8)));
    WriteLeft();
    BothSealed();
    NotDistinct();
    AfterLinks();
    s := Apply(1, Z3, Write(LEFT, Long(8)));
    LinksLost(1, s, AFTER, 1, ALIKE);
  }

  /** Two keys, one value, and a new value for one of them: with nothing listed above the border,
      the commit still loses the node of the other key. */
  lemma SharedNodeLost() returns (ops: seq<Op>, s: State)
    ensures ops == [] + [Write(LEFT, Long(7))] + [Write(RIGHT, Long(7))] + [Commit] + [Write(LEFT, Long(8))]
    ensures Run(1, ops) == Some(s) && RootClear(1, s) && !Distinct(s.last)
    ensures !Resolves(Committed(1, s).db, Committed(1, s).root)
  {
    CommitBoth();
    var front := [] + [Write(LEFT, Long(7))] + [Write(RIGHT, Long(7))] + [Commit];
    s := WriteAfter(front);
    ops := front + [Write(LEFT, Long(8))];
  }

  /** Sharing alone does no harm: the trie with the shared node can be committed again. */
  lemma SharedNodeKept() returns (ops: seq<Op>, s: State)
    ensures ops == [] + [Write(LEFT, Long(7))] + [Write(RIGHT, Long(7))] + [Commit] + [Commit]
    ensures Run(1, ops) == Some(s) && !Distinct(s.last)
  {
    CommitBoth();
    var front := [] + [Write(LEFT, Long(7))] + [Write(RIGHT, Long(7))] + [Commit];
    s := CommitAgain(front);
    ops := front + [Commit];
  }

  lemma CommitAgain(ops: seq<Op>) returns (s: State)
    requires Run(1, ops) == Some(Z3)
    ensures Run(1, ops + [Commit]) == Some(s) && !Distinct(s.last)
  {
    BothSealed();
    NotDistinct();
    SealedClear();
    CommitStep(1, ops, Z3);
    CommitKeeps(1, Z3);
    s := Committed(1, Z3);
    assert s.last == ExpandLink(Z3.root) && Expand(SEALED) == Expand(BOTH);
  }

  lemma SealedClear()
    ensures Clear(1, SEALED, 0) && Expand(SEALED) == Expand(BOTH)
  {
    assert ExpandLinks(SEALED.body.children) == ExpandLinks(BOTH.body.children);
  }
}
