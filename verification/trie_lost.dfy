/** A run with three layers in memory in which a commit cuts off a node that it never stored. */
module TrieLost {
  import opened Basics
  import opened Nibbles
  import opened Tries
  import opened TrieUpdates
  import opened TrieStore
  import opened TrieCommit
  import opened TrieOps
  import opened TriePut
  import opened TrieDel
  import opened TrieLive
  import opened TrieSafety
  import opened TrieRun
  import opened TrieLayers

  /** A value too long to be written inside its parent. */
  function Long(b: Byte): (v: Bytes)
    ensures |v| == 33 && v[0] == b
  {
    [b] + seq(32, i => 0)
  }

  const A: Bytes := [0, 0]
  const B: Bytes := [0, 16]
  const C: Bytes := [0, 32]
  const D: Bytes := [1, 0]

  lemma Paths()
    ensures FromBytes(A) == [0, 0, 0, 0] && FromBytes(B) == [0, 0, 1, 0]
    ensures FromBytes(C) == [0, 0, 2, 0] && FromBytes(D) == [0, 1, 0, 0]
  {
    TwoBytes(0, 0);
    TwoBytes(0, 16);
    TwoBytes(0, 32);
    TwoBytes(1, 0);
  }

  lemma TwoBytes(a: Byte, b: Byte)
    ensures FromBytes([a, b]) == [Hi(a), Lo(a), Hi(b), Lo(b)]
  {
    assert [a, b][1..] == [b] && [b][1..] == [];
    assert FromBytes([b]) == [Hi(b), Lo(b)];
  }

  function Twig(rest: Path, b: Byte): Node {
    Fresh(LeafBody(rest, Long(b)))
  }

  /** A branch with two children. */
  function Two(i: Nibble, a: Link, j: Nibble, b: Link): Body {
    BranchBody(NO_LINKS[i := a][j := b], [])
  }

  // The first epoch: an extension over a branch over a branch.

  lemma NewTwo(i: Nibble, a: Trie, j: Nibble, b: Trie)
    ensures New(Branch(NO_CHILDREN[i := Owned(a)][j := Owned(b)], [])) == Fresh(Two(i, Held(New(a)), j, Held(New(b))))
  {
    assert NewLinks(NO_CHILDREN[i := Owned(a)][j := Owned(b)]) == NO_LINKS[i := Held(New(a))][j := Held(New(b))];
  }

  lemma SplitAtOnce(a: Path, va: Bytes, b: Path, vb: Bytes)
    requires a != [] && b != [] && a[0] != b[0]
    ensures SplitLeaf(b, vb, a, va) == Branch(NO_CHILDREN[a[0] := Owned(Leaf(a[1..], va))][b[0] := Owned(Leaf(b[1..], vb))], [])
  {
    assert a[0..] == a && b[0..] == b && a[..0] == [];
  }

  lemma SplitAfterOne(c: Nibble, a: Path, va: Bytes, b: Path, vb: Bytes)
    requires a != [] && b != [] && a[0] != b[0]
    ensures SplitLeaf([c] + b, vb, [c] + a, va)
         == Extension([c], Branch(NO_CHILDREN[a[0] := Owned(Leaf(a[1..], va))][b[0] := Owned(Leaf(b[1..], vb))], []))
  {
    var k, key := [c] + a, [c] + b;
    assert Common(k, key, 0) == Common(k, key, 1) == 1;
    assert k[1..] == a && key[1..] == b && k[..1] == [c];
  }

  function Stub(b: Byte): Trie { Leaf([0], Long(b)) }

  /** The extension over the upper branch, with the key beside and the lower branch below it. */
  function Tower(beside: Node, lower: Node): Body {
    ExtensionBody([0], Held(Fresh(Two(1, Held(beside), 0, Held(lower)))))
  }

  const LOWER: Node := Fresh(Two(1, Held(Twig([0], 2)), 0, Held(Twig([0], 1))))

  const S1: State := State(Held(Twig([0, 0, 0, 0], 1)), multiset{}, {}, Null)
  const S2: State := S1.(root := Held(Fresh(Tower(Twig([0, 0], 4), Twig([0, 0], 1)))))
  const S3: State := S1.(root := Held(Fresh(Tower(Twig([0, 0], 4), LOWER))))

  lemma FirstWrite()
    ensures Apply(3, EMPTY, Write(A, Long(1))) == S1
  {
    Paths();
  }

  lemma SecondWrite()
    ensures CanonicalRoot(S1) && Apply(3, S1, Write(D, Long(4))) == S2
  {
    Paths();
    var n, k := Twig([0, 0, 0, 0], 1), FromBytes(D);
    SplitAfterOne(0, [1, 0, 0], Long(4), [0, 0, 0], Long(1));
    var a, b := Leaf([0, 0], Long(4)), Leaf([0, 0], Long(1));
    NewTwo(1, a, 0, b);
    assert [0, 1, 0, 0] == [0] + [1, 0, 0] && [0, 0, 0, 0] == [0] + [0, 0, 0];
    assert New(a) == Twig([0, 0], 4) && New(b) == Twig([0, 0], 1);
    LeafWrite(3, S1, [0, 0, 0, 0], Long(1), k, Long(4));
  }

  /** A write that splits the only leaf. */
  lemma LeafWrite(top: nat, s: State, key: Path, value: Bytes, k: Path, v: Bytes)
    requires s.root == Held(Fresh(LeafBody(key, value))) && key != k
    ensures Inserted(top, s, k, v) == s.(root := Held(New(SplitLeaf(key, value, k, v))))
  {
    var n := s.root.node;
    assert Walk(top, n, k, 0) == n;
    assert PathDels(n, k) == multiset{};
    assert s.dels + multiset{} == s.dels;
  }

  /** A tower, whatever its bookkeeping. */
  ghost predicate IsTower(n: Node, upper: Node, beside: Node, lower: Node) {
    n.body == ExtensionBody([0], Held(upper)) && upper.body == Two(1, Held(beside), 0, Held(lower))
  }

  function Reached(beside: Node, lower: Node, k: Path): Node
    requires |k| >= 2
  {
    if k[1] == 0 then lower else beside
  }

  function Replaced(beside: Node, lower: Node, k: Path, x: Node): Body
    requires |k| >= 2
  {
    if k[1] == 0 then Tower(beside, x) else Tower(x, lower)
  }

  ghost predicate DownPath(k: Path) {
    |k| >= 2 && k[0] == 0 && k[1] <= 1
  }

  /** The search down the tower. */
  lemma TowerSteps(n: Node, upper: Node, beside: Node, lower: Node, k: Path)
    requires IsTower(n, upper, beside, lower) && DownPath(k)
    ensures Step(n, k) == (Held(upper), k[1..])
    ensures Step(upper, k[1..]) == (Held(Reached(beside, lower, k)), k[2..])
  {
    assert [0] <= k && k[1..][1..] == k[2..];
  }

  /** Replacing what the search reached. */
  lemma TowerWith(n: Node, upper: Node, beside: Node, lower: Node, k: Path, x: Node)
    requires IsTower(n, upper, beside, lower) && DownPath(k)
    ensures
      var upper' := WithStep(upper, k[1..], Held(x));
      && WithStep(n, k, Held(Fresh(upper'.body))).body == Replaced(beside, lower, k, x)
      && (x == Reached(beside, lower, k) ==> upper' == upper && WithStep(n, k, Held(upper)) == n)
  {
    var links := NO_LINKS[1 := Held(beside)][0 := Held(lower)];
    assert links[0 := Held(x)] == NO_LINKS[1 := Held(beside)][0 := Held(x)];
    assert links[1 := Held(x)] == NO_LINKS[1 := Held(x)][0 := Held(lower)];
  }

  lemma WalkHeld(top: nat, n: Node, k: Path, depth: nat, child: Node, rest: Path)
    requires Step(n, k) == (Held(child), rest)
    ensures Walk(top, n, k, depth) == WithStep(n, k, Held(Walk(top, child, rest, depth + 1)))
  {
  }

  /** A search that loads nothing changes nothing. */
  lemma TowerStill(n: Node, upper: Node, beside: Node, lower: Node, k: Path)
    requires IsTower(n, upper, beside, lower) && DownPath(k)
    requires Walk(3, Reached(beside, lower, k), k[2..], 2) == Reached(beside, lower, k)
    ensures Walk(3, n, k, 0) == n
  {
    var x := Reached(beside, lower, k);
    TowerSteps(n, upper, beside, lower, k);
    TowerWith(n, upper, beside, lower, k, x);
    WalkHeld(3, upper, k[1..], 1, x, k[2..]);
    WalkHeld(3, n, k, 0, upper, k[1..]);
  }

  /** A search in a tower that is new. */
  lemma TowerWalk(beside: Node, lower: Node, k: Path)
    requires DownPath(k)
    ensures
      var x' := Walk(3, Reached(beside, lower, k), k[2..], 2);
      Walk(3, Fresh(Tower(beside, lower)), k, 0) == Fresh(Replaced(beside, lower, k, x'))
  {
    var n := Fresh(Tower(beside, lower));
    var upper, x := n.body.child.node, Reached(beside, lower, k);
    var x' := Walk(3, x, k[2..], 2);
    TowerSteps(n, upper, beside, lower, k);
    TowerWith(n, upper, beside, lower, k, x');
    WalkHeld(3, upper, k[1..], 1, x, k[2..]);
    WalkHeld(3, n, k, 0, upper, k[1..]);
    assert WithStep(upper, k[1..], Held(x')) == Fresh(WithStep(upper, k[1..], Held(x')).body);
  }

  lemma TowerPut(n: Node, upper: Node, beside: Node, lower: Node, k: Path, v: Bytes)
    requires IsTower(n, upper, beside, lower) && DownPath(k)
    ensures PutNode(3, n, k, v, 0) == Fresh(Replaced(beside, lower, k, PutNode(3, Reached(beside, lower, k), k[2..], v, 2)))
  {
    TowerSteps(n, upper, beside, lower, k);
    TowerWith(n, upper, beside, lower, k, PutNode(3, Reached(beside, lower, k), k[2..], v, 2));
  }

  /** What is matched below the tower is matched by what is reached there. */
  lemma TowerMatched(n: Node, upper: Node, beside: Node, lower: Node, k: Path)
    requires IsTower(n, upper, beside, lower) && DownPath(k)
    ensures Matched(Expand(n), k) == Matched(Expand(Reached(beside, lower, k)), k[2..])
  {
    assert Expand(n) == Extension([0], Expand(upper));
    assert Expand(upper).children[k[1]] == Owned(Expand(Reached(beside, lower, k)));
    assert [0] <= k && k[1..][1..] == k[2..] && k[1..][0] == k[1];
  }

  lemma ThirdWrite()
    ensures CanonicalRoot(S2) ==> Apply(3, S2, Write(B, Long(2))) == S3
  {
    Paths();
    var k := FromBytes(B);
    var beside, leaf := Twig([0, 0], 4), Twig([0, 0], 1);
    var n := S2.root.node;
    var upper := n.body.child.node;
    assert k[2..] == [1, 0] && Walk(3, leaf, [1, 0], 2) == leaf;
    TowerStill(n, upper, beside, leaf, k);
    TowerPut(n, upper, beside, leaf, k, Long(2));
    SplitAtOnce([1, 0], Long(2), [0, 0], Long(1));
    NewTwo(1, Leaf([0], Long(2)), 0, Leaf([0], Long(1)));
    assert PutNode(3, leaf, [1, 0], Long(2), 2) == LOWER;
    TowerMatched(n, upper, beside, leaf, k);
    FreshPath(n, upper, beside, leaf, k);
    assert PathDels(leaf, [1, 0]) == multiset{};
  }

  lemma FreshPath(n: Node, upper: Node, beside: Node, lower: Node, k: Path)
    requires IsTower(n, upper, beside, lower) && DownPath(k) && !n.committed && !upper.committed
    ensures PathDels(n, k) == PathDels(Reached(beside, lower, k), k[2..])
  {
    TowerSteps(n, upper, beside, lower, k);
  }

  // The first commit: the lower branch is cut off from its two leaves.

  function Done(b: Body): Node {
    Node(b, true, false, false, false)
  }

  lemma LeafIsLong(rest: Path, b: Byte)
    ensures !Small(Leaf(rest, Long(b)))
  {
  }

  const CUT: Node := Done(Two(1, Digest(Stub(2)), 0, Digest(Stub(1))))
  const UPPER: Node := Done(Two(1, Held(Done(LeafBody([0, 0], Long(4)))), 0, Held(CUT)))
  const N4: Node := Done(ExtensionBody([0], Held(UPPER)))

  lemma SealLeaf(rest: Path, b: Byte, depth: nat)
    requires depth > 0
    ensures Seal(3, Twig(rest, b), depth) == Node(LeafBody(rest, Long(b)), true, false, false, depth >= 3)
  {
    LeafIsLong(rest, b);
  }

  /** A node above a long one is long. */
  lemma TwoIsLong(n: Node, i: Nibble, a: Link, j: Nibble, b: Link)
    requires n.body == Two(i, a, j, b) && ExpandLink(b).Owned? && !Small(ExpandLink(b).node)
    ensures !Small(Expand(n))
  {
    assert Expand(n).children[j] == ExpandLink(b);
    if Small(Expand(n)) { SmallChildren(Expand(n)); }
  }

  lemma SealFlags(n: Node, depth: nat)
    requires n == Fresh(n.body) && !Small(Expand(n)) && depth < 3
    ensures Prune(Seal(3, n, depth)) == Done(Prune(Seal(3, n, depth)).body)
  {
  }

  lemma SealTwo(n: Node, i: Nibble, a: Link, j: Nibble, b: Link, depth: nat)
    requires n == Fresh(Two(i, a, j, b)) && ExpandLink(b).Owned? && !Small(ExpandLink(b).node) && 0 < depth < 3
    ensures Prune(Seal(3, n, depth)) == Done(Two(i, SealedLink(3, n, a, depth + 1), j, SealedLink(3, n, b, depth + 1)))
  {
    TwoIsLong(n, i, a, j, b);
    SealFlags(n, depth);
    SealedChildren(3, n, depth);
    var body := Prune(Seal(3, n, depth)).body;
    SealTwoLinks(n, i, a, j, b, depth, body.children);
    assert body.value == [];
  }

  lemma TwoAt(i: Nibble, a: Link, j: Nibble, b: Link, m: nat)
    requires m < 16
    ensures Two(i, a, j, b).children[m] == if m == j then b else if m == i then a else Nil
  {
  }

  lemma SealTwoLinks(n: Node, i: Nibble, a: Link, j: Nibble, b: Link, depth: nat, links: seq<Link>)
    requires n.body == Two(i, a, j, b) && |links| == 16
    requires forall m :: 0 <= m < 16 ==> links[m] == SealedLink(3, n, n.body.children[m], depth + 1)
    ensures links == Two(i, SealedLink(3, n, a, depth + 1), j, SealedLink(3, n, b, depth + 1)).children
  {
    var x, y := SealedLink(3, n, a, depth + 1), SealedLink(3, n, b, depth + 1);
    forall m | 0 <= m < 16 ensures links[m] == Two(i, x, j, y).children[m] {
      TwoAt(i, a, j, b, m);
      TwoAt(i, x, j, y, m);
    }
  }

  lemma LowerSealed()
    ensures Prune(Seal(3, LOWER, 2)) == CUT && !Small(Expand(LOWER))
  {
    LeafIsLong([0], 1);
    LeafIsLong([0], 2);
    SealTwo(LOWER, 1, Held(Twig([0], 2)), 0, Held(Twig([0], 1)), 2);
    TwoIsLong(LOWER, 1, Held(Twig([0], 2)), 0, Held(Twig([0], 1)));
  }

  lemma UpperSealed(upper: Node, lower: Node, cut: Node)
    requires upper == Fresh(Two(1, Held(Twig([0, 0], 4)), 0, Held(lower)))
    requires Prune(Seal(3, lower, 2)) == cut && !Small(Expand(lower))
    ensures Prune(Seal(3, upper, 1)) == Done(Two(1, Held(Done(LeafBody([0, 0], Long(4)))), 0, Held(cut)))
  {
    SealTwo(upper, 1, Held(Twig([0, 0], 4)), 0, Held(lower), 1);
    SealLeaf([0, 0], 4, 2);
    assert Prune(Seal(3, Twig([0, 0], 4), 2)) == Done(LeafBody([0, 0], Long(4)));
  }

  lemma RootSealed(key: Path, upper: Node, cut: Node)
    requires Prune(Seal(3, upper, 1)) == cut
    ensures Prune(Seal(3, Fresh(ExtensionBody(key, Held(upper))), 0)) == Done(ExtensionBody(key, Held(cut)))
  {
    var n := Fresh(ExtensionBody(key, Held(upper)));
    var sealed := ExtensionBody(key, Held(Seal(3, upper, 1)));
    assert SealBody(3, n.body, 0) == sealed;
    assert PruneBody(sealed) == ExtensionBody(key, Held(cut));
  }

  lemma FirstCommitRoot()
    ensures Prune(Seal(3, S3.root.node, 0)) == N4
  {
    var upper := S3.root.node.body.child.node;
    LowerSealed();
    UpperSealed(upper, LOWER, CUT);
    RootSealed([0], upper, UPPER);
  }

  lemma TwoPuts(i: Nibble, a: Link, j: Nibble, b: Link, depth: nat, t: Trie)
    requires t !in LinkPuts(3, a, depth) && t !in LinkPuts(3, b, depth)
    ensures t !in LinksPuts(3, NO_LINKS[i := a][j := b], depth)
  {
    var links := NO_LINKS[i := a][j := b];
    forall m | 0 <= m < 16 ensures t !in LinkPuts(3, links[m], depth) { assert links[m] in {Nil, a, b}; }
  }

  lemma TwoExiles(n: Node, i: Nibble, a: Link, j: Nibble, b: Link, t: Trie)
    requires n.body == Two(i, a, j, b) && !n.exiled && t !in LinkExiles(a) && t !in LinkExiles(b)
    ensures t !in Exiles(n)
  {
    var links := n.body.children;
    forall m | 0 <= m < 16 ensures t !in LinkExiles(links[m]) { assert links[m] in {Nil, a, b}; }
  }

  lemma LowerStore(t: Trie)
    requires t == Stub(3)
    ensures t !in Puts(3, LOWER, 2) && t !in Exiles(LOWER)
  {
    var a, b := Twig([0], 2), Twig([0], 1);
    assert Long(2)[0] == 2 && Long(1)[0] == 1 && Long(3)[0] == 3;
    TwoPuts(1, Held(a), 0, Held(b), 3, t);
    TwoExiles(LOWER, 1, Held(a), 0, Held(b), t);
    assert Expand(LOWER).Branch?;
  }

  /** The first commit does not store the leaf that comes later. */
  lemma FirstCommitStore()
    ensures Stub(3) !in CommitStore({}, multiset{}, 3, S3.root.node)
  {
    var n, t := S3.root.node, Stub(3);
    var upper, beside := n.body.child.node, Twig([0, 0], 4);
    LowerStore(t);
    assert Expand(upper).Branch?;
    TwoPuts(1, Held(beside), 0, Held(LOWER), 2, t);
    TwoExiles(upper, 1, Held(beside), 0, Held(LOWER), t);
    assert t !in Puts(3, upper, 1);
  }

  // The second epoch.

  const BESIDE: Node := Done(LeafBody([0, 0], Long(4)))
  const GROWN: Node := Fresh(BranchBody(CUT.body.children[2 := Held(Twig([0], 3))], []))
  const LISTED: Node :=
    Node(BranchBody(GROWN.body.children[0 := Held(Load(Stub(1)))], []), false, true, false, false)

  ghost const S4: State := Committed(3, S3)
  ghost const S5: State := S4.(root := Held(Fresh(Tower(BESIDE, GROWN))), dels := PathDels(N4, [0, 0, 2, 0]))
  ghost const S6: State := S5.(root := Held(Fresh(Tower(BESIDE, LISTED))))

  /** A write whose search stays in memory and ends off every key. */
  lemma InsertedAt(s: State, n: Node, k: Path, v: Bytes)
    requires s.root == Held(n) && Walk(3, n, k, 0) == n && !Matched(Expand(n), k)
    ensures Inserted(3, s, k, v) == s.(root := Held(PutNode(3, n, k, v, 0)), dels := s.dels + PathDels(n, k))
  {
  }

  lemma CutHasRoom()
    ensures Step(CUT, [2, 0]) == (Nil, [0]) && !Matched(Expand(CUT), [2, 0])
    ensures Fresh(PutHere(3, CUT, [2, 0], Long(3), 2)) == GROWN
  {
    assert [2, 0][1..] == [0];
    assert CUT.body.children[2] == Nil;
    assert Expand(CUT).children[2] == ExpandLink(CUT.body.children[2]);
  }

  lemma StopsHere(n: Node, k: Path, v: Bytes, depth: nat)
    requires Step(n, k).0.Nil?
    ensures Walk(3, n, k, depth) == n && PutNode(3, n, k, v, depth) == Fresh(PutHere(3, n, k, v, depth))
  {
  }

  /** A write that ends on the lower branch. */
  lemma TowerInsert(s: State, n: Node, upper: Node, beside: Node, lower: Node, k: Path, v: Bytes)
    requires s.root == Held(n) && IsTower(n, upper, beside, lower) && DownPath(k) && k[1] == 0
    requires Step(lower, k[2..]).0.Nil? && !Matched(Expand(lower), k[2..])
    ensures Inserted(3, s, k, v)
         == s.(root := Held(Fresh(Tower(beside, Fresh(PutHere(3, lower, k[2..], v, 2))))), dels := s.dels + PathDels(n, k))
  {
    StopsHere(lower, k[2..], v, 2);
    TowerStill(n, upper, beside, lower, k);
    TowerMatched(n, upper, beside, lower, k);
    InsertedAt(s, n, k, v);
    TowerPut(n, upper, beside, lower, k, v);
  }

  lemma AfterCommit()
    ensures S4.root == Held(N4) && S4.dels == multiset{} && IsTower(N4, UPPER, BESIDE, CUT)
  {
    FirstCommitRoot();
  }

  lemma FourthWrite()
    ensures CanonicalRoot(S4) ==> Apply(3, S4, Write(C, Long(3))) == S5
  {
    Paths();
    AfterCommit();
    CutHasRoom();
    LowerWrite(S4, N4, UPPER, BESIDE, CUT, FromBytes(C), Long(3), GROWN);
  }

  lemma LowerWrite(s: State, n: Node, upper: Node, beside: Node, lower: Node, k: Path, v: Bytes, lower': Node)
    requires s.root == Held(n) && s.dels == multiset{} && IsTower(n, upper, beside, lower) && k == [0, 0, 2, 0]
    requires Step(lower, [2, 0]).0.Nil? && !Matched(Expand(lower), [2, 0])
    requires Fresh(PutHere(3, lower, [2, 0], v, 2)) == lower'
    ensures Inserted(3, s, k, v) == s.(root := Held(Fresh(Tower(beside, lower'))), dels := PathDels(n, k))
  {
    assert k[2..] == [2, 0];
    TowerInsert(s, n, upper, beside, lower, k, v);
    assert multiset{} + PathDels(n, k) == PathDels(n, k);
  }

  /** The read loads a leaf below the lower branch, which is listed for it. */
  lemma TheRead()
    ensures CanonicalRoot(S5) ==> Apply(3, S5, Read(A)) == S6
  {
    Paths();
    var k := FromBytes(A);
    assert k[2..] == [0, 0] && [0, 0][1..] == [0];
    TowerWalk(BESIDE, GROWN, k);
    assert Step(GROWN, [0, 0]) == (Digest(Stub(1)), [0]);
    assert Walk(3, Load(Stub(1)), [0], 3) == Load(Stub(1));
    assert Walk(3, GROWN, [0, 0], 2) == LISTED;
  }

  /** A delete whose search stays in memory and finds the key. */
  lemma DeletedAt(s: State, n: Node, k: Path)
    requires s.root == Held(n) && Walk(3, n, k, 0) == n && Matched(Expand(n), k) && Shaped(Expand(n))
    ensures Deleted(3, s, k) == s.(root := DelNode(n, k), dels := s.dels + DelDels(n, k))
  {
  }

  lemma OnlyLower(lower: Node)
    requires lower.body.BranchBody?
    ensures CollapseBody(NO_LINKS[0 := Held(lower)], []) == ExtensionBody([0], Held(lower))
  {
    var links := NO_LINKS[0 := Held(lower)];
    assert Occupied(ExpandLinks(links)) == {0} by {
      forall i | 0 <= i < 16 ensures i in Occupied(ExpandLinks(links)) <==> i == 0 {
        assert ExpandLinks(links)[i] == ExpandLink(links[i]);
      }
    }
  }

  /** Deleting the leaf beside merges the upper branch away; the lower branch moves up as it is. */
  lemma TowerDelete(n: Node, upper: Node, beside: Node, lower: Node, k: Path)
    requires IsTower(n, upper, beside, lower) && DownPath(k) && k[1] == 1 && Shaped(Expand(n))
    requires beside.body.LeafBody? && lower.body.BranchBody?
    ensures DelNode(n, k) == Held(Fresh(ExtensionBody([0, 0], Held(lower))))
  {
    TowerSteps(n, upper, beside, lower, k);
    StepShaped(n, k);
    StepShaped(upper, k[1..]);
    var links := upper.body.children[1 := Nil];
    assert links == NO_LINKS[0 := Held(lower)];
    OnlyLower(lower);
    assert DelNode(beside, k[2..]) == Nil;
    assert DelNode(upper, k[1..]) == Held(Fresh(ExtensionBody([0], Held(lower))));
    assert [0] + [0] == [0, 0];
  }

  /** A delete of the leaf beside. */
  lemma TowerRemove(s: State, n: Node, upper: Node, beside: Node, lower: Node, k: Path)
    requires s.root == Held(n) && IsTower(n, upper, beside, lower) && DownPath(k) && k[1] == 1 && Shaped(Expand(n))
    requires beside.body.LeafBody? && beside.body.key == k[2..] && lower.body.BranchBody?
    ensures
      var s' := Deleted(3, s, k);
      s'.root == Held(Fresh(ExtensionBody([0, 0], Held(lower)))) && s'.db == s.db && s'.last == s.last
  {
    StopsHere(beside, k[2..], [], 2);
    TowerStill(n, upper, beside, lower, k);
    TowerMatched(n, upper, beside, lower, k);
    TowerDelete(n, upper, beside, lower, k);
    DeletedAt(s, n, k);
  }

  lemma RemoveBeside(s: State, beside: Node, lower: Node)
    requires s.root == Held(Fresh(Tower(beside, lower))) && CanonicalRoot(s)
    requires beside.body.LeafBody? && beside.body.key == [0, 0] && lower.body.BranchBody?
    ensures
      var s' := Apply(3, s, Write(D, []));
      s'.root == Held(Fresh(ExtensionBody([0, 0], Held(lower)))) && s'.db == s.db && s'.last == s.last
  {
    Paths();
    var k := FromBytes(D);
    assert k[2..] == [0, 0];
    TowerRemove(s, s.root.node, s.root.node.body.child.node, beside, lower, k);
  }

  lemma TheDelete()
    requires CanonicalRoot(S6)
    ensures
      var s := Apply(3, S6, Write(D, []));
      s.root == Held(Fresh(ExtensionBody([0, 0], Held(LISTED)))) && s.db == S4.db && s.last == S4.last
  {
    RemoveBeside(S6, BESIDE, LISTED);
  }

  /** Children in memory above the border, and unchanged ones, are not written. */
  lemma NotWritten(lower: Node, t: Trie)
    requires lower.body.BranchBody? && !lower.exiled
    requires forall l :: l in lower.body.children && l.Held? ==> !l.node.exiled && l.node.body.LeafBody?
    ensures t !in Puts(3, lower, 1) && t !in Exiles(lower)
  {
    var links := lower.body.children;
    forall m | 0 <= m < |links| ensures t !in LinkPuts(3, links[m], 2) && t !in LinkExiles(links[m]) {
      assert links[m] in lower.body.children;
    }
  }

  lemma CutLink(lower: Node, c: Node)
    requires lower.listed && !Small(Expand(c))
    ensures SealedLink(3, lower, Held(c), 2) == Digest(Expand(c))
  {
  }

  lemma Unresolved(db: set<Trie>, n: Node, lower: Node, t: Trie)
    requires n.body == ExtensionBody([0, 0], Held(lower)) && t !in db && !Small(t)
    requires lower.body.BranchBody? && |lower.body.children| == 16 && lower.body.children[2] == Digest(t)
    ensures !Resolves(db, Held(n))
  {
    assert !Resolves(db, lower.body.children[2]);
    assert !Resolves(db, Held(lower));
  }

  /** A listed branch above the border is cut off from a new leaf that was never written. */
  lemma CutUnwritten(s: State, lower: Node, c: Node)
    requires s.root == Held(Fresh(ExtensionBody([0, 0], Held(lower)))) && Expand(c) !in s.db
    requires lower.body.BranchBody? && |lower.body.children| == 16 && lower.listed && !lower.committed && !lower.exiled
    requires lower.body.children[2] == Held(c) && !Small(Expand(c))
    requires forall l :: l in lower.body.children && l.Held? ==> !l.node.exiled && l.node.body.LeafBody?
    ensures !Resolves(Committed(3, s).db, Committed(3, s).root)
  {
    var n, t, s' := s.root.node, Expand(c), Committed(3, s);
    NotWritten(lower, t);
    assert t !in Puts(3, n, 0) && t !in Exiles(n);
    SealedChildren(3, lower, 1);
    CutLink(lower, c);
    RootSealed([0, 0], lower, Prune(Seal(3, lower, 1)));
    Unresolved(s'.db, s'.root.node, Prune(Seal(3, lower, 1)), t);
  }

  ghost predicate Leads(s: State, op: Op, s': State) {
    Harmless(3, s, op) && (CanonicalRoot(s) ==> Apply(3, s, op) == s')
  }

  /** A chain of states is a run. */
  ghost predicate IsChain(ops: seq<Op>, s: seq<State>) {
    |s| == |ops| + 1 && s[0] == EMPTY && forall j :: 0 <= j < |ops| ==> Leads(s[j], ops[j], s[j + 1])
  }

  lemma Extend(ops: seq<Op>, s: seq<State>, op: Op, s': State)
    requires IsChain(ops, s) && Leads(s[|ops|], op, s')
    ensures IsChain(ops + [op], s + [s'])
  {
    var ops', t := ops + [op], s + [s'];
    forall j | 0 <= j < |ops'| ensures Leads(t[j], ops'[j], t[j + 1]) {
      if j < |ops| { assert Leads(s[j], ops[j], s[j + 1]); }
    }
  }

  lemma {:induction false} ChainRuns(ops: seq<Op>, s: seq<State>, i: nat)
    requires IsChain(ops, s) && i <= |ops|
    ensures Run(3, ops[..i]) == Some(s[i])
  {
    if i > 0 {
      ChainRuns(ops, s, i - 1);
      assert ops[..i][..i - 1] == ops[..i - 1];
      assert Leads(s[i - 1], ops[i - 1], s[i - 1 + 1]);
    }
  }

  lemma FirstCommitClear()
    ensures RootClear(3, S3) && S3.dels == multiset{}
  {
    var n := S3.root.node;
    LowerDeep();
    assert Deep(3, Held(n.body.child.node), 1);
    assert Deep(3, Held(n), 0);
    DeepClear(3, n, 0);
  }

  lemma LowerDeep()
    ensures Deep(3, Held(LOWER), 2)
  {
  }

  /** The operations lead to the state. */
  ghost predicate Reaches(ops: seq<Op>, end: State) {
    exists s: seq<State> :: IsChain(ops, s) && s[|ops|] == end
  }

  lemma Onward(ops: seq<Op>, end: State, op: Op, end': State)
    requires Reaches(ops, end) && Leads(end, op, end')
    ensures Reaches(ops + [op], end')
  {
    var s :| IsChain(ops, s) && s[|ops|] == end;
    Extend(ops, s, op, end');
    assert (s + [end'])[|ops + [op]|] == end';
  }

  lemma ReachesValid(ops: seq<Op>, end: State)
    requires Reaches(ops, end)
    ensures Valid(3, end)
  {
    var s :| IsChain(ops, s) && s[|ops|] == end;
    ChainRuns(ops, s, |ops|);
  }

  lemma CommitOnward(ops: seq<Op>, s: State)
    requires Reaches(ops, s) && RootClear(3, s) && s.dels == multiset{}
    ensures Reaches(ops + [Commit], Committed(3, s))
  {
    ReachesValid(ops, s);
    DeadSafe(3, s);
    Onward(ops, s, Commit, Committed(3, s));
  }

  lemma Start()
    ensures Reaches([], EMPTY)
  {
    assert IsChain([], [EMPTY]);
  }

  lemma ReachEnds(ops: seq<Op>, end: State, op: Op)
    requires Reaches(ops, end) && !op.Commit?
    ensures CanonicalRoot(end) && Run(3, ops + [op]) == Some(Apply(3, end, op))
  {
    var s :| IsChain(ops, s) && s[|ops|] == end;
    ChainRuns(ops, s, |ops|);
    assert ops[..|ops|] == ops && (ops + [op])[..|ops|] == ops;
  }

  lemma FirstEpoch(ops: seq<Op>)
    requires Reaches(ops, EMPTY)
    ensures Reaches(ops + [Write(A, Long(1))] + [Write(D, Long(4))] + [Write(B, Long(2))], S3)
  {
    FirstWrite();
    Onward(ops, EMPTY, Write(A, Long(1)), S1);
    SecondWrite();
    Onward(ops + [Write(A, Long(1))], S1, Write(D, Long(4)), S2);
    ThirdWrite();
    Onward(ops + [Write(A, Long(1))] + [Write(D, Long(4))], S2, Write(B, Long(2)), S3);
  }

  lemma FirstCommit(ops: seq<Op>)
    requires Reaches(ops, S3)
    ensures Reaches(ops + [Commit], S4)
  {
    FirstCommitClear();
    CommitOnward(ops, S3);
  }

  lemma SecondEpoch(ops: seq<Op>)
    requires Reaches(ops, S4)
    ensures Reaches(ops + [Write(C, Long(3))] + [Read(A)], S6)
  {
    FourthWrite();
    Onward(ops, S4, Write(C, Long(3)), S5);
    TheRead();
    Onward(ops + [Write(C, Long(3))], S5, Read(A), S6);
  }

  lemma LosesNext()
    requires CanonicalRoot(S6)
    ensures
      var s := Committed(3, Apply(3, S6, Write(D, [])));
      !Resolves(s.db, s.root)
    ensures Apply(3, S6, Write(D, [])).last == S4.last
  {
    TheDelete();
    FirstCommitStore();
    LeafIsLong([0], 3);
    ListedShape();
    CutUnwritten(Apply(3, S6, Write(D, [])), LISTED, Twig([0], 3));
  }

  // Nothing in the committed trie occurs twice, so the cut alone is at fault.

  lemma {:induction false} SubsUpdate(x: Trie, children: seq<Child>, i: nat, c: Child, from: nat)
    requires from <= i < |children|
    ensures ChildrenSubs(x, children[i := c], from) + ChildSubs(x, children[i]) == ChildrenSubs(x, children, from) + ChildSubs(x, c)
    decreases i - from
  {
    if from < i { SubsUpdate(x, children, i, c, from + 1); } else { SubsSame(x, children, children[i := c], i + 1); }
  }

  lemma {:induction false} SubsSame(x: Trie, a: seq<Child>, b: seq<Child>, from: nat)
    requires |a| == |b| && from <= |a| && forall i :: from <= i < |a| ==> a[i] == b[i]
    ensures ChildrenSubs(x, a, from) == ChildrenSubs(x, b, from)
    decreases |a| - from
  {
    if from < |a| { SubsSame(x, a, b, from + 1); }
  }

  lemma {:induction false} SubsNone(x: Trie, from: nat)
    requires from <= 16
    ensures ChildrenSubs(x, NO_CHILDREN, from) == 0
    decreases 16 - from
  {
    if from < 16 { SubsNone(x, from + 1); }
  }

  lemma TwoSubs(x: Trie, t: Trie, i: Nibble, a: Trie, j: Nibble, b: Trie)
    requires t == Branch(NO_CHILDREN[i := Owned(a)][j := Owned(b)], []) && i != j
    ensures Subs(x, t) <= (if x == t then 1 else 0) + Subs(x, a) + Subs(x, b)
  {
    SubsNone(x, 0);
    SubsUpdate(x, NO_CHILDREN, i, Owned(a), 0);
    SubsUpdate(x, NO_CHILDREN[i := Owned(a)], j, Owned(b), 0);
  }

  lemma ExpandTwo(n: Node, i: Nibble, a: Node, j: Nibble, b: Node)
    requires n.body == Two(i, Held(a), j, Held(b)) && i != j
    ensures Expand(n) == Branch(NO_CHILDREN[i := Owned(Expand(a))][j := Owned(Expand(b))], [])
  {
    assert ExpandLinks(n.body.children) == NO_CHILDREN[i := Owned(Expand(a))][j := Owned(Expand(b))];
  }

  lemma LastIsDistinct()
    ensures Distinct(S4.last)
  {
    var upper, beside := S3.root.node.body.child.node, Twig([0, 0], 4);
    var a, b := Twig([0], 2), Twig([0], 1);
    ExpandTwo(LOWER, 1, a, 0, b);
    ExpandTwo(upper, 1, beside, 0, LOWER);
    var t := Expand(S3.root.node);
    assert t == Extension([0], Expand(upper)) && S4.last == Owned(t);
    assert Expand(a) != Expand(b) by { assert Long(1)[0] != Long(2)[0]; }
    TowerDistinct(t, Expand(upper), Expand(beside), Expand(LOWER), Expand(a), Expand(b));
  }

  lemma TowerDistinct(t: Trie, upper: Trie, beside: Trie, lower: Trie, a: Trie, b: Trie)
    requires t == Extension([0], upper) && beside.Leaf? && a.Leaf? && b.Leaf?
    requires upper == Branch(NO_CHILDREN[1 := Owned(beside)][0 := Owned(lower)], [])
    requires lower == Branch(NO_CHILDREN[1 := Owned(a)][0 := Owned(b)], [])
    requires a != b && beside != a && beside != b
    ensures Distinct(Owned(t))
  {
    assert upper.children[1] != lower.children[1];
    forall x ensures Whole(x, Owned(t)) <= 1 {
      LeafSubs(x, a);
      LeafSubs(x, b);
      LeafSubs(x, beside);
      TwoSubs(x, lower, 1, a, 0, b);
      TwoSubs(x, upper, 1, beside, 0, lower);
      Tally(x, t, upper, beside, lower, a, b, Subs(x, upper), Subs(x, beside), Subs(x, lower), Subs(x, a), Subs(x, b));
      ExtensionSubs(x, t);
    }
  }

  lemma LeafSubs(x: Trie, t: Trie)
    requires t.Leaf?
    ensures Subs(x, t) <= if x == t then 1 else 0
  {
  }

  lemma ExtensionSubs(x: Trie, t: Trie)
    requires t.Extension?
    ensures Whole(x, Owned(t)) <= (if x == t then 1 else 0) + Subs(x, t.child)
  {
  }

  lemma Tally(x: Trie, t: Trie, upper: Trie, beside: Trie, lower: Trie, a: Trie, b: Trie, u: nat, s: nat, l: nat, m: nat, n: nat)
    requires t.Extension? && upper.Branch? && lower.Branch? && beside.Leaf? && a.Leaf? && b.Leaf?
    requires upper != lower && a != b && beside != a && beside != b
    requires m <= (if x == a then 1 else 0) && n <= (if x == b then 1 else 0) && s <= (if x == beside then 1 else 0)
    requires l <= (if x == lower then 1 else 0) + m + n && u <= (if x == upper then 1 else 0) + s + l
    ensures (if x == t then 1 else 0) + u <= 1
  {
  }

  /** With three layers in memory the store is not safe: after this run, the next commit leaves the
      trie with a digest, of the node of key C, that the store does not have. */
  lemma ThreeLayersLose() returns (ops: seq<Op>, s: State)
    ensures ops == [] + [Write(A, Long(1))] + [Write(D, Long(4))] + [Write(B, Long(2))] + [Commit]
                   + [Write(C, Long(3))] + [Read(A)] + [Write(D, [])]
    ensures Run(3, ops) == Some(s) && Distinct(s.last)
    ensures !Resolves(Committed(3, s).db, Committed(3, s).root)
  {
    LastIsDistinct();
    Start();
    FirstEpoch([]);
    var first := [] + [Write(A, Long(1))] + [Write(D, Long(4))] + [Write(B, Long(2))];
    FirstCommit(first);
    SecondEpoch(first + [Commit]);
    var front := first + [Commit] + [Write(C, Long(3))] + [Read(A)];
    ReachEnds(front, S6, Write(D, []));
    LosesNext();
    ops, s := front + [Write(D, [])], Apply(3, S6, Write(D, []));
  }

  lemma ListedShape()
    ensures |LISTED.body.children| == 16 && LISTED.body.children[2] == Held(Twig([0], 3))
    ensures forall l :: l in LISTED.body.children && l.Held? ==> !l.node.exiled && l.node.body.LeafBody?
  {
    forall l | l in LISTED.body.children && l.Held? ensures !l.node.exiled && l.node.body.LeafBody? {
      assert l in {Nil, Held(Twig([0], 3)), Held(Load(Stub(1))), Digest(Stub(2))};
    }
  }
}
