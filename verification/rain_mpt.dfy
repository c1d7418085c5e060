/** The trie as the source runs it: a search builds a stack of nodes, the end of the stack is
    rewritten, and the pointers are put back from the bottom up. */
module RainMpt {
  import opened Basics
  import opened Nibbles
  import opened Tries
  import opened TrieUpdates
  import opened TrieStore
  import opened TrieCommit
  import opened TrieOps
  import opened TriePut
  import opened TrieDel
  import opened TrieLive
  import opened TrieSafety
  import opened TrieRun

  /** A node on the search path, and the position of the child the search took. */
  datatype Frame = Frame(node: Node, idx: Nibble)

  function Attach(n: Node, idx: Nibble, l: Link): Node {
    match n.body
    case LeafBody(_, _) => n
    case BranchBody(children, value) =>
      if idx < |children| then n.(body := BranchBody(children[idx := l], value)) else n
    case ExtensionBody(key, child) => n.(body := ExtensionBody(key, l))
  }

  function StepIndex(n: Node, k: Path): Nibble {
    if n.body.BranchBody? && k != [] then k[0] else 0
  }

  lemma AttachStep(n: Node, k: Path, l: Link)
    requires !Step(n, k).0.Nil?
    ensures Attach(n, StepIndex(n, k), l) == WithStep(n, k, l)
    ensures Step(WithStep(n, k, l), k) == (l, Step(n, k).1)
  {
  }

  /** The nodes of the stack from `i` on, put back together over what is below them. */
  ghost function Plug(stack: seq<Frame>, i: nat, n: Node): Node
    requires i <= |stack|
    decreases |stack| - i
  {
    if i == |stack| then n else Attach(stack[i].node, stack[i].idx, Held(Plug(stack, i + 1, n)))
  }

  /** The same, with the nodes of the stack made new. */
  ghost function Rebuilt(stack: seq<Frame>, i: nat, n: Node): Node
    requires i <= |stack|
    decreases |stack| - i
  {
    if i == |stack| then n else Fresh(Attach(stack[i].node, stack[i].idx, Held(Rebuilt(stack, i + 1, n))).body)
  }

  lemma {:induction false} PlugAppend(stack: seq<Frame>, i: nat, f: Frame, n: Node)
    requires i <= |stack|
    ensures Plug(stack + [f], i, n) == Plug(stack, i, Attach(f.node, f.idx, Held(n)))
    decreases |stack| - i
  {
    if i < |stack| { PlugAppend(stack, i + 1, f, n); }
  }

  /** The stack follows a path: `paths[i]` is what was left of it at frame `i`. */
  ghost predicate Follows(stack: seq<Frame>, paths: seq<Path>, bottom: Node) {
    && |paths| == |stack| + 1
    && forall i :: 0 <= i < |stack| ==> FrameFollows(stack[i], paths[i], paths[i + 1], NodeAt(stack, i + 1, bottom))
  }

  ghost function NodeAt(stack: seq<Frame>, i: nat, bottom: Node): Node
    requires i <= |stack|
  {
    if i < |stack| then stack[i].node else bottom
  }

  ghost predicate FrameFollows(f: Frame, k: Path, rest: Path, next: Node) {
    && Step(f.node, k).0.Held? && Step(f.node, k).1 == rest && f.idx == StepIndex(f.node, k)
    && Expand(Step(f.node, k).0.node) == Expand(next)
  }

  lemma FollowsAppend(stack: seq<Frame>, paths: seq<Path>, bottom: Node, f: Frame, rest: Path, next: Node)
    requires Follows(stack, paths, bottom) && Expand(f.node) == Expand(bottom)
    requires FrameFollows(f, paths[|stack|], rest, next)
    ensures Follows(stack + [f], paths + [rest], next)
  {
    var stack', paths' := stack + [f], paths + [rest];
    forall i | 0 <= i < |stack'| ensures FrameFollows(stack'[i], paths'[i], paths'[i + 1], NodeAt(stack', i + 1, next)) {
      if i < |stack| { assert FrameFollows(stack[i], paths[i], paths[i + 1], NodeAt(stack, i + 1, bottom)); }
    }
  }

  /** The plugged nodes are the frames, with the same contents and bookkeeping. */
  lemma {:induction false} PlugFrame(stack: seq<Frame>, paths: seq<Path>, bottom: Node, i: nat)
    requires Follows(stack, paths, bottom) && i <= |stack|
    ensures Expand(Plug(stack, i, bottom)) == Expand(NodeAt(stack, i, bottom))
    ensures Plug(stack, i, bottom).committed == NodeAt(stack, i, bottom).committed
    ensures i < |stack| ==> Step(Plug(stack, i, bottom), paths[i]) == (Held(Plug(stack, i + 1, bottom)), paths[i + 1])
    ensures i < |stack| ==> Plug(stack, i, bottom) == WithStep(stack[i].node, paths[i], Held(Plug(stack, i + 1, bottom)))
    decreases |stack| - i
  {
    if i < |stack| {
      PlugFrame(stack, paths, bottom, i + 1);
      var f, below := stack[i], Held(Plug(stack, i + 1, bottom));
      assert FrameFollows(f, paths[i], paths[i + 1], NodeAt(stack, i + 1, bottom));
      AttachStep(f.node, paths[i], below);
      StepExpand(f.node, paths[i], below);
    }
  }

  lemma {:induction false} PutPlug(top: nat, stack: seq<Frame>, paths: seq<Path>, bottom: Node, v: Bytes, i: nat)
    requires Follows(stack, paths, bottom) && i <= |stack| && Step(bottom, paths[|stack|]).0.Nil?
    ensures PutNode(top, Plug(stack, i, bottom), paths[i], v, i)
         == Rebuilt(stack, i, Fresh(PutHere(top, bottom, paths[|stack|], v, |stack|)))
    decreases |stack| - i
  {
    if i < |stack| {
      PutPlug(top, stack, paths, bottom, v, i + 1);
      PlugFrame(stack, paths, bottom, i);
      assert FrameFollows(stack[i], paths[i], paths[i + 1], NodeAt(stack, i + 1, bottom));
      var n, below := Plug(stack, i, bottom), Rebuilt(stack, i + 1, Fresh(PutHere(top, bottom, paths[|stack|], v, |stack|)));
      AttachStep(stack[i].node, paths[i], Held(below));
      StepTwice(stack[i].node, paths[i], Held(Plug(stack, i + 1, bottom)), Held(below));
    }
  }

  lemma StepTwice(n: Node, k: Path, a: Link, b: Link)
    requires !Step(n, k).0.Nil?
    ensures WithStep(WithStep(n, k, a), k, b) == WithStep(n, k, b)
  {
    if n.body.BranchBody? { assert n.body.children[k[0] := a][k[0] := b] == n.body.children[k[0] := b]; }
  }

  /** The nodes of the stack from `i` on that making them new puts on the list. */
  ghost function StackDels(stack: seq<Frame>, i: nat): multiset<Trie>
    requires i <= |stack|
    decreases |stack| - i
  {
    if i == |stack| then multiset{} else Dropped(stack[i].node) + StackDels(stack, i + 1)
  }

  lemma {:induction false} PathDelsPlug(stack: seq<Frame>, paths: seq<Path>, bottom: Node, i: nat)
    requires Follows(stack, paths, bottom) && i <= |stack| && Step(bottom, paths[|stack|]).0.Nil?
    ensures PathDels(Plug(stack, i, bottom), paths[i]) == StackDels(stack, i) + Dropped(bottom)
    decreases |stack| - i
  {
    if i < |stack| {
      PathDelsPlug(stack, paths, bottom, i + 1);
      PathDelsFrame(stack, paths, bottom, i, PathDels(Plug(stack, i + 1, bottom), paths[i + 1]));
    }
  }

  lemma PathDelsFrame(stack: seq<Frame>, paths: seq<Path>, bottom: Node, i: nat, below: multiset<Trie>)
    requires Follows(stack, paths, bottom) && i < |stack|
    requires below == PathDels(Plug(stack, i + 1, bottom), paths[i + 1]) == StackDels(stack, i + 1) + Dropped(bottom)
    ensures PathDels(Plug(stack, i, bottom), paths[i]) == StackDels(stack, i) + Dropped(bottom)
  {
    PlugFrame(stack, paths, bottom, i);
    var n := Plug(stack, i, bottom);
    PathDelsStep(n, paths[i], Plug(stack, i + 1, bottom), paths[i + 1]);
    Reassociate(PathDels(n, paths[i]), Dropped(n), StackDels(stack, i + 1), Dropped(bottom), StackDels(stack, i));
  }

  lemma PathDelsStep(n: Node, k: Path, child: Node, rest: Path)
    requires Step(n, k) == (Held(child), rest)
    ensures PathDels(n, k) == Dropped(n) + PathDels(child, rest)
  {
  }

  lemma Reassociate(all: multiset<Trie>, head: multiset<Trie>, tail: multiset<Trie>, end: multiset<Trie>, stack: multiset<Trie>)
    requires all == head + (tail + end) && stack == head + tail
    ensures all == stack + end
  {
  }

  // ----- deletion at the end of the stack -----

  /** Every node of the stack heads a canonical trie. */
  ghost predicate Sane(stack: seq<Frame>, bottom: Node) {
    forall i :: 0 <= i <= |stack| ==> CanonicalNode(NodeAt(stack, i, bottom))
  }

  ghost predicate CanonicalNode(n: Node) {
    Canonical(Expand(n)) && Shaped(Expand(n))
  }

  lemma DelStep(n: Node, k: Path, d: Link)
    requires Shaped(Expand(n)) && Step(n, k).0.Held? && Shaped(Expand(Step(n, k).0.node))
    requires DelNode(Step(n, k).0.node, Step(n, k).1) == d && d.Held?
    requires n.body.ExtensionBody? ==> d.node.body.BranchBody?
    ensures DelNode(n, k) == Held(Fresh(WithStep(n, k, d).body))
  {
  }

  /** Where the removal takes hold, and what it leaves there, before merging with an extension. */
  function Emptied(stack: seq<Frame>, bottom: Node): (r: (nat, Link))
    ensures r.0 <= |stack|
  {
    if bottom.body.BranchBody? && |bottom.body.children| == 16 then (|stack|, Held(Fresh(CollapseBody(bottom.body.children, []))))
    else if stack == [] then (0, Nil)
    else
      var m := |stack| - 1;
      var b := stack[m].node.body;
      if b.BranchBody? && |b.children| == 16 then
        (m, Held(Fresh(CollapseBody(b.children[stack[m].idx := Nil], b.value))))
      else (m, Nil)
  }

  /** A node that is no branch takes the key of an extension above it. */
  function Merged(stack: seq<Frame>, m: nat, x: Link): (r: (nat, Link))
    requires m <= |stack|
    ensures r.0 <= m
  {
    if x.Held? && !x.node.body.BranchBody? && m > 0 && stack[m - 1].node.body.ExtensionBody? then
      (m - 1, Held(Fresh(JoinBody(stack[m - 1].node.body.key, x))))
    else (m, x)
  }

  /** Below an extension is a branch. */
  lemma ExtensionOverBranch(n: Node, k: Path)
    requires CanonicalNode(n) && n.body.ExtensionBody? && Step(n, k).0.Held?
    ensures Expand(Step(n, k).0.node).Branch?
  {
    assert Expand(n).child == Expand(Step(n, k).0.node);
  }

  /** A branch that loses a leaf, whatever hangs there in the stack. */
  lemma LeafRemoved(n: Node, k: Path, leaf: Node)
    requires CanonicalNode(n) && leaf.body.LeafBody? && Step(n, k).0.Held? && Expand(Step(n, k).0.node) == Expand(leaf)
    ensures n.body.BranchBody? && |n.body.children| == 16
    ensures
      var w := WithStep(n, k, Held(leaf));
      && Shaped(Expand(w))
      && DelNode(w, k) == Held(Fresh(CollapseBody(n.body.children[k[0] := Nil], n.body.value)))
      && MergeDels(w, k) == CollapseDels(n.body.children[k[0] := Nil], n.body.value)
  {
    if n.body.ExtensionBody? { ExtensionOverBranch(n, k); }
    var w := WithStep(n, k, Held(leaf));
    StepExpand(n, k, Held(leaf));
    assert w.body.children[k[0] := Nil] == n.body.children[k[0] := Nil];
    assert DelNode(leaf, k[1..]) == Nil;
  }

  lemma HasChild(n: Node)
    requires CanonicalNode(n) && n.body.ExtensionBody?
    ensures !n.body.child.Nil?
  {
    assert Expand(n).child == Below(ExpandLink(n.body.child));
  }

  /** A match ends on a leaf, or on a branch with the path used up. */
  lemma MatchEnds(n: Node, k: Path)
    requires CanonicalNode(n) && Matched(Expand(n), k) && Step(n, k).0.Nil?
    ensures n.body.LeafBody? || (n.body.BranchBody? && |n.body.children| == 16 && k == [])
    ensures DelNode(n, k) == if n.body.LeafBody? then Nil else Held(Fresh(CollapseBody(n.body.children, [])))
    ensures MergeDels(n, k) == if n.body.LeafBody? then multiset{} else CollapseDels(n.body.children, [])
  {
    assert n.body.BranchBody? ==> Expand(n) == Branch(ExpandLinks(n.body.children), n.body.value);
    if n.body.ExtensionBody? { HasChild(n); }
  }

  lemma EmptiedIsDel(stack: seq<Frame>, paths: seq<Path>, bottom: Node)
    requires Follows(stack, paths, bottom) && Sane(stack, bottom)
    requires Step(bottom, paths[|stack|]).0.Nil? && Matched(Expand(bottom), paths[|stack|])
    ensures
      var (m, x) := Emptied(stack, bottom);
      CanonicalNode(Plug(stack, m, bottom)) && DelNode(Plug(stack, m, bottom), paths[m]) == x && (m > 0 ==> x.Held?)
  {
    assert CanonicalNode(NodeAt(stack, |stack|, bottom));
    MatchEnds(bottom, paths[|stack|]);
    if bottom.body.LeafBody? && stack != [] { LeafEmptied(stack, paths, bottom); }
  }

  lemma LeafEmptied(stack: seq<Frame>, paths: seq<Path>, bottom: Node)
    requires Follows(stack, paths, bottom) && Sane(stack, bottom) && bottom.body.LeafBody? && stack != []
    ensures
      var m := |stack| - 1;
      var b := stack[m].node.body;
      && b.BranchBody? && |b.children| == 16 && CanonicalNode(Plug(stack, m, bottom))
      && DelNode(Plug(stack, m, bottom), paths[m]) == Held(Fresh(CollapseBody(b.children[stack[m].idx := Nil], b.value)))
      && MergeDels(Plug(stack, m, bottom), paths[m]) == CollapseDels(b.children[stack[m].idx := Nil], b.value)
  {
    var m := |stack| - 1;
    var f := stack[m];
    PlugFrame(stack, paths, bottom, m);
    assert CanonicalNode(NodeAt(stack, m, bottom));
    assert FrameFollows(f, paths[m], paths[m + 1], NodeAt(stack, m + 1, bottom));
    LeafRemoved(f.node, paths[m], bottom);
    assert Plug(stack, m + 1, bottom) == bottom;
  }

  lemma MergedIsDel(stack: seq<Frame>, paths: seq<Path>, bottom: Node, m: nat, x: Link)
    requires Follows(stack, paths, bottom) && Sane(stack, bottom) && m <= |stack|
    requires CanonicalNode(Plug(stack, m, bottom)) && DelNode(Plug(stack, m, bottom), paths[m]) == x && (m > 0 ==> x.Held?)
    ensures
      var (m', x') := Merged(stack, m, x);
      CanonicalNode(Plug(stack, m', bottom)) && DelNode(Plug(stack, m', bottom), paths[m']) == x' && (m' > 0 ==> x'.Held?)
  {
    var (m', x') := Merged(stack, m, x);
    if m' < m {
      PlugFrame(stack, paths, bottom, m');
      assert CanonicalNode(NodeAt(stack, m', bottom));
      DelJoins(Plug(stack, m', bottom), paths[m'], Plug(stack, m, bottom), paths[m], x);
    }
  }

  /** An extension takes in what is left below it, unless that is a branch. */
  lemma DelJoins(n: Node, k: Path, child: Node, rest: Path, x: Link)
    requires CanonicalNode(n) && CanonicalNode(child) && n.body.ExtensionBody? && Step(n, k) == (Held(child), rest)
    requires DelNode(child, rest) == x && x.Held? && !x.node.body.BranchBody?
    ensures DelNode(n, k) == Held(Fresh(JoinBody(n.body.key, x)))
  {
  }

  /** Above the merge the removal only puts pointers back. */
  lemma {:induction false} DelPlug(stack: seq<Frame>, paths: seq<Path>, bottom: Node, m: nat, x: Link, i: nat)
    requires Follows(stack, paths, bottom) && Sane(stack, bottom) && i <= m <= |stack|
    requires CanonicalNode(Plug(stack, m, bottom)) && DelNode(Plug(stack, m, bottom), paths[m]) == x && x.Held?
    requires m > 0 && !x.node.body.BranchBody? ==> !stack[m - 1].node.body.ExtensionBody?
    ensures CanonicalNode(Plug(stack, i, bottom))
    ensures DelNode(Plug(stack, i, bottom), paths[i]) == Held(Rebuilt(stack[..m], i, x.node))
    decreases m - i
  {
    if i < m {
      DelPlug(stack, paths, bottom, m, x, i + 1);
      PlugFrame(stack, paths, bottom, i);
      assert CanonicalNode(NodeAt(stack, i, bottom));
      var f, n, d := stack[i], Plug(stack, i, bottom), Rebuilt(stack[..m], i + 1, x.node);
      assert FrameFollows(f, paths[i], paths[i + 1], NodeAt(stack, i + 1, bottom));
      if f.node.body.ExtensionBody? { BelowExtension(stack, paths, bottom, m, x, i); }
      DelStep(n, paths[i], Held(d));
      StepTwice(f.node, paths[i], Held(Plug(stack, i + 1, bottom)), Held(d));
      AttachStep(f.node, paths[i], Held(d));
    }
  }

  /** Below an extension is a branch, and it stays one. */
  lemma BelowExtension(stack: seq<Frame>, paths: seq<Path>, bottom: Node, m: nat, x: Link, i: nat)
    requires Follows(stack, paths, bottom) && Sane(stack, bottom) && i < m <= |stack| && x.Held?
    requires m > 0 && !x.node.body.BranchBody? ==> !stack[m - 1].node.body.ExtensionBody?
    requires stack[i].node.body.ExtensionBody?
    ensures Rebuilt(stack[..m], i + 1, x.node).body.BranchBody?
  {
    if i + 1 < m {
      var f := stack[i];
      assert FrameFollows(f, paths[i], paths[i + 1], NodeAt(stack, i + 1, bottom)) && CanonicalNode(NodeAt(stack, i, bottom));
      ExtensionOverBranch(f.node, paths[i]);
      assert stack[i + 1].node.body.BranchBody?;
    }
  }

  /** The node that a removal merges into its parent, if it was unchanged. */
  ghost function EmptiedDels(stack: seq<Frame>, bottom: Node): multiset<Trie> {
    if bottom.body.BranchBody? && |bottom.body.children| == 16 then CollapseDels(bottom.body.children, [])
    else if stack == [] then multiset{}
    else
      var m := |stack| - 1;
      var b := stack[m].node.body;
      if b.BranchBody? && |b.children| == 16 then CollapseDels(b.children[stack[m].idx := Nil], b.value) else multiset{}
  }

  /** Only a leaf disappears. */
  lemma DelStays(n: Node, k: Path)
    requires CanonicalNode(n) && !n.body.LeafBody? && (n.body.ExtensionBody? ==> Step(n, k).0.Held?)
    ensures DelNode(n, k).Held?
  {
    if n.body.ExtensionBody? { ExtensionOverBranch(n, k); }
  }

  /** The frame at which a removal takes hold. */
  ghost function Hold(stack: seq<Frame>, bottom: Node): (m: nat)
    ensures m <= |stack|
  {
    if bottom.body.LeafBody? && stack != [] then |stack| - 1 else |stack|
  }

  lemma MergeBase(stack: seq<Frame>, paths: seq<Path>, bottom: Node)
    requires Follows(stack, paths, bottom) && Sane(stack, bottom)
    requires Step(bottom, paths[|stack|]).0.Nil? && Matched(Expand(bottom), paths[|stack|])
    ensures
      var m := Hold(stack, bottom);
      CanonicalNode(Plug(stack, m, bottom)) && MergeDels(Plug(stack, m, bottom), paths[m]) == EmptiedDels(stack, bottom)
  {
    assert CanonicalNode(NodeAt(stack, |stack|, bottom));
    MatchEnds(bottom, paths[|stack|]);
    if bottom.body.LeafBody? && stack != [] { LeafEmptied(stack, paths, bottom); }
  }

  ghost predicate Merges(stack: seq<Frame>, paths: seq<Path>, bottom: Node, i: nat, e: multiset<Trie>) {
    && i <= |stack| < |paths| && CanonicalNode(Plug(stack, i, bottom))
    && MergeDels(Plug(stack, i, bottom), paths[i]) == e
  }

  /** From there up, it merges the same child away. */
  lemma {:induction false} MergePlug(stack: seq<Frame>, paths: seq<Path>, bottom: Node, m: nat, e: multiset<Trie>, i: nat)
    requires Follows(stack, paths, bottom) && Sane(stack, bottom) && i <= m <= |stack|
    requires m == |stack| && m > 0 ==> GoesOn(Plug(stack, m, bottom), paths[m])
    requires Merges(stack, paths, bottom, m, e)
    ensures Merges(stack, paths, bottom, i, e)
    decreases m - i
  {
    if i < m {
      MergePlug(stack, paths, bottom, m, e, i + 1);
      if i + 1 < |stack| { InnerStays(stack, paths, bottom, i + 1); }
      MergeUp(stack, paths, bottom, i, e);
    }
  }

  ghost predicate GoesOn(n: Node, k: Path) {
    !n.body.LeafBody? && (n.body.ExtensionBody? ==> Step(n, k).0.Held?)
  }

  lemma MergeUp(stack: seq<Frame>, paths: seq<Path>, bottom: Node, i: nat, e: multiset<Trie>)
    requires Follows(stack, paths, bottom) && Sane(stack, bottom) && i < |stack|
    requires Merges(stack, paths, bottom, i + 1, e) && GoesOn(Plug(stack, i + 1, bottom), paths[i + 1])
    ensures Merges(stack, paths, bottom, i, e)
  {
    var child := Plug(stack, i + 1, bottom);
    assert CanonicalNode(NodeAt(stack, i, bottom));
    PlugFrame(stack, paths, bottom, i);
    DelStays(child, paths[i + 1]);
    MergeOne(Plug(stack, i, bottom), paths[i], child, paths[i + 1]);
  }

  /** A frame below another is no leaf, and a search goes on through it. */
  lemma InnerStays(stack: seq<Frame>, paths: seq<Path>, bottom: Node, i: nat)
    requires Follows(stack, paths, bottom) && Sane(stack, bottom) && i < |stack|
    ensures GoesOn(Plug(stack, i, bottom), paths[i])
  {
    PlugFrame(stack, paths, bottom, i);
    assert FrameFollows(stack[i], paths[i], paths[i + 1], NodeAt(stack, i + 1, bottom));
  }

  lemma BottomStays(stack: seq<Frame>, paths: seq<Path>, bottom: Node)
    requires Follows(stack, paths, bottom) && Sane(stack, bottom) && !bottom.body.LeafBody?
    requires Matched(Expand(bottom), paths[|stack|]) && Step(bottom, paths[|stack|]).0.Nil?
    ensures GoesOn(Plug(stack, |stack|, bottom), paths[|stack|])
  {
    assert CanonicalNode(NodeAt(stack, |stack|, bottom));
    MatchEnds(bottom, paths[|stack|]);
  }

  lemma MergeOne(n: Node, k: Path, child: Node, rest: Path)
    requires CanonicalNode(n) && CanonicalNode(child) && Step(n, k) == (Held(child), rest) && DelNode(child, rest).Held?
    ensures MergeDels(n, k) == MergeDels(child, rest)
  {
  }

  /** No extension hangs below an extension. */
  lemma MergedStops(stack: seq<Frame>, paths: seq<Path>, bottom: Node, m: nat, x: Link)
    requires Follows(stack, paths, bottom) && Sane(stack, bottom) && m <= |stack|
    ensures
      var (m', x') := Merged(stack, m, x);
      x'.Held? && m' > 0 && !x'.node.body.BranchBody? ==> !stack[m' - 1].node.body.ExtensionBody?
  {
    var (m', x') := Merged(stack, m, x);
    if m' < m && m' > 0 && stack[m' - 1].node.body.ExtensionBody? {
      assert FrameFollows(stack[m' - 1], paths[m' - 1], paths[m'], stack[m'].node);
      assert CanonicalNode(NodeAt(stack, m' - 1, bottom));
      ExtensionOverBranch(stack[m' - 1].node, paths[m' - 1]);
    }
  }

  // ----- search -----

  /** The frame a search leaves behind when it goes on. */
  function FrameOf(top: nat, n: Node, k: Path, depth: nat): Frame
    requires !Step(n, k).0.Nil?
  {
    var l := Step(n, k).0;
    Frame(WithStep(n, k, Loaded(l)).(listed := n.listed || (l.Digest? && depth + 1 >= top)), StepIndex(n, k))
  }

  lemma FrameStep(top: nat, n: Node, k: Path, depth: nat)
    requires !Step(n, k).0.Nil?
    ensures
      var f, child, rest := FrameOf(top, n, k, depth), Loaded(Step(n, k).0).node, Step(n, k).1;
      && FrameFollows(f, k, rest, child) && Expand(f.node) == Expand(n)
      && Walk(top, n, k, depth) == Attach(f.node, f.idx, Held(Walk(top, child, rest, depth + 1)))
  {
    var f, child, rest := FrameOf(top, n, k, depth), Loaded(Step(n, k).0).node, Step(n, k).1;
    var below := Held(Walk(top, child, rest, depth + 1));
    AttachStep(n, k, Held(child));
    StepExpand(n, k, Held(child));
    AttachStep(f.node, k, below);
    StepTwice(n, k, Held(child), below);
  }

  /** Searching on below is searching here. */
  lemma StepMeans(n: Node, k: Path)
    requires !Step(n, k).0.Nil?
    ensures
      var t, rest := ExpandLink(Step(n, k).0).node, Step(n, k).1;
      Matched(Expand(n), k) == Matched(t, rest) && Find(Expand(n), k) == Find(t, rest)
  {
    var l := Step(n, k).0;
    if n.body.BranchBody? {
      assert Expand(n) == Branch(ExpandLinks(n.body.children), n.body.value);
      assert Expand(n).children[k[0]] == ExpandLink(l);
    } else {
      assert Expand(n) == Extension(n.body.key, ExpandLink(l).node);
    }
  }

  /** The value a node carries itself. */
  function OwnValue(n: Node): Bytes {
    match n.body
    case LeafBody(_, value) => value
    case BranchBody(_, value) => value
    case ExtensionBody(_, _) => []
  }

  predicate StopsMatched(n: Node, k: Path) {
    match n.body
    case LeafBody(key, _) => key == k
    case BranchBody(_, _) => k == []
    case ExtensionBody(_, _) => false
  }

  /** Where the search stops it has matched or not. */
  lemma StopMeans(n: Node, k: Path)
    requires CanonicalNode(n) && Step(n, k).0.Nil?
    ensures StopsMatched(n, k) == Matched(Expand(n), k)
    ensures Find(Expand(n), k) == if StopsMatched(n, k) then OwnValue(n) else []
  {
    if n.body.ExtensionBody? { HasChild(n); }
    assert n.body.BranchBody? ==> Expand(n) == Branch(ExpandLinks(n.body.children), n.body.value);
  }

  /** The children of a branch that are not in memory can be loaded. */
  ghost predicate Loadable(db: set<Trie>, n: Node) {
    n.body.BranchBody? ==> forall l :: l in n.body.children && l.Digest? ==> l.of in db
  }

  lemma SoundLoadable(db: set<Trie>, top: nat, n: Node, depth: nat)
    requires Sound(db, top, n, depth)
    ensures Loadable(db, n)
  {
    if n.body.BranchBody? {
      forall l | l in n.body.children && l.Digest? ensures l.of in db {
        var i :| 0 <= i < |n.body.children| && n.body.children[i] == l;
        assert LinkSound(db, top, n.body.children[i], depth + 1);
      }
    }
  }

  lemma FrameLoadable(db: set<Trie>, top: nat, n: Node, k: Path, depth: nat)
    requires Loadable(db, n) && !Step(n, k).0.Nil?
    ensures Loadable(db, FrameOf(top, n, k, depth).node)
  {
    var f := FrameOf(top, n, k, depth).node;
    if n.body.BranchBody? {
      forall l | l in f.body.children && l.Digest? ensures l.of in db { assert l in n.body.children; }
    }
  }

  /** What the search keeps at each node. */
  ghost predicate Searching(db: set<Trie>, top: nat, root: Node, k: Path, stack: seq<Frame>, paths: seq<Path>, node: Node) {
    && Follows(stack, paths, node) && paths[0] == k && Sane(stack, node)
    && Sound(db, top, node, |stack|) && (forall i :: 0 <= i < |stack| ==> Loadable(db, stack[i].node))
    && Walk(top, root, k, 0) == Plug(stack, 0, Walk(top, node, paths[|stack|], |stack|))
    && Matched(Expand(root), k) == Matched(Expand(node), paths[|stack|])
    && Find(Expand(root), k) == Find(Expand(node), paths[|stack|])
  }

  lemma SearchOn(db: set<Trie>, top: nat, root: Node, k: Path, stack: seq<Frame>, paths: seq<Path>, node: Node)
    requires Searching(db, top, root, k, stack, paths, node) && !Step(node, paths[|stack|]).0.Nil?
    ensures
      var (l, rest) := Step(node, paths[|stack|]);
      && (l.Digest? ==> l.of in db) && Expand(Loaded(l).node) < Expand(node)
      && Searching(db, top, root, k, stack + [FrameOf(top, node, paths[|stack|], |stack|)], paths + [rest], Loaded(l).node)
  {
    var k', depth := paths[|stack|], |stack|;
    var (l, rest) := Step(node, k');
    var f, child := FrameOf(top, node, k', depth), Loaded(l).node;
    assert CanonicalNode(NodeAt(stack, depth, node));
    SearchChild(db, top, node, k', depth);
    FrameStep(top, node, k', depth);
    FollowsAppend(stack, paths, node, f, rest, child);
    PlugAppend(stack, 0, f, Walk(top, child, rest, depth + 1));
    SaneAppend(stack, node, f, child);
  }

  /** The child a search goes on to. */
  lemma SearchChild(db: set<Trie>, top: nat, node: Node, k: Path, depth: nat)
    requires CanonicalNode(node) && Sound(db, top, node, depth) && !Step(node, k).0.Nil?
    ensures
      var (l, rest) := Step(node, k);
      && (l.Digest? ==> l.of in db) && Expand(Loaded(l).node) < Expand(node)
      && CanonicalNode(Loaded(l).node) && Sound(db, top, Loaded(l).node, depth + 1)
      && Matched(Expand(node), k) == Matched(Expand(Loaded(l).node), rest)
      && Find(Expand(node), k) == Find(Expand(Loaded(l).node), rest)
    ensures Loadable(db, FrameOf(top, node, k, depth).node)
  {
    var l := Step(node, k).0;
    StepMeans(node, k);
    StepBelow(node, k);
    StepCanonical(node, k);
    StepShaped(node, k);
    assert LinkSound(db, top, l, depth + 1) && LinkFits(top, node, l, depth + 1);
    LoadedSound(db, top, node, l, depth + 1);
    SoundLoadable(db, top, node, depth);
    FrameLoadable(db, top, node, k, depth);
  }

  lemma SaneAppend(stack: seq<Frame>, bottom: Node, f: Frame, next: Node)
    requires Sane(stack, bottom) && Expand(f.node) == Expand(bottom) && CanonicalNode(next)
    ensures Sane(stack + [f], next)
  {
    forall i | 0 <= i <= |stack| + 1 ensures CanonicalNode(NodeAt(stack + [f], i, next)) {
      if i <= |stack| { assert CanonicalNode(NodeAt(stack, i, bottom)); }
    }
  }

  // ----- removal -----

  /** The position of the only child, or 16. */
  method FindOnlyChild(children: seq<Link>) returns (r: nat)
    requires |children| == 16
    ensures r == OnlyChild(ExpandLinks(children))
  {
    r := 16;
    var i := 0;
    ghost var seen: set<nat> := {};
    while i < 16
      invariant 0 <= i <= 16
      invariant seen == set j | 0 <= j < i && !children[j].Nil?
      invariant r == 16 ==> seen == {}
      invariant r < 16 ==> seen == {r}
    {
      if !children[i].Nil? {
        if r < 16 {
          OnlyOne(children, r, i);
          return 16;
        }
        r := i;
        seen := seen + {i};
      }
      i := i + 1;
    }
    assert seen == Occupied(ExpandLinks(children));
  }

  lemma OnlyOne(children: seq<Link>, i: nat, j: nat)
    requires |children| == 16 && i < 16 && j < 16 && i != j && !children[i].Nil? && !children[j].Nil?
    ensures OnlyChild(ExpandLinks(children)) >= 16 && OnlyChild(ExpandLinks(children)) == 16
  {
    var s := Occupied(ExpandLinks(children));
    assert i in s && j in s;
    if |s| == 1 { SingletonOnly(s, i); }
  }

  // ----- what the end of a search means for an operation -----

  ghost predicate Ended(top: nat, s: State, k: Path, stack: seq<Frame>, paths: seq<Path>, bottom: Node) {
    s.root.Held? && Searching(s.db, top, s.root.node, k, stack, paths, bottom) && Step(bottom, paths[|stack|]).0.Nil?
  }

  lemma EndMeans(top: nat, s: State, k: Path, stack: seq<Frame>, paths: seq<Path>, bottom: Node)
    requires Ended(top, s, k, stack, paths, bottom)
    ensures
      var w, rest := Plug(stack, 0, bottom), paths[|stack|];
      && Walk(top, s.root.node, k, 0) == w && Expand(w) == Expand(s.root.node)
      && Matched(Expand(w), k) == StopsMatched(bottom, rest)
      && Find(Expand(w), k) == if StopsMatched(bottom, rest) then OwnValue(bottom) else []
  {
    assert CanonicalNode(NodeAt(stack, |stack|, bottom));
    StopMeans(bottom, paths[|stack|]);
    assert Walk(top, bottom, paths[|stack|], |stack|) == bottom;
  }

  lemma InsertMeans(top: nat, s: State, k: Path, v: Bytes, stack: seq<Frame>, paths: seq<Path>, bottom: Node)
    requires Ended(top, s, k, stack, paths, bottom)
    ensures
      var rest := paths[|stack|];
      Inserted(top, s, k, v) ==
        if StopsMatched(bottom, rest) && OwnValue(bottom) == v then s.(root := Held(Plug(stack, 0, bottom)))
        else s.(root := Held(Rebuilt(stack, 0, Fresh(PutHere(top, bottom, rest, v, |stack|)))),
                dels := s.dels + (StackDels(stack, 0) + Dropped(bottom)))
  {
    EndMeans(top, s, k, stack, paths, bottom);
    PutPlug(top, stack, paths, bottom, v, 0);
    PathDelsPlug(stack, paths, bottom, 0);
  }

  lemma DeleteMeans(top: nat, s: State, k: Path, stack: seq<Frame>, paths: seq<Path>, bottom: Node)
    requires Ended(top, s, k, stack, paths, bottom) && StopsMatched(bottom, paths[|stack|])
    requires Shaped(Expand(s.root.node))
    ensures
      var (m, x) := Emptied(stack, bottom);
      var (m', x') := Merged(stack, m, x);
      Deleted(top, s, k) ==
        s.(root := if x'.Held? then Held(Rebuilt(stack[..m'], 0, x'.node)) else Nil,
           dels := s.dels + (StackDels(stack, 0) + Dropped(bottom) + EmptiedDels(stack, bottom)))
  {
    EndMeans(top, s, k, stack, paths, bottom);
    assert CanonicalNode(NodeAt(stack, |stack|, bottom));
    StopMeans(bottom, paths[|stack|]);
    RemoveMeans(stack, paths, bottom);
  }

  /** Reads a node from the store; the source panics when it is missing. */
  method LoadNode(db: set<Trie>, t: Trie) returns (n: Node)
    requires t in db
    ensures n == Load(t)
  {
    n := Load(t);
  }

  /** Puts an only child in place of its branch; it is loaded first. */
  method DropSingleChildBranch(db: set<Trie>, idx: Nibble, l: Link) returns (b: Body, dels: multiset<Trie>)
    requires !l.Nil? && (l.Digest? ==> l.of in db)
    ensures b == JoinBody([idx], Loaded(l))
    ensures dels == if Loaded(l).node.body.BranchBody? then multiset{} else Dropped(Loaded(l).node)
  {
    var child;
    if l.Digest? { child := LoadNode(db, l.of); } else { child := l.node; }
    b := JoinBody([idx], Held(child));
    dels := if child.body.BranchBody? then multiset{} else Dropped(child);
  }

  /** What is left of a branch that lost an entry. */
  method CollapseBranch(db: set<Trie>, children: seq<Link>, value: Bytes) returns (b: Body, dels: multiset<Trie>)
    requires |children| == 16 && forall l :: l in children && l.Digest? ==> l.of in db
    ensures b == CollapseBody(children, value) && dels == CollapseDels(children, value)
  {
    var only := FindOnlyChild(children);
    if value == [] {
      if only < 16 {
        assert children[only] in children;
        b, dels := DropSingleChildBranch(db, only, children[only]);
      } else {
        b, dels := BranchBody(children, value), multiset{};
      }
    } else if forall i :: 0 <= i < 16 ==> children[i].Nil? {
      b, dels := LeafBody([], value), multiset{};
      assert Occupied(ExpandLinks(children)) == {};
    } else {
      b, dels := BranchBody(children, value), multiset{};
      var i :| 0 <= i < 16 && !children[i].Nil?;
      assert i in Occupied(ExpandLinks(children));
    }
  }

  /** The whole removal, from the end of the stack to the root. */
  lemma RemoveMeans(stack: seq<Frame>, paths: seq<Path>, bottom: Node)
    requires Follows(stack, paths, bottom) && Sane(stack, bottom)
    requires Step(bottom, paths[|stack|]).0.Nil? && Matched(Expand(bottom), paths[|stack|])
    ensures CanonicalNode(Plug(stack, 0, bottom))
    ensures
      var (m, x) := Emptied(stack, bottom);
      var (m', x') := Merged(stack, m, x);
      DelNode(Plug(stack, 0, bottom), paths[0]) == if x'.Held? then Held(Rebuilt(stack[..m'], 0, x'.node)) else Nil
    ensures DelDels(Plug(stack, 0, bottom), paths[0]) == StackDels(stack, 0) + Dropped(bottom) + EmptiedDels(stack, bottom)
  {
    EmptiedIsDel(stack, paths, bottom);
    var (m, x) := Emptied(stack, bottom);
    MergedIsDel(stack, paths, bottom, m, x);
    var (m', x') := Merged(stack, m, x);
    if x'.Held? {
      MergedStops(stack, paths, bottom, m, x);
      DelPlug(stack, paths, bottom, m', x', 0);
    }
    RemoveDels(stack, paths, bottom);
  }

  lemma RemoveDels(stack: seq<Frame>, paths: seq<Path>, bottom: Node)
    requires Follows(stack, paths, bottom) && Sane(stack, bottom)
    requires Step(bottom, paths[|stack|]).0.Nil? && Matched(Expand(bottom), paths[|stack|])
    ensures CanonicalNode(Plug(stack, 0, bottom))
    ensures DelDels(Plug(stack, 0, bottom), paths[0]) == StackDels(stack, 0) + Dropped(bottom) + EmptiedDels(stack, bottom)
  {
    MergeBase(stack, paths, bottom);
    var m := Hold(stack, bottom);
    if m == |stack| && m > 0 { BottomStays(stack, paths, bottom); }
    MergePlug(stack, paths, bottom, m, EmptiedDels(stack, bottom), 0);
    PathDelsPlug(stack, paths, bottom, 0);
  }

  // ----- commit -----

  /** Commits a subtree: its changed nodes become committed, and those to be stored are collected. */
  method CommitNode(top: nat, n: Node, depth: nat) returns (n': Node, puts: set<Trie>)
    ensures n' == Seal(top, n, depth) && puts == Puts(top, n, depth)
    decreases n
  {
    if n.committed { return n, {}; }
    var body := n.body;
    puts := {};
    match n.body {
      case LeafBody(_, _) =>
      case BranchBody(children, value) =>
        var links;
        links, puts := CommitLinks(top, n, depth + 1);
        body := BranchBody(links, value);
      case ExtensionBody(key, child) =>
        if child.Held? {
          var c;
          c, puts := CommitNode(top, child.node, depth + 1);
          body := ExtensionBody(key, Held(c));
        }
    }
    assert body == SealBody(top, n.body, depth);
    var long := !Small(Expand(n));
    if !long { SmallPutsNothing(top, n, depth); }
    if long && depth >= top { puts := puts + {Expand(n)}; }
    if depth + 1 == top { body := Truncate(body); }
    n' := Node(body, long || depth == 0, n.listed, false, long && depth >= top);
  }

  method CommitLinks(top: nat, n: Node, depth: nat) returns (links: seq<Link>, puts: set<Trie>)
    requires n.body.BranchBody?
    ensures links == SealLinks(top, n.body.children, depth) && puts == LinksPuts(top, n.body.children, depth)
    decreases n, 0
  {
    var children := n.body.children;
    links, puts := [], {};
    for i := 0 to |children|
      invariant |links| == i && forall j :: 0 <= j < i ==> links[j] == SealLink(top, children[j], depth)
      invariant forall t :: t in puts <==> exists j :: 0 <= j < i && t in LinkPuts(top, children[j], depth)
    {
      if children[i].Held? {
        assert children[i] < n.body;
        var c, more := CommitNode(top, children[i].node, depth);
        links, puts := links + [Held(c)], puts + more;
      } else {
        links := links + [children[i]];
      }
    }
    assert links == SealLinks(top, children, depth);
  }

  /** Nothing below a short node is stored. */
  lemma SmallPutsNothing(top: nat, n: Node, depth: nat)
    requires Small(Expand(n)) && !n.committed
    ensures n.body.BranchBody? ==> LinksPuts(top, n.body.children, depth + 1) == {}
    ensures n.body.ExtensionBody? ==> LinkPuts(top, n.body.child, depth + 1) == {}
  {
    SmallChildren(Expand(n));
    if n.body.BranchBody? {
      forall i | 0 <= i < |n.body.children| ensures LinkPuts(top, n.body.children[i], depth + 1) == {} {
        assert Expand(n).children[i] == ExpandLink(n.body.children[i]);
      }
    } else if n.body.ExtensionBody? {
      assert Expand(n).child == Below(ExpandLink(n.body.child));
    }
  }

  class MerklePatriciaTree {
    const top: nat
    var root: Link
    var delOps: multiset<Trie>
    var db: set<Trie>
    ghost var last: Child

    ghost function Model(): State
      reads this
    {
      State(root, delOps, db, last)
    }

    constructor (top: nat)
      ensures this.top == top && Model() == EMPTY
    {
      this.top := top;
      root, delOps, db, last := Nil, multiset{}, {}, Null;
    }

    /** Walks down the path of a key, loading what is not in memory. */
    method Search(k: Path) returns (stack: seq<Frame>, bottom: Node, matched: bool, remainder: Path, ghost paths: seq<Path>)
      requires Valid(top, Model()) && root.Held?
      ensures Searching(db, top, root.node, k, stack, paths, bottom)
      ensures remainder == paths[|stack|] && Step(bottom, remainder).0.Nil? && matched == StopsMatched(bottom, remainder)
    {
      bottom, stack, remainder := root.node, [], k;
      paths := [k];
      assert Sane(stack, bottom);
      while !Step(bottom, remainder).0.Nil?
        invariant Searching(db, top, root.node, k, stack, paths, bottom) && remainder == paths[|stack|]
        decreases Expand(bottom)
      {
        var (l, rest) := Step(bottom, remainder);
        SearchOn(db, top, root.node, k, stack, paths, bottom);
        var f := FrameOf(top, bottom, remainder, |stack|);
        if l.Digest? { bottom := LoadNode(db, l.of); } else { bottom := l.node; }
        stack, remainder, paths := stack + [f], rest, paths + [rest];
      }
      matched := StopsMatched(bottom, remainder);
    }

    /** Puts the searched nodes back as they are. */
    method PutBack(stack: seq<Frame>, bottom: Node) returns (n: Node)
      ensures n == Plug(stack, 0, bottom)
    {
      n := bottom;
      var i := |stack|;
      while i > 0
        invariant 0 <= i <= |stack| && n == Plug(stack, i, bottom)
      {
        i := i - 1;
        n := Attach(stack[i].node, stack[i].idx, Held(n));
      }
    }

    /** Makes the nodes of the stack new, and lists the unchanged ones for deletion. */
    method ResetPointers(stack: seq<Frame>)
      modifies this`delOps
      ensures delOps == old(delOps) + StackDels(stack, 0)
    {
      var i := 0;
      while i < |stack|
        invariant 0 <= i <= |stack| && delOps + StackDels(stack, i) == old(delOps) + StackDels(stack, 0)
      {
        delOps := delOps + Dropped(stack[i].node);
        i := i + 1;
      }
    }

    /** Puts the pointers back from the bottom up. */
    method RecoverPointers(stack: seq<Frame>, bottom: Node)
      modifies this`root
      ensures root == Held(Rebuilt(stack, 0, bottom))
    {
      var n := bottom;
      var i := |stack|;
      while i > 0
        invariant 0 <= i <= |stack| && n == Rebuilt(stack, i, bottom)
      {
        i := i - 1;
        n := Fresh(Attach(stack[i].node, stack[i].idx, Held(n)).body);
      }
      root := Held(n);
    }

    /** The value of a key; a key that ends on a branch without a value reads as the empty value. */
    method Get(key: Bytes) returns (r: Option<Bytes>)
      requires Valid(top, Model()) && key != []
      modifies this`root
      ensures Model() == Searched(top, old(Model()), FromBytes(key)) && Valid(top, Model())
      ensures FindRoot(ExpandLink(old(root)), FromBytes(key)) == if r.None? then [] else r.value
    {
      var k := FromBytes(key);
      SearchKeeps(top, Model(), k);
      if root.Nil? { return None; }
      var stack, bottom, matched, remainder;
      ghost var paths;
      stack, bottom, matched, remainder, paths := Search(k);
      assert CanonicalNode(NodeAt(stack, |stack|, bottom));
      StopMeans(bottom, remainder);
      var n := PutBack(stack, bottom);
      root := Held(n);
      return if matched then Some(OwnValue(bottom)) else None;
    }

    /** Stores a value under a key; the empty value deletes the key. */
    method Put(key: Bytes, value: Bytes)
      requires Valid(top, Model()) && key != []
      modifies this`root, this`delOps
      ensures Model() == Apply(top, old(Model()), Write(key, value)) && Valid(top, Model())
    {
      if value == [] { Del(FromBytes(key)); } else { Insert(FromBytes(key), value); }
    }

    method Insert(k: Path, value: Bytes)
      requires Valid(top, Model()) && value != []
      modifies this`root, this`delOps
      ensures Model() == Inserted(top, old(Model()), k, value) && Valid(top, Model())
    {
      InsertKeeps(top, Model(), k, value);
      if root.Nil? {
        root := Held(Fresh(LeafBody(k, value)));
        return;
      }
      var stack, bottom, matched, remainder;
      ghost var paths;
      stack, bottom, matched, remainder, paths := Search(k);
      InsertMeans(top, Model(), k, value, stack, paths, bottom);
      if matched && OwnValue(bottom) == value {
        var n := PutBack(stack, bottom);
        root := Held(n);
      } else {
        Rewrite(stack, bottom, Fresh(PutHere(top, bottom, remainder, value, |stack|)));
      }
    }

    /** Makes the searched nodes new, with another one at the end. */
    method Rewrite(stack: seq<Frame>, bottom: Node, end: Node)
      modifies this`root, this`delOps
      ensures root == Held(Rebuilt(stack, 0, end))
      ensures delOps == old(delOps) + (StackDels(stack, 0) + Dropped(bottom))
    {
      ResetPointers(stack);
      delOps := delOps + Dropped(bottom);
      RecoverPointers(stack, end);
    }

    /** Removes a key, if it is there. */
    method Del(k: Path)
      requires Valid(top, Model())
      modifies this`root, this`delOps
      ensures Model() == Deleted(top, old(Model()), k) && Valid(top, Model())
    {
      DeleteKeeps(top, Model(), k);
      if root.Nil? { return; }
      var stack, bottom, matched, remainder;
      ghost var paths;
      stack, bottom, matched, remainder, paths := Search(k);
      EndMeans(top, Model(), k, stack, paths, bottom);
      if matched {
        DeleteMeans(top, Model(), k, stack, paths, bottom);
        assert CanonicalNode(NodeAt(stack, |stack|, bottom));
        StopMeans(bottom, remainder);
        RemoveReady(db, top, root.node, k, stack, paths, bottom);
        Remove(stack, bottom);
      } else {
        var n := PutBack(stack, bottom);
        root := Held(n);
      }
    }

    /** Commits the trie and returns its root digest; `None` stands for the empty root. */
    method Commit() returns (r: Option<Trie>)
      requires !root.Digest?
      modifies this
      ensures Model() == Committed(top, old(Model()))
      ensures r == if old(root).Nil? then None else Some(Expand(old(root).node))
      ensures Valid(top, old(Model())) ==> (Valid(top, Model()) <==> Safe(top, old(Model())))
    {
      if Valid(top, Model()) { CommitKeeps(top, Model()); }
      if root.Nil? {
        db := set t | t in db && t !in delOps;
        delOps, last := multiset{}, Null;
        return None;
      }
      var saved := Exiles(root.node);
      var n, puts := CommitNode(top, root.node, 0);
      n := Prune(n);
      db := (set t | t in db && t !in delOps) + saved + puts;
      delOps, last := multiset{}, Owned(Expand(root.node));
      r := Some(Expand(root.node));
      root := Held(n);
    }

    /** Takes the entry out of the node that holds it. */
    method EmptyEnd(stack: seq<Frame>, bottom: Node) returns (m: nat, x: Link, merged: multiset<Trie>)
      requires bottom.body.LeafBody? || (bottom.body.BranchBody? && |bottom.body.children| == 16)
      requires bottom.body.LeafBody? && stack != [] ==>
        var b := stack[|stack| - 1].node.body; b.BranchBody? && |b.children| == 16
      requires Loadable(db, bottom) && forall i :: 0 <= i < |stack| ==> Loadable(db, stack[i].node)
      ensures (m, x) == Emptied(stack, bottom) && merged == EmptiedDels(stack, bottom)
    {
      var body;
      if bottom.body.BranchBody? {
        body, merged := CollapseBranch(db, bottom.body.children, []);
        return |stack|, Held(Fresh(body)), merged;
      }
      if |stack| == 0 { return 0, Nil, multiset{}; }
      m := |stack| - 1;
      var parent := stack[m].node.body;
      assert Loadable(db, stack[m].node);
      var links := parent.children[stack[m].idx := Nil];
      assert forall l :: l in links && l.Digest? ==> l in parent.children;
      body, merged := CollapseBranch(db, links, parent.value);
      x := Held(Fresh(body));
    }

    /** Rewrites the end of the stack and puts the pointers back. */
    method Remove(stack: seq<Frame>, bottom: Node)
      requires bottom.body.LeafBody? || (bottom.body.BranchBody? && |bottom.body.children| == 16)
      requires bottom.body.LeafBody? && stack != [] ==>
        var b := stack[|stack| - 1].node.body; b.BranchBody? && |b.children| == 16
      requires Loadable(db, bottom) && forall i :: 0 <= i < |stack| ==> Loadable(db, stack[i].node)
      modifies this`root, this`delOps
      ensures
        var (m, x) := Emptied(stack, bottom);
        var (m', x') := Merged(stack, m, x);
        root == if x'.Held? then Held(Rebuilt(stack[..m'], 0, x'.node)) else Nil
      ensures delOps == old(delOps) + (StackDels(stack, 0) + Dropped(bottom) + EmptiedDels(stack, bottom))
    {
      var m, x, merged := EmptyEnd(stack, bottom);
      ListRemoved(stack, bottom, merged);
      PushNonBranch(stack, m, x);
    }

    method ListRemoved(stack: seq<Frame>, bottom: Node, merged: multiset<Trie>)
      modifies this`delOps
      ensures delOps == old(delOps) + (StackDels(stack, 0) + Dropped(bottom) + merged)
    {
      ResetPointers(stack);
      Regroup(old(delOps), StackDels(stack, 0), Dropped(bottom), merged);
      delOps := delOps + Dropped(bottom) + merged;
    }

    /** Puts what is left at the end of the stack, merged with an extension above it. */
    method PushNonBranch(stack: seq<Frame>, m: nat, x: Link)
      requires m <= |stack|
      modifies this`root
      ensures
        var (m', x') := Merged(stack, m, x);
        root == if x'.Held? then Held(Rebuilt(stack[..m'], 0, x'.node)) else Nil
    {
      if !x.Held? {
        root := Nil;
      } else if !x.node.body.BranchBody? && m > 0 && stack[m - 1].node.body.ExtensionBody? {
        RecoverPointers(stack[..m - 1], Fresh(JoinBody(stack[m - 1].node.body.key, x)));
      } else {
        RecoverPointers(stack[..m], x.node);
      }
    }
  }

  lemma Regroup(a: multiset<Trie>, b: multiset<Trie>, c: multiset<Trie>, d: multiset<Trie>)
    ensures a + b + c + d == a + (b + c + d) && a + b + (c + d) == a + (b + c + d)
  {
  }

  /** The search ended where a removal can start. */
  lemma RemoveReady(db: set<Trie>, top: nat, root: Node, k: Path, stack: seq<Frame>, paths: seq<Path>, bottom: Node)
    requires Searching(db, top, root, k, stack, paths, bottom)
    requires Step(bottom, paths[|stack|]).0.Nil? && Matched(Expand(bottom), paths[|stack|])
    ensures Walk(top, root, k, 0) == Plug(stack, 0, bottom) && Loadable(db, bottom)
    ensures bottom.body.LeafBody? || (bottom.body.BranchBody? && |bottom.body.children| == 16)
    ensures bottom.body.LeafBody? && stack != [] ==>
      var b := stack[|stack| - 1].node.body; b.BranchBody? && |b.children| == 16
  {
    assert CanonicalNode(NodeAt(stack, |stack|, bottom));
    MatchEnds(bottom, paths[|stack|]);
    SoundLoadable(db, top, bottom, |stack|);
    if bottom.body.LeafBody? && stack != [] { LeafEmptied(stack, paths, bottom); }
  }
}
