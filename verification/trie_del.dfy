/** Deletion on nodes in memory. */
module TrieDel {
  import opened Basics
  import opened Nibbles
  import opened Tries
  import opened TrieUpdates
  import opened TrieStore
  import opened TrieCommit
  import opened TrieOps
  import opened TriePut

  /** The search for a path ends on a node that is its own. */
  predicate Matched(t: Trie, k: Path)
    decreases t
  {
    match t
    case Leaf(key, _) => key == k
    case Branch(children, _) =>
      k == [] || (k[0] < |children| && children[k[0]].Owned? && Matched(children[k[0]].node, k[1..]))
    case Extension(key, child) => key <= k && Matched(child, k[|key|..])
  }

  /** A path that is held is matched; a matched path that is not held ends on a branch. */
  lemma {:induction false} HeldIsMatched(t: Trie, k: Path)
    requires Find(t, k) != []
    ensures Matched(t, k)
    decreases t
  {
    match t
    case Leaf(_, _) =>
    case Branch(children, _) => if k != [] { HeldIsMatched(children[k[0]].node, k[1..]); }
    case Extension(key, child) => HeldIsMatched(child, k[|key|..]);
  }

  /** A node behind a longer path. */
  function JoinBody(p: Path, l: Link): Body
    requires l.Held?
  {
    match l.node.body
    case LeafBody(key, value) => LeafBody(p + key, value)
    case BranchBody(_, _) => ExtensionBody(p, l)
    case ExtensionBody(key, child) => ExtensionBody(p + key, child)
  }

  /** What is left of a branch that lost an entry; an only child is loaded to be merged. */
  function CollapseBody(children: seq<Link>, value: Bytes): Body
    requires |children| == 16
  {
    var i := OnlyChild(ExpandLinks(children));
    if value == [] && i < 16 then
      assert ExpandLink(children[i]).Owned?;
      JoinBody([i], Loaded(children[i]))
    else if value != [] && Occupied(ExpandLinks(children)) == {} then LeafBody([], value)
    else BranchBody(children, value)
  }

  /** Deletion below a node, when the search for the path matched; the path becomes new. */
  ghost function DelNode(n: Node, k: Path): (l: Link)
    requires Shaped(Expand(n))
    ensures l.Held? ==> l.node == Fresh(l.node.body)
    ensures !l.Digest?
    decreases n
  {
    var (l, rest) := Step(n, k);
    StepHeld(n, k);
    match n.body
    case LeafBody(_, _) => Nil
    case BranchBody(children, value) =>
      if !l.Held? then Held(Fresh(CollapseBody(children, [])))
      else
        StepShaped(n, k);
        var d := DelNode(l.node, rest);
        if d.Nil? then Held(Fresh(CollapseBody(children[k[0] := Nil], value)))
        else Held(Fresh(BranchBody(children[k[0] := d], value)))
    case ExtensionBody(key, child) =>
      if !l.Held? then Nil
      else
        StepShaped(n, k);
        var d := DelNode(l.node, rest);
        if d.Nil? then Nil else Held(Fresh(JoinBody(key, d)))
  }

  lemma JoinExpand(p: Path, l: Link)
    requires l.Held? && p != []
    ensures Expand(Fresh(JoinBody(p, l))) == Join(p, Expand(l.node))
  {
  }

  lemma CollapseExpand(children: seq<Link>, value: Bytes)
    requires |children| == 16
    ensures Expand(Fresh(CollapseBody(children, value))) == Collapse(ExpandLinks(children), value)
  {
    var i := OnlyChild(ExpandLinks(children));
    if value == [] && i < 16 { JoinExpand([i], Loaded(children[i])); }
  }

  /** In memory, deletion is what it is on the trie. */
  lemma {:induction false} DelExpand(db: set<Trie>, top: nat, n: Node, k: Path, depth: nat)
    requires Canonical(Expand(n)) && Shaped(Expand(n)) && Walked(n, k) && Matched(Expand(n), k) && Sound(db, top, n, depth)
    ensures ExpandLink(DelNode(n, k)) == Del(Expand(n), k)
    decreases n
  {
    var (l, rest) := Step(n, k);
    StepHeld(n, k);
    match n.body
    case LeafBody(_, _) =>
    case BranchBody(children, value) =>
      if k == [] {
        CollapseExpand(children, []);
      } else {
        assert Expand(n).children[k[0]] == ExpandLink(l);
        StepCanonical(n, k);
        StepShaped(n, k);
        assert LinkSound(db, top, l, depth + 1);
        DelExpand(db, top, l.node, rest, depth + 1);
        var d := DelNode(l.node, rest);
        ExpandUpdate(children, k[0], d);
        if d.Nil? { CollapseExpand(children[k[0] := Nil], value); }
      }
    case ExtensionBody(key, child) =>
      StepCanonical(n, k);
      StepShaped(n, k);
      DelExpand(db, top, l.node, rest, depth + 1);
      var d := DelNode(l.node, rest);
      if d.Held? { JoinExpand(key, d); }
  }

  // ----- soundness -----

  /** A node merged with its parent moves up by one level. */
  lemma JoinSound(db: set<Trie>, top: nat, p: Path, l: Link, depth: nat)
    requires l.Held? && LinkSound(db, top, l, depth + 1)
    requires forall b: Body :: LinkFits(top, Fresh(b), l, depth + 1)
    ensures Sound(db, top, Fresh(JoinBody(p, l)), depth)
  {
    match l.node.body
    case LeafBody(_, _) =>
    case BranchBody(_, _) =>
    case ExtensionBody(_, child) => RiseLinkSound(db, top, child, depth + 2, depth + 1);
  }

  lemma CollapseSound(db: set<Trie>, top: nat, n: Node, children: seq<Link>, value: Bytes, depth: nat)
    requires |children| == 16 && forall i :: 0 <= i < 16 && ExpandLink(children[i]).Owned? ==> Shaped(ExpandLink(children[i]).node)
    requires forall i :: 0 <= i < 16 ==> LinkSound(db, top, children[i], depth + 1) && LinkFits(top, n, children[i], depth + 1)
    ensures Sound(db, top, Fresh(CollapseBody(children, value)), depth)
  {
    var i := OnlyChild(ExpandLinks(children));
    if value == [] && i < 16 {
      var l := children[i];
      assert LinkSound(db, top, l, depth + 1) && LinkFits(top, n, l, depth + 1);
      LoadedSound(db, top, n, l, depth + 1);
      JoinSound(db, top, [i], Loaded(l), depth);
    } else {
      var n' := Fresh(CollapseBody(children, value));
      if n'.body.BranchBody? {
        forall i | 0 <= i < 16 ensures LinkFits(top, n', children[i], depth + 1) {
          assert LinkFits(top, n, children[i], depth + 1);
        }
      }
    }
  }

  /** Deletion keeps every digest resolvable: subtrees only move up. */
  lemma {:induction false} DelSound(db: set<Trie>, top: nat, n: Node, k: Path, depth: nat)
    requires Shaped(Expand(n)) && Walked(n, k) && Sound(db, top, n, depth)
    ensures LinkSound(db, top, DelNode(n, k), depth)
    decreases n
  {
    var (l, rest) := Step(n, k);
    StepHeld(n, k);
    match n.body
    case LeafBody(_, _) =>
    case BranchBody(children, value) =>
      forall i | 0 <= i < 16 && ExpandLink(children[i]).Owned? ensures Shaped(ExpandLink(children[i]).node) {
        assert Expand(n).children[i] == ExpandLink(children[i]);
      }
      if l.Held? {
        StepShaped(n, k);
        assert LinkSound(db, top, l, depth + 1);
        DelSound(db, top, l.node, rest, depth + 1);
        var d := DelNode(l.node, rest);
        if d.Nil? {
          CollapseSound(db, top, n, children[k[0] := Nil], value, depth);
        } else {
          RenewStepSound(db, top, n, k, d.node, depth);
        }
      } else {
        CollapseSound(db, top, n, children, [], depth);
      }
    case ExtensionBody(key, child) =>
      if l.Held? {
        StepShaped(n, k);
        DelSound(db, top, l.node, rest, depth + 1);
        var d := DelNode(l.node, rest);
        if d.Held? { JoinSound(db, top, key, d, depth); }
      }
  }
}
