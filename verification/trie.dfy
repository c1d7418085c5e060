/** The Merkle Patricia trie as a value: what it represents, its canonical form, and why two
    canonical tries with the same contents are the same trie. */
module Tries {
  import opened Basics
  import opened Nibbles

  type Bytes = seq<Byte>

  datatype Child = Null | Owned(node: Trie)

  datatype Trie =
    | Leaf(key: Path, value: Bytes)
    | Branch(children: seq<Child>, value: Bytes)
    | Extension(key: Path, child: Trie)

  // ----- meaning -----

  function ChildAt(children: seq<Child>, i: nat): (c: Child)
    ensures c.Owned? ==> i < |children| && c == children[i]
  {
    if i < |children| then children[i] else Null
  }

  /** The value stored under a path; the empty value stands for absence. */
  function Find(t: Trie, k: Path): Bytes
    decreases t
  {
    match t
    case Leaf(key, value) => if key == k then value else []
    case Branch(children, value) =>
      if k == [] then value
      else
        var c := ChildAt(children, k[0]);
        if c.Null? then [] else Find(c.node, k[1..])
    case Extension(key, child) => if key <= k then Find(child, k[|key|..]) else []
  }

  /** Both represent the same map. */
  ghost predicate Agree(a: Trie, b: Trie) {
    forall k: Path :: Find(a, k) == Find(b, k)
  }

  // ----- canonical form -----

  function Occupied(children: seq<Child>): (s: set<nat>)
    ensures forall i :: i in s <==> 0 <= i < |children| && children[i].Owned?
  {
    set i | 0 <= i < |children| && children[i].Owned?
  }

  predicate Canonical(t: Trie)
    decreases t
  {
    match t
    case Leaf(_, value) => value != []
    case Branch(children, value) =>
      && |children| == 16
      && (forall i :: 0 <= i < 16 && children[i].Owned? ==> Canonical(children[i].node))
      && |Occupied(children)| + (if value != [] then 1 else 0) >= 2
    case Extension(key, child) => key != [] && child.Branch? && Canonical(child)
  }

  // ----- uniqueness -----

  ghost predicate StartsWith(k: Path, c: Nibble) {
    k != [] && k[0] == c
  }

  /** A child's paths, behind its nibble. */
  lemma FindBehind(t: Trie, c: Nibble, k: Path)
    requires t.Branch?
    ensures Find(t, [c] + k) == if ChildAt(t.children, c).Owned? then Find(ChildAt(t.children, c).node, k) else []
  {
    assert ([c] + k)[1..] == k;
  }

  lemma FindBelow(t: Trie, k: Path)
    requires t.Extension?
    ensures Find(t, t.key + k) == Find(t.child, k)
  {
    assert (t.key + k)[|t.key|..] == k;
  }

  /** A canonical trie holds some path. */
  lemma {:induction false} Witness(t: Trie) returns (k: Path)
    requires Canonical(t)
    ensures Find(t, k) != []
    decreases t
  {
    match t
    case Leaf(key, _) => k := key;
    case Branch(children, value) =>
      if value != [] {
        k := [];
      } else {
        var i :| i in Occupied(children);
        var rest := Witness(children[i].node);
        FindBehind(t, i, rest);
        k := [i] + rest;
      }
    case Extension(key, child) =>
      var rest := Witness(child);
      FindBelow(t, rest);
      k := key + rest;
  }

  lemma TwoElements(s: set<nat>, c: nat) returns (i: nat)
    requires |s| >= 2
    ensures i in s && i != c
  {
    if s - {c} == {} {
      assert s <= {c};
      SubsetSize(s, {c});
    }
    i :| i in s - {c};
  }

  lemma {:induction false} SubsetSize<T>(a: set<T>, b: set<T>)
    requires a <= b
    ensures |a| <= |b|
  {
    if a != {} {
      var x :| x in a;
      SubsetSize(a - {x}, b - {x});
    }
  }

  /** A canonical branch holds a path off any given nibble. */
  lemma Diverges(t: Trie, c: Nibble) returns (k: Path)
    requires Canonical(t) && t.Branch?
    ensures Find(t, k) != [] && !StartsWith(k, c)
  {
    if t.value != [] {
      k := [];
    } else {
      var i := TwoElements(Occupied(t.children), c);
      var rest := Witness(t.children[i].node);
      FindBehind(t, i, rest);
      k := [i] + rest;
    }
  }

  /** A canonical branch holds a path other than any given one. */
  lemma HoldsAnother(t: Trie, other: Path) returns (k: Path)
    requires Canonical(t) && t.Branch?
    ensures Find(t, k) != [] && k != other
  {
    if other != [] {
      k := Diverges(t, other[0]);
    } else {
      var s := Occupied(t.children);
      var i :| i in s;
      var rest := Witness(t.children[i].node);
      FindBehind(t, i, rest);
      k := [i] + rest;
    }
  }

  /** A leaf holds a single path; the others hold more. */
  lemma LeafIsAlone(a: Trie, b: Trie)
    requires Canonical(a) && Canonical(b) && a.Leaf? && !b.Leaf?
    ensures !Agree(a, b)
  {
    if b.Branch? {
      var k := HoldsAnother(b, a.key);
      assert Find(a, k) != Find(b, k);
    } else {
      var k := HoldsAnother(b.child, if b.key <= a.key then a.key[|b.key|..] else []);
      FindBelow(b, k);
      assert b.key + k != a.key by {
        assert (b.key + k)[|b.key|..] == k;
      }
      assert Find(a, b.key + k) != Find(b, b.key + k);
    }
  }

  /** A branch is not an extension: some path is off the extension's first nibble. */
  lemma BranchIsNoExtension(a: Trie, b: Trie)
    requires Canonical(a) && Canonical(b) && a.Branch? && b.Extension?
    ensures !Agree(a, b)
  {
    var k := Diverges(a, b.key[0]);
    assert Find(b, k) == [];
  }

  /** No path of an extension leaves its key, and its branch leaves any longer one. */
  lemma ExtensionKey(a: Trie, b: Trie)
    requires Canonical(a) && Canonical(b) && a.Extension? && b.Extension? && !(b.key <= a.key)
    ensures !Agree(a, b)
  {
    var n := |a.key|;
    var k;
    if |b.key| > n { k := Diverges(a.child, b.key[n]); } else { k := Witness(a.child); }
    FindBelow(a, k);
    assert !(b.key <= a.key + k);
    assert Find(a, a.key + k) != Find(b, a.key + k);
  }

  lemma AgreeBelow(a: Trie, b: Trie)
    requires a.Extension? && b.Extension? && a.key == b.key && Agree(a, b)
    ensures Agree(a.child, b.child)
  {
    forall k: Path ensures Find(a.child, k) == Find(b.child, k) {
      FindBelow(a, k);
      FindBelow(b, k);
      assert Find(a, a.key + k) == Find(b, a.key + k);
    }
  }

  /** The children of two branches that agree, nibble by nibble. */
  lemma AgreeBehind(a: Trie, b: Trie, c: Nibble)
    requires Canonical(a) && Canonical(b) && a.Branch? && b.Branch? && Agree(a, b)
    ensures a.children[c].Owned? <==> b.children[c].Owned?
    ensures a.children[c].Owned? ==> Agree(a.children[c].node, b.children[c].node)
  {
    forall k: Path ensures Find(a, [c] + k) == Find(b, [c] + k) {}
    if a.children[c].Owned? {
      var w := Witness(a.children[c].node);
      FindBehind(a, c, w);
      FindBehind(b, c, w);
    }
    if b.children[c].Owned? {
      var w := Witness(b.children[c].node);
      FindBehind(a, c, w);
      FindBehind(b, c, w);
    }
    if a.children[c].Owned? {
      forall k: Path ensures Find(a.children[c].node, k) == Find(b.children[c].node, k) {
        FindBehind(a, c, k);
        FindBehind(b, c, k);
      }
    }
  }

  /** Canonical tries that represent the same map are equal, so the shape, and with it the root
      hash, depends on the contents alone. */
  lemma {:induction false} CanonicalUnique(a: Trie, b: Trie)
    requires Canonical(a) && Canonical(b) && Agree(a, b)
    ensures a == b
    decreases a
  {
    if a.Leaf? && b.Leaf? {
      assert Find(a, a.key) == Find(b, a.key);
    } else if a.Leaf? {
      LeafIsAlone(a, b);
    } else if b.Leaf? {
      LeafIsAlone(b, a);
    } else if a.Branch? && b.Branch? {
      assert Find(a, []) == Find(b, []);
      forall c: Nibble | true ensures a.children[c] == b.children[c] {
        AgreeBehind(a, b, c);
        if a.children[c].Owned? { CanonicalUnique(a.children[c].node, b.children[c].node); }
      }
      assert a.children == b.children;
    } else if a.Extension? && b.Extension? {
      if !(b.key <= a.key) { ExtensionKey(a, b); }
      if !(a.key <= b.key) { ExtensionKey(b, a); }
      AgreeBelow(a, b);
      CanonicalUnique(a.child, b.child);
    } else if a.Branch? {
      BranchIsNoExtension(a, b);
    } else {
      BranchIsNoExtension(b, a);
    }
  }
}
