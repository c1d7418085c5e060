/** Insertion and deletion with splitting and merging: each refines the update of a finite map and
    keeps the canonical form. */
module TrieUpdates {
  import opened Basics
  import opened Nibbles
  import opened Tries

  /** The length of the longest common prefix, from position `i` on. */
  function Common(a: Path, b: Path, i: nat): (n: nat)
    requires i <= |a| && i <= |b|
    ensures i <= n <= |a| && n <= |b|
    ensures n < |a| && n < |b| ==> a[n] != b[n]
    ensures forall j :: i <= j < n ==> a[j] == b[j]
    decreases |a| - i
  {
    if i == |a| || i == |b| || a[i] != b[i] then i else Common(a, b, i + 1)
  }

  const NO_CHILDREN: seq<Child> :=
    [Null, Null, Null, Null, Null, Null, Null, Null, Null, Null, Null, Null, Null, Null, Null, Null]

  /** A subtree under a longer path: a branch needs an extension, the others take a longer key. */
  function Join(p: Path, t: Trie): Trie {
    if p == [] then t
    else
      match t
      case Leaf(key, value) => Leaf(p + key, value)
      case Branch(_, _) => Extension(p, t)
      case Extension(key, child) => Extension(p + key, child)
  }

  function Wrap(p: Path, t: Trie): Trie {
    if p == [] then t else Extension(p, t)
  }

  lemma FindJoin(p: Path, t: Trie, k: Path)
    ensures Find(Join(p, t), k) == if p <= k then Find(t, k[|p|..]) else []
  {
    if p != [] && !t.Branch? {
      if p + t.key <= k {
        assert p <= k && t.key <= k[|p|..];
        assert k[|p|..][|t.key|..] == k[|p + t.key|..];
      }
      if t.Leaf? && p <= k { assert p + t.key == k <==> t.key == k[|p|..]; }
    }
  }

  lemma FindWrap(p: Path, t: Trie, k: Path)
    ensures Find(Wrap(p, t), k) == if p <= k then Find(t, k[|p|..]) else []
  {
  }

  lemma JoinCanonical(p: Path, t: Trie)
    requires Canonical(t)
    ensures Canonical(Join(p, t))
  {
  }

  // ----- insertion -----

  /** A new branch with one path below it, or a value when the path is used up. */
  function Hang(children: seq<Child>, value: Bytes, rest: Path, t: Trie, v: Bytes): (r: (seq<Child>, Bytes))
    requires |children| == 16
    ensures |r.0| == 16
  {
    if rest == [] then (children, v) else (children[rest[0] := Owned(t)], value)
  }

  /** A branch with two paths below it. */
  function Forked(a: Path, va: Bytes, b: Path, vb: Bytes): Trie {
    var b1 := Hang(NO_CHILDREN, [], a, Leaf(if a == [] then [] else a[1..], va), va);
    var b2 := Hang(b1.0, b1.1, b, Leaf(if b == [] then [] else b[1..], vb), vb);
    Branch(b2.0, b2.1)
  }

  function SplitLeaf(key: Path, value: Bytes, k: Path, v: Bytes): Trie {
    var n := Common(k, key, 0);
    Wrap(k[..n], Forked(k[n..], v, key[n..], value))
  }

  /** The search left the extension, so its key is not used up. */
  lemma ForkInside(key: Path, k: Path)
    requires !(key <= k)
    ensures Common(k, key, 0) < |key|
  {
  }

  function SplitExtension(key: Path, child: Trie, k: Path, v: Bytes): Trie
    requires !(key <= k)
  {
    var n := Common(k, key, 0);
    ForkInside(key, k);
    var b1 := NO_CHILDREN[key[n] := Owned(Join(key[n + 1..], child))];
    var rest := k[n..];
    var b2 := Hang(b1, [], rest, Leaf(if rest == [] then [] else rest[1..], v), v);
    Wrap(k[..n], Branch(b2.0, b2.1))
  }

  function Put(t: Trie, k: Path, v: Bytes): Trie
    decreases t
  {
    match t
    case Leaf(key, value) => if key == k then Leaf(key, v) else SplitLeaf(key, value, k, v)
    case Branch(children, value) =>
      if k == [] then Branch(children, v)
      else if k[0] >= |children| then t
      else
        var c := children[k[0]];
        Branch(children[k[0] := Owned(if c.Null? then Leaf(k[1..], v) else Put(c.node, k[1..], v))], value)
    case Extension(key, child) =>
      if key <= k then Extension(key, Put(child, k[|key|..], v)) else SplitExtension(key, child, k, v)
  }

  /** The paths below a fresh branch with two entries that part at once. */
  lemma FindForked(t: Trie, n: nat, k: Path, k': Path)
    requires n <= |k| && t.Branch?
    ensures Find(Wrap(k[..n], t), k') == if k[..n] <= k' then Find(t, k'[n..]) else []
  {
    FindWrap(k[..n], t, k');
  }

  /** Different paths part right after what they share. */
  lemma Parting(k: Path, key: Path)
    requires key != k
    ensures
      var n := Common(k, key, 0);
      var a, b := k[n..], key[n..];
      k[..n] == key[..n] && a != b && (a == [] || b == [] || a[0] != b[0])
  {
    PartingAt(k, key, Common(k, key, 0));
  }

  lemma PartingAt(k: Path, key: Path, n: nat)
    requires key != k && n <= |k| && n <= |key| && (n < |k| && n < |key| ==> k[n] != key[n])
    requires forall j :: 0 <= j < n ==> k[j] == key[j]
    ensures
      var a, b := k[n..], key[n..];
      k[..n] == key[..n] && a != b && (a == [] || b == [] || a[0] != b[0])
  {
    assert k == k[..n] + k[n..] && key == key[..n] + key[n..];
  }

  lemma SharedPrefix(k: Path, k': Path, n: nat)
    requires n <= |k| && k[..n] <= k'
    ensures k' == k <==> k'[n..] == k[n..]
  {
    assert k == k[..n] + k[n..] && k' == k[..n] + k'[n..];
  }

  lemma SplitLeafFinds(key: Path, value: Bytes, k: Path, v: Bytes, k': Path)
    requires key != k
    ensures Find(SplitLeaf(key, value, k, v), k') == if k' == k then v else if k' == key then value else []
  {
    var n := Common(k, key, 0);
    Parting(k, key);
    FindForked(Forked(k[n..], v, key[n..], value), n, k, k');
    if k[..n] <= k' {
      SharedPrefix(k, k', n);
      SharedPrefix(key, k', n);
      ForkFinds(k[n..], v, key[n..], value, k'[n..]);
    }
  }

  /** Two paths that part at once, below a branch. */
  lemma ForkFinds(a: Path, va: Bytes, b: Path, vb: Bytes, k: Path)
    requires (a == [] || b == [] || a[0] != b[0]) && a != b
    ensures Find(Forked(a, va, b, vb), k) == if k == a then va else if k == b then vb else []
  {
    if k != [] {
      assert a != [] && k[0] == a[0] ==> (k == a <==> k[1..] == a[1..]);
      assert b != [] && k[0] == b[0] ==> (k == b <==> k[1..] == b[1..]);
    }
  }

  /** A new path beside a subtree, below a branch. */
  lemma BesideFinds(c: Nibble, below: Trie, rest: Path, v: Bytes, k: Path)
    requires rest == [] || rest[0] != c
    ensures
      var b := Hang(NO_CHILDREN[c := Owned(below)], [], rest, Leaf(if rest == [] then [] else rest[1..], v), v);
      Find(Branch(b.0, b.1), k) == if k == rest then v else if StartsWith(k, c) then Find(below, k[1..]) else []
  {
    if k != [] && rest != [] && k[0] == rest[0] { assert k == rest <==> k[1..] == rest[1..]; }
  }

  lemma SplitExtensionFinds(key: Path, child: Trie, k: Path, v: Bytes, k': Path)
    requires !(key <= k)
    ensures Find(SplitExtension(key, child, k, v), k') == if k' == k then v else Find(Extension(key, child), k')
  {
    var n := Common(k, key, 0);
    ForkInside(key, k);
    var below := Join(key[n + 1..], child);
    var b := Hang(NO_CHILDREN[key[n] := Owned(below)], [], k[n..], Leaf(if k[n..] == [] then [] else k[n..][1..], v), v);
    FindForked(Branch(b.0, b.1), n, k, k');
    assert key[..n] == k[..n];
    if k[..n] <= k' {
      SharedPrefix(k, k', n);
      BesideFinds(key[n], below, k[n..], v, k'[n..]);
      BesideExtension(key, child, k', n);
    } else {
      assert !(key <= k');
    }
  }

  /** What is left of an extension below the fork. */
  lemma BesideExtension(key: Path, child: Trie, k': Path, n: nat)
    requires n < |key| && key[..n] <= k'
    ensures Find(Extension(key, child), k')
         == if StartsWith(k'[n..], key[n]) then Find(Join(key[n + 1..], child), k'[n..][1..]) else []
  {
    if StartsWith(k'[n..], key[n]) {
      FindJoin(key[n + 1..], child, k'[n..][1..]);
      PastFork(key, k', n);
    } else {
      assert !(key <= k');
    }
  }

  lemma PastFork(key: Path, k': Path, n: nat)
    requires n < |key| && n < |k'| && key[..n] == k'[..n] && key[n] == k'[n]
    ensures key <= k' <==> key[n + 1..] <= k'[n..][1..]
    ensures key <= k' ==> k'[n..][1..][|key[n + 1..]|..] == k'[|key|..]
  {
    assert k'[n..][1..] == k'[n + 1..];
    assert key == key[..n] + [key[n]] + key[n + 1..];
    assert k' == k'[..n] + [k'[n]] + k'[n + 1..];
  }

  /** Insertion is the update of the map at one path. */
  lemma {:induction false} PutFinds(t: Trie, k: Path, v: Bytes, k': Path)
    requires Canonical(t)
    ensures Find(Put(t, k, v), k') == if k' == k then v else Find(t, k')
    decreases t
  {
    match t
    case Leaf(key, value) =>
      if key != k { SplitLeafFinds(key, value, k, v, k'); }
    case Branch(children, value) =>
      if k != [] && k' != [] && k'[0] == k[0] {
        assert k' == k <==> k'[1..] == k[1..];
        if children[k[0]].Owned? { PutFinds(children[k[0]].node, k[1..], v, k'[1..]); }
      }
    case Extension(key, child) =>
      if key <= k {
        if key <= k' {
          assert k' == k <==> k'[|key|..] == k[|key|..] by {
            assert k == key + k[|key|..] && k' == key + k'[|key|..];
          }
          PutFinds(child, k[|key|..], v, k'[|key|..]);
        }
      } else {
        SplitExtensionFinds(key, child, k, v, k');
      }
  }

  lemma OccupiedPut(children: seq<Child>, i: nat, t: Trie)
    requires i < |children|
    ensures Occupied(children[i := Owned(t)]) == Occupied(children) + {i}
  {
  }

  lemma OccupiedNull(children: seq<Child>, i: nat)
    requires i < |children|
    ensures Occupied(children[i := Null]) == Occupied(children) - {i}
  {
  }

  /** A branch is canonical when its children are, and it has two entries. */
  lemma BranchCanonical(children: seq<Child>, value: Bytes)
    requires |children| == 16 && forall i :: 0 <= i < 16 && children[i].Owned? ==> Canonical(children[i].node)
    requires |Occupied(children)| + (if value == [] then 0 else 1) >= 2
    ensures Canonical(Branch(children, value))
  {
  }

  /** One more path below a branch is one more entry. */
  lemma HangAdds(children: seq<Child>, value: Bytes, rest: Path, v: Bytes)
    requires |children| == 16 && v != [] && (if rest == [] then value == [] else children[rest[0]].Null?)
    requires forall i :: 0 <= i < 16 && children[i].Owned? ==> Canonical(children[i].node)
    ensures
      var r := Hang(children, value, rest, Leaf(if rest == [] then [] else rest[1..], v), v);
      && |Occupied(r.0)| + (if r.1 == [] then 0 else 1) == |Occupied(children)| + (if value == [] then 0 else 1) + 1
      && forall i :: 0 <= i < 16 && r.0[i].Owned? ==> Canonical(r.0[i].node)
  {
    if rest != [] { OccupiedPut(children, rest[0], Leaf(rest[1..], v)); }
  }

  lemma ForkCanonical(a: Path, va: Bytes, b: Path, vb: Bytes)
    requires (a == [] || b == [] || a[0] != b[0]) && a != b && va != [] && vb != []
    ensures Canonical(Forked(a, va, b, vb))
  {
    var b1 := Hang(NO_CHILDREN, [], a, Leaf(if a == [] then [] else a[1..], va), va);
    assert Occupied(NO_CHILDREN) == {};
    HangAdds(NO_CHILDREN, [], a, va);
    HangAdds(b1.0, b1.1, b, vb);
    var b2 := Hang(b1.0, b1.1, b, Leaf(if b == [] then [] else b[1..], vb), vb);
    BranchCanonical(b2.0, b2.1);
  }

  lemma SplitLeafCanonical(key: Path, value: Bytes, k: Path, v: Bytes)
    requires key != k && v != [] && value != []
    ensures Canonical(SplitLeaf(key, value, k, v))
  {
    var n := Common(k, key, 0);
    Parting(k, key);
    ForkCanonical(k[n..], v, key[n..], value);
    WrapCanonical(k[..n], Forked(k[n..], v, key[n..], value));
  }

  lemma WrapCanonical(key: Path, t: Trie)
    requires Canonical(t) && t.Branch?
    ensures Canonical(Wrap(key, t))
  {
  }

  lemma BesideCanonical(c: Nibble, below: Trie, rest: Path, v: Bytes)
    requires (rest == [] || rest[0] != c) && Canonical(below) && v != []
    ensures
      var b := Hang(NO_CHILDREN[c := Owned(below)], [], rest, Leaf(if rest == [] then [] else rest[1..], v), v);
      Canonical(Branch(b.0, b.1))
  {
    var one := NO_CHILDREN[c := Owned(below)];
    assert Occupied(NO_CHILDREN) == {};
    OccupiedPut(NO_CHILDREN, c, below);
    HangAdds(one, [], rest, v);
    var b := Hang(one, [], rest, Leaf(if rest == [] then [] else rest[1..], v), v);
    BranchCanonical(b.0, b.1);
  }

  lemma SplitExtensionCanonical(key: Path, child: Trie, k: Path, v: Bytes)
    requires !(key <= k) && v != [] && Canonical(child)
    ensures Canonical(SplitExtension(key, child, k, v))
  {
    var n := Common(k, key, 0);
    ForkInside(key, k);
    JoinCanonical(key[n + 1..], child);
    BesideCanonical(key[n], Join(key[n + 1..], child), k[n..], v);
  }

  /** Insertion keeps the canonical form, and never turns a branch into something else. */
  lemma {:induction false} PutCanonical(t: Trie, k: Path, v: Bytes)
    requires Canonical(t) && v != []
    ensures Canonical(Put(t, k, v)) && (t.Branch? ==> Put(t, k, v).Branch?)
    decreases t
  {
    match t
    case Leaf(key, value) =>
      if key != k { SplitLeafCanonical(key, value, k, v); }
    case Branch(children, value) =>
      if k != [] {
        var c := children[k[0]];
        var t' := if c.Null? then Leaf(k[1..], v) else Put(c.node, k[1..], v);
        if c.Owned? { PutCanonical(c.node, k[1..], v); }
        OccupiedPut(children, k[0], t');
        SubsetSize(Occupied(children), Occupied(children[k[0] := Owned(t')]));
      }
    case Extension(key, child) =>
      if key <= k { PutCanonical(child, k[|key|..], v); } else { SplitExtensionCanonical(key, child, k, v); }
  }

  // ----- deletion -----

  /** The first child from position `i` on. */
  function First(children: seq<Child>, i: nat): (r: nat)
    requires i <= |children|
    ensures r < |children| ==> children[r].Owned?
    ensures r >= |children| ==> forall j :: i <= j < |children| ==> children[j].Null?
    decreases |children| - i
  {
    if i == |children| || children[i].Owned? then i else First(children, i + 1)
  }

  /** The only child, if there is exactly one. */
  function OnlyChild(children: seq<Child>): (r: nat)
    ensures r < |children| <==> |Occupied(children)| == 1
    ensures r < |children| ==> children[r].Owned? && Occupied(children) == {r}
  {
    var i := First(children, 0);
    if |Occupied(children)| == 1 then
      assert exists j :: j in Occupied(children);
      SingletonOnly(Occupied(children), i);
      i
    else |children|
  }

  lemma SingletonOnly(s: set<nat>, i: nat)
    requires i in s && |s| < 2
    ensures s == {i}
  {
    assert |s - {i}| == 0;
  }

  /** What is left of a branch that lost an entry. */
  function Collapse(children: seq<Child>, value: Bytes): Trie
    requires |children| == 16
  {
    if value == [] && OnlyChild(children) < 16 then Join([OnlyChild(children)], children[OnlyChild(children)].node)
    else if value != [] && Occupied(children) == {} then Leaf([], value)
    else Branch(children, value)
  }

  /** The trie without a path; `Null` when nothing is left. */
  function Del(t: Trie, k: Path): Child
    requires Canonical(t)
    decreases t
  {
    match t
    case Leaf(key, _) => if key == k then Null else Owned(t)
    case Branch(children, value) =>
      if k == [] then Owned(Collapse(children, []))
      else
        var c := ChildAt(children, k[0]);
        if c.Null? then Owned(t)
        else
          var d := Del(c.node, k[1..]);
          if d.Null? then Owned(Collapse(children[k[0] := Null], value))
          else Owned(Branch(children[k[0] := d], value))
    case Extension(key, child) =>
      if !(key <= k) then Owned(t)
      else
        var d := Del(child, k[|key|..]);
        if d.Null? then Null else Owned(Join(key, d.node))
  }

  lemma CollapseFinds(children: seq<Child>, value: Bytes, k: Path)
    requires |children| == 16
    ensures Find(Collapse(children, value), k) == Find(Branch(children, value), k)
  {
    var i := OnlyChild(children);
    if value == [] && i < 16 {
      FindJoin([i], children[i].node, k);
      if k != [] && k[0] != i { assert k[0] !in Occupied(children); }
      assert [i] <= k <==> k != [] && k[0] == i;
    } else if value != [] && Occupied(children) == {} {
      if k != [] { assert k[0] !in Occupied(children); }
    }
  }

  lemma CollapseCanonical(children: seq<Child>, value: Bytes)
    requires |children| == 16 && forall i :: 0 <= i < 16 && children[i].Owned? ==> Canonical(children[i].node)
    requires value != [] || Occupied(children) != {}
    ensures Canonical(Collapse(children, value))
  {
    var i := OnlyChild(children);
    if value == [] && i < 16 { JoinCanonical([i], children[i].node); }
  }

  /** Deletion is the removal of one path from the map. */
  lemma {:induction false} DelFinds(t: Trie, k: Path, k': Path)
    requires Canonical(t)
    ensures Del(t, k).Null? ==> (k' != k ==> Find(t, k') == [])
    ensures Del(t, k).Owned? ==> Find(Del(t, k).node, k') == if k' == k then [] else Find(t, k')
    ensures t.Branch? ==> Del(t, k).Owned?
    decreases t
  {
    match t
    case Leaf(_, _) =>
    case Branch(children, value) =>
      if k == [] {
        CollapseFinds(children, [], k');
      } else if children[k[0]].Owned? {
        var c := children[k[0]];
        var d := Del(c.node, k[1..]);
        CollapseFinds(children[k[0] := Null], value, k');
        if k' != [] && k'[0] == k[0] {
          assert k' == k <==> k'[1..] == k[1..];
          DelFinds(c.node, k[1..], k'[1..]);
        }
      }
    case Extension(key, child) =>
      if key <= k {
        DelFinds(child, k[|key|..], if key <= k' then k'[|key|..] else []);
        FindJoin(key, Del(child, k[|key|..]).node, k');
        assert key <= k' ==> (k' == k <==> k'[|key|..] == k[|key|..]) by {
          assert k == key + k[|key|..] && (key <= k' ==> k' == key + k'[|key|..]);
        }
      }
  }

  /** Deletion keeps the canonical form. */
  lemma {:induction false} DelCanonical(t: Trie, k: Path)
    requires Canonical(t)
    ensures Del(t, k).Owned? ==> Canonical(Del(t, k).node)
    ensures t.Branch? ==> Del(t, k).Owned?
    decreases t
  {
    match t
    case Leaf(_, _) =>
    case Branch(children, value) =>
      var s := Occupied(children);
      if k == [] {
        assert s != {};
        CollapseCanonical(children, []);
      } else if children[k[0]].Owned? {
        DelCanonical(children[k[0]].node, k[1..]);
        var d := Del(children[k[0]].node, k[1..]);
        OccupiedNull(children, k[0]);
        if d.Null? {
          assert value != [] || s - {k[0]} != {} by {
            if value == [] { var i := TwoElements(s, k[0]); assert i in s - {k[0]}; }
          }
          CollapseCanonical(children[k[0] := Null], value);
        } else {
          OccupiedPut(children, k[0], d.node);
          assert s + {k[0]} == s;
        }
      }
    case Extension(key, child) =>
      if key <= k {
        DelCanonical(child, k[|key|..]);
        JoinCanonical(key, Del(child, k[|key|..]).node);
      }
  }

  /** Deleting what is not there changes nothing. */
  lemma {:induction false} DelAbsent(t: Trie, k: Path)
    requires Canonical(t) && Find(t, k) == []
    ensures Del(t, k) == Owned(t)
  {
    DelFinds(t, k, k);
    if Del(t, k).Null? {
      var w := Witness(t);
      DelFinds(t, k, w);
      assert false;
    }
    DelCanonical(t, k);
    forall k': Path ensures Find(Del(t, k).node, k') == Find(t, k') { DelFinds(t, k, k'); }
    CanonicalUnique(Del(t, k).node, t);
  }
}
