/** The static Merkle tree dumped once per epoch. Hashing is symbolic: distinct inputs have
    distinct digests, and a digest is neither a plain word nor the digest of nothing. */
module Merkle {
  import opened Bits

  datatype H256<L> =
    | Word(n: nat)                       // a plain 256-bit word; the default is Word(0)
    | KeccakEmpty                        // the digest of the empty string
    | Combined(l: H256<L>, r: H256<L>)   // the digest of two concatenated hashes
    | Digest(leaf: L)                    // the digest of a leaf's serialization

  /** The exponent of the next power of two. */
  function Depth(len: nat): nat {
    if len <= 1 then 0 else 1 + Depth((len + 1) / 2)
  }

  lemma {:induction false} DepthIsNextPower(len: nat)
    ensures len <= Pow2(Depth(len)) && (Depth(len) > 0 ==> Pow2(Depth(len) - 1) < len)
  {
    if len > 1 { DepthIsNextPower((len + 1) / 2); }
  }

  // ----- levels -----

  function Sibling<L>(level: seq<H256<L>>, i: nat): H256<L> {
    if i < |level| then level[i] else KeccakEmpty
  }

  /** One level up: pairs are combined, an odd one out is paired with the padding. */
  function LevelUp<L>(level: seq<H256<L>>): (up: seq<H256<L>>)
    ensures |up| == (|level| + 1) / 2
  {
    seq((|level| + 1) / 2, i requires 0 <= i < (|level| + 1) / 2 => Combined(level[2 * i], Sibling(level, 2 * i + 1)))
  }

  /** All levels, from the leaves to the root. */
  function Levels<L>(leaves: seq<H256<L>>): (levels: seq<seq<H256<L>>>)
    ensures |levels| == Depth(|leaves|) + 1 && levels[0] == leaves
    decreases |leaves|
  {
    if |leaves| <= 1 then [leaves] else [leaves] + Levels(LevelUp(leaves))
  }

  lemma LevelsTail<L>(leaves: seq<H256<L>>)
    requires |leaves| > 1
    ensures Levels(leaves)[1..] == Levels(LevelUp(leaves))
  {
  }

  /** The root hash; an epoch without leaves has the default root. */
  function Root<L>(leaves: seq<H256<L>>): H256<L>
    decreases |leaves|
  {
    if leaves == [] then Word(0) else if |leaves| == 1 then leaves[0] else Root(LevelUp(leaves))
  }

  lemma {:induction false} LevelsStep<L>(leaves: seq<H256<L>>, h: nat)
    requires h + 1 < |Levels(leaves)|
    ensures Levels(leaves)[h + 1] == LevelUp(Levels(leaves)[h])
    decreases h
  {
    if h == 0 {
      LevelsTail(leaves);
    } else {
      LevelsTail(leaves);
      LevelsStep(LevelUp(leaves), h - 1);
    }
  }

  lemma {:induction false} TopLevel<L>(leaves: seq<H256<L>>)
    ensures Levels(leaves)[|Levels(leaves)| - 1] == if leaves == [] then [] else [Root(leaves)]
    decreases |leaves|
  {
    if |leaves| > 1 { TopLevel(LevelUp(leaves)); }
  }

  /** A level never outgrows its slots. */
  lemma {:induction false} LevelWidth<L>(leaves: seq<H256<L>>, h: nat)
    requires h < |Levels(leaves)|
    ensures |Levels(leaves)[h]| <= Pow2(|Levels(leaves)| - 1 - h)
    decreases h
  {
    if h == 0 {
      DepthIsNextPower(|leaves|);
    } else {
      LevelsTail(leaves);
      LevelWidth(LevelUp(leaves), h - 1);
    }
  }

  // ----- dump -----

  function Lookup<L>(entries: map<nat, H256<L>>, k: nat): H256<L> {
    if k in entries then entries[k] else Word(0)
  }

  /** Level `h` above the leaves occupies the slots from 2^(depth - h) on. */
  ghost predicate StoredAt<L>(entries: map<nat, H256<L>>, levels: seq<seq<H256<L>>>, h: nat, i: nat)
    requires h < |levels|
  {
    i < Pow2(|levels| - 1 - h) ==>
      Lookup(entries, Pow2(|levels| - 1 - h) + i) == if i < |levels[h]| then levels[h][i] else Word(0)
  }

  ghost predicate LevelStored<L>(entries: map<nat, H256<L>>, levels: seq<seq<H256<L>>>, h: nat)
    requires h < |levels|
  {
    forall i: nat :: StoredAt(entries, levels, h, i)
  }

  /** What an epoch's dump leaves in the store. */
  ghost predicate Stores<L>(entries: map<nat, H256<L>>, leaves: seq<H256<L>>) {
    && Lookup(entries, 0) == Word(Depth(|leaves|))
    && forall h: nat :: h <= Depth(|leaves|) ==> LevelStored(entries, Levels(leaves), h)
  }

  /** The levels below height `h` are in place, and the slots above are untouched. */
  ghost predicate StoredBelow<L>(entries: map<nat, H256<L>>, levels: seq<seq<H256<L>>>, h: nat)
    requires h <= |levels|
  {
    && (forall g: nat :: g < h ==> LevelStored(entries, levels, g))
    && (forall k: nat :: k < Pow2(|levels| - h) ==> Lookup(entries, k) == Word(0))
  }

  ghost predicate Written<L>(entries: map<nat, H256<L>>, entries': map<nat, H256<L>>, level: seq<H256<L>>, slot: nat, n: nat)
    requires n <= |level|
  {
    forall k: nat :: Lookup(entries', k) == if slot <= k < slot + n then level[k - slot] else Lookup(entries, k)
  }

  lemma WrittenStores<L>(entries: map<nat, H256<L>>, entries': map<nat, H256<L>>, levels: seq<seq<H256<L>>>, h: nat)
    requires h < |levels| && |levels[h]| <= Pow2(|levels| - 1 - h) && StoredBelow(entries, levels, h)
    requires Written(entries, entries', levels[h], Pow2(|levels| - 1 - h), |levels[h]|)
    ensures StoredBelow(entries', levels, h + 1)
  {
    var slot := Pow2(|levels| - 1 - h);
    assert Pow2(|levels| - h) == 2 * slot;
    assert LevelStored(entries', levels, h);
    forall g: nat | g < h ensures LevelStored(entries', levels, g) {
      forall i: nat ensures StoredAt(entries', levels, g, i) {
        assert LevelStored(entries, levels, g) && StoredAt(entries, levels, g, i);
        Pow2Mono(|levels| - h, |levels| - 1 - g);
      }
    }
  }

  /** Pads an odd level and combines it pairwise. */
  method CombineLevel<L>(level: seq<H256<L>>) returns (up: seq<H256<L>>)
    ensures up == LevelUp(level)
  {
    var padded := level;
    if |padded| % 2 != 0 { padded := padded + [KeccakEmpty]; }
    up := [];
    var i := 0;
    while i < |padded| / 2
      invariant 0 <= i <= |padded| / 2 && |up| == i
      invariant forall j :: 0 <= j < i ==> up[j] == Combined(level[2 * j], Sibling(level, 2 * j + 1))
    {
      up := up + [Combined(padded[2 * i], padded[2 * i + 1])];
      i := i + 1;
    }
  }

  /** Stores one level and remembers the root when it is the top one. */
  method DumpLevel<L>(backend: map<nat, H256<L>>, thisLevel: seq<H256<L>>, level: nat, onlyRoot: bool)
    returns (backend': map<nat, H256<L>>, root: H256<L>)
    ensures onlyRoot ==> backend' == backend
    ensures !onlyRoot ==> Written(backend, backend', thisLevel, Pow2(level), |thisLevel|)
    ensures root == if level == 0 && thisLevel != [] then thisLevel[|thisLevel| - 1] else Word(0)
  {
    backend', root := backend, Word(0);
    var i := 0;
    while i < |thisLevel|
      invariant 0 <= i <= |thisLevel|
      invariant onlyRoot ==> backend' == backend
      invariant !onlyRoot ==> Written(backend, backend', thisLevel, Pow2(level), i)
      invariant root == if level == 0 && i > 0 then thisLevel[i - 1] else Word(0)
    {
      if !onlyRoot {
        ghost var before := backend';
        backend' := backend'[Pow2(level) + i := thisLevel[i]];
        assert forall k: nat :: Lookup(backend', k) == if k == Pow2(level) + i then thisLevel[i] else Lookup(before, k);
      }
      if level == 0 { root := thisLevel[i]; }
      i := i + 1;
    }
  }

  /** Dumps the leaves of an epoch; with `onlyRoot` no level is stored. */
  method Dump<L>(data: seq<H256<L>>, onlyRoot: bool) returns (backend: map<nat, H256<L>>, root: H256<L>)
    ensures root == Root(data)
    ensures !onlyRoot ==> Stores(backend, data)
    ensures onlyRoot ==> backend == map[0 := Word(Depth(|data|))]
  {
    ghost var levels := Levels(data);
    var depth := Depth(|data|);
    backend := map[];
    root := Word(0);
    var thisLevel := data;
    var level: int := depth;
    TopLevel(data);
    while level >= 0
      invariant -1 <= level <= depth
      invariant level >= 0 ==> thisLevel == levels[depth - level]
      invariant onlyRoot ==> backend == map[]
      invariant !onlyRoot ==> StoredBelow(backend, levels, depth - level)
      invariant level == -1 ==> root == Root(data)
      decreases level
    {
      ghost var before := backend;
      backend, root := DumpLevel(backend, thisLevel, level, onlyRoot);
      LevelDumped(data, before, backend, depth - level, onlyRoot);
      thisLevel := CombineLevel(thisLevel);
      level := level - 1;
    }
    if !onlyRoot { DepthEntry(backend, data); }
    backend := backend[0 := Word(depth)];
  }

  /** One level more is in place, and the next one up is its pairwise combination. */
  lemma LevelDumped<L>(data: seq<H256<L>>, before: map<nat, H256<L>>, after: map<nat, H256<L>>, h: nat, onlyRoot: bool)
    requires h < |Levels(data)|
    requires !onlyRoot ==>
      && StoredBelow(before, Levels(data), h)
      && Written(before, after, Levels(data)[h], Pow2(|Levels(data)| - 1 - h), |Levels(data)[h]|)
    ensures !onlyRoot ==> StoredBelow(after, Levels(data), h + 1)
    ensures h + 1 < |Levels(data)| ==> Levels(data)[h + 1] == LevelUp(Levels(data)[h])
  {
    LevelWidth(data, h);
    if !onlyRoot { WrittenStores(before, after, Levels(data), h); }
    if h + 1 < |Levels(data)| { LevelsStep(data, h); }
  }

  lemma DepthEntry<L>(entries: map<nat, H256<L>>, leaves: seq<H256<L>>)
    requires StoredBelow(entries, Levels(leaves), |Levels(leaves)|)
    ensures Stores(entries[0 := Word(Depth(|leaves|))], leaves)
  {
    var entries', levels := entries[0 := Word(Depth(|leaves|))], Levels(leaves);
    forall h: nat | h < |levels| ensures LevelStored(entries', levels, h) {
      forall i: nat ensures StoredAt(entries', levels, h, i) {
        assert LevelStored(entries, levels, h) && StoredAt(entries, levels, h, i);
      }
    }
  }

  // ----- proofs -----

  datatype Proof<L> = Proof(path: seq<H256<L>>, position: nat)

  /** The sibling path, bottom up; a slot that reads as the default counts as padding. */
  function PathOf<L>(entries: map<nat, H256<L>>, depth: nat, position: nat): (path: seq<H256<L>>)
    ensures |path| == depth
  {
    seq(depth, h requires 0 <= h < depth => PathEntry(entries, depth, position, h))
  }

  function PathEntry<L>(entries: map<nat, H256<L>>, depth: nat, position: nat, h: nat): H256<L>
    requires h < depth
  {
    var answer := Lookup(entries, Pow2(depth - h) + FlipLow(Shr(position, h)));
    if answer == Word(0) then KeccakEmpty else answer
  }

  /** `new` followed by `prove`: the depth is read back from the store. */
  method Prove<L>(entries: map<nat, H256<L>>, position: nat) returns (proof: Proof<L>)
    requires Lookup(entries, 0).Word?
    ensures proof == Proof(PathOf(entries, Lookup(entries, 0).n, position), position)
  {
    var total := Lookup(entries, 0).n;
    var proofs := [];
    var depth := total;
    while depth >= 1
      invariant 0 <= depth <= total && |proofs| == total - depth
      invariant forall h :: 0 <= h < |proofs| ==> proofs[h] == PathEntry(entries, total, position, h)
    {
      var height := total - depth;
      var index := Pow2(depth) + FlipLow(Shr(position, height));
      var answer := Lookup(entries, index);
      if answer == Word(0) { answer := KeccakEmpty; }
      proofs := proofs + [answer];
      depth := depth - 1;
    }
    assert proofs == PathOf(entries, total, position);
    proof := Proof(proofs, position);
  }

  /** Folds a path onto a hash. */
  function Fold<L>(hash: H256<L>, path: seq<H256<L>>, pos: nat): H256<L>
    decreases |path|
  {
    if path == [] then hash
    else Fold(Join(hash, path[0], pos), path[1..], pos / 2)
  }

  function Join<L>(hash: H256<L>, sibling: H256<L>, pos: nat): H256<L> {
    if pos % 2 == 0 then Combined(hash, sibling) else Combined(sibling, hash)
  }

  ghost predicate Verifies<L>(root: H256<L>, hash: H256<L>, proof: Proof<L>) {
    Fold(hash, proof.path, proof.position) == root
  }

  method Verify<L(==)>(root: H256<L>, hash: H256<L>, proof: Proof<L>) returns (ok: bool)
    ensures ok <==> Verifies(root, hash, proof)
  {
    var current, path := hash, proof.path;
    for index := 0 to |path|
      invariant Fold(current, path[index..], Shr(proof.position, index)) == Fold(hash, path, proof.position)
    {
      var rightAppend := Shr(proof.position, index) % 2 == 0;
      ShrAdd(proof.position, index, 1);
      assert path[index..][1..] == path[index + 1..];
      current := if rightAppend then Combined(current, path[index]) else Combined(path[index], current);
    }
    return current == root;
  }

  /** The true sibling path of a leaf. */
  ghost function SiblingPath<L>(leaves: seq<H256<L>>, pos: nat): (path: seq<H256<L>>)
    ensures |path| == Depth(|leaves|)
    decreases |leaves|
  {
    if |leaves| <= 1 then [] else [Sibling(leaves, FlipLow(pos))] + SiblingPath(LevelUp(leaves), pos / 2)
  }

  lemma ParentHash<L>(leaves: seq<H256<L>>, pos: nat)
    requires pos < |leaves|
    ensures pos / 2 < |LevelUp(leaves)|
    ensures LevelUp(leaves)[pos / 2] == Join(leaves[pos], Sibling(leaves, FlipLow(pos)), pos)
  {
  }

  lemma FoldStep<L>(hash: H256<L>, sibling: H256<L>, rest: seq<H256<L>>, pos: nat)
    ensures Fold(hash, [sibling] + rest, pos) == Fold(Join(hash, sibling, pos), rest, pos / 2)
  {
    assert ([sibling] + rest)[1..] == rest;
  }

  /** Folding a leaf along its siblings climbs to the root. */
  lemma {:induction false} FoldPath<L>(leaves: seq<H256<L>>, pos: nat)
    requires pos < |leaves|
    ensures Fold(leaves[pos], SiblingPath(leaves, pos), pos) == Root(leaves)
    decreases |leaves|
  {
    if |leaves| > 1 {
      FoldPath(LevelUp(leaves), pos / 2);
      ParentHash(leaves, pos);
      FoldStep(leaves[pos], Sibling(leaves, FlipLow(pos)), SiblingPath(LevelUp(leaves), pos / 2), pos);
    }
  }

  /** Combining is injective, so a fold determines the leaf and the path. */
  lemma {:induction false} FoldInjective<L>(a: H256<L>, b: H256<L>, p: seq<H256<L>>, q: seq<H256<L>>, pos: nat)
    requires |p| == |q| && Fold(a, p, pos) == Fold(b, q, pos)
    ensures a == b && p == q
    decreases |p|
  {
    if p != [] {
      FoldInjective(Join(a, p[0], pos), Join(b, q[0], pos), p[1..], q[1..], pos / 2);
      assert p == [p[0]] + p[1..] && q == [q[0]] + q[1..];
    }
  }

  /** Soundness: a proof of the tree's depth at a position in range is accepted exactly for the
      leaf at that position with its true siblings. */
  lemma AcceptedProofs<L>(leaves: seq<H256<L>>, hash: H256<L>, proof: Proof<L>)
    requires proof.position < |leaves| && |proof.path| == Depth(|leaves|)
    ensures Verifies(Root(leaves), hash, proof)
      <==> hash == leaves[proof.position] && proof.path == SiblingPath(leaves, proof.position)
  {
    FoldPath(leaves, proof.position);
    if Verifies(Root(leaves), hash, proof) {
      FoldInjective(hash, leaves[proof.position], proof.path, SiblingPath(leaves, proof.position), proof.position);
    }
  }

  /** The leaves under a hash, from left to right. */
  ghost function Fringe<L>(h: H256<L>): seq<L> {
    match h
    case Word(_) => []
    case KeccakEmpty => []
    case Combined(l, r) => Fringe(l) + Fringe(r)
    case Digest(x) => [x]
  }

  ghost function Fringes<L>(level: seq<H256<L>>): seq<L> {
    if level == [] then [] else Fringe(level[0]) + Fringes(level[1..])
  }

  lemma {:induction false} LevelUpInOrder<L>(level: seq<H256<L>>)
    ensures Fringes(LevelUp(level)) == Fringes(level)
    decreases |level|
  {
    if |level| >= 2 {
      LevelUpInOrder(level[2..]);
      assert LevelUp(level)[1..] == LevelUp(level[2..]) && LevelUp(level)[0] == Combined(level[0], level[1]);
      assert level[1..][1..] == level[2..] && level[1..][0] == level[1];
    } else if |level| == 1 {
      var up := LevelUp(level);
      assert up == [Combined(level[0], KeccakEmpty)];
      assert up[1..] == [] && level[1..] == [];
      assert Fringe(up[0]) == Fringe(level[0]) + [] == Fringe(level[0]);
      assert Fringes(up) == Fringe(up[0]) + Fringes(up[1..]);
      assert Fringes(level) == Fringe(level[0]) + Fringes(level[1..]);
    }
  }

  lemma {:induction false} RootFringe<L>(leaves: seq<H256<L>>)
    ensures Fringe(Root(leaves)) == Fringes(leaves)
    decreases |leaves|
  {
    if |leaves| > 1 {
      RootFringe(LevelUp(leaves));
      LevelUpInOrder(leaves);
    } else if |leaves| == 1 {
      assert leaves[1..] == [];
    }
  }

  /** The root holds the leaves in their order: first to last is left to right. */
  lemma {:induction false} RootInOrder<L>(leaves: seq<L>, hashes: seq<H256<L>>)
    requires |hashes| == |leaves| && forall i :: 0 <= i < |leaves| ==> hashes[i] == Digest(leaves[i])
    ensures Fringe(Root(hashes)) == leaves
  {
    RootFringe(hashes);
    DigestFringes(leaves, hashes);
  }

  lemma {:induction false} DigestFringes<L>(leaves: seq<L>, hashes: seq<H256<L>>)
    requires |hashes| == |leaves| && forall i :: 0 <= i < |leaves| ==> hashes[i] == Digest(leaves[i])
    ensures Fringes(hashes) == leaves
  {
    if leaves != [] { DigestFringes(leaves[1..], hashes[1..]); }
  }

  /** A leaf whose digest went into the hash. */
  ghost predicate MadeFrom<L>(h: H256<L>, leaf: L) {
    match h
    case Word(_) => false
    case KeccakEmpty => false
    case Combined(l, r) => MadeFrom(l, leaf) || MadeFrom(r, leaf)
    case Digest(x) => x == leaf
  }

  lemma {:induction false} FoldMadeFrom<L>(hash: H256<L>, path: seq<H256<L>>, pos: nat, leaf: L)
    requires MadeFrom(hash, leaf)
    ensures MadeFrom(Fold(hash, path, pos), leaf)
    decreases |path|
  {
    if path != [] { FoldMadeFrom(Join(hash, path[0], pos), path[1..], pos / 2, leaf); }
  }

  lemma {:induction false} RootMadeFrom<L>(leaves: seq<H256<L>>, leaf: L) returns (i: nat)
    requires MadeFrom(Root(leaves), leaf)
    ensures i < |leaves| && MadeFrom(leaves[i], leaf)
    decreases |leaves|
  {
    if |leaves| <= 1 {
      i := 0;
    } else {
      var j := RootMadeFrom(LevelUp(leaves), leaf);
      i := if MadeFrom(leaves[2 * j], leaf) then 2 * j else 2 * j + 1;
    }
  }

  /** Soundness at any length and position: whatever the path, only a leaf of the tree is accepted. */
  lemma AcceptedIsLeaf<L>(leaves: seq<L>, hashes: seq<H256<L>>, leaf: L, proof: Proof<L>) returns (i: nat)
    requires |hashes| == |leaves| && forall j :: 0 <= j < |leaves| ==> hashes[j] == Digest(leaves[j])
    requires Verifies(Root(hashes), Digest(leaf), proof)
    ensures i < |leaves| && leaves[i] == leaf
  {
    FoldMadeFrom(Digest(leaf), proof.path, proof.position, leaf);
    i := RootMadeFrom(hashes, leaf);
  }

  /** The true path, level by level. */
  lemma {:induction false} PathLevels<L>(leaves: seq<H256<L>>, pos: nat, h: nat)
    requires h < Depth(|leaves|)
    ensures SiblingPath(leaves, pos)[h] == Sibling(Levels(leaves)[h], FlipLow(Shr(pos, h)))
    decreases h
  {
    if h > 0 {
      PathLevels(LevelUp(leaves), pos / 2, h - 1);
      LevelsTail(leaves);
    }
  }

  /** Above the leaves no stored hash is the default word. */
  lemma UpperLevelsNonZero<L>(leaves: seq<H256<L>>, h: nat, i: nat)
    requires 1 <= h < |Levels(leaves)| && i < |Levels(leaves)[h]|
    ensures Levels(leaves)[h][i] != Word(0)
  {
    LevelsStep(leaves, h - 1);
  }

  /** The ancestor of a leaf in range has a sibling slot in range. */
  lemma {:induction false} PositionInLevel(len: nat, pos: nat, h: nat)
    requires pos < len && h < Depth(len)
    ensures FlipLow(Shr(pos, h)) < Pow2(Depth(len) - h)
    decreases h
  {
    if h > 0 {
      PositionInLevel((len + 1) / 2, pos / 2, h - 1);
    } else {
      DepthIsNextPower(len);
      FlipBound(pos, Depth(len));
    }
  }

  lemma FlipBound(x: nat, d: nat)
    requires d >= 1 && x < Pow2(d)
    ensures FlipLow(x) < Pow2(d)
  {
    assert Pow2(d) == 2 * Pow2(d - 1);
  }

  lemma EntryRead<L>(entries: map<nat, H256<L>>, levels: seq<seq<H256<L>>>, h: nat, i: nat)
    requires h < |levels| && LevelStored(entries, levels, h) && i < Pow2(|levels| - 1 - h)
    ensures
      var answer, truth := Lookup(entries, Pow2(|levels| - 1 - h) + i), Sibling(levels[h], i);
      (if answer == Word(0) then KeccakEmpty else answer) == if truth == Word(0) then KeccakEmpty else truth
  {
    assert StoredAt(entries, levels, h, i);
  }

  /** What a path entry read back from the store is, against the true sibling. */
  lemma PathEntryRead<L>(entries: map<nat, H256<L>>, leaves: seq<H256<L>>, pos: nat, h: nat)
    requires Stores(entries, leaves) && pos < |leaves| && h < Depth(|leaves|)
    ensures
      var truth := SiblingPath(leaves, pos)[h];
      PathEntry(entries, Depth(|leaves|), pos, h) == if truth == Word(0) then KeccakEmpty else truth
  {
    PathLevels(leaves, pos, h);
    PositionInLevel(|leaves|, pos, h);
    assert LevelStored(entries, Levels(leaves), h);
    EntryRead(entries, Levels(leaves), h, FlipLow(Shr(pos, h)));
  }

  /** Completeness, exactly: a dumped leaf's proof verifies if and only if the neighbouring
      leaf, when there is one, is not the all-zero word, which the store cannot tell from an
      absent entry. */
  lemma ProofVerifies<L>(entries: map<nat, H256<L>>, leaves: seq<H256<L>>, pos: nat)
    requires Stores(entries, leaves) && pos < |leaves|
    ensures
      Verifies(Root(leaves), leaves[pos], Proof(PathOf(entries, Depth(|leaves|), pos), pos))
      <==> (FlipLow(pos) < |leaves| ==> leaves[FlipLow(pos)] != Word(0))
  {
    var depth := Depth(|leaves|);
    var path, truth := PathOf(entries, depth, pos), SiblingPath(leaves, pos);
    AcceptedProofs(leaves, leaves[pos], Proof(path, pos));
    forall h | 0 <= h < depth
      ensures path[h] == if truth[h] == Word(0) then KeccakEmpty else truth[h]
      ensures h >= 1 ==> truth[h] != Word(0)
    {
      PathEntryRead(entries, leaves, pos, h);
      PathLevels(leaves, pos, h);
      var i := FlipLow(Shr(pos, h));
      if h >= 1 && i < |Levels(leaves)[h]| { UpperLevelsNonZero(leaves, h, i); }
    }
    if depth == 0 {
      assert |leaves| == 1;
    } else {
      assert truth[0] == Sibling(leaves, FlipLow(pos));
      if truth[0] != Word(0) { assert path == truth; }
    }
  }
}
