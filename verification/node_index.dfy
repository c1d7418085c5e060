/** Positions of inner nodes of an AMT, and which of them a proof shard maintains. */
module NodeIndices {
  import opened Bits

  datatype NodeIndex = NodeIndex(depth: nat, index: nat)

  const ROOT := NodeIndex(0, 0)

  predicate InTree(n: NodeIndex, depths: nat) {
    n.depth <= depths && n.index < Pow2(n.depth)
  }

  function ToSibling(n: NodeIndex): NodeIndex {
    NodeIndex(n.depth, FlipLow(n.index))
  }

  function ToAncestor(n: NodeIndex, height: nat): NodeIndex
    requires height <= n.depth
  {
    NodeIndex(n.depth - height, Shr(n.index, height))
  }

  predicate NeedsMaintain(n: NodeIndex, shard: NodeIndex) {
    if n == ROOT then
      true
    else if n.depth > shard.depth then
      Shr(n.index, n.depth - shard.depth) == shard.index
    else
      FlipLow(n.index) == Shr(shard.index, shard.depth - n.depth)
  }

  /** The leaf lies below the shard root. */
  predicate Below(leaf: NodeIndex, shard: NodeIndex)
    requires shard.depth <= leaf.depth
  {
    ToAncestor(leaf, leaf.depth - shard.depth) == shard
  }

  /** `n` is the sibling that a proof for `leaf` opens at the depth of `n`. */
  predicate OpenedBy(n: NodeIndex, leaf: NodeIndex)
    requires n.depth <= leaf.depth
  {
    n.depth >= 1 && n == ToSibling(ToAncestor(leaf, leaf.depth - n.depth))
  }

  lemma FlipInvolution(x: nat)
    ensures FlipLow(FlipLow(x)) == x && FlipLow(x) / 2 == x / 2
  {
  }

  /** Ancestors compose. */
  lemma AncestorChain(n: NodeIndex, a: nat, b: nat)
    requires a + b <= n.depth
    ensures ToAncestor(ToAncestor(n, a), b) == ToAncestor(n, a + b)
  {
    ShrAdd(n.index, a, b);
  }

  /** Siblings share every proper ancestor. */
  lemma SiblingAncestor(n: NodeIndex, height: nat)
    requires 1 <= height <= n.depth
    ensures ToAncestor(ToSibling(n), height) == ToAncestor(n, height)
  {
    FlipInvolution(n.index);
  }

  /** The leftmost leaf under a node. */
  function FirstLeaf(n: NodeIndex, depths: nat): (leaf: NodeIndex)
    requires InTree(n, depths)
    ensures leaf.depth == depths && InTree(leaf, depths) && Below(leaf, n)
  {
    ShlBound(n.index, n.depth, depths - n.depth);
    ShrShl(n.index, depths - n.depth);
    NodeIndex(depths, Shl(n.index, depths - n.depth))
  }

  /** Shard maintenance is exact: the root, and precisely the siblings that proofs of the
      leaves under the shard root open. */
  lemma MaintainExact(n: NodeIndex, shard: NodeIndex, depths: nat)
    requires InTree(n, depths) && InTree(shard, depths)
    ensures NeedsMaintain(n, shard) <==>
      n == ROOT
      || exists leaf :: InTree(leaf, depths) && leaf.depth == depths && Below(leaf, shard) && OpenedBy(n, leaf)
  {
    if n == ROOT {
    } else {
      assert n.depth >= 1;
      if NeedsMaintain(n, shard) {
        FlipInvolution(n.index);
        if n.depth > shard.depth {
          var sib := ToSibling(n);
          SiblingInTree(n, depths);
          var leaf := FirstLeaf(sib, depths);
          AncestorChain(leaf, depths - n.depth, n.depth - shard.depth);
          SiblingAncestor(n, n.depth - shard.depth);
          assert Below(leaf, shard) && OpenedBy(n, leaf);
        } else {
          var leaf := FirstLeaf(shard, depths);
          AncestorChain(leaf, depths - shard.depth, shard.depth - n.depth);
          assert OpenedBy(n, leaf);
        }
      }
      forall leaf | InTree(leaf, depths) && leaf.depth == depths && Below(leaf, shard) && OpenedBy(n, leaf)
        ensures NeedsMaintain(n, shard)
      {
        OpenedIsMaintained(n, shard, leaf);
      }
    }
  }

  lemma SiblingInTree(n: NodeIndex, depths: nat)
    requires InTree(n, depths) && n.depth >= 1
    ensures InTree(ToSibling(n), depths)
  {
    assert Pow2(n.depth) == 2 * Pow2(n.depth - 1);
  }

  /** Every node a proof inside the shard opens is maintained. */
  lemma OpenedIsMaintained(n: NodeIndex, shard: NodeIndex, leaf: NodeIndex)
    requires n.depth <= leaf.depth && shard.depth <= leaf.depth
    requires Below(leaf, shard) && OpenedBy(n, leaf)
    ensures NeedsMaintain(n, shard)
  {
    var anc := ToAncestor(leaf, leaf.depth - n.depth);
    FlipInvolution(anc.index);
    if n.depth > shard.depth {
      AncestorChain(leaf, leaf.depth - n.depth, n.depth - shard.depth);
      SiblingAncestor(anc, n.depth - shard.depth);
    } else {
      AncestorChain(leaf, leaf.depth - shard.depth, shard.depth - n.depth);
    }
  }

  /** The sibling that a proof for `leaf` opens at depth `d`. */
  function OpenedAt(leaf: NodeIndex, d: nat): NodeIndex
    requires d <= leaf.depth
  {
    ToSibling(ToAncestor(leaf, leaf.depth - d))
  }

  ghost predicate PathMaintained(leaf: NodeIndex, shard: NodeIndex) {
    forall d :: 1 <= d <= leaf.depth ==> NeedsMaintain(OpenedAt(leaf, d), shard)
  }

  /** The whole path of siblings of a leaf is maintained exactly when the leaf lies below the shard
      root; outside, the sibling at the shard's own depth is missing. */
  lemma PathExact(leaf: NodeIndex, shard: NodeIndex, depths: nat)
    requires leaf.depth == depths && InTree(leaf, depths) && InTree(shard, depths)
    ensures PathMaintained(leaf, shard) <==> Below(leaf, shard)
  {
    if Below(leaf, shard) {
      forall d | 1 <= d <= leaf.depth ensures NeedsMaintain(OpenedAt(leaf, d), shard) {
        assert OpenedBy(OpenedAt(leaf, d), leaf);
        OpenedIsMaintained(OpenedAt(leaf, d), shard, leaf);
      }
    }
    if PathMaintained(leaf, shard) {
      if shard.depth == 0 {
        ShiftsOut(leaf.index, depths);
      } else {
        assert NeedsMaintain(OpenedAt(leaf, shard.depth), shard);
        FlipInvolution(ToAncestor(leaf, depths - shard.depth).index);
      }
    }
  }

  lemma {:induction false} ShiftsOut(x: nat, d: nat)
    requires x < Pow2(d)
    ensures Shr(x, d) == 0
  {
    if d > 0 { ShiftsOut(x / 2, d - 1); }
  }
}
