/** The bytes of trie nodes, in the recursive length prefix encoding (Appendix B of the Ethereum
    Yellow Paper), and how their lengths decide what is stored. */
module TrieRlp {
  import opened Basics
  import opened Nibbles
  import opened Tries
  import opened TrieStore
  import opened TrieCommit

  // ----- the encoding -----

  function BigEndian(n: nat): (s: Bytes)
    ensures |s| == ByteCount(n)
  {
    if n < 256 then [n] else BigEndian(n / 256) + [n % 256]
  }

  /** The header of a string (from 128) or list (from 192) of a length. */
  function Header(offset: nat, len: nat): Bytes {
    if len <= 55 then [(offset + len) % 256] else [(offset + 55 + |BigEndian(len)|) % 256] + BigEndian(len)
  }

  function RlpString(s: Bytes): Bytes {
    if |s| == 1 && s[0] < 128 then s else Header(128, |s|) + s
  }

  function RlpList(payload: Bytes): Bytes {
    Header(192, |payload|) + payload
  }

  /** A hash function on encodings, given as the 32 bytes it has for the node encoded. */
  ghost predicate Hashes(h: Trie -> Bytes) {
    forall t :: |h(t)| == 32
  }

  function Encode(h: Trie -> Bytes, t: Trie): Bytes
    decreases t, 1
  {
    match t
    case Leaf(key, value) => RlpList(RlpString(MptKey(key, true)) + RlpString(value))
    case Branch(children, value) => RlpList(ChildrenBytes(h, children, 0) + RlpString(value))
    case Extension(key, child) => RlpList(RlpString(MptKey(key, false)) + Reference(h, child))
  }

  /** A child is written out in place if its encoding has fewer than 32 bytes, and as the string of its
      hash otherwise. */
  function Reference(h: Trie -> Bytes, t: Trie): Bytes
    decreases t, 2
  {
    var e := Encode(h, t);
    if |e| < 32 then e else RlpString(h(t))
  }

  function ChildBytes(h: Trie -> Bytes, c: Child): Bytes
    decreases c, 0
  {
    match c
    case Null => RlpString([])
    case Owned(t) => Reference(h, t)
  }

  function ChildrenBytes(h: Trie -> Bytes, children: seq<Child>, i: nat): Bytes
    requires i <= |children|
    decreases children, |children| - i
  {
    if i == |children| then [] else ChildBytes(h, children[i]) + ChildrenBytes(h, children, i + 1)
  }

  // ----- lengths -----

  lemma HeaderLength(offset: nat, len: nat)
    ensures |Header(offset, len)| + len == Headed(len)
  {
  }

  lemma StringBytes(s: Bytes)
    ensures |RlpString(s)| == StringLength(s)
  {
    HeaderLength(128, |s|);
  }

  lemma KeyBytes(key: Path, leaf: bool)
    ensures |RlpString(MptKey(key, leaf))| == KeyLength(key)
  {
    MptKeyEncodes(key, leaf);
    MptKeyFlags(key, leaf, 0);
    KeyStringLength(key, MptKey(key, leaf));
  }

  lemma KeyStringLength(key: Path, s: Bytes)
    requires |s| == |key| / 2 + 1 && s[0] < 128
    ensures |RlpString(s)| == KeyLength(key)
  {
    StringBytes(s);
  }

  /** The computed length of a node is that of its bytes. */
  lemma {:induction false} EncodeLength(h: Trie -> Bytes, t: Trie)
    requires Hashes(h)
    ensures |Encode(h, t)| == EncodedLength(t)
    decreases t, 1
  {
    match t
    case Leaf(key, value) =>
      KeyBytes(key, true);
      StringBytes(value);
      HeaderLength(192, |RlpString(MptKey(key, true)) + RlpString(value)|);
    case Branch(children, value) =>
      ChildrenLengthIs(h, children, 0);
      StringBytes(value);
      HeaderLength(192, |ChildrenBytes(h, children, 0) + RlpString(value)|);
    case Extension(key, child) =>
      KeyBytes(key, false);
      ReferenceLength(h, child);
      HeaderLength(192, |RlpString(MptKey(key, false)) + Reference(h, child)|);
  }

  lemma {:induction false} ReferenceLength(h: Trie -> Bytes, t: Trie)
    requires Hashes(h)
    ensures |Reference(h, t)| == Embedded(EncodedLength(t))
    decreases t, 2
  {
    EncodeLength(h, t);
    StringBytes(h(t));
  }

  lemma {:induction false} ChildLengthIs(h: Trie -> Bytes, c: Child)
    requires Hashes(h)
    ensures |ChildBytes(h, c)| == ChildLength(c)
    decreases c, 0
  {
    if c.Owned? { ReferenceLength(h, c.node); } else { StringBytes([]); }
  }

  lemma {:induction false} ChildrenLengthIs(h: Trie -> Bytes, children: seq<Child>, i: nat)
    requires Hashes(h) && i <= |children|
    ensures |ChildrenBytes(h, children, i)| == ChildrenLength(children, i)
    decreases children, |children| - i
  {
    if i < |children| {
      ChildLengthIs(h, children[i]);
      ChildrenLengthIs(h, children, i + 1);
    }
  }

  // ----- what the length decides -----

  /** A node counts as short exactly when its encoding has fewer than 32 bytes. */
  lemma SmallExactly(h: Trie -> Bytes, t: Trie)
    requires Hashes(h)
    ensures Small(t) <==> |Encode(h, t)| < 32
  {
    EncodeLength(h, t);
  }

  /** The parent's bytes hold the child's hash, as a string of 32 bytes, exactly when it is not short. */
  lemma HeldByHash(h: Trie -> Bytes, t: Trie)
    requires Hashes(h)
    ensures if Small(t) then Reference(h, t) == Encode(h, t) else Reference(h, t) == [160] + h(t)
  {
    SmallExactly(h, t);
    assert |h(t)| == 32;
    HashString(h(t));
  }

  lemma HashString(s: Bytes)
    requires |s| == 32
    ensures RlpString(s) == [160] + s
  {
  }

  /** In the parent's length a child counts with its own, or with 33 bytes for its hash. */
  lemma CountedLength(t: Trie)
    ensures ChildLength(Owned(t)) == if Small(t) then EncodedLength(t) else 33
  {
  }

  /** What loading leaves of a child. */
  lemma LoadedChild(h: Trie -> Bytes, c: Child)
    requires Hashes(h)
    ensures
      var l := LoadChild(c);
      && (l.Nil? <==> c.Null?)
      && (l.Digest? <==> c.Owned? && |Encode(h, c.node)| >= 32)
      && (l.Digest? ==> l.of == c.node && ChildBytes(h, c) == [160] + h(l.of))
  {
    if c.Owned? {
      SmallExactly(h, c.node);
      HeldByHash(h, c.node);
    }
  }

  /** Loading a branch leaves digests for exactly the children that its bytes hold by hash. */
  lemma LoadedByHash(h: Trie -> Bytes, children: seq<Child>, value: Bytes, i: nat)
    requires Hashes(h) && i < |children|
    ensures
      var l, c := Load(Branch(children, value)).body.children[i], children[i];
      && (l.Nil? <==> c.Null?)
      && (l.Digest? <==> c.Owned? && |Encode(h, c.node)| >= 32)
      && (l.Digest? ==> l.of == c.node && ChildBytes(h, c) == [160] + h(l.of))
  {
    LoadedChild(h, children[i]);
    assert Load(Branch(children, value)).body.children == LoadLinks(children);
  }

  /** Truncation replaces exactly the children that their parent's bytes hold by hash. */
  lemma CutByHash(h: Trie -> Bytes, l: Link)
    requires Hashes(h) && l.Held?
    ensures Cut(l).Digest? <==> |Encode(h, Expand(l.node))| >= 32
  {
    SmallExactly(h, Expand(l.node));
  }

  /** A changed node at or below the border is stored by the commit exactly when its encoding has 32
      bytes or more. */
  lemma PutByLength(h: Trie -> Bytes, top: nat, n: Node, depth: nat)
    requires Hashes(h) && !n.committed && depth >= top
    ensures Expand(n) in Puts(top, n, depth) <==> |Encode(h, Expand(n))| >= 32
  {
    SmallExactly(h, Expand(n));
    if Small(Expand(n)) { assert Puts(top, n, depth) == {}; } else { PutsItself(top, n, depth); }
  }

  lemma PutsItself(top: nat, n: Node, depth: nat)
    requires !n.committed && depth >= top && !Small(Expand(n))
    ensures Expand(n) in Puts(top, n, depth)
  {
  }

  // ----- nothing is lost -----

  /** Lengths are 64-bit integers. */
  const MAX_LENGTH: nat := 0x1_0000_0000_0000_0000

  lemma {:induction false} BigEndianValue(n: nat)
    ensures BeValue(BigEndian(n)) == n
  {
    if n >= 256 {
      BigEndianValue(n / 256);
      assert (BigEndian(n / 256) + [n % 256])[..|BigEndian(n / 256)|] == BigEndian(n / 256);
    } else {
      assert [n][..0] == [];
    }
  }

  lemma {:induction false} ByteCountMono(a: nat, b: nat)
    requires a <= b
    ensures ByteCount(a) <= ByteCount(b)
  {
    if a >= 256 { ByteCountMono(a / 256, b / 256); }
  }

  lemma CountBound(n: nat)
    requires n < MAX_LENGTH
    ensures ByteCount(n) <= 8
  {
    ByteCountMono(n, MAX_LENGTH - 1);
    assert ByteCount(0xff) == 1;
    assert ByteCount(0xffff) == 2;
    assert ByteCount(0xff_ffff) == 3;
    assert ByteCount(0xffff_ffff) == 4;
    assert ByteCount(0xff_ffff_ffff) == 5;
    assert ByteCount(0xffff_ffff_ffff) == 6;
    assert ByteCount(0xff_ffff_ffff_ffff) == 7;
    assert ByteCount(0xffff_ffff_ffff_ffff) == 8;
  }

  /** The length of the first item of a string of items, read from its header. */
  function ItemLength(s: Bytes): nat
    requires s != []
  {
    if s[0] < 128 then 1
    else if s[0] < 184 then 1 + (s[0] - 128)
    else if s[0] < 192 then 1 + (s[0] - 183) + LengthField(s, s[0] - 183)
    else if s[0] < 248 then 1 + (s[0] - 192)
    else 1 + (s[0] - 247) + LengthField(s, s[0] - 247)
  }

  function LengthField(s: Bytes, n: nat): nat {
    if 1 + n <= |s| then BeValue(s[1..1 + n]) else 0
  }

  /** An item tells its own length, whatever follows. */
  ghost predicate IsItem(x: Bytes) {
    x != [] && forall rest: Bytes :: TellsLength(x, rest)
  }

  ghost predicate TellsLength(x: Bytes, rest: Bytes)
    requires x != []
  {
    ItemLength(x + rest) == |x|
  }

  lemma LongHeader(offset: nat, len: nat, rest: Bytes)
    requires 55 < len < MAX_LENGTH && offset in {128, 192}
    ensures
      var s := Header(offset, len) + rest;
      && s != [] && s[0] == offset + 55 + ByteCount(len) && 1 <= ByteCount(len) <= 8
      && LengthField(s, ByteCount(len)) == len
  {
    CountBound(len);
    BigEndianValue(len);
    var s := Header(offset, len) + rest;
    assert s[1..1 + ByteCount(len)] == BigEndian(len);
  }

  lemma LongTells(offset: nat, s: Bytes, rest: Bytes)
    requires 55 < |s| < MAX_LENGTH && offset in {128, 192}
    ensures TellsLength(Header(offset, |s|) + s, rest)
  {
    LongHeader(offset, |s|, s + rest);
    assert Header(offset, |s|) + s + rest == Header(offset, |s|) + (s + rest);
  }

  lemma ShortTells(offset: nat, s: Bytes, rest: Bytes)
    requires |s| <= 55 && offset in {128, 192}
    ensures TellsLength(Header(offset, |s|) + s, rest)
  {
    assert (Header(offset, |s|) + s + rest)[0] == offset + |s|;
  }

  lemma StringIsItem(s: Bytes)
    requires |s| < MAX_LENGTH
    ensures IsItem(RlpString(s))
  {
    forall rest: Bytes ensures TellsLength(RlpString(s), rest) {
      if !(|s| == 1 && s[0] < 128) {
        if |s| > 55 { LongTells(128, s, rest); } else { ShortTells(128, s, rest); }
      }
    }
  }

  lemma ListIsItem(p: Bytes)
    requires |p| < MAX_LENGTH
    ensures IsItem(RlpList(p)) && RlpList(p)[0] >= 192
  {
    forall rest: Bytes ensures TellsLength(RlpList(p), rest) {
      if |p| > 55 { LongTells(192, p, rest); } else { ShortTells(192, p, rest); }
    }
    if |p| > 55 { LongHeader(192, |p|, p); }
  }

  /** Strings of items come apart in one way. */
  lemma ItemSplit(x: Bytes, y: Bytes, xs: Bytes, ys: Bytes)
    requires IsItem(x) && IsItem(y) && x + xs == y + ys
    ensures x == y && xs == ys
  {
    assert TellsLength(x, xs) && TellsLength(y, ys);
    assert (x + xs)[..|x|] == x && (y + ys)[..|y|] == y;
    assert (x + xs)[|x|..] == xs && (y + ys)[|y|..] == ys;
  }

  lemma HeadedInjective(a: nat, b: nat)
    requires Headed(a) == Headed(b)
    ensures a == b
  {
    if a < b { ByteCountMono(a, b); }
    if b < a { ByteCountMono(b, a); }
  }

  lemma ListInjective(p: Bytes, q: Bytes)
    requires RlpList(p) == RlpList(q)
    ensures p == q
  {
    HeaderLength(192, |p|);
    HeaderLength(192, |q|);
    HeadedInjective(|p|, |q|);
    var n := |Header(192, |p|)|;
    assert RlpList(p)[n..] == p && RlpList(q)[n..] == q;
  }

  lemma StringInjective(s: Bytes, t: Bytes)
    requires RlpString(s) == RlpString(t) && |s| < MAX_LENGTH && |t| < MAX_LENGTH
    ensures s == t
  {
    StringBytes(s);
    StringBytes(t);
    if |s| > 55 { LongHeader(128, |s|, s); }
    if |t| > 55 { LongHeader(128, |t|, t); }
    if !(|s| == 1 && s[0] < 128) && !(|t| == 1 && t[0] < 128) {
      HeadedInjective(|s|, |t|);
      var n := |Header(128, |s|)|;
      assert RlpString(s)[n..] == s && RlpString(t)[n..] == t;
    }
  }

  lemma KeyInjective(key: Path, leaf: bool, key': Path, leaf': bool)
    requires MptKey(key, leaf) == MptKey(key', leaf')
    ensures key == key' && leaf == leaf'
  {
    MptKeyEncodes(key, leaf);
    MptKeyEncodes(key', leaf');
    DecodeInverts(MptKey(key, leaf), key, leaf);
    DecodeInverts(MptKey(key, leaf), key', leaf');
  }

  /** The hash of a node is that of no other. */
  ghost predicate Collisionless(h: Trie -> Bytes) {
    Hashes(h) && forall a, b :: h(a) == h(b) ==> a == b
  }

  lemma {:induction false} EncodeIsItem(h: Trie -> Bytes, t: Trie)
    requires |Encode(h, t)| < MAX_LENGTH
    ensures IsItem(Encode(h, t)) && Encode(h, t)[0] >= 192
  {
    match t
    case Leaf(key, value) => ListIsItem(RlpString(MptKey(key, true)) + RlpString(value));
    case Branch(children, value) => ListIsItem(ChildrenBytes(h, children, 0) + RlpString(value));
    case Extension(key, child) => ListIsItem(RlpString(MptKey(key, false)) + Reference(h, child));
  }

  lemma ReferenceIsItem(h: Trie -> Bytes, t: Trie)
    requires Hashes(h)
    ensures IsItem(Reference(h, t)) && Reference(h, t)[0] >= 160
    ensures Reference(h, t)[0] >= 192 <==> |Encode(h, t)| < 32
  {
    if |Encode(h, t)| < 32 { EncodeIsItem(h, t); } else { StringIsItem(h(t)); }
  }

  lemma ChildIsItem(h: Trie -> Bytes, c: Child)
    requires Hashes(h)
    ensures IsItem(ChildBytes(h, c)) && (c.Null? ==> ChildBytes(h, c)[0] == 128) && (c.Owned? ==> ChildBytes(h, c)[0] >= 160)
  {
    if c.Owned? { ReferenceIsItem(h, c.node); } else { StringIsItem([]); }
  }

  /** Different nodes have different encodings, so that a digest stands for one trie. */
  lemma {:induction false} EncodeInjective(h: Trie -> Bytes, a: Trie, b: Trie)
    requires Collisionless(h) && Shaped(a) && Shaped(b)
    requires Encode(h, a) == Encode(h, b) && |Encode(h, a)| < MAX_LENGTH
    ensures a == b
    decreases a, 1
  {
    var p, q := Payload(h, a), Payload(h, b);
    ListInjective(p, q);
    match (a, b)
    case (Branch(children, value), Branch(children', value')) =>
      ChildrenInjective(h, children, children', 0, RlpString(value), RlpString(value'));
      StringShorter(value);
      StringShorter(value');
      StringInjective(value, value');
    case (Branch(children, value), _) => TwoItems(h, b, children, value);
    case (_, Branch(children, value)) => TwoItems(h, a, children, value);
    case (Leaf(_, value), Leaf(_, value')) =>
      HeadInjective(h, a, b);
      StringShorter(value);
      StringShorter(value');
      StringInjective(value, value');
    case (Extension(_, child), Extension(_, child')) =>
      HeadInjective(h, a, b);
      ReferenceInjective(h, child, child');
    case (_, _) => HeadInjective(h, a, b);
  }

  function Payload(h: Trie -> Bytes, t: Trie): (p: Bytes)
    ensures RlpList(p) == Encode(h, t)
  {
    match t
    case Leaf(key, value) => RlpString(MptKey(key, true)) + RlpString(value)
    case Branch(children, value) => ChildrenBytes(h, children, 0) + RlpString(value)
    case Extension(key, child) => RlpString(MptKey(key, false)) + Reference(h, child)
  }

  lemma StringShorter(s: Bytes)
    ensures |s| <= |RlpString(s)|
  {
  }

  /** The second item of a leaf or extension. */
  function Second(h: Trie -> Bytes, t: Trie): Bytes
    requires !t.Branch?
  {
    if t.Leaf? then RlpString(t.value) else Reference(h, t.child)
  }

  lemma TwoAreItems(h: Trie -> Bytes, t: Trie)
    requires Hashes(h) && !t.Branch? && |Payload(h, t)| < MAX_LENGTH
    ensures
      var k := RlpString(MptKey(t.key, t.Leaf?));
      Payload(h, t) == k + Second(h, t) && IsItem(k) && IsItem(Second(h, t)) && |MptKey(t.key, t.Leaf?)| < MAX_LENGTH
  {
    StringShorter(MptKey(t.key, t.Leaf?));
    StringIsItem(MptKey(t.key, t.Leaf?));
    if t.Leaf? {
      StringShorter(t.value);
      StringIsItem(t.value);
    } else {
      ReferenceIsItem(h, t.child);
    }
  }

  /** Two leaves or extensions agree in kind, key, and second item. */
  lemma HeadInjective(h: Trie -> Bytes, a: Trie, b: Trie)
    requires Hashes(h) && !a.Branch? && !b.Branch? && Payload(h, a) == Payload(h, b) && |Payload(h, a)| < MAX_LENGTH
    ensures a.Leaf? == b.Leaf? && a.key == b.key && Second(h, a) == Second(h, b)
  {
    TwoAreItems(h, a);
    TwoAreItems(h, b);
    var k, k' := MptKey(a.key, a.Leaf?), MptKey(b.key, b.Leaf?);
    ItemSplit(RlpString(k), RlpString(k'), Second(h, a), Second(h, b));
    StringInjective(k, k');
    KeyInjective(a.key, a.Leaf?, b.key, b.Leaf?);
  }

  /** Two items are not three or more. */
  lemma TwoIsNotMore(k: Bytes, s: Bytes, c: Bytes, d: Bytes, rest: Bytes)
    requires IsItem(k) && IsItem(s) && IsItem(c) && IsItem(d) && rest != []
    ensures k + s != c + (d + rest)
  {
    if k + s == c + (d + rest) {
      ItemSplit(k, c, s, d + rest);
      assert s == s + [];
      ItemSplit(s, d, [], rest);
    }
  }

  /** A branch starts with two children, and more follows. */
  lemma BranchStarts(h: Trie -> Bytes, children: seq<Child>, value: Bytes) returns (c: Bytes, d: Bytes, rest: Bytes)
    requires Hashes(h) && |children| == 16
    ensures IsItem(c) && IsItem(d) && rest != [] && Payload(h, Branch(children, value)) == c + (d + rest)
  {
    var tail := RlpString(value);
    c, d := ChildBytes(h, children[0]), ChildBytes(h, children[1]);
    rest := ChildrenBytes(h, children, 2) + tail;
    StringNonEmpty(value);
    Joined(ChildrenBytes(h, children, 0) + tail, c, ChildrenBytes(h, children, 1) + tail, d, rest) by {
      ChildrenStep(h, children, 0, tail);
      ChildrenStep(h, children, 1, tail);
    }
    ChildIsItem(h, children[0]);
    ChildIsItem(h, children[1]);
  }

  lemma StringNonEmpty(s: Bytes)
    ensures RlpString(s) != []
  {
  }

  lemma Joined(all: Bytes, c: Bytes, tail: Bytes, d: Bytes, rest: Bytes)
    requires all == c + tail && tail == d + rest
    ensures all == c + (d + rest)
  {
  }

  lemma ChildrenStep(h: Trie -> Bytes, children: seq<Child>, i: nat, tail: Bytes)
    requires i < |children|
    ensures ChildrenBytes(h, children, i) + tail == ChildBytes(h, children[i]) + (ChildrenBytes(h, children, i + 1) + tail)
  {
  }

  lemma TwoItems(h: Trie -> Bytes, t: Trie, children: seq<Child>, value: Bytes)
    requires Hashes(h) && !t.Branch? && |children| == 16 && |Payload(h, t)| < MAX_LENGTH
    ensures Payload(h, t) != Payload(h, Branch(children, value))
  {
    TwoAreItems(h, t);
    var c, d, rest := BranchStarts(h, children, value);
    TwoIsNotMore(RlpString(MptKey(t.key, t.Leaf?)), Second(h, t), c, d, rest);
  }

  lemma {:induction false} ReferenceInjective(h: Trie -> Bytes, a: Trie, b: Trie)
    requires Collisionless(h) && Shaped(a) && Shaped(b) && Reference(h, a) == Reference(h, b)
    ensures a == b
    decreases a, 2
  {
    ReferenceIsItem(h, a);
    ReferenceIsItem(h, b);
    if |Encode(h, a)| < 32 { EncodeInjective(h, a, b); } else { StringInjective(h(a), h(b)); }
  }

  lemma {:induction false} ChildInjective(h: Trie -> Bytes, a: Child, b: Child)
    requires Collisionless(h) && (a.Owned? ==> Shaped(a.node)) && (b.Owned? ==> Shaped(b.node))
    requires ChildBytes(h, a) == ChildBytes(h, b)
    ensures a == b
    decreases a, 0
  {
    ChildIsItem(h, a);
    ChildIsItem(h, b);
    if a.Owned? && b.Owned? { ReferenceInjective(h, a.node, b.node); }
  }

  lemma {:induction false} ChildrenInjective(h: Trie -> Bytes, a: seq<Child>, b: seq<Child>, i: nat, x: Bytes, y: Bytes)
    requires Collisionless(h) && |a| == |b| && i <= |a|
    requires forall j :: 0 <= j < |a| ==> (a[j].Owned? ==> Shaped(a[j].node)) && (b[j].Owned? ==> Shaped(b[j].node))
    requires ChildrenBytes(h, a, i) + x == ChildrenBytes(h, b, i) + y
    ensures a[i..] == b[i..] && x == y
    decreases a, |a| - i
  {
    if i < |a| {
      var c, d := ChildBytes(h, a[i]), ChildBytes(h, b[i]);
      var cs, ds := ChildrenBytes(h, a, i + 1), ChildrenBytes(h, b, i + 1);
      ChildrenStep(h, a, i, x);
      ChildrenStep(h, b, i, y);
      ChildIsItem(h, a[i]);
      ChildIsItem(h, b[i]);
      ItemSplit(c, d, cs + x, ds + y);
      ChildInjective(h, a[i], b[i]);
      ChildrenInjective(h, a, b, i + 1, x, y);
      assert a[i..] == [a[i]] + a[i + 1..] && b[i..] == [b[i]] + b[i + 1..];
    } else {
      assert a[i..] == [] && b[i..] == [] && [] + x == x && [] + y == y;
    }
  }
}
