/** Runs of the trie over its store: whatever is put, read and committed, the trie represents the
    map it was told, in its one canonical form, and every digest it holds can be loaded. */
module TrieRun {
  import opened Basics
  import opened Nibbles
  import opened Tries
  import opened TrieUpdates
  import opened TrieStore
  import opened TrieCommit
  import opened TrieSafety
  import opened TrieOps
  import opened TriePut
  import opened TrieDel
  import opened TrieLive

  /** The trie in memory, the digests to delete, the store, and the trie as last committed. */
  datatype State = State(root: Link, dels: multiset<Trie>, db: set<Trie>, last: Child)

  datatype Op = Read(key: Bytes) | Write(key: Bytes, value: Bytes) | Commit

  const EMPTY: State := State(Nil, multiset{}, {}, Null)

  // ----- operations -----

  ghost function Searched(top: nat, s: State, k: Path): State {
    if s.root.Held? then s.(root := Held(Walk(top, s.root.node, k, 0))) else s
  }

  /** Changes nothing when the value is there already. */
  ghost function Inserted(top: nat, s: State, k: Path, v: Bytes): State {
    if !s.root.Held? then s.(root := Held(Fresh(LeafBody(k, v))))
    else
      var w := Walk(top, s.root.node, k, 0);
      if Matched(Expand(w), k) && Find(Expand(w), k) == v then s.(root := Held(w))
      else s.(root := Held(PutNode(top, w, k, v, 0)), dels := s.dels + PathDels(w, k))
  }

  ghost function Deleted(top: nat, s: State, k: Path): State
    requires s.root.Held? ==> Shaped(Expand(s.root.node))
  {
    if !s.root.Held? then s
    else
      var w := Walk(top, s.root.node, k, 0);
      if !Matched(Expand(w), k) then s.(root := Held(w))
      else s.(root := DelNode(w, k), dels := s.dels + DelDels(w, k))
  }

  ghost function Committed(top: nat, s: State): State {
    if !s.root.Held? then State(Nil, multiset{}, (set t | t in s.db && t !in s.dels), Null)
    else
      var n := s.root.node;
      State(Held(Prune(Seal(top, n, 0))), multiset{}, CommitStore(s.db, s.dels, top, n), Owned(Expand(n)))
  }

  // ----- the invariant -----

  ghost function Whole(x: Trie, c: Child): nat {
    if c.Null? then 0 else if Small(c.node) then if x == c.node then 1 else 0 else Subs(x, c.node)
  }

  /** No long node occurs twice in the trie. */
  ghost predicate Distinct(c: Child) {
    forall x :: Whole(x, c) <= 1
  }

  /** Every node of the last commit is unchanged in the trie or to be deleted, as often as it was there. */
  ghost predicate Conserved(s: State) {
    forall x :: s.dels[x] + LinkLive(x, s.root) == Whole(x, s.last)
  }

  ghost predicate CanonicalRoot(s: State) {
    !s.root.Digest? && (s.root.Held? ==> Canonical(Expand(s.root.node)) && Shaped(Expand(s.root.node)))
  }

  ghost predicate Valid(top: nat, s: State) {
    CanonicalRoot(s) && (s.root.Held? ==> Sound(s.db, top, s.root.node, 0)) && Conserved(s)
  }

  ghost predicate RootClear(top: nat, s: State) {
    s.root.Held? ==> Clear(top, s.root.node, 0)
  }

  lemma SearchKeeps(top: nat, s: State, k: Path)
    requires Valid(top, s)
    ensures Valid(top, Searched(top, s, k)) && ExpandLink(Searched(top, s, k).root) == ExpandLink(s.root)
  {
    if s.root.Held? {
      WalkSound(s.db, top, s.root.node, k, 0);
      forall x ensures LinkLive(x, Searched(top, s, k).root) == LinkLive(x, s.root) {
        WalkLive(x, s.db, top, s.root.node, k, 0);
      }
    }
  }

  lemma InsertKeeps(top: nat, s: State, k: Path, v: Bytes)
    requires Valid(top, s) && v != []
    ensures Valid(top, Inserted(top, s, k, v))
  {
    SearchKeeps(top, s, k);
    if s.root.Held? {
      var w := Walk(top, s.root.node, k, 0);
      WalkWalks(top, s.root.node, k, 0);
      PutSound(s.db, top, w, k, v, 0);
      PutExpand(s.db, top, w, k, v, 0);
      PutCanonical(Expand(w), k, v);
      CanonicalShaped(Put(Expand(w), k, v));
      forall x ensures Live(x, PutNode(top, w, k, v, 0)) + PathDels(w, k)[x] == Live(x, w) {
        PutLive(x, s.db, top, w, k, v, 0);
      }
    }
  }

  lemma DeleteKeeps(top: nat, s: State, k: Path)
    requires Valid(top, s)
    ensures Valid(top, Deleted(top, s, k))
  {
    SearchKeeps(top, s, k);
    if s.root.Held? {
      var w := Walk(top, s.root.node, k, 0);
      WalkWalks(top, s.root.node, k, 0);
      if Matched(Expand(w), k) {
        DelSound(s.db, top, w, k, 0);
        DelExpand(s.db, top, w, k, 0);
        DelCanonical(Expand(w), k);
        if Del(Expand(w), k).Owned? { CanonicalShaped(Del(Expand(w), k).node); }
        forall x ensures LinkLive(x, DelNode(w, k)) + DelDels(w, k)[x] == Live(x, w) {
          DelLive(x, s.db, top, w, k, 0);
        }
      }
    }
  }

  /** The commit cuts off nothing that is not kept, and deletes nothing that is relied on. */
  ghost predicate Safe(top: nat, s: State) {
    s.root.Held? ==>
      Guarded(CommitStore(s.db, s.dels, top, s.root.node), top, s.root.node, 0) && Spared(s.dels, top, s.root.node)
  }

  /** A commit keeps the invariant exactly when it is safe, and never changes the trie. */
  lemma CommitKeeps(top: nat, s: State)
    requires Valid(top, s)
    ensures Valid(top, Committed(top, s)) <==> Safe(top, s)
    ensures ExpandLink(Committed(top, s).root) == ExpandLink(s.root)
  {
    var s' := Committed(top, s);
    if s.root.Held? {
      CommitSoundExactly(s.db, s.dels, top, s.root.node);
      if Safe(top, s) {
        forall x ensures LinkLive(x, s'.root) == Whole(x, s'.last) { SealedLive(x, s'.db, top, s'.root.node); }
      }
    }
  }

  lemma {:induction false} ReliesLive(db: set<Trie>, top: nat, l: Link, depth: nat, x: Trie)
    requires LinkSound(db, top, l, depth) && Relies(x, l)
    ensures LinkLive(x, l) > 0
    decreases l
  {
    if l.Held? && !Marked(x, l.node) {
      match l.node.body
      case BranchBody(children, _) =>
        var i :| 0 <= i < |children| && Relies(x, children[i]);
        ReliesLive(db, top, children[i], depth + 1, x);
        LinkLiveInSum(x, children, 0, i);
      case ExtensionBody(_, child) => ReliesLive(db, top, child, depth + 1, x);
    }
  }

  /** It is enough that no deleted node is still live, and no listed node has a changed child above
      the border. */
  lemma DeadSafe(top: nat, s: State)
    requires Valid(top, s) && RootClear(top, s) && forall t :: t in s.dels ==> LinkLive(t, s.root) == 0
    ensures Safe(top, s)
  {
    if s.root.Held? {
      var n := s.root.node;
      ClearGuards(CommitStore(s.db, s.dels, top, n), top, n, 0);
      forall t | t in s.dels && Relies(t, s.root) ensures false { ReliesLive(s.db, top, s.root, 0, t); }
    }
  }

  /** Which is so if the last committed trie had no long node twice. */
  lemma DistinctSafe(top: nat, s: State)
    requires Valid(top, s) && RootClear(top, s) && Distinct(s.last)
    ensures Safe(top, s)
  {
    forall t | t in s.dels ensures LinkLive(t, s.root) == 0 {
      assert s.dels[t] + LinkLive(t, s.root) == Whole(t, s.last);
    }
    DeadSafe(top, s);
  }

  /** Right after a commit every long node counts once. */
  lemma SealedLive(x: Trie, db: set<Trie>, top: nat, n: Node)
    requires Sound(db, top, n, 0) && n.committed
    ensures Live(x, n) == Whole(x, Owned(Expand(n)))
  {
    QuietLive(x, db, top, n, 0);
    LiveSplit(x, n);
  }

  // ----- runs -----

  ghost function Apply(top: nat, s: State, op: Op): (s': State)
    requires CanonicalRoot(s)
  {
    match op
    case Read(key) => Searched(top, s, FromBytes(key))
    case Write(key, value) =>
      if value == [] then Deleted(top, s, FromBytes(key)) else Inserted(top, s, FromBytes(key), value)
    case Commit => Committed(top, s)
  }

  /** Only a commit can do harm. */
  ghost predicate Harmless(top: nat, s: State, op: Op) {
    op.Commit? ==> Safe(top, s)
  }

  lemma ApplyKeeps(top: nat, s: State, op: Op)
    requires Valid(top, s)
    ensures Valid(top, Apply(top, s, op)) <==> Harmless(top, s, op)
  {
    match op
    case Read(key) => SearchKeeps(top, s, FromBytes(key));
    case Write(key, value) =>
      if value == [] { DeleteKeeps(top, s, FromBytes(key)); } else { InsertKeeps(top, s, FromBytes(key), value); }
    case Commit => CommitKeeps(top, s);
  }

  /** The states of a run, as long as each commit is safe. */
  ghost function Run(top: nat, ops: seq<Op>): (r: Option<State>)
    ensures r.Some? ==> Valid(top, r.value)
  {
    if ops == [] then Some(EMPTY)
    else
      var before := Run(top, ops[..|ops| - 1]);
      if before.None? || !Harmless(top, before.value, ops[|ops| - 1]) then None
      else
        ApplyKeeps(top, before.value, ops[|ops| - 1]);
        Some(Apply(top, before.value, ops[|ops| - 1]))
  }

  // ----- no garbage -----

  /** Every long node in the store is a node of the trie as last committed. */
  ghost predicate Tidy(s: State) {
    forall t :: t in s.db && !Small(t) ==> Whole(t, s.last) > 0
  }

  /** A commit leaves no node behind: what the trie lost since the last one is deleted. */
  lemma CommitTidy(top: nat, s: State)
    requires Conserved(s) && Tidy(s) && !s.root.Digest?
    ensures Tidy(Committed(top, s))
  {
    var s' := Committed(top, s);
    forall t | t in s'.db && !Small(t) ensures Whole(t, s'.last) > 0 {
      assert s.dels[t] + LinkLive(t, s.root) == Whole(t, s.last);
      if s.root.Held? {
        if t in Exiles(s.root.node) {
          ExilesSubs(t, s.root.node);
        } else if t in Puts(top, s.root.node, 0) {
          PutsSubs(t, top, s.root.node, 0);
        } else {
          LiveSubs(t, s.root);
        }
      }
    }
  }

  /** Over every run the store holds no long node that the committed trie does not have. */
  lemma {:induction false} RunTidy(top: nat, ops: seq<Op>)
    ensures Run(top, ops).Some? ==> Tidy(Run(top, ops).value)
  {
    if ops != [] {
      RunTidy(top, ops[..|ops| - 1]);
      var before, op := Run(top, ops[..|ops| - 1]), ops[|ops| - 1];
      if before.Some? && op.Commit? { CommitTidy(top, before.value); }
    }
  }

  // ----- the represented map -----

  function ToBytes(k: Path): (b: Bytes)
    requires |k| % 2 == 0
    ensures FromBytes(b) == k
  {
    if k == [] then []
    else
      var b := ToBytes(k[2..]);
      FirstPair(k, b);
      [Pair(k[0], k[1])] + b
  }

  lemma FirstPair(k: Path, b: Bytes)
    requires |k| >= 2 && FromBytes(b) == k[2..]
    ensures FromBytes([Pair(k[0], k[1])] + b) == k
  {
    PairHalves(k[0], k[1]);
    FromByte(Pair(k[0], k[1]), b);
    assert k == [k[0], k[1]] + k[2..];
  }

  lemma PairHalves(a: Nibble, b: Nibble)
    ensures Hi(Pair(a, b)) == a && Lo(Pair(a, b)) == b
  {
  }

  lemma FromByte(x: Byte, b: Bytes)
    ensures FromBytes([x] + b) == [Hi(x), Lo(x)] + FromBytes(b)
  {
    assert ([x] + b)[1..] == b;
  }

  /** What a map of byte strings holds under a path. */
  ghost function Lookup(m: map<Bytes, Bytes>, k: Path): Bytes {
    if |k| % 2 == 0 && ToBytes(k) in m then m[ToBytes(k)] else []
  }

  ghost function FindRoot(c: Child, k: Path): Bytes {
    if c.Null? then [] else Find(c.node, k)
  }

  ghost predicate Represents(s: State, m: map<Bytes, Bytes>) {
    forall k: Path :: FindRoot(ExpandLink(s.root), k) == Lookup(m, k)
  }

  /** The map that a run of operations builds; an empty value deletes. */
  ghost function Contents(ops: seq<Op>): map<Bytes, Bytes> {
    if ops == [] then map[]
    else
      var m, op := Contents(ops[..|ops| - 1]), ops[|ops| - 1];
      if !op.Write? then m else if op.value == [] then m - {op.key} else m[op.key := op.value]
  }

  lemma LookupUpdate(m: map<Bytes, Bytes>, key: Bytes, value: Bytes, k: Path)
    ensures Lookup(m[key := value], k) == if k == FromBytes(key) then value else Lookup(m, k)
    ensures Lookup(m - {key}, k) == if k == FromBytes(key) then [] else Lookup(m, k)
  {
    if |k| % 2 == 0 && k == FromBytes(key) { FromBytesInjective(ToBytes(k), key); }
  }

  lemma ApplyRepresents(top: nat, s: State, op: Op, m: map<Bytes, Bytes>)
    requires Valid(top, s) && Harmless(top, s, op) && Represents(s, m)
    ensures
      var m' := if !op.Write? then m else if op.value == [] then m - {op.key} else m[op.key := op.value];
      Represents(Apply(top, s, op), m')
  {
    match op
    case Read(key) => SearchKeeps(top, s, FromBytes(key));
    case Write(key, value) =>
      var k := FromBytes(key);
      SearchKeeps(top, s, k);
      forall k': Path
        ensures FindRoot(ExpandLink(Apply(top, s, op).root), k') == if k' == k then value else FindRoot(ExpandLink(s.root), k')
      {
        WriteFinds(top, s, k, value, k');
      }
      forall k': Path
        ensures FindRoot(ExpandLink(Apply(top, s, op).root), k')
             == Lookup(if value == [] then m - {key} else m[key := value], k')
      {
        LookupUpdate(m, key, value, k');
      }
    case Commit => CommitKeeps(top, s);
  }

  lemma WriteFinds(top: nat, s: State, k: Path, value: Bytes, k': Path)
    requires Valid(top, s)
    ensures
      var s' := if value == [] then Deleted(top, s, k) else Inserted(top, s, k, value);
      FindRoot(ExpandLink(s'.root), k') == if k' == k then value else FindRoot(ExpandLink(s.root), k')
  {
    if s.root.Held? {
      var w := Walk(top, s.root.node, k, 0);
      SearchKeeps(top, s, k);
      WalkWalks(top, s.root.node, k, 0);
      var t := Expand(w);
      if value != [] {
        PutExpand(s.db, top, w, k, value, 0);
        PutFinds(t, k, value, k');
      } else if Matched(t, k) {
        DelExpand(s.db, top, w, k, 0);
        DelFinds(t, k, k');
      } else if Find(t, k) != [] {
        HeldIsMatched(t, k);
      }
    }
  }

  /** Writing the value that is there already changes nothing: it is a search. */
  lemma IdleWrite(top: nat, s: State, key: Bytes, value: Bytes)
    requires CanonicalRoot(s) && value != [] && FindRoot(ExpandLink(s.root), FromBytes(key)) == value
    ensures Apply(top, s, Write(key, value)) == Apply(top, s, Read(key))
  {
    HeldIsMatched(Expand(Walk(top, s.root.node, FromBytes(key), 0)), FromBytes(key));
  }

  /** Refinement over runs: the trie holds exactly the map that the operations built. */
  lemma {:induction false} RunRepresents(top: nat, ops: seq<Op>)
    ensures Run(top, ops).Some? ==> Represents(Run(top, ops).value, Contents(ops))
  {
    if ops != [] {
      RunRepresents(top, ops[..|ops| - 1]);
      var before := Run(top, ops[..|ops| - 1]);
      if before.Some? && Harmless(top, before.value, ops[|ops| - 1]) {
        ApplyRepresents(top, before.value, ops[|ops| - 1], Contents(ops[..|ops| - 1]));
      }
    }
  }

  /** History independence: runs that built the same map, with any number of layers in memory,
      end in the same trie. */
  lemma RunsAgree(top: nat, top': nat, ops: seq<Op>, ops': seq<Op>)
    requires Run(top, ops).Some? && Run(top', ops').Some? && Contents(ops) == Contents(ops')
    ensures ExpandLink(Run(top, ops).value.root) == ExpandLink(Run(top', ops').value.root)
  {
    RunRepresents(top, ops);
    RunRepresents(top', ops');
    var a, b := ExpandLink(Run(top, ops).value.root), ExpandLink(Run(top', ops').value.root);
    forall k: Path ensures FindRoot(a, k) == FindRoot(b, k) {
      assert FindRoot(a, k) == Lookup(Contents(ops), k);
    }
    if a.Owned? && b.Owned? {
      forall k: Path ensures Find(a.node, k) == Find(b.node, k) {
        assert FindRoot(a, k) == FindRoot(b, k);
      }
      CanonicalUnique(a.node, b.node);
    } else if a.Owned? {
      HoldsSomething(a);
    } else if b.Owned? {
      HoldsSomething(b);
    }
  }

  lemma HoldsSomething(c: Child)
    requires c.Owned? && Canonical(c.node)
    ensures exists k: Path :: FindRoot(c, k) != []
  {
    var k := Witness(c.node);
    assert FindRoot(c, k) != [];
  }

  /** Store safety over runs: no load ever misses. */
  lemma RunResolves(top: nat, ops: seq<Op>)
    requires Run(top, ops).Some?
    ensures Resolves(Run(top, ops).value.db, Run(top, ops).value.root)
  {
    var s := Run(top, ops).value;
    SoundResolves(s.db, top, s.root, 0);
  }
}
