/** The buffered store: writes gather in an overlay, a flush swaps them out, writes them in one
    batch and clears them, and readers look through all three layers while that goes on. */
module KvBuffer {
  import opened Basics

  /** A column and a key in it. */
  type Key = (nat, seq<Byte>)
  type Value = seq<Byte>

  datatype KeyState = Insert(value: Value) | Delete

  datatype Op = Op(key: Key, state: KeyState)

  /** A flush is under way from the swap to the clear. */
  datatype Phase = Idle | Swapped | Written

  /** A reader holds the overlay's lock from its first look on, and the flushing lock from its
      second look on. */
  datatype Reader = PastOverlay(key: Key) | PastFlushing(key: Key)

  datatype State = State(
    overlay: map<Key, KeyState>,
    flushing: map<Key, KeyState>,
    store: map<Key, Value>,
    phase: Phase,
    readers: map<nat, Reader>)

  const EMPTY: State := State(map[], map[], map[], Idle, map[])

  // ----- the layers -----

  function Outcome(s: KeyState): Option<Value> {
    if s.Insert? then Some(s.value) else None
  }

  function Stored(store: map<Key, Value>, k: Key): Option<Value> {
    if k in store then Some(store[k]) else None
  }

  /** What a read that is not interrupted returns. */
  function View(s: State, k: Key): Option<Value> {
    if k in s.overlay then Outcome(s.overlay[k])
    else if k in s.flushing then Outcome(s.flushing[k])
    else Stored(s.store, k)
  }

  /** A write to a plain map. */
  function Plain(m: map<Key, Value>, op: Op): map<Key, Value> {
    if op.state.Insert? then m[op.key := op.state.value] else m - {op.key}
  }

  function PlainAll(m: map<Key, Value>, ops: seq<Op>): map<Key, Value> {
    if ops == [] then m else Plain(PlainAll(m, ops[..|ops| - 1]), ops[|ops| - 1])
  }

  /** The last operation on a key, if any. */
  function LastOp(ops: seq<Op>, k: Key): Option<KeyState> {
    if ops == [] then None
    else if ops[|ops| - 1].key == k then Some(ops[|ops| - 1].state)
    else LastOp(ops[..|ops| - 1], k)
  }

  /** The plain map is what its writes say: the last operation on a key decides. */
  lemma {:induction false} PlainIsLast(m: map<Key, Value>, ops: seq<Op>, k: Key)
    ensures Stored(PlainAll(m, ops), k)
         == match LastOp(ops, k) { case None => Stored(m, k) case Some(s) => if s.Insert? then Some(s.value) else None }
  {
    if ops != [] { PlainIsLast(m, ops[..|ops| - 1], k); }
  }

  function Buffered(overlay: map<Key, KeyState>, ops: seq<Op>): map<Key, KeyState> {
    if ops == [] then overlay
    else Buffered(overlay, ops[..|ops| - 1])[ops[|ops| - 1].key := ops[|ops| - 1].state]
  }

  /** The store after a batch: inserts are put and deletes removed, in any order. */
  function Flushed(store: map<Key, Value>, batch: map<Key, KeyState>): map<Key, Value> {
    map k | k in store.Keys + batch.Keys && (if k in batch then batch[k].Insert? else true)
      :: if k in batch then batch[k].value else store[k]
  }

  // ----- steps -----

  datatype Step =
    | WriteBuffered(ops: seq<Op>)
    | Swap
    | WriteBatch
    | Clear
    | StartRead(id: nat, key: Key)
    | LookAtFlushing(id: nat)
    | LookAtStore(id: nat)

  /** The locks let a step happen: writers and the swap wait for every reader, the clear for those
      that hold the flushing lock. */
  predicate Enabled(s: State, step: Step) {
    match step
    case WriteBuffered(_) => s.readers == map[]
    case Swap => s.phase == Idle && s.readers == map[]
    case WriteBatch => s.phase == Swapped
    case Clear => s.phase == Written && forall id :: id in s.readers ==> s.readers[id].PastOverlay?
    case StartRead(id, _) => id !in s.readers
    case LookAtFlushing(id) => id in s.readers && s.readers[id].PastOverlay?
    case LookAtStore(id) => id in s.readers && s.readers[id].PastFlushing?
  }

  function Next(s: State, step: Step): State
    requires Enabled(s, step)
  {
    match step
    case WriteBuffered(ops) => s.(overlay := Buffered(s.overlay, ops))
    case Swap => s.(overlay := s.flushing, flushing := s.overlay, phase := Swapped)
    case WriteBatch => s.(store := Flushed(s.store, s.flushing), phase := Written)
    case Clear => s.(flushing := map[], phase := Idle)
    case StartRead(id, k) => if k in s.overlay then s else s.(readers := s.readers[id := PastOverlay(k)])
    case LookAtFlushing(id) =>
      var k := s.readers[id].key;
      if k in s.flushing then s.(readers := s.readers - {id}) else s.(readers := s.readers[id := PastFlushing(k)])
    case LookAtStore(id) => s.(readers := s.readers - {id})
  }

  /** What a read returns in the step that ends it. */
  function Answer(s: State, step: Step): Option<(Key, Option<Value>)>
    requires Enabled(s, step)
  {
    match step
    case StartRead(_, k) => if k in s.overlay then Some((k, Outcome(s.overlay[k]))) else None
    case LookAtFlushing(id) =>
      var k := s.readers[id].key;
      if k in s.flushing then Some((k, Outcome(s.flushing[k]))) else None
    case LookAtStore(id) => Some((s.readers[id].key, Stored(s.store, s.readers[id].key)))
    case _ => None
  }

  // ----- the invariant -----

  /** The batch is in the store. */
  ghost predicate Landed(s: State) {
    forall k :: k in s.flushing ==> Stored(s.store, k) == Outcome(s.flushing[k])
  }

  /** A reader that is past a layer will not be misled by the ones below. */
  ghost predicate ReaderSafe(s: State, r: Reader) {
    r.key !in s.overlay && (r.PastFlushing? ==> r.key !in s.flushing || s.phase == Written)
  }

  ghost predicate Inv(s: State) {
    && (s.phase == Idle ==> s.flushing == map[])
    && (s.phase == Written ==> Landed(s))
    && forall id :: id in s.readers ==> ReaderSafe(s, s.readers[id])
  }

  ghost predicate Agrees(s: State, m: map<Key, Value>) {
    forall k :: View(s, k) == Stored(m, k)
  }

  lemma {:induction false} BufferedAgrees(s: State, m: map<Key, Value>, ops: seq<Op>)
    requires Agrees(s, m)
    ensures Agrees(s.(overlay := Buffered(s.overlay, ops)), PlainAll(m, ops))
    decreases |ops|
  {
    if ops != [] {
      var front, op := ops[..|ops| - 1], ops[|ops| - 1];
      BufferedAgrees(s, m, front);
      var s1, s2 := s.(overlay := Buffered(s.overlay, front)), s.(overlay := Buffered(s.overlay, ops));
      forall k ensures View(s2, k) == Stored(PlainAll(m, ops), k) {
        assert View(s1, k) == Stored(PlainAll(m, front), k);
      }
    }
  }

  lemma FlushedStores(store: map<Key, Value>, batch: map<Key, KeyState>, k: Key)
    ensures Stored(Flushed(store, batch), k) == if k in batch then Outcome(batch[k]) else Stored(store, k)
  {
  }

  /** What the plain map becomes: only a buffered write changes it. */
  function PlainStep(m: map<Key, Value>, step: Step): map<Key, Value> {
    if step.WriteBuffered? then PlainAll(m, step.ops) else m
  }

  /** Every step keeps the layers in agreement with the plain map, and a read that ends returns what
      the plain map holds. */
  lemma StepAgrees(s: State, m: map<Key, Value>, step: Step)
    requires Inv(s) && Agrees(s, m) && Enabled(s, step)
    ensures Inv(Next(s, step)) && Agrees(Next(s, step), PlainStep(m, step))
    ensures Answer(s, step).Some? ==> Answer(s, step).value.1 == Stored(PlainStep(m, step), Answer(s, step).value.0)
  {
    var s' := Next(s, step);
    match step
    case WriteBuffered(ops) => BufferedAgrees(s, m, ops);
    case Swap =>
      forall k ensures View(s', k) == View(s, k) {}
      assert forall k :: View(s', k) == Stored(m, k);
    case WriteBatch =>
      forall k ensures View(s', k) == View(s, k) { FlushedStores(s.store, s.flushing, k); }
      forall k ensures k in s'.flushing ==> Stored(s'.store, k) == Outcome(s'.flushing[k]) { FlushedStores(s.store, s.flushing, k); }
    case Clear =>
      forall k ensures View(s', k) == View(s, k) {}
      assert forall k :: View(s', k) == Stored(m, k);
    case StartRead(id, k) =>
      assert View(s, k) == Stored(m, k);
      forall k ensures View(s', k) == Stored(m, k) { assert View(s, k) == Stored(m, k); }
    case LookAtFlushing(id) =>
      var k := s.readers[id].key;
      assert ReaderSafe(s, s.readers[id]);
      assert View(s, k) == Stored(m, k);
      forall k ensures View(s', k) == Stored(m, k) { assert View(s, k) == Stored(m, k); }
    case LookAtStore(id) =>
      var k := s.readers[id].key;
      assert ReaderSafe(s, s.readers[id]);
      assert View(s, k) == Stored(m, k);
      forall k ensures View(s', k) == Stored(m, k) { assert View(s, k) == Stored(m, k); }
  }

  // ----- whole interleavings -----

  /** The state after a sequence of steps, if the locks allow it. */
  ghost function Run(steps: seq<Step>): Option<State> {
    if steps == [] then Some(EMPTY)
    else
      var before := Run(steps[..|steps| - 1]);
      if before.None? || !Enabled(before.value, steps[|steps| - 1]) then None
      else Some(Next(before.value, steps[|steps| - 1]))
  }

  /** The plain map that the writes of the sequence build. */
  ghost function PlainRun(steps: seq<Step>): map<Key, Value> {
    if steps == [] then map[] else PlainStep(PlainRun(steps[..|steps| - 1]), steps[|steps| - 1])
  }

  /** Linearity: at every point of every interleaving of writes, flushes and reads, an uninterrupted
      read and a read that ends there both return what a plain map with the same writes holds. */
  lemma {:induction false} Linear(steps: seq<Step>)
    requires Run(steps).Some?
    ensures Inv(Run(steps).value) && Agrees(Run(steps).value, PlainRun(steps))
    ensures steps != [] ==>
      var before, last := Run(steps[..|steps| - 1]).value, steps[|steps| - 1];
      Answer(before, last).Some? ==> Answer(before, last).value.1 == Stored(PlainRun(steps), Answer(before, last).value.0)
  {
    if steps != [] {
      var front, last := steps[..|steps| - 1], steps[|steps| - 1];
      Linear(front);
      StepAgrees(Run(front).value, PlainRun(front), last);
    }
  }

  // ----- writing past the buffer -----

  /** The direct write drops the buffered state of a key before its batch reaches the store. */
  function Dropped(s: State, k: Key): State {
    s.(overlay := s.overlay - {k})
  }

  /** Until then reads stay right exactly when the layers below hold the same. */
  lemma DroppedAgrees(s: State, m: map<Key, Value>, k: Key)
    requires Agrees(s, m)
    ensures Agrees(Dropped(s, k), m) <==>
      (k in s.overlay ==> Outcome(s.overlay[k]) == if k in s.flushing then Outcome(s.flushing[k]) else Stored(s.store, k))
  {
    assert View(s, k) == Stored(m, k);
    assert View(Dropped(s, k), k) == if k in s.flushing then Outcome(s.flushing[k]) else Stored(s.store, k);
    forall k' | k' != k ensures View(Dropped(s, k), k') == Stored(m, k') { assert View(s, k') == Stored(m, k'); }
  }

  /** A read between the two steps of a direct write can return a value older than the buffered one. */
  lemma DirectWriteShowsThrough(k: Key, v1: Value, v2: Value)
    requires v1 != v2
    ensures
      var s := State(map[k := Insert(v2)], map[], map[k := v1], Idle, map[]);
      Inv(s) && Agrees(s, map[k := v2]) && View(Dropped(s, k), k) == Some(v1)
  {
  }

  /** The direct write of one operation, once its batch is in the store. */
  function Direct(s: State, op: Op): State {
    Dropped(s, op.key).(store := Plain(s.store, op))
  }

  /** A direct write takes effect at once exactly when no flush holds another state of the key. */
  lemma DirectAgrees(s: State, m: map<Key, Value>, op: Op)
    requires Agrees(s, m)
    ensures Agrees(Direct(s, op), Plain(m, op)) <==>
      (op.key in s.flushing ==> Outcome(s.flushing[op.key]) == Outcome(op.state))
  {
    var s', m' := Direct(s, op), Plain(m, op);
    assert Stored(m', op.key) == Outcome(op.state) && Stored(s'.store, op.key) == Outcome(op.state);
    assert View(s', op.key) == if op.key in s.flushing then Outcome(s.flushing[op.key]) else Outcome(op.state);
    forall k | k != op.key ensures View(s', k) == Stored(m', k) { assert View(s, k) == Stored(m, k); }
  }

  // ----- as the source runs it -----

  class Database {
    var overlay: map<Key, KeyState>
    var flushing: map<Key, KeyState>
    var store: map<Key, Value>
    var phase: Phase
    ghost var readers: map<nat, Reader>

    ghost function Model(): State
      reads this
    {
      State(overlay, flushing, store, phase, readers)
    }

    constructor ()
      ensures Model() == EMPTY
    {
      overlay, flushing, store, phase, readers := map[], map[], map[], Idle, map[];
    }

    method WriteOps(ops: seq<Op>)
      requires Enabled(Model(), WriteBuffered(ops))
      modifies this`overlay
      ensures Model() == Next(old(Model()), WriteBuffered(ops))
    {
      for i := 0 to |ops|
        invariant overlay == Buffered(old(overlay), ops[..i])
      {
        assert ops[..i + 1][..i] == ops[..i];
        overlay := overlay[ops[i].key := ops[i].state];
      }
      assert ops[..|ops|] == ops;
    }

    method SwapLayers()
      requires Enabled(Model(), Swap)
      modifies this`overlay, this`flushing, this`phase
      ensures Model() == Next(old(Model()), Swap)
    {
      overlay, flushing, phase := flushing, overlay, Swapped;
    }

    /** Builds the batch entry by entry, in whatever order the map yields them. */
    method WriteFlushing()
      requires Enabled(Model(), WriteBatch)
      modifies this`store, this`phase
      ensures Model() == Next(old(Model()), WriteBatch)
    {
      var rest := flushing.Keys;
      var batch := store;
      while rest != {}
        invariant rest <= flushing.Keys
        invariant forall k :: Stored(batch, k) == if k in flushing && k !in rest then Outcome(flushing[k]) else Stored(store, k)
        decreases rest
      {
        var k :| k in rest;
        batch := Plain(batch, Op(k, flushing[k]));
        rest := rest - {k};
      }
      SameStore(batch, Flushed(store, flushing), store, flushing);
      store, phase := batch, Written;
    }

    method ClearFlushing()
      requires Enabled(Model(), Clear)
      modifies this`flushing, this`phase
      ensures Model() == Next(old(Model()), Clear)
    {
      flushing, phase := map[], Idle;
    }

    /** A read that no step interrupts. */
    method Get(k: Key) returns (r: Option<Value>)
      ensures r == View(Model(), k)
    {
      if k in overlay { return Outcome(overlay[k]); }
      if k in flushing { return Outcome(flushing[k]); }
      return Stored(store, k);
    }

    /** The three steps of a flush. */
    method Flush()
      requires Inv(Model()) && phase == Idle && readers == map[]
      modifies this
      ensures Inv(Model()) && phase == Idle && overlay == map[] && flushing == map[]
      ensures forall k :: Stored(store, k) == View(old(Model()), k)
    {
      ghost var s := Model();
      SwapLayers();
      WriteFlushing();
      forall k ensures Stored(store, k) == View(s, k) { FlushedStores(s.store, s.overlay, k); }
      ClearFlushing();
    }
  }

  lemma SameStore(a: map<Key, Value>, b: map<Key, Value>, store: map<Key, Value>, batch: map<Key, KeyState>)
    requires b == Flushed(store, batch)
    requires forall k :: Stored(a, k) == if k in batch then Outcome(batch[k]) else Stored(store, k)
    ensures a == b
  {
    forall k ensures Stored(a, k) == Stored(b, k) { FlushedStores(store, batch, k); }
    forall k ensures k in a <==> k in b { assert Stored(a, k) == Stored(b, k); }
    forall k | k in a ensures a[k] == b[k] { assert Stored(a, k) == Stored(b, k); }
  }
}
