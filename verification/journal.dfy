/** Journals of pending records: eras with several records each, the forks they form, and the order
    in which they are read back. */
module Journals {
  import opened Basics

  type Key = seq<Byte>
  type Value = seq<Byte>
  type Id = seq<Byte>

  datatype Record = Record(id: Id, inserts: seq<Key>, deletes: seq<Key>)

  /** Nodes are named by what they contain. */
  type Content = Key -> Value

  /** Nodes hold what their names say. */
  ghost predicate Genuine(content: Content, nodes: map<Key, Value>) {
    forall k :: k in nodes ==> nodes[k] == content(k)
  }

  /** An era and an index in it. */
  type Slot = (nat, nat)

  type Journal = map<Slot, Record>

  ghost predicate Distinct(s: seq<Key>) {
    forall i, j :: 0 <= i < j < |s| ==> s[i] != s[j]
  }

  // ----- counting -----

  /** The records that insert a key. */
  ghost function Holders(j: Journal, k: Key): set<Slot> {
    set p | p in j && k in j[p].inserts
  }

  ghost predicate RecordOk(r: Record) {
    Distinct(r.inserts) && Distinct(r.deletes) && forall k :: k in r.inserts ==> k !in r.deletes
  }

  /** Indices of an era are used from zero on without gaps. */
  ghost predicate Dense(j: Journal) {
    forall p: Slot :: p in j && p.1 > 0 ==> (p.0, p.1 - 1) in j
  }

  ghost predicate JournalOk(j: Journal) {
    Dense(j) && forall p :: p in j ==> RecordOk(j[p])
  }

  lemma HoldersAdd(j: Journal, p: Slot, r: Record, k: Key)
    requires p !in j
    ensures |Holders(j[p := r], k)| == |Holders(j, k)| + (if k in r.inserts then 1 else 0)
  {
    var j' := j[p := r];
    if k in r.inserts {
      assert Holders(j', k) == Holders(j, k) + {p};
    } else {
      assert Holders(j', k) == Holders(j, k);
    }
  }

  lemma HoldersDrop(j: Journal, p: Slot, k: Key)
    requires p in j
    ensures |Holders(j - {p}, k)| == |Holders(j, k)| - (if k in j[p].inserts then 1 else 0)
  {
    if k in j[p].inserts {
      assert Holders(j - {p}, k) == Holders(j, k) - {p};
    } else {
      assert Holders(j - {p}, k) == Holders(j, k);
    }
  }

  /** The prefix of a list, as a set of keys that have been dealt with. */
  ghost predicate Done(keys: seq<Key>, i: nat, k: Key)
    requires i <= |keys|
  {
    k in keys[..i]
  }

  lemma DoneNext(keys: seq<Key>, i: nat, k: Key)
    requires i < |keys| && Distinct(keys)
    ensures Done(keys, i + 1, k) <==> Done(keys, i, k) || k == keys[i]
    ensures !Done(keys, i, keys[i])
  {
    assert keys[..i + 1] == keys[..i] + [keys[i]];
  }

  function One(b: bool): nat { if b then 1 else 0 }

  // ----- forks -----

  /** What a record asks of the archive it is merged into. */
  ghost predicate Fits(archive: set<Key>, r: Record) {
    (forall k :: k in r.deletes ==> k in archive) && (forall k :: k in r.inserts ==> k !in archive)
  }

  ghost function Enact(archive: set<Key>, r: Record): set<Key> {
    archive - (set k | k in r.deletes) + (set k | k in r.inserts)
  }

  /** The nodes of a fork: a chain of records on top of the archive. */
  ghost function ForkNodes(archive: set<Key>, chain: seq<Record>): set<Key>
    decreases |chain|
  {
    if chain == [] then archive else ForkNodes(Enact(archive, chain[0]), chain[1..])
  }

  lemma {:induction false} ForkNodesBound(archive: set<Key>, chain: seq<Record>, k: Key)
    requires k in ForkNodes(archive, chain)
    ensures k in archive || exists i :: 0 <= i < |chain| && k in chain[i].inserts
    decreases |chain|
  {
    if chain != [] {
      ForkNodesBound(Enact(archive, chain[0]), chain[1..], k);
      if k !in Enact(archive, chain[0]) {
        var i :| 0 <= i < |chain[1..]| && k in chain[1..][i].inserts;
        assert chain[i + 1] == chain[1..][i];
      }
    }
  }

  /** The node comes into the fork at record `i`, or before the first one from the archive. */
  ghost predicate Enters(archive: set<Key>, chain: seq<Record>, k: Key, i: nat)
    requires i <= |chain|
  {
    if i == 0 then k in archive else k in chain[i - 1].inserts
  }

  ghost predicate Stays(chain: seq<Record>, k: Key, i: nat) {
    forall j :: i <= j < |chain| ==> k !in chain[j].deletes
  }

  /** Exactly the nodes of a fork: those that come in at some point and that no later record deletes. */
  lemma {:induction false} ForkNodesExactly(archive: set<Key>, chain: seq<Record>, k: Key)
    ensures k in ForkNodes(archive, chain) <==> exists i :: 0 <= i <= |chain| && Enters(archive, chain, k, i) && Stays(chain, k, i)
    decreases |chain|
  {
    if chain == [] {
      assert Stays(chain, k, 0) && (Enters(archive, chain, k, 0) <==> k in archive);
    } else {
      var next, rest := Enact(archive, chain[0]), chain[1..];
      ForkNodesExactly(next, rest, k);
      if k in ForkNodes(archive, chain) {
        var i :| 0 <= i <= |rest| && Enters(next, rest, k, i) && Stays(rest, k, i);
        LaterEnters(archive, chain, k, i);
      }
      if i :| 0 <= i <= |chain| && Enters(archive, chain, k, i) && Stays(chain, k, i) {
        EarlierEnters(archive, chain, k, i);
      }
    }
  }

  lemma LaterEnters(archive: set<Key>, chain: seq<Record>, k: Key, i: nat)
    requires chain != [] && i < |chain| && Enters(Enact(archive, chain[0]), chain[1..], k, i) && Stays(chain[1..], k, i)
    ensures exists i' :: 0 <= i' <= |chain| && Enters(archive, chain, k, i') && Stays(chain, k, i')
  {
    var i' := if i == 0 && k !in chain[0].inserts then 0 else i + 1;
    forall j | i' <= j < |chain| ensures k !in chain[j].deletes {
      if j > 0 { assert chain[1..][j - 1] == chain[j]; }
    }
    assert Enters(archive, chain, k, i') && Stays(chain, k, i');
  }

  lemma EarlierEnters(archive: set<Key>, chain: seq<Record>, k: Key, i: nat)
    requires chain != [] && i <= |chain| && Enters(archive, chain, k, i) && Stays(chain, k, i)
    ensures exists i' :: 0 <= i' < |chain| && Enters(Enact(archive, chain[0]), chain[1..], k, i') && Stays(chain[1..], k, i')
  {
    var i' := if i == 0 then 0 else i - 1;
    forall j | i' <= j < |chain[1..]| ensures k !in chain[1..][j].deletes { assert chain[1..][j] == chain[j + 1]; }
    assert Enters(Enact(archive, chain[0]), chain[1..], k, i') && Stays(chain[1..], k, i');
  }

  // ----- reading back -----

  /** Eras are read back from the latest one down to the first without a record. */
  ghost predicate Visited(j: Journal, latest: nat, p: Slot) {
    p in j && p.0 <= latest && forall e :: p.0 <= e <= latest ==> (e, 0) in j
  }

  ghost function VisitedPart(j: Journal, latest: Option<nat>): Journal {
    map p | p in j && latest.Some? && Visited(j, latest.value, p) :: j[p]
  }

  ghost predicate Subjournal(a: Journal, b: Journal) {
    forall p :: p in a ==> p in b && a[p] == b[p]
  }

  lemma HoldersWithin(a: Journal, b: Journal, k: Key)
    requires Subjournal(a, b)
    ensures Holders(a, k) <= Holders(b, k) && |Holders(a, k)| <= |Holders(b, k)|
  {
    SetSize(Holders(a, k), Holders(b, k));
  }

  lemma {:induction false} SetSize(a: set<Slot>, b: set<Slot>)
    requires a <= b
    ensures |a| <= |b| && (|a| == |b| ==> a == b)
  {
    if a != {} {
      var x :| x in a;
      SetSize(a - {x}, b - {x});
    }
  }

  /** The pending eras end at the latest one and have no gap. */
  ghost predicate Contiguous(j: Journal, latest: Option<nat>) {
    forall p :: p in j ==> latest.Some? && Visited(j, latest.value, p)
  }

  function Later(latest: Option<nat>, now: nat): Option<nat> {
    if latest.None? || now > latest.value then Some(now) else latest
  }

  /** Journalling into a pending era, or the one after the latest, leaves no gap. */
  lemma JournalContiguous(j: Journal, latest: Option<nat>, p: Slot, r: Record)
    requires Contiguous(j, latest) && p !in j && (p.1 > 0 ==> (p.0, 0) in j)
    requires (p.0, 0) in j || (latest.Some? && p.0 == latest.value + 1) || (j == map[] && (latest.Some? ==> p.0 > latest.value))
    ensures Contiguous(j[p := r], Later(latest, p.0))
  {
    var j', latest' := j[p := r], Later(latest, p.0).value;
    forall q | q in j' ensures Visited(j', latest', q) {
      if q in j { assert Visited(j, latest.value, q); }
      if (p.0, 0) in j { assert Visited(j, latest.value, (p.0, 0)); }
    }
  }

  /** Marking the earliest pending era leaves no gap. */
  lemma MarkContiguous(j: Journal, latest: Option<nat>, era: nat)
    requires Contiguous(j, latest) && forall p :: p in j ==> p.0 >= era
    ensures Contiguous(j - (set p | p in j && p.0 == era), latest)
  {
    var j' := j - (set p | p in j && p.0 == era);
    forall q | q in j' ensures Visited(j', latest.value, q) { assert Visited(j, latest.value, q); }
  }

  /** What was read when the scan stands at an index of an era. */
  ghost predicate SeenTo(j: Journal, latest: nat, era: nat, index: nat, seen: Journal) {
    && era <= latest
    && (forall e :: era < e <= latest ==> (e, 0) in j)
    && seen == map p | p in j && (era < p.0 <= latest || (p.0 == era && p.1 < index)) :: j[p]
  }

  lemma SeenNext(j: Journal, latest: nat, era: nat, index: nat, seen: Journal)
    requires SeenTo(j, latest, era, index, seen) && (era, index) in j
    ensures (era, index) !in seen && SeenTo(j, latest, era, index + 1, seen[(era, index) := j[(era, index)]])
  {
  }

  lemma SeenDown(j: Journal, latest: nat, era: nat, index: nat, seen: Journal)
    requires SeenTo(j, latest, era, index, seen) && JournalOk(j) && (era, index) !in j && index > 0 && era > 0
    requires forall i :: 0 <= i < index ==> (era, i) in j
    ensures SeenTo(j, latest, era - 1, 0, seen)
  {
    forall p | p in j && p.0 == era ensures p.1 < index { if p.1 >= index { EraEnds(j, era, index, p.1); } }
  }

  /** The scan ends with exactly the visited records. */
  lemma SeenAll(j: Journal, latest: nat, era: nat, index: nat, seen: Journal)
    requires SeenTo(j, latest, era, index, seen) && JournalOk(j) && (era, index) !in j && (index == 0 || era == 0)
    requires forall i :: 0 <= i < index ==> (era, i) in j
    ensures seen == VisitedPart(j, Some(latest))
  {
    forall p | p in j && p.0 == era ensures p.1 < index { if p.1 >= index { EraEnds(j, era, index, p.1); } }
    forall p | p in j ensures p in seen <==> Visited(j, latest, p) {
      if p.0 == era && p.0 <= latest && index > 0 { assert (era, 0) in j; }
    }
  }

  /** The slots of an era from an index on. */
  ghost function SlotsFrom(j: Journal, era: nat, index: nat): set<Slot> {
    set p | p in j && p.0 == era && p.1 >= index
  }

  lemma SlotsShrink(j: Journal, era: nat, index: nat)
    requires (era, index) in j
    ensures |SlotsFrom(j, era, index + 1)| < |SlotsFrom(j, era, index)|
  {
    assert SlotsFrom(j, era, index) == SlotsFrom(j, era, index + 1) + {(era, index)};
  }

  /** Without a gap below it, an era ends at its first free index. */
  lemma {:induction false} EraEnds(j: Journal, era: nat, index: nat, i: nat)
    requires Dense(j) && (era, index) !in j && i >= index
    ensures (era, i) !in j
    decreases i
  {
    if i > index && (era, i) in j { EraEnds(j, era, index, i - 1); }
  }

  lemma EraSettled(j: Journal, era: nat, index: nat)
    requires JournalOk(j) && (era, index) !in j
    ensures SlotsBelow(j, era, index) == set p | p in j && p.0 == era
    ensures forall p :: p in j && p.0 == era ==> p.1 < index
    ensures JournalOk(j - SlotsBelow(j, era, index))
  {
    forall p | p in j && p.0 == era ensures p.1 < index {
      if p.1 >= index { EraEnds(j, era, index, p.1); }
    }
  }

  /** The record is the canonical one of its era. */
  ghost predicate Canonical(j: Journal, era: nat, canonId: Id, i: nat) {
    (era, i) in j && j[(era, i)].id == canonId
  }

  /** Ids are unique in the era, and its canonical record fits the archive. */
  ghost predicate Markable(j: Journal, era: nat, canonId: Id, archive: set<Key>) {
    && (forall a, b :: Canonical(j, era, canonId, a) && Canonical(j, era, canonId, b) ==> a == b)
    && forall i :: Canonical(j, era, canonId, i) ==> Fits(archive, j[(era, i)])
  }

  /** The archive after the first records of an era were settled. */
  ghost function Settled(j: Journal, era: nat, canonId: Id, archive: set<Key>, index: nat): set<Key> {
    if index == 0 then archive
    else
      var before := Settled(j, era, canonId, archive, index - 1);
      if Canonical(j, era, canonId, index - 1) then Enact(before, j[(era, index - 1)]) else before
  }

  /** Only the canonical record counts. */
  lemma {:induction false} SettledIs(j: Journal, era: nat, canonId: Id, archive: set<Key>, index: nat)
    requires Markable(j, era, canonId, archive)
    ensures (forall i :: 0 <= i < index ==> !Canonical(j, era, canonId, i)) ==> Settled(j, era, canonId, archive, index) == archive
    ensures forall i :: 0 <= i < index && Canonical(j, era, canonId, i) ==>
      Settled(j, era, canonId, archive, index) == Enact(archive, j[(era, i)])
  {
    if index > 0 { SettledIs(j, era, canonId, archive, index - 1); }
  }

  /** The slots of an era below an index. */
  ghost function SlotsBelow(j: Journal, era: nat, index: nat): set<Slot> {
    set p | p in j && p.0 == era && p.1 < index
  }

  /** The keys of a list of nodes. */
  function Names(ins: seq<(Key, Value)>): (keys: seq<Key>)
    ensures |keys| == |ins| && forall i :: 0 <= i < |ins| ==> keys[i] == ins[i].0
  {
    seq(|ins|, i requires 0 <= i < |ins| => ins[i].0)
  }
}
