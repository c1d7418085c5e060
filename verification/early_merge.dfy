/** The early-merge journal database: inserted nodes go to the backing store at once, counted by how
    many pending journal records insert them, until a record of their era becomes canonical. */
module EarlyMerge {
  import opened Basics
  import opened Journals

  datatype RefInfo = RefInfo(queueRefs: nat, inArchive: bool)

  /** Counts in memory, and the markers and nodes on disk. */
  datatype Store = Store(refs: map<Key, RefInfo>, markers: set<Key>, backing: map<Key, Value>)

  // ----- one key -----

  /** The bookkeeping of a key that `pending` records insert. */
  ghost predicate KeyOk(s: Store, k: Key, pending: nat, archived: bool) {
    && (k in s.refs <==> pending > 0)
    && (k in s.refs ==> s.refs[k] == RefInfo(pending, archived))
    && (k in s.markers <==> pending > 0 && archived)
    && (k in s.backing <==> pending > 0 || archived)
  }

  /** Nothing but the key's own entries differs. */
  ghost predicate OnlyKey(s: Store, s': Store, k: Key) {
    forall x :: x != k ==>
      && (x in s'.refs <==> x in s.refs) && (x in s.refs ==> s'.refs[x] == s.refs[x])
      && (x in s'.markers <==> x in s.markers)
      && (x in s'.backing <==> x in s.backing) && (x in s.backing ==> s'.backing[x] == s.backing[x])
  }

  function InsertKey(s: Store, k: Key, v: Value): Store {
    if k in s.refs then s.(refs := s.refs[k := s.refs[k].(queueRefs := s.refs[k].queueRefs + 1)])
    else if k in s.backing then s.(refs := s.refs[k := RefInfo(1, true)], markers := s.markers + {k})
    else s.(refs := s.refs[k := RefInfo(1, false)], backing := s.backing[k := v])
  }

  /** Removal of a key from the archive or from the queue; `None` is a panic. */
  function RemoveKey(s: Store, k: Key, fromArchive: bool): Option<Store> {
    if k !in s.refs then Some(s.(backing := s.backing - {k}))
    else
      var info := s.refs[k];
      if info.inArchive && fromArchive then
        Some(s.(refs := s.refs[k := info.(inArchive := false)], markers := s.markers - {k}))
      else if info.queueRefs > 1 then Some(s.(refs := s.refs[k := info.(queueRefs := info.queueRefs - 1)]))
      else if info.queueRefs == 0 then None
      else if info.inArchive then Some(s.(refs := s.refs - {k}, markers := s.markers - {k}))
      else Some(s.(refs := s.refs - {k}, backing := s.backing - {k}))
  }

  /** An insert becomes canonical. */
  function FinaliseKey(s: Store, k: Key): Store {
    if k !in s.refs || s.refs[k].inArchive then s
    else if s.refs[k].queueRefs == 1 then s.(refs := s.refs - {k})
    else
      var x := s.refs[k].queueRefs;
      s.(refs := s.refs[k := RefInfo(if x == 0 then 0 else x - 1, true)], markers := s.markers + {k})
  }

  lemma InsertKeyOk(s: Store, k: Key, v: Value, pending: nat, archived: bool)
    requires KeyOk(s, k, pending, archived)
    ensures KeyOk(InsertKey(s, k, v), k, pending + 1, archived) && OnlyKey(s, InsertKey(s, k, v), k)
    ensures k in s.backing ==> InsertKey(s, k, v).backing[k] == s.backing[k]
    ensures k !in s.backing ==> InsertKey(s, k, v).backing[k] == v
  {
  }

  /** Reverting an insert takes one reference away and never panics. */
  lemma RevertKeyOk(s: Store, k: Key, pending: nat, archived: bool)
    requires KeyOk(s, k, pending, archived) && pending > 0
    ensures RemoveKey(s, k, false).Some?
    ensures KeyOk(RemoveKey(s, k, false).value, k, pending - 1, archived) && OnlyKey(s, RemoveKey(s, k, false).value, k)
  {
  }

  /** Enacting a delete takes the key out of the archive exactly when the key was archived, or was
      neither archived nor pending. */
  lemma ExpungeKeyOk(s: Store, k: Key, pending: nat, archived: bool)
    requires KeyOk(s, k, pending, archived)
    ensures RemoveKey(s, k, true).Some? && OnlyKey(s, RemoveKey(s, k, true).value, k)
    ensures KeyOk(RemoveKey(s, k, true).value, k, pending, false) <==> archived || pending == 0
  {
  }

  /** Finalising an insert moves the key to the archive exactly when it was not archived before. */
  lemma FinaliseKeyOk(s: Store, k: Key, pending: nat, archived: bool)
    requires KeyOk(s, k, pending, archived) && pending > 0
    ensures OnlyKey(s, FinaliseKey(s, k), k)
    ensures KeyOk(FinaliseKey(s, k), k, pending - 1, true) <==> !archived
  {
  }

  lemma OnlyKeyFrame(s: Store, s': Store, k: Key, x: Key, pending: nat, archived: bool)
    requires OnlyKey(s, s', k) && x != k && KeyOk(s, x, pending, archived)
    ensures KeyOk(s', x, pending, archived)
  {
  }

  // ----- the journal -----

  /** Counts are the number of pending inserts, flags and markers are membership in the archive,
      and the backing store holds what is archived or pending. */
  ghost predicate Counted(s: Store, j: Journal, archive: set<Key>) {
    forall k :: KeyOk(s, k, |Holders(j, k)|, k in archive)
  }

  /** Nodes are only taken away. */
  ghost predicate Shrinks(nodes: map<Key, Value>, nodes': map<Key, Value>) {
    forall k :: k in nodes' ==> k in nodes && nodes'[k] == nodes[k]
  }

  // ----- whole lists of keys -----

  method InsertKeys(
      s: Store, inserts: seq<(Key, Value)>, ghost content: Content, ghost keys: seq<Key>, ghost j: Journal, ghost archive: set<Key>)
    returns (s': Store)
    requires Counted(s, j, archive) && Distinct(keys) && Genuine(content, s.backing)
    requires |keys| == |inserts| && forall i :: 0 <= i < |keys| ==> inserts[i] == (keys[i], content(keys[i]))
    ensures Genuine(content, s'.backing)
    ensures forall k :: KeyOk(s', k, |Holders(j, k)| + One(k in keys), k in archive)
    ensures forall k :: k in s.backing ==> k in s'.backing && s'.backing[k] == s.backing[k]
    ensures forall i :: 0 <= i < |inserts| && inserts[i].0 !in s.backing ==>
      inserts[i].0 in s'.backing && s'.backing[inserts[i].0] == inserts[i].1
  {
    s' := s;
    for i := 0 to |inserts|
      invariant Genuine(content, s'.backing)
      invariant forall k :: KeyOk(s', k, |Holders(j, k)| + One(Done(keys, i, k)), k in archive)
      invariant forall k :: k in s.backing ==> k in s'.backing && s'.backing[k] == s.backing[k]
      invariant forall x :: 0 <= x < i && inserts[x].0 !in s.backing ==>
        inserts[x].0 in s'.backing && s'.backing[inserts[x].0] == inserts[x].1
      invariant forall x :: i <= x < |inserts| ==> (inserts[x].0 in s'.backing <==> inserts[x].0 in s.backing)
    {
      var (h, d) := inserts[i];
      ghost var before := s';
      DoneNext(keys, i, h);
      InsertKeyOk(s', h, d, |Holders(j, h)|, h in archive);
      s' := InsertKey(s', h, d);
      forall k ensures KeyOk(s', k, |Holders(j, k)| + One(Done(keys, i + 1, k)), k in archive) {
        DoneNext(keys, i, k);
        if k != h { OnlyKeyFrame(before, s', h, k, |Holders(j, k)| + One(Done(keys, i, k)), k in archive); }
      }
      assert OnlyKey(before, s', h);
      assert forall x :: i < x < |inserts| ==> inserts[x].0 == keys[x] && keys[x] != h;
    }
    assert keys[..|keys|] == keys;
  }

  /** Reverts the inserts of a record that lost. */
  method RevertKeys(s: Store, inserts: seq<Key>, ghost j: Journal, ghost archive: set<Key>, ghost p: Slot) returns (s': Store)
    requires Counted(s, j, archive) && p in j && inserts == j[p].inserts && Distinct(inserts)
    ensures Counted(s', j - {p}, archive) && Shrinks(s.backing, s'.backing)
  {
    s' := s;
    for i := 0 to |inserts|
      invariant Shrinks(s.backing, s'.backing)
      invariant forall k :: |Holders(j, k)| >= One(Done(inserts, i, k))
      invariant forall k :: KeyOk(s', k, |Holders(j, k)| - One(Done(inserts, i, k)), k in archive)
    {
      var h := inserts[i];
      ghost var before := s';
      DoneNext(inserts, i, h);
      HoldersDrop(j, p, h);
      RevertKeyOk(s', h, |Holders(j, h)|, h in archive);
      s' := RemoveKey(s', h, false).value;
      forall k ensures |Holders(j, k)| >= One(Done(inserts, i + 1, k)) && KeyOk(s', k, |Holders(j, k)| - One(Done(inserts, i + 1, k)), k in archive) {
        DoneNext(inserts, i, k);
        if k != h { OnlyKeyFrame(before, s', h, k, |Holders(j, k)| - One(Done(inserts, i, k)), k in archive); }
      }
    }
    assert inserts[..|inserts|] == inserts;
    forall k ensures KeyOk(s', k, |Holders(j - {p}, k)|, k in archive) { HoldersDrop(j, p, k); }
  }

  /** Enacts the deletes of the canonical record. */
  method ExpungeKeys(s: Store, deletes: seq<Key>, ghost j: Journal, ghost archive: set<Key>) returns (s': Store)
    requires Counted(s, j, archive) && Distinct(deletes) && forall k :: k in deletes ==> k in archive
    ensures Counted(s', j, archive - (set k | k in deletes)) && Shrinks(s.backing, s'.backing)
  {
    s' := s;
    for i := 0 to |deletes|
      invariant Shrinks(s.backing, s'.backing)
      invariant forall k :: KeyOk(s', k, |Holders(j, k)|, k in archive && !Done(deletes, i, k))
    {
      var h := deletes[i];
      ghost var before := s';
      DoneNext(deletes, i, h);
      ExpungeKeyOk(s', h, |Holders(j, h)|, true);
      s' := RemoveKey(s', h, true).value;
      forall k ensures KeyOk(s', k, |Holders(j, k)|, k in archive && !Done(deletes, i + 1, k)) {
        DoneNext(deletes, i, k);
        if k != h { OnlyKeyFrame(before, s', h, k, |Holders(j, k)|, k in archive && !Done(deletes, i, k)); }
      }
    }
    assert deletes[..|deletes|] == deletes;
  }

  /** Moves the inserts of the canonical record from the queue to the archive. */
  method FinaliseKeys(s: Store, inserts: seq<Key>, ghost j: Journal, ghost archive: set<Key>, ghost p: Slot) returns (s': Store)
    requires Counted(s, j, archive) && p in j && inserts == j[p].inserts && Distinct(inserts)
    requires forall k :: k in inserts ==> k !in archive
    ensures Counted(s', j - {p}, archive + (set k | k in inserts)) && Shrinks(s.backing, s'.backing)
  {
    s' := s;
    for i := 0 to |inserts|
      invariant Shrinks(s.backing, s'.backing)
      invariant forall k :: |Holders(j, k)| >= One(Done(inserts, i, k))
      invariant forall k :: KeyOk(s', k, |Holders(j, k)| - One(Done(inserts, i, k)), k in archive || Done(inserts, i, k))
    {
      var h := inserts[i];
      ghost var before := s';
      DoneNext(inserts, i, h);
      HoldersDrop(j, p, h);
      FinaliseKeyOk(s', h, |Holders(j, h)|, false);
      s' := FinaliseKey(s', h);
      forall k
        ensures |Holders(j, k)| >= One(Done(inserts, i + 1, k))
        ensures KeyOk(s', k, |Holders(j, k)| - One(Done(inserts, i + 1, k)), k in archive || Done(inserts, i + 1, k))
      {
        DoneNext(inserts, i, k);
        if k != h {
          OnlyKeyFrame(before, s', h, k, |Holders(j, k)| - One(Done(inserts, i, k)), k in archive || Done(inserts, i, k));
        }
      }
    }
    assert inserts[..|inserts|] == inserts;
    forall k ensures KeyOk(s', k, |Holders(j - {p}, k)|, k in archive || k in inserts) { HoldersDrop(j, p, k); }
  }

  lemma AppendCounted(s: Store, j: Journal, archive: set<Key>, p: Slot, record: Record)
    requires p !in j && RecordOk(record) && JournalOk(j) && (p.1 > 0 ==> (p.0, p.1 - 1) in j)
    requires forall k :: KeyOk(s, k, |Holders(j, k)| + One(k in record.inserts), k in archive)
    ensures Counted(s, j[p := record], archive) && JournalOk(j[p := record])
  {
    forall k ensures KeyOk(s, k, |Holders(j[p := record], k)|, k in archive) { HoldersAdd(j, p, record, k); }
  }

  lemma SettledArchive(j: Journal, era: nat, canonId: Id, archive: set<Key>, index: nat)
    requires Markable(j, era, canonId, archive) && forall i: nat :: Canonical(j, era, canonId, i) ==> i < index
    ensures forall i :: Canonical(j, era, canonId, i) ==>
      ArchiveSettled(archive, Settled(j, era, canonId, archive, index), j[(era, i)].inserts, j[(era, i)].deletes)
  {
    SettledIs(j, era, canonId, archive, index);
  }

  /** The backing store holds exactly the archived and the pending nodes. */
  lemma BackedExactly(s: Store, j: Journal, archive: set<Key>)
    requires Counted(s, j, archive)
    ensures forall k :: k in s.backing <==> k in archive || Holders(j, k) != {}
  {
    forall k ensures k in s.backing <==> k in archive || Holders(j, k) != {} {
      assert KeyOk(s, k, |Holders(j, k)|, k in archive);
    }
  }

  // ----- canonical records and forks -----

  /** Every node of every retained fork is in the backing store, with the value its name says. */
  lemma ForkReadable(content: Content, s: Store, j: Journal, archive: set<Key>, chain: seq<Record>, k: Key)
    requires Counted(s, j, archive) && Genuine(content, s.backing) && k in ForkNodes(archive, chain)
    requires forall i :: 0 <= i < |chain| ==> exists p :: p in j && j[p] == chain[i]
    ensures k in s.backing && s.backing[k] == content(k)
  {
    ForkNodesBound(archive, chain, k);
    assert KeyOk(s, k, |Holders(j, k)|, k in archive);
    if k !in archive {
      var i :| 0 <= i < |chain| && k in chain[i].inserts;
      var p :| p in j && j[p] == chain[i];
      assert p in Holders(j, k);
    }
  }

  // ----- recovery -----

  /** The counts that reading a journal gives. */
  ghost predicate Replays(refs: map<Key, RefInfo>, markers: set<Key>, j: Journal) {
    forall k ::
      && (k in refs <==> |Holders(j, k)| > 0)
      && (k in refs ==> refs[k] == RefInfo(|Holders(j, k)|, k in markers))
  }

  function ReplayKey(refs: map<Key, RefInfo>, markers: set<Key>, k: Key): map<Key, RefInfo> {
    if k in refs then refs[k := refs[k].(queueRefs := refs[k].queueRefs + 1)] else refs[k := RefInfo(1, k in markers)]
  }

  method ReplayKeys(refs: map<Key, RefInfo>, markers: set<Key>, inserts: seq<Key>, ghost j: Journal, ghost p: Slot, ghost r: Record)
    returns (refs': map<Key, RefInfo>)
    requires Replays(refs, markers, j) && p !in j && r.inserts == inserts && Distinct(inserts)
    ensures Replays(refs', markers, j[p := r])
  {
    refs' := refs;
    for i := 0 to |inserts|
      invariant forall k ::
        && (k in refs' <==> |Holders(j, k)| + One(Done(inserts, i, k)) > 0)
        && (k in refs' ==> refs'[k] == RefInfo(|Holders(j, k)| + One(Done(inserts, i, k)), k in markers))
    {
      DoneNext(inserts, i, inserts[i]);
      refs' := ReplayKey(refs', markers, inserts[i]);
      forall k ensures Done(inserts, i + 1, k) <==> Done(inserts, i, k) || k == inserts[i] { DoneNext(inserts, i, k); }
    }
    assert inserts[..|inserts|] == inserts;
    forall k ensures |Holders(j[p := r], k)| == |Holders(j, k)| + One(k in inserts) { HoldersAdd(j, p, r, k); }
  }

  /** Recovery gives back the counts exactly when no record with inserts lies beyond a gap. */
  lemma RecoveryExact(s: Store, j: Journal, archive: set<Key>, latest: Option<nat>, refs: map<Key, RefInfo>)
    requires Counted(s, j, archive) && Replays(refs, s.markers, VisitedPart(j, latest))
    ensures refs == s.refs <==> forall p :: p in j && j[p].inserts != [] ==> latest.Some? && Visited(j, latest.value, p)
  {
    var part := VisitedPart(j, latest);
    if forall p :: p in j && j[p].inserts != [] ==> p in part {
      forall k ensures (k in refs <==> k in s.refs) && (k in refs ==> refs[k] == s.refs[k]) {
        assert Holders(part, k) == Holders(j, k);
        assert KeyOk(s, k, |Holders(j, k)|, k in archive);
      }
    } else {
      var p :| p in j && j[p].inserts != [] && p !in part;
      var k := j[p].inserts[0];
      HoldersWithin(part, j, k);
      SetSize(Holders(part, k), Holders(j, k));
      assert p in Holders(j, k) && p !in Holders(part, k);
      assert KeyOk(s, k, |Holders(j, k)|, k in archive);
    }
  }

  // ----- the database -----

  /** The archive after a canonical record: its deletes are gone, its inserts are there. */
  ghost predicate ArchiveSettled(archive: set<Key>, archive': set<Key>, inserts: seq<Key>, deletes: seq<Key>) {
    forall k :: k in archive' <==> k in inserts || (k in archive && k !in deletes)
  }

  class EarlyMergeDb {
    ghost const content: Content
    var overlay: map<Key, (Value, int)>
    var backing: map<Key, Value>
    var markers: set<Key>
    var journal: Journal
    var storedEra: Option<nat>
    var refs: map<Key, RefInfo>
    var latestEra: Option<nat>
    ghost var archive: set<Key>

    ghost function Model(): Store
      reads this
    {
      Store(refs, markers, backing)
    }

    ghost predicate Valid()
      reads this
    {
      Counted(Model(), journal, archive) && JournalOk(journal) && latestEra == storedEra && Genuine(content, backing)
    }

    constructor (ghost content: Content)
      ensures Valid() && this.content == content && journal == map[] && archive == {} && latestEra == None && overlay == map[]
    {
      this.content := content;
      overlay, backing, markers, journal := map[], map[], {}, map[];
      storedEra, refs, latestEra, archive := None, map[], None, {};
    }

    /** The overlay shadows the backing store where its count is positive. */
    method Get(key: Key) returns (r: Option<Value>)
      ensures Valid() && !(key in overlay && overlay[key].1 > 0) && (key in archive || Holders(journal, key) != {})
          ==> r == Some(content(key))
      ensures r == if key in overlay && overlay[key].1 > 0 then Some(overlay[key].0)
                   else if key in backing then Some(backing[key]) else None
    {
      assert Valid() ==> KeyOk(Model(), key, |Holders(journal, key)|, key in archive);
      if key in overlay && overlay[key].1 > 0 { return Some(overlay[key].0); }
      return if key in backing then Some(backing[key]) else None;
    }

    method Emplace(key: Key, value: Value)
      requires Valid()
      modifies this`overlay
      ensures Valid() && key in overlay && overlay == old(overlay)[key := overlay[key]]
      ensures overlay[key].1 == (if key in old(overlay) then old(overlay)[key].1 else 0) + 1
      ensures key !in old(overlay) || old(overlay)[key].1 <= 0 ==> overlay[key].0 == value
    {
      if key in overlay {
        var (v, rc) := overlay[key];
        overlay := overlay[key := (if rc <= 0 then value else v, rc + 1)];
      } else {
        overlay := overlay[key := (value, 1)];
      }
    }

    method Remove(key: Key)
      requires Valid()
      modifies this`overlay
      ensures Valid() && key in overlay && overlay == old(overlay)[key := overlay[key]]
      ensures overlay[key].1 == (if key in old(overlay) then old(overlay)[key].1 else 0) - 1
    {
      if key in overlay {
        overlay := overlay[key := (overlay[key].0, overlay[key].1 - 1)];
      } else {
        overlay := overlay[key := ([], -1)];
      }
    }

    /** Splits the overlay into what it inserts and what it removes; `None` is a failed assertion. */
    method Drain() returns (r: Option<(seq<(Key, Value)>, seq<Key>)>, ghost keys: seq<Key>)
      modifies this`overlay
      ensures r.Some? <==> forall k :: k in old(overlay) ==> -1 <= old(overlay)[k].1 <= 1
      ensures r.Some? ==>
        var (ins, dels) := r.value;
        && overlay == map[] && |keys| == |ins| && RecordOk(Record([], keys, dels))
        && (forall i :: 0 <= i < |ins| ==> keys[i] == ins[i].0 && ins[i].0 in old(overlay) && old(overlay)[ins[i].0] == (ins[i].1, 1))
        && (forall k :: k in keys <==> k in old(overlay) && old(overlay)[k].1 > 0)
        && (forall k :: k in dels <==> k in old(overlay) && old(overlay)[k].1 < 0)
    {
      var rest := overlay.Keys;
      var ins: seq<(Key, Value)>, dels: seq<Key> := [], [];
      keys := [];
      while rest != {}
        invariant rest <= overlay.Keys && overlay == old(overlay)
        invariant forall k :: k in overlay && k !in rest ==> -1 <= overlay[k].1 <= 1
        invariant |keys| == |ins| && Distinct(keys) && Distinct(dels)
        invariant forall i :: 0 <= i < |ins| ==> keys[i] == ins[i].0 && ins[i].0 in overlay && overlay[ins[i].0] == (ins[i].1, 1)
        invariant forall k :: k in keys <==> k in overlay && k !in rest && overlay[k].1 > 0
        invariant forall k :: k in dels <==> k in overlay && k !in rest && overlay[k].1 < 0
        decreases rest
      {
        var k :| k in rest;
        var (v, rc) := overlay[k];
        if rc > 1 || rc < -1 { return None, keys; }
        rest := rest - {k};
        if rc > 0 {
          ins, keys := ins + [(k, v)], keys + [k];
        } else if rc < 0 {
          dels := dels + [k];
        }
      }
      overlay := map[];
      r := Some((ins, dels));
    }

    /** The first free index of an era. */
    method FreeIndex(era: nat) returns (index: nat)
      requires JournalOk(journal)
      ensures (era, index) !in journal && forall i :: 0 <= i < index ==> (era, i) in journal
    {
      index := 0;
      while (era, index) in journal
        invariant forall i :: 0 <= i < index ==> (era, i) in journal
        decreases |SlotsFrom(journal, era, index)|
      {
        SlotsShrink(journal, era, index);
        index := index + 1;
      }
    }

    /** Journals the overlay under an era and an id, in the era's first free slot. */
    method JournalUnder(now: nat, id: Id) returns (r: Option<nat>, ghost slot: Slot, ghost record: Record)
      requires Valid() && forall k :: k in overlay && overlay[k].1 > 0 ==> overlay[k].0 == content(k)
      modifies this
      ensures r.Some? <==> forall k :: k in old(overlay) ==> -1 <= old(overlay)[k].1 <= 1
      ensures r.Some? ==>
        && Valid() && archive == old(archive) && overlay == map[] && latestEra == Later(old(latestEra), now)
        && slot.0 == now && slot !in old(journal) && journal == old(journal)[slot := record]
        && (slot.1 > 0 ==> (now, 0) in old(journal))
        && record.id == id
        && (forall k :: k in record.inserts <==> k in old(overlay) && old(overlay)[k].1 > 0)
        && (forall k :: k in record.deletes <==> k in old(overlay) && old(overlay)[k].1 < 0)
        && (forall k :: k in old(backing) ==> k in backing && backing[k] == old(backing)[k])
    {
      var index := FreeIndex(now);
      var drained;
      ghost var keys;
      drained, keys := Drain();
      slot, record := (now, index), Record(id, keys, []);
      if drained.None? { return None, slot, record; }
      var (ins, dels) := drained.value;
      record := Record(id, keys, dels);
      Append(now, index, id, ins, dels, keys);
      r := Some(|ins| + |dels|);
    }

    /** Counts the inserts and writes the record. */
    method Append(now: nat, index: nat, id: Id, ins: seq<(Key, Value)>, dels: seq<Key>, ghost keys: seq<Key>)
      requires Valid() && (now, index) !in journal && (index > 0 ==> (now, index - 1) in journal)
      requires RecordOk(Record(id, keys, dels)) && |keys| == |ins| && forall i :: 0 <= i < |ins| ==> ins[i] == (keys[i], content(keys[i]))
      modifies this`refs, this`markers, this`backing, this`journal, this`storedEra, this`latestEra
      ensures Valid() && latestEra == Later(old(latestEra), now)
      ensures journal == old(journal)[(now, index) := Record(id, keys, dels)]
      ensures forall k :: k in old(backing) ==> k in backing && backing[k] == old(backing)[k]
    {
      var s := InsertKeys(Store(refs, markers, backing), ins, content, keys, journal, archive);
      var names := Names(ins);
      assert names == keys;
      var p, record := (now, index), Record(id, names, dels);
      AppendCounted(s, journal, archive, p, record);
      refs, markers, backing := s.refs, s.markers, s.backing;
      journal := journal[p := record];
      if latestEra.None? || now > latestEra.value {
        storedEra, latestEra := Some(now), Some(now);
      }
    }

    /** The first records of the era are settled and gone from the journal. */
    ghost predicate Settling(era: nat, index: nat, canonId: Id, j: Journal, before: set<Key>)
      reads this
    {
      && journal == j - SlotsBelow(j, era, index) && Genuine(content, backing)
      && Counted(Model(), journal, archive) && archive == Settled(j, era, canonId, before, index)
    }

    method SettleNext(era: nat, index: nat, canonId: Id, ghost j: Journal, ghost before: set<Key>)
      requires Settling(era, index, canonId, j, before) && (era, index) in journal
      requires JournalOk(j) && Markable(j, era, canonId, before)
      modifies this`refs, this`markers, this`backing, this`archive, this`journal
      ensures Settling(era, index + 1, canonId, j, before)
    {
      SettledIs(j, era, canonId, before, index);
      assert Canonical(j, era, canonId, index) <==> journal[(era, index)].id == canonId;
      SettleRecord((era, index), canonId);
      journal := journal - {(era, index)};
      assert SlotsBelow(j, era, index + 1) == SlotsBelow(j, era, index) + {(era, index)};
    }

    /** Settles every record of an era, and drops the era from the journal. */
    method MarkCanonical(era: nat, canonId: Id)
      requires Valid() && Markable(journal, era, canonId, archive)
      modifies this`refs, this`markers, this`backing, this`archive, this`journal
      ensures Valid()
      ensures journal == old(journal) - (set p | p in old(journal) && p.0 == era)
      ensures forall i :: Canonical(old(journal), era, canonId, i) ==> archive == Enact(old(archive), old(journal)[(era, i)])
      ensures (forall i :: !Canonical(old(journal), era, canonId, i)) ==> archive == old(archive)
      ensures forall i :: Canonical(old(journal), era, canonId, i) ==>
        ArchiveSettled(old(archive), archive, old(journal)[(era, i)].inserts, old(journal)[(era, i)].deletes)
      ensures forall k :: k in backing <==> k in archive || Holders(journal, k) != {}
    {
      ghost var j, before := journal, archive;
      ghost var index := SettleEra(era, canonId);
      SettledIs(j, era, canonId, before, index);
      SettledArchive(j, era, canonId, before, index);
      BackedExactly(Model(), journal, archive);
    }

    method SettleEra(era: nat, canonId: Id) returns (ghost length: nat)
      requires Valid() && Markable(journal, era, canonId, archive)
      modifies this`refs, this`markers, this`backing, this`archive, this`journal
      ensures Valid() && archive == Settled(old(journal), era, canonId, old(archive), length)
      ensures journal == old(journal) - (set p | p in old(journal) && p.0 == era)
      ensures forall i: nat :: Canonical(old(journal), era, canonId, i) ==> i < length
    {
      ghost var j, before := journal, archive;
      var index := 0;
      while (era, index) in journal
        invariant Settling(era, index, canonId, j, before)
        decreases |SlotsFrom(j, era, index)|
      {
        SlotsShrink(j, era, index);
        SettleNext(era, index, canonId, j, before);
        index := index + 1;
      }
      EraSettled(j, era, index);
      length := index;
    }

    /** Reads the counts back from the journal and the markers. */
    method ReadRefs() returns (result: map<Key, RefInfo>)
      requires JournalOk(journal)
      ensures Replays(result, markers, VisitedPart(journal, storedEra))
    {
      result := map[];
      ghost var seen: Journal := map[];
      if storedEra.None? {
        assert VisitedPart(journal, storedEra) == map[];
        return;
      }
      var latest := storedEra.value;
      var era := latest;
      while true
        invariant SeenTo(journal, latest, era, 0, seen) && Replays(result, markers, seen)
        decreases era
      {
        var index;
        result, index, seen := ReadEra(result, latest, era, seen);
        if index == 0 || era == 0 {
          SeenAll(journal, latest, era, index, seen);
          return;
        }
        SeenDown(journal, latest, era, index, seen);
        era := era - 1;
      }
    }

    method ReadEra(refs: map<Key, RefInfo>, ghost latest: nat, era: nat, ghost seen: Journal)
      returns (result: map<Key, RefInfo>, index: nat, ghost seen': Journal)
      requires JournalOk(journal) && SeenTo(journal, latest, era, 0, seen) && Replays(refs, markers, seen)
      ensures (era, index) !in journal && forall i :: 0 <= i < index ==> (era, i) in journal
      ensures SeenTo(journal, latest, era, index, seen') && Replays(result, markers, seen')
    {
      result, index, seen' := refs, 0, seen;
      while (era, index) in journal
        invariant forall i :: 0 <= i < index ==> (era, i) in journal
        invariant SeenTo(journal, latest, era, index, seen') && Replays(result, markers, seen')
        decreases |SlotsFrom(journal, era, index)|
      {
        SlotsShrink(journal, era, index);
        SeenNext(journal, latest, era, index, seen');
        var record := journal[(era, index)];
        assert RecordOk(record);
        result := ReplayKeys(result, markers, record.inserts, seen', (era, index), record);
        seen' := seen'[(era, index) := record];
        index := index + 1;
      }
    }

    /** Opens the database again from what is on disk: with no gap in the journal nothing is lost. */
    method Reopen()
      requires Valid()
      modifies this`refs, this`latestEra, this`overlay
      ensures latestEra == old(latestEra) && overlay == map[]
      ensures refs == old(refs) <==>
        forall p :: p in journal && journal[p].inserts != [] ==> storedEra.Some? && Visited(journal, storedEra.value, p)
      ensures Contiguous(journal, storedEra) ==> Valid() && refs == old(refs)
    {
      var result := ReadRefs();
      RecoveryExact(Model(), journal, archive, storedEra, result);
      refs, latestEra, overlay := result, storedEra, map[];
    }

    /** Settles one record of an era: the canonical one is merged, the others are reverted. */
    method SettleRecord(p: Slot, canonId: Id)
      requires Counted(Model(), journal, archive) && p in journal && RecordOk(journal[p])
      requires journal[p].id == canonId ==> Fits(archive, journal[p])
      modifies this`refs, this`markers, this`backing, this`archive
      ensures Counted(Model(), journal - {p}, archive) && Shrinks(old(backing), backing)
      ensures archive == if journal[p].id == canonId then Enact(old(archive), journal[p]) else old(archive)
    {
      var record := journal[p];
      var s := Store(refs, markers, backing);
      if record.id == canonId {
        s := ExpungeKeys(s, record.deletes, journal, archive);
        archive := archive - (set k | k in record.deletes);
        s := FinaliseKeys(s, record.inserts, journal, archive, p);
        archive := archive + (set k | k in record.inserts);
      } else {
        s := RevertKeys(s, record.inserts, journal, archive, p);
      }
      refs, markers, backing := s.refs, s.markers, s.backing;
    }
  }
}
