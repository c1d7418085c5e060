/** The reference-counted journal database: every insert counts once from the moment it is made, and
    marking an era takes back the deletes of its canonical record and the inserts of the others. */
module RefCounted {
  import opened Basics
  import opened Journals

  /** A stored node with its count; entries are dropped when the count reaches zero. */
  datatype Payload = Payload(count: nat, value: Value)

  type Overlay = map<Key, (Value, int)>

  function DiskCount(disk: map<Key, Payload>, k: Key): nat {
    if k in disk then disk[k].count else 0
  }

  function Rc(overlay: Overlay, k: Key): int {
    if k in overlay then overlay[k].1 else 0
  }

  ghost function Times(keys: seq<Key>, k: Key): nat {
    multiset(keys)[k]
  }

  lemma TimesAppend(keys: seq<Key>, h: Key, k: Key)
    ensures Times(keys + [h], k) == Times(keys, k) + (if h == k then 1 else 0)
  {
  }

  // ----- the overlay -----

  function EmplaceKey(overlay: Overlay, k: Key, v: Value): Overlay {
    if k in overlay then
      overlay[k := (if overlay[k].1 <= 0 then v else overlay[k].0, overlay[k].1 + 1)]
    else overlay[k := (v, 1)]
  }

  function RemoveKey(overlay: Overlay, k: Key): Overlay {
    if k in overlay then overlay[k := (overlay[k].0, overlay[k].1 - 1)] else overlay[k := ([], -1)]
  }

  /** Every node the overlay counts holds what its name says. */
  ghost predicate OverlayNamed(content: Content, overlay: Overlay) {
    forall k :: Rc(overlay, k) > 0 ==> overlay[k].0 == content(k)
  }

  ghost predicate DiskNamed(content: Content, disk: map<Key, Payload>) {
    forall k :: k in disk ==> disk[k].value == content(k)
  }

  lemma RcChanges(overlay: Overlay, h: Key, v: Value, k: Key)
    ensures Rc(EmplaceKey(overlay, h, v), k) == Rc(overlay, k) + (if h == k then 1 else 0)
    ensures Rc(RemoveKey(overlay, h), k) == Rc(overlay, k) - (if h == k then 1 else 0)
  {
  }

  method RemoveAll(overlay: Overlay, keys: seq<Key>) returns (overlay': Overlay)
    ensures forall k :: Rc(overlay', k) == Rc(overlay, k) - Times(keys, k)
    ensures forall k :: k in overlay ==> k in overlay' && overlay'[k].0 == overlay[k].0
  {
    overlay' := overlay;
    for i := 0 to |keys|
      invariant forall k :: Rc(overlay', k) == Rc(overlay, k) - Times(keys[..i], k)
      invariant forall k :: k in overlay ==> k in overlay' && overlay'[k].0 == overlay[k].0
    {
      assert keys[..i + 1] == keys[..i] + [keys[i]];
      forall k
        ensures Times(keys[..i + 1], k) == Times(keys[..i], k) + (if keys[i] == k then 1 else 0)
        ensures Rc(RemoveKey(overlay', keys[i]), k) == Rc(overlay', k) - (if keys[i] == k then 1 else 0)
      {
        TimesAppend(keys[..i], keys[i], k);
        RcChanges(overlay', keys[i], [], k);
      }
      overlay' := RemoveKey(overlay', keys[i]);
    }
    assert keys[..|keys|] == keys;
  }

  /** Merges the overlay into the store, key by key in any order; it fails when a count would go
      below zero. */
  method CommitToDisk(disk: map<Key, Payload>, overlay: Overlay) returns (r: Option<map<Key, Payload>>)
    requires forall k :: k in disk ==> disk[k].count > 0
    ensures r.Some? <==> forall k :: k in overlay ==> DiskCount(disk, k) + overlay[k].1 >= 0
    ensures r.Some? ==> forall k :: DiskCount(r.value, k) == DiskCount(disk, k) + Rc(overlay, k)
    ensures r.Some? ==> forall k :: k in r.value ==> r.value[k].count > 0
    ensures r.Some? ==> forall k :: k in r.value ==>
      (k in disk || k in overlay) && r.value[k].value == if k in disk then disk[k].value else overlay[k].0
  {
    var rest, disk' := overlay.Keys, disk;
    while rest != {}
      invariant rest <= overlay.Keys
      invariant forall k :: k in overlay && k !in rest ==> DiskCount(disk, k) + overlay[k].1 >= 0
      invariant forall k :: DiskCount(disk', k) == if k in overlay && k !in rest then DiskCount(disk, k) + overlay[k].1 else DiskCount(disk, k)
      invariant forall k :: k in disk' ==> disk'[k].count > 0
      invariant forall k :: k in disk' ==> k in disk || k in overlay
      invariant forall k :: k in disk' ==> disk'[k].value == if k in disk then disk[k].value else overlay[k].0
      decreases rest
    {
      var k :| k in rest;
      var (value, rc) := overlay[k];
      rest := rest - {k};
      if rc != 0 {
        if k in disk' {
          var total := disk'[k].count + rc;
          if total < 0 { return None; }
          disk' := if total > 0 then disk'[k := Payload(total, disk'[k].value)] else disk' - {k};
        } else {
          if rc < 0 { return None; }
          disk' := disk'[k := Payload(rc, value)];
        }
      }
    }
    r := Some(disk');
  }

  // ----- the journal -----

  /** How often the pending records insert a key. */
  ghost function Pending(j: Journal, k: Key): nat
    decreases j.Keys
  {
    if j == map[] then 0
    else
      var p :| p in j;
      Times(j[p].inserts, k) + Pending(j - {p}, k)
  }

  lemma {:induction false} PendingDrop(j: Journal, p: Slot, k: Key)
    requires p in j
    ensures Pending(j, k) == Times(j[p].inserts, k) + Pending(j - {p}, k)
    decreases j.Keys
  {
    var q :| q in j && Pending(j, k) == Times(j[q].inserts, k) + Pending(j - {q}, k);
    if q != p {
      PendingDrop(j - {q}, p, k);
      PendingDrop(j - {p}, q, k);
      assert j - {q} - {p} == j - {p} - {q};
    }
  }

  lemma PendingAdd(j: Journal, p: Slot, r: Record, k: Key)
    requires p !in j
    ensures Pending(j[p := r], k) == Times(r.inserts, k) + Pending(j, k)
  {
    PendingDrop(j[p := r], p, k);
    assert j[p := r] - {p} == j;
  }

  /** The empty archive. */
  ghost function Nothing(): Key -> int {
    (k: Key) => 0
  }

  /** What a record leaves in the archive, when it is canonical. */
  ghost function Merged(archive: Key -> int, r: Record): Key -> int {
    (k: Key) => archive(k) + Times(r.inserts, k) - Times(r.deletes, k)
  }

  // ----- the database -----

  class RefCountedDb {
    ghost const content: Content
    var disk: map<Key, Payload>
    var overlay: Overlay
    var journal: Journal
    var inserts: seq<Key>
    var removes: seq<Key>
    var latestEra: Option<nat>
    /** The multiplicity of each key in the canonical state. */
    ghost var archive: Key -> int
    /** The inserts since the counts were last written. */
    ghost var unwritten: seq<Key>

    /** Conservation: what is counted on disk and in the overlay is the archive, the pending
        inserts and the inserts not yet journalled. */
    ghost predicate Conserved()
      reads this
    {
      forall k :: DiskCount(disk, k) + Rc(overlay, k) == archive(k) + Pending(journal, k) + Times(inserts, k)
    }

    ghost predicate Named()
      reads this
    {
      DiskNamed(content, disk) && OverlayNamed(content, overlay)
    }

    ghost predicate Booked()
      reads this
    {
      Conserved() && Named()
    }

    /** What is not yet on disk is what was inserted since. */
    ghost predicate Unwritten()
      reads this
    {
      forall k :: Rc(overlay, k) == Times(unwritten, k)
    }

    ghost predicate Countable()
      reads this
    {
      Booked() && Dense(journal) && forall k :: k in disk ==> disk[k].count > 0
    }

    ghost predicate Valid()
      reads this
    {
      Countable() && Unwritten()
    }

    constructor (ghost content: Content)
      ensures Valid() && this.content == content && journal == map[] && inserts == [] && removes == [] && archive == Nothing()
    {
      this.content := content;
      unwritten := [];
      disk, overlay, journal, inserts, removes, latestEra := map[], map[], map[], [], [], None;
      archive := Nothing();
    }

    /** An insert counts at once, and is noted for the journal. */
    method Emplace(key: Key, value: Value)
      requires Valid() && value == content(key)
      modifies this`overlay, this`inserts, this`unwritten
      ensures Valid() && inserts == old(inserts) + [key] && unwritten == old(unwritten) + [key]
    {
      inserts, unwritten := inserts + [key], unwritten + [key];
      forall k
        ensures Times(inserts, k) == Times(old(inserts), k) + (if key == k then 1 else 0)
        ensures Times(unwritten, k) == Times(old(unwritten), k) + (if key == k then 1 else 0)
        ensures Rc(EmplaceKey(overlay, key, value), k) == Rc(overlay, k) + (if key == k then 1 else 0)
      {
        TimesAppend(old(inserts), key, k);
        TimesAppend(old(unwritten), key, k);
        RcChanges(overlay, key, value, k);
      }
      overlay := EmplaceKey(overlay, key, value);
    }

    /** A node reads as its content exactly while it is counted on disk and in the overlay together. */
    method Get(key: Key) returns (r: Option<Value>)
      requires Valid()
      ensures r == if DiskCount(disk, key) + Rc(overlay, key) > 0 then Some(content(key)) else None
    {
      if Rc(overlay, key) > 0 { return Some(overlay[key].0); }
      if key in disk && disk[key].count + Rc(overlay, key) > 0 { return Some(disk[key].value); }
      return None;
    }

    /** A removal is only noted. */
    method Remove(key: Key)
      requires Valid()
      modifies this`removes
      ensures Valid() && removes == old(removes) + [key]
    {
      removes := removes + [key];
    }

    method FreeIndex(era: nat) returns (index: nat)
      ensures (era, index) !in journal && forall i :: 0 <= i < index ==> (era, i) in journal
    {
      index := 0;
      while (era, index) in journal
        invariant forall i :: 0 <= i < index ==> (era, i) in journal
        decreases |SlotsFrom(journal, era, index)|
      {
        SlotsShrink(journal, era, index);
        index := index + 1;
      }
    }

    method JournalUnder(now: nat, id: Id) returns (ops: nat, ghost slot: Slot)
      requires Valid()
      modifies this`journal, this`inserts, this`removes, this`latestEra
      ensures Valid() && inserts == [] && removes == [] && ops == |old(inserts)| + |old(removes)|
      ensures slot.0 == now && slot !in old(journal)
      ensures journal == old(journal)[slot := Record(id, old(inserts), old(removes))] && latestEra == Later(old(latestEra), now)
    {
      var index := FreeIndex(now);
      slot := (now, index);
      var record := Record(id, inserts, removes);
      forall k ensures Pending(journal[slot := record], k) == Times(inserts, k) + Pending(journal, k) {
        PendingAdd(journal, slot, record, k);
      }
      journal := journal[(now, index) := record];
      ops := |inserts| + |removes|;
      inserts, removes := [], [];
      if latestEra.None? || now > latestEra.value { latestEra := Some(now); }
    }

    /** Takes back what a record of a marked era counted too much. */
    method SettleRecord(p: Slot, canonId: Id)
      requires Booked() && p in journal
      modifies this`overlay, this`archive, this`journal
      ensures Booked() && journal == old(journal) - {p}
      ensures forall k ::
        Rc(overlay, k) == old(Rc(overlay, k)) - Times(if old(journal)[p].id == canonId then old(journal)[p].deletes else old(journal)[p].inserts, k)
      ensures archive == if old(journal)[p].id == canonId then Merged(old(archive), old(journal)[p]) else old(archive)
    {
      var record := journal[p];
      forall k ensures Pending(journal, k) == Times(record.inserts, k) + Pending(journal - {p}, k) { PendingDrop(journal, p, k); }
      if record.id == canonId {
        overlay := RemoveAll(overlay, record.deletes);
        archive := Merged(archive, record);
      } else {
        overlay := RemoveAll(overlay, record.inserts);
      }
      journal := journal - {p};
    }

    /** The first records of the era are settled and gone from the journal. */
    ghost predicate Settling(era: nat, index: nat, canonId: Id, j: Journal, before: Key -> int)
      reads this
    {
      Booked() && Passed(j, journal, era, index) && archive == Multiplicity(j, era, canonId, before, index)
    }

    method SettleNext(era: nat, index: nat, canonId: Id, ghost j: Journal, ghost before: Key -> int)
      requires Settling(era, index, canonId, j, before) && (era, index) in journal
      modifies this`overlay, this`archive, this`journal
      ensures Settling(era, index + 1, canonId, j, before)
    {
      PassedNext(j, journal, era, index);
      SettleRecord((era, index), canonId);
    }

    /** Settles every record of an era, and drops the era from the journal. */
    method SettleEra(era: nat, canonId: Id)
      requires Booked() && Dense(journal)
      modifies this`overlay, this`archive, this`journal
      ensures Booked() && Dense(journal)
      ensures journal == old(journal) - (set p | p in old(journal) && p.0 == era)
      ensures archive == Multiplicity(old(journal), era, canonId, old(archive), EraLength(old(journal), era))
    {
      ghost var j, before := journal, archive;
      var index := 0;
      PassedNone(j, era);
      while (era, index) in journal
        invariant Settling(era, index, canonId, j, before)
        decreases |SlotsFrom(j, era, index)|
      {
        PassedNext(j, journal, era, index);
        SlotsShrink(j, era, index);
        SettleNext(era, index, canonId, j, before);
        index := index + 1;
      }
      PassedAll(j, journal, era, index);
    }

    /** The references that a key is owed. */
    ghost function Owed(k: Key): int
      reads this
    {
      archive(k) + Pending(journal, k) + Times(inserts, k)
    }

    /** Settles an era and writes the counts; it fails exactly when some key would be counted below
        zero, that is, when canonical deletes are not covered. */
    method MarkCanonical(era: nat, canonId: Id) returns (ok: bool)
      requires Valid()
      modifies this`disk, this`overlay, this`archive, this`journal, this`unwritten
      ensures journal == old(journal) - (set p | p in old(journal) && p.0 == era)
      ensures archive == Multiplicity(old(journal), era, canonId, old(archive), EraLength(old(journal), era))
      ensures OneCanonical(old(journal), era, canonId) ==> forall k :: archive(k) == old(archive)(k) + Net(old(journal), era, canonId, k)
      ensures ok <==> forall k :: Owed(k) >= 0
      ensures ok ==> Valid() && overlay == map[] && unwritten == [] && forall k :: DiskCount(disk, k) == Owed(k)
    {
      if OneCanonical(journal, era, canonId) { MultiplicityIs(journal, era, canonId, archive); }
      SettleEra(era, canonId);
      ok := WriteCounts();
    }

    method WriteCounts() returns (ok: bool)
      requires Countable()
      modifies this`disk, this`overlay, this`unwritten
      ensures ok <==> forall k :: Owed(k) >= 0
      ensures ok ==> Valid() && overlay == map[] && unwritten == [] && forall k :: DiskCount(disk, k) == Owed(k)
    {
      var written := CommitToDisk(disk, overlay);
      if written.None? {
        ghost var k :| k in overlay && DiskCount(disk, k) + overlay[k].1 < 0;
        assert DiskCount(disk, k) + Rc(overlay, k) == Owed(k);
        return false;
      }
      forall k ensures DiskCount(written.value, k) == Owed(k) { assert DiskCount(disk, k) + Rc(overlay, k) == Owed(k); }
      disk, overlay, unwritten := written.value, map[], [];
      forall k ensures Owed(k) >= 0 { assert DiskCount(disk, k) == Owed(k); }
      return true;
    }

    /** Opens the database again from what is on disk. The journal still lists the inserts that were
        journalled since the counts were last written, but those counts are gone: each key is short
        by exactly that many, less the open inserts that had been written and are now forgotten. */
    method Reopen()
      requires Valid()
      modifies this`overlay, this`inserts, this`removes, this`unwritten
      ensures overlay == map[] && inserts == [] && removes == [] && unwritten == []
      ensures forall k :: Owed(k) - DiskCount(disk, k) == Times(old(unwritten), k) - Times(old(inserts), k)
      ensures Valid() <==> forall k :: Times(old(unwritten), k) == Times(old(inserts), k)
    {
      forall k ensures archive(k) + Pending(journal, k) - DiskCount(disk, k) == Times(unwritten, k) - Times(inserts, k) {
        assert DiskCount(disk, k) + Rc(overlay, k) == archive(k) + Pending(journal, k) + Times(inserts, k);
        assert Rc(overlay, k) == Times(unwritten, k);
      }
      overlay, inserts, removes, unwritten := map[], [], [], [];
    }
  }

  /** The archive after the first records of an era were settled. */
  ghost function Multiplicity(j: Journal, era: nat, canonId: Id, archive: Key -> int, index: nat): Key -> int {
    if index == 0 then archive
    else
      var before := Multiplicity(j, era, canonId, archive, index - 1);
      if (era, index - 1) in j && j[(era, index - 1)].id == canonId then Merged(before, j[(era, index - 1)]) else before
  }

  ghost predicate OneCanonical(j: Journal, era: nat, canonId: Id) {
    Dense(j) && forall a, b :: Canonical(j, era, canonId, a) && Canonical(j, era, canonId, b) ==> a == b
  }

  /** What the canonical record of an era adds to a key: its inserts, less its deletes. */
  ghost function Net(j: Journal, era: nat, canonId: Id, k: Key): int {
    if i: nat :| Canonical(j, era, canonId, i) then Times(j[(era, i)].inserts, k) - Times(j[(era, i)].deletes, k) else 0
  }

  lemma {:induction false} MultiplicityTo(j: Journal, era: nat, canonId: Id, archive: Key -> int, index: nat, k: Key)
    requires OneCanonical(j, era, canonId)
    ensures Multiplicity(j, era, canonId, archive, index)(k)
         == archive(k) + if exists i: nat :: i < index && Canonical(j, era, canonId, i) then Net(j, era, canonId, k) else 0
  {
    if index > 0 {
      MultiplicityTo(j, era, canonId, archive, index - 1, k);
      assert Canonical(j, era, canonId, index - 1) <==> (era, index - 1) in j && j[(era, index - 1)].id == canonId;
    }
  }

  lemma MultiplicityIs(j: Journal, era: nat, canonId: Id, archive: Key -> int)
    requires OneCanonical(j, era, canonId)
    ensures forall k :: Multiplicity(j, era, canonId, archive, EraLength(j, era))(k) == archive(k) + Net(j, era, canonId, k)
  {
    var n := EraLength(j, era);
    forall k ensures Multiplicity(j, era, canonId, archive, n)(k) == archive(k) + Net(j, era, canonId, k) {
      MultiplicityTo(j, era, canonId, archive, n, k);
      if i: nat :| Canonical(j, era, canonId, i) { EraBelow(j, era, i); }
    }
  }

  /** An era has no slot from its length on. */
  lemma EraBelow(j: Journal, era: nat, i: nat)
    requires Dense(j) && (era, i) in j
    ensures i < EraLength(j, era)
  {
    DenseBelow(j, era, i);
    FirstSlots(j, era, i + 1);
    SetSize(SlotsBelow(j, era, i + 1), set p | p in j && p.0 == era);
  }

  lemma {:induction false} DenseBelow(j: Journal, era: nat, i: nat)
    requires Dense(j) && (era, i) in j
    ensures forall x :: 0 <= x <= i ==> (era, x) in j
  {
    if i > 0 { DenseBelow(j, era, i - 1); }
  }

  /** The number of records of an era. */
  ghost function EraLength(j: Journal, era: nat): nat {
    |set p | p in j && p.0 == era|
  }

  /** The first slots of an era are gone. */
  ghost predicate Passed(j: Journal, rest: Journal, era: nat, index: nat) {
    rest == j - SlotsBelow(j, era, index) && forall i :: 0 <= i < index ==> (era, i) in j
  }

  lemma PassedNone(j: Journal, era: nat)
    ensures Passed(j, j, era, 0)
  {
    assert SlotsBelow(j, era, 0) == {};
  }

  lemma PassedNext(j: Journal, rest: Journal, era: nat, index: nat)
    requires Passed(j, rest, era, index) && (era, index) in rest
    ensures (era, index) in j && rest[(era, index)] == j[(era, index)] && Passed(j, rest - {(era, index)}, era, index + 1)
  {
    assert SlotsBelow(j, era, index + 1) == SlotsBelow(j, era, index) + {(era, index)};
  }

  lemma PassedAll(j: Journal, rest: Journal, era: nat, index: nat)
    requires Dense(j) && Passed(j, rest, era, index) && (era, index) !in rest
    ensures EraLength(j, era) == index && rest == j - (set p | p in j && p.0 == era) && Dense(rest)
  {
    forall p | p in j && p.0 == era ensures p.1 < index { if p.1 >= index { EraEnds(j, era, index, p.1); } }
    FirstSlots(j, era, index);
    assert SlotsBelow(j, era, index) == set p | p in j && p.0 == era;
  }

  lemma {:induction false} FirstSlots(j: Journal, era: nat, index: nat)
    requires forall i :: 0 <= i < index ==> (era, i) in j
    ensures |SlotsBelow(j, era, index)| == index
  {
    if index > 0 {
      FirstSlots(j, era, index - 1);
      assert SlotsBelow(j, era, index) == SlotsBelow(j, era, index - 1) + {(era, index - 1)};
    } else {
      assert SlotsBelow(j, era, 0) == {};
    }
  }
}
