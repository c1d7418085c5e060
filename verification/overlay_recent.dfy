/** The overlay-recent journal database: nodes of the recent eras stay in a counted overlay in memory,
    and reach the backing store when their era's canonical record is merged. */
module OverlayRecent {
  import opened Basics
  import opened Journals

  type Overlay = map<Key, (Value, int)>

  // ----- the counted overlay -----

  /** The overlay's entry for a node that `pending` records insert. */
  ghost predicate CountOk(content: Content, overlay: Overlay, k: Key, pending: nat) {
    (k in overlay <==> pending > 0) && (k in overlay ==> overlay[k] == (content(k), pending))
  }

  function Emplaced(overlay: Overlay, k: Key, v: Value): Overlay {
    if k in overlay then overlay[k := (if overlay[k].1 <= 0 then v else overlay[k].0, overlay[k].1 + 1)]
    else overlay[k := (v, 1)]
  }

  function Contains(overlay: Overlay, k: Key): bool {
    k in overlay && overlay[k].1 > 0
  }

  /** Takes one reference away; the entry goes, and its value is returned, with the last one. */
  function Purged(overlay: Overlay, k: Key): (Overlay, Option<Value>) {
    if k !in overlay then (overlay[k := ([], -1)], None)
    else if overlay[k].1 == 1 then (overlay - {k}, Some(overlay[k].0))
    else (overlay[k := (overlay[k].0, overlay[k].1 - 1)], None)
  }

  // ----- sizes -----

  /** The total size of a set of nodes. */
  ghost function Size(content: Content, s: set<Key>): nat {
    if s == {} then 0
    else
      var k :| k in s;
      |content(k)| + Size(content, s - {k})
  }

  lemma {:induction false} SizeDrop(content: Content, s: set<Key>, k: Key)
    requires k in s
    ensures Size(content, s) == |content(k)| + Size(content, s - {k})
  {
    var x :| x in s && Size(content, s) == |content(x)| + Size(content, s - {x});
    if x != k {
      SizeDrop(content, s - {x}, k);
      SizeDrop(content, s - {k}, x);
      assert s - {x} - {k} == s - {k} - {x};
    }
  }

  lemma SizeAdd(content: Content, s: set<Key>, k: Key)
    requires k !in s
    ensures Size(content, s + {k}) == |content(k)| + Size(content, s)
  {
    SizeDrop(content, s + {k}, k);
    assert s + {k} - {k} == s;
  }

  /** The overlay counts pending inserts, and its recorded size is that of its distinct nodes. */
  ghost predicate Tallied(content: Content, overlay: Overlay, size: int, j: Journal) {
    && (forall k {:trigger TalliedAt(content, overlay, j, k)} :: TalliedAt(content, overlay, j, k))
    && size == Size(content, overlay.Keys)
  }

  ghost predicate TalliedAt(content: Content, overlay: Overlay, j: Journal, k: Key) {
    CountOk(content, overlay, k, |Holders(j, k)|)
  }

  // ----- adding a record -----

  /** Part of a record's inserts is in. */
  ghost predicate PartlyIn(content: Content, overlay: Overlay, size: int, j: Journal, keys: seq<Key>, i: nat)
    requires i <= |keys|
  {
    && (forall k :: CountOk(content, overlay, k, |Holders(j, k)| + One(Done(keys, i, k))))
    && size == Size(content, overlay.Keys)
  }

  lemma InsertOne(content: Content, overlay: Overlay, size: int, j: Journal, keys: seq<Key>, i: nat)
    requires i < |keys| && Distinct(keys) && PartlyIn(content, overlay, size, j, keys, i)
    ensures
      var h := keys[i];
      var size' := if Contains(overlay, h) then size else size + |content(h)|;
      PartlyIn(content, Emplaced(overlay, h, content(h)), size', j, keys, i + 1)
  {
    var h := keys[i];
    InsertedSize(content, overlay, size, j, keys, i);
    forall k ensures CountOk(content, Emplaced(overlay, h, content(h)), k, |Holders(j, k)| + One(Done(keys, i + 1, k))) {
      assert CountOk(content, overlay, k, |Holders(j, k)| + One(Done(keys, i, k)));
      InsertedCount(content, overlay, keys, i, k, |Holders(j, k)|);
    }
  }

  lemma InsertedSize(content: Content, overlay: Overlay, size: int, j: Journal, keys: seq<Key>, i: nat)
    requires i < |keys| && Distinct(keys) && PartlyIn(content, overlay, size, j, keys, i)
    ensures
      var h := keys[i];
      Size(content, Emplaced(overlay, h, content(h)).Keys) == if Contains(overlay, h) then size else size + |content(h)|
  {
    var h := keys[i];
    DoneNext(keys, i, h);
    assert CountOk(content, overlay, h, |Holders(j, h)| + One(Done(keys, i, h)));
    EmplacedSize(content, overlay, h, |Holders(j, h)|);
  }

  lemma InsertedCount(content: Content, overlay: Overlay, keys: seq<Key>, i: nat, k: Key, before: nat)
    requires i < |keys| && Distinct(keys) && CountOk(content, overlay, k, before + One(Done(keys, i, k)))
    ensures CountOk(content, Emplaced(overlay, keys[i], content(keys[i])), k, before + One(Done(keys, i + 1, k)))
  {
    DoneNext(keys, i, k);
    EmplacedCount(content, overlay, keys[i], k, before + One(Done(keys, i, k)));
  }

  lemma EmplacedSize(content: Content, overlay: Overlay, h: Key, pending: nat)
    requires CountOk(content, overlay, h, pending)
    ensures Size(content, Emplaced(overlay, h, content(h)).Keys)
         == Size(content, overlay.Keys) + (if Contains(overlay, h) then 0 else |content(h)|)
  {
    var overlay' := Emplaced(overlay, h, content(h));
    if h in overlay {
      assert overlay'.Keys == overlay.Keys;
    } else {
      assert overlay'.Keys == overlay.Keys + {h};
      SizeAdd(content, overlay.Keys, h);
    }
  }

  lemma EmplacedCount(content: Content, overlay: Overlay, h: Key, k: Key, pending: nat)
    requires CountOk(content, overlay, k, pending)
    ensures CountOk(content, Emplaced(overlay, h, content(h)), k, pending + One(k == h))
  {
  }

  /** Counts the inserts of a record in. */
  method InsertAll(ghost content: Content, overlay: Overlay, size: int, inserts: seq<(Key, Value)>,
                   ghost j: Journal, ghost p: Slot, ghost r: Record)
    returns (overlay': Overlay, size': int)
    requires Tallied(content, overlay, size, j) && p !in j && Distinct(r.inserts)
    requires |r.inserts| == |inserts| && forall i :: 0 <= i < |inserts| ==> inserts[i] == (r.inserts[i], content(r.inserts[i]))
    ensures Tallied(content, overlay', size', j[p := r])
  {
    overlay', size' := overlay, size;
    ghost var keys := r.inserts;
    assert PartlyIn(content, overlay', size', j, keys, 0) by {
      forall k ensures CountOk(content, overlay, k, |Holders(j, k)| + One(Done(keys, 0, k))) { assert TalliedAt(content, overlay, j, k); }
    }
    for i := 0 to |inserts|
      invariant PartlyIn(content, overlay', size', j, keys, i)
    {
      var (k, v) := inserts[i];
      InsertOne(content, overlay', size', j, keys, i);
      if !Contains(overlay', k) { size' := size' + |v|; }
      overlay' := Emplaced(overlay', k, v);
    }
    assert keys[..|keys|] == keys;
    ghost var j' := j[p := r];
    forall k ensures TalliedAt(content, overlay', j', k) {
      HoldersAdd(j, p, r, k);
      assert CountOk(content, overlay', k, |Holders(j, k)| + One(Done(keys, |keys|, k)));
    }
  }

  // ----- taking records out -----

  ghost function Times(keys: seq<Key>, k: Key): nat {
    multiset(keys)[k]
  }

  lemma TimesPrefix(keys: seq<Key>, i: nat, k: Key)
    requires i < |keys|
    ensures Times(keys[..i + 1], k) == Times(keys[..i], k) + One(keys[i] == k)
    ensures Times(keys[..i + 1], k) <= Times(keys, k)
  {
    assert keys[..i + 1] == keys[..i] + [keys[i]];
    assert keys == keys[..i + 1] + keys[i + 1..];
  }

  lemma TimesDistinct(keys: seq<Key>, k: Key)
    requires Distinct(keys)
    ensures Times(keys, k) == One(k in keys)
  {
    if k in keys {
      var i :| 0 <= i < |keys| && keys[i] == k;
      assert keys == keys[..i] + [keys[i]] + keys[i + 1..];
      assert k !in keys[..i] && k !in keys[i + 1..];
    }
  }

  /** The counts after some of the references were taken away. */
  ghost predicate PartlyOut(content: Content, overlay: Overlay, size: int, j: Journal, keys: seq<Key>, i: nat)
    requires i <= |keys|
  {
    && (forall k :: Times(keys, k) <= |Holders(j, k)|)
    && (forall k :: Times(keys[..i], k) <= |Holders(j, k)| && CountOk(content, overlay, k, |Holders(j, k)| - Times(keys[..i], k)))
    && size == Size(content, overlay.Keys)
  }

  lemma RemoveOne(content: Content, overlay: Overlay, size: int, j: Journal, keys: seq<Key>, i: nat)
    requires i < |keys| && PartlyOut(content, overlay, size, j, keys, i)
    ensures
      var (overlay', gone) := Purged(overlay, keys[i]);
      PartlyOut(content, overlay', if gone.Some? then size - |gone.value| else size, j, keys, i + 1)
  {
    var h := keys[i];
    var (overlay', gone) := Purged(overlay, h);
    TimesPrefix(keys, i, h);
    assert CountOk(content, overlay, h, |Holders(j, h)| - Times(keys[..i], h));
    assert Times(keys, h) <= |Holders(j, h)|;
    if gone.Some? {
      SizeDrop(content, overlay.Keys, h);
      assert overlay'.Keys == overlay.Keys - {h};
    } else {
      assert overlay'.Keys == overlay.Keys;
    }
    forall k
      ensures Times(keys[..i + 1], k) <= |Holders(j, k)|
      ensures CountOk(content, overlay', k, |Holders(j, k)| - Times(keys[..i + 1], k))
    {
      TimesPrefix(keys, i, k);
      assert Times(keys, k) <= |Holders(j, k)|;
      assert CountOk(content, overlay, k, |Holders(j, k)| - Times(keys[..i], k));
    }
  }

  /** Takes the inserts of settled records out; the size never goes below zero. */
  method RemoveAll(ghost content: Content, overlay: Overlay, size: int, keys: seq<Key>, ghost j: Journal, ghost j': Journal)
    returns (overlay': Overlay, size': int)
    requires Tallied(content, overlay, size, j)
    requires forall k :: |Holders(j, k)| == |Holders(j', k)| + Times(keys, k)
    ensures Tallied(content, overlay', size', j') && size' >= 0
  {
    overlay', size' := overlay, size;
    NoneOut(content, overlay, size, j, j', keys);
    for i := 0 to |keys|
      invariant PartlyOut(content, overlay', size', j, keys, i)
    {
      RemoveOne(content, overlay', size', j, keys, i);
      var (next, gone) := Purged(overlay', keys[i]);
      overlay' := next;
      if gone.Some? { size' := size' - |gone.value|; }
    }
    AllOut(content, overlay', size', j, j', keys);
  }

  lemma NoneOut(content: Content, overlay: Overlay, size: int, j: Journal, j': Journal, keys: seq<Key>)
    requires Tallied(content, overlay, size, j)
    requires forall k :: |Holders(j, k)| == |Holders(j', k)| + Times(keys, k)
    ensures PartlyOut(content, overlay, size, j, keys, 0)
  {
    forall k
      ensures Times(keys[..0], k) <= |Holders(j, k)| && CountOk(content, overlay, k, |Holders(j, k)| - Times(keys[..0], k))
    {
      assert TalliedAt(content, overlay, j, k);
    }
  }

  lemma AllOut(content: Content, overlay: Overlay, size: int, j: Journal, j': Journal, keys: seq<Key>)
    requires PartlyOut(content, overlay, size, j, keys, |keys|)
    requires forall k :: |Holders(j, k)| == |Holders(j', k)| + Times(keys, k)
    ensures Tallied(content, overlay, size, j') && size >= 0
  {
    assert keys[..|keys|] == keys;
    forall k ensures TalliedAt(content, overlay, j', k) {
      assert CountOk(content, overlay, k, |Holders(j, k)| - Times(keys[..|keys|], k));
    }
  }

  // ----- the journal in memory and on disk -----

  type EraMap = map<nat, seq<Record>>

  /** The journal in memory lists, era by era, what the disk holds slot by slot. */
  ghost predicate Mirrors(eras: EraMap, j: Journal) {
    && (forall p: Slot {:trigger MirrorsAt(eras, j, p)} :: MirrorsAt(eras, j, p))
    && (forall e :: e in eras ==> eras[e] != [])
  }

  ghost predicate MirrorsAt(eras: EraMap, j: Journal, p: Slot) {
    (p in j <==> p.0 in eras && p.1 < |eras[p.0]|) && (p in j ==> j[p] == eras[p.0][p.1])
  }

  lemma MirrorsDense(eras: EraMap, j: Journal)
    requires Mirrors(eras, j)
    ensures Dense(j)
  {
    forall p: Slot | p in j && p.1 > 0 ensures (p.0, p.1 - 1) in j {
      assert MirrorsAt(eras, j, p) && MirrorsAt(eras, j, (p.0, p.1 - 1));
    }
  }

  /** A journal has one listing. */
  lemma MirrorsUnique(a: EraMap, b: EraMap, j: Journal)
    requires Mirrors(a, j) && Mirrors(b, j)
    ensures a == b
  {
    forall e ensures (e in a <==> e in b) && (e in a ==> a[e] == b[e]) {
      assert MirrorsAt(a, j, (e, 0)) && MirrorsAt(b, j, (e, 0));
      if e in a && e in b {
        var n, m := |a[e]|, |b[e]|;
        assert MirrorsAt(a, j, (e, n)) && MirrorsAt(b, j, (e, n)) && MirrorsAt(a, j, (e, m)) && MirrorsAt(b, j, (e, m));
        assert MirrorsAt(a, j, (e, n - 1)) && MirrorsAt(b, j, (e, n - 1)) && MirrorsAt(a, j, (e, m - 1)) && MirrorsAt(b, j, (e, m - 1));
        forall i | 0 <= i < n ensures a[e][i] == b[e][i] { assert MirrorsAt(a, j, (e, i)) && MirrorsAt(b, j, (e, i)); }
      }
    }
  }

  function Listed(eras: EraMap, e: nat): seq<Record> {
    if e in eras then eras[e] else []
  }

  function Pushed(eras: EraMap, e: nat, r: Record): EraMap {
    eras[e := Listed(eras, e) + [r]]
  }

  lemma PushMirrors(eras: EraMap, j: Journal, e: nat, r: Record)
    requires Mirrors(eras, j)
    ensures
      var p := (e, |Listed(eras, e)|);
      p !in j && Mirrors(Pushed(eras, e, r), j[p := r]) && (p.1 > 0 ==> (e, 0) in j)
  {
    var p := (e, |Listed(eras, e)|);
    assert MirrorsAt(eras, j, p) && MirrorsAt(eras, j, (e, 0));
    var eras', j' := Pushed(eras, e, r), j[p := r];
    forall q: Slot ensures MirrorsAt(eras', j', q) { assert MirrorsAt(eras, j, q); }
  }

  lemma DropMirrors(eras: EraMap, j: Journal, e: nat)
    requires Mirrors(eras, j)
    ensures Mirrors(eras - {e}, j - EraSlots(j, e))
  {
    forall q: Slot ensures MirrorsAt(eras - {e}, j - EraSlots(j, e), q) { assert MirrorsAt(eras, j, q); }
  }

  ghost predicate RecordsOk(j: Journal) {
    forall p :: p in j ==> RecordOk(j[p])
  }

  // ----- settling an era -----

  /** All the inserts of the first records of a list. */
  function AllInserts(records: seq<Record>, n: nat): seq<Key>
    requires n <= |records|
  {
    if n == 0 then [] else AllInserts(records, n - 1) + records[n - 1].inserts
  }

  /** An era's inserts are what its records hold. */
  lemma {:induction false} EraInserts(eras: EraMap, j: Journal, e: nat, n: nat, k: Key)
    requires Mirrors(eras, j) && RecordsOk(j) && e in eras && n <= |eras[e]|
    ensures |Holders(j, k)| == |Holders(j - SlotsBelow(j, e, n), k)| + Times(AllInserts(eras[e], n), k)
  {
    if n == 0 {
      assert j - SlotsBelow(j, e, 0) == j;
    } else {
      EraInserts(eras, j, e, n - 1, k);
      var rest, p := j - SlotsBelow(j, e, n - 1), (e, n - 1);
      assert MirrorsAt(eras, j, p);
      HoldersDrop(rest, p, k);
      TimesDistinct(j[p].inserts, k);
      assert rest - {p} == j - SlotsBelow(j, e, n);
    }
  }

  /** The canonical record of a list, if there is one. */
  ghost predicate CanonicalAt(records: seq<Record>, canonId: Id, i: nat) {
    i < |records| && records[i].id == canonId
  }

  ghost predicate UniqueIds(records: seq<Record>, canonId: Id) {
    forall a, b :: CanonicalAt(records, canonId, a) && CanonicalAt(records, canonId, b) ==> a == b
  }

  ghost predicate CanonInserts(records: seq<Record>, canonId: Id, k: Key) {
    exists i :: 0 <= i < |records| && CanonicalAt(records, canonId, i) && k in records[i].inserts
  }

  ghost predicate CanonDeletes(records: seq<Record>, canonId: Id, k: Key) {
    exists i :: 0 <= i < |records| && CanonicalAt(records, canonId, i) && k in records[i].deletes
  }

  /** What an era's canonical record does to the backing store: it puts its inserts there, and takes
      out its deletes, but for those that a pending record still inserts. */
  ghost predicate BackingSettled(nodes: map<Key, Value>, nodes': map<Key, Value>, pending: Journal, records: seq<Record>, canonId: Id) {
    forall k :: k in nodes' <==>
      (k in nodes || CanonInserts(records, canonId, k)) && !(CanonDeletes(records, canonId, k) && Holders(pending, k) == {})
  }

  /** The nodes on their way to the backing store are joined by those of the canonical record. */
  ghost predicate PendingSettled(nodes: map<Key, Value>, nodes': map<Key, Value>, records: seq<Record>, canonId: Id) {
    forall k :: k in nodes' <==> k in nodes || CanonInserts(records, canonId, k)
  }

  /** The archive once the first records of an era are settled. */
  ghost function ArchiveAfter(archive: set<Key>, records: seq<Record>, canonId: Id, n: nat): set<Key>
    requires n <= |records|
  {
    if n == 0 then archive
    else
      var before := ArchiveAfter(archive, records, canonId, n - 1);
      if records[n - 1].id == canonId then Enact(before, records[n - 1]) else before
  }

  lemma {:induction false} ArchiveIs(archive: set<Key>, records: seq<Record>, canonId: Id, n: nat)
    requires n <= |records| && UniqueIds(records, canonId)
    ensures (forall i :: 0 <= i < n ==> !CanonicalAt(records, canonId, i)) ==> ArchiveAfter(archive, records, canonId, n) == archive
    ensures forall i :: 0 <= i < n && CanonicalAt(records, canonId, i) ==> ArchiveAfter(archive, records, canonId, n) == Enact(archive, records[i])
  {
    if n > 0 {
      ArchiveIs(archive, records, canonId, n - 1);
      assert CanonicalAt(records, canonId, n - 1) <==> records[n - 1].id == canonId;
    }
  }

  /** The nodes to store and the keys to delete are those of the canonical record. */
  ghost predicate Collected(content: Content, records: seq<Record>, canonId: Id, stores: seq<(Key, Value)>, deletes: seq<Key>) {
    && (forall x :: x in stores ==> x.1 == content(x.0))
    && (forall i :: 0 <= i < |records| && CanonicalAt(records, canonId, i) ==>
          deletes == records[i].deletes && RecordOk(records[i]) && forall k :: k in records[i].inserts <==> (k, content(k)) in stores)
    && ((forall i :: 0 <= i < |records| ==> !CanonicalAt(records, canonId, i)) ==> stores == [] && deletes == [])
  }

  /** What the records of an era leave to do: nodes to store, keys to delete, references to take away. */
  method Collect(ghost content: Content, overlay: Overlay, records: seq<Record>, canonId: Id)
    returns (stores: seq<(Key, Value)>, deletes: seq<Key>, removed: seq<Key>)
    requires UniqueIds(records, canonId)
    requires forall i, k :: 0 <= i < |records| && k in records[i].inserts ==> k in overlay && overlay[k].0 == content(k) && overlay[k].1 > 0
    requires forall i :: 0 <= i < |records| ==> RecordOk(records[i])
    ensures removed == AllInserts(records, |records|) && Collected(content, records, canonId, stores, deletes)
  {
    stores, deletes, removed := [], [], [];
    for i := 0 to |records|
      invariant removed == AllInserts(records, i)
      invariant forall x :: x in stores ==> x.1 == content(x.0)
      invariant forall a :: 0 <= a < i && CanonicalAt(records, canonId, a) ==>
        deletes == records[a].deletes && forall k :: k in records[a].inserts <==> (k, content(k)) in stores
      invariant (forall a :: 0 <= a < i ==> !CanonicalAt(records, canonId, a)) ==> stores == [] && deletes == []
    {
      var record := records[i];
      assert CanonicalAt(records, canonId, i) <==> record.id == canonId;
      if record.id == canonId {
        stores := Stores(content, overlay, record.inserts, stores);
        deletes := record.deletes;
      }
      removed := removed + record.inserts;
    }
  }

  method Stores(ghost content: Content, overlay: Overlay, inserts: seq<Key>, stores: seq<(Key, Value)>) returns (r: seq<(Key, Value)>)
    requires forall k :: k in inserts ==> k in overlay && overlay[k].0 == content(k) && overlay[k].1 > 0
    requires stores == []
    ensures forall x :: x in r ==> x.1 == content(x.0)
    ensures forall k :: k in inserts <==> (k, content(k)) in r
  {
    r := stores;
    for i := 0 to |inserts|
      invariant forall x :: x in r ==> x.1 == content(x.0)
      invariant forall k :: k in inserts[..i] <==> (k, content(k)) in r
    {
      var h := inserts[i];
      assert inserts[..i + 1] == inserts[..i] + [h];
      if h in overlay && overlay[h].1 > 0 { r := r + [(h, overlay[h].0)]; }
    }
    assert inserts[..|inserts|] == inserts;
  }

  // ----- the database -----

  function Lookup(backing: map<Key, Value>, k: Key): Option<Value> {
    if k in backing then Some(backing[k]) else None
  }

  /** The backing store holds the archive, and every node it holds is right. */
  ghost predicate Backed(content: Content, backing: map<Key, Value>, archive: set<Key>) {
    (forall k :: k in archive ==> k in backing) && (forall k :: k in backing ==> backing[k] == content(k))
  }

  /** The recent history: counts, sizes and both journals agree. */
  ghost predicate Recent(content: Content, overlay: Overlay, size: int, eras: EraMap, j: Journal) {
    Tallied(content, overlay, size, j) && Mirrors(eras, j) && RecordsOk(j)
  }

  /** The read cache says what the backing store says. */
  ghost predicate Coherent(cache: map<Key, Option<Value>>, backing: map<Key, Value>) {
    forall k :: k in cache ==> cache[k] == Lookup(backing, k)
  }

  lemma RecentGrows(content: Content, overlay: Overlay, size: int, eras: EraMap, j: Journal, now: nat, r: Record, overlay': Overlay, size': int)
    requires Recent(content, overlay, size, eras, j) && RecordOk(r)
    requires Tallied(content, overlay', size', j[(now, |Listed(eras, now)|) := r])
    ensures Recent(content, overlay', size', Pushed(eras, now, r), j[(now, |Listed(eras, now)|) := r])
  {
    PushMirrors(eras, j, now, r);
  }

  lemma RecentShrinks(content: Content, overlay: Overlay, size: int, eras: EraMap, j: Journal, era: nat, overlay': Overlay, size': int)
    requires Recent(content, overlay, size, eras, j)
    requires Tallied(content, overlay', size', j - EraSlots(j, era))
    ensures Recent(content, overlay', size', eras - {era}, j - EraSlots(j, era))
  {
    DropMirrors(eras, j, era);
  }

  /** The slots of an era. */
  ghost function EraSlots(j: Journal, era: nat): set<Slot> {
    set p | p in j && p.0 == era
  }

  /** The record inserts what the transaction inserts and deletes what it removes. */
  ghost predicate Holds(r: Record, tx: Overlay) {
    && (forall k :: k in r.inserts <==> k in tx && tx[k].1 > 0)
    && (forall k :: k in r.deletes <==> k in tx && tx[k].1 < 0)
  }

  class OverlayRecentDb {
    const content: Content
    var tx: Overlay
    var backing: map<Key, Value>
    var disk: Journal
    var storedEra: Option<nat>
    var overlay: Overlay
    var pending: map<Key, Value>
    var journal: EraMap
    var latestEra: Option<nat>
    var earliestEra: Option<nat>
    var size: int
    var cache: map<Key, Option<Value>>
    ghost var archive: set<Key>

    ghost predicate Valid()
      reads this
    {
      && Recent(content, overlay, size, journal, disk) && Backed(content, backing, archive) && latestEra == storedEra
      && Genuine(content, pending) && Coherent(cache, backing)
    }

    constructor (content: Content)
      ensures Valid() && this.content == content && disk == map[] && archive == {} && tx == map[] && latestEra == None
    {
      this.content := content;
      tx, backing, disk, storedEra, overlay, pending := map[], map[], map[], None, map[], map[];
      journal, latestEra, earliestEra, size, cache, archive := map[], None, None, 0, map[], {};
    }

    /** A node: from the open transaction, the overlay, the nodes on their way to the backing store,
        the read cache, or the backing store itself. */
    method Get(k: Key) returns (r: Option<Value>)
      requires Valid()
      modifies this`cache
      ensures Valid()
      ensures !Contains(tx, k) && (k in archive || Holders(disk, k) != {}) ==> r == Some(content(k))
      ensures !Contains(tx, k) && Holders(disk, k) == {} && k !in pending && k !in backing ==> r == None
      ensures r == if Contains(tx, k) then Some(tx[k].0) else if Contains(overlay, k) then Some(overlay[k].0)
                   else if k in pending then Some(pending[k]) else Lookup(backing, k)
    {
      assert TalliedAt(content, overlay, disk, k);
      if Contains(tx, k) { return Some(tx[k].0); }
      if Contains(overlay, k) { return Some(overlay[k].0); }
      if k in pending { return Some(pending[k]); }
      if k in cache { return cache[k]; }
      r := Lookup(backing, k);
      cache := cache[k := r];
    }

    /** An insert into the open transaction; the value of a node removed there before is replaced. */
    method Emplace(key: Key, value: Value)
      requires Valid()
      modifies this`tx
      ensures Valid() && key in tx && tx == old(tx)[key := tx[key]]
      ensures tx[key].1 == (if key in old(tx) then old(tx)[key].1 else 0) + 1
      ensures key !in old(tx) || old(tx)[key].1 <= 0 ==> tx[key].0 == value
      ensures key in old(tx) && old(tx)[key].1 > 0 ==> tx[key].0 == old(tx)[key].0
    {
      tx := Emplaced(tx, key, value);
    }

    method Remove(key: Key)
      requires Valid()
      modifies this`tx
      ensures Valid() && key in tx && tx == old(tx)[key := tx[key]]
      ensures tx[key].1 == (if key in old(tx) then old(tx)[key].1 else 0) - 1
      ensures key in old(tx) ==> tx[key].0 == old(tx)[key].0
    {
      tx := if key in tx then tx[key := (tx[key].0, tx[key].1 - 1)] else tx[key := ([], -1)];
    }

    /** The nodes on their way to the backing store have arrived. */
    method FlushPending()
      requires Valid()
      modifies this`pending
      ensures Valid() && pending == map[]
    {
      pending := map[];
    }

    /** Every node of every retained fork reads as what it is. */
    lemma ForkReadable(chain: seq<Record>, k: Key)
      requires Valid() && k in ForkNodes(archive, chain)
      requires forall i :: 0 <= i < |chain| ==> exists p :: p in disk && disk[p] == chain[i]
      ensures k in archive || Holders(disk, k) != {}
    {
      ForkNodesBound(archive, chain, k);
      if k !in archive {
        var i :| 0 <= i < |chain| && k in chain[i].inserts;
        var p :| p in disk && disk[p] == chain[i];
        assert p in Holders(disk, k);
      }
    }

    /** Splits the transaction into inserts and removals. */
    method DrainTx(ghost id: Id) returns (ins: seq<(Key, Value)>, dels: seq<Key>, ghost keys: seq<Key>)
      requires forall k :: k in tx && tx[k].1 > 0 ==> tx[k].0 == content(k)
      modifies this`tx
      ensures tx == map[] && RecordOk(Record(id, keys, dels))
      ensures |keys| == |ins| && forall i :: 0 <= i < |ins| ==> ins[i] == (keys[i], content(keys[i]))
      ensures Holds(Record(id, keys, dels), old(tx))
    {
      var rest := tx.Keys;
      ins, dels, keys := [], [], [];
      while rest != {}
        invariant rest <= tx.Keys && tx == old(tx) && Distinct(keys) && Distinct(dels)
        invariant |keys| == |ins| && forall i :: 0 <= i < |ins| ==> ins[i] == (keys[i], content(keys[i]))
        invariant forall k :: k in keys <==> k in tx && k !in rest && tx[k].1 > 0
        invariant forall k :: k in dels <==> k in tx && k !in rest && tx[k].1 < 0
        decreases rest
      {
        var k :| k in rest;
        var (v, rc) := tx[k];
        rest := rest - {k};
        if rc > 0 {
          ins, keys := ins + [(k, v)], keys + [k];
        } else if rc < 0 {
          dels := dels + [k];
        }
      }
      tx := map[];
    }

    /** Journals the transaction under an era and an id. */
    method JournalUnder(now: nat, id: Id) returns (ghost slot: Slot, ghost record: Record)
      requires Valid() && forall k :: k in tx && tx[k].1 > 0 ==> tx[k].0 == content(k)
      modifies this
      ensures Valid() && archive == old(archive) && backing == old(backing) && tx == map[] && pending == map[]
      ensures slot.0 == now && slot !in old(disk) && disk == old(disk)[slot := record] && (slot.1 > 0 ==> (now, 0) in old(disk))
      ensures latestEra == Later(old(latestEra), now) && record.id == id
      ensures earliestEra == if old(earliestEra).None? || old(earliestEra).value > now then Some(now) else old(earliestEra)
      ensures Holds(record, old(tx))
    {
      pending := map[];
      slot, record := JournalTx(now, id);
    }

    method JournalTx(now: nat, id: Id) returns (ghost slot: Slot, ghost record: Record)
      requires Recent(content, overlay, size, journal, disk) && latestEra == storedEra
      requires forall k :: k in tx && tx[k].1 > 0 ==> tx[k].0 == content(k)
      modifies this`tx, this`overlay, this`size, this`disk, this`storedEra, this`latestEra, this`earliestEra, this`journal
      ensures Recent(content, overlay, size, journal, disk) && latestEra == storedEra == Later(old(latestEra), now) && tx == map[]
      ensures slot.0 == now && slot !in old(disk) && disk == old(disk)[slot := record] && (slot.1 > 0 ==> (now, 0) in old(disk))
      ensures record.id == id && Holds(record, old(tx))
      ensures earliestEra == if old(earliestEra).None? || old(earliestEra).value > now then Some(now) else old(earliestEra)
    {
      var ins, dels;
      ghost var keys;
      ins, dels, keys := DrainTx(id);
      var index := |Listed(journal, now)|;
      slot, record := (now, index), Record(id, keys, dels);
      Append(now, index, id, ins, dels, keys);
    }

    /** Counts the inserts in and writes the record to both journals. */
    method Append(now: nat, index: nat, id: Id, ins: seq<(Key, Value)>, dels: seq<Key>, ghost keys: seq<Key>)
      requires Recent(content, overlay, size, journal, disk) && latestEra == storedEra
      requires index == |Listed(journal, now)| && RecordOk(Record(id, keys, dels))
      requires |keys| == |ins| && forall i :: 0 <= i < |ins| ==> ins[i] == (keys[i], content(keys[i]))
      modifies this`overlay, this`size, this`disk, this`storedEra, this`latestEra, this`earliestEra, this`journal
      ensures Recent(content, overlay, size, journal, disk) && latestEra == storedEra == Later(old(latestEra), now)
      ensures (now, index) !in old(disk) && disk == old(disk)[(now, index) := Record(id, keys, dels)]
      ensures index > 0 ==> (now, 0) in old(disk)
      ensures earliestEra == if old(earliestEra).None? || old(earliestEra).value > now then Some(now) else old(earliestEra)
    {
      var names := Names(ins);
      assert names == keys;
      var p, record := (now, index), Record(id, names, dels);
      PushMirrors(journal, disk, now, record);
      var overlay', size' := InsertAll(content, overlay, size, ins, disk, p, record);
      RecentGrows(content, overlay, size, journal, disk, now, record, overlay', size');
      overlay, size := overlay', size';
      disk, journal := disk[p := record], Pushed(journal, now, record);
      if latestEra.None? || now > latestEra.value { storedEra, latestEra := Some(now), Some(now); }
      if earliestEra.None? || earliestEra.value > now { earliestEra := Some(now); }
    }

    /** Merges the canonical record of an era into the backing store and forgets the era. */
    method MarkCanonical(era: nat, canonId: Id)
      requires Valid() && UniqueIds(Listed(journal, era), canonId)
      modifies this
      ensures Valid() && size >= 0 && tx == old(tx) && latestEra == old(latestEra)
      ensures disk == old(disk) - EraSlots(old(disk), era) && journal == old(journal) - {era}
      ensures archive == ArchiveAfter(old(archive), Listed(old(journal), era), canonId, |Listed(old(journal), era)|)
      ensures BackingSettled(old(backing), backing, disk, Listed(old(journal), era), canonId)
      ensures PendingSettled(old(pending), pending, Listed(old(journal), era), canonId)
      ensures earliestEra == if journal != map[] then Some(era + 1) else old(earliestEra)
    {
      SettleListed(era, canonId);
      cache := map[];
      if journal != map[] { earliestEra := Some(era + 1); }
    }

    method SettleListed(era: nat, canonId: Id)
      requires Recent(content, overlay, size, journal, disk) && Backed(content, backing, archive) && Genuine(content, pending)
      requires UniqueIds(Listed(journal, era), canonId)
      modifies this`backing, this`pending, this`overlay, this`size, this`disk, this`journal, this`archive
      ensures Recent(content, overlay, size, journal, disk) && Backed(content, backing, archive) && Genuine(content, pending) && size >= 0
      ensures disk == old(disk) - EraSlots(old(disk), era) && journal == old(journal) - {era}
      ensures archive == ArchiveAfter(old(archive), Listed(old(journal), era), canonId, |Listed(old(journal), era)|)
      ensures BackingSettled(old(backing), backing, disk, Listed(old(journal), era), canonId)
      ensures PendingSettled(old(pending), pending, Listed(old(journal), era), canonId)
    {
      if era in journal {
        SettleEra(era, canonId);
      } else {
        NoSuchEra(journal, disk, era);
        NothingSettled(backing, pending, disk, canonId);
      }
    }

    method SettleEra(era: nat, canonId: Id)
      requires Recent(content, overlay, size, journal, disk) && Backed(content, backing, archive) && Genuine(content, pending)
      requires era in journal && UniqueIds(journal[era], canonId)
      modifies this`backing, this`pending, this`overlay, this`size, this`disk, this`journal, this`archive
      ensures Recent(content, overlay, size, journal, disk) && Backed(content, backing, archive) && Genuine(content, pending) && size >= 0
      ensures disk == old(disk) - EraSlots(old(disk), era) && journal == old(journal) - {era}
      ensures archive == ArchiveAfter(old(archive), old(journal)[era], canonId, |old(journal)[era]|)
      ensures BackingSettled(old(backing), backing, disk, old(journal)[era], canonId)
      ensures PendingSettled(old(pending), pending, old(journal)[era], canonId)
    {
      var records := journal[era];
      var stores, deletes, removed := CollectEra(era, canonId);
      Release(era, removed);
      Merge(records, canonId, stores, deletes);
    }

    method CollectEra(era: nat, canonId: Id) returns (stores: seq<(Key, Value)>, deletes: seq<Key>, removed: seq<Key>)
      requires Recent(content, overlay, size, journal, disk) && era in journal && UniqueIds(journal[era], canonId)
      ensures removed == AllInserts(journal[era], |journal[era]|) && Collected(content, journal[era], canonId, stores, deletes)
    {
      EraRecords(journal, disk, era);
      EraInOverlay(content, overlay, size, disk, journal, era);
      stores, deletes, removed := Collect(content, overlay, journal[era], canonId);
    }

    /** Takes the references of an era out of the overlay and forgets the era. */
    method Release(era: nat, removed: seq<Key>)
      requires Recent(content, overlay, size, journal, disk) && era in journal
      requires removed == AllInserts(journal[era], |journal[era]|)
      modifies this`overlay, this`size, this`disk, this`journal
      ensures Recent(content, overlay, size, journal, disk) && size >= 0
      ensures disk == old(disk) - EraSlots(old(disk), era) && journal == old(journal) - {era}
    {
      ghost var j' := disk - EraSlots(disk, era);
      forall k ensures |Holders(disk, k)| == |Holders(j', k)| + Times(removed, k) {
        EraInserts(journal, disk, era, |journal[era]|, k);
        EraIsBelow(journal, disk, era);
      }
      var overlay', size' := RemoveAll(content, overlay, size, removed, disk, j');
      RecentShrinks(content, overlay, size, journal, disk, era, overlay', size');
      overlay, size := overlay', size';
      disk := disk - (set p | p in disk && p.0 == era);
      journal := journal - {era};
    }

    /** Rebuilds the recent history from the disk, era by era from the latest one down. */
    method ReadOverlay() returns (overlay': Overlay, size': int, eras: EraMap)
      requires Mirrors(journal, disk) && RecordsOk(disk)
      ensures Recent(content, overlay', size', eras, VisitedPart(disk, storedEra))
    {
      overlay', size', eras := map[], 0, map[];
      ghost var seen: Journal := map[];
      if storedEra.None? {
        assert VisitedPart(disk, storedEra) == map[];
        return;
      }
      var latest := storedEra.value;
      var era := latest;
      MirrorsDense(journal, disk);
      while true
        invariant SeenTo(disk, latest, era, 0, seen) && Recent(content, overlay', size', eras, seen)
        decreases era
      {
        var index;
        overlay', size', eras, index, seen := ReadEra(overlay', size', eras, latest, era, seen);
        if index == 0 || era == 0 {
          SeenAll(disk, latest, era, index, seen);
          return;
        }
        SeenDown(disk, latest, era, index, seen);
        era := era - 1;
      }
    }

    method ReadEra(overlay0: Overlay, size0: int, eras0: EraMap, ghost latest: nat, era: nat, ghost seen0: Journal)
      returns (overlay': Overlay, size': int, eras: EraMap, index: nat, ghost seen: Journal)
      requires RecordsOk(disk) && SeenTo(disk, latest, era, 0, seen0) && Recent(content, overlay0, size0, eras0, seen0)
      ensures (era, index) !in disk && forall i :: 0 <= i < index ==> (era, i) in disk
      ensures SeenTo(disk, latest, era, index, seen) && Recent(content, overlay', size', eras, seen)
    {
      overlay', size', eras, index, seen := overlay0, size0, eras0, 0, seen0;
      EraUnlisted(disk, latest, era, eras, seen);
      while (era, index) in disk
        invariant (forall i :: 0 <= i < index ==> (era, i) in disk) && |Listed(eras, era)| == index
        invariant SeenTo(disk, latest, era, index, seen) && Recent(content, overlay', size', eras, seen)
        decreases |SlotsFrom(disk, era, index)|
      {
        SlotsShrink(disk, era, index);
        SeenNext(disk, latest, era, index, seen);
        var record := disk[(era, index)];
        assert RecordOk(record);
        var ins := Nodes(record.inserts, content);
        var overlay1, size1 := InsertAll(content, overlay', size', ins, seen, (era, index), record);
        RecentGrows(content, overlay', size', eras, seen, era, record, overlay1, size1);
        overlay', size', eras := overlay1, size1, Pushed(eras, era, record);
        seen := seen[(era, index) := record];
        index := index + 1;
      }
    }

    /** Opens the database again: what is rebuilt is what was in memory exactly when the journal has
        no gap. */
    method Reopen()
      requires Valid()
      modifies this`tx, this`overlay, this`size, this`journal, this`latestEra, this`pending, this`cache
      ensures journal == old(journal) <==> Contiguous(disk, storedEra)
      ensures Contiguous(disk, storedEra) ==> Valid() && overlay == old(overlay) && size == old(size) && latestEra == old(latestEra)
    {
      var overlay', size', eras := ReadOverlay();
      RecoveredExactly(content, overlay, size, journal, disk, storedEra, overlay', size', eras);
      overlay, size, journal := overlay', size', eras;
      tx, latestEra, pending, cache := map[], storedEra, map[], map[];
    }

    /** Stores what the canonical record inserts, and deletes what it deletes and nobody else needs. */
    method Merge(ghost records: seq<Record>, ghost canonId: Id, stores: seq<(Key, Value)>, deletes: seq<Key>)
      requires Backed(content, backing, archive) && UniqueIds(records, canonId)
      requires Genuine(content, pending) && Tallied(content, overlay, size, disk)
      requires Collected(content, records, canonId, stores, deletes)
      modifies this`backing, this`pending, this`archive
      ensures archive == ArchiveAfter(old(archive), records, canonId, |records|) && Backed(content, backing, archive)
      ensures Genuine(content, pending)
      ensures BackingSettled(old(backing), backing, disk, records, canonId)
      ensures PendingSettled(old(pending), pending, records, canonId)
    {
      var put;
      put, pending := PutAll(content, backing, pending, stores);
      PutSettled(content, old(pending), pending, records, canonId, stores, deletes);
      var left := DeleteAll(content, put, overlay, deletes);
      MergedSettled(content, backing, left, overlay, size, disk, records, canonId, stores, deletes);
      MergedBacked(content, backing, left, archive, records, canonId, stores, deletes);
      backing := left;
      archive := ArchiveAfter(archive, records, canonId, |records|);
    }
  }

  /** The nodes of a record, with their contents. */
  function Nodes(keys: seq<Key>, content: Content): (ins: seq<(Key, Value)>)
    ensures |ins| == |keys| && forall i :: 0 <= i < |keys| ==> ins[i] == (keys[i], content(keys[i]))
  {
    seq(|keys|, i requires 0 <= i < |keys| => (keys[i], content(keys[i])))
  }

  lemma EraUnlisted(j: Journal, latest: nat, era: nat, eras: EraMap, seen: Journal)
    requires SeenTo(j, latest, era, 0, seen) && Mirrors(eras, seen)
    ensures era !in eras
  {
    assert MirrorsAt(eras, seen, (era, 0));
  }

  /** What is rebuilt is what was in memory exactly when every pending record is visited. */
  lemma RecoveredExactly(content: Content, overlay: Overlay, size: int, eras: EraMap, j: Journal, latest: Option<nat>,
                         overlay': Overlay, size': int, eras': EraMap)
    requires Recent(content, overlay, size, eras, j) && Recent(content, overlay', size', eras', VisitedPart(j, latest))
    ensures eras' == eras <==> Contiguous(j, latest)
    ensures Contiguous(j, latest) ==> overlay' == overlay && size' == size
  {
    var part := VisitedPart(j, latest);
    if Contiguous(j, latest) {
      assert part == j;
      MirrorsUnique(eras, eras', j);
      forall k ensures (k in overlay' <==> k in overlay) && (k in overlay ==> overlay'[k] == overlay[k]) {
        assert TalliedAt(content, overlay, j, k) && TalliedAt(content, overlay', j, k);
      }
      assert overlay' == overlay;
    } else {
      var p :| p in j && p !in part;
      assert MirrorsAt(eras, j, p) && MirrorsAt(eras', part, p);
    }
  }

  lemma EraIsBelow(eras: EraMap, j: Journal, era: nat)
    requires Mirrors(eras, j) && era in eras
    ensures SlotsBelow(j, era, |eras[era]|) == EraSlots(j, era)
  {
    forall p | p in j && p.0 == era ensures p.1 < |eras[era]| { assert MirrorsAt(eras, j, p); }
  }

  lemma EraRecords(eras: EraMap, j: Journal, era: nat)
    requires Mirrors(eras, j) && RecordsOk(j) && era in eras
    ensures forall i :: 0 <= i < |eras[era]| ==> RecordOk(eras[era][i])
  {
    forall i | 0 <= i < |eras[era]| ensures RecordOk(eras[era][i]) { assert MirrorsAt(eras, j, (era, i)); }
  }

  lemma NoSuchEra(eras: EraMap, j: Journal, era: nat)
    requires Mirrors(eras, j) && era !in eras
    ensures j - EraSlots(j, era) == j && eras - {era} == eras
  {
    forall p | p in j ensures p.0 != era { assert MirrorsAt(eras, j, p); }
  }

  /** What the records of an era insert is in the overlay. */
  lemma EraInOverlay(content: Content, overlay: Overlay, size: int, j: Journal, eras: EraMap, era: nat)
    requires Tallied(content, overlay, size, j) && Mirrors(eras, j) && era in eras
    ensures forall i, k :: 0 <= i < |eras[era]| && k in eras[era][i].inserts ==>
      k in overlay && overlay[k].0 == content(k) && overlay[k].1 > 0
  {
    forall i, k | 0 <= i < |eras[era]| && k in eras[era][i].inserts
      ensures k in overlay && overlay[k].0 == content(k) && overlay[k].1 > 0
    {
      assert MirrorsAt(eras, j, (era, i));
      assert (era, i) in Holders(j, k);
      assert TalliedAt(content, overlay, j, k);
    }
  }

  method PutAll(ghost content: Content, backing: map<Key, Value>, pending: map<Key, Value>, stores: seq<(Key, Value)>)
    returns (backing': map<Key, Value>, pending': map<Key, Value>)
    requires forall x :: x in stores ==> x.1 == content(x.0)
    requires (forall k :: k in backing ==> backing[k] == content(k)) && (forall k :: k in pending ==> pending[k] == content(k))
    ensures (forall k :: k in backing' ==> backing'[k] == content(k)) && (forall k :: k in pending' ==> pending'[k] == content(k))
    ensures forall k :: k in backing' <==> k in backing || (k, content(k)) in stores
    ensures forall k :: k in pending' <==> k in pending || (k, content(k)) in stores
  {
    backing', pending' := backing, pending;
    for i := 0 to |stores|
      invariant (forall k :: k in backing' ==> backing'[k] == content(k)) && (forall k :: k in pending' ==> pending'[k] == content(k))
      invariant forall k :: k in backing' <==> k in backing || (k, content(k)) in stores[..i]
      invariant forall k :: k in pending' <==> k in pending || (k, content(k)) in stores[..i]
    {
      var (k, v) := stores[i];
      assert stores[i] in stores && stores[..i + 1] == stores[..i] + [stores[i]];
      backing', pending' := backing'[k := v], pending'[k := v];
    }
    assert stores[..|stores|] == stores;
  }

  /** A deleted node leaves the backing store unless the overlay still counts it. */
  method DeleteAll(ghost content: Content, backing: map<Key, Value>, overlay: Overlay, deletes: seq<Key>) returns (backing': map<Key, Value>)
    requires forall k :: k in backing ==> backing[k] == content(k)
    ensures forall k :: k in backing' ==> backing'[k] == content(k)
    ensures forall k :: k in backing' <==> k in backing && (k !in deletes || Contains(overlay, k))
  {
    backing' := backing;
    for i := 0 to |deletes|
      invariant forall k :: k in backing' ==> backing'[k] == content(k)
      invariant forall k :: k in backing' <==> k in backing && (k !in deletes[..i] || Contains(overlay, k))
    {
      assert deletes[..i + 1] == deletes[..i] + [deletes[i]];
      if !Contains(overlay, deletes[i]) { backing' := backing' - {deletes[i]}; }
    }
    assert deletes[..|deletes|] == deletes;
  }

  lemma NothingSettled(nodes: map<Key, Value>, pending: map<Key, Value>, j: Journal, canonId: Id)
    ensures BackingSettled(nodes, nodes, j, [], canonId) && PendingSettled(pending, pending, [], canonId)
  {
  }

  /** What was collected is what the canonical record inserts and deletes. */
  lemma CollectedIs(content: Content, records: seq<Record>, canonId: Id, stores: seq<(Key, Value)>, deletes: seq<Key>, k: Key)
    requires UniqueIds(records, canonId) && Collected(content, records, canonId, stores, deletes)
    ensures CanonInserts(records, canonId, k) <==> (k, content(k)) in stores
    ensures CanonDeletes(records, canonId, k) <==> k in deletes
    ensures k in deletes ==> (k, content(k)) !in stores
  {
    if i :| 0 <= i < |records| && CanonicalAt(records, canonId, i) {
      assert CanonInserts(records, canonId, k) <==> k in records[i].inserts;
      assert CanonDeletes(records, canonId, k) <==> k in records[i].deletes;
    }
  }

  lemma MergedSettled(content: Content, backing: map<Key, Value>, backing': map<Key, Value>, overlay: Overlay,
      size: int, j: Journal, records: seq<Record>, canonId: Id, stores: seq<(Key, Value)>, deletes: seq<Key>)
    requires Tallied(content, overlay, size, j) && UniqueIds(records, canonId) && Collected(content, records, canonId, stores, deletes)
    requires forall k :: k in backing' <==> (k in backing || (k, content(k)) in stores) && (k !in deletes || Contains(overlay, k))
    ensures BackingSettled(backing, backing', j, records, canonId)
  {
    forall k
      ensures k in backing' <==>
        (k in backing || CanonInserts(records, canonId, k)) && !(CanonDeletes(records, canonId, k) && Holders(j, k) == {})
    {
      CollectedIs(content, records, canonId, stores, deletes, k);
      assert TalliedAt(content, overlay, j, k);
    }
  }

  lemma PutSettled(content: Content, pending: map<Key, Value>, pending': map<Key, Value>, records: seq<Record>,
      canonId: Id, stores: seq<(Key, Value)>, deletes: seq<Key>)
    requires UniqueIds(records, canonId) && Collected(content, records, canonId, stores, deletes)
    requires forall k :: k in pending' <==> k in pending || (k, content(k)) in stores
    ensures PendingSettled(pending, pending', records, canonId)
  {
    forall k ensures k in pending' <==> k in pending || CanonInserts(records, canonId, k) {
      CollectedIs(content, records, canonId, stores, deletes, k);
    }
  }

  lemma MergedBacked(content: Content, backing: map<Key, Value>, backing': map<Key, Value>, archive: set<Key>,
      records: seq<Record>, canonId: Id, stores: seq<(Key, Value)>, deletes: seq<Key>)
    requires Backed(content, backing, archive) && UniqueIds(records, canonId) && Collected(content, records, canonId, stores, deletes)
    requires forall k :: k in backing' ==> backing'[k] == content(k)
    requires forall k :: (k in backing || (k, content(k)) in stores) && k !in deletes ==> k in backing'
    ensures Backed(content, backing', ArchiveAfter(archive, records, canonId, |records|))
  {
    ArchiveIs(archive, records, canonId, |records|);
    if i :| 0 <= i < |records| && CanonicalAt(records, canonId, i) {
      assert ArchiveAfter(archive, records, canonId, |records|) == Enact(archive, records[i]);
    }
  }
}
