/** The document store the learning-progress layer talks to, seen only through the
    operations it offers: fetch by id, upsert, delete, and key lookups in views that
    the store derives from the stored records. Store failures (network, conflicts,
    decoding) come from a fault oracle fixed when the store is created. */
module DocStore {
  import opened Types
  import opened Order

  /** What the store holds: the records by id, and the same ids in ascending order
      (the order in which a view returns rows that share a key). */
  datatype Db = Db(docs: map<Id, Lerne>, ids: seq<Id>)

  ghost predicate Consistent(d: Db) {
    && Sorted(d.ids)
    && (forall id :: id in d.ids <==> id in d.docs)
    && "" !in d.docs
    && (forall id :: id in d.docs ==> d.docs[id].id == id)
  }

  /** No record at all. */
  function Empty(): (d: Db)
    ensures Consistent(d) && d.docs == map[]
  {
    Db(map[], [])
  }

  function MaxLength(s: seq<string>): (n: nat)
    ensures forall x :: x in s ==> |x| <= n
  {
    if s == [] then 0
    else
      var m := MaxLength(s[1..]);
      if |s[0]| > m then |s[0]| else m
  }

  /** The id the store gives a record written without one: longer than every id in use. */
  function FreshId(d: Db): (id: Id)
    ensures id != "" && id !in d.ids
  {
    seq(MaxLength(d.ids) + 1, i => 'x')
  }

  /** The id a written record is stored under. */
  function AssignedId(d: Db, doc: Lerne): (id: Id)
    ensures id != ""
    ensures doc.id != "" ==> id == doc.id
    ensures doc.id == "" && Consistent(d) ==> id !in d.docs
  {
    if doc.id == "" then FreshId(d) else doc.id
  }

  /** Upsert: the record is stored, with its assigned id, in place of whatever the
      id held before; nothing else changes. */
  function Put(d: Db, doc: Lerne): (r: Db)
    requires Consistent(d)
    ensures Consistent(r)
    ensures r.docs == d.docs[AssignedId(d, doc) := doc.(id := AssignedId(d, doc))]
  {
    var id := AssignedId(d, doc);
    Db(d.docs[id := doc.(id := id)], if id in d.ids then d.ids else Insert(d.ids, id))
  }

  /** Removes the record with this id, if there is one. */
  function Drop(d: Db, id: Id): (r: Db)
    requires Consistent(d)
    ensures Consistent(r)
    ensures r.docs == d.docs - {id}
  {
    FilterSorted(d.ids, x => x != id);
    Db(d.docs - {id}, Filter(d.ids, x => x != id))
  }

  /** The writes of `ls`, one after the other. */
  function PutAll(d: Db, ls: seq<Lerne>): (r: Db)
    requires Consistent(d)
    ensures Consistent(r)
    decreases |ls|
  {
    if ls == [] then d else Put(PutAll(d, ls[..|ls| - 1]), ls[|ls| - 1])
  }

  /** The deletions of `ids`, one after the other. */
  function DropAll(d: Db, ids: seq<Id>): (r: Db)
    requires Consistent(d)
    ensures Consistent(r)
    decreases |ids|
  {
    if ids == [] then d else Drop(DropAll(d, ids[..|ids| - 1]), ids[|ids| - 1])
  }

  /** A view: the ids of the records that emit `key`, in ascending id order. Views are
      recomputed from the records on every query, so they never lag behind. */
  function Rows(d: Db, key: Key): (rows: seq<Id>)
    requires Consistent(d)
    ensures Sorted(rows)
    ensures forall id :: id in rows <==> id in d.docs && Matches(key, d.docs[id])
  {
    FilterSorted(d.ids, id => id in d.docs && Matches(key, d.docs[id]));
    Filter(d.ids, id => id in d.docs && Matches(key, d.docs[id]))
  }

  /** Fetch by id: a fault, the record, or NotFound. */
  function Get(d: Db, faults: map<Call, string>, id: Id): (r: Result<Lerne>)
    ensures Fetch(id) in faults ==> r == Err(StoreError(faults[Fetch(id)]))
    ensures Fetch(id) !in faults ==> (r.Ok? <==> id in d.docs) && (r.Err? ==> r.error == NotFound)
    ensures r.Ok? ==> id in d.docs && r.value == d.docs[id]
  {
    if Fetch(id) in faults then Err(StoreError(faults[Fetch(id)]))
    else if id in d.docs then Ok(d.docs[id])
    else Err(NotFound)
  }

  /** A query of one of the id views. */
  function View(d: Db, faults: map<Call, string>, key: Key): (r: Result<seq<Id>>)
    requires Consistent(d)
    ensures r.Ok? <==> Query(key) !in faults
    ensures r.Err? ==> r.error == StoreError(faults[Query(key)])
    ensures r.Ok? ==> Sorted(r.value) && forall id :: id in r.value <==> id in d.docs && Matches(key, d.docs[id])
  {
    if Query(key) in faults then Err(StoreError(faults[Query(key)])) else Ok(Rows(d, key))
  }

  /** A query of fach-nach-karte, whose rows come from an oracle. */
  function FachView(oracle: FachKey -> seq<FachRow>, faults: map<Call, string>, key: FachKey): (r: Result<seq<FachRow>>)
    ensures r.Ok? <==> QueryFach(key) !in faults
    ensures r.Err? ==> r.error == StoreError(faults[QueryFach(key)])
    ensures r.Ok? ==> r.value == oracle(key)
  {
    if QueryFach(key) in faults then Err(StoreError(faults[QueryFach(key)])) else Ok(oracle(key))
  }

  /** The effect of one upsert call: on a fault the error and no change, otherwise Put. */
  ghost predicate Writes(faults: map<Call, string>, before: Db, after: Db, doc: Lerne, err: Outcome)
    requires Consistent(before)
  {
    if Write(doc) in faults then err == Fail(StoreError(faults[Write(doc)])) && after == before
    else err == Pass && after == Put(before, doc)
  }

  /** The effect of one delete call: on a fault or a missing record the error and no
      change, otherwise Drop. */
  ghost predicate Deletes(faults: map<Call, string>, before: Db, after: Db, id: Id, err: Outcome)
    requires Consistent(before)
  {
    if Remove(id) in faults then err == Fail(StoreError(faults[Remove(id)])) && after == before
    else if id !in before.docs then err == Fail(NotFound) && after == before
    else err == Pass && after == Drop(before, id)
  }

  /** No write of `ls` is a faulting call. */
  ghost predicate WritesSucceed(faults: map<Call, string>, ls: seq<Lerne>)
    decreases |ls|
  {
    ls != [] ==> WritesSucceed(faults, ls[..|ls| - 1]) && Write(ls[|ls| - 1]) !in faults
  }

  /** No deletion of `ids` is a faulting call. */
  ghost predicate RemovesSucceed(faults: map<Call, string>, ids: seq<Id>)
    decreases |ids|
  {
    ids != [] ==> RemovesSucceed(faults, ids[..|ids| - 1]) && Remove(ids[|ids| - 1]) !in faults
  }

  /** A run of writes that stopped at the first fault: the first `n` records of `ls` were
      written, in order and without fault, and either all were, or the next write failed
      with the error `err`. */
  ghost predicate WroteInOrder(faults: map<Call, string>, before: Db, after: Db, ls: seq<Lerne>, n: nat, err: Outcome)
    requires Consistent(before)
  {
    && n <= |ls|
    && after == PutAll(before, ls[..n])
    && WritesSucceed(faults, ls[..n])
    && (err.Pass? ==> n == |ls|)
    && (err.Fail? ==> n < |ls| && Write(ls[n]) in faults && err == Fail(StoreError(faults[Write(ls[n])])))
  }

  /** A run of deletions that stopped at the first fault, in the same sense. */
  ghost predicate DeletedInOrder(faults: map<Call, string>, before: Db, after: Db, ids: seq<Id>, n: nat, err: Outcome)
    requires Consistent(before)
  {
    && n <= |ids|
    && after == DropAll(before, ids[..n])
    && RemovesSucceed(faults, ids[..n])
    && (err.Pass? ==> n == |ids|)
    && (err.Fail? ==> n < |ids| && Remove(ids[n]) in faults && err == Fail(StoreError(faults[Remove(ids[n])])))
  }

  /** One more write extends the run of writes by one. */
  lemma PutAllStep(d: Db, faults: map<Call, string>, ls: seq<Lerne>, i: nat)
    requires Consistent(d) && i < |ls|
    ensures PutAll(d, ls[..i + 1]) == Put(PutAll(d, ls[..i]), ls[i])
    ensures WritesSucceed(faults, ls[..i + 1]) <==> WritesSucceed(faults, ls[..i]) && Write(ls[i]) !in faults
  {
    assert ls[..i + 1][..i] == ls[..i];
  }

  /** One more deletion extends the run of deletions by one. */
  lemma DropAllStep(d: Db, faults: map<Call, string>, ids: seq<Id>, i: nat)
    requires Consistent(d) && i < |ids|
    ensures DropAll(d, ids[..i + 1]) == Drop(DropAll(d, ids[..i]), ids[i])
    ensures RemovesSucceed(faults, ids[..i + 1]) <==> RemovesSucceed(faults, ids[..i]) && Remove(ids[i]) !in faults
  {
    assert ids[..i + 1][..i] == ids[..i];
  }

  /** Writing a record and fetching its assigned id gives the record back. */
  lemma PutThenGet(d: Db, faults: map<Call, string>, doc: Lerne)
    requires Consistent(d) && Fetch(AssignedId(d, doc)) !in faults
    ensures Get(Put(d, doc), faults, AssignedId(d, doc)) == Ok(doc.(id := AssignedId(d, doc)))
    ensures doc.id == "" ==> Put(d, doc).docs.Keys == d.docs.Keys + {AssignedId(d, doc)}
  {
  }

  /** After a run of deletions exactly the other records remain, unchanged. */
  lemma {:induction false} DropAllDocs(d: Db, ids: seq<Id>)
    requires Consistent(d)
    ensures forall id :: id in DropAll(d, ids).docs <==> id in d.docs && id !in ids
    ensures forall id :: id in DropAll(d, ids).docs ==> DropAll(d, ids).docs[id] == d.docs[id]
    decreases |ids|
  {
    if ids != [] {
      var init := ids[..|ids| - 1];
      DropAllDocs(d, init);
      assert ids == init + [ids[|ids| - 1]];
    }
  }

  /** After a run of writes with distinct, non-empty ids, each record is stored under
      its id and every other id keeps what it held. */
  lemma {:induction false} PutAllDocs(d: Db, ls: seq<Lerne>)
    requires Consistent(d)
    requires forall i :: 0 <= i < |ls| ==> ls[i].id != ""
    requires forall i, j :: 0 <= i < j < |ls| ==> ls[i].id != ls[j].id
    ensures forall i :: 0 <= i < |ls| ==> ls[i].id in PutAll(d, ls).docs && PutAll(d, ls).docs[ls[i].id] == ls[i]
    ensures forall id :: (forall i :: 0 <= i < |ls| ==> ls[i].id != id) ==>
              (id in PutAll(d, ls).docs <==> id in d.docs) &&
              (id in d.docs ==> PutAll(d, ls).docs[id] == d.docs[id])
    decreases |ls|
  {
    if ls != [] {
      var init := ls[..|ls| - 1];
      PutAllDocs(d, init);
      var last := ls[|ls| - 1];
      var before := PutAll(d, init);
      var after := PutAll(d, ls);
      assert last.(id := last.id) == last;
      assert after.docs == before.docs[last.id := last];
      forall i | 0 <= i < |ls|
        ensures ls[i].id in after.docs && after.docs[ls[i].id] == ls[i]
      {
        if i < |ls| - 1 {
          assert init[i] == ls[i];
        }
      }
      forall id | forall i :: 0 <= i < |ls| ==> ls[i].id != id
        ensures (id in after.docs <==> id in d.docs) && (id in d.docs ==> after.docs[id] == d.docs[id])
      {
        assert forall i :: 0 <= i < |init| ==> init[i].id != id by {
          forall i | 0 <= i < |init| ensures init[i].id != id {
            assert init[i] == ls[i];
          }
        }
        assert last.id != id;
      }
    }
  }

  /** A handle on the store. Its records change through InsertDoc and DeleteDoc;
      which calls fail, and the rows of fach-nach-karte, are fixed when it is created. */
  class Store {
    var db: Db
    const faults: map<Call, string>
    const fachNachKarte: FachKey -> seq<FachRow>

    ghost predicate Valid()
      reads this
    {
      Consistent(db)
    }

    constructor (db: Db, faults: map<Call, string>, fachNachKarte: FachKey -> seq<FachRow>)
      requires Consistent(db)
      ensures Valid()
      ensures this.db == db && this.faults == faults && this.fachNachKarte == fachNachKarte
    {
      this.db := db;
      this.faults := faults;
      this.fachNachKarte := fachNachKarte;
    }

    /** Stores `doc` in place of the record with its id, or under a fresh id if it has none. */
    method InsertDoc(doc: Lerne) returns (err: Outcome)
      requires Valid()
      modifies this
      ensures Valid()
      ensures Writes(faults, old(db), db, doc, err)
    {
      if Write(doc) in faults {
        err := Fail(StoreError(faults[Write(doc)]));
      } else {
        db := Put(db, doc);
        err := Pass;
      }
    }

    method DeleteDoc(id: Id) returns (err: Outcome)
      requires Valid()
      modifies this
      ensures Valid()
      ensures Deletes(faults, old(db), db, id, err)
    {
      if Remove(id) in faults {
        err := Fail(StoreError(faults[Remove(id)]));
      } else if id !in db.docs {
        err := Fail(NotFound);
      } else {
        db := Drop(db, id);
        err := Pass;
      }
    }
  }
}
