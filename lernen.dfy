/** The learning-progress layer ("Lernen"): lookups of progress records through the
    store's views, the mastery update of one card, and the bulk operations over all
    records of a user or a deck. */
module Lernen {
  import opened Types
  import opened Order
  import opened DocStore

  /** The highest mastery level; a card that reaches it stays there on success. */
  const HoechstesFach := 4

  /** The level a card moves to after one answer: up by one on success, unless it is
      already at the top (or above it); back to zero on failure. */
  function Naechste(level: int, erfolg: bool): (r: int)
    ensures !erfolg ==> r == 0
    ensures erfolg ==> level <= r <= level + 1 && (r == level <==> level >= HoechstesFach)
  {
    if !erfolg then 0 else if level < HoechstesFach then level + 1 else level
  }

  /** The record as written back after an answer on card `index`: the fetched one except
      for that card, which gets the next level. */
  function Gelernt(l: Lerne, index: int, erfolg: bool): (g: Lerne)
    requires 0 <= index < |l.karten|
    ensures g.id == l.id && g.rev == l.rev && g.user == l.user && g.kasten == l.kasten
    ensures |g.karten| == |l.karten|
    ensures g.karten[index] == Naechste(l.karten[index], erfolg)
    ensures forall j :: 0 <= j < |l.karten| && j != index ==> g.karten[j] == l.karten[j]
  {
    l.(karten := l.karten[index := Naechste(l.karten[index], erfolg)])
  }

  /** Every level lies in [0, 4]. */
  ghost predicate InBereich(karten: seq<int>) {
    forall i :: 0 <= i < |karten| ==> 0 <= karten[i] <= HoechstesFach
  }

  /** Some record of the store emits `key`. */
  ghost predicate Belegt(d: Db, key: Key) {
    exists id :: id in d.docs && Matches(key, d.docs[id])
  }

  /** `l` is stored, emits `key`, and no other record emitting `key` has a smaller id:
      it is the record of the view's first row. */
  ghost predicate IstErster(d: Db, key: Key, l: Lerne) {
    && l.id in d.docs && d.docs[l.id] == l && Matches(key, l)
    && forall id :: id in d.docs && Matches(key, d.docs[id]) && id != l.id ==> Less(l.id, id)
  }

  ghost predicate KeineLesefehler(faults: map<Call, string>) {
    forall id :: Fetch(id) !in faults
  }

  /** `res` holds the fetched records of a prefix of `rows`, in row order; the prefix
      is everything on success and ends just before the first failed fetch, whose error
      is `err`, otherwise. */
  ghost predicate GelesenInReihe(d: Db, faults: map<Call, string>, rows: seq<Id>, res: seq<Lerne>, err: Outcome) {
    && |res| <= |rows|
    && (forall j :: 0 <= j < |res| ==> Get(d, faults, rows[j]) == Ok(res[j]))
    && (err.Pass? ==> |res| == |rows|)
    && (err.Fail? ==> |res| < |rows| && Get(d, faults, rows[|res|]) == Err(err.error))
  }

  /** `res` holds exactly the records that emit `key`, in ascending id order. */
  ghost predicate AlleZumSchluessel(d: Db, key: Key, res: seq<Lerne>) {
    && (forall l :: l in res <==> l in d.docs.Values && Matches(key, l))
    && (forall i, j :: 0 <= i < j < |res| ==> Less(res[i].id, res[j].id))
  }

  // ---------------------------------------------------------------------------
  // The mastery rule

  /** The five levels form a bounded counter: success gives min(L + 1, 4), failure 0,
      and neither leaves [0, 4]. */
  lemma FuenfStufen(level: int, erfolg: bool)
    requires 0 <= level <= HoechstesFach
    ensures 0 <= Naechste(level, erfolg) <= HoechstesFach
    ensures erfolg ==> Naechste(level, erfolg) == if level + 1 < HoechstesFach then level + 1 else HoechstesFach
    ensures !erfolg ==> Naechste(level, erfolg) == 0
  {
  }

  /** The levels a card passes through on `n` successes in a row from `level`. */
  function Erfolge(level: int, n: nat): seq<int>
    decreases n
  {
    if n == 0 then [] else [Naechste(level, true)] + Erfolge(Naechste(level, true), n - 1)
  }

  /** From level L in [0, 4], the k-th success in a row (k from 1) reaches min(L + k, 4). */
  lemma {:induction false} ErfolgeGekappt(level: int, n: nat)
    requires 0 <= level <= HoechstesFach
    ensures |Erfolge(level, n)| == n
    ensures forall k :: 0 <= k < n ==>
              Erfolge(level, n)[k] == if level + k + 1 < HoechstesFach then level + k + 1 else HoechstesFach
    decreases n
  {
    if n > 0 {
      var next := Naechste(level, true);
      ErfolgeGekappt(next, n - 1);
      forall k | 0 <= k < n
        ensures Erfolge(level, n)[k] == if level + k + 1 < HoechstesFach then level + k + 1 else HoechstesFach
      {
        if k > 0 {
          assert Erfolge(level, n)[k] == Erfolge(next, n - 1)[k - 1];
        }
      }
    }
  }

  /** Five successes from level 0 give 1, 2, 3, 4, 4. */
  lemma FuenfErfolgeAbNull()
    ensures Erfolge(0, 5) == [1, 2, 3, 4, 4]
  {
    ErfolgeGekappt(0, 5);
  }

  /** Levels in [0, 4] stay in [0, 4]. */
  lemma GelerntInBereich(l: Lerne, index: int, erfolg: bool)
    requires 0 <= index < |l.karten| && InBereich(l.karten)
    ensures InBereich(Gelernt(l, index, erfolg).karten)
  {
    FuenfStufen(l.karten[index], erfolg);
  }

  /** Levels [0,0,0]: success on card 1, success on card 1, failure on card 0 give
      [0,2,0]; the failure leaves card 0 at 0. */
  lemma DreiAntworten(l: Lerne)
    requires l.karten == [0, 0, 0]
    ensures var a := Gelernt(l, 1, true);
      var b := Gelernt(a, 1, true);
      a.karten == [0, 1, 0] && b.karten == [0, 2, 0] && Gelernt(b, 0, false).karten == [0, 2, 0]
  {
  }

  // ---------------------------------------------------------------------------
  // Views and fetches

  /** The first row of a view is the smallest matching id. */
  lemma ErsteZeileKleinste(d: Db, key: Key)
    requires Consistent(d) && Rows(d, key) != []
    ensures forall id :: id in d.docs && Matches(key, d.docs[id]) && id != Rows(d, key)[0] ==> Less(Rows(d, key)[0], id)
  {
    var rows := Rows(d, key);
    HeadLeast(rows);
    forall id | id in d.docs && Matches(key, d.docs[id]) && id != rows[0]
      ensures Less(rows[0], id)
    {
      var k :| 0 <= k < |rows| && rows[k] == id;
      assert rows[1..][k - 1] == id;
    }
  }

  /** One more successful fetch extends the run by that record. */
  lemma Weitergelesen(d: Db, faults: map<Call, string>, rows: seq<Id>, res: seq<Lerne>, l: Lerne)
    requires |res| < |rows| && GelesenInReihe(d, faults, rows[..|res|], res, Pass)
    requires Get(d, faults, rows[|res|]) == Ok(l)
    ensures GelesenInReihe(d, faults, rows[..|res| + 1], res + [l], Pass)
  {
    assert forall j :: 0 <= j < |res| ==> rows[..|res| + 1][j] == rows[..|res|][j];
  }

  /** A failed fetch ends the run with its error. */
  lemma Abgebrochen(d: Db, faults: map<Call, string>, rows: seq<Id>, res: seq<Lerne>)
    requires |res| < |rows| && GelesenInReihe(d, faults, rows[..|res|], res, Pass)
    requires Get(d, faults, rows[|res|]).Err?
    ensures GelesenInReihe(d, faults, rows, res, Fail(Get(d, faults, rows[|res|]).error))
  {
    assert forall j :: 0 <= j < |res| ==> rows[j] == rows[..|res|][j];
  }

  /** Fetching the rows of a view one by one: a failure can only be a store fault (the
      rows name stored records), a complete run yields exactly the records of the key in
      id order, and without fetch faults the run is complete. */
  lemma ZeilenGelesen(d: Db, faults: map<Call, string>, key: Key, res: seq<Lerne>, err: Outcome)
    requires Consistent(d)
    requires GelesenInReihe(d, faults, Rows(d, key), res, err)
    ensures err.Fail? ==> err.error.StoreError?
    ensures err.Pass? ==> AlleZumSchluessel(d, key, res)
    ensures KeineLesefehler(faults) ==> err.Pass?
  {
    var rows := Rows(d, key);
    if err.Fail? {
      assert rows[|res|] in rows;
    }
    if err.Pass? {
      forall l | l in d.docs.Values && Matches(key, l)
        ensures l in res
      {
        var id :| id in d.docs && d.docs[id] == l;
        assert id in rows;
        var j :| 0 <= j < |rows| && rows[j] == id;
        assert res[j] == l;
      }
      forall l | l in res
        ensures l in d.docs.Values && Matches(key, l)
      {
        var j :| 0 <= j < |res| && res[j] == l;
        assert rows[j] in rows;
      }
      forall i, j | 0 <= i < j < |res|
        ensures Less(res[i].id, res[j].id)
      {
        assert rows[i] in rows && rows[j] in rows;
      }
    }
  }

  /** Deleting records of a deck: what remains was there before and is unchanged, the
      records of other decks all remain, and when `complete` no record of the deck is left. */
  ghost predicate KastenGeloescht(before: Db, after: Db, kastenid: string, complete: bool) {
    && (forall id :: id in after.docs ==> id in before.docs && after.docs[id] == before.docs[id])
    && (forall id :: id in before.docs && before.docs[id].kasten != kastenid ==> id in after.docs)
    && (complete ==> forall id :: id in after.docs ==> after.docs[id].kasten != kastenid)
  }

  /** Deleting the first `n` rows of a deck's view deletes records of that deck only, keeps
      the next row's record, and once all rows are deleted leaves no record of the deck. */
  lemma ZeilenGeloescht(d: Db, kastenid: string, n: nat)
    requires Consistent(d) && n <= |Rows(d, KastenNachID(kastenid))|
    ensures var rows := Rows(d, KastenNachID(kastenid));
      var r := DropAll(d, rows[..n]);
      && KastenGeloescht(d, r, kastenid, n == |rows|)
      && (n < |rows| ==> rows[n] in r.docs)
  {
    var rows := Rows(d, KastenNachID(kastenid));
    DropAllDocs(d, rows[..n]);
    if n < |rows| {
      assert rows[n] in rows;
      forall j | 0 <= j < n
        ensures rows[..n][j] != rows[n]
      {
        SortedDistinct(rows, j, n);
      }
    }
    if n == |rows| {
      assert rows[..n] == rows;
    }
  }

  // ---------------------------------------------------------------------------
  // The access layer

  /** A handle on the progress records. Its views are those of the store `db`. */
  class Lernen {
    const db: Store

    constructor (db: Store)
      ensures this.db == db
    {
      this.db := db;
    }

    /** The record stored under `id`; NotFound when there is none; a store fault as is. */
    function LerneByID(id: Id): (r: Result<Lerne>)
      reads db
      requires db.Valid()
      ensures Fetch(id) in db.faults ==> r == Err(StoreError(db.faults[Fetch(id)]))
      ensures Fetch(id) !in db.faults ==> (r.Ok? <==> id in db.db.docs) && (r.Err? ==> r.error == NotFound)
      ensures r.Ok? ==> r.value.id == id && id in db.db.docs && db.db.docs[id] == r.value
    {
      Get(db.db, db.faults, id)
    }

    /** The user's record for the deck: NotFound exactly when the user has none; when
        several match, the one with the smallest id (the view's first row). */
    function LerneByUserAndKasten(userid: string, kastenid: string): (r: Result<Lerne>)
      reads db
      requires db.Valid()
      ensures Query(GelerntVon(userid, kastenid)) in db.faults ==>
                r == Err(StoreError(db.faults[Query(GelerntVon(userid, kastenid))]))
      ensures Query(GelerntVon(userid, kastenid)) !in db.faults ==>
                (r == Err(NotFound) <==> !Belegt(db.db, GelerntVon(userid, kastenid)))
      ensures Query(GelerntVon(userid, kastenid)) !in db.faults && KeineLesefehler(db.faults) ==>
                (r.Ok? <==> Belegt(db.db, GelerntVon(userid, kastenid)))
      ensures Query(GelerntVon(userid, kastenid)) !in db.faults && Belegt(db.db, GelerntVon(userid, kastenid)) ==>
                r == LerneByID(Rows(db.db, GelerntVon(userid, kastenid))[0])
      ensures r.Ok? ==> IstErster(db.db, GelerntVon(userid, kastenid), r.value)
      ensures r.Ok? ==> r.value.user == userid && r.value.kasten == kastenid
    {
      match View(db.db, db.faults, GelerntVon(userid, kastenid))
      case Err(e) => Err(e)
      case Ok(rows) =>
        if |rows| == 0 then Err(NotFound)
        else
          ErsteZeileKleinste(db.db, GelerntVon(userid, kastenid));
          assert rows[0] in rows;
          LerneByID(rows[0])
    }

    /** The level of card `kartenindex` of the user's deck, as the view reports it: -1 with NotFound when the
        view has no row, -1 with the fault when the query fails, else the first row's. */
    function FachVonKarte(userid: string, kastenid: string, kartenindex: string): (r: (int, Outcome))
      ensures r.1.Fail? ==> r.0 == -1
      ensures QueryFach(FachKey(userid, kastenid, kartenindex)) in db.faults ==>
                r.1 == Fail(StoreError(db.faults[QueryFach(FachKey(userid, kastenid, kartenindex))]))
      ensures QueryFach(FachKey(userid, kastenid, kartenindex)) !in db.faults ==>
                (r.1 == Fail(NotFound) <==> db.fachNachKarte(FachKey(userid, kastenid, kartenindex)) == [])
      ensures QueryFach(FachKey(userid, kastenid, kartenindex)) !in db.faults
              && db.fachNachKarte(FachKey(userid, kastenid, kartenindex)) != [] ==>
                r == (db.fachNachKarte(FachKey(userid, kastenid, kartenindex))[0].fach, Pass)
      ensures r.1.Pass? ==>
                && db.fachNachKarte(FachKey(userid, kastenid, kartenindex)) != []
                && r.0 == db.fachNachKarte(FachKey(userid, kastenid, kartenindex))[0].fach
    {
      match FachView(db.fachNachKarte, db.faults, FachKey(userid, kastenid, kartenindex))
      case Err(e) => (-1, Fail(e))
      case Ok(rows) => if |rows| == 0 then (-1, Fail(NotFound)) else (rows[0].fach, Pass)
    }

    /** Stores a new record; the store gives it an id if it has none. */
    method NeuesLerne(lerne: Lerne) returns (err: Outcome)
      requires db.Valid()
      modifies db
      ensures db.Valid()
      ensures Writes(db.faults, old(db.db), db.db, lerne, err)
    {
      err := db.InsertDoc(lerne);
    }

    /** Overwrites the stored record with the same id by `lerne`, without a revision check. */
    method AktualisiereLerne(lerne: Lerne) returns (err: Outcome)
      requires db.Valid()
      modifies db
      ensures db.Valid()
      ensures Writes(db.faults, old(db.db), db.db, lerne, err)
    {
      err := db.InsertDoc(lerne);
    }

    method LoescheLerne(id: Id) returns (err: Outcome)
      requires db.Valid()
      modifies db
      ensures db.Valid()
      ensures Deletes(db.faults, old(db.db), db.db, id, err)
    {
      err := db.DeleteDoc(id);
    }

    /** Records an answer on card `index` of the user's deck. A failed lookup or an index
        outside the card list returns its error and writes nothing; otherwise the record is
        written back with only that card's level moved by the mastery rule. */
    method KarteGelernt(userid: string, kastenid: string, index: int, erfolg: bool) returns (err: Outcome)
      requires db.Valid()
      modifies db
      ensures db.Valid()
      ensures var r := old(LerneByUserAndKasten(userid, kastenid));
        && (r.Err? ==> err == Fail(r.error) && db.db == old(db.db))
        && (r.Ok? && !(0 <= index < |r.value.karten|) ==> err == Fail(IndexOutOfRange) && db.db == old(db.db))
        && (r.Ok? && 0 <= index < |r.value.karten| ==>
              Writes(db.faults, old(db.db), db.db, Gelernt(r.value, index, erfolg), err))
      ensures var r := old(LerneByUserAndKasten(userid, kastenid));
        err.Pass? ==>
          && r.Ok? && 0 <= index < |r.value.karten|
          && db.db.docs == old(db.db.docs)[r.value.id := Gelernt(r.value, index, erfolg)]
    {
      var r := LerneByUserAndKasten(userid, kastenid);
      if r.Err? {
        return Fail(r.error);
      }
      var lerne := r.value;
      if index < 0 || index >= |lerne.karten| {
        return Fail(IndexOutOfRange);
      }
      var karten := lerne.karten;
      if erfolg {
        if karten[index] < HoechstesFach {
          karten := karten[index := karten[index] + 1];
        }
      } else {
        karten := karten[index := 0];
      }
      lerne := lerne.(karten := karten);
      assert lerne == Gelernt(r.value, index, erfolg);
      err := AktualisiereLerne(lerne);
    }

    /** All records of the user, in the order of the nach-user view; on the first failed
        fetch, the records fetched so far and that error. */
    method GelerntVonUser(userid: string) returns (gelerntVon: seq<Lerne>, err: Outcome)
      requires db.Valid()
      ensures match View(db.db, db.faults, NachUser(userid))
        case Err(e) => gelerntVon == [] && err == Fail(e)
        case Ok(rows) => GelesenInReihe(db.db, db.faults, rows, gelerntVon, err)
      ensures err.Fail? ==> err.error.StoreError?
      ensures err.Pass? ==> AlleZumSchluessel(db.db, NachUser(userid), gelerntVon)
      ensures Query(NachUser(userid)) !in db.faults && KeineLesefehler(db.faults) ==> err.Pass?
    {
      gelerntVon := [];
      var q := View(db.db, db.faults, NachUser(userid));
      if q.Err? {
        return [], Fail(q.error);
      }
      var rows := q.value;
      for i := 0 to |rows|
        invariant |gelerntVon| == i
        invariant GelesenInReihe(db.db, db.faults, rows[..i], gelerntVon, Pass)
      {
        var lerne := LerneByID(rows[i]);
        if lerne.Err? {
          err := Fail(lerne.error);
          Abgebrochen(db.db, db.faults, rows, gelerntVon);
          ZeilenGelesen(db.db, db.faults, NachUser(userid), gelerntVon, err);
          return;
        }
        Weitergelesen(db.db, db.faults, rows, gelerntVon, lerne.value);
        gelerntVon := gelerntVon + [lerne.value];
      }
      err := Pass;
      assert rows[..|rows|] == rows;
      ZeilenGelesen(db.db, db.faults, NachUser(userid), gelerntVon, err);
    }

    /** All records of the deck, in the order of the nach-id view; on the first failed
        fetch, the records fetched so far and that error. */
    method AlleLerneZuKasten(kastenid: string) returns (lernen: seq<Lerne>, err: Outcome)
      requires db.Valid()
      ensures match View(db.db, db.faults, KastenNachID(kastenid))
        case Err(e) => lernen == [] && err == Fail(e)
        case Ok(rows) => GelesenInReihe(db.db, db.faults, rows, lernen, err)
      ensures err.Fail? ==> err.error.StoreError?
      ensures err.Pass? ==> AlleZumSchluessel(db.db, KastenNachID(kastenid), lernen)
      ensures Query(KastenNachID(kastenid)) !in db.faults && KeineLesefehler(db.faults) ==> err.Pass?
    {
      lernen := [];
      var q := View(db.db, db.faults, KastenNachID(kastenid));
      if q.Err? {
        return [], Fail(q.error);
      }
      var rows := q.value;
      for i := 0 to |rows|
        invariant |lernen| == i
        invariant GelesenInReihe(db.db, db.faults, rows[..i], lernen, Pass)
      {
        var lerne := LerneByID(rows[i]);
        if lerne.Err? {
          err := Fail(lerne.error);
          Abgebrochen(db.db, db.faults, rows, lernen);
          ZeilenGelesen(db.db, db.faults, KastenNachID(kastenid), lernen, err);
          return;
        }
        Weitergelesen(db.db, db.faults, rows, lernen, lerne.value);
        lernen := lernen + [lerne.value];
      }
      err := Pass;
      assert rows[..|rows|] == rows;
      ZeilenGelesen(db.db, db.faults, KastenNachID(kastenid), lernen, err);
    }

    /** Deletes the records of the deck one by one in the order of the nach-id view,
        stopping at the first failed deletion; `geloescht` counts the deletions done. */
    method LoeschenAllerLerneZuKasten(kastenid: string) returns (err: Outcome, ghost geloescht: nat)
      requires db.Valid()
      modifies db
      ensures db.Valid()
      ensures var q := old(View(db.db, db.faults, KastenNachID(kastenid)));
        && (q.Err? ==> err == Fail(q.error) && db.db == old(db.db))
        && (q.Ok? ==> DeletedInOrder(db.faults, old(db.db), db.db, q.value, geloescht, err))
      ensures KastenGeloescht(old(db.db), db.db, kastenid, err.Pass?)
    {
      geloescht := 0;
      var q := View(db.db, db.faults, KastenNachID(kastenid));
      if q.Err? {
        ZeilenGeloescht(db.db, kastenid, 0);
        return Fail(q.error), 0;
      }
      var rows := q.value;
      ghost var d0 := db.db;
      assert rows[..0] == [];
      for i := 0 to |rows|
        invariant db.Valid()
        invariant geloescht == i
        invariant db.db == DropAll(d0, rows[..i]) && RemovesSucceed(db.faults, rows[..i])
      {
        ZeilenGeloescht(d0, kastenid, i);
        var e := LoescheLerne(rows[i]);
        if e.Fail? {
          return e, i;
        }
        DropAllStep(d0, db.faults, rows, i);
        geloescht := i + 1;
      }
      err := Pass;
      assert rows[..|rows|] == rows;
      ZeilenGeloescht(d0, kastenid, |rows|);
    }

    /** Writes the records one by one, stopping at the first failed write; `geschrieben`
        counts the writes done, and later records stay unwritten. */
    method AktualisiereAlleLerne(lernen: seq<Lerne>) returns (err: Outcome, ghost geschrieben: nat)
      requires db.Valid()
      modifies db
      ensures db.Valid()
      ensures WroteInOrder(db.faults, old(db.db), db.db, lernen, geschrieben, err)
    {
      geschrieben := 0;
      ghost var d0 := db.db;
      assert lernen[..0] == [];
      for i := 0 to |lernen|
        invariant db.Valid()
        invariant geschrieben == i
        invariant db.db == PutAll(d0, lernen[..i]) && WritesSucceed(db.faults, lernen[..i])
      {
        var e := AktualisiereLerne(lernen[i]);
        if e.Fail? {
          return e, i;
        }
        PutAllStep(d0, db.faults, lernen, i);
        geschrieben := i + 1;
      }
      err := Pass;
      assert lernen[..|lernen|] == lernen;
    }
  }
}
