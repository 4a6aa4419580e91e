/** A client of the access layer: the answers on a three-card deck, traced through the
    store using the contracts of the store and layer operations, and the definition of
    the mastery rule `Gelernt`. */
module Szenario {
  import opened Types
  import opened DocStore
  import opened Lernen

  /** With a single record in a store without faults, the user's lookup for its deck finds it. */
  lemma Einzig(lernen: Lernen, l: Lerne)
    requires lernen.db.Valid() && lernen.db.faults == map[] && lernen.db.db.docs == map[l.id := l]
    ensures lernen.LerneByUserAndKasten(l.user, l.kasten) == Ok(l)
  {
    assert l.id in lernen.db.db.docs && Matches(GelerntVon(l.user, l.kasten), lernen.db.db.docs[l.id]);
  }

  /** One answer on the single record of a store without faults: an answer on an
      existing card is written back, an answer on a missing card changes nothing. */
  method Antwort(lernen: Lernen, l: Lerne, index: int, erfolg: bool) returns (err: Outcome)
    requires lernen.db.Valid() && lernen.db.faults == map[] && lernen.db.db.docs == map[l.id := l]
    modifies lernen.db
    ensures lernen.db.Valid() && lernen.db.faults == map[]
    ensures 0 <= index < |l.karten| ==> err == Pass && lernen.db.db.docs == map[l.id := Gelernt(l, index, erfolg)]
    ensures !(0 <= index < |l.karten|) ==> err == Fail(IndexOutOfRange) && lernen.db.db.docs == map[l.id := l]
  {
    Einzig(lernen, l);
    err := lernen.KarteGelernt(l.user, l.kasten, index, erfolg);
  }

  /** A user starts deck D1 with levels [0,0,0], answers card 1 right twice and card 0
      wrong once, then answers a card that does not exist. The stored levels end as
      [0,2,0], the last answer is rejected, and the level lookup for card 1 gives the
      level the view reports. */
  method DreiKarten() returns (karten: seq<int>, ungueltig: Outcome, fach: int)
    ensures karten == [0, 2, 0]
    ensures ungueltig == Fail(IndexOutOfRange)
    ensures fach == 2
  {
    var store := new Store(Empty(), map[], k => if k == FachKey("U1", "D1", "1") then [FachRow("x", 2)] else []);
    var lernen := new Lernen(store);
    var neu := Lerne("", "", "U1", "D1", [0, 0, 0]);
    var e := lernen.NeuesLerne(neu);
    var l := neu.(id := AssignedId(Empty(), neu));
    assert store.db.docs == map[l.id := l];

    e := Antwort(lernen, l, 1, true);
    l := Gelernt(l, 1, true);
    e := Antwort(lernen, l, 1, true);
    l := Gelernt(l, 1, true);
    e := Antwort(lernen, l, 0, false);
    l := Gelernt(l, 0, false);
    assert l.karten == [0, 2, 0];
    ungueltig := Antwort(lernen, l, 3, true);

    Einzig(lernen, l);
    var r := lernen.LerneByUserAndKasten("U1", "D1");
    karten := r.value.karten;
    fach := lernen.FachVonKarte("U1", "D1", "1").0;
  }
}
