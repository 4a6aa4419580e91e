# Lernen: the learning-progress layer of a flash-card web application

The package `client/lernen` keeps one progress record ("Lerne") per user and deck
("Kasten") in a document database. A record holds the mastery level ("Fach", 0 to 4)
of every card of the deck, by the card's position. The layer:

- looks records up by id, and by user and deck, through the view `kasten/gelernt-von`;
- lists all records of a user (view `user/nach-user`) or of a deck (view `kasten/nach-id`);
- applies one answer to one card (`KarteGelernt`): success raises the level by one up
  to 4, failure resets it to 0, and the whole record is written back;
- deletes all records of a deck, and writes a batch of records, one call at a time,
  stopping at the first error;
- reads the level of one card from the view `karten/fach-nach-karte`.

The model has five modules:

- `Types` holds the record, the error kinds, the view keys and the store calls.
- `Order` holds the order of view rows that share a key: ascending id, compared
  character by character.
- `DocStore` holds the document store. A value `Db` stores the records by id, plus the
  sorted id list. Views are functions of the records, so they never lag behind the
  writes. The class `Store` holds the current `Db`, a fault oracle saying which calls
  fail and with what message, and the rows of `fach-nach-karte`. Its methods `InsertDoc`
  (upsert) and `DeleteDoc` change the `Db`.
- `Lernen` is the layer itself. It is a class over a `Store`: lookups are functions
  reading the store. The single writes and the bulk deletes and writes are methods
  modifying it; the two bulk fetches are methods that only read it.
- `Szenario` is a client run. A new record with levels [0,0,0] is answered right twice
  on card 1, wrong once on card 0, and once on a card that does not exist. The proof
  uses the contracts of the store and layer operations, and the definition of the
  mastery rule `Gelernt`.

The Go code returns what it has read so far when a fetch fails inside
`GelerntVonUser` or `AlleLerneZuKasten`: the records fetched before the failure,
together with the error. A caller might expect no result on a failed fetch. The model
follows the code: the partial sequence is returned and specified as the fetched prefix
of the view's rows.

## Model

| member | source | states |
|---|---|---|
| Lernen.FuenfStufen | client/lernen/lernen.go:95-101 | From a level in [0,4], a success gives min(level+1, 4) and a failure gives 0; the result stays in [0,4] |
| Lernen.ErfolgeGekappt | client/lernen/lernen.go:95-98 | The k-th success in a row from level L in [0,4] reaches min(L+k, 4): the level counter saturates at 4 |
| Lernen.FuenfErfolgeAbNull | client/lernen/lernen.go:95-98 | Five successes from level 0 pass through 1, 2, 3, 4, 4 |
| Lernen.Naechste | client/lernen/lernen.go:95-101 | The mastery rule for one card: a failure gives 0; a success raises the level by exactly one, and leaves it as it is exactly when it is already 4 or more |
| Lernen.Gelernt | client/lernen/lernen.go:91-102 | The record written back equals the fetched one except for card `index`, which gets the next level; id, revision, user, deck and deck length are unchanged |
| Lernen.GelerntInBereich | client/lernen/lernen.go:95-101 | An answer keeps every level of the record in [0,4] |
| Lernen.DreiAntworten | client/lernen/lernen.go:95-101 | On levels [0,0,0], success on card 1 twice gives [0,1,0] then [0,2,0]; a failure on card 0 then leaves [0,2,0] |
| Lernen.ErsteZeileKleinste | client/lernen/lernen.go:49-55 | The first row of a key's view is the smallest id among the records emitting that key |
| Lernen.ZeilenGelesen | client/lernen/lernen.go:74-81 | Fetching the rows of a view one by one fails only with a store fault, never NotFound; a complete run yields exactly the records of the key, in ascending id order; without fetch faults the run is complete |
| Lernen.ZeilenGeloescht | client/lernen/lernen.go:137-143 | Deleting the first n rows of a deck's view removes records of that deck only and leaves the rest unchanged; the next row's record is still present; once every row is deleted, no record of the deck is left |
| Lernen.Lernen.LerneByID | client/lernen/lernen.go:31-36 | A fetch fault gives that store error; otherwise the stored record with the id, or NotFound when there is none |
| Lernen.Lernen.LerneByUserAndKasten | client/lernen/lernen.go:40-58 | A query fault gives that store error. Otherwise NotFound holds exactly when no record of the user and deck exists, and any other result is the fetch of the view's first row. A record returned belongs to the user and deck and has the smallest id among them. Without fetch faults a record is found exactly when one exists |
| Lernen.Lernen.FachVonKarte | client/lernen/lernen.go:116-127 | A query fault gives that store error and -1; no row gives NotFound and -1; with no fault and at least one row, exactly the level of the first row and no error |
| Lernen.Lernen.NeuesLerne | client/lernen/lernen.go:61-63 | One upsert: on a write fault the error and no change; otherwise the record is stored, under a fresh id when it has none |
| Lernen.Lernen.AktualisiereLerne | client/lernen/lernen.go:106-108 | One upsert: on a write fault the error and no change; otherwise the record replaces the one with its id, and nothing else changes |
| Lernen.Lernen.LoescheLerne | client/lernen/lernen.go:111-113 | One delete: on a fault or a missing record the error and no change; otherwise exactly that record is removed |
| Lernen.Lernen.KarteGelernt | client/lernen/lernen.go:85-103 | A lookup error is returned unchanged, and an index outside the deck gives IndexOutOfRange; in both cases the store is unchanged. Otherwise the looked-up record with the new level of card `index` is written back. On success the store differs from before in that record only |
| Lernen.Lernen.GelerntVonUser | client/lernen/lernen.go:66-82 | A query fault gives that error and no records. Otherwise the result is the fetch of a prefix of the user's rows, in row order, ending at the first failed fetch. A failure is a store error. Success yields exactly the user's records in ascending id order, and is certain without fetch faults |
| Lernen.Lernen.AlleLerneZuKasten | client/lernen/lernen.go:147-168 | The same as GelerntVonUser, for the rows of the deck's view |
| Lernen.Lernen.LoeschenAllerLerneZuKasten | client/lernen/lernen.go:130-144 | A query fault gives that error and no change. Otherwise the rows are deleted one by one in view order, stopping at the first failed delete and returning its error, with the earlier rows deleted. Only records of the deck are removed; records of other decks stay unchanged; on success no record of the deck is left |
| Lernen.Lernen.AktualisiereAlleLerne | client/lernen/lernen.go:171-180 | The records are written one by one in order, stopping at the first failed write and returning its error; the store holds exactly the earlier writes applied in order |
| DocStore.Get | client/lernen/lernen.go:33 | The store's fetch by id: a fetch fault gives that store error; otherwise the stored record exactly when the id is stored, and NotFound when it is not |
| DocStore.Rows | client/lernen/lernen.go:45 | The rows of a view for a key: exactly the ids of the stored records that emit the key, ascending and without duplicates |
| DocStore.View | client/lernen/lernen.go:70 | A view query: it fails exactly when the query is a faulting call, and then only with that store error, never NotFound; otherwise it gives the matching ids in ascending order |
| DocStore.FachView | client/lernen/lernen.go:120 | The fach-nach-karte query: it fails exactly when the query is a faulting call, with that store error; otherwise it gives the rows the view reports for the key |
| DocStore.PutThenGet | client/lernen/lernen.go:61-63 | Writing a record and fetching its stored id gives it back with that id; a record written without an id adds exactly one new id |
| DocStore.PutAllDocs | client/lernen/lernen.go:171-180 | After a run of writes with distinct, non-empty ids, each record is stored under its id and every other id keeps what it held |
| DocStore.DropAllDocs | client/lernen/lernen.go:137-143 | After a run of deletions exactly the records whose ids were not deleted remain, unchanged |
| DocStore.Store.InsertDoc | client/lernen/lernen.go:62 | The store's upsert: a fault gives the error and no change; otherwise the record is stored under its id, or under a fresh id |
| DocStore.Store.DeleteDoc | client/lernen/lernen.go:112 | The store's delete: a fault gives the error; a missing id gives NotFound; otherwise the record is removed |
| Szenario.DreiKarten | client/lernen/lernen.go:85-127 | A record created with levels [0,0,0] and answered right, right on card 1 and wrong on card 0 reads back as [0,2,0]. An answer on card 3 is rejected with IndexOutOfRange. The level lookup for card 1 returns the level the view reports |

## Left out

- `New` (lines 183-202) only wires the database handle and the four views; the model's views are fixed functions of the records, and the store comes in through the `Lernen` constructor.
- The database client (`api.DB`, its HTTP transport, JSON encoding and the JSON tags of `Lerne`) is not part of this model. Every failure it can report is one `StoreError` whose cause comes from the fault oracle. Which call fails is fixed when the store is created.
- The message texts of `NotFoundError` and `IndexOutOfRangeError` are not modelled; only the error kind is.
- The two composite view keys, [user, deck] for gelernt-von and [user, deck, card] for fach-nach-karte, are built in Go as JSON text with `fmt.Sprintf` (lines 43 and 118). They are modelled as structured keys, so user, deck or card ids that contain quotes are not modelled. The nach-user and nach-id keys are the bare strings (lines 70, 133 and 155), as in the model.
- The server's key collation is modelled as character-by-character code-point order on ids.
- The rows of `karten/fach-nach-karte` come from an oracle fixed with the store: the view's map function is not part of this source.
- Revision tokens are stored as given. The store neither stamps new revisions nor rejects a stale one, so update conflicts and concurrent lost updates are not modelled.
- The ids the server generates for records written without one are modelled by `FreshId`, a deterministic id longer than every id in use.
- Deleting an id that is not stored is assumed to fail with NotFound, since the client's `DeleteDoc` is not part of this source.
- The in-place update of the `Karten` slice in `KarteGelernt` (lines 97 and 100) is modelled as a new sequence. The slice belongs to a record that `LerneByID` has just decoded into a local value (lines 32-33), so no other holder of it can observe the difference.
- On an error the Go functions return a value beside the error. `LerneByUserAndKasten` returns the zero `Lerne` on a query error or NotFound (lines 46 and 50), and `LerneByID` returns whatever `DocByID` left in its local record (line 35); the model returns `Err(...)` in both cases and no record. `FachVonKarte` returns -1, as in the model. A query error in `GelerntVonUser` or `AlleLerneZuKasten` returns a nil slice, modelled as the empty sequence; a failed fetch inside their loops returns the slice appended so far (lines 77 and 161), modelled as that same prefix.
- LoeschenAllerLerneZuKasten, AktualisiereAlleLerne: the number of completed calls is a ghost out-parameter, since the Go code returns only the error.
