/** Entities of the learning-progress layer: the progress record, the error kinds,
    the keys of the four store views and the calls made to the document store. */
module Types {

  /** Document ids are opaque strings chosen by the store or by the caller. */
  type Id = string

  /** A progress record ("Lerne"): one user's mastery level ("Fach") for every card
      of one deck ("Kasten"), indexed by the card's position in the deck. */
  datatype Lerne = Lerne(id: Id, rev: string, user: string, kasten: string, karten: seq<int>)

  /** The error kinds the layer can return. Store failures are passed through
      unchanged, with the store's own message. */
  datatype Error =
    | NotFound
    | IndexOutOfRange
    | StoreError(reason: string)

  datatype Result<T> = Ok(value: T) | Err(error: Error)

  /** The result of an operation that returns only an error or nothing. */
  datatype Outcome = Pass | Fail(error: Error)

  /** Keys of the three views whose rows carry record ids. */
  datatype Key =
    | GelerntVon(user: string, kasten: string)  // view kasten/gelernt-von, key [user, deck]
    | NachUser(user: string)                    // view user/nach-user, key user
    | KastenNachID(kasten: string)              // view kasten/nach-id, key deck

  /** The record emits a row under this key. */
  predicate Matches(key: Key, l: Lerne) {
    match key
    case GelerntVon(u, k) => l.user == u && l.kasten == k
    case NachUser(u) => l.user == u
    case KastenNachID(k) => l.kasten == k
  }

  /** Key of the view karten/fach-nach-karte: [user, deck, card index], the index as text. */
  datatype FachKey = FachKey(user: string, kasten: string, karte: string)

  /** A row of fach-nach-karte: the record id and the level ("Fach") of the card. */
  datatype FachRow = FachRow(id: Id, fach: int)

  /** One call into the document store. The store's fault oracle is keyed by these. */
  datatype Call =
    | Fetch(id: Id)
    | Write(doc: Lerne)
    | Remove(id: Id)
    | Query(key: Key)
    | QueryFach(fachKey: FachKey)
}
