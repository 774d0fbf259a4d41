/**
 * The document registry of the collaborative editing server, as values.
 *
 * The server keeps one process-wide table from document id to
 * `{ text, users }`; every socket handler runs to completion, so each
 * handler is a step from one table (and one connection's current document)
 * to the next, together with the messages it sends. The imperative classes
 * in module `Server` are proved to perform exactly these steps.
 */
module Documents {
  import opened Wrappers

  /** Document ids and socket ids are strings. */
  type DocId = string
  type ConnId = string

  /** One live document: its whole current text and the sockets that joined it. */
  datatype Doc = Doc(text: string, users: set<ConnId>)

  /** The in-memory registry `docId => { text, users }`. */
  type Table = map<DocId, Doc>

  /** Allocation gives up after this many draws from the name generator. */
  const MaxAttempts: nat := 10
  /** HTTP status and body sent when every draw collided. */
  const FullStatus: nat := 500
  const FullBody: string := "Unable to generate unique document ID"
  /** Text of the `error` event sent on a join to an unknown document. */
  const NotFoundMessage: string := "Document not found"

  /** Who receives an emission: the calling socket, the whole room of a
      document, or that room without the calling socket. */
  datatype Recipient = Caller | Room(id: DocId) | RoomExceptCaller(id: DocId)

  /** The four server-to-client events. */
  datatype Message =
    | Load(text: string)
    | Update(text: string)
    | UserCount(count: nat)
    | Error(reason: string)

  datatype Emission = Emission(to: Recipient, message: Message)

  /** What `GET /new` answers: the new id (then redirected to), or an error status. */
  datatype Allocation = Created(id: DocId) | Failed(status: nat, body: string)

  datatype AllocOutcome = AllocOutcome(docs: Table, response: Allocation)

  /** The effect of one socket handler: the new table, the connection's
      `currentDocId`, what was emitted, and the document a reclamation timer
      was scheduled for, if any. */
  datatype Outcome = Outcome(docs: Table, current: Option<DocId>, out: seq<Emission>, timer: Option<DocId>)

  /** JavaScript truthiness of `currentDocId`, which is `null` or a string:
      both `null` and the empty string are falsy. */
  predicate Truthy(current: Option<DocId>)
  {
    current.Some? && current.value != ""
  }

  /** The index of the draw at which allocation stops with a free id,
      scanning draws `from` .. MaxAttempts - 1, or None if each is taken. */
  function FirstFree(taken: set<DocId>, draws: seq<DocId>, from: nat): (r: Option<nat>)
    requires from <= MaxAttempts <= |draws|
    ensures r.Some? ==> from <= r.value < MaxAttempts && draws[r.value] !in taken
    ensures r.Some? ==> forall j :: from <= j < r.value ==> draws[j] in taken
    ensures r.None? <==> forall j :: from <= j < MaxAttempts ==> draws[j] in taken
    decreases MaxAttempts - from
  {
    if from == MaxAttempts then None
    else if draws[from] !in taken then Some(from)
    else FirstFree(taken, draws, from + 1)
  }

  /** `GET /new`: draw ids until one is free (at most MaxAttempts draws),
      then insert an empty document under it. */
  function AllocateStep(docs: Table, draws: seq<DocId>): (r: AllocOutcome)
    requires MaxAttempts <= |draws|
    ensures r.response.Failed? <==> forall j :: 0 <= j < MaxAttempts ==> draws[j] in docs
    ensures r.response.Failed? ==> r.response == Failed(FullStatus, FullBody) && r.docs == docs
    ensures r.response.Created? ==>
      exists k :: 0 <= k < MaxAttempts && draws[k] == r.response.id
        && forall j :: 0 <= j < k ==> draws[j] in docs
    ensures r.response.Created? ==>
      && r.response.id !in docs
      && r.docs.Keys == docs.Keys + {r.response.id}
      && r.docs[r.response.id] == Doc("", {})
      && forall d :: d in docs ==> r.docs[d] == docs[d]
  {
    match FirstFree(docs.Keys, draws, 0)
    case None => AllocOutcome(docs, Failed(FullStatus, FullBody))
    case Some(k) => AllocOutcome(docs[draws[k] := Doc("", {})], Created(draws[k]))
  }

  /** The `join` handler of connection `conn`. */
  function JoinStep(docs: Table, conn: ConnId, current: Option<DocId>, docId: DocId): (r: Outcome)
    ensures r.timer == None
    ensures docId !in docs ==>
      r.docs == docs && r.current == current && r.out == [Emission(Caller, Error(NotFoundMessage))]
    ensures docId in docs ==>
      && r.docs.Keys == docs.Keys
      && r.docs[docId].text == docs[docId].text
      && r.docs[docId].users == docs[docId].users + {conn}
      && (forall d :: d in docs && d != docId ==> r.docs[d] == docs[d])
      && r.current == Some(docId)
      && |r.out| == 2
      && r.out[0] == Emission(Caller, Load(docs[docId].text))
      && r.out[1] == Emission(Room(docId), UserCount(|r.docs[docId].users|))
  {
    if docId !in docs then
      Outcome(docs, current, [Emission(Caller, Error(NotFoundMessage))], None)
    else
      var doc := docs[docId];
      var joined := doc.(users := doc.users + {conn});
      var docs' := docs[docId := joined];
      Outcome(docs', Some(docId), [Emission(Caller, Load(joined.text)), Emission(Room(docId), UserCount(|joined.users|))], None)
  }

  /** The `edit` handler: last writer wins. The sender need not have joined. */
  function EditStep(docs: Table, current: Option<DocId>, docId: DocId, text: string): (r: Outcome)
    ensures r.current == current && r.timer == None
    ensures docId !in docs ==> r.docs == docs && r.out == []
    ensures docId in docs ==>
      && r.docs.Keys == docs.Keys
      && r.docs[docId].text == text
      && r.docs[docId].users == docs[docId].users
      && (forall d :: d in docs && d != docId ==> r.docs[d] == docs[d])
      && r.out == [Emission(RoomExceptCaller(docId), Update(text))]
  {
    if docId !in docs then Outcome(docs, current, [], None)
    else
      var doc := docs[docId];
      Outcome(docs[docId := doc.(text := text)], current, [Emission(RoomExceptCaller(docId), Update(text))], None)
  }

  /** The `disconnect` handler: leaves the last-joined document only and
      schedules reclamation when nobody is left in it. */
  function DisconnectStep(docs: Table, conn: ConnId, current: Option<DocId>): (r: Outcome)
    ensures r.current == current
    ensures !(Truthy(current) && current.value in docs) ==> r == Outcome(docs, current, [], None)
    ensures Truthy(current) && current.value in docs ==>
      var id := current.value;
      && r.docs.Keys == docs.Keys
      && r.docs[id].text == docs[id].text
      && r.docs[id].users == docs[id].users - {conn}
      && (forall d :: d in docs && d != id ==> r.docs[d] == docs[d])
      && r.out == [Emission(Room(id), UserCount(|r.docs[id].users|))]
      && (r.timer.Some? <==> r.docs[id].users == {})
      && (r.timer.Some? ==> r.timer.value == id)
  {
    if !Truthy(current) || current.value !in docs then Outcome(docs, current, [], None)
    else
      var id := current.value;
      var doc := docs[id];
      var left := doc.(users := doc.users - {conn});
      Outcome(docs[id := left], current, [Emission(Room(id), UserCount(|left.users|))],
              if |left.users| == 0 then Some(id) else None)
  }

  /** The reclamation timer's callback for document `id`. */
  function ReclaimStep(docs: Table, id: DocId): (r: Table)
    ensures id in docs && docs[id].users == {} ==>
      r.Keys == docs.Keys - {id} && forall d :: d in r ==> r[d] == docs[d]
    ensures !(id in docs && docs[id].users == {}) ==> r == docs
  {
    if id in docs && |docs[id].users| == 0 then docs - {id} else docs
  }
}
