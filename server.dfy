/**
 * The server's mutable state: the process-wide registry object and one
 * session object per socket connection, whose handlers update the registry
 * in place. Each handler is proved to perform the corresponding step of
 * module `Documents`.
 */
module Server {
  import opened Wrappers
  import opened Documents

  /** The global `documents` map. */
  class Registry {
    var documents: Table

    constructor ()
      ensures documents == map[]
    {
      documents := map[];
    }

    /** The `do … while` loop of `GET /new`: draw an id, count the attempt,
        and keep drawing while the id is taken and fewer than MaxAttempts
        draws were made. Returns the last id drawn and the number of draws. */
    method Draw(draws: seq<DocId>) returns (docId: DocId, attempts: nat)
      requires MaxAttempts <= |draws|
      ensures 1 <= attempts <= MaxAttempts && docId == draws[attempts - 1]
      ensures forall j :: 0 <= j < attempts - 1 ==> draws[j] in documents
      ensures docId in documents ==> attempts == MaxAttempts
      ensures FirstFree(documents.Keys, draws, 0) == if docId in documents then None else Some(attempts - 1)
    {
      docId := draws[0];
      attempts := 1;
      while docId in documents && attempts < MaxAttempts
        invariant 1 <= attempts <= MaxAttempts
        invariant docId == draws[attempts - 1]
        invariant forall j :: 0 <= j < attempts - 1 ==> draws[j] in documents
        decreases MaxAttempts - attempts
      {
        docId := draws[attempts];
        attempts := attempts + 1;
      }
    }

    /** `GET /new`: answer 500 if the last id drawn is taken, otherwise
        insert an empty document under it. */
    method Allocate(draws: seq<DocId>) returns (response: Allocation)
      requires MaxAttempts <= |draws|
      modifies this
      ensures AllocOutcome(documents, response) == AllocateStep(old(documents), draws)
      ensures response.Failed? ==> documents == old(documents)
      ensures response.Created? ==>
        response.id !in old(documents) && documents == old(documents)[response.id := Doc("", {})]
    {
      var docId, attempts := Draw(draws);
      if docId in documents {
        return Failed(FullStatus, FullBody);
      }
      documents := documents[docId := Doc("", {})];
      response := Created(docId);
    }

    /** The callback of the reclamation timer set for document `id`. */
    method Reclaim(id: DocId)
      modifies this
      ensures documents == ReclaimStep(old(documents), id)
    {
      if id in documents && |documents[id].users| == 0 {
        documents := documents - {id};
      }
    }
  }

  /** One socket connection: its id, the registry it acts on, and the
      closure variable `currentDocId`. */
  class Session {
    const conn: ConnId
    const registry: Registry
    var current: Option<DocId>

    constructor (conn: ConnId, registry: Registry)
      ensures this.conn == conn && this.registry == registry && current == None
    {
      this.conn := conn;
      this.registry := registry;
      current := None;
    }

    /** The `join` handler. */
    method Join(docId: DocId) returns (out: seq<Emission>)
      modifies this, registry
      ensures var r := JoinStep(old(registry.documents), conn, old(current), docId);
        registry.documents == r.docs && current == r.current && out == r.out
    {
      if docId !in registry.documents {
        out := [Emission(Caller, Error(NotFoundMessage))];
        return;
      }
      current := Some(docId);
      var doc := registry.documents[docId];
      registry.documents := registry.documents[docId := doc.(users := doc.users + {conn})];
      out := [Emission(Caller, Load(registry.documents[docId].text)),
              Emission(Room(docId), UserCount(|registry.documents[docId].users|))];
    }

    /** The `edit` handler; it does not consult `currentDocId`. */
    method Edit(docId: DocId, text: string) returns (out: seq<Emission>)
      modifies registry
      ensures var r := EditStep(old(registry.documents), current, docId, text);
        registry.documents == r.docs && out == r.out
    {
      if docId !in registry.documents {
        return [];
      }
      var doc := registry.documents[docId];
      registry.documents := registry.documents[docId := doc.(text := text)];
      out := [Emission(RoomExceptCaller(docId), Update(text))];
    }

    /** The `disconnect` handler. `timer` is the document whose reclamation
        it scheduled, if any; `currentDocId` is left as it was. */
    method Disconnect() returns (out: seq<Emission>, timer: Option<DocId>)
      modifies registry
      ensures var r := DisconnectStep(old(registry.documents), conn, current);
        registry.documents == r.docs && out == r.out && timer == r.timer
    {
      if !Truthy(current) || current.value !in registry.documents {
        return [], None;
      }
      var id := current.value;
      var doc := registry.documents[id];
      registry.documents := registry.documents[id := doc.(users := doc.users - {conn})];
      var size := |registry.documents[id].users|;
      out := [Emission(Room(id), UserCount(size))];
      timer := if size == 0 then Some(id) else None;
    }
  }

  /** Two editors, a late joiner, and an unknown id, driven through the classes. */
  method SharedEditingScenario(draws: seq<DocId>)
    requires MaxAttempts <= |draws|
  {
    var registry := new Registry();
    var created := registry.Allocate(draws);
    assert created == Created(draws[0]);
    var id := created.id;

    var a := new Session("a", registry);
    var b := new Session("b", registry);
    var c := new Session("c", registry);
    var outA := a.Join(id);
    assert outA == [Emission(Caller, Load("")), Emission(Room(id), UserCount(1))];
    var outB := b.Join(id);
    assert outB[1] == Emission(Room(id), UserCount(2));
    var outEdit := b.Edit(id, "hello");
    assert outEdit == [Emission(RoomExceptCaller(id), Update("hello"))];
    var outC := c.Join(id);
    assert outC == [Emission(Caller, Load("hello")), Emission(Room(id), UserCount(3))];

    var d := new Session("d", registry);
    var missing := d.Join(id + "-missing");
    assert missing == [Emission(Caller, Error(NotFoundMessage))];
    assert d.current == None;
  }
}
