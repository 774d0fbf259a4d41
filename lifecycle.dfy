/**
 * Properties that relate several handler steps: repeated joins, an edit
 * seen by a later joiner, reclamation after the last user leaves, and the
 * membership a second join leaves behind.
 */
module Lifecycle {
  import opened Wrappers
  import opened Documents

  /** Joining the same document again changes nothing and reports the same count. */
  lemma RepeatedJoinIsStable(docs: Table, conn: ConnId, current: Option<DocId>, id: DocId)
    requires id in docs
    ensures var first := JoinStep(docs, conn, current, id);
      var second := JoinStep(first.docs, conn, first.current, id);
      second.docs == first.docs && second.current == first.current && second.out == first.out
  {
  }

  /** An edit followed by `load` on a later join: the joiner receives the
      edited text, whoever edited and whatever either connection joined before. */
  lemma EditThenJoinLoadsEdit(docs: Table, editorCurrent: Option<DocId>, joiner: ConnId,
                              joinerCurrent: Option<DocId>, id: DocId, text: string)
    requires id in docs
    ensures var edited := EditStep(docs, editorCurrent, id, text);
      JoinStep(edited.docs, joiner, joinerCurrent, id).out[0] == Emission(Caller, Load(text))
  {
  }

  /** Reclamation run twice has the effect of running it once. */
  lemma ReclaimIsIdempotent(docs: Table, id: DocId)
    ensures ReclaimStep(ReclaimStep(docs, id), id) == ReclaimStep(docs, id)
  {
  }

  /** A reclamation that fires while the document has a user leaves the
      table as it is. */
  lemma ReclaimSparesOccupied(docs: Table, id: DocId, conn: ConnId)
    requires id in docs && conn in docs[id].users
    ensures ReclaimStep(docs, id) == docs
  {
  }

  /** The last user leaving schedules reclamation, and the timer, if nothing
      happens before it fires, removes the document. */
  lemma LastLeaveThenReclaimRemoves(docs: Table, conn: ConnId, id: DocId)
    requires id != "" && id in docs && docs[id].users == {conn}
    ensures var left := DisconnectStep(docs, conn, Some(id));
      && left.timer == Some(id)
      && left.out == [Emission(Room(id), UserCount(0))]
      && id !in ReclaimStep(left.docs, id)
  {
  }

  /** A join by any connection (typically a new socket of a returning
      client) before the timer fires keeps the document and its text: the
      timer finds a user and does nothing. */
  lemma RejoinWithinGraceKeepsDocument(docs: Table, conn: ConnId, id: DocId,
                                       joiner: ConnId, joinerCurrent: Option<DocId>)
    requires id != "" && id in docs && docs[id].users == {conn}
    ensures var left := DisconnectStep(docs, conn, Some(id));
      var back := JoinStep(left.docs, joiner, joinerCurrent, id);
      && left.timer == Some(id)
      && ReclaimStep(back.docs, id) == back.docs
      && back.docs[id].text == docs[id].text
      && back.out[0] == Emission(Caller, Load(docs[id].text))
  {
  }

  /** A connection that joins `first` and then `second` and disconnects is
      removed from `second` only: it stays a user of `first`, whose count
      therefore never returns to zero on its account. */
  lemma SecondJoinLeavesEarlierMembership(docs: Table, conn: ConnId, first: DocId, second: DocId)
    requires first in docs && second in docs && first != second && second != ""
    ensures var j1 := JoinStep(docs, conn, None, first);
      var j2 := JoinStep(j1.docs, conn, j1.current, second);
      var gone := DisconnectStep(j2.docs, conn, j2.current);
      && conn in gone.docs[first].users
      && conn !in gone.docs[second].users
      && ReclaimStep(gone.docs, first) == gone.docs
  {
  }

  /** A connection whose current document is the empty string is treated as
      never having joined: its disconnect changes nothing. */
  lemma EmptyIdDisconnectIsNoOp(docs: Table, conn: ConnId)
    requires "" in docs && conn in docs[""].users
    ensures DisconnectStep(docs, conn, Some("")) == Outcome(docs, Some(""), [], None)
  {
  }
}
