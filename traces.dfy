/**
 * Runs of the single-threaded event loop: every handler and every timer
 * callback runs to completion, so a run is a sequence of actions applied
 * one after another to the registry and the connections' current documents.
 * A timer callback may appear anywhere in a run, which covers every time
 * at which a scheduled timer can actually fire. Likewise `Disconnected(conn)`
 * does not retire `conn`: a run may carry later messages from it, which a
 * real closed socket never sends. Both make the set of runs larger than
 * the program's, so what is proved for every run holds for the program.
 */
module Traces {
  import opened Wrappers
  import opened Documents

  /** One event-loop turn: an HTTP `GET /new`, a socket message or
      disconnect from connection `conn`, or a reclamation timer firing. */
  datatype Action =
    | NewDocument(draws: seq<DocId>)
    | JoinMsg(conn: ConnId, docId: DocId)
    | EditMsg(conn: ConnId, docId: DocId, text: string)
    | Disconnected(conn: ConnId)
    | TimerFired(docId: DocId)

  /** The registry and each connection's `currentDocId`. */
  datatype System = System(docs: Table, sessions: map<ConnId, Option<DocId>>)

  /** The name generator always yields an id, so each `GET /new` has its
      MaxAttempts draws available. */
  predicate WellFormed(a: Action)
  {
    a.NewDocument? ==> MaxAttempts <= |a.draws|
  }

  predicate AllWellFormed(trace: seq<Action>)
  {
    forall i :: 0 <= i < |trace| ==> WellFormed(trace[i])
  }

  /** A connection's `currentDocId`; `null` until its first successful join. */
  function CurrentOf(s: System, conn: ConnId): Option<DocId>
  {
    if conn in s.sessions then s.sessions[conn] else None
  }

  /** One turn of the event loop. Only a firing timer removes a document. */
  function Step(s: System, a: Action): (r: System)
    requires WellFormed(a)
    ensures !a.TimerFired? ==> s.docs.Keys <= r.docs.Keys
    ensures a.TimerFired? ==> r.docs.Keys <= s.docs.Keys && r.sessions == s.sessions
  {
    match a
    case NewDocument(draws) =>
      System(AllocateStep(s.docs, draws).docs, s.sessions)
    case JoinMsg(conn, docId) =>
      var r := JoinStep(s.docs, conn, CurrentOf(s, conn), docId);
      System(r.docs, s.sessions[conn := r.current])
    case EditMsg(conn, docId, text) =>
      System(EditStep(s.docs, CurrentOf(s, conn), docId, text).docs, s.sessions)
    case Disconnected(conn) =>
      System(DisconnectStep(s.docs, conn, CurrentOf(s, conn)).docs, s.sessions)
    case TimerFired(docId) =>
      System(ReclaimStep(s.docs, docId), s.sessions)
  }

  /** Apply the actions of `trace` in order. */
  function Run(s: System, trace: seq<Action>): System
    requires AllWellFormed(trace)
    decreases |trace|
  {
    if trace == [] then s else Run(Step(s, trace[0]), trace[1..])
  }

  /** A reclamation of `id` firing in `s` would leave it in place: the
      document is absent or still has a user. */
  predicate Spared(s: System, id: DocId)
  {
    !(id in s.docs && s.docs[id].users == {})
  }

  /** Every reclamation timer of `id` in the run fires in a state where it
      finds the document occupied, as a late timer does after a rejoin. */
  predicate LateTimersOnly(s: System, trace: seq<Action>, id: DocId)
    requires AllWellFormed(trace)
  {
    forall i :: 0 <= i < |trace| && trace[i] == TimerFired(id) ==> Spared(Run(s, trace[..i]), id)
  }

  /** The state after the first i + 1 actions is the state after the first
      i actions of the rest of the run, started from the first step. */
  lemma {:induction false} RunPrefix(s: System, trace: seq<Action>, i: nat)
    requires AllWellFormed(trace) && i < |trace|
    ensures AllWellFormed(trace[..i + 1]) && AllWellFormed(trace[1..][..i])
    ensures Run(s, trace[..i + 1]) == Run(Step(s, trace[0]), trace[1..][..i])
  {
    var pre := trace[..i + 1];
    assert pre[0] == trace[0];
    assert pre[1..] == trace[1..][..i];
  }

  /** The hypothesis `LateTimersOnly` carries over from a run to its tail. */
  lemma {:induction false} LateTimersOnlyTail(s: System, trace: seq<Action>, id: DocId)
    requires AllWellFormed(trace) && trace != []
    requires LateTimersOnly(s, trace, id)
    ensures AllWellFormed(trace[1..])
    ensures LateTimersOnly(Step(s, trace[0]), trace[1..], id)
  {
    var rest := trace[1..];
    forall i | 0 <= i < |rest| && rest[i] == TimerFired(id)
      ensures Spared(Run(Step(s, trace[0]), rest[..i]), id)
    {
      RunPrefix(s, trace, i);
      assert trace[i + 1] == rest[i];
    }
  }

  /** The text an observer expects document `id` to hold after `trace`,
      starting from `text`: that of the last edit of `id`, if any. */
  function LastEdit(trace: seq<Action>, id: DocId, text: string): string
    decreases |trace|
  {
    if trace == [] then text
    else
      var a := trace[0];
      LastEdit(trace[1..], id, if a.EditMsg? && a.docId == id then a.text else text)
  }

  /** A document exists until a reclamation timer for it fires while it has
      no users: allocations, joins, edits, disconnects and late timers that
      find a user never remove it. */
  lemma {:induction false} PersistsUntilReclaimed(s: System, trace: seq<Action>, id: DocId)
    requires AllWellFormed(trace)
    requires id in s.docs
    requires LateTimersOnly(s, trace, id)
    ensures id in Run(s, trace).docs
    decreases |trace|
  {
    if trace != [] {
      var next := Step(s, trace[0]);
      assert id in next.docs by {
        if trace[0] == TimerFired(id) {
          assert trace[..0] == [];
          assert Spared(s, id);
        }
      }
      LateTimersOnlyTail(s, trace, id);
      PersistsUntilReclaimed(next, trace[1..], id);
    }
  }

  /** Last writer wins: as long as no reclamation of `id` fires while it is
      empty, the text of `id` after a run is the text of the run's last edit
      of `id` (or the text it had before, when the run has no such edit). A
      later join therefore loads exactly that text. */
  lemma {:induction false} LastWriterWins(s: System, trace: seq<Action>, id: DocId)
    requires AllWellFormed(trace)
    requires id in s.docs
    requires LateTimersOnly(s, trace, id)
    ensures id in Run(s, trace).docs
    ensures Run(s, trace).docs[id].text == LastEdit(trace, id, s.docs[id].text)
    decreases |trace|
  {
    if trace != [] {
      var a := trace[0];
      var next := Step(s, a);
      assert id in next.docs && next.docs[id].text == (if a.EditMsg? && a.docId == id then a.text else s.docs[id].text) by {
        match a
        case NewDocument(draws) =>
          assert AllocateStep(s.docs, draws).docs[id] == s.docs[id];
        case JoinMsg(conn, docId) =>
        case EditMsg(conn, docId, text) =>
        case Disconnected(conn) =>
        case TimerFired(docId) =>
          if docId == id {
            assert trace[..0] == [];
            assert Spared(s, id);
          }
      }
      LateTimersOnlyTail(s, trace, id);
      LastWriterWins(next, trace[1..], id);
    }
  }

  /** The document a `GET /new` creates starts empty and, until a timer for
      it fires while it has no users, holds the text of the last edit sent
      to it. */
  lemma NewDocumentHoldsLastEdit(s: System, draws: seq<DocId>, trace: seq<Action>)
    requires MaxAttempts <= |draws|
    requires AllWellFormed(trace)
    requires AllocateStep(s.docs, draws).response.Created?
    ensures var id := AllocateStep(s.docs, draws).response.id;
      var start := Step(s, NewDocument(draws));
      LateTimersOnly(start, trace, id) ==>
        var after := Run(start, trace);
        id in after.docs && after.docs[id].text == LastEdit(trace, id, "")
  {
    var id := AllocateStep(s.docs, draws).response.id;
    var start := Step(s, NewDocument(draws));
    if LateTimersOnly(start, trace, id) {
      LastWriterWins(start, trace, id);
    }
  }

  /** The case the callback's re-check exists for: the only user leaves
      (scheduling a timer), another connection joins, and then the timer
      fires. The run meets `LateTimersOnly`, and the document survives it. */
  lemma LateTimerAfterRejoin(s: System, leaver: ConnId, joiner: ConnId, id: DocId)
    requires id != "" && id in s.docs && s.docs[id].users == {leaver}
    requires CurrentOf(s, leaver) == Some(id)
    ensures DisconnectStep(s.docs, leaver, Some(id)).timer == Some(id)
    ensures var trace := [Disconnected(leaver), JoinMsg(joiner, id), TimerFired(id)];
      LateTimersOnly(s, trace, id) && id in Run(s, trace).docs
  {
    var trace := [Disconnected(leaver), JoinMsg(joiner, id), TimerFired(id)];
    var s1 := Step(s, trace[0]);
    var s2 := Step(s1, trace[1]);
    assert trace[..0] == [] && trace[..1] == [trace[0]] && trace[..2] == [trace[0], trace[1]];
    assert Run(s, trace[..2]) == s2 by {
      var two := [trace[0], trace[1]];
      assert two[1..] == [trace[1]] && [trace[1]][1..] == [];
      assert Run(s, two) == Run(s1, [trace[1]]);
      assert Run(s1, [trace[1]]) == Run(s2, []);
    }
    assert joiner in s2.docs[id].users;
    assert Spared(s2, id);
    PersistsUntilReclaimed(s, trace, id);
  }
}
