/** The session mailbox: an ordered log of envelopes, replayed page by page after a cursor, with an ack cursor. */
module Mailbox {
  import opened Json
  import Requests

  datatype EnvelopeKind = EventEnvelope | AckEnvelope | ResyncEnvelope | ErrorEnvelope | Unknown(name: string)

  datatype Envelope = Envelope(
    id: string,
    sessionId: string,
    documentId: string,
    kind: EnvelopeKind,
    version: int,
    event: Option<Requests.Event>)

  datatype MailFailure = InvalidEnvelope | DuplicateEnvelopeId | EnvelopeNotFound

  /** Identified, addressed, and carrying an event exactly when its kind is to. */
  predicate ValidEnvelope(e: Envelope) {
    && e.id != "" && e.sessionId != "" && e.documentId != ""
    && !e.kind.Unknown?
    && (e.kind.EventEnvelope? <==> e.event.Some?)
  }

  /** The position of the first envelope with an ID, or the number of envelopes. */
  function Position(envelopes: seq<Envelope>, id: string): (i: nat)
    ensures i <= |envelopes|
    ensures i < |envelopes| ==> envelopes[i].id == id
    ensures forall j :: 0 <= j < i ==> envelopes[j].id != id
  {
    if envelopes == [] then 0
    else if envelopes[0].id == id then 0
    else 1 + Position(envelopes[1..], id)
  }

  predicate HasId(envelopes: seq<Envelope>, id: string) {
    exists i :: 0 <= i < |envelopes| && envelopes[i].id == id
  }

  /** One session: its envelopes and the ID acknowledged last, empty before the first acknowledgement. */
  datatype Box = Box(envelopes: seq<Envelope>, acked: string)

  datatype Delivery = Delivered(envelopes: seq<Envelope>) | CursorNotFound

  function Put(box: Box, e: Envelope): Box {
    if !ValidEnvelope(e) || Position(box.envelopes, e.id) < |box.envelopes| then box
    else box.(envelopes := box.envelopes + [e])
  }

  /** At most `limit` envelopes after the cursor, all of them when the limit is not positive. */
  function Page(box: Box, after: string, limit: int): Delivery {
    var i := Position(box.envelopes, after);
    if after != "" && i == |box.envelopes| then CursorNotFound
    else
      var start := if after == "" then 0 else i + 1;
      var end := if limit > 0 && start + limit < |box.envelopes| then start + limit else |box.envelopes|;
      Delivered(box.envelopes[start..end])
  }

  /** Acknowledging moves the cursor forward only; an unknown ID moves nothing. */
  function Ack(box: Box, id: string): Box {
    if id == "" || Position(box.envelopes, id) == |box.envelopes| then box
    else if box.acked == "" || Position(box.envelopes, box.acked) == |box.envelopes|
      || Position(box.envelopes, id) > Position(box.envelopes, box.acked) then box.(acked := id)
    else box
  }

  // ---- The store ----------------------------------------------------------------------------------------

  class MemoryMailboxStore {
    var bySession: map<string, seq<Envelope>>
    var acked: map<string, string>

    constructor ()
      ensures forall s :: BoxOf(s) == Box([], "")
    {
      bySession, acked := map[], map[];
    }

    function BoxOf(sessionId: string): Box
      reads this
    {
      Box(if sessionId in bySession then bySession[sessionId] else [],
          if sessionId in acked then acked[sessionId] else "")
    }

    method Find(envelopes: seq<Envelope>, id: string) returns (i: nat)
      ensures i == Position(envelopes, id)
    {
      i := 0;
      assert envelopes[0..] == envelopes;
      while i < |envelopes|
        invariant i <= |envelopes| && Position(envelopes, id) == i + Position(envelopes[i..], id)
      {
        assert envelopes[i..][0] == envelopes[i] && envelopes[i..][1..] == envelopes[i + 1..];
        if envelopes[i].id == id {
          return;
        }
        i := i + 1;
      }
    }

    method Append(e: Envelope) returns (failure: Option<MailFailure>)
      modifies this
      ensures failure == (if !ValidEnvelope(e) then Some(InvalidEnvelope)
                          else if HasId(old(BoxOf(e.sessionId)).envelopes, e.id) then Some(DuplicateEnvelopeId)
                          else None)
      ensures BoxOf(e.sessionId) == Put(old(BoxOf(e.sessionId)), e)
      ensures forall s :: s != e.sessionId ==> BoxOf(s) == old(BoxOf(s))
    {
      if !ValidEnvelope(e) {
        return Some(InvalidEnvelope);
      }
      var envelopes := if e.sessionId in bySession then bySession[e.sessionId] else [];
      var i := Find(envelopes, e.id);
      if i < |envelopes| {
        assert envelopes[i].id == e.id;
        return Some(DuplicateEnvelopeId);
      }
      bySession := bySession[e.sessionId := envelopes + [e]];
      return None;
    }

    method ReplayAfter(sessionId: string, after: string, limit: int) returns (delivery: Delivery)
      ensures delivery == Page(BoxOf(sessionId), after, limit)
    {
      var envelopes := if sessionId in bySession then bySession[sessionId] else [];
      var start := 0;
      if after != "" {
        var i := Find(envelopes, after);
        if i == |envelopes| {
          return CursorNotFound;
        }
        start := i + 1;
      }
      if start >= |envelopes| {
        return Delivered([]);
      }
      var end := |envelopes|;
      if limit > 0 && start + limit < end {
        end := start + limit;
      }
      var out := Copy(envelopes, start, end);
      return Delivered(out);
    }

    method Copy(envelopes: seq<Envelope>, start: nat, end: nat) returns (out: seq<Envelope>)
      requires start <= end <= |envelopes|
      ensures out == envelopes[start..end]
    {
      out := [];
      for i := start to end
        invariant out == envelopes[start..i]
      {
        out := out + [envelopes[i]];
      }
    }

    method AckThrough(sessionId: string, id: string) returns (failure: Option<MailFailure>)
      modifies this
      ensures failure == (if id != "" && !HasId(old(BoxOf(sessionId)).envelopes, id) then Some(EnvelopeNotFound)
                          else None)
      ensures BoxOf(sessionId) == Ack(old(BoxOf(sessionId)), id)
      ensures forall s :: s != sessionId ==> BoxOf(s) == old(BoxOf(s))
    {
      if id == "" {
        return None;
      }
      var envelopes := if sessionId in bySession then bySession[sessionId] else [];
      var candidate := Find(envelopes, id);
      if candidate == |envelopes| {
        return Some(EnvelopeNotFound);
      }
      var current := if sessionId in acked then acked[sessionId] else "";
      if current == "" {
        acked := acked[sessionId := id];
        return None;
      }
      var i := Find(envelopes, current);
      if i == |envelopes| || candidate > i {
        acked := acked[sessionId := id];
      }
      return None;
    }

    method LastAcked(sessionId: string) returns (id: string)
      ensures id == BoxOf(sessionId).acked
    {
      return if sessionId in acked then acked[sessionId] else "";
    }
  }

  datatype ReplayResult = ReplayResult(sessionId: string, envelopes: seq<Envelope>, lastAcked: string,
      requiresResync: bool)

  /** Replay a session after a cursor; a cursor that is not there asks the client to start over. */
  method ReplaySessionMailbox(store: MemoryMailboxStore, sessionId: string, after: string, limit: int)
    returns (r: ReplayResult)
    ensures var box := store.BoxOf(sessionId);
      && r.sessionId == sessionId && r.lastAcked == box.acked
      && (r.requiresResync <==> after != "" && !HasId(box.envelopes, after))
      && (r.requiresResync ==> r.envelopes == [])
      && (!r.requiresResync ==> Page(box, after, limit) == Delivered(r.envelopes))
  {
    var lastAcked := store.LastAcked(sessionId);
    var delivery := store.ReplayAfter(sessionId, after, limit);
    match delivery
    case CursorNotFound => return ReplayResult(sessionId, [], lastAcked, true);
    case Delivered(envelopes) => return ReplayResult(sessionId, envelopes, lastAcked, false);
  }

  // ---- A session over time ------------------------------------------------------------------------------

  /** A session and a client that replays it, always from the last envelope it received. */
  datatype Session = Session(box: Box, received: seq<Envelope>, resynced: bool)

  datatype Move = Post(envelope: Envelope) | Fetch(limit: int) | Acknowledge(id: string)

  function Cursor(received: seq<Envelope>): string {
    if received == [] then "" else received[|received| - 1].id
  }

  function Play(s: Session, move: Move): Session {
    match move
    case Post(e) => s.(box := Put(s.box, e))
    case Fetch(limit) =>
      (match Page(s.box, Cursor(s.received), limit)
       case Delivered(envelopes) => s.(received := s.received + envelopes)
       case CursorNotFound => s.(resynced := true))
    case Acknowledge(id) => s.(box := Ack(s.box, id))
  }

  function PlayAll(s: Session, moves: seq<Move>): Session
    decreases |moves|
  {
    if moves == [] then s else Play(PlayAll(s, moves[..|moves| - 1]), moves[|moves| - 1])
  }

  predicate UniqueIds(envelopes: seq<Envelope>) {
    && (forall i :: 0 <= i < |envelopes| ==> envelopes[i].id != "")
    && forall i, j :: 0 <= i < j < |envelopes| ==> envelopes[i].id != envelopes[j].id
  }

  /** The ack cursor is empty or a stored ID. */
  predicate AckStored(box: Box) {
    box.acked == "" || Position(box.envelopes, box.acked) < |box.envelopes|
  }

  predicate InOrderOnce(s: Session) {
    UniqueIds(s.box.envelopes) && AckStored(s.box) && s.received <= s.box.envelopes && !s.resynced
  }

  lemma {:induction false} PositionOf(envelopes: seq<Envelope>, k: nat)
    requires UniqueIds(envelopes) && k < |envelopes|
    ensures Position(envelopes, envelopes[k].id) == k
  {
  }

  lemma {:induction false} PositionStays(envelopes: seq<Envelope>, more: seq<Envelope>, id: string)
    requires Position(envelopes, id) < |envelopes|
    ensures Position(envelopes + more, id) == Position(envelopes, id)
  {
    var i := Position(envelopes, id);
    assert (envelopes + more)[i].id == id;
    assert forall j :: 0 <= j < i ==> (envelopes + more)[j] == envelopes[j];
  }

  lemma {:induction false} PutKeeps(box: Box, e: Envelope)
    requires UniqueIds(box.envelopes) && AckStored(box)
    ensures UniqueIds(Put(box, e).envelopes) && AckStored(Put(box, e)) && box.envelopes <= Put(box, e).envelopes
  {
    if Put(box, e) != box && box.acked != "" {
      PositionStays(box.envelopes, [e], box.acked);
    }
  }

  /** A page takes up where the client is: with unique IDs its cursor is the position of what it got last. */
  lemma {:induction false} PageContinues(box: Box, received: seq<Envelope>, limit: int)
    requires UniqueIds(box.envelopes) && received <= box.envelopes
    ensures var n, m := |received|, |box.envelopes|;
      var end := if limit > 0 && n + limit < m then n + limit else m;
      Page(box, Cursor(received), limit) == Delivered(box.envelopes[n..end])
  {
    if received != [] {
      PositionOf(box.envelopes, |received| - 1);
    }
  }

  lemma {:induction false} PlayKeeps(s: Session, move: Move)
    requires InOrderOnce(s)
    ensures InOrderOnce(Play(s, move))
    ensures s.box.envelopes <= Play(s, move).box.envelopes && s.received <= Play(s, move).received
  {
    match move
    case Post(e) => PutKeeps(s.box, e);
    case Fetch(limit) => PageContinues(s.box, s.received, limit);
    case Acknowledge(_) =>
  }

  /** Whatever pages a client asks for and whatever is appended in between, what it has received is always the first
      envelopes of the session, each once and in order, and it is never told to start over. */
  lemma {:induction false} ReceivesInOrderOnce(moves: seq<Move>)
    ensures InOrderOnce(PlayAll(Session(Box([], ""), [], false), moves))
    decreases |moves|
  {
    if moves != [] {
      ReceivesInOrderOnce(moves[..|moves| - 1]);
      PlayKeeps(PlayAll(Session(Box([], ""), [], false), moves[..|moves| - 1]), moves[|moves| - 1]);
    }
  }

  /** Every page brings the client at least one envelope further until it has them all, so asking often enough, with
      limits of any size, delivers everything. */
  lemma {:induction false} PagesCatchUp(s: Session, pages: seq<Move>)
    requires InOrderOnce(s) && forall i :: 0 <= i < |pages| ==> pages[i].Fetch?
    ensures var t := PlayAll(s, pages);
      && InOrderOnce(t) && t.box == s.box
      && (|pages| >= |s.box.envelopes| - |s.received| ==> t.received == s.box.envelopes)
      && (|pages| < |s.box.envelopes| - |s.received| ==> |t.received| >= |s.received| + |pages|)
    decreases |pages|
  {
    if pages != [] {
      var init := pages[..|pages| - 1];
      var t := PlayAll(s, init);
      PagesCatchUp(s, init);
      PlayKeeps(t, pages[|pages| - 1]);
      PageContinues(t.box, t.received, pages[|pages| - 1].limit);
    }
  }

  /** Where the ack cursor stands: before the first envelope, or at a stored one. */
  function AckPosition(box: Box): int {
    if box.acked == "" then -1 else Position(box.envelopes, box.acked)
  }

  lemma {:induction false} AckMovesForward(s: Session, move: Move)
    requires InOrderOnce(s)
    ensures AckPosition(s.box) <= AckPosition(Play(s, move).box)
  {
    if move.Post? && Put(s.box, move.envelope) != s.box && s.box.acked != "" {
      PositionStays(s.box.envelopes, [move.envelope], s.box.acked);
    }
  }

  /** An envelope is kept, behind all others, exactly when its ID, session and document are given, its ID is new, and it
      is an event envelope with its event or one of the other known kinds without; otherwise nothing changes. */
  lemma {:induction false} PostIsKept(box: Box, e: Envelope)
    ensures var identified := e.id != "" && e.sessionId != "" && e.documentId != "";
      var carries := if e.event.Some? then e.kind.EventEnvelope?
                     else e.kind.AckEnvelope? || e.kind.ResyncEnvelope? || e.kind.ErrorEnvelope?;
      if identified && carries && !HasId(box.envelopes, e.id) then
        Put(box, e).envelopes == box.envelopes + [e] && Put(box, e).acked == box.acked
      else Put(box, e) == box
  {
    var i := Position(box.envelopes, e.id);
    assert i < |box.envelopes| ==> box.envelopes[i].id == e.id;
  }

  /** After an acknowledgement the cursor stands at the later of where it was and the acknowledged envelope; an unknown
      ID moves nothing. */
  lemma {:induction false} AckIsLater(box: Box, k: nat, id: string)
    requires UniqueIds(box.envelopes) && AckStored(box)
    ensures k < |box.envelopes| ==>
      AckPosition(Ack(box, box.envelopes[k].id)) == if k > AckPosition(box) then k else AckPosition(box)
    ensures !HasId(box.envelopes, id) ==> Ack(box, id) == box
    ensures Ack(box, id).envelopes == box.envelopes
  {
    if k < |box.envelopes| {
      PositionOf(box.envelopes, k);
    }
    var i := Position(box.envelopes, id);
    assert i < |box.envelopes| ==> box.envelopes[i].id == id;
  }

  /** The ack cursor never moves back, and an acknowledgement moves it to the acknowledged envelope unless it stands
      further on. */
  lemma {:induction false} AckNeverMovesBack(s: Session, moves: seq<Move>)
    requires InOrderOnce(s)
    ensures var t := PlayAll(s, moves);
      && InOrderOnce(t) && AckPosition(s.box) <= AckPosition(t.box) && AckStored(t.box)
      && forall k :: 0 <= k < |t.box.envelopes| ==>
           AckPosition(Ack(t.box, t.box.envelopes[k].id)) == if k > AckPosition(t.box) then k else AckPosition(t.box)
    decreases |moves|
  {
    if moves != [] {
      var init := PlayAll(s, moves[..|moves| - 1]);
      AckNeverMovesBack(s, moves[..|moves| - 1]);
      PlayKeeps(init, moves[|moves| - 1]);
      AckMovesForward(init, moves[|moves| - 1]);
    }
    var t := PlayAll(s, moves);
    forall k | 0 <= k < |t.box.envelopes|
      ensures AckPosition(Ack(t.box, t.box.envelopes[k].id)) == if k > AckPosition(t.box) then k else AckPosition(t.box)
    {
      AckIsLater(t.box, k, "");
    }
  }
}
