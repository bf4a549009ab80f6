/** One request at a time against one document: the server as if every request ran alone under the document's lock. */
module Requests {
  import opened Json
  import opened ShareDb

  datatype EventType = Committed | Deleted

  datatype Event = Event(
    kind: EventType,
    version: int,
    id: OpId,
    source: string,
    sequence: int,
    operation: Option<Value>,
    document: Value)

  datatype Request =
    | Create(initial: Option<Value>)
    | Submit(submission: SubmitRequest)
    | Delete(baseVersion: int, source: string)
    | Rollback(target: int, source: string)

  datatype Reply =
    | Failed(failure: Failure)
    | Created(document: Value)
    | Removed
    | Done(result: SubmitResult)

  /** Everything the server keeps about one document ID: the stored document, the parsed operations, and what was
      published.  The rest is history: how often the document was created, what it was created as, the operations
      applied to it since, and how much had been published before. */
  datatype Room = Room(
    doc: Option<Doc>,
    cache: VersionCache,
    feed: seq<Event>,
    births: nat,
    initial: Value,
    applied: seq<Op>,
    past: nat)

  const EMPTY_ROOM := Room(None, map[], [], 0, Null, [], 0)

  function OpEvent(r: OpRecord, document: Value): Event {
    Event(EventType.Committed, r.version, r.id, r.source, r.sequence, Some(r.op), document)
  }

  function DeleteEvent(d: Doc, source: string): Event {
    Event(Deleted, d.version, OpId("", 0), source, 0, None, d.doc)
  }

  // ---- The writes of a request, in the order they are made ----------------------------------------------

  function CreateDoc(room: Room, initial: Value): Room {
    room.(doc := Some(Doc(0, initial, [])), births := room.births + 1, initial := initial, applied := [],
          past := |room.feed|)
  }

  function CommitOp(room: Room, d: Doc, applied: Op, snapshot: Value, record: OpRecord): Room {
    room.(doc := Some(ShareDb.Committed(d, snapshot, record)), applied := room.applied + [applied])
  }

  function StoreParsed(named: bool, room: Room, version: int, op: Op): Room {
    room.(cache := Stored(named, room.cache, version, op))
  }

  function Publish(room: Room, e: Event): Room {
    room.(feed := room.feed + [e])
  }

  function DeleteDoc(room: Room): Room {
    room.(doc := None)
  }

  function ForgetParsed(room: Room): Room {
    room.(cache := map[])
  }

  // ---- Requests -----------------------------------------------------------------------------------------

  /** The decision on a submit or rollback, and the cache it leaves. */
  function Decide(named: bool, maxGap: int, d: Doc, cache: VersionCache, request: Request): (Decision, VersionCache)
    requires request.Submit? || request.Rollback?
  {
    match request
    case Submit(r) => DecideSubmit(named, d, cache, r, maxGap)
    case Rollback(target, source) => DecideRollback(named, d, cache, target, source)
  }

  /** Commit, cache, publish. */
  function Wrote(named: bool, room: Room, d: Doc, applied: Op, snapshot: Value, record: OpRecord): Room {
    Publish(StoreParsed(named, CommitOp(room, d, applied, snapshot, record), record.version, applied),
            OpEvent(record, snapshot))
  }

  function Erased(room: Room, d: Doc, source: string): Room {
    Publish(ForgetParsed(DeleteDoc(room)), DeleteEvent(d, source))
  }

  /** A decision carried out and answered. */
  function Settled(named: bool, room: Room, d: Doc, decision: Decision): (Room, Reply) {
    match decision
    case Refuse(f) => (room, Failed(f))
    case Answer(result) => (room, Done(result))
    case Write(applied, snapshot, record, result) => (Wrote(named, room, d, applied, snapshot, record), Done(result))
  }

  /** One request, start to finish. */
  function Serve(named: bool, maxGap: int, room: Room, request: Request): (Room, Reply) {
    match request
    case Create(initial) =>
      if room.doc.Some? then (room, Failed(Exists))
      else
        var payload := if initial.Some? then initial.value else Obj(map[]);
        (CreateDoc(room, payload), Created(payload))
    case Delete(baseVersion, source) =>
      if room.doc.None? then (room, Failed(NotFound))
      else if baseVersion != room.doc.value.version then (room, Failed(InvalidVersion))
      else (Erased(room, room.doc.value, source), Removed)
    case _ =>
      if room.doc.None? then (room, Failed(NotFound))
      else
        var (decision, filled) := Decide(named, maxGap, room.doc.value, room.cache, request);
        Settled(named, room.(cache := filled), room.doc.value, decision)
  }

  /** The room after requests served one after another. */
  function ServeAll(named: bool, maxGap: int, room: Room, requests: seq<Request>): Room
    decreases |requests|
  {
    if requests == [] then room
    else Serve(named, maxGap, ServeAll(named, maxGap, room, requests[..|requests| - 1]), requests[|requests| - 1]).0
  }
}
