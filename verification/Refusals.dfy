/** When exactly a request is refused, and why. */
module Refusals {
  import opened Json
  import opened Apply
  import opened ShareDb
  import opened Requests
  import opened Serial

  /** A request under an identity that record k carries, for another operation than the one submitted then. */
  predicate Conflicts(d: Doc, r: SubmitRequest) {
    Identifies(RequestId(r)) &&
    exists k :: 0 <= k < |d.ops| && RecordId(d.ops[k]) == RequestId(r)
      && d.ops[k].submittedOp.Some? && d.ops[k].submittedOp != r.operation
  }

  predicate Known(d: Doc, r: SubmitRequest) {
    Identifies(RequestId(r)) && exists k :: 0 <= k < |d.ops| && RecordId(d.ops[k]) == RequestId(r)
  }

  lemma {:induction false} KnownAt(d: Doc, r: SubmitRequest)
    requires Numbered(d) && DistinctIdentities(d.ops) && Identifies(RequestId(r))
    ensures var k := FindIdentity(d.ops, RequestId(r));
      && (Known(d, r) <==> k < |d.ops|)
      && (Conflicts(d, r) <==> k < |d.ops| && d.ops[k].submittedOp.Some? && d.ops[k].submittedOp != r.operation)
  {
    var k := FindIdentity(d.ops, RequestId(r));
    forall j | 0 <= j < |d.ops| && RecordId(d.ops[j]) == RequestId(r) ensures j == k {
      assert j < k || k <= j;
    }
  }

  lemma {:induction false} DecidesAfterLookup(named: bool, maxGap: int, d: Doc, cache: VersionCache, r: SubmitRequest)
    requires Numbered(d) && DistinctIdentities(d.ops) && 0 <= r.baseVersion <= d.version
    ensures var decision := DecideSubmit(named, d, cache, r, maxGap).0;
      if Conflicts(d, r) then decision == Refuse(SequenceConflict)
      else if Known(d, r) then decision.Answer? && decision.result.duplicate
      else
        match ParseRequest(r.operation)
        case Err(e) => decision == Refuse(OperationFailed(e))
        case Ok(op) => decision == DecideParsed(named, d, cache, r, op, maxGap).0
  {
    assert d.ops[0..d.version] == d.ops;
    if Identifies(RequestId(r)) {
      KnownAt(d, r);
    }
  }

  /** The base version is behind the window the server rebases over. */
  predicate Stale(d: Doc, r: SubmitRequest, maxGap: int) {
    maxGap > 0 && d.version - r.baseVersion > maxGap
  }

  /** A submit is refused for its version, as conflicting, or as stale, exactly in those cases and in this order; a
      stale one is told how far back it may be; no history is ever missing. */
  lemma {:induction false} SubmitRefusals(named: bool, maxGap: int, room: Room, r: SubmitRequest)
    requires Sound(room) && room.doc.Some?
    ensures var d := room.doc.value;
      var decision := DecideSubmit(named, d, room.cache, r, maxGap).0;
      var inRange := 0 <= r.baseVersion <= d.version;
      && (decision == Refuse(InvalidVersion) <==> !inRange)
      && (decision == Refuse(SequenceConflict) <==> inRange && Conflicts(d, r))
      && ((decision.Answer? && decision.result.duplicate) <==> inRange && Known(d, r) && !Conflicts(d, r))
      && ((decision.Refuse? && decision.failure.StaleResyncRequired?) <==>
            inRange && !Known(d, r) && ParseRequest(r.operation).Ok? && Stale(d, r, maxGap))
      && (decision.Refuse? && decision.failure.StaleResyncRequired? ==>
            decision == Refuse(StaleResyncRequired(d.version, d.version - maxGap)))
      && decision != Refuse(OutOfRange) && decision != Refuse(NotFound)
  {
    var d := room.doc.value;
    if 0 <= r.baseVersion <= d.version {
      DecidesAfterLookup(named, maxGap, d, room.cache, r);
      if ParseRequest(r.operation).Ok? {
        ParsedRefusals(named, maxGap, d, room.cache, r, ParseRequest(r.operation).value);
      }
    }
  }

  lemma {:induction false} ParsedRefusals(named: bool, maxGap: int, d: Doc, cache: VersionCache, r: SubmitRequest,
      op: Op)
    requires Numbered(d) && 0 <= r.baseVersion <= d.version
    ensures var decision := DecideParsed(named, d, cache, r, op, maxGap).0;
      if Stale(d, r, maxGap) then decision == Refuse(StaleResyncRequired(d.version, d.version - maxGap))
      else
        && (decision.Refuse? ==> decision.failure.OperationFailed?)
        && (decision.Answer? ==> !decision.result.duplicate)
  {
  }

  /** The history between two versions is there exactly for versions in order up to the current one, and entry i of
      it produced the version i + 1 above the first. */
  lemma {:induction false} HistoryIsComplete(d: Doc, from: int, upto: int)
    requires Numbered(d)
    ensures var history := GetOperations(d, from, upto);
      && (history.Ok? <==> 0 <= from <= upto <= d.version)
      && (history.Ok? ==>
            && |history.value| == upto - from
            && forall i :: 0 <= i < upto - from ==> history.value[i].version == from + i + 1)
  {
  }

  /** A deletion is refused unless it names the current version; then the document, its log and its cache go. */
  lemma {:induction false} DeletionRefusals(named: bool, maxGap: int, room: Room, baseVersion: int, source: string)
    ensures var (next, reply) := Serve(named, maxGap, room, Delete(baseVersion, source));
      && (reply == Removed <==> room.doc.Some? && baseVersion == room.doc.value.version)
      && (reply == Removed ==> next.doc.None? && next.cache == map[])
      && (reply != Removed ==>
            next == room && reply == Failed(if room.doc.None? then NotFound else InvalidVersion))
  {
  }

  /** A creation is refused exactly when the document is there; a new document holds what was given, or else an empty
      object, at version 0 with an empty log. */
  lemma {:induction false} CreationHolds(named: bool, maxGap: int, room: Room, initial: Option<Value>)
    ensures var (next, reply) := Serve(named, maxGap, room, Create(initial));
      && (room.doc.Some? ==> next == room && reply == Failed(Exists))
      && (room.doc.None? ==>
            && next.doc.Some? && next.doc.value.version == 0 && next.doc.value.ops == [] && next.feed == room.feed
            && reply == Created(next.doc.value.doc)
            && (initial.Some? ==> next.doc.value.doc == initial.value)
            && (initial.None? ==> next.doc.value.doc.Obj? && next.doc.value.doc.fields.Keys == {}))
  {
  }

  // ---- Identities ---------------------------------------------------------------------------------------

  /** A request that names its sender in the separate fields is decided like one that does so in its ID; what an ID
      does say, the separate fields do not change. */
  lemma {:induction false} SeparateFieldsCount(named: bool, maxGap: int, d: Doc, cache: VersionCache, r: SubmitRequest,
      source: string, sequence: int)
    ensures r.id == OpId("", 0) ==>
      DecideSubmit(named, d, cache, r.(id := OpId(r.source, r.sequence)), maxGap)
        == DecideSubmit(named, d, cache, r, maxGap)
    ensures r.id.source != "" && r.id.sequence != 0 ==>
      DecideSubmit(named, d, cache, r.(source := source, sequence := sequence), maxGap)
        == DecideSubmit(named, d, cache, r, maxGap)
  {
    if r.id == OpId("", 0) {
      SameIdentity(named, maxGap, d, cache, r, r.(id := OpId(r.source, r.sequence)));
    }
    if r.id.source != "" && r.id.sequence != 0 {
      SameIdentity(named, maxGap, d, cache, r, r.(source := source, sequence := sequence));
    }
  }

  lemma {:induction false} SameIdentity(named: bool, maxGap: int, d: Doc, cache: VersionCache, r: SubmitRequest,
      s: SubmitRequest)
    requires RequestId(s) == RequestId(r) && s.baseVersion == r.baseVersion && s.operation == r.operation
    ensures DecideSubmit(named, d, cache, s, maxGap) == DecideSubmit(named, d, cache, r, maxGap)
  {
  }

  /** A request without a source, or without a positive sequence, is never taken for a retry. */
  lemma {:induction false} AnonymousIsNoRetry(named: bool, maxGap: int, room: Room, r: SubmitRequest)
    requires Sound(room) && room.doc.Some?
    requires (r.id.source == "" && r.source == "") || r.id.sequence < 0 || (r.id.sequence == 0 && r.sequence <= 0)
    ensures var decision := DecideSubmit(named, room.doc.value, room.cache, r, maxGap).0;
      decision != Refuse(SequenceConflict) && !(decision.Answer? && decision.result.duplicate)
  {
    SubmitRefusals(named, maxGap, room, r);
  }

  /** A historical snapshot is refused exactly for a version that is not between 0 and the current one, unless undoing
      the log down to it fails; of the current version it is the document. */
  lemma {:induction false} SnapshotRefusals(named: bool, d: Doc, cache: VersionCache, version: int)
    requires Numbered(d)
    ensures var (at, filled) := SnapshotAt(named, d, cache, version);
      && (version < 0 || version > d.version ==> at == Err(InvalidParameter) && filled == cache)
      && (version == d.version ==> at == Ok(d.doc) && filled == cache)
      && (0 <= version < d.version ==>
            at == Fold(Undone, d.doc, Looks(cache, Reversed(d.ops[version..d.version]))))
  {
    if 0 <= version < d.version {
      HistoryIsComplete(d, version, d.version);
    }
  }

  /** A rollback is refused for its version exactly when the target is not between 0 and the current one, and never
      for missing history. */
  lemma {:induction false} RollbackRefusals(named: bool, room: Room, target: int, source: string)
    requires Sound(room) && room.doc.Some?
    ensures var d := room.doc.value;
      var decision := DecideRollback(named, d, room.cache, target, source).0;
      && (decision == Refuse(InvalidVersion) <==> target < 0 || target > d.version)
      && (decision.Answer? <==> target == d.version)
      && decision != Refuse(IncompleteHistory)
  {
    var d := room.doc.value;
    if 0 <= target < d.version {
      HistoryIsComplete(d, target, d.version);
    }
  }
}
