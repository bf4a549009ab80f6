/** Documents, logs and requests of the versioned server, and what one request decides under the document's lock. */
module ShareDb {
  import opened Json
  import opened Operators
  import opened Transform
  import opened Apply
  import opened Algebra
  import Rebase
  import Wire
  import History

  type DocId = string
  type Op = seq<Component>

  /** Who sent an operation, and which of its operations it is. */
  datatype OpId = OpId(source: string, sequence: int)

  datatype OpRecord = OpRecord(
    version: int,
    baseVersion: int,
    id: OpId,
    source: string,
    sequence: int,
    submittedOp: Option<Value>,
    op: Value)

  /** The latest snapshot of a document and the operations that led to it; entry i produced version i + 1. */
  datatype Doc = Doc(version: int, doc: Value, ops: seq<OpRecord>)

  datatype SubmitRequest = SubmitRequest(baseVersion: int, operation: Option<Value>, id: OpId, source: string,
      sequence: int)

  datatype Failure =
    | NotFound
    | Exists
    | InvalidVersion
    | SequenceConflict
    | StaleResyncRequired(current: int, minSupported: int)
    | IncompleteHistory
    | OutOfRange
    | OperationFailed(error: Error)

  datatype SubmitResult = SubmitResult(version: int, rebased: bool, duplicate: bool, operation: Value, document: Value)

  /** What a request comes to: an error, an answer that writes nothing, or a new snapshot with its log entry. */
  datatype Decision =
    | Refuse(failure: Failure)
    | Answer(result: SubmitResult)
    | Write(applied: Op, snapshot: Value, record: OpRecord, result: SubmitResult)

  type Writing = d: Decision | d.Write?
    witness Write([], Null, OpRecord(0, 0, OpId("", 0), "", 0, None, Null), SubmitResult(0, false, false, Null, Null))

  /** An identity, falling back to the separate source and sequence fields. */
  function Identity(id: OpId, source: string, sequence: int): OpId {
    OpId(if id.source == "" then source else id.source, if id.sequence == 0 then sequence else id.sequence)
  }

  function RequestId(r: SubmitRequest): OpId { Identity(r.id, r.source, r.sequence) }

  function RecordId(r: OpRecord): OpId { Identity(r.id, r.source, r.sequence) }

  /** An identity that retries are recognised by. */
  predicate Identifies(id: OpId) { id.source != "" && id.sequence > 0 }

  // ---- The log ------------------------------------------------------------------------------------------

  /** The records that produced versions from + 1 to to. */
  function GetOps(d: Doc, from: int, to: int): Result<seq<OpRecord>> {
    if from == to then Ok([])
    else if from < 0 || to > |d.ops| || from > to then Err(InvalidParameter)
    else Ok(d.ops[from..to])
  }

  function Committed(d: Doc, snapshot: Value, record: OpRecord): Doc {
    Doc(record.version, snapshot, d.ops + [record])
  }

  /** The position of the first record with an identity, or the length of the log. */
  function FindIdentity(ops: seq<OpRecord>, id: OpId): (i: nat)
    ensures i <= |ops|
    ensures i < |ops| ==> RecordId(ops[i]) == id
    ensures forall j :: 0 <= j < i ==> RecordId(ops[j]) != id
  {
    if ops == [] then 0
    else if RecordId(ops[0]) == id then 0
    else 1 + FindIdentity(ops[1..], id)
  }

  // ---- Parsed operations --------------------------------------------------------------------------------

  type VersionCache = map<int, Op>

  /** A logged operation: from the cache when it is there, parsed otherwise. */
  function Lookup(cache: VersionCache, r: OpRecord): Result<Op> {
    if r.version in cache then Ok(cache[r.version]) else Wire.ParseOperation(r.op)
  }

  /** Operations of a document without an ID and of version 0 are not cached. */
  function Stored(named: bool, cache: VersionCache, version: int, op: Op): VersionCache {
    if !named || version <= 0 then cache else cache[version := op]
  }

  /** A lookup leaves the operation it parsed in the cache. */
  function Filled(named: bool, cache: VersionCache, r: OpRecord): VersionCache {
    if r.version in cache || Wire.ParseOperation(r.op).Err? then cache
    else Stored(named, cache, r.version, Wire.ParseOperation(r.op).value)
  }

  /** An empty payload stands for an operation without components. */
  function ParseRequest(raw: Option<Value>): Result<Op> {
    Wire.ParseOperation(if raw.Some? then raw.value else Arr([]))
  }

  // ---- Walking the log ----------------------------------------------------------------------------------

  function Looks(cache: VersionCache, ops: seq<OpRecord>): seq<Result<Op>> {
    seq(|ops|, i requires 0 <= i < |ops| => Lookup(cache, ops[i]))
  }

  function Reversed<T>(s: seq<T>): seq<T> {
    seq(|s|, i requires 0 <= i < |s| => s[|s| - 1 - i])
  }

  /** Take operations in order until one cannot be read or the step fails. */
  function Fold<T>(step: (T, Op) -> Result<T>, t: T, looks: seq<Result<Op>>): Result<T>
    decreases |looks|
  {
    if looks == [] then Ok(t)
    else
      match looks[0]
      case Err(e) => Err(e)
      case Ok(op) =>
        match step(t, op)
        case Err(e) => Err(e)
        case Ok(u) => Fold(step, u, looks[1..])
  }

  /** How many operations that looks at. */
  function Reached<T>(step: (T, Op) -> Result<T>, t: T, looks: seq<Result<Op>>): (n: nat)
    ensures n <= |looks|
    decreases |looks|
  {
    if looks == [] then 0
    else
      match looks[0]
      case Err(_) => 1
      case Ok(op) =>
        match step(t, op)
        case Err(_) => 1
        case Ok(u) => 1 + Reached(step, u, looks[1..])
  }

  function FilledOver(named: bool, cache: VersionCache, ops: seq<OpRecord>): VersionCache
    decreases |ops|
  {
    if ops == [] then cache else FilledOver(named, Filled(named, cache, ops[0]), ops[1..])
  }

  /** Take logged operations in order, through the cache; the cache this leaves. */
  function Walk<T>(step: (T, Op) -> Result<T>, t: T, named: bool, cache: VersionCache, ops: seq<OpRecord>)
    : (Result<T>, VersionCache)
  {
    var looks := Looks(cache, ops);
    (Fold(step, t, looks), FilledOver(named, cache, ops[..Reached(step, t, looks)]))
  }

  /** A step of rebasing: transform against a concurrent operation and keep the left side. */
  function Rebased(op: Op, concurrent: Op): Result<Op> {
    var pair :- TransformOperation(op, concurrent);
    Ok(pair.0)
  }

  /** A step of going back: apply the inverse. */
  function Undone(v: Value, op: Op): Result<Value> {
    var inverse :- History.InverseOperation(op);
    ApplyOperation(v, inverse)
  }

  /** A step of rolling back: compose the inverse and apply it. */
  function RolledBack(t: (Op, Value), op: Op): Result<(Op, Value)> {
    var inverse :- History.InverseOperation(op);
    var w :- ApplyOperation(t.1, inverse);
    Ok((Composed(t.0, inverse), w))
  }

  // ---- Submit -------------------------------------------------------------------------------------------

  /** Check the version, recognise a retry, parse, rebase, apply; the cache it leaves. */
  function DecideSubmit(named: bool, d: Doc, cache: VersionCache, r: SubmitRequest, maxGap: int)
    : (Decision, VersionCache)
  {
    var id := RequestId(r);
    var logged := if Identifies(id) && d.version > 0 then GetOps(d, 0, d.version) else Ok([]);
    if r.baseVersion < 0 || r.baseVersion > d.version then (Refuse(InvalidVersion), cache)
    else if logged.Err? then (Refuse(OutOfRange), cache)
    else if FindIdentity(logged.value, id) < |logged.value| then
      var seen := logged.value[FindIdentity(logged.value, id)];
      if seen.submittedOp.Some? && r.operation != seen.submittedOp then (Refuse(SequenceConflict), cache)
      else (Answer(SubmitResult(d.version, false, true, seen.op, d.doc)), cache)
    else
      match ParseRequest(r.operation)
      case Err(e) => (Refuse(OperationFailed(e)), cache)
      case Ok(op) => DecideParsed(named, d, cache, r, op, maxGap)
  }

  /** Rebase over the versions since the base version, unless they are too many. */
  function DecideParsed(named: bool, d: Doc, cache: VersionCache, r: SubmitRequest, op: Op, maxGap: int)
    : (Decision, VersionCache)
  {
    var gap := d.version - r.baseVersion;
    if gap <= 0 then (DecideRebased(d, r, op), cache)
    else if maxGap > 0 && gap > maxGap then (Refuse(StaleResyncRequired(d.version, d.version - maxGap)), cache)
    else
      match GetOps(d, r.baseVersion, d.version)
      case Err(_) => (Refuse(OutOfRange), cache)
      case Ok(concurrent) =>
        var (rebased, filled) := Walk(Rebased, op, named, cache, concurrent);
        (match rebased
         case Err(e) => Refuse(OperationFailed(e))
         case Ok(transformed) => DecideRebased(d, r, transformed),
         filled)
  }

  /** Nothing left is answered; anything else is applied to the snapshot and logged as the next version. */
  function DecideRebased(d: Doc, r: SubmitRequest, transformed: Op): Decision {
    var rebased := r.baseVersion < d.version;
    if transformed == [] then Answer(SubmitResult(d.version, rebased, false, Arr([]), d.doc))
    else
      match ApplyOperation(d.doc, transformed)
      case Err(e) => Refuse(OperationFailed(e))
      case Ok(w) =>
        var id, printed := RequestId(r), Wire.PrintAll(transformed);
        Write(transformed, w,
              OpRecord(d.version + 1, r.baseVersion, id, id.source, id.sequence, r.operation, printed),
              SubmitResult(d.version + 1, rebased, false, printed, w))
  }

  // ---- History ------------------------------------------------------------------------------------------

  /** The history between two versions, when it is complete. */
  function GetOperations(d: Doc, from: int, to: int): Result<seq<OpRecord>> {
    if from < 0 || to < from || to > d.version then Err(InvalidParameter)
    else
      var ops :- GetOps(d, from, to);
      if |ops| != to - from then Err(InvalidParameter) else Ok(ops)
  }

  /** Roll back: undo the log down to a version and log the composed inverse as one operation. */
  function DecideRollback(named: bool, d: Doc, cache: VersionCache, target: int, source: string)
    : (Decision, VersionCache)
  {
    if target < 0 || target > d.version then (Refuse(InvalidVersion), cache)
    else if target == d.version then (Answer(SubmitResult(d.version, false, false, Arr([]), d.doc)), cache)
    else
      match GetOperations(d, target, d.version)
      case Err(_) => (Refuse(IncompleteHistory), cache)
      case Ok(records) =>
        var (undone, filled) := Walk<(Op, Value)>(RolledBack, ([], d.doc), named, cache, Reversed(records));
        (match undone
         case Err(e) => Refuse(OperationFailed(e))
         case Ok((rollback, w)) =>
           if ValidationError(rollback).Some? then Refuse(OperationFailed(ValidationError(rollback).value))
           else
             var printed := Wire.PrintAll(rollback);
             Write(rollback, w,
                   OpRecord(d.version + 1, d.version, OpId("", 0), source, 0, Some(printed), printed),
                   SubmitResult(d.version + 1, false, false, printed, w)),
         filled)
  }

  /** The document as it was at a version. */
  function SnapshotAt(named: bool, d: Doc, cache: VersionCache, version: int): (Result<Value>, VersionCache) {
    if version < 0 || version > d.version then (Err(InvalidParameter), cache)
    else if version == d.version then (Ok(d.doc), cache)
    else
      match GetOperations(d, version, d.version)
      case Err(e) => (Err(e), cache)
      case Ok(records) => Walk(Undone, d.doc, named, cache, Reversed(records))
  }
}
