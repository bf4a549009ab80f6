/** What a client may count on over a whole run: its commits stay, a retry is recognised, and what was
    absorbed stays so. */
module Retry {
  import opened Json
  import opened Operators
  import opened Apply
  import opened Transform
  import opened ShareDb
  import opened Requests
  import opened Serial

  /** The later room still has the document of the earlier one, with a log that goes on from there; every operation
      already logged reads back as before. */
  predicate Extends(a: Room, b: Room) {
    && a.doc.Some? && b.doc.Some? && a.births == b.births && a.initial == b.initial
    && a.doc.value.ops <= b.doc.value.ops && a.applied <= b.applied && a.feed <= b.feed
    && forall i :: 0 <= i < |a.doc.value.ops| ==>
         Lookup(b.cache, a.doc.value.ops[i]) == Lookup(a.cache, a.doc.value.ops[i])
  }

  lemma {:induction false} ExtendsCompose(a: Room, b: Room, c: Room)
    requires Extends(a, b) && Extends(b, c)
    ensures Extends(a, c)
  {
    forall i | 0 <= i < |a.doc.value.ops|
      ensures Lookup(c.cache, a.doc.value.ops[i]) == Lookup(a.cache, a.doc.value.ops[i])
    {
      assert b.doc.value.ops[i] == a.doc.value.ops[i];
    }
  }

  lemma {:induction false} FilledExtends(room: Room, filled: VersionCache)
    requires Sound(room) && room.doc.Some? && FilledFrom(room.cache, filled, room.doc.value.ops)
    ensures Extends(room, room.(cache := filled))
  {
    FillsAreInvisible(room.cache, filled, room.doc.value, room.applied);
  }

  lemma {:induction false} WroteExtends(named: bool, room: Room, d: Doc, applied: Op, snapshot: Value, record: OpRecord)
    requires Sound(room) && room.doc == Some(d) && record.version == d.version + 1
    ensures Extends(room, Wrote(named, room, d, applied, snapshot, record))
  {
  }

  /** A request either extends the document's log or deletes the document. */
  lemma {:induction false} ServeExtends(named: bool, maxGap: int, room: Room, request: Request)
    requires Sound(room) && room.doc.Some?
    ensures var next := Serve(named, maxGap, room, request).0;
      next.births == room.births && (next.doc.Some? ==> Extends(room, next))
  {
    if request.Submit? || request.Rollback? {
      var d := room.doc.value;
      var (decision, filled) := Decide(named, maxGap, d, room.cache, request);
      DecideOnlyFills(named, maxGap, d, room.cache, request);
      FilledExtends(room, filled);
      FilledKeepsSound(room, filled);
      if decision.Write? {
        DecisionWrites(named, maxGap, d, room.cache, request);
        var r := room.(cache := filled);
        WroteExtends(named, r, d, decision.applied, decision.snapshot, decision.record);
        ExtendsCompose(room, r, Wrote(named, r, d, decision.applied, decision.snapshot, decision.record));
      }
    }
  }

  /** Only creating a document that is not there starts a new lifetime. */
  lemma {:induction false} BirthsGrow(named: bool, maxGap: int, room: Room, requests: seq<Request>)
    ensures room.births <= ServeAll(named, maxGap, room, requests).births
    decreases |requests|
  {
    if requests != [] {
      BirthsGrow(named, maxGap, room, requests[..|requests| - 1]);
    }
  }

  /** No commit is lost: as long as a document is not deleted, its log only grows at the end. */
  lemma {:induction false} ServeAllExtends(named: bool, maxGap: int, room: Room, requests: seq<Request>)
    requires Sound(room) && room.doc.Some?
    requires var end := ServeAll(named, maxGap, room, requests); end.doc.Some? && end.births == room.births
    ensures Extends(room, ServeAll(named, maxGap, room, requests))
    decreases |requests|
  {
    if requests != [] {
      var init, last := requests[..|requests| - 1], requests[|requests| - 1];
      var middle := ServeAll(named, maxGap, room, init);
      BirthsGrow(named, maxGap, room, init);
      ServeAllKeepsSound(named, maxGap, room, init);
      if middle.doc.Some? {
        ServeExtends(named, maxGap, middle, last);
        ServeAllExtends(named, maxGap, room, init);
        ExtendsCompose(room, middle, Serve(named, maxGap, middle, last).0);
      }
    }
  }

  // ---- Failed requests ----------------------------------------------------------------------------------

  /** A request that fails, or is answered without a write, changes neither the document nor the log nor the feed,
      and no logged operation reads back differently. */
  lemma {:induction false} FailureChangesNothing(named: bool, maxGap: int, room: Room, request: Request)
    requires Sound(room)
    ensures var (next, reply) := Serve(named, maxGap, room, request);
      reply.Failed? || (reply.Done? && room.doc.Some? && reply.result.version == room.doc.value.version) ==>
        next == room.(cache := next.cache) && (if room.doc.Some? then Extends(room, next) else next == room)
  {
    if room.doc.Some? {
      ServeExtends(named, maxGap, room, request);
      if request.Submit? || request.Rollback? {
        var d := room.doc.value;
        var decision := Decide(named, maxGap, d, room.cache, request).0;
        if decision.Write? {
          DecisionWrites(named, maxGap, d, room.cache, request);
          WriteAdvances(named, maxGap, d, room.cache, request);
        }
      }
    }
  }

  lemma {:induction false} WriteAdvances(named: bool, maxGap: int, d: Doc, cache: VersionCache, request: Request)
    requires Numbered(d) && (request.Submit? || request.Rollback?)
    requires Decide(named, maxGap, d, cache, request).0.Write?
    ensures var w := Decide(named, maxGap, d, cache, request).0; w.result.version == w.record.version == d.version + 1
  {
    match request
    case Submit(r) => SubmitWrites(named, maxGap, d, cache, r);
    case Rollback(target, source) => RollbackWrites(named, d, cache, target, source);
  }

  // ---- Retries ------------------------------------------------------------------------------------------

  lemma {:induction false} FoundAt(ops: seq<OpRecord>, id: OpId, k: nat)
    requires DistinctIdentities(ops) && k < |ops| && RecordId(ops[k]) == id && Identifies(id)
    ensures FindIdentity(ops, id) == k
  {
  }

  /** The decision on any request under an identity that record k of the log carries. */
  lemma {:induction false} KnownIdentity(named: bool, maxGap: int, room: Room, k: nat, retry: SubmitRequest)
    requires Sound(room) && room.doc.Some? && k < |room.doc.value.ops|
    requires Identifies(RequestId(retry)) && RecordId(room.doc.value.ops[k]) == RequestId(retry)
    ensures var d := room.doc.value;
      DecideSubmit(named, d, room.cache, retry, maxGap) ==
      (if retry.baseVersion < 0 || retry.baseVersion > d.version then Refuse(InvalidVersion)
       else if d.ops[k].submittedOp.Some? && retry.operation != d.ops[k].submittedOp then Refuse(SequenceConflict)
       else Answer(SubmitResult(d.version, false, true, d.ops[k].op, d.doc)),
       room.cache)
  {
    var d := room.doc.value;
    assert d.ops[0..d.version] == d.ops;
    FoundAt(d.ops, RequestId(retry), k);
  }

  lemma {:induction false} WrittenRecord(named: bool, maxGap: int, room: Room, r: SubmitRequest)
    requires Sound(room) && room.doc.Some? && Decide(named, maxGap, room.doc.value, room.cache, Submit(r)).0.Write?
    ensures var w, k := Decide(named, maxGap, room.doc.value, room.cache, Submit(r)).0, room.doc.value.version;
      var next := Serve(named, maxGap, room, Submit(r)).0;
      next.doc.Some? && 0 <= k < |next.doc.value.ops| && next.doc.value.ops[k] == w.record
      && RecordId(w.record) == RequestId(r) && w.record.submittedOp == r.operation
  {
    SubmitWrites(named, maxGap, room.doc.value, room.cache, r);
  }

  /** The record stays where it was written. */
  lemma {:induction false} WrittenStays(named: bool, maxGap: int, room: Room, r: SubmitRequest, later: seq<Request>)
    requires Sound(room)
    ensures var end := ServeAll(named, maxGap, Serve(named, maxGap, room, Submit(r)).0, later);
      && room.doc.Some? && Decide(named, maxGap, room.doc.value, room.cache, Submit(r)).0.Write?
      && end.doc.Some? && end.births == room.births ==>
        var record, k := Decide(named, maxGap, room.doc.value, room.cache, Submit(r)).0.record, room.doc.value.version;
        && Sound(end) && 0 <= k < |end.doc.value.ops| && end.doc.value.ops[k] == record
        && RecordId(record) == RequestId(r) && record.submittedOp == r.operation
  {
    var next := Serve(named, maxGap, room, Submit(r)).0;
    var end := ServeAll(named, maxGap, next, later);
    if room.doc.Some? && Decide(named, maxGap, room.doc.value, room.cache, Submit(r)).0.Write?
      && end.doc.Some? && end.births == room.births
    {
      ServeKeepsSound(named, maxGap, room, Submit(r));
      ServeExtends(named, maxGap, room, Submit(r));
      ServeAllExtends(named, maxGap, next, later);
      ServeAllKeepsSound(named, maxGap, next, later);
      WrittenRecord(named, maxGap, room, r);
    }
  }

  /** A committed submit never applies twice: after any other traffic on the document a request with its identity
      is answered with the logged operation if it carries the same one, and rejected if it carries another. */
  lemma {:induction false} RetryIsRecognised(named: bool, maxGap: int, room: Room, r: SubmitRequest,
      later: seq<Request>, retry: SubmitRequest)
    requires Sound(room) && Identifies(RequestId(r)) && RequestId(retry) == RequestId(r)
    ensures var end := ServeAll(named, maxGap, Serve(named, maxGap, room, Submit(r)).0, later);
      && room.doc.Some? && Decide(named, maxGap, room.doc.value, room.cache, Submit(r)).0.Write?
      && end.doc.Some? && end.births == room.births && 0 <= retry.baseVersion <= end.doc.value.version ==>
        Serve(named, maxGap, end, Submit(retry)) ==
          (end,
           if r.operation.Some? && retry.operation != r.operation then Failed(SequenceConflict)
           else
             var w := Decide(named, maxGap, room.doc.value, room.cache, Submit(r)).0;
             Done(SubmitResult(end.doc.value.version, false, true, w.record.op, end.doc.value.doc)))
  {
    var next := Serve(named, maxGap, room, Submit(r)).0;
    var end := ServeAll(named, maxGap, next, later);
    if room.doc.Some? && Decide(named, maxGap, room.doc.value, room.cache, Submit(r)).0.Write?
      && end.doc.Some? && end.births == room.births
    {
      WrittenStays(named, maxGap, room, r, later);
      KnownIdentity(named, maxGap, end, room.doc.value.version, retry);
    }
  }

  // ---- Absorbed operations ------------------------------------------------------------------------------

  /** Rebasing over a longer history is rebasing over its first part and then over the rest. */
  lemma {:induction false} FoldComposes<T>(step: (T, Op) -> Result<T>, t: T, a: seq<Result<Op>>, b: seq<Result<Op>>)
    ensures Fold(step, t, a + b) == (match Fold(step, t, a) case Err(e) => Err(e) case Ok(u) => Fold(step, u, b))
    decreases |a|
  {
    if a == [] {
      assert a + b == b;
    } else {
      assert (a + b)[0] == a[0] && (a + b)[1..] == a[1..] + b;
      if a[0].Ok? {
        var u := step(t, a[0].value);
        if u.Ok? {
          FoldComposes(step, u.value, a[1..], b);
        }
      }
    }
  }

  /** Nothing rebases to nothing. */
  lemma {:induction false} NothingStaysNothing(looks: seq<Result<Op>>)
    ensures Fold(Rebased, [], looks) == Ok([]) || Fold(Rebased, [], looks).Err?
    decreases |looks|
  {
    if looks != [] && looks[0].Ok? && Rebased([], looks[0].value).Ok? {
      NothingStaysNothing(looks[1..]);
    }
  }

  /** The part of the log a request is rebased over, as it reads back. */
  function Concurrent(room: Room, from: int): seq<Result<Op>>
    requires room.doc.Some? && 0 <= from <= |room.doc.value.ops|
  {
    Looks(room.cache, room.doc.value.ops[from..])
  }

  lemma {:induction false} ConcurrentGrows(a: Room, b: Room, from: int)
    requires Extends(a, b) && 0 <= from <= |a.doc.value.ops|
    ensures Concurrent(b, from) == Concurrent(a, from) + Concurrent(b, |a.doc.value.ops|)
  {
    var l, r := Concurrent(b, from), Concurrent(a, from) + Concurrent(b, |a.doc.value.ops|);
    assert |l| == |r|;
    forall i | 0 <= i < |l| ensures l[i] == r[i] {
      if i < |Concurrent(a, from)| {
        assert b.doc.value.ops[from + i] == a.doc.value.ops[from + i];
      }
    }
  }

  /** A request whose operation the log absorbs never writes. */
  lemma {:induction false} AbsorbedIsNotWritten(named: bool, maxGap: int, room: Room, r: SubmitRequest)
    requires Sound(room) && room.doc.Some? && 0 <= r.baseVersion <= room.doc.value.version
    requires var op := ParseRequest(r.operation);
      op.Ok? ==>
        var rebased := Fold(Rebased, op.value, Concurrent(room, r.baseVersion));
        rebased == Ok([]) || rebased.Err?
    ensures !DecideSubmit(named, room.doc.value, room.cache, r, maxGap).0.Write?
  {
    var d := room.doc.value;
    assert d.ops[r.baseVersion..d.version] == d.ops[r.baseVersion..];
    if r.baseVersion == d.version {
      assert Concurrent(room, r.baseVersion) == [];
    }
  }

  /** A request without an operation never writes, and at the current version it is answered with the document. */
  lemma {:induction false} EmptySubmission(named: bool, maxGap: int, room: Room, r: SubmitRequest)
    requires Sound(room) && room.doc.Some? && 0 <= r.baseVersion <= room.doc.value.version && r.operation.None?
    ensures !DecideSubmit(named, room.doc.value, room.cache, r, maxGap).0.Write?
    ensures var d := room.doc.value;
      r.baseVersion == d.version && !Identifies(RequestId(r)) ==>
        DecideSubmit(named, d, room.cache, r, maxGap).0 == Answer(SubmitResult(d.version, false, false, Arr([]), d.doc))
  {
    assert ParseRequest(r.operation) == Ok([]);
    NothingStaysNothing(Concurrent(room, r.baseVersion));
    AbsorbedIsNotWritten(named, maxGap, room, r);
  }

  lemma {:induction false} ParsedIsAbsorbed(named: bool, maxGap: int, room: Room, r: SubmitRequest, op: Op)
    requires Sound(room) && room.doc.Some? && 0 <= r.baseVersion <= room.doc.value.version
    requires DecideParsed(named, room.doc.value, room.cache, r, op, maxGap).0.Answer?
    ensures Fold(Rebased, op, Concurrent(room, r.baseVersion)) == Ok([])
  {
    var d := room.doc.value;
    assert d.ops[r.baseVersion..d.version] == d.ops[r.baseVersion..];
    if r.baseVersion == d.version {
      assert Concurrent(room, r.baseVersion) == [];
    }
  }

  lemma {:induction false} AnswerIsAbsorbed(named: bool, maxGap: int, room: Room, r: SubmitRequest)
    requires Sound(room) && room.doc.Some?
    requires var a := DecideSubmit(named, room.doc.value, room.cache, r, maxGap).0; a.Answer? && !a.result.duplicate
    ensures 0 <= r.baseVersion <= room.doc.value.version && ParseRequest(r.operation).Ok?
    ensures Fold(Rebased, ParseRequest(r.operation).value, Concurrent(room, r.baseVersion)) == Ok([])
  {
    ParsedIsAbsorbed(named, maxGap, room, r, ParseRequest(r.operation).value);
  }

  /** An operation once absorbed to nothing never commits on a retry, whatever was committed in between. */
  lemma {:induction false} AbsorbedStaysAbsorbed(named: bool, maxGap: int, room: Room, r: SubmitRequest,
      later: seq<Request>)
    requires Sound(room) && room.doc.Some?
    requires var a := DecideSubmit(named, room.doc.value, room.cache, r, maxGap).0; a.Answer? && !a.result.duplicate
    requires var end := ServeAll(named, maxGap, room, later); end.doc.Some? && end.births == room.births
    ensures var end := ServeAll(named, maxGap, room, later);
      var next := Serve(named, maxGap, end, Submit(r)).0;
      !DecideSubmit(named, end.doc.value, end.cache, r, maxGap).0.Write? && next == end.(cache := next.cache)
  {
    var end := ServeAll(named, maxGap, room, later);
    AnswerIsAbsorbed(named, maxGap, room, r);
    ServeAllExtends(named, maxGap, room, later);
    ServeAllKeepsSound(named, maxGap, room, later);
    var before, after := Concurrent(room, r.baseVersion), Concurrent(end, room.doc.value.version);
    ConcurrentGrows(room, end, r.baseVersion);
    FoldComposes(Rebased, ParseRequest(r.operation).value, before, after);
    NothingStaysNothing(after);
    AbsorbedIsNotWritten(named, maxGap, end, r);
  }
}
