/** From a client's edit to the server's log and back: both sides end with the same document. */
module EndToEnd {
  import opened Json
  import opened Operators
  import opened Apply
  import opened Transform
  import opened Validity
  import opened BothOrders
  import opened ShareDb
  import opened Requests
  import opened Serial
  import opened Faithful
  import opened Rebase

  lemma {:induction false} RebaseFolds(op: Op, log: seq<Op>)
    ensures RebaseOver(op, log) == Fold(Rebased, op, Oks(log))
    decreases |log|
  {
    if log != [] {
      assert Oks(log)[0] == Ok(log[0]) && Oks(log)[1..] == Oks(log[1..]);
      var next := Rebased(op, log[0]);
      if next.Ok? {
        RebaseFolds(next.value, log[1..]);
      }
    }
  }

  lemma {:induction false} RunSplits(v: Value, a: seq<Op>, b: seq<Op>)
    requires ApplyRun(v, a).Ok?
    ensures ApplyRun(v, a + b) == ApplyRun(ApplyRun(v, a).value, b)
    decreases |a|
  {
    if a == [] {
      assert a + b == b;
    } else {
      assert (a + b)[0] == a[0] && (a + b)[1..] == a[1..] + b;
      RunSplits(ApplyOperation(v, a[0]).value, a[1..], b);
    }
  }

  /** From any version the later operations lead to the current document. */
  lemma {:induction false} RunFromVersion(room: Room, version: nat)
    requires Folds(room) && room.doc.Some? && version <= |room.applied|
    ensures ApplyRun(DocumentAt(room, version), room.applied[version..]) == Ok(room.doc.value.doc)
  {
    var a := room.applied;
    assert a[..version] + a[version..] == a && a[..|a|] == a;
    RunSplits(room.initial, a[..version], a[version..]);
  }

  /** A client made a component on the document of some version; since then components were committed that each were
      effective, and rebasing over them never records a number just changed. */
  predicate Concurrent(room: Room, base: nat, op: Op)
    requires room.doc.Some? && Folds(room) && base <= |room.applied|
  {
    var v, log := DocumentAt(room, base), room.applied[base..];
    && |op| <= 1 && AllFitHere(v, op)
    && (forall i :: 0 <= i < |log| ==> |log[i]| == 1)
    && EffectiveRun(v, log) && StaysCurrent(op, log)
  }

  /** The request is not too far behind, and no logged request has its identity. */
  predicate Acceptable(room: Room, maxGap: int, r: SubmitRequest)
    requires room.doc.Some?
  {
    var d := room.doc.value;
    && 0 <= r.baseVersion <= d.version && (maxGap > 0 ==> d.version - r.baseVersion <= maxGap)
    && (Identifies(RequestId(r)) ==> forall i :: 0 <= i < |d.ops| ==> RecordId(d.ops[i]) != RequestId(r))
  }

  lemma {:induction false} DecidesOnRebased(named: bool, maxGap: int, room: Room, r: SubmitRequest, op: Op)
    requires Sound(room) && room.doc.Some? && Acceptable(room, maxGap, r) && ParseRequest(r.operation) == Ok(op)
    requires var d := room.doc.value; Fold(Rebased, op, Looks(room.cache, d.ops[r.baseVersion..])).Ok?
    ensures var d := room.doc.value;
      DecideSubmit(named, d, room.cache, r, maxGap).0
        == DecideRebased(d, r, Fold(Rebased, op, Looks(room.cache, d.ops[r.baseVersion..])).value)
  {
    var d := room.doc.value;
    assert d.ops[r.baseVersion..d.version] == d.ops[r.baseVersion..] && d.ops[0..d.version] == d.ops;
    if Identifies(RequestId(r)) && d.version > 0 {
      assert FindIdentity(d.ops, RequestId(r)) == |d.ops|;
    }
    if r.baseVersion == d.version {
      assert Looks(room.cache, d.ops[r.baseVersion..]) == [];
    }
  }

  lemma {:induction false} RebaseReads(room: Room, base: nat, op: Op)
    requires room.doc.Some? && ReadsAs(room.cache, room.doc.value, room.applied) && base <= |room.applied|
    ensures Fold(Rebased, op, Looks(room.cache, room.doc.value.ops[base..])) == RebaseOver(op, room.applied[base..])
  {
    RebaseFolds(op, room.applied[base..]);
    assert Looks(room.cache, room.doc.value.ops[base..]) == Oks(room.applied[base..]);
  }

  /** The rebased operation, when anything is left of it, is committed; the submit never fails. */
  lemma {:induction false} SubmitSucceeds(named: bool, maxGap: int, room: Room, r: SubmitRequest, op: Op)
    requires Sound(room) && Folds(room) && room.doc.Some? && Acceptable(room, maxGap, r)
    requires ParseRequest(r.operation) == Ok(op) && Concurrent(room, r.baseVersion, op)
      && ReadsAs(room.cache, room.doc.value, room.applied)
    ensures var d, log := room.doc.value, room.applied[r.baseVersion..];
      var decision, rebased := DecideSubmit(named, d, room.cache, r, maxGap).0, RebaseOver(op, log);
      && rebased.Ok? && ApplyOperation(d.doc, rebased.value).Ok?
      && (rebased.value == [] ==>
            decision == Answer(SubmitResult(d.version, r.baseVersion < d.version, false, Arr([]), d.doc)))
      && (rebased.value != [] ==>
            && decision.Write? && decision.applied == rebased.value
            && Ok(decision.snapshot) == ApplyOperation(d.doc, rebased.value))
  {
    RunFromVersion(room, r.baseVersion);
    RebasedApplies(DocumentAt(room, r.baseVersion), op, room.applied[r.baseVersion..]);
    RebaseReads(room, r.baseVersion, op);
    DecidesOnRebased(named, maxGap, room, r, op);
  }

  lemma {:induction false} SubmitServed(named: bool, maxGap: int, room: Room, r: SubmitRequest, d: Doc, w: Value)
    requires Sound(room) && room.doc == Some(d)
    requires var decision := DecideSubmit(named, d, room.cache, r, maxGap).0;
      || (decision.Write? && decision.snapshot == w)
      || (decision.Answer? && !decision.result.duplicate && decision.result.document == d.doc == w)
    ensures var (next, reply) := Serve(named, maxGap, room, Submit(r));
      reply.Done? && next.doc.Some? && next.doc.value.doc == w && reply.result.document == w
  {
    if DecideSubmit(named, d, room.cache, r, maxGap).0.Write? {
      SubmitWrites(named, maxGap, d, room.cache, r);
    }
  }

  /** The client applied its operation to the document it had and then, as it received them, the committed ones
      transformed against it; the server rebased the operation and applied it.  Both have the same document. */
  lemma {:induction false} ClientAndServerAgree(named: bool, maxGap: int, room: Room, r: SubmitRequest, op: Op)
    requires Sound(room) && Folds(room) && room.doc.Some? && Acceptable(room, maxGap, r)
    requires ParseRequest(r.operation) == Ok(op) && Concurrent(room, r.baseVersion, op)
      && ReadsAs(room.cache, room.doc.value, room.applied)
    requires StaysWhole(op, room.applied[r.baseVersion..])
    ensures var v, log := DocumentAt(room, r.baseVersion), room.applied[r.baseVersion..];
      var (next, reply) := Serve(named, maxGap, room, Submit(r));
      && reply.Done? && next.doc.Some? && reply.result.document == next.doc.value.doc
      && ApplyOperation(v, op).Ok? && CatchUp(op, log).Ok?
      && ApplyRun(ApplyOperation(v, op).value, CatchUp(op, log).value) == Ok(next.doc.value.doc)
  {
    var d, v, log := room.doc.value, DocumentAt(room, r.baseVersion), room.applied[r.baseVersion..];
    SubmitSucceeds(named, maxGap, room, r, op);
    RunFromVersion(room, r.baseVersion);
    ClientMeetsServer(v, op, log);
    assert ApplyOperation(d.doc, []) == Ok(d.doc);
    SubmitServed(named, maxGap, room, r, d, ApplyOperation(d.doc, RebaseOver(op, log).value).value);
  }

  // ---- Over whole runs of requests ----------------------------------------------------------------------

  /** What was applied as each version is cached as it was applied. */
  predicate Warm(room: Room) {
    room.doc.Some? ==>
      && |room.applied| == |room.doc.value.ops|
      && var ops := room.doc.value.ops;
        forall i :: 0 <= i < |ops| ==> ops[i].version in room.cache && room.cache[ops[i].version] == room.applied[i]
  }

  /** Everything applied since the document was created was one effective component. */
  predicate Lively(room: Room) {
    room.doc.Some? ==>
      && (forall i :: 0 <= i < |room.applied| ==> |room.applied[i]| == 1)
      && EffectiveRun(room.initial, room.applied)
  }

  predicate Ready(room: Room) {
    Sound(room) && Folds(room) && Warm(room) && Lively(room)
  }

  lemma {:induction false} WarmReads(room: Room)
    requires Warm(room) && room.doc.Some?
    ensures ReadsAs(room.cache, room.doc.value, room.applied)
  {
  }

  lemma {:induction false} EffectiveSplits(v: Value, a: seq<Op>, b: seq<Op>)
    requires ApplyRun(v, a).Ok?
    ensures EffectiveRun(v, a + b) <==> EffectiveRun(v, a) && EffectiveRun(ApplyRun(v, a).value, b)
    decreases |a|
  {
    if a == [] {
      assert a + b == b;
    } else {
      assert (a + b)[0] == a[0] && (a + b)[1..] == a[1..] + b;
      if |a[0]| == 1 && Effective(v, a[0][0]) {
        RunApplies(v, a[0]);
        EffectiveSplits(After(v, a[0][0]), a[1..], b);
      }
    }
  }

  lemma {:induction false} LivelyFrom(room: Room, version: nat)
    requires Folds(room) && Lively(room) && room.doc.Some? && version <= |room.applied|
    ensures EffectiveRun(DocumentAt(room, version), room.applied[version..])
  {
    var a := room.applied;
    assert a[..version] + a[version..] == a;
    EffectiveSplits(room.initial, a[..version], a[version..]);
  }

  /** The client made at most one component, valid on the document it had; rebasing it never records a number just
      changed, loses no edit, and does not end in a no-op or in a component that the list code skips. */
  predicate Edits(maxGap: int, room: Room, r: SubmitRequest)
    requires room.doc.Some?
  {
    && Acceptable(room, maxGap, r) && r.baseVersion <= |room.applied| && room.past + r.baseVersion <= |room.feed|
    && ParseRequest(r.operation).Ok?
    && var op, log := ParseRequest(r.operation).value, room.applied[r.baseVersion..];
       var rebased := Out(RebaseOver(op, log));
      && |op| <= 1 && AllFitHere(DocumentAt(room, r.baseVersion), op)
      && StaysCurrent(op, log) && StaysWhole(op, log)
      && forall i :: 0 <= i < |rebased| ==> !IsEquivalentToNoop(rebased[i]) && !Skipped(rebased[i])
  }

  /** What the client made of its document and of what it received is what the server answers and stores. */
  predicate Meet(maxGap: int, room: Room, r: SubmitRequest)
    requires room.doc.Some? && Edits(maxGap, room, r)
  {
    var op, v, log := ParseRequest(r.operation).value, DocumentAt(room, r.baseVersion), room.applied[r.baseVersion..];
    var (next, reply) := Serve(true, maxGap, room, Submit(r));
    && reply.Done? && next.doc.Some? && reply.result.document == next.doc.value.doc
    && ApplyOperation(v, op).Ok? && CatchUp(op, log).Ok?
    && ApplyRun(ApplyOperation(v, op).value, CatchUp(op, log).value) == Ok(next.doc.value.doc)
  }

  lemma {:induction false} LogIsSingle(room: Room, base: nat)
    requires room.doc.Some? && Lively(room) && base <= |room.applied|
    ensures forall i :: 0 <= i < |room.applied[base..]| ==> |room.applied[base..][i]| == 1
  {
    forall i | 0 <= i < |room.applied[base..]| ensures |room.applied[base..][i]| == 1 {
      assert room.applied[base..][i] == room.applied[base + i];
    }
  }

  lemma {:induction false} EditIsConcurrent(maxGap: int, room: Room, r: SubmitRequest)
    requires room.doc.Some? && Ready(room) && Edits(maxGap, room, r)
    ensures Concurrent(room, r.baseVersion, ParseRequest(r.operation).value)
  {
    LivelyFrom(room, r.baseVersion);
    LogIsSingle(room, r.baseVersion);
  }

  lemma {:induction false} EditMeets(maxGap: int, room: Room, r: SubmitRequest)
    requires room.doc.Some? && Ready(room) && Edits(maxGap, room, r)
    ensures Meet(maxGap, room, r)
  {
    EditIsConcurrent(maxGap, room, r);
    WarmReads(room);
    ClientAndServerAgree(true, maxGap, room, r, ParseRequest(r.operation).value);
  }

  /** One more effective component. */
  lemma {:induction false} OneMoreLively(room: Room, op: Op)
    requires Folds(room) && Lively(room) && room.doc.Some?
    requires |op| == 1 && Effective(room.doc.value.doc, op[0])
    ensures var applied := room.applied + [op];
      (forall i :: 0 <= i < |applied| ==> |applied[i]| == 1) && EffectiveRun(room.initial, applied)
  {
    var one: seq<Op> := [op];
    assert |one[1..]| == 0;
    assert EffectiveRun(room.doc.value.doc, one);
    assert room.applied[..|room.applied|] == room.applied;
    EffectiveSplits(room.initial, room.applied, one);
  }

  lemma {:induction false} EndsEffective(v: Value, op: Op, log: seq<Op>, now: Value)
    requires |op| <= 1 && AllFitHere(v, op) && EffectiveRun(v, log) && StaysCurrent(op, log)
    requires (forall i :: 0 <= i < |log| ==> |log[i]| == 1) && ApplyRun(v, log) == Ok(now)
    requires forall i :: 0 <= i < |Out(RebaseOver(op, log))| ==>
      !IsEquivalentToNoop(Out(RebaseOver(op, log))[i]) && !Skipped(Out(RebaseOver(op, log))[i])
    ensures RebaseOver(op, log).Ok?
    ensures RebaseOver(op, log).value != [] ==>
      |RebaseOver(op, log).value| == 1 && Effective(now, RebaseOver(op, log).value[0])
  {
    RebasedApplies(v, op, log);
    var rebased := RebaseOver(op, log).value;
    assert Out(RebaseOver(op, log)) == rebased;
    if rebased != [] {
      assert Fits(now, rebased[0]) && !Skipped(Out(RebaseOver(op, log))[0]);
    }
  }

  lemma {:induction false} RebasedIsEffective(maxGap: int, room: Room, r: SubmitRequest)
    requires room.doc.Some? && Ready(room) && Edits(maxGap, room, r)
    ensures var rebased := RebaseOver(ParseRequest(r.operation).value, room.applied[r.baseVersion..]);
      rebased.Ok? && (rebased.value != [] ==> |rebased.value| == 1 && Effective(room.doc.value.doc, rebased.value[0]))
  {
    var op, log := ParseRequest(r.operation).value, room.applied[r.baseVersion..];
    EditIsConcurrent(maxGap, room, r);
    RunFromVersion(room, r.baseVersion);
    EndsEffective(DocumentAt(room, r.baseVersion), op, log, room.doc.value.doc);
  }

  /** What an edit commits is again one effective component. */
  lemma {:induction false} EditIsEffective(maxGap: int, room: Room, r: SubmitRequest)
    requires room.doc.Some? && Ready(room) && Edits(maxGap, room, r)
    ensures var decision := DecideSubmit(true, room.doc.value, room.cache, r, maxGap).0;
      decision.Write? ==> |decision.applied| == 1 && Effective(room.doc.value.doc, decision.applied[0])
  {
    EditIsConcurrent(maxGap, room, r);
    WarmReads(room);
    SubmitSucceeds(true, maxGap, room, r, ParseRequest(r.operation).value);
    RebasedIsEffective(maxGap, room, r);
  }

  /** A request that commits something commits an edit. */
  predicate Collaborates(maxGap: int, room: Room, request: Request) {
    room.doc.Some? && (request.Submit? || request.Rollback?)
      && Decide(true, maxGap, room.doc.value, room.cache, request).0.Write?
    ==> request.Submit? && Edits(maxGap, room, request.submission)
  }

  lemma {:induction false} FilledStaysWarm(room: Room, filled: VersionCache)
    requires room.doc.Some? && Warm(room) && FilledFrom(room.cache, filled, room.doc.value.ops)
    ensures Warm(room.(cache := filled))
  {
  }

  lemma {:induction false} WroteStaysWarm(room: Room, d: Doc, applied: Op, snapshot: Value, record: OpRecord)
    requires Numbered(d) && room.doc == Some(d) && Warm(room) && record.version == d.version + 1
    ensures Warm(Wrote(true, room, d, applied, snapshot, record))
  {
    var next := Wrote(true, room, d, applied, snapshot, record);
    forall i | 0 <= i < |d.ops| + 1
      ensures var v := next.doc.value.ops[i].version; v in next.cache && next.cache[v] == next.applied[i]
    {
      assert i < |d.ops| ==> next.doc.value.ops[i] == d.ops[i];
    }
  }

  lemma {:induction false} DecisionStaysWarm(maxGap: int, room: Room, request: Request)
    requires room.doc.Some? && Numbered(room.doc.value) && Warm(room) && (request.Submit? || request.Rollback?)
    ensures var (decision, filled) := Decide(true, maxGap, room.doc.value, room.cache, request);
      Warm(Settled(true, room.(cache := filled), room.doc.value, decision).0)
  {
    var d := room.doc.value;
    var (decision, filled) := Decide(true, maxGap, d, room.cache, request);
    DecideOnlyFills(true, maxGap, d, room.cache, request);
    FilledStaysWarm(room, filled);
    if decision.Write? {
      DecisionWrites(true, maxGap, d, room.cache, request);
      WroteStaysWarm(room.(cache := filled), d, decision.applied, decision.snapshot, decision.record);
    }
  }

  lemma {:induction false} ServeKeepsWarm(maxGap: int, room: Room, request: Request)
    requires Sound(room) && Warm(room)
    ensures Warm(Serve(true, maxGap, room, request).0)
  {
    if (request.Submit? || request.Rollback?) && room.doc.Some? {
      DecisionStaysWarm(maxGap, room, request);
    }
  }

  lemma {:induction false} AgreesUnlessRollback(maxGap: int, room: Room, request: Request)
    requires Collaborates(maxGap, room, request)
    ensures Agrees(true, maxGap, room, request)
  {
  }

  lemma {:induction false} ServeKeepsLively(maxGap: int, room: Room, request: Request)
    requires Ready(room) && Collaborates(maxGap, room, request)
    ensures Lively(Serve(true, maxGap, room, request).0)
  {
    if request.Submit? && room.doc.Some? {
      var decision := DecideSubmit(true, room.doc.value, room.cache, request.submission, maxGap).0;
      if decision.Write? {
        EditIsEffective(maxGap, room, request.submission);
        OneMoreLively(room, decision.applied);
      }
    }
  }

  /** Whatever is asked of a room, if what is committed are edits, every version is cached as applied and effective. */
  lemma {:induction false} ServeKeepsReady(maxGap: int, room: Room, request: Request)
    requires Ready(room) && Collaborates(maxGap, room, request)
    ensures Ready(Serve(true, maxGap, room, request).0)
  {
    ServeKeepsSound(true, maxGap, room, request);
    AgreesUnlessRollback(maxGap, room, request);
    ServeKeepsFolds(true, maxGap, room, request);
    ServeKeepsWarm(maxGap, room, request);
    ServeKeepsLively(maxGap, room, request);
  }

  /** Served in turn, the requests commit nothing but edits. */
  predicate AllCollaborate(maxGap: int, room: Room, requests: seq<Request>)
    decreases |requests|
  {
    requests == [] ||
    (var init := requests[..|requests| - 1];
     && AllCollaborate(maxGap, room, init)
     && Collaborates(maxGap, ServeAll(true, maxGap, room, init), requests[|requests| - 1]))
  }

  lemma {:induction false} ServeAllKeepsReady(maxGap: int, room: Room, requests: seq<Request>)
    requires Ready(room) && AllCollaborate(maxGap, room, requests)
    ensures Ready(ServeAll(true, maxGap, room, requests))
    decreases |requests|
  {
    if requests != [] {
      var init := requests[..|requests| - 1];
      ServeAllKeepsReady(maxGap, room, init);
      ServeKeepsReady(maxGap, ServeAll(true, maxGap, room, init), requests[|requests| - 1]);
    }
  }

  lemma {:induction false} CollaborateUpTo(maxGap: int, room: Room, requests: seq<Request>, n: nat)
    requires AllCollaborate(maxGap, room, requests) && n <= |requests|
    ensures AllCollaborate(maxGap, room, requests[..n])
    decreases |requests|
  {
    if n < |requests| {
      CollaborateUpTo(maxGap, room, requests[..|requests| - 1], n);
      assert requests[..|requests| - 1][..n] == requests[..n];
    } else {
      assert requests[..n] == requests;
    }
  }

  /** Whoever edits in a history of edits, creations and deletions ends with the document the server has. */
  lemma {:induction false} EveryClientMeets(maxGap: int, room: Room, requests: seq<Request>, i: nat)
    requires Ready(room) && AllCollaborate(maxGap, room, requests) && i < |requests| && requests[i].Submit?
    requires var now := ServeAll(true, maxGap, room, requests[..i]);
      now.doc.Some? && Edits(maxGap, now, requests[i].submission)
    ensures Meet(maxGap, ServeAll(true, maxGap, room, requests[..i]), requests[i].submission)
  {
    CollaborateUpTo(maxGap, room, requests, i);
    ServeAllKeepsReady(maxGap, room, requests[..i]);
    EditMeets(maxGap, ServeAll(true, maxGap, room, requests[..i]), requests[i].submission);
  }
}
