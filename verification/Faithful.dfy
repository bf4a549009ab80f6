/** The snapshot is the log folded over the initial document, at every version; what going back in it gives. */
module Faithful {
  import opened Json
  import opened Operators
  import opened Apply
  import opened ShareDb
  import opened Requests
  import opened Rebase
  import opened Serial
  import Collapse
  import Composition
  import History
  import Wire

  lemma {:induction false} RunSnoc(v: Value, log: seq<Op>, op: Op)
    ensures ApplyRun(v, log + [op]) ==
      (match ApplyRun(v, log) case Err(e) => Err(e) case Ok(w) => ApplyOperation(w, op))
    decreases |log|
  {
    if log == [] {
      assert ([] + [op])[0] == op && ([] + [op])[1..] == [];
    } else {
      assert (log + [op])[0] == log[0] && (log + [op])[1..] == log[1..] + [op];
      var w := ApplyOperation(v, log[0]);
      if w.Ok? {
        RunSnoc(w.value, log[1..], op);
      }
    }
  }

  /** The document as it was published with a version. */
  function DocumentAt(room: Room, version: nat): Value
    requires version > 0 ==> room.past + version <= |room.feed|
  {
    if version == 0 then room.initial else room.feed[room.past + version - 1].document
  }

  /** At every version, the applied operations up to it lead from the initial document to the published one. */
  predicate Folds(room: Room) {
    room.doc.Some? ==>
      && |room.feed| == room.past + |room.applied|
      && (forall i :: 0 <= i <= |room.applied| ==> ApplyRun(room.initial, room.applied[..i]) == Ok(DocumentAt(room, i)))
      && room.doc.value.doc == DocumentAt(room, |room.applied|)
  }

  /** A rollback logs an operation that leads to the document it stores. */
  predicate Agrees(named: bool, maxGap: int, room: Room, request: Request) {
    request.Rollback? && room.doc.Some? ==>
      var decision := Decide(named, maxGap, room.doc.value, room.cache, request).0;
      decision.Write? ==> ApplyOperation(room.doc.value.doc, decision.applied) == Ok(decision.snapshot)
  }

  lemma {:induction false} WroteFolds(named: bool, room: Room, d: Doc, applied: Op, snapshot: Value, record: OpRecord)
    requires Folds(room) && room.doc == Some(d) && ApplyOperation(d.doc, applied) == Ok(snapshot)
    ensures Folds(Wrote(named, room, d, applied, snapshot, record))
  {
    var next := Wrote(named, room, d, applied, snapshot, record);
    var n := |room.applied|;
    forall i | 0 <= i <= n + 1
      ensures ApplyRun(next.initial, next.applied[..i]) == Ok(DocumentAt(next, i))
    {
      if i <= n {
        assert next.applied[..i] == room.applied[..i];
        assert DocumentAt(next, i) == DocumentAt(room, i);
      } else {
        assert next.applied[..i] == room.applied + [applied] && room.applied[..n] == room.applied;
        RunSnoc(room.initial, room.applied, applied);
      }
    }
  }

  lemma {:induction false} FilledFolds(room: Room, filled: VersionCache)
    requires Folds(room)
    ensures Folds(room.(cache := filled))
  {
    var r := room.(cache := filled);
    if room.doc.Some? {
      assert forall i :: 0 <= i <= |room.applied| ==> DocumentAt(r, i) == DocumentAt(room, i);
    }
  }

  lemma {:induction false} CreatedFolds(room: Room, initial: Value)
    ensures Folds(CreateDoc(room, initial))
  {
    assert CreateDoc(room, initial).applied[..0] == [];
  }

  /** What a decision writes leads from the snapshot to the new one, for a rollback when its operation agrees. */
  lemma {:induction false} DecisionApplies(named: bool, maxGap: int, room: Room, request: Request)
    requires Sound(room) && room.doc.Some? && (request.Submit? || request.Rollback?)
    requires Agrees(named, maxGap, room, request) && Decide(named, maxGap, room.doc.value, room.cache, request).0.Write?
    ensures var w := Decide(named, maxGap, room.doc.value, room.cache, request).0;
      ApplyOperation(room.doc.value.doc, w.applied) == Ok(w.snapshot)
  {
    if request.Submit? {
      SubmitWrites(named, maxGap, room.doc.value, room.cache, request.submission);
    }
  }

  lemma {:induction false} DecisionFolds(named: bool, maxGap: int, room: Room, request: Request)
    requires Sound(room) && Folds(room) && Agrees(named, maxGap, room, request)
    requires room.doc.Some? && (request.Submit? || request.Rollback?)
    ensures var (decision, filled) := Decide(named, maxGap, room.doc.value, room.cache, request);
      Folds(Settled(named, room.(cache := filled), room.doc.value, decision).0)
  {
    var d := room.doc.value;
    var (decision, filled) := Decide(named, maxGap, d, room.cache, request);
    FilledFolds(room, filled);
    if decision.Write? {
      DecisionApplies(named, maxGap, room, request);
      WroteFolds(named, room.(cache := filled), d, decision.applied, decision.snapshot, decision.record);
    }
  }

  /** Every request keeps the snapshot the fold of what was applied, a rollback when its operation agrees. */
  lemma {:induction false} ServeKeepsFolds(named: bool, maxGap: int, room: Room, request: Request)
    requires Sound(room) && Folds(room) && Agrees(named, maxGap, room, request)
    ensures Folds(Serve(named, maxGap, room, request).0)
  {
    match request
    case Create(initial) =>
      if room.doc.None? {
        CreatedFolds(room, Serve(named, maxGap, room, request).1.document);
      }
    case Delete(_, _) =>
    case _ =>
      if room.doc.Some? {
        DecisionFolds(named, maxGap, room, request);
      }
  }

  predicate AllAgree(named: bool, maxGap: int, room: Room, requests: seq<Request>)
    decreases |requests|
  {
    requests == [] ||
    (var init := requests[..|requests| - 1];
     AllAgree(named, maxGap, room, init)
     && Agrees(named, maxGap, ServeAll(named, maxGap, room, init), requests[|requests| - 1]))
  }

  /** Serial history: after any requests, the snapshot is the fold of everything applied. */
  lemma {:induction false} ServeAllKeepsFolds(named: bool, maxGap: int, room: Room, requests: seq<Request>)
    requires Sound(room) && Folds(room) && AllAgree(named, maxGap, room, requests)
    ensures Folds(ServeAll(named, maxGap, room, requests))
    decreases |requests|
  {
    if requests != [] {
      var init := requests[..|requests| - 1];
      ServeAllKeepsFolds(named, maxGap, room, init);
      ServeAllKeepsSound(named, maxGap, room, init);
      ServeKeepsFolds(named, maxGap, ServeAll(named, maxGap, room, init), requests[|requests| - 1]);
    }
  }

  // ---- The parsed log -----------------------------------------------------------------------------------

  /** Logged operations, each from the cache when it is there and parsed otherwise. */
  function LookupAll(cache: VersionCache, ops: seq<OpRecord>): Result<seq<Op>> {
    if ops == [] then Ok([])
    else
      var first :- Lookup(cache, ops[0]);
      var rest :- LookupAll(cache, ops[1..]);
      Ok([first] + rest)
  }

  /** A printable operation applied at a version is what its record gives back, up to the names of subtypes. */
  lemma {:induction false} RecordGivesBack(cache: VersionCache, d: Doc, applied: seq<Op>, i: nat)
    requires Numbered(d) && Records(d, applied) && Backed(cache, d, applied) && i < |applied|
    requires Wire.AllPrintable(applied[i]) && ValidationError(applied[i]).None?
    ensures Lookup(cache, d.ops[i]) == Ok(applied[i]) || Lookup(cache, d.ops[i]) == Ok(Wire.RenamedAll(applied[i]))
    ensures forall v :: ApplyOperation(v, Lookup(cache, d.ops[i]).value) == ApplyOperation(v, applied[i])
  {
    Wire.OperationRoundTrip(applied[i]);
    Wire.RenamedValidates(applied[i]);
    forall v ensures ApplyOperation(v, Lookup(cache, d.ops[i]).value) == ApplyOperation(v, applied[i]) {
      Wire.RenamedAllApply(v, applied[i]);
    }
  }

  lemma {:induction false} RenamedTwice(cs: Op)
    ensures Wire.RenamedAll(Wire.RenamedAll(cs)) == Wire.RenamedAll(cs)
    decreases |cs|
  {
    if cs != [] {
      RenamedTwice(cs[1..]);
      var r := Wire.RenamedAll(cs);
      assert r[1..] == Wire.RenamedAll(cs[1..]);
    }
  }

  /** What is cached for a version is what its record parses to, up to the names of subtypes. */
  lemma {:induction false} CachedRefines(cache: VersionCache, d: Doc, applied: seq<Op>, version: int)
    requires |applied| == |d.ops| && Records(d, applied) && Backed(cache, d, applied) && version in cache
    requires 1 <= version <= |applied|
    requires Wire.AllPrintable(applied[version - 1]) && ValidationError(applied[version - 1]).None?
    ensures Wire.ParseOperation(d.ops[version - 1].op) == Ok(Wire.RenamedAll(cache[version]))
  {
    Wire.OperationRoundTrip(applied[version - 1]);
    RenamedTwice(applied[version - 1]);
  }

  lemma {:induction false} FoldsFrom(cache: VersionCache, d: Doc, applied: seq<Op>, v: Value, k: nat)
    requires Numbered(d) && Records(d, applied) && Backed(cache, d, applied) && k <= |applied|
    requires forall i :: k <= i < |applied| ==> Wire.AllPrintable(applied[i])
    requires ApplyRun(v, applied[k..]).Ok?
    ensures LookupAll(cache, d.ops[k..]).Ok?
    ensures ApplyRun(v, LookupAll(cache, d.ops[k..]).value) == ApplyRun(v, applied[k..])
    decreases |applied| - k
  {
    if k < |applied| {
      assert applied[k..][0] == applied[k] && applied[k..][1..] == applied[k + 1..];
      assert d.ops[k..][0] == d.ops[k] && d.ops[k..][1..] == d.ops[k + 1..];
      RecordGivesBack(cache, d, applied, k);
      var w := ApplyOperation(v, applied[k]).value;
      FoldsFrom(cache, d, applied, w, k + 1);
      var log := LookupAll(cache, d.ops[k..]).value;
      assert log[0] == Lookup(cache, d.ops[k]).value && log[1..] == LookupAll(cache, d.ops[k + 1..]).value;
    }
  }

  /** The snapshot is also the fold of the log as it is read back, through the cache or by parsing alone. */
  lemma {:induction false} SnapshotIsFoldedLog(room: Room, cache: VersionCache)
    requires Sound(room) && Folds(room) && room.doc.Some?
    requires cache == room.cache || cache == map[]
    requires forall i :: 0 <= i < |room.applied| ==> Wire.AllPrintable(room.applied[i])
    ensures var d := room.doc.value;
      LookupAll(cache, d.ops).Ok? && ApplyRun(room.initial, LookupAll(cache, d.ops).value) == Ok(d.doc)
  {
    var d := room.doc.value;
    assert room.applied[0..] == room.applied == room.applied[..|room.applied|] && d.ops[0..] == d.ops;
    FoldsFrom(cache, d, room.applied, room.initial, 0);
  }

  // ---- Going back ---------------------------------------------------------------------------------------

  /** The operations the log reads back as. */
  predicate ReadsAs(cache: VersionCache, d: Doc, log: seq<Op>) {
    |log| == |d.ops| && forall i :: 0 <= i < |log| ==> Lookup(cache, d.ops[i]) == Ok(log[i])
  }

  function Oks(log: seq<Op>): seq<Result<Op>> {
    seq(|log|, i requires 0 <= i < |log| => Ok(log[i]))
  }

  /** Reading part of the log backwards gives the operations it reads back as, backwards. */
  lemma {:induction false} ReadsBackwards(cache: VersionCache, d: Doc, log: seq<Op>, from: nat)
    requires Numbered(d) && ReadsAs(cache, d, log) && from <= |log|
    ensures Looks(cache, Reversed(d.ops[from..d.version])) == Oks(Reversed(log[from..]))
  {
  }

  lemma {:induction false} OksStep(log: seq<Op>)
    requires log != []
    ensures var oks := Oks(Reversed(log)); oks[0] == Ok(log[|log| - 1]) && oks[1..] == Oks(Reversed(log[..|log| - 1]))
  {
  }

  lemma {:induction false} UndoAllFolds(v: Value, log: seq<Op>)
    ensures History.UndoAll(v, log) == Fold(Undone, v, Oks(Reversed(log)))
    decreases |log|
  {
    if log != [] {
      OksStep(log);
      var w := Undone(v, log[|log| - 1]);
      if w.Ok? {
        UndoAllFolds(w.value, log[..|log| - 1]);
      }
    }
  }

  lemma {:induction false} RollBackFolds(acc: Op, v: Value, log: seq<Op>)
    ensures History.RollBack(acc, v, log) == Fold<(Op, Value)>(RolledBack, (acc, v), Oks(Reversed(log)))
    decreases |log|
  {
    if log != [] {
      OksStep(log);
      var t := RolledBack((acc, v), log[|log| - 1]);
      if t.Ok? {
        RollBackFolds(t.value.0, t.value.1, log[..|log| - 1]);
      }
    }
  }

  lemma {:induction false} GoodLogStep(v: Value, log: seq<Op>, i: nat)
    requires i < |log| && History.GoodLog(v, log)
    ensures ApplyOperation(History.Replay(v, log[..i]), log[i]) == Ok(History.Replay(v, log[..i + 1]))
  {
    var u := History.Replay(v, log[..i]);
    assert History.GoodAt(v, log, i);
    History.AllWorkDo(u, log[i]);
    Composition.AllApply(u, log[i]);
    assert log[..i + 1][..i] == log[..i];
  }

  /** A run goes through any documents that each operation leads one to the next. */
  lemma {:induction false} RunThrough(v: Value, log: seq<Op>, docs: seq<Value>, k: nat)
    requires |docs| == |log| + 1 && docs[0] == v && k <= |log|
    requires forall i :: 0 <= i < |log| ==> ApplyOperation(docs[i], log[i]) == Ok(docs[i + 1])
    ensures ApplyRun(v, log[..k]) == Ok(docs[k])
    decreases k
  {
    if k > 0 {
      RunThrough(v, log, docs, k - 1);
      RunSnoc(v, log[..k - 1], log[k - 1]);
      assert log[..k] == log[..k - 1] + [log[k - 1]];
    }
  }

  lemma {:induction false} GoodLogReplays(v: Value, log: seq<Op>, k: nat)
    requires History.GoodLog(v, log) && k <= |log|
    ensures ApplyRun(v, log[..k]) == Ok(History.Replay(v, log[..k]))
  {
    var docs := seq(|log| + 1, i requires 0 <= i <= |log| => History.Replay(v, log[..i]));
    forall i | 0 <= i < |log| ensures ApplyOperation(docs[i], log[i]) == Ok(docs[i + 1]) {
      GoodLogStep(v, log, i);
    }
    RunThrough(v, log, docs, k);
  }

  /** The log of a room can be inverted: everything applied prints, and what the log reads back as worked where it
      was applied and is invertible. */
  predicate CanGoBack(room: Room, log: seq<Op>) {
    && Sound(room) && Folds(room) && room.doc.Some?
    && (forall i :: 0 <= i < |room.applied| ==> Wire.AllPrintable(room.applied[i]))
    && ReadsAs(room.cache, room.doc.value, log) && History.GoodLog(room.initial, log)
  }

  /** Operations that do where they are applied what others do. */
  lemma {:induction false} PrefixesMeet(v: Value, applied: seq<Op>, log: seq<Op>, k: nat)
    requires |log| == |applied| && k <= |log| && ApplyRun(v, applied[..k]).Ok?
    requires forall i, w :: 0 <= i < |log| && ApplyOperation(w, applied[i]).Ok? ==>
      ApplyOperation(w, log[i]) == ApplyOperation(w, applied[i])
    ensures ApplyRun(v, log[..k]) == ApplyRun(v, applied[..k])
    decreases k
  {
    if k > 0 {
      assert log[..k] == log[..k - 1] + [log[k - 1]] && applied[..k] == applied[..k - 1] + [applied[k - 1]];
      RunSnoc(v, log[..k - 1], log[k - 1]);
      RunSnoc(v, applied[..k - 1], applied[k - 1]);
      PrefixesMeet(v, applied, log, k - 1);
    }
  }

  lemma {:induction false} ReadsSame(cache: VersionCache, d: Doc, applied: seq<Op>, log: seq<Op>, i: nat, v: Value)
    requires Numbered(d) && Records(d, applied) && Backed(cache, d, applied) && ReadsAs(cache, d, log) && i < |log|
    requires Wire.AllPrintable(applied[i]) && ApplyOperation(v, applied[i]).Ok?
    ensures ApplyOperation(v, log[i]) == ApplyOperation(v, applied[i])
  {
    RecordGivesBack(cache, d, applied, i);
  }

  /** Replaying what the log reads back as gives, at every version, the document published with it. */
  lemma {:induction false} ReadsBackTo(room: Room, log: seq<Op>, version: nat)
    requires CanGoBack(room, log) && version <= |log|
    ensures History.Replay(room.initial, log[..version]) == DocumentAt(room, version)
  {
    GoodLogReplays(room.initial, log, version);
    forall i, w | 0 <= i < |log| && ApplyOperation(w, room.applied[i]).Ok?
      ensures ApplyOperation(w, log[i]) == ApplyOperation(w, room.applied[i])
    {
      ReadsSame(room.cache, room.doc.value, room.applied, log, i, w);
    }
    PrefixesMeet(room.initial, room.applied, log, version);
  }

  lemma {:induction false} FoldsBack(cache: VersionCache, d: Doc, log: seq<Op>, target: nat, v: Value)
    requires Numbered(d) && ReadsAs(cache, d, log) && target <= |log|
    ensures Fold<(Op, Value)>(RolledBack, ([], v), Looks(cache, Reversed(d.ops[target..d.version])))
      == History.RollBack([], v, log[target..])
    ensures Fold(Undone, v, Looks(cache, Reversed(d.ops[target..d.version]))) == History.UndoAll(v, log[target..])
  {
    ReadsBackwards(cache, d, log, target);
    RollBackFolds([], v, log[target..]);
    UndoAllFolds(v, log[target..]);
  }

  lemma {:induction false} SnapshotWalks(named: bool, d: Doc, cache: VersionCache, version: nat)
    requires Numbered(d) && version < d.version
    ensures SnapshotAt(named, d, cache, version).0
      == Fold(Undone, d.doc, Looks(cache, Reversed(d.ops[version..d.version])))
  {
  }

  /** A historical snapshot is what undoing the log down to the version gives. */
  lemma {:induction false} SnapshotIsUndoing(named: bool, room: Room, log: seq<Op>, version: nat)
    requires CanGoBack(room, log) && version <= |log|
    ensures SnapshotAt(named, room.doc.value, room.cache, version).0
      == History.UndoAll(History.Replay(room.initial, log), log[version..])
  {
    var d := room.doc.value;
    ReadsBackTo(room, log, |log|);
    assert log[..|log|] == log;
    if version < d.version {
      SnapshotWalks(named, d, room.cache, version);
      FoldsBack(room.cache, d, log, version, d.doc);
    } else {
      assert log[version..] == [];
    }
  }

  /** Historical snapshots are exactly the documents published with their versions, from a version on, if and only if
      appending the inverses of each operation logged since keeps their meaning. */
  lemma {:induction false} SnapshotAtIsPublished(named: bool, room: Room, log: seq<Op>, from: nat)
    requires CanGoBack(room, log) && from <= |log|
    ensures (forall version: nat :: from <= version <= |log| ==>
               SnapshotAt(named, room.doc.value, room.cache, version).0 == Ok(DocumentAt(room, version)))
      <==> History.EachUndoes(room.initial, log, from)
  {
    forall version: nat | from <= version <= |log|
      ensures SnapshotAt(named, room.doc.value, room.cache, version).0
        == History.UndoAll(History.Replay(room.initial, log), log[version..])
      ensures History.Replay(room.initial, log[..version]) == DocumentAt(room, version)
    {
      SnapshotIsUndoing(named, room, log, version);
      ReadsBackTo(room, log, version);
    }
    History.TimeTravel(room.initial, log, from);
  }

  lemma {:induction false} RollbackWalks(named: bool, d: Doc, cache: VersionCache, target: nat, source: string)
    requires Numbered(d) && target < d.version
    ensures var r := Fold<(Op, Value)>(RolledBack, ([], d.doc), Looks(cache, Reversed(d.ops[target..d.version])));
      var decision := DecideRollback(named, d, cache, target, source).0;
      && (decision.Write? <==> r.Ok? && ValidationError(r.value.0).None?)
      && (decision.Write? ==> decision.applied == r.value.0 && decision.snapshot == r.value.1)
  {
  }

  /** A rollback is written when the log can be undone, with the document that leads to and the composed inverse. */
  lemma {:induction false} RollbackIsUndoing(named: bool, room: Room, log: seq<Op>, target: nat, source: string)
    requires CanGoBack(room, log) && target < |log|
    ensures var now := History.Replay(room.initial, log);
      var undone, r := History.UndoAll(now, log[target..]), History.RollBack([], now, log[target..]);
      var decision := DecideRollback(named, room.doc.value, room.cache, target, source).0;
      && room.doc.value.doc == now && (decision.Write? <==> undone.Ok?) && (undone.Ok? <==> r.Ok?)
      && (decision.Write? ==>
            decision.snapshot == undone.value == r.value.1 && decision.applied == r.value.0)
  {
    var d := room.doc.value;
    ReadsBackTo(room, log, |log|);
    assert log[..|log|] == log;
    FoldsBack(room.cache, d, log, target, d.doc);
    RollbackWalks(named, d, room.cache, target, source);
    History.RollBackUndoes([], d.doc, log[target..]);
  }

  predicate StoresTarget(named: bool, room: Room, target: nat, source: string)
    requires Folds(room) && room.doc.Some? && target <= |room.applied|
  {
    var decision := DecideRollback(named, room.doc.value, room.cache, target, source).0;
    decision.Write? && decision.snapshot == DocumentAt(room, target)
  }

  /** Rollbacks to every version from one on store the document published with it if and only if appending the
      inverses of each operation logged since keeps their meaning. */
  lemma {:induction false} RollbackReachesTarget(named: bool, room: Room, log: seq<Op>, from: nat, source: string)
    requires CanGoBack(room, log) && from <= |log|
    ensures (forall target: nat {:trigger StoresTarget(named, room, target, source)} ::
               from <= target < |log| ==> StoresTarget(named, room, target, source))
      <==> History.EachUndoes(room.initial, log, from)
  {
    var now := History.Replay(room.initial, log);
    forall target: nat | from <= target < |log|
      ensures StoresTarget(named, room, target, source)
        <==> History.UndoAll(now, log[target..]) == Ok(History.Replay(room.initial, log[..target]))
    {
      RollbackIsUndoing(named, room, log, target, source);
      ReadsBackTo(room, log, target);
    }
    assert log[|log|..] == [] && log[..|log|] == log;
    History.TimeTravel(room.initial, log, from);
  }

  /** What a rollback answers: at the current version that version and document, with nothing written; otherwise, when
      it is written, the new version, the operation as logged and the document as stored. */
  lemma {:induction false} RollbackAnswers(named: bool, maxGap: int, room: Room, target: int, source: string)
    requires Sound(room) && room.doc.Some?
    ensures var d := room.doc.value;
      var (next, reply) := Serve(named, maxGap, room, Rollback(target, source));
      && (target == d.version ==>
            next == room && reply == Done(SubmitResult(d.version, false, false, Arr([]), d.doc)))
      && (DecideRollback(named, d, room.cache, target, source).0.Write? ==>
            && next.doc.Some? && next.doc.value.version == d.version + 1 == |next.doc.value.ops|
            && next.doc.value.ops[..d.version] == d.ops
            && reply == Done(SubmitResult(d.version + 1, false, false, next.doc.value.ops[d.version].op,
                                          next.doc.value.doc)))
  {
    var d := room.doc.value;
    if DecideRollback(named, d, room.cache, target, source).0.Write? {
      RollbackWrites(named, d, room.cache, target, source);
    }
  }

  /** The caller of a rollback is answered, and the feed is told, the document published with the target version, when
      appending the inverses of each operation undone keeps their meaning. */
  lemma {:induction false} RollbackAnswersTarget(named: bool, maxGap: int, room: Room, log: seq<Op>, target: nat,
      source: string)
    requires CanGoBack(room, log) && target < |log| && History.EachUndoes(room.initial, log, target)
    ensures var (next, reply) := Serve(named, maxGap, room, Rollback(target, source));
      && reply.Done? && reply.result.version == |log| + 1 && reply.result.document == DocumentAt(room, target)
      && next.doc.Some? && next.doc.value.doc == DocumentAt(room, target)
      && |next.feed| == |room.feed| + 1 && DocumentAt(next, |log| + 1) == DocumentAt(room, target)
  {
    RollbackReachesTarget(named, room, log, target, source);
    assert StoresTarget(named, room, target, source);
    RollbackAnswers(named, maxGap, room, target, source);
  }

  /** When nothing is lost within the operations undone, the one operation a rollback logs leads from the old snapshot
      to the stored one if and only if composing the inverses keeps their meaning. */
  lemma {:induction false} RollbackLogsWhatItDoes(named: bool, room: Room, log: seq<Op>, target: nat, source: string)
    requires CanGoBack(room, log) && target < |log| && History.EachLosesNothing(room.initial, log, target)
    ensures var d := room.doc.value;
      var decision := DecideRollback(named, d, room.cache, target, source).0;
      && decision.Write? && decision.snapshot == DocumentAt(room, target)
      && (ApplyOperation(d.doc, decision.applied) == Ok(decision.snapshot)
          <==> Collapse.Keeps(d.doc, [], History.AllInverses(log[target..])))
  {
    History.EachLosesNothingUndoes(room.initial, log, target);
    History.RollBackAgrees(room.initial, log, target);
    History.RollBackUndoes([], History.Replay(room.initial, log), log[target..]);
    RollbackIsUndoing(named, room, log, target, source);
    ReadsBackTo(room, log, target);
  }
}
