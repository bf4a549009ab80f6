/** What every request keeps: a numbered log, a snapshot that is the log folded over the initial document, a cache
    backed by the log, and a feed that tells the log. */
module Serial {
  import opened Json
  import opened Operators
  import opened Apply
  import opened ShareDb
  import opened Requests
  import opened Rebase
  import Wire

  /** Log entry i produced version i + 1 from an earlier base version. */
  predicate Numbered(d: Doc) {
    d.version == |d.ops| && forall i :: 0 <= i < |d.ops| ==> d.ops[i].version == i + 1 && 0 <= d.ops[i].baseVersion <= i
  }

  /** The log holds the printed form of what was applied. */
  predicate Records(d: Doc, applied: seq<Op>) {
    |applied| == |d.ops| && forall i :: 0 <= i < |applied| ==> d.ops[i].op == Wire.PrintAll(applied[i])
  }

  /** No identity that retries are recognised by was logged twice. */
  predicate DistinctIdentities(ops: seq<OpRecord>) {
    forall i, j :: 0 <= i < j < |ops| && Identifies(RecordId(ops[i])) ==> RecordId(ops[i]) != RecordId(ops[j])
  }

  /** A cached operation is the one applied at its version or the one its record parses to. */
  predicate Backed(cache: VersionCache, d: Doc, applied: seq<Op>)
    requires |applied| == |d.ops|
  {
    forall v :: v in cache ==>
      1 <= v <= |d.ops| && (cache[v] == applied[v - 1] || Wire.ParseOperation(d.ops[v - 1].op) == Ok(cache[v]))
  }

  /** The version before an event, counted from the last deletion. */
  function VersionBefore(feed: seq<Event>, i: nat): int
    requires i <= |feed|
  {
    if i == 0 || feed[i - 1].kind.Deleted? then 0 else feed[i - 1].version
  }

  /** Commits count up from 1 within each lifetime of the document; a deletion carries the last version. */
  predicate InOrder(feed: seq<Event>) {
    forall i {:trigger VersionBefore(feed, i)} :: 0 <= i < |feed| ==>
      feed[i].version == VersionBefore(feed, i) + (if feed[i].kind.Committed? then 1 else 0)
  }

  /** The event tells of a logged operation: its version, its sender, and the operation as it was logged. */
  predicate Tells(e: Event, r: OpRecord) {
    && e.kind.Committed? && e.version == r.version && e.operation == Some(r.op)
    && e.id == r.id && e.source == r.source && e.sequence == r.sequence
  }

  /** Since the document was created, the feed tells of the log, one event for every entry so far published. */
  predicate Heard(feed: seq<Event>, past: nat, d: Doc) {
    && past <= |feed| <= past + |d.ops|
    && forall i :: past <= i < |feed| ==> Tells(feed[i], d.ops[i - past])
  }

  /** Since the document was created, exactly the log was published. */
  predicate Told(feed: seq<Event>, past: nat, d: Doc) {
    Heard(feed, past, d) && |feed| == past + |d.ops| && VersionBefore(feed, past) == 0
  }

  /** The stored log, what was applied and what was published tell one story. */
  predicate OneStory(doc: Option<Doc>, applied: seq<Op>, feed: seq<Event>, past: nat) {
    && InOrder(feed)
    && match doc
       case None => VersionBefore(feed, |feed|) == 0
       case Some(d) => Numbered(d) && Records(d, applied) && DistinctIdentities(d.ops) && Told(feed, past, d)
  }

  /** The cache is backed by the log, and empty without a document. */
  predicate CacheSound(doc: Option<Doc>, applied: seq<Op>, cache: VersionCache) {
    match doc
    case None => cache == map[]
    case Some(d) => |applied| == |d.ops| && Backed(cache, d, applied)
  }

  /** What holds of a room between requests. */
  predicate Sound(room: Room) {
    OneStory(room.doc, room.applied, room.feed, room.past) && CacheSound(room.doc, room.applied, room.cache)
  }

  // ---- Cache fills --------------------------------------------------------------------------------------

  /** The second cache has what the first has, and beyond that only parsed log records. */
  predicate FilledFrom(cache: VersionCache, filled: VersionCache, ops: seq<OpRecord>) {
    && (forall v :: v in cache ==> v in filled && filled[v] == cache[v])
    && (forall v :: v in filled ==>
          v in cache || (1 <= v <= |ops| && Wire.ParseOperation(ops[v - 1].op) == Ok(filled[v])))
  }

  lemma {:induction false} LookupFills(named: bool, d: Doc, cache: VersionCache, i: nat)
    requires Numbered(d) && i < |d.ops|
    ensures FilledFrom(cache, Filled(named, cache, d.ops[i]), d.ops)
  {
  }

  lemma {:induction false} FillsCompose(a: VersionCache, b: VersionCache, c: VersionCache, ops: seq<OpRecord>)
    requires FilledFrom(a, b, ops) && FilledFrom(b, c, ops)
    ensures FilledFrom(a, c, ops)
  {
  }

  /** The records are records of the document's log. */
  predicate AllLogged(d: Doc, ops: seq<OpRecord>) {
    forall i :: 0 <= i < |ops| ==> 1 <= ops[i].version <= |d.ops| && ops[i] == d.ops[ops[i].version - 1]
  }

  lemma {:induction false} WalkOnlyFills(named: bool, d: Doc, cache: VersionCache, ops: seq<OpRecord>)
    requires Numbered(d) && AllLogged(d, ops)
    ensures FilledFrom(cache, FilledOver(named, cache, ops), d.ops)
    decreases |ops|
  {
    if ops != [] {
      var filled := Filled(named, cache, ops[0]);
      LookupFills(named, d, cache, ops[0].version - 1);
      WalkOnlyFills(named, d, filled, ops[1..]);
      FillsCompose(cache, filled, FilledOver(named, filled, ops[1..]), d.ops);
    }
  }

  lemma {:induction false} SliceIsLogged(d: Doc, from: nat, end: nat, n: nat)
    requires Numbered(d) && from <= end <= |d.ops| && n <= end - from
    ensures AllLogged(d, d.ops[from..end][..n])
  {
    var ops := d.ops[from..end][..n];
    forall i | 0 <= i < |ops| ensures 1 <= ops[i].version <= |d.ops| && ops[i] == d.ops[ops[i].version - 1] {
      assert ops[i] == d.ops[from + i];
    }
  }

  lemma {:induction false} BackwardsIsLogged(d: Doc, from: nat, end: nat, n: nat)
    requires Numbered(d) && from <= end <= |d.ops| && n <= end - from
    ensures AllLogged(d, Reversed(d.ops[from..end])[..n])
  {
    var ops := Reversed(d.ops[from..end])[..n];
    forall i | 0 <= i < |ops| ensures 1 <= ops[i].version <= |d.ops| && ops[i] == d.ops[ops[i].version - 1] {
      assert ops[i] == d.ops[from..end][end - from - 1 - i] == d.ops[end - 1 - i];
    }
  }

  lemma {:induction false} RebaseOnlyFills(named: bool, maxGap: int, d: Doc, cache: VersionCache, r: SubmitRequest,
      op: Op)
    requires Numbered(d) && 0 <= r.baseVersion <= d.version
    ensures FilledFrom(cache, DecideParsed(named, d, cache, r, op, maxGap).1, d.ops)
  {
    var ops := d.ops[r.baseVersion..d.version];
    var n := Reached(Rebased, op, Looks(cache, ops));
    SliceIsLogged(d, r.baseVersion, d.version, n);
    WalkOnlyFills(named, d, cache, ops[..n]);
  }

  lemma {:induction false} RollbackOnlyFills(named: bool, d: Doc, cache: VersionCache, target: int, source: string)
    requires Numbered(d)
    ensures FilledFrom(cache, DecideRollback(named, d, cache, target, source).1, d.ops)
  {
    if 0 <= target < d.version {
      var ops := Reversed(d.ops[target..d.version]);
      var n := Reached<(Op, Value)>(RolledBack, ([], d.doc), Looks(cache, ops));
      BackwardsIsLogged(d, target, d.version, n);
      WalkOnlyFills(named, d, cache, ops[..n]);
    }
  }

  /** A decision only fills the cache. */
  lemma {:induction false} DecideOnlyFills(named: bool, maxGap: int, d: Doc, cache: VersionCache, request: Request)
    requires Numbered(d) && (request.Submit? || request.Rollback?)
    ensures FilledFrom(cache, Decide(named, maxGap, d, cache, request).1, d.ops)
  {
    match request
    case Submit(r) =>
      var op := ParseRequest(r.operation);
      if op.Ok? && 0 <= r.baseVersion <= d.version {
        RebaseOnlyFills(named, maxGap, d, cache, r, op.value);
      }
    case Rollback(target, source) => RollbackOnlyFills(named, d, cache, target, source);
  }

  /** Filling neither unbacks the cache nor changes what any lookup gives. */
  lemma {:induction false} FillsAreInvisible(cache: VersionCache, filled: VersionCache, d: Doc, applied: seq<Op>)
    requires Numbered(d) && Records(d, applied) && Backed(cache, d, applied) && FilledFrom(cache, filled, d.ops)
    ensures Backed(filled, d, applied)
    ensures forall i :: 0 <= i < |d.ops| ==> Lookup(filled, d.ops[i]) == Lookup(cache, d.ops[i])
  {
  }

  /** What was looked up for a document with an ID is cached from then on. */
  lemma {:induction false} LookupsAreCached(cache: VersionCache, ops: seq<OpRecord>)
    requires forall i :: 0 <= i < |ops| ==> ops[i].version > 0 && Lookup(cache, ops[i]).Ok?
    ensures var filled := FilledOver(true, cache, ops);
      && (forall v :: v in cache ==> v in filled && filled[v] == cache[v])
      && (forall i :: 0 <= i < |ops| ==> ops[i].version in filled)
    decreases |ops|
  {
    if ops != [] {
      var next := Filled(true, cache, ops[0]);
      LookupsAreCached(next, ops[1..]);
      forall i | 0 <= i < |ops| ensures ops[i].version in FilledOver(true, cache, ops) {
        assert i > 0 ==> ops[i] == ops[1..][i - 1];
      }
    }
  }

  lemma {:induction false} FoldReadsAll<T>(step: (T, Op) -> Result<T>, t: T, looks: seq<Result<Op>>)
    requires Fold(step, t, looks).Ok?
    ensures Reached(step, t, looks) == |looks| && forall i :: 0 <= i < |looks| ==> looks[i].Ok?
    decreases |looks|
  {
    if looks != [] {
      FoldReadsAll(step, step(t, looks[0].value).value, looks[1..]);
      assert forall i :: 1 <= i < |looks| ==> looks[i] == looks[1..][i - 1];
    }
  }

  /** When rebasing, undoing or rolling back comes to an end, every operation it took is cached. */
  lemma {:induction false} WalkCachesAll<T>(step: (T, Op) -> Result<T>, t: T, cache: VersionCache, ops: seq<OpRecord>)
    requires Walk(step, t, true, cache, ops).0.Ok? && forall i :: 0 <= i < |ops| ==> ops[i].version > 0
    ensures forall i :: 0 <= i < |ops| ==> ops[i].version in Walk(step, t, true, cache, ops).1
  {
    var looks := Looks(cache, ops);
    FoldReadsAll(step, t, looks);
    assert ops[..|ops|] == ops;
    forall i | 0 <= i < |ops| ensures Lookup(cache, ops[i]).Ok? {
      assert looks[i].Ok?;
    }
    LookupsAreCached(cache, ops);
  }

  // ---- What a decision writes ---------------------------------------------------------------------------

  /** A written record has the next version, an earlier base, prints what was applied, and a new identity. */
  predicate Writes(d: Doc, applied: Op, snapshot: Value, record: OpRecord) {
    && record.version == d.version + 1 && 0 <= record.baseVersion <= d.version
    && record.op == Wire.PrintAll(applied)
    && (Identifies(RecordId(record)) ==> forall i :: 0 <= i < |d.ops| ==> RecordId(d.ops[i]) != RecordId(record))
  }

  lemma {:induction false} SubmitWrites(named: bool, maxGap: int, d: Doc, cache: VersionCache, r: SubmitRequest)
    requires Numbered(d) && DecideSubmit(named, d, cache, r, maxGap).0.Write?
    ensures var w := DecideSubmit(named, d, cache, r, maxGap).0;
      && Writes(d, w.applied, w.snapshot, w.record) && RecordId(w.record) == RequestId(r)
      && w.record.id == RequestId(r) && w.record.source == w.record.id.source
      && w.record.sequence == w.record.id.sequence
      && w.record.baseVersion == r.baseVersion && w.record.submittedOp == r.operation
      && w.result == SubmitResult(w.record.version, r.baseVersion < d.version, false, w.record.op, w.snapshot)
      && w.applied != [] && ApplyOperation(d.doc, w.applied) == Ok(w.snapshot)
  {
    var id := RequestId(r);
    if Identifies(id) && d.version > 0 {
      var logged := d.ops[0..d.version];
      assert logged == d.ops;
      assert FindIdentity(d.ops, id) == |d.ops|;
    }
    DecidedWrites(named, maxGap, d, cache, r, ParseRequest(r.operation).value);
  }

  lemma {:induction false} DecidedWrites(named: bool, maxGap: int, d: Doc, cache: VersionCache, r: SubmitRequest,
      op: Op)
    requires DecideParsed(named, d, cache, r, op, maxGap).0.Write?
    ensures exists transformed ::
      DecideParsed(named, d, cache, r, op, maxGap).0 == DecideRebased(d, r, transformed)
        && DecideRebased(d, r, transformed).Write?
  {
    var gap := d.version - r.baseVersion;
    if gap <= 0 {
      assert DecideRebased(d, r, op).Write?;
    } else {
      var concurrent := GetOps(d, r.baseVersion, d.version).value;
      var rebased := Walk(Rebased, op, named, cache, concurrent).0;
      assert DecideRebased(d, r, rebased.value).Write?;
    }
  }

  /** A rollback is logged at the current version, without an identity, as submitted by its source, and answered with
      the operation logged and the document stored. */
  lemma {:induction false} RollbackWrites(named: bool, d: Doc, cache: VersionCache, target: int, source: string)
    requires Numbered(d) && DecideRollback(named, d, cache, target, source).0.Write?
    ensures var w := DecideRollback(named, d, cache, target, source).0;
      && Writes(d, w.applied, w.snapshot, w.record) && !Identifies(RecordId(w.record))
      && w.record.baseVersion == d.version && w.record.id == OpId("", 0) && w.record.sequence == 0
      && w.record.source == source && w.record.submittedOp == Some(w.record.op)
      && w.result == SubmitResult(w.record.version, false, false, w.record.op, w.snapshot)
  {
  }

  lemma {:induction false} DecisionWrites(named: bool, maxGap: int, d: Doc, cache: VersionCache, request: Request)
    requires Numbered(d) && (request.Submit? || request.Rollback?)
    requires Decide(named, maxGap, d, cache, request).0.Write?
    ensures var w := Decide(named, maxGap, d, cache, request).0; Writes(d, w.applied, w.snapshot, w.record)
  {
    match request
    case Submit(r) => SubmitWrites(named, maxGap, d, cache, r);
    case Rollback(target, source) => RollbackWrites(named, d, cache, target, source);
  }

  // ---- Requests keep a room sound -----------------------------------------------------------------------

  /** The log and its identities after a commit. */
  lemma {:induction false} CommitKeepsLog(d: Doc, done: seq<Op>, applied: Op, snapshot: Value, record: OpRecord)
    requires Numbered(d) && Records(d, done) && DistinctIdentities(d.ops) && Writes(d, applied, snapshot, record)
    ensures var e := ShareDb.Committed(d, snapshot, record);
      Numbered(e) && Records(e, done + [applied]) && DistinctIdentities(e.ops)
  {
  }

  lemma {:induction false} CommitKeepsCache(named: bool, cache: VersionCache, d: Doc, done: seq<Op>, applied: Op,
      snapshot: Value, record: OpRecord)
    requires Numbered(d) && Records(d, done) && Backed(cache, d, done) && Writes(d, applied, snapshot, record)
    ensures Backed(cache, ShareDb.Committed(d, snapshot, record), done + [applied])
    ensures
      Backed(Stored(named, cache, record.version, applied), ShareDb.Committed(d, snapshot, record), done + [applied])
  {
    var e, now := ShareDb.Committed(d, snapshot, record), done + [applied];
    assert forall i :: 0 <= i < |done| ==> now[i] == done[i] && e.ops[i] == d.ops[i];
  }

  lemma {:induction false} OneMoreInOrder(feed: seq<Event>, e: Event)
    requires InOrder(feed) && e.version == VersionBefore(feed, |feed|) + (if e.kind.Committed? then 1 else 0)
    ensures InOrder(feed + [e])
  {
    var more := feed + [e];
    forall i | 0 <= i < |more|
      ensures more[i].version == VersionBefore(more, i) + (if more[i].kind.Committed? then 1 else 0)
    {
      assert VersionBefore(more, i) == VersionBefore(feed, i);
    }
  }

  /** The last published version is the document's. */
  lemma {:induction false} FeedIsUpToDate(room: Room, d: Doc)
    requires Numbered(d) && Told(room.feed, room.past, d)
    ensures VersionBefore(room.feed, |room.feed|) == d.version
  {
  }

  /** Publishing the committed record keeps the feed telling the log. */
  lemma {:induction false} CommitIsTold(feed: seq<Event>, past: nat, d: Doc, snapshot: Value, record: OpRecord)
    requires Told(feed, past, d)
    ensures Told(feed + [OpEvent(record, snapshot)], past, ShareDb.Committed(d, snapshot, record))
  {
    var more, e := feed + [OpEvent(record, snapshot)], ShareDb.Committed(d, snapshot, record);
    forall i | past <= i < |more|
      ensures Tells(more[i], e.ops[i - past])
    {
      if i < |feed| {
        assert more[i] == feed[i];
      }
    }
    assert VersionBefore(more, past) == VersionBefore(feed, past);
  }

  lemma {:induction false} WroteKeepsSound(named: bool, room: Room, d: Doc, applied: Op, snapshot: Value,
      record: OpRecord)
    requires Sound(room) && room.doc == Some(d) && Writes(d, applied, snapshot, record)
    ensures Sound(Wrote(named, room, d, applied, snapshot, record))
  {
    CommitKeepsLog(d, room.applied, applied, snapshot, record);
    CommitKeepsCache(named, room.cache, d, room.applied, applied, snapshot, record);
    FeedIsUpToDate(room, d);
    OneMoreInOrder(room.feed, OpEvent(record, snapshot));
    CommitIsTold(room.feed, room.past, d, snapshot, record);
  }

  lemma {:induction false} ErasedKeepsSound(room: Room, d: Doc, source: string)
    requires Sound(room) && room.doc == Some(d)
    ensures Sound(Erased(room, d, source))
  {
    FeedIsUpToDate(room, d);
    OneMoreInOrder(room.feed, DeleteEvent(d, source));
  }

  lemma {:induction false} FilledKeepsSound(room: Room, filled: VersionCache)
    requires Sound(room) && room.doc.Some? && FilledFrom(room.cache, filled, room.doc.value.ops)
    ensures Sound(room.(cache := filled))
  {
    FillsAreInvisible(room.cache, filled, room.doc.value, room.applied);
  }

  /** Every request keeps a room sound. */
  lemma {:induction false} ServeKeepsSound(named: bool, maxGap: int, room: Room, request: Request)
    requires Sound(room)
    ensures Sound(Serve(named, maxGap, room, request).0)
  {
    if request.Delete? && room.doc.Some? {
      ErasedKeepsSound(room, room.doc.value, request.source);
    } else if (request.Submit? || request.Rollback?) && room.doc.Some? {
      var d := room.doc.value;
      var (decision, filled) := Decide(named, maxGap, d, room.cache, request);
      DecideOnlyFills(named, maxGap, d, room.cache, request);
      FilledKeepsSound(room, filled);
      if decision.Write? {
        DecisionWrites(named, maxGap, d, room.cache, request);
        WroteKeepsSound(named, room.(cache := filled), d, decision.applied, decision.snapshot, decision.record);
      }
    }
  }

  /** Event i since the document was created tells of version i + 1 as it was logged: the operation after rebasing, and
      who sent it. */
  lemma {:induction false} FeedTellsLog(room: Room, i: nat)
    requires Sound(room) && room.doc.Some? && i < |room.doc.value.ops|
    ensures |room.feed| == room.past + |room.doc.value.ops|
    ensures var e, r := room.feed[room.past + i], room.doc.value.ops[i];
      && e.kind.Committed? && e.version == i + 1 && e.operation == Some(r.op) == Some(Wire.PrintAll(room.applied[i]))
      && e.id == r.id && e.source == r.source && e.sequence == r.sequence
  {
    assert Tells(room.feed[room.past + i], room.doc.value.ops[i]);
  }

  /** A deletion is told with the version, the document and the source, and without an operation. */
  lemma {:induction false} DeletionIsTold(named: bool, maxGap: int, room: Room, baseVersion: int, source: string)
    requires room.doc.Some? && baseVersion == room.doc.value.version
    ensures var next := Serve(named, maxGap, room, Delete(baseVersion, source)).0;
      && |next.feed| == |room.feed| + 1 && room.feed <= next.feed && next.doc.None?
      && var e := next.feed[|room.feed|];
         && e.kind.Deleted? && e.version == baseVersion && e.source == source && e.document == room.doc.value.doc
         && e.operation.None? && !Identifies(e.id)
  {
  }

  lemma {:induction false} ServeAllKeepsSound(named: bool, maxGap: int, room: Room, requests: seq<Request>)
    requires Sound(room)
    ensures Sound(ServeAll(named, maxGap, room, requests))
    decreases |requests|
  {
    if requests != [] {
      var init := requests[..|requests| - 1];
      ServeAllKeepsSound(named, maxGap, room, init);
      ServeKeepsSound(named, maxGap, ServeAll(named, maxGap, room, init), requests[|requests| - 1]);
    }
  }
}
