/** The server object: its methods update the backend, the parsed operations and the channels in place, and each does
    to a document's room what the request does on its own. */
module Server {
  import opened Json
  import opened Operators
  import opened Apply
  import opened Algebra
  import opened ShareDb
  import opened Requests
  import opened Serial
  import opened Machine
  import opened Memory
  import opened Transformer
  import Faithful
  import History
  import Wire

  /** The operation's objects are among some and hold the operation. */
  predicate Holds(cs: seq<OperationComponent>, op: Op, objects: set<OperationComponent>)
    reads objects
  {
    (forall c :: c in cs ==> c in objects) && Values(cs) == op
  }

  predicate Hold(versions: map<int, seq<OperationComponent>>, cache: VersionCache, objects: set<OperationComponent>)
    reads objects
  {
    versions.Keys == cache.Keys && forall v :: v in versions ==> Holds(versions[v], cache[v], objects)
  }

  lemma {:induction false} HoldAmongMore(versions: map<int, seq<OperationComponent>>, cache: VersionCache,
      objects: set<OperationComponent>, more: set<OperationComponent>)
    requires Hold(versions, cache, objects) && objects <= more
    ensures Hold(versions, cache, more)
  {
    forall v | v in versions ensures Holds(versions[v], cache[v], more) {
      assert Holds(versions[v], cache[v], objects);
    }
  }

  lemma {:induction false} HoldOneMore(versions: map<int, seq<OperationComponent>>, cache: VersionCache, version: int,
      cs: seq<OperationComponent>, objects: set<OperationComponent>)
    requires Hold(versions, cache, objects) && forall c :: c in cs ==> c in objects
    ensures Hold(versions[version := cs], cache[version := Values(cs)], objects)
  {
    assert Holds(cs, Values(cs), objects);
    forall v | v in versions ensures Holds(versions[v], cache[v], objects) {
    }
  }

  /** Parsed operations by document and version, as component objects that nothing outside the cache holds. */
  class ParsedOpCache {
    var docs: map<DocId, map<int, seq<OperationComponent>>>
    ghost var contents: map<DocId, VersionCache>
    ghost var Repr: set<OperationComponent>

    constructor ()
      ensures Valid() && contents == map[] && Repr == {}
    {
      docs, contents, Repr := map[], map[], {};
    }

    /** The objects hold what the cache is said to contain. */
    ghost predicate Valid()
      reads this, Repr
    {
      && docs.Keys == contents.Keys
      && forall d :: d in docs ==> Hold(docs[d], contents[d], Repr)
    }

    ghost function CacheOf(docId: DocId): VersionCache
      reads this
    {
      if docId in contents then contents[docId] else map[]
    }

    /** Clones of what is cached. */
    method Get(docId: DocId, version: int) returns (op: Option<seq<OperationComponent>>)
      requires Valid()
      ensures match op
        case None => version !in CacheOf(docId)
        case Some(cs) => version in CacheOf(docId) && Values(cs) == CacheOf(docId)[version]
      ensures op.Some? ==> Distinct(op.value) && fresh(op.value)
    {
      if docId !in docs {
        return None;
      }
      var versions := docs[docId];
      if version !in versions {
        return None;
      }
      var clones := CloneOperation(versions[version]);
      return Some(clones);
    }

    /** Clones of the operation go into the cache. */
    method Store(docId: DocId, version: int, op: seq<OperationComponent>)
      requires Valid()
      modifies this
      ensures Valid() && old(Repr) <= Repr && fresh(Repr - old(Repr))
      ensures CacheOf(docId) == old(CacheOf(docId))[version := Values(op)]
      ensures forall e :: e != docId ==> CacheOf(e) == old(CacheOf(e))
    {
      var clones := CloneOperation(op);
      Keep(docId, version, clones);
    }

    lemma {:induction false} OthersHoldAmongMore(more: set<OperationComponent>)
      requires Valid() && Repr <= more
      ensures forall d :: d in docs ==> Hold(docs[d], contents[d], more)
    {
      forall d | d in docs ensures Hold(docs[d], contents[d], more) {
        HoldAmongMore(docs[d], contents[d], Repr, more);
      }
    }

    method Keep(docId: DocId, version: int, op: seq<OperationComponent>)
      requires Valid()
      modifies this
      ensures Valid() && Repr == old(Repr) + set c | c in op
      ensures CacheOf(docId) == old(CacheOf(docId))[version := Values(op)]
      ensures forall e :: e != docId ==> CacheOf(e) == old(CacheOf(e))
    {
      var versions := if docId in docs then docs[docId] else map[];
      ghost var more := Repr + set c | c in op;
      HoldAmongMore(versions, CacheOf(docId), Repr, more);
      HoldOneMore(versions, CacheOf(docId), version, op, more);
      OthersHoldAmongMore(more);
      Become(docs[docId := versions[version := op]], contents[docId := CacheOf(docId)[version := Values(op)]], more);
    }

    method Become(docs: map<DocId, map<int, seq<OperationComponent>>>, ghost contents: map<DocId, VersionCache>,
        ghost objects: set<OperationComponent>)
      requires docs.Keys == contents.Keys && forall d :: d in docs ==> Hold(docs[d], contents[d], objects)
      modifies this
      ensures Valid() && this.docs == docs && this.contents == contents && Repr == objects
    {
      this.docs, this.contents, Repr := docs, contents, objects;
    }

    method DeleteDocument(docId: DocId)
      requires Valid()
      modifies this
      ensures Valid() && Repr == old(Repr)
      ensures CacheOf(docId) == map[]
      ensures forall e :: e != docId ==> CacheOf(e) == old(CacheOf(e))
    {
      docs, contents := docs - {docId}, contents - {docId};
    }
  }

  // ---- Loops over the log -------------------------------------------------------------------------------

  /** No version occurs twice, so no lookup disturbs a later one. */
  predicate DistinctVersions(ops: seq<OpRecord>) {
    forall i, j :: 0 <= i < j < |ops| ==> ops[i].version != ops[j].version
  }

  /** One turn of a loop over the log: look the record up, then take the step. */
  function Turn<T>(step: (T, Op) -> Result<T>, t: T, cache: VersionCache, record: OpRecord): Result<T> {
    match Lookup(cache, record)
    case Err(e) => Err(e)
    case Ok(op) => step(t, op)
  }

  /** A function that gives every turn with a step; the loops below reason about a turn only by its name. */
  ghost predicate IsTurn<T(!new)>(turn: (T, VersionCache, OpRecord) -> Result<T>, step: (T, Op) -> Result<T>) {
    forall t, cache, record {:trigger Turn(step, t, cache, record)} ::
      turn(t, cache, record) == Turn(step, t, cache, record)
  }

  lemma {:induction false} TurnOf<T(!new)>(step: (T, Op) -> Result<T>)
    returns (turn: (T, VersionCache, OpRecord) -> Result<T>)
    ensures IsTurn(turn, step)
  {
    turn := (t, cache, record) => Turn(step, t, cache, record);
  }

  /** What the loop has after its first turns, each using the cache the previous one left. */
  function Turns<T>(turn: (T, VersionCache, OpRecord) -> Result<T>, t: T, named: bool, cache: VersionCache,
      ops: seq<OpRecord>, i: nat)
    : (Result<T>, VersionCache)
    requires i <= |ops|
  {
    if i == 0 then (Ok(t), cache)
    else
      var (r, c) := Turns(turn, t, named, cache, ops, i - 1);
      match r
      case Err(_) => (r, c)
      case Ok(u) => (turn(u, c, ops[i - 1]), Filled(named, c, ops[i - 1]))
  }

  lemma {:induction false} FilledOverOneMore(named: bool, cache: VersionCache, ops: seq<OpRecord>, i: nat)
    requires i < |ops|
    ensures FilledOver(named, cache, ops[..i + 1]) == Filled(named, FilledOver(named, cache, ops[..i]), ops[i])
    decreases i
  {
    var more := ops[..i + 1];
    if i > 0 {
      assert more[1..] == ops[1..][..i] && ops[..i][1..] == ops[1..][..i - 1];
      FilledOverOneMore(named, Filled(named, cache, ops[0]), ops[1..], i - 1);
    } else {
      assert more[1..] == [] && ops[..0] == [];
    }
  }

  /** The loop and the walk over what the log reads back as agree while both succeed. */
  lemma {:induction false} TurnsFollowWalk<T(!new)>(step: (T, Op) -> Result<T>,
      turn: (T, VersionCache, OpRecord) -> Result<T>, t: T, named: bool, cache: VersionCache, ops: seq<OpRecord>,
      i: nat)
    requires IsTurn(turn, step)
    requires DistinctVersions(ops) && i <= |ops| && Turns(turn, t, named, cache, ops, i).0.Ok?
    ensures var looks, (r, c) := Looks(cache, ops), Turns(turn, t, named, cache, ops, i);
      && Fold(step, t, looks) == Fold(step, r.value, looks[i..])
      && Reached(step, t, looks) == i + Reached(step, r.value, looks[i..])
      && c == FilledOver(named, cache, ops[..i])
      && forall j :: i <= j < |ops| ==> Lookup(c, ops[j]) == looks[j]
    decreases i
  {
    var looks := Looks(cache, ops);
    if i == 0 {
      assert looks[0..] == looks && ops[..0] == [];
    } else {
      var (r, c) := Turns(turn, t, named, cache, ops, i - 1);
      TurnsFollowWalk(step, turn, t, named, cache, ops, i - 1);
      assert looks[i - 1..][0] == looks[i - 1] && looks[i - 1..][1..] == looks[i..];
      assert turn(r.value, c, ops[i - 1]) == Turn(step, r.value, c, ops[i - 1]);
      FilledOverOneMore(named, cache, ops, i - 1);
      LookupsStay(named, c, ops, looks, i - 1);
    }
  }

  lemma {:induction false} LookupsStay(named: bool, cache: VersionCache, ops: seq<OpRecord>, looks: seq<Result<Op>>,
      i: nat)
    requires DistinctVersions(ops) && i < |ops| == |looks|
    requires forall j :: i <= j < |ops| ==> Lookup(cache, ops[j]) == looks[j]
    ensures forall j :: i + 1 <= j < |ops| ==> Lookup(Filled(named, cache, ops[i]), ops[j]) == looks[j]
  {
    forall j | i + 1 <= j < |ops| ensures Lookup(Filled(named, cache, ops[i]), ops[j]) == looks[j] {
      assert ops[i].version != ops[j].version;
    }
  }

  /** A loop that leaves on a failing record, or takes every record, has walked the log. */
  lemma {:induction false} LoopLeaves<T(!new)>(step: (T, Op) -> Result<T>,
      turn: (T, VersionCache, OpRecord) -> Result<T>, t: T, named: bool, cache: VersionCache, ops: seq<OpRecord>,
      i: nat)
    requires IsTurn(turn, step) && DistinctVersions(ops) && i <= |ops|
    requires Turns(turn, t, named, cache, ops, i).0.Ok? ==> i == |ops|
    requires Turns(turn, t, named, cache, ops, i).0.Err? ==> i > 0 && Turns(turn, t, named, cache, ops, i - 1).0.Ok?
    ensures Walk(step, t, named, cache, ops) == Turns(turn, t, named, cache, ops, i)
  {
    var looks := Looks(cache, ops);
    if Turns(turn, t, named, cache, ops, i).0.Ok? {
      TurnsFollowWalk(step, turn, t, named, cache, ops, i);
      assert looks[i..] == [] && ops[..i] == ops;
    } else {
      var (r, c) := Turns(turn, t, named, cache, ops, i - 1);
      TurnsFollowWalk(step, turn, t, named, cache, ops, i - 1);
      assert looks[i - 1..][0] == looks[i - 1];
      assert turn(r.value, c, ops[i - 1]) == Turn(step, r.value, c, ops[i - 1]);
      FilledOverOneMore(named, cache, ops, i - 1);
    }
  }

  lemma {:induction false} ReversedDistinct(ops: seq<OpRecord>)
    requires DistinctVersions(ops)
    ensures DistinctVersions(Reversed(ops))
  {
  }

  /** The inverse of what was looked up, and the document it leads to. */
  function Undoing(look: Result<Op>, v: Value): Result<(Op, Value)> {
    var op :- look;
    var inverse :- History.InverseOperation(op);
    var w :- ApplyOperation(v, inverse);
    Ok((inverse, w))
  }

  lemma {:induction false} UndoTurns(v: Value, acc: Op, cache: VersionCache, record: OpRecord)
    ensures var undone := Undoing(Lookup(cache, record), v);
      && Turn(Undone, v, cache, record) == (match undone case Err(e) => Err(e) case Ok((_, w)) => Ok(w))
      && Turn<(Op, Value)>(RolledBack, (acc, v), cache, record)
         == (match undone case Err(e) => Err(e) case Ok((inverse, w)) => Ok((Composed(acc, inverse), w)))
  {
  }

  lemma {:induction false} ReadingOnlyFills(named: bool, room: Room, version: int)
    requires Sound(room) && room.doc.Some? && 0 <= version < room.doc.value.version
    ensures Sound(room.(cache := SnapshotAt(named, room.doc.value, room.cache, version).1))
  {
    var d := room.doc.value;
    var ops := Reversed(d.ops[version..d.version]);
    var n := Reached(Undone, d.doc, Looks(room.cache, ops));
    BackwardsIsLogged(d, version, d.version, n);
    WalkOnlyFills(named, d, room.cache, ops[..n]);
    FilledKeepsSound(room, FilledOver(named, room.cache, ops[..n]));
  }

  /** A decision leaves the room sound and writes what may be written. */
  lemma {:induction false} DecisionIsSound(named: bool, maxGap: int, room: Requests.Room, request: Request)
    requires Sound(room) && room.doc.Some? && (request.Submit? || request.Rollback?)
    ensures var (decision, filled) := Decide(named, maxGap, room.doc.value, room.cache, request);
      && Sound(room.(cache := filled))
      && (decision.Write? ==> Writes(room.doc.value, decision.applied, decision.snapshot, decision.record))
  {
    var (decision, filled) := Decide(named, maxGap, room.doc.value, room.cache, request);
    DecideOnlyFills(named, maxGap, room.doc.value, room.cache, request);
    FilledKeepsSound(room, filled);
    if decision.Write? {
      DecisionWrites(named, maxGap, room.doc.value, room.cache, request);
    }
  }

  // ---- The server ---------------------------------------------------------------------------------------

  class Server {
    const backend: MemoryBackend
    const parsedOps: ParsedOpCache
    const pub: MemoryPublisher
    const maxRebaseGap: int
    ghost var rooms: map<DocId, Room>

    constructor (maxGap: int)
      ensures Valid() && fresh(backend) && fresh(parsedOps) && fresh(pub) && maxRebaseGap == maxGap
      ensures forall d :: Room(d) == EMPTY_ROOM
    {
      backend := new MemoryBackend();
      parsedOps := new ParsedOpCache();
      pub := new MemoryPublisher();
      maxRebaseGap := maxGap;
      rooms := map[];
    }

    ghost function Room(docId: DocId): Requests.Room
      reads this
    {
      if docId in rooms then rooms[docId] else EMPTY_ROOM
    }

    function StoredDoc(docId: DocId): Option<Doc>
      reads this, backend
    {
      if docId in backend.docs then Some(backend.docs[docId]) else None
    }

    /** Backend and cache hold what the rooms say, every room is sound, and every channel follows its feed. */
    ghost predicate Valid()
      reads this, backend, parsedOps, parsedOps.Repr, pub
    {
      && pub.Valid() && parsedOps.Valid()
      && (forall d :: Room(d).doc == StoredDoc(d) && Room(d).cache == parsedOps.CacheOf(d) && Sound(Room(d)))
      && (forall id :: id in pub.subs ==> Follows(pub.subs[id], Room(pub.subs[id].doc).feed))
    }

    method ParseOperation(raw: Option<Value>) returns (r: Result<seq<OperationComponent>>)
      ensures match r
        case Ok(cs) => ParseRequest(raw) == Ok(Values(cs))
        case Err(e) => ParseRequest(raw) == Err(e)
      ensures r.Ok? ==> Distinct(r.value) && fresh(r.value)
    {
      var payload := Arr([]);
      if raw.Some? {
        payload := raw.value;
      }
      var components := Wire.OperationComponentsFromValue(payload);
      if components.Err? {
        return Err(components.error);
      }
      var bad := ValidationError(components.value);
      if bad.Some? {
        return Err(bad.value);
      }
      var op := Build(components.value);
      return Ok(op);
    }

    method CacheCommittedOperation(docId: DocId, version: int, op: seq<OperationComponent>)
      requires parsedOps.Valid()
      modifies parsedOps
      ensures parsedOps.Valid() && old(parsedOps.Repr) <= parsedOps.Repr && fresh(parsedOps.Repr - old(parsedOps.Repr))
      ensures parsedOps.CacheOf(docId) == Stored(Named(docId), old(parsedOps.CacheOf(docId)), version, Values(op))
      ensures forall e :: e != docId ==> parsedOps.CacheOf(e) == old(parsedOps.CacheOf(e))
    {
      if docId == "" || version <= 0 {
        return;
      }
      parsedOps.Store(docId, version, op);
    }

    method CacheApplied(docId: DocId, version: int, op: Op)
      requires parsedOps.Valid()
      modifies parsedOps
      ensures parsedOps.Valid()
      ensures parsedOps.CacheOf(docId) == Stored(Named(docId), old(parsedOps.CacheOf(docId)), version, op)
      ensures forall e :: e != docId ==> parsedOps.CacheOf(e) == old(parsedOps.CacheOf(e))
    {
      var applied := Build(op);
      CacheCommittedOperation(docId, version, applied);
    }

    /** The cached or parsed operation, as objects of the caller's own. */
    method GetOrParseCommittedOperation(docId: DocId, record: OpRecord) returns (r: Result<seq<OperationComponent>>)
      requires parsedOps.Valid()
      modifies parsedOps
      ensures parsedOps.Valid() && old(parsedOps.Repr) <= parsedOps.Repr && fresh(parsedOps.Repr - old(parsedOps.Repr))
      ensures match r
        case Ok(cs) => Lookup(old(parsedOps.CacheOf(docId)), record) == Ok(Values(cs))
        case Err(e) => Lookup(old(parsedOps.CacheOf(docId)), record) == Err(e)
      ensures r.Ok? ==> Distinct(r.value) && fresh(r.value) && forall c :: c in r.value ==> c !in parsedOps.Repr
      ensures parsedOps.CacheOf(docId) == Filled(Named(docId), old(parsedOps.CacheOf(docId)), record)
      ensures forall e :: e != docId ==> parsedOps.CacheOf(e) == old(parsedOps.CacheOf(e))
    {
      var cached := parsedOps.Get(docId, record.version);
      if cached.Some? {
        return Ok(cached.value);
      }
      r := ParseOperation(Some(record.op));
      if r.Ok? {
        CacheCommittedOperation(docId, record.version, r.value);
        var clones := CloneOperation(r.value);
        r := Ok(clones);
      }
    }

    /** Transform an operation in place against clones of a logged one; what is cached stays as it is. */
    method RebaseOne(docId: DocId, op: seq<OperationComponent>, record: OpRecord,
        ghost turn: (Op, VersionCache, OpRecord) -> Result<Op>)
      returns (r: Result<seq<OperationComponent>>)
      requires IsTurn(turn, Rebased) && parsedOps.Valid()
      requires Distinct(op) && forall c :: c in op ==> c !in parsedOps.Repr
      modifies parsedOps, op
      ensures parsedOps.Valid() && old(parsedOps.Repr) <= parsedOps.Repr && fresh(parsedOps.Repr - old(parsedOps.Repr))
      ensures forall c :: c in old(parsedOps.Repr) ==> c.Value() == old(c.Value())
      ensures match r
        case Ok(cs) => turn(old(Values(op)), old(parsedOps.CacheOf(docId)), record) == Ok(Values(cs))
        case Err(e) => turn(old(Values(op)), old(parsedOps.CacheOf(docId)), record) == Err(e)
      ensures r.Ok? ==>
        Distinct(r.value) && forall c :: c in r.value ==> (c in op || fresh(c)) && c !in parsedOps.Repr
      ensures parsedOps.CacheOf(docId) == Filled(Named(docId), old(parsedOps.CacheOf(docId)), record)
      ensures forall e :: e != docId ==> parsedOps.CacheOf(e) == old(parsedOps.CacheOf(e))
    {
      assert turn(Values(op), parsedOps.CacheOf(docId), record)
        == Turn(Rebased, Values(op), parsedOps.CacheOf(docId), record);
      var concurrent := GetOrParseCommittedOperation(docId, record);
      if concurrent.Err? {
        return Err(concurrent.error);
      }
      var left, right := TransformOperations(op, concurrent.value);
      return left;
    }

    /** One more turn of rebasing. */
    method RebaseNext(docId: DocId, op: seq<OperationComponent>, ops: seq<OpRecord>, i: nat,
        ghost turn: (Op, VersionCache, OpRecord) -> Result<Op>, ghost was: Op, ghost cache: VersionCache)
      returns (r: Result<seq<OperationComponent>>)
      requires IsTurn(turn, Rebased) && parsedOps.Valid() && i < |ops|
      requires Distinct(op) && forall c :: c in op ==> c !in parsedOps.Repr
      requires Turns(turn, was, Named(docId), cache, ops, i) == (Ok(Values(op)), parsedOps.CacheOf(docId))
      modifies parsedOps, set c | c in op
      ensures parsedOps.Valid() && old(parsedOps.Repr) <= parsedOps.Repr && fresh(parsedOps.Repr - old(parsedOps.Repr))
      ensures match r
        case Ok(cs) => Turns(turn, was, Named(docId), cache, ops, i + 1) == (Ok(Values(cs)), parsedOps.CacheOf(docId))
        case Err(e) => Turns(turn, was, Named(docId), cache, ops, i + 1) == (Err(e), parsedOps.CacheOf(docId))
      ensures r.Ok? ==>
        Distinct(r.value) && forall c :: c in r.value ==> (c in op || fresh(c)) && c !in parsedOps.Repr
      ensures forall e :: e != docId ==> parsedOps.CacheOf(e) == old(parsedOps.CacheOf(e))
    {
      r := RebaseOne(docId, op, ops[i], turn);
    }

    /** Transform an operation against logged ones in turn; `taken` counts the turns. */
    method RebaseLoop(docId: DocId, op: seq<OperationComponent>, ops: seq<OpRecord>,
        ghost turn: (Op, VersionCache, OpRecord) -> Result<Op>)
      returns (r: Result<seq<OperationComponent>>, ghost taken: nat)
      requires IsTurn(turn, Rebased) && parsedOps.Valid()
      requires Distinct(op) && forall c :: c in op ==> c !in parsedOps.Repr
      modifies parsedOps, set c | c in op
      ensures parsedOps.Valid()
      ensures taken <= |ops| && (r.Ok? ==> taken == |ops|)
      ensures var (got, cache) :=
          Turns(turn, old(Values(op)), Named(docId), old(parsedOps.CacheOf(docId)), ops, taken);
        && cache == parsedOps.CacheOf(docId)
        && match r case Ok(cs) => got == Ok(Values(cs)) case Err(e) => got == Err(e)
      ensures r.Err? ==>
        && taken > 0
        && Turns(turn, old(Values(op)), Named(docId), old(parsedOps.CacheOf(docId)), ops, taken - 1).0.Ok?
      ensures forall e :: e != docId ==> parsedOps.CacheOf(e) == old(parsedOps.CacheOf(e))
    {
      ghost var was, named, cache := Values(op), Named(docId), parsedOps.CacheOf(docId);
      var transformed := op;
      taken := 0;
      for i := 0 to |ops|
        invariant taken == i && parsedOps.Valid()
        invariant Distinct(transformed)
        invariant forall c :: c in transformed ==> (c in op || fresh(c)) && c !in parsedOps.Repr
        invariant Turns(turn, was, named, cache, ops, i) == (Ok(Values(transformed)), parsedOps.CacheOf(docId))
        invariant forall e :: e != docId ==> parsedOps.CacheOf(e) == old(parsedOps.CacheOf(e))
      {
        r := RebaseNext(docId, transformed, ops, i, turn, was, cache);
        taken := taken + 1;
        if r.Err? {
          return;
        }
        transformed := r.value;
      }
      return Ok(transformed), taken;
    }

    /** Transform an operation against logged ones in turn.  What the cache holds stays as it is. */
    method Rebase(docId: DocId, op: seq<OperationComponent>, ops: seq<OpRecord>)
      returns (r: Result<seq<OperationComponent>>)
      requires DistinctVersions(ops) && parsedOps.Valid()
      requires Distinct(op) && forall c :: c in op ==> c !in parsedOps.Repr
      modifies parsedOps, op
      ensures parsedOps.Valid()
      ensures forall c :: c in old(parsedOps.Repr) ==> c.Value() == old(c.Value())
      ensures var walked := Walk(Rebased, old(Values(op)), Named(docId), old(parsedOps.CacheOf(docId)), ops);
        && parsedOps.CacheOf(docId) == walked.1
        && match r
           case Ok(cs) => walked.0 == Ok(Values(cs))
           case Err(e) => walked.0 == Err(e)
      ensures forall e :: e != docId ==> parsedOps.CacheOf(e) == old(parsedOps.CacheOf(e))
    {
      ghost var was, cache := Values(op), parsedOps.CacheOf(docId);
      ghost var turn := TurnOf(Rebased);
      ghost var taken: nat;
      r, taken := RebaseLoop(docId, op, ops, turn);
      LoopLeaves(Rebased, turn, was, Named(docId), cache, ops, taken);
    }

    /** Invert the components last one first, append the inverses, print and parse the result. */
    method InverseOperation(docId: DocId, record: OpRecord) returns (r: Result<Op>)
      requires parsedOps.Valid()
      modifies parsedOps
      ensures parsedOps.Valid()
      ensures forall c :: c in old(parsedOps.Repr) ==> c.Value() == old(c.Value())
      ensures r ==
        (match Lookup(old(parsedOps.CacheOf(docId)), record)
         case Err(e) => Err(e)
         case Ok(op) => History.InverseOperation(op))
      ensures parsedOps.CacheOf(docId) == Filled(Named(docId), old(parsedOps.CacheOf(docId)), record)
      ensures forall e :: e != docId ==> parsedOps.CacheOf(e) == old(parsedOps.CacheOf(e))
    {
      var op := GetOrParseCommittedOperation(docId, record);
      if op.Err? {
        return Err(op.error);
      }
      var inverted := InvertInPlace(op.value);
      if inverted.Err? {
        return Err(inverted.error);
      }
      r := PrintAndParse(inverted.value);
    }

    method PrintAndParse(op: Op) returns (r: Result<Op>)
      ensures r == Wire.ParseOperation(Wire.PrintAll(op))
    {
      var printed := Wire.ToValue(op);
      var parsed := ParseOperation(Some(printed));
      return match parsed case Ok(cs) => Ok(Values(cs)) case Err(e) => Err(e);
    }

    /** Invert the components last one first and append the inverses; moves rewrite their own paths on the way. */
    method InvertInPlace(components: seq<OperationComponent>) returns (r: Result<Op>)
      requires Distinct(components)
      modifies components
      ensures History.InverseOperation(old(Values(components))) ==
        match r
        case Ok(cs) => Wire.ParseOperation(Wire.PrintAll(cs))
        case Err(e) => Err(e)
    {
      ghost var was := Values(components);
      var inverted := new Operation();
      var i := |components|;
      assert was[..i] == was;
      while i > 0
        invariant 0 <= i <= |components|
        invariant forall k :: 0 <= k < i ==> components[k].Value() == was[k]
        invariant History.InverseFrom(was, []) == History.InverseFrom(was[..i], inverted.components)
      {
        assert was[..i][i - 1] == was[i - 1] && was[..i][..i - 1] == was[..i - 1];
        i := i - 1;
        var inverse := components[i].Invert();
        if inverse.Err? {
          return Err(inverse.error);
        }
        inverted.Append(inverse.value.Value());
      }
      return Ok(inverted.components);
    }

    /** The history between two versions, when it is complete. */
    method GetOperations(docId: DocId, from: int, upto: int) returns (records: Result<seq<OpRecord>>)
      ensures records == if StoredDoc(docId).None? then Err(InvalidOperation)
        else ShareDb.GetOperations(StoredDoc(docId).value, from, upto)
    {
      var rec := backend.GetDoc(docId);
      if rec.None? {
        return Err(InvalidOperation);
      }
      if from < 0 || upto < from || upto > rec.value.0 {
        return Err(InvalidParameter);
      }
      records := backend.GetOps(docId, from, upto);
      if records.Ok? && |records.value| != upto - from {
        return Err(InvalidParameter);
      }
    }

    /** Undo one logged operation: its inverse, and the document that leads to. */
    method UndoOne(docId: DocId, docValue: Value, record: OpRecord) returns (r: Result<(Op, Value)>)
      requires parsedOps.Valid()
      modifies parsedOps
      ensures parsedOps.Valid()
      ensures r == Undoing(Lookup(old(parsedOps.CacheOf(docId)), record), docValue)
      ensures parsedOps.CacheOf(docId) == Filled(Named(docId), old(parsedOps.CacheOf(docId)), record)
      ensures forall e :: e != docId ==> parsedOps.CacheOf(e) == old(parsedOps.CacheOf(e))
    {
      var inverse := InverseOperation(docId, record);
      if inverse.Err? {
        return Err(inverse.error);
      }
      var applied := ApplyOperation(docValue, inverse.value);
      if applied.Err? {
        return Err(applied.error);
      }
      return Ok((inverse.value, applied.value));
    }

    /** A turn of rolling back: compose the inverse of a logged operation and apply it. */
    method RollBackOne(docId: DocId, rollback: Operation, docValue: Value, record: OpRecord,
        ghost turn: ((Op, Value), VersionCache, OpRecord) -> Result<(Op, Value)>)
      returns (r: Result<Value>)
      requires IsTurn(turn, RolledBack)
      requires parsedOps.Valid()
      modifies parsedOps, rollback
      ensures parsedOps.Valid()
      ensures var was := turn((old(rollback.components), docValue), old(parsedOps.CacheOf(docId)), record);
        match r case Err(e) => was == Err(e) case Ok(w) => was == Ok((rollback.components, w))
      ensures parsedOps.CacheOf(docId) == Filled(Named(docId), old(parsedOps.CacheOf(docId)), record)
      ensures forall e :: e != docId ==> parsedOps.CacheOf(e) == old(parsedOps.CacheOf(e))
    {
      UndoTurns(docValue, rollback.components, parsedOps.CacheOf(docId), record);
      var undone := UndoOne(docId, docValue, record);
      if undone.Err? {
        return Err(undone.error);
      }
      rollback.Compose(undone.value.0);
      return Ok(undone.value.1);
    }

    /** One more turn of rolling back. */
    method RollBackNext(docId: DocId, rollback: Operation, docValue: Value, record: OpRecord,
        ghost turn: ((Op, Value), VersionCache, OpRecord) -> Result<(Op, Value)>, ghost start: (Op, Value),
        ghost cache: VersionCache, ghost back: seq<OpRecord>, ghost taken: nat)
      returns (r: Result<Value>)
      requires IsTurn(turn, RolledBack) && parsedOps.Valid() && taken < |back| && back[taken] == record
      requires Turns(turn, start, Named(docId), cache, back, taken)
        == (Ok((rollback.components, docValue)), parsedOps.CacheOf(docId))
      modifies parsedOps, rollback
      ensures parsedOps.Valid()
      ensures var (got, c) := Turns(turn, start, Named(docId), cache, back, taken + 1);
        && c == parsedOps.CacheOf(docId)
        && (match r case Err(e) => got == Err(e) case Ok(w) => got == Ok((rollback.components, w)))
      ensures forall e :: e != docId ==> parsedOps.CacheOf(e) == old(parsedOps.CacheOf(e))
    {
      r := RollBackOne(docId, rollback, docValue, record, turn);
    }

    /** Undo logged operations, last one first, composing the inverses on the way; `taken` counts the turns. */
    method RollBackLoop(docId: DocId, rollback: Operation, document: Value, ops: seq<OpRecord>,
        ghost turn: ((Op, Value), VersionCache, OpRecord) -> Result<(Op, Value)>)
      returns (r: Result<Value>, ghost taken: nat)
      requires IsTurn(turn, RolledBack)
      requires parsedOps.Valid()
      modifies parsedOps, rollback
      ensures parsedOps.Valid()
      ensures taken <= |ops|
      ensures var start := (old(rollback.components), document);
        var (got, cache) := Turns(turn, start, Named(docId), old(parsedOps.CacheOf(docId)), Reversed(ops), taken);
        && cache == parsedOps.CacheOf(docId)
        && (match r case Err(e) => got == Err(e) case Ok(w) => got == Ok((rollback.components, w)))
      ensures r.Ok? ==> taken == |ops|
      ensures r.Err? ==>
        var start := (old(rollback.components), document);
        && taken > 0
        && Turns(turn, start, Named(docId), old(parsedOps.CacheOf(docId)), Reversed(ops), taken - 1).0.Ok?
      ensures forall e :: e != docId ==> parsedOps.CacheOf(e) == old(parsedOps.CacheOf(e))
    {
      ghost var named, cache, back := Named(docId), parsedOps.CacheOf(docId), Reversed(ops);
      ghost var start := (rollback.components, document);
      var docValue := document;
      var i := |ops|;
      taken := 0;
      while i > 0
        invariant 0 <= i <= |ops| && taken == |ops| - i
        invariant Turns(turn, start, named, cache, back, taken)
          == (Ok((rollback.components, docValue)), parsedOps.CacheOf(docId))
        invariant parsedOps.Valid()
        invariant forall e :: e != docId ==> parsedOps.CacheOf(e) == old(parsedOps.CacheOf(e))
      {
        i := i - 1;
        taken := taken + 1;
        r := RollBackNext(docId, rollback, docValue, ops[i], turn, start, cache, back, taken - 1);
        if r.Err? {
          return;
        }
        docValue := r.value;
      }
      return Ok(docValue), taken;
    }

    /** Undo logged operations, last one first, composing the inverses on the way. */
    method RollBack(docId: DocId, document: Value, ops: seq<OpRecord>) returns (r: Result<(Op, Value)>)
      requires DistinctVersions(ops)
      requires parsedOps.Valid()
      modifies parsedOps
      ensures parsedOps.Valid()
      ensures (r, parsedOps.CacheOf(docId))
           == Walk<(Op, Value)>(RolledBack, ([], document), Named(docId), old(parsedOps.CacheOf(docId)), Reversed(ops))
      ensures forall e :: e != docId ==> parsedOps.CacheOf(e) == old(parsedOps.CacheOf(e))
    {
      ghost var turn := TurnOf<(Op, Value)>(RolledBack);
      var rollback := new Operation();
      ghost var taken: nat;
      var w: Result<Value>;
      w, taken := RollBackLoop(docId, rollback, document, ops, turn);
      ReversedDistinct(ops);
      LoopLeaves(RolledBack, turn, ([], document), Named(docId), old(parsedOps.CacheOf(docId)), Reversed(ops), taken);
      return match w case Err(e) => Err(e) case Ok(v) => Ok((rollback.components, v));
    }

    /** A turn of going back: apply the inverse of a logged operation. */
    method GoBackOne(docId: DocId, docValue: Value, record: OpRecord,
        ghost turn: (Value, VersionCache, OpRecord) -> Result<Value>)
      returns (r: Result<Value>)
      requires IsTurn(turn, Undone)
      requires parsedOps.Valid()
      modifies parsedOps
      ensures parsedOps.Valid()
      ensures r == turn(docValue, old(parsedOps.CacheOf(docId)), record)
      ensures parsedOps.CacheOf(docId) == Filled(Named(docId), old(parsedOps.CacheOf(docId)), record)
      ensures forall e :: e != docId ==> parsedOps.CacheOf(e) == old(parsedOps.CacheOf(e))
    {
      UndoTurns(docValue, [], parsedOps.CacheOf(docId), record);
      var undone := UndoOne(docId, docValue, record);
      if undone.Err? {
        return Err(undone.error);
      }
      return Ok(undone.value.1);
    }

    /** One more turn of going back. */
    method GoBackNext(docId: DocId, docValue: Value, record: OpRecord,
        ghost turn: (Value, VersionCache, OpRecord) -> Result<Value>, ghost document: Value, ghost cache: VersionCache,
        ghost back: seq<OpRecord>, ghost taken: nat)
      returns (r: Result<Value>)
      requires IsTurn(turn, Undone) && parsedOps.Valid() && taken < |back| && back[taken] == record
      requires Turns(turn, document, Named(docId), cache, back, taken) == (Ok(docValue), parsedOps.CacheOf(docId))
      modifies parsedOps
      ensures parsedOps.Valid()
      ensures Turns(turn, document, Named(docId), cache, back, taken + 1) == (r, parsedOps.CacheOf(docId))
      ensures forall e :: e != docId ==> parsedOps.CacheOf(e) == old(parsedOps.CacheOf(e))
    {
      r := GoBackOne(docId, docValue, record, turn);
    }

    /** Undo logged operations, last one first; `taken` counts the turns. */
    method GoBackLoop(docId: DocId, document: Value, ops: seq<OpRecord>,
        ghost turn: (Value, VersionCache, OpRecord) -> Result<Value>)
      returns (r: Result<Value>, ghost taken: nat)
      requires IsTurn(turn, Undone)
      requires parsedOps.Valid()
      modifies parsedOps
      ensures parsedOps.Valid()
      ensures taken <= |ops|
      ensures Turns(turn, document, Named(docId), old(parsedOps.CacheOf(docId)), Reversed(ops), taken)
        == (r, parsedOps.CacheOf(docId))
      ensures r.Ok? ==> taken == |ops|
      ensures r.Err? ==>
        && taken > 0
        && Turns(turn, document, Named(docId), old(parsedOps.CacheOf(docId)), Reversed(ops), taken - 1).0.Ok?
      ensures forall e :: e != docId ==> parsedOps.CacheOf(e) == old(parsedOps.CacheOf(e))
    {
      ghost var named, cache, back := Named(docId), parsedOps.CacheOf(docId), Reversed(ops);
      var docValue := document;
      var i := |ops|;
      taken := 0;
      while i > 0
        invariant 0 <= i <= |ops| && taken == |ops| - i
        invariant Turns(turn, document, named, cache, back, taken) == (Ok(docValue), parsedOps.CacheOf(docId))
        invariant parsedOps.Valid()
        invariant forall e :: e != docId ==> parsedOps.CacheOf(e) == old(parsedOps.CacheOf(e))
      {
        i := i - 1;
        taken := taken + 1;
        r := GoBackNext(docId, docValue, ops[i], turn, document, cache, back, taken - 1);
        if r.Err? {
          return;
        }
        docValue := r.value;
      }
      return Ok(docValue), taken;
    }

    /** Undo logged operations, last one first. */
    method DocumentAtVersion(docId: DocId, version: int, document: Value, target: int) returns (r: Result<Value>)
      requires StoredDoc(docId).Some? && Numbered(StoredDoc(docId).value)
      requires version == StoredDoc(docId).value.version && document == StoredDoc(docId).value.doc
      requires 0 <= target < version
      requires parsedOps.Valid()
      modifies parsedOps
      ensures parsedOps.Valid()
      ensures (r, parsedOps.CacheOf(docId))
           == SnapshotAt(Named(docId), StoredDoc(docId).value, old(parsedOps.CacheOf(docId)), target)
      ensures forall e :: e != docId ==> parsedOps.CacheOf(e) == old(parsedOps.CacheOf(e))
    {
      var records := GetOperations(docId, target, version);
      match records
      case Err(e) => return Err(e);
      case Ok(ops) =>
        ghost var turn := TurnOf(Undone);
        ghost var taken: nat;
        r, taken := GoBackLoop(docId, document, ops, turn);
        ReversedDistinct(ops);
        LoopLeaves(Undone, turn, document, Named(docId), old(parsedOps.CacheOf(docId)), Reversed(ops), taken);
    }

    // ---- Requests ---------------------------------------------------------------------------------------

    /** The position of the first record with an identity. */
    method FindRecord(ops: seq<OpRecord>, id: OpId) returns (i: nat)
      ensures i == FindIdentity(ops, id)
    {
      i := 0;
      assert ops[0..] == ops;
      while i < |ops|
        invariant i <= |ops| && FindIdentity(ops, id) == i + FindIdentity(ops[i..], id)
      {
        assert ops[i..][0] == ops[i] && ops[i..][1..] == ops[i + 1..];
        if RecordId(ops[i]) == id {
          return;
        }
        i := i + 1;
      }
    }

    /** The part of a submit that only reads: everything from the version check to the applied document. */
    method DecideSubmit(docId: DocId, version: int, document: Value, r: SubmitRequest) returns (decision: Decision)
      requires StoredDoc(docId).Some? && Numbered(StoredDoc(docId).value)
      requires version == StoredDoc(docId).value.version && document == StoredDoc(docId).value.doc
      requires parsedOps.Valid()
      modifies parsedOps
      ensures parsedOps.Valid()
      ensures (decision, parsedOps.CacheOf(docId))
           == ShareDb.DecideSubmit(Named(docId), StoredDoc(docId).value, old(parsedOps.CacheOf(docId)), r, maxRebaseGap)
      ensures forall e :: e != docId ==> parsedOps.CacheOf(e) == old(parsedOps.CacheOf(e))
    {
      var id := RequestId(r);
      if r.baseVersion < 0 || r.baseVersion > version {
        return Refuse(InvalidVersion);
      }
      if id.source != "" && id.sequence > 0 && version > 0 {
        var logged := backend.GetOps(docId, 0, version);
        if logged.Err? {
          return Refuse(OutOfRange);
        }
        var i := FindRecord(logged.value, id);
        if i < |logged.value| {
          var seen := logged.value[i];
          if seen.submittedOp.Some? && r.operation != seen.submittedOp {
            return Refuse(SequenceConflict);
          }
          return Answer(SubmitResult(version, false, true, seen.op, document));
        }
      }
      decision := DecideNew(docId, version, document, r);
    }

    /** The decision on a request under no logged identity. */
    method DecideNew(docId: DocId, version: int, document: Value, r: SubmitRequest) returns (decision: Decision)
      requires StoredDoc(docId).Some? && Numbered(StoredDoc(docId).value) && 0 <= r.baseVersion <= version
      requires version == StoredDoc(docId).value.version && document == StoredDoc(docId).value.doc
      requires parsedOps.Valid()
      modifies parsedOps
      ensures parsedOps.Valid()
      ensures (decision, parsedOps.CacheOf(docId)) ==
        match ParseRequest(r.operation)
        case Err(e) => (Refuse(OperationFailed(e)), old(parsedOps.CacheOf(docId)))
        case Ok(op) =>
          ShareDb.DecideParsed(Named(docId), StoredDoc(docId).value, old(parsedOps.CacheOf(docId)), r, op, maxRebaseGap)
      ensures forall e :: e != docId ==> parsedOps.CacheOf(e) == old(parsedOps.CacheOf(e))
    {
      var op := ParseOperation(r.operation);
      match op
      case Err(e) => return Refuse(OperationFailed(e));
      case Ok(parsed) => decision := DecideParsed(docId, version, document, r, parsed);
    }

    method DecideParsed(docId: DocId, version: int, document: Value, r: SubmitRequest, op: seq<OperationComponent>)
      returns (decision: Decision)
      requires parsedOps.Valid() && Distinct(op) && forall c :: c in op ==> c !in parsedOps.Repr
      requires StoredDoc(docId).Some? && Numbered(StoredDoc(docId).value) && 0 <= r.baseVersion <= version
      requires version == StoredDoc(docId).value.version && document == StoredDoc(docId).value.doc
      modifies parsedOps, op
      ensures parsedOps.Valid()
      ensures (decision, parsedOps.CacheOf(docId))
           == ShareDb.DecideParsed(Named(docId), StoredDoc(docId).value, old(parsedOps.CacheOf(docId)), r,
                                   old(Values(op)), maxRebaseGap)
      ensures forall e :: e != docId ==> parsedOps.CacheOf(e) == old(parsedOps.CacheOf(e))
    {
      var transformed := op;
      if r.baseVersion < version {
        var gap := version - r.baseVersion;
        if maxRebaseGap > 0 && gap > maxRebaseGap {
          return Refuse(StaleResyncRequired(version, version - maxRebaseGap));
        }
        var concurrentOps := backend.GetOps(docId, r.baseVersion, version);
        if concurrentOps.Err? {
          return Refuse(OutOfRange);
        }
        var rebased := Rebase(docId, op, concurrentOps.value);
        if rebased.Err? {
          return Refuse(OperationFailed(rebased.error));
        }
        transformed := rebased.value;
      }
      decision := DecideRebased(version, document, r, Values(transformed), StoredDoc(docId).value);
    }

    method DecideRebased(version: int, document: Value, r: SubmitRequest, transformed: Op, ghost d: Doc)
      returns (decision: Decision)
      requires version == d.version && document == d.doc
      ensures decision == ShareDb.DecideRebased(d, r, transformed)
    {
      var rebased := r.baseVersion < version;
      if transformed == [] {
        return Answer(SubmitResult(version, rebased, false, Arr([]), document));
      }
      var applied := ApplyOperation(document, transformed);
      if applied.Err? {
        return Refuse(OperationFailed(applied.error));
      }
      var id := RequestId(r);
      var serializedOp := Wire.ToValue(transformed);
      return Write(transformed, applied.value,
                   OpRecord(version + 1, r.baseVersion, id, id.source, id.sequence, r.operation, serializedOp),
                   SubmitResult(version + 1, rebased, false, serializedOp, applied.value));
    }

    /** The part of a rollback that only reads. */
    method DecideRollback(docId: DocId, version: int, document: Value, target: int, source: string)
      returns (decision: Decision)
      requires StoredDoc(docId).Some? && Numbered(StoredDoc(docId).value)
      requires version == StoredDoc(docId).value.version && document == StoredDoc(docId).value.doc
      requires parsedOps.Valid()
      modifies parsedOps
      ensures parsedOps.Valid()
      ensures (decision, parsedOps.CacheOf(docId))
           == ShareDb.DecideRollback(Named(docId), StoredDoc(docId).value, old(parsedOps.CacheOf(docId)), target,
                                     source)
      ensures forall e :: e != docId ==> parsedOps.CacheOf(e) == old(parsedOps.CacheOf(e))
    {
      if target < 0 || target > version {
        return Refuse(InvalidVersion);
      }
      if target == version {
        return Answer(SubmitResult(version, false, false, Arr([]), document));
      }
      var records := GetOperations(docId, target, version);
      if records.Err? {
        return Refuse(IncompleteHistory);
      }
      var undone := RollBack(docId, document, records.value);
      if undone.Err? {
        return Refuse(OperationFailed(undone.error));
      }
      var bad := ValidationError(undone.value.0);
      if bad.Some? {
        return Refuse(OperationFailed(bad.value));
      }
      var serializedOp := Wire.ToValue(undone.value.0);
      return Write(undone.value.0, undone.value.1,
                   OpRecord(version + 1, version, OpId("", 0), source, 0, Some(serializedOp), serializedOp),
                   SubmitResult(version + 1, false, false, serializedOp, undone.value.1));
    }

    /** All but one document are in step with their rooms. */
    ghost predicate OthersInStep(docId: DocId)
      reads this, backend, parsedOps
    {
      forall d :: d != docId ==> Room(d).doc == StoredDoc(d) && Room(d).cache == parsedOps.CacheOf(d) && Sound(Room(d))
    }

    /** Every channel follows its feed, that of one document being `feed`. */
    ghost predicate ChannelsFollow(docId: DocId, feed: seq<Event>)
      reads this, pub
    {
      && pub.Valid()
      && forall id :: id in pub.subs ==>
           Follows(pub.subs[id], if pub.subs[id].doc == docId then feed else Room(pub.subs[id].doc).feed)
    }

    /** Write down what has become of a room. */
    ghost method Settle(docId: DocId, next: Requests.Room)
      requires parsedOps.Valid()
      requires OthersInStep(docId) && ChannelsFollow(docId, next.feed)
      requires next.doc == StoredDoc(docId) && next.cache == parsedOps.CacheOf(docId) && Sound(next)
      modifies this`rooms
      ensures Valid() && Room(docId) == next
      ensures forall d :: d != docId ==> Room(d) == old(Room(d))
    {
      rooms := rooms[docId := next];
      forall d ensures Room(d).doc == StoredDoc(d) && Room(d).cache == parsedOps.CacheOf(d) && Sound(Room(d)) {
        assert d != docId ==> Room(d) == old(Room(d));
      }
      forall id | id in pub.subs ensures Follows(pub.subs[id], Room(pub.subs[id].doc).feed) {
        assert pub.subs[id].doc != docId ==> Room(pub.subs[id].doc) == old(Room(pub.subs[id].doc));
      }
    }

    /** Publish an event on a document. */
    method Announce(docId: DocId, e: Event, ready: set<SubId>, ghost feed: seq<Event>)
      requires ChannelsFollow(docId, feed)
      modifies pub
      ensures ChannelsFollow(docId, feed + [e])
      ensures pub.subs == OfferAll(old(pub.subs), docId, feed, feed + [e], ready)
    {
      pub.Publish(docId, e, ready);
      forall id | id in pub.subs
        ensures Follows(pub.subs[id], if pub.subs[id].doc == docId then feed + [e] else Room(pub.subs[id].doc).feed)
      {
        if pub.subs[id].doc == docId {
          OfferFollows(old(pub.subs)[id], feed, e, id in ready);
        }
      }
    }

    /** Publish an event and write down what has become of the room. */
    method Conclude(docId: DocId, e: Event, ready: set<SubId>, ghost feed: seq<Event>, ghost next: Requests.Room)
      requires parsedOps.Valid() && OthersInStep(docId) && ChannelsFollow(docId, feed) && next.feed == feed + [e]
      requires next.doc == StoredDoc(docId) && next.cache == parsedOps.CacheOf(docId) && Sound(next)
      modifies this`rooms, pub
      ensures Valid() && Room(docId) == next
      ensures forall d :: d != docId ==> Room(d) == old(Room(d))
      ensures pub.subs == OfferAll(old(pub.subs), docId, feed, next.feed, ready)
    {
      Announce(docId, e, ready, feed);
      Settle(docId, next);
    }

    /** Persist, cache, publish. */
    method Commit(docId: DocId, w: Writing, ready: set<SubId>, ghost room: Requests.Room)
      requires parsedOps.Valid()
      requires OthersInStep(docId) && ChannelsFollow(docId, room.feed)
      requires room.doc == StoredDoc(docId) && room.doc.Some? && room.cache == parsedOps.CacheOf(docId)
      requires Sound(room) && Writes(room.doc.value, w.applied, w.snapshot, w.record)
      modifies this`rooms, backend, parsedOps, pub
      ensures Valid() && Room(docId) == Wrote(Named(docId), room, room.doc.value, w.applied, w.snapshot, w.record)
      ensures forall e :: e != docId ==> Room(e) == old(Room(e))
      ensures pub.subs == OfferAll(old(pub.subs), docId, room.feed, Room(docId).feed, ready)
    {
      ghost var next := Wrote(Named(docId), room, room.doc.value, w.applied, w.snapshot, w.record);
      WroteKeepsSound(Named(docId), room, room.doc.value, w.applied, w.snapshot, w.record);
      var failure := backend.CommitOp(docId, w.snapshot, w.record);
      CacheApplied(docId, w.record.version, w.applied);
      Conclude(docId, OpEvent(w.record, w.snapshot), ready, room.feed, next);
    }

    /** Answer a request as decided, writing what it writes. */
    method Finish(docId: DocId, decision: Decision, ready: set<SubId>, ghost room: Requests.Room) returns (reply: Reply)
      requires parsedOps.Valid()
      requires OthersInStep(docId) && ChannelsFollow(docId, room.feed) && Sound(room)
      requires room.doc == StoredDoc(docId) && room.doc.Some? && room.cache == parsedOps.CacheOf(docId)
      requires decision.Write? ==> Writes(room.doc.value, decision.applied, decision.snapshot, decision.record)
      modifies this`rooms, backend, parsedOps, pub
      ensures Valid() && (Room(docId), reply) == Settled(Named(docId), room, room.doc.value, decision)
      ensures forall e :: e != docId ==> Room(e) == old(Room(e))
      ensures pub.subs == OfferAll(old(pub.subs), docId, room.feed, Room(docId).feed, ready)
    {
      match decision
      case Refuse(f) =>
        Settle(docId, room);
        return Failed(f);
      case Answer(result) =>
        Settle(docId, room);
        return Done(result);
      case Write(_, _, _, result) =>
        Commit(docId, decision, ready, room);
        return Done(result);
    }

    /** Submit an operation made on some version of a document. */
    method Submit(docId: DocId, r: SubmitRequest, ready: set<SubId>) returns (reply: Reply)
      requires Valid()
      modifies this`rooms, backend, parsedOps, pub
      ensures Valid() && (Room(docId), reply) == Serve(Named(docId), maxRebaseGap, old(Room(docId)), Request.Submit(r))
      ensures forall e :: e != docId ==> Room(e) == old(Room(e))
      ensures pub.subs == OfferAll(old(pub.subs), docId, old(Room(docId)).feed, Room(docId).feed, ready)
    {
      ghost var room := Room(docId);
      var rec := backend.GetDoc(docId);
      if rec.None? {
        return Failed(NotFound);
      }
      var decision := DecideSubmit(docId, rec.value.0, rec.value.1, r);
      DecisionIsSound(Named(docId), maxRebaseGap, room, Request.Submit(r));
      reply := Finish(docId, decision, ready, room.(cache := parsedOps.CacheOf(docId)));
    }

    /** Take a document back to an earlier version, as one more version. */
    method RollbackToVersion(docId: DocId, target: int, source: string, ready: set<SubId>) returns (reply: Reply)
      requires Valid()
      modifies this`rooms, backend, parsedOps, pub
      ensures Valid()
      ensures (Room(docId), reply) == Serve(Named(docId), maxRebaseGap, old(Room(docId)), Rollback(target, source))
      ensures forall e :: e != docId ==> Room(e) == old(Room(e))
      ensures pub.subs == OfferAll(old(pub.subs), docId, old(Room(docId)).feed, Room(docId).feed, ready)
    {
      ghost var room := Room(docId);
      var rec := backend.GetDoc(docId);
      if rec.None? {
        return Failed(NotFound);
      }
      var decision := DecideRollback(docId, rec.value.0, rec.value.1, target, source);
      DecisionIsSound(Named(docId), maxRebaseGap, room, Rollback(target, source));
      reply := Finish(docId, decision, ready, room.(cache := parsedOps.CacheOf(docId)));
    }

    method CreateDocument(docId: DocId, initial: Option<Value>) returns (reply: Reply)
      requires Valid()
      modifies this`rooms, backend
      ensures Valid() && (Room(docId), reply) == Serve(Named(docId), maxRebaseGap, old(Room(docId)), Create(initial))
      ensures forall e :: e != docId ==> Room(e) == old(Room(e))
    {
      ghost var room := Room(docId);
      ServeKeepsSound(Named(docId), maxRebaseGap, room, Create(initial));
      var payload := Obj(map[]);
      if initial.Some? {
        payload := initial.value;
      }
      var failure := backend.CreateDoc(docId, payload);
      if failure.Some? {
        return Failed(failure.value);
      }
      Settle(docId, Requests.CreateDoc(room, payload));
      return Created(payload);
    }

    /** Delete a document at the version the caller expects. */
    method DeleteDocument(docId: DocId, baseVersion: int, source: string, ready: set<SubId>) returns (reply: Reply)
      requires Valid()
      modifies this`rooms, backend, parsedOps, pub
      ensures Valid()
      ensures (Room(docId), reply) == Serve(Named(docId), maxRebaseGap, old(Room(docId)), Delete(baseVersion, source))
      ensures forall e :: e != docId ==> Room(e) == old(Room(e))
      ensures pub.subs == OfferAll(old(pub.subs), docId, old(Room(docId)).feed, Room(docId).feed, ready)
    {
      ghost var room := Room(docId);
      var rec := backend.GetDoc(docId);
      if rec.None? {
        return Failed(NotFound);
      }
      if baseVersion != rec.value.0 {
        return Failed(InvalidVersion);
      }
      ErasedKeepsSound(room, room.doc.value, source);
      var failure := backend.DeleteDoc(docId);
      parsedOps.DeleteDocument(docId);
      Conclude(docId, Event(Deleted, rec.value.0, OpId("", 0), source, 0, None, rec.value.1), ready, room.feed,
               Erased(room, room.doc.value, source));
      return Removed;
    }

    /** The document as it was at a version; what is parsed on the way stays in the cache. */
    method GetSnapshotAt(docId: DocId, version: int) returns (snapshot: Result<Value>)
      requires Valid()
      modifies this`rooms, parsedOps
      ensures Valid()
      ensures var room := old(Room(docId));
        if room.doc.None? then snapshot == Err(InvalidOperation) && Room(docId) == room
        else (snapshot, Room(docId).cache) == SnapshotAt(Named(docId), room.doc.value, room.cache, version)
             && Room(docId) == room.(cache := Room(docId).cache)
      ensures forall e :: e != docId ==> Room(e) == old(Room(e))
    {
      ghost var room := Room(docId);
      var rec := backend.GetDoc(docId);
      if rec.None? {
        return Err(InvalidOperation);
      }
      if version < 0 || version > rec.value.0 {
        return Err(InvalidParameter);
      }
      if version == rec.value.0 {
        return Ok(rec.value.1);
      }
      ReadingOnlyFills(Named(docId), room, version);
      snapshot := DocumentAtVersion(docId, rec.value.0, rec.value.1, version);
      Settle(docId, room.(cache := parsedOps.CacheOf(docId)));
    }

    /** Open a channel on a document that exists. */
    method Subscribe(docId: DocId, buffer: int) returns (id: Option<SubId>)
      requires Valid()
      modifies pub
      ensures Valid()
      ensures Room(docId).doc.None? ==> id.None? && pub.subs == old(pub.subs)
      ensures Room(docId).doc.Some? ==>
        && id.Some? && id.value !in old(pub.subs)
        && pub.subs == old(pub.subs)[id.value := Subscriber(docId, if buffer < 0 then 0 else buffer, [], [])]
    {
      var rec := backend.GetDoc(docId);
      if rec.None? {
        return None;
      }
      var channel := pub.Subscribe(docId, buffer);
      NewSubscriberFollows(docId, if buffer < 0 then 0 else buffer, Room(docId).feed);
      return Some(channel);
    }
  }

  /** The objects in the cache refine the log: whatever was submitted, rebased, inverted and transformed in place
      before, those cached for a version hold what its record parses to, up to the names of subtypes. */
  lemma {:induction false} CachedObjectsRefineLog(s: Server, docId: DocId, version: int)
    requires s.Valid() && docId in s.parsedOps.docs && version in s.parsedOps.docs[docId]
    requires s.Room(docId).doc.Some? && 1 <= version <= |s.Room(docId).applied|
    requires var op := s.Room(docId).applied[version - 1]; Wire.AllPrintable(op) && ValidationError(op).None?
    ensures var d := s.Room(docId).doc.value;
      && version <= |d.ops|
      && Wire.ParseOperation(d.ops[version - 1].op) == Ok(Wire.RenamedAll(Values(s.parsedOps.docs[docId][version])))
  {
    var room, cache := s.Room(docId), s.parsedOps.CacheOf(docId);
    assert Hold(s.parsedOps.docs[docId], s.parsedOps.contents[docId], s.parsedOps.Repr);
    assert Holds(s.parsedOps.docs[docId][version], cache[version], s.parsedOps.Repr);
    assert Sound(room) && room.cache == cache;
    Faithful.CachedRefines(cache, room.doc.value, room.applied, version);
  }
}
