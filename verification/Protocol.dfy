/** The steps of one request while it holds the document's lock: each reads or writes one part of the shared state. */
module Protocol {
  import opened Json
  import opened ShareDb
  import opened Requests
  import opened Serial

  /** How far a request has come since it took the lock. */
  datatype Point =
    | Held
    | Loaded(version: int, value: Value)
    | Fetched(view: Doc)
    | Resolved(view: Doc, write: Writing)
    | Saved(view: Doc, write: Writing)
    | Cached(view: Doc, write: Writing)
    | Erased(version: int, value: Value, source: string)
    | Forgotten(version: int, value: Value, source: string)
    | Leaving(reply: Reply)

  /** The next step, on the room as it is when the step is taken. */
  function Progress(named: bool, maxGap: int, room: Room, request: Request, at: Point): (Room, Point) {
    match at
    case Held => Load(room, request)
    case Loaded(version, value) => Fetch(room, request, version, value)
    case Fetched(view) => Resolve(named, maxGap, room, request, view)
    case Resolved(view, w) =>
      if room.doc.None? then (room, Leaving(Failed(NotFound)))
      else (CommitOp(room, room.doc.value, w.applied, w.snapshot, w.record), Saved(view, w))
    case Saved(view, w) => (StoreParsed(named, room, w.record.version, w.applied), Cached(view, w))
    case Cached(_, w) => (Publish(room, OpEvent(w.record, w.snapshot)), Leaving(Done(w.result)))
    case Erased(version, value, source) => (ForgetParsed(room), Forgotten(version, value, source))
    case Forgotten(version, value, source) =>
      (Publish(room, DeleteEvent(Doc(version, value, []), source)), Leaving(Removed))
    case Leaving(_) => (room, at)
  }

  /** Create the document, or read its version and snapshot. */
  function Load(room: Room, request: Request): (Room, Point) {
    match request
    case Create(initial) =>
      if room.doc.Some? then (room, Leaving(Failed(Exists)))
      else
        var payload := if initial.Some? then initial.value else Obj(map[]);
        (CreateDoc(room, payload), Leaving(Created(payload)))
    case _ =>
      if room.doc.None? then (room, Leaving(Failed(NotFound)))
      else (room, Loaded(room.doc.value.version, room.doc.value.doc))
  }

  /** Delete the stored document, or read its log. */
  function Fetch(room: Room, request: Request, version: int, value: Value): (Room, Point) {
    match request
    case Delete(baseVersion, source) =>
      if baseVersion != version then (room, Leaving(Failed(InvalidVersion)))
      else if room.doc.None? then (room, Leaving(Failed(NotFound)))
      else (DeleteDoc(room), Erased(version, value, source))
    case _ =>
      if room.doc.None? then (room, Leaving(Failed(NotFound)))
      else (room, Fetched(Doc(version, value, room.doc.value.ops)))
  }

  /** Decide on what was read, through the cache as it is now. */
  function Resolve(named: bool, maxGap: int, room: Room, request: Request, view: Doc): (Room, Point) {
    if !request.Submit? && !request.Rollback? then (room, Leaving(Failed(NotFound)))
    else
      var (decision, filled) := Decide(named, maxGap, view, room.cache, request);
      var r := room.(cache := filled);
      match decision
      case Refuse(f) => (r, Leaving(Failed(f)))
      case Answer(result) => (r, Leaving(Done(result)))
      case Write(_, _, _, _) => (r, Resolved(view, decision))
  }

  // ---- The steps make up the request --------------------------------------------------------------------

  /** The request has decided to write `w` in the room it found. */
  predicate Decides(named: bool, maxGap: int, entry: Room, request: Request, view: Doc, w: Writing) {
    && (request.Submit? || request.Rollback?)
    && entry.doc == Some(view) && Decide(named, maxGap, view, entry.cache, request).0 == w
  }

  function Filling(named: bool, maxGap: int, entry: Room, request: Request, view: Doc): Room
    requires request.Submit? || request.Rollback?
  {
    entry.(cache := Decide(named, maxGap, view, entry.cache, request).1)
  }

  /** The request deletes the document it found, at the version it expects. */
  predicate Deletes(entry: Room, request: Request, version: int, value: Value, source: string) {
    && request.Delete? && request.source == source && request.baseVersion == version
    && entry.doc.Some? && entry.doc.value.version == version && entry.doc.value.doc == value
  }

  /** The room is what the request has made, up to this point, of the room it found when it took the lock. */
  predicate Along(named: bool, maxGap: int, entry: Room, room: Room, request: Request, at: Point) {
    match at
    case Held => room == entry
    case Loaded(version, value) =>
      room == entry && !request.Create? && entry.doc.Some? && entry.doc.value.version == version
        && entry.doc.value.doc == value
    case Fetched(view) => room == entry && (request.Submit? || request.Rollback?) && entry.doc == Some(view)
    case Resolved(view, w) =>
      Decides(named, maxGap, entry, request, view, w) && room == Filling(named, maxGap, entry, request, view)
    case Saved(view, w) =>
      && Decides(named, maxGap, entry, request, view, w)
      && room == CommitOp(Filling(named, maxGap, entry, request, view), view, w.applied, w.snapshot, w.record)
    case Cached(view, w) =>
      && Decides(named, maxGap, entry, request, view, w)
      && room == StoreParsed(named, CommitOp(Filling(named, maxGap, entry, request, view), view, w.applied, w.snapshot,
                                             w.record), w.record.version, w.applied)
    case Erased(version, value, source) =>
      Deletes(entry, request, version, value, source) && room == DeleteDoc(entry)
    case Forgotten(version, value, source) =>
      Deletes(entry, request, version, value, source) && room == ForgetParsed(DeleteDoc(entry))
    case Leaving(reply) => (room, reply) == Serve(named, maxGap, entry, request)
  }

  lemma {:induction false} LoadGoesAlong(named: bool, maxGap: int, entry: Room, request: Request)
    ensures var (next, point) := Load(entry, request); Along(named, maxGap, entry, next, request, point)
  {
  }

  lemma {:induction false} FetchGoesAlong(named: bool, maxGap: int, entry: Room, request: Request, version: int,
      value: Value)
    requires Along(named, maxGap, entry, entry, request, Loaded(version, value))
    ensures var (next, point) := Fetch(entry, request, version, value);
      Along(named, maxGap, entry, next, request, point)
  {
  }

  lemma {:induction false} ResolveGoesAlong(named: bool, maxGap: int, entry: Room, request: Request, view: Doc)
    requires Along(named, maxGap, entry, entry, request, Fetched(view))
    ensures var (next, point) := Resolve(named, maxGap, entry, request, view);
      Along(named, maxGap, entry, next, request, point)
  {
  }

  /** Every step goes along, so a request that leaves has done exactly what it does on its own. */
  lemma {:induction false} ProgressGoesAlong(named: bool, maxGap: int, entry: Room, room: Room, request: Request,
      at: Point)
    requires Along(named, maxGap, entry, room, request, at)
    ensures var (next, point) := Progress(named, maxGap, room, request, at);
      Along(named, maxGap, entry, next, request, point)
  {
    match at
    case Held => LoadGoesAlong(named, maxGap, entry, request);
    case Loaded(version, value) => FetchGoesAlong(named, maxGap, entry, request, version, value);
    case Fetched(view) => ResolveGoesAlong(named, maxGap, entry, request, view);
    case _ =>
  }

  /** What holds of the stored document, its log and its cache at every point, not only between requests. */
  predicate Stands(room: Room) {
    && InOrder(room.feed)
    && (room.doc.Some? ==>
          var d := room.doc.value;
          && Numbered(d) && Records(d, room.applied) && DistinctIdentities(d.ops)
          && Backed(room.cache, d, room.applied) && Heard(room.feed, room.past, d))
  }

  lemma {:induction false} SavedStands(named: bool, maxGap: int, entry: Room, request: Request, view: Doc, w: Writing)
    requires Sound(entry) && Decides(named, maxGap, entry, request, view, w)
    ensures var saved := CommitOp(Filling(named, maxGap, entry, request, view), view, w.applied, w.snapshot, w.record);
      Stands(saved) && Stands(StoreParsed(named, saved, w.record.version, w.applied))
  {
    var filled := Filling(named, maxGap, entry, request, view);
    DecideOnlyFills(named, maxGap, view, entry.cache, request);
    FilledKeepsSound(entry, filled.cache);
    DecisionWrites(named, maxGap, view, entry.cache, request);
    CommitKeepsLog(view, entry.applied, w.applied, w.snapshot, w.record);
    CommitKeepsCache(named, filled.cache, view, entry.applied, w.applied, w.snapshot, w.record);
  }

  /** A room found sound stands at every point of a request. */
  lemma {:induction false} AlongStands(named: bool, maxGap: int, entry: Room, room: Room, request: Request, at: Point)
    requires Sound(entry) && Along(named, maxGap, entry, room, request, at)
    ensures Stands(room)
    ensures room.doc.None? && !at.Erased? ==> room.cache == map[]
  {
    match at
    case Resolved(view, w) =>
      DecideOnlyFills(named, maxGap, view, entry.cache, request);
      FilledKeepsSound(entry, room.cache);
    case Saved(view, w) => SavedStands(named, maxGap, entry, request, view, w);
    case Cached(view, w) => SavedStands(named, maxGap, entry, request, view, w);
    case Leaving(_) => ServeKeepsSound(named, maxGap, entry, request);
    case _ =>
  }

  /** Until it commits or deletes, a request leaves the document and the feed as it found them. */
  lemma {:induction false} NothingYet(named: bool, maxGap: int, entry: Room, room: Room, request: Request, at: Point)
    requires Along(named, maxGap, entry, room, request, at)
    requires at.Held? || at.Loaded? || at.Fetched? || at.Resolved?
    ensures room == entry.(cache := room.cache)
  {
  }

  /** A step never shortens a log or rewrites an entry; only creation starts a new one. */
  lemma {:induction false} ProgressKeepsLog(named: bool, maxGap: int, room: Room, request: Request, at: Point)
    ensures var next := Progress(named, maxGap, room, request, at).0;
      && room.births <= next.births
      && (next.doc.Some? && room.births == next.births ==> room.doc.Some? && room.doc.value.ops <= next.doc.value.ops)
      && room.feed <= next.feed && |next.feed| <= |room.feed| + 1
  {
  }

  function StepsLeft(at: Point): nat {
    match at
    case Held => 6
    case Loaded(_, _) => 5
    case Fetched(_) => 4
    case Resolved(_, _) => 3
    case Saved(_, _) => 2
    case Cached(_, _) => 1
    case Erased(_, _, _) => 2
    case Forgotten(_, _, _) => 1
    case Leaving(_) => 0
  }

  /** A request that holds the lock leaves after at most six steps. */
  lemma {:induction false} ProgressEnds(named: bool, maxGap: int, room: Room, request: Request, at: Point)
    requires !at.Leaving?
    ensures StepsLeft(Progress(named, maxGap, room, request, at).1) < StepsLeft(at)
  {
  }
}
