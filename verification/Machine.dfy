/** Any number of clients, documents and subscribers, their steps interleaved in any order. */
module Machine {
  import opened Json
  import opened ShareDb
  import opened Requests
  import opened Serial
  import opened Protocol

  type Client = nat
  type SubId = nat

  datatype Phase =
    | Idle
    | Waiting(doc: DocId, request: Request)
    | Inside(doc: DocId, request: Request, entry: Room, at: Point)

  /** A subscriber's channel: what is buffered and what was taken out of it. */
  datatype Subscriber = Subscriber(doc: DocId, buffer: nat, queue: seq<Event>, seen: seq<Event>)

  datatype Served = Served(client: Client, request: Request, reply: Reply)

  datatype State = State(
    rooms: map<DocId, Room>,
    locks: map<DocId, Client>,
    clients: map<Client, Phase>,
    subs: map<SubId, Subscriber>,
    served: map<DocId, seq<Served>>)

  const START := State(map[], map[], map[], map[], map[])

  datatype Action =
    | Ask(client: Client, doc: DocId, request: Request)
    | Lock(client: Client)
    | Step(client: Client, ready: set<SubId>)
    | Unlock(client: Client)
    | Subscribe(id: SubId, doc: DocId, buffer: int)
    | Receive(id: SubId)
    | Cancel(id: SubId)

  function RoomOf(s: State, d: DocId): Room {
    if d in s.rooms then s.rooms[d] else EMPTY_ROOM
  }

  function PhaseOf(s: State, c: Client): Phase {
    if c in s.clients then s.clients[c] else Idle
  }

  function ServedOf(s: State, d: DocId): seq<Served> {
    if d in s.served then s.served[d] else []
  }

  function Named(d: DocId): bool { d != "" }

  // ---- Channels -----------------------------------------------------------------------------------------

  /** Offer an event: a waiting receiver takes it, else it is buffered, else it is dropped. */
  function Offer(sub: Subscriber, e: Event, ready: bool): Subscriber {
    if ready && sub.queue == [] then sub.(seen := sub.seen + [e])
    else if |sub.queue| < sub.buffer then sub.(queue := sub.queue + [e])
    else sub
  }

  function OfferTo(sub: Subscriber, d: DocId, e: Event, ready: bool): Subscriber {
    if sub.doc == d then Offer(sub, e, ready) else sub
  }

  /** Offer what was published, if anything was, to every subscriber of the document. */
  function OfferAll(subs: map<SubId, Subscriber>, d: DocId, before: seq<Event>, after: seq<Event>,
      ready: set<SubId>)
    : map<SubId, Subscriber>
  {
    if |after| <= |before| then subs
    else map id | id in subs :: OfferTo(subs[id], d, after[|before|], id in ready)
  }

  function TakeOne(sub: Subscriber): Subscriber {
    if sub.queue == [] then sub else sub.(queue := sub.queue[1..], seen := sub.seen + [sub.queue[0]])
  }

  // ---- Steps --------------------------------------------------------------------------------------------

  /** What a step of a request does to a document's room. */
  type Stepper = (DocId, Room, Request, Point) -> (Room, Point)

  function Steps(maxGap: int): Stepper {
    (d, room, request, at) => Progress(Named(d), maxGap, room, request, at)
  }

  /** A client's step has changed the room and got it further. */
  function Stepped(s: State, c: Client, p: Phase, next: Room, at: Point, ready: set<SubId>): State
    requires p.Inside?
  {
    s.(rooms := s.rooms[p.doc := next], clients := s.clients[c := p.(at := at)],
       subs := OfferAll(s.subs, p.doc, RoomOf(s, p.doc).feed, next.feed, ready))
  }

  /** One step of the whole; a step that is not possible leaves the state as it is. */
  function Move(step: Stepper, s: State, a: Action): State {
    match a
    case Ask(c, d, request) =>
      if PhaseOf(s, c).Idle? then s.(clients := s.clients[c := Waiting(d, request)]) else s
    case Lock(c) =>
      var p := PhaseOf(s, c);
      if p.Waiting? && p.doc !in s.locks then
        s.(locks := s.locks[p.doc := c], clients := s.clients[c := Inside(p.doc, p.request, RoomOf(s, p.doc), Held)])
      else s
    case Step(c, ready) =>
      var p := PhaseOf(s, c);
      if p.Inside? then
        var (next, at) := step(p.doc, RoomOf(s, p.doc), p.request, p.at);
        Stepped(s, c, p, next, at, ready)
      else s
    case Unlock(c) =>
      var p := PhaseOf(s, c);
      if p.Inside? && p.at.Leaving? then
        s.(locks := s.locks - {p.doc}, clients := s.clients[c := Idle],
           served := s.served[p.doc := ServedOf(s, p.doc) + [Served(c, p.request, p.at.reply)]])
      else s
    case Subscribe(id, d, buffer) =>
      if id in s.subs || RoomOf(s, d).doc.None? then s
      else s.(subs := s.subs[id := Subscriber(d, if buffer < 0 then 0 else buffer, [], [])])
    case Receive(id) =>
      if id in s.subs then s.(subs := s.subs[id := TakeOne(s.subs[id])]) else s
    case Cancel(id) => s.(subs := s.subs - {id})
  }

  function Next(maxGap: int, s: State, a: Action): State {
    Move(Steps(maxGap), s, a)
  }

  function Run(maxGap: int, s: State, actions: seq<Action>): State
    decreases |actions|
  {
    if actions == [] then s else Next(maxGap, Run(maxGap, s, actions[..|actions| - 1]), actions[|actions| - 1])
  }

  // ---- The invariant ------------------------------------------------------------------------------------

  function RequestsOf(served: seq<Served>): seq<Request> {
    seq(|served|, i requires 0 <= i < |served| => served[i].request)
  }

  /** The room after the served requests, each run alone. */
  function After(maxGap: int, d: DocId, served: seq<Served>): Room {
    ServeAll(Named(d), maxGap, EMPTY_ROOM, RequestsOf(served))
  }

  /** A client is inside a document's lock exactly when it holds it. */
  ghost predicate Exclusive(s: State) {
    && (forall d :: d in s.locks ==> PhaseOf(s, s.locks[d]).Inside? && PhaseOf(s, s.locks[d]).doc == d)
    && (forall c :: PhaseOf(s, c).Inside? ==> PhaseOf(s, c).doc in s.locks && s.locks[PhaseOf(s, c).doc] == c)
  }

  /** A room that is not locked is what the served requests make of it one by one. */
  predicate AtRest(maxGap: int, d: DocId, locked: bool, room: Room, served: seq<Served>) {
    !locked ==> room == After(maxGap, d, served)
  }

  /** A client inside a lock found the room like that, and has come some way. */
  predicate OnItsWay(maxGap: int, p: Phase, room: Room, served: seq<Served>) {
    p.Inside? ==>
      p.entry == After(maxGap, p.doc, served) && Along(Named(p.doc), maxGap, p.entry, room, p.request, p.at)
  }

  function DocOf(p: Phase): DocId {
    if p.Idle? then "" else p.doc
  }

  ghost predicate Serializable(maxGap: int, s: State) {
    && (forall d :: AtRest(maxGap, d, d in s.locks, RoomOf(s, d), ServedOf(s, d)))
    && (forall c :: OnItsWay(maxGap, PhaseOf(s, c), RoomOf(s, DocOf(PhaseOf(s, c))), ServedOf(s, DocOf(PhaseOf(s, c)))))
  }

  /** Every request was answered as it is when the requests run one by one. */
  predicate Answered(maxGap: int, d: DocId, served: seq<Served>) {
    forall i :: 0 <= i < |served| ==>
      served[i].reply == Serve(Named(d), maxGap, After(maxGap, d, served[..i]), served[i].request).1
  }

  /** Events taken from a feed at increasing positions. */
  predicate Places(events: seq<Event>, feed: seq<Event>, positions: seq<nat>) {
    && |positions| == |events|
    && (forall i :: 0 <= i < |events| ==> positions[i] < |feed| && events[i] == feed[positions[i]])
    && (forall i, j :: 0 <= i < j < |events| ==> positions[i] < positions[j])
  }

  /** What a subscriber got is part of the document's feed, in order, and no more is buffered than fits. */
  ghost predicate Follows(sub: Subscriber, feed: seq<Event>) {
    |sub.queue| <= sub.buffer && exists positions: seq<nat> :: Places(sub.seen + sub.queue, feed, positions)
  }

  ghost predicate AllFollow(s: State) {
    forall id :: id in s.subs ==> Follows(s.subs[id], RoomOf(s, s.subs[id].doc).feed)
  }

  ghost predicate Inv(maxGap: int, s: State) {
    && Exclusive(s) && Serializable(maxGap, s)
    && (forall d :: Answered(maxGap, d, ServedOf(s, d)))
    && AllFollow(s)
  }

  // ---- Every step keeps it ------------------------------------------------------------------------------

  lemma {:induction false} InsideHolds(step: Stepper, s: State, a: Action, c: Client)
    requires Exclusive(s)
    ensures var t := Move(step, s, a);
      PhaseOf(t, c).Inside? ==> PhaseOf(t, c).doc in t.locks && t.locks[PhaseOf(t, c).doc] == c
  {
    assert PhaseOf(s, c).Inside? ==> PhaseOf(s, c).doc in s.locks && s.locks[PhaseOf(s, c).doc] == c;
  }

  lemma {:induction false} HolderIsInside(step: Stepper, s: State, a: Action, d: DocId)
    requires Exclusive(s)
    ensures var t := Move(step, s, a);
      d in t.locks ==> PhaseOf(t, t.locks[d]).Inside? && PhaseOf(t, t.locks[d]).doc == d
  {
    assert d in s.locks ==> PhaseOf(s, s.locks[d]).Inside? && PhaseOf(s, s.locks[d]).doc == d;
  }

  lemma {:induction false} MoveIsExclusive(step: Stepper, s: State, a: Action)
    requires Exclusive(s)
    ensures Exclusive(Move(step, s, a))
  {
    forall c ensures var t := Move(step, s, a);
      PhaseOf(t, c).Inside? ==> PhaseOf(t, c).doc in t.locks && t.locks[PhaseOf(t, c).doc] == c
    {
      InsideHolds(step, s, a, c);
    }
    forall d ensures var t := Move(step, s, a);
      d in t.locks ==> PhaseOf(t, t.locks[d]).Inside? && PhaseOf(t, t.locks[d]).doc == d
    {
      HolderIsInside(step, s, a, d);
    }
  }

  /** The request, the room it found and the document a client is inside of do not change while it is inside. */
  lemma {:induction false} OthersStay(step: Stepper, s: State, a: Action, c: Client)
    requires Exclusive(s)
    requires PhaseOf(s, c).Inside? && !((a.Step? || a.Unlock?) && a.client == c)
    ensures var t, p := Move(step, s, a), PhaseOf(s, c);
      PhaseOf(t, c) == p && RoomOf(t, p.doc) == RoomOf(s, p.doc) && ServedOf(t, p.doc) == ServedOf(s, p.doc)
  {
  }

  /** A client that was not inside and now is has just taken a free lock. */
  lemma {:induction false} NewInside(step: Stepper, s: State, a: Action, c: Client)
    requires !PhaseOf(s, c).Inside? && PhaseOf(Move(step, s, a), c).Inside?
    ensures var t, p := Move(step, s, a), PhaseOf(s, c);
      && p.Waiting? && p.doc !in s.locks
      && PhaseOf(t, c) == Inside(p.doc, p.request, RoomOf(s, p.doc), Held)
      && RoomOf(t, p.doc) == RoomOf(s, p.doc) && ServedOf(t, p.doc) == ServedOf(s, p.doc)
  {
  }

  lemma {:induction false} StepSerializes(maxGap: int, s: State, c: Client, ready: set<SubId>)
    requires PhaseOf(s, c).Inside?
    requires OnItsWay(maxGap, PhaseOf(s, c), RoomOf(s, PhaseOf(s, c).doc), ServedOf(s, PhaseOf(s, c).doc))
    ensures var t := Next(maxGap, s, Step(c, ready));
      OnItsWay(maxGap, PhaseOf(t, c), RoomOf(t, PhaseOf(s, c).doc), ServedOf(t, PhaseOf(s, c).doc))
  {
    var p := PhaseOf(s, c);
    ProgressGoesAlong(Named(p.doc), maxGap, p.entry, RoomOf(s, p.doc), p.request, p.at);
  }

  lemma {:induction false} LockSerializes(maxGap: int, d: DocId, request: Request, room: Room, served: seq<Served>)
    requires AtRest(maxGap, d, false, room, served)
    ensures OnItsWay(maxGap, Inside(d, request, room, Held), room, served)
  {
  }

  lemma {:induction false} NewcomerSerializes(maxGap: int, s: State, a: Action, c: Client)
    requires Serializable(maxGap, s) && !PhaseOf(s, c).Inside? && PhaseOf(Next(maxGap, s, a), c).Inside?
    ensures var t := Next(maxGap, s, a);
      OnItsWay(maxGap, PhaseOf(t, c), RoomOf(t, DocOf(PhaseOf(t, c))), ServedOf(t, DocOf(PhaseOf(t, c))))
  {
    var p := PhaseOf(s, c);
    NewInside(Steps(maxGap), s, a, c);
    assert AtRest(maxGap, p.doc, p.doc in s.locks, RoomOf(s, p.doc), ServedOf(s, p.doc));
    LockSerializes(maxGap, p.doc, p.request, RoomOf(s, p.doc), ServedOf(s, p.doc));
  }

  lemma {:induction false} ClientsSerialize(maxGap: int, s: State, a: Action, c: Client)
    requires Exclusive(s) && Serializable(maxGap, s)
    ensures var t := Next(maxGap, s, a);
      OnItsWay(maxGap, PhaseOf(t, c), RoomOf(t, DocOf(PhaseOf(t, c))), ServedOf(t, DocOf(PhaseOf(t, c))))
  {
    var p, t := PhaseOf(s, c), Next(maxGap, s, a);
    assert OnItsWay(maxGap, p, RoomOf(s, DocOf(p)), ServedOf(s, DocOf(p)));
    if p.Inside? {
      if a.Step? && a.client == c {
        StepSerializes(maxGap, s, c, a.ready);
      } else if !(a.Unlock? && a.client == c) {
        OthersStay(Steps(maxGap), s, a, c);
      }
    } else if PhaseOf(t, c).Inside? {
      NewcomerSerializes(maxGap, s, a, c);
    }
  }

  lemma {:induction false} OneMoreServed(maxGap: int, d: DocId, served: seq<Served>, one: Served)
    requires Answered(maxGap, d, served)
    requires one.reply == Serve(Named(d), maxGap, After(maxGap, d, served), one.request).1
    ensures Answered(maxGap, d, served + [one])
  {
    var more := served + [one];
    forall i | 0 <= i < |more|
      ensures more[i].reply == Serve(Named(d), maxGap, After(maxGap, d, more[..i]), more[i].request).1
    {
      assert more[..i] == served[..i];
      assert served[..|served|] == served;
    }
  }

  lemma {:induction false} AfterOneMore(maxGap: int, d: DocId, served: seq<Served>, one: Served)
    ensures After(maxGap, d, served + [one]) == Serve(Named(d), maxGap, After(maxGap, d, served), one.request).0
  {
    var requests := RequestsOf(served + [one]);
    assert requests[..|requests| - 1] == RequestsOf(served) && requests[|requests| - 1] == one.request;
  }

  lemma {:induction false} UnlockSerializes(maxGap: int, d: DocId, served: seq<Served>, one: Served, room: Room)
    requires (room, one.reply) == Serve(Named(d), maxGap, After(maxGap, d, served), one.request)
    ensures room == After(maxGap, d, served + [one])
  {
    AfterOneMore(maxGap, d, served, one);
  }

  /** Only the holder of its lock changes a room. */
  lemma {:induction false} UnlockedStays(step: Stepper, s: State, a: Action, d: DocId)
    requires Exclusive(s)
    ensures d !in Move(step, s, a).locks ==> RoomOf(Move(step, s, a), d) == RoomOf(s, d)
    ensures d !in s.locks ==> ServedOf(Move(step, s, a), d) == ServedOf(s, d)
  {
  }

  /** A document's lock is released by its holder, whose request then counts as served. */
  lemma {:induction false} JustUnlocked(step: Stepper, s: State, a: Action, d: DocId)
    requires Exclusive(s) && d in s.locks && d !in Move(step, s, a).locks
    ensures a.Unlock? && PhaseOf(s, a.client).Inside? && PhaseOf(s, a.client).doc == d
      && PhaseOf(s, a.client).at.Leaving?
    ensures var p := PhaseOf(s, a.client);
      ServedOf(Move(step, s, a), d) == ServedOf(s, d) + [Served(a.client, p.request, p.at.reply)]
  {
  }

  lemma {:induction false} DocsSerialize(maxGap: int, s: State, a: Action, d: DocId)
    requires Exclusive(s) && Serializable(maxGap, s)
    ensures var t := Next(maxGap, s, a); AtRest(maxGap, d, d in t.locks, RoomOf(t, d), ServedOf(t, d))
  {
    UnlockedStays(Steps(maxGap), s, a, d);
    if d !in s.locks {
      assert AtRest(maxGap, d, d in s.locks, RoomOf(s, d), ServedOf(s, d));
    } else if d !in Next(maxGap, s, a).locks {
      JustUnlocked(Steps(maxGap), s, a, d);
      var p := PhaseOf(s, a.client);
      assert OnItsWay(maxGap, p, RoomOf(s, DocOf(p)), ServedOf(s, DocOf(p)));
      UnlockSerializes(maxGap, d, ServedOf(s, d), Served(a.client, p.request, p.at.reply), RoomOf(s, d));
    }
  }

  lemma {:induction false} NextIsAnswered(maxGap: int, s: State, a: Action, d: DocId)
    requires Serializable(maxGap, s) && Answered(maxGap, d, ServedOf(s, d))
    ensures Answered(maxGap, d, ServedOf(Next(maxGap, s, a), d))
  {
    if a.Unlock? {
      var p := PhaseOf(s, a.client);
      if p.Inside? && p.at.Leaving? && p.doc == d {
        assert OnItsWay(maxGap, p, RoomOf(s, DocOf(p)), ServedOf(s, DocOf(p)));
        OneMoreServed(maxGap, d, ServedOf(s, d), Served(a.client, p.request, p.at.reply));
      }
    }
  }

  // ---- Subscribers --------------------------------------------------------------------------------------

  lemma {:induction false} OfferFollows(sub: Subscriber, feed: seq<Event>, e: Event, ready: bool)
    requires Follows(sub, feed)
    ensures Follows(Offer(sub, e, ready), feed + [e])
  {
    var next, events := Offer(sub, e, ready), sub.seen + sub.queue;
    var positions: seq<nat> :| Places(events, feed, positions);
    if next == sub {
      assert Places(events, feed + [e], positions);
    } else {
      assert next.seen + next.queue == events + [e];
      assert Places(events + [e], feed + [e], positions + [|feed|]);
    }
  }

  lemma {:induction false} TakeOneFollows(sub: Subscriber, feed: seq<Event>)
    requires Follows(sub, feed)
    ensures Follows(TakeOne(sub), feed)
  {
    if sub.queue != [] {
      assert TakeOne(sub).seen + TakeOne(sub).queue == sub.seen + sub.queue;
    }
  }

  lemma {:induction false} OfferedFollows(sub: Subscriber, before: seq<Event>, after: seq<Event>, ready: bool)
    requires Follows(sub, before) && before <= after && |after| <= |before| + 1
    ensures Follows(if |after| <= |before| then sub else Offer(sub, after[|before|], ready), after)
  {
    if |after| > |before| {
      assert after == before + [after[|before|]];
      OfferFollows(sub, before, after[|before|], ready);
    } else {
      assert after == before;
    }
  }

  lemma {:induction false} NewSubscriberFollows(d: DocId, buffer: nat, feed: seq<Event>)
    ensures Follows(Subscriber(d, buffer, [], []), feed)
  {
    assert Places([] + [], feed, []);
  }

  lemma {:induction false} SteppedFollows(s: State, c: Client, p: Phase, next: Room, at: Point, ready: set<SubId>)
    requires AllFollow(s) && p.Inside?
    requires RoomOf(s, p.doc).feed <= next.feed && |next.feed| <= |RoomOf(s, p.doc).feed| + 1
    ensures AllFollow(Stepped(s, c, p, next, at, ready))
  {
    var t := Stepped(s, c, p, next, at, ready);
    forall id | id in t.subs ensures Follows(t.subs[id], RoomOf(t, t.subs[id].doc).feed) {
      if s.subs[id].doc == p.doc {
        OfferedFollows(s.subs[id], RoomOf(s, p.doc).feed, next.feed, id in ready);
      }
    }
  }

  lemma {:induction false} StepFollows(maxGap: int, s: State, c: Client, ready: set<SubId>)
    requires AllFollow(s)
    ensures AllFollow(Next(maxGap, s, Step(c, ready)))
  {
    var p := PhaseOf(s, c);
    if p.Inside? {
      var (next, at) := Progress(Named(p.doc), maxGap, RoomOf(s, p.doc), p.request, p.at);
      ProgressKeepsLog(Named(p.doc), maxGap, RoomOf(s, p.doc), p.request, p.at);
      SteppedFollows(s, c, p, next, at, ready);
    }
  }

  /** A channel, besides being offered events, is opened empty or read from. */
  lemma {:induction false} ChannelMoves(step: Stepper, s: State, a: Action, id: SubId)
    requires !a.Step? && id in Move(step, s, a).subs
    ensures var sub := Move(step, s, a).subs[id];
      || sub == Subscriber(sub.doc, sub.buffer, [], [])
      || (id in s.subs && (sub == s.subs[id] || sub == TakeOne(s.subs[id])))
    ensures forall d :: RoomOf(Move(step, s, a), d) == RoomOf(s, d)
  {
  }

  lemma {:induction false} ChannelFollows(step: Stepper, s: State, a: Action)
    requires AllFollow(s) && !a.Step?
    ensures AllFollow(Move(step, s, a))
  {
    var t := Move(step, s, a);
    forall id | id in t.subs ensures Follows(t.subs[id], RoomOf(t, t.subs[id].doc).feed) {
      ChannelMoves(step, s, a, id);
      var sub := t.subs[id];
      if sub == Subscriber(sub.doc, sub.buffer, [], []) {
        NewSubscriberFollows(sub.doc, sub.buffer, RoomOf(s, sub.doc).feed);
      } else {
        TakeOneFollows(s.subs[id], RoomOf(s, sub.doc).feed);
      }
    }
  }

  lemma {:induction false} NextFollows(maxGap: int, s: State, a: Action)
    requires AllFollow(s)
    ensures AllFollow(Next(maxGap, s, a))
  {
    if a.Step? {
      StepFollows(maxGap, s, a.client, a.ready);
    } else {
      ChannelFollows(Steps(maxGap), s, a);
    }
  }

  // ---- Runs ---------------------------------------------------------------------------------------------

  lemma {:induction false} StartHolds(maxGap: int)
    ensures Inv(maxGap, START)
  {
  }

  lemma {:induction false} NextKeeps(maxGap: int, s: State, a: Action)
    requires Inv(maxGap, s)
    ensures Inv(maxGap, Next(maxGap, s, a))
  {
    var t := Next(maxGap, s, a);
    MoveIsExclusive(Steps(maxGap), s, a);
    NextFollows(maxGap, s, a);
    forall d ensures AtRest(maxGap, d, d in t.locks, RoomOf(t, d), ServedOf(t, d))
      && Answered(maxGap, d, ServedOf(t, d))
    {
      DocsSerialize(maxGap, s, a, d);
      NextIsAnswered(maxGap, s, a, d);
    }
    forall c
      ensures OnItsWay(maxGap, PhaseOf(t, c), RoomOf(t, DocOf(PhaseOf(t, c))), ServedOf(t, DocOf(PhaseOf(t, c))))
    {
      ClientsSerialize(maxGap, s, a, c);
    }
  }

  /** Whatever steps are taken in whatever order, one client at a time is inside a document, every request leaves its
      document and is answered as if requests ran one by one, and subscribers follow the feed. */
  lemma {:induction false} RunHolds(maxGap: int, actions: seq<Action>)
    ensures Inv(maxGap, Run(maxGap, START, actions))
    decreases |actions|
  {
    if actions == [] {
      StartHolds(maxGap);
    } else {
      var init := actions[..|actions| - 1];
      RunHolds(maxGap, init);
      NextKeeps(maxGap, Run(maxGap, START, init), actions[|actions| - 1]);
    }
  }
}
