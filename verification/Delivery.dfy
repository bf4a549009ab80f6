/** Nobody waits for ever and nothing is dropped for lack of a reason: every waiting request can be served, and a channel
    with room gets everything that is published. */
module Delivery {
  import opened Json
  import opened ShareDb
  import opened Requests
  import opened Protocol
  import opened Machine

  // ---- Channels -----------------------------------------------------------------------------------------

  /** An event is kept, behind those kept before, exactly when a receiver waits or the buffer has room. */
  lemma {:induction false} OfferKeeps(sub: Subscriber, e: Event, ready: bool)
    ensures var next := Offer(sub, e, ready);
      && next.doc == sub.doc && next.buffer == sub.buffer && sub.seen <= next.seen
      && |next.queue| <= |sub.queue| + 1
      && next.seen + next.queue ==
         (if (ready && sub.queue == []) || |sub.queue| < sub.buffer then sub.seen + sub.queue + [e]
          else sub.seen + sub.queue)
  {
  }

  /** Receiving takes the oldest buffered event. */
  lemma {:induction false} TakesOldest(sub: Subscriber)
    ensures var next := TakeOne(sub);
      && next.doc == sub.doc && next.buffer == sub.buffer && next.seen + next.queue == sub.seen + sub.queue
      && |next.seen| == |sub.seen| + (if sub.queue == [] then 0 else 1)
  {
  }

  /** From one state of a channel and its feed to the next, nothing that fitted was dropped. */
  predicate Delivers(a: Subscriber, before: seq<Event>, b: Subscriber, after: seq<Event>) {
    && b.doc == a.doc && b.buffer == a.buffer && before <= after && a.seen <= b.seen
    && |b.queue| <= |a.queue| + (|after| - |before|)
    && (|a.queue| + (|after| - |before|) <= a.buffer ==>
          b.seen + b.queue == a.seen + a.queue + after[|before|..])
  }

  lemma {:induction false} DeliversOne(a: Subscriber, before: seq<Event>, after: seq<Event>, ready: bool)
    requires before <= after && |after| <= |before| + 1
    ensures Delivers(a, before, if |after| <= |before| then a else Offer(a, after[|before|], ready), after)
  {
    if |after| > |before| {
      OfferKeeps(a, after[|before|], ready);
      assert after[|before|..] == [after[|before|]];
    }
  }

  lemma {:induction false} DeliversOn(a: Subscriber, f: seq<Event>, b: Subscriber, g: seq<Event>, c: Subscriber,
      h: seq<Event>)
    requires Delivers(a, f, b, g) && Delivers(b, g, c, h)
    ensures Delivers(a, f, c, h)
  {
    assert h[|f|..] == g[|f|..] + h[|g|..];
  }

  lemma {:induction false} StepDelivers(maxGap: int, s: State, c: Client, ready: set<SubId>, id: SubId)
    requires id in s.subs
    ensures var t := Next(maxGap, s, Step(c, ready));
      && id in t.subs
      && Delivers(s.subs[id], RoomOf(s, s.subs[id].doc).feed, t.subs[id], RoomOf(t, s.subs[id].doc).feed)
  {
    var p, d := PhaseOf(s, c), s.subs[id].doc;
    if p.Inside? {
      ProgressKeepsLog(Named(p.doc), maxGap, RoomOf(s, p.doc), p.request, p.at);
      var next := Progress(Named(p.doc), maxGap, RoomOf(s, p.doc), p.request, p.at).0;
      DeliversOne(s.subs[id], RoomOf(s, p.doc).feed, next.feed, id in ready);
    }
    DeliversOne(s.subs[id], RoomOf(s, d).feed, RoomOf(s, d).feed, false);
  }

  lemma {:induction false} ChannelStays(step: Stepper, s: State, a: Action, id: SubId)
    requires id in s.subs && !a.Step? && a != Cancel(id)
    ensures var t := Move(step, s, a);
      id in t.subs && t.rooms == s.rooms && (t.subs[id] == s.subs[id] || t.subs[id] == TakeOne(s.subs[id]))
  {
  }

  lemma {:induction false} ReadDelivers(a: Subscriber, b: Subscriber, feed: seq<Event>)
    requires b == a || b == TakeOne(a)
    ensures Delivers(a, feed, b, feed)
  {
    TakesOldest(a);
  }

  lemma {:induction false} NextDelivers(maxGap: int, s: State, a: Action, id: SubId)
    requires id in s.subs && a != Cancel(id)
    ensures var t := Next(maxGap, s, a);
      && id in t.subs
      && Delivers(s.subs[id], RoomOf(s, s.subs[id].doc).feed, t.subs[id], RoomOf(t, s.subs[id].doc).feed)
  {
    if a.Step? {
      StepDelivers(maxGap, s, a.client, a.ready, id);
    } else {
      ChannelStays(Steps(maxGap), s, a, id);
      ReadDelivers(s.subs[id], Next(maxGap, s, a).subs[id], RoomOf(s, s.subs[id].doc).feed);
    }
  }

  /** Nothing is lost on a channel with room: as long as a subscription is not cancelled, if what was buffered and what
      has been published since fit its buffer, it got exactly what was published, after what it got before. */
  lemma {:induction false} RoomyChannelsGetAll(maxGap: int, s: State, later: seq<Action>, id: SubId)
    requires id in s.subs && forall i :: 0 <= i < |later| ==> later[i] != Cancel(id)
    ensures var t := Run(maxGap, s, later);
      && id in t.subs
      && Delivers(s.subs[id], RoomOf(s, s.subs[id].doc).feed, t.subs[id], RoomOf(t, s.subs[id].doc).feed)
    decreases |later|
  {
    if later == [] {
      DeliversOne(s.subs[id], RoomOf(s, s.subs[id].doc).feed, RoomOf(s, s.subs[id].doc).feed, false);
    } else {
      var init, d := later[..|later| - 1], s.subs[id].doc;
      var m, t := Run(maxGap, s, init), Run(maxGap, s, later);
      RoomyChannelsGetAll(maxGap, s, init, id);
      NextDelivers(maxGap, m, later[|later| - 1], id);
      DeliversOn(s.subs[id], RoomOf(s, d).feed, m.subs[id], RoomOf(m, d).feed, t.subs[id], RoomOf(t, d).feed);
    }
  }

  /** A subscription is opened on a document that is there, under a new number, and only then; cancelled, it is gone. */
  lemma {:induction false} Subscribes(maxGap: int, s: State, id: SubId, d: DocId, buffer: int)
    requires id !in s.subs
    ensures var t := Next(maxGap, s, Subscribe(id, d, buffer));
      && (RoomOf(s, d).doc.None? ==> t == s)
      && (RoomOf(s, d).doc.Some? ==>
            && t == s.(subs := t.subs) && t.subs.Keys == s.subs.Keys + {id}
            && t.subs[id].doc == d && t.subs[id].seen + t.subs[id].queue == []
            && t.subs[id].buffer == (if buffer > 0 then buffer else 0)
            && forall j :: j in s.subs ==> t.subs[j] == s.subs[j])
    ensures id !in Next(maxGap, Next(maxGap, s, Subscribe(id, d, buffer)), Cancel(id)).subs
  {
  }

  /** What is published after a subscription, as long as it fits the buffer asked for, is what the subscriber gets. */
  lemma {:induction false} SubscribersMissNothing(maxGap: int, s: State, id: SubId, d: DocId, buffer: int,
      later: seq<Action>)
    requires id !in s.subs && RoomOf(s, d).doc.Some? && forall i :: 0 <= i < |later| ==> later[i] != Cancel(id)
    ensures var t := Run(maxGap, Next(maxGap, s, Subscribe(id, d, buffer)), later);
      var before, after := RoomOf(s, d).feed, RoomOf(t, d).feed;
      && id in t.subs && before <= after
      && (|after| - |before| <= buffer ==> t.subs[id].seen + t.subs[id].queue == after[|before|..])
  {
    var now := Next(maxGap, s, Subscribe(id, d, buffer));
    Subscribes(maxGap, s, id, d, buffer);
    RoomyChannelsGetAll(maxGap, now, later, id);
    var after := RoomOf(Run(maxGap, now, later), d).feed;
    assert RoomOf(now, d) == RoomOf(s, d);
    assert [] + after[|RoomOf(s, d).feed|..] == after[|RoomOf(s, d).feed|..];
  }

  // ---- Waiting ------------------------------------------------------------------------------------------

  /** An idle client may ask for anything, and then waits. */
  lemma {:induction false} AnyoneMayAsk(maxGap: int, s: State, c: Client, d: DocId, request: Request)
    requires PhaseOf(s, c).Idle?
    ensures var t := Next(maxGap, s, Ask(c, d, request));
      PhaseOf(t, c) == Waiting(d, request) && t == s.(clients := t.clients)
      && forall e :: e != c ==> PhaseOf(t, e) == PhaseOf(s, e)
  {
  }

  lemma {:induction false} RunOn(maxGap: int, s: State, a: seq<Action>, b: seq<Action>)
    ensures Run(maxGap, s, a + b) == Run(maxGap, Run(maxGap, s, a), b)
    decreases |b|
  {
    if b == [] {
      assert a + b == a;
    } else {
      var init := b[..|b| - 1];
      assert (a + b)[|a + b| - 1] == b[|b| - 1] && (a + b)[..|a + b| - 1] == a + init;
      RunOn(maxGap, s, a, init);
    }
  }

  lemma {:induction false} RunOne(maxGap: int, s: State, a: Action)
    ensures Run(maxGap, s, [a]) == Next(maxGap, s, a)
  {
    assert [a][..0] == [];
    assert Run(maxGap, s, []) == s;
  }

  /** The client has left the document it was inside of, and its request was served last. */
  predicate HasLeft(s: State, t: State, c: Client)
    requires PhaseOf(s, c).Inside?
  {
    var p := PhaseOf(s, c);
    && PhaseOf(t, c).Idle? && t.locks == s.locks - {p.doc}
    && |ServedOf(t, p.doc)| == |ServedOf(s, p.doc)| + 1
    && ServedOf(s, p.doc) <= ServedOf(t, p.doc)
    && ServedOf(t, p.doc)[|ServedOf(s, p.doc)|].client == c
    && ServedOf(t, p.doc)[|ServedOf(s, p.doc)|].request == p.request
    && forall e :: e != c && e in s.clients ==> PhaseOf(t, e) == PhaseOf(s, e)
  }

  lemma {:induction false} StepStays(maxGap: int, s: State, c: Client)
    requires PhaseOf(s, c).Inside? && !PhaseOf(s, c).at.Leaving?
    ensures var t, p := Next(maxGap, s, Step(c, {})), PhaseOf(s, c);
      && PhaseOf(t, c).Inside? && PhaseOf(t, c).doc == p.doc && PhaseOf(t, c).request == p.request
      && StepsLeft(PhaseOf(t, c).at) < StepsLeft(p.at)
      && t.locks == s.locks && t.served == s.served
      && (forall e :: e != c ==> PhaseOf(t, e) == PhaseOf(s, e))
      && (forall e :: e in s.clients ==> e in t.clients)
  {
    var p := PhaseOf(s, c);
    ProgressEnds(Named(p.doc), maxGap, RoomOf(s, p.doc), p.request, p.at);
  }

  /** A client inside a document can always finish, in at most seven steps of its own. */
  lemma {:induction false} CanFinish(maxGap: int, s: State, c: Client) returns (more: seq<Action>)
    requires PhaseOf(s, c).Inside?
    ensures |more| <= 1 + StepsLeft(PhaseOf(s, c).at)
    ensures HasLeft(s, Run(maxGap, s, more), c)
    decreases StepsLeft(PhaseOf(s, c).at)
  {
    if PhaseOf(s, c).at.Leaving? {
      more := [Unlock(c)];
      RunOne(maxGap, s, Unlock(c));
    } else {
      var t := Next(maxGap, s, Step(c, {}));
      StepStays(maxGap, s, c);
      var rest := CanFinish(maxGap, t, c);
      more := [Step(c, {})] + rest;
      RunOne(maxGap, s, Step(c, {}));
      RunOn(maxGap, s, [Step(c, {})], rest);
    }
  }

  lemma {:induction false} LockTaken(maxGap: int, s: State, c: Client)
    requires PhaseOf(s, c).Waiting? && PhaseOf(s, c).doc !in s.locks
    ensures var t, p := Next(maxGap, s, Lock(c)), PhaseOf(s, c);
      && PhaseOf(t, c) == Inside(p.doc, p.request, RoomOf(s, p.doc), Held)
      && t.locks == s.locks[p.doc := c] && t.served == s.served
  {
  }

  /** The client's request is the last of those served since. */
  predicate WasServed(s: State, t: State, c: Client)
    requires PhaseOf(s, c).Waiting?
  {
    var p := PhaseOf(s, c);
    && PhaseOf(t, c).Idle? && ServedOf(s, p.doc) <= ServedOf(t, p.doc)
    && |ServedOf(s, p.doc)| < |ServedOf(t, p.doc)| <= |ServedOf(s, p.doc)| + 2
    && ServedOf(t, p.doc)[|ServedOf(t, p.doc)| - 1].client == c
    && ServedOf(t, p.doc)[|ServedOf(t, p.doc)| - 1].request == p.request
  }

  lemma {:induction false} ServedWhenFree(maxGap: int, s: State, c: Client) returns (more: seq<Action>)
    requires PhaseOf(s, c).Waiting? && PhaseOf(s, c).doc !in s.locks
    ensures |more| <= 8 && WasServed(s, Run(maxGap, s, more), c)
    ensures var d := PhaseOf(s, c).doc; |ServedOf(Run(maxGap, s, more), d)| == |ServedOf(s, d)| + 1
  {
    var t := Next(maxGap, s, Lock(c));
    LockTaken(maxGap, s, c);
    var rest := CanFinish(maxGap, t, c);
    more := [Lock(c)] + rest;
    RunOne(maxGap, s, Lock(c));
    RunOn(maxGap, s, [Lock(c)], rest);
  }

  lemma {:induction false} HolderIsInside(maxGap: int, actions: seq<Action>, d: DocId)
    requires d in Run(maxGap, START, actions).locks
    ensures var s := Run(maxGap, START, actions);
      PhaseOf(s, s.locks[d]).Inside? && PhaseOf(s, s.locks[d]).doc == d
  {
    RunHolds(maxGap, actions);
  }

  lemma {:induction false} ServedAfterLeft(s: State, t: State, u: State, c: Client, holder: Client)
    requires PhaseOf(s, c).Waiting? && PhaseOf(s, holder).Inside? && PhaseOf(s, holder).doc == PhaseOf(s, c).doc
    requires HasLeft(s, t, holder) && PhaseOf(t, c) == PhaseOf(s, c) && WasServed(t, u, c)
    requires var d := PhaseOf(s, c).doc; |ServedOf(u, d)| == |ServedOf(t, d)| + 1
    ensures WasServed(s, u, c)
  {
  }

  lemma {:induction false} StillWaiting(s: State, t: State, c: Client, holder: Client)
    requires PhaseOf(s, c).Waiting? && PhaseOf(s, holder).Inside? && PhaseOf(s, holder).doc == PhaseOf(s, c).doc
    requires HasLeft(s, t, holder)
    ensures PhaseOf(t, c) == PhaseOf(s, c) && PhaseOf(s, c).doc !in t.locks
  {
  }

  lemma {:induction false} ServedAfterHolder(maxGap: int, s: State, c: Client, holder: Client) returns (more: seq<Action>)
    requires PhaseOf(s, c).Waiting? && PhaseOf(s, holder).Inside? && PhaseOf(s, holder).doc == PhaseOf(s, c).doc
    ensures |more| <= 15 && WasServed(s, Run(maxGap, s, more), c)
  {
    var first := CanFinish(maxGap, s, holder);
    var t := Run(maxGap, s, first);
    StillWaiting(s, t, c, holder);
    var rest := ServedWhenFree(maxGap, t, c);
    more := first + rest;
    RunOn(maxGap, s, first, rest);
    ServedAfterLeft(s, t, Run(maxGap, t, rest), c, holder);
  }

  /** No deadlock: at any moment of any run a waiting request can be served, after at most one other request, the one
      that holds the lock, has left the document. */
  lemma {:induction false} WaitingCanBeServed(maxGap: int, actions: seq<Action>, c: Client) returns (more: seq<Action>)
    requires PhaseOf(Run(maxGap, START, actions), c).Waiting?
    ensures |more| <= 15 && WasServed(Run(maxGap, START, actions), Run(maxGap, START, actions + more), c)
  {
    var s := Run(maxGap, START, actions);
    var d := PhaseOf(s, c).doc;
    if d in s.locks {
      HolderIsInside(maxGap, actions, d);
      more := ServedAfterHolder(maxGap, s, c, s.locks[d]);
    } else {
      more := ServedWhenFree(maxGap, s, c);
    }
    RunOn(maxGap, START, actions, more);
  }
}
