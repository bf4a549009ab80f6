/** What the invariant of interleaved runs gives: serial answers, a standing log, kept commits, ordered channels. */
module Runs {
  import opened Json
  import opened ShareDb
  import opened Requests
  import opened Serial
  import opened Protocol
  import opened Machine
  import EndToEnd
  import Faithful
  import Rebase
  import Retry
  import Wire
  import Apply

  lemma {:induction false} EmptyRoomIsSound()
    ensures Sound(EMPTY_ROOM) && Faithful.Folds(EMPTY_ROOM)
  {
  }

  lemma {:induction false} AfterIsSound(maxGap: int, d: DocId, served: seq<Served>)
    ensures Sound(Machine.After(maxGap, d, served))
  {
    EmptyRoomIsSound();
    ServeAllKeepsSound(Named(d), maxGap, EMPTY_ROOM, RequestsOf(served));
  }

  /** Serializability: between requests a document is what its requests, in the order they released the lock, make
      of it when each runs alone, and each was answered as it is then. */
  lemma {:induction false} RunsAreSerial(maxGap: int, actions: seq<Action>, d: DocId)
    ensures var s := Run(maxGap, START, actions);
      && (d !in s.locks ==> RoomOf(s, d) == ServeAll(Named(d), maxGap, EMPTY_ROOM, RequestsOf(ServedOf(s, d))))
      && Answered(maxGap, d, ServedOf(s, d))
  {
    var s := Run(maxGap, START, actions);
    RunHolds(maxGap, actions);
    assert AtRest(maxGap, d, d in s.locks, RoomOf(s, d), ServedOf(s, d));
  }

  /** At every moment of every run the log is numbered, prints what was applied, has no identity twice and backs the
      cache; between requests a document that is not there has nothing cached. */
  lemma {:induction false} RunsStand(maxGap: int, actions: seq<Action>, d: DocId)
    ensures var s := Run(maxGap, START, actions);
      Stands(RoomOf(s, d)) && (d !in s.locks ==> Sound(RoomOf(s, d)))
  {
    var s := Run(maxGap, START, actions);
    RunHolds(maxGap, actions);
    AfterIsSound(maxGap, d, ServedOf(s, d));
    if d in s.locks {
      var c := s.locks[d];
      var p := PhaseOf(s, c);
      assert OnItsWay(maxGap, p, RoomOf(s, DocOf(p)), ServedOf(s, DocOf(p)));
      AlongStands(Named(d), maxGap, p.entry, RoomOf(s, d), p.request, p.at);
    } else {
      assert AtRest(maxGap, d, d in s.locks, RoomOf(s, d), ServedOf(s, d));
    }
  }

  /** Serial history: in any run whose rollbacks agree, every version of a document between requests is the fold of
      the operations applied since it was created. */
  lemma {:induction false} RunsFold(maxGap: int, actions: seq<Action>, d: DocId)
    requires var s := Run(maxGap, START, actions);
      d !in s.locks && Faithful.AllAgree(Named(d), maxGap, EMPTY_ROOM, RequestsOf(ServedOf(s, d)))
    ensures Faithful.Folds(RoomOf(Run(maxGap, START, actions), d))
  {
    var s := Run(maxGap, START, actions);
    RunsAreSerial(maxGap, actions, d);
    EmptyRoomIsSound();
    Faithful.ServeAllKeepsFolds(Named(d), maxGap, EMPTY_ROOM, RequestsOf(ServedOf(s, d)));
  }

  /** Without rollbacks there is nothing to agree. */
  lemma {:induction false} NoRollbacksAgree(named: bool, maxGap: int, room: Room, requests: seq<Request>)
    requires forall i :: 0 <= i < |requests| ==> !requests[i].Rollback?
    ensures Faithful.AllAgree(named, maxGap, room, requests)
    decreases |requests|
  {
    if requests != [] {
      NoRollbacksAgree(named, maxGap, room, requests[..|requests| - 1]);
    }
  }

  /** In such a run the snapshot is also the fold of the log as it is parsed, if what was applied prints. */
  lemma {:induction false} RunsFoldTheLog(maxGap: int, actions: seq<Action>, d: DocId)
    requires var s := Run(maxGap, START, actions);
      d !in s.locks && Faithful.AllAgree(Named(d), maxGap, EMPTY_ROOM, RequestsOf(ServedOf(s, d)))
    requires var room := RoomOf(Run(maxGap, START, actions), d);
      room.doc.Some? && forall i :: 0 <= i < |room.applied| ==> Wire.AllPrintable(room.applied[i])
    ensures var room := RoomOf(Run(maxGap, START, actions), d);
      var parsed := Faithful.LookupAll(map[], room.doc.value.ops);
      parsed.Ok? && Rebase.ApplyRun(room.initial, parsed.value) == Ok(room.doc.value.doc)
  {
    var room := RoomOf(Run(maxGap, START, actions), d);
    RunsFold(maxGap, actions, d);
    RunsStand(maxGap, actions, d);
    Faithful.SnapshotIsFoldedLog(room, map[]);
  }

  /** In a run whose requests on a document commit nothing but edits, each editing client, with what it received
      since its base version, ends with the document it is answered. */
  lemma {:induction false} ClientsMeetInRuns(maxGap: int, actions: seq<Action>, d: DocId, i: nat)
    requires Named(d)
    requires var served := ServedOf(Run(maxGap, START, actions), d);
      && i < |served| && served[i].request.Submit?
      && EndToEnd.AllCollaborate(maxGap, EMPTY_ROOM, RequestsOf(served))
      && var room := Machine.After(maxGap, d, served[..i]);
         room.doc.Some? && EndToEnd.Edits(maxGap, room, served[i].request.submission)
    ensures var served := ServedOf(Run(maxGap, START, actions), d);
      var room := Machine.After(maxGap, d, served[..i]);
      var base := served[i].request.submission.baseVersion;
      var op, log := ParseRequest(served[i].request.submission.operation).value, room.applied[base..];
      var v := Faithful.DocumentAt(room, base);
      && served[i].reply.Done? && Apply.ApplyOperation(v, op).Ok? && Rebase.CatchUp(op, log).Ok?
      && Rebase.ApplyRun(Apply.ApplyOperation(v, op).value, Rebase.CatchUp(op, log).value)
        == Ok(served[i].reply.result.document)
  {
    var served := ServedOf(Run(maxGap, START, actions), d);
    var requests := RequestsOf(served);
    RunsAreSerial(maxGap, actions, d);
    EmptyRoomIsSound();
    assert requests[..i] == RequestsOf(served[..i]);
    EndToEnd.EveryClientMeets(maxGap, EMPTY_ROOM, requests, i);
  }

  // ---- Retries ------------------------------------------------------------------------------------------

  lemma {:induction false} ServeAllSplits(named: bool, maxGap: int, room: Room, a: seq<Request>, b: seq<Request>)
    ensures ServeAll(named, maxGap, room, a + b) == ServeAll(named, maxGap, ServeAll(named, maxGap, room, a), b)
    decreases |b|
  {
    if b == [] {
      assert a + b == a;
    } else {
      var init := b[..|b| - 1];
      assert (a + b)[|a + b| - 1] == b[|b| - 1] && (a + b)[..|a + b| - 1] == a + init;
      ServeAllSplits(named, maxGap, room, a, init);
    }
  }

  /** What was served between two requests leads from the one to the other. */
  lemma {:induction false} Between(maxGap: int, d: DocId, served: seq<Served>, i: nat, j: nat)
    requires i <= j <= |served|
    ensures Machine.After(maxGap, d, served[..j])
      == ServeAll(Named(d), maxGap, Machine.After(maxGap, d, served[..i]), RequestsOf(served[i..j]))
  {
    assert RequestsOf(served[..j]) == RequestsOf(served[..i]) + RequestsOf(served[i..j]);
    ServeAllSplits(Named(d), maxGap, EMPTY_ROOM, RequestsOf(served[..i]), RequestsOf(served[i..j]));
  }

  lemma {:induction false} AfterNext(maxGap: int, d: DocId, served: seq<Served>, i: nat)
    requires i < |served|
    ensures Machine.After(maxGap, d, served[..i + 1])
      == Serve(Named(d), maxGap, Machine.After(maxGap, d, served[..i]), served[i].request).0
  {
    assert served[..i + 1] == served[..i] + [served[i]];
    AfterOneMore(maxGap, d, served[..i], served[i]);
  }

  /** The request served at a place was committed. */
  predicate CommittedAt(maxGap: int, d: DocId, served: seq<Served>, i: nat)
    requires i < |served| && served[i].request.Submit?
  {
    var room := Machine.After(maxGap, d, served[..i]);
    room.doc.Some? && Decide(Named(d), maxGap, room.doc.value, room.cache, served[i].request).0.Write?
  }

  /** The request served at a place was answered without a commit, its operation absorbed by the log. */
  predicate AbsorbedAt(maxGap: int, d: DocId, served: seq<Served>, i: nat)
    requires i < |served| && served[i].request.Submit?
  {
    var room := Machine.After(maxGap, d, served[..i]);
    room.doc.Some?
    && var decision := Decide(Named(d), maxGap, room.doc.value, room.cache, served[i].request).0;
       decision.Answer? && !decision.result.duplicate
  }

  /** The document was not deleted between two places. */
  predicate SameLife(maxGap: int, d: DocId, served: seq<Served>, i: nat, j: nat)
    requires i <= j <= |served|
  {
    var before, after := Machine.After(maxGap, d, served[..i]), Machine.After(maxGap, d, served[..j]);
    after.doc.Some? && after.births == before.births
  }

  /** Whatever steps of whatever clients come between, a request under the identity of a committed one changes nothing
      and is answered with the logged operation if it carries the same, and rejected if it carries another. */
  lemma {:induction false} RetriesInRuns(maxGap: int, actions: seq<Action>, d: DocId, i: nat, j: nat)
    requires var served := ServedOf(Run(maxGap, START, actions), d);
      && i < j < |served| && served[i].request.Submit? && served[j].request.Submit?
      && CommittedAt(maxGap, d, served, i) && SameLife(maxGap, d, served, i, j)
      && var id := RequestId(served[i].request.submission);
         Identifies(id) && RequestId(served[j].request.submission) == id
    ensures var served := ServedOf(Run(maxGap, START, actions), d);
      var room, end := Machine.After(maxGap, d, served[..i]), Machine.After(maxGap, d, served[..j]);
      var r, retry := served[i].request.submission, served[j].request.submission;
      0 <= retry.baseVersion <= end.doc.value.version ==>
        && Machine.After(maxGap, d, served[..j + 1]) == end
        && served[j].reply ==
           (if r.operation.Some? && retry.operation != r.operation then Failed(SequenceConflict)
            else
              var w := Decide(Named(d), maxGap, room.doc.value, room.cache, Submit(r)).0;
              Done(SubmitResult(end.doc.value.version, false, true, w.record.op, end.doc.value.doc)))
  {
    var served := ServedOf(Run(maxGap, START, actions), d);
    var room := Machine.After(maxGap, d, served[..i]);
    RunsAreSerial(maxGap, actions, d);
    AfterIsSound(maxGap, d, served[..i]);
    AfterNext(maxGap, d, served, i);
    AfterNext(maxGap, d, served, j);
    Between(maxGap, d, served, i + 1, j);
    Retry.RetryIsRecognised(Named(d), maxGap, room, served[i].request.submission, RequestsOf(served[i + 1..j]),
                            served[j].request.submission);
  }

  /** Whatever comes between, a request whose operation was once absorbed does not commit when it is sent again. */
  lemma {:induction false} AbsorbedInRuns(maxGap: int, actions: seq<Action>, d: DocId, i: nat, j: nat)
    requires var served := ServedOf(Run(maxGap, START, actions), d);
      && i <= j < |served| && served[i].request.Submit? && served[j].request == served[i].request
      && AbsorbedAt(maxGap, d, served, i) && SameLife(maxGap, d, served, i, j)
    ensures var served := ServedOf(Run(maxGap, START, actions), d);
      var end, next := Machine.After(maxGap, d, served[..j]), Machine.After(maxGap, d, served[..j + 1]);
      !CommittedAt(maxGap, d, served, j) && next == end.(cache := next.cache)
  {
    var served := ServedOf(Run(maxGap, START, actions), d);
    AfterIsSound(maxGap, d, served[..i]);
    AfterNext(maxGap, d, served, j);
    Between(maxGap, d, served, i, j);
    Retry.AbsorbedStaysAbsorbed(Named(d), maxGap, Machine.After(maxGap, d, served[..i]), served[i].request.submission,
                                RequestsOf(served[i..j]));
  }

  // ---- Commits ------------------------------------------------------------------------------------------

  lemma {:induction false} NextKeepsLog(maxGap: int, s: State, a: Action, d: DocId)
    ensures var before, after := RoomOf(s, d), RoomOf(Next(maxGap, s, a), d);
      && before.births <= after.births
      && (after.doc.Some? && before.births == after.births ==>
            before.doc.Some? && before.doc.value.ops <= after.doc.value.ops)
  {
    if a.Step? {
      var p := PhaseOf(s, a.client);
      if p.Inside? && p.doc == d {
        ProgressKeepsLog(Named(d), maxGap, RoomOf(s, d), p.request, p.at);
      }
    }
  }

  /** No commit is lost: from any moment of a run to any later one, a document that was not deleted in between has
      the log it had, with the later commits at its end. */
  lemma {:induction false} CommitsStay(maxGap: int, s: State, later: seq<Action>, d: DocId)
    ensures var before, after := RoomOf(s, d), RoomOf(Run(maxGap, s, later), d);
      && before.births <= after.births
      && (after.doc.Some? && before.births == after.births ==>
            before.doc.Some? && before.doc.value.ops <= after.doc.value.ops)
    decreases |later|
  {
    if later != [] {
      var init := later[..|later| - 1];
      CommitsStay(maxGap, s, init, d);
      NextKeepsLog(maxGap, Run(maxGap, s, init), later[|later| - 1], d);
    }
  }

  /** A request that is about to leave with a failure has changed neither the document it found nor its feed. */
  lemma {:induction false} FailuresLeaveNoTrace(maxGap: int, actions: seq<Action>, c: Client)
    requires var p := PhaseOf(Run(maxGap, START, actions), c); p.Inside? && p.at.Leaving? && p.at.reply.Failed?
    ensures var s := Run(maxGap, START, actions);
      var p := PhaseOf(s, c);
      var room := RoomOf(s, p.doc);
      room == p.entry.(cache := room.cache)
  {
    var s := Run(maxGap, START, actions);
    var p := PhaseOf(s, c);
    RunHolds(maxGap, actions);
    assert OnItsWay(maxGap, p, RoomOf(s, DocOf(p)), ServedOf(s, DocOf(p)));
    AfterIsSound(maxGap, p.doc, ServedOf(s, p.doc));
    Retry.FailureChangesNothing(Named(p.doc), maxGap, p.entry, p.request);
  }

  // ---- The cache ----------------------------------------------------------------------------------------

  /** The cache refines the log: at every moment, what is cached for a version is what its record parses to, up to
      the names of subtypes, if what was applied there prints. */
  lemma {:induction false} CacheRefinesLog(maxGap: int, actions: seq<Action>, d: DocId, version: int)
    requires var room := RoomOf(Run(maxGap, START, actions), d);
      && room.doc.Some? && version in room.cache && 1 <= version <= |room.applied|
      && Wire.AllPrintable(room.applied[version - 1]) && Apply.ValidationError(room.applied[version - 1]).None?
    ensures var room := RoomOf(Run(maxGap, START, actions), d);
      && version <= |room.doc.value.ops|
      && Wire.ParseOperation(room.doc.value.ops[version - 1].op) == Ok(Wire.RenamedAll(room.cache[version]))
  {
    var room := RoomOf(Run(maxGap, START, actions), d);
    RunsStand(maxGap, actions, d);
    Faithful.CachedRefines(room.cache, room.doc.value, room.applied, version);
  }

  // ---- Subscribers --------------------------------------------------------------------------------------

  predicate CommitsOnly(feed: seq<Event>, i: nat, j: nat)
    requires j < |feed|
  {
    forall k :: i <= k <= j ==> feed[k].kind.Committed?
  }

  lemma {:induction false} CommitsCountUp(feed: seq<Event>, i: nat, j: nat)
    requires InOrder(feed) && i < j < |feed| && CommitsOnly(feed, i, j)
    ensures feed[j].version == feed[i].version + (j - i)
    decreases j
  {
    assert feed[j].version == VersionBefore(feed, j) + 1;
    if i < j - 1 {
      CommitsCountUp(feed, i, j - 1);
    }
  }

  /** Subscriber order: however slow a subscriber is, what it gets is part of the document's feed, in order, and of
      two commits without a deletion between them the later one has the higher version. */
  lemma {:induction false} SubscribersSeeOrder(maxGap: int, actions: seq<Action>, id: SubId)
    requires id in Run(maxGap, START, actions).subs
    ensures var s := Run(maxGap, START, actions);
      var sub, feed := s.subs[id], RoomOf(s, s.subs[id].doc).feed;
      var events := sub.seen + sub.queue;
      exists positions: seq<nat> :: Places(events, feed, positions) &&
        forall i, j :: 0 <= i < j < |events| && CommitsOnly(feed, positions[i], positions[j]) ==>
          events[i].version < events[j].version
  {
    var s := Run(maxGap, START, actions);
    var sub, feed := s.subs[id], RoomOf(s, s.subs[id].doc).feed;
    RunHolds(maxGap, actions);
    RunsStand(maxGap, actions, sub.doc);
    var events := sub.seen + sub.queue;
    var positions: seq<nat> :| Places(events, feed, positions);
    forall i, j | 0 <= i < j < |events| && CommitsOnly(feed, positions[i], positions[j])
      ensures events[i].version < events[j].version
    {
      CommitsCountUp(feed, positions[i], positions[j]);
    }
  }

  /** The event tells of log entry k: the operation rebased, applied and printed as version k + 1, and its sender. */
  predicate IsLogged(e: Event, ops: seq<OpRecord>, applied: seq<Op>, k: int) {
    && 0 <= k < |ops| && |applied| == |ops|
    && e.kind.Committed? && e.version == k + 1 && e.operation == Some(ops[k].op)
    && ops[k].op == Wire.PrintAll(applied[k])
    && e.id == ops[k].id && e.source == ops[k].source && e.sequence == ops[k].sequence
  }

  /** Events taken from a feed that tells the log, those since the document was created. */
  ghost predicate TakesFromLog(events: seq<Event>, feed: seq<Event>, past: nat, ops: seq<OpRecord>, applied: seq<Op>) {
    exists positions: seq<nat> :: Places(events, feed, positions) &&
      forall i :: 0 <= i < |events| && positions[i] >= past ==>
        IsLogged(events[i], ops, applied, positions[i] - past)
  }

  lemma {:induction false} PlacesTakeFromLog(events: seq<Event>, feed: seq<Event>, past: nat, d: Doc, applied: seq<Op>,
      positions: seq<nat>)
    requires Places(events, feed, positions) && Numbered(d) && Records(d, applied) && Heard(feed, past, d)
    ensures TakesFromLog(events, feed, past, d.ops, applied)
  {
    forall i | 0 <= i < |events| && positions[i] >= past
      ensures IsLogged(events[i], d.ops, applied, positions[i] - past)
    {
      assert Tells(feed[positions[i]], d.ops[positions[i] - past]);
    }
  }

  /** What a subscriber gets of a document's present lifetime is the log: the event at version n tells of the operation
      logged as version n, rebased and printed as it was applied. */
  lemma {:induction false} SubscribersGetTheLog(maxGap: int, actions: seq<Action>, id: SubId)
    requires var s := Run(maxGap, START, actions); id in s.subs && RoomOf(s, s.subs[id].doc).doc.Some?
    ensures var s := Run(maxGap, START, actions);
      var sub, room := s.subs[id], RoomOf(s, s.subs[id].doc);
      TakesFromLog(sub.seen + sub.queue, room.feed, room.past, room.doc.value.ops, room.applied)
  {
    var s := Run(maxGap, START, actions);
    var sub, room := s.subs[id], RoomOf(s, s.subs[id].doc);
    RunHolds(maxGap, actions);
    RunsStand(maxGap, actions, sub.doc);
    var events := sub.seen + sub.queue;
    var positions: seq<nat> :| Places(events, room.feed, positions);
    PlacesTakeFromLog(events, room.feed, room.past, room.doc.value, room.applied, positions);
  }
}
