/** The in-process backend and publisher: maps that the methods update. */
module Memory {
  import opened Json
  import opened ShareDb
  import opened Requests
  import opened Machine

  class MemoryBackend {
    var docs: map<DocId, Doc>

    constructor ()
      ensures docs == map[]
    {
      docs := map[];
    }

    method CreateDoc(docId: DocId, initial: Value) returns (failure: Option<Failure>)
      modifies this
      ensures failure == (if docId in old(docs) then Some(Exists) else None)
      ensures docs == (if docId in old(docs) then old(docs) else old(docs)[docId := Doc(0, initial, [])])
    {
      if docId in docs {
        return Some(Exists);
      }
      docs := docs[docId := Doc(0, initial, [])];
      return None;
    }

    /** The version and snapshot of a document; the log is read separately. */
    method GetDoc(docId: DocId) returns (record: Option<(int, Value)>)
      ensures record == (if docId in docs then Some((docs[docId].version, docs[docId].doc)) else None)
    {
      if docId !in docs {
        return None;
      }
      return Some((docs[docId].version, docs[docId].doc));
    }

    method DeleteDoc(docId: DocId) returns (failure: Option<Failure>)
      modifies this
      ensures failure == (if docId in old(docs) then None else Some(NotFound))
      ensures docs == old(docs) - {docId}
    {
      if docId !in docs {
        return Some(NotFound);
      }
      docs := docs - {docId};
      return None;
    }

    /** Replace the snapshot and append to the log in one step. */
    method CommitOp(docId: DocId, snapshot: Value, record: OpRecord) returns (failure: Option<Failure>)
      modifies this
      ensures failure == (if docId in old(docs) then None else Some(NotFound))
      ensures docs == if docId in old(docs)
        then old(docs)[docId := ShareDb.Committed(old(docs)[docId], snapshot, record)] else old(docs)
    {
      if docId !in docs {
        return Some(NotFound);
      }
      var d := docs[docId];
      d := d.(version := record.version);
      d := d.(doc := snapshot);
      d := d.(ops := d.ops + [record]);
      docs := docs[docId := d];
      return None;
    }

    /** The records that produced versions from + 1 to upto. */
    method GetOps(docId: DocId, from: int, upto: int) returns (records: Result<seq<OpRecord>>)
      ensures records == (if docId in docs then ShareDb.GetOps(docs[docId], from, upto) else Err(InvalidOperation))
    {
      if docId !in docs {
        return Err(InvalidOperation);
      }
      var d := docs[docId];
      if from == upto {
        return Ok([]);
      }
      if from < 0 || upto > |d.ops| || from > upto {
        return Err(InvalidParameter);
      }
      var result: seq<OpRecord> := [];
      for i := from to upto
        invariant result == d.ops[from..i]
      {
        result := result + [d.ops[i]];
      }
      return Ok(result);
    }
  }

  class MemoryPublisher {
    var subs: map<SubId, Subscriber>
    var next: nat

    constructor ()
      ensures subs == map[] && next == 0
    {
      subs, next := map[], 0;
    }

    /** New subscribers get new numbers. */
    ghost predicate Valid()
      reads this
    {
      forall id :: id in subs ==> id < next
    }

    /** Offer an event to every subscriber of its document, in no particular order. */
    method Publish(docId: DocId, e: Event, ready: set<SubId>)
      requires Valid()
      modifies this
      ensures Valid() && next == old(next)
      ensures subs == map id | id in old(subs) :: OfferTo(old(subs)[id], docId, e, id in ready)
    {
      ghost var was := subs;
      var left := subs.Keys;
      while left != {}
        invariant left <= was.Keys == subs.Keys && next == old(next)
        invariant forall id :: id in was ==>
          subs[id] == (if id in left then was[id] else OfferTo(was[id], docId, e, id in ready))
        decreases |left|
      {
        var id :| id in left;
        var sub := subs[id];
        if sub.doc == docId {
          subs := subs[id := Offer(sub, e, id in ready)];
        }
        left := left - {id};
      }
    }

    /** Open a channel; a negative buffer counts as none. */
    method Subscribe(docId: DocId, buffer: int) returns (id: SubId)
      requires Valid()
      modifies this
      ensures Valid() && id == old(next) && id !in old(subs)
      ensures subs == old(subs)[id := Subscriber(docId, if buffer < 0 then 0 else buffer, [], [])]
    {
      id := next;
      next := next + 1;
      subs := subs[id := Subscriber(docId, if buffer < 0 then 0 else buffer, [], [])];
    }

    method Cancel(id: SubId)
      requires Valid()
      modifies this
      ensures Valid() && subs == old(subs) - {id}
    {
      if id in subs {
        subs := subs - {id};
      }
    }
  }
}
