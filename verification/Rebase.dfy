/** A component rebased over the ones committed since stays valid on the current document. */
module Rebase {
  import opened Json
  import opened Operators
  import opened Sequences
  import opened Apply
  import opened Transform
  import opened Validity
  import opened Routing
  import opened ListConvergence
  import opened BothOrders
  import opened Nested
  import opened TreeConvergence

  predicate AllFitHere(v: Value, cs: seq<Component>) {
    forall i :: 0 <= i < |cs| ==> Fits(v, cs[i])
  }

  /** The recorded old value of a key deletion or replacement is outdated by an addition to that very number. */
  predicate Outdated(l: Component, r: Component) {
    && l.path == r.path && (l.operator.ObjectDelete? || l.operator.ObjectReplace?)
    && IsNumberAdd(r.operator) && r.operator.operand.n != 0
  }

  /** The document after one component. */
  function After(v: Value, c: Component): Value {
    var r := ApplyOne(v, c);
    if r.Ok? then r.value else v
  }

  lemma {:induction false} FitsBesideAdd(items: seq<Value>, l: Component, r: Component)
    requires Fits(Arr(items), l) && !IsEquivalentToNoop(l) && Effective(Arr(items), r) && |l.path| == |r.path| == 1
    requires l.operator.SubTypeOp? || r.operator.SubTypeOp?
    ensures var l2 := TransformComponent(l, r, Left);
      && l2.Ok? && |l2.value| <= 1 && AllFitHere(After(Arr(items), r), l2.value)
      && !Outdated(l, r)
  {
    if r.operator.SubTypeOp? {
      AddAgainstSlot(items, r, l, Left);
      AddChangesNothing(items, r);
    } else {
      AddAgainstSlot(items, l, r, Left);
      AddRebasedFits(items, l, r);
      ApplySlot(items, r);
    }
    if l.operator.SubTypeOp? {
      AddAgainstSlot(items, l, r, Left);
    }
  }

  lemma {:induction false} FitsHere(v: Value, l: Component, r: Component)
    requires Fits(v, l) && !IsEquivalentToNoop(l) && Effective(v, r) && |l.path| == |r.path| == 1
    ensures var l2 := TransformComponent(l, r, Left);
      l2.Ok? && |l2.value| <= 1 && (AllFitHere(After(v, r), l2.value) <==> !Outdated(l, r))
  {
    if v.Arr? && (l.operator.SubTypeOp? || r.operator.SubTypeOp?) {
      FitsBesideAdd(v.items, l, r);
    } else if v.Arr? {
      var i, n, j, b := l.path[0].index, l.operator, r.path[0].index, r.operator;
      assert l == Slot(i, n) && r == Slot(j, b);
      TransformAtSlots(i, n, j, b, Left);
      PairAgrees(v.items, i, n, j, b);
      ApplySlot(v.items, r);
    } else {
      TransformAtKeys(v.fields, l, r, Left);
      var l2, w := KeyRebased(l, r, Left), After(v, r);
      assert l.path == [l.path[0]] && r.path == [r.path[0]];
      assert w.Obj?;
      if l2 != [] {
        assert l2 == [l2[0]] && l2[0].path == l.path;
        assert Fits(w, l2[0]) <==> FitsContainer(w, l.path[0], l2[0].operator);
      }
    }
  }

  lemma {:induction false} InnerFits(v: Value, inner: Component, outer: Component)
    requires ActsInside(v, inner) && !IsEquivalentToNoop(inner) && |outer.path| == 1 && Effective(v, outer)
    ensures var l2 := TransformComponent(inner, outer, Left);
      l2.Ok? && |l2.value| <= 1 && AllFitHere(After(v, outer), l2.value)
  {
    if v.Arr? && outer.operator.SubTypeOp? {
      AddAgainstInner(v.items, outer, inner, Left);
      AddChangesNothing(v.items, outer);
    } else if v.Arr? {
      var k, y := outer.path[0].index, inner.path[0].index;
      assert outer == Slot(k, outer.operator);
      InnerAgainstOuter(v.items, inner, k, outer.operator, Left);
      ApplySlot(v.items, outer);
      var z := Tracked(y, k, outer.operator);
      if z.Some? {
        TrackedElement(v.items, y, k, outer.operator, Null);
        InnerRelocates(v, inner, After(v, outer), IndexElem(z.value));
      }
    } else {
      ObjectOverInner(v.fields, outer, inner, Left, Left);
      if outer.path[0] != inner.path[0] {
        InnerRelocates(v, inner, After(v, outer), inner.path[0]);
        assert [inner.path[0]] + inner.path[1..] == inner.path;
      }
    }
  }

  lemma {:induction false} OuterFits(v: Value, outer: Component, inner: Component)
    requires ActsInside(v, inner) && !IsEquivalentToNoop(inner) && |outer.path| == 1
    requires Fits(v, outer) && !IsEquivalentToNoop(outer)
    ensures var l2 := TransformComponent(outer, inner, Left);
      l2.Ok? && |l2.value| <= 1 && AllFitHere(After(v, inner), l2.value)
  {
    InnerApplies(v, inner);
    if outer.operator.SubTypeOp? {
      assert outer.path == [outer.path[0]];
      assert outer.path[0] != inner.path[0];
      assert TransformComponent(outer, inner, Left) == Ok([outer]);
    } else {
      OuterAgainstInner(v, outer, inner, Left);
      assert outer.path == [outer.path[0]];
    }
  }

  lemma {:induction false} FitsUnder(v: Value, e: PathElement, w: Value, c: Component)
    requires HasChild(v, e) && c.path != []
    ensures Fits(PutChild(v, e, w), Under(e, c)) <==> Fits(w, c)
  {
    PutChildTwice(v, e, w, w);
    assert ([e] + c.path)[1..] == c.path;
  }

  lemma {:induction false} RebaseFitsUnder(v: Value, e: PathElement, l: Component, r: Component)
    requires HasChild(v, e) && Fits(Child(v, e), l) && Fits(Child(v, e), r)
    requires var l2 := TransformComponent(l, r, Left);
      l2.Ok? && |l2.value| <= 1 && (AllFitHere(After(Child(v, e), r), l2.value) <==> !Outdated(l, r))
    ensures var l2 := TransformComponent(Under(e, l), Under(e, r), Left);
      && l2.Ok? && |l2.value| <= 1
      && (AllFitHere(After(v, Under(e, r)), l2.value) <==> !Outdated(Under(e, l), Under(e, r)))
  {
    var w, l2 := Child(v, e), TransformComponent(l, r, Left).value;
    TransformUnder(e, l, r, Left);
    TransformKeepsPaths(l, r, Left);
    assert ([e] + r.path)[1..] == r.path && ([e] + l.path)[1..] == l.path;
    InnerApplies(v, Under(e, r));
    FitsApplies(w, r);
    assert After(v, Under(e, r)) == PutChild(v, e, After(w, r));
    var z, l3 := After(v, Under(e, r)), AllUnder(e, l2);
    if l2 != [] {
      FitsUnder(v, e, After(w, r), l2[0]);
      assert AllFitHere(z, l3) <==> Fits(z, l3[0]);
      assert AllFitHere(After(w, r), l2) <==> Fits(After(w, r), l2[0]);
    }
  }

  /** One step: the transformed component fits the document the other one produced, exactly when it does not
      record a number that the other one has just changed. */
  lemma {:induction false} RebaseFits(v: Value, l: Component, r: Component)
    requires Fits(v, l) && !IsEquivalentToNoop(l) && Effective(v, r)
    ensures var l2 := TransformComponent(l, r, Left);
      l2.Ok? && |l2.value| <= 1 && (AllFitHere(After(v, r), l2.value) <==> !Outdated(l, r))
    decreases |l.path|
  {
    var d, e := l.path[0], r.path[0];
    if |l.path| == 1 && |r.path| == 1 {
      FitsHere(v, l, r);
    } else if |l.path| == 1 {
      OuterFits(v, l, r);
    } else if |r.path| == 1 {
      InnerFits(v, l, r);
    } else if d == e {
      var w, l1, r1 := Child(v, d), Component(l.path[1..], l.operator), Component(r.path[1..], r.operator);
      assert l == Under(d, l1) && r == Under(d, r1);
      NoopUnder(d, l1);
      NoopUnder(d, r1);
      RebaseFits(w, l1, r1);
      RebaseFitsUnder(v, d, l1, r1);
    } else {
      InnerApplies(v, l);
      InnerApplies(v, r);
      DifferentSlotsFit(v, l, r);
    }
  }

  lemma {:induction false} DifferentSlotsFit(v: Value, l: Component, r: Component)
    requires ActsInside(v, l) && ActsInside(v, r) && l.path[0] != r.path[0]
    ensures TransformComponent(l, r, Left) == Ok([l])
    ensures Fits(After(v, r), l)
  {
    InnerApplies(v, r);
    InnerRelocates(v, l, After(v, r), l.path[0]);
    assert [l.path[0]] + l.path[1..] == l.path;
  }

  lemma {:induction false} TransformTotalHere(v: Value, n: Component, b: Component, side: Side)
    requires Fits(v, n) && Fits(v, b) && !IsEquivalentToNoop(n) && !IsEquivalentToNoop(b)
    requires |n.path| == 1 || |b.path| == 1
    ensures TransformComponent(n, b, side).Ok?
  {
    if |n.path| == 1 && |b.path| == 1 {
      if v.Arr? && n.operator.SubTypeOp? {
        AddAgainstSlot(v.items, n, b, side);
      } else if v.Arr? && b.operator.SubTypeOp? {
        AddAgainstSlot(v.items, b, n, side);
      } else if v.Arr? {
        assert n == Slot(n.path[0].index, n.operator) && b == Slot(b.path[0].index, b.operator);
        TransformAtSlots(n.path[0].index, n.operator, b.path[0].index, b.operator, side);
      } else {
        TransformAtKeys(v.fields, n, b, side);
      }
    } else if |n.path| == 1 {
      if n.operator.SubTypeOp? {
        assert n.path[0] != b.path[0];
      } else {
        OuterAgainstInner(v, n, b, side);
      }
    } else if v.Arr? && b.operator.SubTypeOp? {
      AddAgainstInner(v.items, b, n, side);
    } else if v.Arr? {
      assert b == Slot(b.path[0].index, b.operator);
      InnerAgainstOuter(v.items, n, b.path[0].index, b.operator, side);
    } else {
      ObjectOverInner(v.fields, b, n, side, side);
    }
  }

  /** Two components that fit one document never make the transformation fail. */
  lemma {:induction false} TransformTotal(v: Value, n: Component, b: Component, side: Side)
    requires Fits(v, n) && Fits(v, b)
    ensures TransformComponent(n, b, side).Ok?
    decreases |n.path|
  {
    if IsEquivalentToNoop(n) || IsEquivalentToNoop(b) {
    } else if |n.path| == 1 || |b.path| == 1 {
      TransformTotalHere(v, n, b, side);
    } else if n.path[0] == b.path[0] {
      var e, n1, b1 := n.path[0], Component(n.path[1..], n.operator), Component(b.path[1..], b.operator);
      assert n == Under(e, n1) && b == Under(e, b1);
      TransformTotal(Child(v, e), n1, b1, side);
      TransformUnder(e, n1, b1, side);
    }
  }

  // ---- Over a run of committed operations ---------------------------------------------------------------

  /** Transform an operation against each committed operation in turn, as a stale submit is. */
  function RebaseOver(op: seq<Component>, log: seq<seq<Component>>): Result<seq<Component>>
    decreases |log|
  {
    if log == [] then Ok(op)
    else
      var pair :- TransformOperation(op, log[0]);
      RebaseOver(pair.0, log[1..])
  }

  /** What a client holding the operation turns the committed ones into as it receives them. */
  function CatchUp(op: seq<Component>, log: seq<seq<Component>>): Result<seq<seq<Component>>>
    decreases |log|
  {
    if log == [] then Ok([])
    else
      var pair :- TransformOperation(op, log[0]);
      var rest :- CatchUp(pair.0, log[1..]);
      Ok([pair.1] + rest)
  }

  /** Apply operations in order. */
  function ApplyRun(v: Value, log: seq<seq<Component>>): Result<Value>
    decreases |log|
  {
    if log == [] then Ok(v)
    else
      var w :- ApplyOperation(v, log[0]);
      ApplyRun(w, log[1..])
  }

  /** Committed single-component operations, each effective on the document it was applied to. */
  predicate EffectiveRun(v: Value, log: seq<seq<Component>>)
    decreases |log|
  {
    log == [] || (|log[0]| == 1 && Effective(v, log[0][0]) && EffectiveRun(After(v, log[0][0]), log[1..]))
  }

  /** As it is rebased, the component never becomes a no-op and never records a number just changed. */
  predicate StaysCurrent(op: seq<Component>, log: seq<seq<Component>>)
    decreases |log|
  {
    log == [] || |op| != 1 || |log[0]| != 1 ||
    (!IsEquivalentToNoop(op[0]) && !Outdated(op[0], log[0][0])
     && StaysCurrent(Out(TransformComponent(op[0], log[0][0], Left)), log[1..]))
  }

  /** In addition, no edit of either side is lost on the way. */
  predicate StaysWhole(op: seq<Component>, log: seq<seq<Component>>)
    decreases |log|
  {
    log == [] || |op| != 1 || |log[0]| != 1 ||
    (!Skipped(op[0]) && NothingLost(op[0], log[0][0])
     && StaysWhole(Out(TransformComponent(op[0], log[0][0], Left)), log[1..]))
  }

  lemma {:induction false} RunApplies(v: Value, r: seq<Component>)
    requires |r| == 1 && Fits(v, r[0])
    ensures ApplyOperation(v, r) == Ok(After(v, r[0]))
    ensures ValidationError(r) == None
  {
    FitsApplies(v, r[0]);
    assert r == [r[0]];
    ApplySingle(v, r[0]);
    assert ValidationError(r[1..]) == None;
  }

  /** A valid component rebased over any run of committed ones is at most one component, valid on the current
      document, so applying it succeeds. */
  lemma {:induction false} RebasedApplies(v: Value, op: seq<Component>, log: seq<seq<Component>>)
    requires |op| <= 1 && AllFitHere(v, op) && EffectiveRun(v, log)
    requires forall i :: 0 <= i < |log| ==> |log[i]| == 1
    requires StaysCurrent(op, log)
    ensures ApplyRun(v, log).Ok? && RebaseOver(op, log).Ok?
    ensures var now, rebased := ApplyRun(v, log).value, RebaseOver(op, log).value;
      |rebased| <= 1 && AllFitHere(now, rebased) && ApplyOperation(now, rebased).Ok?
    decreases |log|
  {
    if op != [] {
      RunApplies(v, op);
    }
    if log != [] {
      var r := log[0][0];
      RunApplies(v, log[0]);
      assert log[0] == [r];
      if op != [] {
        assert op == [op[0]];
        RebaseFits(v, op[0], r);
        TransformTotal(v, r, op[0], Right);
        RebasedApplies(After(v, r), TransformComponent(op[0], r, Left).value, log[1..]);
      } else {
        RebasedApplies(After(v, r), op, log[1..]);
      }
    }
  }

  /** A client that applied its operation first and then the transformed committed ones has the document the
      server has after the committed ones and then the rebased operation. */
  lemma {:induction false} ClientMeetsServer(v: Value, op: seq<Component>, log: seq<seq<Component>>)
    requires |op| <= 1 && AllFitHere(v, op) && EffectiveRun(v, log)
    requires forall i :: 0 <= i < |log| ==> |log[i]| == 1
    requires StaysCurrent(op, log) && StaysWhole(op, log)
    ensures ApplyOperation(v, op).Ok? && CatchUp(op, log).Ok? && ApplyRun(v, log).Ok? && RebaseOver(op, log).Ok?
    ensures ApplyRun(ApplyOperation(v, op).value, CatchUp(op, log).value)
         == ApplyOperation(ApplyRun(v, log).value, RebaseOver(op, log).value)
    decreases |log|
  {
    RebasedApplies(v, op, log);
    if op != [] {
      RunApplies(v, op);
    }
    if log != [] {
      var r := log[0][0];
      RunApplies(v, log[0]);
      assert log[0] == [r];
      if op == [] {
        ClientMeetsServer(After(v, r), op, log[1..]);
        var caught := CatchUp(op, log).value;
        assert caught[0] == log[0] && caught[1..] == CatchUp(op, log[1..]).value;
      } else {
        var l := op[0];
        assert op == [l];
        RebaseFits(v, l, r);
        TransformTotal(v, r, l, Right);
        var l2, r2 := TransformComponent(l, r, Left).value, TransformComponent(r, l, Right).value;
        Convergence(v, l, r);
        assert Then(v, l, Ok(r2)) == Then(v, r, Ok(l2));
        ClientMeetsServer(After(v, r), l2, log[1..]);
        var caught := CatchUp(op, log).value;
        assert caught[0] == r2 && caught[1..] == CatchUp(l2, log[1..]).value;
      }
    }
  }
}
