/** Convergence of any two components anywhere in a document. */
module TreeConvergence {
  import opened Json
  import opened Operators
  import opened Sequences
  import opened Apply
  import opened Transform
  import opened Validity
  import opened Routing
  import opened ListConvergence
  import opened BothOrders
  import opened Nested

  // ---- One object ---------------------------------------------------------------------------------------

  /** The one pair that loses an edit: left deletes a key that right replaces. */
  predicate DeleteMeetsReplace(l: Component, r: Component) {
    l.path == r.path && l.operator.ObjectDelete? && r.operator.ObjectReplace?
  }

  lemma {:induction false} SingleKeys(d: PathElement, e: PathElement)
    requires WfElem(d) && WfElem(e) && d.key != "" && e.key != ""
    ensures IsPrefix([d], [e]) <==> d == e
    ensures CommonLen([d], [e]) == if d == e then 1 else 0
  {
    assert [d][1..] == [] && [e][1..] == [];
  }

  /** The component at a key after a concurrent one at a key of the same object. */
  function KeyRebased(n: Component, b: Component, side: Side): seq<Component>
  {
    var op := b.operator;
    if n.path != b.path || op.SubTypeOp? then [n]
    else if side == Right then []
    else if n.operator.ObjectReplace? then
      [if op.ObjectReplace? then Component(n.path, ObjectReplace(n.operator.newValue, op.newValue))
       else Component(n.path, ObjectInsert(n.operator.newValue))]
    else if n.operator.ObjectInsert? && op.ObjectInsert? then
      [Component(n.path, ObjectReplace(n.operator.newValue, op.newValue))]
    else []
  }

  lemma {:induction false} TransformAtKeys(fields: map<string, Value>, n: Component, b: Component, side: Side)
    requires |n.path| == |b.path| == 1
    requires Effective(Obj(fields), n) && Effective(Obj(fields), b)
    ensures TransformComponent(n, b, side) == Ok(KeyRebased(n, b, side))
  {
    SingleKeys(n.path[0], b.path[0]);
    SingleKeys(b.path[0], n.path[0]);
    assert n.path == [n.path[0]] && b.path == [b.path[0]];
  }

  lemma {:induction false} DifferentKeys(fields: map<string, Value>, l: Component, r: Component)
    requires |l.path| == |r.path| == 1 && l.path != r.path
    requires Effective(Obj(fields), l) && Effective(Obj(fields), r)
    ensures Then(Obj(fields), l, Ok([r])).Ok?
    ensures Then(Obj(fields), l, Ok([r])) == Then(Obj(fields), r, Ok([l]))
  {
    var v := Obj(fields);
    assert l.path[0].key != r.path[0].key by {
      assert l.path == [l.path[0]] && r.path == [r.path[0]];
    }
    var a, b := ApplyOne(v, l).value, ApplyOne(v, r).value;
    ApplySingle(a, r);
    ApplySingle(b, l);
    assert ApplyOne(a, r).value.fields == ApplyOne(b, l).value.fields;
  }

  lemma {:induction false} SameKey(fields: map<string, Value>, l: Component, r: Component)
    requires |l.path| == |r.path| == 1 && l.path == r.path
    requires Effective(Obj(fields), l) && Effective(Obj(fields), r)
    ensures var a := Then(Obj(fields), l, Ok(KeyRebased(r, l, Right)));
      var b := Then(Obj(fields), r, Ok(KeyRebased(l, r, Left)));
      a.Ok? && (a == b <==> !DeleteMeetsReplace(l, r))
  {
    var v, k := Obj(fields), l.path[0].key;
    var a, b := ApplyOne(v, l).value, ApplyOne(v, r).value;
    var l2, r2 := KeyRebased(l, r, Left), KeyRebased(r, l, Right);
    if r2 != [] {
      ApplySingle(a, r2[0]);
    }
    if l2 != [] {
      ApplySingle(b, l2[0]);
    }
    var x, y := Then(v, l, Ok(r2)).value, Then(v, r, Ok(l2)).value;
    if DeleteMeetsReplace(l, r) {
      assert k !in x.fields && k in y.fields;
    } else {
      assert x.fields == y.fields;
    }
  }

  /** Two components at one object converge, except left delete against right replace of one key. */
  lemma {:induction false} ObjectLevel(fields: map<string, Value>, l: Component, r: Component)
    requires |l.path| == |r.path| == 1
    requires Effective(Obj(fields), l) && Effective(Obj(fields), r)
    ensures var l2, r2 := TransformComponent(l, r, Left), TransformComponent(r, l, Right);
      l2.Ok? && r2.Ok? && NoneSkipped(l2.value) && NoneSkipped(r2.value)
    ensures Converges(Obj(fields), l, r) <==> !DeleteMeetsReplace(l, r)
  {
    TransformAtKeys(fields, l, r, Left);
    TransformAtKeys(fields, r, l, Right);
    if l.path == r.path {
      SameKey(fields, l, r);
    } else {
      DifferentKeys(fields, l, r);
    }
  }

  /** Who has the last word on a key both sides change: left, unless it only adds to what right puts or takes away, or
      deletes what right replaces. */
  predicate RightStays(l: Component, r: Component) {
    (IsNumberAdd(l.operator) && !IsNumberAdd(r.operator)) || DeleteMeetsReplace(l, r)
  }

  predicate BothAdd(l: Component, r: Component) {
    IsNumberAdd(l.operator) && IsNumberAdd(r.operator)
  }

  lemma {:induction false} KeyConflictHere(fields: map<string, Value>, l: Component, r: Component)
    requires |l.path| == |r.path| == 1 && l.path == r.path
    requires Effective(Obj(fields), l) && Effective(Obj(fields), r)
    ensures var v := Obj(fields);
      var after := Then(v, r, TransformComponent(l, r, Left));
      && (RightStays(l, r) ==> after == ApplyOne(v, r))
      && (!RightStays(l, r) && !BothAdd(l, r) ==> after == ApplyOne(v, l))
  {
    var v := Obj(fields);
    TransformAtKeys(fields, l, r, Left);
    var b, l2 := ApplyOne(v, r).value, KeyRebased(l, r, Left);
    if l2 != [] {
      ApplySingle(b, l2[0]);
      if !BothAdd(l, r) {
        assert ApplyOne(b, l2[0]).value.fields == ApplyOne(v, l).value.fields;
      }
    } else if !RightStays(l, r) {
      assert b.fields == ApplyOne(v, l).value.fields;
    }
  }

  lemma {:induction false} KeyAgainstInner(fields: map<string, Value>, outer: Component, inner: Component, t: Side)
    requires |outer.path| == 1 && Effective(Obj(fields), outer)
    requires ActsInside(Obj(fields), inner) && !IsEquivalentToNoop(inner)
    ensures TransformComponent(inner, outer, t) == Ok(if outer.path[0] == inner.path[0] then [] else [inner])
    ensures outer.path[0] != inner.path[0] ==> TransformComponent(outer, inner, t) == Ok([outer])
    ensures outer.path[0] == inner.path[0] ==> !outer.operator.SubTypeOp?
  {
    assert outer.path == [outer.path[0]];
    InnerApplies(Obj(fields), inner);
    SingleCommon(outer.path[0], inner.path);
  }

  lemma {:induction false} SameKeyOverInner(fields: map<string, Value>, outer: Component, inner: Component, s: Side,
      t: Side)
    requires |outer.path| == 1 && Effective(Obj(fields), outer)
    requires ActsInside(Obj(fields), inner) && !IsEquivalentToNoop(inner) && outer.path[0] == inner.path[0]
    ensures var v := Obj(fields);
      && TransformComponent(outer, inner, s).Ok? && NoneSkipped(TransformComponent(outer, inner, s).value)
      && TransformComponent(inner, outer, t) == Ok([])
      && Then(v, outer, Ok([])).Ok? && Then(v, outer, Ok([])) == Then(v, inner, TransformComponent(outer, inner, s))
  {
    var v, d := Obj(fields), outer.path[0];
    InnerApplies(v, inner);
    var a, b := ApplyOne(v, outer).value, ApplyOne(v, inner).value;
    KeyAgainstInner(fields, outer, inner, t);
    var outer' := OuterRebased(v, outer, inner);
    OuterAgainstInner(v, outer, inner, s);
    ApplySingle(b, outer');
    OneSkipped(outer');
    assert ApplyOne(b, outer').value.fields == a.fields;
  }

  lemma {:induction false} OuterCommutes(fields: map<string, Value>, outer: Component, k: string, w: Value)
    requires |outer.path| == 1 && Effective(Obj(fields), outer) && outer.path[0].key != k && k in fields
    ensures ApplyOne(Obj(fields), outer).Ok? && ApplyOne(Obj(fields), outer).value.Obj?
    ensures ApplyOne(Obj(fields[k := w]), outer) == Ok(Obj(ApplyOne(Obj(fields), outer).value.fields[k := w]))
  {
    assert ApplyOne(Obj(fields[k := w]), outer).value.fields == ApplyOne(Obj(fields), outer).value.fields[k := w];
  }

  lemma {:induction false} OtherKeyAndInner(fields: map<string, Value>, outer: Component, inner: Component, s: Side,
      t: Side)
    requires |outer.path| == 1 && Effective(Obj(fields), outer)
    requires ActsInside(Obj(fields), inner) && !IsEquivalentToNoop(inner) && outer.path[0] != inner.path[0]
    ensures var v := Obj(fields);
      && TransformComponent(outer, inner, s) == Ok([outer]) && TransformComponent(inner, outer, t) == Ok([inner])
      && Then(v, outer, Ok([inner])).Ok? && Then(v, outer, Ok([inner])) == Then(v, inner, Ok([outer]))
  {
    var v, d, e := Obj(fields), outer.path[0], inner.path[0];
    InnerApplies(v, inner);
    var a, b := ApplyOne(v, outer).value, ApplyOne(v, inner).value;
    KeyAgainstInner(fields, outer, inner, s);
    KeyAgainstInner(fields, outer, inner, t);
    InnerRelocates(v, inner, a, e);
    assert [e] + inner.path[1..] == inner.path;
    ApplySingle(a, inner);
    ApplySingle(b, outer);
    OuterCommutes(fields, outer, e.key, InSlot(v, inner).value);
  }

  /** A component at one key and one acting inside a value of the same object always converge. */
  lemma {:induction false} ObjectOverInner(fields: map<string, Value>, outer: Component, inner: Component, s: Side,
      t: Side)
    requires |outer.path| == 1 && Effective(Obj(fields), outer)
    requires ActsInside(Obj(fields), inner) && !IsEquivalentToNoop(inner)
    ensures var v := Obj(fields);
      && TransformComponent(outer, inner, s).Ok? && NoneSkipped(TransformComponent(outer, inner, s).value)
      && TransformComponent(inner, outer, t) == Ok(if outer.path[0] == inner.path[0] then [] else [inner])
      && Then(v, outer, TransformComponent(inner, outer, t)).Ok?
      && Then(v, outer, TransformComponent(inner, outer, t)) == Then(v, inner, TransformComponent(outer, inner, s))
  {
    if outer.path[0] == inner.path[0] {
      SameKeyOverInner(fields, outer, inner, s, t);
    } else {
      OtherKeyAndInner(fields, outer, inner, s, t);
    }
  }

  // ---- Deeper down --------------------------------------------------------------------------------------

  lemma {:induction false} DifferentSlotsCommute(v: Value, d: PathElement, x: Value, e: PathElement, y: Value)
    requires HasChild(v, d) && HasChild(v, e) && d != e
    ensures HasChild(PutChild(v, d, x), e) && Child(PutChild(v, d, x), e) == Child(v, e)
    ensures HasChild(PutChild(v, e, y), d) && Child(PutChild(v, e, y), d) == Child(v, d)
    ensures PutChild(PutChild(v, d, x), e, y) == PutChild(PutChild(v, e, y), d, x)
  {
    match v
    case Arr(items) => assert items[d.index := x][e.index := y] == items[e.index := y][d.index := x];
    case Obj(fields) => assert fields[d.key := x][e.key := y] == fields[e.key := y][d.key := x];
  }

  /** Two components inside different slots leave each other alone. */
  lemma {:induction false} DifferentSlots(v: Value, l: Component, r: Component)
    requires ActsInside(v, l) && ActsInside(v, r) && l.path[0] != r.path[0]
    ensures TransformComponent(l, r, Left) == Ok([l]) && TransformComponent(r, l, Right) == Ok([r])
    ensures Converges(v, l, r)
  {
    var d, e := l.path[0], r.path[0];
    InnerApplies(v, l);
    InnerApplies(v, r);
    var x, y := InSlot(v, l).value, InSlot(v, r).value;
    DifferentSlotsCommute(v, d, x, e, y);
    assert [d] + l.path[1..] == l.path && [e] + r.path[1..] == r.path;
    InnerRelocates(v, r, PutChild(v, d, x), e);
    InnerRelocates(v, l, PutChild(v, e, y), d);
    ApplySingle(PutChild(v, d, x), r);
    ApplySingle(PutChild(v, e, y), l);
  }

  function Under(e: PathElement, c: Component): Component {
    Component([e] + c.path, c.operator)
  }

  function AllUnder(e: PathElement, cs: seq<Component>): (r: seq<Component>)
    ensures |r| == |cs|
  {
    seq(|cs|, i requires 0 <= i < |cs| => Under(e, cs[i]))
  }

  function ResultUnder(e: PathElement, r: Result<seq<Component>>): Result<seq<Component>> {
    match r
    case Ok(cs) => Ok(AllUnder(e, cs))
    case Err(x) => Err(x)
  }

  lemma {:induction false} StepsUnder(e: PathElement, n: Component, b: Component)
    requires n.path != [] && b.path != []
    ensures var n', b' := Under(e, n), Under(e, b);
      && CommonLen(b'.path, n'.path) == 1 + CommonLen(b.path, n.path)
      && (IsPrefix(n'.path, b'.path) <==> IsPrefix(n.path, b.path))
      && (IsPrefix(b'.path, n'.path) <==> IsPrefix(b.path, n.path))
      && (IsEquivalentToNoop(n') <==> IsEquivalentToNoop(n))
      && (IsEquivalentToNoop(b') <==> IsEquivalentToNoop(b))
      && b'.path[1 + CommonLen(b.path, n.path)..] == b.path[CommonLen(b.path, n.path)..]
  {
    var n', b' := Under(e, n), Under(e, b);
    assert n'.path[1..] == n.path && b'.path[1..] == b.path;
  }

  lemma {:induction false} PrefixUnder(e: PathElement, n: Component, b: Component)
    ensures IsPrefix(Under(e, b).path, Under(e, n).path) <==> IsPrefix(b.path, n.path)
  {
    assert Under(e, n).path[1..] == n.path && Under(e, b).path[1..] == b.path;
  }

  lemma {:induction false} NoopUnder(e: PathElement, c: Component)
    requires c.path != []
    ensures IsEquivalentToNoop(Under(e, c)) <==> IsEquivalentToNoop(c)
    ensures Skipped(Under(e, c)) <==> Skipped(c)
  {
    assert Under(e, c).path[|c.path|] == c.path[|c.path| - 1];
  }

  lemma {:induction false} StepUnder(e: PathElement, p: Path, k: nat, g: PathElement)
    requires k < |p|
    ensures ([e] + p)[k + 1 := g] == [e] + p[k := g]
    ensures ([e] + p)[k + 1] == p[k]
  {
  }

  lemma {:induction false} InsertUnder(e: PathElement, n: Component, b: Component, side: Side)
    requires n.path != [] && b.path != [] && b.operator.ListInsert?
    ensures AgainstListInsert(Under(e, n), Under(e, b), side) == AllUnder(e, AgainstListInsert(n, b, side))
  {
    PrefixUnder(e, n, b);
    var k := |b.path| - 1;
    if k < |n.path| {
      var prefix := IsPrefix(b.path, n.path);
      StepUnder(e, n.path, k, InsertStep(n.path[k], n.operator, IsSameOperand(b, n), prefix, b.path[k].index, side).0);
    }
  }

  lemma {:induction false} DeleteUnder(e: PathElement, n: Component, b: Component)
    requires b.path != [] && |n.path| >= |b.path| && b.operator.ListDelete?
    ensures AgainstListDelete(Under(e, n), Under(e, b)) == AllUnder(e, AgainstListDelete(n, b))
  {
    PrefixUnder(e, n, b);
    var k := |b.path| - 1;
    var step := DeleteStep(n.path[k], n.operator, IsSameOperand(b, n), IsPrefix(b.path, n.path), b.path[k].index);
    if step.Some? {
      StepUnder(e, n.path, k, step.value.0);
    }
  }

  lemma {:induction false} MoveUnder(e: PathElement, n: Component, b: Component, side: Side)
    requires b.path != [] && |n.path| >= |b.path| && b.operator.ListMove?
    ensures AgainstListMove(Under(e, n), Under(e, b), side) == AllUnder(e, AgainstListMove(n, b, side))
  {
    var k := |b.path| - 1;
    var step := MoveStep(n.path[k], n.operator, IsSameOperand(b, n), b.path[k], b.operator.newIndex, side);
    if step.Some? {
      StepUnder(e, n.path, k, step.value.0);
    }
  }

  lemma {:induction false} TwoUnder(e: PathElement, r: seq<Component>, r': seq<Component>)
    requires |r| == |r'| <= 2
    requires (|r| > 0 ==> r'[0] == Under(e, r[0])) && (|r| > 1 ==> r'[1] == Under(e, r[1]))
    ensures r' == AllUnder(e, r)
  {
  }

  lemma {:induction false} ObjectsUnder(e: PathElement, n: Component, b: Component, side: Side)
    requires n.path != [] && b.path != [] && IsObjectOp(b.operator)
    ensures AgainstOperator(n, b, side).Ok?
    ensures AgainstOperator(Under(e, n), Under(e, b), side) == Ok(AllUnder(e, AgainstOperator(n, b, side).value))
  {
    StepsUnder(e, n, b);
    var r, r' := AgainstOperator(n, b, side).value, AgainstOperator(Under(e, n), Under(e, b), side).value;
    TwoUnder(e, r, r');
  }

  lemma {:induction false} OthersUnder(e: PathElement, n: Component, b: Component, side: Side)
    requires n.path != [] && b.path != []
    requires b.operator.Noop? || b.operator.SubTypeOp? || b.operator.ListReplace?
    ensures AgainstOperator(n, b, side).Ok?
    ensures AgainstOperator(Under(e, n), Under(e, b), side) == Ok(AllUnder(e, AgainstOperator(n, b, side).value))
  {
    StepsUnder(e, n, b);
    var r, r' := AgainstOperator(n, b, side).value, AgainstOperator(Under(e, n), Under(e, b), side).value;
    assert |r| == |r'| <= 1;
    assert |r| > 0 ==> r'[0] == Under(e, r[0]);
    assert r' == AllUnder(e, r);
  }

  lemma {:induction false} AgainstUnder(e: PathElement, n: Component, b: Component, side: Side)
    requires n.path != [] && b.path != []
    ensures IndexPanics(Under(e, n), Under(e, b), side) <==> IndexPanics(n, b, side)
    ensures !IndexPanics(n, b, side) ==>
      && AgainstOperator(n, b, side).Ok?
      && AgainstOperator(Under(e, n), Under(e, b), side) == Ok(AllUnder(e, AgainstOperator(n, b, side).value))
  {
    if IndexPanics(n, b, side) {
    } else if b.operator.ListInsert? {
      InsertUnder(e, n, b, side);
    } else if b.operator.ListDelete? {
      DeleteUnder(e, n, b);
    } else if b.operator.ListMove? {
      MoveUnder(e, n, b, side);
    } else if IsObjectOp(b.operator) {
      ObjectsUnder(e, n, b, side);
    } else {
      OthersUnder(e, n, b, side);
    }
  }

  lemma {:induction false} ConsumeUnder(e: PathElement, n: Component, b: Component)
    requires n.path != [] && b.path != []
    ensures var k := CommonLen(b.path, n.path);
      && CommonLen(Under(e, b).path, Under(e, n).path) == k + 1
      && var c, c' := Consume(n, k, b), Consume(Under(e, n), k + 1, Under(e, b));
         match c { case Ok(d) => c' == Ok(Under(e, d)) case Err(x) => c' == Err(x) }
  {
    StepsUnder(e, n, b);
  }

  /** The transformation looks only at what follows a common first step. */
  lemma {:induction false} TransformUnder(e: PathElement, n: Component, b: Component, side: Side)
    requires n.path != [] && b.path != []
    ensures TransformComponent(Under(e, n), Under(e, b), side) == ResultUnder(e, TransformComponent(n, b, side))
  {
    var n', b' := Under(e, n), Under(e, b);
    assert Meet(n', b') == Meet(n, b) by {
      StepsUnder(e, n, b);
    }
    match Meet(n, b)
    case Apart => assert AllUnder(e, [n]) == [n'];
    case Below =>
      ConsumeUnder(e, n, b);
      var c := Consume(n, CommonLen(b.path, n.path), b);
      if c.Ok? {
        assert AllUnder(e, [c.value]) == [Under(e, c.value)];
      }
    case InTheWay => AgainstUnder(e, n, b, side);
  }

  predicate PathsNonEmpty(cs: seq<Component>) {
    forall i :: 0 <= i < |cs| ==> cs[i].path != []
  }

  lemma {:induction false} TransformKeepsPaths(n: Component, b: Component, side: Side)
    requires n.path != [] && b.path != [] && TransformComponent(n, b, side).Ok?
    ensures PathsNonEmpty(TransformComponent(n, b, side).value)
  {
  }

  lemma {:induction false} PutChildTwice(v: Value, e: PathElement, x: Value, y: Value)
    requires HasChild(v, e)
    ensures var w := PutChild(v, e, x);
      HasChild(w, e) && Child(w, e) == x && PutChild(w, e, y) == PutChild(v, e, y)
  {
    match v
    case Arr(items) => assert items[e.index := x][e.index := y] == items[e.index := y];
    case Obj(fields) => assert fields[e.key := x][e.key := y] == fields[e.key := y];
  }

  lemma {:induction false} OneUnder(v: Value, e: PathElement, w: Value, c: Component)
    requires HasChild(v, e) && IsContainer(w) && c.path != []
    ensures ApplyOne(PutChild(v, e, w), Under(e, c)) == MapOk(ApplyOne(w, c), v, e)
    ensures ApplyOne(w, c).Ok? ==> IsContainer(ApplyOne(w, c).value)
  {
    PutChildTwice(v, e, w, w);
    Peel(PutChild(v, e, w), [e] + c.path, c.operator);
    assert ([e] + c.path)[1..] == c.path;
    var r := ApplyOne(w, c);
    if r.Ok? {
      PutChildTwice(v, e, w, r.value);
      KindKept(w, c.path, c.operator);
    }
  }

  lemma {:induction false} AllAppliedUnder(v: Value, e: PathElement, w: Value, cs: seq<Component>)
    requires HasChild(v, e) && IsContainer(w) && PathsNonEmpty(cs)
    ensures ApplyAll(PutChild(v, e, w), AllUnder(e, cs)) == MapOk(ApplyAll(w, cs), v, e)
    ensures ValidationError(AllUnder(e, cs)) == ValidationError(cs)
    decreases |cs|
  {
    if cs != [] {
      OneUnder(v, e, w, cs[0]);
      assert AllUnder(e, cs)[1..] == AllUnder(e, cs[1..]);
      var r := ApplyOne(w, cs[0]);
      if r.Ok? {
        AllAppliedUnder(v, e, r.value, cs[1..]);
      } else {
        AllAppliedUnder(v, e, w, cs[1..]);
      }
    }
  }

  lemma {:induction false} ThenUnder(v: Value, e: PathElement, c: Component, second: Result<seq<Component>>)
    requires HasChild(v, e) && Fits(Child(v, e), c)
    requires second.Ok? && PathsNonEmpty(second.value)
    ensures Then(v, Under(e, c), ResultUnder(e, second)) == MapOk(Then(Child(v, e), c, second), v, e)
  {
    var w := Child(v, e);
    FitsApplies(w, c);
    assert PutChild(v, e, w) == v by {
      match v
      case Arr(items) => assert items[e.index := w] == items;
      case Obj(fields) => assert fields[e.key := w] == fields;
    }
    OneUnder(v, e, w, c);
    AllAppliedUnder(v, e, ApplyOne(w, c).value, second.value);
  }

  // ---- The theorem --------------------------------------------------------------------------------------

  /** An edit is lost when both components work in one container: in a list as the positions and operators tell, in an
      object when left deletes the key that right replaces. */
  predicate EditLost(l: Component, r: Component) {
    && l.path != [] && r.path != [] && Parent(l.path) == Parent(r.path)
    && (var i, j := Last(l.path).index, Last(r.path).index;
        || LostInList(i, l.operator, j, r.operator, Left)
        || LostInList(j, r.operator, i, l.operator, Right)
        || DeleteMeetsReplace(l, r))
  }

  predicate NothingLost(l: Component, r: Component) {
    !EditLost(l, r)
  }

  /** The lost edit shows in the document: always, unless it is a move among equal elements. */
  predicate LossShowsIn(v: Value, l: Component, r: Component)
    requires l.path != [] && r.path != []
  {
    Resolves(v, Parent(l.path)) && At(v, Parent(l.path)).Arr? ==>
      var items := At(v, Parent(l.path)).items;
      LosesInList(items, Component([Last(l.path)], l.operator), Component([Last(r.path)], r.operator))
  }

  lemma {:induction false} LossUnder(v: Value, e: PathElement, l: Component, r: Component)
    requires HasChild(v, e) && l.path != [] && r.path != []
    ensures EditLost(Under(e, l), Under(e, r)) <==> EditLost(l, r)
    ensures LossShowsIn(v, Under(e, l), Under(e, r)) <==> LossShowsIn(Child(v, e), l, r)
  {
    var p, q := [e] + l.path, [e] + r.path;
    assert Parent(p) == [e] + Parent(l.path) && Parent(q) == [e] + Parent(r.path);
    assert Parent(p)[1..] == Parent(l.path) && Parent(q)[1..] == Parent(r.path);
    assert Last(p) == Last(l.path) && Last(q) == Last(r.path);
    assert p[1..] == l.path && q[1..] == r.path;
  }

  /** A common first step does not change whether two components converge. */
  lemma {:induction false} ConvergesUnder(v: Value, e: PathElement, l: Component, r: Component)
    requires HasChild(v, e) && Fits(Child(v, e), l) && Fits(Child(v, e), r)
    requires TransformComponent(l, r, Left).Ok? && TransformComponent(r, l, Right).Ok?
    ensures TransformComponent(Under(e, l), Under(e, r), Left).Ok?
      && TransformComponent(Under(e, r), Under(e, l), Right).Ok?
    ensures Converges(v, Under(e, l), Under(e, r)) <==> Converges(Child(v, e), l, r)
  {
    var l2, r2 := TransformComponent(l, r, Left), TransformComponent(r, l, Right);
    TransformUnder(e, l, r, Left);
    TransformUnder(e, r, l, Right);
    TransformKeepsPaths(l, r, Left);
    TransformKeepsPaths(r, l, Right);
    ThenUnder(v, e, l, r2);
    ThenUnder(v, e, r, l2);
    var x, y := Then(Child(v, e), l, r2), Then(Child(v, e), r, l2);
    if x.Ok? && y.Ok? {
      PutChildTwice(v, e, x.value, x.value);
      PutChildTwice(v, e, y.value, y.value);
    }
  }

  lemma {:induction false} InnerAndOuter(v: Value, outer: Component, inner: Component, s: Side, t: Side)
    requires |outer.path| == 1 && Effective(v, outer)
    requires ActsInside(v, inner) && Effective(v, inner)
    ensures TransformComponent(outer, inner, s).Ok? && NoneSkipped(TransformComponent(outer, inner, s).value)
    ensures TransformComponent(inner, outer, t).Ok? && NoneSkipped(TransformComponent(inner, outer, t).value)
    ensures Then(v, outer, TransformComponent(inner, outer, t)).Ok?
    ensures Then(v, outer, TransformComponent(inner, outer, t)) == Then(v, inner, TransformComponent(outer, inner, s))
    ensures !DeleteMeetsReplace(outer, inner) && !DeleteMeetsReplace(inner, outer)
  {
    if v.Arr? && outer.operator.SubTypeOp? {
      AddAgainstInner(v.items, outer, inner, s);
      AddAgainstInner(v.items, outer, inner, t);
      AddOverInner(v.items, outer, inner);
      OneSkipped(outer);
      OneSkipped(inner);
    } else if v.Arr? {
      var k := outer.path[0].index;
      assert outer == Slot(k, outer.operator);
      ListOverInner(v.items, k, outer.operator, inner, s, t);
      InnerAgainstOuter(v.items, inner, k, outer.operator, t);
    } else {
      ObjectOverInner(v.fields, outer, inner, s, t);
    }
  }

  lemma {:induction false} ConvergenceHere(v: Value, l: Component, r: Component)
    requires Effective(v, l) && Effective(v, r) && (|l.path| == 1 || |r.path| == 1)
    ensures TransformComponent(l, r, Left).Ok? && TransformComponent(r, l, Right).Ok?
    ensures Converges(v, l, r) <==> !(EditLost(l, r) && LossShowsIn(v, l, r))
  {
    if |l.path| > 1 {
      InnerAndOuter(v, r, l, Right, Left);
    } else if |r.path| > 1 {
      InnerAndOuter(v, l, r, Left, Right);
    } else {
      assert Parent(l.path) == Parent(r.path) == [];
      assert l.path == [Last(l.path)] && r.path == [Last(r.path)];
      if v.Arr? && l.operator.SubTypeOp? {
        AddAgainstSlot(v.items, l, r, Left);
        AddAgainstSlot(v.items, l, r, Right);
        AddConverges(v.items, l, r);
      } else if v.Arr? && r.operator.SubTypeOp? {
        AddAgainstSlot(v.items, r, l, Left);
        AddAgainstSlot(v.items, r, l, Right);
        AddConverges(v.items, r, l);
      } else if v.Arr? {
        ListLevel(v.items, l, r);
      } else {
        ObjectLevel(v.fields, l, r);
      }
    }
  }

  lemma {:induction false} DifferentParents(l: Component, r: Component)
    requires |l.path| > 1 && |r.path| > 1 && l.path[0] != r.path[0]
    ensures !EditLost(l, r)
  {
    assert Parent(l.path)[0] == l.path[0] && Parent(r.path)[0] == r.path[0];
  }

  /** On a conflict over one key, at any depth, left's edit is what both sides end with, with two exceptions. */
  lemma {:induction false} LeftWins(v: Value, l: Component, r: Component)
    requires Effective(v, l) && Effective(v, r) && l.path == r.path && !BothAdd(l, r)
    requires IsObjectOp(l.operator) || IsObjectOp(r.operator)
    ensures Then(v, r, TransformComponent(l, r, Left)) == ApplyOne(v, if RightStays(l, r) then r else l)
    decreases |l.path|
  {
    if |l.path| == 1 {
      KeyConflictHere(v.fields, l, r);
    } else {
      var e, l1, r1 := l.path[0], Component(l.path[1..], l.operator), Component(r.path[1..], r.operator);
      assert l == Under(e, l1) && r == Under(e, r1);
      NoopUnder(e, l1);
      NoopUnder(e, r1);
      Convergence(Child(v, e), l1, r1);
      LeftWins(Child(v, e), l1, r1);
      LeftWinsUnder(v, e, l1, r1, if RightStays(l1, r1) then r1 else l1);
    }
  }

  lemma {:induction false} LeftWinsUnder(v: Value, e: PathElement, l: Component, r: Component, winner: Component)
    requires HasChild(v, e) && Fits(Child(v, e), l) && Fits(Child(v, e), r) && Fits(Child(v, e), winner)
    requires TransformComponent(l, r, Left).Ok?
    requires Then(Child(v, e), r, TransformComponent(l, r, Left)) == ApplyOne(Child(v, e), winner)
    ensures Then(v, Under(e, r), TransformComponent(Under(e, l), Under(e, r), Left)) == ApplyOne(v, Under(e, winner))
  {
    var l2 := TransformComponent(l, r, Left);
    TransformUnder(e, l, r, Left);
    TransformKeepsPaths(l, r, Left);
    ThenUnder(v, e, r, l2);
    FitsApplies(Child(v, e), winner);
    InnerApplies(v, Under(e, winner));
    assert ([e] + winner.path)[1..] == winner.path;
  }

  /** Two effective components anywhere in a document converge exactly when no edit is lost that shows. */
  lemma {:induction false} Convergence(v: Value, l: Component, r: Component)
    requires Effective(v, l) && Effective(v, r)
    ensures TransformComponent(l, r, Left).Ok? && TransformComponent(r, l, Right).Ok?
    ensures Converges(v, l, r) <==> !(EditLost(l, r) && LossShowsIn(v, l, r))
    decreases |l.path|
  {
    var d, e := l.path[0], r.path[0];
    if |l.path| > 1 && |r.path| > 1 {
      if d == e {
        var w, l1, r1 := Child(v, d), Component(l.path[1..], l.operator), Component(r.path[1..], r.operator);
        assert l == Under(d, l1) && r == Under(d, r1);
        NoopUnder(d, l1);
        NoopUnder(d, r1);
        Convergence(w, l1, r1);
        ConvergesUnder(v, d, l1, r1);
        LossUnder(v, d, l1, r1);
      } else {
        DifferentSlots(v, l, r);
        DifferentParents(l, r);
      }
    } else {
      ConvergenceHere(v, l, r);
    }
  }
}
