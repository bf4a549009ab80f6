/** A component at a container against one that acts inside one of the container's slots. */
module Nested {
  import opened Json
  import opened Operators
  import opened Sequences
  import opened Apply
  import opened Transform
  import opened Validity
  import opened Routing
  import opened ListConvergence
  import opened BothOrders

  /** The component acts strictly inside the slot its path starts with. */
  predicate ActsInside(v: Value, c: Component) {
    |c.path| >= 2 && Fits(v, c)
  }

  /** What is left in the slot after the component has run. */
  function InSlot(v: Value, c: Component): Result<Value>
    requires ActsInside(v, c)
  {
    ApplyToValue(Child(v, c.path[0]), c.path[1..], c.operator)
  }

  /** A component that fits applies, and stays inside the container it starts from. */
  lemma {:induction false} FitsApplies(v: Value, c: Component)
    requires Fits(v, c)
    ensures ApplyOne(v, c).Ok? && IsContainer(v) && IsContainer(ApplyOne(v, c).value)
    ensures v.Arr? <==> ApplyOne(v, c).value.Arr?
    ensures ValidComponent(c)
    decreases |c.path|
  {
    if |c.path| > 1 {
      FitsApplies(Child(v, c.path[0]), Component(c.path[1..], c.operator));
      Peel(v, c.path, c.operator);
    }
  }

  lemma {:induction false} InnerApplies(v: Value, c: Component)
    requires ActsInside(v, c)
    ensures InSlot(v, c).Ok? && IsContainer(InSlot(v, c).value) && IsContainer(Child(v, c.path[0]))
    ensures ApplyOne(v, c) == Ok(PutChild(v, c.path[0], InSlot(v, c).value))
    ensures ValidComponent(c)
  {
    FitsApplies(Child(v, c.path[0]), Component(c.path[1..], c.operator));
    Peel(v, c.path, c.operator);
  }

  /** Moving a component to another slot that holds the same subtree. */
  lemma {:induction false} InnerRelocates(v: Value, c: Component, w: Value, e: PathElement)
    requires ActsInside(v, c) && HasChild(w, e) && Child(w, e) == Child(v, c.path[0])
    ensures var d := Component([e] + c.path[1..], c.operator);
      && ActsInside(w, d)
      && InSlot(v, c).Ok?
      && ApplyOne(w, d) == Ok(PutChild(w, e, InSlot(v, c).value))
  {
    var d := Component([e] + c.path[1..], c.operator);
    assert d.path[1..] == c.path[1..];
    InnerApplies(v, c);
    InnerApplies(w, d);
  }

  /** Where the slot `y` of an array is once the list component at slot `k` has run; None when it is gone. */
  function Tracked(y: int, k: int, op: Operator): Option<int>
    requires IsListOp(op)
  {
    match op
    case ListInsert(_) => Some(InsertedIndex(y, k))
    case ListDelete(_) => if y == k then None else Some(DeletedIndex(y, k))
    case ListReplace(_, _) => if y == k then None else Some(y)
    case ListMove(t) => Some(MovedIndex(y, k, t))
  }

  lemma {:induction false} TrackedMove(items: seq<Value>, y: nat, k: nat, t: nat, c: Value)
    requires y < |items| && k < |items| && t < |items|
    ensures var w, z := MoveAt(items, k, t), MovedIndex(y, k, t);
      && 0 <= z < |w| && w[z] == items[y]
      && MoveAt(items[y := c], k, t) == w[z := c]
  {
    var w, z := MoveAt(items, k, t), MovedIndex(y, k, t);
    MovedIndexIsWhereItWent(y, k, t, 0);
    MovedElement(items, k, t, z);
    var a := MoveAt(items[y := c], k, t);
    forall m | 0 <= m < |items|
      ensures a[m] == w[z := c][m]
    {
      MovedElement(items, k, t, m);
      MovedElement(items[y := c], k, t, m);
      MovedIndexIsWhereItWent(y, k, t, m);
    }
  }

  /** A tracked slot holds the same element, and changing it before or after is the same. */
  lemma {:induction false} TrackedElement(items: seq<Value>, y: nat, k: nat, op: Operator, c: Value)
    requires y < |items| && FitsSlot(items, Slot(k, op)) && Tracked(y, k, op).Some?
    ensures var w, z := Perform(items, Slot(k, op)), Tracked(y, k, op).value;
      && 0 <= z < |w| && w[z] == items[y]
      && FitsSlot(items[y := c], Slot(k, op))
      && Perform(items[y := c], Slot(k, op)) == w[z := c]
  {
    if op.ListMove? {
      TrackedMove(items, y, k, op.newIndex, c);
    }
  }

  // ---- What the transformation makes of an outer and an inner component ---------------------------------

  /** The inner component, once the outer one has run. */
  function InnerRebased(inner: Component, k: nat, op: Operator): seq<Component>
    requires IsListOp(op) && inner.path != []
  {
    var z := Tracked(inner.path[0].index, k, op);
    if z.None? then [] else [Component([IndexElem(z.value)] + inner.path[1..], inner.operator)]
  }

  lemma {:induction false} InnerAgainstOuter(items: seq<Value>, inner: Component, k: nat, op: Operator, side: Side)
    requires ActsInside(Arr(items), inner) && FitsSlot(items, Slot(k, op))
    requires !IsEquivalentToNoop(inner) && !IsEquivalentToNoop(Slot(k, op))
    ensures TransformComponent(inner, Slot(k, op), side) == Ok(InnerRebased(inner, k, op))
  {
    var y := inner.path[0].index;
    assert inner.path == [IndexElem(y)] + inner.path[1..];
    assert forall g: PathElement :: inner.path[0 := g] == [g] + inner.path[1..];
    assert [IndexElem(k)][1..] == [];
    var b := Slot(k, op);
    assert IsPrefix(b.path, inner.path) <==> k == y;
    match op
    case ListInsert(_) => assert AgainstListInsert(inner, b, side) == InnerRebased(inner, k, op);
    case ListDelete(_) => assert AgainstListDelete(inner, b) == InnerRebased(inner, k, op);
    case ListReplace(_, _) => assert AgainstListReplace(inner, b, side) == InnerRebased(inner, k, op);
    case ListMove(_) => assert AgainstListMove(inner, b, side) == InnerRebased(inner, k, op);
  }

  predicate RecordsOld(op: Operator) {
    op.ListDelete? || op.ListReplace? || op.ObjectDelete? || op.ObjectReplace?
  }

  /** The outer component, once the inner one has run: a recorded old value absorbs the inner change. */
  function OuterRebased(v: Value, outer: Component, inner: Component): Component
    requires ActsInside(v, inner) && InSlot(v, inner).Ok?
  {
    if RecordsOld(outer.operator) && outer.path == [inner.path[0]]
    then outer.(operator := outer.operator.(oldValue := InSlot(v, inner).value))
    else outer
  }

  /** A single step against a longer path. */
  lemma {:induction false} SingleCommon(d: PathElement, p: Path)
    requires p != [] && WfElem(d) && WfElem(p[0])
    ensures CommonLen([d], p) == CommonLen(p, [d]) == if d == p[0] then 1 else 0
    ensures IsPrefix([d], p) <==> d == p[0]
  {
    assert [d][1..] == [];
    assert CommonLen([d][1..], p[1..]) == 0 && CommonLen(p[1..], [d][1..]) == 0;
    assert CommonLen([d], p) == if d == p[0] then 1 + CommonLen([d][1..], p[1..]) else 0;
    assert CommonLen(p, [d]) == if p[0] == d then 1 + CommonLen(p[1..], [d][1..]) else 0;
    assert IsPrefix([d][1..], p[1..]);
  }

  /** Absorption: the recorded old value becomes the subtree found there after the inner component. */
  lemma {:induction false} OuterAgainstInner(v: Value, outer: Component, inner: Component, side: Side)
    requires ActsInside(v, inner) && Fits(v, outer) && |outer.path| == 1 && !outer.operator.SubTypeOp?
    requires !IsEquivalentToNoop(inner) && !IsEquivalentToNoop(outer)
    ensures InSlot(v, inner).Ok?
    ensures TransformComponent(outer, inner, side) == Ok([OuterRebased(v, outer, inner)])
  {
    InnerApplies(v, inner);
    assert outer.path == [outer.path[0]];
    SingleCommon(outer.path[0], inner.path);
  }

  lemma {:induction false} InnerAfterOuter(items: seq<Value>, k: nat, op: Operator, inner: Component)
    requires FitsSlot(items, Slot(k, op)) && Effective(Arr(items), Slot(k, op))
    requires ActsInside(Arr(items), inner) && Tracked(inner.path[0].index, k, op).Some?
    ensures var w, inner' := Arr(Perform(items, Slot(k, op))), InnerRebased(inner, k, op);
      var z := Tracked(inner.path[0].index, k, op).value;
      && |inner'| == 1 && 0 <= z < |w.items| && InSlot(Arr(items), inner).Ok?
      && ApplyOperation(w, inner') == Ok(Arr(w.items[z := InSlot(Arr(items), inner).value]))
  {
    var w, z := Perform(items, Slot(k, op)), Tracked(inner.path[0].index, k, op);
    InnerApplies(Arr(items), inner);
    TrackedElement(items, inner.path[0].index, k, op, InSlot(Arr(items), inner).value);
    var inner' := InnerRebased(inner, k, op);
    InnerRelocates(Arr(items), inner, Arr(w), IndexElem(z.value));
    InnerApplies(Arr(w), inner'[0]);
    ApplySingle(Arr(w), inner'[0]);
  }

  /** An effective list component and one acting inside an element always converge. */
  lemma {:induction false} ListOverInner(items: seq<Value>, k: nat, op: Operator, inner: Component, s: Side, t: Side)
    requires FitsSlot(items, Slot(k, op)) && Effective(Arr(items), Slot(k, op))
    requires ActsInside(Arr(items), inner) && !IsEquivalentToNoop(inner)
    ensures var v, outer := Arr(items), Slot(k, op);
      && TransformComponent(outer, inner, s).Ok? && NoneSkipped(TransformComponent(outer, inner, s).value)
      && TransformComponent(inner, outer, t).Ok?
      && Then(v, outer, TransformComponent(inner, outer, t)).Ok?
      && Then(v, outer, TransformComponent(inner, outer, t)) == Then(v, inner, TransformComponent(outer, inner, s))
  {
    var v, outer, y := Arr(items), Slot(k, op), inner.path[0].index;
    InnerAgainstOuter(items, inner, k, op, t);
    OuterAgainstInner(v, outer, inner, s);
    InnerApplies(v, inner);
    var c := InSlot(v, inner).value;
    var outer' := OuterRebased(v, outer, inner);
    var inner' := InnerRebased(inner, k, op);
    var w, z := Perform(items, outer), Tracked(y, k, op);
    ApplySlot(items, outer);
    assert ApplyOne(v, inner) == Ok(Arr(items[y := c]));
    if z.Some? {
      TrackedElement(items, y, k, op, c);
      InnerAfterOuter(items, k, op, inner);
    } else {
      assert Perform(items[y := c], outer') == w;
    }
    ApplySlot(items[y := c], outer');
    ApplySingle(Arr(items[y := c]), outer');
  }

  // ---- Additions to a number in an array ----------------------------------------------------------------

  /** An addition to a number in the array, which the list code leaves undone. */
  predicate AddsInList(items: seq<Value>, c: Component) {
    |c.path| == 1 && c.operator.SubTypeOp? && Fits(Arr(items), c)
  }

  /** The addition after a concurrent component on a slot of the same array: it goes where its element goes. */
  function AddRebased(c: Component, b: Component): seq<Component>
    requires c.path != [] && b.path != []
  {
    if !IsListOp(b.operator) then [c]
    else
      match Tracked(c.path[0].index, b.path[0].index, b.operator)
      case None => []
      case Some(z) => [Slot(z, c.operator)]
  }

  lemma {:induction false} AddChangesNothing(items: seq<Value>, c: Component)
    requires |c.path| == 1 && c.operator.SubTypeOp?
    ensures ApplyOne(Arr(items), c) == Ok(Arr(items)) && ValidComponent(c)
  {
  }

  lemma {:induction false} AddAgainstSlot(items: seq<Value>, c: Component, b: Component, side: Side)
    requires AddsInList(items, c) && |b.path| == 1 && Fits(Arr(items), b) && !IsEquivalentToNoop(b)
    ensures TransformComponent(c, b, side) == Ok(AddRebased(c, b))
    ensures TransformComponent(b, c, side) == Ok([b])
  {
    var i, k := c.path[0].index, b.path[0].index;
    assert c == Slot(i, c.operator) && b == Slot(k, b.operator);
    SingleSteps(i, k);
    SingleSteps(k, i);
    assert c.path[1..] == [];
  }

  lemma {:induction false} AddAgainstInner(items: seq<Value>, c: Component, inner: Component, side: Side)
    requires AddsInList(items, c) && ActsInside(Arr(items), inner) && !IsEquivalentToNoop(inner)
    ensures TransformComponent(c, inner, side) == Ok([c]) && TransformComponent(inner, c, side) == Ok([inner])
    ensures c.path[0] != inner.path[0]
  {
    InnerApplies(Arr(items), inner);
    assert c.path == [c.path[0]];
    SingleCommon(c.path[0], inner.path);
  }

  lemma {:induction false} AddRebasedFits(items: seq<Value>, c: Component, b: Component)
    requires AddsInList(items, c) && FitsSlot(items, b)
    ensures |AddRebased(c, b)| <= 1
    ensures AddRebased(c, b) != [] ==> AddsInList(Perform(items, b), AddRebased(c, b)[0])
  {
    assert b == Slot(b.path[0].index, b.operator);
    var z := Tracked(c.path[0].index, b.path[0].index, b.operator);
    if z.Some? {
      TrackedElement(items, c.path[0].index, b.path[0].index, b.operator, Null);
    }
  }

  /** Whatever it meets in its array, both orders give what the other component does. */
  lemma {:induction false} AddConverges(items: seq<Value>, c: Component, b: Component)
    requires AddsInList(items, c) && |b.path| == 1 && Effective(Arr(items), b)
    ensures NoneSkipped([b]) && NoneSkipped(AddRebased(c, b))
    ensures ApplyOne(Arr(items), b).Ok?
    ensures Then(Arr(items), c, Ok([b])) == ApplyOne(Arr(items), b)
    ensures Then(Arr(items), b, Ok(AddRebased(c, b))) == ApplyOne(Arr(items), b)
  {
    AddChangesNothing(items, c);
    FitsApplies(Arr(items), b);
    ApplySingle(Arr(items), b);
    OneSkipped(b);
    var cs := AddRebased(c, b);
    if cs != [] {
      assert cs == [cs[0]];
      var w := ApplyOne(Arr(items), b).value;
      AddChangesNothing(w.items, cs[0]);
      ApplySingle(w, cs[0]);
      OneSkipped(cs[0]);
    }
  }

  lemma {:induction false} AddOverInner(items: seq<Value>, c: Component, inner: Component)
    requires AddsInList(items, c) && ActsInside(Arr(items), inner)
    ensures ApplyOne(Arr(items), inner).Ok?
    ensures Then(Arr(items), c, Ok([inner])) == Then(Arr(items), inner, Ok([c])) == ApplyOne(Arr(items), inner)
    ensures Fits(ApplyOne(Arr(items), inner).value, c)
  {
    AddChangesNothing(items, c);
    InnerApplies(Arr(items), inner);
    ApplySingle(Arr(items), inner);
    var w := ApplyOne(Arr(items), inner).value;
    AddChangesNothing(w.items, c);
    ApplySingle(w, c);
  }
}
