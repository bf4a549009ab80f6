/** Applying left then the transformed right, or right then the transformed left, gives one document. */
module BothOrders {
  import opened Json
  import opened Operators
  import opened Sequences
  import opened Apply
  import opened Transform
  import opened Validity
  import opened ListConvergence

  /** Apply one component, then what the other one was transformed into. */
  function Then(v: Value, first: Component, second: Result<seq<Component>>): Result<Value> {
    var w :- ApplyOne(v, first);
    var cs :- second;
    ApplyOperation(w, cs)
  }

  /** Both orders succeed and give the same document. */
  predicate Converges(v: Value, l: Component, r: Component) {
    var a := Then(v, l, TransformComponent(r, l, Right));
    var b := Then(v, r, TransformComponent(l, r, Left));
    a.Ok? && a == b
  }

  /** What the transformation made of a component, when it made something. */
  function Out(r: Result<seq<Component>>): seq<Component> {
    if r.Ok? then r.value else []
  }

  /** An operation of one component. */
  lemma {:induction false} ApplySingle(v: Value, c: Component)
    requires ValidComponent(c)
    ensures ApplyOperation(v, [c]) == ApplyOne(v, c)
  {
    assert [c][1..] == [];
    assert ValidationError([c]) == ValidationError([]);
    assert ApplyAll(v, [c]) == ApplyOne(v, c);
  }

  lemma {:induction false} ThenApplied(v: Value, first: Component, second: Component)
    requires ApplyOne(v, first).Ok? && ValidComponent(second)
    ensures Then(v, first, Ok([second])) == ApplyOne(ApplyOne(v, first).value, second)
  {
    ApplySingle(ApplyOne(v, first).value, second);
  }

  // ---- One array ----------------------------------------------------------------------------------------

  /** The list code does what a fitting component says, unless it skips the component. */
  lemma {:induction false} ApplySlot(items: seq<Value>, c: Component)
    requires FitsSlot(items, c)
    ensures ApplyOne(Arr(items), c) == Ok(Arr(if Skipped(c) then items else Perform(items, c)))
    ensures ValidComponent(c)
  {
    var i := c.path[0].index;
    match c.operator
    case ListReplace(v, was) => assert was == v ==> items[i := v] == items;
    case ListMove(to) => assert i == to ==> MoveAt(items, i, to) == items;
    case _ =>
  }

  lemma {:induction false} ThenSlots(items: seq<Value>, c: Component, cs: seq<Component>)
    requires FitsSlot(items, c) && !Skipped(c) && AllFit(Perform(items, c), cs)
    ensures var w := Perform(items, c);
      Then(Arr(items), c, Ok(cs)) == Ok(Arr(if NoneSkipped(cs) then PerformAll(w, cs) else w))
  {
    var w := Perform(items, c);
    ApplySlot(items, c);
    if cs != [] {
      ApplySlot(w, cs[0]);
      assert cs == [cs[0]];
      ApplySingle(Arr(w), cs[0]);
      assert NoneSkipped(cs) <==> !Skipped(cs[0]);
    }
  }

  /** Two effective components are never both turned into ones the list code skips. */
  lemma {:induction false} NeverBothSkipped(items: seq<Value>, i: nat, n: Operator, j: nat, b: Operator)
    requires FitsSlot(items, Slot(i, n)) && FitsSlot(items, Slot(j, b))
    requires Effective(Arr(items), Slot(i, n)) && Effective(Arr(items), Slot(j, b))
    ensures NoneSkipped(Rebased(i, n, j, b, Left)) || NoneSkipped(Rebased(j, b, i, n, Right))
  {
  }

  /** The component at slot i comes to where the list code leaves it undone: a replacement or move whose element a
      deletion or move brings to the front, or a replacement of what a concurrent one has set to null. */
  predicate LostInList(i: int, n: Operator, j: int, b: Operator, side: Side) {
    match (n, b)
    case (ListReplace(_, _), ListDelete(_)) => i == 1 && j == 0
    case (ListMove(t), ListDelete(_)) => i == 1 && j == 0 && t != 0
    case (ListReplace(v, _), ListReplace(w, _)) => side == Left && i == j && w.Null? && !v.Null?
    case (ListReplace(_, _), ListMove(u)) => i == j && u == 0
    case (ListMove(t), ListMove(u)) => side == Left && i == j && u == 0 && t != 0
    case _ => false
  }

  /** What is lost would have changed the array: a replacement always, a move unless it passes only its equals. */
  predicate LossShows(items: seq<Value>, i: int, n: Operator, b: Operator) {
    match (n, b)
    case (ListMove(t), ListDelete(_)) =>
      exists k :: 1 < k <= t && k < |items| && items[k] != items[1]
    case (ListMove(t), ListMove(_)) =>
      exists k :: 0 <= k <= t && (k < t || i < t) && k < |items| && 0 <= i < |items| && items[k] != items[i]
    case _ => true
  }

  lemma {:induction false} LostIsSkipped(items: seq<Value>, i: nat, n: Operator, j: nat, b: Operator, s: Side)
    requires FitsSlot(items, Slot(i, n)) && FitsSlot(items, Slot(j, b))
    requires Effective(Arr(items), Slot(i, n)) && Effective(Arr(items), Slot(j, b))
    ensures !NoneSkipped(Rebased(i, n, j, b, s)) <==> LostInList(i, n, j, b, s)
  {
    var cs := Rebased(i, n, j, b, s);
    if cs != [] {
      OneSkipped(cs[0]);
      assert cs == [cs[0]];
    }
  }

  lemma {:induction false} OneSkipped(c: Component)
    ensures NoneSkipped([c]) <==> !Skipped(c)
  {
    assert c in [c];
  }

  lemma {:induction false} DeletedMoveShows(items: seq<Value>, t: nat)
    requires 1 < t < |items|
    ensures MoveAt(RemoveAt(items, 0), 0, t - 1) == RemoveAt(items, 0) <==>
      forall k :: 1 < k <= t ==> items[k] == items[1]
  {
    var w := RemoveAt(items, 0);
    MoveStays(w, 0, t - 1);
    forall k | 0 <= k < |w| ensures w[k] == items[k + 1] {
      RemovedElement(items, 0, k);
    }
    if AllSame(w, 0, t - 1) {
      forall k | 1 < k <= t ensures items[k] == items[1] {
        assert w[k - 1] == w[0];
      }
    }
  }

  lemma {:induction false} MovedMoveShows(items: seq<Value>, i: nat, t: nat)
    requires 0 < i < |items| && 0 < t < |items| && i != t
    ensures MoveAt(MoveAt(items, i, 0), 0, t) == MoveAt(items, i, 0) <==>
      forall k :: 0 <= k <= t && (k < t || i < t) ==> items[k] == items[i]
  {
    var w := MoveAt(items, i, 0);
    MoveStays(w, 0, t);
    forall k | 0 <= k < |w| ensures w[k] == items[if k == 0 then i else if k <= i then k - 1 else k] {
      MovedElement(items, i, 0, k);
    }
    if AllSame(w, 0, t) {
      forall k | 0 <= k <= t && (k < t || i < t) ensures items[k] == items[i] {
        assert k < i ==> w[k + 1] == w[0];
        assert k > i ==> w[k] == w[0];
      }
    }
  }

  lemma {:induction false} FrontAfterDeletion(was: Value, t: nat, s: Side)
    requires t > 1
    ensures Rebased(1, ListMove(t), 0, ListDelete(was), s) == [Slot(0, ListMove(t - 1))]
  {
  }

  lemma {:induction false} FrontAfterMove(i: nat, t: nat)
    requires i > 0 && t > 0 && i != t
    ensures Rebased(i, ListMove(t), i, ListMove(0), Left) == [Slot(0, ListMove(t))]
  {
  }

  lemma {:induction false} FrontMove(w: seq<Value>, u: nat)
    requires u < |w|
    ensures AllFit(w, [Slot(0, ListMove(u))]) && PerformAll(w, [Slot(0, ListMove(u))]) == MoveAt(w, 0, u)
  {
  }

  lemma {:induction false} LostByDeletion(items: seq<Value>, t: nat, s: Side)
    requires 1 < t < |items|
    ensures var n, b := ListMove(t), ListDelete(items[0]);
      var w, cs := Perform(items, Slot(0, b)), Rebased(1, n, 0, b, s);
      AllFit(w, cs) && (PerformAll(w, cs) != w <==> LossShows(items, 1, n, b))
  {
    DeletedMoveShows(items, t);
    FrontAfterDeletion(items[0], t, s);
    FrontMove(RemoveAt(items, 0), t - 1);
  }

  lemma {:induction false} LostByMove(items: seq<Value>, i: nat, t: nat)
    requires 0 < i < |items| && 0 < t < |items| && i != t
    ensures var n, b := ListMove(t), ListMove(0);
      var w, cs := Perform(items, Slot(i, b)), Rebased(i, n, i, b, Left);
      AllFit(w, cs) && (PerformAll(w, cs) != w <==> LossShows(items, i, n, b))
  {
    MovedMoveShows(items, i, t);
    FrontAfterMove(i, t);
    FrontMove(MoveAt(items, i, 0), t);
  }

  lemma {:induction false} LostMoveIsVisible(items: seq<Value>, i: nat, t: nat, j: nat, b: Operator, s: Side)
    requires FitsSlot(items, Slot(i, ListMove(t))) && FitsSlot(items, Slot(j, b))
    requires Effective(Arr(items), Slot(i, ListMove(t))) && Effective(Arr(items), Slot(j, b))
    requires LostInList(i, ListMove(t), j, b, s)
    requires AllFit(Perform(items, Slot(j, b)), Rebased(i, ListMove(t), j, b, s))
    ensures var w := Perform(items, Slot(j, b));
      PerformAll(w, Rebased(i, ListMove(t), j, b, s)) != w <==> LossShows(items, i, ListMove(t), b)
  {
    if b.ListDelete? {
      LostByDeletion(items, t, s);
    } else {
      LostByMove(items, i, t);
    }
  }

  lemma {:induction false} LostReplacementIsVisible(items: seq<Value>, i: nat, n: Operator, j: nat, b: Operator,
      s: Side)
    requires FitsSlot(items, Slot(i, n)) && FitsSlot(items, Slot(j, b)) && n.ListReplace?
    requires Effective(Arr(items), Slot(i, n)) && Effective(Arr(items), Slot(j, b))
    requires LostInList(i, n, j, b, s) && AllFit(Perform(items, Slot(j, b)), Rebased(i, n, j, b, s))
    ensures PerformAll(Perform(items, Slot(j, b)), Rebased(i, n, j, b, s)) != Perform(items, Slot(j, b))
  {
    var w, c := Perform(items, Slot(j, b)), Rebased(i, n, j, b, s)[0];
    assert Perform(w, c)[c.path[0].index] == n.newValue;
  }

  /** The lost component would have changed what the other one left, exactly when the loss shows. */
  lemma {:induction false} LossIsVisible(items: seq<Value>, i: nat, n: Operator, j: nat, b: Operator, s: Side)
    requires FitsSlot(items, Slot(i, n)) && FitsSlot(items, Slot(j, b))
    requires Effective(Arr(items), Slot(i, n)) && Effective(Arr(items), Slot(j, b))
    requires LostInList(i, n, j, b, s) && AllFit(Perform(items, Slot(j, b)), Rebased(i, n, j, b, s))
    ensures var w := Perform(items, Slot(j, b));
      PerformAll(w, Rebased(i, n, j, b, s)) != w <==> LossShows(items, i, n, b)
  {
    if n.ListMove? {
      LostMoveIsVisible(items, i, n.newIndex, j, b, s);
    } else {
      LostReplacementIsVisible(items, i, n, j, b, s);
    }
  }

  /** An edit of either side is lost, and it shows. */
  predicate LosesInList(items: seq<Value>, l: Component, r: Component) {
    && |l.path| == |r.path| == 1
    && (var i, n, j, b := l.path[0].index, l.operator, r.path[0].index, r.operator;
        || (LostInList(i, n, j, b, Left) && LossShows(items, i, n, b))
        || (LostInList(j, b, i, n, Right) && LossShows(items, j, b, n)))
  }

  /** Two effective components at one array converge exactly when neither loses an edit that shows. */
  lemma {:induction false} ListLevel(items: seq<Value>, l: Component, r: Component)
    requires FitsSlot(items, l) && FitsSlot(items, r)
    requires Effective(Arr(items), l) && Effective(Arr(items), r)
    ensures TransformComponent(l, r, Left).Ok? && TransformComponent(r, l, Right).Ok?
    ensures Converges(Arr(items), l, r) <==> !LosesInList(items, l, r)
  {
    var i, n, j, b := l.path[0].index, l.operator, r.path[0].index, r.operator;
    assert l == Slot(i, n) && r == Slot(j, b);
    TransformAtSlots(i, n, j, b, Left);
    TransformAtSlots(j, b, i, n, Right);
    PairAgrees(items, i, n, j, b);
    ThenSlots(items, l, Rebased(j, b, i, n, Right));
    ThenSlots(items, r, Rebased(i, n, j, b, Left));
    NeverBothSkipped(items, i, n, j, b);
    LostIsSkipped(items, i, n, j, b, Left);
    LostIsSkipped(items, j, b, i, n, Right);
    if LostInList(i, n, j, b, Left) {
      LossIsVisible(items, i, n, j, b, Left);
    }
    if LostInList(j, b, i, n, Right) {
      LossIsVisible(items, j, b, i, n, Right);
    }
  }
}
