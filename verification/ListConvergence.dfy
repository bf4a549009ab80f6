/** Two list components at the same array: what each is transformed into fits, and both orders agree. */
module ListConvergence {
  import opened Json
  import opened Operators
  import opened Sequences
  import opened Transform
  import opened Validity

  function Slot(i: int, op: Operator): Component {
    Component([IndexElem(i)], op)
  }

  /** A list component on one slot of the array. */
  predicate FitsSlot(items: seq<Value>, c: Component) {
    |c.path| == 1 && IsListOp(c.operator) && FitsContainer(Arr(items), c.path[0], c.operator)
  }

  /** What a list component that fits means. */
  function Perform(items: seq<Value>, c: Component): seq<Value>
    requires FitsSlot(items, c)
  {
    var i := c.path[0].index;
    match c.operator
    case ListInsert(v) => InsertAt(items, i, v)
    case ListDelete(_) => RemoveAt(items, i)
    case ListReplace(v, _) => items[i := v]
    case ListMove(to) => MoveAt(items, i, to)
  }

  predicate AllFit(items: seq<Value>, cs: seq<Component>) {
    |cs| <= 1 && (|cs| == 1 ==> FitsSlot(items, cs[0]))
  }

  function PerformAll(items: seq<Value>, cs: seq<Component>): seq<Value>
    requires AllFit(items, cs)
  {
    if cs == [] then items else Perform(items, cs[0])
  }

  /** The transformed components fit where they arrive and lead to the same array. */
  predicate Agree(items: seq<Value>, l: Component, r: Component, l2: seq<Component>, r2: seq<Component>)
    requires FitsSlot(items, l) && FitsSlot(items, r)
  {
    && AllFit(Perform(items, l), r2)
    && AllFit(Perform(items, r), l2)
    && PerformAll(Perform(items, l), r2) == PerformAll(Perform(items, r), l2)
  }

  // ---- What the transformation makes of two components at one array -------------------------------------

  /** Rewriting and comparing paths of a single step. */
  lemma {:induction false} SingleSteps(i: int, j: int)
    ensures IsPrefix([IndexElem(i)], [IndexElem(j)]) <==> i == j
    ensures forall g: PathElement :: [IndexElem(i)][0 := g] == [g]
    ensures CommonLen([IndexElem(i)], [IndexElem(j)]) == if i == j then 1 else 0
  {
    assert [IndexElem(i)][1..] == [] && [IndexElem(j)][1..] == [];
  }

  function InsertedIndex(i: int, at: int): int { if at <= i then i + 1 else i }

  function DeletedIndex(i: int, at: int): int { if at < i then i - 1 else i }

  function MovedIndex(i: int, from: int, to: int): int { ShiftMove(IndexElem(i), from, to).index }

  function MoveSourceIndex(i: int, from: int, to: int): int { ShiftMoveSource(IndexElem(i), from, to).index }

  function InsertionIndex(i: int, from: int, to: int): int { ShiftInsertionPoint(IndexElem(i), from, to).index }

  /** Where the target of a move from `f` goes when the element at `d` is deleted. */
  function DeletedTarget(f: int, t: int, d: int): int { if d < t || (d == t && f < t) then t - 1 else t }

  /** The component at slot `i` after a concurrent one at slot `j`, in terms of indexes. */
  function Rebased(i: nat, n: Operator, j: nat, b: Operator, side: Side): seq<Component>
    requires IsListOp(n) && IsListOp(b)
  {
    match b
    case ListInsert(_) =>
      (match n
       case ListInsert(_) => [Slot(if i == j && side == Left then i else InsertedIndex(i, j), n)]
       case ListMove(t) => [Slot(InsertedIndex(i, j), ListMove(InsertedIndex(t, j)))]
       case _ => [Slot(InsertedIndex(i, j), n)])
    case ListDelete(_) =>
      (match n
       case ListInsert(_) => [Slot(DeletedIndex(i, j), n)]
       case ListDelete(_) => if i == j then [] else [Slot(DeletedIndex(i, j), n)]
       case ListReplace(v, _) => if i == j then [Slot(i, ListInsert(v))] else [Slot(DeletedIndex(i, j), n)]
       case ListMove(t) => if i == j then [] else [Slot(DeletedIndex(i, j), ListMove(DeletedTarget(i, t, j)))])
    case ListReplace(w, _) =>
      (match n
       case ListReplace(v, _) =>
         if i != j then [Slot(i, n)] else if side == Left then [Slot(i, ListReplace(v, w))] else []
       case ListDelete(_) => if i == j then [] else [Slot(i, n)]
       case _ => [Slot(i, n)])
    case ListMove(u) =>
      (match n
       case ListInsert(_) => [Slot(InsertionIndex(i, j, u), n)]
       case ListMove(t) =>
         if i != j then [Slot(MoveSourceIndex(i, j, u), ListMove(ShiftMoveTarget(i, t, j, u, side)))]
         else if t == u || side == Right then [] else [Slot(u, ListMove(t))]
       case _ => [Slot(MovedIndex(i, j, u), n)])
  }

  lemma {:induction false} TransformAtSlots(i: nat, n: Operator, j: nat, b: Operator, side: Side)
    requires IsListOp(n) && IsListOp(b)
    requires !IsEquivalentToNoop(Slot(i, n)) && !IsEquivalentToNoop(Slot(j, b))
    ensures TransformComponent(Slot(i, n), Slot(j, b), side) == Ok(Rebased(i, n, j, b, side))
  {
    SingleSteps(i, j);
    SingleSteps(j, i);
  }

  // ---- The pairs ----------------------------------------------------------------------------------------

  /** Both elements are in, and at one index left's comes first. */
  lemma {:induction false} InsertWithInsert(items: seq<Value>, i: nat, v: Value, j: nat, w: Value)
    requires i <= |items| && j <= |items|
    ensures var n, b := ListInsert(v), ListInsert(w);
      Agree(items, Slot(i, n), Slot(j, b), Rebased(i, n, j, b, Left), Rebased(j, b, i, n, Right))
    ensures var n, b := ListInsert(v), ListInsert(w);
      i == j ==>
        PerformAll(Perform(items, Slot(i, n)), Rebased(j, b, i, n, Right)) == items[..i] + [v, w] + items[i..]
  {
    if i <= j { InsertInsert(items, i, v, j, w); } else { InsertInsert(items, j, w, i, v); }
  }

  lemma {:induction false} DeleteWithInsert(items: seq<Value>, i: nat, j: nat, w: Value, s: Side, t: Side)
    requires i < |items| && j <= |items|
    ensures var n, b := ListDelete(items[i]), ListInsert(w);
      Agree(items, Slot(i, n), Slot(j, b), Rebased(i, n, j, b, s), Rebased(j, b, i, n, t))
  {
    InsertRemove(items, j, w, i);
  }

  lemma {:induction false} DeleteWithDelete(items: seq<Value>, i: nat, j: nat)
    requires i < |items| && j < |items|
    ensures var n, b := ListDelete(items[i]), ListDelete(items[j]);
      Agree(items, Slot(i, n), Slot(j, b), Rebased(i, n, j, b, Left), Rebased(j, b, i, n, Right))
  {
    if i < j { RemoveRemove(items, i, j); } else if j < i { RemoveRemove(items, j, i); }
  }

  lemma {:induction false} ReplaceWithInsert(items: seq<Value>, i: nat, v: Value, j: nat, w: Value, s: Side, t: Side)
    requires i < |items| && j <= |items|
    ensures var n, b := ListReplace(v, items[i]), ListInsert(w);
      Agree(items, Slot(i, n), Slot(j, b), Rebased(i, n, j, b, s), Rebased(j, b, i, n, t))
  {
  }

  lemma {:induction false} ReplaceWithDelete(items: seq<Value>, i: nat, v: Value, j: nat, s: Side, t: Side)
    requires i < |items| && j < |items|
    ensures var n, b := ListReplace(v, items[i]), ListDelete(items[j]);
      Agree(items, Slot(i, n), Slot(j, b), Rebased(i, n, j, b, s), Rebased(j, b, i, n, t))
  {
  }

  /** Both values are in, and at one index left's stays. */
  lemma {:induction false} ReplaceWithReplace(items: seq<Value>, i: nat, v: Value, j: nat, w: Value)
    requires i < |items| && j < |items|
    ensures var n, b := ListReplace(v, items[i]), ListReplace(w, items[j]);
      Agree(items, Slot(i, n), Slot(j, b), Rebased(i, n, j, b, Left), Rebased(j, b, i, n, Right))
    ensures var n, b := ListReplace(v, items[i]), ListReplace(w, items[j]);
      PerformAll(Perform(items, Slot(j, b)), Rebased(i, n, j, b, Left)) == items[j := w][i := v]
  {
  }

  /** After a move, position `k` holds what it held before or its shifted index says so. */
  lemma {:induction false} MovedIndexIsWhereItWent(i: nat, from: nat, to: nat, k: int)
    ensures MovedFrom(from, to, MovedIndex(i, from, to)) == i && MovedIndex(i, from, to) >= 0
    ensures MovedFrom(from, to, k) == i ==> k == MovedIndex(i, from, to)
  {
  }

  lemma {:induction false} MoveWithReplace(items: seq<Value>, i: nat, t: nat, j: nat, w: Value, s: Side, o: Side)
    requires i < |items| && t < |items| && j < |items|
    ensures var n, b := ListMove(t), ListReplace(w, items[j]);
      Agree(items, Slot(i, n), Slot(j, b), Rebased(i, n, j, b, s), Rebased(j, b, i, n, o))
  {
    var d := MovedIndex(j, i, t);
    MovedIndexIsWhereItWent(j, i, t, 0);
    var x, y := MoveAt(items, i, t)[d := w], MoveAt(items[j := w], i, t);
    MovedElement(items, i, t, d);
    forall k | 0 <= k < |items|
      ensures x[k] == y[k]
    {
      MovedElement(items, i, t, k);
      MovedElement(items[j := w], i, t, k);
      MovedIndexIsWhereItWent(j, i, t, k);
    }
    assert x == y;
  }

  lemma {:induction false} MoveInsertIndexes(f: nat, t: nat, j: nat, n: nat, k: int)
    requires f < n && t < n && j <= n && 0 <= k <= n
    ensures var p, f2, t2 := InsertionIndex(j, f, t), InsertedIndex(f, j), InsertedIndex(t, j);
      && 0 <= p <= n && 0 <= f2 <= n && 0 <= t2 <= n
      && var x, y := MovedFrom(f, t, if k < p then k else k - 1), MovedFrom(f2, t2, k);
         if k == p then y == j else y == if x < j then x else x + 1
  {
  }

  lemma {:induction false} MoveThenInsertAt(items: seq<Value>, i: nat, t: nat, j: nat, w: Value, k: nat)
    requires i < |items| && t < |items| && j <= |items| && k <= |items|
    ensures var p, i2, t2 := InsertionIndex(j, i, t), InsertedIndex(i, j), InsertedIndex(t, j);
      && 0 <= p <= |items| && 0 <= i2 <= |items| && 0 <= t2 <= |items|
      && InsertAt(MoveAt(items, i, t), p, w)[k] == MoveAt(InsertAt(items, j, w), i2, t2)[k]
  {
    var p, i2, t2 := InsertionIndex(j, i, t), InsertedIndex(i, j), InsertedIndex(t, j);
    MoveInsertIndexes(i, t, j, |items|, k);
    MovedElement(InsertAt(items, j, w), i2, t2, k);
    InsertedElement(items, j, w, MovedFrom(i2, t2, k));
    InsertedElement(MoveAt(items, i, t), p, w, k);
    if k != p {
      MovedElement(items, i, t, if k < p then k else k - 1);
    }
  }

  lemma {:induction false} MoveThenInsert(items: seq<Value>, i: nat, t: nat, j: nat, w: Value, p: int, i2: int, t2: int)
    requires i < |items| && t < |items| && j <= |items|
    requires p == InsertionIndex(j, i, t) && i2 == InsertedIndex(i, j) && t2 == InsertedIndex(t, j)
    ensures 0 <= p <= |items| && 0 <= i2 <= |items| && 0 <= t2 <= |items|
    ensures InsertAt(MoveAt(items, i, t), p, w) == MoveAt(InsertAt(items, j, w), i2, t2)
  {
    MoveInsertIndexes(i, t, j, |items|, 0);
    var x, y := InsertAt(MoveAt(items, i, t), p, w), MoveAt(InsertAt(items, j, w), i2, t2);
    forall k | 0 <= k <= |items|
      ensures x[k] == y[k]
    {
      MoveThenInsertAt(items, i, t, j, w, k);
    }
  }

  lemma {:induction false} MoveWithInsert(items: seq<Value>, i: nat, t: nat, j: nat, w: Value, s: Side, o: Side)
    requires i < |items| && t < |items| && j <= |items|
    ensures var n, b := ListMove(t), ListInsert(w);
      Agree(items, Slot(i, n), Slot(j, b), Rebased(i, n, j, b, s), Rebased(j, b, i, n, o))
  {
    MoveThenInsert(items, i, t, j, w, InsertionIndex(j, i, t), InsertedIndex(i, j), InsertedIndex(t, j));
  }

  lemma {:induction false} MoveDeleteIndexes(f: nat, t: nat, d: nat, n: nat, k: int)
    requires f < n && t < n && d < n && f != d && 0 <= k < n - 1
    ensures var d2, f2, t2 := MovedIndex(d, f, t), DeletedIndex(f, d), DeletedTarget(f, t, d);
      && 0 <= d2 < n && 0 <= f2 < n - 1 && 0 <= t2 < n - 1
      && var x := MovedFrom(f2, t2, k); MovedFrom(f, t, if k < d2 then k else k + 1) == if x < d then x else x + 1
  {
  }

  lemma {:induction false} MoveThenDelete(items: seq<Value>, i: nat, t: nat, j: nat, d2: int, i2: int, t2: int)
    requires i < |items| && t < |items| && j < |items| && i != j
    requires d2 == MovedIndex(j, i, t) && i2 == DeletedIndex(i, j) && t2 == DeletedTarget(i, t, j)
    ensures 0 <= d2 < |items| && 0 <= i2 < |items| - 1 && 0 <= t2 < |items| - 1
    ensures RemoveAt(MoveAt(items, i, t), d2) == MoveAt(RemoveAt(items, j), i2, t2)
  {
    MoveDeleteIndexes(i, t, j, |items|, 0);
    var moved, removed := MoveAt(items, i, t), RemoveAt(items, j);
    var x, y := RemoveAt(moved, d2), MoveAt(removed, i2, t2);
    forall k | 0 <= k < |items| - 1
      ensures x[k] == y[k]
    {
      MoveDeleteIndexes(i, t, j, |items|, k);
      RemovedElement(moved, d2, k);
      MovedElement(items, i, t, if k < d2 then k else k + 1);
      MovedElement(removed, i2, t2, k);
      RemovedElement(items, j, MovedFrom(i2, t2, k));
    }
  }

  lemma {:induction false} MovedAway(items: seq<Value>, i: nat, t: nat)
    requires i < |items| && t < |items|
    ensures RemoveAt(MoveAt(items, i, t), t) == RemoveAt(items, i) && MoveAt(items, i, t)[t] == items[i]
  {
  }

  lemma {:induction false} MoveWithItsDelete(items: seq<Value>, i: nat, t: nat, s: Side, o: Side)
    requires i < |items| && t < |items|
    ensures var n, b := ListMove(t), ListDelete(items[i]);
      Agree(items, Slot(i, n), Slot(i, b), Rebased(i, n, i, b, s), Rebased(i, b, i, n, o))
  {
    MovedAway(items, i, t);
  }

  lemma {:induction false} MoveDeleteAgree(items: seq<Value>, i: nat, t: nat, j: nat, d2: nat, i2: nat, t2: nat)
    requires i < |items| && t < |items| && j < |items| && d2 < |items| && i2 < |items| - 1 && t2 < |items| - 1
    requires RemoveAt(MoveAt(items, i, t), d2) == MoveAt(RemoveAt(items, j), i2, t2)
    requires MoveAt(items, i, t)[d2] == items[j]
    ensures Agree(items, Slot(i, ListMove(t)), Slot(j, ListDelete(items[j])),
                  [Slot(i2, ListMove(t2))], [Slot(d2, ListDelete(items[j]))])
  {
  }

  lemma {:induction false} MoveWithDelete(items: seq<Value>, i: nat, t: nat, j: nat, s: Side, o: Side)
    requires i < |items| && t < |items| && j < |items| && i != j
    ensures var n, b := ListMove(t), ListDelete(items[j]);
      Agree(items, Slot(i, n), Slot(j, b), Rebased(i, n, j, b, s), Rebased(j, b, i, n, o))
  {
    var d2, i2, t2 := MovedIndex(j, i, t), DeletedIndex(i, j), DeletedTarget(i, t, j);
    MoveThenDelete(items, i, t, j, d2, i2, t2);
    MovedIndexIsWhereItWent(j, i, t, 0);
    MovedElement(items, i, t, d2);
    MoveDeleteAgree(items, i, t, j, d2, i2, t2);
  }

  predicate SameOrigin(f: int, t: int, g: int, u: int, k: int) {
    var f2, t2 := MoveSourceIndex(f, g, u), ShiftMoveTarget(f, t, g, u, Left);
    var g2, u2 := MoveSourceIndex(g, f, t), ShiftMoveTarget(g, u, f, t, Right);
    MovedFrom(f, t, MovedFrom(g2, u2, k)) == MovedFrom(g, u, MovedFrom(f2, t2, k))
  }

  lemma {:induction false} MoveMoveBounds(f: nat, t: nat, g: nat, u: nat, n: nat)
    requires f < n && t < n && g < n && u < n && f != t && g != u && f != g
    ensures 0 <= MoveSourceIndex(f, g, u) < n && 0 <= ShiftMoveTarget(f, t, g, u, Left) < n
    ensures 0 <= MoveSourceIndex(g, f, t) < n && 0 <= ShiftMoveTarget(g, u, f, t, Right) < n
  {
  }

  lemma {:induction false} BothForward(f: nat, t: nat, g: nat, u: nat, k: nat)
    requires f < t && g < u && f != g
    ensures SameOrigin(f, t, g, u, k)
  {
  }

  lemma {:induction false} BothBackward(f: nat, t: nat, g: nat, u: nat, k: nat)
    requires t < f && u < g && f != g
    ensures SameOrigin(f, t, g, u, k)
  {
  }

  lemma {:induction false} ForwardAndBackward(f: nat, t: nat, g: nat, u: nat, k: nat)
    requires f < t && u < g && f != g
    ensures SameOrigin(f, t, g, u, k)
  {
  }

  lemma {:induction false} BackwardAndForward(f: nat, t: nat, g: nat, u: nat, k: nat)
    requires t < f && g < u && f != g
    ensures SameOrigin(f, t, g, u, k)
  {
  }

  lemma {:induction false} MoveThenMove(items: seq<Value>, f: nat, t: nat, g: nat, u: nat, f2: int, t2: int, g2: int,
      u2: int)
    requires f < |items| && t < |items| && g < |items| && u < |items| && f != t && g != u && f != g
    requires f2 == MoveSourceIndex(f, g, u) && t2 == ShiftMoveTarget(f, t, g, u, Left)
    requires g2 == MoveSourceIndex(g, f, t) && u2 == ShiftMoveTarget(g, u, f, t, Right)
    ensures 0 <= f2 < |items| && 0 <= t2 < |items| && 0 <= g2 < |items| && 0 <= u2 < |items|
    ensures MoveAt(MoveAt(items, f, t), g2, u2) == MoveAt(MoveAt(items, g, u), f2, t2)
  {
    MoveMoveBounds(f, t, g, u, |items|);
    forall k | 0 <= k < |items|
      ensures MovedFrom(f, t, MovedFrom(g2, u2, k)) == MovedFrom(g, u, MovedFrom(f2, t2, k))
    {
      if f < t && g < u { BothForward(f, t, g, u, k); }
      else if f < t { ForwardAndBackward(f, t, g, u, k); }
      else if g < u { BackwardAndForward(f, t, g, u, k); }
      else { BothBackward(f, t, g, u, k); }
      assert SameOrigin(f, t, g, u, k);
    }
    MoveMove(items, f, t, g, u, f2, t2, g2, u2);
  }

  lemma {:induction false} MoveMoveAgree(items: seq<Value>, f: nat, t: nat, g: nat, u: nat, f2: nat, t2: nat, g2: nat,
      u2: nat)
    requires f < |items| && t < |items| && g < |items| && u < |items|
    requires f2 < |items| && t2 < |items| && g2 < |items| && u2 < |items|
    requires MoveAt(MoveAt(items, f, t), g2, u2) == MoveAt(MoveAt(items, g, u), f2, t2)
    ensures Agree(items, Slot(f, ListMove(t)), Slot(g, ListMove(u)), [Slot(f2, ListMove(t2))], [Slot(g2, ListMove(u2))])
  {
  }

  /** Two moves of one element: it ends where left moves it. */
  lemma {:induction false} MovesOfOne(items: seq<Value>, f: nat, t: nat, u: nat)
    requires f < |items| && t < |items| && u < |items| && f != t && f != u
    ensures var n, b := ListMove(t), ListMove(u);
      Agree(items, Slot(f, n), Slot(f, b), Rebased(f, n, f, b, Left), Rebased(f, b, f, n, Right))
    ensures var n, b := ListMove(t), ListMove(u);
      PerformAll(Perform(items, Slot(f, b)), Rebased(f, n, f, b, Left)) == MoveAt(items, f, t)
  {
    MovedAway(items, f, u);
  }

  /** Moves past the same side of one target. */
  predicate SameWay(f: int, t: int, g: int, u: int) {
    t == u && ((f < t && g < t) || (t < f && t < g))
  }

  /** The tie-break: when both move to one target from the same side, and only then, the right move is shifted one
      further than it would be as the left one. */
  lemma {:induction false} TieBreak(f: int, t: int, g: int, u: int)
    ensures ShiftMoveTarget(f, t, g, u, Right)
      == ShiftMoveTarget(f, t, g, u, Left) + if SameWay(f, t, g, u) then 1 else 0
  {
  }

  lemma {:induction false} SideBySideIndexes(f: nat, t: nat, g: nat)
    requires f != g && SameWay(f, t, g, t)
    ensures var p := if f < t then t - 1 else t;
      ShiftMoveTarget(f, t, g, t, Left) == p && ShiftMoveTarget(g, t, f, t, Right) == p + 1
    ensures MovedFrom(f, t, MoveSourceIndex(g, f, t)) == g && MovedFrom(g, t, MoveSourceIndex(f, g, t)) == f
  {
  }

  /** So the two moved elements end side by side, left's first. */
  lemma {:induction false} MovesSideBySide(items: seq<Value>, f: nat, t: nat, g: nat)
    requires f < |items| && t < |items| && g < |items| && f != g && SameWay(f, t, g, t)
    ensures var n, b, p := ListMove(t), ListMove(t), if f < t then t - 1 else t;
      && AllFit(Perform(items, Slot(f, n)), Rebased(g, b, f, n, Right))
      && var both := PerformAll(Perform(items, Slot(f, n)), Rebased(g, b, f, n, Right));
         p + 1 < |both| && both[p] == items[f] && both[p + 1] == items[g]
  {
    var f2, t2 := MoveSourceIndex(f, g, t), ShiftMoveTarget(f, t, g, t, Left);
    var g2, u2 := MoveSourceIndex(g, f, t), ShiftMoveTarget(g, t, f, t, Right);
    SideBySideIndexes(f, t, g);
    MoveThenMove(items, f, t, g, t, f2, t2, g2, u2);
    MoveMoveAgree(items, f, t, g, t, f2, t2, g2, u2);
    MovedAway(MoveAt(items, f, t), g2, u2);
    MovedAway(MoveAt(items, g, t), f2, t2);
    MovedElement(items, f, t, g2);
    MovedElement(items, g, t, f2);
  }

  lemma {:induction false} MoveWithMove(items: seq<Value>, f: nat, t: nat, g: nat, u: nat)
    requires f < |items| && t < |items| && g < |items| && u < |items| && f != t && g != u
    ensures var n, b := ListMove(t), ListMove(u);
      Agree(items, Slot(f, n), Slot(g, b), Rebased(f, n, g, b, Left), Rebased(g, b, f, n, Right))
  {
    if f == g {
      MovesOfOne(items, f, t, u);
    } else {
      var f2, t2 := MoveSourceIndex(f, g, u), ShiftMoveTarget(f, t, g, u, Left);
      var g2, u2 := MoveSourceIndex(g, f, t), ShiftMoveTarget(g, u, f, t, Right);
      MoveThenMove(items, f, t, g, u, f2, t2, g2, u2);
      MoveMoveAgree(items, f, t, g, u, f2, t2, g2, u2);
    }
  }

  /** Every pair of list components that fit an array and change something agrees in both orders. */
  lemma {:induction false} PairAgrees(items: seq<Value>, i: nat, n: Operator, j: nat, b: Operator)
    requires FitsSlot(items, Slot(i, n)) && FitsSlot(items, Slot(j, b))
    requires !IsEquivalentToNoop(Slot(i, n)) && !IsEquivalentToNoop(Slot(j, b))
    ensures Agree(items, Slot(i, n), Slot(j, b), Rebased(i, n, j, b, Left), Rebased(j, b, i, n, Right))
  {
    match (n, b)
    case (ListInsert(v), ListInsert(w)) => InsertWithInsert(items, i, v, j, w);
    case (ListInsert(v), ListDelete(_)) => DeleteWithInsert(items, j, i, v, Right, Left);
    case (ListInsert(v), ListReplace(w, _)) => ReplaceWithInsert(items, j, w, i, v, Right, Left);
    case (ListInsert(v), ListMove(u)) => MoveWithInsert(items, j, u, i, v, Right, Left);
    case (ListDelete(_), ListInsert(w)) => DeleteWithInsert(items, i, j, w, Left, Right);
    case (ListDelete(_), ListDelete(_)) => DeleteWithDelete(items, i, j);
    case (ListDelete(_), ListReplace(w, _)) => ReplaceWithDelete(items, j, w, i, Right, Left);
    case (ListDelete(_), ListMove(u)) =>
      if i == j { MoveWithItsDelete(items, j, u, Right, Left); } else { MoveWithDelete(items, j, u, i, Right, Left); }
    case (ListReplace(v, _), ListInsert(w)) => ReplaceWithInsert(items, i, v, j, w, Left, Right);
    case (ListReplace(v, _), ListDelete(_)) => ReplaceWithDelete(items, i, v, j, Left, Right);
    case (ListReplace(v, _), ListReplace(w, _)) => ReplaceWithReplace(items, i, v, j, w);
    case (ListReplace(v, _), ListMove(u)) => MoveWithReplace(items, j, u, i, v, Right, Left);
    case (ListMove(t), ListInsert(w)) => MoveWithInsert(items, i, t, j, w, Left, Right);
    case (ListMove(t), ListDelete(_)) =>
      if i == j { MoveWithItsDelete(items, i, t, Left, Right); } else { MoveWithDelete(items, i, t, j, Left, Right); }
    case (ListMove(t), ListReplace(w, _)) => MoveWithReplace(items, i, t, j, w, Left, Right);
    case (ListMove(t), ListMove(u)) => MoveWithMove(items, i, t, j, u);
  }
}
