/** Moves whose target is past the end of their list: the code accepts them and appends, but does not transform them
    as the moves to the last position that they are. */
module Clamping {
  import opened Json
  import opened Operators
  import opened Sequences
  import opened Apply
  import opened Transform
  import opened Validity
  import opened ListConvergence
  import opened BothOrders
  import TreeConvergence
  import Tracking

  /** A move to a target past the end of its list, which the code accepts. */
  predicate PastTheEnd(v: Value, c: Component) {
    && c.path != [] && c.operator.ListMove? && Resolves(v, Parent(c.path)) && At(v, Parent(c.path)).Arr?
    && Last(c.path).key == "" && 0 <= Last(c.path).index < |At(v, Parent(c.path)).items| <= c.operator.newIndex
  }

  /** The same move to the last position. */
  function Clamped(v: Value, c: Component): Component {
    if PastTheEnd(v, c) then c.(operator := ListMove(|At(v, Parent(c.path)).items| - 1)) else c
  }

  lemma {:induction false} FitsAtParent(v: Value, c: Component)
    requires c.path != [] && Resolves(v, Parent(c.path)) && At(v, Parent(c.path)).Arr?
    requires FitsContainer(At(v, Parent(c.path)), Last(c.path), c.operator)
    ensures Fits(v, c)
    decreases |c.path|
  {
    if |c.path| > 1 {
      var d := Component(c.path[1..], c.operator);
      assert Parent(c.path)[1..] == Parent(d.path) && Parent(c.path)[0] == c.path[0];
      FitsAtParent(Child(v, c.path[0]), d);
    }
  }

  /** Moving past the end is moving to the last position, which is valid. */
  lemma {:induction false} ClampedDoesTheSame(v: Value, c: Component)
    requires PastTheEnd(v, c)
    ensures Fits(v, Clamped(v, c)) && ApplyOne(v, Clamped(v, c)) == ApplyOne(v, c)
  {
    var p, e, d := Parent(c.path), Last(c.path), Clamped(v, c);
    var items := At(v, p).items;
    assert c.path == p + [e];
    FitsAtParent(v, d);
    Tracking.Locality(v, p, [e], c.operator);
    Tracking.Locality(v, p, [e], d.operator);
    var rest := RemoveAt(items, e.index);
    if 0 < e.index {
      assert e.index == |items| - 1 ==> rest + [items[e.index]] == items;
      assert InsertAt(rest, |rest|, items[e.index]) == rest + [items[e.index]];
    }
  }

  /** Once moves past the end are clamped, components converge exactly when no edit is lost that shows. */
  lemma {:induction false} ClampingConverges(v: Value, l: Component, r: Component)
    requires Effective(v, Clamped(v, l)) && Effective(v, Clamped(v, r))
    ensures ApplyOne(v, Clamped(v, l)) == ApplyOne(v, l) && ApplyOne(v, Clamped(v, r)) == ApplyOne(v, r)
    ensures var a, b := Clamped(v, l), Clamped(v, r);
      Converges(v, a, b) <==> !(TreeConvergence.EditLost(a, b) && TreeConvergence.LossShowsIn(v, a, b))
  {
    if PastTheEnd(v, l) {
      ClampedDoesTheSame(v, l);
    }
    if PastTheEnd(v, r) {
      ClampedDoesTheSame(v, r);
    }
    TreeConvergence.Convergence(v, Clamped(v, l), Clamped(v, r));
  }

  /** A list without two of its elements. */
  function Without(items: seq<Value>, i: nat, j: nat): seq<Value>
    requires i < |items| && j < |items| && i != j
  {
    RemoveAt(RemoveAt(items, i), if i < j then j - 1 else j)
  }

  lemma {:induction false} MovedToTheEnd(items: seq<Value>, i: nat, t: nat)
    requires 0 < i < |items| && t >= |items| - 1 && i != t
    ensures ApplyOne(Arr(items), Slot(i, ListMove(t))) == Ok(Arr(RemoveAt(items, i) + [items[i]]))
  {
    var rest := RemoveAt(items, i);
    assert InsertAt(rest, |rest|, items[i]) == rest + [items[i]];
  }

  lemma {:induction false} BothMovedToTheEnd(items: seq<Value>, i: nat, j: nat, t: nat, u: nat)
    requires 0 < i < |items| && 0 < j < |items| && i != j && t >= |items| && u >= |items| - 1
    ensures var w, k := RemoveAt(items, i) + [items[i]], if i < j then j - 1 else j;
      && ApplyOne(Arr(items), Slot(i, ListMove(t))) == Ok(Arr(w))
      && (k > 0 ==>
            ApplyOne(Arr(w), Slot(k, ListMove(u))) == Ok(Arr(Without(items, i, j) + [items[i], items[j]])))
  {
    var rest, k := RemoveAt(items, i), if i < j then j - 1 else j;
    var w := rest + [items[i]];
    RemovedElement(items, i, k);
    MovedToTheEnd(items, i, t);
    if k > 0 {
      MovedToTheEnd(w, k, u);
      assert RemoveAt(w, k) + [w[k]] == Without(items, i, j) + [items[i], items[j]];
    }
  }

  lemma {:induction false} WithoutBoth(items: seq<Value>, i: nat, j: nat)
    requires i < |items| && j < |items| && i != j
    ensures Without(items, i, j) == Without(items, j, i) && |Without(items, i, j)| == |items| - 2
  {
    if i < j { RemoveRemove(items, i, j); } else { RemoveRemove(items, j, i); }
  }

  lemma {:induction false} EndTargets(f: nat, t: nat, g: nat, u: nat, n: nat, side: Side)
    requires 0 < f < n && 0 < g < n && f != g && t >= n && u >= n
    ensures Rebased(f, ListMove(t), g, ListMove(u), side)
      == [Slot(if g < f then f - 1 else f, ListMove(ShiftMoveTarget(f, t, g, u, side)))]
    ensures ShiftMoveTarget(f, t, g, u, side) >= n - 1
  {
  }

  /** Two moves of different elements past the end are not told apart by the tie-break: each side has the other's
      element last, so they converge exactly when the elements are equal. */
  lemma {:induction false} MovesPastTheEndDiverge(items: seq<Value>, f: nat, t: nat, g: nat, u: nat)
    requires 0 < f < |items| && 0 < g < |items| && f != g && t >= |items| && u >= |items|
    ensures var l, r := Slot(f, ListMove(t)), Slot(g, ListMove(u));
      && PastTheEnd(Arr(items), l) && PastTheEnd(Arr(items), r)
      && Then(Arr(items), l, TransformComponent(r, l, Right)) == Ok(Arr(Without(items, f, g) + [items[f], items[g]]))
      && Then(Arr(items), r, TransformComponent(l, r, Left)) == Ok(Arr(Without(items, f, g) + [items[g], items[f]]))
      && (Converges(Arr(items), l, r) <==> items[f] == items[g])
  {
    var l, r, n := Slot(f, ListMove(t)), Slot(g, ListMove(u)), |items|;
    TransformAtSlots(f, l.operator, g, r.operator, Left);
    TransformAtSlots(g, r.operator, f, l.operator, Right);
    EndTargets(f, t, g, u, n, Left);
    EndTargets(g, u, f, t, n, Right);
    BothMovedToTheEnd(items, f, g, t, ShiftMoveTarget(g, u, f, t, Right));
    BothMovedToTheEnd(items, g, f, u, ShiftMoveTarget(f, t, g, u, Left));
    ThenApplied(Arr(items), l, Rebased(g, r.operator, f, l.operator, Right)[0]);
    ThenApplied(Arr(items), r, Rebased(f, l.operator, g, r.operator, Left)[0]);
    WithoutBoth(items, f, g);
    var x, y := Without(items, f, g) + [items[f], items[g]], Without(items, f, g) + [items[g], items[f]];
    assert x[n - 1] == items[g] && y[n - 1] == items[f];
  }
}
