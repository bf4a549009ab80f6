/** Where a change reaches, what a transformed path reads, and what a recorded old value becomes. */
module Tracking {
  import opened Json
  import opened Operators
  import opened Sequences
  import opened Apply
  import opened Transform
  import opened Validity
  import opened Routing
  import opened ListConvergence
  import opened BothOrders
  import opened Nested
  import opened TreeConvergence
  import opened Rebase

  /** Applying at p followed by q changes the subtree at p as applying at q does, and nothing else. */
  lemma {:induction false} Locality(v: Value, p: Path, q: Path, op: Operator)
    requires Resolves(v, p) && IsContainer(At(v, p)) && q != []
    ensures ApplyToValue(v, p + q, op) ==
      match ApplyToValue(At(v, p), q, op) { case Ok(c) => Ok(PutAt(v, p, c)) case Err(e) => Err(e) }
    decreases |p|
  {
    if p == [] {
      assert p + q == q;
    } else {
      assert (p + q)[0] == p[0] && (p + q)[1..] == p[1..] + q;
      Locality(Child(v, p[0]), p[1..], q, op);
      assert IsContainer(Child(v, p[0]));
      Peel(v, p + q, op);
    }
  }

  /** Writing at one path leaves every path that branches off from it as it was. */
  lemma {:induction false} PutElsewhere(v: Value, p: Path, c: Value, q: Path)
    requires Resolves(v, p) && Resolves(v, q)
    requires CommonLen(p, q) < |p| && CommonLen(p, q) < |q|
    ensures Resolves(PutAt(v, p, c), q) && At(PutAt(v, p, c), q) == At(v, q)
    decreases |p|
  {
    var d, e := p[0], q[0];
    if d == e {
      var w := PutAt(Child(v, d), p[1..], c);
      PutElsewhere(Child(v, d), p[1..], c, q[1..]);
      PutChildTwice(v, d, w, w);
    } else {
      DifferentSlotsCommute(v, d, PutAt(Child(v, d), p[1..], c), e, Child(v, e));
    }
  }

  lemma {:induction false} ReadUnder(v: Value, e: PathElement, w: Value, p: Path)
    requires HasChild(v, e)
    ensures Resolves(PutChild(v, e, w), [e] + p) <==> Resolves(w, p)
    ensures Resolves(w, p) ==> At(PutChild(v, e, w), [e] + p) == At(w, p)
  {
    PutChildTwice(v, e, w, w);
    assert ([e] + p)[1..] == p;
  }

  // ---- Absorption ---------------------------------------------------------------------------------------

  predicate AbsorbsTo(v: Value, l: Component, r: Component, side: Side) {
    && RecordsOld(l.operator)
    && Resolves(After(v, r), l.path)
    && TransformComponent(l, r, side) == Ok([l.(operator := l.operator.(oldValue := At(After(v, r), l.path)))])
  }

  lemma {:induction false} AbsorbsHere(v: Value, l: Component, r: Component, side: Side)
    requires Fits(v, l) && !IsEquivalentToNoop(l) && RecordsOld(l.operator)
    requires Fits(v, r) && !IsEquivalentToNoop(r)
    requires |l.path| == 1 < |r.path| && l.path == [r.path[0]]
    ensures AbsorbsTo(v, l, r, side)
  {
    var e := r.path[0];
    InnerApplies(v, r);
    OuterAgainstInner(v, l, r, side);
    ReadUnder(v, e, InSlot(v, r).value, []);
    assert [e] + [] == l.path;
  }

  lemma {:induction false} AbsorbsUnder(v: Value, e: PathElement, l: Component, r: Component, side: Side)
    requires HasChild(v, e) && Fits(Child(v, e), r) && l.path != [] && r.path != []
    requires AbsorbsTo(Child(v, e), l, r, side)
    ensures AbsorbsTo(v, Under(e, l), Under(e, r), side)
  {
    var w := Child(v, e);
    assert ([e] + r.path)[1..] == r.path;
    InnerApplies(v, Under(e, r));
    FitsApplies(w, r);
    assert After(v, Under(e, r)) == PutChild(v, e, After(w, r));
    ReadUnder(v, e, After(w, r), l.path);
    TransformUnder(e, l, r, side);
    var out := TransformComponent(l, r, side).value;
    assert AllUnder(e, out) == [Under(e, out[0])];
  }

  /** A base component strictly below a recorded old value turns it into the subtree found there afterwards. */
  lemma {:induction false} Absorption(v: Value, l: Component, r: Component, side: Side)
    requires Fits(v, l) && !IsEquivalentToNoop(l) && RecordsOld(l.operator)
    requires Fits(v, r) && !IsEquivalentToNoop(r)
    requires |l.path| < |r.path| && r.path[..|l.path|] == l.path
    ensures AbsorbsTo(v, l, r, side)
    decreases |l.path|
  {
    var e := l.path[0];
    assert e == r.path[0] by { assert r.path[..|l.path|][0] == r.path[0]; }
    if |l.path| == 1 {
      AbsorbsHere(v, l, r, side);
    } else {
      var w, l1, r1 := Child(v, e), Component(l.path[1..], l.operator), Component(r.path[1..], r.operator);
      assert l == Under(e, l1) && r == Under(e, r1);
      assert ([e] + r1.path)[..|l1.path| + 1][1..] == r1.path[..|l1.path|];
      assert l.path[1..] == l1.path;
      NoopUnder(e, l1);
      NoopUnder(e, r1);
      Absorption(w, l1, r1, side);
      AbsorbsUnder(v, e, l1, r1, side);
    }
  }

  // ---- Element tracking ---------------------------------------------------------------------------------

  /** Every place at or below the slot the list component shifts reads the same through the transformed path. */
  predicate ReadsSame(v: Value, p: Path, w: Value, q: Path, from: nat) {
    |p| == |q| && forall m :: from <= m <= |p| && Resolves(v, p[..m]) ==>
      Resolves(w, q[..m]) && At(w, q[..m]) == At(v, p[..m])
  }

  lemma {:induction false} ReadThrough(v: Value, d: PathElement, w: Value, e: PathElement, p: Path)
    requires HasChild(v, d) && HasChild(w, e) && Child(v, d) == Child(w, e)
    ensures ReadsSame(v, [d] + p, w, [e] + p, 1)
  {
    forall m | 1 <= m <= |p| + 1 && Resolves(v, ([d] + p)[..m])
      ensures Resolves(w, ([e] + p)[..m]) && At(w, ([e] + p)[..m]) == At(v, ([d] + p)[..m])
    {
      assert ([d] + p)[..m] == [d] + p[..m - 1] && ([e] + p)[..m] == [e] + p[..m - 1];
      assert ([d] + p[..m - 1])[1..] == p[..m - 1] && ([e] + p[..m - 1])[1..] == p[..m - 1];
    }
  }

  lemma {:induction false} ReadsSameUnder(v: Value, e: PathElement, w: Value, p: Path, q: Path, from: nat)
    requires HasChild(v, e) && from > 0 && ReadsSame(Child(v, e), p, w, q, from)
    ensures ReadsSame(v, [e] + p, PutChild(v, e, w), [e] + q, from + 1)
  {
    forall m | from + 1 <= m <= |p| + 1 && Resolves(v, ([e] + p)[..m])
      ensures Resolves(PutChild(v, e, w), ([e] + q)[..m])
      ensures At(PutChild(v, e, w), ([e] + q)[..m]) == At(v, ([e] + p)[..m])
    {
      assert ([e] + p)[..m] == [e] + p[..m - 1] && ([e] + q)[..m] == [e] + q[..m - 1];
      assert ([e] + p[..m - 1])[1..] == p[..m - 1];
      ReadUnder(v, e, w, q[..m - 1]);
    }
  }

  /** What is left of a component after a concurrent list component above it: nothing when its element is gone, else
      the same operator at a path that reads what the old one did. */
  predicate Follows(v: Value, l: Component, r: Component, side: Side)
    requires r.path != [] && Fits(v, r)
  {
    var out := TransformComponent(l, r, side);
    && out.Ok? && |out.value| <= 1
    && (out.value == [] <==> (r.operator.ListDelete? || r.operator.ListReplace?) && r.path <= l.path)
    && (|out.value| == 1 ==>
          && out.value[0].operator == l.operator
          && ReadsSame(v, l.path, After(v, r), out.value[0].path, |r.path|))
  }

  lemma {:induction false} TrackedReads(v: Value, l: Component, r: Component)
    requires Fits(v, l) && Effective(v, r) && IsListOp(r.operator) && |r.path| == 1 < |l.path|
    requires Tracked(l.path[0].index, r.path[0].index, r.operator).Some?
    ensures var z := Tracked(l.path[0].index, r.path[0].index, r.operator).value;
      ReadsSame(v, l.path, After(v, r), [IndexElem(z)] + l.path[1..], 1)
  {
    var k, y := r.path[0].index, l.path[0].index;
    assert r == Slot(k, r.operator);
    ApplySlot(v.items, r);
    var z := Tracked(y, k, r.operator).value;
    TrackedElement(v.items, y, k, r.operator, Null);
    ReadThrough(v, l.path[0], After(v, r), IndexElem(z), l.path[1..]);
    assert l.path == [l.path[0]] + l.path[1..];
  }

  lemma {:induction false} FollowsHere(v: Value, l: Component, r: Component, side: Side)
    requires Fits(v, l) && !IsEquivalentToNoop(l) && Effective(v, r) && IsListOp(r.operator)
    requires |r.path| == 1 < |l.path|
    ensures Follows(v, l, r, side)
  {
    var k, y := r.path[0].index, l.path[0].index;
    assert r.path == [r.path[0]] && (r.path <= l.path <==> r.path[0] == l.path[0]);
    assert r == Slot(k, r.operator);
    InnerAgainstOuter(v.items, l, k, r.operator, side);
    if Tracked(y, k, r.operator).Some? {
      TrackedReads(v, l, r);
    }
  }

  lemma {:induction false} PrefixesUnder(e: PathElement, p: Path, q: Path)
    ensures [e] + p <= [e] + q <==> p <= q
  {
    if p <= q {
      assert [e] + q == [e] + p + q[|p|..];
    }
    if [e] + p <= [e] + q {
      assert ([e] + p)[1..] == p && ([e] + q)[1..] == q;
      assert ([e] + q)[..|p| + 1][1..] == q[..|p|];
    }
  }

  lemma {:induction false} FollowsUnder(v: Value, e: PathElement, l: Component, r: Component, side: Side)
    requires HasChild(v, e) && l.path != [] && r.path != [] && Fits(Child(v, e), r) && Follows(Child(v, e), l, r, side)
    requires Fits(v, Under(e, r))
    ensures Follows(v, Under(e, l), Under(e, r), side)
  {
    var w, out := Child(v, e), TransformComponent(l, r, side).value;
    assert ([e] + r.path)[1..] == r.path;
    PrefixesUnder(e, r.path, l.path);
    TransformUnder(e, l, r, side);
    FitsApplies(w, r);
    InnerApplies(v, Under(e, r));
    if out != [] {
      ReadsSameUnder(v, e, After(w, r), l.path, out[0].path, |r.path|);
      assert AllUnder(e, out) == [Under(e, out[0])];
    }
  }

  /** After a concurrent list component, what is left of a component beneath one of its elements reads, through its
      new path, what the old path read: the same element and everything in it. */
  lemma {:induction false} ElementTracking(v: Value, l: Component, r: Component, side: Side)
    requires Fits(v, l) && !IsEquivalentToNoop(l) && Effective(v, r) && IsListOp(r.operator)
    requires |r.path| < |l.path| && r.path[..|r.path| - 1] <= l.path
    ensures Follows(v, l, r, side)
    decreases |r.path|
  {
    if |r.path| == 1 {
      FollowsHere(v, l, r, side);
    } else {
      var e := r.path[0];
      var l1, r1 := Component(l.path[1..], l.operator), Component(r.path[1..], r.operator);
      assert e == l.path[0] by { assert r.path[..|r.path| - 1][0] == l.path[0]; }
      assert l == Under(e, l1) && r == Under(e, r1);
      assert r1.path[..|r1.path| - 1] == r.path[..|r.path| - 1][1..] <= l1.path;
      NoopUnder(e, l1);
      NoopUnder(e, r1);
      ElementTracking(Child(v, e), l1, r1, side);
      FollowsUnder(v, e, l1, r1, side);
    }
  }
}
