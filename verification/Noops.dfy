/** Components that change nothing where they are made: the transformation passes them through as they are, so they
    agree with a concurrent component exactly when they find nothing to change after it. */
module Noops {
  import opened Json
  import opened Operators
  import opened Sequences
  import opened Apply
  import opened Transform
  import opened Validity
  import opened Routing
  import opened ListConvergence
  import opened BothOrders
  import Inversion
  import Nested
  import TreeConvergence

  /** A component equivalent to a no-op changes nothing on the document it fits. */
  lemma {:induction false} NoopChangesNothing(v: Value, c: Component)
    requires Fits(v, c) && IsEquivalentToNoop(c)
    ensures ApplyOne(v, c) == Ok(v) && ValidComponent(c)
    decreases |c.path|
  {
    if |c.path| == 1 {
      if v.Arr? {
        assert c == Slot(c.path[0].index, c.operator);
        ApplySlot(v.items, c);
        if c.operator.ListMove? {
          MoveStays(v.items, c.path[0].index, c.operator.newIndex);
        } else {
          assert v.items[c.path[0].index := c.operator.newValue] == v.items;
        }
      } else {
        assert v.fields[c.path[0].key := c.operator.newValue] == v.fields;
      }
    } else {
      var e, d := c.path[0], Component(c.path[1..], c.operator);
      assert c == TreeConvergence.Under(e, d);
      TreeConvergence.NoopUnder(e, d);
      NoopChangesNothing(Child(v, e), d);
      Nested.InnerApplies(v, c);
      Inversion.PutSame(v, e);
    }
  }

  // ---- Where the code's route leads ---------------------------------------------------------------------

  /** The child a step selects as the code routes it: in an array a key selects the first element. */
  function Next(v: Value, e: PathElement): Option<Value> {
    match v
    case Arr(items) => if FirstIndex(e) < |items| then Some(items[FirstIndex(e)]) else None
    case Obj(fields) => if e.key in fields then Some(fields[e.key]) else None
    case _ => None
  }

  /** The container the code's route along a path ends at. */
  function Landing(v: Value, p: Path): Option<Value> {
    if p == [] then (if IsContainer(v) then Some(v) else None)
    else
      match Next(v, p[0])
      case None => None
      case Some(c) => Landing(c, p[1..])
  }

  function WithNext(v: Value, e: PathElement, c: Value): Value
    requires Next(v, e).Some?
  {
    match v
    case Arr(items) => Arr(items[FirstIndex(e) := c])
    case Obj(fields) => Obj(fields[e.key := c])
  }

  function Deeper(r: Result<Value>, v: Value, e: PathElement): Result<Value>
    requires Next(v, e).Some?
  {
    match r
    case Ok(c) => Ok(WithNext(v, e, c))
    case Err(x) => Err(x)
  }

  lemma {:induction false} StepsDown(v: Value, p: Path, op: Operator)
    requires |p| >= 2 && Next(v, p[0]).Some? && IsContainer(Next(v, p[0]).value)
    ensures ApplyToValue(v, p, op) == Deeper(ApplyToValue(Next(v, p[0]).value, p[1..], op), v, p[0])
  {
    var n, c, left := |p|, Next(v, p[0]).value, p[..|p| - 1];
    assert p[1..][n - 2] == p[n - 1];
    if n > 2 {
      assert left[1..] == p[1..][..n - 2];
      assert RouteGet(v, left, DefaultFor(op)) == RouteGet(c, left[1..], DefaultFor(op));
      assert forall x :: RouteSet(v, left, x) == Deeper(RouteSet(c, left[1..], x), v, p[0]);
    }
  }

  lemma {:induction false} WithNextStays(v: Value, e: PathElement, c: Value, x: Value)
    requires Next(v, e) == Some(c)
    ensures WithNext(v, e, x) == v <==> x == c
  {
    match v
    case Arr(items) => assert items[FirstIndex(e) := c] == items && items[FirstIndex(e) := x][FirstIndex(e)] == x;
    case Obj(fields) => assert fields[e.key := c] == fields && fields[e.key := x][e.key] == x;
  }

  lemma {:induction false} DeeperStays(r: Result<Value>, v: Value, e: PathElement, c: Value)
    requires Next(v, e) == Some(c)
    ensures Deeper(r, v, e) == Ok(v) <==> r == Ok(c)
  {
    if r.Ok? {
      WithNextStays(v, e, c, r.value);
    }
  }

  /** A component whose route ends at no container fails, or puts a container there. */
  lemma {:induction false} NothingThere(v: Value, p: Path, op: Operator)
    requires p != [] && Landing(v, p[..|p| - 1]).None?
    ensures ApplyToValue(v, p, op) != Ok(v)
    decreases |p|
  {
    var left := p[..|p| - 1];
    if |p| > 1 {
      var c := Next(v, p[0]);
      if c.Some? && IsContainer(c.value) {
        assert left[1..] == p[1..][..|p| - 2];
        NothingThere(c.value, p[1..], op);
        StepsDown(v, p, op);
        DeeperStays(ApplyToValue(c.value, p[1..], op), v, p[0], c.value);
      } else {
        assert left + [p[|p| - 1]] == p;
        NotReached(v, left, op, p[|p| - 1]);
      }
    }
  }

  lemma {:induction false} NotReachedInArray(items: seq<Value>, left: Path, d: Value, c: Value)
    requires left != [] && IsContainer(c) && RouteSet(Arr(items), left, c).Ok?
    requires RouteGet(Arr(items), left, d).Some? && FirstIndex(left[0]) < |items|
    requires !IsContainer(items[FirstIndex(left[0])]) && (|left| > 1 || items[FirstIndex(left[0])].Null?)
    ensures RouteSet(Arr(items), left, c) != Ok(Arr(items))
  {
    var i := FirstIndex(left[0]);
    if |left| == 1 {
      assert items[i := c][i] == c;
    }
  }

  lemma {:induction false} NotReachedInObject(fields: map<string, Value>, left: Path, c: Value)
    requires left != [] && RouteSet(Obj(fields), left, c).Ok? && left[0].key !in fields
    ensures RouteSet(Obj(fields), left, c) != Ok(Obj(fields))
  {
    assert left[0].key in RouteSet(Obj(fields), left, c).value.fields;
  }

  lemma {:induction false} NotReached(v: Value, left: Path, op: Operator, last: PathElement)
    requires left != [] && (Next(v, left[0]).Some? ==> !IsContainer(Next(v, left[0]).value))
    ensures ApplyToValue(v, left + [last], op) != Ok(v)
  {
    var p, d := left + [last], DefaultFor(op);
    assert p[..|p| - 1] == left && p[|p| - 1] == last;
    var container := RouteGet(v, left, d);
    if container.Some? {
      var changed := ApplyToContainer(container.value, last, op);
      if changed.Ok? && RouteSet(v, left, changed.value).Ok? {
        match v
        case Arr(items) => NotReachedInArray(items, left, d, changed.value);
        case Obj(fields) => NotReachedInObject(fields, left, changed.value);
      }
    }
  }

  /** At a container the route reaches, nothing changes in the document exactly when nothing changes there. */
  lemma {:induction false} ChangesThere(v: Value, p: Path, op: Operator)
    requires p != [] && Landing(v, p[..|p| - 1]).Some?
    ensures var x := Landing(v, p[..|p| - 1]).value;
      ApplyToValue(v, p, op) == Ok(v) <==> ApplyToContainer(x, p[|p| - 1], op) == Ok(x)
    decreases |p|
  {
    if |p| > 1 {
      var c := Next(v, p[0]).value;
      assert p[..|p| - 1][1..] == p[1..][..|p| - 2] && p[1..][|p| - 2] == p[|p| - 1];
      LandsInContainers(c, p[..|p| - 1][1..]);
      StepsDown(v, p, op);
      ChangesThere(c, p[1..], op);
      DeeperStays(ApplyToValue(c, p[1..], op), v, p[0], c);
    }
  }

  lemma {:induction false} LandsInContainers(v: Value, p: Path)
    requires Landing(v, p).Some?
    ensures IsContainer(v) && IsContainer(Landing(v, p).value)
    decreases |p|
  {
    if p != [] {
      LandsInContainers(Next(v, p[0]).value, p[1..]);
    }
  }

  // ---- What is still there to change --------------------------------------------------------------------

  /** The value occurs exactly once, where a recorded old value is looked up. */
  predicate FoundOnce(items: seq<Value>, v: Value) {
    IsSimple(v) && |Positions(items, v)| == 1
  }

  /** The component finds nothing to change in the container: a move never does; a replacement finds its value at its
      slot or once elsewhere, or a slot the list code does not replace; objects take no list operators, and lists
      ignore object operators. */
  predicate NothingToChange(x: Value, e: PathElement, op: Operator) {
    match op
    case ListMove(_) => x.Arr?
    case ListReplace(v, _) =>
      x.Arr? && var i, items := FirstIndex(e), x.items;
        i == 0 || i >= |items| || items[i] == v || items[i].Null? || FoundOnce(items, v)
    case ObjectReplace(v, _) => x.Arr? || (x.Obj? && e.key in x.fields && x.fields[e.key] == v)
    case _ => false
  }

  lemma {:induction false} PositionsHold(items: seq<Value>, v: Value, k: nat)
    requires k < |Positions(items, v)|
    ensures 0 <= Positions(items, v)[k] < |items| && items[Positions(items, v)[k]] == v
    decreases |items|
  {
    var init := items[..|items| - 1];
    if k < |Positions(init, v)| {
      PositionsHold(init, v, k);
    }
  }

  lemma {:induction false} ChangesInContainer(x: Value, e: PathElement, c: Component)
    requires IsContainer(x) && c.path != [] && Last(c.path) == e && IsEquivalentToNoop(c) && !c.operator.Noop?
    ensures ApplyToContainer(x, e, c.operator) == Ok(x) <==> NothingToChange(x, e, c.operator)
  {
    if c.operator.ListReplace? && x.Arr? {
      var i, items, v := FirstIndex(e), x.items, c.operator.newValue;
      if FoundOnce(items, v) {
        PositionsHold(items, v, 0);
      }
      var j := IndexOf(items, v, i);
      if 0 < j < |items| {
        assert items[j := v] == items <==> items[j] == v by { assert items[j := v][j] == v; }
      }
    } else if c.operator.ObjectReplace? && x.Obj? {
      assert e.key in x.fields && x.fields[e.key] == c.operator.newValue ==>
        x.fields[e.key := c.operator.newValue] == x.fields;
      assert x.fields[e.key := c.operator.newValue][e.key] == c.operator.newValue;
    }
  }

  /** The component's route still ends at a container, and it finds nothing to change there. */
  predicate StaysNoop(w: Value, c: Component)
    requires c.path != []
  {
    var x := Landing(w, Parent(c.path));
    x.Some? && NothingToChange(x.value, Last(c.path), c.operator)
  }

  /** One component that is equivalent to a no-op converges with any other exactly when what the other one left has
      nothing for it to change. */
  lemma {:induction false} NoopConverges(v: Value, l: Component, r: Component)
    requires Fits(v, l) && IsEquivalentToNoop(l) && Fits(v, r)
    ensures TransformComponent(l, r, Left) == Ok([l]) && TransformComponent(r, l, Right) == Ok([r])
    ensures ApplyOne(v, r).Ok?
    ensures Converges(v, l, r) <==> StaysNoop(ApplyOne(v, r).value, l)
  {
    NoopChangesNothing(v, l);
    Nested.FitsApplies(v, r);
    var w, x := ApplyOne(v, r).value, Landing(ApplyOne(v, r).value, Parent(l.path));
    ApplySingle(v, r);
    ApplySingle(w, l);
    NotNoop(v, l);
    if x.None? {
      NothingThere(w, l.path, l.operator);
    } else {
      LandsInContainers(w, Parent(l.path));
      ChangesThere(w, l.path, l.operator);
      ChangesInContainer(x.value, Last(l.path), l);
    }
  }

  lemma {:induction false} NotNoop(v: Value, c: Component)
    requires Fits(v, c)
    ensures !c.operator.Noop?
    decreases |c.path|
  {
    if |c.path| > 1 {
      NotNoop(Child(v, c.path[0]), Component(c.path[1..], c.operator));
    }
  }

  /** At one object, told by paths and operators: the other component is at another key, or adds nothing. */
  lemma {:induction false} NoopAtKey(fields: map<string, Value>, l: Component, r: Component)
    requires |l.path| == |r.path| == 1 && Fits(Obj(fields), l) && IsEquivalentToNoop(l) && Effective(Obj(fields), r)
    ensures Converges(Obj(fields), l, r)
      <==> l.path != r.path || (IsNumberAdd(r.operator) && r.operator.operand.n == 0)
  {
    NoopConverges(Obj(fields), l, r);
    assert l.path == [l.path[0]] && r.path == [r.path[0]];
    assert Parent(l.path) == [];
  }
}
