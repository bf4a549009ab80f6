/** Applying below a path acts on the subtree there and nowhere else. */
module Routing {
  import opened Json
  import opened Operators
  import opened Apply

  predicate IsContainer(v: Value) {
    v.Arr? || v.Obj?
  }

  function MapOk(r: Result<Value>, v: Value, e: PathElement): Result<Value>
    requires HasChild(v, e)
  {
    match r
    case Ok(c) => Ok(PutChild(v, e, c))
    case Err(x) => Err(x)
  }

  lemma {:induction false} RouteGetPeels(v: Value, p: Path, d: Value)
    requires |p| >= 2 && HasChild(v, p[0]) && IsContainer(Child(v, p[0]))
    ensures RouteGet(v, p, d) == RouteGet(Child(v, p[0]), p[1..], d)
  {
  }

  lemma {:induction false} RouteSetPeels(v: Value, p: Path, c: Value)
    requires |p| >= 2 && HasChild(v, p[0])
    ensures RouteSet(v, p, c) == MapOk(RouteSet(Child(v, p[0]), p[1..], c), v, p[0])
  {
  }

  lemma {:induction false} PeelOne(v: Value, e: PathElement, f: PathElement, op: Operator)
    requires HasChild(v, e) && IsContainer(Child(v, e))
    ensures ApplyToValue(v, [e, f], op) == MapOk(ApplyToContainer(Child(v, e), f, op), v, e)
  {
    var d, left := DefaultFor(op), [e];
    assert [e, f][..1] == left;
    assert RouteGet(v, left, d) == Some(Child(v, e));
    var changed := ApplyToContainer(Child(v, e), f, op);
    if changed.Ok? {
      assert RouteSet(v, left, changed.value) == Ok(PutChild(v, e, changed.value));
    }
  }

  /** Applying one step further down changes that child as applying to the child does. */
  lemma {:induction false} Peel(v: Value, p: Path, op: Operator)
    requires |p| >= 2 && HasChild(v, p[0]) && IsContainer(Child(v, p[0]))
    ensures ApplyToValue(v, p, op) == MapOk(ApplyToValue(Child(v, p[0]), p[1..], op), v, p[0])
  {
    if |p| == 2 {
      assert p == [p[0], p[1]];
      PeelOne(v, p[0], p[1], op);
    } else {
      var n, c, d := |p|, Child(v, p[0]), DefaultFor(op);
      var left := p[..n - 1];
      assert left[1..] == p[1..][..n - 2] && p[1..][n - 2] == p[n - 1];
      RouteGetPeels(v, left, d);
      var container := RouteGet(c, left[1..], d);
      if container.Some? {
        var changed := ApplyToContainer(container.value, p[n - 1], op);
        if changed.Ok? {
          RouteSetPeels(v, left, changed.value);
        }
      }
    }
  }

  /** Applying to a container gives a container of the same kind. */
  lemma {:induction false} KindKept(v: Value, p: Path, op: Operator)
    requires IsContainer(v) && ApplyToValue(v, p, op).Ok?
    ensures var w := ApplyToValue(v, p, op).value; (v.Arr? ==> w.Arr?) && (v.Obj? ==> w.Obj?)
  {
  }
}
