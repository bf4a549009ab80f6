/** Applying where components do not fit: past the end of an array, below a missing key, at a stale position, at the
    root. */
module Edges {
  import opened Json
  import opened Operators
  import opened Sequences
  import opened Apply
  import opened Routing
  import opened Tracking
  import Algebra

  /** Applying in the container at a path changes that container and nothing else. */
  lemma {:induction false} InContainer(v: Value, p: Path, e: PathElement, op: Operator)
    requires Resolves(v, p) && IsContainer(At(v, p))
    ensures ApplyOne(v, Component(p + [e], op)) ==
      match ApplyToContainer(At(v, p), e, op) { case Ok(c) => Ok(PutAt(v, p, c)) case Err(x) => Err(x) }
  {
    Locality(v, p, [e], op);
    assert ApplyToValue(At(v, p), [e], op) == ApplyToContainer(At(v, p), e, op);
  }

  // ---- Arrays -------------------------------------------------------------------------------------------

  /** An insertion at or past the end of an array puts its element last, and changes nothing else. */
  lemma {:induction false} InsertionPastTheEnd(v: Value, p: Path, i: int, x: Value)
    requires Resolves(v, p) && At(v, p).Arr? && i >= |At(v, p).items|
    ensures ApplyOne(v, Component(p + [IndexElem(i)], ListInsert(x))) == Ok(PutAt(v, p, Arr(At(v, p).items + [x])))
  {
    var items := At(v, p).items;
    InContainer(v, p, IndexElem(i), ListInsert(x));
    assert ApplyListInsert(items, x, i) == items + [x];
  }

  lemma {:induction false} PositionsAre(arr: seq<Value>, x: Value)
    ensures forall k :: k in Positions(arr, x) <==> 0 <= k < |arr| && arr[k] == x
    ensures forall i, j :: 0 <= i < j < |Positions(arr, x)| ==> Positions(arr, x)[i] < Positions(arr, x)[j]
    decreases |arr|
  {
    if arr != [] {
      var init := arr[..|arr| - 1];
      PositionsAre(init, x);
      forall k ensures k in Positions(arr, x) <==> 0 <= k < |arr| && arr[k] == x {
        assert k in Positions(init, x) <==> 0 <= k < |init| && init[k] == x;
      }
      forall i, j | 0 <= i < j < |Positions(arr, x)| ensures Positions(arr, x)[i] < Positions(arr, x)[j] {
        assert Positions(init, x)[i] in Positions(init, x);
      }
    }
  }

  lemma {:induction false} SeveralPositions(arr: seq<Value>, x: Value)
    ensures |Positions(arr, x)| > 1 ==> exists i, j :: 0 <= i < j < |arr| && arr[i] == x && arr[j] == x
  {
    PositionsAre(arr, x);
    var found := Positions(arr, x);
    if |found| > 1 {
      assert found[0] in found && found[1] in found && found[0] < found[1];
    }
  }

  /** The value occurs at one position only. */
  predicate OnlyAt(arr: seq<Value>, x: Value, k: int) {
    0 <= k < |arr| && arr[k] == x && forall m :: 0 <= m < |arr| && arr[m] == x ==> m == k
  }

  /** Where a recorded value is looked up: where it was recorded if it is there, else at the only position that holds
      it if it is simple, else where it was recorded. */
  lemma {:induction false} LookedUp(arr: seq<Value>, x: Value, i: int)
    ensures 0 <= i < |arr| && arr[i] == x ==> IndexOf(arr, x, i) == i
    ensures forall k :: IsSimple(x) && OnlyAt(arr, x, k) ==> IndexOf(arr, x, i) == k
    ensures 0 <= i && !(IsSimple(x) && exists k :: OnlyAt(arr, x, k)) && arr != [] ==> IndexOf(arr, x, i) == i
  {
    PositionsAre(arr, x);
    var found := Positions(arr, x);
    forall k | IsSimple(x) && OnlyAt(arr, x, k) ensures IndexOf(arr, x, i) == k {
      assert k in found && found[0] in found;
      SeveralPositions(arr, x);
    }
    if |found| == 1 {
      assert found[0] in found;
      forall m | 0 <= m < |arr| && arr[m] == x ensures m == found[0] {
        assert m in found;
      }
      assert OnlyAt(arr, x, found[0]);
    }
  }

  /** A deletion whose element has moved finds it if it is simple and there once; otherwise it deletes what is at its
      index, whatever that is, and past the end nothing. */
  lemma {:induction false} StaleDeletion(v: Value, p: Path, i: nat, was: Value)
    requires Resolves(v, p) && At(v, p).Arr?
    ensures var items := At(v, p).items;
      var after := ApplyOne(v, Component(p + [IndexElem(i)], ListDelete(was)));
      && (forall k :: IsSimple(was) && OnlyAt(items, was, k) ==> after == Ok(PutAt(v, p, Arr(RemoveAt(items, k)))))
      && (!(IsSimple(was) && exists k :: OnlyAt(items, was, k)) ==>
            after == Ok(PutAt(v, p, Arr(if i < |items| then RemoveAt(items, i) else items))))
  {
    InContainer(v, p, IndexElem(i), ListDelete(was));
    LookedUp(At(v, p).items, was, i);
  }

  /** A replacement likewise, but never of the first element or of null. */
  lemma {:induction false} StaleReplacement(v: Value, p: Path, i: nat, x: Value, was: Value)
    requires Resolves(v, p) && At(v, p).Arr?
    ensures var items := At(v, p).items;
      var after := ApplyOne(v, Component(p + [IndexElem(i)], ListReplace(x, was)));
      && (forall k :: IsSimple(was) && OnlyAt(items, was, k) ==>
            after == Ok(PutAt(v, p, Arr(if k > 0 && !was.Null? then items[k := x] else items))))
      && (!(IsSimple(was) && exists k :: OnlyAt(items, was, k)) ==>
            after == Ok(PutAt(v, p, Arr(if 0 < i < |items| && !items[i].Null? then items[i := x] else items))))
  {
    InContainer(v, p, IndexElem(i), ListReplace(x, was));
    LookedUp(At(v, p).items, was, i);
  }

  // ---- Missing keys -------------------------------------------------------------------------------------

  /** The path ends at a key that its object does not have. */
  predicate KeyMissing(v: Value, p: Path) {
    && p != [] && Resolves(v, Parent(p)) && At(v, Parent(p)).Obj?
    && Last(p).key !in At(v, Parent(p)).fields
  }

  /** The document with a value at such a key. */
  function WithKey(v: Value, p: Path, c: Value): Value
    requires p != [] && Resolves(v, Parent(p)) && At(v, Parent(p)).Obj?
  {
    PutAt(v, Parent(p), Obj(At(v, Parent(p)).fields[Last(p).key := c]))
  }

  /** A value in objects of one key each. */
  function Nest(p: Path, c: Value): Value {
    if p == [] then c else Obj(map[p[0].key := Nest(p[1..], c)])
  }

  lemma {:induction false} NestSplits(p: Path, q: Path, c: Value)
    ensures Nest(p + q, c) == Nest(p, Nest(q, c))
    decreases |p|
  {
    if p == [] {
      assert p + q == q;
    } else {
      assert (p + q)[0] == p[0] && (p + q)[1..] == p[1..] + q;
      NestSplits(p[1..], q, c);
    }
  }

  lemma {:induction false} SetInNothing(p: Path, c: Value)
    requires p != []
    ensures RouteSet(Obj(map[]), p, c) == Ok(Nest(p, c))
    decreases |p|
  {
    if |p| == 1 {
      assert p[1..] == [] && Nest([], c) == c;
    } else {
      SetInNothing(p[1..], c);
    }
    assert map[][p[0].key := Nest(p[1..], c)] == map[p[0].key := Nest(p[1..], c)];
  }

  /** What an operator makes of a container that is not there. */
  function Fresh(e: PathElement, op: Operator): Result<Value> {
    match op
    case ObjectInsert(x) => Ok(Obj(map[e.key := x]))
    case ObjectReplace(x, _) => Ok(Obj(map[e.key := x]))
    case ObjectDelete(_) => Ok(Obj(map[]))
    case ListInsert(x) => Ok(Arr([x]))
    case ListDelete(_) => Ok(Arr([]))
    case ListReplace(_, _) => Ok(Arr([]))
    case ListMove(_) => Ok(Arr([]))
    case _ => Err(InvalidParameter)
  }

  lemma {:induction false} FreshContainer(e: PathElement, op: Operator)
    ensures ApplyToContainer(DefaultFor(op), e, op) == Fresh(e, op)
  {
    var none: map<string, Value> := map[];
    match op
    case ObjectInsert(x) => assert none[e.key := x] == map[e.key := x];
    case ObjectReplace(x, _) => assert none[e.key := x] == map[e.key := x];
    case ObjectDelete(_) => assert none - {e.key} == none;
    case ListInsert(x) => assert ApplyListInsert([], x, FirstIndex(e)) == [x];
    case _ =>
  }

  lemma {:induction false} BelowMissingHere(fields: map<string, Value>, q: Path, op: Operator)
    requires |q| >= 2 && q[0].key !in fields
    ensures ApplyToValue(Obj(fields), q, op) ==
      match Fresh(Last(q), op) {
        case Ok(c) => Ok(Obj(fields[q[0].key := Nest(Parent(q)[1..], c)]))
        case Err(x) => Err(x)
      }
  {
    var left := q[..|q| - 1];
    assert RouteGet(Obj(fields), left, DefaultFor(op)) == Some(DefaultFor(op));
    FreshContainer(Last(q), op);
    if Fresh(Last(q), op).Ok? {
      var c := Fresh(Last(q), op).value;
      if |left| == 1 {
        assert left[1..] == [] && Nest([], c) == c;
      } else {
        SetInNothing(left[1..], c);
      }
    }
  }

  /** An edit below a missing key creates the objects on the way to it and then the container it needs: an object edit
      an object, a list edit an array; a subtype is refused. */
  lemma {:induction false} EditBelowMissing(v: Value, p: Path, q: Path, op: Operator)
    requires KeyMissing(v, p) && q != []
    ensures ApplyOne(v, Component(p + q, op)) ==
      match Fresh(Last(q), op) {
        case Ok(c) => Ok(WithKey(v, p, Nest(Parent(q), c)))
        case Err(x) => Err(x)
      }
    ensures op.ObjectInsert? || op.ObjectReplace? ==>
      ApplyOne(v, Component(p + q, op)) == Ok(WithKey(v, p, Nest(q, op.newValue)))
  {
    var tail := [Last(p)] + q;
    assert p + q == Parent(p) + tail;
    assert Last(tail) == Last(q) && Parent(tail) == [Last(p)] + Parent(q) && Parent(tail)[1..] == Parent(q);
    Locality(v, Parent(p), tail, op);
    BelowMissingHere(At(v, Parent(p)).fields, tail, op);
    if op.ObjectInsert? || op.ObjectReplace? {
      assert q == Parent(q) + [Last(q)] && [Last(q)][1..] == [] && Nest([], op.newValue) == op.newValue;
      NestSplits(Parent(q), [Last(q)], op.newValue);
    }
  }

  /** Applying at a key changes the fields of its object and nothing else. */
  lemma {:induction false} InObject(v: Value, p: Path, fields: map<string, Value>, op: Operator)
    requires p != [] && Resolves(v, Parent(p)) && At(v, Parent(p)) == Obj(fields)
    ensures ApplyOne(v, Component(p, op)) ==
      match ApplyToObject(fields, Last(p).key, op) {
        case Ok(f) => Ok(PutAt(v, Parent(p), Obj(f)))
        case Err(x) => Err(x)
      }
  {
    assert p == Parent(p) + [Last(p)];
    InContainer(v, Parent(p), Last(p), op);
    ObjectContainer(fields, Last(p), op);
  }

  lemma {:induction false} ObjectContainer(fields: map<string, Value>, e: PathElement, op: Operator)
    ensures ApplyToContainer(Obj(fields), e, op) ==
      match ApplyToObject(fields, e.key, op) { case Ok(f) => Ok(Obj(f)) case Err(x) => Err(x) }
  {
  }

  lemma {:induction false} AtMissingHere(fields: map<string, Value>, k: string, op: Operator)
    requires k !in fields
    ensures var after := ApplyToObject(fields, k, op);
      && (op.ObjectInsert? || op.ObjectReplace? ==> after == Ok(fields[k := op.newValue]))
      && (op.ObjectDelete? ==> after == Ok(fields))
      && (IsNumberAdd(op) ==> after == Ok(fields[k := op.operand]))
      && (IsListOp(op) || op.Noop? ==> after == Err(UnsupportedOperator))
  {
    assert fields - {k} == fields;
  }

  /** An edit at a missing key: an insertion or replacement puts its value there, a deletion finds nothing to delete, a
      number-add of a number sets it, and a list edit is refused. */
  lemma {:induction false} EditAtMissing(v: Value, p: Path, op: Operator)
    requires KeyMissing(v, p)
    ensures var after := ApplyOne(v, Component(p, op));
      && (op.ObjectInsert? || op.ObjectReplace? ==> after == Ok(WithKey(v, p, op.newValue)))
      && (op.ObjectDelete? ==> after == Ok(v))
      && (IsNumberAdd(op) ==> after == Ok(WithKey(v, p, op.operand)))
      && (IsListOp(op) || op.Noop? ==> after == Err(UnsupportedOperator))
  {
    var fields, k := At(v, Parent(p)).fields, Last(p).key;
    InObject(v, p, fields, op);
    AtMissingHere(fields, k, op);
    PutSame(v, Parent(p));
  }

  lemma {:induction false} PutSame(v: Value, p: Path)
    requires Resolves(v, p)
    ensures PutAt(v, p, At(v, p)) == v
    decreases |p|
  {
    if p != [] {
      PutSame(Child(v, p[0]), p[1..]);
      match v
      case Arr(items) => assert items[p[0].index := items[p[0].index]] == items;
      case Obj(fields) => assert fields[p[0].key := fields[p[0].key]] == fields;
    }
  }

  // ---- Keys that are there ------------------------------------------------------------------------------

  /** A subtype edit at a key that is there: a number is added to, null is set, anything else cannot be added to; what
      is added must be a number, and the subtype one of the built-in ones. */
  lemma {:induction false} SubTypeAtKey(v: Value, p: Path, st: SubType, operand: Value)
    requires p != [] && Resolves(v, Parent(p)) && At(v, Parent(p)).Obj? && Last(p).key in At(v, Parent(p)).fields
    ensures var x := At(v, Parent(p)).fields[Last(p).key];
      var after := ApplyOne(v, Component(p, SubTypeOp(st, operand)));
      && (TypeName(st) == NUMBER_ADD ==>
            after == (if !operand.Num? then Err(InvalidOperation)
                      else if x.Null? then Ok(WithKey(v, p, operand))
                      else if x.Num? then Ok(WithKey(v, p, Num(x.n + operand.n)))
                      else Err(Panic)))
      && (TypeName(st) !in {NUMBER_ADD, TEXT} ==> after == Err(InvalidOperation))
  {
    InObject(v, p, At(v, Parent(p)).fields, SubTypeOp(st, operand));
  }

  // ---- Refusals -----------------------------------------------------------------------------------------

  /** Before anything is applied every component is checked: the first one that moves at the root, or to a negative
      index, refuses the whole operation, whatever the components before it would do. */
  lemma {:induction false} RefusedAsAWhole(v: Value, cs: seq<Component>, i: nat)
    requires i < |cs| && cs[i].operator.ListMove? && (cs[i].path == [] || cs[i].operator.newIndex < 0)
    requires forall j :: 0 <= j < i && cs[j].operator.ListMove? ==> cs[j].path != [] && cs[j].operator.newIndex >= 0
    ensures ApplyOperation(v, cs) == Err(if cs[i].path == [] then BadPath else InvalidParameter)
  {
    FirstInvalid(cs, i);
  }

  lemma {:induction false} FirstInvalid(cs: seq<Component>, i: nat)
    requires i < |cs| && !ValidComponent(cs[i]) && forall j :: 0 <= j < i ==> ValidComponent(cs[j])
    ensures ValidationError(cs) == Some(if cs[i].path == [] && cs[i].operator.ListMove? then BadPath else InvalidParameter)
    decreases i
  {
    if i > 0 {
      FirstInvalid(cs[1..], i - 1);
    }
  }

  // ---- Below what is no container -----------------------------------------------------------------------

  lemma {:induction false} BelowElementHere(items: seq<Value>, e: PathElement, q: Path, op: Operator)
    requires q != [] && (FirstIndex(e) >= |items| || items[FirstIndex(e)].Null?)
    ensures ApplyToValue(Arr(items), [e] + q, op) ==
      if Fresh(Last(q), op).Err? then Err(InvalidParameter)
      else if FirstIndex(e) >= |items| || |q| > 1 then Err(BadPath)
      else Ok(Arr(items[FirstIndex(e) := Fresh(Last(q), op).value]))
  {
    var path, left := [e] + q, ([e] + q)[..|q|];
    assert path[|q|] == Last(q) && left[0] == e;
    assert RouteGet(Arr(items), left, DefaultFor(op)) == Some(DefaultFor(op));
    FreshContainer(Last(q), op);
    assert path[..|path| - 1] == left;
    if Fresh(Last(q), op).Ok? {
      var c := Fresh(Last(q), op).value;
      assert ApplyToValue(Arr(items), path, op) == RouteSet(Arr(items), left, c);
      if |q| > 1 && FirstIndex(e) < |items| {
        assert RouteSet(Null, left[1..], c) == Err(BadPath);
      }
    }
  }

  /** An edit directly below a null element of an array puts the container it needs in its place; further below, or past
      the end, it fails. */
  lemma {:induction false} EditBelowNullElement(v: Value, p: Path, i: nat, q: Path, op: Operator)
    requires Resolves(v, p) && At(v, p).Arr? && q != []
    requires i >= |At(v, p).items| || At(v, p).items[i].Null?
    ensures ApplyOne(v, Component(p + ([IndexElem(i)] + q), op)) ==
      if Fresh(Last(q), op).Err? then Err(InvalidParameter)
      else if i >= |At(v, p).items| || |q| > 1 then Err(BadPath)
      else Ok(PutAt(v, p, Arr(At(v, p).items[i := Fresh(Last(q), op).value])))
  {
    Locality(v, p, [IndexElem(i)] + q, op);
    BelowElementHere(At(v, p).items, IndexElem(i), q, op);
  }

  lemma {:induction false} BelowScalarHere(v: Value, e: PathElement, q: Path, op: Operator)
    requires HasChild(v, e) && IsSimple(Child(v, e)) && q != [] && !(v.Arr? && Child(v, e).Null?)
    ensures ApplyToValue(v, [e] + q, op) == Err(InvalidParameter)
  {
    var path, left := [e] + q, ([e] + q)[..|q|];
    assert left[0] == e;
    var d := DefaultFor(op);
    if |q| > 1 {
      assert RouteGet(Child(v, e), left[1..], d) == None;
      assert RouteGet(v, left, d) == None;
    } else {
      assert RouteGet(v, left, d) == Some(Child(v, e));
    }
  }

  /** Nothing can be edited below a boolean, a number or a string, nor below null at a key. */
  lemma {:induction false} EditBelowScalar(v: Value, p: Path, e: PathElement, q: Path, op: Operator)
    requires Resolves(v, p) && HasChild(At(v, p), e) && IsSimple(Child(At(v, p), e)) && q != []
    requires At(v, p).Obj? || !Child(At(v, p), e).Null?
    ensures ApplyOne(v, Component(p + ([e] + q), op)) == Err(InvalidParameter)
  {
    Locality(v, p, [e] + q, op);
    BelowScalarHere(At(v, p), e, q, op);
  }

  // ---- The root -----------------------------------------------------------------------------------------

  /** At the root an insertion or replacement of either kind is the new document, a deletion leaves null, a number-add
      adds to a number or replaces null, and a move is refused. */
  lemma {:induction false} RootEdits(v: Value, op: Operator)
    ensures var after := ApplyOne(v, Component([], op));
      && (op.ListInsert? || op.ObjectInsert? || op.ListReplace? || op.ObjectReplace? ==> after == Ok(op.newValue))
      && (op.ListDelete? || op.ObjectDelete? ==> after == Ok(Null))
      && (IsNumberAdd(op) ==>
            after == if v.Num? then Ok(Num(v.n + op.operand.n)) else if v.Null? then Ok(op.operand) else Err(Panic))
      && (op.Noop? ==> after == Ok(v))
      && (op.ListMove? ==> after == Err(UnsupportedOperator))
  {
  }

  /** The value an edit of the root takes to be there before. */
  predicate RootHolds(v: Value, op: Operator) {
    match op
    case Noop => true
    case ListInsert(_) => v.Null?
    case ObjectInsert(_) => v.Null?
    case ListDelete(was) => v == was
    case ObjectDelete(was) => v == was
    case ListReplace(_, was) => v == was
    case ObjectReplace(_, was) => v == was
    case SubTypeOp(_, _) => v.Num?
    case ListMove(_) => false
  }

  /** An edit of the root is undone by its inverse if and only if the root held what the edit takes to be there. */
  lemma {:induction false} RootUndone(v: Value, op: Operator)
    requires op.SubTypeOp? ==> IsNumberAdd(op)
    ensures var c := Component([], op);
      && (RootHolds(v, op) <==>
            var after, inverse := ApplyOne(v, c), Algebra.Invert(c);
            after.Ok? && inverse.Ok? && ApplyOne(after.value, inverse.value) == Ok(v))
  {
    RootEdits(v, op);
    var c := Component([], op);
    if Algebra.Invert(c).Ok? && ApplyOne(v, c).Ok? {
      RootEdits(ApplyOne(v, c).value, Algebra.Invert(c).value.operator);
    }
  }
}
