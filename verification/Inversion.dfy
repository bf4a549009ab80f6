/** Undoing one component, an operation, and a whole history. */
module Inversion {
  import opened Json
  import opened Operators
  import opened Sequences
  import opened Apply
  import opened Transform
  import opened Validity
  import opened Routing
  import opened ListConvergence
  import opened BothOrders
  import opened Nested
  import opened TreeConvergence
  import opened Rebase
  import opened Algebra
  import TextOps

  /** The component fits and is not one the list code leaves undone. */
  predicate Works(v: Value, c: Component) {
    Fits(v, c) && !Skipped(c)
  }

  /** No move from or to index 0, and no replacement that leaves null behind. */
  predicate Invertible(c: Component) {
    match c.operator
    case ListMove(to) => c.path != [] && c.path[|c.path| - 1].index != 0 && to != 0
    case ListReplace(v, was) => v.Null? ==> v == was
    case _ => true
  }

  /** Applying the component and then its inverse gives the document back. */
  predicate Undone(v: Value, c: Component) {
    Invert(c).Ok? && ApplyOne(After(v, c), Invert(c).value) == Ok(v)
  }

  predicate UndoWorks(v: Value, c: Component) {
    Undone(v, c) && Works(After(v, c), Invert(c).value)
  }

  lemma {:induction false} InsertRemoved(items: seq<Value>, i: nat, v: Value)
    requires i <= |items|
    ensures RemoveAt(InsertAt(items, i, v), i) == items && InsertAt(items, i, v)[i] == v
    ensures i < |items| ==> InsertAt(RemoveAt(items, i), i, items[i]) == items
  {
  }

  lemma {:induction false} MovedBack(items: seq<Value>, f: nat, t: nat)
    requires f < |items| && t < |items|
    ensures MoveAt(MoveAt(items, f, t), t, f) == items
  {
    MovedAway(items, f, t);
    InsertRemoved(items, f, items[f]);
  }

  /** A move to the front that passes only elements equal to the moved one. */
  predicate AmongEquals(items: seq<Value>, i: int, op: Operator) {
    op.ListMove? && op.newIndex == 0 && 0 < i < |items| && AllSame(items, i, 0)
  }

  lemma {:induction false} UndoMove(items: seq<Value>, i: nat, c: Component)
    requires c == Slot(i, c.operator) && c.operator.ListMove? && Works(Arr(items), c)
    ensures Invertible(c) ==> UndoWorks(Arr(items), c)
    ensures Undone(Arr(items), c) <==> Invertible(c) || AmongEquals(items, i, c.operator)
  {
    var to := c.operator.newIndex;
    SingleSteps(i, i);
    ApplySlot(items, c);
    var w := Perform(items, c);
    MovedBack(items, i, to);
    MovedAway(items, i, to);
    if i != 0 {
      assert Invert(c) == Ok(Slot(to, ListMove(i)));
      ApplySlot(w, Slot(to, ListMove(i)));
      MoveStays(items, i, to);
    }
  }

  lemma {:induction false} UndoReplacement(items: seq<Value>, i: nat, c: Component)
    requires c == Slot(i, c.operator) && c.operator.ListReplace? && Works(Arr(items), c)
    ensures Invertible(c) ==> UndoWorks(Arr(items), c)
    ensures Undone(Arr(items), c) <==> Invertible(c) || AmongEquals(items, i, c.operator)
  {
    SingleSteps(i, i);
    ApplySlot(items, c);
    var w := Perform(items, c);
    assert w[i := c.operator.oldValue] == items;
    ApplySlot(w, Slot(i, ListReplace(c.operator.oldValue, c.operator.newValue)));
  }

  lemma {:induction false} UndoInArray(items: seq<Value>, c: Component)
    requires |c.path| == 1 && Works(Arr(items), c)
    ensures Invertible(c) ==> UndoWorks(Arr(items), c)
    ensures Undone(Arr(items), c) <==> Invertible(c) || AmongEquals(items, c.path[0].index, c.operator)
  {
    var v, i := Arr(items), c.path[0].index;
    assert c == Slot(i, c.operator);
    SingleSteps(i, i);
    if c.operator.SubTypeOp? {
      return;
    }
    ApplySlot(items, c);
    var w := Perform(items, c);
    assert After(v, c) == Arr(w);
    match c.operator
    case ListInsert(x) =>
      InsertRemoved(items, i, x);
      ApplySlot(w, Slot(i, ListDelete(x)));
    case ListDelete(was) =>
      InsertRemoved(items, i, was);
      ApplySlot(w, Slot(i, ListInsert(was)));
    case ListReplace(_, _) => UndoReplacement(items, i, c);
    case ListMove(_) => UndoMove(items, i, c);
  }

  lemma {:induction false} UndoInObject(fields: map<string, Value>, c: Component)
    requires |c.path| == 1 && Works(Obj(fields), c)
    ensures Invertible(c) && UndoWorks(Obj(fields), c)
  {
    var v, k := Obj(fields), c.path[0].key;
    var w := After(v, c);
    var inverse := Invert(c).value;
    assert inverse.path == c.path && w.Obj?;
    assert ApplyOne(w, inverse).value.fields == fields;
  }

  lemma {:induction false} InvertibleUnder(e: PathElement, c: Component)
    requires c.path != []
    ensures Invertible(Under(e, c)) <==> Invertible(c)
    ensures Skipped(Under(e, c)) <==> Skipped(c)
  {
    StepsUnder(e, c, c);
  }

  lemma {:induction false} InvertUnder(e: PathElement, c: Component)
    requires c.path != []
    ensures Invert(Under(e, c)) == match Invert(c) { case Ok(d) => Ok(Under(e, d)) case Err(x) => Err(x) }
    ensures Invert(c).Ok? ==> Invert(c).value.path != []
    ensures Invertible(Under(e, c)) <==> Invertible(c)
    ensures Skipped(Under(e, c)) <==> Skipped(c)
  {
    StepsUnder(e, c, c);
    InvertibleUnder(e, c);
    if c.operator.ListMove? {
      StepUnder(e, c.path, |c.path| - 1, IndexElem(c.operator.newIndex));
    }
  }

  lemma {:induction false} UndoUnder(v: Value, e: PathElement, c: Component)
    requires HasChild(v, e) && Works(Child(v, e), c)
    ensures Undone(v, Under(e, c)) <==> Undone(Child(v, e), c)
    ensures UndoWorks(v, Under(e, c)) <==> UndoWorks(Child(v, e), c)
  {
    var w := Child(v, e);
    InvertUnder(e, c);
    FitsApplies(w, c);
    PutChildTwice(v, e, After(w, c), w);
    assert PutChild(v, e, w) == v by { PutSame(v, e); }
    OneUnder(v, e, w, c);
    var x := After(w, c);
    assert After(v, Under(e, c)) == PutChild(v, e, x);
    if Invert(c).Ok? {
      var d := Invert(c).value;
      OneUnder(v, e, x, d);
      FitsUnder(v, e, x, d);
      InvertUnder(e, d);
      var r := ApplyOne(x, d);
      if r.Ok? {
        PutChildTwice(v, e, r.value, r.value);
        PutChildTwice(v, e, w, w);
      }
    }
  }

  lemma {:induction false} PutSame(v: Value, e: PathElement)
    requires HasChild(v, e)
    ensures PutChild(v, e, Child(v, e)) == v
  {
    match v
    case Arr(items) => assert items[e.index := items[e.index]] == items;
    case Obj(fields) => assert fields[e.key := fields[e.key]] == fields;
  }

  /** The component moves an element of a list to the front past its equals only. */
  predicate MovesAmongEquals(v: Value, c: Component) {
    && c.path != [] && Resolves(v, Parent(c.path)) && At(v, Parent(c.path)).Arr?
    && AmongEquals(At(v, Parent(c.path)).items, Last(c.path).index, c.operator)
  }

  lemma {:induction false} EqualsUnder(v: Value, e: PathElement, c: Component)
    requires HasChild(v, e) && c.path != []
    ensures MovesAmongEquals(v, Under(e, c)) <==> MovesAmongEquals(Child(v, e), c)
  {
    var p := [e] + c.path;
    assert Parent(p) == [e] + Parent(c.path) && Last(p) == Last(c.path) && Parent(p)[1..] == Parent(c.path);
  }

  /** A component is undone by its inverse exactly when it is invertible, or moves an element to the front past its
      equals only. */
  lemma {:induction false} InverseUndoes(v: Value, c: Component)
    requires Works(v, c)
    ensures Invertible(c) ==> UndoWorks(v, c)
    ensures Undone(v, c) <==> Invertible(c) || MovesAmongEquals(v, c)
    decreases |c.path|
  {
    if |c.path| == 1 {
      assert Parent(c.path) == [];
      if v.Arr? {
        UndoInArray(v.items, c);
      } else {
        UndoInObject(v.fields, c);
      }
    } else {
      var e, d := c.path[0], Component(c.path[1..], c.operator);
      assert c == Under(e, d);
      InvertUnder(e, d);
      InverseUndoes(Child(v, e), d);
      UndoUnder(v, e, d);
      EqualsUnder(v, e, d);
    }
  }

  // ---- Text ---------------------------------------------------------------------------------------------

  /** A text insertion. */
  function TextInsertion(p: int, t: string): Value {
    Obj(map["p" := Num(p), "i" := Str(t)])
  }

  /** A text deletion. */
  function TextDeletion(p: int, t: string): Value {
    Obj(map["p" := Num(p), "d" := Str(t)])
  }

  /** A text insertion inverts to the deletion of the same text at the same offset, and back. */
  lemma {:induction false} TextInverts(path: Path, st: SubType, p: int, t: string)
    requires TypeName(st) == TEXT
    ensures var a, b := SubTypeOp(st, TextInsertion(p, t)), SubTypeOp(st, TextDeletion(p, t));
      Invert(Component(path, a)) == Ok(Component(path, b)) && Invert(Component(path, b)) == Ok(Component(path, a))
  {
    assert TextOps.EditToValue(TextOps.Edit(p, Some(t), None)) == TextInsertion(p, t);
    assert TextOps.EditToValue(TextOps.Edit(p, None, Some(t))) == TextDeletion(p, t);
  }

  /** A component that can be inverted twice. */
  ghost predicate InvertsTwice(c: Component) {
    match c.operator
    case ListMove(to) =>
      c.path != [] && Last(c.path) == IndexElem(Last(c.path).index) && Last(c.path).index != 0 && to != 0
    case SubTypeOp(st, operand) =>
      || (TypeName(st) == NUMBER_ADD && operand.Num?)
      || (TypeName(st) == TEXT && exists p, t :: operand == TextInsertion(p, t) || operand == TextDeletion(p, t))
    case _ => true
  }

  /** Inverting twice gives the component back; what cannot be inverted is a move of the first element, or a subtype
      edit that is no sum and no text edit. */
  lemma {:induction false} InvertedTwice(c: Component)
    ensures InvertsTwice(c) ==> Invert(c).Ok? && Invert(Invert(c).value) == Ok(c)
    ensures c.operator.ListMove? && c.path != [] && Last(c.path).index == 0 ==> Invert(c) == Err(BadPath)
    ensures c.operator.SubTypeOp? && TypeName(c.operator.subType) !in {NUMBER_ADD, TEXT} ==>
      Invert(c) == Err(InvalidOperation)
  {
    if InvertsTwice(c) && c.operator.SubTypeOp? && TypeName(c.operator.subType) == TEXT
      && TypeName(c.operator.subType) != NUMBER_ADD
    {
      var p, t :| c.operator.operand == TextInsertion(p, t) || c.operator.operand == TextDeletion(p, t);
      TextInverts(c.path, c.operator.subType, p, t);
    }
    if InvertsTwice(c) && c.operator.ListMove? {
      var k, to := |c.path| - 1, c.operator.newIndex;
      assert c.path[k := IndexElem(to)][k := IndexElem(c.path[k].index)] == c.path;
    }
  }

  /** The code takes the length of the deleted text for its end, so an in-range insertion is undone by its inverse if
      and only if it is at the start, or is of nothing at the end. */
  lemma {:induction false} TextInsertionUndone(s: string, p: nat, t: string)
    requires p <= |s|
    ensures TextOps.ApplyText(Some(Str(s)), TextInsertion(p, t)) == Ok(Some(Str(s[..p] + t + s[p..])))
    ensures TextOps.ApplyText(Some(Str(s[..p] + t + s[p..])), TextDeletion(p, t)) == Ok(Some(Str(s)))
      <==> p == 0 || (t == "" && p == |s|)
  {
    var w := s[..p] + t + s[p..];
    TextOps.InsertsAt(s, TextInsertion(p, t));
    TextOps.DeletesOnlyAtStart(w, TextDeletion(p, t));
    if p == 0 {
      assert w == t + s && w[|t|..] == s;
    } else if t == "" {
      assert w == s;
    }
  }
}
