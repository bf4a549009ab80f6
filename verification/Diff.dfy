/** The operation that turns one document into another. */
module Diff {
  import opened Json
  import opened Operators
  import opened Apply
  import opened Algebra
  import Keys

  // ---- What is emitted ----------------------------------------------------------------------------------

  /** A replacement of the value at a path: by key, or at the root, as an object edit, by index as a list edit. */
  function ReplaceOperator(p: Path, from: Value, to: Value): Operator {
    if p == [] || p[|p| - 1].key != "" then ObjectReplace(to, from) else ListReplace(to, from)
  }

  predicate SupportsSubTypePath(p: Path) {
    p == [] || p[|p| - 1].key != ""
  }

  function EmittedNumber(p: Path, from: int, to: int): seq<Component> {
    if !SupportsSubTypePath(p) then [Component(p, ReplaceOperator(p, Num(from), Num(to)))]
    else if to - from == 0 then []
    else [Component(p, SubTypeOp(NumberAdd, Num(to - from)))]
  }

  ghost function EmittedInto(p: Path, from: Value, to: Value): seq<Component>
    decreases from, 1, 0
  {
    if from == to then []
    else if from.Obj? && to.Obj? then
      EmittedKeys(p, from, to, Keys.SortedKeys(from.fields.Keys + to.fields.Keys))
    else if from.Arr? && to.Arr? && |from.items| == |to.items| then EmittedItems(p, from, to, 0)
    else if from.Num? && to.Num? then EmittedNumber(p, from.n, to.n)
    else [Component(p, ReplaceOperator(p, from, to))]
  }

  /** The change at one key. */
  ghost function EmittedKey(p: Path, from: Value, to: Value, k: string): seq<Component>
    requires from.Obj? && to.Obj?
    decreases from, 0, 0
  {
    var q := p + [KeyElem(k)];
    if k in from.fields && k !in to.fields then [Component(q, ObjectDelete(from.fields[k]))]
    else if k !in from.fields && k in to.fields then [Component(q, ObjectInsert(to.fields[k]))]
    else if k in from.fields && k in to.fields then EmittedInto(q, from.fields[k], to.fields[k])
    else []
  }

  ghost function EmittedKeys(p: Path, from: Value, to: Value, keys: seq<string>): seq<Component>
    requires from.Obj? && to.Obj?
    decreases from, 0, |keys| + 1
  {
    if keys == [] then [] else EmittedKey(p, from, to, keys[0]) + EmittedKeys(p, from, to, keys[1..])
  }

  ghost function EmittedItems(p: Path, from: Value, to: Value, i: nat): seq<Component>
    requires from.Arr? && to.Arr? && |from.items| == |to.items| && i <= |from.items|
    decreases from, 0, |from.items| - i
  {
    if i == |from.items| then []
    else EmittedInto(p + [IndexElem(i)], from.items[i], to.items[i]) + EmittedItems(p, from, to, i + 1)
  }

  // ---- The code -----------------------------------------------------------------------------------------

  lemma {:induction false} ComposeOne(a: seq<Component>, c: Component)
    ensures Composed(a, [c]) == Appended(a, c)
  {
    assert [c][1..] == [];
  }

  method DiffInto(p: Path, from: Value, to: Value, operation: Operation)
    modifies operation
    ensures operation.components == Composed(old(operation.components), EmittedInto(p, from, to))
    decreases from, 1
  {
    if from == to {
      return;
    }
    if from.Obj? && to.Obj? {
      DiffObject(p, from, to, operation);
    } else if from.Arr? && to.Arr? {
      if |from.items| != |to.items| {
        AppendReplace(p, from, to, operation);
      } else {
        DiffArray(p, from, to, operation);
      }
    } else if from.Num? && to.Num? {
      DiffNumber(p, from, to, operation);
    } else {
      AppendReplace(p, from, to, operation);
    }
  }

  method DiffNumber(p: Path, from: Value, to: Value, operation: Operation)
    requires from.Num? && to.Num?
    modifies operation
    ensures operation.components == Composed(old(operation.components), EmittedNumber(p, from.n, to.n))
  {
    if !SupportsSubTypePath(p) {
      AppendReplace(p, from, to, operation);
      return;
    }
    var delta := to.n - from.n;
    if delta == 0 {
      return;
    }
    ComposeOne(operation.components, Component(p, SubTypeOp(NumberAdd, Num(delta))));
    operation.Append(Component(p, SubTypeOp(NumberAdd, Num(delta))));
  }

  method AppendReplace(p: Path, from: Value, to: Value, operation: Operation)
    modifies operation
    ensures operation.components == Composed(old(operation.components), [Component(p, ReplaceOperator(p, from, to))])
  {
    ComposeOne(operation.components, Component(p, ReplaceOperator(p, from, to)));
    operation.Append(Component(p, ReplaceOperator(p, from, to)));
  }

  method DiffObject(p: Path, from: Value, to: Value, operation: Operation)
    requires from.Obj? && to.Obj?
    modifies operation
    ensures operation.components ==
      Composed(old(operation.components), EmittedKeys(p, from, to, Keys.SortedKeys(from.fields.Keys + to.fields.Keys)))
    decreases from, 0
  {
    var keys := Keys.SortKeys(from.fields.Keys + to.fields.Keys);
    for i := 0 to |keys|
      invariant Composed(operation.components, EmittedKeys(p, from, to, keys[i..]))
             == Composed(old(operation.components), EmittedKeys(p, from, to, keys))
    {
      var key := keys[i];
      assert keys[i..][0] == key && keys[i..][1..] == keys[i + 1..];
      ComposeInTwo(operation.components, EmittedKey(p, from, to, key), EmittedKeys(p, from, to, keys[i + 1..]));
      var next := p + [KeyElem(key)];
      if key in from.fields && key !in to.fields {
        ComposeOne(operation.components, Component(next, ObjectDelete(from.fields[key])));
        operation.Append(Component(next, ObjectDelete(from.fields[key])));
      } else if key !in from.fields && key in to.fields {
        ComposeOne(operation.components, Component(next, ObjectInsert(to.fields[key])));
        operation.Append(Component(next, ObjectInsert(to.fields[key])));
      } else if key in from.fields && key in to.fields {
        DiffInto(next, from.fields[key], to.fields[key], operation);
      }
    }
  }

  method DiffArray(p: Path, from: Value, to: Value, operation: Operation)
    requires from.Arr? && to.Arr? && |from.items| == |to.items|
    modifies operation
    ensures operation.components == Composed(old(operation.components), EmittedItems(p, from, to, 0))
    decreases from, 0
  {
    for i := 0 to |from.items|
      invariant Composed(operation.components, EmittedItems(p, from, to, i))
             == Composed(old(operation.components), EmittedItems(p, from, to, 0))
    {
      var next := p + [IndexElem(i)];
      var emitted := EmittedInto(next, from.items[i], to.items[i]);
      ComposeInTwo(operation.components, emitted, EmittedItems(p, from, to, i + 1));
      DiffInto(next, from.items[i], to.items[i], operation);
    }
  }

  /** Build the operation from one document to another. */
  method Diff(from: Value, to: Value) returns (operation: Operation)
    ensures fresh(operation)
    ensures operation.components == Composed([], EmittedInto([], from, to))
  {
    operation := new Operation();
    DiffInto([], from, to, operation);
  }
}
