/** Applying operators in place: a node whose value the methods edit step by step. */
module Applier {
  import opened Json
  import opened Operators
  import opened Sequences
  import opened Apply

  /** A list under edit. */
  class Items {
    var items: seq<Value>

    constructor (items: seq<Value>)
      ensures this.items == items
    {
      this.items := items;
    }

    method Delete(was: Value, at: int)
      modifies this
      ensures items == ApplyListDelete(old(items), was, at)
    {
      var index := IndexFunc(items, was, at);
      if |items| == 0 {
        return;
      }
      if index >= 0 && |items| > index {
        items := items[..index] + items[index + 1..];
      }
    }

    method Insert(v: Value, index: nat)
      modifies this
      ensures items == ApplyListInsert(old(items), v, index)
    {
      if index > |items| {
        items := items + [v];
      } else {
        items := items[..index] + [v] + items[index..];
      }
    }

    method Replace(v: Value, was: Value, at: int)
      modifies this
      ensures items == ApplyListReplace(old(items), v, was, at)
    {
      var index := IndexFunc(items, was, at);
      if index > 0 && index < |items| {
        var target := items[index];
        if !target.Null? {
          items := items[index := v];
        }
      }
    }

    /** Take the element out, then put it back in; a negative target index panics in between. */
    method Move(newIndex: int, index: int) returns (failure: Option<Error>)
      modifies this
      ensures failure == None ==> ApplyListMove(old(items), newIndex, index) == Ok(items)
      ensures failure.Some? ==> ApplyListMove(old(items), newIndex, index) == Err(failure.value)
    {
      if index > 0 && index < |items| {
        if index != newIndex {
          var moved := items[index];
          items := items[..index] + items[index + 1..];
          if newIndex > |items| {
            items := items + [moved];
          } else if newIndex < 0 {
            return Some(Panic);
          } else {
            items := items[..newIndex] + [moved] + items[newIndex..];
          }
        }
      }
      return None;
    }
  }

  /** A value under edit.  What a failed method leaves in it is not said. */
  class Node {
    var value: Value

    constructor (value: Value)
      ensures this.value == value
    {
      this.value := value;
    }

    method ApplyToList(e: PathElement, op: Operator) returns (failure: Option<Error>)
      requires value.Arr?
      modifies this
      ensures failure == None ==> ApplyToContainer(old(value), e, op) == Ok(value)
      ensures failure.Some? ==> ApplyToContainer(old(value), e, op) == Err(failure.value)
    {
      var index := FirstIndex(e);
      var list := new Items(value.items);
      failure := None;
      match op {
        case ListDelete(was) => list.Delete(was, index);
        case ListInsert(v) => list.Insert(v, index);
        case ListReplace(v, was) => list.Replace(v, was, index);
        case ListMove(newIndex) => failure := list.Move(newIndex, index);
        case _ =>
      }
      value := Arr(list.items);
    }

    method ApplyToKey(k: string, op: Operator) returns (failure: Option<Error>)
      requires value.Obj?
      modifies this
      ensures failure == None ==> ApplyToContainer(old(value), PathElement(k, 0), op) == Ok(value)
      ensures failure.Some? ==> ApplyToContainer(old(value), PathElement(k, 0), op) == Err(failure.value)
    {
      var fields := value.fields;
      match op {
        case ObjectInsert(v) => fields := fields[k := v];
        case ObjectDelete(_) =>
          if k in fields {
            fields := fields - {k};
          } else {
            assert fields - {k} == fields;
          }
        case ObjectReplace(v, _) => fields := fields[k := v];
        case SubTypeOp(st, operand) =>
          var result := ApplySubType(st, if k in fields then Some(fields[k]) else None, operand);
          if result.Err? {
            return Some(result.error);
          }
          if result.value.Some? {
            fields := fields[k := result.value.value];
          }
        case _ => return Some(UnsupportedOperator);
      }
      value := Obj(fields);
      return None;
    }

    method ApplyHere(e: PathElement, op: Operator) returns (failure: Option<Error>)
      modifies this
      ensures failure == None ==> ApplyToContainer(old(value), e, op) == Ok(value)
      ensures failure.Some? ==> ApplyToContainer(old(value), e, op) == Err(failure.value)
    {
      match value {
        case Arr(_) => failure := ApplyToList(e, op);
        case Obj(_) => failure := ApplyToKey(e.key, op);
        case _ => failure := Some(InvalidParameter);
      }
    }

    /** Write a value at a path, building each child up before it is put back. */
    method Set(p: Path, c: Value) returns (failure: Option<Error>)
      requires p != []
      modifies this
      ensures failure == None ==> RouteSet(old(value), p, c) == Ok(value)
      ensures failure.Some? ==> RouteSet(old(value), p, c) == Err(failure.value)
      decreases |p|
    {
      match value {
        case Arr(items) =>
          var i := FirstIndex(p[0]);
          if i >= |items| {
            return Some(BadPath);
          }
          if |p| == 1 {
            value := Arr(items[i := c]);
            return None;
          }
          var child := new Node(items[i]);
          failure := child.Set(p[1..], c);
          if failure == None {
            value := Arr(items[i := child.value]);
          }
        case Obj(fields) =>
          var k := p[0].key;
          if |p| == 1 {
            value := Obj(fields[k := c]);
            return None;
          }
          var child := new Node(if k in fields then fields[k] else Obj(map[]));
          failure := child.Set(p[1..], c);
          if failure == None {
            value := Obj(fields[k := child.value]);
          }
        case _ => failure := Some(BadPath);
      }
    }

    /** Find the container, change it, and write it back. */
    method ApplyAt(p: Path, op: Operator) returns (failure: Option<Error>)
      requires p != []
      modifies this
      ensures failure == None ==> ApplyToValue(old(value), p, op) == Ok(value)
      ensures failure.Some? ==> ApplyToValue(old(value), p, op) == Err(failure.value)
    {
      if |p| == 1 {
        failure := ApplyHere(p[0], op);
        return;
      }
      var left, last := p[..|p| - 1], p[|p| - 1];
      var found := RouteGet(value, left, DefaultFor(op));
      if found.None? {
        return Some(InvalidParameter);
      }
      var container := new Node(found.value);
      failure := container.ApplyHere(last, op);
      if failure == None {
        failure := Set(left, container.value);
      }
    }

    method ApplyRoot(op: Operator) returns (failure: Option<Error>)
      modifies this
      ensures failure == None ==> ApplyToRoot(old(value), op) == Ok(value)
      ensures failure.Some? ==> ApplyToRoot(old(value), op) == Err(failure.value)
    {
      var r := ApplyToRoot(value, op);
      if r.Err? {
        return Some(r.error);
      }
      value := r.value;
      return None;
    }

    /** Check every component, then apply them in turn. */
    method ApplyOperation(components: seq<Component>) returns (failure: Option<Error>)
      modifies this
      ensures failure == None ==> Apply.ApplyOperation(old(value), components) == Ok(value)
      ensures failure.Some? ==> Apply.ApplyOperation(old(value), components) == Err(failure.value)
    {
      for i := 0 to |components|
        invariant ValidationError(components) == ValidationError(components[i..])
      {
        assert components[i..][0] == components[i] && components[i..][1..] == components[i + 1..];
        var c := components[i];
        if !ValidComponent(c) {
          return Some(if c.path == [] && c.operator.ListMove? then BadPath else InvalidParameter);
        }
      }
      for k := 0 to |components|
        invariant ApplyAll(old(value), components) == ApplyAll(value, components[k..])
      {
        assert components[k..][0] == components[k] && components[k..][1..] == components[k + 1..];
        var c := components[k];
        if c.path == [] {
          failure := ApplyRoot(c.operator);
        } else {
          failure := ApplyAt(c.path, c.operator);
        }
        if failure.Some? {
          return;
        }
      }
      return None;
    }
  }
}
