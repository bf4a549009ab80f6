/** Applying operators to documents: routing to a container, changing it, and routing the result back. */
module Apply {
  import opened Json
  import opened Operators
  import opened Sequences
  import TextOps

  // ---- Routing ------------------------------------------------------------------------------------------

  /** The fresh value a missing container is taken to be. */
  function DefaultFor(op: Operator): Value {
    if IsObjectOp(op) then Obj(map[]) else if IsListOp(op) then Arr([]) else Null
  }

  /** Read the value at a path; a missing slot, or a null array slot, reads as the default. */
  function RouteGet(v: Value, p: Path, dflt: Value): Option<Value>
    requires p != []
    decreases |p|
  {
    match v
    case Arr(items) =>
      var i := FirstIndex(p[0]);
      if i >= |items| || items[i].Null? then Some(dflt)
      else if |p| == 1 then Some(items[i])
      else RouteGet(items[i], p[1..], dflt)
    case Obj(fields) =>
      if p[0].key !in fields then Some(dflt)
      else if |p| == 1 then Some(fields[p[0].key])
      else RouteGet(fields[p[0].key], p[1..], dflt)
    case _ => None
  }

  /** Write a value at a path; missing keys on the way become empty objects. */
  function RouteSet(v: Value, p: Path, c: Value): Result<Value>
    requires p != []
    decreases |p|
  {
    match v
    case Arr(items) =>
      var i := FirstIndex(p[0]);
      if i >= |items| then Err(BadPath)
      else if |p| == 1 then Ok(Arr(items[i := c]))
      else
        var child :- RouteSet(items[i], p[1..], c);
        Ok(Arr(items[i := child]))
    case Obj(fields) =>
      var k := p[0].key;
      if |p| == 1 then Ok(Obj(fields[k := c]))
      else
        var child :- RouteSet(if k in fields then fields[k] else Obj(map[]), p[1..], c);
        Ok(Obj(fields[k := child]))
    case _ => Err(BadPath)
  }

  // ---- Lists --------------------------------------------------------------------------------------------

  /** The positions at which a value occurs. */
  function Positions(arr: seq<Value>, search: Value): seq<int> {
    if arr == [] then []
    else
      var init := Positions(arr[..|arr| - 1], search);
      if arr[|arr| - 1] == search then init + [|arr| - 1] else init
  }

  /** The position a recorded old value is looked up at. */
  function IndexOf(arr: seq<Value>, search: Value, input: int): int {
    if arr == [] then -1
    else if 0 <= input < |arr| && arr[input] == search then input
    else
      var found := if IsSimple(search) then Positions(arr, search) else [];
      if |found| == 1 then found[0] else input
  }

  method IndexFunc(arr: seq<Value>, search: Value, inputIndex: int) returns (r: int)
    ensures r == IndexOf(arr, search, inputIndex)
  {
    var indexes: seq<int> := [];
    if |arr| == 0 {
      return -1;
    }
    if inputIndex >= 0 && inputIndex < |arr| {
      if arr[inputIndex] == search {
        return inputIndex;
      }
    }
    if IsSimple(search) {
      for k := 0 to |arr|
        invariant indexes == Positions(arr[..k], search)
      {
        assert arr[..k + 1][..k] == arr[..k];
        if arr[k] == search {
          indexes := indexes + [k];
        }
      }
      assert arr[..|arr|] == arr;
    }
    if |indexes| == 1 {
      return indexes[0];
    }
    return inputIndex;
  }

  function ApplyListDelete(arr: seq<Value>, was: Value, index: int): seq<Value> {
    var j := IndexOf(arr, was, index);
    if 0 <= j < |arr| then RemoveAt(arr, j) else arr
  }

  function ApplyListInsert(arr: seq<Value>, v: Value, index: nat): seq<Value> {
    if index > |arr| then arr + [v] else InsertAt(arr, index, v)
  }

  /** Replace at the looked-up position, which must not be 0 and must not hold null. */
  function ApplyListReplace(arr: seq<Value>, v: Value, was: Value, index: int): seq<Value> {
    var j := IndexOf(arr, was, index);
    if 0 < j < |arr| && !arr[j].Null? then arr[j := v] else arr
  }

  /** Move an element other than the first; a target past the end appends, a negative one panics. */
  function ApplyListMove(arr: seq<Value>, to: int, index: int): Result<seq<Value>> {
    if 0 < index < |arr| && index != to then
      var rest := RemoveAt(arr, index);
      if to > |rest| then Ok(rest + [arr[index]])
      else if to < 0 then Err(Panic)
      else Ok(InsertAt(rest, to, arr[index]))
    else Ok(arr)
  }

  function ApplyToArray(arr: seq<Value>, e: PathElement, op: Operator): Result<seq<Value>> {
    var index := FirstIndex(e);
    match op
    case ListDelete(was) => Ok(ApplyListDelete(arr, was, index))
    case ListInsert(v) => Ok(ApplyListInsert(arr, v, index))
    case ListReplace(v, was) => Ok(ApplyListReplace(arr, v, was, index))
    case ListMove(to) => ApplyListMove(arr, to, index)
    case _ => Ok(arr)
  }

  // ---- Objects and subtypes -----------------------------------------------------------------------------

  function ApplyNumberAdd(target: Option<Value>, operand: Value): Result<Option<Value>> {
    if !operand.Num? then Err(InvalidOperation)
    else if target.None? || target.value.Null? then Ok(Some(operand))
    else if target.value.Num? then Ok(Some(Num(target.value.n + operand.n)))
    else Err(Panic)
  }

  function ApplySubType(st: SubType, target: Option<Value>, operand: Value): Result<Option<Value>> {
    if TypeName(st) == NUMBER_ADD then ApplyNumberAdd(target, operand)
    else if TypeName(st) == TEXT then TextOps.ApplyText(target, operand)
    else Err(InvalidOperation)
  }

  function ApplyToObject(fields: map<string, Value>, k: string, op: Operator): Result<map<string, Value>> {
    match op
    case ObjectInsert(v) => Ok(fields[k := v])
    case ObjectDelete(_) => Ok(fields - {k})
    case ObjectReplace(v, _) => Ok(fields[k := v])
    case SubTypeOp(st, operand) =>
      var r :- ApplySubType(st, if k in fields then Some(fields[k]) else None, operand);
      Ok(if r.Some? then fields[k := r.value] else fields)
    case _ => Err(UnsupportedOperator)
  }

  /** Apply an operator to a container at one of its slots. */
  function ApplyToContainer(v: Value, e: PathElement, op: Operator): Result<Value> {
    match v
    case Arr(items) =>
      var r :- ApplyToArray(items, e, op);
      Ok(Arr(r))
    case Obj(fields) =>
      var r :- ApplyToObject(fields, e.key, op);
      Ok(Obj(r))
    case _ => Err(InvalidParameter)
  }

  function ApplyToValue(v: Value, p: Path, op: Operator): Result<Value> {
    if p == [] then (if v.Arr? || v.Obj? then Err(BadPath) else Err(InvalidParameter))
    else if |p| == 1 then ApplyToContainer(v, p[0], op)
    else
      var left := p[..|p| - 1];
      match RouteGet(v, left, DefaultFor(op))
      case None => Err(InvalidParameter)
      case Some(container) =>
        var changed :- ApplyToContainer(container, p[|p| - 1], op);
        RouteSet(v, left, changed)
  }

  function ApplyToRoot(v: Value, op: Operator): Result<Value> {
    match op
    case Noop => Ok(v)
    case ListInsert(n) => Ok(n)
    case ListDelete(_) => Ok(Null)
    case ListReplace(n, _) => Ok(n)
    case ObjectInsert(n) => Ok(n)
    case ObjectDelete(_) => Ok(Null)
    case ObjectReplace(n, _) => Ok(n)
    case SubTypeOp(st, operand) =>
      var r :- ApplySubType(st, Some(v), operand);
      Ok(if r.Some? then r.value else Null)
    case ListMove(_) => Err(UnsupportedOperator)
  }

  /** Apply one component. */
  function ApplyOne(v: Value, c: Component): Result<Value> {
    if c.path == [] then ApplyToRoot(v, c.operator) else ApplyToValue(v, c.path, c.operator)
  }

  /** Apply components in order, stopping at the first failure. */
  function ApplyAll(v: Value, cs: seq<Component>): Result<Value>
    decreases |cs|
  {
    if cs == [] then Ok(v)
    else
      var w :- ApplyOne(v, cs[0]);
      ApplyAll(w, cs[1..])
  }

  /** The failure of the first component that does not validate. */
  function ValidationError(cs: seq<Component>): Option<Error> {
    if cs == [] then None
    else if ValidComponent(cs[0]) then ValidationError(cs[1..])
    else Some(if cs[0].path == [] && cs[0].operator.ListMove? then BadPath else InvalidParameter)
  }

  /** Apply an operation: every component is checked before the first one runs. */
  function ApplyOperation(v: Value, cs: seq<Component>): Result<Value> {
    var bad := ValidationError(cs);
    if bad.Some? then Err(bad.value) else ApplyAll(v, cs)
  }
}
