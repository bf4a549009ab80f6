/** Transforming one component against a concurrent one. */
module Transform {
  import opened Json
  import opened Operators
  import Apply

  datatype Side = Left | Right

  // ---- Paths --------------------------------------------------------------------------------------------

  /** The length of the longest common prefix of two paths. */
  function CommonLen(p: Path, q: Path): (n: nat)
    ensures n <= |p| && n <= |q| && p[..n] == q[..n]
  {
    if p == [] || q == [] || p[0] != q[0] then 0 else 1 + CommonLen(p[1..], q[1..])
  }

  predicate IsPrefix(p: Path, q: Path) {
    p == [] || (q != [] && ElemEquals(p[0], q[0]) && IsPrefix(p[1..], q[1..]))
  }

  function Increased(e: PathElement): PathElement {
    if e.index >= 0 then e.(index := e.index + 1) else e
  }

  function Decreased(e: PathElement): PathElement {
    if e.index > 0 then e.(index := e.index - 1) else e
  }

  // ---- Comparing components -----------------------------------------------------------------------------

  predicate IsEquivalentToNoop(c: Component) {
    match c.operator
    case Noop => true
    case ListReplace(n, o) => n == o
    case ObjectReplace(n, o) => n == o
    case ListMove(to) => c.path != [] && c.path[|c.path| - 1].index == to
    case _ => false
  }

  predicate IsSameOperand(a: Component, b: Component) {
    !a.operator.SubTypeOp? && !b.operator.SubTypeOp? && |a.path| == |b.path|
  }

  // ---- Where an index goes ------------------------------------------------------------------------------

  /** Where a step goes when an element is inserted in front of index `at`. */
  function ShiftInsert(e: PathElement, at: int): PathElement {
    if at <= e.index then Increased(e) else e
  }

  /** Where a step goes when the element at `at` is deleted. */
  function ShiftDelete(e: PathElement, at: int): PathElement {
    if at < e.index then Decreased(e) else e
  }

  /** Where a step goes when the element at `from` moves to `to`. */
  function ShiftMove(e: PathElement, from: int, to: int): PathElement {
    if e.index == from then IndexElem(to)
    else
      var d := if e.index > from then Decreased(e) else e;
      if e.index > to || (e.index == to && from > to) then Increased(d) else d
  }

  /** Where an insertion point goes when the element at `from` moves to `to`. */
  function ShiftInsertionPoint(e: PathElement, from: int, to: int): PathElement {
    var d := if e.index > from then Decreased(e) else e;
    if e.index > to then Increased(d) else d
  }

  /** Where the source of a move goes when another element moves from `from` to `to`. */
  function ShiftMoveSource(e: PathElement, from: int, to: int): PathElement {
    var d := if e.index > from then Decreased(e) else e;
    if e.index > to || (e.index == to && from > to) then Increased(d) else d
  }

  /** Where the target of a move from `src` to `dst` goes when another element moves from `from` to `to`. */
  function ShiftMoveTarget(src: int, dst: int, from: int, to: int, side: Side): int {
    var a := if src == to && from > to && src == dst then 1 else 0;
    var b := if dst > from || (dst == from && dst > src) then -1 else 0;
    var c := if dst > to then 1 else 0;
    var d :=
      if dst != to then 0
      else if (to > from && dst > src) || (to < from && dst < src) then (if side == Right then 1 else 0)
      else if dst > src then 1
      else if dst == from then -1
      else 0;
    dst + a + b + c + d
  }

  // ---- The cases by the operator of the base component --------------------------------------------------

  function AgainstSubType(n: Component, b: Component): seq<Component>
    requires b.operator.SubTypeOp?
  {
    if n.operator.SubTypeOp? && n.operator.subType == NumberAdd == b.operator.subType
    then [Component(b.path, n.operator)]
    else [n]
  }

  function AgainstListReplace(n: Component, b: Component, side: Side): seq<Component>
    requires b.operator.ListReplace?
  {
    if !IsPrefix(b.path, n.path) then [n]
    else if !IsSameOperand(b, n) then []
    else match n.operator
      case ListReplace(v, _) =>
        if side == Left then [Component(n.path, ListReplace(v, b.operator.newValue))] else []
      case ListDelete(_) => []
      case _ => [n]
  }

  /** The step and operator a component is left with when an element is inserted at `at`. */
  function InsertStep(e: PathElement, op: Operator, same: bool, prefix: bool, at: int, side: Side)
    : (PathElement, Operator)
  {
    if op.ListInsert? && same && prefix then (if side == Right then Increased(e) else e, op)
    else (ShiftInsert(e, at), if op.ListMove? && same && at <= op.newIndex then ListMove(op.newIndex + 1) else op)
  }

  function AgainstListInsert(n: Component, b: Component, side: Side): seq<Component>
    requires b.operator.ListInsert? && b.path != []
  {
    var k := |b.path| - 1;
    if k >= |n.path| then [n]
    else
      var same, beneath := IsSameOperand(b, n), IsPrefix(b.path, n.path);
      var (g, op) := InsertStep(n.path[k], n.operator, same, beneath, b.path[k].index, side);
      [Component(n.path[k := g], op)]
  }

  /** The step and operator a component is left with when the element at `at` is deleted; None when it is dropped. */
  function DeleteStep(e: PathElement, op: Operator, same: bool, prefix: bool, at: int)
    : Option<(PathElement, Operator)>
  {
    if op.ListMove? && same then
      if prefix then None
      else
        var to := op.newIndex;
        Some((ShiftDelete(e, at), ListMove(if at < to || (at == to && e.index < to) then to - 1 else to)))
    else if at < e.index then Some((Decreased(e), op))
    else if prefix && (!same || op.ListDelete?) then None
    else if prefix && op.ListReplace? then Some((e, ListInsert(op.newValue)))
    else Some((e, op))
  }

  function AgainstListDelete(n: Component, b: Component): seq<Component>
    requires b.operator.ListDelete? && b.path != [] && |n.path| >= |b.path|
  {
    var k := |b.path| - 1;
    match DeleteStep(n.path[k], n.operator, IsSameOperand(b, n), IsPrefix(b.path, n.path), b.path[k].index)
    case None => []
    case Some((g, op)) => [Component(n.path[k := g], op)]
  }

  /** The step and operator a component is left with when the element at `from` moves to `to`;
      None when it is dropped. */
  function MoveStep(e: PathElement, op: Operator, same: bool, from: PathElement, to: int, side: Side)
    : Option<(PathElement, Operator)>
  {
    if same && op.ListMove? then
      var dst := op.newIndex;
      if from == IndexElem(to) then Some((e, op))
      else if e == from then
        if dst == to || side == Right then None
        else Some((IndexElem(to), if e == IndexElem(dst) then ListMove(to) else op))
      else Some((ShiftMoveSource(e, from.index, to), ListMove(ShiftMoveTarget(e.index, dst, from.index, to, side))))
    else if same && op.ListInsert? then Some((ShiftInsertionPoint(e, from.index, to), op))
    else Some((ShiftMove(e, from.index, to), op))
  }

  function AgainstListMove(n: Component, b: Component, side: Side): seq<Component>
    requires b.operator.ListMove? && b.path != [] && |n.path| >= |b.path|
  {
    var k := |b.path| - 1;
    match MoveStep(n.path[k], n.operator, IsSameOperand(b, n), b.path[k], b.operator.newIndex, side)
    case None => []
    case Some((g, op)) => [Component(n.path[k := g], op)]
  }

  function AgainstObjectReplace(n: Component, b: Component, side: Side): seq<Component>
    requires b.operator.ObjectReplace?
  {
    if !IsPrefix(b.path, n.path) then [n]
    else if IsSameOperand(b, n) && (n.operator.ObjectReplace? || n.operator.ObjectInsert?) && side == Left then
      [Component(n.path, ObjectReplace(n.operator.newValue, b.operator.newValue))]
    else []
  }

  function AgainstObjectInsert(n: Component, b: Component, side: Side): seq<Component>
    requires b.operator.ObjectInsert?
  {
    if !IsPrefix(b.path, n.path) then [n]
    else if n.operator.ObjectReplace? || n.operator.ObjectInsert? then
      if side == Right then []
      else if IsSameOperand(b, n) then
        [Component(b.path, ObjectReplace(n.operator.newValue, b.operator.newValue))]
      else [Component(b.path, ObjectDelete(b.operator.newValue)), n]
    else if n.operator.ObjectDelete? && side == Right then []
    else [n]
  }

  function AgainstObjectDelete(n: Component, b: Component, side: Side): seq<Component>
    requires b.operator.ObjectDelete?
  {
    if !IsPrefix(b.path, n.path) then [n]
    else if IsSameOperand(b, n) && (n.operator.ObjectReplace? || n.operator.ObjectInsert?) && side == Left then
      [Component(n.path, ObjectInsert(n.operator.newValue))]
    else []
  }

  /** The base acts strictly below a recorded old value: bring that value up to date. */
  function Consume(n: Component, common: nat, b: Component): Result<Component>
    requires common <= |b.path|
  {
    if n.operator.ListDelete? || n.operator.ListReplace? || n.operator.ObjectDelete? || n.operator.ObjectReplace? then
      match Apply.ApplyToValue(n.operator.oldValue, b.path[common..], b.operator)
      case Ok(v) => Ok(n.(operator := n.operator.(oldValue := v)))
      case Err(e) => if e.Panic? then Err(Panic) else Ok(n)
    else Ok(n)
  }

  /** A list operator works at the root, where the code indexes the path at -1, or past the end of the other path. */
  predicate IndexPanics(n: Component, b: Component, side: Side) {
    match b.operator
    case ListInsert(_) => b.path == [] && !(n.operator.ListInsert? && n.path == [] && side == Left)
    case ListDelete(_) => b.path == [] || |n.path| < |b.path|
    case ListMove(_) => b.path == [] || |n.path| < |b.path|
    case _ => false
  }

  function AgainstOperator(n: Component, b: Component, side: Side): Result<seq<Component>> {
    if IndexPanics(n, b, side) then Err(Panic)
    else match b.operator
      case Noop => Ok([n])
      case SubTypeOp(_, _) => Ok(AgainstSubType(n, b))
      case ListReplace(_, _) => Ok(AgainstListReplace(n, b, side))
      case ListInsert(_) => if b.path == [] then Ok([n]) else Ok(AgainstListInsert(n, b, side))
      case ListDelete(_) => Ok(AgainstListDelete(n, b))
      case ListMove(_) => Ok(AgainstListMove(n, b, side))
      case ObjectReplace(_, _) => Ok(AgainstObjectReplace(n, b, side))
      case ObjectInsert(_) => Ok(AgainstObjectInsert(n, b, side))
      case ObjectDelete(_) => Ok(AgainstObjectDelete(n, b, side))
  }

  /** How the base lies with respect to the component: elsewhere, strictly below what it records, or in its way. */
  datatype Meeting = Apart | Below | InTheWay

  function Meet(n: Component, b: Component): Meeting {
    var common, own, other := CommonLen(b.path, n.path), OperatePathLen(n), OperatePathLen(b);
    if IsEquivalentToNoop(n) || IsEquivalentToNoop(b) then Apart
    else if common < own && common < other then Apart
    else if other > own then (if IsPrefix(n.path, b.path) then Below else Apart)
    else InTheWay
  }

  /** The components that replace `n` once `b` has been applied. */
  function TransformComponent(n: Component, b: Component, side: Side): Result<seq<Component>> {
    match Meet(n, b)
    case Apart => Ok([n])
    case Below =>
      var c :- Consume(n, CommonLen(b.path, n.path), b);
      Ok([c])
    case InTheWay => AgainstOperator(n, b, side)
  }

  // ---- Whole operations ---------------------------------------------------------------------------------

  /** What the code leaves in the component object it was given: list handlers and Consume edit it in place. */
  function Mutated(n: Component, b: Component, side: Side): Component {
    var out := TransformComponent(n, b, side);
    if out.Err? || |out.value| != 1 then n
    else
      match Meet(n, b)
      case Apart => n
      case Below => out.value[0]
      case InTheWay =>
        if b.operator.ListInsert? || b.operator.ListMove?
          || (b.operator.ListDelete? && !(n.operator.ListReplace? && out.value[0].operator.ListInsert?))
        then out.value[0] else n
  }

  /** Transform an operation and a concurrent base operation against each other.  Two single components are
      transformed; with more, what comes back on both sides is the base, its first component edited in place. */
  function TransformOperation(op: seq<Component>, base: seq<Component>): Result<(seq<Component>, seq<Component>)> {
    if base == [] then Ok((op, []))
    else if Apply.ValidationError(op).Some? then Err(Apply.ValidationError(op).value)
    else if Apply.ValidationError(base).Some? then Err(Apply.ValidationError(base).value)
    else if op == [] then Ok((op, base))
    else if |op| == 1 && |base| == 1 then
      var left :- TransformComponent(op[0], base[0], Left);
      var right :- TransformComponent(base[0], op[0], Right);
      Ok((left, right))
    else
      var _ :- TransformComponent(op[0], base[0], Left);
      var edited := Mutated(op[0], base[0], Left);
      var _ :- TransformComponent(base[0], edited, Right);
      var result := [Mutated(base[0], edited, Right)] + base[1..];
      Ok((result, result))
  }
}
