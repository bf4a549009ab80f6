/** The transformation as the code runs it: component objects whose path and operator are edited in place. */
module Transformer {
  import opened Json
  import opened Operators
  import opened Transform
  import Algebra
  import Apply

  /** The longest common prefix, found by walking both paths. */
  method MaxCommonPath(p: Path, q: Path) returns (common: Path)
    ensures common == p[..CommonLen(p, q)]
  {
    common := [];
    var i := 0;
    while i < |q|
      invariant 0 <= i <= |p| && i <= |q|
      invariant common == p[..i]
      invariant CommonLen(p, q) == i + CommonLen(p[i..], q[i..])
    {
      if i < |p| && q[i] == p[i] {
        common := common + [p[i]];
        i := i + 1;
      } else {
        break;
      }
    }
    assert CommonLen(p[i..], q[i..]) == 0;
  }

  method IsPrefixOf(p: Path, q: Path) returns (r: bool)
    ensures r == IsPrefix(p, q)
  {
    for i := 0 to |p|
      invariant i <= |q|
      invariant IsPrefix(p, q) == IsPrefix(p[i..], q[i..])
    {
      if i >= |q| {
        return false;
      }
      if !ElemEquals(p[i], q[i]) {
        return false;
      }
    }
    return true;
  }

  // ---- Operations as objects ----------------------------------------------------------------------------

  /** What the component objects of an operation hold. */
  function Values(cs: seq<OperationComponent>): (r: seq<Component>)
    reads cs
    ensures |r| == |cs| && forall i :: 0 <= i < |cs| ==> r[i] == cs[i].Value()
  {
    seq(|cs|, i requires 0 <= i < |cs| reads cs => cs[i].Value())
  }

  /** No object is in the operation twice. */
  predicate Distinct(cs: seq<OperationComponent>) {
    forall i, j :: 0 <= i < j < |cs| ==> cs[i] != cs[j]
  }

  predicate Apart(cs: seq<OperationComponent>, ds: seq<OperationComponent>) {
    forall c :: c in cs ==> c !in ds
  }

  /** New objects for the components of an operation. */
  method Build(op: seq<Component>) returns (cs: seq<OperationComponent>)
    ensures Values(cs) == op && Distinct(cs) && fresh(cs)
  {
    cs := [];
    for i := 0 to |op|
      invariant Values(cs) == op[..i] && Distinct(cs)
      invariant fresh(cs)
    {
      var c := new OperationComponent(op[i].path, op[i].operator);
      cs := cs + [c];
    }
  }

  method CloneOperation(op: seq<OperationComponent>) returns (cs: seq<OperationComponent>)
    ensures Values(cs) == Values(op) && Distinct(cs) && fresh(cs)
  {
    cs := [];
    for i := 0 to |op|
      invariant Values(cs) == Values(op)[..i] && Distinct(cs)
      invariant fresh(cs)
    {
      var c := op[i].Clone();
      cs := cs + [c];
    }
  }

  class OperationComponent {
    var path: Path
    var operator: Operator

    constructor (path: Path, operator: Operator)
      ensures Value() == Component(path, operator)
    {
      this.path, this.operator := path, operator;
    }

    function Value(): Component
      reads this
    {
      Component(path, operator)
    }

    method Clone() returns (c: OperationComponent)
      ensures fresh(c) && c.Value() == Value()
    {
      c := new OperationComponent(path, operator);
    }

    method IncreaseIndex(i: nat) returns (done: bool)
      modifies this`path
      ensures done <==> i < |old(path)| && old(path)[i].index >= 0
      ensures path == if i < |old(path)| then old(path)[i := Increased(old(path)[i])] else old(path)
    {
      if i < |path| {
        if path[i].index >= 0 {
          path := path[i := path[i].(index := path[i].index + 1)];
          return true;
        }
      }
      return false;
    }

    method DecreaseIndex(i: nat) returns (done: bool)
      modifies this`path
      ensures done <==> i < |old(path)| && old(path)[i].index > 0
      ensures path == if i < |old(path)| then old(path)[i := Decreased(old(path)[i])] else old(path)
    {
      if i < |path| {
        if path[i].index > 0 {
          path := path[i := path[i].(index := path[i].index - 1)];
          return true;
        }
      }
      return false;
    }

    /** Put a step in place of another; gives back the step that was there. */
    method ReplaceStep(i: nat, e: PathElement) returns (was: Option<PathElement>)
      modifies this`path
      ensures i < |old(path)| ==> was == Some(old(path)[i]) && path == old(path)[i := e]
      ensures i >= |old(path)| ==> was == None && path == old(path)
    {
      if i < |path| {
        was := Some(path[i]);
        path := path[i := e];
        return;
      }
      return None;
    }

    method AgainstListInsert(base: OperationComponent, side: Side) returns (out: seq<OperationComponent>)
      requires base != this && base.operator.ListInsert? && base.path != []
      modifies this
      ensures Values(out) == Transform.AgainstListInsert(old(Value()), base.Value(), side)
      ensures out == [this]
    {
      var k := |base.path| - 1;
      assert k < |path| ==> path[k := path[k]] == path;
      var sameOperand := IsSameOperand(base.Value(), Value());
      var isPrefix := IsPrefixOf(base.path, path);
      if operator.ListInsert? {
        if sameOperand && isPrefix {
          if side == Right {
            var _ := IncreaseIndex(k);
          }
          return [this];
        }
      }
      if k < |path| {
        if base.path[k].index <= path[k].index {
          var _ := IncreaseIndex(k);
        }
      }
      if operator.ListMove? {
        if sameOperand && base.path[k].index <= operator.newIndex {
          operator := ListMove(operator.newIndex + 1);
        }
      }
      return [this];
    }

    method AgainstListDelete(base: OperationComponent) returns (out: seq<OperationComponent>)
      requires base != this && base.operator.ListDelete? && base.path != [] && |path| >= |base.path|
      modifies this
      ensures Values(out) == Transform.AgainstListDelete(old(Value()), base.Value())
      ensures |out| <= 1 && (out == [] || out == [this] || fresh(out[0]))
      ensures Value()
        == if out == [] || (old(operator).ListReplace? && out[0].operator.ListInsert?) then old(Value())
           else out[0].Value()
    {
      var k := |base.path| - 1;
      assert path[k := path[k]] == path;
      var at, own := base.path[k], path[k];
      var isPrefix := IsPrefixOf(base.path, path);
      if operator.ListMove? {
        if IsSameOperand(base.Value(), Value()) {
          if isPrefix {
            return [];
          }
          var to := operator.newIndex;
          if at.index < to || (at.index == to && own.index < to) {
            operator := ListMove(to - 1);
          }
        }
      }
      if at.index < own.index {
        var _ := DecreaseIndex(k);
      } else if isPrefix {
        if !IsSameOperand(base.Value(), Value()) {
          return [];
        }
        if operator.ListDelete? {
          return [];
        }
        if operator.ListReplace? {
          var insertion := new OperationComponent(path, ListInsert(operator.newValue));
          return [insertion];
        }
      }
      return [this];
    }

    /** Rewrite the source step in place and compute the new target of a move against another move. */
    method MergeListMoveIndex(k: nat, side: Side, from: int, to: int, otherFrom: int, otherTo: int) returns (index: int)
      requires k < |path| && path[k].index == from && operator == ListMove(to)
      modifies this`path
      ensures path == old(path)[k := ShiftMoveSource(old(path)[k], otherFrom, otherTo)]
      ensures index == ShiftMoveTarget(from, to, otherFrom, otherTo, side)
    {
      index := to;
      if from > otherFrom {
        var _ := DecreaseIndex(k);
      }
      if from > otherTo {
        var _ := IncreaseIndex(k);
      } else if from == otherTo && otherFrom > otherTo {
        var _ := IncreaseIndex(k);
        if from == to {
          index := index + 1;
        }
      }
      if to > otherFrom || (to == otherFrom && to > from) {
        index := index - 1;
      }
      if to > otherTo {
        index := index + 1;
      }
      if to == otherTo {
        if (otherTo > otherFrom && to > from) || (otherTo < otherFrom && to < from) {
          if side == Right {
            index := index + 1;
          }
        } else if to > from {
          index := index + 1;
        } else if to == otherFrom {
          index := index - 1;
        }
      }
    }

    method AgainstListMove(base: OperationComponent, side: Side) returns (out: seq<OperationComponent>)
      requires base != this && base.operator.ListMove? && base.path != [] && |path| >= |base.path|
      modifies this
      ensures Values(out) == Transform.AgainstListMove(old(Value()), base.Value(), side)
      ensures out == [] || out == [this]
      ensures out == [] ==> Value() == old(Value())
    {
      var k := |base.path| - 1;
      var from, to := base.path[k], IndexElem(base.operator.newIndex);
      var p := path[k];
      assert path[k := p] == path;
      if IsSameOperand(base.Value(), Value()) {
        if operator.ListMove? {
          var dst := IndexElem(operator.newIndex);
          if from == to {
            return [this];
          }
          if p == from {
            if dst == to {
              return [];
            }
            if side == Left {
              var _ := ReplaceStep(k, to);
              if p == dst {
                operator := base.operator;
              }
              return [this];
            }
            return [];
          }
          var index := MergeListMoveIndex(k, side, p.index, dst.index, from.index, to.index);
          operator := ListMove(index);
          return [this];
        }
        if operator.ListInsert? {
          if p.index > from.index {
            var _ := DecreaseIndex(k);
          }
          if p.index > to.index {
            var _ := IncreaseIndex(k);
          }
          assert path == old(path)[k := ShiftInsertionPoint(p, from.index, to.index)];
          return [this];
        }
      }
      if p.index == from.index {
        var _ := ReplaceStep(k, to);
      } else {
        if p.index > from.index {
          var _ := DecreaseIndex(k);
        }
        if p.index > to.index || (p.index == to.index && from.index > to.index) {
          var _ := IncreaseIndex(k);
        }
      }
      assert path == old(path)[k := ShiftMove(p, from.index, to.index)];
      return [this];
    }

    /** Bring a recorded old value up to date with a change made strictly below it. */
    method Consume(common: Path, base: OperationComponent) returns (panics: bool)
      requires base != this && |common| <= |base.path|
      modifies this`operator
      ensures var r := Transform.Consume(old(Value()), |common|, base.Value());
        (panics <==> r.Err?) && Value() == if r.Ok? then r.value else old(Value())
    {
      if operator.ListDelete? || operator.ListReplace? || operator.ObjectDelete? || operator.ObjectReplace? {
        var applied := Apply.ApplyToValue(operator.oldValue, base.path[|common|..], base.operator);
        if applied.Ok? {
          operator := operator.(oldValue := applied.value);
        } else if applied.error.Panic? {
          return true;
        }
      }
      return false;
    }

    method AgainstSubType(base: OperationComponent) returns (out: seq<OperationComponent>)
      requires base.operator.SubTypeOp?
      ensures Values(out) == Transform.AgainstSubType(Value(), base.Value())
      ensures Distinct(out) && forall c :: c in out ==> c == this || fresh(c)
    {
      if !operator.SubTypeOp? || base.operator.subType != operator.subType || !base.operator.subType.NumberAdd? {
        return [this];
      }
      var c := new OperationComponent(base.path, operator);
      return [c];
    }

    method AgainstListReplace(base: OperationComponent, side: Side) returns (out: seq<OperationComponent>)
      requires base.operator.ListReplace?
      ensures Values(out) == Transform.AgainstListReplace(Value(), base.Value(), side)
      ensures Distinct(out) && forall c :: c in out ==> c == this || fresh(c)
    {
      var isPrefix := IsPrefixOf(base.path, path);
      if !isPrefix {
        return [this];
      }
      if !IsSameOperand(base.Value(), Value()) {
        return [];
      }
      if operator.ListReplace? {
        if side == Left {
          var c := new OperationComponent(path, ListReplace(operator.newValue, base.operator.newValue));
          return [c];
        }
        return [];
      }
      if operator.ListDelete? {
        return [];
      }
      return [this];
    }

    method AgainstObjectReplace(base: OperationComponent, side: Side) returns (out: seq<OperationComponent>)
      requires base.operator.ObjectReplace?
      ensures Values(out) == Transform.AgainstObjectReplace(Value(), base.Value(), side)
      ensures Distinct(out) && forall c :: c in out ==> c == this || fresh(c)
    {
      var isPrefix := IsPrefixOf(base.path, path);
      if !isPrefix {
        return [this];
      }
      if !IsSameOperand(base.Value(), Value()) {
        return [];
      }
      if operator.ObjectReplace? || operator.ObjectInsert? {
        if side == Right {
          return [];
        }
        var c := new OperationComponent(path, ObjectReplace(operator.newValue, base.operator.newValue));
        return [c];
      }
      return [];
    }

    method AgainstObjectInsert(base: OperationComponent, side: Side) returns (out: seq<OperationComponent>)
      requires base.operator.ObjectInsert?
      ensures Values(out) == Transform.AgainstObjectInsert(Value(), base.Value(), side)
      ensures Distinct(out) && forall c :: c in out ==> c == this || fresh(c)
    {
      var isPrefix := IsPrefixOf(base.path, path);
      if !isPrefix {
        return [this];
      }
      if operator.ObjectReplace? || operator.ObjectInsert? {
        if side == Right {
          return [];
        }
        if IsSameOperand(base.Value(), Value()) {
          var c := new OperationComponent(base.path, ObjectReplace(operator.newValue, base.operator.newValue));
          return [c];
        }
        var c := new OperationComponent(base.path, ObjectDelete(base.operator.newValue));
        return [c, this];
      }
      if operator.ObjectDelete? && side == Right {
        return [];
      }
      return [this];
    }

    method AgainstObjectDelete(base: OperationComponent, side: Side) returns (out: seq<OperationComponent>)
      requires base.operator.ObjectDelete?
      ensures Values(out) == Transform.AgainstObjectDelete(Value(), base.Value(), side)
      ensures Distinct(out) && forall c :: c in out ==> c == this || fresh(c)
    {
      var isPrefix := IsPrefixOf(base.path, path);
      if !isPrefix {
        return [this];
      }
      if !IsSameOperand(base.Value(), Value()) {
        return [];
      }
      if operator.ObjectReplace? || operator.ObjectInsert? {
        if side == Right {
          return [];
        }
        var c := new OperationComponent(path, ObjectInsert(operator.newValue));
        return [c];
      }
      return [];
    }

    /** The handlers that leave this component as it is. */
    method AgainstOther(base: OperationComponent, side: Side) returns (out: seq<OperationComponent>)
      requires !base.operator.ListDelete? && !base.operator.ListMove? && (base.operator.ListInsert? ==> base.path == [])
      requires !IndexPanics(Value(), base.Value(), side)
      ensures AgainstOperator(Value(), base.Value(), side) == Ok(Values(out))
      ensures Distinct(out) && forall c :: c in out ==> c == this || fresh(c)
    {
      assert Values([this]) == [Value()];
      match base.operator
      case SubTypeOp(_, _) => out := AgainstSubType(base);
      case ListReplace(_, _) => out := AgainstListReplace(base, side);
      case ObjectReplace(_, _) => out := AgainstObjectReplace(base, side);
      case ObjectInsert(_) => out := AgainstObjectInsert(base, side);
      case ObjectDelete(_) => out := AgainstObjectDelete(base, side);
      case _ => out := [this];
    }

    /** The handler for the base component's operator. */
    method AgainstBase(base: OperationComponent, side: Side) returns (out: seq<OperationComponent>)
      requires base != this && !IndexPanics(Value(), base.Value(), side)
      modifies this
      ensures AgainstOperator(old(Value()), base.Value(), side) == Ok(Values(out))
      ensures Distinct(out) && forall c :: c in out ==> c == this || fresh(c)
      ensures Value() ==
        if |out| == 1 && (base.operator.ListInsert? || base.operator.ListMove?
            || (base.operator.ListDelete? && !(old(operator).ListReplace? && out[0].operator.ListInsert?)))
        then out[0].Value() else old(Value())
    {
      if base.operator.ListInsert? && base.path != [] {
        out := AgainstListInsert(base, side);
      } else if base.operator.ListDelete? {
        out := AgainstListDelete(base);
      } else if base.operator.ListMove? {
        out := AgainstListMove(base, side);
      } else {
        out := AgainstOther(base, side);
      }
    }

    /** The inverse component; a move rewrites its own path to build it, also when it then fails. */
    method Invert() returns (inverse: Result<OperationComponent>)
      modifies this`path
      ensures match inverse
        case Ok(c) => fresh(c) && Algebra.Invert(old(Value())) == Ok(c.Value())
        case Err(e) => Algebra.Invert(old(Value())) == Err(e)
      ensures path ==
        if operator.ListMove? && old(path) != [] then old(path)[|old(path)| - 1 := IndexElem(operator.newIndex)]
        else old(path)
    {
      var inverted: Operator;
      match operator {
        case Noop => inverted := Noop;
        case SubTypeOp(st, operand) =>
          var op := Algebra.InvertSubType(st, operand);
          if op.Err? {
            return Err(op.error);
          }
          inverted := op.value;
        case ListInsert(v) => inverted := ListDelete(v);
        case ListDelete(was) => inverted := ListInsert(was);
        case ListReplace(v, was) => inverted := ListReplace(was, v);
        case ListMove(to) =>
          if |path| == 0 {
            return Err(Panic);
          }
          var was := ReplaceStep(|path| - 1, IndexElem(to));
          if was.value.index == 0 {
            return Err(BadPath);
          }
          inverted := ListMove(was.value.index);
        case ObjectInsert(v) => inverted := ObjectDelete(v);
        case ObjectDelete(was) => inverted := ObjectInsert(was);
        case ObjectReplace(v, was) => inverted := ObjectReplace(was, v);
      }
      var c := new OperationComponent(path, inverted);
      return Ok(c);
    }

    /** Transform this component against a base one; what comes back replaces it. */
    method TransformAgainst(base: OperationComponent, side: Side) returns (out: Result<seq<OperationComponent>>)
      requires base != this
      modifies this
      ensures match out
        case Ok(cs) => TransformComponent(old(Value()), base.Value(), side) == Ok(Values(cs))
        case Err(e) => TransformComponent(old(Value()), base.Value(), side) == Err(e)
      ensures out.Ok? ==> Distinct(out.value) && forall c :: c in out.value ==> c == this || fresh(c)
      ensures Value() == Mutated(old(Value()), base.Value(), side)
    {
      assert Values([this]) == [Value()];
      if IsEquivalentToNoop(Value()) || IsEquivalentToNoop(base.Value()) {
        return Ok([this]);
      }
      var common := MaxCommonPath(base.path, path);
      var own, other := OperatePathLen(Value()), OperatePathLen(base.Value());
      if |common| < own && |common| < other {
        return Ok([this]);
      }
      if other > own {
        var isPrefix := IsPrefixOf(path, base.path);
        if isPrefix {
          var panics := Consume(common, base);
          if panics {
            return Err(Panic);
          }
        }
        assert Values([this]) == [Value()];
        return Ok([this]);
      }
      if IndexPanics(Value(), base.Value(), side) {
        return Err(Panic);
      }
      var r := AgainstBase(base, side);
      return Ok(r);
    }
  }

  // ---- Whole operations ---------------------------------------------------------------------------------

  method TransformCopies(n: OperationComponent, b: OperationComponent, side: Side)
    returns (out: Result<seq<OperationComponent>>)
    ensures match out
      case Ok(cs) => TransformComponent(n.Value(), b.Value(), side) == Ok(Values(cs))
      case Err(e) => TransformComponent(n.Value(), b.Value(), side) == Err(e)
    ensures out.Ok? ==> Distinct(out.value) && fresh(out.value)
  {
    var newOp := n.Clone();
    var baseOp := b.Clone();
    out := newOp.TransformAgainst(baseOp, side);
    assert out.Ok? ==> forall i :: 0 <= i < |out.value| ==> out.value[i] in out.value;
  }

  /** Transform two single components: each side works on its own clones. */
  method TransformPair(left: OperationComponent, right: OperationComponent)
    returns (l: Result<seq<OperationComponent>>, r: Result<seq<OperationComponent>>)
    ensures match l
      case Ok(cs) => TransformComponent(left.Value(), right.Value(), Left) == Ok(Values(cs))
      case Err(e) => TransformComponent(left.Value(), right.Value(), Left) == Err(e)
    ensures match r
      case Ok(cs) => TransformComponent(right.Value(), left.Value(), Right) == Ok(Values(cs))
      case Err(e) => TransformComponent(right.Value(), left.Value(), Right) == Err(e)
    ensures l.Ok? ==> Distinct(l.value) && fresh(l.value)
    ensures r.Ok? ==> Distinct(r.value) && fresh(r.value)
  {
    l := TransformCopies(left, right, Left);
    r := TransformCopies(right, left, Right);
  }

  /** The base component once a first component and it have been transformed against each other in place. */
  function WorkedOver(n: Component, b: Component): Result<Component> {
    var _ :- TransformComponent(n, b, Left);
    var _ :- TransformComponent(b, Mutated(n, b, Left), Right);
    Ok(Mutated(b, Mutated(n, b, Left), Right))
  }

  /** How many components a transformation for the right side gives. */
  function Pieces(n: Component, b: Component): nat {
    var r := TransformComponent(b, n, Right);
    if r.Ok? then |r.value| else 0
  }

  /** A function that counts them; the loop below knows the count only by its name. */
  ghost predicate Counts(pieces: (Component, Component) -> nat) {
    forall n, b {:trigger Pieces(n, b)} :: pieces(n, b) == Pieces(n, b)
  }

  lemma {:induction false} CountOf() returns (pieces: (Component, Component) -> nat)
    ensures Counts(pieces)
  {
    pieces := (n, b) => Pieces(n, b);
  }

  /** On the right side no component is ever split in two. */
  lemma {:induction false} NeverSplit(pieces: (Component, Component) -> nat)
    requires Counts(pieces)
    ensures forall n, b :: pieces(n, b) <= 1
  {
    forall n, b ensures pieces(n, b) <= 1 {
      assert pieces(n, b) == Pieces(n, b);
    }
  }

  /** Transform a component and a base one against each other in place, first the one and then the other. */
  method WorkOver(op: OperationComponent, base: OperationComponent,
      ghost pieces: (Component, Component) -> nat)
    returns (a: Result<seq<OperationComponent>>, b: Result<seq<OperationComponent>>)
    requires op != base && Counts(pieces)
    modifies op, base
    ensures match WorkedOver(old(op.Value()), old(base.Value()))
      case Ok(w) => a.Ok? && b.Ok? && base.Value() == w
      case Err(e) => (a == Err(e) && b == Err(e)) || (a.Ok? && b == Err(e))
    ensures b.Ok? ==> a.Ok? && forall c :: c in b.value ==> c == base || fresh(c)
    ensures b.Ok? ==> exists n, w :: pieces(n, w) == |b.value|
  {
    a := op.TransformAgainst(base, Left);
    if a.Err? {
      return a, a;
    }
    ghost var n, was := op.Value(), base.Value();
    b := base.TransformAgainst(op, Right);
    assert pieces(n, was) == Pieces(n, was);
  }

  /** Transform the components of an operation against one base component in turn.  The loop goes on only after a
      transformation that gives two components, which never happens on the right side, so it leaves the first
      component behind without keeping it. */
  method TransformMulti(operation: seq<OperationComponent>, baseOperation: OperationComponent)
    returns (newOp: Result<seq<OperationComponent>>)
    requires Distinct(operation) && baseOperation !in operation
    modifies operation, baseOperation
    ensures operation == [] ==> newOp == Ok([]) && baseOperation.Value() == old(baseOperation.Value())
    ensures operation != [] ==>
      match WorkedOver(old(operation[0].Value()), old(baseOperation.Value()))
      case Ok(b) => newOp == Ok([]) && baseOperation.Value() == b
      case Err(e) => newOp == Err(e)
  {
    ghost var pieces := CountOf();
    var out: seq<OperationComponent> := [];
    var base := baseOperation;
    var i := 0;
    while i < |operation|
      invariant 0 <= i <= |operation|
      invariant base !in operation && (base == baseOperation || fresh(base))
      invariant i == 0 ==> out == [] && base == baseOperation && base.Value() == old(baseOperation.Value())
      invariant i == 0 && operation != [] ==> operation[0].Value() == old(operation[0].Value())
      invariant i > 0 ==> exists n, w :: pieces(n, w) > 1
    {
      var a, b := WorkOver(operation[i], base, pieces);
      if b.Err? {
        NeverSplit(pieces);
        return Err(b.error);
      }
      if |b.value| <= 1 {
        break;
      }
      assert b.value[0] in b.value;
      base := b.value[0];
      out := out + a.value;
      i := i + 1;
    }
    NeverSplit(pieces);
    return Ok(out);
  }

  /** Transform an operation against the components of a base operation in turn; what comes back on both sides is the
      base. */
  method TransformMatrix(operation: seq<OperationComponent>, base: seq<OperationComponent>)
    returns (left: Result<seq<OperationComponent>>, right: Result<seq<OperationComponent>>)
    requires operation != [] && base != []
    requires Distinct(operation) && Distinct(base) && Apart(operation, base)
    modifies operation, base
    ensures match WorkedOver(old(operation[0].Value()), old(base[0].Value()))
      case Ok(b) => left == right == Ok(base) && Values(base) == [b] + old(Values(base))[1..]
      case Err(e) => left == right == Err(e)
  {
    var outB: seq<OperationComponent> := [];
    var ops := operation;
    ghost var first := WorkedOver(operation[0].Value(), base[0].Value());
    for j := 0 to |base|
      invariant outB == base[..j]
      invariant ops == if j == 0 then operation else []
      invariant j == 0 ==> operation[0].Value() == old(operation[0].Value()) && base[0].Value() == old(base[0].Value())
      invariant j > 0 ==> first == Ok(base[0].Value())
      invariant forall k :: 1 <= k < |base| ==> base[k].Value() == old(base[k].Value())
    {
      assert forall k :: 0 <= k < |base| && k != j ==> base[k] != base[j] && base[k] !in ops;
      var a := TransformMulti(ops, base[j]);
      if a.Err? {
        return Err(a.error), Err(a.error);
      }
      ops := a.value;
      outB := outB + [base[j]];
    }
    assert outB == base && Values(base)[1..] == old(Values(base))[1..];
    return Ok(outB), Ok(base);
  }

  /** Transform two operations against each other. */
  method TransformOperations(operation: seq<OperationComponent>, base: seq<OperationComponent>)
    returns (left: Result<seq<OperationComponent>>, right: Result<seq<OperationComponent>>)
    requires Distinct(operation) && Distinct(base) && Apart(operation, base)
    modifies operation, base
    ensures match TransformOperation(old(Values(operation)), old(Values(base)))
      case Ok((l, r)) => left.Ok? && right.Ok? && Values(left.value) == l && Values(right.value) == r
      case Err(e) => left == right == Err(e)
    ensures left.Ok? ==> Distinct(left.value) && forall c :: c in left.value ==> c in operation || c in base || fresh(c)
  {
    if |base| == 0 {
      return Ok(operation), Ok([]);
    }
    var bad := Apply.ValidationError(Values(operation));
    if bad.Some? {
      return Err(bad.value), Err(bad.value);
    }
    bad := Apply.ValidationError(Values(base));
    if bad.Some? {
      return Err(bad.value), Err(bad.value);
    }
    if |operation| == 0 {
      return Ok(operation), Ok(base);
    }
    if |operation| == 1 && |base| == 1 {
      left, right := TransformPair(operation[0], base[0]);
      if left.Err? {
        return left, left;
      }
      if right.Err? {
        return right, right;
      }
      return;
    }
    left, right := TransformMatrix(operation, base);
  }
}
