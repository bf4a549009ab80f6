/** Inverting, merging and composing operations. */
module Algebra {
  import opened Json
  import opened Operators
  import opened Transform
  import TextOps

  // ---- Invert -------------------------------------------------------------------------------------------

  function InvertSubType(st: SubType, operand: Value): Result<Operator> {
    if TypeName(st) == NUMBER_ADD then
      (if operand.Num? then Ok(SubTypeOp(st, Num(-operand.n))) else Err(Panic))
    else if TypeName(st) == TEXT then
      match TextOps.EditFromValue(operand)
      case Err(_) => Err(Panic)
      case Ok(e) =>
        if e.insert.Some? then Ok(SubTypeOp(st, TextOps.EditToValue(TextOps.Edit(e.offset, None, e.insert))))
        else if e.delete.Some? then Ok(SubTypeOp(st, TextOps.EditToValue(TextOps.Edit(e.offset, e.delete, None))))
        else Err(Panic)
    else Err(InvalidOperation)
  }

  /** The component that undoes another; a move out of index 0 has none. */
  function Invert(c: Component): Result<Component> {
    match c.operator
    case Noop => Ok(c)
    case SubTypeOp(st, operand) =>
      var op :- InvertSubType(st, operand);
      Ok(Component(c.path, op))
    case ListInsert(v) => Ok(Component(c.path, ListDelete(v)))
    case ListDelete(was) => Ok(Component(c.path, ListInsert(was)))
    case ListReplace(v, was) => Ok(Component(c.path, ListReplace(was, v)))
    case ListMove(to) =>
      if c.path == [] then Err(Panic)
      else
        var k := |c.path| - 1;
        if c.path[k].index != 0 then Ok(Component(c.path[k := IndexElem(to)], ListMove(c.path[k].index)))
        else Err(BadPath)
    case ObjectInsert(v) => Ok(Component(c.path, ObjectDelete(v)))
    case ObjectDelete(was) => Ok(Component(c.path, ObjectInsert(was)))
    case ObjectReplace(v, was) => Ok(Component(c.path, ObjectReplace(was, v)))
  }

  /** The inverses of the components, last one first. */
  function InvertAll(cs: seq<Component>): Result<seq<Component>> {
    if cs == [] then Ok([])
    else
      var last :- Invert(cs[|cs| - 1]);
      var rest :- InvertAll(cs[..|cs| - 1]);
      Ok([last] + rest)
  }

  // ---- Merge --------------------------------------------------------------------------------------------

  function MergeSubType(st: SubType, operand: Value, other: Operator): Option<Operator> {
    if !other.SubTypeOp? then None
    else if TypeName(st) == NUMBER_ADD then
      (if operand.Num? && other.operand.Num?
       then Some(SubTypeOp(NumberAdd, Num(operand.n + other.operand.n))) else None)
    else if TypeName(st) == TEXT then
      match TextOps.MergeText(operand, other.operand)
      case Some(v) => Some(SubTypeOp(Text, v))
      case None => None
    else None
  }

  /** One operator that stands for two at the same path, when the code has one.  A replacement followed by a deletion
      merges only when the recorded values are one object in memory: then `shared` holds. */
  function Merge(a: Operator, b: Operator, shared: bool := false): Option<Operator> {
    match (a, b)
    case (Noop, _) => Some(Noop)
    case (SubTypeOp(st, operand), _) => MergeSubType(st, operand, b)
    case (ListInsert(v), ListDelete(was)) => if v == was then Some(Noop) else None
    case (ListInsert(v), ListReplace(w, was)) => if v == was then Some(ListInsert(w)) else None
    case (ListReplace(v, first), ListReplace(w, was)) => if v == was then Some(ListReplace(w, first)) else None
    case (ListReplace(v, first), ListDelete(was)) => if shared && v == was then Some(ListDelete(first)) else None
    case (ObjectInsert(v), ObjectDelete(was)) => if v == was then Some(Noop) else None
    case (ObjectInsert(v), ObjectReplace(w, was)) => if v == was then Some(ObjectInsert(w)) else None
    case (ObjectDelete(first), ObjectInsert(w)) => Some(ObjectReplace(w, first))
    case (ObjectReplace(v, first), ObjectDelete(was)) => if v == was then Some(ObjectDelete(first)) else None
    case (ObjectReplace(v, first), ObjectReplace(w, was)) => if v == was then Some(ObjectReplace(w, first)) else None
    case _ => None
  }

  /** A move onto its own index is not recorded. */
  predicate Dropped(c: Component) {
    c.operator.ListMove? && c.path != [] && c.path[|c.path| - 1].index == c.operator.newIndex
  }

  /** The components after appending one: dropped, merged into the last one, or added. */
  function Appended(cs: seq<Component>, c: Component, shared: bool := false): seq<Component> {
    if Dropped(c) then cs
    else if cs != [] && cs[|cs| - 1].path == c.path && Merge(cs[|cs| - 1].operator, c.operator, shared).Some? then
      cs[..|cs| - 1] + [Component(c.path, Merge(cs[|cs| - 1].operator, c.operator, shared).value)]
    else cs + [c]
  }

  /** Appending one operation to another whose recorded values are other objects in memory. */
  function Composed(a: seq<Component>, b: seq<Component>): seq<Component>
    decreases |b|
  {
    if b == [] then a else Composed(Appended(a, b[0]), b[1..])
  }

  lemma {:induction false} ComposeInTwo(a: seq<Component>, b: seq<Component>, c: seq<Component>)
    ensures Composed(Composed(a, b), c) == Composed(a, b + c)
    decreases |b|
  {
    if b == [] {
      assert b + c == c;
    } else {
      assert (b + c)[0] == b[0] && (b + c)[1..] == b[1..] + c;
      ComposeInTwo(Appended(a, b[0]), b[1..], c);
    }
  }

  // ---- What merges --------------------------------------------------------------------------------------

  /** The value an edit leaves in its slot. */
  function LeavesValue(op: Operator): Option<Value> {
    match op
    case ListInsert(v) => Some(v)
    case ListReplace(v, _) => Some(v)
    case ObjectInsert(v) => Some(v)
    case ObjectReplace(v, _) => Some(v)
    case _ => None
  }

  /** The value an edit records as found in its slot. */
  function FindsValue(op: Operator): Option<Value> {
    match op
    case ListDelete(was) => Some(was)
    case ListReplace(_, was) => Some(was)
    case ObjectDelete(was) => Some(was)
    case ObjectReplace(_, was) => Some(was)
    case _ => None
  }

  predicate SameContainer(a: Operator, b: Operator) {
    (IsListOp(a) && IsListOp(b)) || (IsObjectOp(a) && IsObjectOp(b))
  }

  /** Two edits of one slot merge exactly when the second finds what the first left there, or puts a key back that the
      first deleted; a list replacement and the deletion of what it put in only when that is one object in memory.
      The merged edit finds what the first found and leaves what the second leaves. */
  lemma {:induction false} MergesWhatMeets(a: Operator, b: Operator, shared: bool)
    requires !a.Noop? && !a.SubTypeOp?
    ensures Merge(a, b, shared).Some? <==>
      || (SameContainer(a, b) && LeavesValue(a).Some? && FindsValue(b) == LeavesValue(a)
          && (a.ListReplace? && b.ListDelete? ==> shared))
      || (a.ObjectDelete? && b.ObjectInsert?)
    ensures Merge(a, b, shared).Some? ==>
      var m := Merge(a, b, shared).value;
      && FindsValue(m) == FindsValue(a) && LeavesValue(m) == LeavesValue(b)
      && (m.Noop? <==> FindsValue(a).None? && LeavesValue(b).None?) && (!m.Noop? ==> SameContainer(m, a))
  {
  }

  /** Two sums merge to their sum, and two text insertions when the second goes into what the first put in. */
  lemma {:induction false} SubTypesMerge(st: SubType, a: Value, b: Operator)
    requires b.SubTypeOp?
    ensures TypeName(st) == NUMBER_ADD && a.Num? && b.operand.Num? ==>
      Merge(SubTypeOp(st, a), b) == Some(SubTypeOp(NumberAdd, Num(a.n + b.operand.n)))
    ensures TypeName(st) == TEXT && TextOps.IsTextInsertion(a) && TextOps.IsTextInsertion(b.operand) ==>
      var p, q := a.fields["p"].n, b.operand.fields["p"].n;
      && (Merge(SubTypeOp(st, a), b).Some? <==> p <= q <= p + |a.fields["i"].s|)
      && (Merge(SubTypeOp(st, a), b).Some? ==> Merge(SubTypeOp(st, a), b).value.subType == Text)
    ensures !(TypeName(st) in {NUMBER_ADD, TEXT}) ==> Merge(SubTypeOp(st, a), b).None?
  {
    assert NUMBER_ADD[0] == 'n' && TEXT[0] == 't';
  }

  /** A move onto its own index is not recorded; any other component that does not merge with the last one goes behind
      it, and one that does takes its place. */
  lemma {:induction false} AppendsOne(cs: seq<Component>, c: Component, shared: bool)
    ensures var out := Appended(cs, c, shared);
      if c.operator.ListMove? && c.path != [] && c.path[|c.path| - 1].index == c.operator.newIndex then out == cs
      else if cs != [] && cs[|cs| - 1].path == c.path && Merge(cs[|cs| - 1].operator, c.operator, shared).Some? then
        |out| == |cs| && out[..|cs| - 1] == cs[..|cs| - 1] && out[|cs| - 1].path == c.path
      else out == cs + [c]
  {
  }

  /** An operation under construction: its list of components is edited in place. */
  class Operation {
    var components: seq<Component>

    constructor ()
      ensures components == []
    {
      components := [];
    }

    method Append(c: Component, shared: bool := false)
      modifies this
      ensures components == Appended(old(components), c, shared)
    {
      if c.operator.ListMove? {
        if c.path != [] && c.path[|c.path| - 1].index == c.operator.newIndex {
          return;
        }
      }
      if |components| == 0 {
        components := components + [c];
        return;
      }
      var last := components[|components| - 1];
      if last.path == c.path {
        var merged := Merge(last.operator, c.operator, shared);
        if merged.Some? {
          components := components[..|components| - 1];
          components := components + [Component(last.path, merged.value)];
        } else {
          components := components + [c];
        }
      } else {
        components := components + [c];
      }
    }

    method Compose(other: seq<Component>)
      modifies this
      ensures components == Composed(old(components), other)
    {
      for i := 0 to |other|
        invariant Composed(components, other[i..]) == Composed(old(components), other)
      {
        Append(other[i]);
      }
    }
  }
}
