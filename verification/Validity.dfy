/** What it means for a component to fit a document, and which fitting components the code silently skips. */
module Validity {
  import opened Json
  import opened Operators
  import opened Transform

  /** The component names an existing container, a slot it may use there, and the value it expects to find.  A number
      in an array may be added to, which the code accepts and leaves undone. */
  predicate FitsContainer(v: Value, e: PathElement, op: Operator) {
    WfElem(e) &&
    match v
    case Arr(items) =>
      e.key == "" &&
      (match op
       case ListInsert(_) => e.index <= |items|
       case ListDelete(was) => e.index < |items| && items[e.index] == was
       case ListReplace(_, was) => e.index < |items| && items[e.index] == was
       case ListMove(to) => e.index < |items| && 0 <= to < |items|
       case SubTypeOp(_, _) => IsNumberAdd(op) && e.index < |items| && items[e.index].Num?
       case _ => false)
    case Obj(fields) =>
      e.key != "" &&
      (match op
       case ObjectInsert(_) => e.key !in fields
       case ObjectDelete(was) => e.key in fields && fields[e.key] == was
       case ObjectReplace(_, was) => e.key in fields && fields[e.key] == was
       case SubTypeOp(_, _) => IsNumberAdd(op) && e.key in fields && fields[e.key].Num?
       case _ => false)
    case _ => false
  }

  /** The component is valid on the document. */
  predicate Fits(v: Value, c: Component)
    decreases |c.path|
  {
    c.path != [] &&
    if |c.path| == 1 then FitsContainer(v, c.path[0], c.operator)
    else HasChild(v, c.path[0]) && Fits(Child(v, c.path[0]), Component(c.path[1..], c.operator))
  }

  /** A move or replacement that changes something, but that the list code leaves undone. */
  predicate Skipped(c: Component) {
    && c.path != []
    && !IsEquivalentToNoop(c)
    && (match c.operator
        case ListMove(_) => c.path[|c.path| - 1].index == 0
        case ListReplace(_, was) => c.path[|c.path| - 1].index == 0 || was.Null?
        case _ => false)
  }

  predicate NoneSkipped(cs: seq<Component>) {
    forall c :: c in cs ==> !Skipped(c)
  }

  /** A component that does something when applied to the document, and does what it says. */
  predicate Effective(v: Value, c: Component) {
    Fits(v, c) && !IsEquivalentToNoop(c) && !Skipped(c)
  }
}
