/** Operators, operation components, and what a component says about the path it works at. */
module Operators {
  import opened Json

  datatype SubType = NumberAdd | Text | Custom(name: string)

  const NUMBER_ADD := "na"
  const TEXT := "text"

  function TypeName(st: SubType): string {
    match st
    case NumberAdd => NUMBER_ADD
    case Text => TEXT
    case Custom(name) => name
  }

  datatype Operator =
    | Noop
    | ListInsert(newValue: Value)
    | ListDelete(oldValue: Value)
    | ListReplace(newValue: Value, oldValue: Value)
    | ListMove(newIndex: int)
    | ObjectInsert(newValue: Value)
    | ObjectDelete(oldValue: Value)
    | ObjectReplace(newValue: Value, oldValue: Value)
    | SubTypeOp(subType: SubType, operand: Value)

  datatype Component = Component(path: Path, operator: Operator)

  /** How many steps lead to the container the component changes; a subtype changes the value at its own path. */
  function OperatePathLen(c: Component): int {
    if c.operator.SubTypeOp? then |c.path| else |c.path| - 1
  }

  predicate IsListOp(op: Operator) {
    op.ListInsert? || op.ListDelete? || op.ListReplace? || op.ListMove?
  }

  predicate IsObjectOp(op: Operator) {
    op.ObjectInsert? || op.ObjectDelete? || op.ObjectReplace?
  }

  /** A number-add of an integer. */
  predicate IsNumberAdd(op: Operator) {
    op.SubTypeOp? && TypeName(op.subType) == NUMBER_ADD && op.operand.Num?
  }

  /** The check every component passes before it is applied or transformed. */
  predicate ValidComponent(c: Component) {
    && (c.path == [] ==> !c.operator.ListMove?)
    && (c.operator.ListMove? ==> c.operator.newIndex >= 0)
  }

  predicate ValidOperation(cs: seq<Component>) {
    forall i :: 0 <= i < |cs| ==> ValidComponent(cs[i])
  }
}
