/** JSON documents, paths into them, and the small wrapper types the rest of the model uses. */
module Json {

  datatype Option<+T> = None | Some(value: T)

  /** The failures an operation reports; `Panic` stands for a Go panic on a value of the wrong type. */
  datatype Error = BadPath | InvalidParameter | InvalidOperation | UnsupportedOperator | Panic

  datatype Result<+T> = Ok(value: T) | Err(error: Error) {
    predicate IsFailure() { Err? }
    function PropagateFailure<U>(): Result<U> requires Err? { Err(error) }
    function Extract(): T requires Ok? { value }
  }

  /** Immutable JSON values.  Two values are equal when they have the same structure. */
  datatype Value =
    | Null
    | Bool(b: bool)
    | Num(n: int)
    | Str(s: string)
    | Arr(items: seq<Value>)
    | Obj(fields: map<string, Value>)

  predicate IsSimple(v: Value) {
    v.Null? || v.Bool? || v.Num? || v.Str?
  }

  /** One step of a path.  A step holds both fields: an index step has the empty key, a key step has index 0. */
  datatype PathElement = PathElement(key: string, index: int)

  function KeyElem(k: string): PathElement { PathElement(k, 0) }
  function IndexElem(i: int): PathElement { PathElement("", i) }

  type Path = seq<PathElement>

  function Last(p: Path): PathElement requires p != [] { p[|p| - 1] }

  function Parent(p: Path): Path requires p != [] { p[..|p| - 1] }

  /** A step that is exactly one of a non-empty key and a non-negative index. */
  predicate WfElem(e: PathElement) {
    if e.key == "" then e.index >= 0 else e.index == 0
  }

  predicate WfPath(p: Path) {
    forall i :: 0 <= i < |p| ==> WfElem(p[i])
  }

  /** The index a step selects in an array; keys are taken to be non-numeric, so a key selects 0. */
  function FirstIndex(e: PathElement): nat {
    if e.index > 0 then e.index else 0
  }

  /** Key-based equality of two steps, as the prefix test uses it. */
  predicate ElemEquals(a: PathElement, b: PathElement) {
    if a.key != "" || b.key != "" then a.key == b.key else a.index == b.index
  }

  /** `e` names a child that is there. */
  predicate HasChild(v: Value, e: PathElement) {
    match v
    case Arr(items) => e.key == "" && 0 <= e.index < |items|
    case Obj(fields) => e.key != "" && e.index == 0 && e.key in fields
    case _ => false
  }

  function Child(v: Value, e: PathElement): (c: Value)
    requires HasChild(v, e)
    ensures c < v
  {
    match v
    case Arr(items) => items[e.index]
    case Obj(fields) => fields[e.key]
  }

  function PutChild(v: Value, e: PathElement, c: Value): Value
    requires HasChild(v, e)
  {
    match v
    case Arr(items) => Arr(items[e.index := c])
    case Obj(fields) => Obj(fields[e.key := c])
  }

  /** The path leads to a value of the document. */
  predicate Resolves(v: Value, p: Path) {
    p == [] || (HasChild(v, p[0]) && Resolves(Child(v, p[0]), p[1..]))
  }

  /** The subtree a path leads to. */
  function At(v: Value, p: Path): Value
    requires Resolves(v, p)
  {
    if p == [] then v else At(Child(v, p[0]), p[1..])
  }

  /** The document with the subtree at a path replaced. */
  function PutAt(v: Value, p: Path, c: Value): Value
    requires Resolves(v, p)
  {
    if p == [] then c else PutChild(v, p[0], PutAt(Child(v, p[0]), p[1..], c))
  }
}
