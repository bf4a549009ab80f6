/** Operations as JSON: printing components, parsing them back by the keys they carry. */
module Wire {
  import opened Json
  import opened Operators
  import opened Apply

  // ---- Printing -----------------------------------------------------------------------------------------

  function StepToValue(e: PathElement): Value {
    if e.key != "" then Str(e.key) else Num(e.index)
  }

  function PathToValue(p: Path): Value {
    Arr(seq(|p|, i requires 0 <= i < |p| => StepToValue(p[i])))
  }

  /** The keys an operator is written under. */
  function OperatorFields(op: Operator): map<string, Value> {
    match op
    case Noop => map[]
    case ListDelete(was) => map["ld" := was]
    case ListInsert(v) => map["li" := v]
    case ListReplace(v, was) => map["li" := v, "ld" := was]
    case ListMove(to) => map["lm" := Num(to)]
    case ObjectInsert(v) => map["oi" := v]
    case ObjectDelete(was) => map["od" := was]
    case ObjectReplace(v, was) => map["oi" := v, "od" := was]
    case SubTypeOp(st, operand) =>
      if st.NumberAdd? then map["na" := operand] else map["t" := Str(TypeName(st)), "o" := operand]
  }

  function Print(c: Component): Value {
    Obj(map["p" := PathToValue(c.path)] + OperatorFields(c.operator))
  }

  function PrintItems(cs: seq<Component>): seq<Value> {
    if cs == [] then [] else [Print(cs[0])] + PrintItems(cs[1..])
  }

  function PrintAll(cs: seq<Component>): Value {
    Arr(PrintItems(cs))
  }

  method ToValue(cs: seq<Component>) returns (v: Value)
    ensures v == PrintAll(cs)
  {
    var components: seq<Value> := [];
    for i := 0 to |cs|
      invariant PrintItems(cs) == components + PrintItems(cs[i..])
    {
      assert cs[i..][1..] == cs[i + 1..];
      components := components + [Print(cs[i])];
    }
    return Arr(components);
  }

  // ---- Parsing ------------------------------------------------------------------------------------------

  /** The steps of a path; an entry that is neither a string nor an integer is passed over. */
  function ParseSteps(items: seq<Value>): Path {
    if items == [] then []
    else
      var last := items[|items| - 1];
      var rest := ParseSteps(items[..|items| - 1]);
      match last
      case Str(k) => rest + [PathElement(k, 0)]
      case Num(n) => rest + [PathElement("", n)]
      case _ => rest
  }

  method PathFromValue(items: seq<Value>) returns (paths: Path)
    ensures paths == ParseSteps(items)
  {
    paths := [];
    for i := 0 to |items|
      invariant paths == ParseSteps(items[..i])
    {
      assert items[..i + 1][..i] == items[..i];
      var v := items[i];
      var pe, matched := PathElement("", 0), false;
      if v.Str? {
        matched := true;
        pe := pe.(key := v.s);
      }
      if v.Num? {
        matched := true;
        pe := pe.(index := v.n);
      }
      if matched {
        paths := paths + [pe];
      }
    }
    assert items[..|items|] == items;
  }

  /** A key that is there and does not hold null. */
  predicate HasKey(fields: map<string, Value>, k: string) {
    k in fields && !fields[k].Null?
  }

  /** Whether a subtype of this name is registered; only the built-in ones are. */
  predicate Registered(name: string) {
    name == NUMBER_ADD || name == TEXT
  }

  /** The operator an object stands for, by the first of its keys in order of precedence. */
  function ParseOperator(fields: map<string, Value>): Result<Operator> {
    if HasKey(fields, "na") then
      (if fields["na"].Num? then Ok(SubTypeOp(NumberAdd, fields["na"])) else Err(InvalidOperation))
    else if HasKey(fields, "t") then
      if |fields| < 3 then Err(InvalidParameter)
      else if !fields["t"].Str? then Err(Panic)
      else if !Registered(fields["t"].s) then Err(InvalidOperation)
      else Ok(SubTypeOp(Custom(fields["t"].s), if "o" in fields then fields["o"] else Obj(map[])))
    else if HasKey(fields, "lm") then
      (if fields["lm"].Num? then Ok(ListMove(fields["lm"].n)) else Err(InvalidOperation))
    else if HasKey(fields, "li") then
      Ok(if HasKey(fields, "ld") then ListReplace(fields["li"], fields["ld"]) else ListInsert(fields["li"]))
    else if HasKey(fields, "ld") then Ok(ListDelete(fields["ld"]))
    else if HasKey(fields, "oi") then
      Ok(if HasKey(fields, "od") then ObjectReplace(fields["oi"], fields["od"]) else ObjectInsert(fields["oi"]))
    else if HasKey(fields, "od") then Ok(ObjectDelete(fields["od"]))
    else Ok(Noop)
  }

  function ParseComponent(fields: map<string, Value>): Result<Component> {
    if "p" !in fields then Err(InvalidOperation)
    else if !fields["p"].Arr? then Err(Panic)
    else
      var op :- ParseOperator(fields);
      Ok(Component(ParseSteps(fields["p"].items), op))
  }

  /** An object is one component; an array is the components of its items, at any nesting. */
  function ParseComponents(v: Value): Result<seq<Component>> {
    match v
    case Obj(fields) =>
      var c :- ParseComponent(fields);
      Ok([c])
    case Arr(items) => ParseItems(items)
    case _ => Err(InvalidOperation)
  }

  function ParseItems(items: seq<Value>): Result<seq<Component>> {
    if items == [] then Ok([])
    else
      var first :- ParseComponents(items[0]);
      var rest :- ParseItems(items[1..]);
      Ok(first + rest)
  }

  /** Components already read, put in front of what the rest gives. */
  function After(read: seq<Component>, rest: Result<seq<Component>>): Result<seq<Component>> {
    match rest
    case Ok(cs) => Ok(read + cs)
    case Err(e) => Err(e)
  }

  method OperationComponentsFromValue(v: Value) returns (r: Result<seq<Component>>)
    ensures r == ParseComponents(v)
    decreases v
  {
    if v.Arr? {
      var result: seq<Component> := [];
      var n := |v.items|;
      assert v.items[0..] == v.items;
      assert After([], ParseItems(v.items)) == ParseItems(v.items) by {
        var all := ParseItems(v.items);
        assert all.Ok? ==> [] + all.value == all.value;
      }
      for i := 0 to n
        invariant ParseItems(v.items) == After(result, ParseItems(v.items[i..]))
      {
        assert v.items[i..][0] == v.items[i] && v.items[i..][1..] == v.items[i + 1..];
        var one := OperationComponentsFromValue(v.items[i]);
        if one.Err? {
          return one;
        }
        var rest := ParseItems(v.items[i + 1..]);
        assert rest.Ok? ==> result + (one.value + rest.value) == (result + one.value) + rest.value;
        result := result + one.value;
      }
      assert v.items[n..] == [] && result + [] == result;
      return Ok(result);
    }
    if v.Obj? {
      var c := ParseComponent(v.fields);
      return match c { case Ok(d) => Ok([d]) case Err(e) => Err(e) };
    }
    return Err(InvalidOperation);
  }

  /** Parse an operation and check its components. */
  function ParseOperation(v: Value): Result<seq<Component>> {
    var cs :- ParseComponents(v);
    var bad := ValidationError(cs);
    if bad.Some? then Err(bad.value) else Ok(cs)
  }

  // ---- Round trip ---------------------------------------------------------------------------------------

  /** Parsing names every subtype but number-add by its printed name. */
  function Renamed(c: Component): Component {
    match c.operator
    case SubTypeOp(st, operand) =>
      if st.NumberAdd? then c else Component(c.path, SubTypeOp(Custom(TypeName(st)), operand))
    case _ => c
  }

  function RenamedAll(cs: seq<Component>): (r: seq<Component>)
    ensures |r| == |cs|
  {
    if cs == [] then [] else [Renamed(cs[0])] + RenamedAll(cs[1..])
  }

  /** No recorded value is null, a sum adds a number, and any other subtype is registered. */
  predicate Printable(op: Operator) {
    match op
    case Noop => true
    case ListMove(_) => true
    case ListInsert(v) => !v.Null?
    case ListDelete(was) => !was.Null?
    case ListReplace(v, was) => !v.Null? && !was.Null?
    case ObjectInsert(v) => !v.Null?
    case ObjectDelete(was) => !was.Null?
    case ObjectReplace(v, was) => !v.Null? && !was.Null?
    case SubTypeOp(st, operand) => if st.NumberAdd? then operand.Num? else Registered(TypeName(st))
  }

  lemma {:induction false} StepsRoundTrip(p: Path)
    requires WfPath(p)
    ensures ParseSteps(PathToValue(p).items) == p
    decreases |p|
  {
    if p != [] {
      var init, items := p[..|p| - 1], PathToValue(p).items;
      StepsRoundTrip(init);
      assert items[..|items| - 1] == PathToValue(init).items;
      assert p == init + [p[|p| - 1]];
    }
  }

  /** What the printed object holds, key by key. */
  lemma {:induction false} PrintedKeys(c: Component)
    ensures var f, g := Print(c).fields, OperatorFields(c.operator);
      && "p" in f && f["p"] == PathToValue(c.path)
      && f.Keys == {"p"} + g.Keys
      && forall k :: k in g ==> k in f && f[k] == g[k]
  {
    assert "p" !in OperatorFields(c.operator);
  }

  /** The keys are pairwise different, told apart by length or by a character. */
  lemma {:induction false} KeysApart()
    ensures "na" !in {"p", "t", "lm", "li", "ld", "oi", "od"} && "t" !in {"p", "lm", "li", "ld", "oi", "od"}
    ensures "lm" !in {"p", "li", "ld", "oi", "od"} && "li" !in {"p", "ld", "oi", "od"}
    ensures "ld" !in {"p", "oi", "od"} && "oi" !in {"p", "od"} && "od" !in {"p"}
  {
    assert "na"[1] == 'a' && "lm"[1] == 'm' && "li"[1] == 'i' && "ld"[1] == 'd' && "oi"[1] == 'i' && "od"[1] == 'd';
    assert "na"[0] == 'n' && "lm"[0] == 'l' && "li"[0] == 'l' && "ld"[0] == 'l' && "oi"[0] == 'o' && "od"[0] == 'o';
    assert |"p"| == |"t"| == 1 && "p"[0] != "t"[0];
  }

  lemma {:induction false} NumberAddRoundTrip(c: Component)
    requires c.operator.SubTypeOp? && c.operator.subType.NumberAdd?
    ensures ParseOperator(Print(c).fields) == Ok(c.operator) <==> Printable(c.operator)
  {
    var f := Print(c).fields;
    PrintedKeys(c);
    KeysApart();
    assert f.Keys == {"p", "na"};
  }

  lemma {:induction false} ThreeKeys(f: map<string, Value>)
    requires f.Keys == {"p", "t", "o"}
    ensures |f| == 3
  {
    assert "p"[0] == 'p' && "t"[0] == 't' && "o"[0] == 'o';
    assert |f.Keys| == 3;
  }

  lemma {:induction false} SubTypeRoundTrip(c: Component)
    requires c.operator.SubTypeOp? && !c.operator.subType.NumberAdd?
    ensures ParseOperator(Print(c).fields) == Ok(Renamed(c).operator) <==> Printable(c.operator)
  {
    var f := Print(c).fields;
    PrintedKeys(c);
    KeysApart();
    ThreeKeys(f);
    assert f["t"] == Str(TypeName(c.operator.subType)) && f["o"] == c.operator.operand && !HasKey(f, "na");
  }

  lemma {:induction false} MoveRoundTrip(c: Component)
    requires c.operator.ListMove? || c.operator.Noop?
    ensures ParseOperator(Print(c).fields) == Ok(c.operator)
  {
    PrintedKeys(c);
    KeysApart();
  }

  lemma {:induction false} ListRoundTrip(c: Component)
    requires c.operator.ListInsert? || c.operator.ListDelete? || c.operator.ListReplace?
    ensures ParseOperator(Print(c).fields) == Ok(c.operator) <==> Printable(c.operator)
  {
    var f := Print(c).fields;
    PrintedKeys(c);
    KeysApart();
    assert !HasKey(f, "na") && !HasKey(f, "t") && !HasKey(f, "lm") && !HasKey(f, "oi") && !HasKey(f, "od");
  }

  lemma {:induction false} ParsesObject(f: map<string, Value>)
    requires !HasKey(f, "na") && !HasKey(f, "t") && !HasKey(f, "lm") && !HasKey(f, "li") && !HasKey(f, "ld")
    ensures HasKey(f, "oi") && HasKey(f, "od") ==> ParseOperator(f) == Ok(ObjectReplace(f["oi"], f["od"]))
    ensures HasKey(f, "oi") && !HasKey(f, "od") ==> ParseOperator(f) == Ok(ObjectInsert(f["oi"]))
    ensures !HasKey(f, "oi") && HasKey(f, "od") ==> ParseOperator(f) == Ok(ObjectDelete(f["od"]))
    ensures !HasKey(f, "oi") && !HasKey(f, "od") ==> ParseOperator(f) == Ok(Noop)
  {
  }

  lemma {:induction false} ObjectRoundTrip(c: Component)
    requires IsObjectOp(c.operator)
    ensures ParseOperator(Print(c).fields) == Ok(c.operator) <==> Printable(c.operator)
  {
    var f := Print(c).fields;
    PrintedKeys(c);
    KeysApart();
    assert !HasKey(f, "na") && !HasKey(f, "t") && !HasKey(f, "lm") && !HasKey(f, "li") && !HasKey(f, "ld");
    ParsesObject(f);
  }

  /** A component comes back from its printed form exactly when its operator is printable. */
  lemma {:induction false} ComponentRoundTrip(c: Component)
    requires WfPath(c.path)
    ensures ParseComponents(Print(c)) == Ok([Renamed(c)]) <==> Printable(c.operator)
  {
    var r := ParseOperator(Print(c).fields);
    assert r == Ok(Renamed(c).operator) <==> Printable(c.operator) by {
      if c.operator.SubTypeOp? && c.operator.subType.NumberAdd? {
        NumberAddRoundTrip(c);
      } else if c.operator.SubTypeOp? {
        SubTypeRoundTrip(c);
      } else if IsObjectOp(c.operator) {
        ObjectRoundTrip(c);
      } else if c.operator.ListMove? || c.operator.Noop? {
        MoveRoundTrip(c);
      } else {
        ListRoundTrip(c);
      }
    }
    PrintedKeys(c);
    StepsRoundTrip(c.path);
    if r.Ok? {
      assert ParseComponents(Print(c)) == Ok([Component(c.path, r.value)]);
      assert [Component(c.path, r.value)][0].operator == r.value;
    }
  }

  predicate AllPrintable(cs: seq<Component>) {
    forall i :: 0 <= i < |cs| ==> WfPath(cs[i].path) && Printable(cs[i].operator)
  }

  lemma {:induction false} RenamedValidates(cs: seq<Component>)
    ensures ValidationError(RenamedAll(cs)) == ValidationError(cs)
    decreases |cs|
  {
    if cs != [] {
      RenamedValidates(cs[1..]);
      assert RenamedAll(cs)[1..] == RenamedAll(cs[1..]);
    }
  }

  lemma {:induction false} ItemsParse(items: seq<Value>, first: Component, rest: seq<Component>)
    requires items != [] && ParseComponents(items[0]) == Ok([first]) && ParseItems(items[1..]) == Ok(rest)
    ensures ParseItems(items) == Ok([first] + rest)
  {
  }

  lemma {:induction false} ItemsRoundTrip(cs: seq<Component>)
    requires AllPrintable(cs)
    ensures ParseItems(PrintItems(cs)) == Ok(RenamedAll(cs))
    decreases |cs|
  {
    if cs != [] {
      ItemsRoundTrip(cs[1..]);
      ComponentRoundTrip(cs[0]);
      assert PrintItems(cs)[1..] == PrintItems(cs[1..]);
      ItemsParse(PrintItems(cs), Renamed(cs[0]), RenamedAll(cs[1..]));
    }
  }

  /** A printable operation that validates comes back whole and in order. */
  lemma {:induction false} OperationRoundTrip(cs: seq<Component>)
    requires AllPrintable(cs) && ValidationError(cs).None?
    ensures ParseOperation(PrintAll(cs)) == Ok(RenamedAll(cs))
  {
    ItemsRoundTrip(cs);
    RenamedValidates(cs);
  }

  /** A renamed subtype applies as the original does. */
  lemma {:induction false} RenamedApplies(v: Value, c: Component)
    ensures ApplyOne(v, Renamed(c)) == ApplyOne(v, c)
  {
  }

  lemma {:induction false} RenamedAllApply(v: Value, cs: seq<Component>)
    ensures ApplyAll(v, RenamedAll(cs)) == ApplyAll(v, cs)
    decreases |cs|
  {
    if cs != [] {
      RenamedApplies(v, cs[0]);
      assert RenamedAll(cs)[1..] == RenamedAll(cs[1..]);
      var r := ApplyOne(v, cs[0]);
      if r.Ok? {
        RenamedAllApply(r.value, cs[1..]);
      }
    }
  }
}
