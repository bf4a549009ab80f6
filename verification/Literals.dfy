/** The JSON form of operations, spelled out key by key: what clients write and read. */
module Literals {
  import opened Json
  import opened Operators
  import opened Apply
  import opened Wire
  import History

  /** The entries a path is written as: a key as a string, an index as a number, in order. */
  predicate WrittenAs(p: Path, items: seq<Value>) {
    |items| == |p| && forall i :: 0 <= i < |p| ==> items[i] == if p[i].key != "" then Str(p[i].key) else Num(p[i].index)
  }

  lemma {:induction false} PathWritten(p: Path, items: seq<Value>)
    requires WrittenAs(p, items)
    ensures PathToValue(p) == Arr(items)
  {
    assert PathToValue(p).items == items;
  }

  /** The component is printed as the value and read back from it. */
  predicate StandsFor(json: Value, c: Component) {
    Print(c) == json && ParseComponents(json) == Ok([c])
  }

  lemma {:induction false} FormStands(p: Path, items: seq<Value>, op: Operator, f: map<string, Value>)
    requires WfPath(p) && WrittenAs(p, items) && Printable(op) && (op.SubTypeOp? ==> op.subType.NumberAdd?)
    requires map["p" := Arr(items)] + OperatorFields(op) == f
    ensures StandsFor(Obj(f), Component(p, op))
  {
    PathWritten(p, items);
    ComponentRoundTrip(Component(p, op));
  }

  lemma {:induction false} ListForms(p: Path, items: seq<Value>, x: Value, y: Value, to: int)
    requires WfPath(p) && WrittenAs(p, items) && !x.Null? && !y.Null?
    ensures StandsFor(Obj(map["p" := Arr(items), "li" := x]), Component(p, ListInsert(x)))
    ensures StandsFor(Obj(map["p" := Arr(items), "ld" := y]), Component(p, ListDelete(y)))
    ensures StandsFor(Obj(map["p" := Arr(items), "li" := x, "ld" := y]), Component(p, ListReplace(x, y)))
    ensures StandsFor(Obj(map["p" := Arr(items), "lm" := Num(to)]), Component(p, ListMove(to)))
  {
    FormStands(p, items, ListInsert(x), map["p" := Arr(items), "li" := x]);
    FormStands(p, items, ListDelete(y), map["p" := Arr(items), "ld" := y]);
    FormStands(p, items, ListReplace(x, y), map["p" := Arr(items), "li" := x, "ld" := y]);
    FormStands(p, items, ListMove(to), map["p" := Arr(items), "lm" := Num(to)]);
  }

  lemma {:induction false} ObjectForms(p: Path, items: seq<Value>, x: Value, y: Value)
    requires WfPath(p) && WrittenAs(p, items) && !x.Null? && !y.Null?
    ensures StandsFor(Obj(map["p" := Arr(items), "oi" := x]), Component(p, ObjectInsert(x)))
    ensures StandsFor(Obj(map["p" := Arr(items), "od" := y]), Component(p, ObjectDelete(y)))
    ensures StandsFor(Obj(map["p" := Arr(items), "oi" := x, "od" := y]), Component(p, ObjectReplace(x, y)))
    ensures StandsFor(Obj(map["p" := Arr(items)]), Component(p, Noop))
  {
    FormStands(p, items, ObjectInsert(x), map["p" := Arr(items), "oi" := x]);
    FormStands(p, items, ObjectDelete(y), map["p" := Arr(items), "od" := y]);
    FormStands(p, items, ObjectReplace(x, y), map["p" := Arr(items), "oi" := x, "od" := y]);
    FormStands(p, items, Noop, map["p" := Arr(items)]);
  }

  lemma {:induction false} NamedForm(p: Path, items: seq<Value>, st: SubType, operand: Value)
    requires WfPath(p) && WrittenAs(p, items) && !st.NumberAdd?
    ensures Print(Component(p, SubTypeOp(st, operand)))
      == Obj(map["p" := Arr(items), "t" := Str(TypeName(st)), "o" := operand])
  {
    PathWritten(p, items);
    KeysApart();
    assert Print(Component(p, SubTypeOp(st, operand))).fields
      == map["p" := Arr(items), "t" := Str(TypeName(st)), "o" := operand];
  }

  lemma {:induction false} SubTypeForms(p: Path, items: seq<Value>, n: int, operand: Value)
    requires WfPath(p) && WrittenAs(p, items)
    ensures StandsFor(Obj(map["p" := Arr(items), "na" := Num(n)]), Component(p, SubTypeOp(NumberAdd, Num(n))))
    ensures StandsFor(Obj(map["p" := Arr(items), "t" := Str("text"), "o" := operand]),
                      Component(p, SubTypeOp(Custom("text"), operand)))
    ensures Print(Component(p, SubTypeOp(Text, operand)))
      == Obj(map["p" := Arr(items), "t" := Str("text"), "o" := operand])
  {
    FormStands(p, items, SubTypeOp(NumberAdd, Num(n)), map["p" := Arr(items), "na" := Num(n)]);
    NamedForm(p, items, Custom("text"), operand);
    NamedForm(p, items, Text, operand);
    ComponentRoundTrip(Component(p, SubTypeOp(Custom("text"), operand)));
  }

  /** The order in which the keys count: the sum, the subtype, the move, list edits, object edits. */
  predicate CountsAfter(fields: map<string, Value>, k: string) {
    || (HasKey(fields, "na") && k in {"t", "lm", "li", "ld", "oi", "od"})
    || (!HasKey(fields, "t") && HasKey(fields, "lm") && k in {"li", "ld", "oi", "od"})
    || (!HasKey(fields, "t") && (HasKey(fields, "li") || HasKey(fields, "ld")) && k in {"oi", "od"})
  }

  lemma {:induction false} LaterKeyIgnored(fields: map<string, Value>, k: string, x: Value)
    requires CountsAfter(fields, k)
    ensures ParseOperator(fields[k := x]) == ParseOperator(fields) && k != "p"
  {
    KeysApart();
  }

  lemma {:induction false} OtherKeyIgnored(fields: map<string, Value>, k: string, x: Value)
    requires k !in {"p", "na", "t", "o", "lm", "li", "ld", "oi", "od"} && !HasKey(fields, "t")
    ensures ParseOperator(fields[k := x]) == ParseOperator(fields)
  {
  }

  lemma {:induction false} NullKeyIgnored(fields: map<string, Value>, k: string)
    requires k in {"na", "t", "lm", "li", "ld", "oi", "od"} && k !in fields && !HasKey(fields, "t")
    ensures ParseOperator(fields[k := Null]) == ParseOperator(fields) && k != "p"
  {
    KeysApart();
    var more := fields[k := Null];
    assert forall j :: HasKey(more, j) <==> HasKey(fields, j);
  }

  /** A key that counts after one that is there changes nothing, and neither does a key that names no operator, except
      next to a subtype, where the number of keys is checked; a key that holds null counts as absent. */
  lemma {:induction false} FirstKeyCounts(fields: map<string, Value>, k: string, x: Value)
    ensures CountsAfter(fields, k) ==> ParseComponents(Obj(fields[k := x])) == ParseComponents(Obj(fields))
    ensures k !in {"p", "na", "t", "o", "lm", "li", "ld", "oi", "od"} && !HasKey(fields, "t") ==>
      ParseComponents(Obj(fields[k := x])) == ParseComponents(Obj(fields))
    ensures k in {"na", "t", "lm", "li", "ld", "oi", "od"} && k !in fields && !HasKey(fields, "t") ==>
      ParseComponents(Obj(fields[k := Null])) == ParseComponents(Obj(fields))
  {
    if CountsAfter(fields, k) {
      LaterKeyIgnored(fields, k, x);
    }
    if k !in {"p", "na", "t", "o", "lm", "li", "ld", "oi", "od"} && !HasKey(fields, "t") {
      OtherKeyIgnored(fields, k, x);
    }
    if k in {"na", "t", "lm", "li", "ld", "oi", "od"} && k !in fields && !HasKey(fields, "t") {
      NullKeyIgnored(fields, k);
    }
  }

  /** What is not an operation: an object without a path, a path that is no array, a sum or a move that is not a
      number, a subtype that is not registered or lacks a key, and anything but an object or an array. */
  lemma {:induction false} Malformed(v: Value, fields: map<string, Value>)
    ensures !v.Obj? && !v.Arr? ==> ParseComponents(v) == Err(InvalidOperation)
    ensures "p" !in fields ==> ParseComponents(Obj(fields)) == Err(InvalidOperation)
    ensures "p" in fields && !fields["p"].Arr? ==> ParseComponents(Obj(fields)) == Err(Panic)
    ensures "p" in fields && fields["p"].Arr? ==>
      && (HasKey(fields, "na") && !fields["na"].Num? ==> ParseComponents(Obj(fields)) == Err(InvalidOperation))
      && (!HasKey(fields, "na") && HasKey(fields, "t") ==>
            && (|fields| < 3 ==> ParseComponents(Obj(fields)) == Err(InvalidParameter))
            && (|fields| >= 3 && fields["t"].Str? && fields["t"].s !in {"na", "text"} ==>
                  ParseComponents(Obj(fields)) == Err(InvalidOperation)))
      && (!HasKey(fields, "na") && !HasKey(fields, "t") && HasKey(fields, "lm") && !fields["lm"].Num? ==>
            ParseComponents(Obj(fields)) == Err(InvalidOperation))
  {
  }

  /** What is neither a string nor an integer in a path is passed over; the rest is read in order. */
  lemma {:induction false} StrayStepsPassedOver(a: seq<Value>, x: Value, b: seq<Value>)
    ensures !x.Str? && !x.Num? ==> ParseSteps(a + [x] + b) == ParseSteps(a + b)
    ensures x.Str? ==> ParseSteps(a + [x]) == ParseSteps(a) + [PathElement(x.s, 0)]
    ensures x.Num? ==> ParseSteps(a + [x]) == ParseSteps(a) + [PathElement("", x.n)]
    decreases |b|
  {
    assert (a + [x])[..|a|] == a;
    if b == [] {
      assert a + [x] + b == a + [x] && a + b == a;
    } else {
      var init, last := b[..|b| - 1], b[|b| - 1];
      StrayStepsPassedOver(a, x, init);
      assert (a + [x] + b)[..|a| + |b|] == a + [x] + init && (a + b)[..|a| + |b| - 1] == a + init;
    }
  }

  /** Operations read one after another. */
  function ReadBoth(a: Result<seq<Component>>, b: Result<seq<Component>>): Result<seq<Component>> {
    if a.Err? then a else if b.Err? then b else Ok(a.value + b.value)
  }

  lemma {:induction false} ReadInOrder(a: seq<Value>, b: seq<Value>)
    ensures ParseComponents(Arr(a + b)) == ReadBoth(ParseComponents(Arr(a)), ParseComponents(Arr(b)))
    decreases |a|
  {
    if a == [] {
      assert a + b == b;
      var r := ParseItems(b);
      assert r.Ok? ==> [] + r.value == r.value;
    } else {
      assert (a + b)[0] == a[0] && (a + b)[1..] == a[1..] + b;
      ReadInOrder(a[1..], b);
      var x, y, z := ParseComponents(a[0]), ParseItems(a[1..]), ParseItems(b);
      assert x.Ok? && y.Ok? && z.Ok? ==> x.value + (y.value + z.value) == (x.value + y.value) + z.value;
    }
  }

  /** Nested arrays are flattened: an array among the items stands for its own items. */
  lemma {:induction false} NestedFlatten(a: seq<Value>, inner: seq<Value>, b: seq<Value>)
    ensures ParseComponents(Arr(a + [Arr(inner)] + b)) == ParseComponents(Arr(a + inner + b))
  {
    ReadInOrder(a + [Arr(inner)], b);
    ReadInOrder(a, [Arr(inner)]);
    ReadInOrder(a + inner, b);
    ReadInOrder(a, inner);
    assert [Arr(inner)][1..] == [] && ParseItems([]) == Ok([]) && ParseComponents(Arr(inner)) == ParseItems(inner);
    var r := ParseItems(inner);
    assert r.Ok? ==> r.value + [] == r.value;
    assert ParseItems([Arr(inner)]) == r;
  }

  /** What parses as an operation is what its components are read as, when every one of them validates. */
  lemma {:induction false} ParsedValidates(json: Value, cs: seq<Component>)
    requires ParseComponents(json) == Ok(cs)
    ensures ParseOperation(json) == Ok(cs) <==>
      forall i :: 0 <= i < |cs| && cs[i].operator.ListMove? ==> cs[i].path != [] && cs[i].operator.newIndex >= 0
    ensures ParseOperation(json).Ok? ==> ParseOperation(json) == Ok(cs)
  {
    History.Validates(cs);
  }

  /** A subtype without an operand, next to some other key, gets an empty object for one. */
  lemma {:induction false} SubTypeWithoutOperand(p: Path, items: seq<Value>, name: string, k: string, x: Value)
    requires WfPath(p) && WrittenAs(p, items) && name in {"na", "text"}
    requires k !in {"p", "na", "t", "o", "lm", "li", "ld", "oi", "od"}
    ensures ParseComponents(Obj(map["p" := Arr(items), "t" := Str(name), k := x]))
      == Ok([Component(p, SubTypeOp(Custom(name), Obj(map[])))])
  {
    PathWritten(p, items);
    StepsRoundTrip(p);
    KeysApart();
    var f := map["p" := Arr(items), "t" := Str(name), k := x];
    assert f.Keys == {"p", "t", k} && |f.Keys| == 3 && !HasKey(f, "na");
  }
}
