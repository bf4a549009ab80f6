/** Appending and composing keep the meaning of the components, unless an insertion and its deletion collapse. */
module Composition {
  import opened Json
  import opened Operators
  import opened Sequences
  import opened Apply
  import opened Transform
  import opened Validity
  import opened Routing
  import opened Nested
  import opened Rebase
  import opened Tracking
  import opened Algebra
  import TextOps
  import TreeConvergence

  // ---- Components that do what they say -----------------------------------------------------------------

  /** An insertion inside the string at a key. */
  predicate InsertsText(v: Value, e: PathElement, op: Operator) {
    && op.SubTypeOp? && TypeName(op.subType) == TEXT
    && v.Obj? && e.key in v.fields && v.fields[e.key].Str?
    && TextOps.IsInsertion(op.operand, |v.fields[e.key].s|)
  }

  /** The operator does what it says at a slot of the container. */
  predicate DoesAt(v: Value, e: PathElement, op: Operator) {
    || (FitsContainer(v, e, op) && !Skipped(Component([e], op)))
    || InsertsText(v, e, op)
    || (op.Noop? && v.Arr?)
  }

  predicate Does(v: Value, c: Component) {
    && c.path != [] && Resolves(v, Parent(c.path))
    && DoesAt(At(v, Parent(c.path)), Last(c.path), c.operator)
  }

  predicate AllDo(v: Value, cs: seq<Component>)
    decreases |cs|
  {
    cs == [] || (Does(v, cs[0]) && AllDo(After(v, cs[0]), cs[1..]))
  }

  function AfterAll(v: Value, cs: seq<Component>): Value
    decreases |cs|
  {
    if cs == [] then v else AfterAll(After(v, cs[0]), cs[1..])
  }

  lemma {:induction false} DoesAtContainer(u: Value, e: PathElement, op: Operator)
    requires DoesAt(u, e, op)
    ensures IsContainer(u) && ApplyToValue(u, [e], op) == ApplyToContainer(u, e, op)
    ensures ApplyToContainer(u, e, op).Ok? && IsContainer(ApplyToContainer(u, e, op).value)
  {
  }

  lemma {:induction false} DoesApplies(v: Value, c: Component)
    requires Does(v, c)
    ensures var w := ApplyToContainer(At(v, Parent(c.path)), Last(c.path), c.operator);
      && w.Ok? && IsContainer(w.value)
      && ApplyOne(v, c) == Ok(PutAt(v, Parent(c.path), w.value))
    ensures ValidComponent(c)
  {
    var p, e := Parent(c.path), Last(c.path);
    assert c.path == p + [e];
    DoesAtContainer(At(v, p), e, c.operator);
    Locality(v, p, [e], c.operator);
  }

  lemma {:induction false} AllApply(v: Value, cs: seq<Component>)
    requires AllDo(v, cs)
    ensures ApplyOperation(v, cs) == ApplyAll(v, cs) == Ok(AfterAll(v, cs))
    decreases |cs|
  {
    if cs != [] {
      DoesApplies(v, cs[0]);
      AllApply(After(v, cs[0]), cs[1..]);
    }
  }

  lemma {:induction false} Split(v: Value, a: seq<Component>, b: seq<Component>)
    ensures AllDo(v, a + b) <==> AllDo(v, a) && AllDo(AfterAll(v, a), b)
    ensures AfterAll(v, a + b) == AfterAll(AfterAll(v, a), b)
    decreases |a|
  {
    if a == [] {
      assert a + b == b;
    } else {
      assert (a + b)[0] == a[0] && (a + b)[1..] == a[1..] + b;
      Split(After(v, a[0]), a[1..], b);
    }
  }

  lemma {:induction false} SplitApply(v: Value, a: seq<Component>, c: Component)
    requires AllDo(v, a)
    ensures ApplyAll(v, a + [c]) == ApplyOne(AfterAll(v, a), c)
    decreases |a|
  {
    if a == [] {
      assert a + [c] == [c] && [c][1..] == [];
    } else {
      assert (a + [c])[0] == a[0] && (a + [c])[1..] == a[1..] + [c];
      DoesApplies(v, a[0]);
      SplitApply(After(v, a[0]), a[1..], c);
    }
  }

  // ---- Merging ------------------------------------------------------------------------------------------

  lemma {:induction false} MergedInserts(v: Value, e: PathElement, a: Operator, b: Operator, shared: bool)
    requires InsertsText(v, e, a) && ApplyToContainer(v, e, a).Ok?
    requires InsertsText(ApplyToContainer(v, e, a).value, e, b)
    requires Merge(a, b, shared).Some?
    ensures InsertsText(v, e, Merge(a, b, shared).value)
    ensures ApplyToContainer(v, e, Merge(a, b, shared).value) == ApplyToContainer(ApplyToContainer(v, e, a).value, e, b)
  {
    var s := v.fields[e.key].s;
    TextOps.InsertsAt(s, a.operand);
    TextOps.MergeInserts(s, a.operand, b.operand);
    var s1 := TextOps.ApplyText(Some(Str(s)), a.operand).value.value;
    TextOps.InsertsAt(s1.s, b.operand);
    var last := TextOps.ApplyText(Some(s1), b.operand).value.value;
    assert v.fields[e.key := s1][e.key := last] == v.fields[e.key := last];
  }

  lemma {:induction false} MergedInArray(items: seq<Value>, e: PathElement, a: Operator, b: Operator, shared: bool)
    requires DoesAt(Arr(items), e, a) && ApplyToContainer(Arr(items), e, a).Ok?
    requires DoesAt(ApplyToContainer(Arr(items), e, a).value, e, b)
    requires Merge(a, b, shared).Some? && !a.Noop?
    ensures DoesAt(Arr(items), e, Merge(a, b, shared).value)
    ensures var w := ApplyToContainer(Arr(items), e, a).value;
      ApplyToContainer(Arr(items), e, Merge(a, b, shared).value) == ApplyToContainer(w, e, b)
  {
    var i, w := e.index, ApplyToContainer(Arr(items), e, a).value.items;
    if a.ListInsert? {
      assert w == InsertAt(items, i, a.newValue);
      if b.ListDelete? {
        assert RemoveAt(w, i) == items;
      } else {
        assert w[i := b.newValue] == InsertAt(items, i, b.newValue);
      }
    } else if a.ListReplace? {
      assert w == items[i := a.newValue];
      if b.ListDelete? {
        assert RemoveAt(w, i) == RemoveAt(items, i);
      } else {
        assert w[i := b.newValue] == items[i := b.newValue];
        assert items[i := items[i]] == items;
      }
    }
  }

  lemma {:induction false} MergedInObject(fields: map<string, Value>, e: PathElement, a: Operator, b: Operator,
      shared: bool)
    requires DoesAt(Obj(fields), e, a) && ApplyToContainer(Obj(fields), e, a).Ok?
    requires DoesAt(ApplyToContainer(Obj(fields), e, a).value, e, b)
    requires Merge(a, b, shared).Some? && !(a.ObjectInsert? && b.ObjectDelete?)
    requires !InsertsText(Obj(fields), e, a)
    ensures DoesAt(Obj(fields), e, Merge(a, b, shared).value)
    ensures var w := ApplyToContainer(Obj(fields), e, a).value;
      ApplyToContainer(Obj(fields), e, Merge(a, b, shared).value) == ApplyToContainer(w, e, b)
  {
    var w := ApplyToContainer(Obj(fields), e, a).value;
    var merged := Merge(a, b, shared).value;
    assert ApplyToContainer(Obj(fields), e, merged).value.fields == ApplyToContainer(w, e, b).value.fields;
  }

  /** The merged operator does at once what the two did in turn. */
  lemma {:induction false} MergedDoes(v: Value, e: PathElement, a: Operator, b: Operator, shared: bool)
    requires DoesAt(v, e, a) && ApplyToContainer(v, e, a).Ok? && DoesAt(ApplyToContainer(v, e, a).value, e, b)
    requires Merge(a, b, shared).Some? && !a.Noop? && !(a.ObjectInsert? && b.ObjectDelete?)
    ensures DoesAt(v, e, Merge(a, b, shared).value)
    ensures ApplyToContainer(v, e, Merge(a, b, shared).value) == ApplyToContainer(ApplyToContainer(v, e, a).value, e, b)
  {
    if v.Arr? {
      MergedInArray(v.items, e, a, b, shared);
    } else if InsertsText(v, e, a) {
      MergedInserts(v, e, a, b, shared);
    } else {
      MergedInObject(v.fields, e, a, b, shared);
    }
  }

  // ---- Appending and composing --------------------------------------------------------------------------

  /** The last recorded component swallows the new one or turns into a no-op an object does not accept. */
  predicate Collapses(cs: seq<Component>, c: Component) {
    && !Dropped(c) && cs != [] && cs[|cs| - 1].path == c.path
    && (cs[|cs| - 1].operator.Noop? || (cs[|cs| - 1].operator.ObjectInsert? && c.operator.ObjectDelete?))
  }

  predicate NeverCollapses(a: seq<Component>, b: seq<Component>)
    decreases |b|
  {
    b == [] || (!Collapses(a, b[0]) && NeverCollapses(Appended(a, b[0]), b[1..]))
  }

  lemma {:induction false} PutTwice(v: Value, p: Path, x: Value, y: Value)
    requires Resolves(v, p)
    ensures Resolves(PutAt(v, p, x), p) && At(PutAt(v, p, x), p) == x
    ensures PutAt(PutAt(v, p, x), p, y) == PutAt(v, p, y)
    decreases |p|
  {
    if p != [] {
      var w := Child(v, p[0]);
      PutTwice(w, p[1..], x, y);
      TreeConvergence.PutChildTwice(v, p[0], PutAt(w, p[1..], x), PutAt(w, p[1..], y));
    }
  }

  lemma {:induction false} DroppedChangesNothing(v: Value, c: Component)
    requires Does(v, c) && Dropped(c)
    ensures After(v, c) == v
  {
    DoesApplies(v, c);
    PutAtSame(v, Parent(c.path));
  }

  lemma {:induction false} PutAtSame(v: Value, p: Path)
    requires Resolves(v, p)
    ensures PutAt(v, p, At(v, p)) == v
    decreases |p|
  {
    if p != [] {
      PutAtSame(Child(v, p[0]), p[1..]);
      match v
      case Arr(items) => assert items[p[0].index := items[p[0].index]] == items;
      case Obj(fields) => assert fields[p[0].key := fields[p[0].key]] == fields;
    }
  }

  /** Two components at one path, and the merged one. */
  lemma {:induction false} MergeKeepsMeaning(v: Value, a: Component, b: Component, shared: bool)
    requires a.path == b.path && Does(v, a) && Does(After(v, a), b) && Merge(a.operator, b.operator, shared).Some?
    requires !a.operator.Noop? && !(a.operator.ObjectInsert? && b.operator.ObjectDelete?)
    ensures var m := Component(b.path, Merge(a.operator, b.operator, shared).value);
      Does(v, m) && After(v, m) == After(After(v, a), b)
  {
    var p, e := Parent(a.path), Last(a.path);
    var container := At(v, p);
    DoesApplies(v, a);
    DoesApplies(After(v, a), b);
    var first := ApplyToContainer(container, e, a.operator).value;
    PutTwice(v, p, first, first);
    MergedDoes(container, e, a.operator, b.operator, shared);
    var m := Component(b.path, Merge(a.operator, b.operator, shared).value);
    DoesApplies(v, m);
    PutTwice(v, p, first, ApplyToContainer(first, e, b.operator).value);
  }

  lemma {:induction false} LastMeans(v: Value, init: seq<Component>, c: Component)
    ensures AllDo(v, init + [c]) <==> AllDo(v, init) && Does(AfterAll(v, init), c)
    ensures AfterAll(v, init + [c]) == After(AfterAll(v, init), c)
    ensures AllDo(v, init) ==> ApplyAll(v, init + [c]) == ApplyOne(AfterAll(v, init), c)
  {
    Split(v, init, [c]);
    assert [c][1..] == [];
    if AllDo(v, init) {
      SplitApply(v, init, c);
    }
  }

  lemma {:induction false} MergedKeepsMeaning(v: Value, init: seq<Component>, last: Component, c: Component,
      shared: bool)
    requires last.path == c.path && Merge(last.operator, c.operator, shared).Some? && !Dropped(c)
    requires AllDo(v, init + [last]) && Does(AfterAll(v, init + [last]), c) && !Collapses(init + [last], c)
    ensures var merged := init + [Component(c.path, Merge(last.operator, c.operator, shared).value)];
      AllDo(v, merged) && AfterAll(v, merged) == After(AfterAll(v, init + [last]), c)
  {
    assert (init + [last])[|init|] == last;
    LastMeans(v, init, last);
    LastMeans(v, init, Component(c.path, Merge(last.operator, c.operator, shared).value));
    MergeKeepsMeaning(AfterAll(v, init), last, c, shared);
  }

  /** Appending a component that does not collapse with the last one keeps the meaning. */
  lemma {:induction false} AppendKeepsMeaning(v: Value, cs: seq<Component>, c: Component, shared: bool)
    requires AllDo(v, cs) && Does(AfterAll(v, cs), c) && !Collapses(cs, c)
    ensures AllDo(v, Appended(cs, c, shared)) && AfterAll(v, Appended(cs, c, shared)) == After(AfterAll(v, cs), c)
  {
    if Dropped(c) {
      DroppedChangesNothing(AfterAll(v, cs), c);
    } else if cs != [] && cs[|cs| - 1].path == c.path && Merge(cs[|cs| - 1].operator, c.operator, shared).Some? {
      assert cs == cs[..|cs| - 1] + [cs[|cs| - 1]];
      MergedKeepsMeaning(v, cs[..|cs| - 1], cs[|cs| - 1], c, shared);
    } else {
      LastMeans(v, cs, c);
    }
  }

  lemma {:induction false} InsertedThenDeleted(v: Value, a: Component, b: Component)
    requires a.path == b.path && a.operator.ObjectInsert? && b.operator.ObjectDelete?
    requires Does(v, a) && Does(After(v, a), b)
    ensures a.operator.newValue == b.operator.oldValue
  {
    var p := Parent(a.path);
    DoesApplies(v, a);
    PutTwice(v, p, ApplyToContainer(At(v, p), Last(a.path), a.operator).value, Null);
  }

  lemma {:induction false} AnnulsToNoop(init: seq<Component>, last: Component, c: Component)
    requires last.path == c.path && last.operator.ObjectInsert? && c.operator.ObjectDelete?
    requires last.operator.newValue == c.operator.oldValue
    ensures Appended(init + [last], c) == init + [Component(c.path, Noop)]
  {
    assert (init + [last])[..|init|] == init && (init + [last])[|init|] == last;
  }

  /** What is left where an object's insertion and deletion collapse is a no-op, and it fails. */
  lemma {:induction false} AnnulledLeavesNoop(v: Value, init: seq<Component>, last: Component, c: Component)
    requires AllDo(v, init) && Does(AfterAll(v, init), last) && Does(After(AfterAll(v, init), last), c)
    requires last.path == c.path && last.operator.ObjectInsert? && c.operator.ObjectDelete?
    ensures Appended(init + [last], c) == init + [Component(c.path, Noop)]
    ensures ApplyAll(v, init + [Component(c.path, Noop)]).Err?
  {
    InsertedThenDeleted(AfterAll(v, init), last, c);
    AnnulsToNoop(init, last, c);
    NoopOnObject(AfterAll(v, init), last, c);
    LastMeans(v, init, Component(c.path, Noop));
  }

  /** A Noop takes in what is appended at its path; an insertion and a deletion become one, which no object accepts. */
  lemma {:induction false} CollapseApplies(v: Value, init: seq<Component>, last: Component, c: Component)
    requires AllDo(v, init + [last]) && Does(AfterAll(v, init + [last]), c) && Collapses(init + [last], c)
    ensures last.operator.Noop? ==> Appended(init + [last], c) == init + [last]
    ensures !last.operator.Noop? ==> ApplyAll(v, Appended(init + [last], c)).Err?
  {
    var cs := init + [last];
    assert cs[..|cs| - 1] == init && cs[|cs| - 1] == last;
    if last.operator.Noop? {
      assert Appended(cs, c) == cs;
    } else {
      LastMeans(v, init, last);
      AnnulledLeavesNoop(v, init, last, c);
    }
  }

  /** Appending a component that collapses with the last one loses it, if the component changes anything. */
  lemma {:induction false} CollapseLosesMeaning(v: Value, cs: seq<Component>, c: Component)
    requires AllDo(v, cs) && Does(AfterAll(v, cs), c) && Collapses(cs, c)
    ensures ApplyAll(v, cs + [c]) == Ok(After(AfterAll(v, cs), c))
    ensures After(AfterAll(v, cs), c) != AfterAll(v, cs) ==> ApplyAll(v, Appended(cs, c)) != ApplyAll(v, cs + [c])
  {
    var init, last := cs[..|cs| - 1], cs[|cs| - 1];
    assert cs == init + [last];
    AllApply(v, cs);
    DoesApplies(AfterAll(v, cs), c);
    LastMeans(v, cs, c);
    CollapseApplies(v, init, last, c);
  }

  lemma {:induction false} NoopOnObject(v: Value, a: Component, b: Component)
    requires a.path == b.path && Does(v, a) && a.operator.ObjectInsert?
    ensures ApplyOne(v, Component(b.path, Noop)).Err?
  {
    var p := Parent(a.path);
    assert a.path == p + [Last(a.path)];
    Locality(v, p, [Last(a.path)], Noop);
  }

  /** Composing two operations and applying the result is applying the one and then the other. */
  lemma {:induction false} ComposeKeepsMeaning(v: Value, a: seq<Component>, b: seq<Component>)
    requires AllDo(v, a) && AllDo(AfterAll(v, a), b) && NeverCollapses(a, b)
    ensures AllDo(v, Composed(a, b)) && AfterAll(v, Composed(a, b)) == AfterAll(AfterAll(v, a), b)
    ensures ApplyOperation(v, Composed(a, b)) == ApplyAll(AfterAll(v, a), b)
    decreases |b|
  {
    if b == [] {
      AllApply(v, a);
    } else {
      AppendKeepsMeaning(v, a, b[0], false);
      ComposeKeepsMeaning(v, Appended(a, b[0]), b[1..]);
      DoesApplies(AfterAll(v, a), b[0]);
    }
  }
}
