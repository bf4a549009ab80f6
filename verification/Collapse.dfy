/** When exactly composing keeps the meaning: what annulled and swallowed components cost. */
module Collapse {
  import opened Json
  import opened Operators
  import opened Sequences
  import opened Apply
  import opened Transform
  import opened Validity
  import opened Routing
  import opened Rebase
  import opened Tracking
  import opened Algebra
  import opened Composition
  import Inversion
  import TextOps

  // ---- The two ways to collapse -------------------------------------------------------------------------

  predicate MeetsLast(acc: seq<Component>, c: Component) {
    !Dropped(c) && acc != [] && acc[|acc| - 1].path == c.path
  }

  /** The insertion of a key meets its deletion: what is left is a no-op that no object takes. */
  predicate Annuls(acc: seq<Component>, c: Component) {
    MeetsLast(acc, c) && acc[|acc| - 1].operator.ObjectInsert? && c.operator.ObjectDelete?
  }

  /** A no-op in a list takes in what comes at its path. */
  predicate Swallows(acc: seq<Component>, c: Component) {
    MeetsLast(acc, c) && acc[|acc| - 1].operator.Noop?
  }

  /** How many components from the first on a no-op at the path takes in, moves onto themselves included. */
  function Swallowed(p: Path, b: seq<Component>): (n: nat)
    ensures n <= |b|
    ensures forall i :: 0 <= i < n ==> Dropped(b[i]) || b[i].path == p
    ensures n < |b| ==> !Dropped(b[n]) && b[n].path != p
  {
    if b == [] || (!Dropped(b[0]) && b[0].path != p) then 0 else 1 + Swallowed(p, b[1..])
  }

  /** What comes after the swallowed components, composed by itself, leads from the document without their edits to
      the same end as from the document with them. */
  predicate MadeUp(without: Value, with: Value, rest: seq<Component>) {
    ApplyOperation(without, Composed([], rest)) == Ok(AfterAll(with, rest))
  }

  /** The components keep their meaning when they are appended: none is annulled, and what is swallowed changes
      nothing or is made up for. */
  predicate Keeps(v: Value, acc: seq<Component>, b: seq<Component>)
    decreases |b|
  {
    if b == [] then true
    else if Annuls(acc, b[0]) then false
    else if Swallows(acc, b[0]) then
      var n := Swallowed(b[0].path, b);
      var w := AfterAll(v, b[..n]);
      if w == v then Keeps(v, acc, b[n..]) else n < |b| && MadeUp(v, w, b[n..])
    else Keeps(After(v, b[0]), Appended(acc, b[0]), b[1..])
  }

  /** None is annulled, and what is swallowed changes nothing. */
  predicate LosesNothing(v: Value, acc: seq<Component>, b: seq<Component>)
    decreases |b|
  {
    if b == [] then true
    else if Annuls(acc, b[0]) then false
    else if Swallows(acc, b[0]) then
      var n := Swallowed(b[0].path, b);
      AfterAll(v, b[..n]) == v && LosesNothing(v, acc, b[n..])
    else LosesNothing(After(v, b[0]), Appended(acc, b[0]), b[1..])
  }

  lemma {:induction false} LosesNothingKeeps(v: Value, acc: seq<Component>, b: seq<Component>)
    requires LosesNothing(v, acc, b)
    ensures Keeps(v, acc, b)
    decreases |b|
  {
    if b != [] {
      if Swallows(acc, b[0]) {
        LosesNothingKeeps(v, acc, b[Swallowed(b[0].path, b)..]);
      } else {
        LosesNothingKeeps(After(v, b[0]), Appended(acc, b[0]), b[1..]);
      }
    }
  }

  lemma {:induction false} NeverCollapsesLosesNothing(v: Value, acc: seq<Component>, b: seq<Component>)
    requires NeverCollapses(acc, b)
    ensures LosesNothing(v, acc, b)
    decreases |b|
  {
    if b != [] {
      NeverCollapsesLosesNothing(After(v, b[0]), Appended(acc, b[0]), b[1..]);
    }
  }

  // ---- What stays of the components before --------------------------------------------------------------

  /** Only the last component is ever merged into. */
  lemma {:induction false} FrontStays(s: seq<Component>, t: seq<Component>, b: seq<Component>)
    requires t != []
    ensures Composed(s + t, b) == s + Composed(t, b)
    decreases |b|
  {
    if b != [] {
      var m := |t| - 1;
      assert (s + t)[|s + t| - 1] == t[m] && (s + t)[..|s + t| - 1] == s + t[..m];
      AppendStays(s, t, b[0]);
      FrontStays(s, Appended(t, b[0]), b[1..]);
    }
  }

  lemma {:induction false} AppendStays(s: seq<Component>, t: seq<Component>, c: Component)
    requires t != []
    ensures Appended(s + t, c) == s + Appended(t, c) && Appended(t, c) != []
  {
    var m := |t| - 1;
    assert (s + t)[|s + t| - 1] == t[m] && (s + t)[..|s + t| - 1] == s + t[..m];
    if MeetsLast(t, c) && Merge(t[m].operator, c.operator).Some? {
      var d := Component(c.path, Merge(t[m].operator, c.operator).value);
      assert (s + t[..m]) + [d] == s + (t[..m] + [d]);
    } else if !Dropped(c) {
      assert (s + t) + [c] == s + (t + [c]);
    }
  }

  /** A no-op at the end stays, whatever is appended. */
  lemma {:induction false} NoopStays(s: seq<Component>, noop: Component, b: seq<Component>)
    requires noop.operator.Noop?
    ensures s + [noop] <= Composed(s + [noop], b)
    decreases |b|
  {
    if b != [] {
      var acc := s + [noop];
      if Dropped(b[0]) || b[0].path == noop.path {
        assert acc[..|acc| - 1] + [noop] == acc;
        assert Appended(acc, b[0]) == acc;
        NoopStays(s, noop, b[1..]);
      } else {
        assert Appended(acc, b[0]) == acc + [b[0]];
        FrontStays(acc, [b[0]], b[1..]);
      }
    }
  }

  lemma {:induction false} SwallowedLeavesNothing(acc: seq<Component>, b: seq<Component>, n: nat)
    requires acc != [] && acc[|acc| - 1].operator.Noop? && n <= |b|
    requires forall i :: 0 <= i < n ==> Dropped(b[i]) || b[i].path == acc[|acc| - 1].path
    ensures Composed(acc, b) == Composed(acc, b[n..])
    decreases n
  {
    if n > 0 {
      assert acc[..|acc| - 1] + [acc[|acc| - 1]] == acc;
      assert Appended(acc, b[0]) == acc;
      SwallowedLeavesNothing(acc, b[1..], n - 1);
      assert b[1..][n - 1..] == b[n..];
    } else {
      assert b[0..] == b;
    }
  }

  /** Behind a no-op at another path, the rest is composed by itself. */
  lemma {:induction false} RestApart(acc: seq<Component>, b: seq<Component>)
    requires acc != [] && acc[|acc| - 1].operator.Noop? && b != [] && !Dropped(b[0]) && b[0].path != acc[|acc| - 1].path
    ensures Composed(acc, b) == acc + Composed([], b)
  {
    assert Appended(acc, b[0]) == acc + [b[0]] && Appended([], b[0]) == [b[0]];
    FrontStays(acc, [b[0]], b[1..]);
  }

  // ---- Applying what stays ------------------------------------------------------------------------------

  lemma {:induction false} ValidationSplits(a: seq<Component>, b: seq<Component>)
    requires ValidationError(a).None?
    ensures ValidationError(a + b) == ValidationError(b)
    decreases |a|
  {
    if a == [] {
      assert a + b == b;
    } else {
      assert (a + b)[0] == a[0] && (a + b)[1..] == a[1..] + b;
      ValidationSplits(a[1..], b);
    }
  }

  lemma {:induction false} ApplySplits(v: Value, a: seq<Component>, b: seq<Component>)
    ensures ApplyAll(v, a + b) == (match ApplyAll(v, a) case Err(e) => Err(e) case Ok(w) => ApplyAll(w, b))
    decreases |a|
  {
    if a == [] {
      assert a + b == b;
    } else {
      assert (a + b)[0] == a[0] && (a + b)[1..] == a[1..] + b;
      var w := ApplyOne(v, a[0]);
      if w.Ok? {
        ApplySplits(w.value, a[1..], b);
      }
    }
  }

  /** Behind components that do what they say, an operation does what it does on the document they lead to. */
  lemma {:induction false} AppliesBehind(v: Value, acc: seq<Component>, b: seq<Component>)
    requires AllDo(v, acc)
    ensures ApplyOperation(v, acc + b) == ApplyOperation(AfterAll(v, acc), b)
  {
    AllApply(v, acc);
    ValidationSplits(acc, b);
    ApplySplits(v, acc, b);
  }

  /** What begins with an operation that fails, fails. */
  lemma {:induction false} FailsOn(v: Value, a: seq<Component>, whole: seq<Component>)
    requires ApplyAll(v, a).Err? && a <= whole
    ensures ApplyOperation(v, whole).Err?
  {
    assert whole == a + whole[|a|..];
    ApplySplits(v, a, whole[|a|..]);
  }

  /** Once an object's insertion and deletion have collapsed, the composition fails, whatever is appended. */
  lemma {:induction false} AnnulledFails(v: Value, acc: seq<Component>, c: Component, rest: seq<Component>)
    requires AllDo(v, acc) && Does(AfterAll(v, acc), c) && Annuls(acc, c)
    ensures ApplyOperation(v, Composed(Appended(acc, c), rest)).Err?
  {
    var init, last, noop := acc[..|acc| - 1], acc[|acc| - 1], Component(c.path, Noop);
    assert acc == init + [last];
    LastMeans(v, init, last);
    AnnulledLeavesNoop(v, init, last, c);
    NoopStays(init, noop, rest);
    FailsOn(v, init + [noop], Composed(init + [noop], rest));
  }

  // ---- The exact condition ------------------------------------------------------------------------------

  lemma {:induction false} SwallowedExactly(v: Value, acc: seq<Component>, b: seq<Component>)
    requires AllDo(v, acc) && AllDo(AfterAll(v, acc), b) && b != [] && Swallows(acc, b[0])
    ensures var n := Swallowed(b[0].path, b);
      var u, w := AfterAll(v, acc), AfterAll(AfterAll(v, acc), b[..n]);
      && n > 0 && Composed(acc, b) == Composed(acc, b[n..])
      && AllDo(w, b[n..]) && AfterAll(w, b[n..]) == AfterAll(u, b)
      && (n == |b| ==> ApplyOperation(v, Composed(acc, b)) == Ok(u))
      && (n < |b| ==> ApplyOperation(v, Composed(acc, b)) == ApplyOperation(u, Composed([], b[n..])))
  {
    var n, u := Swallowed(b[0].path, b), AfterAll(v, acc);
    SwallowedLeavesNothing(acc, b, n);
    assert b[..n] + b[n..] == b;
    Split(u, b[..n], b[n..]);
    if n == |b| {
      AllApply(v, acc);
    } else {
      RestApart(acc, b[n..]);
      AppliesBehind(v, acc, Composed([], b[n..]));
    }
  }

  /** Composing keeps the meaning exactly when nothing is annulled and nothing swallowed is missing at the end. */
  lemma {:induction false} ComposeExactly(v: Value, acc: seq<Component>, b: seq<Component>)
    requires AllDo(v, acc) && AllDo(AfterAll(v, acc), b)
    ensures ApplyOperation(v, Composed(acc, b)) == Ok(AfterAll(AfterAll(v, acc), b))
      <==> Keeps(AfterAll(v, acc), acc, b)
    decreases |b|
  {
    if b == [] {
      AllApply(v, acc);
    } else if Annuls(acc, b[0]) {
      AnnulledFails(v, acc, b[0], b[1..]);
    } else if Swallows(acc, b[0]) {
      var n, u := Swallowed(b[0].path, b), AfterAll(v, acc);
      SwallowedExactly(v, acc, b);
      if AfterAll(u, b[..n]) == u {
        ComposeExactly(v, acc, b[n..]);
      }
    } else {
      AppendKeepsMeaning(v, acc, b[0], false);
      ComposeExactly(v, Appended(acc, b[0]), b[1..]);
    }
  }

  /** What loses nothing composes into components that each do what they say. */
  lemma {:induction false} LosesNothingDo(v: Value, acc: seq<Component>, b: seq<Component>)
    requires AllDo(v, acc) && AllDo(AfterAll(v, acc), b) && LosesNothing(AfterAll(v, acc), acc, b)
    ensures AllDo(v, Composed(acc, b)) && AfterAll(v, Composed(acc, b)) == AfterAll(AfterAll(v, acc), b)
    decreases |b|
  {
    if b != [] {
      if Swallows(acc, b[0]) {
        SwallowedExactly(v, acc, b);
        LosesNothingDo(v, acc, b[Swallowed(b[0].path, b)..]);
      } else {
        AppendKeepsMeaning(v, acc, b[0], false);
        LosesNothingDo(v, Appended(acc, b[0]), b[1..]);
      }
    }
  }

  // ---- When a loss can be made up for -------------------------------------------------------------------

  /** The list before an operator that led to this one. */
  function ListBefore(r: seq<Value>, i: int, op: Operator): seq<Value> {
    match op
    case ListInsert(_) => if 0 <= i < |r| then RemoveAt(r, i) else r
    case ListDelete(was) => if 0 <= i <= |r| then InsertAt(r, i, was) else r
    case ListReplace(_, was) => if 0 <= i < |r| then r[i := was] else r
    case ListMove(to) => if 0 <= to < |r| && 0 <= i < |r| then MoveAt(r, to, i) else r
    case _ => r
  }

  lemma {:induction false} MoveBack(xs: seq<Value>, e: PathElement, op: Operator)
    requires DoesAt(Arr(xs), e, op) && op.ListMove? && ApplyToContainer(Arr(xs), e, op).Ok?
    ensures ApplyToContainer(Arr(xs), e, op).value.Arr?
    ensures xs == ListBefore(ApplyToContainer(Arr(xs), e, op).value.items, e.index, op)
  {
    Inversion.MovedBack(xs, e.index, op.newIndex);
  }

  lemma {:induction false} ReplaceBack(xs: seq<Value>, e: PathElement, op: Operator)
    requires DoesAt(Arr(xs), e, op) && op.ListReplace? && ApplyToContainer(Arr(xs), e, op).Ok?
    ensures ApplyToContainer(Arr(xs), e, op).value.Arr?
    ensures xs == ListBefore(ApplyToContainer(Arr(xs), e, op).value.items, e.index, op)
  {
    var i, r := e.index, ApplyToContainer(Arr(xs), e, op).value.items;
    assert r == xs || r == xs[i := op.newValue];
  }

  lemma {:induction false} ListBack(xs: seq<Value>, e: PathElement, op: Operator)
    requires DoesAt(Arr(xs), e, op) && ApplyToContainer(Arr(xs), e, op).Ok?
    ensures ApplyToContainer(Arr(xs), e, op).value.Arr?
    ensures xs == ListBefore(ApplyToContainer(Arr(xs), e, op).value.items, e.index, op)
  {
    var i := e.index;
    match op
    case ListInsert(x) => Inversion.InsertRemoved(xs, i, x);
    case ListDelete(was) => Inversion.InsertRemoved(xs, i, was);
    case ListReplace(_, _) => ReplaceBack(xs, e, op);
    case ListMove(_) => MoveBack(xs, e, op);
    case _ =>
  }

  lemma {:induction false} ListOneToOne(xs: seq<Value>, ys: seq<Value>, e: PathElement, op: Operator)
    requires DoesAt(Arr(xs), e, op) && DoesAt(Arr(ys), e, op) && ApplyToContainer(Arr(xs), e, op).Ok?
    requires ApplyToContainer(Arr(xs), e, op) == ApplyToContainer(Arr(ys), e, op)
    ensures xs == ys
  {
    ListBack(xs, e, op);
    ListBack(ys, e, op);
  }

  lemma {:induction false} TextOneToOne(xs: map<string, Value>, ys: map<string, Value>, e: PathElement, op: Operator)
    requires InsertsText(Obj(xs), e, op) && InsertsText(Obj(ys), e, op)
    requires ApplyToContainer(Obj(xs), e, op) == ApplyToContainer(Obj(ys), e, op)
    ensures xs == ys
  {
    var k, p, t := e.key, op.operand.fields["p"].n, op.operand.fields["i"].s;
    var a, b := xs[k].s, ys[k].s;
    TextOps.InsertsAt(a, op.operand);
    TextOps.InsertsAt(b, op.operand);
    var r := a[..p] + t + a[p..];
    assert xs[k := Str(r)] == ys[k := Str(b[..p] + t + b[p..])];
    assert xs[k := Str(r)][k] == Str(r) == Str(b[..p] + t + b[p..]);
    assert a == r[..p] + r[p + |t|..] && b == r[..p] + r[p + |t|..];
    assert xs == xs[k := Str(r)][k := xs[k]] && ys == xs[k := Str(r)][k := ys[k]];
  }

  lemma {:induction false} KeyOneToOne(xs: map<string, Value>, ys: map<string, Value>, e: PathElement, op: Operator)
    requires DoesAt(Obj(xs), e, op) && DoesAt(Obj(ys), e, op) && ApplyToContainer(Obj(xs), e, op).Ok?
    requires ApplyToContainer(Obj(xs), e, op) == ApplyToContainer(Obj(ys), e, op)
    ensures xs == ys
  {
    var k, r := e.key, ApplyToContainer(Obj(xs), e, op).value.fields;
    if InsertsText(Obj(xs), e, op) {
      TextOneToOne(xs, ys, e, op);
    } else if op.ObjectInsert? {
      assert xs == r - {k} && ys == r - {k};
    } else if op.SubTypeOp? {
      assert r == xs[k := Num(xs[k].n + op.operand.n)] == ys[k := Num(ys[k].n + op.operand.n)];
      assert xs[k] == Num(r[k].n - op.operand.n) == ys[k];
      assert xs == r[k := xs[k]] && ys == r[k := ys[k]];
    } else {
      assert xs == r[k := op.oldValue] && ys == r[k := op.oldValue];
    }
  }

  /** A component leads no two documents it fits to one. */
  lemma {:induction false} DoesIsOneToOne(v: Value, w: Value, c: Component)
    requires Does(v, c) && Does(w, c) && After(v, c) == After(w, c)
    ensures v == w
  {
    var p, e := Parent(c.path), Last(c.path);
    var x, y := At(v, p), At(w, p);
    DoesApplies(v, c);
    DoesApplies(w, c);
    var x1, y1 := ApplyToContainer(x, e, c.operator).value, ApplyToContainer(y, e, c.operator).value;
    PutTwice(v, p, x1, x);
    PutTwice(w, p, y1, y);
    if x.Arr? {
      ListOneToOne(x.items, y.items, e, c.operator);
    } else {
      KeyOneToOne(x.fields, y.fields, e, c.operator);
    }
    PutAtSame(v, p);
    PutAtSame(w, p);
  }

  lemma {:induction false} AllDoIsOneToOne(v: Value, w: Value, cs: seq<Component>)
    requires AllDo(v, cs) && AllDo(w, cs) && AfterAll(v, cs) == AfterAll(w, cs)
    ensures v == w
    decreases |cs|
  {
    if cs != [] {
      AllDoIsOneToOne(After(v, cs[0]), After(w, cs[0]), cs[1..]);
      DoesIsOneToOne(v, w, cs[0]);
    }
  }

  /** What was swallowed is never made up for by components that fit the document without it: a loss can only be made
      up for by later components written over it blindly. */
  lemma {:induction false} LossStays(without: Value, with: Value, rest: seq<Component>)
    requires without != with && AllDo(without, rest) && AllDo(with, rest) && Keeps(without, [], rest)
    ensures !MadeUp(without, with, rest)
  {
    ComposeExactly(without, [], rest);
    if AfterAll(without, rest) == AfterAll(with, rest) {
      AllDoIsOneToOne(without, with, rest);
    }
  }
}
