/** Object edits that meet a concurrent object edit at their key or above it, also when no one document fits both. */
module KeyConflicts {
  import opened Json
  import opened Operators
  import opened Apply
  import opened Transform
  import opened Validity
  import opened Routing
  import opened BothOrders
  import opened Nested
  import opened Edges
  import opened Tracking
  import Composition
  import DiffReach
  import History

  /** An insertion or replacement: an edit that puts a value at its key. */
  predicate Puts(op: Operator) {
    op.ObjectInsert? || op.ObjectReplace?
  }

  lemma {:induction false} PrefixMeets(p: Path, q: Path)
    requires p <= q
    ensures CommonLen(p, q) == CommonLen(q, p) == |p| && IsPrefix(p, q)
    decreases |p|
  {
    if p != [] {
      assert p[0] == q[0] && p[1..] <= q[1..];
      PrefixMeets(p[1..], q[1..]);
    }
  }

  // ---- What the transformation gives --------------------------------------------------------------------

  /** What comes back of an object edit at or below the key of a concurrent one: to the left of an insertion above it
      the deletion of what was inserted and then the edit itself; at the same key the edit, brought up to date; to the
      right nothing.  The key may also be the root. */
  lemma {:induction false} ObjectEditBecomes(l: Component, r: Component)
    requires r.path <= l.path && IsObjectOp(l.operator) && IsObjectOp(r.operator)
    requires !IsEquivalentToNoop(l) && !IsEquivalentToNoop(r)
    ensures TransformComponent(l, r, Right) == Ok([])
    ensures Puts(l.operator) && r.operator.ObjectInsert? && l.path != r.path ==>
      TransformComponent(l, r, Left) == Ok([Component(r.path, ObjectDelete(r.operator.newValue)), l])
    ensures Puts(l.operator) && l.path == r.path ==>
      TransformComponent(l, r, Left) ==
        Ok([Component(l.path, if r.operator.ObjectDelete? then ObjectInsert(l.operator.newValue)
                              else ObjectReplace(l.operator.newValue, r.operator.newValue))])
    ensures l.operator.ObjectDelete? && r.operator.ObjectInsert? ==> TransformComponent(l, r, Left) == Ok([l])
    ensures !r.operator.ObjectInsert? && (l.operator.ObjectDelete? || l.path != r.path) ==>
      TransformComponent(l, r, Left) == Ok([])
  {
    PrefixMeets(r.path, l.path);
    if |l.path| == |r.path| {
      assert l.path == r.path;
    }
  }

  /** What is left of a component under a root that was deleted or replaced: nothing. */
  lemma {:induction false} NothingLeftUnderRoot(l: Component, r: Component, side: Side)
    requires r.path == [] && l.path != [] && !IsEquivalentToNoop(l) && !IsEquivalentToNoop(r)
    requires r.operator.ObjectDelete? || r.operator.ObjectReplace? || r.operator.ListReplace?
    ensures TransformComponent(l, r, side) == Ok([])
  {
  }

  /** An insertion above a concurrent component stays as it is on either side. */
  lemma {:induction false} InsertionAboveStays(l: Component, r: Component, side: Side)
    requires r.path != [] && r.path < l.path && r.operator.ObjectInsert? && !l.operator.Noop?
    ensures TransformComponent(r, l, side) == Ok([r])
  {
    PrefixMeets(r.path, l.path);
  }

  // ---- Where that leads ---------------------------------------------------------------------------------

  lemma {:induction false} FitsAtKey(v: Value, c: Component)
    requires Fits(v, c) && IsObjectOp(c.operator)
    ensures Resolves(v, Parent(c.path)) && At(v, Parent(c.path)).Obj?
    ensures var fields, k := At(v, Parent(c.path)).fields, Last(c.path).key;
      k in fields <==> !c.operator.ObjectInsert?
    decreases |c.path|
  {
    if |c.path| > 1 {
      var d := Component(c.path[1..], c.operator);
      FitsAtKey(Child(v, c.path[0]), d);
      assert Parent(c.path)[0] == c.path[0] && Parent(c.path)[1..] == Parent(d.path) && Last(d.path) == Last(c.path);
    } else {
      assert Parent(c.path) == [] && Last(c.path) == c.path[0];
    }
  }

  /** After one object edit, another one at the same key. */
  lemma {:induction false} SecondAtKey(v: Value, p: Path, fields: map<string, Value>, a: Operator, b: Operator)
    requires p != [] && Resolves(v, Parent(p)) && At(v, Parent(p)) == Obj(fields) && IsObjectOp(a) && IsObjectOp(b)
    ensures var once := ApplyOne(v, Component(p, a));
      && once.Ok?
      && (Puts(b) ==> ApplyOne(once.value, Component(p, b)) == ApplyOne(v, Component(p, b)))
      && (b.ObjectDelete? && Last(p).key !in fields ==> ApplyOne(once.value, Component(p, b)) == Ok(v))
      && (b.ObjectDelete? ==> ApplyOne(once.value, Component(p, b)) == ApplyOne(v, Component(p, b)))
  {
    var k := Last(p).key;
    InObject(v, p, fields, a);
    InObject(v, p, fields, b);
    var now := ApplyToObject(fields, k, a).value;
    Composition.PutTwice(v, Parent(p), Obj(now), Obj(ApplyToObject(now, k, b).value));
    InObject(PutAt(v, Parent(p), Obj(now)), p, now, b);
    PutSame(v, Parent(p));
    if Puts(b) {
      assert now[k := b.newValue] == fields[k := b.newValue];
    } else {
      assert now - {k} == fields - {k};
      assert k !in fields ==> fields - {k} == fields;
    }
  }

  /** Two components in turn. */
  lemma {:induction false} TwoInTurn(w: Value, a: Component, b: Component)
    requires ValidComponent(a) && ValidComponent(b)
    ensures ApplyOperation(w, [a, b]) ==
      match ApplyOne(w, a) { case Ok(x) => ApplyOne(x, b) case Err(e) => Err(e) }
  {
    assert [a, b][1..] == [b] && [b][1..] == [];
    assert ValidationError([b]) == ValidationError([]);
    if ApplyOne(w, a).Ok? {
      ApplySingle(ApplyOne(w, a).value, b);
    }
  }

  /** Right has inserted a key above left's edit: transformed, left's edit takes the insertion back and leads where it
      leads on its own, to a document or to an error. */
  lemma {:induction false} EditUnderInsertion(v: Value, l: Component, r: Component)
    requires Fits(v, r) && r.operator.ObjectInsert? && r.path < l.path && Puts(l.operator) && !IsEquivalentToNoop(l)
    ensures Then(v, r, TransformComponent(l, r, Left)) == ApplyOne(v, l)
  {
    ObjectEditBecomes(l, r);
    FitsAtKey(v, r);
    SecondAtKey(v, r.path, At(v, Parent(r.path)).fields, r.operator, ObjectDelete(r.operator.newValue));
    TwoInTurn(ApplyOne(v, r).value, Component(r.path, ObjectDelete(r.operator.newValue)), l);
  }

  /** Whatever right did at the key, a left edit that puts a value there has the last word; below a key that right
      deleted or replaced nothing is left of it. */
  lemma {:induction false} LastWord(v: Value, l: Component, r: Component)
    requires Fits(v, r) && IsObjectOp(r.operator) && !IsEquivalentToNoop(r)
    requires r.path <= l.path && IsObjectOp(l.operator) && !IsEquivalentToNoop(l)
    ensures var after := Then(v, r, TransformComponent(l, r, Left));
      && (Puts(l.operator) && (l.path == r.path || r.operator.ObjectInsert?) ==> after == ApplyOne(v, l))
      && (!r.operator.ObjectInsert? && (l.operator.ObjectDelete? || l.path != r.path) ==> after == ApplyOne(v, r))
      && (l.operator.ObjectDelete? && r.operator.ObjectInsert? && l.path == r.path ==> after == Ok(v))
    ensures Then(v, r, TransformComponent(l, r, Right)) == ApplyOne(v, r)
  {
    ObjectEditBecomes(l, r);
    FitsApplies(v, r);
    FitsAtKey(v, r);
    var w := ApplyOne(v, r).value;
    var out := TransformComponent(l, r, Left).value;
    if l.path == r.path && out != [] {
      SecondAtKey(v, r.path, At(v, Parent(r.path)).fields, r.operator, out[0].operator);
      assert out == [out[0]];
      ApplySingle(w, out[0]);
      if Puts(l.operator) {
        SecondAtKey(v, r.path, At(v, Parent(r.path)).fields, r.operator, l.operator);
        SamePut(v, l.path, At(v, Parent(l.path)).fields, l.operator, out[0].operator);
      }
    } else if Puts(l.operator) && r.operator.ObjectInsert? {
      EditUnderInsertion(v, l, r);
    }
  }

  lemma {:induction false} SamePut(v: Value, p: Path, fields: map<string, Value>, a: Operator, b: Operator)
    requires p != [] && Resolves(v, Parent(p)) && At(v, Parent(p)) == Obj(fields)
    requires Puts(a) && Puts(b) && a.newValue == b.newValue
    ensures ApplyOne(v, Component(p, a)) == ApplyOne(v, Component(p, b))
  {
    InObject(v, p, fields, a);
    InObject(v, p, fields, b);
  }

  // ---- Convergence --------------------------------------------------------------------------------------

  lemma {:induction false} WithKeyRead(v: Value, p: Path, c: Value)
    requires KeyMissing(v, p)
    ensures var w := WithKey(v, p, c);
      && Resolves(w, Parent(p)) && At(w, Parent(p)).Obj?
      && Last(p).key in At(w, Parent(p)).fields && At(w, Parent(p)).fields[Last(p).key] == c
      && forall d :: WithKey(w, p, d) == WithKey(v, p, d)
  {
    var fields, k := At(v, Parent(p)).fields, Last(p).key;
    var w := WithKey(v, p, c);
    Composition.PutTwice(v, Parent(p), Obj(fields[k := c]), Null);
    forall d ensures WithKey(w, p, d) == WithKey(v, p, d) {
      Composition.PutTwice(v, Parent(p), Obj(fields[k := c]), Obj(fields[k := d]));
      assert fields[k := c][k := d] == fields[k := d];
    }
  }

  lemma {:induction false} WithKeyTells(v: Value, p: Path, c: Value, d: Value)
    requires KeyMissing(v, p)
    ensures WithKey(v, p, c) == WithKey(v, p, d) <==> c == d
  {
    WithKeyRead(v, p, c);
    WithKeyRead(v, p, d);
  }

  /** One side inserts a key where there is none, the other puts a value somewhere below it.  With the insertion on the
      left both orders end with what it inserts.  With the edit on the left one order ends with that and the other with
      what the edit builds on its own, so they agree if and only if that is the same. */
  lemma {:induction false} InsertionOverEdit(v: Value, above: Component, p: Path, below: Operator)
    requires Fits(v, above) && above.operator.ObjectInsert? && p != [] && Puts(below)
    requires !IsEquivalentToNoop(Component(above.path + p, below))
    ensures var c, built := Component(above.path + p, below), Nest(p, below.newValue);
      && Converges(v, above, c)
      && (Converges(v, c, above) <==> above.operator.newValue == built)
      && Then(v, c, TransformComponent(above, c, Right)) == ApplyOne(v, above)
      && Then(v, above, TransformComponent(c, above, Left)) == ApplyOne(v, Component(above.path, ObjectInsert(built)))
  {
    var c, built := Component(above.path + p, below), Nest(p, below.newValue);
    var x := above.operator.newValue;
    assert above.path < c.path;
    FitsAtKey(v, above);
    FitsApplies(v, above);
    EditBelowMissing(v, above.path, p, below);
    EditAtMissing(v, above.path, above.operator);
    EditAtMissing(v, above.path, ObjectInsert(built));
    EditUnderInsertion(v, c, above);
    InsertionAboveStays(c, above, Left);
    InsertionAboveStays(c, above, Right);
    ObjectEditBecomes(c, above);
    var w := WithKey(v, above.path, built);
    ThenApplied(v, c, above);
    WithKeyRead(v, above.path, built);
    InObject(w, above.path, At(w, Parent(above.path)).fields, above.operator);
    assert ApplyOne(w, above) == Ok(WithKey(w, above.path, x));
    WithKeyTells(v, above.path, x, built);
  }

  // ---- A replacement that changes nothing, below an insertion -------------------------------------------

  lemma {:induction false} BelowKey(v: Value, p: Path, x: Value, q: Path, op: Operator)
    requires KeyMissing(v, p) && WfElem(Last(p)) && Last(p).key != "" && q != []
    ensures var w, inside := WithKey(v, p, x), ApplyOne(x, Component(q, op));
      && (inside.Ok? ==> ApplyOne(w, Component(p + q, op)) == Ok(WithKey(v, p, inside.value)))
      && (inside.Err? ==> ApplyOne(w, Component(p + q, op)).Err?)
  {
    var w, e := WithKey(v, p, x), Last(p);
    WithKeyRead(v, p, x);
    assert p == Parent(p) + [e] && p + q == Parent(p) + ([e] + q);
    DiffReach.PutDeeper(w, Parent(p), e, x);
    if IsContainer(x) {
      Locality(w, p, q, op);
      var inside := ApplyOne(x, Component(q, op));
      if inside.Ok? {
        DiffReach.PutDeeper(w, Parent(p), e, inside.value);
      }
    } else {
      EditBelowScalar(w, Parent(p), e, q, op);
      ScalarRefuses(x, q, op);
    }
  }

  lemma {:induction false} ScalarRefuses(x: Value, q: Path, op: Operator)
    requires IsSimple(x) && q != []
    ensures ApplyOne(x, Component(q, op)) == Err(InvalidParameter)
  {
  }

  /** A replacement of a value by itself is not transformed, so below a key that right inserted it works in what was
      inserted: that leads where it leads on its own if and only if it makes of the inserted value what it builds. */
  lemma {:induction false} NoopUnderInsertion(v: Value, r: Component, q: Path, op: Operator)
    requires Fits(v, r) && r.operator.ObjectInsert? && q != [] && op.ObjectReplace? && op.newValue == op.oldValue
    ensures var l := Component(r.path + q, op);
      Then(v, r, TransformComponent(l, r, Left)) == ApplyOne(v, l)
      <==> ApplyOne(r.operator.newValue, Component(q, op)) == Ok(Nest(q, op.newValue))
  {
    var l, p, x := Component(r.path + q, op), r.path, r.operator.newValue;
    FitsAtKey(v, r);
    History.FitsIsAtParent(v, r);
    FitsApplies(v, r);
    EditAtMissing(v, p, r.operator);
    EditBelowMissing(v, p, q, op);
    ThenApplied(v, r, l);
    BelowKey(v, p, x, q, op);
    var inside := ApplyOne(x, Component(q, op));
    if inside.Ok? {
      WithKeyTells(v, p, inside.value, Nest(q, op.newValue));
    }
  }
}
