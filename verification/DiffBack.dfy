/** Undoing a difference: where its inverse leads, and that concurrent changes of one number add up. */
module DiffBack {
  import opened Json
  import opened Operators
  import opened Apply
  import opened Algebra
  import opened Routing
  import opened Diff
  import opened DiffReach
  import Composition
  import Keys

  // ---- Inverses -----------------------------------------------------------------------------------------

  lemma {:induction false} InvertInTwo(a: seq<Component>, b: seq<Component>)
    requires InvertAll(a).Ok? && InvertAll(b).Ok?
    ensures InvertAll(a + b) == Ok(InvertAll(b).value + InvertAll(a).value)
    decreases |b|
  {
    if b == [] {
      assert a + b == a && InvertAll(b) == Ok([]);
      assert [] + InvertAll(a).value == InvertAll(a).value;
    } else {
      var init, last := b[..|b| - 1], b[|b| - 1];
      assert (a + b)[..|a + b| - 1] == a + init && (a + b)[|a + b| - 1] == last;
      InvertInTwo(a, init);
      assert ([Invert(last).value] + InvertAll(init).value) + InvertAll(a).value
        == [Invert(last).value] + (InvertAll(init).value + InvertAll(a).value);
    }
  }

  lemma {:induction false} InvertSingle(c: Component)
    requires Invert(c).Ok?
    ensures InvertAll([c]) == Ok([Invert(c).value])
  {
    assert [c][..0] == [] && InvertAll([]) == Ok([]);
    assert [Invert(c).value] + [] == [Invert(c).value];
  }

  /** The inverse of what is emitted applies to the document and leads to another one. */
  ghost predicate LeadsBack(w: Value, emitted: seq<Component>, u: Value) {
    InvertAll(emitted).Ok? && ApplyAll(w, InvertAll(emitted).value) == Ok(u)
  }

  lemma {:induction false} NothingLeadsBack(w: Value)
    ensures LeadsBack(w, [], w)
  {
    assert ApplyAll(w, []) == Ok(w);
  }

  /** The inverse undoes the later part first. */
  lemma {:induction false} LeadsBackInTwo(w: Value, a: seq<Component>, b: seq<Component>, u: Value, x: Value)
    requires LeadsBack(w, b, u) && LeadsBack(u, a, x)
    ensures LeadsBack(w, a + b, x)
  {
    InvertInTwo(a, b);
    ApplyThen(w, InvertAll(b).value, u, InvertAll(a).value, x);
  }

  /** The inverse of a change of one slot. */
  lemma {:induction false} SlotLeadsBack(w: Value, p: Path, e: PathElement, op: Operator, inverse: Operator, c: Value)
    requires Resolves(w, p) && IsContainer(At(w, p))
    requires Invert(Component(p + [e], op)) == Ok(Component(p + [e], inverse))
    requires ApplyToContainer(At(w, p), e, inverse) == Ok(c)
    ensures LeadsBack(w, [Component(p + [e], op)], PutAt(w, p, c))
  {
    InvertSingle(Component(p + [e], op));
    DiffReach.ApplySlot(w, p, e, inverse);
  }

  // ---- From the target back -----------------------------------------------------------------------------

  lemma {:induction false} LeafBack(w: Value, p: Path, e: PathElement, from: Value, to: Value)
    requires Resolves(w, p) && HasChild(At(w, p), e) && Child(At(w, p), e) == to
    requires from != to && !GoesInside(from, to)
    ensures LeadsBack(w, EmittedInto(p + [e], from, to), PutAt(w, p, PutChild(At(w, p), e, Reached(p + [e], to, from))))
  {
    var q, container := p + [e], At(w, p);
    var emitted, back := EmittedInto(q, from, to), EmittedInto(q, to, from);
    assert emitted == [Component(q, emitted[0].operator)];
    LeafInContainer(container, p, e, to, from);
    assert Invert(emitted[0]) == Ok(Component(q, back[0].operator));
    SlotLeadsBack(w, p, e, emitted[0].operator, back[0].operator, PutChild(container, e, Reached(q, to, from)));
  }

  /** Undoing what is emitted for the child at a slot leads from the target's child to what the opposite difference
      reaches. */
  lemma {:induction false} ChildBack(w: Value, p: Path, e: PathElement, from: Value, to: Value)
    requires Resolves(w, p) && HasChild(At(w, p), e) && Child(At(w, p), e) == to
    requires WellKeyed(from) && WellKeyed(to)
    ensures LeadsBack(w, EmittedInto(p + [e], from, to), PutAt(w, p, PutChild(At(w, p), e, Reached(p + [e], to, from))))
    decreases from, 1, 0
  {
    PutDeeper(w, p, e, Reached(p + [e], to, from));
    PutDeeper(w, p, e, to);
    if GoesInside(from, to) {
      InsideBack(w, p + [e], from, to);
    } else if from == to {
      Composition.PutAtSame(w, p + [e]);
      NothingLeadsBack(w);
    } else {
      LeafBack(w, p, e, from, to);
    }
  }

  lemma {:induction false} OneMoreBack(items: seq<Value>, reached: seq<Value>, i: nat)
    requires i < |items| == |reached|
    ensures var now := items[..i + 1] + reached[i + 1..];
      |now| == |items| && now[i] == items[i] && now[i := reached[i]] == items[..i] + reached[i..]
  {
  }

  lemma {:induction false} ItemBack(w: Value, p: Path, from: Value, to: Value, i: nat, now: seq<Value>, r: Value)
    requires from.Arr? && to.Arr? && |from.items| == |to.items| == |now| && i < |now| && now[i] == to.items[i]
    requires WellKeyed(from) && WellKeyed(to) && Resolves(w, p) && At(w, p) == Arr(now)
    requires r == Reached(p + [IndexElem(i)], to.items[i], from.items[i])
    ensures LeadsBack(w, EmittedInto(p + [IndexElem(i)], from.items[i], to.items[i]), PutAt(w, p, Arr(now[i := r])))
    decreases from, 0, 0
  {
    ChildBack(w, p, IndexElem(i), from.items[i], to.items[i]);
  }

  /** Element by element, the last one first: those from i on are back. */
  lemma {:induction false} ItemsBack(w: Value, p: Path, from: Value, to: Value, i: nat, reached: seq<Value>)
    requires from.Arr? && to.Arr? && |from.items| == |to.items| && i <= |from.items|
    requires reached == ReachedItems(p, to, from) && WellKeyed(from) && WellKeyed(to)
    requires Resolves(w, p) && At(w, p) == to
    ensures LeadsBack(w, EmittedItems(p, from, to, i), PutAt(w, p, Arr(to.items[..i] + reached[i..])))
    decreases from, 0, |from.items| - i
  {
    if i == |from.items| {
      assert to.items[..i] + reached[i..] == to.items;
      Composition.PutAtSame(w, p);
      NothingLeadsBack(w);
    } else {
      var now, next := to.items[..i + 1] + reached[i + 1..], to.items[..i] + reached[i..];
      OneMoreBack(to.items, reached, i);
      ItemsBack(w, p, from, to, i + 1, reached);
      ReadAfterPut(w, p, Arr(now), Arr(next));
      ItemBack(PutAt(w, p, Arr(now)), p, from, to, i, now, reached[i]);
      var here, rest := EmittedInto(p + [IndexElem(i)], from.items[i], to.items[i]), EmittedItems(p, from, to, i + 1);
      LeadsBackInTwo(w, here, rest, PutAt(w, p, Arr(now)), PutAt(w, p, Arr(next)));
    }
  }

  /** The fields once the given keys are back. */
  ghost function FieldsBack(p: Path, from: Value, to: Value, keys: seq<string>): map<string, Value>
    requires from.Obj? && to.Obj?
  {
    if keys == [] then to.fields else KeyDone(p, to, from, FieldsBack(p, from, to, keys[1..]), keys[0])
  }

  lemma {:induction false} FieldsBackAre(p: Path, from: Value, to: Value, keys: seq<string>, k: string)
    requires from.Obj? && to.Obj?
    ensures var f := FieldsBack(p, from, to, keys);
      if k in keys then (k in f <==> k in from.fields) && (k in f ==> f[k] == ReachedAt(p, to, from, k))
      else (k in f <==> k in to.fields) && (k in f ==> f[k] == to.fields[k])
    decreases |keys|
  {
    if keys != [] {
      FieldsBackAre(p, from, to, keys[1..], k);
    }
  }

  lemma {:induction false} AllFieldsBack(p: Path, from: Value, to: Value, keys: seq<string>)
    requires from.Obj? && to.Obj? && from != to && forall k :: k in from.fields || k in to.fields ==> k in keys
    ensures Obj(FieldsBack(p, from, to, keys)) == Reached(p, to, from)
  {
    var f, r := FieldsBack(p, from, to, keys), Reached(p, to, from).fields;
    forall k ensures (k in f <==> k in r) && (k in f ==> f[k] == r[k]) {
      FieldsBackAre(p, from, to, keys, k);
    }
    assert f == r;
  }

  lemma {:induction false} KeyBack(w: Value, p: Path, from: Value, to: Value, now: map<string, Value>, k: string)
    requires from.Obj? && to.Obj? && Resolves(w, p) && At(w, p) == Obj(now) && WellKeyed(from) && WellKeyed(to)
    requires (k in now <==> k in to.fields) && (k in now ==> now[k] == to.fields[k])
    ensures LeadsBack(w, EmittedKey(p, from, to, k), PutAt(w, p, Obj(KeyDone(p, to, from, now, k))))
    decreases from, 0, 0
  {
    var e := KeyElem(k);
    if k in from.fields && k in to.fields {
      ChildBack(w, p, e, from.fields[k], to.fields[k]);
    } else if k in from.fields {
      SlotLeadsBack(w, p, e, ObjectDelete(from.fields[k]), ObjectInsert(from.fields[k]),
                    Obj(now[k := from.fields[k]]));
    } else if k in to.fields {
      SlotLeadsBack(w, p, e, ObjectInsert(to.fields[k]), ObjectDelete(to.fields[k]), Obj(now - {k}));
    } else {
      assert now - {k} == now;
      Composition.PutAtSame(w, p);
      NothingLeadsBack(w);
    }
  }

  lemma {:induction false} KeysBack(w: Value, p: Path, from: Value, to: Value, keys: seq<string>)
    requires from.Obj? && to.Obj? && WellKeyed(from) && WellKeyed(to) && Resolves(w, p) && At(w, p) == to
    requires forall i, j :: 0 <= i < j < |keys| ==> keys[i] != keys[j]
    ensures LeadsBack(w, EmittedKeys(p, from, to, keys), PutAt(w, p, Obj(FieldsBack(p, from, to, keys))))
    decreases from, 0, |keys| + 1
  {
    if keys == [] {
      Composition.PutAtSame(w, p);
      NothingLeadsBack(w);
    } else {
      var k, rest := keys[0], keys[1..];
      var now := FieldsBack(p, from, to, rest);
      var u := PutAt(w, p, Obj(now));
      KeysBack(w, p, from, to, rest);
      assert k !in rest;
      FieldsBackAre(p, from, to, rest, k);
      ReadAfterPut(w, p, Obj(now), Obj(FieldsBack(p, from, to, keys)));
      KeyBack(u, p, from, to, now, k);
      LeadsBackInTwo(w, EmittedKey(p, from, to, k), EmittedKeys(p, from, to, rest), u,
                     PutAt(w, p, Obj(FieldsBack(p, from, to, keys))));
    }
  }

  lemma {:induction false} InsideBack(w: Value, p: Path, from: Value, to: Value)
    requires Resolves(w, p) && At(w, p) == to && GoesInside(from, to)
    requires WellKeyed(from) && WellKeyed(to)
    ensures LeadsBack(w, EmittedInto(p, from, to), PutAt(w, p, Reached(p, to, from)))
    decreases from, 0, if from.Arr? then |from.items| + 1 else |Keys.SortedKeys(from.fields.Keys + to.fields.Keys)| + 2
  {
    if from == to {
      Composition.PutAtSame(w, p);
      NothingLeadsBack(w);
    } else if from.Arr? {
      var reached := ReachedItems(p, to, from);
      assert to.items[..0] + reached[0..] == reached && Arr(reached) == Reached(p, to, from);
      ItemsBack(w, p, from, to, 0, reached);
    } else {
      var keys := Keys.SortedKeys(from.fields.Keys + to.fields.Keys);
      Keys.SortedKeysIsSorted(from.fields.Keys + to.fields.Keys);
      LessMeansDifferent(keys);
      KeysBack(w, p, from, to, keys);
      AllFieldsBack(p, from, to, keys);
    }
  }

  /** The inverse of a difference always applies to the target; it leads back if and only if the opposite difference is
      safe. */
  lemma {:induction false} DifferenceUndone(from: Value, to: Value)
    requires WellKeyed(from) && WellKeyed(to)
    ensures var operation := Composed([], EmittedInto([], from, to));
      && InvertAll(operation).Ok? && ApplyAll(to, InvertAll(operation).value).Ok?
      && (ApplyAll(to, InvertAll(operation).value) == Ok(from) <==> SafeDiff([], to, from))
  {
    var emitted := EmittedInto([], from, to);
    DiffReaches(from, to);
    ReachedIsTarget([], to, from);
    if GoesInside(from, to) {
      InsideBack(to, [], from, to);
    } else if from == to {
      NothingLeadsBack(to);
    } else {
      var back := EmittedInto([], to, from)[0];
      InvertSingle(emitted[0]);
      assert emitted == [emitted[0]] && Invert(emitted[0]) == Ok(back) && [back][1..] == [];
      assert ApplyAll(from, []) == Ok(from);
    }
  }

  // ---- Numbers ------------------------------------------------------------------------------------------

  /** Two differences of one number at a key, made from the same document, add up when both are applied. */
  lemma {:induction false} NumberDifferencesAddUp(v: Value, p: Path, k: string, a: int, b: int, c: int)
    requires Resolves(v, p) && At(v, p).Obj? && k != "" && k in At(v, p).fields && At(v, p).fields[k] == Num(a)
    ensures var q := p + [KeyElem(k)];
      ApplyAll(v, EmittedInto(q, Num(a), Num(b)) + EmittedInto(q, Num(a), Num(c)))
        == Ok(PutAt(v, p, Obj(At(v, p).fields[k := Num(b + c - a)])))
  {
    var fields := At(v, p).fields;
    var u := PutAt(v, p, Obj(fields[k := Num(b)]));
    NumberDifference(v, p, k, a, b - a);
    ReadAfterPut(v, p, Obj(fields[k := Num(b)]), Obj(fields[k := Num(b + c - a)]));
    NumberDifference(u, p, k, b, c - a);
    assert fields[k := Num(b)][k := Num(b + c - a)] == fields[k := Num(b + c - a)];
    var q := p + [KeyElem(k)];
    assert EmittedInto(q, Num(a), Num(b)) == Addition(q, b - a) && EmittedInto(q, Num(a), Num(c)) == Addition(q, c - a);
    ApplyThen(v, Addition(q, b - a), u, Addition(q, c - a), PutAt(v, p, Obj(fields[k := Num(b + c - a)])));
  }

  function Addition(q: Path, n: int): seq<Component> {
    if n == 0 then [] else [Component(q, SubTypeOp(NumberAdd, Num(n)))]
  }

  lemma {:induction false} NumberDifference(v: Value, p: Path, k: string, a: int, n: int)
    requires Resolves(v, p) && At(v, p).Obj? && k in At(v, p).fields && At(v, p).fields[k] == Num(a)
    ensures ApplyAll(v, Addition(p + [KeyElem(k)], n)) == Ok(PutAt(v, p, Obj(At(v, p).fields[k := Num(a + n)])))
  {
    if n == 0 {
      assert At(v, p).fields[k := Num(a)] == At(v, p).fields;
      Composition.PutAtSame(v, p);
    } else {
      DiffReach.ApplySlot(v, p, KeyElem(k), SubTypeOp(NumberAdd, Num(n)));
    }
  }
}
