/** Where applying a difference leads: to the target, except where the list code skips a replacement. */
module DiffReach {
  import opened Json
  import opened Operators
  import opened Apply
  import opened Algebra
  import opened Routing
  import opened Tracking
  import opened Composition
  import opened Diff
  import TreeConvergence
  import Keys

  /** Every key of every object is non-empty. */
  predicate WellKeyed(v: Value) {
    match v
    case Arr(items) => forall i :: 0 <= i < |items| ==> WellKeyed(items[i])
    case Obj(fields) => forall k :: k in fields ==> k != "" && WellKeyed(fields[k])
    case _ => true
  }

  /** The value at a path is replaced as a whole. */
  predicate ReplacedWhole(p: Path, from: Value, to: Value) {
    && from != to
    && !(from.Obj? && to.Obj?)
    && !(from.Arr? && to.Arr? && |from.items| == |to.items|)
    && !(from.Num? && to.Num? && SupportsSubTypePath(p))
  }

  /** A replacement the list code skips: of the first element, or of null. */
  predicate SkippedAt(p: Path, from: Value) {
    p != [] && p[|p| - 1].key == "" && (p[|p| - 1].index == 0 || from.Null?)
  }

  /** The value the difference really leads to. */
  ghost function Reached(p: Path, from: Value, to: Value): Value
    decreases from
  {
    if from == to then to
    else if from.Obj? && to.Obj? then
      Obj(map k | k in to.fields ::
        if k in from.fields then Reached(p + [KeyElem(k)], from.fields[k], to.fields[k]) else to.fields[k])
    else if from.Arr? && to.Arr? && |from.items| == |to.items| then
      Arr(seq(|to.items|, i requires 0 <= i < |to.items| => Reached(p + [IndexElem(i)], from.items[i], to.items[i])))
    else if ReplacedWhole(p, from, to) && SkippedAt(p, from) then from
    else to
  }

  /** No array slot replaced as a whole is the first one or holds null. */
  predicate SafeDiff(p: Path, from: Value, to: Value)
    decreases from
  {
    if from == to then true
    else if from.Obj? && to.Obj? then
      forall k :: k in from.fields && k in to.fields ==> SafeDiff(p + [KeyElem(k)], from.fields[k], to.fields[k])
    else if from.Arr? && to.Arr? && |from.items| == |to.items| then
      forall i :: 0 <= i < |from.items| ==> SafeDiff(p + [IndexElem(i)], from.items[i], to.items[i])
    else !(ReplacedWhole(p, from, to) && SkippedAt(p, from))
  }

  /** The difference leads to the target exactly when it is safe. */
  lemma {:induction false} ReachedIsTarget(p: Path, from: Value, to: Value)
    ensures Reached(p, from, to) == to <==> SafeDiff(p, from, to)
    decreases from
  {
    if from == to {
    } else if from.Obj? && to.Obj? {
      var r := Reached(p, from, to).fields;
      forall k | k in from.fields && k in to.fields
        ensures r[k] == to.fields[k] <==> SafeDiff(p + [KeyElem(k)], from.fields[k], to.fields[k])
      {
        ReachedIsTarget(p + [KeyElem(k)], from.fields[k], to.fields[k]);
      }
      assert r.Keys == to.fields.Keys;
      assert r == to.fields <==> forall k :: k in to.fields ==> r[k] == to.fields[k];
    } else if from.Arr? && to.Arr? && |from.items| == |to.items| {
      var r := Reached(p, from, to).items;
      forall i | 0 <= i < |from.items|
        ensures r[i] == to.items[i] <==> SafeDiff(p + [IndexElem(i)], from.items[i], to.items[i])
      {
        ReachedIsTarget(p + [IndexElem(i)], from.items[i], to.items[i]);
      }
      assert r == to.items <==> forall i :: 0 <= i < |r| ==> r[i] == to.items[i];
    }
  }

  // ---- Applying what is emitted -------------------------------------------------------------------------

  lemma {:induction false} ApplyInTwo(v: Value, a: seq<Component>, b: seq<Component>)
    ensures ApplyAll(v, a + b) == match ApplyAll(v, a) { case Ok(w) => ApplyAll(w, b) case Err(e) => Err(e) }
    decreases |a|
  {
    if a == [] {
      assert a + b == b;
    } else {
      assert (a + b)[0] == a[0] && (a + b)[1..] == a[1..] + b;
      var r := ApplyOne(v, a[0]);
      if r.Ok? {
        ApplyInTwo(r.value, a[1..], b);
      }
    }
  }

  lemma {:induction false} PutDeeper(v: Value, p: Path, e: PathElement, c: Value)
    requires Resolves(v, p) && HasChild(At(v, p), e)
    ensures Resolves(v, p + [e]) && At(v, p + [e]) == Child(At(v, p), e)
    ensures PutAt(v, p + [e], c) == PutAt(v, p, PutChild(At(v, p), e, c))
    decreases |p|
  {
    if p == [] {
      assert p + [e] == [e] && [e][1..] == [];
    } else {
      assert (p + [e])[0] == p[0] && (p + [e])[1..] == p[1..] + [e];
      PutDeeper(Child(v, p[0]), p[1..], e, c);
    }
  }

  lemma {:induction false} ApplySlot(v: Value, p: Path, e: PathElement, op: Operator)
    requires Resolves(v, p) && IsContainer(At(v, p))
    ensures ApplyAll(v, [Component(p + [e], op)]) ==
      match ApplyToContainer(At(v, p), e, op) { case Ok(c) => Ok(PutAt(v, p, c)) case Err(x) => Err(x) }
  {
    Locality(v, p, [e], op);
    var c := Component(p + [e], op);
    assert [c][1..] == [];
    var r := ApplyOne(v, c);
    if r.Ok? {
      assert ApplyAll(r.value, []) == r;
    }
  }

  /** Both are objects, or arrays of one length: the difference goes inside. */
  predicate GoesInside(from: Value, to: Value) {
    (from.Obj? && to.Obj?) || (from.Arr? && to.Arr? && |from.items| == |to.items|)
  }

  lemma {:induction false} LeafInContainer(container: Value, p: Path, e: PathElement, from: Value, to: Value)
    requires HasChild(container, e) && Child(container, e) == from && from != to && !GoesInside(from, to)
    ensures |EmittedInto(p + [e], from, to)| == 1 && EmittedInto(p + [e], from, to)[0].path == p + [e]
    ensures ApplyToContainer(container, e, EmittedInto(p + [e], from, to)[0].operator)
         == Ok(PutChild(container, e, Reached(p + [e], from, to)))
  {
    if container.Arr? {
      assert EmittedInto(p + [e], from, to)[0].operator == ListReplace(to, from);
      assert container.items[e.index := from] == container.items;
    }
  }

  lemma {:induction false} LeafReaches(w: Value, p: Path, e: PathElement, from: Value, to: Value)
    requires Resolves(w, p) && HasChild(At(w, p), e) && Child(At(w, p), e) == from
    requires from != to && !GoesInside(from, to)
    ensures Resolves(w, p + [e])
    ensures ApplyAll(w, EmittedInto(p + [e], from, to)) == Ok(PutAt(w, p + [e], Reached(p + [e], from, to)))
  {
    var q, container := p + [e], At(w, p);
    var r, emitted := Reached(q, from, to), EmittedInto(q, from, to);
    LeafInContainer(container, p, e, from, to);
    PutDeeper(w, p, e, r);
    ApplySlot(w, p, e, emitted[0].operator);
    assert emitted == [Component(q, emitted[0].operator)];
  }

  lemma {:induction false} ReadAfterPut(v: Value, p: Path, c: Value, d: Value)
    requires Resolves(v, p)
    ensures Resolves(PutAt(v, p, c), p) && At(PutAt(v, p, c), p) == c
    ensures PutAt(PutAt(v, p, c), p, d) == PutAt(v, p, d)
  {
    PutTwice(v, p, c, d);
  }

  /** One element put in its place; what is put over the whole array later, `all`, is put over either. */
  lemma {:induction false} ItemPut(w: Value, p: Path, now: seq<Value>, i: nat, r: Value, all: Value)
    requires Resolves(w, p) && At(w, p) == Arr(now) && i < |now|
    ensures Resolves(w, p + [IndexElem(i)]) && PutAt(w, p + [IndexElem(i)], r) == PutAt(w, p, Arr(now[i := r]))
    ensures var u := PutAt(w, p, Arr(now[i := r]));
      Resolves(u, p) && At(u, p) == Arr(now[i := r]) && PutAt(u, p, all) == PutAt(w, p, all)
  {
    PutDeeper(w, p, IndexElem(i), r);
    ReadAfterPut(w, p, Arr(now[i := r]), all);
  }

  ghost function ReachedItems(p: Path, from: Value, to: Value): (r: seq<Value>)
    requires from.Arr? && to.Arr? && |from.items| == |to.items|
    ensures |r| == |from.items|
  {
    seq(|from.items|, i requires 0 <= i < |from.items| => Reached(p + [IndexElem(i)], from.items[i], to.items[i]))
  }

  lemma {:induction false} ApplyThen(v: Value, a: seq<Component>, u: Value, b: seq<Component>, w: Value)
    requires ApplyAll(v, a) == Ok(u) && ApplyAll(u, b) == Ok(w)
    ensures ApplyAll(v, a + b) == Ok(w)
  {
    ApplyInTwo(v, a, b);
  }

  lemma {:induction false} OneMoreDone(reached: seq<Value>, items: seq<Value>, i: nat)
    requires i < |items| == |reached|
    ensures var now := reached[..i] + items[i..];
      now[i] == items[i] && now[i := reached[i]] == reached[..i + 1] + items[i + 1..]
  {
  }

  lemma {:induction false} ItemReaches(w: Value, p: Path, from: Value, to: Value, i: nat, now: seq<Value>)
    requires from.Arr? && to.Arr? && |from.items| == |to.items| == |now| && i < |now| && now[i] == from.items[i]
    requires WellKeyed(from) && WellKeyed(to) && Resolves(w, p) && At(w, p) == Arr(now)
    ensures var q := p + [IndexElem(i)];
      && Resolves(w, q)
      && ApplyAll(w, EmittedInto(q, from.items[i], to.items[i]))
        == Ok(PutAt(w, q, Reached(q, from.items[i], to.items[i])))
    decreases from, 0, 0
  {
    Reaches(w, p, IndexElem(i), from.items[i], to.items[i]);
  }

  /** Element by element; `reached` is what is reached for each, and the elements before i are done. */
  lemma {:induction false} ItemsReach(w: Value, p: Path, from: Value, to: Value, i: nat, reached: seq<Value>)
    requires from.Arr? && to.Arr? && |from.items| == |to.items| && i <= |from.items|
    requires reached == ReachedItems(p, from, to) && WellKeyed(from) && WellKeyed(to)
    requires Resolves(w, p) && At(w, p) == Arr(reached[..i] + from.items[i..])
    ensures ApplyAll(w, EmittedItems(p, from, to, i)) == Ok(PutAt(w, p, Arr(reached)))
    decreases from, 0, |from.items| - i
  {
    var now := reached[..i] + from.items[i..];
    if i == |from.items| {
      assert now == reached;
      PutAtSame(w, p);
    } else {
      var next := now[i := reached[i]];
      OneMoreDone(reached, from.items, i);
      ItemPut(w, p, now, i, reached[i], Arr(reached));
      ItemReaches(w, p, from, to, i, now);
      var u := PutAt(w, p, Arr(next));
      ItemsReach(u, p, from, to, i + 1, reached);
      var here, rest := EmittedInto(p + [IndexElem(i)], from.items[i], to.items[i]), EmittedItems(p, from, to, i + 1);
      ApplyThen(w, here, u, rest, PutAt(w, p, Arr(reached)));
    }
  }

  /** Applying what is emitted for the child at a slot puts there what is reached. */
  lemma {:induction false} Reaches(w: Value, p: Path, e: PathElement, from: Value, to: Value)
    requires Resolves(w, p) && HasChild(At(w, p), e) && Child(At(w, p), e) == from
    requires WellKeyed(from) && WellKeyed(to)
    ensures Resolves(w, p + [e])
    ensures ApplyAll(w, EmittedInto(p + [e], from, to)) == Ok(PutAt(w, p + [e], Reached(p + [e], from, to)))
    decreases from, 1, 0
  {
    PutDeeper(w, p, e, from);
    if GoesInside(from, to) {
      ReachesInside(w, p + [e], from, to);
    } else if from == to {
      PutAtSame(w, p + [e]);
    } else {
      LeafReaches(w, p, e, from, to);
    }
  }

  lemma {:induction false} LessMeansDifferent(keys: seq<string>)
    requires forall i, j :: 0 <= i < j < |keys| ==> Keys.Less(keys[i], keys[j])
    ensures forall i, j :: 0 <= i < j < |keys| ==> keys[i] != keys[j]
  {
    forall i, j | 0 <= i < j < |keys| ensures keys[i] != keys[j] {
      Keys.LessIsAsymmetric(keys[i], keys[j]);
    }
  }

  lemma {:induction false} ReachesInside(w: Value, p: Path, from: Value, to: Value)
    requires Resolves(w, p) && At(w, p) == from && GoesInside(from, to)
    requires WellKeyed(from) && WellKeyed(to)
    ensures ApplyAll(w, EmittedInto(p, from, to)) == Ok(PutAt(w, p, Reached(p, from, to)))
    decreases from, 0, if from.Arr? then |from.items| + 1 else |Keys.SortedKeys(from.fields.Keys + to.fields.Keys)| + 2
  {
    if from == to {
      PutAtSame(w, p);
    } else if from.Arr? {
      var reached := ReachedItems(p, from, to);
      assert reached[..0] + from.items[0..] == from.items && Arr(reached) == Reached(p, from, to);
      ItemsReach(w, p, from, to, 0, reached);
    } else {
      var keys := Keys.SortedKeys(from.fields.Keys + to.fields.Keys);
      Keys.SortedKeysIsSorted(from.fields.Keys + to.fields.Keys);
      LessMeansDifferent(keys);
      KeysReach(w, p, from, to, keys, from.fields);
    }
  }

  /** What is reached at a key of the target. */
  ghost function ReachedAt(p: Path, from: Value, to: Value, k: string): Value
    requires from.Obj? && to.Obj? && k in to.fields
  {
    if k in from.fields then Reached(p + [KeyElem(k)], from.fields[k], to.fields[k]) else to.fields[k]
  }

  /** The fields while some keys have been dealt with and the others are as they were. */
  ghost predicate Halfway(p: Path, from: Value, to: Value, keys: seq<string>, now: map<string, Value>)
    requires from.Obj? && to.Obj?
  {
    && (forall k :: k in keys ==> (k in now <==> k in from.fields) && (k in now ==> now[k] == from.fields[k]))
    && (forall k :: k !in keys ==> (k in now <==> k in to.fields) && (k in now ==> now[k] == ReachedAt(p, from, to, k)))
  }

  /** The fields after one more key. */
  ghost function KeyDone(p: Path, from: Value, to: Value, now: map<string, Value>, k: string): map<string, Value>
    requires from.Obj? && to.Obj?
  {
    if k in to.fields then now[k := ReachedAt(p, from, to, k)] else now - {k}
  }

  lemma {:induction false} KeyReaches(w: Value, p: Path, from: Value, to: Value, now: map<string, Value>, k: string)
    requires from.Obj? && to.Obj? && Resolves(w, p) && At(w, p) == Obj(now) && WellKeyed(from) && WellKeyed(to)
    requires (k in now <==> k in from.fields) && (k in now ==> now[k] == from.fields[k])
    ensures ApplyAll(w, EmittedKey(p, from, to, k)) == Ok(PutAt(w, p, Obj(KeyDone(p, from, to, now, k))))
    decreases from, 0, 0
  {
    var e := KeyElem(k);
    if k in from.fields && k in to.fields {
      Reaches(w, p, e, from.fields[k], to.fields[k]);
      PutDeeper(w, p, e, ReachedAt(p, from, to, k));
    } else if k in from.fields {
      ApplySlot(w, p, e, ObjectDelete(from.fields[k]));
    } else if k in to.fields {
      ApplySlot(w, p, e, ObjectInsert(to.fields[k]));
    } else {
      assert now - {k} == now;
      PutAtSame(w, p);
    }
  }

  lemma {:induction false} KeysReach(w: Value, p: Path, from: Value, to: Value, keys: seq<string>,
      now: map<string, Value>)
    requires from.Obj? && to.Obj? && from != to && WellKeyed(from) && WellKeyed(to)
    requires Resolves(w, p) && At(w, p) == Obj(now) && Halfway(p, from, to, keys, now)
    requires forall i, j :: 0 <= i < j < |keys| ==> keys[i] != keys[j]
    ensures ApplyAll(w, EmittedKeys(p, from, to, keys)) == Ok(PutAt(w, p, Reached(p, from, to)))
    decreases from, 0, |keys| + 1
  {
    if keys == [] {
      assert now == Reached(p, from, to).fields;
      PutAtSame(w, p);
    } else {
      var k, rest := keys[0], keys[1..];
      var next := KeyDone(p, from, to, now, k);
      KeyReaches(w, p, from, to, now, k);
      ApplyInTwo(w, EmittedKey(p, from, to, k), EmittedKeys(p, from, to, rest));
      ReadAfterPut(w, p, Obj(next), Reached(p, from, to));
      assert Halfway(p, from, to, rest, next) by {
        assert forall j :: j in keys <==> j == k || j in rest;
        assert k !in rest;
      }
      KeysReach(PutAt(w, p, Obj(next)), p, from, to, rest, next);
    }
  }

  // ---- No two emitted components share a path -----------------------------------------------------------

  predicate Beneath(p: Path, cs: seq<Component>) {
    forall i :: 0 <= i < |cs| ==> p <= cs[i].path && !cs[i].operator.ListMove?
  }

  predicate PathsDiffer(cs: seq<Component>) {
    forall i, j :: 0 <= i < j < |cs| ==> cs[i].path != cs[j].path
  }

  /** The step after `p` in every path is one of the given ones. */
  predicate StepsAmong(p: Path, cs: seq<Component>, steps: set<PathElement>) {
    forall i :: 0 <= i < |cs| ==> |p| < |cs[i].path| && cs[i].path[|p|] in steps
  }

  lemma {:induction false} BeneathStep(p: Path, e: PathElement, cs: seq<Component>)
    requires Beneath(p + [e], cs)
    ensures Beneath(p, cs) && StepsAmong(p, cs, {e})
  {
    forall i | 0 <= i < |cs|
      ensures p <= cs[i].path && |p| < |cs[i].path| && cs[i].path[|p|] == e
    {
      assert (p + [e])[|p|] == e && cs[i].path[..|p| + 1] == p + [e];
    }
  }

  lemma {:induction false} DifferTogether(p: Path, a: seq<Component>, b: seq<Component>, s: set<PathElement>,
      t: set<PathElement>)
    requires PathsDiffer(a) && PathsDiffer(b) && StepsAmong(p, a, s) && StepsAmong(p, b, t) && s !! t
    requires Beneath(p, a) && Beneath(p, b)
    ensures PathsDiffer(a + b) && Beneath(p, a + b) && StepsAmong(p, a + b, s + t)
  {
    var cs := a + b;
    forall i, j | 0 <= i < j < |cs| ensures cs[i].path != cs[j].path {
      if i < |a| <= j {
        assert cs[i] == a[i] && cs[j] == b[j - |a|];
        assert cs[i].path[|p|] in s && cs[j].path[|p|] in t;
      }
    }
  }

  function KeySteps(keys: seq<string>): set<PathElement> {
    set k | k in keys :: KeyElem(k)
  }

  lemma {:induction false} KeysDiffer(p: Path, from: Value, to: Value, keys: seq<string>)
    requires from.Obj? && to.Obj?
    requires forall i, j :: 0 <= i < j < |keys| ==> keys[i] != keys[j]
    ensures var cs := EmittedKeys(p, from, to, keys);
      PathsDiffer(cs) && Beneath(p, cs) && StepsAmong(p, cs, KeySteps(keys))
    decreases from, 0, |keys|
  {
    if keys != [] {
      var k, rest := keys[0], keys[1..];
      var q := p + [KeyElem(k)];
      if k in from.fields && k in to.fields {
        EmittedDiffers(q, from.fields[k], to.fields[k]);
      }
      BeneathStep(p, KeyElem(k), EmittedKey(p, from, to, k));
      KeysDiffer(p, from, to, rest);
      assert KeyElem(k) !in KeySteps(rest);
      DifferTogether(p, EmittedKey(p, from, to, k), EmittedKeys(p, from, to, rest), {KeyElem(k)}, KeySteps(rest));
      assert {KeyElem(k)} + KeySteps(rest) == KeySteps(keys);
    }
  }

  lemma {:induction false} ItemsDiffer(p: Path, from: Value, to: Value, i: nat)
    requires from.Arr? && to.Arr? && |from.items| == |to.items| && i <= |from.items|
    ensures var cs := EmittedItems(p, from, to, i);
      PathsDiffer(cs) && Beneath(p, cs) && StepsAmong(p, cs, set k | i <= k < |from.items| :: IndexElem(k))
    decreases from, 0, |from.items| - i
  {
    if i < |from.items| {
      var e, rest := IndexElem(i), set k | i + 1 <= k < |from.items| :: IndexElem(k);
      EmittedDiffers(p + [e], from.items[i], to.items[i]);
      BeneathStep(p, e, EmittedInto(p + [e], from.items[i], to.items[i]));
      ItemsDiffer(p, from, to, i + 1);
      assert e !in rest;
      DifferTogether(p, EmittedInto(p + [e], from.items[i], to.items[i]), EmittedItems(p, from, to, i + 1), {e}, rest);
      assert {e} + rest == set k | i <= k < |from.items| :: IndexElem(k);
    }
  }

  lemma {:induction false} EmittedDiffers(p: Path, from: Value, to: Value)
    ensures PathsDiffer(EmittedInto(p, from, to)) && Beneath(p, EmittedInto(p, from, to))
    decreases from, 1, 0
  {
    if from == to {
    } else if from.Obj? && to.Obj? {
      var keys := Keys.SortedKeys(from.fields.Keys + to.fields.Keys);
      Keys.SortedKeysIsSorted(from.fields.Keys + to.fields.Keys);
      LessMeansDifferent(keys);
      KeysDiffer(p, from, to, keys);
    } else if from.Arr? && to.Arr? && |from.items| == |to.items| {
      ItemsDiffer(p, from, to, 0);
    }
  }

  lemma {:induction false} NothingMerges(a: seq<Component>, b: seq<Component>)
    requires PathsDiffer(a + b) && Beneath([], b)
    ensures Composed(a, b) == a + b
    decreases |b|
  {
    if b == [] {
      assert a + b == a;
    } else {
      assert (a + [b[0]]) + b[1..] == a + b;
      assert a != [] ==> a[|a| - 1].path != b[0].path by {
        if a != [] {
          assert (a + b)[|a| - 1] == a[|a| - 1] && (a + b)[|a|] == b[0];
        }
      }
      assert Appended(a, b[0]) == a + [b[0]];
      NothingMerges(a + [b[0]], b[1..]);
    }
  }

  lemma {:induction false} NoMovesValidate(cs: seq<Component>)
    requires Beneath([], cs)
    ensures ValidationError(cs).None?
    decreases |cs|
  {
    if cs != [] {
      NoMovesValidate(cs[1..]);
    }
  }

  // ---- The whole difference -----------------------------------------------------------------------------

  lemma {:induction false} RootReaches(from: Value, to: Value)
    requires WellKeyed(from) && WellKeyed(to)
    ensures ApplyAll(from, EmittedInto([], from, to)) == Ok(Reached([], from, to))
  {
    if GoesInside(from, to) {
      ReachesInside(from, [], from, to);
    } else if from != to {
      var c := EmittedInto([], from, to)[0];
      assert EmittedInto([], from, to) == [c] && [c][1..] == [];
      assert ApplyAll(to, []) == Ok(to);
    }
  }

  /** Applying the operation the difference builds succeeds, and gives the target exactly when the difference
      is safe. */
  lemma {:induction false} DiffReaches(from: Value, to: Value)
    requires WellKeyed(from) && WellKeyed(to)
    ensures var operation := Composed([], EmittedInto([], from, to));
      && operation == EmittedInto([], from, to) && PathsDiffer(operation)
      && ApplyOperation(from, operation).Ok?
      && (ApplyOperation(from, operation) == Ok(to) <==> SafeDiff([], from, to))
  {
    var emitted := EmittedInto([], from, to);
    EmittedDiffers([], from, to);
    assert [] + emitted == emitted;
    NothingMerges([], emitted);
    NoMovesValidate(emitted);
    RootReaches(from, to);
    ReachedIsTarget([], from, to);
  }
}
