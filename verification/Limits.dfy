/** Inputs on which the code does not do what it is meant to; the conditions of the main theorems shut them out. */
module Limits {
  import opened Json
  import opened Operators
  import opened Sequences
  import opened Apply
  import opened Transform
  import opened Validity
  import opened ListConvergence
  import opened BothOrders
  import TreeConvergence
  import opened ShareDb
  import opened Requests
  import Algebra
  import Collapse
  import Composition
  import Diff
  import DiffReach
  import Faithful
  import History
  import Inversion
  import Nested
  import Rebase
  import Routing
  import Serial
  import Tracking
  import Wire

  /** Moving the first element is accepted and does nothing. */
  lemma {:induction false} FrontMoveDoesNothing(a: Value, b: Value, rest: seq<Value>)
    ensures var doc, c := Arr([a, b] + rest), Component([IndexElem(0)], ListMove(1));
      Fits(doc, c) && ApplyOperation(doc, [c]) == Ok(doc)
  {
    ApplySingle(Arr([a, b] + rest), Component([IndexElem(0)], ListMove(1)));
  }

  /** Deleting the first element brings a concurrent replacement of the second one to index 0, where it is lost: the
      two orders give different documents. */
  lemma {:induction false} ReplacementIsLostInFront(a: Value, b: Value, c: Value)
    requires b != c && !b.Null?
    ensures var doc := Arr([a, b]);
      var l, r := Component([IndexElem(0)], ListDelete(a)), Component([IndexElem(1)], ListReplace(c, b));
      && Effective(doc, l) && Effective(doc, r)
      && Then(doc, l, TransformComponent(r, l, Right)) == Ok(Arr([b]))
      && Then(doc, r, TransformComponent(l, r, Left)) == Ok(Arr([c]))
  {
    var items := [a, b];
    var l, r := Slot(0, ListDelete(a)), Slot(1, ListReplace(c, b));
    TransformAtSlots(0, l.operator, 1, r.operator, Left);
    TransformAtSlots(1, r.operator, 0, l.operator, Right);
    assert RemoveAt(items, 0) == [b] && items[1 := c] == [a, c] && RemoveAt([a, c], 0) == [c];
    ApplySlot(items, l);
    ApplySlot(items, r);
    ApplySlot([b], Slot(0, ListReplace(c, b)));
    ApplySlot([a, c], l);
    ThenApplied(Arr(items), l, Slot(0, ListReplace(c, b)));
    ThenApplied(Arr(items), r, l);
  }

  /** A replacement by the value that is already there is not shifted past a concurrent insertion, and then hits
      another element. */
  lemma {:induction false} NoopReplacementIsNotShifted(a: Value, b: Value, c: Value)
    requires a != b && !a.Null? && !b.Null? && c != b
    ensures var doc := Arr([a, b, b]);
      var l, r := Component([IndexElem(1)], ListReplace(b, b)), Component([IndexElem(0)], ListInsert(c));
      && Fits(doc, l) && Fits(doc, r) && TransformComponent(l, r, Left) == Ok([l])
      && Then(doc, l, TransformComponent(r, l, Right)) == Ok(Arr([c, a, b, b]))
      && Then(doc, r, TransformComponent(l, r, Left)) == Ok(Arr([c, b, b, b]))
  {
    var items := [a, b, b];
    var l, r := Slot(1, ListReplace(b, b)), Slot(0, ListInsert(c));
    var inserted := [c, a, b, b];
    assert InsertAt(items, 0, c) == inserted && items[1 := b] == items && inserted[1 := b] == [c, b, b, b];
    ThenApplied(Arr(items), l, r);
    ThenApplied(Arr(items), r, l);
    TwicePresent(inserted, b, 2, 3);
    assert IndexOf(inserted, b, 1) == 1;
  }

  /** A value that occurs twice has no single position. */
  lemma {:induction false} TwicePresent(arr: seq<Value>, v: Value, i: nat, j: nat)
    requires i < j < |arr| && arr[i] == v && arr[j] == v
    ensures |Positions(arr, v)| >= 2
    decreases |arr|
  {
    var init := arr[..|arr| - 1];
    if j < |init| {
      TwicePresent(init, v, i, j);
    } else {
      OncePresent(init, v, i);
    }
  }

  lemma {:induction false} OncePresent(arr: seq<Value>, v: Value, i: nat)
    requires i < |arr| && arr[i] == v
    ensures |Positions(arr, v)| >= 1
    decreases |arr|
  {
    if i < |arr| - 1 {
      OncePresent(arr[..|arr| - 1], v, i);
    }
  }

  /** A number in a list can be added to, and is not. */
  lemma {:induction false} ListNumbersStay(items: seq<Value>, i: nat, n: int, m: int)
    requires i < |items| && items[i] == Num(n)
    ensures var c := Slot(i, SubTypeOp(NumberAdd, Num(m)));
      Effective(Arr(items), c) && ApplyOperation(Arr(items), [c]) == Ok(Arr(items))
  {
    var c := Slot(i, SubTypeOp(NumberAdd, Num(m)));
    Nested.AddChangesNothing(items, c);
    ApplySingle(Arr(items), c);
  }

  // ---- Conflicts over a key -----------------------------------------------------------------------------

  /** A left addition to a number that right replaces is dropped: right's value stays. */
  lemma {:induction false} AdditionYields(k: string, n: int, m: int, b: Value)
    requires k != "" && b != Num(n)
    ensures var doc := Obj(map[k := Num(n)]);
      var l := Component([KeyElem(k)], SubTypeOp(NumberAdd, Num(m)));
      var r := Component([KeyElem(k)], ObjectReplace(b, Num(n)));
      && Effective(doc, l) && Effective(doc, r) && TreeConvergence.RightStays(l, r)
      && Then(doc, r, TransformComponent(l, r, Left)) == Ok(Obj(map[k := b]))
  {
    var doc := Obj(map[k := Num(n)]);
    var l := Component([KeyElem(k)], SubTypeOp(NumberAdd, Num(m)));
    var r := Component([KeyElem(k)], ObjectReplace(b, Num(n)));
    TreeConvergence.LeftWins(doc, l, r);
    assert doc.fields[k := b] == map[k := b];
  }

  /** Deleting a key and concurrently replacing its value: each side drops its edit, and the documents differ. */
  lemma {:induction false} DeleteAndReplaceDiverge(k: string, a: Value, b: Value)
    requires k != "" && a != b
    ensures var doc := Obj(map[k := a]);
      var l, r := Component([KeyElem(k)], ObjectDelete(a)), Component([KeyElem(k)], ObjectReplace(b, a));
      && Effective(doc, l) && Effective(doc, r)
      && TransformComponent(l, r, Left) == Ok([]) && TransformComponent(r, l, Right) == Ok([])
      && Then(doc, l, Ok([])) == Ok(Obj(map[])) && Then(doc, r, Ok([])) == Ok(Obj(map[k := b]))
  {
    var fields := map[k := a];
    var l, r := Component([KeyElem(k)], ObjectDelete(a)), Component([KeyElem(k)], ObjectReplace(b, a));
    TreeConvergence.TransformAtKeys(fields, l, r, Left);
    TreeConvergence.TransformAtKeys(fields, r, l, Right);
    assert fields - {k} == map[] && fields[k := b] == map[k := b];
  }

  /** A list operator at the root makes the transformation index a path at -1. */
  lemma {:induction false} RootListOperatorPanics(n: Component, b: Component, side: Side)
    requires b.path == [] && (b.operator.ListInsert? || b.operator.ListDelete? || b.operator.ListMove?)
    requires !IsEquivalentToNoop(n) && !(n.operator.ListInsert? && n.path == []) && n.path != []
    ensures TransformComponent(n, b, side) == Err(Panic)
  {
  }

  /** Against nothing an operation stays as it is, and nothing comes back against anything. */
  lemma {:induction false} NothingToTransform(op: seq<Component>, base: seq<Component>)
    ensures TransformOperation(op, []) == Ok((op, []))
    ensures ValidationError(base).None? ==> TransformOperation([], base) == Ok(([], base))
  {
  }

  /** With several components on either side both sides come back as the base operation, its first component edited
      in place: the edits of the transformed operation are gone. */
  lemma {:induction false} SeveralComponentsComeBackAsBase(op: seq<Component>, base: seq<Component>)
    requires op != [] && base != [] && |op| + |base| > 2 && TransformOperation(op, base).Ok?
    ensures var (left, right) := TransformOperation(op, base).value;
      left == right && |left| == |base| && left[1..] == base[1..]
      && (Meet(op[0], base[0]).Apart? && Meet(base[0], op[0]).Apart? ==> left == base)
  {
    var edited := Mutated(op[0], base[0], Left);
    assert ([Mutated(base[0], edited, Right)] + base[1..])[1..] == base[1..];
    assert [base[0]] + base[1..] == base;
  }

  /** Inserting and deleting a key in one operation cannot be undone: the inverses collapse to a component that
      applies to no object. */
  lemma {:induction false} InsertAndDeleteCannotBeUndone(k: string, a: Value, fields: map<string, Value>)
    requires k != "" && !a.Null?
    ensures var cs := [Component([KeyElem(k)], ObjectInsert(a)), Component([KeyElem(k)], ObjectDelete(a))];
      var inverse := History.InverseOperation(cs);
      inverse == Ok([Component([KeyElem(k)], Noop)]) && ApplyOperation(Obj(fields), inverse.value).Err?
  {
    var p := [KeyElem(k)];
    var insert, delete, noop := Component(p, ObjectInsert(a)), Component(p, ObjectDelete(a)), Component(p, Noop);
    var cs := [insert, delete];
    assert cs[..1] == [insert] && [insert][..0] == [];
    assert Algebra.Appended([], insert) == [insert] && Algebra.Appended([insert], delete) == [noop] by {
      assert [insert][..0] + [noop] == [noop];
    }
    assert History.InverseFrom([insert], [insert]) == History.InverseFrom([], [noop]);
    assert History.InverseFrom(cs, []) == History.InverseFrom([insert], [insert]);
    Wire.OperationRoundTrip([noop]);
    assert Wire.RenamedAll([noop]) == [noop];
    ApplySingle(Obj(fields), noop);
  }

  function Insertion(k: string, a: Value): Component { Component([KeyElem(k)], ObjectInsert(a)) }

  function Deletion(k: string, a: Value): Component { Component([KeyElem(k)], ObjectDelete(a)) }

  function Logged(version: int, op: Op): OpRecord {
    OpRecord(version, version - 1, OpId("", 0), "", 0, None, Wire.PrintAll(op))
  }

  /** An empty document in which a key was inserted by one operation and deleted by the next. */
  function InsertedAndDeleted(k: string, a: Value): Room {
    var first, second := Logged(1, [Insertion(k, a)]), Logged(2, [Deletion(k, a)]);
    Room(Some(Doc(2, Obj(map[]), [first, second])), map[],
         [OpEvent(first, Obj(map[k := a])), OpEvent(second, Obj(map[]))],
         1, Obj(map[]), [[Insertion(k, a)], [Deletion(k, a)]], 0)
  }

  lemma {:induction false} InverseOfOne(c: Component, inverse: Component)
    requires Algebra.Invert(c) == Ok(inverse) && !inverse.operator.ListMove?
    ensures History.InverseOperation([c]) == Wire.ParseOperation(Wire.PrintAll([inverse]))
  {
    assert [c][..0] == [] && Algebra.Appended([], inverse) == [] + [inverse] == [inverse];
    assert History.InverseFrom([c], []) == History.InverseFrom([], [inverse]);
  }

  lemma {:induction false} KeyOperations(k: string, a: Value)
    requires k != "" && !a.Null?
    ensures var ins, del := Insertion(k, a), Deletion(k, a);
      && ApplyOperation(Obj(map[]), [ins]) == Ok(Obj(map[k := a]))
      && ApplyOperation(Obj(map[k := a]), [del]) == Ok(Obj(map[]))
      && Wire.ParseOperation(Wire.PrintAll([ins])) == Ok([ins])
      && Wire.ParseOperation(Wire.PrintAll([del])) == Ok([del])
      && History.InverseOperation([ins]) == Ok([del]) && History.InverseOperation([del]) == Ok([ins])
  {
    var ins, del := Insertion(k, a), Deletion(k, a);
    ApplySingle(Obj(map[]), ins);
    ApplySingle(Obj(map[k := a]), del);
    assert map[k := a] - {k} == map[];
    Wire.OperationRoundTrip([ins]);
    Wire.OperationRoundTrip([del]);
    assert Wire.RenamedAll([ins]) == [ins] && Wire.RenamedAll([del]) == [del];
    InverseOfOne(ins, del);
    InverseOfOne(del, ins);
  }

  lemma {:induction false} InsertedAndDeletedIsSound(k: string, a: Value)
    requires k != "" && !a.Null?
    ensures Serial.Sound(InsertedAndDeleted(k, a))
  {
    var room := InsertedAndDeleted(k, a);
    assert forall i :: 0 <= i < 2 ==> !Identifies(RecordId(room.doc.value.ops[i]));
    assert Serial.VersionBefore(room.feed, 0) == 0 && Serial.VersionBefore(room.feed, 1) == 1;
  }

  lemma {:induction false} InsertedAndDeletedFolds(k: string, a: Value)
    requires k != "" && !a.Null?
    ensures Faithful.Folds(InsertedAndDeleted(k, a))
  {
    var room, ins, del := InsertedAndDeleted(k, a), [Insertion(k, a)], [Deletion(k, a)];
    KeyOperations(k, a);
    assert room.applied[..0] == [] && room.applied[..1] == [] + [ins] && room.applied[..2] == [ins] + [del];
    Faithful.RunSnoc(room.initial, [], ins);
    Faithful.RunSnoc(room.initial, [ins], del);
  }

  lemma {:induction false} NoopFitsNoObject(k: string, fields: map<string, Value>)
    ensures var noop := Component([KeyElem(k)], Noop);
      ValidationError([noop]).None? && ApplyOperation(Obj(fields), [noop]).Err?
  {
    var noop := Component([KeyElem(k)], Noop);
    assert [noop][1..] == [];
    ApplySingle(Obj(fields), noop);
  }

  lemma {:induction false} InsertedAndDeletedReads(k: string, a: Value)
    requires k != "" && !a.Null?
    ensures var room := InsertedAndDeleted(k, a);
      Faithful.ReadsAs(room.cache, room.doc.value, [[Insertion(k, a)], [Deletion(k, a)]])
  {
    KeyOperations(k, a);
  }

  lemma {:induction false} RollsBackToNoop(k: string, a: Value)
    requires k != "" && !a.Null?
    ensures var log := [[Insertion(k, a)], [Deletion(k, a)]];
      History.RollBack([], Obj(map[]), log) == Ok(([Component([KeyElem(k)], Noop)], Obj(map[])))
  {
    var ins, del, noop := Insertion(k, a), Deletion(k, a), Component([KeyElem(k)], Noop);
    var log := [[ins], [del]];
    KeyOperations(k, a);
    assert log[..1] == [[ins]] && [[ins]][..0] == [];
    Algebra.ComposeInTwo([], [ins], [del]);
    assert Algebra.Composed([], [ins]) == [ins] by { assert [ins][1..] == []; }
    assert Algebra.Composed([ins], [del]) == [noop] by { assert [del][1..] == [] && [ins][..0] + [noop] == [noop]; }
    assert History.RollBack([], Obj(map[]), log) == History.RollBack([ins], Obj(map[k := a]), [[ins]]);
    assert History.RollBack([ins], Obj(map[k := a]), [[ins]]) == History.RollBack([noop], Obj(map[]), []);
  }

  /** Rolling back the insertion and deletion of a key stores the right document, but the operation it logs is a no-op
      at the key, which applies to no object: replaying the log or rebasing a client over it fails. */
  lemma {:induction false} RollbackLogsWhatDoesNotApply(k: string, a: Value)
    requires k != "" && !a.Null?
    ensures var room := InsertedAndDeleted(k, a);
      var decision := DecideRollback(true, room.doc.value, room.cache, 0, "").0;
      && Serial.Sound(room) && Faithful.Folds(room)
      && decision.Write? && decision.snapshot == Faithful.DocumentAt(room, 0)
      && decision.applied == [Component([KeyElem(k)], Noop)]
      && ApplyOperation(room.doc.value.doc, decision.applied).Err?
  {
    var room, d := InsertedAndDeleted(k, a), InsertedAndDeleted(k, a).doc.value;
    var log := [[Insertion(k, a)], [Deletion(k, a)]];
    var noop := Component([KeyElem(k)], Noop);
    InsertedAndDeletedIsSound(k, a);
    InsertedAndDeletedFolds(k, a);
    InsertedAndDeletedReads(k, a);
    Faithful.FoldsBack(room.cache, d, log, 0, d.doc);
    assert log[0..] == log;
    RollsBackToNoop(k, a);
    NoopFitsNoObject(k, map[]);
    Faithful.RollbackWalks(true, d, room.cache, 0, "");
  }

  lemma {:induction false} ApplyTwo(v: Value, c: Component, d: Component)
    requires ValidComponent(c) && ValidComponent(d) && ApplyOne(v, c).Ok?
    ensures ApplyOperation(v, [c, d]) == ApplyOne(ApplyOne(v, c).value, d)
  {
    assert [c, d] == [c] + [d];
    Collapse.ApplySplits(v, [c], [d]);
    ApplySingle(v, c);
    ApplySingle(ApplyOne(v, c).value, d);
    Collapse.ValidationSplits([c], [d]);
  }

  lemma {:induction false} InsertionSwallowed(p: Path, a: Value, b: Value)
    ensures var second := [Component(p, ListDelete(a)), Component(p, ListInsert(b))];
      Algebra.Composed([Component(p, ListInsert(a))], second) == [Component(p, Noop)]
  {
    var ins, del, again := Component(p, ListInsert(a)), Component(p, ListDelete(a)), Component(p, ListInsert(b));
    var noop := Component(p, Noop);
    assert Algebra.Appended([ins], del) == [ins][..0] + [noop] == [noop];
    assert Algebra.Appended([noop], again) == [noop][..0] + [noop] == [noop];
    assert [del, again][1..] == [again] && [again][1..] == [];
    assert Algebra.Composed([noop], [again]) == Algebra.Composed([noop], []);
    assert Algebra.Composed([ins], [del, again]) == Algebra.Composed([noop], [again]);
  }

  lemma {:induction false} InsertsInFront(a: Value, items: seq<Value>)
    ensures ApplyOne(Arr(items), Slot(0, ListInsert(a))) == Ok(Arr([a] + items))
  {
    ApplySlot(items, Slot(0, ListInsert(a)));
    assert InsertAt(items, 0, a) == [a] + items;
  }

  lemma {:induction false} DeletesInFront(a: Value, items: seq<Value>)
    ensures ApplyOne(Arr([a] + items), Slot(0, ListDelete(a))) == Ok(Arr(items))
  {
    ApplySlot([a] + items, Slot(0, ListDelete(a)));
    assert RemoveAt([a] + items, 0) == items;
  }

  /** A list insertion met by its deletion leaves a no-op in the list, which takes in the next insertion there: the
      composition does nothing where the two operations insert an element. */
  lemma {:induction false} InsertionIsSwallowed(a: Value, b: Value, items: seq<Value>)
    ensures var first := [Component([IndexElem(0)], ListInsert(a))];
      var second := [Component([IndexElem(0)], ListDelete(a)), Component([IndexElem(0)], ListInsert(b))];
      && ApplyOperation(Arr(items), Algebra.Composed(first, second)) == Ok(Arr(items))
      && ApplyOperation(Arr(items), first) == Ok(Arr([a] + items))
      && ApplyOperation(Arr([a] + items), second) == Ok(Arr([b] + items))
  {
    InsertionSwallowed([IndexElem(0)], a, b);
    InsertsInFront(a, items);
    DeletesInFront(a, items);
    InsertsInFront(b, items);
    ApplySingle(Arr(items), Component([IndexElem(0)], Noop));
    ApplySingle(Arr(items), Slot(0, ListInsert(a)));
    ApplyTwo(Arr([a] + items), Slot(0, ListDelete(a)), Slot(0, ListInsert(b)));
  }

  lemma {:induction false} OverwriteComposes(k: string, a: Value, b: Value, c: Value)
    requires k != ""
    ensures var p := [KeyElem(k), IndexElem(0)];
      var over := Component([KeyElem(k)], ObjectReplace(c, Arr([b])));
      Algebra.Composed([Component(p, ListInsert(a))], [Component(p, ListDelete(a)), Component(p, ListInsert(b)), over])
        == [Component(p, Noop), over]
  {
    var p := [KeyElem(k), IndexElem(0)];
    var noop, over := Component(p, Noop), Component([KeyElem(k)], ObjectReplace(c, Arr([b])));
    var inner := [Component(p, ListDelete(a)), Component(p, ListInsert(b))];
    assert inner + [over] == [Component(p, ListDelete(a)), Component(p, ListInsert(b)), over];
    Algebra.ComposeInTwo([Component(p, ListInsert(a))], inner, [over]);
    InsertionSwallowed(p, a, b);
    assert [over][1..] == [];
    assert Algebra.Composed([noop], [over]) == Algebra.Composed(Algebra.Appended([noop], over), []);
    assert Algebra.Appended([noop], over) == [noop] + [over];
  }

  lemma {:induction false} OneDeeper(k: string, items: seq<Value>, op: Operator)
    requires k != "" && ApplyToContainer(Arr(items), IndexElem(0), op).Ok? && !op.ListMove?
    ensures var c := Component([KeyElem(k), IndexElem(0)], op);
      && ValidComponent(c)
      && ApplyOne(Obj(map[k := Arr(items)]), c)
        == Ok(Obj(map[k := ApplyToContainer(Arr(items), IndexElem(0), op).value]))
  {
    var v := Obj(map[k := Arr(items)]);
    Routing.PeelOne(v, KeyElem(k), IndexElem(0), op);
    assert v.fields[k := ApplyToContainer(Arr(items), IndexElem(0), op).value]
      == map[k := ApplyToContainer(Arr(items), IndexElem(0), op).value];
  }

  /** A swallowed insertion that a later component writes over, whatever it finds there, is made up for: the
      composition does what the two operations do. */
  lemma {:induction false} OverwritingMakesUp(k: string, a: Value, b: Value, c: Value)
    requires k != ""
    ensures var p, doc := [KeyElem(k), IndexElem(0)], Obj(map[k := Arr([])]);
      var over := Component([KeyElem(k)], ObjectReplace(c, Arr([b])));
      var first := [Component(p, ListInsert(a))];
      var second := [Component(p, ListDelete(a)), Component(p, ListInsert(b)), over];
      && Algebra.Composed(first, second) == [Component(p, Noop), over]
      && ApplyOperation(doc, Algebra.Composed(first, second)) == Ok(Obj(map[k := c]))
      && ApplyOperation(doc, first) == Ok(Obj(map[k := Arr([a])]))
      && ApplyOperation(Obj(map[k := Arr([a])]), second) == Ok(Obj(map[k := c]))
  {
    var p, doc := [KeyElem(k), IndexElem(0)], Obj(map[k := Arr([])]);
    var over := Component([KeyElem(k)], ObjectReplace(c, Arr([b])));
    var ins, del, again := Component(p, ListInsert(a)), Component(p, ListDelete(a)), Component(p, ListInsert(b));
    OverwriteComposes(k, a, b, c);
    OneDeeper(k, [], Noop);
    OneDeeper(k, [], ListInsert(a));
    OneDeeper(k, [a], ListDelete(a));
    OneDeeper(k, [], ListInsert(b));
    FirstOfList(a);
    FirstOfList(b);
    Overwritten(k, Arr([]), c, Arr([b]));
    Overwritten(k, Arr([b]), c, Arr([b]));
    ApplyTwo(doc, Component(p, Noop), over);
    ApplySingle(doc, ins);
    ApplyThree(Obj(map[k := Arr([a])]), del, again, over);
  }

  lemma {:induction false} FirstOfList(a: Value)
    ensures ApplyToContainer(Arr([]), IndexElem(0), ListInsert(a)) == Ok(Arr([a]))
    ensures ApplyToContainer(Arr([a]), IndexElem(0), ListDelete(a)) == Ok(Arr([]))
  {
    assert InsertAt<Value>([], 0, a) == [a] && RemoveAt([a], 0) == [];
  }

  lemma {:induction false} Overwritten(k: string, x: Value, c: Value, was: Value)
    ensures ApplyOne(Obj(map[k := x]), Component([KeyElem(k)], ObjectReplace(c, was))) == Ok(Obj(map[k := c]))
  {
    assert map[k := x][k := c] == map[k := c];
  }

  lemma {:induction false} ApplyThree(v: Value, c: Component, d: Component, e: Component)
    requires ValidComponent(c) && ValidComponent(d) && ValidComponent(e) && ApplyOne(v, c).Ok?
    requires ApplyOne(ApplyOne(v, c).value, d).Ok?
    ensures ApplyOperation(v, [c, d, e]) == ApplyOne(ApplyOne(ApplyOne(v, c).value, d).value, e)
  {
    var w := ApplyOne(v, c).value;
    assert [c, d, e] == [c] + [d, e];
    Collapse.ApplySplits(v, [c], [d, e]);
    ApplySingle(v, c);
    ApplyTwo(w, d, e);
    Collapse.ValidationSplits([c], [d, e]);
    assert [d, e] == [d] + [e];
    Collapse.ValidationSplits([d], [e]);
  }

  /** The difference between two lists of one number replaces the first element, which the list code leaves undone. */
  lemma {:induction false} DifferenceMissesTheFirst(a: int, b: int)
    requires a != b
    ensures var from, to := Arr([Num(a)]), Arr([Num(b)]);
      ApplyOperation(from, Algebra.Composed([], Diff.EmittedInto([], from, to))) == Ok(from) && from != to
  {
    var from, to := Arr([Num(a)]), Arr([Num(b)]);
    var p := [IndexElem(0)];
    DiffReach.DiffReaches(from, to);
    DiffReach.RootReaches(from, to);
    assert [] + p == p;
    assert DiffReach.Reached(p, Num(a), Num(b)) == Num(a);
    assert DiffReach.Reached([], from, to).items == [Num(a)];
    assert to.items[0] != from.items[0];
  }

  /** A deletion that records a number just added to keeps the old number, and no longer fits. */
  lemma {:induction false} DeletionGoesStale(k: string, n: int, m: int)
    requires k != "" && m != 0
    ensures var doc := Obj(map[k := Num(n)]);
      var l, r := Deletion(k, Num(n)), Component([KeyElem(k)], SubTypeOp(NumberAdd, Num(m)));
      && Effective(doc, l) && Effective(doc, r)
      && TransformComponent(l, r, Left) == Ok([l]) && !Fits(Rebase.After(doc, r), l)
  {
    var doc := Obj(map[k := Num(n)]);
    var l, r := Deletion(k, Num(n)), Component([KeyElem(k)], SubTypeOp(NumberAdd, Num(m)));
    TreeConvergence.TransformAtKeys(doc.fields, l, r, Left);
    Rebase.RebaseFits(doc, l, r);
  }

  /** A move to the front has an inverse that the list code skips. */
  lemma {:induction false} MoveToFrontCannotBeUndone(a: Value, b: Value)
    requires a != b
    ensures var doc, c := Arr([a, b]), Component([IndexElem(1)], ListMove(0));
      && Effective(doc, c) && ApplyOne(doc, c) == Ok(Arr([b, a]))
      && Algebra.Invert(c).Ok? && ApplyOne(Arr([b, a]), Algebra.Invert(c).value) == Ok(Arr([b, a]))
  {
    assert RemoveAt([a, b], 1) == [a] && InsertAt([a], 0, b) == [b, a];
  }

  /** A key step shifted by a list insertion at the same place keeps its shifted index in memory but not in print:
      the logged operation is then another one than the operation applied and cached. */
  lemma {:induction false} ShiftedKeyDoesNotPrint(k: string, a: Value, b: Value)
    requires k != "" && !a.Null?
    ensures var n, base := Component([KeyElem(k)], ObjectInsert(a)), Component([IndexElem(0)], ListInsert(b));
      var shifted := Component([PathElement(k, 1)], ObjectInsert(a));
      && TransformComponent(n, base, Left) == Ok([shifted])
      && Wire.ParseOperation(Wire.PrintAll([shifted])) == Ok([n]) && n != shifted
  {
    var n, base := Component([KeyElem(k)], ObjectInsert(a)), Component([IndexElem(0)], ListInsert(b));
    var shifted := Component([PathElement(k, 1)], ObjectInsert(a));
    assert TransformComponent(n, base, Left) == Ok([shifted]) by {
      assert CommonLen(base.path, n.path) == 0;
      assert n.path[0 := PathElement(k, 1)] == [PathElement(k, 1)];
      assert AgainstListInsert(n, base, Left) == [shifted];
    }
    Wire.OperationRoundTrip([n]);
    assert Wire.RenamedAll([n]) == [n];
    assert Wire.PathToValue(shifted.path) == Wire.PathToValue(n.path);
    assert Wire.Print(shifted) == Wire.Print(n);
    assert Wire.PrintItems([shifted]) == Wire.PrintItems([n]) by {
      assert [shifted][1..] == [] && [n][1..] == [];
    }
  }
}
