/** Going back in a document's history: inverse operations, earlier versions, and rollback. */
module History {
  import opened Json
  import opened Operators
  import opened Apply
  import opened Transform
  import opened Validity
  import opened Rebase
  import opened Algebra
  import opened Inversion
  import opened Composition
  import opened Collapse
  import Wire

  // ---- One operation ------------------------------------------------------------------------------------

  /** Invert the components last one first and append each inverse; print the result and parse it again. */
  function InverseOperation(cs: seq<Component>): Result<seq<Component>> {
    InverseFrom(cs, [])
  }

  function InverseFrom(cs: seq<Component>, acc: seq<Component>): Result<seq<Component>>
    decreases |cs|
  {
    if cs == [] then Wire.ParseOperation(Wire.PrintAll(acc))
    else
      var inverse :- Invert(cs[|cs| - 1]);
      InverseFrom(cs[..|cs| - 1], Appended(acc, inverse))
  }

  lemma {:induction false} InverseFromComposes(cs: seq<Component>, acc: seq<Component>)
    requires InvertAll(cs).Ok?
    ensures InverseFrom(cs, acc) == Wire.ParseOperation(Wire.PrintAll(Composed(acc, InvertAll(cs).value)))
    decreases |cs|
  {
    if cs != [] {
      var init, inverse := cs[..|cs| - 1], Invert(cs[|cs| - 1]).value;
      var inverses := InvertAll(cs).value;
      assert inverses[0] == inverse && inverses[1..] == InvertAll(init).value;
      InverseFromComposes(init, Appended(acc, inverse));
    }
  }

  /** The components work in turn. */
  predicate AllWork(v: Value, cs: seq<Component>)
    decreases |cs|
  {
    cs == [] || (Works(v, cs[0]) && AllWork(After(v, cs[0]), cs[1..]))
  }

  /** An operation that prints and is invertible throughout. */
  predicate CanInvert(cs: seq<Component>) {
    Wire.AllPrintable(cs) && forall i :: 0 <= i < |cs| ==> Invertible(cs[i])
  }

  lemma {:induction false} FitsIsAtParent(v: Value, c: Component)
    requires Fits(v, c)
    ensures Resolves(v, Parent(c.path)) && FitsContainer(At(v, Parent(c.path)), Last(c.path), c.operator)
    decreases |c.path|
  {
    if |c.path| > 1 {
      var d := Component(c.path[1..], c.operator);
      FitsIsAtParent(Child(v, c.path[0]), d);
      assert Parent(c.path)[1..] == Parent(d.path);
    }
  }

  lemma {:induction false} WorksDoes(v: Value, c: Component)
    requires Works(v, c)
    ensures Does(v, c)
  {
    FitsIsAtParent(v, c);
  }

  lemma {:induction false} AllWorkSplit(v: Value, cs: seq<Component>)
    requires AllWork(v, cs) && cs != []
    ensures AllWork(v, cs[..|cs| - 1]) && Works(AfterAll(v, cs[..|cs| - 1]), cs[|cs| - 1])
    ensures AfterAll(v, cs) == After(AfterAll(v, cs[..|cs| - 1]), cs[|cs| - 1])
    decreases |cs|
  {
    var init := cs[..|cs| - 1];
    if |cs| == 1 {
      assert cs[1..] == [];
    } else {
      AllWorkSplit(After(v, cs[0]), cs[1..]);
      assert init[0] == cs[0] && init[1..] == cs[1..][..|cs[1..]| - 1];
      assert cs[1..][|cs| - 2] == cs[|cs| - 1];
    }
  }

  /** Undoing the components in reverse order gives the document back. */
  lemma {:induction false} InversesUndo(v: Value, cs: seq<Component>)
    requires AllWork(v, cs)
    requires forall i :: 0 <= i < |cs| ==> Invertible(cs[i])
    ensures InvertAll(cs).Ok?
    ensures AllDo(AfterAll(v, cs), InvertAll(cs).value) && AfterAll(AfterAll(v, cs), InvertAll(cs).value) == v
    decreases |cs|
  {
    if cs != [] {
      var init, c := cs[..|cs| - 1], cs[|cs| - 1];
      AllWorkSplit(v, cs);
      InversesUndo(v, init);
      var u := AfterAll(v, init);
      InverseUndoes(u, c);
      WorksDoes(After(u, c), Invert(c).value);
      var inverses := InvertAll(cs).value;
      assert inverses[0] == Invert(c).value && inverses[1..] == InvertAll(init).value;
    }
  }

  lemma {:induction false} InvertPrintable(c: Component)
    requires WfPath(c.path) && Wire.Printable(c.operator) && ValidComponent(c) && Invert(c).Ok?
    ensures WfPath(Invert(c).value.path) && Wire.Printable(Invert(c).value.operator)
  {
  }

  lemma {:induction false} InvertAllPrintable(cs: seq<Component>)
    requires Wire.AllPrintable(cs) && ValidationError(cs).None? && InvertAll(cs).Ok?
    ensures Wire.AllPrintable(InvertAll(cs).value)
    decreases |cs|
  {
    if cs != [] {
      ValidInit(cs);
      InvertAllPrintable(cs[..|cs| - 1]);
      InvertPrintable(cs[|cs| - 1]);
    }
  }

  lemma {:induction false} ValidInit(cs: seq<Component>)
    requires ValidationError(cs).None? && cs != []
    ensures ValidationError(cs[..|cs| - 1]).None? && ValidComponent(cs[|cs| - 1])
    decreases |cs|
  {
    if |cs| > 1 {
      ValidInit(cs[1..]);
      assert cs[..|cs| - 1][1..] == cs[1..][..|cs| - 2];
    }
  }

  lemma {:induction false} MergePrintable(a: Operator, b: Operator)
    requires Wire.Printable(a) && Wire.Printable(b) && Merge(a, b).Some?
    ensures Wire.Printable(Merge(a, b).value)
  {
  }

  lemma {:induction false} AppendPrintable(cs: seq<Component>, c: Component)
    requires Wire.AllPrintable(cs) && WfPath(c.path) && Wire.Printable(c.operator)
    ensures Wire.AllPrintable(Appended(cs, c))
  {
    if cs != [] && Merge(cs[|cs| - 1].operator, c.operator).Some? {
      MergePrintable(cs[|cs| - 1].operator, c.operator);
    }
  }

  lemma {:induction false} ComposePrintable(a: seq<Component>, b: seq<Component>)
    requires Wire.AllPrintable(a) && Wire.AllPrintable(b)
    ensures Wire.AllPrintable(Composed(a, b))
    decreases |b|
  {
    if b != [] {
      AppendPrintable(a, b[0]);
      ComposePrintable(Appended(a, b[0]), b[1..]);
    }
  }

  lemma {:induction false} RenamedDoes(v: Value, c: Component)
    requires Does(v, c)
    ensures Does(v, Wire.Renamed(c)) && After(v, Wire.Renamed(c)) == After(v, c)
  {
    Wire.RenamedApplies(v, c);
  }

  lemma {:induction false} RenamedDo(v: Value, cs: seq<Component>)
    requires AllDo(v, cs)
    ensures AllDo(v, Wire.RenamedAll(cs)) && AfterAll(v, Wire.RenamedAll(cs)) == AfterAll(v, cs)
    decreases |cs|
  {
    if cs != [] {
      var renamed := Wire.RenamedAll(cs);
      assert renamed[0] == Wire.Renamed(cs[0]) && renamed[1..] == Wire.RenamedAll(cs[1..]);
      RenamedDoes(v, cs[0]);
      RenamedDo(After(v, cs[0]), cs[1..]);
    }
  }

  lemma {:induction false} Validates(cs: seq<Component>)
    ensures ValidationError(cs).None? <==> ValidOperation(cs)
    decreases |cs|
  {
    if cs != [] {
      Validates(cs[1..]);
      assert forall i :: 1 <= i < |cs| ==> cs[i] == cs[1..][i - 1];
    }
  }

  /** Merging makes no moves, so composing keeps components valid. */
  lemma {:induction false} ComposedValidates(a: seq<Component>, b: seq<Component>)
    requires ValidationError(a).None? && ValidationError(b).None?
    ensures ValidationError(Composed(a, b)).None?
    decreases |b|
  {
    if b != [] {
      var next := Appended(a, b[0]);
      Validates(a);
      Validates(b);
      assert ValidOperation(next);
      Validates(next);
      ComposedValidates(next, b[1..]);
    }
  }

  /** The inverse operation: what the inverses compose to, up to the names of subtypes. */
  lemma {:induction false} InverseComposes(v: Value, cs: seq<Component>)
    requires AllWork(v, cs) && CanInvert(cs)
    ensures InvertAll(cs).Ok?
    ensures InverseOperation(cs) == Ok(Wire.RenamedAll(Composed([], InvertAll(cs).value)))
  {
    InversesUndo(v, cs);
    AllApply(AfterAll(v, cs), InvertAll(cs).value);
    ComposedValidates([], InvertAll(cs).value);
    AllWorkDo(v, cs);
    AllApply(v, cs);
    InvertAllPrintable(cs);
    ComposePrintable([], InvertAll(cs).value);
    Wire.OperationRoundTrip(Composed([], InvertAll(cs).value));
    InverseFromComposes(cs, []);
  }

  /** Applied after an operation, an inverse operation that lost nothing in appending restores the document step by
      step. */
  lemma {:induction false} InverseOperationUndoes(v: Value, cs: seq<Component>)
    requires AllWork(v, cs) && CanInvert(cs)
    requires InvertAll(cs).Ok? ==> LosesNothing(AfterAll(v, cs), [], InvertAll(cs).value)
    ensures InverseOperation(cs).Ok?
    ensures var w, inverse := AfterAll(v, cs), InverseOperation(cs).value;
      AllDo(w, inverse) && AfterAll(w, inverse) == v && ApplyOperation(w, inverse) == Ok(v)
  {
    var w := AfterAll(v, cs);
    InversesUndo(v, cs);
    InverseComposes(v, cs);
    var composed := Composed([], InvertAll(cs).value);
    LosesNothingDo(w, [], InvertAll(cs).value);
    RenamedDo(w, composed);
    AllApply(w, Wire.RenamedAll(composed));
  }

  /** Appending the inverses of an operation keeps their meaning, from the document the operation led to. */
  predicate Undoes(w: Value, cs: seq<Component>) {
    InvertAll(cs).Ok? && Keeps(w, [], InvertAll(cs).value)
  }

  /** The inverse operation always exists when every component is invertible and prints; it restores the document
      exactly when appending the inverses keeps their meaning. */
  lemma {:induction false} InverseOperationExactly(v: Value, cs: seq<Component>)
    requires AllWork(v, cs) && CanInvert(cs)
    ensures InvertAll(cs).Ok? && InverseOperation(cs).Ok?
    ensures ApplyOperation(AfterAll(v, cs), InverseOperation(cs).value) == Ok(v) <==> Undoes(AfterAll(v, cs), cs)
  {
    var w := AfterAll(v, cs);
    InversesUndo(v, cs);
    InverseComposes(v, cs);
    var inverses := InvertAll(cs).value;
    ComposeExactly(w, [], inverses);
    AllApply(w, inverses);
    ComposedValidates([], inverses);
    Wire.RenamedValidates(Composed([], inverses));
    Wire.RenamedAllApply(w, Composed([], inverses));
  }

  lemma {:induction false} AllWorkDo(v: Value, cs: seq<Component>)
    requires AllWork(v, cs)
    ensures AllDo(v, cs)
    decreases |cs|
  {
    if cs != [] {
      WorksDoes(v, cs[0]);
      AllWorkDo(After(v, cs[0]), cs[1..]);
    }
  }

  // ---- A history ----------------------------------------------------------------------------------------

  /** The document after the logged operations, from the initial one. */
  function Replay(v: Value, log: seq<seq<Component>>): Value
    decreases |log|
  {
    if log == [] then v else AfterAll(Replay(v, log[..|log| - 1]), log[|log| - 1])
  }

  predicate GoodAt(v: Value, log: seq<seq<Component>>, i: nat)
    requires i < |log|
  {
    AllWork(Replay(v, log[..i]), log[i]) && CanInvert(log[i])
  }

  /** Every logged operation worked on the document it was applied to, prints, and is invertible throughout. */
  predicate GoodLog(v: Value, log: seq<seq<Component>>) {
    forall i {:trigger GoodAt(v, log, i)} :: 0 <= i < |log| ==> GoodAt(v, log, i)
  }

  predicate UndoesAt(v: Value, log: seq<seq<Component>>, i: nat)
    requires i < |log|
  {
    Undoes(Replay(v, log[..i + 1]), log[i])
  }

  /** From a version on, appending the inverses of each operation keeps their meaning. */
  predicate EachUndoes(v: Value, log: seq<seq<Component>>, from: nat) {
    forall i {:trigger UndoesAt(v, log, i)} :: from <= i < |log| ==> UndoesAt(v, log, i)
  }

  /** Undo operations, last one first. */
  function UndoAll(v: Value, ops: seq<seq<Component>>): Result<Value>
    decreases |ops|
  {
    if ops == [] then Ok(v)
    else
      var inverse :- InverseOperation(ops[|ops| - 1]);
      var w :- ApplyOperation(v, inverse);
      UndoAll(w, ops[..|ops| - 1])
  }

  lemma {:induction false} ReplayOneMore(v: Value, log: seq<seq<Component>>, i: nat)
    requires i < |log|
    ensures Replay(v, log[..i + 1]) == AfterAll(Replay(v, log[..i]), log[i])
  {
    assert log[..i + 1][..i] == log[..i];
  }

  /** Undoing one operation leads back one version exactly when appending its inverses keeps their meaning. */
  lemma {:induction false} OneUndoes(v: Value, log: seq<seq<Component>>, i: nat)
    requires GoodLog(v, log) && i < |log|
    ensures InverseOperation(log[i]).Ok?
    ensures ApplyOperation(Replay(v, log[..i + 1]), InverseOperation(log[i]).value) == Ok(Replay(v, log[..i]))
      <==> UndoesAt(v, log, i)
  {
    assert GoodAt(v, log, i);
    ReplayOneMore(v, log, i);
    InverseOperationExactly(Replay(v, log[..i]), log[i]);
  }

  lemma {:induction false} UndoFirst(v: Value, op: seq<Component>, rest: seq<seq<Component>>)
    ensures UndoAll(v, [op] + rest) == match UndoAll(v, rest) { case Err(e) => Err(e) case Ok(w) => UndoAll(w, [op]) }
    decreases |rest|
  {
    var ops := [op] + rest;
    if rest == [] {
      assert ops == [op];
    } else {
      assert ops[|ops| - 1] == rest[|rest| - 1] && ops[..|ops| - 1] == [op] + rest[..|rest| - 1];
      var inverse := InverseOperation(rest[|rest| - 1]);
      if inverse.Ok? && ApplyOperation(v, inverse.value).Ok? {
        UndoFirst(ApplyOperation(v, inverse.value).value, op, rest[..|rest| - 1]);
      }
    }
  }

  /** One version further back is one operation more undone. */
  lemma {:induction false} UndoFurther(now: Value, log: seq<seq<Component>>, i: nat, w: Value)
    requires i < |log| && InverseOperation(log[i]).Ok? && UndoAll(now, log[i + 1..]) == Ok(w)
    ensures UndoAll(now, log[i..]) == ApplyOperation(w, InverseOperation(log[i]).value)
  {
    assert log[i..] == [log[i]] + log[i + 1..];
    UndoFirst(now, log[i], log[i + 1..]);
    assert [log[i]][..0] == [];
  }

  lemma {:induction false} BackTo(v: Value, log: seq<seq<Component>>, version: nat)
    requires GoodLog(v, log) && version <= |log| && EachUndoes(v, log, version)
    ensures UndoAll(Replay(v, log), log[version..]) == Ok(Replay(v, log[..version]))
    decreases |log| - version
  {
    if version == |log| {
      assert log[version..] == [] && log[..version] == log;
    } else {
      assert UndoesAt(v, log, version);
      BackTo(v, log, version + 1);
      OneUndoes(v, log, version);
      UndoFurther(Replay(v, log), log, version, Replay(v, log[..version + 1]));
    }
  }

  /** Time travel: undoing the log gives every document from a version on exactly when appending the inverses of each
      operation logged since keeps their meaning. */
  lemma {:induction false} TimeTravel(v: Value, log: seq<seq<Component>>, from: nat)
    requires GoodLog(v, log) && from <= |log|
    ensures (forall version :: from <= version <= |log| ==>
               UndoAll(Replay(v, log), log[version..]) == Ok(Replay(v, log[..version])))
      <==> EachUndoes(v, log, from)
  {
    if EachUndoes(v, log, from) {
      forall version | from <= version <= |log|
        ensures UndoAll(Replay(v, log), log[version..]) == Ok(Replay(v, log[..version]))
      {
        BackTo(v, log, version);
      }
    }
    if forall version :: from <= version <= |log| ==>
         UndoAll(Replay(v, log), log[version..]) == Ok(Replay(v, log[..version]))
    {
      forall i | from <= i < |log| ensures UndoesAt(v, log, i) {
        OneUndoes(v, log, i);
        UndoFurther(Replay(v, log), log, i, Replay(v, log[..i + 1]));
      }
    }
  }

  // ---- Rollback -----------------------------------------------------------------------------------------

  /** Undo operations last one first, composing the inverses into one operation on the way. */
  function RollBack(acc: seq<Component>, v: Value, ops: seq<seq<Component>>): Result<(seq<Component>, Value)>
    decreases |ops|
  {
    if ops == [] then Ok((acc, v))
    else
      var inverse :- InverseOperation(ops[|ops| - 1]);
      var w :- ApplyOperation(v, inverse);
      RollBack(Composed(acc, inverse), w, ops[..|ops| - 1])
  }

  /** The inverses of operations one after another, last operation first. */
  function AllInverses(ops: seq<seq<Component>>): seq<Component>
    decreases |ops|
  {
    if ops == [] || InverseOperation(ops[|ops| - 1]).Err? then []
    else InverseOperation(ops[|ops| - 1]).value + AllInverses(ops[..|ops| - 1])
  }

  /** Rolling back undoes, and composes all the inverses into a valid operation. */
  lemma {:induction false} RollBackUndoes(acc: seq<Component>, v: Value, ops: seq<seq<Component>>)
    requires ValidationError(acc).None?
    ensures var r := RollBack(acc, v, ops);
      && UndoAll(v, ops) == (match r case Err(e) => Err(e) case Ok((_, w)) => Ok(w))
      && (r.Ok? ==> r.value.0 == Composed(acc, AllInverses(ops)) && ValidationError(r.value.0).None?)
    decreases |ops|
  {
    if ops != [] && InverseOperation(ops[|ops| - 1]).Ok? {
      var inverse, init := InverseOperation(ops[|ops| - 1]).value, ops[..|ops| - 1];
      var w := ApplyOperation(v, inverse);
      if w.Ok? {
        ComposedValidates(acc, inverse);
        RollBackUndoes(Composed(acc, inverse), w.value, init);
        ComposeInTwo(acc, inverse, AllInverses(init));
      }
    }
  }

  predicate LosesNothingAt(v: Value, log: seq<seq<Component>>, i: nat)
    requires i < |log|
  {
    InvertAll(log[i]).Ok? && LosesNothing(Replay(v, log[..i + 1]), [], InvertAll(log[i]).value)
  }

  /** From a version on, appending the inverses of each operation loses nothing. */
  predicate EachLosesNothing(v: Value, log: seq<seq<Component>>, from: nat) {
    forall i {:trigger LosesNothingAt(v, log, i)} :: from <= i < |log| ==> LosesNothingAt(v, log, i)
  }

  lemma {:induction false} EachLosesNothingUndoes(v: Value, log: seq<seq<Component>>, from: nat)
    requires EachLosesNothing(v, log, from)
    ensures EachUndoes(v, log, from)
  {
    forall i | from <= i < |log| ensures UndoesAt(v, log, i) {
      assert LosesNothingAt(v, log, i);
      LosesNothingKeeps(Replay(v, log[..i + 1]), [], InvertAll(log[i]).value);
    }
  }

  lemma {:induction false} InversesSnoc(last: seq<Component>, init: seq<seq<Component>>)
    requires InverseOperation(last).Ok?
    ensures AllInverses(init + [last]) == InverseOperation(last).value + AllInverses(init)
  {
    assert (init + [last])[..|init|] == init;
  }

  lemma {:induction false} PrefixIsGood(v: Value, log: seq<seq<Component>>, from: nat)
    requires log != [] && GoodLog(v, log) && EachLosesNothing(v, log, from)
    ensures GoodLog(v, log[..|log| - 1]) && EachLosesNothing(v, log[..|log| - 1], from)
  {
    var init := log[..|log| - 1];
    forall i | 0 <= i < |init| ensures GoodAt(v, init, i) {
      assert GoodAt(v, log, i) && init[..i] == log[..i];
    }
    forall i | from <= i < |init| ensures LosesNothingAt(v, init, i) {
      assert LosesNothingAt(v, log, i) && init[..i + 1] == log[..i + 1];
    }
  }

  lemma {:induction false} OneLosesNothing(v: Value, log: seq<seq<Component>>, i: nat)
    requires GoodLog(v, log) && i < |log| && EachLosesNothing(v, log, i)
    ensures InverseOperation(log[i]).Ok?
    ensures var w, inverse := Replay(v, log[..i + 1]), InverseOperation(log[i]).value;
      AllDo(w, inverse) && AfterAll(w, inverse) == Replay(v, log[..i])
  {
    ReplayOneMore(v, log, i);
    assert GoodAt(v, log, i) && LosesNothingAt(v, log, i);
    InverseOperationUndoes(Replay(v, log[..i]), log[i]);
  }

  lemma {:induction false} LastLosesNothing(v: Value, init: seq<seq<Component>>, last: seq<Component>, from: nat)
    requires GoodLog(v, init + [last]) && EachLosesNothing(v, init + [last], from) && from <= |init|
    ensures GoodLog(v, init) && EachLosesNothing(v, init, from)
    ensures InverseOperation(last).Ok?
    ensures var w, inverse := Replay(v, init + [last]), InverseOperation(last).value;
      AllDo(w, inverse) && AfterAll(w, inverse) == Replay(v, init)
  {
    var log := init + [last];
    assert log[..|init|] == init && log[..|init| + 1] == log && log[|init|] == last;
    PrefixIsGood(v, log, from);
    OneLosesNothing(v, log, |init|);
  }

  lemma {:induction false} InversesBehind(now: Value, before: Value, last: seq<Component>, rest: seq<seq<Component>>)
    requires InverseOperation(last).Ok?
    requires AllDo(now, InverseOperation(last).value) && AfterAll(now, InverseOperation(last).value) == before
    requires AllDo(before, AllInverses(rest))
    ensures var all := AllInverses(rest + [last]);
      AllDo(now, all) && AfterAll(now, all) == AfterAll(before, AllInverses(rest))
  {
    InversesSnoc(last, rest);
    Split(now, InverseOperation(last).value, AllInverses(rest));
  }

  /** When nothing is lost the inverses lead back version by version, each component doing what it says. */
  lemma {:induction false} AllInversesDo(v: Value, first: seq<seq<Component>>, ops: seq<seq<Component>>)
    requires GoodLog(v, first + ops) && EachLosesNothing(v, first + ops, |first|)
    ensures var now, inverses := Replay(v, first + ops), AllInverses(ops);
      AllDo(now, inverses) && AfterAll(now, inverses) == Replay(v, first)
    decreases |ops|
  {
    if ops == [] {
      assert first + ops == first;
    } else {
      var init, last, log := ops[..|ops| - 1], ops[|ops| - 1], first + ops;
      assert ops == init + [last] && log == first + init + [last];
      LastLosesNothing(v, first + init, last, |first|);
      AllInversesDo(v, first, init);
      InversesBehind(Replay(v, log), Replay(v, first + init), last, init);
    }
  }

  /** Rollback agreement: undoing leads to the document of the target version, and composes one valid operation.  When
      nothing is lost within the operations undone, that operation leads there from the old document exactly when
      composing the inverses keeps their meaning. */
  lemma {:induction false} RollBackAgrees(v: Value, log: seq<seq<Component>>, version: nat)
    requires GoodLog(v, log) && version <= |log| && EachUndoes(v, log, version)
    ensures var now := Replay(v, log);
      var r := RollBack([], now, log[version..]);
      && r.Ok? && r.value.1 == Replay(v, log[..version]) && ValidationError(r.value.0).None?
      && (EachLosesNothing(v, log, version) ==>
            (ApplyOperation(now, r.value.0) == Ok(r.value.1) <==> Keeps(now, [], AllInverses(log[version..]))))
  {
    var now := Replay(v, log);
    BackTo(v, log, version);
    RollBackUndoes([], now, log[version..]);
    if EachLosesNothing(v, log, version) {
      assert log[..version] + log[version..] == log;
      AllInversesDo(v, log[..version], log[version..]);
      ComposeExactly(now, [], AllInverses(log[version..]));
    }
  }
}
