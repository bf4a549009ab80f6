/** The built-in text subtype: operands, application and the merge of two edits. */
module TextOps {
  import opened Json

  datatype Edit = Edit(offset: int, insert: Option<string>, delete: Option<string>)

  /** The substring from start to end; a start past a clamped end is a slice panic. */
  function SubString(s: string, start: int, end: int): Result<string> {
    if start < 0 || end < 0 then Ok("")
    else if start >= |s| then Ok("")
    else
      var e := if end > |s| then |s| else end;
      if start > e then Err(Panic) else Ok(s[start..e])
  }

  function FieldString(fields: map<string, Value>, k: string): Option<string> {
    if k !in fields then None
    else if fields[k].Str? then Some(fields[k].s) else Some("")
  }

  function EditFromValue(v: Value): Result<Edit> {
    if v.Obj? && "p" in v.fields && v.fields["p"].Num? then
      Ok(Edit(v.fields["p"].n, FieldString(v.fields, "i"), FieldString(v.fields, "d")))
    else Err(InvalidOperation)
  }

  function EditToValue(e: Edit): Value {
    var base := map["p" := Num(e.offset)];
    var withInsert := if e.insert.Some? then base["i" := Str(e.insert.value)] else base;
    Obj(if e.delete.Some? then withInsert["d" := Str(e.delete.value)] else withInsert)
  }

  predicate ValidateOperand(v: Value) {
    && v.Obj? && "p" in v.fields && v.fields["p"].Num?
    && ("i" in v.fields ==> v.fields["i"].Str?)
    && ("d" in v.fields ==> v.fields["d"].Str?)
  }

  /** Apply an edit to a string, or to nothing (None or null); None means the key is left alone. */
  function ApplyText(target: Option<Value>, operand: Value): Result<Option<Value>> {
    if !ValidateOperand(operand) then Err(InvalidOperation)
    else
      var e :- EditFromValue(operand);
      if target.None? || target.value.Null? then
        Ok(if e.insert.Some? then Some(Str(e.insert.value)) else None)
      else if !target.value.Str? then Err(InvalidParameter)
      else
        var s := target.value.s;
        if e.insert.Some? then
          if e.offset <= |s| then
            var head :- SubString(s, 0, e.offset);
            var tail :- SubString(s, e.offset, |s|);
            Ok(Some(Str(head + e.insert.value + tail)))
          else Ok(Some(Str(s + e.insert.value)))
        else
          var toDelete := if e.delete.Some? then e.delete.value else "";
          var found :- SubString(s, e.offset, |toDelete|);
          if found != toDelete then Err(InvalidOperation)
          else if e.offset < |s| then
            var head :- SubString(s, 0, e.offset);
            var tail :- SubString(s, e.offset + |toDelete|, |s|);
            Ok(Some(Str(head + tail)))
          else Ok(Some(Str(s)))
  }

  /** Merge two edits at the same path into one, when the code can. */
  function MergeText(base: Value, other: Value): Option<Value> {
    match (EditFromValue(base), EditFromValue(other))
    case (Ok(b), Ok(o)) =>
      if b.insert.Some? && o.insert.Some? && b.offset <= o.offset <= b.offset + |b.insert.value| then
        Some(EditToValue(Edit(b.offset, Some(Spliced(b.insert.value, o.offset - b.offset, o.insert.value)), None)))
      else if b.delete.Some? && o.delete.Some? && o.offset <= b.offset <= o.offset + |o.delete.value| then
        Some(EditToValue(Edit(o.offset, None, Some(Spliced(o.delete.value, b.offset - o.offset, b.delete.value)))))
      else None
    case _ => None
  }

  /** A string with another put in at a position inside it. */
  function Spliced(s: string, at: int, t: string): string
    requires 0 <= at <= |s|
  {
    SubString(s, 0, at).value + t + SubString(s, at, |s|).value
  }

  lemma {:induction false} SplicedIs(s: string, at: int, t: string)
    requires 0 <= at <= |s|
    ensures Spliced(s, at, t) == s[..at] + t + s[at..]
  {
  }

  /** An insertion in range puts its text at its offset. */
  lemma {:induction false} InsertsAt(s: string, operand: Value)
    requires ValidateOperand(operand) && "i" in operand.fields && 0 <= operand.fields["p"].n <= |s|
    ensures var p, t := operand.fields["p"].n, operand.fields["i"].s;
      ApplyText(Some(Str(s)), operand) == Ok(Some(Str(s[..p] + t + s[p..])))
  {
    var p := operand.fields["p"].n;
    assert s[0..p] == s[..p] && s[p..|s|] == s[p..];
    assert SubString(s, 0, p) == Ok(s[..p]) && SubString(s, p, |s|) == Ok(s[p..]);
  }

  /** An insertion elsewhere: onto nothing it is its text, past the end it is appended; before the start only its text
      is left; and a target that is not a string is refused. */
  lemma {:induction false} InsertsElsewhere(target: Option<Value>, operand: Value)
    requires ValidateOperand(operand) && "i" in operand.fields
    ensures var p, t, after := operand.fields["p"].n, operand.fields["i"].s, ApplyText(target, operand);
      && (target.None? || target.value.Null? ==> after == Ok(Some(Str(t))))
      && (target.Some? && target.value.Str? && p > |target.value.s| ==> after == Ok(Some(Str(target.value.s + t))))
      && (target.Some? && target.value.Str? && p < 0 ==> after == Ok(Some(Str(t))))
      && (target.Some? && !target.value.Str? && !target.value.Null? ==> after == Err(InvalidParameter))
  {
    var t := operand.fields["i"].s;
    assert "" + t + "" == t;
  }

  predicate IsTextInsertion(operand: Value) {
    ValidateOperand(operand) && "i" in operand.fields && "d" !in operand.fields
  }

  predicate IsInsertion(operand: Value, length: nat) {
    IsTextInsertion(operand) && 0 <= operand.fields["p"].n <= length
  }

  lemma {:induction false} SpliceInside(s: string, p: nat, t: string, q: nat, u: string)
    requires p <= |s| && p <= q <= p + |t|
    ensures var s1 := s[..p] + t + s[p..];
      s1[..q] + u + s1[q..] == s[..p] + (t[..q - p] + u + t[q - p..]) + s[p..]
  {
    var s1, a, b := s[..p] + t + s[p..], t[..q - p], t[q - p..];
    assert s1[..q] == s[..p] + a;
    assert s1[q..] == b + s[p..];
    FourParts(s[..p], a, u, b, s[p..]);
  }

  lemma {:induction false} FourParts(a: string, b: string, c: string, d: string, e: string)
    ensures (a + b) + c + (d + e) == a + (b + c + d) + e
  {
  }

  lemma {:induction false} MergedOperand(a: Value, b: Value)
    requires ValidateOperand(a) && "i" in a.fields && "d" !in a.fields
    requires ValidateOperand(b) && "i" in b.fields && "d" !in b.fields
    requires MergeText(a, b).Some?
    ensures var p, t, q, u := a.fields["p"].n, a.fields["i"].s, b.fields["p"].n, b.fields["i"].s;
      && p <= q <= p + |t|
      && MergeText(a, b).value == Obj(map["p" := Num(p), "i" := Str(t[..q - p] + u + t[q - p..])])
  {
    SplicedIs(a.fields["i"].s, b.fields["p"].n - a.fields["p"].n, b.fields["i"].s);
  }

  /** Two in-range insertions that merge do at once what they do in turn. */
  lemma {:induction false} MergeInserts(s: string, a: Value, b: Value)
    requires IsInsertion(a, |s|) && IsInsertion(b, |s| + |a.fields["i"].s|) && MergeText(a, b).Some?
    ensures var m := MergeText(a, b).value;
      && IsInsertion(m, |s|)
      && ApplyText(Some(Str(s)), a).Ok?
      && ApplyText(Some(Str(s)), m) == ApplyText(ApplyText(Some(Str(s)), a).value, b)
  {
    var p, t, q, u := a.fields["p"].n, a.fields["i"].s, b.fields["p"].n, b.fields["i"].s;
    MergedOperand(a, b);
    SpliceInside(s, p, t, q, u);
    InsertsAt(s, a);
    InsertsAt(s, MergeText(a, b).value);
    InsertsAt(s[..p] + t + s[p..], b);
  }

  lemma {:induction false} FoundAtStart(s: string, t: string)
    ensures SubString(s, 0, |t|) == Ok(t) <==> t <= s
    ensures SubString(s, 0, |t|).Ok?
  {
    var end := if |t| > |s| then |s| else |t|;
    assert s[0..end] == s[..end];
    if t <= s {
      assert end == |t| && s[..|t|] == t;
    } else if |t| <= |s| {
      assert s[..|t|] != t;
    }
  }

  lemma {:induction false} FoundInside(s: string, p: int, t: string)
    requires 0 < p < |s|
    ensures SubString(s, p, |t|) != Ok(t)
  {
    var end := if |t| > |s| then |s| else |t|;
    if p <= end {
      assert |s[p..end]| < |t|;
    }
  }

  /** What is left when the text to delete is what is found at its offset. */
  lemma {:induction false} AfterDeletion(s: string, p: int, t: string, operand: Value)
    requires ValidateOperand(operand) && "i" !in operand.fields && "d" in operand.fields
    requires operand.fields["p"].n == p && operand.fields["d"].s == t
    ensures ApplyText(Some(Str(s)), operand).Ok? ==> SubString(s, p, |t|) == Ok(t)
    ensures SubString(s, p, |t|) == Ok(t) && p >= |s| ==> ApplyText(Some(Str(s)), operand) == Ok(Some(Str(s)))
    ensures SubString(s, p, |t|) == Ok(t) && p < |s| ==>
      ApplyText(Some(Str(s)), operand) ==
        (match (SubString(s, 0, p), SubString(s, p + |t|, |s|)) {
          case (Ok(head), Ok(tail)) => Ok(Some(Str(head + tail)))
          case (Ok(_), Err(e)) => Err(e)
          case (Err(e), _) => Err(e)
        })
  {
  }

  /** The code takes the length of a deletion for its end, so a deletion works at the start of a string that begins with
      its text, and otherwise only when it deletes nothing: at the end it leaves the string alone, before the start it
      empties it.  Anywhere else it fails. */
  lemma {:induction false} DeletesOnlyAtStart(s: string, operand: Value)
    requires ValidateOperand(operand) && "i" !in operand.fields && "d" in operand.fields
    ensures var p, t, after := operand.fields["p"].n, operand.fields["d"].s, ApplyText(Some(Str(s)), operand);
      && (after.Ok? <==> (p == 0 && t <= s) || (t == "" && (p < 0 || p >= |s|)))
      && (p == 0 && t <= s ==> after == Ok(Some(Str(s[|t|..]))))
      && (t == "" && p >= |s| ==> after == Ok(Some(Str(s))))
      && (t == "" && p < 0 ==> after == Ok(Some(Str(""))))
  {
    var p, t := operand.fields["p"].n, operand.fields["d"].s;
    AfterDeletion(s, p, t, operand);
    if 0 < p < |s| {
      FoundInside(s, p, t);
    } else if p == 0 {
      FoundAtStart(s, t);
      if t <= s {
        DeletedAtStart(s, t, |t|);
      }
    } else if p < 0 {
      assert "" + "" == "";
    }
  }

  lemma {:induction false} DeletedAtStart(s: string, t: string, n: nat)
    requires n == |t| && t <= s
    ensures SubString(s, 0, 0) == Ok("") && SubString(s, n, |s|) == Ok(s[n..]) && "" + s[n..] == s[n..]
  {
    assert s[0..0] == "" && s[n..|s|] == s[n..];
  }

  /** Two deletions merge to the deletion of what the two insertions they undo would merge to. */
  lemma {:induction false} DeletionsMerge(p: int, t: string, q: int, u: string)
    ensures var delete := (p: int, t: string) => Obj(map["p" := Num(p), "d" := Str(t)]);
      && (MergeText(delete(p, t), delete(q, u)).Some? <==> q <= p <= q + |u|)
      && (q <= p <= q + |u| ==>
            MergeText(delete(p, t), delete(q, u)) == Some(delete(q, u[..p - q] + t + u[p - q..])))
  {
    if q <= p <= q + |u| {
      SplicedIs(u, p - q, t);
    }
  }
}
