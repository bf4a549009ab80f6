/** Removing, inserting and moving one element of a sequence, and how two such edits commute. */
module Sequences {

  function RemoveAt<T>(s: seq<T>, i: nat): (r: seq<T>)
    requires i < |s|
    ensures |r| == |s| - 1
  {
    s[..i] + s[i + 1..]
  }

  function InsertAt<T>(s: seq<T>, i: nat, v: T): (r: seq<T>)
    requires i <= |s|
    ensures |r| == |s| + 1
  {
    s[..i] + [v] + s[i..]
  }

  function MoveAt<T>(s: seq<T>, from: nat, to: nat): (r: seq<T>)
    requires from < |s| && to < |s|
    ensures |r| == |s|
  {
    InsertAt(RemoveAt(s, from), to, s[from])
  }

  /** The position an element found at `k` after a move came from. */
  function MovedFrom(from: int, to: int, k: int): int {
    if k == to then from
    else
      var rest := if k < to then k else k - 1;
      if rest < from then rest else rest + 1
  }

  lemma {:induction false} RemovedElement<T>(s: seq<T>, i: nat, k: nat)
    requires i < |s| && k < |s| - 1
    ensures RemoveAt(s, i)[k] == s[if k < i then k else k + 1]
  {
  }

  lemma {:induction false} InsertedElement<T>(s: seq<T>, i: nat, v: T, k: nat)
    requires i <= |s| && k <= |s|
    ensures InsertAt(s, i, v)[k] == if k < i then s[k] else if k == i then v else s[k - 1]
  {
  }

  lemma {:induction false} MovedElement<T>(s: seq<T>, from: nat, to: nat, k: nat)
    requires from < |s| && to < |s| && k < |s|
    ensures 0 <= MovedFrom(from, to, k) < |s|
    ensures MoveAt(s, from, to)[k] == s[MovedFrom(from, to, k)]
  {
  }

  lemma {:induction false} InsertInsert<T>(s: seq<T>, i: nat, v: T, j: nat, w: T)
    requires i <= j <= |s|
    ensures InsertAt(InsertAt(s, i, v), j + 1, w) == InsertAt(InsertAt(s, j, w), i, v)
  {
    var a, b := InsertAt(InsertAt(s, i, v), j + 1, w), InsertAt(InsertAt(s, j, w), i, v);
    forall k | 0 <= k < |s| + 2 ensures a[k] == b[k] {
      InsertedElement(InsertAt(s, i, v), j + 1, w, k);
      InsertedElement(InsertAt(s, j, w), i, v, k);
    }
  }

  lemma {:induction false} InsertRemoveAfter<T>(s: seq<T>, i: nat, v: T, d: nat)
    requires i <= d < |s|
    ensures RemoveAt(InsertAt(s, i, v), d + 1) == InsertAt(RemoveAt(s, d), i, v)
  {
    var a, b := RemoveAt(InsertAt(s, i, v), d + 1), InsertAt(RemoveAt(s, d), i, v);
    forall k | 0 <= k < |s| ensures a[k] == b[k] {
      RemovedElement(InsertAt(s, i, v), d + 1, k);
      InsertedElement(RemoveAt(s, d), i, v, k);
    }
  }

  lemma {:induction false} InsertRemoveBefore<T>(s: seq<T>, i: nat, v: T, d: nat)
    requires d < i <= |s|
    ensures RemoveAt(InsertAt(s, i, v), d) == InsertAt(RemoveAt(s, d), i - 1, v)
  {
    var a, b := RemoveAt(InsertAt(s, i, v), d), InsertAt(RemoveAt(s, d), i - 1, v);
    forall k | 0 <= k < |s| ensures a[k] == b[k] {
      RemovedElement(InsertAt(s, i, v), d, k);
      InsertedElement(RemoveAt(s, d), i - 1, v, k);
    }
  }

  lemma {:induction false} InsertRemove<T>(s: seq<T>, i: nat, v: T, d: nat)
    requires i <= |s| && d < |s|
    ensures i <= d ==> RemoveAt(InsertAt(s, i, v), d + 1) == InsertAt(RemoveAt(s, d), i, v)
    ensures i > d ==> RemoveAt(InsertAt(s, i, v), d) == InsertAt(RemoveAt(s, d), i - 1, v)
  {
    if i <= d {
      InsertRemoveAfter(s, i, v, d);
    } else {
      InsertRemoveBefore(s, i, v, d);
    }
  }

  lemma {:induction false} RemoveRemove<T>(s: seq<T>, d: nat, e: nat)
    requires d < e < |s|
    ensures RemoveAt(RemoveAt(s, d), e - 1) == RemoveAt(RemoveAt(s, e), d)
  {
    var a, b := RemoveAt(RemoveAt(s, d), e - 1), RemoveAt(RemoveAt(s, e), d);
    forall k | 0 <= k < |s| - 2 ensures a[k] == b[k] {
      RemovedElement(RemoveAt(s, d), e - 1, k);
      RemovedElement(RemoveAt(s, e), d, k);
    }
  }

  /** Two moves that lead every position back to the same origin give the same sequence. */
  lemma {:induction false} MoveMove<T>(s: seq<T>, f: nat, t: nat, g: nat, u: nat, f2: nat, t2: nat, g2: nat, u2: nat)
    requires f < |s| && t < |s| && g < |s| && u < |s| && f2 < |s| && t2 < |s| && g2 < |s| && u2 < |s|
    requires forall k :: 0 <= k < |s| ==> MovedFrom(f, t, MovedFrom(g2, u2, k)) == MovedFrom(g, u, MovedFrom(f2, t2, k))
    ensures MoveAt(MoveAt(s, f, t), g2, u2) == MoveAt(MoveAt(s, g, u), f2, t2)
  {
    var a, b := MoveAt(MoveAt(s, f, t), g2, u2), MoveAt(MoveAt(s, g, u), f2, t2);
    forall k | 0 <= k < |s|
      ensures a[k] == b[k]
    {
      MovedElement(MoveAt(s, f, t), g2, u2, k);
      MovedElement(s, f, t, MovedFrom(g2, u2, k));
      MovedElement(MoveAt(s, g, u), f2, t2, k);
      MovedElement(s, g, u, MovedFrom(f2, t2, k));
    }
  }

  /** The elements from one position to another are all equal. */
  predicate AllSame<T(==)>(s: seq<T>, f: nat, t: nat)
    requires f < |s| && t < |s|
  {
    forall k :: 0 <= k < |s| && (f <= k <= t || t <= k <= f) ==> s[k] == s[f]
  }

  lemma {:induction false} StepsUp<T>(s: seq<T>, f: nat, t: nat, k: nat)
    requires f <= k <= t < |s|
    requires forall j :: f <= j < t ==> s[j] == s[j + 1]
    ensures s[k] == s[f]
    decreases k
  {
    if f < k {
      StepsUp(s, f, t, k - 1);
    }
  }

  /** Moving an element changes nothing exactly when it moves among its equals. */
  lemma {:induction false} MoveStays<T>(s: seq<T>, f: nat, t: nat)
    requires f < |s| && t < |s|
    ensures MoveAt(s, f, t) == s <==> AllSame(s, f, t)
  {
    if MoveAt(s, f, t) == s {
      if f <= t {
        forall j | f <= j < t ensures s[j] == s[j + 1] {
          MovedElement(s, f, t, j);
        }
        forall k | f <= k <= t ensures s[k] == s[f] {
          StepsUp(s, f, t, k);
        }
      } else {
        forall j | t <= j < f ensures s[j] == s[j + 1] {
          MovedElement(s, f, t, j + 1);
        }
        forall k | t <= k <= f ensures s[k] == s[f] {
          StepsUp(s, t, f, k);
          StepsUp(s, t, f, f);
        }
      }
    }
    if AllSame(s, f, t) {
      forall k | 0 <= k < |s| ensures MoveAt(s, f, t)[k] == s[k] {
        MovedElement(s, f, t, k);
      }
    }
  }
}
