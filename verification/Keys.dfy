/** The keys of an object in the order sorting puts them. */
module Keys {

  predicate Less(a: string, b: string) {
    b != "" && (a == "" || a[0] < b[0] || (a[0] == b[0] && Less(a[1..], b[1..])))
  }

  predicate IsLeast(k: string, s: set<string>) {
    k in s && forall j :: j in s ==> j == k || Less(k, j)
  }

  lemma {:induction false} LessIsAsymmetric(a: string, b: string)
    ensures !(Less(a, b) && Less(b, a))
    decreases |a|
  {
    if a != "" && b != "" {
      LessIsAsymmetric(a[1..], b[1..]);
    }
  }

  lemma {:induction false} LessIsTotal(a: string, b: string)
    ensures a == b || Less(a, b) || Less(b, a)
    decreases |a|
  {
    if a != "" && b != "" {
      LessIsTotal(a[1..], b[1..]);
      assert a == [a[0]] + a[1..] && b == [b[0]] + b[1..];
    }
  }

  lemma {:induction false} LessIsTransitive(a: string, b: string, c: string)
    requires Less(a, b) && Less(b, c)
    ensures Less(a, c)
    decreases |a|
  {
    if a != "" && a[0] == b[0] == c[0] {
      LessIsTransitive(a[1..], b[1..], c[1..]);
    }
  }

  lemma {:induction false} LeastExists(s: set<string>)
    requires s != {}
    ensures exists k :: IsLeast(k, s)
    decreases |s|
  {
    var x :| x in s;
    if s == {x} {
      assert IsLeast(x, s);
    } else {
      var rest := s - {x};
      assert s == rest + {x};
      LeastExists(rest);
      var k :| IsLeast(k, rest);
      LessIsTotal(k, x);
      if Less(x, k) {
        forall j | j in rest ensures Less(x, j) {
          if j != k {
            LessIsTransitive(x, k, j);
          }
        }
        assert IsLeast(x, s);
      } else {
        assert IsLeast(k, s);
      }
    }
  }

  lemma {:induction false} LeastIsUnique(s: set<string>, j: string, k: string)
    requires IsLeast(j, s) && IsLeast(k, s)
    ensures j == k
  {
    LessIsAsymmetric(j, k);
  }

  ghost function Least(s: set<string>): (k: string)
    requires s != {}
    ensures IsLeast(k, s)
  {
    LeastExists(s);
    var k :| IsLeast(k, s);
    k
  }

  ghost function SortedKeys(s: set<string>): seq<string>
    decreases |s|
  {
    if s == {} then [] else [Least(s)] + SortedKeys(s - {Least(s)})
  }

  /** The sorted sequence holds every key once, each before the greater ones. */
  lemma {:induction false} SortedKeysIsSorted(s: set<string>)
    ensures forall k :: k in SortedKeys(s) <==> k in s
    ensures forall i, j :: 0 <= i < j < |SortedKeys(s)| ==> Less(SortedKeys(s)[i], SortedKeys(s)[j])
    decreases |s|
  {
    if s != {} {
      var rest := s - {Least(s)};
      SortedKeysIsSorted(rest);
      var keys := SortedKeys(s);
      assert keys == [Least(s)] + SortedKeys(rest);
      forall i, j | 0 <= i < j < |keys| ensures Less(keys[i], keys[j]) {
        assert keys[j] == SortedKeys(rest)[j - 1] && keys[j] in rest;
      }
    }
  }

  method SortKeys(s: set<string>) returns (keys: seq<string>)
    ensures keys == SortedKeys(s)
  {
    keys := [];
    var rest := s;
    while rest != {}
      invariant SortedKeys(s) == keys + SortedKeys(rest)
      decreases |rest|
    {
      LeastExists(rest);
      assert exists k :: k in rest && forall j :: j in rest ==> j == k || Less(k, j) by {
        var k :| IsLeast(k, rest);
      }
      var k :| k in rest && forall j :: j in rest ==> j == k || Less(k, j);
      LeastIsUnique(rest, k, Least(rest));
      keys := keys + [k];
      rest := rest - {k};
    }
  }
}
