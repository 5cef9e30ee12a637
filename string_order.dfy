/** A fixed enumeration order for the keys of an exponent map.  The C#
    dictionaries enumerate in an unspecified order; the model enumerates
    keys in lexicographic order of their character codes. */
module StringOrder {

  /** `a` comes no later than `b` in lexicographic order. */
  predicate Below(a: string, b: string)
  {
    if a == [] then true
    else if b == [] then false
    else if a[0] != b[0] then a[0] < b[0]
    else Below(a[1..], b[1..])
  }

  lemma {:induction false} BelowReflexive(a: string)
    ensures Below(a, a)
  {
    if a != [] { BelowReflexive(a[1..]); }
  }

  lemma {:induction false} BelowTotal(a: string, b: string)
    ensures Below(a, b) || Below(b, a)
  {
    if a != [] && b != [] && a[0] == b[0] {
      BelowTotal(a[1..], b[1..]);
    }
  }

  lemma {:induction false} BelowAntisymmetric(a: string, b: string)
    requires Below(a, b) && Below(b, a)
    ensures a == b
  {
    if a != [] && b != [] {
      BelowAntisymmetric(a[1..], b[1..]);
      assert a == [a[0]] + a[1..];
      assert b == [b[0]] + b[1..];
    }
  }

  lemma {:induction false} BelowTransitive(a: string, b: string, c: string)
    requires Below(a, b) && Below(b, c)
    ensures Below(a, c)
  {
    if a != [] && b != [] && c != [] && a[0] == b[0] && b[0] == c[0] {
      BelowTransitive(a[1..], b[1..], c[1..]);
    }
  }

  /** `m` is a least element of `s`. */
  predicate IsLeast(m: string, s: set<string>)
  {
    m in s && forall y {:trigger Below(m, y)} :: y in s ==> Below(m, y)
  }

  /** Every finite non-empty set of strings has a least element. */
  lemma {:induction false} LeastExists(s: set<string>)
    requires s != {}
    ensures exists m :: IsLeast(m, s)
    decreases |s|
  {
    var x :| x in s;
    BelowReflexive(x);
    if s == {x} {
      assert IsLeast(x, s);
    } else {
      LeastExists(s - {x});
      var m :| IsLeast(m, s - {x});
      BelowTotal(m, x);
      if Below(m, x) {
        assert IsLeast(m, s);
      } else {
        forall y | y in s
          ensures Below(x, y)
        {
          if y != x { BelowTransitive(x, m, y); }
        }
        assert IsLeast(x, s);
      }
    }
  }

  /** There is at most one least element. */
  lemma LeastUnique(s: set<string>)
    ensures forall a, b :: IsLeast(a, s) && IsLeast(b, s) ==> a == b
  {
    forall a, b | IsLeast(a, s) && IsLeast(b, s)
      ensures a == b
    {
      BelowAntisymmetric(a, b);
    }
  }

  function Least(s: set<string>): (m: string)
    requires s != {}
    ensures IsLeast(m, s)
  {
    LeastExists(s);
    LeastUnique(s);
    var m :| IsLeast(m, s); m
  }

  /** The elements of `s`, each once, in ascending order. */
  function Sorted(s: set<string>): seq<string>
    decreases |s|
  {
    if s == {} then []
    else
      var m := Least(s);
      [m] + Sorted(s - {m})
  }

  /** `Sorted` lists every element of the set, and each only once. */
  lemma {:induction false} SortedSpec(s: set<string>)
    ensures |Sorted(s)| == |s|
    ensures forall k :: k in s <==> k in Sorted(s)
    ensures forall i, j :: 0 <= i < j < |Sorted(s)| ==> Sorted(s)[i] != Sorted(s)[j]
    decreases |s|
  {
    if s != {} {
      var m := Least(s);
      SortedSpec(s - {m});
      var r := Sorted(s);
      assert r == [m] + Sorted(s - {m});
      forall i, j | 0 <= i < j < |r|
        ensures r[i] != r[j]
      {
        if i == 0 {
          assert r[j] in Sorted(s - {m});
        } else {
          assert r[i] == Sorted(s - {m})[i - 1] && r[j] == Sorted(s - {m})[j - 1];
        }
      }
    }
  }

  /** Consecutive elements of `Sorted` ascend. */
  lemma {:induction false} SortedAscends(s: set<string>)
    ensures forall i :: 0 <= i < |Sorted(s)| - 1 ==> Below(Sorted(s)[i], Sorted(s)[i + 1])
    decreases |s|
  {
    if s != {} {
      var m := Least(s);
      SortedAscends(s - {m});
      SortedSpec(s - {m});
      assert Sorted(s) == [m] + Sorted(s - {m});
      if |Sorted(s)| > 1 {
        assert Sorted(s)[1] in s;
      }
    }
  }
}
