/** The `Unit` class of Inference.Units (Units.cs): a unit of measure as an
    element of a free Abelian group, written as two signed multisets, one over
    unit variables and one over unit constants, each mapping a name to its
    integer exponent. */
module UnitAlgebra {

  /** A signed multiset: a name mapped to its exponent. */
  type Exponents = map<string, int>

  /** `GetValueOrDefault(name, 0)`. */
  function Get(m: Exponents, k: string): int
  {
    if k in m then m[k] else 0
  }

  /** No name is stored with exponent zero. */
  predicate Pruned(m: Exponents)
  {
    forall k :: k in m ==> m[k] != 0
  }

  /** The key-by-key sum of two exponent maps, with every zero sum dropped
      (the `ToLookup`/`Sum`/`Where(p => p.Value != 0)` chain of `Add`). */
  function Sum(a: Exponents, b: Exponents): (r: Exponents)
    ensures forall k :: Get(r, k) == Get(a, k) + Get(b, k)
    ensures Pruned(r)
  {
    map k | k in a.Keys + b.Keys && Get(a, k) + Get(b, k) != 0 :: Get(a, k) + Get(b, k)
  }

  /** Every exponent negated; the keys are kept. */
  function Negated(m: Exponents): (r: Exponents)
    ensures r.Keys == m.Keys
    ensures forall k :: Get(r, k) == -Get(m, k)
  {
    map k | k in m :: -m[k]
  }

  /** Every exponent multiplied by `factor`; the keys are kept, so a factor of
      zero leaves zero exponents behind. */
  function Scaled(m: Exponents, factor: int): (r: Exponents)
    ensures r.Keys == m.Keys
    ensures forall k :: Get(r, k) == Get(m, k) * factor
  {
    map k | k in m :: m[k] * factor
  }

  /** C#'s integer division, which truncates toward zero, written with
      Dafny's Euclidean division. */
  function TruncDiv(a: int, b: int): (q: int)
    requires b != 0
    ensures a % b == 0 ==> q * b == a
  {
    if a >= 0 || a % b == 0 then a / b
    else if b > 0 then a / b + 1
    else a / b - 1
  }

  function Abs(x: int): (r: nat)
    ensures r == x || r == -x
  {
    if x < 0 then -x else x
  }

  /** Every exponent divided, truncating, by `factor`; the keys are kept. */
  function Quotient(m: Exponents, factor: int): (r: Exponents)
    requires factor != 0
    ensures r.Keys == m.Keys
    ensures forall k :: k in m ==> r[k] == TruncDiv(m[k], factor)
  {
    map k | k in m :: TruncDiv(m[k], factor)
  }

  // ---------------------------------------------------------------------
  // Units.

  datatype Unit = Unit(variables: Exponents, constants: Exponents)

  /** `new Unit()`: the identity, commonly written 1. */
  const Identity: Unit := Unit(map[], map[])

  /** `new Unit(soleVariable)`: one variable with exponent 1. */
  function Sole(v: string): Unit
  {
    Unit(map[v := 1], map[])
  }

  /** No name of either map is stored with exponent zero. */
  predicate Normal(u: Unit)
  {
    Pruned(u.variables) && Pruned(u.constants)
  }

  predicate IsIdentity(u: Unit)
  {
    |u.variables| == 0 && |u.constants| == 0
  }

  predicate IsConstant(u: Unit)
  {
    |u.variables| == 0
  }

  function ExponentOf(u: Unit, v: string): int
  {
    Get(u.variables, v)
  }

  /** `DividesPowers(divisor)`: every exponent is a multiple of `divisor`.
      C#'s truncating remainder is zero exactly when Dafny's is. */
  predicate DividesPowers(u: Unit, divisor: int)
    requires divisor != 0
  {
    (forall k :: k in u.variables ==> u.variables[k] % divisor == 0)
    && (forall k :: k in u.constants ==> u.constants[k] % divisor == 0)
  }

  /** `NotMax(v)`: another variable's exponent is at least as large in
      absolute value as that of `v`. */
  predicate NotMax(u: Unit, v: string)
  {
    exists k :: k in u.variables && k != v && Abs(u.variables[k]) >= Abs(ExponentOf(u, v))
  }

  function Invert(u: Unit): Unit
  {
    Unit(Negated(u.variables), Negated(u.constants))
  }

  /** `Add`: the group operation, exponents summed name by name. */
  function Add(u: Unit, other: Unit): Unit
  {
    Unit(Sum(u.variables, other.variables), Sum(u.constants, other.constants))
  }

  /** `Subtract`: `Add` of the inverse. */
  function Subtract(u: Unit, other: Unit): Unit
  {
    Add(u, Invert(other))
  }

  function Scale(u: Unit, factor: int): Unit
  {
    Unit(Scaled(u.variables, factor), Scaled(u.constants, factor))
  }

  /** `Divide`: every exponent divided by `factor`, truncating toward zero.
      The source divides by zero only to throw; no caller does. */
  function Divide(u: Unit, factor: int): (r: Unit)
    requires factor != 0
    ensures r.variables.Keys == u.variables.Keys && r.constants.Keys == u.constants.Keys
  {
    Unit(Quotient(u.variables, factor), Quotient(u.constants, factor))
  }

  /** `Pivot(variable)`: the solution for `variable` of the equation `u = 1`,
      i.e. `-(u - e·variable) / e` where `e` is its exponent. */
  function Pivot(u: Unit, variable: string): Unit
    requires ExponentOf(u, variable) != 0
  {
    var pivotPower := ExponentOf(u, variable);
    Invert(Divide(Subtract(u, Scale(Sole(variable), pivotPower)), pivotPower))
  }

  function FreeVariables(u: Unit): set<string>
  {
    u.variables.Keys
  }

  /** `Substitute(name, other)`: `u + e·(other - name)` where `e` is the
      exponent of `name` in `u`. */
  function Substitute(u: Unit, name: string, other: Unit): Unit
  {
    Add(Scale(Subtract(other, Sole(name)), ExponentOf(u, name)), u)
  }

  // ---------------------------------------------------------------------
  // The group laws.

  /** Two units with the same exponents and the same keys are equal. */
  lemma Extensional(a: Unit, b: Unit)
    requires a.variables.Keys == b.variables.Keys && a.constants.Keys == b.constants.Keys
    requires forall k :: Get(a.variables, k) == Get(b.variables, k)
    requires forall k :: Get(a.constants, k) == Get(b.constants, k)
    ensures a == b
  {
    assert forall k :: k in a.variables ==> a.variables[k] == Get(a.variables, k);
    assert forall k :: k in b.variables ==> b.variables[k] == Get(b.variables, k);
    assert a.variables == b.variables;
    assert forall k :: k in a.constants ==> a.constants[k] == Get(a.constants, k);
    assert forall k :: k in b.constants ==> b.constants[k] == Get(b.constants, k);
    assert a.constants == b.constants;
  }

  /** Two normal units with the same exponents are equal. */
  lemma NormalExtensional(a: Unit, b: Unit)
    requires Normal(a) && Normal(b)
    requires forall k :: Get(a.variables, k) == Get(b.variables, k)
    requires forall k :: Get(a.constants, k) == Get(b.constants, k)
    ensures a == b
  {
    assert forall k :: k in a.variables <==> Get(a.variables, k) != 0;
    assert forall k :: k in b.variables <==> Get(b.variables, k) != 0;
    assert forall k :: k in a.constants <==> Get(a.constants, k) != 0;
    assert forall k :: k in b.constants <==> Get(b.constants, k) != 0;
    Extensional(a, b);
  }

  lemma AddCommutes(a: Unit, b: Unit)
    ensures Add(a, b) == Add(b, a)
  {
    NormalExtensional(Add(a, b), Add(b, a));
  }

  lemma AddAssociates(a: Unit, b: Unit, c: Unit)
    ensures Add(Add(a, b), c) == Add(a, Add(b, c))
  {
    var l, r := Add(Add(a, b), c), Add(a, Add(b, c));
    forall k
      ensures Get(l.variables, k) == Get(r.variables, k)
      ensures Get(l.constants, k) == Get(r.constants, k)
    {
      assert Get(l.variables, k) == Get(Add(a, b).variables, k) + Get(c.variables, k);
      assert Get(r.variables, k) == Get(a.variables, k) + Get(Add(b, c).variables, k);
      assert Get(l.constants, k) == Get(Add(a, b).constants, k) + Get(c.constants, k);
      assert Get(r.constants, k) == Get(a.constants, k) + Get(Add(b, c).constants, k);
    }
    NormalExtensional(l, r);
  }

  /** The identity is neutral for `Add` on units without zero exponents;
      `Add` itself drops any zero exponent. */
  lemma AddIdentity(u: Unit)
    ensures Normal(u) ==> Add(u, Identity) == u
    ensures Add(Add(u, Identity), Identity) == Add(u, Identity)
  {
    if Normal(u) { NormalExtensional(Add(u, Identity), u); }
    NormalExtensional(Add(Add(u, Identity), Identity), Add(u, Identity));
  }

  /** Every unit has an inverse: `u.Subtract(u)` is the identity. */
  lemma SubtractSelf(u: Unit)
    ensures Subtract(u, u) == Identity
  {
    NormalExtensional(Subtract(u, u), Identity);
  }

  lemma InvertInvolution(u: Unit)
    ensures Invert(Invert(u)) == u
  {
    Extensional(Invert(Invert(u)), u);
  }

  /** A normal unit is the identity exactly when every exponent is zero. */
  lemma IdentityIffZero(u: Unit)
    requires Normal(u)
    ensures IsIdentity(u) <==> (forall k :: Get(u.variables, k) == 0 && Get(u.constants, k) == 0)
  {
    if !IsIdentity(u) {
      if |u.variables| != 0 {
        var k :| k in u.variables;
        assert Get(u.variables, k) != 0;
      } else {
        var k :| k in u.constants;
        assert Get(u.constants, k) != 0;
      }
    }
  }

  /** An exact quotient multiplied back gives the exponent. */
  lemma QuotientExact(m: Exponents, factor: int, k: string)
    requires factor != 0 && (k in m ==> m[k] % factor == 0)
    ensures Get(Quotient(m, factor), k) * factor == Get(m, k)
  {
  }

  /** The pivot variable no longer occurs in its pivot. */
  lemma PivotEliminates(u: Unit, v: string)
    requires ExponentOf(u, v) != 0
    ensures v !in Pivot(u, v).variables
  {
    var e := ExponentOf(u, v);
    assert Get(Subtract(u, Scale(Sole(v), e)).variables, v) == 0;
  }

  /** What `Pivot` divides: `u` without `v`, whose exponent it cancels. */
  lemma PivotDividend(u: Unit, v: string)
    requires ExponentOf(u, v) != 0
    ensures var d := Subtract(u, Scale(Sole(v), ExponentOf(u, v)));
      && v !in d.variables
      && (forall k :: k != v ==> Get(d.variables, k) == Get(u.variables, k))
      && (forall k :: Get(d.constants, k) == Get(u.constants, k))
      && (DividesPowers(u, ExponentOf(u, v)) ==> DividesPowers(d, ExponentOf(u, v)))
  {
    var e := ExponentOf(u, v);
    var d := Subtract(u, Scale(Sole(v), e));
    assert Get(d.variables, v) == 0;
    assert forall k :: k != v ==> Get(d.variables, k) == Get(u.variables, k);
    assert forall k :: Get(d.constants, k) == Get(u.constants, k);
    if DividesPowers(u, e) {
      forall k | k in d.variables
        ensures d.variables[k] % e == 0
      {
        assert Get(d.variables, k) == Get(u.variables, k);
      }
      forall k | k in d.constants
        ensures d.constants[k] % e == 0
      {
        assert Get(d.constants, k) == Get(u.constants, k);
      }
    }
  }

  /** With `e` the exponent of `v` and every exponent a multiple of `e`,
      `e·Pivot(v) = -(u - e·v)`, exponent by exponent. */
  lemma PivotSolves(u: Unit, v: string)
    requires ExponentOf(u, v) != 0 && DividesPowers(u, ExponentOf(u, v))
    ensures forall k :: (Get(Pivot(u, v).variables, k) * ExponentOf(u, v)
      == if k == v then 0 else -Get(u.variables, k))
    ensures forall k :: Get(Pivot(u, v).constants, k) * ExponentOf(u, v) == -Get(u.constants, k)
  {
    forall k
      ensures Get(Pivot(u, v).variables, k) * ExponentOf(u, v) == (if k == v then 0 else -Get(u.variables, k))
      ensures Get(Pivot(u, v).constants, k) * ExponentOf(u, v) == -Get(u.constants, k)
    {
      PivotAt(u, v, k);
    }
  }

  lemma PivotAt(u: Unit, v: string, k: string)
    requires ExponentOf(u, v) != 0 && DividesPowers(u, ExponentOf(u, v))
    ensures Get(Pivot(u, v).variables, k) * ExponentOf(u, v) == (if k == v then 0 else -Get(u.variables, k))
    ensures Get(Pivot(u, v).constants, k) * ExponentOf(u, v) == -Get(u.constants, k)
  {
    var e := ExponentOf(u, v);
    var d := Subtract(u, Scale(Sole(v), e));
    PivotDividend(u, v);
    var q := Divide(d, e);
    assert Pivot(u, v) == Invert(q);
    QuotientExact(d.variables, e, k);
    QuotientExact(d.constants, e, k);
    NegatedProduct(Get(Pivot(u, v).variables, k), Get(q.variables, k), e, Get(d.variables, k));
    NegatedProduct(Get(Pivot(u, v).constants, k), Get(q.constants, k), e, Get(d.constants, k));
  }

  /** Under `DividesPowers` the pivot stores no zero exponent, so it is a
      unit `ToType` describes exactly. */
  lemma PivotNormal(u: Unit, v: string)
    requires ExponentOf(u, v) != 0 && DividesPowers(u, ExponentOf(u, v))
    ensures Normal(Pivot(u, v))
  {
    var e := ExponentOf(u, v);
    var d := Subtract(u, Scale(Sole(v), e));
    var p := Pivot(u, v);
    PivotDividend(u, v);
    assert p.variables.Keys == d.variables.Keys && p.constants.Keys == d.constants.Keys;
    forall k | k in p.variables
      ensures p.variables[k] != 0
    {
      PivotAt(u, v, k);
      assert k != v;
      NonzeroFactor(Get(p.variables, k), e, Get(d.variables, k));
    }
    forall k | k in p.constants
      ensures p.constants[k] != 0
    {
      PivotAt(u, v, k);
      NonzeroFactor(Get(p.constants, k), e, Get(d.constants, k));
    }
  }

  lemma NonzeroFactor(x: int, e: int, y: int)
    requires x * e == -y && y != 0
    ensures x != 0
  {
  }

  lemma NegatedProduct(p: int, x: int, e: int, dk: int)
    requires p == -x && x * e == dk
    ensures p * e == -dk
  {
  }



  /** Exponents of `Substitute`: those of `u` plus `e` times those of
      `other - name`, where `e` is the exponent of `name` in `u`. */
  lemma SubstituteExponents(u: Unit, name: string, other: Unit)
    ensures Normal(Substitute(u, name, other))
    ensures forall k :: (Get(Substitute(u, name, other).variables, k)
      == Get(u.variables, k) + (Get(other.variables, k) - (if k == name then 1 else 0)) * ExponentOf(u, name))
    ensures forall k :: (Get(Substitute(u, name, other).constants, k)
      == Get(u.constants, k) + Get(other.constants, k) * ExponentOf(u, name))
  {
    forall k
      ensures Get(Substitute(u, name, other).variables, k)
        == Get(u.variables, k) + (Get(other.variables, k) - (if k == name then 1 else 0)) * ExponentOf(u, name)
      ensures Get(Substitute(u, name, other).constants, k)
        == Get(u.constants, k) + Get(other.constants, k) * ExponentOf(u, name)
    {
      SubstituteAt(u, name, other, k);
    }
  }

  lemma SubstituteAt(u: Unit, name: string, other: Unit, k: string)
    ensures Get(Substitute(u, name, other).variables, k)
      == Get(u.variables, k) + (Get(other.variables, k) - (if k == name then 1 else 0)) * ExponentOf(u, name)
    ensures Get(Substitute(u, name, other).constants, k)
      == Get(u.constants, k) + Get(other.constants, k) * ExponentOf(u, name)
  {
    var w := Subtract(other, Sole(name));
    var e := ExponentOf(u, name);
    var scaled := Scale(w, e);
    assert Get(Sole(name).variables, k) == (if k == name then 1 else 0);
    assert Get(Invert(Sole(name)).variables, k) == -(if k == name then 1 else 0);
    assert Get(w.variables, k) == Get(other.variables, k) - (if k == name then 1 else 0);
    assert Get(scaled.variables, k) == Get(w.variables, k) * e;
    assert Get(Add(scaled, u).variables, k) == Get(scaled.variables, k) + Get(u.variables, k);
    assert Get(w.constants, k) == Get(other.constants, k);
    assert Get(scaled.constants, k) == Get(w.constants, k) * e;
    assert Get(Add(scaled, u).constants, k) == Get(scaled.constants, k) + Get(u.constants, k);
  }

  /** Substituting a unit that does not mention `name` eliminates `name`. */
  lemma SubstituteEliminates(u: Unit, name: string, other: Unit)
    requires name !in other.variables
    ensures name !in Substitute(u, name, other).variables
  {
    SubstituteAt(u, name, other, name);
    assert Get(Substitute(u, name, other).variables, name) == 0;
  }

  /** Substituting the pivot of `v` for `v` solves the equation `u = 1`:
      the result is the identity. */
  lemma SubstitutePivot(u: Unit, v: string)
    requires ExponentOf(u, v) != 0 && DividesPowers(u, ExponentOf(u, v))
    ensures Substitute(u, v, Pivot(u, v)) == Identity
  {
    forall k
      ensures Get(Substitute(u, v, Pivot(u, v)).variables, k) == 0
      ensures Get(Substitute(u, v, Pivot(u, v)).constants, k) == 0
    {
      SubstitutePivotAt(u, v, k);
    }
    NormalExtensional(Substitute(u, v, Pivot(u, v)), Identity);
  }

  lemma SubstitutePivotAt(u: Unit, v: string, k: string)
    requires ExponentOf(u, v) != 0 && DividesPowers(u, ExponentOf(u, v))
    ensures Get(Substitute(u, v, Pivot(u, v)).variables, k) == 0
    ensures Get(Substitute(u, v, Pivot(u, v)).constants, k) == 0
  {
    var p := Pivot(u, v);
    var e := ExponentOf(u, v);
    PivotAt(u, v, k);
    SubstituteAt(u, v, p, k);
    var r := Substitute(u, v, p);
    if k == v {
      PivotEliminates(u, v);
      assert Get(r.variables, k) == e + (0 - 1) * e;
    } else {
      Cancel(Get(u.variables, k), Get(p.variables, k), e, Get(r.variables, k));
    }
    Cancel(Get(u.constants, k), Get(p.constants, k), e, Get(r.constants, k));
  }

  lemma Cancel(a: int, p: int, e: int, r: int)
    requires p * e == -a && r == a + p * e
    ensures r == 0
  {
  }
}
