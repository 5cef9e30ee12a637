/** Types of the units-of-measure engine (Inference.Units, Types.cs and
    Kinds.cs): value types (variables, arrows and floats carrying a unit) and
    unit expressions (identity, products, integer powers, variables and
    primitive units), with the conversions between unit expressions and the
    `Unit` algebra, the hull of a value type, substitution and free
    variables. */
module UnitTypes {
  import opened Results
  import opened Fresh
  import opened StringOrder
  import opened UnitAlgebra

  /** `Kind`: `Kind.Value` for value types, `Kind.Unit` for units. */
  datatype Kind = ValueKind | UnitKind

  datatype Type =
    | TypeVariable(name: string)
    | ArrowType(input: Type, output: Type)
    | FloatType(unit: Type)
    | UnitIdentity
    | UnitMultiply(left: Type, right: Type)
    | UnitPower(base: Type, exponent: int)
    | PrimitiveUnit(name: string)

  function FreeVariables(t: Type): set<string>
  {
    match t
    case TypeVariable(n) => {n}
    case ArrowType(i, o) => FreeVariables(i) + FreeVariables(o)
    case FloatType(u) => FreeVariables(u)
    case UnitIdentity => {}
    case UnitMultiply(l, r) => FreeVariables(l) + FreeVariables(r)
    case UnitPower(b, _) => FreeVariables(b)
    case PrimitiveUnit(_) => {}
  }

  /** Built from variables and the unit constructors only. */
  predicate IsUnitExpression(t: Type)
  {
    match t
    case TypeVariable(_) => true
    case ArrowType(_, _) => false
    case FloatType(_) => false
    case UnitIdentity => true
    case UnitMultiply(l, r) => IsUnitExpression(l) && IsUnitExpression(r)
    case UnitPower(b, _) => IsUnitExpression(b)
    case PrimitiveUnit(_) => true
  }

  /** `ToUnit`: the unit a unit expression denotes; arrows and floats throw. */
  function ToUnit(t: Type): Result<Unit>
  {
    match t
    case TypeVariable(n) => Ok(Sole(n))
    case ArrowType(_, _) => Err(NotAUnit)
    case FloatType(_) => Err(NotAUnit)
    case UnitIdentity => Ok(Identity)
    case UnitMultiply(l, r) =>
      var a :- ToUnit(l);
      var b :- ToUnit(r);
      Ok(Add(a, b))
    case UnitPower(b, k) =>
      var a :- ToUnit(b);
      Ok(Scale(a, k))
    case PrimitiveUnit(n) => Ok(Unit(map[], map[n := 1]))
  }

  /** `ToUnit` succeeds exactly on unit expressions, and the unit it gives
      has no variable the expression does not mention. */
  lemma {:induction false} ToUnitSpec(t: Type)
    ensures ToUnit(t).Ok? <==> IsUnitExpression(t)
    ensures ToUnit(t).Ok? ==> ToUnit(t).value.variables.Keys <= FreeVariables(t)
    ensures ToUnit(t).Err? ==> ToUnit(t).error == NotAUnit
  {
    match t
    case UnitMultiply(l, r) =>
      ToUnitSpec(l);
      ToUnitSpec(r);
      if ToUnit(t).Ok? {
        var a, b := ToUnit(l).value, ToUnit(r).value;
        forall k | k in Add(a, b).variables
          ensures k in FreeVariables(t)
        {
          assert Get(Add(a, b).variables, k) != 0;
        }
      }
    case UnitPower(b, _) =>
      ToUnitSpec(b);
    case _ =>
  }

  // ---------------------------------------------------------------------
  // From units back to unit expressions (`Unit.ToType`).

  /** `ElemToVar`. */
  function VariablePower(k: string, e: int): Type
  {
    UnitPower(TypeVariable(k), e)
  }

  /** `ElemToPrim`. */
  function PrimitivePower(k: string, e: int): Type
  {
    UnitPower(PrimitiveUnit(k), e)
  }

  /** The `Aggregate` of `UnitMultiply` over the elements of `keys`, seeded
      with the first, each element a variable or a primitive raised to its
      exponent in `m`. */
  function Product(keys: seq<string>, m: Exponents, variables: bool): Type
    requires keys != []
  {
    var last := keys[|keys| - 1];
    var elem := if variables then VariablePower(last, Get(m, last)) else PrimitivePower(last, Get(m, last));
    if |keys| == 1 then elem
    else UnitMultiply(Product(keys[..|keys| - 1], m, variables), elem)
  }

  /** `Unit.ToType`: the product of the variables, then of the constants,
      each in ascending name order. */
  function ToType(u: Unit): Type
  {
    var vs := Sorted(u.variables.Keys);
    var cs := Sorted(u.constants.Keys);
    if vs == [] && cs == [] then UnitIdentity
    else if vs == [] then Product(cs, u.constants, false)
    else if cs == [] then Product(vs, u.variables, true)
    else UnitMultiply(Product(vs, u.variables, true), Product(cs, u.constants, false))
  }

  /** Exponents as the variable part or the constant part of a unit. */
  function Embed(m: Exponents, variables: bool): Unit
  {
    if variables then Unit(m, map[]) else Unit(map[], m)
  }

  /** The entries of `m` whose key is listed. */
  function Restrict(m: Exponents, keys: seq<string>): Exponents
  {
    map k | k in m && k in keys :: m[k]
  }

  /** The unit of one element: its key alone, with its exponent. */
  lemma PowerUnit(k: string, e: int, variables: bool)
    ensures ToUnit(if variables then VariablePower(k, e) else PrimitivePower(k, e)) == Ok(Embed(map[k := e], variables))
  {
    var one := if variables then Sole(k) else Unit(map[], map[k := 1]);
    var w := Scale(one, e);
    assert Get(map[k := 1], k) * e == e;
    Extensional(w, Embed(map[k := e], variables));
  }

  /** Adding units built on disjoint parts of the same side unions them. */
  lemma AddDisjoint(a: Exponents, b: Exponents, variables: bool)
    requires Pruned(a) && Pruned(b) && a.Keys !! b.Keys
    ensures Add(Embed(a, variables), Embed(b, variables)) == Embed(a + b, variables)
  {
    var l, r := Add(Embed(a, variables), Embed(b, variables)), Embed(a + b, variables);
    assert forall k :: Get(a + b, k) == Get(a, k) + Get(b, k);
    NormalExtensional(l, r);
  }

  lemma RestrictSnoc(m: Exponents, init: seq<string>, last: string)
    requires last in m
    ensures Restrict(m, init + [last]) == Restrict(m, init) + map[last := m[last]]
  {
    var l, r := Restrict(m, init + [last]), Restrict(m, init) + map[last := m[last]];
    assert forall k :: k in init + [last] <==> k in init || k == last;
    assert l.Keys == r.Keys;
    assert forall k | k in l :: l[k] == r[k];
  }

  /** The unit of a product: exactly the listed keys with their exponents. */
  lemma {:induction false} ProductUnit(keys: seq<string>, m: Exponents, variables: bool)
    requires keys != [] && Pruned(m)
    requires forall i :: 0 <= i < |keys| ==> keys[i] in m
    requires forall i, j :: 0 <= i < j < |keys| ==> keys[i] != keys[j]
    ensures ToUnit(Product(keys, m, variables)) == Ok(Embed(Restrict(m, keys), variables))
  {
    var last := keys[|keys| - 1];
    assert last in m;
    PowerUnit(last, m[last], variables);
    if |keys| == 1 {
      assert Restrict(m, keys) == map[last := m[last]];
    } else {
      var init := keys[..|keys| - 1];
      ProductUnit(init, m, variables);
      assert last !in init by {
        assert forall j :: 0 <= j < |init| ==> init[j] == keys[j];
      }
      assert keys == init + [last];
      RestrictSnoc(m, init, last);
      AddDisjoint(Restrict(m, init), map[last := m[last]], variables);
    }
  }

  /** The product over all keys of `m`, in ascending order, denotes `m`. */
  lemma ProductAll(m: Exponents, variables: bool)
    requires Pruned(m) && m != map[]
    ensures Sorted(m.Keys) != []
    ensures ToUnit(Product(Sorted(m.Keys), m, variables)) == Ok(Embed(m, variables))
  {
    var keys := Sorted(m.Keys);
    SortedSpec(m.Keys);
    assert m.Keys != {} by {
      var k :| k in m;
    }
    ProductUnit(keys, m, variables);
    assert Restrict(m, keys) == m;
  }

  /** A normal unit is the sum of its two parts. */
  lemma AddParts(u: Unit)
    requires Normal(u)
    ensures Add(Embed(u.variables, true), Embed(u.constants, false)) == u
  {
    NormalExtensional(Add(Embed(u.variables, true), Embed(u.constants, false)), u);
  }

  /** Converting a unit without zero exponents to a unit expression and
      back gives the same unit. */
  lemma ToTypeToUnit(u: Unit)
    requires Normal(u)
    ensures ToUnit(ToType(u)) == Ok(u)
  {
    if u.variables != map[] { ProductAll(u.variables, true); }
    if u.constants != map[] { ProductAll(u.constants, false); }
    if u.variables != map[] && u.constants != map[] {
      AddParts(u);
    }
  }

  /** The unit expression of a unit mentions exactly its variables. */
  lemma ToTypeFreeVariables(u: Unit)
    ensures FreeVariables(ToType(u)) == u.variables.Keys
  {
    if u.variables != map[] { ProductAllVariables(u.variables, true); }
    if u.constants != map[] { ProductAllVariables(u.constants, false); }
  }

  lemma ProductAllVariables(m: Exponents, variables: bool)
    requires m != map[]
    ensures Sorted(m.Keys) != []
    ensures FreeVariables(Product(Sorted(m.Keys), m, variables)) == if variables then m.Keys else {}
  {
    var keys := Sorted(m.Keys);
    SortedSpec(m.Keys);
    assert m.Keys != {} by {
      var k :| k in m;
    }
    ProductVariables(keys, m, variables);
    assert (set k | k in keys) == m.Keys;
  }

  lemma {:induction false} ProductVariables(keys: seq<string>, m: Exponents, variables: bool)
    requires keys != []
    ensures variables ==> FreeVariables(Product(keys, m, variables)) == set k | k in keys
    ensures !variables ==> FreeVariables(Product(keys, m, variables)) == {}
  {
    var last := keys[|keys| - 1];
    var elem := if variables then VariablePower(last, Get(m, last)) else PrimitivePower(last, Get(m, last));
    assert FreeVariables(elem) == if variables then {last} else {};
    if |keys| > 1 {
      var init := keys[..|keys| - 1];
      ProductVariables(init, m, variables);
      assert FreeVariables(Product(keys, m, variables)) == FreeVariables(Product(init, m, variables)) + FreeVariables(elem);
      assert (set k | k in keys) == (set k | k in init) + {last} by {
        assert forall k :: k in keys <==> k in init || k == last;
      }
    } else {
      assert (set k | k in keys) == {last};
    }
  }

  // ---------------------------------------------------------------------
  // Hulls.

  /** A value type: variables, arrows and floats, the shapes `MakeHull`
      accepts. */
  predicate IsValueType(t: Type)
  {
    match t
    case TypeVariable(_) => true
    case ArrowType(i, o) => IsValueType(i) && IsValueType(o)
    case FloatType(_) => true
    case _ => false
  }

  /** The units of the float leaves of a type, left to right. */
  function FloatUnits(t: Type): seq<Type>
  {
    match t
    case ArrowType(i, o) => FloatUnits(i) + FloatUnits(o)
    case FloatType(u) => [u]
    case _ => []
  }

  /** `MakeHull`: the type with the unit of every float replaced by a fresh
      "h" variable, and the list of (fresh name, replaced unit) pairs. */
  function MakeHull(t: Type, stream: Stream): Result<(Stream, Type, seq<(string, Type)>)>
  {
    match t
    case TypeVariable(_) => Ok((stream, t, []))
    case ArrowType(i, o) =>
      var left :- MakeHull(i, stream);
      var right :- MakeHull(o, left.0);
      Ok((right.0, ArrowType(left.1, right.1), left.2 + right.2))
    case FloatType(u) =>
      var (next, h) := Next(stream, "h");
      Ok((next, FloatType(TypeVariable(h)), [(h, u)]))
    case _ => Err(NoHull)
  }

  /** What a successful `MakeHull` of `t` from `stream` draws: one "h" name
      per float leaf, in order, with consecutive counters and no other
      prefix touched, each paired with that leaf's unit; the hull is a
      value type. */
  ghost predicate Counted(t: Type, stream: Stream, next: Stream, hull: Type, cs: seq<(string, Type)>)
  {
    && |cs| == |FloatUnits(t)|
    && (forall i :: 0 <= i < |cs| ==> cs[i].1 == FloatUnits(t)[i])
    && (forall i :: 0 <= i < |cs| ==> cs[i].0 == "h" + NatToString(Counter(stream, "h") + i))
    && Counter(next, "h") == Counter(stream, "h") + |cs|
    && (forall p :: p != "h" ==> Counter(next, p) == Counter(stream, p))
    && IsValueType(hull)
  }

  ghost predicate HullCounted(t: Type, stream: Stream)
  {
    MakeHull(t, stream).Ok? ==>
      var r := MakeHull(t, stream).value;
      Counted(t, stream, r.0, r.1, r.2)
  }

  /** `MakeHull` succeeds exactly on value types, and what it draws is
      counted as `Counted` says. */
  lemma {:induction false} MakeHullSpec(t: Type, stream: Stream)
    ensures MakeHull(t, stream).Ok? <==> IsValueType(t)
    ensures MakeHull(t, stream).Err? ==> MakeHull(t, stream).error == NoHull
    ensures HullCounted(t, stream)
  {
    match t
    case TypeVariable(_) =>
    case ArrowType(i, o) =>
      MakeHullSpec(i, stream);
      if MakeHull(i, stream).Ok? {
        var left := MakeHull(i, stream).value;
        MakeHullSpec(o, left.0);
        if MakeHull(o, left.0).Ok? {
          var right := MakeHull(o, left.0).value;
          HullArrow(i, o, stream, left.0, left.1, left.2, right.0, right.1, right.2);
        }
      }
    case FloatType(u) =>
    case _ =>
  }

  /** The names an arrow draws are those of its input, then those of its
      output. */
  lemma HullArrow(i: Type, o: Type, stream: Stream, mid: Stream, hi: Type, ci: seq<(string, Type)>,
                  next: Stream, ho: Type, co: seq<(string, Type)>)
    requires Counted(i, stream, mid, hi, ci) && Counted(o, mid, next, ho, co)
    ensures Counted(ArrowType(i, o), stream, next, ArrowType(hi, ho), ci + co)
  {
    PairedConcat(ci, co, FloatUnits(i), FloatUnits(o));
    NamedConcat(ci, co, Counter(stream, "h"), Counter(mid, "h"));
  }

  /** Pairing two lists with two lists of units pairs their concatenations. */
  lemma PairedConcat(ci: seq<(string, Type)>, co: seq<(string, Type)>, ui: seq<Type>, uo: seq<Type>)
    requires |ci| == |ui| && forall k :: 0 <= k < |ci| ==> ci[k].1 == ui[k]
    requires |co| == |uo| && forall k :: 0 <= k < |co| ==> co[k].1 == uo[k]
    ensures forall k :: 0 <= k < |ci + co| ==> (ci + co)[k].1 == (ui + uo)[k]
  {
  }

  /** Names drawn from `h` on, then from where they stopped, are drawn from
      `h` on. */
  lemma NamedConcat(ci: seq<(string, Type)>, co: seq<(string, Type)>, h: nat, m: nat)
    requires m == h + |ci|
    requires forall k :: 0 <= k < |ci| ==> ci[k].0 == "h" + NatToString(h + k)
    requires forall k :: 0 <= k < |co| ==> co[k].0 == "h" + NatToString(m + k)
    ensures forall k :: 0 <= k < |ci + co| ==> (ci + co)[k].0 == "h" + NatToString(h + k)
  {
    forall k | |ci| <= k < |ci + co|
      ensures (ci + co)[k].0 == "h" + NatToString(h + k)
    {
      assert (ci + co)[k] == co[k - |ci|];
    }
  }

  /** The hull of a variable is the variable itself, drawing nothing. */
  lemma MakeHullVariable(name: string, stream: Stream)
    ensures MakeHull(TypeVariable(name), stream) == Ok((stream, TypeVariable(name), []))
  {
  }

  // ---------------------------------------------------------------------
  // Substitution.

  /** `Substitute(name, subWith)`. A float renormalises its unit through
      `ToUnit().ToType()`, which throws when the substituted unit is not a
      unit expression. */
  function Substitute(t: Type, name: string, subWith: Type): Result<Type>
  {
    match t
    case TypeVariable(n) => if n == name then Ok(subWith) else Ok(t)
    case ArrowType(i, o) =>
      var i' :- Substitute(i, name, subWith);
      var o' :- Substitute(o, name, subWith);
      Ok(ArrowType(i', o'))
    case FloatType(u) =>
      var u' :- Substitute(u, name, subWith);
      var unit :- ToUnit(u');
      Ok(FloatType(ToType(unit)))
    case UnitIdentity => Ok(t)
    case UnitMultiply(l, r) =>
      var l' :- Substitute(l, name, subWith);
      var r' :- Substitute(r, name, subWith);
      Ok(UnitMultiply(l', r'))
    case UnitPower(b, k) =>
      var b' :- Substitute(b, name, subWith);
      Ok(UnitPower(b', k))
    case PrimitiveUnit(_) => Ok(t)
  }

  /** No float anywhere in the type. */
  predicate FloatFree(t: Type)
  {
    match t
    case TypeVariable(_) => true
    case ArrowType(i, o) => FloatFree(i) && FloatFree(o)
    case FloatType(_) => false
    case UnitIdentity => true
    case UnitMultiply(l, r) => FloatFree(l) && FloatFree(r)
    case UnitPower(b, _) => FloatFree(b)
    case PrimitiveUnit(_) => true
  }

  /** Without floats substitution always succeeds, and substituting a
      variable that does not occur changes nothing. */
  lemma {:induction false} SubstituteStructural(t: Type, name: string, subWith: Type)
    requires FloatFree(t)
    ensures Substitute(t, name, subWith).Ok?
    ensures name !in FreeVariables(t) ==> Substitute(t, name, subWith) == Ok(t)
  {
    match t
    case ArrowType(i, o) =>
      SubstituteStructural(i, name, subWith);
      SubstituteStructural(o, name, subWith);
    case UnitMultiply(l, r) =>
      SubstituteStructural(l, name, subWith);
      SubstituteStructural(r, name, subWith);
    case UnitPower(b, _) =>
      SubstituteStructural(b, name, subWith);
    case _ =>
  }

  /** The only way a substitution fails is a float whose rewritten unit is
      not a unit expression. */
  lemma {:induction false} SubstituteError(t: Type, name: string, subWith: Type)
    ensures Substitute(t, name, subWith).Err? ==> Substitute(t, name, subWith).error == NotAUnit
  {
    match t
    case ArrowType(i, o) =>
      SubstituteError(i, name, subWith);
      SubstituteError(o, name, subWith);
    case FloatType(u) =>
      SubstituteError(u, name, subWith);
      if Substitute(u, name, subWith).Ok? {
        ToUnitSpec(Substitute(u, name, subWith).value);
      }
    case UnitMultiply(l, r) =>
      SubstituteError(l, name, subWith);
      SubstituteError(r, name, subWith);
    case UnitPower(b, _) =>
      SubstituteError(b, name, subWith);
    case _ =>
  }

  /** A substitution that succeeds brings in no variable other than those of
      the replacement, and removes the replaced one when the replacement
      does not mention it. */
  lemma {:induction false} SubstituteFreeVariables(t: Type, name: string, subWith: Type)
    requires Substitute(t, name, subWith).Ok?
    ensures FreeVariables(Substitute(t, name, subWith).value) <= (FreeVariables(t) - {name}) + FreeVariables(subWith)
  {
    match t
    case ArrowType(i, o) =>
      SubstituteFreeVariables(i, name, subWith);
      SubstituteFreeVariables(o, name, subWith);
    case FloatType(u) =>
      SubstituteFreeVariables(u, name, subWith);
      var u' := Substitute(u, name, subWith).value;
      ToUnitSpec(u');
      ToTypeFreeVariables(ToUnit(u').value);
    case UnitMultiply(l, r) =>
      SubstituteFreeVariables(l, name, subWith);
      SubstituteFreeVariables(r, name, subWith);
    case UnitPower(b, _) =>
      SubstituteFreeVariables(b, name, subWith);
    case _ =>
  }

  /** Every float carries a unit expression. */
  predicate UnitsWellFormed(t: Type)
  {
    match t
    case TypeVariable(_) => true
    case ArrowType(i, o) => UnitsWellFormed(i) && UnitsWellFormed(o)
    case FloatType(u) => IsUnitExpression(u)
    case UnitIdentity => true
    case UnitMultiply(l, r) => UnitsWellFormed(l) && UnitsWellFormed(r)
    case UnitPower(b, _) => UnitsWellFormed(b)
    case PrimitiveUnit(_) => true
  }

  /** A unit expression carries no float at all. */
  lemma {:induction false} UnitExpressionWellFormed(t: Type)
    requires IsUnitExpression(t)
    ensures UnitsWellFormed(t)
  {
    match t
    case UnitMultiply(l, r) =>
      UnitExpressionWellFormed(l);
      UnitExpressionWellFormed(r);
    case UnitPower(b, _) =>
      UnitExpressionWellFormed(b);
    case _ =>
  }

  /** A product of powers is a unit expression. */
  lemma {:induction false} ProductIsUnit(keys: seq<string>, m: Exponents, variables: bool)
    requires keys != []
    ensures IsUnitExpression(Product(keys, m, variables))
  {
    if |keys| > 1 {
      ProductIsUnit(keys[..|keys| - 1], m, variables);
    }
  }

  /** `Unit.ToType` always gives a unit expression. */
  lemma ToTypeIsUnit(u: Unit)
    ensures IsUnitExpression(ToType(u))
  {
    var vs := Sorted(u.variables.Keys);
    var cs := Sorted(u.constants.Keys);
    if vs != [] { ProductIsUnit(vs, u.variables, true); }
    if cs != [] { ProductIsUnit(cs, u.constants, false); }
  }

  /** Substituting a unit expression into a unit expression succeeds and
      gives a unit expression. */
  lemma {:induction false} SubstituteUnitExpression(t: Type, name: string, subWith: Type)
    requires IsUnitExpression(t) && IsUnitExpression(subWith)
    ensures Substitute(t, name, subWith).Ok?
    ensures IsUnitExpression(Substitute(t, name, subWith).value)
  {
    match t
    case UnitMultiply(l, r) =>
      SubstituteUnitExpression(l, name, subWith);
      SubstituteUnitExpression(r, name, subWith);
    case UnitPower(b, _) =>
      SubstituteUnitExpression(b, name, subWith);
    case _ =>
  }

  /** Substituting a unit expression (a variable, say) never fails on a type
      whose floats all carry unit expressions, and keeps that so. */
  lemma {:induction false} SubstituteUnitsWellFormed(t: Type, name: string, subWith: Type)
    requires UnitsWellFormed(t) && IsUnitExpression(subWith)
    ensures Substitute(t, name, subWith).Ok?
    ensures UnitsWellFormed(Substitute(t, name, subWith).value)
  {
    match t
    case ArrowType(i, o) =>
      SubstituteUnitsWellFormed(i, name, subWith);
      SubstituteUnitsWellFormed(o, name, subWith);
    case FloatType(u) =>
      SubstituteUnitExpression(u, name, subWith);
      var u' := Substitute(u, name, subWith).value;
      ToUnitSpec(u');
      ToTypeIsUnit(ToUnit(u').value);
    case UnitMultiply(l, r) =>
      SubstituteUnitsWellFormed(l, name, subWith);
      SubstituteUnitsWellFormed(r, name, subWith);
    case UnitPower(b, _) =>
      SubstituteUnitsWellFormed(b, name, subWith);
    case TypeVariable(_) =>
      UnitExpressionWellFormed(subWith);
    case _ =>
  }

  // ---------------------------------------------------------------------
  // Type schemes.

  datatype TypeScheme = TypeScheme(body: Type, quantified: seq<(string, Kind)>)

  /** `TypeScheme.FreeVariables`: the body's free variables that are not
      quantified. */
  function SchemeFreeVariables(s: TypeScheme): (r: set<string>)
    ensures r <= FreeVariables(s.body)
    ensures forall i :: 0 <= i < |s.quantified| ==> s.quantified[i].0 !in r
    ensures forall x :: x in FreeVariables(s.body) && (forall i :: 0 <= i < |s.quantified| ==> s.quantified[i].0 != x) ==> x in r
  {
    FreeVariables(s.body) - set i | 0 <= i < |s.quantified| :: s.quantified[i].0
  }
}
