/** Worked runs of the units-of-measure driver over the initial context of
    the float tests in Inference.Units.Test/InferenceTests.cs: the bindings
    `zero`, `one`, `mass`, `time`, `mul`, `plus`, `div` and `pair`. */
module UnitExamples {
  import opened Results
  import opened Fresh
  import opened StringOrder
  import U = UnitAlgebra
  import opened UnitTypes
  import opened UnitContext
  import opened UnitConstraints
  import opened UnitInference

  function F(u: Type): Type
  {
    FloatType(u)
  }

  function V(n: string): Type
  {
    UnitPower(TypeVariable(n), 1)
  }

  const A: Type := V("a")
  const B: Type := V("b")
  const Kg: Type := UnitPower(PrimitiveUnit("kg"), 1)
  const Sec: Type := UnitPower(PrimitiveUnit("sec"), 1)

  const Zero: Entry := TermVariableBinding("zero", TypeScheme(F(V("x")), [("x", UnitKind)]))
  const One: Entry := TermVariableBinding("one", TypeScheme(F(UnitIdentity), []))
  const Mass: Entry := TermVariableBinding("mass", TypeScheme(F(Kg), []))
  const Time: Entry := TermVariableBinding("time", TypeScheme(F(Sec), []))
  const Mul: Entry := TermVariableBinding("mul", TypeScheme(
    ArrowType(F(A), ArrowType(F(B), F(UnitMultiply(A, B)))), [("a", UnitKind), ("b", UnitKind)]))
  const Plus: Entry := TermVariableBinding("plus", TypeScheme(
    ArrowType(F(A), ArrowType(F(A), F(A))), [("a", UnitKind)]))
  const Div: Entry := TermVariableBinding("div", TypeScheme(
    ArrowType(F(UnitMultiply(A, B)), ArrowType(F(A), F(B))), [("a", UnitKind), ("b", UnitKind)]))
  const Pair: Entry := TermVariableBinding("pair", TypeScheme(
    ArrowType(F(A), ArrowType(F(B), ArrowType(F(A), F(B)))), [("a", UnitKind), ("b", UnitKind)]))

  const Bindings: seq<Entry> := [Zero, One, Mass, Time, Mul, Plus, Div, Pair]
  const Initial: InferenceState := InferenceState(Empty, Bindings)

  /** A one-name set lists as that name. */
  lemma SortedSingleton(k: string)
    ensures Sorted({k}) == [k]
  {
    assert {k} - {Least({k})} == {};
  }

  /** `zero` is specialised to `Float<t0>`, with the unit intro of `t0`. */
  lemma ZeroSpecialized(fuel: nat)
    ensures InferTerm(Initial, TermVariable("zero"), fuel)
      == Ok((InferenceState(Stream(map["t" := 1]), Bindings + [TypeVariableIntro("t0", UnitKind)]), F(V("t0"))))
  {
    assert "t" + "0" == "t0";
    assert map[]["t" := 1] == map["t" := 1];
    assert LastBinding(Bindings, "zero") == Some(0) by {
      assert IsBindingOf(Bindings[0], "zero");
      assert forall j :: 0 < j < |Bindings| ==> !IsBindingOf(Bindings[j], "zero");
    }
    var s1 := InferenceState(Stream(map["t" := 1]), Bindings);
    assert FreshName(Initial) == (s1, "t0");
    var u := U.Sole("t0");
    assert ToUnit(V("t0")) == Ok(u) by {
      assert U.Scale(u, 1).variables == u.variables;
    }
    SortedSingleton("t0");
    assert ToType(u) == V("t0");
    assert Substitute(F(V("x")), "x", TypeVariable("t0")) == Ok(F(V("t0")));
    var none: seq<(string, Kind)> := [];
    assert [("x", UnitKind)][..0] == none;
    assert Specialization(Initial, F(V("x")), none) == Ok((Initial, F(V("x"))));
    assert Specialization(Initial, F(V("x")), [("x", UnitKind)])
      == Ok((Push(s1, TypeVariableIntro("t0", UnitKind)), F(V("t0"))));
    assert Initial.context[0].scheme == TypeScheme(F(V("x")), [("x", UnitKind)]);
  }

  /** `zero` is inferred as `Float<t0>`: nothing is defined, so the
      normalised context leaves the type as it is. */
  lemma ZeroExample(fuel: nat)
    ensures Infer(Initial, TermVariable("zero"), fuel) == Ok(F(V("t0")))
  {
    ZeroSpecialized(fuel);
    var ctx := Bindings + [TypeVariableIntro("t0", UnitKind)];
    NormalizeWithoutDefinitions(ctx);
    ApplyWithoutDefinitions(ctx, F(V("t0")));
  }

  // ---------------------------------------------------------------------
  // `mul mass mass`.

  /** Two names list in their order. */
  lemma SortedPair(x: string, y: string)
    requires Below(x, y) && x != y
    ensures Sorted({x, y}) == [x, y]
  {
    BelowReflexive(x);
    assert IsLeast(x, {x, y});
    LeastUnique({x, y});
    assert {x, y} - {x} == {y};
    SortedSingleton(y);
  }

  const M01: Type := UnitMultiply(V("t0"), V("t1"))
  const MulT: Type := ArrowType(F(V("t0")), ArrowType(F(V("t1")), F(M01)))
  const IU0: Entry := TypeVariableIntro("t0", UnitKind)
  const IU1: Entry := TypeVariableIntro("t1", UnitKind)

  /** A single variable converts to its unit and back. */
  lemma SoleRoundTrip(n: string)
    ensures ToUnit(V(n)) == Ok(U.Sole(n))
    ensures ToType(U.Sole(n)) == V(n)
  {
    assert U.Scale(U.Sole(n), 1).variables == U.Sole(n).variables;
    SortedSingleton(n);
    assert U.Sole(n).variables.Keys == {n};
    assert Sorted(U.Sole(n).constants.Keys) == [];
  }

  /** A quotient of units is the normal unit with the differences of
      their exponents. */
  lemma SubtractIs(a: U.Unit, b: U.Unit, e: U.Unit)
    requires U.Normal(e)
    requires forall k :: U.Get(e.variables, k) == U.Get(a.variables, k) - U.Get(b.variables, k)
    requires forall k :: U.Get(e.constants, k) == U.Get(a.constants, k) - U.Get(b.constants, k)
    ensures U.Subtract(a, b) == e
  {
    U.NormalExtensional(U.Subtract(a, b), e);
  }

  /** `kg` converts to its unit and back. */
  lemma KgRoundTrip()
    ensures ToUnit(Kg) == Ok(U.Unit(map[], map["kg" := 1]))
    ensures ToType(U.Unit(map[], map["kg" := 1])) == Kg
  {
    var u := U.Unit(map[], map["kg" := 1]);
    assert U.Scale(u, 1).constants == u.constants;
    SortedSingleton("kg");
  }

  /** The unit with two variables, each of exponent 1. */
  function PairUnit(x: string, y: string): U.Unit
  {
    U.Unit(map[x := 1, y := 1], map[])
  }

  /** A product of two variables converts to their unit, in either order,
      and the unit converts back with the factors in name order. */
  lemma PairRoundTrip(x: string, y: string)
    requires Below(x, y) && x != y
    ensures ToUnit(UnitMultiply(V(x), V(y))) == Ok(PairUnit(x, y))
    ensures ToUnit(UnitMultiply(V(y), V(x))) == Ok(PairUnit(x, y))
    ensures ToType(PairUnit(x, y)) == UnitMultiply(V(x), V(y))
  {
    SoleRoundTrip(x);
    SoleRoundTrip(y);
    assert U.Add(U.Sole(x), U.Sole(y)) == PairUnit(x, y) by {
      assert U.Add(U.Sole(x), U.Sole(y)).variables == PairUnit(x, y).variables;
    }
    assert U.Add(U.Sole(y), U.Sole(x)) == PairUnit(x, y) by {
      assert U.Add(U.Sole(y), U.Sole(x)).variables == PairUnit(x, y).variables;
    }
    SortedPair(x, y);
    assert PairUnit(x, y).variables.Keys == {x, y};
    assert Sorted(PairUnit(x, y).constants.Keys) == [];
    var m := PairUnit(x, y).variables;
    assert U.Get(m, x) == 1 && U.Get(m, y) == 1;
    assert [x, y][..1] == [x];
    assert Product([x], m, true) == V(x);
    assert Product([x, y], m, true) == UnitMultiply(V(x), V(y));
  }

  /** The scheme of `mul` after its first variable is renamed to `t0`; the
      product is renormalised, so its factors come in name order. */
  lemma MulFirstRenamed()
    ensures Substitute(Mul.scheme.body, "a", TypeVariable("t0"))
      == Ok(ArrowType(F(V("t0")), ArrowType(F(B), F(UnitMultiply(B, V("t0"))))))
  {
    SoleRoundTrip("t0");
    FloatSubstitute(A, "a", TypeVariable("t0"), V("t0"), U.Sole("t0"));
    SoleRoundTrip("b");
    FloatSubstitute(B, "a", TypeVariable("t0"), B, U.Sole("b"));
    MulFirstProduct();
  }

  /** A float type is substituted inside and renormalised. */
  lemma FloatSubstitute(u: Type, name: string, subWith: Type, u': Type, unit: U.Unit)
    requires Substitute(u, name, subWith) == Ok(u')
    requires ToUnit(u') == Ok(unit)
    ensures Substitute(F(u), name, subWith) == Ok(F(ToType(unit)))
  {
  }

  /** `a b` with `t0` for `a` renormalises to `b t0`. */
  lemma MulFirstProduct()
    ensures Substitute(F(UnitMultiply(A, B)), "a", TypeVariable("t0")) == Ok(F(UnitMultiply(B, V("t0"))))
  {
    PairRoundTrip("b", "t0");
    FloatSubstitute(UnitMultiply(A, B), "a", TypeVariable("t0"), UnitMultiply(V("t0"), B), PairUnit("b", "t0"));
  }

  /** Renaming the second variable of `mul` to `t1` gives its
      specialised type. */
  lemma MulSecondRenamed()
    ensures Substitute(ArrowType(F(V("t0")), ArrowType(F(B), F(UnitMultiply(B, V("t0"))))), "b", TypeVariable("t1"))
      == Ok(MulT)
  {
    SoleRoundTrip("t0");
    SoleRoundTrip("t1");
    PairRoundTrip("t0", "t1");
  }

  /** Specialising one more quantified variable. */
  lemma SpecializeSnoc(s: InferenceState, body: Type, q: seq<(string, Kind)>, last: (string, Kind),
                       state: InferenceState, mid: Type, name: string, renamed: Type)
    requires Specialization(s, body, q) == Ok((state, mid))
    requires Substitute(mid, last.0, TypeVariable(name)) == Ok(renamed)
    requires FreshName(state).1 == name
    ensures Specialization(s, body, q + [last]) == Ok((Push(FreshName(state).0, TypeVariableIntro(name, last.1)), renamed))
  {
    assert (q + [last])[..|q|] == q;
  }

  /** The first "t" names. */
  lemma FirstDraws()
    ensures Next(Empty, "t") == (Stream(map["t" := 1]), "t0")
    ensures Next(Stream(map["t" := 1]), "t") == (Stream(map["t" := 2]), "t1")
  {
    assert map[]["t" := 1] == map["t" := 1];
    assert "t" + "0" == "t0";
    Draw(1);
    assert "t" + [Digit(1)] == "t1";
  }

  /** `mul` is specialised to `Float<t0> -> Float<t1> -> Float<t0 t1>`,
      with unit intros for `t0` and `t1`. */
  lemma MulSpecialized(fuel: nat)
    ensures InferTerm(Initial, TermVariable("mul"), fuel)
      == Ok((InferenceState(Stream(map["t" := 2]), Bindings + [IU0, IU1]), MulT))
  {
    assert LastBinding(Bindings, "mul") == Some(4) by {
      assert IsBindingOf(Bindings[4], "mul");
      assert forall j :: 4 < j < |Bindings| ==> !IsBindingOf(Bindings[j], "mul");
    }
    var body := Mul.scheme.body;
    var none: seq<(string, Kind)> := [];
    var mid := ArrowType(F(V("t0")), ArrowType(F(B), F(UnitMultiply(B, V("t0")))));
    var s1 := InferenceState(Stream(map["t" := 1]), Bindings + [IU0]);
    FirstDraws();
    assert Specialization(Initial, body, [("a", UnitKind)]) == Ok((s1, mid)) by {
      assert Specialization(Initial, body, none) == Ok((Initial, body));
      MulFirstRenamed();
      SpecializeSnoc(Initial, body, none, ("a", UnitKind), Initial, body, "t0", mid);
      assert none + [("a", UnitKind)] == [("a", UnitKind)];
    }
    assert Specialization(Initial, body, Mul.scheme.quantified)
      == Ok((InferenceState(Stream(map["t" := 2]), Bindings + [IU0, IU1]), MulT)) by {
      MulSecondRenamed();
      SpecializeSnoc(Initial, body, [("a", UnitKind)], ("b", UnitKind), s1, mid, "t1", MulT);
      assert [("a", UnitKind)] + [("b", UnitKind)] == Mul.scheme.quantified;
      assert s1.context + [IU1] == Bindings + [IU0, IU1];
    }
  }

  /** Drawing a "t" name from a stream that has drawn `n` of them. */
  lemma Draw(n: nat)
    requires n < 9
    ensures Next(Stream(map["t" := n]), "t") == (Stream(map["t" := n + 1]), "t" + [Digit(n)])
  {
    assert map["t" := n]["t" := n + 1] == map["t" := n + 1];
  }


  // ---------------------------------------------------------------------
  // Passes of the constraint loop.

  /** The context after the bindings. */
  function In(stream: Stream, entries: seq<Entry>): InferenceState
  {
    InferenceState(stream, Bindings + entries)
  }

  predicate ConstraintFree(ctx: seq<Entry>)
  {
    forall i :: 0 <= i < |ctx| ==> !IsConstraint(ctx[i])
  }

  /** The first constraint of a context is the first entry that is one. */
  lemma {:induction false} LeadingAt(prefix: seq<Entry>, c: Entry, suffix: seq<Entry>)
    requires ConstraintFree(prefix) && IsConstraint(c)
    ensures LeadingLength(prefix + [c] + suffix) == |prefix|
  {
    if prefix != [] {
      assert (prefix + [c] + suffix)[1..] == prefix[1..] + [c] + suffix;
      LeadingAt(prefix[1..], c, suffix);
    }
  }

  /** A pass of the loop solves the first constraint against the entries
      before it and after it. */
  lemma PassAt(stream: Stream, prefix: seq<Entry>, c: Entry, suffix: seq<Entry>, next: Stream, ctx: seq<Entry>)
    requires ConstraintFree(prefix) && IsConstraint(c)
    requires Solve(c, stream, prefix, suffix) == Ok((next, ctx))
    ensures Transition(InferenceState(stream, prefix + [c] + suffix), InferenceState(next, ctx))
  {
    var all := prefix + [c] + suffix;
    LeadingAt(prefix, c, suffix);
    assert all[|prefix|] == c;
    assert all[..|prefix|] == prefix && all[|prefix| + 1..] == suffix;
  }

  /** Two constraint-free contexts make one. */
  lemma FreeJoin(a: seq<Entry>, b: seq<Entry>)
    requires ConstraintFree(a) && ConstraintFree(b)
    ensures ConstraintFree(a + b)
  {
  }

  lemma Assoc(a: seq<Entry>, b: seq<Entry>, c: seq<Entry>, d: seq<Entry>)
    ensures a + (b + c + d) == a + b + c + d
  {
  }

  /** A pass whose constraint `c` follows `base + pre`, neither holding a
      constraint, and whose rule turns it into `mid`. */
  lemma SolveOn(stream: Stream, base: seq<Entry>, pre: seq<Entry>, c: Entry, suffix: seq<Entry>,
                next: Stream, mid: seq<Entry>)
    requires ConstraintFree(base) && ConstraintFree(pre) && IsConstraint(c)
    requires Solve(c, stream, base + pre, suffix) == Ok((next, base + pre + mid + suffix))
    ensures Transition(InferenceState(stream, base + (pre + [c] + suffix)), InferenceState(next, base + (pre + mid + suffix)))
  {
    FreeJoin(base, pre);
    PassAt(stream, base + pre, c, suffix, next, base + pre + mid + suffix);
    Assoc(base, pre, [c], suffix);
    Assoc(base, pre, mid, suffix);
  }

  lemma AssocTop(base: seq<Entry>, pre: seq<Entry>, top: Entry, c: Entry, suffix: seq<Entry>)
    ensures base + (pre + [top, c] + suffix) == base + pre + [top] + [c] + suffix
  {
  }

  /** A unit equation solved against the entry `top` just before it. */
  lemma UnitSolve(stream: Stream, prefix: seq<Entry>, top: Entry, c: Entry, suffix: seq<Entry>,
                  next: Stream, mid: seq<Entry>)
    requires c.UnitConstraint? && !U.IsIdentity(c.equation) && !U.IsConstant(c.equation)
    requires UnitRule(c, stream, top) == Ok((next, mid))
    ensures Solve(c, stream, prefix + [top], suffix) == Ok((next, prefix + mid + suffix))
  {
    assert (prefix + [top])[..|prefix + [top]| - 1] == prefix;
  }

  /** A hull constraint solved against the entry `top` just before it. */
  lemma HullSolve(stream: Stream, prefix: seq<Entry>, top: Entry, c: Entry, suffix: seq<Entry>, mid: seq<Entry>)
    requires c.FlexRigidHullConstraint? && HullRule(c, top) == Ok(mid)
    ensures Solve(c, stream, prefix + [top], suffix) == Ok((stream, prefix + mid + suffix))
  {
    assert (prefix + [top])[..|prefix + [top]| - 1] == prefix;
  }

  /** A pass that solves a unit equation against the entry `top` just
      before it. */
  lemma UnitOn(stream: Stream, base: seq<Entry>, pre: seq<Entry>, top: Entry, c: Entry, suffix: seq<Entry>,
               next: Stream, mid: seq<Entry>)
    requires ConstraintFree(base) && ConstraintFree(pre) && !IsConstraint(top)
    requires c.UnitConstraint? && !U.IsIdentity(c.equation) && !U.IsConstant(c.equation)
    requires UnitRule(c, stream, top) == Ok((next, mid))
    ensures Transition(InferenceState(stream, base + (pre + [top, c] + suffix)), InferenceState(next, base + (pre + mid + suffix)))
  {
    FreeJoin(base, pre);
    FreeJoin(base + pre, [top]);
    UnitSolve(stream, base + pre, top, c, suffix, next, mid);
    PassAt(stream, base + pre + [top], c, suffix, next, base + pre + mid + suffix);
    AssocTop(base, pre, top, c, suffix);
    Assoc(base, pre, mid, suffix);
  }

  /** A pass that solves a hull constraint against the entry `top` just
      before it. */
  lemma HullOn(stream: Stream, base: seq<Entry>, pre: seq<Entry>, top: Entry, c: Entry, suffix: seq<Entry>, mid: seq<Entry>)
    requires ConstraintFree(base) && ConstraintFree(pre) && !IsConstraint(top)
    requires c.FlexRigidHullConstraint? && HullRule(c, top) == Ok(mid)
    ensures Transition(InferenceState(stream, base + (pre + [top, c] + suffix)), InferenceState(stream, base + (pre + mid + suffix)))
  {
    FreeJoin(base, pre);
    FreeJoin(base + pre, [top]);
    HullSolve(stream, base + pre, top, c, suffix, mid);
    PassAt(stream, base + pre + [top], c, suffix, stream, base + pre + mid + suffix);
    AssocTop(base, pre, top, c, suffix);
    Assoc(base, pre, mid, suffix);
  }

  /** A pass of the loop takes one unit of fuel. */
  lemma Chain(a: InferenceState, b: InferenceState, fuel: nat)
    requires Transition(a, b) && fuel > 0
    ensures Unified(a, fuel) == Unified(b, fuel - 1)
  {
    UnifiedStep(a, fuel);
  }

  /** The bindings hold no constraint. */
  lemma BindingsFree()
    ensures ConstraintFree(Bindings)
  {
    assert forall i :: 0 <= i < |Bindings| ==> !IsConstraint(Bindings[i]);
  }

  /** A loop that stops: no constraint is left. */
  lemma Stopped(s: InferenceState, base: seq<Entry>, rest: seq<Entry>, fuel: nat)
    requires ConstraintFree(base) && ConstraintFree(rest) && s.context == base + rest
    ensures Unified(s, fuel) == Ok(s)
  {
    FreeJoin(base, rest);
  }

  /** A decomposition, given its hull and its unit equations. */
  lemma DecomposeIs(c: Entry, flex: string, rigid: Type, stream: Stream, prefix: seq<Entry>, suffix: seq<Entry>,
                    next: Stream, hull: Type, cs: seq<(string, Type)>, units: seq<Entry>, deps: seq<Entry>)
    requires c.TypeConstraint?
    requires MakeHull(rigid, stream) == Ok((next, hull, cs))
    requires HullConstraints(cs) == Ok(units)
    requires c.dependencies + HullIntros(cs) == deps
    ensures Decompose(c, flex, rigid, stream, prefix, suffix)
      == Ok((next, prefix + ([FlexRigidHullConstraint(deps, flex, hull)] + units) + suffix))
  {
    assert prefix + [FlexRigidHullConstraint(deps, flex, hull)] + units
      == prefix + ([FlexRigidHullConstraint(deps, flex, hull)] + units);
  }

  // ---------------------------------------------------------------------
  // The first loop: `mul mass` against `Float<kg> -> t2`.

  const IV2: Entry := TypeVariableIntro("t2", ValueKind)
  const IV3: Entry := TypeVariableIntro("t3", ValueKind)
  const IH0: Entry := TypeVariableIntro("h0", UnitKind)
  const IH1: Entry := TypeVariableIntro("h1", UnitKind)
  const IH2: Entry := TypeVariableIntro("h2", UnitKind)
  const IH3: Entry := TypeVariableIntro("h3", UnitKind)

  /** The hull of `Float<t1> -> Float<t0 t1>`. */
  const H01: Type := ArrowType(F(TypeVariable("h0")), F(TypeVariable("h1")))

  const KgUnit: U.Unit := U.Unit(map[], map["kg" := 1])

  /** The unit equations of the run, each read as `equation = 1`. */
  const E1: U.Unit := U.Unit(map["t0" := 1], map["kg" := -1])
  const Ea: U.Unit := U.Unit(map["h0" := 1, "t1" := -1], map[])
  const Eb: U.Unit := U.Unit(map["h1" := 1, "t0" := -1, "t1" := -1], map[])

  const TC0: Entry := TypeConstraint([], MulT, ArrowType(F(Kg), TypeVariable("t2")))
  const TCa: Entry := TypeConstraint([], F(V("t0")), F(Kg))
  const TCb: Entry := TypeConstraint([], ArrowType(F(V("t1")), F(M01)), TypeVariable("t2"))
  const UC1: Entry := UnitConstraint(None, E1)
  const UCa: Entry := UnitConstraint(None, Ea)
  const UCb: Entry := UnitConstraint(None, Eb)
  const FH: Entry := FlexRigidHullConstraint([IH0, IH1], "t2", H01)

  const D0: Entry := TypeVariableDefinition("t0", Kg, UnitKind)
  const D2: Entry := TypeVariableDefinition("t2", H01, ValueKind)
  const DH0: Entry := TypeVariableDefinition("h0", V("t1"), UnitKind)
  const DH1: Entry := TypeVariableDefinition("h1", M01, UnitKind)

  const ST3: Stream := Stream(map["t" := 3])
  const ST3H2: Stream := Stream(map["t" := 3, "h" := 2])

  const L0: seq<Entry> := [IU0, IU1, IV2, TC0]
  const L1: seq<Entry> := [IU0, IU1, IV2, TCa, TCb]
  const L2: seq<Entry> := [IU0, IU1, IV2, UC1, TCb]
  const L3: seq<Entry> := [IU0, IU1, UC1, IV2, TCb]
  const L4: seq<Entry> := [IU0, UC1, IU1, IV2, TCb]
  const L5: seq<Entry> := [D0, IU1, IV2, TCb]
  const L6: seq<Entry> := [D0, IU1, IV2, FH, UCa, UCb]
  const L7: seq<Entry> := [D0, IU1, IH0, IH1, D2, UCa, UCb]
  const L8: seq<Entry> := [D0, IU1, IH0, IH1, UCa, D2, UCb]
  const L9: seq<Entry> := [D0, IU1, IH0, UCa, IH1, D2, UCb]
  const L10: seq<Entry> := [D0, IU1, DH0, IH1, D2, UCb]
  const L11: seq<Entry> := [D0, IU1, DH0, IH1, UCb, D2]
  const L12: seq<Entry> := [D0, IU1, DH0, DH1, D2]

  /** `Float<t0> ≡ Float<kg>` asks `t0 / kg = 1`. */
  lemma EquationE1()
    ensures UnitOf(V("t0"), Kg) == Ok(UC1)
  {
    SoleRoundTrip("t0");
    KgRoundTrip();
    var e := U.Subtract(U.Sole("t0"), KgUnit);
    assert e.variables == E1.variables;
    assert e.constants == E1.constants;
  }

  /** `t0 / kg` is neither trivial nor constant. */
  lemma E1Open()
    ensures !U.IsIdentity(E1) && !U.IsConstant(E1)
  {
    assert "t0" in E1.variables;
  }

  lemma EaOpen()
    ensures !U.IsIdentity(Ea) && !U.IsConstant(Ea)
  {
    assert "h0" in Ea.variables;
  }

  lemma EbOpen()
    ensures !U.IsIdentity(Eb) && !U.IsConstant(Eb)
  {
    assert "h1" in Eb.variables;
  }

  /** A pivot with exponent 1 or -1 is the normal unit with the exponents
      the equation leaves for it. */
  lemma PivotIs(u: U.Unit, v: string, p: U.Unit)
    requires U.ExponentOf(u, v) == 1 || U.ExponentOf(u, v) == -1
    requires U.Normal(p)
    requires forall k :: U.Get(p.variables, k) == (if k == v then 0 else -U.Get(u.variables, k)) * U.ExponentOf(u, v)
    requires forall k :: U.Get(p.constants, k) == -U.Get(u.constants, k) * U.ExponentOf(u, v)
    ensures U.DividesPowers(u, U.ExponentOf(u, v))
    ensures U.Pivot(u, v) == p
  {
    var e := U.ExponentOf(u, v);
    assert U.DividesPowers(u, e);
    U.PivotSolves(u, v);
    U.PivotNormal(u, v);
    U.NormalExtensional(U.Pivot(u, v), p);
  }

  /** The arrows of pass 1 are split. */
  lemma SolveL1(prefix: seq<Entry>)
    ensures Solve(TC0, ST3, prefix, []) == Ok((ST3, prefix + [TCa, TCb] + []))
  {
  }

  /** The floats of pass 2 give `t0 / kg = 1`. */
  lemma SolveL2(prefix: seq<Entry>)
    ensures Solve(TCa, ST3, prefix, [TCb]) == Ok((ST3, prefix + [UC1] + [TCb]))
  {
    EquationE1();
  }

  lemma RuleL3()
    ensures UnitRule(UC1, ST3, IV2) == Ok((ST3, [UC1, IV2]))
  {
    assert U.ExponentOf(E1, "t2") == 0;
  }

  lemma RuleL4()
    ensures UnitRule(UC1, ST3, IU1) == Ok((ST3, [UC1, IU1]))
  {
    assert U.ExponentOf(E1, "t1") == 0;
  }

  lemma PivotE1()
    ensures U.ExponentOf(E1, "t0") == 1
    ensures U.DividesPowers(E1, 1) && U.Pivot(E1, "t0") == KgUnit
  {
    assert U.ExponentOf(E1, "t0") == 1;
    PivotIs(E1, "t0", KgUnit);
  }

  /** Solving `t0 / kg = 1` for `t0` gives `kg`. */
  lemma RuleL5()
    ensures UnitRule(UC1, ST3, IU0) == Ok((ST3, [D0]))
  {
    PivotE1();
    KgRoundTrip();
    assert DependencyIntro(None) + [D0] == [D0];
  }

  /** The first two "h" names drawn after three "t" names. */
  lemma HullDraws()
    ensures Next(ST3, "h") == (Stream(map["t" := 3, "h" := 1]), "h0")
    ensures Next(Stream(map["t" := 3, "h" := 1]), "h") == (ST3H2, "h1")
  {
    assert "h" + "0" == "h0";
    assert "h" + NatToString(1) == "h1";
    assert map["t" := 3]["h" := 1] == map["t" := 3, "h" := 1];
    assert map["t" := 3, "h" := 1]["h" := 2] == map["t" := 3, "h" := 2];
  }

  /** The hull of `Float<t1> -> Float<t0 t1>` replaces its units by `h0`
      and `h1`. */
  lemma HullL6()
    ensures MakeHull(ArrowType(F(V("t1")), F(M01)), ST3) == Ok((ST3H2, H01, [("h0", V("t1")), ("h1", M01)]))
  {
    HullDraws();
    assert MakeHull(F(V("t1")), ST3) == Ok((Stream(map["t" := 3, "h" := 1]), F(TypeVariable("h0")), [("h0", V("t1"))]));
    assert MakeHull(F(M01), Stream(map["t" := 3, "h" := 1])) == Ok((ST3H2, F(TypeVariable("h1")), [("h1", M01)]));
    assert [("h0", V("t1"))] + [("h1", M01)] == [("h0", V("t1")), ("h1", M01)];
  }

  /** `h0 / t1 = 1`. */
  lemma EquationEa()
    ensures UnitOf(TypeVariable("h0"), V("t1")) == Ok(UCa)
  {
    SoleRoundTrip("t1");
    assert U.Subtract(U.Sole("h0"), U.Sole("t1")) == Ea by {
      SubtractIs(U.Sole("h0"), U.Sole("t1"), Ea);
    }
  }

  /** `h1 / (t0 t1) = 1`. */
  lemma EquationEb()
    ensures UnitOf(TypeVariable("h1"), M01) == Ok(UCb)
  {
    PairForth();
    SubtractEb();
  }

  lemma PairForth()
    ensures ToUnit(M01) == Ok(PairUnit("t0", "t1"))
  {
    PairRoundTrip("t0", "t1");
  }

  lemma SubtractEb()
    ensures U.Subtract(U.Sole("h1"), PairUnit("t0", "t1")) == Eb
  {
    SubtractIs(U.Sole("h1"), PairUnit("t0", "t1"), Eb);
  }

  /** The unit equations of one or two hull names. */
  lemma HullConstraintsPair(x: (string, Type), y: (string, Type), ex: Entry, ey: Entry)
    requires UnitOf(TypeVariable(x.0), x.1) == Ok(ex)
    requires UnitOf(TypeVariable(y.0), y.1) == Ok(ey)
    ensures HullConstraints([x]) == Ok([ex])
    ensures HullConstraints([x, y]) == Ok([ex, ey])
  {
    var none: seq<Entry> := [];
    assert [x][..0] == [];
    assert HullConstraints([x]) == Ok(none + [ex]);
    assert none + [ex] == [ex];
    assert [x, y][..1] == [x];
    assert [ex] + [ey] == [ex, ey];
  }

  lemma UnitsL6()
    ensures HullConstraints([("h0", V("t1")), ("h1", M01)]) == Ok([UCa, UCb])
  {
    EquationEa();
    EquationEb();
    HullConstraintsPair(("h0", V("t1")), ("h1", M01), UCa, UCb);
  }

  lemma PartsL6()
    ensures MakeHull(TCb.left, ST3) == Ok((ST3H2, H01, [("h0", V("t1")), ("h1", M01)]))
    ensures HullConstraints([("h0", V("t1")), ("h1", M01)]) == Ok([UCa, UCb])
    ensures TCb.dependencies + HullIntros([("h0", V("t1")), ("h1", M01)]) == [IH0, IH1]
  {
    assert TCb.left == ArrowType(F(V("t1")), F(M01));
    HullL6();
    UnitsL6();
    assert HullIntros([("h0", V("t1")), ("h1", M01)]) == [IH0, IH1];
  }

  /** `t2` against the arrow of pass 6 is decomposed into its hull and
      one unit equation per float. */
  lemma SolveL6(prefix: seq<Entry>)
    ensures Solve(TCb, ST3, prefix, []) == Ok((ST3H2, prefix + [FH, UCa, UCb] + []))
  {
    var cs := [("h0", V("t1")), ("h1", M01)];
    PartsL6();
    DecomposeIs(TCb, "t2", TCb.left, ST3, prefix, [], ST3H2, H01, cs, [UCa, UCb], [IH0, IH1]);
    assert [FH] + [UCa, UCb] == [FH, UCa, UCb];
    assert Solve(TCb, ST3, prefix, []) == Decompose(TCb, "t2", TCb.left, ST3, prefix, []);
  }

  lemma HullRuleL7()
    ensures HullRule(FH, IV2) == Ok([IH0, IH1, D2])
  {
    assert "t2" !in FreeVariables(H01);
    assert FH.dependencies + [D2] == [IH0, IH1, D2];
  }

  lemma RuleL8()
    ensures UnitRule(UCa, ST3H2, D2) == Ok((ST3H2, [UCa, D2]))
  {
    assert U.ExponentOf(Ea, "t2") == 0;
  }

  lemma RuleL9()
    ensures UnitRule(UCa, ST3H2, IH1) == Ok((ST3H2, [UCa, IH1]))
  {
    assert U.ExponentOf(Ea, "h1") == 0;
  }

  lemma PivotEa()
    ensures U.ExponentOf(Ea, "h0") == 1
    ensures U.DividesPowers(Ea, 1) && U.Pivot(Ea, "h0") == U.Sole("t1")
  {
    assert U.ExponentOf(Ea, "h0") == 1;
    PivotIs(Ea, "h0", U.Sole("t1"));
  }

  /** Solving `h0 / t1 = 1` for `h0` gives `t1`. */
  lemma RuleL10()
    ensures UnitRule(UCa, ST3H2, IH0) == Ok((ST3H2, [DH0]))
  {
    PivotEa();
    SoleRoundTrip("t1");
    assert DependencyIntro(None) + [DH0] == [DH0];
  }

  lemma RuleL11()
    ensures UnitRule(UCb, ST3H2, D2) == Ok((ST3H2, [UCb, D2]))
  {
    assert U.ExponentOf(Eb, "t2") == 0;
  }

  lemma PivotEb()
    ensures U.ExponentOf(Eb, "h1") == 1
    ensures U.DividesPowers(Eb, 1) && U.Pivot(Eb, "h1") == PairUnit("t0", "t1")
  {
    assert U.ExponentOf(Eb, "h1") == 1;
    PivotIs(Eb, "h1", PairUnit("t0", "t1"));
  }

  lemma PairBack()
    ensures ToType(PairUnit("t0", "t1")) == UnitMultiply(V("t0"), V("t1"))
  {
    PairRoundTrip("t0", "t1");
  }

  /** Solving `h1 / (t0 t1) = 1` for `h1` gives `t0 t1`. */
  lemma RuleL12()
    ensures UnitRule(UCb, ST3H2, IH1) == Ok((ST3H2, [DH1]))
  {
    PivotEb();
    PairBack();
    assert DependencyIntro(None) + [DH1] == [DH1];
  }

  lemma ShapeL1()
    ensures L0 == [IU0, IU1, IV2] + [TC0] + []
    ensures L1 == [IU0, IU1, IV2] + [TCa, TCb] + []
    ensures ConstraintFree([IU0, IU1, IV2])
  {
  }

  /** Pass 1: the arrows are split. */
  lemma PassL1(base: seq<Entry>)
    requires ConstraintFree(base)
    ensures Transition(InferenceState(ST3, base + L0), InferenceState(ST3, base + L1))
  {
    var pre: seq<Entry> := [IU0, IU1, IV2];
    ShapeL1();
    SolveL1(base + pre);
    SolveOn(ST3, base, pre, TC0, [], ST3, [TCa, TCb]);
  }

  lemma ShapeL2()
    ensures L1 == [IU0, IU1, IV2] + [TCa] + [TCb]
    ensures L2 == [IU0, IU1, IV2] + [UC1] + [TCb]
    ensures ConstraintFree([IU0, IU1, IV2])
  {
  }

  /** Pass 2: the float types give `t0 / kg = 1`. */
  lemma PassL2(base: seq<Entry>)
    requires ConstraintFree(base)
    ensures Transition(InferenceState(ST3, base + L1), InferenceState(ST3, base + L2))
  {
    var pre: seq<Entry> := [IU0, IU1, IV2];
    ShapeL2();
    SolveL2(base + pre);
    SolveOn(ST3, base, pre, TCa, [TCb], ST3, [UC1]);
  }

  lemma ShapeL3()
    ensures L2 == [IU0, IU1] + [IV2, UC1] + [TCb]
    ensures L3 == [IU0, IU1] + [UC1, IV2] + [TCb]
    ensures ConstraintFree([IU0, IU1])
  {
  }

  /** Pass 3: the equation does not mention `t2`. */
  lemma PassL3(base: seq<Entry>)
    requires ConstraintFree(base)
    ensures Transition(InferenceState(ST3, base + L2), InferenceState(ST3, base + L3))
  {
    var pre: seq<Entry> := [IU0, IU1];
    ShapeL3();
    E1Open();
    RuleL3();
    UnitOn(ST3, base, pre, IV2, UC1, [TCb], ST3, [UC1, IV2]);
  }

  lemma ShapeL4()
    ensures L3 == [IU0] + [IU1, UC1] + [IV2, TCb]
    ensures L4 == [IU0] + [UC1, IU1] + [IV2, TCb]
    ensures ConstraintFree([IU0])
  {
  }

  /** Pass 4: nor `t1`. */
  lemma PassL4(base: seq<Entry>)
    requires ConstraintFree(base)
    ensures Transition(InferenceState(ST3, base + L3), InferenceState(ST3, base + L4))
  {
    var pre: seq<Entry> := [IU0];
    ShapeL4();
    E1Open();
    RuleL4();
    UnitOn(ST3, base, pre, IU1, UC1, [IV2, TCb], ST3, [UC1, IU1]);
  }

  lemma ShapeL5()
    ensures L4 == [] + [IU0, UC1] + [IU1, IV2, TCb]
    ensures L5 == [] + [D0] + [IU1, IV2, TCb]
    ensures ConstraintFree([])
  {
  }

  /** Pass 5: at its intro, `t0` is defined as `kg`. */
  lemma PassL5(base: seq<Entry>)
    requires ConstraintFree(base)
    ensures Transition(InferenceState(ST3, base + L4), InferenceState(ST3, base + L5))
  {
    var pre: seq<Entry> := [];
    ShapeL5();
    E1Open();
    RuleL5();
    UnitOn(ST3, base, pre, IU0, UC1, [IU1, IV2, TCb], ST3, [D0]);
  }

  lemma ShapeL6()
    ensures L5 == [D0, IU1, IV2] + [TCb] + []
    ensures L6 == [D0, IU1, IV2] + [FH, UCa, UCb] + []
    ensures ConstraintFree([D0, IU1, IV2])
  {
  }

  /** Pass 6: `t2` against the arrow is decomposed into its hull and one unit
      equation per float. */
  lemma PassL6(base: seq<Entry>)
    requires ConstraintFree(base)
    ensures Transition(InferenceState(ST3, base + L5), InferenceState(ST3H2, base + L6))
  {
    var pre: seq<Entry> := [D0, IU1, IV2];
    ShapeL6();
    SolveL6(base + pre);
    SolveOn(ST3, base, pre, TCb, [], ST3H2, [FH, UCa, UCb]);
  }

  lemma ShapeL7()
    ensures L6 == [D0, IU1] + [IV2, FH] + [UCa, UCb]
    ensures L7 == [D0, IU1] + [IH0, IH1, D2] + [UCa, UCb]
    ensures ConstraintFree([D0, IU1])
  {
  }

  /** Pass 7: at its own intro, `t2` is defined as the hull, with the intros of
      `h0` and `h1` put before it. */
  lemma PassL7(base: seq<Entry>)
    requires ConstraintFree(base)
    ensures Transition(InferenceState(ST3H2, base + L6), InferenceState(ST3H2, base + L7))
  {
    var pre: seq<Entry> := [D0, IU1];
    ShapeL7();
    HullRuleL7();
    HullOn(ST3H2, base, pre, IV2, FH, [UCa, UCb], [IH0, IH1, D2]);
  }

  lemma ShapeL8()
    ensures L7 == [D0, IU1, IH0, IH1] + [D2, UCa] + [UCb]
    ensures L8 == [D0, IU1, IH0, IH1] + [UCa, D2] + [UCb]
    ensures ConstraintFree([D0, IU1, IH0, IH1])
  {
  }

  /** Pass 8: `h0 / t1` does not mention `t2`. */
  lemma PassL8(base: seq<Entry>)
    requires ConstraintFree(base)
    ensures Transition(InferenceState(ST3H2, base + L7), InferenceState(ST3H2, base + L8))
  {
    var pre: seq<Entry> := [D0, IU1, IH0, IH1];
    ShapeL8();
    EaOpen();
    RuleL8();
    UnitOn(ST3H2, base, pre, D2, UCa, [UCb], ST3H2, [UCa, D2]);
  }

  lemma ShapeL9()
    ensures L8 == [D0, IU1, IH0] + [IH1, UCa] + [D2, UCb]
    ensures L9 == [D0, IU1, IH0] + [UCa, IH1] + [D2, UCb]
    ensures ConstraintFree([D0, IU1, IH0])
  {
  }

  /** Pass 9: nor `h1`. */
  lemma PassL9(base: seq<Entry>)
    requires ConstraintFree(base)
    ensures Transition(InferenceState(ST3H2, base + L8), InferenceState(ST3H2, base + L9))
  {
    var pre: seq<Entry> := [D0, IU1, IH0];
    ShapeL9();
    EaOpen();
    RuleL9();
    UnitOn(ST3H2, base, pre, IH1, UCa, [D2, UCb], ST3H2, [UCa, IH1]);
  }

  lemma ShapeL10()
    ensures L9 == [D0, IU1] + [IH0, UCa] + [IH1, D2, UCb]
    ensures L10 == [D0, IU1] + [DH0] + [IH1, D2, UCb]
    ensures ConstraintFree([D0, IU1])
  {
  }

  /** Pass 10: at its intro, `h0` is defined as `t1`. */
  lemma PassL10(base: seq<Entry>)
    requires ConstraintFree(base)
    ensures Transition(InferenceState(ST3H2, base + L9), InferenceState(ST3H2, base + L10))
  {
    var pre: seq<Entry> := [D0, IU1];
    ShapeL10();
    EaOpen();
    RuleL10();
    UnitOn(ST3H2, base, pre, IH0, UCa, [IH1, D2, UCb], ST3H2, [DH0]);
  }

  lemma ShapeL11()
    ensures L10 == [D0, IU1, DH0, IH1] + [D2, UCb] + []
    ensures L11 == [D0, IU1, DH0, IH1] + [UCb, D2] + []
    ensures ConstraintFree([D0, IU1, DH0, IH1])
  {
  }

  /** Pass 11: `h1 / (t0 t1)` does not mention `t2`. */
  lemma PassL11(base: seq<Entry>)
    requires ConstraintFree(base)
    ensures Transition(InferenceState(ST3H2, base + L10), InferenceState(ST3H2, base + L11))
  {
    var pre: seq<Entry> := [D0, IU1, DH0, IH1];
    ShapeL11();
    EbOpen();
    RuleL11();
    UnitOn(ST3H2, base, pre, D2, UCb, [], ST3H2, [UCb, D2]);
  }

  lemma ShapeL12()
    ensures L11 == [D0, IU1, DH0] + [IH1, UCb] + [D2]
    ensures L12 == [D0, IU1, DH0] + [DH1] + [D2]
    ensures ConstraintFree([D0, IU1, DH0])
  {
  }

  /** Pass 12: at its intro, `h1` is defined as `t0 t1`. */
  lemma PassL12(base: seq<Entry>)
    requires ConstraintFree(base)
    ensures Transition(InferenceState(ST3H2, base + L11), InferenceState(ST3H2, base + L12))
  {
    var pre: seq<Entry> := [D0, IU1, DH0];
    ShapeL12();
    EbOpen();
    RuleL12();
    UnitOn(ST3H2, base, pre, IH1, UCb, [D2], ST3H2, [DH1]);
  }

  lemma FreeL12()
    ensures ConstraintFree(L12)
  {
  }

  /** The first loop runs twelve passes and stops with no constraint
      left: `t0 := kg`, `h0 := t1`, `h1 := t0 t1` and `t2 := Float<h0> ->
      Float<h1>`, with `t1` still open. */
  lemma FirstLoop(base: seq<Entry>, fuel: nat)
    requires ConstraintFree(base) && fuel >= 12
    ensures Unified(InferenceState(ST3, base + L0), fuel) == Ok(InferenceState(ST3H2, base + L12))
  {
    assert Unified(InferenceState(ST3, base + L0), fuel) == Unified(InferenceState(ST3, base + L1), fuel - 1) by {
      PassL1(base);
      Chain(InferenceState(ST3, base + L0), InferenceState(ST3, base + L1), fuel);
    }
    assert Unified(InferenceState(ST3, base + L1), fuel - 1) == Unified(InferenceState(ST3, base + L2), fuel - 2) by {
      PassL2(base);
      Chain(InferenceState(ST3, base + L1), InferenceState(ST3, base + L2), fuel - 1);
    }
    assert Unified(InferenceState(ST3, base + L2), fuel - 2) == Unified(InferenceState(ST3, base + L3), fuel - 3) by {
      PassL3(base);
      Chain(InferenceState(ST3, base + L2), InferenceState(ST3, base + L3), fuel - 2);
    }
    assert Unified(InferenceState(ST3, base + L3), fuel - 3) == Unified(InferenceState(ST3, base + L4), fuel - 4) by {
      PassL4(base);
      Chain(InferenceState(ST3, base + L3), InferenceState(ST3, base + L4), fuel - 3);
    }
    assert Unified(InferenceState(ST3, base + L4), fuel - 4) == Unified(InferenceState(ST3, base + L5), fuel - 5) by {
      PassL5(base);
      Chain(InferenceState(ST3, base + L4), InferenceState(ST3, base + L5), fuel - 4);
    }
    assert Unified(InferenceState(ST3, base + L5), fuel - 5) == Unified(InferenceState(ST3H2, base + L6), fuel - 6) by {
      PassL6(base);
      Chain(InferenceState(ST3, base + L5), InferenceState(ST3H2, base + L6), fuel - 5);
    }
    assert Unified(InferenceState(ST3H2, base + L6), fuel - 6) == Unified(InferenceState(ST3H2, base + L7), fuel - 7) by {
      PassL7(base);
      Chain(InferenceState(ST3H2, base + L6), InferenceState(ST3H2, base + L7), fuel - 6);
    }
    assert Unified(InferenceState(ST3H2, base + L7), fuel - 7) == Unified(InferenceState(ST3H2, base + L8), fuel - 8) by {
      PassL8(base);
      Chain(InferenceState(ST3H2, base + L7), InferenceState(ST3H2, base + L8), fuel - 7);
    }
    assert Unified(InferenceState(ST3H2, base + L8), fuel - 8) == Unified(InferenceState(ST3H2, base + L9), fuel - 9) by {
      PassL9(base);
      Chain(InferenceState(ST3H2, base + L8), InferenceState(ST3H2, base + L9), fuel - 8);
    }
    assert Unified(InferenceState(ST3H2, base + L9), fuel - 9) == Unified(InferenceState(ST3H2, base + L10), fuel - 10) by {
      PassL10(base);
      Chain(InferenceState(ST3H2, base + L9), InferenceState(ST3H2, base + L10), fuel - 9);
    }
    assert Unified(InferenceState(ST3H2, base + L10), fuel - 10) == Unified(InferenceState(ST3H2, base + L11), fuel - 11) by {
      PassL11(base);
      Chain(InferenceState(ST3H2, base + L10), InferenceState(ST3H2, base + L11), fuel - 10);
    }
    assert Unified(InferenceState(ST3H2, base + L11), fuel - 11) == Unified(InferenceState(ST3H2, base + L12), fuel - 12) by {
      PassL12(base);
      Chain(InferenceState(ST3H2, base + L11), InferenceState(ST3H2, base + L12), fuel - 11);
    }
    FreeL12();
    Stopped(InferenceState(ST3H2, base + L12), base, L12, fuel - 12);
  }


  /** `mass` keeps its type `Float<kg>` wherever the bindings come first. */
  lemma MassLookup(s: InferenceState, rest: seq<Entry>, fuel: nat)
    requires s.context == Bindings + rest
    requires forall j :: 0 <= j < |rest| ==> !IsBindingOf(rest[j], "mass")
    ensures InferTerm(s, TermVariable("mass"), fuel) == Ok((s, F(Kg)))
  {
    var ctx := Bindings + rest;
    assert LastBinding(ctx, "mass") == Some(2) by {
      assert IsBindingOf(ctx[2], "mass");
      forall j | 2 < j < |ctx| ensures !IsBindingOf(ctx[j], "mass") {
        if j >= |Bindings| {
          assert ctx[j] == rest[j - |Bindings|];
        }
      }
    }
    var none: seq<(string, Kind)> := [];
    assert ctx[2].scheme == TypeScheme(F(Kg), none);
  }

  /** `mul mass` has the type `t2`, with `t2 := Float<h0> -> Float<h1>` in
      the context the first loop leaves. */
  lemma MulMass(fuel: nat)
    requires fuel >= 12
    ensures InferTerm(Initial, Application(TermVariable("mul"), TermVariable("mass")), fuel)
      == Ok((In(ST3H2, L12), TypeVariable("t2")))
  {
    var s2 := InferenceState(Stream(map["t" := 2]), Bindings + [IU0, IU1]);
    MulSpecialized(fuel);
    MassLookup(s2, [IU0, IU1], fuel);
    Draw(2);
    assert "t" + [Digit(2)] == "t2";
    assert FreshName(s2) == (InferenceState(ST3, s2.context), "t2");
    assert Push(Push(InferenceState(ST3, s2.context), IV2), TC0) == InferenceState(ST3, Bindings + L0) by {
      assert s2.context + [IV2] + [TC0] == Bindings + L0;
    }
    BindingsFree();
    FirstLoop(Bindings, fuel);
  }

  // ---------------------------------------------------------------------
  // The second loop: `t2` against `Float<kg> -> t3`.

  const ST4H2: Stream := Stream(map["t" := 4, "h" := 2])
  const ST4H3: Stream := Stream(map["t" := 4, "h" := 3])
  const ST4H4: Stream := Stream(map["t" := 4, "h" := 4])

  const Ec: U.Unit := U.Unit(map["h2" := 1], map["kg" := -1])
  const Ed: U.Unit := U.Unit(map["h0" := 1, "h2" := -1], map[])
  const Ee: U.Unit := U.Unit(map["h3" := 1, "h1" := -1], map[])
  const Ef: U.Unit := U.Unit(map["h0" := 1], map["kg" := -1])
  const Eg: U.Unit := U.Unit(map["t1" := 1], map["kg" := -1])

  /** The hull of `Float<kg> -> t3`. */
  const R2T: Type := ArrowType(F(TypeVariable("h2")), TypeVariable("t3"))

  const TCc: Entry := TypeConstraint([], TypeVariable("t2"), ArrowType(F(Kg), TypeVariable("t3")))
  const FH2: Entry := FlexRigidHullConstraint([IH2], "t2", R2T)
  const FH2b: Entry := FlexRigidHullConstraint([IV3, IH2], "t2", R2T)
  const TCx: Entry := TypeConstraint([], H01, ArrowType(F(V("h2")), TypeVariable("t3")))
  const TCd: Entry := TypeConstraint([], F(TypeVariable("h0")), F(V("h2")))
  const TCy: Entry := TypeConstraint([], F(TypeVariable("h1")), TypeVariable("t3"))
  const FH3: Entry := FlexRigidHullConstraint([IH3], "t3", F(TypeVariable("h3")))
  const FH3n: Entry := FlexRigidHullConstraint([], "t3", F(TypeVariable("h3")))
  const UCc: Entry := UnitConstraint(None, Ec)
  const UCd: Entry := UnitConstraint(None, Ed)
  const UCe: Entry := UnitConstraint(None, Ee)
  const UCf: Entry := UnitConstraint(None, Ef)
  const UCg: Entry := UnitConstraint(None, Eg)

  const D1: Entry := TypeVariableDefinition("t1", Kg, UnitKind)
  const D3: Entry := TypeVariableDefinition("t3", F(TypeVariable("h3")), ValueKind)
  const DH2: Entry := TypeVariableDefinition("h2", V("h0"), UnitKind)
  const DH3: Entry := TypeVariableDefinition("h3", V("h1"), UnitKind)

  const R0: seq<Entry> := [D0, IU1, DH0, DH1, D2, IV3, TCc]
  const R1: seq<Entry> := [D0, IU1, DH0, DH1, D2, IV3, FH2, UCc]
  const R2: seq<Entry> := [D0, IU1, DH0, DH1, D2, FH2b, UCc]
  const R3: seq<Entry> := [D0, IU1, DH0, DH1, IV3, IH2, TCx, D2, UCc]
  const R4: seq<Entry> := [D0, IU1, DH0, DH1, IV3, IH2, TCd, TCy, D2, UCc]
  const R5: seq<Entry> := [D0, IU1, DH0, DH1, IV3, IH2, UCd, TCy, D2, UCc]
  const R6: seq<Entry> := [D0, IU1, DH0, DH1, IV3, DH2, TCy, D2, UCc]
  const R7: seq<Entry> := [D0, IU1, DH0, DH1, IV3, DH2, FH3, UCe, D2, UCc]
  const R8: seq<Entry> := [D0, IU1, DH0, DH1, IV3, IH3, FH3n, DH2, UCe, D2, UCc]
  const R9: seq<Entry> := [D0, IU1, DH0, DH1, IV3, FH3, DH2, UCe, D2, UCc]
  const R10: seq<Entry> := [D0, IU1, DH0, DH1, IH3, D3, DH2, UCe, D2, UCc]
  const R11: seq<Entry> := [D0, IU1, DH0, DH1, IH3, D3, UCe, DH2, D2, UCc]
  const R12: seq<Entry> := [D0, IU1, DH0, DH1, IH3, UCe, D3, DH2, D2, UCc]
  const R13: seq<Entry> := [D0, IU1, DH0, DH1, DH3, D3, DH2, D2, UCc]
  const R14: seq<Entry> := [D0, IU1, DH0, DH1, DH3, D3, DH2, UCc, D2]
  const R15: seq<Entry> := [D0, IU1, DH0, DH1, DH3, D3, UCf, DH2, D2]
  const R16: seq<Entry> := [D0, IU1, DH0, DH1, DH3, UCf, D3, DH2, D2]
  const R17: seq<Entry> := [D0, IU1, DH0, DH1, UCf, DH3, D3, DH2, D2]
  const R18: seq<Entry> := [D0, IU1, DH0, UCf, DH1, DH3, D3, DH2, D2]
  const R19: seq<Entry> := [D0, IU1, UCg, DH0, DH1, DH3, D3, DH2, D2]
  const R20: seq<Entry> := [D0, D1, DH0, DH1, DH3, D3, DH2, D2]

  /** The third and fourth "h" names. */
  lemma LaterHullDraws()
    ensures Next(ST4H2, "h") == (ST4H3, "h2")
    ensures Next(ST4H3, "h") == (ST4H4, "h3")
  {
    assert "h" + NatToString(2) == "h2";
    assert "h" + NatToString(3) == "h3";
    assert map["t" := 4, "h" := 2]["h" := 3] == map["t" := 4, "h" := 3];
    assert map["t" := 4, "h" := 3]["h" := 4] == map["t" := 4, "h" := 4];
  }

  /** `h2 / kg = 1`. */
  lemma EquationEc()
    ensures UnitOf(TypeVariable("h2"), Kg) == Ok(UCc)
  {
    KgRoundTrip();
    SubtractIs(U.Sole("h2"), KgUnit, Ec);
  }

  lemma PartsR1()
    ensures MakeHull(TCc.right, ST4H2) == Ok((ST4H3, R2T, [("h2", Kg)]))
    ensures HullConstraints([("h2", Kg)]) == Ok([UCc])
    ensures TCc.dependencies + HullIntros([("h2", Kg)]) == [IH2]
  {
    var cs := [("h2", Kg)];
    assert MakeHull(TCc.right, ST4H2) == Ok((ST4H3, R2T, cs)) by {
      LaterHullDraws();
      assert MakeHull(F(Kg), ST4H2) == Ok((ST4H3, F(TypeVariable("h2")), cs));
      assert MakeHull(TypeVariable("t3"), ST4H3) == Ok((ST4H3, TypeVariable("t3"), []));
      assert cs + [] == cs;
    }
    EquationEc();
    HullConstraintsPair(cs[0], cs[0], UCc, UCc);
    assert HullIntros(cs) == [IH2];
  }

  /** `t2` against `Float<kg> -> t3` is decomposed into the hull
      `Float<h2> -> t3` and `h2 / kg = 1`. */
  lemma SolveR1(prefix: seq<Entry>)
    ensures Solve(TCc, ST4H2, prefix, []) == Ok((ST4H3, prefix + [FH2, UCc] + []))
  {
    var cs := [("h2", Kg)];
    PartsR1();
    DecomposeIs(TCc, "t2", TCc.right, ST4H2, prefix, [], ST4H3, R2T, cs, [UCc], [IH2]);
    assert [FH2] + [UCc] == [FH2, UCc];
    assert Solve(TCc, ST4H2, prefix, []) == Decompose(TCc, "t2", TCc.right, ST4H2, prefix, []);
  }

  lemma HullRuleR2()
    ensures HullRule(FH2, IV3) == Ok([FH2b])
  {
    assert "t3" in FreeVariables(R2T);
    assert [IV3] + FH2.dependencies == [IV3, IH2];
  }

  /** The definition of `t2` turns the hull constraint on `t2` into a
      type constraint between the two hulls. */
  lemma HullRuleR3()
    ensures HullRule(FH2b, D2) == Ok([IV3, IH2, TCx, D2])
  {
    assert SubstituteHull(FH2b, "t2", H01) == Ok(TCx) by {
      assert "t2" in FreeVariables(R2T) + {"t2"};
      assert Substitute(TypeVariable("t2"), "t2", H01) == Ok(H01);
      assert Substitute(R2T, "t2", H01) == Ok(ArrowType(F(V("h2")), TypeVariable("t3"))) by {
        SoleRoundTrip("h2");
        assert Substitute(F(TypeVariable("h2")), "t2", H01) == Ok(F(V("h2")));
      }
    }
    assert FH2b.dependencies + [TCx, D2] == [IV3, IH2, TCx, D2];
  }

  lemma SolveR4(prefix: seq<Entry>)
    ensures Solve(TCx, ST4H3, prefix, [D2, UCc]) == Ok((ST4H3, prefix + [TCd, TCy] + [D2, UCc]))
  {
  }

  /** `Float<h0> ≡ Float<h2>` asks `h0 / h2 = 1`. */
  lemma SolveR5(prefix: seq<Entry>)
    ensures Solve(TCd, ST4H3, prefix, [TCy, D2, UCc]) == Ok((ST4H3, prefix + [UCd] + [TCy, D2, UCc]))
  {
    EquationEd();
  }

  lemma EquationEd()
    ensures UnitOf(TypeVariable("h0"), V("h2")) == Ok(UCd)
  {
    SoleRoundTrip("h2");
    SubtractIs(U.Sole("h0"), U.Sole("h2"), Ed);
  }

  lemma EdOpen()
    ensures !U.IsIdentity(Ed) && !U.IsConstant(Ed)
  {
    assert "h0" in Ed.variables;
  }

  lemma PivotEd()
    ensures U.ExponentOf(Ed, "h2") == -1
    ensures U.DividesPowers(Ed, -1) && U.Pivot(Ed, "h2") == U.Sole("h0")
  {
    assert U.ExponentOf(Ed, "h2") == -1;
    PivotIs(Ed, "h2", U.Sole("h0"));
  }

  /** Solving `h0 / h2 = 1` for `h2`, whose exponent is -1, gives `h0`. */
  lemma RuleR6()
    ensures UnitRule(UCd, ST4H3, IH2) == Ok((ST4H3, [DH2]))
  {
    PivotEd();
    SoleRoundTrip("h0");
    assert DependencyIntro(None) + [DH2] == [DH2];
  }

  /** `h3 / h1 = 1`. */
  lemma EquationEe()
    ensures UnitOf(TypeVariable("h3"), TypeVariable("h1")) == Ok(UCe)
  {
    SubtractIs(U.Sole("h3"), U.Sole("h1"), Ee);
  }

  lemma PartsR7()
    ensures MakeHull(TCy.left, ST4H3) == Ok((ST4H4, F(TypeVariable("h3")), [("h3", TypeVariable("h1"))]))
    ensures HullConstraints([("h3", TypeVariable("h1"))]) == Ok([UCe])
    ensures TCy.dependencies + HullIntros([("h3", TypeVariable("h1"))]) == [IH3]
  {
    var cs := [("h3", TypeVariable("h1"))];
    LaterHullDraws();
    EquationEe();
    HullConstraintsPair(cs[0], cs[0], UCe, UCe);
    assert HullIntros(cs) == [IH3];
  }

  /** `Float<h1>` against `t3` is decomposed, drawing `h3`. */
  lemma SolveR7(prefix: seq<Entry>)
    ensures Solve(TCy, ST4H3, prefix, [D2, UCc]) == Ok((ST4H4, prefix + [FH3, UCe] + [D2, UCc]))
  {
    var cs := [("h3", TypeVariable("h1"))];
    PartsR7();
    DecomposeIs(TCy, "t3", TCy.left, ST4H3, prefix, [D2, UCc], ST4H4, F(TypeVariable("h3")), cs, [UCe], [IH3]);
    assert [FH3] + [UCe] == [FH3, UCe];
    assert Solve(TCy, ST4H3, prefix, [D2, UCc]) == Decompose(TCy, "t3", TCy.left, ST4H3, prefix, [D2, UCc]);
  }

  lemma HullRuleR8()
    ensures HullRule(FH3, DH2) == Ok([IH3, FH3n, DH2])
  {
    assert "h2" !in FreeVariables(F(TypeVariable("h3"))) + {"t3"};
    assert SubstituteHull(FH3, "h2", V("h0")) == Ok(FH3n);
    assert FH3.dependencies + [FH3n, DH2] == [IH3, FH3n, DH2];
  }

  lemma HullRuleR9()
    ensures HullRule(FH3n, IH3) == Ok([FH3])
  {
    assert "h3" in FreeVariables(F(TypeVariable("h3")));
    assert [IH3] + FH3n.dependencies == [IH3];
  }

  lemma HullRuleR10()
    ensures HullRule(FH3, IV3) == Ok([IH3, D3])
  {
    assert "t3" !in FreeVariables(F(TypeVariable("h3")));
    assert FH3.dependencies + [D3] == [IH3, D3];
  }

  lemma EeOpen()
    ensures !U.IsIdentity(Ee) && !U.IsConstant(Ee)
  {
    assert "h3" in Ee.variables;
  }

  lemma RuleR11()
    ensures UnitRule(UCe, ST4H4, DH2) == Ok((ST4H4, [UCe, DH2]))
  {
    assert U.ExponentOf(Ee, "h2") == 0;
  }

  lemma RuleR12()
    ensures UnitRule(UCe, ST4H4, D3) == Ok((ST4H4, [UCe, D3]))
  {
    assert U.ExponentOf(Ee, "t3") == 0;
  }

  lemma PivotEe()
    ensures U.ExponentOf(Ee, "h3") == 1
    ensures U.DividesPowers(Ee, 1) && U.Pivot(Ee, "h3") == U.Sole("h1")
  {
    assert U.ExponentOf(Ee, "h3") == 1;
    PivotIs(Ee, "h3", U.Sole("h1"));
  }

  /** Solving `h3 / h1 = 1` for `h3` gives `h1`. */
  lemma RuleR13()
    ensures UnitRule(UCe, ST4H4, IH3) == Ok((ST4H4, [DH3]))
  {
    PivotEe();
    SoleRoundTrip("h1");
    assert DependencyIntro(None) + [DH3] == [DH3];
  }

  lemma EcOpen()
    ensures !U.IsIdentity(Ec) && !U.IsConstant(Ec)
  {
    assert "h2" in Ec.variables;
  }

  lemma RuleR14()
    ensures UnitRule(UCc, ST4H4, D2) == Ok((ST4H4, [UCc, D2]))
  {
    assert U.ExponentOf(Ec, "t2") == 0;
  }

  /** A substituted unit is the normal unit with the substituted
      exponents. */
  lemma SubstituteIs(u: U.Unit, name: string, other: U.Unit, e: U.Unit)
    requires U.Normal(e)
    requires forall k :: (U.Get(e.variables, k)
      == U.Get(u.variables, k) + (U.Get(other.variables, k) - (if k == name then 1 else 0)) * U.ExponentOf(u, name))
    requires forall k :: U.Get(e.constants, k) == U.Get(u.constants, k) + U.Get(other.constants, k) * U.ExponentOf(u, name)
    ensures U.Substitute(u, name, other) == e
  {
    U.SubstituteExponents(u, name, other);
    U.NormalExtensional(U.Substitute(u, name, other), e);
  }

  lemma SubstituteEc()
    ensures U.ExponentOf(Ec, "h2") == 1
    ensures U.Substitute(Ec, "h2", U.Sole("h0")) == Ef
  {
    assert U.ExponentOf(Ec, "h2") == 1;
    SubstituteIs(Ec, "h2", U.Sole("h0"), Ef);
  }

  /** Substituting `h0` for `h2` in `h2 / kg` gives `h0 / kg`. */
  lemma RuleR15()
    ensures UnitRule(UCc, ST4H4, DH2) == Ok((ST4H4, [UCf, DH2]))
  {
    SubstituteEc();
    SoleRoundTrip("h0");
    assert DependencyIntro(None) + [UCf, DH2] == [UCf, DH2];
  }

  lemma EfOpen()
    ensures !U.IsIdentity(Ef) && !U.IsConstant(Ef)
  {
    assert "h0" in Ef.variables;
  }

  lemma RuleR16()
    ensures UnitRule(UCf, ST4H4, D3) == Ok((ST4H4, [UCf, D3]))
  {
    assert U.ExponentOf(Ef, "t3") == 0;
  }

  lemma RuleR17()
    ensures UnitRule(UCf, ST4H4, DH3) == Ok((ST4H4, [UCf, DH3]))
  {
    assert U.ExponentOf(Ef, "h3") == 0;
  }

  lemma RuleR18()
    ensures UnitRule(UCf, ST4H4, DH1) == Ok((ST4H4, [UCf, DH1]))
  {
    assert U.ExponentOf(Ef, "h1") == 0;
  }

  lemma SubstituteEf()
    ensures U.ExponentOf(Ef, "h0") == 1
    ensures U.Substitute(Ef, "h0", U.Sole("t1")) == Eg
  {
    assert U.ExponentOf(Ef, "h0") == 1;
    SubstituteIs(Ef, "h0", U.Sole("t1"), Eg);
  }

  /** Substituting `t1` for `h0` in `h0 / kg` gives `t1 / kg`. */
  lemma RuleR19()
    ensures UnitRule(UCf, ST4H4, DH0) == Ok((ST4H4, [UCg, DH0]))
  {
    SubstituteEf();
    SoleRoundTrip("t1");
    assert DependencyIntro(None) + [UCg, DH0] == [UCg, DH0];
  }

  lemma EgOpen()
    ensures !U.IsIdentity(Eg) && !U.IsConstant(Eg)
  {
    assert "t1" in Eg.variables;
  }

  lemma PivotEg()
    ensures U.ExponentOf(Eg, "t1") == 1
    ensures U.DividesPowers(Eg, 1) && U.Pivot(Eg, "t1") == KgUnit
  {
    assert U.ExponentOf(Eg, "t1") == 1;
    PivotIs(Eg, "t1", KgUnit);
  }

  /** Solving `t1 / kg = 1` for `t1` gives `kg`. */
  lemma RuleR20()
    ensures UnitRule(UCg, ST4H4, IU1) == Ok((ST4H4, [D1]))
  {
    PivotEg();
    KgRoundTrip();
    assert DependencyIntro(None) + [D1] == [D1];
  }

  lemma ShapeR1()
    ensures R0 == [D0, IU1, DH0, DH1, D2, IV3] + [TCc] + []
    ensures R1 == [D0, IU1, DH0, DH1, D2, IV3] + [FH2, UCc] + []
    ensures ConstraintFree([D0, IU1, DH0, DH1, D2, IV3])
  {
  }

  /** Pass 1: `t2` against `Float<kg> -> t3` is decomposed, drawing `h2`. */
  lemma PassR1(base: seq<Entry>)
    requires ConstraintFree(base)
    ensures Transition(InferenceState(ST4H2, base + R0), InferenceState(ST4H3, base + R1))
  {
    var pre: seq<Entry> := [D0, IU1, DH0, DH1, D2, IV3];
    ShapeR1();
    SolveR1(base + pre);
    SolveOn(ST4H2, base, pre, TCc, [], ST4H3, [FH2, UCc]);
  }

  lemma ShapeR2()
    ensures R1 == [D0, IU1, DH0, DH1, D2] + [IV3, FH2] + [UCc]
    ensures R2 == [D0, IU1, DH0, DH1, D2] + [FH2b] + [UCc]
    ensures ConstraintFree([D0, IU1, DH0, DH1, D2])
  {
  }

  /** Pass 2: the hull mentions `t3`, so its intro is hoisted. */
  lemma PassR2(base: seq<Entry>)
    requires ConstraintFree(base)
    ensures Transition(InferenceState(ST4H3, base + R1), InferenceState(ST4H3, base + R2))
  {
    var pre: seq<Entry> := [D0, IU1, DH0, DH1, D2];
    ShapeR2();
    HullRuleR2();
    HullOn(ST4H3, base, pre, IV3, FH2, [UCc], [FH2b]);
  }

  lemma ShapeR3()
    ensures R2 == [D0, IU1, DH0, DH1] + [D2, FH2b] + [UCc]
    ensures R3 == [D0, IU1, DH0, DH1] + [IV3, IH2, TCx, D2] + [UCc]
    ensures ConstraintFree([D0, IU1, DH0, DH1])
  {
  }

  /** Pass 3: the hull constraint meets the definition of `t2`. */
  lemma PassR3(base: seq<Entry>)
    requires ConstraintFree(base)
    ensures Transition(InferenceState(ST4H3, base + R2), InferenceState(ST4H3, base + R3))
  {
    var pre: seq<Entry> := [D0, IU1, DH0, DH1];
    ShapeR3();
    HullRuleR3();
    HullOn(ST4H3, base, pre, D2, FH2b, [UCc], [IV3, IH2, TCx, D2]);
  }

  lemma ShapeR4()
    ensures R3 == [D0, IU1, DH0, DH1, IV3, IH2] + [TCx] + [D2, UCc]
    ensures R4 == [D0, IU1, DH0, DH1, IV3, IH2] + [TCd, TCy] + [D2, UCc]
    ensures ConstraintFree([D0, IU1, DH0, DH1, IV3, IH2])
  {
  }

  /** Pass 4: the two arrows are split. */
  lemma PassR4(base: seq<Entry>)
    requires ConstraintFree(base)
    ensures Transition(InferenceState(ST4H3, base + R3), InferenceState(ST4H3, base + R4))
  {
    var pre: seq<Entry> := [D0, IU1, DH0, DH1, IV3, IH2];
    ShapeR4();
    SolveR4(base + pre);
    SolveOn(ST4H3, base, pre, TCx, [D2, UCc], ST4H3, [TCd, TCy]);
  }

  lemma ShapeR5()
    ensures R4 == [D0, IU1, DH0, DH1, IV3, IH2] + [TCd] + [TCy, D2, UCc]
    ensures R5 == [D0, IU1, DH0, DH1, IV3, IH2] + [UCd] + [TCy, D2, UCc]
    ensures ConstraintFree([D0, IU1, DH0, DH1, IV3, IH2])
  {
  }

  /** Pass 5: the float types give `h0 / h2 = 1`. */
  lemma PassR5(base: seq<Entry>)
    requires ConstraintFree(base)
    ensures Transition(InferenceState(ST4H3, base + R4), InferenceState(ST4H3, base + R5))
  {
    var pre: seq<Entry> := [D0, IU1, DH0, DH1, IV3, IH2];
    ShapeR5();
    SolveR5(base + pre);
    SolveOn(ST4H3, base, pre, TCd, [TCy, D2, UCc], ST4H3, [UCd]);
  }

  lemma ShapeR6()
    ensures R5 == [D0, IU1, DH0, DH1, IV3] + [IH2, UCd] + [TCy, D2, UCc]
    ensures R6 == [D0, IU1, DH0, DH1, IV3] + [DH2] + [TCy, D2, UCc]
    ensures ConstraintFree([D0, IU1, DH0, DH1, IV3])
  {
  }

  /** Pass 6: at its intro, `h2` is defined as `h0`. */
  lemma PassR6(base: seq<Entry>)
    requires ConstraintFree(base)
    ensures Transition(InferenceState(ST4H3, base + R5), InferenceState(ST4H3, base + R6))
  {
    var pre: seq<Entry> := [D0, IU1, DH0, DH1, IV3];
    ShapeR6();
    EdOpen();
    RuleR6();
    UnitOn(ST4H3, base, pre, IH2, UCd, [TCy, D2, UCc], ST4H3, [DH2]);
  }

  lemma ShapeR7()
    ensures R6 == [D0, IU1, DH0, DH1, IV3, DH2] + [TCy] + [D2, UCc]
    ensures R7 == [D0, IU1, DH0, DH1, IV3, DH2] + [FH3, UCe] + [D2, UCc]
    ensures ConstraintFree([D0, IU1, DH0, DH1, IV3, DH2])
  {
  }

  /** Pass 7: `Float<h1>` against `t3` is decomposed, drawing `h3`. */
  lemma PassR7(base: seq<Entry>)
    requires ConstraintFree(base)
    ensures Transition(InferenceState(ST4H3, base + R6), InferenceState(ST4H4, base + R7))
  {
    var pre: seq<Entry> := [D0, IU1, DH0, DH1, IV3, DH2];
    ShapeR7();
    SolveR7(base + pre);
    SolveOn(ST4H3, base, pre, TCy, [D2, UCc], ST4H4, [FH3, UCe]);
  }

  lemma ShapeR8()
    ensures R7 == [D0, IU1, DH0, DH1, IV3] + [DH2, FH3] + [UCe, D2, UCc]
    ensures R8 == [D0, IU1, DH0, DH1, IV3] + [IH3, FH3n, DH2] + [UCe, D2, UCc]
    ensures ConstraintFree([D0, IU1, DH0, DH1, IV3])
  {
  }

  /** Pass 8: the hull constraint on `t3` passes the definition of `h2`, leaving
      its dependency `h3` behind. */
  lemma PassR8(base: seq<Entry>)
    requires ConstraintFree(base)
    ensures Transition(InferenceState(ST4H4, base + R7), InferenceState(ST4H4, base + R8))
  {
    var pre: seq<Entry> := [D0, IU1, DH0, DH1, IV3];
    ShapeR8();
    HullRuleR8();
    HullOn(ST4H4, base, pre, DH2, FH3, [UCe, D2, UCc], [IH3, FH3n, DH2]);
  }

  lemma ShapeR9()
    ensures R8 == [D0, IU1, DH0, DH1, IV3] + [IH3, FH3n] + [DH2, UCe, D2, UCc]
    ensures R9 == [D0, IU1, DH0, DH1, IV3] + [FH3] + [DH2, UCe, D2, UCc]
    ensures ConstraintFree([D0, IU1, DH0, DH1, IV3])
  {
  }

  /** Pass 9: the hull mentions `h3`, so its intro is hoisted again. */
  lemma PassR9(base: seq<Entry>)
    requires ConstraintFree(base)
    ensures Transition(InferenceState(ST4H4, base + R8), InferenceState(ST4H4, base + R9))
  {
    var pre: seq<Entry> := [D0, IU1, DH0, DH1, IV3];
    ShapeR9();
    HullRuleR9();
    HullOn(ST4H4, base, pre, IH3, FH3n, [DH2, UCe, D2, UCc], [FH3]);
  }

  lemma ShapeR10()
    ensures R9 == [D0, IU1, DH0, DH1] + [IV3, FH3] + [DH2, UCe, D2, UCc]
    ensures R10 == [D0, IU1, DH0, DH1] + [IH3, D3] + [DH2, UCe, D2, UCc]
    ensures ConstraintFree([D0, IU1, DH0, DH1])
  {
  }

  /** Pass 10: at its own intro, `t3` is defined as `Float<h3>`. */
  lemma PassR10(base: seq<Entry>)
    requires ConstraintFree(base)
    ensures Transition(InferenceState(ST4H4, base + R9), InferenceState(ST4H4, base + R10))
  {
    var pre: seq<Entry> := [D0, IU1, DH0, DH1];
    ShapeR10();
    HullRuleR10();
    HullOn(ST4H4, base, pre, IV3, FH3, [DH2, UCe, D2, UCc], [IH3, D3]);
  }

  lemma ShapeR11()
    ensures R10 == [D0, IU1, DH0, DH1, IH3, D3] + [DH2, UCe] + [D2, UCc]
    ensures R11 == [D0, IU1, DH0, DH1, IH3, D3] + [UCe, DH2] + [D2, UCc]
    ensures ConstraintFree([D0, IU1, DH0, DH1, IH3, D3])
  {
  }

  /** Pass 11: `h3 / h1` does not mention `h2`. */
  lemma PassR11(base: seq<Entry>)
    requires ConstraintFree(base)
    ensures Transition(InferenceState(ST4H4, base + R10), InferenceState(ST4H4, base + R11))
  {
    var pre: seq<Entry> := [D0, IU1, DH0, DH1, IH3, D3];
    ShapeR11();
    EeOpen();
    RuleR11();
    UnitOn(ST4H4, base, pre, DH2, UCe, [D2, UCc], ST4H4, [UCe, DH2]);
  }

  lemma ShapeR12()
    ensures R11 == [D0, IU1, DH0, DH1, IH3] + [D3, UCe] + [DH2, D2, UCc]
    ensures R12 == [D0, IU1, DH0, DH1, IH3] + [UCe, D3] + [DH2, D2, UCc]
    ensures ConstraintFree([D0, IU1, DH0, DH1, IH3])
  {
  }

  /** Pass 12: nor `t3`. */
  lemma PassR12(base: seq<Entry>)
    requires ConstraintFree(base)
    ensures Transition(InferenceState(ST4H4, base + R11), InferenceState(ST4H4, base + R12))
  {
    var pre: seq<Entry> := [D0, IU1, DH0, DH1, IH3];
    ShapeR12();
    EeOpen();
    RuleR12();
    UnitOn(ST4H4, base, pre, D3, UCe, [DH2, D2, UCc], ST4H4, [UCe, D3]);
  }

  lemma ShapeR13()
    ensures R12 == [D0, IU1, DH0, DH1] + [IH3, UCe] + [D3, DH2, D2, UCc]
    ensures R13 == [D0, IU1, DH0, DH1] + [DH3] + [D3, DH2, D2, UCc]
    ensures ConstraintFree([D0, IU1, DH0, DH1])
  {
  }

  /** Pass 13: at its intro, `h3` is defined as `h1`. */
  lemma PassR13(base: seq<Entry>)
    requires ConstraintFree(base)
    ensures Transition(InferenceState(ST4H4, base + R12), InferenceState(ST4H4, base + R13))
  {
    var pre: seq<Entry> := [D0, IU1, DH0, DH1];
    ShapeR13();
    EeOpen();
    RuleR13();
    UnitOn(ST4H4, base, pre, IH3, UCe, [D3, DH2, D2, UCc], ST4H4, [DH3]);
  }

  lemma ShapeR14()
    ensures R13 == [D0, IU1, DH0, DH1, DH3, D3, DH2] + [D2, UCc] + []
    ensures R14 == [D0, IU1, DH0, DH1, DH3, D3, DH2] + [UCc, D2] + []
    ensures ConstraintFree([D0, IU1, DH0, DH1, DH3, D3, DH2])
  {
  }

  /** Pass 14: `h2 / kg` does not mention `t2`. */
  lemma PassR14(base: seq<Entry>)
    requires ConstraintFree(base)
    ensures Transition(InferenceState(ST4H4, base + R13), InferenceState(ST4H4, base + R14))
  {
    var pre: seq<Entry> := [D0, IU1, DH0, DH1, DH3, D3, DH2];
    ShapeR14();
    EcOpen();
    RuleR14();
    UnitOn(ST4H4, base, pre, D2, UCc, [], ST4H4, [UCc, D2]);
  }

  lemma ShapeR15()
    ensures R14 == [D0, IU1, DH0, DH1, DH3, D3] + [DH2, UCc] + [D2]
    ensures R15 == [D0, IU1, DH0, DH1, DH3, D3] + [UCf, DH2] + [D2]
    ensures ConstraintFree([D0, IU1, DH0, DH1, DH3, D3])
  {
  }

  /** Pass 15: the definition of `h2` is substituted into `h2 / kg`. */
  lemma PassR15(base: seq<Entry>)
    requires ConstraintFree(base)
    ensures Transition(InferenceState(ST4H4, base + R14), InferenceState(ST4H4, base + R15))
  {
    var pre: seq<Entry> := [D0, IU1, DH0, DH1, DH3, D3];
    ShapeR15();
    EcOpen();
    RuleR15();
    UnitOn(ST4H4, base, pre, DH2, UCc, [D2], ST4H4, [UCf, DH2]);
  }

  lemma ShapeR16()
    ensures R15 == [D0, IU1, DH0, DH1, DH3] + [D3, UCf] + [DH2, D2]
    ensures R16 == [D0, IU1, DH0, DH1, DH3] + [UCf, D3] + [DH2, D2]
    ensures ConstraintFree([D0, IU1, DH0, DH1, DH3])
  {
  }

  /** Pass 16: `h0 / kg` does not mention `t3`. */
  lemma PassR16(base: seq<Entry>)
    requires ConstraintFree(base)
    ensures Transition(InferenceState(ST4H4, base + R15), InferenceState(ST4H4, base + R16))
  {
    var pre: seq<Entry> := [D0, IU1, DH0, DH1, DH3];
    ShapeR16();
    EfOpen();
    RuleR16();
    UnitOn(ST4H4, base, pre, D3, UCf, [DH2, D2], ST4H4, [UCf, D3]);
  }

  lemma ShapeR17()
    ensures R16 == [D0, IU1, DH0, DH1] + [DH3, UCf] + [D3, DH2, D2]
    ensures R17 == [D0, IU1, DH0, DH1] + [UCf, DH3] + [D3, DH2, D2]
    ensures ConstraintFree([D0, IU1, DH0, DH1])
  {
  }

  /** Pass 17: nor `h3`. */
  lemma PassR17(base: seq<Entry>)
    requires ConstraintFree(base)
    ensures Transition(InferenceState(ST4H4, base + R16), InferenceState(ST4H4, base + R17))
  {
    var pre: seq<Entry> := [D0, IU1, DH0, DH1];
    ShapeR17();
    EfOpen();
    RuleR17();
    UnitOn(ST4H4, base, pre, DH3, UCf, [D3, DH2, D2], ST4H4, [UCf, DH3]);
  }

  lemma ShapeR18()
    ensures R17 == [D0, IU1, DH0] + [DH1, UCf] + [DH3, D3, DH2, D2]
    ensures R18 == [D0, IU1, DH0] + [UCf, DH1] + [DH3, D3, DH2, D2]
    ensures ConstraintFree([D0, IU1, DH0])
  {
  }

  /** Pass 18: nor `h1`. */
  lemma PassR18(base: seq<Entry>)
    requires ConstraintFree(base)
    ensures Transition(InferenceState(ST4H4, base + R17), InferenceState(ST4H4, base + R18))
  {
    var pre: seq<Entry> := [D0, IU1, DH0];
    ShapeR18();
    EfOpen();
    RuleR18();
    UnitOn(ST4H4, base, pre, DH1, UCf, [DH3, D3, DH2, D2], ST4H4, [UCf, DH1]);
  }

  lemma ShapeR19()
    ensures R18 == [D0, IU1] + [DH0, UCf] + [DH1, DH3, D3, DH2, D2]
    ensures R19 == [D0, IU1] + [UCg, DH0] + [DH1, DH3, D3, DH2, D2]
    ensures ConstraintFree([D0, IU1])
  {
  }

  /** Pass 19: the definition of `h0` is substituted into `h0 / kg`. */
  lemma PassR19(base: seq<Entry>)
    requires ConstraintFree(base)
    ensures Transition(InferenceState(ST4H4, base + R18), InferenceState(ST4H4, base + R19))
  {
    var pre: seq<Entry> := [D0, IU1];
    ShapeR19();
    EfOpen();
    RuleR19();
    UnitOn(ST4H4, base, pre, DH0, UCf, [DH1, DH3, D3, DH2, D2], ST4H4, [UCg, DH0]);
  }

  lemma ShapeR20()
    ensures R19 == [D0] + [IU1, UCg] + [DH0, DH1, DH3, D3, DH2, D2]
    ensures R20 == [D0] + [D1] + [DH0, DH1, DH3, D3, DH2, D2]
    ensures ConstraintFree([D0])
  {
  }

  /** Pass 20: at its intro, `t1` is defined as `kg`. */
  lemma PassR20(base: seq<Entry>)
    requires ConstraintFree(base)
    ensures Transition(InferenceState(ST4H4, base + R19), InferenceState(ST4H4, base + R20))
  {
    var pre: seq<Entry> := [D0];
    ShapeR20();
    EgOpen();
    RuleR20();
    UnitOn(ST4H4, base, pre, IU1, UCg, [DH0, DH1, DH3, D3, DH2, D2], ST4H4, [D1]);
  }

  lemma FreeR20()
    ensures ConstraintFree(R20)
  {
  }

  /** The second loop runs twenty passes and stops with no constraint
      left: `t1 := kg`, `h2 := h0`, `h3 := h1` and `t3 := Float<h3>`. */
  lemma SecondLoop(base: seq<Entry>, fuel: nat)
    requires ConstraintFree(base) && fuel >= 20
    ensures Unified(InferenceState(ST4H2, base + R0), fuel) == Ok(InferenceState(ST4H4, base + R20))
  {
    assert Unified(InferenceState(ST4H2, base + R0), fuel) == Unified(InferenceState(ST4H3, base + R1), fuel - 1) by {
      PassR1(base);
      Chain(InferenceState(ST4H2, base + R0), InferenceState(ST4H3, base + R1), fuel);
    }
    assert Unified(InferenceState(ST4H3, base + R1), fuel - 1) == Unified(InferenceState(ST4H3, base + R2), fuel - 2) by {
      PassR2(base);
      Chain(InferenceState(ST4H3, base + R1), InferenceState(ST4H3, base + R2), fuel - 1);
    }
    assert Unified(InferenceState(ST4H3, base + R2), fuel - 2) == Unified(InferenceState(ST4H3, base + R3), fuel - 3) by {
      PassR3(base);
      Chain(InferenceState(ST4H3, base + R2), InferenceState(ST4H3, base + R3), fuel - 2);
    }
    assert Unified(InferenceState(ST4H3, base + R3), fuel - 3) == Unified(InferenceState(ST4H3, base + R4), fuel - 4) by {
      PassR4(base);
      Chain(InferenceState(ST4H3, base + R3), InferenceState(ST4H3, base + R4), fuel - 3);
    }
    assert Unified(InferenceState(ST4H3, base + R4), fuel - 4) == Unified(InferenceState(ST4H3, base + R5), fuel - 5) by {
      PassR5(base);
      Chain(InferenceState(ST4H3, base + R4), InferenceState(ST4H3, base + R5), fuel - 4);
    }
    assert Unified(InferenceState(ST4H3, base + R5), fuel - 5) == Unified(InferenceState(ST4H3, base + R6), fuel - 6) by {
      PassR6(base);
      Chain(InferenceState(ST4H3, base + R5), InferenceState(ST4H3, base + R6), fuel - 5);
    }
    assert Unified(InferenceState(ST4H3, base + R6), fuel - 6) == Unified(InferenceState(ST4H4, base + R7), fuel - 7) by {
      PassR7(base);
      Chain(InferenceState(ST4H3, base + R6), InferenceState(ST4H4, base + R7), fuel - 6);
    }
    assert Unified(InferenceState(ST4H4, base + R7), fuel - 7) == Unified(InferenceState(ST4H4, base + R8), fuel - 8) by {
      PassR8(base);
      Chain(InferenceState(ST4H4, base + R7), InferenceState(ST4H4, base + R8), fuel - 7);
    }
    assert Unified(InferenceState(ST4H4, base + R8), fuel - 8) == Unified(InferenceState(ST4H4, base + R9), fuel - 9) by {
      PassR9(base);
      Chain(InferenceState(ST4H4, base + R8), InferenceState(ST4H4, base + R9), fuel - 8);
    }
    assert Unified(InferenceState(ST4H4, base + R9), fuel - 9) == Unified(InferenceState(ST4H4, base + R10), fuel - 10) by {
      PassR10(base);
      Chain(InferenceState(ST4H4, base + R9), InferenceState(ST4H4, base + R10), fuel - 9);
    }
    assert Unified(InferenceState(ST4H4, base + R10), fuel - 10) == Unified(InferenceState(ST4H4, base + R11), fuel - 11) by {
      PassR11(base);
      Chain(InferenceState(ST4H4, base + R10), InferenceState(ST4H4, base + R11), fuel - 10);
    }
    assert Unified(InferenceState(ST4H4, base + R11), fuel - 11) == Unified(InferenceState(ST4H4, base + R12), fuel - 12) by {
      PassR12(base);
      Chain(InferenceState(ST4H4, base + R11), InferenceState(ST4H4, base + R12), fuel - 11);
    }
    assert Unified(InferenceState(ST4H4, base + R12), fuel - 12) == Unified(InferenceState(ST4H4, base + R13), fuel - 13) by {
      PassR13(base);
      Chain(InferenceState(ST4H4, base + R12), InferenceState(ST4H4, base + R13), fuel - 12);
    }
    assert Unified(InferenceState(ST4H4, base + R13), fuel - 13) == Unified(InferenceState(ST4H4, base + R14), fuel - 14) by {
      PassR14(base);
      Chain(InferenceState(ST4H4, base + R13), InferenceState(ST4H4, base + R14), fuel - 13);
    }
    assert Unified(InferenceState(ST4H4, base + R14), fuel - 14) == Unified(InferenceState(ST4H4, base + R15), fuel - 15) by {
      PassR15(base);
      Chain(InferenceState(ST4H4, base + R14), InferenceState(ST4H4, base + R15), fuel - 14);
    }
    assert Unified(InferenceState(ST4H4, base + R15), fuel - 15) == Unified(InferenceState(ST4H4, base + R16), fuel - 16) by {
      PassR16(base);
      Chain(InferenceState(ST4H4, base + R15), InferenceState(ST4H4, base + R16), fuel - 15);
    }
    assert Unified(InferenceState(ST4H4, base + R16), fuel - 16) == Unified(InferenceState(ST4H4, base + R17), fuel - 17) by {
      PassR17(base);
      Chain(InferenceState(ST4H4, base + R16), InferenceState(ST4H4, base + R17), fuel - 16);
    }
    assert Unified(InferenceState(ST4H4, base + R17), fuel - 17) == Unified(InferenceState(ST4H4, base + R18), fuel - 18) by {
      PassR18(base);
      Chain(InferenceState(ST4H4, base + R17), InferenceState(ST4H4, base + R18), fuel - 17);
    }
    assert Unified(InferenceState(ST4H4, base + R18), fuel - 18) == Unified(InferenceState(ST4H4, base + R19), fuel - 19) by {
      PassR19(base);
      Chain(InferenceState(ST4H4, base + R18), InferenceState(ST4H4, base + R19), fuel - 18);
    }
    assert Unified(InferenceState(ST4H4, base + R19), fuel - 19) == Unified(InferenceState(ST4H4, base + R20), fuel - 20) by {
      PassR20(base);
      Chain(InferenceState(ST4H4, base + R19), InferenceState(ST4H4, base + R20), fuel - 19);
    }
    FreeR20();
    Stopped(InferenceState(ST4H4, base + R20), base, R20, fuel - 20);
  }


  /** The fourth "t" name, drawn after two "h" names. */
  lemma FourthDraw()
    ensures Next(ST3H2, "t") == (ST4H2, "t3")
  {
    assert "t" + NatToString(3) == "t3";
    assert map["t" := 3, "h" := 2]["t" := 4] == map["t" := 4, "h" := 2];
  }

  lemma NoMassL12()
    ensures forall j :: 0 <= j < |L12| ==> !IsBindingOf(L12[j], "mass")
  {
  }

  /** The outer application draws `t3` and asks `t2 ≡ Float<kg> -> t3`. */
  lemma SecondStart()
    ensures FreshName(In(ST3H2, L12)) == (InferenceState(ST4H2, Bindings + L12), "t3")
    ensures Push(Push(InferenceState(ST4H2, Bindings + L12), IV3), TCc) == InferenceState(ST4H2, Bindings + R0)
  {
    FourthDraw();
    assert Bindings + L12 + [IV3] + [TCc] == Bindings + R0;
  }

  /** `mul mass mass` has the type `t3`, with `t3 := Float<h3>` in the
      context the second loop leaves. */
  lemma MulMassMass(fuel: nat)
    requires fuel >= 20
    ensures InferTerm(Initial, Application(Application(TermVariable("mul"), TermVariable("mass")), TermVariable("mass")), fuel)
      == Ok((In(ST4H4, R20), TypeVariable("t3")))
  {
    var s := In(ST3H2, L12);
    MulMass(fuel);
    NoMassL12();
    MassLookup(s, L12, fuel);
    SecondStart();
    BindingsFree();
    SecondLoop(Bindings, fuel);
  }
}
