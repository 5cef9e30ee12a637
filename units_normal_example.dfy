/** The last step of the `mul mass mass` test in
    Inference.Units.Test/InferenceTests.cs: the context the solver leaves
    is normalised and applied to the result variable `t3`, which gives
    `Float<kg^2>`. */
module UnitNormalExample {
  import opened Results
  import U = UnitAlgebra
  import opened UnitTypes
  import opened UnitContext
  import opened UnitInference
  import opened UnitExamples

  const KgU: U.Unit := U.Unit(map[], map["kg" := 1])
  const K2U: U.Unit := U.Unit(map[], map["kg" := 2])
  /** `kg^2`, as `Unit.ToType` writes it. */
  const K2: Type := UnitPower(PrimitiveUnit("kg"), 2)
  /** `t1^1` with `kg^1` for `t1`. */
  const Kg1: Type := UnitPower(Kg, 1)
  const P: Type := UnitMultiply(Kg1, Kg1)
  const P1: Type := UnitPower(P, 1)
  const X6: Type := UnitPower(Kg1, 1)

  // The definitions of the final context once normalised.
  const E2: Entry := TypeVariableDefinition("h0", Kg1, UnitKind)
  const E3: Entry := TypeVariableDefinition("h1", P, UnitKind)
  const E4: Entry := TypeVariableDefinition("h3", P1, UnitKind)
  const E5: Entry := TypeVariableDefinition("t3", F(K2), ValueKind)
  const E6: Entry := TypeVariableDefinition("h2", X6, UnitKind)
  const E7: Entry := TypeVariableDefinition("t2", ArrowType(F(Kg), F(K2)), ValueKind)

  // The final context, entry by entry, and its normal form.
  const C1: seq<Entry> := Bindings + [D0]
  const C2: seq<Entry> := C1 + [D1]
  const C3: seq<Entry> := C2 + [DH0]
  const C4: seq<Entry> := C3 + [DH1]
  const C5: seq<Entry> := C4 + [DH3]
  const C6: seq<Entry> := C5 + [D3]
  const C7: seq<Entry> := C6 + [DH2]
  const C8: seq<Entry> := C7 + [D2]
  const N1: seq<Entry> := Bindings + [D0]
  const N2: seq<Entry> := N1 + [D1]
  const N3: seq<Entry> := N2 + [E2]
  const N4: seq<Entry> := N3 + [E3]
  const N5: seq<Entry> := N4 + [E4]
  const N6: seq<Entry> := N5 + [E5]
  const N7: seq<Entry> := N6 + [E6]
  const N8: seq<Entry> := N7 + [E7]

  // ---------------------------------------------------------------------
  // Folds one entry at a time.

  lemma ApplySnoc(ctx: seq<Entry>, e: Entry, t: Type, prev: Type, r: Type)
    requires Apply(ctx, t) == Ok(prev) && ApplyEntry(e, prev) == Ok(r)
    ensures Apply(ctx + [e], t) == Ok(r)
  {
    assert (ctx + [e])[..|ctx + [e]| - 1] == ctx;
  }

  lemma NormalizeSnoc(ctx: seq<Entry>, e: Entry, n: seq<Entry>, e': Entry)
    requires Normalize(ctx) == Ok(n) && NormalizeEntry(n, e) == Ok(e')
    ensures Normalize(ctx + [e]) == Ok(n + [e'])
  {
    assert (ctx + [e])[..|ctx + [e]| - 1] == ctx;
  }

  /** The bindings define no type variable. */
  lemma BindingsPlain(t: Type)
    ensures Normalize(Bindings) == Ok(Bindings)
    ensures Apply(Bindings, t) == Ok(t)
  {
    assert forall i :: 0 <= i < |Bindings| ==> !Bindings[i].TypeVariableDefinition?;
    NormalizeWithoutDefinitions(Bindings);
    ApplyWithoutDefinitions(Bindings, t);
  }

  /** A float whose unit is in normal form and does not mention `name` is
      left alone. */
  lemma FloatKept(u: Type, unit: U.Unit, name: string, subWith: Type)
    requires FloatFree(u) && name !in FreeVariables(u)
    requires ToUnit(u) == Ok(unit) && ToType(unit) == u
    ensures Substitute(F(u), name, subWith) == Ok(F(u))
  {
    SubstituteStructural(u, name, subWith);
    FloatSubstitute(u, name, subWith, u, unit);
  }

  // ---------------------------------------------------------------------
  // The units involved.

  lemma ScaleOne(u: U.Unit)
    ensures U.Scale(u, 1) == u
  {
    assert U.Scale(u, 1).variables == u.variables;
    assert U.Scale(u, 1).constants == u.constants;
  }

  lemma KgUnits()
    ensures ToUnit(Kg) == Ok(KgU) && ToType(KgU) == Kg
    ensures ToUnit(Kg1) == Ok(KgU) && ToUnit(X6) == Ok(KgU)
  {
    KgRoundTrip();
    ScaleOne(KgU);
  }

  lemma DoubleKg()
    ensures U.Add(KgU, KgU) == K2U
  {
    assert U.Add(KgU, KgU).variables == map[];
    assert U.Add(KgU, KgU).constants.Keys == {"kg"};
    assert U.Add(KgU, KgU).constants == K2U.constants;
  }

  lemma K2Units()
    ensures ToUnit(P) == Ok(K2U) && ToUnit(P1) == Ok(K2U) && ToUnit(UnitPower(P1, 1)) == Ok(K2U)
    ensures ToUnit(K2) == Ok(K2U) && ToType(K2U) == K2
  {
    KgUnits();
    DoubleKg();
    ScaleOne(K2U);
    assert U.Scale(U.Unit(map[], map["kg" := 1]), 2).constants == K2U.constants;
    SortedSingleton("kg");
  }

  /** `Float<kg>` and `Float<kg^2>` are in normal form and mention no
      variable. */
  lemma ClosedKept(name: string, subWith: Type)
    ensures Substitute(F(Kg), name, subWith) == Ok(F(Kg))
    ensures Substitute(F(K2), name, subWith) == Ok(F(K2))
  {
    KgUnits();
    K2Units();
    FloatKept(Kg, KgU, name, subWith);
    FloatKept(K2, K2U, name, subWith);
  }

  // ---------------------------------------------------------------------
  // Each definition's body rewritten by the normalised entries before it.

  lemma BodyD1()
    ensures Apply(N1, Kg) == Ok(Kg)
  {
    BindingsPlain(Kg);
    ApplySnoc(Bindings, D0, Kg, Kg, Kg);
  }

  lemma BodyDH0()
    ensures Apply(N2, V("t1")) == Ok(Kg1)
  {
    BindingsPlain(V("t1"));
    ApplySnoc(Bindings, D0, V("t1"), V("t1"), V("t1"));
    ApplySnoc(N1, D1, V("t1"), V("t1"), Kg1);
  }

  lemma BodyDH1()
    ensures Apply(N3, M01) == Ok(P)
  {
    BindingsPlain(M01);
    ApplySnoc(Bindings, D0, M01, M01, UnitMultiply(Kg1, V("t1")));
    ApplySnoc(N1, D1, M01, UnitMultiply(Kg1, V("t1")), P);
    ApplySnoc(N2, E2, M01, P, P);
  }

  lemma BodyDH3()
    ensures Apply(N4, V("h1")) == Ok(P1)
  {
    BindingsPlain(V("h1"));
    ApplySnoc(Bindings, D0, V("h1"), V("h1"), V("h1"));
    ApplySnoc(N1, D1, V("h1"), V("h1"), V("h1"));
    ApplySnoc(N2, E2, V("h1"), V("h1"), V("h1"));
    ApplySnoc(N3, E3, V("h1"), V("h1"), P1);
  }

  /** The float of `t3` first takes its normal form `h3^1`, then becomes
      `kg^2` once `h3` is replaced. */
  lemma BodyD3()
    ensures Apply(N5, F(TypeVariable("h3"))) == Ok(F(K2))
  {
    var t := F(TypeVariable("h3"));
    var h := V("h3");
    SoleRoundTrip("h3");
    BindingsPlain(t);
    FloatSubstitute(TypeVariable("h3"), "t0", Kg, TypeVariable("h3"), U.Sole("h3"));
    ApplySnoc(Bindings, D0, t, t, F(h));
    FloatKept(h, U.Sole("h3"), "t1", Kg);
    ApplySnoc(N1, D1, t, F(h), F(h));
    FloatKept(h, U.Sole("h3"), "h0", Kg1);
    ApplySnoc(N2, E2, t, F(h), F(h));
    FloatKept(h, U.Sole("h3"), "h1", P);
    ApplySnoc(N3, E3, t, F(h), F(h));
    K2Units();
    FloatSubstitute(h, "h3", P1, UnitPower(P1, 1), K2U);
    ApplySnoc(N4, E4, t, F(h), F(K2));
  }

  lemma BodyDH2()
    ensures Apply(N6, V("h0")) == Ok(X6)
  {
    BindingsPlain(V("h0"));
    ApplySnoc(Bindings, D0, V("h0"), V("h0"), V("h0"));
    ApplySnoc(N1, D1, V("h0"), V("h0"), V("h0"));
    ApplySnoc(N2, E2, V("h0"), V("h0"), X6);
    ApplySnoc(N3, E3, V("h0"), X6, X6);
    ApplySnoc(N4, E4, V("h0"), X6, X6);
    ApplySnoc(N5, E5, V("h0"), X6, X6);
  }

  /** `t2`'s floats take their normal forms `h0^1` and `h1^1`, then `h0`
      becomes `kg`. */
  lemma BodyD2Start()
    ensures Apply(N3, H01) == Ok(ArrowType(F(Kg), F(V("h1"))))
  {
    var a := ArrowType(F(V("h0")), F(V("h1")));
    var b := ArrowType(F(Kg), F(V("h1")));
    SoleRoundTrip("h0");
    SoleRoundTrip("h1");
    KgUnits();
    BindingsPlain(H01);
    FloatSubstitute(TypeVariable("h0"), "t0", Kg, TypeVariable("h0"), U.Sole("h0"));
    FloatSubstitute(TypeVariable("h1"), "t0", Kg, TypeVariable("h1"), U.Sole("h1"));
    ApplySnoc(Bindings, D0, H01, H01, a);
    FloatKept(V("h0"), U.Sole("h0"), "t1", Kg);
    FloatKept(V("h1"), U.Sole("h1"), "t1", Kg);
    ApplySnoc(N1, D1, H01, a, a);
    FloatSubstitute(V("h0"), "h0", Kg1, X6, KgU);
    FloatKept(V("h1"), U.Sole("h1"), "h0", Kg1);
    ApplySnoc(N2, E2, H01, a, b);
  }

  /** Then `h1` becomes `kg^2`, and nothing after changes `t2`. */
  lemma BodyD2()
    ensures Apply(N7, H01) == Ok(ArrowType(F(Kg), F(K2)))
  {
    var b := ArrowType(F(Kg), F(V("h1")));
    var c := ArrowType(F(Kg), F(K2));
    BodyD2Start();
    ClosedKept("h1", P);
    K2Units();
    FloatSubstitute(V("h1"), "h1", P, P1, K2U);
    ApplySnoc(N3, E3, H01, b, c);
    ClosedKept("h3", P1);
    ApplySnoc(N4, E4, H01, c, c);
    ClosedKept("t3", F(K2));
    ApplySnoc(N5, E5, H01, c, c);
    ClosedKept("h2", X6);
    ApplySnoc(N6, E6, H01, c, c);
  }

  // ---------------------------------------------------------------------
  // The whole normal form, and `t3` under it.

  lemma NormalizeFinal()
    ensures Normalize(C8) == Ok(N8)
  {
    BindingsPlain(Kg);
    NormalizeSnoc(Bindings, D0, Bindings, D0);
    BodyD1();
    NormalizeSnoc(C1, D1, N1, D1);
    BodyDH0();
    NormalizeSnoc(C2, DH0, N2, E2);
    BodyDH1();
    NormalizeSnoc(C3, DH1, N3, E3);
    BodyDH3();
    NormalizeSnoc(C4, DH3, N4, E4);
    BodyD3();
    NormalizeSnoc(C5, D3, N5, E5);
    BodyDH2();
    NormalizeSnoc(C6, DH2, N6, E6);
    BodyD2();
    NormalizeSnoc(C7, D2, N7, E7);
  }

  lemma ApplyFinal()
    ensures Apply(N8, TypeVariable("t3")) == Ok(F(K2))
  {
    var t := TypeVariable("t3");
    BindingsPlain(t);
    ApplySnoc(Bindings, D0, t, t, t);
    ApplySnoc(N1, D1, t, t, t);
    ApplySnoc(N2, E2, t, t, t);
    ApplySnoc(N3, E3, t, t, t);
    ApplySnoc(N4, E4, t, t, t);
    ApplySnoc(N5, E5, t, t, F(K2));
    ClosedKept("h2", X6);
    ApplySnoc(N6, E6, t, F(K2), F(K2));
    ClosedKept("t2", ArrowType(F(Kg), F(K2)));
    ApplySnoc(N7, E7, t, F(K2), F(K2));
  }

  lemma FinalContext()
    ensures Bindings + R20 == C8
  {
  }

  /** `mul mass mass` has the type `Float<kg^2>`. */
  lemma MulMassMassExample(fuel: nat)
    requires fuel >= 20
    ensures Infer(Initial, Application(Application(TermVariable("mul"), TermVariable("mass")), TermVariable("mass")), fuel)
      == Ok(FloatType(UnitPower(PrimitiveUnit("kg"), 2)))
  {
    MulMassMass(fuel);
    FinalContext();
    NormalizeFinal();
    ApplyFinal();
  }
}
