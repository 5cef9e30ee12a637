/** A worked run of the type-class driver: `let m = λa.a in m m`, the
    let-polymorphism example of Inference.Typeclasses.Test/BasicTests.cs.
    The generalised identity is specialised twice, and the seven passes of
    the constraint loop that follow are spelled out one by one. */
module TcExamples {
  import opened Results
  import opened Fresh
  import opened TcTypes
  import opened TcContext
  import opened TcReduction
  import opened TcConstraints
  import opened TcInference

  const T0: Type := TypeVariable("t0", DataKind)
  const T1: Type := TypeVariable("t1", DataKind)
  const T2: Type := TypeVariable("t2", DataKind)
  const T3: Type := TypeVariable("t3", DataKind)

  /** `t2 -> t2`, the type of the second specialisation of `m`. */
  const Id2: Type := FunOf(T2, T2)

  /** The scheme `let` gives `m`: `forall t0. t0 -> t0`. */
  const IdScheme: TypeScheme := TypeScheme(QualifiedType([], FunOf(T0, T0)), [("t0", DataKind)])
  const BindM: Entry := TermVariableBinding("m", IdScheme)

  const I1: Entry := TypeVariableIntro("t1", DataKind)
  const I2: Entry := TypeVariableIntro("t2", DataKind)
  const I3: Entry := TypeVariableIntro("t3", DataKind)

  /** The constraints of the run: the one `m m` emits, and what it becomes. */
  const C0: Entry := TypeConstraint([], FunOf(T1, T1), FunOf(Id2, T3))
  const CA: Entry := TypeConstraint([], TypeApplication(FunCons, T1), TypeApplication(FunCons, Id2))
  const CB: Entry := TypeConstraint([], T1, T3)
  const CF: Entry := TypeConstraint([], FunCons, FunCons)
  const CC: Entry := TypeConstraint([], T1, Id2)
  const CD: Entry := TypeConstraint([I2], T1, Id2)

  /** The stream once `t0` to `t3` are drawn. */
  const S4: Stream := Stream(map["t" := 4])

  function At(ctx: seq<Entry>): InferenceState
  {
    InferenceState(S4, ctx)
  }

  /** The contexts the loop passes through. */
  const D1: Entry := TypeVariableDefinition("t1", Id2)
  const D3: Entry := TypeVariableDefinition("t3", T1)
  const Ctx0: seq<Entry> := [BindM, I1, I2, I3, C0]
  const Ctx1: seq<Entry> := [BindM, I1, I2, I3, CA, CB]
  const Ctx2: seq<Entry> := [BindM, I1, I2, I3, CF, CC, CB]
  const Ctx3: seq<Entry> := [BindM, I1, I2, I3, CC, CB]
  const Ctx4: seq<Entry> := [BindM, I1, I2, CC, I3, CB]
  const Ctx5: seq<Entry> := [BindM, I1, CD, I3, CB]
  const Ctx6: seq<Entry> := [BindM, I2, D1, I3, CB]
  const Ctx7: seq<Entry> := [BindM, I2, D1, D3]

  /** The first constraint of a context is the first entry that is one. */
  lemma {:induction false} LeadingAt(prefix: seq<Entry>, c: Entry, suffix: seq<Entry>)
    requires forall i :: 0 <= i < |prefix| ==> !prefix[i].TypeConstraint?
    requires c.TypeConstraint?
    ensures LeadingLength(prefix + [c] + suffix) == |prefix|
  {
    if prefix != [] {
      assert (prefix + [c] + suffix)[1..] == prefix[1..] + [c] + suffix;
      LeadingAt(prefix[1..], c, suffix);
    }
  }

  /** A pass of the loop is the solving of the first constraint against
      the entries before it and after it. */
  lemma PassAt(prefix: seq<Entry>, c: Entry, suffix: seq<Entry>, next: seq<Entry>)
    requires forall i :: 0 <= i < |prefix| ==> !prefix[i].TypeConstraint?
    requires c.TypeConstraint? && Solve(c, prefix, suffix) == Ok(next)
    ensures Transition(At(prefix + [c] + suffix), At(next))
  {
    var ctx := prefix + [c] + suffix;
    LeadingAt(prefix, c, suffix);
    assert ctx[|prefix|] == c;
    assert ctx[..|prefix|] == prefix && ctx[|prefix| + 1..] == suffix;
  }

  /** Pass 1: the two function types are split into their parts. */
  lemma PassSplitFunction()
    ensures Transition(At(Ctx0), At(Ctx1))
  {
    var prefix := [BindM, I1, I2, I3];
    assert Ctx0 == prefix + [C0] + [];
    assert Solve(C0, prefix, []) == Ok(prefix + [CA, CB] + []);
    assert prefix + [CA, CB] + [] == Ctx1;
    PassAt([BindM, I1, I2, I3], C0, [], Ctx1);
  }

  /** Pass 2: the applications of the arrow are split again. */
  lemma PassSplitArrow()
    ensures Transition(At(Ctx1), At(Ctx2))
  {
    var prefix := [BindM, I1, I2, I3];
    assert Ctx1 == prefix + [CA] + [CB];
    assert Solve(CA, prefix, [CB]) == Ok(prefix + [CF, CC] + [CB]);
    assert prefix + [CF, CC] + [CB] == Ctx2;
    PassAt([BindM, I1, I2, I3], CA, [CB], Ctx2);
  }

  /** Pass 3: the two arrow constructors agree, so their constraint goes. */
  lemma PassDropArrow()
    ensures Transition(At(Ctx2), At(Ctx3))
  {
    var prefix := [BindM, I1, I2, I3];
    assert Ctx2 == prefix + [CF] + [CC, CB];
    assert Solve(CF, prefix, [CC, CB]) == Ok(prefix + [CC, CB]);
    assert prefix + [CC, CB] == Ctx3;
    PassAt([BindM, I1, I2, I3], CF, [CC, CB], Ctx3);
  }

  /** `t2 -> t2` is a data type. */
  lemma Id2Kind()
    ensures KindOf(Id2) == Ok(DataKind)
  {
    assert KindOf(TypeApplication(FunCons, T2)) == Ok(ArrowKind(DataKind, DataKind));
  }

  /** Pass 4: `t1 ≡ t2 -> t2` floats below the intro of `t3`, which it does
      not mention. */
  lemma PassFloat()
    ensures Transition(At(Ctx3), At(Ctx4))
  {
    var prefix := [BindM, I1, I2, I3];
    assert Ctx3 == prefix + [CC] + [CB];
    Id2Kind();
    assert "t3" !in FreeVariables(Id2);
    assert FlexRigidRule(CC, "t1", Id2, I3) == Ok([CC, I3]);
    assert prefix[..3] + [CC, I3] + [CB] == Ctx4;
    PassAt(prefix, CC, [CB], Ctx4);
  }

  /** Pass 5: the intro of `t2`, which `t2 -> t2` mentions, is hoisted into
      the constraint's dependencies. */
  lemma PassHoist()
    ensures Transition(At(Ctx4), At(Ctx5))
  {
    var prefix := [BindM, I1, I2];
    assert Ctx4 == prefix + [CC] + [I3, CB];
    Id2Kind();
    assert "t2" in FreeVariables(Id2);
    assert [I2] + CC.dependencies == [I2];
    assert FlexRigidRule(CC, "t1", Id2, I2) == Ok([CD]);
    assert prefix[..2] + [CD] + [I3, CB] == Ctx5;
    PassAt(prefix, CC, [I3, CB], Ctx5);
  }

  /** Pass 6: at its own intro, `t1` is defined as `t2 -> t2`, with the
      hoisted intro of `t2` put back just before the definition. */
  lemma PassDefine()
    ensures Transition(At(Ctx5), At(Ctx6))
  {
    var prefix := [BindM, I1];
    assert Ctx5 == prefix + [CD] + [I3, CB];
    Id2Kind();
    assert "t1" !in FreeVariables(Id2);
    assert CD.dependencies + [D1] == [I2, D1];
    assert FlexRigidRule(CD, "t1", Id2, I1) == Ok([I2, D1]);
    assert prefix[..1] + [I2, D1] + [I3, CB] == Ctx6;
    PassAt(prefix, CD, [I3, CB], Ctx6);
  }

  /** Pass 7: `t1 ≡ t3` meets the intro of `t3`, which becomes `t3 := t1`. */
  lemma PassUnifyVariables()
    ensures Transition(At(Ctx6), At(Ctx7))
  {
    var prefix := [BindM, I2, D1, I3];
    assert Ctx6 == prefix + [CB] + [];
    assert VariablesRule(CB, "t1", "t3", I3) == Ok([D3]);
    assert prefix[..3] + [D3] + [] == Ctx7;
    PassAt(prefix, CB, [], Ctx7);
  }

  /** A pass of the loop takes one unit of fuel. */
  lemma Chain(a: InferenceState, b: InferenceState, fuel: nat)
    requires Transition(a, b) && fuel > 0
    ensures Unified(a, fuel) == Unified(b, fuel - 1)
  {
    UnifiedStep(a, fuel);
  }

  /** The loop runs the seven passes and stops with no constraint left. */
  lemma UnifyExample(fuel: nat)
    requires fuel >= 7
    ensures Unified(At(Ctx0), fuel) == Ok(At(Ctx7))
  {
    assert Unified(At(Ctx0), fuel) == Unified(At(Ctx1), fuel - 1) by {
      PassSplitFunction();
      Chain(At(Ctx0), At(Ctx1), fuel);
    }
    assert Unified(At(Ctx1), fuel - 1) == Unified(At(Ctx2), fuel - 2) by {
      PassSplitArrow();
      Chain(At(Ctx1), At(Ctx2), fuel - 1);
    }
    assert Unified(At(Ctx2), fuel - 2) == Unified(At(Ctx3), fuel - 3) by {
      PassDropArrow();
      Chain(At(Ctx2), At(Ctx3), fuel - 2);
    }
    assert Unified(At(Ctx3), fuel - 3) == Unified(At(Ctx4), fuel - 4) by {
      PassFloat();
      Chain(At(Ctx3), At(Ctx4), fuel - 3);
    }
    assert Unified(At(Ctx4), fuel - 4) == Unified(At(Ctx5), fuel - 5) by {
      PassHoist();
      Chain(At(Ctx4), At(Ctx5), fuel - 4);
    }
    assert Unified(At(Ctx5), fuel - 5) == Unified(At(Ctx6), fuel - 6) by {
      PassDefine();
      Chain(At(Ctx5), At(Ctx6), fuel - 5);
    }
    assert Unified(At(Ctx6), fuel - 6) == Unified(At(Ctx7), fuel - 7) by {
      PassUnifyVariables();
      Chain(At(Ctx6), At(Ctx7), fuel - 6);
    }
    assert !HasConstraint(Ctx7) by {
      forall i | 0 <= i < |Ctx7| ensures !Ctx7[i].TypeConstraint? {
      }
    }
  }

  // ---------------------------------------------------------------------
  // The driver around the loop.

  const S1: Stream := Stream(map["t" := 1])
  const S2: Stream := Stream(map["t" := 2])
  const S3: Stream := Stream(map["t" := 3])

  /** `let m = λa.a in m m`. */
  const LetTerm: Term := LetBinding("m", LambdaAbstraction("a", TermVariable("a")),
    Application(TermVariable("m"), TermVariable("m")))

  /** A draw of "t" from a stream whose counter is a digit. */
  lemma Draw(n: nat)
    requires n < 9
    ensures Next(Stream(map["t" := n]), "t") == (Stream(map["t" := n + 1]), "t" + [Digit(n)])
  {
    assert map["t" := n]["t" := n + 1] == map["t" := n + 1];
  }

  /** `let` generalises the identity to `forall t0. t0 -> t0`, drawing `t0`
      and leaving the context as it was. */
  lemma GeneralizeIdentity(fuel: nat)
    ensures InferGeneralized(InferenceState(Empty, []), LambdaAbstraction("a", TermVariable("a")), fuel)
      == Ok((InferenceState(S1, []), IdScheme, []))
  {
    var marked := InferenceState(Empty, [LocalityMarker]);
    assert Push(InferenceState(Empty, []), LocalityMarker) == marked;
    assert map[]["t" := 1] == map["t" := 1];
    assert "t" + "0" == "t0";
    assert Next(Empty, "t") == (S1, "t0");
    var i0 := TypeVariableIntro("t0", DataKind);
    var b := TermVariableBinding("a", TypeScheme(QualifiedType([], T0), []));
    var inner := InferenceState(S1, [LocalityMarker, i0, b]);
    assert Push(Push(InferenceState(S1, [LocalityMarker]), i0), b) == inner;
    assert LastBinding(inner.context, "a") == Some(2);
    assert inner.context + [] == inner.context;
    assert InferTerm(inner, TermVariable("a"), fuel) == Ok((inner, QualifiedType([], T0)));
    assert inner.context[..2] + inner.context[3..] == [LocalityMarker, i0];
    var popped := InferenceState(S1, [LocalityMarker, i0]);
    assert PopBinding(inner, "a") == Ok(popped);
    var body := QualifiedType([], FunOf(T0, T0));
    assert InferTerm(marked, LambdaAbstraction("a", TermVariable("a")), fuel) == Ok((popped, body));
    var item := SkimmedEntry("t0", DataKind, None);
    assert [LocalityMarker, i0][..1] == [LocalityMarker];
    assert Skimmed([LocalityMarker]) == Ok(([], []));
    assert SkimItem(i0) == Ok(item);
    assert [item] + [] == [item];
    assert Skimmed([LocalityMarker, i0]) == Ok(([], [item]));
    assert Reduce([], [], fuel) == Ok([]);
    assert SplitPredicates([], [], SkimmedNames([item]), fuel) == Ok(([], []));
    assert [item][..0] == [];
    assert SchemeBody([], body) == body && SchemeQuantified([]) == [];
    assert SchemeBody([item], body) == body;
    assert SchemeQuantified([item]) == [("t0", DataKind)];
    assert Scheme([item], body) == IdScheme;
    assert Skimmed(popped.context) == Ok(([], [item]));
  }

  /** The first use of `m` specialises it to `t1 -> t1`. */
  lemma SpecializeFirst(fuel: nat)
    ensures InferTerm(InferenceState(S1, [BindM]), TermVariable("m"), fuel)
      == Ok((InferenceState(S2, [BindM, I1]), QualifiedType([], FunOf(T1, T1))))
  {
    Draw(1);
    assert "t" + [Digit(1)] == "t1";
    var q := IdScheme.quantified;
    assert q[..0] == [];
    assert Next(S1, "t") == (S2, "t1");
    assert InstantiationIntros(q[..0], S1, "t") == ([], S1);
    assert [] + [I1] == [I1];
    assert InstantiationIntros(q, S1, "t") == ([I1], S2);
    assert InstantiatedBody(IdScheme.body, q, S1, "t") == QualifiedType([], FunOf(T1, T1));
    assert LastBinding([BindM], "m") == Some(0);
    assert [BindM] + [I1] == [BindM, I1];
    assert Specialization(InferenceState(S1, [BindM]), IdScheme)
      == (InferenceState(S2, [BindM, I1]), QualifiedType([], FunOf(T1, T1)));
  }

  /** The second use of `m` specialises it to `t2 -> t2`. */
  lemma SpecializeSecond(fuel: nat)
    ensures InferTerm(InferenceState(S2, [BindM, I1]), TermVariable("m"), fuel)
      == Ok((InferenceState(S3, [BindM, I1, I2]), QualifiedType([], Id2)))
  {
    Draw(2);
    assert "t" + [Digit(2)] == "t2";
    var q := IdScheme.quantified;
    assert q[..0] == [];
    assert Next(S2, "t") == (S3, "t2");
    assert InstantiationIntros(q[..0], S2, "t") == ([], S2);
    assert [] + [I2] == [I2];
    assert InstantiationIntros(q, S2, "t") == ([I2], S3);
    assert InstantiatedBody(IdScheme.body, q, S2, "t") == QualifiedType([], Id2);
    assert [BindM, I1][..1] == [BindM];
    assert LastBinding([BindM, I1], "m") == Some(0);
    assert [BindM, I1] + [I2] == [BindM, I1, I2];
    assert Specialization(InferenceState(S2, [BindM, I1]), IdScheme)
      == (InferenceState(S3, [BindM, I1, I2]), QualifiedType([], Id2));
  }

  /** `m m` draws `t3` for its result and solves `t1 -> t1 ≡ (t2 -> t2) -> t3`. */
  lemma ApplySelf(fuel: nat)
    requires fuel >= 7
    ensures InferTerm(InferenceState(S1, [BindM]), Application(TermVariable("m"), TermVariable("m")), fuel)
      == Ok((At(Ctx7), QualifiedType([], T3)))
  {
    var none: seq<Predicate> := [];
    SpecializeFirst(fuel);
    SpecializeSecond(fuel);
    ThirdDraw();
    UnifyExample(fuel);
    ApplicationStep(InferenceState(S1, [BindM]), TermVariable("m"), TermVariable("m"), fuel,
      (InferenceState(S2, [BindM, I1]), QualifiedType(none, FunOf(T1, T1))),
      (InferenceState(S3, [BindM, I1, I2]), QualifiedType(none, Id2)),
      InferenceState(S4, [BindM, I1, I2]), "t3", At(Ctx7));
    assert none + none == none;
  }

  /** One application: infer the function, then the argument, draw the
      result variable and unify. */
  lemma ApplicationStep(s: InferenceState, f: Term, a: Term, fuel: nat,
                        fr: (InferenceState, QualifiedType), ar: (InferenceState, QualifiedType),
                        s3: InferenceState, ret: string, s4: InferenceState)
    requires InferTerm(s, f, fuel) == Ok(fr) && InferTerm(fr.0, a, fuel) == Ok(ar)
    requires FreshName(ar.0) == (s3, ret)
    requires UnifyTypes(Push(s3, TypeVariableIntro(ret, DataKind)), fr.1.head,
      FunOf(ar.1.head, TypeVariable(ret, DataKind)), fuel) == Ok(s4)
    ensures InferTerm(s, Application(f, a), fuel)
      == Ok((s4, QualifiedType(fr.1.context + ar.1.context, TypeVariable(ret, DataKind))))
  {
  }

  /** The application draws `t3` and asks `t1 -> t1 ≡ (t2 -> t2) -> t3`. */
  lemma ThirdDraw()
    ensures FreshName(InferenceState(S3, [BindM, I1, I2])) == (InferenceState(S4, [BindM, I1, I2]), "t3")
    ensures Push(Push(InferenceState(S4, [BindM, I1, I2]), I3), C0) == At(Ctx0)
  {
    Draw(3);
    assert "t" + [Digit(3)] == "t3";
  }

  /** What inference leaves once `m` is popped: `t2`, then `t1 := t2 -> t2`
      and `t3 := t1`. */
  const Final: InferenceState := InferenceState(S4, [I2, D1, D3])

  /** One `let`: generalise the bound term, infer the body with the new
      binding, and pop that binding. */
  lemma LetStep(s: InferenceState, x: string, bound: Term, e: Term, fuel: nat,
                g: (InferenceState, TypeScheme, seq<Predicate>), er: (InferenceState, QualifiedType), popped: InferenceState)
    requires InferGeneralized(s, bound, fuel) == Ok(g)
    requires InferTerm(Push(g.0, TermVariableBinding(x, g.1)), e, fuel) == Ok(er)
    requires PopBinding(er.0, x) == Ok(popped)
    ensures InferTerm(s, LetBinding(x, bound, e), fuel) == Ok((popped, QualifiedType(g.2 + er.1.context, er.1.head)))
  {
  }

  /** The driver's part: `let m = λa.a in m m` has type `t3`. */
  lemma InferLet(fuel: nat)
    requires fuel >= 7
    ensures InferTerm(InferenceState(Empty, []), LetTerm, fuel) == Ok((Final, QualifiedType([], T3)))
  {
    var none: seq<Predicate> := [];
    var g := (InferenceState(S1, []), IdScheme, none);
    var er := (At(Ctx7), QualifiedType(none, T3));
    var bound := LambdaAbstraction("a", TermVariable("a"));
    var body := Application(TermVariable("m"), TermVariable("m"));
    assert InferGeneralized(InferenceState(Empty, []), bound, fuel) == Ok(g) by {
      GeneralizeIdentity(fuel);
    }
    assert InferTerm(Push(g.0, TermVariableBinding("m", g.1)), body, fuel) == Ok(er) by {
      assert Push(g.0, TermVariableBinding("m", g.1)) == InferenceState(S1, [BindM]);
      ApplySelf(fuel);
    }
    PopM();
    LetStep(InferenceState(Empty, []), "m", bound, body, fuel, g, er, Final);
    assert none + none == none;
  }

  /** Popping `m` leaves the entries after it. */
  lemma PopM()
    ensures PopBinding(At(Ctx7), "m") == Ok(Final)
  {
    assert LastBinding(Ctx7, "m") == Some(0) by {
      assert IsBindingOf(Ctx7[0], "m");
      assert forall j :: 0 < j < |Ctx7| ==> !IsBindingOf(Ctx7[j], "m");
    }
    assert Ctx7[..0] + Ctx7[1..] == Final.context;
  }

  lemma ApplySnoc(ctx: seq<Entry>, e: Entry, t: Type)
    ensures Apply(ctx + [e], t) == ApplyEntry(e, Apply(ctx, t))
  {
    assert (ctx + [e])[..|ctx + [e]| - 1] == ctx;
  }

  lemma ApplyLast(ctx: seq<Entry>, init: seq<Entry>, e: Entry, t: Type)
    requires ctx == init + [e]
    ensures Apply(ctx, t) == ApplyEntry(e, Apply(init, t))
  {
    ApplySnoc(init, e, t);
  }

  lemma NormalizeSnoc(ctx: seq<Entry>, e: Entry)
    ensures Normalize(ctx + [e]) == Normalize(ctx) + [NormalizeEntry(Normalize(ctx), e)]
  {
    assert (ctx + [e])[..|ctx + [e]| - 1] == ctx;
  }

  /** The final context normalised: `t3 := t1` becomes `t3 := t2 -> t2`. */
  lemma NormalizedFinal()
    ensures Normalize(Final.context) == [I2, D1, TypeVariableDefinition("t3", Id2)]
  {
    NormalizeSnoc([], I2);
    assert [] + [I2] == [I2];
    NormalizeSnoc([I2], D1);
    ApplySnoc([], I2, Id2);
    assert Normalize([I2] + [D1]) == [I2, D1];
    NormalizeSnoc([I2, D1], D3);
    ApplySnoc([], I2, T1);
    ApplySnoc([I2], D1, T1);
    assert Apply([I2, D1], T1) == Id2;
    assert [I2, D1] + [D3] == Final.context;
  }

  /** Normalising the final context makes `t3` stand for `t2 -> t2`. */
  lemma NormalizeFinal()
    ensures Apply(Normalize(Final.context), T3) == Id2
  {
    var d := TypeVariableDefinition("t3", Id2);
    NormalizedFinal();
    ApplyLast([I2], [], I2, T3);
    ApplyLast([I2, D1], [I2], D1, T3);
    ApplyLast([I2, D1, d], [I2, D1], d, T3);
  }

  /** `let m = λa.a in m m` is typed `t2 -> t2`: `m` was generalised before
      its two uses, which were specialised apart. */
  lemma LetExample(fuel: nat)
    requires fuel >= 7
    ensures Infer(InferenceState(Empty, []), LetTerm, fuel) == Ok(QualifiedType([], Id2))
  {
    InferLet(fuel);
    NormalizeFinal();
    assert ApplyPredicates(Normalize(Final.context), []) == [];
    assert Reduce(Final.context, [], fuel) == Ok([]);
  }
}
