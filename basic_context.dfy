/** The ordered context of the Hindley-Milner engine (Inference.Basic): type
    variable declarations and definitions, term bindings, locality markers and
    the unsolved type constraints that live among them. */
module BasicContext {
  import opened BasicTypes

  datatype Entry =
    | TypeVariableIntro(name: string)
    | TypeVariableDefinition(name: string, definition: Type)
    | TermVariableBinding(name: string, scheme: TypeScheme)
    | LocalityMarker
      /** A type constraint carries the intros hoisted above it. */
    | TypeConstraint(dependencies: seq<Entry>, left: Type, right: Type)

  /** `IContextEntry.Apply`: only a definition changes a type. */
  function ApplyEntry(e: Entry, t: Type): Type
  {
    if e.TypeVariableDefinition? then Substitute(t, e.name, e.definition) else t
  }

  /** `Apply`: the context's entries applied to `t` from the first (oldest) to
      the last. */
  function Apply(ctx: seq<Entry>, t: Type): Type
  {
    if ctx == [] then t else ApplyEntry(ctx[|ctx| - 1], Apply(ctx[..|ctx| - 1], t))
  }

  /** Applying a concatenated context applies the older part first. */
  lemma {:induction false} ApplyConcat(c1: seq<Entry>, c2: seq<Entry>, t: Type)
    ensures Apply(c1 + c2, t) == Apply(c2, Apply(c1, t))
  {
    if c2 != [] {
      assert (c1 + c2)[..|c1 + c2| - 1] == c1 + c2[..|c2| - 1];
      ApplyConcat(c1, c2[..|c2| - 1], t);
    } else {
      assert c1 + c2 == c1;
    }
  }

  function NormalizeEntry(normalized: seq<Entry>, e: Entry): Entry
  {
    if e.TypeVariableDefinition? then TypeVariableDefinition(e.name, Apply(normalized, e.definition)) else e
  }

  /** `Normalize`: every definition's body rewritten by the normalised entries
      before it; every other entry kept. */
  function Normalize(ctx: seq<Entry>): seq<Entry>
  {
    if ctx == [] then []
    else
      var n := Normalize(ctx[..|ctx| - 1]);
      n + [NormalizeEntry(n, ctx[|ctx| - 1])]
  }

  /** Normalising keeps the length and every entry but definitions; a
      definition keeps its name and gets its body rewritten by the normalised
      entries before it. */
  lemma NormalizeShape(ctx: seq<Entry>)
    ensures |Normalize(ctx)| == |ctx|
    ensures forall i :: 0 <= i <= |ctx| ==> Normalize(ctx)[..i] == Normalize(ctx[..i])
    ensures forall i :: 0 <= i < |ctx| && !ctx[i].TypeVariableDefinition? ==> Normalize(ctx)[i] == ctx[i]
    ensures forall i :: 0 <= i < |ctx| && ctx[i].TypeVariableDefinition? ==>
      Normalize(ctx)[i] == TypeVariableDefinition(ctx[i].name, Apply(Normalize(ctx[..i]), ctx[i].definition))
  {
    NormalizeLength(ctx);
    forall i | 0 <= i <= |ctx|
      ensures Normalize(ctx)[..i] == Normalize(ctx[..i])
    {
      NormalizePrefix(ctx, i);
    }
    forall i | 0 <= i < |ctx|
      ensures Normalize(ctx)[i] == NormalizeEntry(Normalize(ctx[..i]), ctx[i])
    {
      NormalizeAt(ctx, i);
    }
  }

  lemma {:induction false} NormalizeLength(ctx: seq<Entry>)
    ensures |Normalize(ctx)| == |ctx|
  {
    if ctx != [] {
      NormalizeLength(ctx[..|ctx| - 1]);
    }
  }

  /** Normalising a prefix gives the prefix of the normalised context. */
  lemma {:induction false} NormalizePrefix(ctx: seq<Entry>, i: nat)
    requires i <= |ctx|
    ensures |Normalize(ctx)| == |ctx| && Normalize(ctx)[..i] == Normalize(ctx[..i])
    decreases |ctx|
  {
    NormalizeLength(ctx);
    if i < |ctx| {
      var init := ctx[..|ctx| - 1];
      NormalizePrefix(init, i);
      assert init[..i] == ctx[..i];
      var n := Normalize(init);
      assert Normalize(ctx) == n + [NormalizeEntry(n, ctx[|ctx| - 1])];
      assert (n + [NormalizeEntry(n, ctx[|ctx| - 1])])[..i] == n[..i];
    } else {
      assert ctx[..i] == ctx;
    }
  }

  /** The entry at `i` is normalised by the normalised entries before it. */
  lemma NormalizeAt(ctx: seq<Entry>, i: nat)
    requires i < |ctx|
    ensures |Normalize(ctx)| == |ctx| && Normalize(ctx)[i] == NormalizeEntry(Normalize(ctx[..i]), ctx[i])
  {
    NormalizePrefix(ctx, i + 1);
    var upto := ctx[..i + 1];
    assert upto[..i] == ctx[..i] && upto[i] == ctx[i];
    assert Normalize(upto) == Normalize(ctx[..i]) + [NormalizeEntry(Normalize(ctx[..i]), ctx[i])];
    assert Normalize(ctx)[i] == Normalize(ctx)[..i + 1][i];
  }


  predicate IsDeclaration(e: Entry)
  {
    e.TypeVariableIntro? || e.TypeVariableDefinition?
  }

  /** The type variables the context declares, introduced or defined. */
  function Declared(ctx: seq<Entry>): set<string>
  {
    if ctx == [] then {}
    else
      var last := ctx[|ctx| - 1];
      Declared(ctx[..|ctx| - 1]) + (if IsDeclaration(last) then {last.name} else {})
  }

  /** The type variables the context defines. */
  function Defined(ctx: seq<Entry>): set<string>
  {
    if ctx == [] then {}
    else
      var last := ctx[|ctx| - 1];
      Defined(ctx[..|ctx| - 1]) + (if last.TypeVariableDefinition? then {last.name} else {})
  }

  /** A name no entry declares is not declared. */
  lemma {:induction false} NotDeclared(ctx: seq<Entry>, x: string)
    requires forall i :: 0 <= i < |ctx| && IsDeclaration(ctx[i]) ==> ctx[i].name != x
    ensures x !in Declared(ctx)
  {
    if ctx != [] {
      var init := ctx[..|ctx| - 1];
      forall i | 0 <= i < |init| && IsDeclaration(init[i])
        ensures init[i].name != x
      {
        assert init[i] == ctx[i];
      }
      NotDeclared(init, x);
    }
  }

  /** The invariant of a well-formed context: each type variable is declared
      once, and a definition mentions only variables declared before it. */
  predicate WellScoped(ctx: seq<Entry>)
  {
    (forall i, j :: 0 <= i < j < |ctx| && IsDeclaration(ctx[i]) && IsDeclaration(ctx[j]) ==>
      ctx[i].name != ctx[j].name)
    && (forall i :: 0 <= i < |ctx| && ctx[i].TypeVariableDefinition? ==>
      FreeVariables(ctx[i].definition) <= Declared(ctx[..i]))
  }

  lemma WellScopedInit(ctx: seq<Entry>)
    requires ctx != [] && WellScoped(ctx)
    ensures WellScoped(ctx[..|ctx| - 1])
    ensures ctx[|ctx| - 1].TypeVariableDefinition? ==>
      FreeVariables(ctx[|ctx| - 1].definition) <= Declared(ctx[..|ctx| - 1])
  {
    var init := ctx[..|ctx| - 1];
    forall i | 0 <= i < |init| && init[i].TypeVariableDefinition?
      ensures FreeVariables(init[i].definition) <= Declared(init[..i])
    {
      assert init[..i] == ctx[..i];
    }
  }

  /** In a well-scoped context the last declaration is of a new name. */
  lemma LastDeclarationNew(ctx: seq<Entry>)
    requires ctx != [] && WellScoped(ctx) && IsDeclaration(ctx[|ctx| - 1])
    ensures ctx[|ctx| - 1].name !in Declared(ctx[..|ctx| - 1])
  {
    var init, x := ctx[..|ctx| - 1], ctx[|ctx| - 1].name;
    forall i | 0 <= i < |init| && IsDeclaration(init[i])
      ensures init[i].name != x
    {
      assert init[i] == ctx[i];
    }
    NotDeclared(init, x);
  }

  /** The purpose of normalisation: in a well-scoped context, applying the
      normalised context leaves no defined variable in a type and brings in
      only declared ones. */
  lemma {:induction false} NormalizeResolves(ctx: seq<Entry>, t: Type)
    requires WellScoped(ctx)
    ensures FreeVariables(Apply(Normalize(ctx), t)) <= FreeVariables(t) + Declared(ctx)
    ensures FreeVariables(Apply(Normalize(ctx), t)) !! Defined(ctx)
  {
    if ctx != [] {
      var k := |ctx| - 1;
      var init, e := ctx[..k], ctx[k];
      WellScopedInit(ctx);
      var n := Normalize(init);
      NormalizeResolves(init, t);
      var u := Apply(n, t);
      var ne := NormalizeEntry(n, e);
      assert Normalize(ctx) == n + [ne];
      assert (n + [ne])[..|n + [ne]| - 1] == n;
      assert Apply(Normalize(ctx), t) == ApplyEntry(ne, u);
      if e.TypeVariableDefinition? {
        var b := e.definition;
        NormalizeResolves(init, b);
        var b' := Apply(n, b);
        LastDeclarationNew(ctx);
        assert e.name !in FreeVariables(b');
        SubstituteFreeVariables(u, e.name, b');
      }
    }
  }
}
