/** The ordered context of the units-of-measure engine (Inference.Units,
    Context.cs and the constraint entries of Constraints.cs): kinded intros
    and definitions, term bindings, locality markers and the three kinds of
    pending constraint, with `Apply` and `Normalize`. Substitution may fail
    here (a float whose unit becomes a value type), so both are `Result`s. */
module UnitContext {
  import opened Results
  import A = UnitAlgebra
  import opened UnitTypes

  datatype Entry =
    | TypeVariableIntro(name: string, kind: Kind)
    | TypeVariableDefinition(name: string, definition: Type, kind: Kind)
    | TermVariableBinding(name: string, scheme: TypeScheme)
    | LocalityMarker
      /** `TypeConstraint`: two types to make equal, with the intros hoisted
          above it. */
    | TypeConstraint(dependencies: seq<Entry>, left: Type, right: Type)
      /** `FlexRigidHullConstraint`: a variable against the hull of a type. */
    | FlexRigidHullConstraint(dependencies: seq<Entry>, flex: string, rigid: Type)
      /** `UnitConstraint`: `1 == equation`, with at most one pending intro. */
    | UnitConstraint(dependency: Option<string>, equation: A.Unit)

  /** The entries `IConstraint` covers. */
  predicate IsConstraint(e: Entry)
  {
    e.TypeConstraint? || e.FlexRigidHullConstraint? || e.UnitConstraint?
  }

  /** `IContextEntry.Apply`: only a definition changes a type. */
  function ApplyEntry(e: Entry, t: Type): Result<Type>
  {
    if e.TypeVariableDefinition? then Substitute(t, e.name, e.definition) else Ok(t)
  }

  /** `Apply`: the entries applied to `t` from the first to the last; the
      first failing substitution ends the fold. */
  function Apply(ctx: seq<Entry>, t: Type): Result<Type>
  {
    if ctx == [] then Ok(t)
    else
      var prev :- Apply(ctx[..|ctx| - 1], t);
      ApplyEntry(ctx[|ctx| - 1], prev)
  }

  /** A context without definitions leaves every type alone. */
  lemma {:induction false} ApplyWithoutDefinitions(ctx: seq<Entry>, t: Type)
    requires forall i :: 0 <= i < |ctx| ==> !ctx[i].TypeVariableDefinition?
    ensures Apply(ctx, t) == Ok(t)
  {
    if ctx != [] {
      var init := ctx[..|ctx| - 1];
      assert forall i :: 0 <= i < |init| ==> init[i] == ctx[i];
      ApplyWithoutDefinitions(init, t);
    }
  }

  /** Applying a concatenated context applies the older part first, and
      fails where either part fails. */
  lemma {:induction false} ApplyConcat(c1: seq<Entry>, c2: seq<Entry>, t: Type)
    ensures Apply(c1, t).Err? ==> Apply(c1 + c2, t) == Apply(c1, t)
    ensures Apply(c1, t).Ok? ==> Apply(c1 + c2, t) == Apply(c2, Apply(c1, t).value)
  {
    if c2 != [] {
      assert (c1 + c2)[..|c1 + c2| - 1] == c1 + c2[..|c2| - 1];
      ApplyConcat(c1, c2[..|c2| - 1], t);
    } else {
      assert c1 + c2 == c1;
    }
  }

  /** A definition's body rewritten by the normalised entries before it. */
  function NormalizeEntry(normalized: seq<Entry>, e: Entry): Result<Entry>
  {
    if e.TypeVariableDefinition? then
      var body :- Apply(normalized, e.definition);
      Ok(TypeVariableDefinition(e.name, body, e.kind))
    else Ok(e)
  }

  /** `Normalize`: every definition's body rewritten by the normalised
      entries before it; every other entry kept. */
  function Normalize(ctx: seq<Entry>): Result<seq<Entry>>
  {
    if ctx == [] then Ok([])
    else
      var n :- Normalize(ctx[..|ctx| - 1]);
      var e :- NormalizeEntry(n, ctx[|ctx| - 1]);
      Ok(n + [e])
  }

  /** A successful normalisation keeps the length and every entry that is
      not a definition; a definition keeps its name and kind and gets its
      body rewritten by the normalised entries before it. */
  lemma NormalizeShape(ctx: seq<Entry>)
    requires Normalize(ctx).Ok?
    ensures |Normalize(ctx).value| == |ctx|
    ensures forall i :: 0 <= i <= |ctx| ==> Normalize(ctx[..i]).Ok? && Normalize(ctx).value[..i] == Normalize(ctx[..i]).value
    ensures forall i :: 0 <= i < |ctx| && !ctx[i].TypeVariableDefinition? ==> Normalize(ctx).value[i] == ctx[i]
    ensures forall i :: 0 <= i < |ctx| && ctx[i].TypeVariableDefinition? ==>
      && Apply(Normalize(ctx[..i]).value, ctx[i].definition).Ok?
      && Normalize(ctx).value[i]
        == TypeVariableDefinition(ctx[i].name, Apply(Normalize(ctx[..i]).value, ctx[i].definition).value, ctx[i].kind)
  {
    NormalizePrefix(ctx, |ctx|);
    forall i | 0 <= i <= |ctx|
      ensures Normalize(ctx[..i]).Ok? && Normalize(ctx).value[..i] == Normalize(ctx[..i]).value
    {
      NormalizePrefix(ctx, i);
    }
    forall i | 0 <= i < |ctx|
      ensures Normalize(ctx[..i]).Ok? && NormalizeEntry(Normalize(ctx[..i]).value, ctx[i]) == Ok(Normalize(ctx).value[i])
    {
      NormalizeAt(ctx, i);
    }
  }

  /** Normalising a prefix of a context that normalises gives the prefix of
      the normalised context. */
  lemma {:induction false} NormalizePrefix(ctx: seq<Entry>, i: nat)
    requires i <= |ctx| && Normalize(ctx).Ok?
    ensures |Normalize(ctx).value| == |ctx|
    ensures Normalize(ctx[..i]).Ok? && Normalize(ctx).value[..i] == Normalize(ctx[..i]).value
    decreases |ctx|
  {
    if ctx != [] {
      var init := ctx[..|ctx| - 1];
      var n := Normalize(init).value;
      var e := NormalizeEntry(n, ctx[|ctx| - 1]).value;
      assert Normalize(ctx).value == n + [e];
      if i < |ctx| {
        NormalizePrefix(init, i);
        assert init[..i] == ctx[..i];
        assert (n + [e])[..i] == n[..i];
      } else {
        NormalizePrefix(init, 0);
        assert ctx[..i] == ctx;
      }
    }
  }

  /** The entry at `i` is normalised by the normalised entries before it. */
  lemma NormalizeAt(ctx: seq<Entry>, i: nat)
    requires i < |ctx| && Normalize(ctx).Ok?
    ensures |Normalize(ctx).value| == |ctx| && Normalize(ctx[..i]).Ok?
    ensures NormalizeEntry(Normalize(ctx[..i]).value, ctx[i]) == Ok(Normalize(ctx).value[i])
  {
    NormalizePrefix(ctx, i + 1);
    NormalizePrefix(ctx, i);
    var upto := ctx[..i + 1];
    assert upto[..i] == ctx[..i] && upto[i] == ctx[i];
    var n := Normalize(ctx[..i]).value;
    assert Normalize(upto).value == n + [NormalizeEntry(n, ctx[i]).value];
    assert Normalize(ctx).value[i] == Normalize(ctx).value[..i + 1][i];
  }

  /** Normalisation fails only where a definition's body cannot be
      rewritten; a context without definitions normalises to itself. */
  lemma {:induction false} NormalizeWithoutDefinitions(ctx: seq<Entry>)
    requires forall i :: 0 <= i < |ctx| ==> !ctx[i].TypeVariableDefinition?
    ensures Normalize(ctx) == Ok(ctx)
  {
    if ctx != [] {
      var init := ctx[..|ctx| - 1];
      assert forall i :: 0 <= i < |init| ==> init[i] == ctx[i];
      NormalizeWithoutDefinitions(init);
      assert init + [ctx[|ctx| - 1]] == ctx;
    }
  }

  /** The scope entries of a context, in order: the term bindings and the
      locality markers, which no solving rule rewrites. */
  predicate IsScopeEntry(e: Entry)
  {
    e.TermVariableBinding? || e.LocalityMarker?
  }

  function Scope(ctx: seq<Entry>): seq<Entry>
  {
    if ctx == [] then [] else (if IsScopeEntry(ctx[0]) then [ctx[0]] else []) + Scope(ctx[1..])
  }

  lemma {:induction false} ScopeConcat(a: seq<Entry>, b: seq<Entry>)
    ensures Scope(a + b) == Scope(a) + Scope(b)
  {
    if a != [] {
      assert (a + b)[1..] == a[1..] + b;
      ScopeConcat(a[1..], b);
    } else {
      assert a + b == b;
    }
  }

  /** Entries none of which is a scope entry add nothing to the scope. */
  lemma {:induction false} NoScope(entries: seq<Entry>)
    requires forall i :: 0 <= i < |entries| ==> !IsScopeEntry(entries[i])
    ensures Scope(entries) == []
  {
    if entries != [] {
      assert forall i :: 0 <= i < |entries[1..]| ==> entries[1..][i] == entries[i + 1];
      NoScope(entries[1..]);
    }
  }

  lemma Singleton(e: Entry)
    ensures Scope([e]) == if IsScopeEntry(e) then [e] else []
  {
    assert [e][1..] == [];
  }
}
