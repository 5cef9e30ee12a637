/** The ordered context of the type-class engine (Inference.Typeclasses):
    the entries of the basic engine plus class declarations with their
    instances, and the registry operations on them (`ContextListExt`). */
module TcContext {
  import opened Results
  import opened Fresh
  import opened TcTypes
  import opened Bindings
  import opened TcSubstitutions
  import opened TcUnify

  datatype Entry =
    | TypeVariableIntro(name: string, kind: Kind)
    | TypeVariableDefinition(name: string, definition: Type)
    | TermVariableBinding(name: string, scheme: TypeScheme)
    | LocalityMarker
    | TypeclassDeclaration(name: string, instances: seq<TypeScheme>)
      /** A type constraint carries the intros hoisted above it. */
    | TypeConstraint(dependencies: seq<Entry>, left: Type, right: Type)

  // ---------------------------------------------------------------------
  // Apply and Normalize.

  /** `IContextEntry.Apply`: only a definition changes a type. */
  function ApplyEntry(e: Entry, t: Type): Type
  {
    if e.TypeVariableDefinition? then Substitute(t, e.name, e.definition) else t
  }

  /** `Apply`: the entries applied to `t` from the first to the last. */
  function Apply(ctx: seq<Entry>, t: Type): Type
  {
    if ctx == [] then t else ApplyEntry(ctx[|ctx| - 1], Apply(ctx[..|ctx| - 1], t))
  }

  /** A context without definitions leaves every type alone. */
  lemma {:induction false} ApplyWithoutDefinitions(ctx: seq<Entry>, t: Type)
    requires forall i :: 0 <= i < |ctx| ==> !ctx[i].TypeVariableDefinition?
    ensures Apply(ctx, t) == t
  {
    if ctx != [] {
      var init := ctx[..|ctx| - 1];
      assert forall i :: 0 <= i < |init| ==> init[i] == ctx[i];
      ApplyWithoutDefinitions(init, t);
    }
  }

  /** Applying a concatenated context applies the older part first. */
  lemma {:induction false} ApplyConcat(c1: seq<Entry>, c2: seq<Entry>, t: Type)
    ensures Apply(c1 + c2, t) == Apply(c2, Apply(c1, t))
  {
    if c2 != [] {
      assert (c1 + c2)[..|c1 + c2| - 1] == c1 + c2[..|c2| - 1];
      ApplyConcat(c1, c2[..|c2| - 1], t);
    } else {
      assert c1 + c2 == c1;
    }
  }

  /** `Apply` on a predicate: the fold rebuilds the predicate at every entry. */
  function ApplyPredicate(ctx: seq<Entry>, p: Predicate): Predicate
  {
    if ctx == [] then p
    else
      var prev := ApplyPredicate(ctx[..|ctx| - 1], p);
      Predicate(prev.name, ApplyEntry(ctx[|ctx| - 1], prev.arg))
  }

  /** Applying a context to a predicate keeps its class and applies the
      context to its argument. */
  lemma {:induction false} ApplyPredicateArgument(ctx: seq<Entry>, p: Predicate)
    ensures ApplyPredicate(ctx, p) == Predicate(p.name, Apply(ctx, p.arg))
  {
    if ctx != [] {
      ApplyPredicateArgument(ctx[..|ctx| - 1], p);
    }
  }

  function ApplyPredicates(ctx: seq<Entry>, ps: seq<Predicate>): (r: seq<Predicate>)
    ensures |r| == |ps|
    ensures forall i :: 0 <= i < |ps| ==> r[i] == Predicate(ps[i].name, Apply(ctx, ps[i].arg))
  {
    if ps == [] then []
    else
      ApplyPredicateArgument(ctx, ps[|ps| - 1]);
      ApplyPredicates(ctx, ps[..|ps| - 1]) + [ApplyPredicate(ctx, ps[|ps| - 1])]
  }

  /** `Apply` on a qualified type: every predicate and the head. */
  function ApplyQualified(ctx: seq<Entry>, q: QualifiedType): QualifiedType
  {
    QualifiedType(ApplyPredicates(ctx, q.context), Apply(ctx, q.head))
  }

  function NormalizeEntry(normalized: seq<Entry>, e: Entry): Entry
  {
    if e.TypeVariableDefinition? then TypeVariableDefinition(e.name, Apply(normalized, e.definition)) else e
  }

  /** `Normalize`: every definition's body rewritten by the normalised entries
      before it; every other entry kept. */
  function Normalize(ctx: seq<Entry>): seq<Entry>
  {
    if ctx == [] then []
    else
      var n := Normalize(ctx[..|ctx| - 1]);
      n + [NormalizeEntry(n, ctx[|ctx| - 1])]
  }

  /** Normalising keeps the length and every entry but definitions; a
      definition keeps its name and gets its body rewritten by the normalised
      entries before it. */
  lemma NormalizeShape(ctx: seq<Entry>)
    ensures |Normalize(ctx)| == |ctx|
    ensures forall i :: 0 <= i <= |ctx| ==> Normalize(ctx)[..i] == Normalize(ctx[..i])
    ensures forall i :: 0 <= i < |ctx| && !ctx[i].TypeVariableDefinition? ==> Normalize(ctx)[i] == ctx[i]
    ensures forall i :: 0 <= i < |ctx| && ctx[i].TypeVariableDefinition? ==>
      Normalize(ctx)[i] == TypeVariableDefinition(ctx[i].name, Apply(Normalize(ctx[..i]), ctx[i].definition))
  {
    NormalizeLength(ctx);
    forall i | 0 <= i <= |ctx|
      ensures Normalize(ctx)[..i] == Normalize(ctx[..i])
    {
      NormalizePrefix(ctx, i);
    }
    forall i | 0 <= i < |ctx|
      ensures Normalize(ctx)[i] == NormalizeEntry(Normalize(ctx[..i]), ctx[i])
    {
      NormalizeAt(ctx, i);
    }
  }

  lemma {:induction false} NormalizeLength(ctx: seq<Entry>)
    ensures |Normalize(ctx)| == |ctx|
  {
    if ctx != [] {
      NormalizeLength(ctx[..|ctx| - 1]);
    }
  }

  /** Normalising a prefix gives the prefix of the normalised context. */
  lemma {:induction false} NormalizePrefix(ctx: seq<Entry>, i: nat)
    requires i <= |ctx|
    ensures |Normalize(ctx)| == |ctx| && Normalize(ctx)[..i] == Normalize(ctx[..i])
    decreases |ctx|
  {
    NormalizeLength(ctx);
    if i < |ctx| {
      var init := ctx[..|ctx| - 1];
      NormalizePrefix(init, i);
      assert init[..i] == ctx[..i];
      var n := Normalize(init);
      assert Normalize(ctx) == n + [NormalizeEntry(n, ctx[|ctx| - 1])];
      assert (n + [NormalizeEntry(n, ctx[|ctx| - 1])])[..i] == n[..i];
    } else {
      assert ctx[..i] == ctx;
    }
  }

  /** The entry at `i` is normalised by the normalised entries before it. */
  lemma NormalizeAt(ctx: seq<Entry>, i: nat)
    requires i < |ctx|
    ensures |Normalize(ctx)| == |ctx| && Normalize(ctx)[i] == NormalizeEntry(Normalize(ctx[..i]), ctx[i])
  {
    NormalizePrefix(ctx, i + 1);
    var upto := ctx[..i + 1];
    assert upto[..i] == ctx[..i] && upto[i] == ctx[i];
    assert Normalize(upto) == Normalize(ctx[..i]) + [NormalizeEntry(Normalize(ctx[..i]), ctx[i])];
    assert Normalize(ctx)[i] == Normalize(ctx)[..i + 1][i];
  }


  // ---------------------------------------------------------------------
  // The class registry.

  predicate IsClass(e: Entry, name: string)
  {
    e.TypeclassDeclaration? && e.name == name
  }

  /** The position of the first declaration of class `name`. */
  function ClassIndex(ctx: seq<Entry>, name: string): (r: Option<nat>)
    ensures r.Some? ==>
      && r.value < |ctx|
      && IsClass(ctx[r.value], name)
      && (forall j :: 0 <= j < r.value ==> !IsClass(ctx[j], name))
    ensures r.None? <==> forall j :: 0 <= j < |ctx| ==> !IsClass(ctx[j], name)
  {
    if ctx == [] then None
    else if IsClass(ctx[0], name) then Some(0)
    else
      assert forall j :: 1 <= j < |ctx| ==> ctx[1..][j - 1] == ctx[j];
      match ClassIndex(ctx[1..], name)
      case None => None
      case Some(i) => Some(i + 1)
  }

  /** `FindClass`: the first declaration of the class, failing (as `First`
      does) when there is none. */
  function FindClass(ctx: seq<Entry>, name: string): (r: Result<Entry>)
    ensures r.Ok? ==> exists i :: (0 <= i < |ctx| && ctx[i] == r.value && IsClass(ctx[i], name)
      && forall j :: 0 <= j < i ==> !IsClass(ctx[j], name))
    ensures r.Err? <==> forall j :: 0 <= j < |ctx| ==> !IsClass(ctx[j], name)
    ensures r.Err? ==> r.error == NoSuchElement
  {
    match ClassIndex(ctx, name)
    case None => Err(NoSuchElement)
    case Some(i) => Ok(ctx[i])
  }

  /** `ModifyClass`: the first declaration of the class replaced in place by
      one with the given instances. */
  function ModifyClass(ctx: seq<Entry>, name: string, instances: seq<TypeScheme>): (r: Result<seq<Entry>>)
    ensures r.Err? <==> forall j :: 0 <= j < |ctx| ==> !IsClass(ctx[j], name)
    ensures r.Err? ==> r.error == NoSuchElement
    ensures r.Ok? ==> exists i :: (0 <= i < |ctx| && IsClass(ctx[i], name)
      && (forall j :: 0 <= j < i ==> !IsClass(ctx[j], name))
      && r.value == ctx[i := TypeclassDeclaration(name, instances)])
  {
    match ClassIndex(ctx, name)
    case None => Err(NoSuchElement)
    case Some(i) => Ok(ctx[i := TypeclassDeclaration(name, instances)])
  }

  /** After `ModifyClass` the class is found with its new instances, and
      every other class is found as before. */
  lemma ModifyThenFind(ctx: seq<Entry>, name: string, instances: seq<TypeScheme>, other: string)
    requires ModifyClass(ctx, name, instances).Ok?
    ensures FindClass(ModifyClass(ctx, name, instances).value, name) == Ok(TypeclassDeclaration(name, instances))
    ensures other != name ==> FindClass(ModifyClass(ctx, name, instances).value, other) == FindClass(ctx, other)
  {
    var i := ClassIndex(ctx, name).value;
    var m := ctx[i := TypeclassDeclaration(name, instances)];
    assert forall j :: 0 <= j < |ctx| && j != i ==> m[j] == ctx[j];
    assert forall j :: 0 <= j < |ctx| ==> (IsClass(m[j], other) <==> IsClass(ctx[j], other)) || j == i;
    if other != name {
      assert forall j :: 0 <= j < |ctx| ==> (IsClass(m[j], other) <==> IsClass(ctx[j], other));
      match ClassIndex(ctx, other)
      case None =>
      case Some(k) =>
        assert ClassIndex(m, other) == Some(k) by {
          assert IsClass(m[k], other);
        }
    }
  }

  /** `AddClass`: fails if the class exists, else appends its empty
      declaration. */
  function AddClass(ctx: seq<Entry>, className: string): (r: Result<seq<Entry>>)
    ensures r.Err? <==> exists i :: 0 <= i < |ctx| && IsClass(ctx[i], className)
    ensures r.Err? ==> r.error == ClassAlreadyDefined(className)
    ensures r.Ok? ==> r.value == ctx + [TypeclassDeclaration(className, [])]
  {
    if ClassIndex(ctx, className).Some? then Err(ClassAlreadyDefined(className))
    else Ok(ctx + [TypeclassDeclaration(className, [])])
  }

  /** A class just added is found with no instances, and every other class
      is found as before. */
  lemma AddThenFind(ctx: seq<Entry>, className: string, other: string)
    requires AddClass(ctx, className).Ok?
    ensures FindClass(AddClass(ctx, className).value, className) == Ok(TypeclassDeclaration(className, []))
    ensures other != className ==> FindClass(AddClass(ctx, className).value, other) == FindClass(ctx, other)
  {
    var a := ctx + [TypeclassDeclaration(className, [])];
    assert forall j :: 0 <= j < |ctx| ==> a[j] == ctx[j];
    assert ClassIndex(a, className) == Some(|ctx|) by {
      assert IsClass(a[|ctx|], className);
    }
    if other != className {
      match ClassIndex(ctx, other)
      case None =>
        assert forall j :: 0 <= j < |a| ==> !IsClass(a[j], other);
      case Some(k) =>
        assert ClassIndex(a, other) == Some(k) by {
          assert IsClass(a[k], other);
        }
    }
  }

  // ---------------------------------------------------------------------
  // Instantiation of a scheme.

  /** The intros `Instantiate` pushes, one per quantified variable in
      order, each named by the stream's next counter for `prefix`, and the stream
      after those draws. */
  function InstantiationIntros(quantified: seq<(string, Kind)>, stream: Stream, prefix: string): (seq<Entry>, Stream)
  {
    if quantified == [] then ([], stream)
    else
      var prev := InstantiationIntros(quantified[..|quantified| - 1], stream, prefix);
      var next := Next(prev.1, prefix);
      (prev.0 + [TypeVariableIntro(next.1, quantified[|quantified| - 1].1)], next.0)
  }

  /** The body with each quantified variable, in order, replaced by the
      fresh variable its intro names. */
  function InstantiatedBody(body: QualifiedType, quantified: seq<(string, Kind)>, stream: Stream, prefix: string): QualifiedType
  {
    if quantified == [] then body
    else
      var init := quantified[..|quantified| - 1];
      var tname := Next(InstantiationIntros(init, stream, prefix).1, prefix).1;
      var kind := quantified[|quantified| - 1].1;
      SubstituteQualified(InstantiatedBody(body, init, stream, prefix), quantified[|quantified| - 1].0, TypeVariable(tname, kind))
  }

  /** What `Instantiate` computes: the instantiated body, the intros and
      the stream after the draws. */
  function Instantiation(body: QualifiedType, quantified: seq<(string, Kind)>, stream: Stream, prefix: string): (QualifiedType, seq<Entry>, Stream)
  {
    (InstantiatedBody(body, quantified, stream, prefix), InstantiationIntros(quantified, stream, prefix).0, InstantiationIntros(quantified, stream, prefix).1)
  }

  /** `TypeScheme.Instantiate`. The loop draws from a copy of the stream and
      never writes it back, so the caller's stream comes back unchanged. */
  method Instantiate(scheme: TypeScheme, context: seq<Entry>, stream: Stream)
    returns (result: QualifiedType, contextOut: seq<Entry>, streamOut: Stream)
    ensures result == Instantiation(scheme.body, scheme.quantified, stream, "tc").0
    ensures contextOut == context + Instantiation(scheme.body, scheme.quantified, stream, "tc").1
    ensures streamOut == stream
  {
    var state := stream;
    result := scheme.body;
    contextOut := context;
    for i := 0 to |scheme.quantified|
      invariant result == InstantiatedBody(scheme.body, scheme.quantified[..i], stream, "tc")
      invariant contextOut == context + InstantiationIntros(scheme.quantified[..i], stream, "tc").0
      invariant state == InstantiationIntros(scheme.quantified[..i], stream, "tc").1
    {
      var name, kind := scheme.quantified[i].0, scheme.quantified[i].1;
      assert scheme.quantified[..i + 1][..i] == scheme.quantified[..i];
      var tname := Next(state, "tc").1;
      state := Next(state, "tc").0;
      contextOut := contextOut + [TypeVariableIntro(tname, kind)];
      result := SubstituteQualified(result, name, TypeVariable(tname, kind));
    }
    assert scheme.quantified[..|scheme.quantified|] == scheme.quantified;
    streamOut := stream;
  }

  /** One intro per quantified variable; the stream advances by that many
      draws. */
  lemma {:induction false} InstantiationCount(quantified: seq<(string, Kind)>, stream: Stream, prefix: string)
    ensures |InstantiationIntros(quantified, stream, prefix).0| == |quantified|
    ensures Counter(InstantiationIntros(quantified, stream, prefix).1, prefix) == Counter(stream, prefix) + |quantified|
  {
    if quantified != [] {
      InstantiationCount(quantified[..|quantified| - 1], stream, prefix);
    }
  }

  /** The intros come in order, named `prefix` and the stream's next counters,
      each with its variable's kind. */
  lemma {:induction false} InstantiationNames(quantified: seq<(string, Kind)>, stream: Stream, prefix: string)
    ensures |InstantiationIntros(quantified, stream, prefix).0| == |quantified|
    ensures Counter(InstantiationIntros(quantified, stream, prefix).1, prefix) == Counter(stream, prefix) + |quantified|
    ensures forall i :: 0 <= i < |quantified| ==>
      InstantiationIntros(quantified, stream, prefix).0[i] == TypeVariableIntro(prefix + NatToString(Counter(stream, prefix) + i), quantified[i].1)
  {
    InstantiationCount(quantified, stream, prefix);
    if quantified != [] {
      var init := quantified[..|quantified| - 1];
      InstantiationNames(init, stream, prefix);
      InstantiationCount(init, stream, prefix);
      var prev := InstantiationIntros(init, stream, prefix).0;
      var r := InstantiationIntros(quantified, stream, prefix).0;
      assert r == prev + [TypeVariableIntro(prefix + NatToString(Counter(stream, prefix) + |init|), quantified[|init|].1)];
      forall i | 0 <= i < |init|
        ensures r[i] == TypeVariableIntro(prefix + NatToString(Counter(stream, prefix) + i), quantified[i].1)
      {
        assert init[i] == quantified[i];
        assert r[i] == prev[i];
      }
    }
  }

  /** Each scheme instantiated in turn, the stream threaded through. */
  function InstantiateAll(schemes: seq<TypeScheme>, stream: Stream): (seq<QualifiedType>, seq<seq<Entry>>, Stream)
  {
    if schemes == [] then ([], [], stream)
    else
      var prev := InstantiateAll(schemes[..|schemes| - 1], stream);
      var last := schemes[|schemes| - 1];
      var inst := Instantiation(last.body, last.quantified, prev.2, "tc");
      (prev.0 + [inst.0], prev.1 + [inst.1], inst.2)
  }

  /** Every entry is an intro of a "tc" variable whose counter is at least `c`. */
  ghost predicate NamedFrom(intros: seq<Entry>, c: nat)
  {
    forall j :: 0 <= j < |intros| ==>
      && intros[j].TypeVariableIntro?
      && exists n: nat :: n >= c && intros[j].name == "tc" + NatToString(n)
  }

  lemma NamedFromWeaken(intros: seq<Entry>, c: nat, d: nat)
    requires NamedFrom(intros, c) && d <= c
    ensures NamedFrom(intros, d)
  {
    forall j | 0 <= j < |intros|
      ensures intros[j].TypeVariableIntro?
      ensures exists n: nat :: n >= d && intros[j].name == "tc" + NatToString(n)
    {
      var n: nat :| n >= c && intros[j].name == "tc" + NatToString(n);
      assert n >= d;
    }
  }

  /** One scheme's intros are named from the stream's counter on, and the
      counter does not go back. */
  lemma InstantiationNamedFrom(quantified: seq<(string, Kind)>, stream: Stream)
    ensures NamedFrom(InstantiationIntros(quantified, stream, "tc").0, Counter(stream, "tc"))
    ensures Counter(InstantiationIntros(quantified, stream, "tc").1, "tc") >= Counter(stream, "tc")
  {
    InstantiationNames(quantified, stream, "tc");
    var intros := InstantiationIntros(quantified, stream, "tc").0;
    forall j | 0 <= j < |intros|
      ensures intros[j].TypeVariableIntro?
      ensures exists n: nat :: n >= Counter(stream, "tc") && intros[j].name == "tc" + NatToString(n)
    {
      var n: nat := Counter(stream, "tc") + j;
      assert intros[j].name == "tc" + NatToString(n);
    }
  }

  /** Threading the stream, every intro of the schemes is named by a counter
      at or past the one the stream started at. */
  lemma {:induction false} InstantiateAllNames(schemes: seq<TypeScheme>, stream: Stream)
    ensures var r := InstantiateAll(schemes, stream);
      && |r.0| == |schemes| && |r.1| == |schemes|
      && Counter(r.2, "tc") >= Counter(stream, "tc")
      && forall i :: 0 <= i < |schemes| ==> NamedFrom(r.1[i], Counter(stream, "tc"))
  {
    if schemes != [] {
      var init := schemes[..|schemes| - 1];
      InstantiateAllNames(init, stream);
      var prev := InstantiateAll(init, stream);
      var r := InstantiateAll(schemes, stream);
      var last := schemes[|schemes| - 1];
      InstantiationNamedFrom(last.quantified, prev.2);
      var intros := InstantiationIntros(last.quantified, prev.2, "tc").0;
      NamedFromWeaken(intros, Counter(prev.2, "tc"), Counter(stream, "tc"));
      assert r.1 == prev.1 + [intros];
      forall i | 0 <= i < |schemes|
        ensures NamedFrom(r.1[i], Counter(stream, "tc"))
      {
        if i < |init| {
          assert r.1[i] == prev.1[i];
        }
      }
    }
  }

  // ---------------------------------------------------------------------
  // Adding instances.

  /** Some head among `existing` overlaps `head`. */
  predicate AnyOverlap(existing: seq<QualifiedType>, head: Type)
  {
    exists i :: 0 <= i < |existing| && Overlap(existing[i].head, head)
  }

  /** `AddInstance` with only its stream defect kept: since `Instantiate`
      never advances the stream, the new instance and every existing one
      are instantiated from a fresh stream, so their variables are not
      renamed apart. The overlap test is the corrected `Overlap`, so the
      defect of `TypeApplication.Unify` is not reproduced here: with an
      existing `C ([] a)` and a new `C a` the source finds an overlap
      (the empty substitution) and this function does not. */
  function AddInstanceAsWritten(ctx: seq<Entry>, className: string, inst: TypeScheme): (r: Result<seq<Entry>>)
  {
    var tclass :- FindClass(ctx, className);
    var added := Instantiation(inst.body, inst.quantified, Empty, "tc").0;
    var existing := seq(|tclass.instances|, i requires 0 <= i < |tclass.instances| =>
      Instantiation(tclass.instances[i].body, tclass.instances[i].quantified, Empty, "tc").0);
    if AnyOverlap(existing, added.head) then Err(OverlappingInstance)
    else ModifyClass(ctx, className, tclass.instances + [inst])
  }

  /** `AddInstance` with the stream threaded through: the new instance is
      instantiated first, then the existing ones in order. It fails for a
      missing class or an overlapping instance; otherwise its only change is
      the new instance at the end of the class's list. */
  function AddInstance(ctx: seq<Entry>, className: string, inst: TypeScheme): (r: Result<seq<Entry>>)
    ensures r.Ok? ==> exists i :: (0 <= i < |ctx| && IsClass(ctx[i], className)
      && (forall j :: 0 <= j < i ==> !IsClass(ctx[j], className))
      && r.value == ctx[i := TypeclassDeclaration(className, ctx[i].instances + [inst])])
    ensures FindClass(ctx, className).Err? ==> r == Err(NoSuchElement)
    ensures FindClass(ctx, className).Ok? ==>
      var (added, _, s) := Instantiation(inst.body, inst.quantified, Empty, "tc");
      (r.Err? <==> AnyOverlap(InstantiateAll(FindClass(ctx, className).value.instances, s).0, added.head))
    ensures FindClass(ctx, className).Ok? && r.Err? ==> r.error == OverlappingInstance
  {
    var tclass :- FindClass(ctx, className);
    var (added, _, s) := Instantiation(inst.body, inst.quantified, Empty, "tc");
    var existing := InstantiateAll(tclass.instances, s).0;
    if AnyOverlap(existing, added.head) then Err(OverlappingInstance)
    else ModifyClass(ctx, className, tclass.instances + [inst])
  }

  /** The point of threading the stream: the fresh variables of the new
      instance and of every existing instance are all different. */
  lemma AddInstanceRenamesApart(inst: TypeScheme, instances: seq<TypeScheme>)
    ensures var (_, addedIntros, s) := Instantiation(inst.body, inst.quantified, Empty, "tc");
      var intross := InstantiateAll(instances, s).1;
      forall i, j, k :: 0 <= i < |intross| && 0 <= j < |intross[i]| && 0 <= k < |addedIntros| ==>
        && intross[i][j].TypeVariableIntro?
        && addedIntros[k].TypeVariableIntro?
        && intross[i][j].name != addedIntros[k].name
  {
    var (_, addedIntros, s) := Instantiation(inst.body, inst.quantified, Empty, "tc");
    InstantiationNames(inst.quantified, Empty, "tc");
    InstantiateAllNames(instances, s);
    var intross: seq<seq<Entry>> := InstantiateAll(instances, s).1;
    forall i, j, k | 0 <= i < |intross| && 0 <= j < |intross[i]| && 0 <= k < |addedIntros|
      ensures intross[i][j].TypeVariableIntro? && addedIntros[k].TypeVariableIntro?
      ensures intross[i][j].name != addedIntros[k].name
    {
      assert NamedFrom(intross[i], Counter(s, "tc"));
      var n: nat :| n >= Counter(s, "tc") && intross[i][j].name == "tc" + NatToString(n);
      if intross[i][j].name == addedIntros[k].name {
        SamePrefixNames("tc", n, k);
      }
    }
  }

  // The instance heads of the overlap example.
  const ListCons: Type := TypeConstructor("[]", ArrowKind(DataKind, DataKind))
  const AnyScheme: TypeScheme := TypeScheme(QualifiedType([], TypeVariable("a", DataKind)), [("a", DataKind)])
  const ListScheme: TypeScheme :=
    TypeScheme(QualifiedType([], TypeApplication(ListCons, TypeVariable("a", DataKind))), [("a", DataKind)])
  const ExampleClasses: seq<Entry> := [TypeclassDeclaration("C", [AnyScheme])]

  /** Both example schemes instantiated from a fresh stream: `tc0` and
      `[] tc0`. */
  lemma ExampleFromEmpty()
    ensures Instantiation(ListScheme.body, ListScheme.quantified, Empty, "tc")
      == (QualifiedType([], TypeApplication(ListCons, TypeVariable("tc0", DataKind))),
          [TypeVariableIntro("tc0", DataKind)], Stream(map["tc" := 1]))
    ensures Instantiation(AnyScheme.body, AnyScheme.quantified, Empty, "tc").0.head == TypeVariable("tc0", DataKind)
  {
    assert NatToString(0) == "0";
    assert "tc" + "0" == "tc0";
    assert Empty.counters["tc" := 1] == map["tc" := 1];
    assert Next(Empty, "tc") == (Stream(map["tc" := 1]), "tc0");
    var q := ListScheme.quantified;
    assert q[..0] == [] && AnyScheme.quantified[..0] == [];
    assert InstantiationIntros(q[..0], Empty, "tc") == ([], Empty);
    assert |q| == 1 && q[0] == ("a", DataKind);
    assert InstantiationIntros(q, Empty, "tc").0 == [] + [TypeVariableIntro(Next(Empty, "tc").1, DataKind)];
    assert InstantiationIntros(q, Empty, "tc").1 == Next(Empty, "tc").0;
    assert InstantiationIntros(q, Empty, "tc").0 == [TypeVariableIntro("tc0", DataKind)];
    assert InstantiationIntros(q, Empty, "tc").1 == Stream(map["tc" := 1]);
    assert InstantiationIntros(q, Empty, "tc") == ([TypeVariableIntro("tc0", DataKind)], Stream(map["tc" := 1]));
    assert InstantiatedBody(ListScheme.body, q, Empty, "tc")
      == SubstituteQualified(ListScheme.body, "a", TypeVariable("tc0", DataKind));
  }

  /** With `forall a. C a` declared, `forall a. C ([] a)` overlaps it, but as
      written both become `tc0` and `[] tc0`, which fail the occurs check, so
      the instance is accepted. */
  lemma AddInstanceAsWrittenCounterexample()
    ensures AddInstanceAsWritten(ExampleClasses, "C", ListScheme) ==
      Ok([TypeclassDeclaration("C", [AnyScheme, ListScheme])])
  {
    var tc0 := TypeVariable("tc0", DataKind);
    ExampleFromEmpty();
    assert KindOf(TypeApplication(ListCons, tc0)) == Ok(DataKind);
    assert !Overlap(tc0, TypeApplication(ListCons, tc0));
    var decl := TypeclassDeclaration("C", [AnyScheme]);
    assert IsClass(ExampleClasses[0], "C");
    assert FindClass(ExampleClasses, "C") == Ok(decl);
    var existing := seq(1, i requires 0 <= i < 1 =>
      Instantiation(decl.instances[i].body, decl.instances[i].quantified, Empty, "tc").0);
    assert existing[0].head == tc0;
    assert !AnyOverlap(existing, TypeApplication(ListCons, tc0));
    assert ClassIndex(ExampleClasses, "C") == Some(0);
    assert [AnyScheme] + [ListScheme] == [AnyScheme, ListScheme];
    assert ExampleClasses[0 := TypeclassDeclaration("C", [AnyScheme, ListScheme])]
      == [TypeclassDeclaration("C", [AnyScheme, ListScheme])];
    assert ModifyClass(ExampleClasses, "C", [AnyScheme] + [ListScheme]) ==
      Ok([TypeclassDeclaration("C", [AnyScheme, ListScheme])]);
  }

  /** Threading the stream, the existing instance becomes `tc1`, which
      unifies with `[] tc0`, so the instance is rejected. */
  lemma AddInstanceRejectsOverlap()
    ensures AddInstance(ExampleClasses, "C", ListScheme) == Err(OverlappingInstance)
  {
    var tc0 := TypeVariable("tc0", DataKind);
    var tc1 := TypeVariable("tc1", DataKind);
    ExampleFromEmpty();
    var s := Stream(map["tc" := 1]);
    assert NatToString(1) == "1";
    assert Next(s, "tc").1 == "tc1";
    assert [AnyScheme][..0] == [] && AnyScheme.quantified[..0] == [];
    assert InstantiateAll([AnyScheme], s).0[0].head == tc1;
    assert KindOf(TypeApplication(ListCons, tc0)) == Ok(DataKind);
    assert Overlap(tc1, TypeApplication(ListCons, tc0));
  }

  // ---------------------------------------------------------------------
  // Instance lookup and entailment.

  /** The first instance, in list order, whose head matches `arg`, with the
      match. A failing match before it is the result. */
  function FirstMatch(instances: seq<TypeScheme>, arg: Type): Result<Option<(nat, Subst)>>
  {
    if instances == [] then Ok(None)
    else
      var m :- Match(instances[0].body.head, arg);
      if m.Some? then Ok(Some((0, m.value)))
      else
        var rest :- FirstMatch(instances[1..], arg);
        if rest.None? then Ok(None) else Ok(Some((rest.value.0 + 1, rest.value.1)))
  }

  /** `FirstMatch` finds the first matching instance, or reports that none
      matches, or fails as the first failing match does. */
  lemma {:induction false} FirstMatchSpec(instances: seq<TypeScheme>, arg: Type)
    ensures var r := FirstMatch(instances, arg);
      r.Ok? && r.value.Some? ==>
        && r.value.value.0 < |instances|
        && Match(instances[r.value.value.0].body.head, arg) == Ok(Some(r.value.value.1))
        && forall j :: 0 <= j < r.value.value.0 ==> Match(instances[j].body.head, arg) == Ok(None)
    ensures var r := FirstMatch(instances, arg);
      r.Ok? && r.value.None? ==> forall j :: 0 <= j < |instances| ==> Match(instances[j].body.head, arg) == Ok(None)
    ensures var r := FirstMatch(instances, arg);
      r.Err? ==> exists j :: 0 <= j < |instances| && Match(instances[j].body.head, arg) == Err(r.error)
  {
    if instances != [] {
      assert forall j :: 1 <= j < |instances| ==> instances[1..][j - 1] == instances[j];
      FirstMatchSpec(instances[1..], arg);
      var m := Match(instances[0].body.head, arg);
      var r := FirstMatch(instances, arg);
      if m.Ok? && m.value.None? && r.Err? {
        var j :| 0 <= j < |instances[1..]| && Match(instances[1..][j].body.head, arg) == Err(r.error);
        assert Match(instances[j + 1].body.head, arg) == Err(r.error);
      }
    }
  }

  /** `GetInstanceSubgoals`: the predicates of the first instance whose head
      matches the argument, under that match; `None` when no instance
      matches. The class must be declared. */
  function GetInstanceSubgoals(ctx: seq<Entry>, p: Predicate): Result<Option<seq<Predicate>>>
  {
    var tclass :- FindClass(ctx, p.name);
    FirstMatchSpec(tclass.instances, p.arg);
    var m :- FirstMatch(tclass.instances, p.arg);
    match m
    case None => Ok(None)
    case Some((i, s)) => Ok(Some(TcSubstitutions.ApplyPredicates(s, tclass.instances[i].body.context)))
  }

  /** `GetInstanceSubgoals` needs the class; its subgoals come from the first
      instance whose head matches, and that head under the match is the
      predicate's argument; `None` means that no instance matches. */
  lemma GetInstanceSubgoalsSpec(ctx: seq<Entry>, p: Predicate)
    ensures FindClass(ctx, p.name).Err? ==> GetInstanceSubgoals(ctx, p) == Err(NoSuchElement)
    ensures var r := GetInstanceSubgoals(ctx, p);
      r.Ok? && r.value.Some? ==>
        var insts := FindClass(ctx, p.name).value.instances;
        exists i, s :: 0 <= i < |insts| && Match(insts[i].body.head, p.arg) == Ok(Some(s))
          && Equals(Simultaneous(s, insts[i].body.head), p.arg)
          && (forall j :: 0 <= j < i ==> Match(insts[j].body.head, p.arg) == Ok(None))
          && r.value.value == TcSubstitutions.ApplyPredicates(s, insts[i].body.context)
    ensures var r := GetInstanceSubgoals(ctx, p);
      r.Ok? && r.value.None? ==>
        var insts := FindClass(ctx, p.name).value.instances;
        forall j :: 0 <= j < |insts| ==> Match(insts[j].body.head, p.arg) == Ok(None)
  {
    var r := GetInstanceSubgoals(ctx, p);
    if FindClass(ctx, p.name).Ok? {
      FirstMatchSpec(FindClass(ctx, p.name).value.instances, p.arg);
    }
    if r.Ok? && r.value.Some? {
      var insts := FindClass(ctx, p.name).value.instances;
      var (i, s) := FirstMatch(insts, p.arg).value.value;
      assert Match(insts[i].body.head, p.arg) == Ok(Some(s));
    }
  }

  /** `Entails` as written: the subgoals of `test` must all be entailed,
      `conditions` is never consulted, and a missing instance (a null
      subgoal list) is dereferenced. The recursion is bounded by `fuel`. */
  function EntailsAsWritten(ctx: seq<Entry>, conditions: seq<Predicate>, test: Predicate, fuel: nat): Result<bool>
    decreases fuel, 0
  {
    if fuel == 0 then Err(OutOfFuel)
    else
      var subgoals :- GetInstanceSubgoals(ctx, test);
      if subgoals.None? then Err(NullDereference)
      else AllEntailedAsWritten(ctx, conditions, subgoals.value, fuel - 1)
  }

  /** `All`, stopping at the first subgoal not entailed. */
  function AllEntailedAsWritten(ctx: seq<Entry>, conditions: seq<Predicate>, goals: seq<Predicate>, fuel: nat): Result<bool>
    decreases fuel, 1, |goals|
  {
    if goals == [] then Ok(true)
    else
      var b :- EntailsAsWritten(ctx, conditions, goals[0], fuel);
      if b then AllEntailedAsWritten(ctx, conditions, goals[1..], fuel) else Ok(false)
  }

  /** As written, `Entails` never answers false: it answers true or fails. */
  lemma {:induction false} EntailsAsWrittenNeverFalse(ctx: seq<Entry>, conditions: seq<Predicate>, test: Predicate, fuel: nat)
    ensures EntailsAsWritten(ctx, conditions, test, fuel) != Ok(false)
    decreases fuel, 0
  {
    if fuel > 0 {
      var subgoals := GetInstanceSubgoals(ctx, test);
      if subgoals.Ok? && subgoals.value.Some? {
        AllAsWrittenNeverFalse(ctx, conditions, subgoals.value.value, fuel - 1);
      }
    }
  }

  lemma {:induction false} AllAsWrittenNeverFalse(ctx: seq<Entry>, conditions: seq<Predicate>, goals: seq<Predicate>, fuel: nat)
    ensures AllEntailedAsWritten(ctx, conditions, goals, fuel) != Ok(false)
    decreases fuel, 1, |goals|
  {
    if goals != [] {
      EntailsAsWrittenNeverFalse(ctx, conditions, goals[0], fuel);
      AllAsWrittenNeverFalse(ctx, conditions, goals[1..], fuel);
    }
  }

  /** As written, the answer does not depend on `conditions`. */
  lemma {:induction false} EntailsAsWrittenIgnoresConditions(ctx: seq<Entry>, c1: seq<Predicate>, c2: seq<Predicate>, test: Predicate, fuel: nat)
    ensures EntailsAsWritten(ctx, c1, test, fuel) == EntailsAsWritten(ctx, c2, test, fuel)
    decreases fuel, 0
  {
    if fuel > 0 {
      var subgoals := GetInstanceSubgoals(ctx, test);
      if subgoals.Ok? && subgoals.value.Some? {
        AllAsWrittenIgnoresConditions(ctx, c1, c2, subgoals.value.value, fuel - 1);
      }
    }
  }

  lemma {:induction false} AllAsWrittenIgnoresConditions(ctx: seq<Entry>, c1: seq<Predicate>, c2: seq<Predicate>, goals: seq<Predicate>, fuel: nat)
    ensures AllEntailedAsWritten(ctx, c1, goals, fuel) == AllEntailedAsWritten(ctx, c2, goals, fuel)
    decreases fuel, 1, |goals|
  {
    if goals != [] {
      EntailsAsWrittenIgnoresConditions(ctx, c1, c2, goals[0], fuel);
      AllAsWrittenIgnoresConditions(ctx, c1, c2, goals[1..], fuel);
    }
  }

  /** One of the conditions is the tested predicate. */
  predicate Assumed(conditions: seq<Predicate>, test: Predicate)
  {
    exists i :: 0 <= i < |conditions| && PredicateEquals(conditions[i], test)
  }

  /** `Entails` as intended (and as in "Typing Haskell in Haskell"): the
      tested predicate is one of the conditions, or an instance matches and
      all its subgoals are entailed; no matching instance means false. */
  function Entails(ctx: seq<Entry>, conditions: seq<Predicate>, test: Predicate, fuel: nat): (r: Result<bool>)
    ensures Assumed(conditions, test) ==> r == Ok(true)
    decreases fuel, 0
  {
    if Assumed(conditions, test) then Ok(true)
    else if fuel == 0 then Err(OutOfFuel)
    else
      var subgoals :- GetInstanceSubgoals(ctx, test);
      if subgoals.None? then Ok(false)
      else AllEntailed(ctx, conditions, subgoals.value, fuel - 1)
  }

  function AllEntailed(ctx: seq<Entry>, conditions: seq<Predicate>, goals: seq<Predicate>, fuel: nat): Result<bool>
    decreases fuel, 1, |goals|
  {
    if goals == [] then Ok(true)
    else
      var b :- Entails(ctx, conditions, goals[0], fuel);
      if b then AllEntailed(ctx, conditions, goals[1..], fuel) else Ok(false)
  }

  /** The corrected `Entails` agrees with the written one wherever that one
      answers. */
  lemma {:induction false} EntailsExtendsAsWritten(ctx: seq<Entry>, conditions: seq<Predicate>, test: Predicate, fuel: nat)
    requires EntailsAsWritten(ctx, conditions, test, fuel) == Ok(true)
    ensures Entails(ctx, conditions, test, fuel) == Ok(true)
    decreases fuel, 0
  {
    if !Assumed(conditions, test) {
      var subgoals := GetInstanceSubgoals(ctx, test);
      AllEntailedExtendsAsWritten(ctx, conditions, subgoals.value.value, fuel - 1);
    }
  }

  lemma {:induction false} AllEntailedExtendsAsWritten(ctx: seq<Entry>, conditions: seq<Predicate>, goals: seq<Predicate>, fuel: nat)
    requires AllEntailedAsWritten(ctx, conditions, goals, fuel) == Ok(true)
    ensures AllEntailed(ctx, conditions, goals, fuel) == Ok(true)
    decreases fuel, 1, |goals|
  {
    if goals != [] {
      EntailsExtendsAsWritten(ctx, conditions, goals[0], fuel);
      AllEntailedExtendsAsWritten(ctx, conditions, goals[1..], fuel);
    }
  }

  /** An answer other than running out of fuel is final: more fuel gives
      the same answer. */
  lemma {:induction false} EntailsMoreFuel(ctx: seq<Entry>, conditions: seq<Predicate>, test: Predicate, fuel: nat, more: nat)
    requires fuel <= more && Entails(ctx, conditions, test, fuel) != Err(OutOfFuel)
    ensures Entails(ctx, conditions, test, more) == Entails(ctx, conditions, test, fuel)
    decreases fuel, 0
  {
    if !Assumed(conditions, test) {
      var subgoals := GetInstanceSubgoals(ctx, test);
      if subgoals.Ok? && subgoals.value.Some? {
        AllEntailedMoreFuel(ctx, conditions, subgoals.value.value, fuel - 1, more - 1);
      }
    }
  }

  lemma {:induction false} AllEntailedMoreFuel(ctx: seq<Entry>, conditions: seq<Predicate>, goals: seq<Predicate>, fuel: nat, more: nat)
    requires fuel <= more && AllEntailed(ctx, conditions, goals, fuel) != Err(OutOfFuel)
    ensures AllEntailed(ctx, conditions, goals, more) == AllEntailed(ctx, conditions, goals, fuel)
    decreases fuel, 1, |goals|
  {
    if goals != [] {
      EntailsMoreFuel(ctx, conditions, goals[0], fuel, more);
      if Entails(ctx, conditions, goals[0], fuel) == Ok(true) {
        AllEntailedMoreFuel(ctx, conditions, goals[1..], fuel, more);
      }
    }
  }

  // The class environment of the type-class tests: `Eq` with instances for
  // `int` and, given `Eq a`, for `[] a`.
  const IntType: Type := TypeConstructor("int", DataKind)
  const EqList: TypeScheme := TypeScheme(
    QualifiedType([Predicate("Eq", TypeVariable("a", DataKind))], TypeApplication(ListCons, TypeVariable("a", DataKind))),
    [("a", DataKind)])
  const EqClasses: seq<Entry> := [TypeclassDeclaration("Eq", [TypeScheme(QualifiedType([], IntType), []), EqList])]

  /** `Eq t0`, the predicate inferred for `eq`, has no matching instance: as
      written `Entails` fails on it, while the corrected one answers false,
      or true once `Eq t0` is among the conditions. */
  lemma EntailsCounterexample()
    ensures EntailsAsWritten(EqClasses, [], Predicate("Eq", TypeVariable("t0", DataKind)), 1) == Err(NullDereference)
    ensures Entails(EqClasses, [], Predicate("Eq", TypeVariable("t0", DataKind)), 1) == Ok(false)
    ensures Entails(EqClasses, [Predicate("Eq", TypeVariable("t0", DataKind))], Predicate("Eq", TypeVariable("t0", DataKind)), 0) == Ok(true)
  {
    var test := Predicate("Eq", TypeVariable("t0", DataKind));
    assert FindClass(EqClasses, "Eq") == Ok(EqClasses[0]);
    FirstMatchSpec(EqClasses[0].instances, test.arg);
    assert GetInstanceSubgoals(EqClasses, test) == Ok(None);
    assert Assumed([test], test) by {
      assert [test][0] == test;
    }
  }
}
