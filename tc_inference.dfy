/** The inference driver of Inference.Typeclasses (TypeInference.cs): the
    state of inference, the loop that solves its pending constraints, and
    the recursive inference of a term's qualified type with let-bound
    generalisation by skimming the context down to a locality marker. */
module TcInference {
  import opened Results
  import opened Fresh
  import opened TcTypes
  import opened Bindings
  import opened TcContext
  import opened TcReduction
  import opened TcConstraints

  /** `InferenceState`: the fresh-name stream and the context. */
  datatype InferenceState = InferenceState(stream: Stream, context: seq<Entry>)

  // ---------------------------------------------------------------------
  // Solving the pending constraints (`InferenceState.Unify`).

  /** Some entry is a constraint. */
  predicate HasConstraint(ctx: seq<Entry>)
  {
    exists i :: 0 <= i < |ctx| && ctx[i].TypeConstraint?
  }

  /** The length of `TakeWhile(e => !(e is IConstraint))`. */
  function LeadingLength(ctx: seq<Entry>): (k: nat)
    ensures k <= |ctx|
    ensures forall i :: 0 <= i < k ==> !ctx[i].TypeConstraint?
    ensures k < |ctx| ==> ctx[k].TypeConstraint?
    ensures k < |ctx| <==> HasConstraint(ctx)
  {
    if ctx == [] || ctx[0].TypeConstraint? then 0
    else 1 + LeadingLength(ctx[1..])
  }

  /** One pass of the loop: the first constraint solved with the entries
      before it as prefix and those after it as suffix. */
  function Step(s: InferenceState): Result<InferenceState>
    requires HasConstraint(s.context)
  {
    var k := LeadingLength(s.context);
    var next :- Solve(s.context[k], s.context[..k], s.context[k + 1..]);
    Ok(InferenceState(s.stream, next))
  }

  /** What the loop returns when it may run at most `fuel` passes. */
  function Unified(s: InferenceState, fuel: nat): Result<InferenceState>
    decreases fuel, 0
  {
    if !HasConstraint(s.context) then Ok(s)
    else if fuel == 0 then Err(OutOfFuel)
    else Continued(s, fuel - 1)
  }

  /** One pass of the loop, then the rest of it. */
  function Continued(s: InferenceState, fuel: nat): Result<InferenceState>
    requires HasConstraint(s.context)
    decreases fuel, 1
  {
    var next :- Step(s);
    Unified(next, fuel)
  }

  /** `b` is what one pass of the loop makes of `a`. */
  predicate Transition(a: InferenceState, b: InferenceState)
  {
    HasConstraint(a.context) && Step(a) == Ok(b)
  }

  /** One more pass extends the run recorded so far. */
  lemma RunSnoc(states: seq<InferenceState>, next: InferenceState)
    requires |states| >= 1
    requires forall i :: 0 <= i < |states| - 1 ==> Transition(states[i], states[i + 1])
    requires Transition(states[|states| - 1], next)
    ensures forall i :: 0 <= i < |states| ==> Transition((states + [next])[i], (states + [next])[i + 1])
  {
    var t := states + [next];
    forall i | 0 <= i < |states|
      ensures Transition(t[i], t[i + 1])
    {
      if i < |states| - 1 {
        assert t[i] == states[i] && t[i + 1] == states[i + 1];
      } else {
        assert t[i] == states[|states| - 1] && t[i + 1] == next;
      }
    }
  }

  /** `InferenceState.Unify(out states)`: the state once no constraint is
      left, and every state the loop passed through. */
  method Unify(s: InferenceState, fuel: nat) returns (r: Result<InferenceState>, states: seq<InferenceState>)
    ensures r == Unified(s, fuel)
    ensures |states| >= 1 && states[0] == s
    ensures forall i :: 0 <= i < |states| - 1 ==> Transition(states[i], states[i + 1])
    ensures r.Ok? ==> r.value == states[|states| - 1] && !HasConstraint(r.value.context)
    ensures !HasConstraint(s.context) ==> r == Ok(s) && states == [s]
  {
    var state := s;
    states := [s];
    var n := 0;
    while HasConstraint(state.context)
      invariant 0 <= n <= fuel
      invariant |states| == n + 1 && states[0] == s && states[n] == state
      invariant forall i :: 0 <= i < n ==> Transition(states[i], states[i + 1])
      invariant n > 0 ==> HasConstraint(s.context)
      invariant Unified(s, fuel) == Unified(state, fuel - n)
      decreases fuel - n
    {
      if n == fuel {
        return Err(OutOfFuel), states;
      }
      var next := Step(state);
      UnifiedStep(state, fuel - n);
      if next.Err? {
        return Err(next.error), states;
      }
      RunSnoc(states, next.value);
      state := next.value;
      states := states + [state];
      n := n + 1;
    }
    r := Ok(state);
  }

  /** One pass of the loop, whatever its outcome. */
  lemma UnifiedStep(s: InferenceState, fuel: nat)
    requires HasConstraint(s.context) && fuel > 0
    ensures Step(s).Err? ==> Unified(s, fuel) == Err(Step(s).error)
    ensures Step(s).Ok? ==> Unified(s, fuel) == Unified(Step(s).value, fuel - 1)
  {
    assert Unified(s, fuel) == Continued(s, fuel - 1);
  }

  /** One more pass of fuel never changes an answer the loop reached. */
  lemma {:induction false} UnifiedMoreFuel(s: InferenceState, fuel: nat)
    requires Unified(s, fuel).Ok?
    ensures Unified(s, fuel + 1) == Unified(s, fuel)
    decreases fuel
  {
    if HasConstraint(s.context) {
      var next := UnifiedUnfold(s, fuel);
      UnifiedMoreFuel(next, fuel - 1);
    }
  }

  /** Any amount of extra fuel never changes an answer the loop reached. */
  lemma {:induction false} UnifiedFuelMonotone(s: InferenceState, fuel: nat, more: nat)
    requires Unified(s, fuel).Ok? && fuel <= more
    ensures Unified(s, more) == Unified(s, fuel)
    decreases more - fuel
  {
    if fuel < more {
      UnifiedMoreFuel(s, fuel);
      UnifiedFuelMonotone(s, fuel + 1, more);
    }
  }

  /** One pass of a loop that reached an answer. */
  lemma UnifiedUnfold(s: InferenceState, fuel: nat) returns (next: InferenceState)
    requires HasConstraint(s.context) && Unified(s, fuel).Ok?
    ensures fuel > 0 && Step(s) == Ok(next)
    ensures Unified(s, fuel) == Unified(next, fuel - 1)
    ensures Unified(s, fuel + 1) == Unified(next, fuel)
  {
    assert Unified(s, fuel) == Continued(s, fuel - 1);
    assert Unified(s, fuel + 1) == Continued(s, fuel);
    next := Step(s).value;
  }

  /** The first constraint of a context, the entries before it and after. */
  lemma FirstConstraint(ctx: seq<Entry>) returns (eq: Entry, prefix: seq<Entry>, suffix: seq<Entry>)
    requires HasConstraint(ctx)
    ensures eq.TypeConstraint? && ctx == prefix + [eq] + suffix
    ensures var k := LeadingLength(ctx); eq == ctx[k] && prefix == ctx[..k] && suffix == ctx[k + 1..]
  {
    var k := LeadingLength(ctx);
    eq, prefix, suffix := ctx[k], ctx[..k], ctx[k + 1..];
    assert ctx == prefix + [eq] + suffix;
  }

  /** The pieces of a well-formed context around one of its entries. */
  lemma Pieces(ctx: seq<Entry>, prefix: seq<Entry>, eq: Entry, suffix: seq<Entry>)
    requires ctx == prefix + [eq] + suffix && AllWellFormed(ctx)
    ensures WellFormedEntry(eq) && AllWellFormed(prefix) && AllWellFormed(suffix)
    ensures Scope(ctx) == Scope(prefix) + Scope([eq]) + Scope(suffix)
    ensures Declarations(ctx) == Declarations(prefix) + Declarations([eq]) + Declarations(suffix)
    ensures Declarations([eq]) == EntryDeclarations(eq)
    ensures Scope([eq]) == if IsScopeEntry(eq) then [eq] else []
  {
    assert eq in ctx;
    assert forall e :: e in prefix ==> e in ctx;
    assert forall e :: e in suffix ==> e in ctx;
    Reassembled(prefix, [eq], suffix);
    Singleton(eq);
  }

  /** One pass keeps the fresh stream, the scope entries in order, every
      declared type variable and the well-formedness of the constraints. */
  lemma StepKeeps(s: InferenceState)
    requires HasConstraint(s.context) && AllWellFormed(s.context) && Step(s).Ok?
    ensures Step(s).value.stream == s.stream
    ensures Scope(Step(s).value.context) == Scope(s.context)
    ensures Declarations(Step(s).value.context) == Declarations(s.context)
    ensures AllWellFormed(Step(s).value.context)
  {
    var eq, prefix, suffix := FirstConstraint(s.context);
    SolveKeeps(s.context, prefix, eq, suffix);
  }

  lemma SolveKeeps(ctx: seq<Entry>, prefix: seq<Entry>, eq: Entry, suffix: seq<Entry>)
    requires ctx == prefix + [eq] + suffix && AllWellFormed(ctx)
    requires eq.TypeConstraint? && Solve(eq, prefix, suffix).Ok?
    ensures Scope(Solve(eq, prefix, suffix).value) == Scope(ctx)
    ensures Declarations(Solve(eq, prefix, suffix).value) == Declarations(ctx)
    ensures AllWellFormed(Solve(eq, prefix, suffix).value)
  {
    Pieces(ctx, prefix, eq, suffix);
    var out := Solve(eq, prefix, suffix).value;
    assert Scope(out) == Scope(ctx) by {
      SolvePreservesScope(eq, prefix, suffix);
      assert Scope([eq]) == [];
    }
    assert Declarations(out) == Declarations(ctx) by {
      SolvePreservesDeclarations(eq, prefix, suffix);
    }
    SolvePreservesWellFormed(eq, prefix, suffix);
  }

  /** A finished loop leaves no constraint, keeps the fresh stream, every
      term binding, marker and class declaration in order, and every
      declared type variable. */
  lemma {:induction false} UnifiedKeeps(s: InferenceState, fuel: nat)
    requires AllWellFormed(s.context) && Unified(s, fuel).Ok?
    ensures !HasConstraint(Unified(s, fuel).value.context)
    ensures Unified(s, fuel).value.stream == s.stream
    ensures Scope(Unified(s, fuel).value.context) == Scope(s.context)
    ensures Declarations(Unified(s, fuel).value.context) == Declarations(s.context)
    decreases fuel
  {
    if HasConstraint(s.context) {
      StepKeeps(s);
      UnifiedKeeps(Step(s).value, fuel - 1);
    }
  }

  /** A context without constraints is well formed. */
  lemma ConstraintFreeWellFormed(ctx: seq<Entry>)
    requires !HasConstraint(ctx)
    ensures AllWellFormed(ctx)
  {
    forall e | e in ctx
      ensures WellFormedEntry(e)
    {
      var i :| 0 <= i < |ctx| && ctx[i] == e;
    }
  }

  // ---------------------------------------------------------------------
  // Terms and the small state operations.

  /** The four term forms the driver handles. */
  datatype Term =
    | TermVariable(name: string)
    | LambdaAbstraction(parameter: string, body: Term)
    | Application(func: Term, arg: Term)
    | LetBinding(binder: string, bound: Term, expression: Term)

  /** `Fresh(out name)`: a "t" name drawn from the state's stream. */
  function FreshName(s: InferenceState): (InferenceState, string)
  {
    var (stream, name) := Next(s.stream, "t");
    (InferenceState(stream, s.context), name)
  }

  /** `Push` (`AddIntro`, `AddBinding`, `AddMark`). */
  function Push(s: InferenceState, e: Entry): InferenceState
  {
    InferenceState(s.stream, s.context + [e])
  }

  predicate IsBindingOf(e: Entry, name: string)
  {
    e.TermVariableBinding? && e.name == name
  }

  /** `Last(c => c is TermVariableBinding b && b.Name == name)`, as an index. */
  function LastBinding(ctx: seq<Entry>, name: string): (r: Option<nat>)
    ensures r.Some? ==> r.value < |ctx| && IsBindingOf(ctx[r.value], name)
    ensures r.Some? ==> forall j :: r.value < j < |ctx| ==> !IsBindingOf(ctx[j], name)
    ensures r.None? ==> forall j :: 0 <= j < |ctx| ==> !IsBindingOf(ctx[j], name)
  {
    if ctx == [] then None
    else if IsBindingOf(ctx[|ctx| - 1], name) then Some(|ctx| - 1)
    else LastBinding(ctx[..|ctx| - 1], name)
  }

  /** `PopBinding`: removes the last binding of `name`; the entries are
      compared by reference, so exactly that entry goes. */
  function PopBinding(s: InferenceState, name: string): (r: Result<InferenceState>)
    ensures r.Err? <==> LastBinding(s.context, name).None?
    ensures r.Err? ==> r.error == NoSuchElement
    ensures r.Ok? ==> r.value.stream == s.stream && |r.value.context| == |s.context| - 1
    ensures r.Ok? ==> var i := LastBinding(s.context, name).value;
      r.value.context == s.context[..i] + s.context[i + 1..]
  {
    match LastBinding(s.context, name)
    case None => Err(NoSuchElement)
    case Some(i) => Ok(InferenceState(s.stream, s.context[..i] + s.context[i + 1..]))
  }

  /** Removing the last binding of a name whose binding is the last scope
      entry takes that scope entry away and nothing else. */
  lemma {:induction false} PopBindingScope(ctx: seq<Entry>, scope: seq<Entry>, b: Entry)
    requires Scope(ctx) == scope + [b] && b.TermVariableBinding?
    ensures LastBinding(ctx, b.name).Some?
    ensures var i := LastBinding(ctx, b.name).value; Scope(ctx[..i] + ctx[i + 1..]) == scope
    ensures var i := LastBinding(ctx, b.name).value; forall e :: e in ctx[..i] + ctx[i + 1..] ==> e in ctx
  {
    assert ctx != [];
    var init, e := ctx[..|ctx| - 1], ctx[|ctx| - 1];
    assert ctx == init + [e];
    ScopeConcat(init, [e]);
    Singleton(e);
    if IsScopeEntry(e) {
      var l := Scope(init) + [e];
      assert l == scope + [b];
      assert l[|l| - 1] == e && (scope + [b])[|scope|] == b;
      assert l[..|l| - 1] == Scope(init) && (scope + [b])[..|scope|] == scope;
      assert ctx[..|ctx| - 1] + ctx[|ctx|..] == init;
    } else {
      assert Scope(init) == scope + [b];
      PopBindingScope(init, scope, b);
      var i := LastBinding(init, b.name).value;
      assert LastBinding(ctx, b.name) == Some(i);
      var rest := init[..i] + init[i + 1..];
      RemovedBeforeLast(init, e, i);
      ScopeConcat(rest, [e]);
    }
  }

  /** Removing an entry before the last one keeps the last one last. */
  lemma RemovedBeforeLast<T>(init: seq<T>, e: T, i: nat)
    requires i < |init|
    ensures (init + [e])[..i] + (init + [e])[i + 1..] == (init[..i] + init[i + 1..]) + [e]
  {
    var ctx := init + [e];
    assert ctx[..i] == init[..i];
    assert ctx[i + 1..] == init[i + 1..] + [e];
  }

  // ---------------------------------------------------------------------
  // Specialisation of a scheme.

  /** What `Specialize` computes: one fresh "t" intro per quantified
      variable pushed in order, and the body with those variables put in. */
  function Specialization(s: InferenceState, scheme: TypeScheme): (InferenceState, QualifiedType)
  {
    var intros := InstantiationIntros(scheme.quantified, s.stream, "t");
    (InferenceState(intros.1, s.context + intros.0), InstantiatedBody(scheme.body, scheme.quantified, s.stream, "t"))
  }

  /** `Specialize`: the loop over the quantified variables. */
  method Specialize(s: InferenceState, scheme: TypeScheme) returns (state: InferenceState, specialized: QualifiedType)
    ensures (state, specialized) == Specialization(s, scheme)
  {
    state := s;
    specialized := scheme.body;
    for i := 0 to |scheme.quantified|
      invariant specialized == InstantiatedBody(scheme.body, scheme.quantified[..i], s.stream, "t")
      invariant state.context == s.context + InstantiationIntros(scheme.quantified[..i], s.stream, "t").0
      invariant state.stream == InstantiationIntros(scheme.quantified[..i], s.stream, "t").1
    {
      var name, kind := scheme.quantified[i].0, scheme.quantified[i].1;
      assert scheme.quantified[..i + 1][..i] == scheme.quantified[..i];
      var (next, tname) := FreshName(state);
      state := Push(next, TypeVariableIntro(tname, kind));
      specialized := SubstituteQualified(specialized, name, TypeVariable(tname, kind));
    }
    assert scheme.quantified[..|scheme.quantified|] == scheme.quantified;
  }

  /** Specialising pushes intros only, one per quantified variable, named
      "t" and the stream's next counters; the counter moves by that many. */
  lemma SpecializationIntros(s: InferenceState, scheme: TypeScheme)
    ensures var (out, _) := Specialization(s, scheme);
      && out.context[..|s.context|] == s.context
      && |out.context| == |s.context| + |scheme.quantified|
      && Counter(out.stream, "t") == Counter(s.stream, "t") + |scheme.quantified|
      && forall i :: 0 <= i < |scheme.quantified| ==>
        out.context[|s.context| + i] == TypeVariableIntro("t" + NatToString(Counter(s.stream, "t") + i), scheme.quantified[i].1)
  {
    InstantiationNames(scheme.quantified, s.stream, "t");
    var intros := InstantiationIntros(scheme.quantified, s.stream, "t").0;
    var out := s.context + intros;
    assert out[..|s.context|] == s.context;
    forall i | 0 <= i < |scheme.quantified|
      ensures out[|s.context| + i] == TypeVariableIntro("t" + NatToString(Counter(s.stream, "t") + i), scheme.quantified[i].1)
    {
      assert out[|s.context| + i] == intros[i];
    }
  }

  /** Entries that are all intros add no scope entry and no constraint. */
  lemma IntrosKeep(ctx: seq<Entry>, intros: seq<Entry>)
    requires forall i :: 0 <= i < |intros| ==> intros[i].TypeVariableIntro?
    requires !HasConstraint(ctx)
    ensures Scope(ctx + intros) == Scope(ctx)
    ensures !HasConstraint(ctx + intros)
  {
    NoScope(intros);
    ScopeConcat(ctx, intros);
    assert forall i :: 0 <= i < |ctx + intros| ==> (ctx + intros)[i] == if i < |ctx| then ctx[i] else intros[i - |ctx|];
  }

  /** Intros and definitions are not scope entries. */
  lemma {:induction false} NoScope(entries: seq<Entry>)
    requires forall i :: 0 <= i < |entries| ==> entries[i].TypeVariableIntro? || entries[i].TypeVariableDefinition?
    ensures Scope(entries) == []
  {
    if entries != [] {
      assert forall i :: 0 <= i < |entries[1..]| ==> entries[1..][i] == entries[i + 1];
      NoScope(entries[1..]);
    }
  }

  lemma SpecializationKeeps(s: InferenceState, scheme: TypeScheme)
    requires !HasConstraint(s.context)
    ensures Scope(Specialization(s, scheme).0.context) == Scope(s.context)
    ensures !HasConstraint(Specialization(s, scheme).0.context)
  {
    InstantiationNames(scheme.quantified, s.stream, "t");
    IntrosKeep(s.context, InstantiationIntros(scheme.quantified, s.stream, "t").0);
  }

  // ---------------------------------------------------------------------
  // Skimming the context down to the locality marker.

  /** What `SkimContext` records of a skimmed entry: its name, its kind and,
      for a definition, its body. */
  datatype SkimmedEntry = SkimmedEntry(name: string, kind: Kind, definition: Option<Type>)

  /** The record of one entry above the marker; only intros and definitions
      may be skimmed, and a definition's kind is that of its body. */
  function SkimItem(e: Entry): (r: Result<SkimmedEntry>)
    ensures r.Ok? <==> (e.TypeVariableIntro? || (e.TypeVariableDefinition? && KindOf(e.definition).Ok?))
    ensures e.TypeVariableIntro? ==> r == Ok(SkimmedEntry(e.name, e.kind, None))
    ensures e.TypeVariableDefinition? && r.Ok? ==> r.value == SkimmedEntry(e.name, KindOf(e.definition).value, Some(e.definition))
    ensures !e.TypeVariableIntro? && !e.TypeVariableDefinition? ==> r == Err(UnexpectedEntry)
  {
    match e
    case TypeVariableIntro(n, k) => Ok(SkimmedEntry(n, k, None))
    case TypeVariableDefinition(n, d) =>
      var k :- KindOf(d);
      Ok(SkimmedEntry(n, k, Some(d)))
    case _ => Err(UnexpectedEntry)
  }

  /** What `SkimContext` computes: the context below the topmost marker, and
      the records of the entries above it, topmost first. */
  function Skimmed(ctx: seq<Entry>): Result<(seq<Entry>, seq<SkimmedEntry>)>
  {
    if ctx == [] then Err(EmptySequence)
    else
      var last, rest := ctx[|ctx| - 1], ctx[..|ctx| - 1];
      if last.LocalityMarker? then Ok((rest, []))
      else
        var item :- SkimItem(last);
        var below :- Skimmed(rest);
        Ok((below.0, [item] + below.1))
  }

  /** The records skimmed so far in front of what the rest of the loop
      skims. */
  function Prepend(items: seq<SkimmedEntry>, r: Result<(seq<Entry>, seq<SkimmedEntry>)>)
    : Result<(seq<Entry>, seq<SkimmedEntry>)>
  {
    if r.Err? then r else Ok((r.value.0, items + r.value.1))
  }

  /** `SkimContext`: pops entries until it has popped a marker. */
  method SkimContext(s: InferenceState) returns (r: Result<(InferenceState, seq<SkimmedEntry>)>)
    ensures r.Err? <==> Skimmed(s.context).Err?
    ensures r.Err? ==> r.error == Skimmed(s.context).error
    ensures r.Ok? ==> r.value == (InferenceState(s.stream, Skimmed(s.context).value.0), Skimmed(s.context).value.1)
  {
    if |s.context| == 0 {
      return Err(EmptySequence);
    }
    var skimmed: seq<SkimmedEntry> := [];
    var last := s.context[|s.context| - 1];
    var newContext := s.context[..|s.context| - 1];
    assert newContext + [last] == s.context;
    PrependNothing(Skimmed(s.context));
    while !last.LocalityMarker?
      invariant Skimmed(s.context) == Prepend(skimmed, Skimmed(newContext + [last]))
      decreases |newContext|
    {
      var item := SkimItem(last);
      if item.Err? {
        SkimFails(newContext, last, skimmed);
        return Err(item.error);
      }
      SkimStep(newContext, last, skimmed);
      skimmed := skimmed + [item.value];
      if |newContext| == 0 {
        return Err(EmptySequence);
      }
      ghost var previous := newContext;
      last := newContext[|newContext| - 1];
      newContext := newContext[..|newContext| - 1];
      assert newContext + [last] == previous;
    }
    assert (newContext + [last])[..|newContext|] == newContext;
    assert skimmed + [] == skimmed;
    r := Ok((InferenceState(s.stream, newContext), skimmed));
  }

  lemma PrependNothing(r: Result<(seq<Entry>, seq<SkimmedEntry>)>)
    ensures Prepend([], r) == r
  {
    if r.Ok? {
      assert [] + r.value.1 == r.value.1;
    }
  }

  /** One pass of the skimming loop over an entry that is not a marker. */
  lemma SkimStep(rest: seq<Entry>, last: Entry, items: seq<SkimmedEntry>)
    requires !last.LocalityMarker? && SkimItem(last).Ok?
    ensures Prepend(items, Skimmed(rest + [last])) == Prepend(items + [SkimItem(last).value], Skimmed(rest))
  {
    assert (rest + [last])[..|rest|] == rest;
    var below := Skimmed(rest);
    if below.Ok? {
      assert items + ([SkimItem(last).value] + below.value.1) == items + [SkimItem(last).value] + below.value.1;
    }
  }

  /** The skimming loop stops at the first entry that may not be skimmed. */
  lemma SkimFails(rest: seq<Entry>, last: Entry, items: seq<SkimmedEntry>)
    requires !last.LocalityMarker? && SkimItem(last).Err?
    ensures Prepend(items, Skimmed(rest + [last])) == Err(SkimItem(last).error)
  {
    assert (rest + [last])[..|rest|] == rest;
  }

  /** A successful skim stopped at a marker: what it returns is the context
      below that marker, and one record per entry above it, topmost first. */
  lemma {:induction false} SkimmedShape(ctx: seq<Entry>) returns (m: nat)
    requires Skimmed(ctx).Ok?
    ensures m < |ctx| && ctx[m] == LocalityMarker
    ensures Skimmed(ctx).value.0 == ctx[..m]
    ensures |Skimmed(ctx).value.1| == |ctx| - m - 1
    ensures forall j :: 0 <= j < |ctx| - m - 1 ==> SkimItem(ctx[|ctx| - 1 - j]) == Ok(Skimmed(ctx).value.1[j])
  {
    var last, rest := ctx[|ctx| - 1], ctx[..|ctx| - 1];
    if last.LocalityMarker? {
      m := |ctx| - 1;
    } else {
      m := SkimmedShape(rest);
      var items := Skimmed(ctx).value.1;
      var below := Skimmed(rest).value.1;
      assert items == [SkimItem(last).value] + below;
      assert rest[..m] == ctx[..m];
      forall j | 0 <= j < |ctx| - m - 1
        ensures SkimItem(ctx[|ctx| - 1 - j]) == Ok(items[j])
      {
        if j > 0 {
          assert items[j] == below[j - 1];
          assert ctx[|ctx| - 1 - j] == rest[|rest| - 1 - (j - 1)];
        }
      }
    }
  }

  /** Conversely, a context whose entries above its topmost marker are all
      intros and well-kinded definitions skims down to what lies below
      that marker. */
  lemma {:induction false} SkimmedComplete(below: seq<Entry>, tail: seq<Entry>)
    requires forall i :: 0 <= i < |tail| ==> SkimItem(tail[i]).Ok?
    ensures Skimmed(below + [LocalityMarker] + tail).Ok?
    ensures Skimmed(below + [LocalityMarker] + tail).value.0 == below
    ensures |Skimmed(below + [LocalityMarker] + tail).value.1| == |tail|
    decreases |tail|
  {
    var ctx := below + [LocalityMarker] + tail;
    if tail == [] {
      assert ctx[..|ctx| - 1] == below;
    } else {
      var init := tail[..|tail| - 1];
      assert ctx[..|ctx| - 1] == below + [LocalityMarker] + init;
      assert ctx[|ctx| - 1] == tail[|tail| - 1];
      SkimmedComplete(below, init);
    }
  }

  /** A successful skim removes the topmost marker and the intros and
      definitions above it and no other scope entry; it adds no constraint. */
  lemma SkimmedKeeps(ctx: seq<Entry>)
    requires Skimmed(ctx).Ok?
    ensures Scope(ctx) == Scope(Skimmed(ctx).value.0) + [LocalityMarker]
    ensures !HasConstraint(ctx) ==> !HasConstraint(Skimmed(ctx).value.0)
  {
    var m := SkimmedShape(ctx);
    var above := ctx[m + 1..];
    forall i | 0 <= i < |above|
      ensures above[i].TypeVariableIntro? || above[i].TypeVariableDefinition?
    {
      var j := |ctx| - 1 - (m + 1 + i);
      assert above[i] == ctx[|ctx| - 1 - j];
      assert SkimItem(ctx[|ctx| - 1 - j]) == Ok(Skimmed(ctx).value.1[j]);
    }
    NoScope(above);
    assert ctx == ctx[..m] + [LocalityMarker] + above;
    Reassembled(ctx[..m], [LocalityMarker], above);
    Singleton(LocalityMarker);
    if !HasConstraint(ctx) {
      PrefixConstraintFree(ctx, m);
    }
  }

  lemma PrefixConstraintFree(ctx: seq<Entry>, m: nat)
    requires m <= |ctx| && !HasConstraint(ctx)
    ensures !HasConstraint(ctx[..m])
  {
    forall i | 0 <= i < m
      ensures !ctx[..m][i].TypeConstraint?
    {
      assert ctx[..m][i] == ctx[i];
    }
  }

  // ---------------------------------------------------------------------
  // Building the scheme of a let-bound term.

  /** The body `MakeScheme` builds: every skimmed definition substituted in
      skim order. */
  function SchemeBody(items: seq<SkimmedEntry>, body: QualifiedType): QualifiedType
  {
    if items == [] then body
    else
      var prev := SchemeBody(items[..|items| - 1], body);
      var last := items[|items| - 1];
      if last.definition.Some? then SubstituteQualified(prev, last.name, last.definition.value) else prev
  }

  /** The variables `MakeScheme` quantifies: every skimmed intro, in skim
      order, with its kind. */
  function SchemeQuantified(items: seq<SkimmedEntry>): seq<(string, Kind)>
  {
    if items == [] then []
    else
      var last := items[|items| - 1];
      SchemeQuantified(items[..|items| - 1]) + (if last.definition.None? then [(last.name, last.kind)] else [])
  }

  function Scheme(items: seq<SkimmedEntry>, body: QualifiedType): TypeScheme
  {
    TypeScheme(SchemeBody(items, body), SchemeQuantified(items))
  }

  /** `MakeScheme`: the loop over the skimmed entries. */
  method MakeScheme(items: seq<SkimmedEntry>, ungeneralized: QualifiedType) returns (scheme: TypeScheme)
    ensures scheme == Scheme(items, ungeneralized)
  {
    var generalized := ungeneralized;
    var quantified: seq<(string, Kind)> := [];
    for i := 0 to |items|
      invariant generalized == SchemeBody(items[..i], ungeneralized)
      invariant quantified == SchemeQuantified(items[..i])
    {
      assert items[..i + 1][..i] == items[..i];
      var item := items[i];
      if item.definition.Some? {
        generalized := SubstituteQualified(generalized, item.name, item.definition.value);
      } else {
        quantified := quantified + [(item.name, item.kind)];
      }
    }
    assert items[..|items|] == items;
    scheme := TypeScheme(generalized, quantified);
  }

  /** Exactly the skimmed intros are quantified, each with its kind. */
  lemma {:induction false} SchemeQuantifiedSpec(items: seq<SkimmedEntry>)
    ensures |SchemeQuantified(items)| <= |items|
    ensures forall n, k :: (n, k) in SchemeQuantified(items) <==> SkimmedEntry(n, k, None) in items
  {
    if items != [] {
      var init, last := items[..|items| - 1], items[|items| - 1];
      SchemeQuantifiedSpec(init);
      assert items == init + [last];
    }
  }

  /** Without skimmed definitions the body is kept as it is. */
  lemma {:induction false} SchemeBodyWithoutDefinitions(items: seq<SkimmedEntry>, body: QualifiedType)
    requires forall i :: 0 <= i < |items| ==> items[i].definition.None?
    ensures SchemeBody(items, body) == body
  {
    if items != [] {
      var init := items[..|items| - 1];
      assert forall i :: 0 <= i < |init| ==> init[i] == items[i];
      SchemeBodyWithoutDefinitions(init, body);
    }
  }

  // ---------------------------------------------------------------------
  // Inference.

  /** The private `Unify(left, right)`: the constraint pushed, then the loop. */
  function UnifyTypes(s: InferenceState, left: Type, right: Type, fuel: nat): Result<InferenceState>
  {
    Unified(Push(s, TypeConstraint([], left, right)), fuel)
  }

  /** The names of the skimmed entries. */
  function SkimmedNames(items: seq<SkimmedEntry>): set<string>
  {
    set i | 0 <= i < |items| :: items[i].name
  }

  /** The private `Infer(term, out type)`: the new state and the qualified
      type of the term. Every pass of the constraint loop and every
      reduction is bounded by `fuel`. */
  function InferTerm(s: InferenceState, t: Term, fuel: nat): Result<(InferenceState, QualifiedType)>
    decreases t, 0
  {
    match t
    case TermVariable(x) =>
      var i := LastBinding(s.context, x);
      if i.None? then Err(NoSuchElement) else Ok(Specialization(s, s.context[i.value].scheme))
    case LambdaAbstraction(x, body) =>
      var (s1, a) := FreshName(s);
      var argType := TypeVariable(a, DataKind);
      var s2 := Push(Push(s1, TypeVariableIntro(a, DataKind)), TermVariableBinding(x, TypeScheme(QualifiedType([], argType), [])));
      var inferred :- InferTerm(s2, body, fuel);
      var s4 :- PopBinding(inferred.0, x);
      Ok((s4, QualifiedType(inferred.1.context, FunOf(argType, inferred.1.head))))
    case Application(f, a) =>
      var fr :- InferTerm(s, f, fuel);
      var ar :- InferTerm(fr.0, a, fuel);
      var (s3, ret) := FreshName(ar.0);
      var retType := TypeVariable(ret, DataKind);
      var s4 :- UnifyTypes(Push(s3, TypeVariableIntro(ret, DataKind)), fr.1.head, FunOf(ar.1.head, retType), fuel);
      Ok((s4, QualifiedType(fr.1.context + ar.1.context, retType)))
    case LetBinding(x, bound, e) =>
      var g :- InferGeneralized(s, bound, fuel);
      var er :- InferTerm(Push(g.0, TermVariableBinding(x, g.1)), e, fuel);
      var s4 :- PopBinding(er.0, x);
      Ok((s4, QualifiedType(g.2 + er.1.context, er.1.head)))
  }

  /** `InferGeneralized`: the state after skimming, the scheme of the term
      and the predicates left deferred. */
  function InferGeneralized(s: InferenceState, t: Term, fuel: nat): Result<(InferenceState, TypeScheme, seq<Predicate>)>
    decreases t, 1
  {
    var inferred :- InferTerm(Push(s, LocalityMarker), t, fuel);
    var skim :- Skimmed(inferred.0.context);
    var split :- SplitPredicates(skim.0, inferred.1.context, SkimmedNames(skim.1), fuel);
    Ok((InferenceState(inferred.0.stream, skim.0), Scheme(skim.1, QualifiedType(split.1, inferred.1.head)), split.0))
  }

  /** The static `TypeInference.Infer`: the inferred type under the
      normalised final context, with its predicates reduced against the
      final context. */
  function Infer(initial: InferenceState, t: Term, fuel: nat): Result<QualifiedType>
  {
    var inferred :- InferTerm(initial, t, fuel);
    var normalized := ApplyQualified(Normalize(inferred.0.context), inferred.1);
    var reduced :- Reduce(inferred.0.context, normalized.context, fuel);
    Ok(QualifiedType(reduced, normalized.head))
  }

  // ---------------------------------------------------------------------
  // What inference keeps.

  /** Pushing an entry that is not a constraint adds no constraint and
      extends the scope by the entry if it is a scope entry. */
  lemma PushKeeps(ctx: seq<Entry>, e: Entry)
    requires !HasConstraint(ctx) && !e.TypeConstraint?
    ensures !HasConstraint(ctx + [e])
    ensures Scope(ctx + [e]) == Scope(ctx) + (if IsScopeEntry(e) then [e] else [])
  {
    ScopeConcat(ctx, [e]);
    Singleton(e);
    assert forall i :: 0 <= i < |ctx + [e]| ==> (ctx + [e])[i] == if i < |ctx| then ctx[i] else e;
  }

  /** Removing the binding pushed for a lambda or a let takes the scope back
      to what it was before the push. */
  lemma PopKeeps(s: InferenceState, scope: seq<Entry>, b: Entry)
    requires !HasConstraint(s.context) && Scope(s.context) == scope + [b] && b.TermVariableBinding?
    ensures PopBinding(s, b.name).Ok?
    ensures var out := PopBinding(s, b.name).value.context;
      Scope(out) == scope && !HasConstraint(out)
  {
    var ctx := s.context;
    PopBindingScope(ctx, scope, b);
    var i := LastBinding(ctx, b.name).value;
    var out := ctx[..i] + ctx[i + 1..];
    forall j | 0 <= j < |out|
      ensures !out[j].TypeConstraint?
    {
      assert out[j] in ctx;
    }
  }

  lemma CancelLast(a: seq<Entry>, b: seq<Entry>, e: Entry)
    requires a + [e] == b + [e]
    ensures a == b
  {
    assert a == (a + [e])[..|a|];
    assert b == (b + [e])[..|b|];
  }

  /** Inference in a context without pending constraints leaves none, and
      it leaves every term binding, locality marker and class declaration
      of the context as it found them, in order. */
  lemma {:induction false} InferTermKeeps(s: InferenceState, t: Term, fuel: nat)
    requires !HasConstraint(s.context) && InferTerm(s, t, fuel).Ok?
    ensures !HasConstraint(InferTerm(s, t, fuel).value.0.context)
    ensures Scope(InferTerm(s, t, fuel).value.0.context) == Scope(s.context)
    decreases t, 1
  {
    match t
    case TermVariable(x) =>
      SpecializationKeeps(s, s.context[LastBinding(s.context, x).value].scheme);
    case LambdaAbstraction(_, _) => LambdaKeeps(s, t, fuel);
    case Application(_, _) => ApplicationKeeps(s, t, fuel);
    case LetBinding(_, _, _) => LetKeeps(s, t, fuel);
  }

  lemma {:induction false} LambdaKeeps(s: InferenceState, t: Term, fuel: nat)
    requires t.LambdaAbstraction?
    requires !HasConstraint(s.context) && InferTerm(s, t, fuel).Ok?
    ensures !HasConstraint(InferTerm(s, t, fuel).value.0.context)
    ensures Scope(InferTerm(s, t, fuel).value.0.context) == Scope(s.context)
    decreases t, 0
  {
    var (s1, a) := FreshName(s);
    var argType := TypeVariable(a, DataKind);
    var b := TermVariableBinding(t.parameter, TypeScheme(QualifiedType([], argType), []));
    var s2 := Push(Push(s1, TypeVariableIntro(a, DataKind)), b);
    PushKeeps(s.context, TypeVariableIntro(a, DataKind));
    PushKeeps(s.context + [TypeVariableIntro(a, DataKind)], b);
    InferTermKeeps(s2, t.body, fuel);
    var inferred := InferTerm(s2, t.body, fuel).value;
    PopKeeps(inferred.0, Scope(s.context), b);
  }

  lemma {:induction false} ApplicationKeeps(s: InferenceState, t: Term, fuel: nat)
    requires t.Application?
    requires !HasConstraint(s.context) && InferTerm(s, t, fuel).Ok?
    ensures !HasConstraint(InferTerm(s, t, fuel).value.0.context)
    ensures Scope(InferTerm(s, t, fuel).value.0.context) == Scope(s.context)
    decreases t, 0
  {
    InferTermKeeps(s, t.func, fuel);
    var fr := InferTerm(s, t.func, fuel).value;
    InferTermKeeps(fr.0, t.arg, fuel);
    var ar := InferTerm(fr.0, t.arg, fuel).value;
    var (s3, ret) := FreshName(ar.0);
    var retType := TypeVariable(ret, DataKind);
    PushKeeps(ar.0.context, TypeVariableIntro(ret, DataKind));
    UnifyTypesKeeps(Push(s3, TypeVariableIntro(ret, DataKind)), fr.1.head, FunOf(ar.1.head, retType), fuel);
  }

  lemma {:induction false} LetKeeps(s: InferenceState, t: Term, fuel: nat)
    requires t.LetBinding?
    requires !HasConstraint(s.context) && InferTerm(s, t, fuel).Ok?
    ensures !HasConstraint(InferTerm(s, t, fuel).value.0.context)
    ensures Scope(InferTerm(s, t, fuel).value.0.context) == Scope(s.context)
    decreases t, 0
  {
    InferGeneralizedKeeps(s, t.bound, fuel);
    var g := InferGeneralized(s, t.bound, fuel).value;
    var b := TermVariableBinding(t.binder, g.1);
    PushKeeps(g.0.context, b);
    InferTermKeeps(Push(g.0, b), t.expression, fuel);
    var er := InferTerm(Push(g.0, b), t.expression, fuel).value;
    PopKeeps(er.0, Scope(s.context), b);
  }

  lemma {:induction false} InferGeneralizedKeeps(s: InferenceState, t: Term, fuel: nat)
    requires !HasConstraint(s.context) && InferGeneralized(s, t, fuel).Ok?
    ensures !HasConstraint(InferGeneralized(s, t, fuel).value.0.context)
    ensures Scope(InferGeneralized(s, t, fuel).value.0.context) == Scope(s.context)
    decreases t, 2
  {
    PushKeeps(s.context, LocalityMarker);
    InferTermKeeps(Push(s, LocalityMarker), t, fuel);
    var inferred := InferTerm(Push(s, LocalityMarker), t, fuel).value;
    SkimmedKeeps(inferred.0.context);
    CancelLast(Scope(Skimmed(inferred.0.context).value.0), Scope(s.context), LocalityMarker);
  }

  /** Solving one new constraint in a context without pending constraints
      leaves none and keeps the scope. */
  lemma UnifyTypesKeeps(s: InferenceState, left: Type, right: Type, fuel: nat)
    requires !HasConstraint(s.context) && UnifyTypes(s, left, right, fuel).Ok?
    ensures !HasConstraint(UnifyTypes(s, left, right, fuel).value.context)
    ensures Scope(UnifyTypes(s, left, right, fuel).value.context) == Scope(s.context)
    ensures UnifyTypes(s, left, right, fuel).value.stream == s.stream
  {
    var c := TypeConstraint([], left, right);
    ConstraintFreeWellFormed(s.context);
    assert AllWellFormed(s.context + [c]) by {
      assert forall e :: e in s.context + [c] ==> e in s.context || e == c;
    }
    UnifiedKeeps(Push(s, c), fuel);
    ScopeConcat(s.context, [c]);
    Singleton(c);
  }

  // ---------------------------------------------------------------------
  // An example.

  const T0: Type := TypeVariable("t0", DataKind)

  /** With nothing in context, `λx.x` is typed `t0 -> t0`. */
  lemma IdentityExample()
    ensures Infer(InferenceState(Empty, []), LambdaAbstraction("x", TermVariable("x")), 1)
      == Ok(QualifiedType([], FunOf(T0, T0)))
  {
    assert "t" + "0" == "t0";
    var s1 := InferenceState(Stream(map["t" := 1]), []);
    assert FreshName(InferenceState(Empty, [])) == (s1, "t0");
    var b := TermVariableBinding("x", TypeScheme(QualifiedType([], T0), []));
    var ctx := [TypeVariableIntro("t0", DataKind), b];
    var s2 := InferenceState(s1.stream, ctx);
    assert LastBinding(ctx, "x") == Some(1);
    assert InstantiationIntros([], s1.stream, "t") == ([], s1.stream);
    assert InstantiatedBody(b.scheme.body, [], s1.stream, "t") == QualifiedType([], T0);
    assert ctx + [] == ctx;
    assert Specialization(s2, b.scheme) == (s2, QualifiedType([], T0));
    assert InferTerm(s2, TermVariable("x"), 1) == Ok((s2, QualifiedType([], T0)));
    assert ctx[..1] + ctx[2..] == [TypeVariableIntro("t0", DataKind)];
    var final := InferenceState(s1.stream, [TypeVariableIntro("t0", DataKind)]);
    assert Push(Push(s1, TypeVariableIntro("t0", DataKind)), b) == s2;
    assert PopBinding(s2, "x") == Ok(final);
    assert InferTerm(InferenceState(Empty, []), LambdaAbstraction("x", TermVariable("x")), 1)
      == Ok((final, QualifiedType([], FunOf(T0, T0))));
    var n := Normalize(final.context);
    assert n == [TypeVariableIntro("t0", DataKind)];
    assert ApplyQualified(n, QualifiedType([], FunOf(T0, T0))) == QualifiedType([], FunOf(T0, T0));
    assert Reduce(final.context, [], 1) == Ok([]);
  }
}
