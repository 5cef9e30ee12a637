/** The inference driver of Inference.Units (TypeInference.cs): the state
    of inference, the loop that solves its pending constraints (which may
    draw fresh "h" and "b" names), and the recursive inference of a term's
    type with let-bound generalisation by skimming the context down to a
    locality marker. Substitution may fail here, so specialising a scheme
    and building one are `Result`s. */
module UnitInference {
  import opened Results
  import opened Fresh
  import opened UnitTypes
  import opened UnitContext
  import opened UnitConstraints

  /** `InferenceState`: the fresh-name stream and the context. */
  datatype InferenceState = InferenceState(stream: Stream, context: seq<Entry>)

  /** No counter of `b` is behind that of `a`. */
  ghost predicate Advances(a: Stream, b: Stream)
  {
    forall p :: Counter(b, p) >= Counter(a, p)
  }

  // ---------------------------------------------------------------------
  // Solving the pending constraints (`InferenceState.Unify`).

  /** `Context.Any(e => e is IConstraint)`. */
  predicate HasConstraint(ctx: seq<Entry>)
  {
    exists i :: 0 <= i < |ctx| && IsConstraint(ctx[i])
  }

  /** The length of `TakeWhile(e => !(e is IConstraint))`. */
  function LeadingLength(ctx: seq<Entry>): (k: nat)
    ensures k <= |ctx|
    ensures forall i :: 0 <= i < k ==> !IsConstraint(ctx[i])
    ensures k < |ctx| ==> IsConstraint(ctx[k])
    ensures k < |ctx| <==> HasConstraint(ctx)
  {
    if ctx == [] || IsConstraint(ctx[0]) then 0
    else 1 + LeadingLength(ctx[1..])
  }

  /** One pass of the loop: the first constraint solved with the entries
      before it as prefix and those after it as suffix; the stream is the
      one the solver returns. */
  function Step(s: InferenceState): Result<InferenceState>
    requires HasConstraint(s.context)
  {
    var k := LeadingLength(s.context);
    var (stream, next) :- Solve(s.context[k], s.stream, s.context[..k], s.context[k + 1..]);
    Ok(InferenceState(stream, next))
  }

  /** What the loop returns when it may run at most `fuel` passes. */
  function Unified(s: InferenceState, fuel: nat): Result<InferenceState>
    decreases fuel, 0
  {
    if !HasConstraint(s.context) then Ok(s)
    else if fuel == 0 then Err(OutOfFuel)
    else Continued(s, fuel - 1)
  }

  /** One pass of the loop, then the rest of it. */
  function Continued(s: InferenceState, fuel: nat): Result<InferenceState>
    requires HasConstraint(s.context)
    decreases fuel, 1
  {
    var next :- Step(s);
    Unified(next, fuel)
  }

  /** `b` is what one pass of the loop makes of `a`. */
  predicate Transition(a: InferenceState, b: InferenceState)
  {
    HasConstraint(a.context) && Step(a) == Ok(b)
  }

  /** One more pass extends the run recorded so far. */
  lemma RunSnoc(states: seq<InferenceState>, next: InferenceState)
    requires |states| >= 1
    requires forall i :: 0 <= i < |states| - 1 ==> Transition(states[i], states[i + 1])
    requires Transition(states[|states| - 1], next)
    ensures forall i :: 0 <= i < |states| ==> Transition((states + [next])[i], (states + [next])[i + 1])
  {
    var t := states + [next];
    forall i | 0 <= i < |states|
      ensures Transition(t[i], t[i + 1])
    {
      if i < |states| - 1 {
        assert t[i] == states[i] && t[i + 1] == states[i + 1];
      } else {
        assert t[i] == states[|states| - 1] && t[i + 1] == next;
      }
    }
  }

  /** `InferenceState.Unify(out states)`: the state once no constraint is
      left, and every state the loop passed through. */
  method Unify(s: InferenceState, fuel: nat) returns (r: Result<InferenceState>, states: seq<InferenceState>)
    ensures r == Unified(s, fuel)
    ensures |states| >= 1 && states[0] == s
    ensures forall i :: 0 <= i < |states| - 1 ==> Transition(states[i], states[i + 1])
    ensures r.Ok? ==> r.value == states[|states| - 1] && !HasConstraint(r.value.context)
    ensures !HasConstraint(s.context) ==> r == Ok(s) && states == [s]
  {
    var state := s;
    states := [s];
    var n := 0;
    while HasConstraint(state.context)
      invariant 0 <= n <= fuel
      invariant |states| == n + 1 && states[0] == s && states[n] == state
      invariant forall i :: 0 <= i < n ==> Transition(states[i], states[i + 1])
      invariant n > 0 ==> HasConstraint(s.context)
      invariant Unified(s, fuel) == Unified(state, fuel - n)
      decreases fuel - n
    {
      if n == fuel {
        return Err(OutOfFuel), states;
      }
      var next := Step(state);
      UnifiedStep(state, fuel - n);
      if next.Err? {
        return Err(next.error), states;
      }
      RunSnoc(states, next.value);
      state := next.value;
      states := states + [state];
      n := n + 1;
    }
    r := Ok(state);
  }

  /** One pass of the loop, whatever its outcome. */
  lemma UnifiedStep(s: InferenceState, fuel: nat)
    requires HasConstraint(s.context) && fuel > 0
    ensures Step(s).Err? ==> Unified(s, fuel) == Err(Step(s).error)
    ensures Step(s).Ok? ==> Unified(s, fuel) == Unified(Step(s).value, fuel - 1)
  {
    assert Unified(s, fuel) == Continued(s, fuel - 1);
  }

  /** One pass of a loop that reached an answer. */
  lemma UnifiedUnfold(s: InferenceState, fuel: nat) returns (next: InferenceState)
    requires HasConstraint(s.context) && Unified(s, fuel).Ok?
    ensures fuel > 0 && Step(s) == Ok(next)
    ensures Unified(s, fuel) == Unified(next, fuel - 1)
    ensures Unified(s, fuel + 1) == Unified(next, fuel)
  {
    assert Unified(s, fuel) == Continued(s, fuel - 1);
    assert Unified(s, fuel + 1) == Continued(s, fuel);
    next := Step(s).value;
  }

  /** One more pass of fuel never changes an answer the loop reached. */
  lemma {:induction false} UnifiedMoreFuel(s: InferenceState, fuel: nat)
    requires Unified(s, fuel).Ok?
    ensures Unified(s, fuel + 1) == Unified(s, fuel)
    decreases fuel
  {
    if HasConstraint(s.context) {
      var next := UnifiedUnfold(s, fuel);
      UnifiedMoreFuel(next, fuel - 1);
    }
  }

  /** Any amount of extra fuel never changes an answer the loop reached. */
  lemma {:induction false} UnifiedFuelMonotone(s: InferenceState, fuel: nat, more: nat)
    requires Unified(s, fuel).Ok? && fuel <= more
    ensures Unified(s, more) == Unified(s, fuel)
    decreases more - fuel
  {
    if fuel < more {
      UnifiedMoreFuel(s, fuel);
      UnifiedFuelMonotone(s, fuel + 1, more);
    }
  }

  /** The first constraint of a context, the entries before it and after. */
  lemma FirstConstraint(ctx: seq<Entry>) returns (c: Entry, prefix: seq<Entry>, suffix: seq<Entry>)
    requires HasConstraint(ctx)
    ensures IsConstraint(c) && ctx == prefix + [c] + suffix
    ensures var k := LeadingLength(ctx); c == ctx[k] && prefix == ctx[..k] && suffix == ctx[k + 1..]
  {
    var k := LeadingLength(ctx);
    c, prefix, suffix := ctx[k], ctx[..k], ctx[k + 1..];
    assert ctx == prefix + [c] + suffix;
  }

  /** The pieces of a well-formed context around one of its entries. */
  lemma Pieces(ctx: seq<Entry>, prefix: seq<Entry>, c: Entry, suffix: seq<Entry>)
    requires ctx == prefix + [c] + suffix && AllWellFormed(ctx)
    ensures WellFormedEntry(c) && AllWellFormed(prefix) && AllWellFormed(suffix)
  {
    assert c == ctx[|prefix|];
    assert forall i :: 0 <= i < |prefix| ==> prefix[i] == ctx[i];
    assert forall i :: 0 <= i < |suffix| ==> suffix[i] == ctx[|prefix| + 1 + i];
  }

  /** A constraint is no scope entry. */
  lemma ConstraintScope(prefix: seq<Entry>, c: Entry, suffix: seq<Entry>)
    requires IsConstraint(c)
    ensures Scope(prefix + [c] + suffix) == Scope(prefix) + Scope(suffix)
  {
    ScopeConcat(prefix + [c], suffix);
    ScopeConcat(prefix, [c]);
    Singleton(c);
    assert Scope(prefix + [c]) == Scope(prefix);
  }

  /** `b` keeps the scope entries of `a` in order and the well-formedness
      of its constraints, and its stream moves no counter but "h" and "b",
      and those only forward. */
  ghost predicate Preserved(a: InferenceState, b: InferenceState)
  {
    && Scope(b.context) == Scope(a.context)
    && AllWellFormed(b.context)
    && Advances(a.stream, b.stream)
    && forall p :: p != "h" && p != "b" ==> Counter(b.stream, p) == Counter(a.stream, p)
  }

  lemma PreservedTransitive(a: InferenceState, b: InferenceState, c: InferenceState)
    requires Preserved(a, b) && Preserved(b, c)
    ensures Preserved(a, c)
  {
  }

  /** One pass keeps what `Preserved` names. */
  lemma StepKeeps(s: InferenceState)
    requires HasConstraint(s.context) && AllWellFormed(s.context) && Step(s).Ok?
    ensures Preserved(s, Step(s).value)
  {
    var c, prefix, suffix := FirstConstraint(s.context);
    Pieces(s.context, prefix, c, suffix);
    ConstraintScope(prefix, c, suffix);
    SolveKeeps(c, s.stream, prefix, suffix);
    SolveStream(c, s.stream, prefix, suffix);
  }

  /** A finished loop leaves no constraint. */
  lemma {:induction false} UnifiedFinishes(s: InferenceState, fuel: nat)
    requires Unified(s, fuel).Ok?
    ensures !HasConstraint(Unified(s, fuel).value.context)
    decreases fuel
  {
    if HasConstraint(s.context) {
      var next := UnifiedUnfold(s, fuel);
      UnifiedFinishes(next, fuel - 1);
    }
  }

  /** A finished loop leaves no constraint and keeps what `Preserved`
      names. */
  lemma {:induction false} UnifiedKeeps(s: InferenceState, fuel: nat)
    requires AllWellFormed(s.context) && Unified(s, fuel).Ok?
    ensures !HasConstraint(Unified(s, fuel).value.context)
    ensures Preserved(s, Unified(s, fuel).value)
    decreases fuel
  {
    UnifiedFinishes(s, fuel);
    if HasConstraint(s.context) {
      var next := UnfoldKeeps(s, fuel);
      UnifiedKeeps(next, fuel - 1);
      PreservedTransitive(s, next, Unified(next, fuel - 1).value);
    }
  }

  /** The first pass of a loop that reached an answer keeps what
      `Preserved` names. */
  lemma UnfoldKeeps(s: InferenceState, fuel: nat) returns (next: InferenceState)
    requires AllWellFormed(s.context) && HasConstraint(s.context) && Unified(s, fuel).Ok?
    ensures fuel > 0 && Unified(s, fuel) == Unified(next, fuel - 1)
    ensures AllWellFormed(next.context) && Preserved(s, next)
  {
    next := UnifiedUnfold(s, fuel);
    StepKeeps(s);
  }

  /** A context without constraints is well formed. */
  lemma ConstraintFreeWellFormed(ctx: seq<Entry>)
    requires !HasConstraint(ctx)
    ensures AllWellFormed(ctx)
  {
    forall i | 0 <= i < |ctx|
      ensures WellFormedEntry(ctx[i])
    {
      assert !IsConstraint(ctx[i]);
    }
  }

  // ---------------------------------------------------------------------
  // Terms and the small state operations.

  /** The five term forms the driver handles; a literal's value plays no
      part in inference. */
  datatype Term =
    | FloatLiteral
    | TermVariable(name: string)
    | LambdaAbstraction(parameter: string, body: Term)
    | Application(func: Term, arg: Term)
    | LetBinding(binder: string, bound: Term, expression: Term)

  /** `Fresh(out name)`: a "t" name drawn from the state's stream. */
  function FreshName(s: InferenceState): (r: (InferenceState, string))
    ensures r.0.context == s.context
    ensures r.1 == "t" + NatToString(Counter(s.stream, "t"))
    ensures Counter(r.0.stream, "t") == Counter(s.stream, "t") + 1
    ensures forall p :: p != "t" ==> Counter(r.0.stream, p) == Counter(s.stream, p)
  {
    var (stream, name) := Next(s.stream, "t");
    (InferenceState(stream, s.context), name)
  }

  /** `Push` (`AddIntro`, `AddBinding`, `AddMark`). */
  function Push(s: InferenceState, e: Entry): InferenceState
  {
    InferenceState(s.stream, s.context + [e])
  }

  predicate IsBindingOf(e: Entry, name: string)
  {
    e.TermVariableBinding? && e.name == name
  }

  /** `Last(c => c is TermVariableBinding b && b.Name == name)`, as an index. */
  function LastBinding(ctx: seq<Entry>, name: string): (r: Option<nat>)
    ensures r.Some? ==> r.value < |ctx| && IsBindingOf(ctx[r.value], name)
    ensures r.Some? ==> forall j :: r.value < j < |ctx| ==> !IsBindingOf(ctx[j], name)
    ensures r.None? ==> forall j :: 0 <= j < |ctx| ==> !IsBindingOf(ctx[j], name)
  {
    if ctx == [] then None
    else if IsBindingOf(ctx[|ctx| - 1], name) then Some(|ctx| - 1)
    else LastBinding(ctx[..|ctx| - 1], name)
  }

  /** `PopBinding`: removes the last binding of `name`; the entries are
      compared by reference, so exactly that entry goes. */
  function PopBinding(s: InferenceState, name: string): (r: Result<InferenceState>)
    ensures r.Err? <==> LastBinding(s.context, name).None?
    ensures r.Err? ==> r.error == NoSuchElement
    ensures r.Ok? ==> r.value.stream == s.stream && |r.value.context| == |s.context| - 1
    ensures r.Ok? ==> var i := LastBinding(s.context, name).value;
      r.value.context == s.context[..i] + s.context[i + 1..]
  {
    match LastBinding(s.context, name)
    case None => Err(NoSuchElement)
    case Some(i) => Ok(InferenceState(s.stream, s.context[..i] + s.context[i + 1..]))
  }

  /** Removing the last binding of a name whose binding is the last scope
      entry takes that scope entry away and nothing else. */
  lemma {:induction false} PopBindingScope(ctx: seq<Entry>, scope: seq<Entry>, b: Entry)
    requires Scope(ctx) == scope + [b] && b.TermVariableBinding?
    ensures LastBinding(ctx, b.name).Some?
    ensures var i := LastBinding(ctx, b.name).value; Scope(ctx[..i] + ctx[i + 1..]) == scope
    ensures var i := LastBinding(ctx, b.name).value; forall e :: e in ctx[..i] + ctx[i + 1..] ==> e in ctx
  {
    assert ctx != [];
    var init, e := ctx[..|ctx| - 1], ctx[|ctx| - 1];
    assert ctx == init + [e];
    ScopeConcat(init, [e]);
    Singleton(e);
    if IsScopeEntry(e) {
      var l := Scope(init) + [e];
      assert l == scope + [b];
      assert l[|l| - 1] == e && (scope + [b])[|scope|] == b;
      assert l[..|l| - 1] == Scope(init) && (scope + [b])[..|scope|] == scope;
      assert ctx[..|ctx| - 1] + ctx[|ctx|..] == init;
    } else {
      assert Scope(init) == scope + [b];
      PopBindingScope(init, scope, b);
      var i := LastBinding(init, b.name).value;
      assert LastBinding(ctx, b.name) == Some(i);
      assert ctx[..i] + ctx[i + 1..] == (init[..i] + init[i + 1..]) + [e];
      ScopeConcat(init[..i] + init[i + 1..], [e]);
    }
  }

  // ---------------------------------------------------------------------
  // Specialisation of a scheme.

  /** What `Specialize` computes for the first quantified variables: one
      name "t" intro per variable, with that variable's kind, pushed in
      order, and the body with each variable renamed to its fresh name. A
      substitution that fails ends it. */
  function Specialization(s: InferenceState, body: Type, quantified: seq<(string, Kind)>): Result<(InferenceState, Type)>
  {
    if quantified == [] then Ok((s, body))
    else
      var last := quantified[|quantified| - 1];
      var (state, specialized) :- Specialization(s, body, quantified[..|quantified| - 1]);
      var (next, name) := FreshName(state);
      var renamed :- Substitute(specialized, last.0, TypeVariable(name));
      Ok((Push(next, TypeVariableIntro(name, last.1)), renamed))
  }

  /** `Specialize`: the loop over the quantified variables. */
  method Specialize(s: InferenceState, scheme: TypeScheme) returns (r: Result<(InferenceState, Type)>)
    ensures r == Specialization(s, scheme.body, scheme.quantified)
  {
    var state := s;
    var specialized := scheme.body;
    for i := 0 to |scheme.quantified|
      invariant Specialization(s, scheme.body, scheme.quantified[..i]) == Ok((state, specialized))
    {
      var name, kind := scheme.quantified[i].0, scheme.quantified[i].1;
      SpecializationStep(s, scheme.body, scheme.quantified, i, state, specialized);
      var (next, replacement) := FreshName(state);
      var renamed := Substitute(specialized, name, TypeVariable(replacement));
      if renamed.Err? {
        assert scheme.quantified[..|scheme.quantified|] == scheme.quantified;
        SpecializationFails(s, scheme.body, scheme.quantified, i + 1);
        return Err(renamed.error);
      }
      state := Push(next, TypeVariableIntro(replacement, kind));
      specialized := renamed.value;
    }
    assert scheme.quantified[..|scheme.quantified|] == scheme.quantified;
    r := Ok((state, specialized));
  }

  /** Specialising one more variable: draw its name, rename it, push the
      intro. */
  lemma SpecializationStep(s: InferenceState, body: Type, quantified: seq<(string, Kind)>, i: nat,
                           state: InferenceState, specialized: Type)
    requires i < |quantified| && Specialization(s, body, quantified[..i]) == Ok((state, specialized))
    ensures var (next, name) := FreshName(state);
      var renamed := Substitute(specialized, quantified[i].0, TypeVariable(name));
      Specialization(s, body, quantified[..i + 1])
        == if renamed.Err? then Err(renamed.error) else Ok((Push(next, TypeVariableIntro(name, quantified[i].1)), renamed.value))
  {
    assert quantified[..i + 1][..i] == quantified[..i];
  }

  /** Once specialising the first `n` variables fails, specialising all of
      them fails the same way. */
  lemma {:induction false} SpecializationFails(s: InferenceState, body: Type, quantified: seq<(string, Kind)>, n: nat)
    requires n <= |quantified| && Specialization(s, body, quantified[..n]).Err?
    ensures Specialization(s, body, quantified) == Specialization(s, body, quantified[..n])
    decreases |quantified| - n
  {
    if n < |quantified| {
      assert quantified[..n + 1][..n] == quantified[..n];
      SpecializationFails(s, body, quantified, n + 1);
    } else {
      assert quantified[..n] == quantified;
    }
  }

  /** The intros specialising pushes: one per quantified variable with its
      kind, named "t" and the counters from `start` on. */
  function FreshIntros(start: nat, quantified: seq<(string, Kind)>): (r: seq<Entry>)
    ensures |r| == |quantified|
    ensures forall i :: 0 <= i < |r| ==> r[i] == TypeVariableIntro("t" + NatToString(start + i), quantified[i].1)
  {
    seq(|quantified|, i requires 0 <= i < |quantified| => TypeVariableIntro("t" + NatToString(start + i), quantified[i].1))
  }

  lemma FreshIntrosSnoc(start: nat, quantified: seq<(string, Kind)>)
    requires quantified != []
    ensures var n := |quantified| - 1;
      FreshIntros(start, quantified) == FreshIntros(start, quantified[..n]) + [TypeVariableIntro("t" + NatToString(start + n), quantified[n].1)]
  {
  }

  /** Specialising pushes exactly the fresh intros of the quantified
      variables; the "t" counter moves by their number and no other counter
      moves. */
  lemma {:induction false} SpecializationIntros(s: InferenceState, body: Type, quantified: seq<(string, Kind)>)
    requires Specialization(s, body, quantified).Ok?
    ensures var out := Specialization(s, body, quantified).value.0;
      && out.context == s.context + FreshIntros(Counter(s.stream, "t"), quantified)
      && Counter(out.stream, "t") == Counter(s.stream, "t") + |quantified|
      && (forall p :: p != "t" ==> Counter(out.stream, p) == Counter(s.stream, p))
  {
    if quantified != [] {
      var init := quantified[..|quantified| - 1];
      SpecializationIntros(s, body, init);
      FreshIntrosSnoc(Counter(s.stream, "t"), quantified);
    }
  }

  /** Renaming a variable never fails on a type whose floats all carry unit
      expressions, and the renamed type is such a type again; so
      specialising the scheme of such a type always succeeds. */
  lemma {:induction false} SpecializationSucceeds(s: InferenceState, body: Type, quantified: seq<(string, Kind)>)
    requires UnitsWellFormed(body)
    ensures Specialization(s, body, quantified).Ok?
    ensures UnitsWellFormed(Specialization(s, body, quantified).value.1)
  {
    if quantified != [] {
      var init := quantified[..|quantified| - 1];
      SpecializationSucceeds(s, body, init);
      var (state, specialized) := Specialization(s, body, init).value;
      var (next, name) := FreshName(state);
      SubstituteUnitsWellFormed(specialized, quantified[|quantified| - 1].0, TypeVariable(name));
    }
  }

  /** Intros and definitions add no scope entry. */
  lemma IntrosKeep(ctx: seq<Entry>, intros: seq<Entry>)
    requires forall i :: 0 <= i < |intros| ==> intros[i].TypeVariableIntro?
    requires !HasConstraint(ctx)
    ensures Scope(ctx + intros) == Scope(ctx)
    ensures !HasConstraint(ctx + intros)
  {
    NoScope(intros);
    ScopeConcat(ctx, intros);
    assert forall i :: 0 <= i < |ctx + intros| ==> (ctx + intros)[i] == if i < |ctx| then ctx[i] else intros[i - |ctx|];
  }

  lemma SpecializationKeeps(s: InferenceState, body: Type, quantified: seq<(string, Kind)>)
    requires !HasConstraint(s.context) && Specialization(s, body, quantified).Ok?
    ensures var out := Specialization(s, body, quantified).value.0;
      Scope(out.context) == Scope(s.context) && !HasConstraint(out.context) && Advances(s.stream, out.stream)
  {
    SpecializationIntros(s, body, quantified);
    IntrosKeep(s.context, FreshIntros(Counter(s.stream, "t"), quantified));
  }

  // ---------------------------------------------------------------------
  // Skimming the context down to the locality marker.

  /** What `SkimContext` records of a skimmed entry: its name, its kind and,
      for a definition, its body. */
  datatype SkimmedEntry = SkimmedEntry(name: string, kind: Kind, definition: Option<Type>)

  /** The record of one entry above the marker; only intros and definitions
      may be skimmed, each with the kind its entry carries. */
  function SkimItem(e: Entry): (r: Result<SkimmedEntry>)
    ensures r.Ok? <==> e.TypeVariableIntro? || e.TypeVariableDefinition?
    ensures e.TypeVariableIntro? ==> r == Ok(SkimmedEntry(e.name, e.kind, None))
    ensures e.TypeVariableDefinition? ==> r == Ok(SkimmedEntry(e.name, e.kind, Some(e.definition)))
    ensures r.Err? ==> r.error == UnexpectedEntry
  {
    match e
    case TypeVariableIntro(n, k) => Ok(SkimmedEntry(n, k, None))
    case TypeVariableDefinition(n, d, k) => Ok(SkimmedEntry(n, k, Some(d)))
    case _ => Err(UnexpectedEntry)
  }

  /** What `SkimContext` computes: the context below the topmost marker, and
      the records of the entries above it, topmost first. */
  function Skimmed(ctx: seq<Entry>): Result<(seq<Entry>, seq<SkimmedEntry>)>
  {
    if ctx == [] then Err(EmptySequence)
    else
      var last, rest := ctx[|ctx| - 1], ctx[..|ctx| - 1];
      if last.LocalityMarker? then Ok((rest, []))
      else
        var item :- SkimItem(last);
        var below :- Skimmed(rest);
        Ok((below.0, [item] + below.1))
  }

  /** The records skimmed so far in front of what the rest of the loop
      skims. */
  function Prepend(items: seq<SkimmedEntry>, r: Result<(seq<Entry>, seq<SkimmedEntry>)>)
    : Result<(seq<Entry>, seq<SkimmedEntry>)>
  {
    if r.Err? then r else Ok((r.value.0, items + r.value.1))
  }

  /** `SkimContext`: pops entries until it has popped a marker. */
  method SkimContext(s: InferenceState) returns (r: Result<(InferenceState, seq<SkimmedEntry>)>)
    ensures r.Err? <==> Skimmed(s.context).Err?
    ensures r.Err? ==> r.error == Skimmed(s.context).error
    ensures r.Ok? ==> r.value == (InferenceState(s.stream, Skimmed(s.context).value.0), Skimmed(s.context).value.1)
  {
    if |s.context| == 0 {
      return Err(EmptySequence);
    }
    var skimmed: seq<SkimmedEntry> := [];
    var last := s.context[|s.context| - 1];
    var newContext := s.context[..|s.context| - 1];
    assert newContext + [last] == s.context;
    PrependNothing(Skimmed(s.context));
    while !last.LocalityMarker?
      invariant Skimmed(s.context) == Prepend(skimmed, Skimmed(newContext + [last]))
      decreases |newContext|
    {
      var item := SkimItem(last);
      if item.Err? {
        SkimFails(newContext, last, skimmed);
        return Err(item.error);
      }
      SkimStep(newContext, last, skimmed);
      skimmed := skimmed + [item.value];
      if |newContext| == 0 {
        return Err(EmptySequence);
      }
      ghost var previous := newContext;
      last := newContext[|newContext| - 1];
      newContext := newContext[..|newContext| - 1];
      assert newContext + [last] == previous;
    }
    assert (newContext + [last])[..|newContext|] == newContext;
    assert skimmed + [] == skimmed;
    r := Ok((InferenceState(s.stream, newContext), skimmed));
  }

  lemma PrependNothing(r: Result<(seq<Entry>, seq<SkimmedEntry>)>)
    ensures Prepend([], r) == r
  {
    if r.Ok? {
      assert [] + r.value.1 == r.value.1;
    }
  }

  /** One pass of the skimming loop over an entry that is not a marker. */
  lemma SkimStep(rest: seq<Entry>, last: Entry, items: seq<SkimmedEntry>)
    requires !last.LocalityMarker? && SkimItem(last).Ok?
    ensures Prepend(items, Skimmed(rest + [last])) == Prepend(items + [SkimItem(last).value], Skimmed(rest))
  {
    assert (rest + [last])[..|rest|] == rest;
    var below := Skimmed(rest);
    if below.Ok? {
      assert items + ([SkimItem(last).value] + below.value.1) == items + [SkimItem(last).value] + below.value.1;
    }
  }

  /** The skimming loop stops at the first entry that may not be skimmed. */
  lemma SkimFails(rest: seq<Entry>, last: Entry, items: seq<SkimmedEntry>)
    requires !last.LocalityMarker? && SkimItem(last).Err?
    ensures Prepend(items, Skimmed(rest + [last])) == Err(SkimItem(last).error)
  {
    assert (rest + [last])[..|rest|] == rest;
  }

  /** A successful skim stopped at a marker: what it returns is the context
      below that marker, and one record per entry above it, topmost first. */
  lemma {:induction false} SkimmedShape(ctx: seq<Entry>) returns (m: nat)
    requires Skimmed(ctx).Ok?
    ensures m < |ctx| && ctx[m] == LocalityMarker
    ensures Skimmed(ctx).value.0 == ctx[..m]
    ensures |Skimmed(ctx).value.1| == |ctx| - m - 1
    ensures forall j :: 0 <= j < |ctx| - m - 1 ==> SkimItem(ctx[|ctx| - 1 - j]) == Ok(Skimmed(ctx).value.1[j])
  {
    var last, rest := ctx[|ctx| - 1], ctx[..|ctx| - 1];
    if last.LocalityMarker? {
      m := |ctx| - 1;
    } else {
      m := SkimmedShape(rest);
      var items := Skimmed(ctx).value.1;
      var below := Skimmed(rest).value.1;
      assert items == [SkimItem(last).value] + below;
      assert rest[..m] == ctx[..m];
      forall j | 0 <= j < |ctx| - m - 1
        ensures SkimItem(ctx[|ctx| - 1 - j]) == Ok(items[j])
      {
        if j > 0 {
          assert items[j] == below[j - 1];
          assert ctx[|ctx| - 1 - j] == rest[|rest| - 1 - (j - 1)];
        }
      }
    }
  }

  /** Conversely, a context whose entries above its topmost marker are all
      intros and definitions skims down to what lies below that marker. */
  lemma {:induction false} SkimmedComplete(below: seq<Entry>, tail: seq<Entry>)
    requires forall i :: 0 <= i < |tail| ==> tail[i].TypeVariableIntro? || tail[i].TypeVariableDefinition?
    ensures Skimmed(below + [LocalityMarker] + tail).Ok?
    ensures Skimmed(below + [LocalityMarker] + tail).value.0 == below
    ensures |Skimmed(below + [LocalityMarker] + tail).value.1| == |tail|
    decreases |tail|
  {
    var ctx := below + [LocalityMarker] + tail;
    if tail == [] {
      assert ctx[..|ctx| - 1] == below;
    } else {
      var init := tail[..|tail| - 1];
      assert ctx[..|ctx| - 1] == below + [LocalityMarker] + init;
      assert ctx[|ctx| - 1] == tail[|tail| - 1];
      SkimmedComplete(below, init);
    }
  }

  /** A successful skim removes the topmost marker and the intros and
      definitions above it and no other scope entry; it adds no constraint. */
  lemma SkimmedKeeps(ctx: seq<Entry>)
    requires Skimmed(ctx).Ok?
    ensures Scope(ctx) == Scope(Skimmed(ctx).value.0) + [LocalityMarker]
    ensures !HasConstraint(ctx) ==> !HasConstraint(Skimmed(ctx).value.0)
  {
    var m := SkimmedShape(ctx);
    var above := ctx[m + 1..];
    forall i | 0 <= i < |above|
      ensures !IsScopeEntry(above[i])
    {
      var j := |ctx| - 1 - (m + 1 + i);
      assert above[i] == ctx[|ctx| - 1 - j];
      assert SkimItem(ctx[|ctx| - 1 - j]) == Ok(Skimmed(ctx).value.1[j]);
    }
    NoScope(above);
    assert ctx == ctx[..m] + [LocalityMarker] + above;
    ScopeConcat(ctx[..m] + [LocalityMarker], above);
    ScopeConcat(ctx[..m], [LocalityMarker]);
    Singleton(LocalityMarker);
    if !HasConstraint(ctx) {
      forall i | 0 <= i < m
        ensures !IsConstraint(ctx[..m][i])
      {
        assert ctx[..m][i] == ctx[i];
      }
    }
  }

  // ---------------------------------------------------------------------
  // Building the scheme of a let-bound term.

  /** The body `MakeScheme` builds: every skimmed definition substituted in
      skim order; a substitution that fails ends it. */
  function SchemeBody(items: seq<SkimmedEntry>, body: Type): Result<Type>
  {
    if items == [] then Ok(body)
    else
      var prev :- SchemeBody(items[..|items| - 1], body);
      var last := items[|items| - 1];
      if last.definition.Some? then Substitute(prev, last.name, last.definition.value) else Ok(prev)
  }

  /** The variables `MakeScheme` quantifies: every skimmed intro, in skim
      order, with its kind. */
  function SchemeQuantified(items: seq<SkimmedEntry>): seq<(string, Kind)>
  {
    if items == [] then []
    else
      var last := items[|items| - 1];
      SchemeQuantified(items[..|items| - 1]) + (if last.definition.None? then [(last.name, last.kind)] else [])
  }

  function Scheme(items: seq<SkimmedEntry>, body: Type): Result<TypeScheme>
  {
    var generalized :- SchemeBody(items, body);
    Ok(TypeScheme(generalized, SchemeQuantified(items)))
  }

  /** `MakeScheme`: the loop over the skimmed entries. */
  method MakeScheme(items: seq<SkimmedEntry>, ungeneralized: Type) returns (r: Result<TypeScheme>)
    ensures r == Scheme(items, ungeneralized)
  {
    var generalized := ungeneralized;
    var quantified: seq<(string, Kind)> := [];
    for i := 0 to |items|
      invariant SchemeBody(items[..i], ungeneralized) == Ok(generalized)
      invariant quantified == SchemeQuantified(items[..i])
    {
      assert items[..i + 1][..i] == items[..i];
      var item := items[i];
      if item.definition.Some? {
        var next := Substitute(generalized, item.name, item.definition.value);
        if next.Err? {
          SchemeBodyFails(items, ungeneralized, i + 1);
          assert items[..|items|] == items;
          return Err(next.error);
        }
        generalized := next.value;
      } else {
        quantified := quantified + [(item.name, item.kind)];
      }
    }
    assert items[..|items|] == items;
    r := Ok(TypeScheme(generalized, quantified));
  }

  /** Once substituting the first `n` skimmed definitions fails, building
      the whole body fails the same way. */
  lemma {:induction false} SchemeBodyFails(items: seq<SkimmedEntry>, body: Type, n: nat)
    requires n <= |items| && SchemeBody(items[..n], body).Err?
    ensures SchemeBody(items, body) == SchemeBody(items[..n], body)
    decreases |items| - n
  {
    if n < |items| {
      assert items[..n + 1][..n] == items[..n];
      SchemeBodyFails(items, body, n + 1);
    } else {
      assert items[..n] == items;
    }
  }

  /** Exactly the skimmed intros are quantified, each with its kind. */
  lemma {:induction false} SchemeQuantifiedSpec(items: seq<SkimmedEntry>)
    ensures |SchemeQuantified(items)| <= |items|
    ensures forall n, k :: (n, k) in SchemeQuantified(items) <==> SkimmedEntry(n, k, None) in items
  {
    if items != [] {
      var init, last := items[..|items| - 1], items[|items| - 1];
      SchemeQuantifiedSpec(init);
      assert items == init + [last];
    }
  }

  /** Without skimmed definitions the body is kept as it is. */
  lemma {:induction false} SchemeBodyWithoutDefinitions(items: seq<SkimmedEntry>, body: Type)
    requires forall i :: 0 <= i < |items| ==> items[i].definition.None?
    ensures SchemeBody(items, body) == Ok(body)
  {
    if items != [] {
      var init := items[..|items| - 1];
      assert forall i :: 0 <= i < |init| ==> init[i] == items[i];
      SchemeBodyWithoutDefinitions(init, body);
    }
  }

  // ---------------------------------------------------------------------
  // Inference.

  /** The private `Unify(left, right)`: the constraint pushed, then the loop. */
  function UnifyTypes(s: InferenceState, left: Type, right: Type, fuel: nat): Result<InferenceState>
  {
    Unified(Push(s, TypeConstraint([], left, right)), fuel)
  }

  /** The private `Infer(term, out type)`: the new state and the type of
      the term. Every run of the constraint loop is bounded by `fuel`. */
  function InferTerm(s: InferenceState, t: Term, fuel: nat): Result<(InferenceState, Type)>
    decreases t, 0
  {
    match t
    case FloatLiteral => Ok((s, FloatType(UnitIdentity)))
    case TermVariable(x) =>
      var i := LastBinding(s.context, x);
      if i.None? then Err(NoSuchElement)
      else
        var scheme := s.context[i.value].scheme;
        Specialization(s, scheme.body, scheme.quantified)
    case LambdaAbstraction(x, body) =>
      var (s1, a) := FreshName(s);
      var argType := TypeVariable(a);
      var s2 := Push(Push(s1, TypeVariableIntro(a, ValueKind)), TermVariableBinding(x, TypeScheme(argType, [])));
      var inferred :- InferTerm(s2, body, fuel);
      var s3 :- PopBinding(inferred.0, x);
      Ok((s3, ArrowType(argType, inferred.1)))
    case Application(f, a) =>
      var fr :- InferTerm(s, f, fuel);
      var ar :- InferTerm(fr.0, a, fuel);
      var (s3, ret) := FreshName(ar.0);
      var retType := TypeVariable(ret);
      var s4 :- UnifyTypes(Push(s3, TypeVariableIntro(ret, ValueKind)), fr.1, ArrowType(ar.1, retType), fuel);
      Ok((s4, retType))
    case LetBinding(x, bound, e) =>
      var g :- InferGeneralized(s, bound, fuel);
      var er :- InferTerm(Push(g.0, TermVariableBinding(x, g.1)), e, fuel);
      var s3 :- PopBinding(er.0, x);
      Ok((s3, er.1))
  }

  /** `InferGeneralized`: the state after skimming and the scheme of the
      term. */
  function InferGeneralized(s: InferenceState, t: Term, fuel: nat): Result<(InferenceState, TypeScheme)>
    decreases t, 1
  {
    var inferred :- InferTerm(Push(s, LocalityMarker), t, fuel);
    var skim :- Skimmed(inferred.0.context);
    var scheme :- Scheme(skim.1, inferred.1);
    Ok((InferenceState(inferred.0.stream, skim.0), scheme))
  }

  /** The static `TypeInference.Infer`: the inferred type under the
      normalised final context. */
  function Infer(initial: InferenceState, t: Term, fuel: nat): Result<Type>
  {
    var inferred :- InferTerm(initial, t, fuel);
    var normalized :- Normalize(inferred.0.context);
    Apply(normalized, inferred.1)
  }

  // ---------------------------------------------------------------------
  // What inference keeps.

  /** Pushing an entry that is not a constraint adds no constraint and
      extends the scope by the entry if it is a scope entry. */
  lemma PushKeeps(ctx: seq<Entry>, e: Entry)
    requires !HasConstraint(ctx) && !IsConstraint(e)
    ensures !HasConstraint(ctx + [e])
    ensures Scope(ctx + [e]) == Scope(ctx) + (if IsScopeEntry(e) then [e] else [])
  {
    ScopeConcat(ctx, [e]);
    Singleton(e);
    assert forall i :: 0 <= i < |ctx + [e]| ==> (ctx + [e])[i] == if i < |ctx| then ctx[i] else e;
  }

  /** Removing the binding pushed for a lambda or a let takes the scope back
      to what it was before the push. */
  lemma PopKeeps(s: InferenceState, scope: seq<Entry>, b: Entry)
    requires !HasConstraint(s.context) && Scope(s.context) == scope + [b] && b.TermVariableBinding?
    ensures PopBinding(s, b.name).Ok?
    ensures var out := PopBinding(s, b.name).value.context;
      Scope(out) == scope && !HasConstraint(out)
  {
    var ctx := s.context;
    PopBindingScope(ctx, scope, b);
    var i := LastBinding(ctx, b.name).value;
    var out := ctx[..i] + ctx[i + 1..];
    forall j | 0 <= j < |out|
      ensures !IsConstraint(out[j])
    {
      assert out[j] in ctx;
    }
  }

  lemma CancelLast(a: seq<Entry>, b: seq<Entry>, e: Entry)
    requires a + [e] == b + [e]
    ensures a == b
  {
    assert a == (a + [e])[..|a|];
    assert b == (b + [e])[..|b|];
  }

  /** Inference in a context without pending constraints leaves none, it
      leaves every term binding and locality marker of the context as it
      found them, in order, and it never moves a counter of the stream
      backwards, so every name it draws is new to the stream it was given. */
  lemma {:induction false} InferTermKeeps(s: InferenceState, t: Term, fuel: nat)
    requires !HasConstraint(s.context) && InferTerm(s, t, fuel).Ok?
    ensures !HasConstraint(InferTerm(s, t, fuel).value.0.context)
    ensures Scope(InferTerm(s, t, fuel).value.0.context) == Scope(s.context)
    ensures Advances(s.stream, InferTerm(s, t, fuel).value.0.stream)
    decreases t, 1
  {
    match t
    case FloatLiteral =>
    case TermVariable(x) =>
      var scheme := s.context[LastBinding(s.context, x).value].scheme;
      SpecializationKeeps(s, scheme.body, scheme.quantified);
    case LambdaAbstraction(_, _) => LambdaKeeps(s, t, fuel);
    case Application(_, _) => ApplicationKeeps(s, t, fuel);
    case LetBinding(_, _, _) => LetKeeps(s, t, fuel);
  }

  lemma {:induction false} LambdaKeeps(s: InferenceState, t: Term, fuel: nat)
    requires t.LambdaAbstraction?
    requires !HasConstraint(s.context) && InferTerm(s, t, fuel).Ok?
    ensures !HasConstraint(InferTerm(s, t, fuel).value.0.context)
    ensures Scope(InferTerm(s, t, fuel).value.0.context) == Scope(s.context)
    ensures Advances(s.stream, InferTerm(s, t, fuel).value.0.stream)
    decreases t, 0
  {
    var (s1, a) := FreshName(s);
    var b := TermVariableBinding(t.parameter, TypeScheme(TypeVariable(a), []));
    var s2 := Push(Push(s1, TypeVariableIntro(a, ValueKind)), b);
    PushKeeps(s.context, TypeVariableIntro(a, ValueKind));
    PushKeeps(s.context + [TypeVariableIntro(a, ValueKind)], b);
    InferTermKeeps(s2, t.body, fuel);
    var inferred := InferTerm(s2, t.body, fuel).value;
    PopKeeps(inferred.0, Scope(s.context), b);
  }

  lemma {:induction false} ApplicationKeeps(s: InferenceState, t: Term, fuel: nat)
    requires t.Application?
    requires !HasConstraint(s.context) && InferTerm(s, t, fuel).Ok?
    ensures !HasConstraint(InferTerm(s, t, fuel).value.0.context)
    ensures Scope(InferTerm(s, t, fuel).value.0.context) == Scope(s.context)
    ensures Advances(s.stream, InferTerm(s, t, fuel).value.0.stream)
    decreases t, 0
  {
    InferTermKeeps(s, t.func, fuel);
    var fr := InferTerm(s, t.func, fuel).value;
    InferTermKeeps(fr.0, t.arg, fuel);
    var ar := InferTerm(fr.0, t.arg, fuel).value;
    var (s3, ret) := FreshName(ar.0);
    PushKeeps(ar.0.context, TypeVariableIntro(ret, ValueKind));
    UnifyTypesKeeps(Push(s3, TypeVariableIntro(ret, ValueKind)), fr.1, ArrowType(ar.1, TypeVariable(ret)), fuel);
  }

  lemma {:induction false} LetKeeps(s: InferenceState, t: Term, fuel: nat)
    requires t.LetBinding?
    requires !HasConstraint(s.context) && InferTerm(s, t, fuel).Ok?
    ensures !HasConstraint(InferTerm(s, t, fuel).value.0.context)
    ensures Scope(InferTerm(s, t, fuel).value.0.context) == Scope(s.context)
    ensures Advances(s.stream, InferTerm(s, t, fuel).value.0.stream)
    decreases t, 0
  {
    InferGeneralizedKeeps(s, t.bound, fuel);
    var g := InferGeneralized(s, t.bound, fuel).value;
    var b := TermVariableBinding(t.binder, g.1);
    PushKeeps(g.0.context, b);
    InferTermKeeps(Push(g.0, b), t.expression, fuel);
    var er := InferTerm(Push(g.0, b), t.expression, fuel).value;
    PopKeeps(er.0, Scope(s.context), b);
  }

  lemma {:induction false} InferGeneralizedKeeps(s: InferenceState, t: Term, fuel: nat)
    requires !HasConstraint(s.context) && InferGeneralized(s, t, fuel).Ok?
    ensures !HasConstraint(InferGeneralized(s, t, fuel).value.0.context)
    ensures Scope(InferGeneralized(s, t, fuel).value.0.context) == Scope(s.context)
    ensures Advances(s.stream, InferGeneralized(s, t, fuel).value.0.stream)
    decreases t, 2
  {
    PushKeeps(s.context, LocalityMarker);
    InferTermKeeps(Push(s, LocalityMarker), t, fuel);
    var inferred := InferTerm(Push(s, LocalityMarker), t, fuel).value;
    SkimmedKeeps(inferred.0.context);
    CancelLast(Scope(Skimmed(inferred.0.context).value.0), Scope(s.context), LocalityMarker);
  }

  /** Solving one new constraint in a context without pending constraints
      leaves none, keeps the scope, and moves only the "h" and "b" counters,
      forward. */
  lemma UnifyTypesKeeps(s: InferenceState, left: Type, right: Type, fuel: nat)
    requires !HasConstraint(s.context) && UnifyTypes(s, left, right, fuel).Ok?
    ensures !HasConstraint(UnifyTypes(s, left, right, fuel).value.context)
    ensures Scope(UnifyTypes(s, left, right, fuel).value.context) == Scope(s.context)
    ensures Advances(s.stream, UnifyTypes(s, left, right, fuel).value.stream)
    ensures forall p :: p != "h" && p != "b" ==> Counter(UnifyTypes(s, left, right, fuel).value.stream, p) == Counter(s.stream, p)
  {
    var c := TypeConstraint([], left, right);
    ConstraintFreeWellFormed(s.context);
    WellFormedConcat(s.context, [c]);
    UnifiedKeeps(Push(s, c), fuel);
    ScopeConcat(s.context, [c]);
    Singleton(c);
  }

  // ---------------------------------------------------------------------
  // Examples.

  const T0: Type := TypeVariable("t0")

  /** A literal is typed `Float<1>` and leaves the state as it was. */
  lemma FloatLiteralExample(s: InferenceState, fuel: nat)
    ensures InferTerm(s, FloatLiteral, fuel) == Ok((s, FloatType(UnitIdentity)))
    ensures Infer(InferenceState(Empty, []), FloatLiteral, fuel) == Ok(FloatType(UnitIdentity))
  {
    assert Normalize([]) == Ok([]);
  }

  /** With nothing in context, `λx.x` is typed `t0 -> t0`. */
  lemma IdentityExample()
    ensures Infer(InferenceState(Empty, []), LambdaAbstraction("x", TermVariable("x")), 1)
      == Ok(ArrowType(T0, T0))
  {
    assert "t" + "0" == "t0";
    var s1 := InferenceState(Stream(map["t" := 1]), []);
    assert FreshName(InferenceState(Empty, [])) == (s1, "t0");
    var b := TermVariableBinding("x", TypeScheme(T0, []));
    var ctx := [TypeVariableIntro("t0", ValueKind), b];
    var s2 := InferenceState(s1.stream, ctx);
    assert LastBinding(ctx, "x") == Some(1);
    assert InferTerm(s2, TermVariable("x"), 1) == Ok((s2, T0));
    assert ctx[..1] + ctx[2..] == [TypeVariableIntro("t0", ValueKind)];
    var final := InferenceState(s1.stream, [TypeVariableIntro("t0", ValueKind)]);
    assert Push(Push(s1, TypeVariableIntro("t0", ValueKind)), b) == s2;
    assert PopBinding(s2, "x") == Ok(final);
    assert InferTerm(InferenceState(Empty, []), LambdaAbstraction("x", TermVariable("x")), 1)
      == Ok((final, ArrowType(T0, T0)));
    NormalizeWithoutDefinitions(final.context);
    ApplyWithoutDefinitions(final.context, ArrowType(T0, T0));
  }
}
