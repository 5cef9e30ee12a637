/** The unification machine of Inference.Basic (`UnificationMachine`): it
    repeatedly solves the first constraint of its entries, with the entries
    before it as prefix and those after it as suffix, until none is left. */
module BasicUnification {
  import opened Results
  import opened BasicTypes
  import opened BasicContext
  import opened BasicConstraints

  /** `CanStep`: some entry is a type constraint. */
  predicate CanStep(entries: seq<Entry>)
  {
    exists i :: 0 <= i < |entries| && entries[i].TypeConstraint?
  }

  /** The length of `TakeWhile(e => !(e is TypeConstraint))`. */
  function LeadingLength(entries: seq<Entry>): (k: nat)
    ensures k <= |entries|
    ensures forall i :: 0 <= i < k ==> !entries[i].TypeConstraint?
    ensures k < |entries| ==> entries[k].TypeConstraint?
    ensures k < |entries| <==> CanStep(entries)
  {
    if entries == [] || entries[0].TypeConstraint? then 0
    else 1 + LeadingLength(entries[1..])
  }

  /** `Step`: one rewrite of the first constraint. */
  function Step(entries: seq<Entry>): Result<seq<Entry>>
  {
    var k := LeadingLength(entries);
    var eqContext, eqAndRest := entries[..k], entries[k..];
    if eqAndRest == [] then Err(EmptySequence)
    else
      var eq, rest := eqAndRest[0], eqAndRest[1..];
      match (eq.left, eq.right)
      case (ArrowType(i1, o1), ArrowType(i2, o2)) =>
        Ok(eqContext + [TypeConstraint([], i1, i2)] + [TypeConstraint([], o1, o2)] + rest)
      case (TypeVariable(l), TypeVariable(rt)) => StepVariables(eq, l, rt, eqContext, rest)
      case (TypeVariable(l), _) => StepFlexRigid(eq, l, eq.right, eqContext, rest)
      case (_, TypeVariable(rt)) => StepFlexRigid(eq, rt, eq.left, eqContext, rest)
  }

  /** The variable-variable case of `Step`. */
  function StepVariables(eq: Entry, l: string, rt: string, eqContext: seq<Entry>, rest: seq<Entry>)
    : Result<seq<Entry>>
    requires eq.TypeConstraint?
  {
    if eqContext == [] then Err(EmptySequence)
    else
      var top, popped := eqContext[|eqContext| - 1], eqContext[..|eqContext| - 1];
      match top
      case LocalityMarker => Ok(popped + [eq] + [top] + rest)
      case TermVariableBinding(_, _) => Ok(popped + [eq] + [top] + rest)
      case TypeVariableIntro(i) =>
        if l == i && rt == i then Ok(popped + [top] + rest)
        else if l == i then Ok(popped + [TypeVariableDefinition(l, TypeVariable(rt))] + rest)
        else if rt == i then Ok(popped + [TypeVariableDefinition(rt, TypeVariable(l))] + rest)
        else Ok(popped + [eq] + [top] + rest)
      case TypeVariableDefinition(d, def) =>
        if l == d && rt == d then Ok(popped + [top] + rest)
        else Ok(popped + [SubstituteConstraint(eq, d, def)] + [top] + rest)
      case TypeConstraint(_, _, _) => Err(UnknownContextEntry)
  }

  /** `UnificationMachine.StepFlexRigid`. */
  function StepFlexRigid(eq: Entry, flex: string, rigid: Type, eqContext: seq<Entry>, rest: seq<Entry>)
    : Result<seq<Entry>>
    requires eq.TypeConstraint?
  {
    if eqContext == [] then Err(EmptySequence)
    else
      var top, popped := eqContext[|eqContext| - 1], eqContext[..|eqContext| - 1];
      match top
      case LocalityMarker => Ok(popped + [eq] + [top] + rest)
      case TermVariableBinding(_, _) => Ok(popped + [eq] + [top] + rest)
      case TypeVariableDefinition(d, def) =>
        Ok(popped + eq.dependencies + [SubstituteConstraint(eq, d, def)] + [top] + rest)
      case TypeVariableIntro(i) =>
        if i == flex && i in FreeVariables(rigid) then Err(OccursCheckFailed)
        else if i == flex then Ok(popped + eq.dependencies + [TypeVariableDefinition(i, rigid)] + rest)
        else if i in FreeVariables(rigid) then
          Ok(popped + [TypeConstraint([top] + eq.dependencies, eq.left, eq.right)] + rest)
        else Ok(popped + [eq] + [top] + rest)
      case TypeConstraint(_, _, _) => Err(UnknownContextEntry)
  }

  // ---------------------------------------------------------------------
  // The machine's step is the constraint's own `Solve`.

  lemma Associate(popped: seq<Entry>, a: seq<Entry>, b: seq<Entry>, rest: seq<Entry>)
    ensures popped + a + b + rest == popped + (a + b) + rest
  {
  }

  lemma AssociatePair(popped: seq<Entry>, a: Entry, b: Entry, rest: seq<Entry>)
    ensures popped + [a] + [b] + rest == popped + [a, b] + rest
  {
    assert [a] + [b] == [a, b];
    Associate(popped, [a], [b], rest);
  }

  lemma VariablesAgree(eq: Entry, l: string, rt: string, eqContext: seq<Entry>, rest: seq<Entry>)
    requires eq.TypeConstraint? && eqContext != []
    ensures var rule := VariablesRule(eq, l, rt, eqContext[|eqContext| - 1]);
      StepVariables(eq, l, rt, eqContext, rest)
        == if rule.Err? then Err(rule.error) else Ok(eqContext[..|eqContext| - 1] + rule.value + rest)
  {
    var top, popped := eqContext[|eqContext| - 1], eqContext[..|eqContext| - 1];
    AssociatePair(popped, eq, top, rest);
    if top.TypeVariableDefinition? {
      AssociatePair(popped, SubstituteConstraint(eq, top.name, top.definition), top, rest);
    }
  }

  lemma FlexRigidAgree(eq: Entry, flex: string, rigid: Type, eqContext: seq<Entry>, rest: seq<Entry>)
    requires eq.TypeConstraint? && eqContext != []
    ensures var rule := FlexRigidRule(eq, flex, rigid, eqContext[|eqContext| - 1]);
      StepFlexRigid(eq, flex, rigid, eqContext, rest)
        == if rule.Err? then Err(rule.error) else Ok(eqContext[..|eqContext| - 1] + rule.value + rest)
  {
    var top, popped := eqContext[|eqContext| - 1], eqContext[..|eqContext| - 1];
    AssociatePair(popped, eq, top, rest);
    if top.TypeVariableDefinition? {
      var s := SubstituteConstraint(eq, top.name, top.definition);
      assert [s] + [top] == [s, top];
      assert popped + eq.dependencies + [s] + [top] + rest == popped + (eq.dependencies + [s, top]) + rest;
    } else if top.TypeVariableIntro? {
      Associate(popped, eq.dependencies, [TypeVariableDefinition(top.name, rigid)], rest);
    }
  }

  /** The first constraint of `entries`, the entries before it and those after. */
  lemma FirstConstraint(entries: seq<Entry>) returns (eq: Entry, prefix: seq<Entry>, suffix: seq<Entry>)
    requires CanStep(entries)
    ensures eq.TypeConstraint? && entries == prefix + [eq] + suffix
    ensures forall e :: e in prefix ==> !e.TypeConstraint?
    ensures var k := LeadingLength(entries); eq == entries[k] && prefix == entries[..k] && suffix == entries[k + 1..]
  {
    var k := LeadingLength(entries);
    eq, prefix, suffix := entries[k], entries[..k], entries[k + 1..];
    assert entries == prefix + [eq] + suffix;
  }

  /** `Step` rewrites exactly as the first constraint's `Solve` does with the
      entries before it as prefix and those after it as suffix; only the
      failure for an empty prefix is raised differently (`Last()` instead of
      an index). */
  lemma StepIsSolve(entries: seq<Entry>)
    requires CanStep(entries)
    ensures var k := LeadingLength(entries);
      var solved := Solve(entries[k], entries[..k], entries[k + 1..]);
      Step(entries) == if solved == Err(IndexOutOfRange) then Err(EmptySequence) else solved
  {
    var k := LeadingLength(entries);
    var eq, prefix, suffix := entries[k], entries[..k], entries[k + 1..];
    assert entries[k..][0] == eq && entries[k..][1..] == suffix;
    SolveCases(eq, prefix, suffix);
    if IsArrowPair(eq) {
      AssociatePair(prefix, TypeConstraint([], eq.left.input, eq.right.input),
        TypeConstraint([], eq.left.output, eq.right.output), suffix);
    } else if prefix != [] {
      if IsFlexRigid(eq) {
        FlexRigidAgree(eq, Flex(eq), Rigid(eq), prefix, suffix);
        FlexRigidErrors(eq, Flex(eq), Rigid(eq), prefix[|prefix| - 1]);
      } else {
        VariablesAgree(eq, eq.left.name, eq.right.name, prefix, suffix);
        VariablesErrors(eq, eq.left.name, eq.right.name, prefix[|prefix| - 1]);
      }
    }
  }

  lemma VariablesErrors(eq: Entry, l: string, rt: string, top: Entry)
    requires eq.TypeConstraint?
    ensures VariablesRule(eq, l, rt, top) != Err(IndexOutOfRange)
  {
  }

  lemma FlexRigidErrors(eq: Entry, flex: string, rigid: Type, top: Entry)
    requires eq.TypeConstraint?
    ensures FlexRigidRule(eq, flex, rigid, top) != Err(IndexOutOfRange)
  {
  }

  // ---------------------------------------------------------------------
  // Running the machine.

  /** What `Run` returns when the machine may step at most `fuel` times: the
      entries once no constraint is left, or the failure of a step. */
  function Solved(entries: seq<Entry>, fuel: nat): Result<seq<Entry>>
    decreases fuel
  {
    if !CanStep(entries) then Ok(entries)
    else if fuel == 0 then Err(OutOfFuel)
    else
      var next :- Step(entries);
      Solved(next, fuel - 1)
  }

  /** One more step extends the run recorded so far. */
  lemma RunSnoc(steps: seq<seq<Entry>>, next: seq<Entry>)
    requires |steps| >= 1
    requires forall i :: 0 <= i < |steps| - 1 ==> Step(steps[i]) == Ok(steps[i + 1])
    requires Step(steps[|steps| - 1]) == Ok(next)
    ensures forall i :: 0 <= i < |steps| ==> Step((steps + [next])[i]) == Ok((steps + [next])[i + 1])
  {
    var t := steps + [next];
    forall i | 0 <= i < |steps|
      ensures Step(t[i]) == Ok(t[i + 1])
    {
      if i < |steps| - 1 {
        assert t[i] == steps[i] && t[i + 1] == steps[i + 1];
      } else {
        assert t[i] == steps[|steps| - 1] && t[i + 1] == next;
      }
    }
  }

  /** `Run(out steps)`: the entries once no constraint is left, and every
      machine the run passed through. */
  method Run(entries: seq<Entry>, fuel: nat) returns (r: Result<seq<Entry>>, steps: seq<seq<Entry>>)
    ensures r == Solved(entries, fuel)
    ensures |steps| >= 1 && steps[0] == entries
    ensures forall i :: 0 <= i < |steps| - 1 ==> Step(steps[i]) == Ok(steps[i + 1])
    ensures r.Ok? ==> r.value == steps[|steps| - 1] && !CanStep(r.value)
    ensures r.Err? ==> CanStep(steps[|steps| - 1])
    ensures !CanStep(entries) ==> r == Ok(entries) && steps == [entries]
  {
    var context := entries;
    steps := [entries];
    var n := 0;
    while CanStep(context)
      invariant 0 <= n <= fuel
      invariant |steps| == n + 1 && steps[0] == entries && steps[n] == context
      invariant forall i :: 0 <= i < n ==> Step(steps[i]) == Ok(steps[i + 1])
      invariant n > 0 ==> CanStep(entries)
      invariant Solved(entries, fuel) == Solved(context, fuel - n)
      decreases fuel - n
    {
      if n == fuel {
        return Err(OutOfFuel), steps;
      }
      var next := Step(context);
      if next.Err? {
        return Err(next.error), steps;
      }
      RunSnoc(steps, next.value);
      context := next.value;
      steps := steps + [context];
      n := n + 1;
    }
    r := Ok(context);
  }

  /** More fuel never changes an answer the machine reached. */
  lemma {:induction false} SolvedMoreFuel(entries: seq<Entry>, fuel: nat, more: nat)
    requires Solved(entries, fuel).Ok?
    requires fuel <= more
    ensures Solved(entries, more) == Solved(entries, fuel)
    decreases fuel
  {
    if CanStep(entries) {
      SolvedMoreFuel(Step(entries).value, fuel - 1, more - 1);
    }
  }

  /** One step keeps the term bindings and markers, the declared type
      variables and the well-formedness of every constraint. */
  /** The first constraint, with the entries before and after it, and what
      `Step` makes of them when it succeeds. */
  lemma StepSolves(entries: seq<Entry>) returns (eq: Entry, prefix: seq<Entry>, suffix: seq<Entry>)
    requires CanStep(entries) && Step(entries).Ok?
    ensures eq.TypeConstraint? && entries == prefix + [eq] + suffix
    ensures Solve(eq, prefix, suffix) == Step(entries)
  {
    eq, prefix, suffix := FirstConstraint(entries);
    StepIsSolve(entries);
  }

  /** One step keeps the term bindings and locality markers, in order. */
  lemma StepKeepsScope(entries: seq<Entry>)
    requires CanStep(entries) && AllWellFormed(entries) && Step(entries).Ok?
    ensures Scope(Step(entries).value) == Scope(entries)
  {
    var eq, prefix, suffix := StepSolves(entries);
    SolveKeepsScope(entries, prefix, eq, suffix);
  }

  lemma SolveKeepsScope(entries: seq<Entry>, prefix: seq<Entry>, eq: Entry, suffix: seq<Entry>)
    requires entries == prefix + [eq] + suffix && AllWellFormed(entries)
    requires eq.TypeConstraint? && Solve(eq, prefix, suffix).Ok?
    ensures Scope(Solve(eq, prefix, suffix).value) == Scope(entries)
  {
    Pieces(entries, prefix, eq, suffix);
    SolvePreservesScope(eq, prefix, suffix);
  }

  /** One step keeps every declared type variable, counting hoisted intros. */
  lemma StepKeepsDeclarations(entries: seq<Entry>)
    requires CanStep(entries) && AllWellFormed(entries) && Step(entries).Ok?
    ensures Declarations(Step(entries).value) == Declarations(entries)
  {
    var eq, prefix, suffix := StepSolves(entries);
    SolveKeepsDeclarations(entries, prefix, eq, suffix);
  }

  lemma SolveKeepsDeclarations(entries: seq<Entry>, prefix: seq<Entry>, eq: Entry, suffix: seq<Entry>)
    requires entries == prefix + [eq] + suffix && AllWellFormed(entries)
    requires eq.TypeConstraint? && Solve(eq, prefix, suffix).Ok?
    ensures Declarations(Solve(eq, prefix, suffix).value) == Declarations(entries)
  {
    Pieces(entries, prefix, eq, suffix);
    SolvePreservesDeclarations(eq, prefix, suffix);
  }

  /** One step keeps every constraint well formed. */
  lemma StepKeepsWellFormed(entries: seq<Entry>)
    requires CanStep(entries) && AllWellFormed(entries) && Step(entries).Ok?
    ensures AllWellFormed(Step(entries).value)
  {
    var eq, prefix, suffix := StepSolves(entries);
    SolveKeepsWellFormed(entries, prefix, eq, suffix);
  }

  lemma SolveKeepsWellFormed(entries: seq<Entry>, prefix: seq<Entry>, eq: Entry, suffix: seq<Entry>)
    requires entries == prefix + [eq] + suffix && AllWellFormed(entries)
    requires eq.TypeConstraint? && Solve(eq, prefix, suffix).Ok?
    ensures AllWellFormed(Solve(eq, prefix, suffix).value)
  {
    Pieces(entries, prefix, eq, suffix);
    SolvePreservesWellFormed(eq, prefix, suffix);
  }

  lemma Pieces(entries: seq<Entry>, prefix: seq<Entry>, eq: Entry, suffix: seq<Entry>)
    requires entries == prefix + [eq] + suffix && AllWellFormed(entries)
    ensures WellFormedEntry(eq) && AllWellFormed(prefix) && AllWellFormed(suffix)
    ensures Scope(entries) == Scope(prefix) + Scope([eq]) + Scope(suffix)
    ensures Declarations(entries) == Declarations(prefix) + Declarations([eq]) + Declarations(suffix)
    ensures Declarations([eq]) == EntryDeclarations(eq)
    ensures Scope([eq]) == if IsScopeEntry(eq) then [eq] else []
  {
    assert eq in entries;
    assert forall e :: e in prefix ==> e in entries;
    assert forall e :: e in suffix ==> e in entries;
    Reassembled(prefix, [eq], suffix);
    Singleton(eq);
  }

  /** A finished run leaves every term binding and marker where it was, and
      every declared type variable still declared exactly once as often. */
  lemma {:induction false} SolvedPreserves(entries: seq<Entry>, fuel: nat)
    requires AllWellFormed(entries) && Solved(entries, fuel).Ok?
    ensures !CanStep(Solved(entries, fuel).value)
    ensures Scope(Solved(entries, fuel).value) == Scope(entries)
    ensures Declarations(Solved(entries, fuel).value) == Declarations(entries)
    decreases fuel
  {
    if CanStep(entries) {
      StepKeepsScope(entries);
      StepKeepsDeclarations(entries);
      StepKeepsWellFormed(entries);
      SolvedPreserves(Step(entries).value, fuel - 1);
    }
  }
}
