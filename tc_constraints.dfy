/** The solving rules of a type constraint in the type-class engine
    (`TypeConstraint.Solve` of Inference.Typeclasses). Constructors and
    applications are compared structurally; otherwise a rule looks at the
    top entry of the context before the constraint and replaces the
    constraint and that entry by a few entries, rebuilding the rest of the
    prefix and the whole suffix around them unchanged. No rule draws a fresh
    name, so the fresh stream is passed through untouched and is not an
    argument here. */
module TcConstraints {
  import opened Results
  import opened TcTypes
  import opened Bindings
  import opened TcContext

  /** `TypeConstraint.Substitute`: both sides rewritten; the hoisted
      dependencies are not carried over. */
  function SubstituteConstraint(c: Entry, name: string, subWith: Type): (r: Entry)
    requires c.TypeConstraint?
    ensures r.TypeConstraint? && r.dependencies == []
  {
    TypeConstraint([], Substitute(c.left, name, subWith), Substitute(c.right, name, subWith))
  }

  /** `Solve(fresh, prefix, suffix)` for the constraint `c`, the new context. */
  function Solve(c: Entry, prefix: seq<Entry>, suffix: seq<Entry>): Result<seq<Entry>>
    requires c.TypeConstraint?
  {
    match (c.left, c.right)
    case (TypeConstructor(l, _), TypeConstructor(rt, _)) =>
      if l != rt then Err(RigidRigidMismatch) else Ok(prefix + suffix)
    case (TypeApplication(f1, a1), TypeApplication(f2, a2)) =>
      Ok(prefix + [TypeConstraint([], f1, f2), TypeConstraint([], a1, a2)] + suffix)
    case (TypeVariable(l, _), TypeVariable(rt, _)) =>
      if prefix == [] then Err(IndexOutOfRange)
      else
        var mid :- VariablesRule(c, l, rt, prefix[|prefix| - 1]);
        Ok(prefix[..|prefix| - 1] + mid + suffix)
    case (TypeVariable(_, _), _) => StepFlexRigid(c, c.left, c.right, prefix, suffix)
    case (_, TypeVariable(_, _)) => StepFlexRigid(c, c.right, c.left, prefix, suffix)
    case _ => Err(RigidRigidMismatch)
  }

  /** What replaces a variable-variable constraint and the entry `top` below
      it. The kinds of the two variables are not compared. */
  function VariablesRule(c: Entry, l: string, rt: string, top: Entry): Result<seq<Entry>>
    requires c.TypeConstraint?
  {
    match top
    case LocalityMarker => Ok([c, top])
    case TermVariableBinding(_, _) => Ok([c, top])
    case TypeclassDeclaration(_, _) => Ok([c, top])
    case TypeVariableIntro(i, _) =>
      if l == i && rt == i then Ok([top])
      else if l == i then Ok([TypeVariableDefinition(l, c.right)])
      else if rt == i then Ok([TypeVariableDefinition(rt, c.left)])
      else Ok([c, top])
    case TypeVariableDefinition(d, def) =>
      if l == d && rt == d then Ok([top])
      else Ok([SubstituteConstraint(c, d, def), top])
    case TypeConstraint(_, _, _) => Err(UnknownContextEntry)
  }

  /** `StepFlexRigid(flex, rigid, prefix, suffix)`: the kinds are compared
      before the context is looked at. */
  function StepFlexRigid(c: Entry, flex: Type, rigid: Type, prefix: seq<Entry>, suffix: seq<Entry>)
    : Result<seq<Entry>>
    requires c.TypeConstraint? && flex.TypeVariable?
  {
    var rigidKind :- KindOf(rigid);
    if flex.kind != rigidKind then Err(KindMismatch)
    else if prefix == [] then Err(IndexOutOfRange)
    else
      var mid :- FlexRigidRule(c, flex.name, rigid, prefix[|prefix| - 1]);
      Ok(prefix[..|prefix| - 1] + mid + suffix)
  }

  /** What replaces a flex-rigid constraint and the entry `top` below it.
      There is no rule for a class declaration. */
  function FlexRigidRule(c: Entry, flex: string, rigid: Type, top: Entry): Result<seq<Entry>>
    requires c.TypeConstraint?
  {
    match top
    case LocalityMarker => Ok([c, top])
    case TermVariableBinding(_, _) => Ok([c, top])
    case TypeVariableDefinition(d, def) => Ok(c.dependencies + [SubstituteConstraint(c, d, def), top])
    case TypeVariableIntro(i, _) =>
      if i == flex && i in FreeVariables(rigid) then Err(OccursCheckFailed)
      else if i == flex then Ok(c.dependencies + [TypeVariableDefinition(i, rigid)])
      else if i in FreeVariables(rigid) then Ok([TypeConstraint([top] + c.dependencies, c.left, c.right)])
      else Ok([c, top])
    case TypeclassDeclaration(_, _) => Err(UnknownContextEntry)
    case TypeConstraint(_, _, _) => Err(UnknownContextEntry)
  }

  // ---------------------------------------------------------------------
  // The shapes of constraints.

  /** Both sides are constructors, or both are applications: the rules that
      do not look at the context. */
  predicate IsStructural(c: Entry)
    requires c.TypeConstraint?
  {
    (c.left.TypeConstructor? && c.right.TypeConstructor?) || (c.left.TypeApplication? && c.right.TypeApplication?)
  }

  /** Exactly one side of the constraint is a variable. */
  predicate IsFlexRigid(c: Entry)
    requires c.TypeConstraint?
  {
    c.left.TypeVariable? != c.right.TypeVariable?
  }

  predicate IsVariablePair(c: Entry)
    requires c.TypeConstraint?
  {
    c.left.TypeVariable? && c.right.TypeVariable?
  }

  function Flex(c: Entry): (v: Type)
    requires c.TypeConstraint? && IsFlexRigid(c)
    ensures v.TypeVariable?
  {
    if c.left.TypeVariable? then c.left else c.right
  }

  function Rigid(c: Entry): Type
    requires c.TypeConstraint? && IsFlexRigid(c)
  {
    if c.left.TypeVariable? then c.right else c.left
  }

  /** The kind check of a flex-rigid constraint passes. */
  predicate KindsAgree(c: Entry)
    requires c.TypeConstraint? && IsFlexRigid(c)
  {
    KindOf(Rigid(c)) == Ok(Flex(c).kind)
  }

  /** The rule a variable-variable or kind-correct flex-rigid constraint
      applies to the entry below it. */
  function Rule(c: Entry, top: Entry): Result<seq<Entry>>
    requires c.TypeConstraint? && (IsVariablePair(c) || (IsFlexRigid(c) && KindsAgree(c)))
  {
    if IsFlexRigid(c) then FlexRigidRule(c, Flex(c).name, Rigid(c), top)
    else VariablesRule(c, c.left.name, c.right.name, top)
  }

  lemma SolveCases(c: Entry, prefix: seq<Entry>, suffix: seq<Entry>)
    requires c.TypeConstraint?
    ensures c.left.TypeConstructor? && c.right.TypeConstructor? ==>
      Solve(c, prefix, suffix) == if c.left.name == c.right.name then Ok(prefix + suffix) else Err(RigidRigidMismatch)
    ensures c.left.TypeApplication? && c.right.TypeApplication? ==>
      Solve(c, prefix, suffix)
        == Ok(prefix + [TypeConstraint([], c.left.func, c.right.func), TypeConstraint([], c.left.arg, c.right.arg)] + suffix)
    ensures !IsStructural(c) && !IsVariablePair(c) && !IsFlexRigid(c) ==> Solve(c, prefix, suffix) == Err(RigidRigidMismatch)
    ensures IsFlexRigid(c) && KindOf(Rigid(c)).Err? ==> Solve(c, prefix, suffix) == Err(KindOf(Rigid(c)).error)
    ensures IsFlexRigid(c) && KindOf(Rigid(c)).Ok? && !KindsAgree(c) ==> Solve(c, prefix, suffix) == Err(KindMismatch)
    ensures (IsVariablePair(c) || (IsFlexRigid(c) && KindsAgree(c))) && prefix == [] ==>
      Solve(c, prefix, suffix) == Err(IndexOutOfRange)
    ensures (IsVariablePair(c) || (IsFlexRigid(c) && KindsAgree(c))) && prefix != [] ==>
      Solve(c, prefix, suffix) ==
        var mid := Rule(c, prefix[|prefix| - 1]);
        if mid.Err? then Err(mid.error) else Ok(prefix[..|prefix| - 1] + mid.value + suffix)
  {
  }

  // ---------------------------------------------------------------------
  // What every rule keeps.

  /** The shape the engine keeps its constraints in: only intros are hoisted,
      and only a flex-rigid constraint carries any. */
  predicate WellFormedEntry(e: Entry)
  {
    e.TypeConstraint? ==> AllIntros(e.dependencies) && (e.dependencies != [] ==> IsFlexRigid(e))
  }

  predicate AllIntros(deps: seq<Entry>)
  {
    deps == [] || (deps[0].TypeVariableIntro? && AllIntros(deps[1..]))
  }

  predicate AllWellFormed(ctx: seq<Entry>)
  {
    forall e :: e in ctx ==> WellFormedEntry(e)
  }

  /** The entries no rule rewrites: term bindings, locality markers and class
      declarations. */
  predicate IsScopeEntry(e: Entry)
  {
    e.TermVariableBinding? || e.LocalityMarker? || e.TypeclassDeclaration?
  }

  /** The scope entries of a context, in order. */
  function Scope(ctx: seq<Entry>): seq<Entry>
  {
    if ctx == [] then [] else (if IsScopeEntry(ctx[0]) then [ctx[0]] else []) + Scope(ctx[1..])
  }

  function EntryDeclarations(e: Entry): multiset<string>
  {
    match e
    case TypeVariableIntro(n, _) => multiset{n}
    case TypeVariableDefinition(n, _) => multiset{n}
    case TypeConstraint(deps, _, _) => Declarations(deps)
    case _ => multiset{}
  }

  /** The type variables a context declares, counting the intros hoisted
      into its constraints. */
  function Declarations(ctx: seq<Entry>): multiset<string>
  {
    if ctx == [] then multiset{} else EntryDeclarations(ctx[0]) + Declarations(ctx[1..])
  }

  lemma {:induction false} ScopeConcat(a: seq<Entry>, b: seq<Entry>)
    ensures Scope(a + b) == Scope(a) + Scope(b)
  {
    if a != [] {
      assert (a + b)[1..] == a[1..] + b;
      ScopeConcat(a[1..], b);
    } else {
      assert a + b == b;
    }
  }

  lemma {:induction false} DeclarationsConcat(a: seq<Entry>, b: seq<Entry>)
    ensures Declarations(a + b) == Declarations(a) + Declarations(b)
  {
    if a != [] {
      assert (a + b)[1..] == a[1..] + b;
      DeclarationsConcat(a[1..], b);
    } else {
      assert a + b == b;
    }
  }

  lemma {:induction false} ScopeOfIntros(deps: seq<Entry>)
    requires AllIntros(deps)
    ensures Scope(deps) == []
  {
    if deps != [] {
      ScopeOfIntros(deps[1..]);
    }
  }

  lemma {:induction false} IntrosMembers(deps: seq<Entry>)
    requires AllIntros(deps)
    ensures forall e :: e in deps ==> e.TypeVariableIntro?
  {
    if deps != [] {
      IntrosMembers(deps[1..]);
      assert forall e :: e in deps ==> e == deps[0] || e in deps[1..];
    }
  }

  lemma Singleton(e: Entry)
    ensures Scope([e]) == if IsScopeEntry(e) then [e] else []
    ensures Declarations([e]) == EntryDeclarations(e)
  {
    assert [e][1..] == [];
  }

  lemma Pair(a: Entry, b: Entry)
    ensures Scope([a, b]) == Scope([a]) + Scope([b])
    ensures Declarations([a, b]) == Declarations([a]) + Declarations([b])
  {
    assert [a] + [b] == [a, b];
    ScopeConcat([a], [b]);
    DeclarationsConcat([a], [b]);
  }

  /** What a rule replacing a constraint `c` and the entry `top` by `mid`
      keeps: the scope entry, the declarations of `top` and of the hoisted
      intros, and well-formedness. */
  predicate Keeps(c: Entry, top: Entry, mid: seq<Entry>)
    requires c.TypeConstraint?
  {
    && Scope(mid) == Scope([top])
    && Declarations(mid) == EntryDeclarations(top) + Declarations(c.dependencies)
    && forall e :: e in mid ==> WellFormedEntry(e)
  }

  /** A rule keeps the scope entry it steps over, declares what the entry and
      the constraint's dependencies declared, and leaves well-formed entries. */
  lemma RuleKeeps(c: Entry, top: Entry)
    requires c.TypeConstraint? && WellFormedEntry(c)
    requires IsVariablePair(c) || (IsFlexRigid(c) && KindsAgree(c))
    requires Rule(c, top).Ok?
    ensures Keeps(c, top, Rule(c, top).value)
  {
    if IsFlexRigid(c) {
      FlexRigidRuleKeeps(c, Flex(c).name, Rigid(c), top);
    } else {
      VariablesRuleKeeps(c, c.left.name, c.right.name, top);
    }
  }

  lemma VariablesRuleKeeps(c: Entry, l: string, rt: string, top: Entry)
    requires c.TypeConstraint? && c.dependencies == [] && WellFormedEntry(c)
    requires VariablesRule(c, l, rt, top).Ok?
    ensures Keeps(c, top, VariablesRule(c, l, rt, top).value)
  {
    var mid := VariablesRule(c, l, rt, top).value;
    match top
    case TypeVariableIntro(i, _) =>
      if l == i && rt == i {
        KeepsReplaced(c, top, top, mid);
      } else if l == i {
        KeepsReplaced(c, top, TypeVariableDefinition(l, c.right), mid);
      } else if rt == i {
        KeepsReplaced(c, top, TypeVariableDefinition(rt, c.left), mid);
      } else {
        KeepsBelow(c, c, top, mid);
      }
    case TypeVariableDefinition(d, def) =>
      if l == d && rt == d {
        KeepsReplaced(c, top, top, mid);
      } else {
        KeepsBelow(c, SubstituteConstraint(c, d, def), top, mid);
      }
    case _ =>
      KeepsBelow(c, c, top, mid);
  }

  /** A rule that puts a constraint without dependencies back on top of the
      entry it stepped over keeps what it should. */
  lemma KeepsBelow(c: Entry, s: Entry, top: Entry, mid: seq<Entry>)
    requires c.TypeConstraint? && c.dependencies == []
    requires s.TypeConstraint? && s.dependencies == [] && !top.TypeConstraint?
    requires mid == [s, top]
    ensures Keeps(c, top, mid)
  {
    Singleton(s);
    Singleton(top);
    Pair(s, top);
  }

  /** A rule that replaces a constraint without dependencies and the entry
      below it by one entry declaring the same names keeps what it should. */
  lemma KeepsReplaced(c: Entry, top: Entry, d: Entry, mid: seq<Entry>)
    requires c.TypeConstraint? && c.dependencies == [] && !top.TypeConstraint? && !d.TypeConstraint?
    requires top.TypeVariableIntro? || top.TypeVariableDefinition?
    requires (d.TypeVariableIntro? || d.TypeVariableDefinition?) && d.name == top.name
    requires mid == [d]
    ensures Keeps(c, top, mid)
  {
    Singleton(d);
    Singleton(top);
  }

  lemma FlexRigidRuleKeeps(c: Entry, flex: string, rigid: Type, top: Entry)
    requires c.TypeConstraint? && WellFormedEntry(c) && IsFlexRigid(c)
    requires FlexRigidRule(c, flex, rigid, top).Ok?
    ensures Keeps(c, top, FlexRigidRule(c, flex, rigid, top).value)
  {
    var mid := FlexRigidRule(c, flex, rigid, top).value;
    if top.TypeVariableDefinition? {
      var s := SubstituteConstraint(c, top.name, top.definition);
      assert mid == c.dependencies + [s, top];
      KeepsAtDefinition(c, top, s, mid);
    } else if top.TypeVariableIntro? && top.name == flex {
      assert mid == c.dependencies + [TypeVariableDefinition(flex, rigid)];
      KeepsAtOwnIntro(c, top, rigid, mid);
    } else if top.TypeVariableIntro? && top.name in FreeVariables(rigid) {
      assert mid == [TypeConstraint([top] + c.dependencies, c.left, c.right)];
      KeepsAtOtherIntro(c, top, mid);
    } else {
      assert mid == [c, top];
      KeepsFloating(c, top, mid);
    }
  }

  lemma KeepsFloating(c: Entry, top: Entry, mid: seq<Entry>)
    requires c.TypeConstraint? && WellFormedEntry(c) && !top.TypeConstraint?
    requires !top.TypeVariableDefinition? && mid == [c, top]
    ensures Keeps(c, top, mid)
  {
    Singleton(c);
    Singleton(top);
    Pair(c, top);
  }

  /** Hoisted intros put back in front of `tail` add no scope entry and no
      ill-formed entry. */
  lemma HoistedBack(deps: seq<Entry>, tail: seq<Entry>)
    requires AllIntros(deps)
    requires forall e :: e in tail ==> WellFormedEntry(e)
    ensures Scope(deps + tail) == Scope(tail)
    ensures Declarations(deps + tail) == Declarations(deps) + Declarations(tail)
    ensures forall e :: e in deps + tail ==> WellFormedEntry(e)
  {
    ScopeOfIntros(deps);
    IntrosMembers(deps);
    ScopeConcat(deps, tail);
    DeclarationsConcat(deps, tail);
  }

  lemma KeepsAtDefinition(c: Entry, top: Entry, s: Entry, mid: seq<Entry>)
    requires top.TypeVariableDefinition?
    requires c.TypeConstraint? && WellFormedEntry(c)
    requires s.TypeConstraint? && s.dependencies == []
    requires mid == c.dependencies + [s, top]
    ensures Keeps(c, top, mid)
  {
    Singleton(top);
    Singleton(s);
    Pair(s, top);
    assert WellFormedEntry(s) && WellFormedEntry(top);
    HoistedBack(c.dependencies, [s, top]);
  }

  lemma KeepsAtOwnIntro(c: Entry, top: Entry, rigid: Type, mid: seq<Entry>)
    requires top.TypeVariableIntro?
    requires c.TypeConstraint? && WellFormedEntry(c)
    requires mid == c.dependencies + [TypeVariableDefinition(top.name, rigid)]
    ensures Keeps(c, top, mid)
  {
    var d := TypeVariableDefinition(top.name, rigid);
    Singleton(top);
    Singleton(d);
    HoistedBack(c.dependencies, [d]);
  }

  lemma KeepsAtOtherIntro(c: Entry, top: Entry, mid: seq<Entry>)
    requires top.TypeVariableIntro?
    requires c.TypeConstraint? && WellFormedEntry(c) && IsFlexRigid(c)
    requires mid == [TypeConstraint([top] + c.dependencies, c.left, c.right)]
    ensures Keeps(c, top, mid)
  {
    var deps := c.dependencies;
    var h := mid[0];
    assert ([top] + deps)[1..] == deps;
    Singleton(top);
    Singleton(h);
    DeclarationsConcat([top], deps);
    assert WellFormedEntry(h);
  }

  // ---------------------------------------------------------------------
  // Solve as a whole.

  /** Every rule leaves the suffix untouched and keeps the prefix below its
      top entry; the structural rules keep the whole prefix. */
  lemma SolveFrame(c: Entry, prefix: seq<Entry>, suffix: seq<Entry>)
    requires c.TypeConstraint?
    ensures Solve(c, prefix, suffix).Ok? ==>
      var r := Solve(c, prefix, suffix).value;
      |r| >= |suffix| && r[|r| - |suffix|..] == suffix
      && (prefix != [] ==> prefix[..|prefix| - 1] <= r)
      && (IsStructural(c) ==> prefix <= r)
  {
    SolveCases(c, prefix, suffix);
  }

  /** The ways solving fails, and exactly when each happens. */
  lemma SolveErrors(c: Entry, prefix: seq<Entry>, suffix: seq<Entry>)
    requires c.TypeConstraint?
    ensures var r := Solve(c, prefix, suffix);
      && (r == Err(RigidRigidMismatch) <==>
            (c.left.TypeConstructor? && c.right.TypeConstructor? && c.left.name != c.right.name)
            || (!IsStructural(c) && !IsVariablePair(c) && !IsFlexRigid(c)))
      && (IsFlexRigid(c) && !KindsAgree(c) ==> r.Err? && r.error in {KindMismatch, IllKindedApplication})
      && (r.Err? && r.error in {KindMismatch, IllKindedApplication} ==> IsFlexRigid(c) && !KindsAgree(c))
      && (r == Err(IndexOutOfRange) <==> (IsVariablePair(c) || (IsFlexRigid(c) && KindsAgree(c))) && prefix == [])
      && (r == Err(UnknownContextEntry) <==>
            prefix != [] && (
              (IsVariablePair(c) && prefix[|prefix| - 1].TypeConstraint?)
              || (IsFlexRigid(c) && KindsAgree(c)
                  && (prefix[|prefix| - 1].TypeConstraint? || prefix[|prefix| - 1].TypeclassDeclaration?))))
      && (r == Err(OccursCheckFailed) <==>
            IsFlexRigid(c) && KindsAgree(c) && prefix != []
            && prefix[|prefix| - 1].TypeVariableIntro? && prefix[|prefix| - 1].name == Flex(c).name
            && Flex(c).name in FreeVariables(Rigid(c)))
  {
    SolveCases(c, prefix, suffix);
    if IsFlexRigid(c) && KindOf(Rigid(c)).Err? {
      assert KindOf(Rigid(c)).error in {KindMismatch, IllKindedApplication};
    }
  }

  /** Scope and declarations of a context rebuilt from pieces. */
  lemma Reassembled(kept: seq<Entry>, mid: seq<Entry>, suffix: seq<Entry>)
    ensures Scope(kept + mid + suffix) == Scope(kept) + Scope(mid) + Scope(suffix)
    ensures Declarations(kept + mid + suffix) == Declarations(kept) + Declarations(mid) + Declarations(suffix)
  {
    ScopeConcat(kept + mid, suffix);
    ScopeConcat(kept, mid);
    DeclarationsConcat(kept + mid, suffix);
    DeclarationsConcat(kept, mid);
  }

  lemma PrefixSplit(prefix: seq<Entry>)
    requires prefix != []
    ensures Scope(prefix) == Scope(prefix[..|prefix| - 1]) + Scope([prefix[|prefix| - 1]])
    ensures Declarations(prefix) == Declarations(prefix[..|prefix| - 1]) + Declarations([prefix[|prefix| - 1]])
  {
    assert prefix == prefix[..|prefix| - 1] + [prefix[|prefix| - 1]];
    ScopeConcat(prefix[..|prefix| - 1], [prefix[|prefix| - 1]]);
    DeclarationsConcat(prefix[..|prefix| - 1], [prefix[|prefix| - 1]]);
  }

  /** What a successful solve is made of: the prefix and the suffix around
      the structural pieces, or around what the rule makes of the top entry. */
  lemma SolvePieces(c: Entry, prefix: seq<Entry>, suffix: seq<Entry>) returns (kept: seq<Entry>, mid: seq<Entry>)
    requires c.TypeConstraint? && WellFormedEntry(c) && Solve(c, prefix, suffix).Ok?
    ensures Solve(c, prefix, suffix).value == kept + mid + suffix
    ensures Scope(kept) + Scope(mid) == Scope(prefix)
    ensures Declarations(kept) + Declarations(mid) == Declarations(prefix) + Declarations(c.dependencies)
    ensures forall e :: e in kept ==> e in prefix
    ensures forall e :: e in mid ==> WellFormedEntry(e)
  {
    if IsStructural(c) {
      kept := prefix;
      if c.left.TypeConstructor? {
        assert c.left.name == c.right.name;
      }
      mid := StructuralPieces(c, prefix, suffix);
    } else {
      SolveRule(c, prefix, suffix);
      var top := prefix[|prefix| - 1];
      kept := prefix[..|prefix| - 1];
      mid := Rule(c, top).value;
      RuleKeeps(c, top);
      PrefixSplit(prefix);
      Singleton(top);
      assert forall e :: e in kept ==> e in prefix;
    }
  }

  /** A successful solve of a constraint that is not structural is a rule
      applied to the top entry of the prefix. */
  lemma SolveRule(c: Entry, prefix: seq<Entry>, suffix: seq<Entry>)
    requires c.TypeConstraint? && !IsStructural(c) && Solve(c, prefix, suffix).Ok?
    ensures IsVariablePair(c) || (IsFlexRigid(c) && KindsAgree(c))
    ensures prefix != [] && Rule(c, prefix[|prefix| - 1]).Ok?
    ensures Solve(c, prefix, suffix).value == prefix[..|prefix| - 1] + Rule(c, prefix[|prefix| - 1]).value + suffix
  {
    SolveCases(c, prefix, suffix);
  }

  /** The entries a structural rule leaves between prefix and suffix. */
  lemma StructuralPieces(c: Entry, prefix: seq<Entry>, suffix: seq<Entry>) returns (mid: seq<Entry>)
    requires c.TypeConstraint? && IsStructural(c) && WellFormedEntry(c)
    requires c.left.TypeConstructor? ==> c.left.name == c.right.name
    ensures Solve(c, prefix, suffix) == Ok(prefix + mid + suffix)
    ensures Scope(mid) == [] && Declarations(mid) == multiset{} == Declarations(c.dependencies)
    ensures forall e :: e in mid ==> WellFormedEntry(e)
  {
    assert c.dependencies == [];
    if c.left.TypeConstructor? {
      mid := [];
      assert prefix + suffix == prefix + mid + suffix;
    } else {
      var a := TypeConstraint([], c.left.func, c.right.func);
      var b := TypeConstraint([], c.left.arg, c.right.arg);
      mid := [a, b];
      assert Solve(c, prefix, suffix) == Ok(prefix + [a, b] + suffix);
      Pair(a, b);
      Singleton(a);
      Singleton(b);
    }
  }

  /** No rule adds, drops or reorders a term binding, a locality marker or a
      class declaration. */
  lemma SolvePreservesScope(c: Entry, prefix: seq<Entry>, suffix: seq<Entry>)
    requires c.TypeConstraint? && WellFormedEntry(c)
    requires Solve(c, prefix, suffix).Ok?
    ensures Scope(Solve(c, prefix, suffix).value) == Scope(prefix) + Scope(suffix)
  {
    var kept, mid := SolvePieces(c, prefix, suffix);
    Reassembled(kept, mid, suffix);
  }

  /** No rule loses or invents a type variable declaration: an intro becomes a
      definition, moves into a constraint's dependencies, or comes back out. */
  lemma SolvePreservesDeclarations(c: Entry, prefix: seq<Entry>, suffix: seq<Entry>)
    requires c.TypeConstraint? && WellFormedEntry(c)
    requires Solve(c, prefix, suffix).Ok?
    ensures Declarations(Solve(c, prefix, suffix).value)
      == Declarations(prefix) + Declarations(c.dependencies) + Declarations(suffix)
  {
    var kept, mid := SolvePieces(c, prefix, suffix);
    Reassembled(kept, mid, suffix);
  }

  /** Every rule keeps the engine's constraints well formed. */
  lemma SolvePreservesWellFormed(c: Entry, prefix: seq<Entry>, suffix: seq<Entry>)
    requires c.TypeConstraint? && WellFormedEntry(c)
    requires AllWellFormed(prefix) && AllWellFormed(suffix)
    requires Solve(c, prefix, suffix).Ok?
    ensures AllWellFormed(Solve(c, prefix, suffix).value)
  {
    var kept, mid := SolvePieces(c, prefix, suffix);
  }
}
