/** The solving rules of a type constraint in the Hindley-Milner engine
    (`TypeConstraint.Solve` of Inference.Basic). A rule looks at the top entry
    of the context before the constraint and replaces the constraint and that
    entry by a few entries; the rest of the prefix and the whole suffix are
    rebuilt around them unchanged. */
module BasicConstraints {
  import opened Results
  import opened BasicTypes
  import opened BasicContext

  /** `TypeConstraint.Substitute`: both sides rewritten; the hoisted
      dependencies are not carried over. */
  function SubstituteConstraint(c: Entry, name: string, subWith: Type): Entry
    requires c.TypeConstraint?
  {
    TypeConstraint([], Substitute(c.left, name, subWith), Substitute(c.right, name, subWith))
  }

  /** `Solve(prefix, suffix)` for the constraint `c`. */
  function Solve(c: Entry, prefix: seq<Entry>, suffix: seq<Entry>): Result<seq<Entry>>
    requires c.TypeConstraint?
  {
    match (c.left, c.right)
    case (ArrowType(i1, o1), ArrowType(i2, o2)) =>
      Ok(prefix + [TypeConstraint([], i1, i2), TypeConstraint([], o1, o2)] + suffix)
    case (TypeVariable(l), TypeVariable(rt)) =>
      if prefix == [] then Err(IndexOutOfRange)
      else
        var mid :- VariablesRule(c, l, rt, prefix[|prefix| - 1]);
        Ok(prefix[..|prefix| - 1] + mid + suffix)
    case (TypeVariable(l), _) => StepFlexRigid(c, l, c.right, prefix, suffix)
    case (_, TypeVariable(rt)) => StepFlexRigid(c, rt, c.left, prefix, suffix)
  }

  /** What replaces a variable-variable constraint and the entry `top` below it. */
  function VariablesRule(c: Entry, l: string, rt: string, top: Entry): Result<seq<Entry>>
    requires c.TypeConstraint?
  {
    match top
    case LocalityMarker => Ok([c, top])
    case TermVariableBinding(_, _) => Ok([c, top])
    case TypeVariableIntro(i) =>
      if l == i && rt == i then Ok([top])
      else if l == i then Ok([TypeVariableDefinition(l, TypeVariable(rt))])
      else if rt == i then Ok([TypeVariableDefinition(rt, TypeVariable(l))])
      else Ok([c, top])
    case TypeVariableDefinition(d, def) =>
      if l == d && rt == d then Ok([top])
      else Ok([SubstituteConstraint(c, d, def), top])
    case TypeConstraint(_, _, _) => Err(UnknownContextEntry)
  }

  /** `StepFlexRigid(flex, rigid, prefix, suffix)`. */
  function StepFlexRigid(c: Entry, flex: string, rigid: Type, prefix: seq<Entry>, suffix: seq<Entry>)
    : Result<seq<Entry>>
    requires c.TypeConstraint?
  {
    if prefix == [] then Err(IndexOutOfRange)
    else
      var mid :- FlexRigidRule(c, flex, rigid, prefix[|prefix| - 1]);
      Ok(prefix[..|prefix| - 1] + mid + suffix)
  }

  /** What replaces a flex-rigid constraint and the entry `top` below it. */
  function FlexRigidRule(c: Entry, flex: string, rigid: Type, top: Entry): Result<seq<Entry>>
    requires c.TypeConstraint?
  {
    match top
    case LocalityMarker => Ok([c, top])
    case TermVariableBinding(_, _) => Ok([c, top])
    case TypeVariableDefinition(d, def) => Ok(c.dependencies + [SubstituteConstraint(c, d, def), top])
    case TypeVariableIntro(i) =>
      if i == flex && i in FreeVariables(rigid) then Err(OccursCheckFailed)
      else if i == flex then Ok(c.dependencies + [TypeVariableDefinition(i, rigid)])
      else if i in FreeVariables(rigid) then Ok([TypeConstraint([top] + c.dependencies, c.left, c.right)])
      else Ok([c, top])
    case TypeConstraint(_, _, _) => Err(UnknownContextEntry)
  }

  // ---------------------------------------------------------------------
  // The shapes of constraints and what every rule keeps.

  predicate IsArrowPair(c: Entry)
    requires c.TypeConstraint?
  {
    c.left.ArrowType? && c.right.ArrowType?
  }

  /** Exactly one side of the constraint is a variable. */
  predicate IsFlexRigid(c: Entry)
    requires c.TypeConstraint?
  {
    c.left.TypeVariable? != c.right.TypeVariable?
  }

  function Flex(c: Entry): string
    requires c.TypeConstraint? && IsFlexRigid(c)
  {
    if c.left.TypeVariable? then c.left.name else c.right.name
  }

  function Rigid(c: Entry): Type
    requires c.TypeConstraint? && IsFlexRigid(c)
  {
    if c.left.TypeVariable? then c.right else c.left
  }

  lemma SolveCases(c: Entry, prefix: seq<Entry>, suffix: seq<Entry>)
    requires c.TypeConstraint?
    ensures IsArrowPair(c) ==>
      Solve(c, prefix, suffix)
        == Ok(prefix + [TypeConstraint([], c.left.input, c.right.input),
                        TypeConstraint([], c.left.output, c.right.output)] + suffix)
    ensures !IsArrowPair(c) && prefix == [] ==> Solve(c, prefix, suffix) == Err(IndexOutOfRange)
    ensures !IsArrowPair(c) && prefix != [] ==>
      Solve(c, prefix, suffix) ==
        var mid := Rule(c, prefix[|prefix| - 1]);
        if mid.Err? then Err(mid.error) else Ok(prefix[..|prefix| - 1] + mid.value + suffix)
  {
  }

  /** The rule a non-arrow constraint applies to the entry below it. */
  function Rule(c: Entry, top: Entry): Result<seq<Entry>>
    requires c.TypeConstraint? && !IsArrowPair(c)
  {
    if IsFlexRigid(c) then FlexRigidRule(c, Flex(c), Rigid(c), top)
    else VariablesRule(c, c.left.name, c.right.name, top)
  }

  /** The shape the engine keeps its constraints in: only intros are hoisted,
      and only a flex-rigid constraint carries any. */
  predicate WellFormedEntry(e: Entry)
  {
    e.TypeConstraint? ==> AllIntros(e.dependencies) && (e.dependencies != [] ==> IsFlexRigid(e))
  }

  predicate AllIntros(deps: seq<Entry>)
  {
    deps == [] || (deps[0].TypeVariableIntro? && AllIntros(deps[1..]))
  }

  predicate AllWellFormed(ctx: seq<Entry>)
  {
    forall e :: e in ctx ==> WellFormedEntry(e)
  }

  predicate IsScopeEntry(e: Entry)
  {
    e.TermVariableBinding? || e.LocalityMarker?
  }

  /** The term bindings and locality markers of a context, in order. */
  function Scope(ctx: seq<Entry>): seq<Entry>
  {
    if ctx == [] then [] else (if IsScopeEntry(ctx[0]) then [ctx[0]] else []) + Scope(ctx[1..])
  }

  function EntryDeclarations(e: Entry): multiset<string>
  {
    match e
    case TypeVariableIntro(n) => multiset{n}
    case TypeVariableDefinition(n, _) => multiset{n}
    case TypeConstraint(deps, _, _) => Declarations(deps)
    case _ => multiset{}
  }

  /** The type variables a context declares, counting the intros hoisted
      into its constraints. */
  function Declarations(ctx: seq<Entry>): multiset<string>
  {
    if ctx == [] then multiset{} else EntryDeclarations(ctx[0]) + Declarations(ctx[1..])
  }

  lemma {:induction false} ScopeConcat(a: seq<Entry>, b: seq<Entry>)
    ensures Scope(a + b) == Scope(a) + Scope(b)
  {
    if a != [] {
      assert (a + b)[1..] == a[1..] + b;
      ScopeConcat(a[1..], b);
    } else {
      assert a + b == b;
    }
  }

  lemma {:induction false} DeclarationsConcat(a: seq<Entry>, b: seq<Entry>)
    ensures Declarations(a + b) == Declarations(a) + Declarations(b)
  {
    if a != [] {
      assert (a + b)[1..] == a[1..] + b;
      DeclarationsConcat(a[1..], b);
    } else {
      assert a + b == b;
    }
  }

  lemma {:induction false} ScopeOfIntros(deps: seq<Entry>)
    requires AllIntros(deps)
    ensures Scope(deps) == []
  {
    if deps != [] {
      ScopeOfIntros(deps[1..]);
    }
  }

  lemma {:induction false} IntrosMembers(deps: seq<Entry>)
    requires AllIntros(deps)
    ensures forall e :: e in deps ==> e.TypeVariableIntro?
  {
    if deps != [] {
      IntrosMembers(deps[1..]);
      assert forall e :: e in deps ==> e == deps[0] || e in deps[1..];
    }
  }

  lemma Singleton(e: Entry)
    ensures Scope([e]) == if IsScopeEntry(e) then [e] else []
    ensures Declarations([e]) == EntryDeclarations(e)
  {
    assert [e][1..] == [];
  }

  lemma Pair(a: Entry, b: Entry)
    ensures Scope([a, b]) == Scope([a]) + Scope([b])
    ensures Declarations([a, b]) == Declarations([a]) + Declarations([b])
  {
    assert [a] + [b] == [a, b];
    ScopeConcat([a], [b]);
    DeclarationsConcat([a], [b]);
  }

  /** A rule keeps the scope entry it steps over, declares what the entry and
      the constraint's dependencies declared, and leaves well-formed entries. */
  lemma {:induction false} RuleKeeps(c: Entry, top: Entry)
    requires c.TypeConstraint? && !IsArrowPair(c) && WellFormedEntry(c)
    requires Rule(c, top).Ok?
    ensures Scope(Rule(c, top).value) == Scope([top])
    ensures Declarations(Rule(c, top).value) == Declarations([top]) + Declarations(c.dependencies)
    ensures forall e :: e in Rule(c, top).value ==> WellFormedEntry(e)
  {
    Singleton(top);
    Singleton(c);
    if IsFlexRigid(c) {
      FlexRigidRuleKeeps(c, Flex(c), Rigid(c), top);
    } else {
      VariablesRuleKeeps(c, c.left.name, c.right.name, top);
    }
  }

  /** What a rule replacing a constraint `c` and the entry `top` by `mid`
      keeps: the scope entry, the declarations of `top` and of the hoisted
      intros, and well-formedness. */
  predicate Keeps(c: Entry, top: Entry, mid: seq<Entry>)
    requires c.TypeConstraint?
  {
    && Scope(mid) == Scope([top])
    && Declarations(mid) == EntryDeclarations(top) + Declarations(c.dependencies)
    && forall e :: e in mid ==> WellFormedEntry(e)
  }

  lemma VariablesRuleKeeps(c: Entry, l: string, rt: string, top: Entry)
    requires c.TypeConstraint? && c.dependencies == [] && WellFormedEntry(c)
    requires VariablesRule(c, l, rt, top).Ok?
    ensures Keeps(c, top, VariablesRule(c, l, rt, top).value)
  {
    var mid := VariablesShape(c, l, rt, top);
    Singleton(c);
    Singleton(top);
    Singleton(mid[0]);
    if |mid| == 2 {
      Pair(mid[0], top);
    }
  }

  /** A variable-variable rule leaves the entry it steps over, possibly
      below the constraint or its rewritten form, or turns an intro into a
      definition of the same name. */
  lemma VariablesShape(c: Entry, l: string, rt: string, top: Entry) returns (mid: seq<Entry>)
    requires c.TypeConstraint? && c.dependencies == []
    requires VariablesRule(c, l, rt, top).Ok?
    ensures mid == VariablesRule(c, l, rt, top).value
    ensures 1 <= |mid| <= 2
    ensures |mid| == 1 ==>
      (mid[0] == top || (top.TypeVariableIntro? && mid[0].TypeVariableDefinition? && mid[0].name == top.name))
    ensures |mid| == 2 ==> mid[1] == top && mid[0].TypeConstraint? && mid[0].dependencies == []
  {
    mid := VariablesRule(c, l, rt, top).value;
  }

  lemma FlexRigidRuleKeeps(c: Entry, flex: string, rigid: Type, top: Entry)
    requires c.TypeConstraint? && WellFormedEntry(c) && IsFlexRigid(c)
    requires FlexRigidRule(c, flex, rigid, top).Ok?
    ensures Keeps(c, top, FlexRigidRule(c, flex, rigid, top).value)
  {
    var mid := FlexRigidRule(c, flex, rigid, top).value;
    if top.TypeVariableDefinition? {
      var s := SubstituteConstraint(c, top.name, top.definition);
      assert mid == c.dependencies + [s, top];
      KeepsAtDefinition(c, top, s, mid);
    } else if top.TypeVariableIntro? && top.name == flex {
      assert mid == c.dependencies + [TypeVariableDefinition(flex, rigid)];
      KeepsAtOwnIntro(c, top, rigid, mid);
    } else if top.TypeVariableIntro? && top.name in FreeVariables(rigid) {
      assert mid == [TypeConstraint([top] + c.dependencies, c.left, c.right)];
      KeepsAtOtherIntro(c, top, mid);
    } else {
      assert mid == [c, top];
      KeepsFloating(c, top, mid);
    }
  }

  lemma KeepsFloating(c: Entry, top: Entry, mid: seq<Entry>)
    requires c.TypeConstraint? && WellFormedEntry(c) && !top.TypeConstraint?
    requires !top.TypeVariableDefinition? && mid == [c, top]
    ensures Keeps(c, top, mid)
  {
    Singleton(c);
    Singleton(top);
    Pair(c, top);
  }

  /** Hoisted intros put back in front of `tail` add no scope entry and no
      ill-formed entry. */
  lemma HoistedBack(deps: seq<Entry>, tail: seq<Entry>)
    requires AllIntros(deps)
    requires forall e :: e in tail ==> WellFormedEntry(e)
    ensures Scope(deps + tail) == Scope(tail)
    ensures Declarations(deps + tail) == Declarations(deps) + Declarations(tail)
    ensures forall e :: e in deps + tail ==> WellFormedEntry(e)
  {
    ScopeOfIntros(deps);
    IntrosMembers(deps);
    ScopeConcat(deps, tail);
    DeclarationsConcat(deps, tail);
  }

  lemma KeepsAtDefinition(c: Entry, top: Entry, s: Entry, mid: seq<Entry>)
    requires top.TypeVariableDefinition?
    requires c.TypeConstraint? && WellFormedEntry(c)
    requires s.TypeConstraint? && s.dependencies == []
    requires mid == c.dependencies + [s, top]
    ensures Keeps(c, top, mid)
  {
    Singleton(top);
    Singleton(s);
    Pair(s, top);
    assert WellFormedEntry(s) && WellFormedEntry(top);
    HoistedBack(c.dependencies, [s, top]);
  }

  lemma KeepsAtOwnIntro(c: Entry, top: Entry, rigid: Type, mid: seq<Entry>)
    requires top.TypeVariableIntro?
    requires c.TypeConstraint? && WellFormedEntry(c)
    requires mid == c.dependencies + [TypeVariableDefinition(top.name, rigid)]
    ensures Keeps(c, top, mid)
  {
    var d := TypeVariableDefinition(top.name, rigid);
    Singleton(top);
    Singleton(d);
    HoistedBack(c.dependencies, [d]);
  }

  lemma KeepsAtOtherIntro(c: Entry, top: Entry, mid: seq<Entry>)
    requires top.TypeVariableIntro?
    requires c.TypeConstraint? && WellFormedEntry(c) && IsFlexRigid(c)
    requires mid == [TypeConstraint([top] + c.dependencies, c.left, c.right)]
    ensures Keeps(c, top, mid)
  {
    var deps := c.dependencies;
    var h := mid[0];
    assert ([top] + deps)[1..] == deps;
    Singleton(top);
    Singleton(h);
    DeclarationsConcat([top], deps);
    assert WellFormedEntry(h);
  }

  /** Every rule leaves the suffix untouched and keeps the prefix below its
      top entry; the arrow rule keeps the whole prefix. */
  lemma SolveFrame(c: Entry, prefix: seq<Entry>, suffix: seq<Entry>)
    requires c.TypeConstraint?
    ensures Solve(c, prefix, suffix).Ok? ==>
      var r := Solve(c, prefix, suffix).value;
      |r| >= |suffix| && r[|r| - |suffix|..] == suffix
      && (prefix != [] ==> prefix[..|prefix| - 1] <= r)
      && (IsArrowPair(c) ==> prefix <= r)
  {
    SolveCases(c, prefix, suffix);
  }

  /** The ways solving fails, and exactly when each happens. */
  lemma SolveErrors(c: Entry, prefix: seq<Entry>, suffix: seq<Entry>)
    requires c.TypeConstraint?
    ensures var r := Solve(c, prefix, suffix);
      && (r.Err? ==> r.error in {IndexOutOfRange, UnknownContextEntry, OccursCheckFailed})
      && (r == Err(IndexOutOfRange) <==> !IsArrowPair(c) && prefix == [])
      && (r == Err(UnknownContextEntry) <==>
            !IsArrowPair(c) && prefix != [] && prefix[|prefix| - 1].TypeConstraint?)
      && (r == Err(OccursCheckFailed) <==>
            IsFlexRigid(c) && prefix != [] && prefix[|prefix| - 1] == TypeVariableIntro(Flex(c))
            && Flex(c) in FreeVariables(Rigid(c)))
  {
    SolveCases(c, prefix, suffix);
  }

  /** Scope and declarations of a context rebuilt from pieces. */
  lemma Reassembled(kept: seq<Entry>, mid: seq<Entry>, suffix: seq<Entry>)
    ensures Scope(kept + mid + suffix) == Scope(kept) + Scope(mid) + Scope(suffix)
    ensures Declarations(kept + mid + suffix) == Declarations(kept) + Declarations(mid) + Declarations(suffix)
  {
    ScopeConcat(kept + mid, suffix);
    ScopeConcat(kept, mid);
    DeclarationsConcat(kept + mid, suffix);
    DeclarationsConcat(kept, mid);
  }

  lemma PrefixSplit(prefix: seq<Entry>)
    requires prefix != []
    ensures Scope(prefix) == Scope(prefix[..|prefix| - 1]) + Scope([prefix[|prefix| - 1]])
    ensures Declarations(prefix) == Declarations(prefix[..|prefix| - 1]) + Declarations([prefix[|prefix| - 1]])
  {
    assert prefix == prefix[..|prefix| - 1] + [prefix[|prefix| - 1]];
    ScopeConcat(prefix[..|prefix| - 1], [prefix[|prefix| - 1]]);
    DeclarationsConcat(prefix[..|prefix| - 1], [prefix[|prefix| - 1]]);
  }

  lemma SolveArrow(c: Entry, prefix: seq<Entry>, suffix: seq<Entry>)
    requires c.TypeConstraint? && IsArrowPair(c)
    ensures Solve(c, prefix, suffix)
      == Ok(prefix + [TypeConstraint([], c.left.input, c.right.input),
                      TypeConstraint([], c.left.output, c.right.output)] + suffix)
  {
  }

  lemma SolveRule(c: Entry, prefix: seq<Entry>, suffix: seq<Entry>)
    requires c.TypeConstraint? && !IsArrowPair(c) && Solve(c, prefix, suffix).Ok?
    ensures prefix != [] && Rule(c, prefix[|prefix| - 1]).Ok?
    ensures Solve(c, prefix, suffix).value == prefix[..|prefix| - 1] + Rule(c, prefix[|prefix| - 1]).value + suffix
  {
    SolveCases(c, prefix, suffix);
  }

  lemma ArrowPieces(c: Entry) returns (mid: seq<Entry>)
    requires c.TypeConstraint? && IsArrowPair(c) && WellFormedEntry(c)
    ensures mid == [TypeConstraint([], c.left.input, c.right.input), TypeConstraint([], c.left.output, c.right.output)]
    ensures Scope(mid) == [] && Declarations(mid) == multiset{} == Declarations(c.dependencies)
    ensures forall e :: e in mid ==> WellFormedEntry(e)
  {
    var a := TypeConstraint([], c.left.input, c.right.input);
    var b := TypeConstraint([], c.left.output, c.right.output);
    mid := [a, b];
    Pair(a, b);
    Singleton(a);
    Singleton(b);
  }

  /** No rule adds, drops or reorders a term binding or a locality marker. */
  lemma SolvePreservesScope(c: Entry, prefix: seq<Entry>, suffix: seq<Entry>)
    requires c.TypeConstraint? && WellFormedEntry(c)
    requires Solve(c, prefix, suffix).Ok?
    ensures Scope(Solve(c, prefix, suffix).value) == Scope(prefix) + Scope(suffix)
  {
    if IsArrowPair(c) {
      SolveArrow(c, prefix, suffix);
      var mid := ArrowPieces(c);
      Reassembled(prefix, mid, suffix);
    } else {
      SolveRule(c, prefix, suffix);
      var top := prefix[|prefix| - 1];
      RuleKeeps(c, top);
      Reassembled(prefix[..|prefix| - 1], Rule(c, top).value, suffix);
      PrefixSplit(prefix);
    }
  }

  /** No rule loses or invents a type variable declaration: an intro becomes a
      definition, moves into a constraint's dependencies, or comes back out. */
  lemma SolvePreservesDeclarations(c: Entry, prefix: seq<Entry>, suffix: seq<Entry>)
    requires c.TypeConstraint? && WellFormedEntry(c)
    requires Solve(c, prefix, suffix).Ok?
    ensures Declarations(Solve(c, prefix, suffix).value)
      == Declarations(prefix) + Declarations(c.dependencies) + Declarations(suffix)
  {
    if IsArrowPair(c) {
      SolveArrow(c, prefix, suffix);
      var mid := ArrowPieces(c);
      Reassembled(prefix, mid, suffix);
    } else {
      SolveRule(c, prefix, suffix);
      var top := prefix[|prefix| - 1];
      RuleKeeps(c, top);
      Reassembled(prefix[..|prefix| - 1], Rule(c, top).value, suffix);
      PrefixSplit(prefix);
    }
  }

  /** Every rule keeps the engine's constraints well formed. */
  lemma SolvePreservesWellFormed(c: Entry, prefix: seq<Entry>, suffix: seq<Entry>)
    requires c.TypeConstraint? && WellFormedEntry(c)
    requires AllWellFormed(prefix) && AllWellFormed(suffix)
    requires Solve(c, prefix, suffix).Ok?
    ensures AllWellFormed(Solve(c, prefix, suffix).value)
  {
    if IsArrowPair(c) {
      SolveArrow(c, prefix, suffix);
      var mid := ArrowPieces(c);
    } else {
      SolveRule(c, prefix, suffix);
      RuleKeeps(c, prefix[|prefix| - 1]);
      assert forall e :: e in prefix[..|prefix| - 1] ==> e in prefix;
    }
  }
}
