/** Matching and unification of the type-class engine (`IType.Match`,
    `IType.Unify`, `IType.Overlap`), with the substitutions they return. */
module TcUnify {
  import opened Results
  import opened TcTypes
  import opened Bindings
  import opened TcSubstitutions

  // ---------------------------------------------------------------------
  // Set cardinality facts the termination argument needs.

  lemma SubsetCard(a: set<string>, b: set<string>)
    requires a <= b
    ensures |a| <= |b|
  {
    assert b == a + (b - a);
  }

  lemma StrictCard(a: set<string>, k: set<string>, u: set<string>)
    requires a <= u - k && k <= u && k != {}
    ensures |a| < |u|
  {
    var x :| x in k;
    SubsetCard(a, u - k);
    SubsetCard({x}, k);
    assert u == (u - k) + k;
  }

  // ---------------------------------------------------------------------
  // Match.

  /** `pattern.Match(t)`: a substitution for the pattern's variables that
      turns it into `t`, `None` when the shapes differ. Reading the kind of
      `t` can fail, and the two halves of an application are merged, which
      fails when they bind one variable to different types. */
  function Match(pattern: Type, t: Type): (r: Result<Option<Subst>>)
    ensures r.Ok? && r.value.Some? ==>
      && UniqueKeys(r.value.value)
      && Keys(r.value.value) == FreeVariables(pattern)
      && Equals(Simultaneous(r.value.value, pattern), t)
    ensures r.Err? ==> r.error.KindMismatch? || r.error.IllKindedApplication? || r.error.MergeConflict?
  {
    match pattern
    case TypeVariable(n, k) =>
      var kind :- KindOf(t);
      if k == kind then
        Snoc([], (n, t));
        Ok(Some([(n, t)]))
      else Ok(None)
    case TypeConstructor(n, _) =>
      if t.TypeConstructor? && t.name == n then Ok(Some([])) else Ok(None)
    case TypeApplication(f, a) =>
      if t.TypeApplication? then
        var left :- Match(f, t.func);
        var right :- Match(a, t.arg);
        if left.Some? && right.Some? then
          var m :- Merged(left.value, right.value);
          MergedFacts(left.value, right.value);
          SimultaneousAgree(m, left.value, f);
          SimultaneousAgree(m, right.value, a);
          Ok(Some(m))
        else Ok(None)
      else Ok(None)
  }

  // ---------------------------------------------------------------------
  // Unify.

  /** A most general unifier's shape: idempotent, and mentioning only
      variables of the two unified types. */
  predicate Confined(s: Subst, a: Type, b: Type)
  {
    && Idempotent(s)
    && Keys(s) <= FreeVariables(a) + FreeVariables(b)
    && FreeValues(s) <= FreeVariables(a) + FreeVariables(b)
  }

  /** `TypeVariable.Unify`: kinds must agree; the variable itself needs no
      binding; a type containing the variable fails the occurs check. */
  function VarUnify(name: string, kind: Kind, t: Type): (r: Result<Subst>)
    ensures r.Ok? ==> Confined(r.value, TypeVariable(name, kind), t)
    ensures r.Ok? <==> KindOf(t) == Ok(kind) && (Equals(TypeVariable(name, kind), t) || name !in FreeVariables(t))
    ensures r.Err? ==> r.error.KindMismatch? || r.error.IllKindedApplication? || r.error.OccursCheckFailed?
  {
    var k :- KindOf(t);
    if kind == k then
      if Equals(TypeVariable(name, kind), t) then Ok([])
      else if name in FreeVariables(t) then Err(OccursCheckFailed)
      else
        Snoc([], (name, t));
        assert [(name, t)][..0] == [];
        assert FreeValues([(name, t)]) == FreeVariables(t);
        assert UniqueKeys([(name, t)]);
        assert Keys([(name, t)]) == {name};
        Ok([(name, t)])
    else Err(KindMismatch)
  }

  /** The substitution the second half of an application is unified under
      leaves fewer variables, or the same ones in a smaller pair. */
  lemma Decreasing(s: Subst, x: Type, y: Type, u: set<string>)
    requires Idempotent(s) && Keys(s) <= u && FreeValues(s) <= u
    requires FreeVariables(x) + FreeVariables(y) <= u
    ensures s == [] ==> Applied(s, x) == x && Applied(s, y) == y
    ensures |FreeVariables(Applied(s, x)) + FreeVariables(Applied(s, y))| <= |u|
    ensures s != [] ==> |FreeVariables(Applied(s, x)) + FreeVariables(Applied(s, y))| < |u|
  {
    var v := FreeVariables(Applied(s, x)) + FreeVariables(Applied(s, y));
    AppliedRemovesKeys(s, x);
    AppliedRemovesKeys(s, y);
    SubsetCard(v, u);
    if s != [] {
      assert s[|s| - 1].0 in Keys(s);
      StrictCard(v, Keys(s), u);
    }
  }

  lemma {:induction false} ApplyValuesFree(left: Subst, s: Subst)
    requires Idempotent(left)
    ensures FreeValues(ApplyValues(left, s)) <= (FreeValues(s) + FreeValues(left)) - Keys(left)
  {
    if s != [] {
      ApplyValuesFree(left, s[..|s| - 1]);
      AppliedRemovesKeys(left, s[|s| - 1].1);
    }
  }

  lemma {:induction false} RightOnlyFree(left: Subst, right: Subst)
    ensures FreeValues(RightOnly(left, right)) <= FreeValues(right)
  {
    if right != [] {
      RightOnlyFree(left, right[..|right| - 1]);
      var last := right[|right| - 1];
      KeysConcat(RightOnly(left, right[..|right| - 1]), if last.0 in Keys(left) then [] else [last]);
      FreeValuesConcat(RightOnly(left, right[..|right| - 1]), if last.0 in Keys(left) then [] else [last]);
    }
  }

  /** Composing the unifier of the arguments after that of the functions. */
  lemma ComposeConfined(s2: Subst, s1: Subst)
    requires Idempotent(s1) && Idempotent(s2)
    requires (Keys(s2) + FreeValues(s2)) !! Keys(s1)
    ensures Idempotent(Compose(s2, s1))
    ensures Keys(Compose(s2, s1)) == Keys(s1) + Keys(s2)
    ensures FreeValues(Compose(s2, s1)) <= FreeValues(s1) + FreeValues(s2)
  {
    var mid := RightOnly(s2, s1);
    ComposeKeys(s2, s1);
    RightOnlyFree(s2, s1);
    ApplyValuesFree(s2, mid);
    KeysConcat(ApplyValues(s2, mid), s2);
    FreeValuesConcat(ApplyValues(s2, mid), s2);
  }

  /** The application case: both unifiers together stay confined. */
  lemma ApplicationConfined(f: Type, x: Type, g: Type, y: Type, s1: Subst, s2: Subst)
    requires Confined(s1, f, g)
    requires Confined(s2, Applied(s1, x), Applied(s1, y))
    ensures Confined(Compose(s2, s1), TypeApplication(f, x), TypeApplication(g, y))
  {
    AppliedRemovesKeys(s1, x);
    AppliedRemovesKeys(s1, y);
    ComposeConfined(s2, s1);
  }

  /** `a.Unify(b)` with `TypeApplication.Unify` corrected to unify the
      variable with the application itself. A variable on either side is
      bound by `VarUnify`; constructors unify with a constructor of the same
      name; applications unify their functions, then their arguments under
      that unifier, and compose the two. */
  function Unify(a: Type, b: Type): (r: Result<Subst>)
    ensures r.Ok? ==> Confined(r.value, a, b)
    decreases |FreeVariables(a) + FreeVariables(b)|, Size(a) + Size(b)
  {
    match a
    case TypeVariable(n, k) => VarUnify(n, k, b)
    case TypeConstructor(n, _) =>
      if b.TypeVariable? then VarUnify(b.name, b.kind, a)
      else if b.TypeConstructor? && b.name == n then Ok([])
      else Err(RigidRigidMismatch)
    case TypeApplication(f, x) =>
      if b.TypeVariable? then VarUnify(b.name, b.kind, a)
      else if b.TypeApplication? then
        SubsetCard(FreeVariables(f) + FreeVariables(b.func), FreeVariables(a) + FreeVariables(b));
        var s1 :- Unify(f, b.func);
        Decreasing(s1, x, b.arg, FreeVariables(a) + FreeVariables(b));
        var s2 :- Unify(Applied(s1, x), Applied(s1, b.arg));
        ApplicationConfined(f, x, b.func, b.arg, s1, s2);
        Ok(Compose(s2, s1))
      else Err(RigidRigidMismatch)
  }

  /** `Unify` as `TypeApplication.Unify` is written: against a variable it
      unifies the variable with itself, which always gives the empty
      substitution. */
  function UnifyAsWritten(a: Type, b: Type): (r: Result<Subst>)
    ensures r.Ok? ==> Confined(r.value, a, b)
    decreases |FreeVariables(a) + FreeVariables(b)|, Size(a) + Size(b)
  {
    match a
    case TypeVariable(n, k) => VarUnify(n, k, b)
    case TypeConstructor(n, _) =>
      if b.TypeVariable? then VarUnify(b.name, b.kind, a)
      else if b.TypeConstructor? && b.name == n then Ok([])
      else Err(RigidRigidMismatch)
    case TypeApplication(f, x) =>
      if b.TypeVariable? then VarUnify(b.name, b.kind, b)
      else if b.TypeApplication? then
        SubsetCard(FreeVariables(f) + FreeVariables(b.func), FreeVariables(a) + FreeVariables(b));
        var s1 :- UnifyAsWritten(f, b.func);
        Decreasing(s1, x, b.arg, FreeVariables(a) + FreeVariables(b));
        var s2 :- UnifyAsWritten(Applied(s1, x), Applied(s1, b.arg));
        ApplicationConfined(f, x, b.func, b.arg, s1, s2);
        Ok(Compose(s2, s1))
      else Err(RigidRigidMismatch)
  }

  // ---------------------------------------------------------------------
  // Soundness.

  /** Substitution respects `Equals`. */
  lemma {:induction false} SimultaneousEquals(s: Subst, u: Type, v: Type)
    requires Equals(u, v)
    ensures Equals(Simultaneous(s, u), Simultaneous(s, v))
  {
    match u
    case TypeApplication(f, a) =>
      SimultaneousEquals(s, f, v.func);
      SimultaneousEquals(s, a, v.arg);
    case _ =>
  }

  lemma SimultaneousUnbound(s: Subst, t: Type)
    requires FreeVariables(t) !! Keys(s)
    ensures Simultaneous(s, t) == t
  {
    SimultaneousAgree(s, [], t);
    SimultaneousEmpty(t);
  }

  lemma VarUnifySound(name: string, kind: Kind, t: Type)
    requires VarUnify(name, kind, t).Ok?
    ensures var s := VarUnify(name, kind, t).value;
      Equals(Simultaneous(s, TypeVariable(name, kind)), Simultaneous(s, t))
  {
    var s := VarUnify(name, kind, t).value;
    if s == [] {
      SimultaneousEmpty(t);
    } else {
      SimultaneousUnbound(s, t);
    }
  }

  lemma {:induction false} UnifySimultaneous(a: Type, b: Type)
    requires Unify(a, b).Ok?
    ensures var s := Unify(a, b).value;
      Equals(Simultaneous(s, a), Simultaneous(s, b))
    decreases |FreeVariables(a) + FreeVariables(b)|, Size(a) + Size(b)
  {
    match a
    case TypeVariable(n, k) =>
      VarUnifySound(n, k, b);
    case TypeConstructor(n, _) =>
      if b.TypeVariable? {
        VarUnifySound(b.name, b.kind, a);
      } else {
        SimultaneousEmpty(a);
        SimultaneousEmpty(b);
      }
    case TypeApplication(f, x) =>
      if b.TypeVariable? {
        VarUnifySound(b.name, b.kind, a);
      } else {
        var g, y := b.func, b.arg;
        var u := FreeVariables(a) + FreeVariables(b);
        SubsetCard(FreeVariables(f) + FreeVariables(g), u);
        var s1 := Unify(f, g).value;
        Decreasing(s1, x, y, u);
        var x', y' := Applied(s1, x), Applied(s1, y);
        var s2 := Unify(x', y').value;
        UnifySimultaneous(f, g);
        UnifySimultaneous(x', y');
        AppliedRemovesKeys(s1, x);
        AppliedRemovesKeys(s1, y);
        AppliedIsSimultaneous(s1, x);
        AppliedIsSimultaneous(s1, y);
        SimultaneousCompose(s2, s1, f);
        SimultaneousCompose(s2, s1, g);
        SimultaneousCompose(s2, s1, x);
        SimultaneousCompose(s2, s1, y);
        SimultaneousEquals(s2, Simultaneous(s1, f), Simultaneous(s1, g));
      }
  }

  /** A successful `Unify` returns a unifier: applying it to both types
      gives equal types. */
  lemma UnifySound(a: Type, b: Type)
    requires Unify(a, b).Ok?
    ensures Equals(Applied(Unify(a, b).value, a), Applied(Unify(a, b).value, b))
  {
    UnifySimultaneous(a, b);
    AppliedIsSimultaneous(Unify(a, b).value, a);
    AppliedIsSimultaneous(Unify(a, b).value, b);
  }

  /** Unification does not care which side the variable is on. */
  lemma UnifySymmetricVariable(t: Type, name: string, kind: Kind)
    requires !t.TypeVariable?
    ensures Unify(t, TypeVariable(name, kind)) == Unify(TypeVariable(name, kind), t)
  {
  }

  /** As written, an application and a variable of its kind "unify" with
      the empty substitution, which leaves them different; the corrected
      `Unify` binds the variable. */
  lemma UnifyAsWrittenCounterexample()
    ensures var list := TypeApplication(TypeConstructor("[]", ArrowKind(DataKind, DataKind)), TypeVariable("a", DataKind));
      var b := TypeVariable("b", DataKind);
      && UnifyAsWritten(list, b) == Ok([])
      && !Equals(Applied([], list), Applied([], b))
      && Unify(list, b) == Ok([("b", list)])
  {
    var list := TypeApplication(TypeConstructor("[]", ArrowKind(DataKind, DataKind)), TypeVariable("a", DataKind));
    assert KindOf(list) == Ok(DataKind);
  }

  /** `IType.Overlap`: the two types unify. */
  function Overlap(a: Type, b: Type): (r: bool)
    ensures r <==> Unify(a, b).Ok?
    ensures r ==> Equals(Applied(Unify(a, b).value, a), Applied(Unify(a, b).value, b))
  {
    if Unify(a, b).Ok? then
      UnifySound(a, b);
      true
    else false
  }

  // ---------------------------------------------------------------------
  // Predicates.

  /** `Predicate.Match`: predicates of different classes do not match;
      otherwise the pattern's argument is matched against the other's. */
  function PredicateMatch(pattern: Predicate, p: Predicate): (r: Result<Option<Subst>>)
    ensures pattern.name != p.name ==> r == Ok(None)
    ensures r.Ok? && r.value.Some? ==>
      && Keys(r.value.value) == PredicateFreeVariables(pattern)
      && PredicateEquals(Predicate(pattern.name, Simultaneous(r.value.value, pattern.arg)), p)
  {
    if pattern.name == p.name then Match(pattern.arg, p.arg) else Ok(None)
  }

  /** `Predicate.Unify`: predicates of different classes fail; otherwise
      their arguments are unified, and the unifier makes the two predicates
      equal. */
  function PredicateUnify(a: Predicate, b: Predicate): (r: Result<Subst>)
    ensures a.name != b.name ==> r == Err(DifferingClasses)
    ensures r.Ok? ==> PredicateEquals(Predicate(a.name, Applied(r.value, a.arg)), Predicate(b.name, Applied(r.value, b.arg)))
  {
    if a.name != b.name then Err(DifferingClasses)
    else
      var s :- Unify(a.arg, b.arg);
      UnifySound(a.arg, b.arg);
      Ok(s)
  }
}
