/** Substitutions of the type-class engine (`SubstitutionExt`): immutable
    dictionaries from variable names to types, modelled as association lists
    in enumeration order. */
module TcSubstitutions {
  import opened Results
  import opened TcTypes
  import opened Bindings

  type Subst = Bindings<Type>

  /** The free variables of the values. */
  function FreeValues(s: Subst): set<string>
  {
    if s == [] then {} else FreeValues(s[..|s| - 1]) + FreeVariables(s[|s| - 1].1)
  }

  lemma {:induction false} FreeValuesConcat(a: Subst, b: Subst)
    ensures FreeValues(a + b) == FreeValues(a) + FreeValues(b)
    decreases |b|
  {
    if b == [] {
      assert a + b == a;
    } else {
      assert (a + b)[..|a + b| - 1] == a + b[..|b| - 1];
      FreeValuesConcat(a, b[..|b| - 1]);
    }
  }

  /** No value mentions a key, so applying the substitution once is enough. */
  predicate Idempotent(s: Subst)
  {
    UniqueKeys(s) && Keys(s) !! FreeValues(s)
  }

  /** What `Apply` computes: the bindings substituted one after the other,
      in enumeration order. */
  function Applied(s: Subst, t: Type): (r: Type)
    ensures FreeVariables(r) <= FreeVariables(t) + FreeValues(s)
  {
    if s == [] then t
    else
      var prev := Applied(s[..|s| - 1], t);
      SubstituteFreeVariables(prev, s[|s| - 1].0, s[|s| - 1].1);
      Substitute(prev, s[|s| - 1].0, s[|s| - 1].1)
  }

  /** `Apply(subst, target)` on a type. */
  method Apply(subst: Subst, target: Type) returns (result: Type)
    ensures result == Applied(subst, target)
  {
    result := target;
    for i := 0 to |subst|
      invariant result == Applied(subst[..i], target)
    {
      assert subst[..i + 1][..i] == subst[..i];
      result := Substitute(result, subst[i].0, subst[i].1);
    }
    assert subst[..|subst|] == subst;
  }

  /** `Apply(subst, target)` on a predicate. */
  method ApplyPredicate(subst: Subst, target: Predicate) returns (result: Predicate)
    ensures result == Predicate(target.name, Applied(subst, target.arg))
  {
    result := target;
    for i := 0 to |subst|
      invariant result == Predicate(target.name, Applied(subst[..i], target.arg))
    {
      assert subst[..i + 1][..i] == subst[..i];
      result := SubstitutePredicate(result, subst[i].0, subst[i].1);
    }
    assert subst[..|subst|] == subst;
  }

  function AppliedPredicate(s: Subst, p: Predicate): Predicate
  {
    Predicate(p.name, Applied(s, p.arg))
  }

  /** The list overloads of `Apply`. */
  function ApplyTypes(s: Subst, ts: seq<Type>): (r: seq<Type>)
    ensures |r| == |ts| && forall i :: 0 <= i < |ts| ==> r[i] == Applied(s, ts[i])
  {
    if ts == [] then [] else [Applied(s, ts[0])] + ApplyTypes(s, ts[1..])
  }

  function ApplyPredicates(s: Subst, ps: seq<Predicate>): (r: seq<Predicate>)
    ensures |r| == |ps| && forall i :: 0 <= i < |ps| ==> r[i] == AppliedPredicate(s, ps[i])
  {
    if ps == [] then [] else [AppliedPredicate(s, ps[0])] + ApplyPredicates(s, ps[1..])
  }

  lemma {:induction false} AppliedApplication(s: Subst, f: Type, a: Type)
    ensures Applied(s, TypeApplication(f, a)) == TypeApplication(Applied(s, f), Applied(s, a))
  {
    if s != [] {
      AppliedApplication(s[..|s| - 1], f, a);
    }
  }

  lemma {:induction false} AppliedConstructor(s: Subst, t: Type)
    requires t.TypeConstructor?
    ensures Applied(s, t) == t
  {
    if s != [] {
      AppliedConstructor(s[..|s| - 1], t);
    }
  }

  lemma {:induction false} AppliedUnbound(s: Subst, t: Type)
    requires FreeVariables(t) !! Keys(s)
    ensures Applied(s, t) == t
  {
    if s != [] {
      AppliedUnbound(s[..|s| - 1], t);
      SubstituteAbsent(t, s[|s| - 1].0, s[|s| - 1].1);
    }
  }

  lemma IdempotentInit(s: Subst)
    requires s != [] && Idempotent(s)
    ensures Idempotent(s[..|s| - 1])
    ensures s[|s| - 1].0 !in Keys(s[..|s| - 1]) + FreeValues(s[..|s| - 1]) + FreeVariables(s[|s| - 1].1)
    ensures Keys(s[..|s| - 1]) !! FreeVariables(s[|s| - 1].1)
  {
  }

  /** Applying an idempotent substitution leaves none of its keys behind. */
  lemma {:induction false} AppliedRemovesKeys(s: Subst, t: Type)
    requires Idempotent(s)
    ensures FreeVariables(Applied(s, t)) <= (FreeVariables(t) + FreeValues(s)) - Keys(s)
  {
    if s != [] {
      var init, k, v := s[..|s| - 1], s[|s| - 1].0, s[|s| - 1].1;
      IdempotentInit(s);
      AppliedRemovesKeys(init, t);
      SubstituteFreeVariables(Applied(init, t), k, v);
    }
  }

  // ---------------------------------------------------------------------
  // Simultaneous substitution, the reference meaning of a substitution.

  function Simultaneous(s: Subst, t: Type): Type
  {
    match t
    case TypeVariable(n, _) => (match Lookup(s, n) case Some(v) => v case None => t)
    case TypeConstructor(_, _) => t
    case TypeApplication(f, a) => TypeApplication(Simultaneous(s, f), Simultaneous(s, a))
  }

  lemma {:induction false} SimultaneousSnoc(s: Subst, t: Type)
    requires s != [] && Idempotent(s)
    ensures Simultaneous(s, t)
      == Substitute(Simultaneous(s[..|s| - 1], t), s[|s| - 1].0, s[|s| - 1].1)
  {
    var init, k, v := s[..|s| - 1], s[|s| - 1].0, s[|s| - 1].1;
    IdempotentInit(s);
    match t
    case TypeVariable(n, _) =>
      if n != k && n in Keys(init) {
        var w := Lookup(init, n).value;
        LookupValue(init, n);
        SubstituteAbsent(w, k, v);
      }
    case TypeConstructor(_, _) =>
    case TypeApplication(f, a) =>
      SimultaneousSnoc(s, f);
      SimultaneousSnoc(s, a);
  }

  lemma {:induction false} LookupValue(s: Subst, k: string)
    requires k in Keys(s)
    ensures FreeVariables(Lookup(s, k).value) <= FreeValues(s)
  {
    if s[|s| - 1].0 != k {
      LookupValue(s[..|s| - 1], k);
    }
  }

  /** For an idempotent substitution, substituting the bindings one at a time
      is the same as substituting them all at once, so the enumeration order
      does not matter. */
  lemma {:induction false} AppliedIsSimultaneous(s: Subst, t: Type)
    requires Idempotent(s)
    ensures Applied(s, t) == Simultaneous(s, t)
  {
    if s == [] {
      SimultaneousEmpty(t);
    } else {
      IdempotentInit(s);
      AppliedIsSimultaneous(s[..|s| - 1], t);
      SimultaneousSnoc(s, t);
    }
  }

  lemma {:induction false} SimultaneousEmpty(t: Type)
    ensures Simultaneous([], t) == t
  {
    match t
    case TypeApplication(f, a) =>
      SimultaneousEmpty(f);
      SimultaneousEmpty(a);
    case _ =>
  }

  /** Only the bindings of a type's free variables matter. */
  lemma {:induction false} SimultaneousAgree(s: Subst, s': Subst, t: Type)
    requires forall n :: n in FreeVariables(t) ==> Lookup(s, n) == Lookup(s', n)
    ensures Simultaneous(s, t) == Simultaneous(s', t)
  {
    match t
    case TypeApplication(f, a) =>
      SimultaneousAgree(s, s', f);
      SimultaneousAgree(s, s', a);
    case _ =>
  }

  // ---------------------------------------------------------------------
  // Compose.

  /** The bindings of `s` with `left` applied to their values. */
  function ApplyValues(left: Subst, s: Subst): Subst
  {
    if s == [] then [] else ApplyValues(left, s[..|s| - 1]) + [(s[|s| - 1].0, Applied(left, s[|s| - 1].1))]
  }

  /** `left.Compose(right)`: the right bindings with `left` applied, then
      `SetItems(left)`, so that `left` wins on a shared key. */
  function Compose(left: Subst, right: Subst): Subst
  {
    ApplyValues(left, RightOnly(left, right)) + left
  }

  lemma {:induction false} ApplyValuesKeys(left: Subst, s: Subst)
    ensures Keys(ApplyValues(left, s)) == Keys(s)
    ensures UniqueKeys(ApplyValues(left, s)) == UniqueKeys(s)
  {
    if s != [] {
      ApplyValuesKeys(left, s[..|s| - 1]);
      Snoc(ApplyValues(left, s[..|s| - 1]), (s[|s| - 1].0, Applied(left, s[|s| - 1].1)));
    }
  }

  lemma {:induction false} ApplyValuesLookup(left: Subst, s: Subst, k: string)
    ensures Lookup(ApplyValues(left, s), k) == if k in Keys(s) then Some(Applied(left, Lookup(s, k).value)) else None
  {
    if s != [] {
      ApplyValuesLookup(left, s[..|s| - 1], k);
      Snoc(ApplyValues(left, s[..|s| - 1]), (s[|s| - 1].0, Applied(left, s[|s| - 1].1)));
    }
  }

  /** `Compose` binds every key of either side, once. */
  lemma ComposeKeys(left: Subst, right: Subst)
    requires UniqueKeys(left) && UniqueKeys(right)
    ensures UniqueKeys(Compose(left, right))
    ensures Keys(Compose(left, right)) == Keys(left) + Keys(right)
  {
    var mid := RightOnly(left, right);
    RightOnlyFacts(left, right);
    ApplyValuesKeys(left, mid);
    KeysConcat(ApplyValues(left, mid), left);
    UniqueConcat(ApplyValues(left, mid), left);
  }

  /** A key of `left` keeps its value there; any other key has its `right`
      value with `left` applied. */
  lemma ComposeLookup(left: Subst, right: Subst, k: string)
    ensures Lookup(Compose(left, right), k) ==
      if k in Keys(left) then Lookup(left, k)
      else if k in Keys(right) then Some(Applied(left, Lookup(right, k).value))
      else None
  {
    var mid := RightOnly(left, right);
    RightOnlyKeys(left, right);
    ApplyValuesLookup(left, mid, k);
    KeysConcat(ApplyValues(left, mid), left);
    if k !in Keys(left) {
      RightOnlyLookup(left, right, k);
    }
  }

  /** Composing with disjoint keys is applying `right` and then `left`. */
  lemma {:induction false} SimultaneousCompose(left: Subst, right: Subst, t: Type)
    requires Idempotent(left) && UniqueKeys(right) && Keys(left) !! Keys(right)
    ensures Simultaneous(Compose(left, right), t) == Simultaneous(left, Simultaneous(right, t))
  {
    match t
    case TypeVariable(n, _) =>
      ComposeLookup(left, right, n);
      if n in Keys(right) {
        AppliedIsSimultaneous(left, Lookup(right, n).value);
      }
    case TypeConstructor(_, _) =>
    case TypeApplication(f, a) =>
      SimultaneousCompose(left, right, f);
      SimultaneousCompose(left, right, a);
  }

  // ---------------------------------------------------------------------
  // Merge.

}
