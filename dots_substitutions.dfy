/** Substitution maps of the variadic engine (`SubstitutionExt` in
    Inference.Dots/Substitutions.cs). Applying a map substitutes its
    bindings one after another in enumeration order; since substitution
    can splice sequences, applying to a predicate can give several
    predicates, and applying can fail. */
module DotsSubstitutions {
  import opened Results
  import opened Bindings
  import opened DotsTypes
  import opened DotsMerge

  /** `subst.Apply(target)`: each binding substituted in turn. */
  function Applied(s: Subst, t: Type): Result<Type>
  {
    if s == [] then Ok(t)
    else
      var prev :- Applied(s[..|s| - 1], t);
      Substitute(prev, s[|s| - 1].0, s[|s| - 1].1)
  }

  method Apply(subst: Subst, target: Type) returns (result: Result<Type>)
    ensures result == Applied(subst, target)
  {
    var current := target;
    for i := 0 to |subst|
      invariant Applied(subst[..i], target) == Ok(current)
    {
      assert subst[..i + 1][..i] == subst[..i];
      var next := Substitute(current, subst[i].0, subst[i].1);
      if next.Err? {
        AppliedFailure(subst, i + 1, target);
        return next;
      }
      current := next.value;
    }
    assert subst[..|subst|] == subst;
    return Ok(current);
  }

  lemma {:induction false} AppliedFailure(s: Subst, n: nat, t: Type)
    requires n <= |s| && Applied(s[..n], t).Err?
    ensures Applied(s, t) == Applied(s[..n], t)
  {
    if n < |s| {
      assert s[..|s| - 1][..n] == s[..n];
      AppliedFailure(s[..|s| - 1], n, t);
    } else {
      assert s[..n] == s;
    }
  }

  /** The predicate overload of `Apply`: the list `[target]`, and at each
      binding every predicate replaced by what its substitution gives. */
  function AppliedPredicate(s: Subst, p: Predicate): Result<seq<Predicate>>
  {
    if s == [] then Ok([p])
    else
      var prev :- AppliedPredicate(s[..|s| - 1], p);
      SubstitutePredicates(prev, s[|s| - 1].0, s[|s| - 1].1)
  }

  method ApplyPredicate(subst: Subst, target: Predicate) returns (result: Result<seq<Predicate>>)
    ensures result == AppliedPredicate(subst, target)
  {
    var current := [target];
    for i := 0 to |subst|
      invariant AppliedPredicate(subst[..i], target) == Ok(current)
    {
      assert subst[..i + 1][..i] == subst[..i];
      var next := SubstitutePredicates(current, subst[i].0, subst[i].1);
      if next.Err? {
        AppliedPredicateFailure(subst, i + 1, target);
        return next;
      }
      current := next.value;
    }
    assert subst[..|subst|] == subst;
    return Ok(current);
  }

  lemma {:induction false} AppliedPredicateFailure(s: Subst, n: nat, p: Predicate)
    requires n <= |s| && AppliedPredicate(s[..n], p).Err?
    ensures AppliedPredicate(s, p) == AppliedPredicate(s[..n], p)
  {
    if n < |s| {
      assert s[..|s| - 1][..n] == s[..n];
      AppliedPredicateFailure(s[..|s| - 1], n, p);
    } else {
      assert s[..n] == s;
    }
  }

  /** Every predicate substitution keeps the class name. */
  predicate AllOfClass(ps: seq<Predicate>, c: string)
  {
    forall i :: 0 <= i < |ps| ==> ps[i].name == c
  }

  lemma {:induction false} SubstitutePredicatesClass(ps: seq<Predicate>, c: string, name: string, w: Type)
    requires AllOfClass(ps, c) && SubstitutePredicates(ps, name, w).Ok?
    ensures AllOfClass(SubstitutePredicates(ps, name, w).value, c)
  {
    var r := SubstitutePredicates(ps, name, w).value;
    SubstitutePredicatesNames(ps, name, w);
    forall i | 0 <= i < |r|
      ensures r[i].name == c
    {
      var j :| 0 <= j < |ps| && r[i].name == ps[j].name;
    }
  }

  /** Applying a substitution to a predicate yields predicates of its class
      only; a substitution without sequence values yields exactly one. */
  lemma {:induction false} AppliedPredicateClass(s: Subst, p: Predicate)
    requires AppliedPredicate(s, p).Ok?
    ensures AllOfClass(AppliedPredicate(s, p).value, p.name)
  {
    if s != [] {
      AppliedPredicateClass(s[..|s| - 1], p);
      SubstitutePredicatesClass(AppliedPredicate(s[..|s| - 1], p).value, p.name, s[|s| - 1].0, s[|s| - 1].1);
    }
  }

  /** No value of the substitution holds a sequence. */
  predicate SequenceFreeValues(s: Subst)
  {
    forall i :: 0 <= i < |s| ==> SequenceFree(s[i].1)
  }

  /** Without sequences anywhere, applying to a predicate is applying to its
      argument: one predicate of the same class. */
  lemma {:induction false} AppliedPredicateSingle(s: Subst, p: Predicate)
    requires SequenceFreeValues(s) && SequenceFree(p.arg)
    ensures Applied(s, p.arg).Ok? && SequenceFree(Applied(s, p.arg).value)
    ensures AppliedPredicate(s, p) == Ok([Predicate(p.name, Applied(s, p.arg).value)])
  {
    if s != [] {
      var init, last := s[..|s| - 1], s[|s| - 1];
      assert SequenceFreeValues(init) by {
        forall i | 0 <= i < |init| ensures SequenceFree(init[i].1) { assert init[i] == s[i]; }
      }
      AppliedPredicateSingle(init, p);
      var arg := Applied(init, p.arg).value;
      SubstituteSequenceFree(arg, last.0, last.1);
      var arg' := Substitute(arg, last.0, last.1).value;
      assert Applied(s, p.arg) == Ok(arg');
      var ps := [Predicate(p.name, arg)];
      assert ps[..0] == [];
      assert SubstitutePredicates(ps[..0], last.0, last.1) == Ok([]);
      assert SubstitutePredicate(ps[0], last.0, last.1).value == [Predicate(p.name, arg')];
      assert [] + [Predicate(p.name, arg')] == [Predicate(p.name, arg')];
    }
  }

  /** A sequence value splits a predicate into one per element. */
  lemma SplitExample()
    ensures AppliedPredicate([("a", TypeSequence([TypeConstructor("Int", DataKind), TypeConstructor("Bool", DataKind)], None))],
                             Predicate("Eq", TypeVariable("a", DataKind)))
      == Ok([Predicate("Eq", TypeConstructor("Int", DataKind)), Predicate("Eq", TypeConstructor("Bool", DataKind))])
  {
    var s: Subst := [("a", TypeSequence([TypeConstructor("Int", DataKind), TypeConstructor("Bool", DataKind)], None))];
    var p := Predicate("Eq", TypeVariable("a", DataKind));
    assert s[..0] == [];
    var ps := [p];
    assert ps[..0] == [];
    assert SubstitutePredicates(ps[..0], "a", s[0].1) == Ok([]);
    var expected := [Predicate("Eq", TypeConstructor("Int", DataKind)), Predicate("Eq", TypeConstructor("Bool", DataKind))];
    assert SubstitutePredicate(p, "a", s[0].1).value == expected;
    assert [] + expected == expected;
  }

  /** The list overloads: `Select` over types, `SelectMany` over
      predicates. */
  function ApplyTypes(s: Subst, ts: seq<Type>): (r: Result<seq<Type>>)
    ensures r.Ok? ==> |r.value| == |ts| && forall i :: 0 <= i < |ts| ==> Applied(s, ts[i]) == Ok(r.value[i])
    ensures r.Err? ==> exists i :: 0 <= i < |ts| && Applied(s, ts[i]).Err?
  {
    if ts == [] then Ok([])
    else
      var prev :- ApplyTypes(s, ts[..|ts| - 1]);
      var last :- Applied(s, ts[|ts| - 1]);
      Ok(prev + [last])
  }

  /** The list overload: each predicate's expansion, one after the other. */
  function ApplyPredicates(s: Subst, ps: seq<Predicate>): (r: Result<seq<Predicate>>)
    ensures r.Ok? <==> forall i :: 0 <= i < |ps| ==> AppliedPredicate(s, ps[i]).Ok?
    ensures r.Ok? ==> r.value == Flatten(Expansions(s, ps))
    ensures r.Ok? ==> NamesAmong(r.value, ps)
  {
    if ps == [] then Ok([])
    else
      var init := ps[..|ps| - 1];
      assert forall i :: 0 <= i < |init| ==> init[i] == ps[i];
      var prev :- ApplyPredicates(s, init);
      var last :- AppliedPredicate(s, ps[|ps| - 1]);
      AppliedPredicateClass(s, ps[|ps| - 1]);
      NamesSnoc(prev, last, ps);
      ExpansionsSnoc(s, ps);
      Ok(prev + last)
  }

  /** What each predicate expands to, one part per predicate. */
  function Expansions(s: Subst, ps: seq<Predicate>): (parts: seq<seq<Predicate>>)
    requires forall i :: 0 <= i < |ps| ==> AppliedPredicate(s, ps[i]).Ok?
    ensures |parts| == |ps|
  {
    seq(|ps|, i requires 0 <= i < |ps| => AppliedPredicate(s, ps[i]).value)
  }

  lemma ExpansionsSnoc(s: Subst, ps: seq<Predicate>)
    requires ps != [] && forall i :: 0 <= i < |ps| ==> AppliedPredicate(s, ps[i]).Ok?
    ensures Flatten(Expansions(s, ps))
      == Flatten(Expansions(s, ps[..|ps| - 1])) + AppliedPredicate(s, ps[|ps| - 1]).value
  {
    var n := |ps|;
    assert forall i :: 0 <= i < n - 1 ==> ps[..n - 1][i] == ps[i];
    assert Expansions(s, ps)[..n - 1] == Expansions(s, ps[..n - 1]);
  }

  /** Every predicate of `rs` has the class of one of `ps`. */
  predicate NamesAmong(rs: seq<Predicate>, ps: seq<Predicate>)
  {
    forall i :: 0 <= i < |rs| ==> exists j :: 0 <= j < |ps| && rs[i].name == ps[j].name
  }

  lemma NamesSnoc(prev: seq<Predicate>, last: seq<Predicate>, ps: seq<Predicate>)
    requires ps != [] && NamesAmong(prev, ps[..|ps| - 1]) && AllOfClass(last, ps[|ps| - 1].name)
    ensures NamesAmong(prev + last, ps)
  {
    var r, n := prev + last, |ps| - 1;
    forall i | 0 <= i < |r|
      ensures exists j :: 0 <= j < |ps| && r[i].name == ps[j].name
    {
      if i < |prev| {
        var j :| 0 <= j < n && prev[i].name == ps[..n][j].name;
        assert r[i] == prev[i] && ps[..n][j] == ps[j];
      } else {
        assert r[i] == last[i - |prev|] && r[i].name == ps[n].name;
      }
    }
  }

  // ---------------------------------------------------------------------
  // Compose.

  /** The values of `s` with `left` applied to each. */
  function ApplyValues(left: Subst, s: Subst): (r: Result<Subst>)
    ensures r.Ok? ==> Keys(r.value) == Keys(s) && UniqueKeys(r.value) == UniqueKeys(s)
    ensures r.Ok? ==> forall k :: k in Keys(s) ==> Applied(left, Lookup(s, k).value) == Ok(Lookup(r.value, k).value)
  {
    if s == [] then Ok([])
    else
      var prev :- ApplyValues(left, s[..|s| - 1]);
      var v :- Applied(left, s[|s| - 1].1);
      Snoc(prev, (s[|s| - 1].0, v));
      Snoc(s[..|s| - 1], s[|s| - 1]);
      assert s == s[..|s| - 1] + [s[|s| - 1]];
      Ok(prev + [(s[|s| - 1].0, v)])
  }

  /** `left.Compose(right)`: `left` applied to every right binding, then
      `SetItems(left)`, so that `left` wins on a shared key. */
  function Compose(left: Subst, right: Subst): Result<Subst>
  {
    var applied :- ApplyValues(left, right);
    Ok(RightOnly(left, applied) + left)
  }

  /** A composition binds every key of either side once: a key of `left` to
      its `left` value, any other key to its `right` value with `left`
      applied. It fails exactly when applying `left` to one of the `right`
      values fails, even one whose key `left` overrides. */
  lemma ComposeFacts(left: Subst, right: Subst)
    requires UniqueKeys(left) && UniqueKeys(right)
    ensures Compose(left, right).Ok? <==>
      forall k :: k in Keys(right) ==> Lookup(right, k).Some? && Applied(left, Lookup(right, k).value).Ok?
    ensures Compose(left, right).Ok? ==>
      var c := Compose(left, right).value;
      && UniqueKeys(c)
      && Keys(c) == Keys(left) + Keys(right)
      && (forall k :: k in Keys(left) ==> Lookup(c, k) == Lookup(left, k))
      && forall k :: k in Keys(right) - Keys(left) ==> Applied(left, Lookup(right, k).value) == Ok(Lookup(c, k).value)
  {
    if ApplyValues(left, right).Ok? {
      var applied := ApplyValues(left, right).value;
      var mid := RightOnly(left, applied);
      RightOnlyFacts(left, applied);
      forall k | k !in Keys(left)
        ensures Lookup(mid, k) == Lookup(applied, k)
      {
        RightOnlyLookup(left, applied, k);
      }
      KeysConcat(mid, left);
      UniqueConcat(mid, left);
    } else {
      ApplyValuesFailure(left, right);
    }
  }

  lemma {:induction false} ApplyValuesFailure(left: Subst, s: Subst)
    requires UniqueKeys(s) && ApplyValues(left, s).Err?
    ensures exists k :: k in Keys(s) && Applied(left, Lookup(s, k).value).Err?
  {
    var init, last := s[..|s| - 1], s[|s| - 1];
    Snoc(init, last);
    assert s == init + [last];
    if ApplyValues(left, init).Err? {
      ApplyValuesFailure(left, init);
      var k :| k in Keys(init) && Applied(left, Lookup(init, k).value).Err?;
      assert Lookup(s, k) == Lookup(init, k);
    } else {
      assert Lookup(s, last.0) == Some(last.1);
    }
  }
}
