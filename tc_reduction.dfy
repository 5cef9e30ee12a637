/** Context reduction of the type-class engine (`PredicateExt` of
    Inference.Typeclasses): predicates are brought to head normal form
    through the instances, the ones entailed by the others are dropped, and
    the rest is split into those that stay deferred and those that are
    generalised. The corrected `Entails` of `TcContext` is used throughout. */
module TcReduction {
  import opened Results
  import opened TcTypes
  import opened Bindings
  import opened TcContext

  // ---------------------------------------------------------------------
  // Head normal form.

  predicate AllHeadNormal(ps: seq<Predicate>)
  {
    forall i :: 0 <= i < |ps| ==> IsHeadNormalForm(ps[i].arg)
  }

  /** `Predicate.ToHeadNormalForm`: a predicate already in head normal form
      stands for itself; otherwise it is replaced by the head normal forms of
      the subgoals of the instance that matches it, and it is an error that
      none matches. The recursion through the instances is bounded by
      `fuel`. */
  function ToHeadNormalForm(ctx: seq<Entry>, p: Predicate, fuel: nat): Result<seq<Predicate>>
    decreases fuel, 0
  {
    if IsHeadNormalForm(p.arg) then Ok([p])
    else if fuel == 0 then Err(OutOfFuel)
    else
      var subgoals :- GetInstanceSubgoals(ctx, p);
      if subgoals.None? then Err(ContextReductionFailed)
      else ToHeadNormalFormAll(ctx, subgoals.value, fuel - 1)
  }

  /** The list version (`SelectMany`): the head normal forms of the
      predicates, concatenated in order; the first failure is the result. */
  function ToHeadNormalFormAll(ctx: seq<Entry>, ps: seq<Predicate>, fuel: nat): Result<seq<Predicate>>
    decreases fuel, 1, |ps|
  {
    if ps == [] then Ok([])
    else
      var first :- ToHeadNormalForm(ctx, ps[0], fuel);
      var rest :- ToHeadNormalFormAll(ctx, ps[1..], fuel);
      Ok(first + rest)
  }

  /** What comes out is in head normal form. */
  lemma {:induction false} ToHeadNormalFormIsHeadNormal(ctx: seq<Entry>, p: Predicate, fuel: nat)
    ensures ToHeadNormalForm(ctx, p, fuel).Ok? ==> AllHeadNormal(ToHeadNormalForm(ctx, p, fuel).value)
    decreases fuel, 0
  {
    if !IsHeadNormalForm(p.arg) && fuel > 0 {
      var subgoals := GetInstanceSubgoals(ctx, p);
      if subgoals.Ok? && subgoals.value.Some? {
        ToHeadNormalFormAllIsHeadNormal(ctx, subgoals.value.value, fuel - 1);
      }
    }
  }

  lemma {:induction false} ToHeadNormalFormAllIsHeadNormal(ctx: seq<Entry>, ps: seq<Predicate>, fuel: nat)
    ensures ToHeadNormalFormAll(ctx, ps, fuel).Ok? ==> AllHeadNormal(ToHeadNormalFormAll(ctx, ps, fuel).value)
    decreases fuel, 1, |ps|
  {
    if ps != [] {
      ToHeadNormalFormIsHeadNormal(ctx, ps[0], fuel);
      ToHeadNormalFormAllIsHeadNormal(ctx, ps[1..], fuel);
      var r := ToHeadNormalFormAll(ctx, ps, fuel);
      if r.Ok? {
        var first := ToHeadNormalForm(ctx, ps[0], fuel).value;
        var rest := ToHeadNormalFormAll(ctx, ps[1..], fuel).value;
        assert r.value == first + rest;
        assert forall i :: |first| <= i < |r.value| ==> r.value[i] == rest[i - |first|];
      }
    }
  }

  /** Predicates already in head normal form come back unchanged, whatever
      the context and the fuel. */
  lemma {:induction false} ToHeadNormalFormAllKeeps(ctx: seq<Entry>, ps: seq<Predicate>, fuel: nat)
    requires AllHeadNormal(ps)
    ensures ToHeadNormalFormAll(ctx, ps, fuel) == Ok(ps)
    decreases |ps|
  {
    if ps != [] {
      assert IsHeadNormalForm(ps[0].arg);
      ToHeadNormalFormAllKeeps(ctx, ps[1..], fuel);
      assert [ps[0]] + ps[1..] == ps;
    }
  }

  /** Bringing to head normal form twice is bringing to it once. */
  lemma ToHeadNormalFormAllIdempotent(ctx: seq<Entry>, ps: seq<Predicate>, fuel: nat)
    requires ToHeadNormalFormAll(ctx, ps, fuel).Ok?
    ensures ToHeadNormalFormAll(ctx, ToHeadNormalFormAll(ctx, ps, fuel).value, fuel) == ToHeadNormalFormAll(ctx, ps, fuel)
  {
    ToHeadNormalFormAllIsHeadNormal(ctx, ps, fuel);
    ToHeadNormalFormAllKeeps(ctx, ToHeadNormalFormAll(ctx, ps, fuel).value, fuel);
  }

  // ---------------------------------------------------------------------
  // Entailment with more conditions.

  /** Every condition of `c` is among those of `d`. */
  predicate Covered(c: seq<Predicate>, d: seq<Predicate>)
  {
    forall i :: 0 <= i < |c| ==> Assumed(d, c[i])
  }

  lemma AssumedCovered(c: seq<Predicate>, d: seq<Predicate>, test: Predicate)
    requires Covered(c, d) && Assumed(c, test)
    ensures Assumed(d, test)
  {
    var i :| 0 <= i < |c| && PredicateEquals(c[i], test);
    var j :| 0 <= j < |d| && PredicateEquals(d[j], c[i]);
    assert PredicateEquals(d[j], test);
  }

  /** Entailment is monotone: what follows from some conditions follows
      from more of them, with the same fuel. */
  lemma {:induction false} EntailsMonotone(ctx: seq<Entry>, c: seq<Predicate>, d: seq<Predicate>, test: Predicate, fuel: nat)
    requires Covered(c, d) && Entails(ctx, c, test, fuel) == Ok(true)
    ensures Entails(ctx, d, test, fuel) == Ok(true)
    decreases fuel, 0
  {
    if Assumed(c, test) {
      AssumedCovered(c, d, test);
    } else if !Assumed(d, test) {
      var subgoals := GetInstanceSubgoals(ctx, test);
      AllEntailedMonotone(ctx, c, d, subgoals.value.value, fuel - 1);
    }
  }

  lemma {:induction false} AllEntailedMonotone(ctx: seq<Entry>, c: seq<Predicate>, d: seq<Predicate>, goals: seq<Predicate>, fuel: nat)
    requires Covered(c, d) && AllEntailed(ctx, c, goals, fuel) == Ok(true)
    ensures AllEntailed(ctx, d, goals, fuel) == Ok(true)
    decreases fuel, 1, |goals|
  {
    if goals != [] {
      EntailsMonotone(ctx, c, d, goals[0], fuel);
      AllEntailedMonotone(ctx, c, d, goals[1..], fuel);
    }
  }

  // ---------------------------------------------------------------------
  // Simplification.

  /** `r` is `s` with some elements left out, the rest in order. */
  ghost predicate IsSubsequence<T>(r: seq<T>, s: seq<T>)
    decreases |s|
  {
    if r == [] then true
    else if s == [] then false
    else (r[0] == s[0] && IsSubsequence(r[1..], s[1..])) || IsSubsequence(r, s[1..])
  }

  /** The loop of `Simplify` from a given state: the head of `remaining` is
      tested against the rest of `remaining` followed by what has been kept
      so far, and kept unless that entails it. */
  function SimplifyFrom(ctx: seq<Entry>, remaining: seq<Predicate>, simplified: seq<Predicate>, fuel: nat): Result<seq<Predicate>>
    decreases |remaining|
  {
    if remaining == [] then Ok(simplified)
    else
      var test := remaining[0];
      var entailed :- Entails(ctx, remaining[1..] + simplified, test, fuel);
      SimplifyFrom(ctx, remaining[1..], if entailed then simplified else simplified + [test], fuel)
  }

  /** What `Simplify` computes. */
  function Simplification(ctx: seq<Entry>, ps: seq<Predicate>, fuel: nat): Result<seq<Predicate>>
  {
    SimplifyFrom(ctx, ps, [], fuel)
  }

  /** `PredicateExt.Simplify`. */
  method Simplify(ctx: seq<Entry>, predicates: seq<Predicate>, fuel: nat) returns (r: Result<seq<Predicate>>)
    ensures r == Simplification(ctx, predicates, fuel)
  {
    var simplified: seq<Predicate> := [];
    var remaining := predicates;
    while remaining != []
      invariant SimplifyFrom(ctx, remaining, simplified, fuel) == Simplification(ctx, predicates, fuel)
      decreases |remaining|
    {
      var test := remaining[0];
      remaining := remaining[1..];
      var entailed := Entails(ctx, remaining + simplified, test, fuel);
      if entailed.Err? {
        return Err(entailed.error);
      }
      if !entailed.value {
        simplified := simplified + [test];
      }
    }
    return Ok(simplified);
  }

  /** No two kept predicates are equal. */
  ghost predicate NoRepeats(ps: seq<Predicate>)
  {
    forall i, j :: 0 <= i < j < |ps| ==> !PredicateEquals(ps[i], ps[j])
  }

  /** From any state, what has been kept stays at the front and the rest of
      the result is taken in order from what remains. */
  lemma {:induction false} SimplifyFromShape(ctx: seq<Entry>, remaining: seq<Predicate>, simplified: seq<Predicate>, fuel: nat)
    requires SimplifyFrom(ctx, remaining, simplified, fuel).Ok?
    ensures var r := SimplifyFrom(ctx, remaining, simplified, fuel).value;
      && |simplified| <= |r| && r[..|simplified|] == simplified
      && IsSubsequence(r[|simplified|..], remaining)
    decreases |remaining|
  {
    var r := SimplifyFrom(ctx, remaining, simplified, fuel).value;
    if remaining == [] {
      assert r[|simplified|..] == [];
    } else {
      var test, rest := remaining[0], remaining[1..];
      var entailed := Entails(ctx, rest + simplified, test, fuel).value;
      var next := if entailed then simplified else simplified + [test];
      SimplifyFromShape(ctx, rest, next, fuel);
      assert r == SimplifyFrom(ctx, rest, next, fuel).value;
      if entailed {
        SubsequenceSkip(r[|simplified|..], remaining);
      } else {
        var tail := r[|next|..];
        assert r[..|simplified|] == r[..|next|][..|simplified|];
        assert r[|simplified|..] == [test] + tail;
        SubsequenceCons(test, tail, remaining);
      }
    }
  }

  /** Skipping the head of `s` keeps a subsequence of it. */
  lemma SubsequenceSkip<T>(r: seq<T>, s: seq<T>)
    requires s != [] && IsSubsequence(r, s[1..])
    ensures IsSubsequence(r, s)
  {
  }

  /** Taking the head of `s` onto a subsequence of its tail. */
  lemma SubsequenceCons<T>(x: T, r: seq<T>, s: seq<T>)
    requires s != [] && s[0] == x && IsSubsequence(r, s[1..])
    ensures IsSubsequence([x] + r, s)
  {
    assert ([x] + r)[1..] == r;
  }

  /** A predicate that the rest and the kept ones do not entail is not among
      the kept ones. */
  lemma NotAssumedByKept(rest: seq<Predicate>, simplified: seq<Predicate>, test: Predicate)
    requires !Assumed(rest + simplified, test)
    ensures !Assumed(simplified, test)
  {
    forall i | 0 <= i < |simplified|
      ensures !PredicateEquals(simplified[i], test)
    {
      assert (rest + simplified)[|rest| + i] == simplified[i];
    }
  }

  /** If the kept ones are all different, they stay so. */
  lemma {:induction false} SimplifyFromNoRepeats(ctx: seq<Entry>, remaining: seq<Predicate>, simplified: seq<Predicate>, fuel: nat)
    requires SimplifyFrom(ctx, remaining, simplified, fuel).Ok? && NoRepeats(simplified)
    ensures NoRepeats(SimplifyFrom(ctx, remaining, simplified, fuel).value)
    decreases |remaining|
  {
    if remaining != [] {
      var test, rest := remaining[0], remaining[1..];
      var entailed := Entails(ctx, rest + simplified, test, fuel).value;
      if !entailed {
        NotAssumedByKept(rest, simplified, test);
        var next := simplified + [test];
        assert forall i :: 0 <= i < |simplified| ==> next[i] == simplified[i];
        assert NoRepeats(next);
        SimplifyFromNoRepeats(ctx, rest, next, fuel);
      } else {
        SimplifyFromNoRepeats(ctx, rest, simplified, fuel);
      }
    }
  }

  /** `Simplify` keeps some of the predicates, in their order, and no two of
      those it keeps are equal. */
  lemma SimplificationSubsequence(ctx: seq<Entry>, ps: seq<Predicate>, fuel: nat)
    requires Simplification(ctx, ps, fuel).Ok?
    ensures IsSubsequence(Simplification(ctx, ps, fuel).value, ps)
    ensures NoRepeats(Simplification(ctx, ps, fuel).value)
  {
    SimplifyFromShape(ctx, ps, [], fuel);
    SimplifyFromNoRepeats(ctx, ps, [], fuel);
    var r := Simplification(ctx, ps, fuel).value;
    assert r[0..] == r;
  }

  // ---------------------------------------------------------------------
  // Reduction and splitting.

  /** `PredicateExt.Reduce`: head normal form, then simplification. */
  function Reduce(ctx: seq<Entry>, ps: seq<Predicate>, fuel: nat): Result<seq<Predicate>>
  {
    var normalized :- ToHeadNormalFormAll(ctx, ps, fuel);
    Simplification(ctx, normalized, fuel)
  }

  /** A reduced list is in head normal form and has no repeats. */
  lemma ReduceFacts(ctx: seq<Entry>, ps: seq<Predicate>, fuel: nat)
    requires Reduce(ctx, ps, fuel).Ok?
    ensures AllHeadNormal(Reduce(ctx, ps, fuel).value)
    ensures NoRepeats(Reduce(ctx, ps, fuel).value)
  {
    ToHeadNormalFormAllIsHeadNormal(ctx, ps, fuel);
    var normalized := ToHeadNormalFormAll(ctx, ps, fuel).value;
    SimplificationSubsequence(ctx, normalized, fuel);
    SubsequenceKeeps(Reduce(ctx, ps, fuel).value, normalized);
  }

  /** Every element of a subsequence is an element of the sequence. */
  lemma {:induction false} SubsequenceKeeps(r: seq<Predicate>, s: seq<Predicate>)
    requires IsSubsequence(r, s) && AllHeadNormal(s)
    ensures AllHeadNormal(r)
    decreases |s|
  {
    if r != [] {
      assert forall i :: 0 <= i < |s[1..]| ==> s[1..][i] == s[i + 1];
      if r[0] == s[0] && IsSubsequence(r[1..], s[1..]) {
        SubsequenceKeeps(r[1..], s[1..]);
        assert forall i :: 1 <= i < |r| ==> r[i] == r[1..][i - 1];
      } else {
        SubsequenceKeeps(r, s[1..]);
      }
    }
  }

  /** Some variable of the predicate is not to be generalised. */
  predicate IsDeferred(p: Predicate, generalized: set<string>)
  {
    !(PredicateFreeVariables(p) <= generalized)
  }

  /** The predicates that stay deferred (`Where`), in order. */
  function Deferred(ps: seq<Predicate>, generalized: set<string>): (r: seq<Predicate>)
    ensures forall p :: p in r <==> p in ps && IsDeferred(p, generalized)
  {
    if ps == [] then []
    else (if IsDeferred(ps[0], generalized) then [ps[0]] else []) + Deferred(ps[1..], generalized)
  }

  /** The predicates all of whose variables are generalised, in order. */
  function Generalized(ps: seq<Predicate>, generalized: set<string>): (r: seq<Predicate>)
    ensures forall p :: p in r <==> p in ps && !IsDeferred(p, generalized)
  {
    if ps == [] then []
    else (if IsDeferred(ps[0], generalized) then [] else [ps[0]]) + Generalized(ps[1..], generalized)
  }

  /** The two halves together hold the predicates, each exactly as often. */
  lemma {:induction false} SplitIsPartition(ps: seq<Predicate>, generalized: set<string>)
    ensures multiset(Deferred(ps, generalized)) + multiset(Generalized(ps, generalized)) == multiset(ps)
  {
    if ps != [] {
      SplitIsPartition(ps[1..], generalized);
      assert ps == [ps[0]] + ps[1..];
    }
  }

  /** `PredicateExt.SplitPredicates`: the reduced predicates, split into the
      deferred and the generalised ones. */
  function SplitPredicates(ctx: seq<Entry>, ps: seq<Predicate>, generalized: set<string>, fuel: nat)
    : (r: Result<(seq<Predicate>, seq<Predicate>)>)
    ensures r.Ok? <==> Reduce(ctx, ps, fuel).Ok?
    ensures r.Ok? ==> multiset(r.value.0) + multiset(r.value.1) == multiset(Reduce(ctx, ps, fuel).value)
    ensures r.Ok? ==> forall p :: p in r.value.0 <==> p in Reduce(ctx, ps, fuel).value && IsDeferred(p, generalized)
    ensures r.Ok? ==> forall p :: p in r.value.1 <==> p in Reduce(ctx, ps, fuel).value && !IsDeferred(p, generalized)
  {
    var reduced :- Reduce(ctx, ps, fuel);
    SplitIsPartition(reduced, generalized);
    Ok((Deferred(reduced, generalized), Generalized(reduced, generalized)))
  }
}
