/** One-way matching of the variadic engine (`Match` in
    Inference.Dots/Types.cs): `Ok(Some(m))` for a match `m`, `Ok(None)` for
    the C# `null`, `Err` for an exception (an ill-kinded compared type, a
    merge conflict, `CapWithDotted`). */
module DotsMatch {
  import opened Results
  import opened Bindings
  import opened DotsTypes
  import opened DotsMerge

  /** `pattern.Match(compared)`. A variable matches anything of its kind,
      a constructor only itself, an application both halves (both are
      matched before either result is looked at) and a sequence its
      elements; a dotted sequence returns only the matches of the extra
      elements against its tail. */
  function Match(pattern: Type, compared: Type): Result<Option<Subst>>
    decreases pattern, 2, 0
  {
    match pattern
    case TypeVariable(n, k) =>
      var ck :- KindOf(compared);
      if k == ck then Ok(Some([(n, compared)])) else Ok(None)
    case TypeConstructor(n, _) =>
      if compared.TypeConstructor? && compared.name == n then Ok(Some([])) else Ok(None)
    case TypeApplication(f, a) =>
      if !compared.TypeApplication? then Ok(None)
      else
        var left :- Match(f, compared.func);
        var right :- Match(a, compared.arg);
        if left.Some? && right.Some? then
          var m :- Merged(left.value, right.value);
          Ok(Some(m))
        else Ok(None)
    case TypeSequence(_, _) => SequenceMatch(pattern, compared)
  }

  /** `TypeSequence.Match`: `null` against a shorter sequence, or a dotted
      one when the pattern is not; otherwise the first loop, and for a
      dotted pattern the second loop and `CapWithDotted`. */
  function SequenceMatch(pattern: Type, compared: Type): Result<Option<Subst>>
    requires pattern.TypeSequence?
    decreases pattern, 1, 0
  {
    var ts, d := pattern.types, pattern.dotted;
    if !compared.TypeSequence? || |compared.types| < |ts| || (compared.dotted.Some? && d.None?) then Ok(None)
    else
      var matched :- MatchElements(pattern, compared, |ts|);
      if d.None? then Ok(matched)
      else
        var dotmatched :- MatchTail(d.value, compared.types[|ts|..]);
        if dotmatched.Some? && compared.dotted.Some? then
          var submatch :- Match(d.value, compared.dotted.value);
          if submatch.Some? then Err(CapWithDotted(dotmatched.value, submatch.value).error)
          else Ok(None)
        else Ok(dotmatched)
  }

  /** `matched` after the first loop has gone over `n` elements; once it is
      `null` the loop breaks and matches no further element. */
  function MatchElements(pattern: Type, compared: Type, n: nat): Result<Option<Subst>>
    requires pattern.TypeSequence? && compared.TypeSequence?
    requires n <= |pattern.types| <= |compared.types|
    decreases pattern, 0, n
  {
    if n == 0 then Ok(Some([]))
    else
      var prev :- MatchElements(pattern, compared, n - 1);
      if prev.None? then Ok(None)
      else
        var submatch :- Match(pattern.types[n - 1], compared.types[n - 1]);
        if submatch.None? then Ok(None)
        else
          var m :- Merged(prev.value, submatch.value);
          Ok(Some(m))
  }

  /** `dotmatched` after the second loop has matched the tail against the
      extra elements `xs`, merging with the tail's variables as sequence
      variables; once it is `null` the loop breaks. */
  function MatchTail(tail: Type, xs: seq<Type>): Result<Option<Subst>>
    decreases tail, 3, |xs|
  {
    if xs == [] then Ok(Some([]))
    else
      var prev :- MatchTail(tail, xs[..|xs| - 1]);
      if prev.None? then Ok(None)
      else
        var submatch :- Match(tail, xs[|xs| - 1]);
        if submatch.None? then Ok(None)
        else
          var m :- MergedWithSeqVars(prev.value, submatch.value, FreeVariables(tail));
          Ok(Some(m))
  }

  /** `TypeSequence.Match`, with its two loops. */
  method MatchSequence(pattern: Type, compared: Type) returns (r: Result<Option<Subst>>)
    requires pattern.TypeSequence?
    ensures r == Match(pattern, compared)
  {
    assert Match(pattern, compared) == SequenceMatch(pattern, compared);
    if !compared.TypeSequence? || |compared.types| < |pattern.types| {
      return Ok(None);
    }
    if compared.dotted.Some? && pattern.dotted.None? {
      return Ok(None);
    }
    var matched := MatchPrefix(pattern, compared);
    if matched.Err? {
      return matched;
    }
    if pattern.dotted.None? {
      return matched;
    }
    var dotmatched := MatchExtras(pattern, compared);
    if dotmatched.Err? {
      return dotmatched;
    }
    if dotmatched.value.Some? && compared.dotted.Some? {
      var submatch := Match(pattern.dotted.value, compared.dotted.value);
      if submatch.Err? {
        return Err(submatch.error);
      }
      if submatch.value.Some? {
        var capped := CapWithDotted(dotmatched.value.value, submatch.value.value);
        return Err(capped.error);
      }
      return Ok(None);
    }
    return dotmatched;
  }

  /** The first loop of `TypeSequence.Match`: the pattern's elements against
      the first elements of the compared sequence. */
  method MatchPrefix(pattern: Type, compared: Type) returns (r: Result<Option<Subst>>)
    requires pattern.TypeSequence? && compared.TypeSequence? && |pattern.types| <= |compared.types|
    ensures r == MatchElements(pattern, compared, |pattern.types|)
  {
    var matched: Option<Subst> := Some([]);
    for i := 0 to |pattern.types|
      invariant MatchElements(pattern, compared, i) == Ok(matched)
    {
      if matched.None? {
        ElementsStayNull(pattern, compared, i, |pattern.types|);
        return Ok(None);
      }
      var submatch := Match(pattern.types[i], compared.types[i]);
      if submatch.Err? {
        ElementsFailure(pattern, compared, i + 1, |pattern.types|);
        return Err(submatch.error);
      }
      if submatch.value.Some? {
        var m := Merged(matched.value, submatch.value.value);
        if m.Err? {
          ElementsFailure(pattern, compared, i + 1, |pattern.types|);
          return Err(m.error);
        }
        matched := Some(m.value);
      } else {
        matched := None;
      }
    }
    return Ok(matched);
  }

  /** The second loop of `TypeSequence.Match`: the dotted tail against each
      extra element, merged with the tail's variables as sequence
      variables. */
  method MatchExtras(pattern: Type, compared: Type) returns (r: Result<Option<Subst>>)
    requires pattern.TypeSequence? && pattern.dotted.Some? && compared.TypeSequence?
    requires |pattern.types| <= |compared.types|
    ensures r == MatchTail(pattern.dotted.value, compared.types[|pattern.types|..])
  {
    var dotted := pattern.dotted.value;
    var dottedFree := FreeVariables(dotted);
    var extras := compared.types[|pattern.types|..];
    var dotmatched: Option<Subst> := Some([]);
    for j := 0 to |extras|
      invariant MatchTail(dotted, extras[..j]) == Ok(dotmatched)
    {
      assert extras[..j + 1][..j] == extras[..j];
      if dotmatched.None? {
        TailStaysNull(dotted, extras, j);
        return Ok(None);
      }
      var submatch := Match(dotted, extras[j]);
      if submatch.Err? {
        TailFailure(dotted, extras, j + 1);
        return Err(submatch.error);
      }
      if submatch.value.Some? {
        var m := MergedWithSeqVars(dotmatched.value, submatch.value.value, dottedFree);
        if m.Err? {
          TailFailure(dotted, extras, j + 1);
          return Err(m.error);
        }
        dotmatched := Some(m.value);
      } else {
        dotmatched := None;
      }
    }
    assert extras[..|extras|] == extras;
    return Ok(dotmatched);
  }

  lemma {:induction false} ElementsStayNull(pattern: Type, compared: Type, i: nat, n: nat)
    requires pattern.TypeSequence? && compared.TypeSequence?
    requires i <= n <= |pattern.types| <= |compared.types|
    requires MatchElements(pattern, compared, i) == Ok(None)
    ensures MatchElements(pattern, compared, n) == Ok(None)
    decreases n
  {
    if n > i { ElementsStayNull(pattern, compared, i, n - 1); }
  }

  lemma {:induction false} ElementsFailure(pattern: Type, compared: Type, i: nat, n: nat)
    requires pattern.TypeSequence? && compared.TypeSequence?
    requires i <= n <= |pattern.types| <= |compared.types|
    requires MatchElements(pattern, compared, i).Err?
    ensures MatchElements(pattern, compared, n) == MatchElements(pattern, compared, i)
    decreases n
  {
    if n > i { ElementsFailure(pattern, compared, i, n - 1); }
  }

  lemma {:induction false} TailStaysNull(tail: Type, xs: seq<Type>, i: nat)
    requires i <= |xs| && MatchTail(tail, xs[..i]) == Ok(None)
    ensures MatchTail(tail, xs) == Ok(None)
    decreases |xs|
  {
    if i < |xs| {
      assert xs[..|xs| - 1][..i] == xs[..i];
      TailStaysNull(tail, xs[..|xs| - 1], i);
    } else {
      assert xs[..i] == xs;
    }
  }

  lemma {:induction false} TailFailure(tail: Type, xs: seq<Type>, i: nat)
    requires i <= |xs| && MatchTail(tail, xs[..i]).Err?
    ensures MatchTail(tail, xs) == MatchTail(tail, xs[..i])
    decreases |xs|
  {
    if i < |xs| {
      assert xs[..|xs| - 1][..i] == xs[..i];
      TailFailure(tail, xs[..|xs| - 1], i);
    } else {
      assert xs[..i] == xs;
    }
  }

  // ---------------------------------------------------------------------
  // What a match binds.

  /** A match binds each variable once, and only variables of the pattern. */
  lemma {:induction false} MatchKeys(pattern: Type, compared: Type)
    requires Match(pattern, compared).Ok? && Match(pattern, compared).value.Some?
    ensures UniqueKeys(Match(pattern, compared).value.value)
    ensures Keys(Match(pattern, compared).value.value) <= AllVariables(pattern)
    decreases pattern, 2, 0
  {
    match pattern
    case TypeVariable(n, _) =>
      assert Keys([(n, compared)]) == {n} by {
        assert [(n, compared)][..0] == [];
      }
    case TypeConstructor(_, _) =>
    case TypeApplication(f, a) =>
      var left, right := Match(f, compared.func).value.value, Match(a, compared.arg).value.value;
      MatchKeys(f, compared.func);
      MatchKeys(a, compared.arg);
      MergedFacts(left, right);
    case TypeSequence(ts, d) =>
      SequenceMatchFacts(pattern, compared);
      SequenceVariables(ts, d);
  }

  /** A sequence matches only a sequence at least as long and without a
      dotted tail (`CapWithDotted` fails on every dotted one that gets that
      far); an undotted pattern binds variables of its elements, and a
      dotted one only variables of its tail, since the matches of its
      elements are discarded. */
  lemma {:induction false} SequenceMatchFacts(pattern: Type, compared: Type)
    requires pattern.TypeSequence?
    requires SequenceMatch(pattern, compared).Ok? && SequenceMatch(pattern, compared).value.Some?
    ensures compared.TypeSequence? && |pattern.types| <= |compared.types| && compared.dotted.None?
    ensures UniqueKeys(SequenceMatch(pattern, compared).value.value)
    ensures pattern.dotted.None? ==> Keys(SequenceMatch(pattern, compared).value.value) <= ElementVariables(pattern.types)
    ensures pattern.dotted.Some? ==> Keys(SequenceMatch(pattern, compared).value.value) <= AllVariables(pattern.dotted.value)
    decreases pattern, 1, 0
  {
    if pattern.dotted.None? {
      ElementsKeys(pattern, compared, |pattern.types|);
    } else {
      TailKeys(pattern.dotted.value, compared.types[|pattern.types|..]);
    }
  }

  lemma {:induction false} ElementsKeys(pattern: Type, compared: Type, n: nat)
    requires pattern.TypeSequence? && compared.TypeSequence?
    requires n <= |pattern.types| <= |compared.types|
    requires MatchElements(pattern, compared, n).Ok? && MatchElements(pattern, compared, n).value.Some?
    ensures UniqueKeys(MatchElements(pattern, compared, n).value.value)
    ensures Keys(MatchElements(pattern, compared, n).value.value) <= ElementVariables(pattern.types)
    decreases pattern, 0, n
  {
    if n > 0 {
      ElementsKeys(pattern, compared, n - 1);
      var prev := MatchElements(pattern, compared, n - 1).value.value;
      var sub := Match(pattern.types[n - 1], compared.types[n - 1]).value.value;
      MatchKeys(pattern.types[n - 1], compared.types[n - 1]);
      MergedFacts(prev, sub);
      forall v | v in AllVariables(pattern.types[n - 1])
        ensures v in ElementVariables(pattern.types)
      {
      }
    }
  }

  lemma {:induction false} TailKeys(tail: Type, xs: seq<Type>)
    requires MatchTail(tail, xs).Ok? && MatchTail(tail, xs).value.Some?
    ensures UniqueKeys(MatchTail(tail, xs).value.value)
    ensures Keys(MatchTail(tail, xs).value.value) <= AllVariables(tail)
    decreases tail, 3, |xs|
  {
    if xs != [] {
      var init, x := xs[..|xs| - 1], xs[|xs| - 1];
      TailKeys(tail, init);
      var prev := MatchTail(tail, init).value.value;
      var sub := Match(tail, x).value.value;
      MatchKeys(tail, x);
      MergedWithSeqVarsFacts(prev, sub, FreeVariables(tail));
    }
  }

  /** An undotted pattern's match holds the match of each element against
      the element at the same place, and binds nothing else. */
  lemma {:induction false} ElementsAgree(pattern: Type, compared: Type, n: nat)
    requires pattern.TypeSequence? && compared.TypeSequence?
    requires n <= |pattern.types| <= |compared.types|
    requires MatchElements(pattern, compared, n).Ok? && MatchElements(pattern, compared, n).value.Some?
    ensures var m := MatchElements(pattern, compared, n).value.value;
      && (forall i :: 0 <= i < n ==> ElementMatched(pattern, compared, i, m))
      && forall k :: k in Keys(m) ==> exists i :: 0 <= i < n && InElementMatch(pattern, compared, i, k)
    decreases n
  {
    if n > 0 {
      ElementsAgree(pattern, compared, n - 1);
      ElementsKeys(pattern, compared, n - 1);
      var prev := MatchElements(pattern, compared, n - 1).value.value;
      var sub := Match(pattern.types[n - 1], compared.types[n - 1]).value.value;
      MatchKeys(pattern.types[n - 1], compared.types[n - 1]);
      MergedFacts(prev, sub);
      var m := MatchElements(pattern, compared, n).value.value;
      forall i | 0 <= i < n
        ensures ElementMatched(pattern, compared, i, m)
      {
        if i < n - 1 {
          assert ElementMatched(pattern, compared, i, prev);
        }
      }
      forall k | k in Keys(m)
        ensures exists i :: 0 <= i < n && InElementMatch(pattern, compared, i, k)
      {
        if k !in Keys(prev) {
          assert InElementMatch(pattern, compared, n - 1, k);
        }
      }
    }
  }

  /** The `i`-th elements match, and `m` agrees with that match. */
  predicate ElementMatched(pattern: Type, compared: Type, i: nat, m: Subst)
    requires pattern.TypeSequence? && compared.TypeSequence?
    requires i < |pattern.types| <= |compared.types|
  {
    var sub := Match(pattern.types[i], compared.types[i]);
    && sub.Ok? && sub.value.Some?
    && forall k :: k in Keys(sub.value.value) ==> Lookup(m, k) == Lookup(sub.value.value, k)
  }

  /** The `i`-th elements match, binding `k`. */
  predicate InElementMatch(pattern: Type, compared: Type, i: nat, k: string)
    requires pattern.TypeSequence? && compared.TypeSequence?
    requires i < |pattern.types| <= |compared.types|
  {
    var sub := Match(pattern.types[i], compared.types[i]);
    sub.Ok? && sub.value.Some? && k in Keys(sub.value.value)
  }

  /** For an undotted pattern, a match is exactly the agreement of the
      elementwise matches. */
  lemma MatchUndotted(pattern: Type, compared: Type)
    requires pattern.TypeSequence? && pattern.dotted.None?
    requires Match(pattern, compared).Ok? && Match(pattern, compared).value.Some?
    ensures compared.TypeSequence? && |pattern.types| <= |compared.types| && compared.dotted.None?
    ensures var m := Match(pattern, compared).value.value;
      && (forall i :: 0 <= i < |pattern.types| ==> ElementMatched(pattern, compared, i, m))
      && forall k :: k in Keys(m) ==> exists i :: 0 <= i < |pattern.types| && InElementMatch(pattern, compared, i, k)
  {
    SequenceMatchFacts(pattern, compared);
    ElementsAgree(pattern, compared, |pattern.types|);
  }

  // ---------------------------------------------------------------------
  // A dotted variable collects the extra elements.

  /** The bindings the second loop builds for a dotted variable `d` over
      the extra elements `xs`: none, then `d` bound to the first extra
      element itself, then to the sequence of all of them. */
  function Collected(d: string, xs: seq<Type>): Subst
  {
    if xs == [] then [] else if |xs| == 1 then [(d, xs[0])] else [(d, TypeSequence(xs, None))]
  }

  /** One more extra element joins what has been collected. */
  lemma CollectStep(d: string, xs: seq<Type>, x: Type)
    requires forall i :: 0 <= i < |xs| ==> !xs[i].TypeSequence?
    ensures MergedWithSeqVars(Collected(d, xs), [(d, x)], {d}) == Ok(Collected(d, xs + [x]))
  {
    var right: Subst := [(d, x)];
    assert right[..0] == [];
    if xs == [] {
      CollectFirst(d, x);
      assert xs + [x] == [x];
    } else {
      var entry := if |xs| == 1 then (d, TypeSequence([xs[0], x], None)) else (d, TypeSequence(xs + [x], None));
      CollectMore(d, Collected(d, xs), x, entry);
      if |xs| == 1 {
        assert xs + [x] == [xs[0], x];
      }
    }
  }

  lemma CollectFirst(d: string, x: Type)
    ensures MergedWithSeqVars([], [(d, x)], {d}) == Ok([(d, x)])
  {
    var right: Subst := [(d, x)];
    assert right[..0] == [];
    assert RightOnly([], right[..0]) == [];
    assert RightOnly([], right) == right;
    assert MergedLeft([], right, {d}) == Ok([]);
    assert [] + right == right;
  }

  lemma CollectMore(d: string, left: Subst, x: Type, entry: (string, Type))
    requires |left| == 1 && left[0].0 == d
    requires MergedEntry(left[0], [(d, x)], {d}) == Ok(entry)
    ensures MergedWithSeqVars(left, [(d, x)], {d}) == Ok([entry])
  {
    var right: Subst := [(d, x)];
    assert right[..0] == [];
    assert left[..0] == [];
    assert [] + [entry] == [entry];
    assert MergedLeft(left, right, {d}) == Ok([entry]);
    var merged := [entry];
    assert merged[..0] == [];
    assert Keys(merged) == {d};
    assert RightOnly(merged, right) == RightOnly(merged, []) + [];
    assert merged + [] == merged;
  }

  /** A dotted variable collects extra elements that are no sequences and
      have its kind. */
  lemma {:induction false} TailCollects(d: string, k: Kind, xs: seq<Type>)
    requires forall i :: 0 <= i < |xs| ==> !xs[i].TypeSequence? && KindOf(xs[i]) == Ok(k)
    ensures MatchTail(TypeVariable(d, k), xs) == Ok(Some(Collected(d, xs)))
    decreases |xs|
  {
    if xs != [] {
      var init, x := xs[..|xs| - 1], xs[|xs| - 1];
      assert forall i :: 0 <= i < |init| ==> init[i] == xs[i];
      TailCollects(d, k, init);
      TailCollectsStep(d, k, init, x);
      assert init + [x] == xs;
    }
  }

  /** One extra element joins the ones collected before it. */
  lemma TailCollectsStep(d: string, k: Kind, init: seq<Type>, x: Type)
    requires forall i :: 0 <= i < |init| ==> !init[i].TypeSequence?
    requires KindOf(x) == Ok(k)
    requires MatchTail(TypeVariable(d, k), init) == Ok(Some(Collected(d, init)))
    ensures MatchTail(TypeVariable(d, k), init + [x]) == Ok(Some(Collected(d, init + [x])))
  {
    var tail := TypeVariable(d, k);
    assert FreeVariables(tail) == {d};
    assert Match(tail, x) == Ok(Some([(d, x)]));
    CollectStep(d, init, x);
    TailStep(tail, init + [x], Collected(d, init), [(d, x)]);
  }

  /** One turn of the second loop, when both the loop so far and the match
      of the tail against the next element succeed. */
  lemma TailStep(tail: Type, xs: seq<Type>, prev: Subst, sub: Subst)
    requires xs != []
    requires MatchTail(tail, xs[..|xs| - 1]) == Ok(Some(prev))
    requires Match(tail, xs[|xs| - 1]) == Ok(Some(sub))
    ensures MatchTail(tail, xs) ==
      match MergedWithSeqVars(prev, sub, FreeVariables(tail))
      case Ok(m) => Ok(Some(m))
      case Err(e) => Err(e)
  {
  }

  /** With a dotted variable as its tail, a pattern against a plain
      sequence binds only that variable, to what the extra elements give,
      whether or not its elements match those of the compared sequence. */
  lemma MatchDottedVariable(d: string, k: Kind, ts: seq<Type>, us: seq<Type>, xs: seq<Type>)
    requires |ts| == |us|
    requires MatchElements(TypeSequence(ts, Some(TypeVariable(d, k))), TypeSequence(us + xs, None), |ts|).Ok?
    requires forall i :: 0 <= i < |xs| ==> !xs[i].TypeSequence? && KindOf(xs[i]) == Ok(k)
    ensures Match(TypeSequence(ts, Some(TypeVariable(d, k))), TypeSequence(us + xs, None)) == Ok(Some(Collected(d, xs)))
  {
    assert (us + xs)[|ts|..] == xs;
    TailCollects(d, k, xs);
    DottedSequenceMatch(TypeSequence(ts, Some(TypeVariable(d, k))), TypeSequence(us + xs, None), xs);
  }

  /** A dotted pattern against a plain sequence at least as long, whose
      first loop does not fail, gives what its second loop gives. */
  lemma DottedSequenceMatch(pattern: Type, compared: Type, xs: seq<Type>)
    requires pattern.TypeSequence? && pattern.dotted.Some? && compared.TypeSequence? && compared.dotted.None?
    requires |pattern.types| <= |compared.types| && compared.types[|pattern.types|..] == xs
    requires MatchElements(pattern, compared, |pattern.types|).Ok?
    ensures Match(pattern, compared) == MatchTail(pattern.dotted.value, xs)
  {
  }

  /** `[a, d...]` against `[Int, Bool]` binds `d` to `Bool` and leaves `a`
      unbound; `[Int, d...]` matches `[Bool]`, binding nothing, although
      `Int` does not match `Bool`. */
  lemma DottedExamples()
    ensures Match(TypeSequence([TypeVariable("a", DataKind)], Some(TypeVariable("d", DataKind))),
                  TypeSequence([TypeConstructor("Int", DataKind), TypeConstructor("Bool", DataKind)], None))
      == Ok(Some([("d", TypeConstructor("Bool", DataKind))]))
    ensures Match(TypeSequence([TypeConstructor("Int", DataKind)], Some(TypeVariable("d", DataKind))),
                  TypeSequence([TypeConstructor("Bool", DataKind)], None))
      == Ok(Some([]))
  {
    var intT, boolT := TypeConstructor("Int", DataKind), TypeConstructor("Bool", DataKind);
    var a, d := TypeVariable("a", DataKind), TypeVariable("d", DataKind);
    assert MatchElements(TypeSequence([a], Some(d)), TypeSequence([intT] + [boolT], None), 1).Ok? by {
      assert Match(a, intT) == Ok(Some([("a", intT)]));
    }
    MatchDottedVariable("d", DataKind, [a], [intT], [boolT]);
    assert [intT] + [boolT] == [intT, boolT];
    assert MatchElements(TypeSequence([intT], Some(d)), TypeSequence([boolT] + [], None), 1) == Ok(None) by {
      assert Match(intT, boolT) == Ok(None);
    }
    MatchDottedVariable("d", DataKind, [intT], [boolT], []);
    assert [boolT] + [] == [boolT];
  }

  /** A dotted pattern whose tail matches that of a dotted compared
      sequence reaches `CapWithDotted`, and so fails. */
  lemma {:induction false} MatchBothDotted(ts: seq<Type>, d: Type, e: Type)
    requires Match(d, e).Ok? && Match(d, e).value.Some?
    requires MatchElements(TypeSequence(ts, Some(d)), TypeSequence(ts, Some(e)), |ts|).Ok?
    ensures Match(TypeSequence(ts, Some(d)), TypeSequence(ts, Some(e))) == Err(NotImplemented)
  {
    var pattern, compared := TypeSequence(ts, Some(d)), TypeSequence(ts, Some(e));
    assert compared.types[|ts|..] == [];
    assert MatchTail(d, compared.types[|ts|..]) == Ok(Some([]));
    assert SequenceMatch(pattern, compared) == Err(NotImplemented);
  }

  /** `Predicate.Match`: only a predicate of the same class is matched, by
      its argument; what it binds are variables of the pattern, each once. */
  function PredicateMatch(pattern: Predicate, p: Predicate): (r: Result<Option<Subst>>)
    ensures pattern.name != p.name ==> r == Ok(None)
    ensures pattern.name == p.name ==> r == Match(pattern.arg, p.arg)
    ensures r.Ok? && r.value.Some? ==> UniqueKeys(r.value.value) && Keys(r.value.value) <= AllVariables(pattern.arg)
  {
    if pattern.name != p.name then Ok(None)
    else
      var m := Match(pattern.arg, p.arg);
      if m.Ok? && m.value.Some? then MatchKeys(pattern.arg, p.arg); m else m
  }
}
