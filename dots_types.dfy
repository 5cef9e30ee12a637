/** Types of the variadic engine (Inference.Dots, Types.cs and Kinds.cs):
    the type-class engine's variables, constructors and applications, plus
    type sequences `[t1, ..., tn]` with an optional dotted tail `[t1, d...]`
    standing for any number of further elements. Substitution distributes
    over sequences and splices them into each other, which is why it can
    fail. */
module DotsTypes {
  import opened Results
  import opened Bindings

  datatype Kind = DataKind | ArrowKind(func: Kind, arg: Kind) | SequenceKind(elem: Kind)

  /** `PredefinedKinds.OnlySequenceKind`, the kind of every sequence. */
  const OnlySequenceKind: Kind := SequenceKind(DataKind)

  datatype Type =
    | TypeVariable(name: string, kind: Kind)
    | TypeConstructor(name: string, kind: Kind)
    | TypeApplication(func: Type, arg: Type)
    | TypeSequence(types: seq<Type>, dotted: Option<Type>)

  datatype Predicate = Predicate(name: string, arg: Type)

  datatype QualifiedType = QualifiedType(context: seq<Predicate>, head: Type)

  /** The `Kind` property: an application needs an arrow-kinded function
      whose parameter kind is the argument's kind; a sequence has the
      sequence kind whatever it holds. */
  function KindOf(t: Type): (r: Result<Kind>)
    ensures t.TypeVariable? || t.TypeConstructor? ==> r == Ok(t.kind)
    ensures t.TypeSequence? ==> r == Ok(OnlySequenceKind)
    ensures t.TypeApplication? && r.Ok? ==>
      KindOf(t.arg).Ok? && KindOf(t.func) == Ok(ArrowKind(KindOf(t.arg).value, r.value))
    ensures r.Err? ==> r.error in {KindMismatch, IllKindedApplication}
  {
    match t
    case TypeVariable(_, k) => Ok(k)
    case TypeConstructor(_, k) => Ok(k)
    case TypeApplication(f, a) =>
      var funKind :- KindOf(f);
      var argKind :- KindOf(a);
      if funKind.ArrowKind? then
        if funKind.func == argKind then Ok(funKind.arg) else Err(KindMismatch)
      else Err(IllKindedApplication)
    case TypeSequence(_, _) => Ok(OnlySequenceKind)
  }

  /** An application has a kind exactly when its function has an arrow
      kind from the argument's kind, and then it has that arrow's result. */
  lemma KindOfApplication(f: Type, a: Type)
    ensures KindOf(TypeApplication(f, a)).Ok? <==>
      KindOf(f).Ok? && KindOf(a).Ok? && KindOf(f).value.ArrowKind? && KindOf(f).value.func == KindOf(a).value
    ensures KindOf(TypeApplication(f, a)).Ok? ==> KindOf(TypeApplication(f, a)).value == KindOf(f).value.arg
  {
  }

  /** `FreeVariables`: a sequence contributes the variables of its elements
      only; its dotted tail is not looked at. */
  function FreeVariables(t: Type): set<string>
  {
    match t
    case TypeVariable(n, _) => {n}
    case TypeConstructor(_, _) => {}
    case TypeApplication(f, a) => FreeVariables(f) + FreeVariables(a)
    case TypeSequence(ts, _) => set i, v | 0 <= i < |ts| && v in FreeVariables(ts[i]) :: v
  }

  /** Every variable written in the type, dotted tails included. */
  function AllVariables(t: Type): set<string>
  {
    match t
    case TypeVariable(n, _) => {n}
    case TypeConstructor(_, _) => {}
    case TypeApplication(f, a) => AllVariables(f) + AllVariables(a)
    case TypeSequence(ts, d) =>
      (set i, v | 0 <= i < |ts| && v in AllVariables(ts[i]) :: v)
        + (if d.Some? then AllVariables(d.value) else {})
  }

  /** No sequence anywhere in the type. */
  predicate SequenceFree(t: Type)
  {
    match t
    case TypeApplication(f, a) => SequenceFree(f) && SequenceFree(a)
    case TypeSequence(_, _) => false
    case _ => true
  }

  // ---------------------------------------------------------------------
  // Equality.

  /** The overridden `Equals`: variables and constructors by name, and two
      sequences by their zipped element pairs, so neither their lengths nor
      their dotted tails are compared. */
  function Equals(a: Type, b: Type): bool
  {
    match a
    case TypeVariable(x, _) => b.TypeVariable? && b.name == x
    case TypeConstructor(x, _) => b.TypeConstructor? && b.name == x
    case TypeApplication(f, x) => b.TypeApplication? && Equals(f, b.func) && Equals(x, b.arg)
    case TypeSequence(ts, _) =>
      b.TypeSequence? && forall i :: 0 <= i < |ts| && i < |b.types| ==> Equals(ts[i], b.types[i])
  }

  lemma {:induction false} EqualsReflexive(t: Type)
    ensures Equals(t, t)
  {
    match t
    case TypeApplication(f, a) =>
      EqualsReflexive(f);
      EqualsReflexive(a);
    case TypeSequence(ts, _) =>
      forall i | 0 <= i < |ts|
        ensures Equals(ts[i], ts[i])
      {
        EqualsReflexive(ts[i]);
      }
    case _ =>
  }

  lemma {:induction false} EqualsSymmetric(a: Type, b: Type)
    requires Equals(a, b)
    ensures Equals(b, a)
  {
    match a
    case TypeApplication(f, x) =>
      EqualsSymmetric(f, b.func);
      EqualsSymmetric(x, b.arg);
    case TypeSequence(ts, _) =>
      forall i | 0 <= i < |b.types| && i < |ts|
        ensures Equals(b.types[i], ts[i])
      {
        EqualsSymmetric(ts[i], b.types[i]);
      }
    case _ =>
  }

  /** A sequence equals every sequence that extends it, whatever the tails. */
  lemma EqualsExtension(ts: seq<Type>, more: seq<Type>, d: Option<Type>, e: Option<Type>)
    ensures Equals(TypeSequence(ts, d), TypeSequence(ts + more, e))
  {
    forall i | 0 <= i < |ts|
      ensures Equals(ts[i], (ts + more)[i])
    {
      EqualsReflexive(ts[i]);
    }
  }

  /** Hence the `Equals` of sequences is not transitive: the empty sequence
      equals both `[a]` and `[b]`, which differ. */
  lemma EqualsNotTransitive(a: Type, b: Type)
    requires !Equals(a, b)
    ensures Equals(TypeSequence([a], None), TypeSequence([], None))
    ensures Equals(TypeSequence([], None), TypeSequence([b], None))
    ensures !Equals(TypeSequence([a], None), TypeSequence([b], None))
  {
    assert TypeSequence([a], None).types[0] == a;
    assert TypeSequence([b], None).types[0] == b;
  }

  // ---------------------------------------------------------------------
  // Substitution.

  /** The elements a substituted element contributes to its sequence: all
      of a sequence's elements, or the element itself. */
  function Spliced(t: Type): (r: seq<Type>)
    ensures t.TypeSequence? ==> r == t.types
    ensures !t.TypeSequence? ==> r == [t]
  {
    if t.TypeSequence? then t.types else [t]
  }

  /** The application of `l` to `r` that `TypeApplication.Substitute`
      builds once both are substituted: two sequences apply pairwise and
      must have the same length; one sequence applies element by element;
      the new sequences have no dotted tail. */
  function Distributed(l: Type, r: Type): (result: Result<Type>)
    ensures l.TypeSequence? && r.TypeSequence? ==>
      (result.Ok? <==> |l.types| == |r.types|)
    ensures result.Err? ==> result.error == SequenceLengthMismatch
    ensures result.Ok? && (l.TypeSequence? || r.TypeSequence?) ==>
      && result.value.TypeSequence? && result.value.dotted.None?
      && |result.value.types| == (if l.TypeSequence? then |l.types| else |r.types|)
      && forall i :: 0 <= i < |result.value.types| ==>
        result.value.types[i] == TypeApplication(if l.TypeSequence? then l.types[i] else l, if r.TypeSequence? then r.types[i] else r)
    ensures !l.TypeSequence? && !r.TypeSequence? ==> result == Ok(TypeApplication(l, r))
  {
    if l.TypeSequence? && r.TypeSequence? then
      if |l.types| != |r.types| then Err(SequenceLengthMismatch)
      else Ok(TypeSequence(seq(|l.types|, i requires 0 <= i < |l.types| => TypeApplication(l.types[i], r.types[i])), None))
    else if l.TypeSequence? then
      Ok(TypeSequence(seq(|l.types|, i requires 0 <= i < |l.types| => TypeApplication(l.types[i], r)), None))
    else if r.TypeSequence? then
      Ok(TypeSequence(seq(|r.types|, i requires 0 <= i < |r.types| => TypeApplication(l, r.types[i])), None))
    else Ok(TypeApplication(l, r))
  }

  /** `Substitute(name, subWith)`. In a sequence every element is
      substituted and those that became sequences are spliced in; the
      seedless `Aggregate` that joins them fails on a sequence with no
      elements; a dotted tail that became a sequence is appended with its
      own tail. */
  function Substitute(t: Type, name: string, subWith: Type): Result<Type>
    decreases t, 2, 0
  {
    match t
    case TypeVariable(n, _) => if n == name then Ok(subWith) else Ok(t)
    case TypeConstructor(_, _) => Ok(t)
    case TypeApplication(f, a) =>
      var f' :- Substitute(f, name, subWith);
      var a' :- Substitute(a, name, subWith);
      Distributed(f', a')
    case TypeSequence(_, _) => SequenceSubstitute(t, name, subWith)
  }

  /** `TypeSequence.Substitute`. */
  function SequenceSubstitute(t: Type, name: string, subWith: Type): Result<Type>
    requires t.TypeSequence?
    decreases t, 1, 0
  {
    if t.types == [] then Err(EmptyAggregate)
    else
      var first :- SubstituteElements(t, |t.types|, name, subWith);
      if t.dotted.None? then Ok(TypeSequence(first, None))
      else
        var tail :- Substitute(t.dotted.value, name, subWith);
        if tail.TypeSequence? then Ok(TypeSequence(first + tail.types, tail.dotted))
        else Ok(TypeSequence(first, Some(tail)))
  }

  /** The spliced substitutions of the first `n` elements of a sequence. */
  function SubstituteElements(t: Type, n: nat, name: string, subWith: Type): Result<seq<Type>>
    requires t.TypeSequence? && n <= |t.types|
    decreases t, 0, n
  {
    if n == 0 then Ok([])
    else
      var prev :- SubstituteElements(t, n - 1, name, subWith);
      var last :- Substitute(t.types[n - 1], name, subWith);
      Ok(prev + Spliced(last))
  }

  /** On types without sequences substitution is the plain structural one:
      it never fails, brings in no sequence, replaces the variable exactly
      where it occurs, and changes nothing when it does not occur. */
  lemma {:induction false} SubstituteSequenceFree(t: Type, name: string, subWith: Type)
    requires SequenceFree(t) && SequenceFree(subWith)
    ensures Substitute(t, name, subWith).Ok?
    ensures SequenceFree(Substitute(t, name, subWith).value)
    ensures FreeVariables(Substitute(t, name, subWith).value) ==
      if name in FreeVariables(t) then (FreeVariables(t) - {name}) + FreeVariables(subWith) else FreeVariables(t)
    ensures name !in FreeVariables(t) ==> Substitute(t, name, subWith) == Ok(t)
  {
    match t
    case TypeApplication(f, a) =>
      SubstituteSequenceFree(f, name, subWith);
      SubstituteSequenceFree(a, name, subWith);
    case _ =>
  }

  /** A substitution that succeeds brings in no variable but those of the
      replacement. */
  lemma {:induction false} SubstituteVariables(t: Type, name: string, subWith: Type)
    requires Substitute(t, name, subWith).Ok?
    ensures AllVariables(Substitute(t, name, subWith).value) <= (AllVariables(t) - {name}) + AllVariables(subWith)
    decreases t, 2, 0
  {
    match t
    case TypeVariable(_, _) =>
    case TypeConstructor(_, _) =>
    case TypeApplication(f, a) =>
      SubstituteVariables(f, name, subWith);
      SubstituteVariables(a, name, subWith);
      var f', a' := Substitute(f, name, subWith).value, Substitute(a, name, subWith).value;
      DistributedVariables(f', a');
    case TypeSequence(_, _) =>
      SequenceSubstituteVariables(t, name, subWith);
  }

  lemma {:induction false} SequenceSubstituteVariables(t: Type, name: string, subWith: Type)
    requires t.TypeSequence? && SequenceSubstitute(t, name, subWith).Ok?
    ensures AllVariables(SequenceSubstitute(t, name, subWith).value) <= (AllVariables(t) - {name}) + AllVariables(subWith)
    decreases t, 1, 0
  {
    var ts, d := t.types, t.dotted;
    var first := SubstituteElements(t, |ts|, name, subWith).value;
    ElementsVariables(t, |ts|, name, subWith);
    SequenceVariables(first, None);
    if d.Some? {
      SubstituteVariables(d.value, name, subWith);
      var tail := Substitute(d.value, name, subWith).value;
      if tail.TypeSequence? {
        SequenceVariables(first + tail.types, tail.dotted);
        SequenceVariables(tail.types, tail.dotted);
        ElementVariablesConcat(first, tail.types);
      } else {
        SequenceVariables(first, Some(tail));
      }
    }
  }

  /** The variables of the elements of a sequence. */
  function ElementVariables(ts: seq<Type>): set<string>
  {
    set i, v | 0 <= i < |ts| && v in AllVariables(ts[i]) :: v
  }

  /** The elements of a concatenation mention only what the two parts do. */
  lemma ElementVariablesConcat(a: seq<Type>, b: seq<Type>)
    ensures ElementVariables(a + b) <= ElementVariables(a) + ElementVariables(b)
  {
    forall v | v in ElementVariables(a + b)
      ensures v in ElementVariables(a) + ElementVariables(b)
    {
      var i :| 0 <= i < |a + b| && v in AllVariables((a + b)[i]);
      if i >= |a| {
        assert (a + b)[i] == b[i - |a|];
      }
    }
  }

  /** The free variables are among the variables written in the type; a
      sequence's do not depend on its dotted tail, so a tail variable that
      no element mentions is not free. */
  lemma {:induction false} FreeAmongAll(t: Type)
    ensures FreeVariables(t) <= AllVariables(t)
    ensures t.TypeSequence? ==> FreeVariables(t) == FreeVariables(TypeSequence(t.types, None))
    ensures t.TypeSequence? && t.dotted.Some? && t.dotted.value.TypeVariable? ==>
      (t.dotted.value.name !in ElementVariables(t.types) ==> t.dotted.value.name !in FreeVariables(t))
  {
    match t
    case TypeApplication(f, a) =>
      FreeAmongAll(f);
      FreeAmongAll(a);
    case TypeSequence(ts, _) =>
      forall i | 0 <= i < |ts|
        ensures FreeVariables(ts[i]) <= AllVariables(ts[i])
      {
        FreeAmongAll(ts[i]);
      }
    case _ =>
  }

  lemma SequenceVariables(ts: seq<Type>, d: Option<Type>)
    ensures AllVariables(TypeSequence(ts, d)) == ElementVariables(ts) + (if d.Some? then AllVariables(d.value) else {})
  {
  }

  lemma DistributedVariables(l: Type, r: Type)
    requires Distributed(l, r).Ok?
    ensures AllVariables(Distributed(l, r).value) <= AllVariables(l) + AllVariables(r)
  {
    var result := Distributed(l, r).value;
    if l.TypeSequence? || r.TypeSequence? {
      forall v | v in AllVariables(result)
        ensures v in AllVariables(l) + AllVariables(r)
      {
        var i :| 0 <= i < |result.types| && v in AllVariables(result.types[i]);
        if l.TypeSequence? { assert l.types[i] in l.types; }
        if r.TypeSequence? { assert r.types[i] in r.types; }
      }
    }
  }

  lemma {:induction false} ElementsVariables(t: Type, n: nat, name: string, subWith: Type)
    requires t.TypeSequence? && n <= |t.types| && SubstituteElements(t, n, name, subWith).Ok?
    ensures ElementVariables(SubstituteElements(t, n, name, subWith).value) <= (AllVariables(t) - {name}) + AllVariables(subWith)
    decreases t, 0, n
  {
    if n > 0 {
      ElementsVariables(t, n - 1, name, subWith);
      var prev := SubstituteElements(t, n - 1, name, subWith).value;
      var last := Substitute(t.types[n - 1], name, subWith).value;
      SubstituteVariables(t.types[n - 1], name, subWith);
      assert AllVariables(t.types[n - 1]) <= AllVariables(t) by {
        forall v | v in AllVariables(t.types[n - 1])
          ensures v in AllVariables(t)
        {
          assert v in ElementVariables(t.types);
        }
      }
      var all := prev + Spliced(last);
      forall v | v in ElementVariables(all)
        ensures v in ElementVariables(prev) + AllVariables(last)
      {
        var i :| 0 <= i < |all| && v in AllVariables(all[i]);
        if i >= |prev| {
          if last.TypeSequence? {
            assert all[i] == last.types[i - |prev|];
            assert v in ElementVariables(last.types);
          } else {
            assert all[i] == last;
          }
        } else {
          assert all[i] == prev[i];
        }
      }
    }
  }

  /** Splicing in place: a sequence put in for an element, at any
      position, contributes its elements there (its own dotted tail is
      dropped), and a sequence put in for the dotted tail is appended and
      brings its own dotted tail along. */
  lemma SubstituteSplices(pre: seq<Type>, x: string, k: Kind, post: seq<Type>, us: seq<Type>, d: Option<Type>)
    requires forall i :: 0 <= i < |pre| ==> SequenceFree(pre[i]) && x !in FreeVariables(pre[i])
    requires forall i :: 0 <= i < |post| ==> SequenceFree(post[i]) && x !in FreeVariables(post[i])
    ensures Substitute(TypeSequence(pre + [TypeVariable(x, k)] + post, None), x, TypeSequence(us, d))
      == Ok(TypeSequence(pre + us + post, None))
    ensures Substitute(TypeSequence(pre, Some(TypeVariable(x, k))), x, TypeSequence(us, d))
      == if pre == [] then Err(EmptyAggregate) else Ok(TypeSequence(pre + us, d))
  {
    var w := TypeSequence(us, d);
    var ts := pre + [TypeVariable(x, k)] + post;
    SplicedElements(pre, x, k, post, w);
    assert SequenceSubstitute(TypeSequence(ts, None), x, w) == Ok(TypeSequence(pre + us + post, None));
    if pre != [] {
      KeptElements(pre, x, w);
      assert Substitute(TypeVariable(x, k), x, w) == Ok(w);
      assert SequenceSubstitute(TypeSequence(pre, Some(TypeVariable(x, k))), x, w) == Ok(TypeSequence(pre + us, d));
    }
  }

  /** The elements around the spliced variable are kept, and the
      replacement's elements take its place. */
  lemma SplicedElements(pre: seq<Type>, x: string, k: Kind, post: seq<Type>, w: Type)
    requires w.TypeSequence?
    requires forall i :: 0 <= i < |pre| ==> SequenceFree(pre[i]) && x !in FreeVariables(pre[i])
    requires forall i :: 0 <= i < |post| ==> SequenceFree(post[i]) && x !in FreeVariables(post[i])
    ensures var ts := pre + [TypeVariable(x, k)] + post;
      SubstituteElements(TypeSequence(ts, None), |ts|, x, w) == Ok(pre + w.types + post)
  {
    var ts := pre + [TypeVariable(x, k)] + post;
    var t1 := TypeSequence(ts, None);
    var m := |pre|;
    assert SubstituteElements(t1, m, x, w) == Ok(pre) by {
      AbsentKept(ts, 0, m, x, w);
      assert SubstituteElements(t1, 0, x, w) == Ok([]);
      UntouchedElements(t1, 0, m, x, w, []);
      assert [] + ts[0..m] == pre;
    }
    assert SubstituteElements(t1, m + 1, x, w) == Ok(pre + w.types) by {
      assert Substitute(ts[m], x, w) == Ok(w);
      ElementsSnoc(t1, m + 1, x, w, pre, w);
    }
    assert ts[m + 1..|ts|] == post;
    AbsentKept(ts, m + 1, |ts|, x, w);
    UntouchedElements(t1, m + 1, |ts|, x, w, pre + w.types);
  }

  /** Elements that miss the variable are all kept. */
  lemma KeptElements(ts: seq<Type>, x: string, w: Type)
    requires forall i :: 0 <= i < |ts| ==> SequenceFree(ts[i]) && x !in FreeVariables(ts[i])
    ensures SubstituteElements(TypeSequence(ts, None), |ts|, x, w) == Ok(ts)
    ensures forall o :: SubstituteElements(TypeSequence(ts, o), |ts|, x, w) == Ok(ts)
  {
    forall o: Option<Type>
      ensures SubstituteElements(TypeSequence(ts, o), |ts|, x, w) == Ok(ts)
    {
      var t := TypeSequence(ts, o);
      AbsentKept(ts, 0, |ts|, x, w);
      assert SubstituteElements(t, 0, x, w) == Ok([]);
      UntouchedElements(t, 0, |ts|, x, w, []);
      assert [] + ts[0..|ts|] == ts;
    }
  }

  /** The spliced substitutions of the elements, one part per element. */
  function SplicedParts(ts: seq<Type>, x: string, w: Type): (parts: seq<seq<Type>>)
    requires forall i :: 0 <= i < |ts| ==> Substitute(ts[i], x, w).Ok?
    ensures |parts| == |ts|
  {
    seq(|ts|, i requires 0 <= i < |ts| => Spliced(Substitute(ts[i], x, w).value))
  }

  /** The parts one after the other. */
  function Flatten<T>(parts: seq<seq<T>>): (r: seq<T>)
  {
    if parts == [] then [] else Flatten(parts[..|parts| - 1]) + parts[|parts| - 1]
  }

  /** Substituting into the elements of a sequence succeeds exactly when it
      succeeds on each of them, and then it is the concatenation, in order,
      of what each element became, spliced: a sequence contributes its
      elements and any other type itself. */
  lemma {:induction false} ElementsFlatten(t: Type, n: nat, x: string, w: Type)
    requires t.TypeSequence? && n <= |t.types|
    ensures SubstituteElements(t, n, x, w).Ok? <==> forall i :: 0 <= i < n ==> Substitute(t.types[i], x, w).Ok?
    ensures SubstituteElements(t, n, x, w).Ok? ==>
      SubstituteElements(t, n, x, w).value == Flatten(SplicedParts(t.types[..n], x, w))
    decreases n
  {
    if n > 0 {
      ElementsFlatten(t, n - 1, x, w);
      ElementsStep(t, n, x, w);
      var ts := t.types;
      assert (forall i :: 0 <= i < n ==> Substitute(ts[i], x, w).Ok?) <==>
        (forall i :: 0 <= i < n - 1 ==> Substitute(ts[i], x, w).Ok?) && Substitute(ts[n - 1], x, w).Ok?;
      if SubstituteElements(t, n, x, w).Ok? {
        PartsSnoc(ts, n, x, w);
      }
    }
  }

  /** One step of `SubstituteElements`. */
  lemma ElementsStep(t: Type, n: nat, x: string, w: Type)
    requires t.TypeSequence? && 0 < n <= |t.types|
    ensures SubstituteElements(t, n, x, w).Ok? <==>
      SubstituteElements(t, n - 1, x, w).Ok? && Substitute(t.types[n - 1], x, w).Ok?
    ensures SubstituteElements(t, n, x, w).Ok? ==>
      SubstituteElements(t, n, x, w).value
        == SubstituteElements(t, n - 1, x, w).value + Spliced(Substitute(t.types[n - 1], x, w).value)
  {
  }

  /** The parts of the first `n` elements are those of the first `n - 1`
      and then that of the last. */
  lemma PartsSnoc(ts: seq<Type>, n: nat, x: string, w: Type)
    requires 0 < n <= |ts| && forall i :: 0 <= i < n ==> Substitute(ts[i], x, w).Ok?
    ensures Flatten(SplicedParts(ts[..n], x, w))
      == Flatten(SplicedParts(ts[..n - 1], x, w)) + Spliced(Substitute(ts[n - 1], x, w).value)
  {
    assert forall i :: 0 <= i < n - 1 ==> ts[..n - 1][i] == ts[i];
    var parts := SplicedParts(ts[..n], x, w);
    assert parts[..n - 1] == SplicedParts(ts[..n - 1], x, w);
  }

  /** Elements from `from` on that substitution keeps, and that are not
      sequences, are kept as they are. */
  lemma {:induction false} UntouchedElements(t: Type, from: nat, n: nat, x: string, w: Type, before: seq<Type>)
    requires t.TypeSequence? && from <= n <= |t.types|
    requires SubstituteElements(t, from, x, w) == Ok(before)
    requires forall i :: from <= i < n ==> KeptAt(t.types, i, x, w)
    ensures SubstituteElements(t, n, x, w) == Ok(before + t.types[from..n])
    decreases n
  {
    if n == from {
      assert t.types[from..n] == [];
      assert before + [] == before;
    } else {
      var ts, e := t.types, t.types[n - 1];
      UntouchedElements(t, from, n - 1, x, w, before);
      var kept := before + ts[from..n - 1];
      assert KeptAt(ts, n - 1, x, w);
      ElementsSnoc(t, n, x, w, kept, e);
      assert kept + [e] == before + ts[from..n] by {
        assert ts[from..n] == ts[from..n - 1] + [e];
      }
    }
  }

  /** The type at `i` is no sequence and substitution keeps it. */
  predicate KeptAt(ts: seq<Type>, i: nat, x: string, w: Type)
    requires i < |ts|
  {
    !ts[i].TypeSequence? && Substitute(ts[i], x, w) == Ok(ts[i])
  }

  /** Sequence-free types that miss the variable are kept. */
  lemma AbsentKept(ts: seq<Type>, from: nat, to: nat, x: string, w: Type)
    requires from <= to <= |ts|
    requires forall i :: from <= i < to ==> SequenceFree(ts[i]) && x !in FreeVariables(ts[i])
    ensures forall i :: from <= i < to ==> KeptAt(ts, i, x, w)
  {
    forall i | from <= i < to
      ensures KeptAt(ts, i, x, w)
    {
      UnchangedAbsent(ts[i], x, w);
    }
  }

  /** One more element substituted and spliced in. */
  lemma ElementsSnoc(t: Type, n: nat, x: string, w: Type, prev: seq<Type>, e: Type)
    requires t.TypeSequence? && 0 < n <= |t.types|
    requires SubstituteElements(t, n - 1, x, w) == Ok(prev) && Substitute(t.types[n - 1], x, w) == Ok(e)
    ensures SubstituteElements(t, n, x, w) == Ok(prev + Spliced(e))
  {
  }

  /** Substituting for a variable that a sequence-free type lacks keeps it. */
  lemma {:induction false} UnchangedAbsent(t: Type, x: string, w: Type)
    requires SequenceFree(t) && x !in FreeVariables(t)
    ensures Substitute(t, x, w) == Ok(t)
  {
    match t
    case TypeApplication(f, a) =>
      UnchangedAbsent(f, x, w);
      UnchangedAbsent(a, x, w);
    case _ =>
  }

  // ---------------------------------------------------------------------
  // Predicates and qualified types.

  /** `Predicate.Substitute`: one predicate per element when the argument
      became a sequence. */
  function SubstitutePredicate(p: Predicate, name: string, subWith: Type): (r: Result<seq<Predicate>>)
    ensures r.Ok? <==> Substitute(p.arg, name, subWith).Ok?
    ensures r.Ok? ==> var args := Spliced(Substitute(p.arg, name, subWith).value);
      |r.value| == |args| && forall i :: 0 <= i < |args| ==> r.value[i] == Predicate(p.name, args[i])
  {
    var arg :- Substitute(p.arg, name, subWith);
    var args := Spliced(arg);
    Ok(seq(|args|, i requires 0 <= i < |args| => Predicate(p.name, args[i])))
  }

  /** The `SelectMany` of `Predicate.Substitute` over a list. */
  function SubstitutePredicates(ps: seq<Predicate>, name: string, subWith: Type): Result<seq<Predicate>>
  {
    if ps == [] then Ok([])
    else
      var prev :- SubstitutePredicates(ps[..|ps| - 1], name, subWith);
      var last :- SubstitutePredicate(ps[|ps| - 1], name, subWith);
      Ok(prev + last)
  }

  /** Every predicate of the flattened list has the class of one of the
      originals. */
  lemma {:induction false} SubstitutePredicatesNames(ps: seq<Predicate>, name: string, subWith: Type)
    requires SubstitutePredicates(ps, name, subWith).Ok?
    ensures var r := SubstitutePredicates(ps, name, subWith).value;
      forall i :: 0 <= i < |r| ==> exists j :: 0 <= j < |ps| && r[i].name == ps[j].name
  {
    if ps != [] {
      var init := ps[..|ps| - 1];
      SubstitutePredicatesNames(init, name, subWith);
      var prev := SubstitutePredicates(init, name, subWith).value;
      var last := SubstitutePredicate(ps[|ps| - 1], name, subWith).value;
      var r := prev + last;
      assert SubstitutePredicates(ps, name, subWith).value == r;
      forall i | 0 <= i < |r|
        ensures exists j :: 0 <= j < |ps| && r[i].name == ps[j].name
      {
        if i < |prev| {
          var j :| 0 <= j < |init| && prev[i].name == init[j].name;
          assert r[i] == prev[i] && init[j] == ps[j];
        } else {
          assert r[i] == last[i - |prev|] && r[i].name == ps[|ps| - 1].name;
        }
      }
    }
  }

  /** `QualifiedType.Substitute`: the predicates flattened, then the head. */
  function SubstituteQualified(q: QualifiedType, name: string, subWith: Type): Result<QualifiedType>
  {
    var context :- SubstitutePredicates(q.context, name, subWith);
    var head :- Substitute(q.head, name, subWith);
    Ok(QualifiedType(context, head))
  }

  /** No predicate argument holds a sequence. */
  predicate ArgsSequenceFree(ps: seq<Predicate>)
  {
    forall i :: 0 <= i < |ps| ==> SequenceFree(ps[i].arg)
  }

  /** Without sequences a predicate substitutes to exactly one predicate of
      its class. */
  lemma SubstitutePredicateSequenceFree(p: Predicate, name: string, subWith: Type)
    requires SequenceFree(p.arg) && SequenceFree(subWith)
    ensures SubstitutePredicate(p, name, subWith).Ok?
    ensures var r := SubstitutePredicate(p, name, subWith).value;
      |r| == 1 && r[0].name == p.name && SequenceFree(r[0].arg)
  {
    SubstituteSequenceFree(p.arg, name, subWith);
  }

  /** Without sequences substituting into a list of predicates keeps every
      predicate, in order, with its class. */
  lemma {:induction false} SubstitutePredicatesSequenceFree(ps: seq<Predicate>, name: string, subWith: Type)
    requires ArgsSequenceFree(ps) && SequenceFree(subWith)
    ensures SubstitutePredicates(ps, name, subWith).Ok?
    ensures var r := SubstitutePredicates(ps, name, subWith).value;
      && |r| == |ps|
      && ArgsSequenceFree(r)
      && forall i :: 0 <= i < |r| ==> r[i].name == ps[i].name
  {
    if ps != [] {
      var init, last := ps[..|ps| - 1], ps[|ps| - 1];
      assert ArgsSequenceFree(init) by {
        forall i | 0 <= i < |init| ensures SequenceFree(init[i].arg) { assert init[i] == ps[i]; }
      }
      SubstitutePredicatesSequenceFree(init, name, subWith);
      SubstitutePredicateSequenceFree(last, name, subWith);
      var prev := SubstitutePredicates(init, name, subWith).value;
      var one := SubstitutePredicate(last, name, subWith).value;
      assert SubstitutePredicates(ps, name, subWith) == Ok(prev + one);
      var r := prev + one;
      forall i | 0 <= i < |r|
        ensures r[i].name == ps[i].name && SequenceFree(r[i].arg)
      {
        if i < |prev| {
          assert r[i] == prev[i] && init[i] == ps[i];
        } else {
          assert i == |prev| && r[|prev|] == one[0];
        }
      }
    }
  }

  // ---------------------------------------------------------------------
  // The predefined constructors.

  const FunCons: Type := TypeConstructor("->", ArrowKind(DataKind, ArrowKind(DataKind, DataKind)))
  const TupleCons: Type := TypeConstructor("Tuple", ArrowKind(OnlySequenceKind, DataKind))

  function FunOf(input: Type, output: Type): Type
  {
    TypeApplication(TypeApplication(FunCons, input), output)
  }

  /** `PrimType.Fun(input, output, moreOutput...)`: nests to the right. */
  function Fun(input: Type, output: Type, moreOutput: seq<Type>): Type
    decreases |moreOutput|
  {
    if |moreOutput| > 0 then FunOf(input, Fun(output, moreOutput[0], moreOutput[1..]))
    else FunOf(input, output)
  }

  /** The final result of a right-nested function type, after `n`
      parameters. */
  function ResultAfter(t: Type, n: nat): Type
  {
    if n > 0 && t.TypeApplication? && t.func.TypeApplication? && t.func.func == FunCons then ResultAfter(t.arg, n - 1)
    else t
  }

  /** The `n`-th parameter of a right-nested function type. */
  function Parameter(t: Type, n: nat): Option<Type>
  {
    if t.TypeApplication? && t.func.TypeApplication? && t.func.func == FunCons then
      if n == 0 then Some(t.func.arg) else Parameter(t.arg, n - 1)
    else None
  }

  /** `Fun(a, b, c, ...)` takes `a`, `b`, ... in order and returns the last
      type given. */
  lemma {:induction false} FunNests(input: Type, output: Type, moreOutput: seq<Type>)
    ensures var all := [input, output] + moreOutput;
      && (forall i :: 0 <= i < |all| - 1 ==> Parameter(Fun(input, output, moreOutput), i) == Some(all[i]))
      && ResultAfter(Fun(input, output, moreOutput), |all| - 1) == all[|all| - 1]
    decreases |moreOutput|
  {
    if |moreOutput| > 0 {
      FunNests(output, moreOutput[0], moreOutput[1..]);
      assert [output, moreOutput[0]] + moreOutput[1..] == [output] + moreOutput;
    }
  }

  /** `PrimType.Tuple(elems...)`: the tuple constructor applied to the
      sequence of the elements, a data type whatever the elements. */
  function Tuple(elems: seq<Type>): (r: Type)
    ensures KindOf(r) == Ok(DataKind)
  {
    TypeApplication(TupleCons, TypeSequence(elems, None))
  }

  /** Substituting into a tuple distributes the tuple constructor over the
      substituted elements, since their sequence is the application's
      argument: the data type `Tuple [a, b]` becomes the sequence
      `[Tuple a, Tuple b]`, even when the variable does not occur in it. */
  lemma TupleDistributes(x: string, w: Type, ts: seq<Type>)
    requires ts != []
    requires forall i :: 0 <= i < |ts| ==> SequenceFree(ts[i]) && x !in FreeVariables(ts[i])
    ensures KindOf(Tuple(ts)) == Ok(DataKind)
    ensures Substitute(Tuple(ts), x, w)
      == Ok(TypeSequence(seq(|ts|, i requires 0 <= i < |ts| => TypeApplication(TupleCons, ts[i])), None))
    ensures KindOf(Substitute(Tuple(ts), x, w).value) == Ok(OnlySequenceKind)
  {
    var t := TypeSequence(ts, None);
    AbsentKept(ts, 0, |ts|, x, w);
    UntouchedElements(t, 0, |ts|, x, w, []);
    assert ts[0..|ts|] == ts;
    assert [] + ts == ts;
    assert Substitute(t, x, w) == Ok(t);
  }
}
