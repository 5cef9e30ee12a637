/** Type schemes of the variadic engine and their instantiation
    (`TypeScheme.Instantiate` in Inference.Dots/Types.cs). The context the
    fresh variables are introduced into is not part of this model; its new
    entries are given as (name, kind) pairs. */
module DotsSchemes {
  import opened Results
  import opened Fresh
  import opened DotsTypes

  datatype TypeScheme = TypeScheme(body: QualifiedType, quantified: seq<(string, Kind)>)

  /** The body with each quantified variable, in order, replaced by the
      variable of the same kind named by the matching fresh name. */
  function InstantiatedBody(body: QualifiedType, quantified: seq<(string, Kind)>, names: seq<string>): Result<QualifiedType>
    requires |names| == |quantified|
  {
    if quantified == [] then Ok(body)
    else
      var n := |quantified| - 1;
      var prev :- InstantiatedBody(body, quantified[..n], names[..n]);
      SubstituteQualified(prev, quantified[n].0, TypeVariable(names[n], quantified[n].1))
  }

  /** The entries `Instantiate` adds: one per quantified variable, in order. */
  function Intros(quantified: seq<(string, Kind)>, names: seq<string>): (r: seq<(string, Kind)>)
    requires |names| == |quantified|
    ensures |r| == |quantified| && forall i :: 0 <= i < |r| ==> r[i] == (names[i], quantified[i].1)
  {
    seq(|quantified|, i requires 0 <= i < |quantified| => (names[i], quantified[i].1))
  }

  /** `TypeScheme.Instantiate`. The loop draws "tc" names from a copy of the
      stream, which it never writes back, so the caller's stream comes back
      unchanged. */
  method Instantiate(scheme: TypeScheme, context: seq<(string, Kind)>, stream: Stream)
    returns (result: Result<QualifiedType>, contextOut: seq<(string, Kind)>, streamOut: Stream)
    ensures var names := Draws(stream, "tc", |scheme.quantified|).1;
      |names| == |scheme.quantified|
      && result == InstantiatedBody(scheme.body, scheme.quantified, names)
      && (result.Ok? ==> contextOut == context + Intros(scheme.quantified, names))
    ensures streamOut == stream
  {
    var q := scheme.quantified;
    ghost var names := Draws(stream, "tc", |q|).1;
    DrawsNames(stream, "tc", |q|);
    var state := stream;
    var current := scheme.body;
    contextOut := context;
    for i := 0 to |q|
      invariant state == Draws(stream, "tc", i).0 && Draws(stream, "tc", i).1 == names[..i]
      invariant InstantiatedBody(scheme.body, q[..i], names[..i]) == Ok(current)
      invariant contextOut == context + Intros(q[..i], names[..i])
    {
      var (next, tname) := Next(state, "tc");
      DrawTurn(stream, |q|, i, state);
      state := next;
      contextOut := contextOut + [(tname, q[i].1)];
      var substituted := SubstituteQualified(current, q[i].0, TypeVariable(tname, q[i].1));
      InstantiatedStep(scheme.body, q, names, i, current);
      if substituted.Err? {
        InstantiationFailure(scheme.body, q, names, i + 1);
        return substituted, contextOut, stream;
      }
      current := substituted.value;
    }
    assert q[..|q|] == q && names[..|q|] == names;
    return Ok(current), contextOut, stream;
  }

  /** The draw of turn `i` is the `i`-th of the `k` names. */
  lemma DrawTurn(stream: Stream, k: nat, i: nat, state: Stream)
    requires i < k == |Draws(stream, "tc", k).1| && state == Draws(stream, "tc", i).0
    requires Draws(stream, "tc", i).1 == Draws(stream, "tc", k).1[..i]
    ensures Next(state, "tc").0 == Draws(stream, "tc", i + 1).0
    ensures Next(state, "tc").1 == Draws(stream, "tc", k).1[i]
    ensures Draws(stream, "tc", i + 1).1 == Draws(stream, "tc", k).1[..i + 1]
  {
    DrawsPrefix(stream, "tc", i + 1, k);
    var names := Draws(stream, "tc", k).1;
    assert names[..i + 1] == names[..i] + [names[i]];
  }

  lemma InstantiatedStep(body: QualifiedType, q: seq<(string, Kind)>, names: seq<string>, i: nat, current: QualifiedType)
    requires |names| == |q| && i < |q|
    requires InstantiatedBody(body, q[..i], names[..i]) == Ok(current)
    ensures InstantiatedBody(body, q[..i + 1], names[..i + 1]) == SubstituteQualified(current, q[i].0, TypeVariable(names[i], q[i].1))
    ensures Intros(q[..i + 1], names[..i + 1]) == Intros(q[..i], names[..i]) + [(names[i], q[i].1)]
  {
    assert q[..i + 1][..i] == q[..i] && names[..i + 1][..i] == names[..i];
  }

  /** The first `i` of `k` draws are the `i` draws. */
  lemma {:induction false} DrawsPrefix(s: Stream, prefix: string, i: nat, k: nat)
    requires i <= k
    ensures |Draws(s, prefix, k).1| == k
    ensures Draws(s, prefix, k).1[..i] == Draws(s, prefix, i).1
    decreases k
  {
    DrawsNames(s, prefix, k);
    DrawsNames(s, prefix, i);
    if i < k {
      DrawsPrefix(s, prefix, i, k - 1);
      DrawsNames(s, prefix, k - 1);
      assert Draws(s, prefix, k).1[..k - 1] == Draws(s, prefix, k - 1).1;
      assert Draws(s, prefix, k).1[..i] == Draws(s, prefix, k - 1).1[..i];
    } else {
      assert Draws(s, prefix, k).1[..k] == Draws(s, prefix, k).1;
    }
  }

  lemma {:induction false} InstantiationFailure(body: QualifiedType, q: seq<(string, Kind)>, names: seq<string>, n: nat)
    requires |names| == |q| && n <= |q|
    requires InstantiatedBody(body, q[..n], names[..n]).Err?
    ensures InstantiatedBody(body, q, names) == InstantiatedBody(body, q[..n], names[..n])
  {
    if n < |q| {
      var m := |q| - 1;
      assert q[..m][..n] == q[..n] && names[..m][..n] == names[..n];
      InstantiationFailure(body, q[..m], names[..m], n);
    } else {
      assert q[..n] == q && names[..n] == names;
    }
  }

  /** A qualified type without sequences. */
  predicate SequenceFreeQualified(q: QualifiedType)
  {
    SequenceFree(q.head) && ArgsSequenceFree(q.context)
  }

  /** Substituting a variable into a qualified type without sequences keeps
      every predicate, in order, with its class. */
  lemma SubstituteQualifiedSequenceFree(q: QualifiedType, name: string, w: Type)
    requires SequenceFreeQualified(q) && SequenceFree(w)
    ensures SubstituteQualified(q, name, w).Ok?
    ensures var r := SubstituteQualified(q, name, w).value;
      && SequenceFreeQualified(r)
      && |r.context| == |q.context|
      && forall i :: 0 <= i < |r.context| ==> r.context[i].name == q.context[i].name
  {
    SubstituteSequenceFree(q.head, name, w);
    SubstitutePredicatesSequenceFree(q.context, name, w);
  }

  /** A scheme without sequences always instantiates: the body keeps its
      shape, and the new entries name the stream's next "tc" counters, in
      order, with the kinds of the quantified variables. */
  lemma {:induction false} InstantiationSucceeds(body: QualifiedType, q: seq<(string, Kind)>, stream: Stream)
    requires SequenceFreeQualified(body)
    ensures |Draws(stream, "tc", |q|).1| == |q|
    ensures var names := Draws(stream, "tc", |q|).1;
      && InstantiatedBody(body, q, names).Ok?
      && SequenceFreeQualified(InstantiatedBody(body, q, names).value)
      && |InstantiatedBody(body, q, names).value.context| == |body.context|
      && forall i :: 0 <= i < |q| ==> Intros(q, names)[i] == ("tc" + NatToString(Counter(stream, "tc") + i), q[i].1)
  {
    DrawsNames(stream, "tc", |q|);
    var names := Draws(stream, "tc", |q|).1;
    BodySucceeds(body, q, names);
  }

  lemma {:induction false} BodySucceeds(body: QualifiedType, q: seq<(string, Kind)>, names: seq<string>)
    requires SequenceFreeQualified(body) && |names| == |q|
    ensures InstantiatedBody(body, q, names).Ok?
    ensures SequenceFreeQualified(InstantiatedBody(body, q, names).value)
    ensures |InstantiatedBody(body, q, names).value.context| == |body.context|
  {
    if q != [] {
      var n := |q| - 1;
      BodySucceeds(body, q[..n], names[..n]);
      var prev := InstantiatedBody(body, q[..n], names[..n]).value;
      SubstituteQualifiedSequenceFree(prev, q[n].0, TypeVariable(names[n], q[n].1));
    }
  }
}
