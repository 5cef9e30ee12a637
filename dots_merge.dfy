/** The merges that `TypeSequence.Match` uses to combine the matches of
    its elements (Inference.Dots/Substitutions.cs): `MergeWithSeqVars`,
    which collects the values of the dotted tail's variables into
    sequences, and `CapWithDotted`, which is not implemented. */
module DotsMerge {
  import opened Results
  import opened Bindings
  import opened DotsTypes

  type Subst = Bindings<Type>

  /** The entry the checking loop of `MergeWithSeqVars` adds for one
      binding `lkv` of `left`. */
  function MergedEntry(lkv: (string, Type), right: Subst, seqVars: set<string>): (r: Result<(string, Type)>)
    ensures r.Ok? ==> r.value.0 == lkv.0
  {
    var (k, lv) := lkv;
    if k in seqVars then
      match Lookup(right, k)
      case Some(rv) =>
        if lv.TypeSequence? then Ok((k, TypeSequence(lv.types + [rv], None)))
        else Ok((k, TypeSequence([lv, rv], None)))
      case None => Ok(lkv)
    else if Lookup(right, k).Some? && Lookup(right, k).value != lv then Err(MergeConflict(k))
    else Ok(lkv)
  }

  /** `merged` after the checking loop has gone over all of `left`. */
  function MergedLeft(left: Subst, right: Subst, seqVars: set<string>): (r: Result<Subst>)
    ensures r.Ok? ==> |r.value| == |left| && Keys(r.value) == Keys(left)
  {
    if left == [] then Ok([])
    else
      var prev :- MergedLeft(left[..|left| - 1], right, seqVars);
      var entry :- MergedEntry(left[|left| - 1], right, seqVars);
      Snoc(prev, entry);
      Snoc(left[..|left| - 1], left[|left| - 1]);
      assert left == left[..|left| - 1] + [left[|left| - 1]];
      Ok(prev + [entry])
  }

  /** What `left.MergeWithSeqVars(right, seqVars)` returns: the merged
      bindings of `left`, then the bindings of `right` that `left` lacks. */
  function MergedWithSeqVars(left: Subst, right: Subst, seqVars: set<string>): Result<Subst>
  {
    var merged :- MergedLeft(left, right, seqVars);
    Ok(merged + RightOnly(merged, right))
  }

  /** `MergeWithSeqVars`: the foreach loop over `left`, then `AddRange`. */
  method MergeWithSeqVars(left: Subst, right: Subst, seqVars: set<string>) returns (r: Result<Subst>)
    ensures r == MergedWithSeqVars(left, right, seqVars)
  {
    var merged: Subst := [];
    for i := 0 to |left|
      invariant MergedLeft(left[..i], right, seqVars) == Ok(merged)
    {
      assert left[..i + 1][..i] == left[..i];
      var entry := MergedEntry(left[i], right, seqVars);
      if entry.Err? {
        MergedLeftFailure(left, i + 1, right, seqVars);
        return Err(entry.error);
      }
      merged := merged + [entry.value];
    }
    assert left[..|left|] == left;
    r := Ok(merged + RightOnly(merged, right));
  }

  /** Once the loop fails on a prefix, the whole merge fails the same way. */
  lemma {:induction false} MergedLeftFailure(left: Subst, n: nat, right: Subst, seqVars: set<string>)
    requires n <= |left| && MergedLeft(left[..n], right, seqVars).Err?
    ensures MergedLeft(left, right, seqVars) == MergedLeft(left[..n], right, seqVars)
  {
    if n < |left| {
      var init := left[..|left| - 1];
      assert init[..n] == left[..n];
      MergedLeftFailure(init, n, right, seqVars);
    } else {
      assert left[..n] == left;
    }
  }

  /** `CapWithDotted`: its body is commented out and it throws
      `NotImplementedException`. */
  function CapWithDotted(subst: Subst, dotted: Subst): (r: Result<Subst>)
    ensures r == Err(NotImplemented)
  {
    Err(NotImplemented)
  }

  // ---------------------------------------------------------------------
  // What the merge computes, key by key.

  /** The value `MergeWithSeqVars` gives a key: a sequence variable bound
      on both sides gets `left`'s sequence, without its tail, with `right`'s
      value appended, or the pair of the two values; every other key keeps
      the value of the side that binds it, `left` first. */
  function SeqMergedValue(left: Subst, right: Subst, seqVars: set<string>, k: string): Option<Type>
  {
    match (Lookup(left, k), Lookup(right, k))
    case (Some(lv), Some(rv)) =>
      if k in seqVars then
        if lv.TypeSequence? then Some(TypeSequence(lv.types + [rv], None)) else Some(TypeSequence([lv, rv], None))
      else Some(lv)
    case (Some(lv), None) => Some(lv)
    case (None, r) => r
  }

  lemma {:induction false} MergedLeftLookup(left: Subst, right: Subst, seqVars: set<string>, k: string)
    requires MergedLeft(left, right, seqVars).Ok?
    requires k in Keys(left)
    ensures Lookup(MergedLeft(left, right, seqVars).value, k) == SeqMergedValue(left, right, seqVars, k)
  {
    var init, last := left[..|left| - 1], left[|left| - 1];
    var prev := MergedLeft(init, right, seqVars).value;
    var entry := MergedEntry(last, right, seqVars).value;
    Snoc(prev, entry);
    Snoc(init, last);
    if k != last.0 {
      MergedLeftLookup(init, right, seqVars, k);
    }
  }

  /** `MergeWithSeqVars` fails exactly when a key outside `seqVars` is bound
      on both sides to different values. */
  lemma {:induction false} MergedWithSeqVarsSucceeds(left: Subst, right: Subst, seqVars: set<string>)
    requires UniqueKeys(left)
    ensures MergedWithSeqVars(left, right, seqVars).Ok? <==> MergedLeft(left, right, seqVars).Ok?
    ensures MergedLeft(left, right, seqVars).Ok? <==>
      forall k :: k in Keys(left) * Keys(right) && k !in seqVars ==> Lookup(left, k) == Lookup(right, k)
  {
    if left != [] {
      var init, last := left[..|left| - 1], left[|left| - 1];
      MergedWithSeqVarsSucceeds(init, right, seqVars);
      Snoc(init, last);
      if MergedLeft(init, right, seqVars).Err? {
        var k :| k in Keys(init) * Keys(right) && k !in seqVars && Lookup(init, k) != Lookup(right, k);
        assert Lookup(left, k) == Lookup(init, k);
      }
    }
  }

  /** A successful `MergeWithSeqVars` binds each key of either side once,
      to the value `SeqMergedValue` describes. */
  lemma MergedWithSeqVarsFacts(left: Subst, right: Subst, seqVars: set<string>)
    requires UniqueKeys(left) && UniqueKeys(right)
    requires MergedWithSeqVars(left, right, seqVars).Ok?
    ensures var m := MergedWithSeqVars(left, right, seqVars).value;
      && UniqueKeys(m)
      && Keys(m) == Keys(left) + Keys(right)
      && forall k :: Lookup(m, k) == SeqMergedValue(left, right, seqVars, k)
  {
    var merged := MergedLeft(left, right, seqVars).value;
    MergedLeftUnique(left, right, seqVars);
    RightOnlyFacts(merged, right);
    KeysConcat(merged, RightOnly(merged, right));
    UniqueConcat(merged, RightOnly(merged, right));
    forall k
      ensures Lookup(merged + RightOnly(merged, right), k) == SeqMergedValue(left, right, seqVars, k)
    {
      if k in Keys(left) {
        MergedLeftLookup(left, right, seqVars, k);
      } else {
        RightOnlyLookup(merged, right, k);
      }
    }
  }

  lemma {:induction false} MergedLeftUnique(left: Subst, right: Subst, seqVars: set<string>)
    requires UniqueKeys(left) && MergedLeft(left, right, seqVars).Ok?
    ensures UniqueKeys(MergedLeft(left, right, seqVars).value)
  {
    if left != [] {
      var init, last := left[..|left| - 1], left[|left| - 1];
      MergedLeftUnique(init, right, seqVars);
      Snoc(MergedLeft(init, right, seqVars).value, MergedEntry(last, right, seqVars).value);
      Snoc(init, last);
    }
  }

  /** Without sequence variables `MergeWithSeqVars` is `Merge`. */
  lemma {:induction false} MergedWithoutSeqVars(left: Subst, right: Subst)
    ensures MergedWithSeqVars(left, right, {}) == Merged(left, right)
  {
    LeftWithoutSeqVars(left, right);
  }

  lemma {:induction false} LeftWithoutSeqVars(left: Subst, right: Subst)
    ensures MergedLeft(left, right, {}) == match Conflict(left, right) case Some(k) => Err(MergeConflict(k)) case None => Ok(left)
  {
    if left != [] {
      var init, last := left[..|left| - 1], left[|left| - 1];
      LeftWithoutSeqVars(init, right);
      ConflictSnoc(init, last, right);
      assert init + [last] == left;
    }
  }

  /** The first conflict of `a + [e]` is that of `a`, else `e`'s key. */
  lemma {:induction false} ConflictSnoc(a: Subst, e: (string, Type), right: Subst)
    ensures Conflict(a + [e], right) ==
      if Conflict(a, right).Some? then Conflict(a, right)
      else if Agrees(right, e) then None else Some(e.0)
    decreases |a|
  {
    if a != [] {
      ConflictSnoc(a[1..], e, right);
      assert (a + [e])[1..] == a[1..] + [e];
    }
  }
}
