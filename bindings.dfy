/** Immutable dictionaries from names to values (`IImmutableDictionary`),
    modelled as association lists in enumeration order, with the
    `Merge` both type engines share: the checking loop over `left`, then
    `AddRange` of what `right` adds. */
module Bindings {
  import opened Results

  type Bindings<T> = seq<(string, T)>

  function Keys<T>(s: Bindings<T>): set<string>
  {
    if s == [] then {} else Keys(s[..|s| - 1]) + {s[|s| - 1].0}
  }

  /** A dictionary holds each key once. */
  predicate UniqueKeys<T>(s: Bindings<T>)
  {
    s == [] || (UniqueKeys(s[..|s| - 1]) && s[|s| - 1].0 !in Keys(s[..|s| - 1]))
  }

  function Lookup<T>(s: Bindings<T>, k: string): (r: Option<T>)
    ensures r.Some? <==> k in Keys(s)
  {
    if s == [] then None
    else if s[|s| - 1].0 == k then Some(s[|s| - 1].1)
    else Lookup(s[..|s| - 1], k)
  }

  lemma {:induction false} KeysConcat<T>(a: Bindings<T>, b: Bindings<T>)
    ensures Keys(a + b) == Keys(a) + Keys(b)
    ensures forall k :: Lookup(a + b, k) == LookupEither(a, b, k)
    decreases |b|
  {
    if b == [] {
      assert a + b == a;
    } else {
      assert (a + b)[..|a + b| - 1] == a + b[..|b| - 1];
      KeysConcat(a, b[..|b| - 1]);
    }
  }

  function LookupEither<T>(a: Bindings<T>, b: Bindings<T>, k: string): Option<T>
  {
    if k in Keys(b) then Lookup(b, k) else Lookup(a, k)
  }

  lemma Snoc<T>(a: Bindings<T>, e: (string, T))
    ensures Keys(a + [e]) == Keys(a) + {e.0}
    ensures UniqueKeys(a + [e]) <==> UniqueKeys(a) && e.0 !in Keys(a)
    ensures forall k :: Lookup(a + [e], k) == if k == e.0 then Some(e.1) else Lookup(a, k)
  {
    assert (a + [e])[..|a|] == a;
  }

  lemma {:induction false} UniqueConcat<T>(a: Bindings<T>, b: Bindings<T>)
    requires UniqueKeys(a) && UniqueKeys(b) && Keys(a) !! Keys(b)
    ensures UniqueKeys(a + b)
    decreases |b|
  {
    if b == [] {
      assert a + b == a;
    } else {
      assert (a + b)[..|a + b| - 1] == a + b[..|b| - 1];
      UniqueConcat(a, b[..|b| - 1]);
      KeysConcat(a, b[..|b| - 1]);
    }
  }

  /** `right` does not bind the key of `e` to another value. */
  predicate Agrees<T(==)>(right: Bindings<T>, e: (string, T))
  {
    Lookup(right, e.0).None? || Lookup(right, e.0).value == e.1
  }

  /** The first key of `left`, in enumeration order, that `right` binds to a
      different value. */
  function Conflict<T(==)>(left: Bindings<T>, right: Bindings<T>): (r: Option<string>)
    ensures r.None? <==> forall i :: 0 <= i < |left| ==> Agrees(right, left[i])
    ensures r.Some? ==> r.value in Keys(left) * Keys(right)
  {
    if left == [] then None
    else
      var k, v := left[0].0, left[0].1;
      var rest := Conflict(left[1..], right);
      KeysFront(left);
      if Lookup(right, k).Some? && Lookup(right, k).value != v then Some(k)
      else
        assert forall i :: 1 <= i < |left| ==> left[i] == left[1..][i - 1];
        rest
  }

  lemma {:induction false} KeysFront<T>(s: Bindings<T>)
    requires s != []
    ensures Keys(s) == {s[0].0} + Keys(s[1..])
  {
    KeysConcat([s[0]], s[1..]);
    assert [s[0]] + s[1..] == s;
    assert [s[0]][..0] == [];
  }

  /** What `Merge` returns: `left`, then each binding of `right` whose
      key `left` lacks (`AddRange`). */
  function Merged<T(==)>(left: Bindings<T>, right: Bindings<T>): Result<Bindings<T>>
  {
    match Conflict(left, right)
    case Some(k) => Err(MergeConflict(k))
    case None => Ok(left + RightOnly(left, right))
  }

  function RightOnly<T>(left: Bindings<T>, right: Bindings<T>): Bindings<T>
  {
    if right == [] then []
    else
      var last := right[|right| - 1];
      RightOnly(left, right[..|right| - 1]) + (if last.0 in Keys(left) then [] else [last])
  }

  /** `left.Merge(right)`: the checking loop, then `AddRange`. */
  method Merge<T(==)>(left: Bindings<T>, right: Bindings<T>) returns (r: Result<Bindings<T>>)
    ensures r == Merged(left, right)
  {
    var i := 0;
    while i < |left|
      invariant 0 <= i <= |left|
      invariant Conflict(left, right) == Conflict(left[i..], right)
    {
      var k, v := left[i].0, left[i].1;
      assert left[i..][1..] == left[i + 1..];
      if Lookup(right, k).Some? && Lookup(right, k).value != v {
        return Err(MergeConflict(k));
      }
      i := i + 1;
    }
    assert left[i..] == [];
    r := Ok(left + RightOnly(left, right));
  }

  lemma {:induction false} RightOnlyKeys<T>(left: Bindings<T>, right: Bindings<T>)
    ensures Keys(RightOnly(left, right)) == Keys(right) - Keys(left)
  {
    if right != [] {
      var init, last := right[..|right| - 1], right[|right| - 1];
      RightOnlyKeys(left, init);
      if last.0 !in Keys(left) {
        Snoc(RightOnly(left, init), last);
      } else {
        assert RightOnly(left, init) + [] == RightOnly(left, init);
      }
    }
  }

  lemma {:induction false} RightOnlyFacts<T>(left: Bindings<T>, right: Bindings<T>)
    requires UniqueKeys(right)
    ensures UniqueKeys(RightOnly(left, right))
    ensures Keys(RightOnly(left, right)) == Keys(right) - Keys(left)
  {
    RightOnlyKeys(left, right);
    if right != [] {
      var init, last := right[..|right| - 1], right[|right| - 1];
      RightOnlyFacts(left, init);
      if last.0 !in Keys(left) {
        Snoc(RightOnly(left, init), last);
      } else {
        assert RightOnly(left, init) + [] == RightOnly(left, init);
      }
    }
  }

  lemma {:induction false} RightOnlyLookup<T>(left: Bindings<T>, right: Bindings<T>, k: string)
    requires k !in Keys(left)
    ensures Lookup(RightOnly(left, right), k) == Lookup(right, k)
  {
    if right != [] {
      var init, last := right[..|right| - 1], right[|right| - 1];
      RightOnlyLookup(left, init, k);
      if last.0 !in Keys(left) {
        Snoc(RightOnly(left, init), last);
      } else {
        assert RightOnly(left, init) + [] == RightOnly(left, init);
      }
    }
  }

  /** `Merge` fails exactly on a key the two sides bind differently. */
  lemma MergedSucceeds<T>(left: Bindings<T>, right: Bindings<T>)
    requires UniqueKeys(left)
    ensures Merged(left, right).Ok? <==>
      forall k :: k in Keys(left) * Keys(right) ==> Lookup(left, k) == Lookup(right, k)
  {
    if Merged(left, right).Ok? {
      forall k | k in Keys(left) * Keys(right)
        ensures Lookup(left, k) == Lookup(right, k)
      {
        var i := KeyIndex(left, k);
        LookupAt(left, i);
        assert Agrees(right, left[i]);
      }
    } else {
      var k := Conflict(left, right).value;
      var i :| 0 <= i < |left| && !Agrees(right, left[i]);
      LookupAt(left, i);
      IndexInKeys(left, i);
      assert left[i].0 in Keys(left) * Keys(right);
    }
  }

  lemma {:induction false} LookupAt<T>(s: Bindings<T>, i: nat)
    requires UniqueKeys(s) && i < |s|
    ensures Lookup(s, s[i].0) == Some(s[i].1)
  {
    if i < |s| - 1 {
      assert s[..|s| - 1][i] == s[i];
      IndexInKeys(s[..|s| - 1], i);
      LookupAt(s[..|s| - 1], i);
    }
  }

  lemma {:induction false} KeyIndex<T>(s: Bindings<T>, k: string) returns (i: nat)
    requires k in Keys(s)
    ensures i < |s| && s[i].0 == k
  {
    if s[|s| - 1].0 == k {
      i := |s| - 1;
    } else {
      i := KeyIndex(s[..|s| - 1], k);
    }
  }

  /** A successful `Merge` binds every key of either side, once, to the value
      both sides agree on. */
  lemma MergedFacts<T>(left: Bindings<T>, right: Bindings<T>)
    requires UniqueKeys(left) && UniqueKeys(right) && Merged(left, right).Ok?
    ensures var m := Merged(left, right).value;
      && UniqueKeys(m)
      && Keys(m) == Keys(left) + Keys(right)
      && (forall k :: k in Keys(left) ==> Lookup(m, k) == Lookup(left, k))
      && (forall k :: k in Keys(right) ==> Lookup(m, k) == Lookup(right, k))
  {
    MergedSucceeds(left, right);
    RightOnlyFacts(left, right);
    forall k | k !in Keys(left)
      ensures Lookup(RightOnly(left, right), k) == Lookup(right, k)
    {
      RightOnlyLookup(left, right, k);
    }
    KeysConcat(left, RightOnly(left, right));
    UniqueConcat(left, RightOnly(left, right));
  }

  lemma {:induction false} IndexInKeys<T>(s: Bindings<T>, i: nat)
    requires i < |s|
    ensures s[i].0 in Keys(s)
  {
    if i < |s| - 1 {
      assert s[..|s| - 1][i] == s[i];
      IndexInKeys(s[..|s| - 1], i);
    }
  }
}
