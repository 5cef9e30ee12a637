/** Types of the Hindley-Milner engine (Inference.Basic): type variables and
    arrows, with their free variables, single-variable substitution and
    type schemes. */
module BasicTypes {

  datatype Type = TypeVariable(name: string) | ArrowType(input: Type, output: Type)

  function FreeVariables(t: Type): set<string>
  {
    match t
    case TypeVariable(n) => {n}
    case ArrowType(i, o) => FreeVariables(i) + FreeVariables(o)
  }

  /** `Substitute(name, subWith)`: every occurrence of the variable `name`
      replaced by `subWith`. */
  function Substitute(t: Type, name: string, subWith: Type): Type
  {
    match t
    case TypeVariable(n) => if n == name then subWith else t
    case ArrowType(i, o) => ArrowType(Substitute(i, name, subWith), Substitute(o, name, subWith))
  }

  /** Substituting a variable that does not occur changes nothing. */
  lemma {:induction false} SubstituteAbsent(t: Type, name: string, subWith: Type)
    requires name !in FreeVariables(t)
    ensures Substitute(t, name, subWith) == t
  {
    match t
    case TypeVariable(_) =>
    case ArrowType(i, o) =>
      SubstituteAbsent(i, name, subWith);
      SubstituteAbsent(o, name, subWith);
  }

  /** Substituting a variable that occurs removes it and brings in exactly the
      free variables of the replacement. */
  lemma {:induction false} SubstituteFreeVariables(t: Type, name: string, subWith: Type)
    ensures name in FreeVariables(t) ==>
      FreeVariables(Substitute(t, name, subWith)) == (FreeVariables(t) - {name}) + FreeVariables(subWith)
    ensures name !in FreeVariables(t) ==>
      FreeVariables(Substitute(t, name, subWith)) == FreeVariables(t)
  {
    match t
    case TypeVariable(_) =>
    case ArrowType(i, o) =>
      SubstituteFreeVariables(i, name, subWith);
      SubstituteFreeVariables(o, name, subWith);
      if name !in FreeVariables(i) { SubstituteAbsent(i, name, subWith); }
      if name !in FreeVariables(o) { SubstituteAbsent(o, name, subWith); }
  }

  /** The structural equality the C# classes override `Equals` with. */
  function Equals(a: Type, b: Type): (r: bool)
    ensures r <==> a == b
  {
    match (a, b)
    case (TypeVariable(x), TypeVariable(y)) => x == y
    case (ArrowType(i, o), ArrowType(i', o')) => Equals(i, i') && Equals(o, o')
    case _ => false
  }

  /** `Aggregate` without a seed over `ts`, combining the running result with
      each further element `u` as `u -> result`. */
  function AggregateArrows(ts: seq<Type>): Type
    requires |ts| >= 1
  {
    if |ts| == 1 then ts[0] else ArrowType(ts[|ts| - 1], AggregateArrows(ts[..|ts| - 1]))
  }

  function Reverse<T>(s: seq<T>): (r: seq<T>)
    ensures |r| == |s|
  {
    if s == [] then [] else Reverse(s[1..]) + [s[0]]
  }

  /** The `params` constructor `ArrowType(first, second, rest...)`. */
  function Arrows(first: Type, second: Type, rest: seq<Type>): Type
  {
    if |rest| == 0 then ArrowType(first, second)
    else ArrowType(first, AggregateArrows(Reverse(rest) + [second]))
  }

  /** The arrow type `t0 -> t1 -> ... -> tn`, nested to the right. */
  function RightNested(ts: seq<Type>): Type
    requires |ts| >= 1
  {
    if |ts| == 1 then ts[0] else ArrowType(ts[0], RightNested(ts[1..]))
  }

  lemma {:induction false} AggregateReversed(rest: seq<Type>)
    requires |rest| >= 1
    ensures AggregateArrows(Reverse(rest)) == RightNested(rest)
  {
    if |rest| > 1 {
      var rev := Reverse(rest);
      assert rev == Reverse(rest[1..]) + [rest[0]];
      assert rev[..|rev| - 1] == Reverse(rest[1..]);
      AggregateReversed(rest[1..]);
    }
  }

  /** `ArrowType(a, b, c, ...)` is the right-nested arrow `a -> b -> c -> ...`. */
  lemma ArrowsRightNested(first: Type, second: Type, rest: seq<Type>)
    ensures Arrows(first, second, rest) == RightNested([first, second] + rest)
  {
    var all := [first, second] + rest;
    assert all[1..] == [second] + rest;
    if |rest| > 0 {
      var zs := Reverse(rest) + [second];
      assert zs[..|zs| - 1] == Reverse(rest);
      AggregateReversed(rest);
      assert ([second] + rest)[1..] == rest;
    }
  }

  /** `TypeScheme(body, quantified)`. */
  datatype TypeScheme = TypeScheme(body: Type, quantified: seq<string>)

  /** A scheme's free variables are its body's minus the quantified ones. */
  function SchemeFreeVariables(s: TypeScheme): (r: set<string>)
    ensures r <= FreeVariables(s.body)
    ensures forall x :: x in s.quantified ==> x !in r
    ensures forall x :: x in FreeVariables(s.body) && x !in s.quantified ==> x in r
  {
    set x | x in FreeVariables(s.body) && x !in s.quantified
  }
}
