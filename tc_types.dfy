/** Types of the type-class engine (Inference.Typeclasses): kinded type
    variables, type constructors and type applications, with predicates
    (`Eq a`), qualified types (`Eq a => a -> a -> bool`) and type schemes. */
module TcTypes {
  import opened Results

  datatype Kind = DataKind | ArrowKind(func: Kind, arg: Kind)

  datatype Type =
    | TypeVariable(name: string, kind: Kind)
    | TypeConstructor(name: string, kind: Kind)
    | TypeApplication(func: Type, arg: Type)

  datatype Predicate = Predicate(name: string, arg: Type)

  datatype QualifiedType = QualifiedType(context: seq<Predicate>, head: Type)

  datatype TypeScheme = TypeScheme(body: QualifiedType, quantified: seq<(string, Kind)>)

  /** The `Kind` property: an application needs an arrow-kinded function
      whose parameter kind is the argument's kind. */
  function KindOf(t: Type): (r: Result<Kind>)
    ensures t.TypeVariable? || t.TypeConstructor? ==> r == Ok(t.kind)
    ensures t.TypeApplication? && r.Ok? ==>
      KindOf(t.arg).Ok? && KindOf(t.func) == Ok(ArrowKind(KindOf(t.arg).value, r.value))
    ensures r.Err? ==> r.error in {KindMismatch, IllKindedApplication}
  {
    match t
    case TypeVariable(_, k) => Ok(k)
    case TypeConstructor(_, k) => Ok(k)
    case TypeApplication(f, a) =>
      var funKind :- KindOf(f);
      var argKind :- KindOf(a);
      if funKind.ArrowKind? then
        if funKind.func == argKind then Ok(funKind.arg) else Err(KindMismatch)
      else Err(IllKindedApplication)
  }

  /** The kinding rule of an application, in both directions. */
  lemma KindOfApplication(f: Type, a: Type)
    ensures KindOf(TypeApplication(f, a)).Ok? <==>
      KindOf(f).Ok? && KindOf(a).Ok? && KindOf(f).value.ArrowKind? && KindOf(f).value.func == KindOf(a).value
    ensures KindOf(TypeApplication(f, a)).Ok? ==> KindOf(TypeApplication(f, a)).value == KindOf(f).value.arg
  {
  }

  function FreeVariables(t: Type): set<string>
  {
    match t
    case TypeVariable(n, _) => {n}
    case TypeConstructor(_, _) => {}
    case TypeApplication(f, a) => FreeVariables(f) + FreeVariables(a)
  }

  function Size(t: Type): nat
  {
    match t
    case TypeApplication(f, a) => 1 + Size(f) + Size(a)
    case _ => 1
  }

  /** The type at the head of an application spine. */
  function Head(t: Type): Type
  {
    if t.TypeApplication? then Head(t.func) else t
  }

  /** `IsHeadNormalForm`: the spine is headed by a type variable. */
  function IsHeadNormalForm(t: Type): (r: bool)
    ensures r <==> Head(t).TypeVariable?
  {
    match t
    case TypeVariable(_, _) => true
    case TypeConstructor(_, _) => false
    case TypeApplication(f, _) => IsHeadNormalForm(f)
  }

  function Substitute(t: Type, name: string, subWith: Type): Type
  {
    match t
    case TypeVariable(n, _) => if n == name then subWith else t
    case TypeConstructor(_, _) => t
    case TypeApplication(f, a) => TypeApplication(Substitute(f, name, subWith), Substitute(a, name, subWith))
  }

  lemma {:induction false} SubstituteAbsent(t: Type, name: string, subWith: Type)
    requires name !in FreeVariables(t)
    ensures Substitute(t, name, subWith) == t
  {
    match t
    case TypeApplication(f, a) =>
      SubstituteAbsent(f, name, subWith);
      SubstituteAbsent(a, name, subWith);
    case _ =>
  }

  /** Substituting removes the variable and brings in the replacement's free
      variables, exactly when the variable occurs. */
  lemma {:induction false} SubstituteFreeVariables(t: Type, name: string, subWith: Type)
    ensures name in FreeVariables(t) ==>
      FreeVariables(Substitute(t, name, subWith)) == (FreeVariables(t) - {name}) + FreeVariables(subWith)
    ensures name !in FreeVariables(t) ==>
      FreeVariables(Substitute(t, name, subWith)) == FreeVariables(t)
  {
    match t
    case TypeApplication(f, a) =>
      SubstituteFreeVariables(f, name, subWith);
      SubstituteFreeVariables(a, name, subWith);
      if name !in FreeVariables(f) { SubstituteAbsent(f, name, subWith); }
      if name !in FreeVariables(a) { SubstituteAbsent(a, name, subWith); }
    case _ =>
  }

  // ---------------------------------------------------------------------
  // Equality. The C# classes compare variables and constructors by name
  // only, so kinds play no part in `Equals`.

  /** A type with its kinds erased. */
  datatype Bare = BareVariable(name: string) | BareConstructor(name: string) | BareApplication(func: Bare, arg: Bare)

  function Erase(t: Type): Bare
  {
    match t
    case TypeVariable(n, _) => BareVariable(n)
    case TypeConstructor(n, _) => BareConstructor(n)
    case TypeApplication(f, a) => BareApplication(Erase(f), Erase(a))
  }

  /** The overridden `Equals` of the three type classes. */
  function Equals(a: Type, b: Type): (r: bool)
    ensures r <==> Erase(a) == Erase(b)
  {
    match (a, b)
    case (TypeVariable(x, _), TypeVariable(y, _)) => x == y
    case (TypeConstructor(x, _), TypeConstructor(y, _)) => x == y
    case (TypeApplication(f, x), TypeApplication(g, y)) => Equals(f, g) && Equals(x, y)
    case _ => false
  }

  /** Kind-blind substitution on erased types. */
  function BareSubstitute(t: Bare, name: string, subWith: Bare): Bare
  {
    match t
    case BareVariable(n) => if n == name then subWith else t
    case BareConstructor(_) => t
    case BareApplication(f, a) => BareApplication(BareSubstitute(f, name, subWith), BareSubstitute(a, name, subWith))
  }

  /** Substitution looks at names only, so erasing kinds commutes with it. */
  lemma {:induction false} EraseSubstitute(t: Type, name: string, subWith: Type)
    ensures Erase(Substitute(t, name, subWith)) == BareSubstitute(Erase(t), name, Erase(subWith))
  {
    match t
    case TypeApplication(f, a) =>
      EraseSubstitute(f, name, subWith);
      EraseSubstitute(a, name, subWith);
    case _ =>
  }

  /** Substituting equal types into equal types gives equal types. */
  lemma SubstituteEquals(s: Type, t: Type, name: string, v: Type, w: Type)
    requires Equals(s, t) && Equals(v, w)
    ensures Equals(Substitute(s, name, v), Substitute(t, name, w))
  {
    EraseSubstitute(s, name, v);
    EraseSubstitute(t, name, w);
  }

  // ---------------------------------------------------------------------
  // The function type constructor.

  const FunCons: Type := TypeConstructor("->", ArrowKind(DataKind, ArrowKind(DataKind, DataKind)))

  function FunOf(input: Type, output: Type): Type
  {
    TypeApplication(TypeApplication(FunCons, input), output)
  }

  /** `PrimType.Fun(input, output, moreOutput...)`: nests to the right. */
  function Fun(input: Type, output: Type, moreOutput: seq<Type>): Type
    decreases |moreOutput|
  {
    if |moreOutput| > 0 then FunOf(input, Fun(output, moreOutput[0], moreOutput[1..]))
    else FunOf(input, output)
  }

  predicate IsFun(t: Type)
  {
    t.TypeApplication? && t.func.TypeApplication? && t.func.func == FunCons
  }

  /** The parameter types and the final result of a right-nested function
      type. */
  function Spine(t: Type): seq<Type>
  {
    if IsFun(t) then [t.func.arg] + Spine(t.arg) else [t]
  }

  /** `Fun(a, b, c, ...)` is the curried function taking `a`, `b`, ... */
  lemma {:induction false} FunSpine(input: Type, output: Type, moreOutput: seq<Type>)
    requires !IsFun(if moreOutput == [] then output else moreOutput[|moreOutput| - 1])
    ensures Spine(Fun(input, output, moreOutput)) == [input, output] + moreOutput
    decreases |moreOutput|
  {
    if |moreOutput| > 0 {
      var rest := moreOutput[1..];
      assert (if rest == [] then moreOutput[0] else rest[|rest| - 1]) == moreOutput[|moreOutput| - 1];
      FunSpine(output, moreOutput[0], rest);
      assert [output, moreOutput[0]] + rest == [output] + moreOutput;
    }
  }

  /** A function between data types is a data type. */
  lemma FunKind(input: Type, output: Type)
    requires KindOf(input) == Ok(DataKind) && KindOf(output) == Ok(DataKind)
    ensures KindOf(FunOf(input, output)) == Ok(DataKind)
  {
  }

  // ---------------------------------------------------------------------
  // Predicates and qualified types.

  function PredicateFreeVariables(p: Predicate): set<string>
  {
    FreeVariables(p.arg)
  }

  /** `Predicate.Substitute`: the class name is kept. */
  function SubstitutePredicate(p: Predicate, name: string, subWith: Type): (r: Predicate)
    ensures r.name == p.name
  {
    Predicate(p.name, Substitute(p.arg, name, subWith))
  }

  function SubstitutePredicates(ps: seq<Predicate>, name: string, subWith: Type): (r: seq<Predicate>)
    ensures |r| == |ps|
    ensures forall i :: 0 <= i < |ps| ==> r[i] == SubstitutePredicate(ps[i], name, subWith)
  {
    if ps == [] then [] else [SubstitutePredicate(ps[0], name, subWith)] + SubstitutePredicates(ps[1..], name, subWith)
  }

  /** `QualifiedType.Substitute`: every predicate and the head. */
  function SubstituteQualified(q: QualifiedType, name: string, subWith: Type): QualifiedType
  {
    QualifiedType(SubstitutePredicates(q.context, name, subWith), Substitute(q.head, name, subWith))
  }

  function PredicateEquals(p: Predicate, q: Predicate): (r: bool)
    ensures r <==> p.name == q.name && Erase(p.arg) == Erase(q.arg)
  {
    p.name == q.name && Equals(p.arg, q.arg)
  }
}
