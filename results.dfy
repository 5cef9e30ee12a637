/** Outcomes shared by every engine: an optional value, and a result that is
    either a value or the failure the C# code signals by throwing. */
module Results {

  datatype Option<T> = None | Some(value: T)

  /** One constructor per way the engines fail. */
  datatype Error =
    | IndexOutOfRange          // `prefix[prefix.Count - 1]` on an empty prefix
    | EmptySequence            // `First()` / `Last()` on an empty list
    | NoSuchElement            // `First(p)` / `Last(p)` with nothing satisfying `p`
    | UnboundVariable(name: string)   // the binding looked up for a term variable is missing
    | UnknownContextEntry      // a solver met an entry it has no rule for
    | RigidRigidMismatch       // two different rigid types
    | OccursCheckFailed
    | KindMismatch             // "Kinds do not unify"
    | IllKindedApplication     // applying a type whose kind is not an arrow
    | NotAUnit                 // `ToUnit` of an arrow or a float type
    | NoHull                   // `MakeHull` of a unit expression
    | UnitMismatch             // a non-trivial equation between constant units
    | UnitEquationStuck        // the "Bad state" of the unit solver
    | MergeConflict(key: string)
    | ClassAlreadyDefined(className: string)
    | DifferingClasses         // unifying predicates of two different classes
    | OverlappingInstance
    | ContextReductionFailed
    | NullDereference
    | SequenceLengthMismatch
    | EmptyAggregate           // `Aggregate` without a seed over no elements
    | NotImplemented
    | UnexpectedEntry          // `SkimContext` met an entry it cannot generalise
    | UnsupportedTerm
    | OutOfFuel                // the model's bound on a loop the source runs unboundedly

  datatype Result<T> = Ok(value: T) | Err(error: Error)
  {
    predicate IsFailure() { Err? }

    function PropagateFailure<U>(): Result<U>
      requires Err?
    {
      Err(error)
    }

    function Extract(): T
      requires Ok?
    {
      value
    }
  }
}
