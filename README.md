# Type inference in context, modelled in Dafny

This project models the core of the *inference-playground* repository: a
family of type-inference engines in the style of Gundry, McBride and
McKinna's "Type inference in context". In each engine the typing context
is an ordered list of entries: type-variable introductions and
definitions, term bindings, locality markers, and, in the type-class
engine, class declarations. Pending constraints live in the same list.
The solver always takes the first constraint and rewrites it against the
entry directly below it, until no constraint remains.

Four engines are modelled, plus the fresh-name stream they all share.

- **Basic** (`Basic*` modules): arrows and type variables, the one-step
  solver and `UnificationMachine.Run`.
- **Typeclasses** (`Tc*` modules):
  - kinded constructors and applications;
  - one-way matching, unification and overlap;
  - substitution maps (`Apply`, `Compose`, `Merge`);
  - the class registry with instances and entailment;
  - predicate reduction;
  - the solver, which floats variable–variable constraints past class declarations;
  - the inference driver with let-generalisation.
- **Units** (`Unit*` modules):
  - the `Unit` Abelian group of signed integer exponents;
  - float types carrying units;
  - hull decomposition;
  - unit equations solved by integer pivoting;
  - the inference driver, including float literals.
- **Dots** (`Dots*` modules):
  - type sequences with a dotted tail;
  - substitution that distributes over and splices sequences;
  - sequence matching;
  - `MergeWithSeqVars`;
  - predicate-expanding `Apply` and `Compose`;
  - scheme instantiation.
- **Fresh** and **Bindings**:
  - `FreshVariableStream`, a persistent per-prefix counter;
  - dictionaries as association lists, shared by the substitution modules.

C# exceptions become `Result` errors, and C# `null` returns become `Option`.
Loops are `method`s, each proved equal to a recursive specification
function. The pure callers use those specification functions.

The C# drain loops and the recursions in `ToHeadNormalForm`, `Entails` and
`Infer` have no evident measure. They take a `fuel` argument, and lemmas
show that an answer other than `OutOfFuel` does not change with more fuel.

## Model

| member | source | states |
|---|---|---|
| `Fresh.Next` | Inference.Common/FreshVariables.cs:19-32 | the name is the prefix followed by the prefix's counter in decimal (`0` for a new prefix); that counter goes up by one and no other prefix's counter moves |
| `Fresh.NatToStringInjective` | Inference.Common/FreshVariables.cs:24 | different counters print as different decimal strings |
| `Fresh.SamePrefixNames` | Inference.Common/FreshVariables.cs:24 | two names drawn with one prefix are equal only when their counters are |
| `Fresh.DrawsNames` | Inference.Common/FreshVariables.cs:19-32 | `k` successive draws with one prefix name the starting counter, then the next, and so on, and advance the counter by exactly `k` |
| `Fresh.DrawsDistinct` | Inference.Common/FreshVariables.cs:19-32 | successive draws with one prefix never repeat a name |
| `BasicTypes.SubstituteAbsent` | Inference.Basic/Types.cs:20-54 | substituting a variable that does not occur gives the type back unchanged |
| `BasicTypes.SubstituteFreeVariables` | Inference.Basic/Types.cs:17-54 | after substituting an occurring variable the free variables are the old ones minus that variable plus those of the replacement; otherwise they are unchanged |
| `BasicTypes.Equals` | Inference.Basic/Types.cs:25-61 | the overridden `Equals` holds exactly when the two types are the same value |
| `BasicTypes.ArrowsRightNested` | Inference.Basic/Types.cs:35-47 | the `params` constructor `ArrowType(a, b, c, ...)` builds the right-nested arrow `a -> (b -> (c -> ...))` |
| `BasicTypes.SchemeFreeVariables` | Inference.Basic/Types.cs:75-77 | a scheme's free variables are exactly the body's free variables that are not quantified |
| `BasicContext.ApplyConcat` | Inference.Basic/Context.cs:14-15 | applying a concatenated context applies the older part first, then the newer |
| `BasicContext.NormalizeShape` | Inference.Basic/Context.cs:17-21 | normalising keeps the length and every entry but definitions, rewrites each definition's body by the normalised entries before it, and normalising a prefix gives the prefix of the normalised context |
| `BasicContext.NormalizeResolves` | Inference.Basic/Context.cs:17-21 | in a well-scoped context, applying the normalised context to a type leaves only the type's own free variables or declared ones, and never a defined one |
| `BasicConstraints.SolveFrame` | Inference.Basic/Constraints.cs:37-93 | every successful rule leaves the suffix as it was and the prefix below the top entry as it was; the arrow rule keeps the whole prefix |
| `BasicConstraints.SolveErrors` | Inference.Basic/Constraints.cs:37-93 | solving fails only by an empty prefix (for a non-arrow constraint), by a constraint as the top entry, or by the occurs check of a flex-rigid constraint against its own variable's intro, each exactly when that situation arises |
| `BasicConstraints.VariablesShape` | Inference.Basic/Constraints.cs:46-66 | a variable-variable rule leaves the top entry, an intro turned into a definition of the same name, or a dependency-free constraint above the untouched top entry |
| `BasicConstraints.RuleKeeps` | Inference.Basic/Constraints.cs:46-93 | every rule that steps over the top entry keeps its scope entry, declares exactly what the top entry and the hoisted intros declared, and leaves only well-formed entries |
| `BasicConstraints.SolvePreservesScope` | Inference.Basic/Constraints.cs:37-93 | no rule adds, drops or reorders a term binding or locality marker |
| `BasicConstraints.SolvePreservesDeclarations` | Inference.Basic/Constraints.cs:37-93 | no rule loses or invents a type-variable declaration: an intro becomes a definition, moves into a constraint's dependencies or comes back out |
| `BasicConstraints.SolvePreservesWellFormed` | Inference.Basic/Constraints.cs:37-93 | every rule keeps the constraints in the shape the engine builds (only intros hoisted) |
| `BasicUnification.LeadingLength` | Inference.Basic/Unification.cs:40-43 | the length of the entries before the first constraint: none of them is a constraint, the entry after them is one, and it is short of the end exactly when `CanStep` holds |
| `BasicUnification.StepIsSolve` | Inference.Basic/Unification.cs:38-111 | the machine's `Step` rewrites exactly as `TypeConstraint.Solve` of the first constraint does, with the entries before it as prefix and after it as suffix; only an empty prefix fails differently (`Last()` on an empty sequence instead of an index out of range) |
| `BasicUnification.Run` | Inference.Basic/Unification.cs:26-36 | the loop returns the fuel-bounded run's result and records every machine it passed through, each one step after the previous; a finished run has no constraint left; a context without constraints comes back as it was with one recorded step |
| `BasicUnification.SolvedMoreFuel` | Inference.Basic/Unification.cs:26-36 | more fuel never changes an answer the machine reached |
| `BasicUnification.StepKeepsScope` | Inference.Basic/Unification.cs:38-111 | one step keeps the term bindings and locality markers, in order |
| `BasicUnification.StepKeepsDeclarations` | Inference.Basic/Unification.cs:38-111 | one step keeps the multiset of declared type variables, counting hoisted intros |
| `BasicUnification.StepKeepsWellFormed` | Inference.Basic/Unification.cs:38-111 | one step keeps every constraint well formed |
| `BasicUnification.SolvedPreserves` | Inference.Basic/Unification.cs:26-36 | a finished run leaves no constraint, every term binding and marker in order, and every declared type variable |
| `Bindings.Lookup` | Inference.Typeclasses/Substitutions.cs:47 | `TryGetValue` finds a value exactly for the dictionary's keys |
| `Bindings.Conflict` | Inference.Typeclasses/Substitutions.cs:45-51 | the checking loop finds no conflict exactly when every binding of `left` agrees with `right`; a conflict it reports is a key both sides bind |
| `Bindings.Merge` | Inference.Typeclasses/Substitutions.cs:41-54 | the loop over `left` followed by `AddRange` returns what `Merged` describes: the first conflicting key as an error, or `left` followed by the bindings only `right` has |
| `Bindings.MergedSucceeds` | Inference.Typeclasses/Substitutions.cs:41-54 | `Merge` succeeds exactly when the two sides agree on every key they share |
| `Bindings.MergedFacts` | Inference.Typeclasses/Substitutions.cs:41-54 | a successful `Merge` binds every key of either side once, to the value of the side that binds it |
| `Bindings.RightOnlyFacts` | Inference.Typeclasses/Substitutions.cs:53 | what `AddRange` adds from `right` binds each of `right`'s keys that `left` lacks, once |
| `TcTypes.KindOf` | Inference.Typeclasses/Types.cs:146-162 | variables and constructors have their own kind; an application that has a kind has an argument with a kind and a function whose kind is the arrow from that kind to it; every failure is one of the two kind errors |
| `TcTypes.KindOfApplication` | Inference.Typeclasses/Types.cs:146-162 | an application has a kind exactly when its function has an arrow kind whose parameter kind is the argument's kind, and then it is that arrow's result kind |
| `TcTypes.IsHeadNormalForm` | Inference.Typeclasses/Types.cs:55-144 | a type is in head normal form exactly when its application spine is headed by a type variable |
| `TcTypes.SubstituteAbsent` | Inference.Typeclasses/Types.cs:62-208 | substituting a variable that does not occur changes nothing |
| `TcTypes.SubstituteFreeVariables` | Inference.Typeclasses/Types.cs:59-211 | substituting an occurring variable removes it and brings in the replacement's free variables; otherwise the free variables are unchanged |
| `TcTypes.Equals` | Inference.Typeclasses/Types.cs:95-218 | the overridden `Equals` compares names and structure and ignores kinds |
| `TcTypes.SubstituteEquals` | Inference.Typeclasses/Types.cs:62-218 | substituting `Equals`-equal types into `Equals`-equal types gives `Equals`-equal types |
| `TcTypes.FunSpine` | Inference.Typeclasses/Types.cs:36-46 | `PrimType.Fun(a, b, c, ...)` is the curried function type taking `a`, `b`, ... in order |
| `TcTypes.SubstitutePredicates` | Inference.Typeclasses/Types.cs:343-346 | a qualified type's predicates are substituted one by one, keeping their number, order and classes |
| `TcTypes.PredicateEquals` | Inference.Typeclasses/Types.cs:279-282 | two predicates are equal exactly when their classes agree and their arguments agree up to kinds |
| `TcSubstitutions.Applied` | Inference.Typeclasses/Substitutions.cs:10-18 | applying a substitution brings in no variable but the type's own and those of the substitution's values |
| `TcSubstitutions.Apply` | Inference.Typeclasses/Substitutions.cs:10-18 | the loop substitutes the bindings one after another in enumeration order, computing `Applied` |
| `TcSubstitutions.ApplyPredicate` | Inference.Typeclasses/Substitutions.cs:20-28 | the loop on a predicate keeps its class and applies the substitution to its argument |
| `TcSubstitutions.ApplyTypes` | Inference.Typeclasses/Substitutions.cs:30-31 | the list overload applies the substitution to each type, keeping length and order |
| `TcSubstitutions.ApplyPredicates` | Inference.Typeclasses/Substitutions.cs:33-34 | the list overload applies the substitution to each predicate, keeping length and order |
| `TcSubstitutions.AppliedApplication` | Inference.Typeclasses/Substitutions.cs:10-18 | applying a substitution to an application applies it to both parts |
| `TcSubstitutions.AppliedUnbound` | Inference.Typeclasses/Substitutions.cs:10-18 | a type none of whose variables the substitution binds comes back unchanged |
| `TcSubstitutions.AppliedRemovesKeys` | Inference.Typeclasses/Substitutions.cs:10-18 | applying an idempotent substitution leaves none of its keys behind |
| `TcSubstitutions.AppliedIsSimultaneous` | Inference.Typeclasses/Substitutions.cs:10-18 | for an idempotent substitution, substituting the bindings one at a time in any enumeration order equals replacing every bound variable at once |
| `TcSubstitutions.SimultaneousAgree` | Inference.Typeclasses/Substitutions.cs:10-18 | only the bindings of a type's own free variables matter |
| `TcSubstitutions.ComposeKeys` | Inference.Typeclasses/Substitutions.cs:36-39 | `Compose` binds every key of either side, once |
| `TcSubstitutions.ComposeLookup` | Inference.Typeclasses/Substitutions.cs:36-39 | after `SetItems(left)` a key of `left` keeps its `left` value; any other key of `right` has its `right` value with `left` applied |
| `TcSubstitutions.SimultaneousCompose` | Inference.Typeclasses/Substitutions.cs:36-39 | composing an idempotent `left` with a `right` of disjoint keys means applying `right` first, then `left` |
| `TcUnify.Match` | Inference.Typeclasses/Types.cs:65-190 | a found match binds exactly the pattern's variables, each once, and applying it to the pattern gives the matched type; the only errors are a kind mismatch, an ill-kinded application or the merge of the two halves of an application binding one variable to different types |
| `TcUnify.VarUnify` | Inference.Typeclasses/Types.cs:70-91 | succeeds exactly when the kinds agree and the type is the variable itself (empty substitution) or does not contain it (one binding); otherwise fails with a kind mismatch or the occurs check; the result is idempotent and mentions only the two types' variables |
| `TcUnify.Unify` | Inference.Typeclasses/Types.cs:119-205 | with the variable case of applications corrected, a unifier is idempotent and binds and mentions only variables of the two types |
| `TcUnify.UnifyAsWritten` | Inference.Typeclasses/Types.cs:192-205 | the unifier as written, where an application against a variable unifies the variable with itself; its results keep the same shape |
| `TcUnify.UnifySimultaneous` | Inference.Typeclasses/Types.cs:119-205 | applying a unifier simultaneously to both types gives equal types |
| `TcUnify.UnifySound` | Inference.Typeclasses/Types.cs:192-205 | a successful `Unify` is a unifier: applying it to both types gives equal types |
| `TcUnify.UnifyAsWrittenCounterexample` | Inference.Typeclasses/Types.cs:196 | as written, `[] a` and a variable `b` of kind `*` unify with the empty substitution, which leaves them different; the corrected `Unify` binds `b` to `[] a` |
| `TcUnify.Overlap` | Inference.Typeclasses/Types.cs:18-29 | with the corrected `Unify`, two types overlap exactly when they unify, and then the unifier makes them equal |
| `TcUnify.PredicateMatch` | Inference.Typeclasses/Types.cs:241-244 | predicates of different classes do not match; a match binds exactly the pattern's variables and turns the pattern into the matched predicate |
| `TcUnify.PredicateUnify` | Inference.Typeclasses/Types.cs:246-253 | predicates of different classes fail to unify; a unifier of the arguments makes the two predicates equal |
| `TcContext.ApplyWithoutDefinitions` | Inference.Typeclasses/Context.cs:12-18 | a context without variable definitions leaves every type unchanged |
| `TcContext.ApplyConcat` | Inference.Typeclasses/Context.cs:17-18 | applying a concatenated context applies the older part first, then the newer |
| `TcContext.ApplyPredicateArgument` | Inference.Typeclasses/Context.cs:20-21 | applying a context to a predicate keeps its class and applies the context to its argument |
| `TcContext.ApplyPredicates` | Inference.Typeclasses/Context.cs:23-24 | every predicate of a qualified type, in order, keeps its class and gets the context applied to its argument |
| `TcContext.NormalizeShape` | Inference.Typeclasses/Context.cs:26-30 | normalising keeps the length, commutes with taking prefixes, keeps every entry but definitions, and rewrites each definition's body by the normalised entries before it |
| `TcContext.ClassIndex` | Inference.Typeclasses/Context.cs:32-37 | the position found holds a declaration of the class and no earlier entry does; none is found exactly when no entry declares the class |
| `TcContext.FindClass` | Inference.Typeclasses/Context.cs:32-33 | the result is the first declaration of the class; it fails, as `First` does, exactly when there is none |
| `TcContext.ModifyClass` | Inference.Typeclasses/Context.cs:35-43 | the first declaration of the class is replaced in place by one with the given instances and nothing else changes; fails exactly when the class is not declared |
| `TcContext.ModifyThenFind` | Inference.Typeclasses/Context.cs:32-43 | after `ModifyClass` the class is found with its new instances and every other class is found as before |
| `TcContext.AddClass` | Inference.Typeclasses/Context.cs:45-48 | fails with "already defined" exactly when the class is declared; otherwise appends an empty declaration |
| `TcContext.AddThenFind` | Inference.Typeclasses/Context.cs:32-48 | a class just added is found with no instances and every other class is found as before |
| `TcContext.Instantiate` | Inference.Typeclasses/Types.cs:383-394 | the result substitutes, in order, a fresh "tc" variable of the same kind for each quantified variable; the context gains one intro per quantified variable; the caller's stream comes back unchanged |
| `TcContext.InstantiationCount` | Inference.Typeclasses/Types.cs:387-392 | one intro per quantified variable, and the stream's "tc" counter advances by exactly that many |
| `TcContext.InstantiationNames` | Inference.Typeclasses/Types.cs:387-392 | the intros come in order, named "tc" followed by the stream's next counters, each with its variable's kind |
| `TcContext.InstantiateAllNames` | Inference.Typeclasses/Context.cs:59-61 | threading the stream through several instantiations names every intro by a counter at or past the starting one |
| `TcContext.AddInstance` | Inference.Typeclasses/Context.cs:50-69 | with the stream threaded through and the corrected `Unify`: a missing class fails with no-such-element; otherwise the instance is rejected as overlapping exactly when the head of its instantiation overlaps the head of some existing instance instantiated after it, and is accepted otherwise; a success changes only the class's first declaration, appending the new instance to its list |
| `TcContext.AddInstanceRenamesApart` | Inference.Typeclasses/Context.cs:58-61 | with the stream threaded through, no fresh variable of an existing instance has the name of a fresh variable of the new one |
| `TcContext.ExampleFromEmpty` | Inference.Typeclasses/Types.cs:383-394 | from a fresh stream, `forall a. [] a` becomes `[] tc0` with the intro `tc0 : *`, and `forall a. a` becomes `tc0` |
| `TcContext.AddInstanceAsWrittenCounterexample` | Inference.Typeclasses/Context.cs:59-68 | as written, with `forall a. C a` declared, `forall a. C ([] a)` is accepted, since both instantiate from a fresh stream to `tc0` and `[] tc0`, which fail the occurs check |
| `TcContext.AddInstanceRejectsOverlap` | Inference.Typeclasses/Context.cs:50-69 | with the stream threaded through, the same instance is rejected as overlapping |
| `TcContext.FirstMatchSpec` | Inference.Typeclasses/Context.cs:76-81 | the instance chosen is the first, in list order, whose head matches, and every earlier one does not match; no choice means no instance matches; a failure is the failure of some instance's match |
| `TcContext.GetInstanceSubgoalsSpec` | Inference.Typeclasses/Context.cs:71-87 | a missing class fails; the subgoals are the first matching instance's predicates under the match, which turns that instance's head into the predicate's argument; no subgoals means no instance matches |
| `TcContext.EntailsAsWrittenNeverFalse` | Inference.Typeclasses/Context.cs:89-93 | as written, `Entails` never answers false: it answers true or fails |
| `TcContext.EntailsAsWrittenIgnoresConditions` | Inference.Typeclasses/Context.cs:89-93 | as written, the answer does not depend on the conditions |
| `TcContext.Entails` | Inference.Typeclasses/Context.cs:89-93 | corrected: a predicate among the conditions is entailed outright |
| `TcContext.EntailsExtendsAsWritten` | Inference.Typeclasses/Context.cs:89-93 | the corrected `Entails` answers true wherever the written one does |
| `TcContext.EntailsMoreFuel` | Inference.Typeclasses/Context.cs:89-93 | an answer other than running out of fuel stays the same with more fuel |
| `TcContext.EntailsCounterexample` | Inference.Typeclasses/Context.cs:89-93 | for `Eq t0` with instances for `int` and `[] a`, the written `Entails` dereferences the null subgoal list, while the corrected one answers false, and answers true once `Eq t0` is a condition |
| `TcReduction.ToHeadNormalFormIsHeadNormal` | Inference.Typeclasses/Types.cs:257-275 | every predicate `ToHeadNormalForm` returns is in head normal form |
| `TcReduction.ToHeadNormalFormAllIsHeadNormal` | Inference.Typeclasses/Types.cs:289-290 | every predicate of the concatenated head normal forms is in head normal form |
| `TcReduction.ToHeadNormalFormAllKeeps` | Inference.Typeclasses/Types.cs:259-262 | predicates already in head normal form come back unchanged, whatever the context |
| `TcReduction.ToHeadNormalFormAllIdempotent` | Inference.Typeclasses/Types.cs:289-290 | bringing a list to head normal form twice gives what bringing it once gives |
| `TcReduction.EntailsMonotone` | Inference.Typeclasses/Context.cs:89-93 | with the corrected `Entails`, what follows from some conditions follows from any list that contains them |
| `TcReduction.Simplify` | Inference.Typeclasses/Types.cs:292-306 | with the corrected `Entails`, the loop computes the simplification: each predicate in turn is kept unless the rest of the list and the predicates kept so far entail it |
| `TcReduction.SimplifyFromShape` | Inference.Typeclasses/Types.cs:294-305 | from any loop state, what has been kept stays at the front of the result and the rest is taken, in order, from what remains |
| `TcReduction.SimplifyFromNoRepeats` | Inference.Typeclasses/Types.cs:294-305 | if the predicates kept so far are pairwise different, so are those of the result |
| `TcReduction.SimplificationSubsequence` | Inference.Typeclasses/Types.cs:292-306 | with the corrected `Entails`, `Simplify` keeps some of the predicates in their order, and no two it keeps are equal |
| `TcReduction.ReduceFacts` | Inference.Typeclasses/Types.cs:308-312 | with the corrected `Entails`, a reduced list is in head normal form and has no two equal predicates |
| `TcReduction.Deferred` | Inference.Typeclasses/Types.cs:318 | the deferred predicates are exactly those with a variable that is not generalised |
| `TcReduction.Generalized` | Inference.Typeclasses/Types.cs:319 | the generalised predicates are exactly those all of whose variables are generalised |
| `TcReduction.SplitIsPartition` | Inference.Typeclasses/Types.cs:318-319 | the two halves together hold every predicate exactly as often as the list does |
| `TcReduction.SplitPredicates` | Inference.Typeclasses/Types.cs:314-321 | with the corrected `Entails`: fails exactly when reduction fails; otherwise the two halves partition the reduced predicates into the deferred and the generalised ones |
| `TcConstraints.SubstituteConstraint` | Inference.Typeclasses/Constraints.cs:34-35 | substituting into a constraint gives a constraint that carries no hoisted dependencies |
| `TcConstraints.SolveCases` | Inference.Typeclasses/Constraints.cs:39-106 | the case analysis of `Solve`: equal constructors vanish, different ones mismatch; two applications split into a constraint on the functions and one on the arguments; a flex-rigid constraint fails on its kind check first; a context rule on an empty prefix is out of range; otherwise a rule replaces the constraint and the top entry in place |
| `TcConstraints.SolveFrame` | Inference.Typeclasses/Constraints.cs:39-106 | every successful rule leaves the suffix as it was and the prefix below the top entry as it was; the structural rules keep the whole prefix |
| `TcConstraints.SolveErrors` | Inference.Typeclasses/Constraints.cs:39-106 | each failure happens exactly when its situation arises: a rigid-rigid mismatch, a kind error of a flex-rigid constraint, an empty prefix, a constraint (or, for a flex-rigid constraint, a class declaration) as the top entry, and the occurs check against the flexible variable's own intro |
| `TcConstraints.SolveRule` | Inference.Typeclasses/Constraints.cs:54-106 | a successful non-structural solve is a rule applied to the top entry of the prefix, spliced between the rest of the prefix and the suffix |
| `TcConstraints.RuleKeeps` | Inference.Typeclasses/Constraints.cs:54-106 | every rule that steps over the top entry keeps its scope entry, declares exactly what the top entry and the hoisted intros declared, and leaves only well-formed entries |
| `TcConstraints.SolvePreservesScope` | Inference.Typeclasses/Constraints.cs:39-106 | no rule adds, drops or reorders a term binding, a locality marker or a class declaration |
| `TcConstraints.SolvePreservesDeclarations` | Inference.Typeclasses/Constraints.cs:39-106 | no rule loses or invents a type-variable declaration: an intro becomes a definition, moves into a constraint's dependencies or comes back out |
| `TcConstraints.SolvePreservesWellFormed` | Inference.Typeclasses/Constraints.cs:39-106 | every rule keeps the constraints in the shape the engine builds: only intros are hoisted, and only into flex-rigid constraints |
| `TcInference.LeadingLength` | Inference.Typeclasses/TypeInference.cs:33-34 | the entries before the returned position are not constraints and the one at it is; it is short of the end exactly when the context holds a constraint |
| `TcInference.Unify` | Inference.Typeclasses/TypeInference.cs:27-46 | the loop returns what the bounded run of passes computes, records every state it passed through starting with the initial one, each obtained from the previous by solving its first constraint, and on success ends in a state without constraints |
| `TcInference.UnifiedStep` | Inference.Typeclasses/TypeInference.cs:31-43 | one pass of the loop either fails with the solver's error or continues from the solved state |
| `TcInference.UnifiedMoreFuel` | Inference.Typeclasses/TypeInference.cs:31-44 | one more pass of fuel never changes an answer the loop reached |
| `TcInference.UnifiedFuelMonotone` | Inference.Typeclasses/TypeInference.cs:31-44 | any amount of extra fuel never changes an answer the loop reached |
| `TcInference.StepKeeps` | Inference.Typeclasses/TypeInference.cs:33-37 | one pass keeps the fresh stream, the term bindings, markers and class declarations in order, every declared type variable, and the shape of the constraints |
| `TcInference.UnifiedKeeps` | Inference.Typeclasses/TypeInference.cs:27-46 | a finished loop leaves no constraint and keeps the fresh stream, the scope entries in order and every declared type variable |
| `TcInference.LastBinding` | Inference.Typeclasses/TypeInference.cs:96 | the position found holds a binding of the name and no later entry does; none is found exactly when no entry binds the name |
| `TcInference.PopBinding` | Inference.Typeclasses/TypeInference.cs:94-98 | fails with no-such-element exactly when the name is not bound; otherwise removes exactly the last entry binding the name, keeps the other entries in their order, and keeps the stream |
| `TcInference.PopBindingScope` | Inference.Typeclasses/TypeInference.cs:94-98 | removing the last binding of a name whose binding is the last scope entry removes that scope entry and nothing else from the scope, and adds no entry |
| `TcInference.Specialize` | Inference.Typeclasses/TypeInference.cs:103-115 | the loop pushes one fresh intro per quantified variable and substitutes those variables into the body, in order |
| `TcInference.SpecializationIntros` | Inference.Typeclasses/TypeInference.cs:103-115 | specialising keeps the context, appends one intro per quantified variable named "t" and the stream's next counters with that variable's kind, and advances the "t" counter by that many |
| `TcInference.SpecializationKeeps` | Inference.Typeclasses/TypeInference.cs:103-115 | specialising adds no scope entry and no constraint |
| `TcInference.SkimItem` | Inference.Typeclasses/TypeInference.cs:136-141 | an intro is recorded with its kind and no body, a definition with its body's kind and the body; any other entry is unexpected |
| `TcInference.SkimContext` | Inference.Typeclasses/TypeInference.cs:129-146 | the loop returns what the skim computes: the state with the context below the topmost marker, and the records of the entries above it, or the skim's error |
| `TcInference.SkimmedShape` | Inference.Typeclasses/TypeInference.cs:129-146 | a successful skim stopped at a marker; it returns the context below that marker and one record per entry above it, topmost first |
| `TcInference.SkimmedComplete` | Inference.Typeclasses/TypeInference.cs:129-146 | a context whose entries above a marker are all intros and well-kinded definitions skims down to what lies below that marker, with one record per entry |
| `TcInference.SkimmedKeeps` | Inference.Typeclasses/TypeInference.cs:129-146 | a successful skim removes exactly the topmost marker from the scope and adds no constraint |
| `TcInference.MakeScheme` | Inference.Typeclasses/TypeInference.cs:148-164 | the loop substitutes every skimmed definition into the body and quantifies every skimmed intro, in skim order |
| `TcInference.SchemeQuantifiedSpec` | Inference.Typeclasses/TypeInference.cs:152-162 | exactly the skimmed intros are quantified, each with its kind |
| `TcInference.SchemeBodyWithoutDefinitions` | Inference.Typeclasses/TypeInference.cs:152-162 | without skimmed definitions the body is kept as it is |
| `TcInference.UnifyTypesKeeps` | Inference.Typeclasses/TypeInference.cs:205-215 | solving one new constraint in a context without constraints leaves none and keeps the scope and the stream |
| `TcInference.InferTermKeeps` | Inference.Typeclasses/TypeInference.cs:166-203 | inference in a context without constraints leaves none, and leaves every term binding, locality marker and class declaration as it found them, in order |
| `TcInference.InferGeneralizedKeeps` | Inference.Typeclasses/TypeInference.cs:117-127 | generalising a let-bound term leaves no constraint and gives back the scope it started from |
| `TcInference.IdentityExample` | Inference.Typeclasses/TypeInference.cs:74-80 | with an empty context, `λx.x` is typed `t0 -> t0` with no predicates |
| `TcExamples.PassSplitFunction` | Inference.Typeclasses/Constraints.cs:49-53 | on `let m = λa.a in m m`, the first pass splits `t1 -> t1 ≡ (t2 -> t2) -> t3` into the arrow applications and `t1 ≡ t3`, in place |
| `TcExamples.PassSplitArrow` | Inference.Typeclasses/Constraints.cs:49-53 | the second pass splits `(->) t1 ≡ (->) (t2 -> t2)` into `(->) ≡ (->)` and `t1 ≡ t2 -> t2` |
| `TcExamples.PassDropArrow` | Inference.Typeclasses/Constraints.cs:43-48 | the third pass drops `(->) ≡ (->)`, whose constructors agree |
| `TcExamples.PassFloat` | Inference.Typeclasses/Constraints.cs:82-102 | the fourth pass moves `t1 ≡ t2 -> t2` below the intro of `t3`, which the rigid side does not mention |
| `TcExamples.PassHoist` | Inference.Typeclasses/Constraints.cs:82-101 | the fifth pass moves the intro of `t2`, which the rigid side mentions, into the constraint's dependencies |
| `TcExamples.PassDefine` | Inference.Typeclasses/Constraints.cs:82-100 | the sixth pass, at the intro of `t1`, puts back the intro of `t2` and defines `t1 := t2 -> t2` |
| `TcExamples.PassUnifyVariables` | Inference.Typeclasses/Constraints.cs:54-66 | the seventh pass turns `t1 ≡ t3` at the intro of `t3` into `t3 := t1` |
| `TcExamples.UnifyExample` | Inference.Typeclasses/TypeInference.cs:27-46 | with fuel for the seven passes, the loop ends with `t2`, `t1 := t2 -> t2` and `t3 := t1` and no constraint left |
| `TcExamples.GeneralizeIdentity` | Inference.Typeclasses/TypeInference.cs:117-127 | from an empty context, `λa.a` generalises to `forall t0. t0 -> t0`, leaving the empty context and one name drawn |
| `TcExamples.SpecializeFirst` | Inference.Typeclasses/TypeInference.cs:171-173 | the first use of `m` is specialised to `t1 -> t1`, with the intro of `t1` added |
| `TcExamples.SpecializeSecond` | Inference.Typeclasses/TypeInference.cs:171-173 | the second use of `m` is specialised to `t2 -> t2`, with the intro of `t2` added |
| `TcExamples.ApplySelf` | Inference.Typeclasses/TypeInference.cs:183-191 | `m m` is typed `t3`, in the context the seven passes leave |
| `TcExamples.InferLet` | Inference.Typeclasses/TypeInference.cs:192-199 | `let m = λa.a in m m` is typed `t3` with no predicates, and the binding of `m` is popped afterwards |
| `TcExamples.NormalizeFinal` | Inference.Typeclasses/TypeInference.cs:74-80 | the definitions left in the context rewrite `t3` to `t2 -> t2` |
| `TcExamples.LetExample` | Inference.Typeclasses.Test/BasicTests.cs:35-37 | from the initial state, `let m = λa.a in m m` is inferred as `t2 -> t2` with no predicates |
| `UnitAlgebra.Sum` | Inference.Units/Units.cs:94-103 | the exponent of every name is the sum of its two exponents, and no name is stored with exponent zero |
| `UnitAlgebra.Negated` | Inference.Units/Units.cs:84-85 | the same names, every exponent negated |
| `UnitAlgebra.Scaled` | Inference.Units/Units.cs:117-118 | the same names (zero exponents kept), every exponent multiplied by the factor |
| `UnitAlgebra.TruncDiv` | Inference.Units/Units.cs:127-128 | C#'s truncating division: an exact quotient multiplied back gives the dividend |
| `UnitAlgebra.Quotient` | Inference.Units/Units.cs:127-128 | the same names, every exponent divided by the factor, truncating toward zero |
| `UnitAlgebra.Divide` | Inference.Units/Units.cs:125-130 | dividing keeps the names of both maps |
| `UnitAlgebra.Extensional` | Inference.Units/Units.cs:16-25 | two units with the same names and the same exponents are equal |
| `UnitAlgebra.NormalExtensional` | Inference.Units/Units.cs:10-15 | two units without zero exponents that agree on every exponent are equal |
| `UnitAlgebra.AddCommutes` | Inference.Units/Units.cs:92-105 | `Add` is commutative |
| `UnitAlgebra.AddAssociates` | Inference.Units/Units.cs:92-105 | `Add` is associative |
| `UnitAlgebra.AddIdentity` | Inference.Units/Units.cs:48-52 | the identity is neutral for `Add` on units without zero exponents, and adding it drops zero exponents once and for all |
| `UnitAlgebra.SubtractSelf` | Inference.Units/Units.cs:107-110 | every unit has an inverse: subtracting a unit from itself gives the identity |
| `UnitAlgebra.InvertInvolution` | Inference.Units/Units.cs:82-87 | inverting twice gives the unit back |
| `UnitAlgebra.IdentityIffZero` | Inference.Units/Units.cs:54-55 | a unit without zero exponents is the identity exactly when every exponent is zero |
| `UnitAlgebra.QuotientExact` | Inference.Units/Units.cs:66-68 | when the divisor divides an exponent, the quotient multiplied back gives that exponent |
| `UnitAlgebra.PivotEliminates` | Inference.Units/Units.cs:135-142 | the pivot variable does not occur in its pivot |
| `UnitAlgebra.PivotDividend` | Inference.Units/Units.cs:137-139 | what `Pivot` divides is the unit without the pivot variable, every other exponent kept, and it stays divisible by the pivot's exponent when the unit was |
| `UnitAlgebra.PivotSolves` | Inference.Units/Units.cs:135-142 | when the pivot's exponent `e` divides every exponent, `e` times the pivot is the negation of the unit without the pivot variable, exponent by exponent |
| `UnitAlgebra.PivotNormal` | Inference.Units/Units.cs:135-142 | under the same condition the pivot stores no zero exponent |
| `UnitAlgebra.SubstituteExponents` | Inference.Units/Units.cs:146-152 | each exponent of the substituted unit is the old one plus `e` times that of `other` without the variable, where `e` is the variable's exponent; no zero exponent is stored |
| `UnitAlgebra.SubstituteEliminates` | Inference.Units/Units.cs:146-152 | substituting a unit that does not mention the variable eliminates the variable |
| `UnitAlgebra.SubstitutePivot` | Inference.Units/Units.cs:135-152 | substituting its pivot for a variable solves the equation `u = 1`: the result is the identity |
| `UnitTypes.ToUnitSpec` | Inference.Units/Types.cs:28-214 | `ToUnit` succeeds exactly on unit expressions (variables, identity, products, powers, primitive units), and only arrows and floats fail; the unit mentions no variable the expression does not |
| `UnitTypes.PowerUnit` | Inference.Units/Units.cs:156-157 | the unit of one element's power is that element alone with its exponent |
| `UnitTypes.ProductUnit` | Inference.Units/Units.cs:164-168 | the `Aggregate` of products over distinct keys denotes exactly those keys with their exponents |
| `UnitTypes.AddParts` | Inference.Units/Units.cs:166-168 | a unit without zero exponents is the sum of its variable part and its constant part |
| `UnitTypes.ToTypeToUnit` | Inference.Units/Units.cs:154-170 | converting a unit without zero exponents to a unit expression and back gives the same unit |
| `UnitTypes.ToTypeFreeVariables` | Inference.Units/Units.cs:154-170 | the unit expression of a unit mentions exactly the unit's variables |
| `UnitTypes.ToTypeIsUnit` | Inference.Units/Units.cs:154-170 | `ToType` always gives a unit expression |
| `UnitTypes.MakeHullSpec` | Inference.Units/Types.cs:30-217 | `MakeHull` succeeds exactly on value types; it draws one "h" name per float, left to right, pairs each with that float's unit, moves only the "h" counter and returns a value type |
| `UnitTypes.MakeHullVariable` | Inference.Units/Types.cs:30-35 | the hull of a variable is the variable itself, with no constraint and no draw |
| `UnitTypes.SubstituteStructural` | Inference.Units/Types.cs:25-212 | without floats substitution always succeeds, and substituting a variable that does not occur changes nothing |
| `UnitTypes.SubstituteFreeVariables` | Inference.Units/Types.cs:25-212 | a successful substitution brings in no variable other than those of the substituted type, and drops the replaced one |
| `UnitTypes.UnitExpressionWellFormed` | Inference.Units/Types.cs:118-214 | a unit expression has no float, so every float it has carries a unit expression |
| `UnitTypes.SubstituteUnitExpression` | Inference.Units/Types.cs:124-212 | substituting a unit expression into a unit expression succeeds and gives a unit expression |
| `UnitTypes.SubstituteUnitsWellFormed` | Inference.Units/Types.cs:99 | substituting a unit expression never fails on a type whose floats all carry unit expressions, and keeps that so |
| `UnitTypes.SchemeFreeVariables` | Inference.Units/Types.cs:235-237 | a scheme's free variables are exactly the free variables of its body that are not quantified |
| `UnitContext.ApplyWithoutDefinitions` | Inference.Units/Context.cs:11-17 | a context without variable definitions leaves every type unchanged |
| `UnitContext.ApplyConcat` | Inference.Units/Context.cs:16-17 | applying a concatenated context applies the older part first, then the newer, and fails where either part fails |
| `UnitContext.NormalizeShape` | Inference.Units/Context.cs:19-23 | a successful normalisation keeps the length, commutes with taking prefixes, keeps every entry but definitions, and rewrites each definition's body by the normalised entries before it, keeping its name and kind |
| `UnitContext.NormalizeWithoutDefinitions` | Inference.Units/Context.cs:19-23 | a context without definitions normalises to itself |
| `UnitConstraints.SubstituteUnit` | Inference.Units/Constraints.cs:161-162 | substituting into a unit equation gives a unit equation with the same pending dependency |
| `UnitConstraints.UnitOf` | Inference.Units/Constraints.cs:149-153 | the equation between two types exists exactly when both are unit expressions, and it is the left unit divided by the right one, with no dependency |
| `UnitConstraints.HullIntros` | Inference.Units/Constraints.cs:82 | one unit-kinded intro per hull name, in order |
| `UnitConstraints.HullConstraintsSpec` | Inference.Units/Constraints.cs:83 | the hull's unit equations exist exactly when every replaced unit is a unit expression, and the i-th says the i-th hull name equals the i-th replaced unit |
| `UnitConstraints.DecomposeSucceeds` | Inference.Units/Constraints.cs:79-85 | decomposing succeeds exactly when the rigid side is a value type and every unit its floats carry is a unit expression |
| `UnitConstraints.DecomposeSpec` | Inference.Units/Constraints.cs:79-85 | decomposing a flex-rigid constraint succeeds exactly when the rigid side is a value type whose floats carry unit expressions; it keeps the prefix and suffix, inserts one hull constraint whose dependencies are the old ones plus one unit intro per float leaf named by consecutive "h" counters, then one unit equation per leaf, and moves only the "h" counter, by the number of leaves |
| `UnitConstraints.SolveTypeErrors` | Inference.Units/Constraints.cs:39-77 | a type constraint fails with a rigid-rigid mismatch exactly when neither side is a variable and the sides are not both arrows or both floats; two variables fail on an empty prefix and only then with that error; two floats fail exactly when one of their units is not a unit expression |
| `UnitConstraints.SolveHullErrors` | Inference.Units/Constraints.cs:108-128 | a hull constraint fails on an empty prefix, on a constraint as the top entry, and with the occurs check exactly on the intro of its flex variable when the rigid side mentions it |
| `UnitConstraints.SolveUnitErrors` | Inference.Units/Constraints.cs:166-228 | an identity equation is dropped; a constant equation that is not the identity is a unit mismatch; otherwise an empty prefix is out of range, a constraint as the top entry is unknown, a mentioned definition must denote a unit, and the step is stuck exactly on the intro of the equation's only variable when its exponent does not divide that of some primitive unit |
| `UnitConstraints.PivotRule` | Inference.Units/Constraints.cs:196-224 | the pivoting rules on an intro the equation mentions emit no scope entry and hoist nothing but intros |
| `UnitConstraints.PivotRuleSolves` | Inference.Units/Constraints.cs:196-207 | when the exponent of the intro's variable divides every exponent, the stream is kept and the intro becomes (after the pending dependency's intro) a unit definition of the variable that does not mention it and turns the equation into the identity |
| `UnitConstraints.NotMaxRuleEliminates` | Inference.Units/Constraints.cs:208-216 | when it does not divide but another exponent is as large, exactly one "b" name is drawn; the rewritten equation keeps the dependency and no longer mentions the variable (unless the drawn name is that variable), and the variable is defined as its pivot times the new name |
| `UnitConstraints.VariablesRuleKeeps` | Inference.Units/Constraints.cs:52-72 | the variable-variable rules keep the scope entry they step over and hoist only intros |
| `UnitConstraints.HullRuleKeeps` | Inference.Units/Constraints.cs:110-127 | the hull rules keep the scope entry they step over and hoist only intros |
| `UnitConstraints.UnitRuleKeeps` | Inference.Units/Constraints.cs:177-226 | the unit-equation rules keep the scope entry they step over and hoist only intros |
| `UnitConstraints.SolveKeeps` | Inference.Units/Constraints.cs:39-228 | every successful step keeps the term bindings and locality markers of the prefix and the suffix, in order, adds no other scope entry, and hoists only intros into dependencies |
| `UnitConstraints.SolveStream` | Inference.Units/Constraints.cs:39-228 | a successful step moves no counter of the fresh-name stream except "h" and "b", and those only forward |
| `UnitInference.LeadingLength` | Inference.Units/TypeInference.cs:33-34 | the entries before the returned position are not constraints and the one at it is; it is short of the end exactly when the context holds a constraint |
| `UnitInference.Unify` | Inference.Units/TypeInference.cs:27-46 | the loop returns what the bounded run of passes computes, records every state it passed through starting with the initial one, each obtained from the previous by solving its first constraint, and on success ends in a state without constraints; a context without constraints is returned as it is |
| `UnitInference.UnifiedStep` | Inference.Units/TypeInference.cs:31-43 | one pass of the loop either fails with the solver's error or continues from the solved state |
| `UnitInference.UnifiedMoreFuel` | Inference.Units/TypeInference.cs:31-44 | one more pass of fuel never changes an answer the loop reached |
| `UnitInference.UnifiedFuelMonotone` | Inference.Units/TypeInference.cs:31-44 | any amount of extra fuel never changes an answer the loop reached |
| `UnitInference.StepKeeps` | Inference.Units/TypeInference.cs:33-37 | one pass keeps the scope entries in order and the well-formedness of the constraints, and moves no counter of the stream but "h" and "b", those only forward |
| `UnitInference.UnifiedFinishes` | Inference.Units/TypeInference.cs:31 | a finished loop leaves no constraint |
| `UnitInference.UnifiedKeeps` | Inference.Units/TypeInference.cs:27-46 | a finished loop leaves no constraint, keeps the scope entries in order, and moves only the "h" and "b" counters, forward |
| `UnitInference.FreshName` | Inference.Units/TypeInference.cs:82-86 | the fresh name is "t" and the stream's "t" counter; the context is kept, that counter moves by one and no other counter moves |
| `UnitInference.LastBinding` | Inference.Units/TypeInference.cs:96 | the position found holds a binding of the name and no later entry does; none is found exactly when no entry binds the name |
| `UnitInference.PopBinding` | Inference.Units/TypeInference.cs:94-98 | fails with no-such-element exactly when the name is not bound; otherwise removes exactly the last entry binding the name, keeps the other entries in their order, and keeps the stream |
| `UnitInference.PopBindingScope` | Inference.Units/TypeInference.cs:94-98 | removing the last binding of a name whose binding is the last scope entry removes that scope entry and nothing else from the scope, and adds no entry |
| `UnitInference.Specialize` | Inference.Units/TypeInference.cs:103-115 | the loop pushes one fresh intro per quantified variable and substitutes those variables into the body, in order |
| `UnitInference.SpecializationFails` | Inference.Units/TypeInference.cs:107-113 | once renaming the first variables fails, specialising the whole scheme fails with the same error |
| `UnitInference.SpecializationIntros` | Inference.Units/TypeInference.cs:103-115 | specialising keeps the context, appends one intro per quantified variable named "t" and the stream's next counters with that variable's kind, and advances only the "t" counter, by that many |
| `UnitInference.SpecializationSucceeds` | Inference.Units/TypeInference.cs:103-115 | a body whose floats all carry unit expressions always specialises, to a body of the same kind |
| `UnitInference.SpecializationKeeps` | Inference.Units/TypeInference.cs:103-115 | specialising adds no scope entry and no constraint |
| `UnitInference.SkimItem` | Inference.Units/TypeInference.cs:134-139 | an intro is recorded with its kind and no body, a definition with its kind and its body; any other entry is unexpected |
| `UnitInference.SkimContext` | Inference.Units/TypeInference.cs:127-144 | the loop returns what the skim computes: the state with the context below the topmost marker, and the records of the entries above it, or the skim's error |
| `UnitInference.SkimmedShape` | Inference.Units/TypeInference.cs:127-144 | a successful skim stopped at a marker; it returns the context below that marker and one record per entry above it, topmost first |
| `UnitInference.SkimmedComplete` | Inference.Units/TypeInference.cs:127-144 | a context whose entries above a marker are all intros and definitions skims down to what lies below that marker, with one record per entry |
| `UnitInference.SkimmedKeeps` | Inference.Units/TypeInference.cs:127-144 | a successful skim removes exactly the topmost marker from the scope and adds no constraint |
| `UnitInference.MakeScheme` | Inference.Units/TypeInference.cs:146-162 | the loop substitutes every skimmed definition into the body and quantifies every skimmed intro, in skim order |
| `UnitInference.SchemeBodyFails` | Inference.Units/TypeInference.cs:150-160 | once substituting the first skimmed definitions fails, building the body fails with the same error |
| `UnitInference.SchemeQuantifiedSpec` | Inference.Units/TypeInference.cs:150-160 | exactly the skimmed intros are quantified, each with its kind |
| `UnitInference.SchemeBodyWithoutDefinitions` | Inference.Units/TypeInference.cs:150-160 | without skimmed definitions the body is kept as it is |
| `UnitInference.UnifyTypesKeeps` | Inference.Units/TypeInference.cs:204-214 | solving one new constraint in a context without constraints leaves none, keeps the scope, and moves only the "h" and "b" counters |
| `UnitInference.InferTermKeeps` | Inference.Units/TypeInference.cs:164-202 | inference in a context without constraints leaves none, leaves every term binding and locality marker as it found them, in order, and only moves counters forward |
| `UnitInference.InferGeneralizedKeeps` | Inference.Units/TypeInference.cs:117-125 | generalising a let-bound term leaves no constraint, gives back the scope it started from, and only moves counters forward |
| `UnitInference.FloatLiteralExample` | Inference.Units/TypeInference.cs:196-198 | a float literal is typed `Float<1>` and leaves the state as it was |
| `UnitInference.IdentityExample` | Inference.Units/TypeInference.cs:74-80 | with an empty context, `λx.x` is typed `t0 -> t0` |
| `UnitExamples.ZeroSpecialized` | Inference.Units/TypeInference.cs:168-170 | in the initial context of the float tests, `zero` is specialised to `Float<t0>`, the unit intro of `t0` is pushed and the "t" counter moves to one |
| `UnitExamples.ZeroExample` | Inference.Units.Test/InferenceTests.cs:78-80 | `zero` is inferred as `Float<t0>` |
| `UnitExamples.MulSpecialized` | Inference.Units/TypeInference.cs:168-170 | `mul` is specialised to `Float<t0> -> Float<t1> -> Float<t0 t1>`, with the unit intros of `t0` and `t1` pushed |
| `UnitExamples.FirstLoop` | Inference.Units/TypeInference.cs:27-46 | below any constraint-free context, the twelve passes for `mul mass` solve `Float<t0> -> Float<t1> -> Float<t0 t1> ≡ Float<kg> -> t2` and leave `t0 := kg`, the intro of `t1`, the hull definitions `h0 := t1` and `h1 := t0 t1`, `t2 := Float<h0> -> Float<h1>`, and no constraint |
| `UnitExamples.MulMass` | Inference.Units/TypeInference.cs:181-189 | with fuel for the passes, `mul mass` is typed `t2` in the context the first loop leaves |
| `UnitExamples.SecondLoop` | Inference.Units/TypeInference.cs:27-46 | below any constraint-free context, the twenty passes for `t2 ≡ Float<kg> -> t3` leave `t0 := kg`, `t1 := kg`, the hull definitions `h0` to `h3`, `t3 := Float<h3>` and `t2`, and no constraint |
| `UnitExamples.MulMassMass` | Inference.Units/TypeInference.cs:181-189 | with fuel for both loops, `mul mass mass` is typed `t3` in the context the second loop leaves |
| `UnitNormalExample.NormalizeFinal` | Inference.Units/TypeInference.cs:74-80 | the definitions the second loop leaves normalise, each definition rewritten by those below it, to closed unit expressions |
| `UnitNormalExample.ApplyFinal` | Inference.Units/TypeInference.cs:74-80 | applying that normal form to `t3` gives `Float<kg^2>` |
| `UnitNormalExample.MulMassMassExample` | Inference.Units.Test/InferenceTests.cs:82-84 | `mul mass mass` is inferred as `Float<kg^2>` |
| `StringOrder.Least` | Inference.Units/Units.cs:159-168 | the first key enumerated from a non-empty key set belongs to it and comes no later than any other key |
| `StringOrder.SortedSpec` | Inference.Units/Units.cs:159-168 | the enumeration of a key set lists every key of the set, only keys of the set, and each once |
| `StringOrder.SortedAscends` | Inference.Units/Units.cs:159-168 | consecutive keys of the enumeration ascend in lexicographic order |
| `DotsTypes.KindOf` | Inference.Dots/Types.cs:156-172 | variables and constructors have their declared kind and every sequence the sequence kind; an application that has a kind has an argument with a kind and a function whose kind is the arrow from that kind to it; every failure is a kind error |
| `DotsTypes.KindOfApplication` | Inference.Dots/Types.cs:156-172 | an application has a kind exactly when its function has an arrow kind from the argument's kind, and then it is that arrow's result |
| `DotsTypes.FreeAmongAll` | Inference.Dots/Types.cs:357-358 | the free variables are among the variables written in the type, a sequence's free variables do not depend on its dotted tail, and a tail variable that no element mentions is not free |
| `DotsTypes.EqualsReflexive` | Inference.Dots/Types.cs:362-365 | every type equals itself |
| `DotsTypes.EqualsSymmetric` | Inference.Dots/Types.cs:362-365 | equality is symmetric |
| `DotsTypes.EqualsExtension` | Inference.Dots/Types.cs:362-365 | a sequence equals every sequence that extends it, whatever either tail, since only zipped pairs are compared |
| `DotsTypes.EqualsNotTransitive` | Inference.Dots/Types.cs:362-365 | for any two unequal types `a` and `b`, the empty sequence equals both `[a]` and `[b]`, which are unequal |
| `DotsTypes.Distributed` | Inference.Dots/Types.cs:217-226 | after substitution, two sequences apply pairwise and succeed exactly when their lengths agree; one sequence applies element by element; the result is an undotted sequence of the same length; without sequences it is the plain application; the only failure is a length mismatch |
| `DotsTypes.SubstituteSequenceFree` | Inference.Dots/Types.cs:217-226 | without sequences substitution never fails, brings in no sequence, replaces the variable exactly where it occurs, and changes nothing when it does not occur |
| `DotsTypes.SubstituteVariables` | Inference.Dots/Types.cs:330-355 | a substitution that succeeds brings in no variable but those of the replacement, and removes the replaced one when the replacement does not mention it |
| `DotsTypes.SubstituteSplices` | Inference.Dots/Types.cs:330-355 | a sequence put in for an element, at any position, is spliced in place with its own dotted tail dropped; one put in for the dotted tail is appended and its own dotted tail becomes the result's; a sequence with no elements fails |
| `DotsTypes.ElementsFlatten` | Inference.Dots/Types.cs:332-339 | substituting into the elements succeeds exactly when it succeeds on each element, and the result is the concatenation, in order, of each element's result spliced: a sequence contributes its elements, any other type itself |
| `DotsTypes.TupleDistributes` | Inference.Dots/Types.cs:217-226 | substituting into a tuple, even a variable that does not occur in it, turns the data type `Tuple [a, b]` into the sequence `[Tuple a, Tuple b]` |
| `DotsTypes.SubstitutePredicate` | Inference.Dots/Types.cs:385-390 | succeeds exactly when the argument's substitution does, and gives one predicate of the same class per element when the argument became a sequence, else one |
| `DotsTypes.SubstitutePredicateSequenceFree` | Inference.Dots/Types.cs:385-390 | without sequences a predicate substitutes to exactly one predicate of its class, still without sequences |
| `DotsTypes.SubstitutePredicatesNames` | Inference.Dots/Types.cs:503-506 | every predicate of the flattened result has the class of one of the originals |
| `DotsTypes.SubstitutePredicatesSequenceFree` | Inference.Dots/Types.cs:503-506 | without sequences substituting into a list of predicates keeps every predicate, in order, with its class |
| `DotsTypes.FunNests` | Inference.Dots/Types.cs:43-53 | `Fun(a, b, c, ...)` takes `a`, `b`, ... as its parameters in order and returns the last type given |
| `DotsTypes.Tuple` | Inference.Dots/Types.cs:55-56 | a tuple is a data type whatever its elements |
| `DotsMerge.MergedLeft` | Inference.Dots/Substitutions.cs:64-93 | the checking loop keeps one binding per binding of `left`, with the same keys |
| `DotsMerge.MergeWithSeqVars` | Inference.Dots/Substitutions.cs:59-96 | the loop over `left` followed by the addition of the right-only bindings computes exactly the merge the functions describe, failing where it fails |
| `DotsMerge.MergedWithSeqVarsSucceeds` | Inference.Dots/Substitutions.cs:59-96 | the merge fails exactly when a key that is not a sequence variable is bound on both sides to different values |
| `DotsMerge.MergedWithSeqVarsFacts` | Inference.Dots/Substitutions.cs:59-96 | a successful merge binds each key of either side once: a sequence variable bound on both sides to left's elements with right's value appended (or to the pair of both values), every other key to the value of the side that binds it, left first |
| `DotsMerge.MergedWithoutSeqVars` | Inference.Dots/Substitutions.cs:44-57 | with no sequence variables `MergeWithSeqVars` is `Merge` |
| `DotsMerge.CapWithDotted` | Inference.Dots/Substitutions.cs:98-121 | always fails as not implemented |
| `DotsMatch.MatchSequence` | Inference.Dots/Types.cs:268-313 | the two loops of `TypeSequence.Match` compute exactly the sequence match the functions describe |
| `DotsMatch.MatchPrefix` | Inference.Dots/Types.cs:281-287 | the first loop merges the matches of the pattern's elements against the elements at the same place, stopping at the first element that does not match |
| `DotsMatch.MatchExtras` | Inference.Dots/Types.cs:289-298 | the second loop matches the dotted tail against each extra element, merging with the tail's variables as sequence variables, and stops at the first that does not match |
| `DotsMatch.MatchKeys` | Inference.Dots/Types.cs:188-313 | a match binds each variable once, and only variables written in the pattern |
| `DotsMatch.SequenceMatchFacts` | Inference.Dots/Types.cs:268-313 | a sequence matches only a sequence at least as long and without a dotted tail; an undotted pattern binds variables of its elements and a dotted one only variables of its tail |
| `DotsMatch.MatchUndotted` | Inference.Dots/Types.cs:281-287 | an undotted pattern's match agrees with the match of every element against the element at the same place and binds nothing else |
| `DotsMatch.TailCollects` | Inference.Dots/Types.cs:289-298 | a dotted variable against extra elements of its kind that are not sequences binds nothing for none, the element itself for one, and the sequence of all of them for more |
| `DotsMatch.MatchDottedVariable` | Inference.Dots/Types.cs:276-305 | a pattern with a dotted variable against a plain sequence whose elements match returns only what the variable collects from the extra elements, discarding the element matches |
| `DotsMatch.DottedExamples` | Inference.Dots/Types.cs:276-305 | `[a, d...]` against `[Int, Bool]` binds only `d`, to `Bool`; `[Int, d...]` matches `[Bool]` with no bindings although `Int` does not match `Bool` |
| `DotsMatch.MatchBothDotted` | Inference.Dots/Types.cs:300-304 | a dotted pattern whose tail matches the tail of a dotted sequence reaches `CapWithDotted` and so fails |
| `DotsMatch.PredicateMatch` | Inference.Dots/Types.cs:392-395 | predicates of different classes do not match; otherwise the arguments are matched, binding only variables of the pattern, each once |
| `DotsSubstitutions.Apply` | Inference.Dots/Substitutions.cs:13-21 | the loop substitutes each binding in turn, as the specification function does, failing where it fails |
| `DotsSubstitutions.ApplyPredicate` | Inference.Dots/Substitutions.cs:23-31 | the loop substitutes each binding in turn into every predicate so far and flattens the results |
| `DotsSubstitutions.AppliedPredicateClass` | Inference.Dots/Substitutions.cs:23-31 | applying a substitution to a predicate yields predicates of its class only |
| `DotsSubstitutions.AppliedPredicateSingle` | Inference.Dots/Substitutions.cs:23-31 | without sequences anywhere, applying to a predicate gives the single predicate of the applied argument |
| `DotsSubstitutions.SplitExample` | Inference.Dots/Substitutions.cs:23-31 | binding `a` to `[Int, Bool]` splits `Eq a` into `Eq Int` and `Eq Bool` |
| `DotsSubstitutions.ApplyTypes` | Inference.Dots/Substitutions.cs:33-34 | the list overload keeps the length and applies the substitution to each type in place, and fails exactly when one of them fails |
| `DotsSubstitutions.ApplyPredicates` | Inference.Dots/Substitutions.cs:36-37 | the list overload succeeds exactly when every predicate's expansion succeeds; it is then those expansions one after the other, in the order of the predicates, and every predicate of the result has the class of one of the originals |
| `DotsSubstitutions.ApplyValues` | Inference.Dots/Substitutions.cs:40 | applying `left` to each value keeps the keys and gives each key the applied value |
| `DotsSubstitutions.ComposeFacts` | Inference.Dots/Substitutions.cs:39-42 | a composition succeeds exactly when `left` applies to every value of `right`, even one it overrides; it then binds every key of either side once, a key of `left` to its `left` value and any other to its `right` value with `left` applied |
| `DotsSchemes.Intros` | Inference.Dots/Types.cs:547-550 | one entry per quantified variable, in order, with the fresh name and the variable's kind |
| `DotsSchemes.Instantiate` | Inference.Dots/Types.cs:543-554 | the loop substitutes the quantified variables by the stream's next "tc" names in order and adds one entry per variable; the caller's stream comes back unchanged |
| `DotsSchemes.SubstituteQualifiedSequenceFree` | Inference.Dots/Types.cs:503-506 | without sequences substituting into a qualified type succeeds and keeps every predicate, in order, with its class |
| `DotsSchemes.InstantiationSucceeds` | Inference.Dots/Types.cs:543-554 | a scheme without sequences always instantiates, keeping the number of predicates, and its new entries are named "tc" and the stream's next counters with the quantified variables' kinds |

The rows above are mostly lemmas. The functions below model the engines' core source functions; each entry gives the function, the source lines it models and the members whose contracts state what it does.

- `BasicTypes.Substitute`: Inference.Basic/Types.cs:20-54; `BasicTypes.SubstituteAbsent`, `BasicTypes.SubstituteFreeVariables`.
- `BasicConstraints.Solve`: Inference.Basic/Constraints.cs:37-93; `BasicConstraints.SolveErrors`, `BasicConstraints.SolveFrame`, `BasicConstraints.VariablesShape`, `BasicConstraints.RuleKeeps` and the three `BasicConstraints.SolvePreserves` lemmas.
- `TcTypes.Substitute`: Inference.Typeclasses/Types.cs:62-63, 112 and 207-208; `TcTypes.SubstituteAbsent`, `TcTypes.SubstituteFreeVariables`, `TcTypes.SubstituteEquals`.
- `TcUnify.Match`: Inference.Typeclasses/Types.cs:65-190; its own contract.
- `TcContext.GetInstanceSubgoals`: Inference.Typeclasses/Context.cs:71-87; `TcContext.GetInstanceSubgoalsSpec`.
- `TcReduction.ToHeadNormalForm`: Inference.Typeclasses/Types.cs:257-275; `TcReduction.ToHeadNormalFormIsHeadNormal`.
- `TcReduction.Reduce`: Inference.Typeclasses/Types.cs:308-312; `TcReduction.ReduceFacts`, with the corrected `Entails`.
- `TcConstraints.Solve`: Inference.Typeclasses/Constraints.cs:39-106; `TcConstraints.SolveCases`, `TcConstraints.SolveErrors`, `TcConstraints.SolveFrame`, `TcConstraints.RuleKeeps` and the three `TcConstraints.SolvePreserves` lemmas.
- `TcInference.InferTerm`: the private `Infer` of Inference.Typeclasses/TypeInference.cs:166-203; `TcInference.InferTermKeeps`, `TcInference.IdentityExample`, `TcExamples.LetExample`.
- `TcInference.InferGeneralized`: Inference.Typeclasses/TypeInference.cs:117-127; `TcInference.InferGeneralizedKeeps`.
- `TcInference.Infer`: the public `Infer` of Inference.Typeclasses/TypeInference.cs:74-80; `TcInference.IdentityExample`, `TcExamples.LetExample`.
- `UnitAlgebra.Add`: Inference.Units/Units.cs:92-105; `UnitAlgebra.Sum`, `UnitAlgebra.AddCommutes`, `UnitAlgebra.AddAssociates`, `UnitAlgebra.AddIdentity`.
- `UnitAlgebra.Pivot`: Inference.Units/Units.cs:135-142; `UnitAlgebra.PivotEliminates`, `UnitAlgebra.PivotDividend`, `UnitAlgebra.PivotSolves`, `UnitAlgebra.PivotNormal`.
- `UnitAlgebra.Substitute`: Inference.Units/Units.cs:149-152; `UnitAlgebra.SubstituteExponents`, `UnitAlgebra.SubstituteEliminates`, `UnitAlgebra.SubstitutePivot`.
- `UnitTypes.ToUnit`: the `ToUnit` methods of Inference.Units/Types.cs:28-214; `UnitTypes.ToUnitSpec`, `UnitTypes.PowerUnit`, `UnitTypes.ProductUnit`.
- `UnitTypes.ToType`: Inference.Units/Units.cs:154-170; `UnitTypes.ToTypeToUnit`, `UnitTypes.ToTypeFreeVariables`, `UnitTypes.ToTypeIsUnit`.
- `UnitTypes.MakeHull`: the `MakeHull` methods of Inference.Units/Types.cs:30-217; `UnitTypes.MakeHullSpec`, `UnitTypes.MakeHullVariable`.
- `UnitTypes.Substitute`: the `Substitute` methods of Inference.Units/Types.cs:25-212; `UnitTypes.SubstituteStructural`, `UnitTypes.SubstituteFreeVariables`, `UnitTypes.SubstituteUnitExpression`, `UnitTypes.SubstituteUnitsWellFormed`.
- `UnitConstraints.SolveType`: Inference.Units/Constraints.cs:39-77; `UnitConstraints.SolveTypeErrors`, `UnitConstraints.VariablesRuleKeeps`.
- `UnitConstraints.Decompose`: Inference.Units/Constraints.cs:79-85; `UnitConstraints.DecomposeSucceeds`, `UnitConstraints.DecomposeSpec`.
- `UnitConstraints.SolveHull`: Inference.Units/Constraints.cs:108-128; `UnitConstraints.SolveHullErrors`, `UnitConstraints.HullRuleKeeps`.
- `UnitConstraints.SolveUnit`: Inference.Units/Constraints.cs:166-228; `UnitConstraints.SolveUnitErrors`, `UnitConstraints.PivotRule`, `UnitConstraints.PivotRuleSolves`, `UnitConstraints.NotMaxRuleEliminates`, `UnitConstraints.UnitRuleKeeps`.
- `UnitConstraints.Solve`: the three `Solve` methods of Inference.Units/Constraints.cs:39-228; `UnitConstraints.SolveKeeps`, `UnitConstraints.SolveStream`.
- `UnitInference.InferTerm`: the private `Infer` of Inference.Units/TypeInference.cs:164-202; `UnitInference.InferTermKeeps`, `UnitInference.IdentityExample`, `UnitInference.FloatLiteralExample`.
- `UnitInference.InferGeneralized`: Inference.Units/TypeInference.cs:117-125; `UnitInference.InferGeneralizedKeeps`.
- `UnitInference.Infer`: the public `Infer` of Inference.Units/TypeInference.cs:74-80; `UnitInference.IdentityExample`, `UnitExamples.ZeroExample`, `UnitNormalExample.MulMassMassExample`.
- `DotsTypes.Substitute`: the `Substitute` methods of Inference.Dots/Types.cs:72-73, 122 and 217-226; `DotsTypes.SubstituteSequenceFree`, `DotsTypes.SubstituteVariables`, `DotsTypes.TupleDistributes`.
- `DotsTypes.SequenceSubstitute`: Inference.Dots/Types.cs:330-355; `DotsTypes.SubstituteSplices`, `DotsTypes.ElementsFlatten`, `DotsTypes.SubstituteVariables`.
- `DotsMatch.Match`: the `Match` methods of Inference.Dots/Types.cs:75-78, 124-127 and 188-199; `DotsMatch.MatchKeys`.
- `DotsMatch.SequenceMatch`: Inference.Dots/Types.cs:268-313; `DotsMatch.MatchSequence`, `DotsMatch.SequenceMatchFacts`, `DotsMatch.MatchUndotted`, `DotsMatch.MatchDottedVariable`, `DotsMatch.MatchBothDotted`.

## Left out

- Console tracing: the `Console.WriteLine` calls in both inference drivers are I/O. The list of traced states is returned where a loop collects it, and dropped otherwise.
- Display code: every `ToString`, and `KindExt.Pretty`.
- Inference.Common/Hashing.cs and every `GetHashCode`: hashing plays no part in inference.
- Inference.Common/Syntax.cs: it holds two interfaces with no behaviour.
- Inference.Typeclasses/Terms.cs is not part of this model. The type-class driver assumes the four term forms of Inference.Basic/Terms.cs: variable, lambda, application and let.
- Terms' `FreeVariables`: inference never calls it.
- The `float` payload of `FloatLiteral`: it plays no part in typing.
- Reference inequality: `Merge` in both substitution files (Inference.Typeclasses/Substitutions.cs:47, Inference.Dots/Substitutions.cs:50) and `MergeWithSeqVars` (Inference.Dots/Substitutions.cs:85) compare values with reference `!=`. So do their callers: the `Merge` of `TypeApplication.Match` (Inference.Dots/Types.cs:196) and of the element loop of `TypeSequence.Match` (Inference.Dots/Types.cs:286), and the `MergeWithSeqVars` of its dotted loop (Inference.Dots/Types.cs:297). The model compares values structurally, so two structurally equal but distinct values, which the source reports as a conflict, merge here. `Bindings.Merge`, `Bindings.Conflict`, `DotsMerge.MergeWithSeqVars`, `DotsMerge.MergedWithSeqVarsSucceeds` and `DotsMatch.Match` rest on this.
- Dictionary enumeration order: substitutions are association lists, and their enumeration order is list order. The source's hash order is unspecified. `Unit.ToType` enumerates variables and constants in ascending string order.
- Fresh.Next: the C# counter is a `uint` that wraps after 2^32 draws. The model's counter is unbounded.
- Termination: the drain loops (`UnificationMachine.Run` and both `InferenceState.Unify`), `ToHeadNormalForm`, `Simplify`, `Entails` and `Infer` take a fuel bound. Running out of fuel is an error the source does not have.
- Dots `TypeSequence.Unify`: it refers to members that `TypeSequence` does not have, so its meaning cannot be read off the source. It is not modelled.
- Dots `Unify`, `Overlap` and `Predicate.Unify`: these depend on `TypeSequence.Unify`.
- Dots `ToHeadNormalForm`, `Simplify`, `Reduce` and `SplitPredicates`: they call `GetInstanceSubgoals` and `Entails` of the Dots context, and Inference.Dots/Context.cs is not part of this model. They have the shape of the type-class versions, which are modelled.
- Dots `CapWithDotted`: it always fails, as in the source. Its commented-out intended body is not modelled.
- Dots context entries: `TypeScheme.Instantiate` adds its entries to a context that is not part of this model. The new entries are given as (name, kind) pairs.
- UnitAlgebra.Sum: exponents are unbounded integers. The C# exponents are `int` (Inference.Units/Units.cs:21-25), so `Add` wraps when a sum of exponents leaves the 32-bit range; the model does not.
- UnitAlgebra.Scaled: `Scale` multiplies `int` exponents and wraps on overflow in C#; the model's product is exact.
- UnitAlgebra.Negated: negating an exponent of `int.MinValue` wraps back to itself in C#; the model negates exactly.
- UnitAlgebra.Quotient: `int.MinValue / -1` overflows in C#; the model's truncating division is exact.
- UnitAlgebra.NotMax: `Math.Abs(int.MinValue)` throws an overflow exception in C# (Inference.Units/Units.cs:75-76); the model's absolute value is total.
- TcUnify.Overlap, TcContext.AddInstance, TcReduction.Simplify, TcReduction.SimplificationSubsequence, TcReduction.ReduceFacts, TcReduction.SplitPredicates, TcInference.Infer and TcInference.InferGeneralized are stated for the corrected `Unify` and `Entails` (and, for `AddInstance`, the threaded stream) of the Findings table, not for the code as written. As written, `Simplify` dereferences null on any predicate that no instance matches.
- UnitConstraints.PivotRule: the fresh variable `b` that the not-maximal branch draws is never introduced into the context, as in the source.
- The float tests for `λa.λb.plus a b`, `λx.let d = div x in pair (d mass) (d time)` and `let recip = div one in pair (recip mass) (recip time)` (Inference.Units.Test/InferenceTests.cs:86-112) are not worked through: each needs dozens of solver passes, each proved as its own lemma. The `zero` and `mul mass mass` tests are.

## Findings

| source | as written | input that shows it | evidently intended | confidence | as-written member | corrected member |
|---|---|---|---|---|---|---|
| Inference.Typeclasses/Context.cs:89-93 | `Entails` never consults `conditions`; when no instance matches, `GetInstanceSubgoals` returns null and `All` dereferences it | `Eq t0` against instances for `int` and `[] a` dereferences null, and it does so even when `Eq t0` is one of the conditions | a predicate among the conditions is entailed; no matching instance means not entailed | not executed | `TcContext.EntailsAsWrittenNeverFalse`, `TcContext.EntailsAsWrittenIgnoresConditions`, `TcContext.EntailsCounterexample` | `TcContext.Entails`, `TcContext.EntailsExtendsAsWritten` |
| Inference.Typeclasses/Context.cs:59-61 | `Instantiate` never writes back its `ref` stream, so the new instance and every existing one are instantiated from `tc0` and share variable names | with `forall a. C a` declared, `forall a. C ([] a)` meets `tc0` against `[] tc0`; the occurs check fails, so no overlap is reported and the instance is added | the instances are renamed apart, so `tc1` unifies with `[] tc0` and the overlap is reported | not executed | `TcContext.AddInstanceAsWrittenCounterexample` | `TcContext.AddInstance`, `TcContext.AddInstanceRenamesApart`, `TcContext.AddInstanceRejectsOverlap` |
| Inference.Typeclasses/Types.cs:196 | `TypeApplication.Unify` against a variable unifies the variable with itself, which gives the empty substitution | `[] a` against a variable `b` of kind `*` gives the empty substitution, which leaves the two types different | the variable is unified with the application and bound to it | not executed | `TcUnify.UnifyAsWritten`, `TcUnify.UnifyAsWrittenCounterexample` | `TcUnify.Unify`, `TcUnify.UnifySound`, `TcUnify.UnifySymmetricVariable` |
