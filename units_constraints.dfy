/** The solving rules of the units-of-measure engine (Inference.Units,
    Constraints.cs): a type constraint is decomposed structurally, by the
    variable rules, or into a hull constraint and one unit equation per float
    leaf of the rigid side; a hull constraint follows the flex-rigid rules;
    a unit equation is solved by integer pivoting on the intro below it.
    Unlike the other engines, solving draws fresh names ("h" for hulls, "b"
    for the fractional part of a pivot), so every rule takes and returns the
    stream. */
module UnitConstraints {
  import opened Results
  import opened Fresh
  import A = UnitAlgebra
  import opened UnitTypes
  import opened UnitContext

  // ---------------------------------------------------------------------
  // Constructing and substituting constraints.

  /** `TypeConstraint.Substitute`: both sides rewritten; the hoisted
      dependencies are not carried over. */
  function SubstituteType(c: Entry, name: string, subWith: Type): Result<Entry>
    requires c.TypeConstraint?
  {
    var l :- Substitute(c.left, name, subWith);
    var r :- Substitute(c.right, name, subWith);
    Ok(TypeConstraint([], l, r))
  }

  /** `FlexRigidHullConstraint.Substitute`: a plain type constraint between
      the substituted sides when `name` is the flex variable or occurs in
      the rigid side; otherwise the hull constraint without dependencies. */
  function SubstituteHull(c: Entry, name: string, subWith: Type): Result<Entry>
    requires c.FlexRigidHullConstraint?
  {
    if name in FreeVariables(c.rigid) + {c.flex} then
      var l :- Substitute(TypeVariable(c.flex), name, subWith);
      var r :- Substitute(c.rigid, name, subWith);
      Ok(TypeConstraint([], l, r))
    else Ok(FlexRigidHullConstraint([], c.flex, c.rigid))
  }

  /** `UnitConstraint.Substitute`: the equation rewritten, the dependency
      kept. */
  function SubstituteUnit(c: Entry, name: string, subWith: A.Unit): (r: Entry)
    requires c.UnitConstraint?
    ensures r.UnitConstraint? && r.dependency == c.dependency
  {
    UnitConstraint(c.dependency, A.Substitute(c.equation, name, subWith))
  }

  /** `new UnitConstraint(left, right)`: the equation `left / right`, which
      throws when either side is not a unit expression. */
  function UnitOf(left: Type, right: Type): (r: Result<Entry>)
    ensures r.Ok? <==> ToUnit(left).Ok? && ToUnit(right).Ok?
    ensures r.Ok? ==> r.value == UnitConstraint(None, A.Subtract(ToUnit(left).value, ToUnit(right).value))
  {
    var a :- ToUnit(left);
    var b :- ToUnit(right);
    Ok(UnitConstraint(None, A.Subtract(a, b)))
  }

  /** The intro of a pending dependency, if there is one. */
  function DependencyIntro(dependency: Option<string>): seq<Entry>
  {
    if dependency.Some? then [TypeVariableIntro(dependency.value, UnitKind)] else []
  }

  // ---------------------------------------------------------------------
  // Solving a type constraint.

  /** `TypeConstraint.Solve(fresh, prefix, suffix)`. */
  function SolveType(c: Entry, stream: Stream, prefix: seq<Entry>, suffix: seq<Entry>): Result<(Stream, seq<Entry>)>
    requires c.TypeConstraint?
  {
    match (c.left, c.right)
    case (ArrowType(i1, o1), ArrowType(i2, o2)) =>
      Ok((stream, prefix + [TypeConstraint([], i1, i2), TypeConstraint([], o1, o2)] + suffix))
    case (FloatType(u1), FloatType(u2)) =>
      var uc :- UnitOf(u1, u2);
      Ok((stream, prefix + [uc] + suffix))
    case (TypeVariable(l), TypeVariable(rt)) =>
      if prefix == [] then Err(IndexOutOfRange)
      else
        var mid :- VariablesRule(c, l, rt, prefix[|prefix| - 1]);
        Ok((stream, prefix[..|prefix| - 1] + mid + suffix))
    case (TypeVariable(l), _) => Decompose(c, l, c.right, stream, prefix, suffix)
    case (_, TypeVariable(rt)) => Decompose(c, rt, c.left, stream, prefix, suffix)
    case _ => Err(RigidRigidMismatch)
  }

  /** What replaces a variable-variable constraint and the entry `top` below
      it; every definition it makes has the value kind. */
  function VariablesRule(c: Entry, l: string, rt: string, top: Entry): Result<seq<Entry>>
    requires c.TypeConstraint?
  {
    match top
    case LocalityMarker => Ok([c, top])
    case TermVariableBinding(_, _) => Ok([c, top])
    case TypeVariableIntro(i, _) =>
      if l == i && rt == i then Ok([top])
      else if l == i then Ok([TypeVariableDefinition(l, c.right, ValueKind)])
      else if rt == i then Ok([TypeVariableDefinition(rt, c.left, ValueKind)])
      else Ok([c, top])
    case TypeVariableDefinition(d, def, _) =>
      if l == d && rt == d then Ok([top])
      else
        var s :- SubstituteType(c, d, def);
        Ok([s, top])
    case _ => Err(UnknownContextEntry)
  }

  /** One unit intro per hull name. */
  function HullIntros(cs: seq<(string, Type)>): (r: seq<Entry>)
    ensures |r| == |cs|
    ensures forall i :: 0 <= i < |cs| ==> r[i] == TypeVariableIntro(cs[i].0, UnitKind)
  {
    seq(|cs|, i requires 0 <= i < |cs| => TypeVariableIntro(cs[i].0, UnitKind))
  }

  /** One unit equation `h / u` per hull name `h` and replaced unit `u`. */
  function HullConstraints(cs: seq<(string, Type)>): Result<seq<Entry>>
  {
    if cs == [] then Ok([])
    else
      var init :- HullConstraints(cs[..|cs| - 1]);
      var last := cs[|cs| - 1];
      var uc :- UnitOf(TypeVariable(last.0), last.1);
      Ok(init + [uc])
  }

  /** `DecomposeIntoHullConstraint`: the flex variable against the hull of
      the rigid side, with the hull's names as dependencies, then one unit
      equation per hull name; the stream is the one `MakeHull` returns. */
  function Decompose(c: Entry, flex: string, rigid: Type, stream: Stream, prefix: seq<Entry>, suffix: seq<Entry>)
    : Result<(Stream, seq<Entry>)>
    requires c.TypeConstraint?
  {
    var (next, hull, cs) :- MakeHull(rigid, stream);
    var units :- HullConstraints(cs);
    Ok((next, prefix + [FlexRigidHullConstraint(c.dependencies + HullIntros(cs), flex, hull)] + units + suffix))
  }

  // ---------------------------------------------------------------------
  // Solving a hull constraint.

  /** `FlexRigidHullConstraint.Solve(fresh, prefix, suffix)`. */
  function SolveHull(c: Entry, stream: Stream, prefix: seq<Entry>, suffix: seq<Entry>): Result<(Stream, seq<Entry>)>
    requires c.FlexRigidHullConstraint?
  {
    if prefix == [] then Err(IndexOutOfRange)
    else
      var mid :- HullRule(c, prefix[|prefix| - 1]);
      Ok((stream, prefix[..|prefix| - 1] + mid + suffix))
  }

  /** What replaces a hull constraint and the entry `top` below it. */
  function HullRule(c: Entry, top: Entry): Result<seq<Entry>>
    requires c.FlexRigidHullConstraint?
  {
    match top
    case LocalityMarker => Ok([c, top])
    case TermVariableBinding(_, _) => Ok([c, top])
    case TypeVariableDefinition(d, def, _) =>
      var s :- SubstituteHull(c, d, def);
      Ok(c.dependencies + [s, top])
    case TypeVariableIntro(i, _) =>
      if i == c.flex && i in FreeVariables(c.rigid) then Err(OccursCheckFailed)
      else if i == c.flex then Ok(c.dependencies + [TypeVariableDefinition(i, c.rigid, ValueKind)])
      else if i in FreeVariables(c.rigid) then Ok([FlexRigidHullConstraint([top] + c.dependencies, c.flex, c.rigid)])
      else Ok([c, top])
    case _ => Err(UnknownContextEntry)
  }

  // ---------------------------------------------------------------------
  // Solving a unit equation.

  /** `UnitConstraint.Solve(fresh, prefix, suffix)`: a trivial equation is
      dropped and a constant one fails before the context is looked at. */
  function SolveUnit(c: Entry, stream: Stream, prefix: seq<Entry>, suffix: seq<Entry>): Result<(Stream, seq<Entry>)>
    requires c.UnitConstraint?
  {
    if A.IsIdentity(c.equation) then Ok((stream, prefix + suffix))
    else if A.IsConstant(c.equation) then Err(UnitMismatch)
    else if prefix == [] then Err(IndexOutOfRange)
    else
      var (next, mid) :- UnitRule(c, stream, prefix[|prefix| - 1]);
      Ok((next, prefix[..|prefix| - 1] + mid + suffix))
  }

  /** What replaces a unit equation and the entry `top` below it, and the
      stream afterwards. */
  function UnitRule(c: Entry, stream: Stream, top: Entry): Result<(Stream, seq<Entry>)>
    requires c.UnitConstraint?
  {
    var eq := c.equation;
    match top
    case LocalityMarker => Ok((stream, [c, top]))
    case TermVariableBinding(_, _) => Ok((stream, [c, top]))
    case TypeVariableDefinition(d, def, _) =>
      if A.ExponentOf(eq, d) != 0 then
        var u :- ToUnit(def);
        Ok((stream, DependencyIntro(c.dependency) + [SubstituteUnit(c, d, u), top]))
      else Ok((stream, [c, top]))
    case TypeVariableIntro(i, _) =>
      if A.ExponentOf(eq, i) == 0 then Ok((stream, [c, top])) else PivotRule(c, stream, i)
    case _ => Err(UnknownContextEntry)
  }

  /** What replaces a unit equation and the intro of a variable `i` that
      it mentions: a definition of `i` by its pivot when the exponent of
      `i` divides all others; else, when another variable has as large an
      exponent, the integer part of the pivot is split off with a fresh "b"
      variable; else, when other variables remain, the intro is removed and
      recorded as the equation's dependency. None of it is a scope entry. */
  function PivotRule(c: Entry, stream: Stream, i: string): (r: Result<(Stream, seq<Entry>)>)
    requires c.UnitConstraint? && A.ExponentOf(c.equation, i) != 0
    ensures r.Ok? ==> Plain(r.value.1)
  {
    var eq := c.equation;
    var e := A.ExponentOf(eq, i);
    if A.DividesPowers(eq, e) then
      Ok((stream, DependencyIntro(c.dependency) + [TypeVariableDefinition(i, ToType(A.Pivot(eq, i)), UnitKind)]))
    else if A.NotMax(eq, i) then SplitRule(c, stream, i)
    else DeferRule(c, stream, i)
  }

  /** The `NotMax` branch of `PivotRule`. */
  function SplitRule(c: Entry, stream: Stream, i: string): (r: Result<(Stream, seq<Entry>)>)
    requires c.UnitConstraint? && A.ExponentOf(c.equation, i) != 0
    ensures r.Ok? ==> Plain(r.value.1)
  {
    var (next, b) := Next(stream, "b");
    var pivoted := A.Add(A.Pivot(c.equation, i), A.Sole(b));
    var eq := A.Substitute(c.equation, i, pivoted);
    var def := ToType(pivoted);
    PlainSplit(c.dependency, eq, i, def);
    Ok((next, [UnitConstraint(c.dependency, eq), TypeVariableDefinition(i, def, UnitKind)]))
  }

  /** The last two branches of `PivotRule`. */
  function DeferRule(c: Entry, stream: Stream, i: string): (r: Result<(Stream, seq<Entry>)>)
    requires c.UnitConstraint?
    ensures r.Ok? ==> Plain(r.value.1)
  {
    if |c.equation.variables| > 1 then Ok((stream, [UnitConstraint(Some(i), c.equation)]))
    else Err(UnitEquationStuck)
  }

  /** `IConstraint.Solve`. */
  function Solve(c: Entry, stream: Stream, prefix: seq<Entry>, suffix: seq<Entry>): Result<(Stream, seq<Entry>)>
    requires IsConstraint(c)
  {
    match c
    case TypeConstraint(_, _, _) => SolveType(c, stream, prefix, suffix)
    case FlexRigidHullConstraint(_, _, _) => SolveHull(c, stream, prefix, suffix)
    case UnitConstraint(_, _) => SolveUnit(c, stream, prefix, suffix)
  }

  // ---------------------------------------------------------------------
  // What the rules compute.

  /** The unit equations of a hull exist exactly when every replaced unit
      is a unit expression; the i-th is `h_i / u_i`, with no dependency. */
  lemma {:induction false} HullConstraintsSpec(cs: seq<(string, Type)>)
    ensures HullConstraints(cs).Ok? <==> forall i :: 0 <= i < |cs| ==> ToUnit(cs[i].1).Ok?
    ensures HullConstraints(cs).Ok? ==>
      && |HullConstraints(cs).value| == |cs|
      && forall i :: 0 <= i < |cs| ==>
        HullConstraints(cs).value[i] == UnitConstraint(None, A.Subtract(A.Sole(cs[i].0), ToUnit(cs[i].1).value))
  {
    if cs != [] {
      var init := cs[..|cs| - 1];
      var last := cs[|cs| - 1];
      HullConstraintsSpec(init);
      HullConstraintsSnoc(cs, init, last);
      assert forall i :: 0 <= i < |init| ==> init[i] == cs[i];
      assert (forall i :: 0 <= i < |cs| ==> ToUnit(cs[i].1).Ok?) <==>
        (forall i :: 0 <= i < |init| ==> ToUnit(init[i].1).Ok?) && ToUnit(last.1).Ok?;
      if HullConstraints(cs).Ok? {
        var r := HullConstraints(cs).value;
        forall i | 0 <= i < |cs|
          ensures r[i] == UnitConstraint(None, A.Subtract(A.Sole(cs[i].0), ToUnit(cs[i].1).value))
        {
          if i < |init| {
            assert r[i] == HullConstraints(init).value[i];
          }
        }
      }
    }
  }

  /** One step of `HullConstraints`: the equation of the last hull name
      goes after those of the others. */
  lemma HullConstraintsSnoc(cs: seq<(string, Type)>, init: seq<(string, Type)>, last: (string, Type))
    requires cs != [] && init == cs[..|cs| - 1] && last == cs[|cs| - 1]
    ensures HullConstraints(cs).Ok? <==> HullConstraints(init).Ok? && ToUnit(last.1).Ok?
    ensures HullConstraints(cs).Ok? ==>
      HullConstraints(cs).value == HullConstraints(init).value + [UnitConstraint(None, A.Subtract(A.Sole(last.0), ToUnit(last.1).value))]
  {
    assert ToUnit(TypeVariable(last.0)) == Ok(A.Sole(last.0));
  }

  lemma {:induction false} HullConstraintsAreUnits(cs: seq<(string, Type)>)
    requires HullConstraints(cs).Ok?
    ensures forall i :: 0 <= i < |HullConstraints(cs).value| ==> HullConstraints(cs).value[i].UnitConstraint?
  {
    if cs != [] {
      HullConstraintsAreUnits(cs[..|cs| - 1]);
    }
  }

  /** Decomposing `flex == rigid` succeeds exactly when `rigid` is a value
      type whose floats all carry unit expressions. It keeps the prefix and
      the suffix and inserts between them one hull constraint, whose
      dependencies are the old ones followed by one unit intro per float
      leaf of `rigid`, named by consecutive "h" counters, and then one unit
      equation per leaf between its hull name and its unit. Only the "h"
      counter moves, by the number of leaves. */
  lemma DecomposeSpec(c: Entry, flex: string, rigid: Type, stream: Stream, prefix: seq<Entry>, suffix: seq<Entry>)
    requires c.TypeConstraint?
    ensures Decompose(c, flex, rigid, stream, prefix, suffix).Ok? <==>
      IsValueType(rigid) && forall i :: 0 <= i < |FloatUnits(rigid)| ==> ToUnit(FloatUnits(rigid)[i]).Ok?
    ensures Decompose(c, flex, rigid, stream, prefix, suffix).Ok? ==>
      var (next, out) := Decompose(c, flex, rigid, stream, prefix, suffix).value;
      var n := |FloatUnits(rigid)|;
      var h := Counter(stream, "h");
      && |out| == |prefix| + 1 + n + |suffix|
      && out[..|prefix|] == prefix
      && out[|prefix| + 1 + n..] == suffix
      && out[|prefix|].FlexRigidHullConstraint?
      && out[|prefix|].flex == flex
      && IsValueType(out[|prefix|].rigid)
      && |out[|prefix|].dependencies| == |c.dependencies| + n
      && out[|prefix|].dependencies[..|c.dependencies|] == c.dependencies
      && (var added := out[|prefix|].dependencies[|c.dependencies|..];
        forall i :: 0 <= i < n ==> added[i] == TypeVariableIntro("h" + NatToString(h + i), UnitKind))
      && (var units := out[|prefix| + 1..|prefix| + 1 + n];
        forall i :: 0 <= i < n ==>
          units[i] == UnitConstraint(None, A.Subtract(A.Sole("h" + NatToString(h + i)), ToUnit(FloatUnits(rigid)[i]).value)))
      && Counter(next, "h") == h + n
      && forall p :: p != "h" ==> Counter(next, p) == Counter(stream, p)
  {
    DecomposeSucceeds(c, flex, rigid, stream, prefix, suffix);
    if Decompose(c, flex, rigid, stream, prefix, suffix).Ok? {
      var (next, hull, cs) := MakeHull(rigid, stream).value;
      MakeHullSpec(rigid, stream);
      assert Counted(rigid, stream, next, hull, cs);
      HullConstraintsSpec(cs);
      var units := HullConstraints(cs).value;
      assert Decompose(c, flex, rigid, stream, prefix, suffix)
        == Ok((next, prefix + [FlexRigidHullConstraint(c.dependencies + HullIntros(cs), flex, hull)] + units + suffix));
      DecomposedParts(c, flex, rigid, stream, prefix, suffix, next, hull, cs, units);
    }
  }

  /** A decomposition succeeds exactly when the rigid side has a hull and
      every unit it replaces is a unit expression. */
  lemma DecomposeSucceeds(c: Entry, flex: string, rigid: Type, stream: Stream, prefix: seq<Entry>, suffix: seq<Entry>)
    requires c.TypeConstraint?
    ensures Decompose(c, flex, rigid, stream, prefix, suffix).Ok? <==>
      IsValueType(rigid) && forall i :: 0 <= i < |FloatUnits(rigid)| ==> ToUnit(FloatUnits(rigid)[i]).Ok?
  {
    MakeHullSpec(rigid, stream);
    if MakeHull(rigid, stream).Ok? {
      var (next, hull, cs) := MakeHull(rigid, stream).value;
      assert Counted(rigid, stream, next, hull, cs);
      HullConstraintsSpec(cs);
      if !HullConstraints(cs).Ok? {
        var i :| 0 <= i < |cs| && !ToUnit(cs[i].1).Ok?;
        assert !ToUnit(FloatUnits(rigid)[i]).Ok?;
      }
    }
  }

  /** The layout of a decomposition, from the hull's names and units and
      the unit equations built from them. */
  lemma DecomposedParts(c: Entry, flex: string, rigid: Type, stream: Stream, prefix: seq<Entry>, suffix: seq<Entry>,
                        next: Stream, hull: Type, cs: seq<(string, Type)>, units: seq<Entry>)
    requires c.TypeConstraint?
    requires Counted(rigid, stream, next, hull, cs)
    requires |units| == |cs|
    requires forall i :: 0 <= i < |cs| ==>
      ToUnit(cs[i].1).Ok? && units[i] == UnitConstraint(None, A.Subtract(A.Sole(cs[i].0), ToUnit(cs[i].1).value))
    ensures var out := prefix + [FlexRigidHullConstraint(c.dependencies + HullIntros(cs), flex, hull)] + units + suffix;
      var n := |FloatUnits(rigid)|;
      var h := Counter(stream, "h");
      && |out| == |prefix| + 1 + n + |suffix|
      && out[..|prefix|] == prefix
      && out[|prefix| + 1 + n..] == suffix
      && out[|prefix|].FlexRigidHullConstraint?
      && out[|prefix|].flex == flex
      && IsValueType(out[|prefix|].rigid)
      && |out[|prefix|].dependencies| == |c.dependencies| + n
      && out[|prefix|].dependencies[..|c.dependencies|] == c.dependencies
      && (var added := out[|prefix|].dependencies[|c.dependencies|..];
        forall i :: 0 <= i < n ==> added[i] == TypeVariableIntro("h" + NatToString(h + i), UnitKind))
      && (var units := out[|prefix| + 1..|prefix| + 1 + n];
        forall i :: 0 <= i < n ==>
          units[i] == UnitConstraint(None, A.Subtract(A.Sole("h" + NatToString(h + i)), ToUnit(FloatUnits(rigid)[i]).value)))
  {
    var frh := FlexRigidHullConstraint(c.dependencies + HullIntros(cs), flex, hull);
    Spliced(prefix, frh, units, suffix);
    Appended(c.dependencies, HullIntros(cs));
  }

  /** Where the parts of `prefix + [e] + middle + suffix` sit. */
  lemma Spliced<T>(prefix: seq<T>, e: T, middle: seq<T>, suffix: seq<T>)
    ensures var out := prefix + [e] + middle + suffix;
      && |out| == |prefix| + 1 + |middle| + |suffix|
      && out[..|prefix|] == prefix
      && out[|prefix|] == e
      && out[|prefix| + 1..|prefix| + 1 + |middle|] == middle
      && out[|prefix| + 1 + |middle|..] == suffix
  {
    var out := prefix + [e] + middle + suffix;
    assert out[..|prefix|] == prefix;
    assert out[|prefix| + 1..|prefix| + 1 + |middle|] == middle;
    assert out[|prefix| + 1 + |middle|..] == suffix;
  }

  /** The two halves of `a + b`. */
  lemma Appended<T>(a: seq<T>, b: seq<T>)
    ensures (a + b)[..|a|] == a && (a + b)[|a|..] == b
  {
    assert (a + b)[..|a|] == a;
    assert (a + b)[|a|..] == b;
  }

  /** A unit equation pivoted on the intro of `i` when every exponent is a
      multiple of that of `i`: the intro becomes a unit definition of `i`
      (after the pending dependency's intro, if any) whose body does not
      mention `i`, denotes a unit, and solves the equation: putting it in
      for `i` leaves the identity. */
  lemma PivotRuleSolves(c: Entry, stream: Stream, i: string, k: Kind)
    requires c.UnitConstraint?
    requires A.ExponentOf(c.equation, i) != 0 && A.DividesPowers(c.equation, A.ExponentOf(c.equation, i))
    ensures UnitRule(c, stream, TypeVariableIntro(i, k)).Ok?
    ensures var (next, mid) := UnitRule(c, stream, TypeVariableIntro(i, k)).value;
      && next == stream
      && mid[..|mid| - 1] == DependencyIntro(c.dependency)
      && mid[|mid| - 1].TypeVariableDefinition?
      && mid[|mid| - 1].name == i && mid[|mid| - 1].kind == UnitKind
      && i !in FreeVariables(mid[|mid| - 1].definition)
      && ToUnit(mid[|mid| - 1].definition).Ok?
      && A.Substitute(c.equation, i, ToUnit(mid[|mid| - 1].definition).value) == A.Identity
  {
    var p := A.Pivot(c.equation, i);
    A.PivotNormal(c.equation, i);
    ToTypeToUnit(p);
    ToTypeFreeVariables(p);
    A.PivotEliminates(c.equation, i);
    A.SubstitutePivot(c.equation, i);
    var mid := DependencyIntro(c.dependency) + [TypeVariableDefinition(i, ToType(p), UnitKind)];
    assert mid[..|mid| - 1] == DependencyIntro(c.dependency);
  }

  /** When the exponent of `i` does not divide the others but some other
      variable's is at least as large, one "b" name is drawn; `i` is
      defined as its pivot times `b`, and the rewritten equation no longer
      mentions `i` (unless the drawn name happens to be `i` itself). */
  lemma NotMaxRuleEliminates(c: Entry, stream: Stream, i: string, k: Kind)
    requires c.UnitConstraint?
    requires A.ExponentOf(c.equation, i) != 0 && !A.DividesPowers(c.equation, A.ExponentOf(c.equation, i))
    requires A.NotMax(c.equation, i)
    ensures UnitRule(c, stream, TypeVariableIntro(i, k)).Ok?
    ensures var (next, mid) := UnitRule(c, stream, TypeVariableIntro(i, k)).value;
      var b := "b" + NatToString(Counter(stream, "b"));
      && Counter(next, "b") == Counter(stream, "b") + 1
      && (forall p :: p != "b" ==> Counter(next, p) == Counter(stream, p))
      && |mid| == 2
      && mid[0].UnitConstraint? && mid[0].dependency == c.dependency
      && (b != i ==> i !in mid[0].equation.variables)
      && mid[1].TypeVariableDefinition? && mid[1].name == i && mid[1].kind == UnitKind
      && ToUnit(mid[1].definition) == Ok(A.Add(A.Pivot(c.equation, i), A.Sole(b)))
  {
    var b := "b" + NatToString(Counter(stream, "b"));
    var p := A.Pivot(c.equation, i);
    var pivoted := A.Add(p, A.Sole(b));
    ToTypeToUnit(pivoted);
    if b != i {
      A.PivotEliminates(c.equation, i);
      assert A.Get(pivoted.variables, i) == A.Get(p.variables, i) + A.Get(A.Sole(b).variables, i);
      A.SubstituteEliminates(c.equation, i, pivoted);
    }
  }

  /** How a type constraint's step fails: two rigid sides that are not
      both arrows or both floats are a mismatch, and so is nothing else;
      two variables need an entry below; two floats fail exactly when one
      of their units is not a unit expression. */
  lemma SolveTypeErrors(c: Entry, stream: Stream, prefix: seq<Entry>, suffix: seq<Entry>)
    requires c.TypeConstraint?
    ensures var r := SolveType(c, stream, prefix, suffix);
      && (r == Err(RigidRigidMismatch) <==>
            !c.left.TypeVariable? && !c.right.TypeVariable?
            && !(c.left.ArrowType? && c.right.ArrowType?) && !(c.left.FloatType? && c.right.FloatType?))
      && (r == Err(IndexOutOfRange) <==> c.left.TypeVariable? && c.right.TypeVariable? && prefix == [])
      && (c.left.FloatType? && c.right.FloatType? ==>
            (r.Err? <==> !IsUnitExpression(c.left.unit) || !IsUnitExpression(c.right.unit)))
  {
    match (c.left, c.right)
    case (FloatType(u1), FloatType(u2)) =>
      ToUnitSpec(u1);
      ToUnitSpec(u2);
    case (TypeVariable(l), TypeVariable(rt)) =>
      if prefix != [] {
        VariablesRuleError(c, l, rt, prefix[|prefix| - 1]);
      }
    case (TypeVariable(l), _) =>
      DecomposeError(c, l, c.right, stream, prefix, suffix);
    case (_, TypeVariable(rt)) =>
      DecomposeError(c, rt, c.left, stream, prefix, suffix);
    case _ =>
  }

  lemma VariablesRuleError(c: Entry, l: string, rt: string, top: Entry)
    requires c.TypeConstraint?
    ensures VariablesRule(c, l, rt, top).Err? ==> VariablesRule(c, l, rt, top).error in {UnknownContextEntry, NotAUnit}
  {
    if top.TypeVariableDefinition? {
      SubstituteError(c.left, top.name, top.definition);
      SubstituteError(c.right, top.name, top.definition);
    }
  }

  lemma DecomposeError(c: Entry, flex: string, rigid: Type, stream: Stream, prefix: seq<Entry>, suffix: seq<Entry>)
    requires c.TypeConstraint?
    ensures var r := Decompose(c, flex, rigid, stream, prefix, suffix);
      r.Err? ==> r.error in {NoHull, NotAUnit}
  {
    MakeHullSpec(rigid, stream);
    if MakeHull(rigid, stream).Ok? {
      HullConstraintsError(MakeHull(rigid, stream).value.2);
    }
  }

  lemma {:induction false} HullConstraintsError(cs: seq<(string, Type)>)
    ensures HullConstraints(cs).Err? ==> HullConstraints(cs).error == NotAUnit
  {
    if cs != [] {
      HullConstraintsError(cs[..|cs| - 1]);
      ToUnitSpec(cs[|cs| - 1].1);
    }
  }

  /** How a unit equation's step fails: a constant equation that is not
      the identity is a mismatch; otherwise there must be an entry below;
      a constraint there is unknown; a definition the equation mentions
      must denote a unit; and the intro below is stuck exactly when it
      names the equation's only variable and that variable's exponent
      does not divide the exponent of some primitive unit. */
  lemma SolveUnitErrors(c: Entry, stream: Stream, prefix: seq<Entry>, suffix: seq<Entry>)
    requires c.UnitConstraint?
    ensures var r := SolveUnit(c, stream, prefix, suffix);
      var eq := c.equation;
      && (A.IsIdentity(eq) ==> r == Ok((stream, prefix + suffix)))
      && (r == Err(UnitMismatch) <==> !A.IsIdentity(eq) && A.IsConstant(eq))
      && (r == Err(IndexOutOfRange) <==> !A.IsConstant(eq) && prefix == [])
      && (r == Err(UnknownContextEntry) <==> !A.IsConstant(eq) && prefix != [] && IsConstraint(prefix[|prefix| - 1]))
      && (r == Err(NotAUnit) <==> !A.IsConstant(eq) && prefix != [] && BadDefinition(eq, prefix[|prefix| - 1]))
      && (r == Err(UnitEquationStuck) <==> !A.IsConstant(eq) && prefix != [] && StuckIntro(eq, prefix[|prefix| - 1]))
  {
    if !A.IsConstant(c.equation) && prefix != [] {
      UnitRuleErrors(c, stream, prefix[|prefix| - 1]);
    }
  }

  /** A definition the equation mentions whose body is not a unit. */
  predicate BadDefinition(eq: A.Unit, top: Entry)
  {
    top.TypeVariableDefinition? && A.ExponentOf(eq, top.name) != 0 && !IsUnitExpression(top.definition)
  }

  /** The intro of the equation's only variable, whose exponent does not
      divide that of some primitive unit. */
  predicate StuckIntro(eq: A.Unit, top: Entry)
  {
    && top.TypeVariableIntro? && A.ExponentOf(eq, top.name) != 0
    && eq.variables.Keys == {top.name}
    && exists k :: k in eq.constants && eq.constants[k] % A.ExponentOf(eq, top.name) != 0
  }

  lemma UnitRuleErrors(c: Entry, stream: Stream, top: Entry)
    requires c.UnitConstraint?
    ensures var r := UnitRule(c, stream, top);
      && r != Err(IndexOutOfRange) && r != Err(UnitMismatch)
      && (r == Err(UnknownContextEntry) <==> IsConstraint(top))
      && (r == Err(NotAUnit) <==> BadDefinition(c.equation, top))
      && (r == Err(UnitEquationStuck) <==> StuckIntro(c.equation, top))
  {
    var eq := c.equation;
    match top
    case TypeVariableDefinition(_, def, _) =>
      ToUnitSpec(def);
    case TypeVariableIntro(i, _) =>
      if A.ExponentOf(eq, i) != 0 {
        SoleVariable(eq, i);
      }
    case _ =>
  }

  /** A variable with a non-zero exponent is the only one exactly when no
      other variable is left; then no other exponent can outweigh it, and
      its exponent divides the powers when it divides every constant's. */
  lemma SoleVariable(eq: A.Unit, i: string)
    requires A.ExponentOf(eq, i) != 0
    ensures eq.variables.Keys == {i} <==> |eq.variables| <= 1
    ensures eq.variables.Keys == {i} ==> !A.NotMax(eq, i)
    ensures eq.variables.Keys == {i} ==>
      (A.DividesPowers(eq, A.ExponentOf(eq, i)) <==>
        forall k :: k in eq.constants ==> eq.constants[k] % A.ExponentOf(eq, i) == 0)
  {
    var keys := eq.variables.Keys;
    assert i in keys;
    assert |eq.variables| == |keys|;
    if keys == {i} {
      assert A.ExponentOf(eq, i) == eq.variables[i];
      var e := eq.variables[i];
      assert e % e == 0 by { assert e == 1 * e; }
      assert forall k :: k in eq.variables ==> k == i;
    } else {
      var k :| k in keys && k != i;
      var pair := {i, k};
      assert |pair| == 2;
      assert keys == pair + (keys - pair);
      assert |keys| == |pair| + |keys - pair|;
    }
  }

  /** How a hull constraint's step fails: there must be an entry below, a
      constraint there is unknown, and the intro of the flex variable is
      an occurs-check failure exactly when the rigid side mentions it. */
  lemma SolveHullErrors(c: Entry, stream: Stream, prefix: seq<Entry>, suffix: seq<Entry>)
    requires c.FlexRigidHullConstraint?
    ensures var r := SolveHull(c, stream, prefix, suffix);
      && (r == Err(IndexOutOfRange) <==> prefix == [])
      && (r == Err(UnknownContextEntry) <==> prefix != [] && IsConstraint(prefix[|prefix| - 1]))
      && (r == Err(OccursCheckFailed) <==>
            prefix != [] && prefix[|prefix| - 1].TypeVariableIntro?
            && prefix[|prefix| - 1].name == c.flex && c.flex in FreeVariables(c.rigid))
  {
    if prefix != [] && prefix[|prefix| - 1].TypeVariableDefinition? {
      var top := prefix[|prefix| - 1];
      SubstituteError(TypeVariable(c.flex), top.name, top.definition);
      SubstituteError(c.rigid, top.name, top.definition);
    }
  }

  // ---------------------------------------------------------------------
  // What every rule keeps.

  /** Only intros are ever hoisted into a constraint's dependencies. */
  predicate WellFormedEntry(e: Entry)
  {
    (e.TypeConstraint? || e.FlexRigidHullConstraint?) ==>
      forall i :: 0 <= i < |e.dependencies| ==> e.dependencies[i].TypeVariableIntro?
  }

  /** Well-formed entries none of which is a scope entry. */
  predicate Plain(entries: seq<Entry>)
  {
    forall i :: 0 <= i < |entries| ==> !IsScopeEntry(entries[i]) && WellFormedEntry(entries[i])
  }

  lemma PlainSplit(dependency: Option<string>, eq: A.Unit, i: string, def: Type)
    ensures Plain([UnitConstraint(dependency, eq), TypeVariableDefinition(i, def, UnitKind)])
  {
  }

  predicate AllWellFormed(ctx: seq<Entry>)
  {
    forall i :: 0 <= i < |ctx| ==> WellFormedEntry(ctx[i])
  }

  /** A rule replacing a constraint and the entry `top` below it by `mid`
      keeps the scope entry and leaves well-formed entries. */
  predicate Keeps(top: Entry, mid: seq<Entry>)
  {
    Scope(mid) == Scope([top]) && AllWellFormed(mid)
  }

  /** Non-scope entries in front of the entry they step over keep it. */
  lemma KeepsBefore(front: seq<Entry>, top: Entry)
    requires Plain(front)
    requires WellFormedEntry(top)
    ensures Keeps(top, front + [top])
  {
    NoScope(front);
    ScopeConcat(front, [top]);
  }

  /** Well-formed non-scope entries replacing an intro or a definition keep
      it. */
  lemma KeepsReplacing(mid: seq<Entry>, top: Entry)
    requires Plain(mid)
    requires top.TypeVariableIntro? || top.TypeVariableDefinition?
    ensures Keeps(top, mid)
  {
    NoScope(mid);
    Singleton(top);
  }

  lemma VariablesRuleKeeps(c: Entry, l: string, rt: string, top: Entry)
    requires c.TypeConstraint? && WellFormedEntry(c) && WellFormedEntry(top)
    requires VariablesRule(c, l, rt, top).Ok?
    ensures Keeps(top, VariablesRule(c, l, rt, top).value)
  {
    var mid := VariablesRule(c, l, rt, top).value;
    if mid == [top] {
      KeepsBefore([], top);
      assert [] + [top] == [top];
    } else if |mid| == 1 {
      KeepsReplacing(mid, top);
    } else {
      KeepsBefore([mid[0]], top);
      assert [mid[0]] + [top] == mid;
    }
  }

  lemma HullRuleKeeps(c: Entry, top: Entry)
    requires c.FlexRigidHullConstraint? && WellFormedEntry(c) && WellFormedEntry(top)
    requires HullRule(c, top).Ok?
    ensures Keeps(top, HullRule(c, top).value)
  {
    var mid := HullRule(c, top).value;
    match top
    case TypeVariableDefinition(d, def, _) =>
      var sub := SubstituteHull(c, d, def).value;
      var front := c.dependencies + [sub];
      assert forall i :: 0 <= i < |front| ==> front[i] == if i < |c.dependencies| then c.dependencies[i] else sub;
      KeepsBefore(front, top);
      assert front + [top] == mid;
    case TypeVariableIntro(i, _) =>
      if i == c.flex {
        KeepsReplacing(mid, top);
      } else if i in FreeVariables(c.rigid) {
        var h := mid[0];
        assert forall j :: 0 <= j < |h.dependencies| ==> h.dependencies[j] == if j == 0 then top else c.dependencies[j - 1];
        KeepsReplacing(mid, top);
      } else {
        KeepsBefore([c], top);
      }
    case _ =>
      KeepsBefore([c], top);
  }

  /** A unit equation rewritten by a definition it mentions, after the
      pending dependency's intro, keeps that definition. */
  lemma SubstitutedKeeps(dependency: Option<string>, sub: Entry, top: Entry)
    requires sub.UnitConstraint? && WellFormedEntry(top)
    ensures Keeps(top, DependencyIntro(dependency) + [sub, top])
  {
    var deps := DependencyIntro(dependency);
    var front := deps + [sub];
    assert forall i :: 0 <= i < |front| ==> front[i] == if i < |deps| then deps[i] else sub;
    KeepsBefore(front, top);
    assert front + [top] == deps + [sub, top];
  }

  lemma UnitRuleKeeps(c: Entry, stream: Stream, top: Entry)
    requires c.UnitConstraint? && WellFormedEntry(top)
    requires UnitRule(c, stream, top).Ok?
    ensures Keeps(top, UnitRule(c, stream, top).value.1)
  {
    var mid := UnitRule(c, stream, top).value.1;
    match top
    case TypeVariableDefinition(d, def, _) =>
      if A.ExponentOf(c.equation, d) != 0 {
        SubstitutedKeeps(c.dependency, SubstituteUnit(c, d, ToUnit(def).value), top);
      } else {
        KeepsBefore([c], top);
      }
    case TypeVariableIntro(i, _) =>
      if A.ExponentOf(c.equation, i) == 0 {
        KeepsBefore([c], top);
      } else {
        KeepsReplacing(mid, top);
      }
    case _ =>
      KeepsBefore([c], top);
  }

  /** Rebuilding a prefix around a rule's result keeps the scope. */
  lemma Reassembled(prefix: seq<Entry>, mid: seq<Entry>, suffix: seq<Entry>)
    requires prefix != [] && Keeps(prefix[|prefix| - 1], mid)
    requires AllWellFormed(prefix) && AllWellFormed(suffix)
    ensures var out := prefix[..|prefix| - 1] + mid + suffix;
      Scope(out) == Scope(prefix) + Scope(suffix) && AllWellFormed(out)
  {
    var kept, top := prefix[..|prefix| - 1], prefix[|prefix| - 1];
    assert prefix == kept + [top];
    ScopeConcat(kept, [top]);
    ScopeConcat(kept, mid);
    ScopeConcat(kept + mid, suffix);
    assert AllWellFormed(kept) by {
      assert forall i :: 0 <= i < |kept| ==> kept[i] == prefix[i];
    }
    WellFormedConcat(kept, mid);
    WellFormedConcat(kept + mid, suffix);
  }

  /** Inserting well-formed non-scope entries keeps the scope. */
  lemma Inserted(prefix: seq<Entry>, added: seq<Entry>, suffix: seq<Entry>)
    requires Plain(added)
    requires AllWellFormed(prefix) && AllWellFormed(suffix)
    ensures var out := prefix + added + suffix;
      Scope(out) == Scope(prefix) + Scope(suffix) && AllWellFormed(out)
  {
    var front := prefix + added;
    assert Scope(front) == Scope(prefix) by {
      NoScope(added);
      ScopeConcat(prefix, added);
      assert Scope(prefix) + [] == Scope(prefix);
    }
    ScopeConcat(front, suffix);
    assert AllWellFormed(front) by {
      assert AllWellFormed(added);
      WellFormedConcat(prefix, added);
    }
    WellFormedConcat(front, suffix);
  }

  lemma WellFormedConcat(a: seq<Entry>, b: seq<Entry>)
    requires AllWellFormed(a) && AllWellFormed(b)
    ensures AllWellFormed(a + b)
  {
    forall i | 0 <= i < |a + b|
      ensures WellFormedEntry((a + b)[i])
    {
      if i < |a| {
        assert (a + b)[i] == a[i];
      } else {
        assert (a + b)[i] == b[i - |a|];
      }
    }
  }

  /** What `Solve` returns after a step that succeeds. */
  predicate Solved(prefix: seq<Entry>, suffix: seq<Entry>, out: seq<Entry>)
  {
    Scope(out) == Scope(prefix) + Scope(suffix) && AllWellFormed(out)
  }

  lemma SolveTypeKeeps(c: Entry, stream: Stream, prefix: seq<Entry>, suffix: seq<Entry>)
    requires c.TypeConstraint? && WellFormedEntry(c) && AllWellFormed(prefix) && AllWellFormed(suffix)
    requires SolveType(c, stream, prefix, suffix).Ok?
    ensures Solved(prefix, suffix, SolveType(c, stream, prefix, suffix).value.1)
  {
    match (c.left, c.right)
    case (ArrowType(i1, o1), ArrowType(i2, o2)) =>
      Inserted(prefix, [TypeConstraint([], i1, i2), TypeConstraint([], o1, o2)], suffix);
    case (FloatType(u1), FloatType(u2)) =>
      Inserted(prefix, [UnitOf(u1, u2).value], suffix);
    case (TypeVariable(l), TypeVariable(rt)) =>
      VariablesRuleKeeps(c, l, rt, prefix[|prefix| - 1]);
      Reassembled(prefix, VariablesRule(c, l, rt, prefix[|prefix| - 1]).value, suffix);
    case (TypeVariable(l), _) => DecomposeKeeps(c, l, c.right, stream, prefix, suffix);
    case (_, TypeVariable(rt)) => DecomposeKeeps(c, rt, c.left, stream, prefix, suffix);
  }

  lemma DecomposeKeeps(c: Entry, flex: string, rigid: Type, stream: Stream, prefix: seq<Entry>, suffix: seq<Entry>)
    requires c.TypeConstraint? && WellFormedEntry(c) && AllWellFormed(prefix) && AllWellFormed(suffix)
    requires Decompose(c, flex, rigid, stream, prefix, suffix).Ok?
    ensures Solved(prefix, suffix, Decompose(c, flex, rigid, stream, prefix, suffix).value.1)
  {
    var (next, hull, cs) := MakeHull(rigid, stream).value;
    HullConstraintsAreUnits(cs);
    HullInserted(c.dependencies, HullIntros(cs), flex, hull, HullConstraints(cs).value, prefix, suffix);
  }

  /** A hull constraint whose dependencies are intros, followed by unit
      equations, inserted between two well-formed parts. */
  lemma HullInserted(deps: seq<Entry>, intros: seq<Entry>, flex: string, hull: Type, units: seq<Entry>,
                     prefix: seq<Entry>, suffix: seq<Entry>)
    requires forall i :: 0 <= i < |deps| ==> deps[i].TypeVariableIntro?
    requires forall i :: 0 <= i < |intros| ==> intros[i].TypeVariableIntro?
    requires forall i :: 0 <= i < |units| ==> units[i].UnitConstraint?
    requires AllWellFormed(prefix) && AllWellFormed(suffix)
    ensures Solved(prefix, suffix, prefix + [FlexRigidHullConstraint(deps + intros, flex, hull)] + units + suffix)
  {
    var all := deps + intros;
    assert forall i :: 0 <= i < |all| ==> all[i] == if i < |deps| then deps[i] else intros[i - |deps|];
    var added := [FlexRigidHullConstraint(all, flex, hull)] + units;
    assert forall i :: 0 <= i < |added| ==> added[i] == if i == 0 then FlexRigidHullConstraint(all, flex, hull) else units[i - 1];
    Inserted(prefix, added, suffix);
    assert prefix + [FlexRigidHullConstraint(all, flex, hull)] + units + suffix == prefix + added + suffix;
  }

  lemma SolveHullKeeps(c: Entry, stream: Stream, prefix: seq<Entry>, suffix: seq<Entry>)
    requires c.FlexRigidHullConstraint? && WellFormedEntry(c) && AllWellFormed(prefix) && AllWellFormed(suffix)
    requires SolveHull(c, stream, prefix, suffix).Ok?
    ensures Solved(prefix, suffix, SolveHull(c, stream, prefix, suffix).value.1)
  {
    HullRuleKeeps(c, prefix[|prefix| - 1]);
    Reassembled(prefix, HullRule(c, prefix[|prefix| - 1]).value, suffix);
  }

  lemma SolveUnitKeeps(c: Entry, stream: Stream, prefix: seq<Entry>, suffix: seq<Entry>)
    requires c.UnitConstraint? && AllWellFormed(prefix) && AllWellFormed(suffix)
    requires SolveUnit(c, stream, prefix, suffix).Ok?
    ensures Solved(prefix, suffix, SolveUnit(c, stream, prefix, suffix).value.1)
  {
    if A.IsIdentity(c.equation) {
      Inserted(prefix, [], suffix);
      assert prefix + [] + suffix == prefix + suffix;
    } else {
      UnitRuleKeeps(c, stream, prefix[|prefix| - 1]);
      Reassembled(prefix, UnitRule(c, stream, prefix[|prefix| - 1]).value.1, suffix);
    }
  }

  /** Every successful step keeps the term bindings and locality markers of
      the prefix and the suffix, in order, adds no other scope entry, and
      hoists only intros. */
  lemma SolveKeeps(c: Entry, stream: Stream, prefix: seq<Entry>, suffix: seq<Entry>)
    requires IsConstraint(c) && WellFormedEntry(c) && AllWellFormed(prefix) && AllWellFormed(suffix)
    requires Solve(c, stream, prefix, suffix).Ok?
    ensures Scope(Solve(c, stream, prefix, suffix).value.1) == Scope(prefix) + Scope(suffix)
    ensures AllWellFormed(Solve(c, stream, prefix, suffix).value.1)
  {
    match c
    case TypeConstraint(_, _, _) => SolveTypeKeeps(c, stream, prefix, suffix);
    case FlexRigidHullConstraint(_, _, _) => SolveHullKeeps(c, stream, prefix, suffix);
    case UnitConstraint(_, _) => SolveUnitKeeps(c, stream, prefix, suffix);
  }

  /** Solving moves no counter of the stream but the "h" and "b" ones, and
      those only forward. */
  lemma SolveStream(c: Entry, stream: Stream, prefix: seq<Entry>, suffix: seq<Entry>)
    requires IsConstraint(c) && Solve(c, stream, prefix, suffix).Ok?
    ensures var next := Solve(c, stream, prefix, suffix).value.0;
      && (forall p :: p != "h" && p != "b" ==> Counter(next, p) == Counter(stream, p))
      && Counter(next, "h") >= Counter(stream, "h") && Counter(next, "b") >= Counter(stream, "b")
  {
    match c
    case TypeConstraint(_, _, _) =>
      if c.left.TypeVariable? && !c.right.TypeVariable? {
        DecomposeSpec(c, c.left.name, c.right, stream, prefix, suffix);
      } else if !c.left.TypeVariable? && c.right.TypeVariable? {
        DecomposeSpec(c, c.right.name, c.left, stream, prefix, suffix);
      }
    case FlexRigidHullConstraint(_, _, _) =>
    case UnitConstraint(_, _) =>
  }
}
