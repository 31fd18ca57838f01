/** The unifier (`most_general_unifier`) and variable binding with the
    occurs check (`var_bind`). Neither touches the fresh-variable counter. */
module Unification {
  import opened Types
  import opened Substitutions
  import opened Errors

  /** Some key of `s` occurs in no binding of `s` (or `s` is empty). Composed
      unifiers are not idempotent, but they keep this property, and it is what
      makes the unifier's second recursive call smaller. */
  ghost predicate EliminatesSomeVar(s: Sub)
  {
    s == map[] || exists x :: x in s && OccursInNoBinding(s, x)
  }

  /** The shape of every substitution the unifier returns for inputs whose
      variables are `vs`. */
  ghost predicate UnifierWithin(s: Sub, vs: set<string>)
  {
    s.Keys <= vs && RangesWithin(s, vs) && EliminatesSomeVar(s)
  }

  /** Binds the variable `n` to `t`, unless `t` is `n` itself (nothing to do)
      or mentions `n` (an infinite type). */
  function VarBind(n: string, t: Type): (r: Result<Sub>)
    ensures t == TVar(n) ==> r == Ok(map[])
    ensures r.Err? <==> t != TVar(n) && n in Ftv(t)
    ensures r.Err? ==> r.error == OccursCheckFailure(n, t)
    ensures r.Ok? ==> r.value.Keys <= {n} && UnifierWithin(r.value, Ftv(t) + {n})
  {
    if t == TVar(n) then Ok(map[])
    else if n in Ftv(t) then Err(OccursCheckFailure(n, t))
    else
      assert OccursInNoBinding(map[n := t], n);
      Ok(map[n := t])
  }

  /** `most_general_unifier` as written. On two function types it unifies the
      left sides to `s1`, then the right sides rewritten by `s1` to `s2`, and
      returns `Compose(s1, s2)`, which applies `s2` first and then `s1`: the
      reverse of the order in which the two were found. */
  function UnifyAsWritten(t1: Type, t2: Type): (r: Result<Sub>)
    ensures r.Ok? ==> UnifierWithin(r.value, Ftv(t1) + Ftv(t2))
    decreases |Ftv(t1) + Ftv(t2)|, Size(t1) + Size(t2)
  {
    if t1.TFunc? && t2.TFunc? then
      SubsetCard(Ftv(t1.left) + Ftv(t2.left), Ftv(t1) + Ftv(t2));
      match UnifyAsWritten(t1.left, t2.left)
      case Err(e) => Err(e)
      case Ok(s1) =>
        var r1, r2 := Apply(t1.right, s1), Apply(t2.right, s1);
        RightSidesShrink(t1, t2, s1);
        match UnifyAsWritten(r1, r2)
        case Err(e) => Err(e)
        case Ok(s2) =>
          ComposeWithin(s1, s2, Ftv(t1.left) + Ftv(t2.left), Ftv(r1) + Ftv(r2), Ftv(t1) + Ftv(t2));
          Ok(Compose(s1, s2))
    else if t1.TVar? then VarBind(t1.name, t2)
    else if t2.TVar? then VarBind(t2.name, t1)
    else if t1.TInt? && t2.TInt? then Ok(map[])
    else if t1.TFloat? && t2.TFloat? then Ok(map[])
    else Err(UnificationFailure(t1, t2))
  }

  /** The unifier with the composition in the intended order: on two function
      types it returns `Compose(s2, s1)`, which applies `s1` (found first) and
      then `s2`. Every other case is that of `UnifyAsWritten`. */
  function MostGeneralUnifier(t1: Type, t2: Type): (r: Result<Sub>)
    ensures r.Ok? ==> UnifierWithin(r.value, Ftv(t1) + Ftv(t2))
    decreases |Ftv(t1) + Ftv(t2)|, Size(t1) + Size(t2)
  {
    if t1.TFunc? && t2.TFunc? then
      SubsetCard(Ftv(t1.left) + Ftv(t2.left), Ftv(t1) + Ftv(t2));
      match MostGeneralUnifier(t1.left, t2.left)
      case Err(e) => Err(e)
      case Ok(s1) =>
        var r1, r2 := Apply(t1.right, s1), Apply(t2.right, s1);
        RightSidesShrink(t1, t2, s1);
        match MostGeneralUnifier(r1, r2)
        case Err(e) => Err(e)
        case Ok(s2) =>
          ComposeAfterWithin(s1, s2, Ftv(t1.left) + Ftv(t2.left), Ftv(r1) + Ftv(r2), Ftv(t1) + Ftv(t2));
          Ok(Compose(s2, s1))
    else if t1.TVar? then VarBind(t1.name, t2)
    else if t2.TVar? then VarBind(t2.name, t1)
    else if t1.TInt? && t2.TInt? then Ok(map[])
    else if t1.TFloat? && t2.TFloat? then Ok(map[])
    else Err(UnificationFailure(t1, t2))
  }

  /** After unifying the left sides, the right sides mention no new variable,
      and either fewer variables or the very same types as before. */
  lemma RightSidesShrink(t1: Type, t2: Type, s1: Sub)
    requires t1.TFunc? && t2.TFunc?
    requires UnifierWithin(s1, Ftv(t1.left) + Ftv(t2.left))
    ensures Ftv(Apply(t1.right, s1)) + Ftv(Apply(t2.right, s1)) <= Ftv(t1) + Ftv(t2)
    ensures |Ftv(Apply(t1.right, s1)) + Ftv(Apply(t2.right, s1))| <= |Ftv(t1) + Ftv(t2)|
    ensures forall x :: x in s1 && OccursInNoBinding(s1, x) ==>
              x !in Ftv(Apply(t1.right, s1)) + Ftv(Apply(t2.right, s1))
    ensures s1 == map[] ==> Apply(t1.right, s1) == t1.right && Apply(t2.right, s1) == t2.right
    ensures s1 != map[] ==>
              |Ftv(Apply(t1.right, s1)) + Ftv(Apply(t2.right, s1))| < |Ftv(t1) + Ftv(t2)|
  {
    var vs := Ftv(t1) + Ftv(t2);
    var after := Ftv(Apply(t1.right, s1)) + Ftv(Apply(t2.right, s1));
    ApplyWithin(t1.right, s1, vs);
    ApplyWithin(t2.right, s1, vs);
    SubsetCard(after, vs);
    forall x | x in s1 && OccursInNoBinding(s1, x) ensures x !in after {
      EliminatedVar(t1.right, s1, x);
      EliminatedVar(t2.right, s1, x);
    }
    if s1 == map[] {
      ApplyEmpty(t1.right);
      ApplyEmpty(t2.right);
    } else {
      var x :| x in s1 && OccursInNoBinding(s1, x);
      assert after <= vs - {x};
      SubsetCard(after, vs - {x});
      assert vs == (vs - {x}) + {x};
    }
  }

  /** The composition `Compose(s1, s2)` of the unifier's function case keeps
      the shape of a unifier. */
  lemma ComposeWithin(s1: Sub, s2: Sub, vs1: set<string>, vs2: set<string>, vs: set<string>)
    requires vs1 <= vs && vs2 <= vs
    requires UnifierWithin(s1, vs1) && UnifierWithin(s2, vs2)
    requires forall x :: x in s1 && OccursInNoBinding(s1, x) ==> x !in vs2
    ensures UnifierWithin(Compose(s1, s2), vs)
  {
    var c := Compose(s1, s2);
    forall v | v in c ensures Ftv(c[v]) <= vs {
      if v in s2 { ApplyWithin(s2[v], s1, vs); }
    }
    if s1 == map[] {
      ComposeEmptyLeft(s2);
    } else {
      var x :| x in s1 && OccursInNoBinding(s1, x);
      forall v | v in c ensures x !in Ftv(c[v]) {
        if v in s2 && x in Ftv(c[v]) {
          ApplyFtv(s2[v], s1, x);
        }
      }
      assert x in c && OccursInNoBinding(c, x);
    }
  }

  /** The composition `Compose(s2, s1)` of the corrected unifier's function
      case keeps the shape of a unifier. */
  lemma ComposeAfterWithin(s1: Sub, s2: Sub, vs1: set<string>, vs2: set<string>, vs: set<string>)
    requires vs1 <= vs && vs2 <= vs
    requires UnifierWithin(s1, vs1) && UnifierWithin(s2, vs2)
    requires forall x :: x in s1 && OccursInNoBinding(s1, x) ==> x !in vs2
    ensures UnifierWithin(Compose(s2, s1), vs)
  {
    var c := Compose(s2, s1);
    forall v | v in c ensures Ftv(c[v]) <= vs {
      if v in s1 { ApplyWithin(s1[v], s2, vs); }
    }
    if s1 == map[] {
      ComposeEmptyRight(s2);
    } else {
      var x :| x in s1 && OccursInNoBinding(s1, x);
      forall v | v in c ensures x !in Ftv(c[v]) {
        if v in s1 && x in Ftv(c[v]) {
          ApplyFtv(s1[v], s2, x);
        }
      }
      assert x in c && OccursInNoBinding(c, x);
    }
  }

  /** A successful variable binding makes the variable and the type equal. */
  lemma VarBindUnifies(n: string, t: Type)
    requires VarBind(n, t).Ok?
    ensures t != TVar(n) ==> VarBind(n, t).value == map[n := t]
    ensures Apply(TVar(n), VarBind(n, t).value) == Apply(t, VarBind(n, t).value)
  {
    if t != TVar(n) {
      ApplyFresh(t, map[n := t]);
    }
  }

  /** The cases of the unifier other than two function types, where the code
      as written and the corrected unifier coincide: base types unify with
      themselves by the empty substitution, any other pair of non-variables
      fails, and every success equalises the two sides. */
  lemma ShallowUnifierSound(t1: Type, t2: Type)
    requires !(t1.TFunc? && t2.TFunc?)
    ensures UnifyAsWritten(t1, t2) == MostGeneralUnifier(t1, t2)
    ensures (t1 == t2 == TInt || t1 == t2 == TFloat) ==> MostGeneralUnifier(t1, t2) == Ok(map[])
    ensures !t1.TVar? && !t2.TVar? && !(t1 == t2 == TInt) && !(t1 == t2 == TFloat) ==>
              MostGeneralUnifier(t1, t2) == Err(UnificationFailure(t1, t2))
    ensures MostGeneralUnifier(t1, t2).Ok? ==>
              var s := MostGeneralUnifier(t1, t2).value; Apply(t1, s) == Apply(t2, s)
  {
    if t1.TVar? {
      if VarBind(t1.name, t2).Ok? { VarBindUnifies(t1.name, t2); }
    } else if t2.TVar? {
      if VarBind(t2.name, t1).Ok? { VarBindUnifies(t2.name, t1); }
    }
  }

  /** Every type unifies with itself by the empty substitution. */
  lemma {:induction false} UnifierReflexive(t: Type)
    ensures UnifyAsWritten(t, t) == Ok(map[])
  {
    match t
    case TFunc(l, r) =>
      UnifierReflexive(l);
      ApplyEmpty(r);
      UnifierReflexive(r);
      ComposeEmptyLeft(map[]);
    case _ =>
  }

  /** `most_general_unifier` promises `Apply(t1, s) == Apply(t2, s)`, which
      the code as written breaks for `a -> b` against `b -> Int`: the result
      `{a: b, b: Int}` rewrites the two sides to `b -> Int` and `Int -> Int`. */
  lemma UnifierClaimFails()
    ensures var t1, t2 := TFunc(TVar("a"), TVar("b")), TFunc(TVar("b"), TInt);
            var r := UnifyAsWritten(t1, t2);
            && r.Ok?
            && r.value.Keys == {"a", "b"} && r.value["a"] == TVar("b") && r.value["b"] == TInt
            && Apply(t1, r.value) == TFunc(TVar("b"), TInt)
            && Apply(t2, r.value) != Apply(t1, r.value)
  {
  }

  /** On the same pair the corrected unifier gives `{a: Int, b: Int}`, which
      rewrites both sides to `Int -> Int`. */
  lemma CorrectedUnifierExample()
    ensures var t1, t2 := TFunc(TVar("a"), TVar("b")), TFunc(TVar("b"), TInt);
            var r := MostGeneralUnifier(t1, t2);
            && r == Ok(map["a" := TInt, "b" := TInt])
            && Apply(t1, r.value) == Apply(t2, r.value) == TFunc(TInt, TInt)
  {
    var s1 := map["a" := TVar("b")];
    var s2 := map["b" := TInt];
    assert Compose(s2, s1) == map["a" := TInt, "b" := TInt];
  }

  /** Soundness of the corrected unifier: every substitution it returns makes
      the two types equal, as `most_general_unifier` promises. */
  lemma {:induction false} UnifierSound(t1: Type, t2: Type)
    requires MostGeneralUnifier(t1, t2).Ok?
    ensures Apply(t1, MostGeneralUnifier(t1, t2).value) == Apply(t2, MostGeneralUnifier(t1, t2).value)
    decreases |Ftv(t1) + Ftv(t2)|, Size(t1) + Size(t2)
  {
    if t1.TFunc? && t2.TFunc? {
      SubsetCard(Ftv(t1.left) + Ftv(t2.left), Ftv(t1) + Ftv(t2));
      var s1 := MostGeneralUnifier(t1.left, t2.left).value;
      UnifierSound(t1.left, t2.left);
      var r1, r2 := Apply(t1.right, s1), Apply(t2.right, s1);
      RightSidesShrink(t1, t2, s1);
      var s2 := MostGeneralUnifier(r1, r2).value;
      UnifierSound(r1, r2);
      ComposeApply(t1, s2, s1);
      ComposeApply(t2, s2, s1);
    } else {
      ShallowUnifierSound(t1, t2);
    }
  }

  /** Unifying `a` with `a -> Int` fails the occurs check. */
  lemma OccursCheckExample()
    ensures UnifyAsWritten(TVar("a"), TFunc(TVar("a"), TInt))
            == Err(OccursCheckFailure("a", TFunc(TVar("a"), TInt)))
  {
  }

  /** A function type never unifies with a base type. */
  lemma FunctionAgainstBaseFails(l: Type, r: Type)
    ensures UnifyAsWritten(TFunc(l, r), TInt) == Err(UnificationFailure(TFunc(l, r), TInt))
    ensures UnifyAsWritten(TInt, TFunc(l, r)) == Err(UnificationFailure(TInt, TFunc(l, r)))
  {
  }
}
