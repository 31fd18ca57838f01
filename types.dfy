/** The type algebra: type variables, the two base types and function types,
    with free type variables and the application of a substitution. */
module Types {

  /** A type of the calculus; `TFunc(left, right)` is `left -> right`. */
  datatype Type = TVar(name: string) | TInt | TFloat | TFunc(left: Type, right: Type)

  /** A substitution maps type-variable names to types. */
  type Sub = map<string, Type>

  /** The type variables that occur in `t`. */
  function Ftv(t: Type): set<string>
  {
    match t
    case TVar(n) => {n}
    case TInt => {}
    case TFloat => {}
    case TFunc(l, r) => Ftv(l) + Ftv(r)
  }

  /** Rewrites every variable of `t` by ONE lookup in `s`: the type found is
      not itself rewritten again. */
  function Apply(t: Type, s: Sub): Type
  {
    match t
    case TVar(n) => if n in s then s[n] else t
    case TInt => t
    case TFloat => t
    case TFunc(l, r) => TFunc(Apply(l, s), Apply(r, s))
  }

  /** Number of constructors in `t`; used as a termination measure. */
  function Size(t: Type): nat
  {
    match t
    case TFunc(l, r) => 1 + Size(l) + Size(r)
    case _ => 1
  }

  /** `s` and `s'` agree on the variable `v`. */
  ghost predicate AgreeOn(s: Sub, s': Sub, v: string)
  {
    (v in s <==> v in s') && (v in s ==> s[v] == s'[v])
  }

  /** Every binding of `s` mentions only variables from `vs`. */
  ghost predicate RangesWithin(s: Sub, vs: set<string>)
  {
    forall v :: v in s ==> Ftv(s[v]) <= vs
  }

  /** The variable `x` occurs in no binding of `s`. */
  ghost predicate OccursInNoBinding(s: Sub, x: string)
  {
    forall v :: v in s ==> x !in Ftv(s[v])
  }

  /** Applying the empty substitution leaves a type unchanged. */
  lemma {:induction false} ApplyEmpty(t: Type)
    ensures Apply(t, map[]) == t
  {
    match t
    case TFunc(l, r) => ApplyEmpty(l); ApplyEmpty(r);
    case _ =>
  }

  /** Only the bindings of the free variables of `t` matter. */
  lemma {:induction false} ApplyAgree(t: Type, s: Sub, s': Sub)
    requires forall v :: v in Ftv(t) ==> AgreeOn(s, s', v)
    ensures Apply(t, s) == Apply(t, s')
  {
    match t
    case TVar(n) => assert AgreeOn(s, s', n);
    case TFunc(l, r) => ApplyAgree(l, s, s'); ApplyAgree(r, s, s');
    case _ =>
  }

  /** A substitution none of whose keys is free in `t` leaves `t` unchanged. */
  lemma ApplyFresh(t: Type, s: Sub)
    requires forall v :: v in s ==> v !in Ftv(t)
    ensures Apply(t, s) == t
  {
    ApplyAgree(t, s, map[]);
    ApplyEmpty(t);
  }

  /** A variable free in `Apply(t, s)` is either a free variable of `t` that
      `s` does not bind, or comes from the binding of a free variable of `t`. */
  lemma {:induction false} ApplyFtv(t: Type, s: Sub, y: string)
    requires y in Ftv(Apply(t, s))
    ensures (y in Ftv(t) && y !in s) || exists v :: v in Ftv(t) && v in s && y in Ftv(s[v])
  {
    match t
    case TVar(n) =>
      if n in s { assert n in Ftv(t) && y in Ftv(s[n]); }
    case TFunc(l, r) =>
      if y in Ftv(Apply(l, s)) { ApplyFtv(l, s, y); } else { ApplyFtv(r, s, y); }
    case _ =>
  }

  /** Substituting with bindings over `vs` keeps a type over `vs` within `vs`. */
  lemma ApplyWithin(t: Type, s: Sub, vs: set<string>)
    requires Ftv(t) <= vs && RangesWithin(s, vs)
    ensures Ftv(Apply(t, s)) <= vs
  {
    forall y | y in Ftv(Apply(t, s)) ensures y in vs {
      ApplyFtv(t, s, y);
    }
  }

  /** A bound variable that occurs in no binding disappears from every type
      the substitution is applied to. */
  lemma EliminatedVar(t: Type, s: Sub, x: string)
    requires x in s && OccursInNoBinding(s, x)
    ensures x !in Ftv(Apply(t, s))
  {
    if x in Ftv(Apply(t, s)) {
      ApplyFtv(t, s, x);
    }
  }

  /** Every subset of a finite set is at most as large. */
  lemma {:induction false} SubsetCard(a: set<string>, b: set<string>)
    requires a <= b
    ensures |a| <= |b|
    decreases |a|
  {
    if a != {} {
      var x :| x in a;
      SubsetCard(a - {x}, b - {x});
    }
  }
}
