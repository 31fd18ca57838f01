/** Algorithm W as the repository implements it: the fresh-variable counter,
    instantiation of schemes, the typing rule of each expression form and
    the top-level entry point. */
module Inference {
  import opened Types
  import opened Names
  import opened Substitutions
  import opened Schemes
  import opened Environments
  import opened Errors
  import opened Unification
  import opened Syntax

  /** The state threaded through one inference: the next fresh-variable number. */
  class TypeInference {
    var next: nat

    constructor ()
      ensures next == 0
    {
      next := 0;
    }

    /** Returns `tv_<next>` and advances the counter by one. */
    method NewTypeVar() returns (name: string)
      modifies this
      ensures name == FreshName(old(next))
      ensures next == old(next) + 1
    {
      name := FreshName(next);
      next := next + 1;
    }
  }

  /** The loop of `Scheme.instantiate`: binds every variable of `bound`, in an
      unspecified order, to a new fresh variable. */
  method FreshRenamingFor(bound: set<string>, ti: TypeInference) returns (ren: Sub)
    modifies ti
    ensures ti.next == old(ti.next) + |bound|
    ensures ren.Keys == bound && FreshRenaming(ren, old(ti.next))
  {
    ghost var n0 := ti.next;
    ren := map[];
    var todo := bound;
    while todo != {}
      invariant todo <= bound
      invariant ren.Keys == bound - todo
      invariant ti.next == n0 + |ren|
      invariant FreshRenaming(ren, n0)
      decreases todo
    {
      var v :| v in todo;
      var name := ti.NewTypeVar();
      assert name == FreshName(n0 + |ren|);
      RenamingStep(bound, todo, ren, n0, v, name);
      ren := ren[v := TVar(name)];
      todo := todo - {v};
    }
    assert |ren| == |ren.Keys|;
  }

  /** `Scheme.instantiate`: renames the bound variables to new fresh
      variables and applies that renaming to the type. */
  method Instantiate(sc: Scheme, ti: TypeInference) returns (t: Type)
    modifies ti
    ensures ti.next == old(ti.next) + |sc.bound|
    ensures IsInstance(sc, t, old(ti.next))
  {
    ghost var n0 := ti.next;
    var ren := FreshRenamingFor(sc.bound, ti);
    RenamingGivesInstance(sc, ren, n0);
    t := Apply(sc.t, ren);
  }

  /** The fixed type of a literal. */
  function LitType(l: Lit): Type
  {
    match l
    case LInt(_) => TInt
    case LFloat => TFloat
  }

  /** What a typing step returns: a substitution and a type, or an error. */
  type Judgment = Result<(Sub, Type)>

  /** The result of the abstraction rule, given the parameter's variable `tv`
      and the judgment for the body. */
  function AbsResult(tv: Type, rb: Judgment): Judgment
  {
    if rb.Err? then Err(rb.error)
    else Ok((rb.value.0, TFunc(Apply(tv, rb.value.0), rb.value.1)))
  }

  /** The result of the application rule, given the result variable `tv`, the
      function's judgment `(s1, t1)` and the argument's judgment `ra`. */
  function AppResult(tv: Type, s1: Sub, t1: Type, ra: Judgment): Judgment
  {
    if ra.Err? then Err(ra.error)
    else
      var (s2, t2) := ra.value;
      var u := UnifyAsWritten(Apply(t1, s2), TFunc(t2, tv));
      if u.Err? then Err(u.error)
      else Ok((Compose(u.value, Compose(s2, s1)), Apply(tv, u.value)))
  }

  /** The result of the let rule, given the bound expression's substitution
      `s1` and the body's judgment `r2`. */
  function LetResult(s1: Sub, r2: Judgment): Judgment
  {
    if r2.Err? then Err(r2.error)
    else Ok((Compose(s1, r2.value.0), r2.value.1))
  }

  /** The environment the let rule types its body in. */
  function LetBodyEnv(env: TypeEnv, x: string, s1: Sub, t1: Type): TypeEnv
  {
    EnvApply(Added(env, x, Generalize(EnvApply(env, s1), t1)), s1)
  }

  /** The typing judgment of `get_type`: typing `e` in `env` with the counter
      at `n0` may give `r` and leave the counter at `n1`. It is a relation,
      not a function, only because instantiation picks the bound variables in
      an unspecified order. */
  ghost predicate Infers(env: TypeEnv, e: Expr, n0: nat, r: Judgment, n1: nat)
    decreases e, 0
  {
    match e
    case EVar(x) =>
      if x in env then
        n1 == n0 + |env[x].bound| && r.Ok? && r.value.0 == map[] && IsInstance(env[x], r.value.1, n0)
      else
        n1 == n0 && r == Err(UnboundVariable(x))
    case ELit(l) =>
      n1 == n0 && r == Ok((map[], LitType(l)))
    case EAbs(x, body) =>
      var tv := TVar(FreshName(n0));
      exists rb: Judgment :: Infers(Added(Remove(env, x), x, Scheme({}, tv)), body, n0 + 1, rb, n1) &&
        r == AbsResult(tv, rb)
    case EApp(f, a) =>
      exists m: nat, rf: Judgment :: Infers(env, f, n0 + 1, rf, m) && AppRest(env, a, FreshName(n0), rf, m, r, n1)
    case ELet(x, e1, e2) =>
      exists m: nat, r1: Judgment :: Infers(env, e1, n0, r1, m) && LetRest(env, x, e2, r1, m, r, n1)
  }

  /** The application rule once the function has been typed to `rf` with the
      counter left at `m`; `tv` is the result variable minted first. */
  ghost predicate AppRest(env: TypeEnv, a: Expr, tv: string, rf: Judgment, m: nat, r: Judgment, n1: nat)
    decreases a, 1
  {
    if rf.Err? then r == Err(rf.error) && n1 == m
    else exists ra: Judgment :: Infers(EnvApply(env, rf.value.0), a, m, ra, n1) &&
           r == AppResult(TVar(tv), rf.value.0, rf.value.1, ra)
  }

  /** The let rule once the bound expression has been typed to `r1` with the
      counter left at `m`. */
  ghost predicate LetRest(env: TypeEnv, x: string, e2: Expr, r1: Judgment, m: nat, r: Judgment, n1: nat)
    decreases e2, 1
  {
    if r1.Err? then r == Err(r1.error) && n1 == m
    else exists r2: Judgment :: Infers(LetBodyEnv(env, x, r1.value.0, r1.value.1), e2, m, r2, n1) &&
           r == LetResult(r1.value.0, r2)
  }

  /** `get_type`: dispatches on the expression form, threading the counter `ti`. */
  method GetType(e: Expr, env: TypeEnv, ti: TypeInference) returns (r: Judgment)
    modifies ti
    ensures Infers(env, e, old(ti.next), r, ti.next)
    decreases e, 1
  {
    match e
    case EVar(_) => r := GetTypeVar(e, env, ti);
    case ELit(l) => r := Ok((map[], LitType(l)));
    case EAbs(_, _) => r := GetTypeAbs(e, env, ti);
    case EApp(_, _) => r := GetTypeApp(e, env, ti);
    case ELet(_, _, _) => r := GetTypeLet(e, env, ti);
  }

  /** `EVar.get_type`: an instance of the variable's scheme, or an unbound
      variable error. */
  method GetTypeVar(e: Expr, env: TypeEnv, ti: TypeInference) returns (r: Judgment)
    requires e.EVar?
    modifies ti
    ensures Infers(env, e, old(ti.next), r, ti.next)
  {
    if e.name in env {
      var t := Instantiate(env[e.name], ti);
      r := Ok((map[], t));
    } else {
      r := Err(UnboundVariable(e.name));
    }
  }

  /** `EAbs.get_type`: the parameter gets a fresh monomorphic variable; the
      body's substitution is applied to it to form the function type. */
  method GetTypeAbs(e: Expr, env: TypeEnv, ti: TypeInference) returns (r: Judgment)
    requires e.EAbs?
    modifies ti
    ensures Infers(env, e, old(ti.next), r, ti.next)
    decreases e, 0
  {
    ghost var n0 := ti.next;
    var name := ti.NewTypeVar();
    var tv := TVar(name);
    var env0 := Remove(env, e.x);
    var env1 := Add(env0, e.x, Scheme({}, tv));
    var rb := GetType(e.body, env1, ti);
    if rb.Err? {
      r := Err(rb.error);
    } else {
      var (s1, t1) := rb.value;
      r := Ok((s1, TFunc(Apply(tv, s1), t1)));
    }
    assert Infers(env1, e.body, n0 + 1, rb, ti.next) && r == AbsResult(tv, rb);
  }

  /** `EApp.get_type`: types the function, then the argument in the
      environment rewritten by the function's substitution, then unifies the
      function's type with `argument -> tv`. */
  method GetTypeApp(e: Expr, env: TypeEnv, ti: TypeInference) returns (r: Judgment)
    requires e.EApp?
    modifies ti
    ensures Infers(env, e, old(ti.next), r, ti.next)
    decreases e, 0
  {
    ghost var n0 := ti.next;
    var name := ti.NewTypeVar();
    var tv := TVar(name);
    var rf := GetType(e.fn, env, ti);
    ghost var m := ti.next;
    if rf.Err? {
      r := Err(rf.error);
      assert AppRest(env, e.arg, name, rf, m, r, ti.next);
      return;
    }
    var (s1, t1) := rf.value;
    var ra := GetType(e.arg, EnvApply(env, s1), ti);
    if ra.Err? {
      r := Err(ra.error);
    } else {
      var (s2, t2) := ra.value;
      var u := UnifyAsWritten(Apply(t1, s2), TFunc(t2, tv));
      if u.Err? {
        r := Err(u.error);
      } else {
        var s3 := u.value;
        var inner := ComposeSubs(s2, s1);
        var sub := ComposeSubs(s3, inner);
        r := Ok((sub, Apply(tv, s3)));
      }
    }
    assert r == AppResult(tv, s1, t1, ra);
    assert AppRest(env, e.arg, name, rf, m, r, ti.next);
  }

  /** `ELet.get_type`: types the bound expression, generalizes its type in the
      environment rewritten by its substitution, and types the body with the
      name bound to that scheme. */
  method GetTypeLet(e: Expr, env: TypeEnv, ti: TypeInference) returns (r: Judgment)
    requires e.ELet?
    modifies ti
    ensures Infers(env, e, old(ti.next), r, ti.next)
    decreases e, 0
  {
    var r1 := GetType(e.bound, env, ti);
    ghost var m := ti.next;
    if r1.Err? {
      r := Err(r1.error);
      assert LetRest(env, e.x, e.body, r1, m, r, ti.next);
      return;
    }
    var (s1, t1) := r1.value;
    var sc := Generalize(EnvApply(env, s1), t1);
    var env1 := Add(env, e.x, sc);
    var env2 := EnvApply(env1, s1);
    assert env2 == LetBodyEnv(env, e.x, s1, t1);
    var r2 := GetType(e.body, env2, ti);
    if r2.Err? {
      r := Err(r2.error);
    } else {
      var (s2, t2) := r2.value;
      var sub := ComposeSubs(s1, s2);
      r := Ok((sub, t2));
    }
    assert r == LetResult(s1, r2);
    assert LetRest(env, e.x, e.body, r1, m, r, ti.next);
  }

  /** The final answer: the judgment's substitution applied to its type. */
  function Finish(j: Judgment): Result<Type>
  {
    if j.Err? then Err(j.error) else Ok(Apply(j.value.1, j.value.0))
  }

  /** `r` is a possible answer of `infer_type` for `e` in `env`. */
  ghost predicate InfersType(env: TypeEnv, e: Expr, r: Result<Type>)
  {
    exists j: Judgment, n1: nat :: Infers(env, e, 0, j, n1) && r == Finish(j)
  }

  /** `infer_type`: a new counter starting at 0, one typing of `e`, and the
      final substitution applied to the final type. */
  method InferType(e: Expr, startEnv: TypeEnv) returns (r: Result<Type>)
    ensures InfersType(startEnv, e, r)
  {
    var ti := new TypeInference();
    var j := GetType(e, startEnv, ti);
    r := Finish(j);
  }
}
