/** Properties of the typing judgment, and the demonstration programs of the
    repository worked through it. */
module InferenceFacts {
  import opened Types
  import opened Names
  import opened Substitutions
  import opened Schemes
  import opened Environments
  import opened Errors
  import opened Unification
  import opened Syntax
  import opened Inference

  /** Typing never moves the fresh-variable counter backwards. */
  lemma {:induction false} CounterGrows(env: TypeEnv, e: Expr, n0: nat, r: Judgment, n1: nat)
    requires Infers(env, e, n0, r, n1)
    ensures n0 <= n1
    decreases e, 2
  {
    match e
    case EVar(_) =>
    case ELit(_) =>
    case EAbs(x, body) =>
      var tv := TVar(FreshName(n0));
      var rb :| Infers(Added(Remove(env, x), x, Scheme({}, tv)), body, n0 + 1, rb, n1) && r == AbsResult(tv, rb);
      CounterGrows(Added(Remove(env, x), x, Scheme({}, tv)), body, n0 + 1, rb, n1);
    case EApp(f, a) => CounterGrowsApp(env, e, n0, r, n1);
    case ELet(x, e1, e2) => CounterGrowsLet(env, e, n0, r, n1);
  }

  /** The application case of `CounterGrows`. */
  lemma {:induction false} CounterGrowsApp(env: TypeEnv, e: Expr, n0: nat, r: Judgment, n1: nat)
    requires e.EApp? && Infers(env, e, n0, r, n1)
    ensures n0 <= n1
    decreases e, 1
  {
    var m: nat, rf :| Infers(env, e.fn, n0 + 1, rf, m) && AppRest(env, e.arg, FreshName(n0), rf, m, r, n1);
    CounterGrows(env, e.fn, n0 + 1, rf, m);
    CounterGrowsAppRest(env, e.arg, FreshName(n0), rf, m, r, n1);
  }

  /** The argument step of the application case of `CounterGrows`. */
  lemma {:induction false} CounterGrowsAppRest(env: TypeEnv, a: Expr, tv: string, rf: Judgment, m: nat, r: Judgment, n1: nat)
    requires AppRest(env, a, tv, rf, m, r, n1)
    ensures m <= n1
    decreases a, 3
  {
    if rf.Ok? {
      AppRestArgument(env, a, tv, rf, m, r, n1);
      var ra :| Infers(EnvApply(env, rf.value.0), a, m, ra, n1);
      CounterGrows(EnvApply(env, rf.value.0), a, m, ra, n1);
    }
  }

  /** The let case of `CounterGrows`. */
  lemma {:induction false} CounterGrowsLet(env: TypeEnv, e: Expr, n0: nat, r: Judgment, n1: nat)
    requires e.ELet? && Infers(env, e, n0, r, n1)
    ensures n0 <= n1
    decreases e, 1
  {
    var m: nat, r1 :| Infers(env, e.bound, n0, r1, m) && LetRest(env, e.x, e.body, r1, m, r, n1);
    CounterGrows(env, e.bound, n0, r1, m);
    if r1.Ok? {
      LetRestBody(env, e.x, e.body, r1, m, r, n1);
      var r2 :| Infers(LetBodyEnv(env, e.x, r1.value.0, r1.value.1), e.body, m, r2, n1);
      CounterGrows(LetBodyEnv(env, e.x, r1.value.0, r1.value.1), e.body, m, r2, n1);
    }
  }

  /** After a successful function judgment, the application rule has typed
      the argument. */
  lemma AppRestArgument(env: TypeEnv, a: Expr, tv: string, rf: Judgment, m: nat, r: Judgment, n1: nat)
    requires rf.Ok? && AppRest(env, a, tv, rf, m, r, n1)
    ensures exists ra :: Infers(EnvApply(env, rf.value.0), a, m, ra, n1)
  {
    var ra :| Infers(EnvApply(env, rf.value.0), a, m, ra, n1) && r == AppResult(TVar(tv), rf.value.0, rf.value.1, ra);
  }

  /** After a successful bound-expression judgment, the let rule has typed
      the body. */
  lemma LetRestBody(env: TypeEnv, x: string, e2: Expr, r1: Judgment, m: nat, r: Judgment, n1: nat)
    requires r1.Ok? && LetRest(env, x, e2, r1, m, r, n1)
    ensures exists r2 :: Infers(LetBodyEnv(env, x, r1.value.0, r1.value.1), e2, m, r2, n1)
  {
    var r2 :| Infers(LetBodyEnv(env, x, r1.value.0, r1.value.1), e2, m, r2, n1) && r == LetResult(r1.value.0, r2);
  }

  /** A variable bound to a scheme that quantifies nothing has exactly that
      scheme's type, with the empty substitution, and consumes no fresh name. */
  lemma MonomorphicVariable(env: TypeEnv, x: string, n0: nat, r: Judgment, n1: nat)
    requires x in env && env[x].bound == {}
    requires Infers(env, EVar(x), n0, r, n1)
    ensures r == Ok((map[], env[x].t)) && n1 == n0
  {
    InstanceOfMonotype(env[x], r.value.1, n0);
  }

  /** `\x. x` has type `tv -> tv` for the fresh `tv` it mints, in every
      environment: the parameter is bound monomorphically. */
  lemma IdentityAbstraction(env: TypeEnv, x: string, n0: nat, r: Judgment, n1: nat)
    requires Infers(env, EAbs(x, EVar(x)), n0, r, n1)
    ensures r == Ok((map[], TFunc(TVar(FreshName(n0)), TVar(FreshName(n0)))))
    ensures n1 == n0 + 1
  {
    var tv := TVar(FreshName(n0));
    var env1 := Added(Remove(env, x), x, Scheme({}, tv));
    var rb :| Infers(env1, EVar(x), n0 + 1, rb, n1) && r == AbsResult(tv, rb);
    MonomorphicVariable(env1, x, n0 + 1, rb, n1);
  }

  /** Instantiating a scheme `forall a. a -> a` with the counter at `n`
      gives `tv_n -> tv_n`. */
  lemma IdentitySchemeInstance(a: string, t: Type, n: nat)
    requires IsInstance(Scheme({a}, TFunc(TVar(a), TVar(a))), t, n)
    ensures t == TFunc(TVar(FreshName(n)), TVar(FreshName(n)))
  {
    InstanceOfSingleton(Scheme({a}, TFunc(TVar(a), TVar(a))), a, t, n);
  }

  /** Generalizing in the empty environment quantifies every variable. */
  lemma GeneralizeInEmpty(t: Type)
    ensures Generalize(map[], t) == Scheme(Ftv(t), t)
  {
    assert EnvFtv(map[]) == {};
  }

  /** When the bound expression produced no substitution, the let body is
      typed with the name bound to its generalized type and nothing else
      rewritten. */
  lemma LetBodyEnvWithoutSubstitution(env: TypeEnv, x: string, t: Type)
    ensures LetBodyEnv(env, x, map[], t) == Added(env, x, Generalize(env, t))
  {
    EnvApplyEmpty(env);
    EnvApplyEmpty(Added(env, x, Generalize(env, t)));
  }

  /** In the empty environment, `let f = e1 in ...` with `e1` typed to
      `a -> a` and no substitution types its body with `f` bound to
      `forall a. a -> a`. */
  lemma IdentityLetEnv(f: string, a: string)
    ensures LetBodyEnv(map[], f, map[], TFunc(TVar(a), TVar(a))) == map[f := Scheme({a}, TFunc(TVar(a), TVar(a)))]
  {
    var t := TFunc(TVar(a), TVar(a));
    assert Ftv(t) == {a};
    GeneralizeInEmpty(t);
    LetBodyEnvWithoutSubstitution(map[], f, t);
  }

  /** The body `f` of `let f = e1 in f` in the empty environment, once `e1`
      has been typed to `a -> a` with no substitution: `f` is bound to
      `forall a. a -> a` and instantiated at the next fresh name. */
  lemma LetIdentityBody(f: string, a: string, m: nat, j: Judgment, n1: nat)
    requires LetRest(map[], f, EVar(f), Ok((map[], TFunc(TVar(a), TVar(a)))), m, j, n1)
    ensures j == Ok((map[], TFunc(TVar(FreshName(m)), TVar(FreshName(m)))))
  {
    var env1 := map[f := Scheme({a}, TFunc(TVar(a), TVar(a)))];
    IdentityLetEnv(f, a);
    var r2 :| Infers(env1, EVar(f), m, r2, n1) && j == LetResult(map[], r2);
    IdentitySchemeInstance(a, r2.value.1, m);
    ComposeEmptyLeft(map[]);
  }

  /** `let f = \y. y in f` in the empty environment: the identity is
      generalized over its fresh variable and instantiated at the next one. */
  lemma LetIdentityJudgment(f: string, y: string, n0: nat, j: Judgment, n1: nat)
    requires Infers(map[], ELet(f, EAbs(y, EVar(y)), EVar(f)), n0, j, n1)
    ensures j == Ok((map[], TFunc(TVar(FreshName(n0 + 1)), TVar(FreshName(n0 + 1)))))
  {
    var empty: TypeEnv := map[];
    var m: nat, r1 :| Infers(empty, EAbs(y, EVar(y)), n0, r1, m) && LetRest(empty, f, EVar(f), r1, m, j, n1);
    IdentityAbstraction(empty, y, n0, r1, m);
    LetIdentityBody(f, FreshName(n0), m, j, n1);
  }

  /** `infer_type` of `let f = \y. y in f` is `tv_1 -> tv_1`, whatever the
      two names are. */
  lemma InferLetIdentity(f: string, y: string, r: Result<Type>)
    requires InfersType(map[], ELet(f, EAbs(y, EVar(y)), EVar(f)), r)
    ensures r == Ok(TFunc(TVar(FreshName(1)), TVar(FreshName(1))))
  {
    var j: Judgment, n1: nat :| Infers(map[], ELet(f, EAbs(y, EVar(y)), EVar(f)), 0, j, n1) && r == Finish(j);
    LetIdentityJudgment(f, y, 0, j, n1);
    ApplyEmpty(TFunc(TVar(FreshName(1)), TVar(FreshName(1))));
  }

  /** The first demonstration program, `let id = \x. x in id`, has type
      `tv_1 -> tv_1`. */
  lemma LetIdentityExample(r: Result<Type>)
    requires InfersType(map[], ELet("id", EAbs("x", EVar("x")), EVar("id")), r)
    ensures r == Ok(TFunc(TVar("tv_1"), TVar("tv_1")))
  {
    InferLetIdentity("id", "x", r);
    SmallFreshNames();
  }

  /** A variable missing from the environment is reported as unbound. */
  lemma UnboundVariableExample(r: Result<Type>)
    requires InfersType(map[], EVar("inc"), r)
    ensures r == Err(UnboundVariable("inc"))
  {
  }

  /** The application case of the typing relation. */
  lemma InfersApp(env: TypeEnv, e: Expr, n0: nat, r: Judgment, n1: nat)
    requires e.EApp? && Infers(env, e, n0, r, n1)
    ensures exists m: nat, rf :: Infers(env, e.fn, n0 + 1, rf, m) && AppRest(env, e.arg, FreshName(n0), rf, m, r, n1)
  {
  }

  /** Applying a literal to a literal fails: the literal's base type does
      not unify with `argument -> tv_0`. */
  lemma LiteralApplicationFails(l1: Lit, l2: Lit, r: Result<Type>)
    requires InfersType(map[], EApp(ELit(l1), ELit(l2)), r)
    ensures r == Err(UnificationFailure(LitType(l1), TFunc(LitType(l2), TVar(FreshName(0)))))
  {
    var e := EApp(ELit(l1), ELit(l2));
    var j: Judgment, n1: nat :| Infers(map[], e, 0, j, n1) && r == Finish(j);
    var empty: TypeEnv := map[];
    InfersApp(empty, e, 0, j, n1);
    var m: nat, rf :| Infers(empty, e.fn, 0 + 1, rf, m) && AppRest(empty, e.arg, FreshName(0), rf, m, j, n1);
    assert EnvApply(empty, map[]) == empty;
    var ra :| Infers(empty, e.arg, m, ra, n1) && j == AppResult(TVar(FreshName(0)), map[], LitType(l1), ra);
    assert ra == Ok((map[], LitType(l2)));
    ApplyEmpty(LitType(l1));
    FunctionAgainstLiteralFails(l1, l2, TVar(FreshName(0)));
  }

  /** A literal's base type never unifies with a function type. */
  lemma FunctionAgainstLiteralFails(l1: Lit, l2: Lit, tv: Type)
    ensures UnifyAsWritten(LitType(l1), TFunc(LitType(l2), tv))
            == Err(UnificationFailure(LitType(l1), TFunc(LitType(l2), tv)))
  {
  }

  /** The application step of `f g` with `f : a -> a` and `g : b`, both
      typed with no substitution and `tv_0` as the result variable: the
      unifier as written returns `{a: b, b: tv_0}`, and the application gets
      that substitution and the type `tv_0`. */
  lemma AppAsWrittenExample()
    ensures var tv := TVar("tv_0");
            AppResult(tv, map[], TFunc(TVar("a"), TVar("a")), Ok((map[], TVar("b"))))
            == Ok((map["a" := TVar("b"), "b" := tv], tv))
  {
    var tv := TVar("tv_0");
    var s1 := map["a" := TVar("b")];
    var s2 := map["b" := tv];
    ApplyEmpty(TFunc(TVar("a"), TVar("a")));
    assert UnifyAsWritten(TFunc(TVar("a"), TVar("a")), TFunc(TVar("b"), tv)) == Ok(Compose(s1, s2));
    assert Compose(s1, s2) == map["a" := TVar("b"), "b" := tv];
    ComposeEmptyRight(map[]);
    ComposeEmptyRight(Compose(s1, s2));
  }

  /** Applying the integer literal `1` to `2` fails: `Int` does not unify
      with `Int -> tv_0`. */
  lemma NonFunctionApplicationExample(r: Result<Type>)
    requires InfersType(map[], EApp(ELit(LInt(1)), ELit(LInt(2))), r)
    ensures r == Err(UnificationFailure(TInt, TFunc(TInt, TVar("tv_0"))))
  {
    LiteralApplicationFails(LInt(1), LInt(2), r);
    SmallFreshNames();
  }
}
