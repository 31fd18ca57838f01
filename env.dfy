/** Type environments (`TypeEnv`): program variable names mapped to schemes.
    Every operation returns a new environment. */
module Environments {
  import opened Types
  import opened Schemes

  type TypeEnv = map<string, Scheme>

  /** The union of the free variables of every scheme in `env`. */
  function EnvFtv(env: TypeEnv): set<string>
  {
    set x, v | x in env && v in SchemeFtv(env[x]) :: v
  }

  /** The free variables of the schemes among `schemes`. */
  ghost function FtvOfSchemes(schemes: set<Scheme>): set<string>
  {
    set sc, v | sc in schemes && v in SchemeFtv(sc) :: v
  }

  /** `TypeEnv.free_type_variables`: accumulates the free variables of every
      scheme of the environment, one scheme at a time. */
  method EnvFreeTypeVariables(env: TypeEnv) returns (ftvs: set<string>)
    ensures ftvs == EnvFtv(env)
  {
    ftvs := {};
    var todo := env.Values;
    while todo != {}
      invariant todo <= env.Values
      invariant ftvs == FtvOfSchemes(env.Values - todo)
      decreases todo
    {
      var sc :| sc in todo;
      ghost var done := env.Values - todo;
      assert FtvOfSchemes(done + {sc}) == FtvOfSchemes(done) + SchemeFtv(sc);
      ftvs := ftvs + SchemeFtv(sc);
      todo := todo - {sc};
      assert env.Values - todo == done + {sc};
    }
    assert forall v :: v in EnvFtv(env) ==> v in ftvs by {
      forall v | v in EnvFtv(env) ensures v in ftvs {
        var x :| x in env && v in SchemeFtv(env[x]);
        assert env[x] in env.Values;
      }
    }
  }

  /** Applies `s` to every scheme, each skipping its own bound variables. */
  function EnvApply(env: TypeEnv, s: Sub): (r: TypeEnv)
    ensures r.Keys == env.Keys
    ensures forall x :: x in r ==> r[x].bound == env[x].bound
  {
    map x | x in env :: SchemeApply(env[x], s)
  }

  /** `env` without a binding for `x`; every other binding is kept. */
  function Remove(env: TypeEnv, x: string): (r: TypeEnv)
    ensures r.Keys == env.Keys - {x}
    ensures forall y :: y in r ==> r[y] == env[y]
  {
    map y | y in env && y != x :: env[y]
  }

  /** `env` with `x` bound to `sc`, replacing any earlier binding of `x`. */
  function Added(env: TypeEnv, x: string, sc: Scheme): (r: TypeEnv)
    ensures r.Keys == env.Keys + {x}
    ensures r[x] == sc
    ensures forall y :: y in env && y != x ==> r[y] == env[y]
  {
    env[x := sc]
  }

  /** `TypeEnv.add`: copies the bindings of `env`, then assigns `x` in the copy. */
  method Add(env: TypeEnv, x: string, sc: Scheme) returns (r: TypeEnv)
    ensures r == Added(env, x, sc)
  {
    r := map[];
    var todo := env.Keys;
    while todo != {}
      invariant todo <= env.Keys
      invariant r.Keys == env.Keys - todo
      invariant forall y :: y in r ==> r[y] == env[y]
      decreases todo
    {
      var y :| y in todo;
      r := r[y := env[y]];
      todo := todo - {y};
    }
    assert r == env;
    r := r[x := sc];
  }

  /** Quantifies the variables free in `t` but not in the environment. */
  function Generalize(env: TypeEnv, t: Type): (r: Scheme)
    ensures r.t == t && r.bound == Ftv(t) - EnvFtv(env)
    ensures SchemeFtv(r) == Ftv(t) * EnvFtv(env)
  {
    Scheme(Ftv(t) - EnvFtv(env), t)
  }

  /** Applying the empty substitution leaves an environment unchanged. */
  lemma EnvApplyEmpty(env: TypeEnv)
    ensures EnvApply(env, map[]) == env
  {
    forall x | x in env ensures EnvApply(env, map[])[x] == env[x] {
      SchemeApplyEmpty(env[x]);
    }
  }

  /** Removing `x` before binding it gives the same environment as binding it
      directly. */
  lemma AddAfterRemove(env: TypeEnv, x: string, sc: Scheme)
    ensures Added(Remove(env, x), x, sc) == Added(env, x, sc)
  {
  }

  /** A scheme obtained by generalizing adds no free variable to the
      environment it is generalized in. */
  lemma GeneralizeAddsNoFreeVariable(env: TypeEnv, x: string, t: Type)
    ensures EnvFtv(Added(env, x, Generalize(env, t))) <= EnvFtv(env)
  {
    var env1 := Added(env, x, Generalize(env, t));
    forall v | v in EnvFtv(env1) ensures v in EnvFtv(env) {
      var y :| y in env1 && v in SchemeFtv(env1[y]);
      if y != x {
        assert y in env && v in SchemeFtv(env[y]);
      }
    }
  }
}
