# Algorithm W for a tiny lambda calculus, in Dafny

This project models `src/algw.py`, a Hindley-Milner type checker written with
Algorithm W. It type-checks a lambda calculus made of variables, integer and
float literals, abstractions, applications and `let`. The model covers these
parts:

- **Types.** `TVar`, `TInt`, `TFloat` and `TFunc`, with free type variables and
  the application of a substitution (`Types`). Applying a substitution looks a
  variable up once and does not rewrite the result again.
- **Substitutions.** These are maps from type-variable names to types.
  `compose_subs` is modelled by `Substitutions.Compose`, a function, and
  `Substitutions.ComposeSubs`, the method with the source's loop.
- **Schemes.** Free variables, application that skips bound variables, and
  instantiation (`Schemes`, `Inference.Instantiate`).
- **Environments.** Free variables, application, `remove`, `add` and
  `generalize` (`Environments`).
- **Unifier.** `var_bind` with its occurs check, and `most_general_unifier`
  (`Unification`).
- **Fresh-variable counter.** `TypeInference` is a class whose `next` field is
  the counter that `new_type_var` advances. The fresh names are
  `tv_0`, `tv_1`, … (`Names`).
- **Typing rules.** One `get_type` method per expression form, plus
  `infer_type` (`Inference`). Worked examples and properties of the typing
  relation are in `InferenceFacts`.

Python exceptions become values of `Errors.TypeError`:
- `UnboundVariable` for the exception at line 22.
- `UnificationFailure` for the one at line 385.
- `OccursCheckFailure` for the one at line 398.

An exception travels up through every enclosing `get_type` unchanged, so each
rule returns the first error its sub-derivations produce.

`instantiate` walks a Python set, so the fresh name each bound variable gets
depends on iteration order. The model leaves that order open.
`Inference.Instantiate` picks the next bound variable with `:|`. For this
reason typing is stated as a relation, `Inference.Infers(env, e, n0, r, n1)`:
typing `e` in `env`, with the counter at `n0`, may give `r` and leave the
counter at `n1`. Every `get_type` method ensures that its result and final
counter satisfy this relation.

The model follows the code where it departs from textbook Algorithm W:
- `compose_subs(s1, s2)` applies `s2` first and then `s1`, and on a shared key
  the binding from `s2` wins.
- `ELet` returns `compose_subs(sub1, sub2)`, the reverse of the order in which
  the two substitutions were found.
- The unifier's function case also returns `compose_subs(s1, s2)`,
  modelled by `Unification.UnifyAsWritten`. The typing rules call this
  unifier, as line 87 does.

This last composition breaks the promise in the unifier's doc-comment, so it
is reported under "## Findings". The corrected unifier,
`Unification.MostGeneralUnifier`, composes in the intended order and is
proved sound. It stands beside the as-written one and no typing rule uses it.

The source's definitions map to these members:
- `free_type_variables` of the types (lines 151-152, 168-169, 216-217) is
  `Types.Ftv`.
- `apply_sub` of the types (lines 154-155, 171-174, 219-222) is `Types.Apply`.
- `Scheme.free_type_variables` (lines 244-249) is `Schemes.SchemeFtv`.
- The `smaller_sub` that `Scheme.apply_sub` builds (lines 256-260) is
  `Schemes.WithoutBound`.
- The union that `TypeEnv.free_type_variables` computes (lines 302-310) is
  `Environments.EnvFtv`.
- The name `new_type_var` builds (line 359) is `Names.FreshName`.
- The types the literals' `get_type` returns (lines 138-147) are
  `Inference.LitType`.

The unifier recurses on right-hand sides rewritten by a substitution, and
Dafny accepts its termination without fuel. The measure is the number of
distinct type variables of the two inputs, then their total size. Each result
keeps its keys and bindings within the input variables, and some key occurs in
no binding. That key has vanished from the rewritten right-hand sides, so the
second recursive call has fewer variables.

## Model

| member | source | states |
|---|---|---|
| Types.ApplyEmpty | src/algw.py:150-174 | applying the empty substitution leaves every type unchanged |
| Types.ApplyFtv | src/algw.py:168-174 | a variable of `Apply(t, s)` is either a variable of `t` that `s` does not bind, or a variable of the binding of some variable of `t` |
| Types.ApplyFresh | src/algw.py:171-174 | a substitution that binds no variable of `t` leaves `t` unchanged |
| Types.ApplyAgree | src/algw.py:171-174 | two substitutions that agree on the variables of `t` give the same result on `t` |
| Substitutions.Compose | src/algw.py:286-290 | the keys of the composition are the keys of both; a key of `s2` maps to its binding rewritten by `s1`, which wins over `s1`'s own binding; any other key keeps `s1`'s binding |
| Substitutions.ComposeSubs | src/algw.py:286-290 | the copy-then-overwrite loop returns exactly `Compose(s1, s2)` |
| Substitutions.ComposeApply | src/algw.py:286-290 | applying `Compose(s1, s2)` to any type equals applying `s2` first and then `s1` |
| Substitutions.ComposeEmptyLeft | src/algw.py:286-290 | composing with the empty substitution on the outside changes nothing |
| Substitutions.ComposeEmptyRight | src/algw.py:286-290 | composing with the empty substitution on the inside changes nothing |
| Substitutions.ComposeOrderMatters | src/algw.py:286-290 | composition is not commutative: `{a: b}` after `{b: Int}` sends `a` to `b`, but the other order sends it to `Int` |
| Schemes.SchemeApply | src/algw.py:251-262 | applying a substitution keeps the bound variables of a scheme |
| Schemes.SchemeApplyEmpty | src/algw.py:251-262 | applying the empty substitution leaves a scheme unchanged |
| Schemes.SchemeApplyIgnoresBound | src/algw.py:251-262 | a binding for a bound variable has no effect on the scheme |
| Schemes.SchemeApplyOnlyFree | src/algw.py:244-262 | a substitution that binds none of the scheme's free variables (`ftv(t) - bound`) leaves it unchanged |
| Schemes.InstanceOfMonotype | src/algw.py:264-277 | a scheme that binds nothing has its own type as its only instance |
| Schemes.InstanceOfSingleton | src/algw.py:264-277 | a scheme binding one variable has one instance per counter value: that variable renamed to the next fresh name |
| Schemes.InstanceFtv | src/algw.py:264-277 | an instance mentions only the scheme's free variables and the fresh names the instantiation consumed |
| Environments.EnvFreeTypeVariables | src/algw.py:302-310 | the accumulating loop returns the union of the free variables of all schemes |
| Environments.EnvApply | src/algw.py:312-319 | applying a substitution keeps the variables of the environment and the bound set of each scheme |
| Environments.EnvApplyEmpty | src/algw.py:312-319 | applying the empty substitution leaves an environment unchanged |
| Environments.Remove | src/algw.py:321-327 | removing `x` drops exactly that binding and keeps every other one |
| Environments.Added | src/algw.py:329-333 | adding binds `x` to the given scheme, keeps every other binding and adds no other variable |
| Environments.Add | src/algw.py:329-333 | the copy-then-assign code returns exactly `Added(env, x, sc)` |
| Environments.AddAfterRemove | src/algw.py:48-49 | removing `x` and then adding it is the same as adding it directly |
| Environments.Generalize | src/algw.py:335-341 | the scheme quantifies exactly `ftv(t) - ftv(env)` over `t`, so its free variables are the variables of `t` that are free in the environment |
| Environments.GeneralizeAddsNoFreeVariable | src/algw.py:335-341 | binding a name to a generalized scheme adds no free variable to the environment |
| Names.NatToStringInjective | src/algw.py:359 | distinct counter values have distinct decimal renderings |
| Names.FreshNameInjective | src/algw.py:357-361 | distinct counter values give distinct names `tv_<n>` |
| Names.SmallFreshNames | src/algw.py:359 | the first counter values give the names `tv_0` to `tv_5` |
| Inference.TypeInference.constructor | src/algw.py:354-355 | a new counter starts at 0 |
| Inference.TypeInference.NewTypeVar | src/algw.py:357-361 | returns `tv_<next>` for the old counter value and advances the counter by exactly one |
| Inference.FreshRenamingFor | src/algw.py:273-276 | the loop binds every bound variable, and only those, to pairwise distinct fresh names numbered from the old counter on, and advances the counter by their number |
| Schemes.RenamingGivesInstance | src/algw.py:273-277 | applying such a renaming to the scheme's type gives an instance of the scheme |
| Inference.Instantiate | src/algw.py:264-277 | consumes exactly as many fresh names as it has bound variables and returns the scheme's type with its bound variables renamed injectively to those names |
| Unification.VarBind | src/algw.py:387-399 | `TVar n` itself gives `{}`; fails exactly when `t` is not `TVar n` but mentions `n`, and then with an occurs-check failure on `n` and `t`; on success binds at most `n`, only to variables of `t` |
| Unification.VarBindUnifies | src/algw.py:395-399 | binding `n` to `t` other than `TVar n` gives `{n: t}`, and every successful binding makes `TVar n` and `t` equal |
| Unification.UnifyAsWritten | src/algw.py:363-385 | the unifier as written; its result binds only variables of the inputs, to types over those variables |
| Unification.MostGeneralUnifier | src/algw.py:363-385 | the unifier with the composition corrected; its result binds only variables of the inputs, to types over those variables |
| Unification.UnifierSound | src/algw.py:363-368 | every substitution the corrected unifier returns makes the two types equal |
| Unification.ShallowUnifierSound | src/algw.py:376-385 | outside the function case the code as written and the corrected unifier agree; Int/Int and Float/Float give `{}`, any other pair of non-variables that are not both functions fails with a unification failure, and a success in a variable case equalises the two sides |
| Unification.UnifierReflexive | src/algw.py:363-385 | under the unifier as written, every type unifies with itself by the empty substitution |
| Unification.UnifierClaimFails | src/algw.py:363-375 | the code as written unifies `a -> b` with `b -> Int` to `{a: b, b: Int}`, which leaves the two sides unequal |
| Unification.CorrectedUnifierExample | src/algw.py:363-375 | the corrected unifier unifies the same pair to `{a: Int, b: Int}`, which rewrites both sides to `Int -> Int` |
| Unification.OccursCheckExample | src/algw.py:396-398 | under the unifier as written, unifying `a` with `a -> Int` fails the occurs check |
| Unification.FunctionAgainstBaseFails | src/algw.py:369-385 | under the unifier as written, a function type never unifies with `Int`, in either order |
| Inference.GetType | src/algw.py:32-33 | dispatches on the expression form. A literal gives `({}, Int)` or `({}, Float)` and leaves the counter alone. Every form satisfies the typing relation |
| Inference.GetTypeVar | src/algw.py:14-22 | a name missing from the environment gives an unbound-variable error; otherwise it gives `{}` and an instance of the name's scheme, after consuming one fresh name per bound variable |
| Inference.GetTypeAbs | src/algw.py:44-57 | mints a fresh variable for the parameter and binds it monomorphically, replacing any earlier binding; the result is the body's substitution and `TFunc(tv.apply(sub1), type1)` |
| Inference.GetTypeApp | src/algw.py:68-95 | mints the result variable first, types the function, then the argument in the rewritten environment, unifies with the unifier as written, and returns `compose(sub3, compose(sub2, sub1))` with `tv` rewritten by `sub3`; each error is passed on |
| Inference.GetTypeLet | src/algw.py:108-127 | binds the name to the bound expression's type, generalized in the rewritten environment, types the body in that environment rewritten by `sub1`, and returns `compose(sub1, sub2)`; each error is passed on |
| Inference.InferType | src/algw.py:402-409 | starts a counter at 0, types the expression, and returns the final substitution applied to the final type |
| InferenceFacts.CounterGrows | src/algw.py:14-127 | typing never moves the counter backwards |
| InferenceFacts.MonomorphicVariable | src/algw.py:14-21 | a variable bound to a scheme that quantifies nothing gets exactly that type, with `{}`, and consumes no fresh name |
| InferenceFacts.IdentityAbstraction | src/algw.py:44-57 | `\x. x` has type `tv -> tv` for the one fresh variable it consumes, in every environment |
| InferenceFacts.IdentitySchemeInstance | src/algw.py:264-277 | instantiating `forall a. a -> a` with the counter at `n` gives `tv_n -> tv_n` |
| InferenceFacts.GeneralizeInEmpty | src/algw.py:335-341 | in the empty environment generalization quantifies every variable |
| InferenceFacts.LetBodyEnvWithoutSubstitution | src/algw.py:117-123 | when the bound expression's substitution is `{}`, the body's environment is the old one with the name bound to its generalized type |
| InferenceFacts.LetIdentityJudgment | src/algw.py:108-127 | `let f = \y. y in f` in the empty environment gives `{}` and `tv_{n+1} -> tv_{n+1}` |
| InferenceFacts.InferLetIdentity | src/algw.py:402-409 | `infer_type` of `let f = \y. y in f` is `tv_1 -> tv_1`, for every pair of names |
| InferenceFacts.LetIdentityExample | src/algw.py:413-415 | the first demonstration program `let id = \x. x in id` infers `tv_1 -> tv_1` |
| InferenceFacts.UnboundVariableExample | src/algw.py:14-22 | `inc` in the empty environment is an unbound variable |
| InferenceFacts.LiteralApplicationFails | src/algw.py:68-95 | applying any literal to any literal fails to unify the first literal's type with `argument -> tv_0` |
| InferenceFacts.AppAsWrittenExample | src/algw.py:87-95 | `f g` with `f : a -> a` and `g : b` unifies, as written, to `{a: b, b: tv_0}` and gets that substitution and the type `tv_0` |
| InferenceFacts.NonFunctionApplicationExample | src/algw.py:68-95 | applying the literal `1` to `2` fails to unify `Int` with `Int -> tv_0` |

## Findings

| source | as written | input that shows it | evidently intended | confidence | as-written member | corrected member |
|---|---|---|---|---|---|---|
| src/algw.py:363-375 | in the function case, `most_general_unifier` returns `compose_subs(s1, s2)`, which applies the right-side unifier `s2` before the left-side unifier `s1` | `a -> b` against `b -> Int` gives `{a: b, b: Int}`, which rewrites the sides to `b -> Int` and `Int -> Int` | `compose_subs(s2, s1)`, whose result makes both sides equal, as the doc-comment at lines 364-367 promises | not executed; high | Unification.UnifyAsWritten, Unification.UnifierClaimFails | Unification.MostGeneralUnifier, Unification.UnifierSound, Unification.CorrectedUnifierExample |

## Left out

- `main` and its `print` calls (lines 412-463) are a demonstration driver doing I/O. Its first program appears as a fact (`InferenceFacts.LetIdentityExample`). The others are not worked through.
- `show`, `__str__` and `__repr__` render text only and are not modelled.
- The runtime `isinstance` guards at lines 204-207 and 393-394 cannot fail on Dafny's typed values.
- `TInt` and `TFloat` have no `__eq__` in the source, so Python compares them by identity. The model compares all types structurally. Inference itself never compares these types.
- The float payload of `LFloat` (lines 142-144) is dropped, since it never affects typing; `LInt` keeps its integer.
- `TypeEnv`'s `__contains__` and `__getitem__` (lines 343-347) are map membership and indexing in the model.
- `infer_type`'s default `starting_env` (lines 403-404) is not modelled. The caller passes the environment, which may be `map[]`.
- Type-variable names are strings, as in the source. A user-written `tv_3` can therefore collide with a generated name, just as it can in Python.
- Inference.Instantiate: the order in which the set of bound variables is walked is left open. Its contract says which names are used, not which bound variable gets which name.
- Unification.MostGeneralUnifier: most-generality is not proved. The model proves the shape of the result and its soundness only.
- Unification.UnifyAsWritten: its doc-comment promise is proved only for the variable and base cases (`Unification.ShallowUnifierSound`), because in general it fails (`Unification.UnifierClaimFails`).
