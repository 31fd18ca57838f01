/** Type schemes: a type quantified over a set of bound type variables. */
module Schemes {
  import opened Types
  import opened Names

  /** `Scheme(bound, t)` stands for "for all `bound`, `t`". */
  datatype Scheme = Scheme(bound: set<string>, t: Type)

  /** The free variables of a scheme: those of its type that it does not bind. */
  function SchemeFtv(sc: Scheme): set<string>
  {
    Ftv(sc.t) - sc.bound
  }

  /** `s` with the bindings of the variables in `bound` dropped. */
  function WithoutBound(s: Sub, bound: set<string>): (r: Sub)
    ensures r.Keys == s.Keys - bound
  {
    map v | v in s && v !in bound :: s[v]
  }

  /** Applies `s` to the scheme's type, skipping the bound variables. */
  function SchemeApply(sc: Scheme, s: Sub): (r: Scheme)
    ensures r.bound == sc.bound
  {
    Scheme(sc.bound, Apply(sc.t, WithoutBound(s, sc.bound)))
  }

  /** Applying the empty substitution leaves a scheme unchanged. */
  lemma SchemeApplyEmpty(sc: Scheme)
    ensures SchemeApply(sc, map[]) == sc
  {
    assert WithoutBound(map[], sc.bound) == map[];
    ApplyEmpty(sc.t);
  }

  /** A binding for a bound variable has no effect on the scheme. */
  lemma SchemeApplyIgnoresBound(sc: Scheme, s: Sub, v: string, u: Type)
    requires v in sc.bound
    ensures SchemeApply(sc, s[v := u]) == SchemeApply(sc, s)
  {
    assert WithoutBound(s[v := u], sc.bound) == WithoutBound(s, sc.bound);
  }

  /** A substitution that binds none of the scheme's free variables leaves the
      scheme unchanged. */
  lemma SchemeApplyOnlyFree(sc: Scheme, s: Sub)
    requires forall v :: v in s ==> v !in SchemeFtv(sc)
    ensures SchemeApply(sc, s) == sc
  {
    ApplyFresh(sc.t, WithoutBound(s, sc.bound));
  }

  /** `ren` maps its keys to pairwise distinct fresh variables numbered from
      `n0` to `n0 + |ren| - 1`. */
  ghost predicate FreshRenaming(ren: Sub, n0: nat)
  {
    && (forall v :: v in ren ==> exists k :: n0 <= k < n0 + |ren| && ren[v] == TVar(FreshName(k)))
    && (forall v, w :: v in ren && w in ren && v != w ==> ren[v] != ren[w])
  }

  /** Binding one more key to the next fresh name keeps a fresh renaming. */
  lemma FreshRenamingExtend(ren: Sub, n0: nat, v: string, name: string)
    requires FreshRenaming(ren, n0) && v !in ren && name == FreshName(n0 + |ren|)
    ensures |ren[v := TVar(name)]| == |ren| + 1
    ensures FreshRenaming(ren[v := TVar(name)], n0)
  {
    var tv := TVar(name);
    var ren' := ren[v := tv];
    forall w | w in ren ensures ren[w] != tv {
      var k :| n0 <= k < n0 + |ren| && ren[w] == TVar(FreshName(k));
      FreshNameInjective(k, n0 + |ren|);
    }
    forall w | w in ren' ensures exists k :: n0 <= k < n0 + |ren'| && ren'[w] == TVar(FreshName(k)) {
      if w != v {
        var k :| n0 <= k < n0 + |ren| && ren[w] == TVar(FreshName(k));
        assert ren'[w] == TVar(FreshName(k));
      }
    }
  }

  /** One step of instantiation: binding a not-yet-renamed variable `v` to
      the next fresh name keeps a fresh renaming of the variables done. */
  lemma RenamingStep(bound: set<string>, todo: set<string>, ren: Sub, n0: nat, v: string, name: string)
    requires todo <= bound && ren.Keys == bound - todo && FreshRenaming(ren, n0)
    requires v in todo && name == FreshName(n0 + |ren|)
    ensures todo - {v} <= bound && ren[v := TVar(name)].Keys == bound - (todo - {v})
    ensures |ren[v := TVar(name)]| == |ren| + 1
    ensures FreshRenaming(ren[v := TVar(name)], n0)
  {
    FreshRenamingExtend(ren, n0, v, name);
  }

  /** A fresh renaming of a single variable uses exactly the next name. */
  lemma SingletonRenaming(ren: Sub, n0: nat, a: string)
    requires ren.Keys == {a} && FreshRenaming(ren, n0)
    ensures ren == map[a := TVar(FreshName(n0))]
  {
    assert |ren| == |ren.Keys| == 1;
    assert a in ren;
    var k :| n0 <= k < n0 + 1 && ren[a] == TVar(FreshName(k));
    assert ren[a] == TVar(FreshName(n0));
  }

  /** `t` is what `instantiate` may return for `sc` when the counter starts at
      `n0`: the bound variables renamed to the next `|sc.bound|` fresh names,
      in an unspecified order. */
  ghost predicate IsInstance(sc: Scheme, t: Type, n0: nat)
  {
    exists ren: Sub :: ren.Keys == sc.bound && FreshRenaming(ren, n0) && t == Apply(sc.t, ren)
  }

  /** Renaming all bound variables by a fresh renaming gives an instance, and
      consumes one name per bound variable. */
  lemma RenamingGivesInstance(sc: Scheme, ren: Sub, n0: nat)
    requires ren.Keys == sc.bound && FreshRenaming(ren, n0)
    ensures |ren| == |sc.bound|
    ensures IsInstance(sc, Apply(sc.t, ren), n0)
  {
    assert |ren| == |ren.Keys|;
  }

  /** A scheme that binds nothing has its own type as its only instance. */
  lemma InstanceOfMonotype(sc: Scheme, t: Type, n0: nat)
    requires sc.bound == {} && IsInstance(sc, t, n0)
    ensures t == sc.t
  {
    var ren: Sub :| ren.Keys == sc.bound && FreshRenaming(ren, n0) && t == Apply(sc.t, ren);
    assert ren == map[];
    ApplyEmpty(sc.t);
  }

  /** A scheme that binds one variable has exactly one instance for each
      counter value: that variable renamed to the next fresh name. */
  lemma InstanceOfSingleton(sc: Scheme, a: string, t: Type, n0: nat)
    requires sc.bound == {a} && IsInstance(sc, t, n0)
    ensures t == Apply(sc.t, map[a := TVar(FreshName(n0))])
  {
    var ren: Sub :| ren.Keys == sc.bound && FreshRenaming(ren, n0) && t == Apply(sc.t, ren);
    SingletonRenaming(ren, n0, a);
  }

  /** A variable of a renamed type is either a variable of the original type
      that the renaming leaves alone, or one of the renaming's fresh names. */
  lemma RenamedFtv(t: Type, ren: Sub, n0: nat, y: string)
    requires FreshRenaming(ren, n0) && y in Ftv(Apply(t, ren))
    ensures (y in Ftv(t) && y !in ren) || exists k :: n0 <= k < n0 + |ren| && y == FreshName(k)
  {
    ApplyFtv(t, ren, y);
    if !(y in Ftv(t) && y !in ren) {
      var v :| v in Ftv(t) && v in ren && y in Ftv(ren[v]);
      var k :| n0 <= k < n0 + |ren| && ren[v] == TVar(FreshName(k));
      assert y == FreshName(k);
    }
  }

  /** An instance mentions only the scheme's free variables and the fresh
      names consumed by the instantiation. */
  lemma InstanceFtv(sc: Scheme, t: Type, n0: nat, y: string)
    requires IsInstance(sc, t, n0) && y in Ftv(t)
    ensures y in SchemeFtv(sc) || exists k :: n0 <= k < n0 + |sc.bound| && y == FreshName(k)
  {
    var ren: Sub :| ren.Keys == sc.bound && FreshRenaming(ren, n0) && t == Apply(sc.t, ren);
    assert |ren| == |ren.Keys| == |sc.bound|;
    RenamedFtv(sc.t, ren, n0, y);
  }
}
