/** Composition of substitutions (`compose_subs`). */
module Substitutions {
  import opened Types

  /** `Compose(s1, s2)` keeps every binding of `s1` and adds every binding of
      `s2` with `s1` applied to its type; on a key both bind, `s2`'s binding
      (rewritten by `s1`) wins. */
  function Compose(s1: Sub, s2: Sub): (r: Sub)
    ensures r.Keys == s1.Keys + s2.Keys
    ensures forall v :: v in s2 ==> r[v] == Apply(s2[v], s1)
    ensures forall v :: v in s1 && v !in s2 ==> r[v] == s1[v]
  {
    map v | v in s1.Keys + s2.Keys :: if v in s2 then Apply(s2[v], s1) else s1[v]
  }

  /** The loop of `compose_subs`: start from a copy of `s1`, then overwrite
      each key of `s2` with its binding rewritten by `s1`. */
  method ComposeSubs(s1: Sub, s2: Sub) returns (out: Sub)
    ensures out == Compose(s1, s2)
  {
    out := s1;
    var todo := s2.Keys;
    while todo != {}
      invariant todo <= s2.Keys
      invariant out.Keys == s1.Keys + (s2.Keys - todo)
      invariant forall v :: v in out ==> out[v] == if v in s2 && v !in todo then Apply(s2[v], s1) else s1[v]
      decreases todo
    {
      var v :| v in todo;
      out := out[v := Apply(s2[v], s1)];
      todo := todo - {v};
    }
  }

  /** Applying `Compose(s1, s2)` is applying `s2` first and then `s1`. */
  lemma {:induction false} ComposeApply(t: Type, s1: Sub, s2: Sub)
    ensures Apply(t, Compose(s1, s2)) == Apply(Apply(t, s2), s1)
  {
    match t
    case TFunc(l, r) => ComposeApply(l, s1, s2); ComposeApply(r, s1, s2);
    case _ =>
  }

  /** Composing with the empty substitution on the outside changes nothing. */
  lemma ComposeEmptyLeft(s: Sub)
    ensures Compose(map[], s) == s
  {
    forall v | v in s ensures Compose(map[], s)[v] == s[v] {
      ApplyEmpty(s[v]);
    }
  }

  /** Composing with the empty substitution on the inside changes nothing. */
  lemma ComposeEmptyRight(s: Sub)
    ensures Compose(s, map[]) == s
  {
  }

  /** The order of composition matters: with `s1 = {a: b}` and `s2 = {b: Int}`,
      `Compose(s1, s2)` sends `a` to `b` while `Compose(s2, s1)` sends it to `Int`. */
  lemma ComposeOrderMatters()
    ensures var s1, s2 := map["a" := TVar("b")], map["b" := TInt];
            Apply(TVar("a"), Compose(s1, s2)) == TVar("b") &&
            Apply(TVar("a"), Compose(s2, s1)) == TInt
  {
  }
}
