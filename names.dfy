/** Fresh type-variable names: `tv_` followed by the decimal rendering of the
    inference counter. */
module Names {

  /** The decimal digit `d` as a character. */
  function DigitChar(d: nat): char
    requires d < 10
  {
    "0123456789"[d]
  }

  /** The decimal rendering of `n`, without leading zeros. */
  function NatToString(n: nat): (r: string)
    ensures |r| >= 1
    ensures n >= 10 ==> |r| >= 2
    ensures r[|r| - 1] == DigitChar(n % 10)
  {
    if n < 10 then [DigitChar(n)] else NatToString(n / 10) + [DigitChar(n % 10)]
  }

  /** The name the counter value `n` produces. */
  function FreshName(n: nat): string
  {
    "tv_" + NatToString(n)
  }

  lemma DigitCharInjective(a: nat, b: nat)
    requires a < 10 && b < 10 && DigitChar(a) == DigitChar(b)
    ensures a == b
  {
  }

  /** Distinct numbers have distinct decimal renderings. */
  lemma {:induction false} NatToStringInjective(a: nat, b: nat)
    requires NatToString(a) == NatToString(b)
    ensures a == b
  {
    var sa, sb := NatToString(a), NatToString(b);
    if a < 10 && b < 10 {
      DigitCharInjective(a, b);
    } else if a >= 10 && b >= 10 {
      var qa, qb := a / 10, b / 10;
      var da, db := a % 10, b % 10;
      assert sa == NatToString(qa) + [DigitChar(da)];
      assert sb == NatToString(qb) + [DigitChar(db)];
      assert DigitChar(da) == sa[|sa| - 1] == sb[|sb| - 1] == DigitChar(db);
      DigitCharInjective(da, db);
      assert NatToString(qa) == sa[..|sa| - 1] == sb[..|sb| - 1] == NatToString(qb);
      NatToStringInjective(qa, qb);
      assert a == 10 * qa + da && b == 10 * qb + db;
    }
  }

  /** Successive counter values give pairwise distinct names. */
  lemma FreshNameInjective(a: nat, b: nat)
    requires a != b
    ensures FreshName(a) != FreshName(b)
  {
    if FreshName(a) == FreshName(b) {
      assert NatToString(a) == FreshName(a)[3..] == FreshName(b)[3..] == NatToString(b);
      NatToStringInjective(a, b);
    }
  }

  /** The first few fresh names, spelled out. */
  lemma SmallFreshNames()
    ensures FreshName(0) == "tv_0" && FreshName(1) == "tv_1" && FreshName(2) == "tv_2"
    ensures FreshName(3) == "tv_3" && FreshName(4) == "tv_4" && FreshName(5) == "tv_5"
  {
  }
}
