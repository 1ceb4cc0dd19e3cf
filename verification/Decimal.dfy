/** Decimal text, as std::to_string writes it and std::stoull reads it back. */
module Decimal {
  import opened Base

  predicate IsDigit(c: char) { '0' <= c <= '9' }

  function ToString(n: nat): (s: string)
    ensures s != [] && forall i :: 0 <= i < |s| ==> IsDigit(s[i])
  {
    var d := '0' + (n % 10) as char;
    if n < 10 then [d] else ToString(n / 10) + [d]
  }

  /** The value of a string of digits, None for anything else. */
  function Parse(s: string): Option<nat> {
    if s == [] || !IsDigit(s[|s| - 1]) then None
    else
      var d := (s[|s| - 1] - '0') as int;
      if |s| == 1 then Some(d)
      else
        match Parse(s[..|s| - 1])
        case None => None
        case Some(high) => Some(10 * high + d)
  }

  lemma {:induction false} ParseToString(n: nat)
    ensures Parse(ToString(n)) == Some(n)
  {
    var s := ToString(n);
    if n >= 10 {
      ParseToString(n / 10);
      assert s[..|s| - 1] == ToString(n / 10);
    }
  }

  lemma {:induction false} DecimalExamples()
    ensures ToString(0) == "0" && ToString(10) == "10" && ToString(407) == "407"
  {
    assert ToString(1) == "1" && ToString(4) == "4";
    assert ToString(40) == "40";
  }

  lemma {:induction false} ToStringInjective(m: nat, n: nat)
    requires ToString(m) == ToString(n)
    ensures m == n
  {
    ParseToString(m);
    ParseToString(n);
  }
}
