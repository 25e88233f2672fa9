/**
 * The synthetic identifier under which a node's output is bound inside a
 * dependent formula: "id" followed by the decimal form of the node id
 * (`format!("id{}", node.id)` in the evaluators).
 */
module Names {

  /** The character of a decimal digit. */
  function Digit(d: nat): (c: char)
    requires d < 10
    ensures '0' <= c <= '9'
  {
    "0123456789"[d]
  }

  /** True when every character of `s` is a decimal digit. */
  predicate AllDigits(s: string) {
    forall k :: 0 <= k < |s| ==> '0' <= s[k] <= '9'
  }

  /** The decimal form of a natural number, most significant digit first, without leading zeros. */
  function NatDecimal(n: nat): (s: string)
    ensures |s| >= 1 && AllDigits(s)
    ensures |s| == 1 <==> n < 10
  {
    if n < 10 then [Digit(n)] else NatDecimal(n / 10) + [Digit(n % 10)]
  }

  /** The decimal form of an integer, with a leading '-' when it is negative. */
  function IntDecimal(i: int): string {
    if i < 0 then "-" + NatDecimal(-i) else NatDecimal(i)
  }

  /** The name a formula uses to refer to the output of the input node `id`. */
  function IdName(id: int): string {
    "id" + IntDecimal(id)
  }

  lemma DigitInjective(a: nat, b: nat)
    requires a < 10 && b < 10
    ensures Digit(a) == Digit(b) ==> a == b
  {
  }

  /** Different natural numbers have different decimal forms. */
  lemma {:induction false} NatDecimalInjective(a: nat, b: nat)
    ensures NatDecimal(a) == NatDecimal(b) <==> a == b
  {
    if NatDecimal(a) == NatDecimal(b) {
      if a < 10 || b < 10 {
        DigitInjective(a, b);
      } else {
        var sa, sb := NatDecimal(a), NatDecimal(b);
        assert sa[..|sa| - 1] == NatDecimal(a / 10);
        assert sb[..|sb| - 1] == NatDecimal(b / 10);
        NatDecimalInjective(a / 10, b / 10);
        DigitInjective(a % 10, b % 10);
      }
    }
  }

  /** The decimal form of an integer starts with '-' exactly when the integer is negative. */
  lemma SignFirst(i: int)
    ensures |IntDecimal(i)| >= 1 && (IntDecimal(i)[0] == '-' <==> i < 0)
  {
    if i >= 0 {
      assert '0' <= NatDecimal(i)[0] <= '9';
    }
  }

  /** Two inputs receive the same binding name exactly when they have the same id. */
  lemma IdNameInjective(a: int, b: int)
    ensures IdName(a) == IdName(b) <==> a == b
  {
    if IdName(a) == IdName(b) {
      var da, db := IntDecimal(a), IntDecimal(b);
      assert da == IdName(a)[2..] && db == IdName(b)[2..];
      SignFirst(a);
      SignFirst(b);
      if a < 0 && b < 0 {
        assert NatDecimal(-a) == da[1..] && NatDecimal(-b) == db[1..];
        NatDecimalInjective(-a, -b);
      } else if a >= 0 && b >= 0 {
        NatDecimalInjective(a, b);
      }
    }
  }

  /** The names bound by the repository's tests. */
  lemma SmallIdNames()
    ensures IdName(0) == "id0" && IdName(1) == "id1" && IdName(2) == "id2" && IdName(3) == "id3"
  {
  }
}
