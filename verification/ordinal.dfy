/** `getOrdinalSuffix` of js/main.js: the English suffix printed after a
    position ("1st", "22nd", "103rd", "112th"). */
module Ordinal {

  /** Integer division truncated toward zero, the quotient JavaScript's `%`
      is defined against. */
  function TruncDiv(a: int, b: int): int
    requires b > 0
  {
    if a >= 0 then a / b else -((-a) / b)
  }

  /** JavaScript's `a % b`: the quotient is truncated toward zero, so the
      remainder has the sign of the dividend (Dafny's `%` never is negative). */
  function JsRem(a: int, b: int): (r: int)
    requires b > 0
    ensures a == b * TruncDiv(a, b) + r
    ensures -b < r < b
    ensures a >= 0 ==> r >= 0
    ensures a < 0 ==> r <= 0
  {
    if a >= 0 then a % b else -((-a) % b)
  }

  const Suffixes: set<string> := {"st", "nd", "rd", "th"}

  function Suffix(num: int): (r: string)
    ensures r in Suffixes
  {
    var j := JsRem(num, 10);
    var k := JsRem(num, 100);
    if j == 1 && k != 11 then "st"
    else if j == 2 && k != 12 then "nd"
    else if j == 3 && k != 13 then "rd"
    else "th"
  }

  /** The usual English rule, stated on the last two digits: the teens take
      "th", otherwise the last digit 1, 2, 3 picks "st", "nd", "rd" and every
      other digit "th". */
  function EnglishSuffix(n: nat): string {
    var tens := n % 100;
    if 11 <= tens <= 13 then "th"
    else if tens % 10 == 1 then "st"
    else if tens % 10 == 2 then "nd"
    else if tens % 10 == 3 then "rd"
    else "th"
  }

  /** The last digit of a number is the last digit of its last two digits. */
  lemma LastDigitOfLastTwo(n: nat)
    ensures n % 10 == (n % 100) % 10
  {
    var q := n / 100;
    var t := n % 100;
    assert n == 100 * q + t;
    assert n == 10 * (10 * q + t / 10) + t % 10;
  }

  /** For every non-negative number the code follows the English rule. */
  lemma SuffixFollowsEnglishRule(n: nat)
    ensures Suffix(n) == EnglishSuffix(n)
  {
    LastDigitOfLastTwo(n);
  }

  /** Only the last two digits matter: the suffix repeats every hundred. */
  lemma SuffixPeriodic(n: nat)
    ensures Suffix(n + 100) == Suffix(n)
    ensures Suffix(n) == Suffix(n % 100)
  {
    SuffixFollowsEnglishRule(n);
    SuffixFollowsEnglishRule(n + 100);
    SuffixFollowsEnglishRule(n % 100);
    assert (n + 100) % 100 == n % 100;
  }

  /** A negative number has a non-positive remainder, so it always takes "th"
      (-1 is "-1th", not "-1st"). */
  lemma NegativeTakesTh(n: int)
    requires n < 0
    ensures Suffix(n) == "th"
  {
  }

  lemma SuffixExamples()
    ensures Suffix(1) == "st" && Suffix(2) == "nd" && Suffix(3) == "rd" && Suffix(4) == "th"
    ensures Suffix(11) == "th" && Suffix(12) == "th" && Suffix(13) == "th"
    ensures Suffix(22) == "nd" && Suffix(103) == "rd" && Suffix(112) == "th" && Suffix(0) == "th"
  {
  }
}
