/** Input checks applied before any request: RUC check digit, document numbers, search text. */
module InputValidators {
  import opened Text

  /** Accepted document type codes: national ID, alien card, passport, diplomatic card. */
  const DocumentTypes: set<string> := {"1", "4", "7", "A"}

  /**
   * `IsAlnum`: length within [min, max] and every character a letter or
   * digit, so no white space, punctuation or form separator.
   */
  function IsAlnum(s: string, min: int, max: int): (b: bool)
    ensures min > max ==> !b
    ensures b ==> min <= |s| <= max
    ensures b ==> forall i :: 0 <= i < |s| ==> !IsWhiteSpace(s[i]) && s[i] !in FormSeparators
    ensures AllDigits(s) && min <= |s| <= max ==> b
  {
    min <= |s| <= max && forall i :: 0 <= i < |s| ==> IsLetterOrDigit(s[i])
  }

  /**
   * `IsValidDocumento`: type "1" takes exactly 8 digits, type "4" 9 to 12
   * letters or digits, types "7" and "A" 6 to 12; any other type is refused.
   */
  function IsValidDocumento(tipdoc: string, num: string): (r: bool)
    ensures tipdoc !in DocumentTypes ==> !r
    ensures r ==> 6 <= |num| <= 12 && forall i :: 0 <= i < |num| ==> IsLetterOrDigit(num[i])
    ensures tipdoc == "1" ==> (r <==> |num| == 8 && AllDigits(num))
    ensures tipdoc == "4" ==> (r <==> IsAlnum(num, 9, 12))
    ensures tipdoc == "7" || tipdoc == "A" ==> (r <==> IsAlnum(num, 6, 12))
  {
    if tipdoc == "1" then |num| == 8 && AllDigits(num)
    else if tipdoc == "4" then IsAlnum(num, 9, 12)
    else if tipdoc == "7" then IsAlnum(num, 6, 12)
    else if tipdoc == "A" then IsAlnum(num, 6, 12)
    else false
  }

  /** Characters that would split or end a form field or a query string. */
  const FormSeparators: set<char> := {'&', '=', ';', '?', '#', '%', '+'}

  /** The weights of the first ten RUC digits. */
  const W: seq<int> := [5, 4, 3, 2, 7, 6, 5, 4, 3, 2]

  /** `c - '0'`. */
  function DigitValue(c: char): int {
    c as int - '0' as int
  }

  /** C#'s `%` on int: the remainder takes the sign of the dividend. */
  function CsRem(a: int, b: int): int
    requires b > 0
  {
    if a >= 0 then a % b else -((-a) % b)
  }

  /** The sum of the first n weighted digit values. */
  function WeightedSum(r: string, n: nat): int
    requires n <= 10 && n <= |r|
  {
    if n == 0 then 0 else WeightedSum(r, n - 1) + DigitValue(r[n - 1]) * W[n - 1]
  }

  /**
   * The check digit the first ten characters call for: a digit value
   * whenever their weighted sum is not negative, and the one that brings the
   * weighted sum to a multiple of 11 when its remainder is 2 or more.
   */
  function CheckDigit(r: string): (d: int)
    requires |r| >= 10
    ensures WeightedSum(r, 10) >= 0 ==> 0 <= d <= 9
    ensures WeightedSum(r, 10) >= 0 && WeightedSum(r, 10) % 11 >= 2 ==> (WeightedSum(r, 10) + d) % 11 == 0
  {
    var m := 11 - CsRem(WeightedSum(r, 10), 11);
    if m == 10 then 0 else if m == 11 then 1 else m
  }

  /** `Chk`: the weighted-sum loop over the first ten characters. */
  method Chk(r: string) returns (d: int)
    requires |r| >= 10
    ensures d == CheckDigit(r)
    ensures AllDigits(r[..10]) ==> 0 <= d <= 9
  {
    var s := 0;
    for i := 0 to 10
      invariant s == WeightedSum(r, i)
    {
      s := s + DigitValue(r[i]) * W[i];
    }
    var m := 11 - CsRem(s, 11);
    d := if m == 10 then 0 else if m == 11 then 1 else m;
    if AllDigits(r[..10]) {
      CheckDigitRange(r);
    }
  }

  /** `IsValidRuc`: eleven digits whose last one is the check digit of the first ten. */
  function IsValidRuc(r: string): (b: bool)
    ensures !(|r| == 11 && AllDigits(r)) ==> !b
    ensures b ==> 0 <= CheckDigit(r) <= 9 && r[10] == ('0' as int + CheckDigit(r)) as char
  {
    |r| == 11 && AllDigits(r) && CheckDigit(r) == DigitValue(r[10])
  }

  /**
   * `IsValidTexto`: 4 to 100 characters, each a letter, a digit, a space,
   * '.', ',' or '-'; so no form separator, and any letters and digits of
   * that length pass.
   */
  function IsValidTexto(t: string): (b: bool)
    ensures b ==> 4 <= |t| <= 100
    ensures b ==> forall i :: 0 <= i < |t| ==> t[i] !in FormSeparators && t[i] != '"' && t[i] != '<'
    ensures 4 <= |t| <= 100 && (forall i :: 0 <= i < |t| ==> IsLetterOrDigit(t[i])) ==> b
  {
    4 <= |t| <= 100 &&
    forall i :: 0 <= i < |t| ==> IsLetterOrDigit(t[i]) || t[i] in {' ', '.', ',', '-'}
  }

  lemma {:induction false} WeightedSumBounds(r: string, n: nat)
    requires n <= 10 && n <= |r|
    requires forall i :: 0 <= i < n ==> IsDigit(r[i])
    ensures 0 <= WeightedSum(r, n) <= 9 * 7 * n
  {
    if n > 0 {
      WeightedSumBounds(r, n - 1);
    }
  }

  /** The weighted sum reads only the first n characters. */
  lemma {:induction false} WeightedSumPrefix(r: string, t: string, n: nat)
    requires n <= 10 && n <= |r| && n <= |t| && r[..n] == t[..n]
    ensures WeightedSum(r, n) == WeightedSum(t, n)
  {
    if n > 0 {
      assert r[n - 1] == r[..n][n - 1] == t[..n][n - 1] == t[n - 1];
      assert r[..n - 1] == r[..n][..n - 1];
      assert t[..n - 1] == t[..n][..n - 1];
      WeightedSumPrefix(r, t, n - 1);
    }
  }

  /** Over digits the check digit is itself a digit value, 0 to 9. */
  lemma CheckDigitRange(r: string)
    requires |r| >= 10 && AllDigits(r[..10])
    ensures 0 <= CheckDigit(r) <= 9
  {
    assert forall i :: 0 <= i < 10 ==> r[i] == r[..10][i];
    WeightedSumBounds(r, 10);
  }

  /**
   * For every ten-digit prefix exactly one final digit makes a valid RUC:
   * the one whose value is the prefix's check digit.
   */
  lemma ExactlyOneCheckDigit(p: string, d: char)
    requires |p| == 10 && AllDigits(p) && IsDigit(d)
    ensures IsValidRuc(p + [d]) <==> DigitValue(d) == CheckDigit(p)
    ensures IsValidRuc(p + [('0' as int + CheckDigit(p)) as char])
  {
    assert p[..10] == p;
    CheckDigitRange(p);
    var c := ('0' as int + CheckDigit(p)) as char;
    forall e: char | IsDigit(e) ensures CheckDigit(p + [e]) == CheckDigit(p) {
      assert (p + [e])[..10] == p[..10];
      WeightedSumPrefix(p + [e], p, 10);
    }
    assert forall i :: 0 <= i < 10 ==> (p + [d])[i] == p[i];
    assert forall i :: 0 <= i < 10 ==> (p + [c])[i] == p[i];
  }

  /**
   * The check digit rule stated as the usual modulus-11 condition: the
   * weighted sum plus the last digit is a multiple of 11, except that a sum
   * leaving remainder 1 takes digit 0 and a sum leaving remainder 0 takes 1.
   */
  lemma RucModulus11(r: string)
    requires |r| == 11 && AllDigits(r)
    ensures var s := WeightedSum(r, 10); var d := DigitValue(r[10]);
      IsValidRuc(r) <==>
        (s % 11 >= 2 && (s + d) % 11 == 0) || (s % 11 == 1 && d == 0) || (s % 11 == 0 && d == 1)
  {
    assert forall i :: 0 <= i < 10 ==> r[i] == r[..10][i];
    WeightedSumBounds(r, 10);
  }
}
