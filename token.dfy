/**
 * The request token both security helpers generate: every random 64-bit
 * value is written out in base 24, least significant digit first, over the
 * alphabet "0123456789ABCDEFGHIJKLMN", until the token has its length.
 */
module Tokens {
  import opened Text

  /** The 24 characters a token is made of; a character's position is its digit value. */
  const Alphabet := "0123456789ABCDEFGHIJKLMN"

  /** The length every caller asks for. */
  const DefaultLength := 52

  /** The value `BitConverter.ToUInt64` reads from eight random bytes. */
  type UInt64 = x: int | 0 <= x < 0x1_0000_0000_0000_0000

  /** The base-24 digits of v, least significant first; none at all for 0. */
  function Digits(v: nat): (r: string)
    ensures v == 0 <==> r == []
    ensures forall c :: c in r ==> c in Alphabet
    decreases v
  {
    if v == 0 then [] else [Alphabet[v % 24]] + Digits(v / 24)
  }

  /** The digit value of an alphabet character. */
  function DigitOf(c: char): (d: nat)
    ensures c in Alphabet ==> d < 24 && Alphabet[d] == c
  {
    if '0' <= c <= '9' then c as int - '0' as int
    else if 'A' <= c <= 'N' then c as int - 'A' as int + 10
    else 0
  }

  /** Each digit reads back as its own value. */
  lemma DigitOfAlphabet(d: nat)
    requires d < 24
    ensures DigitOf(Alphabet[d]) == d
  {
  }

  /** The number a least-significant-first digit string stands for. */
  function DigitsValue(s: string): nat {
    if s == [] then 0 else DigitOf(s[0]) + 24 * DigitsValue(s[1..])
  }

  /** Reading the digits back gives the value: the digit expansion loses nothing. */
  lemma {:induction false} DigitsRoundTrip(v: nat)
    ensures DigitsValue(Digits(v)) == v
    decreases v
  {
    if v > 0 {
      DigitsRoundTrip(v / 24);
      var r := Digits(v);
      assert r[0] == Alphabet[v % 24] && r[1..] == Digits(v / 24);
      DigitOfAlphabet(v % 24);
    }
  }

  /** The most significant digit, written last, is never '0'. */
  lemma {:induction false} DigitsEndNonZero(v: nat)
    requires v > 0
    ensures Digits(v)[|Digits(v)| - 1] != '0'
    decreases v
  {
    if v / 24 > 0 {
      DigitsEndNonZero(v / 24);
    }
  }

  /** 24 to the n. */
  function Power24(n: nat): nat {
    if n == 0 then 1 else 24 * Power24(n - 1)
  }

  /** The number of digits of a value below 24^n is at most n. */
  lemma {:induction false} DigitsLength(v: nat, n: nat, bound: nat)
    requires bound == Power24(n) && v < bound
    ensures |Digits(v)| <= n
    decreases n
  {
    if v > 0 {
      assert n > 0;
      DigitsLength(v / 24, n - 1, Power24(n - 1));
    }
  }

  /** One 64-bit value gives at most 14 characters, so a 52-character token takes at least four values. */
  lemma DrawDigits(v: UInt64)
    ensures |Digits(v)| <= 14
  {
    assert Power24(14) == 21035720123168587776;
    DigitsLength(v, 14, Power24(14));
  }

  /** Everything the values emit, in draw order. */
  function Emitted(draws: seq<UInt64>): (r: string)
    ensures forall c :: c in r ==> c in Alphabet
  {
    if draws == [] then [] else Emitted(draws[..|draws| - 1]) + Digits(draws[|draws| - 1])
  }

  /** What the first k values emit is the start of what all of them emit. */
  lemma {:induction false} EmittedPrefix(draws: seq<UInt64>, k: nat)
    requires k <= |draws|
    ensures Emitted(draws[..k]) <= Emitted(draws)
    decreases |draws| - k
  {
    if k < |draws| {
      EmittedPrefix(draws, k + 1);
      assert draws[..k + 1][..k] == draws[..k];
    } else {
      assert draws[..k] == draws;
    }
  }

  /**
   * `GenerateToken(length)`: the first `length` characters the random values
   * emit. The values are the generator's draws, given in the order they are
   * drawn; there must be enough of them to fill the token.
   */
  method GenerateToken(length: nat, draws: seq<UInt64>) returns (token: string)
    requires length <= |Emitted(draws)|
    ensures token == Emitted(draws)[..length]
  {
    var sb := "";
    var k := 0;
    assert draws[..|draws|] == draws;
    while |sb| < length
      invariant k <= |draws|
      invariant |sb| <= length
      invariant sb <= Emitted(draws[..k])
      invariant |sb| < length ==> sb == Emitted(draws[..k])
      decreases |draws| - k
    {
      assert k < |draws|;
      ghost var emitted := Emitted(draws[..k]) + Digits(draws[k]);
      assert draws[..k + 1][..k] == draws[..k];
      assert Emitted(draws[..k + 1]) == emitted;
      sb := AppendDigits(sb, draws[k], length);
      assert sb <= emitted;
      k := k + 1;
    }
    EmittedPrefix(draws, k);
    token := sb;
  }

  /** The inner loop of `GenerateToken`: one value's digits, appended until the token is full. */
  method AppendDigits(sb: string, v: nat, length: nat) returns (out: string)
    requires |sb| <= length
    ensures sb <= out && |out| <= length && out <= sb + Digits(v)
    ensures |out| < length ==> out == sb + Digits(v)
  {
    out := sb;
    var value := v;
    while value > 0 && |out| < length
      invariant sb <= out && |out| <= length
      invariant out + Digits(value) == sb + Digits(v)
      decreases value
    {
      assert Digits(value) == [Alphabet[value % 24]] + Digits(value / 24);
      out := out + [Alphabet[value % 24]];
      value := value / 24;
    }
  }

  /** A token has the length asked for and only alphabet characters. */
  lemma TokenShape(length: nat, draws: seq<UInt64>)
    requires length <= |Emitted(draws)|
    ensures |Emitted(draws)[..length]| == length
    ensures forall i :: 0 <= i < length ==> Emitted(draws)[..length][i] in Alphabet
  {
    forall i | 0 <= i < length ensures Emitted(draws)[..length][i] in Alphabet {
      assert Emitted(draws)[..length][i] == Emitted(draws)[i];
    }
  }

  /** A zero value emits nothing: the token is as if it had not been drawn. */
  lemma ZeroDrawEmitsNothing(draws: seq<UInt64>, i: nat)
    requires i < |draws| && draws[i] == 0
    ensures Emitted(draws) == Emitted(draws[..i] + draws[i + 1..])
  {
    var before, after := draws[..i], draws[i + 1..];
    var upto := draws[..i + 1];
    assert upto[..|upto| - 1] == before && upto[|upto| - 1] == 0;
    assert Emitted(upto) == Emitted(before) + Digits(0);
    assert Emitted(before) + Digits(0) == Emitted(before);
    assert upto + after == draws;
    EmittedAppend(upto, after);
    EmittedAppend(before, after);
  }

  /** The values' emissions concatenate. */
  lemma {:induction false} EmittedAppend(a: seq<UInt64>, b: seq<UInt64>)
    ensures Emitted(a + b) == Emitted(a) + Emitted(b)
    decreases |b|
  {
    if b == [] {
      assert a + b == a;
    } else {
      var b', last := b[..|b| - 1], b[|b| - 1];
      assert (a + b)[..|a + b| - 1] == a + b' && (a + b)[|a + b| - 1] == last;
      assert Emitted(a + b) == Emitted(a + b') + Digits(last);
      EmittedAppend(a, b');
      assert (Emitted(a) + Emitted(b')) + Digits(last) == Emitted(a) + (Emitted(b') + Digits(last));
    }
  }
}
