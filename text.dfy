/**
 * Character classes and string operations of .NET that the scraper relies on,
 * restricted to ASCII and Latin-1 (the portal's pages are Latin-1 text).
 */
module Text {
  import opened Wrappers

  /** `char.IsWhiteSpace` on Latin-1: TAB..CR, space, NEL and NO-BREAK SPACE. */
  predicate IsWhiteSpace(c: char) {
    ('\t' <= c <= '\r') || c == ' ' || c == '\U{85}' || c == '\U{A0}'
  }

  /** `char.IsDigit` (and the regex class `\d`) restricted to ASCII digits. */
  predicate IsDigit(c: char) {
    '0' <= c <= '9'
  }

  /** `char.IsLetter` on Latin-1, and on the two letters outside it that Latin-1 letters upper-case to. */
  predicate IsLetter(c: char) {
    ('A' <= c <= 'Z') || ('a' <= c <= 'z') || c == 'ª' || c == 'µ' || c == 'º'
    || ('À' <= c <= 'Ö') || ('Ø' <= c <= 'ö') || ('ø' <= c <= 'ÿ')
    || c == '\U{178}' || c == '\U{39C}'
  }

  predicate IsLetterOrDigit(c: char) {
    IsLetter(c) || IsDigit(c)
  }

  /** The regex word class `\w` on Latin-1. */
  predicate IsWordChar(c: char) {
    IsLetterOrDigit(c) || c == '_'
  }

  /** `char.ToUpperInvariant` on Latin-1. */
  function ToUpperChar(c: char): char
  {
    if 'a' <= c <= 'z' then (c as int - 32) as char
    else if ('à' <= c <= 'þ') && c != '÷' then (c as int - 32) as char
    else if c == 'ÿ' then 'Ÿ'
    else if c == 'µ' then 'Μ'
    else c
  }

  /** `char.ToLowerInvariant` on Latin-1. */
  function ToLowerChar(c: char): char {
    if 'A' <= c <= 'Z' then (c as int + 32) as char
    else if ('À' <= c <= 'Þ') && c != '×' then (c as int + 32) as char
    else c
  }

  /** `string.ToUpper()`, char by char. */
  function ToUpper(s: string): (r: string)
    ensures |r| == |s|
    ensures forall i :: 0 <= i < |s| ==> r[i] == ToUpperChar(s[i])
  {
    seq(|s|, i requires 0 <= i < |s| => ToUpperChar(s[i]))
  }

  /** Character equality under `StringComparison.OrdinalIgnoreCase` and `RegexOptions.IgnoreCase`. */
  predicate SameIgnoringCase(a: char, b: char) {
    ToUpperChar(a) == ToUpperChar(b)
  }

  predicate AllWhiteSpace(s: string) {
    forall i :: 0 <= i < |s| ==> IsWhiteSpace(s[i])
  }

  predicate AllDigits(s: string) {
    forall i :: 0 <= i < |s| ==> IsDigit(s[i])
  }

  /** `string.IsNullOrWhiteSpace`. */
  predicate IsNullOrWhiteSpace(s: Option<string>) {
    s.None? || AllWhiteSpace(s.value)
  }

  /** `string.TrimStart()`: drops the leading white space. */
  function TrimStart(s: string): (r: string)
    ensures |r| <= |s| && r == s[|s| - |r|..]
    ensures r != [] ==> !IsWhiteSpace(r[0])
    ensures forall i :: 0 <= i < |s| - |r| ==> IsWhiteSpace(s[i])
  {
    if s != [] && IsWhiteSpace(s[0]) then TrimStart(s[1..]) else s
  }

  /** `string.TrimEnd()`: drops the trailing white space. */
  function TrimEnd(s: string): (r: string)
    ensures |r| <= |s| && r == s[..|r|]
    ensures r != [] ==> !IsWhiteSpace(r[|r| - 1])
    ensures forall i :: |r| <= i < |s| ==> IsWhiteSpace(s[i])
  {
    if s != [] && IsWhiteSpace(s[|s| - 1]) then TrimEnd(s[..|s| - 1]) else s
  }

  /** No white space at either end. */
  predicate Trimmed(s: string) {
    s != [] ==> !IsWhiteSpace(s[0]) && !IsWhiteSpace(s[|s| - 1])
  }

  /** `string.Trim()`. */
  function Trim(s: string): (r: string)
    ensures |r| <= |s|
    ensures Trimmed(r)
    ensures r == [] <==> AllWhiteSpace(s)
    ensures forall c :: c in r ==> c in s
    ensures s != [] && !IsWhiteSpace(s[0]) ==> r != [] && r[0] == s[0]
  {
    TrimMembers(s);
    TrimEmpty(s);
    TrimFirst(s);
    TrimEnds(s);
    TrimEnd(TrimStart(s))
  }

  /** Both trims leave no white space at either end. */
  lemma TrimEnds(s: string)
    ensures Trimmed(TrimEnd(TrimStart(s)))
  {
    var t := TrimStart(s);
    var r := TrimEnd(t);
    if r != [] {
      assert r[0] == t[0];
    }
  }

  /** Both trims keep the first character when it is not white space. */
  lemma TrimFirst(s: string)
    ensures |TrimEnd(TrimStart(s))| <= |s|
    ensures s != [] && !IsWhiteSpace(s[0]) ==> TrimEnd(TrimStart(s)) != [] && TrimEnd(TrimStart(s))[0] == s[0]
  {
    if s != [] && !IsWhiteSpace(s[0]) {
      assert TrimStart(s) == s;
    }
  }

  /** What both trims keep is a slice of the original. */
  lemma TrimInside(s: string)
    ensures forall i :: 0 <= i < |TrimEnd(TrimStart(s))| ==>
      TrimEnd(TrimStart(s))[i] == s[|s| - |TrimStart(s)| + i]
  {
    var t := TrimStart(s);
    var r := TrimEnd(t);
    assert forall i :: 0 <= i < |r| ==> r[i] == t[i];
  }

  /** Both trims keep only characters of the original. */
  lemma TrimMembers(s: string)
    ensures forall c :: c in TrimEnd(TrimStart(s)) ==> c in s
  {
    var t := TrimStart(s);
    var r := TrimEnd(t);
    TrimInside(s);
    forall c | c in r ensures c in s {
      var i :| 0 <= i < |r| && r[i] == c;
      assert s[|s| - |t| + i] == c;
    }
  }

  /** Both trims together leave nothing exactly when the string is all white space. */
  lemma TrimEmpty(s: string)
    ensures TrimEnd(TrimStart(s)) == [] <==> AllWhiteSpace(s)
  {
    var t := TrimStart(s);
    if AllWhiteSpace(s) {
      assert t == [];
    }
    if TrimEnd(t) == [] {
      assert t == [];
    }
  }

  /** A string with no white space at either end is its own trimmed form. */
  lemma TrimKeeps(s: string)
    requires s != [] && !IsWhiteSpace(s[0]) && !IsWhiteSpace(s[|s| - 1])
    ensures Trim(s) == s
  {
    assert TrimStart(s) == s;
    assert TrimEnd(s) == s;
  }

  /** `string.TrimStart('-', ' ')`: drops leading dashes and spaces only. */
  function TrimDashesAndSpaces(s: string): (r: string)
    ensures |r| <= |s| && r == s[|s| - |r|..]
    ensures r != [] ==> r[0] != '-' && r[0] != ' '
    ensures forall i :: 0 <= i < |s| - |r| ==> s[i] == '-' || s[i] == ' '
  {
    if s != [] && (s[0] == '-' || s[0] == ' ') then TrimDashesAndSpaces(s[1..]) else s
  }

  /** `string.IndexOf(char)`: the first index of `c`, or -1. */
  function IndexOf(s: string, c: char): (r: int)
    ensures -1 <= r < |s|
    ensures r >= 0 ==> s[r] == c && c !in s[..r]
    ensures r >= 0 ==> forall j :: 0 <= j < r ==> s[j] != c
    ensures r == -1 <==> c !in s
  {
    if s == [] then -1
    else if s[0] == c then 0
    else
      var k := IndexOf(s[1..], c);
      assert s == [s[0]] + s[1..];
      if k < 0 then -1 else k + 1
  }

  /** The first occurrence of c is at k exactly when c is at k and not before it. */
  lemma IndexOfAt(s: string, c: char, k: nat)
    requires k < |s| && s[k] == c && c !in s[..k]
    ensures IndexOf(s, c) == k
  {
    assert s[..k + 1][k] == c;
    assert forall j :: 0 <= j < k ==> s[j] == s[..k][j];
  }

  /** `s.Split(c, 2)[0]`: the text before the first `c`, or all of `s`. */
  function BeforeFirst(s: string, c: char): (r: string)
    ensures c !in r
    ensures r == s || (|r| < |s| && s[|r|] == c && r == s[..|r|])
  {
    var k := IndexOf(s, c);
    if k < 0 then s else s[..k]
  }

  /** `s.Split(c, 2).Last()`: the text after the first `c`, or all of `s` when there is none. */
  function AfterFirst(s: string, c: char): (r: string)
    ensures c !in s ==> r == s
    ensures c in s ==> |r| < |s| && r == s[|s| - |r|..] && s[|s| - |r| - 1] == c && c !in s[..|s| - |r| - 1]
  {
    var k := IndexOf(s, c);
    if k < 0 then s else s[k + 1..]
  }

  /** `needle` occurs in `hay` at `i`, comparing with OrdinalIgnoreCase. */
  predicate OccursAtIgnoringCase(hay: string, needle: string, i: int) {
    0 <= i && i + |needle| <= |hay| &&
    forall j :: 0 <= j < |needle| ==> SameIgnoringCase(hay[i + j], needle[j])
  }

  /** `hay.Contains(needle, StringComparison.OrdinalIgnoreCase)`. */
  predicate ContainsIgnoringCase(hay: string, needle: string) {
    exists i :: 0 <= i <= |hay| - |needle| && OccursAtIgnoringCase(hay, needle, i)
  }

  /** `needle` occurs in `hay` at `i`, ordinal comparison. */
  predicate OccursAt(hay: string, needle: string, i: int) {
    0 <= i && i + |needle| <= |hay| && hay[i..i + |needle|] == needle
  }

  /** The same match stated character by character, as a regex engine tries a literal. */
  predicate MatchesAt(hay: string, needle: string, i: nat) {
    i + |needle| <= |hay| && forall j :: 0 <= j < |needle| ==> hay[i + j] == needle[j]
  }

  /** Matching a literal character by character is finding it at that position. */
  lemma MatchesAtOccurs(hay: string, needle: string, i: nat)
    ensures MatchesAt(hay, needle, i) <==> OccursAt(hay, needle, i)
  {
    if MatchesAt(hay, needle, i) {
      assert hay[i..i + |needle|] == needle;
    }
    if OccursAt(hay, needle, i) {
      forall j | 0 <= j < |needle| ensures hay[i + j] == needle[j] {
        assert hay[i..i + |needle|][j] == hay[i + j];
      }
    }
  }

  /** `hay.Contains(needle)` (ordinal, case-sensitive). */
  predicate Contains(hay: string, needle: string) {
    exists i :: 0 <= i <= |hay| - |needle| && OccursAt(hay, needle, i)
  }

  /** A needle holding a character the haystack lacks does not occur in it. */
  lemma NotContainsByChar(hay: string, needle: string, c: char)
    requires c in needle && c !in hay
    ensures !Contains(hay, needle)
  {
    var k :| 0 <= k < |needle| && needle[k] == c;
    forall i | 0 <= i <= |hay| - |needle| ensures !OccursAt(hay, needle, i) {
      assert hay[i..i + |needle|][k] == hay[i + k] != c;
    }
  }

  /** `s.Replace(" ", "")`. */
  function RemoveSpaces(s: string): (r: string)
    ensures ' ' !in r
    ensures |r| <= |s|
    ensures forall c :: c in r ==> c in s
  {
    if s == [] then []
    else if s[0] == ' ' then RemoveSpaces(s[1..])
    else [s[0]] + RemoveSpaces(s[1..])
  }

  /** Decimal rendering of a natural number (`int.ToString()` for non-negative values). */
  function NatToString(n: nat): (r: string)
    ensures r != [] && AllDigits(r)
    decreases n
  {
    var d := [('0' as int + n % 10) as char];
    if n < 10 then d else NatToString(n / 10) + d
  }

  /** Value of a decimal digit string: the inverse of NatToString. */
  function DecimalValue(s: string): nat
    requires AllDigits(s)
  {
    if s == [] then 0 else DecimalValue(s[..|s| - 1]) * 10 + (s[|s| - 1] as int - '0' as int)
  }

  lemma {:induction false} NatToStringRoundTrip(n: nat)
    ensures DecimalValue(NatToString(n)) == n
    decreases n
  {
    var r := NatToString(n);
    if n >= 10 {
      NatToStringRoundTrip(n / 10);
      assert r[..|r| - 1] == NatToString(n / 10);
    }
  }

  /**
   * `WebUtility.HtmlDecode` for the entities the portal's pages use:
   * `&amp;`, `&lt;`, `&gt;`, `&quot;`, `&apos;`, `&#39;` and `&nbsp;`.
   * Any other `&` is kept as it is.
   */
  function HtmlDecode(s: string): (r: string)
    ensures |r| <= |s|
    ensures '&' !in s ==> r == s
    decreases |s|
  {
    if s == [] then []
    else if s[0] == '&' then
      match EntityAt(s)
      case Some(e) => [e.0] + HtmlDecode(s[e.1..])
      case None => [s[0]] + HtmlDecode(s[1..])
    else [s[0]] + HtmlDecode(s[1..])
  }

  /** The entity starting `s`, with the length of its spelling. */
  function EntityAt(s: string): (r: Option<(char, nat)>)
    ensures r.Some? ==> 4 <= r.value.1 <= |s|
  {
    if |s| >= 5 && s[..5] == "&amp;" then Some(('&', 5))
    else if |s| >= 4 && s[..4] == "&lt;" then Some(('<', 4))
    else if |s| >= 4 && s[..4] == "&gt;" then Some(('>', 4))
    else if |s| >= 6 && s[..6] == "&quot;" then Some(('"', 6))
    else if |s| >= 6 && s[..6] == "&apos;" then Some(('\'', 6))
    else if |s| >= 5 && s[..5] == "&#39;" then Some(('\'', 5))
    else if |s| >= 6 && s[..6] == "&nbsp;" then Some(('\U{A0}', 6))
    else None
  }
}
