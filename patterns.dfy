/**
 * Hand-coded scanners for the few regular expressions the scraper uses.
 * Each scanner returns what .NET's backtracking matcher returns for the
 * leftmost match: the matcher is tried at every start position in order and
 * the first position where it succeeds wins.
 */
module Patterns {
  import opened Wrappers
  import opened Text

  /** The least position in [from, n) satisfying p, if any. */
  function FirstFrom(n: nat, from: nat, p: nat -> bool): (r: Option<nat>)
    ensures r.Some? ==> from <= r.value < n && p(r.value)
    ensures r.Some? ==> forall j :: from <= j < r.value ==> !p(j)
    ensures r.None? ==> forall j :: from <= j < n ==> !p(j)
    decreases n - from
  {
    if from >= n then None
    else if p(from) then Some(from)
    else FirstFrom(n, from + 1, p)
  }

  /** Greedy `\s*` from j: the first position at or after j that is not white space. */
  function SkipWhiteSpace(s: string, j: nat): (k: nat)
    requires j <= |s|
    ensures j <= k <= |s|
    ensures forall i :: j <= i < k ==> IsWhiteSpace(s[i])
    ensures k < |s| ==> !IsWhiteSpace(s[k])
    decreases |s| - j
  {
    if j < |s| && IsWhiteSpace(s[j]) then SkipWhiteSpace(s, j + 1) else j
  }

  /** Greedy `[^\n]*` from k: the first newline at or after k, or the end. */
  function LineEnd(s: string, k: nat): (e: nat)
    requires k <= |s|
    ensures k <= e <= |s|
    ensures forall i :: k <= i < e ==> s[i] != '\n'
    ensures e < |s| ==> s[e] == '\n'
    decreases |s| - k
  {
    if k < |s| && s[k] != '\n' then LineEnd(s, k + 1) else k
  }

  /** The last position in [j, e) that is not a newline. */
  function LastNonNewline(s: string, j: nat, e: nat): (r: Option<nat>)
    requires j <= e <= |s|
    ensures r.Some? ==> j <= r.value < e && s[r.value] != '\n'
    ensures r.Some? ==> forall i :: r.value < i < e ==> s[i] == '\n'
    ensures r.None? ==> forall i :: j <= i < e ==> s[i] == '\n'
    decreases e - j
  {
    if e == j then None
    else if s[e - 1] != '\n' then Some(e - 1)
    else LastNonNewline(s, j, e - 1)
  }

  /**
   * The capture of `\s*([^\n]+)` matched at j. The greedy `\s*` also
   * swallows newlines; when only white space follows, it gives back
   * characters until `[^\n]+` can take one.
   */
  function RestOfLine(s: string, j: nat): (r: Option<string>)
    requires j <= |s|
    ensures r.Some? ==> r.value != [] && '\n' !in r.value
    ensures r.None? <==> forall i :: j <= i < |s| ==> s[i] == '\n'
    ensures !AllWhiteSpace(s[j..]) ==> r.Some? && !IsWhiteSpace(r.value[0])
    ensures r.Some? && AllWhiteSpace(s[j..]) ==> AllWhiteSpace(r.value)
  {
    var k := SkipWhiteSpace(s, j);
    if k < |s| then
      var e := LineEnd(s, k);
      assert s[k] != '\n';
      assert forall i :: k <= i < e ==> s[k..e][i - k] == s[i];
      Some(s[k..e])
    else
      assert AllWhiteSpace(s[j..]) by {
        forall i | 0 <= i < |s[j..]| ensures IsWhiteSpace(s[j..][i]) { assert s[j..][i] == s[j + i]; }
      }
      match LastNonNewline(s, j, |s|)
      case Some(b) =>
        // every later character is a newline, so `[^\n]+` takes s[b] alone
        Some(s[b..b + 1])
      case None => None
  }

  /** Eleven ASCII digits start at i. */
  predicate DigitsAt(s: string, i: nat) {
    i + 11 <= |s| && forall j :: i <= j < i + 11 ==> IsDigit(s[j])
  }

  /** `\b` before position i, given that s[i] is a word character. */
  predicate BoundaryBefore(s: string, i: nat) {
    i == 0 || (i <= |s| && !IsWordChar(s[i - 1]))
  }

  /** `\b` at position k, given that s[k-1] is a word character. */
  predicate BoundaryAfter(s: string, k: nat) {
    k >= |s| || !IsWordChar(s[k])
  }

  /** `\d{11}`: the start of the leftmost run of eleven digits. */
  function FirstDigitRun(s: string): (r: Option<nat>)
    ensures r.Some? ==> DigitsAt(s, r.value)
    ensures r.Some? ==> forall j :: 0 <= j < r.value ==> !DigitsAt(s, j)
    ensures r.None? ==> forall j :: 0 <= j <= |s| ==> !DigitsAt(s, j)
  {
    var p := (i: nat) => DigitsAt(s, i);
    assert forall j: nat :: p(j) == DigitsAt(s, j);
    FirstFrom(|s| + 1, 0, p)
  }

  /** The eleven characters a digit run covers are digits. */
  lemma DigitRunDigits(s: string, i: nat)
    requires DigitsAt(s, i)
    ensures |s[i..i + 11]| == 11 && AllDigits(s[i..i + 11])
  {
    var t := s[i..i + 11];
    forall j | 0 <= j < |t| ensures IsDigit(t[j]) {
      assert t[j] == s[i + j];
    }
  }

  /** `\b(\d{11})\b` matches at i. */
  predicate StandaloneRunAt(s: string, i: nat) {
    DigitsAt(s, i) && BoundaryBefore(s, i) && BoundaryAfter(s, i + 11)
  }

  /** `\b(\d{11})\b`: the start of the leftmost eleven-digit run with no word character on either side. */
  function FirstStandaloneRun(s: string): (r: Option<nat>)
    ensures r.Some? ==> StandaloneRunAt(s, r.value)
    ensures r.Some? ==> forall j :: 0 <= j < r.value ==> !StandaloneRunAt(s, j)
    ensures r.None? ==> forall j :: 0 <= j <= |s| ==> !StandaloneRunAt(s, j)
  {
    var p := (i: nat) => StandaloneRunAt(s, i);
    assert forall j: nat :: p(j) == StandaloneRunAt(s, j);
    FirstFrom(|s| + 1, 0, p)
  }

  /** The capture of `\b\d{11}\s*-\s*([^\n]+)` when the matcher started at i succeeds. */
  function DigitsDashAt(s: string, i: nat): Option<string> {
    if i <= |s| && DigitsAt(s, i) && BoundaryBefore(s, i) then
      var k := SkipWhiteSpace(s, i + 11);
      if k < |s| && s[k] == '-' then RestOfLine(s, k + 1) else None
    else None
  }

  /** `\b\d{11}\s*-\s*([^\n]+)`: the capture of the leftmost match. */
  function DigitsDashCapture(s: string): (r: Option<string>)
    ensures r.Some? ==> r.value != [] && '\n' !in r.value
    ensures r.None? ==> forall j :: 0 <= j <= |s| ==> DigitsDashAt(s, j).None?
  {
    var p := (i: nat) => DigitsDashAt(s, i).Some?;
    assert forall j: nat :: p(j) == DigitsDashAt(s, j).Some?;
    match FirstFrom(|s| + 1, 0, p)
    case Some(i) => DigitsDashAt(s, i)
    case None => None
  }

  /** A label of a pattern: one string of accepted characters per position, e.g. `Condici(ó|o)n`. */
  type Label = seq<string>

  /** The label spelled by `s`, one accepted character per position. */
  function Literal(s: string): (l: Label)
    ensures |l| == |s|
    ensures forall i :: 0 <= i < |s| ==> l[i] == [s[i]]
  {
    seq(|s|, i requires 0 <= i < |s| => [s[i]])
  }

  predicate MatchesOneOf(c: char, accepted: string) {
    exists k :: 0 <= k < |accepted| && SameIgnoringCase(c, accepted[k])
  }

  /** The label matches at i, ignoring case. */
  predicate LabelAt(s: string, i: nat, lab: Label) {
    i + |lab| <= |s| && forall j :: 0 <= j < |lab| ==> MatchesOneOf(s[i + j], lab[j])
  }

  /** The capture of `Label\s*:\s*([^\n]+)` (ignoring case) when the matcher started at i succeeds. */
  function LabelRestAt(s: string, i: nat, lab: Label): Option<string> {
    if LabelAt(s, i, lab) then
      var k := SkipWhiteSpace(s, i + |lab|);
      if k < |s| && s[k] == ':' then RestOfLine(s, k + 1) else None
    else None
  }

  /** `Label\s*:\s*([^\n]+)` with IgnoreCase: the capture of the leftmost match. */
  function LabelRest(s: string, lab: Label): (r: Option<string>)
    ensures r.Some? ==> r.value != [] && '\n' !in r.value
    ensures r.None? ==> forall j :: 0 <= j <= |s| ==> LabelRestAt(s, j, lab).None?
  {
    var p := (i: nat) => LabelRestAt(s, i, lab).Some?;
    assert forall j: nat :: p(j) == LabelRestAt(s, j, lab).Some?;
    match FirstFrom(|s| + 1, 0, p)
    case Some(i) => LabelRestAt(s, i, lab)
    case None => None
  }

  /** The label matches where a word it spells occurs, one accepted character per position. */
  lemma LabelAtSpelling(s: string, i: nat, lab: Label, w: string)
    requires |w| == |lab| && OccursAt(s, w, i)
    requires forall j :: 0 <= j < |w| ==> w[j] in lab[j]
    ensures LabelAt(s, i, lab)
  {
    forall j | 0 <= j < |lab| ensures MatchesOneOf(s[i + j], lab[j]) {
      assert s[i + j] == s[i..i + |w|][j] == w[j];
      var k :| 0 <= k < |lab[j]| && lab[j][k] == w[j];
      assert SameIgnoringCase(s[i + j], lab[j][k]);
    }
  }

  /** The leftmost start where the pattern matches gives LabelRest's capture. */
  lemma LabelRestLeftmost(s: string, lab: Label, i: nat)
    requires i <= |s| && LabelRestAt(s, i, lab).Some?
    requires forall j :: 0 <= j < i ==> LabelRestAt(s, j, lab).None?
    ensures LabelRest(s, lab) == LabelRestAt(s, i, lab)
  {
    var p := (k: nat) => LabelRestAt(s, k, lab).Some?;
    assert forall j: nat :: p(j) == LabelRestAt(s, j, lab).Some?;
    var r := FirstFrom(|s| + 1, 0, p);
    assert p(i);
    assert r.Some? && r.value == i;
  }

  /** `Match.Groups[1].Value`: the capture, or "" when the match failed. */
  function GroupOrEmpty(m: Option<string>): string {
    if m.Some? then m.value else ""
  }

  const EstadoLabel: Label := Literal("Estado")
  const CondicionLabel: Label := Literal("Condici") + ["óo"] + Literal("n")
  const DireccionLabel: Label := Literal("Direcci") + ["óo"] + Literal("n")
  const UbicacionLabel: Label := Literal("Ubicaci") + ["óo"] + Literal("n")
  const TipoDocumentoLabel: Label := Literal("Tipo de Documento")
  const TipoContribuyenteLabel: Label := Literal("Tipo Contribuyente")

  const CookiePrefix := "document.cookie"

  /**
   * `document\.cookie\s*=\s*"([^"]+)"` tried at i: the capture and the
   * position just after the closing quote.
   */
  function CookieAt(s: string, i: nat): (r: Option<(string, nat)>)
    requires i <= |s|
    ensures r.Some? ==> i < r.value.1 <= |s|
    ensures r.Some? ==> r.value.0 != [] && '"' !in r.value.0
  {
    if MatchesAt(s, CookiePrefix, i) then
      QuotedAssignment(s, i + |CookiePrefix|)
    else None
  }

  /** `\s*=\s*"([^"]+)"` tried at j: the capture and the position just after the closing quote. */
  function QuotedAssignment(s: string, j: nat): (r: Option<(string, nat)>)
    requires j <= |s|
    ensures r.Some? ==> j < r.value.1 <= |s|
    ensures r.Some? ==> r.value.0 != [] && '"' !in r.value.0
  {
    var k := SkipWhiteSpace(s, j);
    if k < |s| && s[k] == '=' then
      var q := SkipWhiteSpace(s, k + 1);
      if q < |s| && s[q] == '"' then
        var e := QuoteEnd(s, q + 1);
        if q + 1 < e < |s| then Some((s[q + 1..e], e + 1)) else None
      else None
    else None
  }

  /** The first `"` at or after k, or the end. */
  function QuoteEnd(s: string, k: nat): (e: nat)
    requires k <= |s|
    ensures k <= e <= |s|
    ensures '"' !in s[k..e]
    ensures e < |s| ==> s[e] == '"'
    decreases |s| - k
  {
    if k < |s| && s[k] != '"' then
      var e := QuoteEnd(s, k + 1);
      assert s[k..e] == [s[k]] + s[k + 1..e];
      e
    else k
  }

  /** `Regex.Matches` of the cookie-assignment pattern from position `from`: the captures, in order. */
  function CookieAssignments(s: string, from: nat): (r: seq<string>)
    requires from <= |s|
    ensures forall c :: c in r ==> c != [] && '"' !in c
    decreases |s| - from
  {
    if from == |s| then []
    else match CookieAt(s, from)
      case Some(m) => [m.0] + CookieAssignments(s, m.1)
      case None => CookieAssignments(s, from + 1)
  }
}
