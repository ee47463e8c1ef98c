/**
 * The accent- and case-insensitive label lookup both parser generations use:
 * a key matches a label when it contains the label ignoring case, or when its
 * folded form contains the folded label.
 */
module LabelLookup {
  import opened Wrappers
  import opened Text
  import opened Dom

  /** Unicode category NonSpacingMark, restricted to the combining diacritical marks block. */
  predicate IsNonSpacingMark(c: char) {
    '\U{300}' <= c <= '\U{36F}'
  }

  /**
   * The base letter of a Latin-1 letter after canonical decomposition (FormD)
   * has split off its combining mark; every other character is its own base.
   */
  function BaseLetter(c: char): (b: char)
    ensures !IsNonSpacingMark(c) ==> !IsNonSpacingMark(b)
  {
    if 'À' <= c <= 'Å' then 'A'
    else if c == 'Ç' then 'C'
    else if 'È' <= c <= 'Ë' then 'E'
    else if 'Ì' <= c <= 'Ï' then 'I'
    else if c == 'Ñ' then 'N'
    else if 'Ò' <= c <= 'Ö' then 'O'
    else if 'Ù' <= c <= 'Ü' then 'U'
    else if c == 'Ý' then 'Y'
    else if 'à' <= c <= 'å' then 'a'
    else if c == 'ç' then 'c'
    else if 'è' <= c <= 'ë' then 'e'
    else if 'ì' <= c <= 'ï' then 'i'
    else if c == 'ñ' then 'n'
    else if 'ò' <= c <= 'ö' then 'o'
    else if 'ù' <= c <= 'ü' then 'u'
    else if c == 'ý' || c == 'ÿ' then 'y'
    else c
  }

  /** What one input character becomes: nothing for a mark, else its lower-cased base. */
  function FoldChar(c: char): (f: char)
    requires !IsNonSpacingMark(c)
    ensures !IsNonSpacingMark(f) && ToLowerChar(f) == f && BaseLetter(f) == f
  {
    ToLowerChar(BaseLetter(c))
  }

  /**
   * `Normalize`: decompose, drop non-spacing marks, lower-case. Never longer
   * than its input, free of marks, and already lower case.
   */
  function Folded(s: string): (r: string)
    ensures |r| <= |s|
    ensures forall i :: 0 <= i < |r| ==> !IsNonSpacingMark(r[i]) && ToLowerChar(r[i]) == r[i]
  {
    if s == [] then []
    else
      var c := s[|s| - 1];
      Folded(s[..|s| - 1]) + (if IsNonSpacingMark(c) then [] else [FoldChar(c)])
  }

  /** Folding is idempotent: a folded label folds to itself. */
  lemma {:induction false} FoldedIdempotent(s: string)
    ensures Folded(Folded(s)) == Folded(s)
  {
    if s != [] {
      var p := s[..|s| - 1];
      var c := s[|s| - 1];
      FoldedIdempotent(p);
      var t := Folded(p);
      var tail: string := if IsNonSpacingMark(c) then [] else [FoldChar(c)];
      assert Folded(s) == t + tail;
      FoldedAppend(t, tail);
      if tail != [] {
        assert Folded(tail) == Folded([]) + [FoldChar(tail[0])];
      }
    }
  }

  /** Folding distributes over concatenation. */
  lemma {:induction false} FoldedAppend(a: string, b: string)
    ensures Folded(a + b) == Folded(a) + Folded(b)
    decreases |b|
  {
    if b != [] {
      var b' := b[..|b| - 1];
      assert (a + b)[..|a + b| - 1] == a + b';
      FoldedAppend(a, b');
    } else {
      assert a + b == a;
    }
  }

  /** Whether dictionary key `key` answers a lookup for `lab`. */
  predicate LabelMatches(key: string, lab: string) {
    ContainsIgnoringCase(key, lab) || ContainsIgnoringCase(Folded(key), Folded(lab))
  }

  /** The position of the first entry whose key matches `lab`. */
  function FirstMatchIndex(m: Entries, lab: string): (r: Option<nat>)
    ensures r.Some? ==> r.value < |m| && LabelMatches(m[r.value].0, lab)
    ensures r.Some? ==> forall j :: 0 <= j < r.value ==> !LabelMatches(m[j].0, lab)
    ensures r.None? ==> forall j :: 0 <= j < |m| ==> !LabelMatches(m[j].0, lab)
  {
    if m == [] then None
    else if LabelMatches(m[0].0, lab) then Some(0)
    else match FirstMatchIndex(m[1..], lab)
      case Some(i) => Some(i + 1)
      case None => None
  }

  /** `GetValue`: the value of the first entry, in enumeration order, whose key matches `lab`. */
  function FirstMatch(m: Entries, lab: string): (r: Option<string>)
    ensures r.None? <==> forall j :: 0 <= j < |m| ==> !LabelMatches(m[j].0, lab)
  {
    match FirstMatchIndex(m, lab)
    case Some(i) => Some(m[i].1)
    case None => None
  }

  /** An entry that matches, with no match before it, is the one FirstMatch picks. */
  lemma FirstMatchAt(m: Entries, lab: string, i: nat)
    requires i < |m| && LabelMatches(m[i].0, lab)
    requires forall j :: 0 <= j < i ==> !LabelMatches(m[j].0, lab)
    ensures FirstMatch(m, lab) == Some(m[i].1)
  {
  }

  /**
   * `Normalize`: fills a buffer as long as the input, advancing its index
   * only for characters that are not non-spacing marks.
   */
  method Normalize(s: string) returns (r: string)
    ensures r == Folded(s)
  {
    var buffer := new char[|s|];
    var bufferIndex := 0;
    for i := 0 to |s|
      invariant bufferIndex <= i
      invariant buffer[..bufferIndex] == Folded(s[..i])
    {
      var c := s[i];
      assert s[..i + 1][..i] == s[..i];
      if !IsNonSpacingMark(c) {
        buffer[bufferIndex] := FoldChar(c);
        bufferIndex := bufferIndex + 1;
      }
    }
    assert s[..|s|] == s;
    r := buffer[..bufferIndex];
  }

  /** `GetValue`: an early-return scan of the entries in enumeration order. */
  method GetValue(m: Entries, lab: string) returns (r: Option<string>)
    ensures r == FirstMatch(m, lab)
  {
    var normLabel := Normalize(lab);
    for i := 0 to |m|
      invariant forall j :: 0 <= j < i ==> !LabelMatches(m[j].0, lab)
    {
      var (currentLabel, value) := m[i];
      var normKey := Normalize(currentLabel);
      if ContainsIgnoringCase(currentLabel, lab) || ContainsIgnoringCase(normKey, normLabel) {
        FirstMatchAt(m, lab, i);
        return Some(value);
      }
    }
    return None;
  }
}
