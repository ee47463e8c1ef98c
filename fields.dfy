/**
 * Field-extraction rules that the parsers of both generations apply in the
 * same way: the entries the label cells and list items give, the type-code
 * cut at the first dash, blank-to-null, the plain-text fallbacks, and the
 * per-anchor row of a result list.
 */
module Fields {
  import opened Wrappers
  import opened Text
  import opened Dom
  import opened Patterns
  import opened DomainModels

  /** The table pass: one (label, value) entry per label cell, in document order. */
  function TableEntries(d: Document): (es: Entries)
    ensures |es| == |d.labelCells|
    ensures forall i :: 0 <= i < |es| ==> es[i] == CellEntry(d.labelCells[i])
  {
    seq(|d.labelCells|, i requires 0 <= i < |d.labelCells| => CellEntry(d.labelCells[i]))
  }

  /**
   * One list-group item: the decoded, trimmed text split at its first ':',
   * kept only when that colon is not the first character. The key holds no
   * colon and both halves are trimmed.
   */
  function ListItemEntry(item: string): (r: Option<(string, string)>)
    ensures r.Some? <==> IndexOf(HtmlDecode(Trim(item)), ':') > 0
    ensures r.Some? ==> ':' !in r.value.0 && Trimmed(r.value.0) && Trimmed(r.value.1)
  {
    var text := HtmlDecode(Trim(item));
    var colon := IndexOf(text, ':');
    if colon > 0 then Some((Trim(text[..colon]), Trim(text[colon + 1..]))) else None
  }

  /** The entries the list items give, in document order; items without a usable colon give none. */
  function ListEntries(items: seq<string>): (es: Entries)
    ensures |es| <= |items|
    ensures forall i :: 0 <= i < |es| ==> ':' !in es[i].0
  {
    if items == [] then []
    else
      var es := ListEntries(items[..|items| - 1]);
      match ListItemEntry(items[|items| - 1])
      case Some(e) => es + [e]
      case None => es
  }

  /** One more item adds its entry, if it gives one, at the end. */
  lemma ListEntriesStep(items: seq<string>, i: nat)
    requires i < |items|
    ensures ListItemEntry(items[i]).None? ==> ListEntries(items[..i + 1]) == ListEntries(items[..i])
    ensures ListItemEntry(items[i]).Some? ==>
      ListEntries(items[..i + 1]) == ListEntries(items[..i]) + [ListItemEntry(items[i]).value]
  {
    assert items[..i + 1][..i] == items[..i];
  }

  /**
   * The table pass of the HtmlAgilityPack parsers: a loop of indexer writes,
   * one per label cell, so a repeated label ends with its last cell's value.
   */
  method TablePass(d: Document) returns (m: Entries)
    ensures m == PutAll([], TableEntries(d))
  {
    m := [];
    for i := 0 to |d.labelCells|
      invariant m == PutAll([], TableEntries(d)[..i])
    {
      m := WriteCell(d, i, m);
    }
    WholePrefix(TableEntries(d));
  }

  /** One indexer write of the table pass: label cell i's entry over what the earlier cells wrote. */
  method WriteCell(d: Document, i: nat, m: Entries) returns (m': Entries)
    requires i < |d.labelCells| && m == PutAll([], TableEntries(d)[..i])
    ensures m' == PutAll([], TableEntries(d)[..i + 1])
  {
    var e := CellEntry(d.labelCells[i]);
    PutAllPrefixStep([], TableEntries(d), i);
    m' := Put(m, e.0, e.1);
  }

  /** The prefix of a sequence up to its length is the sequence. */
  lemma WholePrefix<T>(s: seq<T>)
    ensures s[..|s|] == s
  {
  }

  /**
   * The list-group pass both generations run on an empty map: a loop of
   * indexer writes, one per item whose decoded, trimmed text has a colon
   * past its first character.
   */
  method ListItemPass(items: seq<string>) returns (m: Entries)
    ensures m == PutAll([], ListEntries(items))
  {
    m := [];
    for i := 0 to |items|
      invariant m == PutAll([], ListEntries(items[..i]))
    {
      var text := HtmlDecode(Trim(items[i]));
      var colon := IndexOf(text, ':');
      ListEntriesStep(items, i);
      if colon > 0 {
        var key := Trim(text[..colon]);
        var val := Trim(text[colon + 1..]);
        PutAllStep([], ListEntries(items[..i]), (key, val));
        m := Put(m, key, val);
      }
    }
    assert items[..|items|] == items;
  }

  /** `string.IsNullOrWhiteSpace(x) ? null : x`. */
  function NullIfWhiteSpace(o: Option<string>): (r: Option<string>)
    ensures r.None? <==> IsNullOrWhiteSpace(o)
    ensures r.Some? ==> r == o
  {
    if IsNullOrWhiteSpace(o) then None else o
  }

  /** Null, or text with something other than white space in it. */
  predicate NullOrText(o: Option<string>) {
    o.None? || !AllWhiteSpace(o.value)
  }

  /**
   * The type-code cut: the trimmed text before the first '-' when that dash
   * is not the first character, else the whole text trimmed.
   */
  function CutAtDash(s: string): (r: string)
    ensures Trimmed(r)
    ensures forall c :: c in r ==> c in s
    ensures IndexOf(s, '-') > 0 ==> '-' !in r
    ensures '-' in r ==> r[0] == '-' && r == Trim(s)
  {
    var dash := IndexOf(s, '-');
    if dash > 0 then
      assert forall c :: c in s[..dash] ==> c in s;
      Trim(s[..dash])
    else Trim(s)
  }

  /** A type code as both parsers return it: trimmed, and a dash in it only at its start. */
  predicate TypeCodeShape(o: Option<string>) {
    o.Some? ==> Trimmed(o.value) && ('-' in o.value ==> o.value[0] == '-')
  }

  /** `Regex.Match(plain, pattern).Groups[1].Value.Trim()`: "" when the pattern does not match. */
  function PatternOrEmpty(m: Option<string>): (r: string)
    ensures m.None? ==> r == ""
    ensures m.Some? ==> r == Trim(m.value)
  {
    Trim(GroupOrEmpty(m))
  }

  /**
   * Estado, condición and ubicación: the map value, else the trimmed capture
   * of `Label\s*:\s*(rest of line)` in the plain text (or ""), and blank
   * becomes null.
   */
  function LabelledOrPattern(fromMap: Option<string>, plain: string, lab: Label): (r: Option<string>)
    ensures NullOrText(r)
    ensures NullOrText(fromMap) && fromMap.Some? ==> r == fromMap
    ensures fromMap.Some? && !NullOrText(fromMap) ==> r.None?
    ensures fromMap.None? ==> (r.Some? <==> LabelRest(plain, lab).Some? && !AllWhiteSpace(LabelRest(plain, lab).value))
  {
    var v := if fromMap.Some? then fromMap.value else PatternOrEmpty(LabelRest(plain, lab));
    NullIfWhiteSpace(Some(v))
  }

  /**
   * Document type and taxpayer type: the map value, else the trimmed
   * capture of `Label\s*:\s*(rest of line)`; whatever was found is cut at
   * its first dash.
   */
  function TypeCode(fromMap: Option<string>, plain: string, lab: Label): (r: Option<string>)
    ensures TypeCodeShape(r)
    ensures r.None? <==> fromMap.None? && LabelRest(plain, lab).None?
    ensures fromMap.Some? ==> r == Some(CutAtDash(fromMap.value))
  {
    var line := if fromMap.Some? then fromMap
      else match LabelRest(plain, lab)
        case Some(c) => Some(Trim(c))
        case None => None;
    if line.Some? then Some(CutAtDash(line.value)) else None
  }

  /** The RUC fallback: a blank id is replaced by the first standalone eleven-digit run of the plain text. */
  function RucFallback(ruc: Option<string>, plain: string): (r: Option<string>)
    ensures !IsNullOrWhiteSpace(ruc) ==> r == ruc
    ensures r == ruc || exists i: nat :: StandaloneRunAt(plain, i) && r == Some(plain[i..i + 11])
    ensures IsNullOrWhiteSpace(ruc) && FirstStandaloneRun(plain).Some? ==> r.Some? && |r.value| == 11 && AllDigits(r.value)
  {
    if IsNullOrWhiteSpace(ruc) then
      match FirstStandaloneRun(plain)
      case Some(i) =>
        DigitRunDigits(plain, i);
        Some(plain[i..i + 11])
      case None => ruc
    else ruc
  }

  /** A name that is missing, blank or "-": the text after `<11 digits> -` should replace it. */
  predicate NeedsNameFallback(razon: Option<string>) {
    IsNullOrWhiteSpace(razon) || razon == Some("-")
  }

  /** The name fallback: a missing, blank or "-" name is replaced by the trimmed text after `<11 digits> -`. */
  function NameFallback(razon: Option<string>, plain: string): (r: Option<string>)
    ensures !NeedsNameFallback(razon) ==> r == razon
    ensures NeedsNameFallback(razon) && DigitsDashCapture(plain).Some? ==> r == Some(Trim(DigitsDashCapture(plain).value))
    ensures DigitsDashCapture(plain).None? ==> r == razon
  {
    if NeedsNameFallback(razon) then
      match DigitsDashCapture(plain)
      case Some(c) => Some(Trim(c))
      case None => razon
    else razon
  }

  /** The address fallback: only a missing or blank address is replaced, by the trimmed `Dirección:` capture. */
  function AddressFallback(dir: Option<string>, plain: string): (r: Option<string>)
    ensures !IsNullOrWhiteSpace(dir) ==> r == dir
    ensures r.None? ==> dir.None?
    ensures IsNullOrWhiteSpace(dir) && LabelRest(plain, DireccionLabel).Some? ==>
      r == Some(Trim(LabelRest(plain, DireccionLabel).value))
  {
    if IsNullOrWhiteSpace(dir) then
      match LabelRest(plain, DireccionLabel)
      case Some(c) => Some(Trim(c))
      case None => dir
    else dir
  }

  /** `FirstOrDefault(n => n.Text.Contains(needle))`: the first text containing `needle`, ordinal. */
  function FirstContaining(texts: seq<string>, needle: string): (r: Option<string>)
    ensures r.Some? ==> exists i :: (0 <= i < |texts| && texts[i] == r.value &&
      Contains(r.value, needle) && forall j :: 0 <= j < i ==> !Contains(texts[j], needle))
    ensures r.None? <==> forall i :: 0 <= i < |texts| ==> !Contains(texts[i], needle)
  {
    if texts == [] then None
    else if Contains(texts[0], needle) then Some(texts[0])
    else
      var r := FirstContaining(texts[1..], needle);
      assert forall i :: 0 <= i < |texts| - 1 ==> texts[1..][i] == texts[i + 1];
      assert r.Some? ==> exists i :: (0 <= i < |texts| - 1 && texts[1..][i] == r.value &&
        Contains(r.value, needle) && forall j :: 0 <= j < i ==> !Contains(texts[1..][j], needle));
      r
  }

  /** A labelled paragraph's value: the text after its first ':' (all of it when there is none), trimmed. */
  function ParagraphValue(p: string): (r: string)
    ensures Trimmed(r)
    ensures ':' !in p ==> r == Trim(p)
  {
    Trim(AfterFirst(p, ':'))
  }

  /** The location or status of a result row: the first paragraph containing `marker`, else the pattern on the anchor text. */
  function RowField(paragraphs: seq<string>, marker: string, text: string, lab: Label): (r: Option<string>)
    ensures FirstContaining(paragraphs, marker).Some? ==> r == Some(ParagraphValue(FirstContaining(paragraphs, marker).value))
    ensures FirstContaining(paragraphs, marker).None? ==>
      (r.None? <==> LabelRest(text, lab).None?) && (r.Some? ==> r.value == Trim(LabelRest(text, lab).value))
    ensures r.Some? ==> Trimmed(r.value)
  {
    match FirstContaining(paragraphs, marker)
    case Some(p) => Some(ParagraphValue(p))
    case None =>
      match LabelRest(text, lab)
      case Some(c) => Some(Trim(c))
      case None => None
  }

  /**
   * One result row: the first eleven-digit run of the first heading
   * containing "RUC", the decoded trimmed second heading, and location and
   * status from their paragraphs or from the decoded anchor text.
   */
  function ListRow(a: Anchor, ubicacionMarker: string): (r: SearchResultItem)
    ensures r.ruc.Some? ==> |r.ruc.value| == 11 && AllDigits(r.ruc.value)
    ensures r.ruc.Some? ==> FirstContaining(a.headings, "RUC").Some?
    ensures FirstContaining(a.headings, "RUC").Some? ==>
      var h := FirstContaining(a.headings, "RUC").value;
      (r.ruc.None? <==> forall j :: 0 <= j <= |h| ==> !DigitsAt(h, j)) &&
      (r.ruc.Some? ==> exists i: nat ::
         DigitsAt(h, i) && r.ruc.value == h[i..i + 11] && forall j :: 0 <= j < i ==> !DigitsAt(h, j))
    ensures r.razonSocial.None? <==> |a.headings| < 2
    ensures |a.headings| >= 2 ==> r.razonSocial == Some(HtmlDecode(Trim(a.headings[1])))
    ensures r.ubicacion == RowField(a.paragraphs, ubicacionMarker, HtmlDecode(a.text), UbicacionLabel)
    ensures r.estado == RowField(a.paragraphs, "Estado", HtmlDecode(a.text), EstadoLabel)
  {
    var ruc := match FirstContaining(a.headings, "RUC")
      case Some(h) =>
        (match FirstDigitRun(h)
         case Some(i) =>
           DigitRunDigits(h, i);
           Some(h[i..i + 11])
         case None => None)
      case None => None;
    var razon := if |a.headings| > 1 then Some(HtmlDecode(Trim(a.headings[1]))) else None;
    var text := HtmlDecode(a.text);
    SearchResultItem(ruc, razon,
      RowField(a.paragraphs, ubicacionMarker, text, UbicacionLabel),
      RowField(a.paragraphs, "Estado", text, EstadoLabel))
  }
}
