/**
 * The detail-page parser of the AngleSharp generation (`HtmlParserCommon`):
 * a label map that refuses duplicate labels, an accent- and case-insensitive
 * lookup, and plain-text pattern fallbacks for every field.
 */
module HtmlParserCommon {
  import opened Wrappers
  import opened Text
  import opened Dom
  import opened Patterns
  import opened LabelLookup
  import opened Fields
  import opened DomainModels

  /** The message `Dictionary.Add` throws with, followed by the repeated key. */
  const DuplicateKeyMessage := "An item with the same key has already been added. Key: "

  /** `ToDictionary`: the entries as they are, or an ArgumentException at the first repeated key. */
  function ToDictionary(es: Entries): (r: Outcome<Entries>)
    ensures r.Ok? <==> DistinctKeys(es)
    ensures r.Ok? ==> r.value == es
    ensures r.Thrown? ==> r.error.ArgumentException?
  {
    if es == [] then Ok([])
    else
      var p := es[..|es| - 1];
      var (k, v) := es[|es| - 1];
      assert forall i :: 0 <= i < |p| ==> p[i] == es[i];
      match ToDictionary(p)
      case Thrown(e) => Thrown(e)
      case Ok(m) =>
        if k in Keys(m) then
          var j :| 0 <= j < |m| && Keys(m)[j] == k;
          assert es[j].0 == es[|es| - 1].0;
          Thrown(ArgumentException(DuplicateKeyMessage + k))
        else
          assert es == m + [(k, v)];
          Ok(m + [(k, v)])
  }

  /**
   * The map `BuildMap` yields: the table entries when the label cells have
   * distinct labels; with no label cells at all, the list-item entries,
   * later keys overwriting earlier ones; a duplicate label fails the pass.
   */
  function CommonMap(d: Document): (r: Outcome<Entries>)
    ensures r.Thrown? <==> !DistinctKeys(TableEntries(d))
    ensures r.Thrown? ==> r.error.ArgumentException?
    ensures d.labelCells != [] && r.Ok? ==> r.value == TableEntries(d)
    ensures d.labelCells == [] ==> r == Ok(PutAll([], ListEntries(d.listItems)))
    ensures r.Ok? ==> DistinctKeys(r.value)
  {
    match ToDictionary(TableEntries(d))
    case Thrown(e) => Thrown(e)
    case Ok(m) => if m == [] then Ok(PutAll([], ListEntries(d.listItems))) else Ok(m)
  }

  /** `BuildMap`: the table pass, then, if it gave nothing, a loop of indexer writes over the list items. */
  method BuildMap(d: Document) returns (r: Outcome<Entries>)
    ensures r == CommonMap(d)
  {
    var table := ToDictionary(TableEntries(d));
    if table.Thrown? {
      return Thrown(table.error);
    }
    var labelValueMap := table.value;
    if |labelValueMap| == 0 {
      labelValueMap := ListItemPass(d.listItems);
    }
    r := Ok(labelValueMap);
  }

  /**
   * The name after the id on the RUC line: leading dashes and spaces
   * dropped, then trimmed; null when nothing is left.
   */
  function NameAfterId(rest: string): (r: Option<string>)
    ensures r.None? <==> AllWhiteSpace(TrimDashesAndSpaces(rest))
    ensures r.Some? ==> r.value != [] && Trimmed(r.value)
  {
    NonBlankTrimmed(TrimDashesAndSpaces(rest))
  }

  /** The trimmed text, or null when nothing but white space is left. */
  function NonBlankTrimmed(s: string): (r: Option<string>)
    ensures r.None? <==> AllWhiteSpace(s)
    ensures r.Some? ==> r.value != [] && Trimmed(r.value)
  {
    var t := Trim(s);
    if t == [] then None else Some(t)
  }

  /**
   * The RUC line: the id is its first run of eleven digits and the name is
   * what follows it; without such a run the whole trimmed line is the id.
   */
  function SplitRucLine(line: string): (r: (Option<string>, Option<string>))
    ensures r.0.Some?
    ensures FirstDigitRun(line).None? ==> r == (Some(Trim(line)), None)
    ensures FirstDigitRun(line).Some? ==>
      var i := FirstDigitRun(line).value;
      r == (Some(line[i..i + 11]), NameAfterId(line[i + 11..])) && |r.0.value| == 11 && AllDigits(r.0.value)
  {
    match FirstDigitRun(line)
    case Some(i) =>
      DigitRunDigits(line, i);
      (Some(line[i..i + 11]), NameAfterId(line[i + 11..]))
    case None => (Some(Trim(line)), None)
  }

  /** The id and name the RUC line gives, if the map has one. */
  function RucLineParts(m: Entries): (r: (Option<string>, Option<string>))
    ensures r.1.Some? ==> r.1.value != [] && Trimmed(r.1.value)
  {
    match FirstMatch(m, "RUC")
    case Some(line) => SplitRucLine(line)
    case None => (None, None)
  }

  /** The name: the RUC line's, else the "Razón" entry, else the "Nombre" entry, then the page-text fallback. */
  function RecordName(m: Entries, plain: string): Option<string> {
    NameFallback(RucLineParts(m).1.OrElse(FirstMatch(m, "Razón").OrElse(FirstMatch(m, "Nombre"))), plain)
  }

  /**
   * The record the map and the decoded plain text give. Estado, condición,
   * dirección and ubicación are null or hold text; type codes are trimmed and
   * hold a dash only at their start.
   */
  function RecordOf(m: Entries, plain: string): (r: RucInfo)
    ensures NullOrText(r.estado) && NullOrText(r.condicion) && NullOrText(r.direccion) && NullOrText(r.ubicacion)
    ensures TypeCodeShape(r.documento) && TypeCodeShape(r.contribuyente)
    ensures !IsNullOrWhiteSpace(RucLineParts(m).0) ==> r.ruc == RucLineParts(m).0
    ensures r.razonSocial == RecordName(m, plain)
  {
    var rucNumber := RucLineParts(m).0;
    var direccion := FirstMatch(m, "Dirección").OrElse(FirstMatch(m, "Domicilio"));
    RucInfo(
      RucFallback(rucNumber, plain),
      RecordName(m, plain),
      LabelledOrPattern(FirstMatch(m, "Estado"), plain, EstadoLabel),
      LabelledOrPattern(FirstMatch(m, "Condición"), plain, CondicionLabel),
      NullIfWhiteSpace(AddressFallback(direccion, plain)),
      LabelledOrPattern(FirstMatch(m, "Ubicación"), plain, UbicacionLabel),
      TypeCode(FirstMatch(m, "Tipo de Documento"), plain, TipoDocumentoLabel),
      TypeCode(FirstMatch(m, "Tipo Contribuyente"), plain, TipoContribuyenteLabel))
  }

  /**
   * `ParseRucInfo`: fails with ArgumentException exactly when two label
   * cells carry the same trimmed label; otherwise the record of the map
   * and the decoded page text.
   */
  function ParseRucInfo(d: Document): (r: Outcome<RucInfo>)
    ensures r.Thrown? <==> !DistinctKeys(TableEntries(d))
    ensures r.Thrown? ==> r.error.ArgumentException?
    ensures r.Ok? ==> (NullOrText(r.value.estado) && NullOrText(r.value.condicion) &&
      NullOrText(r.value.direccion) && NullOrText(r.value.ubicacion))
    ensures r.Ok? ==> TypeCodeShape(r.value.documento) && TypeCodeShape(r.value.contribuyente)
  {
    match CommonMap(d)
    case Thrown(e) => Thrown(e)
    case Ok(m) => Ok(RecordOf(m, HtmlDecode(d.plainText)))
  }

  /**
   * A name on the RUC line wins over the "Razón" and "Nombre" entries, which
   * only fill a name that is still null.
   */
  lemma RucLineNameWins(m: Entries, plain: string, n: string)
    requires RucLineParts(m).1 == Some(n) && n != "-"
    ensures RecordOf(m, plain).razonSocial == Some(n)
  {
    UsableName(n);
  }

  /** A non-empty trimmed name other than "-" needs no fallback. */
  lemma UsableName(n: string)
    requires n != [] && Trimmed(n) && n != "-"
    ensures !NeedsNameFallback(Some(n))
  {
    assert !IsWhiteSpace(n[0]);
  }

  /** With no name on the RUC line, a usable "Razón" entry is the name. */
  lemma RazonFillsMissingName(m: Entries, plain: string, v: string)
    requires RucLineParts(m).1.None?
    requires FirstMatch(m, "Razón") == Some(v) && !AllWhiteSpace(v) && v != "-"
    ensures RecordOf(m, plain).razonSocial == Some(v)
  {
    assert RecordName(m, plain) == Some(v) by {
      assert !NeedsNameFallback(Some(v));
    }
  }
}
