/**
 * The detail- and list-page parser of the HtmlAgilityPack generation
 * (`RucPageParser`): a label map where later duplicates overwrite earlier
 * ones, the same lookup and fallbacks, and a name from the map that
 * overrides the one on the RUC line.
 */
module RucPageParser {
  import opened Wrappers
  import opened Text
  import opened Dom
  import opened Patterns
  import opened LabelLookup
  import opened Fields
  import opened DomainModels

  /**
   * The map `Parse` builds: the label-cell entries written in order, so a
   * repeated label keeps the value of its last cell; with no label cells,
   * the list-item entries written the same way.
   */
  function PageMap(d: Document): (r: Entries)
    ensures DistinctKeys(r)
    ensures d.labelCells != [] ==> r == PutAll([], TableEntries(d))
    ensures d.labelCells == [] ==> r == PutAll([], ListEntries(d.listItems))
  {
    var table := PutAll([], TableEntries(d));
    if table == [] then PutAll([], ListEntries(d.listItems)) else table
  }

  /** `Parse`'s two loops of indexer writes: label cells, then list items if the map is still empty. */
  method BuildMap(d: Document) returns (map': Entries)
    ensures map' == PageMap(d)
  {
    var m := TablePass(d);
    if |m| == 0 {
      m := ListItemPass(d.listItems);
    }
    map' := m;
  }

  /** A label repeated among the label cells holds the value of its last cell; the others are not consulted. */
  lemma LaterLabelWins(d: Document, k: string)
    requires d.labelCells != []
    ensures Get(PageMap(d), k) == LastValue(TableEntries(d), k)
  {
    PutAllGet([], TableEntries(d), k);
  }

  /**
   * The name after the id on the RUC line in this generation: the rest is
   * trimmed, one leading '-' is dropped and the remainder trimmed again;
   * null when nothing is left.
   */
  function NameAfterId(rest: string): (r: Option<string>)
    ensures r.Some? ==> r.value != [] && Trimmed(r.value)
    ensures Trim(rest) == [] ==> r.None?
    ensures Trim(rest) != [] && Trim(rest)[0] != '-' ==> r == Some(Trim(rest))
  {
    var after := Trim(rest);
    var after' := if |after| > 0 && after[0] == '-' then Trim(after[1..]) else after;
    if |after'| > 0 then Some(after') else None
  }

  /** The RUC line: the first eleven-digit run is the id and what follows it the name; without one, the whole trimmed line is the id. */
  function SplitRucLine(line: string): (r: (Option<string>, Option<string>))
    ensures r.0.Some?
    ensures FirstDigitRun(line).None? ==> r == (Some(Trim(line)), None)
    ensures FirstDigitRun(line).Some? ==>
      var i := FirstDigitRun(line).value;
      r == (Some(line[i..i + 11]), NameAfterId(line[i + 11..])) && |r.0.value| == 11 && AllDigits(r.0.value)
  {
    match FirstDigitRun(line)
    case Some(i) =>
      DigitRunDigits(line, i);
      (Some(line[i..i + 11]), NameAfterId(line[i + 11..]))
    case None => (Some(Trim(line)), None)
  }

  /** The id and name the RUC line gives, if the map has one. */
  function RucLineParts(m: Entries): (Option<string>, Option<string>) {
    match FirstMatch(m, "RUC")
    case Some(line) => SplitRucLine(line)
    case None => (None, None)
  }

  /** The address the map gives, under "Dirección" or else "Domicilio". */
  function MapAddress(m: Entries): Option<string> {
    FirstMatch(m, "Dirección").OrElse(FirstMatch(m, "Domicilio"))
  }

  /**
   * The record the map and the decoded plain text give. Estado, condición
   * and ubicación are null or hold text; the address is replaced only when
   * missing or blank and is never turned into null; type codes are trimmed
   * and hold a dash only at their start.
   */
  function RecordOf(m: Entries, plain: string): (r: RucInfo)
    ensures NullOrText(r.estado) && NullOrText(r.condicion) && NullOrText(r.ubicacion)
    ensures !IsNullOrWhiteSpace(MapAddress(m)) ==> r.direccion == MapAddress(m)
    ensures r.direccion.None? ==> MapAddress(m).None?
    ensures TypeCodeShape(r.documento) && TypeCodeShape(r.contribuyente)
  {
    var (ruc, fromLine) := RucLineParts(m);
    var razon := FirstMatch(m, "Razón").OrElse(FirstMatch(m, "Nombre")).OrElse(fromLine);
    RucInfo(
      RucFallback(ruc, plain),
      NameFallback(razon, plain),
      LabelledOrPattern(FirstMatch(m, "Estado"), plain, EstadoLabel),
      LabelledOrPattern(FirstMatch(m, "Condición"), plain, CondicionLabel),
      AddressFallback(MapAddress(m), plain),
      LabelledOrPattern(FirstMatch(m, "Ubicación"), plain, UbicacionLabel),
      TypeCode(FirstMatch(m, "Tipo de Documento"), plain, TipoDocumentoLabel),
      TypeCode(FirstMatch(m, "Tipo Contribuyente"), plain, TipoContribuyenteLabel))
  }

  /** `Parse`: the record of the page's map and its decoded text. */
  function Parse(d: Document): (r: RucInfo)
    ensures NullOrText(r.estado) && NullOrText(r.condicion) && NullOrText(r.ubicacion)
    ensures TypeCodeShape(r.documento) && TypeCodeShape(r.contribuyente)
    ensures !IsNullOrWhiteSpace(MapAddress(PageMap(d))) ==> r.direccion == MapAddress(PageMap(d))
  {
    RecordOf(PageMap(d), HtmlDecode(d.plainText))
  }

  /** A usable "Razón" entry is the name, whatever the RUC line says. */
  lemma RazonOverridesRucLine(m: Entries, plain: string, v: string)
    requires FirstMatch(m, "Razón") == Some(v) && !NeedsNameFallback(Some(v))
    ensures RecordOf(m, plain).razonSocial == Some(v)
  {
  }

  /** `ParseList`: one row per result anchor, in document order, rows without a RUC included. */
  function ParseList(d: Document): (r: seq<SearchResultItem>)
    ensures |r| == |d.anchors|
    ensures forall i :: 0 <= i < |r| ==> r[i] == ListRow(d.anchors[i], "Ubicación")
  {
    seq(|d.anchors|, i requires 0 <= i < |d.anchors| => ListRow(d.anchors[i], "Ubicación"))
  }
}
