/** The result-list parser of the AngleSharp generation (`SearchListHtmlParser`). */
module SearchListHtmlParser {
  import opened Dom
  import opened Fields
  import opened DomainModels

  /**
   * The paragraph marker the parser looks for: the UTF-8 bytes of
   * "Ubicación" read as Latin-1, which a Latin-1 page never contains.
   */
  const UbicacionMarkerAsWritten := "UbicaciÃ³n"

  /** `ParseList` as written: one row per result anchor, in document order, with the garbled marker. */
  function ParseListAsWritten(d: Document): (r: seq<SearchResultItem>)
    ensures |r| == |d.anchors|
    ensures forall i :: 0 <= i < |r| ==> r[i] == ListRow(d.anchors[i], UbicacionMarkerAsWritten)
  {
    seq(|d.anchors|, i requires 0 <= i < |d.anchors| => ListRow(d.anchors[i], UbicacionMarkerAsWritten))
  }

  /** `ParseList` with the marker spelled "Ubicación": one row per result anchor, in document order. */
  function ParseList(d: Document): (r: seq<SearchResultItem>)
    ensures |r| == |d.anchors|
    ensures forall i :: 0 <= i < |r| ==> r[i] == ListRow(d.anchors[i], "Ubicación")
  {
    seq(|d.anchors|, i requires 0 <= i < |d.anchors| => ListRow(d.anchors[i], "Ubicación"))
  }
}
