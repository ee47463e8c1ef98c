/**
 * The Core layer's own detail-page parser (`SunatScraper.Core.Services.RucParser`):
 * the label map, read only under five exact labels.
 */
module CoreRucParser {
  import opened Wrappers
  import opened Dom
  import opened Fields
  import opened CoreModels

  const RucKey := "Número de RUC"
  const RazonKey := "Nombre o Razón Social"
  const NombreComercialKey := "Nombre Comercial"
  const EstadoKey := "Estado del Contribuyente"
  const CondicionKey := "Condición del Contribuyente"
  const DireccionKey := "Dirección del Domicilio Fiscal"

  /**
   * `Parse`: each field is the value of the LAST label cell whose trimmed
   * text is exactly its label, or null when there is none; the name falls
   * back from the legal name to the trade name. No other label is consulted.
   */
  function Parse(d: Document): (r: RucInfo)
    ensures r.ruc == LastValue(TableEntries(d), RucKey)
    ensures r.razonSocial == LastValue(TableEntries(d), RazonKey).OrElse(LastValue(TableEntries(d), NombreComercialKey))
    ensures r.estado == LastValue(TableEntries(d), EstadoKey)
    ensures r.condicion == LastValue(TableEntries(d), CondicionKey)
    ensures r.direccion == LastValue(TableEntries(d), DireccionKey)
  {
    var es := TableEntries(d);
    var labels := PutAll([], es);
    PutAllGet([], es, RucKey);
    PutAllGet([], es, RazonKey);
    PutAllGet([], es, NombreComercialKey);
    PutAllGet([], es, EstadoKey);
    PutAllGet([], es, CondicionKey);
    PutAllGet([], es, DireccionKey);
    RucInfo(
      Get(labels, RucKey),
      Get(labels, RazonKey).OrElse(Get(labels, NombreComercialKey)),
      Get(labels, EstadoKey),
      Get(labels, CondicionKey),
      Get(labels, DireccionKey))
  }
}
