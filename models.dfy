/** The records the Domain layer returns: every field is independently absent or present. */
module DomainModels {
  import opened Wrappers
  import opened Text

  /** A taxpayer record (`SunatScraper.Domain.Models.RucInfo`). A null `ruc` means "not found". */
  datatype RucInfo = RucInfo(
    ruc: Option<string>,
    razonSocial: Option<string>,
    estado: Option<string>,
    condicion: Option<string>,
    direccion: Option<string>,
    ubicacion: Option<string>,
    documento: Option<string>,
    contribuyente: Option<string>)

  /** One row of a result list page, in page order. */
  datatype SearchResultItem = SearchResultItem(
    ruc: Option<string>,
    razonSocial: Option<string>,
    ubicacion: Option<string>,
    estado: Option<string>)

  /** `details with { Ubicacion = ubicacion }` when the location is not blank. */
  function Enrich(r: Outcome<RucInfo>, ubicacion: Option<string>): (e: Outcome<RucInfo>)
    ensures r.Thrown? ==> e == r
    ensures r.Ok? ==> e.Ok? && e.value.(ubicacion := r.value.ubicacion) == r.value
    ensures r.Ok? ==> e.value.ubicacion == if IsNullOrWhiteSpace(ubicacion) then r.value.ubicacion else ubicacion
  {
    if r.Ok? && !IsNullOrWhiteSpace(ubicacion) then Ok(r.value.(ubicacion := ubicacion)) else r
  }
}

/** The older records of the Core layer. */
module CoreModels {
  import opened Wrappers

  /** `SunatScraper.Core.Models.RucInfo`: five fields, no location or type codes. */
  datatype RucInfo = RucInfo(
    ruc: Option<string>,
    razonSocial: Option<string>,
    estado: Option<string>,
    condicion: Option<string>,
    direccion: Option<string>)

  datatype SearchResultItem = SearchResultItem(
    ruc: Option<string>,
    razonSocial: Option<string>,
    ubicacion: Option<string>,
    estado: Option<string>)
}
