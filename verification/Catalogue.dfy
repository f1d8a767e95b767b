/** The entities that the pipeline's stages pass to each other. */
module Catalogue {
  import opened Common

  /** `str.strip`, and the matcher's normaliser of manufacturer and model names, are left abstract. */
  datatype Text = Text(strip: string -> string, identity: string -> string)

  /** An item of a supplier feed, with the fields that later stages decide on. */
  datatype SupplierItem = SupplierItem(
    id: string,
    sku: string,
    manufacturer: Option<string>,
    model: Option<string>,
    mpn: Option<string>,
    ean: Option<string>,
    identityWarnings: seq<string>,
    category: string,
    price: real,
    currency: string)

  datatype CatalogItem = CatalogItem(
    productId: int,
    sku: string,
    model: string,
    ean: string,
    manufacturer: string,
    price: real,
    category: (string, string))

  datatype Status = Exact | HighConfidence | Conflict | Ambiguous | Unmatched

  datatype MatchedBy = Sku | EanUnique | ModelUnique | IdentityConflict | IdentityCandidate | ProductReused | NoRoute

  datatype MatchRecord = MatchRecord(
    id: string,
    sku: string,
    product: Option<int>,
    status: Status,
    confidence: real,
    via: MatchedBy,
    warnings: seq<string>)

  datatype MatchResult = MatchResult(matches: seq<MatchRecord>, missing: seq<int>)

  /** Python's `value or ""`. */
  function OrEmpty(s: Option<string>): string {
    if s.Some? then s.value else ""
  }

  predicate Truthy(s: Option<string>) { s.Some? && s.value != "" }

  /** `mpn or model`. */
  function PartNumber(s: SupplierItem): string {
    if Truthy(s.mpn) then s.mpn.value else OrEmpty(s.model)
  }
}
