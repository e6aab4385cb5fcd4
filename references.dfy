/** The constants the ingestion code shares: HTTP status codes and the security-type allow-list. */
module References {

  /** `requests.codes.ok`. */
  const StatusOk: int := 200

  /** `requests.codes.server_error`: exactly 500; other 5xx codes are not server errors to the code. */
  const StatusServerError: int := 500

  /** `symbol_types_for_use`: the provider security types the catalog tracks. */
  const SymbolTypesForUse: set<string> := {"cs", "cef", "oef", "ps", "et"}
}
