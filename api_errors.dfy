/** The API's error catalogue: an immutable (status, code, message) record
    and the two errors the synthesis service raises. */
module ApiErrors {

  /** A frozen record: a datatype value cannot be changed after it is built. */
  datatype ApiError = ApiError(httpStatus: int, code: string, message: string)

  /** HTTP 400 Bad Request, raised for blank synthesis text. */
  const EmptyText := ApiError(400, "EMPTY_TEXT", "Text for synthesis is empty.")

  /** HTTP 500 Internal Server Error, raised for any failed synthesis. */
  const SynthesisFailed := ApiError(500, "SYNTHESIS_FAILED", "Internal server error during synthesis.")

  predicate IsClientError(status: int) { 400 <= status < 500 }

  predicate IsServerError(status: int) { 500 <= status < 600 }

  /** The two errors are told apart by their codes; blank text is the
      client's fault and a failed synthesis the server's. */
  lemma CatalogueIsConsistent()
    ensures EmptyText.code != SynthesisFailed.code
    ensures IsClientError(EmptyText.httpStatus) && !IsServerError(EmptyText.httpStatus)
    ensures IsServerError(SynthesisFailed.httpStatus) && !IsClientError(SynthesisFailed.httpStatus)
  {
    assert EmptyText.code[0] != SynthesisFailed.code[0];
  }
}
