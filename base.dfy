/** Shared result types: optional values, fallible results, and the kinds of
    failure the backend reports. */
module Base {

  datatype Option<T> = None | Some(value: T)

  datatype Result<T, E> = Ok(value: T) | Err(error: E)

  /** Why a request could not be served.
      - CredentialsMissing: no Google credentials were found (a FileNotFoundError).
      - ServiceFailure: the spreadsheet service failed (any gspread or network error).
      - BadValue: a record cell had a type the handler cannot use (Python raises
        TypeError, ValueError or AttributeError). */
  datatype Fault = CredentialsMissing | ServiceFailure | BadValue

  /** The HTTP status a route answers with for a fault: 503 for missing
      credentials, 500 for anything else. */
  function StatusOf(f: Fault): (status: int)
    ensures status == 503 <==> f == CredentialsMissing
    ensures status == 500 <==> f != CredentialsMissing
  {
    if f == CredentialsMissing then 503 else 500
  }
}
