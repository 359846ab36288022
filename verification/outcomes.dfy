/** Failure-carrying values shared by the store and the ingestion code. */
module Outcomes {

  datatype Option<+T> = None | Some(value: T)

  /** The exceptions that can leave a stage of one ingestion cycle. */
  datatype Error =
    | RequestError   // a non-HTTP exception raised by `requests.get` (connection, timeout, ...)
    | ParseError     // pandas could not read or convert the downloaded text
    | StoreError     // a record could not be routed to a collection (missing or non-text `state`, missing `date`)

  datatype Result<+T> = Ok(value: T) | Err(error: Error)

  /** How one call of `update_once` ended: normally, or by raising. */
  datatype Status = Done | Failed(error: Error)
}
