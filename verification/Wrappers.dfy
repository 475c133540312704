/** Results of operations that may have nothing to return or may be refused. */
module Wrappers {
  datatype Option<+T> = None | Some(value: T)

  datatype Error = NotFound(what: string, id: string) | SelfApproval(id: string, actor: string) | InvalidVerdict
      | InvalidDisposition | InvalidCursor

  datatype Result<+T> = Ok(value: T) | Refused(error: Error)
}
