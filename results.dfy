/** Failure-carrying values shared by every importer module. The source raises
    Python exceptions; here each operation that can raise returns one of these. */
module Results {

  datatype Option<+T> = None | Some(value: T) {
    function GetOr(default: T): T {
      match this
      case Some(v) => v
      case None => default
    }
  }

  /** The errors a run can end with. */
  datatype Error =
    | MissingArgument              // no council id configured and none given on the command line
    | UnknownCouncil(id: string)   // no council row with that primary key
    | NotFound(what: string)       // no data folder, no `doc.kml` in the archive, no pending code
    | MissingField(name: string)   // a record lacks a field the mapper reads
    | GeometryError                // a geometry payload has the wrong shape
    | Unreadable(path: string)     // a file is not in the format its name promises
    | Conflict(code: string)       // one district code with two station addresses

  datatype Result<+T> = Ok(value: T) | Err(error: Error)

  /** The end of an operation that returns nothing. */
  datatype Outcome = Done | Failed(error: Error)
}
