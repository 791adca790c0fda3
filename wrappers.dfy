/** The optional value used for the nullable fields of a spreadsheet row
    (a missing cell, `pd.isna`) and for functions that may produce nothing. */
module Wrappers {

  datatype Option<+T> = None | Some(value: T) {

    /** The wrapped value, or `default` when there is none. */
    function GetOr(default: T): T {
      match this
      case Some(v) => v
      case None => default
    }
  }
}
