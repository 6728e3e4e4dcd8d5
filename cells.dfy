/** Spreadsheet cells. A cell read by pandas either holds a string or is
    missing (NaN, or a value that is not text); `Option<string>` models it. */
module Cells {

  datatype Option<+T> = None | Some(value: T) {

    /** The value, or `default` when the cell is missing (pandas `fillna`). */
    function GetOr(default: T): (r: T)
      ensures Some? ==> r == value
      ensures None? ==> r == default
    {
      match this
      case Some(v) => v
      case None => default
    }
  }
}
