/** Nullable values: the model's explicit stand-in for a missing cell
    (NaN, NaT or None in the data frame). */
module Options {

  datatype Option<+T> = None | Some(value: T) {

    /** Returns the wrapped value, or `default` when the cell is missing. */
    function GetOr(default: T): T {
      match this
      case Some(v) => v
      case None => default
    }
  }
}
