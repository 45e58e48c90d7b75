/** Python values as the translator sees them: None, truthiness, str(), exceptions. */
module PyValues {

  /** A value that may be Python's None. */
  datatype Option<+T> = None | Some(value: T)

  /** The exceptions the modelled code can raise on a response of the expected shape. */
  datatype PyError = IndexError(reason: string)

  /** A computation that either returns a value or raises. */
  datatype Result<+T> = Ok(value: T) | Raised(error: PyError)

  /** Truthiness of a string that may be None: None and "" are false. */
  predicate TruthyStr(s: Option<string>)
  {
    s.Some? && s.value != ""
  }

  /** Truthiness of a list that may be None: None and [] are false. */
  predicate TruthyList<T>(l: Option<seq<T>>)
  {
    l.Some? && |l.value| > 0
  }

  /** str(x) of a string or None, which is what '{}'.format(x) inserts. */
  function Show(s: Option<string>): string
  {
    match s
    case None => "None"
    case Some(v) => v
  }
}
