/** The optional value used throughout the model. In the scraper a Python
    exception that some `except` clause swallows is modelled as `None`. */
module Maybe {

  datatype Option<+T> = None | Some(value: T) {

    /** The value, or `default` when there is none */
    function GetOr(default: T): T {
      match this
      case Some(v) => v
      case None => default
    }

    /** Lets `:-` stop at the first missing value, as a raised exception
        stops the Python code that raised it */
    predicate IsFailure() {
      None?
    }

    function PropagateFailure<U>(): Option<U>
      requires None?
    {
      None
    }

    function Extract(): T
      requires Some?
    {
      value
    }
  }
}
