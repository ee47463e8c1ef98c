/** Option and exception-carrying outcomes shared by every module of the model. */
module Wrappers {

  /** A value that may be absent: the model of a C# nullable reference. */
  datatype Option<+T> = None | Some(value: T) {
    /** `a ?? b` of C#: this value when present, else `other`. */
    function OrElse(other: Option<T>): Option<T> {
      if Some? then this else other
    }
  }

  /** The exception kinds the modelled code raises or lets through. */
  datatype Exception =
    | ArgumentException(message: string)          // validation failures, duplicate dictionary keys
    | HttpRequestException(message: string)       // transport failures and non-success statuses
    | InvalidOperationException(message: string)  // captcha image request failed
    | CookieException(message: string)            // a cookie the jar refuses

  /** Either a returned value or a thrown exception. */
  datatype Outcome<+T> = Ok(value: T) | Thrown(error: Exception)
}
