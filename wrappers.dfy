/** Optional values, .NET nullable string references and pass/fail outcomes. */
module Wrappers {

  datatype Option<+T> = None | Some(value: T)

  /** A .NET `string` reference: either null or a character sequence. */
  type NString = Option<string>

  /** `string.IsNullOrEmpty`. */
  predicate IsNullOrEmpty(s: NString) {
    s.None? || s.value == ""
  }

  /** The text of a reference, reading null as the empty string. */
  function OrEmpty(s: NString): string {
    if s.None? then "" else s.value
  }

  /** The outcome of a call that either returns normally or throws an exception with a message. */
  datatype Outcome = Pass | Fail(message: string)
}
