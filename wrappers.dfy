/** The optional value used wherever the source has `undefined` or `null`. */
module Wrappers {
  datatype Option<T> = None | Some(value: T)

  /** `value || fallback` for an optional string: a missing or empty value gives the fallback. */
  function OrDefault(value: Option<string>, fallback: string): string
  {
    if value.Some? && value.value != "" then value.value else fallback
  }
}
