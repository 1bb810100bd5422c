/** Optional values, for the `T | undefined` fields the inbox hook hands to the component. */
module Wrappers {

  datatype Option<+T> = None | Some(value: T)

  /** JavaScript's `s || fallback` on an optional string: absent and empty strings are falsy. */
  function OrElse(s: Option<string>, fallback: string): (r: string)
    ensures r == fallback <==> (s.None? || s.value == "" || s.value == fallback)
    ensures r != fallback ==> s == Some(r)
  {
    if s.Some? && s.value != "" then s.value else fallback
  }
}
