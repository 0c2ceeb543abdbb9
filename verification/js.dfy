/** The few JavaScript value conventions the resume code relies on:
    a property that may be missing (undefined or null), the truthiness of
    strings, and the whitespace that `trim()` and the regular-expression
    class `\s` both recognise. */
module Js {

  datatype Option<+T> = None | Some(value: T)

  /** A string property of a JSON object that may be missing. */
  type Text = Option<string>

  /** A string is truthy exactly when it is present and non-empty. */
  predicate Truthy(t: Text) {
    t.Some? && t.value != ""
  }

  /** `t || fallback` for a possibly missing string. */
  function OrElse(t: Text, fallback: string): string {
    if Truthy(t) then t.value else fallback
  }

  /** `x || fallback` for an array or object: present values are always truthy. */
  function PresentOr<T>(x: Option<T>, fallback: T): T {
    if x.Some? then x.value else fallback
  }

  /** The characters `String.prototype.trim` removes and `\s` matches:
      ECMAScript WhiteSpace and LineTerminator. */
  predicate IsSpace(c: char) {
    || c == '\t' || c == '\n' || c == '\U{B}' || c == '\U{C}' || c == '\r'
    || c == ' ' || c == '\U{A0}' || c == '\U{1680}'
    || ('\U{2000}' <= c <= '\U{200A}')
    || c == '\U{2028}' || c == '\U{2029}' || c == '\U{202F}' || c == '\U{205F}'
    || c == '\U{3000}' || c == '\U{FEFF}'
  }
}
