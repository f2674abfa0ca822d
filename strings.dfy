/**
 * The C# string notions the services rely on: nullable strings,
 * `string.IsNullOrEmpty` and `ToLowerInvariant` (on the ASCII letters the
 * choice names are made of).
 */
module Strings {

  /** A C# `string?`: either `null` or a (possibly empty) string. */
  datatype NullableString = Null | Str(value: string)

  /** `string.IsNullOrEmpty`. */
  predicate IsNullOrEmpty(s: NullableString) {
    s.Null? || s.value == ""
  }

  predicate IsUpper(ch: char) {
    'A' <= ch <= 'Z'
  }

  /** The lower-case counterpart of an ASCII upper-case letter; every other character is kept. */
  function LowerChar(ch: char): (r: char)
    ensures !IsUpper(r)
    ensures IsUpper(ch) ==> r as int == ch as int + 32
    ensures !IsUpper(ch) ==> r == ch
  {
    if IsUpper(ch) then (ch as int + 32) as char else ch
  }

  /** `ToLowerInvariant`, restricted to ASCII case mapping. */
  function ToLowerInvariant(s: string): (r: string)
    ensures |r| == |s|
    ensures forall i :: 0 <= i < |s| ==> r[i] == LowerChar(s[i])
    ensures HasNoUpper(r)
  {
    seq(|s|, i requires 0 <= i < |s| => LowerChar(s[i]))
  }

  predicate HasNoUpper(s: string) {
    forall i :: 0 <= i < |s| ==> !IsUpper(s[i])
  }
}
