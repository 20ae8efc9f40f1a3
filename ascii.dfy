/** ASCII letter case, shared by the case-sensitive extension table and the
    lower-casing of computed digests. */
module Ascii {
  predicate IsUpperAscii(c: char) { 'A' <= c <= 'Z' }

  /** The lower-case letter of an upper-case ASCII letter; every other
      character is kept. */
  function LowerChar(c: char): (r: char)
    ensures !IsUpperAscii(r)
    ensures IsUpperAscii(c) ==> r as int == c as int + 32
    ensures !IsUpperAscii(c) ==> r == c
  {
    if IsUpperAscii(c) then (c as int + 32) as char else c
  }
}
