/** Character classes and lengths that several components share. */
module Chars {
  /** The Unicode property White_Space, which `char::is_whitespace` tests and `str::trim` removes. */
  predicate IsWhitespace(c: char) {
    var n := c as int;
    || 9 <= n <= 13 || n in {0x20, 0x85, 0xA0, 0x1680} || 0x2000 <= n <= 0x200A
    || n in {0x2028, 0x2029, 0x202F, 0x205F, 0x3000}
  }

  /** `char::is_control`: the Unicode category Cc. */
  predicate IsControl(c: char) { (c as int) < 0x20 || 0x7F <= c as int <= 0x9F }

  /** `char::len_utf8` */
  function Utf8Length(c: char): nat {
    if (c as int) < 0x80 then 1 else if (c as int) < 0x800 then 2 else if (c as int) < 0x1_0000 then 3 else 4
  }

  /** The length of a text in UTF-8. */
  function Utf8Bytes(s: string): nat {
    if s == [] then 0 else Utf8Length(s[0]) + Utf8Bytes(s[1..])
  }
}
