/** Python's `str.strip`: white space as `str.isspace` has it, or any set of characters. */
module Strings {

  predicate IsSpace(c: char) {
    var n := c as int;
    || 9 <= n <= 13 || 28 <= n <= 32 || n == 0x85 || n == 0xA0 || n == 0x1680 || 0x2000 <= n <= 0x200A
    || n == 0x2028 || n == 0x2029 || n == 0x202F || n == 0x205F || n == 0x3000
  }

  predicate IsQuote(c: char) { c == '"' }

  function StripLeft(s: string, p: char -> bool): string {
    if s == [] || !p(s[0]) then s else StripLeft(s[1..], p)
  }

  function StripRight(s: string, p: char -> bool): string {
    if s == [] || !p(s[|s| - 1]) then s else StripRight(s[..|s| - 1], p)
  }

  function Strip(s: string, p: char -> bool): string { StripRight(StripLeft(s, p), p) }
}
