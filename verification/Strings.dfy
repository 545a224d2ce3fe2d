/** White space as Python's str methods see it */
module Strings {
  /** str.isspace, which is also the regular expression class \s */
  predicate IsSpace(c: char) {
    var n := c as int;
    || 9 <= n <= 13 || 28 <= n <= 32 || n == 0x85 || n == 0xa0 || n == 0x1680 || 0x2000 <= n <= 0x200a
    || n == 0x2028 || n == 0x2029 || n == 0x202f || n == 0x205f || n == 0x3000
  }

  /** Nothing is left of the text after str.strip. */
  predicate IsBlank(t: string) {
    forall i :: 0 <= i < |t| ==> IsSpace(t[i])
  }
}
