/** Character and string helpers shared by the two forms.

    Characters are Dafny `char`s (Unicode scalar values). Case mapping is ASCII
    only: upper-casing changes `a`-`z` and nothing else. */
module Text {

  datatype Option<+T> = None | Some(value: T) {
    function GetOr(default: T): T {
      match this
      case Some(v) => v
      case None => default
    }
  }

  /** The `\d` regex class without the `u` flag: the ten ASCII digits. */
  predicate IsDigit(c: char) { '0' <= c <= '9' }

  /** The `[A-Z]` regex class. */
  predicate IsUpper(c: char) { 'A' <= c <= 'Z' }

  /** The `[a-z]` regex class. */
  predicate IsLower(c: char) { 'a' <= c <= 'z' }

  predicate IsAlnum(c: char) { IsDigit(c) || IsUpper(c) || IsLower(c) }

  /** `toUpperCase` restricted to ASCII. */
  function ToUpper(c: char): (u: char)
    ensures IsLower(c) ==> IsUpper(u) && u as int == c as int - 32
    ensures !IsLower(c) ==> u == c
  {
    if IsLower(c) then (c as int - 32) as char else c
  }

  /** A character is its own upper-case form exactly when it is not a lower-case letter. */
  lemma UpperFixedPoint(c: char)
    ensures ToUpper(c) == c <==> !IsLower(c)
  {
  }

  /** The characters JavaScript's string-to-number conversion skips as white space:
      WhiteSpace (TAB, VT, FF, ZWNBSP and every space separator of Unicode category Zs)
      and LineTerminator (LF, CR, LS, PS). */
  predicate IsJsWhiteSpace(c: char) {
    var n := c as int;
    n == 0x09 || n == 0x0B || n == 0x0C || n == 0x20 || n == 0xA0 || n == 0xFEFF
    || n == 0x1680 || (0x2000 <= n <= 0x200A) || n == 0x202F || n == 0x205F || n == 0x3000
    || n == 0x0A || n == 0x0D || n == 0x2028 || n == 0x2029
  }

  /** `s.includes(t)`. */
  predicate Contains(s: string, t: string) {
    exists i :: 0 <= i <= |s| - |t| && s[i..][..|t|] == t
  }
}
