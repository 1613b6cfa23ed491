/** The JavaScript string built-ins the core relies on, over `seq<char>`. */
module Strings {

  /** `toLowerCase` / `toLocaleLowerCase`, restricted to ASCII letters. */
  function LowerChar(c: char): (r: char)
    ensures 'A' <= c <= 'Z' ==> r as int == c as int + 32
    ensures !('A' <= c <= 'Z') ==> r == c
  {
    if 'A' <= c <= 'Z' then (c as int + 32) as char else c
  }

  function Lower(s: string): (r: string)
    ensures |r| == |s|
    ensures forall i :: 0 <= i < |s| ==> r[i] == LowerChar(s[i])
  {
    seq(|s|, i requires 0 <= i < |s| => LowerChar(s[i]))
  }

  /** `s.indexOf(p) === 0`, equivalently `s.substr(0, p.length) === p`. */
  predicate IsPrefix(p: string, s: string) {
    |p| <= |s| && s[..|p|] == p
  }

  /** `s.substr(start)`: the suffix from `start`, empty past the end. */
  function Substr(s: string, start: nat): (r: string)
    ensures start <= |s| ==> s[..start] + r == s
    ensures start >= |s| ==> r == ""
  {
    if start <= |s| then s[start..] else ""
  }

  /** `/[^ ]/.test(s)`: some character is not a space. */
  predicate HasNonSpace(s: string) {
    exists i :: 0 <= i < |s| && s[i] != ' '
  }

  /** Every character is a space (vacuously so for the empty string). */
  predicate AllSpaces(s: string) {
    forall i :: 0 <= i < |s| ==> s[i] == ' '
  }

  /** The last character is a space. */
  predicate EndsWithSpace(s: string) {
    |s| > 0 && s[|s| - 1] == ' '
  }

  /** `s.match(/"$/)`: the last character is a double quote. */
  predicate EndsWithQuote(s: string) {
    |s| > 0 && s[|s| - 1] == '"'
  }
}
