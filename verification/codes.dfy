/**
 Join codes: the generator's output, upper-cased. The generator itself
 (random, six characters from the digits and ASCII letters) is a parameter of
 the model; only the upper-casing step is defined here.
 */
module Codes {

  predicate IsLower(c: char) { 'a' <= c <= 'z' }

  predicate IsUpperAlnum(c: char) { 'A' <= c <= 'Z' || '0' <= c <= '9' }

  predicate IsAlnum(c: char) { IsUpperAlnum(c) || IsLower(c) }

  /** A well-formed join code: six upper-case letters or digits. */
  predicate IsCode(code: string) {
    |code| == 6 && forall i :: 0 <= i < |code| ==> IsUpperAlnum(code[i])
  }

  /** `c` and `u` are the same letter up to ASCII case, or the same character. */
  predicate SameIgnoringCase(c: char, u: char) {
    c == u || (IsLower(c) && u as int == c as int - 32)
  }

  function UpperChar(c: char): (u: char)
    ensures !IsLower(u) && SameIgnoringCase(c, u)
    ensures IsAlnum(c) ==> IsUpperAlnum(u)
  {
    if IsLower(c) then (c as int - 32) as char else c
  }

  /** String.prototype.toUpperCase restricted to ASCII letters. */
  function UpperCase(s: string): (r: string)
    ensures |r| == |s|
    ensures forall i :: 0 <= i < |r| ==> !IsLower(r[i]) && SameIgnoringCase(s[i], r[i])
  {
    if |s| == 0 then [] else [UpperChar(s[0])] + UpperCase(s[1..])
  }

  /** The code a pool is created with: the generator's output, upper-cased. */
  function NewCode(generate: () -> string): (code: string)
    ensures |code| == |generate()|
    ensures (forall i :: 0 <= i < |generate()| ==> IsAlnum(generate()[i])) ==>
              forall i :: 0 <= i < |code| ==> IsUpperAlnum(code[i])
  {
    UpperCase(generate())
  }

  /** Upper-casing changes nothing the second time. */
  lemma UpperCaseIdempotent(s: string)
    ensures UpperCase(UpperCase(s)) == UpperCase(s)
  {
  }

  /** A six-character alphanumeric generator yields a well-formed code. */
  lemma NewCodeIsCode(generate: () -> string)
    requires |generate()| == 6
    requires forall i :: 0 <= i < |generate()| ==> IsAlnum(generate()[i])
    ensures IsCode(NewCode(generate))
  {
  }
}
