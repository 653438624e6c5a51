/** The DNA alphabet shared by the engine and the backend: the four
    upper-case bases A, T, C and G. */
module Adn {

  /** One of the four bases, upper case only. */
  predicate EsBase(c: char)
  {
    c == 'A' || c == 'T' || c == 'C' || c == 'G'
  }

  /** Every character of `s` is a base (true of the empty string). */
  predicate SoloBases(s: string)
  {
    forall k :: 0 <= k < |s| ==> EsBase(s[k])
  }

  /** A non-empty string of bases: the engine's notion of a DNA string. */
  predicate EsCadenaADN(s: string)
  {
    |s| > 0 && SoloBases(s)
  }
}
