/** The contract every search algorithm of the engine answers to: where a
    pattern occurs in a text, and which occurrence is the leftmost. */
module Matching {

  /** `p` occurs in `t` starting at index `s`. */
  predicate OccursAt(t: string, p: string, s: int)
  {
    0 <= s && s + |p| <= |t| && t[s..s + |p|] == p
  }

  /** `r` is the leftmost start of `p` in `t`, or -1 when `p` does not occur. */
  predicate IsLeftmost(t: string, p: string, r: int)
  {
    if r == -1 then forall s :: 0 <= s <= |t| ==> !OccursAt(t, p, s)
    else OccursAt(t, p, r) && forall s :: 0 <= s < r ==> !OccursAt(t, p, s)
  }

  /** Reference search: try every start from `s` upwards. */
  function FirstOccurrenceFrom(t: string, p: string, s: nat): (r: int)
    requires forall s' :: 0 <= s' < s ==> !OccursAt(t, p, s')
    ensures IsLeftmost(t, p, r)
    decreases |t| - s
  {
    if s + |p| > |t| then -1
    else if t[s..s + |p|] == p then s
    else FirstOccurrenceFrom(t, p, s + 1)
  }

  /** Reference definition of "leftmost occurrence or -1". */
  function FirstOccurrence(t: string, p: string): (r: int)
    ensures IsLeftmost(t, p, r)
  {
    FirstOccurrenceFrom(t, p, 0)
  }

  /** At most one value is the leftmost occurrence, so every algorithm that
      meets `IsLeftmost` returns `FirstOccurrence`. */
  lemma LeftmostUnique(t: string, p: string, r1: int, r2: int)
    requires IsLeftmost(t, p, r1) && IsLeftmost(t, p, r2)
    ensures r1 == r2
  {
  }

  /** Character-level reading of an occurrence. */
  lemma OccursAtChars(t: string, p: string, s: int, u: int)
    requires OccursAt(t, p, s) && 0 <= u < |p|
    ensures t[s + u] == p[u]
  {
    assert t[s..s + |p|][u] == t[s + u];
  }
}
