/** The JavaScript string operations the backend relies on:
    `String.prototype.trim` (section 22.1.3.32 of ECMA-262, which strips
    WhiteSpace and LineTerminator code points), `lastIndexOf` of one
    character, `slice` with a possibly negative start, and `toLowerCase`
    restricted to ASCII letters. */
module JsText {

  /** WhiteSpace or LineTerminator in ECMA-262 (sections 12.2 and 12.3):
      tab, line feed, vertical tab, form feed, carriage return, space,
      no-break space, the Unicode space separators, line and paragraph
      separators, and the byte order mark. */
  predicate EsEspacioJS(c: char)
  {
    var n := c as int;
    || (9 <= n <= 13) || n == 0x20 || n == 0xA0 || n == 0x1680
    || (0x2000 <= n <= 0x200A) || n == 0x2028 || n == 0x2029
    || n == 0x202F || n == 0x205F || n == 0x3000 || n == 0xFEFF
  }

  function SaltarInicio(s: string, i: nat): (r: nat)
    requires i <= |s|
    ensures i <= r <= |s|
    ensures forall k :: i <= k < r ==> EsEspacioJS(s[k])
    ensures r < |s| ==> !EsEspacioJS(s[r])
    decreases |s| - i
  {
    if i < |s| && EsEspacioJS(s[i]) then SaltarInicio(s, i + 1) else i
  }

  function SaltarFin(s: string, inicio: nat, fin: nat): (r: nat)
    requires inicio <= fin <= |s|
    ensures inicio <= r <= fin
    ensures forall k :: r <= k < fin ==> EsEspacioJS(s[k])
    ensures r > inicio ==> !EsEspacioJS(s[r - 1])
    decreases fin
  {
    if fin > inicio && EsEspacioJS(s[fin - 1]) then SaltarFin(s, inicio, fin - 1) else fin
  }

  /** `r` is the slice of `s` starting at `i`, and everything outside it is whitespace. */
  ghost predicate Recorte(s: string, i: int, r: string)
  {
    && 0 <= i && i + |r| <= |s| && s[i..i + |r|] == r
    && (forall k :: 0 <= k < i ==> EsEspacioJS(s[k]))
    && (forall k :: i + |r| <= k < |s| ==> EsEspacioJS(s[k]))
  }

  /** Neither end of `r` is whitespace. */
  predicate SinBordes(r: string)
  {
    |r| > 0 ==> !EsEspacioJS(r[0]) && !EsEspacioJS(r[|r| - 1])
  }

  /** `String.prototype.trim`: the same shape as the engine's trim, over
      the wider JavaScript whitespace set. */
  function Trim(s: string): (r: string)
    ensures SinBordes(r)
    ensures |r| <= |s|
  {
    var inicio := SaltarInicio(s, 0);
    var fin := SaltarFin(s, inicio, |s|);
    s[inicio..fin]
  }

  /** What trim removes is whitespace: the result is a slice of the input
      framed by whitespace only. */
  lemma TrimRecorta(s: string)
    ensures exists i :: Recorte(s, i, Trim(s))
  {
    var inicio := SaltarInicio(s, 0);
    assert Recorte(s, inicio, Trim(s));
  }

  /** Trim is characterised by its two properties. */
  lemma TrimUnico(s: string, i: int, t: string)
    requires Recorte(s, i, t) && SinBordes(t)
    ensures Trim(s) == t
  {
    var inicio := SaltarInicio(s, 0);
    var fin := SaltarFin(s, inicio, |s|);
    if |t| > 0 {
      assert s[i] == t[0] && s[i + |t| - 1] == t[|t| - 1];
      assert inicio == i;
      assert fin == i + |t|;
    } else {
      assert inicio == |s|;
    }
  }

  /** A string with no whitespace at either end is its own trim. */
  lemma TrimSinBordes(s: string)
    requires SinBordes(s)
    ensures Trim(s) == s
  {
    assert Recorte(s, 0, s) by {
      assert s[0..|s|] == s;
    }
    TrimUnico(s, 0, s);
  }

  /** Trimming twice is trimming once. */
  lemma TrimIdempotente(s: string)
    ensures Trim(Trim(s)) == Trim(s)
  {
    TrimSinBordes(Trim(s));
  }

  /** Trim is empty exactly when the string is all whitespace. */
  lemma TrimVacio(s: string)
    ensures Trim(s) == "" <==> forall k :: 0 <= k < |s| ==> EsEspacioJS(s[k])
  {
    if forall k :: 0 <= k < |s| ==> EsEspacioJS(s[k]) {
      assert Recorte(s, |s|, "");
      TrimUnico(s, |s|, "");
    }
  }

  // ---------------------------------------------------------------------
  // lastIndexOf, slice, toLowerCase

  /** `s.lastIndexOf(c)`: the last index holding `c`, or -1. */
  function LastIndexOf(s: string, c: char): (r: int)
    ensures -1 <= r < |s|
    ensures r >= 0 ==> s[r] == c
    ensures forall k :: r < k < |s| ==> s[k] != c
  {
    if |s| == 0 then -1
    else if s[|s| - 1] == c then |s| - 1
    else LastIndexOf(s[..|s| - 1], c)
  }

  /** `s.slice(i)`: a negative start counts from the end, and is clamped at 0.
      The result is always a suffix of `s`, and the start only fixes its
      length: `|s| - i` characters for a start inside the string, none past
      the end, the last `-i` characters (at most all of them) for a negative
      start. */
  function SliceFrom(s: string, i: int): (r: string)
    ensures |r| <= |s| && r == s[|s| - |r|..] && s[..|s| - |r|] + r == s
    ensures 0 <= i <= |s| ==> |r| == |s| - i
    ensures i > |s| ==> r == ""
    ensures i < 0 ==> |r| == if -i <= |s| then -i else |s|
  {
    var desde := if i < 0 then (if |s| + i < 0 then 0 else |s| + i) else (if i > |s| then |s| else i);
    s[desde..]
  }

  /** `toLowerCase` on the ASCII letters; every other character is kept. */
  function ToLowerAscii(s: string): (r: string)
    ensures |r| == |s|
    ensures forall k :: 0 <= k < |s| ==> r[k] == if 'A' <= s[k] <= 'Z' then (s[k] as int + 32) as char else s[k]
  {
    if |s| == 0 then ""
    else [if 'A' <= s[0] <= 'Z' then (s[0] as int + 32) as char else s[0]] + ToLowerAscii(s[1..])
  }
}
