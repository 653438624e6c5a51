/** Knuth-Morris-Pratt search (cpp-engine/src/algorithms/kmp.cpp): the
    failure table of longest proper borders and the linear scan that uses it. */
module Kmp {
  import opened Matching

  /** `k` is the length of a proper border of `p[..n]`: its first `k`
      characters equal its last `k`. */
  ghost predicate IsBorder(p: string, n: nat, k: nat)
    requires n <= |p|
  {
    k < n && forall u :: 0 <= u < k ==> p[u] == p[n - k + u]
  }

  /** No proper border of `p[..n]` is longer than `k`. */
  ghost predicate NoBorderAbove(p: string, n: nat, k: nat)
    requires n <= |p|
  {
    forall b :: k < b < n ==> !IsBorder(p, n, b)
  }

  /** `k` is the longest proper border of `p[..n]`. */
  ghost predicate IsLongestBorder(p: string, n: nat, k: nat)
    requires n <= |p|
  {
    IsBorder(p, n, k) && NoBorderAbove(p, n, k)
  }

  /** A border of a border is a border. */
  lemma BorderTrans(p: string, n: nat, k2: nat, k1: nat)
    requires k2 <= n <= |p|
    requires IsBorder(p, n, k2) && IsBorder(p, k2, k1)
    ensures IsBorder(p, n, k1)
  {
    forall u | 0 <= u < k1
      ensures p[u] == p[n - k1 + u]
    {
      assert p[u] == p[k2 - k1 + u];
      assert p[k2 - k1 + u] == p[n - k2 + (k2 - k1 + u)];
    }
  }

  /** The shorter of two borders is a border of the longer one. */
  lemma BorderOfBorder(p: string, n: nat, k1: nat, k2: nat)
    requires n <= |p| && k1 < k2
    requires IsBorder(p, n, k1) && IsBorder(p, n, k2)
    ensures IsBorder(p, k2, k1)
  {
    forall u | 0 <= u < k1
      ensures p[u] == p[k2 - k1 + u]
    {
      assert p[k2 - k1 + u] == p[n - k2 + (k2 - k1 + u)];
    }
  }

  /** Dropping the last character of a prefix shortens each border by one. */
  lemma BorderShrink(p: string, n: nat, b: nat)
    requires n < |p| && 1 <= b
    requires IsBorder(p, n + 1, b)
    ensures IsBorder(p, n, b - 1)
  {
  }

  /** Extending a border by a matching character. */
  lemma BorderGrow(p: string, n: nat, k: nat)
    requires n < |p| && IsBorder(p, n, k) && p[k] == p[n]
    ensures IsBorder(p, n + 1, k + 1)
  {
  }

  /** Once `k` is the longest border of `p[..n]`, no border of `p[..n+1]`
      is longer than `k + 1`. */
  lemma NextNoBorderAbove(p: string, n: nat, k: nat)
    requires n < |p| && NoBorderAbove(p, n, k)
    ensures NoBorderAbove(p, n + 1, k + 1)
  {
    var n1 := n + 1;
    forall b | k + 1 < b < n1
      ensures !IsBorder(p, n1, b)
    {
      if IsBorder(p, n1, b) {
        BorderShrink(p, n, b);
      }
    }
  }

  /** Falling back from border `anterior` of `p[..n]` to the longest border
      `k` of `p[..anterior]` after `p[anterior] != p[n]` skips no candidate. */
  lemma FallbackNoBorderAbove(p: string, n: nat, anterior: nat, k: nat)
    requires n < |p| && 0 < anterior < n
    requires IsBorder(p, n, anterior) && p[n] != p[anterior]
    requires NoBorderAbove(p, n + 1, anterior + 1)
    requires IsLongestBorder(p, anterior, k)
    ensures NoBorderAbove(p, n + 1, k + 1)
  {
    var n1 := n + 1;
    forall b | k + 1 < b < n1
      ensures !IsBorder(p, n1, b)
    {
      if b <= anterior + 1 && IsBorder(p, n1, b) {
        BorderShrink(p, n, b);
        if b - 1 < anterior {
          BorderOfBorder(p, n, b - 1, anterior);
        }
      }
    }
  }

  /** `construirTablaLPS`: entry `i` is the longest proper border of
      `patron[..i+1]`. */
  method ConstruirTablaLPS(patron: string) returns (lps: seq<int>)
    ensures |lps| == |patron|
    ensures |patron| > 0 ==> lps[0] == 0
    ensures forall i :: 0 <= i < |lps| ==> 0 <= lps[i] && IsLongestBorder(patron, i + 1, lps[i])
  {
    var m := |patron|;
    if m == 0 {
      return [];
    }
    lps := [0];
    var longitud := 0;
    var i := 1;
    while i < m
      invariant 1 <= i <= m
      invariant |lps| == i
      invariant forall j :: 0 <= j < i ==> 0 <= lps[j] && IsLongestBorder(patron, j + 1, lps[j])
      invariant 0 <= longitud < i
      invariant IsBorder(patron, i, longitud)
      invariant i < m ==> NoBorderAbove(patron, i + 1, longitud + 1)
      decreases 2 * (m - i) + longitud
    {
      if patron[i] == patron[longitud] {
        BorderGrow(patron, i, longitud);
        longitud := longitud + 1;
        lps := lps + [longitud];
        i := i + 1;
        if i < m {
          NextNoBorderAbove(patron, i, longitud);
        }
      } else if longitud != 0 {
        var anterior := longitud;
        longitud := lps[longitud - 1];
        BorderTrans(patron, i, anterior, longitud);
        FallbackNoBorderAbove(patron, i, anterior, longitud);
      } else {
        lps := lps + [0];
        i := i + 1;
        if i < m {
          NextNoBorderAbove(patron, i, 0);
        }
      }
    }
  }

  /** After a mismatch at text index `i` with `j` pattern characters matched,
      no occurrence starts in `[i - j, i - k)` when `k` is the longest proper
      border of `patron[..j]`. */
  lemma ShiftSkipsNoOccurrence(texto: string, patron: string, i: int, j: nat, k: nat, s: int)
    requires 0 < j < |patron| && j <= i < |texto|
    requires forall u :: 0 <= u < j ==> texto[i - j + u] == patron[u]
    requires texto[i] != patron[j]
    requires IsLongestBorder(patron, j, k)
    requires i - j <= s < i - k
    ensures !OccursAt(texto, patron, s)
  {
    if OccursAt(texto, patron, s) {
      if s == i - j {
        OccursAtChars(texto, patron, s, j);
      } else {
        var b := i - s;
        assert k < b < j;
        forall u | 0 <= u < b
          ensures patron[u] == patron[j - b + u]
        {
          OccursAtChars(texto, patron, s, u);
          assert texto[i - j + (j - b + u)] == patron[j - b + u];
        }
        assert IsBorder(patron, j, b);
      }
    }
  }

  /** The `j` text characters before index `i` spell the first `j`
      characters of the pattern. */
  ghost predicate Coinciden(texto: string, patron: string, i: int, j: nat)
    requires j <= i <= |texto| && j <= |patron|
  {
    forall u :: 0 <= u < j ==> texto[i - j + u] == patron[u]
  }

  /** No occurrence starts before `s`. */
  ghost predicate SinOcurrenciaAntes(texto: string, patron: string, s: int)
  {
    forall s' :: 0 <= s' < s ==> !OccursAt(texto, patron, s')
  }

  /** The fallback step of the search loop: after the mismatch, the
      skipped starts hold no occurrence and the kept `k` characters still
      match. */
  lemma Retroceder(texto: string, patron: string, i: int, j: nat, k: nat)
    requires 0 < j < |patron| && j <= i < |texto|
    requires Coinciden(texto, patron, i, j)
    requires SinOcurrenciaAntes(texto, patron, i - j)
    requires texto[i] != patron[j]
    requires IsLongestBorder(patron, j, k)
    ensures SinOcurrenciaAntes(texto, patron, i - k)
    ensures Coinciden(texto, patron, i, k)
  {
    forall s | i - j <= s < i - k
      ensures !OccursAt(texto, patron, s)
    {
      ShiftSkipsNoOccurrence(texto, patron, i, j, k, s);
    }
    forall u | 0 <= u < k
      ensures texto[i - k + u] == patron[u]
    {
      assert texto[i - j + (j - k + u)] == patron[j - k + u];
    }
  }

  /** `KMP::buscar`: the leftmost start of `patron` in `texto`, or -1.
      An empty pattern is found at 0; a pattern longer than the text is not found. */
  method Buscar(texto: string, patron: string) returns (r: int)
    ensures IsLeftmost(texto, patron, r)
    ensures |patron| == 0 ==> r == 0
    ensures |patron| > |texto| ==> r == -1
  {
    var n := |texto|;
    var m := |patron|;
    if m == 0 {
      assert OccursAt(texto, patron, 0);
      return 0;
    }
    if m > n {
      return -1;
    }
    var lps := ConstruirTablaLPS(patron);
    var i := 0;
    var j := 0;
    while i < n
      invariant 0 <= j < m
      invariant j <= i <= n
      invariant Coinciden(texto, patron, i, j)
      invariant SinOcurrenciaAntes(texto, patron, i - j)
      decreases 2 * (n - i) + j
    {
      if texto[i] == patron[j] {
        i := i + 1;
        j := j + 1;
      }
      if j == m {
        assert texto[i - j..i] == patron;
        return i - j;
      } else if i < n && texto[i] != patron[j] {
        if j != 0 {
          var k := lps[j - 1];
          Retroceder(texto, patron, i, j, k);
          j := k;
        } else {
          i := i + 1;
        }
      }
    }
    forall s | OccursAt(texto, patron, s)
      ensures false
    {
    }
    return -1;
  }
}
