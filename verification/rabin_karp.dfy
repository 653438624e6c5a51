/** Rabin-Karp search (cpp-engine/src/algorithms/rabin_karp.cpp): a rolling
    polynomial hash in base 4 modulo 1000000007, with every hash hit confirmed
    character by character. C++ `%` truncates toward zero; the model spells
    that out with `TruncRem` and proves the `+ PRIMO` fix-up restores the
    mathematical residue. */
module RabinKarp {
  import opened Matching

  const BASE: int := 4
  const PRIMO: int := 1000000007

  /** `charToInt`: A, T, C, G are digits 0..3; any other byte counts as 0. */
  function CharToInt(c: char): (v: int)
    ensures 0 <= v <= 3
    ensures c == 'A' || c !in "TCG" <==> v == 0
  {
    match c
    case 'A' => 0
    case 'T' => 1
    case 'C' => 2
    case 'G' => 3
    case _ => 0
  }

  /** Distinct nucleotides get distinct digits. */
  lemma CharToIntInjectiveOnDna(a: char, b: char)
    requires a in "ATCG" && b in "ATCG" && a != b
    ensures CharToInt(a) != CharToInt(b)
  {
  }

  function Pow4(k: nat): nat
  {
    if k == 0 then 1 else BASE * Pow4(k - 1)
  }

  /** Exact value of `s` read as base-4 digits, most significant first:
      the sum over k of charToInt(s[k]) * 4^(|s|-1-k). */
  function Poly(s: string): int
  {
    if |s| == 0 then 0 else Poly(s[..|s| - 1]) * BASE + CharToInt(s[|s| - 1])
  }

  /** C++ `a % b` with b > 0: the quotient truncates toward zero, so the
      remainder has the sign of `a`. */
  function TruncRem(a: int, b: int): (r: int)
    requires b > 0
    ensures a >= 0 ==> 0 <= r < b
    ensures a < 0 ==> -b < r <= 0
  {
    if a >= 0 then a % b else -((-a) % b)
  }

  /** `calcularHash(str, longitud)`: Horner's rule over the first
      `longitud` characters, reduced modulo PRIMO after each step. */
  function CalcularHash(s: string, longitud: nat): int
    requires longitud <= |s|
  {
    if longitud == 0 then 0
    else TruncRem(CalcularHash(s, longitud - 1) * BASE + CharToInt(s[longitud - 1]), PRIMO)
  }

  /** Euclidean division is unique. */
  lemma ModUnique(a: int, q: int, r: int)
    requires 0 <= r < PRIMO && a == PRIMO * q + r
    ensures a % PRIMO == r
  {
    var q0, r0 := a / PRIMO, a % PRIMO;
    assert a == PRIMO * q0 + r0;
    assert PRIMO * (q - q0) == r0 - r;
    if q - q0 >= 1 {
      MulAtLeast(q - q0);
    } else if q0 - q >= 1 {
      MulAtLeast(q0 - q);
    }
  }

  lemma MulAtLeast(d: int)
    requires d >= 1
    ensures PRIMO * d >= PRIMO
  {
    assert PRIMO * d == PRIMO * (d - 1) + PRIMO;
  }

  /** Adding a multiple of PRIMO does not change the residue. */
  lemma ModAddMultiple(x: int, k: int)
    ensures (x + PRIMO * k) % PRIMO == x % PRIMO
  {
    var q, r := x / PRIMO, x % PRIMO;
    assert x + PRIMO * k == PRIMO * (q + k) + r;
    ModUnique(x + PRIMO * k, q + k, r);
  }

  /** The source's `if (hash < 0) hash += PRIMO` after a truncating `%`
      yields the mathematical residue, which lies in [0, PRIMO). */
  lemma FixUpIsResidue(x: int)
    ensures var r := TruncRem(x, PRIMO); (if r < 0 then r + PRIMO else r) == x % PRIMO
    ensures var r := TruncRem(x, PRIMO); 0 <= (if r < 0 then r + PRIMO else r) < PRIMO
  {
    if x < 0 {
      var y := -x;
      var q, r0 := y / PRIMO, y % PRIMO;
      assert y == PRIMO * q + r0;
      if r0 == 0 {
        assert x == PRIMO * (-q) + 0;
        ModUnique(x, -q, 0);
      } else {
        assert x == PRIMO * (-q - 1) + (PRIMO - r0);
        ModUnique(x, -q - 1, PRIMO - r0);
      }
    }
  }

  /** `calcularHash` equals the exact polynomial value modulo PRIMO. */
  lemma {:induction false} CalcularHashIsPolyMod(s: string, longitud: nat)
    requires longitud <= |s|
    ensures CalcularHash(s, longitud) == Poly(s[..longitud]) % PRIMO
    ensures 0 <= CalcularHash(s, longitud) < PRIMO
  {
    if longitud > 0 {
      CalcularHashIsPolyMod(s, longitud - 1);
      var prev := Poly(s[..longitud - 1]);
      var h := CalcularHash(s, longitud - 1);
      var v := CharToInt(s[longitud - 1]);
      assert s[..longitud][..longitud - 1] == s[..longitud - 1];
      assert Poly(s[..longitud]) == prev * BASE + v;
      assert prev == PRIMO * (prev / PRIMO) + h;
      assert prev * BASE + v == h * BASE + v + PRIMO * (BASE * (prev / PRIMO));
      ModAddMultiple(h * BASE + v, BASE * (prev / PRIMO));
    }
  }

  /** The leading digit of a window carries weight 4^(|s|-1). */
  lemma {:induction false} PolyFront(s: string)
    requires |s| >= 1
    ensures Poly(s) == CharToInt(s[0]) * Pow4(|s| - 1) + Poly(s[1..])
  {
    var n := |s|;
    if n == 1 {
      assert s[..0] == [];
      assert s[1..] == [];
    } else {
      var init := s[..n - 1];
      PolyFront(init);
      assert init[1..] == s[1..][..n - 2];
      assert init[0] == s[0];
      assert s[1..][n - 2] == s[n - 1];
      calc {
        Poly(s);
        Poly(init) * BASE + CharToInt(s[n - 1]);
        (CharToInt(s[0]) * Pow4(n - 2) + Poly(init[1..])) * BASE + CharToInt(s[n - 1]);
        CharToInt(s[0]) * (Pow4(n - 2) * BASE) + (Poly(s[1..][..n - 2]) * BASE + CharToInt(s[1..][n - 2]));
        CharToInt(s[0]) * Pow4(n - 1) + Poly(s[1..]);
      }
    }
  }

  /** The rolling step: dropping the leading digit and appending a new one. */
  lemma RollExact(texto: string, i: nat, m: nat)
    requires m >= 1 && i + m < |texto|
    ensures Poly(texto[i + 1..i + 1 + m])
         == BASE * (Poly(texto[i..i + m]) - CharToInt(texto[i]) * Pow4(m - 1)) + CharToInt(texto[i + m])
  {
    var w := texto[i..i + m];
    var w2 := texto[i + 1..i + 1 + m];
    PolyFront(w);
    assert w[1..] == w2[..m - 1];
    assert w2[m - 1] == texto[i + m];
  }

  /** The source's rolling update: drop `sale`, shift, add `entra`, reduce
      with C++ truncating `%`, then add PRIMO when the result is negative. */
  function Rodar(hashTexto: int, sale: char, entra: char, h: int): int
  {
    var r := TruncRem(BASE * (hashTexto - CharToInt(sale) * h) + CharToInt(entra), PRIMO);
    if r < 0 then r + PRIMO else r
  }

  /** The rolling update takes the hash of one window to the hash of the next. */
  lemma RollHash(texto: string, i: nat, m: nat, hashTexto: int, h: int)
    requires m >= 1 && i + m < |texto|
    requires hashTexto == Poly(texto[i..i + m]) % PRIMO
    requires h == Pow4(m - 1) % PRIMO
    ensures Rodar(hashTexto, texto[i], texto[i + m], h) == Poly(texto[i + 1..i + 1 + m]) % PRIMO
  {
    var x := BASE * (hashTexto - CharToInt(texto[i]) * h) + CharToInt(texto[i + m]);
    var p := Poly(texto[i..i + m]);
    var w := Pow4(m - 1);
    var v := CharToInt(texto[i]);
    RollExact(texto, i, m);
    assert p == PRIMO * (p / PRIMO) + hashTexto;
    assert w == PRIMO * (w / PRIMO) + h;
    assert v * w == v * h + PRIMO * (v * (w / PRIMO));
    assert BASE * (p - v * w) + CharToInt(texto[i + m]) == x + PRIMO * (BASE * (p / PRIMO) - BASE * (v * (w / PRIMO)));
    ModAddMultiple(x, BASE * (p / PRIMO) - BASE * (v * (w / PRIMO)));
    FixUpIsResidue(x);
  }

  /** One step of the source's `h = (h * BASE) % PRIMO` loop. */
  lemma PowStep(k: nat, h: int)
    requires h == Pow4(k) % PRIMO
    ensures TruncRem(h * BASE, PRIMO) == Pow4(k + 1) % PRIMO
  {
    assert Pow4(k) == PRIMO * (Pow4(k) / PRIMO) + h;
    assert Pow4(k + 1) == h * BASE + PRIMO * (BASE * (Pow4(k) / PRIMO));
    ModAddMultiple(h * BASE, BASE * (Pow4(k) / PRIMO));
  }

  /** The intermediate value of the rolling update stays well inside the
      64-bit `long long` range, so the C++ arithmetic never overflows. */
  lemma RollFitsInLongLong(hashTexto: int, h: int, a: int, b: int)
    requires 0 <= hashTexto < PRIMO && 0 <= h < PRIMO && 0 <= a <= 3 && 0 <= b <= 3
    ensures -0x8000_0000_0000_0000 < BASE * (hashTexto - a * h) + b < 0x8000_0000_0000_0000
  {
    assert 0 <= a * h <= 3 * PRIMO;
  }

  /** The character-by-character confirmation of a hash hit at `i`. */
  method Coincide(texto: string, patron: string, i: nat) returns (coincide: bool)
    requires i + |patron| <= |texto|
    ensures coincide <==> OccursAt(texto, patron, i)
  {
    var j := 0;
    while j < |patron|
      invariant 0 <= j <= |patron|
      invariant forall u :: 0 <= u < j ==> texto[i + u] == patron[u]
    {
      if texto[i + j] != patron[j] {
        if OccursAt(texto, patron, i) {
          OccursAtChars(texto, patron, i, j);
        }
        return false;
      }
      j := j + 1;
    }
    assert texto[i..i + |patron|] == patron;
    return true;
  }

  /** `RabinKarp::buscar`: the leftmost start of `patron` in `texto`, or -1;
      every hash hit is confirmed character by character. */
  method Buscar(texto: string, patron: string) returns (r: int)
    ensures IsLeftmost(texto, patron, r)
    ensures |patron| == 0 ==> r == 0
    ensures |patron| > |texto| ==> r == -1
  {
    var n := |texto|;
    var m := |patron|;
    if m == 0 {
      assert OccursAt(texto, patron, 0);
      return 0;
    }
    if m > n {
      return -1;
    }
    var hashPatron := CalcularHash(patron, m);
    var hashTexto := CalcularHash(texto, m);
    CalcularHashIsPolyMod(patron, m);
    CalcularHashIsPolyMod(texto, m);
    assert patron[..m] == patron;
    assert texto[..m] == texto[0..m];

    var h := 1;
    var k := 0;
    while k < m - 1
      invariant 0 <= k <= m - 1
      invariant h == Pow4(k) % PRIMO
    {
      PowStep(k, h);
      h := TruncRem(h * BASE, PRIMO);
      k := k + 1;
    }

    var i := 0;
    while i <= n - m
      invariant 0 <= i <= n - m + 1
      invariant i <= n - m ==> hashTexto == Poly(texto[i..i + m]) % PRIMO
      invariant hashPatron == Poly(patron) % PRIMO
      invariant forall s :: 0 <= s < i ==> !OccursAt(texto, patron, s)
    {
      if hashPatron == hashTexto {
        var coincide := Coincide(texto, patron, i);
        if coincide {
          return i;
        }
      }
      if i < n - m {
        RollHash(texto, i, m, hashTexto, h);
        hashTexto := Rodar(hashTexto, texto[i], texto[i + m], h);
      }
      i := i + 1;
    }
    return -1;
  }
}
