/** The engine's entry point (cpp-engine/src/main.cpp): the pattern-list
    splitter, the order in which arguments, patterns and the CSV file are
    checked, the average pattern length handed to the selector, and the
    dispatch to Aho-Corasick for several patterns or to the selected
    algorithm for one. The command line is `argv` (program name first), the
    CSV file is its lines (or `None` when it cannot be opened), and the
    elapsed time is a parameter. */
module EngineMain {
  import opened Wrappers
  import opened Text
  import opened Adn
  import opened Matching
  import CsvParser
  import AlgorithmSelector
  import opened JsonOutput
  import Kmp
  import RabinKarp
  import AhoCorasick

  // ---------------------------------------------------------------------
  // dividirPorComa

  /** The characters `dividirPorComa` trims: space and tab only. */
  predicate EsBlanco(c: char)
  {
    c == ' ' || c == '\t'
  }

  /** `find_first_not_of(" \t")` from index `i`; |s| stands for npos. */
  function PrimeroNoBlanco(s: string, i: nat): (r: nat)
    requires i <= |s|
    ensures i <= r <= |s|
    ensures r < |s| ==> !EsBlanco(s[r])
    ensures forall k :: i <= k < r ==> EsBlanco(s[k])
    decreases |s| - i
  {
    if i == |s| || !EsBlanco(s[i]) then i else PrimeroNoBlanco(s, i + 1)
  }

  /** `find_last_not_of(" \t")` among the first `j` characters; -1 stands for npos. */
  function UltimoNoBlanco(s: string, j: nat): (r: int)
    requires j <= |s|
    ensures -1 <= r < j
    ensures r >= 0 ==> !EsBlanco(s[r])
    ensures forall k :: r < k < j ==> EsBlanco(s[k])
  {
    if j == 0 then -1 else if !EsBlanco(s[j - 1]) then j - 1 else UltimoNoBlanco(s, j - 1)
  }

  /** Non-empty, and neither end is a space or a tab. */
  predicate SinBlancosEnBordes(s: string)
  {
    |s| > 0 && !EsBlanco(s[0]) && !EsBlanco(s[|s| - 1])
  }

  /** One item trimmed of spaces and tabs at both ends, or `None` when
      nothing else is left (the item is then dropped). */
  function Recortar(item: string): (r: Option<string>)
    ensures r.None? <==> forall k :: 0 <= k < |item| ==> EsBlanco(item[k])
    ensures r.Some? ==> SinBlancosEnBordes(r.value)
    ensures r.Some? ==> forall c :: c in r.value ==> c in item
  {
    var inicio := PrimeroNoBlanco(item, 0);
    var fin := UltimoNoBlanco(item, |item|);
    if inicio == |item| || fin == -1 then None
    else
      var r := item[inicio..fin + 1];
      assert forall c :: c in r ==> c in item by {
        forall c | c in r ensures c in item {
          var k :| 0 <= k < |r| && r[k] == c;
          assert item[inicio + k] == c;
        }
      }
      Some(r)
  }

  /** An item that is already trimmed is kept as it is. */
  lemma RecortarLimpio(item: string)
    requires SinBlancosEnBordes(item)
    ensures Recortar(item) == Some(item)
  {
    assert PrimeroNoBlanco(item, 0) == 0;
    assert UltimoNoBlanco(item, |item|) == |item| - 1;
    assert item[0..|item|] == item;
  }

  /** The trimmed items, in order, without the ones that were all blank. */
  function Limpiar(items: seq<string>): (r: seq<string>)
    ensures |r| <= |items|
    ensures forall k :: 0 <= k < |r| ==> SinBlancosEnBordes(r[k])
  {
    if |items| == 0 then []
    else
      match Recortar(items[0])
      case None => Limpiar(items[1..])
      case Some(t) => [t] + Limpiar(items[1..])
  }

  /** Trimming never brings in a comma. */
  lemma {:induction false} LimpiarSinComas(items: seq<string>)
    requires forall k :: 0 <= k < |items| ==> ',' !in items[k]
    ensures forall k :: 0 <= k < |Limpiar(items)| ==> ',' !in Limpiar(items)[k]
  {
    if |items| > 0 {
      LimpiarSinComas(items[1..]);
    }
  }

  /** Items that are already trimmed all come through unchanged. */
  lemma {:induction false} LimpiarLimpios(items: seq<string>)
    requires forall k :: 0 <= k < |items| ==> SinBlancosEnBordes(items[k])
    ensures Limpiar(items) == items
  {
    if |items| > 0 {
      RecortarLimpio(items[0]);
      LimpiarLimpios(items[1..]);
      assert items == [items[0]] + items[1..];
    }
  }

  /** A pattern as the engine can receive it in a list: non-empty, no comma,
      no space or tab at either end. */
  predicate PatronLimpio(p: string)
  {
    SinBlancosEnBordes(p) && ',' !in p
  }

  /** `dividirPorComa`: split on commas, trim spaces and tabs, drop the
      items left empty, keep the order. */
  function DividirPorComa(s: string): (r: seq<string>)
    ensures forall k :: 0 <= k < |r| ==> PatronLimpio(r[k])
  {
    LimpiarSinComas(Getline(s, ','));
    Limpiar(Getline(s, ','))
  }

  /** The backend joins the patterns with `,`; splitting that list gives
      back the same patterns, in the same order. */
  lemma DividirUnir(ps: seq<string>)
    requires forall k :: 0 <= k < |ps| ==> PatronLimpio(ps[k])
    ensures DividirPorComa(Join(ps, ",")) == ps
  {
    if |ps| == 0 {
      assert Join(ps, ",") == "";
    } else {
      var j := Join(ps, ",");
      JoinLast(ps, ",");
      SplitJoin(ps, ',');
      assert [','] == ",";
      assert Getline(j, ',') == ps;
      LimpiarLimpios(ps);
    }
  }

  // ---------------------------------------------------------------------
  // Pattern validation

  const LONGITUD_MINIMA_PATRON: nat := 5
  const LONGITUD_MAXIMA_PATRON: nat := 100

  /** A pattern `main` accepts: bases only, 5 to 100 of them. */
  predicate PatronValido(p: string)
  {
    EsCadenaADN(p) && LONGITUD_MINIMA_PATRON <= |p| <= LONGITUD_MAXIMA_PATRON
  }

  /** Index of the first pattern from `i` on that `main` rejects. */
  function PrimerInvalido(ps: seq<string>, i: nat): (r: Option<nat>)
    requires i <= |ps|
    ensures r.None? <==> forall k :: i <= k < |ps| ==> PatronValido(ps[k])
    ensures r.Some? ==> i <= r.value < |ps| && !PatronValido(ps[r.value])
    ensures r.Some? ==> forall k :: i <= k < r.value ==> PatronValido(ps[k])
    decreases |ps| - i
  {
    if i == |ps| then None
    else if !PatronValido(ps[i]) then Some(i)
    else PrimerInvalido(ps, i + 1)
  }

  /** The error report for pattern number `i` (0-based): the alphabet check
      comes first, the length check second. */
  function ErrorPatron(p: string, i: nat): Fallo
  {
    if !EsCadenaADN(p) then
      Fallo("Patrón " + NatToString(i + 1) + " inválido: \"" + p + "\"",
            "INVALID_PATTERN", "Los patrones solo pueden contener los caracteres A, T, C, G")
    else
      Fallo("Patrón " + NatToString(i + 1) + " tiene longitud inválida: " + NatToString(|p|),
            "INVALID_PATTERN_LENGTH", "Cada patrón debe tener entre 5 y 100 caracteres")
  }

  /** The validation loop of `main`: the first rejected pattern decides the error. */
  method ValidarPatrones(ps: seq<string>) returns (f: Option<Fallo>)
    ensures PrimerInvalido(ps, 0).None? ==> f == None
    ensures PrimerInvalido(ps, 0).Some? ==>
              var k := PrimerInvalido(ps, 0).value; f == Some(ErrorPatron(ps[k], k))
  {
    var i := 0;
    while i < |ps|
      invariant 0 <= i <= |ps|
      invariant PrimerInvalido(ps, 0) == PrimerInvalido(ps, i)
    {
      var patron := ps[i];
      var ok := CsvParser.ValidarCadenaADN(patron);
      if !ok {
        return Some(ErrorPatron(patron, i));
      }
      if |patron| < LONGITUD_MINIMA_PATRON || |patron| > LONGITUD_MAXIMA_PATRON {
        return Some(ErrorPatron(patron, i));
      }
      i := i + 1;
    }
    return None;
  }

  // ---------------------------------------------------------------------
  // Average pattern length

  function SumaLongitudes(ps: seq<string>): nat
  {
    if |ps| == 0 then 0 else |ps[0]| + SumaLongitudes(ps[1..])
  }

  /** `longitudTotal / patrones.size()`: integer division, rounding down. */
  function LongitudPromedio(ps: seq<string>): (r: nat)
    requires |ps| > 0
    ensures r * |ps| <= SumaLongitudes(ps) < (r + 1) * |ps|
  {
    SumaLongitudes(ps) / |ps|
  }

  /** The sum of lengths lies between |ps| times the shortest and |ps|
      times the longest allowed length. */
  lemma {:induction false} SumaAcotada(ps: seq<string>, lo: nat, hi: nat)
    requires forall k :: 0 <= k < |ps| ==> lo <= |ps[k]| <= hi
    ensures lo * |ps| <= SumaLongitudes(ps) <= hi * |ps|
  {
    if |ps| > 0 {
      SumaAcotada(ps[1..], lo, hi);
    }
  }

  /** With every pattern valid, the average handed to the selector is a
      valid pattern length too. */
  lemma PromedioValido(ps: seq<string>)
    requires |ps| > 0 && forall k :: 0 <= k < |ps| ==> PatronValido(ps[k])
    ensures LONGITUD_MINIMA_PATRON <= LongitudPromedio(ps) <= LONGITUD_MAXIMA_PATRON
  {
    var n := |ps|;
    var r := LongitudPromedio(ps);
    SumaAcotada(ps, LONGITUD_MINIMA_PATRON, LONGITUD_MAXIMA_PATRON);
    CotaProducto(r, LONGITUD_MAXIMA_PATRON, n);
    CotaProducto(LONGITUD_MINIMA_PATRON - 1, r, n);
  }

  /** `a * n < (b + 1) * n` with `n > 0` forces `a <= b`. */
  lemma CotaProducto(a: int, b: int, n: nat)
    requires n > 0 && a * n < (b + 1) * n
    ensures a <= b
  {
    if a > b {
      MulMonotona(b + 1, a, n);
    }
  }

  /** Multiplying by a natural number keeps the order. */
  lemma {:induction false} MulMonotona(x: int, y: int, n: nat)
    requires x <= y
    ensures x * n <= y * n
  {
    if n > 0 {
      MulMonotona(x, y, n - 1);
    }
  }

  // ---------------------------------------------------------------------
  // One pattern

  type Sospechoso = CsvParser.Sospechoso

  /** The match a suspect contributes for pattern number `id` at `posicion`. */
  function Hallazgo(s: Sospechoso, id: int, patron: string, posicion: int): Coincidencia
  {
    Coincidencia(s.nombreCompleto, s.cedula, id, patron, posicion)
  }

  /** Reference result for one pattern over the first `n` suspects: the
      leftmost occurrence in each suspect where the pattern occurs. */
  function UnPatron(sospechosos: seq<Sospechoso>, patron: string, n: nat): seq<Coincidencia>
    requires n <= |sospechosos|
  {
    if n == 0 then []
    else
      var previas := UnPatron(sospechosos, patron, n - 1);
      var s := sospechosos[n - 1];
      var posicion := FirstOccurrence(s.cadenaADN, patron);
      if posicion == -1 then previas else previas + [Hallazgo(s, 0, patron, posicion)]
  }

  /** The single-pattern loop of `main`: every algorithm the selector may
      pick returns the leftmost occurrence, so the matches are the same
      whichever one ran. */
  method BuscarUnPatron(sospechosos: seq<Sospechoso>, patron: string, algoritmo: AlgorithmSelector.Algoritmo)
    returns (coincidencias: seq<Coincidencia>)
    requires |patron| > 0
    ensures coincidencias == UnPatron(sospechosos, patron, |sospechosos|)
  {
    coincidencias := [];
    var i := 0;
    while i < |sospechosos|
      invariant 0 <= i <= |sospechosos|
      invariant coincidencias == UnPatron(sospechosos, patron, i)
    {
      var s := sospechosos[i];
      var posicion := BuscarCon(algoritmo, s.cadenaADN, patron);
      if posicion != -1 {
        coincidencias := coincidencias + [Hallazgo(s, 0, patron, posicion)];
      }
      i := i + 1;
    }
  }

  /** One search with the algorithm the selector picked: whichever it is,
      the answer is the leftmost occurrence. */
  method BuscarCon(algoritmo: AlgorithmSelector.Algoritmo, texto: string, patron: string) returns (posicion: int)
    requires |patron| > 0
    ensures posicion == FirstOccurrence(texto, patron)
  {
    match algoritmo {
      case KMP => posicion := Kmp.Buscar(texto, patron);
      case RABIN_KARP => posicion := RabinKarp.Buscar(texto, patron);
      case AHO_CORASICK => posicion := AhoCorasick.Buscar(texto, patron);
    }
    LeftmostUnique(texto, patron, posicion, FirstOccurrence(texto, patron));
  }

  /** `origen[t]` is the suspect match `t` belongs to; for one pattern
      each suspect contributes at most one match, at its leftmost
      occurrence, and every suspect among the first `n` where the pattern
      occurs contributes one. */
  ghost predicate OrigenUnPatron(sospechosos: seq<Sospechoso>, patron: string, n: nat,
                                 cs: seq<Coincidencia>, origen: seq<nat>)
    requires n <= |sospechosos|
  {
    && |origen| == |cs|
    && (forall t :: 0 <= t < |cs| ==> origen[t] < n)
    && (forall a, b :: 0 <= a < b < |cs| ==> origen[a] < origen[b])
    && (forall t :: 0 <= t < |cs| ==>
          cs[t] == Hallazgo(sospechosos[origen[t]], 0, patron, cs[t].posicion)
          && cs[t].posicion != -1 && IsLeftmost(sospechosos[origen[t]].cadenaADN, patron, cs[t].posicion))
    && (forall j, p :: 0 <= j < n && OccursAt(sospechosos[j].cadenaADN, patron, p) ==> j in origen)
  }

  /** The single-pattern matches are exactly the leftmost occurrences, one
      per suspect where the pattern occurs, in suspect order. */
  lemma {:induction false} UnPatronCorrecto(sospechosos: seq<Sospechoso>, patron: string, n: nat)
    returns (origen: seq<nat>)
    requires n <= |sospechosos|
    ensures OrigenUnPatron(sospechosos, patron, n, UnPatron(sospechosos, patron, n), origen)
  {
    if n == 0 {
      origen := [];
    } else {
      var previo := UnPatronCorrecto(sospechosos, patron, n - 1);
      if FirstOccurrence(sospechosos[n - 1].cadenaADN, patron) == -1 {
        origen := previo;
        UnPatronSinOcurrencia(sospechosos, patron, n, previo);
      } else {
        origen := previo + [n - 1];
        UnPatronConOcurrencia(sospechosos, patron, n, previo);
      }
    }
  }

  /** A suspect without the pattern adds no match. */
  lemma UnPatronSinOcurrencia(sospechosos: seq<Sospechoso>, patron: string, n: nat, previo: seq<nat>)
    requires 0 < n <= |sospechosos|
    requires OrigenUnPatron(sospechosos, patron, n - 1, UnPatron(sospechosos, patron, n - 1), previo)
    requires FirstOccurrence(sospechosos[n - 1].cadenaADN, patron) == -1
    ensures OrigenUnPatron(sospechosos, patron, n, UnPatron(sospechosos, patron, n), previo)
  {
    var s := sospechosos[n - 1];
    assert IsLeftmost(s.cadenaADN, patron, -1);
    assert forall p :: !OccursAt(s.cadenaADN, patron, p);
    assert UnPatron(sospechosos, patron, n) == UnPatron(sospechosos, patron, n - 1);
  }

  /** A suspect with the pattern adds one match, at its leftmost occurrence. */
  lemma UnPatronConOcurrencia(sospechosos: seq<Sospechoso>, patron: string, n: nat, previo: seq<nat>)
    requires 0 < n <= |sospechosos|
    requires OrigenUnPatron(sospechosos, patron, n - 1, UnPatron(sospechosos, patron, n - 1), previo)
    requires FirstOccurrence(sospechosos[n - 1].cadenaADN, patron) != -1
    ensures OrigenUnPatron(sospechosos, patron, n, UnPatron(sospechosos, patron, n), previo + [n - 1])
  {
    var s := sospechosos[n - 1];
    var posicion := FirstOccurrence(s.cadenaADN, patron);
    var previas := UnPatron(sospechosos, patron, n - 1);
    var origen := previo + [n - 1];
    var cs := previas + [Hallazgo(s, 0, patron, posicion)];
    assert UnPatron(sospechosos, patron, n) == cs;
    forall t | 0 <= t < |cs|
      ensures cs[t] == Hallazgo(sospechosos[origen[t]], 0, patron, cs[t].posicion)
              && cs[t].posicion != -1 && IsLeftmost(sospechosos[origen[t]].cadenaADN, patron, cs[t].posicion)
    {
      if t < |previas| {
        assert cs[t] == previas[t] && origen[t] == previo[t];
      }
    }
    forall j, p | 0 <= j < n && OccursAt(sospechosos[j].cadenaADN, patron, p)
      ensures j in origen
    {
      if j < n - 1 {
        assert j in previo;
      } else {
        assert origen[|origen| - 1] == j;
      }
    }
  }

  // ---------------------------------------------------------------------
  // Several patterns

  /** The matches of one suspect, converted from Aho-Corasick's results:
      each result reads back from its match, so distinct results stay
      distinct, and real occurrences become real matches. */
  function Convertidas(s: Sospechoso, patrones: seq<string>, res: seq<AhoCorasick.CoincidenciaMultiple>): (cs: seq<Coincidencia>)
    requires forall t :: 0 <= t < |res| ==> 0 <= res[t].patronId < |patrones|
    ensures |cs| == |res|
    ensures forall t :: 0 <= t < |res| ==>
              cs[t] == Hallazgo(s, res[t].patronId, patrones[res[t].patronId], res[t].posicion)
    ensures forall t :: 0 <= t < |res| ==>
              AhoCorasick.CoincidenciaMultiple(cs[t].patronId, cs[t].posicion) == res[t]
              && cs[t].patron == patrones[res[t].patronId]
              && cs[t].cedula == s.cedula && cs[t].nombre == s.nombreCompleto
    ensures (forall a, b :: 0 <= a < b < |res| ==> res[a] != res[b]) ==>
              forall a, b :: 0 <= a < b < |cs| ==> cs[a] != cs[b]
    ensures (forall t :: 0 <= t < |res| ==> OccursAt(s.cadenaADN, patrones[res[t].patronId], res[t].posicion)) ==>
              forall t :: 0 <= t < |cs| ==> HallazgoReal(s, patrones, cs[t])
  {
    seq(|res|, t requires 0 <= t < |res| => Hallazgo(s, res[t].patronId, patrones[res[t].patronId], res[t].posicion))
  }

  /** A real match: pattern `id` of the list, spelled out, occurring in suspect `s` at its position. */
  ghost predicate HallazgoReal(s: Sospechoso, patrones: seq<string>, c: Coincidencia)
  {
    && 0 <= c.patronId < |patrones|
    && c == Hallazgo(s, c.patronId, patrones[c.patronId], c.posicion)
    && OccursAt(s.cadenaADN, patrones[c.patronId], c.posicion)
  }

  /** For several patterns over the first `n` suspects: every match is a
      real occurrence in the suspect `origen` names, suspects come in
      input order, every occurrence of every pattern is reported, and no
      match of one suspect is reported twice. */
  ghost predicate OrigenVarios(sospechosos: seq<Sospechoso>, patrones: seq<string>, n: nat,
                               cs: seq<Coincidencia>, origen: seq<nat>)
    requires n <= |sospechosos|
  {
    && |origen| == |cs|
    && (forall t :: 0 <= t < |cs| ==> origen[t] < n && HallazgoReal(sospechosos[origen[t]], patrones, cs[t]))
    && (forall a, b :: 0 <= a < b < |cs| ==> origen[a] <= origen[b])
    && (forall a, b :: 0 <= a < b < |cs| && origen[a] == origen[b] ==> cs[a] != cs[b])
    && (forall j, k, p :: 0 <= j < n && 0 <= k < |patrones| && OccursAt(sospechosos[j].cadenaADN, patrones[k], p) ==>
          Hallazgo(sospechosos[j], k, patrones[k], p) in cs)
  }

  /** The multi-pattern loop of `main`: Aho-Corasick over each suspect in
      turn, each result converted to a match naming its pattern. */
  method BuscarVarios(sospechosos: seq<Sospechoso>, patrones: seq<string>)
    returns (coincidencias: seq<Coincidencia>, ghost origen: seq<nat>)
    requires forall k :: 0 <= k < |patrones| ==> |patrones[k]| > 0
    ensures OrigenVarios(sospechosos, patrones, |sospechosos|, coincidencias, origen)
    ensures forall j, k, p :: 0 <= j < |sospechosos| && 0 <= k < |patrones| && OccursAt(sospechosos[j].cadenaADN, patrones[k], p) ==>
              Hallazgo(sospechosos[j], k, patrones[k], p) in coincidencias
    ensures forall c :: c in coincidencias ==> 0 <= c.patronId < |patrones| && c.patron == patrones[c.patronId]
    ensures (forall j, k :: 0 <= j < k < |sospechosos| ==> sospechosos[j].cedula != sospechosos[k].cedula) ==>
              forall a, b :: 0 <= a < b < |coincidencias| ==> coincidencias[a] != coincidencias[b]
  {
    coincidencias := [];
    origen := [];
    var i := 0;
    while i < |sospechosos|
      invariant 0 <= i <= |sospechosos|
      invariant OrigenVarios(sospechosos, patrones, i, coincidencias, origen)
    {
      var s := sospechosos[i];
      var res := AhoCorasick.BuscarMultiple(s.cadenaADN, patrones);
      var nuevas := Convertidas(s, patrones, res);
      VariosSiguiente(sospechosos, patrones, i, coincidencias, origen, res, nuevas);
      coincidencias := coincidencias + nuevas;
      origen := origen + seq(|nuevas|, _ => i);
      i := i + 1;
    }
    UnicasPorCedula(sospechosos, patrones, coincidencias, origen);
  }

  /** With one suspect per cedula, matches of different suspects differ in
      their cedula, so no match is reported twice. */
  lemma UnicasPorCedula(sospechosos: seq<Sospechoso>, patrones: seq<string>, cs: seq<Coincidencia>, origen: seq<nat>)
    requires OrigenVarios(sospechosos, patrones, |sospechosos|, cs, origen)
    ensures (forall j, k :: 0 <= j < k < |sospechosos| ==> sospechosos[j].cedula != sospechosos[k].cedula) ==>
              forall a, b :: 0 <= a < b < |cs| ==> cs[a] != cs[b]
  {
    if forall j, k :: 0 <= j < k < |sospechosos| ==> sospechosos[j].cedula != sospechosos[k].cedula {
      forall a, b | 0 <= a < b < |cs|
        ensures cs[a] != cs[b]
      {
        assert HallazgoReal(sospechosos[origen[a]], patrones, cs[a]);
        assert HallazgoReal(sospechosos[origen[b]], patrones, cs[b]);
        if origen[a] != origen[b] {
          assert cs[a].cedula != cs[b].cedula;
        }
      }
    }
  }

  /** One more suspect's converted matches extend `OrigenVarios` by one suspect. */
  lemma VariosSiguiente(sospechosos: seq<Sospechoso>, patrones: seq<string>, i: nat,
                        cs: seq<Coincidencia>, origen: seq<nat>,
                        res: seq<AhoCorasick.CoincidenciaMultiple>, nuevas: seq<Coincidencia>)
    requires i < |sospechosos|
    requires OrigenVarios(sospechosos, patrones, i, cs, origen)
    requires forall t :: 0 <= t < |res| ==>
               0 <= res[t].patronId < |patrones| &&
               OccursAt(sospechosos[i].cadenaADN, patrones[res[t].patronId], res[t].posicion)
    requires forall k, p :: 0 <= k < |patrones| && |patrones[k]| > 0 && OccursAt(sospechosos[i].cadenaADN, patrones[k], p) ==>
               AhoCorasick.CoincidenciaMultiple(k, p) in res
    requires forall a, b :: 0 <= a < b < |res| ==> res[a] != res[b]
    requires forall k :: 0 <= k < |patrones| ==> |patrones[k]| > 0
    requires nuevas == Convertidas(sospechosos[i], patrones, res)
    ensures OrigenVarios(sospechosos, patrones, i + 1, cs + nuevas, origen + seq(|nuevas|, _ => i))
  {
    var s := sospechosos[i];
    var cs' := cs + nuevas;
    var origen' := origen + seq(|nuevas|, _ => i);
    forall t | 0 <= t < |cs'|
      ensures origen'[t] < i + 1 && HallazgoReal(sospechosos[origen'[t]], patrones, cs'[t])
    {
      if t < |cs| {
        assert cs'[t] == cs[t] && origen'[t] == origen[t];
      } else {
        assert cs'[t] == nuevas[t - |cs|] && origen'[t] == i;
      }
    }
    UnicasSiguiente(i, cs, origen, nuevas);
    forall j, k, p | 0 <= j < i + 1 && 0 <= k < |patrones| && OccursAt(sospechosos[j].cadenaADN, patrones[k], p)
      ensures Hallazgo(sospechosos[j], k, patrones[k], p) in cs'
    {
      if j < i {
        assert Hallazgo(sospechosos[j], k, patrones[k], p) in cs;
      } else {
        assert AhoCorasick.CoincidenciaMultiple(k, p) in res;
        var t :| 0 <= t < |res| && res[t] == AhoCorasick.CoincidenciaMultiple(k, p);
        assert nuevas[t] == Hallazgo(s, k, patrones[k], p);
        assert cs'[|cs| + t] == nuevas[t];
      }
    }
  }

  /** Appending one more suspect's distinct matches, tagged with that
      suspect, keeps the matches of every suspect distinct. */
  lemma UnicasSiguiente(i: nat, cs: seq<Coincidencia>, origen: seq<nat>, nuevas: seq<Coincidencia>)
    requires |origen| == |cs| && forall t :: 0 <= t < |cs| ==> origen[t] < i
    requires forall a, b :: 0 <= a < b < |cs| && origen[a] == origen[b] ==> cs[a] != cs[b]
    requires forall a, b :: 0 <= a < b < |nuevas| ==> nuevas[a] != nuevas[b]
    ensures var cs', origen' := cs + nuevas, origen + seq(|nuevas|, _ => i);
            forall a, b :: 0 <= a < b < |cs'| && origen'[a] == origen'[b] ==> cs'[a] != cs'[b]
  {
    var cs', origen' := cs + nuevas, origen + seq(|nuevas|, _ => i);
    assert forall t :: 0 <= t < |cs| ==> origen'[t] == origen[t] < i && cs'[t] == cs[t];
    assert forall t :: |cs| <= t < |cs'| ==> origen'[t] == i && cs'[t] == nuevas[t - |cs|];
  }

  // ---------------------------------------------------------------------
  // main

  const USO: string := "Uso: ./busqueda_adn <patron1[,patron2,...]> <ruta_csv>"

  /** The error `main` reports before any search, if any: argument count,
      then an empty pattern list, then the first rejected pattern, then the
      CSV file. */
  ghost function FalloPrevio(argv: seq<string>, archivo: Option<seq<string>>): Option<Fallo>
  {
    if |argv| != 3 then Some(Fallo("Argumentos insuficientes", "INVALID_ARGUMENTS", USO))
    else
      var patrones := DividirPorComa(argv[1]);
      if |patrones| == 0 then
        Some(Fallo("No se especificaron patrones", "EMPTY_PATTERN", "Debe proporcionar al menos un patrón de ADN"))
      else if PrimerInvalido(patrones, 0).Some? then
        var k := PrimerInvalido(patrones, 0).value;
        Some(ErrorPatron(patrones[k], k))
      else
        match CsvParser.ResultadoParsear(archivo, argv[2])
        case Failure(e) => Some(Fallo("Error al leer archivo CSV", "FILE_ERROR", CsvParser.Mensaje(e)))
        case Success(_) => None
  }

  /** When `main` gets past its checks, there are three arguments, at
      least one pattern, every pattern is valid, and the CSV file gave a
      non-empty list of valid suspects. */
  lemma SinFalloPrevio(argv: seq<string>, archivo: Option<seq<string>>)
    requires FalloPrevio(argv, archivo).None?
    ensures |argv| == 3
    ensures var patrones := DividirPorComa(argv[1]);
            |patrones| > 0 && forall k :: 0 <= k < |patrones| ==> PatronValido(patrones[k])
    ensures var r := CsvParser.ResultadoParsear(archivo, argv[2]);
            r.Success? && |r.value| > 0 && forall j :: 0 <= j < |r.value| ==> CsvParser.Valido(r.value[j])
  {
    var lineas := archivo.value;
    CsvParser.AceptadosValidos(lineas, |lineas|);
  }

  /** `main`: one JSON report and exit code 1 for any error found before
      the search, otherwise the success report and exit code 0. The
      report's matches come from Aho-Corasick for several patterns and
      from the selected algorithm for one. */
  method Principal(argv: seq<string>, archivo: Option<seq<string>>, duracionMs: int)
    returns (salida: Json, codigo: int, coincidencias: seq<Coincidencia>, ghost origen: seq<nat>)
    ensures FalloPrevio(argv, archivo).Some? ==>
              var f := FalloPrevio(argv, archivo).value;
              codigo == 1 && salida == GenerarError(f.mensaje, f.codigo, f.detalles) && coincidencias == []
    ensures FalloPrevio(argv, archivo).None? ==>
              var patrones := DividirPorComa(argv[1]);
              var sospechosos := CsvParser.ResultadoParsear(archivo, argv[2]).value;
              var promedio := LongitudPromedio(patrones);
              var algoritmo := AlgorithmSelector.Seleccionar(|patrones|, promedio, |sospechosos|);
              && codigo == 0
              && salida == GenerarExito(patrones, AlgorithmSelector.ToString(algoritmo),
                                        AlgorithmSelector.ObtenerCriterio(algoritmo, |patrones|, promedio, |sospechosos|),
                                        |sospechosos|, coincidencias, duracionMs)
              && (|patrones| == 1 ==> coincidencias == UnPatron(sospechosos, patrones[0], |sospechosos|))
              && (|patrones| >= 2 ==> OrigenVarios(sospechosos, patrones, |sospechosos|, coincidencias, origen))
  {
    coincidencias := [];
    origen := [];
    if |argv| != 3 {
      salida := GenerarError("Argumentos insuficientes", "INVALID_ARGUMENTS", USO);
      codigo := 1;
      return;
    }
    var patrones := DividirPorComa(argv[1]);
    if |patrones| == 0 {
      salida := GenerarError("No se especificaron patrones", "EMPTY_PATTERN", "Debe proporcionar al menos un patrón de ADN");
      codigo := 1;
      return;
    }
    var fallo := ValidarPatrones(patrones);
    if fallo.Some? {
      salida := GenerarError(fallo.value.mensaje, fallo.value.codigo, fallo.value.detalles);
      codigo := 1;
      return;
    }
    var leido := CsvParser.LeerCsv(archivo, argv[2]);
    if leido.Failure? {
      salida := GenerarError("Error al leer archivo CSV", "FILE_ERROR", CsvParser.Mensaje(leido.error));
      codigo := 1;
      return;
    }
    var sospechosos := leido.value;
    var promedio := LongitudPromedio(patrones);
    var numPatrones := |patrones|;
    var algoritmo := AlgorithmSelector.Seleccionar(numPatrones, promedio, |sospechosos|);
    var nombre := AlgorithmSelector.ToString(algoritmo);
    var criterio := AlgorithmSelector.ObtenerCriterio(algoritmo, numPatrones, promedio, |sospechosos|);
    if numPatrones >= 2 {
      coincidencias, origen := BuscarVarios(sospechosos, patrones);
    } else {
      coincidencias := BuscarUnPatron(sospechosos, patrones[0], algoritmo);
    }
    salida := GenerarExito(patrones, nombre, criterio, |sospechosos|, coincidencias, duracionMs);
    codigo := 0;
  }

  // ---------------------------------------------------------------------
  // Fields written without escaping

  /** No special JSON character in `s`. */
  predicate SinEspeciales(s: string)
  {
    forall k :: 0 <= k < |s| ==> !Especial(s[k])
  }

  /** `generarExito` writes the algorithm name without `escaparJSON`; no
      name holds a character that needs escaping, so the raw text is the
      escaped text. */
  lemma NombreSinEscapar(a: AlgorithmSelector.Algoritmo)
    ensures EscaparJSON(AlgorithmSelector.ToString(a)) == AlgorithmSelector.ToString(a)
  {
    assert SinEspeciales(AlgorithmSelector.ToString(a));
    EscaparIdentidad(AlgorithmSelector.ToString(a));
  }

  lemma CriteriosLargosSinEspeciales()
    ensures SinEspeciales(AlgorithmSelector.CRITERIO_MULTIPLES)
    ensures SinEspeciales(AlgorithmSelector.CRITERIO_MEDIO)
  {
  }

  lemma CriteriosCortosSinEspeciales()
    ensures SinEspeciales(AlgorithmSelector.CRITERIO_CORTO)
    ensures SinEspeciales(AlgorithmSelector.CRITERIO_DEFECTO)
    ensures SinEspeciales(AlgorithmSelector.CRITERIO_LARGO)
  {
  }

  /** Likewise for the selection criterion `generarExito` writes raw. */
  lemma CriterioSinEscapar(a: AlgorithmSelector.Algoritmo, numPatrones: int, longitud: int, numSospechosos: int)
    ensures var c := AlgorithmSelector.ObtenerCriterio(a, numPatrones, longitud, numSospechosos);
            EscaparJSON(c) == c
  {
    CriteriosLargosSinEspeciales();
    CriteriosCortosSinEspeciales();
    EscaparIdentidad(AlgorithmSelector.ObtenerCriterio(a, numPatrones, longitud, numSospechosos));
  }

  lemma CodigosLargosSinEspeciales()
    ensures SinEspeciales("INVALID_ARGUMENTS")
    ensures SinEspeciales("INVALID_PATTERN_LENGTH")
  {
  }

  lemma CodigosCortosSinEspeciales()
    ensures SinEspeciales("EMPTY_PATTERN")
    ensures SinEspeciales("INVALID_PATTERN")
    ensures SinEspeciales("FILE_ERROR")
  {
  }

  /** Likewise for the error codes `generarError` writes raw. */
  lemma CodigoSinEscapar(codigo: string)
    requires codigo in {"INVALID_ARGUMENTS", "EMPTY_PATTERN", "INVALID_PATTERN", "INVALID_PATTERN_LENGTH", "FILE_ERROR"}
    ensures EscaparJSON(codigo) == codigo
  {
    CodigosLargosSinEspeciales();
    CodigosCortosSinEspeciales();
    EscaparIdentidad(codigo);
  }
}
