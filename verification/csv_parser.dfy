/** The engine's CSV reader (cpp-engine/src/utils/csv_parser.cpp): trimming,
    the quote-toggling field splitter, the DNA check, and the line-by-line
    parse of `nombre_completo,cedula,cadena_adn` records. The file is given
    as the sequence of lines `std::getline` would produce, or `None` when it
    cannot be opened. */
module CsvParser {
  import opened Wrappers
  import opened Text
  import opened Adn
  import Matching

  /** One suspect record as the engine reads it. */
  datatype Sospechoso = Sospechoso(nombreCompleto: string, cedula: string, cadenaADN: string)

  /** Why `parsear` throws. Every per-line error carries the 1-based line number. */
  datatype ErrorCsv =
    | NoSeAbre(ruta: string)
    | CamposIncorrectos(linea: nat, encontrados: nat)
    | NombreVacio(linea: nat)
    | CedulaVacia(linea: nat)
    | AdnInvalido(linea: nat)
    | AdnCorto(linea: nat)
    | SinRegistros

  /** Minimum length of a suspect's DNA string. */
  const LONGITUD_MINIMA_ADN: nat := 20

  // ---------------------------------------------------------------------
  // trim

  /** `std::isspace` in the C locale: space, tab, newline, vertical tab,
      form feed and carriage return. */
  predicate EsEspacio(c: char)
  {
    c == ' ' || 9 <= c as int <= 13
  }

  /** First index at or after `i` that is not whitespace (or |s|). */
  function SaltarInicio(s: string, i: nat): (r: nat)
    requires i <= |s|
    ensures i <= r <= |s|
    ensures forall k :: i <= k < r ==> EsEspacio(s[k])
    ensures r < |s| ==> !EsEspacio(s[r])
    decreases |s| - i
  {
    if i < |s| && EsEspacio(s[i]) then SaltarInicio(s, i + 1) else i
  }

  /** Moving `fin` left past whitespace, never below `inicio`. */
  function SaltarFin(s: string, inicio: nat, fin: nat): (r: nat)
    requires inicio <= fin <= |s|
    ensures inicio <= r <= fin
    ensures forall k :: r <= k < fin ==> EsEspacio(s[k])
    ensures r > inicio ==> !EsEspacio(s[r - 1])
    decreases fin
  {
    if fin > inicio && EsEspacio(s[fin - 1]) then SaltarFin(s, inicio, fin - 1) else fin
  }

  /** `r` is the slice of `s` starting at `i`, and everything outside it is whitespace. */
  ghost predicate Recorte(s: string, i: int, r: string)
  {
    && 0 <= i && i + |r| <= |s| && s[i..i + |r|] == r
    && (forall k :: 0 <= k < i ==> EsEspacio(s[k]))
    && (forall k :: i + |r| <= k < |s| ==> EsEspacio(s[k]))
  }

  /** Neither end of `r` is whitespace. */
  predicate SinBordes(r: string)
  {
    |r| > 0 ==> !EsEspacio(r[0]) && !EsEspacio(r[|r| - 1])
  }

  /** `CSVParser::trim`: drop leading and trailing whitespace. */
  function Trim(s: string): (r: string)
    ensures SinBordes(r)
    ensures |r| <= |s|
  {
    var inicio := SaltarInicio(s, 0);
    var fin := SaltarFin(s, inicio, |s|);
    s[inicio..fin]
  }

  /** What trim removes is whitespace: the result is a slice of the input
      framed by whitespace only. */
  lemma TrimRecorta(s: string)
    ensures exists i :: Recorte(s, i, Trim(s))
  {
    var inicio := SaltarInicio(s, 0);
    var fin := SaltarFin(s, inicio, |s|);
    assert Trim(s) == s[inicio..fin];
    assert Recorte(s, inicio, Trim(s));
  }

  /** Trim is characterised by its two properties: a whitespace-only
      frame around a slice with non-whitespace ends. */
  lemma TrimUnico(s: string, i: int, t: string)
    requires Recorte(s, i, t) && SinBordes(t)
    ensures Trim(s) == t
  {
    var inicio := SaltarInicio(s, 0);
    var fin := SaltarFin(s, inicio, |s|);
    if |t| > 0 {
      assert s[i] == t[0] && s[i + |t| - 1] == t[|t| - 1];
      assert inicio == i;
      assert fin == i + |t|;
    } else {
      assert inicio == |s|;
    }
  }

  /** Trimming twice is trimming once. */
  lemma TrimIdempotente(s: string)
    ensures Trim(Trim(s)) == Trim(s)
  {
    var t := Trim(s);
    assert Recorte(t, 0, t) by {
      assert t[0..|t|] == t;
    }
    TrimUnico(t, 0, t);
  }

  /** A string with no whitespace at either end is its own trim. */
  lemma TrimSinBordes(s: string)
    requires SinBordes(s)
    ensures Trim(s) == s
  {
    assert Recorte(s, 0, s) by {
      assert s[0..|s|] == s;
    }
    TrimUnico(s, 0, s);
  }

  /** Trim is empty exactly when the string is all whitespace. */
  lemma TrimVacio(s: string)
    ensures Trim(s) == "" <==> forall k :: 0 <= k < |s| ==> EsEspacio(s[k])
  {
    if forall k :: 0 <= k < |s| ==> EsEspacio(s[k]) {
      assert Recorte(s, |s|, "");
      TrimUnico(s, |s|, "");
    }
  }

  // ---------------------------------------------------------------------
  // validarCadenaADN

  /** `CSVParser::validarCadenaADN`: non-empty and only A, T, C, G; no length
      condition here. */
  method ValidarCadenaADN(cadena: string) returns (ok: bool)
    ensures ok <==> EsCadenaADN(cadena)
  {
    if |cadena| == 0 {
      return false;
    }
    var i := 0;
    while i < |cadena|
      invariant 0 <= i <= |cadena|
      invariant forall k :: 0 <= k < i ==> EsBase(cadena[k])
    {
      var c := cadena[i];
      if c != 'A' && c != 'T' && c != 'C' && c != 'G' {
        return false;
      }
      i := i + 1;
    }
    return true;
  }

  // ---------------------------------------------------------------------
  // dividirLinea

  /** Prepends `a` to the first of `campos`. */
  function Anteponer(a: string, campos: seq<string>): (r: seq<string>)
    requires |campos| >= 1
    ensures |r| == |campos| && r[0] == a + campos[0] && r[1..] == campos[1..]
  {
    [a + campos[0]] + campos[1..]
  }

  lemma AnteponerVacio(campos: seq<string>)
    requires |campos| >= 1
    ensures Anteponer("", campos) == campos
  {
    assert "" + campos[0] == campos[0];
  }

  lemma AnteponerDos(a: string, b: string, campos: seq<string>)
    requires |campos| >= 1
    ensures Anteponer(a, Anteponer(b, campos)) == Anteponer(a + b, campos)
  {
    assert a + (b + campos[0]) == a + b + campos[0];
  }

  /** Reference reading of a line, first character first, with `dentro`
      telling whether a quote is open: a `"` toggles the state and is
      dropped, a `,` outside quotes ends the field, anything else is kept. */
  function Dividir(s: string, dentro: bool): (campos: seq<string>)
    ensures |campos| >= 1
    ensures forall k :: 0 <= k < |campos| ==> '"' !in campos[k]
  {
    if |s| == 0 then [""]
    else if s[0] == '"' then Dividir(s[1..], !dentro)
    else if s[0] == ',' && !dentro then [""] + Dividir(s[1..], dentro)
    else Anteponer([s[0]], Dividir(s[1..], dentro))
  }

  /** `CSVParser::dividirLinea`: the loop over the characters with the
      current field and the in-quotes flag. */
  method DividirLinea(linea: string) returns (campos: seq<string>)
    ensures campos == Dividir(linea, false)
  {
    campos := [];
    var campoActual := "";
    var dentroComillas := false;
    var i := 0;
    assert linea[0..] == linea;
    AnteponerVacio(Dividir(linea, false));
    while i < |linea|
      invariant 0 <= i <= |linea|
      invariant Dividir(linea, false) == campos + Anteponer(campoActual, Dividir(linea[i..], dentroComillas))
    {
      var c := linea[i];
      assert linea[i..][1..] == linea[i + 1..] && linea[i..][0] == c;
      if c == '"' {
        dentroComillas := !dentroComillas;
      } else if c == ',' && !dentroComillas {
        var resto := Dividir(linea[i + 1..], dentroComillas);
        assert campoActual + "" == campoActual;
        assert Anteponer(campoActual, [""] + resto) == [campoActual] + resto;
        AnteponerVacio(resto);
        campos := campos + [campoActual];
        campoActual := "";
      } else {
        AnteponerDos(campoActual, [c], Dividir(linea[i + 1..], dentroComillas));
        campoActual := campoActual + [c];
      }
      i := i + 1;
    }
    assert linea[i..] == [];
    assert campoActual + "" == campoActual;
    assert Anteponer(campoActual, [""]) == [campoActual];
    campos := campos + [campoActual];
  }

  /** Commas outside quotes. */
  function ComasFuera(s: string, dentro: bool): nat
  {
    if |s| == 0 then 0
    else if s[0] == '"' then ComasFuera(s[1..], !dentro)
    else (if s[0] == ',' && !dentro then 1 else 0) + ComasFuera(s[1..], dentro)
  }

  /** There is one field more than there are commas outside quotes. */
  lemma {:induction false} DividirCuenta(s: string, dentro: bool)
    ensures |Dividir(s, dentro)| == 1 + ComasFuera(s, dentro)
    decreases |s|
  {
    if |s| > 0 {
      if s[0] == '"' {
        DividirCuenta(s[1..], !dentro);
      } else {
        DividirCuenta(s[1..], dentro);
      }
    }
  }

  /** On a line without quotes the splitter is a plain split on `,`. */
  lemma {:induction false} DividirSinComillas(s: string)
    requires '"' !in s
    ensures Dividir(s, false) == Split(s, ',')
  {
    if |s| > 0 {
      DividirSinComillas(s[1..]);
    }
  }

  /** On a line without quotes, joining the fields with `,` gives the line back. */
  lemma UnirDividir(s: string)
    requires '"' !in s
    ensures Join(Dividir(s, false), ",") == s
  {
    DividirSinComillas(s);
    JoinSplit(s, ',');
  }

  /** A prefix free of quotes (and of commas, when outside quotes) is glued
      to the front of the first field. */
  lemma {:induction false} DividirPrefijo(a: string, s: string, dentro: bool)
    requires '"' !in a && (dentro || ',' !in a)
    ensures Dividir(a + s, dentro) == Anteponer(a, Dividir(s, dentro))
  {
    if |a| > 0 {
      assert (a + s)[1..] == a[1..] + s && (a + s)[0] == a[0];
      DividirPrefijo(a[1..], s, dentro);
      AnteponerDos([a[0]], a[1..], Dividir(s, dentro));
      assert [a[0]] + a[1..] == a;
    } else {
      assert a + s == s;
      AnteponerVacio(Dividir(s, dentro));
    }
  }

  /** A quoted field without inner quotes followed by a comma is read as
      its content. */
  lemma DividirCitado(a: string, s: string)
    requires '"' !in a
    ensures Dividir("\"" + a + "\"," + s, false) == [a] + Dividir(s, false)
  {
    var x := "\"" + a + "\"," + s;
    var y := "\"," + s;
    var resto := Dividir(s, false);
    assert x[0] == '"' && x[1..] == a + y;
    assert y[0] == '"' && y[1..] == "," + s;
    assert ("," + s)[0] == ',' && ("," + s)[1..] == s;
    assert Dividir(y, true) == [""] + resto;
    DividirPrefijo(a, y, true);
    assert a + "" == a;
    assert Anteponer(a, [""] + resto) == [a] + resto;
  }

  /** A plain field without quotes or commas followed by a comma is read as is. */
  lemma DividirPlano(a: string, s: string)
    requires '"' !in a && ',' !in a
    ensures Dividir(a + "," + s, false) == [a] + Dividir(s, false)
  {
    var resto := Dividir(s, false);
    assert a + "," + s == a + ("," + s);
    assert ("," + s)[0] == ',' && ("," + s)[1..] == s;
    assert Dividir("," + s, false) == [""] + resto;
    DividirPrefijo(a, "," + s, false);
    assert a + "" == a;
    assert Anteponer(a, [""] + resto) == [a] + resto;
  }

  // ---------------------------------------------------------------------
  // parsear

  /** `s.find(t) != std::string::npos`: `t` occurs somewhere in `s`. */
  predicate Contiene(s: string, t: string)
    decreases |s|
  {
    if |t| > |s| then false
    else if s[..|t|] == t then true
    else Contiene(s[1..], t)
  }

  /** `Contiene` is occurrence at some index. */
  lemma {:induction false} ContieneOcurre(s: string, t: string)
    ensures Contiene(s, t) <==> exists i :: Matching.OccursAt(s, t, i)
    decreases |s|
  {
    if |t| <= |s| {
      if s[..|t|] == t {
        assert Matching.OccursAt(s, t, 0);
      } else {
        ContieneOcurre(s[1..], t);
        if exists i :: Matching.OccursAt(s[1..], t, i) {
          var i :| Matching.OccursAt(s[1..], t, i);
          assert s[1..][i..i + |t|] == s[i + 1..i + 1 + |t|];
          assert Matching.OccursAt(s, t, i + 1);
        }
        if exists i :: Matching.OccursAt(s, t, i) {
          var i :| Matching.OccursAt(s, t, i);
          assert i != 0;
          assert s[1..][i - 1..i - 1 + |t|] == s[i..i + |t|];
          assert Matching.OccursAt(s[1..], t, i - 1);
        }
      }
    }
  }

  /** Line 1 is a header when it mentions `nombre` or `Nombre`. */
  predicate EsEncabezado(linea: string)
  {
    Contiene(linea, "nombre") || Contiene(linea, "Nombre")
  }

  /** Line index `k` (0-based) is skipped: blank, or the header line. */
  predicate Saltada(lineas: seq<string>, k: int)
    requires 0 <= k < |lineas|
  {
    Trim(lineas[k]) == "" || (k == 0 && EsEncabezado(lineas[k]))
  }

  /** An accepted record: non-empty name and cedula with no whitespace at
      either end (so each is its own trim, see `TrimSinBordes`), and a DNA
      string of bases of length at least 20. */
  ghost predicate Valido(s: Sospechoso)
  {
    && s.nombreCompleto != "" && SinBordes(s.nombreCompleto)
    && s.cedula != "" && SinBordes(s.cedula)
    && EsCadenaADN(s.cadenaADN) && |s.cadenaADN| >= LONGITUD_MINIMA_ADN
  }

  /** The checks of one non-skipped line, numbered `numero`, in source order. */
  function RevisarLinea(linea: string, numero: nat): (r: Result<Sospechoso, ErrorCsv>)
    ensures r.Success? ==> Valido(r.value)
    ensures r.Failure? ==> !r.error.NoSeAbre? && !r.error.SinRegistros? && r.error.linea == numero
  {
    var campos := Dividir(linea, false);
    if |campos| != 3 then Failure(CamposIncorrectos(numero, |campos|))
    else
      var s := Sospechoso(Trim(campos[0]), Trim(campos[1]), Trim(campos[2]));
      if s.nombreCompleto == "" then Failure(NombreVacio(numero))
      else if s.cedula == "" then Failure(CedulaVacia(numero))
      else if !EsCadenaADN(s.cadenaADN) then Failure(AdnInvalido(numero))
      else if |s.cadenaADN| < LONGITUD_MINIMA_ADN then Failure(AdnCorto(numero))
      else Success(s)
  }

  /** A line passes exactly when it has three fields, a non-blank name and
      cedula, and a DNA field that trims to at least 20 bases; the record is
      then made of the three trimmed fields. */
  lemma RevisarLineaAcepta(linea: string, numero: nat)
    ensures var campos := Dividir(linea, false);
            RevisarLinea(linea, numero).Success? <==>
              && |campos| == 3 && Trim(campos[0]) != "" && Trim(campos[1]) != ""
              && EsCadenaADN(Trim(campos[2])) && |Trim(campos[2])| >= LONGITUD_MINIMA_ADN
    ensures var campos := Dividir(linea, false);
            RevisarLinea(linea, numero).Success? ==>
              RevisarLinea(linea, numero).value == Sospechoso(Trim(campos[0]), Trim(campos[1]), Trim(campos[2]))
  {
  }

  /** Reference: the records of the first `n` lines, in order. */
  function Aceptados(lineas: seq<string>, n: nat): seq<Sospechoso>
    requires n <= |lineas|
  {
    if n == 0 then []
    else
      var previos := Aceptados(lineas, n - 1);
      if Saltada(lineas, n - 1) then previos
      else
        match RevisarLinea(lineas[n - 1], n)
        case Success(s) => previos + [s]
        case Failure(_) => previos
  }

  /** No non-skipped line among the first `n` fails its checks. */
  ghost predicate SinErrorHasta(lineas: seq<string>, n: int)
    requires 0 <= n <= |lineas|
  {
    forall k :: 0 <= k < n && !Saltada(lineas, k) ==> RevisarLinea(lineas[k], k + 1).Success?
  }

  /** Line index `k` is the first line that fails its checks. */
  ghost predicate PrimeraFallida(lineas: seq<string>, k: int)
  {
    && 0 <= k < |lineas| && SinErrorHasta(lineas, k)
    && !Saltada(lineas, k) && RevisarLinea(lineas[k], k + 1).Failure?
  }

  /** The records kept by `Aceptados` are all valid. */
  lemma {:induction false} AceptadosValidos(lineas: seq<string>, n: nat)
    requires n <= |lineas|
    ensures forall j :: 0 <= j < |Aceptados(lineas, n)| ==> Valido(Aceptados(lineas, n)[j])
  {
    if n > 0 {
      var previos := Aceptados(lineas, n - 1);
      AceptadosValidos(lineas, n - 1);
      var r := RevisarLinea(lineas[n - 1], n);
      if !Saltada(lineas, n - 1) && r.Success? {
        assert Aceptados(lineas, n) == previos + [r.value];
      } else {
        assert Aceptados(lineas, n) == previos;
      }
    }
  }

  /** `CSVParser::parsear`: skip blank lines and the header, reject the
      whole file at the first bad line (by its 1-based number), and reject
      a file with no record. */
  method Parsear(archivo: Option<seq<string>>, ruta: string) returns (r: Result<seq<Sospechoso>, ErrorCsv>)
    ensures archivo.None? ==> r == Failure(NoSeAbre(ruta))
    ensures archivo.Some? && SinErrorHasta(archivo.value, |archivo.value|) ==>
              var registros := Aceptados(archivo.value, |archivo.value|);
              r == if |registros| == 0 then Failure(SinRegistros) else Success(registros)
    ensures forall k :: archivo.Some? && PrimeraFallida(archivo.value, k) ==>
              r == Failure(RevisarLinea(archivo.value[k], k + 1).error)
    ensures r.Success? ==> |r.value| > 0 && forall j :: 0 <= j < |r.value| ==> Valido(r.value[j])
  {
    if archivo.None? {
      return Failure(NoSeAbre(ruta));
    }
    var lineas := archivo.value;
    var sospechosos, fallida := RecorrerLineas(lineas);
    if fallida.Some? {
      forall k | PrimeraFallida(lineas, k)
        ensures k == fallida.value
      {
        PrimeraFallidaUnica(lineas, fallida.value, k);
      }
      return Failure(RevisarLinea(lineas[fallida.value], fallida.value + 1).error);
    }
    forall k | PrimeraFallida(lineas, k)
      ensures false
    {
    }
    AceptadosValidos(lineas, |lineas|);
    if |sospechosos| == 0 {
      return Failure(SinRegistros);
    }
    return Success(sospechosos);
  }

  /** The loop of `parsear`: the records of the lines read so far, up to
      the first line that fails its checks, if any. */
  method RecorrerLineas(lineas: seq<string>) returns (sospechosos: seq<Sospechoso>, fallida: Option<nat>)
    ensures fallida.Some? ==> PrimeraFallida(lineas, fallida.value)
    ensures fallida.None? ==> SinErrorHasta(lineas, |lineas|) && sospechosos == Aceptados(lineas, |lineas|)
  {
    sospechosos := [];
    var i := 0;
    while i < |lineas|
      invariant 0 <= i <= |lineas|
      invariant SinErrorHasta(lineas, i)
      invariant sospechosos == Aceptados(lineas, i)
    {
      var linea := lineas[i];
      var numeroLinea := i + 1;
      AceptadosSiguiente(lineas, i);
      if Trim(linea) == "" || (numeroLinea == 1 && EsEncabezado(linea)) {
        assert Saltada(lineas, i);
        SinErrorSiguiente(lineas, i);
        i := i + 1;
        continue;
      }
      assert !Saltada(lineas, i);
      var revision := ProcesarLinea(linea, numeroLinea);
      if revision.Failure? {
        return sospechosos, Some(i);
      }
      sospechosos := sospechosos + [revision.value];
      SinErrorSiguiente(lineas, i);
      i := i + 1;
    }
    return sospechosos, None;
  }

  /** The body of the loop of `parsear` for one non-skipped line: split,
      count the fields, trim them, and check name, cedula and DNA in turn. */
  method ProcesarLinea(linea: string, numeroLinea: nat) returns (r: Result<Sospechoso, ErrorCsv>)
    ensures r == RevisarLinea(linea, numeroLinea)
  {
    var campos := DividirLinea(linea);
    if |campos| != 3 {
      return Failure(CamposIncorrectos(numeroLinea, |campos|));
    }
    var s := Sospechoso(Trim(campos[0]), Trim(campos[1]), Trim(campos[2]));
    if s.nombreCompleto == "" {
      return Failure(NombreVacio(numeroLinea));
    }
    if s.cedula == "" {
      return Failure(CedulaVacia(numeroLinea));
    }
    var adnValido := ValidarCadenaADN(s.cadenaADN);
    if !adnValido {
      return Failure(AdnInvalido(numeroLinea));
    }
    if |s.cadenaADN| < LONGITUD_MINIMA_ADN {
      return Failure(AdnCorto(numeroLinea));
    }
    return Success(s);
  }

  /** One more line extends `Aceptados` by that line's record, if any. */
  lemma AceptadosSiguiente(lineas: seq<string>, i: nat)
    requires i < |lineas|
    ensures var r := RevisarLinea(lineas[i], i + 1);
            Aceptados(lineas, i + 1) ==
              if Saltada(lineas, i) || r.Failure? then Aceptados(lineas, i) else Aceptados(lineas, i) + [r.value]
  {
  }

  /** A line that is skipped or passes extends `SinErrorHasta` by one. */
  lemma SinErrorSiguiente(lineas: seq<string>, i: nat)
    requires i < |lineas| && SinErrorHasta(lineas, i)
    requires Saltada(lineas, i) || RevisarLinea(lineas[i], i + 1).Success?
    ensures SinErrorHasta(lineas, i + 1)
  {
    forall k | 0 <= k < i + 1 && !Saltada(lineas, k)
      ensures RevisarLinea(lineas[k], k + 1).Success?
    {
      if k < i {
        assert RevisarLinea(lineas[k], k + 1).Success?;
      }
    }
  }

  /** At most one line is the first failing one. */
  lemma PrimeraFallidaUnica(lineas: seq<string>, i: int, k: int)
    requires PrimeraFallida(lineas, i) && PrimeraFallida(lineas, k)
    ensures i == k
  {
  }

  /** What `parsear` yields, stated without its loop: the open error, else
      the first failing line's error, else the accepted records when there
      are any. */
  ghost function ResultadoParsear(archivo: Option<seq<string>>, ruta: string): Result<seq<Sospechoso>, ErrorCsv>
  {
    if archivo.None? then Failure(NoSeAbre(ruta))
    else if exists k :: PrimeraFallida(archivo.value, k) then
      var k :| PrimeraFallida(archivo.value, k);
      Failure(RevisarLinea(archivo.value[k], k + 1).error)
    else if |Aceptados(archivo.value, |archivo.value|)| == 0 then Failure(SinRegistros)
    else Success(Aceptados(archivo.value, |archivo.value|))
  }

  /** Without a first failing line, no line fails. */
  lemma {:induction false} SinFallidaHasta(lineas: seq<string>, n: nat)
    requires n <= |lineas|
    requires forall k :: !PrimeraFallida(lineas, k)
    ensures SinErrorHasta(lineas, n)
  {
    if n > 0 {
      SinFallidaHasta(lineas, n - 1);
      assert !PrimeraFallida(lineas, n - 1);
      SinErrorSiguiente(lineas, n - 1);
    }
  }

  /** `parsear` as the engine calls it: its result is `ResultadoParsear`. */
  method LeerCsv(archivo: Option<seq<string>>, ruta: string) returns (r: Result<seq<Sospechoso>, ErrorCsv>)
    ensures r == ResultadoParsear(archivo, ruta)
    ensures r.Success? ==> |r.value| > 0 && forall j :: 0 <= j < |r.value| ==> Valido(r.value[j])
  {
    r := Parsear(archivo, ruta);
    if archivo.Some? {
      if exists k :: PrimeraFallida(archivo.value, k) {
        var k :| PrimeraFallida(archivo.value, k);
      } else {
        SinFallidaHasta(archivo.value, |archivo.value|);
      }
    }
  }

  /** The text of the exception `parsear` throws. */
  function Mensaje(e: ErrorCsv): string
  {
    match e
    case NoSeAbre(ruta) => "No se pudo abrir el archivo: " + ruta
    case CamposIncorrectos(n, k) =>
      "Error en línea " + NatToString(n) + ": se esperaban 3 campos, se encontraron " + NatToString(k)
    case NombreVacio(n) => "Error en línea " + NatToString(n) + ": nombre vacío"
    case CedulaVacia(n) => "Error en línea " + NatToString(n) + ": cédula vacía"
    case AdnInvalido(n) => "Error en línea " + NatToString(n) + ": cadena de ADN inválida (solo se permiten A, T, C, G)"
    case AdnCorto(n) => "Error en línea " + NatToString(n) + ": cadena de ADN muy corta (mínimo 20 caracteres)"
    case SinRegistros => "El archivo CSV no contiene registros válidos"
  }
}
