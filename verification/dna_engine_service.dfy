/** The backend's gateway to the matching engine
    (backend/src/services/dnaEngineService.js): the field escaping of
    `escaparCSV` (rules 6 and 7 of section 2 of RFC 4180), the content of
    the temporary CSV file, the classification of the engine process's
    outcome, and the create, run, parse, hash, delete lifecycle of
    `ejecutarBusqueda` over an abstract file store. The engine process,
    `JSON.parse`, SHA-256, the clock and the random file-name part are
    parameters. */
module DnaEngineService {
  import opened Wrappers
  import opened Text
  import opened Adn
  import JsText
  import CsvParser
  import JsonOutput

  // ---------------------------------------------------------------------
  // escaparCSV

  /** A field is quoted when it holds a comma, a double quote or a line feed. */
  predicate NecesitaComillas(v: string)
  {
    ',' in v || '"' in v || '\n' in v
  }

  /** `valor.replace(/"/g, '""')`: every double quote doubled. */
  function DuplicarComillas(v: string): (r: string)
    ensures |r| == |v| + Count(v, '"')
  {
    if |v| == 0 then ""
    else (if v[0] == '"' then "\"\"" else [v[0]]) + DuplicarComillas(v[1..])
  }

  /** `escaparCSV` on a string: unchanged unless it needs quoting, otherwise
      enclosed in double quotes with its own quotes doubled. */
  function EscaparCSV(v: string): (r: string)
    ensures !NecesitaComillas(v) ==> r == v
    ensures NecesitaComillas(v) ==> |r| == |v| + Count(v, '"') + 2 && r[0] == '"' && r[|r| - 1] == '"'
  {
    if NecesitaComillas(v) then "\"" + DuplicarComillas(v) + "\"" else v
  }

  /** Reads every `""` as one `"`. */
  function Colapsar(s: string): string
  {
    if |s| == 0 then ""
    else if |s| >= 2 && s[0] == '"' && s[1] == '"' then "\"" + Colapsar(s[2..])
    else [s[0]] + Colapsar(s[1..])
  }

  /** A field as section 2 of RFC 4180 reads it: one enclosed in double
      quotes loses them and has each inner `""` read as `"`; any other
      field is taken as it is. */
  function DesescaparCSV(t: string): string
  {
    if |t| >= 2 && t[0] == '"' && t[|t| - 1] == '"' then Colapsar(t[1..|t| - 1]) else t
  }

  lemma {:induction false} ColapsarDuplicar(v: string)
    ensures Colapsar(DuplicarComillas(v)) == v
  {
    if |v| > 0 {
      var d := DuplicarComillas(v);
      ColapsarDuplicar(v[1..]);
      if v[0] == '"' {
        assert d == "\"\"" + DuplicarComillas(v[1..]);
        assert d[2..] == DuplicarComillas(v[1..]);
      } else {
        assert d == [v[0]] + DuplicarComillas(v[1..]);
        assert d[1..] == DuplicarComillas(v[1..]);
      }
      assert v == [v[0]] + v[1..];
    }
  }

  /** Every field is read back as written. */
  lemma EscaparDesescapar(v: string)
    ensures DesescaparCSV(EscaparCSV(v)) == v
  {
    if NecesitaComillas(v) {
      var r := EscaparCSV(v);
      assert r[1..|r| - 1] == DuplicarComillas(v);
      ColapsarDuplicar(v);
    }
  }

  lemma {:induction false} DuplicarSinComillas(v: string)
    requires '"' !in v
    ensures DuplicarComillas(v) == v
  {
    if |v| > 0 {
      DuplicarSinComillas(v[1..]);
      assert v == [v[0]] + v[1..];
    }
  }

  /** Without double quotes, escaping at most encloses the field in quotes. */
  lemma EscaparSinComillas(v: string)
    requires '"' !in v
    ensures EscaparCSV(v) == if ',' in v || '\n' in v then "\"" + v + "\"" else v
  {
    DuplicarSinComillas(v);
  }

  /** The engine's line splitter reads an escaped field followed by a comma
      as the field itself, provided the field has no double quote (the
      splitter drops every quote it meets). */
  lemma CampoSeLee(v: string, resto: string)
    requires '"' !in v
    ensures CsvParser.Dividir(EscaparCSV(v) + "," + resto, false) == [v] + CsvParser.Dividir(resto, false)
  {
    EscaparSinComillas(v);
    if ',' in v || '\n' in v {
      assert EscaparCSV(v) + "," + resto == "\"" + v + "\"," + resto;
      CsvParser.DividirCitado(v, resto);
    } else {
      CsvParser.DividirPlano(v, resto);
    }
  }

  /** A double quote inside a field is lost on the way: the engine's
      splitter reads the escaped `a"b` as the field `ab`. */
  lemma ComillaSePierde()
    ensures EscaparCSV("a\"b") == "\"a\"\"b\""
    ensures CsvParser.Dividir(EscaparCSV("a\"b"), false) == ["ab"]
  {
    var e := EscaparCSV("a\"b");
    assert DuplicarComillas("a\"b") == "a\"\"b" by {
      assert "a\"b"[1..] == "\"b" && "\"b"[1..] == "b" && "b"[1..] == "";
    }
    assert e == "\"a\"\"b\"";
    assert e[6..] == "";
    assert CsvParser.Dividir(e[5..], true) == [""] by { assert e[5..][1..] == e[6..]; }
    assert CsvParser.Dividir(e[4..], true) == ["b"] by {
      assert e[4..][0] == 'b' && e[4..][1..] == e[5..];
      assert "b" + "" == "b";
    }
    assert CsvParser.Dividir(e[3..], false) == ["b"] by { assert e[3..][0] == '"' && e[3..][1..] == e[4..]; }
    assert CsvParser.Dividir(e[2..], true) == ["b"] by { assert e[2..][0] == '"' && e[2..][1..] == e[3..]; }
    assert CsvParser.Dividir(e[1..], true) == ["ab"] by {
      assert e[1..][0] == 'a' && e[1..][1..] == e[2..];
      assert "a" + "b" == "ab";
    }
    assert e[0] == '"' && e[1..] == e[1..];
  }

  // ---------------------------------------------------------------------
  // crearCSVTemporal: the content

  /** A suspect as the service receives it from `.lean()`: the stored
      cedula is a number. */
  datatype Sospechoso = Sospechoso(nombreCompleto: string, cedula: int, cadenaADN: string)

  const ENCABEZADO: string := "nombre_completo,cedula,cadena_adn"

  /** Lines, each followed by a line feed. */
  function Terminadas(lineas: seq<string>): string
  {
    if |lineas| == 0 then "" else lineas[0] + "\n" + Terminadas(lineas[1..])
  }

  lemma {:induction false} TerminadasJoin(lineas: seq<string>)
    requires |lineas| >= 1
    ensures Terminadas(lineas) == Join(lineas, "\n") + "\n"
  {
    if |lineas| > 1 {
      TerminadasJoin(lineas[1..]);
      assert Terminadas(lineas) == lineas[0] + "\n" + (Join(lineas[1..], "\n") + "\n");
    } else {
      assert Terminadas(lineas[1..]) == "";
    }
  }

  /** The record line of one suspect, its cedula written as `String(cedula)`;
      the DNA string is written without escaping. */
  function Linea(s: Sospechoso): string
  {
    EscaparCSV(s.nombreCompleto) + "," + EscaparCSV(IntToString(s.cedula)) + "," + s.cadenaADN
  }

  function Lineas(sospechosos: seq<Sospechoso>): (ls: seq<string>)
    ensures |ls| == |sospechosos|
    ensures forall j :: 0 <= j < |ls| ==> ls[j] == Linea(sospechosos[j])
  {
    seq(|sospechosos|, j requires 0 <= j < |sospechosos| => Linea(sospechosos[j]))
  }

  /** The file content: the header, then one line per suspect in input order. */
  function Contenido(sospechosos: seq<Sospechoso>): string
  {
    Terminadas([ENCABEZADO] + Lineas(sospechosos))
  }

  // ---------------------------------------------------------------------
  // The content loop as written

  /** A JavaScript value handed to `escaparCSV`: a string, or a number,
      which has no `includes` method. */
  datatype ValorJS = Cadena(texto: string) | Numero(valor: int)

  /** The `TypeError` message for `valor.includes(',')` on a number. */
  const SIN_INCLUDES: string := "valor.includes is not a function"

  /** `escaparCSV` on any value: a string is escaped so that unquoting gives
      it back; a number throws the same `TypeError` whatever its value. */
  function EscaparValor(valor: ValorJS): (r: Result<string, string>)
    ensures r.Success? <==> valor.Cadena?
    ensures valor.Cadena? ==> r.value == EscaparCSV(valor.texto) && DesescaparCSV(r.value) == valor.texto
    ensures valor.Numero? ==> r.error == SIN_INCLUDES
  {
    match valor
    case Cadena(t) =>
      EscaparDesescapar(t);
      Success(EscaparCSV(t))
    case Numero(_) => Failure(SIN_INCLUDES)
  }

  /** The loop of `crearCSVTemporal` over records whose cedula is whatever
      value the caller supplies: name, then cedula, through `escaparCSV`;
      the first throw ends the loop. */
  function CuerpoJS(nombres: seq<string>, cedulas: seq<ValorJS>, cadenas: seq<string>): Result<string, string>
    requires |nombres| == |cedulas| == |cadenas|
  {
    if |nombres| == 0 then Success("")
    else
      var nombre := EscaparValor(Cadena(nombres[0]));
      var cedula := EscaparValor(cedulas[0]);
      if cedula.Failure? then Failure(cedula.error)
      else
        match CuerpoJS(nombres[1..], cedulas[1..], cadenas[1..])
        case Failure(m) => Failure(m)
        case Success(resto) => Success(nombre.value + "," + cedula.value + "," + cadenas[0] + "\n" + resto)
  }

  function Nombres(ss: seq<Sospechoso>): (r: seq<string>)
    ensures |r| == |ss| && forall j :: 0 <= j < |ss| ==> r[j] == ss[j].nombreCompleto
  {
    seq(|ss|, j requires 0 <= j < |ss| => ss[j].nombreCompleto)
  }

  function Cadenas(ss: seq<Sospechoso>): (r: seq<string>)
    ensures |r| == |ss| && forall j :: 0 <= j < |ss| ==> r[j] == ss[j].cadenaADN
  {
    seq(|ss|, j requires 0 <= j < |ss| => ss[j].cadenaADN)
  }

  /** The cedulas as `.lean()` hands them over: numbers. */
  function CedulasNumericas(ss: seq<Sospechoso>): (r: seq<ValorJS>)
    ensures |r| == |ss| && forall j :: 0 <= j < |ss| ==> r[j] == Numero(ss[j].cedula)
  {
    seq(|ss|, j requires 0 <= j < |ss| => Numero(ss[j].cedula))
  }

  /** The cedulas converted with `String(cedula)` before escaping. */
  function CedulasTexto(ss: seq<Sospechoso>): (r: seq<ValorJS>)
    ensures |r| == |ss| && forall j :: 0 <= j < |ss| ==> r[j] == Cadena(IntToString(ss[j].cedula))
  {
    seq(|ss|, j requires 0 <= j < |ss| => Cadena(IntToString(ss[j].cedula)))
  }

  /** `crearCSVTemporal`'s content as written: the numeric cedula goes
      straight into `escaparCSV`. */
  function ContenidoComoEscrito(ss: seq<Sospechoso>): Result<string, string>
  {
    match CuerpoJS(Nombres(ss), CedulasNumericas(ss), Cadenas(ss))
    case Failure(m) => Failure(m)
    case Success(cuerpo) => Success(ENCABEZADO + "\n" + cuerpo)
  }

  /** As written, any non-empty suspect list makes the content step throw. */
  lemma ContenidoComoEscritoFalla(ss: seq<Sospechoso>)
    requires |ss| > 0
    ensures ContenidoComoEscrito(ss) == Failure(SIN_INCLUDES)
  {
    assert CedulasNumericas(ss)[0] == Numero(ss[0].cedula);
  }

  /** With `String(cedula)` the same loop never throws and produces
      `Contenido`: the correction changes nothing but the cedula's type. */
  lemma {:induction false} CuerpoCorregido(ss: seq<Sospechoso>)
    ensures CuerpoJS(Nombres(ss), CedulasTexto(ss), Cadenas(ss)) == Success(Terminadas(Lineas(ss)))
  {
    if |ss| > 0 {
      CuerpoCorregido(ss[1..]);
      assert Nombres(ss)[1..] == Nombres(ss[1..]);
      assert CedulasTexto(ss)[1..] == CedulasTexto(ss[1..]);
      assert Cadenas(ss)[1..] == Cadenas(ss[1..]);
      assert Lineas(ss)[1..] == Lineas(ss[1..]);
    }
  }

  /** The corrected content step: the same header and loop with the cedula
      converted to text. */
  lemma ContenidoCorregido(ss: seq<Sospechoso>)
    ensures (match CuerpoJS(Nombres(ss), CedulasTexto(ss), Cadenas(ss))
             case Failure(m) => Failure(m)
             case Success(cuerpo) => Success(ENCABEZADO + "\n" + cuerpo)) == Success(Contenido(ss))
  {
    CuerpoCorregido(ss);
    var ls := [ENCABEZADO] + Lineas(ss);
    assert ls[1..] == Lineas(ss);
  }

  // ---------------------------------------------------------------------
  // The content read back by the engine

  /** A suspect whose record survives the trip through the file: a
      non-empty name with no double quote, no line feed and no C
      whitespace at either end, and a DNA string of at least 20 bases. */
  predicate Transportable(s: Sospechoso)
  {
    && s.nombreCompleto != "" && '"' !in s.nombreCompleto && '\n' !in s.nombreCompleto
    && CsvParser.SinBordes(s.nombreCompleto)
    && EsCadenaADN(s.cadenaADN) && |s.cadenaADN| >= CsvParser.LONGITUD_MINIMA_ADN
  }

  /** The record the engine should read for a suspect. */
  function Leido(s: Sospechoso): CsvParser.Sospechoso
  {
    CsvParser.Sospechoso(s.nombreCompleto, IntToString(s.cedula), s.cadenaADN)
  }

  /** `String(n)` is a non-empty run of digits, possibly after a minus sign. */
  lemma CedulaTexto(n: int)
    ensures var t := IntToString(n);
            && |t| > 0 && IsDigit(t[|t| - 1]) && (t[0] == '-' || IsDigit(t[0]))
            && forall k :: 0 <= k < |t| ==> t[k] == '-' || IsDigit(t[k])
  {
    if n < 0 {
      var d := NatToString(-n);
      assert IntToString(n) == "-" + d;
    }
  }

  /** The cedula's text needs no quoting and has no whitespace. */
  lemma CedulaSinEspeciales(n: int)
    ensures var t := IntToString(n);
            t != "" && '"' !in t && ',' !in t && '\n' !in t && CsvParser.SinBordes(t)
  {
    CedulaTexto(n);
  }

  /** Neither does a DNA string. */
  lemma AdnSinEspeciales(adn: string)
    requires EsCadenaADN(adn)
    ensures '"' !in adn && ',' !in adn && '\n' !in adn && CsvParser.SinBordes(adn)
    ensures CsvParser.Dividir(adn, false) == [adn]
  {
    CsvParser.DividirPrefijo(adn, "", false);
    assert adn + "" == adn;
  }

  /** A record line splits into the name, the cedula's text and the DNA. */
  lemma LineaCampos(s: Sospechoso)
    requires Transportable(s)
    ensures CsvParser.Dividir(Linea(s), false) == [s.nombreCompleto, IntToString(s.cedula), s.cadenaADN]
  {
    var n, c, adn := s.nombreCompleto, IntToString(s.cedula), s.cadenaADN;
    CedulaSinEspeciales(s.cedula);
    AdnSinEspeciales(adn);
    var resto := EscaparCSV(c) + "," + adn;
    assert Linea(s) == EscaparCSV(n) + "," + resto;
    CampoSeLee(n, resto);
    CampoSeLee(c, adn);
  }

  /** A record line holds no line feed. */
  lemma LineaSinSalto(s: Sospechoso)
    requires Transportable(s)
    ensures '\n' !in Linea(s)
  {
    var n, c, adn := s.nombreCompleto, IntToString(s.cedula), s.cadenaADN;
    CedulaSinEspeciales(s.cedula);
    AdnSinEspeciales(adn);
    EscaparSinComillas(n);
    EscaparSinComillas(c);
  }

  /** A record line is not blank: it ends with a base. */
  lemma LineaNoBlanca(s: Sospechoso)
    requires Transportable(s)
    ensures CsvParser.Trim(Linea(s)) != ""
  {
    var adn := s.cadenaADN;
    var prefijo := EscaparCSV(s.nombreCompleto) + "," + EscaparCSV(IntToString(s.cedula)) + ",";
    var l := prefijo + adn;
    assert l == Linea(s);
    assert EsBase(adn[|adn| - 1]);
    assert l[|l| - 1] == adn[|adn| - 1];
    assert !CsvParser.EsEspacio(l[|l| - 1]);
    CsvParser.TrimVacio(l);
  }

  /** One record line is a non-blank line that passes the engine's checks
      and reads back as the suspect's record. */
  lemma LineaSeLee(s: Sospechoso, numero: nat)
    requires Transportable(s)
    ensures CsvParser.RevisarLinea(Linea(s), numero) == Success(Leido(s))
    ensures CsvParser.Trim(Linea(s)) != ""
    ensures '\n' !in Linea(s)
  {
    var n, c, adn := s.nombreCompleto, IntToString(s.cedula), s.cadenaADN;
    LineaCampos(s);
    LineaSinSalto(s);
    LineaNoBlanca(s);
    CedulaSinEspeciales(s.cedula);
    AdnSinEspeciales(adn);
    CsvParser.TrimSinBordes(n);
    CsvParser.TrimSinBordes(c);
    CsvParser.TrimSinBordes(adn);
  }

  /** The engine reads the file line by line: the header, then the record lines. */
  lemma ContenidoLineas(ss: seq<Sospechoso>)
    requires forall j :: 0 <= j < |ss| ==> Transportable(ss[j])
    ensures Getline(Contenido(ss), '\n') == [ENCABEZADO] + Lineas(ss)
  {
    var ls := [ENCABEZADO] + Lineas(ss);
    forall k | 0 <= k < |ls|
      ensures '\n' !in ls[k]
    {
      if k > 0 {
        LineaSeLee(ss[k - 1], k + 1);
      }
    }
    TerminadasJoin(ls);
    assert "\n" == ['\n'];
    GetlineTerminated(ls, '\n');
  }

  /** The records of the first `n` suspects, in order. */
  function LeidosHasta(ss: seq<Sospechoso>, n: nat): (r: seq<CsvParser.Sospechoso>)
    requires n <= |ss|
    ensures |r| == n && forall j :: 0 <= j < n ==> r[j] == Leido(ss[j])
  {
    if n == 0 then [] else LeidosHasta(ss, n - 1) + [Leido(ss[n - 1])]
  }

  /** The header line is skipped as a header. */
  lemma EncabezadoSaltado(ls: seq<string>)
    requires |ls| > 0 && ls[0] == ENCABEZADO
    ensures CsvParser.Saltada(ls, 0)
  {
    assert ENCABEZADO[..6] == "nombre";
    assert CsvParser.Contiene(ENCABEZADO, "nombre");
  }

  lemma {:induction false} AceptadosLeidos(ss: seq<Sospechoso>, n: nat)
    requires forall j :: 0 <= j < |ss| ==> Transportable(ss[j])
    requires n <= |ss|
    ensures CsvParser.Aceptados([ENCABEZADO] + Lineas(ss), n + 1) == LeidosHasta(ss, n)
    ensures CsvParser.SinErrorHasta([ENCABEZADO] + Lineas(ss), n + 1)
  {
    var ls := [ENCABEZADO] + Lineas(ss);
    if n == 0 {
      EncabezadoSaltado(ls);
      CsvParser.AceptadosSiguiente(ls, 0);
      CsvParser.SinErrorSiguiente(ls, 0);
    } else {
      AceptadosLeidos(ss, n - 1);
      AceptadoUno(ss, n);
    }
  }

  lemma AceptadoUno(ss: seq<Sospechoso>, n: nat)
    requires forall j :: 0 <= j < |ss| ==> Transportable(ss[j])
    requires 0 < n <= |ss|
    requires CsvParser.Aceptados([ENCABEZADO] + Lineas(ss), n) == LeidosHasta(ss, n - 1)
    requires CsvParser.SinErrorHasta([ENCABEZADO] + Lineas(ss), n)
    ensures CsvParser.Aceptados([ENCABEZADO] + Lineas(ss), n + 1) == LeidosHasta(ss, n)
    ensures CsvParser.SinErrorHasta([ENCABEZADO] + Lineas(ss), n + 1)
  {
    var ls := [ENCABEZADO] + Lineas(ss);
    assert ls[n] == Linea(ss[n - 1]);
    LineaSeLee(ss[n - 1], n + 1);
    LineaAceptada(ls, n, LeidosHasta(ss, n - 1), Leido(ss[n - 1]));
  }

  /** A non-blank line after the first that passes its checks adds its record. */
  lemma LineaAceptada(ls: seq<string>, n: nat, previos: seq<CsvParser.Sospechoso>, x: CsvParser.Sospechoso)
    requires 0 < n < |ls|
    requires CsvParser.Aceptados(ls, n) == previos && CsvParser.SinErrorHasta(ls, n)
    requires CsvParser.Trim(ls[n]) != "" && CsvParser.RevisarLinea(ls[n], n + 1) == Success(x)
    ensures CsvParser.Aceptados(ls, n + 1) == previos + [x]
    ensures CsvParser.SinErrorHasta(ls, n + 1)
  {
    CsvParser.AceptadosSiguiente(ls, n);
    CsvParser.SinErrorSiguiente(ls, n);
  }

  /** A file none of whose lines fails yields the records it accepted. */
  lemma ParseoSinFallos(ls: seq<string>, ruta: string, registros: seq<CsvParser.Sospechoso>)
    requires CsvParser.SinErrorHasta(ls, |ls|) && CsvParser.Aceptados(ls, |ls|) == registros && |registros| > 0
    ensures CsvParser.ResultadoParsear(Some(ls), ruta) == Success(registros)
  {
    forall k | 0 <= k < |ls|
      ensures !CsvParser.PrimeraFallida(ls, k)
    {
      assert CsvParser.Saltada(ls, k) || CsvParser.RevisarLinea(ls[k], k + 1).Success?;
    }
  }

  /** The CSV round trip: for transportable suspects, the engine's parser
      reads the service's file back as exactly the suspects' records, in
      order, with the cedula as its decimal text. */
  lemma ContenidoSeLee(ss: seq<Sospechoso>, ruta: string)
    requires |ss| > 0 && forall j :: 0 <= j < |ss| ==> Transportable(ss[j])
    ensures CsvParser.ResultadoParsear(Some(Getline(Contenido(ss), '\n')), ruta) == Success(LeidosHasta(ss, |ss|))
  {
    var ls := [ENCABEZADO] + Lineas(ss);
    ContenidoLineas(ss);
    AceptadosLeidos(ss, |ss|);
    ParseoSinFallos(ls, ruta, LeidosHasta(ss, |ss|));
  }

  // ---------------------------------------------------------------------
  // ejecutarComando

  /** Why `exec` passes an error to its callback: a non-zero exit status,
      the timeout, the output buffer limit, or a process that cannot start. */
  datatype Causa = SalidaNoCero(codigo: int) | TiempoAgotado | BufferExcedido | NoArranca

  /** How the engine process ended, as `exec` reports it. */
  datatype Proceso =
    | Terminado(stdout: string)
    | Fallido(causa: Causa, mensaje: string)

  const PREFIJO_MOTOR: string := "Error ejecutando motor C++: "
  const PREFIJO_BUSQUEDA: string := "Error al ejecutar búsqueda de ADN: "

  /** `ejecutarComando`: standard output on a clean exit, whatever standard
      error holds; any `exec` error is a rejection naming its message. */
  function EjecutarComando(p: Proceso): (r: Result<string, string>)
    ensures r.Success? <==> p.Terminado?
    ensures p.Terminado? ==> r.value == p.stdout
    ensures p.Fallido? ==> r.error == PREFIJO_MOTOR + p.mensaje
  {
    match p
    case Terminado(stdout) => Success(stdout)
    case Fallido(_, mensaje) => Failure(PREFIJO_MOTOR + mensaje)
  }

  // ---------------------------------------------------------------------
  // Paths

  /** `sospechosos_${timestamp}_${random}.csv`. */
  function NombreArchivo(marcaTiempo: nat, aleatorio: string): string
  {
    "sospechosos_" + NatToString(marcaTiempo) + "_" + aleatorio + ".csv"
  }

  /** `path.join(dir, nombre)` for a plain file name: one `/` between them. */
  function UnirRuta(dir: string, nombre: string): string
  {
    if dir == "" then nombre
    else if dir[|dir| - 1] == '/' then dir + nombre
    else dir + "/" + nombre
  }

  /** `path.basename(ruta)` for a path not ending in `/`: what follows the
      last `/`. */
  function Basename(ruta: string): (b: string)
    ensures '/' !in b
    ensures |b| <= |ruta| && b == ruta[|ruta| - |b|..]
  {
    JsText.SliceFrom(ruta, JsText.LastIndexOf(ruta, '/') + 1)
  }

  /** The last `/` of a path is the one just before a `/`-free tail. */
  lemma UltimaBarra(p: string, i: nat)
    requires i <= |p| && forall k :: i <= k < |p| ==> p[k] != '/'
    requires i > 0 ==> p[i - 1] == '/'
    ensures JsText.LastIndexOf(p, '/') == i - 1
  {
  }

  /** The base name of a joined path is the file name. */
  lemma BasenameDeRuta(dir: string, nombre: string)
    requires '/' !in nombre
    ensures Basename(UnirRuta(dir, nombre)) == nombre
  {
    var p := UnirRuta(dir, nombre);
    var i := |p| - |nombre|;
    assert p[i..] == nombre;
    assert forall k :: i <= k < |p| ==> p[k] == nombre[k - i];
    UltimaBarra(p, i);
  }

  lemma NombreArchivoSinBarra(marcaTiempo: nat, aleatorio: string)
    requires '/' !in aleatorio
    ensures '/' !in NombreArchivo(marcaTiempo, aleatorio)
  {
    var d := NatToString(marcaTiempo);
    assert '/' !in d;
  }

  // ---------------------------------------------------------------------
  // ejecutarBusqueda

  /** The file system as the service sees it: paths to contents. */
  type Archivos = map<string, string>

  /** What the outside world answers during one search. `escritura`,
      `lectura` and `borrado` are the errors `fs.writeFile`, the
      `fs.readFile` of `calcularHashArchivo` and `fs.unlink` raise, if any
      (every delete of the file ends the same way; a read that succeeds
      returns what was written); `motor` runs the engine on the argument
      pair (pattern list, CSV path); `analizar` is `JSON.parse`; `sha256`
      is the hex digest of a content. */
  datatype Entorno = Entorno(
    dirTemp: string,
    marcaTiempo: nat,
    aleatorio: string,
    escritura: Option<string>,
    lectura: Option<string>,
    borrado: Option<string>,
    motor: (string, string) -> Proceso,
    analizar: string -> Result<JsonOutput.Json, string>,
    sha256: string -> string)

  /** The path of the temporary file. */
  function Ruta(e: Entorno): string
  {
    UnirRuta(e.dirTemp, NombreArchivo(e.marcaTiempo, e.aleatorio))
  }

  /** What `ejecutarBusqueda` resolves to: the engine's JSON and the two
      trace fields the service adds to it. */
  datatype Salida = Salida(motor: JsonOutput.Json, hashSha256Archivo: string, nombreArchivoCsv: string)

  /** The files afterwards and the outcome; a failure is the message of
      the error thrown. */
  datatype Efecto = Efecto(archivos: Archivos, resultado: Result<Salida, string>)

  /** The `catch` block: delete the file if it was created (a failed delete
      is ignored) and rethrow with the search prefix. */
  function Abortar(archivos: Archivos, creado: Option<string>, e: Entorno, mensaje: string): Efecto
  {
    var restantes := if creado.Some? && e.borrado.None? then archivos - {creado.value} else archivos;
    Efecto(restantes, Failure(PREFIJO_BUSQUEDA + mensaje))
  }

  /** `ejecutarBusqueda` once the content step has ended with the content
      to write or the error it threw. */
  function Ejecutar(patrones: seq<string>, contenido: Result<string, string>, archivos: Archivos, e: Entorno): Efecto
  {
    var ruta := Ruta(e);
    if contenido.Failure? then Abortar(archivos, None, e, contenido.error)
    else if e.escritura.Some? then Abortar(archivos, None, e, e.escritura.value)
    else
      var escritos := archivos[ruta := contenido.value];
      match EjecutarComando(e.motor(Join(patrones, ","), ruta))
      case Failure(m) => Abortar(escritos, Some(ruta), e, m)
      case Success(stdout) =>
        match e.analizar(stdout)
        case Failure(m) => Abortar(escritos, Some(ruta), e, m)
        case Success(json) =>
          if e.lectura.Some? then Abortar(escritos, Some(ruta), e, e.lectura.value)
          else
          var hash := e.sha256(escritos[ruta]);
          if e.borrado.Some? then Abortar(escritos, Some(ruta), e, e.borrado.value)
          else Efecto(escritos - {ruta}, Success(Salida(json, hash, Basename(ruta))))
  }

  /** `ejecutarBusqueda` as written: the content step throws for a numeric
      cedula. */
  function EjecutarBusquedaComoEscrita(patrones: seq<string>, ss: seq<Sospechoso>, archivos: Archivos, e: Entorno): Efecto
  {
    Ejecutar(patrones, ContenidoComoEscrito(ss), archivos, e)
  }

  /** As written, a search over any non-empty suspect list fails before a
      file is written or the engine runs, whatever the engine would answer. */
  lemma BusquedaComoEscritaFalla(patrones: seq<string>, ss: seq<Sospechoso>, archivos: Archivos, e: Entorno)
    requires |ss| > 0
    ensures EjecutarBusquedaComoEscrita(patrones, ss, archivos, e) == Efecto(archivos, Failure(PREFIJO_BUSQUEDA + SIN_INCLUDES))
  {
    ContenidoComoEscritoFalla(ss);
  }

  /** `ejecutarBusqueda` with the cedula written as text. */
  function EjecutarBusqueda(patrones: seq<string>, ss: seq<Sospechoso>, archivos: Archivos, e: Entorno): (r: Efecto)
    // the file is gone afterwards unless a delete failed; no other file changes
    ensures e.escritura.Some? ==> r.archivos == archivos
    ensures e.escritura.None? && e.borrado.None? ==> r.archivos == archivos - {Ruta(e)}
    ensures forall p :: p != Ruta(e) ==> (p in r.archivos <==> p in archivos)
    ensures forall p :: p != Ruta(e) && p in archivos ==> r.archivos[p] == archivos[p]
    // success exactly when every step succeeds, in order
    ensures r.resultado.Success? <==>
              && e.escritura.None?
              && e.motor(Join(patrones, ","), Ruta(e)).Terminado?
              && e.analizar(e.motor(Join(patrones, ","), Ruta(e)).stdout).Success?
              && e.lectura.None?
              && e.borrado.None?
    // the result: the engine's JSON, the digest of the file the engine read, its base name
    ensures r.resultado.Success? ==>
              && r.resultado.value.motor == e.analizar(e.motor(Join(patrones, ","), Ruta(e)).stdout).value
              && r.resultado.value.hashSha256Archivo == e.sha256(Contenido(ss))
              && r.resultado.value.nombreArchivoCsv == Basename(Ruta(e))
    // every error carries the search prefix; an engine error also the engine prefix
    ensures r.resultado.Failure? ==> |r.resultado.error| >= |PREFIJO_BUSQUEDA|
                                     && r.resultado.error[..|PREFIJO_BUSQUEDA|] == PREFIJO_BUSQUEDA
    ensures e.escritura.None? && e.motor(Join(patrones, ","), Ruta(e)).Fallido? ==>
              r.resultado == Failure(PREFIJO_BUSQUEDA + (PREFIJO_MOTOR + e.motor(Join(patrones, ","), Ruta(e)).mensaje))
  {
    EjecutarArchivos(patrones, Contenido(ss), archivos, e);
    EjecutarExito(patrones, Contenido(ss), archivos, e);
    EjecutarFallo(patrones, Contenido(ss), archivos, e);
    Ejecutar(patrones, Success(Contenido(ss)), archivos, e)
  }

  /** Once the content is built, the file is gone afterwards unless a
      delete failed, and no other file changes. */
  lemma EjecutarArchivos(patrones: seq<string>, c: string, archivos: Archivos, e: Entorno)
    ensures var r := Ejecutar(patrones, Success(c), archivos, e);
            && (e.escritura.Some? ==> r.archivos == archivos)
            && (e.escritura.None? && e.borrado.None? ==> r.archivos == archivos - {Ruta(e)})
            && (forall p :: p != Ruta(e) ==> (p in r.archivos <==> p in archivos))
            && (forall p :: p != Ruta(e) && p in archivos ==> r.archivos[p] == archivos[p])
  {
  }

  /** Once the content is built, the search succeeds exactly when every
      later step does, with the engine's JSON, the digest of the written
      content and the file's base name. */
  lemma EjecutarExito(patrones: seq<string>, c: string, archivos: Archivos, e: Entorno)
    ensures var r := Ejecutar(patrones, Success(c), archivos, e);
            var proceso := e.motor(Join(patrones, ","), Ruta(e));
            && (r.resultado.Success? <==>
                  e.escritura.None? && proceso.Terminado? && e.analizar(proceso.stdout).Success?
                  && e.lectura.None? && e.borrado.None?)
            && (r.resultado.Success? ==>
                  r.resultado.value == Salida(e.analizar(proceso.stdout).value, e.sha256(c), Basename(Ruta(e))))
  {
    var ruta := Ruta(e);
    var proceso := e.motor(Join(patrones, ","), ruta);
    var r := Ejecutar(patrones, Success(c), archivos, e);
    if e.escritura.None? && proceso.Terminado? && e.analizar(proceso.stdout).Success?
       && e.lectura.None? && e.borrado.None? {
      assert archivos[ruta := c][ruta] == c;
      assert r.resultado == Success(Salida(e.analizar(proceso.stdout).value, e.sha256(c), Basename(ruta)));
    } else {
      assert r.resultado.Failure?;
    }
  }

  /** Once the content is built, every error carries the search prefix,
      and an engine error also the engine prefix. */
  lemma EjecutarFallo(patrones: seq<string>, c: string, archivos: Archivos, e: Entorno)
    ensures var r := Ejecutar(patrones, Success(c), archivos, e);
            var proceso := e.motor(Join(patrones, ","), Ruta(e));
            && (r.resultado.Failure? ==> |r.resultado.error| >= |PREFIJO_BUSQUEDA|
                                         && r.resultado.error[..|PREFIJO_BUSQUEDA|] == PREFIJO_BUSQUEDA)
            && (e.escritura.None? && proceso.Fallido? ==>
                  r.resultado == Failure(PREFIJO_BUSQUEDA + (PREFIJO_MOTOR + proceso.mensaje)))
  {
    var r := Ejecutar(patrones, Success(c), archivos, e);
    assert r.resultado.Failure? ==> exists m :: r.resultado.error == PREFIJO_BUSQUEDA + m;
  }

  /** `ejecutarComando` treats every `exec` error alike: a non-zero exit, a
      timeout, an overflowing buffer and a failed start end the search the
      same way when they carry the same message, and that way is the
      engine-prefixed message under the search prefix. */
  lemma CausaIndiferente(patrones: seq<string>, ss: seq<Sospechoso>, archivos: Archivos, e: Entorno, otro: Entorno,
                         c1: Causa, c2: Causa, mensaje: string)
    requires otro == e.(motor := otro.motor)
    requires e.motor(Join(patrones, ","), Ruta(e)) == Fallido(c1, mensaje)
    requires otro.motor(Join(patrones, ","), Ruta(e)) == Fallido(c2, mensaje)
    ensures EjecutarBusqueda(patrones, ss, archivos, e) == EjecutarBusqueda(patrones, ss, archivos, otro)
    ensures e.escritura.None? ==>
              EjecutarBusqueda(patrones, ss, archivos, e).resultado == Failure(PREFIJO_BUSQUEDA + (PREFIJO_MOTOR + mensaje))
  {
    assert Ruta(otro) == Ruta(e);
    assert EjecutarComando(e.motor(Join(patrones, ","), Ruta(e))) == EjecutarComando(otro.motor(Join(patrones, ","), Ruta(e)));
  }

  /** The trace name is the generated file name, when the random part has
      no `/`. */
  lemma NombreDeLaTraza(patrones: seq<string>, ss: seq<Sospechoso>, archivos: Archivos, e: Entorno)
    requires '/' !in e.aleatorio
    requires EjecutarBusqueda(patrones, ss, archivos, e).resultado.Success?
    ensures EjecutarBusqueda(patrones, ss, archivos, e).resultado.value.nombreArchivoCsv
            == NombreArchivo(e.marcaTiempo, e.aleatorio)
  {
    NombreArchivoSinBarra(e.marcaTiempo, e.aleatorio);
    BasenameDeRuta(e.dirTemp, NombreArchivo(e.marcaTiempo, e.aleatorio));
  }

  /** The engine's output is parsed only after a clean exit: when the
      process fails, `JSON.parse` plays no part in the outcome. */
  lemma SinAnalisisTrasFallo(patrones: seq<string>, ss: seq<Sospechoso>, archivos: Archivos, e: Entorno,
                             otro: string -> Result<JsonOutput.Json, string>)
    requires e.motor(Join(patrones, ","), Ruta(e)).Fallido?
    ensures EjecutarBusqueda(patrones, ss, archivos, e) == EjecutarBusqueda(patrones, ss, archivos, e.(analizar := otro))
  {
  }
}
