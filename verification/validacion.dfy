/** The request validators (backend/src/middlewares/validacion.js), each
    chain as the predicate "no validator of the chain reports an error".
    A body value is a `JsValor.Valor`; the standard validators see it
    through its string form, after the `trim` sanitizer where the chain
    has one. */
module Validacion {
  import opened Wrappers
  import opened Text
  import opened JsValor
  import JsText
  import Adn
  import SospechosoModel
  import Paginacion
  import EngineMain
  import BusquedasController
  import ErrorHandler

  // ---------------------------------------------------------------------
  // What the standard validators see

  /** The string a standard validator works on: `undefined` and `null`
      read as empty, numbers and booleans as JavaScript prints them, other
      objects as "[object Object]". Array values are not modelled. */
  function ComoCadena(v: Valor): Option<string>
  {
    match v
    case Indefinido => Some("")
    case Nulo => Some("")
    case Booleano(b) => Some(if b then "true" else "false")
    case Numero(n) => Some(IntToString(n))
    case Texto(s) => Some(s)
    case Arreglo(_) => None
    case Objeto => Some("[object Object]")
  }

  /** The string after the `trim` sanitizer. */
  function Recortada(v: Valor): Option<string>
  {
    match ComoCadena(v)
    case None => None
    case Some(s) => Some(JsText.Trim(s))
  }

  predicate EsSelector(c: char)
  {
    c == '\U{FE0E}' || c == '\U{FE0F}'
  }

  /** How many variation selectors (U+FE0E, U+FE0F) a string holds. */
  function Selectores(s: string): (n: nat)
    ensures n <= |s|
  {
    if |s| == 0 then 0 else (if EsSelector(s[0]) then 1 else 0) + Selectores(s[1..])
  }

  /** The length `isLength` measures: code points, not counting the
      variation selectors. */
  function Longitud(s: string): nat
  {
    |s| - Selectores(s)
  }

  /** A string without selectors is measured by its plain length. */
  lemma {:induction false} LongitudSinSelectores(s: string)
    requires forall k :: 0 <= k < |s| ==> !EsSelector(s[k])
    ensures Longitud(s) == |s|
  {
    if |s| > 0 {
      LongitudSinSelectores(s[1..]);
    }
  }

  /** `isLength({ max })` on a present value after `trim`. */
  predicate CabeRecortada(v: Valor, maximo: nat)
  {
    Recortada(v).Some? && Longitud(Recortada(v).value) <= maximo
  }

  /** `optional().trim().isLength({ max })`. */
  predicate OpcionalCabe(v: Valor, maximo: nat)
  {
    v.Indefinido? || CabeRecortada(v, maximo)
  }

  /** `isInt()`: an optional sign and decimal digits, leading zeros
      allowed. */
  predicate EsEntero(s: string)
  {
    IsDigits(s) || (|s| > 1 && (s[0] == '+' || s[0] == '-') && IsDigits(s[1..]))
  }

  /** The number such a string denotes. */
  function ValorEntero(s: string): int
    requires EsEntero(s)
  {
    if IsDigits(s) then DigitsValue(s)
    else
      var d: int := DigitsValue(s[1..]);
      if s[0] == '-' then -d else d
  }

  /** `isInt({ min, max })`. */
  predicate EnteroEntre(s: string, minimo: Option<int>, maximo: Option<int>)
  {
    EsEntero(s) && (minimo.None? || ValorEntero(s) >= minimo.value)
    && (maximo.None? || ValorEntero(s) <= maximo.value)
  }

  // ---------------------------------------------------------------------
  // validarBusqueda

  /** `/^[ATCG]+$/` and a length of 5 to 100. */
  predicate PatronAceptable(p: string)
  {
    SospechosoModel.CoincideATCG(p) && EngineMain.LONGITUD_MINIMA_PATRON <= Longitud(p) <= EngineMain.LONGITUD_MAXIMA_PATRON
  }

  /** The fields `validarBusqueda` reads. */
  datatype CuerpoBusqueda = CuerpoBusqueda(casoNumero: Valor, patron: Valor, patrones: Valor, descripcionCaso: Valor)

  /** The `patron` chain, which runs only when `patrones` does not exist. */
  predicate PatronSoloValido(b: CuerpoBusqueda)
  {
    !b.patrones.Indefinido? || (Recortada(b.patron).Some? && Recortada(b.patron).value != "" && PatronAceptable(Recortada(b.patron).value))
  }

  /** The `patrones` chain: an array of at least one element, each a
      string of 5 to 100 bases. */
  predicate PatronesValidos(v: Valor)
  {
    v.Indefinido? ||
    (v.Arreglo? && |v.elems| >= 1 &&
     forall k :: 0 <= k < |v.elems| ==>
       v.elems[k].Texto? && SospechosoModel.CoincideATCG(v.elems[k].s)
       && EngineMain.LONGITUD_MINIMA_PATRON <= |v.elems[k].s| <= EngineMain.LONGITUD_MAXIMA_PATRON)
  }

  predicate BusquedaValida(b: CuerpoBusqueda)
  {
    OpcionalCabe(b.casoNumero, 50) && PatronSoloValido(b) && PatronesValidos(b.patrones) && OpcionalCabe(b.descripcionCaso, 500)
  }

  /** The body the controller receives: each chain that ran has replaced
      its field with the trimmed string. */
  function Saneado(b: CuerpoBusqueda): CuerpoBusqueda
    requires BusquedaValida(b)
  {
    CuerpoBusqueda(
      if b.casoNumero.Indefinido? then b.casoNumero else Texto(Recortada(b.casoNumero).value),
      if b.patrones.Indefinido? then Texto(Recortada(b.patron).value) else b.patron,
      b.patrones,
      if b.descripcionCaso.Indefinido? then b.descripcionCaso else Texto(Recortada(b.descripcionCaso).value))
  }

  /** A valid body without `patrones` reaches the engine as its one
      trimmed pattern, which the engine accepts. */
  lemma SoloPatronLlegaAlMotor(b: CuerpoBusqueda)
    requires BusquedaValida(b) && b.patrones.Indefinido?
    ensures var n := BusquedasController.NormalizarPatrones(Saneado(b).patron, Saneado(b).patrones);
            && n == Success([Recortada(b.patron).value])
            && EngineMain.PatronValido(n.value[0]) && EngineMain.PatronLimpio(n.value[0])
            && EngineMain.DividirPorComa(Join(n.value, ",")) == n.value
  {
    var t := Recortada(b.patron).value;
    assert Saneado(b).patron == Texto(t) && Saneado(b).patrones == Indefinido;
    UnPatronLlega(t);
  }

  /** A string of bases is normalised to itself alone, and the engine
      accepts it and reads it back from the comma-joined argument. */
  lemma UnPatronLlega(t: string)
    requires PatronAceptable(t)
    ensures BusquedasController.NormalizarPatrones(Texto(t), Indefinido) == Success([t])
    ensures EngineMain.PatronValido(t) && EngineMain.PatronLimpio(t)
    ensures EngineMain.DividirPorComa(Join([t], ",")) == [t]
  {
    LimpioSiEsADN(t);
    NormalizarUno(t);
    EngineMain.DividirUnir([t]);
  }

  /** A lone trimmed, non-empty `patron` is normalised to itself. */
  lemma NormalizarUno(t: string)
    requires t != "" && JsText.SinBordes(t)
    ensures BusquedasController.NormalizarPatrones(Texto(t), Indefinido) == Success([t])
  {
    JsText.TrimSinBordes(t);
    assert BusquedasController.Recogidos(Texto(t), Indefinido) == [t];
    BusquedasController.SinDuplicadosIdentidad([t]);
  }

  /** A string of bases has no blank end and no comma, and its length is
      its plain length. */
  lemma LimpioSiEsADN(p: string)
    requires SospechosoModel.CoincideATCG(p)
    ensures EngineMain.PatronLimpio(p) && Adn.EsCadenaADN(p) && JsText.SinBordes(p) && Longitud(p) == |p|
  {
    LongitudSinSelectores(p);
  }

  /** What `forEach` keeps from a validated `patrones` array: every
      entry, unchanged, each a pattern the engine accepts. */
  lemma TomadosValidados(es: seq<Valor>)
    requires PatronesValidos(Arreglo(es))
    ensures es[0].s in BusquedasController.Tomados(es)
    ensures forall x :: x in BusquedasController.Tomados(es) ==> EngineMain.PatronValido(x) && EngineMain.PatronLimpio(x)
  {
    LimpioSiEsADN(es[0].s);
    JsText.TrimSinBordes(es[0].s);
    assert BusquedasController.Tomable(es[0]);
    forall x | x in BusquedasController.Tomados(es)
      ensures EngineMain.PatronValido(x) && EngineMain.PatronLimpio(x)
    {
      var j := BusquedasController.TomadoDe(es, x);
      LimpioSiEsADN(es[j].s);
      JsText.TrimSinBordes(es[j].s);
    }
  }

  /** A valid body with `patrones` and no truthy `patron` reaches the
      engine as patterns it accepts, which survive the comma-joined
      argument unchanged. */
  lemma PatronesLleganAlMotor(b: CuerpoBusqueda)
    requires BusquedaValida(b) && b.patrones.Arreglo? && !Truthy(b.patron)
    ensures var n := BusquedasController.NormalizarPatrones(Saneado(b).patron, Saneado(b).patrones);
            && n.Success? && |n.value| > 0
            && (forall k :: 0 <= k < |n.value| ==> EngineMain.PatronValido(n.value[k]) && EngineMain.PatronLimpio(n.value[k]))
            && EngineMain.DividirPorComa(Join(n.value, ",")) == n.value
  {
    var es := b.patrones.elems;
    assert Saneado(b).patron == b.patron && Saneado(b).patrones == b.patrones;
    var n := BusquedasController.NormalizarPatrones(b.patron, b.patrones);
    TomadosValidados(es);
    assert BusquedasController.Recogidos(b.patron, b.patrones) == BusquedasController.Tomados(es);
    assert es[0].s in n.value;
    assert forall k :: 0 <= k < |n.value| ==> n.value[k] in BusquedasController.Tomados(es);
    EngineMain.DividirUnir(n.value);
  }

  /** With `patrones` present the `patron` field goes unchecked: a
      numeric `patron` passes validation and then makes the controller
      throw a `TypeError`, which the error handler answers with a 500. */
  lemma PatronSinValidar(n: int, es: seq<Valor>)
    requires n != 0 && PatronesValidos(Arreglo(es))
    ensures var b := CuerpoBusqueda(Indefinido, Numero(n), Arreglo(es), Indefinido);
            && BusquedaValida(b)
            && BusquedasController.NormalizarPatrones(Saneado(b).patron, Saneado(b).patrones)
               == Failure(BusquedasController.ErrorDeTipo(BusquedasController.TRIM_NO_ES_FUNCION))
    ensures ErrorHandler.Manejar(BusquedasController.ErrorDeTipo(BusquedasController.TRIM_NO_ES_FUNCION))
            == Some(ErrorHandler.Respuesta(500, BusquedasController.TRIM_NO_ES_FUNCION))
  {
    var b := CuerpoBusqueda(Indefinido, Numero(n), Arreglo(es), Indefinido);
    assert BusquedaValida(b);
    assert Saneado(b) == b;
    assert BusquedasController.TRIM_NO_ES_FUNCION != "";
  }

  /** With `patrones` present a string `patron` of non-bases passes
      validation and reaches the engine, which rejects it. */
  lemma PatronInvalidoLlegaAlMotor()
    ensures var b := CuerpoBusqueda(Indefinido, Texto("ZZZZZ"), Arreglo([Texto("ACGTA")]), Indefinido);
            && BusquedaValida(b)
            && var n := BusquedasController.NormalizarPatrones(Saneado(b).patron, Saneado(b).patrones);
               n.Success? && |n.value| > 0 && n.value[0] == "ZZZZZ" && !EngineMain.PatronValido(n.value[0])
  {
    assert SospechosoModel.CoincideATCG("ACGTA");
    LimpioSiEsADN("ACGTA");
    JsText.TrimSinBordes("ZZZZZ");
    assert !Adn.EsBase('Z');
  }

  /** A letter that is not whitespace survives `trim`. */
  lemma SobreviveTrim(p: string, k: nat) returns (j: nat)
    requires k < |p| && !JsText.EsEspacioJS(p[k])
    ensures j < |JsText.Trim(p)| && JsText.Trim(p)[j] == p[k]
  {
    JsText.TrimRecorta(p);
    var i :| JsText.Recorte(p, i, JsText.Trim(p));
    j := k - i;
    assert p[i..i + |JsText.Trim(p)|][j] == p[k];
  }

  /** The pattern checks are case-sensitive: a lower-case pattern is
      refused, alone or in a list. */
  lemma PatronMinusculaRechazado(p: string, k: nat)
    requires k < |p| && 'a' <= p[k] <= 'z'
    ensures !BusquedaValida(CuerpoBusqueda(Indefinido, Indefinido, Arreglo([Texto(p)]), Indefinido))
    ensures !BusquedaValida(CuerpoBusqueda(Indefinido, Texto(p), Indefinido, Indefinido))
  {
    assert !Adn.EsBase(p[k]);
    assert !SospechosoModel.CoincideATCG(p);
    assert !PatronesValidos(Arreglo([Texto(p)])) by {
      assert Arreglo([Texto(p)]).elems[0] == Texto(p);
    }
    var j := SobreviveTrim(p, k);
    assert !Adn.EsBase(JsText.Trim(p)[j]);
  }

  // ---------------------------------------------------------------------
  // validarSospechoso / validarSospechosoActualizacion

  /** The fields the suspect validators read. */
  datatype CuerpoSospechoso = CuerpoSospechoso(
    nombreCompleto: Valor, cedula: Valor, cadenaADN: Valor,
    fuenteMuestra: Valor, observaciones: Valor, activo: Valor)

  /** `trim().notEmpty().isLength({ max: 200 })`. */
  predicate NombreValido(v: Valor)
  {
    Recortada(v).Some? && Recortada(v).value != "" && Longitud(Recortada(v).value) <= SospechosoModel.NOMBRE_MAXIMO
  }

  /** `notEmpty().isInt({ min: 10000000, max: 99999999 })`; no trim. */
  predicate CedulaValida(v: Valor)
  {
    ComoCadena(v).Some? && ComoCadena(v).value != ""
    && EnteroEntre(ComoCadena(v).value, Some(SospechosoModel.CEDULA_MINIMA), Some(SospechosoModel.CEDULA_MAXIMA))
  }

  /** `trim().notEmpty().matches(/^[ATCG]+$/i).isLength({ min: 20 })`. */
  predicate CadenaValida(v: Valor)
  {
    Recortada(v).Some? && Recortada(v).value != ""
    && SospechosoModel.CoincideATCGSinCaso(Recortada(v).value) && Longitud(Recortada(v).value) >= SospechosoModel.ADN_MINIMO
  }

  /** `isBoolean()`: one of "true", "false", "1", "0". */
  predicate BooleanoValido(v: Valor)
  {
    ComoCadena(v).Some? && ComoCadena(v).value in {"true", "false", "1", "0"}
  }

  predicate SospechosoValido(b: CuerpoSospechoso)
  {
    && NombreValido(b.nombreCompleto)
    && CedulaValida(b.cedula)
    && CadenaValida(b.cadenaADN)
    && OpcionalCabe(b.fuenteMuestra, SospechosoModel.FUENTE_MAXIMA)
    && OpcionalCabe(b.observaciones, SospechosoModel.OBSERVACIONES_MAXIMAS)
  }

  /** Every field optional; a present field meets the same rule. */
  predicate ActualizacionValida(b: CuerpoSospechoso)
  {
    && (b.nombreCompleto.Indefinido? || NombreValido(b.nombreCompleto))
    && (b.cedula.Indefinido? || CedulaValida(b.cedula))
    && (b.cadenaADN.Indefinido? || CadenaValida(b.cadenaADN))
    && OpcionalCabe(b.fuenteMuestra, SospechosoModel.FUENTE_MAXIMA)
    && OpcionalCabe(b.observaciones, SospechosoModel.OBSERVACIONES_MAXIMAS)
    && (b.activo.Indefinido? || BooleanoValido(b.activo))
  }

  /** An update that supplies the three required fields and no `activo`
      is valid exactly when the same body is valid for creation; an empty
      update is valid. */
  lemma ActualizacionComoCreacion(b: CuerpoSospechoso)
    ensures !b.nombreCompleto.Indefinido? && !b.cedula.Indefinido? && !b.cadenaADN.Indefinido? && b.activo.Indefinido? ==>
              (ActualizacionValida(b) <==> SospechosoValido(b))
    ensures ActualizacionValida(CuerpoSospechoso(Indefinido, Indefinido, Indefinido, Indefinido, Indefinido, Indefinido))
  {
  }

  /** A present `activo` whose string form is none of the four boolean
      spellings fails the update, whatever the other fields hold. An object
      reads as "[object Object]" and so fails; an array, which `ComoCadena`
      does not read, fails too. */
  lemma ActivoNoBooleano(b: CuerpoSospechoso)
    requires !b.activo.Indefinido?
    requires ComoCadena(b.activo).None? || ComoCadena(b.activo).value !in {"true", "false", "1", "0"}
    ensures !ActualizacionValida(b)
  {
  }

  /** Conversely, an update carrying only `activo` passes exactly when that
      value reads as one of the four spellings. */
  lemma ActivoSoloBooleano(v: Valor)
    requires !v.Indefinido?
    ensures var b := CuerpoSospechoso(Indefinido, Indefinido, Indefinido, Indefinido, Indefinido, v);
            ActualizacionValida(b) <==> ComoCadena(v).Some? && ComoCadena(v).value in {"true", "false", "1", "0"}
  {
  }

  /** The DNA rule of the validator accepts everything the model's static
      `validarCadenaADN` accepts, and more: a chain of at least 20 bases
      written with some lower-case letter passes the validator and fails
      the model. */
  lemma CadenaValidadorSuperconjunto(s: string)
    ensures SospechosoModel.ValidarCadenaADN(s) ==> CadenaValida(Texto(s))
    ensures (|s| >= SospechosoModel.ADN_MINIMO && (forall k :: 0 <= k < |s| ==> SospechosoModel.EsBaseSinCaso(s[k]))
             && exists k :: 0 <= k < |s| && 'a' <= s[k] <= 'z')
            ==> CadenaValida(Texto(s)) && !SospechosoModel.ValidarCadenaADN(s)
  {
    if forall k :: 0 <= k < |s| ==> SospechosoModel.EsBaseSinCaso(s[k]) {
      assert forall k :: 0 <= k < |s| ==> !EsSelector(s[k]) && !JsText.EsEspacioJS(s[k]);
      JsText.TrimSinBordes(s);
      LongitudSinSelectores(s);
      if exists k :: 0 <= k < |s| && 'a' <= s[k] <= 'z' {
        var k :| 0 <= k < |s| && 'a' <= s[k] <= 'z';
        SospechosoModel.MinusculaRechazada(s, k);
      }
    }
  }

  /** Each decimal digit past the first adds one character. */
  lemma UnaCifraMas(n: nat)
    requires n >= 10
    ensures |NatToString(n)| == |NatToString(n / 10)| + 1
  {
  }

  /** The numbers in the cedula range print with eight digits. */
  lemma {:induction false} OchoCifras(n: nat)
    requires SospechosoModel.CEDULA_MINIMA <= n <= SospechosoModel.CEDULA_MAXIMA
    ensures |NatToString(n)| == 8
  {
    var m1 := n / 10;
    assert 1000000 <= m1 < 10000000;
    var m2 := m1 / 10;
    assert 100000 <= m2 < 1000000;
    var m3 := m2 / 10;
    assert 10000 <= m3 < 100000;
    var m4 := m3 / 10;
    assert 1000 <= m4 < 10000;
    var m5 := m4 / 10;
    assert 100 <= m5 < 1000;
    var m6 := m5 / 10;
    assert 10 <= m6 < 100;
    var m7 := m6 / 10;
    assert 1 <= m7 < 10;
    UnaCifraMas(n);
    UnaCifraMas(m1);
    UnaCifraMas(m2);
    UnaCifraMas(m3);
    UnaCifraMas(m4);
    UnaCifraMas(m5);
    UnaCifraMas(m6);
  }

  /** What a valid cedula means once `toInt` has run: a number within the
      schema's bounds whose decimal form has eight digits. The text itself
      may be longer: a sign and leading zeros are accepted. */
  lemma CedulaDeOchoCifras(v: Valor)
    requires CedulaValida(v)
    ensures var c := ValorEntero(ComoCadena(v).value);
            && SospechosoModel.CEDULA_MINIMA <= c <= SospechosoModel.CEDULA_MAXIMA
            && |NatToString(c)| == 8
  {
    OchoCifras(ValorEntero(ComoCadena(v).value));
  }

  /** A signed cedula passes: nine characters for an eight-digit number. */
  lemma CedulaConSigno()
    ensures var t := "+" + NatToString(12345678);
            CedulaValida(Texto(t)) && |t| == 9
  {
    var d := NatToString(12345678);
    OchoCifras(12345678);
    assert ("+" + d)[1..] == d;
  }

  /** A body the create validator accepts, with an upper-case chain,
      builds a document the schema accepts up to the name's length: the
      schema holds exactly when the name has at most 200 characters, and
      it holds whenever the name carries no variation selector. */
  lemma CreacionCumpleEsquema(b: CuerpoSospechoso, activo: Option<bool>)
    requires SospechosoValido(b)
    requires Adn.EsCadenaADN(Recortada(b.cadenaADN).value)
    ensures var d := SospechosoModel.Construir(SospechosoModel.Entrada(
                       Recortada(b.nombreCompleto).value, ValorEntero(ComoCadena(b.cedula).value),
                       Recortada(b.cadenaADN).value, None, None, activo));
            && 0 < |d.nombreCompleto|
            && SospechosoModel.CEDULA_MINIMA <= d.cedula <= SospechosoModel.CEDULA_MAXIMA
            && SospechosoModel.ValidarCadenaADN(d.cadenaADN)
            && (SospechosoModel.EsquemaValido(d) <==> |d.nombreCompleto| <= SospechosoModel.NOMBRE_MAXIMO)
            && ((forall k :: 0 <= k < |d.nombreCompleto| ==> !EsSelector(d.nombreCompleto[k]))
                ==> SospechosoModel.EsquemaValido(d))
  {
    var nombre := Recortada(b.nombreCompleto).value;
    JsText.TrimIdempotente(ComoCadena(b.nombreCompleto).value);
    LimpioSiEsADN(Recortada(b.cadenaADN).value);
    if forall k :: 0 <= k < |nombre| ==> !EsSelector(nombre[k]) {
      LongitudSinSelectores(nombre);
    }
  }

  /** `isLength` never counts more than the plain length. */
  lemma LongitudAcotada(s: string)
    ensures Longitud(s) <= |s|
  {
  }

  // ---------------------------------------------------------------------
  // validarPaginacion

  /** `query('page').optional().isInt({ min: 1 })` and
      `query('limit').optional().isInt({ min: 1, max: 100 })`; the query
      values are strings, absent when not given. */
  predicate PaginacionValida(page: Option<string>, limit: Option<string>)
  {
    (page.None? || EnteroEntre(page.value, Some(1), None))
    && (limit.None? || EnteroEntre(limit.value, Some(1), Some(Paginacion.LIMITE_MAXIMO)))
  }

  /** After validation the listing uses the page and limit asked for: the
      controllers' own defaults and clamp never change a validated value. */
  lemma PaginacionSinAjuste(page: string, limit: string)
    requires PaginacionValida(Some(page), Some(limit))
    ensures Paginacion.Pagina(Some(ValorEntero(page))) == ValorEntero(page)
    ensures Paginacion.Limite(Some(ValorEntero(limit))) == ValorEntero(limit)
    ensures !PaginacionValida(None, Some(NatToString(500)))
  {
  }

  // ---------------------------------------------------------------------
  // validarRegistro

  /** The fields `validarRegistro` reads; `esEmail` is the `isEmail`
      check. */
  datatype CuerpoRegistro = CuerpoRegistro(nombre: Valor, email: Valor, password: Valor, rol: Valor)

  /** A LineTerminator (section 12.3 of ECMA-262), which `.` does not
      match. */
  predicate FinDeLinea(c: char)
  {
    c == '\n' || c == '\r' || c == '\U{2028}' || c == '\U{2029}'
  }

  /** The text before the first line terminator: what `^(?=.*X)` can
      search. */
  function PrimeraLinea(s: string): (r: string)
    ensures |r| <= |s| && r == s[..|r|]
    ensures forall k :: 0 <= k < |r| ==> !FinDeLinea(r[k])
    ensures |r| < |s| ==> FinDeLinea(s[|r|])
  {
    if |s| == 0 || FinDeLinea(s[0]) then "" else [s[0]] + PrimeraLinea(s[1..])
  }

  predicate Contiene(s: string, p: char -> bool)
  {
    exists k :: 0 <= k < |s| && p(s[k])
  }

  /** `/^(?=.*[a-z])(?=.*[A-Z])(?=.*\d)/`. */
  predicate Mezclada(s: string)
  {
    var l := PrimeraLinea(s);
    Contiene(l, c => 'a' <= c <= 'z') && Contiene(l, c => 'A' <= c <= 'Z') && Contiene(l, c => '0' <= c <= '9')
  }

  predicate ContrasenaValida(v: Valor)
  {
    ComoCadena(v).Some? && ComoCadena(v).value != "" && Longitud(ComoCadena(v).value) >= 8 && Mezclada(ComoCadena(v).value)
  }

  predicate RegistroValido(b: CuerpoRegistro, esEmail: string -> bool)
  {
    && Recortada(b.nombre).Some? && Recortada(b.nombre).value != "" && Longitud(Recortada(b.nombre).value) <= 100
    && Recortada(b.email).Some? && Recortada(b.email).value != "" && esEmail(Recortada(b.email).value)
    && ContrasenaValida(b.password)
    && (b.rol.Indefinido? || (ComoCadena(b.rol).Some? && ComoCadena(b.rol).value in {"perito", "admin", "investigador"}))
  }

  /** A valid password has at least eight characters and a lower-case
      letter, an upper-case letter and a digit — all on its first line:
      the same characters after a line break do not count. */
  lemma ContrasenaCompuesta(v: Valor)
    requires ContrasenaValida(v)
    ensures var s := ComoCadena(v).value;
            && |s| >= 8
            && (exists k :: 0 <= k < |s| && 'a' <= s[k] <= 'z')
            && (exists k :: 0 <= k < |s| && 'A' <= s[k] <= 'Z')
            && (exists k :: 0 <= k < |s| && '0' <= s[k] <= '9')
  {
    MezcladaCompuesta(ComoCadena(v).value);
  }

  /** The lookaheads and the length check on the string itself. */
  lemma MezcladaCompuesta(s: string)
    requires Longitud(s) >= 8 && Mezclada(s)
    ensures |s| >= 8
    ensures exists k :: 0 <= k < |s| && 'a' <= s[k] <= 'z'
    ensures exists k :: 0 <= k < |s| && 'A' <= s[k] <= 'Z'
    ensures exists k :: 0 <= k < |s| && '0' <= s[k] <= '9'
  {
    var l := PrimeraLinea(s);
    LongitudAcotada(s);
    var a :| 0 <= a < |l| && 'a' <= l[a] <= 'z';
    assert s[a] == l[a];
    var b :| 0 <= b < |l| && 'A' <= l[b] <= 'Z';
    assert s[b] == l[b];
    var c :| 0 <= c < |l| && '0' <= l[c] <= '9';
    assert s[c] == l[c];
  }

  /** An upper-case letter after the first line break does not count: a
      password whose first line has none is refused, whatever follows. */
  lemma MayusculaTrasSalto(s: string, j: nat)
    requires j < |s| && FinDeLinea(s[j]) && forall k :: 0 <= k < j ==> !('A' <= s[k] <= 'Z')
    ensures !ContrasenaValida(Texto(s))
  {
    var l := PrimeraLinea(s);
    assert forall k :: 0 <= k < |l| ==> l[k] == s[k];
  }
}
