/** The suspect document of the backend (backend/src/models/Sospechoso.js):
    field constraints and defaults, the `validarCadenaADN` static, and the
    pre-save hook that keeps `longitudCadena` in step with `cadenaADN`.
    Dates are integers (milliseconds) supplied by the caller. */
module SospechosoModel {
  import opened Wrappers
  import opened Adn
  import JsText

  const CEDULA_MINIMA: int := 10000000
  const CEDULA_MAXIMA: int := 99999999
  const NOMBRE_MAXIMO: nat := 200
  const ADN_MINIMO: nat := 20
  const FUENTE_MAXIMA: nat := 100
  const OBSERVACIONES_MAXIMAS: nat := 500
  const FUENTE_POR_DEFECTO: string := "Registro Nacional"

  /** A stored suspect. `fuenteMuestra`, `observaciones`, `longitudCadena`
      and `fechaActualizacion` may be absent. */
  datatype Documento = Documento(
    nombreCompleto: string,
    cedula: int,
    cadenaADN: string,
    longitudCadena: Option<int>,
    fuenteMuestra: Option<string>,
    observaciones: Option<string>,
    activo: bool,
    fechaActualizacion: Option<int>)

  /** The regular expression `/^[ATCG]+$/` (no flags), matched character by character. */
  function CoincideATCG(s: string): (r: bool)
    ensures r <==> EsCadenaADN(s)
  {
    |s| > 0 && EsBase(s[0]) && (|s| == 1 || CoincideATCG(s[1..]))
  }

  /** A letter `/[ATCG]/i` accepts: the four bases in either case. */
  predicate EsBaseSinCaso(c: char)
  {
    EsBase(c) || c == 'a' || c == 't' || c == 'c' || c == 'g'
  }

  /** The regular expression `/^[ATCG]+$/i`, matched character by character. */
  function CoincideATCGSinCaso(s: string): (r: bool)
    ensures r <==> |s| > 0 && forall k :: 0 <= k < |s| ==> EsBaseSinCaso(s[k])
  {
    |s| > 0 && EsBaseSinCaso(s[0]) && (|s| == 1 || CoincideATCGSinCaso(s[1..]))
  }

  /** `Sospechoso.validarCadenaADN`: bases only, upper case, at least 20. */
  function ValidarCadenaADN(cadena: string): (ok: bool)
    ensures ok <==> EsCadenaADN(cadena) && |cadena| >= ADN_MINIMO
  {
    CoincideATCG(cadena) && |cadena| >= ADN_MINIMO
  }

  /** The check is case-sensitive: one lower-case letter anywhere rejects
      the string. */
  lemma MinusculaRechazada(cadena: string, k: int)
    requires 0 <= k < |cadena| && 'a' <= cadena[k] <= 'z'
    ensures !ValidarCadenaADN(cadena)
  {
  }

  /** The fields as a create request supplies them; absent optional fields
      are `None`. */
  datatype Entrada = Entrada(
    nombreCompleto: string,
    cedula: int,
    cadenaADN: string,
    fuenteMuestra: Option<string>,
    observaciones: Option<string>,
    activo: Option<bool>)

  /** The document Mongoose builds from a create request: the name is
      trimmed (`trim: true`), `activo` defaults to true and `fuenteMuestra`
      to 'Registro Nacional'. */
  function Construir(e: Entrada): (d: Documento)
    ensures d.activo == (e.activo.None? || e.activo.value)
    ensures d.fuenteMuestra == Some(if e.fuenteMuestra.Some? then e.fuenteMuestra.value else FUENTE_POR_DEFECTO)
    ensures d.nombreCompleto == JsText.Trim(e.nombreCompleto) && JsText.SinBordes(d.nombreCompleto)
    ensures d.cedula == e.cedula && d.cadenaADN == e.cadenaADN && d.observaciones == e.observaciones
  {
    Documento(JsText.Trim(e.nombreCompleto), e.cedula, e.cadenaADN, None,
              Some(e.fuenteMuestra.OrElse(FUENTE_POR_DEFECTO)), e.observaciones,
              e.activo.OrElse(true), None)
  }

  /** The schema's validators: required non-empty name of at most 200
      characters, cedula in [10000000, 99999999], required DNA matching
      `/^[ATCG]+$/` of at least 20 characters, and the two length caps. */
  predicate EsquemaValido(d: Documento)
  {
    && 0 < |d.nombreCompleto| <= NOMBRE_MAXIMO
    && CEDULA_MINIMA <= d.cedula <= CEDULA_MAXIMA
    && |d.cadenaADN| > 0 && CoincideATCG(d.cadenaADN) && |d.cadenaADN| >= ADN_MINIMO
    && (d.fuenteMuestra.Some? ==> |d.fuenteMuestra.value| <= FUENTE_MAXIMA)
    && (d.observaciones.Some? ==> |d.observaciones.value| <= OBSERVACIONES_MAXIMAS)
  }

  /** A document the schema accepts carries a chain the static
      `validarCadenaADN` accepts; and when its other fields are in bounds,
      the schema accepts it exactly when the static accepts its chain. */
  lemma EsquemaYValidadorCoinciden(d: Documento)
    ensures EsquemaValido(d) ==> ValidarCadenaADN(d.cadenaADN)
    ensures (&& 0 < |d.nombreCompleto| <= NOMBRE_MAXIMO
             && CEDULA_MINIMA <= d.cedula <= CEDULA_MAXIMA
             && (d.fuenteMuestra.Some? ==> |d.fuenteMuestra.value| <= FUENTE_MAXIMA)
             && (d.observaciones.Some? ==> |d.observaciones.value| <= OBSERVACIONES_MAXIMAS))
            ==> (EsquemaValido(d) <==> ValidarCadenaADN(d.cadenaADN))
  {
  }

  /** The cedula bounds admit exactly the eight-digit numbers. */
  lemma CedulaOchoDigitos(c: int)
    ensures CEDULA_MINIMA <= c <= CEDULA_MAXIMA <==> 0 < c && c / 10000000 >= 1 && c / 100000000 == 0
  {
  }

  /** The pre-save hook: when `cadenaADN` was modified, record its length
      and the update time; otherwise leave the document alone. */
  function PreGuardar(d: Documento, modificado: bool, ahora: int): (r: Documento)
    ensures modificado ==> r.longitudCadena == Some(|d.cadenaADN|) && r.fechaActualizacion == Some(ahora)
    ensures !modificado ==> r == d
    ensures r.cadenaADN == d.cadenaADN && r.cedula == d.cedula && r.nombreCompleto == d.nombreCompleto
    ensures r.activo == d.activo && r.fuenteMuestra == d.fuenteMuestra && r.observaciones == d.observaciones
  {
    if modificado then d.(longitudCadena := Some(|d.cadenaADN|), fechaActualizacion := Some(ahora)) else d
  }

  /** `isModified('cadenaADN')`: a new document, or a different DNA string. */
  function Guardar(previo: Option<Documento>, d: Documento, ahora: int): Documento
  {
    PreGuardar(d, previo.None? || previo.value.cadenaADN != d.cadenaADN, ahora)
  }

  /** The stored length agrees with the stored DNA string. */
  predicate LongitudCoherente(d: Documento)
  {
    d.longitudCadena == Some(|d.cadenaADN|)
  }

  /** Saving keeps `longitudCadena` right: a new document gets it, and an
      existing one whose length field was left as stored keeps it right
      whether or not the DNA changed. */
  lemma GuardarCoherente(previo: Option<Documento>, d: Documento, ahora: int)
    requires previo.Some? ==> LongitudCoherente(previo.value) && d.longitudCadena == previo.value.longitudCadena
    ensures LongitudCoherente(Guardar(previo, d, ahora))
    ensures previo.Some? && previo.value.cadenaADN == d.cadenaADN ==>
              Guardar(previo, d, ahora).fechaActualizacion == d.fechaActualizacion
  {
  }

  /** `find({ activo: f })`: the documents the filter selects, in their
      order; no filter selects every document. */
  function ConActivo(docs: seq<Documento>, f: Option<bool>): (r: seq<Documento>)
    ensures |r| <= |docs|
    ensures forall d :: d in r <==> d in docs && (f.None? || d.activo == f.value)
    ensures f.None? ==> r == docs
  {
    if |docs| == 0 then []
    else
      var resto := ConActivo(docs[1..], f);
      assert forall d :: d in docs <==> d == docs[0] || d in docs[1..];
      if f.None? || docs[0].activo == f.value then [docs[0]] + resto else resto
  }
}
