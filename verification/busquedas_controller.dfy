/** The search endpoints (backend/src/controllers/busquedasController.js):
    pattern normalisation, running a search and recording it, the history
    listing and the detail view. Requests are described by the values the
    controller reads; the database is a sequence of documents, and the
    engine service is the one modelled in `DnaEngineService`. */
module BusquedasController {
  import opened Wrappers
  import opened JsValor
  import JsText
  import JsonOutput
  import ErrorHandler
  import Paginacion
  import SospechosoModel
  import DnaEngineService

  // ---------------------------------------------------------------------
  // [...new Set(xs)]: first occurrences, in order

  predicate SinRepetidos<T(==)>(xs: seq<T>)
  {
    forall i, j :: 0 <= i < j < |xs| ==> xs[i] != xs[j]
  }

  /** The index of the first occurrence of `x`. */
  function Primera<T(==)>(xs: seq<T>, x: T): (i: nat)
    requires x in xs
    ensures i < |xs| && xs[i] == x
    ensures forall k :: 0 <= k < i ==> xs[k] != x
  {
    if xs[0] == x then 0 else 1 + Primera(xs[1..], x)
  }

  /** The first occurrence in a prefix is the first occurrence overall. */
  lemma PrimeraPrefijo<T>(xs: seq<T>, n: nat, x: T)
    requires n <= |xs| && x in xs[..n]
    ensures x in xs && Primera(xs, x) == Primera(xs[..n], x)
  {
    var i := Primera(xs[..n], x);
    assert xs[i] == x;
    assert forall k :: 0 <= k < i ==> xs[k] == xs[..n][k];
  }

  /** `[...new Set(xs)]`: every value once, at the place it first occurs. */
  function SinDuplicados<T(==,!new)>(xs: seq<T>): (r: seq<T>)
    ensures SinRepetidos(r)
    ensures forall x :: x in r <==> x in xs
    ensures |r| <= |xs|
  {
    if |xs| == 0 then []
    else
      var previos := SinDuplicados(xs[..|xs| - 1]);
      assert forall x :: x in xs <==> x in xs[..|xs| - 1] || x == xs[|xs| - 1];
      if xs[|xs| - 1] in previos then previos else previos + [xs[|xs| - 1]]
  }

  /** The values of `r` occur in `xs`, in the order of their first
      occurrences there. */
  predicate EnOrdenDePrimeras<T(==)>(xs: seq<T>, r: seq<T>)
  {
    forall i, j :: 0 <= i < j < |r| ==> r[i] in xs && r[j] in xs && Primera(xs, r[i]) < Primera(xs, r[j])
  }

  /** The values keep the order of their first occurrences. */
  lemma {:induction false} SinDuplicadosOrden<T(!new)>(xs: seq<T>)
    ensures EnOrdenDePrimeras(xs, SinDuplicados(xs))
  {
    if |xs| > 0 {
      var n := |xs| - 1;
      var previos := SinDuplicados(xs[..n]);
      SinDuplicadosOrden(xs[..n]);
      forall y | y in previos
        ensures y in xs && Primera(xs, y) == Primera(xs[..n], y) < n
      {
        PrimeraPrefijo(xs, n, y);
      }
      var r := SinDuplicados(xs);
      if xs[n] !in previos {
        assert forall k :: 0 <= k < n ==> xs[k] != xs[n] by {
          assert forall k :: 0 <= k < n ==> xs[k] == xs[..n][k];
        }
        assert Primera(xs, xs[n]) == n;
      }
      forall i, j | 0 <= i < j < |r|
        ensures r[i] in xs && r[j] in xs && Primera(xs, r[i]) < Primera(xs, r[j])
      {
        assert r[i] == previos[i] && previos[i] in previos;
        if j < |previos| {
          assert r[j] == previos[j] && previos[j] in previos;
          assert Primera(xs[..n], previos[i]) < Primera(xs[..n], previos[j]);
        } else {
          assert r == previos + [xs[n]] && r[j] == xs[n];
        }
      }
    }
  }

  /** A non-empty list keeps its first value in front. */
  lemma {:induction false} SinDuplicadosPrimero<T(!new)>(xs: seq<T>)
    requires |xs| > 0
    ensures |SinDuplicados(xs)| > 0 && SinDuplicados(xs)[0] == xs[0]
  {
    if |xs| > 1 {
      SinDuplicadosPrimero(xs[..|xs| - 1]);
    }
  }

  /** A list without repeats is left as it is. */
  lemma {:induction false} SinDuplicadosIdentidad<T(!new)>(xs: seq<T>)
    requires SinRepetidos(xs)
    ensures SinDuplicados(xs) == xs
  {
    if |xs| > 0 {
      var n := |xs| - 1;
      assert SinRepetidos(xs[..n]);
      SinDuplicadosIdentidad(xs[..n]);
      assert xs[n] !in xs[..n];
      assert xs[..n] + [xs[n]] == xs;
    }
  }

  // ---------------------------------------------------------------------
  // normalizarPatrones

  const TRIM_NO_ES_FUNCION: string := "body.patron.trim is not a function"

  /** The `TypeError` the runtime throws; it has no status. */
  function ErrorDeTipo(mensaje: string): ErrorHandler.Error
  {
    ErrorHandler.Error("TypeError", mensaje, None, None, [], None, false)
  }

  /** An entry of `body.patrones` that `forEach` keeps: a string that is
      not blank. */
  predicate Tomable(v: Valor)
  {
    v.Texto? && JsText.Trim(v.s) != ""
  }

  /** The trimmed entries `forEach` pushes, in order. */
  function Tomados(elems: seq<Valor>): (r: seq<string>)
    ensures |r| <= |elems|
    ensures forall k :: 0 <= k < |r| ==> r[k] != "" && JsText.SinBordes(r[k])
    ensures forall k :: 0 <= k < |elems| && Tomable(elems[k]) ==> JsText.Trim(elems[k].s) in r
  {
    if |elems| == 0 then []
    else
      var resto := Tomados(elems[1..]);
      assert forall k :: 1 <= k < |elems| ==> elems[k] == elems[1..][k - 1];
      if Tomable(elems[0]) then [JsText.Trim(elems[0].s)] + resto else resto
  }

  /** Every pushed entry comes from an entry of the array. */
  lemma {:induction false} TomadoDe(elems: seq<Valor>, x: string) returns (k: nat)
    requires x in Tomados(elems)
    ensures k < |elems| && Tomable(elems[k]) && x == JsText.Trim(elems[k].s)
  {
    if Tomable(elems[0]) && x == JsText.Trim(elems[0].s) {
      k := 0;
    } else {
      var j := TomadoDe(elems[1..], x);
      k := j + 1;
    }
  }

  /** The array pushed in order, before repeats are removed: the trimmed
      `patron` when it is truthy, then the kept entries of `patrones`. */
  function Recogidos(patron: Valor, patrones: Valor): seq<string>
    requires !Truthy(patron) || patron.Texto?
  {
    (if Truthy(patron) then [JsText.Trim(patron.s)] else [])
    + (if patrones.Arreglo? then Tomados(patrones.elems) else [])
  }

  /** `normalizarPatrones(body)`. A truthy `patron` that is not a string
      has no `trim` and throws; a truthy string is pushed trimmed even when
      that leaves it empty. */
  function NormalizarPatrones(patron: Valor, patrones: Valor): (r: Result<seq<string>, ErrorHandler.Error>)
    ensures r.Failure? <==> Truthy(patron) && !patron.Texto?
    ensures r.Failure? ==> r.error == ErrorDeTipo(TRIM_NO_ES_FUNCION)
    ensures r.Success? ==> SinRepetidos(r.value) && forall x :: x in r.value <==> x in Recogidos(patron, patrones)
    ensures r.Success? && Truthy(patron) ==> |r.value| > 0 && r.value[0] == JsText.Trim(patron.s)
    ensures r.Success? && !Truthy(patron) ==>
              forall k :: 0 <= k < |r.value| ==> r.value[k] != "" && JsText.SinBordes(r.value[k])
  {
    if Truthy(patron) && !patron.Texto? then Failure(ErrorDeTipo(TRIM_NO_ES_FUNCION))
    else
      var xs := Recogidos(patron, patrones);
      assert !Truthy(patron) ==> forall x :: x in xs ==> x != "" && JsText.SinBordes(x);
      assert forall k :: 0 <= k < |SinDuplicados(xs)| ==> SinDuplicados(xs)[k] in xs;
      assert |xs| > 0 ==> |SinDuplicados(xs)| > 0 && SinDuplicados(xs)[0] == xs[0] by {
        if |xs| > 0 { SinDuplicadosPrimero(xs); }
      }
      Success(SinDuplicados(xs))
  }

  /** The normalised patterns: from `patron` and from the kept entries of
      `patrones` and from nowhere else, each once, in first-seen order. */
  lemma NormalizarOrigen(patron: Valor, patrones: Valor, x: string)
    requires NormalizarPatrones(patron, patrones).Success?
    ensures x in NormalizarPatrones(patron, patrones).value <==>
              (Truthy(patron) && x == JsText.Trim(patron.s))
              || (patrones.Arreglo? && exists k :: 0 <= k < |patrones.elems| && Tomable(patrones.elems[k])
                                                 && x == JsText.Trim(patrones.elems[k].s))
    ensures EnOrdenDePrimeras(Recogidos(patron, patrones), NormalizarPatrones(patron, patrones).value)
  {
    assert NormalizarPatrones(patron, patrones).value == SinDuplicados(Recogidos(patron, patrones));
    SinDuplicadosOrden(Recogidos(patron, patrones));
    if patrones.Arreglo? && x in Tomados(patrones.elems) {
      var k := TomadoDe(patrones.elems, x);
    }
  }

  // ---------------------------------------------------------------------
  // ejecutar

  const SIN_PATRONES: string := "Debe proporcionar al menos un patrón de ADN"
  const SIN_ACTIVOS: string := "No hay sospechosos activos para analizar"
  const SIN_EXITO: string := "El motor de búsqueda no reportó éxito"

  /** The request body fields `ejecutar` reads. */
  datatype Cuerpo = Cuerpo(
    patron: Valor,
    patrones: Valor,
    casoNumero: Option<string>,
    caso_numero: Option<string>,
    descripcionCaso: Option<string>,
    descripcion_caso: Option<string>,
    ubicacionEvidencia: Option<string>,
    ubicacion_evidencia: Option<string>)

  /** One stored match; a property the engine's item lacks is absent. */
  datatype CoincidenciaGuardada = CoincidenciaGuardada(
    nombre: Option<JsonOutput.Json>,
    cedula: Option<JsonOutput.Json>,
    patronId: Option<JsonOutput.Json>,
    patron: Option<JsonOutput.Json>,
    posicion: Option<JsonOutput.Json>)

  /** A stored search (backend/src/models/Busqueda.js), as `ejecutar`
      fills it; `fecha` is the creation time. */
  datatype Busqueda = Busqueda(
    usuarioId: string,
    casoNumero: Option<string>,
    descripcionCaso: Option<string>,
    ubicacionEvidencia: Option<string>,
    patrones: Option<JsonOutput.Json>,
    numPatrones: JsonOutput.Json,
    algoritmoUsado: Option<JsonOutput.Json>,
    criterioSeleccion: Option<JsonOutput.Json>,
    totalSospechososProcesados: JsonOutput.Json,
    totalCoincidencias: JsonOutput.Json,
    coincidencias: seq<CoincidenciaGuardada>,
    tiempoEjecucionMs: Option<JsonOutput.Json>,
    nombreArchivoCsv: string,
    hashSha256Archivo: string,
    fecha: int)

  /** `valor.clave`: a property of an object; anything else has none. */
  function Prop(valor: JsonOutput.Json, clave: string): Option<JsonOutput.Json>
  {
    if valor.JObj? then JsonOutput.Valor(valor.campos, clave) else None
  }

  /** `a ?? b` (JSON has no `undefined`, so only absence falls back). */
  function Respaldo(a: Option<JsonOutput.Json>, b: JsonOutput.Json): JsonOutput.Json
  {
    if a.Some? then a.value else b
  }

  /** ToBoolean on a property read from parsed JSON. */
  predicate Verdadero(v: Option<JsonOutput.Json>)
  {
    match v
    case None => false
    case Some(JBool(b)) => b
    case Some(JNum(n)) => n != 0
    case Some(JStr(s)) => s != ""
    case Some(_) => true
  }

  /** The `map` callback over `resultadoMotor.coincidencias`. */
  function Guardada(item: JsonOutput.Json): CoincidenciaGuardada
  {
    CoincidenciaGuardada(Prop(item, "nombre"), Prop(item, "cedula"),
                         if Prop(item, "patron_id").Some? then Prop(item, "patron_id") else Prop(item, "patronId"),
                         Prop(item, "patron"), Prop(item, "posicion"))
  }

  /** The stored matches: the engine's list item by item, or none when
      the engine's value is not an array. */
  function Guardadas(motor: JsonOutput.Json): (cs: seq<CoincidenciaGuardada>)
  {
    match Prop(motor, "coincidencias")
    case Some(JArr(elems)) => seq(|elems|, i requires 0 <= i < |elems| => Guardada(elems[i]))
    case _ => []
  }

  /** `Sospechoso.find({ activo: true }).select('nombreCompleto cedula cadenaADN').lean()`. */
  function Activos(docs: seq<SospechosoModel.Documento>): (r: seq<DnaEngineService.Sospechoso>)
  {
    var sel := SospechosoModel.ConActivo(docs, Some(true));
    seq(|sel|, i requires 0 <= i < |sel| =>
      DnaEngineService.Sospechoso(sel[i].nombreCompleto, sel[i].cedula, sel[i].cadenaADN))
  }

  /** The active suspects are the projections of exactly the documents
      marked active. */
  lemma ActivosSonLosActivos(docs: seq<SospechosoModel.Documento>)
    ensures |Activos(docs)| == 0 <==> forall d :: d in docs ==> !d.activo
    ensures forall k :: 0 <= k < |Activos(docs)| ==>
              exists d :: d in docs && d.activo && Activos(docs)[k] == DnaEngineService.Sospechoso(d.nombreCompleto, d.cedula, d.cadenaADN)
  {
    var sel := SospechosoModel.ConActivo(docs, Some(true));
    if |sel| > 0 {
      assert sel[0] in sel;
    }
    forall k | 0 <= k < |Activos(docs)|
      ensures exists d :: d in docs && d.activo && Activos(docs)[k] == DnaEngineService.Sospechoso(d.nombreCompleto, d.cedula, d.cadenaADN)
    {
      assert sel[k] in sel;
    }
  }

  /** The record `Busqueda.create` receives once the engine answered. */
  function Registro(c: Cuerpo, usuarioId: string, patrones: seq<string>, activos: nat,
                    s: DnaEngineService.Salida, ahora: int): Busqueda
  {
    var m := s.motor;
    var cs := Guardadas(m);
    Busqueda(usuarioId,
             O(c.casoNumero, c.caso_numero), O(c.descripcionCaso, c.descripcion_caso),
             O(c.ubicacionEvidencia, c.ubicacion_evidencia),
             Prop(m, "patrones"),
             Respaldo(Prop(m, "num_patrones"), JsonOutput.JNum(|patrones|)),
             Prop(m, "algoritmo_usado"), Prop(m, "criterio_seleccion"),
             Respaldo(Prop(m, "total_procesados"), JsonOutput.JNum(activos)),
             Respaldo(Prop(m, "total_coincidencias"), JsonOutput.JNum(|cs|)),
             cs,
             Prop(m, "tiempo_ejecucion_ms"),
             s.nombreArchivoCsv, s.hashSha256Archivo, ahora)
  }

  /** The files afterwards and the search recorded or the error passed to
      the error handler. */
  datatype Ejecucion = Ejecucion(archivos: DnaEngineService.Archivos, resultado: Result<Busqueda, ErrorHandler.Error>)

  /** A rethrown service error: a plain `Error` with no status. */
  function ErrorDelServicio(mensaje: string): ErrorHandler.Error
  {
    ErrorHandler.Error("Error", mensaje, None, None, [], None, false)
  }

  /** What follows the service call. */
  function Concluir(c: Cuerpo, usuarioId: string, patrones: seq<string>, activos: nat,
                    efecto: DnaEngineService.Efecto, ahora: int): Ejecucion
  {
    match efecto.resultado
    case Failure(m) => Ejecucion(efecto.archivos, Failure(ErrorDelServicio(m)))
    case Success(s) =>
      if !Verdadero(Prop(s.motor, "exito")) then
        Ejecucion(efecto.archivos, Failure(ErrorHandler.ErrorApi(SIN_EXITO, 500)))
      else Ejecucion(efecto.archivos, Success(Registro(c, usuarioId, patrones, activos, s, ahora)))
  }

  /** `ejecutar` up to the service call, with the service passed in. */
  function EjecutarCon(c: Cuerpo, usuarioId: string, docs: seq<SospechosoModel.Documento>,
                       archivos: DnaEngineService.Archivos, ahora: int,
                       servicio: (seq<string>, seq<DnaEngineService.Sospechoso>) -> DnaEngineService.Efecto): Ejecucion
  {
    match NormalizarPatrones(c.patron, c.patrones)
    case Failure(err) => Ejecucion(archivos, Failure(err))
    case Success(ps) =>
      if |ps| == 0 then Ejecucion(archivos, Failure(ErrorHandler.ErrorApi(SIN_PATRONES, 400)))
      else
        var activos := Activos(docs);
        if |activos| == 0 then Ejecucion(archivos, Failure(ErrorHandler.ErrorApi(SIN_ACTIVOS, 400)))
        else Concluir(c, usuarioId, ps, |activos|, servicio(ps, activos), ahora)
  }

  /** `ejecutar` with the engine service whose CSV writes the cedula as
      text. */
  function Ejecutar(c: Cuerpo, usuarioId: string, docs: seq<SospechosoModel.Documento>,
                    archivos: DnaEngineService.Archivos, e: DnaEngineService.Entorno, ahora: int): (r: Ejecucion)
    // the request errors, before any file or the engine is touched
    ensures NormalizarPatrones(c.patron, c.patrones).Failure? ==>
              r == Ejecucion(archivos, Failure(ErrorDeTipo(TRIM_NO_ES_FUNCION)))
    ensures NormalizarPatrones(c.patron, c.patrones) == Success([]) ==>
              r == Ejecucion(archivos, Failure(ErrorHandler.ErrorApi(SIN_PATRONES, 400)))
    ensures NormalizarPatrones(c.patron, c.patrones).Success? && NormalizarPatrones(c.patron, c.patrones).value != []
            && |Activos(docs)| == 0 ==>
              r == Ejecucion(archivos, Failure(ErrorHandler.ErrorApi(SIN_ACTIVOS, 400)))
    // a search is recorded exactly when the service answers and the engine reports success
    ensures r.resultado.Success? <==>
              && NormalizarPatrones(c.patron, c.patrones).Success?
              && |NormalizarPatrones(c.patron, c.patrones).value| > 0 && |Activos(docs)| > 0
              && var ef := DnaEngineService.EjecutarBusqueda(NormalizarPatrones(c.patron, c.patrones).value, Activos(docs), archivos, e);
                 ef.resultado.Success? && Verdadero(Prop(ef.resultado.value.motor, "exito"))
    // the record: who ran it, when, and the trace of the file the engine read
    ensures r.resultado.Success? ==>
              && r.resultado.value.usuarioId == usuarioId && r.resultado.value.fecha == ahora
              && r.resultado.value.hashSha256Archivo == e.sha256(DnaEngineService.Contenido(Activos(docs)))
              && r.resultado.value.nombreArchivoCsv == DnaEngineService.Basename(DnaEngineService.Ruta(e))
              && r.resultado.value.casoNumero == O(c.casoNumero, c.caso_numero)
    // only the temporary file may change
    ensures forall p :: p != DnaEngineService.Ruta(e) ==> (p in r.archivos <==> p in archivos)
  {
    EjecutarCon(c, usuarioId, docs, archivos, ahora,
                (ps, ss) => DnaEngineService.EjecutarBusqueda(ps, ss, archivos, e))
  }

  /** `ejecutar` over the engine service as written. */
  function EjecutarComoEscrito(c: Cuerpo, usuarioId: string, docs: seq<SospechosoModel.Documento>,
                               archivos: DnaEngineService.Archivos, e: DnaEngineService.Entorno, ahora: int): Ejecucion
  {
    EjecutarCon(c, usuarioId, docs, archivos, ahora,
                (ps, ss) => DnaEngineService.EjecutarBusquedaComoEscrita(ps, ss, archivos, e))
  }

  /** As written, every request that gets past the two 400 checks ends in
      a 500 carrying the `includes` error, nothing is recorded, and no file
      is left behind. */
  lemma EjecutarComoEscritoFalla(c: Cuerpo, usuarioId: string, docs: seq<SospechosoModel.Documento>,
                                 archivos: DnaEngineService.Archivos, e: DnaEngineService.Entorno, ahora: int)
    requires NormalizarPatrones(c.patron, c.patrones).Success?
    requires |NormalizarPatrones(c.patron, c.patrones).value| > 0 && |Activos(docs)| > 0
    ensures var r := EjecutarComoEscrito(c, usuarioId, docs, archivos, e, ahora);
            && r.archivos == archivos && r.resultado.Failure?
            && ErrorHandler.Manejar(r.resultado.error)
               == Some(ErrorHandler.Respuesta(500, DnaEngineService.PREFIJO_BUSQUEDA + DnaEngineService.SIN_INCLUDES))
  {
    DnaEngineService.BusquedaComoEscritaFalla(NormalizarPatrones(c.patron, c.patrones).value, Activos(docs), archivos, e);
  }

  /** The responses a failed `ejecutar` produces: 400 for the two request
      checks, 500 for everything else (the `TypeError`, a service error,
      an engine that did not report success). */
  lemma EjecutarRespuestas(c: Cuerpo, usuarioId: string, docs: seq<SospechosoModel.Documento>,
                           archivos: DnaEngineService.Archivos, e: DnaEngineService.Entorno, ahora: int)
    requires Ejecutar(c, usuarioId, docs, archivos, e, ahora).resultado.Failure?
    ensures var err := Ejecutar(c, usuarioId, docs, archivos, e, ahora).resultado.error;
            && ErrorHandler.Manejar(err).Some?
            && (ErrorHandler.Manejar(err).value.estado == 400 <==>
                  && NormalizarPatrones(c.patron, c.patrones).Success?
                  && (|NormalizarPatrones(c.patron, c.patrones).value| == 0 || |Activos(docs)| == 0))
            && (ErrorHandler.Manejar(err).value.estado == 400 || ErrorHandler.Manejar(err).value.estado == 500)
  {
    var err := Ejecutar(c, usuarioId, docs, archivos, e, ahora).resultado.error;
    if NormalizarPatrones(c.patron, c.patrones).Success? && |NormalizarPatrones(c.patron, c.patrones).value| > 0
       && |Activos(docs)| > 0 {
      var ef := DnaEngineService.EjecutarBusqueda(NormalizarPatrones(c.patron, c.patrones).value, Activos(docs), archivos, e);
      if ef.resultado.Failure? {
        assert err == ErrorDelServicio(ef.resultado.error);
        assert ef.resultado.error != "";
      }
    }
  }

  /** A match as the engine writes it is stored field for field, with
      its `patron_id` as the pattern id. */
  lemma GuardadaDelMotor(c: JsonOutput.Coincidencia)
    ensures Guardada(JsonOutput.JsonCoincidencia(c))
            == CoincidenciaGuardada(Some(JsonOutput.JStr(c.nombre)), Some(JsonOutput.JStr(c.cedula)),
                                    Some(JsonOutput.JNum(c.patronId)), Some(JsonOutput.JStr(c.patron)),
                                    Some(JsonOutput.JNum(c.posicion)))
  {
    var item := JsonOutput.JsonCoincidencia(c);
    JsonOutput.ValorEn(item.campos, 0, "nombre");
    JsonOutput.ValorEn(item.campos, 1, "cedula");
    JsonOutput.ValorEn(item.campos, 2, "patron_id");
    JsonOutput.ValorEn(item.campos, 3, "patron");
    JsonOutput.ValorEn(item.campos, 4, "posicion");
  }

  /** When the engine's report is the one `JSONOutput::generarExito`
      emits, the record stores its values: the pattern count, the
      algorithm and its reason, the totals and the time. */
  lemma RegistroDelInforme(c: Cuerpo, usuarioId: string, patrones: seq<string>, activos: nat,
                           s: DnaEngineService.Salida, ahora: int,
                           ps: seq<string>, alg: string, crit: string, total: int,
                           cs: seq<JsonOutput.Coincidencia>, t: int)
    requires s.motor == JsonOutput.GenerarExito(ps, alg, crit, total, cs, t)
    ensures var b := Registro(c, usuarioId, patrones, activos, s, ahora);
            && b.numPatrones == JsonOutput.JNum(|ps|)
            && b.algoritmoUsado == Some(JsonOutput.JStr(alg))
            && b.criterioSeleccion == Some(JsonOutput.JStr(crit))
            && b.totalSospechososProcesados == JsonOutput.JNum(total)
            && b.totalCoincidencias == JsonOutput.JNum(|cs|)
            && b.tiempoEjecucionMs == Some(JsonOutput.JNum(t))
  {
    JsonOutput.CamposExitoPrimeros(ps, alg, crit, total, cs, t);
    JsonOutput.CamposExitoUltimos(ps, alg, crit, total, cs, t);
  }

  /** ... and every match, in the engine's order, with its pattern id. */
  lemma CoincidenciasDelInforme(motor: JsonOutput.Json, ps: seq<string>, alg: string, crit: string, total: int,
                                cs: seq<JsonOutput.Coincidencia>, t: int)
    requires motor == JsonOutput.GenerarExito(ps, alg, crit, total, cs, t)
    ensures |Guardadas(motor)| == |cs|
    ensures forall k :: 0 <= k < |cs| ==>
              Guardadas(motor)[k] == CoincidenciaGuardada(Some(JsonOutput.JStr(cs[k].nombre)), Some(JsonOutput.JStr(cs[k].cedula)),
                                                          Some(JsonOutput.JNum(cs[k].patronId)), Some(JsonOutput.JStr(cs[k].patron)),
                                                          Some(JsonOutput.JNum(cs[k].posicion)))
  {
    var campos := JsonOutput.CamposExito(ps, alg, crit, total, cs, t);
    JsonOutput.ValorEn(campos, 7, "coincidencias");
    forall k | 0 <= k < |cs|
      ensures Guardadas(motor)[k] == Guardada(JsonOutput.JsonCoincidencia(cs[k]))
    {
    }
    forall k | 0 <= k < |cs|
      ensures Guardada(JsonOutput.JsonCoincidencia(cs[k]))
              == CoincidenciaGuardada(Some(JsonOutput.JStr(cs[k].nombre)), Some(JsonOutput.JStr(cs[k].cedula)),
                                      Some(JsonOutput.JNum(cs[k].patronId)), Some(JsonOutput.JStr(cs[k].patron)),
                                      Some(JsonOutput.JNum(cs[k].posicion)))
    {
      GuardadaDelMotor(cs[k]);
    }
  }

  // ---------------------------------------------------------------------
  // historial

  /** The authenticated user: id and role. */
  datatype Usuario = Usuario(id: string, rol: string)

  /** The query-string values `historial` reads; `page` and `limit` as
      `Number(...)` produced them (absent when not a number). */
  datatype Consulta = Consulta(
    page: Option<int>,
    limit: Option<int>,
    usuarioId: Option<string>,
    fecha_desde: Option<string>,
    fechaDesde: Option<string>,
    fecha_hasta: Option<string>,
    fechaHasta: Option<string>)

  /** The Mongo filter: owner and inclusive date bounds. */
  datatype Filtro = Filtro(usuarioId: Option<string>, desde: Option<int>, hasta: Option<int>)

  /** The owner part: a perito sees only their own searches; an admin may
      ask for one user's; everyone else sees all. */
  function FiltroUsuario(u: Usuario, consulta: Option<string>): Option<string>
  {
    if u.rol == "perito" then Some(u.id)
    else if u.rol == "admin" && consulta.Some? && consulta.value != "" then consulta
    else None
  }

  /** `parsearFecha`: no bound for an empty value, a 400 for a date `new
      Date` cannot read. `fecha` is that reading. */
  function ParsearFecha(valor: Option<string>, etiqueta: string, fecha: string -> Option<int>): (r: Result<Option<int>, ErrorHandler.Error>)
  {
    if valor.None? || valor.value == "" then Success(None)
    else match fecha(valor.value)
      case None => Failure(ErrorHandler.ErrorApi("Fecha " + etiqueta + " inválida", 400))
      case Some(t) => Success(Some(t))
  }

  /** The filter object, or the error of the first unreadable date. */
  function ConstruirFiltro(u: Usuario, q: Consulta, fecha: string -> Option<int>): Result<Filtro, ErrorHandler.Error>
  {
    var usuario := FiltroUsuario(u, q.usuarioId);
    match ParsearFecha(O(q.fecha_desde, q.fechaDesde), "desde", fecha)
    case Failure(err) => Failure(err)
    case Success(desde) =>
      match ParsearFecha(O(q.fecha_hasta, q.fechaHasta), "hasta", fecha)
      case Failure(err) => Failure(err)
      case Success(hasta) => Success(Filtro(usuario, desde, hasta))
  }

  predicate Cumple(b: Busqueda, f: Filtro)
  {
    && (f.usuarioId.None? || b.usuarioId == f.usuarioId.value)
    && (f.desde.None? || b.fecha >= f.desde.value)
    && (f.hasta.None? || b.fecha <= f.hasta.value)
  }

  /** `Busqueda.find(filtro)` over the collection, keeping its order. */
  function Seleccion(bs: seq<Busqueda>, f: Filtro): (r: seq<Busqueda>)
    ensures |r| <= |bs|
    ensures forall b :: b in r <==> b in bs && Cumple(b, f)
  {
    if |bs| == 0 then []
    else
      var resto := Seleccion(bs[1..], f);
      assert forall b :: b in bs <==> b == bs[0] || b in bs[1..];
      if Cumple(bs[0], f) then [bs[0]] + resto else resto
  }

  /** Newest first: the `sort({ fecha: -1 })` order. */
  predicate Descendente(bs: seq<Busqueda>)
  {
    forall i, j :: 0 <= i < j < |bs| ==> bs[i].fecha >= bs[j].fecha
  }

  /** Filtering keeps the newest-first order. */
  lemma {:induction false} SeleccionDescendente(bs: seq<Busqueda>, f: Filtro)
    requires Descendente(bs)
    ensures Descendente(Seleccion(bs, f))
  {
    if |bs| > 0 {
      SeleccionDescendente(bs[1..], f);
      var resto := Seleccion(bs[1..], f);
      forall b | b in resto
        ensures bs[0].fecha >= b.fecha
      {
        var k :| 0 <= k < |bs[1..]| && bs[1..][k] == b;
      }
    }
  }

  /** Every entry of a page is one of the paged results. */
  lemma PaginaDe<T>(resultados: seq<T>, pagina: Option<int>, limite: Option<int>)
    ensures forall x :: x in Paginacion.Paginar(resultados, pagina, limite).0 ==> x in resultados
  {
    var p := Paginacion.Paginar(resultados, pagina, limite);
    forall x | x in p.0
      ensures x in resultados
    {
      var k :| 0 <= k < |p.0| && p.0[k] == x;
      assert x == resultados[Paginacion.Saltar(p.1.page, p.1.limit) + k];
    }
  }

  /** `historial` over the collection in `sort({ fecha: -1 })` order: the
      page and its `pagination` block, or the error of a bad date. */
  function Historial(bs: seq<Busqueda>, u: Usuario, q: Consulta, fecha: string -> Option<int>)
    : (r: Result<(seq<Busqueda>, Paginacion.Pagination), ErrorHandler.Error>)
    // only an unreadable date fails, and the `desde` one is reported first
    ensures r.Failure? <==> ConstruirFiltro(u, q, fecha).Failure?
    ensures r.Failure? ==> r.error == ConstruirFiltro(u, q, fecha).error
    // every shown search is stored and passes the filter
    ensures r.Success? ==> forall b :: b in r.value.0 ==> b in bs && Cumple(b, ConstruirFiltro(u, q, fecha).value)
    // the count is over the whole filter, not the page
    ensures r.Success? ==> r.value.1.total == |Seleccion(bs, ConstruirFiltro(u, q, fecha).value)|
    ensures r.Success? ==> 1 <= r.value.1.limit <= Paginacion.LIMITE_MAXIMO && |r.value.0| <= r.value.1.limit
    // the page block and the page: the window of the selection
    ensures r.Success? ==> r.value.1.page == Paginacion.Pagina(q.page) && r.value.1.limit == Paginacion.Limite(q.limit)
    ensures r.Success? ==> r.value.1.totalPages == Paginacion.TotalPaginas(r.value.1.total, r.value.1.limit)
    ensures r.Success? ==> Paginacion.EsVentana(Seleccion(bs, ConstruirFiltro(u, q, fecha).value), r.value.1.page, r.value.1.limit, r.value.0)
  {
    match ConstruirFiltro(u, q, fecha)
    case Failure(err) => Failure(err)
    case Success(f) =>
      var sel := Seleccion(bs, f);
      PaginaDe(sel, q.page, q.limit);
      Success(Paginacion.Paginar(sel, q.page, q.limit))
  }

  /** What the filter of `historial` admits: a perito only their own
      searches; only searches inside the date bounds given; and an
      unreadable date is a 400, the `desde` one reported first. */
  lemma FiltroHistorial(u: Usuario, q: Consulta, fecha: string -> Option<int>)
    ensures ConstruirFiltro(u, q, fecha).Failure? <==>
              ParsearFecha(O(q.fecha_desde, q.fechaDesde), "desde", fecha).Failure?
              || ParsearFecha(O(q.fecha_hasta, q.fechaHasta), "hasta", fecha).Failure?
    ensures ParsearFecha(O(q.fecha_desde, q.fechaDesde), "desde", fecha).Failure? ==>
              ConstruirFiltro(u, q, fecha) == Failure(ErrorHandler.ErrorApi("Fecha desde inválida", 400))
    ensures ParsearFecha(O(q.fecha_desde, q.fechaDesde), "desde", fecha).Success?
            && ParsearFecha(O(q.fecha_hasta, q.fechaHasta), "hasta", fecha).Failure? ==>
              ConstruirFiltro(u, q, fecha) == Failure(ErrorHandler.ErrorApi("Fecha hasta inválida", 400))
    ensures ConstruirFiltro(u, q, fecha).Success? && u.rol == "perito" ==>
              forall b: Busqueda :: Cumple(b, ConstruirFiltro(u, q, fecha).value) ==> b.usuarioId == u.id
    ensures ConstruirFiltro(u, q, fecha).Success? && O(q.fecha_desde, q.fechaDesde).Some? && O(q.fecha_desde, q.fechaDesde).value != "" ==>
              forall b: Busqueda :: Cumple(b, ConstruirFiltro(u, q, fecha).value) ==> b.fecha >= fecha(O(q.fecha_desde, q.fechaDesde).value).value
    ensures ConstruirFiltro(u, q, fecha).Success? && O(q.fecha_hasta, q.fechaHasta).Some? && O(q.fecha_hasta, q.fechaHasta).value != "" ==>
              forall b: Busqueda :: Cumple(b, ConstruirFiltro(u, q, fecha).value) ==> b.fecha <= fecha(O(q.fecha_hasta, q.fechaHasta).value).value
  {
    assert "Fecha " + "desde" + " inválida" == "Fecha desde inválida";
    assert "Fecha " + "hasta" + " inválida" == "Fecha hasta inválida";
  }

  /** An admin who names no user and no dates pages through every stored
      search. */
  lemma HistorialAdminCompleto(bs: seq<Busqueda>, u: Usuario, q: Consulta, fecha: string -> Option<int>)
    requires u.rol == "admin" && (q.usuarioId.None? || q.usuarioId.value == "")
    requires O(q.fecha_desde, q.fechaDesde).None? && O(q.fecha_hasta, q.fechaHasta).None?
    ensures Historial(bs, u, q, fecha).Success?
    ensures Historial(bs, u, q, fecha).value.1.total == |bs|
  {
    SeleccionTodo(bs, Filtro(None, None, None));
  }

  lemma {:induction false} SeleccionTodo(bs: seq<Busqueda>, f: Filtro)
    requires forall b :: b in bs ==> Cumple(b, f)
    ensures Seleccion(bs, f) == bs
  {
    if |bs| > 0 {
      assert forall b :: b in bs[1..] ==> b in bs;
      SeleccionTodo(bs[1..], f);
      assert [bs[0]] + bs[1..] == bs;
    }
  }

  /** A page of the history is in newest-first order. */
  lemma HistorialDescendente(bs: seq<Busqueda>, u: Usuario, q: Consulta, fecha: string -> Option<int>)
    requires Descendente(bs)
    requires Historial(bs, u, q, fecha).Success?
    ensures Descendente(Historial(bs, u, q, fecha).value.0)
  {
    var f := ConstruirFiltro(u, q, fecha).value;
    SeleccionDescendente(bs, f);
    var sel := Seleccion(bs, f);
    var p := Historial(bs, u, q, fecha).value;
    var s := Paginacion.Saltar(p.1.page, p.1.limit);
    assert forall k :: 0 <= k < |p.0| ==> p.0[k] == sel[s + k];
  }

  // ---------------------------------------------------------------------
  // obtenerDetalle

  const NO_ENCONTRADA: string := "Búsqueda no encontrada"
  const NO_AUTORIZADO: string := "No autorizado para ver esta búsqueda"

  /** `findById(id).populate('usuarioId')` over the stored searches (by
      id) and the ids of the users that still exist: the populated owner
      is absent when the user is gone. */
  function Dueno(b: Busqueda, usuarios: set<string>): Option<string>
  {
    if b.usuarioId in usuarios then Some(b.usuarioId) else None
  }

  function ObtenerDetalle(almacen: map<string, Busqueda>, usuarios: set<string>, id: string, u: Usuario)
    : (r: Result<Busqueda, ErrorHandler.Error>)
    ensures id !in almacen ==> r == Failure(ErrorHandler.ErrorApi(NO_ENCONTRADA, 404))
    ensures r.Success? <==> id in almacen && (u.rol != "perito" || almacen[id].usuarioId !in usuarios
                                             || almacen[id].usuarioId == u.id)
    ensures r.Success? ==> r.value == almacen[id]
    ensures r.Failure? && id in almacen ==> r.error == ErrorHandler.ErrorApi(NO_AUTORIZADO, 403)
  {
    if id !in almacen then Failure(ErrorHandler.ErrorApi(NO_ENCONTRADA, 404))
    else
      var b := almacen[id];
      var dueno := Dueno(b, usuarios);
      if u.rol == "perito" && dueno.Some? && dueno.value != u.id then Failure(ErrorHandler.ErrorApi(NO_AUTORIZADO, 403))
      else Success(b)
  }

  /** A perito reads another user's search only when that user no longer
      exists: the populated owner is then `null` and the check is skipped. */
  lemma DetalleHuerfano(almacen: map<string, Busqueda>, usuarios: set<string>, id: string, u: Usuario)
    requires u.rol == "perito" && id in almacen && almacen[id].usuarioId != u.id
    ensures ObtenerDetalle(almacen, usuarios, id, u).Success? <==> almacen[id].usuarioId !in usuarios
  {
  }
}
