/** The backend's error type and its error-to-response classification
    (backend/src/middlewares/errorHandler.js). An error reaching the
    handler is described by the properties the handler reads. */
module ErrorHandler {
  import opened Wrappers
  import Text

  /** The properties of a thrown value that the handler consults.
      `mensajesValidacion` lists `err.errors` messages in enumeration
      order; `clavesDuplicadas` lists the keys of `err.keyValue`, `None`
      when it is undefined. */
  datatype Error = Error(
    nombre: string,
    mensaje: string,
    statusCode: Option<int>,
    codigo: Option<int>,
    mensajesValidacion: seq<string>,
    clavesDuplicadas: Option<seq<string>>,
    operacional: bool)

  /** `new ErrorAPI(message, statusCode)`: an operational error carrying
      the status it was given. Its `name` is inherited from `Error`. */
  function ErrorApi(mensaje: string, statusCode: int): (e: Error)
    ensures e.operacional && e.statusCode == Some(statusCode) && e.mensaje == mensaje
    ensures e.codigo.None? && e.nombre == "Error"
  {
    Error("Error", mensaje, Some(statusCode), None, [], None, true)
  }

  /** The response the handler sends: `res.status(estado)` with
      `{ success: false, error: mensaje }`. */
  datatype Respuesta = Respuesta(estado: int, mensaje: string)

  const MENSAJE_POR_DEFECTO: string := "Error del servidor"
  const CODIGO_DUPLICADO: int := 11000

  /** `Object.keys(keyValue)[0]` inside the template: `undefined` when
      there is no key. */
  function PrimeraClave(claves: seq<string>): string
  {
    if |claves| > 0 then claves[0] else "undefined"
  }

  function MensajeDuplicado(campo: string): string
  {
    "El " + campo + " ya existe en la base de datos"
  }

  /** The five rewrite rules applied in source order, each replacing the
      working error when it matches; `None` when the duplicate-key rule
      dereferences an undefined `keyValue` and the handler itself throws. */
  function Reescribir(err: Error): Option<Error>
  {
    var e1 := if err.nombre == "CastError" then ErrorApi("Recurso no encontrado", 404) else err;
    var e2 := if err.nombre == "ValidationError" then ErrorApi(Text.Join(err.mensajesValidacion, ", "), 400) else e1;
    if err.codigo == Some(CODIGO_DUPLICADO) && err.clavesDuplicadas.None? then None
    else
      var e3 := if err.codigo == Some(CODIGO_DUPLICADO)
                then ErrorApi(MensajeDuplicado(PrimeraClave(err.clavesDuplicadas.value)), 400) else e2;
      var e4 := if err.nombre == "JsonWebTokenError" then ErrorApi("Token inválido", 401) else e3;
      var e5 := if err.nombre == "TokenExpiredError" then ErrorApi("Token expirado", 401) else e4;
      Some(e5)
  }

  /** `error.statusCode || 500` and `error.message || 'Error del servidor'`. */
  function Responder(e: Error): Respuesta
  {
    Respuesta(if e.statusCode.Some? && e.statusCode.value != 0 then e.statusCode.value else 500,
              if e.mensaje != "" then e.mensaje else MENSAJE_POR_DEFECTO)
  }

  /** The handler: the response for an error, or `None` when the handler
      throws. Stated rule by rule in priority order (a later rule in the
      source wins over an earlier one). */
  function Manejar(err: Error): (r: Option<Respuesta>)
    ensures r.None? <==> err.codigo == Some(CODIGO_DUPLICADO) && err.clavesDuplicadas.None?
    ensures r.Some? ==> |r.value.mensaje| > 0 && r.value.estado != 0
    ensures r.Some? && err.nombre == "TokenExpiredError" ==> r.value == Respuesta(401, "Token expirado")
    ensures r.Some? && err.nombre == "JsonWebTokenError" ==> r.value == Respuesta(401, "Token inválido")
    ensures r.Some? && err.nombre != "TokenExpiredError" && err.nombre != "JsonWebTokenError"
            && err.codigo == Some(CODIGO_DUPLICADO) ==>
              r.value == Respuesta(400, MensajeDuplicado(PrimeraClave(err.clavesDuplicadas.value)))
    ensures err.codigo != Some(CODIGO_DUPLICADO) && err.nombre == "ValidationError" ==>
              r == Some(Respuesta(400, if Text.Join(err.mensajesValidacion, ", ") == "" then MENSAJE_POR_DEFECTO
                                       else Text.Join(err.mensajesValidacion, ", ")))
    ensures err.codigo != Some(CODIGO_DUPLICADO) && err.nombre == "CastError" ==>
              r == Some(Respuesta(404, "Recurso no encontrado"))
    ensures err.codigo != Some(CODIGO_DUPLICADO)
            && err.nombre !in {"CastError", "ValidationError", "JsonWebTokenError", "TokenExpiredError"} ==>
              r.Some? && r.value.estado == (if err.statusCode.Some? && err.statusCode.value != 0 then err.statusCode.value else 500)
              && (err.mensaje != "" ==> r.value.mensaje == err.mensaje)
  {
    match Reescribir(err)
    case None => None
    case Some(e) => Some(Responder(e))
  }

  /** An `ErrorAPI` thrown by a controller reaches the client unchanged:
      its status and its message. */
  lemma ErrorApiLlegaIntacto(mensaje: string, estado: int)
    requires mensaje != "" && estado != 0
    ensures Manejar(ErrorApi(mensaje, estado)) == Some(Respuesta(estado, mensaje))
  {
  }

  /** A validation error's message lists every sub-message in order,
      separated by ", ". */
  lemma ValidacionListaMensajes(err: Error)
    requires err.nombre == "ValidationError" && err.codigo != Some(CODIGO_DUPLICADO)
    requires |err.mensajesValidacion| > 0 && err.mensajesValidacion[0] != ""
    ensures Manejar(err).Some? && Manejar(err).value.mensaje == Text.Join(err.mensajesValidacion, ", ")
  {
  }
}
