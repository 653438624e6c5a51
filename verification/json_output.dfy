/** The engine's JSON output (cpp-engine/src/utils/json_output.cpp). The
    emitted text is modelled as the JSON value it denotes — an object with
    its fields in emission order — and the string escaping is modelled on
    its own, together with a reader of the escapes (section 7 of RFC 8259)
    that shows escaped strings are read back unchanged. */
module JsonOutput {
  import opened Wrappers

  /** A JSON value. Objects keep their fields in order. */
  datatype Json =
    | JBool(b: bool)
    | JNum(n: int)
    | JStr(s: string)
    | JArr(elems: seq<Json>)
    | JObj(campos: seq<Campo>)

  datatype Campo = Campo(clave: string, valor: Json)

  /** One match as the engine reports it (`Coincidencia` in json_output.h). */
  datatype Coincidencia = Coincidencia(nombre: string, cedula: string, patronId: int, patron: string, posicion: int)

  /** Everything a success report carries. */
  datatype Exito = Exito(patrones: seq<string>, algoritmoUsado: string, criterioSeleccion: string,
                         totalProcesados: int, coincidencias: seq<Coincidencia>, tiempoEjecucionMs: int)

  /** Everything an error report carries. */
  datatype Fallo = Fallo(mensaje: string, codigo: string, detalles: string)

  // ---------------------------------------------------------------------
  // escaparJSON

  /** The seven characters `escaparJSON` rewrites. */
  predicate Especial(c: char)
  {
    c == '"' || c == '\\' || c as int == 8 || c as int == 12 || c == '\n' || c == '\r' || c == '\t'
  }

  /** The two-character escape of a special character, or the character itself. */
  function EscaparCaracter(c: char): (r: string)
    ensures Especial(c) ==> |r| == 2 && r[0] == '\\'
    ensures !Especial(c) ==> r == [c]
  {
    if c == '"' then "\\\""
    else if c == '\\' then "\\\\"
    else if c as int == 8 then "\\b"
    else if c as int == 12 then "\\f"
    else if c == '\n' then "\\n"
    else if c == '\r' then "\\r"
    else if c == '\t' then "\\t"
    else [c]
  }

  /** `JSONOutput::escaparJSON`: each character replaced by its escape. */
  function EscaparJSON(s: string): (r: string)
    ensures |r| >= |s|
  {
    if |s| == 0 then "" else EscaparCaracter(s[0]) + EscaparJSON(s[1..])
  }

  /** Number of special characters in `s`. */
  function Especiales(s: string): nat
  {
    if |s| == 0 then 0 else (if Especial(s[0]) then 1 else 0) + Especiales(s[1..])
  }

  /** Escaping adds one character per special character. */
  lemma {:induction false} EscaparLongitud(s: string)
    ensures |EscaparJSON(s)| == |s| + Especiales(s)
    ensures |EscaparJSON(s)| == |s| <==> forall k :: 0 <= k < |s| ==> !Especial(s[k])
  {
    if |s| > 0 {
      EscaparLongitud(s[1..]);
      if Especial(s[0]) {
        assert |EscaparJSON(s)| > |s|;
      } else {
        assert forall k :: 1 <= k < |s| ==> s[1..][k - 1] == s[k];
      }
    }
  }

  /** A string without special characters is written as is. */
  lemma {:induction false} EscaparIdentidad(s: string)
    requires forall k :: 0 <= k < |s| ==> !Especial(s[k])
    ensures EscaparJSON(s) == s
  {
    if |s| > 0 {
      assert forall k :: 0 <= k < |s[1..]| ==> s[1..][k] == s[k + 1];
      EscaparIdentidad(s[1..]);
      assert [s[0]] + s[1..] == s;
    }
  }

  /** The character a JSON escape letter stands for (section 7 of RFC 8259;
      the `\u` form is not needed here). */
  function CaracterEscapado(e: char): Option<char>
  {
    if e == '"' then Some('"')
    else if e == '\\' then Some('\\')
    else if e == '/' then Some('/')
    else if e == 'b' then Some(8 as char)
    else if e == 'f' then Some(12 as char)
    else if e == 'n' then Some('\n')
    else if e == 'r' then Some('\r')
    else if e == 't' then Some('\t')
    else None
  }

  /** Reading the body of a JSON string (section 7 of RFC 8259): an
      unescaped quote or control character is an error, a backslash starts
      an escape. */
  function Desescapar(t: string): Option<string>
  {
    if |t| == 0 then Some("")
    else if t[0] == '\\' then
      if |t| < 2 then None
      else
        match (CaracterEscapado(t[1]), Desescapar(t[2..]))
        case (Some(c), Some(resto)) => Some([c] + resto)
        case _ => None
    else if t[0] == '"' || t[0] as int < 0x20 then None
    else
      match Desescapar(t[1..])
      case Some(resto) => Some([t[0]] + resto)
      case None => None
  }

  /** Control characters (below U+0020) other than the five `escaparJSON` handles. */
  predicate ControlSinEscape(c: char)
  {
    c as int < 0x20 && !Especial(c)
  }

  lemma DesescaparConcat(e: string, c: char, t: string)
    requires EscaparCaracter(c) == e && !ControlSinEscape(c)
    requires Desescapar(t).Some?
    ensures Desescapar(e + t) == Some([c] + Desescapar(t).value)
  {
    if Especial(c) {
      assert (e + t)[0] == '\\' && (e + t)[2..] == t;
    } else {
      assert (e + t)[0] == c && (e + t)[1..] == t;
    }
  }

  /** Reading back an escaped string gives the original, provided it has no
      control character outside the five escaped ones. */
  lemma {:induction false} DesescaparEscapar(s: string)
    requires forall k :: 0 <= k < |s| ==> !ControlSinEscape(s[k])
    ensures Desescapar(EscaparJSON(s)) == Some(s)
  {
    if |s| > 0 {
      assert forall k :: 0 <= k < |s[1..]| ==> s[1..][k] == s[k + 1];
      DesescaparEscapar(s[1..]);
      DesescaparConcat(EscaparCaracter(s[0]), s[0], EscaparJSON(s[1..]));
      assert [s[0]] + s[1..] == s;
    }
  }

  /** An escape followed by an unreadable rest is unreadable. */
  lemma DesescaparConcatFalla(e: string, c: char, t: string)
    requires EscaparCaracter(c) == e && !ControlSinEscape(c)
    requires Desescapar(t).None?
    ensures Desescapar(e + t).None?
  {
    if Especial(c) {
      assert (e + t)[0] == '\\' && (e + t)[2..] == t;
    } else {
      assert (e + t)[0] == c && (e + t)[1..] == t;
    }
  }

  /** The converse of `DesescaparEscapar`: a control character outside the
      five escaped ones is copied raw, so a JSON reader rejects any output
      that contains one. */
  lemma {:induction false} ControlNoSeLee(s: string)
    requires exists k :: 0 <= k < |s| && ControlSinEscape(s[k])
    ensures Desescapar(EscaparJSON(s)) == None
  {
    if ControlSinEscape(s[0]) {
      assert EscaparJSON(s)[0] == s[0];
    } else {
      var k :| 0 <= k < |s| && ControlSinEscape(s[k]);
      assert s[1..][k - 1] == s[k];
      ControlNoSeLee(s[1..]);
      DesescaparConcatFalla(EscaparCaracter(s[0]), s[0], EscaparJSON(s[1..]));
    }
  }

  // ---------------------------------------------------------------------
  // Reading fields back

  /** The value of the first field named `clave`. */
  function Valor(campos: seq<Campo>, clave: string): Option<Json>
  {
    if |campos| == 0 then None
    else if campos[0].clave == clave then Some(campos[0].valor)
    else Valor(campos[1..], clave)
  }

  /** The lookup finds the first field carrying the key. */
  lemma {:induction false} ValorEn(campos: seq<Campo>, i: nat, clave: string)
    requires i < |campos| && campos[i].clave == clave
    requires forall k :: 0 <= k < i ==> campos[k].clave != clave
    ensures Valor(campos, clave) == Some(campos[i].valor)
    decreases i
  {
    if i > 0 {
      assert campos[0].clave != clave;
      ValorEn(campos[1..], i - 1, clave);
    }
  }

  function LeerCadena(j: Option<Json>): Option<string>
  {
    if j.Some? && j.value.JStr? then Some(j.value.s) else None
  }

  function LeerNumero(j: Option<Json>): Option<int>
  {
    if j.Some? && j.value.JNum? then Some(j.value.n) else None
  }

  function LeerCadenas(elems: seq<Json>): Option<seq<string>>
  {
    if |elems| == 0 then Some([])
    else
      match (LeerCadena(Some(elems[0])), LeerCadenas(elems[1..]))
      case (Some(s), Some(resto)) => Some([s] + resto)
      case _ => None
  }

  function LeerCoincidencia(j: Json): Option<Coincidencia>
  {
    if !j.JObj? then None
    else
      var nombre := LeerCadena(Valor(j.campos, "nombre"));
      var cedula := LeerCadena(Valor(j.campos, "cedula"));
      var patronId := LeerNumero(Valor(j.campos, "patron_id"));
      var patron := LeerCadena(Valor(j.campos, "patron"));
      var posicion := LeerNumero(Valor(j.campos, "posicion"));
      if nombre.Some? && cedula.Some? && patronId.Some? && patron.Some? && posicion.Some? then
        Some(Coincidencia(nombre.value, cedula.value, patronId.value, patron.value, posicion.value))
      else None
  }

  function LeerCoincidencias(elems: seq<Json>): Option<seq<Coincidencia>>
  {
    if |elems| == 0 then Some([])
    else
      match (LeerCoincidencia(elems[0]), LeerCoincidencias(elems[1..]))
      case (Some(c), Some(resto)) => Some([c] + resto)
      case _ => None
  }

  /** Reads a success report: `exito` must be `true` and every field present. */
  function LeerExito(j: Json): Option<Exito>
  {
    if !j.JObj? || Valor(j.campos, "exito") != Some(JBool(true)) then None
    else
      var patrones := Valor(j.campos, "patrones");
      var algoritmo := LeerCadena(Valor(j.campos, "algoritmo_usado"));
      var criterio := LeerCadena(Valor(j.campos, "criterio_seleccion"));
      var total := LeerNumero(Valor(j.campos, "total_procesados"));
      var coincidencias := Valor(j.campos, "coincidencias");
      var tiempo := LeerNumero(Valor(j.campos, "tiempo_ejecucion_ms"));
      if patrones.Some? && patrones.value.JArr? && coincidencias.Some? && coincidencias.value.JArr?
         && algoritmo.Some? && criterio.Some? && total.Some? && tiempo.Some? then
        match (LeerCadenas(patrones.value.elems), LeerCoincidencias(coincidencias.value.elems))
        case (Some(ps), Some(cs)) => Some(Exito(ps, algoritmo.value, criterio.value, total.value, cs, tiempo.value))
        case _ => None
      else None
  }

  /** Reads an error report: `exito` must be `false`. */
  function LeerFallo(j: Json): Option<Fallo>
  {
    if !j.JObj? || Valor(j.campos, "exito") != Some(JBool(false)) then None
    else
      var mensaje := LeerCadena(Valor(j.campos, "error"));
      var codigo := LeerCadena(Valor(j.campos, "codigo_error"));
      var detalles := LeerCadena(Valor(j.campos, "detalles"));
      if mensaje.Some? && codigo.Some? && detalles.Some? then
        Some(Fallo(mensaje.value, codigo.value, detalles.value))
      else None
  }

  // ---------------------------------------------------------------------
  // generarExito / generarError

  function JsonCoincidencia(c: Coincidencia): Json
  {
    JObj([Campo("nombre", JStr(c.nombre)), Campo("cedula", JStr(c.cedula)), Campo("patron_id", JNum(c.patronId)),
          Campo("patron", JStr(c.patron)), Campo("posicion", JNum(c.posicion))])
  }

  /** `JSONOutput::generarExito`: the success report, fields in emission order. */
  function GenerarExito(patrones: seq<string>, algoritmoUsado: string, criterioSeleccion: string,
                        totalProcesados: int, coincidencias: seq<Coincidencia>, tiempoEjecucionMs: int): (j: Json)
    ensures j.JObj? && Valor(j.campos, "exito") == Some(JBool(true))
    ensures LeerNumero(Valor(j.campos, "num_patrones")) == Some(|patrones|)
    ensures LeerNumero(Valor(j.campos, "total_coincidencias")) == Some(|coincidencias|)
  {
    var campos := CamposExito(patrones, algoritmoUsado, criterioSeleccion, totalProcesados, coincidencias, tiempoEjecucionMs);
    ValorEn(campos, 0, "exito");
    ValorEn(campos, 2, "num_patrones");
    ValorEn(campos, 6, "total_coincidencias");
    JObj(campos)
  }

  function CamposExito(patrones: seq<string>, algoritmoUsado: string, criterioSeleccion: string,
                       totalProcesados: int, coincidencias: seq<Coincidencia>, tiempoEjecucionMs: int): seq<Campo>
  {
    [
      Campo("exito", JBool(true)),
      Campo("patrones", JArr(seq(|patrones|, i requires 0 <= i < |patrones| => JStr(patrones[i])))),
      Campo("num_patrones", JNum(|patrones|)),
      Campo("algoritmo_usado", JStr(algoritmoUsado)),
      Campo("criterio_seleccion", JStr(criterioSeleccion)),
      Campo("total_procesados", JNum(totalProcesados)),
      Campo("total_coincidencias", JNum(|coincidencias|)),
      Campo("coincidencias", JArr(seq(|coincidencias|, i requires 0 <= i < |coincidencias| => JsonCoincidencia(coincidencias[i])))),
      Campo("tiempo_ejecucion_ms", JNum(tiempoEjecucionMs))
    ]
  }

  /** Where the success report's lookups land: its first five fields. */
  lemma CamposExitoPrimeros(patrones: seq<string>, algoritmoUsado: string, criterioSeleccion: string,
                            totalProcesados: int, coincidencias: seq<Coincidencia>, tiempoEjecucionMs: int)
    ensures var campos := CamposExito(patrones, algoritmoUsado, criterioSeleccion, totalProcesados, coincidencias, tiempoEjecucionMs);
            && Valor(campos, "exito") == Some(JBool(true))
            && Valor(campos, "patrones") == Some(campos[1].valor)
            && Valor(campos, "num_patrones") == Some(JNum(|patrones|))
            && Valor(campos, "algoritmo_usado") == Some(JStr(algoritmoUsado))
            && Valor(campos, "criterio_seleccion") == Some(JStr(criterioSeleccion))
  {
    var campos := CamposExito(patrones, algoritmoUsado, criterioSeleccion, totalProcesados, coincidencias, tiempoEjecucionMs);
    ValorEn(campos, 0, "exito");
    ValorEn(campos, 1, "patrones");
    ValorEn(campos, 2, "num_patrones");
    ValorEn(campos, 3, "algoritmo_usado");
    ValorEn(campos, 4, "criterio_seleccion");
  }

  /** ... and its last four. */
  lemma CamposExitoUltimos(patrones: seq<string>, algoritmoUsado: string, criterioSeleccion: string,
                           totalProcesados: int, coincidencias: seq<Coincidencia>, tiempoEjecucionMs: int)
    ensures var campos := CamposExito(patrones, algoritmoUsado, criterioSeleccion, totalProcesados, coincidencias, tiempoEjecucionMs);
            && Valor(campos, "total_procesados") == Some(JNum(totalProcesados))
            && Valor(campos, "total_coincidencias") == Some(JNum(|coincidencias|))
            && Valor(campos, "coincidencias") == Some(campos[7].valor)
            && Valor(campos, "tiempo_ejecucion_ms") == Some(JNum(tiempoEjecucionMs))
  {
    var campos := CamposExito(patrones, algoritmoUsado, criterioSeleccion, totalProcesados, coincidencias, tiempoEjecucionMs);
    ValorEn(campos, 5, "total_procesados");
    ValorEn(campos, 6, "total_coincidencias");
    ValorEn(campos, 7, "coincidencias");
    ValorEn(campos, 8, "tiempo_ejecucion_ms");
  }

  /** `JSONOutput::generarError`: the error report. */
  function GenerarError(mensajeError: string, codigoError: string, detalles: string): (j: Json)
    ensures j.JObj? && Valor(j.campos, "exito") == Some(JBool(false))
  {
    var campos := [
      Campo("exito", JBool(false)),
      Campo("error", JStr(mensajeError)),
      Campo("codigo_error", JStr(codigoError)),
      Campo("detalles", JStr(detalles))
    ];
    ValorEn(campos, 0, "exito");
    JObj(campos)
  }

  lemma {:induction false} LeerCadenasGeneradas(ps: seq<string>)
    ensures LeerCadenas(seq(|ps|, i requires 0 <= i < |ps| => JStr(ps[i]))) == Some(ps)
  {
    if |ps| > 0 {
      var elems := seq(|ps|, i requires 0 <= i < |ps| => JStr(ps[i]));
      LeerCadenasGeneradas(ps[1..]);
      assert elems[1..] == seq(|ps[1..]|, i requires 0 <= i < |ps[1..]| => JStr(ps[1..][i]));
      assert [ps[0]] + ps[1..] == ps;
    }
  }

  lemma {:induction false} LeerCoincidenciasGeneradas(cs: seq<Coincidencia>)
    ensures LeerCoincidencias(seq(|cs|, i requires 0 <= i < |cs| => JsonCoincidencia(cs[i]))) == Some(cs)
  {
    if |cs| > 0 {
      var elems := seq(|cs|, i requires 0 <= i < |cs| => JsonCoincidencia(cs[i]));
      LeerCoincidenciasGeneradas(cs[1..]);
      assert elems[1..] == seq(|cs[1..]|, i requires 0 <= i < |cs[1..]| => JsonCoincidencia(cs[1..][i]));
      LeerJsonCoincidencia(cs[0]);
      assert [cs[0]] + cs[1..] == cs;
    }
  }

  /** A reader of the success report gets back exactly what was reported,
      and does not mistake it for an error report. */
  lemma LeerGenerarExito(patrones: seq<string>, algoritmoUsado: string, criterioSeleccion: string,
                         totalProcesados: int, coincidencias: seq<Coincidencia>, tiempoEjecucionMs: int)
    ensures var j := GenerarExito(patrones, algoritmoUsado, criterioSeleccion, totalProcesados, coincidencias, tiempoEjecucionMs);
            && LeerExito(j) == Some(Exito(patrones, algoritmoUsado, criterioSeleccion, totalProcesados, coincidencias, tiempoEjecucionMs))
            && LeerFallo(j) == None
  {
    CamposExitoPrimeros(patrones, algoritmoUsado, criterioSeleccion, totalProcesados, coincidencias, tiempoEjecucionMs);
    CamposExitoUltimos(patrones, algoritmoUsado, criterioSeleccion, totalProcesados, coincidencias, tiempoEjecucionMs);
    LeerCadenasGeneradas(patrones);
    LeerCoincidenciasGeneradas(coincidencias);
  }

  /** A reader of the error report gets back its three strings, and does
      not mistake it for a success report. */
  lemma LeerGenerarError(mensajeError: string, codigoError: string, detalles: string)
    ensures var j := GenerarError(mensajeError, codigoError, detalles);
            LeerFallo(j) == Some(Fallo(mensajeError, codigoError, detalles)) && LeerExito(j) == None
  {
    var campos := GenerarError(mensajeError, codigoError, detalles).campos;
    ValorEn(campos, 1, "error");
    ValorEn(campos, 2, "codigo_error");
    ValorEn(campos, 3, "detalles");
  }

  /** One reported match reads back as itself. */
  lemma LeerJsonCoincidencia(c: Coincidencia)
    ensures LeerCoincidencia(JsonCoincidencia(c)) == Some(c)
  {
    var campos := JsonCoincidencia(c).campos;
    ValorEn(campos, 0, "nombre");
    ValorEn(campos, 1, "cedula");
    ValorEn(campos, 2, "patron_id");
    ValorEn(campos, 3, "patron");
    ValorEn(campos, 4, "posicion");
  }
}
