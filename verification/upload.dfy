/** The upload middleware (backend/src/middlewares/upload.js): the name a
    received file is stored under, and the filter that lets only CSV and
    Excel files through. The clock reading is a parameter. */
module Upload {
  import opened Text
  import JsText

  // ---------------------------------------------------------------------
  // The stored name

  /** `[a-zA-Z0-9_.-]`. */
  predicate Permitido(c: char)
  {
    ('a' <= c <= 'z') || ('A' <= c <= 'Z') || ('0' <= c <= '9') || c == '_' || c == '.' || c == '-'
  }

  /** `originalname.replace(/[^a-zA-Z0-9_.-]/g, '_')`. */
  function Sanear(nombre: string): (r: string)
    ensures |r| == |nombre|
    ensures forall k :: 0 <= k < |r| ==> Permitido(r[k])
    ensures forall k :: 0 <= k < |r| ==> Permitido(nombre[k]) ==> r[k] == nombre[k]
  {
    if |nombre| == 0 then ""
    else [if Permitido(nombre[0]) then nombre[0] else '_'] + Sanear(nombre[1..])
  }

  /** A name already made of allowed characters is kept as it is; in
      particular, sanitising twice is sanitising once. */
  lemma {:induction false} SanearIdentidad(nombre: string)
    requires forall k :: 0 <= k < |nombre| ==> Permitido(nombre[k])
    ensures Sanear(nombre) == nombre
  {
    if |nombre| > 0 {
      SanearIdentidad(nombre[1..]);
    }
  }

  lemma SanearIdempotente(nombre: string)
    ensures Sanear(Sanear(nombre)) == Sanear(nombre)
  {
    SanearIdentidad(Sanear(nombre));
  }

  /** Every character outside the set becomes `_`. */
  lemma {:induction false} SanearReemplaza(nombre: string, k: nat)
    requires k < |nombre| && !Permitido(nombre[k])
    ensures Sanear(nombre)[k] == '_'
  {
    if k > 0 {
      SanearReemplaza(nombre[1..], k - 1);
    }
  }

  /** The `filename` callback: the timestamp, `_`, the sanitised name. */
  function NombreGuardado(marcaTiempo: nat, nombre: string): string
  {
    NatToString(marcaTiempo) + "_" + Sanear(nombre)
  }

  /** The stored name has no `/`, so the file lands in the temporary
      directory whatever the client called it; and it can be read back:
      the text before its first `_` is the timestamp, the rest is the
      sanitised name. */
  lemma NombreGuardadoSeLee(marcaTiempo: nat, nombre: string)
    ensures '/' !in NombreGuardado(marcaTiempo, nombre)
    ensures var g := NombreGuardado(marcaTiempo, nombre);
            var i := |NatToString(marcaTiempo)|;
            && i < |g| && g[i] == '_' && (forall k :: 0 <= k < i ==> g[k] != '_')
            && IsDigits(g[..i]) && DigitsValue(g[..i]) == marcaTiempo
            && g[i + 1..] == Sanear(nombre)
  {
    var d := NatToString(marcaTiempo);
    PartesSeparadas(d, Sanear(nombre));
  }

  /** Gluing digits and allowed characters with a `_`: the first `_` is the
      glue and no `/` appears. */
  lemma PartesSeparadas(d: string, r: string)
    requires forall k :: 0 <= k < |d| ==> IsDigit(d[k])
    requires forall k :: 0 <= k < |r| ==> Permitido(r[k])
    ensures var g := d + "_" + r;
            && '/' !in g
            && g[|d|] == '_' && (forall k :: 0 <= k < |d| ==> g[k] != '_')
            && g[..|d|] == d && g[|d| + 1..] == r
  {
    var g := d + "_" + r;
    assert g[..|d|] == d;
    assert g[|d| + 1..] == r;
    forall k | 0 <= k < |g|
      ensures g[k] != '/'
    {
      if k > |d| {
        assert g[k] == r[k - |d| - 1];
      }
    }
  }

  // ---------------------------------------------------------------------
  // filtrarCsv

  const MIMETYPES_PERMITIDOS: seq<string> := [
    "text/csv",
    "application/vnd.ms-excel",
    "application/vnd.openxmlformats-officedocument.spreadsheetml.sheet"
  ]

  const EXTENSIONES_PERMITIDAS: seq<string> := [".csv", ".xls", ".xlsx"]

  const SOLO_CSV_O_EXCEL: string := "Solo se permiten archivos CSV o Excel (.csv, .xls, .xlsx)"

  /** `originalname.toLowerCase().slice(originalname.lastIndexOf('.'))`:
      with no `.` the start is -1, which takes the last character. */
  function Extension(nombre: string): string
  {
    JsText.SliceFrom(JsText.ToLowerAscii(nombre), JsText.LastIndexOf(nombre, '.'))
  }

  /** The callback's outcome: accepted, or the error passed to it. */
  datatype Decision = Aceptado | Rechazado(mensaje: string)

  /** `filtrarCsv`: a file is refused only when neither its mimetype nor
      its extension is on the list. */
  function Filtrar(nombre: string, mimetype: string): (d: Decision)
    ensures d.Rechazado? ==> d.mensaje == SOLO_CSV_O_EXCEL
  {
    if mimetype !in MIMETYPES_PERMITIDOS && Extension(nombre) !in EXTENSIONES_PERMITIDAS then Rechazado(SOLO_CSV_O_EXCEL)
    else Aceptado
  }

  /** The last `.` of a name is the one just before a `.`-free tail. */
  lemma UltimoPunto(n: string, i: nat)
    requires i < |n| && n[i] == '.' && forall k :: i < k < |n| ==> n[k] != '.'
    ensures JsText.LastIndexOf(n, '.') == i
  {
  }

  /** Lower-casing works character by character, so it commutes with
      taking a suffix. */
  lemma MinusculasSufijo(a: string, b: string)
    ensures JsText.ToLowerAscii(a + b)[|a|..] == JsText.ToLowerAscii(b)
  {
    var l := JsText.ToLowerAscii(a + b);
    var m := JsText.ToLowerAscii(b);
    forall k | 0 <= k < |b|
      ensures l[|a| + k] == m[k]
    {
      assert (a + b)[|a| + k] == b[k];
    }
    assert l[|a|..] == m;
  }

  /** The extension is the lower-cased text from the last `.` on; earlier
      dots play no part. */
  lemma ExtensionDesdeUltimoPunto(base: string, sufijo: string)
    requires '.' !in sufijo
    ensures Extension(base + "." + sufijo) == "." + JsText.ToLowerAscii(sufijo)
  {
    var n := base + ("." + sufijo);
    assert base + "." + sufijo == n;
    var i := |base|;
    assert forall k :: i < k < |n| ==> n[k] == sufijo[k - i - 1];
    UltimoPunto(n, i);
    MinusculasSufijo(base, "." + sufijo);
    assert JsText.ToLowerAscii("." + sufijo) == "." + JsText.ToLowerAscii(sufijo) by {
      assert ("." + sufijo)[1..] == sufijo;
    }
  }

  /** A name without a `.` has a one-character "extension", which is never
      on the list: such a file gets through only on its mimetype. */
  lemma SinPuntoSoloPorMimetype(nombre: string, mimetype: string)
    requires '.' !in nombre
    ensures |Extension(nombre)| <= 1
    ensures Filtrar(nombre, mimetype) == Aceptado <==> mimetype in MIMETYPES_PERMITIDOS
  {
  }

  /** The extension test ignores case and the mimetype: `datos.CSV` is
      accepted whatever mimetype the client declared. */
  lemma ExtensionSinCaso(base: string, mimetype: string)
    ensures Filtrar(base + "." + "CSV", mimetype) == Aceptado
  {
    ExtensionDesdeUltimoPunto(base, "CSV");
    var r := JsText.ToLowerAscii("CSV");
    assert r[0] == 'c' && r[1] == 's' && r[2] == 'v';
    assert "." + r == EXTENSIONES_PERMITIDAS[0];
  }

  /** Only the last extension counts: `datos.csv.exe` is refused unless
      the mimetype is on the list. */
  lemma DobleExtension(base: string, mimetype: string)
    ensures Filtrar(base + ".csv" + "." + "exe", mimetype) == Aceptado <==> mimetype in MIMETYPES_PERMITIDOS
  {
    ExtensionDesdeUltimoPunto(base + ".csv", "exe");
    var r := JsText.ToLowerAscii("exe");
    assert r[0] == 'e';
    assert "." + r !in EXTENSIONES_PERMITIDAS by {
      assert ("." + r)[1] == 'e';
    }
  }
}
