/** Bulk loading and listing of suspects
    (backend/src/controllers/sospechososController.js). `cargaMasiva`
    turns the already-parsed CSV records into per-row errors and one upsert
    per valid row keyed by cedula; the single `bulkWrite` applies those
    upserts in order to a cedula-keyed store. */
module SospechososController {
  import opened Wrappers
  import SospechosoModel
  import ErrorHandler
  import Paginacion

  /** One record as `csv-parse` returns it with `columns: true`: header
      name to (trimmed) cell text. */
  type Fila = map<string, string>

  /** `row[clave]`, with an absent column read as the empty string (both
      are falsy for `||`). */
  function Celda(fila: Fila, clave: string): string
  {
    if clave in fila then fila[clave] else ""
  }

  /** JavaScript `a || b` on strings. */
  function O(a: string, b: string): string
  {
    if a != "" then a else b
  }

  function NombreDe(fila: Fila): string { O(Celda(fila, "nombre_completo"), Celda(fila, "nombre")) }
  function CedulaDe(fila: Fila): string { Celda(fila, "cedula") }
  function CadenaDe(fila: Fila): string { O(Celda(fila, "cadena_adn"), Celda(fila, "cadena")) }

  /** `row.fuente_muestra || row.fuente || undefined`. */
  function FuenteDe(fila: Fila): Option<string>
  {
    var v := O(Celda(fila, "fuente_muestra"), Celda(fila, "fuente"));
    if v != "" then Some(v) else None
  }

  /** `row.observaciones || undefined`. */
  function ObservacionesDe(fila: Fila): Option<string>
  {
    var v := Celda(fila, "observaciones");
    if v != "" then Some(v) else None
  }

  /** The `$set` part of an upsert. `observaciones` is `None` when the
      operation leaves that field as stored (an `undefined` in `$set`). */
  datatype Campos = Campos(
    nombreCompleto: string,
    cadenaADN: string,
    longitudCadena: int,
    fuenteMuestra: string,
    observaciones: Option<string>,
    activo: bool,
    fechaActualizacion: int,
    usuarioRegistroId: string,
    updatedAt: int)

  /** `updateOne` with `filter: { cedula }`, `$set: campos`,
      `$setOnInsert: { createdAt: creado }` and `upsert: true`. */
  datatype Operacion = Operacion(cedula: string, campos: Campos, creado: int)

  datatype ErrorFila = ErrorFila(linea: int, motivo: string)

  datatype Desenlace = Rechazada(error: ErrorFila) | Aceptada(op: Operacion)

  const MOTIVO_FALTANTES: string := "Campos requeridos faltantes"
  const MOTIVO_ADN: string := "Cadena ADN inválida"

  /** The body of the `forEach` for the record at position `indice`. */
  function ClasificarFila(fila: Fila, indice: nat, usuario: string, ahora: int): (d: Desenlace)
    ensures d.Aceptada? <==>
              NombreDe(fila) != "" && CedulaDe(fila) != "" && CadenaDe(fila) != ""
              && SospechosoModel.ValidarCadenaADN(CadenaDe(fila))
    ensures d.Rechazada? ==> d.error.linea == indice + 2
    ensures d.Rechazada? ==>
              (d.error.motivo == MOTIVO_FALTANTES <==> NombreDe(fila) == "" || CedulaDe(fila) == "" || CadenaDe(fila) == "")
              && (d.error.motivo != MOTIVO_FALTANTES ==> d.error.motivo == MOTIVO_ADN)
  {
    var nombre := NombreDe(fila);
    var cedula := CedulaDe(fila);
    var cadena := CadenaDe(fila);
    if nombre == "" || cedula == "" || cadena == "" then
      Rechazada(ErrorFila(indice + 2, MOTIVO_FALTANTES))
    else if !SospechosoModel.ValidarCadenaADN(cadena) then
      Rechazada(ErrorFila(indice + 2, MOTIVO_ADN))
    else
      var fuente := FuenteDe(fila);
      Aceptada(Operacion(cedula,
        Campos(nombre, cadena, |cadena|, O(fuente.OrElse(""), SospechosoModel.FUENTE_POR_DEFECTO),
               ObservacionesDe(fila), true, ahora, usuario, ahora),
        ahora))
  }

  /** The upsert built from an accepted record: keyed by its cedula,
      `activo` set, the length of the DNA it stores, the source defaulting
      to 'Registro Nacional', and the load's time on every timestamp. */
  lemma OperacionDeFila(fila: Fila, indice: nat, usuario: string, ahora: int)
    requires ClasificarFila(fila, indice, usuario, ahora).Aceptada?
    ensures var op := ClasificarFila(fila, indice, usuario, ahora).op;
              && op.cedula == CedulaDe(fila) && op.creado == ahora
              && op.campos.nombreCompleto == NombreDe(fila)
              && op.campos.cadenaADN == CadenaDe(fila)
              && op.campos.longitudCadena == |op.campos.cadenaADN|
              && op.campos.activo
              && op.campos.fuenteMuestra == FuenteDe(fila).OrElse(SospechosoModel.FUENTE_POR_DEFECTO)
              && op.campos.observaciones == ObservacionesDe(fila)
              && op.campos.fechaActualizacion == ahora && op.campos.updatedAt == ahora
              && op.campos.usuarioRegistroId == usuario
  {
  }

  /** The two arrays the loop fills. */
  datatype Lote = Lote(errores: seq<ErrorFila>, operaciones: seq<Operacion>)

  /** The positions from `desde` on whose outcome is a rejection
      (`rechazos`) or an operation (`!rechazos`), in increasing order. */
  function Posiciones(ds: seq<Desenlace>, rechazos: bool, desde: nat): (ps: seq<nat>)
    requires desde <= |ds|
    ensures forall k :: 0 <= k < |ps| ==> desde <= ps[k] < |ds| && ds[ps[k]].Rechazada? == rechazos
    ensures forall j, k :: 0 <= j < k < |ps| ==> ps[j] < ps[k]
    ensures forall i :: desde <= i < |ds| && ds[i].Rechazada? == rechazos ==> i in ps
    decreases |ds| - desde
  {
    if desde == |ds| then []
    else (if ds[desde].Rechazada? == rechazos then [desde] else []) + Posiciones(ds, rechazos, desde + 1)
  }

  /** Every outcome is either a rejection or an operation. */
  lemma {:induction false} Reparto(ds: seq<Desenlace>, desde: nat)
    requires desde <= |ds|
    ensures |Posiciones(ds, true, desde)| + |Posiciones(ds, false, desde)| == |ds| - desde
    decreases |ds| - desde
  {
    if desde < |ds| {
      Reparto(ds, desde + 1);
    }
  }

  /** The outcome of every record, in record order. */
  function Desenlaces(filas: seq<Fila>, usuario: string, ahora: int): (ds: seq<Desenlace>)
  {
    seq(|filas|, i requires 0 <= i < |filas| => ClasificarFila(filas[i], i, usuario, ahora))
  }

  /** The rejections' errors, in position order. */
  function ErroresDe(ds: seq<Desenlace>): seq<ErrorFila>
  {
    var pe := Posiciones(ds, true, 0);
    seq(|pe|, k requires 0 <= k < |pe| => ds[pe[k]].error)
  }

  /** The accepted records' operations, in position order. */
  function OperacionesDe(ds: seq<Desenlace>): seq<Operacion>
  {
    var po := Posiciones(ds, false, 0);
    seq(|po|, k requires 0 <= k < |po| => ds[po[k]].op)
  }

  lemma ErroresNumerados(filas: seq<Fila>, usuario: string, ahora: int)
    ensures var es := ErroresDe(Desenlaces(filas, usuario, ahora));
            forall k :: 0 <= k < |es| ==>
              && 2 <= es[k].linea < |filas| + 2
              && ClasificarFila(filas[es[k].linea - 2], es[k].linea - 2, usuario, ahora) == Rechazada(es[k])
  {
    var ds := Desenlaces(filas, usuario, ahora);
    var pe := Posiciones(ds, true, 0);
    var es := ErroresDe(ds);
    forall k | 0 <= k < |es|
      ensures 2 <= es[k].linea < |filas| + 2
      ensures ClasificarFila(filas[es[k].linea - 2], es[k].linea - 2, usuario, ahora) == Rechazada(es[k])
    {
      var i := pe[k];
      assert ds[i] == ClasificarFila(filas[i], i, usuario, ahora);
      assert es[k] == ds[i].error;
    }
  }

  lemma ErroresCrecientes(filas: seq<Fila>, usuario: string, ahora: int)
    ensures var es := ErroresDe(Desenlaces(filas, usuario, ahora));
            forall j, k :: 0 <= j < k < |es| ==> es[j].linea < es[k].linea
  {
    var ds := Desenlaces(filas, usuario, ahora);
    var pe := Posiciones(ds, true, 0);
    var es := ErroresDe(ds);
    assert forall k :: 0 <= k < |es| ==> es[k].linea == pe[k] + 2 by {
      forall k | 0 <= k < |es| ensures es[k].linea == pe[k] + 2 {
        assert ds[pe[k]] == ClasificarFila(filas[pe[k]], pe[k], usuario, ahora);
      }
    }
  }

  lemma ErroresCompletos(filas: seq<Fila>, usuario: string, ahora: int)
    ensures forall i :: 0 <= i < |filas| && ClasificarFila(filas[i], i, usuario, ahora).Rechazada? ==>
              ClasificarFila(filas[i], i, usuario, ahora).error in ErroresDe(Desenlaces(filas, usuario, ahora))
  {
    var ds := Desenlaces(filas, usuario, ahora);
    var pe := Posiciones(ds, true, 0);
    var es := ErroresDe(ds);
    forall i | 0 <= i < |filas| && ClasificarFila(filas[i], i, usuario, ahora).Rechazada?
      ensures ClasificarFila(filas[i], i, usuario, ahora).error in es
    {
      assert ds[i] == ClasificarFila(filas[i], i, usuario, ahora);
      var k :| 0 <= k < |pe| && pe[k] == i;
      assert es[k] == ds[i].error;
    }
  }

  /** The loop over the parsed records: one outcome per record, errors
      numbered by record position plus two (the header is line 1), in
      record order. */
  function Clasificar(filas: seq<Fila>, usuario: string, ahora: int): (l: Lote)
    ensures |l.errores| + |l.operaciones| == |filas|
    ensures forall k :: 0 <= k < |l.errores| ==>
              && 2 <= l.errores[k].linea < |filas| + 2
              && ClasificarFila(filas[l.errores[k].linea - 2], l.errores[k].linea - 2, usuario, ahora)
                   == Rechazada(l.errores[k])
    ensures forall j, k :: 0 <= j < k < |l.errores| ==> l.errores[j].linea < l.errores[k].linea
    ensures forall i :: 0 <= i < |filas| && ClasificarFila(filas[i], i, usuario, ahora).Rechazada? ==>
              ClasificarFila(filas[i], i, usuario, ahora).error in l.errores
  {
    var ds := Desenlaces(filas, usuario, ahora);
    Reparto(ds, 0);
    ErroresNumerados(filas, usuario, ahora);
    ErroresCrecientes(filas, usuario, ahora);
    ErroresCompletos(filas, usuario, ahora);
    Lote(ErroresDe(ds), OperacionesDe(ds))
  }

  /** The operations come from the accepted records, one each, in record
      order: `origen[k]` is the record operation `k` was built from. */
  lemma OperacionesEnOrden(filas: seq<Fila>, usuario: string, ahora: int) returns (origen: seq<nat>)
    ensures var ops := Clasificar(filas, usuario, ahora).operaciones;
            && |origen| == |ops|
            && (forall k :: 0 <= k < |origen| ==>
                  (origen[k] < |filas| && ClasificarFila(filas[origen[k]], origen[k], usuario, ahora) == Aceptada(ops[k])))
            && (forall j, k :: 0 <= j < k < |origen| ==> origen[j] < origen[k])
            && (forall i :: 0 <= i < |filas| && ClasificarFila(filas[i], i, usuario, ahora).Aceptada? ==> i in origen)
  {
    var ds := Desenlaces(filas, usuario, ahora);
    origen := Posiciones(ds, false, 0);
    assert forall i :: 0 <= i < |filas| ==> ds[i] == ClasificarFila(filas[i], i, usuario, ahora);
  }

  // ---------------------------------------------------------------------
  // The store and the bulk write

  /** A stored suspect: the last `$set` values and the insertion time. */
  datatype Registro = Registro(campos: Campos, creado: int)

  /** The collection, keyed by cedula (the unique index). */
  type Almacen = map<string, Registro>

  function Buscar(a: Almacen, cedula: string): Option<Registro>
  {
    if cedula in a then Some(a[cedula]) else None
  }

  /** One upsert on the record it finds (or on none): `$set` overwrites
      every field it carries, an `undefined` field leaves the stored value,
      and `$setOnInsert` only acts when there was no record. */
  function Fusionar(previo: Option<Registro>, op: Operacion): Registro
  {
    var observaciones :=
      if op.campos.observaciones.Some? then op.campos.observaciones
      else if previo.Some? then previo.value.campos.observaciones
      else None;
    Registro(op.campos.(observaciones := observaciones),
             if previo.Some? then previo.value.creado else op.creado)
  }

  function Aplicar(a: Almacen, op: Operacion): Almacen
  {
    a[op.cedula := Fusionar(Buscar(a, op.cedula), op)]
  }

  function CedulasDe(ops: seq<Operacion>): set<string>
  {
    set k | 0 <= k < |ops| :: ops[k].cedula
  }

  /** The ordered `bulkWrite`: the operations applied one after another. */
  function AplicarTodas(a: Almacen, ops: seq<Operacion>): Almacen
    decreases |ops|
  {
    if |ops| == 0 then a else AplicarTodas(Aplicar(a, ops[0]), ops[1..])
  }

  /** The batch adds exactly its own cedulas to the store and leaves every
      record with another cedula as it was. */
  lemma {:induction false} AplicarTodasClaves(a: Almacen, ops: seq<Operacion>)
    ensures AplicarTodas(a, ops).Keys == a.Keys + CedulasDe(ops)
    ensures forall c :: c in a && c !in CedulasDe(ops) ==> AplicarTodas(a, ops)[c] == a[c]
    decreases |ops|
  {
    if |ops| > 0 {
      AplicarTodasClaves(Aplicar(a, ops[0]), ops[1..]);
      CedulasCons(ops);
    }
  }

  lemma {:induction false} AplicarTodasConcat(a: Almacen, x: seq<Operacion>, y: seq<Operacion>)
    ensures AplicarTodas(a, x + y) == AplicarTodas(AplicarTodas(a, x), y)
    decreases |x|
  {
    if |x| == 0 {
      assert x + y == y;
    } else {
      assert (x + y)[0] == x[0];
      assert (x + y)[1..] == x[1..] + y;
      AplicarTodasConcat(Aplicar(a, x[0]), x[1..], y);
    }
  }

  /** The operations on one cedula, in order. */
  function Filtrar(ops: seq<Operacion>, cedula: string): seq<Operacion>
  {
    if |ops| == 0 then []
    else (if ops[0].cedula == cedula then [ops[0]] else []) + Filtrar(ops[1..], cedula)
  }

  /** A sequence of upserts on one record. */
  function Plegar(previo: Option<Registro>, ops: seq<Operacion>): Option<Registro>
    decreases |ops|
  {
    if |ops| == 0 then previo else Plegar(Some(Fusionar(previo, ops[0])), ops[1..])
  }

  /** Each record only sees the operations on its own cedula. */
  lemma {:induction false} Proyeccion(a: Almacen, ops: seq<Operacion>, cedula: string)
    ensures Buscar(AplicarTodas(a, ops), cedula) == Plegar(Buscar(a, cedula), Filtrar(ops, cedula))
    decreases |ops|
  {
    if |ops| > 0 {
      Proyeccion(Aplicar(a, ops[0]), ops[1..], cedula);
      var resto := Filtrar(ops[1..], cedula);
      if ops[0].cedula == cedula {
        assert Filtrar(ops, cedula) == [ops[0]] + resto;
        assert ([ops[0]] + resto)[0] == ops[0] && ([ops[0]] + resto)[1..] == resto;
      } else {
        assert Filtrar(ops, cedula) == resto;
      }
    }
  }

  /** Two upserts in a row act as one: the later `$set`, the later defined
      `observaciones`, and the earlier `$setOnInsert`. */
  function Combinar(x: Operacion, y: Operacion): Operacion
  {
    Operacion(y.cedula,
              y.campos.(observaciones := if y.campos.observaciones.Some? then y.campos.observaciones else x.campos.observaciones),
              x.creado)
  }

  lemma FusionarDos(previo: Option<Registro>, x: Operacion, y: Operacion)
    ensures Fusionar(Some(Fusionar(previo, x)), y) == Fusionar(previo, Combinar(x, y))
  {
  }

  function Combinada(ops: seq<Operacion>): Operacion
    requires |ops| > 0
  {
    if |ops| == 1 then ops[0] else Combinar(ops[0], Combinada(ops[1..]))
  }

  lemma {:induction false} PlegarCombinada(previo: Option<Registro>, ops: seq<Operacion>)
    requires |ops| > 0
    ensures Plegar(previo, ops) == Some(Fusionar(previo, Combinada(ops)))
    decreases |ops|
  {
    if |ops| > 1 {
      PlegarCombinada(Some(Fusionar(previo, ops[0])), ops[1..]);
      FusionarDos(previo, ops[0], Combinada(ops[1..]));
    }
  }

  /** Replaying the operations of one record changes nothing. */
  lemma PlegarIdempotente(previo: Option<Registro>, ops: seq<Operacion>)
    ensures Plegar(Plegar(previo, ops), ops) == Plegar(previo, ops)
  {
    if |ops| > 0 {
      PlegarCombinada(previo, ops);
      var k := Combinada(ops);
      PlegarCombinada(Some(Fusionar(previo, k)), ops);
      FusionarDos(previo, k, k);
      assert Combinar(k, k) == k;
    }
  }

  lemma MapasIguales(m1: Almacen, m2: Almacen)
    requires forall c :: Buscar(m1, c) == Buscar(m2, c)
    ensures m1 == m2
  {
    assert forall c :: c in m1 <==> Buscar(m1, c).Some?;
    assert forall c :: c in m2 <==> Buscar(m2, c).Some?;
    assert m1.Keys == m2.Keys;
    forall c | c in m1 ensures m1[c] == m2[c] {
      assert Buscar(m1, c) == Some(m1[c]);
    }
  }

  /** Re-applying the same batch leaves the store as the first application
      left it. */
  lemma {:induction false} ReaplicarIdempotente(a: Almacen, ops: seq<Operacion>)
    ensures AplicarTodas(AplicarTodas(a, ops), ops) == AplicarTodas(a, ops)
  {
    var b := AplicarTodas(a, ops);
    forall c ensures Buscar(AplicarTodas(b, ops), c) == Buscar(b, c) {
      Proyeccion(b, ops, c);
      Proyeccion(a, ops, c);
      PlegarIdempotente(Buscar(a, c), Filtrar(ops, c));
    }
    MapasIguales(AplicarTodas(b, ops), b);
  }

  /** Last write wins: a cedula ends with the fields of its last operation
      in the batch (`observaciones` too, when that operation defines it). */
  lemma {:induction false} UltimaGana(a: Almacen, ops: seq<Operacion>, k: nat)
    requires k < |ops|
    requires forall j :: k < j < |ops| ==> ops[j].cedula != ops[k].cedula
    ensures var r := AplicarTodas(a, ops);
            && ops[k].cedula in r
            && r[ops[k].cedula].campos.(observaciones := None) == ops[k].campos.(observaciones := None)
            && (ops[k].campos.observaciones.Some? ==>
                  r[ops[k].cedula].campos.observaciones == ops[k].campos.observaciones)
  {
    var c := ops[k].cedula;
    var previo := AplicarTodas(a, ops[..k]);
    PartirEn(a, ops, k);
    DespuesDeLaUltima(ops, k);
    var b := Aplicar(previo, ops[k]);
    AplicarTodasClaves(b, ops[k + 1..]);
    assert b[c] == Fusionar(Buscar(previo, c), ops[k]);
  }

  /** The batch seen as: what precedes operation `k`, operation `k`, and
      what follows it. */
  lemma PartirEn(a: Almacen, ops: seq<Operacion>, k: nat)
    requires k < |ops|
    ensures AplicarTodas(a, ops) == AplicarTodas(Aplicar(AplicarTodas(a, ops[..k]), ops[k]), ops[k + 1..])
  {
    var antes, despues := ops[..k + 1], ops[k + 1..];
    assert ops == antes + despues;
    AplicarTodasConcat(a, antes, despues);
    assert antes == ops[..k] + [ops[k]];
    AplicarTodasConcat(a, ops[..k], [ops[k]]);
    AplicarUna(AplicarTodas(a, ops[..k]), ops[k]);
  }

  lemma DespuesDeLaUltima(ops: seq<Operacion>, k: nat)
    requires k < |ops|
    requires forall j :: k < j < |ops| ==> ops[j].cedula != ops[k].cedula
    ensures ops[k].cedula !in CedulasDe(ops[k + 1..])
  {
    var despues := ops[k + 1..];
    assert forall j :: 0 <= j < |despues| ==> despues[j] == ops[k + 1 + j];
    FueraDeCedulas(despues, ops[k].cedula);
  }

  lemma FueraDeCedulas(ops: seq<Operacion>, c: string)
    requires forall j :: 0 <= j < |ops| ==> ops[j].cedula != c
    ensures c !in CedulasDe(ops)
  {
  }

  lemma AplicarUna(a: Almacen, op: Operacion)
    ensures AplicarTodas(a, [op]) == Aplicar(a, op)
  {
    assert [op][1..] == [];
  }

  /** A stored record keeps its `createdAt` through the whole batch. */
  lemma {:induction false} CreadoSeConserva(a: Almacen, ops: seq<Operacion>, c: string)
    requires c in a
    ensures c in AplicarTodas(a, ops) && AplicarTodas(a, ops)[c].creado == a[c].creado
    decreases |ops|
  {
    AplicarTodasClaves(a, ops);
    if |ops| > 0 {
      CreadoSeConserva(Aplicar(a, ops[0]), ops[1..], c);
    }
  }

  /** A record the batch creates gets the `$setOnInsert` value of the
      first operation on its cedula. */
  lemma CreadoAlInsertar(a: Almacen, ops: seq<Operacion>, f: nat)
    requires f < |ops| && ops[f].cedula !in a
    requires forall j :: 0 <= j < f ==> ops[j].cedula != ops[f].cedula
    ensures var r := AplicarTodas(a, ops);
            ops[f].cedula in r && r[ops[f].cedula].creado == ops[f].creado
  {
    var c := ops[f].cedula;
    var previo := AplicarTodas(a, ops[..f]);
    PartirEn(a, ops, f);
    assert c !in previo by {
      assert forall j :: 0 <= j < f ==> ops[..f][j].cedula != c;
      FueraDeCedulas(ops[..f], c);
      AplicarTodasClaves(a, ops[..f]);
    }
    CreadoSeConserva(Aplicar(previo, ops[f]), ops[f + 1..], c);
  }

  /** `upsertedCount`: the operations that found no record. Only the set
      of stored cedulas matters, and each operation adds its own. */
  function Insertados(claves: set<string>, ops: seq<Operacion>): nat
    decreases |ops|
  {
    if |ops| == 0 then 0
    else (if ops[0].cedula in claves then 0 else 1) + Insertados(claves + {ops[0].cedula}, ops[1..])
  }

  /** The batch inserts exactly the cedulas the store did not hold. */
  lemma {:induction false} InsertadosNuevas(claves: set<string>, ops: seq<Operacion>)
    ensures Insertados(claves, ops) == |CedulasDe(ops) - claves|
    decreases |ops|
  {
    if |ops| > 0 {
      var x, resto := ops[0].cedula, CedulasDe(ops[1..]);
      InsertadosNuevas(claves + {x}, ops[1..]);
      CedulasCons(ops);
      NuevasPaso(x, resto, claves);
    }
  }

  lemma CedulasCons(ops: seq<Operacion>)
    requires |ops| > 0
    ensures CedulasDe(ops) == {ops[0].cedula} + CedulasDe(ops[1..])
  {
    assert forall k :: 1 <= k < |ops| ==> ops[k] == ops[1..][k - 1];
  }

  lemma NuevasPaso(x: string, resto: set<string>, claves: set<string>)
    ensures |({x} + resto) - claves| == (if x in claves then 0 else 1) + |resto - (claves + {x})|
  {
    if x in claves {
      assert ({x} + resto) - claves == resto - (claves + {x});
    } else {
      assert ({x} + resto) - claves == (resto - (claves + {x})) + {x};
    }
  }

  /** Re-applying the same batch inserts nothing. */
  lemma ReaplicarNoInserta(a: Almacen, ops: seq<Operacion>)
    ensures Insertados(AplicarTodas(a, ops).Keys, ops) == 0
  {
    InsertadosNuevas(AplicarTodas(a, ops).Keys, ops);
    AplicarTodasClaves(a, ops);
    assert CedulasDe(ops) - AplicarTodas(a, ops).Keys == {};
  }

  // ---------------------------------------------------------------------
  // cargaMasiva

  /** The `data` of the 200 response. */
  datatype Resumen = Resumen(totalProcesados: nat, insertados: nat, errores: seq<ErrorFila>)

  /** The store after the request and what the request answers. */
  datatype Carga = Carga(almacen: Almacen, respuesta: Result<Resumen, ErrorHandler.Error>)

  const SIN_ARCHIVO: string := "Debe adjuntar un archivo CSV"
  const SIN_VALIDOS: string := "El archivo no contiene registros válidos"

  /** `cargaMasiva`. `archivo` is `None` when no file was attached, and
      otherwise the outcome of reading and parsing it. */
  function CargaMasiva(archivo: Option<Result<seq<Fila>, ErrorHandler.Error>>, a: Almacen,
                       usuario: string, ahora: int): (r: Carga)
    ensures r.respuesta.Failure? ==> r.almacen == a
    ensures archivo.None? ==> r.respuesta == Failure(ErrorHandler.ErrorApi(SIN_ARCHIVO, 400))
    ensures archivo.Some? && archivo.value.Failure? ==> r.respuesta == Failure(archivo.value.error)
    ensures archivo.Some? && archivo.value.Success? ==>
              var filas := archivo.value.value;
              var lote := Clasificar(filas, usuario, ahora);
              && (r.respuesta.Failure? <==> |lote.operaciones| == 0)
              && (r.respuesta.Failure? ==> r.respuesta.error == ErrorHandler.ErrorApi(SIN_VALIDOS, 400))
              && (r.respuesta.Success? ==>
                    && r.almacen == AplicarTodas(a, lote.operaciones)
                    && r.respuesta.value.totalProcesados == |filas|
                    && r.respuesta.value.errores == lote.errores
                    && r.respuesta.value.insertados == |CedulasDe(lote.operaciones) - a.Keys|)
  {
    match archivo
    case None => Carga(a, Failure(ErrorHandler.ErrorApi(SIN_ARCHIVO, 400)))
    case Some(Failure(e)) => Carga(a, Failure(e))
    case Some(Success(filas)) =>
      var lote := Clasificar(filas, usuario, ahora);
      if |lote.operaciones| == 0 then Carga(a, Failure(ErrorHandler.ErrorApi(SIN_VALIDOS, 400)))
      else
        InsertadosNuevas(a.Keys, lote.operaciones);
        Carga(AplicarTodas(a, lote.operaciones),
              Success(Resumen(|filas|, Insertados(a.Keys, lote.operaciones), lote.errores)))
  }

  /** The last operation on a cedula of the batch. */
  lemma {:induction false} UltimoIndice(ops: seq<Operacion>, c: string) returns (k: nat)
    requires c in CedulasDe(ops)
    ensures k < |ops| && ops[k].cedula == c
    ensures forall j :: k < j < |ops| ==> ops[j].cedula != c
    decreases |ops|
  {
    var n := |ops| - 1;
    if ops[n].cedula == c {
      k := n;
    } else {
      assert c in CedulasDe(ops[..n]) by {
        var i :| 0 <= i < |ops| && ops[i].cedula == c;
        assert ops[..n][i] == ops[i];
      }
      k := UltimoIndice(ops[..n], c);
      assert ops[..n][k] == ops[k];
      assert forall j :: k < j < n ==> ops[..n][j] == ops[j];
    }
  }

  /** Every stored record written by a load holds a DNA string the model's
      own check accepts, with its length and `activo` set. */
  lemma CargaGuardaValidos(archivo: Option<Result<seq<Fila>, ErrorHandler.Error>>, a: Almacen,
                           usuario: string, ahora: int, c: string)
    requires archivo.Some? && archivo.value.Success?
    requires c in CedulasDe(Clasificar(archivo.value.value, usuario, ahora).operaciones)
    requires CargaMasiva(archivo, a, usuario, ahora).respuesta.Success?
    ensures var r := Buscar(CargaMasiva(archivo, a, usuario, ahora).almacen, c);
            && r.Some?
            && SospechosoModel.ValidarCadenaADN(r.value.campos.cadenaADN)
            && r.value.campos.longitudCadena == |r.value.campos.cadenaADN|
            && r.value.campos.activo
  {
    var filas := archivo.value.value;
    var ops := Clasificar(filas, usuario, ahora).operaciones;
    var origen := OperacionesEnOrden(filas, usuario, ahora);
    var k := UltimoIndice(ops, c);
    UltimaGana(a, ops, k);
    assert ClasificarFila(filas[origen[k]], origen[k], usuario, ahora) == Aceptada(ops[k]);
  }

  // ---------------------------------------------------------------------
  // listar

  /** `?activo=true` and `?activo=false` filter; any other value does not. */
  function FiltroActivo(consulta: Option<string>): (f: Option<bool>)
    ensures f.Some? <==> consulta == Some("true") || consulta == Some("false")
    ensures f.Some? ==> (f.value <==> consulta == Some("true"))
  {
    if consulta == Some("true") then Some(true)
    else if consulta == Some("false") then Some(false)
    else None
  }

  /** What `?activo=` does to the listing: "true" keeps exactly the active
      suspects, "false" exactly the inactive ones, and any other value, or
      none, keeps every document in stored order. */
  lemma FiltroActivoSelecciona(docs: seq<SospechosoModel.Documento>, consulta: Option<string>)
    ensures var r := SospechosoModel.ConActivo(docs, FiltroActivo(consulta));
            && (consulta == Some("true") ==> forall d :: d in r <==> d in docs && d.activo)
            && (consulta == Some("false") ==> forall d :: d in r <==> d in docs && !d.activo)
            && (consulta != Some("true") && consulta != Some("false") ==> r == docs)
  {
  }

  /** `listar` without the text search: the page of the newest-first
      documents that pass the `activo` filter, and its `pagination` block
      counting every document that passes. */
  function Listar(docs: seq<SospechosoModel.Documento>, activo: Option<string>, pagina: Option<int>, limite: Option<int>)
    : (r: (seq<SospechosoModel.Documento>, Paginacion.Pagination))
    ensures forall d :: d in r.0 ==> d in docs
    ensures forall d :: d in r.0 && activo == Some("true") ==> d.activo
    ensures forall d :: d in r.0 && activo == Some("false") ==> !d.activo
    ensures r.1.total == |SospechosoModel.ConActivo(docs, FiltroActivo(activo))|
    ensures activo != Some("true") && activo != Some("false") ==> r.1.total == |docs|
    ensures 1 <= r.1.limit <= Paginacion.LIMITE_MAXIMO && |r.0| <= r.1.limit
    // the page block and the page: the window of the filtered documents
    ensures r.1.page == Paginacion.Pagina(pagina) && r.1.limit == Paginacion.Limite(limite)
    ensures r.1.totalPages == Paginacion.TotalPaginas(r.1.total, r.1.limit)
    ensures Paginacion.EsVentana(SospechosoModel.ConActivo(docs, FiltroActivo(activo)), r.1.page, r.1.limit, r.0)
  {
    var seleccion := SospechosoModel.ConActivo(docs, FiltroActivo(activo));
    var r := Paginacion.Paginar(seleccion, pagina, limite);
    assert forall d :: d in r.0 ==> d in seleccion;
    r
  }

  /** Paging through the listing misses nothing: the `i`-th document that
      passes the filter is entry `i % limit` of page `i / limit + 1`. */
  lemma ListarCompleto(docs: seq<SospechosoModel.Documento>, activo: Option<string>, limite: Option<int>, i: nat)
    requires i < |SospechosoModel.ConActivo(docs, FiltroActivo(activo))|
    ensures var l := Paginacion.Limite(limite);
            var r := Listar(docs, activo, Some(i / l + 1), limite);
            && i % l < |r.0|
            && r.0[i % l] == SospechosoModel.ConActivo(docs, FiltroActivo(activo))[i]
  {
    var l := Paginacion.Limite(limite);
    Paginacion.CadaResultadoEnSuPagina(SospechosoModel.ConActivo(docs, FiltroActivo(activo)), l, i);
  }
}
