/** The page arithmetic shared by the suspect listing
    (backend/src/controllers/sospechososController.js, `listar`) and the
    search history (backend/src/controllers/busquedasController.js,
    `historial`). A query value is `None` when it is absent or not a
    number; otherwise it is the number `Number(...)` produced, taken to be
    an integer. The history's validator guarantees that; the suspect
    listing has no validator, and fractional values there are outside
    the model. */
module Paginacion {
  import opened Wrappers

  const PAGINA_POR_DEFECTO: int := 1
  const LIMITE_POR_DEFECTO: int := 20
  const LIMITE_MAXIMO: int := 100

  /** `Number(page) > 0 ? Number(page) : 1`. */
  function Pagina(consulta: Option<int>): (p: int)
    ensures p >= 1
    ensures consulta.Some? && consulta.value > 0 ==> p == consulta.value
    ensures !(consulta.Some? && consulta.value > 0) ==> p == PAGINA_POR_DEFECTO
  {
    match consulta
    case Some(v) => if v > 0 then v else PAGINA_POR_DEFECTO
    case None => PAGINA_POR_DEFECTO
  }

  /** `Number(limit) > 0 ? Math.min(Number(limit), 100) : 20`. */
  function Limite(consulta: Option<int>): (l: int)
    ensures 1 <= l <= LIMITE_MAXIMO
    ensures consulta.Some? && 0 < consulta.value <= LIMITE_MAXIMO ==> l == consulta.value
    ensures consulta.Some? && consulta.value > LIMITE_MAXIMO ==> l == LIMITE_MAXIMO
    ensures !(consulta.Some? && consulta.value > 0) ==> l == LIMITE_POR_DEFECTO
  {
    match consulta
    case Some(v) => if v > 0 then (if v < LIMITE_MAXIMO then v else LIMITE_MAXIMO) else LIMITE_POR_DEFECTO
    case None => LIMITE_POR_DEFECTO
  }

  lemma ProductoDistribuye(a: int, b: int, l: int)
    ensures a * l - b * l == (a - b) * l
  {
  }

  lemma FactorPositivo(x: int, l: int)
    requires l >= 1 && x * l > 0
    ensures x > 0
  {
  }

  lemma ProductoAcotado(x: int, l: int, d: int)
    requires l >= 1 && x * l == d && -l < d < l
    ensures x == 0
  {
  }

  /** Euclidean division is determined by its quotient-remainder equation. */
  lemma {:induction false} DivisionUnica(a: int, l: int, q: int, r: int)
    requires l >= 1 && a == q * l + r && 0 <= r < l
    ensures a / l == q && a % l == r
  {
    var q', r' := a / l, a % l;
    assert a == q' * l + r';
    ProductoDistribuye(q, q', l);
    ProductoAcotado(q - q', l, r' - r);
  }

  /** `(page - 1) * limit`: how many results come before the page. */
  function Saltar(pagina: int, limite: int): (s: nat)
    requires pagina >= 1 && limite >= 1
    ensures s % limite == 0 && s / limite == pagina - 1
  {
    DivisionUnica((pagina - 1) * limite, limite, pagina - 1, 0);
    (pagina - 1) * limite
  }

  /** `Math.ceil(total / limit)`: the fewest pages of `limite` results that
      hold `total` results. */
  function TotalPaginas(total: nat, limite: int): (n: nat)
    requires limite >= 1
    ensures n * limite >= total
    ensures n > 0 ==> (n - 1) * limite < total
  {
    (total + limite - 1) / limite
  }

  /** `ventana` is page `pagina` of `resultados`: the results that follow
      the first `Saltar(pagina, limite)`, in order, `limite` of them or
      as many as remain. */
  ghost predicate EsVentana<T>(resultados: seq<T>, pagina: int, limite: int, ventana: seq<T>)
    requires pagina >= 1 && limite >= 1
  {
    var desde := Saltar(pagina, limite);
    && |ventana| == (if desde >= |resultados| then 0
                     else if |resultados| - desde < limite then |resultados| - desde
                     else limite)
    && forall k :: 0 <= k < |ventana| ==> desde + k < |resultados| && ventana[k] == resultados[desde + k]
  }

  /** `find(...).skip(skip).limit(limit)` over the sorted results. */
  function Ventana<T>(items: seq<T>, pagina: int, limite: int): (v: seq<T>)
    requires pagina >= 1 && limite >= 1
    ensures EsVentana(items, pagina, limite, v)
    ensures |v| <= limite
    ensures |v| > 0 ==> Saltar(pagina, limite) + |v| <= |items|
    ensures forall k :: 0 <= k < |v| ==> v[k] == items[Saltar(pagina, limite) + k]
  {
    var desde := Saltar(pagina, limite);
    if desde >= |items| then []
    else if desde + limite <= |items| then items[desde..desde + limite]
    else items[desde..]
  }

  /** Every result is shown exactly once: result `i` is entry `i % limite`
      of page `i / limite + 1`, which is one of the `TotalPaginas` pages,
      and no other page shows it. */
  lemma CadaResultadoEnSuPagina<T>(items: seq<T>, limite: int, i: nat)
    requires limite >= 1 && i < |items|
    ensures var p := i / limite + 1;
            && 1 <= p <= TotalPaginas(|items|, limite)
            && i % limite < |Ventana(items, p, limite)|
            && Ventana(items, p, limite)[i % limite] == items[i]
    ensures forall q :: q >= 1 && q != i / limite + 1 ==>
              !(Saltar(q, limite) <= i < Saltar(q, limite) + limite)
  {
    var p := i / limite + 1;
    assert Saltar(p, limite) == (i / limite) * limite == i - i % limite;
    var n := TotalPaginas(|items|, limite);
    ProductoDistribuye(n, p - 1, limite);
    FactorPositivo(n - (p - 1), limite);
    forall q | q >= 1 && q != p
      ensures !(Saltar(q, limite) <= i < Saltar(q, limite) + limite)
    {
      if Saltar(q, limite) <= i < Saltar(q, limite) + limite {
        DivisionUnica(i, limite, q - 1, i - Saltar(q, limite));
      }
    }
  }

  /** The `pagination` block of a listing response. */
  datatype Pagination = Pagination(page: int, limit: int, total: nat, totalPages: nat)

  /** The page of the (filtered, sorted) results a listing returns, with
      its `pagination` block: `find(...).skip(skip).limit(limit)` and
      `countDocuments(...)` over the same filter. */
  function Paginar<T>(resultados: seq<T>, pagina: Option<int>, limite: Option<int>): (r: (seq<T>, Pagination))
    ensures var p := r.1;
            && p.page == Pagina(pagina) && p.limit == Limite(limite) && p.total == |resultados|
            && p.totalPages == TotalPaginas(|resultados|, p.limit)
            && EsVentana(resultados, p.page, p.limit, r.0)
            && p.totalPages * p.limit >= p.total
            && (p.totalPages > 0 ==> (p.totalPages - 1) * p.limit < p.total)
            && |r.0| <= p.limit
            && (|r.0| > 0 ==> Saltar(p.page, p.limit) + |r.0| <= |resultados|)
            && (forall k :: 0 <= k < |r.0| ==> r.0[k] == resultados[Saltar(p.page, p.limit) + k])
  {
    var p := Pagina(pagina);
    var l := Limite(limite);
    (Ventana(resultados, p, l), Pagination(p, l, |resultados|, TotalPaginas(|resultados|, l)))
  }
}
