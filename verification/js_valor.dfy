/** The JavaScript values a request body carries, as far as the backend
    inspects them: absent, `null`, booleans, integers, strings, arrays and
    other objects. */
module JsValor {
  import opened Wrappers

  datatype Valor =
    | Indefinido
    | Nulo
    | Booleano(b: bool)
    | Numero(n: int)
    | Texto(s: string)
    | Arreglo(elems: seq<Valor>)
    | Objeto

  /** JavaScript truthiness (section 7.1.2 of ECMA-262, ToBoolean). */
  predicate Truthy(v: Valor)
  {
    match v
    case Indefinido => false
    case Nulo => false
    case Booleano(b) => b
    case Numero(n) => n != 0
    case Texto(s) => s != ""
    case Arreglo(_) => true
    case Objeto => true
  }

  /** `a || b` on optional strings: the first unless it is absent or empty. */
  function O(a: Option<string>, b: Option<string>): Option<string>
  {
    if a.Some? && a.value != "" then a else b
  }
}
