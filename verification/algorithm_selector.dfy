/** The engine's choice of search algorithm
    (cpp-engine/src/utils/algorithm_selector.cpp): a fixed cascade of rules
    over the number of patterns, their average length and the number of
    suspects, the algorithm's persisted name, and the criterion reported
    with it. */
module AlgorithmSelector {

  datatype Algoritmo = KMP | RABIN_KARP | AHO_CORASICK

  /** The values the backend's search schema accepts for `algoritmoUsado`
      (backend/src/models/Busqueda.js). */
  const NOMBRES_PERSISTIDOS: set<string> := {"kmp", "rabin-karp", "aho-corasick"}

  const CRITERIO_MULTIPLES: string := "multiples_patrones_busqueda_simultanea"
  const CRITERIO_CORTO: string := "patron_corto_muchos_textos"
  const CRITERIO_DEFECTO: string := "default_mas_confiable"
  const CRITERIO_LARGO: string := "patron_largo"
  const CRITERIO_MEDIO: string := "patron_medio_muchos_textos"

  /** Rule 2 of the cascade: a short pattern over many suspects. */
  predicate CortoMuchos(longitud: int, numSospechosos: int)
  {
    longitud <= 15 && numSospechosos > 500
  }

  /** `AlgorithmSelector::seleccionar`: several patterns always go to
      Aho-Corasick; a single pattern goes through the rules in order. */
  function Seleccionar(numPatrones: int, longitud: int, numSospechosos: int): (a: Algoritmo)
    ensures numPatrones >= 2 ==> a == AHO_CORASICK
    ensures numPatrones < 2 ==> (a == AHO_CORASICK <==> 15 < longitud <= 30 && numSospechosos > 1000)
    ensures numPatrones < 2 ==> (a == RABIN_KARP <==> longitud > 30)
    ensures numPatrones < 2 ==> (a == KMP <==> longitud <= 15 || (longitud <= 30 && numSospechosos <= 1000))
  {
    if numPatrones >= 2 then AHO_CORASICK
    else if CortoMuchos(longitud, numSospechosos) then KMP
    else if longitud > 30 then RABIN_KARP
    else if 15 <= longitud <= 30 && numSospechosos > 1000 then AHO_CORASICK
    else KMP
  }

  /** A single pattern of length exactly 15 over more than 1000 suspects
      meets the Aho-Corasick rule's bounds, but the earlier KMP rule wins. */
  lemma QuinceVaAKmp(numSospechosos: int)
    requires numSospechosos > 1000
    ensures Seleccionar(1, 15, numSospechosos) == KMP
  {
  }

  /** `AlgorithmSelector::toString`: the name stored with the search. */
  function ToString(a: Algoritmo): (s: string)
    ensures s in NOMBRES_PERSISTIDOS
  {
    match a
    case KMP => "kmp"
    case RABIN_KARP => "rabin-karp"
    case AHO_CORASICK => "aho-corasick"
  }

  /** Distinct algorithms get distinct names, and every name the schema
      accepts is the name of some algorithm. */
  lemma ToStringBiyectiva()
    ensures forall a, b :: ToString(a) == ToString(b) ==> a == b
    ensures forall s :: s in NOMBRES_PERSISTIDOS ==> exists a :: ToString(a) == s
  {
    assert ToString(KMP) == "kmp";
    assert ToString(RABIN_KARP) == "rabin-karp";
    assert ToString(AHO_CORASICK) == "aho-corasick";
  }

  /** `AlgorithmSelector::obtenerCriterio`: why the algorithm was chosen. */
  function ObtenerCriterio(a: Algoritmo, numPatrones: int, longitud: int, numSospechosos: int): (c: string)
    ensures numPatrones >= 2 ==> c == CRITERIO_MULTIPLES
    ensures numPatrones < 2 && a == RABIN_KARP ==> c == CRITERIO_LARGO
    ensures numPatrones < 2 && a == AHO_CORASICK ==> c == CRITERIO_MEDIO
    ensures numPatrones < 2 && a == KMP ==> c in {CRITERIO_CORTO, CRITERIO_DEFECTO}
  {
    if numPatrones >= 2 then CRITERIO_MULTIPLES
    else
      match a
      case KMP => if CortoMuchos(longitud, numSospechosos) then CRITERIO_CORTO else CRITERIO_DEFECTO
      case RABIN_KARP => CRITERIO_LARGO
      case AHO_CORASICK => CRITERIO_MEDIO
  }

  /** For a single pattern, the reported criterion names the rule of the
      cascade that made the choice. */
  lemma CriterioDeSeleccion(longitud: int, numSospechosos: int, numPatrones: int)
    requires numPatrones < 2
    ensures var c := ObtenerCriterio(Seleccionar(numPatrones, longitud, numSospechosos), numPatrones, longitud, numSospechosos);
            && (c == CRITERIO_CORTO <==> longitud <= 15 && numSospechosos > 500)
            && (c == CRITERIO_LARGO <==> longitud > 30)
            && (c == CRITERIO_MEDIO <==> 15 < longitud <= 30 && numSospechosos > 1000)
            && (c == CRITERIO_DEFECTO <==>
                  !CortoMuchos(longitud, numSospechosos) && longitud <= 30
                  && !(15 < longitud && numSospechosos > 1000))
  {
  }
}
