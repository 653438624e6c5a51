/** Aho-Corasick multi-pattern search (cpp-engine/src/algorithms/aho_corasick.cpp).
    The trie is a sequence of nodes addressed by index, as in the source's
    `std::vector<TrieNode>`. Proofs carry three ghost companions: `labels[v]`,
    the string node `v` spells from the root; `padre[v]`, its parent; and
    `nodoDe[k]`, the node where pattern `k` ends. */
module AhoCorasick {
  import opened Wrappers
  import opened Matching

  /** One entry of a node's `patronesEncontrados`/`longitudesPatrones` pair. */
  datatype Salida = Salida(patronId: int, longitud: int)

  /** `TrieNode`: children by character, failure link (-1 = not set), outputs. */
  datatype TrieNode = TrieNode(hijos: map<char, int>, fallo: int, salidas: seq<Salida>)

  /** `CoincidenciaMultiple`: which pattern matched and where it starts. */
  datatype CoincidenciaMultiple = CoincidenciaMultiple(patronId: int, posicion: int)

  /** `TrieNode()`: no children, failure link -1, no outputs. */
  function NodoVacio(): TrieNode
  {
    TrieNode(map[], -1, [])
  }

  // ---------------------------------------------------------------------
  // Suffixes

  ghost predicate EsSufijo(a: string, b: string)
  {
    |a| <= |b| && b[|b| - |a|..] == a
  }

  /** Of two suffixes of one string, the shorter is a suffix of the longer. */
  lemma SufijosAnidados(a: string, b: string, s: string)
    requires EsSufijo(a, s) && EsSufijo(b, s) && |a| <= |b|
    ensures EsSufijo(a, b)
  {
    assert s[|s| - |b|..][|b| - |a|..] == s[|s| - |a|..];
  }

  lemma SufijoTrans(a: string, b: string, s: string)
    requires EsSufijo(a, b) && EsSufijo(b, s)
    ensures EsSufijo(a, s)
  {
    assert s[|s| - |b|..][|b| - |a|..] == s[|s| - |a|..];
  }

  /** A proper suffix of `b` is a suffix of `b` without its first character. */
  lemma SufijoPropio(a: string, b: string)
    requires EsSufijo(a, b) && |a| < |b|
    ensures EsSufijo(a, b[1..])
  {
    assert b[1..][|b| - 1 - |a|..] == b[|b| - |a|..];
  }

  lemma SufijoDeCola(a: string, b: string)
    requires |b| > 0 && EsSufijo(a, b[1..])
    ensures EsSufijo(a, b) && |a| < |b|
  {
    assert b[1..][|b| - 1 - |a|..] == b[|b| - |a|..];
  }

  lemma SufijoExtender(a: string, s: string, c: char)
    requires EsSufijo(a, s)
    ensures EsSufijo(a + [c], s + [c])
  {
    assert (s + [c])[|s| - |a|..] == s[|s| - |a|..] + [c];
  }

  lemma SufijoUltimo(x: string, s: string, c: char)
    requires EsSufijo(x, s + [c]) && |x| > 0
    ensures x[|x| - 1] == c && EsSufijo(x[..|x| - 1], s)
  {
    var t := s + [c];
    assert t[|t| - |x|..][|x| - 1] == c;
    assert t[|t| - |x|..][..|x| - 1] == s[|s| - (|x| - 1)..];
  }

  /** A suffix of the text read so far is an occurrence ending there. */
  lemma SufijoOcurre(x: string, t: string, e: int)
    requires 0 <= e <= |t| && EsSufijo(x, t[..e])
    ensures OccursAt(t, x, e - |x|)
  {
    assert t[..e][e - |x|..] == t[e - |x|..e];
  }

  /** An occurrence ending at `e` is a suffix of the text read so far. */
  lemma OcurrenciaEsSufijo(x: string, t: string, s: int)
    requires OccursAt(t, x, s)
    ensures EsSufijo(x, t[..s + |x|])
  {
    assert t[..s + |x|][s..] == t[s..s + |x|];
  }

  // ---------------------------------------------------------------------
  // Trie shape

  function Ultimo(s: string): char
    requires |s| > 0
  {
    s[|s| - 1]
  }

  /** Node `v` hangs from `padre[v]` under its label's last character. */
  ghost predicate TienePadre(trie: seq<TrieNode>, labels: seq<string>, padre: seq<int>, v: int)
    requires 0 <= v < |trie| == |labels| == |padre|
  {
    && |labels[v]| > 0
    && 0 <= padre[v] < |trie|
    && labels[padre[v]] + [Ultimo(labels[v])] == labels[v]
    && Ultimo(labels[v]) in trie[padre[v]].hijos
    && trie[padre[v]].hijos[Ultimo(labels[v])] == v
  }

  /** `trie` is a trie rooted at 0 whose node `v` spells `labels[v]`: every
      child index is in range and extends its parent's label by the edge
      character, every other node has a parent, and no two nodes spell the
      same string. */
  ghost predicate EsTrie(trie: seq<TrieNode>, labels: seq<string>, padre: seq<int>)
  {
    && |trie| == |labels| == |padre| >= 1
    && labels[0] == []
    && (forall u, c :: 0 <= u < |trie| && c in trie[u].hijos ==>
          0 < trie[u].hijos[c] < |trie| && labels[trie[u].hijos[c]] == labels[u] + [c])
    && (forall v :: 0 < v < |trie| ==> TienePadre(trie, labels, padre, v))
    && (forall u :: 0 <= u < |trie| ==> Indice(labels, labels[u]) == u)
  }

  /** The last node spelling `s`, or -1. With `Indice(labels, labels[u]) == u`
      for every `u`, no two nodes spell the same string. */
  ghost function Indice(labels: seq<string>, s: string): int
  {
    if |labels| == 0 then -1
    else if labels[|labels| - 1] == s then |labels| - 1
    else Indice(labels[..|labels| - 1], s)
  }

  /** Every output of node `u` names a pattern equal to `labels[u]` and its length. */
  ghost predicate SalidasCorrectas(trie: seq<TrieNode>, labels: seq<string>, patrones: seq<string>)
    requires |trie| == |labels|
  {
    forall u, j :: 0 <= u < |trie| && 0 <= j < |trie[u].salidas| ==>
      && 0 <= trie[u].salidas[j].patronId < |patrones|
      && patrones[trie[u].salidas[j].patronId] == labels[u]
      && trie[u].salidas[j].longitud == |labels[u]|
  }

  /** Every pattern `k` ends at node `nodoDe[k]`, which lists it as an output. */
  ghost predicate TodosInsertados(trie: seq<TrieNode>, labels: seq<string>, patrones: seq<string>, nodoDe: seq<int>, hasta: int)
    requires |trie| == |labels| && 0 <= hasta <= |patrones| == |nodoDe|
  {
    forall k :: 0 <= k < hasta ==>
      && 0 <= nodoDe[k] < |trie|
      && labels[nodoDe[k]] == patrones[k]
      && Salida(k, |patrones[k]|) in trie[nodoDe[k]].salidas
  }

  /** `a` and `b` differ at most in their failure links. */
  ghost predicate MismaForma(a: seq<TrieNode>, b: seq<TrieNode>)
  {
    |a| == |b| && forall w :: 0 <= w < |a| ==> a[w].hijos == b[w].hijos && a[w].salidas == b[w].salidas
  }

  /** No node lists the same pattern twice among its outputs. */
  ghost predicate SalidasDistintas(trie: seq<TrieNode>)
  {
    forall u, a, b :: 0 <= u < |trie| && 0 <= a < b < |trie[u].salidas| ==>
      trie[u].salidas[a].patronId != trie[u].salidas[b].patronId
  }

  /** Every output names a pattern numbered below `hasta`. */
  ghost predicate SalidasAntes(trie: seq<TrieNode>, hasta: int)
  {
    forall u, j :: 0 <= u < |trie| && 0 <= j < |trie[u].salidas| ==> trie[u].salidas[j].patronId < hasta
  }

  /** Recording a pattern numbered above every recorded one keeps the
      outputs of each node distinct. */
  lemma AgregarSalidaDistinta(antes: seq<TrieNode>, trie: seq<TrieNode>, u: int, patronId: int, longitud: int)
    requires SalidasDistintas(antes) && SalidasAntes(antes, patronId) && 0 <= u < |antes|
    requires trie == antes[u := antes[u].(salidas := antes[u].salidas + [Salida(patronId, longitud)])]
    ensures SalidasDistintas(trie) && SalidasAntes(trie, patronId + 1)
  {
    forall v, a, b | 0 <= v < |trie| && 0 <= a < b < |trie[v].salidas|
      ensures trie[v].salidas[a].patronId != trie[v].salidas[b].patronId
    {
      if v == u && b == |antes[u].salidas| {
        assert trie[v].salidas[a] == antes[u].salidas[a];
      } else if v == u {
        assert trie[v].salidas[a] == antes[u].salidas[a] && trie[v].salidas[b] == antes[u].salidas[b];
      }
    }
    forall v, j | 0 <= v < |trie| && 0 <= j < |trie[v].salidas|
      ensures trie[v].salidas[j].patronId < patronId + 1
    {
      if v == u && j < |antes[u].salidas| {
        assert trie[v].salidas[j] == antes[u].salidas[j];
      }
    }
  }

  /** Adding an empty node keeps the outputs distinct. */
  lemma ExtenderDistinta(trie: seq<TrieNode>, trie': seq<TrieNode>, hasta: int)
    requires |trie'| == |trie| + 1 && trie'[|trie|] == NodoVacio()
    requires forall v :: 0 <= v < |trie| ==> trie'[v].salidas == trie[v].salidas
    requires SalidasDistintas(trie) && SalidasAntes(trie, hasta)
    ensures SalidasDistintas(trie') && SalidasAntes(trie', hasta)
  {
  }

  /** Setting failure links leaves the outputs distinct. */
  lemma MismaFormaDistintas(a: seq<TrieNode>, b: seq<TrieNode>)
    requires MismaForma(a, b) && SalidasDistintas(b)
    ensures SalidasDistintas(a)
  {
    forall u, i, j | 0 <= u < |a| && 0 <= i < j < |a[u].salidas|
      ensures a[u].salidas[i].patronId != a[u].salidas[j].patronId
    {
      assert a[u].salidas == b[u].salidas;
    }
  }

  lemma MismaFormaConserva(a: seq<TrieNode>, b: seq<TrieNode>, labels: seq<string>, padre: seq<int>)
    requires MismaForma(a, b) && EsTrie(b, labels, padre)
    ensures EsTrie(a, labels, padre)
  {
    forall v | 0 < v < |a|
      ensures TienePadre(a, labels, padre, v)
    {
      assert TienePadre(b, labels, padre, v);
      assert a[padre[v]].hijos == b[padre[v]].hijos;
    }
  }

  lemma MismaFormaSalidas(a: seq<TrieNode>, b: seq<TrieNode>, labels: seq<string>, patrones: seq<string>, nodoDe: seq<int>)
    requires MismaForma(a, b) && |b| == |labels| && SalidasCorrectas(b, labels, patrones)
    requires |nodoDe| == |patrones| && TodosInsertados(b, labels, patrones, nodoDe, |patrones|)
    ensures SalidasCorrectas(a, labels, patrones)
    ensures TodosInsertados(a, labels, patrones, nodoDe, |patrones|)
  {
    forall u, j | 0 <= u < |a| && 0 <= j < |a[u].salidas|
      ensures a[u].salidas[j] == b[u].salidas[j]
    {
    }
    forall k | 0 <= k < |patrones|
      ensures Salida(k, |patrones[k]|) in a[nodoDe[k]].salidas
    {
      assert a[nodoDe[k]].salidas == b[nodoDe[k]].salidas;
    }
  }

  // ---------------------------------------------------------------------
  // Failure links

  /** `f` spells the longest suffix of `s` that some node spells. */
  ghost predicate SufijoMasLargo(labels: seq<string>, f: int, s: string)
  {
    && 0 <= f < |labels|
    && EsSufijo(labels[f], s)
    && forall w {:trigger EsSufijo(labels[w], s)} :: 0 <= w < |labels| && EsSufijo(labels[w], s) ==> |labels[w]| <= |labels[f]|
  }

  /** Node `v` fails to the node spelling the longest proper suffix of its
      label that is present in the trie. */
  ghost predicate FalloCorrecto(trie: seq<TrieNode>, labels: seq<string>, v: int)
    requires 0 <= v < |trie| == |labels|
  {
    |labels[v]| > 0 && SufijoMasLargo(labels, trie[v].fallo, labels[v][1..])
  }

  /** After `construirFallos`: the root keeps -1, every other node is correct. */
  ghost predicate Fallos(trie: seq<TrieNode>, labels: seq<string>)
    requires |trie| == |labels| >= 1
  {
    trie[0].fallo == -1 && forall v {:trigger FalloCorrecto(trie, labels, v)} :: 0 < v < |trie| ==> FalloCorrecto(trie, labels, v)
  }

  /** A correct failure link points to a strictly shallower node. */
  lemma FalloMasCorto(trie: seq<TrieNode>, labels: seq<string>, v: int)
    requires 0 <= v < |trie| == |labels| && FalloCorrecto(trie, labels, v)
    ensures 0 <= trie[v].fallo < |trie| && |labels[trie[v].fallo]| < |labels[v]|
    ensures EsSufijo(labels[trie[v].fallo], labels[v])
  {
    SufijoDeCola(labels[trie[v].fallo], labels[v]);
  }

  /** Children of the root fail to the root. */
  lemma HijosDeRaizFallanARaiz(trie: seq<TrieNode>, labels: seq<string>, padre: seq<int>, c: char)
    requires EsTrie(trie, labels, padre) && Fallos(trie, labels) && c in trie[0].hijos
    ensures trie[trie[0].hijos[c]].fallo == 0
  {
    var v := trie[0].hijos[c];
    assert labels[v] == [c];
    assert FalloCorrecto(trie, labels, v);
    assert labels[trie[v].fallo] == [];
  }

  /** Invariant of the failure-chain walk that looks for a node with a child
      `c`: `f` spells a suffix of `s`, and no longer such node has child `c`. */
  ghost predicate Caminando(trie: seq<TrieNode>, labels: seq<string>, s: string, c: char, f: int)
    requires |trie| == |labels|
  {
    && 0 <= f < |trie|
    && EsSufijo(labels[f], s)
    && forall w {:trigger EsSufijo(labels[w], s)} :: 0 <= w < |trie| && EsSufijo(labels[w], s) && |labels[w]| > |labels[f]| ==> c !in trie[w].hijos
  }

  lemma CaminarInicio(trie: seq<TrieNode>, labels: seq<string>, s: string, c: char, f: int)
    requires |trie| == |labels| && SufijoMasLargo(labels, f, s)
    ensures Caminando(trie, labels, s, c, f)
  {
  }

  lemma CaminarPaso(trie: seq<TrieNode>, labels: seq<string>, padre: seq<int>, s: string, c: char, f: int)
    requires EsTrie(trie, labels, padre)
    requires Caminando(trie, labels, s, c, f) && f != 0 && c !in trie[f].hijos
    requires FalloCorrecto(trie, labels, f)
    ensures Caminando(trie, labels, s, c, trie[f].fallo)
    ensures |labels[trie[f].fallo]| < |labels[f]|
  {
    var g := trie[f].fallo;
    FalloMasCorto(trie, labels, f);
    SufijoTrans(labels[g], labels[f], s);
    forall w | 0 <= w < |trie| && EsSufijo(labels[w], s) && |labels[w]| > |labels[g]|
      ensures c !in trie[w].hijos
    {
      if |labels[w]| == |labels[f]| {
        assert labels[w] == labels[f];
      } else if |labels[w]| < |labels[f]| {
        SufijosAnidados(labels[w], labels[f], s);
        SufijoPropio(labels[w], labels[f]);
        assert false;
      }
    }
  }

  /** Where the walk lands after taking edge `c`, if the stopping node has one. */
  function Destino(trie: seq<TrieNode>, f: int, c: char): int
    requires 0 <= f < |trie|
  {
    if c in trie[f].hijos then trie[f].hijos[c] else f
  }

  /** When the walk stops, taking edge `c` (if any) reaches the node of the
      longest suffix of `s + [c]` present in the trie. */
  lemma CaminarFin(trie: seq<TrieNode>, labels: seq<string>, padre: seq<int>, s: string, c: char, f: int)
    requires EsTrie(trie, labels, padre)
    requires Caminando(trie, labels, s, c, f) && (f == 0 || c in trie[f].hijos)
    ensures SufijoMasLargo(labels, Destino(trie, f, c), s + [c])
  {
    var z := Destino(trie, f, c);
    if c in trie[f].hijos {
      SufijoExtender(labels[f], s, c);
    }
    forall w | 0 <= w < |labels| && EsSufijo(labels[w], s + [c])
      ensures |labels[w]| <= |labels[z]|
    {
      if |labels[w]| > 0 {
        assert w != 0;
        assert TienePadre(trie, labels, padre, w);
        var p := padre[w];
        SufijoUltimo(labels[w], s, c);
        assert labels[p] == labels[w][..|labels[w]| - 1];
      }
    }
  }

  // ---------------------------------------------------------------------
  // construirTrieMultiple

  /** Following edges from node `desde` along `s`; None when an edge is missing. */
  function Recorrer(trie: seq<TrieNode>, desde: int, s: string): Option<int>
    requires 0 <= desde < |trie|
    decreases |s|
  {
    if |s| == 0 then Some(desde)
    else if s[0] in trie[desde].hijos && 0 <= trie[desde].hijos[s[0]] < |trie| then
      Recorrer(trie, trie[desde].hijos[s[0]], s[1..])
    else None
  }

  /** Walking a node's label from the root reaches that node. */
  lemma {:induction false} RecorrerEtiqueta(trie: seq<TrieNode>, labels: seq<string>, padre: seq<int>, v: int)
    requires EsTrie(trie, labels, padre) && 0 <= v < |trie|
    ensures Recorrer(trie, 0, labels[v]) == Some(v)
    decreases |labels[v]|
  {
    if v != 0 {
      assert TienePadre(trie, labels, padre, v);
      var p := padre[v];
      RecorrerEtiqueta(trie, labels, padre, p);
      RecorrerAnexo(trie, 0, labels[p], p, Ultimo(labels[v]));
    }
  }

  lemma {:induction false} RecorrerAnexo(trie: seq<TrieNode>, desde: int, s: string, p: int, c: char)
    requires 0 <= desde < |trie| && 0 <= p < |trie|
    requires Recorrer(trie, desde, s) == Some(p)
    requires c in trie[p].hijos && 0 <= trie[p].hijos[c] < |trie|
    ensures Recorrer(trie, desde, s + [c]) == Some(trie[p].hijos[c])
    decreases |s|
  {
    if |s| > 0 {
      assert (s + [c])[0] == s[0];
      assert (s + [c])[1..] == s[1..] + [c];
      RecorrerAnexo(trie, trie[desde].hijos[s[0]], s[1..], p, c);
    } else {
      assert (s + [c])[1..] == [];
    }
  }

  /** `construirTrieMultiple`, starting from the root-only trie that
      `buscarMultiple` creates: inserts each pattern in order, creating nodes
      on demand, and records pattern `k` with its length at the node where it
      ends. Every failure link is still -1. */
  method ConstruirTrieMultiple(patrones: seq<string>)
    returns (trie: seq<TrieNode>, ghost labels: seq<string>, ghost padre: seq<int>, ghost nodoDe: seq<int>)
    ensures EsTrie(trie, labels, padre)
    ensures SalidasCorrectas(trie, labels, patrones)
    ensures |nodoDe| == |patrones| && TodosInsertados(trie, labels, patrones, nodoDe, |patrones|)
    ensures forall v :: 0 <= v < |trie| ==> trie[v].fallo == -1
    ensures SalidasDistintas(trie)
  {
    trie := [NodoVacio()];
    labels := [[]];
    padre := [0];
    nodoDe := seq(|patrones|, _ => 0);
    var patronId := 0;
    while patronId < |patrones|
      invariant 0 <= patronId <= |patrones| == |nodoDe|
      invariant EsTrie(trie, labels, padre)
      invariant SalidasCorrectas(trie, labels, patrones)
      invariant TodosInsertados(trie, labels, patrones, nodoDe, patronId)
      invariant forall v :: 0 <= v < |trie| ==> trie[v].fallo == -1
      invariant SalidasDistintas(trie) && SalidasAntes(trie, patronId)
    {
      var patron := patrones[patronId];
      var estadoActual;
      trie, labels, padre, estadoActual := InsertarCamino(trie, labels, padre, patron, patrones, nodoDe, patronId);
      ghost var antes := trie;
      trie := trie[estadoActual := trie[estadoActual].(salidas := trie[estadoActual].salidas + [Salida(patronId, |patron|)])];
      AgregarSalidaConserva(antes, trie, labels, padre, patrones, nodoDe, patronId, estadoActual);
      AgregarSalidaDistinta(antes, trie, estadoActual, patronId, |patron|);
      nodoDe := nodoDe[patronId := estadoActual];
      patronId := patronId + 1;
    }
  }

  /** The inner loop of the insertion: walk `patron` from the root, creating
      each missing child, and end at the node spelling `patron`. Existing
      outputs and failure links are untouched. */
  method InsertarCamino(trie0: seq<TrieNode>, ghost labels0: seq<string>, ghost padre0: seq<int>, patron: string,
                        ghost patrones: seq<string>, ghost nodoDe: seq<int>, ghost patronId: int)
    returns (trie: seq<TrieNode>, ghost labels: seq<string>, ghost padre: seq<int>, estadoActual: int)
    requires EsTrie(trie0, labels0, padre0) && SalidasCorrectas(trie0, labels0, patrones)
    requires 0 <= patronId <= |patrones| == |nodoDe| && TodosInsertados(trie0, labels0, patrones, nodoDe, patronId)
    requires forall v :: 0 <= v < |trie0| ==> trie0[v].fallo == -1
    requires SalidasDistintas(trie0) && SalidasAntes(trie0, patronId)
    ensures EsTrie(trie, labels, padre) && SalidasCorrectas(trie, labels, patrones)
    ensures TodosInsertados(trie, labels, patrones, nodoDe, patronId)
    ensures forall v :: 0 <= v < |trie| ==> trie[v].fallo == -1
    ensures SalidasDistintas(trie) && SalidasAntes(trie, patronId)
    ensures 0 <= estadoActual < |trie| && labels[estadoActual] == patron
  {
    trie, labels, padre := trie0, labels0, padre0;
    estadoActual := 0;
    var j := 0;
    while j < |patron|
      invariant 0 <= j <= |patron|
      invariant EsTrie(trie, labels, padre)
      invariant SalidasCorrectas(trie, labels, patrones)
      invariant TodosInsertados(trie, labels, patrones, nodoDe, patronId)
      invariant forall v :: 0 <= v < |trie| ==> trie[v].fallo == -1
      invariant 0 <= estadoActual < |trie| && labels[estadoActual] == patron[..j]
      invariant SalidasDistintas(trie) && SalidasAntes(trie, patronId)
    {
      var c := patron[j];
      if c !in trie[estadoActual].hijos {
        ghost var (t0, l0) := (trie, labels);
        trie, labels, padre := AgregarHijo(trie, labels, padre, estadoActual, c);
        ExtenderConserva(t0, trie, l0, labels, patrones, nodoDe, patronId);
        ExtenderDistinta(t0, trie, patronId);
      }
      estadoActual := trie[estadoActual].hijos[c];
      assert patron[..j + 1] == patron[..j] + [c];
      j := j + 1;
    }
    assert patron[..|patron|] == patron;
  }

  lemma AgregarSalidaConserva(antes: seq<TrieNode>, trie: seq<TrieNode>, labels: seq<string>, padre: seq<int>,
                              patrones: seq<string>, nodoDe: seq<int>, patronId: int, u: int)
    requires EsTrie(antes, labels, padre) && SalidasCorrectas(antes, labels, patrones)
    requires 0 <= patronId < |patrones| == |nodoDe|
    requires TodosInsertados(antes, labels, patrones, nodoDe, patronId)
    requires forall v :: 0 <= v < |antes| ==> antes[v].fallo == -1
    requires 0 <= u < |antes| && labels[u] == patrones[patronId]
    requires trie == antes[u := antes[u].(salidas := antes[u].salidas + [Salida(patronId, |patrones[patronId]|)])]
    ensures EsTrie(trie, labels, padre) && SalidasCorrectas(trie, labels, patrones)
    ensures TodosInsertados(trie, labels, patrones, nodoDe[patronId := u], patronId + 1)
    ensures forall v :: 0 <= v < |trie| ==> trie[v].fallo == -1
  {
    forall v | 0 < v < |trie|
      ensures TienePadre(trie, labels, padre, v)
    {
      assert TienePadre(antes, labels, padre, v);
    }
    var nd := nodoDe[patronId := u];
    forall k | 0 <= k < patronId + 1
      ensures 0 <= nd[k] < |trie| && labels[nd[k]] == patrones[k] && Salida(k, |patrones[k]|) in trie[nd[k]].salidas
    {
      if k < patronId {
        assert Salida(k, |patrones[k]|) in antes[nodoDe[k]].salidas;
      }
    }
  }

  /** Creating the missing child `c` of node `u` (`trie[u].hijos[c] = trie.size();
      trie.push_back(TrieNode())`). */
  method AgregarHijo(trie: seq<TrieNode>, ghost labels: seq<string>, ghost padre: seq<int>, u: int, c: char)
    returns (trie': seq<TrieNode>, ghost labels': seq<string>, ghost padre': seq<int>)
    requires EsTrie(trie, labels, padre)
    requires 0 <= u < |trie| && c !in trie[u].hijos
    ensures EsTrie(trie', labels', padre')
    ensures |trie'| == |trie| + 1 && labels'[..|trie|] == labels
    ensures forall v :: 0 <= v < |trie| ==> trie'[v].salidas == trie[v].salidas && trie'[v].fallo == trie[v].fallo
    ensures trie'[|trie|] == NodoVacio()
    ensures c in trie'[u].hijos && trie'[u].hijos[c] == |trie| && labels'[|trie|] == labels[u] + [c]
  {
    var n := |trie|;
    trie' := trie[u := trie[u].(hijos := trie[u].hijos[c := n])] + [NodoVacio()];
    labels' := labels + [labels[u] + [c]];
    padre' := padre + [u];
    forall v | 0 <= v < n
      ensures labels[v] != labels[u] + [c]
    {
      var k := |labels[u]|;
      if v != 0 && |labels[v]| == k + 1 {
        assert TienePadre(trie, labels, padre, v);
        var p := padre[v];
        assert labels[v][..k] == labels[p] && labels[v][k] == Ultimo(labels[v]);
        assert (labels[u] + [c])[..k] == labels[u] && (labels[u] + [c])[k] == c;
        if p != u {
          assert Indice(labels, labels[p]) != Indice(labels, labels[u]);
        }
      }
    }
    assert labels'[..n] == labels;
    forall v | 0 < v < |trie'|
      ensures TienePadre(trie', labels', padre', v)
    {
      if v < n {
        assert TienePadre(trie, labels, padre, v);
        if padre[v] == u {
          assert Ultimo(labels[v]) != c;
        }
      } else {
        assert Ultimo(labels'[v]) == c;
      }
    }
    forall v | 0 <= v < |trie'|
      ensures Indice(labels', labels'[v]) == v
    {
      if v < n {
        assert labels'[v] == labels[v];
      }
    }
  }

  /** Adding an empty node keeps the outputs correct and every inserted
      pattern in place. */
  lemma ExtenderConserva(trie: seq<TrieNode>, trie': seq<TrieNode>, labels: seq<string>, labels': seq<string>,
                         patrones: seq<string>, nodoDe: seq<int>, hasta: int)
    requires |trie| == |labels| && |trie'| == |labels'| == |trie| + 1 && labels'[..|trie|] == labels
    requires forall v :: 0 <= v < |trie| ==> trie'[v].salidas == trie[v].salidas && trie'[v].fallo == trie[v].fallo
    requires trie'[|trie|] == NodoVacio()
    requires SalidasCorrectas(trie, labels, patrones)
    requires 0 <= hasta <= |patrones| == |nodoDe| && TodosInsertados(trie, labels, patrones, nodoDe, hasta)
    requires forall v :: 0 <= v < |trie| ==> trie[v].fallo == -1
    ensures SalidasCorrectas(trie', labels', patrones)
    ensures TodosInsertados(trie', labels', patrones, nodoDe, hasta)
    ensures forall v :: 0 <= v < |trie'| ==> trie'[v].fallo == -1
  {
    forall v | 0 <= v < |trie|
      ensures labels'[v] == labels[v]
    {
      assert labels'[..|trie|][v] == labels'[v];
    }
  }

  // ---------------------------------------------------------------------
  // construirFallos

  /** Depth of node `v` (0 outside the trie, to keep the queue predicates total). */
  ghost function Prof(labels: seq<string>, v: int): int
  {
    if 0 <= v < |labels| then |labels[v]| else 0
  }

  /** Non-root nodes whose failure link is still -1. */
  ghost function Pendientes(trie: seq<TrieNode>): set<int>
  {
    set v | 0 < v < |trie| && trie[v].fallo == -1
  }

  /** Every child of `v` already has its failure link. */
  ghost predicate HijosMarcados(trie: seq<TrieNode>, v: int)
    requires 0 <= v < |trie|
  {
    forall c :: c in trie[v].hijos && 0 <= trie[v].hijos[c] < |trie| ==> trie[trie[v].hijos[c]].fallo != -1
  }

  /** The root keeps -1; every link already set is the correct one. */
  ghost predicate FallosFijados(trie: seq<TrieNode>, labels: seq<string>)
    requires |trie| == |labels| >= 1
  {
    && trie[0].fallo == -1
    && forall v {:trigger FalloCorrecto(trie, labels, v)} :: 0 < v < |trie| && trie[v].fallo != -1 ==> FalloCorrecto(trie, labels, v)
  }

  /** Queued nodes are distinct non-root nodes whose link is set. */
  ghost predicate ColaValida(trie: seq<TrieNode>, cola: seq<int>)
  {
    && (forall q :: 0 <= q < |cola| ==> 0 < cola[q] < |trie| && trie[cola[q]].fallo != -1)
    && (forall a, b :: 0 <= a < b < |cola| ==> cola[a] != cola[b])
  }

  /** Queued nodes come in non-decreasing depth, spanning at most one level. */
  ghost predicate ColaOrdenada(labels: seq<string>, cola: seq<int>)
  {
    && (forall a, b {:trigger Prof(labels, cola[a]), Prof(labels, cola[b])} :: 0 <= a < b < |cola| ==> Prof(labels, cola[a]) <= Prof(labels, cola[b]))
    && (|cola| > 0 ==> Prof(labels, cola[|cola| - 1]) <= Prof(labels, cola[0]) + 1)
  }

  /** Nodes that have left the queue (other than `actual`, being processed),
      and the root, have all their children set. */
  ghost predicate Procesados(trie: seq<TrieNode>, cola: seq<int>, actual: int)
  {
    && |trie| >= 1
    && (actual != 0 ==> HijosMarcados(trie, 0))
    && (forall v {:trigger HijosMarcados(trie, v)} :: 0 < v < |trie| && v != actual && trie[v].fallo != -1 && v !in cola ==> HijosMarcados(trie, v))
  }

  /** A set node below depth 1 has a set parent that has left the queue. */
  ghost predicate PadresProcesados(trie: seq<TrieNode>, padre: seq<int>, cola: seq<int>)
  {
    forall v :: 0 < v < |trie| && v < |padre| && trie[v].fallo != -1 && 0 < padre[v] < |trie| ==>
      trie[padre[v]].fallo != -1 && padre[v] !in cola
  }

  /** The breadth-first invariant of `construirFallos`. */
  ghost predicate Anchura(trie: seq<TrieNode>, labels: seq<string>, padre: seq<int>, cola: seq<int>)
    requires |trie| == |labels| >= 1
  {
    && FallosFijados(trie, labels)
    && ColaValida(trie, cola)
    && ColaOrdenada(labels, cola)
    && Procesados(trie, cola, -1)
    && PadresProcesados(trie, padre, cola)
  }

  /** The child of `u` under `c` has `u` as its parent. */
  lemma PadreDeHijo(trie: seq<TrieNode>, labels: seq<string>, padre: seq<int>, u: int, c: char)
    requires EsTrie(trie, labels, padre) && 0 <= u < |trie| && c in trie[u].hijos
    ensures padre[trie[u].hijos[c]] == u
  {
    var v := trie[u].hijos[c];
    assert TienePadre(trie, labels, padre, v);
    var p := padre[v];
    assert labels[p] + [Ultimo(labels[v])] == labels[u] + [c];
    assert labels[p] == (labels[p] + [Ultimo(labels[v])])[..|labels[u]|];
    assert labels[u] == (labels[u] + [c])[..|labels[u]|];
  }

  /** With every queued node at depth at least `d`, every non-root node of
      depth at most `d` already has its failure link. */
  lemma {:induction false} MarcadosHasta(trie: seq<TrieNode>, labels: seq<string>, padre: seq<int>, cola: seq<int>, d: int, v: int)
    requires EsTrie(trie, labels, padre) && Procesados(trie, cola, -1)
    requires forall q :: 0 <= q < |cola| ==> Prof(labels, cola[q]) >= d
    requires 0 < v < |trie| && |labels[v]| <= d
    ensures trie[v].fallo != -1
    decreases |labels[v]|
  {
    assert TienePadre(trie, labels, padre, v);
    var p := padre[v];
    var c := Ultimo(labels[v]);
    assert |labels[p]| + 1 == |labels[v]|;
    if p == 0 {
      assert HijosMarcados(trie, 0);
    } else {
      MarcadosHasta(trie, labels, padre, cola, d, p);
      assert HijosMarcados(trie, p);
    }
  }

  /** Every non-root node of depth at most `d` has its correct link. */
  ghost predicate CorrectosHasta(trie: seq<TrieNode>, labels: seq<string>, d: int)
    requires |trie| == |labels|
  {
    forall v {:trigger FalloCorrecto(trie, labels, v)} :: 0 < v < |trie| && |labels[v]| <= d ==> FalloCorrecto(trie, labels, v)
  }

  /** Every node of depth at most that of the queue's head has its correct link. */
  lemma CorrectosHastaCabeza(trie: seq<TrieNode>, labels: seq<string>, padre: seq<int>, cola: seq<int>)
    requires EsTrie(trie, labels, padre) && Anchura(trie, labels, padre, cola) && |cola| > 0
    ensures CorrectosHasta(trie, labels, |labels[cola[0]]|)
  {
    forall v | 0 < v < |trie| && |labels[v]| <= |labels[cola[0]]|
      ensures FalloCorrecto(trie, labels, v)
    {
      forall q | 0 <= q < |cola|
        ensures Prof(labels, cola[q]) >= |labels[cola[0]]|
      {
        if q > 0 {
          assert Prof(labels, cola[0]) <= Prof(labels, cola[q]);
        }
      }
      MarcadosHasta(trie, labels, padre, cola, |labels[cola[0]]|, v);
    }
  }

  /** With the queue empty, every non-root node has its correct link. */
  lemma TodosCorrectos(trie: seq<TrieNode>, labels: seq<string>, padre: seq<int>)
    requires EsTrie(trie, labels, padre) && Anchura(trie, labels, padre, [])
    ensures Fallos(trie, labels)
  {
    forall v | 0 < v < |trie|
      ensures FalloCorrecto(trie, labels, v)
    {
      MarcadosHasta(trie, labels, padre, [], |labels[v]|, v);
    }
  }

  /** `construirFallos`: breadth-first from the root's children (which fail
      to the root), each child `v` of a dequeued node `u` under `c` fails to
      the `c`-child of the first node on `u`'s failure chain that has one, or
      to the root. Children are visited in any order, as `unordered_map`
      iteration order is unspecified. */
  method ConstruirFallos(trie0: seq<TrieNode>, ghost labels: seq<string>, ghost padre: seq<int>)
    returns (trie: seq<TrieNode>)
    requires EsTrie(trie0, labels, padre)
    requires forall v :: 0 <= v < |trie0| ==> trie0[v].fallo == -1
    ensures MismaForma(trie, trie0) && EsTrie(trie, labels, padre)
    ensures Fallos(trie, labels)
  {
    var cola;
    trie, cola := MarcarRaiz(trie0, labels, padre);
    while |cola| > 0
      invariant MismaForma(trie, trie0) && EsTrie(trie, labels, padre)
      invariant Anchura(trie, labels, padre, cola)
      decreases Pendientes(trie), |cola|
    {
      CorrectosHastaCabeza(trie, labels, padre, cola);
      var estadoActual := cola[0];
      assert cola == [estadoActual] + cola[1..];
      cola := cola[1..];
      ghost var antes := trie;
      trie, cola := ProcesarHijos(trie, labels, padre, cola, estadoActual);
    }
    TodosCorrectos(trie, labels, padre);
  }

  /** The first loop of `construirFallos`: each child of the root fails to
      the root and is queued. */
  method MarcarRaiz(trie0: seq<TrieNode>, ghost labels: seq<string>, ghost padre: seq<int>)
    returns (trie: seq<TrieNode>, cola: seq<int>)
    requires EsTrie(trie0, labels, padre)
    requires forall v :: 0 <= v < |trie0| ==> trie0[v].fallo == -1
    ensures MismaForma(trie, trie0) && EsTrie(trie, labels, padre)
    ensures Anchura(trie, labels, padre, cola)
  {
    trie := trie0;
    cola := [];
    var raiz := trie[0].hijos.Keys;
    while raiz != {}
      invariant MismaForma(trie, trie0) && EsTrie(trie, labels, padre)
      invariant RaizParcial(trie, labels, cola, raiz)
      decreases raiz
    {
      var c :| c in raiz;
      trie, cola := MarcarHijoDeRaiz(trie, labels, padre, cola, raiz, c);
      raiz := raiz - {c};
    }
    InicioAnchura(trie, labels, padre, cola);
  }

  /** Invariant of the root loop: the children whose edge is in `raiz` are
      still unset; every other set node is a child of the root, fails to the
      root and is queued. */
  ghost predicate RaizParcial(trie: seq<TrieNode>, labels: seq<string>, cola: seq<int>, raiz: set<char>)
    requires |trie| == |labels| >= 1
  {
    && raiz <= trie[0].hijos.Keys
    && trie[0].fallo == -1
    && (forall c :: c in trie[0].hijos && c !in raiz && 0 <= trie[0].hijos[c] < |trie| ==> trie[trie[0].hijos[c]].fallo == 0)
    && (forall c :: c in raiz && 0 <= trie[0].hijos[c] < |trie| ==> trie[trie[0].hijos[c]].fallo == -1)
    && (forall v :: 0 < v < |trie| && trie[v].fallo != -1 ==> |labels[v]| == 1 && trie[v].fallo == 0 && v in cola)
    && ColaValida(trie, cola)
    && (forall q :: 0 <= q < |cola| ==> Prof(labels, cola[q]) == 1 && trie[cola[q]].fallo == 0)
  }

  /** One round of the root loop: the root's child under `c` fails to the
      root and is queued. */
  method MarcarHijoDeRaiz(antes: seq<TrieNode>, ghost labels: seq<string>, ghost padre: seq<int>,
                          colaAntes: seq<int>, ghost raiz: set<char>, c: char)
    returns (trie: seq<TrieNode>, cola: seq<int>)
    requires EsTrie(antes, labels, padre) && RaizParcial(antes, labels, colaAntes, raiz) && c in raiz
    ensures MismaForma(trie, antes) && EsTrie(trie, labels, padre)
    ensures RaizParcial(trie, labels, cola, raiz - {c})
  {
    var hijo := antes[0].hijos[c];
    assert 0 < hijo < |antes| && labels[hijo] == [c];
    trie := antes[hijo := antes[hijo].(fallo := 0)];
    cola := colaAntes + [hijo];
    MismaFormaConserva(trie, antes, labels, padre);
    RaizTrasMarcar(antes, trie, labels, raiz, c);
    ColaRaizTrasMarcar(antes, trie, labels, colaAntes, cola, hijo);
  }

  /** The root's children other than `c` keep their state. */
  lemma RaizTrasMarcar(antes: seq<TrieNode>, trie: seq<TrieNode>, labels: seq<string>, raiz: set<char>, c: char)
    requires |antes| == |labels| >= 1 && labels[0] == []
    requires c in raiz && raiz <= antes[0].hijos.Keys && antes[0].fallo == -1
    requires forall c' :: c' in antes[0].hijos ==> 0 < antes[0].hijos[c'] < |antes| && labels[antes[0].hijos[c']] == [c']
    requires forall c' :: c' in antes[0].hijos && c' !in raiz && 0 <= antes[0].hijos[c'] < |antes| ==> antes[antes[0].hijos[c']].fallo == 0
    requires forall c' :: c' in raiz && 0 <= antes[0].hijos[c'] < |antes| ==> antes[antes[0].hijos[c']].fallo == -1
    requires trie == antes[antes[0].hijos[c] := antes[antes[0].hijos[c]].(fallo := 0)]
    ensures raiz - {c} <= trie[0].hijos.Keys && trie[0].fallo == -1
    ensures forall c' :: c' in trie[0].hijos && c' !in raiz - {c} && 0 <= trie[0].hijos[c'] < |trie| ==> trie[trie[0].hijos[c']].fallo == 0
    ensures forall c' :: c' in raiz - {c} && 0 <= trie[0].hijos[c'] < |trie| ==> trie[trie[0].hijos[c']].fallo == -1
  {
    var hijo := antes[0].hijos[c];
    assert trie[0] == antes[0];
    forall c' | c' in antes[0].hijos && c' != c
      ensures antes[0].hijos[c'] != hijo
    {
      assert labels[antes[0].hijos[c']] == [c'];
      assert labels[hijo] == [c];
    }
  }

  /** Setting and queuing the depth-1 node `hijo` keeps the queue facts of
      the root loop. */
  lemma ColaRaizTrasMarcar(antes: seq<TrieNode>, trie: seq<TrieNode>, labels: seq<string>,
                           colaAntes: seq<int>, cola: seq<int>, hijo: int)
    requires |antes| == |labels| && 0 < hijo < |antes| && |labels[hijo]| == 1 && antes[hijo].fallo == -1
    requires forall v :: 0 < v < |antes| && antes[v].fallo != -1 ==> |labels[v]| == 1 && antes[v].fallo == 0 && v in colaAntes
    requires ColaValida(antes, colaAntes)
    requires forall q :: 0 <= q < |colaAntes| ==> Prof(labels, colaAntes[q]) == 1 && antes[colaAntes[q]].fallo == 0
    requires trie == antes[hijo := antes[hijo].(fallo := 0)]
    requires cola == colaAntes + [hijo]
    ensures forall v :: 0 < v < |trie| && trie[v].fallo != -1 ==> |labels[v]| == 1 && trie[v].fallo == 0 && v in cola
    ensures ColaValida(trie, cola)
    ensures forall q :: 0 <= q < |cola| ==> Prof(labels, cola[q]) == 1 && trie[cola[q]].fallo == 0
  {
    assert cola[|colaAntes|] == hijo;
    forall q | 0 <= q < |colaAntes|
      ensures cola[q] == colaAntes[q] && cola[q] != hijo
    {
    }
  }

  /** After the root's children are queued, the breadth-first invariant holds. */
  lemma InicioAnchura(trie: seq<TrieNode>, labels: seq<string>, padre: seq<int>, cola: seq<int>)
    requires EsTrie(trie, labels, padre) && trie[0].fallo == -1
    requires forall c :: c in trie[0].hijos ==> trie[trie[0].hijos[c]].fallo == 0
    requires forall v :: 0 < v < |trie| && trie[v].fallo != -1 ==> |labels[v]| == 1 && trie[v].fallo == 0 && v in cola
    requires ColaValida(trie, cola)
    requires forall q :: 0 <= q < |cola| ==> Prof(labels, cola[q]) == 1 && trie[cola[q]].fallo == 0
    ensures Anchura(trie, labels, padre, cola)
  {
    forall v | 0 < v < |trie| && trie[v].fallo != -1
      ensures FalloCorrecto(trie, labels, v)
    {
      assert labels[v][1..] == [];
      assert EsSufijo(labels[0], labels[v][1..]);
    }
    forall v | 0 < v < |trie| && trie[v].fallo != -1
      ensures padre[v] == 0
    {
      assert TienePadre(trie, labels, padre, v);
      assert labels[padre[v]] == [];
    }
  }

  /** The failure link of the child of `u` under `c`: walk `u`'s failure
      chain to the first node with a `c` edge and take it, else the root. */
  method CalcularFallo(trie: seq<TrieNode>, ghost labels: seq<string>, ghost padre: seq<int>, u: int, c: char)
    returns (nuevo: int)
    requires EsTrie(trie, labels, padre)
    requires 0 < u < |trie| && c in trie[u].hijos && FalloCorrecto(trie, labels, u)
    requires CorrectosHasta(trie, labels, |labels[u]| - 1)
    ensures SufijoMasLargo(labels, nuevo, labels[trie[u].hijos[c]][1..])
  {
    var hijo := trie[u].hijos[c];
    ghost var s := labels[u][1..];
    var fallo := trie[u].fallo;
    CaminarInicio(trie, labels, s, c, fallo);
    while fallo != 0 && fallo != -1 && c !in trie[fallo].hijos
      invariant Caminando(trie, labels, s, c, fallo)
      decreases |labels[fallo]|
    {
      CaminarPaso(trie, labels, padre, s, c, fallo);
      fallo := trie[fallo].fallo;
    }
    CaminarFin(trie, labels, padre, s, c, fallo);
    assert labels[hijo] == labels[u] + [c];
    assert labels[hijo][1..] == s + [c];
    if fallo != -1 && c in trie[fallo].hijos && trie[fallo].hijos[c] != hijo {
      nuevo := trie[fallo].hijos[c];
    } else {
      nuevo := 0;
    }
  }

  /** Processing the dequeued node `u`: each child gets its failure link and
      joins the back of the queue. */
  method ProcesarHijos(trie0: seq<TrieNode>, ghost labels: seq<string>, ghost padre: seq<int>, cola0: seq<int>, u: int)
    returns (trie: seq<TrieNode>, cola: seq<int>)
    requires EsTrie(trie0, labels, padre)
    requires Anchura(trie0, labels, padre, [u] + cola0)
    requires 0 <= u < |trie0| && CorrectosHasta(trie0, labels, |labels[u]|)
    ensures MismaForma(trie, trie0) && EsTrie(trie, labels, padre)
    ensures Anchura(trie, labels, padre, cola)
    ensures Pendientes(trie) <= Pendientes(trie0)
    ensures Pendientes(trie) == Pendientes(trie0) ==> |cola| == |cola0|
  {
    trie := trie0;
    cola := cola0;
    var claves := trie[u].hijos.Keys;
    IniciarNodo(trie, labels, padre, cola0, u);
    while claves != {}
      invariant MismaForma(trie, trie0) && EsTrie(trie, labels, padre)
      invariant AnchuraParcial(trie, labels, padre, cola0, cola, u, claves)
      invariant CorrectosHasta(trie, labels, |labels[u]|)
      invariant Pendientes(trie) <= Pendientes(trie0)
      invariant Pendientes(trie) == Pendientes(trie0) ==> |cola| == |cola0|
      decreases claves
    {
      var c :| c in claves;
      trie, cola := ProcesarHijo(trie, labels, padre, cola0, cola, u, claves, c);
      claves := claves - {c};
    }
    CerrarNodo(trie, labels, padre, cola0, cola, u);
  }

  /** One round of the loop over `u`'s children: the child under `c` gets
      its failure link and is queued. */
  method ProcesarHijo(antes: seq<TrieNode>, ghost labels: seq<string>, ghost padre: seq<int>,
                      ghost cola0: seq<int>, colaAntes: seq<int>, u: int, ghost claves: set<char>, c: char)
    returns (trie: seq<TrieNode>, cola: seq<int>)
    requires EsTrie(antes, labels, padre)
    requires AnchuraParcial(antes, labels, padre, cola0, colaAntes, u, claves) && c in claves
    requires CorrectosHasta(antes, labels, |labels[u]|)
    ensures MismaForma(trie, antes) && EsTrie(trie, labels, padre)
    ensures AnchuraParcial(trie, labels, padre, cola0, cola, u, claves - {c})
    ensures CorrectosHasta(trie, labels, |labels[u]|)
    ensures Pendientes(trie) < Pendientes(antes)
  {
    var hijo := antes[u].hijos[c];
    var nuevo := CalcularFallo(antes, labels, padre, u, c);
    PadreDeHijo(antes, labels, padre, u, c);
    trie := antes[hijo := antes[hijo].(fallo := nuevo)];
    cola := colaAntes + [hijo];
    MarcarHijo(antes, trie, labels, padre, cola0, colaAntes, cola, u, claves, c, nuevo);
    MismaFormaConserva(trie, antes, labels, padre);
  }

  /** Invariant of the loop over `u`'s children: the children whose edge is
      in `pendientes` are still unset, the others are set and queued behind
      `cola0` at depth |labels[u]| + 1, and the breadth-first invariant holds
      with `u` as the node being processed. */
  ghost predicate AnchuraParcial(trie: seq<TrieNode>, labels: seq<string>, padre: seq<int>,
                                 cola0: seq<int>, cola: seq<int>, u: int, pendientes: set<char>)
    requires |trie| == |labels| >= 1
  {
    && 0 < u < |trie| && trie[u].fallo != -1 && u !in cola
    && pendientes <= trie[u].hijos.Keys
    && |cola| >= |cola0| && cola[..|cola0|] == cola0
    && (forall q :: |cola0| <= q < |cola| ==> Prof(labels, cola[q]) == |labels[u]| + 1)
    && (forall q :: 0 <= q < |cola0| ==> |labels[u]| <= Prof(labels, cola0[q]) <= |labels[u]| + 1)
    && ColaOrdenada(labels, cola0)
    && (forall c :: c in pendientes && 0 <= trie[u].hijos[c] < |trie| ==> trie[trie[u].hijos[c]].fallo == -1)
    && (forall c :: c in trie[u].hijos && c !in pendientes && 0 <= trie[u].hijos[c] < |trie| ==>
          trie[trie[u].hijos[c]].fallo != -1)
    && FallosFijados(trie, labels)
    && ColaValida(trie, cola)
    && Procesados(trie, cola, u)
    && PadresProcesados(trie, padre, cola)
  }

  /** Dequeuing `u` starts the loop over its children. */
  lemma IniciarNodo(trie: seq<TrieNode>, labels: seq<string>, padre: seq<int>, cola0: seq<int>, u: int)
    requires EsTrie(trie, labels, padre) && Anchura(trie, labels, padre, [u] + cola0)
    ensures AnchuraParcial(trie, labels, padre, cola0, cola0, u, trie[u].hijos.Keys)
  {
    var cola := [u] + cola0;
    assert cola[0] == u && 0 < u < |trie|;
    ColaTrasSacar(trie, labels, u, cola0);
    HijosSinMarcar(trie, labels, padre, cola, u);
    forall v | 0 < v < |trie| && v != u && trie[v].fallo != -1 && v !in cola0
      ensures HijosMarcados(trie, v)
    {
      assert v !in cola;
    }
    forall v | 0 < v < |trie| && v < |padre| && trie[v].fallo != -1 && 0 < padre[v] < |trie|
      ensures padre[v] !in cola0
    {
      assert padre[v] !in cola;
    }
  }

  /** Removing the head `u` of the queue keeps the rest ordered, distinct and
      within one level of `u`. */
  lemma ColaTrasSacar(trie: seq<TrieNode>, labels: seq<string>, u: int, cola0: seq<int>)
    requires ColaValida(trie, [u] + cola0) && ColaOrdenada(labels, [u] + cola0)
    ensures u !in cola0 && ColaValida(trie, cola0) && ColaOrdenada(labels, cola0)
    ensures forall q :: 0 <= q < |cola0| ==> Prof(labels, u) <= Prof(labels, cola0[q]) <= Prof(labels, u) + 1
  {
    var cola := [u] + cola0;
    forall q | 0 <= q < |cola0|
      ensures cola0[q] != u && Prof(labels, u) <= Prof(labels, cola0[q]) <= Prof(labels, u) + 1
    {
      assert cola[q + 1] == cola0[q] && cola[0] == u;
      assert Prof(labels, cola[0]) <= Prof(labels, cola[q + 1]);
      assert Prof(labels, cola[|cola| - 1]) <= Prof(labels, cola[0]) + 1;
      assert Prof(labels, cola[q + 1]) <= Prof(labels, cola[|cola| - 1]);
    }
    forall a, b | 0 <= a < b < |cola0|
      ensures Prof(labels, cola0[a]) <= Prof(labels, cola0[b]) && cola0[a] != cola0[b]
    {
      assert cola[a + 1] == cola0[a] && cola[b + 1] == cola0[b];
    }
    forall q | 0 <= q < |cola0|
      ensures 0 < cola0[q] < |trie| && trie[cola0[q]].fallo != -1
    {
      assert cola[q + 1] == cola0[q];
    }
    if |cola0| > 0 {
      assert cola[|cola| - 1] == cola0[|cola0| - 1];
    }
  }

  /** A node still in the queue has no child with a link yet. */
  lemma HijosSinMarcar(trie: seq<TrieNode>, labels: seq<string>, padre: seq<int>, cola: seq<int>, u: int)
    requires EsTrie(trie, labels, padre) && PadresProcesados(trie, padre, cola)
    requires 0 < u < |trie| && u in cola
    ensures forall c :: c in trie[u].hijos ==> trie[trie[u].hijos[c]].fallo == -1
  {
    forall c | c in trie[u].hijos
      ensures trie[trie[u].hijos[c]].fallo == -1
    {
      PadreDeHijo(trie, labels, padre, u, c);
    }
  }

  /** Setting the link of child `c` of `u` keeps the loop invariant. */
  lemma MarcarHijo(antes: seq<TrieNode>, trie: seq<TrieNode>, labels: seq<string>, padre: seq<int>,
                   cola0: seq<int>, colaAntes: seq<int>, cola: seq<int>, u: int, claves: set<char>, c: char, nuevo: int)
    requires |antes| == |labels| == |padre| >= 1
    requires AnchuraParcial(antes, labels, padre, cola0, colaAntes, u, claves)
    requires CorrectosHasta(antes, labels, |labels[u]|)
    requires c in claves
    requires forall c' :: c' in antes[u].hijos ==>
               0 < antes[u].hijos[c'] < |antes| && labels[antes[u].hijos[c']] == labels[u] + [c']
    requires padre[antes[u].hijos[c]] == u
    requires SufijoMasLargo(labels, nuevo, labels[antes[u].hijos[c]][1..])
    requires trie == antes[antes[u].hijos[c] := antes[antes[u].hijos[c]].(fallo := nuevo)]
    requires cola == colaAntes + [antes[u].hijos[c]]
    ensures AnchuraParcial(trie, labels, padre, cola0, cola, u, claves - {c})
    ensures CorrectosHasta(trie, labels, |labels[u]|)
    ensures Pendientes(trie) == Pendientes(antes) - {antes[u].hijos[c]}
    ensures antes[u].hijos[c] in Pendientes(antes)
  {
    var hijo := antes[u].hijos[c];
    assert |labels[hijo]| == |labels[u]| + 1;
    FijarFallo(antes, trie, labels, padre, colaAntes, cola, u, hijo, nuevo);
    CorrectosTrasMarcar(antes, trie, labels, |labels[u]|, hijo, nuevo);
    HijosTrasMarcar(antes, trie, labels, u, claves, c, nuevo);
    ColaTrasMarcar(labels, cola0, colaAntes, cola, |labels[u]|, hijo);
    assert trie[u] == antes[u];
  }

  lemma CorrectosTrasMarcar(antes: seq<TrieNode>, trie: seq<TrieNode>, labels: seq<string>, d: int, hijo: int, nuevo: int)
    requires |antes| == |labels| && CorrectosHasta(antes, labels, d)
    requires 0 <= hijo < |antes| && |labels[hijo]| > d
    requires trie == antes[hijo := antes[hijo].(fallo := nuevo)]
    ensures CorrectosHasta(trie, labels, d)
  {
    forall v | 0 < v < |trie| && |labels[v]| <= d
      ensures FalloCorrecto(trie, labels, v)
    {
      assert FalloCorrecto(antes, labels, v);
    }
  }

  lemma HijosTrasMarcar(antes: seq<TrieNode>, trie: seq<TrieNode>, labels: seq<string>, u: int, claves: set<char>, c: char, nuevo: int)
    requires |antes| == |labels| && 0 <= u < |antes|
    requires c in claves && claves <= antes[u].hijos.Keys
    requires forall c' :: c' in antes[u].hijos ==>
               0 < antes[u].hijos[c'] < |antes| && labels[antes[u].hijos[c']] == labels[u] + [c']
    requires forall c' :: c' in claves && 0 <= antes[u].hijos[c'] < |antes| ==> antes[antes[u].hijos[c']].fallo == -1
    requires forall c' :: c' in antes[u].hijos && c' !in claves && 0 <= antes[u].hijos[c'] < |antes| ==>
               antes[antes[u].hijos[c']].fallo != -1
    requires trie == antes[antes[u].hijos[c] := antes[antes[u].hijos[c]].(fallo := nuevo)] && nuevo != -1
    ensures trie[u] == antes[u]
    ensures forall c' :: c' in claves - {c} && 0 <= trie[u].hijos[c'] < |trie| ==> trie[trie[u].hijos[c']].fallo == -1
    ensures forall c' :: c' in trie[u].hijos && c' !in claves - {c} && 0 <= trie[u].hijos[c'] < |trie| ==>
              trie[trie[u].hijos[c']].fallo != -1
  {
    var hijo := antes[u].hijos[c];
    assert labels[hijo] == labels[u] + [c];
    forall c' | c' in antes[u].hijos && c' != c
      ensures antes[u].hijos[c'] != hijo
    {
      assert labels[antes[u].hijos[c']] == labels[u] + [c'];
      assert (labels[u] + [c'])[|labels[u]|] == c';
    }
  }

  lemma ColaTrasMarcar(labels: seq<string>, cola0: seq<int>, colaAntes: seq<int>, cola: seq<int>, d: int, hijo: int)
    requires |colaAntes| >= |cola0| && colaAntes[..|cola0|] == cola0
    requires forall q :: |cola0| <= q < |colaAntes| ==> Prof(labels, colaAntes[q]) == d + 1
    requires Prof(labels, hijo) == d + 1 && cola == colaAntes + [hijo]
    ensures |cola| >= |cola0| && cola[..|cola0|] == cola0
    ensures forall q :: |cola0| <= q < |cola| ==> Prof(labels, cola[q]) == d + 1
  {
    forall q | |cola0| <= q < |cola|
      ensures Prof(labels, cola[q]) == d + 1
    {
      if q < |colaAntes| {
        assert cola[q] == colaAntes[q];
      }
    }
    assert cola[..|cola0|] == colaAntes[..|cola0|];
  }

  /** Setting the link of `hijo`, an unset child of the set, dequeued node
      `u`, and queuing it. */
  lemma FijarFallo(antes: seq<TrieNode>, trie: seq<TrieNode>, labels: seq<string>, padre: seq<int>,
                   colaAntes: seq<int>, cola: seq<int>, u: int, hijo: int, nuevo: int)
    requires |antes| == |labels| == |padre| >= 1
    requires 0 < u < |antes| && antes[u].fallo != -1 && u !in colaAntes
    requires 0 < hijo < |antes| && antes[hijo].fallo == -1 && padre[hijo] == u && hijo != u && |labels[hijo]| > 0
    requires FallosFijados(antes, labels) && ColaValida(antes, colaAntes)
    requires Procesados(antes, colaAntes, u) && PadresProcesados(antes, padre, colaAntes)
    requires SufijoMasLargo(labels, nuevo, labels[hijo][1..])
    requires trie == antes[hijo := antes[hijo].(fallo := nuevo)]
    requires cola == colaAntes + [hijo]
    ensures FallosFijados(trie, labels) && ColaValida(trie, cola)
    ensures Procesados(trie, cola, u) && PadresProcesados(trie, padre, cola)
    ensures Pendientes(trie) == Pendientes(antes) - {hijo} && hijo in Pendientes(antes)
  {
    forall v | 0 < v < |trie| && trie[v].fallo != -1
      ensures FalloCorrecto(trie, labels, v)
    {
      if v != hijo {
        assert FalloCorrecto(antes, labels, v);
      }
    }
    forall v | 0 < v < |trie| && trie[v].fallo != -1 && 0 < padre[v] < |trie|
      ensures trie[padre[v]].fallo != -1 && padre[v] !in cola
    {
      if v != hijo {
        if padre[v] == hijo {
          assert false;
        }
      }
    }
    forall v | 0 <= v < |trie| && HijosMarcados(antes, v)
      ensures HijosMarcados(trie, v)
    {
    }
    forall v | 0 < v < |trie| && v != u && trie[v].fallo != -1 && v !in cola
      ensures HijosMarcados(trie, v)
    {
      assert HijosMarcados(antes, v);
    }
    forall q | 0 <= q < |colaAntes|
      ensures colaAntes[q] != hijo
    {
    }
  }

  /** Once all of `u`'s children are set and queued, `u` counts as processed. */
  lemma CerrarNodo(trie: seq<TrieNode>, labels: seq<string>, padre: seq<int>, cola0: seq<int>, cola: seq<int>, u: int)
    requires EsTrie(trie, labels, padre)
    requires AnchuraParcial(trie, labels, padre, cola0, cola, u, {})
    ensures Anchura(trie, labels, padre, cola)
  {
    assert HijosMarcados(trie, u);
    forall a, b | 0 <= a < b < |cola|
      ensures Prof(labels, cola[a]) <= Prof(labels, cola[b])
    {
      if a < |cola0| {
        assert cola[a] == cola0[a];
        if b < |cola0| {
          assert cola[b] == cola0[b];
        }
      }
    }
    if |cola| > 0 && |cola0| > 0 {
      assert cola[0] == cola0[0];
    }
  }

  // ---------------------------------------------------------------------
  // buscarMultiple

  /** A match starting at `i - longitud + 1`, for an output met at text index `i`. */
  function Reporte(o: Salida, i: int): CoincidenciaMultiple
  {
    CoincidenciaMultiple(o.patronId, i - o.longitud + 1)
  }

  /** One past the index where a match ends. */
  function Fin(patrones: seq<string>, m: CoincidenciaMultiple): int
  {
    if 0 <= m.patronId < |patrones| then m.posicion + |patrones[m.patronId]| else m.posicion
  }

  /** Every match from index `desde` on is a real occurrence ending at `i`. */
  ghost predicate NuevasValidas(texto: string, patrones: seq<string>, r: seq<CoincidenciaMultiple>, desde: int, i: int)
  {
    forall j :: 0 <= desde <= j < |r| ==>
      && 0 <= r[j].patronId < |patrones|
      && OccursAt(texto, patrones[r[j].patronId], r[j].posicion)
      && Fin(patrones, r[j]) == i + 1
  }

  /** Every output of node `w`, met at index `i`, has been reported. */
  ghost predicate Emitidas(trie: seq<TrieNode>, w: int, i: int, r: seq<CoincidenciaMultiple>)
    requires 0 <= w < |trie|
  {
    forall j :: 0 <= j < |trie[w].salidas| ==> Reporte(trie[w].salidas[j], i) in r
  }

  lemma EmitidasCrece(trie: seq<TrieNode>, w: int, i: int, r: seq<CoincidenciaMultiple>, r': seq<CoincidenciaMultiple>)
    requires 0 <= w < |trie| && Emitidas(trie, w, i, r)
    requires |r'| >= |r| && r'[..|r|] == r
    ensures Emitidas(trie, w, i, r')
  {
    forall j | 0 <= j < |trie[w].salidas|
      ensures Reporte(trie[w].salidas[j], i) in r'
    {
      var k :| 0 <= k < |r| && r[k] == Reporte(trie[w].salidas[j], i);
      assert r'[..|r|][k] == r'[k];
    }
  }

  /** The inner `for j` loop: one match per output, in order. */
  method ReportarSalidas(salidas: seq<Salida>, i: int, acc: seq<CoincidenciaMultiple>) returns (r: seq<CoincidenciaMultiple>)
    ensures |r| == |acc| + |salidas| && r[..|acc|] == acc
    ensures forall j :: 0 <= j < |salidas| ==> r[|acc| + j] == Reporte(salidas[j], i)
  {
    r := acc;
    var j := 0;
    while j < |salidas|
      invariant 0 <= j <= |salidas|
      invariant |r| == |acc| + j && r[..|acc|] == acc
      invariant forall k :: 0 <= k < j ==> r[|acc| + k] == Reporte(salidas[k], i)
    {
      r := r + [Reporte(salidas[j], i)];
      j := j + 1;
    }
  }

  /** Reporting the outputs of a node whose label ends the text read so far
      adds only real occurrences ending at `i`, and covers all its outputs. */
  lemma ReportarNodoValido(trie: seq<TrieNode>, labels: seq<string>, patrones: seq<string>, texto: string,
                           i: int, w: int, desde: int, acc: seq<CoincidenciaMultiple>, r: seq<CoincidenciaMultiple>)
    requires |trie| == |labels| && SalidasCorrectas(trie, labels, patrones)
    requires 0 <= i < |texto| && 0 <= w < |trie| && EsSufijo(labels[w], texto[..i + 1])
    requires 0 <= desde <= |acc| && NuevasValidas(texto, patrones, acc, desde, i)
    requires |r| == |acc| + |trie[w].salidas| && r[..|acc|] == acc
    requires forall j :: 0 <= j < |trie[w].salidas| ==> r[|acc| + j] == Reporte(trie[w].salidas[j], i)
    ensures NuevasValidas(texto, patrones, r, desde, i)
    ensures Emitidas(trie, w, i, r)
  {
    SufijoOcurre(labels[w], texto, i + 1);
    forall j | desde <= j < |r|
      ensures 0 <= r[j].patronId < |patrones|
      ensures OccursAt(texto, patrones[r[j].patronId], r[j].posicion)
      ensures Fin(patrones, r[j]) == i + 1
    {
      if j < |acc| {
        assert r[j] == r[..|acc|][j];
      } else {
        var o := trie[w].salidas[j - |acc|];
        assert r[|acc| + (j - |acc|)] == Reporte(o, i);
      }
    }
    forall j | 0 <= j < |trie[w].salidas|
      ensures Reporte(trie[w].salidas[j], i) in r
    {
      assert r[|acc| + j] == Reporte(trie[w].salidas[j], i);
    }
  }

  /** The reports from index `desde` on are pairwise different. */
  ghost predicate Distintas(r: seq<CoincidenciaMultiple>, desde: int)
  {
    forall a, b :: 0 <= desde <= a < b < |r| ==> r[a] != r[b]
  }

  /** Every report from index `desde` on names a pattern at least `n` long. */
  ghost predicate LargosDesde(patrones: seq<string>, r: seq<CoincidenciaMultiple>, desde: int, n: int)
  {
    forall j :: 0 <= desde <= j < |r| ==> 0 <= r[j].patronId < |patrones| && |patrones[r[j].patronId]| >= n
  }

  /** Reporting the outputs of node `w` after reports of strictly longer
      patterns keeps the reports of this step distinct: `w`'s outputs name
      distinct patterns, each exactly as long as `w`'s label. */
  lemma ReportarNodoDistinto(trie: seq<TrieNode>, labels: seq<string>, patrones: seq<string>,
                             i: int, w: int, desde: int, acc: seq<CoincidenciaMultiple>, r: seq<CoincidenciaMultiple>)
    requires |trie| == |labels| && SalidasCorrectas(trie, labels, patrones) && SalidasDistintas(trie)
    requires 0 <= w < |trie| && 0 <= desde <= |acc|
    requires Distintas(acc, desde) && LargosDesde(patrones, acc, desde, |labels[w]| + 1)
    requires |r| == |acc| + |trie[w].salidas| && r[..|acc|] == acc
    requires forall j :: 0 <= j < |trie[w].salidas| ==> r[|acc| + j] == Reporte(trie[w].salidas[j], i)
    ensures Distintas(r, desde) && LargosDesde(patrones, r, desde, |labels[w]|)
  {
    forall j | 0 <= j < |acc|
      ensures r[j] == acc[j]
    {
      assert r[..|acc|][j] == r[j];
    }
    forall a, b | desde <= a < b < |r|
      ensures r[a] != r[b]
    {
      if b >= |acc| {
        var ob := trie[w].salidas[b - |acc|];
        assert r[|acc| + (b - |acc|)] == Reporte(ob, i);
        if a >= |acc| {
          var oa := trie[w].salidas[a - |acc|];
          assert r[|acc| + (a - |acc|)] == Reporte(oa, i);
        }
      }
    }
    forall j | desde <= j < |r|
      ensures 0 <= r[j].patronId < |patrones| && |patrones[r[j].patronId]| >= |labels[w]|
    {
      if j >= |acc| {
        assert r[|acc| + (j - |acc|)] == Reporte(trie[w].salidas[j - |acc|], i);
      }
    }
  }

  /** Within one text index every report ends there, and across indices
      the ends differ: distinct reports per step give distinct reports overall. */
  lemma PasoDistinto(patrones: seq<string>, texto: string, i: int, r0: seq<CoincidenciaMultiple>, r: seq<CoincidenciaMultiple>)
    requires Distintas(r0, 0) && forall j :: 0 <= j < |r0| ==> Fin(patrones, r0[j]) <= i
    requires |r| >= |r0| && r[..|r0|] == r0
    requires NuevasValidas(texto, patrones, r, |r0|, i) && Distintas(r, |r0|)
    ensures Distintas(r, 0)
  {
    forall a, b | 0 <= a < b < |r|
      ensures r[a] != r[b]
    {
      if a < |r0| {
        assert r[a] == r[..|r0|][a];
        if b < |r0| {
          assert r[b] == r[..|r0|][b];
        } else {
          assert Fin(patrones, r[a]) <= i < Fin(patrones, r[b]);
        }
      }
    }
  }

  /** The next node on the failure chain of `x` covers every shorter node
      whose label ends `labels[x]`. */
  lemma CadenaSiguiente(trie: seq<TrieNode>, labels: seq<string>, padre: seq<int>, x: int, w: int)
    requires EsTrie(trie, labels, padre) && 0 < x < |trie| && FalloCorrecto(trie, labels, x)
    requires 0 <= w < |trie| && w != x && EsSufijo(labels[w], labels[x])
    ensures |labels[w]| <= |labels[trie[x].fallo]| && EsSufijo(labels[w], labels[trie[x].fallo])
  {
    SufijoPropio(labels[w], labels[x]);
    SufijosAnidados(labels[w], labels[trie[x].fallo], labels[x][1..]);
  }

  /** Reporting the outputs of node `w`, met at text index `i`, after the
      reports `r0` of this step (those from `desde` on) that name strictly
      longer patterns. */
  method ReportarNodo(trie: seq<TrieNode>, ghost labels: seq<string>, ghost patrones: seq<string>, ghost texto: string,
                      i: int, w: int, ghost desde: int, r0: seq<CoincidenciaMultiple>)
    returns (r: seq<CoincidenciaMultiple>)
    requires |trie| == |labels| && SalidasCorrectas(trie, labels, patrones) && SalidasDistintas(trie)
    requires 0 <= i < |texto| && 0 <= w < |trie| && EsSufijo(labels[w], texto[..i + 1])
    requires 0 <= desde <= |r0| && NuevasValidas(texto, patrones, r0, desde, i)
    requires Distintas(r0, desde) && LargosDesde(patrones, r0, desde, |labels[w]| + 1)
    ensures |r| >= |r0| && r[..|r0|] == r0
    ensures NuevasValidas(texto, patrones, r, desde, i) && Emitidas(trie, w, i, r)
    ensures Distintas(r, desde) && LargosDesde(patrones, r, desde, |labels[w]|)
  {
    r := r0;
    if |trie[w].salidas| > 0 {
      r := ReportarSalidas(trie[w].salidas, i, r0);
      ReportarNodoValido(trie, labels, patrones, texto, i, w, desde, r0, r);
      ReportarNodoDistinto(trie, labels, patrones, i, w, desde, r0, r);
    }
  }

  /** Reporting at text index `i` in state `estado`: its own outputs, then
      those of every node on its failure chain before the root. The reports
      of the step are distinct. */
  method ReportarEstado(trie: seq<TrieNode>, ghost labels: seq<string>, ghost padre: seq<int>, ghost patrones: seq<string>,
                        ghost texto: string, i: int, estado: int, acc: seq<CoincidenciaMultiple>)
    returns (r: seq<CoincidenciaMultiple>)
    requires EsTrie(trie, labels, padre) && SalidasCorrectas(trie, labels, patrones) && Fallos(trie, labels)
    requires SalidasDistintas(trie)
    requires 0 <= i < |texto| && 0 <= estado < |trie| && EsSufijo(labels[estado], texto[..i + 1])
    ensures |r| >= |acc| && r[..|acc|] == acc
    ensures NuevasValidas(texto, patrones, r, |acc|, i)
    ensures forall w :: 0 < w < |trie| && EsSufijo(labels[w], labels[estado]) ==> Emitidas(trie, w, i, r)
    ensures Distintas(r, |acc|)
  {
    r := ReportarNodo(trie, labels, patrones, texto, i, estado, |acc|, acc);
    var estadoTemp := trie[estado].fallo;
    if estado != 0 {
      assert FalloCorrecto(trie, labels, estado);
      FalloMasCorto(trie, labels, estado);
      forall w | 0 < w < |trie| && EsSufijo(labels[w], labels[estado]) && |labels[w]| > |labels[estadoTemp]|
        ensures w == estado
      {
        if w != estado {
          CadenaSiguiente(trie, labels, padre, estado, w);
        }
      }
    }
    while estadoTemp != 0 && estadoTemp != -1
      invariant estadoTemp == -1 <==> estado == 0
      invariant estadoTemp != -1 ==> 0 <= estadoTemp < |trie| && EsSufijo(labels[estadoTemp], labels[estado])
      invariant |r| >= |acc| && r[..|acc|] == acc
      invariant NuevasValidas(texto, patrones, r, |acc|, i)
      invariant forall w ::
                  (0 < w < |trie| && EsSufijo(labels[w], labels[estado]) &&
                   (estadoTemp == -1 || |labels[w]| > |labels[estadoTemp]|)) ==> Emitidas(trie, w, i, r)
      invariant Distintas(r, |acc|)
      invariant estadoTemp != -1 ==> LargosDesde(patrones, r, |acc|, |labels[estadoTemp]| + 1)
      decreases if estadoTemp == -1 then 0 else |labels[estadoTemp]|
    {
      ghost var r0 := r;
      SufijoTrans(labels[estadoTemp], labels[estado], texto[..i + 1]);
      r := ReportarNodo(trie, labels, patrones, texto, i, estadoTemp, |acc|, r);
      assert r[..|acc|] == r0[..|r0|][..|acc|];
      var x := estadoTemp;
      assert FalloCorrecto(trie, labels, x);
      FalloMasCorto(trie, labels, x);
      estadoTemp := trie[x].fallo;
      SufijoTrans(labels[estadoTemp], labels[x], labels[estado]);
      forall w | 0 < w < |trie| && EsSufijo(labels[w], labels[estado]) && |labels[w]| > |labels[estadoTemp]|
        ensures Emitidas(trie, w, i, r)
      {
        if |labels[w]| > |labels[x]| {
          EmitidasCrece(trie, w, i, r0, r);
        } else if w != x {
          SufijosAnidados(labels[w], labels[x], labels[estado]);
          CadenaSiguiente(trie, labels, padre, x, w);
        }
      }
    }
  }

  /** Every occurrence of a non-empty pattern ending before index `e` is reported. */
  ghost predicate CompletasHasta(texto: string, patrones: seq<string>, r: seq<CoincidenciaMultiple>, e: int)
  {
    forall k, s :: 0 <= k < |patrones| && |patrones[k]| > 0 && OccursAt(texto, patrones[k], s) && s + |patrones[k]| <= e ==>
      CoincidenciaMultiple(k, s) in r
  }

  /** Reports are in non-decreasing order of end index. */
  ghost predicate Ordenadas(patrones: seq<string>, r: seq<CoincidenciaMultiple>)
  {
    forall a, b :: 0 <= a < b < |r| ==> Fin(patrones, r[a]) <= Fin(patrones, r[b])
  }

  /** Each reported match is a real occurrence of the pattern it names. */
  ghost predicate Validas(texto: string, patrones: seq<string>, r: seq<CoincidenciaMultiple>)
  {
    forall j :: 0 <= j < |r| ==> 0 <= r[j].patronId < |patrones| && OccursAt(texto, patrones[r[j].patronId], r[j].posicion)
  }

  /** Step `i` of the scan keeps the reports valid, ordered and complete. */
  lemma PasoBusqueda(trie: seq<TrieNode>, labels: seq<string>, padre: seq<int>, patrones: seq<string>, nodoDe: seq<int>,
                     texto: string, i: int, estado: int, r0: seq<CoincidenciaMultiple>, r: seq<CoincidenciaMultiple>)
    requires EsTrie(trie, labels, padre) && |nodoDe| == |patrones| && TodosInsertados(trie, labels, patrones, nodoDe, |patrones|)
    requires 0 <= i < |texto| && SufijoMasLargo(labels, estado, texto[..i + 1])
    requires Validas(texto, patrones, r0) && Ordenadas(patrones, r0) && CompletasHasta(texto, patrones, r0, i)
    requires forall j :: 0 <= j < |r0| ==> Fin(patrones, r0[j]) <= i
    requires |r| >= |r0| && r[..|r0|] == r0 && NuevasValidas(texto, patrones, r, |r0|, i)
    requires forall w :: 0 < w < |trie| && EsSufijo(labels[w], labels[estado]) ==> Emitidas(trie, w, i, r)
    ensures Validas(texto, patrones, r) && Ordenadas(patrones, r) && CompletasHasta(texto, patrones, r, i + 1)
    ensures forall j :: 0 <= j < |r| ==> Fin(patrones, r[j]) <= i + 1
  {
    forall j | 0 <= j < |r0|
      ensures r[j] == r0[j]
    {
      assert r[..|r0|][j] == r[j];
    }
    forall k, s | 0 <= k < |patrones| && |patrones[k]| > 0 && OccursAt(texto, patrones[k], s) && s + |patrones[k]| <= i + 1
      ensures CoincidenciaMultiple(k, s) in r
    {
      if s + |patrones[k]| <= i {
        var j :| 0 <= j < |r0| && r0[j] == CoincidenciaMultiple(k, s);
        assert r[j] == r0[j];
      } else {
        var w := nodoDe[k];
        OcurrenciaEsSufijo(patrones[k], texto, s);
        assert EsSufijo(labels[w], texto[..i + 1]);
        SufijosAnidados(labels[w], labels[estado], texto[..i + 1]);
        assert w != 0;
        assert Emitidas(trie, w, i, r);
        var j :| 0 <= j < |trie[w].salidas| && trie[w].salidas[j] == Salida(k, |patrones[k]|);
        assert Reporte(trie[w].salidas[j], i) == CoincidenciaMultiple(k, s);
      }
    }
  }

  /** `buscarMultiple`: every reported match is a real occurrence of the
      pattern it names; every occurrence of every non-empty pattern is
      reported, and reported once; reports come in non-decreasing order of
      end index. Nothing is reported for an empty pattern list or an empty text. */
  method BuscarMultiple(texto: string, patrones: seq<string>) returns (coincidencias: seq<CoincidenciaMultiple>)
    ensures |patrones| == 0 || |texto| == 0 ==> coincidencias == []
    ensures forall j :: 0 <= j < |coincidencias| ==>
              0 <= coincidencias[j].patronId < |patrones| &&
              OccursAt(texto, patrones[coincidencias[j].patronId], coincidencias[j].posicion)
    ensures forall k, s :: 0 <= k < |patrones| && |patrones[k]| > 0 && OccursAt(texto, patrones[k], s) ==>
              CoincidenciaMultiple(k, s) in coincidencias
    ensures forall a, b :: 0 <= a < b < |coincidencias| ==> Fin(patrones, coincidencias[a]) <= Fin(patrones, coincidencias[b])
    ensures forall a, b :: 0 <= a < b < |coincidencias| ==> coincidencias[a] != coincidencias[b]
  {
    coincidencias := [];
    var n := |texto|;
    if |patrones| == 0 || n == 0 {
      return;
    }
    var trie0, labels, padre, nodoDe := ConstruirTrieMultiple(patrones);
    var trie := ConstruirFallos(trie0, labels, padre);
    MismaFormaSalidas(trie, trie0, labels, patrones, nodoDe);
    MismaFormaDistintas(trie, trie0);
    var estado := 0;
    var i := 0;
    assert texto[..0] == [];
    while i < n
      invariant 0 <= i <= n
      invariant SalidasCorrectas(trie, labels, patrones)
      invariant SufijoMasLargo(labels, estado, texto[..i])
      invariant Validas(texto, patrones, coincidencias) && Ordenadas(patrones, coincidencias)
      invariant CompletasHasta(texto, patrones, coincidencias, i)
      invariant forall j :: 0 <= j < |coincidencias| ==> Fin(patrones, coincidencias[j]) <= i
      invariant SalidasDistintas(trie) && Distintas(coincidencias, 0)
    {
      var c := texto[i];
      assert texto[..i + 1] == texto[..i] + [c];
      estado := Transitar(trie, labels, padre, estado, c, texto[..i]);
      ghost var r0 := coincidencias;
      coincidencias := ReportarEstado(trie, labels, padre, patrones, texto, i, estado, coincidencias);
      PasoDistinto(patrones, texto, i, r0, coincidencias);
      PasoBusqueda(trie, labels, padre, patrones, nodoDe, texto, i, estado, r0, coincidencias);
      i := i + 1;
    }
    forall k, s | 0 <= k < |patrones| && |patrones[k]| > 0 && OccursAt(texto, patrones[k], s)
      ensures CoincidenciaMultiple(k, s) in coincidencias
    {
    }
  }

  /** One character of the scan: follow failure links from `estado` until a
      node has a `c` edge or the root is reached, then take the edge if any.
      The state spells the longest suffix of the text read that is in the trie. */
  method Transitar(trie: seq<TrieNode>, ghost labels: seq<string>, ghost padre: seq<int>, estado: int, c: char, ghost s: string)
    returns (siguiente: int)
    requires EsTrie(trie, labels, padre) && Fallos(trie, labels)
    requires SufijoMasLargo(labels, estado, s)
    ensures SufijoMasLargo(labels, siguiente, s + [c])
  {
    siguiente := estado;
    CaminarInicio(trie, labels, s, c, siguiente);
    while siguiente != 0 && c !in trie[siguiente].hijos
      invariant Caminando(trie, labels, s, c, siguiente)
      decreases |labels[siguiente]|
    {
      CaminarPaso(trie, labels, padre, s, c, siguiente);
      siguiente := trie[siguiente].fallo;
    }
    CaminarFin(trie, labels, padre, s, c, siguiente);
    if c in trie[siguiente].hijos {
      siguiente := trie[siguiente].hijos[c];
    }
  }

  /** `AhoCorasick::buscar`: the first reported position for the single
      pattern, or -1. For a non-empty pattern that is the leftmost
      occurrence, the same answer KMP and Rabin-Karp give. */
  method Buscar(texto: string, patron: string) returns (r: int)
    ensures |patron| > 0 ==> IsLeftmost(texto, patron, r)
  {
    var resultados := BuscarMultiple(texto, [patron]);
    if |resultados| == 0 {
      if |patron| > 0 {
        forall s | 0 <= s <= |texto| && OccursAt(texto, patron, s)
          ensures false
        {
        }
      }
      return -1;
    }
    r := resultados[0].posicion;
    if |patron| > 0 {
      assert OccursAt(texto, patron, r);
      forall s | 0 <= s < r && OccursAt(texto, patron, s)
          ensures false
      {
        var j :| 0 <= j < |resultados| && resultados[j] == CoincidenciaMultiple(0, s);
      }
    }
  }
}
