# Forensic DNA search: a verified model of the matching core

The system keeps a register of suspects (name, eight-digit cedula, DNA
string over A, T, C, G) and lets forensic experts ("peritos") search it for
DNA patterns. A Node.js backend ingests suspects in bulk from CSV uploads,
validates requests, writes the active suspects to a temporary CSV file and
runs a C++ engine on it. The engine parses the file, picks a string-matching
algorithm (KMP, Rabin-Karp or Aho-Corasick), runs it over every suspect and
prints a JSON report. The backend stores that report as a search record
together with the SHA-256 digest of the file the engine read.

This project models that core in Dafny, one module per source file:

| module | models |
|---|---|
| `Kmp`, `RabinKarp`, `AhoCorasick` | the three matching algorithms, as imperative methods with loop invariants, against the common specification in `Matching` (leftmost occurrence, or the set of all occurrences) |
| `AlgorithmSelector` | the selection rules and the names and reasons written into the report |
| `CsvParser` | the engine's CSV reader: `trim`, `dividirLinea`, `validarCadenaADN`, `parsear` over a sequence of lines |
| `JsonOutput` | JSON string escaping (RFC 8259, section 7) and the report and error objects, as JSON trees |
| `EngineMain` | `dividirPorComa`, the validation order of `main`, the average length and the single/multi-pattern dispatch |
| `SospechosoModel` | the suspect schema: `validarCadenaADN`, defaults, the pre-save hook, the `activo` filter |
| `SospechososController` | `cargaMasiva` (row classification and the upserts applied to a cedula-keyed store) and `listar` |
| `DnaEngineService` | `escaparCSV` (RFC 4180, section 2, rules 6 and 7), the temporary CSV content, `ejecutarComando` and the `ejecutarBusqueda` lifecycle over an abstract file store |
| `BusquedasController` | `normalizarPatrones`, `ejecutar` (checks, result mapping, fallbacks), `historial` and `obtenerDetalle` |
| `Validacion` | the express-validator chains as predicates over request bodies |
| `Upload` | the stored file name and the CSV/Excel file filter |
| `ErrorHandler` | `ErrorAPI` and the error → (status, message) classification |
| `Paginacion` | the page/limit/skip/totalPages arithmetic shared by `listar` and `historial` |
| `Wrappers`, `Text`, `JsText`, `JsValor`, `Adn`, `Matching` | shared vocabulary: `Option`/`Result`, join/split and digits, JavaScript `trim`/`lastIndexOf`/`slice`/`toLowerCase`, request-body values and truthiness, the DNA alphabet, occurrences |

Everything the code does outside its own logic is a parameter: the clock
(`ahora`, `marcaTiempo`, `duracionMs`), the random file-name suffix, the
engine process (`Entorno.motor`, returning an exit outcome), `JSON.parse`
(`Entorno.analizar`), SHA-256 (`Entorno.sha256`, an uninterpreted function),
file-write, hash-read and delete failures (`Entorno.escritura`,
`Entorno.lectura`, `Entorno.borrado`), the
date parser of `historial`, the e-mail check of the registration validator,
and the lines of the CSV file the engine opens (`Option<seq<string>>`, `None`
when it cannot be opened). The database is a sequence of documents or a map
keyed by cedula or id.

Across files the model proves that the backend and the engine agree:
`join(",")` followed by `dividirPorComa` is the identity on validated
patterns (`EngineMain.DividirUnir`, `Validacion.PatronesLleganAlMotor`);
the CSV the backend writes is read back by the engine as exactly the suspects
it was written from (`DnaEngineService.ContenidoSeLee`), once the cedula is
written as text (see Findings); and a report produced by `generarExito` is
stored field for field (`BusquedasController.RegistroDelInforme`,
`BusquedasController.CoincidenciasDelInforme`).

## Model

| member | source | states |
|---|---|---|
| Kmp.ConstruirTablaLPS | cpp-engine/src/algorithms/kmp.cpp:42-65 | the table has one entry per pattern character, starts with 0, and entry i is the length of the longest proper border of the first i+1 characters |
| Kmp.Buscar | cpp-engine/src/algorithms/kmp.cpp:3-40 | the result is the leftmost occurrence of the pattern, or -1 exactly when there is none; an empty pattern gives 0 and a pattern longer than the text gives -1 |
| Kmp.ShiftSkipsNoOccurrence | cpp-engine/src/algorithms/kmp.cpp:30-32 | falling back to the border after a mismatch skips only start positions where the pattern cannot occur |
| Kmp.Retroceder | cpp-engine/src/algorithms/kmp.cpp:30-32 | after a mismatch with `j` characters matched, moving `j` to the border length keeps the matched prefix aligned with the text and skips no start where the pattern occurs |
| Kmp.FallbackNoBorderAbove | cpp-engine/src/algorithms/kmp.cpp:55-56 | following the border chain while building the table never skips a longer border |
| RabinKarp.CharToInt | cpp-engine/src/algorithms/rabin_karp.cpp:62-70 | the digit is in 0..3 and is 0 exactly for 'A' and for characters outside the alphabet |
| RabinKarp.CharToIntInjectiveOnDna | cpp-engine/src/algorithms/rabin_karp.cpp:62-70 | distinct DNA bases get distinct digits |
| RabinKarp.CalcularHashIsPolyMod | cpp-engine/src/algorithms/rabin_karp.cpp:54-60 | the hash of a prefix is its base-4 value modulo 1000000007 and lies in [0, PRIMO) |
| RabinKarp.RollHash | cpp-engine/src/algorithms/rabin_karp.cpp:41-47 | rolling the window with C++ truncating `%` and the `+PRIMO` fix-up gives the hash of the next window |
| RabinKarp.FixUpIsResidue | cpp-engine/src/algorithms/rabin_karp.cpp:42-47 | truncating remainder plus the fix-up equals the mathematical residue, in [0, PRIMO) |
| RabinKarp.PowStep | cpp-engine/src/algorithms/rabin_karp.cpp:17-20 | each step of the `h` loop keeps `h == 4^k mod PRIMO` |
| RabinKarp.RollFitsInLongLong | cpp-engine/src/algorithms/rabin_karp.cpp:42 | the rolled expression never overflows a 64-bit `long long` |
| RabinKarp.Coincide | cpp-engine/src/algorithms/rabin_karp.cpp:27-33 | the character-by-character check holds exactly when the pattern occurs at that position |
| RabinKarp.Buscar | cpp-engine/src/algorithms/rabin_karp.cpp:4-52 | the same contract as KMP: leftmost occurrence or -1, empty pattern 0, pattern longer than text -1 |
| AhoCorasick.ConstruirTrieMultiple | cpp-engine/src/algorithms/aho_corasick.cpp:89-112 | the result is a well-formed trie whose node labels are the pattern prefixes, every pattern is inserted and its end node lists `(id, length)`, and no failure link is set yet |
| AhoCorasick.ConstruirFallos | cpp-engine/src/algorithms/aho_corasick.cpp:134-170 | the trie keeps its shape and every non-root node's failure link points to the node of its longest proper suffix present in the trie |
| AhoCorasick.HijosDeRaizFallanARaiz | cpp-engine/src/algorithms/aho_corasick.cpp:137-142 | children of the root fail to the root |
| AhoCorasick.FalloMasCorto | cpp-engine/src/algorithms/aho_corasick.cpp:153-165 | a failure link points to a strictly shorter suffix of the node's label |
| AhoCorasick.BuscarMultiple | cpp-engine/src/algorithms/aho_corasick.cpp:16-87 | no patterns or empty text gives no matches; every reported match is a true occurrence (sound); every occurrence of every non-empty pattern is reported (complete), and reported once; matches come in non-decreasing order of end position |
| AhoCorasick.Buscar | cpp-engine/src/algorithms/aho_corasick.cpp:4-13 | for a non-empty pattern the first reported position is the leftmost occurrence, or -1 when there is none |
| Matching.FirstOccurrence | cpp-engine/src/algorithms/kmp.cpp:3-40 | the independent reference: the leftmost occurrence, or -1 |
| Matching.LeftmostUnique | cpp-engine/src/main.cpp:157-169 | the leftmost occurrence is unique, so the three algorithms are interchangeable in `main` |
| AlgorithmSelector.Seleccionar | cpp-engine/src/utils/algorithm_selector.cpp:3-38 | two or more patterns select Aho-Corasick; for one pattern, Aho-Corasick exactly when 15 < length ≤ 30 and more than 1000 suspects, Rabin-Karp exactly when length > 30, KMP otherwise |
| AlgorithmSelector.QuinceVaAKmp | cpp-engine/src/utils/algorithm_selector.cpp:21-34 | length 15 with many suspects selects KMP: the first rule shadows the lower end of the fourth |
| AlgorithmSelector.ToString | cpp-engine/src/utils/algorithm_selector.cpp:40-51 | every name is one of the three names the search record accepts |
| AlgorithmSelector.ToStringBiyectiva | cpp-engine/src/utils/algorithm_selector.cpp:40-51 | the names are distinct and cover the three accepted names |
| AlgorithmSelector.ObtenerCriterio | cpp-engine/src/utils/algorithm_selector.cpp:53-80 | two or more patterns give the multi-pattern reason; otherwise the reason follows the algorithm |
| AlgorithmSelector.CriterioDeSeleccion | cpp-engine/src/utils/algorithm_selector.cpp:60-79 | for the selected algorithm, each of the four single-pattern reasons is reported exactly when its rule decided |
| CsvParser.Trim | cpp-engine/src/utils/csv_parser.cpp:127-142 | the result has no whitespace at either end and is no longer than the input |
| CsvParser.TrimUnico | cpp-engine/src/utils/csv_parser.cpp:127-142 | any whitespace-only cut of the input without whitespace at its ends is the trim (the trim is the unique such substring) |
| CsvParser.TrimIdempotente | cpp-engine/src/utils/csv_parser.cpp:127-142 | trimming twice is trimming once |
| CsvParser.TrimVacio | cpp-engine/src/utils/csv_parser.cpp:23 | a line trims to empty exactly when it is all whitespace |
| CsvParser.ValidarCadenaADN | cpp-engine/src/utils/csv_parser.cpp:89-101 | true exactly for a non-empty string over A, T, C, G; no length condition |
| CsvParser.Dividir | cpp-engine/src/utils/csv_parser.cpp:103-125 | at least one field, and no field contains `"` |
| CsvParser.DividirLinea | cpp-engine/src/utils/csv_parser.cpp:103-125 | the loop computes the quote-toggling split |
| CsvParser.DividirCuenta | cpp-engine/src/utils/csv_parser.cpp:103-125 | the number of fields is one more than the number of commas outside quotes |
| CsvParser.DividirSinComillas | cpp-engine/src/utils/csv_parser.cpp:103-125 | on a line without `"` the split is the plain split on `,` |
| CsvParser.UnirDividir | cpp-engine/src/utils/csv_parser.cpp:103-125 | on a line without `"`, joining the fields with `,` gives the line back |
| CsvParser.DividirCitado | cpp-engine/src/utils/csv_parser.cpp:111-118 | a quoted field without inner quotes is read as its text, commas included |
| CsvParser.ContieneOcurre | cpp-engine/src/utils/csv_parser.cpp:28-30 | the header test `find(...) != npos` holds exactly when the word occurs in the line |
| CsvParser.RevisarLineaAcepta | cpp-engine/src/utils/csv_parser.cpp:35-77 | a line is accepted exactly when it has three fields, trimmed name and cedula are non-empty and the trimmed DNA is valid with at least 20 bases; the record is the three trimmed fields |
| CsvParser.RevisarLinea | cpp-engine/src/utils/csv_parser.cpp:35-77 | an accepted record is valid and a rejection names the line's number |
| CsvParser.Parsear | cpp-engine/src/utils/csv_parser.cpp:7-87 | an unopenable file fails with its path; otherwise the first bad line decides the error, else the accepted records are returned unless there are none; a success is non-empty and every record is valid |
| CsvParser.LeerCsv | cpp-engine/src/utils/csv_parser.cpp:7-87 | the reader's result equals the loop-free description of `parsear` |
| CsvParser.PrimeraFallidaUnica | cpp-engine/src/utils/csv_parser.cpp:38-75 | only one line can be the first failing one, so the reported error is well defined |
| JsonOutput.EscaparCaracter | cpp-engine/src/utils/json_output.cpp:79-103 | the seven special characters become a two-character escape starting with `\`, every other character is kept |
| JsonOutput.EscaparLongitud | cpp-engine/src/utils/json_output.cpp:75-107 | the output is as long as the input plus one per special character, so lengths are equal exactly when there is none |
| JsonOutput.EscaparIdentidad | cpp-engine/src/utils/json_output.cpp:101-102 | a string without special characters is written unchanged |
| JsonOutput.DesescaparEscapar | cpp-engine/src/utils/json_output.cpp:75-107 | decoding the seven escapes recovers any input without other control characters |
| JsonOutput.ControlNoSeLee | cpp-engine/src/utils/json_output.cpp:101-102 | any text holding a raw control character other than the seven escapes to output that does not read back as a JSON string (RFC 8259, section 7) |
| JsonOutput.GenerarExito | cpp-engine/src/utils/json_output.cpp:5-56 | the report has `exito` true, `num_patrones` equal to the number of patterns and `total_coincidencias` equal to the number of matches |
| JsonOutput.LeerGenerarExito | cpp-engine/src/utils/json_output.cpp:5-56 | reading the report back recovers every argument, and it is not an error object |
| JsonOutput.GenerarError | cpp-engine/src/utils/json_output.cpp:58-73 | the error object has `exito` false |
| JsonOutput.LeerGenerarError | cpp-engine/src/utils/json_output.cpp:58-73 | reading it back recovers message, code and details, and it is not a report |
| EngineMain.Recortar | cpp-engine/src/main.cpp:23-28 | an all-blank item is dropped; a kept item has no space or tab at its ends and only characters of the item |
| EngineMain.DividirPorComa | cpp-engine/src/main.cpp:16-32 | every piece is non-empty, comma-free and without space or tab at its ends |
| EngineMain.DividirUnir | cpp-engine/src/main.cpp:16-32 | splitting the comma-join of clean patterns gives them back, in order |
| EngineMain.PrimerInvalido | cpp-engine/src/main.cpp:67-93 | finds the first pattern failing the alphabet or the 5..100 length check, with every earlier pattern valid |
| EngineMain.ValidarPatrones | cpp-engine/src/main.cpp:67-93 | the error reported is the one of the first invalid pattern, and none when all are valid |
| EngineMain.LongitudPromedio | cpp-engine/src/main.cpp:109-114 | the average is the floor of total length over count |
| EngineMain.PromedioValido | cpp-engine/src/main.cpp:109-114 | the average of valid patterns lies in 5..100 |
| EngineMain.BuscarUnPatron | cpp-engine/src/main.cpp:149-181 | one pattern: the loop's matches are, in suspect order, one per suspect containing the pattern, at its leftmost position, with id 0, whichever algorithm was selected |
| EngineMain.BuscarCon | cpp-engine/src/main.cpp:156-168 | whichever of the three algorithms the selector named runs, the position it returns is the leftmost occurrence of the pattern, or -1 when there is none |
| EngineMain.UnPatronCorrecto | cpp-engine/src/main.cpp:149-181 | each single-pattern match comes from a distinct suspect, in increasing order, and every suspect containing the pattern contributes |
| EngineMain.Convertidas | cpp-engine/src/main.cpp:137-146 | each result reads back from its match (pattern id and position), with the suspect's name and cedula and the pattern's text; distinct results give distinct matches, and real occurrences give real matches |
| EngineMain.BuscarVarios | cpp-engine/src/main.cpp:131-147 | several patterns: the matches are grouped by suspect in input order, every one is a real occurrence, every occurrence of every pattern is reported, no suspect's match appears twice, and with one suspect per cedula no match appears twice at all |
| EngineMain.SinFalloPrevio | cpp-engine/src/main.cpp:36-107 | reaching the search means three arguments, a non-empty list of valid patterns and a non-empty list of valid suspects |
| EngineMain.Principal | cpp-engine/src/main.cpp:34-210 | a failure before the search prints that error object and returns 1; otherwise it returns 0 with the report built from the selected algorithm, its reason, the number of suspects and the dispatched matches |
| EngineMain.CriterioSinEscapar | cpp-engine/src/main.cpp:123-126 | the reason strings pass through JSON output unescaped, as written unescaped |
| EngineMain.CodigoSinEscapar | cpp-engine/src/main.cpp:36-107 | the error codes need no escaping |
| SospechosoModel.ValidarCadenaADN | backend/src/models/Sospechoso.js:78-80 | true exactly for a string over A, T, C, G of at least 20 characters |
| SospechosoModel.MinusculaRechazada | backend/src/models/Sospechoso.js:79 | any lowercase letter makes the check fail |
| SospechosoModel.EsquemaYValidadorCoinciden | backend/src/models/Sospechoso.js:19-30 | a document the schema accepts has a chain the static `validarCadenaADN` accepts, and with its other fields in bounds the schema accepts it exactly when the static accepts its chain |
| SospechosoModel.Construir | backend/src/models/Sospechoso.js:3-62 | a new document has `activo` true and source 'Registro Nacional' unless given, a trimmed name, and the other fields as given |
| SospechosoModel.PreGuardar | backend/src/models/Sospechoso.js:69-75 | a save that modified the DNA sets its length and the update time; any other save changes nothing |
| SospechosoModel.GuardarCoherente | backend/src/models/Sospechoso.js:69-75 | saving keeps the stored length equal to the DNA length, and leaves the update time alone when the DNA did not change |
| SospechosoModel.ConActivo | backend/src/models/Sospechoso.js:47-50 | the `activo` filter keeps exactly the documents with that value, and everything when there is no filter |
| SospechososController.ClasificarFila | backend/src/controllers/sospechososController.js:35-51 | a row is accepted exactly when name, cedula and DNA (after the synonym lookup) are non-empty and the DNA passes the model's check; a rejection is numbered index + 2 and the missing-field reason wins over the DNA reason |
| SospechososController.OperacionDeFila | backend/src/controllers/sospechososController.js:52-75 | an accepted row's upsert is keyed by its cedula and sets name, DNA, its length, `activo` true, the default source, the user and the times; creation time is the batch time |
| SospechososController.Clasificar | backend/src/controllers/sospechososController.js:35-76 | each row gives exactly one error or one operation, errors are numbered, in row order, and every rejected row is listed |
| SospechososController.OperacionesEnOrden | backend/src/controllers/sospechososController.js:35-76 | the operations are those of the accepted rows, in row order, each row at most once |
| SospechososController.AplicarTodasClaves | backend/src/controllers/sospechososController.js:82 | the bulk write adds exactly the batch's cedulas and leaves every other record unchanged |
| SospechososController.UltimaGana | backend/src/controllers/sospechososController.js:52-82 | a cedula ends with the values of its last operation in the batch |
| SospechososController.Proyeccion | backend/src/controllers/sospechososController.js:52-82 | the final record of a cedula depends only on that cedula's operations, in order |
| SospechososController.ReaplicarIdempotente | backend/src/controllers/sospechososController.js:52-82 | applying the same batch twice is applying it once |
| SospechososController.ReaplicarNoInserta | backend/src/controllers/sospechososController.js:52-85 | re-applying a batch inserts nothing |
| SospechososController.CreadoSeConserva | backend/src/controllers/sospechososController.js:68-71 | an existing record keeps its creation time |
| SospechososController.CreadoAlInsertar | backend/src/controllers/sospechososController.js:68-71 | an inserted record gets the creation time of the operation that inserted it |
| SospechososController.InsertadosNuevas | backend/src/controllers/sospechososController.js:84 | the inserted count is the number of batch cedulas not already stored |
| SospechososController.CargaMasiva | backend/src/controllers/sospechososController.js:14-103 | a missing file or a parse error fails with no write; no valid row gives 400 and no write; otherwise the store is the batch applied in order, `totalProcesados` counts every parsed row and the errors are the row errors |
| SospechososController.CargaGuardaValidos | backend/src/controllers/sospechososController.js:47-82 | every cedula written by a successful upload holds an active record with a valid DNA and its length |
| SospechososController.FiltroActivoSelecciona | backend/src/controllers/sospechososController.js:112-113 | `?activo=true` lists exactly the active suspects, `?activo=false` exactly the inactive ones, any other value or none lists every document in stored order |
| SospechososController.Listar | backend/src/controllers/sospechososController.js:105-154 | every listed suspect is stored and matches the `activo` filter, the total counts the whole filtered set, page and limit are the query's after defaults and the 100 cap, `totalPages` is the ceiling of total over limit, and the page is exactly the `skip`/`limit` window of the filtered documents |
| SospechososController.ListarCompleto | backend/src/controllers/sospechososController.js:107-127 | every filtered suspect appears, at its offset, on page `i / limit + 1` |
| Paginacion.Pagina | backend/src/controllers/sospechososController.js:107 | the page is the query when positive, else 1 |
| Paginacion.Limite | backend/src/controllers/sospechososController.js:108 | the limit is the query capped at 100 when positive, else 20 |
| Paginacion.Saltar | backend/src/controllers/sospechososController.js:109 | skip is `(page-1)·limit` |
| Paginacion.TotalPaginas | backend/src/controllers/sospechososController.js:147 | totalPages is the ceiling of total over limit |
| Paginacion.Ventana | backend/src/controllers/sospechososController.js:123-129 | the page is the slice of at most `limit` results starting at skip |
| Paginacion.CadaResultadoEnSuPagina | backend/src/controllers/sospechososController.js:107-147 | every result appears on exactly one page, at position i mod limit of page i div limit + 1 |
| Paginacion.Paginar | backend/src/controllers/busquedasController.js:100-143 | page, limit and total are reported as computed, totalPages covers total exactly, and the items are the window at skip |
| ErrorHandler.Manejar | backend/src/middlewares/errorHandler.js:55-130 | expired and malformed tokens give 401; a duplicate key gives 400 naming the first key; a validation error gives 400 with the messages joined by ", "; a cast error gives 404; otherwise the error's status or 500; the message is never empty; a duplicate key without `keyValue` makes the handler itself throw |
| ErrorHandler.ErrorApiLlegaIntacto | backend/src/middlewares/errorHandler.js:19-28 | an ErrorAPI reaches the client with its own status and message |
| ErrorHandler.ValidacionListaMensajes | backend/src/middlewares/errorHandler.js:85-93 | a validation error's response is its messages joined in order |
| DnaEngineService.DuplicarComillas | backend/src/services/dnaEngineService.js:329 | doubling quotes adds one character per `"` |
| DnaEngineService.EscaparCSV | backend/src/services/dnaEngineService.js:322-333 | a value without `,`, `"` or newline is kept; otherwise it is quoted with its quotes doubled, |v| + count(`"`) + 2 long |
| DnaEngineService.EscaparDesescapar | backend/src/services/dnaEngineService.js:322-333 | stripping the outer quotes and collapsing `""` recovers the value (RFC 4180, section 2, rule 7) |
| DnaEngineService.CampoSeLee | backend/src/services/dnaEngineService.js:322-333 | the engine's `dividirLinea` reads an escaped field without `"` back as the value |
| DnaEngineService.ComillaSePierde | backend/src/services/dnaEngineService.js:329 | a field with `"` does not survive: the engine drops its quotes |
| DnaEngineService.TerminadasJoin | backend/src/services/dnaEngineService.js:187-198 | the body is the lines joined by newline with a final newline |
| DnaEngineService.EscaparValor | backend/src/services/dnaEngineService.js:322-324 | a string value escapes to a field that unquotes back to it; a number makes `valor.includes` throw, whatever its value |
| DnaEngineService.ContenidoComoEscritoFalla | backend/src/services/dnaEngineService.js:187-198 | the content as written fails for every non-empty list of suspects, because the cedula is a number |
| DnaEngineService.ContenidoCorregido | backend/src/services/dnaEngineService.js:187-198 | with the cedula written as text, the content is the header followed by one terminated line per suspect |
| DnaEngineService.LineaSeLee | backend/src/services/dnaEngineService.js:193-197 | a suspect's line is accepted by the engine's reader and yields that suspect |
| DnaEngineService.ContenidoLineas | backend/src/services/dnaEngineService.js:187-198 | reading the content line by line gives the header then each suspect's line |
| DnaEngineService.ContenidoSeLee | backend/src/services/dnaEngineService.js:187-198 | the engine's parser reads the written file back as exactly the suspects, in order |
| DnaEngineService.CausaIndiferente | backend/src/services/dnaEngineService.js:249-262 | every `exec` error (non-zero exit, timeout, buffer overflow, failed start) ends the search the same way given the same message: the engine-prefixed message under the search prefix |
| DnaEngineService.Basename | backend/src/services/dnaEngineService.js:129 | the base name has no `/` and is a suffix of the path |
| DnaEngineService.BasenameDeRuta | backend/src/services/dnaEngineService.js:170-176 | the base name of the joined temporary path is the generated file name |
| DnaEngineService.EjecutarBusqueda | backend/src/services/dnaEngineService.js:41-145 | only the temporary file may change and it is gone afterwards unless a delete failed; success exactly when the write, the engine, the parse, the hash step's read and the delete succeed; the result is the engine JSON, the digest of the file the engine read and its base name; every error carries the search prefix, an engine error also the engine prefix |
| DnaEngineService.EjecutarArchivos | backend/src/services/dnaEngineService.js:59-140 | the search touches only its temporary file, which is gone afterwards unless a delete failed |
| DnaEngineService.EjecutarExito | backend/src/services/dnaEngineService.js:90-130 | success exactly when the write, the engine, the parse, the read and the delete succeed, with the engine JSON, the digest of the file written and its base name |
| DnaEngineService.EjecutarFallo | backend/src/services/dnaEngineService.js:132-144 | every failure carries the search prefix, and an engine failure also the engine prefix |
| DnaEngineService.NombreDeLaTraza | backend/src/services/dnaEngineService.js:126-130 | the recorded file name is the generated `sospechosos_<timestamp>_<random>.csv` |
| DnaEngineService.SinAnalisisTrasFallo | backend/src/services/dnaEngineService.js:90-103 | after an engine error stdout is never parsed |
| DnaEngineService.BusquedaComoEscritaFalla | backend/src/services/dnaEngineService.js:194 | as written, every search with suspects fails before any file is written |
| BusquedasController.Primera | backend/src/controllers/busquedasController.js:14 | the index of the first occurrence of a value |
| BusquedasController.SinDuplicados | backend/src/controllers/busquedasController.js:14 | `[...new Set(xs)]` has no repetitions and the same members |
| BusquedasController.SinDuplicadosOrden | backend/src/controllers/busquedasController.js:14 | it keeps the order of first occurrences |
| BusquedasController.SinDuplicadosPrimero | backend/src/controllers/busquedasController.js:14 | the first element is kept first |
| BusquedasController.SinDuplicadosIdentidad | backend/src/controllers/busquedasController.js:14 | a list without repetitions is unchanged |
| BusquedasController.Tomados | backend/src/controllers/busquedasController.js:9-13 | only non-blank strings are taken, trimmed |
| BusquedasController.NormalizarPatrones | backend/src/controllers/busquedasController.js:6-15 | a truthy non-string `patron` throws a TypeError; otherwise the list has no repetitions and holds exactly the collected patterns, the trimmed `patron` first when present, and every entry taken from `patrones` non-empty and trimmed |
| BusquedasController.NormalizarOrigen | backend/src/controllers/busquedasController.js:6-15 | a value is in the list exactly when it is the trimmed `patron` or a trimmed non-blank string of `patrones`, in first-occurrence order |
| BusquedasController.ActivosSonLosActivos | backend/src/controllers/busquedasController.js:37-39 | the engine receives exactly the active suspects, in stored order |
| BusquedasController.Ejecutar | backend/src/controllers/busquedasController.js:26-96 | a TypeError, no patterns (400) or no active suspect (400) fail before any file is touched; a search is recorded exactly when the service succeeds and the engine reports `exito`; the record carries the user, the time, the digest of the file the engine read, its name and the case number; only the temporary file may change |
| BusquedasController.EjecutarRespuestas | backend/src/controllers/busquedasController.js:28-49 | a failed search answers 400 exactly for no patterns or no active suspects, and 500 otherwise |
| BusquedasController.EjecutarComoEscritoFalla | backend/src/controllers/busquedasController.js:37-45 | as written, every request that passes the checks answers 500 with the cedula TypeError and writes no file |
| BusquedasController.GuardadaDelMotor | backend/src/controllers/busquedasController.js:51-59 | a stored match copies name, cedula, `patron_id`, pattern and position |
| BusquedasController.RegistroDelInforme | backend/src/controllers/busquedasController.js:61-76 | from an engine report, the record takes the pattern count, algorithm, reason, number processed, match count and time |
| BusquedasController.CoincidenciasDelInforme | backend/src/controllers/busquedasController.js:51-59 | the stored matches equal the engine's, field for field, in order |
| BusquedasController.Seleccion | backend/src/controllers/busquedasController.js:125-131 | exactly the searches passing the filter |
| BusquedasController.SeleccionDescendente | backend/src/controllers/busquedasController.js:127 | filtering keeps the newest-first order |
| BusquedasController.Historial | backend/src/controllers/busquedasController.js:98-149 | only an unreadable date fails, with its error; every shown search is stored and passes the filter; the total counts the whole selection; page and limit are the query's after defaults, `totalPages` is the ceiling of total over limit, and the page is exactly the `skip`/`limit` window of the selection |
| BusquedasController.FiltroHistorial | backend/src/controllers/busquedasController.js:104-118 | a bad `desde` date is reported before a bad `hasta` date; a perito only ever sees its own searches; the date bounds hold |
| BusquedasController.HistorialAdminCompleto | backend/src/controllers/busquedasController.js:106-110 | an admin without filters counts every search |
| BusquedasController.HistorialDescendente | backend/src/controllers/busquedasController.js:125-130 | the page is newest first when the stored order is |
| BusquedasController.ObtenerDetalle | backend/src/controllers/busquedasController.js:151-173 | an unknown id gives 404; a perito asking for another user's search gets 403; otherwise the stored search is returned |
| BusquedasController.DetalleHuerfano | backend/src/controllers/busquedasController.js:162 | a perito sees another user's search exactly when that user no longer exists |
| Validacion.LongitudSinSelectores | backend/src/middlewares/validacion.js:19 | `isLength` counts every character of a string without variation selectors |
| Validacion.SoloPatronLlegaAlMotor | backend/src/middlewares/validacion.js:58-68 | a valid body with only `patron` normalises to that one trimmed pattern, which the engine accepts and splits back unchanged |
| Validacion.PatronesLleganAlMotor | backend/src/middlewares/validacion.js:63-66 | a valid body with only `patrones` normalises to a non-empty list of patterns the engine accepts and splits back unchanged |
| Validacion.TomadosValidados | backend/src/middlewares/validacion.js:64-66 | every entry of a validated array is a pattern the engine accepts |
| Validacion.PatronSinValidar | backend/src/middlewares/validacion.js:60 | with `patrones` present `patron` is not validated: a numeric `patron` passes and then answers 500 with a TypeError |
| Validacion.PatronInvalidoLlegaAlMotor | backend/src/middlewares/validacion.js:60 | with `patrones` present an invalid `patron` passes validation and leads the list sent to the engine |
| Validacion.PatronMinusculaRechazado | backend/src/middlewares/validacion.js:61-65 | a pattern with a lowercase letter is rejected, in `patron` and in `patrones` |
| Validacion.CadenaValidadorSuperconjunto | backend/src/middlewares/validacion.js:38-40 | the request DNA rule accepts everything the model accepts, and also lowercase strings the model rejects |
| Validacion.CedulaDeOchoCifras | backend/src/middlewares/validacion.js:36-37 | an accepted cedula is an integer in the range, eight digits long |
| Validacion.CedulaConSigno | backend/src/middlewares/validacion.js:37 | `isInt` also accepts a leading `+`, so the text of an accepted cedula can be nine characters |
| Validacion.CreacionCumpleEsquema | backend/src/middlewares/validacion.js:33-43 | a validated creation body with upper-case DNA builds a document with a non-empty name, a cedula in range and a DNA the model accepts; the schema accepts it exactly when the name has at most 200 characters, and always when the name has no variation selector |
| Validacion.ActualizacionComoCreacion | backend/src/middlewares/validacion.js:45-56 | with all required fields present and no `activo`, the update rules equal the creation rules; the empty body is a valid update |
| Validacion.ActivoNoBooleano | backend/src/middlewares/validacion.js:55 | a present `activo` that does not read as "true", "false", "1" or "0" fails the update, whatever the other fields hold |
| Validacion.ActivoSoloBooleano | backend/src/middlewares/validacion.js:55 | an update carrying only `activo` passes exactly when it reads as one of those four spellings |
| Validacion.PaginacionSinAjuste | backend/src/middlewares/validacion.js:70-73 | validated page and limit are used as given by the controllers, and a limit of 500 is refused rather than capped |
| Validacion.PrimeraLinea | backend/src/middlewares/validacion.js:24 | the lookaheads see the input up to its first line terminator |
| Validacion.ContrasenaCompuesta | backend/src/middlewares/validacion.js:22-24 | an accepted password has at least 8 characters, a lowercase letter, an uppercase letter and a digit |
| Validacion.MayusculaTrasSalto | backend/src/middlewares/validacion.js:24 | an uppercase letter only after a line break does not count |
| Upload.Sanear | backend/src/middlewares/upload.js:16 | same length, only `[a-zA-Z0-9_.-]`, allowed characters kept in place |
| Upload.SanearIdentidad | backend/src/middlewares/upload.js:16 | a name of allowed characters is unchanged |
| Upload.SanearIdempotente | backend/src/middlewares/upload.js:16 | sanitising twice is sanitising once |
| Upload.SanearReemplaza | backend/src/middlewares/upload.js:16 | every other character becomes `_` |
| Upload.NombreGuardadoSeLee | backend/src/middlewares/upload.js:14-18 | the stored name has no `/`, and splits at its first `_` into the timestamp and the sanitised name |
| Upload.Filtrar | backend/src/middlewares/upload.js:21-36 | a refusal carries the CSV-or-Excel message |
| Upload.ExtensionDesdeUltimoPunto | backend/src/middlewares/upload.js:29 | the extension is the lower-cased text from the last `.` |
| Upload.SinPuntoSoloPorMimetype | backend/src/middlewares/upload.js:29-31 | a name without `.` is accepted exactly when its mimetype is allowed |
| Upload.ExtensionSinCaso | backend/src/middlewares/upload.js:29-31 | `X.CSV` is accepted whatever the mimetype |
| Upload.DobleExtension | backend/src/middlewares/upload.js:29-31 | `X.csv.exe` is accepted exactly when its mimetype is allowed |
| Text.JoinSplit | backend/src/services/dnaEngineService.js:68 | splitting on a separator and joining with it gives the string back |
| Text.SplitJoin | backend/src/services/dnaEngineService.js:68 | joining separator-free parts and splitting gives the parts back |
| JsText.Trim | backend/src/controllers/busquedasController.js:8 | `String.prototype.trim` leaves no white space or line terminator at either end |
| JsText.LastIndexOf | backend/src/middlewares/upload.js:29 | the last index of the character, or -1 |
| JsText.SliceFrom | backend/src/middlewares/upload.js:29 | `slice` gives a suffix of the string, and the start fixes only its length: the length less `i` for a start inside the string, nothing past the end, the last `-i` characters (at most all) for a negative start |

## Left out

- I/O and processes: file reads and writes, `child_process.exec` with its timeout and buffer limit, the shell command string, stderr logging, directory creation and multer's size limit. Their outcomes are parameters: for the search these are the write, read and delete errors and the engine's exit, with a read that succeeds returning the written content.
- SHA-256 (FIPS 180-4) is an uninterpreted function; only the argument it is applied to is stated.
- Clocks and randomness (`Date.now`, `Math.random`, `std::chrono`) are parameters.
- MongoDB and Mongoose: queries, `bulkWrite`, `countDocuments`, `populate`, indexes and driver counters such as `modifiedCount` (`actualizados`). Storage is a sequence or a map. `historial` takes the collection already sorted newest first. The unique index on cedula is the map key.
- The `casoNumero` and `q` regular-expression filters of `historial` and `listar` are not modelled.
- The schema validation Mongoose runs inside `Busqueda.create` is not modelled, and `backend/src/models/Busqueda.js` is not part of this model.
- The CRUD handlers `obtener`, `crear`, `actualizar` and `eliminar` of the suspects controller are not modelled beyond the schema defaults and the pre-save hook they rely on.
- `csv-parse` is not modelled; `cargaMasiva` takes the parsed rows. Duplicate column names are not modelled.
- The Mongoose cast of a cedula to Number is not modelled: the bulk-upload store is keyed by cedula text.
- `validarLogin`, `validarId` (`isMongoId`) and `manejarErrores` (the list of messages) are not modelled.
- `isEmail` and `normalizeEmail` are a parameter of the registration check.
- `toLowerCase` is modelled on ASCII only.
- Lengths are counted in code points rather than UTF-16 units. `Upload.Sanear` therefore writes one `_` for a character outside the Basic Multilingual Plane, where the source writes two (one per surrogate).
- Array-valued body fields are read as absent by the string validators (`ComoCadena` gives none), so such bodies are invalid in the model.
- Body fields of `ejecutar` other than the patterns are optional strings.
- Numbers in request bodies are integers; floats and exponents are not modelled. JSON `null` is the value `JsValor.Nulo`, which the validators read as the empty string.
- The engine's JSON is a tree: layout, `null` and duplicate keys are not modelled. `JSON.parse` is a parameter.
- The `UNEXPECTED_ERROR` catch in `main` is not modelled: with files as line sequences no exception escapes.
- The `longitudTotal` `int` overflow in `main` is not modelled: patterns are at most 100 long.
- `AhoCorasick::construirTrie` (the single-pattern builder) is not modelled, because nothing calls it.
- AhoCorasick.Buscar: an empty pattern is not covered, because `main` never passes one.
- `path.join` normalisation is not modelled: the path is `dir + "/" + name`.
- Paginacion.Pagina, Paginacion.Limite, SospechososController.Listar: fractional query values are not modelled. `GET /sospechosos` has no pagination validator, so `Number(req.query.page)` and `Number(req.query.limit)` can be fractional there (`?limit=0.5` reports twice as many pages as items, `?page=1.5` skips half a page). The model reads the query as an optional integer, because floating point is outside it.
- SospechososController.Listar: the `.sort({ createdAt: -1 })` of `listar` (sospechososController.js:125) is not modelled, because the document carries no creation date; the documents are taken in the order the store returns them sorted, and the window is stated over that order.
- SospechosoModel.Construir: the 200-character name limit is not checked. The validator's `isLength` ignores variation selectors and the schema does not, so `Validacion.CreacionCumpleEsquema` states the schema only up to the name bound.
- Chunked or parallel ingestion is not modelled: the source has none.

## Findings

| source | as written | input that shows it | evidently intended | confidence | as-written member | corrected member |
|---|---|---|---|---|---|---|
| backend/src/services/dnaEngineService.js:194 | `escaparCSV(sospechoso.cedula)` calls `valor.includes`, but the cedula is a `Number` in the schema (backend/src/models/Sospechoso.js:11-17) and `.lean()` returns it as a JavaScript number, so the call throws a TypeError. Every search with at least one active suspect therefore fails with 500 before the engine runs (backend/src/controllers/busquedasController.js:37-45). | any active suspect, e.g. cedula 12345678 | write the cedula as text (`String(cedula)`) and then escape it | not executed | DnaEngineService.BusquedaComoEscritaFalla | DnaEngineService.ContenidoCorregido |
