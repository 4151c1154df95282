# Author catalog query service — Dafny model

The service keeps a catalog of authors (`autor_nombre`, `autor_apellido`, and
their works `obras`, each with an edition year `edicion`) in memory. At startup it
sorts the catalog once, in place, by surname with Spanish locale collation. After
that it answers five read-only HTTP lookups:

- the whole catalog;
- authors by surname;
- authors by name and surname;
- authors by name, optionally narrowed by a surname prefix;
- works by edition year.

The author lookups ignore case, and an author lookup that matches nothing answers a
404 with the fixed message `Autor no encontrado`. The year lookup that matches
nothing answers a 404 whose message contains the year. The whole-catalog listing
never answers 404.

The model has six modules:

- `Wrappers`: `Option`, used for an absent query parameter and for NaN.
- `Text`: `toLowerCase` (`Lower`), `startsWith` (`StartsWith`), `parseInt`
  (`ParseInt`) and the decimal text of a number (`IntToString`), with the round trip
  between the last two.
- `Seqs`: `Array.prototype.filter` (`Filter`) and the order-preserving subsequence
  relation, with lemmas about both.
- `Catalog`: the `Autor` and `Obra` records and the startup sort. The sort is an
  in-place insertion sort over an `array`. It is proved sorted and a permutation
  under any comparator that is a total preorder.
- `Queries`: the handlers, as pure functions of the catalog and the request
  parameters. Each returns `Found(items)` or `NotFound(msg)`. Lemmas state
  case-insensitivity, how the prefix narrows the name lookup, the surname order of
  the answers, the per-author form of the year lookup, and the year inside its
  404 message.
- `Scenarios`: concrete requests against a one-author catalog.

`localeCompare(..., 'es-ES')` is a parameter `collate: (string, string) -> int`.
The model only requires that `collate(x, y) <= 0` is total and transitive.
The catalog file is an input sequence (`Catalog.Load`), not a file read.

Two behaviours of the code are modelled as written:

- The surname 404 does not echo the query. Every author lookup answers with the
  fixed text `Autor no encontrado`.
- A year that does not parse is not a separate error. `parseInt` gives NaN, NaN
  equals no edition, and the answer is the ordinary 404, whose message reads
  `No se encontraron obras del año NaN`.

`ListAll` is a pure function of the catalog, and nothing writes the catalog after
`Load`. So two calls always give the same answer.

## Model

| member | source | states |
|---|---|---|
| Catalog.SortBySurname | src/index.js:16 | afterwards every author may come before every later author by surname under `collate`, in particular each consecutive pair, and the array holds the same records as before (a permutation) |
| Catalog.Load | src/index.js:13-16 | the catalog built from the loaded records is sorted by surname and is a permutation of them |
| Queries.ListAll | src/index.js:27-29 | `/api` always answers with the catalog itself, in its loaded order, even when it is empty (never a 404) |
| Queries.FindBySurname | src/index.js:32-39 | an author is in the answer iff it is in the catalog and its lowered surname equals the lowered query; each matching record appears as often as in the catalog, and the answer keeps catalog order, so the answer is fully determined; it is a 404 `Autor no encontrado` exactly when no author matches |
| Queries.FindByNameAndSurname | src/index.js:42-53 | an author is in the answer iff both its lowered name and its lowered surname equal the lowered queries; each match appears as often as in the catalog, in catalog order; empty answer is the 404 `Autor no encontrado` |
| Queries.FindByName | src/index.js:56-78 | an author is in the answer iff its lowered name equals the lowered query and, when `apellido` is present and non-empty, its lowered surname starts with the lowered `apellido`; each match appears as often as in the catalog, in catalog order; empty answer is the 404 `Autor no encontrado` |
| Queries.AllWorks | src/index.js:83 | the flattened works are exactly the works of some author of the catalog, and their number is the total number of works |
| Queries.AllWorksAppend | src/index.js:83 | flattening a catalog split in two is flattening each part and joining the results; with `Queries.AllWorksSingle` this pins `flatMap` to each author's works joined in catalog order, repeats kept |
| Queries.AllWorksSingle | src/index.js:83 | one author flattens to exactly its own `obras` |
| Queries.FindByEditionYear | src/index.js:81-89 | a work is in the answer iff the year parses and the work, belonging to some author, has that edition; the answer has as many works as the catalog has works of that year; an unparseable year is a 404; the 404 message is `No se encontraron obras del año ` followed by the year's text |
| Queries.SurnameQueryCaseInsensitive | src/index.js:33-34 | two surname queries with the same lowered form get the same answer, and a query and its lowered form get the same answer |
| Queries.NameAndSurnameQueryCaseInsensitive | src/index.js:43-47 | the same for the name and surname lookup, on both parameters |
| Queries.NameQueryCaseInsensitive | src/index.js:57-71 | the same for the name lookup, with and without a prefix |
| Queries.PrefixNarrowsNameQuery | src/index.js:60-72 | the answer with a prefix is an order-preserving part of the answer without one, and a hit with a prefix implies a hit without |
| Queries.LongerPrefixNarrowsNameQuery | src/index.js:68-72 | when one lowered prefix extends another, the longer prefix's answer is an order-preserving part of the shorter one's: the match is a plain prefix test, and the prefix's length (`letras`) bounds nothing |
| Queries.EmptyPrefixMatchesEveryone | src/index.js:60-72 | if the empty prefix were matched rather than treated as absent, the answer would be the same as without a prefix |
| Queries.AnswersAreSorted | src/index.js:16-78 | over a catalog sorted by surname, the listing and every author lookup answer in surname order |
| Queries.EditionYearByAuthor | src/index.js:83 | the flat answer equals each author's works of that year concatenated author by author in catalog order, so filtering the flattened list is filtering each list and then flattening |
| Queries.CountFlattened | src/index.js:83-85 | the number of works the year filter keeps is the number of works of that year summed over the authors, and zero for NaN |
| Queries.NotFoundMessageNamesYear | src/index.js:82-86 | a year 404 message begins with the fixed text; parsing the rest gives back the parsed year; for NaN the rest is `NaN` |
| Queries.Respond | src/index.js:35-38 | an empty filter result is exactly the case answered with a 404 carrying the handler's message; otherwise the answer is the filter result itself (the same branch at lines 49-52, 62-65, 74-77 and 85-88) |
| Queries.EditionIs | src/index.js:83 | `obra.edicion === year`: with a NaN year no work matches; with a number, a work matches exactly when its edition equals it |
| Seqs.Filter | src/index.js:34 | the kept elements are exactly those satisfying the predicate, in original order (a subsequence) |
| Seqs.FilterMultiplicity | src/index.js:34 | a kept element occurs as often as in the input, and a dropped one not at all |
| Seqs.FilterConcat | src/index.js:83 | filtering a concatenation is concatenating the filtered parts |
| Text.Lower | src/index.js:33 | lowering keeps the length, leaves no upper-case letter and leaves lower-case text unchanged (so it is idempotent) |
| Text.StartsWith | src/index.js:71 | `startsWith` holds exactly when the prefix is no longer than the string and agrees with it character by character |
| Text.IntToString | src/index.js:86 | the decimal text of the year in the 404 message starts with `-` exactly for negative years, and the rest is a non-empty run of digits with no leading zero (so 1967 is written `1967`); `Text.ParseIntOfIntToString` gives its round trip |
| Text.ParseInt | src/index.js:82 | the parse yields a number exactly when digits follow the optional sign |
| Text.ParseIntOfIntToString | src/index.js:82-86 | parsing the decimal text of any integer gives the integer back, also when non-digit text follows it |
| Scenarios.EditionYearScenario | src/index.js:81-89 | in a catalog with one author whose works are of 1967 and 1985, year `1967` answers exactly the 1967 work |
| Scenarios.UnparseableYearScenario | src/index.js:82-86 | year `abc` answers the 404 `No se encontraron obras del año NaN` |
| Scenarios.NamePrefixScenario | src/index.js:68-77 | name `Gabriel` with prefix `Gar` finds García Márquez |
| Scenarios.UnknownSurnameScenario | src/index.js:33-37 | surname `zzznoexist` answers the 404 `Autor no encontrado` |
| Scenarios.AccentedSurnameScenario | src/index.js:33-34 | `GARCÍA MÁRQUEZ` and `garcía márquez` get the same answer, the author |

## Left out

- HTTP plumbing is not modelled: Express routing, `res.json`, `res.send`, `sendFile`, static files, the `/` page and the 404 fallback page (src/index.js:19-24, 92). They are transport I/O. `Found` stands for a JSON answer and `NotFound` for a 404 with a text body.
- `dotenv`, the `PORT` setting and `app.listen` (src/index.js:7-10, 95) are process configuration and network I/O.
- Reading `../data/ebooks.json` (src/index.js:13) is file I/O. `Catalog.Load` takes the parsed records as input. A missing or malformed file stops the process and is not modelled.
- Spanish ICU collation is not modelled. `collate` is any total preorder. The sort's result is stated only for comparators of that kind.
- Catalog.SortBySurname: the sort only moves an author past authors that collate strictly after it, so it is stable like `Array.prototype.sort`. Stability is not stated.
- Text.Lower: only ASCII and the Latin-1 capitals U+00C0 to U+00DE (except U+00D7) are lowered. These include the Spanish accented capitals and Ñ. The rest of Unicode case mapping, including mappings that change length, is not modelled.
- Text.ParseInt: the model covers an optional sign and leading decimal digits, with trailing text ignored. It leaves out leading white space and the `0x` prefix. It also leaves out the rounding of a double: above 2^53 (9007199254740992) JavaScript rounds the parsed value to the nearest double, so `9007199254740993` parses to 9007199254740992 and the 404 message shows that value, while the model keeps the exact integer; above about 1.8e308 `parseInt` gives `Infinity` and the message reads `Infinity`.
- Text.IntToString: it writes every integer in plain decimal. JavaScript's exponent form for magnitudes of 10^21 and above is not modelled.
- A repeated `apellido` query parameter (or a bracketed one) reaches the handler as an array or an object, not a string. `apellido.toLowerCase()` at src/index.js:71 runs only after the name test succeeds, because of the `&&` at line 70. So the request fails with a type error only when some author's lowered name matches; otherwise the answer is the ordinary 404 `Autor no encontrado`. Only an absent or a single string parameter is modelled (`Option<string>`).
- The unused `letras` (src/index.js:68) computes nothing that reaches the answer and is not modelled. `Queries.LongerPrefixNarrowsNameQuery` states that matching does not depend on the prefix length.
- Non-integer `edicion` values in the data file (a string, or a number with a fraction such as `1967.5`, which never equals a parsed year), and records missing fields, are outside the typed records: `Obra.edicion` is an `int`.
- Concurrency between requests is not modelled. The catalog is never written after the sort, so requests cannot interfere.
