# Pokémon spider: a verified model of its extraction core

The spider `pokemon_mainpage` crawls pokemondb.net in three stages. The
home page lists type pages. Each type page lists creature pages. Each
creature page is turned into one record: its base stats (`start`, `min`,
`max` per stat), its name, its Pokédex number and the list of moves it
learns by level up.

This project models the logic of that spider in Dafny and proves what it
does:

- `IntText` models Python's `int(text)` on a `str` and the spider's
  tolerant `_parse_int_or_0`. `int` accepts exactly the texts made of
  optional whitespace, an optional sign, one or more digits and optional
  whitespace. This is proved in both directions (`LiteralParses`,
  `ParsedIsLiteral`). `_parse_int_or_0` returns the literal's value,
  negative values included, and returns 0 otherwise.
- `PokemonPage` models the record builder of `parse_pokemon_page`. A page
  arrives as the outputs of its selectors. `.get()` becomes an `Option`
  and `.getall()` becomes a sequence. The imperative method
  `ParsePokemonPage` follows the source's two loops: one updates the
  attributes map, the other appends to the move list. It is proved equal to
  the specification function `ExtractRecord`. The lemmas about
  `ExtractRecord` state when a page succeeds, which exception a failing
  page raises (`FailingPageError`: the first bad stat row's, then a
  missing move table, then the first bad move row's, then the number's),
  that a repeated stat label keeps its last row, and that moves keep row
  order, one per row. The lemmas about the two loop functions
  (`StatsLoop`, `MovesLoop`) state that a loop raises the first bad row's
  exception.
- `Navigation` models `parse` and `parse_type_page`. Each emits one request
  per discovered link, in link order, tagged with the next stage's callback.
- `Wrappers` holds the `Option` and `Result` types.

An exception that ends a page is a `Failure` value:

- `UnpackMismatch`: the `ValueError` of `a, b, c = cells` when there are not exactly three cells.
- `InvalidLiteral`: the `ValueError` of `int`.
- `NoMoveTable`: the `IndexError` of `moves_tbody[0]`.
- `NumberAbsent`: the `TypeError` of `int(None)`.

No partial record exists. A page's outcome is a `Result`: either the whole
record or the first exception raised, in the source's evaluation order.

Determinism: `ParsePokemonPage` is specified by `ensures r ==
ExtractRecord(page)`. Two runs on the same selector output therefore give
the same record.

Behaviours of the code worth knowing:

- If the page has no base-stats rows, the page does not fail for that: it yields a record exactly when the move table and the number allow, and the record's attributes map is empty (`NoStatRowsNoAttributes`).
- A move row whose name is absent is kept, with name `None`. It is not skipped.
- A move row whose level is not an integer fails the whole page. It does not fail only that row.
- The Pokédex number is any integer `int` accepts. The code does not check that it is positive.
- A stat row without header text is stored under the key `None`. In Python that is a legal dict key.

## Model

| member | source | states |
|---|---|---|
| `IntText.ParseInt` | web_scraping/pokemon_mainpage.py:6 | no contract of its own: the definition of `int(text)`, None for the ValueError; characterised by `LiteralParses`, `ParsedIsLiteral`, `ParsedChars`, `StrayCharRejected`, `NoDigitRejected` and `ParseRendered` |
| `IntText.ParseIntOr0` | web_scraping/pokemon_mainpage.py:4-8 | no contract of its own: the definition of `_parse_int_or_0`; characterised by `ParseIntOr0OfLiteral`, `ParseIntOr0Zero`, `ParseIntOr0OfStrayChar` and `ParseRendered` |
| `IntText.LiteralParses` | web_scraping/pokemon_mainpage.py:4-8 | whitespace, optional sign, digits, whitespace parses to the signed value of the digits |
| `IntText.ParsedIsLiteral` | web_scraping/pokemon_mainpage.py:4-8 | every text `int` accepts splits into whitespace, sign, non-empty digits, whitespace, and its value is the signed digit value |
| `IntText.ParsedChars` | web_scraping/pokemon_mainpage.py:4-8 | an accepted text contains only whitespace, signs and digits, and at least one digit |
| `IntText.StrayCharRejected` | web_scraping/pokemon_mainpage.py:4-8 | a character that is not whitespace, a sign or a digit makes `int` raise |
| `IntText.NoDigitRejected` | web_scraping/pokemon_mainpage.py:4-8 | a text without a digit makes `int` raise |
| `IntText.ParseIntOr0OfLiteral` | web_scraping/pokemon_mainpage.py:4-8 | `_parse_int_or_0` of a literal is its value, so a negative literal gives a negative number |
| `IntText.ParseIntOr0Zero` | web_scraping/pokemon_mainpage.py:4-8 | `_parse_int_or_0` is 0 exactly when `int` raises or the text denotes 0; any other result is `int`'s value |
| `IntText.ParseIntOr0OfStrayChar` | web_scraping/pokemon_mainpage.py:4-8 | a placeholder such as a dash reads as 0 instead of raising |
| `IntText.ParseRendered` | web_scraping/pokemon_mainpage.py:4-8 | `int(str(n)) == n` for every integer of the model's unbounded `int` (CPython's digit limit is not modelled, see "Left out"), and `_parse_int_or_0` of it is `n` |
| `PokemonPage.IntOf` | web_scraping/pokemon_mainpage.py:48-50 | no contract of its own: `int(text)` as a step that raises `InvalidLiteral(text)`; characterised through the contracts of `ParseStatRow`, `ParseMoveRow` and `NumberOf`, which use it |
| `PokemonPage.StatsLoop` | web_scraping/pokemon_mainpage.py:43-51 | no contract of its own: the stats loop from a given dict on; characterised by `StatsLoopFailure`, `StatsLoopKeys`, `StatsLoopLastWins` and `StatsLoopSuccess` |
| `PokemonPage.MovesLoop` | web_scraping/pokemon_mainpage.py:58-71 | no contract of its own: the moves loop from a given list on; characterised by `MovesLoopFailure` and `MovesLoopSuccess` |
| `PokemonPage.ExtractRecord` | web_scraping/pokemon_mainpage.py:31-80 | no contract of its own: the page's outcome in the source's evaluation order; characterised by `ExtractSucceedsIff`, `FailingPageError`, `ExtractedRecord`, `ExtractedStat` and `ExtractedMove`, and computed by `ParsePokemonPage` |
| `PokemonPage.NumberOf` | web_scraping/pokemon_mainpage.py:77 | absent number text raises TypeError; otherwise the number parses exactly when `int` accepts the text, to `int`'s value |
| `PokemonPage.ParseStatRow` | web_scraping/pokemon_mainpage.py:44-51 | a stat row succeeds exactly when it has three cells that all parse; the stat is the three values in order; a wrong count raises the unpack error, a bad cell raises for the first bad cell |
| `PokemonPage.ParseMoveRow` | web_scraping/pokemon_mainpage.py:59-70 | a move row succeeds exactly when it has three cells and the level parses; the move keeps name, type and category as given (absent name included), power and accuracy via `_parse_int_or_0` |
| `PokemonPage.ParsePokemonPage` | web_scraping/pokemon_mainpage.py:31-80 | the two row loops and the record assembly compute exactly `ExtractRecord(page)` |
| `PokemonPage.StatsLoopFailure` | web_scraping/pokemon_mainpage.py:43-51 | the stats loop raises exactly when some row is bad, and then with the first bad row's exception |
| `PokemonPage.StatsLoopSuccess` | web_scraping/pokemon_mainpage.py:39-51 | a completed stats loop gives keys = old keys plus every row label; each label holds its last row's stat; untouched keys keep their values |
| `PokemonPage.StatsLoopKeys` | web_scraping/pokemon_mainpage.py:43-51 | a completed stats loop adds exactly the row labels as keys and leaves every other key's value alone |
| `PokemonPage.StatsLoopLastWins` | web_scraping/pokemon_mainpage.py:43-51 | in a completed stats loop, every label is a key and holds the stat of the last row carrying it, which parsed |
| `PokemonPage.MovesLoopFailure` | web_scraping/pokemon_mainpage.py:58-71 | the moves loop raises exactly when some row is bad, and then with the first bad row's exception |
| `PokemonPage.MovesLoopSuccess` | web_scraping/pokemon_mainpage.py:54-71 | a completed moves loop appends one move per row in row order and keeps what was there |
| `PokemonPage.ExtractSucceedsIff` | web_scraping/pokemon_mainpage.py:31-80 | a page yields a record exactly when all stat rows parse, a move table exists, all its rows parse and the number parses |
| `PokemonPage.FailingPageError` | web_scraping/pokemon_mainpage.py:43-77 | a failing page raises, in order: the first bad stat row's exception; else the IndexError of a missing move table; else the first bad move row's exception; else TypeError for an absent number or ValueError for a non-integer one |
| `PokemonPage.ExtractedRecord` | web_scraping/pokemon_mainpage.py:74-80 | the record's name is the heading, its number is `int` of the number text, its attribute keys are the distinct stat labels with last-row-wins values, its moves are the parsed rows in order |
| `PokemonPage.ExtractedStat` | web_scraping/pokemon_mainpage.py:45-51 | each stored stat is `{start, min, max}`, the three cells of the last row with that label, read by `int` in order |
| `PokemonPage.ExtractedMove` | web_scraping/pokemon_mainpage.py:59-71 | the i-th move is the i-th row: `int` level, `_parse_int_or_0` power and accuracy, name, type and category as selected |
| `PokemonPage.BadStatRowFailsPage` | web_scraping/pokemon_mainpage.py:45-50 | a stat row with other than three cells, or with a non-integer cell, fails the page |
| `PokemonPage.BadMoveRowFailsPage` | web_scraping/pokemon_mainpage.py:60-65 | a move row with other than three cells, or with a non-integer level, fails the page |
| `PokemonPage.MissingMoveTableFailsPage` | web_scraping/pokemon_mainpage.py:55-58 | an empty move-table selection fails the page, with the IndexError once the stats succeeded |
| `PokemonPage.BadNumberFailsPage` | web_scraping/pokemon_mainpage.py:77 | an absent or non-integer Pokédex number fails the page |
| `PokemonPage.PowerAccuracyTolerated` | web_scraping/pokemon_mainpage.py:66-67 | whatever the power and accuracy texts of a move row are, the page's success is unchanged |
| `PokemonPage.NoStatRowsNoAttributes` | web_scraping/pokemon_mainpage.py:39-80 | a page with no stat rows succeeds exactly when a move table exists, all its rows parse and the number parses, and then its attributes map is empty |
| `PokemonPage.ThunderShockExample` | web_scraping/pokemon_mainpage.py:31-80 | number "25", row HP 35 7 65, move Thunder Shock 1 40 100 give exactly the expected record |
| `PokemonPage.DashPowerExample` | web_scraping/pokemon_mainpage.py:63-67 | a move with a dash for power and accuracy is kept with power 0 and accuracy 0 |
| `Navigation.FollowLinks` | web_scraping/pokemon_mainpage.py:18-20 | one request per link; the i-th request is the i-th link resolved against the page URL, with the given callback |
| `Navigation.Parse` | web_scraping/pokemon_mainpage.py:16-20 | the home page yields one request per type-icon link, in order, each for `parse_type_page` |
| `Navigation.ParseTypePage` | web_scraping/pokemon_mainpage.py:22-29 | a type page yields one request per creature link, in order, each for `parse_pokemon_page` |
| `Navigation.FollowLinksAppend` | web_scraping/pokemon_mainpage.py:18-20 | the requests for two stretches of links are the first stretch's requests followed by the second's |
| `Navigation.NoLinksNoRequests` | web_scraping/pokemon_mainpage.py:16-29 | a page with no links yields no requests and no error |
| `Navigation.RequestForEveryLink` | web_scraping/pokemon_mainpage.py:24-29 | every listed creature link is requested, resolved, for `parse_pokemon_page` |

## Left out

- The scrapy `Spider` runtime, `allowed_domains`, `start_urls`, HTTP fetching and request scheduling. These are framework and I/O concerns. Requests are returned as sequences, not yielded.
- CSS and XPath selection (`response.css`, `response.xpath`, `.get()`, `.getall()`). These are library calls. A page is given as their outputs.
- `response.urljoin`. This is RFC 3986 reference resolution done by a library, against the document's base (its `<base href>` if it has one, the page URL otherwise). `scrapy.Request` then escapes the result. Both steps together are one total function parameter with no other assumed properties; that it always returns is an assumption, see the `Navigation.FollowLinks` line below.
- Concurrency between sibling requests, and generator control flow.
- IntText.ParseInt: the full grammar of Python's `int` is not modelled. Underscores between digits, non-ASCII digits and non-ASCII whitespace such as U+00A0 are left out. Only ASCII sign, digits and the six C whitespace characters are modelled.
- IntText.ParseInt: CPython's limit on decimal string length is not modelled. Since 3.11, with backports to the 3.10 and 3.9 lines, `int(text)` raises ValueError for more than `sys.int_info.default_max_str_digits` (4300) digits; the limit can be reconfigured at run time. The model parses such a text to its value. So a stat cell, level or Pokédex number over the limit yields a value here where CPython fails the page, and `_parse_int_or_0` of such a power or accuracy text gives the value here where CPython gives 0. For the same reason `ParseRendered` holds for every integer here, while CPython's `str(n)` itself raises beyond the limit.
- Navigation.FollowLinks: the model assumes that `urljoin` returns and that every resolved link is a URL `scrapy.Request` accepts. `scrapy.Request` raises ValueError ("Missing scheme in request url") for a URL with no "://" that does not start with `about:` or `data:`. An href such as `mailto:x`, `tel:1` or `javascript:void(0)` reaches it unchanged from `urljoin`. Likewise `urllib.parse.urljoin` raises ValueError ("Invalid IPv6 URL") for an href whose host part has an unbalanced bracket, such as `http://[x`. In both cases the generator stops after the requests already yielded. The model instead promises a request for every link, and so do `Navigation.Parse` and `Navigation.ParseTypePage`.
- Dict insertion order of `attributes`. It is a Dafny `map`, so key order is not modelled. Values and the key set are.
- The specific messages of Python's exceptions. A `Failure` records the kind of exception and the offending cell count or text.
