# Quote scraper model

A Dafny model of the scraper in `app/parse.py`. The scraper fetches the quotes listing of
`https://quotes.toscrape.com/` page by page. For each `.quote` block on a page it reads the
text, the author and the tags into a `Quote(text, author, tags)` record. It keeps going while
the page has a `li.next a` link, and it builds the next URL from a counter as
`BASE_URL + "page/" + str(n) + "/"`. At the end it writes a header row and one row per quote.

Files and modules:

- `wrappers.dfy` (`Wrappers`): `Option` and `Result`.
- `quotes.dfy` (`Quotes`): the record `Quote`, the run's `Error`, and the abstract parsed page.
  A `Page` holds its `.quote` blocks in document order and the href of its `li.next a` link.
  A `Block` holds the first match of `span.text`, of `small.author` and of `.tags`, each
  optional. This module also models `get_quote` (`GetQuote`) and the tag list
  (`TagTexts`, which keeps the `a` elements with class `tag`). `parse_quotes_from_page` is
  `ParseQuotesFromPage`, built on `ParseBlocks`.
- `urls.dfy` (`Urls`): `str(n)` as `Decimal`, with its inverse `ParseDecimal`. The URL of page
  k is `PageUrl(k)`, and `PageNumber` reads it back.
- `pagination.dfy` (`Pagination`): the site as an oracle (`Site`), a map from URL to parsed page.
  `get_current_page` is `GetCurrentPage`. `Crawl` is a definition of what `parse_quotes`
  returns, written without a loop:
  - `LastPage` is the first page that fails or has no "next" link.
  - If that page fails, the run fails with its error.
  - Otherwise the run returns the quotes of pages 1..n (`QuotesThrough`).

  `ParseQuotes` is the `while` loop of `parse_quotes`, proved equal to `Crawl`. It also proves
  which URLs the loop requests (`Requests`).
- `rows.dfy` (`Rows`): `QUOTES_FIELDS`, `astuple` and the rows given to the CSV writer
  (`CsvRows`). `ReadRows` reads them back.
- `scenarios.dfy` (`Scenarios`): two concrete runs. One is a single page with two quotes. In
  the other, page 2 lacks an author.

Every request for a URL that is not a key of the site raises (`FetchFailed`). A missing
`span.text`, `small.author` or `.tags` makes `select_one` return `None`. The attribute access
that follows then raises (`MissingElement`). No error is caught anywhere, so any failure
aborts the whole run with no partial result.

The code does not check the HTTP status. `requests.get(url).content` is parsed whatever the
status is, so an error page comes back as an ordinary page, not as a fetch failure.

## Model

| member | source | states |
|---|---|---|
| `Quotes.GetQuote` | app/parse.py:19-26 | extraction of a block succeeds exactly when it has a text, an author and a tags container; otherwise it fails with a missing-element error for one of the three selectors |
| `Quotes.CompleteIffAllFound` | app/parse.py:21-23 | a block is complete exactly when each of the selectors `span.text`, `small.author`, `.tags` finds an element |
| `Quotes.GetQuoteFirstMissing` | app/parse.py:20-25 | with the read order `span.text`, `small.author`, `.tags`: the error names the i-th selector exactly when it is missing and every earlier one was found |
| `Quotes.RenderRoundTrip` | app/parse.py:19-26 | a block rendered from any quote (its tags as `a.tag` links) is extracted back to that same quote |
| `Quotes.TagTexts` | app/parse.py:23-25 | the tag list has at most one entry per element below `.tags`; its order and contents are stated by TagTextsAppend, TagTextsMembers and TagTextsAllLinks |
| `Quotes.TagTextsAppend` | app/parse.py:23-25 | the tag list keeps document order: tags of a concatenation are the tags of the first part followed by those of the second |
| `Quotes.TagTextsMembers` | app/parse.py:23-25 | a string is a tag exactly when some `a.tag` element carries it; the list is empty exactly when there is no `a.tag` element |
| `Quotes.TagTextsAllLinks` | app/parse.py:23-25 | when every element is an `a.tag` link, the tags are their texts one for one, in order |
| `Quotes.ParseBlocks` | app/parse.py:34-36 | page extraction succeeds exactly when every block is complete; then it returns one quote per block, in order, each the block's own extraction; otherwise it fails with the error of a block all of whose predecessors are complete; zero blocks give the empty list |
| `Quotes.ParseQuotesFromPage` | app/parse.py:34-36 | a page's extraction succeeds exactly when all its blocks are complete; then it has one quote per block, each that block's extraction, in order; a page with no blocks gives the empty list |
| `Urls.Decimal` | app/parse.py:45 | `str(n)` is a non-empty string of decimal digits without a leading zero |
| `Urls.DecimalRoundTrip` | app/parse.py:45 | the page number is recovered from its decimal text |
| `Urls.PageUrl` | app/parse.py:44-45 | the URL of page k is the base URL exactly when k = 1; which page a URL stands for is stated by PageUrlRoundTrip |
| `Urls.PageUrlRoundTrip` | app/parse.py:44-45 | the URL requested for page k names page k (the base URL for page 1) |
| `Urls.PageUrlInjective` | app/parse.py:44-45 | distinct counter values give distinct URLs, so no page is requested twice |
| `Pagination.GetCurrentPage` | app/parse.py:29-31 | fetching a URL succeeds exactly when the site serves it, giving the page served there; otherwise it fails with a fetch error for that URL |
| `Pagination.LastPage` | app/parse.py:43 | the walk goes on from every page that is extracted and has a "next" link and stops at the first page that does not, that page being the last one visited |
| `Pagination.LastPageIs` | app/parse.py:43 | the stopping page is determined by the site alone: it is the first page that does not continue, whatever bound witnesses termination |
| `Pagination.RequestsAt` | app/parse.py:40-46 | the first URL requested is `BASE_URL`; the k-th (k >= 2) is `BASE_URL + "page/" + str(k) + "/"` |
| `Pagination.SiteStops` | app/parse.py:43-46 | every site has a page, at most one past its number of URLs, at which the walk stops, so the termination bound that ParseQuotes requires exists for every site |
| `Pagination.Crawl` | app/parse.py:39-49 | the run fails exactly when its stopping page fails, with that page's error; on success the stopping page has no "next" link; its value is stated by CrawlSucceedsThrough and QuotesThroughPrefix/Length/At |
| `Pagination.ParseQuotes` | app/parse.py:39-49 | the loop returns exactly `Crawl`; its counter ends at the stopping page's number, and it requests the URLs of pages 1..n in order, n being that page |
| `Pagination.QuotesThroughPrefix` | app/parse.py:41-48 | quotes of earlier pages come before those of later pages: the result through page m is a prefix of the result through page n >= m |
| `Pagination.QuotesThroughLength` | app/parse.py:41-48 | nothing is dropped or deduplicated: the result has exactly as many quotes as the visited pages have blocks |
| `Pagination.QuotesThroughAt` | app/parse.py:41-48 | block i of page j is extracted to the quote at position (blocks of pages before j) + i |
| `Pagination.CrawlSucceedsThrough` | app/parse.py:39-49 | if pages 1..n-1 continue and page n is extracted and has no "next" link, the run returns the quotes of pages 1..n |
| `Pagination.CrawlFailsAt` | app/parse.py:39-49 | if pages 1..n-1 continue and page n fails to fetch or to extract, the whole run fails with that error and returns no quotes |
| `Pagination.CrawlSinglePage` | app/parse.py:39-49 | when the base page has no "next" link, the run is exactly that page's extraction |
| `Pagination.HrefIrrelevant` | app/parse.py:43-46 | two sites that differ only in the hrefs of their "next" links give the same stopping page and the same result: the next URL comes from the counter, never from the link |
| `Rows.AsTuple` | app/parse.py:9-16 | a quote's row has one cell per header field, the i-th cell being the value of the field named by the i-th header entry |
| `Rows.TupleRows` | app/parse.py:56 | one row per quote; which row is stated by TupleRowsAt |
| `Rows.TupleRowsAt` | app/parse.py:56 | the i-th data row is `astuple` of the i-th quote |
| `Rows.CsvRows` | app/parse.py:55-56 | the rows are the header followed by `len(quotes)` rows, `len(quotes) + 1` in all |
| `Rows.CsvRowsLayout` | app/parse.py:52-56 | the rows are the header `text, author, tags` and then one `(text, author, tags)` row per quote in input order, `len(quotes) + 1` rows in all |
| `Rows.CsvRowsRoundTrip` | app/parse.py:52-56 | reading the rows back (header, then one quote per row) gives the quotes written, in order |
| `Scenarios.OnePageExtraction` | app/parse.py:34-36 | the page's blocks for ("A", "X", ["life"]) and ("B", "Y", []) are extracted to those two quotes, in order |
| `Scenarios.OnePageRun` | app/parse.py:39-49 | a single page holding those two quotes and no "next" link yields exactly those two quotes |
| `Scenarios.OnePageRows` | app/parse.py:52-56 | the rows written for those two quotes are the header, the A-row and the B-row |
| `Scenarios.MissingAuthorRun` | app/parse.py:39-49 | when page 2's sole block has no author, the run fails with the missing `small.author` and page 1's quote is not returned |

## Left out

- The HTTP request (`requests.get`, app/parse.py:30) is network I/O. It is replaced by the site oracle. A connection failure is a URL missing from the map. Timeouts and the HTTP status are not modelled.
- HTML parsing and CSS selector matching (BeautifulSoup `select`, `select_one`, `findAll`) belong to a foreign library. A parsed page is abstracted to its blocks and its optional next link. `findAll` is abstracted to a flat list of the container's descendants in document order.
- Opening the output file, UTF-8 encoding, and the `csv` module's quoting and escaping (app/parse.py:53-54) are I/O and library code. Only the sequence of rows is modelled.
- Rows.CsvRowsLayout: the textual form of the `tags` cell (Python's `str(list)`, such as `['life']`) is not modelled. The cell keeps the list itself.
- `main` and the `__main__` entry point (app/parse.py:59-65) are glue around a fixed file name.
- A site whose "next" links never end is not modelled: a `Site` is a finite map, and the source loops forever on such a site. The page number `bound` that ParseQuotes requires excludes no finite site, because SiteStops gives one for every site.
- Quotes.GetQuote: the text of the raised `AttributeError` is not modelled. The error records only the selector that found nothing.
