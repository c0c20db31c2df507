# Web scraper extraction core, modelled in Dafny

This project models the pure, page-level logic of a small site scraper
(`cc_web_scraper_cmd`). It covers the parts that do not depend on a browser,
an HTML library or a database:

- **Heading enumeration** (`BaseScraperService.extract_headings`). The
  scraper visits the tags `h1` … `h6` in that order. For each tag it visits
  the parser's elements of that tag and emits one record per element:
  `tag`, stripped `text`, `order` (1-based index within the tag), `level`
  (tag index + 1) and `position` (1-based index in the whole list). The
  parsed document is given as six lists of already-stripped texts, one per
  tag, as the parser would return them.
- **Change verifier** (`generate_change_verifier`). The verifier is the hash
  of the title followed by every heading text, joined with no separator.
  The hash (MD5, hex digest) is a function parameter.
- **Page data wiring** (`get_page_data`). The record carries the title, the
  headings, the body text, a clock reading and the verifier of that same
  title and those same headings.
- **Eyewiki link filter** (`EyewikiService.should_follow_link`). A link is
  followed when the inherited predicate accepts it, its path does not start
  with `/Special:`, `/File:` or `/Talk:`, and its query does not contain
  `action=edit`. The inherited predicate is a function parameter. The URL
  arrives already split into path and query.
- **Eyewiki page post-processing guard** (`EyewikiService.process_page`). A
  page whose `error` is truthy is returned unchanged. Otherwise the
  site-specific step runs. If it raises, the page's `error` becomes
  `"Content processing error: "` followed by the exception message.

Modules: `Models` (the `Page` record and Python truthiness of its error),
`PyStr` (`str.startswith` and `in` as character scans), `BaseScraperService`
and `EyewikiService`.

Three consequences of the code are worth stating up front:

- The extractor keeps headings whose text is empty.
- The result is one flat list grouped by tag: every `h1`, then every `h2`,
  and so on. There is no parent/child tree.
- The change verifier hashes the title plus the heading texts only.

`if page_data.error:` tests Python truthiness. An empty error string
counts as "no error" (`Models.HasError`), so such a page still goes through
the site-specific step.

## Model

| member | source | states |
|---|---|---|
| `BaseScraperService.ExtractHeadings` | src/web_scraper/services/base_scraper_service.py:33-44 | The result has one record per h1..h6 element, so empty texts are kept. Record k has position k+1. Every level is in 1..6 and the tag is "h" followed by the level. Levels never decrease along the list. The full layout is fixed by `Enumerates`: element j of tag i sits after all earlier tags' elements, with order j+1 and level i+1. |
| `BaseScraperService.TagsSpellTheirLevel` | src/web_scraper/services/base_scraper_service.py:35 | The tag at index i of the scanned tag list is "h" followed by the digit i+1. |
| `BaseScraperService.EnumeratesUnique` | src/web_scraper/services/base_scraper_service.py:33-44 | Two lists that both satisfy the per-element layout for the same input are equal. The layout therefore fixes the whole result. |
| `BaseScraperService.PositionsAreIndices` | src/web_scraper/services/base_scraper_service.py:42 | In any list with the extractor's layout, the k-th record has position k+1. Positions run 1..n in list order. |
| `BaseScraperService.LevelsAreTagIndices` | src/web_scraper/services/base_scraper_service.py:35-41 | Every record's level is in 1..6. Its tag is the level-th scanned tag, which is spelled "h" followed by the level. |
| `BaseScraperService.LevelBlock` | src/web_scraper/services/base_scraper_service.py:35-36 | A record has level L exactly when its index lies in tag L's block, between the element counts of the tags before L and of the tags up to L. Records before the block have smaller levels and records after it have larger ones. |
| `BaseScraperService.LevelsNonDecreasing` | src/web_scraper/services/base_scraper_service.py:35-36 | Every h1 record precedes every h2 record, and so on. The list is grouped by tag, not in document order. |
| `BaseScraperService.AtLevelIsBlock` | src/web_scraper/services/base_scraper_service.py:35-36 | Filtering the list by one level gives exactly that tag's contiguous block. |
| `BaseScraperService.PerLevelOrder` | src/web_scraper/services/base_scraper_service.py:36-40 | The records of level L are as many as the parser's elements of tag L. The j-th of them has order j+1, carries the j-th element's text and has tag L's name. |
| `BaseScraperService.GenerateChangeVerifier` | src/web_scraper/services/base_scraper_service.py:52-54 | The verifier is the hash of the title followed by the list of heading texts joined with no separator. Joining the records one by one, as the source's generator does, gives the same string. |
| `BaseScraperService.VerifierIgnoresNumbering` | src/web_scraper/services/base_scraper_service.py:52-54 | Two heading lists with the same texts in the same order give the same verifier for a title, under any hash. Tag, order, level and position never reach the hash. |
| `BaseScraperService.VerifierCollisions` | src/web_scraper/services/base_scraper_service.py:53-54 | Inputs whose title-plus-texts concatenations are equal collide under every hash. Under an injective hash, two verifiers are equal exactly when the concatenations are. |
| `BaseScraperService.TitleHeadingBoundaryCollision` | src/web_scraper/services/base_scraper_service.py:53 | There is no separator, so title "ab" with no headings and title "a" with one heading "b" give the same verifier. |
| `BaseScraperService.VerifierOfExtracted` | src/web_scraper/services/base_scraper_service.py:33-54 | For an extracted list, the verifier is the hash of the title followed by all h1 texts, then all h2 texts, and so on to h6, each in parser order. |
| `BaseScraperService.GetPageData` | src/web_scraper/services/base_scraper_service.py:17-31 | The record carries the given url, title, body text and clock reading. Its headings have the extractor's layout. Its change verifier is the verifier of its own title and headings, which equals the hash of the title followed by the per-tag texts. |
| `Models.HasError` | src/web_scraper/services/eyewiki_service.py:21 | A missing error and the empty string both read as "no error". Every non-empty message reads as an error. |
| `PyStr.StartsWith` | src/web_scraper/services/eyewiki_service.py:64 | The character scan answers true exactly when the prefix is a sequence prefix of the string. |
| `PyStr.StartsWithAny` | src/web_scraper/services/eyewiki_service.py:64 | Testing against a tuple of prefixes answers true exactly when some prefix in the tuple is a prefix of the string. |
| `PyStr.OccursInSameLength` | src/web_scraper/services/eyewiki_service.py:65 | A string as long as the substring contains it exactly when the two are equal. |
| `PyStr.Contains` | src/web_scraper/services/eyewiki_service.py:65 | The left-to-right substring scan, Python's `in`, succeeds exactly when the substring occurs at some index of the string. |
| `EyewikiService.ShouldFollowLink` | src/web_scraper/services/eyewiki_service.py:60-65 | A link is followed exactly when the inherited predicate accepts its url, no denied namespace is a prefix of its path, and "action=edit" occurs nowhere in its query. |
| `EyewikiService.FilterOnlyNarrows` | src/web_scraper/services/eyewiki_service.py:63 | Every link the Eyewiki filter accepts is also accepted by the inherited predicate. |
| `EyewikiService.DeniedNamespacesRejected` | src/web_scraper/services/eyewiki_service.py:64 | Any path starting with "/Special:", "/File:" or "/Talk:" is rejected, whatever the url or query. |
| `EyewikiService.EditQueriesRejected` | src/web_scraper/services/eyewiki_service.py:65 | Any query containing "action=edit" anywhere is rejected. |
| `EyewikiService.PathTestIsAnchoredAndCaseSensitive` | src/web_scraper/services/eyewiki_service.py:64 | For the paths "/wiki/Special:X" and "/special:x", the answer is the inherited predicate's. The path test is an anchored, case-sensitive prefix test. |
| `EyewikiService.QueryTestIsCaseSensitive` | src/web_scraper/services/eyewiki_service.py:65 | For the query "Action=Edit", the answer is the inherited predicate's. The query test is case-sensitive. |
| `EyewikiService.ProcessPage` | src/web_scraper/services/eyewiki_service.py:16-58 | A page that comes from the inherited processing with a truthy error is returned unchanged. If the site-specific step raises, the error becomes "Content processing error: " plus the message. If it completes, the error is kept. The result has a truthy error exactly when the inherited page had one or the step raised. Only the body text and the error ever change. |
| `EyewikiService.FailedPageIsFixpoint` | src/web_scraper/services/eyewiki_service.py:19-22 | Feeding a failed result through the processing again returns it unchanged. |

## Left out

- MD5 and the UTF-8 encoding before hashing are not modelled. The hash is a parameter `string -> string`, so every property holds for every hash.
- Browser lifecycle and navigation are not modelled: `load_page`, `Scrapeable.open_page`/`close_resources`, `BaseScraper.navigate` and the example site scraper. They are Playwright I/O. The page title and the parser's per-tag element texts are inputs.
- HTML parsing is not modelled: `find_all`, `get_text`, `decompose`, `select` and `extract_body_text`. These are library calls, and the body text is an input to `GetPageData`.
- Clock readings (`datetime.utcnow()`, the `Page.timestamp` default) are integers supplied by the caller.
- The inherited `should_follow_link`, `process_page` and `crawl` are not defined in the shown base class. They are parameters, or left out entirely in the case of `crawl`.
- `urlparse` is not modelled. The filter takes the URL together with its path and query parts.
- The Eyewiki title, content and category extraction (eyewiki_service.py lines 24-52) is not modelled. It is soup queries, abstracted as one step that returns the final body text or raises with a message. Its `meta` assignments are not modelled. As written, that step always raises: `Page` is a pydantic model that declares no `meta` field, so the `hasattr` test at eyewiki_service.py:29 is always false and the assignment at line 30 raises. Every page that passes the error guard leaves through the `except` at lines 54-56. The model covers this only because the step is an unconstrained parameter.
- `MedicalNewsTodayService.process_page` is not modelled. It is almost entirely soup queries and also assigns the undeclared `meta`.
- MongoDB access (`handle_error`, `get_site_record`, `update_site_record`, `get_db`) is not modelled. It is persistence plumbing.
- The CLI, the configuration modules, logging and the package `__init__` files are not modelled. They are wiring.
- `Page.links` holds arbitrary dictionaries in the source. The model uses string-to-string maps, and no property depends on their contents.
- `get_page_data` and `load_page` call the asynchronous `page.title()` and `page.content()` without awaiting them. The model takes the title and the parsed elements as the strings those calls are meant to produce.
- The service constructors pass `base_url` and `site_id` to a base constructor that takes only a browser page. Construction is not modelled.
