# api-docs-mcp in Dafny

This project models the sequential core of api-docs-mcp. That service crawls an API documentation website, pulls endpoint and schema records out of each page with class-name heuristics, and stores pages as JSON files. An MCP server then answers search and lookup queries over the stored pages.

The project has four modelled components and four support modules.

- `parser.dfy` (module `Parser`): `ApiDocParser`, the heuristic extractor.
  - A parsed page is a tree of `Dom.Node`s. bs4's `find` and `find_all` are the first and all matching descendants in document order. A `class_` callable is tried on each class token and then on the joined tokens. `.string` is the string of an only-child chain.
  - Every record builder maps over `find_all`'s result and then keeps the records whose key field is non-empty.
- `crawler.dfy` (module `Crawling`): the sequential logic of `ApiDocCrawler`.
  - The outbound-link filter is `ExtractLinks`, a loop specified by `Links`.
  - Also modelled: the fetch acceptance test, the site-title fallback chain and the per-domain politeness wait.
  - The class `ApiDocCrawler` holds the visited set, the last-access map and the queue. Its methods are the start of a crawl, one dequeue and one visit, a single-worker drain, and the enqueueing of discovered links.
- `repository.dfy` (module `Storage`): `ApiRepository`.
  - The storage directory is a map from file name to the document in that file. The maps between URLs and file names are modelled exactly.
  - `ApiRepository` is a class whose methods update that map.
- `resources.dfy` (module `Resources`): the three MCP resources over the pages `get_page` returned, in `list_pages` order.
  - `api_docs` is a nested loop, specified by `Search`.
  - `api_endpoint` and `api_schema` are first-match searches, given both as functions and as early-return loops.
- Support modules: `models.dfy` holds the stored record types. `strings.dfy`, `seqs.dfy` and `dom.dfy` hold ASCII string operations, list operations and the document tree.

Some facts about the code shape the model.

- `_process_page` (src/crawler/crawler.py:205-250) fails on every call. It calls parser methods that do not exist and builds an `ApiPage` without its `endpoints` and `schemas`. The worker's `except` clause swallows the failure.
  - So a fetched page never reaches link extraction. The queue never receives more than the base URL.
  - A crawl therefore visits at most the base URL, and it stores only the site record. `ApiDocCrawler.Crawl` proves exactly that.
  - Link extraction and enqueueing are still modelled and proved on their own, as the code writes them.
- Titles, enqueueing and the link filter:
  - `_extract_title` has no `<h1>` fallback and returns "" when there is no `<title>` (`Parser.TitleIsFirstTitle`). Only `_get_site_title` falls back to `<h1>` and then to "Unknown API Documentation" (`Crawling.SiteTitleFallback`).
  - Enqueueing checks only the visited set (src/crawler/crawler.py:120-122, `ApiDocCrawler.EnqueueDiscovered`). Queued duplicates and the page cap are handled at dequeue (src/crawler/crawler.py:88, `ApiDocCrawler.Visit`).
  - Links are kept when their netloc equals the netloc of the page being processed, not the seed's. `base_domain` is computed but never used.

Function parameters stand for the network, the clock, `urljoin` and `urlparse(...).netloc`, `os.listdir`'s order, and bs4's parse of a page.

## Model

| member | source | states |
|---|---|---|
| Parser.ParsedPageWellFormed | src/crawler/parser.py:18-45 | `parse_page` keeps the given URL. Every endpoint has a non-empty path, a method that is "" or an HTTP method, named parameters and digit-only response codes. Every schema and property is named. |
| Parser.TitleIsFirstTitle | src/crawler/parser.py:47-50 | The title is the stripped text of the first `<title>` descendant, or "" when there is none. |
| Parser.EndpointSectionByToken | src/crawler/parser.py:57-59 | An element is an endpoint section iff it is a `div`/`section` and some lower-cased class token contains endpoint, api, method or operation. The joined-tokens attempt adds nothing. |
| Parser.SchemaSectionByToken | src/crawler/parser.py:79-81 | The same, for schema, model, type and object. |
| Parser.PathFound | src/crawler/parser.py:94-97 | The path is non-empty iff some `code`/`pre` descendant's string contains `/`, and a non-empty path contains `/`. |
| Parser.MethodIsHttpMethod | src/crawler/parser.py:99-102 | The method is "" or one of GET, POST, PUT, DELETE, PATCH. It is "" iff no `code`/`span` descendant's string upper-cases to one of them. |
| Parser.FieldNameFound | src/crawler/parser.py:169-172 | A parameter or property name is non-empty iff some `code`/`td` descendant has a string that is not all white space. |
| Parser.SchemaNameFound | src/crawler/parser.py:142-145 | A schema name is non-empty iff some `h2`/`h3`/`h4`/`code` descendant has a string that is not all white space. |
| Parser.RequiredIffText | src/crawler/parser.py:179-182 | The required flag holds iff some descendant text node contains "required" in any letter case. |
| Parser.ResponseCodeIsDigits | src/crawler/parser.py:189-192 | A response code is "" or a non-empty run of decimal digits. |
| Parser.ResponseSchemaEmpty | src/crawler/parser.py:199-208 | The response schema is `{}` iff no `div`/`pre` descendant has a class containing "schema". |
| Parser.SchemaTypeDefault | src/crawler/parser.py:230-233 | The schema type is "object" when no `code`/`td` descendant names a type word, and is never "". |
| Parser.TypeWordFound | src/crawler/parser.py:232-233 | A string containing a type word in any case does not strip to "". |
| Parser.FieldTypeFound | src/crawler/parser.py:174-177 | A parameter's type is non-empty iff some `code`/`td` descendant's string holds one of the five type words. `_extract_property_type` (parser.py:215-218) is the same helper. |
| Parser.SectionDescriptionFound | src/crawler/parser.py:104-107 | An endpoint's description is the stripped text of the first `p`/`div` descendant whose class mentions "description", and "" when there is none. `_extract_schema_description` (parser.py:147-150) is the same helper. |
| Parser.CellDescriptionFound | src/crawler/parser.py:184-187 | A parameter's description is the stripped text of the first `p`/`td` descendant whose class mentions "description", and "" when there is none. The response and property descriptions (parser.py:194-197, 225-228) use the same helper. |
| Parser.FieldsKept | src/crawler/parser.py:109-124 | Every kept parameter or property is named and built from one of the sub-sections. Every sub-section that yields a name is kept. |
| Parser.ResponsesHaveDigitCodes | src/crawler/parser.py:126-140 | Every kept response has a non-empty, digit-only code. |
| Parser.EndpointsKept | src/crawler/parser.py:52-72 | Every endpoint comes from a matching section, has a non-empty path and a method from the closed set. A matching section is kept iff its path is non-empty, whatever its method or description. |
| Parser.SchemasKept | src/crawler/parser.py:74-92 | Every schema comes from a matching section and is named. A matching section is kept iff its name is non-empty. |
| Parser.RecordsInDocumentOrder | src/crawler/parser.py:52-92 | The endpoints and schemas under children `a + b` are those under `a` followed by those under `b`. |
| Parser.UsersEndpointExample | src/crawler/parser.py:52-72 | A page with one `div.endpoint-get-users` holding `<code>/users</code>` and `<code>GET</code>` yields exactly the endpoint GET /users, with no description, parameters or responses. |
| Crawling.LinkOfSpec | src/crawler/crawler.py:179-201 | An href yields a link iff its stripped form is not empty and has no rejected prefix, and its resolution keeps the current netloc and, cut at `#`, holds no denied path. The link is that cut URL and contains no `#`. |
| Crawling.LinksAppend | src/crawler/crawler.py:178-203 | The links of a concatenation are the concatenated links: anchor order and duplicates are kept. |
| Crawling.LinksSound | src/crawler/crawler.py:178-201 | Every emitted link has no `#` and no denied path. It comes from an href whose stripped form is not rejected, whose resolution has the current netloc, and which it equals once cut at `#`. |
| Crawling.LinksComplete | src/crawler/crawler.py:178-203 | Every href that passes the filter contributes its link. |
| Crawling.SameNetloc | src/crawler/crawler.py:186-192 | If cutting at `#` keeps a URL's netloc, every emitted link has the current page's netloc. |
| Crawling.ExtractLinks | src/crawler/crawler.py:173-203 | `_extract_links` returns `Links` of the anchors' hrefs in document order. |
| Crawling.FilterLinks | src/crawler/crawler.py:178-203 | The appending loop computes `Links` of the hrefs. |
| Crawling.FetchBody | src/crawler/crawler.py:158-167 | The page text is returned iff the status is 200 and the lower-cased Content-Type contains text/html or application/xhtml+xml. Otherwise the result is "". |
| Crawling.MissingContentTypeRejected | src/crawler/crawler.py:163-165 | A reply without a Content-Type header is never accepted. |
| Crawling.SiteTitleFallback | src/crawler/crawler.py:130-147 | An empty fetch gives "Unknown API Documentation". Otherwise the title is the first `<title>`, else the first `<h1>`, else the fixed fallback. |
| Crawling.WaitTime | src/crawler/crawler.py:98 | The wait is never negative, is 0 once the delay has elapsed, and elapsed plus wait reaches the delay. |
| Crawling.PolitenessWait | src/crawler/crawler.py:95-100 | There is no wait for a domain never accessed. Otherwise the wait ends no earlier than last access plus delay. |
| Crawling.ApiDocCrawler.constructor | src/crawler/crawler.py:24-40 | Empty visited set, last-access map and queue, with the given delay. |
| Crawling.ApiDocCrawler.Begin | src/crawler/crawler.py:50-64 | Empties the visited set and stores the site record with the fallback title and the start time. The queue then holds the base URL alone. |
| Crawling.ApiDocCrawler.Next | src/crawler/crawler.py:85 | Takes the oldest queued URL, or gives `None` on an empty queue. |
| Crawling.ApiDocCrawler.Visit | src/crawler/crawler.py:88-110 | Skipped iff the URL was visited or the cap was reached, and a skip changes nothing. Otherwise exactly that URL is added, only its domain's access time is set, and the outcome is NotFetched iff the fetch gave "". Accesses to one domain are at least `delay` apart. The cap `\|visited\| <= max_pages` is kept. |
| Crawling.ApiDocCrawler.Drain | src/crawler/crawler.py:82-128 | Empties the queue. Nothing outside the old visited set and queue is visited, and every dequeued URL is visited unless the cap was reached. |
| Crawling.ApiDocCrawler.Crawl | src/crawler/crawler.py:42-80 | Visits nothing but the base URL, and visits it whenever `max_pages >= 1`. Stores exactly the site record. |
| Crawling.ApiDocCrawler.EnqueueDiscovered | src/crawler/crawler.py:119-122 | Appends, in order, the discovered links not visited at that moment. |
| Crawling.Unvisited | src/crawler/crawler.py:120-122 | A link is enqueued iff it is discovered and not in the visited set. |
| Crawling.SeedOnlyWithCapOne | src/crawler/crawler.py:88-92 | With `max_pages = 1` the seed is processed and any URL dequeued after it is skipped. |
| Storage.Sanitize | src/storage/repository.py:156 | Same length; alphanumerics are kept and every other character becomes `_`. |
| Storage.UrlToFilename | src/storage/repository.py:152-157 | The name is the sanitised URL, after every `https://` and then every `http://` is removed, followed by `.json`. Its length is the stripped length plus 5, and its stem holds only alphanumerics and `_`. |
| Storage.DropLast5 | src/storage/repository.py:162 | Python's `[:-5]`: a prefix five shorter, or "" for short names. |
| Storage.FilenameToUrl | src/storage/repository.py:159-164 | Starts with `https://`, has the dropped length plus 8, and holds no `_` after the prefix. |
| Storage.FilenameRoundTrip | src/storage/repository.py:152-164 | Every name of the produced form survives name → URL → name. |
| Storage.UrlFilenameRoundTrip | src/storage/repository.py:152-164 | Produced names are fixed points of the round trip. |
| Storage.PunctuationCollides | src/storage/repository.py:152-157 | Two `https://` URLs whose remainders contain no `:` and differ only where both have punctuation get the same file name. The premise leaves out URLs with a port. The same collision happens for `http://` URLs, which the lemma does not state. |
| Storage.LaterSaveOverwrites | src/storage/repository.py:88-92 | Of two pages with the same file name, the one saved later is what `get_page` reads back for either URL. |
| Storage.PunctuationOverwrites | src/storage/repository.py:88-92 | After saving two pages whose `https://` URLs have remainders without `:` and differ only in punctuation, the first URL reads back the second page. |
| Storage.SiteInfoCollision | src/storage/repository.py:104-113 | The page file of `https://site.info` is `site_info.json`, and reading that page while the site record is stored fails. |
| Storage.Stored | src/storage/repository.py:61-85 | A saved page keeps title, URL, content, endpoints and schemas. `last_crawled` comes back as `None`. |
| Storage.Lookup | src/storage/repository.py:104-137 | NotFound iff the URL's file is absent. A file holding a page gives Found with that page. A file holding the site record gives NotAPage, standing for the `KeyError` the code raises. |
| Storage.ApiRepository.constructor | src/storage/repository.py:15-27 | Opens the storage directory with the files already in it, which `save_page` and `save_site_info` wrote. |
| Storage.ApiRepository.SaveSiteInfo | src/storage/repository.py:29-38 | Overwrites `site_info.json` alone; `get_site_info` then returns the saved record. |
| Storage.ApiRepository.GetSiteInfo | src/storage/repository.py:40-52 | `None` iff `site_info.json` is absent, else its contents. |
| Storage.SiteInfoLifecycle | src/storage/repository.py:29-52 | A directory without `site_info.json` has no site record, and a saved record is read back. |
| Storage.ApiRepository.SavePage | src/storage/repository.py:54-92 | Writes only the page's file, and `get_page` on its URL then returns the stored page. |
| Storage.ApiRepository.GetPage | src/storage/repository.py:94-137 | `None` (NotFound) iff no file has the URL's name. A file holding a page gives that page. The site-record file gives NotAPage, the `KeyError` case. |
| Storage.ApiRepository.ListPages | src/storage/repository.py:139-150 | The URLs listed are exactly those of the stored names ending in `.json`, other than `site_info.json`. In a directory the repository wrote, no URL is listed twice. |
| Storage.ListedPagesAreFound | src/storage/repository.py:146-150 | Every listed URL leads `get_page` back to a stored page. |
| Resources.ApiDocs | src/mcp/resources.py:30-52 | The results are the search hits over all endpoints of the retrievable pages, in page then endpoint order. `total` is their number. |
| Resources.AllEndpointsOf | src/mcp/resources.py:35-40 | Missing pages are skipped. Every endpoint of a retrievable page is searched, and nothing else is. |
| Resources.SearchAppend | src/mcp/resources.py:35-47 | The results over a concatenation are the concatenated results. |
| Resources.SearchSound | src/mcp/resources.py:41-47 | Every result is the hit of an endpoint whose lower-cased path or description contains the lower-cased query. Every such endpoint yields its hit. |
| Resources.SearchCount | src/mcp/resources.py:49-52 | There is one result per matching endpoint. |
| Resources.EmptyQueryMatchesAll | src/mcp/resources.py:41 | The empty query returns every endpoint. |
| Resources.LookupEndpoint | src/mcp/resources.py:66-82 | The nested early-return loop returns `FindEndpoint`. |
| Resources.FindEndpointIsFirst | src/mcp/resources.py:66-82 | `api_endpoint` returns the first endpoint, in page then endpoint order, whose `url` matches. It returns `None` iff there is none. |
| Resources.EndpointInIsFirst | src/mcp/resources.py:71-80 | The same, within one page. |
| Resources.LookupSchema | src/mcp/resources.py:96-110 | The nested early-return loop returns `FindSchema`. |
| Resources.FindSchemaIsFirst | src/mcp/resources.py:96-110 | `api_schema` returns the first schema whose `url` matches, or `None` iff there is none. |
| Resources.SchemaInIsFirst | src/mcp/resources.py:101-108 | The same, within one page. |

## Left out

- Network I/O: the httpx client, redirects, timeouts and headers sent. A fetch is an `HttpReply` value, or a `fetch` function from URL to reply.
- Concurrency: the asyncio worker pool, the semaphore, `queue.join`, `task_done` and cancellation. This includes the double `task_done` on the skip and empty-fetch paths. Interleavings between the visited insert and the fetch are not modelled either. With `concurrency == 0` no worker starts and `queue.join()` never returns (src/crawler/crawler.py:67-72); with `concurrency < 0` the semaphore raises `ValueError` when the crawler is built (src/crawler/crawler.py:40). The model has no `concurrency` parameter.
- Wall-clock time and sleeping. `now` and the access time are parameters of type `real`.
- `_process_page` is modelled only as its outcome, a failure that the worker swallows. The records it would build are not modelled, because the code cannot build them.
- HTML tokenising (html.parser, lxml): a page is a `Dom.Node` tree. Attributes other than `class` and `href` are not modelled.
- URL resolution and parsing (`urljoin`, relative-reference resolution per section 5.2 of RFC 3986, `urlparse`) are function parameters.
- JSON encoding and the file system. The directory is a map, and `os.listdir`'s order is a parameter.
- Unicode: lower, upper, isalnum, isdigit, isspace, strip and the case folding of `re.IGNORECASE` use ASCII rules only. The code also skips links such as "/ſignup", whose letters fold to ASCII ones; the model keeps them.
- `src/main.py`, `setup.py` and the FastMCP registration of the resources are not modelled.
- Crawling.ApiDocCrawler.Crawl: runs one worker, not `min(concurrency, max_pages)`. One reply for the base URL serves both the site-title request (src/crawler/crawler.py:130-147) and the worker's request (src/crawler/crawler.py:107). In the code these are two requests that can answer differently. With `max_pages <= 0` the code starts no worker and `queue.join()` never returns; the model returns with nothing visited.
- Crawling.ApiDocCrawler.Next: gives `None` where `queue.get()` would block.
- Crawling.ApiDocCrawler.Visit: takes as a premise that the access time is at least `now` plus the politeness wait, i.e. that the sleep lasted as long as asked.
- Crawling.SameNetloc: takes as a premise that cutting a URL at `#` does not change its netloc, which `urlparse` guarantees but the model does not define.
- Crawling.ApiDocCrawler.Drain: the clock advances only by the politeness waits, and a visit's result is not used.
- Storage.ApiRepository.ListPages: requires that `listing` names exactly the stored files, each once, as `os.listdir` does.
- `Resources` works on the `get_page` results for `list_pages`' URLs, as `Option<ApiPage>` values. A `get_page` that raises is not modelled. `ListedPagesAreFound` shows that this cannot happen for a store that `save_page` and `save_site_info` built.
