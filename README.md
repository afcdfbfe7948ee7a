# Zenn shadow-ban checker: a verified model of its request pipeline

The checker serves one page. Given `?name=<user>`, it walks the Zenn article
list API page by page and collects every slug. It then fetches each article's
detail record through a process-wide response cache. It sorts the articles
newest first and renders one list entry per article. The entry shows a ghost
icon when Zenn marks the article `should_noindex` (a shadow ban) and a heart
otherwise. The article title is HTML-escaped.

This project models that pipeline in Dafny, as it is written in `src/index.ts`:

- `HtmlEscape` (escape.dfy) models `escapeHtml`, five chained global
  replacements, and the quoting of the user name in the form. The chain is
  proved equal to a per-character escape. From that the model proves a round
  trip through the reverse chain, with `&amp;` decoded last. It also proves that
  no markup character is left, that every `&` opens one of the five references,
  and that plain text comes back unchanged.
- `Zenn` (zenn.dfy) holds the API records. Both endpoints are given as
  functions: the list endpoint maps (user, page) to a page or a failure, and
  the detail endpoint maps a URL to a response or a failure.
- `Pagination` (pagination.dfy) models the `do … while` page loop. `ListSlugs`
  is proved against `Walk`, a fuel-bounded specification of the walk. Lemmas
  state the order of the pages and the concatenation of their slugs.
- `Cache` (cache.dfy) models the response cache as a class whose field is a
  `map` from URL to response. `Fetch` is the cache-aside lookup. As in the
  code, every response that a fetch resolves to is stored, whatever its status.
  `Put` overwrites, as `cache.put` does. A lookup only puts on a miss, so within
  one run of the model an entry is never removed or replaced. Every contract
  holds for any starting cache, not only for an empty one.
- `Details` (details.dfy) models the detail lookups of `getArticles` and
  `Promise.all`, and `getArticles` itself.
- `Handler` (handler.dfy) models the page handler: the `name` parameter, the
  newest-first sort and the rendering loop.

The code has no concurrency gate or pacing for its upstream requests. It does not
check that a listed article belongs to the requested user. It caches a detail
response whatever its status. When one detail lookup fails, the whole request
fails. The model does the same.

## Model

| member | source | states |
|---|---|---|
| `HtmlEscape.EscapeStep` | src/index.ts:20-25 | each `.replace` of the chain turns text with the first j kinds escaped into text with the first j+1 kinds escaped |
| `HtmlEscape.EscapeHtmlPerCharacter` | src/index.ts:19-26 | the five chained replacements equal a per-character escape: each of `& < > " '` becomes its reference and every other character is kept |
| `HtmlEscape.EscapeRoundTrip` | src/index.ts:19-26 | decoding `&#039;`, `&quot;`, `&gt;`, `&lt;` and then `&amp;` gives back the original string |
| `HtmlEscape.EscapeInjective` | src/index.ts:19-26 | two titles with the same escaped form are equal |
| `HtmlEscape.EscapeRemovesMarkup` | src/index.ts:19-26 | the output contains no `<`, `>`, `"` or `'` |
| `HtmlEscape.EscapeAmpersandsStartReferences` | src/index.ts:19-26 | every `&` in the output starts one of `&amp;`, `&lt;`, `&gt;`, `&quot;`, `&#039;` |
| `HtmlEscape.EscapeIdentityOnPlainText` | src/index.ts:19-26 | the output is never shorter than the input, and equals it exactly when the input has none of `& < > " '` |
| `HtmlEscape.QuoteAttributeRemovesQuotes` | src/index.ts:104-107 | the form value is the name with each `'` replaced by `&#039;` and every other character kept (the per-character definition `QuoteEach`); so it contains no `'`, and a name without `'` is written unchanged |
| `Zenn.DetailUrl` | src/index.ts:49 | a slug's detail URL is the API prefix followed by the slug, so distinct slugs get distinct URLs |
| `Zenn.ReadArticle` | src/index.ts:61-62 | reading a response yields its `article` when the body has one and fails otherwise |
| `Pagination.WalkFollowsNextPage` | src/index.ts:40-47 | the walk requests its first page first, then exactly each page's `next_page` in turn; it stops at the first null or the first failed request; its slugs are the concatenation of the pages' slugs in request order |
| `Pagination.WalkFuelIrrelevant` | src/index.ts:40-47 | once the walk ends within a bound, a larger bound gives the same pages, slugs and ending |
| `Pagination.ListSlugs` | src/index.ts:38-47 | the loop starts at page 1 and requests exactly the walk's pages; it returns the walk's slugs when the last page's `next_page` is null, and the error of the first failed page otherwise |
| `Cache.CacheAside` | src/index.ts:50-60 | a hit returns the stored response with no request; a miss makes one request and stores the response whatever its status; entries are never removed or changed; a returned response is the one now cached |
| `Cache.FetchedResponseServedAgain` | src/index.ts:50-58 | once fetched, a response of any status is served from the cache, with no request, by every later lookup of its URL |
| `Cache.ResponseCache.constructor` | src/index.ts:36 | a freshly opened store holds no entry (no other contract depends on this) |
| `Cache.ResponseCache.Match` | src/index.ts:50-51 | `match` returns the stored response exactly when the URL is cached |
| `Cache.ResponseCache.Put` | src/index.ts:56 | `put` stores the response under the URL and changes no other entry |
| `Cache.ResponseCache.Fetch` | src/index.ts:50-60 | the lookup changes the cache and returns exactly as `CacheAside` says, and keeps every earlier entry |
| `Details.AllArticles` | src/index.ts:64 | `Promise.all` succeeds exactly when every item succeeds, with the items' articles in order; otherwise it fails with the first failed item's error |
| `Details.CollectFacts` | src/index.ts:48-64 | one item per slug, in slug order, each what the final cache (or the network's failure) gives for that slug's URL; the cache gains exactly the slugs' URLs whose fetch resolved, each with the fetched response; requests go only to the slugs' URLs not cached at the start, and every such URL is requested |
| `Details.WarmCacheMakesNoRequests` | src/index.ts:50-55 | when every slug's URL is already cached, the lookups make no request and leave the cache unchanged |
| `Details.FetchDetails` | src/index.ts:48-64 | the lookup loop ends with the cache, the requests and the `Promise.all` result that `Collect` and `AllArticles` specify |
| `Details.GetArticlesFacts` | src/index.ts:38-64 | on success, one article per listed slug in slug order, each the article now cached for that slug; a failed page fails the call and leaves the cache alone; a failed lookup fails the whole call |
| `Details.GetArticles` | src/index.ts:38-65 | the page walk followed by the detail lookups, with the result, cache and requests of `GetArticlesSpec` |
| `Handler.SortNewestFirst` | src/index.ts:82-88 | the sorted articles are a permutation of the fetched ones, ordered newest first by publication time |
| `Handler.ListItemsInOrder` | src/index.ts:110-120 | list entry k is the entry of article k, and there are as many entries as articles |
| `Handler.OneItemPerArticle` | src/index.ts:93-121 | the page has exactly one `<li>` part per article; the head, the form and the closing tags open none |
| `Handler.ItemIcon` | src/index.ts:112-114 | an entry's icon is the ghost exactly when `should_noindex` is true, and the heart otherwise |
| `Handler.ItemTitle` | src/index.ts:116-118 | an entry's link text is the escaped title: it holds no markup character and decodes back to the title |
| `Handler.FormValueQuoted` | src/index.ts:104-107 | the form's single-quoted value attribute holds the per-character quoting of the name, which contains no `'`, so the name cannot close the attribute |
| `Handler.RenderPage` | src/index.ts:93-121 | the push loop builds the head parts, then one entry per article in order, then the closing tags |
| `Handler.Serve` | src/index.ts:79-126 | an empty or missing name renders an empty list with no request and no cache change; otherwise the page lists `getArticles(name)` newest first, and the handler fails when `getArticles` fails |

## Left out

- Static file serving (`serveDir` under `/images/`) and the `Deno.serve` listener: HTTP and file-system I/O. The response's headers are also left out.
- `fetch`, `caches.open` and `res.json()`: host library calls. Both endpoints are functions given to the model. A failed request, or a body that does not parse, is a `Failure`.
- The list URL is built with the user name unencoded. The model passes (name, page) to the list endpoint and does not model that URL text. The detail URL is plain concatenation, without the normalisation `new URL` applies.
- Concurrent page requests: the listener may serve several requests at once, and they share the process-wide cache. The model runs handler invocations one at a time. In the code, two overlapping lookups of one URL can both miss and both `put`, and the later put replaces the earlier entry. "Never replaced" in the model relies on this and on the detail endpoint being a fixed function.
- `caches.open` opens a named store that the host keeps between restarts, so the cache need not start empty. The constructor models a fresh store; every other contract is stated for an arbitrary starting cache.
- Cache.CacheAside: a `cache.put` that fails is not modelled; a put always succeeds. Storage I/O can fail. The Cache API's `put` also rejects a partial-content (206) response and a response with a `Vary: *` header. In the code such a rejection fails the lookup and so the request. The model has no response headers and stores every status.
- `Promise.all` concurrency: the model runs the lookups one after another, in slug order. In the code all lookups start before any response is stored, so a slug that appears twice is fetched twice; in the model its second lookup is a cache hit. The results and the final cache are the same, because the endpoint is a function.
- Details.AllArticles: reports the failure of the first failed item in slug order. The code reports the first rejection in time, which depends on scheduling.
- A detail body that parses but has no `article` field: the code gets `undefined`. The sort moves `undefined` elements to the end without calling the comparator, and the rendering loop then throws on `article.should_noindex`, so the request fails. The model fails the lookup itself (`MalformedBody`). Either way the request fails.
- `localDate` and `new Date(...)`: locale formatting and date parsing. Publication times are integers, and the date text of an entry comes from a given function. Invalid dates (NaN comparisons) are not modelled.
- Pagination.ListSlugs: the code has no bound on the number of pages and loops forever if the upstream never returns a null `next_page`. The model requires that the walk ends within a ghost bound (`Paginates`), so such an upstream is excluded rather than modelled. A `next_page` that is missing (not null) is not modelled either; `Option` has only null (None) or a number.
- Handler.SortNewestFirst: states newest-first order and permutation but not stability. Stability is JavaScript's guarantee for articles with the same time.
- The in-place `articles.sort` and the growing `html` array are modelled on sequence values, since neither is shared.
- The image URL in the head markup comes from the request URL. It is a parameter of the model.
