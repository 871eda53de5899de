# Facebook Ad Library scraper: a Dafny model of its core

This project models the core of a scraper for the public Facebook Ad Library, together with the batch pipeline that drives it. The scraper keeps a logged-in `requests` session and builds the form parameters of each GraphQL call: the request id, `jazoest`, the session string and the `csr` token. It strips the `for (;;);` guard from responses and walks them for ads (`get_page_ads`) or for one ad's full details (`get_ad_details`). Calls to `get_page_ads` go through a sliding-window rate limiter, and may go through a proxy. The pipeline (`ads_pipeline.py`) does four things here:

- it checks the keyword file's columns;
- it collects ads page by page;
- it cleans strings before storage;
- it answers `search_ads` queries from a nearest-neighbour index and a document store.

Python values become the `PyJson.Json` datatype. Dict lookups, `.get`, `[]`, truthiness, iteration and `in` are modelled as Python evaluates them. A raised exception becomes `None` of `Maybe.Option`, and the enclosing `except` decides what the caller sees. The clock, random draws, HTTP responses, the JSON decoder, the document store and the vector index are all parameters.

Modules, by file:

- `maybe.dfy`, `pyjson.dfy`, `text.dfy`: shared definitions. These are `Option`, Python-style JSON access, and decimal and hex digits.
- `rate_limiter.dfy`: the `RateLimiter` decorator, plus the sliding-window guarantee over every honest run.
- `proxies.dfy`: `ProxyPool`.
- `protocol.dfy`: `_parse_response`, `_get_next_req_id`, `_generate_jazoest`, `_generate_csr`, `_generate_session_string` and `_get_request_params`.
- `page_params.dfy`: `_extract_page_params`.
- `ad_extraction.dfy`: `get_page_ads` after the request.
- `ad_details.dfy`: `get_ad_details`.
- `search.dfy`: `search_ads`, both as written and corrected.
- `pipeline.dfy`: `read_keywords_from_csv`, `collect_ads` (as written and corrected) and `clean_data`.

## Model

| member | source | states |
|---|---|---|
| RateLimiter.New | RateLimiter.py:7-11 | a new limiter has recorded no calls and keeps the given cap and period |
| RateLimiter.Prune | RateLimiter.py:18 | a timestamp survives iff it is younger than the period; the survivors keep their order (a subsequence of the old list) |
| RateLimiter.PruneCounts | RateLimiter.py:18 | every young timestamp is kept with its full multiplicity and every old one vanishes, so equal timestamps are never merged |
| RateLimiter.Admit | RateLimiter.py:16-26 | the new call list is the pruned list plus the post-sleep clock reading; the limiter sleeps only when the pruned list is full, and then for exactly `period - (now - oldest)`, which is positive; with a cap of 0 or less and nothing left after pruning, `calls[0]` raises |
| RateLimiter.Call | RateLimiter.py:13-29 | the wrapped function runs exactly when admission succeeds, and its result is passed through unchanged |
| RateLimiter.AdmitKeepsSorted | RateLimiter.py:18-26 | with a clock that does not go backwards, the call list stays sorted and the new timestamp is its newest entry |
| RateLimiter.OldestLeavesWindow | RateLimiter.py:20-26 | after a full sleep, the oldest remaining call has left the window by the time the new call is recorded |
| RateLimiter.AdmitKeepsInv | RateLimiter.py:16-26 | one admission keeps the invariant: the full history is sorted, any `maxCalls` consecutive calls span at least a period, and the live list is a suffix whose dropped part has expired |
| RateLimiter.RunKeepsInv | RateLimiter.py:13-29 | every run of admissions with a monotone clock and full sleeps yields a sorted, spaced history |
| RateLimiter.WindowBound | RateLimiter.py:6-29 | in any run from a fresh limiter, every window of length `period` holds at most `maxCalls` recorded calls |
| Proxies.ProxyUrl | proxies.py:17 | the URL is `http://` then user, `:`, password, `@`, domain, `:` and port, with `None` for a missing setting |
| Proxies.ProxyUrlRoundTrip | proxies.py:17 | the user, password, host and port can be read back from the URL when the separators are not inside them |
| Proxies.NewPool | proxies.py:7-18 | the pool keeps the assembled URL, and the drawn index lies in 0..99 |
| Proxies.GetProxy | proxies.py:23-34 | the mapping has exactly the keys `http` and `https`, and both give the one stored URL, whatever index was drawn |
| Protocol.StripGuard | meta.py:649-650 | a body that starts with the guard is the guard followed by the result; any other body is left alone |
| Protocol.ParseResponse | meta.py:645-654 | the result is the decoding of the unguarded text, or `{}` when that does not decode |
| Protocol.GuardTransparent | meta.py:649-651 | a guarded body parses the same as its unguarded text |
| Protocol.OneGuardOnly | meta.py:649-650 | only one guard is stripped: a doubly guarded body is decoded with one guard still in place |
| Protocol.UndecodableIsEmpty | meta.py:652-654 | an undecodable body parses to the falsy empty dict |
| Protocol.NextReqId | meta.py:737-742 | the counter goes up by one, and the id is the letter at position `counter % 26` of the alphabet |
| Protocol.FirstIdIsB | meta.py:739-742 | the first request of a session is `b`, not `a` |
| Protocol.ReqIdsCover | meta.py:737-742 | any 26 consecutive request ids cover the whole alphabet |
| Protocol.ReqIdsDistinct | meta.py:737-742 | any 26 consecutive request ids are pairwise distinct |
| Protocol.Jazoest | meta.py:752-756 | without a captured `fb_dtsg` the value is the fixed `25730`; with one it is `2` followed by decimal digits whose value is the sum of the token's code points |
| Protocol.JazoestEncodesSum | meta.py:755 | the digits after the `2` spell out the sum of the code points of `fb_dtsg` |
| Protocol.Csr | meta.py:748-750 | the token is 32 characters, each a digit or a lower-case letter |
| Protocol.CsrDeterminesPicks | meta.py:750 | different draws give different tokens, so the token determines the draws |
| Protocol.SessionString | meta.py:744-746 | the string parses back to the clock seconds and the random draw |
| Protocol.SessionDrawWidth | meta.py:746 | the random part has at most nine hex digits, and nine only for the draw `16**8` that the inclusive bound lets through |
| Protocol.Attr | meta.py:720-733 | an attribute that was never set reads as the empty string, and a set one reads as its value |
| Protocol.StampsOf | meta.py:724-734 | the session string parses back to its draws, `__hsi` and `__spin_t` are the decimal clock readings, and `__csr` is 32 characters |
| Protocol.TokensOf | meta.py:720-733 | each captured attribute (`__hs`, `__rev`, `fb_dtsg`, `lsd`, `__spin_r`, `__spin_b`) is sent as its value, and one never captured as the empty string; `jazoest` is `25730` without `fb_dtsg` and otherwise encodes its code-point sum |
| Protocol.RequestParams | meta.py:713-735 | the counter advances by one and `__req` is the letter for the new count; the tokens are those of `TokensOf` for the session, so `fb_dtsg`/`lsd` are sent as captured or empty and `jazoest` falls back to `25730`; `__s` parses back to the clock and draw, `__hsi` and `__spin_t` are the decimal clock readings, `__csr` is 32 characters |
| Protocol.RequestMany | meta.py:719 | building parameters for n requests advances the counter by exactly n |
| PageParams.Search | meta.py:673-705 | a match is the leftmost position where the marker is followed by a non-empty run and its terminator, and the capture is that run; no match means no position matches |
| PageParams.ExtractPageParams | meta.py:665-711 | on status 200 each token is the first capture of its pattern, absent when nothing matches; any other status captures nothing; the counter starts at 0 |
| PageParams.CapturedShape | meta.py:673-702 | a quoted capture is non-empty and holds no `"`, and a `\d+` capture is a non-empty digit string |
| PageParams.FindsPlantedToken | meta.py:673-702 | a token planted after the marker, with no earlier match, is the one captured |
| AdExtraction.BodyText | meta.py:269-274 | the body text is the `text` field of a dict body, the body itself when it is a string, and `None` otherwise |
| AdExtraction.AdOf | meta.py:255-300 | a result is skipped iff it is falsy or a dict whose `ad_archive_id` is falsy; it raises iff it is a truthy non-dict, or has a truthy id that is unhashable or a truthy non-dict snapshot; a kept ad carries that id, the snapshot `or {}`, and each copied key's `.get` value with its default |
| AdExtraction.Walk | meta.py:251-301 | the walk raises iff some result raises; otherwise every kept result's ad is in the list and every listed ad comes from a kept result |
| AdExtraction.WalkAppend | meta.py:251-301 | walking two result lists in turn gives the two ad lists concatenated, so order and duplicates are kept |
| AdExtraction.ExtractAds | meta.py:245-303 | the ads are exactly the walk of the collated results, and the logged count is the number of distinct ids as a Python set counts them (`1` and `True` once), at most the number of ads |
| AdExtraction.UniqueAtMostAds | meta.py:263-303 | there are never more distinct ids than ads |
| AdExtraction.HashKey | meta.py:246-263 | an id becomes the set element `1` iff it is `1` or `True`; any other id is its own element |
| AdExtraction.OneAndTrueCountOnce | meta.py:246-303 | ads with ids `1` and `True` are logged as one unique id |
| AdExtraction.DuplicatesKept | meta.py:263-301 | a result that occurs twice yields two ads but one unique id |
| AdExtraction.GetPageAds | meta.py:236-397 | a falsy response or one without `data` is throttled and returned as is; an exception in the walk returns `[]`; otherwise the response is returned whole |
| AdExtraction.ReturnsResponseNotAds | meta.py:389-397 | the caller receives either the raw response or `[]`, never the extracted ads |
| AdExtraction.OneResultResponse | meta.py:245-303 | a response with one edge holding one result yields exactly that ad and one unique id |
| AdDetails.ValidateIds | meta.py:404-418 | ids pass iff both are non-empty digit strings; the longer becomes the ad id, the pair is kept as a multiset, and it is not swapped when already in order |
| AdDetails.ValidateIdempotent | meta.py:413-418 | validating a validated pair changes nothing |
| AdDetails.SplitLocations | meta.py:488-489 | the two comprehensions succeed iff every truthy entry is a dict, and between them they hold every truthy entry's name once |
| AdDetails.SplitIsComprehensions | meta.py:488-489 | the included list is exactly the names of the truthy entries whose `excluded` is falsy, in input order, and the excluded list is the rest |
| AdDetails.NamesWhereAppend | meta.py:488-489 | each comprehension over a concatenated list is the concatenation of the two comprehensions |
| AdDetails.ExcludedFlagRoutes | meta.py:488-489 | one entry goes to the excluded list iff its `excluded` flag is truthy |
| AdDetails.FormatTargeting | meta.py:487-496 | the targeting succeeds iff `age_audience` is a dict and a truthy location list iterates to entries whose truthy ones are dicts; gender, `min`, `max`, `eu_total_reach` and the breakdown are each the `.get` of their key with its default (`Unknown`, `None`, `None`, `None`, `[]`) |
| AdDetails.TargetingLocations | meta.py:488-489 | a truthy location list is split into the included and excluded names, in order |
| AdDetails.NullAgeAudienceFails | meta.py:492 | an `age_audience` of `null` raises in `.get`, so the whole call returns `None` |
| AdDetails.Spend | meta.py:517-520 | for a non-empty disclaimer list the spend is the `spend` of its first entry (`None` when absent) and the read raises iff that entry is not a dict; with no such list the spend stays `None` |
| AdDetails.OnlyFirstDisclaimer | meta.py:517-520 | disclaimer lists with the same first entry give the same spend, whatever follows it |
| AdDetails.FormatAd | meta.py:479-501 | the ad part carries the validated ids with no snapshot or status, the spend given, and the targeting of `FormatTargeting`; `is_political`, `payer_beneficiary`, `is_taken_down` and `has_violations` are each the `.get` of their key with its default |
| AdDetails.FormatPage | meta.py:502-509 | the page part exists iff `about` is a dict or falsy; `about` is the `text` of a truthy `about` dict and `None` otherwise; name, category, verification, profile URL and likes are each the `.get` of their key with its default |
| AdDetails.FormatInstagram | meta.py:510-514 | username, followers and verified are the `.get` of `ig_username`, `ig_followers` and `ig_verification` with defaults `None`, 0 and false |
| AdDetails.FormatDetails | meta.py:449-551 | details are returned only for a truthy dict response with `data` whose errors can be logged; a response that does not lead to an advertiser gives `None`, and one that does is formatted from that advertiser |
| AdDetails.FromAdvertiser | meta.py:473-551 | from the advertiser on, details are returned iff the formatting succeeds and the `errors` entries can be logged, and they are the formatted record |
| AdDetails.SourcesOf | meta.py:473-476 | the four source dicts are the `or {}` of `page`, `page_info`, `page_spend` and `aaa_info`; reading them fails iff one of them, or `ad_library_page_info`, is a truthy non-dict |
| AdDetails.Formatted | meta.py:473-520 | the record exists iff the sources, the spend, the targeting and the page part do, and its parts are the spend, `FormatAd`, `FormatPage` and `FormatInstagram` of those sources |
| AdDetails.InfoSources | meta.py:474-475 | non-empty dicts under `ad_library_page_info` give the `page_info` and `page_spend` that are read from |
| AdDetails.PresentValuesReported | meta.py:473-520 | whenever details are returned, a stored `page_name` and the first disclaimer's `spend` are the reported name and spend |
| AdDetails.ReachesAdvertiser | meta.py:458-471 | non-empty `ad_library_main`, `ad_details` and `advertiser` dicts reach the advertiser step |
| AdDetails.SparseAdvertiserDefaults | meta.py:473-515 | an advertiser with no page, page info or `aaa_info` still yields details, all with their defaults |
| AdDetails.SnapshotJoin | meta.py:522-539 | the snapshot look-up raises inside `get_page_ads`, but only after the shared limiter has pruned and recorded a call, so only the limiter changes |
| AdDetails.GetAdDetails | meta.py:399-558 | invalid ids return `None` and change nothing; valid ids use one request id; a failed request returns `None` with the limiter unchanged; otherwise the result is `FormatDetails` of the response, and the limiter becomes the snapshot join's iff formatting reaches the join |
| AdDetails.Joined | meta.py:522-539 | the limiter after formatting is the snapshot join's iff formatting reaches the join, which it always does when details are returned |
| AdDetails.ArgumentOrderIrrelevant | meta.py:413-418 | ids of different lengths give the same outcome in either order |
| Search.Dedup | ads_pipeline.py:450-457 | the first occurrences, with the same members as the input and no more elements |
| Search.DedupDistinct | ads_pipeline.py:450-457 | the retrieved ids are pairwise distinct |
| Search.DedupOfDistinct | ads_pipeline.py:450-457 | a list without repeats is de-duplicated to itself |
| Search.ValidIdsAllValid | ads_pipeline.py:452-453 | when every hit is in range the candidate ids are the hits' ids in order |
| Search.SelectIds | ads_pipeline.py:443-459 | the retrieved ids are the in-range hits scanned so far, de-duplicated, with at most k of them; the scan looks at the first hit and then stops exactly at the first prefix that yields k ids, or at the end |
| Search.SelectionUnique | ads_pipeline.py:450-459 | for given hits, ids and k only one id list can be selected |
| Search.FirstHit | ads_pipeline.py:452-457 | the first hit position of a retrieved id, where its distance is found |
| Search.Hydrate | ads_pipeline.py:461-472 | every stored document whose id was retrieved appears once per copy, scored by the distance at its id's position in the retrieved list; nothing else appears |
| Search.AsWrittenScores | ads_pipeline.py:467-468 | the score of the j-th retrieved id is `D[0][j]`, the distance of the j-th hit, not of that id's own hit |
| Search.HitScores | ads_pipeline.py:467-468 | each retrieved id is scored by the distance at its first hit |
| Search.MisalignedScoreExample | ads_pipeline.py:452-468 | with ids `["a", "a", "b"]` and distinct hits `[0, 1, 2]` at distances `[1, 2, 9]`, `b` is scored 2, the distance of the second `a`, not its own 9 |
| Search.AlignedWhenHitsDistinct | ads_pipeline.py:452-468 | when the scanned hits are all in range and point at different ads, the as-written scores equal the first-hit scores |
| Search.AlignedOnDistinct | ads_pipeline.py:452-468 | for hits that are all in range and on different ads, de-duplication changes nothing, one id is kept per hit, and the two scorings agree |
| Search.PaddingKeepsAlignment | ads_pipeline.py:452-468 | `-1` padding after the real hits leaves the two scorings equal, so alignment does not need every scanned hit to be valid |
| Search.SortBy | ads_pipeline.py:474 | the result is a permutation of the input, ordered by score |
| Search.RankAsWritten | ads_pipeline.py:474 | a permutation in non-increasing score order: the farthest document comes first |
| Search.Rank | ads_pipeline.py:474 | a permutation in non-decreasing distance order: the nearest document comes first |
| Search.FarthestFirstExample | ads_pipeline.py:474 | of two documents at distances 1 and 5, the code puts the one at 5 first |
| Search.SearchAdsAsWritten | ads_pipeline.py:434-476 | an empty index returns `[]`; otherwise the ids selected for k, hydrated with position-aligned distances and sorted farthest first |
| Search.SearchAds | ads_pipeline.py:434-476 | as above, with the same ids, but each document is scored by the distance of its own first hit and sorted nearest first |
| Pipeline.MissingColumns | ads_pipeline.py:89-90 | a column is reported iff it is required and absent from the header, in the order `Keyword`, `Category`, `Search Intent` |
| Pipeline.MissingAppend | ads_pipeline.py:90 | the missing-column check over a concatenation is the concatenation of the checks |
| Pipeline.ReadKeywords | ads_pipeline.py:85-102 | an unreadable file or a missing column gives `[]`; otherwise one record per row, pairing each header with that row's cell |
| Pipeline.RecordsHaveRequiredColumns | ads_pipeline.py:89-98 | every returned record has all three required columns |
| Pipeline.PageAsWritten | ads_pipeline.py:119-133 | each page with a `page_id` costs exactly one request |
| Pipeline.CollectAsWritten | ads_pipeline.py:118-136 | the number of requests made is the number of pages with a `page_id` |
| Pipeline.CollectAppend | ads_pipeline.py:118-133 | collecting two page lists in turn collects each list's edges, in order |
| Pipeline.FailedPageIsolated | ads_pipeline.py:119-133 | a page whose id or fetch raises adds nothing and does not stop the pages after it |
| Pipeline.PaginationStopsEarly | ads_pipeline.py:123-131 | for a page with three batches, the code collects only the first batch, and the corrected loop collects all three |
| Pipeline.FollowPages | ads_pipeline.py:123-129 | the corrected loop makes at least one request and no more than its fuel bound |
| Pipeline.CollectPaginated | ads_pipeline.py:118-133 | every page with a `page_id` makes between 1 and the fuel bound of requests |
| Pipeline.AsWrittenIsOneRequest | ads_pipeline.py:123-131 | the code is the corrected loop cut off after one batch |
| Pipeline.MoreFuelExtends | ads_pipeline.py:123-129 | with more fuel, the corrected loop only extends the edges already collected |
| Pipeline.CleanData | ads_pipeline.py:138-146 | the result is the value with every string replaced by its re-encoding: same constructors, keys, order and lengths, and every non-string leaf unchanged |
| Pipeline.CleanIdentity | ads_pipeline.py:138-146 | when re-encoding changes no string, cleaning changes nothing |
| Pipeline.CleanIdempotent | ads_pipeline.py:138-146 | when re-encoding is idempotent, so is cleaning |

## Left out

- The HTTP session, its headers and cookies, the request bodies' `variables` and `doc_id` fields, and `session.post`. Responses enter as parameters: the response text for `_parse_response`, the decoded value elsewhere, and `(status, text)` for the landing page.
- The throttle retry in `get_page_ads` (meta.py:238-243). It sleeps for the `Retry-After` header, or 60 seconds, then calls itself again without limit and discards the result. The model stops at the first attempt and returns the throttled response. That is what the code returns once a retry finishes, if one ever does. A `Retry-After` header that is not an integer makes `int()` raise (meta.py:241), and a negative one makes `time.sleep` raise (meta.py:242); the `except` at meta.py:395-397 then returns `[]`, which the model does not follow either.
- The `ProxyError`/`SSL` retry in `get_page_ads` (meta.py:391-394). It recurses without limit and then returns `None`. Network exceptions are not modelled. An exception from the walk itself returns `[]` (meta.py:395-397).
- The rate limiter's `threading.Lock`, which is held during `time.sleep`. The model is a single thread of calls, so a sleeping caller blocking every other caller is not modelled.
- Floating point. The clock (`time.time()`) is an integer count of ticks, so the limiter's timestamps and sleep times are integers. Search distances are integers, and `float(D[0][index])` is the identity.
- `str.isdigit` and the regular expression `\d` accept only ASCII digits here. Python's also accept other Unicode decimal digits.
- Duplicate keys in a decoded JSON object. `json.loads` keeps the last value of a repeated key, but `PyJson.Lookup` finds the first. Objects from the decoder parameter are assumed to have no repeated keys.
- Logging and `print`, including the dump of every parsed response at meta.py:237 and the error loop at meta.py:546-549. Only the loop's ability to raise is modelled (`ErrorsLoggable`).
- `_generate_session_id`, `search_pages` and the keyword-search phase of `collect_ads` (ads_pipeline.py:105-116). The model starts from the list of pages.
- Also not modelled: `push_to_mongo`, enrichment, embeddings, media download, `_print_ad_details`, and the debug file written by `_save_raw_response`. None of them affects the values modelled here.
- `ProxyPool.test_connection`, a network probe.
- Randomness (`random.randint`, `random.choices`, `uuid`) and the clock. These are parameters: `Protocol.Entropy` carries the draws and clock readings of one request, and `NewPool` takes the index draw.
- The per-ad fields of `get_page_ads` that never vary (`languages`, `spend`, the `target_*` lists and similar, meta.py:288-299). They are not repeated in `AdExtraction.Ad`. `body_text` is computed but never stored, so only `BodyText` models it.
- The seven parameters that never vary (`av`, `__user`, `__a`, `dpr`, `__ccg`, `__dyn`, `__comet_req`) are the constant `Protocol.FixedFields`, sent with every `Params`. The `c_user` cookie is the constant `Protocol.CUser`.
- The answer to the snapshot look-up. At meta.py:524, `get_page_ads(page_id)` lacks three required arguments and always raises `TypeError`, after the limiter has run. So `formatted_details['ad']` never receives a snapshot, and the update at meta.py:525-537 cannot happen.
- FollowPages: the corrected pagination loop takes a fuel bound on the number of batches. An upstream that never reports `has_next_page` false is cut off there.
- RateLimiter.Prune: the multiplicity of every timestamp is stated by the separate lemma `RateLimiter.PruneCounts`, not by `Prune`'s own ensures.
- AdDetails.NamesWhere is total. It agrees with the source's comprehensions only when every truthy entry is a dict (`TruthyAreDicts`), which `SplitIsComprehensions` and `TargetingLocations` require.
- Search.SearchAdsAsWritten: `k * 2` hits are asked of the index. The model takes the hit and distance lists of any equal length, since the index is a parameter.
- Pipeline.CleanData: `encode('utf-8', 'replace').decode('utf-8')` is a re-encoding function parameter. The model does not fix which strings it changes, only that every string is replaced by its image under that function.
- Two points where the code and its design description differ; the model follows the code in both:
  - the proxy pool has one URL and `get_proxy` always returns it, so no rotation over several endpoints happens;
  - the collector follows only the first batch of each page (see Findings).

## Findings

| source | as written | input that shows it | evidently intended | confidence | as-written member | corrected member |
|---|---|---|---|---|---|---|
| ads_pipeline.py:131 | an unconditional `break` ends the `while has_next_page` loop after the first batch | a page whose upstream serves three batches, `has_next_page` true on the first two: one batch is collected | follow `end_cursor` until `has_next_page` is false | high (not executed) | Pipeline.CollectAsWritten, Pipeline.PaginationStopsEarly | Pipeline.CollectPaginated |
| ads_pipeline.py:467-468 | a document's score is `D[0][index]`, with `index` its position among the de-duplicated ids, not among the hits | ids `["a", "a", "b"]` with distinct hits `[0, 1, 2]` at distances `[1, 2, 9]`: `b` gets the second `a`'s distance 2 instead of its own 9 | score each document by the distance of its own first hit | medium (not executed) | Search.SearchAdsAsWritten, Search.MisalignedScoreExample | Search.SearchAds, Search.HitScores |
| ads_pipeline.py:474 | results sorted by distance with `reverse=True`, so the farthest comes first | two documents at L2 distances 1 and 5: the one at 5 is listed first | nearest first, as a relevance ranking over distances should be | medium (not executed) | Search.RankAsWritten, Search.FarthestFirstExample | Search.Rank |
