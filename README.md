# gsc-bing-mcp: a verified model of the session-auth and response-shaping core

gsc-bing-mcp is an MCP server. It reads Google Search Console data by
replaying the user's Chrome session, and Bing Webmaster data with an API
key. This project models its deterministic core in Dafny and proves what
that core promises:

- **Session cookies** (`ChromeCookies`, `chrome_cookies.py`):
  - the process-wide one-slot cache with a 300-second lifetime. It is a
    `class CookieCache` whose methods are proved against the pure
    transition `GoogleCookies`;
  - the filtering loop that turns raw cookie records into a name-to-value
    map;
  - the preference-ordered choice of the signing cookie (`SAPISID`, then
    `__Secure-3PAPISID`, then `__Secure-1PAPISID`);
  - the `Cookie` header built from the known names plus the
    `__Host-`/`__Secure-` cookies.
- **SAPISIDHASH** (`SapisidHash`, `sapisidhash.py`): the signed message
  `"{ts} {sapisid} {origin}"`, the value `SAPISIDHASH {ts}_{digest}`
  (read back by a parser, so the format is a proved round trip), the
  eleven request headers, and `validate_gsc_auth`.
- **HTTP clients** (`GscClient`, `BingClient`): the status-code
  classification of both clients, the Search Analytics request payload, the
  Bing error-message fallback and the `BING_API_KEY` lookup.
- **Tool helpers** (`Server`, `server.py`):
  - the 28-day default window;
  - comma-separated dimension parsing;
  - the limit clamps and the requests the report tools send;
  - `_format_gsc_rows`;
  - the clicks-descending keyword sort over an array;
  - the sitemap URL count;
  - the referring-URL cut;
  - `refresh_google_session`.

`PyText` models the few Python `str` operations the core uses (`strip`,
`split`, `join`, `str(n)`, `in`, slicing). `Wrappers` holds `Option` and
`Result`, which stand in for `None` and for raised `RuntimeError`s.

Things outside the program are parameters:
- the clock `time.time()` (`now: real`, and the integer `timestamp` for a
  signature);
- `date.today()` (`today`, a day number) and `date.isoformat()`
  (`isoformat`);
- SHA-1 (`sha1`, a function from the message to its hex digest);
- the outcome of reading Chrome's cookie store (`ChromeRead`: the records
  read, or the failure message);
- the value of the `BING_API_KEY` environment variable;
- the order in which Python iterates the known-name set and the cookie
  dict (`IterationOrder`). The header properties hold for every
  enumeration.

## Model

| member | source | states |
|---|---|---|
| ChromeCookies.CookieCache.constructor | gsc_bing_mcp/extractors/chrome_cookies.py:28-30 | the slot starts empty (`data` None, `expires` 0.0) |
| ChromeCookies.CookieCache.IsCached | gsc_bing_mcp/extractors/chrome_cookies.py:33-37 | a hit exactly when data is stored and the clock is strictly before the expiry |
| ChromeCookies.CookieCache.GetCache | gsc_bing_mcp/extractors/chrome_cookies.py:45-46 | returns the stored data on a hit and None otherwise |
| ChromeCookies.CookieCache.SetCache | gsc_bing_mcp/extractors/chrome_cookies.py:40-42 | a usable cookie set is stored, expiring 300 s after the given time, and the cache invariant holds |
| ChromeCookies.CookieCache.ClearCookieCache | gsc_bing_mcp/extractors/chrome_cookies.py:170-173 | the slot is then empty with expiry 0.0, and the cache invariant holds |
| ChromeCookies.LookupAfterStore | gsc_bing_mcp/extractors/chrome_cookies.py:40-46 | after storing at t, a lookup returns the data for every clock value below t + 300 and nothing from t + 300 on |
| ChromeCookies.LookupAfterClear | gsc_bing_mcp/extractors/chrome_cookies.py:170-173 | after a clear, every lookup misses |
| ChromeCookies.BuildCookieMap | gsc_bing_mcp/extractors/chrome_cookies.py:106-112 | the loop builds exactly the map of the kept records, in order |
| ChromeCookies.CookieMapEntriesNonEmpty | gsc_bing_mcp/extractors/chrome_cookies.py:108-112 | every entry of the built map has a non-empty name and value |
| ChromeCookies.CookieMapDomain | gsc_bing_mcp/extractors/chrome_cookies.py:108-112 | a name is in the map iff some record with a non-empty name and value carries it |
| ChromeCookies.CookieMapLastWins | gsc_bing_mcp/extractors/chrome_cookies.py:108-112 | a name's value is that of its last kept record: later duplicates overwrite |
| ChromeCookies.FirstValue | gsc_bing_mcp/extractors/chrome_cookies.py:142-145 | absent iff no listed name has a non-empty value; when present it is the value of the first listed name that has a non-empty value |
| ChromeCookies.GetSapisid | gsc_bing_mcp/extractors/chrome_cookies.py:133-149 | the search loop returns the first signing cookie with a non-empty value in preference order, and fails with "SAPISID not found" iff there is none |
| ChromeCookies.SessionCredentialIsSigningValue | gsc_bing_mcp/extractors/chrome_cookies.py:115-121 | the `or` chain in `get_google_cookies` picks the same credential as `get_sapisid` |
| ChromeCookies.BuildCookieHeader | gsc_bing_mcp/extractors/chrome_cookies.py:152-167 | the two loops produce the `"; "`-join of the known-name parts followed by the prefixed parts |
| ChromeCookies.KnownPartsMembers | gsc_bing_mcp/extractors/chrome_cookies.py:158-160 | the first loop emits `name=value` exactly for the present names it enumerates |
| ChromeCookies.PrefixedPartsMembers | gsc_bing_mcp/extractors/chrome_cookies.py:163-165 | the second loop emits exactly the present `__Host-`/`__Secure-` cookies outside the known set |
| ChromeCookies.CookiePartsMember | gsc_bing_mcp/extractors/chrome_cookies.py:157-165 | one `name=value` part is emitted iff the cookie is present and its name is known or `__Host-`/`__Secure-` prefixed |
| ChromeCookies.CookiePartsDistinct | gsc_bing_mcp/extractors/chrome_cookies.py:157-165 | no cookie name is emitted twice: the second loop skips known names |
| ChromeCookies.CookieHeaderParts | gsc_bing_mcp/extractors/chrome_cookies.py:157-167 | a part is in the header iff its cookie is present and its name is known or `__Host-`/`__Secure-` prefixed; no name appears twice |
| ChromeCookies.ClassifyReadFailure | gsc_bing_mcp/extractors/chrome_cookies.py:87-104 | a read failure is "locked" iff the lower-cased message mentions locked/busy/unable to open; otherwise it is a permission error iff the message mentions permission/access, and else a generic error carrying the message |
| ChromeCookies.ClassificationIgnoresCase | gsc_bing_mcp/extractors/chrome_cookies.py:88 | the classification does not depend on the case of ASCII letters |
| ChromeCookies.FetchCookies | gsc_bing_mcp/extractors/chrome_cookies.py:85-126 | succeeds iff the read worked and a signing cookie has a value; it then returns the built map, which is usable; a read failure is classified; a missing credential gives "session cookies not found" |
| ChromeCookies.CacheHitServesCachedCookies | gsc_bing_mcp/extractors/chrome_cookies.py:77-81 | without force_refresh, a live cached set is returned and the slot is untouched |
| ChromeCookies.RefreshReadsChrome | gsc_bing_mcp/extractors/chrome_cookies.py:77-130 | with force_refresh or on a miss, the result is that of reading Chrome; a failure leaves the slot unchanged, a success stores exactly the returned map |
| ChromeCookies.GoogleCookiesKeepsValid | gsc_bing_mcp/extractors/chrome_cookies.py:114-128 | the cache only ever holds, and returns, cookie sets with a signing credential |
| ChromeCookies.CookieCache.GetGoogleCookies | gsc_bing_mcp/extractors/chrome_cookies.py:67-130 | the method's result and new slot are those of the `GoogleCookies` transition, and the cache invariant is kept |
| PyText.Strip | gsc_bing_mcp/clients/bing_client.py:42 | the result has no whitespace at either end, and is empty iff the input is all whitespace |
| PyText.StripSurrounded | gsc_bing_mcp/clients/bing_client.py:42 | stripping removes exactly the surrounding whitespace of a stripped string |
| PyText.Split | gsc_bing_mcp/server.py:137 | at least one piece, no piece contains the separator, joining the pieces gives the input back |
| PyText.SplitJoin | gsc_bing_mcp/server.py:137 | splitting a join of separator-free parts gives the parts back |
| PyText.DecimalRoundTrip | gsc_bing_mcp/extractors/sapisidhash.py:49 | `str(n)` read back as a number is n |
| PyText.DecimalOfValue | gsc_bing_mcp/extractors/sapisidhash.py:51 | a digit string without a leading zero is `str` of its value |
| PyText.ContainsIffOccurs | gsc_bing_mcp/extractors/chrome_cookies.py:89 | `sub in s` iff sub occurs at some index of s |
| PyText.Take | gsc_bing_mcp/clients/gsc_client.py:56 | `s[:n]` has length min(len(s), n) and is a prefix of s |
| SapisidHash.ComputeSapisidhash | gsc_bing_mcp/extractors/sapisidhash.py:37-51 | the value parses back to the timestamp and the digest of `"{ts} {sapisid} {origin}"`; with a 40-hex-digit digest it is well formed |
| SapisidHash.ParsedIsFormatted | gsc_bing_mcp/extractors/sapisidhash.py:51 | the parser accepts only `SAPISIDHASH {str(ts)}_{digest}`: a zero-padded timestamp is rejected |
| SapisidHash.SapisidhashDeterminedByParse | gsc_bing_mcp/extractors/sapisidhash.py:48-51 | a value that parses to (ts, digest of the signed message) is exactly the computed signature |
| SapisidHash.ParseFormatted | gsc_bing_mcp/extractors/sapisidhash.py:51 | `SAPISIDHASH {ts}_{digest}` reads back as (ts, digest) |
| SapisidHash.DistinctTimestampsDistinctSignatures | gsc_bing_mcp/extractors/sapisidhash.py:48-51 | signatures made at different seconds differ |
| SapisidHash.GetGscAuthHeaders | gsc_bing_mcp/extractors/sapisidhash.py:54-94 | fails ("SAPISID not found") iff no signing cookie has a value; otherwise exactly the eleven headers, Authorization signing the preferred credential, Cookie the cookie header, X-Origin/X-Referer/Origin the origin, Referer origin + "/search-console/", and the fixed Content-Type, User-Agent, Accept, Accept-Language and X-Goog-Authuser values |
| SapisidHash.AuthorizationUsesPreferredCredential | gsc_bing_mcp/extractors/sapisidhash.py:75-80 | with any signing cookie present, Authorization signs SAPISID, else `__Secure-3PAPISID`, else `__Secure-1PAPISID` |
| SapisidHash.ValidateGscAuth | gsc_bing_mcp/extractors/sapisidhash.py:97-106 | true iff fetching the cookies through the cache succeeds (header building then cannot fail); the cache moves as `get_google_cookies` moves it |
| GscClient.HandleResponseError | gsc_bing_mcp/clients/gsc_client.py:28-57 | no error iff 200; 401/403/429/404 give session-expired/access-denied/rate-limited/not-found; any other status a generic error with that status and the first 200 body characters |
| GscClient.ClassificationIgnoresBody | gsc_bing_mcp/clients/gsc_client.py:30-53 | for 200, 401, 403, 404 and 429 the outcome does not depend on the body |
| GscClient.QueryPayload | gsc_bing_mcp/clients/gsc_client.py:106-122 | rowLimit is min(row_limit, 25000); dimensions default to ["query"] and otherwise pass through; dimensionFilterGroups is present iff a non-empty list is given; the other fields pass through |
| BingClient.GetBingApiKey | gsc_bing_mcp/clients/bing_client.py:32-53 | fails iff the variable is unset or all whitespace; otherwise a non-empty stripped key |
| BingClient.ApiKeyLosesSurroundingSpace | gsc_bing_mcp/clients/bing_client.py:42-53 | a key with surrounding whitespace is returned without it |
| BingClient.ErrorMessage | gsc_bing_mcp/clients/bing_client.py:82-87 | the body's `Message`, else its `message`, else its first 200 characters |
| BingClient.HandleResponseError | gsc_bing_mcp/clients/bing_client.py:56-91 | no error iff 200; 401/403/429/404 each their own error; any other status an error with the status and the error message |
| BingClient.DistinctErrorKinds | gsc_bing_mcp/clients/bing_client.py:61-80 | the four fixed statuses give four different errors |
| Server.DefaultDateRange | gsc_bing_mcp/server.py:56-61 | the window ends three days before today and starts no later than it ends |
| Server.DefaultWindowDays | gsc_bing_mcp/server.py:56-61 | the window holds exactly 28 days, the last of them today - 3 |
| Server.ResolveDates | gsc_bing_mcp/server.py:193-194 | both given dates are kept; if either is missing or empty, both become the default window |
| Server.KeptDimensions | gsc_bing_mcp/server.py:137 | keeps only non-empty, stripped, separator-free pieces, no more of them than there are pieces |
| Server.ParseDimensions | gsc_bing_mcp/server.py:137-139 | the stripped non-empty pieces when there are any, else `["query"]`; every dimension is non-empty, stripped and comma-free |
| Server.KeptDimensionsEmpty | gsc_bing_mcp/server.py:137 | nothing is kept iff every piece strips to the empty string |
| Server.ParseDimensionsDefault | gsc_bing_mcp/server.py:137-139 | `["query"]` comes from the default exactly when every comma-separated piece is blank |
| Server.KeptDimensionsOfPadded | gsc_bing_mcp/server.py:137 | stripping blank-padded pieces and dropping empty ones gives exactly the non-empty dimensions, in order |
| Server.ParseDimensionsOfPadded | gsc_bing_mcp/server.py:137-139 | a comma-join of blank-padded dimensions parses to its non-empty dimensions in order, or `["query"]` when all are empty |
| Server.ParseDimensionsOfJoin | gsc_bing_mcp/server.py:137-139 | parsing a comma-join of such dimensions gives them back |
| Server.Clamp | gsc_bing_mcp/server.py:141 | `max(lo, min(n, hi))` lies in [lo, hi], is n inside it and the nearer bound outside |
| Server.BingMaxCount | gsc_bing_mcp/server.py:425 | at most 500, equal to the limit up to 500 |
| Server.SearchAnalyticsRequest | gsc_bing_mcp/server.py:136-149 | row limit `max(1, min(row_limit, 1000))`, so the given one when in range and the nearer bound outside; dimensions the parsed non-empty list; dates passed through |
| Server.TopReportRequest | gsc_bing_mcp/server.py:192-204 | row limit `max(1, min(limit, 200))`, so the given one when in range and the nearer bound outside; the single report dimension; the resolved dates |
| Server.DimensionValuesKeys | gsc_bing_mcp/server.py:68-71 | a formatted row has an entry for exactly the requested dimensions |
| Server.DimensionValueAt | gsc_bing_mcp/server.py:69-71 | dimension i is keys[i] when i < len(keys), else None (for a name not repeated later) |
| Server.FormatGscRows | gsc_bing_mcp/server.py:64-77 | one formatted row per input row, in order, each the row's dimension entries with clicks and impressions defaulting to 0 |
| Server.SortKeywordsByClicks | gsc_bing_mcp/server.py:533-534 | the keyword array ends in non-increasing clicks and is a permutation of the input |
| Server.InsertKeyword | gsc_bing_mcp/server.py:534 | one insertion step extends the sorted prefix by one, permuting only `a[..i + 1]` and leaving the rows after it unchanged |
| Server.UrlCount | gsc_bing_mcp/server.py:302-305 | the sum is non-negative when every `submitted` is |
| Server.UrlCountSingle | gsc_bing_mcp/server.py:303 | one entry counts its `submitted`, or 0 when it has none |
| Server.UrlCountAppend | gsc_bing_mcp/server.py:302-305 | the count of concatenated contents is the sum of the counts |
| Server.UrlCountIgnoresMissing | gsc_bing_mcp/server.py:303 | an entry without `submitted` adds nothing |
| Server.ReferringUrls | gsc_bing_mcp/server.py:352 | a prefix of the list: the whole list when it has at most 5 URLs, exactly the first 5 otherwise |
| Server.RefreshGoogleSession | gsc_bing_mcp/server.py:552-571 | the result is that of reading Chrome; a success leaves the cache holding it for 300 s, a failure leaves the cache empty |

## Left out

- Reading Chrome's cookie database (`rookiepy.chrome`) and OS keychain decryption. These are a foreign, OS-specific call, so the model takes their outcome as the `ChromeRead` parameter.
- `str(e).lower()` is modelled for ASCII letters only. Unicode case folding of other letters is not modelled.
- SHA-1 is not modelled. It is the `sha1` parameter, and well-formedness is proved for any hash that returns 40 lowercase hex digits.
- The clock. `get_google_cookies` reads `time.time()` for the lookup and again, after the Chrome read, for the store. The model uses one `now` for both, so a stored entry expires 300 s after the lookup, not after the read. Float rounding of `now + 300` is not modelled: the clock is a real number.
- `date.today()`, `timedelta` and `isoformat()` become day numbers and the `isoformat` parameter.
- All HTTP requests, `async`/`await`, `response.json()` parsing and URL quoting of the site are network I/O and library calls, and are not modelled.
- A response body that parses as JSON is modelled only by its string-valued fields.
- FastMCP tool registration, logging, `json.dumps` output and the user-facing message texts are plumbing and are not modelled. Errors are datatype constructors, not strings.
- The tools `gsc_list_sites`, `gsc_list_sitemaps`, `gsc_inspect_url`, `bing_list_sites`, `bing_search_analytics` and `bing_crawl_stats` are not modelled except for their pure parts: the URL-count sum, the referring-URL cut and the Bing count cap. The rest copies dictionary fields with defaults.
- The Bing row field normalisation (`row.get("Clicks", row.get("clicks", 0))` and the like) is a dictionary default on every field. The keyword sort works on the normalised rows.
- The floating-point `ctr` and `position` rounding in `_format_gsc_rows`.
- Server.FormatGscRows: a requested dimension named `clicks`, `impressions`, `ctr` or `position` is overwritten by the metric in the Python dict. The model keeps dimensions and counts in separate fields, and leaves the float metrics out.
- Server.SortKeywordsByClicks: does not state that the sort is stable (Python's sort keeps equal-click rows in their input order). Only order and permutation are proved.
- `get_sapisid()` and `get_gsc_auth_headers()` called without cookies fetch them through the cache. Only `validate_gsc_auth`, which always takes this path, models it. The other two take the cookie set as an argument.
