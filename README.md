# Québec registry scraper: a Dafny model of its decision and text logic

The repository scrapes two Québec public registries for companies given by their
NEQ (Québec enterprise number). One is the transport-commission register (CTQ).
The other is the building-licence register (RBQ). It then enriches the companies
it found with a language model, either from a CSV file or from a MySQL table.
This project models the logic around the scraping and proves properties of it.
The HTTP, DOM, language-model and database machinery stays outside the model.

- **CTQ lookup** (`ctq_scraper.py`) is modelled by four modules:
  - `CtqForms`: the `execution=` URL rewrite, the `submitForm(...)` handler parser, and the follow-up form payload with its defaults.
  - `CtqAddress`: the address block cut into street, city, province, postal code and country.
  - `CtqWorkflow`: each callback as a function from the session meta and a page record to "stop", "next request" or "record".
  - `CtqSpider`: a class holding the NEQ list, the proxy cursor and the counters, whose methods draw the proxy for every request.

  `ProxyAuth` holds the pool of proxy entries and the `Proxy-Authorization` header. That header is the Basic scheme of section 2 of RFC 7617, with UTF-8 and the base64 of section 4 of RFC 4648, and both round trips are proved. `RoundRobin` is the `(i + 1) % n` cursor.
- **Proxy health pool** (`comprehensive_middleware.py`) is the class `ProxyHealth.Middleware`:
  - per-proxy health records;
  - the round-robin pick that skips sleeping or failing proxies, with its fail-open reset;
  - sleep bookkeeping;
  - error counters;
  - a sticky user agent per proxy;
  - `Set-Cookie` merging.
- **CTQ/RBQ confirmation** (`neq_confirmation.py`) is `NeqConfirmation`:
  - NEQ column detection and row loading;
  - the two-registry verdict;
  - the residential-or-pool proxy route;
  - the retry on error, as the class `NeqConfirmation.Spider`.
- **Enrichment** (`ai_enhancment.py`) is `AiEnhancement`:
  - JSON candidate extraction and repair, with `json.loads` as an abstract partial parser;
  - response-text extraction over a JSON tree;
  - schema normalisation;
  - CSV row mapping;
  - the skip, gating and truncation loop of `process_csv_file`.
- **Database enrichment** (`ai_db_enrichment.py`) is `AiDbEnrichment`:
  - the pending-row query over a table as a map from id to columns;
  - `build_company_payload` and `_parse_int`;
  - the `processed` / commit loop of `enrich_ai_test_rows`, with what the database keeps after commits and rollbacks.

Shared modules hold the pieces of Python the code relies on:

| module | what it holds |
|---|---|
| `Common` | `Option` and the truthiness of an optional text |
| `Str` | `strip` over the full `str.isspace` set, `split`, `find`, `in`, `join` and ASCII `lower` |
| `Json` | JSON values and their truthiness |
| `Url` | `urljoin` on a registry origin |

Each core file takes the form the source has:
- What the source computes is written as functions, with lemmas about them.
- What the source changes in place is written as class methods with `modifies` clauses.
- Each loop of the source is a method whose `while` loop is proved equal to a specification function, for example `ScanColumns`, `LoadColumn`, `CollectParams`, `NextAvailable`, `CollectPieces`, `NormaliseResult`, `LoadCompaniesFromCsv`, `ScanResults`, `ProcessCsvFile` and `EnrichAiTestRows`.

Paths below are relative to the repository root.

## Model

| member | source | states |
|---|---|---|
| CtqForms.ValueEnd | req_scrapers/req_scrapers/spiders/ctq_scraper.py:236 | the `[^&;]*` run from `k` ends at the first `&` or `;`, or at the end of the text |
| CtqForms.RewriteAppends | req_scrapers/req_scrapers/spiders/ctq_scraper.py:232-234 | a URL without `execution=` stays a prefix, followed by `&` exactly when it already has `?` (else `?`), then `execution=<token>` |
| CtqForms.SubValueFirst | req_scrapers/req_scrapers/spiders/ctq_scraper.py:236 | `re.sub` keeps the text before the first match; for a token without `&` or `;` that match's value becomes the token, and the rest is the rewrite of what followed the old value |
| CtqForms.RewriteCarriesToken | req_scrapers/req_scrapers/spiders/ctq_scraper.py:231-236 | whatever the URL, the rewritten URL contains `execution=<token>` |
| CtqForms.RewriteIdempotent | req_scrapers/req_scrapers/spiders/ctq_scraper.py:231-236 | for a token without `&` or `;`, rewriting the rewritten URL changes nothing |
| CtqForms.AppendedIsFixed | req_scrapers/req_scrapers/spiders/ctq_scraper.py:232-236 | a URL that gained `execution=<token>` by appending is left alone by a second rewrite |
| CtqForms.SubValueIdempotent | req_scrapers/req_scrapers/spiders/ctq_scraper.py:236 | the substitution with a plain token is idempotent |
| CtqForms.ParseRow | req_scrapers/req_scrapers/spiders/ctq_scraper.py:339 | a row unpacks exactly when removing the quotes leaves exactly two comma fields, which are then the key and the value |
| CtqForms.ParseRowText | req_scrapers/req_scrapers/spiders/ctq_scraper.py:339 | a row `'key','value'` written by the page, with quote- and comma-free fields, parses back to that key and value |
| CtqForms.SplitHandler | req_scrapers/req_scrapers/spiders/ctq_scraper.py:334-337 | the handler splits only when it has `submitForm(`, one `,null,` and a second comma field; the target id is that field stripped, then stripped of quote characters |
| CtqForms.TargetIsBare | req_scrapers/req_scrapers/spiders/ctq_scraper.py:336 | the target id never begins or ends with a quote character |
| CtqForms.KeepUntilBad | req_scrapers/req_scrapers/spiders/ctq_scraper.py:338-342 | the rows kept are the parses of the rows before the first row that fails, in order |
| CtqForms.ToMapKeys | req_scrapers/req_scrapers/spiders/ctq_scraper.py:338-340 | the dictionary's keys are exactly the keys of the stored rows |
| CtqForms.ToMapLastWins | req_scrapers/req_scrapers/spiders/ctq_scraper.py:340 | a key maps to the value of the last row that carries it |
| CtqForms.CollectParams | req_scrapers/req_scrapers/spiders/ctq_scraper.py:338-342 | the loop stores rows one by one until one fails to unpack; the result is the dictionary of the rows before it, and `complete` says whether every row parsed |
| CtqForms.OnclickAllOrNothing | req_scrapers/req_scrapers/spiders/ctq_scraper.py:459-473 | `extract_onclick_formdata` gives `({}, None)` without `submitForm(` or on any failure; otherwise the target id and the dictionary of every row, each of which parsed |
| CtqForms.PickViewState | req_scrapers/req_scrapers/spiders/ctq_scraper.py:345-349 | the view state is the `execution` argument when truthy, else the page token when truthy, else `"1"` |
| CtqForms.PayloadKeys | req_scrapers/req_scrapers/spiders/ctq_scraper.py:353-363 | the payload has exactly the nine fields of the detail form |
| CtqForms.PayloadFields | req_scrapers/req_scrapers/spiders/ctq_scraper.py:353-363 | each row field is the handler's value when it supplied one and its default (`129540`, `PECVL`, `""`, `""`, `oui`, `0`) otherwise; `_idcl` is the default only when no usable target id was read |
| CtqForms.NoHandlerDefaults | req_scrapers/req_scrapers/spiders/ctq_scraper.py:328-363 | a page without a `PECVL` handler, or with one that does not split, gets the default payload |
| CtqForms.HandlerPayload | req_scrapers/req_scrapers/spiders/ctq_scraper.py:327-365 | a handler that splits gives the payload of the rows read before the first failure and of its target id |
| CtqForms.ReadRowsReachPayload | req_scrapers/req_scrapers/spiders/ctq_scraper.py:332-363 | a row read before the first failure and not overwritten later reaches the payload even if a later row fails to unpack |
| Str.NormalizeIdempotent | req_scrapers/req_scrapers/spiders/ctq_scraper.py:380-381 | normalising normalised lines changes nothing |
| Str.NormalizeMembers | req_scrapers/req_scrapers/spiders/ctq_scraper.py:380-381 | normalised lines are exactly the non-blank input lines stripped, none of them empty |
| CtqAddress.ParseCityLine | req_scrapers/req_scrapers/spiders/ctq_scraper.py:413-420 | city, province and code are stripped; the city holds no `(` and the province no `)`; a missing `(` or `)` ends the cut and keeps the fields set before it |
| CtqAddress.CityLineRoundTrip | req_scrapers/req_scrapers/spiders/ctq_scraper.py:415-418 | a line `City (Prov) Code` with bare fields free of parentheses cuts back into exactly those three fields |
| CtqAddress.CityLineNoParen | req_scrapers/req_scrapers/spiders/ctq_scraper.py:414-420 | without `(` the whole stripped line is the city and province and code stay empty |
| CtqAddress.CityLineNoClose | req_scrapers/req_scrapers/spiders/ctq_scraper.py:414-420 | with `(` but no `)` after it, city and province are kept and the code stays empty |
| CtqAddress.RunEnd | req_scrapers/req_scrapers/spiders/ctq_scraper.py:396 | the `[A-Za-z0-9\s]+` run ends at the first character outside the class |
| CtqAddress.LastPostal | req_scrapers/req_scrapers/spiders/ctq_scraper.py:396 | the greedy `+` backing off: the largest position in the run where the postal group matches |
| CtqAddress.Search | req_scrapers/req_scrapers/spiders/ctq_scraper.py:397 | `re.search`: the leftmost start where the pattern matches, no earlier start matching, and the group start is the last one the run allows |
| CtqAddress.PaysAsWritten | req_scrapers/req_scrapers/spiders/ctq_scraper.py:389-404 | `pays` is empty for two lines or fewer, else the stripped text of the last line before `match.start()`; it is always bare |
| CtqAddress.Pays | req_scrapers/req_scrapers/spiders/ctq_scraper.py:389-404 | the corrected country: the stripped text before the postal group's start, empty for two lines or fewer or no match |
| CtqAddress.PaysBeforePostal | req_scrapers/req_scrapers/spiders/ctq_scraper.py:396-401 | when the pattern matches, `Pays` is the text right before a postal group, and the match start used as written is at or before the group start |
| CtqAddress.PaysAsWrittenLosesCountry | req_scrapers/req_scrapers/spiders/ctq_scraper.py:396-403 | with last line `USA 90210`, the code as written gives `""` and the corrected reading gives `USA` |
| CtqAddress.ParseAddress | req_scrapers/req_scrapers/spiders/ctq_scraper.py:406-420 | every field is bare; `adresse` is the first normalised line, empty exactly when no line is non-blank; the city fields come from line two; `pays` as written |
| CtqAddress.AddressIdempotent | req_scrapers/req_scrapers/spiders/ctq_scraper.py:406-420 | parsing the normalised lines again gives the same fields |
| CtqAddress.TwoLineAddress | req_scrapers/req_scrapers/spiders/ctq_scraper.py:406-420 | a block `street` / `City (Prov) Code` gives back street, city, province and code, the full address joined by a space, and no country |
| CtqWorkflow.Text | req_scrapers/req_scrapers/spiders/ctq_scraper.py:377-378 | `get(default="").strip()` is bare and empty when the query finds nothing |
| CtqWorkflow.FormatExcelTextIsIdentity | req_scrapers/req_scrapers/spiders/ctq_scraper.py:722-727 | `_format_excel_text` returns its argument unchanged |
| CtqWorkflow.FirstNir | req_scrapers/req_scrapers/spiders/ctq_scraper.py:441 | the NIR is empty or starts with `R-` |
| CtqWorkflow.FirstNirEmpty | req_scrapers/req_scrapers/spiders/ctq_scraper.py:441 | the NIR is empty exactly when no stripped text starts with `R-` |
| CtqWorkflow.FirstNirAt | req_scrapers/req_scrapers/spiders/ctq_scraper.py:441 | a non-empty NIR is the first stripped text that starts with `R-` |
| CtqWorkflow.SearchPayloadCarriesNeq | req_scrapers/req_scrapers/spiders/ctq_scraper.py:127-143 | the search form asks for exactly the requested NEQ under the page's view state |
| CtqWorkflow.InitialStep | req_scrapers/req_scrapers/spiders/ctq_scraper.py:118-183 | `parse_initial` stops exactly when `mainForm` or its view state is missing; otherwise it posts the search form back to the page URL to `check_validity` with the NEQ and cookie jar |
| CtqWorkflow.RedirectExecution | req_scrapers/req_scrapers/spiders/ctq_scraper.py:201-202 | the follow-up token is the page's view state when truthy, else `e1s2`; never empty |
| CtqWorkflow.ValidityDecision | req_scrapers/req_scrapers/spiders/ctq_scraper.py:197-218 | `check_validity` never emits a record; it goes on exactly when the status is not 401, the body is non-empty, the action is present, there is no `Erreur(s)` marker and the displayed NEQ is the requested one; it then takes the VRAC branch exactly when the VRAC link exists |
| CtqWorkflow.ValidityFollowUp | req_scrapers/req_scrapers/spiders/ctq_scraper.py:213-298 | in either branch the follow-up URL carries `execution=<token>`, and the meta keeps the NEQ, the cookie jar and the client links |
| CtqWorkflow.VracBranchCarriesDetailForm | req_scrapers/req_scrapers/spiders/ctq_scraper.py:244-253 | the VRAC request carries the form action and the detail form built with the redirect token |
| CtqWorkflow.VracStep | req_scrapers/req_scrapers/spiders/ctq_scraper.py:504-568 | `parse_vrac_result` never stops; it emits the VRAC-only record exactly when the stored action is falsy, and otherwise posts the stored form |
| CtqWorkflow.DetailRecord | req_scrapers/req_scrapers/spiders/ctq_scraper.py:432-456 | the record has the given VRAC cells, the displayed NEQ or else the requested one, and a NIR that is empty or starts with `R-` |
| CtqWorkflow.DetailRecordAddress | req_scrapers/req_scrapers/spiders/ctq_scraper.py:406-440 | the address columns of the record are those of the parsed address block |
| CtqWorkflow.LookupOutcome | req_scrapers/req_scrapers/spiders/ctq_scraper.py:118-218 | a lookup yields a record exactly when the search form could be posted and the result page confirms the NEQ; its VRAC columns are all empty without a VRAC link and the four table cells with one; its extra values are the client links |
| CtqWorkflow.ConfirmedOutcome | req_scrapers/req_scrapers/spiders/ctq_scraper.py:213-298 | after a confirmed page, the extra values carried are the stripped non-blank client links joined by commas |
| CtqSpider.Dedup | req_scrapers/req_scrapers/spiders/ctq_scraper.py:44 | `dict.fromkeys` keeps exactly the values of the input, with no repeats |
| CtqSpider.DedupKeepsFirstOrder | req_scrapers/req_scrapers/spiders/ctq_scraper.py:44 | the deduplicated list keeps first-occurrence order |
| CtqSpider.DedupDistinct | req_scrapers/req_scrapers/spiders/ctq_scraper.py:44 | a list without repeats comes through unchanged |
| CtqSpider.IndexOf | req_scrapers/req_scrapers/spiders/ctq_scraper.py:47 | `list.index` is the position of the first occurrence |
| CtqSpider.Resume | req_scrapers/req_scrapers/spiders/ctq_scraper.py:46-48 | with a truthy `start_neq` in the list, the list from its first occurrence; otherwise the list unchanged |
| CtqSpider.NeqListClean | req_scrapers/req_scrapers/spiders/ctq_scraper.py:41-48 | every NEQ of the list is stripped and non-empty, none appears twice, and each comes from the comma list or the file |
| CtqSpider.ResumeAt | req_scrapers/req_scrapers/spiders/ctq_scraper.py:46-48 | resuming takes a suffix of the list |
| CtqSpider.NeqListResume | req_scrapers/req_scrapers/spiders/ctq_scraper.py:46-51 | without a resume point in the list, the list is the cleaned, deduplicated comma list followed by the file values |
| CtqSpider.ParseProxyEntry | req_scrapers/req_scrapers/spiders/ctq_scraper.py:686-711 | credentials come only from four colon fields or, failing that, four comma fields |
| CtqSpider.GetProxyCreds | req_scrapers/req_scrapers/spiders/ctq_scraper.py:679-684 | an empty pool gives empty credentials; otherwise the entry at `index % len` is parsed |
| CtqSpider.ColonEntry | req_scrapers/req_scrapers/spiders/ctq_scraper.py:687-699 | `IP:PORT:USER:PASS` gives `IP:PORT`, the user and the password |
| CtqSpider.CommaEntry | req_scrapers/req_scrapers/spiders/ctq_scraper.py:691-699 | `IP,PORT,USER,PASS` gives the same when no field holds `:` or `,` |
| CtqSpider.CommaPairEntry | req_scrapers/req_scrapers/spiders/ctq_scraper.py:702-706 | `IP,PORT` gives `IP:PORT` without credentials |
| CtqSpider.PlainEntry | req_scrapers/req_scrapers/spiders/ctq_scraper.py:708-711 | an entry with neither separator is used verbatim without credentials |
| CtqSpider.BuildRequestShape | req_scrapers/req_scrapers/spiders/ctq_scraper.py:729-791 | the request goes to the URL asked with the meta given, sends the form only for a POST, has the browser headers, a `Referer` exactly when the meta has a truthy one and then equal to it, the proxy URL of the drawn entry or none, and `Proxy-Authorization` exactly when that entry has user and password, set to their Basic credentials |
| CtqSpider.CredsAtCursor | req_scrapers/req_scrapers/spiders/ctq_scraper.py:683 | at a position of the pool `get_proxy_creds` reads the entry there |
| CtqSpider.StartRequestFacts | req_scrapers/req_scrapers/spiders/ctq_scraper.py:97-104 | the start request is a GET of the start URL to `parse_initial` with the NEQ and cookie jar `jar-<neq>` |
| CtqSpider.StartedEach | req_scrapers/req_scrapers/spiders/ctq_scraper.py:97-104 | each request of the batch is the start request of its NEQ, through its pool entry |
| CtqSpider.Spider.constructor | req_scrapers/req_scrapers/spiders/ctq_scraper.py:35-62 | the NEQ list is cleaned, deduplicated and resumed, the pool is read, and the cursor and counters start at 0 |
| CtqSpider.Spider.NextProxy | req_scrapers/req_scrapers/spiders/ctq_scraper.py:713-720 | on a pool the cursor moves to `(i + 1) % len` and the entry there is read; on an empty pool nothing changes and the credentials are empty |
| CtqSpider.Spider.SendDraft | req_scrapers/req_scrapers/spiders/ctq_scraper.py:158-183 | an inline form request goes through the next pool entry (cursor advanced once), or through no proxy when the pool is empty |
| CtqSpider.Spider.Respond | req_scrapers/req_scrapers/spiders/ctq_scraper.py:174-183 | a stop yields nothing and a record yields the record, both leaving the cursor alone; a next step sends its draft |
| CtqSpider.Spider.ParseInitialPage | req_scrapers/req_scrapers/spiders/ctq_scraper.py:106-183 | a request is sent exactly when the form and its view state are there, and no record; the request is the search form of `InitialStep` sent through the next pool entry with the cursor advanced once, or through no proxy on an empty pool; a stop leaves the cursor alone |
| CtqSpider.Spider.CheckValidityPage | req_scrapers/req_scrapers/spiders/ctq_scraper.py:185-325 | a request is sent exactly when the page confirms the NEQ, and no record; it is the follow-up of `ValidityStep` sent through the next pool entry with the cursor advanced once, or through no proxy on an empty pool; a stop leaves the cursor alone |
| CtqSpider.Spider.ParseVracPage | req_scrapers/req_scrapers/spiders/ctq_scraper.py:475-568 | a record holding the table cells is yielded exactly when the stored action is falsy, with the cursor left alone; otherwise the stored detail form is posted through the next pool entry with the cursor advanced once, or through no proxy on an empty pool |
| CtqSpider.Spider.ParseDetailPage | req_scrapers/req_scrapers/spiders/ctq_scraper.py:367-458 | yields the detail record with the carried VRAC cells, or empty ones |
| CtqSpider.Spider.MakeRequest | req_scrapers/req_scrapers/spiders/ctq_scraper.py:729-791 | `total_requests` rises by one; the request goes through the next pool entry, or no proxy on an empty pool |
| CtqSpider.Spider.StartRequests | req_scrapers/req_scrapers/spiders/ctq_scraper.py:97-104 | one start request per NEQ, in order, the `k`-th through pool entry `cursor + k + 1`; `total_requests` rises by the number of NEQs |
| CtqSpider.Spider.SendStart | req_scrapers/req_scrapers/spiders/ctq_scraper.py:97-104 | the start request of one NEQ through the next pool entry, counted once |
| CtqSpider.Spider.HandleError | req_scrapers/req_scrapers/spiders/ctq_scraper.py:793-839 | a retry happens exactly when there is a failed request and a pool; then the cursor advances once and the request is replaced with the new proxy; otherwise `errors` rises by one |
| RoundRobin.NextSlotIsMod | req_scrapers/req_scrapers/spiders/ctq_scraper.py:716 | the step is `(c + 1) % n` for every cursor on the pool |
| RoundRobin.AdvanceStep | req_scrapers/req_scrapers/spiders/ctq_scraper.py:716 | each step moves the cursor to `(cursor + 1) % n` |
| RoundRobin.AdvanceWithinLap | req_scrapers/req_scrapers/spiders/ctq_scraper.py:716 | within one lap the cursor after `k` steps is `c + k`, wrapped once |
| RoundRobin.RoundRobinCoversPool | req_scrapers/req_scrapers/spiders/ctq_scraper.py:713-720 | `n` steps round a pool of `n` visit every position and come back to the start |
| ProxyAuth.Utf8RoundTrip | req_scrapers/req_scrapers/spiders/ctq_scraper.py:162-163 | decoding `str.encode()` gives the text back |
| ProxyAuth.EncodeIsBase64 | req_scrapers/req_scrapers/spiders/ctq_scraper.py:163 | `b64encode` output holds only alphabet characters and padding, four per group |
| ProxyAuth.Base64RoundTrip | req_scrapers/req_scrapers/spiders/ctq_scraper.py:163 | base64 decoding of the encoding gives the bytes back |
| ProxyAuth.BasicAuthRecoversCredentials | req_scrapers/req_scrapers/spiders/ctq_scraper.py:161-163 | the header is `Basic ` followed by base64 text that decodes to exactly `user:password` |
| ProxyAuth.ProxyPool | req_scrapers/req_scrapers/spiders/ctq_scraper.py:58-60 | every entry of the pool is non-empty and stripped |
| ProxyAuth.ProxyPoolEntries | req_scrapers/req_scrapers/spiders/ctq_scraper.py:58-60 | the pool is empty when the file gives no JSON list; otherwise it holds exactly the stripped non-blank items of the list, in the list's order |
| ProxyAuth.WithProxyAuthForgets | req_scrapers/req_scrapers/spiders/ctq_scraper.py:755-763 | setting a proxy's credentials replaces or removes those of the proxy before |
| ProxyAuth.ProxyAuthAttached | req_scrapers/req_scrapers/spiders/ctq_scraper.py:755-757 | the header is present exactly when user and password are both non-empty, and then decodes to them |
| Url.JoinOriginAbsolute | req_scrapers/req_scrapers/spiders/ctq_scraper.py:281 | the joined URL is the reference itself when that starts with `http:` or `https:`, and otherwise it starts with `https:` |
| Url.JoinOriginPath | req_scrapers/req_scrapers/spiders/ctq_scraper.py:505 | a site-relative action lands on the origin with the action as its path |
| ProxyHealth.UserAgentsNamed | req_scrapers/req_scrapers/comprehensive_middleware.py:26-48 | no user agent of the list is empty, so one once assigned is kept |
| ProxyHealth.EligibleIndices | req_scrapers/req_scrapers/comprehensive_middleware.py:95-103 | the listed positions are pool positions, in increasing order |
| ProxyHealth.EligibleIndicesAre | req_scrapers/req_scrapers/comprehensive_middleware.py:95-103 | a position is listed exactly when its proxy is awake (`sleep_until <= now`) and has fewer than three consecutive errors |
| ProxyHealth.Touch | req_scrapers/req_scrapers/comprehensive_middleware.py:95-96 | no record is lost by the scan |
| ProxyHealth.TouchKeeps | req_scrapers/req_scrapers/comprehensive_middleware.py:95-96 | the scan gives a default record to each pool entry that lacked one and changes no existing record |
| ProxyHealth.ResetAll | req_scrapers/req_scrapers/comprehensive_middleware.py:108-110 | the reset keeps the set of recorded proxies and wakes each record |
| ProxyHealth.ResetMakesEligible | req_scrapers/req_scrapers/comprehensive_middleware.py:105-111 | after the reset every recorded proxy is eligible at any time from the epoch on, and only the two reset fields changed |
| ProxyHealth.FirstAfterAt | req_scrapers/req_scrapers/comprehensive_middleware.py:114-117 | the first eligible position after the cursor, cyclically, is reached in the fewest steps |
| ProxyHealth.ChosenIsEligible | req_scrapers/req_scrapers/comprehensive_middleware.py:114-119 | the position picked among the eligible ones is eligible |
| ProxyHealth.MissedWithinLap | req_scrapers/req_scrapers/comprehensive_middleware.py:116-117 | a cursor that has missed every eligible position has not yet gone round the pool, so the search loop ends within one lap |
| ProxyHealth.NextAvailable | req_scrapers/req_scrapers/comprehensive_middleware.py:114-117 | the `while` loop terminates on a non-empty eligible list and stops at the first eligible position strictly after the cursor, cyclically |
| ProxyHealth.Slept | req_scrapers/req_scrapers/comprehensive_middleware.py:139-145 | `sleep_until` is `now + 60·minutes`, `total_sleep_time` grows by that, `blocked_count` by one, and nothing else changes |
| ProxyHealth.FailureSleeps | req_scrapers/req_scrapers/comprehensive_middleware.py:237-242 | a proxy that just failed is ineligible for the next ten minutes and has one more error of each kind |
| ProxyHealth.ThreeStrikes | req_scrapers/req_scrapers/comprehensive_middleware.py:98-102 | three failures in a row keep a proxy out of the round robin until the reset |
| ProxyHealth.ProxyUrl | req_scrapers/req_scrapers/comprehensive_middleware.py:170-180 | the proxy URL always starts with `http://` |
| ProxyHealth.ProxyUrlWithCredentials | req_scrapers/req_scrapers/comprehensive_middleware.py:170-174 | four colon-free fields give `http://user:pass@ip:port` |
| ProxyHealth.ProxyUrlPlain | req_scrapers/req_scrapers/comprehensive_middleware.py:178-180 | any other entry is put after `http://` unchanged |
| ProxyHealth.ParseCookieShape | req_scrapers/req_scrapers/comprehensive_middleware.py:231-233 | a cookie is read exactly when the text before the first `;` has an `=`, as the stripped text before and after the first `=` |
| ProxyHealth.ParseCookieRoundTrip | req_scrapers/req_scrapers/comprehensive_middleware.py:231-233 | `name=value; attributes` gives back the name and value |
| ProxyHealth.CookiesFromLastWins | req_scrapers/req_scrapers/comprehensive_middleware.py:228-234 | a name ends up with the value of the last header that sets it |
| ProxyHealth.CookiesFromNames | req_scrapers/req_scrapers/comprehensive_middleware.py:228-234 | only names that some header sets appear |
| ProxyHealth.ServedAfterWake | req_scrapers/req_scrapers/comprehensive_middleware.py:165-167 | the fail-open reset does not disturb what serving a request records |
| ProxyHealth.DressedCarriesSession | req_scrapers/req_scrapers/comprehensive_middleware.py:183-206 | the sent request names its proxy URL and proxy, carries the proxy's user agent, its cookies merged over the request's, and the browser headers |
| ProxyHealth.ResponseCookies | req_scrapers/req_scrapers/comprehensive_middleware.py:228-233 | the cookie loop computes `CookiesFrom` of the `Set-Cookie` values |
| ProxyHealth.ResponseHealth | req_scrapers/req_scrapers/comprehensive_middleware.py:249-254 | a success clears the error run, so the proxy is eligible as soon as it is awake |
| ProxyHealth.ResponseKeepsCookies | req_scrapers/req_scrapers/comprehensive_middleware.py:227-234 | when the last `Set-Cookie` value is non-empty, the cookies the response sets are in the proxy's jar afterwards and the others are kept; otherwise the jar is unchanged |
| ProxyHealth.Statistics | req_scrapers/req_scrapers/comprehensive_middleware.py:282-296 | a summary exactly for each proxy with at least one request, with its counters and whether it sleeps at `now` |
| ProxyHealth.StatisticsShowSleep | req_scrapers/req_scrapers/comprehensive_middleware.py:282-296 | a used proxy that just failed is reported asleep for ten minutes, and awake after the reset |
| ProxyHealth.PickedIsUsable | req_scrapers/req_scrapers/comprehensive_middleware.py:87-119 | the picked proxy is on the pool and eligible once the scan is done, whether it is eligible outright or after the fail-open reset |
| ProxyHealth.Middleware.constructor | req_scrapers/req_scrapers/comprehensive_middleware.py:25-85 | the pool is the stripped non-empty entries, no records, and cursor and counters at 0 |
| ProxyHealth.Middleware.ScanPool | req_scrapers/req_scrapers/comprehensive_middleware.py:95-103 | the records are touched for every pool entry and the result is the eligible positions |
| ProxyHealth.Middleware.WakeAll | req_scrapers/req_scrapers/comprehensive_middleware.py:108-110 | every record is woken and its error run cleared |
| ProxyHealth.Middleware.StepToAvailable | req_scrapers/req_scrapers/comprehensive_middleware.py:114-117 | the cursor ends on the first eligible position after where it was, cyclically |
| ProxyHealth.Middleware.GetAvailableProxy | req_scrapers/req_scrapers/comprehensive_middleware.py:87-119 | `None` on an empty pool; otherwise the entry at the new cursor, which is the first eligible position after the old cursor, or, when none is eligible, position 0 after every record is reset |
| ProxyHealth.Middleware.UserAgentFor | req_scrapers/req_scrapers/comprehensive_middleware.py:121-129 | the proxy's user agent when it has one, else one from the list, stored for the proxy |
| ProxyHealth.Middleware.SetSessionCookies | req_scrapers/req_scrapers/comprehensive_middleware.py:135-137 | the cookies are merged into the proxy's jar, later values winning; nothing else changes |
| ProxyHealth.Middleware.PutProxyToSleep | req_scrapers/req_scrapers/comprehensive_middleware.py:139-147 | the proxy's record becomes `Slept`; the other records are unchanged |
| ProxyHealth.Middleware.RotateToNextProxy | req_scrapers/req_scrapers/comprehensive_middleware.py:149-152 | the cursor moves one step and the rotation count rises by one; on an empty pool the modulo raises and nothing changes |
| ProxyHealth.Middleware.RecordFailure | req_scrapers/req_scrapers/comprehensive_middleware.py:268-278 | both error counters rise, the proxy sleeps ten minutes, and the cursor rotates once |
| ProxyHealth.Middleware.SendThrough | req_scrapers/req_scrapers/comprehensive_middleware.py:165-206 | only the proxy's record changes, by serving one request with its sticky user agent; the request is dressed with it |
| ProxyHealth.Middleware.CountRequest | req_scrapers/req_scrapers/comprehensive_middleware.py:209-211 | one more request is counted and the last proxy change is the cursor |
| ProxyHealth.Middleware.ProcessRequest | req_scrapers/req_scrapers/comprehensive_middleware.py:154-216 | on an empty pool nothing changes; otherwise the whole new state: the picked proxy's record is served, the other records are unchanged or reset, and the cursor is the first eligible position after the old one |
| ProxyHealth.Middleware.ProcessResponse | req_scrapers/req_scrapers/comprehensive_middleware.py:218-260 | the response comes back unchanged; without `current_proxy` nothing changes; a failure status raises errors, sleeps and rotates; any other status clears the error run |
| ProxyHealth.Middleware.RecordResponse | req_scrapers/req_scrapers/comprehensive_middleware.py:224-258 | the proxy's record after the response's cookies and status; a failure status rotates the cursor |
| ProxyHealth.Middleware.KeepResponseCookies | req_scrapers/req_scrapers/comprehensive_middleware.py:227-234 | the response's cookies are merged into the proxy's jar exactly when the header's last value is non-empty |
| ProxyHealth.Middleware.RecordSuccess | req_scrapers/req_scrapers/comprehensive_middleware.py:249-254 | the proxy's error run is cleared and its last success is `now` |
| ProxyHealth.Middleware.ProcessException | req_scrapers/req_scrapers/comprehensive_middleware.py:262-280 | without `current_proxy` nothing changes; otherwise the same failure bookkeeping and rotation |
| NeqConfirmation.FirstWhere | req_scrapers/req_scrapers/spiders/neq_confirmation.py:91-101 | the first header with the property, `None` exactly when no header has it |
| NeqConfirmation.NeqColumn | req_scrapers/req_scrapers/spiders/neq_confirmation.py:85-110 | the first accepted name, else the first header containing `neq`, else the only header when there is exactly one, else none |
| NeqConfirmation.ScanColumns | req_scrapers/req_scrapers/spiders/neq_confirmation.py:91-94 | the `for` loop with `break` finds `FirstWhere` |
| NeqConfirmation.FindNeqColumn | req_scrapers/req_scrapers/spiders/neq_confirmation.py:85-105 | the column detection computes `NeqColumn` |
| NeqConfirmation.ColumnCells | req_scrapers/req_scrapers/spiders/neq_confirmation.py:112 | one cell per row, `row.get(col) or ""` |
| NeqConfirmation.LoadColumn | req_scrapers/req_scrapers/spiders/neq_confirmation.py:111-114 | the row loop keeps each stripped non-blank cell, in row order |
| NeqConfirmation.LoadedValues | req_scrapers/req_scrapers/spiders/neq_confirmation.py:111-119 | loading keeps every value, repeats included, and more rows only append |
| NeqConfirmation.NeqList | req_scrapers/req_scrapers/spiders/neq_confirmation.py:70-121 | every loaded NEQ is stripped and non-empty |
| NeqConfirmation.ReadNeqs | req_scrapers/req_scrapers/spiders/neq_confirmation.py:70-121 | the file reading of `__init__` computes `NeqList` |
| NeqConfirmation.YesNo | req_scrapers/req_scrapers/spiders/neq_confirmation.py:179-184 | a verdict is always `Yes` or `No` |
| NeqConfirmation.CtqPayload | req_scrapers/req_scrapers/spiders/neq_confirmation.py:135-151 | the CTQ search asks for the NEQ under the fixed view state `e1s1` |
| NeqConfirmation.CtqRedirectStep | req_scrapers/req_scrapers/spiders/neq_confirmation.py:161-174 | without an action the RBQ check starts with CTQ "No"; with one the result page is fetched |
| NeqConfirmation.RbqPayload | req_scrapers/req_scrapers/spiders/neq_confirmation.py:200-206 | the RBQ search asks for the NEQ |
| NeqConfirmation.RbqRedirectStep | req_scrapers/req_scrapers/spiders/neq_confirmation.py:216-235 | with an action the result page is fetched; without one an item with RBQ "No" is emitted exactly when CTQ is "Yes" |
| NeqConfirmation.RbqResultStep | req_scrapers/req_scrapers/spiders/neq_confirmation.py:237-252 | an item is emitted exactly when RBQ or CTQ says "Yes", and it carries both verdicts |
| NeqConfirmation.ConfirmIffListed | req_scrapers/req_scrapers/spiders/neq_confirmation.py:161-252 | over the whole exchange an item comes out exactly when one registry lists the NEQ, and it gives both verdicts |
| NeqConfirmation.GetProxyCreds | req_scrapers/req_scrapers/spiders/neq_confirmation.py:258-267 | empty credentials for an empty pool; the entry verbatim without credentials unless it has exactly four colon fields |
| NeqConfirmation.ProxyCredsFields | req_scrapers/req_scrapers/spiders/neq_confirmation.py:263-266 | four colon fields give `IP:PORT`, the user and the password |
| NeqConfirmation.ProxyCredsPlain | req_scrapers/req_scrapers/spiders/neq_confirmation.py:262-267 | an entry without a colon is used verbatim, without credentials |
| NeqConfirmation.Stripped | req_scrapers/req_scrapers/spiders/neq_confirmation.py:33-36 | every setting is stripped |
| NeqConfirmation.RouteFor | req_scrapers/req_scrapers/spiders/neq_confirmation.py:284-293 | the residential endpoint with its credentials when enabled; else the pool entry at the cursor; else no proxy |
| NeqConfirmation.ResidentialIgnoresPool | req_scrapers/req_scrapers/spiders/neq_confirmation.py:284-287 | with the residential proxy on, the route is the same whatever the pool and the cursor, and it always carries credentials |
| NeqConfirmation.BaseHeadersCarryNoAuth | req_scrapers/req_scrapers/spiders/neq_confirmation.py:270-276 | the fixed headers hold no `Proxy-Authorization` |
| NeqConfirmation.PoolAuth | req_scrapers/req_scrapers/spiders/neq_confirmation.py:290-292 | a pool entry gives a header exactly when it has both user and password |
| NeqConfirmation.PoolHeaders | req_scrapers/req_scrapers/spiders/neq_confirmation.py:288-293 | the headers through a pool entry are the fixed ones with that entry's credentials |
| NeqConfirmation.BuildRequest | req_scrapers/req_scrapers/spiders/neq_confirmation.py:269-316 | the request keeps the draft's URL, callback and meta; it is a POST with the draft's form data exactly for a form, else a GET with none; its proxy is the route's proxy URL, none when direct; its headers are the fixed ones plus `Proxy-Authorization` set to the route's header exactly when the route has one |
| NeqConfirmation.StartedEach | req_scrapers/req_scrapers/spiders/neq_confirmation.py:124-131 | the `k`-th start request is the CTQ search page of the `k`-th NEQ |
| NeqConfirmation.PoolRetryIsFresh | req_scrapers/req_scrapers/spiders/neq_confirmation.py:339-365 | a request retried through pool entry `j` equals the request freshly built through entry `j` |
| NeqConfirmation.ResidentialRetrySame | req_scrapers/req_scrapers/spiders/neq_confirmation.py:325-338 | a retry through the residential endpoint resends the same proxy and credentials |
| NeqConfirmation.Spider.constructor | req_scrapers/req_scrapers/spiders/neq_confirmation.py:27-121 | pool, NEQ list and stripped settings read in, the residential endpoint enabled exactly when all four settings are non-empty, counters at 0 |
| NeqConfirmation.Spider.MakeRequest | req_scrapers/req_scrapers/spiders/neq_confirmation.py:269-316 | the request along the current route, one more counted, the cursor untouched |
| NeqConfirmation.Spider.StartRequests | req_scrapers/req_scrapers/spiders/neq_confirmation.py:124-131 | one start request per NEQ in order, all along the current route, counted |
| NeqConfirmation.Spider.Follow | req_scrapers/req_scrapers/spiders/neq_confirmation.py:153-235 | a fetch becomes a counted request, an item is yielded, nothing leaves the counters alone |
| NeqConfirmation.Spider.HandleError | req_scrapers/req_scrapers/spiders/neq_confirmation.py:318-368 | without a request, or with no route to retry, `errors` rises by one; through the residential endpoint the request is resent; through the pool the cursor advances once and the request goes through the next entry |
| AiEnhancement.FirstIndex | req_scrapers/req_scrapers/ai_enhancment.py:67 | the first `{` position, `None` exactly when there is none |
| AiEnhancement.LastIndex | req_scrapers/req_scrapers/ai_enhancment.py:67 | the last `}` position, `None` exactly when there is none |
| AiEnhancement.CandidateSpan | req_scrapers/req_scrapers/ai_enhancment.py:67-69 | the candidate runs from the first `{` to the last `}`, and exists exactly when some `{` comes before some `}` |
| AiEnhancement.CandidateAround | req_scrapers/req_scrapers/ai_enhancment.py:67-69 | a `{` before a `}` lies inside the candidate |
| AiEnhancement.DropTrailingCommas | req_scrapers/req_scrapers/ai_enhancment.py:75 | the substitution never lengthens the text |
| AiEnhancement.DropKeepsOthers | req_scrapers/req_scrapers/ai_enhancment.py:75 | dropping trailing commas keeps the count of every character other than commas and whitespace |
| AiEnhancement.DropWithoutComma | req_scrapers/req_scrapers/ai_enhancment.py:75 | text without commas is unchanged |
| AiEnhancement.DropKeepsPlainPrefix | req_scrapers/req_scrapers/ai_enhancment.py:75 | a text none of whose commas is trailing comes through unchanged, commas included, and the scan goes on after it as if it began there |
| AiEnhancement.DropFirstTrailing | req_scrapers/req_scrapers/ai_enhancment.py:75 | a trailing comma (a comma, only whitespace, then `}` or `]`) is replaced by the bracket when no comma before it is trailing; the text before it is kept as it is, its commas included |
| AiEnhancement.TrailingAfterKeptComma | req_scrapers/req_scrapers/ai_enhancment.py:75 | `{"a":1,"b":2,}` becomes `{"a":1,"b":2}`: the separating comma is kept and the trailing one goes |
| AiEnhancement.FirstRepairShape | req_scrapers/req_scrapers/ai_enhancment.py:74-75 | the first repair leaves no `'` and keeps the count of `{` and `}` |
| AiEnhancement.BraceRepairBalances | req_scrapers/req_scrapers/ai_enhancment.py:81-88 | the brace repair applies exactly when `{` outnumbers `}`, keeps the text as a prefix, adds only `}`, and balances the braces |
| AiEnhancement.BraceRepairAfterFirst | req_scrapers/req_scrapers/ai_enhancment.py:74-88 | after the first repair the brace repair applies exactly when the candidate has more `{` than `}`, and appends exactly the difference |
| AiEnhancement.Attempts | req_scrapers/req_scrapers/ai_enhancment.py:62-96 | between one and three texts go to the parser |
| AiEnhancement.FirstParsedIsFirst | req_scrapers/req_scrapers/ai_enhancment.py:70-96 | the result fails only when every attempt is rejected, and otherwise is the parse of the first accepted one |
| AiEnhancement.ExtractJsonTriesInOrder | req_scrapers/req_scrapers/ai_enhancment.py:62-96 | `extract_json_from_text` tries the candidate, its first repair and its brace repair (or the whole text) in order and keeps the first success |
| AiEnhancement.NonBlank | req_scrapers/req_scrapers/ai_enhancment.py:164-167 | at most one piece, and never a blank one |
| AiEnhancement.PartTypeIrrelevant | req_scrapers/req_scrapers/ai_enhancment.py:160-177 | an `output_text` part and any other object with a `text` field contribute the same pieces |
| AiEnhancement.ResponseText | req_scrapers/req_scrapers/ai_enhancment.py:130-191 | the text found is always truthy |
| AiEnhancement.ResponseTextPrecedence | req_scrapers/req_scrapers/ai_enhancment.py:130-198 | a non-object answer has no text; a truthy `output_text` wins; then a non-empty `output` string or the non-blank joined pieces of an `output` list; when `output` is missing, empty or gives only blank pieces, a non-empty `choices[0].message.content`; with none of these there is no text |
| AiEnhancement.CollectPieces | req_scrapers/req_scrapers/ai_enhancment.py:142-179 | the loop over `output` computes `OutputPieces` |
| AiEnhancement.CollectContent | req_scrapers/req_scrapers/ai_enhancment.py:152-177 | the loop over one `content` list computes `ContentPieces` |
| AiEnhancement.ExtractText | req_scrapers/req_scrapers/ai_enhancment.py:130-191 | the step-by-step extraction computes `ResponseText` |
| AiEnhancement.FilledShape | req_scrapers/req_scrapers/ai_enhancment.py:230-233 | `setdefault` adds exactly the missing keys with their defaults and changes no present value |
| AiEnhancement.NormalisedShape | req_scrapers/req_scrapers/ai_enhancment.py:229-236 | every schema key present and nothing else added; present values kept except a `None` `contacts`; a missing `contacts` is `[]` and any other missing key `None` |
| AiEnhancement.NormaliseResult | req_scrapers/req_scrapers/ai_enhancment.py:229-237 | the `setdefault` loop and the `contacts` check compute `Normalised` |
| AiEnhancement.FallbackNormalised | req_scrapers/req_scrapers/ai_enhancment.py:208-236 | the fallback record is already normalised |
| AiEnhancement.NormalisedHasSchema | req_scrapers/req_scrapers/ai_enhancment.py:229-236 | every normalised record has the schema |
| AiEnhancement.EnrichOutcomes | req_scrapers/req_scrapers/ai_enhancment.py:191-237 | `enrich_company` ends the program exactly when there is no answer or no text in it, and every record it returns has the schema |
| AiEnhancement.EnrichFromText | req_scrapers/req_scrapers/ai_enhancment.py:199-237 | once there is a text, a parsed object is normalised, an unparsable text gives the fallback record, and a parsed non-object raises |
| AiEnhancement.DroitCirculation | req_scrapers/req_scrapers/ai_enhancment.py:261-270 | the gate value is bare, and empty when the cell is empty or its JSON has no usable entry |
| AiEnhancement.RowCompanyStripped | req_scrapers/req_scrapers/ai_enhancment.py:252-270 | a row raises exactly when one of the six cells it reads is `None`; otherwise company/address/city/state/postal_code become nom/adresse/ville/province/code_postal, each stripped, with a missing column read as `""` |
| AiEnhancement.LoadRowsWellRead | req_scrapers/req_scrapers/ai_enhancment.py:247-274 | every company loaded has a name and stripped fields |
| AiEnhancement.LoadRowsFailureSticks | req_scrapers/req_scrapers/ai_enhancment.py:244-278 | once a row raises the whole load fails |
| AiEnhancement.ShortRowLosesAll | req_scrapers/req_scrapers/ai_enhancment.py:252-278 | a non-empty row short of a column it reads makes the load return `[]` |
| AiEnhancement.LoadRowsKeeps | req_scrapers/req_scrapers/ai_enhancment.py:247-274 | when the load succeeds, every non-empty row whose company has a name is in it |
| AiEnhancement.LoadCompaniesFromCsv | req_scrapers/req_scrapers/ai_enhancment.py:239-280 | the row loop computes `LoadCompanies` |
| AiEnhancement.LimitIsPrefix | req_scrapers/req_scrapers/ai_enhancment.py:296-297 | a positive `max_companies` keeps the first that many companies, anything else keeps all |
| AiEnhancement.AlreadyDoneSkips | req_scrapers/req_scrapers/ai_enhancment.py:322-328 | the scan passes over results that differ from the company |
| AiEnhancement.AlreadyDoneMeans | req_scrapers/req_scrapers/ai_enhancment.py:322-331 | the company is found exactly when some result matches on stripped, lower-cased nom and adresse and every earlier one differs without raising |
| AiEnhancement.ScanResults | req_scrapers/req_scrapers/ai_enhancment.py:322-328 | the inner loop with `break` computes `AlreadyDone` |
| AiEnhancement.Run | req_scrapers/req_scrapers/ai_enhancment.py:318-363 | the loop over companies always ends in a finished or halted run |
| AiEnhancement.StepMeans | req_scrapers/req_scrapers/ai_enhancment.py:318-359 | one turn stops exactly when the company halts; otherwise it appends its record exactly when it is picked and counts it; it writes the whole list at most once, exactly after a failed enrichment or after an appended record that brings the count to a multiple of five |
| AiEnhancement.RunGrows | req_scrapers/req_scrapers/ai_enhancment.py:316-363 | the loop only appends, `processed_count` stays the length of the results, and a finished run writes the whole list last |
| AiEnhancement.RunAccount | req_scrapers/req_scrapers/ai_enhancment.py:318-359 | the run is accounted company by company, each marked by whether it is picked given the results so far |
| AiEnhancement.RunAppendsPicked | req_scrapers/req_scrapers/ai_enhancment.py:318-342 | the loop appends exactly the records of the picked companies (not already done, admitted by the gate, enriched), in input order, up to the first that halts |
| AiEnhancement.Turn | req_scrapers/req_scrapers/ai_enhancment.py:318-359 | one turn of the loop computes `Step` |
| AiEnhancement.ProcessCsvFile | req_scrapers/req_scrapers/ai_enhancment.py:282-363 | the step-by-step `process_csv_file` computes `ProcessCsv` |
| AiDbEnrichment.Least | req_scrapers/req_scrapers/ai_db_enrichment.py:60 | the least id of a non-empty set is in it and at most every other |
| AiDbEnrichment.PendingIds | req_scrapers/req_scrapers/ai_db_enrichment.py:58-59 | the pending ids are ids of the table |
| AiDbEnrichment.AscendingHolds | req_scrapers/req_scrapers/ai_db_enrichment.py:60 | the ascending listing holds exactly the ids of the set |
| AiDbEnrichment.AscendingPair | req_scrapers/req_scrapers/ai_db_enrichment.py:60 | an earlier id of the listing is smaller than a later one |
| AiDbEnrichment.AscendingSorted | req_scrapers/req_scrapers/ai_db_enrichment.py:60 | the listing is strictly ascending |
| AiDbEnrichment.PendingIdsListed | req_scrapers/req_scrapers/ai_db_enrichment.py:57-60 | each listed id is pending and in the table |
| AiDbEnrichment.RowsOf | req_scrapers/req_scrapers/ai_db_enrichment.py:46-57 | one row per id, carrying that id and its stored columns |
| AiDbEnrichment.PendingRowsAre | req_scrapers/req_scrapers/ai_db_enrichment.py:58-66 | the rows are the first pending ids in ascending order, with their stored columns, capped by a positive smaller limit |
| AiDbEnrichment.PendingRowsShape | req_scrapers/req_scrapers/ai_db_enrichment.py:45-66 | rows are pending rows with their stored columns, in strictly ascending id, as many as the limit when it is positive and smaller than the count, and all otherwise |
| AiDbEnrichment.PendingRowsSmallest | req_scrapers/req_scrapers/ai_db_enrichment.py:60-66 | a pending id the limit leaves out is larger than every id returned |
| AiDbEnrichment.UnlimitedGetsAll | req_scrapers/req_scrapers/ai_db_enrichment.py:62-66 | without a positive limit every pending row of the table is among the rows returned |
| AiDbEnrichment.ParseInt | req_scrapers/req_scrapers/ai_db_enrichment.py:186-193 | the integer when `int()` accepts the text and it is positive; `None` exactly for no text, rejected text, or a value at most 0 |
| AiDbEnrichment.CommandLineLimit | req_scrapers/req_scrapers/ai_db_enrichment.py:203-204 | an argument caps the query exactly when it is a positive integer; otherwise every pending row is fetched |
| AiDbEnrichment.Cleaned | req_scrapers/req_scrapers/ai_db_enrichment.py:80 | `(v or "").strip()` is bare, and empty for `None` or `""` |
| AiDbEnrichment.PayloadShape | req_scrapers/req_scrapers/ai_db_enrichment.py:75-92 | exactly the six keys; `neq`, `nom`, `ville`, `province` and `code_postal` are their columns stripped with `None` as `""`; `adresse` is the cleaned street address, or the cleaned full address exactly when that is empty |
| AiDbEnrichment.PayloadStable | req_scrapers/req_scrapers/ai_db_enrichment.py:75-92 | building the payload from a payload's own columns gives the same payload |
| AiDbEnrichment.TurnRaises | req_scrapers/req_scrapers/ai_db_enrichment.py:141-165 | a turn ends the run exactly when the enrichment exits, a failed update's rollback raises, `commit_every` is zero after an update, or a due commit fails and its rollback raises |
| AiDbEnrichment.FinalEnding | req_scrapers/req_scrapers/ai_db_enrichment.py:170-175 | the run finishes exactly when the final commit or its rollback succeeds, committed exactly when the commit did |
| AiDbEnrichment.WrittenText | req_scrapers/req_scrapers/ai_db_enrichment.py:148-149 | a falsy value gives `""`, a string its strip, and anything else raises |
| AiDbEnrichment.EnrichAiTestRows | req_scrapers/req_scrapers/ai_db_enrichment.py:114-175 | the loop computes `EnrichRows` |
| AiDbEnrichment.RunAccount | req_scrapers/req_scrapers/ai_db_enrichment.py:132-175 | one log entry per row reached; `processed` is the number of rows updated; no rows means no work; the run halts exactly when it stops short of the last row, and then at a turn that raises; after every row it ends as the final commit and its rollback say, finishing exactly when one of them succeeds |
| AiDbEnrichment.WrittenValues | req_scrapers/req_scrapers/ai_db_enrichment.py:140-157 | a row is skipped exactly when its enrichment fails; otherwise its id and the stripped phone and website (`""` for none) are written, and it counts as updated exactly when the database accepts the update; a refused update is logged only when its rollback succeeded |
| AiDbEnrichment.CommitCadence | req_scrapers/req_scrapers/ai_db_enrichment.py:159-165 | after an update a commit follows exactly when the count of updates so far is a multiple of `commit_every`; its outcome is the database's, and a refused commit is logged only when its rollback succeeded |
| AiDbEnrichment.SettleBound | req_scrapers/req_scrapers/ai_db_enrichment.py:151-175 | each update is kept or waiting at most once, and exactly once when nothing was rolled back |
| AiDbEnrichment.DurableAtMostProcessed | req_scrapers/req_scrapers/ai_db_enrichment.py:151-175 | the database keeps at most `processed` updates, and exactly that many when the run finished, the final commit succeeded and nothing was rolled back |
| AiDbEnrichment.FailedUpdateDiscardsWaiting | req_scrapers/req_scrapers/ai_db_enrichment.py:154-157 | a failed update rolls back the earlier update still waiting for a commit |
| AiDbEnrichment.RollbackRun | req_scrapers/req_scrapers/ai_db_enrichment.py:132-175 | two rows, the first update accepted and the second refused and rolled back: the log records both, `processed` is 1 and the run finishes |
| AiDbEnrichment.RollbackLosesCountedUpdate | req_scrapers/req_scrapers/ai_db_enrichment.py:151-157 | a run where the first update succeeds and the second fails ends with `processed == 1` and nothing kept |

## Left out

- HTTP, Scrapy scheduling, callbacks and errbacks, XPath/DOM evaluation, CSV parsing, file reads and writes, the language-model HTTP call, pymysql I/O, `print` and logging, and concurrency are not modelled. Pages are records of what the XPath queries return. Files are their parsed contents. The model of `comprehensive_middleware.py` leaves out the `proxies.json` read and takes the entries as a parameter.
- `json.loads` (and `json.load`) is an abstract partial parser, `Parser`. `int()` is an abstract `IntParser`. `str.lower` in the duplicate check is an abstract `CaseMap`.
- Time (`time.time()`) is an integer `now` parameter. Sleep lengths are whole seconds.
- The float `success_rate` (comprehensive_middleware.py:257-258, 290) is not modelled, and `Statistics` has no such field.
- ProxyHealth.Middleware.UserAgentFor: the `random.choice` pick is nondeterministic. The contract only says that the pick is one of the list.
- ProxyHealth.Middleware.RotateToNextProxy: on an empty pool, `% len(self.proxy_list)` raises `ZeroDivisionError`. That exception is the `raised` result. The failure bookkeeping done before it stays, and the exception is not propagated further.
- ProxyHealth.ParseCookie: `Set-Cookie` values are text. Scrapy hands them over as bytes, on which `split(';')` with a text argument would raise. The model follows the evident intent.
- ProxyAuth.ProxyPool: it takes the list entries as strings. The source applies `str(x)` to any JSON value, so `123` becomes `"123"` and `null` becomes `"None"`. Non-string entries are not modelled.
- CtqSpider.Spider.constructor: the values of the NEQ file (ctq_scraper.py:662-673, `row.get("NEQ")` or a column named `neq` in any case) are a parameter. Reading them is CSV parsing.
- Url.JoinOrigin: it covers only `urljoin` on a registry origin with references that are `http(s)://` URLs or site paths. Scheme case-folding (`HTTPS://x`), scheme-relative references (`https:x`), other schemes (`javascript:`), dot-segment removal (`./a`, `/a/../b`) and `urlunparse` normalisation are not modelled. The actions the registries send are site paths.
- CtqForms.RewriteExecution: the `re.sub` replacement is taken literally. Python would process backslash escapes and group references in a token, and view-state tokens do not contain them.
- CtqAddress.PostalAt: `\d` is taken as ASCII digits only. Python's `\d` on `str` also matches other Unicode decimal digits.
- AiEnhancement.ProcessCsv: the existing results are a sequence of JSON values. An output file whose JSON is not a list is not modelled. Reading the file is I/O.
- AiEnhancement.SameText: it takes the case mapping as a `CaseMap` parameter rather than defining Unicode lower-casing.
- AiEnhancement.Admitted: it uses ASCII case folding. No non-ASCII character folds into `oui`, so the gate is exact.
- NeqConfirmation.NormColumn: it lower-cases ASCII letters only, where Python's `str.lower()` also folds non-ASCII capitals. No non-ASCII capital lower-cases into a letter of `neq` or of the accepted column names, so the column chosen is the same.
- AiEnhancement.EnrichCompany: the HTTP call is out. The decoded answer is a parameter, and `None` stands for the request errors that end the program.
- AiDbEnrichment.PendingRows: it is a ghost function over a table modelled as a map from id to columns. MySQL collation and the PAD SPACE comparison of `telephone = ''` are not modelled, so a value of only spaces does not count as empty here.
- AiDbEnrichment.EnrichRows: the enrichment is a function of the payload, while the source calls the language model afresh for each row.
- AiDbEnrichment.EnrichRows: a `commit_every` of 0 is modelled as the `ZeroDivisionError` that ends the loop after the first successful update, and that update's log entry is dropped. The commit test uses Dafny's `%`. That gives the same zero test as Python's floor modulo for any non-zero `commit_every`.
- AiDbEnrichment.RollbackLosesCountedUpdate: `processed` keeps counting an update that a later rollback discarded. The model states this but does not treat it as a defect, because the source's count is of statements that succeeded.
- The duplicate code of `parse_ctq_result_with_vrac` (ctq_scraper.py:570-660) is modelled by the same `DetailRecord` as `parse_ctq_result`, with the carried VRAC cells.

## Findings

| source | as written | input that shows it | evidently intended | confidence | as-written member | corrected member |
|---|---|---|---|---|---|---|
| req_scrapers/req_scrapers/spiders/ctq_scraper.py:396-401 | `pays` is `last_line[:match.start()]`, and `match.start()` is where the `[A-Za-z0-9\s]+` run begins, so the country in front of a postal code is swallowed into the match | address lines `["123 Main St", "Montreal (QC) H1A 1A1", "USA 90210"]`: `pays` is `""` | the text before the postal code (group 1), `"USA"` here, as the comment above the pattern says | not executed | CtqAddress.PaysAsWrittenLosesCountry | CtqAddress.PaysBeforePostal |

`CtqAddress.PaysAsWritten` is the source's behaviour. `CtqAddress.Pays` is the corrected reading. The record (`ParseAddress`) keeps `PaysAsWritten`, as the program does.
