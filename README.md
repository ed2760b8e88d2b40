# DarkWeb-Monitoring core in Dafny

A Dafny model of the DarkWeb-Monitoring service's core. The service is a
FastAPI backend. It crawls pages, stores them as samples, and raises a
Telegram alert when sensitive keywords appear. A scheduled task scans
fixed targets again and flags matching samples. A keyword-search route
runs over a small fixed dataset. A scan route queues a background job.
Users sign up and log in with bcrypt-hashed passwords and receive a JWT.
A React dashboard shows a live feed pushed over a WebSocket.

One Dafny module per source file:

- `Py` (py.dfy): Python's `Option`/exception vocabulary. An operation that can raise returns `Result<T>`, `Ok(v)` or `Raise(e)`.
- `Text` (text.dfy): the string operations the code uses.
  - `str.lower()`; `in` on strings.
  - `str.strip()` with Python's whitespace set.
  - Slicing `[:n]` (`Take`); `", ".join`; `str.title()`.
  - The `[k for k in KEYWORDS if k in text]` comprehension (`Select`).
- `Json` (json.dfy): JSON request bodies and messages, and Python truthiness on them.
- `Samples` (samples.dfy, `backend/app/crud.py`): the `samples` table.
  - The queries are functions.
  - The table is a class, `SampleTable`, whose `CreateSample` and `FlagSample` change it in place.
- `Alerts` (alerts.dfy): `send_telegram_alert`. The class `AlertLog` records every message sent, in order.
- `Crawler` (crawler.dfy, `backend/app/crawler.py`): `fetch_url`'s error handling and `parse_and_store`.
  - The function `Crawl` specifies it as a transition of the table and the alert log.
  - The method `ParseAndStore` performs it on the objects.
- `Tasks` (tasks.dfy, `backend/app/tasks.py`): `run_scan_task` and the loop of `scheduled_job`.
- `Api` (api.dfy, `backend/app/main.py`): three parts of the app.
  - The `/api/search` route: its loop over the dataset, the entries, the alerted urls and the alerts.
  - The `/api/scan` route and its background queue.
  - `ConnectionManager` and its list of connections.
- `Auth` (auth.dfy, `backend/app/auth.py`): hashing and verification with the 72-character cut, token creation, signup and login.
  - bcrypt is a symbolic hash `Bcrypt(salt, secret)`: two hashes verify alike exactly when their secrets agree.
  - A JWT is its claims, key and algorithm.
- `LiveFeed` (livefeed.dfy, `frontend/src/components/LiveFeed.jsx`): the ten-message update rule and the rendering of the list.

The outside world enters as parameters:

- the HTTP response and what BeautifulSoup extracts (`Crawler.Fetch`);
- the clock, as `created_at` readings, the `now` of a token and the timestamps formatted into search alerts;
- the bcrypt salt;
- the environment (`Auth.SecretKey`).

Three details of the code are easy to miss:

- `fetch_url` returns None only on a transport error or a 4xx/5xx status, because `raise_for_status` raises only for those. A 1xx or 3xx response reaching the code counts as a page.
- `create_sample` does not pass `extra_metadata` to the row (crud.py:9-15). The stored row therefore has no metadata, although the crawler computes it.
- In `create_access_token`, a zero `expires_delta` is falsy and falls back to 60 minutes.

## Model

| member | source | states |
|---|---|---|
| Samples.CreateSampleAsWrittenRaises | backend/app/crud.py:7-15 | `create_sample` as written raises `AttributeError` on every input (it reads `flagged`, which `SampleCreate` lacks) and inserts nothing |
| Samples.SampleTable.CreateSample | backend/app/crud.py:7-19 | appends exactly one row. The row has a fresh id, distinct from every existing id. It copies url, source, title and content, has `created_at` = the clock reading and `flagged` false, and is returned. Earlier rows are unchanged and the id invariant is kept |
| Samples.GetSamples | backend/app/crud.py:22-24 | the result has min(limit, n-skip) rows (0 when skip ≥ n). Its i-th row is row skip+i of the table |
| Samples.DefaultWindow | backend/app/crud.py:22-24 | with the defaults `skip=0, limit=100`, the result is the first min(100, n) rows of the table |
| Samples.MatchingRows | backend/app/crud.py:31-35 | every row is kept, with its multiplicity, exactly when its title (if any), content or source contains the query case-insensitively. All other rows are dropped |
| Samples.InsertDesc | backend/app/crud.py:36 | inserting into a list sorted by `created_at` descending keeps it sorted. The result is a permutation of the list plus the new row, one longer, and starts with the newer of the new row and the old head |
| Samples.SortByCreatedDesc | backend/app/crud.py:36 | `order_by(created_at.desc())`: the result is sorted newest first and is a permutation of the input |
| Samples.SearchSamples | backend/app/crud.py:27-36 | the result is sorted newest first. It holds each row as often as the table does when q is None or empty, or when the row matches q. No other row is in it |
| Samples.SearchWithoutQueryReturnsAll | backend/app/crud.py:29-30 | with q None or empty the search returns the whole table (as a multiset) |
| Samples.SearchMembership | backend/app/crud.py:30-35 | with a non-empty q, a row is returned iff it is in the table and its title, content or source contains q case-insensitively. A missing title never matches |
| Samples.FindById | backend/app/crud.py:41 | `.filter(id == sample_id).first()`: the first position holding the id, or None iff no row has it |
| Samples.FindByIdOnIds | backend/app/crud.py:41 | the lookup depends only on the ids of the rows |
| Samples.FlagEffect | backend/app/crud.py:39-46 | in a valid table, flagging changes `flagged` on the row with that id and nothing else. An unknown id changes nothing. The table stays valid |
| Samples.FlagIdempotent | backend/app/crud.py:43 | flagging twice with the same arguments gives the same table and result as flagging once |
| Samples.SampleTable.FlagSample | backend/app/crud.py:39-46 | returns None iff no row has the id, and then leaves the table unchanged. Otherwise it sets that row's `flagged`, returns the updated row and keeps `nextId` and validity |
| Alerts.AlertLog.Send | backend/app/alerts.py:12-35 | each call appends its message to the sent log, in call order |
| Crawler.FetchUrl | backend/app/crawler.py:28-35 | None exactly on a transport error or a 4xx/5xx status. Otherwise the body; never raises |
| Crawler.ReadPage | backend/app/crawler.py:38-44 | no page iff the body is missing or empty. `TypeError` iff the title tag has no string. The title is the tag's string, or the url without a tag; the text is the extracted text |
| Crawler.Record | backend/app/crawler.py:47-53 | url and source copied. The title is a prefix of the page title of length min(250, len). The content is a prefix of the text of length min(30000, len). `extra_metadata.length` is the full text length |
| Crawler.KeywordsAreLowerCase | backend/app/crawler.py:23-26 | every crawler keyword equals its lower-case form |
| Crawler.Matched | backend/app/crawler.py:57 | a keyword is matched iff it is in KEYWORDS and occurs case-insensitively in the full text. The result keeps list order (a subsequence of KEYWORDS) |
| Crawler.CrawlAlerts | backend/app/crawler.py:57-64 | at most one alert. One is sent iff some keyword occurs case-insensitively in the full text, and it lists the matched keywords with the url and the untruncated title |
| Crawler.Crawl | backend/app/crawler.py:37-67 | returns None and changes nothing iff the fetch fails or the body is empty. Raises `TypeError`, changing nothing, iff the body is non-empty and the page's title tag holds no string. Otherwise one new row with a fresh id, the url, the source and `flagged` false is appended and returned. With a page, the alerts appended are exactly `CrawlAlerts` for it: one iff a keyword occurs in the full text, none otherwise. The row's title is the 250-character prefix of the page title and its content the 30000-character prefix of the text. The row's `created_at` is the clock reading. Errors are only `TypeError` |
| Crawler.CrawlAsWrittenNeverStores | backend/app/crawler.py:37-54 | with `create_sample` as written, a crawl either changes nothing or raises, and every fetched non-empty page raises |
| Crawler.ParseAndStore | backend/app/crawler.py:37-67 | performs `Crawl` on the table object and the alert log. An exception leaves both unchanged |
| Tasks.Matched | backend/app/tasks.py:36-39 | a task keyword is matched iff it occurs in the lower-cased content, in list order |
| Tasks.ScanAsWrittenChangesNothing | backend/app/tasks.py:25-62 | with `create_sample` as written, every scan task leaves the table and the alert log unchanged |
| Tasks.ScanWithoutPage | backend/app/tasks.py:28-33 | without a `url`, without a page or on an exception, the task stores, flags and alerts nothing |
| Tasks.ScanStoresAndFlags | backend/app/tasks.py:30-55 | with a page, the task stores exactly one row with the url and source (`'unknown'` by default), whose content is the first 30000 characters. The row is flagged iff a task keyword occurs in that stored content. Earlier rows are unchanged. The crawler's alert is followed by the task's alert, which is sent iff something matched |
| Tasks.TruncationHidesLateKeyword | backend/app/tasks.py:36-39 | a keyword occurring only past character 30000 of the text is never matched by the task |
| Tasks.EarlyKeywordMatched | backend/app/tasks.py:36-39 | a task keyword occurring in the lower-cased text and ending within the first 30000 characters is matched by the task |
| Tasks.SharedKeywordAlsoAlertsCrawler | backend/app/tasks.py:39 | a keyword of both lists that the task matches in the stored content was matched by the crawler too, so the crawler alerted for that page whatever its url and title |
| Tasks.DataBreachFlagsWithoutCrawlerAlert | backend/app/tasks.py:19-22 | the text "data breach" is matched by the task but by no crawler keyword |
| Tasks.LatePasswordAlertsWithoutFlag | backend/app/tasks.py:36-39 | 30000 spaces then "password": the crawler matches, the task (on the stored prefix) matches nothing |
| Tasks.NoCrawlerKeywordInDataBreach | backend/app/crawler.py:23-26 | no crawler keyword occurs in "data breach" |
| Tasks.RunScanTask | backend/app/tasks.py:25-62 | performs `Scan` on the table and alert log and never raises; the table stays valid |
| Tasks.ScheduledJob | backend/app/tasks.py:65-72 | runs the task on every scheduled target in list order, against one table; the result is the scan of each target in turn |
| Tasks.ScheduledJobOrder | backend/app/tasks.py:13-16 | the job scans https://example.com first and then the paste target, each once |
| Api.NormalizedKeywordEmptyIff | backend/app/main.py:60-62 | the normalised keyword is empty iff the field is missing or holds only whitespace |
| Api.StatusMarksFound | backend/app/main.py:86-99 | the status contains the siren exactly when the keyword was found (the test Dashboard.jsx makes) |
| Api.Entries | backend/app/main.py:76-101 | one entry per site |
| Api.EntriesAt | backend/app/main.py:76-101 | the i-th entry is the i-th site's: its url, source "manual", `found` iff the keyword is in the lower-cased content, and the matching status |
| Api.FoundUrls | backend/app/main.py:96 | at most one reported url per entry |
| Api.FoundUrlsMembership | backend/app/main.py:96-106 | a url is reported iff some entry with that url was found |
| Api.EntryAlerts | backend/app/main.py:86-95 | one alert per found entry |
| Api.VisitSite | backend/app/main.py:77-101 | one loop pass: the site's entry, and one alert exactly when it was found |
| Api.SearchSites | backend/app/main.py:76-101 | the loop gives the entries of all sites in order and the found urls in order, and appends one alert per found site |
| Api.KeywordSearch | backend/app/main.py:58-107 | a non-string keyword raises. An empty normalised keyword gives the error record and sends no alert. Otherwise the response echoes the keyword, has one entry per dataset site in order, lists the found urls and sends their alerts |
| Api.PasswordKeywordNormalizes | backend/app/main.py:60 | " Password " normalises to "password" |
| Api.PasswordFoundOnlyAtLeaktest | backend/app/main.py:67-77 | searching "password" reports only https://leaktest.com |
| Api.ScanFormPayloadHasNoKeyword | frontend/src/components/ScanForm.jsx:13-16 | the scan form's `{url, source}` body normalises to an empty keyword on the search route |
| Api.ScanRequest | backend/app/main.py:116-120 | no task iff `url` is missing or falsy. Otherwise the task carries the url and the source, `"manual"` only when the source is absent |
| Api.ScanFormPayloadSchedulesAtScanRoute | backend/app/main.py:116-123 | the same body sent to the scan route queues exactly the requested scan |
| Api.BackgroundTasks.AddTask | backend/app/main.py:123 | appends the task to the queue |
| Api.StartScan | backend/app/main.py:113-124 | without a truthy url, the error record and nothing queued; otherwise the started status and exactly one queued task |
| Api.RemoveFirst | backend/app/main.py:161-162 | with x present, one copy of x is removed (multiset minus x, length minus one); with x absent, nothing changes |
| Api.RemoveFirstAt | backend/app/main.py:162 | the copy removed is the first, and the others keep their order |
| Api.ConnectThenDisconnect | backend/app/main.py:157-162 | connecting a new connection and disconnecting it restores the list |
| Api.ConnectionManager.constructor | backend/app/main.py:154-155 | starts with no connections |
| Api.ConnectionManager.Connect | backend/app/main.py:157-159 | appends the connection at the end |
| Api.ConnectionManager.Disconnect | backend/app/main.py:161-162 | removes its first occurrence, or raises `ValueError` and changes nothing when absent |
| Api.ConnectionManager.Broadcast | backend/app/main.py:164-166 | one delivery per active connection, in list order |
| Auth.GetPasswordHash | backend/app/auth.py:49-52 | the hash digests at most 72 characters |
| Auth.VerifyHashIff | backend/app/auth.py:49-57 | a password verifies against a hash iff their first 72 characters agree, whatever the salt |
| Auth.VerifyAcceptedIff | backend/app/auth.py:49-57 | for passwords of at most 72 characters, verification is plain equality |
| Auth.ExpiryDelta | backend/app/auth.py:62 | a given non-zero delta is used; otherwise 60 minutes |
| Auth.CreateAccessToken | backend/app/auth.py:59-65 | claims are `data` plus `exp` = now + delta, overriding any `exp` in data. Signed with the key, algorithm HS256 |
| Auth.FindUser | backend/app/auth.py:87 | finds a user with the name, or None iff there is none |
| Auth.FindUserUnique | backend/app/models.py:12 | with unique usernames, the user found for a name is that name's only row |
| Auth.ValidatePassword | backend/app/auth.py:26-32 | passwords longer than 72 characters raise a validation error; others pass unchanged |
| Auth.Register | backend/app/auth.py:69-81 | refused iff the password is too long or the name exists. Validation comes first, then 400 "Username already exists". Otherwise exactly one user holding the hash is appended, and uniqueness is kept |
| Auth.Login | backend/app/auth.py:84-92 | succeeds iff the password is valid, the user exists and it verifies. Otherwise validation fails, or 401 "Invalid credentials". The token is of type "bearer" with sub = username and exp = now + 60 minutes, signed with `SECRET_KEY` (the environment's value, else "mysecretkey") and HS256 |
| Auth.LoginAfterSignup | backend/app/auth.py:76-92 | after a signup, a login with the same password succeeds; with any other accepted password it fails |
| Auth.SignupTwiceRefused | backend/app/auth.py:72-74 | a second signup under the same name gets 400 |
| Auth.UserTable.Signup | backend/app/auth.py:69-81 | performs `Register`: the new table and the success message, or the error and the table unchanged; usernames stay unique |
| LiveFeed.OnMessage | frontend/src/components/LiveFeed.jsx:11 | the new list has min(10, n+1) messages. The new message is first, followed by the previous list in order, cut to fit |
| LiveFeed.NothingDroppedBelowLimit | frontend/src/components/LiveFeed.jsx:11 | below 10 messages nothing is dropped |
| LiveFeed.OldestDroppedAtLimit | frontend/src/components/LiveFeed.jsx:11 | at 10 messages only the oldest (last) is dropped |
| LiveFeed.Feed | frontend/src/components/LiveFeed.jsx:11 | the list never exceeds 10 messages |
| LiveFeed.FeedIsLatest | frontend/src/components/LiveFeed.jsx:9-11 | after any sequence of messages, the list is the last (at most) ten received, newest first |
| LiveFeed.Property | frontend/src/components/LiveFeed.jsx:30 | for the three names line 30 reads (`source`, `title`, `url`), a property is defined iff the message is an object holding it |
| LiveFeed.RenderItem | frontend/src/components/LiveFeed.jsx:30 | the caption is `source`, or "System" when source is falsy, and is never falsy (it can still be a blank string, or a value React shows as nothing). The text is `title`, or `url` when title is falsy. A `null` message throws `TypeError` |
| LiveFeed.RenderItems | frontend/src/components/LiveFeed.jsx:25-32 | one entry per message, the i-th for the i-th; evaluating the entries throws iff some message is `null` |
| LiveFeed.Render | frontend/src/components/LiveFeed.jsx:22-32 | the placeholder is shown iff the list is empty, followed by the entries |
| LiveFeed.NewestShownFirst | frontend/src/components/LiveFeed.jsx:11-30 | after a message arrives, the placeholder is gone and the first entry is the new message's |

## Left out

- Network and Tor: the proxy session and the HTTP request of `fetch_url` are inputs (`Crawler.Response`).
- HTML parsing: what BeautifulSoup extracts (title tag, text) is an input (`Crawler.Parsed`).
- Telegram delivery: whether the HTTP call succeeds, and the missing-token check in `send_telegram_alert`. Every call is recorded as sent.
- `print` output, `.env` loading, FastAPI routing, response serialisation, and the status code of an uncaught exception.
- SQLAlchemy sessions, `commit`/`refresh`, `get_db` and `create_all`. The table is a sequence in insertion order. `created_at` and the bcrypt salt are supplied naturals.
- `start_scheduler`: APScheduler's 10-minute interval. `run_fake_analysis`: `random.choice` and `time.sleep`; the model queues the task but does not run it.
- The WebSocket endpoint and `push_update`: accepting, receiving, sending and async interleaving. Only the connection list and the order of deliveries are modelled.
- The frontend components other than LiveFeed: rendering and routing.
  - ScanForm.jsx appears only through the payload it posts.
  - Dashboard.jsx appears only through its test for the siren.
- Text.Lower: maps ASCII letters only. Python's `str.lower()` and SQL `ILIKE` also fold other alphabets.
- Text.TitleCase: ASCII-only as well. Python's `str.title()` treats every cased letter of any alphabet as a letter, so a non-ASCII source name can be title-cased differently.
- Samples.Matches: `%` and `_` inside `q` are treated as plain characters, not as `ILIKE` wildcards.
- Samples.GetSamples: returns rows in insertion order. SQL leaves the order of an unordered query unspecified. Negative `skip`/`limit` are not modelled (they are naturals).
- Samples.SearchSamples: the order among rows with equal `created_at` is not specified, so only the order by time and the contents are stated.
- Auth.GetPasswordHash: cuts at 72 characters, as the code does. bcrypt's own limit is 72 bytes, which multi-byte characters reach sooner. The digest is symbolic.
- Auth.CreateAccessToken: `exp` is an integer number of seconds. The JWT encoding, its signature and sub-second precision are not modelled.
- Auth: the user's id column and the token-decoding side are not modelled (no route in the core decodes tokens).
- Tasks.RunScanTask: `flag_sample` never raises in the model, so the inner `try` of `run_scan_task` has no effect.
- Tasks.Matched: content is never NULL in the model, so `(obj.content or "")` is the content itself.
- LiveFeed.RenderItem: numbers are reals without `NaN`, so a number's truthiness is "non-zero".
- LiveFeed.RenderItem: React's rendering of the chosen values is not modelled. A boolean renders as nothing. An object or array as `source`, `title` or `url` makes React throw. Only the throw of reading a property of `null` is modelled.
- LiveFeed.OnMessage: the message is taken already parsed. `JSON.parse` throwing on malformed data (LiveFeed.jsx:10) leaves the list unchanged, and that path is not modelled.
- LiveFeed.Property: stated for the three names the list reads. Inherited properties (`length` of arrays and strings, `toString` of objects) do not arise for them and are not modelled.

## Findings

| source | as written | input that shows it | evidently intended | confidence | as-written member | corrected member |
|---|---|---|---|---|---|---|
| backend/app/crud.py:14 | `create_sample` reads `sample.flagged`, but the `SampleCreate` schema declares no such field | any crawl of a page with a non-empty body: `create_sample` raises `AttributeError`, so no sample is stored, the crawler sends no alert and the scan task flags nothing | store the row with the column default `flagged = False` | high (not executed) | Samples.CreateSampleAsWrittenRaises | Samples.SampleTable.CreateSample |
| frontend/src/components/ScanForm.jsx:13-16 | the scan form posts `{url, source}` to `/api/search` | `{"url": "http://x.onion", "source": "tor"}`: no `keyword`, so the search route returns "No keyword provided" and no scan is queued | post to `/api/scan`, which queues the requested scan | high (not executed) | Api.ScanFormPayloadHasNoKeyword | Api.ScanFormPayloadSchedulesAtScanRoute |
