# German learning cards: a verified model of the card service core

This project models, in Dafny, the logic of `main.py` of the German learning
cards service: a FastAPI app that serves random flashcards taken from a public
Google spreadsheet and records whether the user answered each one correctly.

It covers four pieces:

- **Card source adapter** (`SheetSource`, `get_google_sheet_data`). It validates the
  GOOGLE_SHEET_URL locator and extracts the document id exactly as the code does
  (`url.split("/d/")[1].split("/")[0]`). It builds the CSV export URL, drops the
  header row and turns each usable data row into a stripped card. A loop method
  mirrors the source's `for` loop and is proved equal to a specification function.
- **Card cache** (`CardCache`, `_cards_cache`, `get_cards` and the cache half of
  `reload_cards`). This is a class with an `Option<seq<Card>>` slot. A ghost
  counter records how many times the source was consulted.
- **Attempt log** (`AttemptStore`, `save_card_attempt`). The `card_attempts` table
  is a `seq<Attempt>` that only grows by one row per successful write.
- **Endpoint outcomes** (`Endpoints`, `get_random_card`, `reload_cards`,
  `record_attempt`). Pure response functions, and a `Service` class whose
  methods drive the cache and the store.

Python's `str` behaviour that the code relies on is modelled in `Text`:
- `strip()`, using the exact `str.isspace` character set;
- the `in` substring test;
- `split` with a non-empty separator;
- `str(n)` for a count.

Boundaries are parameters:
- GOOGLE_SHEET_URL is an `Option<string>`.
- The network request together with CSV tokenising is a function
  `fetch: string -> Result<Table, string>`.
- What `get_google_sheet_data` would return is the cache's `source` argument.
- The clock is a `now` string.
- The database write's outcome is an `Outcome<string>`.
- `random.choice` is an index `pick`.

Two behaviours of the code are worth knowing:
- GET /card on an empty card set never answers 404. The `HTTPException(404)`
  raised at main.py:176 never reaches the client: the generic `except Exception`
  at main.py:183-184 turns it into a 500. Its detail is "Error fetching card: 404: No
  cards available" (`EmptyCardSetIsServerError`).
- A locator such as `https://host/d/` passes validation and yields an empty
  document id. The code does not check the id.

## Model

| member | source | states |
|---|---|---|
| Text.IsSpace | main.py:118-122 | the characters `str.isspace` accepts, which `strip()` removes: ASCII 9-13 and 28-32, U+0085, U+00A0, U+1680, U+2000-U+200A, U+2028, U+2029, U+202F, U+205F and U+3000; `TrimStartShape` and `TrimEndShape` show `strip()` removes exactly these |
| Text.Strip | main.py:118-122 | `s.strip()` is no longer than `s` and a non-empty result neither starts nor ends with whitespace; `StripSlice`, `StripEmptyIff` and `StripIdempotent` pin it down fully |
| Text.TrimStartShape | main.py:118 | `lstrip` removes exactly the leading whitespace run: the result is a suffix, everything dropped is whitespace, and the result does not start with whitespace |
| Text.TrimEndShape | main.py:118 | `rstrip` removes exactly the trailing whitespace run: the result is a prefix, everything dropped is whitespace, and the result does not end with whitespace |
| Text.StripSlice | main.py:120-122 | `strip()` returns a slice `s[a..b]`; `s[..a]` and `s[b..]` are all whitespace; a non-empty result starts and ends with non-whitespace |
| Text.StripEmptyIff | main.py:118 | `s.strip()` is empty (falsy) exactly when `s` is all whitespace |
| Text.StripIdempotent | main.py:120-122 | stripping a stripped string changes nothing |
| Text.StripUnpadded | main.py:120-122 | a string with no whitespace at either end is unchanged by `strip()` |
| Text.IndexFrom | main.py:87 | the search from a start position returns the leftmost occurrence at or after it, or none exists there |
| Text.IndexOf | main.py:87 | `pat in s`: the leftmost occurrence of `pat`, or a proof that there is none |
| Text.Contains | main.py:87 | `pat in s`: holds exactly when `IndexOf` finds a leftmost occurrence, and fails exactly when no position holds one (`IndexOf`'s none-exists ensures) |
| Text.IndexOfIs | main.py:87-88 | an occurrence with none before it is the one the search reports |
| Text.IndexOfExtend | main.py:87-88 | appending text keeps the leftmost occurrence where it was |
| Text.Split | main.py:88 | `split(sep)` gives at least one piece; exactly one iff `sep` does not occur; otherwise the first piece is the text before the first occurrence |
| Text.SplitJoin | main.py:88 | `sep.join(s.split(sep)) == s`: split loses no text |
| Text.SplitHeadFree | main.py:88 | the first piece of a split does not contain the separator |
| Text.SplitPiecesFree | main.py:88 | no piece of a split contains the separator |
| Text.DigitChar | main.py:197 | a digit below 10 becomes the matching character between '0' and '9' |
| Text.Decimal | main.py:197 | `str(n)` is a non-empty string of decimal digits without a leading zero |
| Text.DecimalRoundTrip | main.py:197 | reading back `str(n)` gives `n` |
| Text.DecimalInjective | main.py:197 | different counts render as different strings |
| SheetSource.Message | main.py:84-112 | `str(e)` of the four `ValueError`s, with the fetch failure's own text after "Failed to fetch Google Sheet data: "; `CsvUrl`, `ParseTable` and `SheetData` state which error arises when |
| SheetSource.AfterMarker | main.py:88 | the text after the first "/d/" is shorter than the URL by at least the marker |
| SheetSource.SheetId | main.py:88 | the extracted id contains no '/'; `SheetIdIsSegmentAfterMarker` proves it is exactly the text after the first "/d/" up to the next '/' |
| SheetSource.ExportUrl | main.py:95 | the f-string that builds `csv_url` around the id; `CsvUrl` states its fixed prefix and suffix, and `ExportUrlRoundTrip` that extracting the id back gives the same id |
| SheetSource.OneCharOccurs | main.py:88 | a one-character separator occurs at `j` exactly when `s[j]` is that character |
| SheetSource.FirstPieceIsFirstSegment | main.py:88 | `s.split("/")[0]` is the text of `s` up to its first '/' or its end, and contains no '/' |
| SheetSource.FirstSegmentUnique | main.py:88 | there is only one such leading segment |
| SheetSource.SheetIdIsSegmentAfterMarker | main.py:87-88 | the id the split chain extracts is exactly the text after the first "/d/" up to the next '/' or the end, and contains no '/' |
| SheetSource.MarkerAt | main.py:87 | an occurrence of "/d/" is the characters '/', 'd', '/' in a row |
| SheetSource.MarkerFirstInExportPrefix | main.py:95 | in the export URL's fixed prefix, the first "/d/" is the one just before the id |
| SheetSource.ExportUrlRoundTrip | main.py:88-95 | extracting the id from the export URL built around a slash-free id gives that id back |
| SheetSource.CsvUrl | main.py:81-95 | an unset or empty locator is `UrlNotSet`; a locator without "/d/" is `InvalidUrl`; otherwise the result is the export URL with the extracted segment between its fixed prefix and suffix |
| SheetSource.KeepRow | main.py:118 | the row test; `KeepRowIsStripTest` proves it equal to the source's `len(row) >= 3` and three non-empty `strip()` results |
| SheetSource.ToCard | main.py:119-123 | the card of a row: its first three columns stripped; `ToCardClean` and `UnpaddedRow` state what that yields |
| SheetSource.FilterRows | main.py:116-123 | filtering never yields more cards than rows |
| SheetSource.KeptIndices | main.py:118 | the positions of the usable rows are strictly increasing, each names a usable row, and every usable row is listed |
| SheetSource.FilterRowsSelectsKeptRows | main.py:116-123 | the k-th card is the stripped k-th usable row: one card per usable row, in row order |
| SheetSource.ToCardClean | main.py:118-123 | a usable row makes a card whose three fields are non-empty and already stripped |
| SheetSource.FilterRowsAllClean | main.py:116-123 | every emitted card has non-empty, stripped fields |
| SheetSource.FilterRowsKeepsUsableTable | main.py:116-123 | when every row is usable, each row yields its card, in order |
| SheetSource.KeepRowIsStripTest | main.py:118 | the row predicate is exactly `len(row) >= 3 and row[0].strip() and row[1].strip() and row[2].strip()` |
| SheetSource.FilterRowsStep | main.py:117-123 | one more data row appends that row's card when the row is usable, and nothing otherwise |
| SheetSource.UnpaddedRow | main.py:118-123 | a row of three non-empty columns without surrounding whitespace is kept and becomes a card with exactly those columns |
| SheetSource.UnusableRowsSkipped | main.py:111-125 | after a header, usable/unusable/usable/unusable rows yield the two usable rows' cards, in order |
| SheetSource.BlankRowsSkipped | test_main.py:182-202 | in the blank-row scenario, rows "2,," and "4,   ,   " are skipped and cards 1 and 3 are returned, trimmed |
| SheetSource.ParseTable | main.py:104-125 | a failed fetch is `FetchFailed` carrying the failure's text; a table of fewer than two rows is `TooFewRows` and nothing else is; a success drops the header and holds exactly the filtered data rows, `FilterRows(rows[1..])`, whose contents `FilterRowsSelectsKeptRows` gives |
| SheetSource.SheetData | main.py:76-125 | `get_google_sheet_data`: `UrlNotSet` exactly for an unset or empty locator and `InvalidUrl` exactly for one without "/d/", whatever the network says; every returned card has non-empty, stripped fields |
| SheetSource.LocatorErrorsPrecedeFetch | main.py:81-97 | a missing or malformed locator fails with `UrlNotSet` or `InvalidUrl`, whatever the network would have answered |
| SheetSource.ValidLocatorFetchesExportUrl | main.py:87-109 | a valid locator leads to one request, for the export URL of the extracted id, and the answer is that of the parsed table |
| SheetSource.HeaderOnlyRefused | main.py:111-112 | a sheet holding only its header row is refused with `TooFewRows` |
| SheetSource.CollectCards | main.py:115-123 | the row loop over the data rows computes exactly `FilterRows` of the rows after the header, whose contents `FilterRowsSelectsKeptRows` and `KeptIndices` give |
| SheetSource.GetGoogleSheetData | main.py:76-125 | the adapter, running the row loop `CollectCards`, computes exactly `SheetData` |
| CardCache.Lookup | main.py:134-137 | what `get_cards` returns: the cached list, or else the fetch's outcome; `SecondLookupHits` and `Refill` relate it to the slot |
| CardCache.Refill | main.py:132-137 | the slot ends up filled exactly when `get_cards` succeeds, holding exactly the returned list; a filled slot is never replaced |
| CardCache.SecondLookupHits | main.py:132-137 | after a successful `get_cards`, a second call returns the same list and leaves the slot alone, whatever the source would now say |
| CardCache.FailedFetchLeavesEmpty | main.py:134-135 | a failed fetch into an empty cache leaves it empty and reports the error |
| CardCache.Cache.constructor | main.py:26 | the process starts with an empty cache and no fetch made |
| CardCache.Cache.GetCards | main.py:128-137 | returns the cached list without fetching, or fetches once, stores a success and returns the outcome |
| CardCache.Cache.Reload | main.py:192-196 | the slot is cleared, then refilled by exactly one fetch; the result is that fetch's outcome |
| CardCache.GetCardsTwice | test_main.py:152-165 | two `get_cards()` calls in a row: once the first succeeds, the second returns the same list, and at most one fetch is made in all |
| AttemptStore.Appended | main.py:67-70 | the table after one INSERT; `AppendKeepsHistory` and `AppendSeenByQuery` state what it keeps and adds |
| AttemptStore.AttemptsFor | main.py:52-56 | the per-card query the index on `card_id` is built for (main.py itself never reads the table): it returns exactly the rows of that card, every one of them, in ascending id order |
| AttemptStore.AppendKeepsHistory | main.py:62-73 | an insert adds exactly one row at the end with the given card id, answer and time, keeps every earlier row, and keeps ids numbered 1..n |
| AttemptStore.AppendSeenByQuery | main.py:62-73 | read back by card id after an insert, the table shows one new row for that card and nothing new for any other card |
| AttemptStore.Store.constructor | main.py:38-50 | `init_database` with `CREATE TABLE IF NOT EXISTS`: the table holds the well-numbered rows an earlier run left in the file, none for a new file |
| AttemptStore.Store.SaveCardAttempt | main.py:62-73 | a successful write appends one row and nothing else; a failed write changes nothing and reports the error |
| Endpoints.RandomCardResponse | main.py:164-184 | GET /card answers 200 exactly when the card set is non-empty, and the returned card is a member of the set; every error is a 500; a fetch error's detail is its message unprefixed; an empty set's detail is "Error fetching card: " before the rendered 404 |
| Endpoints.ReloadResponse | main.py:187-199 | reload answers 200 exactly when the refill succeeds, with a message naming the new set's size; a failure is a 500 whose detail is "Error reloading cards: " followed by the error's message |
| Endpoints.AttemptResponse | main.py:202-215 | /attempt answers 200 exactly when the write succeeds, with the message "Attempt recorded successfully" and the echoed `card_id` and `correct`; a failure is a 500 whose detail is "Error recording attempt: " followed by the error's message |
| Endpoints.HttpExceptionText | main.py:176-184 | `str(HTTPException)` as "<status>: <detail>"; `EmptyCardSetIsServerError` evaluates it for the swallowed 404 |
| Endpoints.ReloadedMessage | main.py:197 | the reload message; `ReloadedMessageInjective` proves it determines the count |
| Endpoints.EmptyCardSetIsServerError | main.py:175-184 | an empty card set yields a 500 whose detail quotes the swallowed 404, not a 404 |
| Endpoints.ReloadedMessageInjective | main.py:197 | the reload message determines the count it reports |
| Endpoints.ReloadReportsCount | main.py:196-197 | two successful reloads report the same message only for sets of the same size |
| Endpoints.CardAfterReloadUsesNewSet | main.py:192-197 | after a successful reload, GET /card serves the new set without consulting the source again |
| Endpoints.Service.constructor | main.py:26-50 | a started process has an empty cache with no fetch made, and the attempt table the database file already holds (empty for a new file) |
| Endpoints.Service.GetRandomCard | main.py:164-184 | GET /card runs `get_cards` on the cache and answers `RandomCardResponse` of its result; the source is consulted only when the slot was empty |
| Endpoints.Service.ReloadCards | main.py:187-199 | POST /cards/reload clears and refills the cache with exactly one fetch and answers `ReloadResponse` of the refill |
| Endpoints.Service.RecordAttempt | main.py:202-215 | POST /attempt writes through the store and answers `AttemptResponse`; the table grows by one row only on success |

## Left out

- The HTTP request to the export URL and its status check, `requests` and UTF-8 decoding (main.py:97-101) are I/O. They are the `fetch` parameter.
- CSV tokenising with `csv.reader` (main.py:104-106) is the same `fetch` parameter. The model receives rows of strings.
- `os.getenv` and `load_dotenv` are not modelled. The locator is a parameter.
- SQLite is not modelled: connections, commit, the schema and index creation in `init_database` (main.py:38-59). The table is a sequence. The store's constructor takes the rows the database file already holds. A write failure is a parameter.
- AUTOINCREMENT ids are modelled as `|rows| + 1`. This holds because the system never deletes a row: a database file starts empty and only grows, and a restart keeps its rows (`CREATE TABLE IF NOT EXISTS`). Rows removed by hand, or a file written by another program, are not modelled; the constructors require ids numbered 1..n.
- `datetime.now().isoformat()` (main.py:70) is the `now` parameter. The property "the timestamp lies between the call's start and end" is not modelled.
- RandomCardResponse: `random.choice` (main.py:179) is the index `pick`. Uniformity of the choice is not modelled.
- FastAPI routing, Pydantic body validation (the 422 answer), templates, static files, and the `/` and `/api` endpoints (main.py:19-23, 140-161, 218-220) are framework plumbing.
- The check-fetch-store race on the global cache under concurrent requests is not modelled. Each method runs to completion.
- `str(HTTPException)` is rendered as "<status>: <detail>". This is Starlette's `HTTPException.__str__`, which is not part of this model.
- debug.py is a diagnostic script with its own two-column rule. test_api.py needs the live network.
