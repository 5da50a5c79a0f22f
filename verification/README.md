# KoBoToolbox sync — a Dafny model of its decision logic

The sync script pulls the CSV export of a KoBoToolbox form. It turns the
submissions into a GeoJSON point collection (`puntos.geojson`) and a summary
(`resumen.json`). The summary holds the latest submission date and three
totals: `total_boletas`, `total_plantas` and `total_participantes`. This
project models the deterministic core of that script as pure Dafny functions
over immutable datatypes, and proves what the code promises about them.

The modules follow the script's structure:

- `Wrappers`: `Option` and `Result`. These stand in for Python's `None` and
  for raised exceptions.
- `Text`: the Python string operations the script depends on, namely
  `str.strip()`, `str.split()` (both with Unicode whitespace as `str.isspace`
  defines it), `rstrip("/")`, `startswith`, `replace`, and decimal rendering
  of a counter.
- `Columns`: rows as maps from column name to text, the decoded export
  (`Table`), the candidate column lists, and `first_existing_key`.
- `Coerce`: `parse_geopoint`, `split_multi`, `to_int` and `iso_parse`.
- `Retry`: the backoff schedule and `http_get_with_retries`. This is a
  method over a scripted sequence of request outcomes, and it returns the
  sleeps it would take.
- `Exports`: the paginated export-settings listing, the choice of the export
  by name, and the derivation of the `…/data.csv` download URL.
- `Features`: the per-row feature builder, the totals and latest-date fold,
  and the whole second half of `main` (`Ingest`).

Some values are not computed by the model:

- Python's `float`, `round` and `datetime.fromisoformat` are parameters, in
  `Features.Oracles`.
- A parsed timestamp is ordered by the integer instant that
  `Oracles.instant` assigns to it.
- The request outcomes are a parameter (`outcome: nat -> Attempt`).
- A listing page is a parameter (`fetchPage`).
- The wall clock appears only as the tag `Stamp.WallClock`.

Details of the code that the model follows:

- The backoff comment in `http_get_with_retries` lists "3, 6, 12, 20,
  30". The formula `min(30, 3 * 2**i)` gives 3, 6, 12, 24, 30, and
  `Retry.BackoffSchedule` proves that schedule.
- `iso_parse` replaces every `Z` in the stripped text with `+00:00`, wherever
  it occurs. `Coerce.IsoParse` does the same, and `Coerce.IsoParseTrailingZ`
  covers the common case of a trailing `Z`.
- Nothing clamps the counts: `to_int("-5")` is -5, so a total can be
  negative. The model proves that the totals equal the count and the sums
  over the features.
- The geopoint comes from one column holding "lat lon [alt] [acc]", and a
  select-multiple answer is split on whitespace only.

## Model

| member | source | states |
|---|---|---|
| `Text.Strip` | scripts/kobo_sync.py:56 | `strip()` never lengthens its input, and the result is empty exactly when the input is all whitespace |
| `Text.StripIdempotent` | scripts/kobo_sync.py:79 | stripping twice is stripping once |
| `Text.StripSlice` | scripts/kobo_sync.py:56 | what `strip()` keeps is a slice of the input. Only whitespace is cut on either side, and neither end of the result is whitespace |
| `Text.Split` | scripts/kobo_sync.py:59 | every token of `split()` is non-empty and contains no whitespace |
| `Text.SplitAtSpace` | scripts/kobo_sync.py:59 | one whitespace character separates tokens: `split(a + c + b)` is `split(a)` followed by `split(b)` |
| `Text.SplitEmptyIffAllSpace` | scripts/kobo_sync.py:75 | `split()` gives no tokens exactly when the string is all whitespace |
| `Text.ConcatOfSplit` | scripts/kobo_sync.py:75 | the tokens, joined back together, are exactly the input's non-whitespace characters in order |
| `Text.SplitOfStrip` | scripts/kobo_sync.py:74-75 | stripping before splitting does not change the tokens |
| `Text.RStripChar` | scripts/kobo_sync.py:160 | `rstrip("/")` returns a prefix that does not end in `/`, and only `/` characters were removed |
| `Text.RStripCharRun` | scripts/kobo_sync.py:160 | `rstrip` removes exactly a trailing run of the character and nothing before it |
| `Text.ReplaceChar` | scripts/kobo_sync.py:92 | after `replace("Z", …)` no `Z` is left, and a string without `Z` is unchanged |
| `Text.ReplaceTrailing` | scripts/kobo_sync.py:92 | a single trailing `Z` becomes the replacement text and nothing else changes |
| `Text.ParseNatToString` | scripts/kobo_sync.py:242 | the decimal rendering inside `row-N` reads back to `N` |
| `Columns.FirstExistingKey` | scripts/kobo_sync.py:43-48 | the result is the earliest candidate, in candidate order, that is among the headers. It is `None` exactly when no candidate is among them |
| `Columns.FirstExistingKeySameNames` | scripts/kobo_sync.py:44 | only the set of header names matters, not their order or repetition |
| `Columns.FirstExistingKeyPriority` | scripts/kobo_sync.py:45-47 | a present candidate guarantees a result at its position or earlier |
| `Coerce.ParseGeopointSpec` | scripts/kobo_sync.py:50-68 | a missing value, fewer than two tokens, or an unparsable first or second token gives no point. Otherwise the point is `[float(tok1), float(tok0)]`, longitude first |
| `Coerce.GeopointIgnoresExtraTokens` | scripts/kobo_sync.py:59-66 | altitude and accuracy tokens after the first two do not change the point |
| `Coerce.GeopointSwapsToLonLat` | scripts/kobo_sync.py:63-66 | "lat lon" becomes the GeoJSON pair (lon, lat) |
| `Coerce.GeopointExample` | scripts/kobo_sync.py:50-68 | "19.43 -99.13 10 5" becomes [-99.13, 19.43] |
| `Coerce.GeopointNeedsTwoTokens` | scripts/kobo_sync.py:59-61 | a single token, or the empty string, gives no point |
| `Coerce.SplitMultiSpec` | scripts/kobo_sync.py:70-75 | the choices are `str.split()` of the answer, in order. `None` or all-whitespace text gives `[]`, each choice is non-empty and free of whitespace, and the choices joined together are the answer's non-whitespace text |
| `Coerce.SplitMultiExample` | scripts/kobo_sync.py:70-75 | the answer "A C" gives the two choices "A" and "C" |
| `Coerce.ToIntSpec` | scripts/kobo_sync.py:77-84 | blank text gives 0. A missing cell gives 0, because `str(None)` is "None" and `float` rejects it. Text that `float` rejects, or that is NaN or infinite (where `round` raises), gives 0. A finite number gives its rounding |
| `Coerce.ToIntIgnoresSurroundingSpace` | scripts/kobo_sync.py:79 | whitespace around a number never changes the count |
| `Coerce.IsoParseSpec` | scripts/kobo_sync.py:86-96 | a missing or blank value gives `None`. Otherwise the parser receives a string with no `Z` in it, and text without `Z` is parsed as stripped |
| `Coerce.IsoParseTrailingZ` | scripts/kobo_sync.py:92-94 | a trailing `Z` is parsed as the offset `+00:00` |
| `Retry.BackoffDelay` | scripts/kobo_sync.py:113 | every sleep lies between 3 and 30 seconds |
| `Retry.BackoffMonotone` | scripts/kobo_sync.py:112-113 | the sleep never decreases from one attempt to the next |
| `Retry.BackoffSchedule` | scripts/kobo_sync.py:112-113 | the sleeps are 3, 6, 12 and 24 seconds, then 30 from the fifth failure on |
| `Retry.HttpGetWithRetries` | scripts/kobo_sync.py:98-115 | at most `tries` requests are made. The first non-failing response is returned unchanged, 4xx included, and a 502, 503 or 504 is never returned. Every failed attempt, the last included, is followed by its backoff sleep. When all attempts fail, the error carries the URL and the last failed attempt |
| `Retry.TwoOutagesThenOk` | scripts/kobo_sync.py:103-109 | a download that answers 503 twice and then 200 succeeds on the third request, after sleeping 3 and then 6 seconds |
| `Exports.Paginate` | scripts/kobo_sync.py:117-139 | a missing or empty URL ends the loop with nothing collected. A page failure aborts the listing. A pending URL is always non-empty |
| `Exports.PaginateCollectsVisitedPages` | scripts/kobo_sync.py:124-137 | the collected settings are the results (or bare list) of the requested pages, concatenated in request order |
| `Exports.PaginateFuelIrrelevant` | scripts/kobo_sync.py:124 | once the loop has ended or failed, more iterations change nothing |
| `Exports.PaginateResume` | scripts/kobo_sync.py:124-137 | running the loop for n iterations and then k more equals running it for n + k. New results are appended after the earlier ones |
| `Exports.TwoPages` | scripts/kobo_sync.py:130-132 | two envelope pages linked by `next` are concatenated in page order |
| `Exports.PageEndsLoop` | scripts/kobo_sync.py:133-137 | a bare list is appended and ends the loop. Any other non-envelope body ends it with nothing added |
| `Exports.AvailableNames` | scripts/kobo_sync.py:176-178 | `available` holds exactly the non-empty names |
| `Exports.AvailableNamesOne` | scripts/kobo_sync.py:176-177 | one setting adds its name to `available` exactly when the name is non-empty |
| `Exports.AvailableNamesAppend` | scripts/kobo_sync.py:175-178 | `available` is built in listing order: the names from consecutive runs of settings follow each other, repeats included |
| `Exports.LastMatch` | scripts/kobo_sync.py:175-180 | the kept index has the wanted name and no later setting does. There is no index exactly when no setting matches |
| `Exports.Shown` | scripts/kobo_sync.py:185 | the error lists a prefix of the names: all of them when there are at most twenty, else exactly the first twenty |
| `Exports.SelectExportChoosesLastMatch` | scripts/kobo_sync.py:172-180 | a chosen setting has the wanted name (its name, else its title, stripped), and no later setting has it: the last match wins |
| `Exports.SelectExportFailure` | scripts/kobo_sync.py:170-186 | an empty listing fails. Otherwise selection fails exactly when no setting has the wanted name, and the error carries the wanted name, the first twenty available names and whether more were cut off |
| `Exports.LastMatchWins` | scripts/kobo_sync.py:179-180 | of two settings both named `wanted`, the later one is chosen |
| `Exports.BuildDataCsvUrl` | scripts/kobo_sync.py:141-160 | it fails exactly when both `url` and `uid` are missing or empty. Otherwise the result ends in `/data.csv`, and the part before the suffix is the resolved URL with its trailing slashes removed |
| `Exports.AbsoluteUrlGetsSuffix` | scripts/kobo_sync.py:157-160 | an absolute `url` without a trailing slash just gets `/data.csv` |
| `Exports.RelativeUrlResolved` | scripts/kobo_sync.py:157-160 | a `url` starting with `/` gets BASE prepended |
| `Exports.UidFallback` | scripts/kobo_sync.py:149-160 | without a `url`, the URL is BASE + `/api/v2/assets/{ASSET}/export-settings/{uid}/data.csv` |
| `Exports.LocateExport` | scripts/kobo_sync.py:169-189 | the URL is `build_data_csv_url` of the chosen setting, the last one with the wanted name, so it ends in `/data.csv`. A selection error is passed on unchanged, so location fails when no setting has that name |
| `Features.FirstFilledSpec` | scripts/kobo_sync.py:237-242 | `a or b or …` over row cells gives the value of the first non-empty cell, and `None` exactly when all of them are empty |
| `Features.RowIdSpec` | scripts/kobo_sync.py:237-243 | the id is the first non-empty of `_id`, `_uuid`, `meta/instanceID` and `id`, else `row-(k+1)`. It is never empty |
| `Features.SyntheticIdsDistinct` | scripts/kobo_sync.py:242 | synthetic ids given at different feature counts differ |
| `Features.PropsSpec` | scripts/kobo_sync.py:246-263 | the id is the row id. `fecha_actividad` is its own cell when non-empty, else the resolved date column's cell when non-empty, else empty. `municipios` and `instituciones` are `str.split()` of their cells, or empty when the cell is missing. Every plain text property is its cell, or empty when the cell is missing or empty. `area_m2` is `to_int` of its cell |
| `Features.CountsReadTheirColumn` | scripts/kobo_sync.py:256-257 | with the columns resolved from the header, `total_plantas` and `total_participantes` are always `to_int` of the cells of those names, because the resolved column and the fallback name are the same column |
| `Features.Later` | scripts/kobo_sync.py:272-273 | the running maximum is one of its two inputs, is not below either of them, and keeps the earlier value on a tie |
| `Features.Included` | scripts/kobo_sync.py:232-235 | no more rows are kept than given, and each kept row has a parsable geopoint |
| `Features.IncludedOne` | scripts/kobo_sync.py:233-235 | a single row is kept exactly when its geopoint parses |
| `Features.IncludedAppend` | scripts/kobo_sync.py:232-235 | the rows kept from a concatenation are those kept from each part, in order |
| `Features.TotalsMatchFeatures` | scripts/kobo_sync.py:265-267 | `total_boletas` is the number of features. `total_plantas` and `total_participantes` are the sums of those properties over the features |
| `Features.BuildEmitsIncluded` | scripts/kobo_sync.py:232-281 | the features are the rows with coordinates, in row order, each mapped with its position among the features |
| `Features.FeaturesAreIncludedRows` | scripts/kobo_sync.py:232-281 | there are as many features as rows with coordinates, and the j-th feature is built from the j-th such row as feature number j |
| `Features.FeatureIds` | scripts/kobo_sync.py:237-243 | the j-th feature's id is its row's first non-empty identity column, else `row-(j+1)` |
| `Features.SkippedRowContributesNothing` | scripts/kobo_sync.py:233-235 | a row whose geopoint does not parse changes neither the features, the totals nor the latest date |
| `Features.BuildOfIncluded` | scripts/kobo_sync.py:232-235 | dropping the rows without coordinates first gives the same result |
| `Features.MaxDateIsLatest` | scripts/kobo_sync.py:272-273 | the strict-`>` running maximum is the latest present timestamp, the first one on a tie, and `None` when none is present |
| `Features.LastTsIsMaxDate` | scripts/kobo_sync.py:269-273 | `last_ts` is the running maximum of the included rows' parsed dates |
| `Features.LastTsIsLatestIncludedDate` | scripts/kobo_sync.py:269-273 | `last_ts` is the latest parsed date among the included rows only. It is `None` when there is no date column or no included date parses |
| `Features.BuildEmpty` | scripts/kobo_sync.py:226-230 | zero rows give no features, all-zero totals and no date |
| `Features.ResolveFields` | scripts/kobo_sync.py:212-223 | there are no columns to read exactly when no geopoint candidate is a column. Otherwise each field is `first_existing_key` of its candidate list |
| `Features.Ingest` | scripts/kobo_sync.py:199-293 | no rows gives an empty collection, zero totals and the wall-clock stamp. Otherwise it fails, reporting the candidates and the first forty columns, exactly when no geopoint candidate is a column. On success the features are the loop's features over the resolved columns and the stamp is the loop's latest date, else the wall clock. The totals count and sum the features, and there are no more features than rows |
| `Features.IngestStampIsLatestIncludedDate` | scripts/kobo_sync.py:269-284 | the stamp is the latest parsed date among the rows that became features, the first of equal ones. It is the wall clock exactly when none of those rows has a date that parses, and always when there is no date column |

## Left out

- HTTP is not modelled. `requests.get`, timeouts and the bearer-token header become the `outcome` script in `Retry` and the `fetchPage` parameter in `Exports`.
- The listing's retried GET (line 125, five tries), its `raise_for_status` (line 126) and `r.json()` (line 127) are folded into `fetchPage`, which may return any `LocateError`. The listing's first URL, `BASE/api/v2/assets/ASSET/export-settings/`, is the caller's argument to `Exports.Paginate`.
- The CSV download (lines 190-191) is not composed with the rest. `Retry.HttpGetWithRetries` models its retries, but its `raise_for_status` is not modelled anywhere: `Features.Ingest` starts from the already decoded table.
- `time.sleep` is not performed. `Retry.HttpGetWithRetries` returns the list of sleeps instead.
- The environment configuration (lines 14-17) is not modelled. BASE, ASSET and EXPORT_NAME are parameters, and BASE is taken as already stripped of trailing slashes.
- Writing the two files, JSON serialisation and `utc_now_iso` are not modelled. The summary's date is `Stamp.Parsed(t)` or `Stamp.WallClock`.
- UTF-8-with-BOM decoding and `csv.DictReader` are not modelled. The export arrives as a `Columns.Table`. A cell the reader would fill with `None` is an absent key, and the reader's extra-fields key `None` never matches a candidate, so it is omitted.
- `float`, `round`, `datetime.fromisoformat` and `isoformat` are not modelled. They are the function parameters bundled in `Features.Oracles`.
- Mixed timestamps: comparing a timezone-aware with a naive `datetime` raises `TypeError` in Python. The model orders every parsed timestamp by a single integer instant, so that error path is not represented.
- Exports.Paginate: the `while url:` loop has no bound in the source, so the model runs at most `fuel` iterations and reports the URL still pending. `PaginateFuelIrrelevant` and `PaginateResume` show that the bound affects nothing else.
- Exports.Paginate: a `results` value that is a JSON object or string (which `extend` would iterate) is not representable. A `null` `results` is the empty list.
- Exports.Setting: JSON values of `name`, `title`, `url` and `uid` that are not strings (a numeric `uid` formatted by the f-string, say) are not representable.
- The error messages' wording is not modelled. The errors carry the same data: the URL, the wanted name, the first twenty names and the first forty columns.
