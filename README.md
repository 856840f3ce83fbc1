# Solana pump scanner, modelled in Dafny

The repository holds two versions of one script, `dex.py` and `dex1.py`. Each script runs once and does five things:

1. It fetches the CoinGecko asset directory.
2. It keeps the ids of the assets that carry a Solana contract address, together with an id-to-address map.
3. It requests market data for those ids in fixed batches. A batch is retried until it gets a 200 response. Rows are collected until 1000 or more are held, or the candidate list runs out.
4. It filters the rows by 1h change, 24h volume, market cap and age.
5. It sends a Telegram report. The report ranks the filtered rows by volume (top 10) and attaches the filtered table. When nothing passes the filter, it samples the top 5 of all rows and attaches nothing.

The two scripts differ in the batch size (100 in `dex.py`, 250 in `dex1.py`) and in the row layout: `dex1.py` has no Name column. A `Variant` parameter carries both differences.

The model has one module per stage:

- `Records`: the JSON inputs (`Asset`, `Coin`, `Field` for absent, `null` or present values) and the table row (`Row`). A numeric cell is `Float`, holding a finite value, +inf or NaN, with IEEE comparisons.
- `AgeEstimator`: `parse_age` over an oracle. `elapsed` stands for `datetime.fromisoformat` plus the subtraction from one fixed current time for the whole run. It yields `None` wherever either of them raises.
- `Selection`: order-preserving selection, shared by the pandas mask and the directory loop.
- `Directory`: the directory loop, as a method proved against the specification functions `SolanaIds` and `Contracts`.
- `Fetcher`: the row construction and the fetch loop.
  - The HTTP responses are a finite script, one response per request.
  - `Fetch` is the loop's specification. The method `FetchRows` keeps `rows` and `page` as the script does and is proved equal to it.
  - A fetch ends unfinished when the script has no response left for a request the loop would still send: a retry, or the next page's batch. The script itself would send that request; it loops forever only if every later response fails.
- `FilterRank`: the boolean mask and `nlargest`.
  - `nlargest` orders by volume descending, NaN last, ties by position.
  - The model includes pandas' refusal to rank a volume column of dtype object. Such a column is built from no rows at all, or from only `null` volumes.
- `Pipeline`: the whole run as the function `Run`, and the script's top level as the method `RunScript` proved equal to it.

Two behaviours of the code as written are modelled as they are:

- **Rows of unknown age are dropped.** The comment at dex1.py:94 says rows of unknown age should pass. In the code, `parse_age` returns +inf for an unknown age, and the age clause tests `< 24` or `isna`. +inf is not NaN, so such rows never pass. `ParseAge` never yields NaN, and `FilterRank.KeepIsStrict` and `FilterRank.KeepNeedsKnownAge` state the consequence.
- **An empty table crashes the run.** When the directory has no Solana candidate, the fetch loop stops before its first request and the table is empty. The fallback `df.nlargest(5, ...)` then raises TypeError on the object-dtype volume column, so no report is sent (`Pipeline.NoCandidatesRaises`).

## Model

| member | source | states |
|---|---|---|
| AgeEstimator.ReplaceZ | dex.py:20 | no `Z` is left; a string without `Z` is unchanged |
| AgeEstimator.ReplaceZChar | dex.py:20 | a single `Z` becomes `+00:00`, any other character stays |
| AgeEstimator.ReplaceZAppend | dex.py:20 | the replacement distributes over concatenation, so with `ReplaceZChar` it is fixed character by character |
| AgeEstimator.ParseAge | dex.py:16-24 | +inf exactly when the timestamp is absent, null, empty or unparsable, otherwise the hours the clock reports; never NaN |
| Directory.SolanaAddress | dex.py:59-61 | an address is found exactly when `platforms` has a non-null, non-empty `solana` entry, and it is that entry |
| Directory.SolanaIds | dex.py:56-62 | the candidates are the ids of the assets kept by the address test, in directory order |
| Directory.Contracts | dex.py:57-63 | every key of `id_to_contract` is the id of a directory entry with a Solana address, mapped to that entry's address |
| Directory.CandidatesExact | dex1.py:49-53 | an id is a candidate iff some asset with that id has a Solana address |
| Directory.NoAddressNoCandidates | dex.py:58-63 | a directory without Solana addresses yields no candidate and an empty map |
| Directory.ContractKeys | dex.py:57-63 | the map's keys are exactly the candidates |
| Directory.ContractsNonEmpty | dex.py:61-63 | every mapped address is non-empty |
| Directory.ContractOfLastEntry | dex.py:63 | a duplicated id maps to the address of its last occurrence with an address |
| Directory.ContractOfUniqueId | dex1.py:49-54 | with unique ids, every candidate maps to its own address |
| Directory.ResolveDirectory | dex.py:55-63 | the loop computes exactly the candidate list and the map |
| Fetcher.Upper | dex.py:86 | same length; each lower-case ASCII letter becomes its upper-case letter (code point minus 32), every other character is unchanged |
| Fetcher.MakeRow | dex.py:84-95 | each cell comes from the coin: id, name and symbol default to `N/A`, the symbol is upper-cased, pair is symbol + `/SOL`; a 1h change that is absent or null is 0; an absent volume or market cap is 0, a null one NaN, a present one its value; the age is `parse_age` of the timestamp; the contract is the map entry for the id or `N/A`; the Name column exists only in `dex.py` |
| Fetcher.NumberCell | dex.py:88-89 | `coin.get(key, 0)` as a cell: NaN exactly for `null`, 0 when absent, the value when present, never +inf |
| Fetcher.MakeRows | dex1.py:74-85 | one row per coin, in response order |
| Fetcher.CandidateRowContract | dex.py:92-93 | a coin whose id is a candidate gets its directory address, never `N/A` |
| Fetcher.OffsetIsProduct | dex.py:72 | the first index of page p is (p-1)*per_page |
| Fetcher.Batch | dex1.py:63 | at most per_page ids; empty exactly when the page starts past the end of the list |
| Fetcher.PagesTile | dex.py:72 | pages 1..p together request exactly the first p*per_page candidates, each once |
| Fetcher.Join | dex.py:72-74 | the joined string is empty exactly for no id or a single empty id |
| Fetcher.BlankRequest | dex.py:72-74 | a batch counts as blank exactly when its joined `ids_str` is empty |
| Fetcher.Stopped | dex.py:71-74 | the loop stops exactly at 1000 or more rows or when the current page's `ids_str` is empty |
| Fetcher.Fetch | dex.py:71-99 | never more requests than responses |
| Fetcher.FetchEnds | dex.py:71-98 | rows only grow, the page only advances; a fetch is finished exactly when it ends at the loop guard, and an unfinished one used every response |
| Fetcher.FetchAccount | dex.py:78-98 | the rows and page reached are those of processing exactly the consumed responses, in order |
| Fetcher.FetchRequest | dex.py:71-76 | request k asks for the batch of the page reached after k responses, and is issued only below 1000 rows with a non-empty batch |
| Fetcher.RetryOnce | dex.py:78-81 | a failed response re-requests the same batch without changing rows or page |
| Fetcher.SucceedOnce | dex.py:83-98 | a 200 response appends its rows and advances the page by one |
| Fetcher.RetryRun | dex1.py:68-71 | n failed responses request the same batch n times and change nothing else |
| Fetcher.RetryThenSucceed | dex.py:76-98 | n failures then a success: the batch is requested n+1 times, its rows appended once, the page advanced once |
| Fetcher.FetchOvershootBound | dex.py:71 | if no response holds more than m coins, fewer than 1000 + m rows are collected |
| Fetcher.CapCanBeExceeded | dex1.py:62 | the cap is checked only between batches: at 999 rows one more request is issued, and its two coins leave 1001 rows |
| Fetcher.FetchStopped | dex.py:73-74 | once the guard holds, the loop ends finished with what it has |
| Fetcher.AppendRows | dex.py:84-95 | the inner loop appends exactly the rows of the response's coins |
| Fetcher.AcceptResponse | dex.py:83-98 | a 200 response inside the loop appends one row per coin and resumes the fetch at the next response on the next page |
| Fetcher.FetchRows | dex1.py:59-89 | the loop ends with exactly the rows, page and requests of the specification `Fetch` |
| FilterRank.FilterRows | dex.py:105-110 | a row is kept iff it is a fetched row that passes all four tests; never more rows than fetched |
| FilterRank.FilterRowsAppend | dex1.py:95-100 | filtering rows collected batch by batch is filtering each batch |
| FilterRank.KeepIsStrict | dex.py:106-109 | every threshold is strict, and a row of unknown age (+inf) is never kept |
| FilterRank.KeepNeedsKnownAge | dex1.py:94-99 | for fetched rows the mask keeps exactly finite volume above 1e6, market cap below 1e7, known age below 24 h and 1h change above 10 |
| FilterRank.Keep | dex.py:105-109 | the mask with IEEE comparisons: 1h change above 10, volume +inf or a number above 1e6, a finite market cap below 1e7, age NaN or a number below 24 (so +inf age fails) |
| FilterRank.Above | dex.py:122 | the `nlargest` order on volumes: NaN below every number, +inf above every finite one, numbers by value |
| FilterRank.Precedes | dex.py:122 | a larger volume is listed first; a listed-first row never has a smaller volume; between equal volumes the earlier row comes first (keep='first') |
| FilterRank.PrecedesTotal | dex.py:122 | two distinct positions are ranked one way only |
| FilterRank.PrecedesTransitive | dex.py:129 | the ranking order is transitive |
| FilterRank.SelectTop | dex1.py:112 | the first n candidates in ranking order, distinct, each ahead of every candidate left out |
| FilterRank.TopIndices | dex1.py:117 | `nlargest(n)` picks min(n, rows) distinct positions, in ranking order, each ahead of every row left out |
| FilterRank.NLargest | dex.py:122 | min(n, rows) of the rows, each listed at most as often as it occurs, by non-increasing volume, no row left out has a larger volume than a listed one, and the k-th listed row is the row at the k-th ranked position (so equal volumes keep the earlier row first) |
| FilterRank.NumericVolume | dex.py:129 | the volume column is numeric exactly when some row's volume is not NaN; an empty table never is |
| FilterRank.Rank | dex.py:121-129 | TypeError iff nothing passes and no volume is numeric; otherwise the export is the filtered set, attached iff non-empty; the ranked rows are `NLargest` of the filtered rows with n = 10 when it is attached, else `NLargest` of all rows with n = 5 |
| Pipeline.EnvOf | dex.py:55-70 | the fetch reads exactly the candidates and a map keyed by them |
| Pipeline.Run | dex.py:47-135 | the run ends in the directory alert exactly when that request fails; otherwise it ends exhausted exactly when the fetch does not finish, raises TypeError exactly when nothing passes and no volume is numeric, and reports in every other case; a report's export is the filter of the fetched rows, an attached report ranks the 10 largest-volume filtered rows (`NLargest`), an unattached one the 5 largest-volume rows of the whole fetch |
| Pipeline.RunScript | dex1.py:39-121 | the script's top level computes exactly `Run` |
| Pipeline.NoCandidatesRaises | dex.py:127-129 | with no Solana candidate the table is empty and the run ends in the `nlargest` TypeError |
| Pipeline.ExportIsFilteredFetch | dex.py:112-135 | the export is the filter applied to the rows of exactly the consumed 200 responses, attached iff some of them pass |
| Pipeline.SampleFailsFilter | dex1.py:115-118 | without an export, the report samples the top 5 of all rows, none of which passes the filter |

## Left out

- CoinGecko requests: not sent; the directory response and the market responses are inputs, one value per request.
- Telegram calls: sending the alert, the report and the file, and their status checks, are not modelled; the run's result is what the report is built from.
- `time.sleep` between requests: timing affects nothing but the ages, and those are measured against one clock reading (next lines).
- The clock and ISO-8601 parsing: `AgeEstimator.ParseAge` takes them as an oracle `elapsed`.
- The moving clock: the scripts read the current time once per coin (dex.py:21, called at dex.py:91), with sleeps and retries in between (dex.py:80, 99). The model measures every age against one clock reading for the whole run, so two coins with the same `last_updated` always get the same age, and a row's age does not depend on when its batch arrived.
- Building the pandas DataFrame, writing the Excel buffer, and the HTML or `to_string` message text: the model stops at the rows each part is built from.
- Environment variables, `print` output and `exit()`.
- Fetcher.Upper: covers ASCII letters only; Python's `str.upper` also maps other Unicode letters.
- `null` in text fields (`symbol`, `name`, `id`): the scripts would raise or store `None`; the model treats them like absent fields.
- Non-finite JSON numbers, and responses whose body is not a list of objects.
- A directory entry without `id` that has a Solana address: the scripts read `coin['id']` only for such entries (dex.py:61-62, dex1.py:52-53) and raise KeyError there; entries without an address are skipped whether or not they have an `id`.
- `platforms` given as `null` (the scripts raise AttributeError): the model treats a `null` platforms like an absent one.
- The scripts' unbounded retrying: a finite response script ends the fetch with the outcome `ResponsesExhausted` as soon as a request the loop would still send has no response.
- Fetcher.Fetch: its own contract only bounds the number of requests; what it does is stated by `FetchEnds`, `FetchAccount`, `FetchRequest` and the step lemmas.
- Python float arithmetic: ages and numeric cells are exact reals; only the comparisons the filter and the ranking make are modelled.
