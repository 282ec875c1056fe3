# eBird hotspot scraper: a Dafny model of its core

`ebird.py` reads rows of bounding boxes from a coordinate file. For each box,
`get_hotspots` asks eBird's map service for the hotspots inside it, and
`get_birds` fetches each hotspot's page and keeps the (hotspot name, bird
name) pairs whose sighting date is 2010 or later. Both `main` and
`get_birds` work in two passes. The first pass queues every unit whose
request raised. The second pass is a `while` loop that drains that queue.

This project models three parts of the script:

- **The listing URL of `get_hotspots`** (`hotspot_query.dfy`). Each coordinate
  is padded with `ljust(16, "0")`, and the four coordinates land in the query
  parameters `maxY`, `maxX`, `minY` and `minX`.
- **The per-record recency test** (`sightings.dfy`). It computes
  `int(date[-4:]) >= 2010`, using CPython's rules for `int()` on an ASCII
  `str` (`py_str.dfy`).
- **The two passes of `get_birds`** (`bird_fetcher.dfy`) and **of `main`**
  (`pipeline.dfy`), as imperative loops. Each loop is proved against a
  recursive specification function, and lemmas about those functions state
  the properties below.

The network is modelled as two oracles:

- `fetch(url, k)` is the response to the k-th hotspot-page request of the
  run. It is either `Unreachable` (the request or the HTML parse raised
  inside the `try`) or the page's sighting records.
- `resolve(url, q)` is the answer to the q-th listing request. It is either
  `None` (`get_hotspots` raised) or the list of hotspots.

Request numbers are counted across the whole run, so a unit requested twice
may get two different answers.

`sleep(.5)` is kept only as a count of delays. `requested` and `listings`
record which pages and listings were requested, in order.

The model follows the code where descriptions of the script say otherwise:

- There is no filter for hybrids, slash forms, parenthesised forms or `sp.`
  entries.
- The year threshold is the constant 2010. The `year` argument is never read.
- A date whose last four characters are not an integer raises `ValueError`.
  The parse sits outside any `try`, so the error aborts `get_birds` and
  `main`; it is not a per-record skip.
- The retry passes do not retry each unit once (see Findings).
- `main`'s retry pass raises `TypeError` as soon as a retried box resolves.

## Model

| member | source | states |
|---|---|---|
| PyStr.LJust | ebird.py:53 | `ljust(width, fill)`: the result has length max(len(s), width), starts with s, is `fill` after it, and is s itself when s is already that long |
| PyStr.ParseInt | ebird.py:80 | `int()` of a string returns a value only when the text holds a decimal digit |
| PyStr.ParseIntRange | ebird.py:80 | `int()` of at most four characters lies in -999..9999, and below 1000 for fewer than four characters |
| PyStr.ParseShow | ebird.py:80 | `int(str(n)) == n` for every natural number: the decimal text of a year parses back to that year |
| HotspotQuery.PadCoord | ebird.py:53 | each coordinate's text is followed by '0's up to 16 characters; the result has length max(len, 16) and text of 16 or more characters is unchanged |
| HotspotQuery.HotspotsUrl | ebird.py:53 | the listing URL is the `genHsForWindow.do` endpoint followed by `?` and the query |
| HotspotQuery.HotspotsUrlParams | ebird.py:53 | for any coordinate text without '&', the listing URL carries maxY = padded y2, maxX = padded x2, minY = padded y1, minX = padded x1 and yr = all, read the way a server splits the query |
| Pipeline.RowQueryParams | ebird.py:20-22 | a coordinate row (y2, x1, y1, x2) becomes `get_hotspots(x1, y1, x2, y2)`, whose query sets maxY=y2, maxX=x2, minY=y1 and minX=x1 |
| Sightings.RecentDatedYear | ebird.py:79-81 | a date ending in a four-digit year y is kept exactly when y >= 2010, whatever text precedes the year |
| Sightings.MalformedDateRaises | ebird.py:80 | a date whose last four characters are not an integer ("201O") makes the test raise `ValueError` |
| Sightings.SeparatorControlRaises | ebird.py:80 | a 0x1c separator control before the year is not white space to `int()`: the date raises `ValueError` instead of reading as 201 |
| Sightings.YearRange | ebird.py:80 | the year `int(date[-4:])` reads lies in -999..9999, and below 1000 when the date is shorter than four characters |
| Sightings.ShortDateNeverRecent | ebird.py:80 | the test `IsRecent` raises nothing but `ValueError`, and never keeps a date shorter than four characters |
| Sightings.Extract | ebird.py:74-81 | one page either raises `ValueError` or yields at most one observation per record, all under the page's hotspot name |
| Sightings.ExtractOk | ebird.py:79-80 | a page raises exactly when one of its dates does not parse as an integer |
| Sightings.ExtractSound | ebird.py:79-81 | every observation of a page comes from a record of that bird dated 2010 or later |
| Sightings.ExtractComplete | ebird.py:79-81 | every record of a bird dated 2010 or later yields that bird's observation |
| Sightings.ExtractContributes | ebird.py:79-81 | a page contributes (hotspot, bird) if and only if one of its records is for that bird and dated 2010 or later |
| Sightings.ExtractAppend | ebird.py:75-81 | records are handled in page order: the observations of a page split at any record are those of the first part followed by those of the rest |
| Sightings.AppendKept | ebird.py:75-81 | the inner `for li in lis` loop appends the page's observations to `ret`, or raises `ValueError` exactly when some date does not parse |
| BirdFetcher.PageUrlDistinct | ebird.py:68 | two hotspots' page URLs are equal exactly when their ids `l` are |
| BirdFetcher.BirdsOf | ebird.py:57-102 | `get_birds` raises nothing but `ValueError`; when it returns, the first-pass `ret` is a prefix of its result |
| BirdFetcher.FirstPassLoop | ebird.py:64-82 | the `for hotspot in hotspots` loop computes the first-pass state; it requests every hotspot once, in order, with one delay after each, or stops at the hotspot whose page raised |
| BirdFetcher.FailedIndicesExact | ebird.py:66-73 | the failed positions are listed in increasing order, and a position is listed if and only if its request failed |
| BirdFetcher.MissedInOrder | ebird.py:66-73 | after the first pass, `missed` holds exactly the hotspots whose request failed, in input order; a fetched hotspot never enters it |
| BirdFetcher.FirstPassPrefix | ebird.py:65-81 | `ret` and `missed` are only appended to: the state after j hotspots is a prefix of the state after any later count |
| BirdFetcher.RetryOnce | ebird.py:84-99 | one retry request adds nothing when the page is unreachable, else appends the page's observations, or raises `ValueError` |
| BirdFetcher.RetryStep | ebird.py:83-101 | one iteration of the `while missed` loop advances the retry state by one request of `missed[0]` |
| BirdFetcher.RetryLoop | ebird.py:83-101 | the `while missed` loop terminates after `len(missed)` iterations, requesting `missed[0]` each time; its result is the first-pass `ret` followed by the retry observations, or `ValueError`; one delay follows each request that does not raise |
| BirdFetcher.DrainMissed | ebird.py:83-101 | on a non-empty queue, the loop body runs once per element, popping the last one each time but always requesting `missed[0]`; it returns `ret` followed by those requests' observations, or `ValueError` at the j-th request, having requested `missed[0]` j+1 times with j delays |
| BirdFetcher.GetBirds | ebird.py:57-102 | `get_birds` returns the first-pass observations followed by the retry-pass observations, or raises `ValueError`; the result does not depend on `year`; it requests the hotspots, then the retries, with one delay per request except the one that raised |
| BirdFetcher.RetryAttemptPattern | ebird.py:83-100 | when `get_birds` returns with k missed hotspots, it has requested every hotspot once, then `missed[0]` exactly k times and no other missed hotspot again |
| BirdFetcher.Provenance | ebird.py:57-102 | every observation returned comes from a request that fetched the page of a hotspot of that name, and that page has a record of that bird dated 2010 or later |
| BirdFetcher.RetryRepeatsFirstMissed | ebird.py:83-101 | with two distinct unreachable hotspots a and b, `get_birds` requests a, b, a, a and never retries b |
| BirdFetcher.RetryEachStep | ebird.py:83-101 | one iteration of the corrected retry loop advances the state by one request of the next missed hotspot |
| BirdFetcher.RetryEachOnce | ebird.py:83-101 | the corrected retry loop requests each missed hotspot exactly once, in the order it was missed; it returns `ret` followed by their observations, or raises `ValueError` at the first page that raises |
| BirdFetcher.RetryAgreesOnOneMiss | ebird.py:83-101 | with at most one missed hotspot the written and the corrected retry passes give the same result |
| Pipeline.RowsLoop | ebird.py:20-28 | the `for` loop over the coordinate rows computes the first-pass state, requesting each row's listing once, in order, or stops at the row whose `get_birds` raised |
| Pipeline.VisitRow | ebird.py:21-28 | one row: a failed listing queues the row; otherwise the row's `get_birds(hotspots, year)` extends the output or raises |
| Pipeline.RowsMissedExact | ebird.py:20-25 | after a pass over rows, the queue holds exactly the rows whose listing request failed, in row order |
| Pipeline.RetryListings | ebird.py:29-40 | the `while missed_hotspots_coords` loop re-requests `missed[0]` once per missed row; it raises `TypeError` at the first retry that resolves and adds no observations |
| Pipeline.FirstResolvedExact | ebird.py:29-36 | the retry loop finds the earliest retry that succeeds, and finds none exactly when every retry fails |
| Pipeline.MainOf | ebird.py:10-40 | when `main` returns, it returns exactly its first-pass observations; it raises `TypeError` only after a completed first pass that missed some row |
| Pipeline.RunMain | ebird.py:10-40 | `main` leaves in `bird_data_rows` the first-pass observations, or raises `ValueError` from `get_birds` or `TypeError` from the retry; it requests the listings given by the retry pattern |
| Pipeline.MainRetryAddsNothing | ebird.py:29-40 | `main` returns normally if and only if its first pass does and every retried listing request fails; it then returns exactly the first-pass observations; any other failure after a completed first pass is `TypeError` |
| Pipeline.MainRetryPattern | ebird.py:29-40 | when `main` returns, every row was requested once, then the first missed row once per missed row, and no other missed row again |
| Pipeline.RetryResolvedRowRaises | ebird.py:38 | one row whose listing fails once and then resolves makes `main` raise `TypeError` |
| Pipeline.MainFixedRetriesEachOnce | ebird.py:29-40 | the corrected `main` never raises `TypeError`; when it returns, each missed row was requested exactly once more, in order; it keeps the first-pass observations followed by those of the retried rows and drops exactly the rows whose retry failed too |
| Pipeline.RunMainFixed | ebird.py:29-40 | the corrected `main`: the missed rows go once more, in order, through the body of the first loop, calling `get_birds(hotspots, year)` |

## Left out

- HTTP requests, `resp.json()` and the HTML parse: these are the `fetch` and `resolve` oracles. A JSON answer that is not a list of hotspots is not modelled.
- BeautifulSoup traversal (`find_all` with the `has-det-` pattern, `find_next`, `.span.string`, `stripped_strings[2]`): each page is given as its sequence of (bird name, date text) records. Errors raised by that traversal outside the `try` are not modelled.
- A hotspot dictionary without its `l` or `n` key: hotspots are records that always have both. A missing `l` raises `KeyError` inside the `try` at ebird.py:68 and :85, so it is caught and the hotspot is handled like an unreachable page. A missing `n` raises `KeyError` at :81, :88 and :99, outside any `try`, so it would escape `get_birds`.
- `str()` of a float coordinate: coordinates are taken as the text `str()` produces.
- pandas CSV reading and writing, and the `dt.now()` output file name: file I/O and the clock. `main`'s result is the list it would write.
- `argparse` and the `__main__` entry point: command-line plumbing.
- The duration of `sleep(.5)`: only the number of delays is kept.
- `print` diagnostics: output only.
- PyStr.ParseInt: models `int()` for ASCII text only. For text with a non-ASCII character CPython also skips non-ASCII white space (such as U+00A0, U+0085 or U+2003; 0x1c-0x1f are not skipped even then) and reads Unicode decimal digits; neither is modelled.
- BirdFetcher.RetryLoop: states the delay count only for the requests made, not their timing. The same holds for FirstPassLoop, GetBirds and RetryEachOnce.

## Findings

| source | as written | input that shows it | evidently intended | confidence | as-written member | corrected member |
|---|---|---|---|---|---|---|
| ebird.py:83-101 | the retry loop reads `missed[0]` but removes the last element with `missed.pop()`; with k missed hotspots it requests the first one k times and never retries the others | two distinct hotspots a and b, every page unreachable: the requests are a, b, a, a, and b is never retried | each missed hotspot retried once, in order, as the docstring at ebird.py:58-59 promises; that is, `missed.pop(0)` | not executed | BirdFetcher.RetryRepeatsFirstMissed | BirdFetcher.RetryEachOnce |
| ebird.py:38 | the retry pass of `main` calls `get_birds(hotspots)` without the required `year` argument, so every box that resolves on retry raises `TypeError`; the loop also mirrors the `missed[0]` / `pop()` defect | one row whose listing request fails the first time and succeeds the second time: `main` raises `TypeError` | `get_birds(hotspots, year)`, and each missed box retried once (docstring at ebird.py:11-12) | not executed | Pipeline.RetryResolvedRowRaises | Pipeline.RunMainFixed |
