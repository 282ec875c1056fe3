/** `main`: for each row of the coordinate file, ask the listing service for
    the hotspots inside the row's bounding box and collect `get_birds` of
    them; then a retry pass over the rows whose listing request failed. The
    listing service is an oracle: `resolve(url, q)` is the answer to the q-th
    listing request of the run, `None` where `get_hotspots` raised. */
module Pipeline {
  import opened PyStr
  import opened Sightings
  import opened HotspotQuery
  import opened BirdFetcher

  /** One row of the coordinate file, in its column order: north latitude y2,
      west longitude x1, south latitude y1, east longitude x2, each given as
      the text `str()` makes of it. */
  datatype Row = Row(y2: string, x1: string, y1: string, x2: string)

  type Resolve = (string, nat) -> Option<seq<Hotspot>>

  /** The listing request for a row: `get_hotspots(x1, y1, x2, y2)`. */
  function RowUrl(row: Row): string
  {
    HotspotsUrl(row.x1, row.y1, row.x2, row.y2)
  }

  /** The file's columns, in the order y2, x1, y1, x2, land in the
      parameters of their own axis and bound: maxY is y2, maxX is x2, minY is
      y1 and minX is x1. */
  lemma RowQueryParams(row: Row)
    requires NoAmpersand(row.y2) && NoAmpersand(row.x1) && NoAmpersand(row.y1) && NoAmpersand(row.x2)
    ensures Param(RowUrl(row), "maxY") == Some(PadCoord(row.y2))
    ensures Param(RowUrl(row), "maxX") == Some(PadCoord(row.x2))
    ensures Param(RowUrl(row), "minY") == Some(PadCoord(row.y1))
    ensures Param(RowUrl(row), "minX") == Some(PadCoord(row.x1))
  {
    HotspotsUrlParams(row.x1, row.y1, row.x2, row.y2);
  }

  // ---------------------------------------------------------------------------
  // Specification
  // ---------------------------------------------------------------------------

  /** State after the first pass over some rows: the collected observations,
      the rows whose listing request failed and the number of hotspot pages
      requested so far; or the index of the row whose `get_birds` raised. */
  datatype RowsPass = RowsPassed(out: seq<Observation>, missed: seq<Row>, fetched: nat) | RowsRaisedAt(index: nat)

  /** The first `count` iterations of the first loop of `main` over `rows`:
      row i is listing request `q + i`, and the hotspot pages are requested
      from page request number `f` on. */
  function RowsPassUpTo(rows: seq<Row>, count: nat, resolve: Resolve, fetch: Fetch, q: nat, f: nat): (p: RowsPass)
    requires count <= |rows|
    ensures p.RowsRaisedAt? ==> p.index < count
    ensures p.RowsPassed? ==> |p.missed| <= count
  {
    if count == 0 then RowsPassed([], [], f)
    else
      var n := count - 1;
      match RowsPassUpTo(rows, n, resolve, fetch, q, f)
      case RowsRaisedAt(i) => RowsRaisedAt(i)
      case RowsPassed(out, missed, fetched) =>
        match resolve(RowUrl(rows[n]), q + n)
        case None => RowsPassed(out, missed + [rows[n]], fetched)
        case Some(hs) =>
          match BirdsOf(hs, fetch, fetched)
          case Err(_) => RowsRaisedAt(n)
          case Ok(birds) => RowsPassed(out + birds, missed, fetched + |RequestLog(hs, fetch, fetched)|)
  }

  /** The whole first loop of `main`. */
  function RowsPassOf(rows: seq<Row>, resolve: Resolve, fetch: Fetch): (p: RowsPass)
    ensures p.RowsRaisedAt? ==> p.index < |rows|
    ensures p.RowsPassed? ==> |p.missed| <= |rows|
  {
    RowsPassUpTo(rows, |rows|, resolve, fetch, 0, 0)
  }

  /** Among `count` retries of the listing request for `target`, retry j being
      listing request `q + j`, the first that succeeds. */
  function FirstResolved(target: Row, count: nat, resolve: Resolve, q: nat): (r: Option<nat>)
    ensures r.Some? ==> r.value < count
  {
    if count == 0 then None
    else
      match FirstResolved(target, count - 1, resolve, q)
      case Some(j) => Some(j)
      case None => if resolve(RowUrl(target), q + count - 1).Some? then Some(count - 1) else None
  }

  /** Whether some retry of the listing request for `missed[0]`, one per
      missed row from listing request `q` on, succeeds. */
  predicate RetryResolves(missed: seq<Row>, resolve: Resolve, q: nat)
  {
    missed != [] && FirstResolved(missed[0], |missed|, resolve, q).Some?
  }

  /** The rows whose listing the retry loop of `main` requests: `missed[0]`
      up to and including its first successful retry, or once per missed row
      when none succeeds. */
  function RetryListingLog(missed: seq<Row>, resolve: Resolve, q: nat): seq<Row>
  {
    if missed == [] then []
    else
      match FirstResolved(missed[0], |missed|, resolve, q)
      case Some(j) => Repeat(missed[0], j + 1)
      case None => Repeat(missed[0], |missed|)
  }

  /** What `main` leaves in `bird_data_rows` before writing it, or the
      exception it raises. The retry pass always re-requests `missed[0]`; the
      first of those requests that succeeds calls `get_birds` without its
      `year` argument, which raises `TypeError`. */
  function MainOf(rows: seq<Row>, resolve: Resolve, fetch: Fetch): (r: Result<seq<Observation>>)
    ensures r.Ok? ==> RowsPassOf(rows, resolve, fetch).RowsPassed? &&
                      r.value == RowsPassOf(rows, resolve, fetch).out
    ensures r == Err(TypeError) ==> RowsPassOf(rows, resolve, fetch).RowsPassed? &&
                                    RowsPassOf(rows, resolve, fetch).missed != []
  {
    match RowsPassOf(rows, resolve, fetch)
    case RowsRaisedAt(_) => Err(ValueError)
    case RowsPassed(out, missed, _) =>
      if RetryResolves(missed, resolve, |rows|) then Err(TypeError) else Ok(out)
  }

  /** The rows whose listing `main` requests, in order. */
  function ListingLog(rows: seq<Row>, resolve: Resolve, fetch: Fetch): seq<Row>
  {
    match RowsPassOf(rows, resolve, fetch)
    case RowsRaisedAt(i) => rows[..i + 1]
    case RowsPassed(_, missed, _) => rows + RetryListingLog(missed, resolve, |rows|)
  }

  // ---------------------------------------------------------------------------
  // Properties
  // ---------------------------------------------------------------------------

  /** FirstResolved finds the earliest retry that succeeds, and finds none
      exactly when every retry fails. */
  lemma {:induction false} FirstResolvedExact(target: Row, count: nat, resolve: Resolve, q: nat)
    ensures FirstResolved(target, count, resolve, q).None? <==>
            forall a :: q <= a < q + count ==> resolve(RowUrl(target), a).None?
    ensures FirstResolved(target, count, resolve, q).Some? ==>
            var j := FirstResolved(target, count, resolve, q).value;
            resolve(RowUrl(target), q + j).Some? &&
            forall a :: q <= a < q + j ==> resolve(RowUrl(target), a).None?
  {
    if count > 0 {
      FirstResolvedExact(target, count - 1, resolve, q);
    }
  }

  /** The retry pass adds no observations: `main` returns normally exactly
      when its first pass does and every retried listing request fails, and
      then returns what the first pass collected. Any retry that succeeds
      raises `TypeError`. */
  lemma MainRetryAddsNothing(rows: seq<Row>, resolve: Resolve, fetch: Fetch)
    ensures MainOf(rows, resolve, fetch).Ok? <==>
            RowsPassOf(rows, resolve, fetch).RowsPassed? &&
            var m := RowsPassOf(rows, resolve, fetch).missed;
            (m == [] || forall a :: |rows| <= a < |rows| + |m| ==> resolve(RowUrl(m[0]), a).None?)
    ensures MainOf(rows, resolve, fetch).Ok? ==>
            MainOf(rows, resolve, fetch).value == RowsPassOf(rows, resolve, fetch).out
    ensures MainOf(rows, resolve, fetch).Err? && RowsPassOf(rows, resolve, fetch).RowsPassed? ==>
            MainOf(rows, resolve, fetch).error == TypeError
  {
    var p := RowsPassOf(rows, resolve, fetch);
    if p.RowsPassed? && p.missed != [] {
      FirstResolvedExact(p.missed[0], |p.missed|, resolve, |rows|);
    }
  }

  /** The retry loop of `main` mirrors that of `get_birds`: when `main`
      returns, every row was requested once, then the first missed row once
      per missed row, and no other missed row again. */
  lemma MainRetryPattern(rows: seq<Row>, resolve: Resolve, fetch: Fetch)
    requires MainOf(rows, resolve, fetch).Ok?
    ensures RowsPassOf(rows, resolve, fetch).RowsPassed?
    ensures var m := RowsPassOf(rows, resolve, fetch).missed; var log := ListingLog(rows, resolve, fetch);
      |log| == |rows| + |m| && log[..|rows|] == rows &&
      forall a :: |rows| <= a < |log| ==> log[a] == m[0]
  {
    var m := RowsPassOf(rows, resolve, fetch).missed;
    var log := ListingLog(rows, resolve, fetch);
    if m == [] {
      assert log == rows + [];
    }
  }

  /** The rows among the first `count` of `rows` whose listing request,
      row i being request `q + i`, fails; in row order. */
  function FailedRows(rows: seq<Row>, count: nat, resolve: Resolve, q: nat): (r: seq<Row>)
    requires count <= |rows|
    ensures |r| <= count
  {
    if count == 0 then []
    else
      var n := count - 1;
      FailedRows(rows, n, resolve, q) + (if resolve(RowUrl(rows[n]), q + n).None? then [rows[n]] else [])
  }

  /** A pass over rows that completes queues exactly the rows whose listing
      request failed, in row order; a row whose listing arrives is never
      queued. */
  lemma {:induction false} RowsMissedExact(rows: seq<Row>, count: nat, resolve: Resolve, fetch: Fetch, q: nat, f: nat)
    requires count <= |rows| && RowsPassUpTo(rows, count, resolve, fetch, q, f).RowsPassed?
    ensures RowsPassUpTo(rows, count, resolve, fetch, q, f).missed == FailedRows(rows, count, resolve, q)
  {
    if count > 0 {
      RowsStepMissed(rows, count, resolve, fetch, q, f);
      RowsMissedExact(rows, count - 1, resolve, fetch, q, f);
    }
  }

  /** One row of a completed pass adds itself to the queue exactly when its
      listing request fails. */
  lemma RowsStepMissed(rows: seq<Row>, count: nat, resolve: Resolve, fetch: Fetch, q: nat, f: nat)
    requires 0 < count <= |rows| && RowsPassUpTo(rows, count, resolve, fetch, q, f).RowsPassed?
    ensures RowsPassUpTo(rows, count - 1, resolve, fetch, q, f).RowsPassed?
    ensures RowsPassUpTo(rows, count, resolve, fetch, q, f).missed ==
            RowsPassUpTo(rows, count - 1, resolve, fetch, q, f).missed +
            (if resolve(RowUrl(rows[count - 1]), q + (count - 1)).None? then [rows[count - 1]] else [])
  {
  }

  // ---------------------------------------------------------------------------
  // The code
  // ---------------------------------------------------------------------------

  lemma {:induction false} RowsRaisedStays(rows: seq<Row>, count: nat, resolve: Resolve, fetch: Fetch, q: nat, f: nat, j: nat)
    requires j <= count <= |rows| && RowsPassUpTo(rows, j, resolve, fetch, q, f).RowsRaisedAt?
    ensures RowsPassUpTo(rows, count, resolve, fetch, q, f) == RowsPassUpTo(rows, j, resolve, fetch, q, f)
    decreases count - j
  {
    if j < count {
      RowsRaisedStays(rows, count, resolve, fetch, q, f, j + 1);
    }
  }

  lemma {:induction false} FirstResolvedStays(target: Row, count: nat, resolve: Resolve, q: nat, j: nat)
    requires j <= count && FirstResolved(target, j, resolve, q).Some?
    ensures FirstResolved(target, count, resolve, q) == FirstResolved(target, j, resolve, q)
    decreases count - j
  {
    if j < count {
      FirstResolvedStays(target, count, resolve, q, j + 1);
    }
  }

  /** The first loop of `main`, over the rows of the coordinate file, with
      listing requests numbered from `q` and hotspot-page requests from `f`.
      `listings` lists the rows whose listing was requested. */
  method RowsLoop(rows: seq<Row>, q: nat, f: nat, year: int, resolve: Resolve, fetch: Fetch)
    returns (p: RowsPass, listings: seq<Row>)
    ensures p == RowsPassUpTo(rows, |rows|, resolve, fetch, q, f)
    ensures p.RowsPassed? ==> listings == rows
    ensures p.RowsRaisedAt? ==> listings == rows[..p.index + 1]
  {
    var birdDataRows: seq<Observation> := [];
    var missedCoords: seq<Row> := [];
    var fetched: nat := f;
    listings := [];
    for i := 0 to |rows|
      invariant RowsPassUpTo(rows, i, resolve, fetch, q, f) == RowsPassed(birdDataRows, missedCoords, fetched)
      invariant listings == rows[..i]
    {
      TakeSnoc(rows, i);
      listings := listings + [rows[i]];
      var next := VisitRow(rows, i, q, f, year, resolve, fetch, birdDataRows, missedCoords, fetched);
      if next.RowsRaisedAt? {
        RowsRaisedStays(rows, |rows|, resolve, fetch, q, f, i + 1);
        return next, listings;
      }
      birdDataRows, missedCoords, fetched := next.out, next.missed, next.fetched;
    }
    p := RowsPassed(birdDataRows, missedCoords, fetched);
  }

  /** The body of the first loop of `main` for row number i: request the
      row's hotspots; on failure queue the row, otherwise extend the
      observations with `get_birds(hotspots, year)`. */
  method VisitRow(rows: seq<Row>, i: nat, q: nat, f: nat, year: int, resolve: Resolve, fetch: Fetch,
                  birdDataRows: seq<Observation>, missedCoords: seq<Row>, fetched: nat)
    returns (next: RowsPass)
    requires i < |rows| && RowsPassUpTo(rows, i, resolve, fetch, q, f) == RowsPassed(birdDataRows, missedCoords, fetched)
    ensures next == RowsPassUpTo(rows, i + 1, resolve, fetch, q, f)
  {
    match resolve(RowUrl(rows[i]), q + i)
    case None =>
      next := RowsPassed(birdDataRows, missedCoords + [rows[i]], fetched);
    case Some(hotspots) =>
      var birdData, requested, _ := GetBirds(hotspots, year, fetch, fetched);
      if birdData.Err? {
        return RowsRaisedAt(i);
      }
      next := RowsPassed(birdDataRows + birdData.value, missedCoords, fetched + |requested|);
  }

  /** `main(coord_file, year)` with the file already read into `rows`:
      `listings` lists the rows whose listing was requested. The CSV output
      is `res.value`. */
  method RunMain(rows: seq<Row>, year: int, resolve: Resolve, fetch: Fetch)
    returns (res: Result<seq<Observation>>, listings: seq<Row>)
    ensures res == MainOf(rows, resolve, fetch)
    ensures listings == ListingLog(rows, resolve, fetch)
  {
    var p;
    p, listings := RowsLoop(rows, 0, 0, year, resolve, fetch);
    if p.RowsRaisedAt? {
      return Err(ValueError), listings;
    }
    var typeError, retried := RetryListings(p.missed, resolve, |rows|);
    listings := listings + retried;
    if typeError {
      return Err(TypeError), listings;
    }
    res := Ok(p.out);
  }

  /** The `while missed_coords` loop of `main`, as written: it re-requests
      the listing of `missed_coords[0]` once per missed row, as listing
      requests `q`, `q + 1`, ...; the first request that succeeds calls
      `get_birds(hotspots)` without its `year` argument, which raises
      `TypeError`. `requested` lists the rows whose listing is requested. */
  method RetryListings(missedCoords: seq<Row>, resolve: Resolve, q: nat)
    returns (typeError: bool, requested: seq<Row>)
    ensures typeError == RetryResolves(missedCoords, resolve, q)
    ensures requested == RetryListingLog(missedCoords, resolve, q)
  {
    typeError, requested := false, [];
    if missedCoords == [] {
      return;
    }
    var row := missedCoords[0];
    var queue := missedCoords;
    var tries: nat := 0;
    while queue != []
      invariant tries + |queue| == |missedCoords| && (queue != [] ==> queue[0] == row)
      invariant requested == Repeat(row, tries)
      invariant FirstResolved(row, tries, resolve, q).None?
    {
      requested := requested + [queue[0]];
      match resolve(RowUrl(queue[0]), q + tries)
      case None =>
        queue := queue[..|queue| - 1];
        tries := tries + 1;
      case Some(_) =>
        // `get_birds(hotspots)` lacks its `year` argument.
        FirstResolvedStays(row, |missedCoords|, resolve, q, tries + 1);
        return true, requested;
    }
  }

  // ---------------------------------------------------------------------------
  // The retry pass of `main` as evidently intended: each missed row once,
  // calling `get_birds(hotspots, year)`
  // ---------------------------------------------------------------------------

  /** One row whose listing request fails and then succeeds on retry makes
      `main` as written raise `TypeError`, whatever the hotspots hold. */
  lemma RetryResolvedRowRaises(row: Row, resolve: Resolve, fetch: Fetch)
    requires resolve(RowUrl(row), 0).None? && resolve(RowUrl(row), 1).Some?
    ensures MainOf([row], resolve, fetch) == Err(TypeError)
  {
    assert RowsPassUpTo([row], 1, resolve, fetch, 0, 0) == RowsPassed([], [row], 0);
    assert FirstResolved(row, 1, resolve, 1) == Some(0);
  }

  /** `main` with a retry loop that pops each missed row from the front and
      calls `get_birds(hotspots, year)`: the missed rows go once more, in
      order, through the body of the first loop, as listing requests
      `|rows|`, `|rows| + 1`, ...; a row that fails again is dropped. */
  function MainFixedOf(rows: seq<Row>, resolve: Resolve, fetch: Fetch): Result<seq<Observation>>
  {
    match RowsPassOf(rows, resolve, fetch)
    case RowsRaisedAt(_) => Err(ValueError)
    case RowsPassed(out, missed, fetched) =>
      match RowsPassUpTo(missed, |missed|, resolve, fetch, |rows|, fetched)
      case RowsRaisedAt(_) => Err(ValueError)
      case RowsPassed(more, _, _) => Ok(out + more)
  }

  /** The rows whose listing the corrected `main` requests, in order. */
  function ListingLogFixed(rows: seq<Row>, resolve: Resolve, fetch: Fetch): seq<Row>
  {
    match RowsPassOf(rows, resolve, fetch)
    case RowsRaisedAt(i) => rows[..i + 1]
    case RowsPassed(_, missed, fetched) =>
      match RowsPassUpTo(missed, |missed|, resolve, fetch, |rows|, fetched)
      case RowsRaisedAt(j) => rows + missed[..j + 1]
      case RowsPassed(_, _, _) => rows + missed
  }

  /** The corrected `main` never raises `TypeError`; when it returns, every
      row was requested once and then every missed row once more, in the
      order it was missed; it keeps the observations of the first pass,
      followed by those of the retried rows, and gives up exactly on the
      missed rows whose retry fails too. */
  lemma MainFixedRetriesEachOnce(rows: seq<Row>, resolve: Resolve, fetch: Fetch)
    ensures MainFixedOf(rows, resolve, fetch).Err? ==> MainFixedOf(rows, resolve, fetch).error == ValueError
    ensures MainFixedOf(rows, resolve, fetch).Ok? ==>
      var first := RowsPassOf(rows, resolve, fetch);
      var m := first.missed;
      var retry := RowsPassUpTo(m, |m|, resolve, fetch, |rows|, first.fetched);
      first.missed == FailedRows(rows, |rows|, resolve, 0) &&
      ListingLogFixed(rows, resolve, fetch) == rows + m &&
      MainFixedOf(rows, resolve, fetch).value == first.out + retry.out &&
      retry.missed == FailedRows(m, |m|, resolve, |rows|)
  {
    var first := RowsPassOf(rows, resolve, fetch);
    if first.RowsPassed? {
      RowsMissedExact(rows, |rows|, resolve, fetch, 0, 0);
      var m := first.missed;
      if RowsPassUpTo(m, |m|, resolve, fetch, |rows|, first.fetched).RowsPassed? {
        RowsMissedExact(m, |m|, resolve, fetch, |rows|, first.fetched);
      }
    }
  }

  /** `main` with the corrected retry loop. */
  method RunMainFixed(rows: seq<Row>, year: int, resolve: Resolve, fetch: Fetch)
    returns (res: Result<seq<Observation>>, listings: seq<Row>)
    ensures res == MainFixedOf(rows, resolve, fetch)
    ensures listings == ListingLogFixed(rows, resolve, fetch)
  {
    var p;
    p, listings := RowsLoop(rows, 0, 0, year, resolve, fetch);
    if p.RowsRaisedAt? {
      return Err(ValueError), listings;
    }
    var r, retried := RowsLoop(p.missed, |rows|, p.fetched, year, resolve, fetch);
    listings := listings + retried;
    if r.RowsRaisedAt? {
      return Err(ValueError), listings;
    }
    res := Ok(p.out + r.out);
  }
}
