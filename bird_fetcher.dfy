/** `get_birds`: a first pass that fetches every hotspot page once and queues
    the hotspots whose request failed, then a retry pass that drains that
    queue. The network is an oracle: `fetch(url, k)` is the response to the
    k-th hotspot-page request of the run. */
module BirdFetcher {
  import opened PyStr
  import opened Sightings

  /** A hotspot as the listing service returns it: id `l` and display name `n`. */
  datatype Hotspot = Hotspot(l: string, n: string)

  /** The outcome of one page request: `Unreachable` when the request or the
      HTML parse raised inside the `try`, otherwise the page's records. */
  datatype Response = Unreachable | Page(records: seq<Record>)

  type Fetch = (string, nat) -> Response

  const PAGE_ENDPOINT := "https://ebird.org/hotspot/"

  function PageUrl(h: Hotspot): string
  {
    PAGE_ENDPOINT + h.l
  }

  /** Two hotspots share a page URL exactly when they share an id. */
  lemma PageUrlDistinct(a: Hotspot, b: Hotspot)
    ensures PageUrl(a) == PageUrl(b) <==> a.l == b.l
  {
    if PageUrl(a) == PageUrl(b) {
      assert a.l == PageUrl(a)[|PAGE_ENDPOINT|..];
      assert b.l == PageUrl(b)[|PAGE_ENDPOINT|..];
    }
  }

  /** The response to requesting hotspot `h` as request number `k`. */
  function Attempt(h: Hotspot, fetch: Fetch, k: nat): Response
  {
    fetch(PageUrl(h), k)
  }

  /** What a retry request of `h`, as request `at`, adds to the result:
      nothing when the page is unreachable, otherwise the page's
      observations, or the `ValueError` its records raise. */
  function Visit(h: Hotspot, fetch: Fetch, at: nat): Result<seq<Observation>>
  {
    match Attempt(h, fetch, at)
    case Unreachable => Ok([])
    case Page(recs) => Extract(h.n, recs)
  }

  // ---------------------------------------------------------------------------
  // Specification of the two passes
  // ---------------------------------------------------------------------------

  /** State after the first pass over some hotspots: the observations and the
      missed queue so far, or the index of the hotspot whose page raised. */
  datatype FirstPass = Passed(ret: seq<Observation>, missed: seq<Hotspot>) | RaisedAt(index: nat)

  /** The first `count` iterations of the first pass over `hs`: hotspot
      `hs[i]` is request number `k + i`. */
  function FirstPassUpTo(hs: seq<Hotspot>, count: nat, fetch: Fetch, k: nat): (p: FirstPass)
    requires count <= |hs|
    ensures p.RaisedAt? ==> p.index < count
    ensures p.Passed? ==> |p.missed| <= count
  {
    if count == 0 then Passed([], [])
    else
      var n := count - 1;
      match FirstPassUpTo(hs, n, fetch, k)
      case RaisedAt(i) => RaisedAt(i)
      case Passed(ret, missed) =>
        match Attempt(hs[n], fetch, k + n)
        case Unreachable => Passed(ret, missed + [hs[n]])
        case Page(recs) =>
          match Extract(hs[n].n, recs)
          case Err(_) => RaisedAt(n)
          case Ok(obs) => Passed(ret + obs, missed)
  }

  /** The whole first pass over `hs`. */
  function FirstPassOf(hs: seq<Hotspot>, fetch: Fetch, k: nat): (p: FirstPass)
    ensures p.RaisedAt? ==> p.index < |hs|
    ensures p.Passed? ==> |p.missed| <= |hs|
  {
    FirstPassUpTo(hs, |hs|, fetch, k)
  }

  /** State after some iterations of the retry loop. */
  datatype RetryPass = Retried(ret: seq<Observation>) | RetryRaisedAt(at: nat)

  /** `count` iterations of the retry loop whose head is `target`; iteration
      j is request number `k + j`. */
  function RetryPassOf(target: Hotspot, count: nat, fetch: Fetch, k: nat): (p: RetryPass)
    ensures p.RetryRaisedAt? ==> p.at < count
  {
    if count == 0 then Retried([])
    else
      match RetryPassOf(target, count - 1, fetch, k)
      case RetryRaisedAt(j) => RetryRaisedAt(j)
      case Retried(ret) =>
        match Visit(target, fetch, k + count - 1)
        case Err(_) => RetryRaisedAt(count - 1)
        case Ok(obs) => Retried(ret + obs)
  }

  /** The whole retry pass over the queue `missed`: `|missed|` iterations,
      all of them on `missed[0]`. */
  function RetryOf(missed: seq<Hotspot>, fetch: Fetch, k: nat): (p: RetryPass)
    ensures p.RetryRaisedAt? ==> p.at < |missed|
  {
    if missed == [] then Retried([]) else RetryPassOf(missed[0], |missed|, fetch, k)
  }

  /** The hotspots the retry pass over `missed` requests, in order. */
  function RetryLog(missed: seq<Hotspot>, fetch: Fetch, k: nat): seq<Hotspot>
  {
    match RetryOf(missed, fetch, k)
    case RetryRaisedAt(j) => Repeat(missed[0], j + 1)
    case Retried(_) => if missed == [] then [] else Repeat(missed[0], |missed|)
  }

  /** What `get_birds(hs, year)` returns, or the exception it raises. */
  function BirdsOf(hs: seq<Hotspot>, fetch: Fetch, k: nat): (r: Result<seq<Observation>>)
    ensures r.Err? ==> r.error == ValueError
    ensures r.Ok? ==> FirstPassOf(hs, fetch, k).Passed? &&
                      var ret := FirstPassOf(hs, fetch, k).ret;
                      |ret| <= |r.value| && r.value[..|ret|] == ret
  {
    match FirstPassOf(hs, fetch, k)
    case RaisedAt(_) => Err(ValueError)
    case Passed(ret, missed) =>
      match RetryOf(missed, fetch, k + |hs|)
      case RetryRaisedAt(_) => Err(ValueError)
      case Retried(more) => Ok(ret + more)
  }

  /** The hotspots `get_birds(hs, year)` requests, in order. */
  function RequestLog(hs: seq<Hotspot>, fetch: Fetch, k: nat): seq<Hotspot>
  {
    match FirstPassOf(hs, fetch, k)
    case RaisedAt(i) => hs[..i + 1]
    case Passed(_, missed) => hs + RetryLog(missed, fetch, k + |hs|)
  }

  /** Once the first pass has raised, nothing after it runs. */
  lemma {:induction false} FirstPassRaisedStays(hs: seq<Hotspot>, count: nat, fetch: Fetch, k: nat, j: nat)
    requires j <= count <= |hs| && FirstPassUpTo(hs, j, fetch, k).RaisedAt?
    ensures FirstPassUpTo(hs, count, fetch, k) == FirstPassUpTo(hs, j, fetch, k)
    decreases count - j
  {
    if j < count {
      FirstPassRaisedStays(hs, count, fetch, k, j + 1);
    }
  }

  /** One more iteration of the retry loop, after `done` of them. */
  lemma RetryPassNext(target: Hotspot, done: nat, fetch: Fetch, k: nat)
    ensures RetryPassOf(target, done + 1, fetch, k) ==
      match RetryPassOf(target, done, fetch, k)
      case RetryRaisedAt(j) => RetryRaisedAt(j)
      case Retried(ret) =>
        match Visit(target, fetch, k + done)
        case Err(_) => RetryRaisedAt(done)
        case Ok(obs) => Retried(ret + obs)
  {
  }

  /** One retry request of `target` after `done` of them that all returned. */
  lemma RetryStepAfter(target: Hotspot, done: nat, more: seq<Observation>, fetch: Fetch, k: nat)
    requires RetryPassOf(target, done, fetch, k) == Retried(more)
    ensures Visit(target, fetch, k + done).Err? ==> RetryPassOf(target, done + 1, fetch, k) == RetryRaisedAt(done)
    ensures Visit(target, fetch, k + done).Ok? ==>
            RetryPassOf(target, done + 1, fetch, k) == Retried(more + Visit(target, fetch, k + done).value)
  {
    RetryPassNext(target, done, fetch, k);
  }

  /** Likewise for the retry loop. */
  lemma {:induction false} RetryRaisedStays(target: Hotspot, count: nat, fetch: Fetch, k: nat, j: nat)
    requires j <= count && RetryPassOf(target, j, fetch, k).RetryRaisedAt?
    ensures RetryPassOf(target, count, fetch, k) == RetryPassOf(target, j, fetch, k)
    decreases count - j
  {
    if j < count {
      RetryRaisedStays(target, count, fetch, k, j + 1);
    }
  }

  // ---------------------------------------------------------------------------
  // Properties of the two passes
  // ---------------------------------------------------------------------------

  /** The positions among the first `count` of `hs` whose first-pass
      request fails, in increasing order. */
  function FailedIndices(hs: seq<Hotspot>, count: nat, fetch: Fetch, k: nat): (idx: seq<nat>)
    requires count <= |hs|
    ensures forall j :: 0 <= j < |idx| ==> idx[j] < count
  {
    if count == 0 then []
    else
      var n := count - 1;
      FailedIndices(hs, n, fetch, k) + (if Attempt(hs[n], fetch, k + n).Unreachable? then [n] else [])
  }

  /** FailedIndices lists, in increasing order, exactly the positions whose
      request failed. */
  lemma {:induction false} FailedIndicesExact(hs: seq<Hotspot>, count: nat, fetch: Fetch, k: nat)
    requires count <= |hs|
    ensures var idx := FailedIndices(hs, count, fetch, k);
      (forall j1, j2 :: 0 <= j1 < j2 < |idx| ==> idx[j1] < idx[j2]) &&
      (forall i :: 0 <= i < count ==> (i in idx <==> Attempt(hs[i], fetch, k + i).Unreachable?))
  {
    if count > 0 {
      FailedIndicesExact(hs, count - 1, fetch, k);
    }
  }

  /** After the first `count` hotspots, `missed` holds exactly those whose
      request failed, in input order; a hotspot whose page was fetched never
      enters it. */
  lemma {:induction false} MissedInOrder(hs: seq<Hotspot>, count: nat, fetch: Fetch, k: nat)
    requires count <= |hs| && FirstPassUpTo(hs, count, fetch, k).Passed?
    ensures var m := FirstPassUpTo(hs, count, fetch, k).missed; var idx := FailedIndices(hs, count, fetch, k);
      |m| == |idx| && forall j :: 0 <= j < |m| ==> m[j] == hs[idx[j]]
  {
    if count > 0 {
      MissedInOrder(hs, count - 1, fetch, k);
    }
  }

  /** When `get_birds` returns, it has requested every hotspot once and then
      the first missed hotspot once per missed hotspot: with m missed
      hotspots, `missed[0]` is retried m times and no other missed hotspot
      is retried at all. One `sleep` follows each of these requests. */
  lemma RetryAttemptPattern(hs: seq<Hotspot>, fetch: Fetch, k: nat)
    requires BirdsOf(hs, fetch, k).Ok?
    ensures FirstPassOf(hs, fetch, k).Passed?
    ensures var m := FirstPassOf(hs, fetch, k).missed; var log := RequestLog(hs, fetch, k);
      |log| == |hs| + |m| && log[..|hs|] == hs &&
      (m != [] ==> Count(log[|hs|..], m[0]) == |m|) &&
      (forall j :: 0 <= j < |m| && m[j] != m[0] ==> Count(log[|hs|..], m[j]) == 0)
  {
    var m := FirstPassOf(hs, fetch, k).missed;
    var log := RequestLog(hs, fetch, k);
    if m != [] {
      assert log[|hs|..] == Repeat(m[0], |m|);
      CountRepeat(m[0], m[0], |m|);
      forall j | 0 <= j < |m| && m[j] != m[0]
        ensures Count(log[|hs|..], m[j]) == 0
      {
        CountRepeat(m[0], m[j], |m|);
      }
    }
  }

  /** `ret` and `missed` are only ever appended to: the state after the first
      j hotspots is a prefix of the state after `count` of them. With the
      step of FirstPassUpTo, this puts first-pass observations in hotspot
      order and, within a hotspot, in record order. */
  lemma {:induction false} FirstPassPrefix(hs: seq<Hotspot>, count: nat, fetch: Fetch, k: nat, j: nat)
    requires j <= count <= |hs| && FirstPassUpTo(hs, count, fetch, k).Passed?
    ensures FirstPassUpTo(hs, j, fetch, k).Passed?
    ensures FirstPassUpTo(hs, j, fetch, k).ret <= FirstPassUpTo(hs, count, fetch, k).ret
    ensures FirstPassUpTo(hs, j, fetch, k).missed <= FirstPassUpTo(hs, count, fetch, k).missed
    decreases count - j
  {
    if j < count {
      FirstPassPrefix(hs, count, fetch, k, j + 1);
      FirstPassGrows(hs, j + 1, fetch, k);
    }
  }

  /** One hotspot of a completed first pass only appends to `ret` and `missed`. */
  lemma FirstPassGrows(hs: seq<Hotspot>, count: nat, fetch: Fetch, k: nat)
    requires 0 < count <= |hs| && FirstPassUpTo(hs, count, fetch, k).Passed?
    ensures FirstPassUpTo(hs, count - 1, fetch, k).Passed?
    ensures FirstPassUpTo(hs, count - 1, fetch, k).ret <= FirstPassUpTo(hs, count, fetch, k).ret
    ensures FirstPassUpTo(hs, count - 1, fetch, k).missed <= FirstPassUpTo(hs, count, fetch, k).missed
  {
  }

  /** A fetched page of hotspot `h`, requested as request `at`, has a record
      of `bird` dated 2010 or later. */
  predicate SightedAt(h: Hotspot, fetch: Fetch, at: nat, bird: string)
  {
    var resp := Attempt(h, fetch, at);
    resp.Page? && exists j :: 0 <= j < |resp.records| && Yields(resp.records[j], bird)
  }

  lemma ObservationFromPage(h: Hotspot, fetch: Fetch, at: nat, o: Observation)
    requires Attempt(h, fetch, at).Page?
    requires Extract(h.n, Attempt(h, fetch, at).records).Ok?
    requires o in Extract(h.n, Attempt(h, fetch, at).records).value
    ensures o.hotspotName == h.n && SightedAt(h, fetch, at, o.birdName)
  {
    ExtractContributes(h.n, Attempt(h, fetch, at).records, o.birdName);
  }

  lemma {:induction false} FirstPassProvenance(hs: seq<Hotspot>, count: nat, fetch: Fetch, k: nat, o: Observation)
    requires count <= |hs| && FirstPassUpTo(hs, count, fetch, k).Passed?
    requires o in FirstPassUpTo(hs, count, fetch, k).ret
    ensures exists i :: 0 <= i < count && o.hotspotName == hs[i].n && SightedAt(hs[i], fetch, k + i, o.birdName)
  {
    var n := count - 1;
    if o in FirstPassUpTo(hs, n, fetch, k).ret {
      FirstPassProvenance(hs, n, fetch, k, o);
    } else {
      ObservationFromPage(hs[n], fetch, k + n, o);
    }
  }

  lemma {:induction false} RetryProvenance(target: Hotspot, count: nat, fetch: Fetch, k: nat, o: Observation)
    requires RetryPassOf(target, count, fetch, k).Retried? && o in RetryPassOf(target, count, fetch, k).ret
    ensures o.hotspotName == target.n
    ensures exists a :: k <= a < k + count && SightedAt(target, fetch, a, o.birdName)
  {
    if o in RetryPassOf(target, count - 1, fetch, k).ret {
      RetryProvenance(target, count - 1, fetch, k, o);
    } else {
      ObservationFromPage(target, fetch, k + count - 1, o);
    }
  }

  /** Every observation `get_birds` returns comes from one of its requests:
      the a-th request fetched the page of a hotspot with that name, and the
      page has a record of that bird dated 2010 or later. */
  lemma Provenance(hs: seq<Hotspot>, fetch: Fetch, k: nat, o: Observation)
    requires BirdsOf(hs, fetch, k).Ok? && o in BirdsOf(hs, fetch, k).value
    ensures var log := RequestLog(hs, fetch, k);
      exists a :: 0 <= a < |log| && o.hotspotName == log[a].n && SightedAt(log[a], fetch, k + a, o.birdName)
  {
    var p := FirstPassOf(hs, fetch, k);
    var log := RequestLog(hs, fetch, k);
    if o in p.ret {
      FirstPassProvenance(hs, |hs|, fetch, k, o);
      var i :| 0 <= i < |hs| && o.hotspotName == hs[i].n && SightedAt(hs[i], fetch, k + i, o.birdName);
      assert log[i] == hs[i];
    } else {
      var m := p.missed;
      RetryProvenance(m[0], |m|, fetch, k + |hs|, o);
      var a :| k + |hs| <= a < k + |hs| + |m| && SightedAt(m[0], fetch, a, o.birdName);
      assert log[a - k] == m[0];
    }
  }

  // ---------------------------------------------------------------------------
  // The code
  // ---------------------------------------------------------------------------

  /** The `for hotspot in hotspots` loop of `get_birds`: `requested` lists the
      pages requested and `delays` counts the `sleep(.5)` calls. */
  method FirstPassLoop(hotspots: seq<Hotspot>, fetch: Fetch, start: nat)
    returns (p: FirstPass, requested: seq<Hotspot>, delays: nat)
    ensures p == FirstPassOf(hotspots, fetch, start)
    ensures p.Passed? ==> requested == hotspots && delays == |hotspots|
    ensures p.RaisedAt? ==> requested == hotspots[..p.index + 1] && delays == p.index
  {
    var missed: seq<Hotspot> := [];
    var ret: seq<Observation> := [];
    requested, delays := [], 0;
    for i := 0 to |hotspots|
      invariant FirstPassUpTo(hotspots, i, fetch, start) == Passed(ret, missed)
      invariant requested == hotspots[..i] && delays == i
    {
      var hotspot := hotspots[i];
      TakeSnoc(hotspots, i);
      requested := requested + [hotspot];
      match fetch(PageUrl(hotspot), start + i)
      case Unreachable =>
        missed := missed + [hotspot];
        delays := delays + 1;
      case Page(lis) =>
        var r := AppendKept(ret, hotspot.n, lis);
        if r.Err? {
          FirstPassRaisedStays(hotspots, |hotspots|, fetch, start, i + 1);
          return RaisedAt(i), requested, delays;
        }
        ret := r.value;
        delays := delays + 1;
    }
    p := Passed(ret, missed);
  }

  /** The `try` block of one retry iteration: request the page of `target`
      as request `at` and, when it arrives, append its observations to `out`. */
  method RetryOnce(out: seq<Observation>, target: Hotspot, fetch: Fetch, at: nat)
    returns (r: Result<seq<Observation>>)
    ensures r.Err? <==> Visit(target, fetch, at).Err?
    ensures r.Err? ==> r.error == ValueError
    ensures r.Ok? ==> r.value == out + Visit(target, fetch, at).value
  {
    match fetch(PageUrl(target), at)
    case Unreachable =>
      assert out + [] == out;
      r := Ok(out);
    case Page(lis) =>
      r := AppendKept(out, target.n, lis);
  }

  /** One iteration of the `while missed` loop after `done` of them, whose
      observations so far are `more`: the retry request of `target`. */
  method RetryStep(target: Hotspot, done: nat, ret: seq<Observation>, ghost more: seq<Observation>,
                   out: seq<Observation>, fetch: Fetch, start: nat)
    returns (r: Result<seq<Observation>>)
    requires RetryPassOf(target, done, fetch, start) == Retried(more) && out == ret + more
    ensures r.Err? <==> RetryPassOf(target, done + 1, fetch, start).RetryRaisedAt?
    ensures r.Err? ==> r.error == ValueError
    ensures r.Ok? ==> r.value == ret + RetryPassOf(target, done + 1, fetch, start).ret
  {
    RetryStepAfter(target, done, more, fetch, start);
    r := RetryOnce(out, target, fetch, start + done);
    if r.Ok? {
      AppendAssoc(ret, more, Visit(target, fetch, start + done).value);
    }
  }

  /** The `while missed` loop of `get_birds`, as written: it always requests
      `missed[0]` but removes the last element with `pop()`. */
  method RetryLoop(missed: seq<Hotspot>, ret: seq<Observation>, fetch: Fetch, start: nat)
    returns (res: Result<seq<Observation>>, requested: seq<Hotspot>, delays: nat)
    ensures match RetryOf(missed, fetch, start)
      case RetryRaisedAt(_) => res == Err(ValueError)
      case Retried(more) => res == Ok(ret + more)
    ensures requested == RetryLog(missed, fetch, start)
    ensures delays == if res.Ok? then |requested| else |requested| - 1
  {
    if missed == [] {
      assert ret + [] == ret;
      return Ok(ret), [], 0;
    }
    res, requested, delays := DrainMissed(missed, ret, fetch, start);
  }

  /** The body of the `while missed` loop on a queue that is not empty: one
      request of `missed[0]` per element, until the queue is drained or a
      page raises. */
  method DrainMissed(missed: seq<Hotspot>, ret: seq<Observation>, fetch: Fetch, start: nat)
    returns (res: Result<seq<Observation>>, requested: seq<Hotspot>, delays: nat)
    requires missed != []
    ensures match RetryPassOf(missed[0], |missed|, fetch, start)
      case RetryRaisedAt(j) => res == Err(ValueError) && requested == Repeat(missed[0], j + 1) && delays == j
      case Retried(more) => res == Ok(ret + more) && requested == Repeat(missed[0], |missed|) && delays == |missed|
  {
    var target := missed[0];
    var queue := missed;
    var out := ret;
    var done: nat := 0;
    ghost var more: seq<Observation> := [];
    requested, delays := [], 0;
    while queue != []
      invariant done + |queue| == |missed| && (queue != [] ==> queue[0] == target)
      invariant requested == Repeat(target, done) && delays == done
      invariant RetryPassOf(target, done, fetch, start) == Retried(more) && out == ret + more
    {
      requested := requested + [queue[0]];
      var r := RetryStep(target, done, ret, more, out, fetch, start);
      if r.Err? {
        RetryRaisedStays(target, |missed|, fetch, start, done + 1);
        return r, requested, delays;
      }
      out, more := r.value, RetryPassOf(target, done + 1, fetch, start).ret;
      queue := queue[..|queue| - 1];
      done, delays := done + 1, delays + 1;
    }
    res := Ok(out);
  }

  /** `get_birds(hotspots, year)`: the first pass, then the retry pass over
      the hotspots it missed. `requested` lists the hotspot pages requested
      and `delays` counts the `sleep(.5)` calls. The result does not depend
      on `year`, which is never read. */
  method GetBirds(hotspots: seq<Hotspot>, year: int, fetch: Fetch, start: nat)
    returns (res: Result<seq<Observation>>, requested: seq<Hotspot>, delays: nat)
    ensures res == BirdsOf(hotspots, fetch, start)
    ensures requested == RequestLog(hotspots, fetch, start)
    ensures delays == if res.Ok? then |requested| else |requested| - 1
  {
    var p, firstRequested, firstDelays := FirstPassLoop(hotspots, fetch, start);
    if p.RaisedAt? {
      return Err(ValueError), firstRequested, firstDelays;
    }
    var retryRequested, retryDelays;
    res, retryRequested, retryDelays := RetryLoop(p.missed, p.ret, fetch, start + |hotspots|);
    requested := firstRequested + retryRequested;
    delays := firstDelays + retryDelays;
  }

  // ---------------------------------------------------------------------------
  // The retry pass as evidently intended: each missed hotspot once, in order
  // ---------------------------------------------------------------------------

  /** With every page unreachable and two distinct hotspots, the retry pass
      as written requests the first hotspot twice and never the second. */
  lemma RetryRepeatsFirstMissed(a: Hotspot, b: Hotspot, down: Fetch)
    requires a != b
    requires forall u, k :: down(u, k) == Unreachable
    ensures FirstPassOf([a, b], down, 0) == Passed([], [a, b])
    ensures RequestLog([a, b], down, 0) == [a, b, a, a]
    ensures Count(RetryLog([a, b], down, 2), b) == 0
  {
    assert FirstPassUpTo([a, b], 1, down, 0) == Passed([], [a]);
    assert RetryPassOf(a, 1, down, 2) == Retried([]);
    assert RetryPassOf(a, 2, down, 2) == Retried([]);
    assert RetryLog([a, b], down, 2) == [a, a];
    assert [a, a][..1] == [a];
    assert [a][..0] == [];
    assert Count([a], b) == 0;
  }

  /** The first `count` iterations of the retry pass that pops from the
      front: iteration i requests `missed[i]` as request number `k + i`. */
  function RetryEachPassOf(missed: seq<Hotspot>, count: nat, fetch: Fetch, k: nat): (p: RetryPass)
    requires count <= |missed|
    ensures p.RetryRaisedAt? ==> p.at < count
  {
    if count == 0 then Retried([])
    else
      match RetryEachPassOf(missed, count - 1, fetch, k)
      case RetryRaisedAt(j) => RetryRaisedAt(j)
      case Retried(ret) =>
        match Visit(missed[count - 1], fetch, k + count - 1)
        case Err(_) => RetryRaisedAt(count - 1)
        case Ok(obs) => Retried(ret + obs)
  }

  /** The whole corrected retry pass over `missed`. */
  function RetryEachOf(missed: seq<Hotspot>, fetch: Fetch, k: nat): (p: RetryPass)
    ensures p.RetryRaisedAt? ==> p.at < |missed|
  {
    RetryEachPassOf(missed, |missed|, fetch, k)
  }

  lemma RetryEachPassNext(missed: seq<Hotspot>, done: nat, fetch: Fetch, k: nat)
    requires done < |missed|
    ensures RetryEachPassOf(missed, done + 1, fetch, k) ==
      match RetryEachPassOf(missed, done, fetch, k)
      case RetryRaisedAt(j) => RetryRaisedAt(j)
      case Retried(ret) =>
        match Visit(missed[done], fetch, k + done)
        case Err(_) => RetryRaisedAt(done)
        case Ok(obs) => Retried(ret + obs)
  {
  }

  lemma {:induction false} RetryEachRaisedStays(missed: seq<Hotspot>, count: nat, fetch: Fetch, k: nat, j: nat)
    requires j <= count <= |missed| && RetryEachPassOf(missed, j, fetch, k).RetryRaisedAt?
    ensures RetryEachPassOf(missed, count, fetch, k) == RetryEachPassOf(missed, j, fetch, k)
    decreases count - j
  {
    if j < count {
      RetryEachRaisedStays(missed, count, fetch, k, j + 1);
    }
  }

  /** With at most one missed hotspot the two retry passes coincide: the
      defect shows only from two misses on. */
  lemma RetryAgreesOnOneMiss(missed: seq<Hotspot>, fetch: Fetch, k: nat)
    requires |missed| <= 1
    ensures RetryEachOf(missed, fetch, k) == RetryOf(missed, fetch, k)
  {
    if |missed| == 1 {
      assert RetryEachPassOf(missed, 0, fetch, k) == Retried([]);
      assert RetryPassOf(missed[0], 0, fetch, k) == Retried([]);
    }
  }

  /** One iteration of the corrected retry loop after `done` of them, whose
      observations so far are `more`: the request of `missed[done]`. */
  method RetryEachStep(missed: seq<Hotspot>, done: nat, ret: seq<Observation>, ghost more: seq<Observation>,
                       out: seq<Observation>, fetch: Fetch, start: nat)
    returns (r: Result<seq<Observation>>)
    requires done < |missed|
    requires RetryEachPassOf(missed, done, fetch, start) == Retried(more) && out == ret + more
    ensures r.Err? <==> RetryEachPassOf(missed, done + 1, fetch, start).RetryRaisedAt?
    ensures r.Err? ==> r.error == ValueError
    ensures r.Ok? ==> r.value == ret + RetryEachPassOf(missed, done + 1, fetch, start).ret
  {
    RetryEachPassNext(missed, done, fetch, start);
    r := RetryOnce(out, missed[done], fetch, start + done);
    var v := Visit(missed[done], fetch, start + done);
    if v.Ok? {
      assert RetryEachPassOf(missed, done + 1, fetch, start) == Retried(more + v.value);
      AppendAssoc(ret, more, v.value);
    } else {
      assert RetryEachPassOf(missed, done + 1, fetch, start) == RetryRaisedAt(done);
    }
  }

  /** The retry loop with `missed.pop(0)`: every hotspot that the first pass
      missed is requested exactly once, in the order it was missed. */
  method RetryEachOnce(missed: seq<Hotspot>, ret: seq<Observation>, fetch: Fetch, start: nat)
    returns (res: Result<seq<Observation>>, requested: seq<Hotspot>, delays: nat)
    ensures match RetryEachOf(missed, fetch, start)
      case RetryRaisedAt(j) => res == Err(ValueError) && requested == missed[..j + 1]
      case Retried(more) => res == Ok(ret + more) && requested == missed
    ensures delays == if res.Ok? then |requested| else |requested| - 1
  {
    var queue := missed;
    var out := ret;
    var done: nat := 0;
    ghost var more: seq<Observation> := [];
    requested, delays := [], 0;
    while queue != []
      invariant done <= |missed| && requested == missed[..done] && queue == missed[done..]
      invariant delays == done
      invariant RetryEachPassOf(missed, done, fetch, start) == Retried(more) && out == ret + more
    {
      var target := queue[0];
      assert target == missed[done];
      TakeSnoc(missed, done);
      requested := requested + [target];
      var r := RetryEachStep(missed, done, ret, more, out, fetch, start);
      if r.Err? {
        RetryEachRaisedStays(missed, |missed|, fetch, start, done + 1);
        return r, requested, delays;
      }
      out, more := r.value, RetryEachPassOf(missed, done + 1, fetch, start).ret;
      queue := queue[1..];
      done, delays := done + 1, delays + 1;
    }
    assert requested == missed;
    res := Ok(out);
  }
}
