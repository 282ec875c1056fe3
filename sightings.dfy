/** What `get_birds` keeps from one hotspot page: every sighting record whose
    date ends in a year of 2010 or later becomes a (hotspot name, bird name)
    observation, in the page's order. The page itself is given as its
    records; the HTML traversal that finds them is not modelled. */
module Sightings {
  import opened PyStr

  /** The year the filter compares against; `get_birds` hard-codes it and
      never reads its `year` argument. */
  const CUTOFF_YEAR := 2010

  /** The exceptions the modelled code can raise out of `get_birds` and `main`. */
  datatype Error = ValueError | TypeError

  datatype Result<T> = Ok(value: T) | Err(error: Error)

  /** One sighting on a hotspot page: the bird's name and the date text. */
  datatype Record = Record(birdName: string, date: string)

  /** One output row: (Hotspot_Name, Bird_Name). */
  datatype Observation = Observation(hotspotName: string, birdName: string)

  /** `int(date[-4:])`, or `None` where it raises `ValueError`. */
  function YearOf(r: Record): Option<int>
  {
    ParseInt(Tail(r.date, 4))
  }

  /** The year read from a date's last four characters lies in -999..9999,
      and below 1000 when the whole date is shorter than four characters. */
  lemma YearRange(r: Record)
    ensures YearOf(r).Some? ==> -999 <= YearOf(r).value <= 9999
    ensures YearOf(r).Some? && |r.date| < 4 ==> YearOf(r).value <= 999
  {
    ParseIntRange(Tail(r.date, 4));
  }

  /** The test `int(date[-4:]) >= 2010`; the parse is outside any `try`, so a
      date whose tail is not an integer raises. */
  function IsRecent(r: Record): Result<bool>
  {
    match YearOf(r)
    case None => Err(ValueError)
    case Some(y) => Ok(y >= CUTOFF_YEAR)
  }

  /** The test raises only `ValueError`, and a date shorter than four
      characters is never recent: no year of three characters reaches 2010. */
  lemma ShortDateNeverRecent(r: Record)
    ensures IsRecent(r).Err? ==> IsRecent(r).error == ValueError
    ensures IsRecent(r) == Ok(true) ==> |r.date| >= 4
  {
    YearRange(r);
  }

  /** A date text that ends in a four-digit year y is kept exactly when
      y >= 2010, whatever precedes the year. */
  lemma RecentDatedYear(bird: string, prefix: string, y: nat)
    requires 1000 <= y < 10000
    ensures IsRecent(Record(bird, prefix + Show(y))) == Ok(y >= CUTOFF_YEAR)
  {
    var date := prefix + Show(y);
    ShowFourDigits(y);
    assert Tail(date, 4) == Show(y);
    ParseShow(y);
  }

  /** A date with a non-numeric tail, such as a letter O typed for a zero,
      raises. */
  lemma MalformedDateRaises(bird: string)
    ensures IsRecent(Record(bird, "3 May 201O")) == Err(ValueError)
  {
    var t := Tail("3 May 201O", 4);
    assert t == "201O";
    assert TextStart(t, 0) == 0;
    assert TextEnd(t, 0, 4) == 4;
    assert !IsDigitRun(t, 3, 4);
    assert !IsDigitRun(t, 2, 4);
    assert !IsDigitRun(t, 1, 4);
    assert !IsDigitRun(t, 0, 4);
  }

  /** A separator control before the year is not white space to `int()`:
      the tail "\x1c201" raises rather than reading as 201. */
  lemma SeparatorControlRaises(bird: string)
    ensures IsRecent(Record(bird, "x\U{1c}201")) == Err(ValueError)
  {
    var t := Tail("x\U{1c}201", 4);
    assert t == "\U{1c}201";
    assert TextStart(t, 0) == 0;
    assert TextEnd(t, 0, 4) == 4;
    assert !IsDigitRun(t, 0, 4);
  }

  /** The observations one page yields for the hotspot named `name`, in
      record order; `Err` when some record's date does not parse. */
  function Extract(name: string, recs: seq<Record>): (r: Result<seq<Observation>>)
    ensures r.Err? ==> r.error == ValueError
    ensures r.Ok? ==> |r.value| <= |recs| && forall o :: o in r.value ==> o.hotspotName == name
  {
    if recs == [] then Ok([])
    else
      var last := recs[|recs| - 1];
      match Extract(name, recs[..|recs| - 1])
      case Err(e) => Err(e)
      case Ok(obs) =>
        match IsRecent(last)
        case Err(e) => Err(e)
        case Ok(keep) => Ok(if keep then obs + [Observation(name, last.birdName)] else obs)
  }

  /** A page raises exactly when one of its dates does not parse. */
  lemma {:induction false} ExtractOk(name: string, recs: seq<Record>)
    ensures Extract(name, recs).Ok? <==> forall i :: 0 <= i < |recs| ==> YearOf(recs[i]).Some?
  {
    if recs != [] {
      var n := |recs| - 1;
      ExtractOk(name, recs[..n]);
      assert forall i :: 0 <= i < n ==> recs[..n][i] == recs[i];
    }
  }

  /** Record `r` yields an observation of bird `b`. */
  predicate Yields(r: Record, b: string)
  {
    r.birdName == b && IsRecent(r) == Ok(true)
  }

  /** Every observation of a page comes from a record for that bird dated
      2010 or later. */
  lemma {:induction false} ExtractSound(name: string, recs: seq<Record>, b: string)
    requires Extract(name, recs).Ok? && Observation(name, b) in Extract(name, recs).value
    ensures exists i :: 0 <= i < |recs| && Yields(recs[i], b)
  {
    var n := |recs| - 1;
    var front := Extract(name, recs[..n]).value;
    if Observation(name, b) in front {
      ExtractSound(name, recs[..n], b);
      var i :| 0 <= i < n && Yields(recs[..n][i], b);
      assert recs[..n][i] == recs[i];
    } else {
      assert Extract(name, recs).value == front + [Observation(name, recs[n].birdName)];
      assert Yields(recs[n], b);
    }
  }

  /** Every record for a bird dated 2010 or later yields an observation. */
  lemma {:induction false} ExtractComplete(name: string, recs: seq<Record>, i: nat, b: string)
    requires Extract(name, recs).Ok? && i < |recs| && Yields(recs[i], b)
    ensures Observation(name, b) in Extract(name, recs).value
  {
    var n := |recs| - 1;
    var front := Extract(name, recs[..n]).value;
    if i < n {
      assert recs[..n][i] == recs[i];
      ExtractComplete(name, recs[..n], i, b);
      assert Extract(name, recs).value == front || Extract(name, recs).value == front + [Observation(name, recs[n].birdName)];
    } else {
      assert Extract(name, recs).value == front + [Observation(name, b)];
    }
  }

  /** A page contributes (name, b) exactly when one of its records is for
      bird b and dated 2010 or later. */
  lemma ExtractContributes(name: string, recs: seq<Record>, b: string)
    requires Extract(name, recs).Ok?
    ensures Observation(name, b) in Extract(name, recs).value <==>
            exists i :: 0 <= i < |recs| && Yields(recs[i], b)
  {
    if Observation(name, b) in Extract(name, recs).value {
      ExtractSound(name, recs, b);
    }
    if exists i :: 0 <= i < |recs| && Yields(recs[i], b) {
      var i :| 0 <= i < |recs| && Yields(recs[i], b);
      ExtractComplete(name, recs, i, b);
    }
  }

  /** Records are processed in page order: the observations of a page split
      at any record are those of its first part followed by those of the rest. */
  lemma {:induction false} ExtractAppend(name: string, a: seq<Record>, b: seq<Record>)
    requires Extract(name, a + b).Ok?
    ensures Extract(name, a).Ok? && Extract(name, b).Ok?
    ensures Extract(name, a + b).value == Extract(name, a).value + Extract(name, b).value
  {
    if b == [] {
      assert a + b == a;
      assert Extract(name, a).value + [] == Extract(name, a).value;
    } else {
      var n := |b| - 1;
      assert (a + b)[..|a + b| - 1] == a + b[..n];
      assert (a + b)[|a + b| - 1] == b[n];
      ExtractAppend(name, a, b[..n]);
      var tail := if IsRecent(b[n]) == Ok(true) then [Observation(name, b[n].birdName)] else [];
      assert Extract(name, a + b).value == Extract(name, a + b[..n]).value + tail;
      assert Extract(name, b).value == Extract(name, b[..n]).value + tail;
      AppendAssoc(Extract(name, a).value, Extract(name, b[..n]).value, tail);
    }
  }

  /** The inner `for li in lis` loop: appends to `ret` the observations of
      one page, or raises `ValueError` at the first date that does not parse. */
  method AppendKept(ret: seq<Observation>, name: string, lis: seq<Record>)
    returns (res: Result<seq<Observation>>)
    ensures res.Ok? <==> Extract(name, lis).Ok?
    ensures res.Ok? ==> res.value == ret + Extract(name, lis).value
    ensures res.Err? ==> res.error == ValueError
  {
    var out := ret;
    for j := 0 to |lis|
      invariant Extract(name, lis[..j]).Ok?
      invariant out == ret + Extract(name, lis[..j]).value
    {
      assert lis[..j + 1][..j] == lis[..j];
      match YearOf(lis[j])
      case None =>
        ExtractOk(name, lis);
        return Err(ValueError);
      case Some(y) =>
        if y >= CUTOFF_YEAR {
          out := out + [Observation(name, lis[j].birdName)];
        }
    }
    assert lis[..|lis|] == lis;
    res := Ok(out);
  }
}
