/** The hotspot-listing request that `get_hotspots` sends for one bounding
    box: each coordinate's text right-padded with '0' to sixteen characters,
    placed into the `maxY`, `maxX`, `minY` and `minX` query parameters. */
module HotspotQuery {
  import opened PyStr

  const LISTING_ENDPOINT := "https://ebird.org/mapServices/genHsForWindow.do"
  const COORD_WIDTH := 16

  /** `str(c).ljust(16, "0")` for a coordinate whose text is `c`. */
  function PadCoord(c: string): (r: string)
    ensures |r| == if |c| < COORD_WIDTH then COORD_WIDTH else |c|
    ensures r[..|c|] == c
    ensures forall i :: |c| <= i < |r| ==> r[i] == '0'
  {
    LJust(c, COORD_WIDTH, '0')
  }

  /** The query's `key=value` pieces, in the order the URL lists them. */
  function QueryPieces(x1: string, y1: string, x2: string, y2: string): seq<string>
  {
    [ "maxY=" + PadCoord(y2), "maxX=" + PadCoord(x2),
      "minY=" + PadCoord(y1), "minX=" + PadCoord(x1),
      "yr=all", "m=" ]
  }

  /** The URL `get_hotspots(x1, y1, x2, y2)` requests: x1 is the west
      longitude, y1 the south latitude, x2 the east longitude, y2 the north
      latitude. */
  function HotspotsUrl(x1: string, y1: string, x2: string, y2: string): (u: string)
    ensures StartsWith(u, LISTING_ENDPOINT + "?")
  {
    LISTING_ENDPOINT + "?" + Join(QueryPieces(x1, y1, x2, y2), '&')
  }

  /** The value of query parameter `key` in a listing request `url`, as a
      server splitting the query string at '&' and each piece at its first
      '=' reads it. */
  function Param(url: string, key: string): Option<string>
  {
    if StartsWith(url, LISTING_ENDPOINT + "?") then
      Lookup(Split(url[|LISTING_ENDPOINT| + 1..], '&'), key)
    else None
  }

  function Lookup(pieces: seq<string>, key: string): Option<string>
  {
    if pieces == [] then None
    else if StartsWith(pieces[0], key + "=") then Some(pieces[0][|key| + 1..])
    else Lookup(pieces[1..], key)
  }

  predicate StartsWith(s: string, p: string)
  {
    |p| <= |s| && s[..|p|] == p
  }

  predicate NoAmpersand(s: string)
  {
    '&' !in s
  }

  lemma PadKeepsNoAmpersand(c: string)
    requires NoAmpersand(c)
    ensures NoAmpersand(PadCoord(c))
  {
    var r := PadCoord(c);
    forall i | 0 <= i < |r|
      ensures r[i] != '&'
    {
      if i < |c| {
        assert r[i] == r[..|c|][i];
      }
    }
  }

  /** The query string of the listing URL splits back into its pieces. */
  lemma SplitQuery(x1: string, y1: string, x2: string, y2: string)
    requires NoAmpersand(x1) && NoAmpersand(y1) && NoAmpersand(x2) && NoAmpersand(y2)
    ensures forall key ::
      Param(HotspotsUrl(x1, y1, x2, y2), key) == Lookup(QueryPieces(x1, y1, x2, y2), key)
  {
    var pieces := QueryPieces(x1, y1, x2, y2);
    PadKeepsNoAmpersand(x1);
    PadKeepsNoAmpersand(y1);
    PadKeepsNoAmpersand(x2);
    PadKeepsNoAmpersand(y2);
    forall k | 0 <= k < |pieces|
      ensures '&' !in pieces[k]
    {
      if k < 4 {
        assert pieces[k] == pieces[k][..5] + pieces[k][5..];
      }
    }
    SplitJoin(pieces, '&');
    var u := HotspotsUrl(x1, y1, x2, y2);
    var prefix := LISTING_ENDPOINT + "?";
    assert u == prefix + Join(pieces, '&');
    assert u[..|prefix|] == prefix;
    assert u[|LISTING_ENDPOINT| + 1..] == Join(pieces, '&');
  }

  /** Lookup finds the first piece named `key`. */
  lemma {:induction false} LookupFirst(pieces: seq<string>, key: string, j: nat, v: string)
    requires j < |pieces| && pieces[j] == key + "=" + v
    requires forall i :: 0 <= i < j ==> !StartsWith(pieces[i], key + "=")
    ensures Lookup(pieces, key) == Some(v)
  {
    if j == 0 {
      assert pieces[0][..|key| + 1] == key + "=";
    } else {
      LookupFirst(pieces[1..], key, j - 1, v);
    }
  }

  lemma DifferAt(s: string, p: string, i: nat)
    requires i < |s| && i < |p| && s[i] != p[i]
    ensures !StartsWith(s, p)
  {
    if |p| <= |s| {
      assert s[..|p|][i] == s[i];
    }
  }

  /** The listing request carries each coordinate, padded, under the name of
      its own axis and bound: maxY is the north latitude y2, maxX the east
      longitude x2, minY the south latitude y1 and minX the west longitude x1;
      the year range is "all". This holds for any coordinate text free of '&',
      as every `str()` of a number is. */
  lemma HotspotsUrlParams(x1: string, y1: string, x2: string, y2: string)
    requires NoAmpersand(x1) && NoAmpersand(y1) && NoAmpersand(x2) && NoAmpersand(y2)
    ensures Param(HotspotsUrl(x1, y1, x2, y2), "maxY") == Some(PadCoord(y2))
    ensures Param(HotspotsUrl(x1, y1, x2, y2), "maxX") == Some(PadCoord(x2))
    ensures Param(HotspotsUrl(x1, y1, x2, y2), "minY") == Some(PadCoord(y1))
    ensures Param(HotspotsUrl(x1, y1, x2, y2), "minX") == Some(PadCoord(x1))
    ensures Param(HotspotsUrl(x1, y1, x2, y2), "yr") == Some("all")
  {
    SplitQuery(x1, y1, x2, y2);
    PiecesLookup(x1, y1, x2, y2);
    var u, pieces := HotspotsUrl(x1, y1, x2, y2), QueryPieces(x1, y1, x2, y2);
    assert Param(u, "maxY") == Lookup(pieces, "maxY");
    assert Param(u, "maxX") == Lookup(pieces, "maxX");
    assert Param(u, "minY") == Lookup(pieces, "minY");
    assert Param(u, "minX") == Lookup(pieces, "minX");
    assert Param(u, "yr") == Lookup(pieces, "yr");
  }

  lemma PiecesLookup(x1: string, y1: string, x2: string, y2: string)
    ensures Lookup(QueryPieces(x1, y1, x2, y2), "maxY") == Some(PadCoord(y2))
    ensures Lookup(QueryPieces(x1, y1, x2, y2), "maxX") == Some(PadCoord(x2))
    ensures Lookup(QueryPieces(x1, y1, x2, y2), "minY") == Some(PadCoord(y1))
    ensures Lookup(QueryPieces(x1, y1, x2, y2), "minX") == Some(PadCoord(x1))
    ensures Lookup(QueryPieces(x1, y1, x2, y2), "yr") == Some("all")
  {
    var pieces := QueryPieces(x1, y1, x2, y2);
    var p0, p1, p2, p3 := pieces[0], pieces[1], pieces[2], pieces[3];
    assert p0[0] == 'm' && p0[1] == 'a' && p0[3] == 'Y';
    assert p1[0] == 'm' && p1[1] == 'a' && p1[3] == 'X';
    assert p2[0] == 'm' && p2[1] == 'i' && p2[3] == 'Y';
    assert p3[0] == 'm' && p3[1] == 'i' && p3[3] == 'X';
    LookupFirst(pieces, "maxY", 0, PadCoord(y2));
    DifferAt(p0, "maxX=", 3);
    LookupFirst(pieces, "maxX", 1, PadCoord(x2));
    DifferAt(p0, "minY=", 1);
    DifferAt(p1, "minY=", 1);
    LookupFirst(pieces, "minY", 2, PadCoord(y1));
    DifferAt(p0, "minX=", 1);
    DifferAt(p1, "minX=", 1);
    DifferAt(p2, "minX=", 3);
    LookupFirst(pieces, "minX", 3, PadCoord(x1));
    forall i | 0 <= i < 4
      ensures !StartsWith(pieces[i], "yr=")
    {
      assert pieces[i][0] == 'm';
      DifferAt(pieces[i], "yr=", 0);
    }
    assert pieces[4] == "yr" + "=" + "all";
    LookupFirst(pieces, "yr", 4, "all");
  }
}
