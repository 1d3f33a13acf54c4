/**
 * Geometry extraction from one KML placemark: the coordinate text of a Point,
 * a LineString or a Polygon's outer ring is parsed into coordinates, trying
 * the three kinds in that order and falling through on any failure.
 */
module Geometry {
  import opened Wrappers
  import opened PyText

  datatype Coord = Coord(lon: real, lat: real)

  datatype Geometry =
    | Point(at: Coord)
    | LineString(path: seq<Coord>)
    | Polygon(ring: seq<Coord>)

  /**
   * A placemark as the XML layer hands it over: the text of its `name` child
   * (None when there is none) and, per geometry kind, the text of that kind's
   * `coordinates` element (None when the element is missing or has no text).
   */
  datatype Placemark = Placemark(
    name: Option<string>,
    pointCoords: Option<string>,
    lineCoords: Option<string>,
    polygonCoords: Option<string>)

  /**
   * The library calls the engine cannot see: `float(...)`, whether shapely's
   * LineString and Polygon constructors accept a coordinate list, and the
   * distance, projection and containment computations.
   */
  datatype Oracles = Oracles(
    parseFloat: string -> Option<real>,
    lineAccepts: seq<Coord> -> bool,
    polygonAccepts: seq<Coord> -> bool,
    distance: (Coord, seq<Coord>) -> real,
    project: (Coord, seq<Coord>) -> real,
    within: (Coord, seq<Coord>) -> bool)

  /** The stripped coordinate text; empty when there is none. */
  function CoordText(o: Option<string>): string {
    if o.Some? then Strip(o.value) else ""
  }

  /** `map(float, fields)`, forced: fails as soon as one field is not a number. */
  function ParseFields(fields: seq<string>, oracles: Oracles): (r: Option<seq<real>>)
    ensures r.Some? <==> forall i :: 0 <= i < |fields| ==> oracles.parseFloat(fields[i]).Some?
    ensures r.Some? ==> |r.value| == |fields|
    ensures r.Some? ==> forall i :: 0 <= i < |fields| ==> oracles.parseFloat(fields[i]) == Some(r.value[i])
  {
    if fields == [] then Some([])
    else
      match oracles.parseFloat(fields[0])
      case None => None
      case Some(v) =>
        match ParseFields(fields[1..], oracles)
        case None => None
        case Some(vs) => Some([v] + vs)
  }

  /**
   * `lon, lat, *_ = map(float, text.split(","))`: every comma-separated field
   * must be a number, there must be at least two, and only the first two are kept.
   */
  function ParseTuple(text: string, oracles: Oracles): (c: Option<Coord>)
    ensures c.Some? <==>
      (|SplitOn(text, ',')| >= 2 && forall i :: 0 <= i < |SplitOn(text, ',')| ==> oracles.parseFloat(SplitOn(text, ',')[i]).Some?)
    ensures c.Some? ==>
      oracles.parseFloat(SplitOn(text, ',')[0]) == Some(c.value.lon) && oracles.parseFloat(SplitOn(text, ',')[1]) == Some(c.value.lat)
  {
    match ParseFields(SplitOn(text, ','), oracles)
    case None => None
    case Some(vs) => if |vs| >= 2 then Some(Coord(vs[0], vs[1])) else None
  }

  lemma CommaCons(a: string, r: string)
    requires ',' !in a
    ensures SplitOn(a + "," + r, ',') == [a] + SplitOn(r, ',')
  {
    assert a + "," + r == a + [','] + r;
    SplitOnFirst(a, ',', r);
  }

  lemma TwoFields(lon: string, lat: string)
    requires ',' !in lon && ',' !in lat
    ensures SplitOn(lon + "," + lat, ',') == [lon, lat]
  {
    CommaCons(lon, lat);
    SplitOnNoSep(lat, ',');
  }

  lemma ThreeFields(lon: string, lat: string, alt: string)
    requires ',' !in lon && ',' !in lat && ',' !in alt
    ensures SplitOn(lon + "," + lat + "," + alt, ',') == [lon, lat, alt]
  {
    assert lon + "," + lat + "," + alt == lon + "," + (lat + "," + alt);
    CommaCons(lon, lat + "," + alt);
    TwoFields(lat, alt);
  }

  /** An altitude field after longitude and latitude is parsed but ignored. */
  lemma AltitudeIgnored(lon: string, lat: string, alt: string, oracles: Oracles)
    requires ',' !in lon && ',' !in lat && ',' !in alt
    requires oracles.parseFloat(alt).Some?
    ensures ParseTuple(lon + "," + lat + "," + alt, oracles) == ParseTuple(lon + "," + lat, oracles)
  {
    ThreeFields(lon, lat, alt);
    TwoFields(lon, lat);
  }

  /** A tuple with a single field is never a coordinate. */
  lemma OneFieldIsNoCoordinate(field: string, oracles: Oracles)
    requires ',' !in field
    ensures ParseTuple(field, oracles) == None
  {
    SplitOnNoSep(field, ',');
  }

  /** The tuples of a `split()` coordinate list, parsed in order; None if any fails. */
  function ParseTuples(tokens: seq<string>, oracles: Oracles): (r: Option<seq<Coord>>)
    ensures r.Some? <==> forall k :: 0 <= k < |tokens| ==> ParseTuple(tokens[k], oracles).Some?
    ensures r.Some? ==> |r.value| == |tokens|
    ensures r.Some? ==> forall k :: 0 <= k < |tokens| ==> ParseTuple(tokens[k], oracles) == Some(r.value[k])
  {
    if tokens == [] then Some([])
    else
      match ParseTuples(tokens[..|tokens| - 1], oracles)
      case None => None
      case Some(cs) =>
        match ParseTuple(tokens[|tokens| - 1], oracles)
        case None => None
        case Some(c) => Some(cs + [c])
  }

  /**
   * The coordinate loop of the LineString and Polygon branches: one coordinate
   * is appended per tuple; a bad tuple aborts the branch.
   */
  method ParseEach(tokens: seq<string>, oracles: Oracles) returns (coords: Option<seq<Coord>>)
    ensures coords == ParseTuples(tokens, oracles)
  {
    var acc: seq<Coord> := [];
    var i := 0;
    while i < |tokens|
      invariant 0 <= i <= |tokens|
      invariant ParseTuples(tokens[..i], oracles) == Some(acc)
    {
      assert tokens[..i + 1][..i] == tokens[..i];
      var c := ParseTuple(tokens[i], oracles);
      if c.None? {
        assert ParseTuples(tokens[..i + 1], oracles) == None;
        NoneExtends(tokens, i + 1, oracles);
        return None;
      }
      acc := acc + [c.value];
      i := i + 1;
    }
    assert tokens[..i] == tokens;
    coords := Some(acc);
  }

  /** `[... for c in text.split()]` with the loop above. */
  method ParseCoordinateList(text: string, oracles: Oracles) returns (coords: Option<seq<Coord>>)
    ensures coords == ParseTuples(SplitWs(text), oracles)
  {
    var tokens := SplitWs(text);
    coords := ParseEach(tokens, oracles);
  }

  /** A failing prefix makes the whole list fail. */
  lemma NoneExtends(tokens: seq<string>, n: nat, oracles: Oracles)
    requires n <= |tokens|
    requires ParseTuples(tokens[..n], oracles) == None
    ensures ParseTuples(tokens, oracles) == None
  {
    var k :| 0 <= k < n && ParseTuple(tokens[..n][k], oracles).None?;
    assert tokens[k] == tokens[..n][k];
  }

  /** What `extract_geometry_from_placemark` returns for a placemark. */
  function GeometryOf(pm: Placemark, oracles: Oracles): Option<Geometry> {
    var pt := CoordText(pm.pointCoords);
    var lt := CoordText(pm.lineCoords);
    var gt := CoordText(pm.polygonCoords);
    var line := ParseTuples(SplitWs(lt), oracles);
    var ring := ParseTuples(SplitWs(gt), oracles);
    if pt != "" && ParseTuple(pt, oracles).Some? then
      Some(Point(ParseTuple(pt, oracles).value))
    else if lt != "" && line.Some? && oracles.lineAccepts(line.value) then
      Some(LineString(line.value))
    else if gt != "" && ring.Some? && oracles.polygonAccepts(ring.value) then
      Some(Polygon(ring.value))
    else
      None
  }

  /**
   * The geometry-type dispatch: Point first, then LineString, then Polygon,
   * each attempt guarded so that a failure falls through to the next.
   */
  method ExtractGeometry(pm: Placemark, oracles: Oracles) returns (g: Option<Geometry>)
    ensures g == GeometryOf(pm, oracles)
  {
    // Point
    var pt := CoordText(pm.pointCoords);
    if pt != "" {
      var c := ParseTuple(pt, oracles);
      if c.Some? {
        return Some(Point(c.value));
      }
    }
    // LineString
    var lt := CoordText(pm.lineCoords);
    if lt != "" {
      var coords := ParseCoordinateList(lt, oracles);
      if coords.Some? && oracles.lineAccepts(coords.value) {
        return Some(LineString(coords.value));
      }
    }
    // Polygon
    var gt := CoordText(pm.polygonCoords);
    if gt != "" {
      var coords := ParseCoordinateList(gt, oracles);
      if coords.Some? && oracles.polygonAccepts(coords.value) {
        return Some(Polygon(coords.value));
      }
    }
    return None;
  }

  /**
   * The kind tried first wins: once the Point text parses, the LineString and
   * Polygon texts are not looked at.
   */
  lemma PointTriedFirst(pm: Placemark, lineCoords: Option<string>, polygonCoords: Option<string>, oracles: Oracles)
    requires CoordText(pm.pointCoords) != "" && ParseTuple(CoordText(pm.pointCoords), oracles).Some?
    ensures GeometryOf(pm, oracles).Some? && GeometryOf(pm, oracles).value.Point?
    ensures GeometryOf(pm.(lineCoords := lineCoords, polygonCoords := polygonCoords), oracles) == GeometryOf(pm, oracles)
  {
  }

  /**
   * A LineString (and likewise a Polygon) holds one coordinate per
   * whitespace-separated tuple of its text, at least one, each the first two
   * fields of that tuple.
   */
  lemma PathFollowsTuples(pm: Placemark, oracles: Oracles)
    requires GeometryOf(pm, oracles).Some? && !GeometryOf(pm, oracles).value.Point?
    ensures var g := GeometryOf(pm, oracles).value;
            var text := if g.LineString? then CoordText(pm.lineCoords) else CoordText(pm.polygonCoords);
            var cs := if g.LineString? then g.path else g.ring;
            var tokens := SplitWs(text);
            |cs| == |tokens| >= 1
            && forall k :: 0 <= k < |tokens| ==> ParseTuple(tokens[k], oracles) == Some(cs[k])
  {
    var g := GeometryOf(pm, oracles).value;
    var text := if g.LineString? then CoordText(pm.lineCoords) else CoordText(pm.polygonCoords);
    assert text != "";
    assert !AllSpace(text) by {
      assert !IsSpace(text[0]);
    }
    SplitWsEmpty(text);
  }
}
