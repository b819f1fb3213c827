/** Geometries as the importers see them. Coordinates are never computed on: they
    are only read from GeoJSON arrays, cut and wrapped, so a coordinate value is an
    opaque `int` and a geometry's coordinate reference system is an integer SRID tag. */
module Geometry {
  import opened Results

  /** A position: two coordinates, or three with an altitude (section 3.1.1 of RFC 7946). */
  type Position = seq<int>
  type Ring = seq<Position>

  datatype Geometry =
    | Point(srid: int, position: Position)
    | MultiPoint(srid: int, points: seq<Position>)
    | Polygon(srid: int, rings: seq<Ring>)
    | MultiPolygon(srid: int, polygons: seq<seq<Ring>>)

  /** The number-or-array tree of a GeoJSON `coordinates` member. */
  datatype Json = Num(n: int) | Arr(items: seq<Json>)

  /** A GeoJSON geometry object: its `type` member and its `coordinates` member. */
  datatype GeoJson = GeoJson(kind: string, coordinates: Json)

  predicate ValidPosition(p: Position) {
    2 <= |p| <= 3
  }

  /** Every position in the geometry has two or three coordinates. */
  predicate WellFormed(g: Geometry) {
    match g
    case Point(_, p) => ValidPosition(p)
    case MultiPoint(_, ps) => forall i :: 0 <= i < |ps| ==> ValidPosition(ps[i])
    case Polygon(_, rs) =>
      forall i, j :: 0 <= i < |rs| && 0 <= j < |rs[i]| ==> ValidPosition(rs[i][j])
    case MultiPolygon(_, ps) =>
      forall i, j, k :: 0 <= i < |ps| && 0 <= j < |ps[i]| && 0 <= k < |ps[i][j]| ==> ValidPosition(ps[i][j][k])
  }

  // ----- Reading and writing GeoJSON coordinates -----

  /** Reads every element of an array with `dec`; fails if any element fails. */
  function ListOf<T>(items: seq<Json>, dec: Json -> Option<T>): (r: Option<seq<T>>)
    ensures r.Some? <==> forall k :: 0 <= k < |items| ==> dec(items[k]).Some?
    ensures r.Some? ==> |r.value| == |items| && forall k :: 0 <= k < |items| ==> dec(items[k]) == Some(r.value[k])
    decreases |items|
  {
    if items == [] then Some([])
    else match (dec(items[0]), ListOf(items[1..], dec))
      case (Some(x), Some(xs)) =>
        assert forall k :: 1 <= k < |items| ==> items[k] == items[1..][k - 1];
        Some([x] + xs)
      case _ =>
        assert forall k :: 1 <= k < |items| ==> items[k] == items[1..][k - 1];
        None
  }

  /** Writes every element with `enc`. */
  function ListJson<T>(xs: seq<T>, enc: T -> Json): (r: seq<Json>)
    decreases |xs|
  {
    if xs == [] then [] else [enc(xs[0])] + ListJson(xs[1..], enc)
  }

  lemma {:induction false} ListJsonAt<T>(xs: seq<T>, enc: T -> Json)
    ensures |ListJson(xs, enc)| == |xs|
    ensures forall k :: 0 <= k < |xs| ==> ListJson(xs, enc)[k] == enc(xs[k])
    decreases |xs|
  {
    if xs != [] {
      ListJsonAt(xs[1..], enc);
    }
  }

  /** Reading what was written gives it back, when that holds element by element. */
  lemma ListOfListJson<T>(xs: seq<T>, enc: T -> Json, dec: Json -> Option<T>)
    requires forall k :: 0 <= k < |xs| ==> dec(enc(xs[k])) == Some(xs[k])
    ensures ListOf(ListJson(xs, enc), dec) == Some(xs)
  {
    ListJsonAt(xs, enc);
    var items := ListJson(xs, enc);
    assert forall k :: 0 <= k < |items| ==> dec(items[k]) == Some(xs[k]);
    var r := ListOf(items, dec);
    forall k | 0 <= k < |xs| ensures r.value[k] == xs[k] {
      assert dec(items[k]) == Some(r.value[k]);
    }
    assert r.value == xs;
  }

  /** Writing what was read gives the array back, when that holds element by element. */
  lemma ListJsonListOf<T>(items: seq<Json>, enc: T -> Json, dec: Json -> Option<T>)
    requires ListOf(items, dec).Some?
    requires forall k :: 0 <= k < |items| && dec(items[k]).Some? ==> enc(dec(items[k]).value) == items[k]
    ensures ListJson(ListOf(items, dec).value, enc) == items
  {
    var xs := ListOf(items, dec).value;
    ListJsonAt(xs, enc);
    assert forall k :: 0 <= k < |items| ==> ListJson(xs, enc)[k] == items[k];
  }

  function NumOf(j: Json): Option<int> {
    if j.Num? then Some(j.n) else None
  }

  function NumJson(n: int): Json {
    Num(n)
  }

  function PositionOf(j: Json): (r: Option<Position>)
    ensures r.Some? ==> j.Arr? && |r.value| == |j.items| && ValidPosition(r.value)
  {
    if j.Arr? && 2 <= |j.items| <= 3 then ListOf(j.items, NumOf) else None
  }

  function PositionJson(p: Position): Json {
    Arr(ListJson(p, NumJson))
  }

  function PositionsOf(j: Json): Option<seq<Position>> {
    if j.Arr? then ListOf(j.items, PositionOf) else None
  }

  function PositionsJson(ps: seq<Position>): Json {
    Arr(ListJson(ps, PositionJson))
  }

  function RingsOf(j: Json): Option<seq<Ring>> {
    if j.Arr? then ListOf(j.items, PositionsOf) else None
  }

  function RingsJson(rs: seq<Ring>): Json {
    Arr(ListJson(rs, PositionsJson))
  }

  function PolygonsOf(j: Json): Option<seq<seq<Ring>>> {
    if j.Arr? then ListOf(j.items, RingsOf) else None
  }

  function PolygonsJson(ps: seq<seq<Ring>>): Json {
    Arr(ListJson(ps, RingsJson))
  }

  lemma PositionRoundTrip(p: Position)
    requires ValidPosition(p)
    ensures PositionOf(PositionJson(p)) == Some(p)
  {
    ListJsonAt(p, NumJson);
    ListOfListJson(p, NumJson, NumOf);
  }

  lemma PositionsRoundTrip(ps: seq<Position>)
    requires forall i :: 0 <= i < |ps| ==> ValidPosition(ps[i])
    ensures PositionsOf(PositionsJson(ps)) == Some(ps)
  {
    forall i | 0 <= i < |ps| ensures PositionOf(PositionJson(ps[i])) == Some(ps[i]) {
      PositionRoundTrip(ps[i]);
    }
    ListOfListJson(ps, PositionJson, PositionOf);
  }

  lemma RingsRoundTrip(rs: seq<Ring>)
    requires forall i, j :: 0 <= i < |rs| && 0 <= j < |rs[i]| ==> ValidPosition(rs[i][j])
    ensures RingsOf(RingsJson(rs)) == Some(rs)
  {
    forall i | 0 <= i < |rs| ensures PositionsOf(PositionsJson(rs[i])) == Some(rs[i]) {
      PositionsRoundTrip(rs[i]);
    }
    ListOfListJson(rs, PositionsJson, PositionsOf);
  }

  lemma PolygonsRoundTrip(ps: seq<seq<Ring>>)
    requires forall i, j, k :: 0 <= i < |ps| && 0 <= j < |ps[i]| && 0 <= k < |ps[i][j]| ==> ValidPosition(ps[i][j][k])
    ensures PolygonsOf(PolygonsJson(ps)) == Some(ps)
  {
    forall i | 0 <= i < |ps| ensures RingsOf(RingsJson(ps[i])) == Some(ps[i]) {
      RingsRoundTrip(ps[i]);
    }
    ListOfListJson(ps, RingsJson, RingsOf);
  }

  lemma PositionWritesBack(j: Json)
    requires PositionOf(j).Some?
    ensures PositionJson(PositionOf(j).value) == j
  {
    ListJsonListOf(j.items, NumJson, NumOf);
  }

  lemma PositionsWriteBack(j: Json)
    requires PositionsOf(j).Some?
    ensures PositionsJson(PositionsOf(j).value) == j
  {
    forall k | 0 <= k < |j.items| && PositionOf(j.items[k]).Some?
      ensures PositionJson(PositionOf(j.items[k]).value) == j.items[k]
    {
      PositionWritesBack(j.items[k]);
    }
    ListJsonListOf(j.items, PositionJson, PositionOf);
  }

  lemma RingsWriteBack(j: Json)
    requires RingsOf(j).Some?
    ensures RingsJson(RingsOf(j).value) == j
  {
    forall k | 0 <= k < |j.items| && PositionsOf(j.items[k]).Some?
      ensures PositionsJson(PositionsOf(j.items[k]).value) == j.items[k]
    {
      PositionsWriteBack(j.items[k]);
    }
    ListJsonListOf(j.items, PositionsJson, PositionsOf);
  }

  lemma PolygonsWriteBack(j: Json)
    requires PolygonsOf(j).Some?
    ensures PolygonsJson(PolygonsOf(j).value) == j
  {
    forall k | 0 <= k < |j.items| && RingsOf(j.items[k]).Some?
      ensures RingsJson(RingsOf(j.items[k]).value) == j.items[k]
    {
      RingsWriteBack(j.items[k]);
    }
    ListJsonListOf(j.items, RingsJson, RingsOf);
  }

  /** The GeoJSON object of a geometry (its `geojson` text, parsed). */
  function ToGeoJson(g: Geometry): GeoJson {
    match g
    case Point(_, p) => GeoJson("Point", PositionJson(p))
    case MultiPoint(_, ps) => GeoJson("MultiPoint", PositionsJson(ps))
    case Polygon(_, rs) => GeoJson("Polygon", RingsJson(rs))
    case MultiPolygon(_, ps) => GeoJson("MultiPolygon", PolygonsJson(ps))
  }

  /** Building a geometry from GeoJSON and tagging it with `srid` (what `GEOSGeometry(geojson, srid=srid)`
      does for the four kinds the importers meet). An unknown `type`, or coordinates not nested as that
      type needs, is a geometry error. What is built writes back to exactly the GeoJSON it came from. */
  function FromGeoJson(g: GeoJson, srid: int): (r: Result<Geometry>)
    ensures r.Err? ==> r.error == GeometryError
    ensures g.kind !in {"Point", "MultiPoint", "Polygon", "MultiPolygon"} ==> r.Err?
    ensures r.Ok? ==> r.value.srid == srid && WellFormed(r.value) && ToGeoJson(r.value) == g
  {
    var c := g.coordinates;
    if g.kind == "Point" then
      match PositionOf(c)
      case Some(p) => PositionWritesBack(c); Ok(Point(srid, p))
      case None => Err(GeometryError)
    else if g.kind == "MultiPoint" then
      match PositionsOf(c)
      case Some(ps) => PositionsWriteBack(c); Ok(MultiPoint(srid, ps))
      case None => Err(GeometryError)
    else if g.kind == "Polygon" then
      match RingsOf(c)
      case Some(rs) => RingsWriteBack(c); Ok(Polygon(srid, rs))
      case None => Err(GeometryError)
    else if g.kind == "MultiPolygon" then
      match PolygonsOf(c)
      case Some(ps) => PolygonsWriteBack(c); Ok(MultiPolygon(srid, ps))
      case None => Err(GeometryError)
    else Err(GeometryError)
  }

  /** The other direction: writing a well-formed geometry as GeoJSON and reading it back
      with its own SRID gives the geometry back. */
  lemma FromToGeoJson(g: Geometry)
    requires WellFormed(g)
    ensures FromGeoJson(ToGeoJson(g), g.srid) == Ok(g)
  {
    match g
    case Point(_, p) => PositionRoundTrip(p);
    case MultiPoint(_, ps) => PositionsRoundTrip(ps);
    case Polygon(_, rs) => RingsRoundTrip(rs);
    case MultiPolygon(_, ps) => PolygonsRoundTrip(ps);
  }

  // ----- clean_poly -----

  /** The polygons an areal geometry covers; none for points. */
  function Parts(g: Geometry): seq<seq<Ring>> {
    match g
    case Polygon(_, rs) => [rs]
    case MultiPolygon(_, ps) => ps
    case _ => []
  }

  /** `clean_poly`: a bare polygon becomes a one-member multi-polygon tagged with the
      importer's current SRID; anything else is returned as it is. The result is never a
      bare polygon and covers the same polygons as the argument. */
  function CleanPoly(poly: Geometry, srid: int): (r: Geometry)
    ensures !r.Polygon?
    ensures Parts(r) == Parts(poly)
    ensures poly.Polygon? ==> r.MultiPolygon? && r.srid == srid
    ensures !poly.Polygon? ==> r == poly
  {
    if poly.Polygon? then MultiPolygon(srid, [poly.rings]) else poly
  }

  lemma CleanPolyIdempotent(poly: Geometry, srid: int, srid': int)
    ensures CleanPoly(CleanPoly(poly, srid), srid') == CleanPoly(poly, srid)
  {
  }

  // ----- strip_z_values -----

  /** A three-element position loses its last element; anything else is left alone. */
  function DropZ(p: Json): (r: Json)
    ensures p.Arr? && |p.items| == 3 ==> r == Arr(p.items[..2])
    ensures !(p.Arr? && |p.items| == 3) ==> r == p
  {
    if p.Arr? && |p.items| == 3 then Arr(p.items[..2]) else p
  }

  function DropZAll(ps: seq<Json>): (r: seq<Json>)
    ensures |r| == |ps|
    ensures forall k :: 0 <= k < |ps| ==> r[k] == DropZ(ps[k])
    decreases |ps|
  {
    if ps == [] then [] else [DropZ(ps[0])] + DropZAll(ps[1..])
  }

  /** The shape `strip_z_values` needs to get through without a Python error: coordinates whose
      first element is a non-empty array whose first element (the outer ring) is an array of arrays. */
  predicate StripZApplies(g: GeoJson) {
    && g.coordinates.Arr?
    && |g.coordinates.items| > 0
    && g.coordinates.items[0].Arr?
    && |g.coordinates.items[0].items| > 0
    && g.coordinates.items[0].items[0].Arr?
    && forall k :: 0 <= k < |g.coordinates.items[0].items[0].items| ==> g.coordinates.items[0].items[0].items[k].Arr?
  }

  /** `strip_z_values` on a parsed multi-polygon: the result is a `Polygon` whose rings are the
      first polygon's rings; in the outer ring every three-element position loses its altitude and
      every other position is kept, in the same order; inner rings are kept as they are, and every
      polygon after the first is dropped. */
  function StripZ(g: GeoJson): (r: Result<GeoJson>)
    ensures r.Ok? <==> StripZApplies(g)
    ensures r.Err? ==> r.error == GeometryError
    ensures r.Ok? ==>
      var first := g.coordinates.items[0].items;
      var outer := first[0].items;
      && r.value.kind == "Polygon"
      && r.value.coordinates.Arr?
      && |r.value.coordinates.items| == |first|
      && r.value.coordinates.items[1..] == first[1..]
      && r.value.coordinates.items[0].Arr?
      && |r.value.coordinates.items[0].items| == |outer|
      && forall k :: 0 <= k < |outer| ==> r.value.coordinates.items[0].items[k] == DropZ(outer[k])
  {
    if StripZApplies(g) then
      var first := g.coordinates.items[0].items;
      Ok(GeoJson("Polygon", Arr([Arr(DropZAll(first[0].items))] + first[1..])))
    else Err(GeometryError)
  }

  /** After z-stripping and parsing, every position of the outer ring has exactly two
      coordinates: the first two of the source position. */
  lemma StrippedOuterRingIs2D(g: GeoJson, srid: int)
    requires StripZ(g).Ok? && FromGeoJson(StripZ(g).value, srid).Ok?
    ensures var a := FromGeoJson(StripZ(g).value, srid).value;
      var outer := g.coordinates.items[0].items[0].items;
      && a.Polygon? && |a.rings| >= 1 && |a.rings[0]| == |outer|
      && forall k :: 0 <= k < |outer| ==> |a.rings[0][k]| == 2 && PositionJson(a.rings[0][k]) == Arr(outer[k].items[..2])
  {
    var h := StripZ(g).value;
    var a := FromGeoJson(h, srid).value;
    var outer := g.coordinates.items[0].items[0].items;
    assert RingsOf(h.coordinates) == Some(a.rings);
    var ring0 := h.coordinates.items[0];
    assert PositionsOf(ring0) == Some(a.rings[0]);
    forall k | 0 <= k < |outer|
      ensures |a.rings[0][k]| == 2 && PositionJson(a.rings[0][k]) == Arr(outer[k].items[..2])
    {
      assert PositionOf(ring0.items[k]) == Some(a.rings[0][k]);
      assert ring0.items[k] == DropZ(outer[k]);
      PositionWritesBack(ring0.items[k]);
    }
  }
}
