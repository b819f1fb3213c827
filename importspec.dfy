/** What a base-importer run does, as functions of the tables before the run and of
    what the readers and mappers produce: the per-record steps of each reader variant,
    the upsert loops, and `handle`'s purge / locate / import order. The methods of
    `Importer.BaseImporter` are proved to change the tables exactly as these say. */
module ImportSpec {
  import opened Results
  import opened Text
  import opened Geometry
  import opened Records
  import opened Persistence

  /** The SRID the KML district mapper builds its polygons with. */
  const KmlSrid := 4326

  datatype RunState = RunState(db: Db, outcome: Outcome)

  // ----- Filling in the council -----

  /** `if 'council' not in info: info['council'] = council`. */
  function FillDistrictCouncil(info: DistrictInfo, c: CouncilId): (r: DistrictInfo)
    ensures r.council == Some(info.council.GetOr(c))
    ensures r.(council := info.council) == info
  {
    if info.council.None? then info.(council := Some(c)) else info
  }

  function FillStationCouncil(info: StationInfo, c: CouncilId): (r: StationInfo)
    ensures r.council == Some(info.council.GetOr(c))
    ensures r.(council := info.council) == info
  {
    if info.council.None? then info.(council := Some(c)) else info
  }

  // ----- Per-record steps of each reader variant -----

  /** One shapefile district: map the attribute record, fill in the council, then build the
      area from the shape's GeoJSON with the importer's SRID and promote it with `clean_poly`. */
  function ShpDistrictStep(c: CouncilId, srid: int, sr: ShapeRecord, mapper: Record -> Result<DistrictInfo>)
    : Result<DistrictInfo>
  {
    match mapper(sr.record)
    case Err(e) => Err(e)
    case Ok(info) =>
      match FromGeoJson(sr.shape.geoInterface, srid)
      case Err(e) => Err(e)
      case Ok(g) => Ok(FillDistrictCouncil(info, c).(area := Some(CleanPoly(g, srid))))
  }

  /** One geo-document district feature: as for shapefiles, with the feature's own
      `geometry` member, which may be missing. */
  function JasonDistrictStep(c: CouncilId, srid: int, feature: Row, mapper: Row -> Result<DistrictInfo>)
    : Result<DistrictInfo>
  {
    match mapper(feature)
    case Err(e) => Err(e)
    case Ok(info) =>
      match feature.geometry
      case None => Err(MissingField("geometry"))
      case Some(geo) =>
        match FromGeoJson(geo, srid)
        case Err(e) => Err(e)
        case Ok(g) => Ok(FillDistrictCouncil(info, c).(area := Some(CleanPoly(g, srid))))
  }

  /** The KML district mapper: strip the altitudes, build the polygon with SRID 4326,
      promote it, and use the `Name` attribute as both the id and the name. */
  function KmlDistrictInfo(row: Row): (r: Result<DistrictInfo>)
    ensures r.Ok? ==>
      && row.geometry.Some? && "Name" in row.fields
      && r.value.internalCouncilId == Some(row.fields["Name"])
      && r.value.name == row.fields["Name"]
      && r.value.area.Some? && r.value.area.value.MultiPolygon? && r.value.area.value.srid == KmlSrid
      && |r.value.area.value.polygons| == 1
      && r.value.council.None? && r.value.pollingStationId.None?
  {
    match row.geometry
    case None => Err(GeometryError)
    case Some(geo) =>
      match StripZ(geo)
      case Err(e) => Err(e)
      case Ok(stripped) =>
        match FromGeoJson(stripped, KmlSrid)
        case Err(e) => Err(e)
        case Ok(poly) =>
          assert poly.Polygon? by { assert ToGeoJson(poly).kind == "Polygon"; }
          var area := CleanPoly(poly, KmlSrid);
          match Field(row.fields, "Name")
          case Err(e) => Err(e)
          case Ok(name) => Ok(DistrictInfo(None, Some(name), name, Some(area), None))
  }

  /** When the KML district mapper succeeds: exactly when the feature has a geometry that
      z-strips and builds in SRID 4326, and a `Name` field. A geometry that does not get that
      far is a geometry error; a good geometry without `Name` is a missing field. */
  lemma KmlDistrictInfoOutcome(row: Row)
    ensures var r := KmlDistrictInfo(row);
      var built := row.geometry.Some? && StripZ(row.geometry.value).Ok?
                   && FromGeoJson(StripZ(row.geometry.value).value, KmlSrid).Ok?;
      && (r.Ok? <==> built && "Name" in row.fields)
      && (!built ==> r == Err(GeometryError))
      && (built && "Name" !in row.fields ==> r == Err(MissingField("Name")))
  {
  }

  /** The KML district's single polygon has the source's first polygon's rings: every
      position of its outer ring has exactly the source position's first two coordinates,
      and every inner ring writes back to the source's inner ring as it was. */
  lemma KmlAreaIsFlat(row: Row)
    requires KmlDistrictInfo(row).Ok?
    ensures var geo := row.geometry.value;
      var area := KmlDistrictInfo(row).value.area.value;
      var outer := geo.coordinates.items[0].items[0].items;
      && StripZApplies(geo)
      && |area.polygons[0]| == |geo.coordinates.items[0].items|
      && |area.polygons[0][0]| == |outer|
      && (forall k :: 0 <= k < |outer| ==>
            |area.polygons[0][0][k]| == 2 && PositionJson(area.polygons[0][0][k]) == Arr(outer[k].items[..2]))
      && (forall j :: 1 <= j < |area.polygons[0]| ==>
            PositionsJson(area.polygons[0][j]) == geo.coordinates.items[0].items[j])
  {
    var geo := row.geometry.value;
    StrippedOuterRingIs2D(geo, KmlSrid);
    var stripped := StripZ(geo).value;
    var poly := FromGeoJson(stripped, KmlSrid).value;
    assert RingsOf(stripped.coordinates) == Some(poly.rings);
    assert KmlDistrictInfo(row).value.area.value.polygons[0] == poly.rings;
    var first := geo.coordinates.items[0].items;
    assert RingsJson(poly.rings) == stripped.coordinates;
    ListJsonAt(poly.rings, PositionsJson);
    forall j | 1 <= j < |poly.rings| ensures PositionsJson(poly.rings[j]) == first[j] {
      assert stripped.coordinates.items[1..][j - 1] == first[1..][j - 1];
    }
  }

  function KmlDistrictStep(c: CouncilId, row: Row): Result<DistrictInfo> {
    match KmlDistrictInfo(row)
    case Err(e) => Err(e)
    case Ok(info) => Ok(FillDistrictCouncil(info, c))
  }

  /** One delimited-text station row: a mapper result of `None` is kept as `None` (the row
      is skipped); otherwise the council is filled in. */
  function CsvStationStep(c: CouncilId, row: Record, mapper: Record -> Result<Option<StationInfo>>)
    : Result<Option<StationInfo>>
  {
    match mapper(row)
    case Err(e) => Err(e)
    case Ok(None) => Ok(None)
    case Ok(Some(info)) => Ok(Some(FillStationCouncil(info, c)))
  }

  /** One shapefile station: the location is the shape's first point, tagged with the
      importer's SRID; a shape without points is an error. */
  function ShpStationStep(c: CouncilId, srid: int, sr: ShapeRecord, mapper: Record -> Result<StationInfo>)
    : Result<Option<StationInfo>>
  {
    match mapper(sr.record)
    case Err(e) => Err(e)
    case Ok(info) =>
      if sr.shape.points == [] then Err(GeometryError)
      else Ok(Some(FillStationCouncil(info, c).(location := Some(Point(srid, sr.shape.points[0])))))
  }

  // ----- Reader variants -----

  /** What the districts file holds: a KML document's features, or a zip archive of them. */
  datatype KmlFile = KmlDocument(features: seq<Row>) | KmzArchive(entries: map<string, seq<Row>>)

  datatype DistrictFeed =
    | ShpDistricts(shapes: seq<ShapeRecord>, shpMapper: Record -> Result<DistrictInfo>)
    | JasonDistricts(features: seq<Row>, jsonMapper: Row -> Result<DistrictInfo>)
    | KmlDistricts(districtsName: string, file: KmlFile)

  datatype StationFeed =
    | CsvStations(rows: seq<Record>, csvMapper: Record -> Result<Option<StationInfo>>)
    | ShpStations(stationShapes: seq<ShapeRecord>, shpStationMapper: Record -> Result<StationInfo>)

  /** The `.kmz` dispatch: a name ending `.kmz` is opened as an archive and its `doc.kml`
      entry read; any other name is read directly as KML. */
  function KmlFeatures(districtsName: string, file: KmlFile): (r: Result<seq<Row>>)
    ensures EndsWith(districtsName, ".kmz") ==>
      && (r.Ok? <==> file.KmzArchive? && "doc.kml" in file.entries)
      && (r.Ok? ==> r.value == file.entries["doc.kml"])
      && (file.KmzArchive? && "doc.kml" !in file.entries ==> r == Err(NotFound("doc.kml")))
    ensures !EndsWith(districtsName, ".kmz") ==>
      && (r.Ok? <==> file.KmlDocument?)
      && (r.Ok? ==> r.value == file.features)
  {
    if EndsWith(districtsName, ".kmz") then
      match file
      case KmlDocument(_) => Err(Unreadable(districtsName))
      case KmzArchive(entries) =>
        if "doc.kml" in entries then Ok(entries["doc.kml"]) else Err(NotFound("doc.kml"))
    else
      match file
      case KmlDocument(features) => Ok(features)
      case KmzArchive(_) => Err(Unreadable(districtsName))
  }

  function ShpDistrictSteps(c: CouncilId, srid: int, shapes: seq<ShapeRecord>, mapper: Record -> Result<DistrictInfo>)
    : (s: seq<Result<DistrictInfo>>)
    ensures |s| == |shapes| && forall i :: 0 <= i < |shapes| ==> s[i] == ShpDistrictStep(c, srid, shapes[i], mapper)
  {
    seq(|shapes|, i requires 0 <= i < |shapes| => ShpDistrictStep(c, srid, shapes[i], mapper))
  }

  function JasonDistrictSteps(c: CouncilId, srid: int, features: seq<Row>, mapper: Row -> Result<DistrictInfo>)
    : (s: seq<Result<DistrictInfo>>)
    ensures |s| == |features| && forall i :: 0 <= i < |features| ==> s[i] == JasonDistrictStep(c, srid, features[i], mapper)
  {
    seq(|features|, i requires 0 <= i < |features| => JasonDistrictStep(c, srid, features[i], mapper))
  }

  function KmlDistrictSteps(c: CouncilId, rows: seq<Row>): (s: seq<Result<DistrictInfo>>)
    ensures |s| == |rows| && forall i :: 0 <= i < |rows| ==> s[i] == KmlDistrictStep(c, rows[i])
  {
    seq(|rows|, i requires 0 <= i < |rows| => KmlDistrictStep(c, rows[i]))
  }

  function CsvStationSteps(c: CouncilId, rows: seq<Record>, mapper: Record -> Result<Option<StationInfo>>)
    : (s: seq<Result<Option<StationInfo>>>)
    ensures |s| == |rows| && forall i :: 0 <= i < |rows| ==> s[i] == CsvStationStep(c, rows[i], mapper)
  {
    seq(|rows|, i requires 0 <= i < |rows| => CsvStationStep(c, rows[i], mapper))
  }

  function ShpStationSteps(c: CouncilId, srid: int, shapes: seq<ShapeRecord>, mapper: Record -> Result<StationInfo>)
    : (s: seq<Result<Option<StationInfo>>>)
    ensures |s| == |shapes| && forall i :: 0 <= i < |shapes| ==> s[i] == ShpStationStep(c, srid, shapes[i], mapper)
  {
    seq(|shapes|, i requires 0 <= i < |shapes| => ShpStationStep(c, srid, shapes[i], mapper))
  }

  // ----- The upsert loops -----

  /** Upsert the districts in order; the first failing record ends the loop, and what was
      written before it stays written. */
  function ImportDistrictInfos(db: Db, c: CouncilId, infos: seq<Result<DistrictInfo>>): RunState
    decreases |infos|
  {
    if infos == [] then RunState(db, Done)
    else match infos[0]
      case Err(e) => RunState(db, Failed(e))
      case Ok(info) => ImportDistrictInfos(UpsertDistrict(db, c, info), c, infos[1..])
  }

  /** Upsert the stations in order, skipping `None`; a failing record or a station without
      an id ends the loop, and what was written before it stays written. */
  function ImportStationInfos(db: Db, c: CouncilId, infos: seq<Result<Option<StationInfo>>>): RunState
    decreases |infos|
  {
    if infos == [] then RunState(db, Done)
    else match infos[0]
      case Err(e) => RunState(db, Failed(e))
      case Ok(None) => ImportStationInfos(db, c, infos[1..])
      case Ok(Some(info)) =>
        match UpsertStation(db, c, info)
        case Err(e) => RunState(db, Failed(e))
        case Ok(db') => ImportStationInfos(db', c, infos[1..])
  }

  function ImportDistrictsSpec(db: Db, c: CouncilId, srid: int, feed: DistrictFeed): RunState {
    match feed
    case ShpDistricts(shapes, mapper) => ImportDistrictInfos(db, c, ShpDistrictSteps(c, srid, shapes, mapper))
    case JasonDistricts(features, mapper) => ImportDistrictInfos(db, c, JasonDistrictSteps(c, srid, features, mapper))
    case KmlDistricts(name, file) =>
      match KmlFeatures(name, file)
      case Err(e) => RunState(db, Failed(e))
      case Ok(rows) => ImportDistrictInfos(db, c, KmlDistrictSteps(c, rows))
  }

  function ImportStationsSpec(db: Db, c: CouncilId, srid: int, feed: StationFeed): RunState {
    match feed
    case CsvStations(rows, mapper) => ImportStationInfos(db, c, CsvStationSteps(c, rows, mapper))
    case ShpStations(shapes, mapper) => ImportStationInfos(db, c, ShpStationSteps(c, srid, shapes, mapper))
  }

  /** `import_data`: districts first, then, unless they failed, stations. */
  function ImportDataSpec(db: Db, c: CouncilId, srid: int, districts: DistrictFeed, stations: StationFeed): RunState {
    var afterDistricts := ImportDistrictsSpec(db, c, srid, districts);
    if afterDistricts.outcome.Failed? then afterDistricts
    else ImportStationsSpec(afterDistricts.db, c, srid, stations)
  }

  // ----- handle -----

  /** Whether a directory entry matches the glob `{councilId}-*`. */
  predicate MatchesFolder(councilId: CouncilId, name: string) {
    StartsWith(name, councilId + "-")
  }

  /** `glob('data/{council_id}-*')[0]`: the first matching entry of the data directory,
      in listing order; none when nothing matches. */
  function LocateFolder(councilId: CouncilId, listing: seq<string>): (r: Option<nat>)
    ensures r.Some? ==>
      && r.value < |listing| && MatchesFolder(councilId, listing[r.value])
      && forall k :: 0 <= k < r.value ==> !MatchesFolder(councilId, listing[k])
    ensures r.None? ==> forall k :: 0 <= k < |listing| ==> !MatchesFolder(councilId, listing[k])
    decreases |listing|
  {
    if listing == [] then None
    else if MatchesFolder(councilId, listing[0]) then Some(0)
    else match LocateFolder(councilId, listing[1..])
      case None => None
      case Some(k) => Some(k + 1)
  }

  /** `handle`: look the council up, delete all its stations and districts, then locate its
      data folder and import from it. */
  function HandleSpec(db: Db, councilId: CouncilId, known: set<CouncilId>, listing: seq<string>, srid: int,
                      districts: DistrictFeed, stations: StationFeed): RunState
  {
    if councilId !in known then RunState(db, Failed(UnknownCouncil(councilId)))
    else
      var purged := Purge(db, councilId);
      match LocateFolder(councilId, listing)
      case None => RunState(purged, Failed(NotFound("data/" + councilId + "-*")))
      case Some(_) => ImportDataSpec(purged, councilId, srid, districts, stations)
  }

  // ----- What the loops keep and what they write -----

  /** The district loop writes only under council `c` and never touches stations. */
  lemma {:induction false} ImportDistrictInfosFrame(db: Db, c: CouncilId, infos: seq<Result<DistrictInfo>>)
    ensures var s := ImportDistrictInfos(db, c, infos);
      Purge(s.db, c) == Purge(db, c) && s.db.stations == db.stations
    decreases |infos|
  {
    if infos != [] && infos[0].Ok? {
      ImportDistrictInfosFrame(UpsertDistrict(db, c, infos[0].value), c, infos[1..]);
      PurgeAfterUpsertDistrict(db, c, infos[0].value);
    }
  }

  /** The station loop writes only under council `c` and never touches districts. */
  lemma {:induction false} ImportStationInfosFrame(db: Db, c: CouncilId, infos: seq<Result<Option<StationInfo>>>)
    ensures var s := ImportStationInfos(db, c, infos);
      Purge(s.db, c) == Purge(db, c) && s.db.districts == db.districts
    decreases |infos|
  {
    if infos != [] && infos[0].Ok? {
      match infos[0].value
      case None => ImportStationInfosFrame(db, c, infos[1..]);
      case Some(info) =>
        if info.internalCouncilId.Some? {
          ImportStationInfosFrame(UpsertStation(db, c, info).value, c, infos[1..]);
          PurgeAfterUpsertStation(db, c, info);
        }
    }
  }

  /** The district loop succeeds exactly when every record mapped without error. */
  lemma {:induction false} ImportDistrictInfosDone(db: Db, c: CouncilId, infos: seq<Result<DistrictInfo>>)
    ensures ImportDistrictInfos(db, c, infos).outcome.Done? <==> forall i :: 0 <= i < |infos| ==> infos[i].Ok?
    decreases |infos|
  {
    if infos != [] {
      assert forall i :: 1 <= i < |infos| ==> infos[i] == infos[1..][i - 1];
      if infos[0].Ok? {
        ImportDistrictInfosDone(UpsertDistrict(db, c, infos[0].value), c, infos[1..]);
      }
    }
  }

  /** After a successful district loop the table holds the old entries plus one entry per
      district key met; a key holds the last district written under it, and keys that no
      record named keep their old dict. */
  lemma {:induction false} ImportDistrictInfosStored(db: Db, c: CouncilId, infos: seq<Result<DistrictInfo>>)
    requires forall i :: 0 <= i < |infos| ==> infos[i].Ok?
    ensures var r := ImportDistrictInfos(db, c, infos).db.districts;
      && (forall k :: k in r <==> k in db.districts || exists i :: 0 <= i < |infos| && DistrictKey(c, infos[i].value) == k)
      && (forall i :: 0 <= i < |infos| && (forall j :: i < j < |infos| ==> DistrictKey(c, infos[j].value) != DistrictKey(c, infos[i].value))
            ==> r[DistrictKey(c, infos[i].value)] == infos[i].value)
      && (forall k :: k in db.districts && (forall i :: 0 <= i < |infos| ==> DistrictKey(c, infos[i].value) != k)
            ==> r[k] == db.districts[k])
    decreases |infos|
  {
    if infos != [] {
      var tail := infos[1..];
      assert forall i :: 1 <= i < |infos| ==> infos[i] == tail[i - 1];
      var key0 := DistrictKey(c, infos[0].value);
      var db' := UpsertDistrict(db, c, infos[0].value);
      ImportDistrictInfosStored(db', c, tail);
      var r := ImportDistrictInfos(db, c, infos).db.districts;
      assert r == ImportDistrictInfos(db', c, tail).db.districts;
      forall k ensures k in r <==> k in db.districts || exists i :: 0 <= i < |infos| && DistrictKey(c, infos[i].value) == k {
        if exists i :: 0 <= i < |tail| && DistrictKey(c, tail[i].value) == k {
          var i :| 0 <= i < |tail| && DistrictKey(c, tail[i].value) == k;
          assert DistrictKey(c, infos[i + 1].value) == k;
        }
        if exists i :: 0 <= i < |infos| && DistrictKey(c, infos[i].value) == k {
          var i :| 0 <= i < |infos| && DistrictKey(c, infos[i].value) == k;
          if i > 0 {
            assert DistrictKey(c, tail[i - 1].value) == k;
          }
        }
      }
      forall i | 0 <= i < |infos| && (forall j :: i < j < |infos| ==> DistrictKey(c, infos[j].value) != DistrictKey(c, infos[i].value))
        ensures r[DistrictKey(c, infos[i].value)] == infos[i].value
      {
        if i == 0 {
          forall j | 0 <= j < |tail| ensures DistrictKey(c, tail[j].value) != key0 {
            assert tail[j] == infos[j + 1];
          }
        } else {
          forall j | i - 1 < j < |tail| ensures DistrictKey(c, tail[j].value) != DistrictKey(c, tail[i - 1].value) {
            assert tail[j] == infos[j + 1];
          }
        }
      }
      forall k | k in db.districts && (forall i :: 0 <= i < |infos| ==> DistrictKey(c, infos[i].value) != k)
        ensures r[k] == db.districts[k]
      {
        assert DistrictKey(c, infos[0].value) != k;
        forall i | 0 <= i < |tail| ensures DistrictKey(c, tail[i].value) != k {
          assert tail[i] == infos[i + 1];
        }
      }
    }
  }

  /** The key a station record is written under, if it is written at all. */
  function StationKeyOf(c: CouncilId, x: Result<Option<StationInfo>>): Option<Key> {
    if x.Ok? && x.value.Some? && x.value.value.internalCouncilId.Some?
    then Some(Key(c, x.value.value.internalCouncilId.value))
    else None
  }

  /** The station loop succeeds exactly when every record mapped without error and every
      station it did not skip has an id. */
  lemma {:induction false} ImportStationInfosDone(db: Db, c: CouncilId, infos: seq<Result<Option<StationInfo>>>)
    ensures ImportStationInfos(db, c, infos).outcome.Done? <==>
      forall i :: 0 <= i < |infos| ==> infos[i].Ok? && (infos[i].value.Some? ==> infos[i].value.value.internalCouncilId.Some?)
    decreases |infos|
  {
    if infos != [] {
      assert forall i :: 1 <= i < |infos| ==> infos[i] == infos[1..][i - 1];
      if infos[0].Ok? {
        match infos[0].value
        case None => ImportStationInfosDone(db, c, infos[1..]);
        case Some(info) =>
          if info.internalCouncilId.Some? {
            ImportStationInfosDone(UpsertStation(db, c, info).value, c, infos[1..]);
          }
      }
    }
  }

  /** After a successful station loop the table holds the old entries plus one entry per
      station key met (skipped records add nothing); a key holds the last station written
      under it, and keys that no record named keep their old dict. */
  lemma {:induction false} ImportStationInfosStored(db: Db, c: CouncilId, infos: seq<Result<Option<StationInfo>>>)
    requires ImportStationInfos(db, c, infos).outcome.Done?
    ensures var r := ImportStationInfos(db, c, infos).db.stations;
      && (forall k :: k in r <==> k in db.stations || exists i :: 0 <= i < |infos| && StationKeyOf(c, infos[i]) == Some(k))
      && (forall i :: 0 <= i < |infos| && StationKeyOf(c, infos[i]).Some? &&
                     (forall j :: i < j < |infos| ==> StationKeyOf(c, infos[j]) != StationKeyOf(c, infos[i]))
            ==> r[StationKeyOf(c, infos[i]).value] == infos[i].value.value)
      && (forall k :: k in db.stations && (forall i :: 0 <= i < |infos| ==> StationKeyOf(c, infos[i]) != Some(k))
            ==> r[k] == db.stations[k])
    decreases |infos|
  {
    if infos != [] {
      var tail := infos[1..];
      assert forall i :: 1 <= i < |infos| ==> infos[i] == tail[i - 1];
      var key0 := StationKeyOf(c, infos[0]);
      var db' := if key0.Some? then UpsertStation(db, c, infos[0].value.value).value else db;
      assert ImportStationInfos(db, c, infos) == ImportStationInfos(db', c, tail);
      ImportStationInfosStored(db', c, tail);
      var r := ImportStationInfos(db, c, infos).db.stations;
      forall k ensures k in r <==> k in db.stations || exists i :: 0 <= i < |infos| && StationKeyOf(c, infos[i]) == Some(k) {
        if exists i :: 0 <= i < |tail| && StationKeyOf(c, tail[i]) == Some(k) {
          var i :| 0 <= i < |tail| && StationKeyOf(c, tail[i]) == Some(k);
          assert StationKeyOf(c, infos[i + 1]) == Some(k);
        }
        if exists i :: 0 <= i < |infos| && StationKeyOf(c, infos[i]) == Some(k) {
          var i :| 0 <= i < |infos| && StationKeyOf(c, infos[i]) == Some(k);
          if i > 0 {
            assert StationKeyOf(c, tail[i - 1]) == Some(k);
          }
        }
      }
      forall i | 0 <= i < |infos| && StationKeyOf(c, infos[i]).Some? &&
                 (forall j :: i < j < |infos| ==> StationKeyOf(c, infos[j]) != StationKeyOf(c, infos[i]))
        ensures r[StationKeyOf(c, infos[i]).value] == infos[i].value.value
      {
        if i == 0 {
          forall j | 0 <= j < |tail| ensures StationKeyOf(c, tail[j]) != key0 {
            assert tail[j] == infos[j + 1];
          }
        } else {
          forall j | i - 1 < j < |tail| ensures StationKeyOf(c, tail[j]) != StationKeyOf(c, tail[i - 1]) {
            assert tail[j] == infos[j + 1];
          }
        }
      }
      forall k | k in db.stations && (forall i :: 0 <= i < |infos| ==> StationKeyOf(c, infos[i]) != Some(k))
        ensures r[k] == db.stations[k]
      {
        assert StationKeyOf(c, infos[0]) != Some(k);
        forall i | 0 <= i < |tail| ensures StationKeyOf(c, tail[i]) != Some(k) {
          assert tail[i] == infos[i + 1];
        }
      }
    }
  }

  /** `import_polling_stations` keeps a council the mapper supplied and fills in the run's
      council only when the mapped dict has none; every other field is the mapper's. */
  lemma CsvStationsKeepMapperCouncil(db: Db, c: CouncilId, rows: seq<Record>, mapper: Record -> Result<Option<StationInfo>>,
                                     i: nat)
    requires ImportStationsSpec(db, c, 0, CsvStations(rows, mapper)).outcome.Done?
    requires i < |rows|
    requires mapper(rows[i]).Ok? && mapper(rows[i]).value.Some?
    requires forall j :: i < j < |rows| ==>
      StationKeyOf(c, CsvStationStep(c, rows[j], mapper)) != StationKeyOf(c, CsvStationStep(c, rows[i], mapper))
    ensures var info := mapper(rows[i]).value.value;
      var stored := ImportStationsSpec(db, c, 0, CsvStations(rows, mapper)).db.stations;
      && info.internalCouncilId.Some?
      && Key(c, info.internalCouncilId.value) in stored
      && stored[Key(c, info.internalCouncilId.value)].council == Some(info.council.GetOr(c))
      && stored[Key(c, info.internalCouncilId.value)].(council := info.council) == info
  {
    var infos := CsvStationSteps(c, rows, mapper);
    ImportStationInfosDone(db, c, infos);
    assert infos[i].Ok?;
    ImportStationInfosStored(db, c, infos);
    assert StationKeyOf(c, infos[i]).Some?;
  }

  /** Each district reader writes only under the run's council and leaves stations alone. */
  lemma ImportDistrictsFrame(db: Db, c: CouncilId, srid: int, districts: DistrictFeed)
    ensures var s := ImportDistrictsSpec(db, c, srid, districts);
      Purge(s.db, c) == Purge(db, c) && s.db.stations == db.stations
  {
    match districts
    case ShpDistricts(shapes, mapper) => ImportDistrictInfosFrame(db, c, ShpDistrictSteps(c, srid, shapes, mapper));
    case JasonDistricts(features, mapper) => ImportDistrictInfosFrame(db, c, JasonDistrictSteps(c, srid, features, mapper));
    case KmlDistricts(name, file) =>
      if KmlFeatures(name, file).Ok? {
        ImportDistrictInfosFrame(db, c, KmlDistrictSteps(c, KmlFeatures(name, file).value));
      }
  }

  /** Each station reader writes only under the run's council and leaves districts alone. */
  lemma ImportStationsFrame(db: Db, c: CouncilId, srid: int, stations: StationFeed)
    ensures var s := ImportStationsSpec(db, c, srid, stations);
      Purge(s.db, c) == Purge(db, c) && s.db.districts == db.districts
  {
    match stations
    case CsvStations(rows, mapper) => ImportStationInfosFrame(db, c, CsvStationSteps(c, rows, mapper));
    case ShpStations(shapes, mapper) => ImportStationInfosFrame(db, c, ShpStationSteps(c, srid, shapes, mapper));
  }

  /** `import_data` writes only under the run's council. */
  lemma ImportDataFrame(db: Db, c: CouncilId, srid: int, districts: DistrictFeed, stations: StationFeed)
    ensures Purge(ImportDataSpec(db, c, srid, districts, stations).db, c) == Purge(db, c)
  {
    ImportDistrictsFrame(db, c, srid, districts);
    ImportStationsFrame(ImportDistrictsSpec(db, c, srid, districts).db, c, srid, stations);
  }

  /** Replace on reimport: what a run leaves behind does not depend on the council's data
      before the run, only on the other councils' data (which it keeps) and on the sources. */
  lemma HandleForgetsOldData(db1: Db, db2: Db, councilId: CouncilId, known: set<CouncilId>, listing: seq<string>, srid: int,
                             districts: DistrictFeed, stations: StationFeed)
    requires councilId in known
    requires Purge(db1, councilId) == Purge(db2, councilId)
    ensures HandleSpec(db1, councilId, known, listing, srid, districts, stations)
         == HandleSpec(db2, councilId, known, listing, srid, districts, stations)
  {
  }

  /** Running the same import twice in a row gives the same tables and the same outcome. */
  lemma HandleIdempotent(db: Db, councilId: CouncilId, known: set<CouncilId>, listing: seq<string>, srid: int,
                         districts: DistrictFeed, stations: StationFeed)
    ensures var once := HandleSpec(db, councilId, known, listing, srid, districts, stations);
      HandleSpec(once.db, councilId, known, listing, srid, districts, stations) == once
  {
    if councilId in known {
      var purged := Purge(db, councilId);
      var once := HandleSpec(db, councilId, known, listing, srid, districts, stations);
      PurgeIdempotent(db, councilId);
      if LocateFolder(councilId, listing).Some? {
        ImportDataFrame(purged, councilId, srid, districts, stations);
      }
      assert Purge(once.db, councilId) == purged;
      HandleForgetsOldData(once.db, db, councilId, known, listing, srid, districts, stations);
    }
  }

  /** Without a data folder the run fails after the purge: the council is left with no
      districts and no stations, and every other council keeps its data. */
  lemma HandleWithoutFolder(db: Db, councilId: CouncilId, known: set<CouncilId>, listing: seq<string>, srid: int,
                            districts: DistrictFeed, stations: StationFeed)
    requires councilId in known
    requires forall k :: 0 <= k < |listing| ==> !MatchesFolder(councilId, listing[k])
    ensures var s := HandleSpec(db, councilId, known, listing, srid, districts, stations);
      && s.outcome == Failed(NotFound("data/" + councilId + "-*"))
      && (forall k :: k in s.db.districts ==> k.council != councilId)
      && (forall k :: k in s.db.stations ==> k.council != councilId)
      && s.db == Purge(db, councilId)
  {
  }

  /** Districts run before stations: when the district import fails, the council ends the
      run without a single station. */
  lemma HandleDistrictFailureLeavesNoStations(db: Db, councilId: CouncilId, known: set<CouncilId>, listing: seq<string>,
                                              srid: int, districts: DistrictFeed, stations: StationFeed)
    requires councilId in known
    requires ImportDistrictsSpec(Purge(db, councilId), councilId, srid, districts).outcome.Failed?
    ensures var s := HandleSpec(db, councilId, known, listing, srid, districts, stations);
      s.outcome.Failed? && forall k :: k in s.db.stations ==> k.council != councilId
  {
    ImportDistrictsFrame(Purge(db, councilId), councilId, srid, districts);
  }

  /** A `.kmz` districts file without a `doc.kml` entry ends the run with `NotFound` right
      after the purge: the council is left with no districts and no stations. */
  lemma HandleKmzWithoutDocKml(db: Db, councilId: CouncilId, known: set<CouncilId>, listing: seq<string>, srid: int,
                               name: string, entries: map<string, seq<Row>>, stations: StationFeed)
    requires councilId in known
    requires LocateFolder(councilId, listing).Some?
    requires EndsWith(name, ".kmz") && "doc.kml" !in entries
    ensures var s := HandleSpec(db, councilId, known, listing, srid, KmlDistricts(name, KmzArchive(entries)), stations);
      && s.outcome == Failed(NotFound("doc.kml"))
      && (forall k :: k in s.db.districts ==> k.council != councilId)
      && (forall k :: k in s.db.stations ==> k.council != councilId)
  {
    assert KmlFeatures(name, KmzArchive(entries)) == Err(NotFound("doc.kml"));
  }

  /** An unknown council fails before anything is deleted. */
  lemma HandleUnknownCouncil(db: Db, councilId: CouncilId, known: set<CouncilId>, listing: seq<string>, srid: int,
                             districts: DistrictFeed, stations: StationFeed)
    requires councilId !in known
    ensures HandleSpec(db, councilId, known, listing, srid, districts, stations) == RunState(db, Failed(UnknownCouncil(councilId)))
  {
  }
}
