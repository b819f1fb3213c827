/** The base importer as the object the management command drives: its settings and
    the council it resolved are fields, and every write goes through the shared `Store`.
    Each reader loop is proved to leave the tables exactly as `ImportSpec` says. */
module Importer {
  import opened Results
  import opened Text
  import opened Geometry
  import opened Records
  import opened Persistence
  import opened ImportSpec

  class BaseImporter {
    /** The SRID raw geometries are tagged with and `clean_poly` promotes with. */
    var srid: int
    /** `_srid`: where the KML mapper parks `srid` while it builds a polygon. */
    var savedSrid: Option<int>
    /** The configured council id; `handle` takes it from the command line when it is unset. */
    var councilId: Option<CouncilId>
    /** The council every record of the current run is written under. */
    var council: CouncilId
    /** The data folder `handle` located. */
    var baseFolderPath: string
    const store: Store

    constructor(srid: int, councilId: Option<CouncilId>, store: Store)
      ensures this.srid == srid && this.councilId == councilId && this.store == store
      ensures savedSrid.None? && council == "" && baseFolderPath == ""
    {
      this.srid := srid;
      this.savedSrid := None;
      this.councilId := councilId;
      this.council := "";
      this.baseFolderPath := "";
      this.store := store;
    }

    /** `add_polling_district`: upsert under (the run's council, the dict's id or `none`). */
    method AddPollingDistrict(info: DistrictInfo)
      modifies store
      ensures store.db == UpsertDistrict(old(store.db), council, info)
    {
      store.db := UpsertDistrict(store.db, council, info);
    }

    /** `add_polling_station`: upsert under (the run's council, the dict's id); a dict
        without an id fails and writes nothing. */
    method AddPollingStation(info: StationInfo) returns (r: Outcome)
      modifies store
      ensures match UpsertStation(old(store.db), council, info)
        case Ok(db) => r == Done && store.db == db
        case Err(e) => r == Failed(e) && store.db == old(store.db)
    {
      var written := UpsertStation(store.db, council, info);
      match written
      case Err(e) => r := Failed(e);
      case Ok(db) => store.db := db; r := Done;
    }

    /** `BaseShpImporter.import_polling_districts`. */
    method ImportShpDistricts(shapes: seq<ShapeRecord>, mapper: Record -> Result<DistrictInfo>) returns (r: Outcome)
      modifies store
      ensures RunState(store.db, r) == ImportDistrictInfos(old(store.db), council, ShpDistrictSteps(council, srid, shapes, mapper))
    {
      ghost var steps := ShpDistrictSteps(council, srid, shapes, mapper);
      var i := 0;
      while i < |shapes|
        invariant 0 <= i <= |shapes|
        invariant ImportDistrictInfos(old(store.db), council, steps) == ImportDistrictInfos(store.db, council, steps[i..])
      {
        assert steps[i..][0] == steps[i] && steps[i..][1..] == steps[i + 1..];
        var district := shapes[i];
        var mapped := mapper(district.record);
        if mapped.Err? {
          return Failed(mapped.error);
        }
        var info := mapped.value;
        if info.council.None? {
          info := info.(council := Some(council));
        }
        var parsed := FromGeoJson(district.shape.geoInterface, srid);
        if parsed.Err? {
          return Failed(parsed.error);
        }
        info := info.(area := Some(CleanPoly(parsed.value, srid)));
        AddPollingDistrict(info);
        i := i + 1;
      }
      r := Done;
    }

    /** `BaseJasonImporter.import_polling_districts`. */
    method ImportJasonDistricts(features: seq<Row>, mapper: Row -> Result<DistrictInfo>) returns (r: Outcome)
      modifies store
      ensures RunState(store.db, r) == ImportDistrictInfos(old(store.db), council, JasonDistrictSteps(council, srid, features, mapper))
    {
      ghost var steps := JasonDistrictSteps(council, srid, features, mapper);
      var i := 0;
      while i < |features|
        invariant 0 <= i <= |features|
        invariant ImportDistrictInfos(old(store.db), council, steps) == ImportDistrictInfos(store.db, council, steps[i..])
      {
        assert steps[i..][0] == steps[i] && steps[i..][1..] == steps[i + 1..];
        var district := features[i];
        var mapped := mapper(district);
        if mapped.Err? {
          return Failed(mapped.error);
        }
        var info := mapped.value;
        if info.council.None? {
          info := info.(council := Some(council));
        }
        if district.geometry.None? {
          return Failed(MissingField("geometry"));
        }
        var parsed := FromGeoJson(district.geometry.value, srid);
        if parsed.Err? {
          return Failed(parsed.error);
        }
        info := info.(area := Some(CleanPoly(parsed.value, srid)));
        AddPollingDistrict(info);
        i := i + 1;
      }
      r := Done;
    }

    /** `BaseKamlImporter.strip_z_values`: walk the outer ring of the first polygon, cutting
        every three-element position down to two, then relabel the payload as a `Polygon`
        made of that polygon's rings. */
    method StripZValues(geo: GeoJson) returns (r: Result<GeoJson>)
      ensures r == StripZ(geo)
    {
      if !(&& geo.coordinates.Arr? && |geo.coordinates.items| > 0
           && geo.coordinates.items[0].Arr? && |geo.coordinates.items[0].items| > 0
           && geo.coordinates.items[0].items[0].Arr?) {
        return Err(GeometryError);
      }
      var polygon := geo.coordinates.items[0].items;
      var outer := polygon[0].items;
      var i := 0;
      while i < |outer|
        invariant 0 <= i <= |outer| == |polygon[0].items|
        invariant forall k :: 0 <= k < i ==> polygon[0].items[k].Arr? && outer[k] == DropZ(polygon[0].items[k])
        invariant outer[i..] == polygon[0].items[i..]
      {
        assert outer[i] == outer[i..][0];
        if outer[i].Num? {
          return Err(GeometryError);
        }
        if |outer[i].items| == 3 {
          outer := outer[i := Arr(outer[i].items[..2])];
        }
        assert outer[i + 1..] == outer[i..][1..];
        i := i + 1;
      }
      assert outer == DropZAll(polygon[0].items);
      r := Ok(GeoJson("Polygon", Arr([Arr(outer)] + polygon[1..])));
    }

    /** `BaseKamlImporter.district_record_to_dict`: strip the altitudes, switch `srid` to
        4326 while the polygon is built and promoted, switch it back, and read `Name`.
        A polygon that fails to build leaves `srid` at 4326. */
    method KmlDistrictRecordToDict(row: Row) returns (r: Result<DistrictInfo>)
      modifies this
      ensures r == KmlDistrictInfo(row)
      ensures council == old(council) && councilId == old(councilId) && baseFolderPath == old(baseFolderPath)
      ensures var reached := row.geometry.Some? && StripZ(row.geometry.value).Ok?;
        && savedSrid == (if reached then Some(old(srid)) else old(savedSrid))
        && srid == (if reached && FromGeoJson(StripZ(row.geometry.value).value, KmlSrid).Err? then KmlSrid else old(srid))
      ensures r.Ok? ==> srid == old(srid)
    {
      if row.geometry.None? {
        return Err(GeometryError);
      }
      var geojson := StripZValues(row.geometry.value);
      if geojson.Err? {
        return Err(geojson.error);
      }
      savedSrid := Some(srid);
      srid := KmlSrid;
      var parsed := FromGeoJson(geojson.value, srid);
      if parsed.Err? {
        return Err(parsed.error);
      }
      var poly := CleanPoly(parsed.value, srid);
      srid := savedSrid.value;
      var name := Field(row.fields, "Name");
      if name.Err? {
        return Err(name.error);
      }
      r := Ok(DistrictInfo(None, Some(name.value), name.value, Some(poly), None));
    }

    /** `BaseKamlImporter.import_polling_districts`: read the layer directly, or out of the
        archive's `doc.kml` when the name ends `.kmz`, then map and upsert each feature. */
    method ImportKmlDistricts(districtsName: string, file: KmlFile) returns (r: Outcome)
      modifies this, store
      ensures RunState(store.db, r) == ImportDistrictsSpec(old(store.db), council, old(srid), KmlDistricts(districtsName, file))
      ensures council == old(council) && councilId == old(councilId) && baseFolderPath == old(baseFolderPath)
      ensures r.Done? ==> srid == old(srid)
    {
      var features := KmlFeatures(districtsName, file);
      if features.Err? {
        return Failed(features.error);
      }
      var rows := features.value;
      ghost var steps := KmlDistrictSteps(council, rows);
      var i := 0;
      while i < |rows|
        invariant 0 <= i <= |rows|
        invariant council == old(council) && councilId == old(councilId) && baseFolderPath == old(baseFolderPath)
        invariant srid == old(srid)
        invariant ImportDistrictInfos(old(store.db), council, steps) == ImportDistrictInfos(store.db, council, steps[i..])
      {
        assert steps[i..][0] == steps[i] && steps[i..][1..] == steps[i + 1..];
        var mapped := KmlDistrictRecordToDict(rows[i]);
        if mapped.Err? {
          return Failed(mapped.error);
        }
        var info := mapped.value;
        if info.council.None? {
          info := info.(council := Some(council));
        }
        AddPollingDistrict(info);
        i := i + 1;
      }
      r := Done;
    }

    /** `BaseImporter.import_polling_stations`: map each delimited-text row, skip the rows
        the mapper drops, fill in the council and upsert. */
    method ImportPollingStations(rows: seq<Record>, mapper: Record -> Result<Option<StationInfo>>) returns (r: Outcome)
      modifies store
      ensures RunState(store.db, r) == ImportStationInfos(old(store.db), council, CsvStationSteps(council, rows, mapper))
    {
      ghost var steps := CsvStationSteps(council, rows, mapper);
      var i := 0;
      while i < |rows|
        invariant 0 <= i <= |rows|
        invariant ImportStationInfos(old(store.db), council, steps) == ImportStationInfos(store.db, council, steps[i..])
      {
        assert steps[i..][0] == steps[i] && steps[i..][1..] == steps[i + 1..];
        var mapped := mapper(rows[i]);
        if mapped.Err? {
          return Failed(mapped.error);
        }
        if mapped.value.Some? {
          var info := mapped.value.value;
          if info.council.None? {
            info := info.(council := Some(council));
          }
          var added := AddPollingStation(info);
          if added.Failed? {
            return added;
          }
        }
        i := i + 1;
      }
      r := Done;
    }

    /** The district reader this importer's configuration selects. */
    method ImportDistrictFeed(feed: DistrictFeed) returns (r: Outcome)
      modifies this, store
      ensures RunState(store.db, r) == ImportDistrictsSpec(old(store.db), council, old(srid), feed)
      ensures council == old(council) && councilId == old(councilId) && baseFolderPath == old(baseFolderPath)
      ensures r.Done? ==> srid == old(srid)
    {
      match feed
      case ShpDistricts(shapes, mapper) => r := ImportShpDistricts(shapes, mapper);
      case JasonDistricts(features, mapper) => r := ImportJasonDistricts(features, mapper);
      case KmlDistricts(name, file) => r := ImportKmlDistricts(name, file);
    }

    /** The station reader this importer's configuration selects. */
    method ImportStationFeed(feed: StationFeed) returns (r: Outcome)
      modifies store
      ensures RunState(store.db, r) == ImportStationsSpec(old(store.db), council, srid, feed)
    {
      match feed
      case CsvStations(rows, mapper) => r := ImportPollingStations(rows, mapper);
      case ShpStations(shapes, mapper) => r := ImportPollingStationShapefiles(this, shapes, mapper);
    }

    /** `import_data`: districts, then stations; a failure in the districts stops the run. */
    method ImportData(districts: DistrictFeed, stations: StationFeed) returns (r: Outcome)
      modifies this, store
      ensures RunState(store.db, r) == ImportDataSpec(old(store.db), council, old(srid), districts, stations)
      ensures council == old(council) && councilId == old(councilId) && baseFolderPath == old(baseFolderPath)
      ensures r.Done? ==> srid == old(srid)
    {
      r := ImportDistrictFeed(districts);
      if r.Failed? {
        return;
      }
      r := ImportStationFeed(stations);
    }

    /** `handle`: resolve the council id (from the command line when none is configured),
        look the council up, delete its stations and districts, take the first entry of the
        data directory named `{id}-*` as the base folder, and import from it. */
    method Handle(args: seq<string>, known: set<CouncilId>, listing: seq<string>,
                  districts: DistrictFeed, stations: StationFeed) returns (r: Outcome)
      modifies this, store
      ensures old(councilId).None? && args == [] ==>
        r == Failed(MissingArgument) && store.db == old(store.db) && councilId.None?
      ensures old(councilId).Some? || args != [] ==>
        var id := if old(councilId).Some? then old(councilId).value else args[0];
        && councilId == Some(id)
        && RunState(store.db, r) == HandleSpec(old(store.db), id, known, listing, old(srid), districts, stations)
        && (id in known ==> council == id)
        && (id in known && LocateFolder(id, listing).Some? ==> baseFolderPath == listing[LocateFolder(id, listing).value])
      ensures r.Done? ==> srid == old(srid)
    {
      if councilId.None? {
        if args == [] {
          return Failed(MissingArgument);
        }
        councilId := Some(args[0]);
      }
      var id := councilId.value;
      if id !in known {
        return Failed(UnknownCouncil(id));
      }
      council := id;
      store.db := Purge(store.db, council);
      var folder := LocateFolder(council, listing);
      if folder.None? {
        return Failed(NotFound("data/" + council + "-*"));
      }
      baseFolderPath := listing[folder.value];
      r := ImportData(districts, stations);
    }
  }

  /** `import_polling_station_shapefiles`: map each shape's record, fill in the council,
      take the shape's first point as the location and upsert. */
  method ImportPollingStationShapefiles(importer: BaseImporter, shapes: seq<ShapeRecord>,
                                        mapper: Record -> Result<StationInfo>) returns (r: Outcome)
    modifies importer.store
    ensures RunState(importer.store.db, r)
         == ImportStationInfos(old(importer.store.db), importer.council, ShpStationSteps(importer.council, importer.srid, shapes, mapper))
  {
    ghost var steps := ShpStationSteps(importer.council, importer.srid, shapes, mapper);
    var i := 0;
    while i < |shapes|
      invariant 0 <= i <= |shapes|
      invariant ImportStationInfos(old(importer.store.db), importer.council, steps)
             == ImportStationInfos(importer.store.db, importer.council, steps[i..])
    {
      assert steps[i..][0] == steps[i] && steps[i..][1..] == steps[i + 1..];
      var station := shapes[i];
      var mapped := mapper(station.record);
      if mapped.Err? {
        return Failed(mapped.error);
      }
      var info := mapped.value;
      if info.council.None? {
        info := info.(council := Some(importer.council));
      }
      if station.shape.points == [] {
        return Failed(GeometryError);
      }
      info := info.(location := Some(Point(importer.srid, station.shape.points[0])));
      var added := importer.AddPollingStation(info);
      if added.Failed? {
        return added;
      }
      i := i + 1;
    }
    r := Done;
  }
}
