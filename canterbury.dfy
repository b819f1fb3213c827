/** Canterbury's importer, where a district record carries the address of its polling
    station and the station feed carries only a code and a point. The district mapper
    parks `code -> address` in a pending map, the station mapper takes its entry back out,
    and `post_import` writes every code still pending as a station without a location. */
module Canterbury {
  import opened Results
  import opened Text
  import opened Geometry
  import opened Records
  import opened Persistence
  import opened ImportSpec
  import opened Importer

  /** Canterbury's council code and the SRID its importer works in. */
  const CanterburyCouncil := "E07000106"
  const CanterburySrid := 4326

  /** District code to station address, for codes whose station has not been seen yet. */
  type Pending = map<string, string>

  /** What a mapper returns, together with the pending map it leaves behind. */
  datatype Mapped<T> = Mapped(result: Result<T>, pending: Pending)

  // ----- The mappers, as functions of the pending map -----

  function DistrictCode(row: Row): string
    requires "ID" in row.fields
  {
    Strip(row.fields["ID"])
  }

  function DistrictAddress(row: Row): string
    requires "POLLING_PL" in row.fields
  {
    Strip(row.fields["POLLING_PL"])
  }

  function StationCode(row: Row): string
    requires "Polling_di" in row.fields
  {
    Strip(row.fields["Polling_di"])
  }

  /** `district_record_to_dict`: extract the area, read and trim `ID` and `POLLING_PL`,
      refuse a code already pending with another address, record the address, and only
      then read `NAME`. */
  function DistrictStep(pending: Pending, row: Row, extract: Row -> Result<Geometry>): Mapped<DistrictInfo> {
    match extract(row)
    case Err(e) => Mapped(Err(e), pending)
    case Ok(poly) =>
      if "ID" !in row.fields then Mapped(Err(MissingField("ID")), pending)
      else if "POLLING_PL" !in row.fields then Mapped(Err(MissingField("POLLING_PL")), pending)
      else
        var code := DistrictCode(row);
        var address := DistrictAddress(row);
        if code in pending && pending[code] != address then Mapped(Err(Conflict(code)), pending)
        else
          var pending' := pending[code := address];
          if "NAME" !in row.fields then Mapped(Err(MissingField("NAME")), pending')
          else Mapped(Ok(DistrictInfo(None, Some(code), Strip(row.fields["NAME"]) + " - " + code, Some(poly), Some(code))),
                      pending')
  }

  /** `extract_json_point`, read at the level of geometries: a multi-point of exactly one
      point is that point; any other geometry goes through `clean_poly` unchanged. */
  function JsonPoint(row: Row, srid: int, importerSrid: int): Result<Geometry> {
    match row.geometry
    case None => Err(MissingField("geometry"))
    case Some(geo) =>
      match FromGeoJson(geo, srid)
      case Err(e) => Err(e)
      case Ok(g) =>
        if g.MultiPoint? && |g.points| == 1 then Ok(Point(g.srid, g.points[0]))
        else Ok(CleanPoly(g, importerSrid))
  }

  /** `station_record_to_dict`: trim `Polling_di`, take that code's address out of the
      pending map (a code that is not pending is an error), then extract the point. */
  function StationStep(pending: Pending, row: Row, srid: int, importerSrid: int): Mapped<StationInfo> {
    if "Polling_di" !in row.fields then Mapped(Err(MissingField("Polling_di")), pending)
    else
      var code := StationCode(row);
      if code !in pending then Mapped(Err(NotFound(code)), pending)
      else
        var pending' := pending - {code};
        match JsonPoint(row, srid, importerSrid)
        case Err(e) => Mapped(Err(e), pending')
        case Ok(location) => Mapped(Ok(StationInfo(None, Some(code), pending[code], "", Some(location))), pending')
  }

  // ----- The run, as functions of the tables and the pending map -----

  datatype JoinState = JoinState(db: Db, pending: Pending, outcome: Outcome)

  function JoinDistricts(db: Db, c: CouncilId, pending: Pending, rows: seq<Row>, extract: Row -> Result<Geometry>): JoinState
    decreases |rows|
  {
    if rows == [] then JoinState(db, pending, Done)
    else
      var m := DistrictStep(pending, rows[0], extract);
      match m.result
      case Err(e) => JoinState(db, m.pending, Failed(e))
      case Ok(info) => JoinDistricts(UpsertDistrict(db, c, FillDistrictCouncil(info, c)), c, m.pending, rows[1..], extract)
  }

  function JoinStations(db: Db, c: CouncilId, pending: Pending, rows: seq<Row>, srid: int, importerSrid: int): JoinState
    decreases |rows|
  {
    if rows == [] then JoinState(db, pending, Done)
    else
      var m := StationStep(pending, rows[0], srid, importerSrid);
      match m.result
      case Err(e) => JoinState(db, m.pending, Failed(e))
      case Ok(info) =>
        match UpsertStation(db, c, FillStationCouncil(info, c))
        case Err(e) => JoinState(db, m.pending, Failed(e))
        case Ok(db') => JoinStations(db', c, m.pending, rows[1..], srid, importerSrid)
  }

  /** The station `post_import` writes for a code still pending. */
  function LeftoverStation(c: CouncilId, code: string, address: string): StationInfo {
    StationInfo(Some(c), Some(code), address, "", None)
  }

  /** `post_import`: one station per pending code, with that code's address, an empty
      postcode and no location; every other entry is kept. */
  function Flush(db: Db, c: CouncilId, pending: Pending): (r: Db)
    ensures r.districts == db.districts
    ensures forall k :: k in r.stations <==> k in db.stations || (k.council == c && k.id in pending)
    ensures forall code :: code in pending ==> r.stations[Key(c, code)] == LeftoverStation(c, code, pending[code])
    ensures forall k :: k in db.stations && !(k.council == c && k.id in pending) ==> r.stations[k] == db.stations[k]
  {
    var added := set code | code in pending :: Key(c, code);
    db.(stations := map k | k in db.stations.Keys + added ::
                      if k.council == c && k.id in pending then LeftoverStation(c, k.id, pending[k.id]) else db.stations[k])
  }

  /** Districts, then stations, then `post_import`; a failure stops the run where it is. */
  function JoinRun(db: Db, c: CouncilId, pending: Pending, districtRows: seq<Row>, extract: Row -> Result<Geometry>,
                   stationRows: seq<Row>, srid: int, importerSrid: int): RunState
  {
    var d := JoinDistricts(db, c, pending, districtRows, extract);
    if d.outcome.Failed? then RunState(d.db, d.outcome)
    else
      var s := JoinStations(d.db, c, d.pending, stationRows, srid, importerSrid);
      if s.outcome.Failed? then RunState(s.db, s.outcome)
      else RunState(Flush(s.db, c, s.pending), Done)
  }

  // ----- What the mappers promise -----

  /** A district that maps records its trimmed code and address in the pending map; its id
      and polling-station id are the code and its name is the trimmed `NAME`, a dash and
      the code. A code already pending with the same address leaves the map as it was. */
  lemma DistrictStepRecordsAddress(pending: Pending, row: Row, extract: Row -> Result<Geometry>)
    requires DistrictStep(pending, row, extract).result.Ok?
    ensures var m := DistrictStep(pending, row, extract);
      && extract(row).Ok? && "ID" in row.fields && "POLLING_PL" in row.fields && "NAME" in row.fields
      && m.pending == pending[DistrictCode(row) := DistrictAddress(row)]
      && (DistrictCode(row) in pending ==> m.pending == pending)
      && m.result.value.internalCouncilId == Some(DistrictCode(row))
      && m.result.value.pollingStationId == Some(DistrictCode(row))
      && m.result.value.name == Strip(row.fields["NAME"]) + " - " + DistrictCode(row)
      && m.result.value.area == Some(extract(row).value)
      && NoEdgeSpace(DistrictCode(row)) && NoEdgeSpace(DistrictAddress(row))
  {
  }

  /** A code already pending with a different address is refused, and the pending map is
      left as it was. */
  lemma DistrictStepConflict(pending: Pending, row: Row, extract: Row -> Result<Geometry>)
    requires extract(row).Ok? && "ID" in row.fields && "POLLING_PL" in row.fields
    requires DistrictCode(row) in pending && pending[DistrictCode(row)] != DistrictAddress(row)
    ensures DistrictStep(pending, row, extract) == Mapped(Err(Conflict(DistrictCode(row))), pending)
  {
  }

  /** A station takes its address from the pending entry of its trimmed code and removes
      that entry; its postcode is empty. A code that is not pending is an error. */
  lemma StationStepConsumes(pending: Pending, row: Row, srid: int, importerSrid: int)
    requires "Polling_di" in row.fields
    ensures var m := StationStep(pending, row, srid, importerSrid);
      var code := StationCode(row);
      && (code !in pending ==> m == Mapped(Err(NotFound(code)), pending))
      && (code in pending ==> m.pending == pending - {code} && code !in m.pending)
      && (m.result.Ok? ==>
            && m.result.value.internalCouncilId == Some(code)
            && m.result.value.address == pending[code]
            && m.result.value.postcode == ""
            && m.result.value.location == Some(JsonPoint(row, srid, importerSrid).value))
  {
  }

  /** Both readings of the point feed agree on a multi-point of one position: rewriting it to
      a point before parsing gives the point that position makes. */
  lemma SinglePointParse(geo: GeoJson, srid: int)
    requires geo.kind == "MultiPoint" && geo.coordinates.Arr? && |geo.coordinates.items| == 1
    ensures var parsed := FromGeoJson(geo, srid);
      FromGeoJson(GeoJson("Point", geo.coordinates.items[0]), srid)
        == if parsed.Ok? then Ok(Point(srid, parsed.value.points[0])) else Err(GeometryError)
  {
    var items := geo.coordinates.items;
    assert PositionsOf(geo.coordinates) == ListOf(items, PositionOf);
    if PositionOf(items[0]).Some? {
      assert ListOf(items, PositionOf).Some?;
    } else {
      assert ListOf(items, PositionOf).None?;
    }
  }

  // ----- The importer object -----

  class Command {
    const base: BaseImporter
    /** `station_addresses`, one per run. */
    var stationAddresses: Pending

    constructor(store: Store)
      ensures base.srid == CanterburySrid && base.councilId == Some(CanterburyCouncil) && base.store == store
      ensures base.savedSrid.None? && base.council == "" && base.baseFolderPath == ""
      ensures stationAddresses == map[]
    {
      base := new BaseImporter(CanterburySrid, Some(CanterburyCouncil), store);
      stationAddresses := map[];
    }

    /** `district_record_to_dict`, with `extract` standing for the district geometry
        extractor this importer inherits. */
    method DistrictRecordToDict(row: Row, extract: Row -> Result<Geometry>) returns (r: Result<DistrictInfo>)
      modifies this
      ensures Mapped(r, stationAddresses) == DistrictStep(old(stationAddresses), row, extract)
    {
      var poly := extract(row);
      if poly.Err? {
        return Err(poly.error);
      }
      var id := Field(row.fields, "ID");
      if id.Err? {
        return Err(id.error);
      }
      var code := Strip(id.value);
      var pollingPlace := Field(row.fields, "POLLING_PL");
      if pollingPlace.Err? {
        return Err(pollingPlace.error);
      }
      var address := Strip(pollingPlace.value);
      if code in stationAddresses && stationAddresses[code] != address {
        return Err(Conflict(code));
      }
      stationAddresses := stationAddresses[code := address];
      var name := Field(row.fields, "NAME");
      if name.Err? {
        return Err(name.error);
      }
      r := Ok(DistrictInfo(None, Some(code), Strip(name.value) + " - " + code, Some(poly.value), Some(code)));
    }

    /** `extract_json_point`: relabel a one-point multi-point as a point, then parse with
        `srid` and pass the result through `clean_poly`. */
    method ExtractJsonPoint(row: Row, srid: int) returns (r: Result<Geometry>)
      ensures r == JsonPoint(row, srid, base.srid)
    {
      if row.geometry.None? {
        return Err(MissingField("geometry"));
      }
      var geom := row.geometry.value;
      if geom.kind == "MultiPoint" && geom.coordinates.Arr? && |geom.coordinates.items| == 1 {
        SinglePointParse(geom, srid);
        geom := geom.(kind := "Point");
        geom := geom.(coordinates := geom.coordinates.items[0]);
      }
      var parsed := FromGeoJson(geom, srid);
      if parsed.Err? {
        return Err(parsed.error);
      }
      r := Ok(CleanPoly(parsed.value, base.srid));
    }

    /** `station_record_to_dict`. */
    method StationRecordToDict(row: Row, srid: int) returns (r: Result<StationInfo>)
      modifies this
      ensures Mapped(r, stationAddresses) == StationStep(old(stationAddresses), row, srid, base.srid)
    {
      var pollingDistrict := Field(row.fields, "Polling_di");
      if pollingDistrict.Err? {
        return Err(pollingDistrict.error);
      }
      var code := Strip(pollingDistrict.value);
      if code !in stationAddresses {
        return Err(NotFound(code));
      }
      var address := stationAddresses[code];
      stationAddresses := stationAddresses - {code};
      var location := ExtractJsonPoint(row, srid);
      if location.Err? {
        return Err(location.error);
      }
      r := Ok(StationInfo(None, Some(code), address, "", Some(location.value)));
    }

    /** The district loop: map, fill in the council, upsert. */
    method ImportDistricts(rows: seq<Row>, extract: Row -> Result<Geometry>) returns (r: Outcome)
      modifies this, base.store
      ensures JoinState(base.store.db, stationAddresses, r)
           == JoinDistricts(old(base.store.db), base.council, old(stationAddresses), rows, extract)
    {
      var i := 0;
      while i < |rows|
        invariant 0 <= i <= |rows|
        invariant JoinDistricts(old(base.store.db), base.council, old(stationAddresses), rows, extract)
               == JoinDistricts(base.store.db, base.council, stationAddresses, rows[i..], extract)
      {
        assert rows[i..][0] == rows[i] && rows[i..][1..] == rows[i + 1..];
        var mapped := DistrictRecordToDict(rows[i], extract);
        if mapped.Err? {
          return Failed(mapped.error);
        }
        var info := mapped.value;
        if info.council.None? {
          info := info.(council := Some(base.council));
        }
        base.AddPollingDistrict(info);
        i := i + 1;
      }
      r := Done;
    }

    /** The station loop: map, fill in the council, upsert. */
    method ImportStations(rows: seq<Row>, srid: int) returns (r: Outcome)
      modifies this, base.store
      ensures JoinState(base.store.db, stationAddresses, r)
           == JoinStations(old(base.store.db), base.council, old(stationAddresses), rows, srid, base.srid)
    {
      var i := 0;
      while i < |rows|
        invariant 0 <= i <= |rows|
        invariant JoinStations(old(base.store.db), base.council, old(stationAddresses), rows, srid, base.srid)
               == JoinStations(base.store.db, base.council, stationAddresses, rows[i..], srid, base.srid)
      {
        assert rows[i..][0] == rows[i] && rows[i..][1..] == rows[i + 1..];
        var mapped := StationRecordToDict(rows[i], srid);
        if mapped.Err? {
          return Failed(mapped.error);
        }
        var info := mapped.value;
        if info.council.None? {
          info := info.(council := Some(base.council));
        }
        var added := base.AddPollingStation(info);
        if added.Failed? {
          return added;
        }
        i := i + 1;
      }
      r := Done;
    }

    /** `post_import`: write a location-less station for every code still pending. */
    method PostImport()
      modifies base.store
      ensures base.store.db == Flush(old(base.store.db), base.council, stationAddresses)
    {
      var todo := stationAddresses.Keys;
      while todo != {}
        invariant todo <= stationAddresses.Keys
        invariant base.store.db == Flush(old(base.store.db), base.council, stationAddresses - todo)
        decreases todo
      {
        var code :| code in todo;
        FlushAdd(old(base.store.db), base.council, stationAddresses - todo, code, stationAddresses[code]);
        assert (stationAddresses - todo)[code := stationAddresses[code]] == stationAddresses - (todo - {code});
        var added := base.AddPollingStation(LeftoverStation(base.council, code, stationAddresses[code]));
        todo := todo - {code};
      }
      assert stationAddresses - {} == stationAddresses;
    }

    /** Districts, then stations, then `post_import`. */
    method Run(districtRows: seq<Row>, extract: Row -> Result<Geometry>, stationRows: seq<Row>, srid: int)
      returns (r: Outcome)
      modifies this, base.store
      ensures RunState(base.store.db, r)
           == JoinRun(old(base.store.db), base.council, old(stationAddresses), districtRows, extract, stationRows, srid, base.srid)
    {
      r := ImportDistricts(districtRows, extract);
      if r.Failed? {
        return;
      }
      r := ImportStations(stationRows, srid);
      if r.Failed? {
        return;
      }
      PostImport();
    }
  }

  /** Flushing one more pending code is upserting its leftover station. */
  lemma FlushAdd(db: Db, c: CouncilId, pending: Pending, code: string, address: string)
    ensures UpsertStation(Flush(db, c, pending), c, LeftoverStation(c, code, address)).Ok?
    ensures Flush(db, c, pending[code := address]) == UpsertStation(Flush(db, c, pending), c, LeftoverStation(c, code, address)).value
  {
    var lhs := Flush(db, c, pending[code := address]);
    var rhs := UpsertStation(Flush(db, c, pending), c, LeftoverStation(c, code, address)).value;
    assert lhs.stations.Keys == rhs.stations.Keys;
    forall k | k in lhs.stations ensures lhs.stations[k] == rhs.stations[k] {
      if k != Key(c, code) && k.council == c && k.id in pending {
        assert k == Key(c, k.id);
      }
    }
  }

  // ----- End to end -----

  predicate DistrictRows(rows: seq<Row>) {
    forall i :: 0 <= i < |rows| ==> "ID" in rows[i].fields && "POLLING_PL" in rows[i].fields
  }

  predicate StationRows(rows: seq<Row>) {
    forall j :: 0 <= j < |rows| ==> "Polling_di" in rows[j].fields
  }

  /** The trimmed district codes of a district feed. */
  function DistrictCodes(rows: seq<Row>): set<string>
    requires DistrictRows(rows)
  {
    set i | 0 <= i < |rows| :: DistrictCode(rows[i])
  }

  /** The trimmed district codes of a station feed. */
  function StationCodes(rows: seq<Row>): set<string>
    requires StationRows(rows)
  {
    set j | 0 <= j < |rows| :: StationCode(rows[j])
  }

  lemma DistrictCodesCons(rows: seq<Row>)
    requires rows != [] && DistrictRows(rows)
    ensures DistrictCodes(rows) == {DistrictCode(rows[0])} + DistrictCodes(rows[1..])
  {
    forall code | code in DistrictCodes(rows) ensures code in {DistrictCode(rows[0])} + DistrictCodes(rows[1..]) {
      var i :| 0 <= i < |rows| && DistrictCode(rows[i]) == code;
      if i > 0 {
        assert rows[1..][i - 1] == rows[i];
      }
    }
    forall code | code in DistrictCodes(rows[1..]) ensures code in DistrictCodes(rows) {
      var i :| 0 <= i < |rows[1..]| && DistrictCode(rows[1..][i]) == code;
      assert rows[i + 1] == rows[1..][i];
    }
  }

  lemma StationCodesCons(rows: seq<Row>)
    requires rows != [] && StationRows(rows)
    ensures StationCodes(rows) == {StationCode(rows[0])} + StationCodes(rows[1..])
  {
    forall code | code in StationCodes(rows) ensures code in {StationCode(rows[0])} + StationCodes(rows[1..]) {
      var j :| 0 <= j < |rows| && StationCode(rows[j]) == code;
      if j > 0 {
        assert rows[1..][j - 1] == rows[j];
      }
    }
    forall code | code in StationCodes(rows[1..]) ensures code in StationCodes(rows) {
      var j :| 0 <= j < |rows[1..]| && StationCode(rows[1..][j]) == code;
      assert rows[j + 1] == rows[1..][j];
    }
  }

  /** The part of `DistrictStepRecordsAddress` the district loop's pending map depends on. */
  lemma DistrictStepPending(pending: Pending, row: Row, extract: Row -> Result<Geometry>)
    requires DistrictStep(pending, row, extract).result.Ok?
    ensures "ID" in row.fields && "POLLING_PL" in row.fields
    ensures DistrictStep(pending, row, extract).pending == pending[DistrictCode(row) := DistrictAddress(row)]
    ensures DistrictCode(row) in pending ==> pending[DistrictCode(row)] == DistrictAddress(row)
  {
  }

  /** One turn of a district loop that goes on to finish: the first row maps, and the
      loop continues from the tables and pending map that row leaves. */
  lemma JoinDistrictsStep(db: Db, c: CouncilId, pending: Pending, rows: seq<Row>, extract: Row -> Result<Geometry>)
    requires rows != [] && JoinDistricts(db, c, pending, rows, extract).outcome.Done?
    ensures var m := DistrictStep(pending, rows[0], extract);
      && m.result.Ok?
      && JoinDistricts(db, c, pending, rows, extract)
         == JoinDistricts(UpsertDistrict(db, c, FillDistrictCouncil(m.result.value, c)), c, m.pending, rows[1..], extract)
  {
  }

  /** The district loop never writes a station. */
  lemma {:induction false} JoinDistrictsKeepsStations(db: Db, c: CouncilId, pending: Pending, rows: seq<Row>,
                                                      extract: Row -> Result<Geometry>)
    ensures JoinDistricts(db, c, pending, rows, extract).db.stations == db.stations
    decreases |rows|
  {
    if rows != [] {
      var m := DistrictStep(pending, rows[0], extract);
      if m.result.Ok? {
        JoinDistrictsKeepsStations(UpsertDistrict(db, c, FillDistrictCouncil(m.result.value, c)), c, m.pending, rows[1..], extract);
      }
    }
  }

  /** A district loop that finishes has read `ID` and `POLLING_PL` from every row. */
  lemma {:induction false} JoinDistrictsRows(db: Db, c: CouncilId, pending: Pending, rows: seq<Row>,
                                            extract: Row -> Result<Geometry>)
    requires JoinDistricts(db, c, pending, rows, extract).outcome.Done?
    ensures DistrictRows(rows)
    decreases |rows|
  {
    if rows != [] {
      var tail := rows[1..];
      JoinDistrictsStep(db, c, pending, rows, extract);
      var m := DistrictStep(pending, rows[0], extract);
      DistrictStepPending(pending, rows[0], extract);
      JoinDistrictsRows(UpsertDistrict(db, c, FillDistrictCouncil(m.result.value, c)), c, m.pending, tail, extract);
      forall i | 1 <= i < |rows| ensures "ID" in rows[i].fields && "POLLING_PL" in rows[i].fields {
        assert rows[i] == tail[i - 1];
      }
    }
  }

  /** A district loop that finishes has added every row's code to the pending map with
      that row's address (so a code met twice had the same address both times); codes
      already pending keep their address. */
  lemma {:induction false} JoinDistrictsPending(db: Db, c: CouncilId, pending: Pending, rows: seq<Row>,
                                               extract: Row -> Result<Geometry>)
    requires JoinDistricts(db, c, pending, rows, extract).outcome.Done?
    requires DistrictRows(rows)
    ensures var s := JoinDistricts(db, c, pending, rows, extract);
      && s.pending.Keys == pending.Keys + DistrictCodes(rows)
      && (forall code :: code in pending ==> s.pending[code] == pending[code])
      && (forall i :: 0 <= i < |rows| ==> s.pending[DistrictCode(rows[i])] == DistrictAddress(rows[i]))
    decreases |rows|
  {
    if rows != [] {
      var tail := rows[1..];
      JoinDistrictsStep(db, c, pending, rows, extract);
      var m := DistrictStep(pending, rows[0], extract);
      DistrictStepPending(pending, rows[0], extract);
      var s := JoinDistricts(db, c, pending, rows, extract);
      assert DistrictRows(tail) by {
        forall i | 0 <= i < |tail| ensures "ID" in tail[i].fields && "POLLING_PL" in tail[i].fields {
          assert tail[i] == rows[i + 1];
        }
      }
      JoinDistrictsPending(UpsertDistrict(db, c, FillDistrictCouncil(m.result.value, c)), c, m.pending, tail, extract);
      DistrictCodesCons(rows);
      var code0, address0 := DistrictCode(rows[0]), DistrictAddress(rows[0]);
      assert m.pending == pending[code0 := address0];
      forall code | code in pending ensures s.pending[code] == pending[code] {
        assert code in m.pending;
      }
      forall i | 0 <= i < |rows| ensures s.pending[DistrictCode(rows[i])] == DistrictAddress(rows[i]) {
        if i > 0 {
          assert rows[i] == tail[i - 1];
        } else {
          assert code0 in m.pending && s.pending[code0] == m.pending[code0];
        }
      }
    }
  }

  /** A station loop that finishes met only pending codes, each at most once: they are
      exactly the entries it removed from the pending map. */
  lemma {:induction false} JoinStationsPending(db: Db, c: CouncilId, pending: Pending, rows: seq<Row>, srid: int, importerSrid: int)
    requires JoinStations(db, c, pending, rows, srid, importerSrid).outcome.Done?
    ensures var s := JoinStations(db, c, pending, rows, srid, importerSrid);
      && StationRows(rows)
      && StationCodes(rows) <= pending.Keys
      && s.pending == pending - StationCodes(rows)
    decreases |rows|
  {
    if rows != [] {
      var tail := rows[1..];
      var m := StationStep(pending, rows[0], srid, importerSrid);
      assert m.result.Ok?;
      StationStepConsumes(pending, rows[0], srid, importerSrid);
      var db' := UpsertStation(db, c, FillStationCouncil(m.result.value, c)).value;
      var s := JoinStations(db, c, pending, rows, srid, importerSrid);
      assert s == JoinStations(db', c, m.pending, tail, srid, importerSrid);
      JoinStationsPending(db', c, m.pending, tail, srid, importerSrid);
      assert StationRows(rows) by {
        forall j | 1 <= j < |rows| ensures "Polling_di" in rows[j].fields {
          assert rows[j] == tail[j - 1];
        }
      }
      StationCodesCons(rows);
      assert s.pending == pending - StationCodes(rows);
    }
  }

  /** What a finished station loop wrote: a located station with the pending address and
      an empty postcode under every code it met, and nothing else; districts untouched. */
  lemma {:induction false} JoinStationsStored(db: Db, c: CouncilId, pending: Pending, rows: seq<Row>, srid: int, importerSrid: int)
    requires JoinStations(db, c, pending, rows, srid, importerSrid).outcome.Done?
    requires StationRows(rows) && StationCodes(rows) <= pending.Keys
    ensures var s := JoinStations(db, c, pending, rows, srid, importerSrid);
      && s.db.districts == db.districts
      && (forall k :: k in s.db.stations <==> k in db.stations || (k.council == c && k.id in StationCodes(rows)))
      && (forall code :: code in StationCodes(rows) ==>
            var st := s.db.stations[Key(c, code)];
            st.address == pending[code] && st.location.Some? && st.postcode == "" && st.council == Some(c))
      && (forall k :: k in db.stations && !(k.council == c && k.id in StationCodes(rows)) ==> s.db.stations[k] == db.stations[k])
    decreases |rows|
  {
    if rows != [] {
      var tail := rows[1..];
      var m := StationStep(pending, rows[0], srid, importerSrid);
      assert m.result.Ok?;
      StationStepConsumes(pending, rows[0], srid, importerSrid);
      var code0 := StationCode(rows[0]);
      var db' := UpsertStation(db, c, FillStationCouncil(m.result.value, c)).value;
      var s := JoinStations(db, c, pending, rows, srid, importerSrid);
      assert s == JoinStations(db', c, m.pending, tail, srid, importerSrid);
      JoinStationsPending(db', c, m.pending, tail, srid, importerSrid);
      StationCodesCons(rows);
      JoinStationsStored(db', c, m.pending, tail, srid, importerSrid);
      assert code0 !in StationCodes(tail);
    }
  }

  /** End to end, on tables with no stations of council `c` and an empty pending map: when
      the run finishes, every district code has exactly one station of council `c` (the
      table is keyed by code) carrying that district's address and an empty postcode; it
      has a location exactly when the code appeared in the station feed; and council `c`
      has no other stations. */
  lemma JoinRunStations(db: Db, c: CouncilId, districtRows: seq<Row>, extract: Row -> Result<Geometry>,
                        stationRows: seq<Row>, srid: int, importerSrid: int)
    requires forall k :: k in db.stations ==> k.council != c
    requires JoinRun(db, c, map[], districtRows, extract, stationRows, srid, importerSrid).outcome.Done?
    ensures var stations := JoinRun(db, c, map[], districtRows, extract, stationRows, srid, importerSrid).db.stations;
      && DistrictRows(districtRows) && StationRows(stationRows)
      && (forall k :: k in stations && k.council == c ==> k.id in DistrictCodes(districtRows))
      && (forall i :: 0 <= i < |districtRows| ==>
            var code := DistrictCode(districtRows[i]);
            && Key(c, code) in stations
            && stations[Key(c, code)].address == DistrictAddress(districtRows[i])
            && stations[Key(c, code)].postcode == ""
            && stations[Key(c, code)].council == Some(c)
            && (stations[Key(c, code)].location.Some? <==> code in StationCodes(stationRows)))
  {
    var d := JoinDistricts(db, c, map[], districtRows, extract);
    JoinDistrictsKeepsStations(db, c, map[], districtRows, extract);
    JoinDistrictsRows(db, c, map[], districtRows, extract);
    JoinDistrictsPending(db, c, map[], districtRows, extract);
    var s := JoinStations(d.db, c, d.pending, stationRows, srid, importerSrid);
    JoinStationsPending(d.db, c, d.pending, stationRows, srid, importerSrid);
    JoinStationsStored(d.db, c, d.pending, stationRows, srid, importerSrid);
    var stations := Flush(s.db, c, s.pending).stations;
    forall i | 0 <= i < |districtRows|
      ensures var code := DistrictCode(districtRows[i]);
        && Key(c, code) in stations
        && stations[Key(c, code)].address == DistrictAddress(districtRows[i])
        && stations[Key(c, code)].postcode == ""
        && stations[Key(c, code)].council == Some(c)
        && (stations[Key(c, code)].location.Some? <==> code in StationCodes(stationRows))
    {
      var code := DistrictCode(districtRows[i]);
      if code in StationCodes(stationRows) {
        assert code !in s.pending;
      } else {
        assert code in s.pending;
      }
    }
  }
}
