/** The raw records the readers produce and the canonical dicts the mappers build. */
module Records {
  import opened Results
  import opened Geometry

  /** The primary key of a council row (an administrative code such as `E07000106`). */
  type CouncilId = string

  /** A delimited-text row or a shapefile attribute record: field name to text. */
  type Record = map<string, string>

  /** A feature of a geo-document or a KML layer: its attributes and, when it has one,
      its geometry as parsed GeoJSON. */
  datatype Row = Row(fields: Record, geometry: Option<GeoJson>)

  /** A shapefile shape: its point list and its `__geo_interface__`. */
  datatype Shape = Shape(points: seq<Position>, geoInterface: GeoJson)

  datatype ShapeRecord = ShapeRecord(record: Record, shape: Shape)

  /** A district dict as a mapper returns it. `None` stands for a key the dict does not have. */
  datatype DistrictInfo = DistrictInfo(
    council: Option<CouncilId>,
    internalCouncilId: Option<string>,
    name: string,
    area: Option<Geometry>,
    pollingStationId: Option<string>)

  /** A station dict as a mapper returns it. A missing `internal_council_id` is `None`;
      `location` is `None` both when the key is missing and when it holds `None`. */
  datatype StationInfo = StationInfo(
    council: Option<CouncilId>,
    internalCouncilId: Option<string>,
    address: string,
    postcode: string,
    location: Option<Geometry>)

  /** `record[name]`: a missing field is an error. */
  function Field(record: Record, name: string): (r: Result<string>)
    ensures r.Ok? <==> name in record
    ensures r.Ok? ==> r.value == record[name]
    ensures r.Err? ==> r.error == MissingField(name)
  {
    if name in record then Ok(record[name]) else Err(MissingField(name))
  }
}
