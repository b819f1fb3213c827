# Council import framework: a Dafny model

UK-Polling-Stations loads each council's polling districts and polling stations from
the files the council publishes. An importer is a management command. It resolves
the council, deletes that council's districts and stations, and finds the council's
data folder. It then reads the districts feed and the stations feed. Each feed record
goes through a mapper that builds a canonical dict, and each dict is upserted
under the key (council, internal council id).

This project models the record-normalisation core of that framework:

- `text.dfy` (`Text`): Python's `str.strip`, `split` and `join`, with what they mean.
- `addresses.dfy` (`Addresses`): the base importer's two comma-address helpers.
- `geometry.dfy` (`Geometry`): geometries with an integer SRID tag, GeoJSON coordinate
  trees, `clean_poly` and `strip_z_values` as functions.
- `records.dfy` (`Records`): raw records and the district and station dicts.
- `persistence.dfy` (`Persistence`): the two tables as maps keyed by (council, id),
  with the upserts and the per-council purge.
- `importspec.dfy` (`ImportSpec`): a whole run as functions of the tables before it.
  This covers each reader variant's per-record step, the upsert loops, `import_data`
  and `handle`. It also holds the lemmas about what a run keeps and writes.
- `importer.dfy` (`Importer`): the importer object as a class. Its fields are the ones
  the source updates (`srid`, `_srid`, `council_id`, `council`, `base_folder_path`).
  Its methods are loops proved to change the tables exactly as `ImportSpec` says.
- `canterbury.dfy` (`Canterbury`): Canterbury's cross-feed join. The district mapper
  parks `code -> address` in a pending map. The station mapper takes the entry back
  out. `post_import` writes every code still pending as a station with no location.
  The class's methods are proved against the join functions, and the end-to-end
  outcome is a lemma.
- `doncaster.dfy` (`Doncaster`): Doncaster's two stateless mappers, as functions.

Readers, parsers and the database are given as values.
- A feed is a sequence of records.
- A mapper or a geometry extractor is a function parameter.
- The data directory listing is a sequence of names.
- The councils table is a set of known council ids.
- A Python exception is a `Failed(error)` outcome that stops the run where it is.
  Writes made before the failure stay made.

## Model

Source paths are relative to the repository root.

| member | source | states |
|---|---|---|
| Text.StripMeaning | polling_stations/apps/data_collection/management/commands/import_doncaster.py:14 | `strip()` returns `m` iff `m` is the input with a whitespace run cut from each end and `m` neither starts nor ends with whitespace |
| Text.StripIdempotent | polling_stations/apps/data_collection/management/commands/import_doncaster.py:14 | stripping twice is stripping once |
| Text.StripIgnoresPadding | polling_stations/apps/data_collection/management/commands/import_doncaster.py:14 | whitespace added around a field does not change its stripped value |
| Text.JoinSplit | polling_stations/apps/data_collection/management/commands/__init__.py:28-29 | joining the comma-split pieces of a string with commas gives the string back |
| Addresses.PostcodeFromAddress | polling_stations/apps/data_collection/management/commands/__init__.py:28 | the postcode is a comma-free suffix of the address, preceded by a comma unless it is the whole address; with no comma it is the whole address |
| Addresses.StringToNewlineAddr | polling_stations/apps/data_collection/management/commands/__init__.py:29 | the result holds no comma, and an address without a comma gives the empty string; with `AddressRoundTrip` this fixes the result as the pieces before the postcode, one per line |
| Addresses.AddressRoundTrip | polling_stations/apps/data_collection/management/commands/__init__.py:28-29 | for a one-line address with a comma, the newline address read back with commas, plus a comma, plus the postcode, is the address |
| Geometry.FromGeoJson | polling_stations/apps/data_collection/management/commands/__init__.py:117-118 | building a geometry from GeoJSON with an SRID either fails with a geometry error or gives a well-formed geometry tagged with that SRID that writes back to the same GeoJSON |
| Geometry.FromToGeoJson | polling_stations/apps/data_collection/management/commands/__init__.py:117-118 | a well-formed geometry written as GeoJSON reads back as itself |
| Geometry.CleanPoly | polling_stations/apps/data_collection/management/commands/__init__.py:31-51 | a polygon becomes a multi-polygon with the given SRID and the same polygons; any other geometry comes back unchanged; the result is never a bare polygon |
| Geometry.CleanPolyIdempotent | polling_stations/apps/data_collection/management/commands/__init__.py:31-51 | `clean_poly` applied twice, with any SRID the second time, is `clean_poly` applied once |
| Geometry.StripZ | polling_stations/apps/data_collection/management/commands/__init__.py:176-183 | succeeds exactly on coordinates whose first polygon has an outer ring of arrays. The result is a `Polygon` with the first polygon's rings. Each outer-ring position of three elements loses its third and every other position is kept, in order. Inner rings are kept as they are and later polygons are dropped |
| Geometry.StrippedOuterRingIs2D | polling_stations/apps/data_collection/management/commands/__init__.py:176-183 | once z-stripped and parsed, every outer-ring position has exactly the source position's first two coordinates |
| Importer.BaseImporter.StripZValues | polling_stations/apps/data_collection/management/commands/__init__.py:176-183 | the in-place loop over the outer ring computes `StripZ` |
| Records.Field | polling_stations/apps/data_collection/management/commands/__init__.py:196 | reading a record field succeeds iff the field is present, with its value; a missing field is a `MissingField` error |
| Persistence.DistrictKey | polling_stations/apps/data_collection/management/commands/__init__.py:60-65 | a district is keyed by the run's council and its id, or `none` when it has no id |
| Persistence.UpsertDistrict | polling_stations/apps/data_collection/management/commands/__init__.py:60-65 | afterwards the district's key holds the new dict; every other district entry and the station table are unchanged |
| Persistence.UpsertStation | polling_stations/apps/data_collection/management/commands/__init__.py:67-72 | a station without an id is an error; otherwise its key holds the new dict and every other entry of both tables is unchanged |
| Persistence.Purge | polling_stations/apps/data_collection/management/commands/__init__.py:93-95 | exactly the entries of other councils remain, with their values |
| Persistence.PurgeIdempotent | polling_stations/apps/data_collection/management/commands/__init__.py:93-95 | purging twice is purging once |
| Persistence.PurgeAfterUpsertDistrict | polling_stations/apps/data_collection/management/commands/__init__.py:60-65 | a district written under a council disappears when that council is purged |
| Persistence.PurgeAfterUpsertStation | polling_stations/apps/data_collection/management/commands/__init__.py:67-72 | a station written under a council disappears when that council is purged |
| ImportSpec.FillDistrictCouncil | polling_stations/apps/data_collection/management/commands/__init__.py:114-115 | the district's council is the mapper's when it gave one, else the run's; no other field changes |
| ImportSpec.FillStationCouncil | polling_stations/apps/data_collection/management/commands/__init__.py:82-83 | the station's council is the mapper's when it gave one, else the run's; no other field changes |
| ImportSpec.KmlDistrictInfo | polling_stations/apps/data_collection/management/commands/__init__.py:185-199 | a mapped KML district has id and name both equal to the `Name` field. Its area is a one-polygon multi-polygon tagged 4326. It has no council and no polling-station id |
| ImportSpec.KmlDistrictInfoOutcome | polling_stations/apps/data_collection/management/commands/__init__.py:185-199 | the KML mapper succeeds iff the feature has a geometry that z-strips and builds as a polygon in SRID 4326 and has a `Name` field. A geometry that fails is a geometry error, and a good geometry without `Name` is `MissingField("Name")` |
| ImportSpec.KmlAreaIsFlat | polling_stations/apps/data_collection/management/commands/__init__.py:185-199 | the KML area's polygon has as many rings as the source's first polygon. Its outer ring holds the source positions cut to two coordinates, and each inner ring writes back to the source's inner ring unchanged |
| ImportSpec.KmlFeatures | polling_stations/apps/data_collection/management/commands/__init__.py:215-227 | a name ending `.kmz` is read only as an archive, through its `doc.kml` entry; any other name is read only as a KML document |
| ImportSpec.LocateFolder | polling_stations/apps/data_collection/management/commands/__init__.py:97-99 | the folder is the first listing entry named `{id}-...`; none when no entry matches |
| ImportSpec.ImportDistrictInfosFrame | polling_stations/apps/data_collection/management/commands/__init__.py:112-120 | the district loop writes only under the run's council and never touches stations |
| ImportSpec.ImportStationInfosFrame | polling_stations/apps/data_collection/management/commands/__init__.py:78-85 | the station loop writes only under the run's council and never touches districts |
| ImportSpec.ImportDistrictInfosDone | polling_stations/apps/data_collection/management/commands/__init__.py:112-120 | the district loop succeeds iff every record mapped |
| ImportSpec.ImportDistrictInfosStored | polling_stations/apps/data_collection/management/commands/__init__.py:112-120 | after a successful loop the table holds the old keys plus one per district. Each key holds the last district written under it, and untouched keys keep their dict |
| ImportSpec.ImportStationInfosDone | polling_stations/apps/data_collection/management/commands/__init__.py:78-85 | the station loop succeeds iff every row mapped and every station not skipped has an id |
| ImportSpec.ImportStationInfosStored | polling_stations/apps/data_collection/management/commands/__init__.py:78-85 | after a successful loop the table holds the old keys plus one per station written, and skipped rows add nothing. Each key holds the last station written under it, and untouched keys keep their dict |
| ImportSpec.CsvStationsKeepMapperCouncil | polling_stations/apps/data_collection/management/commands/__init__.py:78-85 | a stored station keeps the council its mapper gave, else gets the run's, and otherwise is the mapper's dict |
| ImportSpec.ImportDistrictsFrame | polling_stations/apps/data_collection/management/commands/__init__.py:107-120 | every district reader writes only under the run's council and leaves stations alone |
| ImportSpec.ImportStationsFrame | polling_stations/apps/data_collection/management/commands/__init__.py:74-85 | every station reader writes only under the run's council and leaves districts alone |
| ImportSpec.ImportDataFrame | polling_stations/apps/data_collection/management/commands/__init__.py:53-58 | `import_data` leaves every other council's data as it was |
| ImportSpec.HandleForgetsOldData | polling_stations/apps/data_collection/management/commands/__init__.py:87-100 | for a known council, what a run leaves does not depend on that council's data before the run |
| ImportSpec.HandleIdempotent | polling_stations/apps/data_collection/management/commands/__init__.py:87-100 | running the same import twice gives the same tables and outcome as running it once |
| ImportSpec.HandleWithoutFolder | polling_stations/apps/data_collection/management/commands/__init__.py:93-99 | with no matching folder the run fails after the purge: the council has no districts and no stations, and every other council keeps its data |
| ImportSpec.HandleDistrictFailureLeavesNoStations | polling_stations/apps/data_collection/management/commands/__init__.py:53-58 | districts run before stations, so a failed district import leaves the council without any station |
| ImportSpec.HandleKmzWithoutDocKml | polling_stations/apps/data_collection/management/commands/__init__.py:215-227 | a `.kmz` districts file without `doc.kml` ends the run with `NotFound` after the purge, leaving the council with no districts and no stations |
| ImportSpec.HandleUnknownCouncil | polling_stations/apps/data_collection/management/commands/__init__.py:91 | an unknown council fails before anything is deleted |
| Importer.BaseImporter.constructor | polling_stations/apps/data_collection/management/commands/__init__.py:20-26 | a new importer has the given SRID and council id, and no council or folder yet |
| Importer.BaseImporter.AddPollingDistrict | polling_stations/apps/data_collection/management/commands/__init__.py:60-65 | the tables become the district upsert of the old tables |
| Importer.BaseImporter.AddPollingStation | polling_stations/apps/data_collection/management/commands/__init__.py:67-72 | the tables become the station upsert of the old tables, or stay unchanged with a failure when the station has no id |
| Importer.BaseImporter.ImportShpDistricts | polling_stations/apps/data_collection/management/commands/__init__.py:107-120 | the shapefile district loop leaves the tables and outcome the district fold gives |
| Importer.BaseImporter.ImportJasonDistricts | polling_stations/apps/data_collection/management/commands/__init__.py:155-169 | the geo-document district loop leaves the tables and outcome the district fold gives |
| Importer.BaseImporter.KmlDistrictRecordToDict | polling_stations/apps/data_collection/management/commands/__init__.py:185-199 | returns `KmlDistrictInfo`. It saves `srid` in `_srid` once the altitudes are stripped and builds the polygon with 4326. `srid` is restored whenever the polygon builds, and stays 4326 when it does not |
| Importer.BaseImporter.ImportKmlDistricts | polling_stations/apps/data_collection/management/commands/__init__.py:201-227 | the KML district loop, after the `.kmz` dispatch, leaves the tables and outcome the district fold gives; on success `srid` is as before |
| Importer.BaseImporter.ImportPollingStations | polling_stations/apps/data_collection/management/commands/__init__.py:74-85 | the delimited-text station loop leaves the tables and outcome the station fold gives |
| Importer.BaseImporter.ImportDistrictFeed | polling_stations/apps/data_collection/management/commands/__init__.py:57 | the district reader of the feed's kind leaves the tables and outcome `ImportDistrictsSpec` gives |
| Importer.BaseImporter.ImportStationFeed | polling_stations/apps/data_collection/management/commands/__init__.py:128-129 | the station reader of the feed's kind, delimited text or shapefile, leaves the tables and outcome `ImportStationsSpec` gives |
| Importer.BaseImporter.ImportData | polling_stations/apps/data_collection/management/commands/__init__.py:53-58 | districts then stations leave the tables and outcome `ImportDataSpec` gives |
| Importer.BaseImporter.Handle | polling_stations/apps/data_collection/management/commands/__init__.py:87-100 | without a configured id and without arguments the run fails and changes nothing. Otherwise the id is the configured one or the first argument, and the run leaves the tables and outcome `HandleSpec` gives. It records the council and the folder found |
| Importer.ImportPollingStationShapefiles | polling_stations/apps/data_collection/management/commands/__init__.py:132-146 | the shapefile station loop, with each shape's first point as location, leaves the tables and outcome the station fold gives |
| Canterbury.DistrictStepRecordsAddress | polling_stations/apps/data_collection/management/commands/import_canterbury.py:20-35 | a mapped district records its trimmed code and address in the pending map, and a repeat with the same address leaves the map as it was. Its id and polling-station id are the code, and its name is the trimmed `NAME`, ` - ` and the code |
| Canterbury.DistrictStepConflict | polling_stations/apps/data_collection/management/commands/import_canterbury.py:25-26 | a code already pending with another address is refused and the pending map is unchanged |
| Canterbury.StationStepConsumes | polling_stations/apps/data_collection/management/commands/import_canterbury.py:48-58 | a station's address is its trimmed code's pending address, and that entry is removed. A code not pending is an error that changes nothing. The postcode is empty |
| Canterbury.SinglePointParse | polling_stations/apps/data_collection/management/commands/import_canterbury.py:40-46 | relabelling a one-position multi-point as a point gives the point that position makes |
| Canterbury.Flush | polling_stations/apps/data_collection/management/commands/import_canterbury.py:60-71 | one station per pending code, with that address, an empty postcode, no location and the run's council; every other entry is kept |
| Canterbury.FlushAdd | polling_stations/apps/data_collection/management/commands/import_canterbury.py:64-71 | flushing one more pending code is upserting its leftover station |
| Canterbury.Command.constructor | polling_stations/apps/data_collection/management/commands/import_canterbury.py:6-18 | a new importer works in SRID 4326 for council E07000106 with an empty pending map |
| Canterbury.Command.DistrictRecordToDict | polling_stations/apps/data_collection/management/commands/import_canterbury.py:20-35 | returns the dict and leaves the pending map that `DistrictStep` gives |
| Canterbury.Command.ExtractJsonPoint | polling_stations/apps/data_collection/management/commands/import_canterbury.py:37-46 | a one-position multi-point becomes a point; any other geometry goes through `clean_poly` with the importer's SRID |
| Canterbury.Command.StationRecordToDict | polling_stations/apps/data_collection/management/commands/import_canterbury.py:48-58 | returns the dict and leaves the pending map that `StationStep` gives |
| Canterbury.Command.ImportDistricts | polling_stations/apps/data_collection/management/commands/import_canterbury.py:20-35 | the district loop leaves the tables, pending map and outcome `JoinDistricts` gives |
| Canterbury.Command.ImportStations | polling_stations/apps/data_collection/management/commands/import_canterbury.py:48-58 | the station loop leaves the tables, pending map and outcome `JoinStations` gives |
| Canterbury.Command.PostImport | polling_stations/apps/data_collection/management/commands/import_canterbury.py:60-71 | the loop over the pending codes leaves the tables `Flush` gives |
| Canterbury.Command.Run | polling_stations/apps/data_collection/management/commands/import_canterbury.py:60-71 | districts, then stations, then `post_import` leave the tables and outcome `JoinRun` gives |
| Canterbury.JoinDistrictsKeepsStations | polling_stations/apps/data_collection/management/commands/import_canterbury.py:20-35 | the district loop writes no station |
| Canterbury.JoinDistrictsRows | polling_stations/apps/data_collection/management/commands/import_canterbury.py:22-23 | a finished district loop read `ID` and `POLLING_PL` from every row |
| Canterbury.JoinDistrictsPending | polling_stations/apps/data_collection/management/commands/import_canterbury.py:22-28 | a finished district loop added every row's code to the pending map with that row's address, and kept the earlier entries |
| Canterbury.JoinStationsPending | polling_stations/apps/data_collection/management/commands/import_canterbury.py:49-51 | a finished station loop met only pending codes, and removed exactly the codes it met |
| Canterbury.JoinStationsStored | polling_stations/apps/data_collection/management/commands/import_canterbury.py:48-58 | a finished station loop wrote, per code met, a located station with its pending address, and nothing else |
| Canterbury.JoinRunStations | polling_stations/apps/data_collection/management/commands/import_canterbury.py:18-71 | end to end, from an empty pending map and no stations of the council: the council's stations are exactly one per district code, each with its address, an empty postcode and the council. A station has a location iff its code appeared in the station feed |
| Doncaster.DistrictRecordToDict | polling_stations/apps/data_collection/management/commands/import_doncaster.py:12-20 | maps iff the extractor succeeds and `CODE` is present; errors in that order; the area is the extracted geometry and no council is set |
| Doncaster.StationRecordToDict | polling_stations/apps/data_collection/management/commands/import_doncaster.py:22-29 | maps iff the extractor succeeds and `POLLING_DI` and `ADDRESS` are present; errors in that order; the location is the extracted geometry and no council is set |
| Doncaster.DistrictIdIsTrimmedCode | polling_stations/apps/data_collection/management/commands/import_doncaster.py:14-19 | id, name and polling-station id are one string, and that string is `m` iff `m` is `CODE` trimmed |
| Doncaster.StationFieldsAreTrimmed | polling_stations/apps/data_collection/management/commands/import_doncaster.py:25-27 | the id is `POLLING_DI` trimmed, the address is `ADDRESS` trimmed, and the postcode is empty |
| Doncaster.DistrictIgnoresPadding | polling_stations/apps/data_collection/management/commands/import_doncaster.py:14 | whitespace around `CODE` does not change the district |
| Doncaster.StationIgnoresPadding | polling_stations/apps/data_collection/management/commands/import_doncaster.py:25-27 | whitespace around `POLLING_DI` or `ADDRESS` does not change the station |
| Doncaster.MappersAreStateless | polling_stations/apps/data_collection/management/commands/import_doncaster.py:12-29 | two records that agree on the trimmed fields read and on the extractor's result map to the same dicts |

## Left out

- `import_onsad` is not part of this model. It is a bulk SQL copy with no record logic.
- The database layer is two maps. It has no ORM, no queries and no transactions, and the councils table is a set of known ids.
- Persistence.UpsertDistrict, Persistence.UpsertStation: a dict is stored under the run's council even when it carries a different `council` of its own. Django's `update_or_create` takes `council` from the dict, so such a row would belong to the other council and escape the purge. No mapper in the modelled files supplies a council, and `ImportSpec.ImportDataFrame` and the other frame lemmas rely on this keying.
- `update_or_create` is modelled as replacing the stored dict. Django keeps columns the new dict omits, but every mapper here supplies the same fixed set of fields.
- `handle` deletes stations and then districts. The model does both in one `Purge`, since nothing can fail between the two deletes.
- GEOS, GDAL, `shapefile.Reader`, the CSV, JSON and temporary-file helpers, and `zipfile` are left out. A feed is a sequence of records already read. GeoJSON text is its parsed tree, so `json.loads` and `json.dumps` are the identity. A KML archive is a map from entry name to features.
- `os.path.abspath` is left out. The folder is the listing entry itself.
- The folder pattern `{council_id}-*` is read as a prefix test. Glob metacharacters inside a council id are not modelled. The listing order stands for glob's order.
- Coordinates are opaque integers and an SRID is only a tag. The model does no reprojection and no GEOS validity check (ring closure, orientation). A geometry builds from any coordinate tree of the right depth whose positions have two or three numbers.
- Strings are sequences of code points, with no encoding or decoding. Whitespace for `strip` is the fixed list of code points Python 3's `str.isspace` accepts.
- `BaseMorphApiImporter`, `extract_geometry`, `get_srid` and `StationSet` are not part of this model. The geometry extractor is a function parameter and the feed SRIDs are parameters. The Canterbury loops are assumed to map, fill in the council and upsert as the base loops do, with `post_import` after the station loop. Each `post_import` station is upserted at once rather than collected and saved.
- Canterbury's `station_addresses` is a class attribute shared by every instance. The model gives each importer its own pending map, starting empty.
- `BaseJasonImporter` tests `'council' in district_info` before its `None` check, so a mapper returning `None` fails there instead of being skipped. District mappers are typed never to return `None`, and this path is not modelled.
- `extract_json_point` parses a feature and reads its `geometry` member. The model starts from that member. In `JsonPoint` the rewrite is stated on parsed geometries, and `SinglePointParse` connects it to the rewrite on the GeoJSON tree.
- A Python exception is a `Failed` outcome carrying an error value. The exception's class and message are not modelled.

Behaviour of the code the model keeps on purpose:
- A run that fails part-way keeps the records it wrote before the failure. There is no rollback, so an import can be partial.
- `strip_z_values` strips altitudes only from the outer ring of the first polygon. Inner rings keep theirs, and every polygon after the first is dropped.
- The KML mapper does not restore `srid` when the polygon fails to build. The run stops there with `srid` left at 4326.
- Canterbury refuses a conflicting address in the district mapper, not the station mapper.
