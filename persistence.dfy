/** The persistence collaborator: the polling-district and polling-station tables,
    each a map from its natural key (council, internal council id) to the dict last
    written under that key. */
module Persistence {
  import opened Results
  import opened Records

  datatype Key = Key(council: CouncilId, id: string)

  datatype Db = Db(districts: map<Key, DistrictInfo>, stations: map<Key, StationInfo>)

  /** The key `add_polling_district` looks a district up by: a district without an id
      goes under the id `none`. */
  function DistrictKey(c: CouncilId, info: DistrictInfo): (k: Key)
    ensures k.council == c
    ensures info.internalCouncilId.None? ==> k.id == "none"
    ensures info.internalCouncilId.Some? ==> k.id == info.internalCouncilId.value
  {
    Key(c, info.internalCouncilId.GetOr("none"))
  }

  /** `update_or_create` on the district table: afterwards the district's key maps to the
      new dict and every other entry of both tables is as it was. */
  function UpsertDistrict(db: Db, c: CouncilId, info: DistrictInfo): (r: Db)
    ensures r.stations == db.stations
    ensures r.districts.Keys == db.districts.Keys + {DistrictKey(c, info)}
    ensures r.districts[DistrictKey(c, info)] == info
    ensures forall k :: k in db.districts && k != DistrictKey(c, info) ==> r.districts[k] == db.districts[k]
  {
    db.(districts := db.districts[DistrictKey(c, info) := info])
  }

  /** `update_or_create` on the station table, which looks the station up by
      `station_info['internal_council_id']`: a station without an id is an error and
      changes nothing; otherwise its key maps to the new dict and nothing else changes. */
  function UpsertStation(db: Db, c: CouncilId, info: StationInfo): (r: Result<Db>)
    ensures r.Err? <==> info.internalCouncilId.None?
    ensures r.Err? ==> r.error == MissingField("internal_council_id")
    ensures r.Ok? ==>
      var key := Key(c, info.internalCouncilId.value);
      && r.value.districts == db.districts
      && r.value.stations.Keys == db.stations.Keys + {key}
      && r.value.stations[key] == info
      && forall k :: k in db.stations && k != key ==> r.value.stations[k] == db.stations[k]
  {
    match info.internalCouncilId
    case None => Err(MissingField("internal_council_id"))
    case Some(id) => Ok(db.(stations := db.stations[Key(c, id) := info]))
  }

  /** Deleting every district and station of council `c`: exactly the entries of other
      councils remain, unchanged. */
  function Purge(db: Db, c: CouncilId): (r: Db)
    ensures forall k :: k in r.districts <==> k in db.districts && k.council != c
    ensures forall k :: k in r.districts ==> r.districts[k] == db.districts[k]
    ensures forall k :: k in r.stations <==> k in db.stations && k.council != c
    ensures forall k :: k in r.stations ==> r.stations[k] == db.stations[k]
  {
    Db(map k | k in db.districts && k.council != c :: db.districts[k],
       map k | k in db.stations && k.council != c :: db.stations[k])
  }

  lemma PurgeIdempotent(db: Db, c: CouncilId)
    ensures Purge(Purge(db, c), c) == Purge(db, c)
  {
  }

  /** Writing under council `c` is invisible once `c` is purged. */
  lemma PurgeAfterUpsertDistrict(db: Db, c: CouncilId, info: DistrictInfo)
    ensures Purge(UpsertDistrict(db, c, info), c) == Purge(db, c)
  {
  }

  lemma PurgeAfterUpsertStation(db: Db, c: CouncilId, info: StationInfo)
    requires info.internalCouncilId.Some?
    ensures Purge(UpsertStation(db, c, info).value, c) == Purge(db, c)
  {
  }

  /** The tables, as one mutable cell that every importer writes through. */
  class Store {
    var db: Db

    constructor(db: Db)
      ensures this.db == db
    {
      this.db := db;
    }
  }
}
