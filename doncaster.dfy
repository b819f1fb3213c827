/** Doncaster's two record mappers. Both read a few fields, trim them and hand the
    geometry extractor the whole record; neither keeps any state between records. */
module Doncaster {
  import opened Results
  import opened Text
  import opened Geometry
  import opened Records

  /** `district_record_to_dict`, with `extract` standing for the district geometry extractor
      the importer inherits: the area first, then the trimmed `CODE` as id, name and
      polling-station id. */
  function DistrictRecordToDict(row: Row, extract: Row -> Result<Geometry>): (r: Result<DistrictInfo>)
    ensures r.Ok? <==> extract(row).Ok? && "CODE" in row.fields
    ensures extract(row).Err? ==> r == Err(extract(row).error)
    ensures extract(row).Ok? && "CODE" !in row.fields ==> r == Err(MissingField("CODE"))
    ensures r.Ok? ==> r.value.area == Some(extract(row).value) && r.value.council.None?
  {
    match extract(row)
    case Err(e) => Err(e)
    case Ok(poly) =>
      match Field(row.fields, "CODE")
      case Err(e) => Err(e)
      case Ok(raw) =>
        var code := Strip(raw);
        Ok(DistrictInfo(None, Some(code), code, Some(poly), Some(code)))
  }

  /** `station_record_to_dict`: the location first, then the trimmed `POLLING_DI` as id,
      an empty postcode, and the trimmed `ADDRESS`. */
  function StationRecordToDict(row: Row, extract: Row -> Result<Geometry>): (r: Result<StationInfo>)
    ensures r.Ok? <==> extract(row).Ok? && "POLLING_DI" in row.fields && "ADDRESS" in row.fields
    ensures extract(row).Err? ==> r == Err(extract(row).error)
    ensures extract(row).Ok? && "POLLING_DI" !in row.fields ==> r == Err(MissingField("POLLING_DI"))
    ensures extract(row).Ok? && "POLLING_DI" in row.fields && "ADDRESS" !in row.fields ==> r == Err(MissingField("ADDRESS"))
    ensures r.Ok? ==> r.value.location == Some(extract(row).value) && r.value.council.None?
  {
    match extract(row)
    case Err(e) => Err(e)
    case Ok(location) =>
      match Field(row.fields, "POLLING_DI")
      case Err(e) => Err(e)
      case Ok(id) =>
        match Field(row.fields, "ADDRESS")
        case Err(e) => Err(e)
        case Ok(address) => Ok(StationInfo(None, Some(Strip(id)), Strip(address), "", Some(location)))
  }

  /** A district's id is the trimmed `CODE`, and no other string is: its id, name and
      polling-station id are all that one trimmed code. */
  lemma DistrictIdIsTrimmedCode(row: Row, extract: Row -> Result<Geometry>, m: string)
    requires DistrictRecordToDict(row, extract).Ok?
    ensures var d := DistrictRecordToDict(row, extract).value;
      && d.internalCouncilId.Some?
      && d.name == d.internalCouncilId.value
      && d.pollingStationId == d.internalCouncilId
      && (d.internalCouncilId == Some(m) <==> TrimmedFrom(m, row.fields["CODE"]))
  {
    StripMeaning(row.fields["CODE"], m);
  }

  /** A station's id is the trimmed `POLLING_DI`, its address the trimmed `ADDRESS`, and
      its postcode is empty. */
  lemma StationFieldsAreTrimmed(row: Row, extract: Row -> Result<Geometry>, id: string, address: string)
    requires StationRecordToDict(row, extract).Ok?
    ensures var s := StationRecordToDict(row, extract).value;
      && s.postcode == ""
      && (s.internalCouncilId == Some(id) <==> TrimmedFrom(id, row.fields["POLLING_DI"]))
      && (s.address == address <==> TrimmedFrom(address, row.fields["ADDRESS"]))
  {
    StripMeaning(row.fields["POLLING_DI"], id);
    StripMeaning(row.fields["ADDRESS"], address);
  }

  /** Padding a district's `CODE` with whitespace changes nothing. */
  lemma DistrictIgnoresPadding(row: Row, extract: Row -> Result<Geometry>, before: string, after: string)
    requires DistrictRecordToDict(row, extract).Ok?
    requires AllSpace(before) && AllSpace(after)
    requires extract(row.(fields := row.fields["CODE" := before + row.fields["CODE"] + after])) == extract(row)
    ensures DistrictRecordToDict(row.(fields := row.fields["CODE" := before + row.fields["CODE"] + after]), extract)
         == DistrictRecordToDict(row, extract)
  {
    StripIgnoresPadding(before, row.fields["CODE"], after);
  }

  /** Padding a station's `POLLING_DI` or `ADDRESS` with whitespace changes nothing. */
  lemma StationIgnoresPadding(row: Row, extract: Row -> Result<Geometry>, before: string, after: string, field: string)
    requires StationRecordToDict(row, extract).Ok?
    requires field == "POLLING_DI" || field == "ADDRESS"
    requires AllSpace(before) && AllSpace(after)
    requires extract(row.(fields := row.fields[field := before + row.fields[field] + after])) == extract(row)
    ensures StationRecordToDict(row.(fields := row.fields[field := before + row.fields[field] + after]), extract)
         == StationRecordToDict(row, extract)
  {
    StripIgnoresPadding(before, row.fields[field], after);
  }

  /** Stateless: two records that agree on the trimmed fields a mapper reads, and on what
      the extractor makes of them, map to the same dict. */
  lemma MappersAreStateless(row1: Row, row2: Row, extract: Row -> Result<Geometry>)
    requires extract(row1) == extract(row2)
    requires forall f :: f in {"CODE", "POLLING_DI", "ADDRESS"} ==>
      (f in row1.fields <==> f in row2.fields) && (f in row1.fields ==> Strip(row1.fields[f]) == Strip(row2.fields[f]))
    ensures DistrictRecordToDict(row1, extract) == DistrictRecordToDict(row2, extract)
    ensures StationRecordToDict(row1, extract) == StationRecordToDict(row2, extract)
  {
    assert "CODE" in {"CODE", "POLLING_DI", "ADDRESS"};
    assert "POLLING_DI" in {"CODE", "POLLING_DI", "ADDRESS"};
    assert "ADDRESS" in {"CODE", "POLLING_DI", "ADDRESS"};
  }
}
