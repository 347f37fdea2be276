/**
 * The JSON objects that flow through the tide-station pipeline.
 *
 * Each object is a dictionary in the pipeline; here it is a datatype with one
 * field per key the pipeline reads or writes. A key that is present holds
 * `Some(value)`, a key that is absent holds `None`, so `dict.get(key, default)`
 * becomes `GetOr(default)`.
 */
module Records {

  datatype Option<+T> = None | Some(value: T) {
    /** The value, or `default` when the key is absent. */
    function GetOr(default: T): T {
      match this
      case Some(v) => v
      case None => default
    }
  }

  /** One entry of a station's "HarmonicConstituents" list. */
  datatype ConstituentRecord = ConstituentRecord(
    name: Option<string>,
    amplitude: Option<real>,
    phaseGmt: Option<real>)

  /** The document returned by the harmonic-constituent endpoint. */
  datatype HarmonicsDoc = HarmonicsDoc(constituents: Option<seq<ConstituentRecord>>)

  /** The constituent list of a harmonics document; an absent list reads as empty. */
  function ConstituentsOf(h: HarmonicsDoc): seq<ConstituentRecord> {
    h.constituents.GetOr([])
  }

  /** One entry of the "datums" list of the datum endpoint: its "name" and "value" keys, each of which may be absent. */
  datatype Datum = Datum(name: Option<string>, value: Option<real>)

  /** The document returned by the datum endpoint. */
  datatype DatumsDoc = DatumsDoc(datums: Option<seq<Datum>>)

  /**
   * The document returned by the subordinate-offset endpoint: the four keys the
   * builder reads, and whether the object has any other key.
   */
  datatype OffsetsDoc = OffsetsDoc(
    timeOffsetHighTide: Option<int>,
    timeOffsetLowTide: Option<int>,
    heightOffsetHighTide: Option<real>,
    heightOffsetLowTide: Option<real>,
    otherKeys: bool)
  {
    /** A dictionary is truthy when it has at least one key. */
    predicate Truthy() {
      otherKeys || timeOffsetHighTide.Some? || timeOffsetLowTide.Some?
      || heightOffsetHighTide.Some? || heightOffsetLowTide.Some?
    }
  }

  /**
   * A station object: the keys delivered by the station-list endpoint ("id",
   * "name", "state", "region", "lat", "lng", "timezoneOffset", "reference_id")
   * and the keys the fetcher adds ("type", "harmonics", "datumOffset",
   * "referenceStationId", "tidepredoffsets").
   */
  datatype StationRecord = StationRecord(
    id: Option<string>,
    name: Option<string>,
    state: Option<string>,
    region: Option<string>,
    lat: Option<real>,
    lng: Option<real>,
    timezoneOffset: Option<int>,
    referenceId: Option<string>,
    kind: Option<string>,
    harmonics: Option<HarmonicsDoc>,
    datumOffset: Option<real>,
    referenceStationId: Option<string>,
    tidePredOffsets: Option<OffsetsDoc>)

  /** A station object that carries only an id. */
  function BareStation(id: string): StationRecord {
    StationRecord(Some(id), None, None, None, None, None, None, None, None, None, None, None, None)
  }

  /** Python truthiness of an optional string: present and non-empty. */
  predicate TruthyString(s: Option<string>) {
    s.Some? && s.value != ""
  }
}
