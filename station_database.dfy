/**
 * The database builder (tools/data-pipeline/build_database.py): each station
 * object is mapped to a row of the stations table, its harmonic constituents
 * to rows of the constituents table, and its subordinate offsets to a row of
 * the offsets table. Every write is an insert-or-replace keyed by the table's
 * primary key, so a table is a map from key to row.
 */
module StationDatabase {
  import opened Records
  import opened StationNames

  /** A row of `stations`, keyed by `id`. */
  datatype StationRow = StationRow(
    name: string,
    state: string,
    latitude: real,
    longitude: real,
    kind: string,
    timezoneOffset: int,
    referenceStationId: Option<string>,
    datumOffset: real)

  /** The primary key of `harmonic_constituents`. */
  datatype ConstituentKey = ConstituentKey(stationId: string, constituentName: string)

  /** A row of `harmonic_constituents` without its key columns. */
  datatype ConstituentRow = ConstituentRow(amplitude: real, phaseLocal: real)

  /** A row of `subordinate_offsets`, keyed by `stationId`. */
  datatype OffsetRow = OffsetRow(
    referenceStationId: string,
    timeOffsetHigh: int,
    timeOffsetLow: int,
    heightOffsetHigh: real,
    heightOffsetLow: real)

  /** The contents of the three tables. */
  datatype Tables = Tables(
    stations: map<string, StationRow>,
    constituents: map<ConstituentKey, ConstituentRow>,
    offsets: map<string, OffsetRow>)

  const EmptyTables := Tables(map[], map[], map[])

  /** `insert_station`'s row: the station's fields with their defaults, the name normalised. */
  function StationRowOf(rec: StationRecord): StationRow {
    StationRow(
      NormalizedName(rec.name.GetOr("Unknown")),
      rec.state.GetOr(rec.region.GetOr("Unknown")),
      rec.lat.GetOr(0.0),
      rec.lng.GetOr(0.0),
      rec.kind.GetOr("harmonic"),
      rec.timezoneOffset.GetOr(0),
      rec.referenceStationId,
      rec.datumOffset.GetOr(0.0))
  }

  /** `insert_harmonics`' row for one constituent; the phase column holds the GMT phase. */
  function ConstituentRowOf(c: ConstituentRecord): ConstituentRow {
    ConstituentRow(c.amplitude.GetOr(0.0), c.phaseGmt.GetOr(0.0))
  }

  /** `insert_subordinate_offsets`' row: time offsets default to 0, height factors to 1.0. */
  function OffsetRowOf(referenceId: string, o: OffsetsDoc): OffsetRow {
    OffsetRow(
      referenceId,
      o.timeOffsetHighTide.GetOr(0),
      o.timeOffsetLowTide.GetOr(0),
      o.heightOffsetHighTide.GetOr(1.0),
      o.heightOffsetLowTide.GetOr(1.0))
  }

  /** Every constituent has a name (the `constituentName` column is NOT NULL). */
  predicate AllNamed(cs: seq<ConstituentRecord>) {
    forall k :: 0 <= k < |cs| ==> cs[k].name.Some?
  }

  /**
   * The constituents table after writing `cs` in order for one station: each
   * named constituent replaces the row under its key; the first unnamed one
   * fails its statement and nothing after it is written.
   */
  function UpsertConstituents(t: map<ConstituentKey, ConstituentRow>, stationId: string,
                              cs: seq<ConstituentRecord>): map<ConstituentKey, ConstituentRow>
    decreases |cs|
  {
    if cs == [] then t
    else match cs[0].name
      case None => t
      case Some(n) => UpsertConstituents(t[ConstituentKey(stationId, n) := ConstituentRowOf(cs[0])], stationId, cs[1..])
  }

  /** The build loop's first branch: type (default "harmonic") is "harmonic" and "harmonics" is present. */
  predicate HarmonicBranch(rec: StationRecord) {
    rec.kind.GetOr("harmonic") == "harmonic" && rec.harmonics.Some?
  }

  /** The other branch writes offsets when both "referenceStationId" and "tidepredoffsets" are present. */
  predicate OffsetBranch(rec: StationRecord) {
    !HarmonicBranch(rec) && rec.referenceStationId.Some? && rec.tidePredOffsets.Some?
  }

  /** A record whose rows violate a NOT NULL column: no id, or an unnamed constituent. */
  predicate Rejected(rec: StationRecord) {
    rec.id.None? || (HarmonicBranch(rec) && !AllNamed(ConstituentsOf(rec.harmonics.value)))
  }

  /** One iteration of the build loop, or None when one of its statements fails. */
  function Step(t: Tables, rec: StationRecord): Option<Tables> {
    if rec.id.None? then None
    else
      var sid := rec.id.value;
      var stations := t.stations[sid := StationRowOf(rec)];
      if HarmonicBranch(rec) then
        var cs := ConstituentsOf(rec.harmonics.value);
        if AllNamed(cs) then Some(Tables(stations, UpsertConstituents(t.constituents, sid, cs), t.offsets))
        else None
      else if OffsetBranch(rec) then
        var row := OffsetRowOf(rec.referenceStationId.value, rec.tidePredOffsets.value);
        Some(Tables(stations, t.constituents, t.offsets[sid := row]))
      else Some(Tables(stations, t.constituents, t.offsets))
  }

  /** The tables after the build loop has run over `recs`, starting from empty tables; None if it fails. */
  function BuildTables(recs: seq<StationRecord>): Option<Tables> {
    if recs == [] then Some(EmptyTables)
    else match BuildTables(recs[..|recs| - 1])
      case None => None
      case Some(t) => Step(t, recs[|recs| - 1])
  }

  /** Number of records that take the harmonic branch. */
  function HarmonicCount(recs: seq<StationRecord>): nat {
    if recs == [] then 0
    else HarmonicCount(recs[..|recs| - 1]) + (if HarmonicBranch(recs[|recs| - 1]) then 1 else 0)
  }

  datatype BuildOutcome =
    | Built(harmonicCount: nat, subordinateCount: nat)
    | Aborted

  /** The SQLite database file the builder writes. */
  class TideDatabase {
    var stations: map<string, StationRow>
    var constituents: map<ConstituentKey, ConstituentRow>
    var offsets: map<string, OffsetRow>

    function Contents(): Tables
      reads this
    {
      Tables(stations, constituents, offsets)
    }

    /** A new database file with the three tables created and empty. */
    constructor ()
      ensures Contents() == EmptyTables
    {
      stations, constituents, offsets := map[], map[], map[];
    }

    /** `insert_station`: upsert the station row under its id; a missing id fails the statement. */
    method InsertStation(rec: StationRecord) returns (ok: bool)
      modifies this
      ensures ok == rec.id.Some?
      ensures ok ==> stations == old(stations)[rec.id.value := StationRowOf(rec)]
      ensures !ok ==> stations == old(stations)
      ensures constituents == old(constituents) && offsets == old(offsets)
    {
      var name := NormalizeStationName(rec.name.GetOr("Unknown"));
      var row := StationRow(
        name,
        rec.state.GetOr(rec.region.GetOr("Unknown")),
        rec.lat.GetOr(0.0),
        rec.lng.GetOr(0.0),
        rec.kind.GetOr("harmonic"),
        rec.timezoneOffset.GetOr(0),
        rec.referenceStationId,
        rec.datumOffset.GetOr(0.0));
      if rec.id.None? {
        return false;
      }
      stations := stations[rec.id.value := row];
      ok := true;
    }

    /**
     * `insert_harmonics`: upsert one row per constituent, keyed by (station id,
     * constituent name), in list order; an unnamed constituent fails its statement.
     */
    method InsertHarmonics(stationId: string, harmonics: HarmonicsDoc) returns (ok: bool)
      modifies this
      ensures ok == AllNamed(ConstituentsOf(harmonics))
      ensures constituents == UpsertConstituents(old(constituents), stationId, ConstituentsOf(harmonics))
      ensures stations == old(stations) && offsets == old(offsets)
    {
      var cs := ConstituentsOf(harmonics);
      var i := 0;
      while i < |cs|
        invariant 0 <= i <= |cs|
        invariant AllNamed(cs[..i])
        invariant UpsertConstituents(constituents, stationId, cs[i..])
               == UpsertConstituents(old(constituents), stationId, cs)
        invariant stations == old(stations) && offsets == old(offsets)
      {
        var c := cs[i];
        if c.name.None? {
          return false;
        }
        assert cs[i..][1..] == cs[i + 1..];
        constituents := constituents[ConstituentKey(stationId, c.name.value) := ConstituentRowOf(c)];
        i := i + 1;
        assert cs[..i] == cs[..i - 1] + [c];
      }
      assert cs[..i] == cs;
      ok := true;
    }

    /** `insert_subordinate_offsets`: upsert the offset row under the station id. */
    method InsertSubordinateOffsets(stationId: string, referenceId: string, doc: OffsetsDoc)
      modifies this
      ensures offsets == old(offsets)[stationId := OffsetRowOf(referenceId, doc)]
      ensures stations == old(stations) && constituents == old(constituents)
    {
      var row := OffsetRow(
        referenceId,
        doc.timeOffsetHighTide.GetOr(0),
        doc.timeOffsetLowTide.GetOr(0),
        doc.heightOffsetHighTide.GetOr(1.0),
        doc.heightOffsetLowTide.GetOr(1.0));
      offsets := offsets[stationId := row];
    }

    /**
     * `build_database`: start from a fresh file, run every record through the
     * loop, and commit. A failing statement ends the run before the commit, so
     * the tables are left as the schema created them: empty.
     */
    method Build(records: seq<StationRecord>) returns (outcome: BuildOutcome)
      modifies this
      ensures outcome.Aborted? <==> BuildTables(records).None?
      ensures outcome.Aborted? ==> Contents() == EmptyTables
      ensures outcome.Built? ==> BuildTables(records) == Some(Contents())
      ensures outcome.Built? ==> outcome.harmonicCount == HarmonicCount(records)
      ensures outcome.Built? ==> outcome.harmonicCount + outcome.subordinateCount == |records|
    {
      stations, constituents, offsets := map[], map[], map[];
      var harmonicCount, subordinateCount := 0, 0;
      var i := 0;
      while i < |records|
        invariant 0 <= i <= |records|
        invariant BuildTables(records[..i]) == Some(Contents())
        invariant harmonicCount == HarmonicCount(records[..i])
        invariant harmonicCount + subordinateCount == i
      {
        var rec := records[i];
        assert records[..i + 1][..i] == records[..i];
        ghost var before := Contents();
        var ok := InsertStation(rec);
        if ok {
          if rec.kind.GetOr("harmonic") == "harmonic" && rec.harmonics.Some? {
            ok := InsertHarmonics(rec.id.value, rec.harmonics.value);
            harmonicCount := harmonicCount + 1;
          } else {
            if rec.referenceStationId.Some? && rec.tidePredOffsets.Some? {
              InsertSubordinateOffsets(rec.id.value, rec.referenceStationId.value, rec.tidePredOffsets.value);
            }
            subordinateCount := subordinateCount + 1;
          }
        }
        if !ok {
          stations, constituents, offsets := map[], map[], map[];
          assert BuildTables(records[..i + 1]).None?;
          AbortIsFinal(records, i + 1);
          return Aborted;
        }
        assert Step(before, rec) == Some(Contents());
        i := i + 1;
      }
      assert records[..i] == records;
      outcome := Built(harmonicCount, subordinateCount);
    }
  }

  // ---------------------------------------------------------------- failure

  /** The build fails exactly when some record is rejected by a NOT NULL column. */
  lemma {:induction false} BuildFailsIff(recs: seq<StationRecord>)
    ensures BuildTables(recs).None? <==> exists j :: 0 <= j < |recs| && Rejected(recs[j])
  {
    if recs != [] {
      var n := |recs| - 1;
      var init := recs[..n];
      BuildFailsIff(init);
      forall j | 0 <= j < n ensures init[j] == recs[j] { }
      if BuildTables(init).None? {
        var j :| 0 <= j < n && Rejected(init[j]);
        assert Rejected(recs[j]);
      }
    }
  }

  /** Once a prefix of the records fails, the whole build fails. */
  lemma AbortIsFinal(recs: seq<StationRecord>, i: nat)
    requires i <= |recs| && BuildTables(recs[..i]).None?
    ensures BuildTables(recs).None?
  {
    BuildFailsIff(recs[..i]);
    var j :| 0 <= j < i && Rejected(recs[..i][j]);
    assert recs[..i][j] == recs[j];
    BuildFailsIff(recs);
  }

  // -------------------------------------------------------- constituent upsert

  /** A key no constituent in `cs` writes keeps its presence and its row. */
  lemma {:induction false} UpsertUntouched(t: map<ConstituentKey, ConstituentRow>, stationId: string,
                                           cs: seq<ConstituentRecord>, k: ConstituentKey)
    requires forall j :: 0 <= j < |cs| && cs[j].name.Some? ==> ConstituentKey(stationId, cs[j].name.value) != k
    ensures k in UpsertConstituents(t, stationId, cs) <==> k in t
    ensures k in t ==> UpsertConstituents(t, stationId, cs)[k] == t[k]
    decreases |cs|
  {
    if cs != [] && cs[0].name.Some? {
      var t' := t[ConstituentKey(stationId, cs[0].name.value) := ConstituentRowOf(cs[0])];
      UpsertUntouched(t', stationId, cs[1..], k);
    }
  }

  /** Rows of other stations are never touched by one station's constituents. */
  lemma OtherStationsUntouched(t: map<ConstituentKey, ConstituentRow>, stationId: string,
                               cs: seq<ConstituentRecord>, k: ConstituentKey)
    requires k.stationId != stationId
    ensures k in UpsertConstituents(t, stationId, cs) <==> k in t
    ensures k in t ==> UpsertConstituents(t, stationId, cs)[k] == t[k]
  {
    UpsertUntouched(t, stationId, cs, k);
  }

  /** Every key of the result was already there or names this station and one of the constituents. */
  lemma {:induction false} UpsertProvenance(t: map<ConstituentKey, ConstituentRow>, stationId: string,
                                            cs: seq<ConstituentRecord>, k: ConstituentKey)
    requires k in UpsertConstituents(t, stationId, cs)
    ensures k in t || (k.stationId == stationId &&
                       exists j :: 0 <= j < |cs| && cs[j].name == Some(k.constituentName))
    decreases |cs|
  {
    if cs != [] && cs[0].name.Some? {
      var t' := t[ConstituentKey(stationId, cs[0].name.value) := ConstituentRowOf(cs[0])];
      UpsertProvenance(t', stationId, cs[1..], k);
      if k !in t' {
        var j :| 0 <= j < |cs[1..]| && cs[1..][j].name == Some(k.constituentName);
        assert cs[j + 1].name == Some(k.constituentName);
      }
    }
  }

  /**
   * When every constituent is named, the row under a name is built from the
   * last constituent carrying that name: a repeated name replaces the earlier row.
   */
  lemma {:induction false} UpsertLastWins(t: map<ConstituentKey, ConstituentRow>, stationId: string,
                                          cs: seq<ConstituentRecord>, j: nat)
    requires AllNamed(cs) && j < |cs|
    requires forall m :: j < m < |cs| ==> cs[m].name != cs[j].name
    ensures ConstituentKey(stationId, cs[j].name.value) in UpsertConstituents(t, stationId, cs)
    ensures UpsertConstituents(t, stationId, cs)[ConstituentKey(stationId, cs[j].name.value)]
            == ConstituentRowOf(cs[j])
    decreases |cs|
  {
    var t' := t[ConstituentKey(stationId, cs[0].name.value) := ConstituentRowOf(cs[0])];
    assert UpsertConstituents(t, stationId, cs) == UpsertConstituents(t', stationId, cs[1..]);
    if j == 0 {
      UpsertUntouched(t', stationId, cs[1..], ConstituentKey(stationId, cs[0].name.value));
    } else {
      UpsertLastWins(t', stationId, cs[1..], j - 1);
    }
  }

  // -------------------------------------------------------- referential integrity

  /** Every constituent row and every offset row belongs to a station row. */
  predicate Linked(t: Tables) {
    (forall k :: k in t.constituents ==> k.stationId in t.stations)
    && (forall s :: s in t.offsets ==> s in t.stations)
  }

  lemma StepKeepsLinked(t: Tables, rec: StationRecord)
    requires Linked(t) && Step(t, rec).Some?
    ensures Linked(Step(t, rec).value)
  {
    var t' := Step(t, rec).value;
    forall k | k in t'.constituents
      ensures k.stationId in t'.stations
    {
      if HarmonicBranch(rec) {
        UpsertProvenance(t.constituents, rec.id.value, ConstituentsOf(rec.harmonics.value), k);
      }
    }
  }

  /** The built tables never hold a constituent or offset row without its station row. */
  lemma {:induction false} BuiltTablesLinked(recs: seq<StationRecord>)
    requires BuildTables(recs).Some?
    ensures Linked(BuildTables(recs).value)
  {
    if recs != [] {
      var init := recs[..|recs| - 1];
      BuiltTablesLinked(init);
      StepKeepsLinked(BuildTables(init).value, recs[|recs| - 1]);
    }
  }

  // -------------------------------------------------------- stations table

  /** `j` is the last record carrying the id `x`. */
  predicate LastWithId(recs: seq<StationRecord>, x: string, j: int) {
    0 <= j < |recs| && recs[j].id == Some(x)
    && forall m :: j < m < |recs| ==> recs[m].id != Some(x)
  }

  /** The stations table holds one row per distinct id, built from the last record with that id. */
  lemma {:induction false} StationRowIsLastRecord(recs: seq<StationRecord>, x: string, j: int)
    requires BuildTables(recs).Some? && LastWithId(recs, x, j)
    ensures x in BuildTables(recs).value.stations
    ensures BuildTables(recs).value.stations[x] == StationRowOf(recs[j])
  {
    var n := |recs| - 1;
    var init := recs[..n];
    if j < n {
      forall m | j < m < |init| ensures init[m].id != Some(x) {
        assert init[m] == recs[m];
      }
      StationRowIsLastRecord(init, x, j);
    }
  }

  /** The keys of the stations table are exactly the ids of the records. */
  lemma {:induction false} StationKeys(recs: seq<StationRecord>)
    requires BuildTables(recs).Some?
    ensures forall x :: x in BuildTables(recs).value.stations <==>
              exists j :: 0 <= j < |recs| && recs[j].id == Some(x)
  {
    if recs != [] {
      var n := |recs| - 1;
      var init := recs[..n];
      StationKeys(init);
      forall x ensures x in BuildTables(recs).value.stations <==>
                       exists j :: 0 <= j < |recs| && recs[j].id == Some(x)
      {
        if exists j :: 0 <= j < n && init[j].id == Some(x) {
          var j :| 0 <= j < n && init[j].id == Some(x);
          assert recs[j].id == Some(x);
        }
        if exists j :: 0 <= j < |recs| && recs[j].id == Some(x) {
          var j :| 0 <= j < |recs| && recs[j].id == Some(x);
          if j < n {
            assert init[j].id == Some(x);
          }
        }
      }
    }
  }

  // -------------------------------------------------------- provenance

  /** A constituent row comes from a harmonic-branch record with that id and a constituent of that name. */
  lemma {:induction false} ConstituentProvenance(recs: seq<StationRecord>, k: ConstituentKey)
    requires BuildTables(recs).Some? && k in BuildTables(recs).value.constituents
    ensures exists j :: 0 <= j < |recs| && recs[j].id == Some(k.stationId) && HarmonicBranch(recs[j])
                        && k.constituentName in ConstituentNames(recs[j])
  {
    var n := |recs| - 1;
    var init := recs[..n];
    var last := recs[n];
    var t := BuildTables(init).value;
    if k in t.constituents {
      ConstituentProvenance(init, k);
      var j :| 0 <= j < n && init[j].id == Some(k.stationId) && HarmonicBranch(init[j])
               && k.constituentName in ConstituentNames(init[j]);
      assert recs[j] == init[j];
    } else {
      var cs := ConstituentsOf(last.harmonics.value);
      UpsertProvenance(t.constituents, last.id.value, cs, k);
      var m :| 0 <= m < |cs| && cs[m].name == Some(k.constituentName);
      assert k.constituentName in ConstituentNames(last);
    }
  }

  /** The names of a harmonic record's constituents. */
  function ConstituentNames(rec: StationRecord): set<string>
    requires rec.harmonics.Some?
  {
    set c | c in ConstituentsOf(rec.harmonics.value) && c.name.Some? :: c.name.value
  }

  /** An offset row comes from an offset-branch record with that id. */
  lemma {:induction false} OffsetProvenance(recs: seq<StationRecord>, s: string)
    requires BuildTables(recs).Some? && s in BuildTables(recs).value.offsets
    ensures exists j :: 0 <= j < |recs| && recs[j].id == Some(s) && OffsetBranch(recs[j])
  {
    var n := |recs| - 1;
    var init := recs[..n];
    if s in BuildTables(init).value.offsets {
      OffsetProvenance(init, s);
      var j :| 0 <= j < n && init[j].id == Some(s) && OffsetBranch(init[j]);
      assert recs[j] == init[j];
    } else {
      assert recs[n].id == Some(s) && OffsetBranch(recs[n]);
    }
  }

  /** With distinct ids, every constituent row belongs to a station stored with type "harmonic". */
  lemma ConstituentsBelongToHarmonicStations(recs: seq<StationRecord>, k: ConstituentKey)
    requires forall i, j :: 0 <= i < j < |recs| && recs[i].id.Some? ==> recs[j].id != recs[i].id
    requires BuildTables(recs).Some? && k in BuildTables(recs).value.constituents
    ensures k.stationId in BuildTables(recs).value.stations
    ensures BuildTables(recs).value.stations[k.stationId].kind == "harmonic"
  {
    ConstituentProvenance(recs, k);
    var j :| 0 <= j < |recs| && recs[j].id == Some(k.stationId) && HarmonicBranch(recs[j])
             && k.constituentName in ConstituentNames(recs[j]);
    StationRowIsLastRecord(recs, k.stationId, j);
  }

  // -------------------------------------------------------- defaults and an example

  /** A station with only an id gets every default; an empty offsets document gives zero shifts and unit factors. */
  lemma Defaults(id: string, referenceId: string)
    ensures StationRowOf(BareStation(id))
            == StationRow("Unknown", "Unknown", 0.0, 0.0, "harmonic", 0, None, 0.0)
    ensures OffsetRowOf(referenceId, OffsetsDoc(None, None, None, None, false))
            == OffsetRow(referenceId, 0, 0, 1.0, 1.0)
  {
    UnknownIsNormalized();
  }

  /** The worked example: one harmonic station with one constituent. */
  function SanFranciscoRecord(): StationRecord {
    StationRecord(
      Some("9414290"), Some("SAN FRANCISCO"), None, None, Some(37.8), Some(-122.47), None, None,
      Some("harmonic"),
      Some(HarmonicsDoc(Some([ConstituentRecord(Some("M2"), Some(1.2), Some(45.0))]))),
      None, None, None)
  }

  lemma ExampleStationRow()
    ensures StationRowOf(SanFranciscoRecord())
            == StationRow("San Francisco", "Unknown", 37.8, -122.47, "harmonic", 0, None, 0.0)
  {
    ExampleSanFrancisco();
  }

  lemma ExampleConstituentRows()
    ensures UpsertConstituents(map[], "9414290", ConstituentsOf(SanFranciscoRecord().harmonics.value))
            == map[ConstituentKey("9414290", "M2") := ConstituentRow(1.2, 45.0)]
  {
    var cs := ConstituentsOf(SanFranciscoRecord().harmonics.value);
    assert cs[1..] == [];
  }

  /** Building from the example gives one station row, named "San Francisco", and one constituent row. */
  lemma ExampleBuild()
    ensures BuildTables([SanFranciscoRecord()]) == Some(Tables(
              map["9414290" := StationRow("San Francisco", "Unknown", 37.8, -122.47, "harmonic", 0, None, 0.0)],
              map[ConstituentKey("9414290", "M2") := ConstituentRow(1.2, 45.0)],
              map[]))
  {
    var recs := [SanFranciscoRecord()];
    assert recs[..0] == [];
    assert AllNamed(ConstituentsOf(SanFranciscoRecord().harmonics.value));
    ExampleStationRow();
    ExampleConstituentRows();
  }
}
