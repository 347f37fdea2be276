/**
 * The fetch side of the pipeline (tools/data-pipeline/fetch_noaa_data.py):
 * choosing the stations to process, the bounded retry loop around every
 * per-station request, and the enrichment of each station object with its
 * type, harmonics, datum offset and subordinate offsets.
 *
 * The network is a parameter: for every request the model is given the
 * response of each attempt, so a fetch is a function of those responses.
 */
module Fetcher {
  import opened Records

  // ---------------------------------------------------------------- retries

  /** Attempts per request. */
  const MaxRetries := 3

  /** What one attempt of a request yields. */
  datatype Response<T> =
    | Ok(data: T)      // a success status with a decodable body
    | NotFound         // status 404
    | Transient        // a connection error, a timeout or another error status
    | Undecodable      // a success status whose body is not JSON

  /** What a fetch helper yields: the data, None, or an exception that escapes it. */
  datatype FetchResult<T> = Got(data: T) | Absent | Raised

  /** The three per-station endpoints. */
  datatype Endpoint = Harcon | TidePredOffsets | Datums

  /** A fetch and its observable effects: the attempts made and the waits slept between them, in seconds. */
  datatype Trace<T> = Trace(result: FetchResult<T>, attempts: nat, waits: seq<nat>)

  /**
   * The failures an endpoint's handler catches. Every helper catches request
   * errors; the datum helper also catches `ValueError`, which is what a body
   * that is not JSON raises. `jsonIsRequestError` says whether the installed
   * `requests` library also makes that decode error a request error (it does
   * from version 2.27 on), in which case every helper catches it.
   */
  predicate Retryable<T>(e: Endpoint, jsonIsRequestError: bool, r: Response<T>) {
    r.Transient? || (r.Undecodable? && (e == Datums || jsonIsRequestError))
  }

  function Pow2(k: nat): nat {
    if k == 0 then 1 else 2 * Pow2(k - 1)
  }

  /**
   * The retry loop from attempt `attempt` on: a success or a 404 ends it, a
   * caught failure before the last attempt sleeps 2**attempt and tries again,
   * a caught failure on the last attempt gives None, anything else escapes.
   */
  function RetryFrom<T>(e: Endpoint, jsonIsRequestError: bool, answers: nat -> Response<T>, attempt: nat): Trace<T>
    decreases MaxRetries - attempt
  {
    if attempt >= MaxRetries then Trace(Absent, attempt, [])
    else match answers(attempt)
      case Ok(d) => Trace(Got(d), attempt + 1, [])
      case NotFound => Trace(Absent, attempt + 1, [])
      case _ =>
        if !Retryable(e, jsonIsRequestError, answers(attempt)) then Trace(Raised, attempt + 1, [])
        else if attempt < MaxRetries - 1 then
          var rest := RetryFrom(e, jsonIsRequestError, answers, attempt + 1);
          Trace(rest.result, rest.attempts, [Pow2(attempt)] + rest.waits)
        else Trace(Absent, attempt + 1, [])
  }

  /** How the attempt that ends a fetch decides its result. */
  function Settle<T>(e: Endpoint, jsonIsRequestError: bool, r: Response<T>): FetchResult<T> {
    if r.Ok? then Got(r.data)
    else if r.NotFound? || Retryable(e, jsonIsRequestError, r) then Absent
    else Raised
  }

  /**
   * The retry loop characterised: it stops at the first answer that is not a
   * caught failure, or after MaxRetries attempts; it waits 2**k seconds after
   * each failed attempt k except the last one; the final answer decides the result.
   */
  lemma {:induction false} RetryFromFacts<T>(e: Endpoint, jsonIsRequestError: bool, answers: nat -> Response<T>, attempt: nat)
    requires attempt < MaxRetries
    ensures attempt < RetryFrom(e, jsonIsRequestError, answers, attempt).attempts <= MaxRetries
    ensures |RetryFrom(e, jsonIsRequestError, answers, attempt).waits| == RetryFrom(e, jsonIsRequestError, answers, attempt).attempts - 1 - attempt
    ensures forall k :: 0 <= k < |RetryFrom(e, jsonIsRequestError, answers, attempt).waits| ==>
              RetryFrom(e, jsonIsRequestError, answers, attempt).waits[k] == Pow2(attempt + k)
    ensures forall k :: attempt <= k < RetryFrom(e, jsonIsRequestError, answers, attempt).attempts - 1 ==> Retryable(e, jsonIsRequestError, answers(k))
    ensures RetryFrom(e, jsonIsRequestError, answers, attempt).attempts < MaxRetries ==>
              !Retryable(e, jsonIsRequestError, answers(RetryFrom(e, jsonIsRequestError, answers, attempt).attempts - 1))
    ensures RetryFrom(e, jsonIsRequestError, answers, attempt).result == Settle(e, jsonIsRequestError, answers(RetryFrom(e, jsonIsRequestError, answers, attempt).attempts - 1))
    decreases MaxRetries - attempt
  {
    var t := RetryFrom(e, jsonIsRequestError, answers, attempt);
    if Retryable(e, jsonIsRequestError, answers(attempt)) && attempt < MaxRetries - 1 {
      RetryFromFacts(e, jsonIsRequestError, answers, attempt + 1);
      var rest := RetryFrom(e, jsonIsRequestError, answers, attempt + 1);
      assert t == Trace(rest.result, rest.attempts, [Pow2(attempt)] + rest.waits);
      forall k | 0 <= k < |t.waits| ensures t.waits[k] == Pow2(attempt + k) {
        if k > 0 {
          assert t.waits[k] == rest.waits[k - 1];
        }
      }
    } else {
      assert t.attempts == attempt + 1 && t.waits == [];
    }
  }

  /**
   * One of the `fetch_*` helpers: up to MaxRetries attempts, returning at once
   * on success or 404, sleeping 2**attempt seconds before each retry.
   */
  method FetchWithRetry<T>(e: Endpoint, jsonIsRequestError: bool, answers: nat -> Response<T>)
    returns (result: FetchResult<T>, attempts: nat, waits: seq<nat>)
    ensures Trace(result, attempts, waits) == RetryFrom(e, jsonIsRequestError, answers, 0)
  {
    waits := [];
    attempts := 0;
    for attempt := 0 to MaxRetries
      invariant attempts == attempt
      invariant RetryFrom(e, jsonIsRequestError, answers, 0) == Trace(RetryFrom(e, jsonIsRequestError, answers, attempt).result,
                                                  RetryFrom(e, jsonIsRequestError, answers, attempt).attempts,
                                                  waits + RetryFrom(e, jsonIsRequestError, answers, attempt).waits)
    {
      var response := answers(attempt);
      attempts := attempt + 1;
      if response.Ok? {
        return Got(response.data), attempts, waits;
      }
      if response.NotFound? {
        return Absent, attempts, waits;
      }
      if !Retryable(e, jsonIsRequestError, response) {
        return Raised, attempts, waits;
      }
      if attempt < MaxRetries - 1 {
        var rest := RetryFrom(e, jsonIsRequestError, answers, attempt + 1);
        assert waits + ([Pow2(attempt)] + rest.waits) == (waits + [Pow2(attempt)]) + rest.waits;
        waits := waits + [Pow2(attempt)];
      } else {
        return Absent, attempts, waits;
      }
    }
    result := Absent;
  }

  /** Three caught failures in a row: waits of 1 and then 2 seconds, and None. */
  lemma ExhaustedRetries<T>(e: Endpoint, jsonIsRequestError: bool, answers: nat -> Response<T>)
    requires forall k :: 0 <= k < MaxRetries ==> answers(k) == Transient
    ensures RetryFrom(e, jsonIsRequestError, answers, 0) == Trace(Absent, 3, [1, 2])
  {
    assert answers(0) == Transient && answers(1) == Transient && answers(2) == Transient;
  }

  /**
   * A body that is not JSON is retried by the datum helper; the other helpers
   * let it escape at once unless the decode error is also a request error.
   */
  lemma UndecodableBody<T>(jsonIsRequestError: bool, answers: nat -> Response<T>)
    requires forall k :: 0 <= k < MaxRetries ==> answers(k) == Undecodable
    ensures RetryFrom(Datums, jsonIsRequestError, answers, 0) == Trace(Absent, 3, [1, 2])
    ensures !jsonIsRequestError ==> RetryFrom(Harcon, jsonIsRequestError, answers, 0) == Trace(Raised, 1, [])
    ensures !jsonIsRequestError ==> RetryFrom(TidePredOffsets, jsonIsRequestError, answers, 0) == Trace(Raised, 1, [])
    ensures jsonIsRequestError ==> RetryFrom(Harcon, jsonIsRequestError, answers, 0) == Trace(Absent, 3, [1, 2])
    ensures jsonIsRequestError ==> RetryFrom(TidePredOffsets, jsonIsRequestError, answers, 0) == Trace(Absent, 3, [1, 2])
  {
    assert answers(0) == Undecodable && answers(1) == Undecodable && answers(2) == Undecodable;
  }

  /** The datum helper never lets an exception escape. */
  lemma DatumsNeverRaise<T>(jsonIsRequestError: bool, answers: nat -> Response<T>)
    ensures !RetryFrom(Datums, jsonIsRequestError, answers, 0).result.Raised?
  {
    RetryFromFacts(Datums, jsonIsRequestError, answers, 0);
  }

  /** When a bad body is also a request error, no helper lets an exception escape. */
  lemma NoHelperRaises<T>(e: Endpoint, answers: nat -> Response<T>)
    ensures !RetryFrom(e, true, answers, 0).result.Raised?
  {
    RetryFromFacts(e, true, answers, 0);
  }

  // ---------------------------------------------------------------- selection

  /** The stations processed in test mode. */
  const TestStations: seq<string> := ["9414290", "8454000", "8518750", "8658120", "8636580"]

  /** A station is kept when its "id" is one of the requested ids. */
  predicate Requested(s: StationRecord, ids: seq<string>) {
    s.id.Some? && s.id.value in ids
  }

  /** `filter_stations`: the requested stations, in their original order. */
  function FilterStations(all: seq<StationRecord>, ids: seq<string>): (r: seq<StationRecord>)
    ensures |r| <= |all|
    ensures forall k :: 0 <= k < |r| ==> Requested(r[k], ids)
  {
    if all == [] then []
    else (if Requested(all[0], ids) then [all[0]] else []) + FilterStations(all[1..], ids)
  }

  /** Filtering distributes over concatenation, so the survivors keep their relative order. */
  lemma {:induction false} FilterConcat(a: seq<StationRecord>, b: seq<StationRecord>, ids: seq<string>)
    ensures FilterStations(a + b, ids) == FilterStations(a, ids) + FilterStations(b, ids)
  {
    if a != [] {
      assert (a + b)[1..] == a[1..] + b;
      FilterConcat(a[1..], b, ids);
    } else {
      assert a + b == b;
    }
  }

  /** A station is in the result exactly when it is in the input and requested. */
  lemma {:induction false} FilterMembership(all: seq<StationRecord>, ids: seq<string>, s: StationRecord)
    ensures s in FilterStations(all, ids) <==> s in all && Requested(s, ids)
  {
    if all != [] {
      FilterMembership(all[1..], ids, s);
      assert all == [all[0]] + all[1..];
    }
  }

  /** No station survives the filter exactly when no station is requested. */
  lemma FilterEmptyIff(all: seq<StationRecord>, ids: seq<string>)
    ensures FilterStations(all, ids) == [] <==> forall k :: 0 <= k < |all| ==> !Requested(all[k], ids)
  {
    var f := FilterStations(all, ids);
    if f != [] {
      FilterMembership(all, ids, f[0]);
    } else {
      forall k | 0 <= k < |all| ensures !Requested(all[k], ids) {
        FilterMembership(all, ids, all[k]);
      }
    }
  }

  /** The ids carried by the filtered stations. */
  function FoundIds(filtered: seq<StationRecord>): set<string> {
    set k | 0 <= k < |filtered| && filtered[k].id.Some? :: filtered[k].id.value
  }

  /** The requested ids minus the found ones. */
  function MissingIds(all: seq<StationRecord>, ids: seq<string>): set<string> {
    (set x | x in ids) - FoundIds(FilterStations(all, ids))
  }

  /** An id is missing exactly when it was requested and no station carries it. */
  lemma MissingIdsIff(all: seq<StationRecord>, ids: seq<string>, x: string)
    ensures x in MissingIds(all, ids) <==> x in ids && forall k :: 0 <= k < |all| ==> all[k].id != Some(x)
  {
    var f := FilterStations(all, ids);
    if x in ids && x !in MissingIds(all, ids) {
      var k :| 0 <= k < |f| && f[k].id == Some(x);
      FilterMembership(all, ids, f[k]);
    }
    if x in ids {
      forall k | 0 <= k < |all| && all[k].id == Some(x) ensures x in FoundIds(f) {
        FilterMembership(all, ids, all[k]);
        var j :| 0 <= j < |f| && f[j] == all[k];
      }
    }
  }

  /** Python's string order: lexicographic by code point. */
  predicate Less(a: string, b: string) {
    if a == [] then b != []
    else if b == [] then false
    else a[0] < b[0] || (a[0] == b[0] && Less(a[1..], b[1..]))
  }

  lemma {:induction false} LessTransitive(a: string, b: string, c: string)
    requires Less(a, b) && Less(b, c)
    ensures Less(a, c)
  {
    if a != [] && b != [] && c != [] && a[0] == b[0] && b[0] == c[0] {
      LessTransitive(a[1..], b[1..], c[1..]);
    }
  }

  lemma {:induction false} LessTotal(a: string, b: string)
    requires a != b
    ensures Less(a, b) || Less(b, a)
  {
    if a != [] && b != [] && a[0] == b[0] {
      assert a == [a[0]] + a[1..] && b == [b[0]] + b[1..];
      LessTotal(a[1..], b[1..]);
    }
  }

  /** `m` is the least element of `s`. */
  predicate IsLeast(m: string, s: set<string>) {
    m in s && forall x :: x in s && x != m ==> Less(m, x)
  }

  /** Every non-empty finite set of strings has a least element. */
  lemma {:induction false} LeastExists(s: set<string>)
    requires s != {}
    ensures exists m :: IsLeast(m, s)
    decreases |s|
  {
    var y :| y in s;
    if s == {y} {
      assert IsLeast(y, s);
    } else {
      var rest := s - {y};
      LeastExists(rest);
      var m :| IsLeast(m, rest);
      if Less(y, m) {
        forall x | x in s && x != y ensures Less(y, x) {
          if x != m {
            LessTransitive(y, m, x);
          }
        }
        assert IsLeast(y, s);
      } else {
        LessTotal(y, m);
        assert IsLeast(m, s);
      }
    }
  }

  predicate StrictlySorted(r: seq<string>) {
    forall i, j :: 0 <= i < j < |r| ==> Less(r[i], r[j])
  }

  /** `sorted(missing_ids)`: the set's elements in increasing order, each once. */
  ghost function SortedIds(s: set<string>): (r: seq<string>)
    ensures forall x :: x in r <==> x in s
    ensures |r| == |s|
    ensures StrictlySorted(r)
    decreases |s|
  {
    if s == {} then []
    else
      LeastExists(s);
      var m :| IsLeast(m, s);
      var rest := SortedIds(s - {m});
      PrependLeast(m, rest, s);
      [m] + rest
  }

  /** The least element of a set, put before the sorted rest of it, keeps the order strict. */
  lemma PrependLeast(m: string, rest: seq<string>, s: set<string>)
    requires IsLeast(m, s)
    requires forall x :: x in rest <==> x in s - {m}
    requires StrictlySorted(rest)
    ensures StrictlySorted([m] + rest)
  {
    var r := [m] + rest;
    forall i, j | 0 <= i < j < |r| ensures Less(r[i], r[j]) {
      assert r[j] == rest[j - 1];
      if i > 0 {
        assert r[i] == rest[i - 1];
      } else {
        assert rest[j - 1] in rest;
      }
    }
  }

  /** The warning lines of `filter_stations`: every missing id once, in sorted order. */
  ghost function MissingReport(all: seq<StationRecord>, ids: seq<string>): (r: seq<string>)
    ensures forall x :: x in r <==> x in ids && forall k :: 0 <= k < |all| ==> all[k].id != Some(x)
    ensures StrictlySorted(r)
  {
    var r := SortedIds(MissingIds(all, ids));
    forall x ensures x in r <==> x in ids && forall k :: 0 <= k < |all| ==> all[k].id != Some(x) {
      MissingIdsIff(all, ids, x);
    }
    r
  }

  /** How the stations to process are chosen. */
  datatype Mode = Custom(ids: seq<string>) | Test | Production

  /** The stations to process, or None when there are none (the run stops with an error). */
  function StationsToProcess(all: seq<StationRecord>, mode: Mode): (r: Option<seq<StationRecord>>)
    ensures r.Some? ==> r.value != []
    ensures mode.Production? ==> (r.Some? <==> all != [])
    ensures mode.Production? && r.Some? ==> r.value == all
    ensures !mode.Production? ==>
              var f := FilterStations(all, if mode.Custom? then mode.ids else TestStations);
              (r.Some? <==> f != []) && (r.Some? ==> r.value == f)
  {
    var stations := match mode
      case Custom(ids) => FilterStations(all, ids)
      case Test => FilterStations(all, TestStations)
      case Production => all;
    if stations == [] then None else Some(stations)
  }

  /**
   * In the two filtering modes the run stops for want of stations exactly
   * when the warning of `filter_stations` lists every requested id, that is,
   * when none of them is found; one id found is enough to go on.
   */
  lemma SelectionStopsIff(all: seq<StationRecord>, mode: Mode)
    requires !mode.Production?
    ensures var ids := if mode.Custom? then mode.ids else TestStations;
      StationsToProcess(all, mode).None? <==> forall x :: x in ids ==> x in MissingReport(all, ids)
  {
    var ids := if mode.Custom? then mode.ids else TestStations;
    FilterEmptyIff(all, ids);
  }

  // ---------------------------------------------------------------- enrichment

  /** The responses of the three endpoints, and whether the installed `requests` treats a bad body as a request error. */
  datatype Upstream = Upstream(
    harcon: nat -> nat -> Response<HarmonicsDoc>,
    datums: nat -> nat -> Response<DatumsDoc>,
    offsets: nat -> nat -> Response<OffsetsDoc>,
    jsonIsRequestError: bool)

  function HarconResult(u: Upstream, i: nat): FetchResult<HarmonicsDoc> {
    RetryFrom(Harcon, u.jsonIsRequestError, u.harcon(i), 0).result
  }

  function DatumsResult(u: Upstream, i: nat): FetchResult<DatumsDoc> {
    RetryFrom(Datums, u.jsonIsRequestError, u.datums(i), 0).result
  }

  function OffsetsResult(u: Upstream, i: nat): FetchResult<OffsetsDoc> {
    RetryFrom(TidePredOffsets, u.jsonIsRequestError, u.offsets(i), 0).result
  }

  /** The harmonics result is usable when it is present and its constituent list is non-empty. */
  predicate Usable(h: FetchResult<HarmonicsDoc>) {
    h.Got? && |ConstituentsOf(h.data)| > 0
  }

  /**
   * The index at which the scan for the datum called `name` stops: the first
   * entry that has no "name" key (reading it raises `KeyError`) or is called
   * `name`; the length of the list if there is none.
   */
  function FirstIndex(datums: seq<Datum>, name: string): (k: nat)
    ensures k <= |datums|
    ensures forall m :: 0 <= m < k ==> datums[m].name.Some? && datums[m].name.value != name
    ensures k < |datums| ==> datums[k].name.None? || datums[k].name.value == name
  {
    if datums == [] then 0
    else if datums[0].name.None? || datums[0].name.value == name then 0
    else 1 + FirstIndex(datums[1..], name)
  }

  /** What the scan for a datum's value yields: the value, no such datum, or a `KeyError`. */
  datatype Lookup = Found(value: real) | NotListed | KeyMissing

  /** The value of the first datum called `name`. */
  function FirstValue(datums: seq<Datum>, name: string): Lookup {
    var k := FirstIndex(datums, name);
    if k == |datums| then NotListed
    else if datums[k].name.Some? && datums[k].value.Some? then Found(datums[k].value.value)
    else KeyMissing
  }

  /** What the datum step makes of a datum document: Z0 = MSL - MLLW, nothing, or a `KeyError` that ends the run. */
  datatype DatumOutcome = Offset(z0: real) | NoOffset | KeyError

  function DatumOffsetOf(doc: DatumsDoc): DatumOutcome {
    var list := doc.datums.GetOr([]);
    if list == [] then NoOffset
    else
      var msl := FirstValue(list, "MSL");
      if msl.KeyMissing? then KeyError
      else
        var mllw := FirstValue(list, "MLLW");
        if mllw.KeyMissing? then KeyError
        else if msl.Found? && mllw.Found? then Offset(msl.value - mllw.value)
        else NoOffset
  }

  /** Every entry of a datum list has both keys. */
  predicate WellFormedDatums(list: seq<Datum>) {
    forall k :: 0 <= k < |list| ==> list[k].name.Some? && list[k].value.Some?
  }

  /**
   * On a list whose entries all have both keys, the datum offset exists
   * exactly when the list names both datums, and it uses the first entry of
   * each; such a list never raises. An entry without a name ahead of both
   * datums does raise.
   */
  lemma DatumOffsetIff(doc: DatumsDoc)
    ensures var list := doc.datums.GetOr([]);
      WellFormedDatums(list) ==>
        !DatumOffsetOf(doc).KeyError?
        && (DatumOffsetOf(doc).Offset? <==>
             (exists k :: 0 <= k < |list| && list[k].name == Some("MSL"))
             && (exists k :: 0 <= k < |list| && list[k].name == Some("MLLW")))
    ensures var list := doc.datums.GetOr([]);
      DatumOffsetOf(doc).Offset? ==>
         var i := FirstIndex(list, "MSL");
         var j := FirstIndex(list, "MLLW");
         i < |list| && j < |list|
         && list[i].name == Some("MSL") && list[j].name == Some("MLLW")
         && (forall m :: 0 <= m < i ==> list[m].name.Some? && list[m].name.value != "MSL")
         && (forall m :: 0 <= m < j ==> list[m].name.Some? && list[m].name.value != "MLLW")
         && list[i].value.Some? && list[j].value.Some?
         && DatumOffsetOf(doc).z0 == list[i].value.value - list[j].value.value
    ensures var list := doc.datums.GetOr([]);
      list != [] && list[0].name.None? ==> DatumOffsetOf(doc).KeyError?
  {
  }

  /**
   * One iteration of the enrichment loop: tag the station and attach what its
   * fetches returned; None when an exception escapes a fetch helper or the
   * datum scan.
   */
  function EnrichStation(rec: StationRecord, i: nat, u: Upstream): Option<StationRecord> {
    var h := HarconResult(u, i);
    if h.Raised? then None
    else if Usable(h) then
      var tagged := rec.(harmonics := Some(h.data), kind := Some("harmonic"));
      var d := DatumsResult(u, i);
      if !d.Got? then Some(tagged)
      else match DatumOffsetOf(d.data)
        case Offset(z0) => Some(tagged.(datumOffset := Some(z0)))
        case NoOffset => Some(tagged)
        case KeyError => None
    else
      var tagged := rec.(kind := Some("subordinate"));
      if TruthyString(rec.referenceId) then
        var linked := tagged.(referenceStationId := rec.referenceId);
        var o := OffsetsResult(u, i);
        if o.Raised? then None
        else if o.Got? && o.data.Truthy() then Some(linked.(tidePredOffsets := Some(o.data)))
        else Some(linked)
      else Some(tagged)
  }

  /** The enriched list after the loop has run over `recs`; None when the run stops on an exception. */
  function EnrichAll(recs: seq<StationRecord>, u: Upstream): Option<seq<StationRecord>> {
    if recs == [] then Some([])
    else match EnrichAll(recs[..|recs| - 1], u)
      case None => None
      case Some(out) =>
        match EnrichStation(recs[|recs| - 1], |recs| - 1, u)
        case None => None
        case Some(r) => Some(out + [r])
  }

  /** Once a prefix stops on an exception, the whole run does. */
  lemma {:induction false} EnrichStopIsFinal(recs: seq<StationRecord>, u: Upstream, j: nat)
    requires j <= |recs| && EnrichAll(recs[..j], u).None?
    ensures EnrichAll(recs, u).None?
    decreases |recs| - j
  {
    if j == |recs| {
      assert recs[..j] == recs;
    } else {
      assert recs[..j + 1][..j] == recs[..j];
      EnrichStopIsFinal(recs, u, j + 1);
    }
  }

  /** One iteration of the enrichment loop of `main`, with its early exits on an escaping exception. */
  method EnrichOne(rec: StationRecord, i: nat, u: Upstream) returns (r: Option<StationRecord>)
    ensures r == EnrichStation(rec, i, u)
  {
    var station := rec;
    var referenceId := station.referenceId;
    var harmonics, _, _ := FetchWithRetry(Harcon, u.jsonIsRequestError, u.harcon(i));
    if harmonics.Raised? {
      return None;
    }
    if harmonics.Got? && |ConstituentsOf(harmonics.data)| > 0 {
      station := station.(harmonics := Some(harmonics.data));
      station := station.(kind := Some("harmonic"));
      var datums, _, _ := FetchWithRetry(Datums, u.jsonIsRequestError, u.datums(i));
      if datums.Got? {
        var list := datums.data.datums.GetOr([]);
        if list != [] {
          var msl := FirstValue(list, "MSL");
          if msl.KeyMissing? {
            return None;
          }
          var mllw := FirstValue(list, "MLLW");
          if mllw.KeyMissing? {
            return None;
          }
          if msl.Found? && mllw.Found? {
            station := station.(datumOffset := Some(msl.value - mllw.value));
          }
        }
      }
    } else {
      station := station.(kind := Some("subordinate"));
      if referenceId.Some? && referenceId.value != "" {
        station := station.(referenceStationId := referenceId);
        var offsets, _, _ := FetchWithRetry(TidePredOffsets, u.jsonIsRequestError, u.offsets(i));
        if offsets.Raised? {
          return None;
        }
        if offsets.Got? && offsets.data.Truthy() {
          station := station.(tidePredOffsets := Some(offsets.data));
        }
      }
    }
    r := Some(station);
  }

  /** The enrichment loop of `main`: one enriched object per station, appended in order. */
  method EnrichStations(stations: seq<StationRecord>, u: Upstream) returns (enriched: Option<seq<StationRecord>>)
    ensures enriched == EnrichAll(stations, u)
  {
    var out: seq<StationRecord> := [];
    for i := 0 to |stations|
      invariant EnrichAll(stations[..i], u) == Some(out)
    {
      assert stations[..i + 1][..i] == stations[..i];
      var station := EnrichOne(stations[i], i, u);
      if station.None? {
        EnrichStopIsFinal(stations, u, i + 1);
        return None;
      }
      out := out + [station.value];
    }
    assert stations[..|stations|] == stations;
    enriched := Some(out);
  }

  /** The run stops exactly when some station's iteration lets an exception escape. */
  lemma {:induction false} EnrichAllStops(recs: seq<StationRecord>, u: Upstream)
    ensures EnrichAll(recs, u).None? <==> exists k :: 0 <= k < |recs| && EnrichStation(recs[k], k, u).None?
  {
    if recs != [] {
      var n := |recs| - 1;
      var init := recs[..n];
      EnrichAllStops(init, u);
      if EnrichAll(init, u).None? {
        var k :| 0 <= k < n && EnrichStation(init[k], k, u).None?;
        assert init[k] == recs[k];
      } else if EnrichStation(recs[n], n, u).Some? {
        forall k | 0 <= k < |recs| ensures EnrichStation(recs[k], k, u).Some? {
          if k < n {
            assert init[k] == recs[k];
          }
        }
      }
    }
  }

  /** A completed run has one enriched station per input station, in the same order. */
  lemma {:induction false} EnrichAllShape(recs: seq<StationRecord>, u: Upstream)
    requires EnrichAll(recs, u).Some?
    ensures |EnrichAll(recs, u).value| == |recs|
    ensures forall k :: 0 <= k < |recs| ==> EnrichStation(recs[k], k, u) == Some(EnrichAll(recs, u).value[k])
  {
    if recs != [] {
      var n := |recs| - 1;
      var init := recs[..n];
      var out := EnrichAll(init, u).value;
      EnrichAllShape(init, u);
      var all := EnrichAll(recs, u).value;
      assert all == out + [EnrichStation(recs[n], n, u).value];
      forall k | 0 <= k < |recs| ensures EnrichStation(recs[k], k, u) == Some(all[k]) {
        if k < n {
          assert init[k] == recs[k] && all[k] == out[k];
        }
      }
    }
  }

  /**
   * What one iteration does to a station object: the keys from the station
   * list are kept; the type is "harmonic" exactly when usable harmonics came
   * back, else "subordinate"; the datum offset only for harmonic stations
   * whose datum list has MSL and MLLW; the reference id only for subordinate
   * stations with a non-empty reference_id; the offsets only when that fetch
   * returned a non-empty object.
   */
  lemma EnrichStationFacts(rec: StationRecord, i: nat, u: Upstream)
    requires EnrichStation(rec, i, u).Some?
    ensures var r := EnrichStation(rec, i, u).value;
      r.id == rec.id && r.name == rec.name && r.state == rec.state && r.region == rec.region
      && r.lat == rec.lat && r.lng == rec.lng && r.timezoneOffset == rec.timezoneOffset
      && r.referenceId == rec.referenceId
      && (r.kind == Some("harmonic") <==> Usable(HarconResult(u, i)))
      && (r.kind == Some("harmonic") || r.kind == Some("subordinate"))
      && (r.kind == Some("harmonic") ==> r.harmonics == Some(HarconResult(u, i).data))
      && (r.kind == Some("subordinate") ==> r.harmonics == rec.harmonics && r.datumOffset == rec.datumOffset)
      && (r.datumOffset != rec.datumOffset ==>
            r.kind == Some("harmonic") && DatumsResult(u, i).Got?
            && DatumOffsetOf(DatumsResult(u, i).data).Offset?
            && r.datumOffset == Some(DatumOffsetOf(DatumsResult(u, i).data).z0))
      && (r.kind == Some("harmonic") && DatumsResult(u, i).Got? && DatumOffsetOf(DatumsResult(u, i).data).Offset? ==>
            r.datumOffset == Some(DatumOffsetOf(DatumsResult(u, i).data).z0))
      && (r.referenceStationId != rec.referenceStationId ==>
            r.kind == Some("subordinate") && TruthyString(rec.referenceId) && r.referenceStationId == rec.referenceId)
      && (r.kind == Some("subordinate") && TruthyString(rec.referenceId) ==> r.referenceStationId == rec.referenceId)
      && (r.tidePredOffsets != rec.tidePredOffsets ==>
            r.kind == Some("subordinate") && TruthyString(rec.referenceId)
            && OffsetsResult(u, i).Got? && OffsetsResult(u, i).data.Truthy()
            && r.tidePredOffsets == Some(OffsetsResult(u, i).data))
      && (r.kind == Some("subordinate") && TruthyString(rec.referenceId)
          && OffsetsResult(u, i).Got? && OffsetsResult(u, i).data.Truthy() ==>
            r.tidePredOffsets == Some(OffsetsResult(u, i).data))
  {
  }

  /**
   * An iteration stops the run only when the harmonics fetch, or the offsets
   * fetch it makes, lets an exception escape, or the datum scan of a harmonic
   * station meets an entry without a key.
   */
  lemma EnrichStationStops(rec: StationRecord, i: nat, u: Upstream)
    ensures EnrichStation(rec, i, u).None? <==>
              HarconResult(u, i).Raised?
              || (Usable(HarconResult(u, i)) && DatumsResult(u, i).Got? && DatumOffsetOf(DatumsResult(u, i).data).KeyError?)
              || (!Usable(HarconResult(u, i)) && TruthyString(rec.referenceId) && OffsetsResult(u, i).Raised?)
  {
  }

  /**
   * When a bad body counts as a request error and every datum list the
   * fetcher receives has both keys in each entry, no station stops the run.
   */
  lemma EnrichStationCompletes(rec: StationRecord, i: nat, u: Upstream)
    requires u.jsonIsRequestError
    requires DatumsResult(u, i).Got? ==> WellFormedDatums(DatumsResult(u, i).data.datums.GetOr([]))
    ensures EnrichStation(rec, i, u).Some?
  {
    NoHelperRaises(Harcon, u.harcon(i));
    NoHelperRaises(TidePredOffsets, u.offsets(i));
    if DatumsResult(u, i).Got? {
      DatumOffsetIff(DatumsResult(u, i).data);
    }
  }

  /** Under the same conditions the whole run completes, whatever the endpoints answer. */
  lemma EnrichAllCompletes(recs: seq<StationRecord>, u: Upstream)
    requires u.jsonIsRequestError
    requires forall i :: 0 <= i < |recs| && DatumsResult(u, i).Got? ==> WellFormedDatums(DatumsResult(u, i).data.datums.GetOr([]))
    ensures EnrichAll(recs, u).Some?
  {
    forall k | 0 <= k < |recs| ensures EnrichStation(recs[k], k, u).Some? {
      EnrichStationCompletes(recs[k], k, u);
    }
    EnrichAllStops(recs, u);
  }

  /**
   * Without that, a harmonics body that is not JSON escapes its helper on the
   * first attempt and ends the run.
   */
  lemma UndecodableHarmonicsStops(rec: StationRecord, i: nat, u: Upstream)
    requires !u.jsonIsRequestError && u.harcon(i)(0) == Undecodable
    ensures EnrichStation(rec, i, u).None?
  {
  }

  /** Number of station objects whose "type" is `kind`. */
  function CountKind(recs: seq<StationRecord>, kind: string): nat {
    if recs == [] then 0
    else CountKind(recs[..|recs| - 1], kind) + (if recs[|recs| - 1].kind == Some(kind) then 1 else 0)
  }

  lemma {:induction false} TaggedCountsSum(recs: seq<StationRecord>)
    requires forall k :: 0 <= k < |recs| ==> recs[k].kind == Some("harmonic") || recs[k].kind == Some("subordinate")
    ensures CountKind(recs, "harmonic") + CountKind(recs, "subordinate") == |recs|
  {
    if recs != [] {
      TaggedCountsSum(recs[..|recs| - 1]);
    }
  }

  /** The harmonic and subordinate counts of a completed run add up to the number of stations. */
  lemma EnrichedCountsSum(recs: seq<StationRecord>, u: Upstream)
    requires EnrichAll(recs, u).Some?
    ensures CountKind(EnrichAll(recs, u).value, "harmonic") + CountKind(EnrichAll(recs, u).value, "subordinate") == |recs|
  {
    var out := EnrichAll(recs, u).value;
    EnrichAllShape(recs, u);
    forall k | 0 <= k < |out| ensures out[k].kind == Some("harmonic") || out[k].kind == Some("subordinate") {
      EnrichStationFacts(recs[k], k, u);
    }
    TaggedCountsSum(out);
  }
}
