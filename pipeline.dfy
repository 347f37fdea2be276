/**
 * The two halves of the pipeline together: the fetcher writes the station
 * objects the database builder reads.
 */
module Pipeline {
  import opened Records
  import Fetcher
  import StationDatabase

  /** The builder routes an enriched station to its constituent branch exactly when the fetcher tagged it "harmonic". */
  lemma EnrichedBranchAgrees(rec: StationRecord, i: nat, u: Fetcher.Upstream)
    requires Fetcher.EnrichStation(rec, i, u).Some?
    ensures StationDatabase.HarmonicBranch(Fetcher.EnrichStation(rec, i, u).value)
            <==> Fetcher.EnrichStation(rec, i, u).value.kind == Some("harmonic")
  {
    Fetcher.EnrichStationFacts(rec, i, u);
  }

  lemma {:induction false} HarmonicCountIsTagCount(out: seq<StationRecord>)
    requires forall k :: 0 <= k < |out| ==>
               (StationDatabase.HarmonicBranch(out[k]) <==> out[k].kind == Some("harmonic"))
    ensures StationDatabase.HarmonicCount(out) == Fetcher.CountKind(out, "harmonic")
  {
    if out != [] {
      HarmonicCountIsTagCount(out[..|out| - 1]);
    }
  }

  /**
   * On the fetcher's output the builder counts as many harmonic stations as
   * the fetcher reports, and the rest are the fetcher's subordinate stations.
   */
  lemma CountsAgree(recs: seq<StationRecord>, u: Fetcher.Upstream)
    requires Fetcher.EnrichAll(recs, u).Some?
    ensures var out := Fetcher.EnrichAll(recs, u).value;
      StationDatabase.HarmonicCount(out) == Fetcher.CountKind(out, "harmonic")
      && |out| - StationDatabase.HarmonicCount(out) == Fetcher.CountKind(out, "subordinate")
  {
    var out := Fetcher.EnrichAll(recs, u).value;
    Fetcher.EnrichAllShape(recs, u);
    forall k | 0 <= k < |out|
      ensures StationDatabase.HarmonicBranch(out[k]) <==> out[k].kind == Some("harmonic")
    {
      EnrichedBranchAgrees(recs[k], k, u);
    }
    HarmonicCountIsTagCount(out);
    Fetcher.EnrichedCountsSum(recs, u);
  }
}
