/** scripts/scripts/fetch_repo.py: download the repo-market series listed in
    `SERIES` and write them, with `SERIES` itself as metadata, to data/repo.json. */
module FetchRepo {

  import opened TimeSeries
  import opened Fred

  const START_DATE := "2015-01-01"

  /** The keys of `SERIES`, in the order the dictionary literal lists them. */
  const SERIES_IDS: seq<string> := ["TGCRRATE", "RRPONTSYD", "RRPONTSYAWARD"]

  const SERIES: map<string, string> := map[
    "TGCRRATE" := "Tri-Party General Collateral Rate",
    "RRPONTSYD" := "ON RRP volume (Treasury securities sold)",
    "RRPONTSYAWARD" := "ON RRP award rate"
  ]

  /** The written document, less its `last_updated_utc` timestamp. */
  datatype RepoPayload = RepoPayload(series: map<string, Series>, meta: map<string, string>)

  /** `fetch_series(series_id, start)`: request the observations and clean them. */
  method FetchSeries(fred: Endpoint, seriesId: string, start: string, parse: Parser) returns (s: Series)
    ensures Aligned(s)
    ensures s == CleanSeries(ObservationsOf(fred(seriesId, start)), parse)
  {
    var dates, values := CollectObservations(fred(seriesId, start), parse);
    s := Series(dates, values);
  }

  /** `main`: one `series` entry per key of `SERIES`, filled in key by key. */
  method BuildPayload(fred: Endpoint, parse: Parser) returns (out: RepoPayload)
    ensures out.meta == SERIES
    ensures out.series.Keys == SERIES.Keys
    ensures forall sid | sid in out.series ::
              Aligned(out.series[sid]) &&
              out.series[sid] == CleanSeries(ObservationsOf(fred(sid, START_DATE)), parse)
  {
    var series: map<string, Series> := map[];
    for k := 0 to |SERIES_IDS|
      invariant forall sid :: sid in series <==> sid in SERIES_IDS[..k]
      invariant forall sid | sid in series ::
                  Aligned(series[sid]) &&
                  series[sid] == CleanSeries(ObservationsOf(fred(sid, START_DATE)), parse)
    {
      var sid := SERIES_IDS[k];
      assert SERIES_IDS[..k + 1] == SERIES_IDS[..k] + [sid];
      var s := FetchSeries(fred, sid, START_DATE, parse);
      series := series[sid := s];
    }
    assert SERIES_IDS[..|SERIES_IDS|] == SERIES_IDS;
    out := RepoPayload(series, SERIES);
  }
}
