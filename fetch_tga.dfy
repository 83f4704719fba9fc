/** scripts/fetch_tga.py: download the Treasury General Account balance and
    write it to data/tga.json under the single key "TGA". */
module FetchTga {

  import opened TimeSeries
  import opened Fred

  /** Weekly Treasury General Account, average balance. */
  const TGA_SERIES_ID := "WTREGEN"
  const START_DATE := "2015-01-01"

  /** The written document, less its `last_updated_utc` timestamp. */
  datatype TgaPayload = TgaPayload(series: map<string, Series>)

  /** `fetch_tga()`: request the TGA observations and clean them. */
  method FetchTga(fred: Endpoint, parse: Parser) returns (s: Series)
    ensures Aligned(s)
    ensures s == CleanSeries(ObservationsOf(fred(TGA_SERIES_ID, START_DATE)), parse)
    ensures fred(TGA_SERIES_ID, START_DATE).observations.None? ==> s == Series([], [])
  {
    var dates, values := CollectObservations(fred(TGA_SERIES_ID, START_DATE), parse);
    s := Series(dates, values);
  }

  /** `main`: wrap the series under "TGA"; `count` is the number of
      observations the script reports, `len(tga_series["dates"])`. */
  method BuildOutput(fred: Endpoint, parse: Parser) returns (out: TgaPayload, count: nat)
    ensures out.series.Keys == {"TGA"}
    ensures out.series["TGA"] == CleanSeries(ObservationsOf(fred(TGA_SERIES_ID, START_DATE)), parse)
    ensures count == |out.series["TGA"].dates| == |out.series["TGA"].values|
  {
    var tga := FetchTga(fred, parse);
    out := TgaPayload(map["TGA" := tga]);
    count := |tga.dates|;
  }
}
