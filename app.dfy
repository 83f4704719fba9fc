/** app.js: the dashboard's series lookup with fallback names, the guards
    that keep a card or chart from being drawn when its data is missing, and
    the millions-to-billions scaling of the balance charts. Drawing itself
    (DOM writes, Plotly) is reduced to the value each step would draw. */
module App {

  import opened Wrappers
  import opened TimeSeries

  /** The `series` object of a fetched document. */
  type SeriesMap = map<string, Series>

  /** A fetched JSON document; `series` is `None` when the document has no
      such field. A document that failed to load is `None` one level up. */
  datatype Payload = Payload(series: Option<SeriesMap>)

  /** What one drawing step does: it draws a value, returns early without
      drawing (a guard), or throws (caught by `init`, which then stops). */
  datatype Outcome<T> = Drawn(value: T) | Skipped | Threw

  /** A line trace handed to the charting library: `x` the dates, `y` the values. */
  datatype Trace = Trace(x: seq<string>, y: seq<real>)

  /** The latest value shown on each of the four cards. */
  datatype Cards = Cards(sofr: real, effr: real, iorb: real, spread: real)

  /** The three traces of the funding chart. */
  datatype Funding = Funding(sofr: Trace, effr: Trace, iorb: Trace)

  datatype Panel = CardsPanel(cards: Cards) | FundingChart(funding: Funding)
                 | TgaChart(tga: Trace) | BalanceChart(balance: Trace)

  /** The preference lists the dashboard resolves. */
  const SOFR_NAMES: seq<string> := ["SOFR"]
  const EFFECTIVE_RATE_NAMES: seq<string> := ["EFFR", "FEDFUNDS"]
  const IORB_NAMES: seq<string> := ["IORB"]
  const SPREAD_NAMES: seq<string> := ["SOFR_minus_IORB"]
  const BALANCE_NAMES: seq<string> := ["WALCL"]

  // ---------------------------------------------------------------------------
  // Helpers

  /** `last(arr)`; `None` is the `undefined` it yields on an empty array. */
  function Last<T>(arr: seq<T>): (r: Option<T>)
    ensures r.Some? <==> |arr| > 0
    ensures r.Some? ==> r.value == arr[|arr| - 1]
  {
    if |arr| == 0 then None else Some(arr[|arr| - 1])
  }

  /** The series `getSeries` returns: that of the first name in `names` that
      the map holds, or `None` (the source's `null`) when it holds none. */
  function Resolve(m: SeriesMap, names: seq<string>): (r: Option<Series>)
    ensures r.None? <==> forall k | 0 <= k < |names| :: names[k] !in m
    ensures r.Some? ==> exists k | 0 <= k < |names| ::
                          && names[k] in m && r.value == m[names[k]]
                          && forall j | 0 <= j < k :: names[j] !in m
    decreases |names|
  {
    if |names| == 0 then None
    else if names[0] in m then Some(m[names[0]])
    else
      var r := Resolve(m, names[1..]);
      assert r.Some? ==> exists k | 0 <= k < |names| ::
                           && names[k] in m && r.value == m[names[k]]
                           && forall j | 0 <= j < k :: names[j] !in m
      by {
        if r.Some? {
          var k :| 0 <= k < |names| - 1 && names[1..][k] in m && r.value == m[names[1..][k]]
                   && forall j | 0 <= j < k :: names[1..][j] !in m;
          assert forall j | 0 <= j < k + 1 :: names[j] !in m by {
            forall j | 0 <= j < k + 1 ensures names[j] !in m {
              if j > 0 { assert names[j] == names[1..][j - 1]; }
            }
          }
        }
      }
      r
  }

  /** `getSeries(seriesObj, preferredNames)`: try the names in order and
      return the first hit. */
  method GetSeries(seriesObj: SeriesMap, preferredNames: seq<string>) returns (r: Option<Series>)
    ensures r == Resolve(seriesObj, preferredNames)
  {
    for i := 0 to |preferredNames|
      invariant Resolve(seriesObj, preferredNames) == Resolve(seriesObj, preferredNames[i..])
    {
      var name := preferredNames[i];
      if name in seriesObj {
        return Some(seriesObj[name]);
      }
      assert preferredNames[i..][1..] == preferredNames[i + 1..];
    }
    return None;
  }

  /** Once a name matches, the names after it are never consulted. */
  lemma {:induction false} ResolveIgnoresLaterNames(m: SeriesMap, names: seq<string>, later: seq<string>)
    requires exists k | 0 <= k < |names| :: names[k] in m
    ensures Resolve(m, names + later) == Resolve(m, names)
    decreases |names|
  {
    if names[0] !in m {
      var k :| 0 <= k < |names| && names[k] in m;
      assert names[1..][k - 1] == names[k];
      assert (names + later)[1..] == names[1..] + later;
      ResolveIgnoresLaterNames(m, names[1..], later);
    }
  }

  /** The effective rate is EFFR when the document has it, otherwise FEDFUNDS,
      otherwise unresolved. */
  lemma EffectiveRateResolution(m: SeriesMap)
    ensures "EFFR" in m ==> Resolve(m, EFFECTIVE_RATE_NAMES) == Some(m["EFFR"])
    ensures "EFFR" !in m && "FEDFUNDS" in m ==> Resolve(m, EFFECTIVE_RATE_NAMES) == Some(m["FEDFUNDS"])
    ensures "EFFR" !in m && "FEDFUNDS" !in m ==> Resolve(m, EFFECTIVE_RATE_NAMES).None?
  {
    assert EFFECTIVE_RATE_NAMES[1..] == ["FEDFUNDS"];
  }

  /** `values.map(v => v / 1000)`: millions of dollars to billions. */
  function ToBillions(values: seq<real>): (r: seq<real>)
    ensures |r| == |values|
    ensures forall i | 0 <= i < |values| :: r[i] * 1000.0 == values[i]
  {
    seq(|values|, i requires 0 <= i < |values| => values[i] / 1000.0)
  }

  /** The billions trace of a series: the dates unchanged, the values scaled. */
  function BillionsTrace(s: Series): (t: Trace)
    ensures t.x == s.dates && |t.y| == |s.values|
    ensures forall i | 0 <= i < |s.values| :: t.y[i] * 1000.0 == s.values[i]
    ensures Aligned(s) ==> |t.x| == |t.y|
  {
    Trace(s.dates, ToBillions(s.values))
  }

  // ---------------------------------------------------------------------------
  // Drawing steps

  /** `setCards(data)`: all four series must resolve, or no card is written;
      the cards show the last value of each. `data.series` missing makes the
      lookup throw, and so does an empty `values`, whose last element
      `undefined` has no `toFixed`. */
  function SetCards(data: Payload): (r: Outcome<Cards>)
    ensures data.series.None? ==> r.Threw?
    ensures data.series.Some? ==>
              var s := data.series.value;
              (r.Skipped? <==> Resolve(s, SOFR_NAMES).None? || Resolve(s, EFFECTIVE_RATE_NAMES).None?
                               || Resolve(s, IORB_NAMES).None? || Resolve(s, SPREAD_NAMES).None?)
    ensures data.series.Some? ==>
              var s := data.series.value;
              var sofr, effr := Resolve(s, SOFR_NAMES), Resolve(s, EFFECTIVE_RATE_NAMES);
              var iorb, spread := Resolve(s, IORB_NAMES), Resolve(s, SPREAD_NAMES);
              (sofr.Some? && effr.Some? && iorb.Some? && spread.Some? ==>
                 (r.Threw? <==> |sofr.value.values| == 0 || |effr.value.values| == 0
                                || |iorb.value.values| == 0 || |spread.value.values| == 0))
    ensures r.Drawn? ==>
              && data.series.Some?
              && var s := data.series.value;
              && Resolve(s, SOFR_NAMES).Some? && Last(Resolve(s, SOFR_NAMES).value.values) == Some(r.value.sofr)
              && Resolve(s, EFFECTIVE_RATE_NAMES).Some?
              && Last(Resolve(s, EFFECTIVE_RATE_NAMES).value.values) == Some(r.value.effr)
              && Resolve(s, IORB_NAMES).Some? && Last(Resolve(s, IORB_NAMES).value.values) == Some(r.value.iorb)
              && Resolve(s, SPREAD_NAMES).Some? && Last(Resolve(s, SPREAD_NAMES).value.values) == Some(r.value.spread)
  {
    match data.series
    case None => Threw
    case Some(s) =>
      var sofr, effr := Resolve(s, SOFR_NAMES), Resolve(s, EFFECTIVE_RATE_NAMES);
      var iorb, spread := Resolve(s, IORB_NAMES), Resolve(s, SPREAD_NAMES);
      if sofr.None? || effr.None? || iorb.None? || spread.None? then Skipped
      else
        var a, b := Last(sofr.value.values), Last(effr.value.values);
        var c, d := Last(iorb.value.values), Last(spread.value.values);
        if a.None? || b.None? || c.None? || d.None? then Threw
        else Drawn(Cards(a.value, b.value, c.value, d.value))
  }

  /** `plotFunding(data)`: SOFR, the effective rate and IORB must all
      resolve; each is charted as it is. */
  function PlotFunding(data: Payload): (r: Outcome<Funding>)
    ensures data.series.None? ==> r.Threw?
    ensures data.series.Some? ==>
              var s := data.series.value;
              (r.Skipped? <==> Resolve(s, SOFR_NAMES).None? || Resolve(s, EFFECTIVE_RATE_NAMES).None?
                               || Resolve(s, IORB_NAMES).None?)
    ensures data.series.Some? ==> !r.Threw?
    ensures r.Drawn? ==>
              && data.series.Some?
              && var s := data.series.value;
              && Resolve(s, SOFR_NAMES).Some? && Resolve(s, EFFECTIVE_RATE_NAMES).Some?
              && Resolve(s, IORB_NAMES).Some?
              && r.value.sofr == Trace(Resolve(s, SOFR_NAMES).value.dates, Resolve(s, SOFR_NAMES).value.values)
              && r.value.effr == Trace(Resolve(s, EFFECTIVE_RATE_NAMES).value.dates,
                                       Resolve(s, EFFECTIVE_RATE_NAMES).value.values)
              && r.value.iorb == Trace(Resolve(s, IORB_NAMES).value.dates, Resolve(s, IORB_NAMES).value.values)
  {
    match data.series
    case None => Threw
    case Some(s) =>
      var sofr, effr, iorb := Resolve(s, SOFR_NAMES), Resolve(s, EFFECTIVE_RATE_NAMES), Resolve(s, IORB_NAMES);
      if sofr.None? || effr.None? || iorb.None? then Skipped
      else Drawn(Funding(Trace(sofr.value.dates, sofr.value.values),
                         Trace(effr.value.dates, effr.value.values),
                         Trace(iorb.value.dates, iorb.value.values)))
  }

  /** `plotTGA(tgaData)`: nothing is drawn unless the document, its `series`
      and `series.TGA` are all there; then the TGA balance is charted in
      billions. It never throws. */
  function PlotTga(tgaData: Option<Payload>): (r: Outcome<Trace>)
    ensures !r.Threw?
    ensures r.Skipped? <==> tgaData.None? || tgaData.value.series.None? || "TGA" !in tgaData.value.series.value
    ensures r.Drawn? ==>
              var tga := tgaData.value.series.value["TGA"];
              && r.value.x == tga.dates && |r.value.y| == |tga.values|
              && (forall i | 0 <= i < |tga.values| :: r.value.y[i] * 1000.0 == tga.values[i])
              && (Aligned(tga) ==> |r.value.x| == |r.value.y|)
  {
    if tgaData.None? || tgaData.value.series.None? || "TGA" !in tgaData.value.series.value then Skipped
    else Drawn(BillionsTrace(tgaData.value.series.value["TGA"]))
  }

  /** `plotBalance(data)`: the WALCL series must resolve; it is charted in
      billions. `data.series` missing makes the lookup throw. */
  function PlotBalance(data: Payload): (r: Outcome<Trace>)
    ensures data.series.None? ==> r.Threw?
    ensures data.series.Some? ==> (r.Skipped? <==> "WALCL" !in data.series.value)
    ensures data.series.Some? ==> !r.Threw?
    ensures r.Drawn? ==>
              var walcl := data.series.value["WALCL"];
              && r.value.x == walcl.dates && |r.value.y| == |walcl.values|
              && (forall i | 0 <= i < |walcl.values| :: r.value.y[i] * 1000.0 == walcl.values[i])
              && (Aligned(walcl) ==> |r.value.x| == |r.value.y|)
  {
    match data.series
    case None => Threw
    case Some(s) =>
      match Resolve(s, BALANCE_NAMES)
      case None => Skipped
      case Some(walcl) => Drawn(BillionsTrace(walcl))
  }

  // ---------------------------------------------------------------------------
  // Running the steps

  /** A step's outcome with its drawn value wrapped as a panel. */
  function AsPanel<T>(o: Outcome<T>, panel: T -> Panel): Outcome<Panel>
  {
    match o
    case Drawn(v) => Drawn(panel(v))
    case Skipped => Skipped
    case Threw => Threw
  }


  /** Run drawing steps in order inside one `try`: the first step that throws
      ends the run, and the panels drawn before it stay. */
  function RunSteps(steps: seq<Outcome<Panel>>): (panels: seq<Panel>)
    ensures |panels| <= |steps|
    ensures forall p | p in panels :: exists k | 0 <= k < |steps| :: steps[k] == Drawn(p)
    ensures (exists k | 0 <= k < |steps| :: steps[k].Threw?) ==> |panels| < |steps|
    decreases |steps|
  {
    if |steps| == 0 then []
    else
      var rest := RunSteps(steps[1..]);
      assert forall p | p in rest :: exists k | 0 <= k < |steps| :: steps[k] == Drawn(p) by {
        forall p | p in rest ensures exists k | 0 <= k < |steps| :: steps[k] == Drawn(p) {
          var k :| 0 <= k < |steps| - 1 && steps[1..][k] == Drawn(p);
          assert steps[k + 1] == Drawn(p);
        }
      }
      assert (exists k | 0 <= k < |steps| :: steps[k].Threw?) && !steps[0].Threw? ==>
               exists k | 0 <= k < |steps| - 1 :: steps[1..][k].Threw? by {
        if (exists k | 0 <= k < |steps| :: steps[k].Threw?) && !steps[0].Threw? {
          var k :| 0 <= k < |steps| && steps[k].Threw?;
          assert steps[1..][k - 1].Threw?;
        }
      }
      match steps[0]
      case Threw => []
      case Skipped => rest
      case Drawn(p) => [p] + rest
  }

  /** A throwing step ends the run: nothing after it is drawn, and what was
      drawn before it stays. */
  lemma {:induction false} RunStepsStopsAtThrow(pre: seq<Outcome<Panel>>, post: seq<Outcome<Panel>>)
    ensures RunSteps(pre + [Threw] + post) == RunSteps(pre)
    decreases |pre|
  {
    if |pre| > 0 {
      assert (pre + [Threw] + post)[1..] == pre[1..] + [Threw] + post;
      RunStepsStopsAtThrow(pre[1..], post);
    }
  }

  /** A step whose guard returns early draws nothing and does not stop the run. */
  lemma {:induction false} RunStepsSkipped(pre: seq<Outcome<Panel>>, post: seq<Outcome<Panel>>)
    ensures RunSteps(pre + [Skipped] + post) == RunSteps(pre + post)
    decreases |pre|
  {
    if |pre| == 0 {
      assert [Skipped] + post == [Skipped] + (pre + post) && ([Skipped] + post)[1..] == post;
      assert pre + [Skipped] + post == [Skipped] + post && pre + post == post;
    } else {
      assert (pre + [Skipped] + post)[1..] == pre[1..] + [Skipped] + post;
      assert (pre + post)[1..] == pre[1..] + post;
      RunStepsSkipped(pre[1..], post);
    }
  }

  /** Before the first throw, the run draws the steps one after the other:
      a run whose first part does not throw is that part's panels followed
      by the rest's. */
  lemma {:induction false} RunStepsAppend(pre: seq<Outcome<Panel>>, post: seq<Outcome<Panel>>)
    requires forall k | 0 <= k < |pre| :: !pre[k].Threw?
    ensures RunSteps(pre + post) == RunSteps(pre) + RunSteps(post)
    decreases |pre|
  {
    if |pre| == 0 {
      assert pre + post == post;
    } else {
      assert (pre + post)[1..] == pre[1..] + post;
      RunStepsAppend(pre[1..], post);
    }
  }

  /** When no step throws or skips, every step's panel is drawn, in order. */
  lemma {:induction false} RunStepsAllDrawn(steps: seq<Outcome<Panel>>)
    requires forall k | 0 <= k < |steps| :: steps[k].Drawn?
    ensures |RunSteps(steps)| == |steps|
    ensures forall k | 0 <= k < |steps| :: RunSteps(steps)[k] == steps[k].value
    decreases |steps|
  {
    if |steps| > 0 {
      RunStepsAllDrawn(steps[1..]);
    }
  }

  // ---------------------------------------------------------------------------
  // Loading

  /** What a loader's `fetch` and `res.json()` come back with: a rejection
      (network failure, or a body that is not JSON), a response that is not
      ok, or the parsed document. */
  datatype Fetched = FetchFailed | NotOk | Body(doc: Payload)

  /** What a loader's promise settles to: the document it resolves to
      (`None` for its `null`), or a rejection. */
  datatype Load = Resolved(doc: Option<Payload>) | Rejected

  /** `loadData()` and `loadTgaData()`: `null` when the response is not ok;
      the document otherwise, except that logging `Object.keys(data.series)`
      throws when the document has no `series`, so the promise rejects. */
  function LoadDocument(f: Fetched): (r: Load)
    ensures r.Rejected? <==> f.FetchFailed? || (f.Body? && f.doc.series.None?)
    ensures r.Resolved? ==> (r.doc.Some? <==> f.Body?)
    ensures r.Resolved? && r.doc.Some? ==> r.doc.value == f.doc && r.doc.value.series.Some?
  {
    match f
    case FetchFailed => Rejected
    case NotOk => Resolved(None)
    case Body(doc) => if doc.series.None? then Rejected else Resolved(Some(doc))
  }

  /** `loadRepoData()`: its own `try` turns every failure into `null`, and it
      reads `data.series || {}`, so it never rejects. */
  function LoadRepoDocument(f: Fetched): (r: Load)
    ensures r.Resolved?
    ensures r.doc.Some? <==> f.Body?
    ensures r.doc.Some? ==> r.doc.value == f.doc
  {
    match f
    case Body(doc) => Resolved(Some(doc))
    case _ => Resolved(None)
  }

  // ---------------------------------------------------------------------------
  // init

  /** The drawing steps `init` runs on a loaded main document, in call order:
      cards, funding chart, TGA chart (only when its document loaded) and
      balance chart. */
  function InitSteps(m: Payload, tgaData: Option<Payload>): (steps: seq<Outcome<Panel>>)
    ensures |steps| == 4
    ensures steps[0].Drawn? ==> steps[0].value.CardsPanel? && SetCards(m) == Drawn(steps[0].value.cards)
    ensures steps[1].Drawn? ==> steps[1].value.FundingChart? && PlotFunding(m) == Drawn(steps[1].value.funding)
    ensures tgaData.None? ==> steps[2].Skipped?
    ensures steps[2].Drawn? ==> tgaData.Some? && steps[2].value.TgaChart? && PlotTga(tgaData) == Drawn(steps[2].value.tga)
    ensures steps[3].Drawn? ==> steps[3].value.BalanceChart? && PlotBalance(m) == Drawn(steps[3].value.balance)
    ensures forall k | 0 <= k < 4 :: steps[k].Threw? ==> k != 2
    ensures (steps[0].Threw? <==> SetCards(m).Threw?) && (steps[0].Skipped? <==> SetCards(m).Skipped?)
    ensures (steps[1].Threw? <==> PlotFunding(m).Threw?) && (steps[1].Skipped? <==> PlotFunding(m).Skipped?)
    ensures tgaData.Some? ==> (steps[2].Skipped? <==> PlotTga(tgaData).Skipped?)
    ensures (steps[3].Threw? <==> PlotBalance(m).Threw?) && (steps[3].Skipped? <==> PlotBalance(m).Skipped?)
  {
    [AsPanel(SetCards(m), p => CardsPanel(p)),
     AsPanel(PlotFunding(m), p => FundingChart(p)),
     if tgaData.Some? then AsPanel(PlotTga(tgaData), p => TgaChart(p)) else Skipped,
     AsPanel(PlotBalance(m), p => BalanceChart(p))]
  }

  /** `init()` on what the three loaders fetched. `Promise.all` rejects when
      the main or the TGA loader does, and the `catch` then runs before
      anything is drawn; with no main document `init` returns at once;
      otherwise the steps run until one throws. */
  function Init(mainData: Fetched, tgaData: Fetched, repoData: Fetched): (panels: seq<Panel>)
    ensures LoadDocument(mainData).Rejected? || LoadDocument(tgaData).Rejected? ==> panels == []
    ensures !mainData.Body? ==> panels == []
    ensures |panels| <= 4
  {
    var main, tga, repo := LoadDocument(mainData), LoadDocument(tgaData), LoadRepoDocument(repoData);
    if main.Rejected? || tga.Rejected? || repo.Rejected? then []
    else
      match main.doc
      case None => []
      case Some(m) => RunSteps(InitSteps(m, tga.doc))
  }

  /** No TGA chart is drawn unless the TGA document loaded with a "TGA" entry. */
  lemma {:induction false} InitTgaGuard(mainData: Fetched, tgaData: Fetched, repoData: Fetched)
    requires !(tgaData.Body? && tgaData.doc.series.Some? && "TGA" in tgaData.doc.series.value)
    ensures forall p | p in Init(mainData, tgaData, repoData) :: !p.TgaChart?
  {
    var main, tga := LoadDocument(mainData), LoadDocument(tgaData);
    if !main.Rejected? && !tga.Rejected? && main.doc.Some? {
      var steps := InitSteps(main.doc.value, tga.doc);
      assert Init(mainData, tgaData, repoData) == RunSteps(steps);
      forall p | p in RunSteps(steps) ensures !p.TgaChart? {
        var k :| 0 <= k < |steps| && steps[k] == Drawn(p);
      }
    }
  }

  /** When the cards step throws (for a loaded document: all four series
      resolve and one has an empty `values`), the `try` ends there and no
      chart is drawn either. */
  lemma {:induction false} InitStopsAtCards(m: Payload, tgaData: Fetched, repoData: Fetched)
    requires SetCards(m).Threw?
    ensures Init(Body(m), tgaData, repoData) == []
  {
    var tga := LoadDocument(tgaData);
    if !tga.Rejected? {
      var steps := InitSteps(m, tga.doc);
      assert steps == [] + [Threw] + steps[1..];
      RunStepsStopsAtThrow([], steps[1..]);
    }
  }

  /** With every series present and non-empty and the TGA document loaded,
      all four panels are drawn, in the order `init` calls them, the balance
      chart in billions. */
  lemma InitDrawsEverything(m: Payload, tgaData: Fetched, repoData: Fetched)
    requires m.series.Some?
    requires var s := m.series.value;
             && Resolve(s, SOFR_NAMES).Some? && |Resolve(s, SOFR_NAMES).value.values| > 0
             && Resolve(s, EFFECTIVE_RATE_NAMES).Some? && |Resolve(s, EFFECTIVE_RATE_NAMES).value.values| > 0
             && Resolve(s, IORB_NAMES).Some? && |Resolve(s, IORB_NAMES).value.values| > 0
             && Resolve(s, SPREAD_NAMES).Some? && |Resolve(s, SPREAD_NAMES).value.values| > 0
             && "WALCL" in s
    requires tgaData.Body? && tgaData.doc.series.Some? && "TGA" in tgaData.doc.series.value
    ensures var panels := Init(Body(m), tgaData, repoData);
            && |panels| == 4
            && panels[0].CardsPanel? && panels[1].FundingChart?
            && panels[2] == TgaChart(BillionsTrace(tgaData.doc.series.value["TGA"]))
            && panels[3] == BalanceChart(BillionsTrace(m.series.value["WALCL"]))
  {
    var steps := InitSteps(m, Some(tgaData.doc));
    assert Init(Body(m), tgaData, repoData) == RunSteps(steps);
    RunStepsAllDrawn(steps);
  }
}
