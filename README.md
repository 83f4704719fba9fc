# plumber-dashboard: a Dafny model of the data pipeline and dashboard guards

The plumber-dashboard repository is a small browser dashboard of US money-market
"plumbing" series: SOFR, the effective fed funds rate, IORB, the SOFR − IORB spread,
the Fed balance sheet (WALCL), the Treasury General Account (TGA) and repo
volumes. Two kinds of code feed it:

- Python scripts download FRED observations and write JSON documents of the form
  `{"series": {NAME: {"dates": [...], "values": [...]}}}`:
  - `scripts/scripts/fetch_repo.py` writes the repo series;
  - `scripts/fetch_tga.py` writes the TGA balance;
  - `scripts/fetch_data.py` writes the joined rate and balance series (with pandas).
- `app.js` loads the documents, resolves series by name (with fallback names),
  fills four cards with the latest values, and draws charts. It skips a card or
  chart whose data is missing.

The model covers the parts of this code that have behaviour you can state:

- **Observation cleaning** (module `Fred`, file `fred.dfy`). `fetch_series` and
  `fetch_tga` run the same loop, so it is modelled once (`Fred.CollectObservations`).
  The loop skips observations whose value is missing, is the placeholder `"."`, or
  does not parse. It appends the survivors to two lists that stay index-aligned. The
  loop is proved equal to a specification function, `Fred.CleanSeries`, and lemmas
  prove that function is exactly the order-preserving filter of the kept
  observations.
- **The two simple scripts** (`FetchRepo`, `FetchTga`). One `series` entry per
  configured id, filled key by key, plus the `meta` table; or the single `"TGA"`
  entry and its reported count.
- **The pandas pipeline** (`FetchData`). A date-indexed column is a map from the
  ISO date string to `Option<real>`, where `None` stands for NaN. The model covers:
  - `to_numeric(errors="coerce")`;
  - the outer join (union of the dates, NaN where a download lacks a date);
  - the spread column (NaN where either operand is NaN);
  - the per-column `dropna`, the `>= 2018-01-01` cutoff and the serialisation into
    aligned lists, in the ascending date order of the index that the outer join
    sorts.

  The lemma `FetchData.SpreadEmission` states the consequence for the written
  spread: it has a date exactly when that date is on or after the cutoff and both
  SOFR and IORB have a number on it.
- **The dashboard** (`App`). It covers:
  - `getSeries` as an ordered fallback (loop method and specification function);
  - `last`;
  - the all-or-nothing guard of `setCards`;
  - the guards of `plotFunding`, `plotTGA` and `plotBalance`;
  - the `v / 1000` scaling;
  - the loaders, whose `Object.keys(data.series)` rejects a document without
    `series`;
  - `init`: nothing is drawn when a loader rejects or the main document is
    missing, and a step that throws ends the run.

External inputs are parameters:

- the FRED endpoint is a function `(series_id, observation_start) -> Response`;
- number parsing (`float`, `pd.to_numeric`) is an abstract
  `parse: string -> Option<real>`, where `None` means "does not parse".

Values are mathematical reals, not IEEE doubles. Dates are ISO `YYYY-MM-DD`
strings, compared lexicographically (`TimeSeries.Before`).

`last([])` in app.js (lines 44-46) yields `undefined`; `App.Last` returns
`None` for it, and `App.SetCards` then throws, as `undefined.toFixed` does.

## Model

| member | source | states |
|---|---|---|
| `Fred.ObservationsOf` | scripts/scripts/fetch_repo.py:34 | A response without an "observations" key gives the empty list; otherwise its list. |
| `Fred.Keep` | scripts/scripts/fetch_repo.py:35-42 | An observation contributes a number exactly when its value is present, is not the placeholder ".", and parses. The number is then the parsed value, and otherwise the loop skips the observation. |
| `Fred.CleanSeries` | scripts/scripts/fetch_repo.py:31-44 | The cleaned series is index-aligned (`\|dates\| == \|values\|`) and no longer than the input. |
| `Fred.KeptIndices` | scripts/scripts/fetch_repo.py:34-42 | The kept positions are strictly increasing and in range. A position is listed exactly when that observation's value is present, is not ".", and parses. |
| `Fred.CleanSeriesIsFilter` | scripts/scripts/fetch_repo.py:34-44 | Output entry k comes from kept observation k, in input order. `dates[k]` is that observation's date and `values[k]` its parsed value, so no date is paired with another observation's value. |
| `Fred.SkippedContributesNothing` | scripts/scripts/fetch_repo.py:35-42 | Removing a missing, "." or unparsable observation from anywhere in the input does not change the output. Neither list is appended for it. |
| `Fred.NothingKeptMeansEmpty` | scripts/fetch_tga.py:31-39 | If every observation is missing, ".", or unparsable, the result has empty `dates` and `values`. |
| `Fred.CollectObservations` | scripts/fetch_tga.py:28-41 | The append loop with `continue` skips is proved equal to `CleanSeries` of `data.get("observations", [])`. It keeps the lists aligned, and a missing key gives two empty lists. |
| `FetchRepo.FetchSeries` | scripts/scripts/fetch_repo.py:20-44 | `fetch_series(id, start)` is the aligned cleaned series of the endpoint's response for `(id, start)`. |
| `FetchRepo.BuildPayload` | scripts/scripts/fetch_repo.py:47-56 | `series` has exactly the keys of `SERIES`, and each entry is `fetch_series(sid, "2015-01-01")`. `meta` equals `SERIES`. |
| `FetchTga.FetchTga` | scripts/fetch_tga.py:17-41 | `fetch_tga()` is the aligned cleaned series for WTREGEN from 2015-01-01. It is empty when the response has no observations. |
| `FetchTga.BuildOutput` | scripts/fetch_tga.py:44-61 | `series` has the single key "TGA", bound to `fetch_tga()`. The reported count is `len(dates)`, which equals `len(values)`. |
| `FetchData.Coerce` | scripts/fetch_data.py:28 | A cell is a number exactly when the raw value is present and parses, and then it is the parsed number. Otherwise it is NaN, never 0 and never an exception. |
| `FetchData.ColumnOf` | scripts/fetch_data.py:26-31 | The frame's index is exactly the observations' dates. |
| `FetchData.ColumnOfAt` | scripts/fetch_data.py:27-29 | The row for an observation's date (when no later observation repeats the date) holds that observation's coerced value. |
| `FetchData.GetFredSeries` | scripts/fetch_data.py:24-31 | The script raises (`None`) exactly when "observations" is missing or empty. Otherwise the column's dates are exactly the observations' dates. |
| `FetchData.Reindex` | scripts/fetch_data.py:47 | Defined as the download extended to the joined index: every index date maps to the download's cell where the download has that date, and to NaN where it does not. The facts used downstream are stated by `FetchData.OuterJoin` and `FetchData.JoinAndSpreadCell`. |
| `FetchData.OuterJoin` | scripts/fetch_data.py:47 | The joined index holds a date exactly when one of the four downloads has it. Every listed column is defined on the whole index. |
| `FetchData.Minus` | scripts/fetch_data.py:50 | The difference is a number exactly when both operands are, and then it is their difference. |
| `FetchData.AddSpread` | scripts/fetch_data.py:50 | Adds `SOFR_minus_IORB` as the last column, defined on the whole index as SOFR minus IORB, and leaves the other columns unchanged. |
| `FetchData.JoinAndSpread` | scripts/fetch_data.py:47-50 | The frame's columns are SOFR, EFFR, IORB, WALCL, SOFR_minus_IORB, in that order. Its index is the union of the four downloads' dates. |
| `FetchData.JoinAndSpreadCell` | scripts/fetch_data.py:47-50 | At each index date, each base column holds its download's value (NaN if that download lacks the date). The spread is SOFR[d] − IORB[d], NaN if either is NaN. |
| `FetchData.FetchAllSeries` | scripts/fetch_data.py:34-52 | `fetch_all_series` succeeds exactly when all four downloads do (SOFR from 2018, EFFR and IORB from 2015, WALCL from 2005). Its frame is the join plus the spread of those columns. |
| `TimeSeries.AtOrAfter` | scripts/fetch_data.py:65 | The cutoff test `index >= 2018-01-01` on ISO date strings, defined as "not before the cutoff" in the string order. |
| `TimeSeries.AtOrAfterMeaning` | scripts/fetch_data.py:65 | A date passes the cutoff test exactly when it equals the cutoff or comes after it in the string order. |
| `FetchData.EmitColumn` | scripts/fetch_data.py:64-69 | The written entry has aligned lists in strictly ascending date order (the sorted index of the outer join), and `values[i]` is the column's value at `dates[i]`. It holds exactly the non-NaN rows dated on or after 2018-01-01. |
| `FetchData.EmitAll` | scripts/fetch_data.py:63-69 | `series` has one entry per column of the frame and no other. Each entry is that column emitted as above. |
| `FetchData.BuildPlumbingPayload` | scripts/fetch_data.py:55-69 | No document when a download raises. Otherwise there is one entry for each of SOFR, EFFR, IORB, WALCL and SOFR_minus_IORB, and each is the emission of its joined column. |
| `FetchData.EmittedDates` | scripts/fetch_data.py:64-65 | An emitted column contains date d exactly when its cell at d is not NaN and d >= 2018-01-01. |
| `FetchData.EmittedLastIsLatest` | scripts/fetch_data.py:64-69 | The last value written for a column is its latest non-NaN row on or after the cutoff: every other written date is earlier. |
| `FetchData.SpreadCell` | scripts/fetch_data.py:50 | The spread cell at d is a number exactly when SOFR and IORB both have a number at d. |
| `FetchData.BaseCell` | scripts/fetch_data.py:47 | A joined base column has a number at d exactly when its download does, and then it is the same number. |
| `FetchData.SpreadEmission` | scripts/fetch_data.py:50-69 | The written spread has date d exactly when d >= 2018-01-01 and both SOFR and IORB were observed on d with a number. Its value there is SOFR − IORB. |
| `FetchData.BaseColumnEmission` | scripts/fetch_data.py:47-69 | Each written base column holds exactly its download's non-NaN values from 2018-01-01 on. The outer join adds no values and loses none. |
| `App.Last` | app.js:44-46 | For a non-empty array it returns the final element. For an empty array it returns `undefined` (`None`). |
| `App.Resolve` | app.js:49-57 | Returns the entry of the first preferred name present in the map, with no earlier name present. Returns `null` (`None`) exactly when no name is present, so always for an empty list. |
| `App.GetSeries` | app.js:49-57 | The `for` loop with early return computes `Resolve`. |
| `App.ResolveIgnoresLaterNames` | app.js:50-54 | Once a name matches, appending more names to the preference list does not change the result. |
| `App.EffectiveRateResolution` | app.js:65 | With `["EFFR", "FEDFUNDS"]`: EFFR when present, else FEDFUNDS when present, else null. |
| `App.ToBillions` | app.js:159 | The scaled list has the input's length, and element i times 1000 is input element i. |
| `App.BillionsTrace` | app.js:195-197 | The trace keeps the dates and scales each value by 1/1000. For an aligned series, x and y have the same length. |
| `App.SetCards` | app.js:61-77 | A missing `series` throws. With `series` present, no card is written exactly when one of SOFR, EFFR/FEDFUNDS, IORB or SOFR_minus_IORB is unresolved. With all four resolved, it throws exactly when one has an empty `values`. When drawn, the cards are the last values of the resolved series. |
| `App.PlotFunding` | app.js:91-120 | A missing `series` throws; otherwise it never throws. Nothing is drawn exactly when SOFR, EFFR/FEDFUNDS or IORB is unresolved. When drawn, the three traces are the resolved series' dates and values unchanged. |
| `App.PlotTga` | app.js:149-163 | Returns without drawing exactly when the document, its `series` or `series.TGA` is missing, and never throws. Otherwise the trace is the TGA dates with the values divided by 1000. |
| `App.PlotBalance` | app.js:187-201 | A missing `series` throws; otherwise it never throws. Nothing is drawn exactly when WALCL is absent. Otherwise the trace is WALCL's dates with the values divided by 1000. |
| `App.RunSteps` | app.js:226-256 | Inside one try/catch, every panel shown comes from a step that drew it, and no more panels than steps. A throwing step means fewer panels than steps. |
| `App.RunStepsStopsAtThrow` | app.js:241-256 | A step that throws ends the run: the panels are exactly those drawn by the steps before it, whatever follows. |
| `App.RunStepsSkipped` | app.js:241-253 | A step whose guard returns early draws nothing and does not stop the later steps. |
| `App.RunStepsAppend` | app.js:241-253 | When the first steps do not throw, the panels are theirs followed by those of the later steps, in call order. |
| `App.RunStepsAllDrawn` | app.js:241-253 | When every step draws, the panels are exactly the steps' values, in call order. |
| `App.LoadDocument` | app.js:3-25 | `loadData`/`loadTgaData` reject exactly when the fetch or JSON decoding fails, or when the document has no `series` (the `Object.keys(data.series)` log throws). Otherwise they resolve to `null` exactly for a response that is not ok, and to the document itself otherwise. |
| `App.LoadRepoDocument` | app.js:26-40 | `loadRepoData` never rejects. It resolves to the document for an ok response and to `null` for every failure. |
| `App.InitSteps` | app.js:241-253 | The four steps in `init`'s call order: cards, funding, TGA, balance. Each step throws exactly when its function throws and skips exactly when its function returns early. A drawn step is a panel of its own kind, equal to its function's result. The TGA step is skipped when the TGA document did not load (`if (tgaData)`), follows `plotTGA` otherwise, and never throws. |
| `App.Init` | app.js:225-257 | Nothing is drawn when the main or TGA loader rejects (`Promise.all` rejects into the catch), or when there is no main document. At most four panels are drawn. |
| `App.InitTgaGuard` | app.js:245-247 | No TGA chart is drawn unless the TGA document loaded with a `series` holding "TGA". |
| `App.InitStopsAtCards` | app.js:74-77 | When `setCards` throws on an empty series, the catch ends `init`: no chart is drawn either. |
| `App.InitDrawsEverything` | app.js:241-253 | Suppose every needed series is present and non-empty and the TGA document loaded. Then cards, funding, TGA and balance are drawn, in that order, with the TGA and balance traces in billions. |
## Left out

- HTTP in the scripts: requests, `raise_for_status`, timeouts. The endpoint is a function parameter that always answers, and HTTP failures are not modelled. On the dashboard side, what `fetch` and `res.json()` come back with is the input `App.Fetched`.
- The `FRED_API_KEY` environment check, the `datetime.utcnow()` timestamps, `os.makedirs` and file writes, JSON encoding and parsing, and all `print`/`console` logging. These are environment, clock and I/O.
- Python `float()` and pandas `to_numeric` parsing. Both are the abstract `parse` parameter, so what "nan", "inf" or whitespace parse to is left to it. Numbers are reals, not IEEE doubles.
- `Fred.Observation`: the date is always a string. An observation without a "date" field (which `obs.get("date")` would turn into `null`) is not modelled. A JSON number in "value" is taken by its text.
- `FetchData.ColumnOf`: a response that repeats a date keeps the last row for it, while pandas would keep both rows. A response where no observation has a "value" field at all is not modelled as the KeyError it raises.
- `pd.to_datetime` and `strftime`: dates stay as strings. Unparsable or non-canonical date strings are not modelled, and the cutoff comparison is lexicographic.
- The key order of the written `series` dictionaries. They are maps in the model.
- `App.Resolve`: a `series` entry bound to a falsy JSON value such as `null` counts as present, where JavaScript treats it as absent. Names inherited from JavaScript's object prototype are not modelled.
- `plotSpread` and `plotRepo` are not defined in app.js, which is the only client file of this model. `App.Init` assumes they return without throwing and draw nothing modelled, so the repo document is not used.
- The loaders' `console.log` output and the concurrency of `Promise.all`. A JSON body that is not an object (such as `null`) is not modelled.
- DOM writes, the "last updated" text, `toFixed` formatting, Plotly traces' styling, layouts and `Plotly.newPlot`. These are presentation and a foreign library.
- The copies under .github/workflows/scripts are not part of this model.
