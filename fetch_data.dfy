/** scripts/fetch_data.py: download SOFR, EFFR, IORB and WALCL, outer-join them
    by date, add the SOFR - IORB spread, and write every column from
    2018-01-01 on, without its missing values, to data/plumbing_data.json.

    A pandas column indexed by date is a map from the date string to
    `Option<real>`, where `None` plays NaN. */
module FetchData {

  import opened Wrappers
  import opened TimeSeries
  import opened Fred

  type Column = map<string, Option<real>>

  /** Name of the derived column. */
  const SPREAD := "SOFR_minus_IORB"

  /** The columns of the joined frame, in order: the calling frame, the three
      joined ones, then the spread. */
  const COLUMNS: seq<string> := ["SOFR", "EFFR", "IORB", "WALCL", SPREAD]

  /** Emitted dates start here (`pd.Timestamp("2018-01-01")`). */
  const CUTOFF := "2018-01-01"

  // ---------------------------------------------------------------------------
  // get_fred_series

  /** `pd.to_numeric(value, errors="coerce")` on one cell: a missing value or
      text that does not parse becomes NaN; nothing raises and nothing becomes 0
      that did not parse to 0. */
  function Coerce(raw: Option<string>, parse: Parser): (r: Option<real>)
    ensures r.Some? <==> raw.Some? && parse(raw.value).Some?
    ensures r.Some? ==> r == parse(raw.value)
  {
    match raw
    case None => None
    case Some(v) => parse(v)
  }

  /** The `value` column indexed by `date`; a later observation of the same
      date overwrites an earlier one. */
  function ColumnOf(obs: seq<Observation>, parse: Parser): (c: Column)
    ensures forall i | 0 <= i < |obs| :: obs[i].date in c
    ensures forall d | d in c :: exists i | 0 <= i < |obs| :: obs[i].date == d
    decreases |obs|
  {
    if |obs| == 0 then map[]
    else
      var o := obs[|obs| - 1];
      var c := ColumnOf(obs[..|obs| - 1], parse);
      assert forall i | 0 <= i < |obs| - 1 :: obs[..|obs| - 1][i] == obs[i];
      c[o.date := Coerce(o.value, parse)]
  }

  /** The date of observation `i`, when no later observation repeats it, holds
      the coerced value of observation `i`. */
  lemma {:induction false} ColumnOfAt(obs: seq<Observation>, parse: Parser, i: nat)
    requires i < |obs|
    requires forall j | i < j < |obs| :: obs[j].date != obs[i].date
    ensures ColumnOf(obs, parse)[obs[i].date] == Coerce(obs[i].value, parse)
    decreases |obs|
  {
    if i < |obs| - 1 {
      var pre := obs[..|obs| - 1];
      assert pre[i] == obs[i];
      ColumnOfAt(pre, parse, i);
    }
  }

  /** `get_fred_series`: `None` where the script raises: the response has no
      "observations" key (`r.json()["observations"]`), or the list is empty,
      so the frame built from it has no "date" column. */
  function GetFredSeries(resp: Response, parse: Parser): (c: Option<Column>)
    ensures c.None? <==> resp.observations.None? || |resp.observations.value| == 0
    ensures c.Some? ==> forall i | 0 <= i < |resp.observations.value| ::
                          resp.observations.value[i].date in c.value
    ensures c.Some? ==> forall d | d in c.value ::
                          exists i | 0 <= i < |resp.observations.value| :: resp.observations.value[i].date == d
  {
    match resp.observations
    case None => None
    case Some(obs) => if |obs| == 0 then None else Some(ColumnOf(obs, parse))
  }

  // ---------------------------------------------------------------------------
  // fetch_all_series

  /** A data frame: the shared date index, the column names in order, and the columns. */
  datatype Frame = Frame(index: set<string>, names: seq<string>, cols: map<string, Column>)

  /** Every listed column exists, and every column is defined on the whole index. */
  ghost predicate Tabular(f: Frame)
  {
    && (forall k | 0 <= k < |f.names| :: f.names[k] in f.cols)
    && (forall n | n in f.cols :: f.cols[n].Keys == f.index)
  }

  /** A column's cell at `d`, or NaN when the column has no row `d`. */
  function Lookup(c: Column, d: string): Option<real>
  {
    if d in c then c[d] else None
  }

  /** A column extended to a larger index, with NaN in the new rows. */
  function Reindex(c: Column, index: set<string>): Column
  {
    map d | d in index :: Lookup(c, d)
  }

  /** `sofr.join([effr, iorb, walcl], how="outer")`: the index is the
      union of the four downloads' dates, and each column is its download
      reindexed to it. */
  function OuterJoin(sofr: Column, effr: Column, iorb: Column, walcl: Column): (f: Frame)
    ensures Tabular(f) && f.names == COLUMNS[..4]
    ensures forall d :: d in f.index <==> d in sofr || d in effr || d in iorb || d in walcl
  {
    var index := sofr.Keys + effr.Keys + iorb.Keys + walcl.Keys;
    Frame(index, COLUMNS[..4],
          map["SOFR" := Reindex(sofr, index), "EFFR" := Reindex(effr, index),
              "IORB" := Reindex(iorb, index), "WALCL" := Reindex(walcl, index)])
  }

  /** Column subtraction: NaN wherever either operand is NaN. */
  function Minus(a: Option<real>, b: Option<real>): (r: Option<real>)
    ensures r.Some? <==> a.Some? && b.Some?
    ensures r.Some? ==> r.value == a.value - b.value
  {
    if a.Some? && b.Some? then Some(a.value - b.value) else None
  }

  /** `df["SOFR_minus_IORB"] = df["SOFR"] - df["IORB"]` */
  function AddSpread(f: Frame): (g: Frame)
    requires Tabular(f) && "SOFR" in f.cols && "IORB" in f.cols
    ensures Tabular(g) && g.index == f.index && g.names == f.names + [SPREAD]
    ensures forall n | n in f.cols && n != SPREAD :: n in g.cols && g.cols[n] == f.cols[n]
    ensures SPREAD in g.cols
    ensures forall d | d in g.index :: g.cols[SPREAD][d] == Minus(f.cols["SOFR"][d], f.cols["IORB"][d])
  {
    var spread := map d | d in f.index :: Minus(f.cols["SOFR"][d], f.cols["IORB"][d]);
    Frame(f.index, f.names + [SPREAD], f.cols[SPREAD := spread])
  }

  /** `fetch_all_series` after its downloads: the outer join of the four
      columns, followed by the spread column. */
  function JoinAndSpread(sofr: Column, effr: Column, iorb: Column, walcl: Column): (f: Frame)
    ensures Tabular(f) && f.names == COLUMNS
    ensures forall d :: d in f.index <==> d in sofr || d in effr || d in iorb || d in walcl
  {
    var joined := OuterJoin(sofr, effr, iorb, walcl);
    assert joined.names[0] == "SOFR" && joined.names[2] == "IORB";
    assert COLUMNS[..4] + [SPREAD] == COLUMNS;
    AddSpread(joined)
  }

  /** Each cell of the joined frame: the base columns hold the downloads'
      values, NaN where a download lacks the date, and the spread is SOFR
      minus IORB, NaN where either is NaN. */
  lemma JoinAndSpreadCell(sofr: Column, effr: Column, iorb: Column, walcl: Column, d: string)
    requires d in JoinAndSpread(sofr, effr, iorb, walcl).index
    ensures var f := JoinAndSpread(sofr, effr, iorb, walcl);
            && f.cols["SOFR"][d] == Lookup(sofr, d)
            && f.cols["EFFR"][d] == Lookup(effr, d)
            && f.cols["IORB"][d] == Lookup(iorb, d)
            && f.cols["WALCL"][d] == Lookup(walcl, d)
            && f.cols[SPREAD][d] == Minus(Lookup(sofr, d), Lookup(iorb, d))
  {
  }

  /** `fetch_all_series`: `None` when any of the four downloads raises. */
  function FetchAllSeries(fred: Endpoint, parse: Parser): (f: Option<Frame>)
    ensures f.Some? <==>
              && GetFredSeries(fred("SOFR", "2018-01-01"), parse).Some?
              && GetFredSeries(fred("EFFR", "2015-01-01"), parse).Some?
              && GetFredSeries(fred("IORB", "2015-01-01"), parse).Some?
              && GetFredSeries(fred("WALCL", "2005-01-01"), parse).Some?
    ensures f.Some? ==> f.value == JoinAndSpread(
                                     GetFredSeries(fred("SOFR", "2018-01-01"), parse).value,
                                     GetFredSeries(fred("EFFR", "2015-01-01"), parse).value,
                                     GetFredSeries(fred("IORB", "2015-01-01"), parse).value,
                                     GetFredSeries(fred("WALCL", "2005-01-01"), parse).value)
  {
    var sofr := GetFredSeries(fred("SOFR", "2018-01-01"), parse);
    var effr := GetFredSeries(fred("EFFR", "2015-01-01"), parse);
    var iorb := GetFredSeries(fred("IORB", "2015-01-01"), parse);
    var walcl := GetFredSeries(fred("WALCL", "2005-01-01"), parse);
    if sofr.None? || effr.None? || iorb.None? || walcl.None? then None
    else Some(JoinAndSpread(sofr.value, effr.value, iorb.value, walcl.value))
  }

  // ---------------------------------------------------------------------------
  // main

  /** `s` is what the body of `main`'s loop writes for column `col`: the rows
      that are not NaN and not before the cutoff, in the ascending date order
      of the joined index (so each date once), `values[i]` from the row of
      `dates[i]`. */
  ghost predicate Emitted(s: Series, col: Column)
  {
    && |s.dates| == |s.values|
    && (forall i, j | 0 <= i < j < |s.dates| :: Before(s.dates[i], s.dates[j]))
    && (forall i | 0 <= i < |s.dates| ::
          s.dates[i] in col && col[s.dates[i]] == Some(s.values[i]) && AtOrAfter(s.dates[i], CUTOFF))
    && (forall d | d in col && col[d].Some? && AtOrAfter(d, CUTOFF) :: d in s.dates)
  }

  /** What `EmitColumn` has written once the dates outside `rest` are done:
      the written rows, ascending and all before the dates still to visit, are
      exactly the visited rows that are not NaN and not before the cutoff. */
  ghost predicate EmittedSoFar(col: Column, rest: set<string>, dates: seq<string>, values: seq<real>)
  {
    && rest <= col.Keys
    && |dates| == |values|
    && (forall i, j | 0 <= i < j < |dates| :: Before(dates[i], dates[j]))
    && (forall i, y | 0 <= i < |dates| && y in rest :: Before(dates[i], y))
    && (forall i | 0 <= i < |dates| ::
          dates[i] in col && dates[i] !in rest && col[dates[i]] == Some(values[i]) && AtOrAfter(dates[i], CUTOFF))
    && (forall d | d in col && d !in rest && col[d].Some? && AtOrAfter(d, CUTOFF) :: d in dates)
  }

  /** Visiting the earliest remaining date `d` and dropping it (NaN or
      before the cutoff) keeps `EmittedSoFar`. */
  lemma EmitSkip(col: Column, rest: set<string>, dates: seq<string>, values: seq<real>, d: string)
    requires EmittedSoFar(col, rest, dates, values) && d in rest
    requires col[d].None? || !AtOrAfter(d, CUTOFF)
    ensures EmittedSoFar(col, rest - {d}, dates, values)
  {
  }

  /** Visiting the earliest remaining date `d` and writing its row keeps
      `EmittedSoFar`. */
  lemma EmitAppend(col: Column, rest: set<string>, dates: seq<string>, values: seq<real>, d: string)
    requires EmittedSoFar(col, rest, dates, values) && d in rest
    requires forall y | y in rest && y != d :: Before(d, y)
    requires col[d].Some? && AtOrAfter(d, CUTOFF)
    ensures EmittedSoFar(col, rest - {d}, dates + [d], values + [col[d].value])
  {
    var dates', values' := dates + [d], values + [col[d].value];
    assert forall i | 0 <= i < |dates| :: dates'[i] == dates[i] && values'[i] == values[i];
    assert forall i | 0 <= i < |dates| :: Before(dates[i], d);
  }

  /** One column of the output: walk the index from the earliest date on,
      drop NaN and dates before the cutoff, and list the remaining rows as
      parallel `dates` and `values`. */
  method EmitColumn(col: Column) returns (s: Series)
    ensures Emitted(s, col)
  {
    var dates: seq<string> := [];
    var values: seq<real> := [];
    var rest := col.Keys;
    while rest != {}
      invariant EmittedSoFar(col, rest, dates, values)
      decreases rest
    {
      // `least` is never read: it is the witness that the `:|` below can be met.
      ghost var least := LeastExists(rest);
      var d :| d in rest && forall y | y in rest && y != d :: Before(d, y);
      if col[d].Some? && AtOrAfter(d, CUTOFF) {
        EmitAppend(col, rest, dates, values, d);
        dates := dates + [d];
        values := values + [col[d].value];
      } else {
        EmitSkip(col, rest, dates, values, d);
      }
      rest := rest - {d};
    }
    s := Series(dates, values);
  }

  /** The loop of `main`: one `series` entry per column of the frame. */
  method EmitAll(f: Frame) returns (series: map<string, Series>)
    requires forall k | 0 <= k < |f.names| :: f.names[k] in f.cols
    ensures forall n :: n in series <==> n in f.names
    ensures forall n | n in series :: n in f.cols && Emitted(series[n], f.cols[n])
  {
    series := map[];
    for k := 0 to |f.names|
      invariant forall n :: n in series <==> n in f.names[..k]
      invariant forall n | n in series :: n in f.cols && Emitted(series[n], f.cols[n])
    {
      var name := f.names[k];
      assert f.names[..k + 1] == f.names[..k] + [name];
      var s := EmitColumn(f.cols[name]);
      series := series[name := s];
    }
    assert f.names[..|f.names|] == f.names;
  }

  /** The whole script, less the timestamp and the file write: `None` when a
      download raises, otherwise the `series` object of the document. */
  method BuildPlumbingPayload(fred: Endpoint, parse: Parser) returns (out: Option<map<string, Series>>)
    ensures out.None? <==> FetchAllSeries(fred, parse).None?
    ensures out.Some? ==> forall n :: n in out.value <==> n in COLUMNS
    ensures out.Some? ==> forall n | n in out.value ::
                            n in FetchAllSeries(fred, parse).value.cols &&
                            Emitted(out.value[n], FetchAllSeries(fred, parse).value.cols[n])
  {
    var df := FetchAllSeries(fred, parse);
    if df.None? {
      return None;
    }
    var series := EmitAll(df.value);
    out := Some(series);
  }

  // ---------------------------------------------------------------------------
  // Properties of the written document

  /** An emitted column holds exactly the non-NaN rows from the cutoff on. */
  lemma EmittedDates(s: Series, col: Column, d: string)
    requires Emitted(s, col)
    ensures d in s.dates <==> d in col && col[d].Some? && AtOrAfter(d, CUTOFF)
  {
    if d in s.dates {
      var i :| 0 <= i < |s.dates| && s.dates[i] == d;
    }
  }

  /** The last value written for a column is its latest row: every other
      row that is written is dated before it. */
  lemma EmittedLastIsLatest(s: Series, col: Column)
    requires Emitted(s, col) && |s.dates| > 0
    ensures forall d | d in col && col[d].Some? && AtOrAfter(d, CUTOFF) && d != s.dates[|s.dates| - 1] ::
              Before(d, s.dates[|s.dates| - 1])
  {
    forall d | d in col && col[d].Some? && AtOrAfter(d, CUTOFF) && d != s.dates[|s.dates| - 1]
      ensures Before(d, s.dates[|s.dates| - 1])
    {
      var i :| 0 <= i < |s.dates| && s.dates[i] == d;
    }
  }

  /** The spread cell at `d` is a number exactly when both SOFR and IORB
      were observed at `d` with a number, and it is then their difference. */
  lemma SpreadCell(sofr: Column, effr: Column, iorb: Column, walcl: Column, d: string)
    ensures var col := JoinAndSpread(sofr, effr, iorb, walcl).cols[SPREAD];
            (d in col && col[d].Some?) <==> (Lookup(sofr, d).Some? && Lookup(iorb, d).Some?)
    ensures var col := JoinAndSpread(sofr, effr, iorb, walcl).cols[SPREAD];
            d in col ==> col[d] == Minus(Lookup(sofr, d), Lookup(iorb, d))
  {
    var f := JoinAndSpread(sofr, effr, iorb, walcl);
    assert COLUMNS[4] == SPREAD;
    if d in f.index {
      JoinAndSpreadCell(sofr, effr, iorb, walcl, d);
    }
  }

  /** A base column's cell at `d` is what the download holds at `d`. */
  lemma BaseCell(sofr: Column, effr: Column, iorb: Column, walcl: Column, k: nat, d: string)
    requires k < 4
    ensures var col, input := JoinAndSpread(sofr, effr, iorb, walcl).cols[COLUMNS[k]], [sofr, effr, iorb, walcl][k];
            (d in col && col[d].Some?) <==> (d in input && input[d].Some?)
    ensures var col, input := JoinAndSpread(sofr, effr, iorb, walcl).cols[COLUMNS[k]], [sofr, effr, iorb, walcl][k];
            d in input ==> d in col && col[d] == input[d]
  {
    var f := JoinAndSpread(sofr, effr, iorb, walcl);
    if d in f.index {
      JoinAndSpreadCell(sofr, effr, iorb, walcl, d);
    }
    if k == 0 {
      assert COLUMNS[k] == "SOFR" && f.cols["SOFR"].Keys == f.index;
    } else if k == 1 {
      assert COLUMNS[k] == "EFFR" && f.cols["EFFR"].Keys == f.index;
    } else if k == 2 {
      assert COLUMNS[k] == "IORB" && f.cols["IORB"].Keys == f.index;
    } else {
      assert COLUMNS[k] == "WALCL" && f.cols["WALCL"].Keys == f.index;
    }
  }



  /** The written spread has a date exactly when that date is not before the
      cutoff and both SOFR and IORB were observed on it, with a number, and
      its value there is SOFR minus IORB. */
  lemma {:induction false} SpreadEmission(sofr: Column, effr: Column, iorb: Column, walcl: Column, s: Series)
    requires Emitted(s, JoinAndSpread(sofr, effr, iorb, walcl).cols[SPREAD])
    ensures forall d :: d in s.dates <==> AtOrAfter(d, CUTOFF) && Lookup(sofr, d).Some? && Lookup(iorb, d).Some?
    ensures forall i | 0 <= i < |s.dates| ::
              Minus(Lookup(sofr, s.dates[i]), Lookup(iorb, s.dates[i])) == Some(s.values[i])
  {
    var col := JoinAndSpread(sofr, effr, iorb, walcl).cols[SPREAD];
    forall d ensures d in s.dates <==> AtOrAfter(d, CUTOFF) && Lookup(sofr, d).Some? && Lookup(iorb, d).Some? {
      EmittedDates(s, col, d);
      SpreadCell(sofr, effr, iorb, walcl, d);
    }
    forall i | 0 <= i < |s.dates|
      ensures Minus(Lookup(sofr, s.dates[i]), Lookup(iorb, s.dates[i])) == Some(s.values[i])
    {
      SpreadCell(sofr, effr, iorb, walcl, s.dates[i]);
    }
  }

  /** The join neither invents nor loses observations: each written base
      column holds the non-NaN values of the download from the cutoff on. */
  lemma {:induction false} BaseColumnEmission(sofr: Column, effr: Column, iorb: Column, walcl: Column,
                                              k: nat, s: Series)
    requires k < 4
    requires Emitted(s, JoinAndSpread(sofr, effr, iorb, walcl).cols[COLUMNS[k]])
    ensures var input := [sofr, effr, iorb, walcl][k];
            && (forall d :: d in s.dates <==> AtOrAfter(d, CUTOFF) && d in input && input[d].Some?)
            && (forall i | 0 <= i < |s.dates| :: s.dates[i] in input && input[s.dates[i]] == Some(s.values[i]))
  {
    var col := JoinAndSpread(sofr, effr, iorb, walcl).cols[COLUMNS[k]];
    var input := [sofr, effr, iorb, walcl][k];
    forall d ensures d in s.dates <==> AtOrAfter(d, CUTOFF) && d in input && input[d].Some? {
      EmittedDates(s, col, d);
      BaseCell(sofr, effr, iorb, walcl, k, d);
    }
    forall i | 0 <= i < |s.dates| ensures s.dates[i] in input && input[s.dates[i]] == Some(s.values[i]) {
      BaseCell(sofr, effr, iorb, walcl, k, s.dates[i]);
    }
  }
}
