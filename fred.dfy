/** FRED's `series/observations` endpoint as the fetch scripts see it, and the
    observation-cleaning loop that `fetch_series` (scripts/scripts/fetch_repo.py)
    and `fetch_tga` (scripts/fetch_tga.py) both run, word for word. */
module Fred {

  import opened Wrappers
  import opened TimeSeries

  /** One element of the response's `observations` list. `value` is `None`
      when the field is absent or JSON `null`. */
  datatype Observation = Observation(date: string, value: Option<string>)

  /** The decoded JSON body; `observations` is `None` when the key is absent. */
  datatype Response = Response(observations: Option<seq<Observation>>)

  /** Number parsing (`float(v)`; `pd.to_numeric`), left abstract:
      `None` means the text does not parse. */
  type Parser = string -> Option<real>

  /** The HTTP endpoint, as a function of `(series_id, observation_start)`. */
  type Endpoint = (string, string) -> Response

  /** `data.get("observations", [])` */
  function ObservationsOf(resp: Response): (obs: seq<Observation>)
    ensures resp.observations.None? ==> obs == []
    ensures resp.observations.Some? ==> obs == resp.observations.value
  {
    match resp.observations
    case None => []
    case Some(obs) => obs
  }

  /** The number an observation contributes, or `None` when the loop skips it:
      its value is missing, is the placeholder ".", or does not parse. */
  function Keep(o: Observation, parse: Parser): (r: Option<real>)
    ensures r.Some? <==> o.value.Some? && o.value.value != "." && parse(o.value.value).Some?
    ensures r.Some? ==> r == parse(o.value.value)
  {
    match o.value
    case None => None
    case Some(v) => if v == "." then None else parse(v)
  }

  /** The series the cleaning loop builds from `obs`, defined observation by
      observation in the order the loop visits them. */
  function CleanSeries(obs: seq<Observation>, parse: Parser): (s: Series)
    ensures |s.dates| == |s.values| <= |obs|
    decreases |obs|
  {
    if |obs| == 0 then Series([], [])
    else
      var s := CleanSeries(obs[..|obs| - 1], parse);
      match Keep(obs[|obs| - 1], parse)
      case None => s
      case Some(x) => Series(s.dates + [obs[|obs| - 1].date], s.values + [x])
  }

  /** The positions of the observations that the loop keeps, in increasing order. */
  function KeptIndices(obs: seq<Observation>, parse: Parser): (idx: seq<nat>)
    ensures forall k | 0 <= k < |idx| :: idx[k] < |obs| && Keep(obs[idx[k]], parse).Some?
    ensures forall k, l | 0 <= k < l < |idx| :: idx[k] < idx[l]
    ensures forall j | 0 <= j < |obs| && Keep(obs[j], parse).Some? :: j in idx
    decreases |obs|
  {
    if |obs| == 0 then []
    else
      var idx := KeptIndices(obs[..|obs| - 1], parse);
      if Keep(obs[|obs| - 1], parse).Some? then idx + [|obs| - 1] else idx
  }

  /** One step of the filter: appending a kept observation's date and value
      to a filter of the earlier observations gives a filter of them all. */
  lemma FilterExtends(obs: seq<Observation>, parse: Parser, s: Series, idx: seq<nat>, x: real)
    requires |obs| > 0 && Keep(obs[|obs| - 1], parse) == Some(x)
    requires |idx| == |s.dates| == |s.values|
    requires forall k | 0 <= k < |idx| ::
               idx[k] < |obs| - 1 && s.dates[k] == obs[idx[k]].date && Keep(obs[idx[k]], parse) == Some(s.values[k])
    ensures var s', idx' := Series(s.dates + [obs[|obs| - 1].date], s.values + [x]), idx + [|obs| - 1];
            |idx'| == |s'.dates| == |s'.values| &&
            forall k | 0 <= k < |idx'| ::
              s'.dates[k] == obs[idx'[k]].date && Keep(obs[idx'[k]], parse) == Some(s'.values[k])
  {
  }

  /** The cleaned series is exactly the kept observations, in input order:
      `dates[k]` and `values[k]` come from the same observation, and
      `values[k]` is what that observation's value parses to. */
  lemma {:induction false} CleanSeriesIsFilter(obs: seq<Observation>, parse: Parser)
    ensures var s, idx := CleanSeries(obs, parse), KeptIndices(obs, parse);
            |idx| == |s.dates| == |s.values| &&
            forall k | 0 <= k < |idx| ::
              s.dates[k] == obs[idx[k]].date && Keep(obs[idx[k]], parse) == Some(s.values[k])
    decreases |obs|
  {
    if |obs| > 0 {
      var pre := obs[..|obs| - 1];
      CleanSeriesIsFilter(pre, parse);
      var s, idx := CleanSeries(pre, parse), KeptIndices(pre, parse);
      assert forall k | 0 <= k < |idx| :: idx[k] < |pre| && obs[idx[k]] == pre[idx[k]];
      match Keep(obs[|obs| - 1], parse)
      case None =>
        assert CleanSeries(obs, parse) == s && KeptIndices(obs, parse) == idx;
      case Some(x) =>
        FilterExtends(obs, parse, s, idx, x);
    }
  }

  /** An observation the loop skips contributes nothing: removing it from
      anywhere in the input leaves the output unchanged. */
  lemma {:induction false} SkippedContributesNothing(pre: seq<Observation>, o: Observation,
                                                     post: seq<Observation>, parse: Parser)
    requires Keep(o, parse).None?
    ensures CleanSeries(pre + [o] + post, parse) == CleanSeries(pre + post, parse)
    decreases |post|
  {
    if |post| == 0 {
      assert pre + [o] + post == pre + [o];
      assert (pre + [o])[..|pre|] == pre;
      assert pre + post == pre;
    } else {
      var post' := post[..|post| - 1];
      SkippedContributesNothing(pre, o, post', parse);
      assert (pre + [o] + post)[..|pre + [o] + post| - 1] == pre + [o] + post';
      assert (pre + post)[..|pre + post| - 1] == pre + post';
    }
  }

  /** An input in which no observation survives yields an empty series. */
  lemma {:induction false} NothingKeptMeansEmpty(obs: seq<Observation>, parse: Parser)
    requires forall j | 0 <= j < |obs| :: Keep(obs[j], parse).None?
    ensures CleanSeries(obs, parse) == Series([], [])
    decreases |obs|
  {
    if |obs| > 0 {
      NothingKeptMeansEmpty(obs[..|obs| - 1], parse);
    }
  }

  /** The loop of `fetch_series` / `fetch_tga`: walk the observations, skip
      the missing, placeholder and unparsable ones, and append the survivors
      to `dates` and `values`. The number is parsed before either list is
      appended to, so a failing parse leaves both untouched. */
  method CollectObservations(resp: Response, parse: Parser) returns (dates: seq<string>, values: seq<real>)
    ensures |dates| == |values|
    ensures Series(dates, values) == CleanSeries(ObservationsOf(resp), parse)
    ensures resp.observations.None? ==> dates == [] && values == []
  {
    var obs := ObservationsOf(resp);
    dates, values := [], [];
    for i := 0 to |obs|
      invariant Series(dates, values) == CleanSeries(obs[..i], parse)
    {
      assert obs[..i + 1][..i] == obs[..i];
      var v := obs[i].value;
      if v.None? || v.value == "." {
        continue;
      }
      var x := parse(v.value);
      if x.None? {
        continue;
      }
      values := values + [x.value];
      dates := dates + [obs[i].date];
    }
    assert obs[..|obs|] == obs;
  }
}
