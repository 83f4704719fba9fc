/** The `{"dates": [...], "values": [...]}` shape shared by the fetch scripts
    and the dashboard, and the order on ISO date strings. */
module TimeSeries {

  /** One published series: two parallel lists, `values[i]` observed on `dates[i]`. */
  datatype Series = Series(dates: seq<string>, values: seq<real>)

  /** The two lists are index-aligned. */
  predicate Aligned(s: Series)
  {
    |s.dates| == |s.values|
  }

  /** Strict lexicographic order on strings. On `YYYY-MM-DD` strings it is
      the chronological order. */
  predicate Before(a: string, b: string)
    decreases |a|
  {
    if |b| == 0 then false
    else if |a| == 0 then true
    else if a[0] != b[0] then a[0] < b[0]
    else Before(a[1..], b[1..])
  }

  /** No string is before itself. */
  lemma {:induction false} BeforeIrreflexive(a: string)
    ensures !Before(a, a)
    decreases |a|
  {
    if |a| > 0 {
      BeforeIrreflexive(a[1..]);
    }
  }

  /** `Before` is transitive. */
  lemma {:induction false} BeforeTransitive(a: string, b: string, c: string)
    requires Before(a, b) && Before(b, c)
    ensures Before(a, c)
    decreases |a|
  {
    if |a| > 0 && a[0] == b[0] && b[0] == c[0] {
      BeforeTransitive(a[1..], b[1..], c[1..]);
    }
  }

  /** Of two different strings, one is before the other. */
  lemma {:induction false} BeforeTotal(a: string, b: string)
    requires a != b
    ensures Before(a, b) || Before(b, a)
    decreases |a|
  {
    if |a| > 0 && |b| > 0 && a[0] == b[0] {
      assert a == [a[0]] + a[1..] && b == [b[0]] + b[1..];
      BeforeTotal(a[1..], b[1..]);
    }
  }

  /** `m` is the earliest string of `s`. */
  predicate IsLeast(m: string, s: set<string>)
  {
    m in s && forall y | y in s && y != m :: Before(m, y)
  }

  /** Every finite non-empty set of strings has an earliest element. */
  lemma {:induction false} LeastExists(s: set<string>) returns (m: string)
    requires s != {}
    ensures IsLeast(m, s)
    decreases |s|
  {
    var x :| x in s;
    if s - {x} == {} {
      assert s == {x};
      m := x;
    } else {
      var m' := LeastExists(s - {x});
      if Before(x, m') {
        forall y | y in s && y != x ensures Before(x, y) {
          if y != m' {
            BeforeTransitive(x, m', y);
          }
        }
        m := x;
      } else {
        BeforeTotal(x, m');
        m := m';
      }
    }
  }

  /** `d >= cutoff` on date strings. */
  predicate AtOrAfter(d: string, cutoff: string)
  {
    !Before(d, cutoff)
  }

  /** `AtOrAfter` is "equal to the cutoff or after it". */
  lemma AtOrAfterMeaning(d: string, cutoff: string)
    ensures AtOrAfter(d, cutoff) <==> d == cutoff || Before(cutoff, d)
  {
    BeforeIrreflexive(d);
    if d != cutoff {
      BeforeTotal(d, cutoff);
      if Before(d, cutoff) && Before(cutoff, d) {
        BeforeTransitive(d, cutoff, d);
      }
    }
  }
}
