/** The bookkeeping of `run`: the result dictionary that starts with an
    empty `"steps"` list and one empty list per collected metric, and after
    every step gets, for each requested metric in order, the metric's
    current value appended. The attribute lookup by name is replaced by the
    enumerated `Metric`. */
module Metrics {
  import opened Base
  import opened Dynamics
  import Readout

  /** The attributes that `run` is asked to collect. */
  datatype Metric = Iter | Energy | PercentValid

  /** The keys of the result dictionary. */
  datatype Key = Steps | Collecting(metric: Metric)

  /** A collected value: the iteration counter or a float. */
  datatype Sample = Counter(count: nat) | Number(value: real)

  type Results = map<Key, seq<Sample>>

  /** The value of a metric in the given state. */
  function Measure(num: Numerics, m: Metric, s: Net): (v: Sample)
    requires WellShaped(s) && |s.Y| > 0
    ensures m == PercentValid ==> v.Number? && 0.0 <= v.value <= 1.0
  {
    match m
    case Iter => Counter(s.iter)
    case Energy => Number(num.energy(s.Y))
    case PercentValid => Number(Readout.PercentValid(s.Y))
  }

  /** The number of times `m` occurs in the requested metrics. */
  function Occurrences(collecting: seq<Metric>, m: Metric): (c: nat)
    ensures c <= |collecting|
    ensures c == 0 <==> m !in collecting
  {
    var isM := (x: Metric) => x == m;
    CountNone(collecting, isM);
    Count(collecting, isM)
  }

  /** `results = {"steps": []}`, then `results[attr] = []` for each requested attribute. */
  function Start(collecting: seq<Metric>): (results: Results)
    ensures Steps in results
    ensures forall key :: key in results ==> results[key] == []
    decreases |collecting|
  {
    if collecting == [] then map[Steps := []]
    else Start(collecting[..|collecting| - 1])[Collecting(collecting[|collecting| - 1]) := []]
  }

  ghost predicate HasKeys(results: Results, collecting: seq<Metric>) {
    forall q :: 0 <= q < |collecting| ==> Collecting(collecting[q]) in results
  }

  /** One pass of `for attr in collecting: results[attr].append(...)`. */
  function Record(num: Numerics, results: Results, collecting: seq<Metric>, s: Net): (r: Results)
    requires WellShaped(s) && |s.Y| > 0 && HasKeys(results, collecting)
    ensures r.Keys == results.Keys
  {
    if collecting == [] then results
    else
      var key := Collecting(collecting[0]);
      Record(num, results[key := results[key] + [Measure(num, collecting[0], s)]], collecting[1..], s)
  }

  /** The result dictionary after `t` steps from `s`. */
  function Collected(num: Numerics, beta: real, pairs: seq<Pair>, s: Net,
                     collecting: seq<Metric>, t: nat): (r: Results)
    requires WellShaped(s) && |s.Y| > 0 && InRange(pairs, |s.X|)
    ensures HasKeys(r, collecting)
  {
    if t == 0 then
      StartShape(collecting);
      Start(collecting)
    else
      var before := Collected(num, beta, pairs, s, collecting, t - 1);
      var now := Evolve(num, beta, pairs, s, t);
      RecordKeeps(num, before, collecting, now, collecting);
      Record(num, before, collecting, now)
  }

  function Repeat(x: Sample, c: nat): (r: seq<Sample>)
    ensures |r| == c && forall j :: 0 <= j < c ==> r[j] == x
  {
    if c == 0 then [] else [x] + Repeat(x, c - 1)
  }

  // ---------------------------------------------------------------------
  // Properties of the collected results

  /** The dictionary holds `"steps"` and exactly the requested metrics, and
      the `"steps"` list is empty. */
  lemma {:induction false} StartShape(collecting: seq<Metric>)
    ensures Start(collecting).Keys == {Steps} + set q | 0 <= q < |collecting| :: Collecting(collecting[q])
    ensures Start(collecting)[Steps] == []
    ensures forall key :: key in Start(collecting) ==> Start(collecting)[key] == []
  {
    if collecting != [] {
      var init := collecting[..|collecting| - 1];
      StartShape(init);
      var last := |collecting| - 1;
      assert forall q :: 0 <= q < |init| ==> init[q] == collecting[q];
      assert (set q | 0 <= q < |collecting| :: Collecting(collecting[q])) ==
        (set q | 0 <= q < |init| :: Collecting(init[q])) + {Collecting(collecting[last])};
    }
  }

  /** Recording changes no key set and leaves keys it does not append to alone. */
  lemma {:induction false} RecordKeeps(num: Numerics, results: Results, collecting: seq<Metric>, s: Net,
                                       others: seq<Metric>)
    requires WellShaped(s) && |s.Y| > 0 && HasKeys(results, collecting)
    ensures Record(num, results, collecting, s).Keys == results.Keys
    ensures forall key :: key in results && (key.Steps? || Occurrences(collecting, key.metric) == 0) ==>
      Record(num, results, collecting, s)[key] == results[key]
    ensures HasKeys(results, others) ==> HasKeys(Record(num, results, collecting, s), others)
  {
    if collecting != [] {
      var key := Collecting(collecting[0]);
      var next := results[key := results[key] + [Measure(num, collecting[0], s)]];
      assert HasKeys(next, collecting[1..]);
      RecordKeeps(num, next, collecting[1..], s, others);
    }
  }

  /** Recording appends the metric's value once per occurrence of the metric
      among the requested ones. */
  lemma {:induction false} RecordAppends(num: Numerics, results: Results, collecting: seq<Metric>,
                                         s: Net, m: Metric)
    requires WellShaped(s) && |s.Y| > 0 && HasKeys(results, collecting)
    requires Collecting(m) in results
    ensures Record(num, results, collecting, s).Keys == results.Keys
    ensures Record(num, results, collecting, s)[Collecting(m)] ==
      results[Collecting(m)] + Repeat(Measure(num, m, s), Occurrences(collecting, m))
  {
    if collecting != [] {
      var key := Collecting(collecting[0]);
      var next := results[key := results[key] + [Measure(num, collecting[0], s)]];
      assert HasKeys(next, collecting[1..]);
      RecordAppends(num, next, collecting[1..], s, m);
      if collecting[0] == m {
        assert Repeat(Measure(num, m, s), Occurrences(collecting, m)) ==
          [Measure(num, m, s)] + Repeat(Measure(num, m, s), Occurrences(collecting[1..], m));
      }
    }
  }

  /** After `t` steps the dictionary holds `"steps"` and exactly the
      requested metrics, and `"steps"` is still empty. */
  lemma {:induction false} CollectedShape(num: Numerics, beta: real, pairs: seq<Pair>, s: Net,
                                          collecting: seq<Metric>, t: nat)
    requires WellShaped(s) && |s.Y| > 0 && InRange(pairs, |s.X|)
    ensures Collected(num, beta, pairs, s, collecting, t).Keys ==
      {Steps} + set q | 0 <= q < |collecting| :: Collecting(collecting[q])
    ensures Collected(num, beta, pairs, s, collecting, t)[Steps] == []
  {
    StartShape(collecting);
    if t > 0 {
      CollectedShape(num, beta, pairs, s, collecting, t - 1);
      var before := Collected(num, beta, pairs, s, collecting, t - 1);
      RecordKeeps(num, before, collecting, Evolve(num, beta, pairs, s, t), collecting);
    }
  }

  /** The list of a requested metric holds, for each step `u` performed,
      `c` consecutive copies of the metric's value after step `u + 1`, where
      `c` is the number of times the metric was requested: exactly one entry
      per step when it is requested once. */
  lemma {:induction false} CollectedSeries(num: Numerics, beta: real, pairs: seq<Pair>, s: Net,
                                           collecting: seq<Metric>, t: nat, m: Metric)
    requires WellShaped(s) && |s.Y| > 0 && InRange(pairs, |s.X|)
    requires m in collecting
    ensures Occurrences(collecting, m) > 0
    ensures Collecting(m) in Collected(num, beta, pairs, s, collecting, t)
    ensures |Collected(num, beta, pairs, s, collecting, t)[Collecting(m)]| == t * Occurrences(collecting, m)
    ensures forall j :: 0 <= j < |Collected(num, beta, pairs, s, collecting, t)[Collecting(m)]| ==>
      Collected(num, beta, pairs, s, collecting, t)[Collecting(m)][j] ==
        Measure(num, m, Evolve(num, beta, pairs, s, StepOf(j, Occurrences(collecting, m)) + 1))
  {
    var c := Occurrences(collecting, m);
    if t > 0 {
      CollectedSeries(num, beta, pairs, s, collecting, t - 1, m);
      var before := Collected(num, beta, pairs, s, collecting, t - 1);
      var now := Evolve(num, beta, pairs, s, t);
      RecordAppends(num, before, collecting, now, m);
      BlockAppend(num, beta, pairs, s, m, before[Collecting(m)], c, t);
    } else {
      StartShape(collecting);
    }
  }

  /** A series holding `c` entries per step, entry `j` being the metric's
      value after step `j / c + 1`, stays so when a block of `c` copies of
      the value after step `t` is appended. */
  lemma BlockAppend(num: Numerics, beta: real, pairs: seq<Pair>, s: Net, m: Metric,
                    old_series: seq<Sample>, c: nat, t: nat)
    requires WellShaped(s) && |s.Y| > 0 && InRange(pairs, |s.X|)
    requires c > 0 && t > 0 && |old_series| == (t - 1) * c
    requires forall j :: 0 <= j < |old_series| ==>
      old_series[j] == Measure(num, m, Evolve(num, beta, pairs, s, StepOf(j, c) + 1))
    ensures var series := old_series + Repeat(Measure(num, m, Evolve(num, beta, pairs, s, t)), c);
      |series| == t * c &&
      forall j :: 0 <= j < |series| ==>
        series[j] == Measure(num, m, Evolve(num, beta, pairs, s, StepOf(j, c) + 1))
  {
    var v := Measure(num, m, Evolve(num, beta, pairs, s, t));
    var series := old_series + Repeat(v, c);
    forall j | 0 <= j < |series|
      ensures series[j] == Measure(num, m, Evolve(num, beta, pairs, s, StepOf(j, c) + 1))
    {
      if j >= |old_series| {
        AppendSlot(old_series, v, c, t, j);
      } else {
        assert series[j] == old_series[j];
      }
    }
    assert (t - 1) * c + c == t * c;
  }

  /** The step whose values occupy position `j` of a series that holds `c`
      entries per step. */
  function StepOf(j: nat, c: nat): (step: nat)
    requires c > 0
  {
    j / c
  }

  lemma AppendSlot(old_series: seq<Sample>, v: Sample, c: nat, t: nat, j: nat)
    requires c > 0 && t > 0 && |old_series| == (t - 1) * c
    requires |old_series| <= j < |old_series| + c
    ensures (old_series + Repeat(v, c))[j] == v
    ensures StepOf(j, c) == t - 1
  {
    DivBetween(j, c, t - 1);
  }

  /** The collected iteration counters are the consecutive values of the
      counter after each step, when the counter is requested once. */
  lemma IterSeries(num: Numerics, beta: real, pairs: seq<Pair>, s: Net, collecting: seq<Metric>, t: nat)
    requires WellShaped(s) && |s.Y| > 0 && InRange(pairs, |s.X|)
    requires Occurrences(collecting, Iter) == 1
    ensures Collecting(Iter) in Collected(num, beta, pairs, s, collecting, t)
    ensures |Collected(num, beta, pairs, s, collecting, t)[Collecting(Iter)]| == t
    ensures forall u :: 0 <= u < t ==>
      Collected(num, beta, pairs, s, collecting, t)[Collecting(Iter)][u] == Counter(s.iter + u + 1)
  {
    CollectedSeries(num, beta, pairs, s, collecting, t, Iter);
    var series := Collected(num, beta, pairs, s, collecting, t)[Collecting(Iter)];
    forall u | 0 <= u < t ensures series[u] == Counter(s.iter + u + 1) {
      IterEntry(num, beta, pairs, s, series[u], u);
    }
  }

  lemma IterEntry(num: Numerics, beta: real, pairs: seq<Pair>, s: Net, x: Sample, u: nat)
    requires WellShaped(s) && |s.Y| > 0 && InRange(pairs, |s.X|)
    requires x == Measure(num, Iter, Evolve(num, beta, pairs, s, StepOf(u, 1) + 1))
    ensures x == Counter(s.iter + u + 1)
  {
    assert StepOf(u, 1) == u;
    EvolveCounters(num, beta, pairs, s, u + 1);
  }

  /** Every collected percent-valid value is a float in `[0, 1]`. */
  lemma PercentSeriesInRange(num: Numerics, beta: real, pairs: seq<Pair>, s: Net,
                             collecting: seq<Metric>, t: nat)
    requires WellShaped(s) && |s.Y| > 0 && InRange(pairs, |s.X|)
    requires PercentValid in collecting
    ensures Collecting(PercentValid) in Collected(num, beta, pairs, s, collecting, t)
    ensures forall j :: 0 <= j < |Collected(num, beta, pairs, s, collecting, t)[Collecting(PercentValid)]| ==>
      Collected(num, beta, pairs, s, collecting, t)[Collecting(PercentValid)][j].Number? &&
      0.0 <= Collected(num, beta, pairs, s, collecting, t)[Collecting(PercentValid)][j].value <= 1.0
  {
    CollectedSeries(num, beta, pairs, s, collecting, t, PercentValid);
  }
}
