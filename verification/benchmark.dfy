/** `AlgorithmBenchmark` of optimization/benchmark.py: run the requested
    optimizers on the same problem, skip the unknown names and the runs that
    raise, and rank the rest by fitness, by time and by fitness per second.
    Each optimizer run, with its measured time and the verdict of its
    `validate_solution`, is an argument. */
module Benchmark {
  import opened Wrappers
  import opened Seqs
  import opened Types

  /** `AlgorithmResult`; `num_vehicles` is the number of routes. */
  datatype AlgorithmResult = AlgorithmResult(
    name: string,
    result: OptimizationResult,
    time: real,
    fitness: real,
    distance: real,
    cost: real,
    vehicles: nat,
    violations: Violations,
    valid: bool)

  /** What one optimizer run produces: its result, its wall-clock time and
      the verdict of its `validate_solution`. */
  datatype Trial = Trial(result: OptimizationResult, time: real, valid: bool)

  /** The `summary` dict; an empty benchmark has none. */
  datatype Summary = Summary(
    total: nat,
    bestFitness: real,
    worstFitness: real,
    avgFitness: real,
    fastestTime: real,
    slowestTime: real,
    avgTime: real)

  /** `BenchmarkResult`. */
  datatype BenchmarkResult = BenchmarkResult(
    results: seq<AlgorithmResult>,
    best: Option<string>,
    fastest: Option<string>,
    efficient: Option<string>,
    summary: Option<Summary>)

  /** The keys of `self.algorithms`, in insertion order. */
  const Algorithms: seq<string> := ["genetic_algorithm", "greedy", "simulated_annealing"]

  /** The time below which `max(execution_time, 0.001)` stops shrinking. */
  const TimeFloor: real := 0.001

  // ------------------------------------------------------------- the runs

  /** The `AlgorithmResult` built from a run. */
  function Record(name: string, t: Trial): (a: AlgorithmResult)
    ensures a.name == name && a.result == t.result && a.time == t.time && a.valid == t.valid
    ensures a.fitness == t.result.solution.fitness && a.distance == t.result.solution.totalDistance
    ensures a.vehicles == |t.result.solution.routes|
  {
    AlgorithmResult(name, t.result, t.time, t.result.solution.fitness, t.result.solution.totalDistance,
                    t.result.solution.totalCost, |t.result.solution.routes|, t.result.solution.violations, t.valid)
  }

  /** Whether the loop of `run_benchmark` keeps the name: it is a known
      algorithm and its run did not raise. */
  predicate Kept(name: string, run: string -> Result<Trial>)
  {
    name in Algorithms && run(name).Success?
  }

  /** What one turn of the loop of `run_benchmark` appends. */
  function Entry(name: string, run: string -> Result<Trial>): (rs: seq<AlgorithmResult>)
    ensures |rs| <= 1
  {
    if Kept(name, run) then [Record(name, run(name).value)] else []
  }

  /** The loop of `run_benchmark`. */
  function Collect(names: seq<string>, run: string -> Result<Trial>): (rs: seq<AlgorithmResult>)
    ensures |rs| <= |names|
  {
    if |names| == 0 then [] else Entry(names[0], run) + Collect(names[1..], run)
  }

  /** The kept runs stay in the requested order: collecting a concatenation
      concatenates the collections. */
  lemma {:induction false} CollectConcat(a: seq<string>, b: seq<string>, run: string -> Result<Trial>)
    ensures Collect(a + b, run) == Collect(a, run) + Collect(b, run)
  {
    if |a| == 0 {
      assert a + b == b;
    } else {
      assert (a + b)[0] == a[0];
      assert (a + b)[1..] == a[1..] + b;
      CollectConcat(a[1..], b, run);
      var e := Entry(a[0], run);
      assert Collect(a + b, run) == e + Collect(a[1..] + b, run);
      assert e + (Collect(a[1..], run) + Collect(b, run)) == (e + Collect(a[1..], run)) + Collect(b, run);
    }
  }

  /** A result is collected exactly when it records a requested name that
      is kept. */
  lemma {:induction false} CollectMembers(names: seq<string>, run: string -> Result<Trial>, x: AlgorithmResult)
    ensures x in Collect(names, run) <==>
              exists i :: 0 <= i < |names| && Kept(names[i], run) && x == Record(names[i], run(names[i]).value)
  {
    if |names| > 0 {
      CollectMembers(names[1..], run, x);
      assert forall i :: 1 <= i < |names| ==> names[i] == names[1..][i - 1];
      if x in Collect(names[1..], run) {
        var i :| 0 <= i < |names[1..]| && Kept(names[1..][i], run)
                 && x == Record(names[1..][i], run(names[1..][i]).value);
        assert names[i + 1] == names[1..][i];
      }
    }
  }

  /** `run_benchmark`: all algorithms when none are named. */
  function RunBenchmark(algorithms: Option<seq<string>>, run: string -> Result<Trial>): (b: BenchmarkResult)
    ensures b.results == Collect(algorithms.GetOr(Algorithms), run)
  {
    Analyze(Collect(algorithms.GetOr(Algorithms), run))
  }

  /** Unknown names are skipped: every name outside the known algorithms
      contributes nothing. */
  lemma UnknownSkipped(name: string, run: string -> Result<Trial>)
    requires name !in Algorithms
    ensures Collect([name], run) == []
  {
  }

  // ------------------------------------------------------------- analysis

  function Fitnesses(rs: seq<AlgorithmResult>): (xs: seq<real>)
    ensures |xs| == |rs| && forall i :: 0 <= i < |rs| ==> xs[i] == rs[i].fitness
  {
    seq(|rs|, i requires 0 <= i < |rs| => rs[i].fitness)
  }

  function Times(rs: seq<AlgorithmResult>): (xs: seq<real>)
    ensures |xs| == |rs| && forall i :: 0 <= i < |rs| ==> xs[i] == rs[i].time
  {
    seq(|rs|, i requires 0 <= i < |rs| => rs[i].time)
  }

  /** `fitness_score / max(execution_time, 0.001)`. */
  function Efficiency(r: AlgorithmResult): real
  {
    r.fitness / (if r.time >= TimeFloor then r.time else TimeFloor)
  }

  function Efficiencies(rs: seq<AlgorithmResult>): (xs: seq<real>)
    ensures |xs| == |rs| && forall i :: 0 <= i < |rs| ==> xs[i] == Efficiency(rs[i])
  {
    seq(|rs|, i requires 0 <= i < |rs| => Efficiency(rs[i]))
  }

  /** `v` is the least of `xs` and occurs in it. */
  predicate IsMin(xs: seq<real>, v: real)
  {
    (exists i :: 0 <= i < |xs| && xs[i] == v) && forall i :: 0 <= i < |xs| ==> v <= xs[i]
  }

  /** `v` is the greatest of `xs` and occurs in it. */
  predicate IsMax(xs: seq<real>, v: real)
  {
    (exists i :: 0 <= i < |xs| && xs[i] == v) && forall i :: 0 <= i < |xs| ==> xs[i] <= v
  }

  /** `k` is the index `min(..., key=...)` picks: the least value, and no
      earlier index holds it. */
  predicate FirstLeast(xs: seq<real>, k: nat)
  {
    k < |xs| && (forall j :: 0 <= j < |xs| ==> xs[k] <= xs[j]) && (forall j :: 0 <= j < k ==> xs[k] < xs[j])
  }

  /** Only one index is the first least one. */
  lemma FirstLeastUnique(xs: seq<real>, k: nat, k': nat)
    requires FirstLeast(xs, k) && FirstLeast(xs, k')
    ensures k == k'
  {
    assert xs[k] <= xs[k'] && xs[k'] <= xs[k];
  }

  function Mean(xs: seq<real>): real
    requires |xs| > 0
  {
    Sum(xs) / |xs| as real
  }

  /** `_analyze_results`. */
  function Analyze(rs: seq<AlgorithmResult>): (b: BenchmarkResult)
    ensures b.results == rs
    ensures |rs| == 0 <==> b.summary.None?
    ensures |rs| == 0 ==> b.best.None? && b.fastest.None? && b.efficient.None?
    ensures |rs| > 0 ==> b.best.Some? && b.fastest.Some? && b.efficient.Some?
    ensures b.summary.Some? ==>
              && b.summary.value.total == |rs|
              && IsMin(Fitnesses(rs), b.summary.value.bestFitness)
              && IsMax(Fitnesses(rs), b.summary.value.worstFitness)
              && IsMin(Times(rs), b.summary.value.fastestTime)
              && IsMax(Times(rs), b.summary.value.slowestTime)
  {
    if |rs| == 0 then BenchmarkResult([], None, None, None, None)
    else
      var fs, ts, es := Fitnesses(rs), Times(rs), Efficiencies(rs);
      var lo, hi := ArgMinFirst(fs), ArgMaxFirst(fs);
      var quick, slow := ArgMinFirst(ts), ArgMaxFirst(ts);
      var summary := Summary(|rs|, fs[lo], fs[hi], Mean(fs), ts[quick], ts[slow], Mean(ts));
      BenchmarkResult(rs, Some(rs[lo].name), Some(rs[quick].name), Some(rs[ArgMinFirst(es)].name), Some(summary))
  }

  /** The three winners are the first results holding the least fitness,
      the least time and the least fitness per second. */
  lemma AnalyzeWinners(rs: seq<AlgorithmResult>, best: nat, fastest: nat, efficient: nat)
    requires FirstLeast(Fitnesses(rs), best)
    requires FirstLeast(Times(rs), fastest)
    requires FirstLeast(Efficiencies(rs), efficient)
    ensures Analyze(rs).best == Some(rs[best].name)
    ensures Analyze(rs).fastest == Some(rs[fastest].name)
    ensures Analyze(rs).efficient == Some(rs[efficient].name)
  {
    FirstLeastUnique(Fitnesses(rs), best, ArgMinFirst(Fitnesses(rs)));
    FirstLeastUnique(Times(rs), fastest, ArgMinFirst(Times(rs)));
    FirstLeastUnique(Efficiencies(rs), efficient, ArgMinFirst(Efficiencies(rs)));
  }

  /** The best algorithm's fitness is the summary's best fitness, and the
      fastest algorithm's time the summary's fastest time. */
  lemma WinnersMatchSummary(rs: seq<AlgorithmResult>, best: nat, fastest: nat)
    requires FirstLeast(Fitnesses(rs), best) && FirstLeast(Times(rs), fastest)
    ensures Analyze(rs).summary.Some?
    ensures Analyze(rs).summary.value.bestFitness == rs[best].fitness
    ensures Analyze(rs).summary.value.fastestTime == rs[fastest].time
  {
    FirstLeastUnique(Fitnesses(rs), best, ArgMinFirst(Fitnesses(rs)));
    FirstLeastUnique(Times(rs), fastest, ArgMinFirst(Times(rs)));
  }

  /** Every term between `lo` and `hi` puts the sum between `n * lo` and
      `n * hi`. */
  lemma {:induction false} SumBetween(xs: seq<real>, lo: real, hi: real)
    requires forall i :: 0 <= i < |xs| ==> lo <= xs[i] <= hi
    ensures lo * |xs| as real <= Sum(xs) <= hi * |xs| as real
  {
    if |xs| > 0 {
      SumBetween(xs[1..], lo, hi);
      assert Sum(xs) == xs[0] + Sum(xs[1..]);
      assert lo * |xs| as real == lo + lo * |xs[1..]| as real;
      assert hi * |xs| as real == hi + hi * |xs[1..]| as real;
    }
  }

  /** The average lies between the least and the greatest value. */
  lemma MeanBetween(xs: seq<real>, lo: real, hi: real)
    requires |xs| > 0 && IsMin(xs, lo) && IsMax(xs, hi)
    ensures lo <= Mean(xs) <= hi
  {
    SumBetween(xs, lo, hi);
    var n := |xs| as real;
    DivBounds(Sum(xs), lo, hi, n);
  }

  /** The summary's averages lie between its extremes. */
  lemma SummaryOrdered(rs: seq<AlgorithmResult>)
    requires |rs| > 0
    ensures Analyze(rs).summary.Some?
    ensures var s := Analyze(rs).summary.value;
            s.bestFitness <= s.avgFitness <= s.worstFitness && s.fastestTime <= s.avgTime <= s.slowestTime
  {
    var s := Analyze(rs).summary.value;
    MeanBetween(Fitnesses(rs), s.bestFitness, s.worstFitness);
    MeanBetween(Times(rs), s.fastestTime, s.slowestTime);
  }
}
