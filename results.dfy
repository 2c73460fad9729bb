/** Post-processing of measurement results in the backend benchmark: for each
    backend and each marked state, the share of shots that landed on that
    state, averaged over the states.  Arithmetic is over exact reals; the only
    error is Python's division by zero, which the benchmark does not catch. */
module BenchmarkResults {

  datatype Error = ZeroDivisionError

  datatype Result<T> = Ok(value: T) | Err(error: Error)

  /** A measurement result distribution: observed bit-string to shot count. */
  type Counts = map<string, nat>

  // ---------------------------------------------------------------------
  // Shot totals
  // ---------------------------------------------------------------------

  /** `sum(counts.values())`. */
  ghost function Total(counts: Counts): nat
    decreases |counts|
  {
    if counts == map[] then 0
    else
      var k :| k in counts;
      counts[k] + Total(counts - {k})
  }

  /** The total does not depend on which key is taken out first, so any
      iteration order over the map gives the same sum. */
  lemma {:induction false} TotalRemove(counts: Counts, k: string)
    requires k in counts
    ensures Total(counts) == counts[k] + Total(counts - {k})
    decreases |counts|
  {
    var j :| j in counts && Total(counts) == counts[j] + Total(counts - {j});
    if j != k {
      var rest := counts - {j} - {k};
      assert counts - {j} - {k} == counts - {k} - {j};
      TotalRemove(counts - {j}, k);
      TotalRemove(counts - {k}, j);
    }
  }

  /** One entry never exceeds the total. */
  lemma ValueAtMostTotal(counts: Counts, k: string)
    requires k in counts
    ensures counts[k] <= Total(counts)
  {
    TotalRemove(counts, k);
  }

  /** Adds up the shot counts by walking the keys in some order. */
  method SumCounts(counts: Counts) returns (total: nat)
    ensures total == Total(counts)
  {
    total := 0;
    var rest := counts;
    while rest != map[]
      invariant total + Total(rest) == Total(counts)
      decreases |rest|
    {
      var k :| k in rest;
      TotalRemove(rest, k);
      total := total + rest[k];
      rest := rest - {k};
    }
  }

  // ---------------------------------------------------------------------
  // Per-state proportion and per-backend average
  // ---------------------------------------------------------------------

  /** `counts.get(state, 0)`: never more than the shots taken. */
  function Get(counts: Counts, state: string): (c: nat)
    ensures c <= Total(counts)
    ensures state !in counts ==> c == 0
  {
    if state in counts then ValueAtMostTotal(counts, state); counts[state] else 0
  }

  /** A part of a positive whole is a fraction in [0, 1]. */
  lemma RatioInUnit(part: nat, whole: nat)
    requires part <= whole && whole > 0
    ensures 0.0 <= part as real / whole as real <= 1.0
  {
    var q := part as real / whole as real;
    assert q * whole as real == part as real;
  }

  /** `correct_counts / total_counts`: fails on an empty result. */
  ghost function Proportion(counts: Counts, state: string): (r: Result<real>)
    ensures r.Ok? <==> Total(counts) > 0
    ensures r.Ok? ==> 0.0 <= r.value <= 1.0
    ensures r.Ok? && state !in counts ==> r.value == 0.0
    ensures r.Ok? && Get(counts, state) == Total(counts) ==> r.value == 1.0
  {
    var total := Total(counts);
    if total == 0 then Err(ZeroDivisionError)
    else
      var hit := Get(counts, state);
      var q := hit as real / total as real;
      RatioInUnit(hit, total);
      assert hit == total ==> q == 1.0;
      Ok(q)
  }

  /** `sum(xs)`. */
  function Sum(xs: seq<real>): real
  {
    if xs == [] then 0.0 else Sum(xs[..|xs| - 1]) + xs[|xs| - 1]
  }

  predicate AllInUnit(xs: seq<real>)
  {
    forall i :: 0 <= i < |xs| ==> 0.0 <= xs[i] <= 1.0
  }

  /** A sum of values in [0, 1] lies between 0 and the number of values. */
  lemma {:induction false} SumBounds(xs: seq<real>)
    requires AllInUnit(xs)
    ensures 0.0 <= Sum(xs) <= |xs| as real
  {
    if xs != [] {
      SumBounds(xs[..|xs| - 1]);
    }
  }

  /** `sum(xs) / len(xs)`: fails on an empty list. */
  function Average(xs: seq<real>): (r: Result<real>)
    ensures r.Ok? <==> |xs| > 0
    ensures r.Ok? && AllInUnit(xs) ==> 0.0 <= r.value <= 1.0
  {
    if |xs| == 0 then Err(ZeroDivisionError)
    else
      assert AllInUnit(xs) ==> 0.0 <= Sum(xs) <= |xs| as real by {
        if AllInUnit(xs) { SumBounds(xs); }
      }
      Ok(Sum(xs) / |xs| as real)
  }

  // ---------------------------------------------------------------------
  // The benchmark loop
  // ---------------------------------------------------------------------

  /** The proportions for one backend over the states, in order; the first
      state with an empty result aborts. `run(name, state)` stands for
      executing the single-target search circuit on that backend. */
  ghost function Proportions(run: (string, string) -> Counts, name: string, states: seq<string>): (r: Result<seq<real>>)
    ensures r.Ok? ==> |r.value| == |states| && AllInUnit(r.value)
  {
    if states == [] then Ok([])
    else
      var prev := Proportions(run, name, states[..|states| - 1]);
      var last := states[|states| - 1];
      var p := Proportion(run(name, last), last);
      if prev.Err? then prev
      else if p.Err? then Err(p.error)
      else Ok(prev.value + [p.value])
  }

  /** The average proportion recorded for one backend. */
  ghost function BackendAverage(run: (string, string) -> Counts, name: string, states: seq<string>): (r: Result<real>)
    ensures r.Ok? ==> 0.0 <= r.value <= 1.0
  {
    var ps := Proportions(run, name, states);
    if ps.Err? then Err(ps.error) else Average(ps.value)
  }

  /** The results dictionary after processing the backends in order. */
  ghost function Benchmark(run: (string, string) -> Counts, names: seq<string>, states: seq<string>): (r: Result<map<string, real>>)
    ensures r.Ok? ==> forall n :: n in r.value ==> n in names && 0.0 <= r.value[n] <= 1.0
  {
    if names == [] then Ok(map[])
    else
      var prev := Benchmark(run, names[..|names| - 1], states);
      var last := names[|names| - 1];
      var avg := BackendAverage(run, last, states);
      if prev.Err? then prev
      else if avg.Err? then Err(avg.error)
      else Ok(prev.value[last := avg.value])
  }

  /** A backend's proportions fail exactly when some state's result is empty. */
  lemma {:induction false} ProportionsOk(run: (string, string) -> Counts, name: string, states: seq<string>)
    ensures Proportions(run, name, states).Ok?
        <==> forall i :: 0 <= i < |states| ==> Total(run(name, states[i])) > 0
  {
    if states != [] {
      var init := states[..|states| - 1];
      ProportionsOk(run, name, init);
      assert forall i :: 0 <= i < |init| ==> init[i] == states[i];
    }
  }

  /** On success, entry i is the proportion for state i: the states are
      processed in list order. */
  lemma {:induction false} ProportionsAt(run: (string, string) -> Counts, name: string, states: seq<string>, i: nat)
    requires Proportions(run, name, states).Ok? && i < |states|
    ensures Proportion(run(name, states[i]), states[i]).Ok?
    ensures Proportions(run, name, states).value[i] == Proportion(run(name, states[i]), states[i]).value
  {
    var init := states[..|states| - 1];
    if i < |states| - 1 {
      ProportionsAt(run, name, init, i);
      assert init[i] == states[i];
    }
  }

  /** A backend's average lies in [0, 1]; it exists iff there is at least one
      state and no state's result is empty. */
  lemma BackendAverageBounds(run: (string, string) -> Counts, name: string, states: seq<string>)
    ensures BackendAverage(run, name, states).Ok?
        <==> |states| > 0 && forall i :: 0 <= i < |states| ==> Total(run(name, states[i])) > 0
    ensures BackendAverage(run, name, states).Ok? ==> 0.0 <= BackendAverage(run, name, states).value <= 1.0
  {
    ProportionsOk(run, name, states);
  }

  ghost predicate NonEmptyResults(run: (string, string) -> Counts, names: seq<string>, states: seq<string>)
  {
    forall n, i :: n in names && 0 <= i < |states| ==> Total(run(n, states[i])) > 0
  }

  /** The results map has exactly one entry per backend name, holding that
      backend's average, which lies in [0, 1]; the run succeeds iff there are
      no backends, or there are states and no result is empty. */
  lemma {:induction false} BenchmarkShape(run: (string, string) -> Counts, names: seq<string>, states: seq<string>)
    ensures Benchmark(run, names, states).Ok?
        <==> names == [] || (|states| > 0 && NonEmptyResults(run, names, states))
    ensures Benchmark(run, names, states).Ok? ==>
              var results := Benchmark(run, names, states).value;
              && (forall n :: n in results <==> n in names)
              && (forall n :: n in results ==> Ok(results[n]) == BackendAverage(run, n, states))
              && (forall n :: n in results ==> 0.0 <= results[n] <= 1.0)
  {
    if names != [] {
      var init := names[..|names| - 1];
      var last := names[|names| - 1];
      BenchmarkShape(run, init, states);
      BackendAverageBounds(run, last, states);
      assert forall n :: n in names <==> n in init || n == last;
    }
  }

  /** Once a prefix of the states fails, the backend's proportions fail. */
  lemma {:induction false} ProportionsErrPersists(run: (string, string) -> Counts, name: string, states: seq<string>, j: nat)
    requires j <= |states|
    requires Proportions(run, name, states[..j]).Err?
    ensures Proportions(run, name, states).Err?
    decreases |states| - j
  {
    if j < |states| {
      assert states[..j + 1][..j] == states[..j];
      ProportionsErrPersists(run, name, states, j + 1);
    } else {
      assert states[..j] == states;
    }
  }

  /** Once a prefix of the backends fails, the whole benchmark fails. */
  lemma {:induction false} BenchmarkErrPersists(run: (string, string) -> Counts, names: seq<string>, states: seq<string>, i: nat)
    requires i <= |names|
    requires Benchmark(run, names[..i], states).Err?
    ensures Benchmark(run, names, states).Err?
    decreases |names| - i
  {
    if i < |names| {
      assert names[..i + 1][..i] == names[..i];
      BenchmarkErrPersists(run, names, states, i + 1);
    } else {
      assert names[..i] == names;
    }
  }

  /** `test_grover_on_all_backends()`: for every backend, the proportion of
      shots on each state, averaged over the states, stored under the
      backend's name.  A zero division aborts the whole run. */
  method TestGroverOnAllBackends(names: seq<string>, states: seq<string>, run: (string, string) -> Counts)
    returns (r: Result<map<string, real>>)
    ensures r == Benchmark(run, names, states)
  {
    var results: map<string, real> := map[];
    var i := 0;
    while i < |names|
      invariant 0 <= i <= |names|
      invariant Benchmark(run, names[..i], states) == Ok(results)
    {
      var name := names[i];
      var backendResults: seq<real> := [];
      var j := 0;
      while j < |states|
        invariant 0 <= j <= |states|
        invariant Proportions(run, name, states[..j]) == Ok(backendResults)
      {
        var state := states[j];
        var counts := run(name, state);
        var totalCounts := SumCounts(counts);
        var correctCounts := Get(counts, state);
        assert states[..j + 1][..j] == states[..j];
        if totalCounts == 0 {
          ProportionsErrPersists(run, name, states, j + 1);
          assert names[..i + 1][..i] == names[..i];
          BenchmarkErrPersists(run, names, states, i + 1);
          return Err(ZeroDivisionError);
        }
        backendResults := backendResults + [correctCounts as real / totalCounts as real];
        j := j + 1;
      }
      assert states[..j] == states;
      assert names[..i + 1][..i] == names[..i];
      if |backendResults| == 0 {
        BenchmarkErrPersists(run, names, states, i + 1);
        return Err(ZeroDivisionError);
      }
      var averageProportion := Sum(backendResults) / |backendResults| as real;
      results := results[name := averageProportion];
      i := i + 1;
    }
    assert names[..i] == names;
    r := Ok(results);
  }
}
