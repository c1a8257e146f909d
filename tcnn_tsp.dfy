/** The class `TCNNTSP`: construction from a distance matrix, the visiting
    order of the neurons, the in-place neuron update on the activation and
    output arrays, `step` and `run`. The queries over the output matrix are
    the functions of module `Readout`, applied to `Rows(Y)`. */
module TcnnTsp {
  import opened Base
  import opened Dynamics
  import opened Metrics
  import Readout

  /** The constants passed by keyword to the constructor. */
  datatype Constants = Constants(W1: real, W2: real, alpha: real, beta: real,
                                 epsilon: real, k: real, z0: real, I0: real)

  /** The rows of a two-dimensional array. */
  function Rows(a: array2<real>): (M: seq<seq<real>>)
    reads a
    ensures |M| == a.Length0
    ensures forall i :: 0 <= i < a.Length0 ==> |M[i]| == a.Length1
  {
    seq(a.Length0, i requires 0 <= i < a.Length0 reads a =>
      seq(a.Length1, j requires 0 <= j < a.Length1 reads a => a[i, j]))
  }

  /** `np.zeros((n, n))` as rows. */
  function Zeros(n: nat): (M: seq<seq<real>>)
    ensures |M| == n && IsSquare(M)
  {
    seq(n, i => seq(n, j => 0.0))
  }

  /** A permutation of `0..L-1`, as `np.random.shuffle` applies one. */
  ghost predicate IsOrder(order: seq<nat>, L: nat) {
    |order| == L &&
    (forall p :: 0 <= p < L ==> order[p] < L) &&
    (forall p1, p2 :: 0 <= p1 < L && 0 <= p2 < L && order[p1] == order[p2] ==> p1 == p2) &&
    (forall q: nat :: q < L ==> q in order)
  }

  /** Every neuron of an `n`-by-`n` network appears exactly once. */
  ghost predicate EachNeuronOnce(pairs: seq<Pair>, n: nat) {
    |pairs| == n * n && InRange(pairs, n) && Covers(pairs, n) &&
    forall p1, p2 :: 0 <= p1 < |pairs| && 0 <= p2 < |pairs| && pairs[p1] == pairs[p2] ==> p1 == p2
  }

  /** `np.random.uniform(-1, 1, (n, n))`: every entry in `[-1, 1)`. */
  ghost predicate UniformSample(init: seq<seq<real>>, n: nat) {
    |init| == n && IsSquare(init) &&
    forall i, j :: 0 <= i < n && 0 <= j < n ==> -1.0 <= init[i][j] < 1.0
  }

  /** Pairs read off a permutation of the row-major indices name every
      neuron exactly once. */
  lemma ShuffledOnce(n: nat, order: seq<nat>, pairs: seq<Pair>)
    requires IsOrder(order, n * n) && |pairs| == n * n
    requires forall p :: 0 <= p < n * n ==> pairs[p] == (order[p] / n, order[p] % n)
    ensures EachNeuronOnce(pairs, n)
  {
    forall p | 0 <= p < n * n ensures pairs[p].0 < n && pairs[p].1 < n {
      BlockBelow(order[p], n);
    }
    forall p1, p2 | 0 <= p1 < n * n && 0 <= p2 < n * n && pairs[p1] == pairs[p2] ensures p1 == p2 {
      SplitInjective(order[p1], order[p2], n);
    }
    forall a: nat, b: nat | a < n && b < n ensures (a, b) in pairs {
      var q := SplitIndex(a, b, n);
      var p := PositionOf(order, n * n, q);
      assert pairs[p] == (a, b);
    }
  }

  /** Where a permutation holds a given index. */
  lemma PositionOf(order: seq<nat>, L: nat, q: nat) returns (p: nat)
    requires IsOrder(order, L) && q < L
    ensures p < L && order[p] == q
  {
    assert q in order;
    p :| 0 <= p < |order| && order[p] == q;
  }

  /** Distinct row-major indices have distinct rows or columns. */
  lemma SplitInjective(q1: nat, q2: nat, n: nat)
    requires n > 0 && q1 / n == q2 / n && q1 % n == q2 % n
    ensures q1 == q2
  {
    assert q1 == (q1 / n) * n + q1 % n && q2 == (q2 / n) * n + q2 % n;
  }

  /** The row-major index of `(a, b)` is below `n * n` and splits back into `(a, b)`. */
  lemma SplitIndex(a: nat, b: nat, n: nat) returns (q: nat)
    requires a < n && b < n
    ensures q < n * n && q / n == a && q % n == b
  {
    q := a * n + b;
    assert q < (a + 1) * n <= n * n by {
      MulMonotone(a + 1, n, n);
    }
    DivBetween(q, n, a);
  }

  /** The two nested loops of `__random_pairs`: every pair `(i, j)` with
      `i, j < n`, in row-major order. */
  method RowMajorPairs(n: nat) returns (built: seq<Pair>)
    ensures |built| == n * n
    ensures forall q :: 0 <= q < |built| ==> built[q] == (q / n, q % n)
  {
    built := [];
    for i := 0 to n
      invariant |built| == i * n
      invariant forall q :: 0 <= q < |built| ==> built[q] == (q / n, q % n)
    {
      for j := 0 to n
        invariant |built| == i * n + j
        invariant forall q :: 0 <= q < |built| ==> built[q] == (q / n, q % n)
      {
        RowMajorAppend(built, n, i, j);
        built := built + [(i, j)];
      }
      assert i * n + n == (i + 1) * n;
    }
  }

  /** Appending `(i, j)` at position `i * n + j` keeps the row-major layout. */
  lemma RowMajorAppend(built: seq<Pair>, n: nat, i: nat, j: nat)
    requires j < n && |built| == i * n + j
    requires forall q :: 0 <= q < |built| ==> built[q] == (q / n, q % n)
    ensures forall q :: 0 <= q < |built| + 1 ==> (built + [(i, j)])[q] == (q / n, q % n)
  {
    var q0 := i * n + j;
    DivBetween(q0, n, i);
    assert q0 == (q0 / n) * n + q0 % n;
    forall q | 0 <= q < |built| + 1 ensures (built + [(i, j)])[q] == (q / n, q % n) {
      if q < |built| {
        assert (built + [(i, j)])[q] == built[q];
      }
    }
  }

  /** `results = {"steps": []}` and an empty list per requested attribute. */
  method StartResults(collecting: seq<Metric>) returns (results: Results)
    ensures results == Start(collecting)
  {
    results := map[Steps := []];
    for q := 0 to |collecting|
      invariant results == Start(collecting[..q])
    {
      assert collecting[..q + 1][..q] == collecting[..q];
      results := results[Collecting(collecting[q]) := []];
    }
    assert collecting[..|collecting|] == collecting;
  }

  /** The fresh network holds no valid row or column, so it is not a valid tour. */
  lemma ZerosNotValid(n: nat)
    requires n > 0
    ensures Readout.NValidRows(Zeros(n)) == 0 && Readout.NValidCols(Zeros(n)) == 0
    ensures Readout.PercentValid(Zeros(n)) == 0.0 && !Readout.ValidTour(Zeros(n))
  {
    var Z := Zeros(n);
    var T := Readout.Transpose(Z);
    forall i | 0 <= i < n ensures Count(Z[i], Readout.NonZero) == 0 && Count(T[i], Readout.NonZero) == 0 {
      CountNone(Z[i], Readout.NonZero);
      CountNone(T[i], Readout.NonZero);
    }
    CountNone(Readout.ValidRows(Z), Readout.IsTrue);
    CountNone(Readout.ValidCols(Z), Readout.IsTrue);
  }

  class TCNNTSP {
    const n: nat
    const realDistances: seq<seq<real>>
    const constants: Constants
    const numerics: Numerics
    const pairs: seq<Pair>
    const X: array2<real>
    const Y: array2<real>
    var z: real
    var iter: nat

    ghost predicate Valid() {
      n > 0 && IsSquare(realDistances) && |realDistances| == n &&
      X.Length0 == n && X.Length1 == n && Y.Length0 == n && Y.Length1 == n && X != Y &&
      EachNeuronOnce(pairs, n)
    }

    /** The state that `step` and `run` change. */
    function Snapshot(): (s: Net)
      reads this, X, Y
      requires Valid()
      ensures WellShaped(s) && |s.X| == n && s.Y == Rows(Y) && s.z == z && s.iter == iter
    {
      Net(Rows(X), Rows(Y), z, iter)
    }

    /** `__init__` for a square, non-empty distance matrix; `init` is the
        sample drawn by `np.random.uniform` and `order` the permutation
        that `np.random.shuffle` applies to the neuron pairs. */
    constructor (distances: seq<seq<real>>, constants: Constants, numerics: Numerics,
                 init: seq<seq<real>>, order: seq<nat>)
      requires IsSquare(distances) && |distances| > 0
      requires UniformSample(init, |distances|)
      requires IsOrder(order, |distances| * |distances|)
      ensures Valid() && fresh(X) && fresh(Y)
      ensures n == |distances| && realDistances == distances
      ensures this.constants == constants && this.numerics == numerics
      ensures z == constants.z0 && iter == 0
      ensures Rows(X) == init && Rows(Y) == Zeros(n)
      ensures forall p :: 0 <= p < n * n ==> pairs[p] == (order[p] / n, order[p] % n)
    {
      var size := |distances|;
      n := size;
      realDistances := distances;
      this.constants := constants;
      this.numerics := numerics;
      z := constants.z0;
      X := new real[size, size]((i, j) requires 0 <= i < size && 0 <= j < size => init[i][j]);
      Y := new real[size, size]((i, j) => 0.0);
      var shuffled := TCNNTSP.RandomPairs(size, order);
      pairs := shuffled;
      iter := 0;
      new;
      assert Rows(X) == init by {
        forall i | 0 <= i < size ensures Rows(X)[i] == init[i] {
          assert forall j :: 0 <= j < size ==> Rows(X)[i][j] == init[i][j];
        }
      }
      assert Rows(Y) == Zeros(size) by {
        forall i | 0 <= i < size ensures Rows(Y)[i] == Zeros(size)[i] {
          assert forall j :: 0 <= j < size ==> Rows(Y)[i][j] == 0.0;
        }
      }
    }

    /** `__random_pairs`: all pairs `(i, j)` in row-major order, then
        shuffled: position `p` of the result holds the pair that stood at
        position `order[p]`. */
    static method RandomPairs(n: nat, order: seq<nat>) returns (pairs: seq<Pair>)
      requires IsOrder(order, n * n)
      ensures EachNeuronOnce(pairs, n)
      ensures forall p :: 0 <= p < n * n ==> pairs[p] == (order[p] / n, order[p] % n)
    {
      var built := RowMajorPairs(n);
      pairs := seq(n * n, p requires 0 <= p < n * n => built[order[p]]);
      ShuffledOnce(n, order, pairs);
    }

    /** `__update_output(i, k)`: `Y[i, k] = g(X[i, k])`; nothing else changes. */
    method UpdateOutput(i: nat, k: nat)
      requires Valid() && i < n && k < n
      modifies Y
      ensures Rows(Y) == old(Rows(Y))[i := old(Rows(Y))[i][k := numerics.g(X[i, k])]]
    {
      Y[i, k] := numerics.g(X[i, k]);
      ghost var want := old(Rows(Y))[i := old(Rows(Y))[i][k := numerics.g(X[i, k])]];
      forall a | 0 <= a < n ensures Rows(Y)[a] == want[a] {
        assert forall b :: 0 <= b < n ==> Rows(Y)[a][b] == want[a][b];
      }
    }

    /** `__update_neuron(i, k)`: the new activation of neuron `(i, k)`, then
        its output; every other neuron, `z` and `iter` are unchanged. */
    method UpdateNeuron(i: nat, k: nat)
      requires Valid() && i < n && k < n
      modifies X, Y
      ensures Snapshot() == Update(numerics, old(Snapshot()), i, k)
    {
      X[i, k] := numerics.activation(Rows(Y), X[i, k], z, i, k);
      ghost var want := old(Rows(X))[i := old(Rows(X))[i][k := X[i, k]]];
      forall a | 0 <= a < n ensures Rows(X)[a] == want[a] {
        assert forall b :: 0 <= b < n ==> Rows(X)[a][b] == want[a][b];
      }
      UpdateOutput(i, k);
    }

    /** `step`: one sweep over the stored pairs, in their order, then the
        decay of `z` and the increment of `iter`. */
    method Step()
      requires Valid()
      modifies this`z, this`iter, X, Y
      ensures Snapshot() == Dynamics.Step(numerics, constants.beta, pairs, old(Snapshot()))
      ensures Consistent(numerics, Snapshot())
    {
      ghost var s0 := Snapshot();
      for p := 0 to |pairs|
        invariant Snapshot() == Sweep(numerics, s0, pairs[..p])
      {
        SweepSnoc(numerics, s0, pairs, p);
        UpdateNeuron(pairs[p].0, pairs[p].1);
      }
      assert pairs[..|pairs|] == pairs;
      z := Decay(z, constants.beta);
      iter := iter + 1;
      SweepConsistent(numerics, s0, pairs);
    }

    /** `run(maxiter, collecting)`, with at most `fuel` steps when `maxiter`
        sets no cap. Steps are taken while the output matrix is not a valid
        tour and `iters < maxiter if maxiter else True` holds; after each
        step the requested metrics are appended. */
    method Run(maxiter: Option<int>, collecting: seq<Metric>, fuel: nat, ghost s0: Net)
      returns (results: Results, ghost steps: nat)
      requires Valid() && Snapshot() == s0
      modifies this`z, this`iter, X, Y
      ensures steps == StepsTaken(numerics, constants.beta, pairs, s0, maxiter, fuel, 0)
      ensures iter == s0.iter + steps
      ensures Snapshot() == Evolve(numerics, constants.beta, pairs, s0, steps)
      ensures results == Collected(numerics, constants.beta, pairs, s0, collecting, steps)
    {
      results := StartResults(collecting);
      var now := Snapshot();
      var iters: nat := 0;
      while !Readout.ValidTour(now.Y) && Continues(iters, maxiter) && iters < fuel
        invariant iters <= fuel && iter == s0.iter + iters
        invariant Snapshot() == now
        invariant now == Evolve(numerics, constants.beta, pairs, s0, iters)
        invariant results == Collected(numerics, constants.beta, pairs, s0, collecting, iters)
        invariant StepsTaken(numerics, constants.beta, pairs, s0, maxiter, fuel, iters) ==
                  StepsTaken(numerics, constants.beta, pairs, s0, maxiter, fuel, 0)
        decreases fuel - iters
      {
        ghost var prev := now;
        Step();
        now := Snapshot();
        var recorded := RecordMetrics(numerics, results, collecting, now);
        RunAdvances(numerics, constants.beta, pairs, s0, collecting, maxiter, fuel, iters, prev, now, results, recorded);
        results := recorded;
        iters := iters + 1;
      }
      steps := iters;
    }
  }

  /** `for attr in collecting: results[attr].append(self.__retrieve(attr))`,
      in state `s`. */
  method RecordMetrics(num: Numerics, results: Results, collecting: seq<Metric>, s: Net)
    returns (r: Results)
    requires WellShaped(s) && |s.Y| > 0 && HasKeys(results, collecting)
    ensures r == Record(num, results, collecting, s)
  {
    r := results;
    for q := 0 to |collecting|
      invariant HasKeys(r, collecting[q..])
      invariant Record(num, r, collecting[q..], s) == Record(num, results, collecting, s)
    {
      var key := Collecting(collecting[q]);
      assert collecting[q..][1..] == collecting[q + 1..];
      r := r[key := r[key] + [Measure(num, collecting[q], s)]];
    }
  }

  /** `iters < maxiter if maxiter else True`: a missing or zero `maxiter` is
      falsy and sets no cap. */
  predicate Continues(iters: nat, maxiter: Option<int>) {
    match maxiter
    case None => true
    case Some(m) => if m == 0 then true else iters < m
  }

  /** The number of steps `run` takes from `s`, counting from step `t`:
      the loop goes on while the output matrix is not a valid tour, the
      `maxiter` test passes and the step bound `fuel` is not reached. The
      run never goes past the step bound. */
  function StepsTaken(num: Numerics, beta: real, pairs: seq<Pair>, s: Net,
                      maxiter: Option<int>, fuel: nat, t: nat): (k: nat)
    requires WellShaped(s) && |s.X| > 0 && InRange(pairs, |s.X|) && t <= fuel
    ensures k <= fuel
    decreases fuel - t
  {
    if !Readout.ValidTour(Evolve(num, beta, pairs, s, t).Y) && Continues(t, maxiter) && t < fuel
    then StepsTaken(num, beta, pairs, s, maxiter, fuel, t + 1)
    else t
  }

  /** The count from step `t` is at least `t`: the loop never goes back. */
  lemma {:induction false} StepsTakenFrom(num: Numerics, beta: real, pairs: seq<Pair>, s: Net,
                                          maxiter: Option<int>, fuel: nat, t: nat)
    requires WellShaped(s) && |s.X| > 0 && InRange(pairs, |s.X|) && t <= fuel
    ensures t <= StepsTaken(num, beta, pairs, s, maxiter, fuel, t)
    decreases fuel - t
  {
    if !Readout.ValidTour(Evolve(num, beta, pairs, s, t).Y) && Continues(t, maxiter) && t < fuel {
      StepsTakenFrom(num, beta, pairs, s, maxiter, fuel, t + 1);
    }
  }

  /** Every step taken started from a state that was not a valid tour and
      passed the `maxiter` test. */
  lemma StepsTakenContinued(num: Numerics, beta: real, pairs: seq<Pair>, s: Net,
                            maxiter: Option<int>, fuel: nat, t: nat)
    requires WellShaped(s) && |s.X| > 0 && InRange(pairs, |s.X|) && t <= fuel
    ensures forall u :: t <= u < StepsTaken(num, beta, pairs, s, maxiter, fuel, t) ==>
      !Readout.ValidTour(Evolve(num, beta, pairs, s, u).Y) && Continues(u, maxiter)
  {
    forall u | t <= u < StepsTaken(num, beta, pairs, s, maxiter, fuel, t)
      ensures !Readout.ValidTour(Evolve(num, beta, pairs, s, u).Y) && Continues(u, maxiter)
    {
      StepTakenAt(num, beta, pairs, s, maxiter, fuel, t, u);
    }
  }

  lemma {:induction false} StepTakenAt(num: Numerics, beta: real, pairs: seq<Pair>, s: Net,
                                       maxiter: Option<int>, fuel: nat, t: nat, u: nat)
    requires WellShaped(s) && |s.X| > 0 && InRange(pairs, |s.X|) && t <= fuel
    requires t <= u < StepsTaken(num, beta, pairs, s, maxiter, fuel, t)
    ensures !Readout.ValidTour(Evolve(num, beta, pairs, s, u).Y) && Continues(u, maxiter)
    decreases fuel - t
  {
    var running := !Readout.ValidTour(Evolve(num, beta, pairs, s, t).Y) && Continues(t, maxiter) && t < fuel;
    assert running;
    if u > t {
      assert StepsTaken(num, beta, pairs, s, maxiter, fuel, t) ==
        StepsTaken(num, beta, pairs, s, maxiter, fuel, t + 1);
      StepTakenAt(num, beta, pairs, s, maxiter, fuel, t + 1, u);
    }
  }

  /** The run stops at a valid tour, at the `maxiter` test or at the step bound. */
  lemma {:induction false} StepsTakenStops(num: Numerics, beta: real, pairs: seq<Pair>, s: Net,
                                           maxiter: Option<int>, fuel: nat, t: nat)
    requires WellShaped(s) && |s.X| > 0 && InRange(pairs, |s.X|) && t <= fuel
    ensures var k := StepsTaken(num, beta, pairs, s, maxiter, fuel, t);
      k == fuel || Readout.ValidTour(Evolve(num, beta, pairs, s, k).Y) || !Continues(k, maxiter)
    decreases fuel - t
  {
    if !Readout.ValidTour(Evolve(num, beta, pairs, s, t).Y) && Continues(t, maxiter) && t < fuel {
      StepsTakenStops(num, beta, pairs, s, maxiter, fuel, t + 1);
    }
  }

  /** One pass of the loop of `run`: a step from the state after `iters`
      steps and the recording of the metrics give the state and the results
      after `iters + 1` steps, and the run had not stopped. */
  lemma RunAdvances(num: Numerics, beta: real, pairs: seq<Pair>, s0: Net, collecting: seq<Metric>,
                    maxiter: Option<int>, fuel: nat, iters: nat,
                    prev: Net, now: Net, results: Results, recorded: Results)
    requires WellShaped(s0) && |s0.X| > 0 && InRange(pairs, |s0.X|) && iters < fuel
    requires prev == Evolve(num, beta, pairs, s0, iters)
    requires !Readout.ValidTour(prev.Y) && Continues(iters, maxiter)
    requires now == Dynamics.Step(num, beta, pairs, prev)
    requires results == Collected(num, beta, pairs, s0, collecting, iters)
    requires recorded == Record(num, results, collecting, now)
    ensures now == Evolve(num, beta, pairs, s0, iters + 1)
    ensures recorded == Collected(num, beta, pairs, s0, collecting, iters + 1)
    ensures StepsTaken(num, beta, pairs, s0, maxiter, fuel, iters + 1) ==
            StepsTaken(num, beta, pairs, s0, maxiter, fuel, iters)
  {
  }

  /** A run that starts at a valid tour takes no step; a positive `maxiter`
      caps the number of steps, and the run reaches the cap unless it finds
      a valid tour first or the step bound is smaller; a negative `maxiter`
      allows no step. */
  lemma RunLengthBounds(num: Numerics, beta: real, pairs: seq<Pair>, s: Net,
                        maxiter: Option<int>, fuel: nat)
    requires WellShaped(s) && |s.X| > 0 && InRange(pairs, |s.X|)
    ensures Readout.ValidTour(s.Y) ==> StepsTaken(num, beta, pairs, s, maxiter, fuel, 0) == 0
    ensures maxiter.Some? && maxiter.value < 0 ==> StepsTaken(num, beta, pairs, s, maxiter, fuel, 0) == 0
    ensures maxiter.Some? && maxiter.value > 0 ==>
      StepsTaken(num, beta, pairs, s, maxiter, fuel, 0) <= maxiter.value
    ensures maxiter.Some? && 0 < maxiter.value <= fuel ==>
      var k := StepsTaken(num, beta, pairs, s, maxiter, fuel, 0);
      k == maxiter.value || Readout.ValidTour(Evolve(num, beta, pairs, s, k).Y)
  {
    StepsTakenContinued(num, beta, pairs, s, maxiter, fuel, 0);
    StepsTakenStops(num, beta, pairs, s, maxiter, fuel, 0);
    var k := StepsTaken(num, beta, pairs, s, maxiter, fuel, 0);
    if k > 0 {
      assert Continues(k - 1, maxiter) && !Readout.ValidTour(Evolve(num, beta, pairs, s, 0).Y);
    }
  }

  /** Without a cap (`maxiter` of `None` or `0`), the run goes on until the
      output matrix is a valid tour or the step bound is reached, and from a
      start that is not a valid tour it takes at least one step: `0` does
      not mean zero sweeps. */
  lemma RunWithoutCap(num: Numerics, beta: real, pairs: seq<Pair>, s: Net,
                      maxiter: Option<int>, fuel: nat)
    requires WellShaped(s) && |s.X| > 0 && InRange(pairs, |s.X|)
    requires maxiter == None || maxiter == Some(0)
    ensures var k := StepsTaken(num, beta, pairs, s, maxiter, fuel, 0);
      k == fuel || Readout.ValidTour(Evolve(num, beta, pairs, s, k).Y)
    ensures !Readout.ValidTour(s.Y) && fuel > 0 ==> StepsTaken(num, beta, pairs, s, maxiter, fuel, 0) > 0
  {
    var k := StepsTaken(num, beta, pairs, s, maxiter, fuel, 0);
    StepsTakenStops(num, beta, pairs, s, maxiter, fuel, 0);
    assert Continues(k, maxiter) && Continues(0, maxiter);
  }

  /** `(m, n) = distances.shape`; the non-square check raises first;
      `distances.max()` then raises on the empty matrix. */
  method New(distances: Matrix, constants: Constants, numerics: Numerics,
             init: seq<seq<real>>, order: seq<nat>) returns (r: Result<TCNNTSP>)
    requires Shaped(distances)
    requires distances.m == distances.n ==>
      UniformSample(init, distances.n) && IsOrder(order, distances.n * distances.n)
    ensures distances.m != distances.n ==> r == Err(RuntimeError("Distance matrix is not square"))
    ensures distances.m == distances.n == 0 ==>
      r == Err(ValueError("zero-size array to reduction operation maximum which has no identity"))
    ensures distances.m == distances.n > 0 ==>
      (r.Ok? && fresh(r.value) && r.value.Valid() &&
       r.value.n == distances.n && r.value.realDistances == distances.rows &&
       r.value.constants == constants && r.value.numerics == numerics &&
       r.value.z == constants.z0 && r.value.iter == 0 &&
       Rows(r.value.X) == init && Rows(r.value.Y) == Zeros(distances.n))
  {
    if distances.m != distances.n {
      return Err(RuntimeError("Distance matrix is not square"));
    }
    if distances.n == 0 {
      return Err(ValueError("zero-size array to reduction operation maximum which has no identity"));
    }
    var net := new TCNNTSP(distances.rows, constants, numerics, init, order);
    r := Ok(net);
  }
}
