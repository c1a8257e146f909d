# A verified model of the transiently chaotic TSP network

This project models the discrete core of `jamestunnell/chaotic_tsp`. That is
the class `TCNNTSP`, a transiently chaotic neural network (Chen and Aihara,
1995) that solves an `n`-city travelling salesman problem with `n * n`
neurons, one row per city and one column per tour position. It also models
the random-tour baseline script beside it. The model covers:

- construction from a distance matrix, with its error cases;
- the shuffled visiting order of the neurons;
- the in-place update of one neuron on the activation array `X` and the
  output array `Y`;
- `step` (one sweep in the stored order, then the decay of the
  self-feedback `z` and `iter += 1`);
- `run` (the loop with its optional cap and the per-step metric lists);
- the read-only queries over `Y`: valid rows and columns, percent valid,
  valid tour, tour extraction and tour length;
- the script's `tour_length` with its `ValueError`s, and its scan that keeps
  every length and the best tour so far.

The numeric content of the network is kept abstract as the fields of
`Dynamics.Numerics`. These are the output function `g` (with `tanh`), the
activation rule of a neuron update and the energy. So every property holds
whatever those functions compute.

Modules:

- `Base`: the Python exceptions, numpy's two-dimensional array, and the
  counting that `len(np.where(...)[0])` does.
- `Readout`: the pure queries over the output matrix.
- `Dynamics`: the pure specification of a neuron update, a sweep, a step and
  `t` steps.
- `Metrics`: the result dictionary of `run`.
- `TcnnTsp`: the class `TCNNTSP`. It keeps `X` and `Y` as `array2<real>` and
  updates them in place. It names the constants and `z` and `iter` as the
  source does.
- `RandomSolutions`: `test_random_solutions.py`.

Behaviour of the code that the model keeps as written:

- `tour` never raises `RuntimeError`. Its guard (tcnn_tsp.py:144-145) tests
  the bound method `self.valid_tour`, which is always truthy, not its
  result, so the `raise` is unreachable. So on a matrix
  that is not a valid tour it still reads off the first non-zero row of
  every column. It fails only with `IndexError`, from `np.where(...)[0][0]`
  on an all-zero column (`Readout.TourIgnoresValidity`, `Readout.TourMeaning`).
- A `maxiter` of `None` or `0` is falsy, so it sets no cap. A negative one
  allows no step (`TcnnTsp.RunWithoutCap`, `TcnnTsp.RunLengthBounds`).
- The `"steps"` list of the result dictionary is created and never filled
  (`Metrics.CollectedShape`). A metric requested twice gets two entries per
  step (`Metrics.CollectedSeries`).
- An empty distance matrix passes the square check, then fails in
  `distances.max()` with numpy's `ValueError`.
- Validity tests literal non-zero entries, as `np.where` does, and
  `valid_tour` is the exact test `percent_valid() == 1`.

## Model

| member | source | states |
|---|---|---|
| Base.CountOne | tcnn_tsp.py:124 | `len(np.where(s)[0]) == 1` holds iff exactly one element is non-zero (true), both directions |
| Base.CountNone | tcnn_tsp.py:131 | the count is zero iff no element qualifies |
| Base.CountAll | tcnn_tsp.py:131 | the count equals the length iff every element qualifies |
| Readout.Transpose | tcnn_tsp.py:127 | entry `(k, j)` of the transpose is entry `(j, k)` of `Y`, and it is square of the same size |
| Readout.ValidRows | tcnn_tsp.py:123-124 | one entry per row; entry `i` holds iff row `i` has exactly one non-zero entry (stated in `Readout.ValidRowsMeaning`) |
| Readout.ValidCols | tcnn_tsp.py:126-128 | one entry per column, read off the transpose; entry `k` holds iff column `k` has exactly one non-zero entry (stated in `Readout.ValidColsMeaning`) |
| Readout.NValidRows | tcnn_tsp.py:130-131 | the number of valid rows lies in `0..n` |
| Readout.NValidCols | tcnn_tsp.py:133-134 | the number of valid columns lies in `0..n` |
| Readout.ValidRowsMeaning | tcnn_tsp.py:123-124 | `valid_rows()[i]` holds iff row `i` has exactly one non-zero entry |
| Readout.ValidColsMeaning | tcnn_tsp.py:126-128 | `valid_cols()[k]` holds iff column `k` has exactly one non-zero entry |
| Readout.PercentValid | tcnn_tsp.py:136-138 | for `n > 0` the fraction lies in `[0, 1]` and equals 1 iff the valid counts total `2n` |
| Readout.ValidTour | tcnn_tsp.py:140-141 | a predicate with no contract of its own: the valid counts total `2n`; it agrees with `percent_valid() == 1` (`Readout.ValidTourIsFullPercent`) and holds iff every row and every column has exactly one non-zero entry (`Readout.ValidTourMeaning`) |
| Readout.ValidTourIsFullPercent | tcnn_tsp.py:140-141 | the count form of `valid_tour` holds iff `percent_valid() == 1` |
| Readout.ValidTourMeaning | tcnn_tsp.py:140-141 | `valid_tour` holds iff every row and every column has exactly one non-zero entry |
| Readout.FirstNonZero | tcnn_tsp.py:148 | `np.where(s)[0][0]` is the first non-zero index, and there is none iff the vector is zero |
| Readout.Tour | tcnn_tsp.py:143-148 | makes no validity test; it can fail only with `IndexError`, and on success holds one city below `n` per column; position `k` is the first non-zero row of column `k`, and `IndexError` comes exactly from an all-zero column (stated in `Readout.TourMeaning`) |
| Readout.TourMeaning | tcnn_tsp.py:143-148 | `tour` succeeds iff every column has a non-zero entry; otherwise it raises `IndexError`; position `k` holds the first row non-zero in column `k` |
| Readout.TourIgnoresValidity | tcnn_tsp.py:143-145 | on the all-ones 2x2 matrix, which is not a valid tour, `tour` returns `[0, 0]` and raises nothing |
| Readout.TourOfValidTour | tcnn_tsp.py:143-148 | on a valid tour, `tour` has length `n`, its cities are distinct, every city occurs, and `Y[tour[k], k]` is non-zero |
| Readout.CycleLengthCloses | tcnn_tsp.py:154-156 | the closed length is the open path over the tour plus the leg from the last city back to the first |
| Readout.TourLength | tcnn_tsp.py:150-156 | succeeds iff `tour` does, and otherwise fails with its `IndexError`; on a valid tour the length is the open path plus the closing leg (stated in `Readout.TourLengthOfValidTour`) |
| Readout.TourLengthOfValidTour | tcnn_tsp.py:150-156 | on a valid tour, `tour_length` is the path over the extracted tour plus the closing leg, over the raw distances |
| Readout.FourCityIdentityTour | tcnn_tsp.py:147-148 | the 4x4 identity output matrix reads off the tour `[0, 1, 2, 3]` |
| Readout.FourCityTour | tcnn_tsp.py:150-156 | the identity tour over a concrete 4-city matrix has length 6 |
| Dynamics.Update | tcnn_tsp.py:86-104 | a neuron update writes `X[i,k]` from the activation rule and then `Y[i,k] = g(X[i,k])`; every other cell, `z` and `iter` are unchanged |
| Dynamics.Sweep | tcnn_tsp.py:80-81 | the neuron updates in the order of the stored pairs keep the shape, `z` and `iter`; an unvisited neuron is untouched (`Dynamics.SweepUntouched`) and a sweep over every neuron leaves `Y == g(X)` (`Dynamics.SweepConsistent`) |
| Dynamics.Step | tcnn_tsp.py:77-84 | a sweep, then the decay of `z` and `iter + 1`, keeping the shape; the counters after `t` steps are stated in `Dynamics.EvolveCounters` and `Y == g(X)` after a step in `Dynamics.EvolveConsistent` |
| Dynamics.SweepUntouched | tcnn_tsp.py:80-81 | a neuron the sweep does not visit keeps its activation and its output |
| Dynamics.SweepConsistent | tcnn_tsp.py:80-81 | after a sweep over pairs that name every neuron, `Y == g(X)` everywhere, whatever the order |
| Dynamics.EvolveCounters | tcnn_tsp.py:83-84 | after `t` steps `iter` has grown by `t` and `z` is `z * (1 - beta)^t` |
| Dynamics.EvolveConsistent | tcnn_tsp.py:77-84 | after at least one step, every output is `g` of its activation |
| Metrics.Measure | tcnn_tsp.py:55-60 | the value `__retrieve` gives for a requested attribute: the counter exactly for `iter`, and for `percent_valid` a number in `[0, 1]` |
| Metrics.Occurrences | tcnn_tsp.py:65-66 | how often a metric is requested: at most the number of requests, and zero iff it is not requested |
| Metrics.Start | tcnn_tsp.py:63-66 | the starting dictionary holds `"steps"` and every list in it is empty; its keys are stated in `Metrics.StartShape` |
| Metrics.Record | tcnn_tsp.py:71-73 | one recording pass keeps the key set; what it appends is stated in `Metrics.RecordAppends` and `Metrics.RecordKeeps` |
| Metrics.StartShape | tcnn_tsp.py:63-66 | the starting dictionary holds `"steps"` and exactly the requested metrics, all with empty lists |
| Metrics.RecordKeeps | tcnn_tsp.py:71-73 | recording keeps the key set and leaves `"steps"` and unrequested keys unchanged |
| Metrics.RecordAppends | tcnn_tsp.py:71-73 | recording appends the metric's current value once per time it was requested |
| Metrics.CollectedShape | tcnn_tsp.py:62-75 | after any number of steps the keys are `"steps"` plus the requested metrics, and `"steps"` is empty |
| Metrics.CollectedSeries | tcnn_tsp.py:68-74 | a requested metric's list holds `c` entries per step performed (`c` = times requested), entry `j` being its value after step `j / c + 1` |
| Metrics.IterSeries | tcnn_tsp.py:71-73 | with `iter` requested once, the list is the consecutive counter values `iter0 + 1 .. iter0 + t` |
| Metrics.PercentSeriesInRange | tcnn_tsp.py:136-138 | every collected percent-valid value lies in `[0, 1]` |
| TcnnTsp.New | tcnn_tsp.py:14-40 | a non-square matrix raises `RuntimeError`; an empty one raises `ValueError`; otherwise a fresh valid network with `iter == 0`, `z == z0`, `X` the uniform sample and `Y` all zero |
| TcnnTsp.TCNNTSP.constructor | tcnn_tsp.py:19-40 | the fields are set from the arguments, `X` is the sample and `Y` zero, and the pairs are the row-major pairs permuted by `order` |
| TcnnTsp.ZerosNotValid | tcnn_tsp.py:35-36 | the fresh all-zero output matrix has no valid row or column, so percent valid is 0 and it is not a valid tour |
| TcnnTsp.RowMajorPairs | tcnn_tsp.py:43-46 | the nested loops yield `n * n` pairs, position `q` holding `(q / n, q % n)` |
| TcnnTsp.TCNNTSP.RandomPairs | tcnn_tsp.py:42-49 | the shuffled pairs name every neuron `(i, j)` with `i, j < n` exactly once |
| TcnnTsp.ShuffledOnce | tcnn_tsp.py:48 | any permutation of the row-major pairs names every neuron exactly once |
| TcnnTsp.TCNNTSP.UpdateOutput | tcnn_tsp.py:86-87 | `Y[i,k]` becomes `g(X[i,k])` and no other output changes |
| TcnnTsp.TCNNTSP.UpdateNeuron | tcnn_tsp.py:90-104 | the arrays move exactly as `Dynamics.Update` says: only neuron `(i, k)` changes |
| TcnnTsp.TCNNTSP.Step | tcnn_tsp.py:77-84 | the new state is the sweep over the stored pairs in order, then the decayed `z` and `iter + 1`; afterwards `Y == g(X)` |
| TcnnTsp.TCNNTSP.Run | tcnn_tsp.py:62-75 | the run takes `StepsTaken` steps; `iter` grows by that number; the arrays are the state after that many steps; the results are the dictionary collected over them |
| TcnnTsp.StartResults | tcnn_tsp.py:63-66 | builds the starting dictionary `Metrics.Start` |
| TcnnTsp.RecordMetrics | tcnn_tsp.py:71-73 | the append loop computes `Metrics.Record` |
| TcnnTsp.RunWithoutCap | tcnn_tsp.py:69 | with `maxiter` `None` or `0` the run stops only at a valid tour or at the step bound, and from a start that is not a valid tour it takes at least one step |
| TcnnTsp.Continues | tcnn_tsp.py:69 | a predicate with no contract of its own: `iters < maxiter if maxiter else True`, where `None` and `0` are falsy; what it means for the run is stated in `TcnnTsp.RunWithoutCap` and `TcnnTsp.RunLengthBounds` |
| TcnnTsp.StepsTaken | tcnn_tsp.py:68-74 | the number of passes of the loop of `run` counted from step `t`, never past the step bound; where it stops is stated in `TcnnTsp.StepsTakenStops` |
| TcnnTsp.StepsTakenFrom | tcnn_tsp.py:68-74 | the count from step `t` is at least `t` |
| TcnnTsp.StepsTakenContinued | tcnn_tsp.py:69 | every step taken started from a state that was not a valid tour and passed the `maxiter` test |
| TcnnTsp.StepsTakenStops | tcnn_tsp.py:69 | the run ends at a valid tour, at a failed `maxiter` test, or at the step bound |
| TcnnTsp.RunLengthBounds | tcnn_tsp.py:62-75 | a valid start takes no step; a negative cap takes none; a positive cap `m` takes at most `m` steps, and exactly `m` unless a valid tour is reached first |
| TcnnTsp.RunAdvances | tcnn_tsp.py:69-74 | one pass of the loop advances the state and the results by one step and does not change the number of steps still to come |
| RandomSolutions.TourLength | test_random_solutions.py:5-13 | a non-square matrix raises the "not square" `ValueError` first; a tour of the wrong length raises the length `ValueError` |
| RandomSolutions.AxisIndex | test_random_solutions.py:17 | numpy accepts an index iff it lies in `[-n, n)`, and it resolves the index to the position below `n` congruent to it modulo `n` |
| RandomSolutions.PartialSum | test_random_solutions.py:17 | the only error the leg sum raises is `IndexError` |
| RandomSolutions.TourLengthMeaning | test_random_solutions.py:5-18 | on a square matrix and a tour of the right length, it raises `IndexError` iff some index is out of bounds; otherwise the result is the sum of the `n` legs of the closed tour, the last leg returning to `tour[0]` |
| RandomSolutions.CityTourLength | test_random_solutions.py:15-18 | a tour of cities `0..n-1` never raises, and its length is the closed cycle length |
| RandomSolutions.TourLengthAgrees | test_random_solutions.py:15-18 | for the tour read off a valid output matrix, the script's length equals `TCNNTSP.tour_length` over the raw distances |
| RandomSolutions.RandomTrials | test_random_solutions.py:27-44 | the scan fails iff some trial raises, and then with the first trial's error; otherwise `lens` holds every length in order; the best pair is `None` iff there are no trials; else it is a trial with the minimum length, the earliest one on ties |
| RandomSolutions.ShuffledTrialsSucceed | test_random_solutions.py:30-33 | on a square matrix, shuffled tours of the cities never raise |

## Left out

- Numerics: the output function `0.5 * (1 + tanh(x / epsilon))`
  (tcnn_tsp.py:51-53), the arithmetic of the neuron update
  (tcnn_tsp.py:95-103) and `energy` (tcnn_tsp.py:106-121) are uninterpreted
  functions. They are not modelled because they are floating-point and
  transcendental arithmetic.
- `norm_distances = distances / distances.max()` (tcnn_tsp.py:20) feeds
  only the numeric update and the energy, so the model does not store it.
  Its one observable effect, the `ValueError` on an empty matrix, is modelled.
- Floating-point values are mathematical reals. Rounding is not modelled,
  so `percent_valid` is an exact fraction.
- Randomness: `np.random.uniform` and `np.random.shuffle` become
  parameters. These are the initial activations `init`, with entries in
  `[-1, 1)`, and the permutation `order` of the neuron pairs. The script's
  trial tours are a parameter of `RandomTrials`.
- `__retrieve` (tcnn_tsp.py:55-60) looks attributes up by name through
  `getattr`. The model uses the enumeration `Metrics.Metric` (`iter`,
  `energy`, `percent_valid`) instead. Any other attribute name is not
  modelled.
- The class keeps the raw distances as an immutable value. The source
  stores a reference to the caller's array (tcnn_tsp.py:19) and
  `tour_length` reads it when called (tcnn_tsp.py:151), so a caller that
  changes the array after construction changes the reported length. That
  aliasing is not modelled.
- A missing keyword constant raises `KeyError` (tcnn_tsp.py:25-32). The
  datatype `Constants` always holds all eight, so this error is not modelled.
- The `collecting` argument of `run` is a sequence. `None` and the empty
  list behave alike in the source, and both are the empty sequence here.
- TcnnTsp.TCNNTSP.Run: a run without a cap has no bound in the source. The
  model adds a step bound `fuel`, so it does not capture a run that never
  reaches a valid tour. `RunLengthBounds` states what happens when `fuel`
  is at least the cap.
- TcnnTsp.TCNNTSP.Run: the starting state `s0` and the step count `steps`
  are ghost parameters that only the proofs use. The source's `run` has
  neither.
- `print` of the best tour and the plots (test_random_solutions.py:39, 44,
  46-47) are output only.
- The script shuffles `range(n)` in place, as Python 2 allows. The model
  takes the shuffled list as given.
- Reading the TSPLIB file (`tsplib.py`) is file I/O and XML parsing.
  csa_tsp.py is a command-line driver with plotting, and tcnn_test.py is a
  driver script. These three files are not part of this model.
