/** The random-tour baseline script: the closed length of a tour given as a
    list of city indices over a numpy distance matrix, with its two explicit
    `ValueError`s and numpy's own `IndexError`, and the scan over a number
    of shuffled tours that keeps every length and the best tour so far. */
module RandomSolutions {
  import opened Base
  import Readout

  const NotSquare := "The distance matrix is not square"
  const LengthMismatch := "The tour length does not match the distance matrix size"

  /** numpy's position for index `a` along an axis of length `n`: negative
      indices count from the end; anything outside `[-n, n)` is out of
      bounds. */
  function AxisIndex(a: int, n: nat): (r: Option<nat>)
    ensures r.Some? <==> -(n as int) <= a < n
    ensures r.Some? ==> r.value < n && (a - r.value) % n == 0
  {
    if 0 <= a < n then Some(a)
    else if -(n as int) <= a < 0 then
      assert (a - (a + n)) % n == 0 by {
        assert a - (a + n) == -1 * n;
      }
      Some(a + n)
    else None
  }

  /** `ds[a, b]` on a two-dimensional array. */
  function Entry(ds: Matrix, a: int, b: int): (d: Option<real>)
    requires Shaped(ds)
  {
    match (AxisIndex(a, ds.m), AxisIndex(b, ds.n))
    case (Some(i), Some(k)) => Some(ds.rows[i][k])
    case _ => None
  }

  /** Every index of the tour is in bounds for an axis of length `n`. */
  predicate InBounds(tour: seq<int>, n: nat) {
    forall i :: 0 <= i < |tour| ==> -(n as int) <= tour[i] < n
  }

  /** The cities of an in-bounds tour, with negative indices resolved. */
  function Resolved(tour: seq<int>, n: nat): (t: seq<nat>)
    requires InBounds(tour, n)
    ensures |t| == |tour| && forall i :: 0 <= i < |t| ==> t[i] < n
  {
    seq(|tour|, i requires 0 <= i < |tour| => AxisIndex(tour[i], n).value)
  }

  /** The sum of the first `j` legs `ds[tour[i], tour[(i + 1) % n]]`; the
      first leg whose entry is out of bounds raises `IndexError`. */
  function PartialSum(ds: Matrix, tour: seq<int>, j: nat): (r: Result<real>)
    requires Shaped(ds) && ds.m == ds.n && |tour| == ds.n && j <= |tour|
    ensures r.Err? ==> r.error == IndexError
  {
    if j == 0 then Ok(0.0)
    else match PartialSum(ds, tour, j - 1)
      case Err(e) => Err(e)
      case Ok(acc) =>
        match Entry(ds, tour[j - 1], tour[j % |tour|])
        case None => Err(IndexError)
        case Some(d) => Ok(acc + d)
  }

  /** `tour_length(tour, distances)` of the script: the shape check first,
      then the length check, then the sum of the `n` legs of the closed tour. */
  function TourLength(tour: seq<int>, distances: Matrix): (r: Result<real>)
    requires Shaped(distances)
    ensures distances.m != distances.n ==> r == Err(ValueError(NotSquare))
    ensures distances.m == distances.n && |tour| != distances.n ==> r == Err(ValueError(LengthMismatch))
  {
    if distances.m != distances.n then Err(ValueError(NotSquare))
    else if |tour| != distances.n then Err(ValueError(LengthMismatch))
    else PartialSum(distances, tour, distances.n)
  }

  // ---------------------------------------------------------------------
  // Properties of the tour length

  /** With every index in bounds, the partial sum is the sum of the first
      `j` legs of the resolved tour. */
  lemma {:induction false} PartialSumOk(ds: Matrix, tour: seq<int>, j: nat)
    requires Shaped(ds) && ds.m == ds.n && |tour| == ds.n && j <= |tour|
    requires InBounds(tour, ds.n)
    ensures IsSquare(ds.rows)
    ensures PartialSum(ds, tour, j) == Ok(Readout.SumLegs(ds.rows, Resolved(tour, ds.n), j))
  {
    if j > 0 {
      PartialSumOk(ds, tour, j - 1);
      var t := Resolved(tour, ds.n);
      assert Entry(ds, tour[j - 1], tour[j % |tour|]) == Some(Readout.Leg(ds.rows, t, j - 1));
    }
  }

  /** An out-of-bounds index among the first `j` cities makes the sum of
      the first `j` legs raise `IndexError`. */
  lemma {:induction false} PartialSumErr(ds: Matrix, tour: seq<int>, j: nat, i: nat)
    requires Shaped(ds) && ds.m == ds.n && |tour| == ds.n && j <= |tour|
    requires i < j && !(-(ds.n as int) <= tour[i] < ds.n)
    ensures PartialSum(ds, tour, j) == Err(IndexError)
  {
    if i < j - 1 {
      PartialSumErr(ds, tour, j - 1, i);
    } else {
      assert Entry(ds, tour[j - 1], tour[j % |tour|]) == None;
    }
  }

  /** On a square matrix and a tour of matching length, `tour_length`
      raises `IndexError` exactly when some city index is out of bounds, and
      otherwise returns the closed length of the resolved tour. */
  lemma TourLengthMeaning(tour: seq<int>, distances: Matrix)
    requires Shaped(distances) && distances.m == distances.n && |tour| == distances.n
    ensures TourLength(tour, distances).Err? <==> !InBounds(tour, distances.n)
    ensures !InBounds(tour, distances.n) ==> TourLength(tour, distances) == Err(IndexError)
    ensures InBounds(tour, distances.n) ==> (IsSquare(distances.rows) &&
      TourLength(tour, distances) == Ok(Readout.CycleLength(distances.rows, Resolved(tour, distances.n))))
  {
    var n := distances.n;
    if InBounds(tour, n) {
      PartialSumOk(distances, tour, n);
    } else {
      var i :| 0 <= i < |tour| && !(-(n as int) <= tour[i] < n);
      PartialSumErr(distances, tour, n, i);
    }
  }

  /** A tour made of city numbers `0..n-1` never raises, and its length is
      the closed length over the distances. */
  lemma CityTourLength(tour: seq<nat>, distances: Matrix)
    requires Shaped(distances) && distances.m == distances.n && |tour| == distances.n
    requires forall i :: 0 <= i < |tour| ==> tour[i] < distances.n
    ensures IsSquare(distances.rows)
    ensures TourLength(tour, distances) == Ok(Readout.CycleLength(distances.rows, tour))
  {
    TourLengthMeaning(tour, distances);
    assert Resolved(tour, distances.n) == tour;
  }

  /** For the tour read off a valid output matrix, the script's length over
      the raw distances agrees with the network's `tour_length`. */
  lemma TourLengthAgrees(Y: seq<seq<real>>, distances: Matrix)
    requires Shaped(distances) && distances.m == distances.n == |Y| > 0
    requires IsSquare(Y) && Readout.ValidTour(Y)
    ensures IsSquare(distances.rows) && Readout.Tour(Y).Ok?
    ensures TourLength(Readout.Tour(Y).value, distances) == Readout.TourLength(Y, distances.rows)
  {
    Readout.TourOfValidTour(Y);
    CityTourLength(Readout.Tour(Y).value, distances);
  }

  // ---------------------------------------------------------------------
  // The scan over random tours

  /** What the scan leaves behind: every length in trial order and the best
      `(tour, length)` pair, `None` when no trial ran. */
  datatype Trials = Trials(lens: seq<real>, best: Option<(seq<int>, real)>)

  /** The loop of the script over the given shuffled tours: each length is
      appended to `lens`, and the best pair is replaced only by a strictly
      shorter tour. An exception in `tour_length` ends the script. */
  method RandomTrials(distances: Matrix, tours: seq<seq<int>>) returns (r: Result<Trials>)
    requires Shaped(distances)
    ensures r.Err? <==> exists i :: 0 <= i < |tours| && TourLength(tours[i], distances).Err?
    ensures r.Err? ==> exists i :: (0 <= i < |tours| && TourLength(tours[i], distances) == Err(r.error) &&
      forall j :: 0 <= j < i ==> TourLength(tours[j], distances).Ok?)
    ensures r.Ok? ==> (|r.value.lens| == |tours| &&
      forall i :: 0 <= i < |tours| ==> TourLength(tours[i], distances) == Ok(r.value.lens[i]))
    ensures r.Ok? ==> (r.value.best.None? <==> |tours| == 0)
    ensures r.Ok? && r.value.best.Some? ==> exists j :: (0 <= j < |tours| &&
      r.value.best.value == (tours[j], r.value.lens[j]) &&
      (forall i :: 0 <= i < |tours| ==> r.value.lens[j] <= r.value.lens[i]) &&
      (forall i :: 0 <= i < j ==> r.value.lens[j] < r.value.lens[i]))
  {
    var lens: seq<real> := [];
    var best: Option<(seq<int>, real)> := None;
    ghost var at: nat := 0;
    for i := 0 to |tours|
      invariant |lens| == i
      invariant forall q :: 0 <= q < i ==> TourLength(tours[q], distances) == Ok(lens[q])
      invariant best.None? <==> i == 0
      invariant best.Some? ==> (at < i && best.value == (tours[at], lens[at]) &&
        (forall q :: 0 <= q < i ==> lens[at] <= lens[q]) &&
        (forall q :: 0 <= q < at ==> lens[at] < lens[q]))
    {
      var l := TourLength(tours[i], distances);
      if l.Err? {
        return Err(l.error);
      }
      lens := lens + [l.value];
      if best.None? || l.value < best.value.1 {
        best := Some((tours[i], l.value));
        at := i;
      }
    }
    r := Ok(Trials(lens, best));
  }

  /** With a square matrix, tours that are shuffles of the cities never
      raise, so the scan above always finishes. */
  lemma ShuffledTrialsSucceed(distances: Matrix, tours: seq<seq<nat>>)
    requires Shaped(distances) && distances.m == distances.n
    requires forall j, i :: 0 <= j < |tours| && 0 <= i < |tours[j]| ==> tours[j][i] < distances.n
    requires forall j :: 0 <= j < |tours| ==> |tours[j]| == distances.n
    ensures forall j :: 0 <= j < |tours| ==> TourLength(tours[j], distances).Ok?
  {
    forall j | 0 <= j < |tours| ensures TourLength(tours[j], distances).Ok? {
      CityTourLength(tours[j], distances);
    }
  }
}
