/** The read-only queries of `TCNNTSP` over the output matrix `Y`: row and
    column validity, the percent-valid metric, the valid-tour test, tour
    extraction and the length of the extracted closed tour. They are
    functions of the `n`-by-`n` output matrix (and, for the length, of the
    raw distance matrix). */
module Readout {
  import opened Base

  /** numpy's truth test on a float, as `np.where` applies it. */
  predicate NonZero(x: real) {
    x != 0.0
  }

  predicate IsTrue(b: bool) {
    b
  }

  /** `Y.transpose()`: row `k` of the result is column `k` of `Y`. */
  function Transpose(Y: seq<seq<real>>): (T: seq<seq<real>>)
    requires IsSquare(Y)
    ensures |T| == |Y| && IsSquare(T)
    ensures forall k, j :: 0 <= k < |Y| && 0 <= j < |Y| ==> T[k][j] == Y[j][k]
  {
    seq(|Y|, k requires 0 <= k < |Y| => seq(|Y|, j requires 0 <= j < |Y| => Y[j][k]))
  }

  /** Reference meaning of a valid row: exactly one non-zero entry. */
  ghost predicate RowIsValid(Y: seq<seq<real>>, i: nat)
    requires IsSquare(Y) && i < |Y|
  {
    exists k :: 0 <= k < |Y| && Y[i][k] != 0.0 &&
      forall l :: 0 <= l < |Y| && l != k ==> Y[i][l] == 0.0
  }

  /** Reference meaning of a valid column: exactly one non-zero entry. */
  ghost predicate ColumnIsValid(Y: seq<seq<real>>, k: nat)
    requires IsSquare(Y) && k < |Y|
  {
    exists i :: 0 <= i < |Y| && Y[i][k] != 0.0 &&
      forall j :: 0 <= j < |Y| && j != i ==> Y[j][k] == 0.0
  }

  /** `valid_rows`: for each row, whether `np.where` finds exactly one entry. */
  function ValidRows(Y: seq<seq<real>>): (v: seq<bool>)
    requires IsSquare(Y)
    ensures |v| == |Y|
  {
    seq(|Y|, i requires 0 <= i < |Y| => Count(Y[i], NonZero) == 1)
  }

  /** `valid_cols`: the rows of the transposed matrix. */
  function ValidCols(Y: seq<seq<real>>): (v: seq<bool>)
    requires IsSquare(Y)
    ensures |v| == |Y|
  {
    ValidRows(Transpose(Y))
  }

  /** `n_valid_rows`: the number of valid rows, at most `n`. */
  function NValidRows(Y: seq<seq<real>>): (c: nat)
    requires IsSquare(Y)
    ensures c <= |Y|
  {
    Count(ValidRows(Y), IsTrue)
  }

  /** `n_valid_cols`: the number of valid columns, at most `n`. */
  function NValidCols(Y: seq<seq<real>>): (c: nat)
    requires IsSquare(Y)
    ensures c <= |Y|
  {
    Count(ValidCols(Y), IsTrue)
  }

  /** `percent_valid`: the valid rows and columns as a fraction of `2n`. */
  function PercentValid(Y: seq<seq<real>>): (p: real)
    requires IsSquare(Y) && |Y| > 0
    ensures 0.0 <= p <= 1.0
    ensures p == 1.0 <==> NValidRows(Y) + NValidCols(Y) == 2 * |Y|
  {
    var total := NValidRows(Y) + NValidCols(Y);
    FractionBounds(total as real, 2.0 * (|Y| as real));
    (total as real) / (2.0 * (|Y| as real))
  }

  lemma FractionBounds(a: real, b: real)
    requires 0.0 <= a <= b && b > 0.0
    ensures 0.0 <= a / b <= 1.0
    ensures a / b == 1.0 <==> a == b
  {
    assert a / b * b == a;
  }

  /** `valid_tour`: `percent_valid() == 1`, written as the count total
      reaching `2n`; `ValidTourIsFullPercent` shows the two agree. */
  predicate ValidTour(Y: seq<seq<real>>)
    requires IsSquare(Y) && |Y| > 0
  {
    NValidRows(Y) + NValidCols(Y) == 2 * |Y|
  }

  /** `valid_tour` is `percent_valid() == 1`. */
  lemma ValidTourIsFullPercent(Y: seq<seq<real>>)
    requires IsSquare(Y) && |Y| > 0
    ensures ValidTour(Y) <==> PercentValid(Y) == 1.0
  {
  }

  /** `np.where(s)[0][0]`: the first non-zero index, if there is one. */
  function FirstNonZero(s: seq<real>): (r: Option<nat>)
    ensures r.Some? ==> r.value < |s| && s[r.value] != 0.0 &&
                        forall l :: 0 <= l < r.value ==> s[l] == 0.0
    ensures r.None? ==> forall l :: 0 <= l < |s| ==> s[l] == 0.0
  {
    if s == [] then None
    else if s[0] != 0.0 then Some(0)
    else match FirstNonZero(s[1..])
      case None => None
      case Some(j) => Some(j + 1)
  }

  /** The first non-zero row of each of the given columns, in order;
      indexing the empty result of `np.where` raises `IndexError`. */
  function FirstRows(cols: seq<seq<real>>): (r: Result<seq<nat>>)
    ensures r.Ok? ==> |r.value| == |cols|
  {
    if cols == [] then Ok([])
    else match FirstNonZero(cols[0])
      case None => Err(IndexError)
      case Some(i) =>
        match FirstRows(cols[1..])
        case Err(e) => Err(e)
        case Ok(rest) => Ok([i] + rest)
  }

  /** `tour`: position `k` of the tour is the first row that is non-zero in
      column `k`. The validity guard of the source never fires (it tests
      the method object, not its result), so no validity check is made. */
  function Tour(Y: seq<seq<real>>): (t: Result<seq<nat>>)
    requires IsSquare(Y)
    ensures t.Err? ==> t.error == IndexError
    ensures t.Ok? ==> |t.value| == |Y| && forall k :: 0 <= k < |Y| ==> t.value[k] < |Y|
  {
    var T := Transpose(Y);
    FirstRowsErr(T);
    if FirstRows(T).Ok? then
      FirstRowsInRange(T, |Y|);
      FirstRows(T)
    else FirstRows(T)
  }

  /** Leg `i` of the closed tour: from `t[i]` to `t[(i + 1) % n]`. */
  function Leg(ds: seq<seq<real>>, t: seq<nat>, i: nat): (d: real)
    requires IsSquare(ds) && |t| == |ds| && i < |t|
    requires forall j :: 0 <= j < |t| ==> t[j] < |ds|
  {
    ds[t[i]][t[(i + 1) % |t|]]
  }

  /** The first `j` legs of the closed tour, summed left to right. */
  function SumLegs(ds: seq<seq<real>>, t: seq<nat>, j: nat): (sum: real)
    requires IsSquare(ds) && |t| == |ds| && j <= |t|
    requires forall l :: 0 <= l < |t| ==> t[l] < |ds|
  {
    if j == 0 then 0.0 else SumLegs(ds, t, j - 1) + Leg(ds, t, j - 1)
  }

  /** The length of the closed tour `t` over the distances `ds`. */
  function CycleLength(ds: seq<seq<real>>, t: seq<nat>): (len: real)
    requires IsSquare(ds) && |t| == |ds|
    requires forall l :: 0 <= l < |t| ==> t[l] < |ds|
  {
    SumLegs(ds, t, |t|)
  }

  /** `tour_length`: the closed length of the extracted tour over the raw
      distances; an error in `tour` propagates. */
  function TourLength(Y: seq<seq<real>>, ds: seq<seq<real>>): (r: Result<real>)
    requires IsSquare(Y) && IsSquare(ds) && |ds| == |Y|
    ensures r.Ok? <==> Tour(Y).Ok?
    ensures r.Err? ==> r.error == IndexError
  {
    match Tour(Y)
    case Err(e) => Err(e)
    case Ok(t) => Ok(CycleLength(ds, t))
  }

  // ---------------------------------------------------------------------
  // Properties of the readout

  /** Entry `i` of `valid_rows` holds iff row `i` has exactly one non-zero entry. */
  lemma ValidRowsMeaning(Y: seq<seq<real>>, i: nat)
    requires IsSquare(Y) && i < |Y|
    ensures ValidRows(Y)[i] <==> RowIsValid(Y, i)
  {
    CountOne(Y[i], NonZero);
  }

  /** Entry `k` of `valid_cols` holds iff column `k` has exactly one non-zero entry. */
  lemma ValidColsMeaning(Y: seq<seq<real>>, k: nat)
    requires IsSquare(Y) && k < |Y|
    ensures ValidCols(Y)[k] <==> ColumnIsValid(Y, k)
  {
    var T := Transpose(Y);
    CountOne(T[k], NonZero);
    ColumnSupport(Y, k, T[k]);
  }

  lemma ColumnSupport(Y: seq<seq<real>>, k: nat, col: seq<real>)
    requires IsSquare(Y) && k < |Y| && |col| == |Y|
    requires forall j :: 0 <= j < |Y| ==> col[j] == Y[j][k]
    ensures ExactlyOne(col, NonZero) <==> ColumnIsValid(Y, k)
  {
    if ColumnIsValid(Y, k) {
      var i :| 0 <= i < |Y| && Y[i][k] != 0.0 &&
        forall j :: 0 <= j < |Y| && j != i ==> Y[j][k] == 0.0;
      assert NonZero(col[i]);
    }
    if ExactlyOne(col, NonZero) {
      var i :| 0 <= i < |col| && NonZero(col[i]) &&
        forall j :: 0 <= j < |col| && j != i ==> !NonZero(col[j]);
      assert Y[i][k] != 0.0;
    }
  }

  /** `valid_tour` holds iff every row and every column is valid, i.e. iff
      the output matrix has the support of a permutation matrix. */
  lemma {:induction false} ValidTourMeaning(Y: seq<seq<real>>)
    requires IsSquare(Y) && |Y| > 0
    ensures ValidTour(Y) <==>
      (forall i :: 0 <= i < |Y| ==> RowIsValid(Y, i)) &&
      (forall k :: 0 <= k < |Y| ==> ColumnIsValid(Y, k))
  {
    var n := |Y|;
    CountAll(ValidRows(Y), IsTrue);
    CountAll(ValidCols(Y), IsTrue);
    forall i | 0 <= i < n ensures ValidRows(Y)[i] <==> RowIsValid(Y, i) {
      ValidRowsMeaning(Y, i);
    }
    forall k | 0 <= k < n ensures ValidCols(Y)[k] <==> ColumnIsValid(Y, k) {
      ValidColsMeaning(Y, k);
    }
  }

  lemma {:induction false} FirstRowsInRange(cols: seq<seq<real>>, bound: nat)
    requires forall c :: 0 <= c < |cols| ==> |cols[c]| == bound
    requires FirstRows(cols).Ok?
    ensures forall c :: 0 <= c < |cols| ==> FirstRows(cols).value[c] < bound
  {
    if cols != [] {
      FirstRowsInRange(cols[1..], bound);
      var rest := FirstRows(cols[1..]).value;
      assert FirstRows(cols).value == [FirstNonZero(cols[0]).value] + rest;
    }
  }

  lemma {:induction false} FirstRowsMeaning(cols: seq<seq<real>>)
    ensures FirstRows(cols).Ok? <==> forall c :: 0 <= c < |cols| ==> FirstNonZero(cols[c]).Some?
    ensures FirstRows(cols).Ok? ==> forall c :: 0 <= c < |cols| ==>
      FirstRows(cols).value[c] == FirstNonZero(cols[c]).value
  {
    if cols != [] {
      FirstRowsMeaning(cols[1..]);
      assert forall c :: 1 <= c < |cols| ==> cols[c] == cols[1..][c - 1];
    }
  }

  /** Column `k` of `Y` has at least one non-zero entry. */
  ghost predicate ColumnHasNonZero(Y: seq<seq<real>>, k: nat)
    requires IsSquare(Y) && k < |Y|
  {
    exists i :: 0 <= i < |Y| && Y[i][k] != 0.0
  }

  /** `tour` fails (with `IndexError`) exactly when some column of `Y` is all
      zero; otherwise position `k` holds the first row that is non-zero in
      column `k`. */
  lemma TourMeaning(Y: seq<seq<real>>)
    requires IsSquare(Y)
    ensures Tour(Y).Ok? <==> forall k :: 0 <= k < |Y| ==> ColumnHasNonZero(Y, k)
    ensures Tour(Y).Err? ==> Tour(Y).error == IndexError
    ensures Tour(Y).Ok? ==> |Tour(Y).value| == |Y|
    ensures Tour(Y).Ok? ==> forall k :: 0 <= k < |Y| ==>
      Tour(Y).value[k] < |Y| && Y[Tour(Y).value[k]][k] != 0.0 &&
      forall j :: 0 <= j < Tour(Y).value[k] ==> Y[j][k] == 0.0
  {
    var T := Transpose(Y);
    FirstRowsMeaning(T);
    forall k | 0 <= k < |Y|
      ensures FirstNonZero(T[k]).Some? <==> ColumnHasNonZero(Y, k)
    {
      if FirstNonZero(T[k]).None? {
        assert forall i :: 0 <= i < |Y| ==> Y[i][k] == T[k][i];
      } else {
        assert Y[FirstNonZero(T[k]).value][k] != 0.0;
      }
    }
  }

  lemma {:induction false} FirstRowsErr(cols: seq<seq<real>>)
    ensures FirstRows(cols).Err? ==> FirstRows(cols).error == IndexError
  {
    if cols != [] {
      FirstRowsErr(cols[1..]);
    }
  }

  /** On a valid tour, `tour` yields a permutation of `0..n-1`: `n` distinct
      cities, every city present, and the city at position `k` is the one
      whose output is non-zero in column `k`. */
  lemma TourOfValidTour(Y: seq<seq<real>>)
    requires IsSquare(Y) && |Y| > 0 && ValidTour(Y)
    ensures Tour(Y).Ok?
    ensures |Tour(Y).value| == |Y|
    ensures forall k :: 0 <= k < |Y| ==> Tour(Y).value[k] < |Y| && Y[Tour(Y).value[k]][k] != 0.0
    ensures forall k1, k2 :: 0 <= k1 < k2 < |Y| ==> Tour(Y).value[k1] != Tour(Y).value[k2]
    ensures forall c: nat :: c < |Y| ==> c in Tour(Y).value
  {
    var n := |Y|;
    ValidTourMeaning(Y);
    forall k | 0 <= k < n ensures ColumnHasNonZero(Y, k) {
      assert ColumnIsValid(Y, k);
    }
    TourMeaning(Y);
    var t := Tour(Y).value;
    forall k1, k2 | 0 <= k1 < n && 0 <= k2 < n && t[k1] == t[k2] ensures k1 == k2 {
      var c := t[k1];
      assert RowIsValid(Y, c);
      var k :| 0 <= k < n && Y[c][k] != 0.0 && forall l :: 0 <= l < n && l != k ==> Y[c][l] == 0.0;
      assert Y[c][k1] != 0.0 && Y[c][k2] != 0.0;
    }
    forall c: nat | c < n ensures c in t {
      assert RowIsValid(Y, c);
      var k :| 0 <= k < n && Y[c][k] != 0.0 && forall l :: 0 <= l < n && l != k ==> Y[c][l] == 0.0;
      assert ColumnIsValid(Y, k);
      var i :| 0 <= i < n && Y[i][k] != 0.0 && forall j :: 0 <= j < n && j != i ==> Y[j][k] == 0.0;
      assert i == c;
      assert Y[t[k]][k] != 0.0;
      assert t[k] == c;
    }
  }

  /** The validity guard of `tour` never fires: on an all-ones 2x2 matrix,
      which is not a valid tour, `tour` returns `[0, 0]`, which is not a
      permutation. */
  lemma TourIgnoresValidity()
    ensures var Y := [[1.0, 1.0], [1.0, 1.0]];
      IsSquare(Y) && !ValidTour(Y) && Tour(Y) == Ok([0, 0])
  {
    var Y := [[1.0, 1.0], [1.0, 1.0]];
    var T := Transpose(Y);
    assert T[0] == [1.0, 1.0] && T[1] == [1.0, 1.0];
    assert T == Y;
    assert Count(Y[0], NonZero) == 2 && Count(Y[1], NonZero) == 2;
    assert ValidRows(Y) == [false, false];
    assert ValidCols(Y) == [false, false];
    assert NValidRows(Y) + NValidCols(Y) == 0;
    assert FirstNonZero(Y[0]) == Some(0) && FirstNonZero(Y[1]) == Some(0);
    assert T[1..] == [[1.0, 1.0]] && T[1..][1..] == [];
    var none: seq<nat> := [];
    assert [0 as nat] + none == [0];
    assert FirstRows(T[1..]) == Ok([0]);
    assert [0 as nat] + [0] == [0, 0];
  }

  /** Independent formulation of the closed length: the open path
      `t[0] -> t[1] -> ... -> t[n-1]` plus the closing leg back to `t[0]`. */
  function PathLength(ds: seq<seq<real>>, t: seq<nat>, j: nat): (len: real)
    requires IsSquare(ds) && |t| == |ds| && j < |t|
    requires forall l :: 0 <= l < |t| ==> t[l] < |ds|
  {
    if j == 0 then 0.0 else PathLength(ds, t, j - 1) + ds[t[j - 1]][t[j]]
  }

  lemma {:induction false} SumLegsIsPath(ds: seq<seq<real>>, t: seq<nat>, j: nat)
    requires IsSquare(ds) && |t| == |ds| && j < |t|
    requires forall l :: 0 <= l < |t| ==> t[l] < |ds|
    ensures SumLegs(ds, t, j) == PathLength(ds, t, j)
  {
    if j > 0 {
      SumLegsIsPath(ds, t, j - 1);
      ModBelow(j, |t|);
      assert Leg(ds, t, j - 1) == ds[t[j - 1]][t[j]];
    }
  }

  lemma ModBelow(a: nat, m: nat)
    requires a < m
    ensures a % m == a
  {
  }

  /** The last leg of the closed tour returns to the first city: the closed
      length is the open path length plus `ds[t[n-1]][t[0]]`. */
  lemma CycleLengthCloses(ds: seq<seq<real>>, t: seq<nat>)
    requires IsSquare(ds) && |t| == |ds| && |t| > 0
    requires forall l :: 0 <= l < |t| ==> t[l] < |ds|
    ensures CycleLength(ds, t) == PathLength(ds, t, |t| - 1) + ds[t[|t| - 1]][t[0]]
  {
    SumLegsIsPath(ds, t, |t| - 1);
    assert (|t| - 1 + 1) % |t| == 0;
  }

  /** The length of a tour read off a valid output matrix is the closed
      path length over the raw distances. */
  lemma TourLengthOfValidTour(Y: seq<seq<real>>, ds: seq<seq<real>>)
    requires IsSquare(Y) && IsSquare(ds) && |ds| == |Y| && |Y| > 0 && ValidTour(Y)
    ensures Tour(Y).Ok? && |Tour(Y).value| == |Y|
    ensures forall k :: 0 <= k < |Y| ==> Tour(Y).value[k] < |Y|
    ensures var t := Tour(Y).value;
      TourLength(Y, ds) == Ok(PathLength(ds, t, |Y| - 1) + ds[t[|Y| - 1]][t[0]])
  {
    TourOfValidTour(Y);
    CycleLengthCloses(ds, Tour(Y).value);
  }

  /** The identity output matrix of four cities reads off the tour `[0, 1, 2, 3]`. */
  lemma FourCityIdentityTour(Y: seq<seq<real>>)
    requires Y == [[1.0, 0.0, 0.0, 0.0], [0.0, 1.0, 0.0, 0.0],
                   [0.0, 0.0, 1.0, 0.0], [0.0, 0.0, 0.0, 1.0]]
    ensures IsSquare(Y) && Tour(Y) == Ok([0, 1, 2, 3])
  {
    var T := Transpose(Y);
    assert T[0] == Y[0] && T[1] == Y[1] && T[2] == Y[2] && T[3] == Y[3];
    assert T == Y;
    IdentityFirstRows(T);
  }

  /** The first non-zero rows of the four identity columns. */
  lemma IdentityFirstRows(cols: seq<seq<real>>)
    requires cols == [[1.0, 0.0, 0.0, 0.0], [0.0, 1.0, 0.0, 0.0],
                      [0.0, 0.0, 1.0, 0.0], [0.0, 0.0, 0.0, 1.0]]
    ensures FirstRows(cols) == Ok([0, 1, 2, 3])
  {
    assert FirstNonZero(cols[3]) == Some(3);
    assert FirstNonZero(cols[2]) == Some(2);
    assert FirstNonZero(cols[1]) == Some(1);
    assert FirstNonZero(cols[0]) == Some(0);
    var none: seq<nat> := [];
    assert cols[3..][1..] == [] && cols[2..][1..] == cols[3..] && cols[1..][1..] == cols[2..];
    assert [3 as nat] + none == [3];
    assert FirstRows(cols[3..]) == Ok([3]);
    assert [2 as nat] + [3] == [2, 3];
    assert FirstRows(cols[2..]) == Ok([2, 3]);
    assert [1 as nat] + [2, 3] == [1, 2, 3];
    assert FirstRows(cols[1..]) == Ok([1, 2, 3]);
    assert [0 as nat] + [1, 2, 3] == [0, 1, 2, 3];
  }

  /** A four-city example: the identity permutation matrix over the distances
      `[[0,1,2,3],[1,0,1,2],[2,1,0,1],[3,2,1,0]]` gives a tour of length
      1 + 1 + 1 + 3 = 6. */
  lemma FourCityTour(Y: seq<seq<real>>, ds: seq<seq<real>>)
    requires Y == [[1.0, 0.0, 0.0, 0.0], [0.0, 1.0, 0.0, 0.0],
                   [0.0, 0.0, 1.0, 0.0], [0.0, 0.0, 0.0, 1.0]]
    requires ds == [[0.0, 1.0, 2.0, 3.0], [1.0, 0.0, 1.0, 2.0],
                    [2.0, 1.0, 0.0, 1.0], [3.0, 2.0, 1.0, 0.0]]
    ensures IsSquare(Y) && IsSquare(ds) && TourLength(Y, ds) == Ok(6.0)
  {
    FourCityIdentityTour(Y);
    var t: seq<nat> := [0, 1, 2, 3];
    assert Leg(ds, t, 0) == 1.0 && Leg(ds, t, 1) == 1.0;
    assert Leg(ds, t, 2) == 1.0 && Leg(ds, t, 3) == 3.0;
    assert SumLegs(ds, t, 1) == 1.0;
    assert SumLegs(ds, t, 2) == 2.0;
    assert SumLegs(ds, t, 3) == 3.0;
    assert SumLegs(ds, t, 4) == 6.0;
  }
}
