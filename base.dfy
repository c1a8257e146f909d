/** Values shared by the network model and the random-tour script: the
    Python exceptions the code raises, numpy's two-dimensional arrays, and
    the counting that `len(np.where(...)[0])` performs. */
module Base {

  datatype Option<T> = None | Some(value: T)

  /** The Python exceptions that the modelled code can raise. */
  datatype Error =
    | RuntimeError(message: string)
    | ValueError(message: string)
    | IndexError

  datatype Result<T> = Ok(value: T) | Err(error: Error)

  /** A numpy two-dimensional array of floats: its shape `(m, n)` and its rows. */
  datatype Matrix = Matrix(m: nat, n: nat, rows: seq<seq<real>>)

  /** numpy arrays are rectangular: `m` rows of `n` entries each. */
  predicate Shaped(a: Matrix) {
    |a.rows| == a.m && forall i :: 0 <= i < |a.rows| ==> |a.rows[i]| == a.n
  }

  /** A matrix given by its rows that has as many columns as rows. */
  predicate IsSquare<T>(M: seq<seq<T>>) {
    forall i :: 0 <= i < |M| ==> |M[i]| == |M|
  }

  /** The number of elements of `s` that satisfy `p`, as
      `len(np.where(...)[0])` counts the non-zero (true) entries. */
  function Count<T>(s: seq<T>, p: T -> bool): (c: nat)
    ensures c <= |s|
  {
    if s == [] then 0 else (if p(s[0]) then 1 else 0) + Count(s[1..], p)
  }

  /** Exactly one element of `s` satisfies `p`. */
  ghost predicate ExactlyOne<T>(s: seq<T>, p: T -> bool) {
    exists j :: 0 <= j < |s| && p(s[j]) && forall l :: 0 <= l < |s| && l != j ==> !p(s[l])
  }

  lemma {:induction false} CountNone<T>(s: seq<T>, p: T -> bool)
    ensures Count(s, p) == 0 <==> forall l :: 0 <= l < |s| ==> !p(s[l])
  {
    if s != [] {
      CountNone(s[1..], p);
      assert forall l :: 1 <= l < |s| ==> s[l] == s[1..][l - 1];
    }
  }

  lemma {:induction false} CountAll<T>(s: seq<T>, p: T -> bool)
    ensures Count(s, p) == |s| <==> forall l :: 0 <= l < |s| ==> p(s[l])
  {
    if s != [] {
      CountAll(s[1..], p);
      assert forall l :: 1 <= l < |s| ==> s[l] == s[1..][l - 1];
    }
  }

  lemma CountOne<T>(s: seq<T>, p: T -> bool)
    ensures Count(s, p) == 1 <==> ExactlyOne(s, p)
  {
    if Count(s, p) == 1 {
      CountOneWitness(s, p);
    }
    if ExactlyOne(s, p) {
      var j :| 0 <= j < |s| && p(s[j]) && forall l :: 0 <= l < |s| && l != j ==> !p(s[l]);
      CountOfOne(s, p, j);
    }
  }

  lemma {:induction false} CountOneWitness<T>(s: seq<T>, p: T -> bool)
    requires Count(s, p) == 1
    ensures ExactlyOne(s, p)
  {
    var t := s[1..];
    if p(s[0]) {
      CountNone(t, p);
      forall l | 0 <= l < |s| && l != 0 ensures !p(s[l]) {
        assert s[l] == t[l - 1];
      }
    } else {
      CountOneWitness(t, p);
      var j :| 0 <= j < |t| && p(t[j]) && forall l :: 0 <= l < |t| && l != j ==> !p(t[l]);
      forall l | 0 <= l < |s| && l != j + 1 ensures !p(s[l]) {
        if l > 0 {
          assert s[l] == t[l - 1];
        }
      }
      assert p(s[j + 1]);
    }
  }

  lemma {:induction false} CountOfOne<T>(s: seq<T>, p: T -> bool, j: nat)
    requires j < |s| && p(s[j]) && forall l :: 0 <= l < |s| && l != j ==> !p(s[l])
    ensures Count(s, p) == 1
  {
    var t := s[1..];
    assert forall l :: 1 <= l < |s| ==> s[l] == t[l - 1];
    if j == 0 {
      CountNone(t, p);
    } else {
      CountOfOne(t, p, j - 1);
    }
  }

  /** Euclidean division recovers the block index `u` of `j` in blocks of size `c`. */
  lemma DivBetween(j: nat, c: nat, u: nat)
    requires c > 0 && u * c <= j < u * c + c
    ensures j / c == u
  {
    var d, r := j / c, j % c;
    assert j == d * c + r && 0 <= r < c;
    if d < u {
      assert (d + 1) * c <= u * c by {
        MulMonotone(d + 1, u, c);
      }
    } else if d > u {
      assert (u + 1) * c <= d * c by {
        MulMonotone(u + 1, d, c);
      }
    }
  }

  lemma MulMonotone(a: nat, b: nat, c: nat)
    requires a <= b
    ensures a * c <= b * c
  {
  }

  /** An index below `n * n` splits into a row and a column below `n`. */
  lemma BlockBelow(q: nat, n: nat)
    requires q < n * n
    ensures n > 0 && q / n < n && q % n < n
  {
    if q / n >= n {
      MulMonotone(n, q / n, n);
    }
  }
}
