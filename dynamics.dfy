/** The discrete skeleton of the network's update engine. A sweep writes one
    neuron at a time, in the fixed order of the stored pairs, reading the
    outputs already written earlier in the same sweep; a step is a sweep
    followed by the decay of the self-feedback `z` and the increment of the
    iteration counter. The numeric parts of `TCNNTSP` (the output function
    with `tanh`, the a/b/c arithmetic of the neuron update and the energy)
    are kept abstract as the fields of `Numerics`. */
module Dynamics {
  import opened Base

  /** A neuron index `(i, k)`: city `i` at tour position `k`. */
  type Pair = (nat, nat)

  /** The numeric content that the model leaves uninterpreted:
      - `g`: the output function `0.5 * (1 + tanh(x / epsilon))`;
      - `activation`: the new activation of neuron `(i, k)` computed from
        the current output matrix, the neuron's activation and `z`;
      - `energy`: the energy functional of an output matrix. */
  datatype Numerics = Numerics(
    g: real -> real,
    activation: (seq<seq<real>>, real, real, nat, nat) -> real,
    energy: seq<seq<real>> -> real)

  /** The part of the network state that the update engine changes:
      activations `X`, outputs `Y`, self-feedback `z`, iteration counter. */
  datatype Net = Net(X: seq<seq<real>>, Y: seq<seq<real>>, z: real, iter: nat)

  predicate WellShaped(s: Net) {
    |s.X| == |s.Y| && IsSquare(s.X) && IsSquare(s.Y)
  }

  predicate InRange(pairs: seq<Pair>, n: nat) {
    forall p :: 0 <= p < |pairs| ==> pairs[p].0 < n && pairs[p].1 < n
  }

  /** The pairs name every neuron of an `n`-by-`n` network. */
  ghost predicate Covers(pairs: seq<Pair>, n: nat) {
    forall i: nat, k: nat :: i < n && k < n ==> (i, k) in pairs
  }

  /** The outputs agree with the output function of the activations. */
  ghost predicate Consistent(num: Numerics, s: Net)
    requires WellShaped(s)
  {
    forall i, k :: 0 <= i < |s.X| && 0 <= k < |s.X| ==> s.Y[i][k] == num.g(s.X[i][k])
  }

  /** `__update_neuron(i, k)`: the activation of neuron `(i, k)` is
      recomputed from the current state, then its output; nothing else. */
  function Update(num: Numerics, s: Net, i: nat, k: nat): (r: Net)
    requires WellShaped(s) && i < |s.X| && k < |s.X|
    ensures WellShaped(r) && |r.X| == |s.X|
    ensures r.X[i][k] == num.activation(s.Y, s.X[i][k], s.z, i, k)
    ensures r.Y[i][k] == num.g(r.X[i][k])
    ensures forall a, b :: 0 <= a < |s.X| && 0 <= b < |s.X| && (a, b) != (i, k) ==>
      r.X[a][b] == s.X[a][b] && r.Y[a][b] == s.Y[a][b]
    ensures r.z == s.z && r.iter == s.iter
  {
    var x := num.activation(s.Y, s.X[i][k], s.z, i, k);
    s.(X := s.X[i := s.X[i][k := x]], Y := s.Y[i := s.Y[i][k := num.g(x)]])
  }

  /** The neuron updates of one sweep, in the order of `pairs`. */
  function Sweep(num: Numerics, s: Net, pairs: seq<Pair>): (r: Net)
    requires WellShaped(s) && InRange(pairs, |s.X|)
    ensures WellShaped(r) && |r.X| == |s.X|
    ensures r.z == s.z && r.iter == s.iter
    decreases |pairs|
  {
    if pairs == [] then s
    else
      var last := pairs[|pairs| - 1];
      Update(num, Sweep(num, s, pairs[..|pairs| - 1]), last.0, last.1)
  }

  /** `z *= (1 - beta)`: the decay of the self-feedback after a sweep. */
  function Decay(z: real, beta: real): (decayed: real) {
    z * (1.0 - beta)
  }

  /** `step`: one sweep, then `z *= (1 - beta)` and `iter += 1`. */
  function Step(num: Numerics, beta: real, pairs: seq<Pair>, s: Net): (r: Net)
    requires WellShaped(s) && InRange(pairs, |s.X|)
    ensures WellShaped(r) && |r.X| == |s.X|
  {
    var swept := Sweep(num, s, pairs);
    swept.(z := Decay(s.z, beta), iter := s.iter + 1)
  }

  /** The state after `t` steps. */
  function Evolve(num: Numerics, beta: real, pairs: seq<Pair>, s: Net, t: nat): (r: Net)
    requires WellShaped(s) && InRange(pairs, |s.X|)
    ensures WellShaped(r) && |r.X| == |s.X|
  {
    if t == 0 then s else Step(num, beta, pairs, Evolve(num, beta, pairs, s, t - 1))
  }

  function Pow(x: real, t: nat): (power: real) {
    if t == 0 then 1.0 else Pow(x, t - 1) * x
  }

  // ---------------------------------------------------------------------
  // Properties of the update engine

  /** A sweep over one more pair is the shorter sweep followed by that
      pair's neuron update. */
  lemma SweepSnoc(num: Numerics, s: Net, pairs: seq<Pair>, p: nat)
    requires WellShaped(s) && InRange(pairs, |s.X|) && p < |pairs|
    ensures InRange(pairs[..p], |s.X|) && InRange(pairs[..p + 1], |s.X|)
    ensures Sweep(num, s, pairs[..p + 1]) ==
      Update(num, Sweep(num, s, pairs[..p]), pairs[p].0, pairs[p].1)
  {
    assert pairs[..p + 1][..p] == pairs[..p];
  }

  /** A neuron that the sweep does not visit keeps its activation and output. */
  lemma {:induction false} SweepUntouched(num: Numerics, s: Net, pairs: seq<Pair>, a: nat, b: nat)
    requires WellShaped(s) && InRange(pairs, |s.X|) && a < |s.X| && b < |s.X|
    requires (a, b) !in pairs
    ensures Sweep(num, s, pairs).X[a][b] == s.X[a][b]
    ensures Sweep(num, s, pairs).Y[a][b] == s.Y[a][b]
  {
    if pairs != [] {
      var init := pairs[..|pairs| - 1];
      assert forall q :: 0 <= q < |init| ==> init[q] == pairs[q];
      SweepUntouched(num, s, init, a, b);
      assert pairs[|pairs| - 1] != (a, b);
    }
  }

  /** After a sweep, every visited neuron's output is the output function
      of its activation, whatever order the pairs come in. */
  lemma {:induction false} SweepSettles(num: Numerics, s: Net, pairs: seq<Pair>, a: nat, b: nat)
    requires WellShaped(s) && InRange(pairs, |s.X|) && a < |s.X| && b < |s.X|
    requires (a, b) in pairs
    ensures Sweep(num, s, pairs).Y[a][b] == num.g(Sweep(num, s, pairs).X[a][b])
  {
    var init := pairs[..|pairs| - 1];
    var last := pairs[|pairs| - 1];
    if last != (a, b) {
      assert (a, b) in init by {
        var q :| 0 <= q < |pairs| && pairs[q] == (a, b);
        assert q < |pairs| - 1 && init[q] == (a, b);
      }
      assert forall q :: 0 <= q < |init| ==> init[q] == pairs[q];
      SweepSettles(num, s, init, a, b);
    }
  }

  /** A sweep over pairs that name every neuron leaves the outputs equal to
      the output function of the activations everywhere. */
  lemma SweepConsistent(num: Numerics, s: Net, pairs: seq<Pair>)
    requires WellShaped(s) && InRange(pairs, |s.X|) && Covers(pairs, |s.X|)
    ensures Consistent(num, Sweep(num, s, pairs))
  {
    var r := Sweep(num, s, pairs);
    forall i, k | 0 <= i < |s.X| && 0 <= k < |s.X| ensures r.Y[i][k] == num.g(r.X[i][k]) {
      SweepSettles(num, s, pairs, i, k);
    }
  }

  /** After `t` steps the iteration counter has grown by `t` and the
      self-feedback has decayed by the factor `(1 - beta)^t`. */
  lemma {:induction false} EvolveCounters(num: Numerics, beta: real, pairs: seq<Pair>, s: Net, t: nat)
    requires WellShaped(s) && InRange(pairs, |s.X|)
    ensures Evolve(num, beta, pairs, s, t).iter == s.iter + t
    ensures Evolve(num, beta, pairs, s, t).z == s.z * Pow(1.0 - beta, t)
  {
    if t > 0 {
      EvolveCounters(num, beta, pairs, s, t - 1);
      var prev := Evolve(num, beta, pairs, s, t - 1);
      assert Sweep(num, prev, pairs).z == prev.z;
      assert s.z * Pow(1.0 - beta, t - 1) * (1.0 - beta) == s.z * Pow(1.0 - beta, t);
    }
  }

  /** Once at least one step has run over a covering order, every output is
      the output function of its activation. */
  lemma EvolveConsistent(num: Numerics, beta: real, pairs: seq<Pair>, s: Net, t: nat)
    requires WellShaped(s) && InRange(pairs, |s.X|) && Covers(pairs, |s.X|) && t > 0
    ensures Consistent(num, Evolve(num, beta, pairs, s, t))
  {
    var prev := Evolve(num, beta, pairs, s, t - 1);
    SweepConsistent(num, prev, pairs);
  }
}
