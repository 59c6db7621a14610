/**
  The two max-magnitude rules of the envelope extraction, folded over the
  samples of a scan in order, and the five-accumulator fold the extraction
  performs per bar.
 */
module Envelope {
  import opened Forces

  function Abs(x: real): real {
    if x < 0.0 then -x else x
  }

  /** Signed rule: the new value replaces the accumulator, sign and all, only
      when its magnitude is strictly larger. */
  function SignedStep(acc: real, v: real): real {
    if Abs(v) > Abs(acc) then v else acc
  }

  /** Unsigned rule: the accumulator becomes the new magnitude when that is
      strictly larger than the accumulator's. */
  function ShearStep(acc: real, v: real): real {
    if Abs(v) > Abs(acc) then Abs(v) else acc
  }

  /** The signed rule folded over `vs` in order, starting from 0. The result
      is at least as large in magnitude as every value, and it is either the
      initial 0 or one of the values itself, with its sign. */
  function SignedPeak(vs: seq<real>): (r: real)
    ensures forall i :: 0 <= i < |vs| ==> Abs(vs[i]) <= Abs(r)
    ensures r == 0.0 || exists k :: 0 <= k < |vs| && r == vs[k]
    ensures r != 0.0 <==> exists k :: 0 <= k < |vs| && vs[k] != 0.0
  {
    if |vs| == 0 then 0.0
    else
      var init := vs[..|vs| - 1];
      assert forall k :: 0 <= k < |init| ==> init[k] == vs[k];
      SignedStep(SignedPeak(init), vs[|vs| - 1])
  }

  /** The unsigned rule folded over `vs` in order, starting from 0: the
      largest magnitude among the values, or 0 when there are none. */
  function ShearPeak(vs: seq<real>): (r: real)
    ensures r >= 0.0
    ensures forall i :: 0 <= i < |vs| ==> Abs(vs[i]) <= r
    ensures r == 0.0 || exists k :: 0 <= k < |vs| && r == Abs(vs[k])
  {
    if |vs| == 0 then 0.0
    else
      var init := vs[..|vs| - 1];
      assert forall k :: 0 <= k < |init| ==> init[k] == vs[k];
      ShearStep(ShearPeak(init), vs[|vs| - 1])
  }

  /** `k` is the first position of a value of largest magnitude in `vs`. */
  ghost predicate FirstPeakAt(vs: seq<real>, k: int) {
    && 0 <= k < |vs|
    && (forall j :: 0 <= j < |vs| ==> Abs(vs[j]) <= Abs(vs[k]))
    && (forall j :: 0 <= j < k ==> Abs(vs[j]) < Abs(vs[k]))
  }

  /** Strict replacement breaks ties by order: on a non-empty sequence the
      signed fold returns exactly the value at the first position of largest
      magnitude. */
  lemma {:induction false} SignedPeakIsFirstPeak(vs: seq<real>)
    requires |vs| > 0
    ensures exists k :: FirstPeakAt(vs, k) && SignedPeak(vs) == vs[k]
  {
    var n := |vs|;
    var init := vs[..n - 1];
    if n == 1 {
      assert FirstPeakAt(vs, 0);
    } else if Abs(vs[n - 1]) > Abs(SignedPeak(init)) {
      LastIsFirstPeak(vs);
    } else {
      SignedPeakIsFirstPeak(init);
      var k :| FirstPeakAt(init, k) && SignedPeak(init) == init[k];
      EarlierPeakStays(vs, k);
    }
  }

  /** A last value that beats the fold of the others is the first peak. */
  lemma LastIsFirstPeak(vs: seq<real>)
    requires |vs| > 0 && Abs(vs[|vs| - 1]) > Abs(SignedPeak(vs[..|vs| - 1]))
    ensures FirstPeakAt(vs, |vs| - 1)
  {
    var init := vs[..|vs| - 1];
    forall j | 0 <= j < |vs| - 1
      ensures Abs(vs[j]) < Abs(vs[|vs| - 1])
    {
      assert init[j] == vs[j];
    }
  }

  /** A first peak of all but the last value stays the first peak when the
      last value does not beat it. */
  lemma EarlierPeakStays(vs: seq<real>, k: int)
    requires |vs| > 1 && FirstPeakAt(vs[..|vs| - 1], k)
    requires Abs(vs[|vs| - 1]) <= Abs(vs[k])
    ensures FirstPeakAt(vs, k)
  {
    var init := vs[..|vs| - 1];
    assert forall j :: 0 <= j < |init| ==> init[j] == vs[j];
  }

  /** The first position of largest magnitude is unique. */
  lemma FirstPeakUnique(vs: seq<real>, k1: int, k2: int)
    requires FirstPeakAt(vs, k1) && FirstPeakAt(vs, k2)
    ensures k1 == k2
  {
    assert Abs(vs[k1]) == Abs(vs[k2]);
  }

  /** The two rules agree on magnitude: the unsigned envelope is the
      magnitude of the signed one. They differ only in the sign kept. */
  lemma {:induction false} ShearPeakIsMagnitude(vs: seq<real>)
    ensures ShearPeak(vs) == Abs(SignedPeak(vs))
  {
    if |vs| > 0 {
      ShearPeakIsMagnitude(vs[..|vs| - 1]);
    }
  }

  /** The five accumulators of one bar. */
  datatype Envelopes = Envelopes(momentMajor: real, momentMinor: real, shearMajor: real, shearMinor: real, axial: real)

  /** All five accumulators start at 0. */
  const Zero := Envelopes(0.0, 0.0, 0.0, 0.0, 0.0)

  /** The accumulator fed by component `c`. */
  function Get(e: Envelopes, c: Component): real {
    match c
    case MomentMajor => e.momentMajor
    case MomentMinor => e.momentMinor
    case ShearMajor => e.shearMajor
    case ShearMinor => e.shearMinor
    case Axial => e.axial
  }

  /** One pass of the inner loop body: every accumulator takes one step with
      its own component of the sample. */
  function Update(e: Envelopes, s: ForceSample): Envelopes {
    Envelopes(
      SignedStep(e.momentMajor, s.my),
      SignedStep(e.momentMinor, s.mz),
      ShearStep(e.shearMajor, s.fz),
      ShearStep(e.shearMinor, s.fy),
      SignedStep(e.axial, s.fx))
  }

  /** The accumulators after updating with every sample of `ss`, in order. */
  function Accumulate(ss: seq<ForceSample>): Envelopes {
    if |ss| == 0 then Zero else Update(Accumulate(ss[..|ss| - 1]), ss[|ss| - 1])
  }

  /** Folding one more sample is one more update. */
  lemma AccumulateSnoc(ss: seq<ForceSample>, s: ForceSample)
    ensures Accumulate(ss + [s]) == Update(Accumulate(ss), s)
  {
    assert (ss + [s])[..|ss|] == ss;
  }

  /** The values of component `c` along a sequence of samples. */
  function Project(ss: seq<ForceSample>, c: Component): seq<real> {
    seq(|ss|, i requires 0 <= i < |ss| => Reading(ss[i], c))
  }

  /** The envelope rule that component `c` follows, applied to `vs`. */
  function ComponentPeak(vs: seq<real>, c: Component): real {
    if IsShear(c) then ShearPeak(vs) else SignedPeak(vs)
  }

  /** The joint fold separates: each accumulator is its own rule folded over
      its own component alone. */
  lemma {:induction false} AccumulateByComponent(ss: seq<ForceSample>, c: Component)
    ensures Get(Accumulate(ss), c) == ComponentPeak(Project(ss, c), c)
  {
    if |ss| > 0 {
      var init := ss[..|ss| - 1];
      AccumulateByComponent(init, c);
      assert Project(ss, c)[..|ss| - 1] == Project(init, c);
    }
  }

  /** An accumulator depends only on its own component: two scans of the same
      length that agree on component `c` give the same envelope for `c`. */
  lemma ComponentIndependence(ss: seq<ForceSample>, ts: seq<ForceSample>, c: Component)
    requires |ss| == |ts|
    requires forall i :: 0 <= i < |ss| ==> Reading(ss[i], c) == Reading(ts[i], c)
    ensures Get(Accumulate(ss), c) == Get(Accumulate(ts), c)
  {
    AccumulateByComponent(ss, c);
    AccumulateByComponent(ts, c);
    assert Project(ss, c) == Project(ts, c);
  }

  /** Changing one component of one sample leaves the other four envelopes
      unchanged. */
  lemma ChangeOneComponent(ss: seq<ForceSample>, i: int, c: Component, v: real, d: Component)
    requires 0 <= i < |ss|
    requires d != c
    ensures Get(Accumulate(ss[i := WithReading(ss[i], c, v)]), d) == Get(Accumulate(ss), d)
  {
    ComponentIndependence(ss[i := WithReading(ss[i], c, v)], ss, d);
  }
}
