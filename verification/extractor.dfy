/**
  The per-bar envelope extraction: walk the bars in order, skip the ones that
  are not timber, scan each remaining bar at five positions for every selected
  load case, fold the samples into five envelopes and emit one report per bar.
  The analysis program's object model is replaced by plain inputs: the bar
  list, the resolved case numbers, and the force server as a total function.
 */
module Extractor {
  import opened Forces
  import opened Envelope

  /** The material type of a bar's material label. Only timber bars are
      reported. */
  datatype MaterialKind = Timber | Steel | Concrete | Aluminium | OtherMaterial

  /** A bar of the structure: its number and its material type. */
  datatype Bar = Bar(id: int, material: MaterialKind)

  /** One output record. The axial-member flag is declared but never
      computed, so it stays `false`. */
  datatype BarData = BarData(
    id: int,
    momentMajor: real,
    momentMinor: real,
    shearMajor: real,
    shearMinor: real,
    axial: real,
    isAxialMember: bool)

  /** The force server: the native bar forces of bar `barId` under case
      `caseNum` at relative position `point` along the bar. */
  type ForceServer = (int, int, real) -> NativeForces

  /** The five relative positions every bar is sampled at, in scan order. */
  const Points: seq<real> := [0.0, 0.25, 0.5, 0.75, 1.0]

  /** The envelope value of a report for component `c`. */
  function Field(d: BarData, c: Component): real {
    match c
    case MomentMajor => d.momentMajor
    case MomentMinor => d.momentMinor
    case ShearMajor => d.shearMajor
    case ShearMinor => d.shearMinor
    case Axial => d.axial
  }

  /** The converted sample of bar `barId` under case `caseNum` at `point`. */
  function Sample(server: ForceServer, convert: real -> real, barId: int, caseNum: int, point: real): ForceSample {
    ToReporting(server(barId, caseNum, point), convert)
  }

  /** The inner loop: one sample per case, in case order, at one position. */
  function Row(server: ForceServer, convert: real -> real, barId: int, cases: seq<int>, point: real): seq<ForceSample> {
    seq(|cases|, j requires 0 <= j < |cases| => Sample(server, convert, barId, cases[j], point))
  }

  /** The outer loop over `points`: the rows of the positions, one after the
      other. */
  function ScanOver(server: ForceServer, convert: real -> real, barId: int, cases: seq<int>, points: seq<real>): (ss: seq<ForceSample>)
    ensures |ss| == |points| * |cases|
  {
    if |points| == 0 then []
    else
      ScanOver(server, convert, barId, cases, points[..|points| - 1])
        + Row(server, convert, barId, cases, points[|points| - 1])
  }

  /** Every sample the extraction takes of one bar, in scan order. */
  function Scan(server: ForceServer, convert: real -> real, barId: int, cases: seq<int>): seq<ForceSample> {
    ScanOver(server, convert, barId, cases, Points)
  }

  /** The report of one timber bar: its number, its five envelopes over the
      scan, and the never-computed axial-member flag. */
  function Report(server: ForceServer, convert: real -> real, barId: int, cases: seq<int>): BarData {
    var e := Accumulate(Scan(server, convert, barId, cases));
    BarData(barId, e.momentMajor, e.momentMinor, e.shearMajor, e.shearMinor, e.axial, false)
  }

  /** The positions of the timber bars in `bars`: increasing, each one a
      timber bar, and every timber bar among them. */
  function TimberIndices(bars: seq<Bar>): (idx: seq<nat>)
    ensures forall i :: 0 <= i < |idx| ==> idx[i] < |bars| && bars[idx[i]].material == Timber
    ensures forall i, j :: 0 <= i < j < |idx| ==> idx[i] < idx[j]
    ensures forall k :: 0 <= k < |bars| && bars[k].material == Timber ==> k in idx
  {
    if |bars| == 0 then []
    else
      var init := bars[..|bars| - 1];
      var rest := TimberIndices(init);
      assert forall i :: 0 <= i < |rest| ==> bars[rest[i]] == init[rest[i]];
      if bars[|bars| - 1].material == Timber then rest + [|bars| - 1] else rest
  }

  /** The output list: one report per timber bar, so exactly as many
      records as timber bars, and no record claims to be an axial member. */
  function Extract(server: ForceServer, convert: real -> real, bars: seq<Bar>, cases: seq<int>): (out: seq<BarData>)
    ensures |out| == |TimberIndices(bars)|
    ensures forall i :: 0 <= i < |out| ==> !out[i].isAxialMember
  {
    if |bars| == 0 then []
    else
      var init := bars[..|bars| - 1];
      var b := bars[|bars| - 1];
      var rest := Extract(server, convert, init, cases);
      if b.material == Timber then rest + [Report(server, convert, b.id, cases)] else rest
  }

  /** Records follow bar order: the `i`-th record is the report of the `i`-th
      timber bar. */
  lemma {:induction false} ExtractFollowsTimberBars(server: ForceServer, convert: real -> real, bars: seq<Bar>, cases: seq<int>)
    ensures var out := Extract(server, convert, bars, cases);
      var idx := TimberIndices(bars);
      |out| == |idx| && forall i :: 0 <= i < |out| ==> out[i] == Report(server, convert, bars[idx[i]].id, cases)
  {
    if |bars| > 0 {
      var init := bars[..|bars| - 1];
      ExtractFollowsTimberBars(server, convert, init, cases);
      var idx := TimberIndices(init);
      assert forall i :: 0 <= i < |idx| ==> bars[idx[i]] == init[idx[i]];
    }
  }

  /** The extraction loop as written: bars in order, the timber check, and
      one record appended per timber bar, built from the envelopes of its
      scan and the never-computed axial-member flag. It computes exactly
      `Extract`. */
  method ExtractBars(server: ForceServer, convert: real -> real, bars: seq<Bar>, cases: seq<int>)
    returns (robotData: seq<BarData>)
    ensures robotData == Extract(server, convert, bars, cases)
  {
    robotData := [];
    var i := 0;
    while i < |bars|
      invariant 0 <= i <= |bars|
      invariant robotData == Extract(server, convert, bars[..i], cases)
    {
      assert bars[..i + 1][..i] == bars[..i];
      var bar := bars[i];
      if bar.material != Timber {
        i := i + 1;
        continue;
      }
      var e := ScanBar(server, convert, bar.id, cases);
      robotData := robotData + [BarData(bar.id, e.momentMajor, e.momentMinor, e.shearMajor, e.shearMinor, e.axial, false)];
      i := i + 1;
    }
    assert bars[..|bars|] == bars;
  }

  /** The scan of one bar as written: the accumulators start at 0 and take
      every sample, positions outer and cases inner. It ends with the
      accumulators of the whole scan. */
  method ScanBar(server: ForceServer, convert: real -> real, barId: int, cases: seq<int>)
    returns (e: Envelopes)
    ensures e == Accumulate(Scan(server, convert, barId, cases))
  {
    e := Zero;
    var p := 0;
    while p < |Points|
      invariant 0 <= p <= |Points|
      invariant e == Accumulate(ScanOver(server, convert, barId, cases, Points[..p]))
    {
      ghost var done := ScanOver(server, convert, barId, cases, Points[..p]);
      e := ScanRow(server, convert, barId, cases, Points[p], e, done);
      assert Points[..p + 1][..p] == Points[..p];
      p := p + 1;
    }
    assert Points[..|Points|] == Points;
  }

  /** The inner loop as written: the accumulators `e0`, which hold the
      envelopes of the samples `done`, take one sample per case at `point`.
      They end with the envelopes of `done` followed by that row. */
  method ScanRow(server: ForceServer, convert: real -> real, barId: int, cases: seq<int>, point: real,
                 e0: Envelopes, ghost done: seq<ForceSample>)
    returns (e: Envelopes)
    requires e0 == Accumulate(done)
    ensures e == Accumulate(done + Row(server, convert, barId, cases, point))
  {
    ghost var row := Row(server, convert, barId, cases, point);
    e := e0;
    var j := 0;
    assert done + row[..0] == done;
    while j < |cases|
      invariant 0 <= j <= |cases|
      invariant e == Accumulate(done + row[..j])
    {
      var current := Sample(server, convert, barId, cases[j], point);
      PrefixStep(done, row, j);
      AccumulateSnoc(done + row[..j], current);
      e := Update(e, current);
      j := j + 1;
    }
    assert row[..|cases|] == row;
  }

  /** Extending a prefix of `row` by one element. */
  lemma PrefixStep<T>(done: seq<T>, row: seq<T>, j: int)
    requires 0 <= j < |row|
    ensures done + row[..j + 1] == (done + row[..j]) + [row[j]]
  {
    assert row[..j + 1] == row[..j] + [row[j]];
  }

  /** Sample `j` of the row at position `p` sits at index `p * |cases| + j`
      of the scan: positions outer, cases inner. */
  lemma {:induction false} ScanOrder(server: ForceServer, convert: real -> real, barId: int, cases: seq<int>, points: seq<real>, p: int, j: int)
    requires 0 <= p < |points| && 0 <= j < |cases|
    ensures 0 <= p * |cases| + j < |ScanOver(server, convert, barId, cases, points)|
    ensures ScanOver(server, convert, barId, cases, points)[p * |cases| + j]
      == Sample(server, convert, barId, cases[j], points[p])
  {
    var n := |points|;
    var init := points[..n - 1];
    var prefix := ScanOver(server, convert, barId, cases, init);
    IndexBound(p, j, n, |cases|);
    if p < n - 1 {
      ScanOrder(server, convert, barId, cases, init, p, j);
      IndexBound(p, j, n - 1, |cases|);
    } else {
      assert |prefix| == p * |cases|;
    }
  }

  /** A position-major index stays inside the scan. */
  lemma IndexBound(p: int, j: int, m: int, n: int)
    requires 0 <= p < m && 0 <= j < n
    ensures 0 <= p * n + j < m * n
  {
    assert p * n + j < p * n + n == (p + 1) * n;
    assert (p + 1) * n <= m * n;
  }

  /** An earlier (position, case) pair in scan order has a smaller index. */
  lemma IndexBefore(p1: int, j1: int, p2: int, j2: int, n: int)
    requires 0 <= p1 && 0 <= j1 < n && 0 <= p2 && 0 <= j2 < n
    requires p1 < p2 || (p1 == p2 && j1 < j2)
    ensures p1 * n + j1 < p2 * n + j2
  {
    if p1 < p2 {
      assert p1 * n + j1 < (p1 + 1) * n;
      assert (p1 + 1) * n <= p2 * n;
    }
  }

  /** Every scan index splits into a (position, case) pair. */
  lemma SplitIndex(k: int, m: int, n: int) returns (p: int, j: int)
    requires 0 < n && 0 <= k < m * n
    ensures 0 <= p < m && 0 <= j < n && k == p * n + j
  {
    p, j := k / n, k % n;
    assert p < m by {
      if p >= m {
        MulMonotone(m, p, n);
        assert false;
      }
    }
  }

  lemma MulMonotone(a: int, b: int, n: int)
    requires a <= b && 0 <= n
    ensures a * n <= b * n
  {
    assert b * n == a * n + (b - a) * n;
  }

  /** The converted component `c` of the sample at position `Points[p]`
      under case `cases[j]`. */
  function ReadingAt(server: ForceServer, convert: real -> real, barId: int, cases: seq<int>, c: Component, p: int, j: int): real
    requires 0 <= p < |Points| && 0 <= j < |cases|
  {
    Reading(Sample(server, convert, barId, cases[j], Points[p]), c)
  }

  /** The readings of component `c` along the scan, by (position, case). */
  lemma ProjectedScanAt(server: ForceServer, convert: real -> real, barId: int, cases: seq<int>, c: Component, p: int, j: int)
    requires 0 <= p < |Points| && 0 <= j < |cases|
    ensures 0 <= p * |cases| + j < |Scan(server, convert, barId, cases)|
    ensures Project(Scan(server, convert, barId, cases), c)[p * |cases| + j] == ReadingAt(server, convert, barId, cases, c, p, j)
  {
    ScanOrder(server, convert, barId, cases, Points, p, j);
  }

  /** Pair (p1, j1) comes strictly before pair (p2, j2) in scan order:
      positions outer, cases inner. */
  predicate ScanBefore(p1: int, j1: int, p2: int, j2: int) {
    p1 < p2 || (p1 == p2 && j1 < j2)
  }

  /** `r` is the reading of component `c` at pair (p, j) of the scan, no
      reading of `c` is larger in magnitude, and every reading earlier in
      scan order is strictly smaller in magnitude. */
  ghost predicate FirstPeakInScan(server: ForceServer, convert: real -> real, barId: int, cases: seq<int>, c: Component, r: real, p: int, j: int) {
    && 0 <= p < |Points| && 0 <= j < |cases|
    && r == ReadingAt(server, convert, barId, cases, c, p, j)
    && (forall p1, j1 :: 0 <= p1 < |Points| && 0 <= j1 < |cases| ==>
          Abs(ReadingAt(server, convert, barId, cases, c, p1, j1)) <= Abs(r))
    && (forall p1, j1 :: 0 <= p1 < |Points| && 0 <= j1 < |cases| && ScanBefore(p1, j1, p, j) ==>
          Abs(ReadingAt(server, convert, barId, cases, c, p1, j1)) < Abs(r))
  }

  /** The first index of largest magnitude in the flattened readings of `c`
      is the first pair of largest magnitude in scan order. */
  lemma FirstPeakIndexInScan(server: ForceServer, convert: real -> real, barId: int, cases: seq<int>, c: Component, k: int)
    returns (p: int, j: int)
    requires |cases| > 0 && FirstPeakAt(Project(Scan(server, convert, barId, cases), c), k)
    ensures FirstPeakInScan(server, convert, barId, cases, c, Project(Scan(server, convert, barId, cases), c)[k], p, j)
  {
    var n := |cases|;
    var vs := Project(Scan(server, convert, barId, cases), c);
    p, j := SplitIndex(k, |Points|, n);
    ProjectedScanAt(server, convert, barId, cases, c, p, j);
    forall p1, j1 | 0 <= p1 < |Points| && 0 <= j1 < n
      ensures Abs(ReadingAt(server, convert, barId, cases, c, p1, j1)) <= Abs(vs[k])
      ensures ScanBefore(p1, j1, p, j) ==> Abs(ReadingAt(server, convert, barId, cases, c, p1, j1)) < Abs(vs[k])
    {
      ProjectedScanAt(server, convert, barId, cases, c, p1, j1);
      if ScanBefore(p1, j1, p, j) {
        IndexBefore(p1, j1, p, j, n);
      }
    }
  }

  /** The reported envelope of `c` is its rule folded over the readings of
      `c` along the scan. */
  lemma ReportFieldIsPeak(server: ForceServer, convert: real -> real, barId: int, cases: seq<int>, c: Component)
    ensures Field(Report(server, convert, barId, cases), c)
      == ComponentPeak(Project(Scan(server, convert, barId, cases), c), c)
  {
    AccumulateByComponent(Scan(server, convert, barId, cases), c);
  }

  /** The signed envelopes (both moments and the axial force). With at least
      one case, the reported value is exactly the sample, sign kept, taken at
      the first pair in scan order whose magnitude is largest: no sample is
      larger in magnitude and every earlier one is strictly smaller. It is
      nonzero exactly when some sample is nonzero. */
  lemma SignedEnvelopeIsFirstPeak(server: ForceServer, convert: real -> real, barId: int, cases: seq<int>, c: Component)
    requires !IsShear(c) && |cases| > 0
    ensures var r := Field(Report(server, convert, barId, cases), c);
      exists p, j :: FirstPeakInScan(server, convert, barId, cases, c, r, p, j)
    ensures var r := Field(Report(server, convert, barId, cases), c);
      r != 0.0 <==> exists p, j :: 0 <= p < |Points| && 0 <= j < |cases| && ReadingAt(server, convert, barId, cases, c, p, j) != 0.0
  {
    var vs := Project(Scan(server, convert, barId, cases), c);
    var r := Field(Report(server, convert, barId, cases), c);
    ReportFieldIsPeak(server, convert, barId, cases, c);
    SignedPeakIsFirstPeak(vs);
    var k :| FirstPeakAt(vs, k) && r == vs[k];
    var p, j := FirstPeakIndexInScan(server, convert, barId, cases, c, k);
    assert FirstPeakInScan(server, convert, barId, cases, c, r, p, j);
  }

  /** The shear envelopes: never negative, at least the magnitude of every
      sample of their component, and either 0 or the magnitude of one of
      them; so they are the largest magnitude seen, or 0 without samples. */
  lemma ShearEnvelopeIsMaxMagnitude(server: ForceServer, convert: real -> real, barId: int, cases: seq<int>, c: Component)
    requires IsShear(c)
    ensures var r := Field(Report(server, convert, barId, cases), c);
      && r >= 0.0
      && (forall p, j :: 0 <= p < |Points| && 0 <= j < |cases| ==>
            Abs(ReadingAt(server, convert, barId, cases, c, p, j)) <= r)
      && (r == 0.0 ||
            exists p, j :: 0 <= p < |Points| && 0 <= j < |cases| && r == Abs(ReadingAt(server, convert, barId, cases, c, p, j)))
  {
    var n := |cases|;
    var ss := Scan(server, convert, barId, cases);
    var vs := Project(ss, c);
    var r := Field(Report(server, convert, barId, cases), c);
    AccumulateByComponent(ss, c);
    assert r == ShearPeak(vs);
    forall p, j | 0 <= p < |Points| && 0 <= j < n
      ensures Abs(ReadingAt(server, convert, barId, cases, c, p, j)) <= r
    {
      ProjectedScanAt(server, convert, barId, cases, c, p, j);
    }
    if r != 0.0 {
      var k :| 0 <= k < |vs| && r == Abs(vs[k]);
      var p, j := SplitIndex(k, |Points|, n);
      ProjectedScanAt(server, convert, barId, cases, c, p, j);
    }
  }

  /** With no load case selected there are no samples, and all five
      envelopes keep their initial 0. */
  lemma NoCasesNoForces(server: ForceServer, convert: real -> real, barId: int)
    ensures Report(server, convert, barId, []) == BarData(barId, 0.0, 0.0, 0.0, 0.0, 0.0, false)
  {
    assert Scan(server, convert, barId, []) == [];
  }

  /** Two force servers that agree on component `c` for the selected cases
      at the given positions of the bar yield the same scan readings of `c`. */
  lemma {:induction false} ScansAgreeOn(server1: ForceServer, server2: ForceServer, convert: real -> real, barId: int, cases: seq<int>, points: seq<real>, c: Component)
    requires forall k, pt :: k in cases && pt in points ==>
      NativeReading(server1(barId, k, pt), c) == NativeReading(server2(barId, k, pt), c)
    ensures var ss := ScanOver(server1, convert, barId, cases, points);
      var ts := ScanOver(server2, convert, barId, cases, points);
      |ss| == |ts| && forall i :: 0 <= i < |ss| ==> Reading(ss[i], c) == Reading(ts[i], c)
  {
    if |points| > 0 {
      var init := points[..|points| - 1];
      assert forall pt :: pt in init ==> pt in points;
      ScansAgreeOn(server1, server2, convert, barId, cases, init, c);
    }
  }

  /** Each envelope depends only on its own force component: replacing the
      force server by one that agrees on component `c` for the selected cases
      at the five positions leaves the envelope of `c` unchanged, whatever
      happens to the other four components or anywhere else. */
  lemma ReportComponentIndependence(server1: ForceServer, server2: ForceServer, convert: real -> real, barId: int, cases: seq<int>, c: Component)
    requires forall k, pt :: k in cases && pt in Points ==> NativeReading(server1(barId, k, pt), c) == NativeReading(server2(barId, k, pt), c)
    ensures Field(Report(server1, convert, barId, cases), c) == Field(Report(server2, convert, barId, cases), c)
  {
    ScansAgreeOn(server1, server2, convert, barId, cases, Points, c);
    ComponentIndependence(Scan(server1, convert, barId, cases), Scan(server2, convert, barId, cases), c);
  }

  /** The material types of the bars, in order. */
  function Materials(bars: seq<Bar>): seq<MaterialKind> {
    seq(|bars|, i requires 0 <= i < |bars| => bars[i].material)
  }

  /** There are exactly as many timber positions as bars whose material is
      timber. */
  lemma {:induction false} TimberCount(bars: seq<Bar>)
    ensures |TimberIndices(bars)| == multiset(Materials(bars))[Timber]
  {
    if |bars| > 0 {
      var init := bars[..|bars| - 1];
      TimberCount(init);
      assert Materials(bars) == Materials(init) + [bars[|bars| - 1].material];
      assert multiset(Materials(bars)) == multiset(Materials(init)) + multiset{bars[|bars| - 1].material};
    }
  }

  /** The output has exactly as many records as there are timber bars. */
  lemma OneReportPerTimberBar(server: ForceServer, convert: real -> real, bars: seq<Bar>, cases: seq<int>)
    ensures |Extract(server, convert, bars, cases)| == multiset(Materials(bars))[Timber]
  {
    TimberCount(bars);
  }

  /** The output bar numbers are the numbers of the timber bars, in bar
      order: a subsequence of the input numbers with the non-timber bars
      removed and nothing reordered. */
  lemma OutputIdsFollowTimberBars(server: ForceServer, convert: real -> real, bars: seq<Bar>, cases: seq<int>)
    ensures var out := Extract(server, convert, bars, cases);
      var idx := TimberIndices(bars);
      |out| == |idx| && forall i :: 0 <= i < |out| ==> out[i].id == bars[idx[i]].id
  {
    ExtractFollowsTimberBars(server, convert, bars, cases);
  }

  /** Bar numbers that are distinct in the input stay distinct in the
      output. */
  lemma DistinctIdsStayDistinct(server: ForceServer, convert: real -> real, bars: seq<Bar>, cases: seq<int>)
    requires forall i, j :: 0 <= i < j < |bars| ==> bars[i].id != bars[j].id
    ensures var out := Extract(server, convert, bars, cases);
      forall i, j :: 0 <= i < j < |out| ==> out[i].id != out[j].id
  {
    OutputIdsFollowTimberBars(server, convert, bars, cases);
  }

  /** The outcome of a run: the report list, or the usage error raised when
      the argument count is wrong. */
  datatype Outcome = Reports(data: seq<BarData>) | UsageError

  /** A whole run. Exactly one argument, the case selection text, is accepted;
      `resolve` stands for the analysis program turning that text into case
      numbers. */
  function Run(args: seq<string>, resolve: string -> seq<int>, server: ForceServer, convert: real -> real, bars: seq<Bar>): (r: Outcome)
    ensures r.UsageError? <==> |args| != 1
    ensures r.Reports? ==> |r.data| == |TimberIndices(bars)|
    ensures r.Reports? ==> forall i :: 0 <= i < |r.data| ==> !r.data[i].isAxialMember
  {
    if |args| != 1 then UsageError
    else Reports(Extract(server, convert, bars, resolve(args[0])))
  }
}
