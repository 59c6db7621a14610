# Timber bar force envelopes: a Dafny model

RobotImportTimberModel is a small command-line program. It reads a structure
from a running structural-analysis application and prints a JSON list with one
record per timber bar. Each record holds five force envelopes gathered over a
user-selected set of load cases:

- the major and minor bending moments,
- the major and minor shear forces,
- the axial force.

This project models the extraction loop of `Program.Main` and the `BarData`
record, and proves what that loop computes.

The model has three modules:

- `Forces` (`forces.dfy`): the native force result, the five components the
  extraction reads (MY, MZ, FZ, FY, FX), and the conversion to the reporting
  unit. The conversion divides by 1000 and rounds to two decimals. Here it is a
  parameter `convert: real -> real`, applied to each component separately.
- `Envelope` (`envelope.dfy`): the two max-magnitude rules and the fold that
  keeps all five accumulators. Moments and axial force use the signed rule: a
  new value replaces the accumulator, sign kept, only when its magnitude is
  strictly larger. Shears use the unsigned rule: the accumulator becomes the
  new magnitude when that magnitude is strictly larger.
- `Extractor` (`extractor.dfy`): the timber filter, and the scan over the five
  positions 0, 0.25, 0.5, 0.75 and 1 (outer loop) and the selected cases (inner
  loop). It also builds the per-bar `BarData` record, whose `isAxialMember` is
  always `false`, and the one-argument check of a run. `ExtractBars`,
  `ScanBar` and `ScanRow` are loop-for-loop versions of the source's loops.
  They are proved equal to the functional definitions `Extract` and `Scan`.

The application's object model becomes plain inputs:

- the bar list, as a `seq<Bar>` of a number and a material kind;
- the resolved case numbers, as a `seq<int>`;
- the force server, as a total function from (bar number, case number,
  position) to a native force result;
- the case-selection text, turned into case numbers by a function parameter
  `resolve`.

Three facts about `Program.cs` that the model keeps:

- The program accepts exactly one argument, the case selection, and fails on
  any other argument count (lines 11-14).
- `IsAxialMember` starts as `false` (line 42) and is never assigned afterwards,
  so every record carries `false`.
- The shear rule compares the new magnitude with the accumulator's absolute
  value (lines 60-61). The shear accumulator starts at 0 and only ever takes
  magnitudes, so it is never negative.

## Model

| member | source | states |
|---|---|---|
| `Forces.ToReporting` | Program.cs:50-56 | Each of the five envelope components is the conversion of its own native component: MY, MZ, FZ, FY and FX, in that order. |
| `Forces.TorsionIgnored` | Program.cs:52-56 | The converted sample does not depend on the torsion MX. |
| `Envelope.SignedPeak` | Program.cs:58-62 | The signed fold from 0 has magnitude at least that of every value. It is either 0 or one of the values with its sign kept. It is nonzero exactly when some value is nonzero. |
| `Envelope.ShearPeak` | Program.cs:60-61 | The unsigned fold from 0 is non-negative and at least every value's magnitude. It is either 0 or the magnitude of one of the values, so it is the largest magnitude, or 0 when there are no values. |
| `Envelope.SignedPeakIsFirstPeak` | Program.cs:58-62 | Because replacement is strict, on a non-empty sequence the signed fold equals the value at the first position of largest magnitude. |
| `Envelope.LastIsFirstPeak` | Program.cs:58-59 | A new value whose magnitude beats the running value becomes the first peak of the samples so far. |
| `Envelope.EarlierPeakStays` | Program.cs:58-59 | A new value that does not beat the current first peak leaves it the first peak. |
| `Envelope.FirstPeakUnique` | Program.cs:58-62 | That first position of largest magnitude is unique, so the tie-break picks one sample. |
| `Envelope.ShearPeakIsMagnitude` | Program.cs:58-61 | The unsigned shear rule gives the magnitude of what the signed rule would give on the same values. The rules differ only in the sign they keep. |
| `Envelope.AccumulateByComponent` | Program.cs:58-62 | The joint five-accumulator fold separates. Each accumulator is its own rule folded over its own component alone. |
| `Envelope.ComponentIndependence` | Program.cs:52-62 | Two sample sequences of equal length that agree on one component give the same envelope for that component. |
| `Envelope.ChangeOneComponent` | Program.cs:52-62 | Changing one component of one sample leaves the other four envelopes unchanged. |
| `Extractor.ScanOver` | Program.cs:44-50 | The scan over the positions has as many samples as positions times cases. |
| `Extractor.ScanOrder` | Program.cs:44-50 | The sample for position p and case j sits at index p * (number of cases) + j: positions outer, cases inner. |
| `Extractor.TimberIndices` | Program.cs:29-38 | Lists the positions of the timber bars: strictly increasing, each one a timber bar, and every timber bar among them. |
| `Extractor.Extract` | Program.cs:29-69 | Gives exactly as many records as there are timber positions. No record is flagged as an axial member. |
| `Extractor.ExtractFollowsTimberBars` | Program.cs:29-69 | The i-th record is the report of the i-th timber bar, in bar order. |
| `Extractor.OutputIdsFollowTimberBars` | Program.cs:29-32 | The record ids are the ids of the timber bars in input order: a subsequence of the input ids, with non-timber bars removed and nothing reordered. |
| `Extractor.ExtractBars` | Program.cs:27-70 | The bar loop as written, with skip-on-non-timber and append-per-timber-bar, computes exactly `Extract`. |
| `Extractor.ScanBar` | Program.cs:40-66 | The five accumulators reset to 0 for each bar. After the loop over positions they hold the fold of the whole scan. |
| `Extractor.ScanRow` | Program.cs:47-62 | One pass of the case loop extends the fold by that position's row of samples. |
| `Extractor.ReportFieldIsPeak` | Program.cs:41-68 | Each reported envelope is its own rule folded over its own component's readings along the scan. |
| `Extractor.FirstPeakIndexInScan` | Program.cs:44-62 | The first index of largest magnitude in the flattened readings is the first (position, case) pair of largest magnitude in scan order. |
| `Extractor.SignedEnvelopeIsFirstPeak` | Program.cs:41-62 | With at least one case, each moment and the axial envelope equal one sample, sign kept. No sample has larger magnitude. Every sample earlier in scan order has strictly smaller magnitude. The envelope is nonzero exactly when some sample is nonzero. |
| `Extractor.ShearEnvelopeIsMaxMagnitude` | Program.cs:41-61 | Each shear envelope is non-negative and at least every sample's magnitude. It is either 0 or the magnitude of some sample. |
| `Extractor.NoCasesNoForces` | Program.cs:41-47 | With an empty case list all five envelopes stay 0 and the axial-member flag is false. |
| `Extractor.ScansAgreeOn` | Program.cs:44-56 | Two force servers that agree on one component, for the selected cases at the scanned positions, give scans of equal length with the same readings of that component. |
| `Extractor.ReportComponentIndependence` | Program.cs:50-62 | Replacing the force server by one that agrees on one component, for the selected cases at the five positions, leaves that component's envelope unchanged. |
| `Extractor.TimberCount` | Program.cs:34-38 | The filter keeps as many positions as there are bars whose material is timber. |
| `Extractor.OneReportPerTimberBar` | Program.cs:34-38 | The number of records equals the number of bars whose material is timber. |
| `Extractor.DistinctIdsStayDistinct` | Program.cs:29-32 | Distinct bar numbers in the input give distinct record ids in the output. |
| `Extractor.Run` | Program.cs:11-25 | A run fails with a usage error exactly when the argument count is not 1. Otherwise it yields one record per timber bar, none flagged as an axial member. |

## Left out

- Access to the analysis application is replaced by plain inputs: the application object, the bar collection, the material label casts, the force server, the case selection and case collection. These are calls into a foreign object model.
- The syntax of the case-selection text is defined by the analysis application and cannot be seen. `resolve` stands for it.
- Forces.ToReporting: the division by 1000 and `Math.Round` to two decimals (banker's rounding on doubles) is a parameter `convert`. The model does not prove any arithmetic about it.
- Double-precision arithmetic is not modelled. Values are exact reals, so NaN and infinities do not arise. A NaN sample would never replace an accumulator in the program.
- JSON serialization and writing to the console are library calls and output, so they are not modelled.
- Run: the exception message for a wrong argument count is not modelled. Only the fact that the run fails is.
- Deflection envelopes, axial-member classification from end nodes, and section and material properties do not appear in `Program.cs`, so they are not part of this model.
