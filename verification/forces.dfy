/**
  Force results as the analysis program's bar-force server reports them, and
  the five components the envelope extraction reads from each of them.
 */
module Forces {

  /** One bar-force result at a (bar, case, position) triple, in the analysis
      program's native units: axial force FX, shear forces FY and FZ, torsion
      MX and bending moments MY and MZ. */
  datatype NativeForces = NativeForces(fx: real, fy: real, fz: real, mx: real, my: real, mz: real)

  /** The five components the extraction keeps, already converted to the
      reporting unit. Torsion is never read. */
  datatype ForceSample = ForceSample(my: real, mz: real, fz: real, fy: real, fx: real)

  /** The five envelopes of a bar report, each fed by one force component. */
  datatype Component = MomentMajor | MomentMinor | ShearMajor | ShearMinor | Axial

  /** Shears keep an unsigned envelope; moments and axial force a signed one. */
  predicate IsShear(c: Component) {
    c == ShearMajor || c == ShearMinor
  }

  /** The component of a converted sample that feeds envelope `c`:
      MY, MZ, FZ, FY and FX respectively. */
  function Reading(s: ForceSample, c: Component): real {
    match c
    case MomentMajor => s.my
    case MomentMinor => s.mz
    case ShearMajor => s.fz
    case ShearMinor => s.fy
    case Axial => s.fx
  }

  /** The same choice of component, on a native result. */
  function NativeReading(f: NativeForces, c: Component): real {
    match c
    case MomentMajor => f.my
    case MomentMinor => f.mz
    case ShearMajor => f.fz
    case ShearMinor => f.fy
    case Axial => f.fx
  }

  /** Converts a native result to the reporting unit. `convert` stands for the
      division by 1000 followed by rounding to two decimals; it is applied to
      each of the five consumed components on its own. */
  function ToReporting(f: NativeForces, convert: real -> real): (s: ForceSample)
    ensures forall c :: Reading(s, c) == convert(NativeReading(f, c))
  {
    ForceSample(convert(f.my), convert(f.mz), convert(f.fz), convert(f.fy), convert(f.fx))
  }

  /** The converted sample does not depend on torsion. */
  lemma TorsionIgnored(f: NativeForces, t: real, convert: real -> real)
    ensures ToReporting(f.(mx := t), convert) == ToReporting(f, convert)
  {
  }

  /** A sample with the one component `c` replaced by `v`. */
  function WithReading(s: ForceSample, c: Component, v: real): (r: ForceSample)
    ensures Reading(r, c) == v
    ensures forall d :: d != c ==> Reading(r, d) == Reading(s, d)
  {
    match c
    case MomentMajor => s.(my := v)
    case MomentMinor => s.(mz := v)
    case ShearMajor => s.(fz := v)
    case ShearMinor => s.(fy := v)
    case Axial => s.(fx := v)
  }
}
