/** Option and Result: a value that may be absent, and a value or the error that stopped it. */
module Wrappers {

  datatype Option<+T> = None | Some(value: T)

  datatype Result<+T, +E> = Success(value: T) | Failure(error: E)
}

/** The user-defined network node and the external collaborators the calculation consults. */
module Segments {
  import opened Tables

  /** The parent label that marks a segment fed from outside the network. */
  const Root: string := "None (Root)"

  /** One pipe segment as the input form records it: its name, its upstream segment (or
      `Root`), its inlet pressure reading and unit, its flow reading and flow type ("Mass
      (kg/h)" or "Vol (m³/h)"), temperature in °C, material name, size label preference
      ("NPS (inch)" or "DN (mm)"), length in m, schedule key, velocity limit in m/s and the
      count of each fitting kind. */
  datatype Segment = Segment(
    name: string,
    parent: string,
    pUnit: string,
    pVal: real,
    fType: string,
    fVal: real,
    temp: real,
    mat: string,
    sizeUnit: string,
    length: real,
    sch: string,
    vLimit: real,
    fCounts: map<string, int>)

  /** The keys the calculation looks up exist: the material is in the material table, the
      schedule is one of the table's columns and every fitting kind has a count. The input
      form only ever offers these keys. */
  predicate WellFormed(seg: Segment)
  {
    && seg.mat in MaterialDb
    && seg.sch in Schedules
    && forall i | 0 <= i < |KFactors| :: KFactors[i].0 in seg.fCounts
  }

  /** Every fitting count is non-negative (the form's fitting inputs have minimum 0). */
  predicate CountsNonNegative(seg: Segment)
  {
    forall i | 0 <= i < |KFactors| :: KFactors[i].0 in seg.fCounts ==> seg.fCounts[KFactors[i].0] >= 0
  }

  /** The numerical collaborators the calculation calls but does not define: water density
      (kg/m^3) and dynamic viscosity (Pa s) at a temperature in K and a pressure in Pa, and
      the turbulent friction term log10((rr / 3.7)^1.11 + 6.9 / Re) as a function of
      relative roughness and Reynolds number. */
  datatype Physics = Physics(
    density: (real, real) -> real,
    viscosity: (real, real) -> real,
    colebrookLog: (real, real) -> real)

  /** The property provider returns positive densities and viscosities. */
  ghost predicate PhysicsValid(phys: Physics)
  {
    && (forall t, p :: phys.density(t, p) > 0.0)
    && (forall t, p :: phys.viscosity(t, p) > 0.0)
  }

  /** The divisions by zero the calculation can reach: the minimum-thickness denominator
      2 * (S + P * 0.4), and the turbulent friction term when its logarithm is zero. */
  datatype CalcError = ThicknessDivisionByZero | FrictionDivisionByZero
}
