/** Pressure unit conversion between the five engineering units of the input form and
    absolute pascals. Gauge units add one standard atmosphere; liquid head converts through
    rho * g and then adds one atmosphere; any other unit label is passed through. */
module Units {

  /** One standard atmosphere, Pa. */
  const Atm: real := 101325.0
  /** The gravitational acceleration used for head, m/s^2. */
  const Gravity: real := 9.81
  /** The density the conversion assumes when the caller gives none, kg/m^3. */
  const DefaultDensity: real := 1000.0

  const BarG: string := "bar g"
  const BarA: string := "bar a"
  const MPaG: string := "MPa g"
  const MPaA: string := "MPa a"
  const Head: string := "m (Head)"

  /** The units the conversion recognises. */
  const KnownUnits: set<string> := {BarG, BarA, MPaG, MPaA, Head}

  /** Which branch of the conversion a unit label selects; labels are compared in the order
      bar g, bar a, MPa g, MPa a, m (Head). */
  datatype PressureUnit = BarGauge | BarAbsolute | MPaGauge | MPaAbsolute | HeadMetres | Unrecognised

  function UnitOf(unit: string): PressureUnit
  {
    if unit == BarG then BarGauge
    else if unit == BarA then BarAbsolute
    else if unit == MPaG then MPaGauge
    else if unit == MPaA then MPaAbsolute
    else if unit == Head then HeadMetres
    else Unrecognised
  }

  /** Each of the five labels selects its own branch, and only they are recognised. */
  lemma UnitNames()
    ensures UnitOf(BarG) == BarGauge && UnitOf(BarA) == BarAbsolute
    ensures UnitOf(MPaG) == MPaGauge && UnitOf(MPaA) == MPaAbsolute
    ensures UnitOf(Head) == HeadMetres
  {
  }

  lemma UnitOfKnown(unit: string)
    ensures UnitOf(unit) == Unrecognised <==> unit !in KnownUnits
  {
    UnitNames();
  }

  /** A reading `val` in `unit` as absolute pascals; `rho` is the density used for head. */
  function ConvertToPa(val: real, unit: string, rho: real): real
  {
    match UnitOf(unit)
    case BarGauge => (val + 1.01325) * 100000.0
    case BarAbsolute => val * 100000.0
    case MPaGauge => (val + 0.101325) * 1000000.0
    case MPaAbsolute => val * 1000000.0
    case HeadMetres => (val * rho * Gravity) + Atm
    case Unrecognised => val
  }

  /** Absolute pascals `pa` as a reading in `unit`; head divides by rho * g, so it needs a
      non-zero density. */
  function ConvertFromPa(pa: real, unit: string, rho: real): real
    requires unit == Head ==> rho != 0.0
  {
    match UnitOf(unit)
    case BarGauge => (pa / 100000.0) - 1.01325
    case BarAbsolute => pa / 100000.0
    case MPaGauge => (pa / 1000000.0) - 0.101325
    case MPaAbsolute => pa / 1000000.0
    case HeadMetres => (pa - Atm) / (rho * Gravity)
    case Unrecognised => pa
  }

  /** The head factor rho * g is non-zero for a non-zero density. */
  lemma HeadFactorNonZero(rho: real)
    requires rho != 0.0
    ensures rho * Gravity != 0.0
  {
  }

  lemma Regroup(val: real, rho: real)
    ensures val * rho * Gravity == val * (rho * Gravity)
  {
  }

  lemma CancelFactor(a: real, b: real)
    requires b != 0.0
    ensures (a * b) / b == a
    ensures (a / b) * b == a
  {
  }

  /** Converting a reading to pascals and back gives the reading again, for every known unit. */
  lemma RoundTrip(val: real, unit: string, rho: real)
    requires unit in KnownUnits && rho != 0.0
    ensures ConvertFromPa(ConvertToPa(val, unit, rho), unit, rho) == val
  {
    UnitNames();
    if unit == Head {
      HeadFactorNonZero(rho);
      Regroup(val, rho);
      CancelFactor(val, rho * Gravity);
    }
  }

  /** Converting pascals to a reading and back gives the pascals again, for every known unit. */
  lemma RoundTripPa(pa: real, unit: string, rho: real)
    requires unit in KnownUnits && rho != 0.0
    ensures ConvertToPa(ConvertFromPa(pa, unit, rho), unit, rho) == pa
  {
    UnitNames();
    if unit == Head {
      var h := (pa - Atm) / (rho * Gravity);
      HeadFactorNonZero(rho);
      Regroup(h, rho);
      CancelFactor(pa - Atm, rho * Gravity);
    }
  }

  /** An unrecognised unit label leaves the number unchanged in both directions. */
  lemma UnknownUnitPassesThrough(val: real, unit: string, rho: real)
    requires unit !in KnownUnits
    ensures ConvertToPa(val, unit, rho) == val
    ensures ConvertFromPa(val, unit, rho) == val
  {
    UnitOfKnown(unit);
  }

  /** A gauge reading is the absolute reading plus one atmosphere. */
  lemma GaugeIsAbsolutePlusAtm(val: real, rho: real)
    ensures ConvertToPa(val, BarG, rho) == ConvertToPa(val, BarA, rho) + Atm
    ensures ConvertToPa(val, MPaG, rho) == ConvertToPa(val, MPaA, rho) + Atm
    ensures ConvertFromPa(val, BarG, rho) == ConvertFromPa(val, BarA, rho) - Atm / 100000.0
    ensures ConvertFromPa(val, MPaG, rho) == ConvertFromPa(val, MPaA, rho) - Atm / 1000000.0
  {
    UnitNames();
  }

  /** For a known unit and a positive density, a higher reading is a higher absolute pressure:
      differences of readings scale to differences of pressures by the unit's positive factor. */
  lemma ConversionIsIncreasingAffine(a: real, b: real, unit: string, rho: real)
    requires unit in KnownUnits && rho > 0.0
    ensures ConvertToPa(b, unit, rho) - ConvertToPa(a, unit, rho) == (b - a) * PaPerUnit(unit, rho)
    ensures a < b <==> ConvertToPa(a, unit, rho) < ConvertToPa(b, unit, rho)
  {
    UnitNames();
    var f := PaPerUnit(unit, rho);
    if unit == Head {
      Regroup(a, rho);
      Regroup(b, rho);
      assert ConvertToPa(b, unit, rho) - ConvertToPa(a, unit, rho) == b * f - a * f;
    }
    assert ConvertToPa(b, unit, rho) - ConvertToPa(a, unit, rho) == (b - a) * f;
    AffineOrder(a, b, ConvertToPa(a, unit, rho), ConvertToPa(b, unit, rho), f);
  }

  /** A map that scales differences by a positive factor preserves strict order. */
  lemma AffineOrder(a: real, b: real, ca: real, cb: real, f: real)
    requires f > 0.0 && cb - ca == (b - a) * f
    ensures a < b <==> ca < cb
  {
    SignOfProduct(b - a, f);
  }

  lemma SignOfProduct(x: real, f: real)
    requires f > 0.0
    ensures x > 0.0 <==> x * f > 0.0
  {
  }

  /** Pascals per unit of reading for a known unit. */
  function PaPerUnit(unit: string, rho: real): (f: real)
    requires unit in KnownUnits
    ensures rho > 0.0 ==> f > 0.0
  {
    if unit == BarG || unit == BarA then 100000.0
    else if unit == MPaG || unit == MPaA then 1000000.0
    else rho * Gravity
  }

  /** Only head depends on the density: every other unit converts the same way whatever
      density is given. */
  lemma DensityOnlyForHead(x: real, unit: string, rho1: real, rho2: real)
    requires unit != Head
    ensures ConvertToPa(x, unit, rho1) == ConvertToPa(x, unit, rho2)
    ensures ConvertFromPa(x, unit, rho1) == ConvertFromPa(x, unit, rho2)
  {
    UnitNames();
  }

  lemma CancelCommon(a: real, b: real, c: real)
    requires b != 0.0 && c != 0.0
    ensures (a * c) / (b * c) == a / b
  {
    assert (a / b) * (b * c) == a * c;
  }

  /** A head reading converted to pascals with one density and back with another is
      rescaled by the ratio of the two densities. */
  lemma HeadRescales(h: real, rhoIn: real, rhoOut: real)
    requires rhoOut != 0.0
    ensures ConvertFromPa(ConvertToPa(h, Head, rhoIn), Head, rhoOut) == h * rhoIn / rhoOut
  {
    UnitNames();
    CancelCommon(h * rhoIn, rhoOut, Gravity);
  }
}
