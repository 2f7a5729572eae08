/** The per-segment sizing rule: scan the pipe table in ascending size, take the first entry
    whose velocity is within the segment's limit and whose schedule wall is at least the
    pressure-design minimum, and compute that pipe's Darcy-Weisbach loss with fittings. */
module Sizing {
  import opened Wrappers
  import opened Text
  import opened Tables
  import opened Segments

  /** `math.pi` as the double the calculation uses. */
  const Pi: real := 3.141592653589793
  /** Pascals per psi, for the allowable stresses of the material table. */
  const PsiToPa: real := 6894.76
  /** The fixed y coefficient of the thickness formula (the material's own `y` is not read). */
  const ThicknessY: real := 0.4
  /** The allowance added to the pressure-design thickness, mm. */
  const ThicknessAllowance: real := 1.5
  /** Reynolds numbers above this are treated as turbulent. */
  const LaminarLimit: real := 2300.0

  /** The size a segment reports: none found, or the chosen entry's NPS or DN label. */
  datatype SizeLabel = NotApplicable | Nps(nps: string) | Dn(dn: nat)

  /** The outcome of sizing one segment: its label, velocity (m/s), friction and fitting loss
      (Pa), and the index of the chosen table entry (`None` when no entry qualified). */
  datatype Selection = Selection(size: SizeLabel, velocity: real, lossPa: real, entry: Option<nat>)

  /** What the selection test depends on: volumetric flow (m^3/s), inlet pressure (Pa),
      schedule key, velocity limit (m/s) and allowable stress (Pa). */
  datatype Duty = Duty(flow: real, inletPa: real, sch: string, vLimit: real, stressPa: real)

  /** The inner diameter (m) of table entry `k` in schedule `sch`; always positive. */
  function Bore(k: nat, sch: string): (id: real)
    requires k < |PipeData| && sch in Schedules
    ensures id > 0.0
    ensures id * 1000.0 + 2.0 * Thickness(PipeData[k], sch) == PipeData[k].od
  {
    ThicknessInRange(k, sch);
    (PipeData[k].od - 2.0 * Thickness(PipeData[k], sch)) / 1000.0
  }

  /** The product a * b, kept as a function so that facts about squares survive. */
  function Mul(a: real, b: real): real
  {
    a * b
  }

  lemma MulOfPositives(a: real, b: real)
    requires a > 0.0 && b > 0.0
    ensures Mul(a, b) > 0.0
  {
  }

  lemma MulOfNegatives(a: real, b: real)
    requires a < 0.0 && b < 0.0
    ensures Mul(a, b) > 0.0
  {
  }

  /** x ** 2: never negative, and positive away from zero. */
  function Square(x: real): (r: real)
    ensures r >= 0.0
    ensures x != 0.0 ==> r > 0.0
  {
    if x > 0.0 then MulOfPositives(x, x); Mul(x, x)
    else if x < 0.0 then MulOfNegatives(x, x); Mul(x, x)
    else Mul(x, x)
  }

  /** Cross-section (m^2) of a bore of diameter `idM` (m). */
  function FlowArea(idM: real): (a: real)
    requires idM > 0.0
    ensures a > 0.0
  {
    Pi * Square(idM) / 4.0
  }

  /** Mean velocity (m/s) of flow `q` (m^3/s) in a bore of diameter `idM` (m). */
  function Velocity(q: real, idM: real): (v: real)
    requires idM > 0.0
    ensures v * FlowArea(idM) == q
  {
    q / FlowArea(idM)
  }

  lemma MulGrows(a: real, b: real, c: real)
    requires 0.0 < a < b && c > 0.0
    ensures Mul(a, c) < Mul(b, c)
  {
    MulOfPositives(b - a, c);
    assert Mul(b - a, c) == Mul(b, c) - Mul(a, c);
  }

  /** A wider bore has a larger flow area. */
  lemma FlowAreaGrows(d1: real, d2: real)
    requires 0.0 < d1 < d2
    ensures FlowArea(d1) < FlowArea(d2)
  {
    MulGrows(d1, d2, d1);
    MulGrows(d1, d2, d2);
    assert Mul(d1, d2) == Mul(d2, d1);
    assert Square(d1) < Square(d2);
  }

  /** The same positive flow is slower in a wider bore. */
  lemma VelocityFalls(q: real, d1: real, d2: real)
    requires q > 0.0 && 0.0 < d1 < d2
    ensures Velocity(q, d2) < Velocity(q, d1)
  {
    var a1, a2 := FlowArea(d1), FlowArea(d2);
    FlowAreaGrows(d1, d2);
    var v1, v2 := Velocity(q, d1), Velocity(q, d2);
    assert v1 * a1 == q && v2 * a2 == q;
    assert v1 > 0.0 && v2 > 0.0;
    assert Mul(v2, a1) < Mul(v2, a2) by {
      assert Mul(a1, v2) < Mul(a2, v2) by { MulGrows(a1, a2, v2); }
    }
    if v1 <= v2 {
      assert Mul(v1, a1) <= Mul(v2, a1) by {
        if v1 < v2 { MulGrows(v1, v2, a1); }
      }
      assert false;
    }
  }

  /** For a positive flow the velocity strictly falls along the table in every schedule,
      because each pipe has a wider bore than the one before it. */
  lemma VelocityFallsAlongTable(q: real, sch: string, j: nat, k: nat)
    requires q > 0.0 && sch in Schedules && j < k < |PipeData|
    ensures Velocity(q, Bore(k, sch)) < Velocity(q, Bore(j, sch))
  {
    BoreGrowsAlongTable(j, k, sch);
    VelocityFalls(q, Bore(j, sch), Bore(k, sch));
  }

  /** The denominator 2 * (S + P * y) of the minimum-thickness formula. */
  function ThicknessDenominator(d: Duty): real
  {
    2.0 * (d.stressPa + d.inletPa * ThicknessY)
  }

  /** Minimum wall thickness (mm) for outer diameter `od` (mm) under the duty's pressure. */
  function MinThickness(d: Duty, od: real): real
    requires ThicknessDenominator(d) != 0.0
  {
    (d.inletPa * od) / ThicknessDenominator(d) + ThicknessAllowance
  }

  /** Table entry `k` meets both tests: velocity within the limit and wall thick enough. */
  predicate Fits(d: Duty, k: nat)
    requires d.sch in Schedules && ThicknessDenominator(d) != 0.0 && k < |PipeData|
  {
    && Velocity(d.flow, Bore(k, d.sch)) <= d.vLimit
    && Thickness(PipeData[k], d.sch) >= MinThickness(d, PipeData[k].od)
  }

  /** The first entry at or after `from` that fits, scanning in table order. */
  function FirstFit(d: Duty, from: nat): (r: Option<nat>)
    requires d.sch in Schedules && ThicknessDenominator(d) != 0.0 && from <= |PipeData|
    ensures r.Some? ==> from <= r.value < |PipeData| && Fits(d, r.value)
    ensures r.Some? ==> forall j | from <= j < r.value :: !Fits(d, j)
    ensures r.None? ==> forall j | from <= j < |PipeData| :: !Fits(d, j)
    decreases |PipeData| - from
  {
    if from == |PipeData| then None
    else if Fits(d, from) then Some(from)
    else FirstFit(d, from + 1)
  }

  /** An entry that fits, with no fitting entry before it, is the first fit. */
  lemma FirstFitIs(d: Duty, k: nat)
    requires d.sch in Schedules && ThicknessDenominator(d) != 0.0 && k < |PipeData|
    requires Fits(d, k) && forall j | 0 <= j < k :: !Fits(d, j)
    ensures FirstFit(d, 0) == Some(k)
  {
  }

  /** When no entry fits there is no first fit. */
  lemma NoFit(d: Duty)
    requires d.sch in Schedules && ThicknessDenominator(d) != 0.0
    requires forall j | 0 <= j < |PipeData| :: !Fits(d, j)
    ensures FirstFit(d, 0) == None
  {
  }

  /** An entry that fits under a velocity limit fits under any looser one. */
  lemma FitsLooser(d: Duty, w: real, k: nat)
    requires d.sch in Schedules && ThicknessDenominator(d) != 0.0 && k < |PipeData|
    requires w <= d.vLimit && Fits(d.(vLimit := w), k)
    ensures Fits(d, k)
  {
  }

  function Max(a: real, b: real): real
  {
    if a >= b then a else b
  }

  /** The Darcy friction factor at Reynolds number `re` and relative roughness `rr`: laminar
      64 / max(Re, 1) up to the laminar limit, otherwise (1 / (-1.8 L))^2 where L is the
      logarithmic term; `None` when L is zero (a division by zero). */
  function Friction(re: real, rr: real, phys: Physics): (r: Option<real>)
    ensures r.None? <==> re > LaminarLimit && phys.colebrookLog(rr, re) == 0.0
    ensures r.Some? ==> r.value > 0.0
  {
    if re > LaminarLimit then
      var l := phys.colebrookLog(rr, re);
      if l == 0.0 then None
      else
        Some(Square(1.0 / (-1.8 * l)))
    else Some(64.0 / Max(re, 1.0))
  }

  /** The summed loss coefficient: for each fitting kind in `ks`, its count times its K. */
  function TotalK(counts: map<string, int>, ks: seq<(string, real)>): real
    requires forall i | 0 <= i < |ks| :: ks[i].0 in counts
  {
    if ks == [] then 0.0 else counts[ks[0].0] as real * ks[0].1 + TotalK(counts, ks[1..])
  }

  /** With non-negative counts and coefficients the total loss coefficient is non-negative. */
  lemma {:induction false} TotalKNonNegative(counts: map<string, int>, ks: seq<(string, real)>)
    requires forall i | 0 <= i < |ks| :: ks[i].0 in counts && counts[ks[i].0] >= 0 && ks[i].1 >= 0.0
    ensures TotalK(counts, ks) >= 0.0
  {
    if ks != [] {
      TotalKNonNegative(counts, ks[1..]);
      assert counts[ks[0].0] as real * ks[0].1 >= 0.0;
    }
  }

  /** A segment without fittings has a zero loss coefficient. */
  lemma {:induction false} TotalKWithoutFittings(counts: map<string, int>, ks: seq<(string, real)>)
    requires forall i | 0 <= i < |ks| :: ks[i].0 in counts && counts[ks[i].0] == 0
    ensures TotalK(counts, ks) == 0.0
  {
    if ks != [] {
      TotalKWithoutFittings(counts, ks[1..]);
    }
  }

  /** Darcy-Weisbach with fittings: (f L / D + sum K) * rho v^2 / 2, in Pa. */
  function DarcyLoss(f: real, length: real, idM: real, k: real, rho: real, v: real): real
    requires idM > 0.0
  {
    (f * (length / idM) + k) * (rho * Square(v) / 2.0)
  }

  /** Non-negative friction, length, coefficient and density give a non-negative loss. */
  lemma LossNonNegative(f: real, length: real, idM: real, k: real, rho: real, v: real)
    requires f >= 0.0 && length >= 0.0 && idM > 0.0 && k >= 0.0 && rho >= 0.0
    ensures DarcyLoss(f, length, idM, k, rho, v) >= 0.0
  {
    assert length / idM >= 0.0;
    assert f * (length / idM) >= 0.0;
    assert rho * Square(v) >= 0.0;
  }

  /** With flow present, a longer pipe strictly increases the loss. */
  lemma LossIncreasesWithLength(f: real, l1: real, l2: real, idM: real, k: real, rho: real, v: real)
    requires f > 0.0 && l1 < l2 && idM > 0.0 && rho > 0.0 && v != 0.0
    ensures DarcyLoss(f, l1, idM, k, rho, v) < DarcyLoss(f, l2, idM, k, rho, v)
  {
    var dyn := rho * Square(v) / 2.0;
    assert dyn > 0.0;
    assert l1 / idM < l2 / idM;
    assert f * (l1 / idM) < f * (l2 / idM);
    assert (f * (l1 / idM) + k) * dyn < (f * (l2 / idM) + k) * dyn;
  }

  /** The selection duty of a segment with inlet `inP` (Pa) and volumetric flow `q` (m^3/s). */
  function DutyOf(seg: Segment, inP: real, q: real): Duty
    requires WellFormed(seg)
  {
    Duty(q, inP, seg.sch, seg.vLimit, MaterialDb[seg.mat].stress * PsiToPa)
  }

  /** The label of entry `p` in the segment's preferred size unit. */
  function Label(seg: Segment, p: PipeEntry): SizeLabel
  {
    if Contains(seg.sizeUnit, "NPS") then Nps(p.nps) else Dn(p.dn)
  }

  /** The two size-unit options of the input form: "NPS (inch)" labels by NPS, "DN (mm)" by
      DN. */
  lemma LabelOptions(seg: Segment, p: PipeEntry)
    ensures seg.sizeUnit == "NPS (inch)" ==> Label(seg, p) == Nps(p.nps)
    ensures seg.sizeUnit == "DN (mm)" ==> Label(seg, p) == Dn(p.dn)
  {
    assert StartsWith("NPS (inch)", "NPS");
    MissingChar("DN (mm)", "NPS", 2);
  }

  /** Reynolds number of flow at velocity `v` (m/s) in bore `idM` (m). */
  function Reynolds(rho: real, v: real, idM: real, mu: real): real
    requires mu != 0.0
  {
    (rho * v * idM) / mu
  }

  /** Relative roughness of the segment's material in bore `idM` (m). */
  function RelativeRoughness(seg: Segment, idM: real): real
    requires WellFormed(seg) && idM > 0.0
  {
    MaterialDb[seg.mat].roughness / (idM * 1000.0)
  }

  /** The friction factor of segment `seg` in table entry `k`. */
  function EntryFriction(seg: Segment, k: nat, rho: real, mu: real, q: real, phys: Physics): Option<real>
    requires WellFormed(seg) && k < |PipeData| && mu != 0.0
  {
    var idM := Bore(k, seg.sch);
    Friction(Reynolds(rho, Velocity(q, idM), idM, mu), RelativeRoughness(seg, idM), phys)
  }

  /** The loss (Pa) of segment `seg` through table entry `k` at density `rho`, viscosity `mu`
      and flow `q`; fails only when the turbulent friction term divides by zero. */
  function EntryLoss(seg: Segment, k: nat, rho: real, mu: real, q: real, phys: Physics): Result<real, CalcError>
    requires WellFormed(seg) && k < |PipeData| && mu != 0.0
  {
    var f := EntryFriction(seg, k, rho, mu, q, phys);
    if f.None? then Failure(FrictionDivisionByZero)
    else
      var idM := Bore(k, seg.sch);
      Success(DarcyLoss(f.value, seg.length, idM, TotalK(seg.fCounts, KFactors), rho, Velocity(q, idM)))
  }

  /** Sizing of segment `seg`: the first table entry that fits, its velocity and loss; the
      "N/A" outcome with zero velocity and loss when none fits. */
  function Size(seg: Segment, inP: real, rho: real, mu: real, q: real, phys: Physics): Result<Selection, CalcError>
    requires WellFormed(seg) && mu != 0.0
  {
    var d := DutyOf(seg, inP, q);
    if ThicknessDenominator(d) == 0.0 then Failure(ThicknessDivisionByZero)
    else match FirstFit(d, 0)
      case None => Success(Selection(NotApplicable, 0.0, 0.0, None))
      case Some(k) =>
        match EntryLoss(seg, k, rho, mu, q, phys)
        case Failure(e) => Failure(e)
        case Success(dp) => Success(Selection(Label(seg, PipeData[k]), Velocity(q, Bore(k, seg.sch)), dp, Some(k)))
  }

  /** The sizing loop: scan the table in order, stop at the first entry that passes both the
      velocity and the thickness test, and compute its velocity and loss. */
  method SelectPipe(seg: Segment, inP: real, rho: real, mu: real, q: real, phys: Physics)
    returns (r: Result<Selection, CalcError>)
    requires WellFormed(seg) && mu != 0.0
    ensures r == Size(seg, inP, rho, mu, q, phys)
  {
    ghost var d := DutyOf(seg, inP, q);
    var bestSize := NotApplicable;
    var actV := 0.0;
    var dpPa := 0.0;
    var entry: Option<nat> := None;
    var i := 0;
    while i < |PipeData|
      invariant 0 <= i <= |PipeData|
      invariant i > 0 ==> ThicknessDenominator(d) != 0.0
      invariant i > 0 ==> forall j | 0 <= j < i :: !Fits(d, j)
      invariant bestSize == NotApplicable && actV == 0.0 && dpPa == 0.0 && entry == None
    {
      var p := PipeData[i];
      var thk := Thickness(p, seg.sch);
      var idM := Bore(i, seg.sch);
      var v := Velocity(q, idM);
      var sPa := MaterialDb[seg.mat].stress * PsiToPa;
      var denom := 2.0 * (sPa + inP * ThicknessY);
      if denom == 0.0 {
        return Failure(ThicknessDivisionByZero);
      }
      var minT := (inP * p.od) / denom + ThicknessAllowance;
      if v <= seg.vLimit && thk >= minT {
        assert Fits(d, i);
        FirstFitIs(d, i);
        var loss := EntryLoss(seg, i, rho, mu, q, phys);
        if loss.Failure? {
          return Failure(loss.error);
        }
        dpPa := loss.value;
        bestSize := Label(seg, p);
        actV := v;
        entry := Some(i);
        break;
      }
      assert !Fits(d, i);
      i := i + 1;
    }
    if entry.None? {
      NoFit(d);
    }
    r := Success(Selection(bestSize, actV, dpPa, entry));
  }

  /** Every material's allowable stress is positive, so the thickness denominator is positive
      for any non-negative absolute pressure: the thickness division by zero needs an inlet
      below vacuum. */
  lemma ThicknessDenominatorPositive(seg: Segment, inP: real, q: real)
    requires WellFormed(seg) && inP >= 0.0
    ensures ThicknessDenominator(DutyOf(seg, inP, q)) > 0.0
  {
    MaterialsSound(seg.mat);
  }

  /** The sizing fails with a thickness division by zero exactly when the formula's
      denominator is zero, and with a friction division by zero only when the first fitting
      entry's turbulent friction term is zero. */
  lemma SizeFailures(seg: Segment, inP: real, rho: real, mu: real, q: real, phys: Physics)
    requires WellFormed(seg) && mu != 0.0
    ensures Size(seg, inP, rho, mu, q, phys) == Failure(ThicknessDivisionByZero)
      <==> ThicknessDenominator(DutyOf(seg, inP, q)) == 0.0
    ensures Size(seg, inP, rho, mu, q, phys) == Failure(FrictionDivisionByZero) ==>
      var d := DutyOf(seg, inP, q);
      && ThicknessDenominator(d) != 0.0
      && FirstFit(d, 0).Some?
      && EntryFriction(seg, FirstFit(d, 0).value, rho, mu, q, phys).None?
  {
  }

  /** A successful sizing reports "N/A" with zero velocity and loss exactly when no table entry
      passes both tests; otherwise it reports the first entry, in table order, that passes
      both, every earlier entry failing one of them, with that entry's velocity and loss. */
  lemma SizeIsFirstFit(seg: Segment, inP: real, rho: real, mu: real, q: real, phys: Physics)
    requires WellFormed(seg) && mu != 0.0
    requires Size(seg, inP, rho, mu, q, phys).Success?
    ensures ThicknessDenominator(DutyOf(seg, inP, q)) != 0.0
    ensures
      var d := DutyOf(seg, inP, q);
      var s := Size(seg, inP, rho, mu, q, phys).value;
      && (s.entry.None? <==> forall j | 0 <= j < |PipeData| :: !Fits(d, j))
      && (s.entry.None? ==> s == Selection(NotApplicable, 0.0, 0.0, None))
      && (s.entry.Some? ==>
            var k := s.entry.value;
            && k < |PipeData| && Fits(d, k)
            && (forall j | 0 <= j < k :: !Fits(d, j))
            && s.size == Label(seg, PipeData[k])
            && s.velocity == Velocity(q, Bore(k, seg.sch))
            && EntryLoss(seg, k, rho, mu, q, phys) == Success(s.lossPa))
  {
  }

  /** The chosen entry is the smallest fitting pipe: no fitting entry has a smaller outer
      diameter. */
  lemma SmallestAdequate(seg: Segment, inP: real, rho: real, mu: real, q: real, phys: Physics, j: nat)
    requires WellFormed(seg) && mu != 0.0
    requires Size(seg, inP, rho, mu, q, phys).Success?
    requires Size(seg, inP, rho, mu, q, phys).value.entry.Some?
    requires j < |PipeData| && Fits(DutyOf(seg, inP, q), j)
    ensures PipeData[Size(seg, inP, rho, mu, q, phys).value.entry.value].od <= PipeData[j].od
  {
    var k := Size(seg, inP, rho, mu, q, phys).value.entry.value;
    SizeIsFirstFit(seg, inP, rho, mu, q, phys);
    PipeDataAscending(k, j);
  }

  /** A tighter velocity limit never selects a smaller entry: if the looser limit finds no
      entry the tighter one finds none either, and otherwise the tighter one finds none or
      one at the same or a later index. */
  lemma {:induction false} TighterLimitNeverSmaller(d: Duty, w: real)
    requires d.sch in Schedules && ThicknessDenominator(d) != 0.0 && w <= d.vLimit
    ensures FirstFit(d, 0).None? ==> FirstFit(d.(vLimit := w), 0).None?
    ensures FirstFit(d, 0).Some? && FirstFit(d.(vLimit := w), 0).Some? ==>
      FirstFit(d, 0).value <= FirstFit(d.(vLimit := w), 0).value
  {
    var t := d.(vLimit := w);
    assert ThicknessDenominator(t) == ThicknessDenominator(d);
    match FirstFit(t, 0)
    case None =>
    case Some(k) =>
      FitsLooser(d, w, k);
  }

  /** With a non-negative length and non-negative fitting counts, the loss through any
      table entry is non-negative. */
  lemma EntryLossNonNegative(seg: Segment, k: nat, rho: real, mu: real, q: real, phys: Physics)
    requires WellFormed(seg) && k < |PipeData| && mu != 0.0 && rho > 0.0
    requires seg.length >= 0.0 && CountsNonNegative(seg)
    requires EntryLoss(seg, k, rho, mu, q, phys).Success?
    ensures EntryLoss(seg, k, rho, mu, q, phys).value >= 0.0
  {
    var idM := Bore(k, seg.sch);
    var f := EntryFriction(seg, k, rho, mu, q, phys).value;
    KFactorsNonNegative();
    TotalKNonNegative(seg.fCounts, KFactors);
    LossNonNegative(f, seg.length, idM, TotalK(seg.fCounts, KFactors), rho, Velocity(q, idM));
  }

  /** With a non-negative length and non-negative fitting counts, the loss of a sized segment
      is non-negative. */
  lemma SizeLossNonNegative(seg: Segment, inP: real, rho: real, mu: real, q: real, phys: Physics)
    requires WellFormed(seg) && mu != 0.0 && rho > 0.0
    requires seg.length >= 0.0 && CountsNonNegative(seg)
    requires Size(seg, inP, rho, mu, q, phys).Success?
    ensures Size(seg, inP, rho, mu, q, phys).value.lossPa >= 0.0
  {
    var s := Size(seg, inP, rho, mu, q, phys).value;
    SizeIsFirstFit(seg, inP, rho, mu, q, phys);
    if s.entry.Some? {
      EntryLossNonNegative(seg, s.entry.value, rho, mu, q, phys);
    }
  }

  /** Through a given entry carrying flow, a longer pipe has a strictly larger loss. */
  lemma EntryLossGrowsWithLength(seg: Segment, l2: real, k: nat, rho: real, mu: real, q: real, phys: Physics)
    requires WellFormed(seg) && k < |PipeData| && mu != 0.0 && rho > 0.0 && q != 0.0 && seg.length < l2
    requires EntryLoss(seg, k, rho, mu, q, phys).Success?
    ensures EntryLoss(seg.(length := l2), k, rho, mu, q, phys).Success?
    ensures EntryLoss(seg, k, rho, mu, q, phys).value < EntryLoss(seg.(length := l2), k, rho, mu, q, phys).value
  {
    var longer := seg.(length := l2);
    assert EntryFriction(longer, k, rho, mu, q, phys) == EntryFriction(seg, k, rho, mu, q, phys);
    var idM := Bore(k, seg.sch);
    var v := Velocity(q, idM);
    assert v != 0.0;
    var f := EntryFriction(seg, k, rho, mu, q, phys).value;
    LossIncreasesWithLength(f, seg.length, l2, idM, TotalK(seg.fCounts, KFactors), rho, v);
  }

  /** Lengthening a sized segment that carries flow keeps the same entry and strictly
      increases its loss; the length plays no part in the selection. */
  lemma LossGrowsWithLength(seg: Segment, l2: real, inP: real, rho: real, mu: real, q: real, phys: Physics)
    requires WellFormed(seg) && mu != 0.0 && rho > 0.0 && q != 0.0 && seg.length < l2
    requires Size(seg, inP, rho, mu, q, phys).Success?
    requires Size(seg, inP, rho, mu, q, phys).value.entry.Some?
    ensures Size(seg.(length := l2), inP, rho, mu, q, phys).Success?
    ensures Size(seg.(length := l2), inP, rho, mu, q, phys).value.entry == Size(seg, inP, rho, mu, q, phys).value.entry
    ensures Size(seg, inP, rho, mu, q, phys).value.lossPa < Size(seg.(length := l2), inP, rho, mu, q, phys).value.lossPa
  {
    var longer := seg.(length := l2);
    var d := DutyOf(seg, inP, q);
    assert DutyOf(longer, inP, q) == d;
    var k := FirstFit(d, 0).value;
    EntryLossGrowsWithLength(seg, l2, k, rho, mu, q, phys);
  }
}
