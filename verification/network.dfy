/** The network evaluation pass: walk the segments in the order they were added, resolve each
    inlet pressure (its own reading for a root segment, the latest recorded outlet of its
    parent otherwise), size it, record its outlet pressure under its name and emit one report
    row in its own pressure unit. */
module Network {
  import opened Wrappers
  import opened Text
  import opened Units
  import opened Segments
  import opened Sizing

  /** One report row: segment name, size label, inlet pressure, flow reading, velocity (m/s),
      pressure loss with its unit label, and outlet pressure, pressures in the segment's unit. */
  datatype Row = Row(
    segment: string,
    size: SizeLabel,
    inlet: real,
    flow: real,
    velocity: real,
    loss: real,
    lossUnit: string,
    outlet: real)

  /** What evaluating one segment produces: absolute inlet pressure (Pa), the density used
      for display, the sizing, absolute outlet pressure (Pa) and the report row. */
  datatype StepOut = StepOut(inletPa: real, rho: real, selection: Selection, exitPa: real, row: Row)

  /** The state of the pass: rows emitted so far and the outlet pressure recorded per name. */
  datatype Pass = Pass(rows: seq<Row>, exitP: map<string, real>)

  /** The absolute temperature offset, K. */
  const KelvinOffset: real := 273.15
  /** Seconds per hour. */
  const SecondsPerHour: real := 3600.0

  /** The absolute inlet pressure of `seg`: its own reading converted with the default
      density for a root segment, else the recorded outlet of its parent, else one
      atmosphere. */
  function InletPa(seg: Segment, exitP: map<string, real>): real
  {
    if seg.parent == Root then ConvertToPa(seg.pVal, seg.pUnit, DefaultDensity)
    else if seg.parent in exitP then exitP[seg.parent]
    else Atm
  }

  /** The volumetric flow (m^3/s) of `seg` at density `rho`. */
  function VolumetricFlow(seg: Segment, rho: real): real
    requires rho != 0.0
  {
    if Contains(seg.fType, "Mass") then seg.fVal / rho / SecondsPerHour else seg.fVal / SecondsPerHour
  }

  /** The two flow options of the form: a "Mass (kg/h)" reading is the volumetric flow times
      the density per hour, and a "Vol (m³/h)" reading is the volumetric flow per hour,
      whatever the density. */
  lemma FlowOptions(seg: Segment, rho: real, rho2: real)
    requires rho > 0.0 && rho2 > 0.0
    ensures seg.fType == "Mass (kg/h)" ==> VolumetricFlow(seg, rho) * rho * SecondsPerHour == seg.fVal
    ensures seg.fType == "Vol (m³/h)" ==> VolumetricFlow(seg, rho) * SecondsPerHour == seg.fVal
    ensures seg.fType == "Vol (m³/h)" ==> VolumetricFlow(seg, rho) == VolumetricFlow(seg, rho2)
  {
    FlowLabels();
    if Contains(seg.fType, "Mass") {
      MassFlow(seg, rho);
    }
  }

  lemma MassFlow(seg: Segment, rho: real)
    requires rho > 0.0 && Contains(seg.fType, "Mass")
    ensures VolumetricFlow(seg, rho) * rho * SecondsPerHour == seg.fVal
  {
    var perHour := seg.fVal / rho;
    assert perHour * rho == seg.fVal;
    assert VolumetricFlow(seg, rho) * SecondsPerHour == perHour;
  }

  lemma FlowLabels()
    ensures Contains("Mass (kg/h)", "Mass")
    ensures !Contains("Vol (m³/h)", "Mass")
  {
    assert StartsWith("Mass (kg/h)", "Mass");
    MissingChar("Vol (m³/h)", "Mass", 0);
  }

  /** For a positive mass reading (a flow label containing "Mass"), a denser fluid carries a
      smaller volumetric flow. */
  lemma DenserFluidFlowsSlower(seg: Segment, rho1: real, rho2: real)
    requires Contains(seg.fType, "Mass") && seg.fVal > 0.0 && 0.0 < rho1 < rho2
    ensures 0.0 < VolumetricFlow(seg, rho2) < VolumetricFlow(seg, rho1)
  {
    var a1, a2 := seg.fVal / rho1, seg.fVal / rho2;
    assert VolumetricFlow(seg, rho1) == a1 / SecondsPerHour;
    assert VolumetricFlow(seg, rho2) == a2 / SecondsPerHour;
    assert a1 * rho1 == seg.fVal && a2 * rho2 == seg.fVal;
    assert a2 > 0.0;
    SignOfProduct(rho2 - rho1, a2);
    assert (rho2 - rho1) * a2 == a2 * rho2 - a2 * rho1;
    SignOfProduct(a1 - a2, rho1);
    assert (a1 - a2) * rho1 == a1 * rho1 - a2 * rho1;
  }

  /** The displayed loss: the difference of the displayed pressures for a unit containing
      "m", else the loss in Pa divided by 1e5 for a unit containing "bar" or by 1e6. */
  function DisplayLoss(pUnit: string, inDisp: real, outDisp: real, dpPa: real): real
  {
    if Contains(pUnit, "m") then inDisp - outDisp
    else dpPa / (if Contains(pUnit, "bar") then 100000.0 else 1000000.0)
  }

  /** The loss unit label: "m" for a unit containing "m", else the unit's first word. */
  function LossUnitLabel(pUnit: string): string
  {
    if !Contains(pUnit, "m") then FirstWord(pUnit) else "m"
  }

  /** The report stage of one segment: the outlet pressure is the inlet minus the loss, and
      the row shows both pressures, and the loss, in the segment's own unit, converted with
      the density `rho` of the fluid at the inlet. */
  function Report(seg: Segment, inP: real, rho: real, sz: Selection): StepOut
    requires rho > 0.0
  {
    var exitPa := inP - sz.lossPa;
    var inDisp := ConvertFromPa(inP, seg.pUnit, rho);
    var outDisp := ConvertFromPa(exitPa, seg.pUnit, rho);
    var row := Row(seg.name, sz.size, inDisp, seg.fVal, sz.velocity,
                   DisplayLoss(seg.pUnit, inDisp, outDisp, sz.lossPa), LossUnitLabel(seg.pUnit), outDisp);
    StepOut(inP, rho, sz, exitPa, row)
  }

  /** The temperature in K at which `seg`'s fluid properties are taken. */
  function Kelvin(seg: Segment): real
  {
    seg.temp + KelvinOffset
  }

  /** Evaluating one segment against the outlet pressures recorded so far: resolve the inlet,
      look up the fluid at the inlet, size the segment and report it. */
  function Step(seg: Segment, exitP: map<string, real>, phys: Physics): Result<StepOut, CalcError>
    requires PhysicsValid(phys) && WellFormed(seg)
  {
    var inP := InletPa(seg, exitP);
    var rho := phys.density(Kelvin(seg), inP);
    var mu := phys.viscosity(Kelvin(seg), inP);
    match Size(seg, inP, rho, mu, VolumetricFlow(seg, rho), phys)
    case Failure(e) => Failure(e)
    case Success(sz) => Success(Report(seg, inP, rho, sz))
  }

  /** The pass state after segment `seg`: its row appended and its outlet pressure recorded
      under its name, replacing any earlier segment of the same name. */
  function Advance(st: Pass, seg: Segment, phys: Physics): (r: Result<Pass, CalcError>)
    requires PhysicsValid(phys) && WellFormed(seg)
  {
    match Step(seg, st.exitP, phys)
    case Failure(e) => Failure(e)
    case Success(out) => Success(Pass(st.rows + [out.row], st.exitP[seg.name := out.exitPa]))
  }

  /** A successful advance appends exactly one row, named after the segment. */
  lemma AdvanceAppends(st: Pass, seg: Segment, phys: Physics)
    requires PhysicsValid(phys) && WellFormed(seg)
    ensures Advance(st, seg, phys).Success? ==>
      var rows := Advance(st, seg, phys).value.rows;
      |rows| == |st.rows| + 1 && rows[..|st.rows|] == st.rows && rows[|st.rows|].segment == seg.name
  {
  }

  predicate AllWellFormed(segs: seq<Segment>)
  {
    forall i | 0 <= i < |segs| :: WellFormed(segs[i])
  }

  /** The pass over `segs` in order; the first failing segment stops it. A successful pass
      has exactly one row per segment, in order, each named after its segment. */
  function Evaluate(segs: seq<Segment>, phys: Physics): (r: Result<Pass, CalcError>)
    requires PhysicsValid(phys) && AllWellFormed(segs)
    ensures r.Success? ==> |r.value.rows| == |segs|
    ensures r.Success? ==> forall i | 0 <= i < |segs| :: r.value.rows[i].segment == segs[i].name
    decreases |segs|
  {
    if segs == [] then Success(Pass([], map[]))
    else
      match Evaluate(segs[..|segs| - 1], phys)
      case Failure(e) => Failure(e)
      case Success(st) =>
        AdvanceAppends(st, segs[|segs| - 1], phys);
        Advance(st, segs[|segs| - 1], phys)
  }

  /** Evaluating one more segment of `segs` advances the pass over the prefix before it. */
  lemma EvaluateNext(segs: seq<Segment>, n: nat, phys: Physics)
    requires PhysicsValid(phys) && AllWellFormed(segs) && n < |segs|
    ensures Evaluate(segs[..n], phys).Failure? ==>
      Evaluate(segs[..n + 1], phys) == Failure(Evaluate(segs[..n], phys).error)
    ensures Evaluate(segs[..n], phys).Success? ==>
      Evaluate(segs[..n + 1], phys) == Advance(Evaluate(segs[..n], phys).value, segs[n], phys)
  {
    assert segs[..n + 1][..n] == segs[..n];
    assert segs[..n + 1][n] == segs[n];
  }

  /** `run_system_calc`: the evaluation loop over the network, threading the outlet-pressure
      map from segment to segment and appending one row per segment. */
  method RunSystemCalc(network: seq<Segment>, phys: Physics) returns (res: Result<seq<Row>, CalcError>)
    requires PhysicsValid(phys) && AllWellFormed(network)
    ensures res.Success? <==> Evaluate(network, phys).Success?
    ensures res.Success? ==> res.value == Evaluate(network, phys).value.rows
    ensures res.Failure? ==> res.error == Evaluate(network, phys).error
  {
    var results: seq<Row> := [];
    var exitPMap: map<string, real> := map[];
    for n := 0 to |network|
      invariant Evaluate(network[..n], phys) == Success(Pass(results, exitPMap))
    {
      var seg := network[n];
      EvaluateNext(network, n, phys);
      var inP := InletPa(seg, exitPMap);
      var rho := phys.density(Kelvin(seg), inP);
      var mu := phys.viscosity(Kelvin(seg), inP);
      var q := VolumetricFlow(seg, rho);
      var sized := SelectPipe(seg, inP, rho, mu, q, phys);
      if sized.Failure? {
        FailurePropagates(network, n + 1, phys);
        return Failure(sized.error);
      }
      var out := Report(seg, inP, rho, sized.value);
      results := results + [out.row];
      exitPMap := exitPMap[seg.name := out.exitPa];
    }
    assert network[..|network|] == network;
    res := Success(results);
  }

  /** Once a prefix of the network fails, the whole pass fails with the same error. */
  lemma {:induction false} FailurePropagates(segs: seq<Segment>, n: nat, phys: Physics)
    requires PhysicsValid(phys) && AllWellFormed(segs) && n <= |segs|
    requires Evaluate(segs[..n], phys).Failure?
    ensures Evaluate(segs, phys) == Failure(Evaluate(segs[..n], phys).error)
    decreases |segs| - n
  {
    if n < |segs| {
      EvaluateNext(segs, n, phys);
      FailurePropagates(segs, n + 1, phys);
    } else {
      assert segs[..n] == segs;
    }
  }

  /** A successful pass succeeded on every prefix, and its rows extend the prefix's rows. */
  lemma {:induction false} PrefixSucceeds(segs: seq<Segment>, n: nat, phys: Physics)
    requires PhysicsValid(phys) && AllWellFormed(segs) && n <= |segs|
    requires Evaluate(segs, phys).Success?
    ensures Evaluate(segs[..n], phys).Success?
    ensures Evaluate(segs[..n], phys).value.rows == Evaluate(segs, phys).value.rows[..n]
    decreases |segs| - n
  {
    if n == |segs| {
      assert segs[..n] == segs;
    } else {
      PrefixSucceeds(segs, n + 1, phys);
      EvaluateNext(segs, n, phys);
      AdvanceAppends(Evaluate(segs[..n], phys).value, segs[n], phys);
      var rows := Evaluate(segs, phys).value.rows;
      assert rows[..n + 1][..n] == rows[..n];
    }
  }

  /** The evaluation of segment `i` of a pass, against the map recorded before it. */
  function StepAt(segs: seq<Segment>, i: nat, phys: Physics): Result<StepOut, CalcError>
    requires PhysicsValid(phys) && AllWellFormed(segs) && i < |segs|
    requires Evaluate(segs[..i], phys).Success?
  {
    Step(segs[i], Evaluate(segs[..i], phys).value.exitP, phys)
  }

  /** Row `i` of a successful pass is the row segment `i` produced from the outlet pressures
      recorded by the segments before it. */
  lemma RowIsStep(segs: seq<Segment>, i: nat, phys: Physics)
    requires PhysicsValid(phys) && AllWellFormed(segs) && i < |segs|
    requires Evaluate(segs, phys).Success?
    ensures Evaluate(segs[..i], phys).Success?
    ensures StepAt(segs, i, phys).Success?
    ensures Evaluate(segs, phys).value.rows[i] == StepAt(segs, i, phys).value.row
  {
    PrefixSucceeds(segs, i + 1, phys);
    PrefixSucceeds(segs, i, phys);
    EvaluateNext(segs, i, phys);
    var all := Evaluate(segs, phys).value.rows;
    assert all[..i + 1][i] == all[i];
  }

  /** The index of the last segment of `segs` named `name`, if any. */
  function LastIndex(segs: seq<Segment>, name: string): (r: Option<nat>)
    ensures r.Some? ==> r.value < |segs| && segs[r.value].name == name
    ensures r.Some? ==> forall k | r.value < k < |segs| :: segs[k].name != name
    ensures r.None? ==> forall k | 0 <= k < |segs| :: segs[k].name != name
    decreases |segs|
  {
    if segs == [] then None
    else if segs[|segs| - 1].name == name then Some(|segs| - 1)
    else LastIndex(segs[..|segs| - 1], name)
  }

  /** After a successful pass the map holds an outlet pressure for exactly the names in the
      network, and for each name it holds the outlet of the last segment with that name. */
  lemma {:induction false} ExitMapIsLatest(segs: seq<Segment>, name: string, phys: Physics)
    requires PhysicsValid(phys) && AllWellFormed(segs)
    requires Evaluate(segs, phys).Success?
    ensures name in Evaluate(segs, phys).value.exitP <==> LastIndex(segs, name).Some?
    ensures LastIndex(segs, name).Some? ==>
      var j := LastIndex(segs, name).value;
      && Evaluate(segs[..j], phys).Success?
      && StepAt(segs, j, phys).Success?
      && Evaluate(segs, phys).value.exitP[name] == StepAt(segs, j, phys).value.exitPa
    decreases |segs|
  {
    if segs != [] {
      var n := |segs| - 1;
      var init := segs[..n];
      assert AllWellFormed(init);
      PrefixSucceeds(segs, n, phys);
      EvaluateNext(segs, n, phys);
      assert segs[..n + 1] == segs;
      ExitMapIsLatest(init, name, phys);
      if segs[n].name != name && LastIndex(init, name).Some? {
        PrefixOfPrefix(segs, n, LastIndex(init, name).value);
      }
    }
  }

  /** Inlet resolution: in a successful pass, segment `i`'s absolute inlet pressure is its own
      reading converted with the default density of 1000 kg/m^3 when it is a root, and
      otherwise the outlet pressure of the most recent earlier segment named as its parent,
      or one atmosphere when there is none. */
  lemma InletResolution(segs: seq<Segment>, i: nat, phys: Physics)
    requires PhysicsValid(phys) && AllWellFormed(segs) && i < |segs|
    requires Evaluate(segs, phys).Success?
    ensures Evaluate(segs[..i], phys).Success? && StepAt(segs, i, phys).Success?
    ensures segs[i].parent == Root ==>
      StepAt(segs, i, phys).value.inletPa == ConvertToPa(segs[i].pVal, segs[i].pUnit, DefaultDensity)
    ensures segs[i].parent != Root && LastIndex(segs[..i], segs[i].parent).None? ==>
      StepAt(segs, i, phys).value.inletPa == Atm
    ensures segs[i].parent != Root && LastIndex(segs[..i], segs[i].parent).Some? ==>
      var j := LastIndex(segs[..i], segs[i].parent).value;
      && j < i
      && Evaluate(segs[..j], phys).Success?
      && StepAt(segs, j, phys).Success?
      && StepAt(segs, i, phys).value.inletPa == StepAt(segs, j, phys).value.exitPa
  {
    RowIsStep(segs, i, phys);
    var pre := segs[..i];
    assert AllWellFormed(pre);
    StepInlet(segs[i], Evaluate(pre, phys).value.exitP, phys);
    if segs[i].parent != Root {
      ExitMapIsLatest(pre, segs[i].parent, phys);
      if LastIndex(pre, segs[i].parent).Some? {
        var j := LastIndex(pre, segs[i].parent).value;
        PrefixOfPrefix(segs, i, j);
      }
    }
  }

  /** The first `j` segments of a longer prefix, and its segment `j`, are those of the whole
      network. */
  lemma PrefixOfPrefix(segs: seq<Segment>, i: nat, j: nat)
    requires j < i <= |segs|
    ensures segs[..i][..j] == segs[..j] && segs[..i][j] == segs[j]
  {
  }

  /** A successful step reports the inlet pressure it resolved. */
  lemma StepInlet(seg: Segment, exitP: map<string, real>, phys: Physics)
    requires PhysicsValid(phys) && WellFormed(seg)
    requires Step(seg, exitP, phys).Success?
    ensures Step(seg, exitP, phys).value.inletPa == InletPa(seg, exitP)
  {
  }

  /** The sizing a successful step used, with the fluid at its inlet. */
  lemma StepSizing(seg: Segment, exitP: map<string, real>, phys: Physics)
    requires PhysicsValid(phys) && WellFormed(seg)
    requires Step(seg, exitP, phys).Success?
    ensures var inP := InletPa(seg, exitP);
      var rho := phys.density(Kelvin(seg), inP);
      var mu := phys.viscosity(Kelvin(seg), inP);
      && Size(seg, inP, rho, mu, VolumetricFlow(seg, rho), phys).Success?
      && Step(seg, exitP, phys).value ==
         Report(seg, inP, rho, Size(seg, inP, rho, mu, VolumetricFlow(seg, rho), phys).value)
  {
  }

  /** A segment for which no pipe qualifies reports "N/A", zero velocity and zero loss, and
      its outlet pressure equals its inlet pressure. */
  lemma NoSizeKeepsPressure(seg: Segment, exitP: map<string, real>, phys: Physics)
    requires PhysicsValid(phys) && WellFormed(seg)
    requires Step(seg, exitP, phys).Success?
    requires Step(seg, exitP, phys).value.selection.entry.None?
    ensures Step(seg, exitP, phys).value.exitPa == Step(seg, exitP, phys).value.inletPa
    ensures Step(seg, exitP, phys).value.row.size == NotApplicable
    ensures Step(seg, exitP, phys).value.row.velocity == 0.0
    ensures Step(seg, exitP, phys).value.row.loss == 0.0
    ensures Step(seg, exitP, phys).value.row.outlet == Step(seg, exitP, phys).value.row.inlet
  {
    var inP := InletPa(seg, exitP);
    var rho := phys.density(Kelvin(seg), inP);
    var mu := phys.viscosity(Kelvin(seg), inP);
    StepSizing(seg, exitP, phys);
    SizeIsFirstFit(seg, inP, rho, mu, VolumetricFlow(seg, rho), phys);
  }

  /** With a non-negative length and non-negative fitting counts, a segment's outlet pressure
      never exceeds its inlet pressure. */
  lemma OutletNotAboveInlet(seg: Segment, exitP: map<string, real>, phys: Physics)
    requires PhysicsValid(phys) && WellFormed(seg)
    requires seg.length >= 0.0 && CountsNonNegative(seg)
    requires Step(seg, exitP, phys).Success?
    ensures Step(seg, exitP, phys).value.exitPa <= Step(seg, exitP, phys).value.inletPa
  {
    var inP := InletPa(seg, exitP);
    var rho := phys.density(Kelvin(seg), inP);
    var mu := phys.viscosity(Kelvin(seg), inP);
    StepSizing(seg, exitP, phys);
    SizeLossNonNegative(seg, inP, rho, mu, VolumetricFlow(seg, rho), phys);
  }

  /** Lengthening a segment that found a pipe and carries flow keeps it sizable and strictly
      lowers its outlet pressure. */
  lemma OutletFallsWithLength(seg: Segment, l2: real, exitP: map<string, real>, phys: Physics)
    requires PhysicsValid(phys) && WellFormed(seg) && seg.length < l2
    requires Step(seg, exitP, phys).Success? && Step(seg, exitP, phys).value.selection.entry.Some?
    requires VolumetricFlow(seg, phys.density(Kelvin(seg), InletPa(seg, exitP))) != 0.0
    ensures Step(seg.(length := l2), exitP, phys).Success?
    ensures Step(seg.(length := l2), exitP, phys).value.exitPa < Step(seg, exitP, phys).value.exitPa
  {
    var longer := seg.(length := l2);
    var inP := InletPa(seg, exitP);
    var rho := phys.density(Kelvin(seg), inP);
    var mu := phys.viscosity(Kelvin(seg), inP);
    var q := VolumetricFlow(seg, rho);
    assert InletPa(longer, exitP) == inP && Kelvin(longer) == Kelvin(seg);
    assert VolumetricFlow(longer, rho) == q;
    StepSizing(seg, exitP, phys);
    LossGrowsWithLength(seg, l2, inP, rho, mu, q, phys);
    StepSizing(longer, exitP, phys);
  }

  /** Which of the five unit labels contain "m" and "bar", and their first words. */
  lemma MetreLabels()
    ensures !Contains(BarG, "m") && !Contains(BarA, "m") && !Contains(MPaG, "m") && !Contains(MPaA, "m")
    ensures Contains(Head, "m")
  {
    MissingChar(BarG, "m", 0);
    MissingChar(BarA, "m", 0);
    MissingChar(MPaG, "m", 0);
    MissingChar(MPaA, "m", 0);
    assert StartsWith(Head, "m");
  }

  lemma BarLabels()
    ensures Contains(BarG, "bar") && Contains(BarA, "bar")
    ensures !Contains(MPaG, "bar") && !Contains(MPaA, "bar")
  {
    assert StartsWith(BarG, "bar");
    assert StartsWith(BarA, "bar");
    MissingChar(MPaG, "bar", 0);
    MissingChar(MPaA, "bar", 0);
  }

  lemma FirstWords()
    ensures FirstWord(BarG) == "bar" && FirstWord(BarA) == "bar"
    ensures FirstWord(MPaG) == "MPa" && FirstWord(MPaA) == "MPa"
  {
    FirstWordUpTo(BarG, 3);
    FirstWordUpTo(BarA, 3);
    FirstWordUpTo(MPaG, 3);
    FirstWordUpTo(MPaA, 3);
  }

  /** The loss unit label is "bar", "MPa" or "m" for the five units of the input form. */
  lemma LossUnitLabels()
    ensures LossUnitLabel(BarG) == "bar" && LossUnitLabel(BarA) == "bar"
    ensures LossUnitLabel(MPaG) == "MPa" && LossUnitLabel(MPaA) == "MPa"
    ensures LossUnitLabel(Head) == "m"
  {
    MetreLabels();
    FirstWords();
  }

  /** For the five units of the input form, the displayed loss is the displayed inlet minus
      the displayed outlet, and it is labelled with the unit's own magnitude: "bar", "MPa",
      or "m" for head. */
  lemma DisplayedLossMatchesPressures(seg: Segment, inP: real, rho: real, sz: Selection)
    requires rho > 0.0
    ensures var row := Report(seg, inP, rho, sz).row;
      seg.pUnit == BarG || seg.pUnit == BarA ==> row.loss == row.inlet - row.outlet && row.lossUnit == "bar"
    ensures var row := Report(seg, inP, rho, sz).row;
      seg.pUnit == MPaG || seg.pUnit == MPaA ==> row.loss == row.inlet - row.outlet && row.lossUnit == "MPa"
    ensures var row := Report(seg, inP, rho, sz).row;
      seg.pUnit == Head ==> row.loss == row.inlet - row.outlet && row.lossUnit == "m"
  {
    UnitNames();
    MetreLabels();
    BarLabels();
    LossUnitLabels();
  }

  /** For the five units of the input form, the displayed inlet and outlet convert back to
      the absolute pressures they were computed from, and the outlet is the inlet less the
      loss. */
  lemma ReportedPressures(seg: Segment, inP: real, rho: real, sz: Selection)
    requires rho > 0.0 && seg.pUnit in KnownUnits
    ensures var out := Report(seg, inP, rho, sz);
      && out.exitPa == out.inletPa - sz.lossPa
      && ConvertToPa(out.row.inlet, seg.pUnit, rho) == out.inletPa
      && ConvertToPa(out.row.outlet, seg.pUnit, rho) == out.exitPa
  {
    RoundTripPa(inP, seg.pUnit, rho);
    RoundTripPa(inP - sz.lossPa, seg.pUnit, rho);
  }

  /** The displayed loss of a bar or MPa unit is the loss in Pa scaled to that unit. */
  lemma DisplayedLossScale(seg: Segment, inP: real, rho: real, sz: Selection)
    requires rho > 0.0
    ensures seg.pUnit == BarG || seg.pUnit == BarA ==>
      Report(seg, inP, rho, sz).row.loss == sz.lossPa / 100000.0
    ensures seg.pUnit == MPaG || seg.pUnit == MPaA ==>
      Report(seg, inP, rho, sz).row.loss == sz.lossPa / 1000000.0
  {
    MetreLabels();
    BarLabels();
  }

  /** A root segment displays the inlet reading it was given for the bar and MPa units; for
      head it displays the reading scaled by 1000 / rho, because the inlet is converted with
      the default density and displayed with the provider's density. */
  lemma RootInletDisplay(seg: Segment, exitP: map<string, real>, phys: Physics)
    requires PhysicsValid(phys) && WellFormed(seg) && seg.parent == Root
    requires Step(seg, exitP, phys).Success?
    ensures seg.pUnit == BarG || seg.pUnit == BarA || seg.pUnit == MPaG || seg.pUnit == MPaA ==>
      Step(seg, exitP, phys).value.row.inlet == seg.pVal
    ensures seg.pUnit == Head ==>
      Step(seg, exitP, phys).value.row.inlet == seg.pVal * DefaultDensity / Step(seg, exitP, phys).value.rho
  {
    StepSizing(seg, exitP, phys);
    var out := Step(seg, exitP, phys).value;
    if seg.pUnit == BarG || seg.pUnit == BarA || seg.pUnit == MPaG || seg.pUnit == MPaA {
      UnitNames();
      RoundTrip(seg.pVal, seg.pUnit, DefaultDensity);
      DensityOnlyForHead(out.inletPa, seg.pUnit, DefaultDensity, out.rho);
    } else if seg.pUnit == Head {
      HeadRescales(seg.pVal, DefaultDensity, out.rho);
    }
  }
}
