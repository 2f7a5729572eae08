# Piping network sizing, modelled in Dafny

The system is a single-page tool for sizing a water piping network. The user adds segments one
at a time. Each segment has:

- a name and an upstream ("parent") segment, or the root marker `None (Root)`;
- an inlet pressure reading in one of five units: `bar g`, `bar a`, `MPa g`, `MPa a` or
  `m (Head)`;
- a mass or volumetric flow, a temperature and a material;
- a length, a pipe schedule (40, 80 or 160), a velocity limit and counts of six fitting kinds.

One evaluation pass walks the segments in the order they were added, and does this for each:

1. It resolves the absolute inlet pressure. A root segment converts its own reading. Any other
   segment takes the outlet pressure last recorded under its parent's name, or one atmosphere
   when there is none.
2. It looks up water density and viscosity at the inlet.
3. It scans the pipe table from the smallest size up. It takes the first pipe whose velocity is
   within the limit and whose schedule wall is at least the pressure-design minimum
   `P*OD / (2*(S + 0.4*P)) + 1.5`.
4. It computes that pipe's Darcy-Weisbach loss with fittings, records `inlet - loss` as the
   segment's outlet pressure, and emits one report row in the segment's own unit.

The model is split into seven modules:

- `Text`: substring membership and the first word of a label.
- `Tables`: the pipe, material and fitting tables, with their soundness facts.
- `Units`: conversion of readings to and from absolute pascals.
- `Wrappers`: the `Option` and `Result` types.
- `Segments`: the segment record, the fluid-property collaborators and the two
  division-by-zero errors.
- `Sizing`: the sizing rule, as the function `Size` and the loop `SelectPipe`.
- `Network`: the pass, as the function `Evaluate` and the loop `RunSystemCalc`.

Each loop is proved equal to its function, and the properties are proved about the functions.

Behaviour the model reproduces as the code has it:

- A root segment's inlet is converted with the default density of 1000 kg/m^3. Its displayed
  pressures are converted with the density the property provider returns. So a head reading
  is displayed as `h * 1000 / rho` rather than `h` (`Network.RootInletDisplay`): a root's head
  reading is not displayed as entered unless the water density is exactly 1000 kg/m^3.
- The thickness rule uses the fixed coefficient 0.4 and never reads the material's `y` field.
- Python's divisions by zero become `Failure` results, and a failure stops the whole pass:
  - a zero thickness denominator gives `ThicknessDivisionByZero`;
  - a zero turbulent logarithm gives `FrictionDivisionByZero`.
- An unrecognised pressure unit passes through both conversions unchanged.

## Model

| member | source | states |
|---|---|---|
| Units.ConvertToPa | app.py:39-45 | defines `convert_to_pa`; its properties are stated by the Units lemmas below |
| Units.ConvertFromPa | app.py:47-53 | defines `convert_from_pa`; its properties are stated by the Units lemmas below |
| Units.UnitOfKnown | app.py:39-45 | a unit label selects a conversion branch exactly when it is one of the five form units |
| Units.RoundTrip | app.py:39-53 | for each of the five units and any non-zero density, converting a reading to Pa and back gives the reading |
| Units.RoundTripPa | app.py:39-53 | for each of the five units and any non-zero density, converting Pa to a reading and back gives the Pa value |
| Units.UnknownUnitPassesThrough | app.py:39-53 | a unit outside the five leaves the number unchanged in both directions |
| Units.GaugeIsAbsolutePlusAtm | app.py:40-50 | bar g is bar a plus 101325 Pa and MPa g is MPa a plus 101325 Pa; the inverse subtracts one atmosphere in the unit |
| Units.PaPerUnit | app.py:40-44 | each known unit's scale factor is positive for a positive density |
| Units.ConversionIsIncreasingAffine | app.py:39-44 | for a known unit the conversion scales differences by that factor, so it preserves strict order |
| Units.DensityOnlyForHead | app.py:39-53 | only the head conversion depends on the density |
| Units.HeadRescales | app.py:44-52 | a head reading converted with one density and back with another is rescaled by their ratio |
| Tables.PipeDataSound | app.py:8-25 | the pipe table has 16 rows; every row has positive walls that grow with schedule and leave a positive bore; outer diameters strictly increase |
| Tables.ThicknessInRange | app.py:8-25 | every schedule wall is positive and less than half the outer diameter |
| Tables.PipeDataAscending | app.py:8-25 | a later table row never has a smaller outer diameter |
| Tables.MaterialsSound | app.py:27-31 | every material has positive allowable stress and non-negative roughness |
| Tables.KFactorsNonNegative | app.py:33-36 | every fitting coefficient is non-negative |
| Tables.PipeBoresAscending | app.py:8-25 | in each schedule, every row's bore (outer diameter less two walls) is wider than the row before |
| Tables.BoreGrowsAlongTable | app.py:8-25 | in each schedule, a later row always has a strictly wider bore than an earlier one |
| Sizing.Bore | app.py:113-114 | the inner diameter is positive and equals the outer diameter less two walls, in m |
| Sizing.FlowArea | app.py:115 | the flow area of a positive bore is positive |
| Sizing.FlowAreaGrows | app.py:115 | a wider bore has a strictly larger flow area |
| Sizing.VelocityFalls | app.py:115 | the same positive flow is strictly slower in a wider bore |
| Sizing.VelocityFallsAlongTable | app.py:112-115 | for a positive flow the velocity strictly falls along the pipe table in every schedule |
| Sizing.MinThickness | app.py:118-119 | defines the pressure-design minimum wall; `SizeFailures` states when its division fails |
| Sizing.ThicknessDenominatorPositive | app.py:118-119 | for a non-negative absolute inlet the thickness denominator is positive, so the thickness division by zero needs a pressure below vacuum |
| Sizing.Fits | app.py:121 | defines the two-part acceptance test; `FirstFit` and `SizeIsFirstFit` state what it selects |
| Sizing.FirstFit | app.py:112-121 | the result passes both tests, every earlier entry fails one, and no result means no entry passes |
| Sizing.Friction | app.py:124 | the friction factor is positive in both branches; it is missing exactly when the flow is turbulent and the logarithm is zero |
| Sizing.TotalK | app.py:125 | defines the summed fitting coefficient; `TotalKNonNegative` and `TotalKWithoutFittings` state its properties |
| Sizing.DarcyLoss | app.py:126 | defines the Darcy-Weisbach loss; `LossNonNegative` and `LossIncreasesWithLength` state its properties |
| Sizing.EntryLoss | app.py:122-126 | defines the loss through one table entry, or the friction error; `EntryLossNonNegative` and `EntryLossGrowsWithLength` state its properties |
| Sizing.TotalKNonNegative | app.py:125 | with non-negative counts the summed fitting coefficient is non-negative |
| Sizing.TotalKWithoutFittings | app.py:125 | with all counts zero the summed fitting coefficient is zero |
| Sizing.LossNonNegative | app.py:126 | with non-negative friction, length, coefficients and density the loss is non-negative |
| Sizing.LossIncreasesWithLength | app.py:126 | with positive friction, density and velocity, a longer pipe has a strictly larger loss |
| Sizing.Label | app.py:128 | defines the size label; `LabelOptions` states it for the two form options |
| Sizing.LabelOptions | app.py:128 | "NPS (inch)" labels the pipe by NPS; "DN (mm)" labels it by DN |
| Sizing.Size | app.py:110-130 | defines the sizing of one segment; `SizeIsFirstFit` and `SizeFailures` state what it returns |
| Sizing.SelectPipe | app.py:110-130 | the scan-and-break loop returns exactly the sizing `Size` defines, errors included |
| Sizing.SizeFailures | app.py:118-124 | sizing fails on the thickness denominator exactly when it is zero; the friction error happens only at the first fitting entry |
| Sizing.SizeIsFirstFit | app.py:110-130 | "N/A" with zero velocity and loss exactly when no entry fits; otherwise the first fitting entry, with its label, velocity and loss |
| Sizing.SmallestAdequate | app.py:112-130 | no fitting entry has a smaller outer diameter than the chosen one |
| Sizing.TighterLimitNeverSmaller | app.py:112-121 | a tighter velocity limit finds no entry, or one at the same or a later index |
| Sizing.EntryLossNonNegative | app.py:122-126 | with non-negative length and counts, the loss through any entry is non-negative |
| Sizing.SizeLossNonNegative | app.py:110-126 | with non-negative length and counts, a sized segment's loss is non-negative |
| Sizing.EntryLossGrowsWithLength | app.py:122-126 | through a given entry carrying flow, a longer segment has a strictly larger loss |
| Sizing.LossGrowsWithLength | app.py:110-130 | lengthening a sized segment keeps the same pipe and strictly increases the loss |
| Network.InletPa | app.py:99-102 | defines the inlet resolution; `InletResolution` states it against the segments before |
| Network.VolumetricFlow | app.py:108 | defines the volumetric flow; `FlowOptions` and `DenserFluidFlowsSlower` state its properties |
| Network.FlowOptions | app.py:73-108 | for "Mass (kg/h)" the flow times the density per hour is the reading; for "Vol (m³/h)" the flow per hour is the reading, independent of the density |
| Network.DenserFluidFlowsSlower | app.py:108 | for a positive mass reading a denser fluid gives a strictly smaller, still positive, volumetric flow |
| Network.Step | app.py:99-137 | defines one segment's evaluation; `RowIsStep`, `InletResolution`, `OutletNotAboveInlet` and `ReportedPressures` state its properties |
| Network.Report | app.py:132-140 | defines the outlet and the report row; `ReportedPressures` and `DisplayedLossMatchesPressures` state its properties |
| Network.DisplayLoss | app.py:139 | defines the displayed loss; `DisplayedLossScale` and `DisplayedLossMatchesPressures` state its properties |
| Network.LossUnitLabel | app.py:140 | defines the loss unit label; `LossUnitLabels` states it for the five units |
| Network.Evaluate | app.py:97-150 | a successful pass has one row per segment, in order, each named after its segment |
| Network.RunSystemCalc | app.py:93-151 | the loop succeeds exactly when the pass does; it returns the pass's rows or the error that stopped it |
| Network.FailurePropagates | app.py:97-130 | once a prefix of the network fails, the whole pass fails with the same error |
| Network.PrefixSucceeds | app.py:97-150 | a successful pass succeeds on every prefix, and the prefix's rows are its leading rows |
| Network.RowIsStep | app.py:97-150 | row i is what segment i produces from the outlet pressures recorded by the segments before it |
| Network.LastIndex | app.py:133 | the index of the last segment with a given name, or none when no segment has it |
| Network.ExitMapIsLatest | app.py:132-133 | the outlet map has a key exactly for each segment name, holding the outlet of the last segment with that name |
| Network.InletResolution | app.py:99-102 | root inlet is its reading at density 1000; otherwise it is the latest earlier outlet of the parent's name, or 101325 Pa |
| Network.NoSizeKeepsPressure | app.py:110-132 | with no fitting pipe the row shows "N/A", zero velocity, zero loss and outlet equal to inlet |
| Network.OutletFallsWithLength | app.py:122-132 | lengthening a segment that found a pipe and carries flow keeps it sizable and strictly lowers its outlet pressure |
| Network.OutletNotAboveInlet | app.py:122-132 | with non-negative length and fitting counts the outlet never exceeds the inlet |
| Network.LossUnitLabels | app.py:140 | the loss unit is "bar" for the bar units, "MPa" for the MPa units and "m" for head |
| Network.DisplayedLossMatchesPressures | app.py:136-140 | for each of the five units the displayed loss is the displayed inlet minus the displayed outlet, with its unit label |
| Network.ReportedPressures | app.py:132-137 | the outlet is the inlet less the loss; both displayed pressures convert back to those absolute pressures |
| Network.DisplayedLossScale | app.py:139 | for bar units the displayed loss is the Pa loss over 1e5; for MPa units it is over 1e6 |
| Network.RootInletDisplay | app.py:100-136 | a root shows its own reading for bar and MPa units, and the head reading times 1000/rho for head |

## Left out

- The input form, session state, rerun and reset (app.py:56-90, 173-175): presentation and
  session plumbing. The form's guarantees become preconditions:
  - the material, schedule and fitting names are keys of the tables (`WellFormed`);
  - fitting counts are non-negative where a lemma needs it (`CountsNonNegative`).
- The graphviz diagram and the pandas table (app.py:153-171): presentation libraries.
- CoolProp density and viscosity (app.py:105-106): foreign library calls. They are parameters
  (`Physics.density`, `Physics.viscosity`), assumed positive. A lookup that raises for an
  invalid state is not modelled.
- The turbulent term `log10((rr/3.7)**1.11 + 6.9/Re)` (app.py:124): transcendental. It is the
  parameter `Physics.colebrookLog`, and only its zero value (a division by zero) is
  distinguished.
- `math.pi` is the real number 3.141592653589793.
- Floating-point rounding, and the `round(...)` calls for display (app.py:145-149): all
  arithmetic is over exact reals, and displayed values are unrounded.
- The unit-suffixed column labels (app.py:144-149): presentation only. The loss-unit label rule
  (app.py:140) is modelled.
- The DN label `f"DN {dn}"` is the constructor `Dn(dn)` rather than a formatted string.
- Network.RunSystemCalc: returns the rows, or the error for the first segment whose calculation
  divides by zero, instead of raising an exception. A `KeyError` from a name outside the tables
  cannot occur under `WellFormed`.
