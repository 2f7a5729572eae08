/** The reference data of the sizing tool: the pipe size table, the material table and the
    fitting loss coefficients, with the facts about them that the sizing rule relies on. */
module Tables {

  /** One nominal pipe size: its inch label (NPS), millimetre label (DN), outer diameter in
      mm and wall thickness in mm for schedules 40, 80 and 160. */
  datatype PipeEntry = PipeEntry(nps: string, dn: nat, od: real, sch40: real, sch80: real, sch160: real)

  /** The pipe table in ascending nominal size; the sizing rule scans it in this order. */
  const PipeData: seq<PipeEntry> := [
    PipeEntry("1/2\"", 15, 21.3, 2.77, 3.73, 4.78),
    PipeEntry("3/4\"", 20, 26.7, 2.87, 3.91, 5.56),
    PipeEntry("1\"", 25, 33.4, 3.38, 4.55, 6.35),
    PipeEntry("1-1/2\"", 40, 48.3, 3.68, 5.08, 7.14),
    PipeEntry("2\"", 50, 60.3, 3.91, 5.54, 8.74),
    PipeEntry("3\"", 80, 88.9, 5.49, 7.62, 11.13),
    PipeEntry("4\"", 100, 114.3, 6.02, 8.56, 13.49),
    PipeEntry("6\"", 150, 168.3, 7.11, 10.97, 18.26),
    PipeEntry("8\"", 200, 219.1, 8.18, 12.70, 23.01),
    PipeEntry("10\"", 250, 273.1, 9.27, 15.09, 28.58),
    PipeEntry("12\"", 300, 323.8, 10.31, 17.48, 33.32),
    PipeEntry("14\"", 350, 355.6, 11.13, 19.05, 35.71),
    PipeEntry("16\"", 400, 406.4, 12.70, 21.44, 40.49),
    PipeEntry("18\"", 450, 457.0, 14.27, 23.83, 45.24),
    PipeEntry("20\"", 500, 508.0, 15.09, 26.19, 50.01),
    PipeEntry("24\"", 600, 610.0, 17.48, 30.96, 59.54)
  ]

  /** The schedule keys a segment may name ("Sch" + key selects the column). */
  const Schedules: set<string> := {"40", "80", "160"}

  /** The wall thickness (mm) of `p` in schedule `sch`. */
  function Thickness(p: PipeEntry, sch: string): real
    requires sch in Schedules
  {
    if sch == "40" then p.sch40 else if sch == "80" then p.sch80 else p.sch160
  }

  /** A material: absolute roughness (mm), allowable stress (psi) and the y coefficient.
      The thickness rule does not read `y`. */
  datatype Material = Material(roughness: real, stress: real, y: real)

  const MaterialDb: map<string, Material> := map[
    "CS (A106-B)" := Material(0.045, 17100.0, 0.4),
    "Alloy (P91)" := Material(0.045, 14300.0, 0.4),
    "SS (304SS)" := Material(0.015, 18800.0, 0.4)
  ]

  /** Fitting loss coefficients, in the order the total-K sum visits them. */
  const KFactors: seq<(string, real)> := [
    ("90 deg Elbow", 0.75), ("45 deg Elbow", 0.35), ("Tee (Branch)", 1.50),
    ("Gate Valve", 0.15), ("Globe Valve", 10.0), ("Check Valve", 2.0)
  ]

  /** A pipe entry with positive wall thicknesses that grow with the schedule number and
      leave a positive bore. */
  predicate SoundEntry(p: PipeEntry)
  {
    0.0 < p.sch40 <= p.sch80 <= p.sch160 && 2.0 * p.sch160 < p.od
  }

  /** Every entry of `s` is sound and outer diameters strictly increase along `s`. */
  predicate SoundAscending(s: seq<PipeEntry>)
  {
    forall i | 0 <= i < |s| :: SoundEntry(s[i]) && (i + 1 < |s| ==> s[i].od < s[i + 1].od)
  }

  /** The pipe table is sound and ascending in outer diameter. */
  lemma PipeDataSound()
    ensures |PipeData| == 16
    ensures SoundAscending(PipeData)
  {
    forall i | 0 <= i < |PipeData|
      ensures SoundEntry(PipeData[i]) && (i + 1 < |PipeData| ==> PipeData[i].od < PipeData[i + 1].od)
    {
      if i < 4 {
      } else if i < 8 {
      } else if i < 12 {
      } else {
      }
    }
  }

  /** Every schedule thickness in the table is positive and smaller than half the outer
      diameter, so every bore is positive. */
  lemma ThicknessInRange(k: nat, sch: string)
    requires k < |PipeData| && sch in Schedules
    ensures 0.0 < Thickness(PipeData[k], sch) && 2.0 * Thickness(PipeData[k], sch) < PipeData[k].od
  {
    PipeDataSound();
    assert SoundEntry(PipeData[k]);
  }

  /** Outer diameters grow with the table index, so the first fitting entry is the smallest. */
  lemma {:induction false} PipeDataAscending(j: nat, k: nat)
    requires j <= k < |PipeData|
    ensures PipeData[j].od <= PipeData[k].od
    decreases k - j
  {
    PipeDataSound();
    if j < k {
      PipeDataAscending(j + 1, k);
      assert PipeData[j].od < PipeData[j + 1].od;
    }
  }

  /** The inner diameter (mm) of `p` in schedule `sch`. */
  function InnerMm(p: PipeEntry, sch: string): real
    requires sch in Schedules
  {
    p.od - 2.0 * Thickness(p, sch)
  }

  /** Along `s` the inner diameter strictly increases in every schedule. */
  predicate BoresAscending(s: seq<PipeEntry>)
  {
    forall i | 0 <= i < |s| - 1 ::
      && s[i].od - 2.0 * s[i].sch40 < s[i + 1].od - 2.0 * s[i + 1].sch40
      && s[i].od - 2.0 * s[i].sch80 < s[i + 1].od - 2.0 * s[i + 1].sch80
      && s[i].od - 2.0 * s[i].sch160 < s[i + 1].od - 2.0 * s[i + 1].sch160
  }

  /** In every schedule, each pipe in the table has a wider bore than the one before it. */
  lemma PipeBoresAscending()
    ensures BoresAscending(PipeData)
  {
    forall i | 0 <= i < |PipeData| - 1
      ensures && PipeData[i].od - 2.0 * PipeData[i].sch40 < PipeData[i + 1].od - 2.0 * PipeData[i + 1].sch40
              && PipeData[i].od - 2.0 * PipeData[i].sch80 < PipeData[i + 1].od - 2.0 * PipeData[i + 1].sch80
              && PipeData[i].od - 2.0 * PipeData[i].sch160 < PipeData[i + 1].od - 2.0 * PipeData[i + 1].sch160
    {
      if i < 4 {
      } else if i < 8 {
      } else if i < 12 {
      } else {
      }
    }
  }

  /** Bores grow with the table index in every schedule: a later pipe is strictly wider. */
  lemma {:induction false} BoreGrowsAlongTable(j: nat, k: nat, sch: string)
    requires j < k < |PipeData| && sch in Schedules
    ensures InnerMm(PipeData[j], sch) < InnerMm(PipeData[k], sch)
    decreases k - j
  {
    PipeBoresAscending();
    assert InnerMm(PipeData[j], sch) < InnerMm(PipeData[j + 1], sch);
    if j + 1 < k {
      BoreGrowsAlongTable(j + 1, k, sch);
    }
  }

  /** Every material has a positive allowable stress and a non-negative roughness. */
  lemma MaterialsSound(name: string)
    requires name in MaterialDb
    ensures MaterialDb[name].stress > 0.0 && MaterialDb[name].roughness >= 0.0
  {
  }

  /** Every fitting coefficient is non-negative. */
  lemma KFactorsNonNegative()
    ensures forall i | 0 <= i < |KFactors| :: KFactors[i].1 >= 0.0
  {
  }
}
